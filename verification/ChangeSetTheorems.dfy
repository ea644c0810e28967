/** What applying a change set does: it takes the snapshot before to the one after, keeps what
    it does not touch elsewhere, and refuses objects that have changed. */
module ChangeSetTheorems {
  import opened Options
  import opened Snapshots
  import opened ChangeSets

  ghost predicate WellFormed(ms: seq<Mutation>) {
    (forall m | m in ms :: MutationOk(m)) && SortedMutations(ms)
  }

  function Key(ms: seq<Mutation>, i: nat): ObjectId
    requires i < |ms| && MutationId(ms[i]).Some?
  {
    MutationId(ms[i]).value
  }

  lemma KeyOrder(ms: seq<Mutation>, i: nat, j: nat)
    requires WellFormed(ms) && i < j < |ms|
    ensures MutationOk(ms[i]) && MutationOk(ms[j]) && Key(ms, i) != Key(ms, j) && Less(Key(ms, i), Key(ms, j))
  {
    assert ms[i] in ms && ms[j] in ms;
    LessIsTotal(Key(ms, i), Key(ms, j));
  }

  lemma KeyOk(ms: seq<Mutation>, i: nat)
    requires WellFormed(ms) && i < |ms|
    ensures MutationOk(ms[i])
  {
    assert ms[i] in ms;
  }

  // ---------------------------------------------------------------- round trip

  /** The first `i` mutations of the change between two object maps have been applied. */
  ghost predicate Halfway(before: Objects, after: Objects, ms: seq<Mutation>, i: nat, objects: Objects)
    requires i <= |ms|
  {
    forall id :: Get(objects, id) == if Touches(ms[..i], id) then Get(after, id) else Get(before, id)
  }

  lemma BelowIsDone(before: Objects, after: Objects, ms: seq<Mutation>, i: nat, objects: Objects, id: ObjectId)
    requires i < |ms| && WellFormed(ms) && Halfway(before, after, ms, i, objects)
    requires forall x | Get(before, x) != Get(after, x) :: Touches(ms, x)
    ensures MutationOk(ms[i])
    ensures Less(id, Key(ms, i)) ==> Get(objects, id) == Get(after, id)
    ensures !Touches(ms[..i], Key(ms, i))
  {
    KeyOk(ms, i);
    if Touches(ms[..i], Key(ms, i)) {
      var m :| m in ms[..i] && MutationId(m) == Some(Key(ms, i));
      var k :| 0 <= k < i && ms[k] == m;
      KeyOrder(ms, k, i);
    }
    if Less(id, Key(ms, i)) && !Touches(ms[..i], id) && Touches(ms, id) {
      var m :| m in ms && MutationId(m) == Some(id);
      var k :| 0 <= k < |ms| && ms[k] == m;
      if k < i {
        assert m in ms[..i];
      } else if k > i {
        KeyOrder(ms, i, k);
        LessIsTotal(id, Key(ms, i));
      } else {
        LessIsTotal(id, id);
      }
    }
  }

  /** Applying one mutation writes its after-image, statistics included: their table is final. */
  lemma StepReaches(before: Objects, after: Snapshot, ms: seq<Mutation>, i: nat, objects: Objects)
    requires i < |ms| && WellFormed(ms) && Halfway(before, after.objects, ms, i, objects)
    requires Consistent(after)
    requires forall x | Get(before, x) != Get(after.objects, x) :: Touches(ms, x)
    requires forall m | m in ms :: MutationBetween(before, after.objects, m)
    ensures var r := ApplyMutation(objects, ms[i]);
            r.Ok? && Halfway(before, after.objects, ms, i + 1, r.value)
  {
    hide UniqueNames, NameIndex;
    assert ms[i] in ms;
    var m, id := ms[i], Key(ms, i);
    BelowIsDone(before, after.objects, ms, i, objects, TableId(id.n));
    assert Get(objects, id) == m.before;
    if id.StatisticsId? && m.after.Some? {
      assert StatisticsOk(after.objects, after.objects[id]);
      assert Get(objects, TableId(id.n)) == Get(after.objects, TableId(id.n));
    }
    var r := ApplyMutation(objects, m);
    assert r.Ok? && Get(r.value, id) == m.after;
    assert ms[..i + 1] == ms[..i] + [m];
    TouchesMore(ms[..i], m);
    forall x ensures Get(r.value, x) == if Touches(ms[..i + 1], x) then Get(after.objects, x) else Get(before, x) {
      assert x != id ==> Get(r.value, x) == Get(objects, x);
    }
  }

  lemma {:induction false} ApplyReaches(before: Objects, after: Snapshot, ms: seq<Mutation>, i: nat, objects: Objects)
    requires i <= |ms| && WellFormed(ms) && Halfway(before, after.objects, ms, i, objects)
    requires Consistent(after)
    requires forall x | Get(before, x) != Get(after.objects, x) :: Touches(ms, x)
    requires forall m | m in ms :: MutationBetween(before, after.objects, m)
    ensures ApplyFrom(objects, ms, i) == Ok(after.objects)
    decreases |ms| - i
  {
    hide Consistent, ApplyMutation;
    if i == |ms| {
      assert ms[..i] == ms;
      SameObjects(objects, after.objects);
    } else {
      StepReaches(before, after, ms, i, objects);
      ApplyReaches(before, after, ms, i + 1, ApplyMutation(objects, ms[i]).value);
    }
  }

  lemma SameObjects(a: Objects, b: Objects)
    requires forall id :: Get(a, id) == Get(b, id)
    ensures a == b
  {
    forall id ensures id in a <==> id in b {
      assert Get(a, id) == Get(b, id);
    }
    forall id | id in a ensures a[id] == b[id] {
      assert Get(a, id) == Get(b, id);
    }
  }

  /** No allocator of `after` is behind its counterpart in `before`. */
  ghost predicate NotRewound(before: Snapshot, after: Snapshot) {
    && AtLeast(after.next, before.next)
    && forall n | n in RelationIds(before.objects) && n in RelationIds(after.objects) ::
         NextColumn(after.objects, n) >= NextColumn(before.objects, n)
  }

  /** `after` with the allocators that are behind those of `before` brought up to them. */
  ghost function Raised(before: Snapshot, after: Snapshot): Snapshot {
    Reserve(after, HighWaterOf(before))
  }

  lemma RaisedIsSame(before: Snapshot, after: Snapshot)
    requires Consistent(after)
    ensures Raised(before, after) == after <==> NotRewound(before, after)
  {
    hide UniqueNames, NameIndex;
    var columns, r := ColumnsNext(before.objects), Raised(before, after);
    assert MaxNext(after.next, before.next) == after.next <==> AtLeast(after.next, before.next);
    if NotRewound(before, after) {
      forall id | id in after.objects ensures r.objects[id] == after.objects[id] {
        RelationNext(after, id);
      }
      assert r.objects == after.objects;
    }
    if r == after {
      forall n | n in RelationIds(before.objects) && n in RelationIds(after.objects)
        ensures NextColumn(after.objects, n) >= NextColumn(before.objects, n)
      {
        var id :| id in after.objects && (id.TableId? || id.ViewId?) && id.n == n;
        RelationNext(after, id);
        assert r.objects[id] == RaiseColumn(after.objects[id], columns);
      }
    }
  }

  lemma RelationNext(s: Snapshot, id: ObjectId)
    requires Consistent(s) && id in s.objects
    ensures id.TableId? || id.ViewId? ==>
              id.n in RelationIds(s.objects) && NextColumn(s.objects, id.n) == NextOf(s.objects[id])
    ensures id.TableId? <==> s.objects[id].Table?
    ensures id.ViewId? <==> s.objects[id].View?
    ensures s.objects[id].Table? ==> s.objects[id].id == id.n
    ensures s.objects[id].View? ==> s.objects[id].id == id.n
  {
    hide UniqueNames, NameIndex;
    assert !(TableId(id.n) in s.objects && ViewId(id.n) in s.objects);
  }

  lemma AdvancedIsOwn(before: Snapshot, after: Snapshot)
    requires Consistent(after)
    ensures RaiseColumns(after.objects, AdvancedColumns(before.objects, after.objects)) == after.objects
  {
    hide Consistent;
    var columns := AdvancedColumns(before.objects, after.objects);
    forall id | id in after.objects ensures RaiseColumn(after.objects[id], columns) == after.objects[id] {
      RelationNext(after, id);
    }
  }

  lemma RaisingKeepsNames(objects: Objects, columns: map<nat, nat>)
    ensures var r := RaiseColumns(objects, columns);
            (UniqueNames(r) <==> UniqueNames(objects)) && (UniqueNames(objects) ==> NameIndex(r) == NameIndex(objects))
  {
    SameNames(objects, RaiseColumns(objects, columns));
  }

  lemma SameNames(a: Objects, b: Objects)
    requires a.Keys == b.Keys && forall id | id in a :: NameOf(b[id]) == NameOf(a[id])
    ensures (UniqueNames(b) <==> UniqueNames(a)) && (UniqueNames(a) ==> NameIndex(b) == NameIndex(a))
  {
    assert forall id :: id in a <==> id in b;
    if UniqueNames(a) {
      assert NameIndex(b).Keys == NameIndex(a).Keys;
    }
  }

  /** The change set between consistent snapshots has the shape that applying it demands. */
  lemma BetweenHasShape(before: Snapshot, after: Snapshot, cs: ChangeSet)
    requires Consistent(before) && Consistent(after) && IsBetween(before, after, cs)
    ensures WellFormed(cs.mutations)
    ensures ShapeOk(cs) <==> WithinLimits(cs)
  {
    hide UniqueNames, NameIndex;
    forall m | m in cs.mutations ensures MutationOk(m) {
      assert MutationBetween(before.objects, after.objects, m);
      var id := MutationId(m).value;
      assert id in before.objects ==> StatisticsOk(before.objects, before.objects[id]);
      assert id in after.objects ==> StatisticsOk(after.objects, after.objects[id]);
    }
  }

  lemma FinishIs(before: Snapshot, after: Snapshot, cs: ChangeSet, valid: Snapshot -> bool)
    requires Consistent(after) && cs.highWater == HighWaterBetween(before, after)
    ensures Finish(before, after.objects, cs.highWater, valid)
         == if valid(Raised(before, after)) then Ok(Raised(before, after)) else Fail(Invalid)
  {
    var columns := ColumnsNext(before.objects);
    AdvancedIsOwn(before, after);
    RaisingKeepsNames(after.objects, columns);
    var s := Reserve(Reserve(before.(objects := after.objects), cs.highWater), HighWaterOf(before));
    assert s.next == MaxNext(after.next, before.next);
    assert s.(names := after.names) == Raised(before, after);
  }

  /** Applying the change between two snapshots to the first gives the second, with its
      allocators brought up to those of the first where they lag. */
  lemma AppliedIsRaised(before: Snapshot, after: Snapshot, cs: ChangeSet, valid: Snapshot -> bool)
    requires Consistent(before) && Consistent(after) && IsBetween(before, after, cs) && WithinLimits(cs)
    ensures Applied(before, cs, valid)
         == if valid(Raised(before, after)) then Ok(Raised(before, after)) else Fail(Invalid)
  {
    hide Consistent, Finish, Raised;
    BetweenHasShape(before, after, cs);
    assert cs.mutations[..0] == [];
    ApplyReaches(before.objects, after, cs.mutations, 0, before.objects);
    FinishIs(before, after, cs, valid);
  }

  /** So the round trip is exact, objects, name indexes and allocators, if and only if no
      allocator was rewound. */
  lemma RoundTripIff(before: Snapshot, after: Snapshot, cs: ChangeSet, valid: Snapshot -> bool)
    requires Consistent(before) && Consistent(after) && IsBetween(before, after, cs) && WithinLimits(cs)
    requires valid(after)
    ensures Applied(before, cs, valid) == Ok(after) <==> NotRewound(before, after)
  {
    hide Consistent, Applied, Raised, NotRewound;
    AppliedIsRaised(before, after, cs, valid);
    RaisedIsSame(before, after);
  }

  // ---------------------------------------------------------------- other bases

  /** What a mutation leaves at its address: its after-image, but statistics only if their
      table is there. */
  function Outcome(m: Mutation, id: ObjectId, result: Objects): Option<Object> {
    if id.StatisticsId? && (TableId(id.n) !in result || !result[TableId(id.n)].Table? || !result[TableId(id.n)].user)
    then None
    else m.after
  }

  ghost predicate Effects(objects: Objects, ms: seq<Mutation>, i: nat, result: Objects)
    requires i <= |ms| && WellFormed(ms)
  {
    && (forall id | !Touches(ms[i..], id) :: Get(result, id) == Get(objects, id))
    && (forall k | i <= k < |ms| ::
          && MutationOk(ms[k])
          && Get(objects, Key(ms, k)) == ms[k].before
          && Get(result, Key(ms, k)) == Outcome(ms[k], Key(ms, k), result))
  }

  lemma LaterOnly(ms: seq<Mutation>, i: nat, id: ObjectId)
    requires WellFormed(ms) && i < |ms|
    ensures MutationOk(ms[i])
    ensures Touches(ms[i..], id) <==> Touches(ms[i + 1..], id) || id == Key(ms, i)
    ensures Touches(ms[i + 1..], id) ==> Less(Key(ms, i), id) && id != Key(ms, i)
  {
    KeyOk(ms, i);
    assert ms[i..] == [ms[i]] + ms[i + 1..] && ms[i] in ms[i..];
    if Touches(ms[i + 1..], id) {
      var m :| m in ms[i + 1..] && MutationId(m) == Some(id);
      var k :| 0 <= k < |ms| - i - 1 && ms[i + 1..][k] == m;
      KeyOrder(ms, i, i + 1 + k);
    }
  }

  /** On any base, a change set that applies found every before-image in place, left every
      untouched object alone, and gave every touched one its outcome. */
  lemma {:induction false} ApplyEffects(objects: Objects, ms: seq<Mutation>, i: nat)
    requires i <= |ms| && WellFormed(ms)
    ensures var r := ApplyFrom(objects, ms, i); r.Ok? ==> Effects(objects, ms, i, r.value)
    decreases |ms| - i
  {
    hide ApplyMutation;
    if i == |ms| {
      assert ms[i..] == [];
    } else {
      var next := ApplyMutation(objects, ms[i]);
      if next.Ok? {
        ApplyEffects(next.value, ms, i + 1);
        var r := ApplyFrom(next.value, ms, i + 1);
        if r.Ok? {
          StepEffects(objects, next.value, ms, i, r.value);
        }
      }
    }
  }

  /** The objects a mutation carries. */
  function Images(m: Mutation): set<Object> {
    (if m.before.Some? then {m.before.value} else {}) + (if m.after.Some? then {m.after.value} else {})
  }

  /** A real change of one object: one or two images, different ones, of the same object, without
      statistics that are not numbers. */
  ghost predicate RealChange(m: Mutation) {
    && Images(m) != {} && m.before != m.after
    && (forall a, b | a in Images(m) && b in Images(m) :: IdOf(a) == IdOf(b))
    && (forall a | a in Images(m) && a.Statistics? :: a.finite)
  }

  /** The shape check takes exactly the change sets of real changes, each of an object of its own
      and in the order of the objects. */
  lemma ShapeIff(cs: ChangeSet)
    ensures ShapeOk(cs) <==>
            && cs.version == VERSION && |cs.mutations| <= MAX_MUTATIONS && |cs.highWater.columns| <= MAX_MUTATIONS
            && (forall i | 0 <= i < |cs.mutations| :: RealChange(cs.mutations[i]))
            && (forall i, j | 0 <= i < j < |cs.mutations| ::
                  forall a, b | a in Images(cs.mutations[i]) && b in Images(cs.mutations[j]) :: Less(IdOf(a), IdOf(b)))
  {
    hide Less, IdOf, RealChange, MutationOk, Images;
    forall m: Mutation ensures MutationOk(m) <==> RealChange(m) {
      ChangeIsReal(m);
    }
    forall m: Mutation | MutationOk(m) ensures ImagesNamed(m) {
      ImagesHaveId(m);
    }
    if ShapeOk(cs) {
      forall i | 0 <= i < |cs.mutations| ensures RealChange(cs.mutations[i]) {
        assert cs.mutations[i] in cs.mutations;
      }
    }
  }

  ghost predicate ImagesNamed(m: Mutation) {
    && MutationId(m).Some? && Images(m) != {} && forall a | a in Images(m) :: IdOf(a) == MutationId(m).value
  }

  lemma ImagesHaveId(m: Mutation)
    requires MutationOk(m)
    ensures ImagesNamed(m)
  {
    hide IdOf;
    assert m.after.Some? ==> m.after.value in Images(m);
    assert m.before.Some? ==> m.before.value in Images(m);
  }

  lemma ChangeIsReal(m: Mutation)
    ensures MutationOk(m) <==> RealChange(m)
  {
    hide IdOf;
    assert m.after.Some? ==> m.after.value in Images(m);
    assert m.before.Some? ==> m.before.value in Images(m);
  }

  /** What stops a change set at mutation `k`, once those before it have left `at`: a before-image
      that is not there, or statistics of a column that its user table does not have; nothing
      else. */
  ghost predicate Stops(at: Objects, ms: seq<Mutation>, k: nat, error: Error)
    requires k < |ms| && MutationOk(ms[k])
  {
    var id, m := Key(ms, k), ms[k];
    match error
    case Conflict(x) => x == id && m.before != if id in at then Some(at[id]) else None
    case UnknownColumn(t) =>
      && m.before == (if id in at then Some(at[id]) else None)
      && id == StatisticsId(t) && m.after.Some?
      && TableId(t) in at && at[TableId(t)].Table? && at[TableId(t)].user
      && !(m.after.value.columns <= at[TableId(t)].columns)
    case _ => false
  }

  lemma {:induction false} AfterPrefix(objects: Objects, ms: seq<Mutation>, i: nat, k: nat, at: Objects)
    requires i <= k <= |ms| && ApplyFrom(objects, ms[..k], i) == Ok(at)
    ensures ApplyFrom(objects, ms, i) == ApplyFrom(at, ms, k)
    decreases k - i
  {
    hide ApplyMutation;
    if i < k {
      AfterPrefix(ApplyMutation(objects, ms[i]).value, ms, i + 1, k, at);
    }
  }

  lemma MutationStops(at: Objects, ms: seq<Mutation>, k: nat)
    requires k < |ms| && MutationOk(ms[k])
    ensures var r := ApplyMutation(at, ms[k]);
            (r.Fail? ==> Stops(at, ms, k, r.error)) && (r.Ok? ==> forall e :: !Stops(at, ms, k, e))
  {
  }

  /** The first mutation that does not fit decides the error. */
  lemma FirstFailure(objects: Objects, ms: seq<Mutation>, k: nat, at: Objects, error: Error)
    requires k < |ms| && MutationOk(ms[k]) && ApplyFrom(objects, ms[..k], 0) == Ok(at)
    ensures Stops(at, ms, k, error) ==> ApplyFrom(objects, ms, 0) == Fail(error)
    ensures (forall e :: !Stops(at, ms, k, e)) ==> ApplyMutation(at, ms[k]).Ok?
  {
    hide ApplyMutation;
    AfterPrefix(objects, ms, 0, k, at);
    MutationStops(at, ms, k);
    if Stops(at, ms, k, error) {
      StopsOnce(at, ms, k, error);
    }
  }

  lemma StopsOnce(at: Objects, ms: seq<Mutation>, k: nat, error: Error)
    requires k < |ms| && MutationOk(ms[k]) && Stops(at, ms, k, error)
    ensures forall e | Stops(at, ms, k, e) :: e == error
  {
  }

  lemma OneMutation(objects: Objects, m: Mutation)
    requires MutationId(m).Some? && ApplyMutation(objects, m).Ok?
    ensures var id, r := MutationId(m).value, ApplyMutation(objects, m).value;
            && Get(objects, id) == m.before
            && (forall x | x != id :: Get(r, x) == Get(objects, x))
            && Get(r, id) == Outcome(m, id, r)
  {
  }

  lemma StepEffects(objects: Objects, next: Objects, ms: seq<Mutation>, i: nat, result: Objects)
    requires i < |ms| && WellFormed(ms)
    requires ApplyMutation(objects, ms[i]) == Ok(next) && Effects(next, ms, i + 1, result)
    ensures Effects(objects, ms, i, result)
  {
    hide ApplyMutation;
    KeyOk(ms, i);
    var m, id := ms[i], Key(ms, i);
    OneMutation(objects, m);
    LaterOnly(ms, i, id);
    LaterOnly(ms, i, TableId(id.n));
    assert Get(result, id) == Get(next, id);
    assert id.StatisticsId? ==> Get(result, TableId(id.n)) == Get(next, TableId(id.n));
    forall x | !Touches(ms[i..], x) ensures Get(result, x) == Get(objects, x) {
      LaterOnly(ms, i, x);
    }
    forall k | i < k < |ms| ensures MutationOk(ms[k]) && Get(objects, Key(ms, k)) == ms[k].before {
      KeyOrder(ms, i, k);
    }
  }

  /** `n` is listed under the name in its space. */
  predicate ListedAs(names: map<Name, nat>, space: Space, name: string, n: nat) {
    Name(space, name) in names && names[Name(space, name)] == n
  }

  /** Every schema, and every user table, view, index and sequence of the public schema, is found
      under its own name in its own space, and nothing else is. */
  ghost predicate NamesByFields(objects: Objects, names: map<Name, nat>) {
    && (forall x, n :: ListedAs(names, Schemas, x, n) <==>
          SchemaId(n) in objects && objects[SchemaId(n)].Schema? && objects[SchemaId(n)].name == x)
    && (forall x, n :: ListedAs(names, Tables, x, n) <==>
          TableId(n) in objects && objects[TableId(n)].Table? && objects[TableId(n)].schema == 1
          && objects[TableId(n)].user && objects[TableId(n)].name == x)
    && (forall x, n :: ListedAs(names, Views, x, n) <==>
          ViewId(n) in objects && objects[ViewId(n)].View? && objects[ViewId(n)].schema == 1 && objects[ViewId(n)].name == x)
    && (forall x, n :: ListedAs(names, Indexes, x, n) <==>
          IndexId(n) in objects && objects[IndexId(n)].Index? && objects[IndexId(n)].schema == 1
          && objects[IndexId(n)].name == x)
    && (forall x, n :: ListedAs(names, Sequences, x, n) <==>
          SequenceId(n) in objects && objects[SequenceId(n)].Sequence? && objects[SequenceId(n)].schema == 1
          && objects[SequenceId(n)].name == x)
  }

  lemma ListedIff(objects: Objects, name: Name, n: nat)
    requires WellKeyed(objects) && UniqueNames(objects)
    ensures ListedAs(NameIndex(objects), name.space, name.name, n) <==>
              exists id :: id in objects && id.n == n && NameOf(objects[id]) == Some(name)
  {
    assert Name(name.space, name.name) == name;
  }

  lemma SpaceOf(o: Object, space: Space, x: string)
    ensures NameOf(o) == Some(Name(space, x)) <==>
              match space
              case Schemas => o.Schema? && o.name == x
              case Tables => o.Table? && o.schema == 1 && o.user && o.name == x
              case Views => o.View? && o.schema == 1 && o.name == x
              case Indexes => o.Index? && o.schema == 1 && o.name == x
              case Sequences => o.Sequence? && o.schema == 1 && o.name == x
  {
  }

  lemma NamesAre(objects: Objects)
    requires WellKeyed(objects) && UniqueNames(objects)
    ensures NamesByFields(objects, NameIndex(objects))
  {
    hide NameOf, NameIndex, UniqueNames, ListedAs;
    forall space: Space, x: string, n: nat
      ensures ListedAs(NameIndex(objects), space, x, n) <==>
                match space
                case Schemas => SchemaId(n) in objects && objects[SchemaId(n)].Schema? && objects[SchemaId(n)].name == x
                case Tables =>
                  && TableId(n) in objects && objects[TableId(n)].Table? && objects[TableId(n)].schema == 1
                  && objects[TableId(n)].user && objects[TableId(n)].name == x
                case Views =>
                  ViewId(n) in objects && objects[ViewId(n)].View? && objects[ViewId(n)].schema == 1 && objects[ViewId(n)].name == x
                case Indexes =>
                  && IndexId(n) in objects && objects[IndexId(n)].Index? && objects[IndexId(n)].schema == 1
                  && objects[IndexId(n)].name == x
                case Sequences =>
                  && SequenceId(n) in objects && objects[SequenceId(n)].Sequence? && objects[SequenceId(n)].schema == 1
                  && objects[SequenceId(n)].name == x
    {
      NameAt(objects, space, x, n);
    }
  }

  lemma NameAt(objects: Objects, space: Space, x: string, n: nat)
    requires WellKeyed(objects) && UniqueNames(objects)
    ensures ListedAs(NameIndex(objects), space, x, n) <==>
              var id := match space
                        case Schemas => SchemaId(n)
                        case Tables => TableId(n)
                        case Views => ViewId(n)
                        case Indexes => IndexId(n)
                        case Sequences => SequenceId(n);
              id in objects && NameOf(objects[id]) == Some(Name(space, x))
    ensures forall o :: NameOf(o) == Some(Name(space, x)) <==>
              match space
              case Schemas => o.Schema? && o.name == x
              case Tables => o.Table? && o.schema == 1 && o.user && o.name == x
              case Views => o.View? && o.schema == 1 && o.name == x
              case Indexes => o.Index? && o.schema == 1 && o.name == x
              case Sequences => o.Sequence? && o.schema == 1 && o.name == x
  {
    hide NameIndex, ListedAs;
    ListedIff(objects, Name(space, x), n);
    forall o ensures NameOf(o) == Some(Name(space, x)) <==>
              match space
              case Schemas => o.Schema? && o.name == x
              case Tables => o.Table? && o.schema == 1 && o.user && o.name == x
              case Views => o.View? && o.schema == 1 && o.name == x
              case Indexes => o.Index? && o.schema == 1 && o.name == x
              case Sequences => o.Sequence? && o.schema == 1 && o.name == x
    {
      SpaceOf(o, space, x);
    }
  }

  /** An applied snapshot lists exactly what it should, by name. */
  lemma AppliedNames(base: Snapshot, cs: ChangeSet, valid: Snapshot -> bool)
    requires Validates(valid) && Applied(base, cs, valid).Ok?
    ensures var s := Applied(base, cs, valid).value; NamesByFields(s.objects, s.names)
  {
    hide NamesByFields, NameIndex, UniqueNames, ShapeOk, ApplyFrom, Reserve;
    var s := Applied(base, cs, valid).value;
    assert valid(s) && Consistent(s);
    NamesAre(s.objects);
  }

  /** Validation, whatever else it demands, guarantees consistency. */
  ghost predicate Validates(valid: Snapshot -> bool) {
    forall s | valid(s) :: Consistent(s)
  }

  lemma RelationIn(s: Snapshot, n: nat) returns (id: ObjectId)
    requires n in RelationIds(s.objects)
    ensures id in s.objects && (id.TableId? || id.ViewId?) && id.n == n
  {
    id :| id in s.objects && (id.TableId? || id.ViewId?) && id.n == n;
  }

  lemma OneRelation(s: Snapshot, a: ObjectId, b: ObjectId)
    requires Consistent(s) && a in s.objects && b in s.objects && a.n == b.n
    requires (a.TableId? || a.ViewId?) && (b.TableId? || b.ViewId?)
    ensures a == b
  {
    hide UniqueNames, NameIndex;
    assert !(TableId(a.n) in s.objects && ViewId(a.n) in s.objects);
  }

  lemma AdvancedIsTouched(before: Snapshot, after: Snapshot, cs: ChangeSet, n: nat) returns (id: ObjectId)
    requires IsBetween(before, after, cs) && n in cs.highWater.columns
    ensures id in after.objects && (id.TableId? || id.ViewId?) && id.n == n && Touches(cs.mutations, id)
  {
    id := if Advanced(before.objects, after.objects, TableId(n)) then TableId(n) else ViewId(n);
    assert Get(before.objects, id) != Get(after.objects, id);
  }

  /** The result of a change set between `before` and `after` that applied to `base`. */
  ghost predicate AppliedTo(base: Snapshot, before: Snapshot, after: Snapshot, cs: ChangeSet, valid: Snapshot -> bool,
                            r: Snapshot) {
    && Consistent(base) && Consistent(before) && Consistent(after) && IsBetween(before, after, cs)
    && Validates(valid)
    && Applied(base, cs, valid) == Ok(r)
  }

  lemma AppliedParts(base: Snapshot, before: Snapshot, after: Snapshot, cs: ChangeSet, valid: Snapshot -> bool, r: Snapshot)
    returns (result: Objects)
    requires AppliedTo(base, before, after, cs, valid, r)
    ensures WellFormed(cs.mutations) && Effects(base.objects, cs.mutations, 0, result) && Consistent(r)
    ensures r.objects == RaiseColumns(RaiseColumns(result, cs.highWater.columns), ColumnsNext(base.objects))
    ensures r.next == MaxNext(base.next, after.next)
  {
    hide Consistent;
    BetweenHasShape(before, after, cs);
    ApplyEffects(base.objects, cs.mutations, 0);
    result := ApplyFrom(base.objects, cs.mutations, 0).value;
    assert valid(r);
  }

  /** An object the change does not touch is exactly what it was in the base. */
  lemma UntouchedIsKept(base: Snapshot, before: Snapshot, after: Snapshot, cs: ChangeSet, valid: Snapshot -> bool,
                        r: Snapshot, id: ObjectId)
    requires AppliedTo(base, before, after, cs, valid, r) && !Touches(cs.mutations, id)
    ensures Get(r.objects, id) == Get(base.objects, id)
  {
    hide Consistent, Applied, Effects;
    var result := AppliedParts(base, before, after, cs, valid, r);
    assert cs.mutations[0..] == cs.mutations;
    assert Get(result, id) == Get(base.objects, id) by { EffectsUntouched(base.objects, cs.mutations, result, id); }
    if id in base.objects {
      RelationNext(base, id);
      var o := base.objects[id];
      if (o.Table? || o.View?) && id.n in cs.highWater.columns {
        var other := AdvancedIsTouched(before, after, cs, id.n);
        TouchedIsThere(base, before, after, cs, result, other);
        OneRelation(r, id, other);
      }
    }
  }

  lemma EffectsUntouched(objects: Objects, ms: seq<Mutation>, result: Objects, id: ObjectId)
    requires WellFormed(ms) && Effects(objects, ms, 0, result) && !Touches(ms, id)
    ensures Get(result, id) == Get(objects, id)
  {
    assert ms[0..] == ms;
  }

  lemma TouchedIsThere(base: Snapshot, before: Snapshot, after: Snapshot, cs: ChangeSet, result: Objects, id: ObjectId)
    requires IsBetween(before, after, cs) && WellFormed(cs.mutations) && Effects(base.objects, cs.mutations, 0, result)
    requires Touches(cs.mutations, id)
    ensures Get(base.objects, id) == Get(before.objects, id)
    ensures !id.StatisticsId? ==> Get(result, id) == Get(after.objects, id)
    ensures id.StatisticsId? ==>
              Get(result, id) == Outcome(Mutation(Get(before.objects, id), Get(after.objects, id)), id, result)
  {
    var m :| m in cs.mutations && MutationId(m) == Some(id);
    var k :| 0 <= k < |cs.mutations| && cs.mutations[k] == m;
    assert Key(cs.mutations, k) == id;
  }

  /** An object the change touches was in the base as in `before`, and is now as in `after`. */
  lemma TouchedIsReplaced(base: Snapshot, before: Snapshot, after: Snapshot, cs: ChangeSet, valid: Snapshot -> bool,
                          r: Snapshot, id: ObjectId)
    requires AppliedTo(base, before, after, cs, valid, r) && Touches(cs.mutations, id) && NotRewound(before, after)
    ensures Get(base.objects, id) == Get(before.objects, id)
    ensures !id.StatisticsId? ==> Get(r.objects, id) == Get(after.objects, id)
  {
    hide Consistent, Applied, Effects;
    var result := AppliedParts(base, before, after, cs, valid, r);
    TouchedIsThere(base, before, after, cs, result, id);
    if !id.StatisticsId? && id in after.objects {
      RelationNext(after, id);
      var o := after.objects[id];
      if (o.Table? || o.View?) && id.n in ColumnsNext(base.objects) {
        var other := RelationIn(base, id.n);
        RelationNext(base, other);
        if !Touches(cs.mutations, other) {
          EffectsUntouched(base.objects, cs.mutations, result, other);
          OneRelation(r, id, other);
        } else {
          TouchedIsThere(base, before, after, cs, result, other);
          RelationNext(before, other);
        }
      }
    }
  }

  lemma RaisingKeepsTables(objects: Objects, columns: map<nat, nat>, t: nat)
    ensures var r := RaiseColumns(objects, columns);
            && (TableId(t) in r && r[TableId(t)].Table? && r[TableId(t)].user
                <==> TableId(t) in objects && objects[TableId(t)].Table? && objects[TableId(t)].user)
            && (StatisticsId(t) in objects && objects[StatisticsId(t)].Statistics? ==>
                  r[StatisticsId(t)] == objects[StatisticsId(t)])
  {
  }

  /** Statistics the change touches are as in `after`, unless their table is gone. */
  lemma TouchedStatistics(base: Snapshot, before: Snapshot, after: Snapshot, cs: ChangeSet, valid: Snapshot -> bool,
                          r: Snapshot, t: nat)
    requires AppliedTo(base, before, after, cs, valid, r) && Touches(cs.mutations, StatisticsId(t))
    ensures var id := StatisticsId(t);
            Get(r.objects, id) == Outcome(Mutation(Get(before.objects, id), Get(after.objects, id)), id, r.objects)
  {
    hide Consistent, Applied, Effects, RaiseColumns, ColumnsNext;
    var result := AppliedParts(base, before, after, cs, valid, r);
    TouchedIsThere(base, before, after, cs, result, StatisticsId(t));
    if StatisticsId(t) in after.objects {
      RelationNext(after, StatisticsId(t));
    }
    RaisingKeepsTables(result, cs.highWater.columns, t);
    RaisingKeepsTables(RaiseColumns(result, cs.highWater.columns), ColumnsNext(base.objects), t);
  }

  // ---------------------------------------------------------------- a claimed base

  /** Some relation is in both snapshots and has allocated columns in between. */
  ghost predicate AllocatesColumns(before: Snapshot, after: Snapshot) {
    exists n :: n in RelationIds(before.objects) && n in RelationIds(after.objects)
             && NextColumn(after.objects, n) > NextColumn(before.objects, n)
  }

  /** A mutation of an object other than statistics whose before-image is not there is a conflict. */
  lemma {:induction false} MismatchConflicts(objects: Objects, ms: seq<Mutation>, i: nat, k: nat)
    requires i <= k < |ms| && WellFormed(ms) && MutationOk(ms[k])
    requires !Key(ms, k).StatisticsId? && Get(objects, Key(ms, k)) != ms[k].before
    ensures var r := ApplyFrom(objects, ms, i); r.Fail? && r.error.Conflict?
    decreases |ms| - i
  {
    KeyOk(ms, i);
    if i < k {
      KeyOrder(ms, i, k);
      var next := ApplyMutation(objects, ms[i]);
      if next.Ok? {
        MismatchConflicts(next.value, ms, i + 1, k);
      }
    }
  }

  lemma ClaimWithoutColumns(before: Snapshot, after: Snapshot)
    requires Consistent(before) && Consistent(after) && NotRewound(before, after) && !AllocatesColumns(before, after)
    ensures Reserve(before, HighWaterBetween(before, after)) == before.(next := after.next)
  {
    hide Consistent;
    var columns := AdvancedColumns(before.objects, after.objects);
    forall id | id in before.objects ensures RaiseColumn(before.objects[id], columns) == before.objects[id] {
      RelationNext(before, id);
      if id.n in columns {
        assert id.TableId? || id.ViewId? ==> NextColumn(after.objects, id.n) <= NextColumn(before.objects, id.n);
      }
    }
    assert RaiseColumns(before.objects, columns) == before.objects;
  }

  lemma AllocatedIsTouched(before: Snapshot, after: Snapshot, cs: ChangeSet, n: nat) returns (k: nat)
    requires Consistent(before) && Consistent(after) && IsBetween(before, after, cs) && WellFormed(cs.mutations)
    requires n in RelationIds(before.objects) && n in RelationIds(after.objects)
    requires NextColumn(after.objects, n) > NextColumn(before.objects, n)
    ensures k < |cs.mutations| && MutationOk(cs.mutations[k]) && !Key(cs.mutations, k).StatisticsId?
    ensures Get(Reserve(before, cs.highWater).objects, Key(cs.mutations, k)) != cs.mutations[k].before
  {
    hide Consistent;
    var id := RelationIn(before, n);
    var now := RelationIn(after, n);
    RelationNext(before, id);
    RelationNext(after, now);
    assert Advanced(before.objects, after.objects, now) by {
      if now in before.objects {
        OneRelation(before, id, now);
      }
    }
    assert n in cs.highWater.columns && cs.highWater.columns[n] == NextColumn(after.objects, n);
    assert Get(before.objects, id) != Get(after.objects, id) by {
      if id in after.objects {
        OneRelation(after, id, now);
      }
    }
    var m :| m in cs.mutations && MutationId(m) == Some(id);
    k :| 0 <= k < |cs.mutations| && cs.mutations[k] == m;
    KeyOk(cs.mutations, k);
    assert Reserve(before, cs.highWater).objects[id] == RaiseColumn(before.objects[id], cs.highWater.columns);
  }

  /** A base whose allocators were claimed for a change still takes the change, and gives exactly
      `after`, if and only if the change allocates no column of a relation that was there: the
      claim advances the counter in the base, and the counter is part of the before-image. */
  lemma ClaimedBaseIff(before: Snapshot, after: Snapshot, cs: ChangeSet, valid: Snapshot -> bool)
    requires Consistent(before) && Consistent(after) && IsBetween(before, after, cs) && WithinLimits(cs)
    requires NotRewound(before, after) && valid(after)
    ensures var r := Applied(Reserve(before, cs.highWater), cs, valid);
            if AllocatesColumns(before, after) then r.Fail? && r.error.Conflict? else r == Ok(after)
  {
    var claimed := Reserve(before, cs.highWater);
    BetweenHasShape(before, after, cs);
    if AllocatesColumns(before, after) {
      hide Consistent, WellFormed, Reserve, ApplyFrom;
      var n :| n in RelationIds(before.objects) && n in RelationIds(after.objects)
            && NextColumn(after.objects, n) > NextColumn(before.objects, n);
      var k := AllocatedIsTouched(before, after, cs, n);
      MismatchConflicts(claimed.objects, cs.mutations, 0, k);
    } else {
      hide Consistent, WellFormed, Applied;
      ClaimWithoutColumns(before, after);
      assert Consistent(claimed) by { SameConsistency(before, claimed); }
      assert IsBetween(claimed, after, cs) by { SameBetween(before, claimed, after, cs); }
      RoundTripIff(claimed, after, cs, valid);
    }
  }

  lemma SameConsistency(s: Snapshot, t: Snapshot)
    requires Consistent(s) && t == s.(next := t.next)
    ensures Consistent(t)
  {
  }

  lemma SameBetween(before: Snapshot, claimed: Snapshot, after: Snapshot, cs: ChangeSet)
    requires IsBetween(before, after, cs) && claimed == before.(next := claimed.next)
    ensures IsBetween(claimed, after, cs)
  {
  }

  /** A catalog of one table. */
  ghost function OneTable(columns: set<nat>, nextColumn: nat): Snapshot {
    Snapshot(map[TableId(5) := Table(5, PUBLIC_SCHEMA, "t", true, columns, nextColumn, "")],
             map[Name(Tables, "t") := 5], Next(2, 6, 1, 1, 1, 1, 1))
  }

  lemma OneTableIs(columns: set<nat>, nextColumn: nat)
    ensures var s := OneTable(columns, nextColumn);
            Consistent(s) && RelationIds(s.objects) == {5} && NextColumn(s.objects, 5) == nextColumn
  {
    var s := OneTable(columns, nextColumn);
    assert TableId(5) in s.objects;
    assert NameIndex(s.objects) == s.names;
  }

  /** The change that gives the table other columns and a later counter. */
  ghost function OneTableChange(a: set<nat>, n: nat, b: set<nat>, m: nat): ChangeSet {
    var before, after := OneTable(a, n), OneTable(b, m);
    ChangeSet(VERSION, [Mutation(Some(before.objects[TableId(5)]), Some(after.objects[TableId(5)]))],
              HighWaterBetween(before, after))
  }

  lemma OneTableBetween(a: set<nat>, n: nat, b: set<nat>, m: nat)
    requires a != b && n <= m
    ensures IsBetween(OneTable(a, n), OneTable(b, m), OneTableChange(a, n, b, m))
    ensures WithinLimits(OneTableChange(a, n, b, m))
    ensures OneTableChange(a, n, b, m).highWater.columns == if n < m then map[5 := m] else map[]
  {
    var before, after, cs := OneTable(a, n), OneTable(b, m), OneTableChange(a, n, b, m);
    OneTableColumns(a, n, b, m);
    hide HighWaterBetween;
    assert cs.mutations[0] in cs.mutations && Touches(cs.mutations, TableId(5));
    assert before.objects[TableId(5)].columns == a && after.objects[TableId(5)].columns == b;
    assert MutationBetween(before.objects, after.objects, cs.mutations[0]);
  }

  lemma OneTableColumns(a: set<nat>, n: nat, b: set<nat>, m: nat)
    requires n <= m
    ensures HighWaterBetween(OneTable(a, n), OneTable(b, m)).columns == if n < m then map[5 := m] else map[]
  {
    OneTableIs(a, n);
    OneTableIs(b, m);
  }

  /** Such a change exists: a table that gets its second column. */
  lemma ClaimedBaseCanConflict()
    ensures exists before, after, cs ::
              && Consistent(before) && Consistent(after) && IsBetween(before, after, cs) && WithinLimits(cs)
              && NotRewound(before, after) && AllocatesColumns(before, after)
  {
    hide Consistent, IsBetween, WithinLimits;
    var before, after := OneTable({1}, 2), OneTable({1, 2}, 3);
    OneTableIs({1}, 2);
    OneTableIs({1, 2}, 3);
    var cs := OneTableChange({1}, 2, {1, 2}, 3);
    OneTableBetween({1}, 2, {1, 2}, 3);
    assert 5 in RelationIds(before.objects);
  }
}
