/** Building, checking and applying change sets. */
module ChangeSets {
  import opened Options
  import opened Snapshots

  datatype Error = BadShape | Conflict(id: ObjectId) | UnknownColumn(table: nat) | Invalid

  datatype Result<+T> = Ok(value: T) | Fail(error: Error)

  // ---------------------------------------------------------------- between

  /** A relation of `after` that `before` lacks, or whose columns it has allocated further. */
  predicate Advanced(before: Objects, after: Objects, id: ObjectId) {
    id in after && (id.TableId? || id.ViewId?) && (id in before ==> NextOf(before[id]) < NextOf(after[id]))
  }

  function AdvancedColumns(before: Objects, after: Objects): map<nat, nat> {
    map n | n in RelationIds(after) && (Advanced(before, after, TableId(n)) || Advanced(before, after, ViewId(n))) ::
      NextColumn(after, n)
  }

  function HighWaterBetween(before: Snapshot, after: Snapshot): HighWater {
    HighWater(after.next, AdvancedColumns(before.objects, after.objects))
  }

  ghost predicate MutationBetween(before: Objects, after: Objects, m: Mutation) {
    && MutationId(m).Some?
    && m.before == Get(before, MutationId(m).value)
    && m.after == Get(after, MutationId(m).value)
    && m.before != m.after
  }

  ghost predicate Touches(ms: seq<Mutation>, id: ObjectId) {
    exists m | m in ms :: MutationId(m) == Some(id)
  }

  /** The change set between two snapshots: one mutation for each object that differs, in order. */
  ghost predicate IsBetween(before: Snapshot, after: Snapshot, cs: ChangeSet) {
    && cs.version == VERSION
    && (forall m | m in cs.mutations :: MutationBetween(before.objects, after.objects, m))
    && SortedMutations(cs.mutations)
    && (forall id | Get(before.objects, id) != Get(after.objects, id) :: Touches(cs.mutations, id))
    && cs.highWater == HighWaterBetween(before, after)
  }

  ghost predicate SortedIds(ids: seq<ObjectId>) {
    forall i, j | 0 <= i < j < |ids| :: Less(ids[i], ids[j])
  }

  method Sort(ids: set<ObjectId>) returns (sorted: seq<ObjectId>)
    ensures SortedIds(sorted) && forall id :: id in sorted <==> id in ids
  {
    sorted := [];
    var todo := ids;
    while todo != {}
      invariant todo <= ids && SortedIds(sorted) && forall id :: id in sorted <==> id in ids - todo
    {
      var id :| id in todo;
      sorted := Insert(sorted, id);
      todo := todo - {id};
    }
  }

  method Insert(ids: seq<ObjectId>, id: ObjectId) returns (r: seq<ObjectId>)
    requires SortedIds(ids) && id !in ids
    ensures SortedIds(r) && forall x :: x in r <==> x in ids || x == id
  {
    var i := 0;
    while i < |ids| && Less(ids[i], id)
      invariant 0 <= i <= |ids| && forall k | 0 <= k < i :: Less(ids[k], id)
    {
      i := i + 1;
    }
    forall k | i <= k < |ids| ensures Less(id, ids[k]) {
      LessIsTotal(ids[i], id);
    }
    r := ids[..i] + [id] + ids[i..];
  }

  /** `ms` are the mutations of those of the first `n` ids that differ. */
  ghost predicate Differences(before: Objects, after: Objects, ids: seq<ObjectId>, n: nat, ms: seq<Mutation>)
    requires n <= |ids|
  {
    && (forall m | m in ms :: MutationBetween(before, after, m) && MutationId(m).value in ids[..n])
    && SortedMutations(ms)
    && (forall id | id in ids[..n] && Get(before, id) != Get(after, id) :: Touches(ms, id))
  }

  lemma NextDifference(before: Objects, after: Objects, ids: seq<ObjectId>, n: nat, ms: seq<Mutation>)
    requires WellKeyed(before) && WellKeyed(after) && SortedIds(ids) && n < |ids|
    requires Differences(before, after, ids, n, ms)
    ensures var m := Mutation(Get(before, ids[n]), Get(after, ids[n]));
            Differences(before, after, ids, n + 1, if m.before != m.after then ms + [m] else ms)
  {
    hide SortedIds, SortedMutations, Less, Touches;
    var m := Mutation(Get(before, ids[n]), Get(after, ids[n]));
    assert ids[..n + 1] == ids[..n] + [ids[n]];
    if m.before != m.after {
      assert MutationId(m) == Some(ids[n]);
      forall x | x in ms ensures MutationId(x).Some? && Less(MutationId(x).value, ids[n]) {
        EarlierIsLess(ids, n, MutationId(x).value);
      }
      SortedAppend(ms, m);
      TouchesMore(ms, m);
    }
  }

  lemma EarlierIsLess(ids: seq<ObjectId>, n: nat, id: ObjectId)
    requires SortedIds(ids) && n < |ids| && id in ids[..n]
    ensures Less(id, ids[n])
  {
    var k :| 0 <= k < n && ids[k] == id;
  }

  lemma SortedAppend(ms: seq<Mutation>, m: Mutation)
    requires MutationId(m).Some? && forall x | x in ms :: MutationId(x).Some? && Less(MutationId(x).value, MutationId(m).value)
    requires SortedMutations(ms)
    ensures SortedMutations(ms + [m])
  {
    var all := ms + [m];
    forall i, j | 0 <= i < j < |all| ensures Less(MutationId(all[i]).value, MutationId(all[j]).value) {
      assert all[i] in ms;
    }
  }

  method Between(before: Snapshot, after: Snapshot) returns (cs: ChangeSet)
    requires WellKeyed(before.objects) && WellKeyed(after.objects)
    ensures IsBetween(before, after, cs)
  {
    hide MutationBetween, HighWaterBetween, WellKeyed, SortedIds;
    var ids := Sort(before.objects.Keys + after.objects.Keys);
    var ms: seq<Mutation> := [];
    for i := 0 to |ids|
      invariant Differences(before.objects, after.objects, ids, i, ms)
    {
      NextDifference(before.objects, after.objects, ids, i, ms);
      var prior, now := Get(before.objects, ids[i]), Get(after.objects, ids[i]);
      if prior != now {
        ms := ms + [Mutation(prior, now)];
      }
    }
    assert ids[..|ids|] == ids;
    cs := ChangeSet(VERSION, ms, HighWaterBetween(before, after));
  }

  lemma TouchesMore(ms: seq<Mutation>, m: Mutation)
    ensures forall id :: Touches(ms + [m], id) <==> Touches(ms, id) || MutationId(m) == Some(id)
  {
    assert m in ms + [m];
  }

  /** The change set is determined by the two snapshots. */
  lemma {:induction false} BetweenIsUnique(before: Snapshot, after: Snapshot, a: ChangeSet, b: ChangeSet)
    requires IsBetween(before, after, a) && IsBetween(before, after, b)
    ensures a == b
  {
    SameMutations(before, after, a.mutations, b.mutations);
  }

  ghost predicate Complete(before: Snapshot, after: Snapshot, ms: seq<Mutation>) {
    && (forall m | m in ms :: MutationBetween(before.objects, after.objects, m))
    && SortedMutations(ms)
  }

  lemma {:induction false} SameMutations(before: Snapshot, after: Snapshot, a: seq<Mutation>, b: seq<Mutation>)
    requires Complete(before, after, a) && Complete(before, after, b)
    requires forall id :: Touches(a, id) <==> Touches(b, id)
    ensures a == b
  {
    if a == [] {
      assert b != [] ==> b[0] in b && Touches(b, MutationId(b[0]).value);
    } else {
      assert a[0] in a && Touches(a, MutationId(a[0]).value);
      FirstIsLeast(before, after, a, b);
      TailTouches(before, after, a);
      TailTouches(before, after, b);
      SameMutations(before, after, a[1..], b[1..]);
      assert a == [a[0]] + a[1..] && b == [b[0]] + b[1..];
    }
  }

  lemma FirstIsLeast(before: Snapshot, after: Snapshot, a: seq<Mutation>, b: seq<Mutation>)
    requires Complete(before, after, a) && Complete(before, after, b) && a != [] && b != []
    requires forall id :: Touches(a, id) <==> Touches(b, id)
    ensures a[0] == b[0]
  {
    assert a[0] in a && b[0] in b;
    var x, y := MutationId(a[0]).value, MutationId(b[0]).value;
    assert Touches(a, x) && Touches(b, y);
    assert Touches(b, x) && Touches(a, y);
    var m :| m in b && MutationId(m) == Some(x);
    var n :| n in a && MutationId(n) == Some(y);
    LessIsTotal(x, y);
  }

  lemma TailTouches(before: Snapshot, after: Snapshot, ms: seq<Mutation>)
    requires Complete(before, after, ms) && ms != []
    ensures Complete(before, after, ms[1..])
    ensures forall id :: Touches(ms[1..], id) <==> Touches(ms, id) && Some(id) != MutationId(ms[0])
  {
    assert ms == [ms[0]] + ms[1..] && ms[0] in ms;
    forall m | m in ms[1..] ensures m in ms && MutationId(m) != MutationId(ms[0]) {
      assert m in ms;
      LessIsTotal(MutationId(ms[0]).value, MutationId(m).value);
    }
  }

  // ---------------------------------------------------------------- shape

  /** One pass that remembers the previous id accepts exactly the strictly sorted change sets. */
  method ValidateShape(cs: ChangeSet) returns (ok: bool)
    ensures ok <==> ShapeOk(cs)
  {
    if cs.version != VERSION || |cs.mutations| > MAX_MUTATIONS || |cs.highWater.columns| > MAX_MUTATIONS {
      return false;
    }
    var previous: Option<ObjectId> := None;
    for i := 0 to |cs.mutations|
      invariant previous == if i == 0 then None else MutationId(cs.mutations[i - 1])
      invariant forall k | 0 <= k < i :: MutationOk(cs.mutations[k])
      invariant forall j, k | 0 <= j < k < i :: Less(MutationId(cs.mutations[j]).value, MutationId(cs.mutations[k]).value)
    {
      var m := cs.mutations[i];
      assert m in cs.mutations;
      if !MutationOk(m) {
        return false;
      }
      var id := MutationId(m).value;
      if previous.Some? && !Less(previous.value, id) {
        assert cs.mutations[i - 1] in cs.mutations;
        return false;
      }
      previous := Some(id);
    }
    return true;
  }

  // ---------------------------------------------------------------- applying

  /** Statistics are kept only for a user table that is there, with columns it has. */
  function ApplyStatistics(objects: Objects, table: nat, after: Option<Object>): Result<Objects> {
    var id := StatisticsId(table);
    if after.None? then Ok(objects - {id})
    else if !after.value.Statistics? then Fail(Invalid)
    else if TableId(table) !in objects || !objects[TableId(table)].Table? || !objects[TableId(table)].user then
      Ok(objects - {id})
    else if !(after.value.columns <= objects[TableId(table)].columns) then Fail(UnknownColumn(table))
    else Ok(objects[id := after.value])
  }

  function ApplyObject(objects: Objects, id: ObjectId, after: Option<Object>): Result<Objects> {
    if id.StatisticsId? then ApplyStatistics(objects, id.n, after)
    else if after.Some? then Ok(objects[id := after.value])
    else Ok(objects - {id})
  }

  function ApplyMutation(objects: Objects, m: Mutation): Result<Objects> {
    var id := MutationId(m);
    if id.None? then Fail(BadShape)
    else if Get(objects, id.value) != m.before then Fail(Conflict(id.value))
    else ApplyObject(objects, id.value, m.after)
  }

  function ApplyFrom(objects: Objects, ms: seq<Mutation>, i: nat): Result<Objects>
    requires i <= |ms|
    decreases |ms| - i
  {
    if i == |ms| then Ok(objects)
    else
      var r := ApplyMutation(objects, ms[i]);
      if r.Fail? then r else ApplyFrom(r.value, ms, i + 1)
  }

  /** The rest of validation, which is not modelled, is `valid`. */
  ghost function Finish(base: Snapshot, objects: Objects, h: HighWater, valid: Snapshot -> bool): Result<Snapshot> {
    var s := Reserve(Reserve(base.(objects := objects), h), HighWaterOf(base));
    if !UniqueNames(s.objects) then Fail(Invalid)
    else
      var named := s.(names := NameIndex(s.objects));
      if valid(named) then Ok(named) else Fail(Invalid)
  }

  ghost function Applied(base: Snapshot, cs: ChangeSet, valid: Snapshot -> bool): Result<Snapshot> {
    if !ShapeOk(cs) then Fail(BadShape)
    else
      var r := ApplyFrom(base.objects, cs.mutations, 0);
      if r.Fail? then Fail(r.error) else Finish(base, r.value, cs.highWater, valid)
  }

  /** The objects after a change set, one mutation at a time on a copy. */
  method ApplyObjects(objects: Objects, cs: ChangeSet) returns (r: Result<Objects>)
    ensures r == if ShapeOk(cs) then ApplyFrom(objects, cs.mutations, 0) else Fail(BadShape)
  {
    var ok := ValidateShape(cs);
    if !ok {
      return Fail(BadShape);
    }
    var copy := objects;
    for i := 0 to |cs.mutations|
      invariant ApplyFrom(copy, cs.mutations, i) == ApplyFrom(objects, cs.mutations, 0)
    {
      var m := cs.mutations[i];
      var id := MutationId(m);
      if id.None? {
        return Fail(BadShape);
      }
      if Get(copy, id.value) != m.before {
        return Fail(Conflict(id.value));
      }
      var applied := ApplyObject(copy, id.value, m.after);
      if applied.Fail? {
        return applied;
      }
      copy := applied.value;
    }
    return Ok(copy);
  }

  /** `listed` gives every name in use to an object that has it. */
  ghost predicate ListsNames(objects: Objects, listed: map<Name, ObjectId>) {
    && (forall x | x in listed :: listed[x] in objects && NameOf(objects[listed[x]]) == Some(x))
    && (forall a | a in objects && NameOf(objects[a]).Some? :: NameOf(objects[a]).value in listed)
  }

  /** The name indexes, rebuilt from the objects in any order; of two objects of one name the
      later one is listed. */
  method RebuildNames(objects: Objects) returns (listed: map<Name, ObjectId>)
    ensures ListsNames(objects, listed)
  {
    var todo := objects.Keys;
    listed := map[];
    while todo != {}
      invariant todo <= objects.Keys
      invariant forall x | x in listed :: listed[x] in objects && NameOf(objects[listed[x]]) == Some(x)
      invariant forall a | a in objects - todo && NameOf(objects[a]).Some? :: NameOf(objects[a]).value in listed
    {
      var id :| id in todo;
      var name := NameOf(objects[id]);
      if name.Some? {
        listed := listed[name.value := id];
      }
      todo := todo - {id};
    }
  }

  /** Validation looks every name up again, and refuses an object that is not the one listed. */
  method NamesAgree(objects: Objects, listed: map<Name, ObjectId>) returns (ok: bool)
    requires ListsNames(objects, listed)
    ensures ok <==> UniqueNames(objects)
    ensures ok ==> (map x | x in listed :: listed[x].n) == NameIndex(objects)
  {
    var todo := objects.Keys;
    while todo != {}
      invariant todo <= objects.Keys
      invariant forall a | a in objects - todo && NameOf(objects[a]).Some? :: listed[NameOf(objects[a]).value] == a
    {
      var id :| id in todo;
      var name := NameOf(objects[id]);
      if name.Some? && listed[name.value] != id {
        assert NameOf(objects[listed[name.value]]) == NameOf(objects[id]);
        return false;
      }
      todo := todo - {id};
    }
    assert UniqueNames(objects);
    assert (map x | x in listed :: listed[x].n) == NameIndex(objects);
    return true;
  }

  /** Applying a change set: objects, allocators, names, and then validation, of which `valid` is
      the part that is not modelled. */
  method Apply(base: Snapshot, cs: ChangeSet, valid: Snapshot -> bool) returns (r: Result<Snapshot>)
    ensures r == Applied(base, cs, valid)
  {
    hide ShapeOk, ApplyFrom, UniqueNames, NameIndex;
    var objects := ApplyObjects(base.objects, cs);
    if objects.Fail? {
      return Fail(objects.error);
    }
    var s := Reserve(base.(objects := objects.value), cs.highWater);
    s := Reserve(s, HighWaterOf(base));
    var listed := RebuildNames(s.objects);
    var ok := NamesAgree(s.objects, listed);
    if !ok {
      return Fail(Invalid);
    }
    s := s.(names := map x | x in listed :: listed[x].n);
    return if valid(s) then Ok(s) else Fail(Invalid);
  }
}
