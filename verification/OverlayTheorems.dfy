/** When a transaction can still read its own changes after the claim that recorded the last one. */
module OverlayTheorems {
  import opened Options
  import opened Snapshots
  import opened ChangeSets
  import opened ChangeSetTheorems
  import opened CatalogOverlay

  /** Raising allocators keeps a snapshot valid. */
  ghost predicate Upward(valid: Snapshot -> bool) {
    forall s, h | valid(s) :: valid(Reserve(s, h))
  }

  /** A recorded change is the change between two consistent snapshots. */
  ghost predicate IsChange(c: ChangeSet) {
    exists b, a :: Consistent(b) && Consistent(a) && IsBetween(b, a, c)
  }

  ghost predicate TouchesRelation(ms: seq<Mutation>, n: nat) {
    Touches(ms, TableId(n)) || Touches(ms, ViewId(n))
  }

  /** No mutation is of a relation listed in `columns`. */
  ghost predicate Avoids(ms: seq<Mutation>, columns: map<nat, nat>) {
    forall n | n in columns :: !TouchesRelation(ms, n)
  }

  // ---------------------------------------------------------------- raising and applying commute

  lemma RaisedAt(objects: Objects, columns: map<nat, nat>, id: ObjectId)
    requires WellKeyed(objects)
    requires id.n in columns ==> !id.TableId? && !id.ViewId?
    ensures Get(RaiseColumns(objects, columns), id) == Get(objects, id)
  {
  }

  lemma RaisedUpdate(objects: Objects, columns: map<nat, nat>, id: ObjectId, o: Object)
    requires RaiseColumn(o, columns) == o
    ensures RaiseColumns(objects[id := o], columns) == RaiseColumns(objects, columns)[id := o]
  {
  }

  lemma RaisedRemoval(objects: Objects, columns: map<nat, nat>, id: ObjectId)
    ensures RaiseColumns(objects - {id}, columns) == RaiseColumns(objects, columns) - {id}
  {
  }

  lemma MutationCommutes(objects: Objects, m: Mutation, columns: map<nat, nat>)
    requires WellKeyed(objects) && MutationOk(m) && ApplyMutation(objects, m).Ok?
    requires var id := MutationId(m).value; id.n in columns ==> !id.TableId? && !id.ViewId?
    ensures var r := ApplyMutation(objects, m).value;
            && WellKeyed(r)
            && ApplyMutation(RaiseColumns(objects, columns), m) == Ok(RaiseColumns(r, columns))
  {
    hide RaiseColumns;
    var id, up := MutationId(m).value, RaiseColumns(objects, columns);
    RaisedAt(objects, columns, id);
    RaisedRemoval(objects, columns, id);
    if m.after.Some? {
      assert RaiseColumn(m.after.value, columns) == m.after.value;
      RaisedUpdate(objects, columns, id, m.after.value);
    }
    RaisedTable(objects, columns, id.n);
  }

  lemma RaisedTable(objects: Objects, columns: map<nat, nat>, n: nat)
    ensures var up := RaiseColumns(objects, columns);
            TableId(n) in objects ==>
              && (up[TableId(n)].Table? <==> objects[TableId(n)].Table?)
              && (up[TableId(n)].Table? ==> up[TableId(n)].columns == objects[TableId(n)].columns
                                            && up[TableId(n)].user == objects[TableId(n)].user)
  {
  }

  lemma {:induction false} ApplyCommutes(objects: Objects, ms: seq<Mutation>, i: nat, columns: map<nat, nat>)
    requires i <= |ms| && WellFormed(ms) && WellKeyed(objects) && Avoids(ms, columns)
    requires ApplyFrom(objects, ms, i).Ok?
    ensures WellKeyed(ApplyFrom(objects, ms, i).value)
    ensures ApplyFrom(RaiseColumns(objects, columns), ms, i)
         == Ok(RaiseColumns(ApplyFrom(objects, ms, i).value, columns))
    decreases |ms| - i
  {
    hide ApplyMutation, RaiseColumns;
    if i < |ms| {
      KeyOk(ms, i);
      assert ms[i] in ms && Touches(ms, Key(ms, i));
      MutationCommutes(objects, ms[i], columns);
      ApplyCommutes(ApplyMutation(objects, ms[i]).value, ms, i + 1, columns);
    }
  }

  lemma RaisedNext(s: Snapshot, columns: map<nat, nat>, n: nat)
    requires Consistent(s)
    ensures RelationIds(RaiseColumns(s.objects, columns)) == RelationIds(s.objects)
    ensures n in RelationIds(s.objects) ==>
              NextColumn(RaiseColumns(s.objects, columns), n)
              == if n in columns then Max(NextColumn(s.objects, n), columns[n]) else NextColumn(s.objects, n)
  {
    hide UniqueNames, NameIndex;
    var up := RaiseColumns(s.objects, columns);
    assert forall id :: id in up <==> id in s.objects;
    if n in RelationIds(s.objects) {
      var id := RelationIn(s, n);
      RelationNext(s, id);
      assert up[id] == RaiseColumn(s.objects[id], columns);
    }
  }

  /** The counters of one object, raised in either order. */
  lemma RaisedEither(s: Snapshot, o: Object, h: map<nat, nat>, g: map<nat, nat>)
    requires Consistent(s)
    ensures RaiseColumn(RaiseColumn(RaiseColumn(o, g), h), ColumnsNext(RaiseColumns(s.objects, g)))
         == RaiseColumn(RaiseColumn(RaiseColumn(o, h), ColumnsNext(s.objects)), g)
  {
    hide Consistent, RaiseColumns, NextColumn, RelationIds;
    if o.Table? || o.View? {
      RaisedNext(s, g, o.id);
    }
  }

  lemma ObjectsCommute(s: Snapshot, objects: Objects, h: map<nat, nat>, g: map<nat, nat>)
    requires Consistent(s)
    ensures RaiseColumns(RaiseColumns(RaiseColumns(objects, g), h), ColumnsNext(RaiseColumns(s.objects, g)))
         == RaiseColumns(RaiseColumns(RaiseColumns(objects, h), ColumnsNext(s.objects)), g)
  {
    hide Consistent, ColumnsNext, RaiseColumn;
    forall id | id in objects
      ensures RaiseColumn(RaiseColumn(RaiseColumn(objects[id], g), h), ColumnsNext(RaiseColumns(s.objects, g)))
           == RaiseColumn(RaiseColumn(RaiseColumn(objects[id], h), ColumnsNext(s.objects)), g)
    {
      RaisedEither(s, objects[id], h, g);
    }
  }

  lemma NextCommutes(a: Next, h: Next, g: Next)
    ensures MaxNext(MaxNext(MaxNext(a, g), h), MaxNext(a, g)) == MaxNext(MaxNext(MaxNext(a, h), a), g)
  {
  }

  lemma FinishCommutes(s: Snapshot, objects: Objects, h: HighWater, g: HighWater, valid: Snapshot -> bool)
    requires Consistent(s) && Upward(valid) && Finish(s, objects, h, valid).Ok?
    ensures Finish(Reserve(s, g), RaiseColumns(objects, g.columns), h, valid)
         == Ok(Reserve(Finish(s, objects, h, valid).value, g))
  {
    hide Consistent, ColumnsNext, RaiseColumns, MaxNext, UniqueNames, NameIndex;
    var t := Finish(s, objects, h, valid).value;
    ObjectsCommute(s, objects, h.columns, g.columns);
    NextCommutes(s.next, h.next, g.next);
    RaisingKeepsNames(t.objects, g.columns);
    assert valid(Reserve(t, g));
  }

  /** A change that avoids the relations of `g` gives, on a base raised by `g`, the raised result. */
  lemma AppliedCommutes(s: Snapshot, c: ChangeSet, g: HighWater, valid: Snapshot -> bool)
    requires Consistent(s) && Upward(valid) && Avoids(c.mutations, g.columns) && Applied(s, c, valid).Ok?
    ensures Applied(Reserve(s, g), c, valid) == Ok(Reserve(Applied(s, c, valid).value, g))
  {
    hide Finish, RaiseColumns, Reserve;
    assert WellKeyed(s.objects) by { Keyed(s); }
    hide Consistent;
    ApplyCommutes(s.objects, c.mutations, 0, g.columns);
    FinishCommutes(s, ApplyFrom(s.objects, c.mutations, 0).value, c.highWater, g, valid);
    assert Reserve(s, g).objects == RaiseColumns(s.objects, g.columns) by { ReservedObjects(s, g); }
  }

  lemma Keyed(s: Snapshot)
    requires Consistent(s)
    ensures WellKeyed(s.objects)
  {
  }

  lemma ReservedObjects(s: Snapshot, g: HighWater)
    ensures Reserve(s, g).objects == RaiseColumns(s.objects, g.columns)
  {
  }

  // ---------------------------------------------------------------- replaying on a claimed base

  /** The counters of live relations that a claim advances. */
  function ClaimedColumns(base: Snapshot, h: HighWater): map<nat, nat> {
    map n | n in h.columns && n in RelationIds(base.objects) && h.columns[n] > NextColumn(base.objects, n) ::
      h.columns[n]
  }

  function Claims(base: Snapshot, h: HighWater): HighWater {
    HighWater(h.next, ClaimedColumns(base, h))
  }

  lemma ClaimIs(base: Snapshot, h: HighWater)
    requires Consistent(base)
    ensures Reserve(base, h) == Reserve(base, Claims(base, h))
  {
    hide Consistent;
    forall id | id in base.objects
      ensures RaiseColumn(base.objects[id], h.columns) == RaiseColumn(base.objects[id], ClaimedColumns(base, h))
    {
      RelationNext(base, id);
    }
    assert RaiseColumns(base.objects, h.columns) == RaiseColumns(base.objects, ClaimedColumns(base, h));
  }

  ghost predicate Changes(changes: seq<ChangeSet>) {
    forall c | c in changes :: IsChange(c)
  }

  /** The live relations of `g` as a replay that avoids them leaves them. */
  ghost predicate KeptFrom(base: Snapshot, s: Snapshot, g: HighWater) {
    forall id | id in base.objects && (id.TableId? || id.ViewId?) && id.n in g.columns ::
      Get(s.objects, id) == Get(base.objects, id)
  }

  lemma StepKept(base: Snapshot, s: Snapshot, c: ChangeSet, g: HighWater, valid: Snapshot -> bool)
    requires Consistent(s) && IsChange(c) && Validates(valid) && Applied(s, c, valid).Ok?
    requires KeptFrom(base, s, g) && Avoids(c.mutations, g.columns)
    ensures Consistent(Applied(s, c, valid).value) && KeptFrom(base, Applied(s, c, valid).value, g)
  {
    hide Consistent;
    var t := Applied(s, c, valid).value;
    var b, a :| Consistent(b) && Consistent(a) && IsBetween(b, a, c);
    assert AppliedTo(s, b, a, c, valid, t);
    hide Applied, IsBetween;
    var _ := AppliedParts(s, b, a, c, valid, t);
    forall id | id in base.objects && (id.TableId? || id.ViewId?) && id.n in g.columns
      ensures Get(t.objects, id) == Get(base.objects, id)
    {
      assert !TouchesRelation(c.mutations, id.n);
      UntouchedIsKept(s, b, a, c, valid, t, id);
    }
  }

  lemma {:induction false} ReplayRaised(base: Snapshot, changes: seq<ChangeSet>, n: nat, g: HighWater, valid: Snapshot -> bool)
    requires n <= |changes| && Changes(changes) && Consistent(base) && Validates(valid) && Upward(valid)
    requires Replay(base, changes, n, valid).Ok?
    requires forall k | 0 <= k < n :: Avoids(changes[k].mutations, g.columns)
    ensures var s := Replay(base, changes, n, valid).value;
            && Consistent(s) && KeptFrom(base, s, g)
            && Replay(Reserve(base, g), changes, n, valid) == Ok(Reserve(s, g))
  {
    hide Consistent, Applied, Reserve, Avoids, IsChange, Validates, Upward;
    if n > 0 {
      ReplayRaised(base, changes, n - 1, g, valid);
      var s := Replay(base, changes, n - 1, valid).value;
      assert changes[n - 1] in changes;
      StepKept(base, s, changes[n - 1], g, valid);
      AppliedCommutes(s, changes[n - 1], g, valid);
    }
  }

  lemma {:induction false} ReplayPrefix(base: Snapshot, changes: seq<ChangeSet>, n: nat, m: nat, valid: Snapshot -> bool)
    requires n <= m <= |changes|
    ensures Replay(base, changes, m, valid).Ok? ==> Replay(base, changes, n, valid).Ok?
    ensures Replay(base, changes, n, valid).Fail? ==> Replay(base, changes, m, valid) == Replay(base, changes, n, valid)
    decreases m - n
  {
    hide Applied;
    if n < m {
      ReplayPrefix(base, changes, n, m - 1, valid);
    }
  }

  lemma {:induction false} ReplayAppend(base: Snapshot, changes: seq<ChangeSet>, c: ChangeSet, n: nat, valid: Snapshot -> bool)
    requires n <= |changes|
    ensures Replay(base, changes + [c], n, valid) == Replay(base, changes, n, valid)
  {
    hide Applied;
    if n > 0 {
      ReplayAppend(base, changes, c, n - 1, valid);
    }
  }

  // ---------------------------------------------------------------- conflicts

  ghost predicate Conflicts(r: Result<Snapshot>) {
    r.Fail? && r.error.Conflict?
  }

  lemma AtIndex(ms: seq<Mutation>, id: ObjectId) returns (k: nat)
    requires WellFormed(ms) && Touches(ms, id)
    ensures k < |ms| && MutationOk(ms[k]) && Key(ms, k) == id
  {
    var m :| m in ms && MutationId(m) == Some(id);
    k :| 0 <= k < |ms| && ms[k] == m;
    KeyOk(ms, k);
  }

  /** A change meets a conflict on a base whose object is not the change's before-image. */
  lemma WrongImageConflicts(s: Snapshot, c: ChangeSet, k: nat, valid: Snapshot -> bool)
    requires ShapeOk(c) && k < |c.mutations| && MutationOk(c.mutations[k])
    requires !Key(c.mutations, k).StatisticsId? && Get(s.objects, Key(c.mutations, k)) != c.mutations[k].before
    ensures Conflicts(Applied(s, c, valid))
  {
    hide ApplyFrom, Finish;
    MismatchConflicts(s.objects, c.mutations, 0, k);
  }

  /** A change that touches a relation's number touches the relation that has it. */
  lemma TouchesOwner(s: Snapshot, c: ChangeSet, id: ObjectId, valid: Snapshot -> bool)
    requires Consistent(s) && IsChange(c) && Validates(valid) && Applied(s, c, valid).Ok?
    requires id in s.objects && (id.TableId? || id.ViewId?) && TouchesRelation(c.mutations, id.n)
    ensures Touches(c.mutations, id)
  {
    hide Consistent;
    var t := Applied(s, c, valid).value;
    var b, a :| Consistent(b) && Consistent(a) && IsBetween(b, a, c);
    assert AppliedTo(s, b, a, c, valid, t);
    hide Applied, Effects, RaiseColumn;
    if !Touches(c.mutations, id) {
      var other := if id.TableId? then ViewId(id.n) else TableId(id.n);
      var result := AppliedParts(s, b, a, c, valid, t);
      TouchedIsThere(s, b, a, c, result, other);
      var k := AtIndex(c.mutations, other);
      assert MutationBetween(b.objects, a.objects, c.mutations[k]) by { assert c.mutations[k] in c.mutations; }
      if other in s.objects {
        OneRelation(s, id, other);
      }
      UntouchedIsKept(s, b, a, c, valid, t, id);
      OneRelation(t, id, other);
    }
  }

  lemma FirstToucher(changes: seq<ChangeSet>, columns: map<nat, nat>, k: nat) returns (f: nat)
    requires k < |changes| && !Avoids(changes[k].mutations, columns)
    ensures f <= k && !Avoids(changes[f].mutations, columns)
    ensures forall i | 0 <= i < f :: Avoids(changes[i].mutations, columns)
  {
    hide Avoids;
    f := 0;
    while Avoids(changes[f].mutations, columns)
      invariant 0 <= f <= k && forall i | 0 <= i < f :: Avoids(changes[i].mutations, columns)
      decreases k - f
    {
      f := f + 1;
    }
  }

  /** An earlier change of the journal is of a live relation whose counter the claim advances. */
  lemma EarlierConflicts(base: Snapshot, changes: seq<ChangeSet>, h: HighWater, k: nat, valid: Snapshot -> bool)
    requires Consistent(base) && Changes(changes) && Validates(valid) && Upward(valid)
    requires Replay(base, changes, |changes|, valid).Ok?
    requires k < |changes| && !Avoids(changes[k].mutations, ClaimedColumns(base, h))
    ensures Conflicts(Replay(Reserve(base, Claims(base, h)), changes, |changes|, valid))
  {
    hide Consistent, Applied, Validates, Upward, Reserve, ClaimedColumns, IsChange;
    var g := Claims(base, h);
    var f := FirstToucher(changes, g.columns, k);
    ReplayPrefix(base, changes, f, |changes|, valid);
    ReplayPrefix(base, changes, f + 1, |changes|, valid);
    ReplayRaised(base, changes, f, g, valid);
    assert changes[f] in changes;
    ClaimedConflicts(base, Replay(base, changes, f, valid).value, changes[f], h, valid);
    ReplayPrefix(Reserve(base, g), changes, f + 1, |changes|, valid);
  }

  lemma ClaimedConflicts(base: Snapshot, s: Snapshot, c: ChangeSet, h: HighWater, valid: Snapshot -> bool)
    requires Consistent(base) && Consistent(s) && IsChange(c) && Validates(valid) && Applied(s, c, valid).Ok?
    requires KeptFrom(base, s, Claims(base, h)) && !Avoids(c.mutations, ClaimedColumns(base, h))
    ensures Conflicts(Applied(Reserve(s, Claims(base, h)), c, valid))
  {
    hide Consistent, Finish, Validates, IsChange;
    var g := Claims(base, h);
    var n :| n in g.columns && TouchesRelation(c.mutations, n);
    var id := RelationIn(base, n);
    RelationNext(base, id);
    assert Get(s.objects, id) == Get(base.objects, id);
    TouchesOwner(s, c, id, valid);
    var k := AtIndex(c.mutations, id);
    ApplyEffects(s.objects, c.mutations, 0);
    assert c.mutations[k].before == Some(base.objects[id]);
    assert Reserve(s, g).objects[id] == RaiseColumn(base.objects[id], g.columns);
    WrongImageConflicts(Reserve(s, g), c, k, valid);
  }

  /** A claim on the live catalog, the server's own before it records a statement included, leaves
      a journal readable if and only if no recorded change is of a live relation whose counter the
      claim advances. */
  lemma ReadableIff(base: Snapshot, j: Journal, mid: Snapshot, h: HighWater, valid: Snapshot -> bool)
    requires Consistent(base) && Changes(j.changes) && Validates(valid) && Upward(valid)
    requires Replay(base, j.changes, |j.changes|, valid) == Ok(mid)
    ensures var r := Materialized(Reserve(base, h), j, valid);
            if exists k :: 0 <= k < |j.changes| && !Avoids(j.changes[k].mutations, ClaimedColumns(base, h))
            then Conflicts(r)
            else r == Ok(Reserve(Reserve(mid, Claims(base, h)), j.highWater))
  {
    hide Consistent, Validates, Upward, Reserve, ClaimedColumns, Changes, Replay, Avoids;
    ClaimIs(base, h);
    if k :| 0 <= k < |j.changes| && !Avoids(j.changes[k].mutations, ClaimedColumns(base, h)) {
      EarlierConflicts(base, j.changes, h, k, valid);
    } else {
      ReplayRaised(base, j.changes, |j.changes|, Claims(base, h), valid);
    }
  }

  // ---------------------------------------------------------------- reading one's own changes

  /** A relation stays a table or stays a view; numbers are not used again. */
  ghost predicate KeepsKinds(before: Snapshot, after: Snapshot) {
    forall n: nat :: !(TableId(n) in before.objects && ViewId(n) in after.objects)
                  && !(ViewId(n) in before.objects && TableId(n) in after.objects)
  }

  /** A statement of a transaction with journal `j` over the live catalog `base`: the journal
      replays to `mid`, its reservations on top give what the statement saw, and `cs` is what the
      statement changed. */
  ghost predicate Ran(base: Snapshot, j: Journal, mid: Snapshot, before: Snapshot, after: Snapshot, cs: ChangeSet,
                      valid: Snapshot -> bool) {
    && Validates(valid) && Upward(valid) && valid(base)
    && Changes(j.changes)
    && Replay(base, j.changes, |j.changes|, valid) == Ok(mid)
    && before == Reserve(mid, j.highWater)
    && Consistent(after) && NotRewound(before, after) && KeepsKinds(before, after)
    && IsBetween(before, after, cs) && WithinLimits(cs)
  }

  /** The change allocates a column of a live relation. */
  ghost predicate AllocatesLive(base: Snapshot, cs: ChangeSet) {
    exists n :: n in cs.highWater.columns && n in RelationIds(base.objects)
             && cs.highWater.columns[n] > NextColumn(base.objects, n)
  }

  /** The change is of a relation that the journal's reservations, but none of its changes, give
      its column counter. */
  ghost predicate TouchesReserved(mid: Snapshot, j: Journal, cs: ChangeSet) {
    exists id :: Touches(cs.mutations, id) && id in mid.objects
              && RaiseColumn(mid.objects[id], j.highWater.columns) != mid.objects[id]
  }

  function Recorded(j: Journal, cs: ChangeSet): Journal {
    Journal(j.changes + [cs], Merge(j.highWater, cs.highWater))
  }

  lemma {:induction false} ReplayIsValid(base: Snapshot, changes: seq<ChangeSet>, n: nat, valid: Snapshot -> bool)
    requires n <= |changes| && valid(base) && Replay(base, changes, n, valid).Ok?
    ensures valid(Replay(base, changes, n, valid).value)
  {
    hide ShapeOk, ApplyFrom, UniqueNames, NameIndex, Reserve;
    if n > 0 {
      ReplayIsValid(base, changes, n - 1, valid);
    }
  }

  lemma RanConsistent(base: Snapshot, j: Journal, mid: Snapshot, before: Snapshot, after: Snapshot, cs: ChangeSet,
                      valid: Snapshot -> bool)
    requires Ran(base, j, mid, before, after, cs, valid)
    ensures Consistent(base) && Consistent(mid) && Consistent(before) && WellFormed(cs.mutations) && ShapeOk(cs)
  {
    hide Consistent, IsBetween, NotRewound, KeepsKinds, WithinLimits;
    ReplayIsValid(base, j.changes, |j.changes|, valid);
    assert valid(before);
    BetweenHasShape(before, after, cs);
  }

  /** `after` as the change leaves it on the replayed journal, without the journal's reservations. */
  ghost function Settled(mid: Snapshot, after: Snapshot, cs: ChangeSet): Snapshot {
    Snapshot(map id | id in after.objects ::
               if !Touches(cs.mutations, id) && id in mid.objects then mid.objects[id] else after.objects[id],
             after.names, after.next)
  }

  lemma SettledAt(base: Snapshot, j: Journal, mid: Snapshot, before: Snapshot, after: Snapshot, cs: ChangeSet,
                  valid: Snapshot -> bool, id: ObjectId)
    requires Ran(base, j, mid, before, after, cs, valid)
    ensures Touches(cs.mutations, id) ==> Get(Settled(mid, after, cs).objects, id) == Get(after.objects, id)
    ensures !Touches(cs.mutations, id) ==>
              && Get(Settled(mid, after, cs).objects, id) == Get(mid.objects, id)
              && Get(after.objects, id) == Get(before.objects, id)
    ensures id in mid.objects ==> before.objects[id] == RaiseColumn(mid.objects[id], j.highWater.columns)
    ensures id in before.objects <==> id in mid.objects
  {
    hide Consistent, Replay, Validates, Upward, NotRewound, KeepsKinds, WithinLimits;
    assert !Touches(cs.mutations, id) ==> Get(after.objects, id) == Get(before.objects, id);
  }

  /** Two objects are the same but for a column counter. */
  predicate SameButCounter(a: Object, b: Object) {
    match a
    case Table(id, schema, name, user, cols, _, body) =>
      b.Table? && b == Table(id, schema, name, user, cols, b.nextColumn, body)
    case View(id, schema, name, _, body) => b.View? && b == View(id, schema, name, b.nextColumn, body)
    case _ => b == a
  }

  lemma SameConsistent(s: Snapshot, t: Snapshot)
    requires Consistent(s) && t.objects.Keys == s.objects.Keys && t.names == s.names
    requires forall id | id in s.objects :: SameButCounter(s.objects[id], t.objects[id])
    ensures Consistent(t)
  {
    assert forall id :: id in s.objects <==> id in t.objects;
    SameNames(s.objects, t.objects);
    hide UniqueNames, NameIndex;
    forall id | id in t.objects ensures StatisticsOk(t.objects, t.objects[id]) {
      assert StatisticsOk(s.objects, s.objects[id]);
    }
  }

  lemma SettledSame(base: Snapshot, j: Journal, mid: Snapshot, before: Snapshot, after: Snapshot, cs: ChangeSet,
                    valid: Snapshot -> bool, id: ObjectId)
    requires Ran(base, j, mid, before, after, cs, valid) && id in after.objects
    ensures id in Settled(mid, after, cs).objects
    ensures SameButCounter(after.objects[id], Settled(mid, after, cs).objects[id])
  {
    hide Ran, Settled;
    SettledAt(base, j, mid, before, after, cs, valid, id);
  }

  lemma SettledConsistent(base: Snapshot, j: Journal, mid: Snapshot, before: Snapshot, after: Snapshot, cs: ChangeSet,
                          valid: Snapshot -> bool)
    requires Ran(base, j, mid, before, after, cs, valid)
    ensures Consistent(Settled(mid, after, cs))
  {
    hide Ran, Settled, Consistent, SameButCounter;
    var t := Settled(mid, after, cs);
    SettledKeys(base, j, mid, before, after, cs, valid);
    forall id | id in after.objects ensures SameButCounter(after.objects[id], t.objects[id]) {
      SettledSame(base, j, mid, before, after, cs, valid, id);
    }
    SameConsistent(after, t);
  }

  lemma SettledKeys(base: Snapshot, j: Journal, mid: Snapshot, before: Snapshot, after: Snapshot, cs: ChangeSet,
                    valid: Snapshot -> bool)
    requires Ran(base, j, mid, before, after, cs, valid)
    ensures var t := Settled(mid, after, cs);
            Consistent(after) && t.objects.Keys == after.objects.Keys && t.names == after.names && t.next == after.next
  {
  }

  /** Without reserved counters in the way, the change is also the one from the replayed journal to
      what it settles to. */
  lemma SettledMutations(base: Snapshot, j: Journal, mid: Snapshot, before: Snapshot, after: Snapshot, cs: ChangeSet,
                         valid: Snapshot -> bool)
    requires Ran(base, j, mid, before, after, cs, valid) && !TouchesReserved(mid, j, cs)
    ensures var t := Settled(mid, after, cs);
            && (forall m | m in cs.mutations :: MutationBetween(mid.objects, t.objects, m))
            && (forall id | Get(mid.objects, id) != Get(t.objects, id) :: Touches(cs.mutations, id))
  {
    hide Consistent, Replay, Validates, Upward, NotRewound, KeepsKinds, Settled, RaiseColumn;
    var t := Settled(mid, after, cs);
    forall m | m in cs.mutations ensures MutationBetween(mid.objects, t.objects, m) {
      assert MutationBetween(before.objects, after.objects, m);
      var id := MutationId(m).value;
      assert Touches(cs.mutations, id);
      SettledAt(base, j, mid, before, after, cs, valid, id);
    }
    forall id | Get(mid.objects, id) != Get(t.objects, id) ensures Touches(cs.mutations, id) {
      SettledAt(base, j, mid, before, after, cs, valid, id);
    }
  }

  lemma SettledAdvanced(base: Snapshot, j: Journal, mid: Snapshot, before: Snapshot, after: Snapshot, cs: ChangeSet,
                        valid: Snapshot -> bool, id: ObjectId)
    requires Ran(base, j, mid, before, after, cs, valid) && !TouchesReserved(mid, j, cs)
    ensures var t := Settled(mid, after, cs);
            && (Advanced(mid.objects, t.objects, id) <==> Advanced(before.objects, after.objects, id))
            && (Advanced(before.objects, after.objects, id) ==> Get(t.objects, id) == Get(after.objects, id))
  {
    hide Consistent, Replay, Validates, Upward, NotRewound, KeepsKinds, Settled, RaiseColumn, IsBetween;
    SettledAt(base, j, mid, before, after, cs, valid, id);
    assert Get(before.objects, id) == Get(after.objects, id) ==> !Advanced(before.objects, after.objects, id);
  }

  lemma SettledColumns(base: Snapshot, j: Journal, mid: Snapshot, before: Snapshot, after: Snapshot, cs: ChangeSet,
                       valid: Snapshot -> bool)
    requires Ran(base, j, mid, before, after, cs, valid) && !TouchesReserved(mid, j, cs)
    ensures var t := Settled(mid, after, cs);
            AdvancedColumns(mid.objects, t.objects) == AdvancedColumns(before.objects, after.objects)
  {
    hide Ran, Settled, TouchesReserved, Consistent, NextColumn, NextOf;
    var t := Settled(mid, after, cs);
    SettledKeys(base, j, mid, before, after, cs, valid);
    SettledConsistent(base, j, mid, before, after, cs, valid);
    var a, b := AdvancedColumns(mid.objects, t.objects), AdvancedColumns(before.objects, after.objects);
    assert RelationIds(t.objects) == RelationIds(after.objects);
    forall n: nat | n in RelationIds(after.objects) ensures n in a <==> n in b {
      SettledAdvanced(base, j, mid, before, after, cs, valid, TableId(n));
      SettledAdvanced(base, j, mid, before, after, cs, valid, ViewId(n));
    }
    forall n | n in b ensures n in a && a[n] == b[n] {
      SettledAdvanced(base, j, mid, before, after, cs, valid, TableId(n));
      SettledAdvanced(base, j, mid, before, after, cs, valid, ViewId(n));
      var id := if Advanced(before.objects, after.objects, TableId(n)) then TableId(n) else ViewId(n);
      SameNext(after, t, id);
    }
  }

  lemma SameNext(s: Snapshot, t: Snapshot, id: ObjectId)
    requires Consistent(s) && Consistent(t) && (id.TableId? || id.ViewId?) && Get(s.objects, id) == Get(t.objects, id)
    ensures id in s.objects ==> NextColumn(s.objects, id.n) == NextColumn(t.objects, id.n)
  {
    hide Consistent;
    if id in s.objects {
      RelationNext(s, id);
      RelationNext(t, id);
    }
  }

  lemma SettledBetween(base: Snapshot, j: Journal, mid: Snapshot, before: Snapshot, after: Snapshot, cs: ChangeSet,
                       valid: Snapshot -> bool, next: Next)
    requires Ran(base, j, mid, before, after, cs, valid) && !TouchesReserved(mid, j, cs)
    ensures IsBetween(mid.(next := next), Settled(mid, after, cs), cs)
  {
    hide Settled, TouchesReserved, Consistent, AdvancedColumns, MutationBetween, Replay, KeepsKinds, NotRewound;
    SettledKeys(base, j, mid, before, after, cs, valid);
    SettledMutations(base, j, mid, before, after, cs, valid);
    SettledColumns(base, j, mid, before, after, cs, valid);
  }

  /** Counters of the settled snapshot are not behind those of the replayed journal. */
  lemma SettledNext(base: Snapshot, j: Journal, mid: Snapshot, before: Snapshot, after: Snapshot, cs: ChangeSet,
                    valid: Snapshot -> bool, n: nat)
    requires Ran(base, j, mid, before, after, cs, valid) && !TouchesReserved(mid, j, cs)
    requires n in RelationIds(mid.objects) && n in RelationIds(after.objects)
    ensures NextColumn(Settled(mid, after, cs).objects, n) >= NextColumn(mid.objects, n)
  {
    RanConsistent(base, j, mid, before, after, cs, valid);
    SettledConsistent(base, j, mid, before, after, cs, valid);
    hide Consistent, Replay, Validates, Upward, Settled, IsBetween, RaiseColumn, NextColumn;
    var t := Settled(mid, after, cs);
    var id := RelationIn(after, n);
    var was := RelationIn(mid, n);
    SettledAt(base, j, mid, before, after, cs, valid, id);
    SettledAt(base, j, mid, before, after, cs, valid, was);
    assert was == id;
    RelationNext(mid, id);
    RelationNext(t, id);
    RelationNext(before, id);
    RelationNext(after, id);
  }

  lemma SettledNotRewound(base: Snapshot, j: Journal, mid: Snapshot, before: Snapshot, after: Snapshot, cs: ChangeSet,
                          valid: Snapshot -> bool)
    requires Ran(base, j, mid, before, after, cs, valid) && !TouchesReserved(mid, j, cs)
    ensures NotRewound(mid.(next := MaxNext(mid.next, cs.highWater.next)), Settled(mid, after, cs))
  {
    SettledKeys(base, j, mid, before, after, cs, valid);
    var t := Settled(mid, after, cs);
    assert RelationIds(t.objects) == RelationIds(after.objects);
    assert AtLeast(t.next, MaxNext(mid.next, cs.highWater.next));
    hide Ran, Settled, TouchesReserved, NextColumn, RelationIds;
    forall n | n in RelationIds(mid.objects) && n in RelationIds(t.objects)
      ensures NextColumn(t.objects, n) >= NextColumn(mid.objects, n)
    {
      SettledNext(base, j, mid, before, after, cs, valid, n);
    }
  }

  /** The journal's reservations on top of the settled snapshot give `after` again. */
  lemma SettledReserved(base: Snapshot, j: Journal, mid: Snapshot, before: Snapshot, after: Snapshot, cs: ChangeSet,
                        valid: Snapshot -> bool)
    requires Ran(base, j, mid, before, after, cs, valid) && !TouchesReserved(mid, j, cs)
    ensures Reserve(Settled(mid, after, cs), Merge(j.highWater, cs.highWater)) == Reserve(after, j.highWater)
  {
    hide Ran, Settled, TouchesReserved, RaiseColumn, MergeColumns, MaxNext, Consistent;
    SettledKeys(base, j, mid, before, after, cs, valid);
    ReservedNext(base, j, mid, before, after, cs, valid);
    var t, columns := Settled(mid, after, cs), MergeColumns(j.highWater.columns, cs.highWater.columns);
    forall id | id in after.objects
      ensures RaiseColumn(t.objects[id], columns) == RaiseColumn(after.objects[id], j.highWater.columns)
    {
      ReservedAt(base, j, mid, before, after, cs, valid, id);
    }
    assert RaiseColumns(t.objects, columns) == RaiseColumns(after.objects, j.highWater.columns);
  }

  lemma ReservedNext(base: Snapshot, j: Journal, mid: Snapshot, before: Snapshot, after: Snapshot, cs: ChangeSet,
                     valid: Snapshot -> bool)
    requires Ran(base, j, mid, before, after, cs, valid)
    ensures MaxNext(after.next, MaxNext(j.highWater.next, cs.highWater.next)) == MaxNext(after.next, j.highWater.next)
  {
    hide Replay, Consistent, Validates, Upward, NotRewound, KeepsKinds, Touches;
    assert cs.highWater.next == after.next;
  }

  lemma ReservedAt(base: Snapshot, j: Journal, mid: Snapshot, before: Snapshot, after: Snapshot, cs: ChangeSet,
                   valid: Snapshot -> bool, id: ObjectId)
    requires Ran(base, j, mid, before, after, cs, valid) && !TouchesReserved(mid, j, cs) && id in after.objects
    ensures id in Settled(mid, after, cs).objects
    ensures RaiseColumn(Settled(mid, after, cs).objects[id], MergeColumns(j.highWater.columns, cs.highWater.columns))
         == RaiseColumn(after.objects[id], j.highWater.columns)
  {
    hide Ran, Settled, TouchesReserved, Touches, RaiseColumn, MergeColumns;
    SettledAt(base, j, mid, before, after, cs, valid, id);
    OwnReservation(base, j, mid, before, after, cs, valid, id);
    if Touches(cs.mutations, id) {
      MergeWithOwn(after.objects[id], j.highWater.columns, cs.highWater.columns);
    } else {
      MergeWithout(mid.objects[id], j.highWater.columns, cs.highWater.columns);
    }
  }

  lemma MergeWithOwn(o: Object, a: map<nat, nat>, b: map<nat, nat>)
    requires o.Table? || o.View? ==> (o.id in b ==> b[o.id] == NextOf(o))
    ensures RaiseColumn(o, MergeColumns(a, b)) == RaiseColumn(o, a)
  {
  }

  lemma MergeWithout(o: Object, a: map<nat, nat>, b: map<nat, nat>)
    requires o.Table? || o.View? ==> o.id !in b
    ensures RaiseColumn(o, MergeColumns(a, b)) == RaiseColumn(o, a) == RaiseColumn(RaiseColumn(o, a), a)
  {
  }

  /** What a change reserves for a relation is the relation's own counter, if it touches it. */
  lemma OwnReservation(base: Snapshot, j: Journal, mid: Snapshot, before: Snapshot, after: Snapshot, cs: ChangeSet,
                       valid: Snapshot -> bool, id: ObjectId)
    requires Ran(base, j, mid, before, after, cs, valid) && id in after.objects
    ensures (after.objects[id].Table? || after.objects[id].View?) ==> after.objects[id].id == id.n
    ensures (id.TableId? || id.ViewId?) && id.n in cs.highWater.columns ==>
              Touches(cs.mutations, id) && cs.highWater.columns[id.n] == NextOf(after.objects[id])
    ensures (id.TableId? <==> after.objects[id].Table?) && (id.ViewId? <==> after.objects[id].View?)
  {
    hide Consistent, Replay, Validates, Upward, NotRewound, KeepsKinds;
    RelationNext(after, id);
    if (id.TableId? || id.ViewId?) && id.n in cs.highWater.columns {
      var other := AdvancedIsTouched(before, after, cs, id.n);
      OneRelation(after, id, other);
    }
  }

  /** The claimed counter of a live relation that only the statement itself touched. */
  lemma LiveColumnConflicts(base: Snapshot, j: Journal, mid: Snapshot, before: Snapshot, after: Snapshot, cs: ChangeSet,
                            valid: Snapshot -> bool)
    requires Ran(base, j, mid, before, after, cs, valid) && AllocatesLive(base, cs)
    requires KeptFrom(base, mid, Claims(base, cs.highWater))
    ensures Conflicts(Applied(Reserve(mid, Claims(base, cs.highWater)), cs, valid))
  {
    hide Ran, Consistent, ShapeOk, Applied, Settled, NextColumn, RelationIds, Touches, Conflicts;
    RanConsistent(base, j, mid, before, after, cs, valid);
    var g := Claims(base, cs.highWater);
    var n :| n in cs.highWater.columns && n in RelationIds(base.objects)
          && cs.highWater.columns[n] > NextColumn(base.objects, n);
    var id := RelationIn(base, n);
    assert Get(mid.objects, id) == Get(base.objects, id);
    RelationNext(base, id);
    var k := LiveBeforeImage(base, j, mid, before, after, cs, valid, id);
    ClaimedImage(base, mid, cs.highWater, id);
    WrongImageConflicts(Reserve(mid, g), cs, k, valid);
  }

  lemma ClaimedImage(base: Snapshot, mid: Snapshot, h: HighWater, id: ObjectId)
    requires Consistent(base) && id in base.objects && Get(mid.objects, id) == Get(base.objects, id)
    requires (id.TableId? || id.ViewId?) && id.n in ClaimedColumns(base, h)
    ensures id in Reserve(mid, Claims(base, h)).objects
    ensures NextOf(Reserve(mid, Claims(base, h)).objects[id]) == h.columns[id.n]
  {
    hide Consistent;
    RelationNext(base, id);
  }

  /** The before-image of a live relation whose columns the statement allocates is behind the claim. */
  lemma LiveBeforeImage(base: Snapshot, j: Journal, mid: Snapshot, before: Snapshot, after: Snapshot, cs: ChangeSet,
                        valid: Snapshot -> bool, id: ObjectId) returns (k: nat)
    requires Ran(base, j, mid, before, after, cs, valid) && (id.TableId? || id.ViewId?)
    requires id in mid.objects && id.n in cs.highWater.columns
    ensures k < |cs.mutations| && MutationOk(cs.mutations[k]) && Key(cs.mutations, k) == id
    ensures cs.mutations[k].before.Some? && NextOf(cs.mutations[k].before.value) < cs.highWater.columns[id.n]
  {
    RanConsistent(base, j, mid, before, after, cs, valid);
    SettledAt(base, j, mid, before, after, cs, valid, id);
    hide Consistent, Replay, Validates, Upward, NotRewound, ShapeOk, Settled, RaiseColumn;
    var now := AdvancedIsTouched(before, after, cs, id.n);
    assert now == id;
    OwnReservation(base, j, mid, before, after, cs, valid, id);
    AdvancedHere(before, after, id.n, id);
    k := AtIndex(cs.mutations, id);
    assert MutationBetween(before.objects, after.objects, cs.mutations[k]) by { assert cs.mutations[k] in cs.mutations; }
  }

  lemma AdvancedHere(before: Snapshot, after: Snapshot, n: nat, id: ObjectId)
    requires Consistent(before) && Consistent(after) && n in AdvancedColumns(before.objects, after.objects)
    requires id in before.objects && id in after.objects && (id.TableId? || id.ViewId?) && id.n == n
    ensures NextOf(before.objects[id]) < NextOf(after.objects[id])
  {
    hide Consistent;
    var other := if Advanced(before.objects, after.objects, TableId(n)) then TableId(n) else ViewId(n);
    OneRelation(after, id, other);
  }

  lemma ReservedCounterConflicts(base: Snapshot, j: Journal, mid: Snapshot, before: Snapshot, after: Snapshot,
                                 cs: ChangeSet, valid: Snapshot -> bool, s: Snapshot)
    requires Ran(base, j, mid, before, after, cs, valid) && TouchesReserved(mid, j, cs) && s.objects == mid.objects
    ensures Conflicts(Applied(s, cs, valid))
  {
    RanConsistent(base, j, mid, before, after, cs, valid);
    hide Consistent, Replay, Validates, Upward, NotRewound, ShapeOk, Applied;
    var id :| Touches(cs.mutations, id) && id in mid.objects
           && RaiseColumn(mid.objects[id], j.highWater.columns) != mid.objects[id];
    SettledAt(base, j, mid, before, after, cs, valid, id);
    RelationNext(mid, id);
    var k := AtIndex(cs.mutations, id);
    assert MutationBetween(before.objects, after.objects, cs.mutations[k]) by { assert cs.mutations[k] in cs.mutations; }
    WrongImageConflicts(s, cs, k, valid);
  }

  lemma NothingClaimed(base: Snapshot, mid: Snapshot, cs: ChangeSet)
    requires !AllocatesLive(base, cs)
    ensures Reserve(mid, Claims(base, cs.highWater)) == mid.(next := MaxNext(mid.next, cs.highWater.next))
  {
    assert ClaimedColumns(base, cs.highWater) == map[];
    assert RaiseColumns(mid.objects, map[]) == mid.objects;
  }

  lemma SettlesTo(base: Snapshot, j: Journal, mid: Snapshot, before: Snapshot, after: Snapshot, cs: ChangeSet,
                  valid: Snapshot -> bool)
    requires Ran(base, j, mid, before, after, cs, valid) && !TouchesReserved(mid, j, cs)
    ensures var t := Settled(mid, after, cs);
            Applied(mid.(next := MaxNext(mid.next, cs.highWater.next)), cs, valid)
            == if valid(t) then Ok(t) else Fail(Invalid)
  {
    RanConsistent(base, j, mid, before, after, cs, valid);
    SettledConsistent(base, j, mid, before, after, cs, valid);
    SettledBetween(base, j, mid, before, after, cs, valid, MaxNext(mid.next, cs.highWater.next));
    SettledNotRewound(base, j, mid, before, after, cs, valid);
    var s, t := mid.(next := MaxNext(mid.next, cs.highWater.next)), Settled(mid, after, cs);
    assert Consistent(s) by { SameConsistency(mid, s); }
    assert WithinLimits(cs);
    hide Ran, Consistent, Settled, IsBetween, NotRewound, Applied, TouchesReserved;
    AppliedIsRaised(s, t, cs, valid);
    RaisedIsSame(s, t);
  }

  lemma JournalConflicts(base: Snapshot, j: Journal, mid: Snapshot, before: Snapshot, after: Snapshot, cs: ChangeSet,
                         valid: Snapshot -> bool, k: nat)
    requires Ran(base, j, mid, before, after, cs, valid)
    requires k < |j.changes| && !Avoids(j.changes[k].mutations, ClaimedColumns(base, cs.highWater))
    ensures AllocatesLive(base, cs)
    ensures Conflicts(Replay(Reserve(base, Claims(base, cs.highWater)), j.changes + [cs], |j.changes| + 1, valid))
  {
    RanConsistent(base, j, mid, before, after, cs, valid);
    var claimed, n := Reserve(base, Claims(base, cs.highWater)), |j.changes|;
    hide Consistent, Reserve, Applied;
    EarlierConflicts(base, j.changes, cs.highWater, k, valid);
    ReplayAppend(claimed, j.changes, cs, n, valid);
    ReplayPrefix(claimed, j.changes + [cs], n, n + 1, valid);
  }

  lemma LastStep(base: Snapshot, j: Journal, mid: Snapshot, before: Snapshot, after: Snapshot, cs: ChangeSet,
                 valid: Snapshot -> bool)
    requires Ran(base, j, mid, before, after, cs, valid)
    requires forall k | 0 <= k < |j.changes| :: Avoids(j.changes[k].mutations, ClaimedColumns(base, cs.highWater))
    ensures var r := Replay(Reserve(base, Claims(base, cs.highWater)), j.changes + [cs], |j.changes| + 1, valid);
            if AllocatesLive(base, cs) || TouchesReserved(mid, j, cs) then Conflicts(r)
            else r == if valid(Settled(mid, after, cs)) then Ok(Settled(mid, after, cs)) else Fail(Invalid)
  {
    RanConsistent(base, j, mid, before, after, cs, valid);
    var g, n := Claims(base, cs.highWater), |j.changes|;
    hide Consistent, Reserve, Applied, TouchesReserved, AllocatesLive, Settled, ClaimedColumns, Avoids;
    ReplayRaised(base, j.changes, n, g, valid);
    ReplayAppend(Reserve(base, g), j.changes, cs, n, valid);
    if AllocatesLive(base, cs) {
      LiveColumnConflicts(base, j, mid, before, after, cs, valid);
    } else {
      NothingClaimed(base, mid, cs);
      if TouchesReserved(mid, j, cs) {
        ReservedCounterConflicts(base, j, mid, before, after, cs, valid, Reserve(mid, g));
      } else {
        SettlesTo(base, j, mid, before, after, cs, valid);
      }
    }
  }

  /** After a statement's claim the transaction reads exactly what the statement left, if and only
      if the statement allocated no column of a live relation and touched no relation whose
      counter only reservations hold up; otherwise every later read of the transaction, and its
      commit, meets a conflict. A change of the journal may be the one that conflicts. */
  lemma ClaimedJournalIff(base: Snapshot, j: Journal, mid: Snapshot, before: Snapshot, after: Snapshot, cs: ChangeSet,
                          valid: Snapshot -> bool)
    requires Ran(base, j, mid, before, after, cs, valid)
    ensures var r := Materialized(Reserve(base, cs.highWater), Recorded(j, cs), valid);
            if AllocatesLive(base, cs) || TouchesReserved(mid, j, cs) then Conflicts(r)
            else r == if valid(Settled(mid, after, cs)) then Ok(Reserve(after, j.highWater)) else Fail(Invalid)
  {
    hide Ran, Reserve, Replay, Consistent, Settled, Avoids, ClaimedColumns, TouchesReserved, AllocatesLive, Merge;
    RanConsistent(base, j, mid, before, after, cs, valid);
    ClaimIs(base, cs.highWater);
    if k :| 0 <= k < |j.changes| && !Avoids(j.changes[k].mutations, ClaimedColumns(base, cs.highWater)) {
      JournalConflicts(base, j, mid, before, after, cs, valid, k);
    } else {
      LastStep(base, j, mid, before, after, cs, valid);
      if !TouchesReserved(mid, j, cs) {
        SettledReserved(base, j, mid, before, after, cs, valid);
      }
    }
  }

  // ---------------------------------------------------------------- a rolled-back column

  ghost const NO_TABLES: Snapshot := Snapshot(map[], map[], OneTable({}, 0).next)

  /** The change that creates the table. */
  ghost function Creation(columns: set<nat>, n: nat): ChangeSet {
    ChangeSet(VERSION, [Mutation(None, Some(OneTable(columns, n).objects[TableId(5)]))],
              HighWaterBetween(NO_TABLES, OneTable(columns, n)))
  }

  lemma NoTablesIs()
    ensures Consistent(NO_TABLES) && RelationIds(NO_TABLES.objects) == {}
  {
    assert NameIndex(NO_TABLES.objects) == map[];
  }

  lemma CreationBetween(columns: set<nat>, n: nat)
    ensures IsBetween(NO_TABLES, OneTable(columns, n), Creation(columns, n)) && WithinLimits(Creation(columns, n))
    ensures Creation(columns, n).highWater.columns == map[5 := n]
    ensures NotRewound(NO_TABLES, OneTable(columns, n))
  {
    var after, c := OneTable(columns, n), Creation(columns, n);
    OneTableIs(columns, n);
    NoTablesIs();
    assert Advanced(NO_TABLES.objects, after.objects, TableId(5));
    assert c.highWater.columns == map[5 := n];
    assert c.mutations[0] in c.mutations && Touches(c.mutations, TableId(5));
    assert MutationBetween(NO_TABLES.objects, after.objects, c.mutations[0]);
  }

  lemma ConsistentIsUpward()
    ensures Validates(s => Consistent(s)) && Upward(s => Consistent(s))
  {
    forall s, h | Consistent(s) ensures Consistent(Reserve(s, h)) {
      SameConsistent(s, Reserve(s, h));
    }
  }

  /** The journal of a transaction that creates a table, takes a savepoint, adds a column, and rolls
      back to the savepoint. */
  ghost function AfterRollback(): Option<Journal> {
    var create := Recorded(Journal([], NOTHING), Creation({1}, 2));
    var p := Savepoint(|create.changes|, create.highWater);
    RolledBack(Recorded(create, OneTableChange({1}, 2, {1, 2}, 3)), p)
  }

  lemma AfterRollbackIs()
    ensures var j := AfterRollback();
            j.Some? && j.value.changes == [Creation({1}, 2)] && j.value.highWater.columns == map[5 := 3]
            && j.value.highWater.next == OneTable({1}, 2).next
  {
    hide Creation, OneTableChange, OneTable;
    CreationBetween({1}, 2);
    OneTableBetween({1}, 2, {1, 2}, 3);
    CreationNext();
    RollbackLeaves(Creation({1}, 2), OneTableChange({1}, 2, {1, 2}, 3));
  }

  /** Rolling back the second of two changes leaves its reservations. */
  lemma RollbackLeaves(a: ChangeSet, b: ChangeSet)
    requires a.highWater.columns == map[5 := 2] && b.highWater.columns == map[5 := 3]
    requires a.highWater.next == b.highWater.next
    ensures var create := Recorded(Journal([], NOTHING), a);
            var j := RolledBack(Recorded(create, b), Savepoint(1, create.highWater));
            && |create.changes| == 1
            && j == Some(Journal([a], HighWater(a.highWater.next, map[5 := 3])))
  {
    var create := Recorded(Journal([], NOTHING), a);
    assert create.highWater.columns == map[5 := 2];
    var both := Recorded(create, b);
    assert both.highWater.columns == map[5 := 3];
    assert MergeColumns(both.highWater.columns, create.highWater.columns) == map[5 := 3];
    assert both.changes[..1] == [a];
  }

  lemma CreationNext()
    ensures Creation({1}, 2).highWater.next == OneTable({1}, 2).next
    ensures OneTableChange({1}, 2, {1, 2}, 3).highWater.next == OneTable({1}, 2).next
  {
  }

  /** That transaction alters its table once more, and from then on conflicts with itself: the
      statement saw the counter the rolled-back column left reserved, the journal does not. */
  lemma RolledBackColumnConflicts(j: Journal)
    requires AfterRollback() == Some(j)
    ensures var mid, before, after := OneTable({1}, 2), OneTable({1}, 3), OneTable({1, 3}, 4);
            var cs := OneTableChange({1}, 3, {1, 3}, 4);
            && Ran(NO_TABLES, j, mid, before, after, cs, s => Consistent(s))
            && !AllocatesLive(NO_TABLES, cs)
            && Conflicts(Materialized(Reserve(NO_TABLES, cs.highWater), Recorded(j, cs), s => Consistent(s)))
  {
    hide Materialized, Conflicts, Creation;
    var mid, before, after := OneTable({1}, 2), OneTable({1}, 3), OneTable({1, 3}, 4);
    var cs := OneTableChange({1}, 3, {1, 3}, 4);
    AfterRollbackIs();
    RollbackRan(j);
    NoTablesIs();
    assert Touches(cs.mutations, TableId(5)) by { assert cs.mutations[0] in cs.mutations; }
    assert TouchesReserved(mid, j, cs) by {
      assert RaiseColumn(mid.objects[TableId(5)], j.highWater.columns).nextColumn == 3;
    }
    ClaimedJournalIff(NO_TABLES, j, mid, before, after, cs, s => Consistent(s));
  }

  lemma RollbackRan(j: Journal)
    requires AfterRollback() == Some(j)
    ensures Ran(NO_TABLES, j, OneTable({1}, 2), OneTable({1}, 3), OneTable({1, 3}, 4), OneTableChange({1}, 3, {1, 3}, 4),
                s => Consistent(s))
  {
    hide Consistent, OneTableChange, Creation, IsBetween, WithinLimits, Applied, Reserve, NotRewound, KeepsKinds,
         AfterRollback, OneTable, Validates, Upward;
    var c := Creation({1}, 2);
    AfterRollbackIs();
    ConsistentIsUpward();
    NoTablesIs();
    CreationBetween({1}, 2);
    OneTableIs({1}, 2);
    OneTableIs({1, 3}, 4);
    OneTableBetween({1}, 3, {1, 3}, 4);
    OneTableMoves();
    RoundTripIff(NO_TABLES, OneTable({1}, 2), c, s => Consistent(s));
    assert Replay(NO_TABLES, [c], 0, s => Consistent(s)) == Ok(NO_TABLES);
    assert Replay(NO_TABLES, [c], 1, s => Consistent(s)) == Ok(OneTable({1}, 2));
    assert IsChange(c);
    ReservedTable({1}, 2, 3, j.highWater);
  }

  lemma OneTableMoves()
    ensures NotRewound(OneTable({1}, 3), OneTable({1, 3}, 4)) && KeepsKinds(OneTable({1}, 3), OneTable({1, 3}, 4))
  {
    OneTableIs({1}, 3);
    OneTableIs({1, 3}, 4);
  }

  lemma ReservedTable(columns: set<nat>, n: nat, m: nat, h: HighWater)
    requires n <= m && h.columns == (if n < m then map[5 := m] else map[]) && AtLeast(OneTable(columns, n).next, h.next)
    ensures Reserve(OneTable(columns, n), h) == OneTable(columns, m)
  {
    assert RaiseColumns(OneTable(columns, n).objects, h.columns) == OneTable(columns, m).objects;
  }

  // ---------------------------------------------------------------- a second column

  lemma OneTableGrows(a: set<nat>, n: nat, b: set<nat>, m: nat)
    requires n <= m
    ensures NotRewound(OneTable(a, n), OneTable(b, m))
  {
    OneTableIs(a, n);
    OneTableIs(b, m);
  }

  lemma FirstColumnReads()
    ensures var c, valid := OneTableChange({1}, 3, {1, 2}, 3), s => Consistent(s);
            && IsBetween(OneTable({1}, 3), OneTable({1, 2}, 3), c) && Changes([c])
            && Replay(OneTable({1}, 3), [c], 1, valid) == Ok(OneTable({1, 2}, 3))
            && Reserve(OneTable({1, 2}, 3), Merge(NOTHING, c.highWater)) == OneTable({1, 2}, 3)
  {
    hide Consistent, IsBetween, WithinLimits, Applied, NotRewound, Reserve;
    var c := OneTableChange({1}, 3, {1, 2}, 3);
    OneTableIs({1}, 3);
    OneTableIs({1, 2}, 3);
    assert 2 in {1, 2} && 2 !in {1};
    OneTableBetween({1}, 3, {1, 2}, 3);
    OneTableGrows({1}, 3, {1, 2}, 3);
    RoundTripIff(OneTable({1}, 3), OneTable({1, 2}, 3), c, s => Consistent(s));
    assert Replay(OneTable({1}, 3), [c], 0, s => Consistent(s)) == Ok(OneTable({1}, 3));
    assert IsChange(c);
    assert Merge(NOTHING, c.highWater).columns == map[] by {
      assert c.highWater.columns == map[];
    }
    assert AtLeast(OneTable({1, 2}, 3).next, Merge(NOTHING, c.highWater).next) by {
      assert c.highWater.next == OneTable({1, 2}, 3).next;
    }
    ReservedTable({1, 2}, 3, 3, Merge(NOTHING, c.highWater));
  }

  /** A transaction of the server, which claims before it records, adds a column to a live table
      and reads it back; its next statement adds another, and from that claim on the transaction
      conflicts with itself. */
  lemma SecondColumnConflicts()
    ensures var live, seen, next := OneTable({1}, 3), OneTable({1, 2}, 3), OneTable({1, 2, 3}, 4);
            var j, valid := Recorded(Journal([], NOTHING), OneTableChange({1}, 3, {1, 2}, 3)), s => Consistent(s);
            && live == Reserve(OneTable({1}, 2), HighWaterBetween(OneTable({1}, 2), OneTable({1, 2}, 3)))
            && IsBetween(live, seen, j.changes[0])
            && Materialized(live, j, valid) == Ok(seen)
            && Conflicts(Materialized(Reserve(live, HighWaterBetween(seen, next)), j, valid))
  {
    hide Consistent, IsBetween, Validates, Upward, Reserve, Applied, Conflicts;
    var c := OneTableChange({1}, 3, {1, 2}, 3);
    var j := Recorded(Journal([], NOTHING), c);
    var h := HighWaterBetween(OneTable({1, 2}, 3), OneTable({1, 2, 3}, 4));
    FirstColumnReads();
    assert j.changes == [c] && j.highWater == Merge(NOTHING, c.highWater);
    OneTableColumns({1}, 2, {1, 2}, 3);
    ReservedTable({1}, 2, 3, HighWaterBetween(OneTable({1}, 2), OneTable({1, 2}, 3)));
    OneTableIs({1}, 3);
    ConsistentIsUpward();
    assert !Avoids(j.changes[0].mutations, ClaimedColumns(OneTable({1}, 3), h)) by {
      OneTableColumns({1, 2}, 3, {1, 2, 3}, 4);
      assert 5 in ClaimedColumns(OneTable({1}, 3), h);
      assert c.mutations[0] in c.mutations;
    }
    ReadableIff(OneTable({1}, 3), j, OneTable({1, 2}, 3), h, s => Consistent(s));
  }
}
