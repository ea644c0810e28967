/** A transaction's journal of catalog changes over the shared catalog, and the allocators that
    all transactions share. */
module CatalogOverlay {
  import opened Options
  import opened Snapshots
  import opened ChangeSets

  // ---------------------------------------------------------------- allocators

  datatype Kind = SchemaKind | TableKind | IndexKind | SequenceKind | DictionaryKind | StorageKind | ConstraintKind

  const U32_MAX: nat := 0xFFFF_FFFF

  /** The two high bits of a storage id tell kinds of files apart. */
  const MAX_STORAGE_ID: nat := 0x3FFF_FFFF

  /** The virtual object id of a constraint has 28 bits for the constraint's id. */
  const MAX_CONSTRAINT_ID: nat := 0x0FFF_FFFF

  /** Ids an allocator may pass: it has to be able to count on past them. */
  predicate CanReserve(k: Kind, id: nat) {
    if k == StorageKind then 1 <= id <= MAX_STORAGE_ID else id < U32_MAX
  }

  predicate CanAllocate(k: Kind, id: nat) {
    CanReserve(k, id) && (k == ConstraintKind ==> id <= MAX_CONSTRAINT_ID)
  }

  /** The last id of each kind: 30 bits of a storage id, of which zero is none, 28 of a constraint,
      and one below the greatest number for the rest. */
  lemma Limits(id: nat)
    ensures CanAllocate(StorageKind, id) <==> 1 <= id < 0x4000_0000
    ensures CanAllocate(ConstraintKind, id) <==> id < 0x1000_0000
    ensures forall k | k != StorageKind && k != ConstraintKind :: CanAllocate(k, id) <==> id < 0xFFFF_FFFF
  {
  }

  function At(n: Next, k: Kind): nat {
    match k
    case SchemaKind => n.schema
    case TableKind => n.table
    case IndexKind => n.index
    case SequenceKind => n.sequence
    case DictionaryKind => n.dictionary
    case StorageKind => n.storage
    case ConstraintKind => n.constraint
  }

  function With(n: Next, k: Kind, v: nat): (r: Next)
    ensures At(r, k) == v && forall o | o != k :: At(r, o) == At(n, o)
  {
    match k
    case SchemaKind => n.(schema := v)
    case TableKind => n.(table := v)
    case IndexKind => n.(index := v)
    case SequenceKind => n.(sequence := v)
    case DictionaryKind => n.(dictionary := v)
    case StorageKind => n.(storage := v)
    case ConstraintKind => n.(constraint := v)
  }

  lemma AtLeastAt(a: Next, b: Next)
    ensures AtLeast(a, b) <==> forall k :: At(a, k) >= At(b, k)
  {
    if forall k :: At(a, k) >= At(b, k) {
      assert At(a, SchemaKind) >= At(b, SchemaKind) && At(a, TableKind) >= At(b, TableKind);
      assert At(a, IndexKind) >= At(b, IndexKind) && At(a, SequenceKind) >= At(b, SequenceKind);
      assert At(a, DictionaryKind) >= At(b, DictionaryKind) && At(a, StorageKind) >= At(b, StorageKind);
      assert At(a, ConstraintKind) >= At(b, ConstraintKind);
    }
  }

  datatype Claim = Claimed(next: Next) | Stale | Rewind

  /** Compare and swap: a claim that allocates is refused unless the allocators are the expected
      ones; one that does not is always taken. */
  function ClaimAllocators(base: Next, expected: Next, desired: Next): Claim {
    if !AtLeast(desired, expected) then Rewind
    else if desired != expected && base != expected then Stale
    else Claimed(MaxNext(base, desired))
  }

  /** The counters of relations that are there, raised to what is reserved for them. */
  function RaiseCounters(live: map<nat, nat>, reserved: map<nat, nat>): map<nat, nat> {
    map n | n in live :: if n in reserved then Max(live[n], reserved[n]) else live[n]
  }

  /** The allocators of the live catalog: one for each kind of id, and a column counter for each
      relation. None goes back while its relation is there. */
  class LiveAllocators {
    var next: Next
    var columns: map<nat, nat>

    constructor (start: Next, counters: map<nat, nat>)
      ensures next == start && columns == counters
    {
      next, columns := start, counters;
    }

    method Allocate(k: Kind) returns (id: Option<nat>)
      modifies this`next
      ensures id == if CanAllocate(k, At(old(next), k)) then Some(At(old(next), k)) else None
      ensures next == if id.Some? then With(old(next), k, id.value + 1) else old(next)
      ensures AtLeast(next, old(next)) && (id.Some? ==> id.value < At(next, k))
    {
      if !CanAllocate(k, At(next, k)) {
        return None;
      }
      id := Some(At(next, k));
      next := With(next, k, id.value + 1);
    }

    method ReserveId(k: Kind, id: nat) returns (ok: bool)
      modifies this`next
      ensures ok <==> CanReserve(k, id)
      ensures next == if ok then With(old(next), k, Max(At(old(next), k), id + 1)) else old(next)
      ensures AtLeast(next, old(next)) && (ok ==> id < At(next, k))
    {
      ok := CanReserve(k, id);
      if ok {
        next := With(next, k, Max(At(next, k), id + 1));
      }
    }

    /** Column counters are raised with a claim that is taken; they are not compared. */
    method ClaimChange(expected: Next, desired: Next, h: HighWater) returns (c: Claim)
      modifies this
      ensures c == ClaimAllocators(old(next), expected, desired)
      ensures next == if c.Claimed? then MaxNext(c.next, h.next) else old(next)
      ensures columns == if c.Claimed? then RaiseCounters(old(columns), h.columns) else old(columns)
      ensures AtLeast(next, old(next)) && forall n | n in old(columns) :: n in columns && columns[n] >= old(columns)[n]
    {
      if !AtLeast(desired, expected) {
        return Rewind;
      }
      if desired != expected && next != expected {
        return Stale;
      }
      next := MaxNext(next, desired);
      c := Claimed(next);
      ReserveChange(h);
    }

    method ReserveChange(h: HighWater)
      modifies this
      ensures next == MaxNext(old(next), h.next) && columns == RaiseCounters(old(columns), h.columns)
    {
      next := MaxNext(next, h.next);
      ghost var live := columns;
      var todo := h.columns.Keys;
      while todo != {}
        invariant todo <= h.columns.Keys && columns.Keys == live.Keys && next == MaxNext(old(next), h.next)
        invariant forall n | n in live :: columns[n] == if n in todo then live[n] else RaiseCounters(live, h.columns)[n]
      {
        var n :| n in todo;
        if n in columns {
          columns := columns[n := Max(columns[n], h.columns[n])];
        }
        todo := todo - {n};
      }
    }

    /** The restored catalog replaces the live one; what both have keeps the greater counter. */
    method Restore(other: Next, counters: map<nat, nat>)
      modifies this
      ensures next == MaxNext(old(next), other) && AtLeast(next, old(next)) && AtLeast(next, other)
      ensures columns == RaiseCounters(counters, old(columns))
    {
      next := MaxNext(next, other);
      columns := RaiseCounters(counters, columns);
    }
  }

  // ---------------------------------------------------------------- journals

  function MergeColumns(a: map<nat, nat>, b: map<nat, nat>): map<nat, nat> {
    map n | n in a.Keys + b.Keys :: if n in a && n in b then Max(a[n], b[n]) else if n in a then a[n] else b[n]
  }

  function Merge(a: HighWater, b: HighWater): HighWater {
    HighWater(MaxNext(a.next, b.next), MergeColumns(a.columns, b.columns))
  }

  const NOTHING := HighWater(Next(0, 0, 0, 0, 0, 0, 0), map[])

  datatype Journal = Journal(changes: seq<ChangeSet>, highWater: HighWater)

  datatype Savepoint = Savepoint(len: nat, highWater: HighWater)

  /** Rolling back drops changes but never reservations. */
  function RolledBack(j: Journal, p: Savepoint): Option<Journal> {
    if p.len > |j.changes| then None
    else Some(Journal(j.changes[..p.len], Merge(j.highWater, p.highWater)))
  }

  class Overlay {
    var changes: seq<ChangeSet>
    var highWater: HighWater

    function Contents(): Journal
      reads this
    {
      Journal(changes, highWater)
    }

    constructor ()
      ensures Contents() == Journal([], NOTHING)
    {
      changes, highWater := [], NOTHING;
    }

    method Record(cs: ChangeSet)
      modifies this
      ensures Contents() == Journal(old(changes) + [cs], Merge(old(highWater), cs.highWater))
    {
      MergeInto(cs.highWater);
      changes := changes + [cs];
    }

    method MergeInto(source: HighWater)
      modifies this`highWater
      ensures highWater == Merge(old(highWater), source)
    {
      var columns, todo := highWater.columns, source.columns.Keys;
      ghost var target := MergeColumns(highWater.columns, source.columns);
      while todo != {}
        invariant todo <= source.columns.Keys && columns.Keys == highWater.columns.Keys + (source.columns.Keys - todo)
        invariant forall n | n in columns && n !in todo :: columns[n] == target[n]
        invariant forall n | n in todo && n in columns :: n in highWater.columns && columns[n] == highWater.columns[n]
        invariant unchanged(`highWater)
      {
        var n :| n in todo;
        columns := columns[n := if n in columns then Max(columns[n], source.columns[n]) else source.columns[n]];
        todo := todo - {n};
      }
      assert columns == target;
      highWater := HighWater(MaxNext(highWater.next, source.next), columns);
    }

    method TakeSavepoint() returns (p: Savepoint)
      ensures p == Savepoint(|changes|, highWater)
      ensures RolledBack(Contents(), p).Some?
    {
      p := Savepoint(|changes|, highWater);
    }

    method RollbackTo(p: Savepoint) returns (ok: bool)
      modifies this
      ensures ok <==> RolledBack(old(Contents()), p).Some?
      ensures Contents() == if ok then RolledBack(old(Contents()), p).value else old(Contents())
    {
      if p.len > |changes| {
        return false;
      }
      changes := changes[..p.len];
      MergeInto(p.highWater);
      return true;
    }
  }

  // ---------------------------------------------------------------- materializing

  ghost function Replay(base: Snapshot, changes: seq<ChangeSet>, n: nat, valid: Snapshot -> bool): Result<Snapshot>
    requires n <= |changes|
  {
    if n == 0 then Ok(base)
    else
      var r := Replay(base, changes, n - 1, valid);
      if r.Fail? then r else Applied(r.value, changes[n - 1], valid)
  }

  /** What a transaction sees: the live catalog with its changes on top. */
  ghost function Materialized(base: Snapshot, j: Journal, valid: Snapshot -> bool): Result<Snapshot> {
    var r := Replay(base, j.changes, |j.changes|, valid);
    if r.Fail? then r else Ok(Reserve(r.value, j.highWater))
  }

  function ChangesNext(base: Next, changes: seq<ChangeSet>, n: nat): Next
    requires n <= |changes|
  {
    if n == 0 then base else MaxNext(ChangesNext(base, changes, n - 1), changes[n - 1].highWater.next)
  }

  function MaterializedNext(base: Next, j: Journal): Next {
    MaxNext(ChangesNext(base, j.changes, |j.changes|), j.highWater.next)
  }

  lemma {:induction false} ReplayNext(base: Snapshot, changes: seq<ChangeSet>, n: nat, valid: Snapshot -> bool)
    requires n <= |changes|
    ensures var r := Replay(base, changes, n, valid); r.Ok? ==> r.value.next == ChangesNext(base.next, changes, n)
  {
    hide ShapeOk, ApplyFrom, UniqueNames, NameIndex, ColumnsNext, RaiseColumns;
    if n > 0 {
      ReplayNext(base, changes, n - 1, valid);
    }
  }

  /** The allocators a transaction sees are the greatest of the live ones and its reservations. */
  lemma MaterializedAllocators(base: Snapshot, j: Journal, valid: Snapshot -> bool)
    ensures var r := Materialized(base, j, valid); r.Ok? ==> r.value.next == MaterializedNext(base.next, j)
  {
    hide Replay, ChangesNext;
    ReplayNext(base, j.changes, |j.changes|, valid);
  }
}
