/** Every step of the pool keeps what the pool knows about guards, pins and steals (who
    holds a page), about the checkpoint batch, and about page numbers. */
module PoolKept {
  import opened Redo
  import opened Frames
  import A = Allocator
  import P = Page
  import opened Pool
  import opened PoolPages

  lemma HoldersAdd(guards: map<nat, Guard>, g: nat, h: Guard)
    requires g !in guards
    ensures forall k :: Holders(guards[g := h], k) == if k == h.key then Holders(guards, k) + {g} else Holders(guards, k)
    ensures forall k :: |Holders(guards[g := h], k)| == |Holders(guards, k)| + if k == h.key then 1 else 0
  {
    forall k
      ensures Holders(guards[g := h], k) == if k == h.key then Holders(guards, k) + {g} else Holders(guards, k)
    {
    }
  }

  lemma HoldersDrop(guards: map<nat, Guard>, g: nat)
    requires g in guards
    ensures forall k :: Holders(guards - {g}, k) == Holders(guards, k) - {g}
    ensures forall k :: |Holders(guards - {g}, k)| == |Holders(guards, k)| - if k == guards[g].key then 1 else 0
    ensures g in Holders(guards, guards[g].key)
  {
    forall k ensures |Holders(guards - {g}, k)| == |Holders(guards, k)| - if k == guards[g].key then 1 else 0 {
      if k == guards[g].key {
        assert Holders(guards, k) == Holders(guards - {g}, k) + {g};
      } else {
        assert Holders(guards, k) == Holders(guards - {g}, k);
      }
    }
  }

  lemma HoldersMode(guards: map<nat, Guard>, g: nat, mode: Mode)
    requires g in guards
    ensures forall k :: Holders(guards[g := guards[g].(mode := mode)], k) == Holders(guards, k)
  {
    forall k ensures Holders(guards[g := guards[g].(mode := mode)], k) == Holders(guards, k) {
    }
  }

  lemma HoldersEmpty(guards: map<nat, Guard>, k: PageKey)
    ensures Holders(guards, k) == {} <==> forall g | g in guards :: guards[g].key != k
    ensures |Holders(guards, k)| == 0 <==> Holders(guards, k) == {}
  {
    assert forall g :: g in Holders(guards, k) <==> g in guards && guards[g].key == k;
  }

  /** One pin, one guard. */
  lemma HoldersOne(guards: map<nat, Guard>, g: nat, k: PageKey)
    requires g in guards && guards[g].key == k && |Holders(guards, k)| <= 1
    ensures forall h | h in guards && guards[h].key == k :: h == g
  {
    forall h | h in guards && guards[h].key == k ensures h == g {
      assert {g, h} <= Holders(guards, k);
      SubsetSize({g, h}, Holders(guards, k));
    }
  }

  lemma SubsetSize<T>(a: set<T>, b: set<T>)
    requires a <= b
    ensures |a| <= |b|
  {
    assert b == a + (b - a);
  }

  lemma AbsentHasNoHolder(s: State, k: PageKey)
    requires GuardsOk(s) && k !in s.frames
    ensures Holders(s.guards, k) == {}
  {
    HoldersEmpty(s.guards, k);
  }

  lemma StolenIsFree(s: State, k: PageKey)
    requires GuardsOk(s) && StealsOk(s) && k in s.steals
    ensures k !in s.writers
  {
    HoldersEmpty(s.guards, k);
  }

  lemma UnpinnedHasNoWriter(s: State, k: PageKey)
    requires GuardsOk(s) && PinsOk(s) && k in s.frames && s.frames[k].pins == 0
    ensures k !in s.writers
  {
    HoldersEmpty(s.guards, k);
  }

  lemma SameSize<K, V>(a: map<K, V>, b: map<K, V>)
    requires a.Keys == b.Keys
    ensures |a| == |b|
  {
    assert |a| == |a.Keys| && |b| == |b.Keys|;
  }

  /** However often a candidate repeats, it is reserved at most once. */
  lemma {:induction false} ElementsBound<T>(xs: seq<T>, a: set<T>)
    requires forall x | x in a :: x in xs
    ensures |a| <= |xs|
  {
    if xs != [] {
      var n := |xs| - 1;
      ElementsBound(xs[..n], a - {xs[n]});
      SubsetSize(a, (a - {xs[n]}) + {xs[n]});
    } else {
      assert a == {};
    }
  }

  lemma ReservedAccounted(s: State, t: State, candidates: seq<PageKey>)
    requires IsReserveBatch(s, t, candidates)
    ensures t.batch.tickets.Keys == Reservable(s, candidates)
    ensures t.batch.stats.attempted == t.batch.stats.skipped + |t.batch.tickets|
    ensures forall k | k in t.batch.tickets :: k in s.frames && !s.frames[k].evicting && !s.frames[k].flushing && k.file in t.batch.files
  {
    var r := Reservable(s, candidates);
    ElementsBound(candidates, r);
    assert t.batch.tickets.Keys == r;
    assert |t.batch.tickets| == |t.batch.tickets.Keys|;
  }

  /** Exactly the ticketed frames took the checkpoint's flag. */
  ghost predicate FlagsTickets(s: State, t: State) {
    && s.batch.phase.Idle? && t.batch.phase.Capturing? && t.batch.captured == map[]
    && t.frames.Keys == s.frames.Keys && t.nextId == s.nextId
    && (forall k | k in s.frames ::
          && t.frames[k].id == s.frames[k].id
          && (t.frames[k].flushing <==> s.frames[k].flushing || k in t.batch.tickets)
          && (k in t.batch.tickets ==> t.batch.tickets[k] == s.frames[k].id))
    && (forall k | k in t.batch.tickets :: k in s.frames && k.file in t.batch.files)
  }

  lemma ReservedFrames(s: State, t: State, candidates: seq<PageKey>)
    requires IsReserveBatch(s, t, candidates)
    ensures FlagsTickets(s, t)
  {
    ReservedAccounted(s, t, candidates);
  }

  lemma ReservedBatch(s: State, t: State)
    requires BatchOk(s) && NumbersOk(s) && FlagsTickets(s, t)
    ensures BatchOk(t)
  {
    assert forall k | k in s.frames :: !s.frames[k].flushing;
  }

  ghost predicate SameGuards(s: State, t: State) {
    && t.guards == s.guards && t.writers == s.writers && t.fence == s.fence && t.frames.Keys == s.frames.Keys
  }

  lemma SameGuardsKeep(s: State, t: State)
    requires GuardsOk(s) && SameGuards(s, t)
    ensures GuardsOk(t)
  {
  }

  /** No frame came, went or changed hands; the checkpoint reserved none that is stolen. */
  ghost predicate SamePins(s: State, t: State) {
    && t.guards == s.guards && t.steals.Keys == s.steals.Keys && t.frames.Keys == s.frames.Keys
    && (forall k | k in s.frames :: t.frames[k].pins == s.frames[k].pins && t.frames[k].evicting == s.frames[k].evicting)
    && (forall k | k in s.frames && t.frames[k].flushing :: s.frames[k].flushing || !s.frames[k].evicting)
  }

  lemma SamePinsKeep(s: State, t: State)
    requires PinsOk(s) && StealsOk(s) && SamePins(s, t)
    ensures PinsOk(t) && StealsOk(t)
  {
  }

  ghost predicate SameBatch(s: State, t: State) {
    && t.batch == s.batch && s.nextId <= t.nextId
    && t.frames.Keys == s.frames.Keys
    && (forall k | k in s.frames :: t.frames[k].id == s.frames[k].id && t.frames[k].flushing == s.frames[k].flushing)
  }

  lemma SameBatchKeep(s: State, t: State)
    requires BatchOk(s) && StatsOk(s) && SameBatch(s, t)
    ensures BatchOk(t) && StatsOk(t)
  {
  }

  ghost predicate SameNumbers(s: State, t: State) {
    && t.alloc == s.alloc && t.nextId == s.nextId && t.capacity == s.capacity
    && t.homes.Keys == s.homes.Keys && (forall k | k in s.homes :: P.Latest(t.homes[k]) == P.Latest(s.homes[k]))
    && t.frames.Keys == s.frames.Keys
    && (forall k | k in s.frames :: t.frames[k].id == s.frames[k].id)
    && (forall k | k in t.writers && t.writers[k].isNew && !t.writers[k].published ::
          k in s.writers && s.writers[k].isNew && !s.writers[k].published)
    && (forall k | k in s.frames && s.frames[k].data == Zeroed && !s.frames[k].dirty && k in t.writers && !t.writers[k].published ::
          t.frames[k].data == Zeroed && !t.frames[k].dirty)
  }

  lemma SameNumbersKeep(s: State, t: State)
    requires FreshOk(s) && NumbersOk(s) && SameNumbers(s, t)
    ensures FreshOk(t) && NumbersOk(t)
  {
    assert |t.frames.Keys| == |t.frames| && |s.frames.Keys| == |s.frames|;
  }

  lemma OtherRecordKeeps(s: State, t: State, end: Lsn)
    requires PoolInv(s) && IsOtherRecord(s, t, end)
    ensures PoolInv(t)
  {
    hide GuardsOk, PinsOk, StealsOk, BatchOk, StatsOk, FreshOk, NumbersOk;
    SameGuardsKeep(s, t);
    SamePinsKeep(s, t);
    SameBatchKeep(s, t);
    SameNumbersKeep(s, t);
  }

  lemma ForceLogKeeps(s: State, t: State, upto: Lsn)
    requires PoolInv(s) && IsForceLog(s, t, upto)
    ensures PoolInv(t)
  {
    hide GuardsOk, PinsOk, StealsOk, BatchOk, StatsOk, FreshOk, NumbersOk;
    SameGuardsKeep(s, t);
    SamePinsKeep(s, t);
    SameBatchKeep(s, t);
    SameNumbersKeep(s, t);
  }

  lemma PinGuards(s: State, t: State, g: nat, k: PageKey, exclusive: bool)
    requires GuardsOk(s) && IsPin(s, t, g, k, exclusive)
    ensures GuardsOk(t)
  {
  }

  lemma PinPins(s: State, t: State, g: nat, k: PageKey, exclusive: bool)
    requires PinsOk(s) && StealsOk(s) && IsPin(s, t, g, k, exclusive)
    ensures PinsOk(t)
  {
    HoldersAdd(s.guards, g, Guard(k, Waiting(exclusive)));
    hide Holders;
  }

  lemma PinSteals(s: State, t: State, g: nat, k: PageKey, exclusive: bool)
    requires PinsOk(s) && StealsOk(s) && IsPin(s, t, g, k, exclusive)
    ensures StealsOk(t)
  {
    HoldersAdd(s.guards, g, Guard(k, Waiting(exclusive)));
    hide Holders;
  }

  lemma PinKeeps(s: State, t: State, g: nat, k: PageKey, exclusive: bool)
    requires PoolInv(s) && IsPin(s, t, g, k, exclusive)
    ensures PoolInv(t)
  {
    hide GuardsOk, PinsOk, StealsOk, BatchOk, StatsOk, FreshOk, NumbersOk;
    PinGuards(s, t, g, k, exclusive);
    PinPins(s, t, g, k, exclusive);
    PinSteals(s, t, g, k, exclusive);
    SameBatchKeep(s, t);
    SameNumbersKeep(s, t);
  }

  lemma MissGuards(s: State, t: State, g: nat, k: PageKey, exclusive: bool)
    requires GuardsOk(s) && IsMiss(s, t, g, k, exclusive)
    ensures GuardsOk(t)
  {
  }

  lemma MissPins(s: State, t: State, g: nat, k: PageKey, exclusive: bool)
    requires PinsOk(s) && StealsOk(s) && IsMiss(s, t, g, k, exclusive)
    requires GuardsOk(s)
    ensures PinsOk(t)
  {
    hide GuardsOk, A.AtLeast;
    HoldersAdd(s.guards, g, Guard(k, Waiting(exclusive)));
    AbsentHasNoHolder(s, k);
    hide Holders;
  }

  lemma MissSteals(s: State, t: State, g: nat, k: PageKey, exclusive: bool)
    requires PinsOk(s) && StealsOk(s) && IsMiss(s, t, g, k, exclusive)
    requires GuardsOk(s)
    ensures StealsOk(t)
  {
    hide GuardsOk, A.AtLeast;
    HoldersAdd(s.guards, g, Guard(k, Waiting(exclusive)));
    AbsentHasNoHolder(s, k);
    hide Holders;
  }

  lemma MissBatch(s: State, t: State, g: nat, k: PageKey, exclusive: bool)
    requires BatchOk(s) && StatsOk(s) && IsMiss(s, t, g, k, exclusive)
    ensures BatchOk(t) && StatsOk(t)
  {
  }

  lemma MissNumbers(s: State, t: State, g: nat, k: PageKey, exclusive: bool)
    requires FreshOk(s) && NumbersOk(s) && IsMiss(s, t, g, k, exclusive)
    ensures FreshOk(t) && NumbersOk(t)
  {
    hide FreshOk, A.AllocInv, A.InUse, A.AtLeast, A.IsAbandoned;
    MissFresh(s, t, g, k, exclusive);
    MissInUse(s, k);
    MissFrames(s, t, g, k, exclusive);
    hide IsMiss;
  }

  lemma MissFrames(s: State, t: State, g: nat, k: PageKey, exclusive: bool)
    requires IsMiss(s, t, g, k, exclusive)
    ensures t.alloc == A.AtLeast(s.alloc, k.file, k.num + 1) && t.homes == s.homes && t.capacity == s.capacity
    ensures t.nextId == s.nextId + 1 && |t.frames| == |s.frames| + 1 <= t.capacity
    ensures forall q :: q in t.frames <==> q in s.frames || q == k
    ensures k in t.frames && t.frames[k].id == s.nextId && forall q | q in s.frames :: t.frames[q] == s.frames[q]
  {
    hide A.AtLeast;
  }

  lemma MissInUse(s: State, k: PageKey)
    requires NumbersOk(s) && k in s.homes
    ensures var a := A.AtLeast(s.alloc, k.file, k.num + 1);
            && A.AllocInv(a) && a.seeded == s.alloc.seeded && A.InUse(a, k.file, k.num)
            && forall f: nat, n: nat | A.InUse(s.alloc, f, n) :: A.InUse(a, f, n)
  {
    assert !A.IsAbandoned(s.alloc, k.file, k.num);
    A.AtLeastKeeps(s.alloc, k.file, k.num + 1);
  }

  lemma MissFresh(s: State, t: State, g: nat, k: PageKey, exclusive: bool)
    requires FreshOk(s) && IsMiss(s, t, g, k, exclusive)
    ensures FreshOk(t)
  {
  }

  lemma MissKeeps(s: State, t: State, g: nat, k: PageKey, exclusive: bool)
    requires PoolInv(s) && IsMiss(s, t, g, k, exclusive)
    ensures PoolInv(t)
  {
    hide GuardsOk, PinsOk, StealsOk, BatchOk, StatsOk, FreshOk, NumbersOk, IsMiss;
    MissGuards(s, t, g, k, exclusive);
    MissPins(s, t, g, k, exclusive);
    MissSteals(s, t, g, k, exclusive);
    MissBatch(s, t, g, k, exclusive);
    MissNumbers(s, t, g, k, exclusive);
  }

  lemma LatchSharedGuards(s: State, t: State, g: nat)
    requires GuardsOk(s) && IsLatchShared(s, t, g)
    ensures GuardsOk(t)
  {
  }

  lemma LatchSharedPins(s: State, t: State, g: nat)
    requires PinsOk(s) && StealsOk(s) && IsLatchShared(s, t, g)
    ensures PinsOk(t) && StealsOk(t)
  {
    HoldersMode(s.guards, g, Reading);
  }

  lemma LatchSharedKeeps(s: State, t: State, g: nat)
    requires PoolInv(s) && IsLatchShared(s, t, g)
    ensures PoolInv(t)
  {
    hide GuardsOk, PinsOk, StealsOk, BatchOk, StatsOk, FreshOk, NumbersOk;
    LatchSharedGuards(s, t, g);
    LatchSharedPins(s, t, g);
    SameBatchKeep(s, t);
    SameNumbersKeep(s, t);
  }

  lemma LatchExclusiveGuards(s: State, t: State, g: nat)
    requires GuardsOk(s) && IsLatchExclusive(s, t, g)
    ensures GuardsOk(t)
  {
  }

  lemma LatchExclusivePins(s: State, t: State, g: nat)
    requires PinsOk(s) && StealsOk(s) && IsLatchExclusive(s, t, g)
    ensures PinsOk(t) && StealsOk(t)
  {
    HoldersMode(s.guards, g, Writing);
  }

  lemma LatchExclusiveNumbers(s: State, t: State, g: nat)
    requires FreshOk(s) && NumbersOk(s) && IsLatchExclusive(s, t, g)
    ensures FreshOk(t) && NumbersOk(t)
  {
  }

  lemma LatchExclusiveKeeps(s: State, t: State, g: nat)
    requires PoolInv(s) && IsLatchExclusive(s, t, g)
    ensures PoolInv(t)
  {
    hide GuardsOk, PinsOk, StealsOk, BatchOk, StatsOk, FreshOk, NumbersOk;
    LatchExclusiveGuards(s, t, g);
    LatchExclusivePins(s, t, g);
    SameBatchKeep(s, t);
    LatchExclusiveNumbers(s, t, g);
  }

  lemma JoinFenceGuards(s: State, t: State, g: nat)
    requires GuardsOk(s) && IsJoinFence(s, t, g)
    ensures GuardsOk(t)
  {
  }

  lemma JoinFenceKeeps(s: State, t: State, g: nat)
    requires PoolInv(s) && IsJoinFence(s, t, g)
    ensures PoolInv(t)
  {
    hide GuardsOk, PinsOk, StealsOk, BatchOk, StatsOk, FreshOk, NumbersOk;
    JoinFenceGuards(s, t, g);
    SamePinsKeep(s, t);
    SameBatchKeep(s, t);
    SameNumbersKeep(s, t);
  }

  lemma AppendGuards(s: State, t: State, g: nat, kind: Kind, end: Lsn, take: bool)
    requires GuardsOk(s) && IsAppend(s, t, g, kind, end, take)
    ensures GuardsOk(t)
  {
  }

  lemma AppendQuiet(s: State, t: State, g: nat, kind: Kind, end: Lsn, take: bool)
    requires IsAppend(s, t, g, kind, end, take)
    ensures SamePins(s, t) && SameBatch(s, t)
  {
    AppendFrames(s, t, g, kind, end, take);
    hide IsAppend;
  }

  lemma AppendFrames(s: State, t: State, g: nat, kind: Kind, end: Lsn, take: bool)
    requires IsAppend(s, t, g, kind, end, take)
    ensures t.guards == s.guards && t.steals == s.steals && t.batch == s.batch && t.nextId == s.nextId
    ensures t.frames.Keys == s.frames.Keys
    ensures forall q | q in s.frames :: t.frames[q] == s.frames[q].(needsFpi := t.frames[q].needsFpi)
  {
  }

  lemma AppendQuietNumbers(s: State, t: State, g: nat, kind: Kind, end: Lsn, take: bool)
    requires IsAppend(s, t, g, kind, end, take)
    ensures SameNumbers(s, t)
  {
  }

  lemma AppendKeeps(s: State, t: State, g: nat, kind: Kind, end: Lsn, take: bool)
    requires PoolInv(s) && IsAppend(s, t, g, kind, end, take)
    ensures PoolInv(t)
  {
    hide GuardsOk, PinsOk, StealsOk, BatchOk, StatsOk, FreshOk, NumbersOk, SameGuards, SamePins, SameBatch, SameNumbers, IsAppend;
    AppendQuiet(s, t, g, kind, end, take);
    AppendQuietNumbers(s, t, g, kind, end, take);
    AppendGuards(s, t, g, kind, end, take);
    SamePinsKeep(s, t);
    SameBatchKeep(s, t);
    SameNumbersKeep(s, t);
  }

  lemma PublishGuards(s: State, t: State, g: nat)
    requires GuardsOk(s) && IsPublish(s, t, g)
    ensures GuardsOk(t)
  {
  }

  lemma PublishKeeps(s: State, t: State, g: nat)
    requires PoolInv(s) && IsPublish(s, t, g)
    ensures PoolInv(t)
  {
    hide GuardsOk, PinsOk, StealsOk, BatchOk, StatsOk, FreshOk, NumbersOk;
    PublishGuards(s, t, g);
    SamePinsKeep(s, t);
    SameBatchKeep(s, t);
    SameNumbersKeep(s, t);
  }

  lemma DropGuards(s: State, t: State, g: nat)
    requires GuardsOk(s) && IsDrop(s, t, g)
    ensures GuardsOk(t)
  {
  }

  lemma DropPins(s: State, t: State, g: nat)
    requires PinsOk(s) && StealsOk(s) && IsDrop(s, t, g)
    ensures PinsOk(t)
  {
    HoldersDrop(s.guards, g);
    hide Holders;
  }

  lemma DropSteals(s: State, t: State, g: nat)
    requires PinsOk(s) && StealsOk(s) && IsDrop(s, t, g)
    ensures StealsOk(t)
  {
    HoldersDrop(s.guards, g);
    hide Holders;
  }

  lemma DropKeeps(s: State, t: State, g: nat)
    requires PoolInv(s) && IsDrop(s, t, g)
    ensures PoolInv(t)
  {
    hide GuardsOk, PinsOk, StealsOk, BatchOk, StatsOk, FreshOk, NumbersOk;
    DropGuards(s, t, g);
    DropPins(s, t, g);
    DropSteals(s, t, g);
    SameBatchKeep(s, t);
    SameNumbersKeep(s, t);
  }

  lemma SeedExtentNumbers(s: State, t: State, file: nat, extent: nat)
    requires FreshOk(s) && NumbersOk(s) && IsSeedExtent(s, t, file, extent)
    ensures FreshOk(t) && NumbersOk(t)
  {
    A.SeedKeeps(s.alloc, file, extent);
  }

  lemma SeedExtentKeeps(s: State, t: State, file: nat, extent: nat)
    requires PoolInv(s) && IsSeedExtent(s, t, file, extent)
    ensures PoolInv(t)
  {
    hide GuardsOk, PinsOk, StealsOk, BatchOk, StatsOk, FreshOk, NumbersOk;
    SameGuardsKeep(s, t);
    SamePinsKeep(s, t);
    SameBatchKeep(s, t);
    SeedExtentNumbers(s, t, file, extent);
  }

  lemma NewPageGuards(s: State, t: State, g: nat, k: PageKey)
    requires GuardsOk(s) && IsNewPage(s, t, g, k)
    ensures GuardsOk(t)
  {
  }

  lemma NewPagePins(s: State, t: State, g: nat, k: PageKey)
    requires PinsOk(s) && StealsOk(s) && IsNewPage(s, t, g, k)
    requires GuardsOk(s)
    ensures PinsOk(t)
  {
    hide GuardsOk, A.MarkAllocated, A.Picks;
    HoldersAdd(s.guards, g, Guard(k, Writing));
    AbsentHasNoHolder(s, k);
    hide Holders;
  }

  lemma NewPageSteals(s: State, t: State, g: nat, k: PageKey)
    requires PinsOk(s) && StealsOk(s) && IsNewPage(s, t, g, k)
    requires GuardsOk(s)
    ensures StealsOk(t)
  {
    hide GuardsOk, A.MarkAllocated, A.Picks;
    HoldersAdd(s.guards, g, Guard(k, Writing));
    AbsentHasNoHolder(s, k);
    hide Holders;
  }

  lemma NewPageBatch(s: State, t: State, g: nat, k: PageKey)
    requires BatchOk(s) && StatsOk(s) && IsNewPage(s, t, g, k)
    ensures BatchOk(t) && StatsOk(t)
  {
  }

  lemma NewPageNumbers(s: State, t: State, g: nat, k: PageKey)
    requires FreshOk(s) && NumbersOk(s) && IsNewPage(s, t, g, k)
    ensures FreshOk(t) && NumbersOk(t)
  {
    A.AllocateKeeps(s.alloc, k.file, k.num);
  }

  lemma NewPageKeeps(s: State, t: State, g: nat, k: PageKey)
    requires PoolInv(s) && IsNewPage(s, t, g, k)
    ensures PoolInv(t)
  {
    hide GuardsOk, PinsOk, StealsOk, BatchOk, StatsOk, FreshOk, NumbersOk, IsNewPage;
    NewPageGuards(s, t, g, k);
    NewPagePins(s, t, g, k);
    NewPageSteals(s, t, g, k);
    NewPageBatch(s, t, g, k);
    NewPageNumbers(s, t, g, k);
  }

  lemma AbandonGuards(s: State, t: State, g: nat)
    requires GuardsOk(s) && IsAbandon(s, t, g)
    requires PinsOk(s)
    ensures GuardsOk(t)
  {
    hide A.Abandon, PinsOk, IsAbandon, Holders;
    AbandonKeepsOthers(s, t, g);
  }

  lemma AbandonKeepsOthers(s: State, t: State, g: nat)
    requires GuardsOk(s) && IsAbandon(s, t, g) && PinsOk(s)
    ensures var k := s.guards[g].key;
            && t.guards == s.guards - {g} && t.writers == s.writers - {k} && t.frames.Keys == s.frames.Keys - {k}
            && t.fence == s.fence && forall h | h in t.guards :: t.guards[h].key != k
  {
    hide A.Abandon;
    HoldersOne(s.guards, g, GuardKey(s, g));
  }

  lemma AbandonPins(s: State, t: State, g: nat)
    requires PinsOk(s) && StealsOk(s) && IsAbandon(s, t, g)
    ensures PinsOk(t)
  {
    hide A.Abandon;
    HoldersDrop(s.guards, g);
    hide Holders;
  }

  lemma AbandonSteals(s: State, t: State, g: nat)
    requires PinsOk(s) && StealsOk(s) && IsAbandon(s, t, g)
    ensures StealsOk(t)
  {
    hide A.Abandon;
    HoldersDrop(s.guards, g);
    hide Holders;
  }

  lemma AbandonBatch(s: State, t: State, g: nat)
    requires BatchOk(s) && StatsOk(s) && IsAbandon(s, t, g)
    requires P.CaptureOk(View(s, GuardKey(s, g)), GuardKey(s, g)) && FreshOk(s)
    ensures BatchOk(t) && StatsOk(t)
  {
  }

  lemma AbandonNumbers(s: State, t: State, g: nat)
    requires FreshOk(s) && NumbersOk(s) && IsAbandon(s, t, g)
    ensures FreshOk(t) && NumbersOk(t)
  {
    hide A.Abandon, A.AllocInv, A.InUse;
    var k := s.guards[g].key;
    A.AbandonKeeps(s.alloc, k.file, k.num);
    assert FreshOk(t) by { AbandonFresh(s, t, g); }
  }

  lemma AbandonFresh(s: State, t: State, g: nat)
    requires FreshOk(s) && IsAbandon(s, t, g) && t.alloc.seeded == s.alloc.seeded
    ensures FreshOk(t)
  {
    hide A.Abandon;
  }

  lemma AbandonKeeps(s: State, t: State, g: nat)
    requires PoolInv(s) && IsAbandon(s, t, g)
    requires P.PageInv(View(s, GuardKey(s, g)), GuardKey(s, g))
    ensures PoolInv(t)
  {
    hide GuardsOk, PinsOk, StealsOk, BatchOk, StatsOk, FreshOk, NumbersOk, IsAbandon;
    AbandonGuards(s, t, g);
    AbandonPins(s, t, g);
    AbandonSteals(s, t, g);
    AbandonBatch(s, t, g);
    AbandonNumbers(s, t, g);
  }

  lemma SweepPastKeeps(s: State, t: State, k: PageKey)
    requires PoolInv(s) && IsSweepPast(s, t, k)
    ensures PoolInv(t)
  {
    hide GuardsOk, PinsOk, StealsOk, BatchOk, StatsOk, FreshOk, NumbersOk;
    SameGuardsKeep(s, t);
    SamePinsKeep(s, t);
    SameBatchKeep(s, t);
    SameNumbersKeep(s, t);
  }

  lemma EvictCleanGuards(s: State, t: State, k: PageKey)
    requires GuardsOk(s) && IsEvictClean(s, t, k)
    requires PinsOk(s)
    ensures GuardsOk(t)
  {
    HoldersEmpty(s.guards, k);
  }

  lemma EvictCleanPins(s: State, t: State, k: PageKey)
    requires PinsOk(s) && StealsOk(s) && IsEvictClean(s, t, k)
    ensures PinsOk(t) && StealsOk(t)
  {
    HoldersEmpty(s.guards, k);
  }

  lemma EvictCleanBatch(s: State, t: State, k: PageKey)
    requires BatchOk(s) && StatsOk(s) && IsEvictClean(s, t, k)
    ensures BatchOk(t) && StatsOk(t)
  {
  }

  lemma EvictCleanNumbers(s: State, t: State, k: PageKey)
    requires FreshOk(s) && NumbersOk(s) && IsEvictClean(s, t, k)
    requires GuardsOk(s) && PinsOk(s)
    ensures FreshOk(t) && NumbersOk(t)
  {
    hide A.AllocInv, A.InUse, GuardsOk, PinsOk;
    UnpinnedHasNoWriter(s, k);
  }

  lemma EvictCleanKeeps(s: State, t: State, k: PageKey)
    requires PoolInv(s) && IsEvictClean(s, t, k)
    ensures PoolInv(t)
  {
    hide GuardsOk, PinsOk, StealsOk, BatchOk, StatsOk, FreshOk, NumbersOk, IsEvictClean;
    EvictCleanGuards(s, t, k);
    EvictCleanPins(s, t, k);
    EvictCleanBatch(s, t, k);
    EvictCleanNumbers(s, t, k);
  }

  lemma StealReservePins(s: State, t: State, k: PageKey)
    requires PinsOk(s) && StealsOk(s) && IsStealReserve(s, t, k)
    ensures PinsOk(t) && StealsOk(t)
  {
  }

  lemma StealReserveKeeps(s: State, t: State, k: PageKey)
    requires PoolInv(s) && IsStealReserve(s, t, k)
    ensures PoolInv(t)
  {
    hide GuardsOk, PinsOk, StealsOk, BatchOk, StatsOk, FreshOk, NumbersOk;
    SameGuardsKeep(s, t);
    StealReservePins(s, t, k);
    SameBatchKeep(s, t);
    SameNumbersKeep(s, t);
  }

  lemma StealForceKeeps(s: State, t: State, k: PageKey)
    requires PoolInv(s) && IsStealForce(s, t, k)
    ensures PoolInv(t)
  {
    hide GuardsOk, PinsOk, StealsOk, BatchOk, StatsOk, FreshOk, NumbersOk;
    SameGuardsKeep(s, t);
    SamePinsKeep(s, t);
    SameBatchKeep(s, t);
    SameNumbersKeep(s, t);
  }

  lemma StealWriteNumbers(s: State, t: State, k: PageKey)
    requires FreshOk(s) && NumbersOk(s) && IsStealWrite(s, t, k)
    requires P.StealOk(View(s, k), k) && P.DirtyOk(View(s, k), k)
    ensures FreshOk(t) && NumbersOk(t)
  {
  }

  lemma StealWriteKeeps(s: State, t: State, k: PageKey)
    requires PoolInv(s) && IsStealWrite(s, t, k)
    requires P.PageInv(View(s, k), k)
    ensures PoolInv(t)
  {
    hide GuardsOk, PinsOk, StealsOk, BatchOk, StatsOk, FreshOk, NumbersOk;
    SameGuardsKeep(s, t);
    SamePinsKeep(s, t);
    SameBatchKeep(s, t);
    StealWriteNumbers(s, t, k);
  }

  lemma StealSyncKeeps(s: State, t: State, k: PageKey)
    requires PoolInv(s) && IsStealSync(s, t, k)
    ensures PoolInv(t)
  {
    hide GuardsOk, PinsOk, StealsOk, BatchOk, StatsOk, FreshOk, NumbersOk;
    SameGuardsKeep(s, t);
    SamePinsKeep(s, t);
    SameBatchKeep(s, t);
    SameNumbersKeep(s, t);
  }

  lemma StealFinishGuards(s: State, t: State, k: PageKey)
    requires GuardsOk(s) && IsStealFinish(s, t, k)
    requires StealsOk(s)
    ensures GuardsOk(t)
  {
    HoldersEmpty(s.guards, k);
  }

  lemma StealFinishPins(s: State, t: State, k: PageKey)
    requires PinsOk(s) && StealsOk(s) && IsStealFinish(s, t, k)
    ensures PinsOk(t) && StealsOk(t)
  {
    HoldersEmpty(s.guards, k);
  }

  lemma StealFinishBatch(s: State, t: State, k: PageKey)
    requires BatchOk(s) && StatsOk(s) && IsStealFinish(s, t, k)
    requires StealsOk(s)
    ensures BatchOk(t) && StatsOk(t)
  {
  }

  lemma StealFinishNumbers(s: State, t: State, k: PageKey)
    requires FreshOk(s) && NumbersOk(s) && IsStealFinish(s, t, k)
    requires GuardsOk(s) && StealsOk(s)
    ensures FreshOk(t) && NumbersOk(t)
  {
    hide A.AllocInv, A.InUse, GuardsOk, StealsOk;
    StolenIsFree(s, k);
  }

  lemma StealFinishKeeps(s: State, t: State, k: PageKey)
    requires PoolInv(s) && IsStealFinish(s, t, k)
    ensures PoolInv(t)
  {
    hide GuardsOk, PinsOk, StealsOk, BatchOk, StatsOk, FreshOk, NumbersOk, IsStealFinish;
    StealFinishGuards(s, t, k);
    StealFinishPins(s, t, k);
    StealFinishBatch(s, t, k);
    StealFinishNumbers(s, t, k);
  }

  lemma StealAbortPins(s: State, t: State, k: PageKey)
    requires PinsOk(s) && StealsOk(s) && IsStealAbort(s, t, k)
    ensures PinsOk(t) && StealsOk(t)
  {
  }

  lemma StealAbortKeeps(s: State, t: State, k: PageKey)
    requires PoolInv(s) && IsStealAbort(s, t, k)
    ensures PoolInv(t)
  {
    hide GuardsOk, PinsOk, StealsOk, BatchOk, StatsOk, FreshOk, NumbersOk;
    SameGuardsKeep(s, t);
    StealAbortPins(s, t, k);
    SameBatchKeep(s, t);
    SameNumbersKeep(s, t);
  }

  lemma ReserveBatchBatch(s: State, t: State, candidates: seq<PageKey>)
    requires BatchOk(s) && StatsOk(s) && IsReserveBatch(s, t, candidates)
    requires NumbersOk(s)
    ensures BatchOk(t) && StatsOk(t)
  {
    hide BatchOk, NumbersOk;
    ReservedAccounted(s, t, candidates);
    ReservedFrames(s, t, candidates);
    ReservedBatch(s, t);
  }

  lemma ReserveBatchKeeps(s: State, t: State, candidates: seq<PageKey>)
    requires PoolInv(s) && IsReserveBatch(s, t, candidates)
    ensures PoolInv(t)
  {
    hide GuardsOk, PinsOk, StealsOk, BatchOk, StatsOk, FreshOk, NumbersOk;
    SameGuardsKeep(s, t);
    SamePinsKeep(s, t);
    ReserveBatchBatch(s, t, candidates);
    SameNumbersKeep(s, t);
  }

  lemma SkipTicketBatch(s: State, t: State, k: PageKey)
    requires BatchOk(s) && StatsOk(s) && IsSkipTicket(s, t, k)
    ensures BatchOk(t) && StatsOk(t)
  {
  }

  lemma SkipTicketQuiet(s: State, t: State, k: PageKey)
    requires IsSkipTicket(s, t, k)
    ensures SameGuards(s, t) && SamePins(s, t) && SameNumbers(s, t)
  {
    hide Latched;
    if k in s.frames && s.frames[k].id == s.batch.tickets[k] {
      assert t.frames == s.frames[k := s.frames[k].(flushing := false)];
    } else {
      assert t.frames == s.frames;
    }
  }

  lemma SkipTicketKeeps(s: State, t: State, k: PageKey)
    requires PoolInv(s) && IsSkipTicket(s, t, k)
    ensures PoolInv(t)
  {
    hide GuardsOk, PinsOk, StealsOk, BatchOk, StatsOk, FreshOk, NumbersOk, SameGuards, SamePins, SameBatch, SameNumbers, IsSkipTicket;
    SkipTicketQuiet(s, t, k);
    SameGuardsKeep(s, t);
    SamePinsKeep(s, t);
    SkipTicketBatch(s, t, k);
    SameNumbersKeep(s, t);
  }

  lemma CaptureTicketBatch(s: State, t: State, k: PageKey)
    requires BatchOk(s) && StatsOk(s) && IsCaptureTicket(s, t, k)
    ensures BatchOk(t) && StatsOk(t)
  {
  }

  lemma CaptureTicketKeeps(s: State, t: State, k: PageKey)
    requires PoolInv(s) && IsCaptureTicket(s, t, k)
    ensures PoolInv(t)
  {
    hide GuardsOk, PinsOk, StealsOk, BatchOk, StatsOk, FreshOk, NumbersOk;
    SameGuardsKeep(s, t);
    SamePinsKeep(s, t);
    CaptureTicketBatch(s, t, k);
    SameNumbersKeep(s, t);
  }

  lemma ForceBatchBatch(s: State, t: State)
    requires BatchOk(s) && StatsOk(s) && IsForceBatch(s, t)
    ensures BatchOk(t) && StatsOk(t)
  {
    assert t.batch.captured.Keys == s.batch.captured.Keys;
    SameSize(s.batch.captured, t.batch.captured);
  }

  lemma ForceBatchKeeps(s: State, t: State)
    requires PoolInv(s) && IsForceBatch(s, t)
    ensures PoolInv(t)
  {
    hide GuardsOk, PinsOk, StealsOk, BatchOk, StatsOk, FreshOk, NumbersOk;
    SameGuardsKeep(s, t);
    SamePinsKeep(s, t);
    ForceBatchBatch(s, t);
    SameNumbersKeep(s, t);
  }

  lemma WriteCapturedBatch(s: State, t: State, k: PageKey)
    requires BatchOk(s) && StatsOk(s) && IsWriteCaptured(s, t, k)
    ensures BatchOk(t) && StatsOk(t)
  {
  }

  lemma WriteCapturedNumbers(s: State, t: State, k: PageKey)
    requires FreshOk(s) && NumbersOk(s) && IsWriteCaptured(s, t, k)
    requires P.CaptureOk(View(s, k), k)
    ensures FreshOk(t) && NumbersOk(t)
  {
  }

  lemma WriteCapturedKeeps(s: State, t: State, k: PageKey)
    requires PoolInv(s) && IsWriteCaptured(s, t, k)
    requires P.PageInv(View(s, k), k)
    ensures PoolInv(t)
  {
    hide GuardsOk, PinsOk, StealsOk, BatchOk, StatsOk, FreshOk, NumbersOk;
    SameGuardsKeep(s, t);
    SamePinsKeep(s, t);
    WriteCapturedBatch(s, t, k);
    WriteCapturedNumbers(s, t, k);
  }

  lemma SyncBatchBatch(s: State, t: State)
    requires BatchOk(s) && StatsOk(s) && IsSyncBatch(s, t)
    ensures BatchOk(t) && StatsOk(t)
  {
    assert t.batch.captured.Keys == s.batch.captured.Keys;
    SameSize(s.batch.captured, t.batch.captured);
  }

  lemma SyncBatchKeeps(s: State, t: State)
    requires PoolInv(s) && IsSyncBatch(s, t)
    ensures PoolInv(t)
  {
    hide GuardsOk, PinsOk, StealsOk, BatchOk, StatsOk, FreshOk, NumbersOk;
    SameGuardsKeep(s, t);
    SamePinsKeep(s, t);
    SyncBatchBatch(s, t);
    SameNumbersKeep(s, t);
  }

  lemma FinishCapturedBatch(s: State, t: State, k: PageKey)
    requires BatchOk(s) && StatsOk(s) && IsFinishCaptured(s, t, k)
    ensures BatchOk(t) && StatsOk(t)
  {
  }

  lemma FinishCapturedKeeps(s: State, t: State, k: PageKey)
    requires PoolInv(s) && IsFinishCaptured(s, t, k)
    ensures PoolInv(t)
  {
    hide GuardsOk, PinsOk, StealsOk, BatchOk, StatsOk, FreshOk, NumbersOk;
    SameGuardsKeep(s, t);
    SamePinsKeep(s, t);
    FinishCapturedBatch(s, t, k);
    SameNumbersKeep(s, t);
  }

  lemma FailBatchBatch(s: State, t: State)
    requires BatchOk(s) && StatsOk(s) && IsFailBatch(s, t)
    ensures BatchOk(t) && StatsOk(t)
  {
  }

  lemma FailBatchKeeps(s: State, t: State)
    requires PoolInv(s) && IsFailBatch(s, t)
    ensures PoolInv(t)
  {
    hide GuardsOk, PinsOk, StealsOk, BatchOk, StatsOk, FreshOk, NumbersOk;
    SameGuardsKeep(s, t);
    SamePinsKeep(s, t);
    FailBatchBatch(s, t);
    SameNumbersKeep(s, t);
  }

  lemma ClearCapturedBatch(s: State, t: State, k: PageKey)
    requires BatchOk(s) && StatsOk(s) && IsClearCaptured(s, t, k)
    ensures BatchOk(t) && StatsOk(t)
  {
  }

  lemma ClearCapturedKeeps(s: State, t: State, k: PageKey)
    requires PoolInv(s) && IsClearCaptured(s, t, k)
    ensures PoolInv(t)
  {
    hide GuardsOk, PinsOk, StealsOk, BatchOk, StatsOk, FreshOk, NumbersOk;
    SameGuardsKeep(s, t);
    SamePinsKeep(s, t);
    ClearCapturedBatch(s, t, k);
    SameNumbersKeep(s, t);
  }

  lemma EndBatchBatch(s: State, t: State)
    requires BatchOk(s) && StatsOk(s) && IsEndBatch(s, t)
    ensures BatchOk(t) && StatsOk(t)
  {
  }

  lemma EndBatchKeeps(s: State, t: State)
    requires PoolInv(s) && IsEndBatch(s, t)
    ensures PoolInv(t)
  {
    hide GuardsOk, PinsOk, StealsOk, BatchOk, StatsOk, FreshOk, NumbersOk;
    SameGuardsKeep(s, t);
    SamePinsKeep(s, t);
    EndBatchBatch(s, t);
    SameNumbersKeep(s, t);
  }

  lemma TakeFenceGuards(s: State, t: State)
    requires GuardsOk(s) && IsTakeFence(s, t)
    ensures GuardsOk(t)
  {
  }

  lemma TakeFenceKeeps(s: State, t: State)
    requires PoolInv(s) && IsTakeFence(s, t)
    ensures PoolInv(t)
  {
    hide GuardsOk, PinsOk, StealsOk, BatchOk, StatsOk, FreshOk, NumbersOk;
    TakeFenceGuards(s, t);
    SamePinsKeep(s, t);
    SameBatchKeep(s, t);
    SameNumbersKeep(s, t);
  }

  lemma ReleaseFenceGuards(s: State, t: State)
    requires GuardsOk(s) && IsReleaseFence(s, t)
    ensures GuardsOk(t)
  {
  }

  lemma ReleaseFenceKeeps(s: State, t: State)
    requires PoolInv(s) && IsReleaseFence(s, t)
    ensures PoolInv(t)
  {
    hide GuardsOk, PinsOk, StealsOk, BatchOk, StatsOk, FreshOk, NumbersOk;
    ReleaseFenceGuards(s, t);
    SamePinsKeep(s, t);
    SameBatchKeep(s, t);
    SameNumbersKeep(s, t);
  }

}
