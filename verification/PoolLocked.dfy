/** The lock-held sections of the pool, as `PoolState` runs them, are steps of the machine. */
module PoolLocked {
  import opened Options
  import opened Sequences
  import opened Redo
  import opened Frames
  import A = Allocator
  import P = Page
  import opened Pool
  import opened PoolRuns
  import S = PoolState
  import K = PoolKept
  import T = PoolTheorems
  import L = PoolLoads

  function Differing(before: map<PageKey, Frame>, now: map<PageKey, Frame>): set<PageKey> {
    set k | k in before && k in now && before[k] != now[k]
  }

  lemma OneFewer(before: map<PageKey, Frame>, now: map<PageKey, Frame>, k: PageKey)
    requires S.OnlyCleared(before, now) && k in now && now[k] != before[k]
    ensures var was := now[k := before[k]];
            && S.OnlyCleared(before, was)
            && Differing(before, was) == Differing(before, now) - {k}
            && was[k := was[k].(referenced := false)] == now
  {
  }

  /** A sweep that only clears reference bits is a run. */
  lemma {:induction false} SweepIsRun(s: State, now: map<PageKey, Frame>)
    requires S.OnlyCleared(s.frames, now)
    ensures Reaches(s, s.(frames := now))
    decreases Differing(s.frames, now)
  {
    hide Reaches, Next;
    if now == s.frames {
      Stays(s);
    } else {
      var k :| k in now && now[k] != s.frames[k];
      OneFewer(s.frames, now, k);
      hide S.OnlyCleared;
      var t := s.(frames := now[k := s.frames[k]]);
      assert k in Differing(s.frames, now);
      SweepIsRun(s, t.frames);
      Sweeps(s, now, k);
      Then(s, t, s.(frames := now), SweepPast(k));
    }
  }

  lemma Sweeps(s: State, now: map<PageKey, Frame>, k: PageKey)
    requires k in s.frames && k in now
    requires now == now[k := s.frames[k]][k := s.frames[k].(referenced := false)]
    ensures Next(s.(frames := now[k := s.frames[k]]), s.(frames := now), SweepPast(k))
  {
    assert IsSweepPast(s.(frames := now[k := s.frames[k]]), s.(frames := now), k);
  }

  /** What the pool state looks like once the sweep came back with `r`. */
  function Reclaims(s: State, now: map<PageKey, Frame>, r: S.Reclaim): State {
    s.(frames := now, steals := if r.ReservedDirty? then s.steals[r.key := P.Reserved] else s.steals)
  }

  lemma EvictionIsRun(s: State, now: map<PageKey, Frame>, k: PageKey, stealing: bool, canFlush: S.Policy)
    requires S.Reclaimed(s.frames, now, S.FreedClean(k), stealing, canFlush)
    ensures Reaches(s, s.(frames := now))
  {
    hide Reaches;
    var was := now[k := s.frames[k]];
    SweepIsRun(s, was);
    assert was - {k} == now;
    var t := s.(frames := was);
    assert IsEvictClean(t, s.(frames := now), k);
    Then(s, t, s.(frames := now), EvictClean(k));
  }

  lemma SweptBeforeSteal(s: State, now: map<PageKey, Frame>, k: PageKey, stealing: bool, canFlush: S.Policy)
    requires S.Reclaimed(s.frames, now, S.ReservedDirty(k), stealing, canFlush)
    ensures k in s.frames && k in now
    ensures var was := now[k := s.frames[k]]; S.OnlyCleared(s.frames, was) && was[k := now[k]] == now
  {
    var was, rest := now[k := s.frames[k]], s.frames - {k};
    assert rest.Keys == (now - {k}).Keys;
    forall q ensures q in was <==> q in s.frames {
      assert q != k ==> (q in now <==> q in (now - {k}).Keys) && (q in s.frames <==> q in rest.Keys);
    }
    assert forall q | q in s.frames && q != k :: q in now - {k} && was[q] == (now - {k})[q] && q in s.frames - {k};
  }

  lemma ReservationIsRun(s: State, now: map<PageKey, Frame>, k: PageKey, stealing: bool, canFlush: S.Policy)
    requires S.Reclaimed(s.frames, now, S.ReservedDirty(k), stealing, canFlush)
    ensures Reaches(s, s.(frames := now, steals := s.steals[k := P.Reserved]))
  {
    hide Reaches, S.OnlyCleared;
    SweptBeforeSteal(s, now, k, stealing, canFlush);
    var t, u := s.(frames := now[k := s.frames[k]]), s.(frames := now, steals := s.steals[k := P.Reserved]);
    SweepIsRun(s, t.frames);
    assert IsStealReserve(t, u, k);
    Then(s, t, u, StealReserve(k));
  }

  /** `reclaim_victim` is a run of the machine: sweeps, then an eviction or a reservation. */
  lemma ReclaimIsRun(s: State, now: map<PageKey, Frame>, r: S.Reclaim, stealing: bool, canFlush: S.Policy)
    requires S.Reclaimed(s.frames, now, r, stealing, canFlush)
    ensures Reaches(s, Reclaims(s, now, r))
  {
    hide Reaches;
    match r
    case NoVictim => SweepIsRun(s, now);
    case FreedClean(k) => EvictionIsRun(s, now, k, stealing, canFlush);
    case ReservedDirty(k) => ReservationIsRun(s, now, k, stealing, canFlush);
  }

  /** The reservation loop of a batch is one step, and it counts the skipped candidates. */
  lemma ReservationIsStep(s: State, now: map<PageKey, Frame>, candidates: seq<PageKey>, reserved: seq<PageKey>, t: State)
    requires s.batch.phase.Idle? && Distinct(reserved)
    requires forall k :: k in reserved <==>
               k in candidates && k in s.frames && !s.frames[k].evicting && !s.frames[k].flushing
    requires now.Keys == s.frames.Keys
    requires forall k | k in now :: now[k] == if k in reserved then s.frames[k].(flushing := true) else s.frames[k]
    requires |reserved| <= |candidates| ==>
               t == s.(frames := now,
                       batch := Batch(Capturing, map k | k in Reservable(s, candidates) :: s.frames[k].id, map[],
                                      set k | k in candidates :: k.file,
                                      Stats(|candidates|, 0, |candidates| - |reserved|, 0)))
    ensures |reserved| <= |candidates| && Next(s, t, ReserveBatch(candidates))
  {
    var r := Reservable(s, candidates);
    assert forall k :: k in reserved <==> k in r;
    SizeOfDistinct(reserved, r);
    K.ElementsBound(candidates, r);
    assert now == map k | k in s.frames :: if k in r then s.frames[k].(flushing := true) else s.frames[k];
    assert IsReserveBatch(s, t, candidates);
  }

  lemma {:induction false} SizeOfDistinct(xs: seq<PageKey>, a: set<PageKey>)
    requires Distinct(xs) && (forall k :: k in xs <==> k in a)
    ensures |xs| == |a|
  {
    if xs == [] {
      assert a == {};
    } else {
      var n := |xs| - 1;
      assert forall k :: k in xs[..n] <==> k in a - {xs[n]};
      SizeOfDistinct(xs[..n], a - {xs[n]});
    }
  }

  /** The pool once a thread has put the bytes it loaded under the lock. */
  function AfterLoaded(s: State, g: nat, k: PageKey, data: Bytes, x: bool): State {
    s.(frames := s.frames[k := Pinned(S.FoundOrMade(s.frames, s.nextId, k, data))],
       alloc := A.AtLeast(s.alloc, k.file, k.num + 1),
       nextId := if k in s.frames then s.nextId else s.nextId + 1,
       guards := s.guards[g := Guard(k, Waiting(x))])
  }

  lemma FoundIsJoin(m: L.Machine, n: L.Machine, thread: nat, g: nat, x: bool)
    requires thread in m.accesses && m.accesses[thread].Loaded? && g !in m.pool.guards
    requires var s, k := m.pool, m.accesses[thread].key;
             && k in s.frames && !s.frames[k].evicting
             && n == L.Machine(AfterLoaded(s, g, k, m.accesses[thread].image, x), m.accesses - {thread})
    ensures L.IsJoin(m, n, thread, g, x)
  {
    hide A.AtLeast, Pinned;
  }

  lemma MadeIsInsert(m: L.Machine, n: L.Machine, thread: nat, g: nat, x: bool)
    requires thread in m.accesses && m.accesses[thread].Loaded? && g !in m.pool.guards
    requires var s, k := m.pool, m.accesses[thread].key;
             && k !in s.frames && |s.frames| < s.capacity
             && n == L.Machine(AfterLoaded(s, g, k, m.accesses[thread].image, x), m.accesses - {thread})
    ensures L.IsInsert(m, n, thread, g, x)
  {
    hide A.AtLeast, Pinned, NewFrame;
  }

  /** What a thread does with loaded bytes under the lock is a move of the machine that takes the
      miss path apart: it inserts them, or joins the frame somebody else brought in. */
  lemma InsertLoadedIsMove(m: L.Machine, n: L.Machine, thread: nat, g: nat, x: bool)
    requires thread in m.accesses && m.accesses[thread].Loaded? && g !in m.pool.guards
    requires S.CanInsert(m.pool.frames, m.pool.capacity, m.accesses[thread].key)
    requires n == L.Machine(AfterLoaded(m.pool, g, m.accesses[thread].key, m.accesses[thread].image, x),
                            m.accesses - {thread})
    ensures L.Moves(m, n, if m.accesses[thread].key in m.pool.frames then L.Join(thread, g, x) else L.Insert(thread, g, x))
  {
    hide AfterLoaded, L.IsJoin, L.IsInsert;
    if m.accesses[thread].key in m.pool.frames {
      FoundIsJoin(m, n, thread, g, x);
    } else {
      MadeIsInsert(m, n, thread, g, x);
    }
  }

  /** What `new_page` does under the lock never meets a resident number, and is a step. */
  lemma NewPageIsStep(s: State, t: State, g: nat, k: PageKey)
    requires Inv(s) && g !in s.guards && k.file in s.alloc.seeded && |s.frames| < s.capacity
    requires A.Picks(s.alloc, k.file, k.num)
    requires t == s.(frames := s.frames[k := Pinned(NewFrame(s.nextId, Zeroed, false))],
                     alloc := A.MarkAllocated(s.alloc, k.file, k.num), nextId := s.nextId + 1,
                     guards := s.guards[g := Guard(k, Writing)],
                     writers := s.writers[k := Writer(g, true, false, false, None)])
    ensures k !in s.frames && Next(s, t, NewPage(g, k))
  {
    hide Inv, A.Picks, A.MarkAllocated;
    T.NewPageIsFresh(s, k);
    assert IsNewPage(s, t, g, k);
  }

  /** A writer with nothing in flight that gives its page back meets no missing frame. It succeeds
      if and only if the page is new and unpublished and nobody else waits for it, and that is a
      step. */
  lemma AbandonIsStep(s: State, t: State, g: nat)
    requires Inv(s) && g in s.guards && s.guards[g].mode == Writing && s.guards[g].key in s.writers
    requires var k := s.guards[g].key;
             && s.writers[k].pending.None?
             && t == s.(frames := s.frames - {k}, alloc := A.Abandon(s.alloc, k.file, k.num),
                        guards := s.guards - {g}, writers := s.writers - {k})
    ensures var k := s.guards[g].key;
            var r := S.AbandonOutcome(s.frames, k, s.writers[k].isNew, s.writers[k].published);
            && !r.NotResident?
            && (r.GivenBack? <==> s.writers[k].isNew && !s.writers[k].published && Holders(s.guards, k) == {g})
            && (r.GivenBack? ==> Next(s, t, Abandon(g)))
  {
    var k := s.guards[g].key;
    assert GuardsOk(s) && PinsOk(s) && StealsOk(s);
    hide Inv, A.Abandon, GuardsOk, PinsOk, StealsOk, Holders, Next;
    WriterIsCounted(s, g);
    if S.AbandonOutcome(s.frames, k, s.writers[k].isNew, s.writers[k].published).GivenBack? {
      GivesBack(s, t, g);
    }
  }

  lemma GivesBack(s: State, t: State, g: nat)
    requires GuardMayWrite(s, g)
    requires var k := s.guards[g].key;
             && s.writers[k].isNew && !s.writers[k].published && s.writers[k].pending.None? && s.frames[k].pins <= 1
             && t == s.(frames := s.frames - {k}, alloc := A.Abandon(s.alloc, k.file, k.num),
                        guards := s.guards - {g}, writers := s.writers - {k})
    ensures Next(s, t, Abandon(g))
  {
    hide A.Abandon;
    assert IsAbandon(s, t, g);
  }

  lemma WriterIsCounted(s: State, g: nat)
    requires GuardsOk(s) && PinsOk(s) && StealsOk(s) && g in s.guards && s.guards[g].mode == Writing
    ensures GuardMayWrite(s, g)
    ensures s.frames[s.guards[g].key].pins <= 1 <==> Holders(s.guards, s.guards[g].key) == {g}
  {
    var k := s.guards[g].key;
    var hs := Holders(s.guards, k);
    assert g in hs;
    assert k !in s.steals;
    if |hs| == 1 {
      assert |hs - {g}| == 0;
      assert hs == {g};
    }
  }

  /** The least redo boundary in the dirty-page table, or the end of the log. */
  function PageRedoLsn(es: seq<S.DirtyPageEntry>, end: Lsn): (l: Lsn)
    ensures es == [] ==> l == end
    ensures es != [] ==> exists e :: e in es && e.recLsn == l
    ensures forall e | e in es :: l <= e.recLsn
  {
    if |es| <= 1 then (if es == [] then end else es[0].recLsn)
    else
      var rest := PageRedoLsn(es[1..], end);
      assert es == [es[0]] + es[1..];
      if es[0].recLsn <= rest then es[0].recLsn else rest
  }

  /** `es` is the dirty-page table of `s`. */
  ghost predicate IsTable(s: State, es: seq<S.DirtyPageEntry>) {
    forall e :: e in es <==> e.key in s.frames && s.frames[e.key].dirty && s.frames[e.key].recLsn == Some(e.recLsn)
  }

  lemma TableBounds(s: State, es: seq<S.DirtyPageEntry>, k: PageKey)
    requires Inv(s) && IsTable(s, es) && k in s.frames && s.frames[k].dirty
    ensures s.frames[k].recLsn.Some? && S.DirtyPageEntry(k, s.frames[k].recLsn.value) in es
    ensures PageRedoLsn(es, s.walEnd) <= s.frames[k].recLsn.value < s.walEnd
  {
    hide Inv, PageRedoLsn;
    T.DirtyAgrees(s, k);
    var e := S.DirtyPageEntry(k, s.frames[k].recLsn.value);
    assert e in es;
  }

  /** What a checkpoint records is the pool's redo floor, and the highest there is. */
  lemma TableGivesFloor(s: State, es: seq<S.DirtyPageEntry>)
    requires Inv(s) && IsTable(s, es)
    ensures T.IsFloor(s, PageRedoLsn(es, s.walEnd))
    ensures forall l: Lsn | T.IsFloor(s, l) :: l <= PageRedoLsn(es, s.walEnd)
  {
    hide Inv, PageRedoLsn;
    var floor := PageRedoLsn(es, s.walEnd);
    forall k | k in s.frames && s.frames[k].dirty
      ensures s.frames[k].recLsn.Some? && floor <= s.frames[k].recLsn.value < s.walEnd
    {
      TableBounds(s, es, k);
    }
    if es != [] {
      var e :| e in es && e.recLsn == floor;
      assert e.key in s.frames && s.frames[e.key].dirty;
    }
  }
}
