/** What every run of the pool promises: a sound redo floor, torn-page repair, one latest
    value per page, ordered and forced home writes, accounted batches, fresh numbers. */
module PoolTheorems {
  import opened Options
  import opened Redo
  import opened Frames
  import A = Allocator
  import P = Page
  import opened Pool
  import PoolPages
  import opened PoolRuns

  function Current(s: State, k: PageKey): Bytes {
    P.Current(View(s, k))
  }

  // ---------------------------------------------------------------- crash recovery

  /** An image of page `k` that a crash may leave intact at its home. */
  ghost predicate Intact(s: State, k: PageKey, b: Bytes) {
    b == HomeOf(s, k).synced || b in HomeOf(s, k).unsynced
  }

  /** A crash may tear the write that was in flight; the page then does not validate. */
  ghost predicate MayTear(s: State, k: PageKey) {
    HomeOf(s, k).unsynced != []
  }

  lemma PageOf(s: State, k: PageKey)
    requires Inv(s)
    ensures P.PageInv(View(s, k), k)
  {
    hide PoolInv, P.PageInv, View;
  }

  /** A published record that some surviving home lacks starts at or after the redo
      boundary of its page, which is then resident and dirty. */
  lemma MissingIsCovered(s: State, k: PageKey, b: Bytes, i: nat)
    requires Inv(s) && Intact(s, k, b)
    requires i < |s.wal| && s.wal[i].key == k && Stamp(b) < s.wal[i].end
    requires View(s, k).pending != Some(s.wal[i])
    ensures k in s.frames && s.frames[k].dirty && s.frames[k].recLsn.Some?
    ensures s.frames[k].recLsn.value <= s.wal[i].start
  {
    hide Inv, P.FpiOk, P.CaptureOk, P.StealOk;
    PageOf(s, k);
  }

  /** A clean or non-resident page lacks nothing at home. */
  lemma CleanIsHome(s: State, k: PageKey, b: Bytes)
    requires Inv(s) && Intact(s, k, b)
    requires k in s.frames ==> !s.frames[k].dirty
    ensures b == Current(s, k)
  {
    assert P.PageInv(View(s, k), k);
    hide PoolInv;
    P.CleanIsHome(View(s, k), k);
  }

  /** With no record in flight the page holds everything the log says about it. */
  lemma CurrentIsLogged(s: State, k: PageKey)
    requires Inv(s) && View(s, k).pending.None?
    ensures Current(s, k) == ContentAt(s.wal, k, s.walEnd)
  {
    assert P.PageInv(View(s, k), k);
    hide PoolInv;
    StampIsLast(s.wal, k, Stamp(Current(s, k)));
    ContentSame(s.wal, k, Stamp(Current(s, k)), s.walEnd);
  }

  /** `l` is a redo boundary for the whole pool: at most every dirty page's own. */
  ghost predicate IsFloor(s: State, l: Lsn) {
    && l <= s.walEnd
    && (forall k | k in s.frames && s.frames[k].dirty :: s.frames[k].recLsn.Some? && l <= s.frames[k].recLsn.value)
  }

  /** Every record that starts before `l` is in the synced home of its page. */
  ghost predicate Covered(s: State, l: Lsn) {
    && l <= s.walEnd
    && (forall i | 0 <= i < |s.wal| && s.wal[i].start < l ::
          s.wal[i].end <= Stamp(HomeOf(s, s.wal[i].key).synced))
  }

  lemma FloorCovers(s: State, l: Lsn)
    requires Inv(s) && s.fence && IsFloor(s, l)
    ensures Covered(s, l)
  {
    forall i | 0 <= i < |s.wal| && s.wal[i].start < l
      ensures s.wal[i].end <= Stamp(HomeOf(s, s.wal[i].key).synced)
    {
      var k := s.wal[i].key;
      assert View(s, k).pending.None?;
      if Stamp(HomeOf(s, k).synced) < s.wal[i].end {
        MissingIsCovered(s, k, HomeOf(s, k).synced, i);
      }
    }
  }

  lemma StepGrowsLog(s: State, t: State, st: Step)
    requires Next(s, t, st)
    ensures t.wal == s.wal || (st.Append? && |t.wal| == |s.wal| + 1 && t.wal[..|s.wal|] == s.wal
                                 && t.wal[|s.wal|].start == s.walEnd < t.wal[|s.wal|].end)
    ensures s.walEnd <= t.walEnd
  {
    if st.Append? {
      AppendGrowsLog(s, t, st.g, st.kind, st.end, st.take);
    } else if IsAccessStep(st) {
      AccessKeepsLog(s, t, st);
    } else {
      IoKeepsLog(s, t, st);
    }
  }

  lemma AppendGrowsLog(s: State, t: State, g: nat, kind: Kind, end: Lsn, take: bool)
    requires IsAppend(s, t, g, kind, end, take)
    ensures |t.wal| == |s.wal| + 1 && t.wal[..|s.wal|] == s.wal && t.wal[|s.wal|].start == s.walEnd < t.wal[|s.wal|].end
    ensures s.walEnd <= t.walEnd
  {
    assert t.wal == s.wal + [Record(s.guards[g].key, s.walEnd, end, kind)];
  }

  lemma AccessKeepsLog(s: State, t: State, st: Step)
    requires Next(s, t, st) && IsAccessStep(st) && !st.Append?
    ensures t.wal == s.wal && s.walEnd <= t.walEnd
  {
    hide Latched, Published, Pinned, Unpinned, NewFrame, A.Picks, A.Seed, A.Abandon, A.MarkAllocated, A.AtLeast;
  }

  lemma IoKeepsLog(s: State, t: State, st: Step)
    requires Next(s, t, st) && !IsAccessStep(st)
    ensures t.wal == s.wal && s.walEnd == t.walEnd
  {
    hide Reservable, SyncFiles, Latched, Finished, Cleared, Captured, Pinned, Unpinned, HomeOf;
  }

  lemma StepCovers(s: State, t: State, st: Step, l: Lsn)
    requires Inv(s) && Next(s, t, st) && Covered(s, l)
    ensures Covered(t, l)
  {
    hide PoolInv, Next, P.PageStep, PoolPages.StepOf;
    var z := PageKey(0, 0);
    assert P.PageInv(View(s, z), z);
    StepGrowsLog(s, t, st);
    forall i | 0 <= i < |t.wal| && t.wal[i].start < l
      ensures t.wal[i].end <= Stamp(HomeOf(t, t.wal[i].key).synced)
    {
      var k := t.wal[i].key;
      assert s.wal[i] == t.wal[i];
      HomeGrows(s, t, st, k);
    }
  }

  lemma HomeGrows(s: State, t: State, st: Step, k: PageKey)
    requires Inv(s) && Next(s, t, st)
    ensures Stamp(HomeOf(s, k).synced) <= Stamp(HomeOf(t, k).synced)
    ensures Stamp(P.Latest(HomeOf(s, k))) <= Stamp(P.Latest(HomeOf(t, k))) <= t.walDurable
  {
    hide PoolInv, Next, P.PageStep, PoolPages.StepOf, P.PageInv;
    assert P.PageInv(View(s, k), k);
    PoolPages.Projects(s, t, st, k);
    P.StepHome(View(s, k), View(t, k), k, PoolPages.StepOf(s, st, k));
  }

  lemma {:induction false} RunCovers(states: seq<State>, steps: seq<Step>, i: nat, j: nat, l: Lsn)
    requires IsRun(states, steps) && i <= j < |states| && Inv(states[0])
    requires Covered(states[i], l)
    ensures Covered(states[j], l)
    decreases j
  {
    hide Inv, Next, Covered;
    if i < j {
      RunCovers(states, steps, i, j - 1, l);
      RunKeeps(states, steps, j - 1);
      StepCovers(states[j - 1], states[j], steps[j - 1], l);
    }
  }

  lemma CoveredReplays(s: State, l: Lsn, k: PageKey, b: Bytes, hi: Lsn)
    requires Inv(s) && Covered(s, l) && Intact(s, k, b) && s.walDurable <= hi
    ensures Replay(s.wal, k, l, hi, b) == Done(ContentAt(s.wal, k, hi))
  {
    hide Inv, P.MissingOk, P.DirtyOk, P.FpiOk, P.CaptureOk, P.StealOk, Replay, ContentAt;
    PageOf(s, k);
    ReplayReaches(s.wal, k, l, hi, b);
  }

  /** The redo floor a checkpoint takes under the exclusive fence stays sound for the rest
      of the run: crash in any later state `j`, keep any durable prefix `hi` of the log and
      any intact home of any page, and replay from the floor rebuilds exactly what the
      kept log says the page holds. */
  lemma CheckpointFloorSound(states: seq<State>, steps: seq<Step>, i: nat, j: nat, l: Lsn, k: PageKey, b: Bytes, hi: Lsn)
    requires IsRun(states, steps) && i <= j < |states| && Initial(states[0])
    requires states[i].fence && IsFloor(states[i], l)
    requires Intact(states[j], k, b) && states[j].walDurable <= hi
    ensures Replay(states[j].wal, k, l, hi, b) == Done(ContentAt(states[j].wal, k, hi))
  {
    hide Inv, Next, Covered, IsFloor, Initial, Intact;
    InitialInv(states[0]);
    RunKeeps(states, steps, i);
    RunKeeps(states, steps, j);
    FloorCovers(states[i], l);
    RunCovers(states, steps, i, j, l);
    CoveredReplays(states[j], l, k, b, hi);
  }

  /** With the whole log kept and no record in flight, that is the page as it was. */
  lemma CheckpointFloorRestores(states: seq<State>, steps: seq<Step>, i: nat, j: nat, l: Lsn, k: PageKey, b: Bytes)
    requires IsRun(states, steps) && i <= j < |states| && Initial(states[0])
    requires states[i].fence && IsFloor(states[i], l)
    requires Intact(states[j], k, b) && View(states[j], k).pending.None?
    ensures Replay(states[j].wal, k, l, states[j].walEnd, b) == Done(Current(states[j], k))
  {
    hide Next, IsFloor, Initial, Intact;
    ReachableInv(states, steps, j);
    var z := PageKey(0, 0);
    assert P.PageInv(View(states[j], z), z);
    hide Inv, View, Current;
    CurrentIsLogged(states[j], k);
    CheckpointFloorSound(states, steps, i, j, l, k, b, states[j].walEnd);
  }

  // ---------------------------------------------------------------- torn pages

  /** The first record of a dirty page at or after its redo boundary is a full image or a
      page init, and it is durable before any write of the page can tear. */
  lemma BoundaryIsBase(s: State, k: PageKey)
    requires Inv(s) && k in s.frames && s.frames[k].dirty
    ensures s.frames[k].recLsn.Some?
    ensures exists i :: FirstInRange(s.wal, k, s.frames[k].recLsn.value, s.walEnd, i) && s.wal[i].IsBase()
    ensures MayTear(s, k) ==> exists i :: FirstInRange(s.wal, k, s.frames[k].recLsn.value, s.walDurable, i) && s.wal[i].IsBase()
  {
    hide PoolInv;
    assert P.PageInv(View(s, k), k);
    hide P.CurrentOk, P.MissingOk, P.FpiOk, P.CaptureOk, P.StealOk;
    var f := s.frames[k];
    var l := f.recLsn.value;
    StampIsLast(s.wal, k, Stamp(f.data));
    BaseIsFirst(s.wal, k, l, Stamp(f.data), Stamp(f.data));
    var i :| FirstInRange(s.wal, k, l, Stamp(f.data), i) && s.wal[i].IsBase() && s.wal[i].start == l;
    assert FirstInRange(s.wal, k, l, s.walEnd, i);
    if MayTear(s, k) {
      assert s.wal[i].end <= s.walDurable by {
        BaseEnds(s.wal, k, l, Stamp(HomeOf(s, k).unsynced[0]), i);
      }
      assert FirstInRange(s.wal, k, l, s.walDurable, i);
    }
  }

  lemma BaseEnds(wal: seq<Record>, k: PageKey, l: Lsn, upto: Lsn, i: int)
    requires Ordered(wal) && P.BaseAt(wal, k, l, upto)
    requires 0 <= i < |wal| && wal[i].start == l
    ensures wal[i].end <= upto
  {
    var j :| 0 <= j < |wal| && wal[j].key == k && wal[j].IsBase() && wal[j].start == l && wal[j].end <= upto;
    assert i == j;
  }

  lemma BaseIsFirst(wal: seq<Record>, k: PageKey, l: Lsn, upto: Lsn, hi: Lsn)
    requires Ordered(wal) && P.BaseAt(wal, k, l, upto) && upto <= hi
    ensures exists i :: FirstInRange(wal, k, l, hi, i) && wal[i].IsBase() && wal[i].start == l
  {
    var i :| 0 <= i < |wal| && wal[i].key == k && wal[i].IsBase() && wal[i].start == l && wal[i].end <= upto;
    assert FirstInRange(wal, k, l, hi, i);
  }

  /** From its own redo boundary, redo rebuilds a page whatever the torn write left. */
  lemma TornIsRebuilt(s: State, k: PageKey, hi: Lsn)
    requires Inv(s) && MayTear(s, k) && s.walDurable <= hi
    ensures k in s.frames && s.frames[k].dirty && s.frames[k].recLsn.Some?
    ensures Replay(s.wal, k, s.frames[k].recLsn.value, hi, Zeroed) == Done(ContentAt(s.wal, k, hi))
  {
    assert P.PageInv(View(s, k), k);
    hide PoolInv;
    var l := s.frames[k].recLsn.value;
    BaseIsFirst(s.wal, k, l, Stamp(HomeOf(s, k).unsynced[0]), hi);
    var i :| FirstInRange(s.wal, k, l, hi, i) && s.wal[i].IsBase();
    ReplayTorn(s.wal, k, l, hi, i);
  }

  /** Recovery replays every page from one floor, at most the page's own boundary. Then a
      torn page is rebuilt if and only if the first record the log keeps of it from the
      floor on is a base; otherwise redo fails on the delta it meets first. */
  lemma TornFromFloor(s: State, k: PageKey, l: Lsn, hi: Lsn)
    requires Inv(s) && MayTear(s, k) && IsFloor(s, l) && s.walDurable <= hi
    ensures exists i :: FirstInRange(s.wal, k, l, hi, i)
    ensures forall i | FirstInRange(s.wal, k, l, hi, i) ::
              && (Replay(s.wal, k, l, hi, Zeroed) == Done(ContentAt(s.wal, k, hi)) <==> s.wal[i].IsBase())
              && (Replay(s.wal, k, l, hi, Zeroed) == Failed <==> s.wal[i].kind.Delta?)
  {
    assert P.PageInv(View(s, k), k);
    hide PoolInv;
    var r := s.frames[k].recLsn.value;
    BaseIsFirst(s.wal, k, r, Stamp(HomeOf(s, k).unsynced[0]), hi);
    var i :| FirstInRange(s.wal, k, r, hi, i);
    FirstExists(s.wal, k, l, hi, i);
    forall j | FirstInRange(s.wal, k, l, hi, j)
      ensures (Replay(s.wal, k, l, hi, Zeroed) == Done(ContentAt(s.wal, k, hi)) <==> s.wal[j].IsBase())
      ensures Replay(s.wal, k, l, hi, Zeroed) == Failed <==> s.wal[j].kind.Delta?
    {
      ReplayTorn(s.wal, k, l, hi, j);
    }
  }

  lemma FloorIsBelow(s: State, l: Lsn, k: PageKey)
    requires Inv(s) && s.fence && IsFloor(s, l)
    ensures P.AtOrAbove(View(s, k), l)
  {
    assert P.PageInv(View(s, k), k);
    assert View(s, k).pending.None?;
    hide PoolInv, P.PageInv, P.AtOrAbove;
    DirtyIsBounded(s, k);
    P.BoundaryIsAbove(View(s, k), k, l);
  }

  lemma DirtyIsBounded(s: State, k: PageKey)
    requires P.PageInv(View(s, k), k)
    ensures k in s.frames ==> (s.frames[k].dirty <==> s.frames[k].recLsn.Some?)
  {
  }

  lemma {:induction false} RunStaysAbove(states: seq<State>, steps: seq<Step>, i: nat, j: nat, l: Lsn, k: PageKey)
    requires IsRun(states, steps) && i <= j < |states| && Inv(states[0])
    requires P.AtOrAbove(View(states[i], k), l)
    ensures P.AtOrAbove(View(states[j], k), l)
    decreases j
  {
    hide Inv, Next, P.AtOrAbove, P.PageStep, PoolPages.StepOf;
    if i < j {
      RunStaysAbove(states, steps, i, j - 1, l, k);
      RunKeeps(states, steps, j - 1);
      StepProjects(states[j - 1], states[j], steps[j - 1], k);
      P.StepStaysAbove(View(states[j - 1], k), View(states[j], k), k, PoolPages.StepOf(states[j - 1], steps[j - 1], k), l);
    }
  }

  lemma StepProjects(s: State, t: State, st: Step, k: PageKey)
    requires Inv(s) && Next(s, t, st)
    ensures P.PageStep(View(s, k), View(t, k), k, PoolPages.StepOf(s, st, k))
  {
    hide PoolInv, Next, P.PageStep, PoolPages.StepOf, P.PageInv;
    assert P.PageInv(View(s, k), k);
    PoolPages.Projects(s, t, st, k);
  }

  /** A floor taken under the exclusive fence is a floor for the rest of the run: no page ever
      comes to need redo from below it. */
  lemma FloorStays(states: seq<State>, steps: seq<Step>, i: nat, j: nat, l: Lsn)
    requires IsRun(states, steps) && i <= j < |states| && Initial(states[0])
    requires states[i].fence && IsFloor(states[i], l)
    ensures IsFloor(states[j], l)
  {
    hide Inv, Next, Initial;
    InitialInv(states[0]);
    RunKeeps(states, steps, i);
    RunKeeps(states, steps, j);
    var z := PageKey(0, 0);
    FloorIsBelow(states[i], l, z);
    RunStaysAbove(states, steps, i, j, l, z);
    forall k | k in states[j].frames && states[j].frames[k].dirty
      ensures states[j].frames[k].recLsn.Some? && l <= states[j].frames[k].recLsn.value
    {
      FloorIsBelow(states[i], l, k);
      RunStaysAbove(states, steps, i, j, l, k);
      DirtyAgrees(states[j], k);
    }
  }

  /** Crash in any state `j` after a checkpoint took its floor under the fence in state `i`, and
      tear any page whose write is in flight: redo from that floor rebuilds the page if and only
      if its first kept record from the floor on is a base, and fails otherwise. */
  lemma TornFromCheckpoint(states: seq<State>, steps: seq<Step>, i: nat, j: nat, l: Lsn, k: PageKey, hi: Lsn)
    requires IsRun(states, steps) && i <= j < |states| && Initial(states[0])
    requires states[i].fence && IsFloor(states[i], l)
    requires MayTear(states[j], k) && states[j].walDurable <= hi
    ensures exists n :: FirstInRange(states[j].wal, k, l, hi, n)
    ensures forall n | FirstInRange(states[j].wal, k, l, hi, n) ::
              && (Replay(states[j].wal, k, l, hi, Zeroed) == Done(ContentAt(states[j].wal, k, hi))
                  <==> states[j].wal[n].IsBase())
              && (Replay(states[j].wal, k, l, hi, Zeroed) == Failed <==> states[j].wal[n].kind.Delta?)
  {
    hide Inv, Next, Initial, IsFloor, MayTear, Replay, ContentAt;
    ReachableInv(states, steps, j);
    FloorStays(states, steps, i, j, l);
    TornFromFloor(states[j], k, l, hi);
  }

  lemma FirstExists(wal: seq<Record>, k: PageKey, lo: Lsn, hi: Lsn, i: nat)
    requires i < |wal| && InRange(wal[i], k, lo, hi)
    ensures exists j :: FirstInRange(wal, k, lo, hi, j)
  {
    var j := 0;
    while !InRange(wal[j], k, lo, hi)
      invariant 0 <= j <= i
      invariant forall m | 0 <= m < j :: !InRange(wal[m], k, lo, hi)
      decreases i - j
    {
      j := j + 1;
    }
    assert FirstInRange(wal, k, lo, hi, j);
  }

  // ---------------------------------------------------------------- one latest value per page

  /** Pool and store refine one flat map from page to latest published bytes: publishing
      applies its record to its page, and no other step changes any page. */
  lemma StepRefines(s: State, t: State, st: Step, k: PageKey)
    requires Inv(s) && Next(s, t, st)
    ensures match View(s, k).pending
            case Some(r) => Current(t, k) == if Publishes(s, st, k) then Apply(Current(s, k), r) else Current(s, k)
            case None => !Publishes(s, st, k) && Current(t, k) == Current(s, k)
  {
    StepProjects(s, t, st, k);
    assert P.PageInv(View(s, k), k);
    PublishIsOwn(s, t, st, k);
    hide Inv, Next, P.PageInv, P.PageStep, PoolPages.StepOf, Publishes;
    P.StepCurrent(View(s, k), View(t, k), k, PoolPages.StepOf(s, st, k));
  }

  /** Publishing is the page step of publishing for its own page and for no other. */
  lemma PublishIsOwn(s: State, t: State, st: Step, k: PageKey)
    requires Next(s, t, st)
    ensures PoolPages.StepOf(s, st, k).Publish? <==> Publishes(s, st, k)
    ensures Publishes(s, st, k) ==> View(s, k).pending.Some?
  {
    if Publishes(s, st, k) {
      assert IsPublish(s, t, st.g);
    }
    hide Next;
  }

  /** The step publishes the record its writer appended to page `k`. */
  predicate Publishes(s: State, st: Step, k: PageKey) {
    st.Publish? && k == PoolPages.GuardKey(s, st.g)
  }

  /** Every reader sees the latest published bytes: the log's records of its page, applied in
      order, whatever evictions, steals and flushes came between. `PoolLoads` says what becomes of
      this when a miss is more than one step. */
  lemma ReaderSeesLatest(s: State, g: nat)
    requires Inv(s) && g in s.guards && s.guards[g].mode == Reading
    ensures s.guards[g].key in s.frames
    ensures s.frames[s.guards[g].key].data == ContentAt(s.wal, s.guards[g].key, s.walEnd)
  {
    CurrentIsLogged(s, s.guards[g].key);
  }

  // ---------------------------------------------------------------- home writes

  /** A steal and the checkpoint never have the same page. */
  lemma StealExcludesCheckpoint(s: State, k: PageKey)
    requires Inv(s) && k in s.steals
    ensures k !in s.batch.captured && k in s.frames && !s.frames[k].flushing
    ensures k !in s.writers && Holders(s.guards, k) == {} && s.frames[k].pins == 1
  {
    hide P.LogOk, P.CurrentOk, P.HomeOk, P.MissingOk, P.DirtyOk, P.FpiOk, StatsOk, FreshOk, NumbersOk;
    assert P.PageInv(View(s, k), k);
    assert |Holders(s.guards, k)| == 0;
    assert forall g :: g in Holders(s.guards, k) <==> g in s.guards && s.guards[g].key == k;
  }

  /** Whatever reaches a home is a version of its page, no older than what is there, whose
      records the log was forced for. */
  lemma WritesAreForcedAndOrdered(s: State, t: State, st: Step)
    requires Inv(s) && Next(s, t, st) && (st.StealWrite? || st.WriteCaptured?)
    ensures var b := P.Latest(HomeOf(t, st.k));
            && HomeOf(t, st.k) == P.Written(HomeOf(s, st.k), b)
            && IsVersion(s.wal, st.k, b)
            && Stamp(P.Latest(HomeOf(s, st.k))) <= Stamp(b) <= s.walDurable
  {
    hide PoolInv, Next, P.PageStep, P.PageInv;
    var k := st.k;
    assert P.PageInv(View(s, k), k);
    PoolPages.Projects(s, t, st, k);
    P.WriteInOrder(View(s, k), View(t, k), k, PoolPages.StepOf(s, st, k));
  }

  // ---------------------------------------------------------------- checkpoint batches

  /** Dirty, redo boundary and PageLSN agree, so the dirty-page table has no error case. */
  lemma DirtyAgrees(s: State, k: PageKey)
    requires Inv(s) && k in s.frames
    ensures s.frames[k].dirty <==> s.frames[k].recLsn.Some?
    ensures s.frames[k].dirty <==> s.frames[k].latestLsn.Some?
    ensures s.frames[k].dirty ==> s.frames[k].recLsn.value < s.walEnd
  {
    assert P.PageInv(View(s, k), k);
    hide PoolInv;
  }

  /** A batch is never stuck and never fails but by I/O: every reserved frame can be
      captured or skipped, and every flushed frame can be finished, without an error. */
  lemma BatchHasNoErrorCase(s: State, k: PageKey)
    requires Inv(s)
    ensures s.batch.phase.Capturing? && k in s.batch.tickets ==>
              exists t :: Next(s, t, SkipTicket(k)) || Next(s, t, CaptureTicket(k))
    ensures s.batch.phase.Finishing? && k in s.batch.captured ==>
              exists t :: Next(s, t, FinishCaptured(k))
  {
    hide PoolInv, Next;
    assert P.PageInv(View(s, k), k);
    if s.batch.phase.Capturing? && k in s.batch.tickets {
      hide P.CaptureOk, P.LogOk, P.CurrentOk, P.HomeOk, P.MissingOk, P.FpiOk, P.StealOk, P.DirtyOk;
      TicketMoves(s, k);
    }
    if s.batch.phase.Finishing? && k in s.batch.captured {
      hide P.PageInv;
      CapturedMoves(s, k);
    }
  }

  lemma CapturedMoves(s: State, k: PageKey)
    requires P.PageInv(View(s, k), k) && s.batch.phase.Finishing? && k in s.batch.captured
    ensures exists t :: Next(s, t, FinishCaptured(k))
  {
    hide P.PageInv;
    P.FinishDefined(View(s, k), k);
    var done, stats := Finished(s.frames[k]), s.batch.stats;
    hide Finished, View;
    var t := WithFrame(s, k, done.frame)
             .(batch := s.batch.(captured := s.batch.captured - {k},
                 stats := if done.Flushed? then stats.(flushed := stats.flushed + 1)
                          else stats.(redirtied := stats.redirtied + 1)));
    assert IsFinishCaptured(s, t, k);
    FinishIsStep(s, t, k);
  }

  lemma FinishIsStep(s: State, t: State, k: PageKey)
    requires IsFinishCaptured(s, t, k)
    ensures Next(s, t, FinishCaptured(k))
  {
    hide IsFinishCaptured;
  }

  lemma TicketMoves(s: State, k: PageKey)
    requires P.DirtyOk(View(s, k), k) && s.batch.phase.Capturing? && k in s.batch.tickets
    ensures exists t :: Next(s, t, SkipTicket(k)) || Next(s, t, CaptureTicket(k))
  {
    hide Next;
    if k in s.frames && s.frames[k].id == s.batch.tickets[k] && !Latched(s, k) && s.frames[k].dirty {
      TicketCaptures(s, k);
    } else {
      TicketSkips(s, k);
    }
  }

  lemma TicketCaptures(s: State, k: PageKey)
    requires P.DirtyOk(View(s, k), k) && s.batch.phase.Capturing? && k in s.batch.tickets
    requires k in s.frames && s.frames[k].id == s.batch.tickets[k] && !Latched(s, k) && s.frames[k].dirty
    ensures exists t :: Next(s, t, CaptureTicket(k))
  {
    hide Latched;
    var t := WithFrame(s, k, Captured(s.frames[k]))
             .(batch := s.batch.(tickets := s.batch.tickets - {k},
                 captured := s.batch.captured[k := P.Capture(s.frames[k].data, P.Reserved)]));
    assert Next(s, t, CaptureTicket(k));
  }

  lemma TicketSkips(s: State, k: PageKey)
    requires s.batch.phase.Capturing? && k in s.batch.tickets
    requires !(k in s.frames && s.frames[k].id == s.batch.tickets[k] && !Latched(s, k) && s.frames[k].dirty)
    ensures exists t :: Next(s, t, SkipTicket(k))
  {
    hide Latched;
    var mine := k in s.frames && s.frames[k].id == s.batch.tickets[k];
    var t := s.(frames := if mine then s.frames[k := s.frames[k].(flushing := false)] else s.frames,
                batch := s.batch.(tickets := s.batch.tickets - {k},
                                  stats := s.batch.stats.(skipped := s.batch.stats.skipped + 1)));
    assert Next(s, t, SkipTicket(k));
  }

  /** A published record of `k` that the synced home of the page lacks. */
  ghost predicate Unflushed(s: State, k: PageKey, i: int) {
    && 0 <= i < |s.wal| && s.wal[i].key == k && Stamp(HomeOf(s, k).synced) < s.wal[i].end
    && View(s, k).pending != Some(s.wal[i])
  }

  /** What a batch that finishes a captured page leaves, whatever happened to the page since its
      capture: a clean frame, counted as flushed, if and only if its synced home holds every
      published record of it; otherwise a dirty one, counted as redirtied, whose redo boundary is
      the start of the first record that the home lacks. */
  lemma FinishLeaves(s: State, t: State, k: PageKey)
    requires Inv(s) && Next(s, t, FinishCaptured(k))
    ensures k in t.frames
    ensures t.frames[k].dirty <==> exists i :: Unflushed(t, k, i)
    ensures t.frames[k].dirty ==>
              exists i :: Unflushed(t, k, i) && t.frames[k].recLsn == Some(t.wal[i].start)
                       && forall j | Unflushed(t, k, j) :: i <= j
    ensures !t.frames[k].dirty ==> t.frames[k].recLsn.None? && t.frames[k].latestLsn.None?
    ensures t.batch.stats == if t.frames[k].dirty
                             then s.batch.stats.(redirtied := s.batch.stats.redirtied + 1)
                             else s.batch.stats.(flushed := s.batch.stats.flushed + 1)
  {
    FinishingIsDurable(s, t, k);
    hide Inv, Next, Unflushed, IsFinishCaptured, Finished, P.PageInv;
    if Finished(s.frames[k]).Flushed? {
      FlushedLeaves(s, t, k);
    } else {
      RedirtiedLeaves(s, t, k);
    }
  }

  lemma FinishingIsDurable(s: State, t: State, k: PageKey)
    requires Inv(s) && Next(s, t, FinishCaptured(k))
    ensures P.PageInv(View(s, k), k) && IsFinishCaptured(s, t, k) && s.batch.captured[k].stage.Durable?
    ensures k in t.frames
  {
    hide Inv, Next, P.PageInv, Finished;
    PageOf(s, k);
    StepIsFinish(s, t, k);
    BatchOf(s);
  }

  lemma StepIsFinish(s: State, t: State, k: PageKey)
    requires Next(s, t, FinishCaptured(k))
    ensures IsFinishCaptured(s, t, k)
  {
    hide IsFinishCaptured;
  }

  lemma BatchOf(s: State)
    requires Inv(s)
    ensures BatchOk(s)
  {
    hide BatchOk, P.PageInv;
  }

  lemma FlushedLeaves(s: State, t: State, k: PageKey)
    requires P.PageInv(View(s, k), k) && IsFinishCaptured(s, t, k) && s.batch.captured[k].stage.Durable?
    requires Finished(s.frames[k]).Flushed?
    ensures !t.frames[k].dirty && t.frames[k].recLsn.None? && t.frames[k].latestLsn.None?
    ensures forall i :: !Unflushed(t, k, i)
    ensures t.batch.stats == s.batch.stats.(flushed := s.batch.stats.flushed + 1)
  {
    hide P.MissingOk, P.DirtyOk, P.FpiOk, P.StealOk;
  }

  lemma RedirtiedLeaves(s: State, t: State, k: PageKey)
    requires P.PageInv(View(s, k), k) && IsFinishCaptured(s, t, k) && s.batch.captured[k].stage.Durable?
    requires !Finished(s.frames[k]).Flushed?
    ensures t.frames[k].dirty && t.batch.stats == s.batch.stats.(redirtied := s.batch.stats.redirtied + 1)
    ensures exists i :: Unflushed(t, k, i) && t.frames[k].recLsn == Some(t.wal[i].start)
                     && forall j | Unflushed(t, k, j) :: i <= j
  {
    hide P.MissingOk, P.FpiOk, P.StealOk;
    var f := s.frames[k];
    var l := f.flush.value.firstRedirty.value;
    var i :| 0 <= i < |s.wal| && s.wal[i].key == k && s.wal[i].IsBase() && s.wal[i].start == l
          && s.wal[i].end <= Stamp(f.data);
    assert Unflushed(t, k, i);
  }

  /** A batch that ends well accounts for every candidate it was given, repeats included. */
  lemma BatchAccounts(s: State, t: State)
    requires Inv(s) && Next(s, t, EndBatch) && s.batch.phase.Finishing?
    ensures t.batch.stats.attempted == t.batch.stats.flushed + t.batch.stats.redirtied + t.batch.stats.skipped
  {
    hide P.PageInv, PinsOk, GuardsOk, StealsOk, FreshOk, NumbersOk;
  }

  // ---------------------------------------------------------------- page numbers

  /** The number `new_page` picks is neither resident nor stored nor logged as a page that
      still holds anything: the "already resident" error of the insert cannot arise. */
  lemma NewPageIsFresh(s: State, k: PageKey)
    requires Inv(s) && k.file in s.alloc.seeded && A.Picks(s.alloc, k.file, k.num)
    ensures k !in s.frames && k !in s.homes && Current(s, k) == Zeroed
    ensures forall i | 0 <= i < |s.wal| :: s.wal[i].key != k
  {
    assert P.PageInv(View(s, k), k);
    PoolPages.PickedHasNoHome(s, k);
    hide PoolInv;
    StampIsLast(s.wal, k, 0);
  }
}
