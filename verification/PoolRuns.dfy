/** Runs of the pool from a freshly opened state, and what holds in all their states. */
module PoolRuns {
  import opened Redo
  import opened Frames
  import P = Page
  import opened Pool
  import PoolPages
  import K = PoolKept

  predicate IsAccessStep(st: Step) {
    st.OtherRecord? || st.ForceLog? || st.Pin? || st.Miss? || st.LatchShared? || st.LatchExclusive? || st.JoinFence? || st.Append? || st.Publish? || st.Drop? || st.SeedExtent? || st.NewPage? || st.Abandon?
  }

  lemma AccessStepKeeps(s: State, t: State, st: Step)
    requires PoolInv(s) && (forall k :: P.PageInv(View(s, k), k)) && Next(s, t, st) && IsAccessStep(st)
    ensures PoolInv(t)
  {
    hide PoolInv, View, P.PageInv, PoolPages.GuardKey, IsOtherRecord, IsForceLog, IsPin, IsMiss, IsLatchShared, IsLatchExclusive, IsJoinFence, IsAppend, IsPublish, IsDrop, IsSeedExtent, IsNewPage, IsAbandon;
    match st
    case OtherRecord(end) => K.OtherRecordKeeps(s, t, end);
    case ForceLog(upto) => K.ForceLogKeeps(s, t, upto);
    case Pin(g, k, exclusive) => K.PinKeeps(s, t, g, k, exclusive);
    case Miss(g, k, exclusive) => K.MissKeeps(s, t, g, k, exclusive);
    case LatchShared(g) => K.LatchSharedKeeps(s, t, g);
    case LatchExclusive(g) => K.LatchExclusiveKeeps(s, t, g);
    case JoinFence(g) => K.JoinFenceKeeps(s, t, g);
    case Append(g, kind, end, take) => K.AppendKeeps(s, t, g, kind, end, take);
    case Publish(g) => K.PublishKeeps(s, t, g);
    case Drop(g) => K.DropKeeps(s, t, g);
    case SeedExtent(file, extent) => K.SeedExtentKeeps(s, t, file, extent);
    case NewPage(g, k) => K.NewPageKeeps(s, t, g, k);
    case Abandon(g) => K.AbandonKeeps(s, t, g);
  }

  predicate IsEvictionStep(st: Step) {
    st.SweepPast? || st.EvictClean? || st.StealReserve? || st.StealForce? || st.StealWrite? || st.StealSync? || st.StealFinish? || st.StealAbort?
  }

  lemma EvictionStepKeeps(s: State, t: State, st: Step)
    requires PoolInv(s) && (forall k :: P.PageInv(View(s, k), k)) && Next(s, t, st) && IsEvictionStep(st)
    ensures PoolInv(t)
  {
    hide PoolInv, View, P.PageInv, Next;
    if st.SweepPast? || st.EvictClean? || st.StealReserve? || st.StealAbort? {
      VictimStepKeeps(s, t, st);
    } else {
      StealStepKeeps(s, t, st);
    }
  }

  lemma VictimStepKeeps(s: State, t: State, st: Step)
    requires PoolInv(s) && (forall k :: P.PageInv(View(s, k), k)) && Next(s, t, st)
    requires st.SweepPast? || st.EvictClean? || st.StealReserve? || st.StealAbort?
    ensures PoolInv(t)
  {
    hide PoolInv, View, P.PageInv, IsSweepPast, IsEvictClean, IsStealReserve, IsStealAbort;
    match st
    case SweepPast(k) => K.SweepPastKeeps(s, t, k);
    case EvictClean(k) => K.EvictCleanKeeps(s, t, k);
    case StealReserve(k) => K.StealReserveKeeps(s, t, k);
    case StealAbort(k) => K.StealAbortKeeps(s, t, k);
    case _ =>
  }

  lemma StealStepKeeps(s: State, t: State, st: Step)
    requires PoolInv(s) && (forall k :: P.PageInv(View(s, k), k)) && Next(s, t, st)
    requires st.StealForce? || st.StealWrite? || st.StealSync? || st.StealFinish?
    ensures PoolInv(t)
  {
    hide PoolInv, View, P.PageInv, IsStealForce, IsStealWrite, IsStealSync, IsStealFinish;
    match st
    case StealForce(k) => K.StealForceKeeps(s, t, k);
    case StealWrite(k) => K.StealWriteKeeps(s, t, k);
    case StealSync(k) => K.StealSyncKeeps(s, t, k);
    case StealFinish(k) => K.StealFinishKeeps(s, t, k);
    case _ =>
  }

  lemma CaptureStepKeeps(s: State, t: State, st: Step)
    requires PoolInv(s) && (forall k :: P.PageInv(View(s, k), k)) && Next(s, t, st)
    requires st.ReserveBatch? || st.SkipTicket? || st.CaptureTicket?
    ensures PoolInv(t)
  {
    hide PoolInv, View, P.PageInv, IsReserveBatch, IsSkipTicket, IsCaptureTicket;
    match st
    case ReserveBatch(candidates) => K.ReserveBatchKeeps(s, t, candidates);
    case SkipTicket(k) => K.SkipTicketKeeps(s, t, k);
    case CaptureTicket(k) => K.CaptureTicketKeeps(s, t, k);
    case _ =>
  }

  lemma WriteStepKeeps(s: State, t: State, st: Step)
    requires PoolInv(s) && (forall k :: P.PageInv(View(s, k), k)) && Next(s, t, st)
    requires st.ForceBatch? || st.WriteCaptured? || st.SyncBatch?
    ensures PoolInv(t)
  {
    hide PoolInv, View, P.PageInv, IsForceBatch, IsWriteCaptured, IsSyncBatch;
    match st
    case ForceBatch => K.ForceBatchKeeps(s, t);
    case WriteCaptured(k) => K.WriteCapturedKeeps(s, t, k);
    case SyncBatch => K.SyncBatchKeeps(s, t);
    case _ =>
  }

  lemma FinishStepKeeps(s: State, t: State, st: Step)
    requires PoolInv(s) && (forall k :: P.PageInv(View(s, k), k)) && Next(s, t, st)
    requires st.FinishCaptured? || st.FailBatch? || st.ClearCaptured?
    ensures PoolInv(t)
  {
    hide PoolInv, View, P.PageInv, IsFinishCaptured, IsFailBatch, IsClearCaptured;
    match st
    case FinishCaptured(k) => K.FinishCapturedKeeps(s, t, k);
    case FailBatch => K.FailBatchKeeps(s, t);
    case ClearCaptured(k) => K.ClearCapturedKeeps(s, t, k);
    case _ =>
  }

  lemma FenceStepKeeps(s: State, t: State, st: Step)
    requires PoolInv(s) && Next(s, t, st) && (st.EndBatch? || st.TakeFence? || st.ReleaseFence?)
    ensures PoolInv(t)
  {
    hide PoolInv, IsEndBatch, IsTakeFence, IsReleaseFence;
    match st
    case EndBatch => K.EndBatchKeeps(s, t);
    case TakeFence => K.TakeFenceKeeps(s, t);
    case ReleaseFence => K.ReleaseFenceKeeps(s, t);
    case _ =>
  }

  /** Every step keeps the invariant. */
  lemma StepKeeps(s: State, t: State, st: Step)
    requires Inv(s) && Next(s, t, st)
    ensures Inv(t)
  {
    PoolPages.PagesKept(s, t, st);
    hide PoolInv, View, P.PageInv, Next;
    if IsAccessStep(st) {
      AccessStepKeeps(s, t, st);
    } else if IsEvictionStep(st) {
      EvictionStepKeeps(s, t, st);
    } else if st.ReserveBatch? || st.SkipTicket? || st.CaptureTicket? {
      CaptureStepKeeps(s, t, st);
    } else if st.ForceBatch? || st.WriteCaptured? || st.SyncBatch? {
      WriteStepKeeps(s, t, st);
    } else if st.FinishCaptured? || st.FailBatch? || st.ClearCaptured? {
      FinishStepKeeps(s, t, st);
    } else {
      FenceStepKeeps(s, t, st);
    }
  }

  lemma InitialPage(s: State, k: PageKey)
    requires Initial(s)
    ensures P.PageInv(View(s, k), k)
  {
    ContentIsVersion(s.wal, k, s.walDurable);
    StampIsLast(s.wal, k, s.walDurable);
  }

  lemma InitialInv(s: State)
    requires Initial(s)
    ensures Inv(s)
  {
    forall k ensures P.PageInv(View(s, k), k) {
      InitialPage(s, k);
    }
  }

  /** `states` is a run of the pool that takes `steps`. */
  ghost predicate IsRun(states: seq<State>, steps: seq<Step>) {
    && |states| == |steps| + 1
    && (forall i | 0 <= i < |steps| :: Next(states[i], states[i + 1], steps[i]))
  }

  /** The invariant holds in every state of every run that starts where it holds. */
  lemma {:induction false} RunKeeps(states: seq<State>, steps: seq<Step>, i: nat)
    requires IsRun(states, steps) && i < |states| && Inv(states[0])
    ensures Inv(states[i])
  {
    hide Inv, Next;
    if i > 0 {
      RunKeeps(states, steps, i - 1);
      StepKeeps(states[i - 1], states[i], steps[i - 1]);
    }
  }

  /** In every state of every run from an opened pool, the invariant holds. */
  lemma ReachableInv(states: seq<State>, steps: seq<Step>, i: nat)
    requires IsRun(states, steps) && i < |states| && Initial(states[0])
    ensures Inv(states[i])
  {
    InitialInv(states[0]);
    RunKeeps(states, steps, i);
  }

  /** Some run leads from `s` to `t`. */
  ghost predicate Reaches(s: State, t: State) {
    exists states, steps :: IsRun(states, steps) && states[0] == s && states[|steps|] == t
  }

  lemma Stays(s: State)
    ensures Reaches(s, s)
  {
    assert IsRun([s], []);
  }

  lemma Then(s: State, t: State, u: State, st: Step)
    requires Reaches(s, t) && Next(t, u, st)
    ensures Reaches(s, u)
  {
    hide Next;
    var states, steps :| IsRun(states, steps) && states[0] == s && states[|steps|] == t;
    var states', steps' := states + [u], steps + [st];
    forall i | 0 <= i < |steps'| ensures Next(states'[i], states'[i + 1], steps'[i]) {
      if i < |steps| {
        assert Next(states[i], states[i + 1], steps[i]);
      }
    }
    assert IsRun(states', steps');
  }
}
