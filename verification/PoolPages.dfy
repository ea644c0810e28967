/** Every step of the pool is, for each page, one step of that page. */
module PoolPages {
  import opened Options
  import opened Redo
  import opened Frames
  import A = Allocator
  import P = Page
  import opened Pool

  function GuardKey(s: State, g: nat): PageKey {
    if g in s.guards then s.guards[g].key else PageKey(0, 0)
  }

  /** The step page `k` takes when the pool takes `st`. */
  function StepOf(s: State, st: Step, k: PageKey): P.Step {
    match st
    case Miss(_, q, _) => if k == q then P.Load else P.Elsewhere
    case NewPage(_, q) => if k == q then P.Fresh else P.Elsewhere
    case Append(g, kind, end, take) =>
      if k == GuardKey(s, g) then P.Append(Record(k, s.walEnd, end, kind), take) else P.Elsewhere
    case Publish(g) => if k == GuardKey(s, g) then P.Publish else P.Elsewhere
    case Abandon(g) => if k == GuardKey(s, g) then P.Forget else P.Elsewhere
    case EvictClean(q) => if k == q then P.Forget else P.Elsewhere
    case StealReserve(q) => if k == q then P.StealReserve else P.Elsewhere
    case StealForce(q) => if k == q then P.StealForce else P.Elsewhere
    case StealWrite(q) => if k == q then P.StealWrite else P.Elsewhere
    case StealSync(q) => if k == q then P.StealSync else P.Elsewhere
    case StealFinish(q) => if k == q then P.StealFinish else P.Elsewhere
    case StealAbort(q) => if k == q then P.StealAbort else P.Elsewhere
    case CaptureTicket(q) => if k == q then P.CheckpointCapture else P.Elsewhere
    case ForceBatch => if k in s.batch.captured then P.CheckpointForce else P.Elsewhere
    case WriteCaptured(q) => if k == q then P.CheckpointWrite else P.Elsewhere
    case SyncBatch => if k in s.batch.captured then P.CheckpointSync else P.Elsewhere
    case FinishCaptured(q) => if k == q then P.CheckpointFinish else P.Elsewhere
    case ClearCaptured(q) => if k == q then P.CheckpointClear else P.Elsewhere
    case _ => P.Elsewhere
  }

  /** Page `k` is the same in both states, but for pins and flags. */
  ghost predicate Untouched(s: State, t: State, k: PageKey) {
    && (k in s.frames <==> k in t.frames)
    && (k in s.frames ==> P.SameBytes(Some(s.frames[k]), Some(t.frames[k])))
    && View(t, k).pending == View(s, k).pending
    && View(t, k).steal == View(s, k).steal
    && View(t, k).capture == View(s, k).capture
  }

  lemma UntouchedProjects(s: State, t: State, k: PageKey)
    requires Untouched(s, t, k)
    requires t.wal == s.wal && s.walEnd <= t.walEnd && s.walDurable <= t.walDurable <= t.walEnd
    requires HomeOf(t, k) == HomeOf(s, k) || HomeOf(t, k) == P.Synced(HomeOf(s, k))
    ensures P.PageStep(View(s, k), View(t, k), k, P.Elsewhere)
  {
  }

  /** A page without a frame is in nobody's hands. */
  lemma AbsentIsFree(s: State, k: PageKey)
    requires GuardsOk(s) && StealsOk(s) && BatchOk(s) && k !in s.frames
    ensures k !in s.writers && k !in s.steals && k !in s.batch.captured
  {
  }

  lemma MissProjects(s: State, t: State, g: nat, q: PageKey, x: bool, k: PageKey)
    requires GuardsOk(s) && StealsOk(s) && BatchOk(s) && NumbersOk(s) && s.walDurable <= s.walEnd
    requires IsMiss(s, t, g, q, x)
    ensures P.PageStep(View(s, k), View(t, k), k, if k == q then P.Load else P.Elsewhere)
  {
    hide GuardsOk, StealsOk, BatchOk;
    AbsentIsFree(s, q);
    if k == q {
      var v, w := View(s, k), View(t, k);
      assert P.SameBytes(Some(NewFrame(w.frame.value.id, P.Latest(v.home), true)), w.frame);
    } else {
      UntouchedProjects(s, t, k);
    }
  }

  /** A number `new_page` takes has no home: neither this pool nor the extent it was
      seeded from has the page. */
  lemma PickedHasNoHome(s: State, k: PageKey)
    requires NumbersOk(s) && k.file in s.alloc.seeded && A.Picks(s.alloc, k.file, k.num)
    ensures k !in s.homes && k !in s.frames
  {
    A.AllocateKeeps(s.alloc, k.file, k.num);
  }

  lemma NewPageProjects(s: State, t: State, g: nat, q: PageKey, k: PageKey)
    requires GuardsOk(s) && StealsOk(s) && BatchOk(s) && NumbersOk(s) && s.walDurable <= s.walEnd
    requires IsNewPage(s, t, g, q)
    ensures P.PageStep(View(s, k), View(t, k), k, if k == q then P.Fresh else P.Elsewhere)
  {
    hide GuardsOk, StealsOk, BatchOk, NumbersOk, A.Picks, A.MarkAllocated, P.PageStep;
    AbsentIsFree(s, q);
    PickedHasNoHome(s, q);
    if k == q {
      var v, w := View(s, k), View(t, k);
      FreshFrame(v, w, k, t.frames[k]);
    } else {
      assert Untouched(s, t, k);
      UntouchedProjects(s, t, k);
    }
  }

  lemma FreshFrame(v: P.View, w: P.View, k: PageKey, f: Frame)
    requires v.frame.None? && v.pending.None? && v.steal.None? && v.capture.None? && v.home == P.ABSENT
    requires w == v.(frame := Some(f)) && f == Pinned(NewFrame(f.id, Zeroed, false))
    ensures P.PageStep(v, w, k, P.Fresh)
  {
    assert P.SameBytes(Some(NewFrame(f.id, Zeroed, false)), Some(f));
  }

  lemma AppendProjects(s: State, t: State, g: nat, kind: Kind, end: Lsn, take: bool, k: PageKey)
    requires StealsOk(s) && s.walDurable <= s.walEnd
    requires IsAppend(s, t, g, kind, end, take)
    ensures P.PageStep(View(s, k), View(t, k), k,
              if k == GuardKey(s, g) then P.Append(Record(k, s.walEnd, end, kind), take) else P.Elsewhere)
  {
    assert GuardKey(s, g) !in s.steals by {
      assert g in Holders(s.guards, GuardKey(s, g));
    }
    hide StealsOk;
    if k != GuardKey(s, g) {
      var r := Record(GuardKey(s, g), s.walEnd, end, kind);
      assert t.wal[|s.wal|] == r;
      assert P.LogMoved(View(s, k), View(t, k), k);
    }
  }

  lemma PublishProjects(s: State, t: State, g: nat, k: PageKey)
    requires s.walDurable <= s.walEnd
    requires IsPublish(s, t, g)
    ensures P.PageStep(View(s, k), View(t, k), k, if k == GuardKey(s, g) then P.Publish else P.Elsewhere)
  {
    if k != GuardKey(s, g) {
      UntouchedProjects(s, t, k);
    }
  }

  lemma AbandonProjects(s: State, t: State, g: nat, k: PageKey)
    requires StealsOk(s) && FreshOk(s) && P.CaptureOk(View(s, k), k) && s.walDurable <= s.walEnd
    requires IsAbandon(s, t, g)
    ensures P.PageStep(View(s, k), View(t, k), k, if k == GuardKey(s, g) then P.Forget else P.Elsewhere)
  {
    assert g in Holders(s.guards, GuardKey(s, g));
    if k != GuardKey(s, g) {
      UntouchedProjects(s, t, k);
    }
  }

  /** An unpinned frame is in nobody's hands. */
  lemma UnpinnedIsFree(s: State, k: PageKey)
    requires GuardsOk(s) && PinsOk(s) && BatchOk(s)
    requires k in s.frames && s.frames[k].pins == 0
    ensures k !in s.writers && k !in s.steals && Holders(s.guards, k) == {}
    ensures !s.frames[k].flushing ==> k !in s.batch.captured
  {
    assert forall g :: g in Holders(s.guards, k) <==> g in s.guards && s.guards[g].key == k;
  }

  lemma EvictForgets(s: State, t: State, q: PageKey)
    requires IsEvictClean(s, t, q) && q !in s.writers && q !in s.steals && q !in s.batch.captured
    ensures P.PageStep(View(s, q), View(t, q), q, P.Forget)
  {
    assert View(t, q) == View(s, q).(frame := None);
  }

  lemma EvictPasses(s: State, t: State, q: PageKey, k: PageKey)
    requires s.walDurable <= s.walEnd && IsEvictClean(s, t, q) && k != q
    ensures P.PageStep(View(s, k), View(t, k), k, P.Elsewhere)
  {
    hide P.PageStep;
    UntouchedProjects(s, t, k);
  }

  lemma EvictProjects(s: State, t: State, q: PageKey, k: PageKey)
    requires GuardsOk(s) && PinsOk(s) && BatchOk(s) && s.walDurable <= s.walEnd
    requires IsEvictClean(s, t, q)
    ensures P.PageStep(View(s, k), View(t, k), k, if k == q then P.Forget else P.Elsewhere)
  {
    hide GuardsOk, PinsOk, BatchOk, P.PageStep, View;
    UnpinnedIsFree(s, q);
    if k == q {
      EvictForgets(s, t, q);
    } else {
      EvictPasses(s, t, q, k);
    }
  }

  lemma StealReserveProjects(s: State, t: State, q: PageKey, k: PageKey)
    requires GuardsOk(s) && PinsOk(s) && BatchOk(s) && s.walDurable <= s.walEnd
    requires IsStealReserve(s, t, q)
    ensures P.PageStep(View(s, k), View(t, k), k, if k == q then P.StealReserve else P.Elsewhere)
  {
    UnpinnedIsFree(s, q);
    hide GuardsOk, PinsOk, BatchOk;
    if k != q {
      UntouchedProjects(s, t, k);
    }
  }

  lemma StealForceProjects(s: State, t: State, q: PageKey, k: PageKey)
    requires s.walDurable <= s.walEnd
    requires IsStealForce(s, t, q)
    ensures P.PageStep(View(s, k), View(t, k), k, if k == q then P.StealForce else P.Elsewhere)
  {
    if k != q {
      UntouchedProjects(s, t, k);
    }
  }

  lemma StealWriteProjects(s: State, t: State, q: PageKey, k: PageKey)
    requires s.walDurable <= s.walEnd
    requires IsStealWrite(s, t, q)
    ensures P.PageStep(View(s, k), View(t, k), k, if k == q then P.StealWrite else P.Elsewhere)
  {
    if k != q {
      UntouchedProjects(s, t, k);
    }
  }

  lemma StealSyncProjects(s: State, t: State, q: PageKey, k: PageKey)
    requires s.walDurable <= s.walEnd
    requires IsStealSync(s, t, q)
    ensures P.PageStep(View(s, k), View(t, k), k, if k == q then P.StealSync else P.Elsewhere)
  {
    if k != q {
      UntouchedProjects(s, t, k);
    }
  }

  lemma StealFinishProjects(s: State, t: State, q: PageKey, k: PageKey)
    requires s.walDurable <= s.walEnd
    requires IsStealFinish(s, t, q)
    ensures P.PageStep(View(s, k), View(t, k), k, if k == q then P.StealFinish else P.Elsewhere)
  {
    if k != q {
      UntouchedProjects(s, t, k);
    }
  }

  lemma StealAbortProjects(s: State, t: State, q: PageKey, k: PageKey)
    requires s.walDurable <= s.walEnd
    requires IsStealAbort(s, t, q)
    ensures P.PageStep(View(s, k), View(t, k), k, if k == q then P.StealAbort else P.Elsewhere)
  {
    if k != q {
      UntouchedProjects(s, t, k);
    }
  }

  lemma CaptureProjects(s: State, t: State, q: PageKey, k: PageKey)
    requires StealsOk(s) && BatchOk(s) && s.walDurable <= s.walEnd
    requires IsCaptureTicket(s, t, q)
    ensures P.PageStep(View(s, k), View(t, k), k, if k == q then P.CheckpointCapture else P.Elsewhere)
  {
    if k != q {
      UntouchedProjects(s, t, k);
    }
  }

  lemma ForceBatchProjects(s: State, t: State, k: PageKey)
    requires BatchOk(s) && s.walDurable <= s.walEnd
    requires IsForceBatch(s, t)
    ensures P.PageStep(View(s, k), View(t, k), k, if k in s.batch.captured then P.CheckpointForce else P.Elsewhere)
  {
    if k !in s.batch.captured {
      UntouchedProjects(s, t, k);
    }
  }

  lemma WriteCapturedProjects(s: State, t: State, q: PageKey, k: PageKey)
    requires s.walDurable <= s.walEnd
    requires IsWriteCaptured(s, t, q)
    ensures P.PageStep(View(s, k), View(t, k), k, if k == q then P.CheckpointWrite else P.Elsewhere)
  {
    if k != q {
      UntouchedProjects(s, t, k);
    }
  }

  lemma SyncBatchProjects(s: State, t: State, k: PageKey)
    requires BatchOk(s) && s.walDurable <= s.walEnd
    requires IsSyncBatch(s, t)
    ensures P.PageStep(View(s, k), View(t, k), k, if k in s.batch.captured then P.CheckpointSync else P.Elsewhere)
  {
    if k !in s.batch.captured {
      UntouchedProjects(s, t, k);
    }
  }

  lemma FinishCapturedProjects(s: State, t: State, q: PageKey, k: PageKey)
    requires BatchOk(s) && s.walDurable <= s.walEnd
    requires IsFinishCaptured(s, t, q)
    ensures P.PageStep(View(s, k), View(t, k), k, if k == q then P.CheckpointFinish else P.Elsewhere)
  {
    if k != q {
      UntouchedProjects(s, t, k);
    }
  }

  lemma ClearCapturedProjects(s: State, t: State, q: PageKey, k: PageKey)
    requires s.walDurable <= s.walEnd
    requires IsClearCaptured(s, t, q)
    ensures P.PageStep(View(s, k), View(t, k), k, if k == q then P.CheckpointClear else P.Elsewhere)
  {
    if k != q {
      UntouchedProjects(s, t, k);
    }
  }

  predicate IsQuiet(st: Step) {
    st.OtherRecord? || st.ForceLog? || st.Pin? || st.LatchShared? || st.LatchExclusive? || st.JoinFence? || st.Drop?
    || st.SeedExtent? || st.SweepPast? || st.ReserveBatch? || st.SkipTicket? || st.FailBatch? || st.EndBatch?
    || st.TakeFence? || st.ReleaseFence?
  }

  lemma OtherRecordProjects(s: State, t: State, end: Lsn, k: PageKey)
    requires s.walDurable <= s.walEnd && IsOtherRecord(s, t, end)
    ensures P.PageStep(View(s, k), View(t, k), k, P.Elsewhere)
  {
    UntouchedProjects(s, t, k);
  }

  lemma ForceLogProjects(s: State, t: State, upto: Lsn, k: PageKey)
    requires s.walDurable <= s.walEnd && IsForceLog(s, t, upto)
    ensures P.PageStep(View(s, k), View(t, k), k, P.Elsewhere)
  {
    UntouchedProjects(s, t, k);
  }

  lemma PinProjects(s: State, t: State, g: nat, q: PageKey, x: bool, k: PageKey)
    requires s.walDurable <= s.walEnd && IsPin(s, t, g, q, x)
    ensures P.PageStep(View(s, k), View(t, k), k, P.Elsewhere)
  {
    UntouchedProjects(s, t, k);
  }

  lemma LatchSharedProjects(s: State, t: State, g: nat, k: PageKey)
    requires s.walDurable <= s.walEnd && IsLatchShared(s, t, g)
    ensures P.PageStep(View(s, k), View(t, k), k, P.Elsewhere)
  {
    UntouchedProjects(s, t, k);
  }

  lemma LatchExclusiveProjects(s: State, t: State, g: nat, k: PageKey)
    requires s.walDurable <= s.walEnd && IsLatchExclusive(s, t, g)
    ensures P.PageStep(View(s, k), View(t, k), k, P.Elsewhere)
  {
    UntouchedProjects(s, t, k);
  }

  lemma JoinFenceProjects(s: State, t: State, g: nat, k: PageKey)
    requires s.walDurable <= s.walEnd && IsJoinFence(s, t, g)
    ensures P.PageStep(View(s, k), View(t, k), k, P.Elsewhere)
  {
    UntouchedProjects(s, t, k);
  }

  lemma DropProjects(s: State, t: State, g: nat, k: PageKey)
    requires GuardsOk(s) && s.walDurable <= s.walEnd && IsDrop(s, t, g)
    ensures P.PageStep(View(s, k), View(t, k), k, P.Elsewhere)
  {
    UntouchedProjects(s, t, k);
  }

  lemma SeedExtentProjects(s: State, t: State, file: nat, extent: nat, k: PageKey)
    requires s.walDurable <= s.walEnd && IsSeedExtent(s, t, file, extent)
    ensures P.PageStep(View(s, k), View(t, k), k, P.Elsewhere)
  {
    UntouchedProjects(s, t, k);
  }

  lemma SweepPastProjects(s: State, t: State, q: PageKey, k: PageKey)
    requires s.walDurable <= s.walEnd && IsSweepPast(s, t, q)
    ensures P.PageStep(View(s, k), View(t, k), k, P.Elsewhere)
  {
    UntouchedProjects(s, t, k);
  }

  lemma ReserveBatchProjects(s: State, t: State, candidates: seq<PageKey>, k: PageKey)
    requires BatchOk(s) && s.walDurable <= s.walEnd && IsReserveBatch(s, t, candidates)
    ensures P.PageStep(View(s, k), View(t, k), k, P.Elsewhere)
  {
    UntouchedProjects(s, t, k);
  }

  lemma SkipTicketProjects(s: State, t: State, q: PageKey, k: PageKey)
    requires s.walDurable <= s.walEnd && IsSkipTicket(s, t, q)
    ensures P.PageStep(View(s, k), View(t, k), k, P.Elsewhere)
  {
    hide P.PageStep, Latched;
    UntouchedProjects(s, t, k);
  }

  lemma FailBatchProjects(s: State, t: State, k: PageKey)
    requires s.walDurable <= s.walEnd && IsFailBatch(s, t)
    ensures P.PageStep(View(s, k), View(t, k), k, P.Elsewhere)
  {
    UntouchedProjects(s, t, k);
  }

  lemma EndBatchProjects(s: State, t: State, k: PageKey)
    requires s.walDurable <= s.walEnd && IsEndBatch(s, t)
    ensures P.PageStep(View(s, k), View(t, k), k, P.Elsewhere)
  {
    UntouchedProjects(s, t, k);
  }

  lemma TakeFenceProjects(s: State, t: State, k: PageKey)
    requires s.walDurable <= s.walEnd && IsTakeFence(s, t)
    ensures P.PageStep(View(s, k), View(t, k), k, P.Elsewhere)
  {
    UntouchedProjects(s, t, k);
  }

  lemma ReleaseFenceProjects(s: State, t: State, k: PageKey)
    requires s.walDurable <= s.walEnd && IsReleaseFence(s, t)
    ensures P.PageStep(View(s, k), View(t, k), k, P.Elsewhere)
  {
    UntouchedProjects(s, t, k);
  }

  lemma QuietProjects(s: State, t: State, st: Step, k: PageKey)
    requires GuardsOk(s) && BatchOk(s) && s.walDurable <= s.walEnd
    requires IsQuiet(st) && Next(s, t, st)
    ensures P.PageStep(View(s, k), View(t, k), k, P.Elsewhere)
  {
    hide P.PageStep, View, GuardsOk, BatchOk, Next;
    if st.OtherRecord? || st.ForceLog? || st.Pin? || st.LatchShared? || st.LatchExclusive? || st.JoinFence? || st.Drop? {
      QuietGuardProjects(s, t, st, k);
    } else {
      QuietBatchProjects(s, t, st, k);
    }
  }

  lemma QuietGuardProjects(s: State, t: State, st: Step, k: PageKey)
    requires GuardsOk(s) && s.walDurable <= s.walEnd && Next(s, t, st)
    requires st.OtherRecord? || st.ForceLog? || st.Pin? || st.LatchShared? || st.LatchExclusive? || st.JoinFence? || st.Drop?
    ensures P.PageStep(View(s, k), View(t, k), k, P.Elsewhere)
  {
    hide P.PageStep, View, GuardsOk, IsOtherRecord, IsForceLog, IsPin, IsLatchShared, IsLatchExclusive, IsJoinFence,
         IsDrop;
    match st
    case OtherRecord(end) => OtherRecordProjects(s, t, end, k);
    case ForceLog(upto) => ForceLogProjects(s, t, upto, k);
    case Pin(g, q, x) => PinProjects(s, t, g, q, x, k);
    case LatchShared(g) => LatchSharedProjects(s, t, g, k);
    case LatchExclusive(g) => LatchExclusiveProjects(s, t, g, k);
    case JoinFence(g) => JoinFenceProjects(s, t, g, k);
    case Drop(g) => DropProjects(s, t, g, k);
    case _ =>
  }

  lemma QuietBatchProjects(s: State, t: State, st: Step, k: PageKey)
    requires BatchOk(s) && s.walDurable <= s.walEnd && Next(s, t, st)
    requires st.SeedExtent? || st.SweepPast? || st.ReserveBatch? || st.SkipTicket? || st.FailBatch? || st.EndBatch?
             || st.TakeFence? || st.ReleaseFence?
    ensures P.PageStep(View(s, k), View(t, k), k, P.Elsewhere)
  {
    hide P.PageStep, View, BatchOk, IsSeedExtent, IsSweepPast, IsReserveBatch, IsSkipTicket, IsFailBatch, IsEndBatch,
         IsTakeFence, IsReleaseFence;
    match st
    case SeedExtent(file, extent) => SeedExtentProjects(s, t, file, extent, k);
    case SweepPast(q) => SweepPastProjects(s, t, q, k);
    case ReserveBatch(candidates) => ReserveBatchProjects(s, t, candidates, k);
    case SkipTicket(q) => SkipTicketProjects(s, t, q, k);
    case FailBatch => FailBatchProjects(s, t, k);
    case EndBatch => EndBatchProjects(s, t, k);
    case TakeFence => TakeFenceProjects(s, t, k);
    case ReleaseFence => ReleaseFenceProjects(s, t, k);
    case _ =>
  }

  /** Every step of the pool is a step of every page. */
  lemma Projects(s: State, t: State, st: Step, k: PageKey)
    requires PoolInv(s) && P.PageInv(View(s, k), k) && Next(s, t, st)
    ensures P.PageStep(View(s, k), View(t, k), k, StepOf(s, st, k))
  {
    hide P.PageStep, GuardsOk, PinsOk, StealsOk, BatchOk, StatsOk, FreshOk, NumbersOk, P.CurrentOk, P.HomeOk, P.MissingOk, P.DirtyOk, P.FpiOk, P.CaptureOk, P.StealOk, Next;
    if IsQuiet(st) {
      QuietProjects(s, t, st, k);
    } else if st.Miss? || st.NewPage? || st.Append? || st.Publish? || st.Abandon? || st.EvictClean? {
      AccessProjects(s, t, st, k);
    } else {
      IoProjects(s, t, st, k);
    }
  }

  lemma AccessProjects(s: State, t: State, st: Step, k: PageKey)
    requires PoolInv(s) && s.walDurable <= s.walEnd && P.CaptureOk(View(s, k), k) && Next(s, t, st)
    requires st.Miss? || st.NewPage? || st.Append? || st.Publish? || st.Abandon? || st.EvictClean?
    ensures P.PageStep(View(s, k), View(t, k), k, StepOf(s, st, k))
  {
    hide P.PageStep, View, GuardsOk, PinsOk, StealsOk, BatchOk, StatsOk, FreshOk, NumbersOk, IsMiss, IsNewPage, IsAppend, IsPublish, IsAbandon, IsEvictClean;
    match st
    case Miss(g, q, x) => MissProjects(s, t, g, q, x, k);
    case NewPage(g, q) => NewPageProjects(s, t, g, q, k);
    case Append(g, kind, end, take) => AppendProjects(s, t, g, kind, end, take, k);
    case Publish(g) => PublishProjects(s, t, g, k);
    case Abandon(g) => AbandonProjects(s, t, g, k);
    case EvictClean(q) => EvictProjects(s, t, q, k);
  }

  lemma IoProjects(s: State, t: State, st: Step, k: PageKey)
    requires PoolInv(s) && s.walDurable <= s.walEnd && Next(s, t, st)
    requires !IsQuiet(st)
    requires !(st.Miss? || st.NewPage? || st.Append? || st.Publish? || st.Abandon? || st.EvictClean?)
    ensures P.PageStep(View(s, k), View(t, k), k, StepOf(s, st, k))
  {
    hide P.PageStep, View, GuardsOk, PinsOk, StealsOk, BatchOk, StatsOk, FreshOk, NumbersOk, IsStealReserve, IsStealForce, IsStealWrite, IsStealSync, IsStealFinish, IsStealAbort, IsCaptureTicket, IsForceBatch, IsWriteCaptured, IsSyncBatch, IsFinishCaptured, IsClearCaptured;
    match st
    case StealReserve(q) => StealReserveProjects(s, t, q, k);
    case StealForce(q) => StealForceProjects(s, t, q, k);
    case StealWrite(q) => StealWriteProjects(s, t, q, k);
    case StealSync(q) => StealSyncProjects(s, t, q, k);
    case StealFinish(q) => StealFinishProjects(s, t, q, k);
    case StealAbort(q) => StealAbortProjects(s, t, q, k);
    case CaptureTicket(q) => CaptureProjects(s, t, q, k);
    case ForceBatch => ForceBatchProjects(s, t, k);
    case WriteCaptured(q) => WriteCapturedProjects(s, t, q, k);
    case SyncBatch => SyncBatchProjects(s, t, k);
    case FinishCaptured(q) => FinishCapturedProjects(s, t, q, k);
    case ClearCaptured(q) => ClearCapturedProjects(s, t, q, k);
  }

  /** Every step keeps every page's invariant. */
  lemma PagesKept(s: State, t: State, st: Step)
    requires Inv(s) && Next(s, t, st)
    ensures forall k :: P.PageInv(View(t, k), k)
  {
    forall k ensures P.PageInv(View(t, k), k) {
      PageKept(s, t, st, k);
    }
  }

  lemma PageKept(s: State, t: State, st: Step, k: PageKey)
    requires PoolInv(s) && P.PageInv(View(s, k), k) && Next(s, t, st)
    ensures P.PageInv(View(t, k), k)
  {
    hide P.PageStep, PoolInv, P.PageInv, Next;
    Projects(s, t, st, k);
    P.StepKeeps(View(s, k), View(t, k), k, StepOf(s, st, k));
  }
}
