/** The buffer pool as a step machine over frames, the log, the page homes, the guards
    handed out, the steals in flight, the checkpoint batch and the checkpoint fence.
    Each section that holds the pool lock, a frame latch or a metadata lock is one step;
    steps of any number of threads interleave freely. */
module Pool {
  import opened Options
  import opened Redo
  import opened Frames
  import A = Allocator
  import P = Page

  datatype Mode = Waiting(exclusive: bool) | Reading | Writing

  /** A handed-out page guard: pinned, and holding the latch unless it still waits. */
  datatype Guard = Guard(key: PageKey, mode: Mode)

  /** The guard that holds a page's latch exclusively. `isNew` came from `new_page`;
      `fenced` holds its share of the checkpoint fence. */
  datatype Writer = Writer(guard: nat, isNew: bool, published: bool, fenced: bool, pending: Option<Record>)

  datatype Phase = Idle | Capturing | Flushing | Finishing | Clearing

  datatype Stats = Stats(attempted: nat, flushed: nat, skipped: nat, redirtied: nat)

  /** A checkpoint batch: frames reserved but not yet looked at, by frame object, and
      captured images with how far their I/O got. */
  datatype Batch = Batch(phase: Phase, tickets: map<PageKey, nat>, captured: map<PageKey, P.Capture>,
                         files: set<nat>, stats: Stats)

  datatype State = State(
    wal: seq<Record>, walEnd: Lsn, walDurable: Lsn,
    homes: map<PageKey, P.Home>,
    capacity: nat, frames: map<PageKey, Frame>, nextId: nat,
    alloc: A.Alloc,
    guards: map<nat, Guard>, writers: map<PageKey, Writer>,
    steals: map<PageKey, P.IoStage>,
    batch: Batch,
    fence: bool)   // held exclusively

  function HomeOf(s: State, k: PageKey): P.Home {
    if k in s.homes then s.homes[k] else P.ABSENT
  }

  /** What the state says about one page. */
  function View(s: State, k: PageKey): P.View {
    P.View(s.wal, s.walEnd, s.walDurable,
           if k in s.frames then Some(s.frames[k]) else None,
           HomeOf(s, k),
           if k in s.writers then s.writers[k].pending else None,
           if k in s.steals then Some(s.steals[k]) else None,
           if k in s.batch.captured then Some(s.batch.captured[k]) else None)
  }

  function Holders(guards: map<nat, Guard>, k: PageKey): set<nat> {
    set g | g in guards && guards[g].key == k
  }

  predicate Latched(s: State, k: PageKey) {
    k in s.writers || exists g :: g in s.guards && s.guards[g] == Guard(k, Reading)
  }

  function SyncFiles(homes: map<PageKey, P.Home>, files: set<nat>): map<PageKey, P.Home> {
    map k | k in homes :: if k.file in files then P.Synced(homes[k]) else homes[k]
  }

  /** The frames a batch reserves: resident, not being stolen, not already reserved. */
  function Reservable(s: State, candidates: seq<PageKey>): set<PageKey> {
    set k | k in candidates && k in s.frames && !s.frames[k].evicting && !s.frames[k].flushing
  }

  // ---------------------------------------------------------------- steps

  datatype Step =
    | OtherRecord(end: Lsn)
    | ForceLog(upto: Lsn)
    | Pin(g: nat, k: PageKey, exclusive: bool)
    | Miss(g: nat, k: PageKey, exclusive: bool)
    | LatchShared(g: nat)
    | LatchExclusive(g: nat)
    | JoinFence(g: nat)
    | Append(g: nat, kind: Kind, end: Lsn, take: bool)
    | Publish(g: nat)
    | Drop(g: nat)
    | SeedExtent(file: nat, extent: nat)
    | NewPage(g: nat, k: PageKey)
    | Abandon(g: nat)
    | SweepPast(k: PageKey)
    | EvictClean(k: PageKey)
    | StealReserve(k: PageKey)
    | StealForce(k: PageKey)
    | StealWrite(k: PageKey)
    | StealSync(k: PageKey)
    | StealFinish(k: PageKey)
    | StealAbort(k: PageKey)
    | ReserveBatch(candidates: seq<PageKey>)
    | SkipTicket(k: PageKey)
    | CaptureTicket(k: PageKey)
    | ForceBatch
    | WriteCaptured(k: PageKey)
    | SyncBatch
    | FinishCaptured(k: PageKey)
    | FailBatch
    | ClearCaptured(k: PageKey)
    | EndBatch
    | TakeFence
    | ReleaseFence

  predicate GuardMayWrite(s: State, g: nat) {
    && g in s.guards && s.guards[g].mode == Writing
    && s.guards[g].key in s.frames && s.guards[g].key in s.writers && s.writers[s.guards[g].key].guard == g
  }

  /** Removing a frame keeps everything else the pool holds. */
  function WithoutFrame(s: State, k: PageKey): State {
    s.(frames := s.frames - {k})
  }

  function WithFrame(s: State, k: PageKey, f: Frame): State {
    s.(frames := s.frames[k := f])
  }

  /** `b` becomes the clean frame of `k`, pinned for guard `g`. */
  function Inserted(s: State, g: nat, k: PageKey, b: Bytes, x: bool): State {
    WithFrame(s, k, Pinned(NewFrame(s.nextId, b, true)))
    .(nextId := s.nextId + 1, alloc := A.AtLeast(s.alloc, k.file, k.num + 1),
      guards := s.guards[g := Guard(k, Waiting(x))])
  }

  ghost predicate IsOtherRecord(s: State, t: State, end: Lsn) {
    s.walEnd <= end && t == s.(walEnd := end)
  }

  ghost predicate IsForceLog(s: State, t: State, upto: Lsn) {
    s.walDurable <= upto <= s.walEnd && t == s.(walDurable := upto)
  }

  ghost predicate IsPin(s: State, t: State, g: nat, k: PageKey, x: bool) {
    && g !in s.guards && k in s.frames && !s.frames[k].evicting
    && t == WithFrame(s, k, Pinned(s.frames[k])).(guards := s.guards[g := Guard(k, Waiting(x))])
  }

  /** A miss that nobody else comes between: `PoolLoads` takes it apart. */
  ghost predicate IsMiss(s: State, t: State, g: nat, k: PageKey, x: bool) {
    && g !in s.guards && k !in s.frames && k in s.homes && |s.frames| < s.capacity
    && t == Inserted(s, g, k, P.Latest(s.homes[k]), x)
  }

  ghost predicate IsLatchShared(s: State, t: State, g: nat) {
    && g in s.guards && s.guards[g].mode == Waiting(false) && s.guards[g].key !in s.writers
    && t == s.(guards := s.guards[g := s.guards[g].(mode := Reading)])
  }

  ghost predicate IsLatchExclusive(s: State, t: State, g: nat) {
    && g in s.guards && s.guards[g].mode == Waiting(true) && !Latched(s, s.guards[g].key)
    && t == s.(guards := s.guards[g := s.guards[g].(mode := Writing)],
               writers := s.writers[s.guards[g].key := Writer(g, false, false, false, None)])
  }

  ghost predicate IsJoinFence(s: State, t: State, g: nat) {
    && GuardMayWrite(s, g) && !s.fence
    && var k := s.guards[g].key;
    && t == s.(writers := s.writers[k := s.writers[k].(fenced := true)])
  }

  ghost predicate IsAppend(s: State, t: State, g: nat, kind: Kind, end: Lsn, take: bool) {
    && GuardMayWrite(s, g) && s.walEnd < end
    && var k := s.guards[g].key;
    && var f, wr, r := s.frames[k], s.writers[k], Record(k, s.walEnd, end, kind);
    && wr.pending.None? && wr.fenced
    && (kind.Delta? ==> f.data.Formatted? && !f.needsFpi)
    && t == WithFrame(s, k, f.(needsFpi := f.needsFpi && !take))
            .(wal := s.wal + [r], walEnd := end, writers := s.writers[k := wr.(pending := Some(r))])
  }

  ghost predicate IsPublish(s: State, t: State, g: nat) {
    && GuardMayWrite(s, g)
    && var k := s.guards[g].key;
    && var wr := s.writers[k];
    && wr.pending.Some?
    && t == WithFrame(s, k, Published(s.frames[k], wr.pending.value))
            .(writers := s.writers[k := wr.(pending := None, published := true)])
  }

  ghost predicate IsDrop(s: State, t: State, g: nat) {
    && g in s.guards
    && var k := s.guards[g].key;
    && k in s.frames && s.frames[k].pins > 0
    && (s.guards[g].mode == Writing ==> k in s.writers && s.writers[k].pending.None?)
    && t == WithFrame(s, k, Unpinned(s.frames[k]))
            .(guards := s.guards - {g},
              writers := if s.guards[g].mode == Writing then s.writers - {k} else s.writers)
  }

  ghost predicate IsSeedExtent(s: State, t: State, file: nat, extent: nat) {
    && (forall k | k in s.homes && k.file == file :: k.num < extent)
    && t == s.(alloc := A.Seed(s.alloc, file, extent))
  }

  ghost predicate IsNewPage(s: State, t: State, g: nat, k: PageKey) {
    && g !in s.guards && k.file in s.alloc.seeded && |s.frames| < s.capacity
    && A.Picks(s.alloc, k.file, k.num) && k !in s.frames
    && t == WithFrame(s, k, Pinned(NewFrame(s.nextId, Zeroed, false)))
            .(nextId := s.nextId + 1, alloc := A.MarkAllocated(s.alloc, k.file, k.num),
              guards := s.guards[g := Guard(k, Writing)],
              writers := s.writers[k := Writer(g, true, false, false, None)])
  }

  ghost predicate IsAbandon(s: State, t: State, g: nat) {
    && GuardMayWrite(s, g)
    && var k := s.guards[g].key;
    && var wr := s.writers[k];
    && wr.isNew && !wr.published && wr.pending.None? && s.frames[k].pins <= 1
    && t == WithoutFrame(s, k)
            .(alloc := A.Abandon(s.alloc, k.file, k.num), guards := s.guards - {g}, writers := s.writers - {k})
  }

  /** The clock passes a frame and clears its reference bit. */
  ghost predicate IsSweepPast(s: State, t: State, k: PageKey) {
    k in s.frames && t == WithFrame(s, k, s.frames[k].(referenced := false))
  }

  ghost predicate IsEvictClean(s: State, t: State, k: PageKey) {
    && k in s.frames && s.frames[k].pins == 0 && !s.frames[k].flushing && !s.frames[k].dirty
    && t == WithoutFrame(s, k)
  }

  ghost predicate IsStealReserve(s: State, t: State, k: PageKey) {
    && k in s.frames && s.frames[k].pins == 0 && !s.frames[k].flushing && s.frames[k].dirty
    && t == WithFrame(s, k, Pinned(s.frames[k].(evicting := true))).(steals := s.steals[k := P.Reserved])
  }

  ghost predicate IsStealForce(s: State, t: State, k: PageKey) {
    && k in s.steals && s.steals[k].Reserved?
    && t == s.(walDurable := s.walEnd, steals := s.steals[k := P.Forced])
  }

  ghost predicate IsStealWrite(s: State, t: State, k: PageKey) {
    && k in s.steals && s.steals[k].Forced? && k in s.frames
    && t == s.(homes := s.homes[k := P.Written(HomeOf(s, k), s.frames[k].data)], steals := s.steals[k := P.InFlight])
  }

  ghost predicate IsStealSync(s: State, t: State, k: PageKey) {
    && k in s.steals && s.steals[k].InFlight?
    && t == s.(homes := SyncFiles(s.homes, {k.file}), steals := s.steals[k := P.Durable])
  }

  ghost predicate IsStealFinish(s: State, t: State, k: PageKey) {
    && k in s.steals && s.steals[k].Durable? && k in s.frames && s.frames[k].pins == 1
    && t == WithoutFrame(s, k).(steals := s.steals - {k})
  }

  ghost predicate IsStealAbort(s: State, t: State, k: PageKey) {
    && k in s.steals && !s.steals[k].Durable? && k in s.frames && s.frames[k].pins > 0
    && t == WithFrame(s, k, Unpinned(s.frames[k].(evicting := false))).(steals := s.steals - {k})
  }

  ghost predicate IsReserveBatch(s: State, t: State, candidates: seq<PageKey>) {
    && s.batch.phase.Idle?
    && var r := Reservable(s, candidates);
    && t == s.(frames := map k | k in s.frames :: if k in r then s.frames[k].(flushing := true) else s.frames[k],
               batch := Batch(Capturing, map k | k in r :: s.frames[k].id, map[],
                              set k | k in candidates :: k.file,
                              Stats(|candidates|, 0, if |r| <= |candidates| then |candidates| - |r| else 0, 0)))
  }

  ghost predicate IsSkipTicket(s: State, t: State, k: PageKey) {
    && s.batch.phase.Capturing? && k in s.batch.tickets
    && var mine := k in s.frames && s.frames[k].id == s.batch.tickets[k];
    && (mine ==> Latched(s, k) || !s.frames[k].dirty)
    && t == s.(frames := if mine then s.frames[k := s.frames[k].(flushing := false)] else s.frames,
               batch := s.batch.(tickets := s.batch.tickets - {k},
                                 stats := s.batch.stats.(skipped := s.batch.stats.skipped + 1)))
  }

  ghost predicate IsCaptureTicket(s: State, t: State, k: PageKey) {
    && s.batch.phase.Capturing? && k in s.batch.tickets
    && k in s.frames && s.frames[k].id == s.batch.tickets[k]
    && !Latched(s, k) && s.frames[k].dirty && s.frames[k].latestLsn.Some?
    && t == WithFrame(s, k, Captured(s.frames[k]))
            .(batch := s.batch.(tickets := s.batch.tickets - {k},
                                captured := s.batch.captured[k := P.Capture(s.frames[k].data, P.Reserved)]))
  }

  ghost predicate IsForceBatch(s: State, t: State) {
    && s.batch.phase.Capturing? && s.batch.tickets == map[]
    && t == s.(walDurable := if s.batch.captured == map[] then s.walDurable else s.walEnd,
               batch := s.batch.(phase := Flushing,
                 captured := map k | k in s.batch.captured :: s.batch.captured[k].(stage := P.Forced)))
  }

  ghost predicate IsWriteCaptured(s: State, t: State, k: PageKey) {
    && s.batch.phase.Flushing? && k in s.batch.captured && s.batch.captured[k].stage.Forced?
    && var c := s.batch.captured[k];
    && t == s.(homes := s.homes[k := P.Written(HomeOf(s, k), c.image)],
               batch := s.batch.(captured := s.batch.captured[k := c.(stage := P.InFlight)]))
  }

  ghost predicate IsSyncBatch(s: State, t: State) {
    && s.batch.phase.Flushing?
    && (forall k | k in s.batch.captured :: s.batch.captured[k].stage.InFlight?)
    && t == s.(homes := SyncFiles(s.homes, s.batch.files),
               batch := s.batch.(phase := Finishing,
                 captured := map k | k in s.batch.captured :: s.batch.captured[k].(stage := P.Durable)))
  }

  ghost predicate IsFinishCaptured(s: State, t: State, k: PageKey) {
    && s.batch.phase.Finishing? && k in s.batch.captured && k in s.frames
    && var done, stats := Finished(s.frames[k]), s.batch.stats;
    && (done.Flushed? || done.Redirtied?)
    && t == WithFrame(s, k, done.frame)
            .(batch := s.batch.(captured := s.batch.captured - {k},
                stats := if done.Flushed? then stats.(flushed := stats.flushed + 1)
                         else stats.(redirtied := stats.redirtied + 1)))
  }

  ghost predicate IsFailBatch(s: State, t: State) {
    && (s.batch.phase.Flushing? || (s.batch.phase.Capturing? && s.batch.tickets == map[]))
    && t == s.(batch := s.batch.(phase := Clearing))
  }

  ghost predicate IsClearCaptured(s: State, t: State, k: PageKey) {
    && s.batch.phase.Clearing? && k in s.batch.captured && k in s.frames
    && t == WithFrame(s, k, Cleared(s.frames[k])).(batch := s.batch.(captured := s.batch.captured - {k}))
  }

  ghost predicate IsEndBatch(s: State, t: State) {
    && (s.batch.phase.Finishing? || s.batch.phase.Clearing?) && s.batch.captured == map[]
    && t == s.(batch := s.batch.(phase := Idle))
  }

  ghost predicate IsTakeFence(s: State, t: State) {
    !s.fence && (forall k | k in s.writers :: !s.writers[k].fenced) && t == s.(fence := true)
  }

  ghost predicate IsReleaseFence(s: State, t: State) {
    s.fence && t == s.(fence := false)
  }

  ghost predicate Next(s: State, t: State, st: Step) {
    match st
    case OtherRecord(end) => IsOtherRecord(s, t, end)
    case ForceLog(upto) => IsForceLog(s, t, upto)
    case Pin(g, k, x) => IsPin(s, t, g, k, x)
    case Miss(g, k, x) => IsMiss(s, t, g, k, x)
    case LatchShared(g) => IsLatchShared(s, t, g)
    case LatchExclusive(g) => IsLatchExclusive(s, t, g)
    case JoinFence(g) => IsJoinFence(s, t, g)
    case Append(g, kind, end, take) => IsAppend(s, t, g, kind, end, take)
    case Publish(g) => IsPublish(s, t, g)
    case Drop(g) => IsDrop(s, t, g)
    case SeedExtent(file, extent) => IsSeedExtent(s, t, file, extent)
    case NewPage(g, k) => IsNewPage(s, t, g, k)
    case Abandon(g) => IsAbandon(s, t, g)
    case SweepPast(k) => IsSweepPast(s, t, k)
    case EvictClean(k) => IsEvictClean(s, t, k)
    case StealReserve(k) => IsStealReserve(s, t, k)
    case StealForce(k) => IsStealForce(s, t, k)
    case StealWrite(k) => IsStealWrite(s, t, k)
    case StealSync(k) => IsStealSync(s, t, k)
    case StealFinish(k) => IsStealFinish(s, t, k)
    case StealAbort(k) => IsStealAbort(s, t, k)
    case ReserveBatch(candidates) => IsReserveBatch(s, t, candidates)
    case SkipTicket(k) => IsSkipTicket(s, t, k)
    case CaptureTicket(k) => IsCaptureTicket(s, t, k)
    case ForceBatch => IsForceBatch(s, t)
    case WriteCaptured(k) => IsWriteCaptured(s, t, k)
    case SyncBatch => IsSyncBatch(s, t)
    case FinishCaptured(k) => IsFinishCaptured(s, t, k)
    case FailBatch => IsFailBatch(s, t)
    case ClearCaptured(k) => IsClearCaptured(s, t, k)
    case EndBatch => IsEndBatch(s, t)
    case TakeFence => IsTakeFence(s, t)
    case ReleaseFence => IsReleaseFence(s, t)
  }

  // ---------------------------------------------------------------- invariant

  /** Guards hold resident pages; a page has one exclusive holder, and then no reader. */
  ghost predicate GuardsOk(s: State) {
    && (forall g | g in s.guards :: s.guards[g].key in s.frames)
    && (forall k | k in s.writers :: s.writers[k].guard in s.guards && s.guards[s.writers[k].guard] == Guard(k, Writing))
    && (forall g | g in s.guards && s.guards[g].mode == Writing ::
          s.guards[g].key in s.writers && s.writers[s.guards[g].key].guard == g)
    && (forall g | g in s.guards && s.guards[g].mode == Reading :: s.guards[g].key !in s.writers)
    && (forall k | k in s.writers && s.writers[k].pending.Some? :: s.writers[k].fenced)
    && (forall k | k in s.writers && s.writers[k].fenced :: !s.fence)
  }

  /** A frame is pinned once per guard and once by the steal that reserved it. */
  ghost predicate PinsOk(s: State) {
    forall k | k in s.frames :: s.frames[k].pins == |Holders(s.guards, k)| + (if k in s.steals then 1 else 0)
  }

  /** Stolen frames are out of everybody's hands, and out of the checkpoint's. */
  ghost predicate StealsOk(s: State) {
    && (forall k | k in s.steals ::
          k in s.frames && s.frames[k].evicting && !s.frames[k].flushing && Holders(s.guards, k) == {})
    && (forall k | k in s.frames && s.frames[k].evicting :: k in s.steals)
  }

  /** The checkpoint's flag is set on exactly the frames its batch holds. */
  ghost predicate BatchOk(s: State) {
    && (forall k | k in s.batch.captured :: k in s.frames && s.frames[k].flushing && k !in s.batch.tickets && k.file in s.batch.files)
    && (forall k | k in s.batch.tickets && k in s.frames && s.frames[k].id == s.batch.tickets[k] :: s.frames[k].flushing)
    && (forall k | k in s.frames && s.frames[k].flushing ::
          k in s.batch.captured || (k in s.batch.tickets && s.frames[k].id == s.batch.tickets[k]))
    && (forall k | k in s.batch.tickets :: s.batch.tickets[k] < s.nextId && k.file in s.batch.files)
    && (!s.batch.phase.Capturing? ==> s.batch.tickets == map[])
    && (s.batch.phase.Idle? ==> s.batch.captured == map[])
    && (forall k | k in s.batch.captured ::
          match s.batch.phase
          case Capturing => s.batch.captured[k].stage.Reserved?
          case Flushing => s.batch.captured[k].stage.Forced? || s.batch.captured[k].stage.InFlight?
          case Finishing => s.batch.captured[k].stage.Durable?
          case _ => true)
  }

  /** Every candidate is accounted for: skipped, still held, flushed or redirtied. */
  ghost predicate StatsOk(s: State) {
    var b := s.batch;
    !b.phase.Clearing? && !b.phase.Idle? ==>
      b.stats.attempted == b.stats.skipped + |b.tickets| + |b.captured| + b.stats.flushed + b.stats.redirtied
  }

  /** A page no record was published for is still zeroed, and has no home. */
  ghost predicate FreshOk(s: State) {
    forall k | k in s.writers && s.writers[k].isNew && !s.writers[k].published ::
      k in s.frames && s.frames[k].data == Zeroed && !s.frames[k].dirty && k !in s.homes && k.file in s.alloc.seeded
  }

  /** Page numbers with a frame are in use, and in a seeded file so are those with a home. */
  ghost predicate NumbersOk(s: State) {
    && A.AllocInv(s.alloc)
    && (forall k | k in s.frames :: A.InUse(s.alloc, k.file, k.num))
    && (forall k | k in s.homes && k.file in s.alloc.seeded :: A.InUse(s.alloc, k.file, k.num))
    && (forall k | k in s.homes :: P.Latest(s.homes[k]).Formatted?)
    && (forall k | k in s.frames :: s.frames[k].id < s.nextId)
    && |s.frames| <= s.capacity
  }

  ghost predicate PoolInv(s: State) {
    GuardsOk(s) && PinsOk(s) && StealsOk(s) && BatchOk(s) && StatsOk(s) && FreshOk(s) && NumbersOk(s)
  }

  ghost predicate Inv(s: State) {
    && PoolInv(s)
    && (forall k :: P.PageInv(View(s, k), k))
  }

  /** A pool opened over a recovered store: nothing resident, every home up to date. */
  ghost predicate Initial(s: State) {
    && s.frames == map[] && s.guards == map[] && s.writers == map[] && s.steals == map[]
    && s.batch == Batch(Idle, map[], map[], {}, Stats(0, 0, 0, 0)) && !s.fence
    && s.alloc == A.Alloc(map[], map[], {})
    && Ordered(s.wal) && s.walDurable <= s.walEnd
    && (forall i | 0 <= i < |s.wal| :: s.wal[i].end <= s.walDurable)
    && (forall k :: Grounded(s.wal, k))
    && (forall k | k in s.homes :: s.homes[k].unsynced == [] && s.homes[k].synced.Formatted?)
    && (forall k :: HomeOf(s, k).synced == ContentAt(s.wal, k, s.walDurable))
  }
}
