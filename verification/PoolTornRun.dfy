/** A run of the pool after which redo from the checkpoint's floor cannot rebuild a torn
    page: page `X` is flushed and redirtied while page `Y` pins the floor between `X`'s
    first base and a delta of `X`. */
module PoolTornRun {
  import opened Options
  import opened Redo
  import opened Frames
  import A = Allocator
  import P = Page
  import opened Pool
  import opened PoolRuns
  import T = PoolTheorems

  const X := PageKey(1, 0)
  const Y := PageKey(1, 1)

  const FORMAT_X := Record(X, 0, 1, Init)
  const FORMAT_Y := Record(Y, 1, 2, Init)
  const IMAGE_X := Record(X, 2, 3, FullImage([]))
  const IMAGE_Y := Record(Y, 3, 4, FullImage([]))
  const DELTA_X := Record(X, 4, 5, Delta(7))
  const AGAIN_X := Record(X, 5, 6, FullImage([7]))

  const EMPTY := Batch(Idle, map[], map[], {}, Stats(0, 0, 0, 0))

  function Opened(): State {
    State([FORMAT_X, FORMAT_Y], 2, 2,
          map[X := P.Home(Formatted(1, []), []), Y := P.Home(Formatted(2, []), [])],
          2, map[], 0, A.Alloc(map[], map[], {}), map[], map[], map[], EMPTY, false)
  }

  lemma OpenedIsInitial()
    ensures Initial(Opened())
  {
    var s := Opened();
    assert s.wal[..1] == [FORMAT_X] && [FORMAT_X][..0] == [];
    forall k ensures Grounded(s.wal, k) && HomeOf(s, k).synced == ContentAt(s.wal, k, 2) {
      assert Grounded([], k) && Grounded([FORMAT_X], k);
      assert ContentAt([], k, 2) == Zeroed;
      assert ContentAt([FORMAT_X], k, 2) == if k == X then Formatted(1, []) else Zeroed;
    }
  }

  /** The frame of a page its writer holds, having published `data` from `rec` on. */
  function Held(id: nat, data: Bytes, dirty: bool, rec: Option<Lsn>, generation: nat, needsFpi: bool): Frame {
    Frame(id, data, 1, dirty, rec, if dirty then Some(Stamp(data)) else None, generation, None, true, needsFpi, false, false)
  }

  /** A miss on `k`, its latch, and the writer's share of the fence. */
  lemma OpenForWrite(o: State, s: State, g: nat, k: PageKey) returns (t: State)
    requires Reaches(o, s) && !s.fence && g !in s.guards && k !in s.frames && k in s.homes && |s.frames| < s.capacity
    requires k !in s.writers && (forall h | h in s.guards :: s.guards[h].key != k)
    ensures Reaches(o, t)
    ensures t == s.(frames := s.frames[k := Held(s.nextId, P.Latest(s.homes[k]), false, None, 0, true)],
                    nextId := s.nextId + 1, alloc := t.alloc,
                    guards := s.guards[g := Guard(k, Writing)],
                    writers := s.writers[k := Writer(g, false, false, true, None)])
  {
    hide Reaches;
    var a := Inserted(s, g, k, P.Latest(s.homes[k]), true);
    Then(o, s, a, Miss(g, k, true));
    t := LatchAndJoin(o, a, g, k);
    assert t.guards == s.guards[g := Guard(k, Writing)];
  }

  lemma LatchAndJoin(o: State, a: State, g: nat, k: PageKey) returns (t: State)
    requires Reaches(o, a) && !a.fence && g in a.guards && a.guards[g] == Guard(k, Waiting(true)) && k in a.frames
    requires k !in a.writers && (forall h | h in a.guards && h != g :: a.guards[h].key != k)
    ensures Reaches(o, t)
    ensures t == a.(guards := a.guards[g := Guard(k, Writing)], writers := a.writers[k := Writer(g, false, false, true, None)])
  {
    hide Reaches;
    var b := a.(guards := a.guards[g := Guard(k, Writing)], writers := a.writers[k := Writer(g, false, false, false, None)]);
    assert IsLatchExclusive(a, b, g);
    Then(o, a, b, LatchExclusive(g));
    t := b.(writers := a.writers[k := Writer(g, false, false, true, None)]);
    assert b.writers[k := Writer(g, false, false, true, None)] == t.writers;
    assert IsJoinFence(b, t, g);
    Then(o, b, t, JoinFence(g));
  }

  /** The state after a writer appended the record `r`. */
  function AfterAppend(s: State, r: Record, take: bool): State
    requires r.key in s.frames && r.key in s.writers
  {
    WithFrame(s, r.key, s.frames[r.key].(needsFpi := s.frames[r.key].needsFpi && !take))
    .(wal := s.wal + [r], walEnd := r.end, writers := s.writers[r.key := s.writers[r.key].(pending := Some(r))])
  }

  lemma Logs(o: State, s: State, g: nat, r: Record, take: bool)
    requires Reaches(o, s) && GuardMayWrite(s, g) && s.guards[g].key == r.key
    requires r.start == s.walEnd < r.end
    requires s.writers[r.key].fenced && s.writers[r.key].pending.None?
    requires r.kind.Delta? ==> s.frames[r.key].data.Formatted? && !s.frames[r.key].needsFpi
    ensures Reaches(o, AfterAppend(s, r, take)) && GuardMayWrite(AfterAppend(s, r, take), g)
  {
    hide Reaches;
    var a := AfterAppend(s, r, take);
    assert IsAppend(s, a, g, r.kind, r.end, take);
    Then(o, s, a, Append(g, r.kind, r.end, take));
  }

  /** Guard `g` logs one record of its page and publishes it. */
  lemma LogAndPublish(o: State, s: State, g: nat, r: Record, take: bool) returns (t: State)
    requires Reaches(o, s) && GuardMayWrite(s, g) && s.guards[g].key == r.key
    requires r.start == s.walEnd < r.end
    requires s.writers[r.key].fenced && s.writers[r.key].pending.None?
    requires r.kind.Delta? ==> s.frames[r.key].data.Formatted? && !s.frames[r.key].needsFpi
    ensures Reaches(o, t)
    ensures t == s.(wal := s.wal + [r], walEnd := r.end,
                    frames := s.frames[r.key := Published(s.frames[r.key].(needsFpi := s.frames[r.key].needsFpi && !take), r)],
                    writers := s.writers[r.key := s.writers[r.key].(published := true)])
  {
    hide Reaches, Published;
    Logs(o, s, g, r, take);
    var k, f, wr, a := r.key, s.frames[r.key], s.writers[r.key], AfterAppend(s, r, take);
    t := WithFrame(a, k, Published(a.frames[k], r)).(writers := a.writers[k := wr.(pending := None, published := true)]);
    assert IsPublish(a, t, g);
    Then(o, a, t, Publish(g));
    assert t.frames == s.frames[k := Published(f.(needsFpi := f.needsFpi && !take), r)];
    assert t.writers == s.writers[k := wr.(published := true)];
  }

  /** `X` has an image and then a delta logged, `Y` an image between the two. */
  lemma BothDirty() returns (t: State)
    ensures Reaches(Opened(), t)
    ensures t == Opened().(
              wal := [FORMAT_X, FORMAT_Y, IMAGE_X, IMAGE_Y, DELTA_X], walEnd := 5, nextId := 2, alloc := t.alloc,
              frames := map[X := Held(0, Formatted(5, [7]), true, Some(2), 2, false),
                            Y := Held(1, Formatted(4, []), true, Some(3), 1, false)],
              guards := map[0 := Guard(X, Writing), 1 := Guard(Y, Writing)],
              writers := map[X := Writer(0, false, true, true, None), Y := Writer(1, false, true, true, None)])
  {
    var o := Opened();
    Stays(o);
    hide Reaches;
    var a := OpenForWrite(o, o, 0, X);
    var b := LogAndPublish(o, a, 0, IMAGE_X, true);
    assert b == ImageLogged(b.alloc) by {
      assert b.frames == map[X := Held(0, Formatted(3, []), true, Some(2), 1, false)];
    }
    t := DeltaLogged(b);
  }

  function ImageLogged(al: A.Alloc): State {
    Opened().(wal := [FORMAT_X, FORMAT_Y, IMAGE_X], walEnd := 3, nextId := 1, alloc := al,
              frames := map[X := Held(0, Formatted(3, []), true, Some(2), 1, false)],
              guards := map[0 := Guard(X, Writing)], writers := map[X := Writer(0, false, true, true, None)])
  }

  function ImagesLogged(al: A.Alloc): State {
    Opened().(wal := [FORMAT_X, FORMAT_Y, IMAGE_X, IMAGE_Y], walEnd := 4, nextId := 2, alloc := al,
              frames := map[X := Held(0, Formatted(3, []), true, Some(2), 1, false),
                            Y := Held(1, Formatted(4, []), true, Some(3), 1, false)],
              guards := map[0 := Guard(X, Writing), 1 := Guard(Y, Writing)],
              writers := map[X := Writer(0, false, true, true, None), Y := Writer(1, false, true, true, None)])
  }

  lemma SecondImage(b: State) returns (t: State)
    requires Reaches(Opened(), b) && b == ImageLogged(b.alloc)
    ensures Reaches(Opened(), t) && t == ImagesLogged(t.alloc)
  {
    hide Reaches;
    var o := Opened();
    var c := OpenForWrite(o, b, 1, Y);
    t := LogAndPublish(o, c, 1, IMAGE_Y, true);
    assert t.frames == ImagesLogged(t.alloc).frames;
    assert t.guards == ImagesLogged(t.alloc).guards;
    assert t.writers == ImagesLogged(t.alloc).writers;
  }

  lemma DeltaLogged(b: State) returns (t: State)
    requires Reaches(Opened(), b) && b == ImageLogged(b.alloc)
    ensures Reaches(Opened(), t)
    ensures t == Opened().(
              wal := [FORMAT_X, FORMAT_Y, IMAGE_X, IMAGE_Y, DELTA_X], walEnd := 5, nextId := 2, alloc := t.alloc,
              frames := map[X := Held(0, Formatted(5, [7]), true, Some(2), 2, false),
                            Y := Held(1, Formatted(4, []), true, Some(3), 1, false)],
              guards := map[0 := Guard(X, Writing), 1 := Guard(Y, Writing)],
              writers := map[X := Writer(0, false, true, true, None), Y := Writer(1, false, true, true, None)])
  {
    hide Reaches;
    var d := SecondImage(b);
    t := LogAndPublish(Opened(), d, 0, DELTA_X, false);
    assert [] + [7] == [7];
    assert t.frames == map[X := Held(0, Formatted(5, [7]), true, Some(2), 2, false),
                           Y := Held(1, Formatted(4, []), true, Some(3), 1, false)];
    assert t.writers == map[X := Writer(0, false, true, true, None), Y := Writer(1, false, true, true, None)];
  }

  lemma DropWriter(o: State, s: State, g: nat) returns (t: State)
    requires Reaches(o, s) && GuardMayWrite(s, g)
    requires s.frames[s.guards[g].key].pins > 0 && s.writers[s.guards[g].key].pending.None?
    ensures Reaches(o, t)
    ensures var k := s.guards[g].key;
            t == s.(frames := s.frames[k := Unpinned(s.frames[k])], guards := s.guards - {g}, writers := s.writers - {k})
  {
    hide Reaches;
    var k := s.guards[g].key;
    t := WithFrame(s, k, Unpinned(s.frames[k])).(guards := s.guards - {g}, writers := s.writers - {k});
    assert IsDrop(s, t, g);
    Then(o, s, t, Drop(g));
  }

  function FrameY(): Frame {
    Held(1, Formatted(4, []), true, Some(3), 1, false)
  }

  /** Everything but the batch and the frame of `X` while only `Y` is held. */
  function OnlyYHeld(alloc: A.Alloc, x: Frame, homes: map<PageKey, P.Home>, durable: Lsn, batch: Batch): State {
    Opened().(wal := [FORMAT_X, FORMAT_Y, IMAGE_X, IMAGE_Y, DELTA_X], walEnd := 5, walDurable := durable,
              nextId := 2, alloc := alloc, homes := homes, frames := map[X := x, Y := FrameY()],
              guards := map[1 := Guard(Y, Writing)], writers := map[Y := Writer(1, false, true, true, None)],
              batch := batch)
  }

  function FrameX(flushing: bool): Frame {
    Held(0, Formatted(5, [7]), true, Some(2), 2, false).(pins := 0, flushing := flushing)
  }

  const HOMES := map[X := P.Home(Formatted(1, []), []), Y := P.Home(Formatted(2, []), [])]
  const HOMES_AFTER := map[X := P.Home(Formatted(5, [7]), []), Y := P.Home(Formatted(2, []), [])]

  const IMAGE := Formatted(5, [7])

  function Capturing2(al: A.Alloc): State {
    OnlyYHeld(al, FrameX(true), HOMES, 2, Batch(Capturing, map[X := 0, Y := 1], map[], {1}, Stats(2, 0, 0, 0)))
    .(frames := map[X := FrameX(true), Y := FrameY().(flushing := true)])
  }

  function Capturing1(al: A.Alloc): State {
    OnlyYHeld(al, FrameX(true), HOMES, 2, Batch(Capturing, map[X := 0], map[], {1}, Stats(2, 0, 1, 0)))
  }

  function CapturedX(al: A.Alloc): State {
    OnlyYHeld(al, Captured(FrameX(true)), HOMES, 2,
              Batch(Capturing, map[], map[X := P.Capture(IMAGE, P.Reserved)], {1}, Stats(2, 0, 1, 0)))
  }

  function ForcedX(al: A.Alloc): State {
    OnlyYHeld(al, Captured(FrameX(true)), HOMES, 5,
              Batch(Flushing, map[], map[X := P.Capture(IMAGE, P.Forced)], {1}, Stats(2, 0, 1, 0)))
  }

  function WrittenX(al: A.Alloc): State {
    OnlyYHeld(al, Captured(FrameX(true)), HOMES[X := P.Written(HOMES[X], IMAGE)], 5,
              Batch(Flushing, map[], map[X := P.Capture(IMAGE, P.InFlight)], {1}, Stats(2, 0, 1, 0)))
  }

  function SyncedX(al: A.Alloc): State {
    OnlyYHeld(al, Captured(FrameX(true)), HOMES_AFTER, 5,
              Batch(Finishing, map[], map[X := P.Capture(IMAGE, P.Durable)], {1}, Stats(2, 0, 1, 0)))
  }

  function CleanX(): Frame {
    FrameX(false).(dirty := false, recLsn := None, latestLsn := None, needsFpi := true)
  }

  function FinishedX(al: A.Alloc, phase: Phase): State {
    OnlyYHeld(al, CleanX(), HOMES_AFTER, 5, Batch(phase, map[], map[], {1}, Stats(2, 1, 1, 0)))
  }

  lemma ReservesWhat(al: A.Alloc)
    ensures var b, c, r := OnlyYHeld(al, FrameX(false), HOMES, 2, EMPTY), Capturing2(al), {X, Y};
            && Reservable(b, [X, Y]) == r
            && (map k | k in r :: b.frames[k].id) == map[X := 0, Y := 1]
            && (map k | k in b.frames :: if k in r then b.frames[k].(flushing := true) else b.frames[k]) == c.frames
  {
  }

  lemma Reserves(al: A.Alloc)
    ensures Next(OnlyYHeld(al, FrameX(false), HOMES, 2, EMPTY), Capturing2(al), ReserveBatch([X, Y]))
  {
    hide Reservable;
    var b, c := OnlyYHeld(al, FrameX(false), HOMES, 2, EMPTY), Capturing2(al);
    var candidates, files := [X, Y], {1};
    ReservesWhat(al);
    assert (set k | k in candidates :: k.file) == files by {
      assert X in candidates;
    }
    assert IsReserveBatch(b, c, candidates);
  }

  lemma SkipsY(al: A.Alloc)
    ensures Next(Capturing2(al), Capturing1(al), SkipTicket(Y))
  {
    var c, t := Capturing2(al), Capturing1(al);
    assert c.batch.tickets - {Y} == map[X := 0];
    assert c.frames[Y := FrameY()] == t.frames;
    assert IsSkipTicket(c, t, Y);
  }

  lemma CapturesX(al: A.Alloc)
    ensures Next(Capturing1(al), CapturedX(al), CaptureTicket(X))
  {
    var a, b := Capturing1(al), CapturedX(al);
    assert a.frames[X := Captured(FrameX(true))] == b.frames && a.batch.tickets - {X} == map[];
    assert IsCaptureTicket(a, b, X);
  }

  lemma ForcesX(al: A.Alloc)
    ensures Next(CapturedX(al), ForcedX(al), ForceBatch)
  {
    var b, c := CapturedX(al), ForcedX(al);
    assert X in b.batch.captured;
    assert IsForceBatch(b, c);
  }

  lemma WritesX(al: A.Alloc)
    ensures Next(ForcedX(al), WrittenX(al), WriteCaptured(X))
  {
    assert IsWriteCaptured(ForcedX(al), WrittenX(al), X);
  }

  lemma SyncsHomes(al: A.Alloc)
    ensures SyncFiles(WrittenX(al).homes, {1}) == HOMES_AFTER
  {
  }

  lemma SyncsX(al: A.Alloc)
    ensures Next(WrittenX(al), SyncedX(al), SyncBatch)
  {
    SyncsHomes(al);
    hide SyncFiles;
    assert IsSyncBatch(WrittenX(al), SyncedX(al));
  }

  lemma FinishesX(al: A.Alloc)
    ensures Next(SyncedX(al), FinishedX(al, Finishing), FinishCaptured(X))
  {
    var e, f := SyncedX(al), FinishedX(al, Finishing);
    assert e.frames[X := CleanX()] == f.frames && e.batch.captured - {X} == map[];
    assert Finished(e.frames[X]) == Flushed(CleanX());
    hide Finished, FrameY, Captured;
    assert IsFinishCaptured(e, f, X);
  }

  lemma EndsX(al: A.Alloc)
    ensures Next(FinishedX(al, Finishing), FinishedX(al, Idle), EndBatch)
  {
    hide CleanX, FrameY;
    assert IsEndBatch(FinishedX(al, Finishing), FinishedX(al, Idle));
  }

  /** The checkpoint flushes `X` and skips `Y`, whose writer holds it. */
  lemma FlushX() returns (al: A.Alloc)
    ensures Reaches(Opened(), FinishedX(al, Idle))
  {
    var o := Opened();
    var a := BothDirty();
    var b := DropWriter(o, a, 0);
    al := b.alloc;
    assert b == OnlyYHeld(al, FrameX(false), HOMES, 2, EMPTY) by {
      assert b.frames == map[X := FrameX(false), Y := FrameY()];
      assert b.guards == map[1 := Guard(Y, Writing)];
      assert b.writers == map[Y := Writer(1, false, true, true, None)];
    }
    FlushFrom(b);
  }

  lemma FlushFrom(b: State)
    requires Reaches(Opened(), b) && b == OnlyYHeld(b.alloc, FrameX(false), HOMES, 2, EMPTY)
    ensures Reaches(Opened(), FinishedX(b.alloc, Idle))
  {
    hide Reaches, Next, Opened, OnlyYHeld, Capturing2, Capturing1, CapturedX, ForcedX, WrittenX, SyncedX, FinishedX;
    var o, al := Opened(), b.alloc;
    Reserves(al);
    Then(o, b, Capturing2(al), ReserveBatch([X, Y]));
    SkipsY(al);
    Then(o, Capturing2(al), Capturing1(al), SkipTicket(Y));
    CapturesX(al);
    Then(o, Capturing1(al), CapturedX(al), CaptureTicket(X));
    ForcesX(al);
    Then(o, CapturedX(al), ForcedX(al), ForceBatch);
    WritesX(al);
    Then(o, ForcedX(al), WrittenX(al), WriteCaptured(X));
    SyncsX(al);
    Then(o, WrittenX(al), SyncedX(al), SyncBatch);
    FinishesX(al);
    EndsX(al);
    Then(o, SyncedX(al), FinishedX(al, Finishing), FinishCaptured(X));
    Then(o, FinishedX(al, Finishing), FinishedX(al, Idle), EndBatch);
  }

  /** `X` is dirtied again by a full image, then both writers are gone. */
  function Redirtied(al: A.Alloc, fence: bool): State {
    FinishedX(al, Idle)
    .(wal := [FORMAT_X, FORMAT_Y, IMAGE_X, IMAGE_Y, DELTA_X, AGAIN_X], walEnd := 6,
      frames := map[X := CleanX().(data := Formatted(6, [7]), dirty := true, recLsn := Some(5), latestLsn := Some(6),
                                   generation := 3, needsFpi := false, referenced := true),
                    Y := FrameY().(pins := 0)],
      guards := map[], writers := map[], fence := fence)
  }

  lemma DirtyAgain() returns (al: A.Alloc)
    ensures Reaches(Opened(), Redirtied(al, false))
  {
    al := FlushX();
    var o, s := Opened(), FinishedX(al, Idle);
    hide Reaches;
    var a := WithFrame(s, X, Pinned(CleanX())).(guards := s.guards[0 := Guard(X, Waiting(true))]);
    assert IsPin(s, a, 0, X, true);
    Then(o, s, a, Pin(0, X, true));
    var b := LatchAndJoin(o, a, 0, X);
    WriteAndLeave(b, s);
  }

  lemma WriteAndLeave(b: State, s: State)
    requires s == FinishedX(s.alloc, Idle) && Reaches(Opened(), b)
    requires b == s.(frames := s.frames[X := Pinned(CleanX())],
                     guards := s.guards[0 := Guard(X, Waiting(true))][0 := Guard(X, Writing)],
                     writers := s.writers[X := Writer(0, false, false, true, None)])
    ensures Reaches(Opened(), Redirtied(s.alloc, false))
  {
    hide Reaches;
    var o := Opened();
    var c := LogAndPublish(o, b, 0, AGAIN_X, true);
    var d := DropWriter(o, c, 0);
    var e := DropWriter(o, d, 1);
    var t := Redirtied(s.alloc, false);
    assert e.frames == t.frames;
    assert e.guards == map[] && e.writers == map[];
    assert e == t;
  }

  function DirtyX(): Frame {
    Redirtied(A.Alloc(map[], map[], {}), false).frames[X]
  }

  /** The steal of `X` once its stage is `stage`. */
  function Stealing(al: A.Alloc, stage: P.IoStage): State {
    var s := Redirtied(al, false);
    s.(frames := s.frames[X := Pinned(DirtyX().(evicting := true))], steals := map[X := stage],
       walDurable := if stage.Reserved? then 5 else 6,
       homes := if stage.InFlight? then HOMES_AFTER[X := P.Written(HOMES_AFTER[X], Formatted(6, [7]))] else HOMES_AFTER)
  }

  lemma FencesX(al: A.Alloc)
    ensures Next(Redirtied(al, false), Redirtied(al, true), TakeFence)
  {
    assert IsTakeFence(Redirtied(al, false), Redirtied(al, true));
  }

  lemma UnfencesX(al: A.Alloc)
    ensures Next(Redirtied(al, true), Redirtied(al, false), ReleaseFence)
  {
    assert IsReleaseFence(Redirtied(al, true), Redirtied(al, false));
  }

  lemma StealsX(al: A.Alloc)
    ensures Next(Redirtied(al, false), Stealing(al, P.Reserved), StealReserve(X))
    ensures Next(Stealing(al, P.Reserved), Stealing(al, P.Forced), StealForce(X))
    ensures Next(Stealing(al, P.Forced), Stealing(al, P.InFlight), StealWrite(X))
  {
    assert IsStealReserve(Redirtied(al, false), Stealing(al, P.Reserved), X);
    assert IsStealForce(Stealing(al, P.Reserved), Stealing(al, P.Forced), X);
    assert IsStealWrite(Stealing(al, P.Forced), Stealing(al, P.InFlight), X);
  }

  lemma FloorIsThree(al: A.Alloc)
    ensures T.IsFloor(Redirtied(al, true), 3) && T.IsFloor(Stealing(al, P.InFlight), 3)
    ensures T.MayTear(Stealing(al, P.InFlight), X)
    ensures Redirtied(al, true).frames[Y].dirty && Redirtied(al, true).frames[Y].recLsn == Some(3)
  {
  }

  lemma RedoFails(al: A.Alloc)
    ensures Replay(Stealing(al, P.InFlight).wal, X, 3, 6, Zeroed) == Failed
  {
    var w := [FORMAT_X, FORMAT_Y, IMAGE_X, IMAGE_Y, DELTA_X, AGAIN_X];
    assert Replay(w[..4], X, 3, 6, Zeroed) == Done(Zeroed) by {
      ReplayGated(w[..4], X, 3, 6, Zeroed);
    }
    assert w[..5][..4] == w[..4] && w[..5][4] == DELTA_X;
    assert Replay(w[..5], X, 3, 6, Zeroed) == Failed;
    assert w[..|w| - 1] == w[..5];
  }

  /** Redo from the floor the checkpoint takes does not rebuild every torn page: in this
      run the floor is the boundary of the least recent dirty page, as the dirty-page table
      gives it, and replay of the torn `X` from there fails. */
  lemma TornFromFloorCanFail()
    ensures exists o: State, f: State, t: State, l: Lsn, k: PageKey ::
              && Initial(o) && Reaches(o, f) && f.fence && T.IsFloor(f, l)
              && (exists q :: q in f.frames && f.frames[q].dirty && f.frames[q].recLsn == Some(l))
              && Reaches(f, t) && T.IsFloor(t, l) && T.MayTear(t, k)
              && Replay(t.wal, k, l, t.walDurable, Zeroed) == Failed
  {
    var al := DirtyAgain();
    var o, f, t := Opened(), Redirtied(al, true), Stealing(al, P.InFlight);
    OpenedIsInitial();
    FloorIsThree(al);
    RedoFails(al);
    assert Y in f.frames && f.frames[Y].dirty && f.frames[Y].recLsn == Some(3);
    assert t.walDurable == 6;
    FenceAndSteal(al);
  }

  lemma FenceAndSteal(al: A.Alloc)
    requires Reaches(Opened(), Redirtied(al, false))
    ensures Reaches(Opened(), Redirtied(al, true)) && Reaches(Redirtied(al, true), Stealing(al, P.InFlight))
  {
    var o, f := Opened(), Redirtied(al, true);
    Stays(f);
    hide Reaches, Next, Redirtied, Stealing, Opened;
    FencesX(al);
    UnfencesX(al);
    StealsX(al);
    Then(o, Redirtied(al, false), f, TakeFence);
    Then(f, f, Redirtied(al, false), ReleaseFence);
    Then(f, Redirtied(al, false), Stealing(al, P.Reserved), StealReserve(X));
    Then(f, Stealing(al, P.Reserved), Stealing(al, P.Forced), StealForce(X));
    Then(f, Stealing(al, P.Forced), Stealing(al, P.InFlight), StealWrite(X));
  }
}
