/** The life of one page: its frame, its home image, and what the log, a steal and a
    checkpoint know about it. Every step of the pool acts on each page as one of the
    steps below, so what they keep holds of every page in every run. */
module Page {
  import opened Options
  import opened Redo
  import opened Frames

  /** A page's durable location: the last image an fsync covered, then the images
      written since. A crash may leave any of them, or a torn mix that does not validate. */
  datatype Home = Home(synced: Bytes, unsynced: seq<Bytes>)

  const ABSENT: Home := Home(Zeroed, [])

  function Latest(h: Home): Bytes {
    if h.unsynced == [] then h.synced else h.unsynced[|h.unsynced| - 1]
  }

  function Synced(h: Home): Home {
    Home(Latest(h), [])
  }

  function Written(h: Home, b: Bytes): Home {
    h.(unsynced := h.unsynced + [b])
  }

  datatype IoStage = Reserved | Forced | InFlight | Durable

  datatype Capture = Capture(image: Bytes, stage: IoStage)

  datatype View = View(
    wal: seq<Record>, end: Lsn, durable: Lsn,
    frame: Option<Frame>, home: Home,
    pending: Option<Record>,   // appended by the writer that holds the page, not yet published
    steal: Option<IoStage>,
    capture: Option<Capture>)

  /** The latest published bytes of the page. */
  function Current(v: View): Bytes {
    if v.frame.Some? then v.frame.value.data else Latest(v.home)
  }

  // ---------------------------------------------------------------- invariant

  ghost predicate LogOk(v: View, k: PageKey) {
    && Ordered(v.wal) && Grounded(v.wal, k)
    && (forall i | 0 <= i < |v.wal| :: v.wal[i].end <= v.end)
    && v.durable <= v.end
  }

  /** Everything logged for the page is in its current bytes, but for a record whose
      writer still holds the page. */
  ghost predicate CurrentOk(v: View, k: PageKey) {
    && IsVersion(v.wal, k, Current(v))
    && (forall i | 0 <= i < |v.wal| && v.wal[i].key == k && Stamp(Current(v)) < v.wal[i].end ::
          v.pending == Some(v.wal[i]))
    && (v.pending.Some? ==>
          && v.frame.Some? && v.pending.value.key == k && v.pending.value in v.wal
          && Stamp(Current(v)) < v.pending.value.end
          && (v.pending.value.kind.Delta? ==> Current(v).Formatted?))
  }

  /** Home images are forced versions of the page, oldest first. */
  ghost predicate HomeOk(v: View, k: PageKey) {
    && IsVersion(v.wal, k, v.home.synced)
    && Stamp(v.home.synced) <= v.durable && Stamp(v.home.synced) <= Stamp(Current(v))
    && (forall i | 0 <= i < |v.home.unsynced| ::
          && v.home.unsynced[i].Formatted? && IsVersion(v.wal, k, v.home.unsynced[i])
          && Stamp(v.home.unsynced[i]) <= v.durable
          && Stamp(v.home.synced) <= Stamp(v.home.unsynced[i]) <= Stamp(Current(v)))
    && (forall i, j | 0 <= i < j < |v.home.unsynced| ::
          Stamp(v.home.unsynced[i]) <= Stamp(v.home.unsynced[j]))
  }

  /** A published record starts at or after the page's redo boundary when the synced home
      lacks it; a clean or non-resident page lacks none. */
  ghost predicate MissingOk(v: View, k: PageKey) {
    forall i | 0 <= i < |v.wal| && v.wal[i].key == k
               && Stamp(v.home.synced) < v.wal[i].end <= Stamp(Current(v)) ::
      v.frame.Some? && v.frame.value.recLsn.Some? && v.frame.value.recLsn.value <= v.wal[i].start
  }

  /** The log holds a base record of the page that starts at `l` and ends by `upto`. */
  ghost predicate BaseAt(wal: seq<Record>, k: PageKey, l: Lsn, upto: Lsn) {
    exists i :: 0 <= i < |wal| && wal[i].key == k && wal[i].IsBase() && wal[i].start == l && wal[i].end <= upto
  }

  ghost predicate DirtyOk(v: View, k: PageKey) {
    && (v.frame.Some? ==>
          var f := v.frame.value;
          && (f.dirty <==> f.recLsn.Some?) && (f.dirty <==> f.latestLsn.Some?)
          && (f.dirty ==>
                && f.data.Formatted? && f.latestLsn == Some(Stamp(f.data))
                && BaseAt(v.wal, k, f.recLsn.value, Stamp(f.data))))
    && (v.home.unsynced != [] ==>
          && v.frame.Some? && v.frame.value.recLsn.Some?
          && BaseAt(v.wal, k, v.frame.value.recLsn.value, Stamp(v.home.unsynced[0])))
  }

  /** The next record of the page becomes a redo boundary, so it has to be a base. */
  predicate NextIsBoundary(f: Frame) {
    !f.dirty || (f.flush.Some? && f.flush.value.firstRedirty.None?)
  }

  ghost predicate FpiOk(v: View, k: PageKey) {
    v.frame.Some? ==>
      var f := v.frame.value;
      && (NextIsBoundary(f) && f.data.Formatted? && v.pending.None? ==> f.needsFpi)
      && ((NextIsBoundary(f) || f.data.Zeroed?) && v.pending.Some? ==> v.pending.value.IsBase())
  }

  ghost predicate CaptureOk(v: View, k: PageKey) {
    && (v.frame.Some? && v.frame.value.flush.Some? ==> v.capture.Some?)
    && (v.capture.Some? ==>
          && v.frame.Some? && v.frame.value.flush.Some? && v.steal.None?
          && var f, fl, c := v.frame.value, v.frame.value.flush.value, v.capture.value;
          && f.dirty
          && c.image.Formatted? && Stamp(c.image) == fl.pageLsn && IsVersion(v.wal, k, c.image)
          && Stamp(Latest(v.home)) <= Stamp(c.image) <= Stamp(f.data)
          && (f.recLsn.Some? ==> BaseAt(v.wal, k, f.recLsn.value, Stamp(c.image)))
          && RedirtyOk(v.wal, k, f, fl, c.image)
          && (!c.stage.Reserved? ==> Stamp(c.image) <= v.durable)
          && (c.stage.InFlight? ==> Latest(v.home) == c.image)
          && (c.stage.Durable? ==> v.home == Home(c.image, [])))
  }

  /** The frame knows whether, and from which base record on, it changed since capture. */
  ghost predicate RedirtyOk(wal: seq<Record>, k: PageKey, f: Frame, fl: CheckpointFlush, image: Bytes) {
    if fl.firstRedirty.None? then
      f.generation == fl.generation && f.data == image
    else
      && f.generation > fl.generation
      && Stamp(image) <= fl.firstRedirty.value
      && BaseAt(wal, k, fl.firstRedirty.value, Stamp(f.data))
      && (forall i | 0 <= i < |wal| && wal[i].key == k && Stamp(image) < wal[i].end <= Stamp(f.data) ::
            fl.firstRedirty.value <= wal[i].start)
  }

  ghost predicate StealOk(v: View, k: PageKey) {
    v.steal.Some? ==>
      && v.frame.Some? && v.frame.value.dirty && v.pending.None?
      && var b := v.frame.value.data;
      && (!v.steal.value.Reserved? ==> Stamp(b) <= v.durable)
      && (v.steal.value.InFlight? ==> Latest(v.home) == b)
      && (v.steal.value.Durable? ==> v.home == Home(b, []))
  }

  ghost predicate PageInv(v: View, k: PageKey) {
    LogOk(v, k) && CurrentOk(v, k) && HomeOk(v, k) && MissingOk(v, k) && DirtyOk(v, k)
    && FpiOk(v, k) && CaptureOk(v, k) && StealOk(v, k)
  }

  // ---------------------------------------------------------------- steps

  datatype Step =
    | Elsewhere            // the log, other pages, pins and flags move; the file may be synced
    | Load                 // a miss reads the home into a clean frame
    | Fresh                // `new_page` inserts a zeroed frame
    | Append(r: Record, take: bool)
    | Publish
    | Forget               // a clean frame leaves the pool
    | StealReserve | StealForce | StealWrite | StealSync | StealFinish | StealAbort
    | CheckpointCapture | CheckpointForce | CheckpointWrite | CheckpointSync | CheckpointFinish | CheckpointClear

  /** Two frames that differ only in what a page's contents do not depend on. */
  predicate SameBytes(f: Option<Frame>, g: Option<Frame>) {
    match (f, g)
    case (None, None) => true
    case (Some(a), Some(b)) =>
      b == a.(pins := b.pins, referenced := b.referenced, evicting := b.evicting, flushing := b.flushing)
    case _ => false
  }

  /** The log grew by at most one record, of another page. */
  ghost predicate LogMoved(v: View, w: View, k: PageKey) {
    && v.end <= w.end && v.durable <= w.durable <= w.end
    && (w.wal == v.wal
        || (|w.wal| == |v.wal| + 1
            && var r := w.wal[|v.wal|];
               w.wal == v.wal + [r] && r.key != k && v.end <= r.start < r.end <= w.end))
  }

  ghost predicate PageStep(v: View, w: View, k: PageKey, st: Step) {
    match st
    case Elsewhere =>
      && LogMoved(v, w, k) && SameBytes(v.frame, w.frame)
      && (w.home == v.home || w.home == Synced(v.home))
      && w.pending == v.pending && w.steal == v.steal && w.capture == v.capture
    case Load =>
      && v.frame.None? && v.pending.None? && v.steal.None? && v.capture.None? && Latest(v.home).Formatted?
      && (exists f: Frame :: SameBytes(Some(NewFrame(f.id, Latest(v.home), true)), Some(f)) && w == v.(frame := Some(f)))
    case Fresh =>
      && v.frame.None? && v.pending.None? && v.steal.None? && v.capture.None? && v.home == ABSENT
      && (exists f: Frame :: SameBytes(Some(NewFrame(f.id, Zeroed, false)), Some(f)) && w == v.(frame := Some(f)))
    case Append(r, take) =>
      && v.frame.Some? && v.pending.None? && v.steal.None?
      && r.key == k && v.end <= r.start < r.end
      && var f := v.frame.value;
      && (r.kind.Delta? ==> f.data.Formatted? && !f.needsFpi)
      && w == v.(wal := v.wal + [r], end := r.end, pending := Some(r),
                 frame := Some(f.(needsFpi := f.needsFpi && !take)))
    case Publish =>
      && v.frame.Some? && v.pending.Some?
      && w == v.(frame := Some(Published(v.frame.value, v.pending.value)), pending := None)
    case Forget =>
      && v.frame.Some? && !v.frame.value.dirty && v.pending.None? && v.steal.None? && v.capture.None?
      && w == v.(frame := None)
    case StealReserve =>
      && v.frame.Some? && v.frame.value.dirty && v.pending.None? && v.steal.None? && v.capture.None?
      && SameBytes(v.frame, w.frame) && w == v.(frame := w.frame, steal := Some(Reserved))
    case StealForce =>
      v.steal == Some(Reserved) && w == v.(durable := v.end, steal := Some(Forced))
    case StealWrite =>
      && v.steal == Some(Forced) && v.frame.Some?
      && w == v.(home := Written(v.home, v.frame.value.data), steal := Some(InFlight))
    case StealSync =>
      v.steal == Some(InFlight) && w == v.(home := Synced(v.home), steal := Some(Durable))
    case StealFinish =>
      v.steal == Some(Durable) && w == v.(frame := None, steal := None)
    case StealAbort =>
      v.steal.Some? && SameBytes(v.frame, w.frame) && w == v.(frame := w.frame, steal := None)
    case CheckpointCapture =>
      && v.frame.Some? && v.frame.value.dirty && v.frame.value.latestLsn.Some?
      && v.pending.None? && v.steal.None? && v.capture.None?
      && w == v.(frame := Some(Captured(v.frame.value)), capture := Some(Capture(v.frame.value.data, Reserved)))
    case CheckpointForce =>
      && v.capture.Some? && v.capture.value.stage.Reserved?
      && w == v.(durable := v.end, capture := Some(v.capture.value.(stage := Forced)))
    case CheckpointWrite =>
      && v.capture.Some? && v.capture.value.stage.Forced?
      && w == v.(home := Written(v.home, v.capture.value.image), capture := Some(v.capture.value.(stage := InFlight)))
    case CheckpointSync =>
      && v.capture.Some? && v.capture.value.stage.InFlight?
      && w == v.(home := Synced(v.home), capture := Some(v.capture.value.(stage := Durable)))
    case CheckpointFinish =>
      && v.capture.Some? && v.capture.value.stage.Durable? && v.frame.Some?
      && var done := Finished(v.frame.value);
      && (done.Flushed? || done.Redirtied?)
      && w == v.(frame := Some(done.frame), capture := None)
    case CheckpointClear =>
      && v.capture.Some? && v.frame.Some?
      && w == v.(frame := Some(Cleared(v.frame.value)), capture := None)
  }

  // ---------------------------------------------------------------- preservation

  lemma BaseGrows(wal: seq<Record>, r: Record, k: PageKey, l: Lsn, upto: Lsn)
    requires BaseAt(wal, k, l, upto)
    ensures BaseAt(wal + [r], k, l, upto)
  {
    var i :| 0 <= i < |wal| && wal[i].key == k && wal[i].IsBase() && wal[i].start == l && wal[i].end <= upto;
    assert (wal + [r])[i] == wal[i];
  }

  lemma VersionStays(v: View, k: PageKey, r: Record, b: Bytes)
    requires LogOk(v, k) && IsVersion(v.wal, k, b) && v.end <= r.start < r.end
    ensures IsVersion(v.wal + [r], k, b)
    ensures Stamp(b) <= v.end
  {
    StampIsLast(v.wal, k, Stamp(b));
    VersionAppend(v.wal, r, k, b);
  }

  /** `w` is `v` with one more record in its log. */
  ghost predicate Logged(v: View, w: View, r: Record) {
    && w == v.(wal := v.wal + [r], end := w.end, durable := w.durable)
    && v.end <= r.start < r.end <= w.end && v.durable <= w.durable <= w.end
  }

  lemma LoggedHome(v: View, w: View, k: PageKey, r: Record)
    requires LogOk(v, k) && HomeOk(v, k) && Logged(v, w, r)
    ensures HomeOk(w, k)
  {
    VersionStays(v, k, r, v.home.synced);
    forall i | 0 <= i < |v.home.unsynced| ensures IsVersion(w.wal, k, v.home.unsynced[i]) {
      VersionStays(v, k, r, v.home.unsynced[i]);
    }
  }

  lemma LoggedMissing(v: View, w: View, k: PageKey, r: Record)
    requires LogOk(v, k) && CurrentOk(v, k) && MissingOk(v, k) && Logged(v, w, r)
    ensures MissingOk(w, k)
  {
    VersionStays(v, k, r, Current(v));
  }

  lemma LoggedDirty(v: View, w: View, k: PageKey, r: Record)
    requires DirtyOk(v, k) && Logged(v, w, r)
    ensures DirtyOk(w, k)
  {
    if v.frame.Some? && v.frame.value.recLsn.Some? {
      BaseGrows(v.wal, r, k, v.frame.value.recLsn.value, Stamp(v.frame.value.data));
      if v.home.unsynced != [] {
        BaseGrows(v.wal, r, k, v.frame.value.recLsn.value, Stamp(v.home.unsynced[0]));
      }
    }
  }

  lemma LoggedCapture(v: View, w: View, k: PageKey, r: Record)
    requires LogOk(v, k) && CurrentOk(v, k) && DirtyOk(v, k) && CaptureOk(v, k) && Logged(v, w, r)
    ensures CaptureOk(w, k)
  {
    if v.capture.Some? {
      var f, fl, c := v.frame.value, v.frame.value.flush.value, v.capture.value;
      VersionStays(v, k, r, c.image);
      VersionStays(v, k, r, f.data);
      BaseGrows(v.wal, r, k, f.recLsn.value, Stamp(c.image));
      if fl.firstRedirty.Some? {
        BaseGrows(v.wal, r, k, fl.firstRedirty.value, Stamp(f.data));
      }
    }
  }

  lemma ForcedKeeps(v: View, w: View, k: PageKey)
    requires PageInv(v, k) && v.end <= w.end && v.durable <= w.durable <= w.end
    requires w == v.(end := w.end, durable := w.durable)
    ensures PageInv(w, k)
  {
  }

  lemma LoggedCurrent(v: View, w: View, k: PageKey, r: Record)
    requires LogOk(v, k) && CurrentOk(v, k) && Logged(v, w, r) && r.key != k
    ensures LogOk(w, k) && CurrentOk(w, k)
  {
    VersionStays(v, k, r, Current(v));
    GroundedAppend(v.wal, r, k);
  }

  /** A record of another page, and a force, leave the page as it is. */
  lemma LogMovedKeeps(v: View, w: View, k: PageKey)
    requires PageInv(v, k) && LogMoved(v, w, k)
    requires w == v.(wal := w.wal, end := w.end, durable := w.durable)
    ensures PageInv(w, k)
  {
    if w.wal == v.wal {
      hide PageInv;
      ForcedKeeps(v, w, k);
    } else {
      hide LogOk, CurrentOk, HomeOk, MissingOk, DirtyOk, CaptureOk;
      var r := w.wal[|v.wal|];
      LoggedCurrent(v, w, k, r);
      LoggedHome(v, w, k, r);
      LoggedMissing(v, w, k, r);
      LoggedDirty(v, w, k, r);
      LoggedCapture(v, w, k, r);
    }
  }

  lemma SyncKeeps(v: View, w: View, k: PageKey)
    requires PageInv(v, k) && w == v.(home := Synced(v.home))
    ensures PageInv(w, k)
  {
  }

  lemma FlagsKeep(v: View, w: View, k: PageKey)
    requires PageInv(v, k) && SameBytes(v.frame, w.frame) && w == v.(frame := w.frame)
    ensures PageInv(w, k)
  {
  }

  lemma ElsewhereKeeps(v: View, w: View, k: PageKey)
    requires PageInv(v, k) && PageStep(v, w, k, Elsewhere)
    ensures PageInv(w, k)
  {
    var a := v.(wal := w.wal, end := w.end, durable := w.durable);
    LogMovedKeeps(v, a, k);
    var b := a.(home := w.home);
    if w.home != v.home {
      SyncKeeps(a, b, k);
    }
    FlagsKeep(b, w, k);
  }

  lemma AppendedCurrent(v: View, w: View, k: PageKey, r: Record, take: bool)
    requires LogOk(v, k) && CurrentOk(v, k) && FpiOk(v, k) && PageStep(v, w, k, Append(r, take))
    ensures LogOk(w, k) && CurrentOk(w, k) && FpiOk(w, k)
  {
    VersionStays(v, k, r, Current(v));
    if r.kind.Delta? {
      ContentSame(v.wal, k, Stamp(Current(v)), r.start);
    }
    GroundedAppend(v.wal, r, k);
  }

  lemma AppendKeeps(v: View, w: View, k: PageKey, r: Record, take: bool)
    requires PageInv(v, k) && PageStep(v, w, k, Append(r, take))
    ensures PageInv(w, k)
  {
    hide Ordered, Grounded, IsVersion, BaseAt;
    AppendedCurrent(v, w, k, r, take);
    var a := v.(wal := v.wal + [r], end := r.end);
    assert HomeOk(w, k) by { LoggedHome(v, a, k, r); }
    assert MissingOk(w, k) by { LoggedMissing(v, a, k, r); }
    assert DirtyOk(w, k) by { LoggedDirty(v, a, k, r); }
    assert CaptureOk(w, k) by { LoggedCapture(v, a, k, r); }
  }

  lemma PublishedCurrent(v: View, w: View, k: PageKey)
    requires LogOk(v, k) && CurrentOk(v, k) && PageStep(v, w, k, Publish)
    ensures CurrentOk(w, k) && Current(w).Formatted? && Stamp(Current(w)) == v.pending.value.end
    ensures exists i :: 0 <= i < |v.wal| && v.wal[i] == v.pending.value
  {
    var f, r := v.frame.value, v.pending.value;
    var i :| 0 <= i < |v.wal| && v.wal[i] == r;
    ApplyIsVersion(v.wal, k, Stamp(f.data), i);
  }

  lemma PublishedDirty(v: View, w: View, k: PageKey)
    requires LogOk(v, k) && CurrentOk(v, k) && HomeOk(v, k) && MissingOk(v, k) && DirtyOk(v, k) && FpiOk(v, k)
    requires PageStep(v, w, k, Publish)
    ensures HomeOk(w, k) && MissingOk(w, k) && DirtyOk(w, k) && FpiOk(w, k)
  {
    PublishedCurrent(v, w, k);
    assert BaseAt(v.wal, k, w.frame.value.recLsn.value, Stamp(Current(w)));
  }

  /** The record in flight starts past every version of the page that lacks it. */
  lemma PendingStartsPast(v: View, k: PageKey, b: Bytes)
    requires LogOk(v, k) && IsVersion(v.wal, k, b) && b.Formatted?
    requires v.pending.Some? && v.pending.value in v.wal && Stamp(b) < v.pending.value.end
    ensures Stamp(b) <= v.pending.value.start
  {
    StampIsLast(v.wal, k, Stamp(b));
    var i :| 0 <= i < |v.wal| && v.wal[i].key == k && v.wal[i].end == Stamp(b);
    var j :| 0 <= j < |v.wal| && v.wal[j] == v.pending.value;
    assert i < j;
  }

  lemma PublishedCapture(v: View, w: View, k: PageKey)
    requires LogOk(v, k) && CurrentOk(v, k) && DirtyOk(v, k) && FpiOk(v, k) && CaptureOk(v, k)
    requires PageStep(v, w, k, Publish)
    ensures CaptureOk(w, k)
  {
    PublishedCurrent(v, w, k);
    if v.capture.Some? {
      var f, g, r, image := v.frame.value, w.frame.value, v.pending.value, v.capture.value.image;
      var fl := g.flush.value;
      PendingStartsPast(v, k, image);
      assert BaseAt(v.wal, k, fl.firstRedirty.value, Stamp(g.data));
      assert RedirtyOk(v.wal, k, g, fl, image);
    }
  }

  lemma PublishKeeps(v: View, w: View, k: PageKey)
    requires PageInv(v, k) && PageStep(v, w, k, Publish)
    ensures PageInv(w, k)
  {
    PublishedCurrent(v, w, k);
    PublishedDirty(v, w, k);
    PublishedCapture(v, w, k);
  }

  lemma LoadKeeps(v: View, w: View, k: PageKey)
    requires PageInv(v, k) && (PageStep(v, w, k, Load) || PageStep(v, w, k, Fresh))
    ensures PageInv(w, k)
  {
  }

  lemma ForgetKeeps(v: View, w: View, k: PageKey)
    requires PageInv(v, k) && PageStep(v, w, k, Forget)
    ensures PageInv(w, k) && Current(w) == Current(v)
  {
    CleanIsHome(v, k);
  }

  /** A clean page is its synced home image: nothing of it is missing there. */
  lemma CleanIsHome(v: View, k: PageKey)
    requires PageInv(v, k)
    requires v.frame.Some? ==> !v.frame.value.dirty
    ensures v.home == Home(Current(v), [])
  {
    ContentSame(v.wal, k, Stamp(v.home.synced), Stamp(Current(v)));
  }

  /** Writing a forced version no older than the home's latest keeps the home in order. */
  lemma WriteKeeps(v: View, w: View, k: PageKey, b: Bytes)
    requires PageInv(v, k) && w == v.(home := Written(v.home, b))
    requires b.Formatted? && IsVersion(v.wal, k, b) && Stamp(b) <= v.durable
    requires Stamp(Latest(v.home)) <= Stamp(b) <= Stamp(Current(v))
    requires v.frame.Some? && v.frame.value.recLsn.Some? && BaseAt(v.wal, k, v.frame.value.recLsn.value, Stamp(b))
    ensures HomeOk(w, k) && MissingOk(w, k) && DirtyOk(w, k)
  {
    assert w.home.unsynced[0] == if v.home.unsynced == [] then b else v.home.unsynced[0];
  }

  /** Only the steal and checkpoint clauses look at how far an I/O got. */
  lemma StageKeeps(v: View, w: View, k: PageKey)
    requires PageInv(v, k) && w == v.(steal := w.steal, capture := w.capture)
    requires StealOk(w, k) && CaptureOk(w, k)
    ensures PageInv(w, k)
  {
  }

  lemma StealFlagKeeps(v: View, w: View, k: PageKey)
    requires PageInv(v, k) && (PageStep(v, w, k, StealReserve) || PageStep(v, w, k, StealAbort))
    ensures PageInv(w, k)
  {
    var u := v.(frame := w.frame);
    FlagsKeep(v, u, k);
    StageKeeps(u, w, k);
  }

  lemma StealForceKeeps(v: View, w: View, k: PageKey)
    requires PageInv(v, k) && PageStep(v, w, k, StealForce)
    ensures PageInv(w, k)
  {
    var u := v.(durable := v.end);
    LogMovedKeeps(v, u, k);
    StampIsLast(v.wal, k, Stamp(v.frame.value.data));
    StageKeeps(u, w, k);
  }

  lemma StealSyncKeeps(v: View, w: View, k: PageKey)
    requires PageInv(v, k) && PageStep(v, w, k, StealSync)
    ensures PageInv(w, k)
  {
    var u := v.(home := Synced(v.home));
    SyncKeeps(v, u, k);
    StageKeeps(u, w, k);
  }

  lemma StealFinishKeeps(v: View, w: View, k: PageKey)
    requires PageInv(v, k) && PageStep(v, w, k, StealFinish)
    ensures PageInv(w, k) && Current(w) == Current(v)
  {
  }

  lemma StealWriteKeeps(v: View, w: View, k: PageKey)
    requires PageInv(v, k) && PageStep(v, w, k, StealWrite)
    ensures PageInv(w, k)
  {
    var b := v.frame.value.data;
    WriteKeeps(v, v.(home := Written(v.home, b)), k, b);
  }

  lemma CaptureKeeps(v: View, w: View, k: PageKey)
    requires PageInv(v, k) && PageStep(v, w, k, CheckpointCapture)
    ensures PageInv(w, k)
  {
  }

  lemma CheckpointForceKeeps(v: View, w: View, k: PageKey)
    requires PageInv(v, k) && PageStep(v, w, k, CheckpointForce)
    ensures PageInv(w, k)
  {
    var u := v.(durable := v.end);
    LogMovedKeeps(v, u, k);
    StampIsLast(v.wal, k, Stamp(v.capture.value.image));
    StageKeeps(u, w, k);
  }

  lemma CheckpointSyncKeeps(v: View, w: View, k: PageKey)
    requires PageInv(v, k) && PageStep(v, w, k, CheckpointSync)
    ensures PageInv(w, k)
  {
    var u := v.(home := Synced(v.home));
    SyncKeeps(v, u, k);
    StageKeeps(u, w, k);
  }

  lemma CheckpointWriteKeeps(v: View, w: View, k: PageKey)
    requires PageInv(v, k) && PageStep(v, w, k, CheckpointWrite)
    ensures PageInv(w, k)
  {
    hide BaseAt, IsVersion, Ordered, Grounded;
    var b := v.capture.value.image;
    WriteKeeps(v, v.(home := Written(v.home, b)), k, b);
  }

  /** The error branches at the end of a batch are unreachable. */
  lemma FinishDefined(v: View, k: PageKey)
    requires PageInv(v, k) && v.capture.Some?
    ensures v.frame.Some?
    ensures Finished(v.frame.value).Flushed? || Finished(v.frame.value).Redirtied?
  {
  }

  lemma FinishFlushes(v: View, w: View, k: PageKey)
    requires PageInv(v, k) && PageStep(v, w, k, CheckpointFinish) && Finished(v.frame.value).Flushed?
    ensures PageInv(w, k)
  {
  }

  lemma FinishRedirties(v: View, w: View, k: PageKey)
    requires PageInv(v, k) && PageStep(v, w, k, CheckpointFinish) && Finished(v.frame.value).Redirtied?
    ensures PageInv(w, k)
  {
  }

  lemma FinishKeeps(v: View, w: View, k: PageKey)
    requires PageInv(v, k) && PageStep(v, w, k, CheckpointFinish)
    ensures PageInv(w, k)
  {
    hide PageInv;
    if Finished(v.frame.value).Flushed? {
      FinishFlushes(v, w, k);
    } else {
      FinishRedirties(v, w, k);
    }
  }

  lemma ClearKeeps(v: View, w: View, k: PageKey)
    requires PageInv(v, k) && PageStep(v, w, k, CheckpointClear)
    ensures PageInv(w, k)
  {
  }

  /** Every step of a page keeps its invariant. */
  lemma StepKeeps(v: View, w: View, k: PageKey, st: Step)
    requires PageInv(v, k) && PageStep(v, w, k, st)
    ensures PageInv(w, k)
  {
    hide PageInv, PageStep;
    match st
    case Elsewhere => ElsewhereKeeps(v, w, k);
    case Load => LoadKeeps(v, w, k);
    case Fresh => LoadKeeps(v, w, k);
    case Append(r, take) => AppendKeeps(v, w, k, r, take);
    case Publish => PublishKeeps(v, w, k);
    case Forget => ForgetKeeps(v, w, k);
    case StealReserve => StealFlagKeeps(v, w, k);
    case StealForce => StealForceKeeps(v, w, k);
    case StealWrite => StealWriteKeeps(v, w, k);
    case StealSync => StealSyncKeeps(v, w, k);
    case StealFinish => StealFinishKeeps(v, w, k);
    case StealAbort => StealFlagKeeps(v, w, k);
    case CheckpointCapture => CaptureKeeps(v, w, k);
    case CheckpointForce => CheckpointForceKeeps(v, w, k);
    case CheckpointWrite => CheckpointWriteKeeps(v, w, k);
    case CheckpointSync => CheckpointSyncKeeps(v, w, k);
    case CheckpointFinish => FinishKeeps(v, w, k);
    case CheckpointClear => ClearKeeps(v, w, k);
  }

  // ---------------------------------------------------------------- what a step may change

  /** Only publishing moves the latest bytes of a page: not a load, an eviction, a steal,
      a checkpoint flush or a sync. */
  lemma StepCurrent(v: View, w: View, k: PageKey, st: Step)
    requires PageInv(v, k) && PageStep(v, w, k, st)
    ensures Current(w) == if st.Publish? then Apply(Current(v), v.pending.value) else Current(v)
  {
    if st.Forget? {
      CleanIsHome(v, k);
    }
  }

  /** Images reach the home in version order, and only once forced. */
  lemma StepHome(v: View, w: View, k: PageKey, st: Step)
    requires PageInv(v, k) && PageStep(v, w, k, st)
    ensures Stamp(v.home.synced) <= Stamp(w.home.synced)
    ensures Stamp(Latest(v.home)) <= Stamp(Latest(w.home)) <= w.durable
  {
    HomeInOrder(v, k);
    if st.StealWrite? || st.CheckpointWrite? {
      WriteInOrder(v, w, k, st);
    }
  }

  lemma HomeInOrder(v: View, k: PageKey)
    requires HomeOk(v, k)
    ensures Stamp(v.home.synced) <= Stamp(Latest(v.home)) <= Stamp(Current(v))
    ensures Stamp(Latest(v.home)) <= v.durable
  {
  }

  /** The image a steal or a checkpoint writes. */
  function WrittenImage(v: View, st: Step): Bytes
    requires (st.StealWrite? && v.frame.Some?) || (st.CheckpointWrite? && v.capture.Some?)
  {
    if st.StealWrite? then v.frame.value.data else v.capture.value.image
  }

  lemma WriteInOrder(v: View, w: View, k: PageKey, st: Step)
    requires PageInv(v, k) && PageStep(v, w, k, st) && (st.StealWrite? || st.CheckpointWrite?)
    ensures var b := WrittenImage(v, st);
            && w.home == Written(v.home, b) && Latest(w.home) == b
            && Stamp(Latest(v.home)) <= Stamp(b) <= v.durable && IsVersion(v.wal, k, b)
  {
    HomeInOrder(v, k);
  }

  // ---------------------------------------------------------------- floors

  /** `l` is at most every log position the page may come to need redo from. */
  ghost predicate AtOrAbove(v: View, l: Lsn) {
    && l <= v.end
    && (v.pending.Some? ==> l <= v.pending.value.start)
    && (v.frame.Some? ==>
          var f := v.frame.value;
          && (f.recLsn.Some? ==> l <= f.recLsn.value)
          && (f.flush.Some? && f.flush.value.firstRedirty.Some? ==> l <= f.flush.value.firstRedirty.value))
  }

  /** Once below what a page needs, a log position stays there: redo boundaries only move up. */
  lemma StepStaysAbove(v: View, w: View, k: PageKey, st: Step, l: Lsn)
    requires PageStep(v, w, k, st) && AtOrAbove(v, l)
    ensures AtOrAbove(w, l)
  {
  }

  /** With no record in flight, a position at most the redo boundary is at most the boundary that
      a checkpoint in progress will set. */
  lemma BoundaryIsAbove(v: View, k: PageKey, l: Lsn)
    requires PageInv(v, k) && v.pending.None? && l <= v.end
    requires v.frame.Some? && v.frame.value.recLsn.Some? ==> l <= v.frame.value.recLsn.value
    ensures AtOrAbove(v, l)
  {
  }
}
