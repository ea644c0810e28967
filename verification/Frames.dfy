/** A buffer frame and the transitions its `DirtyMeta` goes through, each one the body
    of a section that holds the frame's metadata lock. */
module Frames {
  import opened Options
  import opened Redo

  /** The state a checkpoint keeps in a frame between capturing its image and finishing. */
  datatype CheckpointFlush = CheckpointFlush(generation: nat, pageLsn: Lsn, firstRedirty: Option<Lsn>)

  /** `id` tells one frame object from another that later holds the same page. */
  datatype Frame = Frame(
    id: nat, data: Bytes, pins: nat,
    dirty: bool, recLsn: Option<Lsn>, latestLsn: Option<Lsn>, generation: nat,
    flush: Option<CheckpointFlush>,
    referenced: bool, needsFpi: bool, evicting: bool, flushing: bool)

  function NewFrame(id: nat, data: Bytes, needsFpi: bool): Frame {
    Frame(id, data, 0, false, None, None, 0, None, true, needsFpi, false, false)
  }

  function Pinned(f: Frame): Frame {
    f.(pins := f.pins + 1, referenced := true)
  }

  function Unpinned(f: Frame): Frame
    requires f.pins > 0
  {
    f.(pins := f.pins - 1)
  }

  function FirstOf(l: Option<Lsn>, start: Lsn): Lsn {
    if l.None? then start else if l.value < start then l.value else start
  }

  /** `Frame::publish_mutation`, with the page bytes the writer left under its latch. */
  function Published(f: Frame, r: Record): Frame {
    f.(data := Apply(f.data, r),
       dirty := true,
       recLsn := if f.recLsn.None? then Some(r.start) else f.recLsn,
       latestLsn := Some(r.end),
       generation := f.generation + 1,
       flush := if f.flush.None? then None
                else Some(f.flush.value.(firstRedirty := Some(FirstOf(f.flush.value.firstRedirty, r.start)))))
  }

  /** A checkpoint captures the frame's image: it remembers the generation and PageLSN,
      and asks the next writer for a full-page image. */
  function Captured(f: Frame): Frame
    requires f.latestLsn.Some?
  {
    f.(flush := Some(CheckpointFlush(f.generation, f.latestLsn.value, None)), needsFpi := true)
  }

  datatype FinishResult =
    | Flushed(frame: Frame)
    | Redirtied(frame: Frame)
    | ReservationLost
    | ChangedUnpublished

  /** The end of a checkpoint batch for one captured frame. */
  function Finished(f: Frame): FinishResult {
    if f.flush.None? then ReservationLost
    else
      var fl := f.flush.value;
      var g := f.(flush := None, flushing := false);
      if f.generation == fl.generation && f.latestLsn == Some(fl.pageLsn) && fl.firstRedirty.None? then
        Flushed(g.(recLsn := None, latestLsn := None, dirty := false))
      else if fl.firstRedirty.None? then ChangedUnpublished
      else Redirtied(g.(recLsn := Some(fl.firstRedirty.value)))
  }

  /** A failed batch gives its reservation back and keeps the redo boundary. */
  function Cleared(f: Frame): Frame {
    f.(flush := None, flushing := false)
  }
}
