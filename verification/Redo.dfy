/** The write-ahead log as recovery sees it: page records, the bytes they build, and
    the PageLSN-gated replay of a suffix of the log over a surviving home image.

    A page's bytes are abstracted to the LSN stamped in its header and the list of
    changes it holds; a page that was never formatted, or whose stored form does not
    validate, is `Zeroed`. */
module Redo {

  type Lsn = nat

  datatype PageKey = PageKey(file: nat, num: nat)

  datatype Bytes = Zeroed | Formatted(lsn: Lsn, changes: seq<int>)

  datatype Kind = Init | FullImage(image: seq<int>) | Delta(change: int)

  /** `start` is the record-start boundary (`replay_from`), `end` the LSN stamped on
      the page (`record_lsn`). */
  datatype Record = Record(key: PageKey, start: Lsn, end: Lsn, kind: Kind) {
    /** The record rebuilds the page without reading it. */
    predicate IsBase() { !kind.Delta? }
  }

  /** The outcome of replaying the log over one page. */
  datatype Outcome = Failed | Done(bytes: Bytes)

  function Stamp(b: Bytes): Lsn {
    if b.Zeroed? then 0 else b.lsn
  }

  /** What the writer of `r` leaves in the page. */
  function Apply(b: Bytes, r: Record): Bytes {
    match r.kind
    case Init => Formatted(r.end, [])
    case FullImage(image) => Formatted(r.end, image)
    case Delta(change) => if b.Zeroed? then Zeroed else Formatted(r.end, b.changes + [change])
  }

  /** Records are laid out one after another. */
  ghost predicate Ordered(wal: seq<Record>) {
    && (forall i | 0 <= i < |wal| :: wal[i].start < wal[i].end)
    && (forall i, j | 0 <= i < j < |wal| :: wal[i].end <= wal[j].start)
  }

  /** The bytes of page `k` after every record of the page that ends at or before `l`. */
  function ContentAt(wal: seq<Record>, k: PageKey, l: Lsn): Bytes {
    if wal == [] then Zeroed
    else
      var r := wal[|wal| - 1];
      var before := ContentAt(wal[..|wal| - 1], k, l);
      if r.key == k && r.end <= l then Apply(before, r) else before
  }

  /** No delta of page `k` was logged against a page that had no base yet. */
  ghost predicate Grounded(wal: seq<Record>, k: PageKey) {
    wal != [] ==>
      var init, r := wal[..|wal| - 1], wal[|wal| - 1];
      && Grounded(init, k)
      && (r.key == k && r.kind.Delta? ==> ContentAt(init, k, r.start).Formatted?)
  }

  /** Record `r` belongs to page `k` and to the replayed range of the log. */
  predicate InRange(r: Record, k: PageKey, lo: Lsn, hi: Lsn) {
    r.key == k && lo <= r.start && r.end <= hi
  }

  /** One record of physical redo: skipped when the page already carries its LSN, an
      error when a delta meets a page that does not validate. */
  function RedoOne(o: Outcome, r: Record): Outcome {
    if o.Failed? then Failed
    else if Stamp(o.bytes) >= r.end then o
    else if r.kind.Delta? && o.bytes.Zeroed? then Failed
    else Done(Apply(o.bytes, r))
  }

  /** Recovery of page `k`: every record of the page that starts at or after `lo` and is
      durable, that is ends at or before `hi`, in log order over `b`. */
  function Replay(wal: seq<Record>, k: PageKey, lo: Lsn, hi: Lsn, b: Bytes): Outcome {
    if wal == [] then Done(b)
    else
      var r := wal[|wal| - 1];
      var before := Replay(wal[..|wal| - 1], k, lo, hi, b);
      if InRange(r, k, lo, hi) then RedoOne(before, r) else before
  }

  /** `b` is some past state of page `k`, named by its own stamp. */
  ghost predicate IsVersion(wal: seq<Record>, k: PageKey, b: Bytes) {
    b == ContentAt(wal, k, Stamp(b))
  }

  lemma OrderedPrefix(wal: seq<Record>)
    requires Ordered(wal) && wal != []
    ensures Ordered(wal[..|wal| - 1])
    ensures forall i | 0 <= i < |wal| - 1 :: wal[i].end <= wal[|wal| - 1].start
  {
  }

  /** Content only reads the records of the page up to the given LSN. */
  lemma {:induction false} ContentSame(wal: seq<Record>, k: PageKey, l: Lsn, m: Lsn)
    requires l <= m
    requires forall i | 0 <= i < |wal| && wal[i].key == k :: !(l < wal[i].end <= m)
    ensures ContentAt(wal, k, l) == ContentAt(wal, k, m)
  {
    if wal != [] {
      ContentSame(wal[..|wal| - 1], k, l, m);
    }
  }

  /** A record of another page, or one past `l`, does not move the content at `l`. */
  lemma ContentAppend(wal: seq<Record>, r: Record, k: PageKey, l: Lsn)
    ensures ContentAt(wal + [r], k, l)
         == if r.key == k && r.end <= l then Apply(ContentAt(wal, k, l), r) else ContentAt(wal, k, l)
  {
    assert (wal + [r])[..|wal + [r]| - 1] == wal;
  }

  lemma GroundedAppend(wal: seq<Record>, r: Record, k: PageKey)
    requires Grounded(wal, k)
    requires r.key == k && r.kind.Delta? ==> ContentAt(wal, k, r.start).Formatted?
    ensures Grounded(wal + [r], k)
  {
    assert (wal + [r])[..|wal + [r]| - 1] == wal;
  }

  /** The stamp of a page is the end of its last record, and no content is past it. */
  lemma {:induction false} StampIsLast(wal: seq<Record>, k: PageKey, l: Lsn)
    requires Ordered(wal) && Grounded(wal, k)
    ensures Stamp(ContentAt(wal, k, l)) <= l
    ensures forall i | 0 <= i < |wal| && wal[i].key == k && wal[i].end <= l ::
              wal[i].end <= Stamp(ContentAt(wal, k, l))
    ensures ContentAt(wal, k, l).Formatted? ==>
              exists i :: 0 <= i < |wal| && wal[i].key == k && wal[i].end == Stamp(ContentAt(wal, k, l))
  {
    if wal != [] {
      var init, r := wal[..|wal| - 1], wal[|wal| - 1];
      OrderedPrefix(wal);
      StampIsLast(init, k, l);
      if r.key == k && r.end <= l && r.kind.Delta? {
        ContentSame(init, k, r.start, l);
      }
    }
  }

  /** Whatever the log leaves in a page is named by its stamp. */
  lemma ContentIsVersion(wal: seq<Record>, k: PageKey, l: Lsn)
    requires Ordered(wal) && Grounded(wal, k)
    ensures IsVersion(wal, k, ContentAt(wal, k, l))
  {
    StampIsLast(wal, k, l);
    ContentSame(wal, k, Stamp(ContentAt(wal, k, l)), l);
  }

  /** A version stays one when the log grows past its stamp. */
  lemma VersionAppend(wal: seq<Record>, r: Record, k: PageKey, b: Bytes)
    requires IsVersion(wal, k, b)
    requires r.key == k ==> Stamp(b) < r.end
    ensures IsVersion(wal + [r], k, b)
  {
    ContentAppend(wal, r, k, Stamp(b));
  }

  /** Publishing the page's only later record turns one version into the next. */
  lemma {:induction false} ApplyIsVersion(wal: seq<Record>, k: PageKey, l: Lsn, i: nat)
    requires Ordered(wal)
    requires i < |wal| && wal[i].key == k && l < wal[i].end
    requires forall j | 0 <= j < |wal| && wal[j].key == k && l < wal[j].end :: j == i
    ensures ContentAt(wal, k, wal[i].end) == Apply(ContentAt(wal, k, l), wal[i])
  {
    var init := wal[..|wal| - 1];
    OrderedPrefix(wal);
    if i == |wal| - 1 {
      ContentSame(init, k, l, wal[i].end);
    } else {
      ApplyIsVersion(init, k, l, i);
    }
  }

  /** Replay leaves a page alone that already carries every replayed record. */
  lemma {:induction false} ReplayGated(wal: seq<Record>, k: PageKey, lo: Lsn, hi: Lsn, b: Bytes)
    requires forall i | 0 <= i < |wal| && InRange(wal[i], k, lo, hi) :: wal[i].end <= Stamp(b)
    ensures Replay(wal, k, lo, hi, b) == Done(b)
  {
    if wal != [] {
      ReplayGated(wal[..|wal| - 1], k, lo, hi, b);
    }
  }

  /** PageLSN-gated replay is sound: over any durable version of the page that holds
      every record before the floor, it rebuilds exactly the durable content. */
  lemma {:induction false} ReplayReaches(wal: seq<Record>, k: PageKey, lo: Lsn, hi: Lsn, b: Bytes)
    requires Ordered(wal) && Grounded(wal, k)
    requires IsVersion(wal, k, b) && Stamp(b) <= hi
    requires forall i | 0 <= i < |wal| && wal[i].key == k && wal[i].start < lo :: wal[i].end <= Stamp(b)
    ensures Replay(wal, k, lo, hi, b) == Done(ContentAt(wal, k, hi))
  {
    if wal != [] {
      var init, r := wal[..|wal| - 1], wal[|wal| - 1];
      OrderedPrefix(wal);
      if r.key == k && r.end <= Stamp(b) {
        ContentSame(wal, k, Stamp(b), hi);
        ReplayGated(wal, k, lo, hi, b);
      } else {
        ReplayReaches(init, k, lo, hi, b);
        StampIsLast(init, k, hi);
        if r.key == k && r.end <= hi {
          ContentSame(init, k, r.start, hi);
        }
      }
    }
  }

  /** `wal[i]` is the first replayed record of the page. */
  ghost predicate FirstInRange(wal: seq<Record>, k: PageKey, lo: Lsn, hi: Lsn, i: int) {
    && 0 <= i < |wal|
    && InRange(wal[i], k, lo, hi)
    && (forall j | 0 <= j < i :: !InRange(wal[j], k, lo, hi))
  }

  /** Replay over a page that does not validate rebuilds the durable content when the
      first replayed record of the page is a base, and fails when it is a delta. */
  lemma {:induction false} ReplayTorn(wal: seq<Record>, k: PageKey, lo: Lsn, hi: Lsn, i: int)
    requires Ordered(wal) && Grounded(wal, k)
    requires FirstInRange(wal, k, lo, hi, i)
    ensures Replay(wal, k, lo, hi, Zeroed)
         == if wal[i].IsBase() then Done(ContentAt(wal, k, hi)) else Failed
  {
    var n := |wal| - 1;
    var init, r := wal[..n], wal[n];
    OrderedPrefix(wal);
    if i == n {
      ReplayGated(init, k, lo, hi, Zeroed);
    } else {
      ReplayTorn(init, k, lo, hi, i);
      StampIsLast(init, k, hi);
      if r.key == k && r.end <= hi {
        ContentSame(init, k, r.start, hi);
      }
    }
  }

  /** The changes replay appends to a page stamped `l` when no base is replayed. */
  function DeltasPast(wal: seq<Record>, k: PageKey, lo: Lsn, hi: Lsn, l: Lsn): seq<int> {
    if wal == [] then []
    else
      var r := wal[|wal| - 1];
      var before := DeltasPast(wal[..|wal| - 1], k, lo, hi, l);
      if InRange(r, k, lo, hi) && l < r.end && r.kind.Delta? then before + [r.kind.change] else before
  }

  lemma {:induction false} ReplayKeepsUnbased(wal: seq<Record>, k: PageKey, lo: Lsn, hi: Lsn, l: Lsn, c: seq<int>)
    requires Ordered(wal)
    requires forall i | 0 <= i < |wal| && InRange(wal[i], k, lo, hi) && l < wal[i].end :: wal[i].kind.Delta?
    ensures var o := Replay(wal, k, lo, hi, Formatted(l, c));
            && o.Done? && o.bytes.Formatted? && l <= o.bytes.lsn
            && o.bytes.changes == c + DeltasPast(wal, k, lo, hi, l)
            && (o.bytes.lsn == l || exists i :: 0 <= i < |wal| && wal[i].end == o.bytes.lsn)
  {
    if wal != [] {
      OrderedPrefix(wal);
      ReplayKeepsUnbased(wal[..|wal| - 1], k, lo, hi, l, c);
    }
  }

  lemma {:induction false} ReplayBased(wal: seq<Record>, k: PageKey, lo: Lsn, hi: Lsn, l: Lsn, c: seq<int>, i: nat)
    requires Ordered(wal) && Grounded(wal, k)
    requires i < |wal| && InRange(wal[i], k, lo, hi) && wal[i].IsBase() && l < wal[i].end
    ensures Replay(wal, k, lo, hi, Formatted(l, c)) == Done(ContentAt(wal, k, hi))
  {
    var n := |wal| - 1;
    var init, r := wal[..n], wal[n];
    OrderedPrefix(wal);
    StampIsLast(init, k, hi);
    if i == n {
      ReplayDefined(init, k, lo, hi, Formatted(l, c));
    } else {
      ReplayBased(init, k, lo, hi, l, c, i);
      if r.key == k && r.end <= hi {
        ContentSame(init, k, r.start, hi);
      }
    }
  }

  /** Replay over formatted bytes never fails, and stamps no more than it replayed. */
  lemma {:induction false} ReplayDefined(wal: seq<Record>, k: PageKey, lo: Lsn, hi: Lsn, b: Bytes)
    requires Ordered(wal) && b.Formatted?
    ensures var o := Replay(wal, k, lo, hi, b);
            && o.Done? && o.bytes.Formatted?
            && (o.bytes.lsn == b.lsn || exists i :: 0 <= i < |wal| && wal[i].end == o.bytes.lsn)
  {
    if wal != [] {
      OrderedPrefix(wal);
      ReplayDefined(wal[..|wal| - 1], k, lo, hi, b);
    }
  }

  /** Redo rebuilds a page whatever changes a home write left in it exactly when a base
      record past the stamp it left is replayed. */
  lemma RebuildsAnyBytes(wal: seq<Record>, k: PageKey, lo: Lsn, hi: Lsn, l: Lsn)
    requires Ordered(wal) && Grounded(wal, k)
    ensures (forall c :: Replay(wal, k, lo, hi, Formatted(l, c)) == Done(ContentAt(wal, k, hi)))
       <==> (exists i :: 0 <= i < |wal| && InRange(wal[i], k, lo, hi) && wal[i].IsBase() && l < wal[i].end)
  {
    if i :| 0 <= i < |wal| && InRange(wal[i], k, lo, hi) && wal[i].IsBase() && l < wal[i].end {
      forall c ensures Replay(wal, k, lo, hi, Formatted(l, c)) == Done(ContentAt(wal, k, hi)) {
        ReplayBased(wal, k, lo, hi, l, c, i);
      }
    } else {
      ReplayKeepsUnbased(wal, k, lo, hi, l, []);
      ReplayKeepsUnbased(wal, k, lo, hi, l, [0]);
      var d := DeltasPast(wal, k, lo, hi, l);
      assert |[] + d| != |[0] + d|;
    }
  }
}
