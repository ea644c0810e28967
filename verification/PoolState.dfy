/** The state behind the pool lock, updated in place: resident frames, the clock that
    chooses eviction victims, and the page-number allocator. Each method is the body of
    one lock-held section. */
module PoolState {
  import opened Options
  import opened Sequences
  import opened Redo
  import opened Frames
  import A = Allocator

  datatype Reclaim = FreedClean(key: PageKey) | ReservedDirty(key: PageKey) | NoVictim

  datatype DirtyPageEntry = DirtyPageEntry(key: PageKey, recLsn: Lsn)

  /** What a flush policy answers: it sees the log position of a frame and the transaction that
      dirtied it, which is known by the frame's identity. */
  type Policy = (nat, Option<Lsn>) -> bool

  /** The sweep looks at the reference bit: nobody pins the frame and no checkpoint holds it. */
  predicate Sweepable(f: Frame) {
    f.pins == 0 && !f.flushing
  }

  /** The sweep may take the frame: nobody pins it, no checkpoint holds it, and it is clean
      or the policy lets it be stolen. */
  predicate Evictable(f: Frame, stealing: bool, canFlush: Policy) {
    Sweepable(f) && (!f.dirty || (stealing && canFlush(f.id, f.latestLsn)))
  }

  /** A sweep only clears reference bits. */
  ghost predicate OnlyCleared(before: map<PageKey, Frame>, now: map<PageKey, Frame>) {
    && before.Keys == now.Keys
    && (forall k | k in before :: now[k] == before[k] || now[k] == before[k].(referenced := false))
  }

  function Without(xs: seq<PageKey>, x: PageKey): (r: seq<PageKey>)
    ensures forall y :: y in r <==> y in xs && y != x
    ensures Distinct(xs) ==> Distinct(r)
    ensures |r| <= |xs|
  {
    if xs == [] then []
    else
      var rest := Without(xs[1..], x);
      assert forall i | 0 <= i < |rest| :: rest[i] in xs[1..];
      assert forall i | 0 <= i < |xs[1..]| :: xs[1..][i] == xs[i + 1];
      if xs[0] == x then rest else [xs[0]] + rest
  }

  /** Keys in the order of `DirtyPageEntry`'s `Ord`: file, then page. */
  predicate KeyLess(a: PageKey, b: PageKey) {
    a.file < b.file || (a.file == b.file && a.num < b.num)
  }

  ghost predicate SortedByKey(es: seq<DirtyPageEntry>) {
    forall i, j | 0 <= i < j < |es| :: KeyLess(es[i].key, es[j].key)
  }

  /** The page is resident and nobody steals it, or there is room for it. */
  predicate CanInsert(frames: map<PageKey, Frame>, capacity: nat, k: PageKey) {
    if k in frames then !frames[k].evicting else |frames| < capacity
  }

  function FoundOrMade(frames: map<PageKey, Frame>, id: nat, k: PageKey, data: Bytes): Frame {
    if k in frames then frames[k] else NewFrame(id, data, true)
  }

  /** What came of giving back the page of a write guard. */
  datatype Abandoned = GivenBack | NotNew | AlreadyPublished | NotResident | OtherPins

  function AbandonOutcome(frames: map<PageKey, Frame>, k: PageKey, isNew: bool, published: bool): Abandoned {
    if !isNew then NotNew
    else if published then AlreadyPublished
    else if k !in frames then NotResident
    else if frames[k].pins > 1 then OtherPins
    else GivenBack
  }

  class PoolState {
    var frames: map<PageKey, Frame>
    var clockOrder: seq<PageKey>
    var clockHand: nat
    var alloc: A.Alloc
    var nextId: nat

    /** The clock order is a duplicate-free permutation of the resident keys. */
    ghost predicate Valid()
      reads this
    {
      && Distinct(clockOrder)
      && (forall k :: k in clockOrder <==> k in frames)
      && (if clockOrder == [] then clockHand == 0 else clockHand < |clockOrder|)
    }

    constructor ()
      ensures Valid() && frames == map[] && alloc == A.Alloc(map[], map[], {})
    {
      frames, clockOrder, clockHand, nextId := map[], [], 0, 0;
      alloc := A.Alloc(map[], map[], {});
    }

    method FixClockHand()
      modifies this`clockHand
      ensures if clockOrder == [] then clockHand == 0 else clockHand == old(clockHand) % |clockOrder|
    {
      if clockOrder == [] {
        clockHand := 0;
      } else {
        clockHand := clockHand % |clockOrder|;
      }
    }

    method RemoveFrame(k: PageKey)
      requires Distinct(clockOrder) && (forall q :: q in clockOrder <==> q in frames)
      modifies this`frames, this`clockOrder, this`clockHand
      ensures Valid() && frames == old(frames) - {k} && clockOrder == Without(old(clockOrder), k)
      ensures clockHand == if clockOrder == [] then 0 else old(clockHand) % |clockOrder|
    {
      frames := frames - {k};
      clockOrder := Without(clockOrder, k);
      FixClockHand();
    }

    /** One tick of the sweep: look at the frame under the hand, take it or move on. */
    method VisitHand(stealing: bool, canFlush: Policy) returns (r: Reclaim)
      requires Valid() && clockOrder != []
      modifies this`frames, this`clockOrder, this`clockHand
      ensures Valid()
      ensures old(clockOrder[clockHand] in frames)
      ensures var k, f := old(clockOrder[clockHand]), old(frames[clockOrder[clockHand]]);
              match r
              case NoVictim =>
                && !(Evictable(f, stealing, canFlush) && !f.referenced)
                && clockOrder == old(clockOrder) && clockHand == (old(clockHand) + 1) % |clockOrder|
                && frames == if Sweepable(f) then old(frames)[k := f.(referenced := false)] else old(frames)
              case FreedClean(v) =>
                && v == k && Evictable(f, stealing, canFlush) && !f.referenced && !f.dirty
                && frames == old(frames) - {k} && clockOrder == Without(old(clockOrder), k)
                && clockHand == if clockOrder == [] then 0 else old(clockHand) % |clockOrder|
              case ReservedDirty(v) =>
                && v == k && Evictable(f, stealing, canFlush) && !f.referenced && f.dirty
                && frames == old(frames)[k := Pinned(f.(evicting := true))]
                && clockOrder == old(clockOrder) && clockHand == old(clockHand)
    {
      var n := |clockOrder|;
      var k := clockOrder[clockHand];
      assert k in clockOrder;
      var f := frames[k];
      if f.pins != 0 || f.flushing {
        clockHand := (clockHand + 1) % n;
        return NoVictim;
      }
      if f.referenced {
        frames := frames[k := f.(referenced := false)];
        clockHand := (clockHand + 1) % n;
        return NoVictim;
      }
      if !f.dirty {
        RemoveFrame(k);
        return FreedClean(k);
      }
      if stealing && canFlush(f.id, f.latestLsn) {
        frames := frames[k := Pinned(f.(evicting := true))];
        return ReservedDirty(k);
      }
      clockHand := (clockHand + 1) % n;
      return NoVictim;
    }

    /** Clock sweep for a victim, of at most two turns: it comes back without one only when
        no frame is evictable at all. */
    method ReclaimVictim(stealing: bool, canFlush: Policy) returns (r: Reclaim)
      requires Valid()
      modifies this`frames, this`clockOrder, this`clockHand
      ensures Valid()
      ensures Reclaimed(old(frames), frames, r, stealing, canFlush)
      ensures r.NoVictim? <==> forall k | k in old(frames) :: !Evictable(old(frames)[k], stealing, canFlush)
      ensures r.NoVictim? ==> frames == Passing(old(frames), old(clockOrder), old(clockHand), |old(clockOrder)|)
      ensures !r.NoVictim? ==>
                old(clockHand) < |old(clockOrder)|
                && exists j: nat :: j < |old(clockOrder)|
                     && TakenAt(old(frames), old(clockOrder), old(clockHand), j, frames, r, stealing, canFlush)
                     && HandAfter(old(clockOrder), old(clockHand), j, r, clockOrder, clockHand)
    {
      hide At, Unfound, Reclaimed, Evictable, Passing, TakenAt, HandAfter, Sweepable;
      ghost var start, before, order := clockHand, frames, clockOrder;
      var n := |clockOrder|;
      SweepStarts(before, order, start, stealing, canFlush);
      var i := 0;
      while i < 2 * n
        invariant 0 <= i <= 2 * n && clockOrder == order && Valid()
        invariant n > 0 ==> clockHand == At(start, i, n)
        invariant frames == Passing(before, order, start, i)
        invariant n > 0 ==> Unfound(before, order, start, i, stealing, canFlush)
      {
        ghost var f := frames[order[At(start, i, n)]];
        r := VisitHand(stealing, canFlush);
        if !r.NoVictim? {
          TakesAt(before, order, start, i, f, frames, r, stealing, canFlush);
          HandStops(order, start, i, r, clockOrder, clockHand);
          TakenIsReclaimed(before, order, start, Place(i, n), frames, r, stealing, canFlush);
          return;
        }
        PassesAt(before, order, start, i, f, stealing, canFlush);
        AtNext(start, i, n);
        i := i + 1;
      }
      r := NoVictim;
      NothingFound(before, order, start, stealing, canFlush);
    }

    /** The resident frame, or `data` as a clean frame if there is room. `None` tells the
        caller to wait for a steal or make room, and changes nothing. */
    method GetOrInsertClean(capacity: nat, k: PageKey, data: Bytes) returns (found: bool)
      requires Valid()
      modifies this`frames, this`clockOrder, this`nextId
      ensures Valid()
      ensures found <==> CanInsert(old(frames), capacity, k)
      ensures !found ==> frames == old(frames)
      ensures found && k in old(frames) ==> frames == old(frames)[k := old(frames)[k].(referenced := true)]
      ensures found && k !in old(frames) ==> frames == old(frames)[k := NewFrame(old(nextId), data, true)]
      ensures nextId == if found && k !in old(frames) then old(nextId) + 1 else old(nextId)
    {
      if k in frames {
        if frames[k].evicting {
          return false;
        }
        frames := frames[k := frames[k].(referenced := true)];
        return true;
      }
      if |frames| >= capacity {
        return false;
      }
      Insert(k, NewFrame(nextId, data, true));
      nextId := nextId + 1;
      return true;
    }

    /** What a thread does with the bytes it loaded, under the pool lock: the frame found or made
        is pinned, and its number counts as allocated. */
    method InsertLoaded(capacity: nat, k: PageKey, data: Bytes) returns (found: bool)
      requires Valid()
      modifies this`frames, this`clockOrder, this`nextId, this`alloc
      ensures Valid()
      ensures found <==> CanInsert(old(frames), capacity, k)
      ensures !found ==> frames == old(frames) && alloc == old(alloc) && nextId == old(nextId)
      ensures found ==>
                && frames == old(frames)[k := Pinned(FoundOrMade(old(frames), old(nextId), k, data))]
                && alloc == A.AtLeast(old(alloc), k.file, k.num + 1)
                && nextId == if k in old(frames) then old(nextId) else old(nextId) + 1
    {
      found := GetOrInsertClean(capacity, k, data);
      if found {
        frames := frames[k := Pinned(frames[k])];
        alloc := A.AtLeast(alloc, k.file, k.num + 1);
      }
    }

    method Insert(k: PageKey, f: Frame)
      requires Valid() && k !in frames
      modifies this`frames, this`clockOrder
      ensures Valid() && frames == old(frames)[k := f]
    {
      frames := frames[k := f];
      clockOrder := clockOrder + [k];
    }

    /** The body of `new_page` under the pool lock. `None` asks for room; an error would be
        a number that is already resident. */
    method NewPage(capacity: nat, file: nat) returns (full: bool, resident: bool, num: nat)
      requires Valid()
      modifies this`frames, this`clockOrder, this`nextId, this`alloc
      ensures Valid()
      ensures full <==> |old(frames)| >= capacity
      ensures !full ==> A.Picks(old(alloc), file, num) && (resident <==> PageKey(file, num) in old(frames))
      ensures full || resident ==> frames == old(frames) && alloc == old(alloc) && nextId == old(nextId)
      ensures !full && !resident ==>
                && frames == old(frames)[PageKey(file, num) := Pinned(NewFrame(old(nextId), Zeroed, false))]
                && alloc == A.MarkAllocated(old(alloc), file, num) && nextId == old(nextId) + 1
    {
      if |frames| >= capacity {
        return true, false, 0;
      }
      if file in alloc.abandoned && alloc.abandoned[file] != {} {
        num := Least(alloc.abandoned[file]);
      } else {
        num := A.NextPage(alloc, file);
      }
      var k := PageKey(file, num);
      if k in frames {
        return false, true, num;
      }
      Insert(k, Pinned(NewFrame(nextId, Zeroed, false)));
      nextId := nextId + 1;
      alloc := A.MarkAllocated(alloc, file, num);
      return false, false, num;
    }

    /** Gives back the number of a page that `new_page` returned and nobody published, and trims
        the tail. An error changes nothing. */
    method AbandonPage(k: PageKey, isNew: bool, published: bool) returns (r: Abandoned)
      requires Valid()
      modifies this`frames, this`clockOrder, this`clockHand, this`alloc
      ensures Valid()
      ensures r == AbandonOutcome(old(frames), k, isNew, published)
      ensures !r.GivenBack? ==> frames == old(frames) && alloc == old(alloc)
      ensures r.GivenBack? ==> frames == old(frames) - {k} && alloc == A.Abandon(old(alloc), k.file, k.num)
    {
      if !isNew {
        return NotNew;
      }
      if published {
        return AlreadyPublished;
      }
      if k !in frames {
        return NotResident;
      }
      if frames[k].pins > 1 {
        return OtherPins;
      }
      RemoveFrame(k);
      var pages := (if k.file in alloc.abandoned then alloc.abandoned[k.file] else {}) + {k.num};
      alloc := alloc.(abandoned := alloc.abandoned[k.file := pages]);
      TrimAbandonedTail(k.file);
      return GivenBack;
    }

    method TrimAbandonedTail(file: nat)
      modifies this`alloc
      ensures alloc == A.Trim(old(alloc), file)
    {
      while file in alloc.next && alloc.next[file] != 0 && A.IsAbandoned(alloc, file, alloc.next[file] - 1)
        invariant A.Trim(alloc, file) == A.Trim(old(alloc), file)
        decreases A.NextPage(alloc, file)
      {
        var tail := alloc.next[file] - 1;
        var pages := alloc.abandoned[file] - {tail};
        if pages == {} {
          alloc := alloc.(abandoned := alloc.abandoned - {file});
        } else {
          alloc := alloc.(abandoned := alloc.abandoned[file := pages]);
        }
        if tail == 0 {
          alloc := alloc.(next := alloc.next - {file});
        } else {
          alloc := alloc.(next := alloc.next[file := tail]);
        }
      }
    }

    /** A checkpoint reserves, in order, the candidates that are resident, not being stolen
        and not reserved yet; a repeated candidate is reserved once. */
    method ReserveCandidates(candidates: seq<PageKey>) returns (reserved: seq<PageKey>)
      requires Valid()
      modifies this`frames
      ensures Valid() && Distinct(reserved)
      ensures forall k :: k in reserved <==>
                k in candidates && k in old(frames) && !old(frames)[k].evicting && !old(frames)[k].flushing
      ensures frames.Keys == old(frames).Keys
      ensures forall k | k in frames ::
                frames[k] == if k in reserved then old(frames)[k].(flushing := true) else old(frames)[k]
    {
      reserved := [];
      for i := 0 to |candidates|
        invariant Valid() && Distinct(reserved) && frames.Keys == old(frames).Keys
        invariant forall k :: k in reserved <==>
                    k in candidates[..i] && k in old(frames) && !old(frames)[k].evicting && !old(frames)[k].flushing
        invariant forall k | k in frames ::
                    frames[k] == if k in reserved then old(frames)[k].(flushing := true) else old(frames)[k]
      {
        var k := candidates[i];
        assert candidates[..i + 1] == candidates[..i] + [k];
        if k in frames && !frames[k].evicting && !frames[k].flushing {
          frames := frames[k := frames[k].(flushing := true)];
          reserved := reserved + [k];
        }
      }
      assert candidates[..|candidates|] == candidates;
    }

    /** One entry for each dirty frame, sorted; an error if one has no redo boundary. */
    method DirtyPageTable() returns (r: Option<seq<DirtyPageEntry>>)
      requires Valid()
      ensures r.None? <==> exists k :: k in frames && frames[k].dirty && frames[k].recLsn.None?
      ensures r.Some? ==> SortedByKey(r.value)
      ensures r.Some? ==> forall e :: e in r.value <==>
                e.key in frames && frames[e.key].dirty && frames[e.key].recLsn == Some(e.recLsn)
    {
      var es: seq<DirtyPageEntry> := [];
      for i := 0 to |clockOrder|
        invariant SortedByKey(es)
        invariant forall e :: e in es <==>
                    e.key in clockOrder[..i] && e.key in frames && frames[e.key].dirty && frames[e.key].recLsn == Some(e.recLsn)
        invariant forall k | k in clockOrder[..i] && frames[k].dirty :: frames[k].recLsn.Some?
      {
        var k := clockOrder[i];
        assert k in clockOrder;
        assert clockOrder[..i + 1] == clockOrder[..i] + [k];
        if frames[k].dirty {
          if frames[k].recLsn.None? {
            return None;
          }
          es := InsertSorted(es, DirtyPageEntry(k, frames[k].recLsn.value));
        }
      }
      assert clockOrder[..|clockOrder|] == clockOrder;
      return Some(es);
    }
  }

  method Least(s: set<nat>) returns (m: nat)
    requires s != {}
    ensures m in s && forall x | x in s :: m <= x
  {
    m :| m in s;
    var rest := s - {m};
    while rest != {}
      invariant m in s && rest <= s
      invariant forall x | x in s && x !in rest :: m <= x
      decreases rest
    {
      var y :| y in rest;
      rest := rest - {y};
      if y < m {
        m := y;
      }
    }
  }

  function InsertSorted(es: seq<DirtyPageEntry>, e: DirtyPageEntry): (r: seq<DirtyPageEntry>)
    requires SortedByKey(es) && forall x | x in es :: x.key != e.key
    ensures SortedByKey(r)
    ensures forall x :: x in r <==> x in es || x == e
  {
    if es == [] || KeyLess(e.key, es[0].key) then
      assert forall i | 1 <= i < |[e] + es| :: ([e] + es)[i] == es[i - 1];
      [e] + es
    else
      assert forall x | x in es[1..] :: x in es;
      var rest := InsertSorted(es[1..], e);
      assert forall i | 0 <= i < |rest| :: rest[i] in rest;
      assert forall x | x in rest :: KeyLess(es[0].key, x.key);
      [es[0]] + rest
  }

  /** What a sweep that came back with `r` did to the frames. */
  ghost predicate Reclaimed(before: map<PageKey, Frame>, now: map<PageKey, Frame>, r: Reclaim,
                            stealing: bool, canFlush: Policy) {
    match r
    case NoVictim => OnlyCleared(before, now)
    case FreedClean(k) =>
      k in before && Evictable(before[k], stealing, canFlush) && !before[k].dirty && OnlyCleared(before - {k}, now)
    case ReservedDirty(k) =>
      && k in before && Evictable(before[k], stealing, canFlush) && before[k].dirty
      && k in now && now[k] == Pinned(before[k].(evicting := true)) && OnlyCleared(before - {k}, now - {k})
  }

  // ---------------------------------------------------------------- the sweep

  /** Where the hand is after `i` moves from `start` on a clock of `n`, for two turns. */
  function At(start: nat, i: nat, n: nat): (p: nat)
    requires start < n
    ensures i < 2 * n ==> p < n
  {
    var q := start + i;
    if q < n then q else if q < 2 * n then q - n else if q < 3 * n then q - 2 * n else q
  }

  /** The place of the first turn that move `i` comes to. */
  function Place(i: nat, n: nat): nat {
    if i < n then i else i - n
  }

  lemma AtNext(start: nat, i: nat, n: nat)
    requires start < n && i < 2 * n
    ensures At(start, i + 1, n) == (At(start, i, n) + 1) % n
  {
    var p := At(start, i, n);
    if p + 1 == n {
      assert (p + 1) % n == 0;
    } else {
      assert (p + 1) % n == p + 1;
    }
  }

  lemma AtPlace(start: nat, i: nat, n: nat)
    requires start < n && i < 2 * n
    ensures Place(i, n) < n && At(start, Place(i, n), n) == At(start, i, n)
  {
  }

  /** The frame the hand comes to after `j` moves from `start`. */
  ghost function FrameAt(frames: map<PageKey, Frame>, order: seq<PageKey>, start: nat, j: nat): Frame
    requires start < |order| && j < |order| && (forall k :: k in order <==> k in frames)
  {
    assert order[At(start, j, |order|)] in order;
    frames[order[At(start, j, |order|)]]
  }

  ghost predicate AmongFirst(order: seq<PageKey>, start: nat, m: nat, k: PageKey) {
    start < |order| && exists j: nat :: j < m && j < |order| && order[At(start, j, |order|)] == k
  }

  /** The frames once the hand has passed the first `m` places: the reference bit is gone from
      exactly those it could look at. */
  ghost function Passing(frames: map<PageKey, Frame>, order: seq<PageKey>, start: nat, m: nat): map<PageKey, Frame> {
    map k | k in frames ::
      if Sweepable(frames[k]) && AmongFirst(order, start, m, k) then frames[k].(referenced := false) else frames[k]
  }

  /** Place `j` holds the victim of the sweep: the first evictable frame whose reference bit is
      clear, or, if no evictable frame has its bit clear, the first evictable one. */
  ghost predicate IsVictim(frames: map<PageKey, Frame>, order: seq<PageKey>, start: nat, j: nat, stealing: bool, canFlush: Policy)
    requires start < |order| && j < |order| && (forall k :: k in order <==> k in frames)
  {
    && Evictable(FrameAt(frames, order, start, j), stealing, canFlush)
    && if !FrameAt(frames, order, start, j).referenced
       then forall i: nat | i < j :: PassedOver(FrameAt(frames, order, start, i), stealing, canFlush)
       else (forall i: nat | i < |order| :: PassedOver(FrameAt(frames, order, start, i), stealing, canFlush))
            && (forall i: nat | i < j :: !Evictable(FrameAt(frames, order, start, i), stealing, canFlush))
  }

  /** On its first turn the hand passes the frame. */
  predicate PassedOver(f: Frame, stealing: bool, canFlush: Policy) {
    Evictable(f, stealing, canFlush) ==> f.referenced
  }

  /** The sweep took the victim at place `j` and passed what lies before it, on its second turn
      everything. */
  ghost predicate TakenAt(before: map<PageKey, Frame>, order: seq<PageKey>, start: nat, j: nat, now: map<PageKey, Frame>,
                          r: Reclaim, stealing: bool, canFlush: Policy)
    requires start < |order| && j < |order| && (forall k :: k in order <==> k in before)
  {
    var k, f := order[At(start, j, |order|)], FrameAt(before, order, start, j);
    var passed := Passing(before, order, start, if f.referenced then |order| else j);
    && IsVictim(before, order, start, j, stealing, canFlush)
    && match r
       case NoVictim => false
       case FreedClean(v) => v == k && !f.dirty && now == passed - {k}
       case ReservedDirty(v) => v == k && f.dirty && now == passed[k := Pinned(f.(evicting := true))]
  }

  /** The hand stays at the victim, or at what comes after it if the victim is gone. */
  ghost predicate HandAfter(order: seq<PageKey>, start: nat, j: nat, r: Reclaim, order': seq<PageKey>, hand: nat)
    requires start < |order| && j < |order|
  {
    var p := At(start, j, |order|);
    if r.FreedClean? then order' == Without(order, order[p]) && hand == (if order' == [] then 0 else p % |order'|)
    else order' == order && hand == p
  }

  /** Before move `i` no victim was found. */
  ghost predicate Unfound(before: map<PageKey, Frame>, order: seq<PageKey>, start: nat, i: nat, stealing: bool, canFlush: Policy)
    requires start < |order| && (forall k :: k in order <==> k in before)
  {
    var n := |order|;
    && (forall j: nat | j < i && j < n :: PassedOver(FrameAt(before, order, start, j), stealing, canFlush))
    && (forall j: nat | j + n < i && j < n :: !Evictable(FrameAt(before, order, start, j), stealing, canFlush))
  }

  lemma SweepStarts(before: map<PageKey, Frame>, order: seq<PageKey>, start: nat, stealing: bool, canFlush: Policy)
    requires forall k :: k in order <==> k in before
    ensures Passing(before, order, start, 0) == before
    ensures start < |order| ==> Unfound(before, order, start, 0, stealing, canFlush) && At(start, 0, |order|) == start
  {
  }

  /** The frame under the hand at move `i`: as it was on the first turn, without its bit on the
      second. */
  lemma UnderHand(before: map<PageKey, Frame>, order: seq<PageKey>, start: nat, i: nat)
    requires start < |order| && i < 2 * |order| && Distinct(order) && (forall k :: k in order <==> k in before)
    ensures var f, k := FrameAt(before, order, start, Place(i, |order|)), order[At(start, i, |order|)];
            && k in Passing(before, order, start, i)
            && k == order[At(start, Place(i, |order|), |order|)]
            && Passing(before, order, start, i)[k] == if i >= |order| && Sweepable(f) then f.(referenced := false) else f
  {
    var n, k := |order|, order[At(start, i, |order|)];
    AtPlace(start, i, n);
    assert k in order;
    if i < n {
      assert !AmongFirst(order, start, i, k);
    } else {
      assert AmongFirst(order, start, i, k);
    }
  }

  lemma PassingMore(before: map<PageKey, Frame>, order: seq<PageKey>, start: nat, i: nat)
    requires start < |order| && i < 2 * |order| && Distinct(order) && (forall k :: k in order <==> k in before)
    ensures var f, k := FrameAt(before, order, start, Place(i, |order|)), order[At(start, i, |order|)];
            Passing(before, order, start, i + 1)
            == if Sweepable(f) then Passing(before, order, start, i)[k := f.(referenced := false)]
               else Passing(before, order, start, i)
  {
    hide AmongFirst, At, Place, Sweepable;
    var k := order[At(start, i, |order|)];
    UnderHand(before, order, start, i);
    forall q ensures AmongFirst(order, start, i + 1, q) <==> AmongFirst(order, start, i, q) || q == k {
      AmongMore(order, start, i, q);
    }
  }

  lemma AmongMore(order: seq<PageKey>, start: nat, i: nat, q: PageKey)
    requires start < |order| && i < 2 * |order|
    ensures AmongFirst(order, start, i + 1, q) <==> AmongFirst(order, start, i, q) || q == order[At(start, i, |order|)]
  {
    hide At;
    var n, k := |order|, order[At(start, i, |order|)];
    AtPlace(start, i, n);
    assert Place(i, n) < i + 1;
    if AmongFirst(order, start, i + 1, q) && q != k {
      var j: nat :| j < i + 1 && j < n && order[At(start, j, n)] == q;
      assert j < i;
    }
  }

  /** A move that finds no victim. */
  lemma PassesAt(before: map<PageKey, Frame>, order: seq<PageKey>, start: nat, i: nat, f: Frame, stealing: bool, canFlush: Policy)
    requires start < |order| && i < 2 * |order| && Distinct(order) && (forall k :: k in order <==> k in before)
    requires order[At(start, i, |order|)] in Passing(before, order, start, i)
    requires f == Passing(before, order, start, i)[order[At(start, i, |order|)]]
    requires Unfound(before, order, start, i, stealing, canFlush)
    requires !(Evictable(f, stealing, canFlush) && !f.referenced)
    ensures var was := Passing(before, order, start, i);
            (if Sweepable(f) then was[order[At(start, i, |order|)] := f.(referenced := false)] else was)
            == Passing(before, order, start, i + 1)
    ensures Unfound(before, order, start, i + 1, stealing, canFlush)
  {
    hide Passing, At;
    UnderHand(before, order, start, i);
    PassingMore(before, order, start, i);
  }

  /** A move that finds the victim. */
  lemma TakesAt(before: map<PageKey, Frame>, order: seq<PageKey>, start: nat, i: nat, f: Frame, now: map<PageKey, Frame>,
                r: Reclaim, stealing: bool, canFlush: Policy)
    requires start < |order| && i < 2 * |order| && Distinct(order) && (forall k :: k in order <==> k in before)
    requires order[At(start, i, |order|)] in Passing(before, order, start, i)
    requires f == Passing(before, order, start, i)[order[At(start, i, |order|)]]
    requires Unfound(before, order, start, i, stealing, canFlush) && Evictable(f, stealing, canFlush) && !f.referenced
    requires var was, k := Passing(before, order, start, i), order[At(start, i, |order|)];
             match r
             case NoVictim => false
             case FreedClean(v) => v == k && !f.dirty && now == was - {k}
             case ReservedDirty(v) => v == k && f.dirty && now == was[k := Pinned(f.(evicting := true))]
    ensures Place(i, |order|) < |order|
    ensures TakenAt(before, order, start, Place(i, |order|), now, r, stealing, canFlush)
  {
    hide Passing, At;
    UnderHand(before, order, start, i);
    AtPlace(start, i, |order|);
    if i >= |order| {
      PassingAll(before, order, start, i);
    }
  }

  lemma PassingAll(before: map<PageKey, Frame>, order: seq<PageKey>, start: nat, i: nat)
    requires start < |order| && i >= |order|
    ensures Passing(before, order, start, i) == Passing(before, order, start, |order|)
  {
    forall k ensures AmongFirst(order, start, i, k) <==> AmongFirst(order, start, |order|, k) {
    }
  }

  lemma HandStops(order: seq<PageKey>, start: nat, i: nat, r: Reclaim, order': seq<PageKey>, hand: nat)
    requires start < |order| && i < 2 * |order|
    requires var p := At(start, i, |order|);
             if r.FreedClean? then order' == Without(order, order[p]) && hand == (if order' == [] then 0 else p % |order'|)
             else order' == order && hand == p
    ensures Place(i, |order|) < |order| && HandAfter(order, start, Place(i, |order|), r, order', hand)
  {
    hide At;
    AtPlace(start, i, |order|);
  }

  lemma PassingClears(before: map<PageKey, Frame>, order: seq<PageKey>, start: nat, m: nat)
    ensures OnlyCleared(before, Passing(before, order, start, m))
  {
  }

  lemma TakenIsReclaimed(before: map<PageKey, Frame>, order: seq<PageKey>, start: nat, j: nat, now: map<PageKey, Frame>,
                         r: Reclaim, stealing: bool, canFlush: Policy)
    requires start < |order| && j < |order| && (forall k :: k in order <==> k in before)
    requires TakenAt(before, order, start, j, now, r, stealing, canFlush)
    ensures Reclaimed(before, now, r, stealing, canFlush)
    ensures exists k :: k in before && Evictable(before[k], stealing, canFlush)
  {
    hide Passing, At, PassedOver;
    var k, f := order[At(start, j, |order|)], FrameAt(before, order, start, j);
    assert k in order;
    PassingClears(before, order, start, if f.referenced then |order| else j);
  }

  lemma NothingFound(before: map<PageKey, Frame>, order: seq<PageKey>, start: nat, stealing: bool, canFlush: Policy)
    requires forall k :: k in order <==> k in before
    requires order != [] ==> start < |order| && Unfound(before, order, start, 2 * |order|, stealing, canFlush)
    ensures forall k | k in before :: !Evictable(before[k], stealing, canFlush)
    ensures var now := Passing(before, order, start, 2 * |order|);
            now == Passing(before, order, start, |order|) && Reclaimed(before, now, NoVictim, stealing, canFlush)
  {
    hide Passing;
    PassingClears(before, order, start, 2 * |order|);
    if order != [] {
      PassingAll(before, order, start, 2 * |order|);
    }
    forall k | k in before ensures !Evictable(before[k], stealing, canFlush) {
      var n := |order|;
      var p :| 0 <= p < n && order[p] == k;
      var j := if p >= start then p - start else p - start + n;
      assert At(start, j, n) == p;
      assert FrameAt(before, order, start, j) == before[k];
    }
  }
}
