/** Page-number allocation per file: a next counter, the numbers handed out and given
    back below it, and the files whose counter was seeded from the durable extent. */
module Allocator {

  datatype Alloc = Alloc(next: map<nat, nat>, abandoned: map<nat, set<nat>>, seeded: set<nat>)

  function NextPage(a: Alloc, f: nat): nat {
    if f in a.next then a.next[f] else 0
  }

  predicate IsAbandoned(a: Alloc, f: nat, n: nat) {
    f in a.abandoned && n in a.abandoned[f]
  }

  /** `ensure_next_page_at_least` */
  function AtLeast(a: Alloc, f: nat, n: nat): Alloc {
    a.(next := a.next[f := if f in a.next && n < a.next[f] then a.next[f] else n])
  }

  function Seed(a: Alloc, f: nat, extent: nat): Alloc {
    if f in a.seeded then a
    else AtLeast(a.(seeded := a.seeded + {f}), f, extent)
  }

  /** `n` is the number `new_page` takes: the least abandoned one, or the next. */
  ghost predicate Picks(a: Alloc, f: nat, n: nat) {
    if f in a.abandoned && a.abandoned[f] != {}
    then n in a.abandoned[f] && (forall m: nat | m in a.abandoned[f] :: n <= m)
    else n == NextPage(a, f)
  }

  function Unabandon(a: Alloc, f: nat, n: nat): Alloc {
    if f !in a.abandoned then a
    else if a.abandoned[f] - {n} == {} then a.(abandoned := a.abandoned - {f})
    else a.(abandoned := a.abandoned[f := a.abandoned[f] - {n}])
  }

  /** `mark_page_allocated` */
  function MarkAllocated(a: Alloc, f: nat, n: nat): Alloc {
    AtLeast(Unabandon(a, f, n), f, n + 1)
  }

  /** `trim_abandoned_tail` */
  function Trim(a: Alloc, f: nat): Alloc
    decreases NextPage(a, f)
  {
    if f !in a.next || a.next[f] == 0 then a
    else
      var tail := a.next[f] - 1;
      if !IsAbandoned(a, f, tail) then a
      else
        var b := Unabandon(a, f, tail);
        Trim(b.(next := if tail == 0 then b.next - {f} else b.next[f := tail]), f)
  }

  /** `abandon_allocated_page` */
  function Abandon(a: Alloc, f: nat, n: nat): Alloc {
    Trim(a.(abandoned := a.abandoned[f := (if f in a.abandoned then a.abandoned[f] else {}) + {n}]), f)
  }

  /** Given-back numbers lie below the counter of a seeded file. */
  ghost predicate Below(a: Alloc) {
    forall f: nat, n: nat | IsAbandoned(a, f, n) :: f in a.seeded && n < NextPage(a, f)
  }

  /** The top allocated number of a file is never one that was given back. */
  ghost predicate TopInUse(a: Alloc, f: nat) {
    NextPage(a, f) > 0 ==> !IsAbandoned(a, f, NextPage(a, f) - 1)
  }

  ghost predicate AllocInv(a: Alloc) {
    Below(a) && (forall f: nat :: TopInUse(a, f))
  }

  /** A number that was handed out and is not given back. */
  predicate InUse(a: Alloc, f: nat, n: nat) {
    n < NextPage(a, f) && !IsAbandoned(a, f, n)
  }

  lemma AtLeastInUse(a: Alloc, f: nat, n: nat)
    requires InUse(a, f, n)
    ensures AtLeast(a, f, n + 1) == a
  {
    assert a.next[f := a.next[f]] == a.next;
  }

  lemma UnabandonIs(a: Alloc, f: nat, n: nat)
    ensures forall g: nat, m: nat :: IsAbandoned(Unabandon(a, f, n), g, m) <==> IsAbandoned(a, g, m) && !(g == f && m == n)
  {
    forall g: nat, m: nat
      ensures IsAbandoned(Unabandon(a, f, n), g, m) <==> IsAbandoned(a, g, m) && !(g == f && m == n)
    {
      assert f in a.abandoned && m in a.abandoned[f] && m != n ==> m in a.abandoned[f] - {n};
    }
  }

  lemma SameAbandoned(a: Alloc, b: Alloc)
    requires a.abandoned == b.abandoned
    ensures forall g: nat, m: nat :: IsAbandoned(a, g, m) <==> IsAbandoned(b, g, m)
  {
    forall g: nat, m: nat ensures IsAbandoned(a, g, m) <==> IsAbandoned(b, g, m) {
    }
  }

  /** Trimming lowers the counter past given-back numbers only, and stops at one in use. */
  lemma {:induction false} TrimKeeps(a: Alloc, f: nat)
    requires Below(a)
    ensures var b := Trim(a, f);
            && Below(b) && TopInUse(b, f) && b.seeded == a.seeded
            && (forall g: nat, n: nat :: InUse(b, g, n) <==> InUse(a, g, n))
            && (forall g: nat | g != f :: NextPage(b, g) == NextPage(a, g))
            && (forall g: nat, n: nat | g != f :: IsAbandoned(b, g, n) <==> IsAbandoned(a, g, n))
            && NextPage(b, f) <= NextPage(a, f)
    decreases NextPage(a, f)
  {
    if f in a.next && a.next[f] != 0 && IsAbandoned(a, f, a.next[f] - 1) {
      var tail := a.next[f] - 1;
      var b := Unabandon(a, f, tail);
      var c := b.(next := if tail == 0 then b.next - {f} else b.next[f := tail]);
      UnabandonIs(a, f, tail);
      SameAbandoned(b, c);
      TrimKeeps(c, f);
    }
  }

  /** Giving back a number in use: it is in use no longer, every other number is as
      before, and the allocator stays in order. */
  lemma AbandonKeeps(a: Alloc, f: nat, n: nat)
    requires AllocInv(a) && f in a.seeded && InUse(a, f, n)
    ensures AllocInv(Abandon(a, f, n))
    ensures Abandon(a, f, n).seeded == a.seeded
    ensures forall g: nat, m: nat :: InUse(Abandon(a, f, n), g, m) <==> InUse(a, g, m) && !(g == f && m == n)
  {
    var b := a.(abandoned := a.abandoned[f := (if f in a.abandoned then a.abandoned[f] else {}) + {n}]);
    assert forall g: nat, m: nat :: IsAbandoned(b, g, m) <==> IsAbandoned(a, g, m) || (g == f && m == n);
    TrimKeeps(b, f);
    forall g: nat ensures TopInUse(Abandon(a, f, n), g) {
      assert TopInUse(a, g);
    }
  }

  /** `new_page` takes a number that is not in use and puts it in use, and no other. */
  lemma AllocateKeeps(a: Alloc, f: nat, n: nat)
    requires AllocInv(a) && f in a.seeded && Picks(a, f, n)
    ensures !InUse(a, f, n)
    ensures AllocInv(MarkAllocated(a, f, n)) && MarkAllocated(a, f, n).seeded == a.seeded
    ensures forall g: nat, m: nat :: InUse(MarkAllocated(a, f, n), g, m) <==> InUse(a, g, m) || (g == f && m == n)
  {
    var b := Unabandon(a, f, n);
    UnabandonIs(a, f, n);
    assert f in a.abandoned && a.abandoned[f] != {} ==> IsAbandoned(a, f, n);
    var c := MarkAllocated(a, f, n);
    SameAbandoned(b, c);
    forall g: nat ensures TopInUse(c, g) {
      assert TopInUse(a, g);
    }
  }

  /** Raising a counter to cover pages the file already has. */
  lemma AtLeastKeeps(a: Alloc, f: nat, n: nat)
    requires AllocInv(a)
    requires n > 0 ==> !IsAbandoned(a, f, n - 1)
    ensures AllocInv(AtLeast(a, f, n)) && AtLeast(a, f, n).seeded == a.seeded
    ensures NextPage(AtLeast(a, f, n), f) >= n
    ensures forall g: nat, m: nat | InUse(a, g, m) :: InUse(AtLeast(a, f, n), g, m)
  {
    var b := AtLeast(a, f, n);
    SameAbandoned(a, b);
    forall g: nat ensures TopInUse(b, g) {
      assert TopInUse(a, g);
    }
  }

  lemma SeedKeeps(a: Alloc, f: nat, extent: nat)
    requires AllocInv(a)
    ensures AllocInv(Seed(a, f, extent)) && f in Seed(a, f, extent).seeded
    ensures f !in a.seeded ==> NextPage(Seed(a, f, extent), f) >= extent
    ensures forall g: nat, m: nat | InUse(a, g, m) :: InUse(Seed(a, f, extent), g, m)
    ensures forall g: nat, m: nat :: IsAbandoned(Seed(a, f, extent), g, m) <==> IsAbandoned(a, g, m)
  {
    if f !in a.seeded {
      var b := a.(seeded := a.seeded + {f});
      SameAbandoned(a, b);
      SameAbandoned(a, AtLeast(b, f, extent));
      assert forall m: nat | IsAbandoned(a, f, m) :: f in a.seeded;
      forall g: nat ensures TopInUse(b, g) {
        assert TopInUse(a, g);
      }
      AtLeastKeeps(b, f, extent);
    }
  }
}
