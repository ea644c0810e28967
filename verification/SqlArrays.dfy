/** Rectangular SQL arrays: construction, and subscripts resolved to row-major offsets. */
module SqlArrays {
  import opened Options

  const MAX_DIMENSIONS: nat := 6
  const MAX_ELEMENTS: nat := 1_000_000
  const USIZE_MAX: nat := 0xFFFF_FFFF_FFFF_FFFF
  const I32_MIN: int := -0x8000_0000
  const I32_MAX: int := 0x7FFF_FFFF

  /** A dimension's length is a `u32`, its lower bound an `i32`. */
  datatype Dimension = Dimension(len: nat, lower: int)

  /** Elements are in row-major order; `None` is SQL NULL. */
  datatype SqlArray<T> = SqlArray(dims: seq<Dimension>, elements: seq<Option<T>>)

  function Lengths(dims: seq<Dimension>): (lens: seq<nat>)
    ensures |lens| == |dims| && forall i | 0 <= i < |dims| :: lens[i] == dims[i].len
  {
    seq(|dims|, i requires 0 <= i < |dims| => dims[i].len)
  }

  function Product(lens: seq<nat>): nat {
    if lens == [] then 1 else lens[0] * Product(lens[1..])
  }

  predicate BoundsFit(d: Dimension) {
    d.len <= I32_MAX && I32_MIN <= d.lower + d.len - 1 <= I32_MAX
  }

  /** What the constructor guarantees: an empty array has no dimensions, any other has its
      dimensions' product of elements, and every subscript in bounds is an `i32`. */
  ghost predicate Valid<T>(a: SqlArray<T>) {
    && |a.elements| <= MAX_ELEMENTS
    && |a.dims| <= MAX_DIMENSIONS
    && (a.elements == [] ==> a.dims == [])
    && (a.elements != [] ==> a.dims != [] && Product(Lengths(a.dims)) == |a.elements|)
    && (forall i | 0 <= i < |a.dims| :: I32_MIN <= a.dims[i].lower && BoundsFit(a.dims[i]))
  }

  // ---------------------------------------------------------------- construction

  /** Every element that is not NULL is of the element type. */
  predicate OfType<T>(elements: seq<Option<T>>, matches: T -> bool) {
    forall i | 0 <= i < |elements| && elements[i].Some? :: matches(elements[i].value)
  }

  /** The constructor accepts exactly the valid arrays of its element type, which is not an array
      type itself, and the empty arrays whose dimensions are all empty, which it strips of them. */
  method New<T>(ofArrays: bool, matches: T -> bool, dims: seq<Dimension>, elements: seq<Option<T>>)
    returns (r: Option<SqlArray<T>>)
    requires forall d | d in dims :: I32_MIN <= d.lower <= I32_MAX
    ensures ofArrays ==> r == None
    ensures !ofArrays && elements != [] ==>
              r == if Valid(SqlArray(dims, elements)) && OfType(elements, matches) then Some(SqlArray(dims, elements))
                   else None
    ensures !ofArrays && elements == [] ==>
              r == if |dims| <= MAX_DIMENSIONS && (forall d | d in dims :: d.len == 0)
                   then Some(SqlArray([], [])) else None
    ensures r.Some? ==> Valid(r.value) && OfType(r.value.elements, matches)
  {
    if ofArrays {
      return None;
    }
    if |dims| > MAX_DIMENSIONS || |elements| > MAX_ELEMENTS {
      return None;
    }
    if elements == [] {
      if exists d :: d in dims && d.len != 0 {
        return None;
      }
      return Some(SqlArray([], []));
    }
    if dims == [] {
      return None;
    }
    for i := 0 to |dims|
      invariant forall k | 0 <= k < i :: BoundsFit(dims[k])
    {
      if !BoundsFit(dims[i]) {
        return None;
      }
    }
    var cardinality := Cardinality(Lengths(dims));
    if cardinality != Some(|elements|) || !OfType(elements, matches) {
      return None;
    }
    return Some(SqlArray(dims, elements));
  }

  /** The checked product: it overflows only where the product is no array's cardinality. */
  method Cardinality(lens: seq<nat>) returns (r: Option<nat>)
    ensures r.Some? ==> r.value == Product(lens)
    ensures r.None? ==> Product(lens) == 0 || Product(lens) > USIZE_MAX
  {
    var product: nat := 1;
    for i := 0 to |lens|
      invariant product * Product(lens[i..]) == Product(lens)
    {
      assert lens[i..][1..] == lens[i + 1..];
      ProductSplits(product, lens[i], Product(lens[i + 1..]));
      if product * lens[i] > USIZE_MAX {
        return None;
      }
      product := product * lens[i];
    }
    return Some(product);
  }

  lemma ProductSplits(a: nat, b: nat, rest: nat)
    ensures a * (b * rest) == (a * b) * rest
    ensures rest == 0 || (a * b) * rest >= a * b
  {
  }

  // ---------------------------------------------------------------- subscripts

  function Size(dims: seq<Dimension>): nat {
    Product(Lengths(dims))
  }

  lemma SizeOfNone()
    ensures Size([]) == 1
  {
  }

  lemma SizeStep(dims: seq<Dimension>)
    requires dims != []
    ensures Size(dims) == dims[0].len * Size(dims[1..])
  {
    assert Lengths(dims)[1..] == Lengths(dims[1..]);
  }

  ghost predicate InBounds(dims: seq<Dimension>, subs: seq<int>) {
    |subs| == |dims|
    && forall i | 0 <= i < |dims| :: dims[i].lower <= subs[i] < dims[i].lower + dims[i].len
  }

  /** The number of elements before the one at `subs` in row-major order. */
  ghost function Offset(dims: seq<Dimension>, subs: seq<int>): nat
    requires InBounds(dims, subs)
  {
    if dims == [] then 0
    else (subs[0] - dims[0].lower) * Size(dims[1..]) + Offset(dims[1..], subs[1..])
  }

  /** Subscripts are resolved exactly when they are in bounds, and no step overflows. */
  method ElementOffset<T>(a: SqlArray<T>, subs: seq<int>) returns (r: Option<nat>)
    requires Valid(a)
    ensures r.Some? <==> a.dims != [] && InBounds(a.dims, subs)
    ensures r.Some? ==> r.value == Offset(a.dims, subs) < |a.elements|
  {
    if |subs| != |a.dims| || a.dims == [] {
      return None;
    }
    var offset: nat := 0;
    for i := 0 to |subs|
      invariant InBounds(a.dims[..i], subs[..i])
      invariant offset == Offset(a.dims[..i], subs[..i])
    {
      var relative := subs[i] - a.dims[i].lower;
      if relative < 0 || relative >= a.dims[i].len {
        return None;
      }
      OffsetAppend(a.dims[..i], subs[..i], a.dims[i], subs[i]);
      assert a.dims[..i] + [a.dims[i]] == a.dims[..i + 1] && subs[..i] + [subs[i]] == subs[..i + 1];
      OffsetBelow(a.dims[..i + 1], subs[..i + 1]);
      PrefixSize(a.dims, i + 1);
      if offset * a.dims[i].len > USIZE_MAX || offset * a.dims[i].len + relative > USIZE_MAX {
        return None;
      }
      offset := offset * a.dims[i].len + relative;
    }
    assert a.dims[..|subs|] == a.dims && subs[..|subs|] == subs;
    OffsetBelow(a.dims, subs);
    return Some(offset);
  }

  lemma {:induction false} OffsetBelow(dims: seq<Dimension>, subs: seq<int>)
    requires InBounds(dims, subs)
    ensures Offset(dims, subs) < Size(dims)
  {
    hide Size;
    if dims == [] {
      SizeOfNone();
    } else {
      OffsetBelow(dims[1..], subs[1..]);
      SizeStep(dims);
      LastRow(subs[0] - dims[0].lower, dims[0].len, Size(dims[1..]), Offset(dims[1..], subs[1..]));
    }
  }

  lemma LastRow(row: nat, rows: nat, n: nat, x: nat)
    requires row < rows && x < n
    ensures row * n + x < rows * n
  {
    MultiplesInOrder(row + 1, rows, n);
  }

  lemma {:induction false} SizeAppend(dims: seq<Dimension>, d: Dimension)
    ensures Size(dims + [d]) == Size(dims) * d.len
  {
    SizeStep(dims + [d]);
    if dims == [] {
      assert (dims + [d])[1..] == [];
    } else {
      SizeStep(dims);
      SizeAppend(dims[1..], d);
      assert (dims + [d])[1..] == dims[1..] + [d];
      ProductSplits(dims[0].len, Size(dims[1..]), d.len);
    }
  }

  lemma {:induction false} OffsetAppend(dims: seq<Dimension>, subs: seq<int>, d: Dimension, sub: int)
    requires InBounds(dims, subs) && d.lower <= sub < d.lower + d.len
    ensures InBounds(dims + [d], subs + [sub])
    ensures Offset(dims + [d], subs + [sub]) == Offset(dims, subs) * d.len + (sub - d.lower)
  {
    hide Size;
    var dims', subs' := dims + [d], subs + [sub];
    if dims == [] {
      SizeOfNone();
      assert dims'[1..] == [] && subs'[1..] == [];
    } else {
      OffsetAppend(dims[1..], subs[1..], d, sub);
      SizeAppend(dims[1..], d);
      assert dims'[1..] == dims[1..] + [d] && subs'[1..] == subs[1..] + [sub];
      RowsScale(subs[0] - dims[0].lower, Size(dims[1..]), Offset(dims[1..], subs[1..]), d.len, sub - d.lower);
    }
  }

  lemma RowsScale(row: nat, n: nat, x: nat, len: nat, rel: nat)
    ensures row * (n * len) + (x * len + rel) == (row * n + x) * len + rel
  {
    ProductSplits(row, n, len);
  }

  /** No prefix of the dimensions of a non-empty array is larger than the whole. */
  lemma {:induction false} PrefixSize(dims: seq<Dimension>, n: nat)
    requires n <= |dims| && Size(dims) > 0
    ensures 0 < Size(dims[..n]) <= Size(dims)
    decreases |dims| - n
  {
    if n == |dims| {
      assert dims[..n] == dims;
    } else {
      PrefixSize(dims, n + 1);
      assert dims[..n + 1] == dims[..n] + [dims[n]];
      SizeAppend(dims[..n], dims[n]);
    }
  }

  /** The subscripts of the element at offset `k`. */
  ghost function Subscripts(dims: seq<Dimension>, k: nat): (subs: seq<int>)
    requires k < Size(dims)
    ensures InBounds(dims, subs) && Offset(dims, subs) == k
  {
    if dims == [] then []
    else
      SizeStep(dims);
      var n := Size(dims[1..]);
      DivideBelow(k, n, dims[0].len);
      var rest := Subscripts(dims[1..], k % n);
      assert ([dims[0].lower + k / n] + rest)[1..] == rest;
      [dims[0].lower + k / n] + rest
  }

  lemma DivideBelow(k: nat, n: nat, len: nat)
    requires k < len * n
    ensures n > 0 && 0 <= k / n < len && k == k / n * n + k % n
  {
    MultiplesInOrder(len, k / n, n);
  }

  lemma MultiplesInOrder(a: nat, b: nat, n: nat)
    ensures a <= b ==> a * n <= b * n
  {
  }

  ghost predicate LexLess(s: seq<int>, t: seq<int>)
    requires |s| == |t|
  {
    s != [] && (s[0] < t[0] || (s[0] == t[0] && LexLess(s[1..], t[1..])))
  }

  /** Offsets follow the lexicographic order of subscripts, so distinct subscripts have
      distinct offsets. */
  lemma {:induction false} OffsetIsMonotone(dims: seq<Dimension>, s: seq<int>, t: seq<int>)
    requires InBounds(dims, s) && InBounds(dims, t)
    ensures LexLess(s, t) <==> Offset(dims, s) < Offset(dims, t)
    ensures s == t <==> Offset(dims, s) == Offset(dims, t)
  {
    hide Size;
    if dims != [] {
      var s', t', dims' := s[1..], t[1..], dims[1..];
      OffsetIsMonotone(dims', s', t');
      OffsetBelow(dims', s');
      OffsetBelow(dims', t');
      assert s == [s[0]] + s' && t == [t[0]] + t';
      RowsInOrder(s[0] - dims[0].lower, t[0] - dims[0].lower, Size(dims'), Offset(dims', s'), Offset(dims', t'));
    }
  }

  lemma RowsInOrder(i: nat, j: nat, n: nat, x: nat, y: nat)
    requires x < n && y < n
    ensures i < j ==> i * n + x < j * n + y
    ensures j < i ==> j * n + y < i * n + x
  {
    if i < j {
      assert (i + 1) * n <= j * n;
    } else if j < i {
      assert (j + 1) * n <= i * n;
    }
  }
}
