/** Every text the parser accepts describes a rectangular array that the constructor accepts. */
module ArrayAccepted {
  import opened Options
  import opened SqlArrays
  import opened ArrayText
  import opened ArrayParser

  /** `r` read `n` scalars after `tokens`, within the element limit. */
  ghost predicate Adds(c: Cursor, tokens: seq<Token>, r: Read, n: nat) {
    && tokens <= r.tokens
    && |r.tokens| == |tokens| + n
    && r.cursor.elements == c.elements + n
    && (n > 0 ==> r.cursor.elements <= MAX_ELEMENTS)
  }

  ghost predicate Rectangular(c: Cursor, depth: nat, tokens: seq<Token>, r: Read) {
    && 1 <= |r.shape| <= MAX_DIMENSIONS - depth
    && Adds(c, tokens, r, Product(r.shape))
    && (Product(r.shape) == 0 ==> r.shape == [0] && depth == 0)
  }

  /** An item holds one scalar, or as many as its shape describes. */
  ghost predicate ItemOk(c: Cursor, depth: nat, nested: Option<Shape>, count: nat, tokens: seq<Token>, r: Read) {
    && |r.shape| <= MAX_DIMENSIONS - depth - 1
    && Product(r.shape) > 0
    && Adds(c, tokens, r, Product(r.shape))
    && (count > 0 ==> nested == AsNested(r.shape))
  }

  ghost predicate ItemsOk(c: Cursor, depth: nat, nested: Option<Shape>, count: nat, tokens: seq<Token>, r: Read) {
    && 1 <= |r.shape| <= MAX_DIMENSIONS - depth
    && r.shape[0] > count
    && Product(r.shape[1..]) > 0
    && Adds(c, tokens, r, (r.shape[0] - count) * Product(r.shape[1..]))
    && (count > 0 ==> nested == AsNested(r.shape[1..]))
  }

  lemma {:induction false} ListIsRectangular(s: string, c: Cursor, depth: nat, tokens: seq<Token>)
    requires c.offset <= |s|
    ensures var r := ReadList(s, c, depth, tokens); r.Ok? ==> Rectangular(c, depth, tokens, r.value)
    decreases |s| - c.offset, 0
  {
    hide SkipSpace, ReadItems, ItemsOk;
    var i := SkipSpace(s, c.offset);
    if c.lists + 1 <= MAX_LISTS && depth < MAX_DIMENSIONS && At(s, i, '{') {
      var j := SkipSpace(s, i + 1);
      var c1 := Cursor(j, c.lists + 1, c.elements);
      if !At(s, j, '}') {
        ItemsAreRectangular(s, c1, depth, 0, None, tokens);
        var r := ReadItems(s, c1, depth, 0, None, tokens);
        if r.Ok? {
          WholeList(c1, depth, tokens, r.value);
        }
      }
    }
  }

  lemma WholeList(c: Cursor, depth: nat, tokens: seq<Token>, r: Read)
    requires ItemsOk(c, depth, None, 0, tokens, r)
    ensures Rectangular(c, depth, tokens, r)
  {
    ProductStep(r.shape);
  }

  lemma {:induction false} ItemIsRectangular(
    s: string, c: Cursor, depth: nat, count: nat, nested: Option<Shape>, tokens: seq<Token>)
    requires c.offset <= |s| && depth < MAX_DIMENSIONS
    requires (nested.Some? ==> count > 0 && nested.value != [])
    ensures var r := ReadItem(s, c, depth, count, nested, tokens);
            r.Ok? ==> ItemOk(c, depth, nested, count, tokens, r.value)
    decreases |s| - c.offset, 1
  {
    hide SkipSpace, ReadElement, ReadList;
    var i := SkipSpace(s, c.offset);
    ListIsRectangular(s, c.(offset := i), depth + 1, tokens);
  }

  lemma {:induction false} ItemsAreRectangular(
    s: string, c: Cursor, depth: nat, count: nat, nested: Option<Shape>, tokens: seq<Token>)
    requires c.offset <= |s| && depth < MAX_DIMENSIONS
    requires (nested.Some? ==> count > 0 && nested.value != [])
    ensures var r := ReadItems(s, c, depth, count, nested, tokens);
            r.Ok? ==> ItemsOk(c, depth, nested, count, tokens, r.value)
    decreases |s| - c.offset, 2
  {
    hide SkipSpace, ReadItem, ItemsOk, ItemOk;
    ItemIsRectangular(s, c, depth, count, nested, tokens);
    var item := ReadItem(s, c, depth, count, nested, tokens);
    if item.Ok? {
      var inner := item.value;
      var j := SkipSpace(s, inner.cursor.offset);
      if At(s, j, ',') {
        var c' := inner.cursor.(offset := j + 1);
        ItemsAreRectangular(s, c', depth, count + 1, AsNested(inner.shape), inner.tokens);
        var r := ReadItems(s, c', depth, count + 1, AsNested(inner.shape), inner.tokens);
        if r.Ok? {
          MoreItems(c, c', depth, nested, count, tokens, inner, r.value);
        }
      } else if At(s, j, '}') {
        LastItem(c, depth, nested, count, tokens, inner, j + 1);
      }
    }
  }

  lemma MoreItems(c: Cursor, c': Cursor, depth: nat, nested: Option<Shape>, count: nat, tokens: seq<Token>,
                  item: Read, r: Read)
    requires ItemOk(c, depth, nested, count, tokens, item)
    requires c'.elements == item.cursor.elements
    requires ItemsOk(c', depth, AsNested(item.shape), count + 1, item.tokens, r)
    ensures ItemsOk(c, depth, nested, count, tokens, r)
  {
    var n, k := Product(item.shape), r.shape[0] - count;
    assert r.shape[1..] == item.shape;
    assert n + (k - 1) * n == k * n;
    MultiplesInOrder(1, k, n);
  }

  lemma LastItem(c: Cursor, depth: nat, nested: Option<Shape>, count: nat, tokens: seq<Token>,
                 item: Read, offset: nat)
    requires ItemOk(c, depth, nested, count, tokens, item)
    ensures ItemsOk(c, depth, nested, count, tokens,
                    Read([count + 1] + item.shape, item.tokens, item.cursor.(offset := offset)))
  {
    assert ([count + 1] + item.shape)[1..] == item.shape;
  }

  ghost predicate InI32(bounds: seq<(int, int)>) {
    forall b | b in bounds :: I32_MIN <= b.0 <= I32_MAX && I32_MIN <= b.1 <= I32_MAX
  }

  lemma {:induction false} BoundsInI32(s: string, i: nat, bounds: seq<(int, int)>)
    requires i <= |s| && InI32(bounds)
    ensures var r := ReadBounds(s, i, bounds); r.Ok? ==> InI32(r.value.0)
    decreases |s| - i
  {
    hide SkipSpace, ReadBound;
    if At(s, i, '[') && |bounds| < MAX_DIMENSIONS {
      var b := ReadBound(s, i + 1);
      if b.Ok? {
        BoundsInI32(s, b.value.1, bounds + [b.value.0]);
      }
    }
  }

  lemma {:induction false} FactorIsSmall(lens: seq<nat>, i: nat)
    requires i < |lens| && Product(lens) > 0
    ensures 0 < lens[i] <= Product(lens)
  {
    var n := Product(lens[1..]);
    assert lens[0] * n > 0;
    MultiplesInOrder(1, lens[0], n);
    MultiplesInOrder(1, n, lens[0]);
    if i > 0 {
      FactorIsSmall(lens[1..], i - 1);
    }
  }

  lemma DescribedIsValid(s: string, bounds: seq<(int, int)>, list: Read)
    requires InI32(bounds) && Rectangular(Cursor(0, 0, 0), 0, [], list) && list.cursor.offset <= |s|
    ensures var r := Described(s, bounds, list); r.Ok? ==> Valid(SqlArray(r.value.0, r.value.1))
  {
    hide SkipSpace;
    var r := Described(s, bounds, list);
    if r.Ok? && list.tokens != [] {
      assert Lengths(r.value.0) == list.shape;
      forall i | 0 <= i < |list.shape|
        ensures I32_MIN <= r.value.0[i].lower && BoundsFit(r.value.0[i])
      {
        FactorIsSmall(list.shape, i);
        assert bounds != [] ==> bounds[i] in bounds;
      }
    }
  }

  /** Whatever text is accepted, its dimensions and tokens form a valid array: the product of
      the lengths is the number of tokens, no limit is exceeded, every bound is an `i32`. */
  lemma AcceptedIsValid(s: string)
    ensures var r := Parsed(s); r.Ok? ==> Valid(SqlArray(r.value.0, r.value.1))
  {
    hide SkipSpace, ReadBounds, ReadList, Rectangular, Valid, Described;
    BoundsInI32(s, SkipSpace(s, 0), []);
    var bounds := ReadBounds(s, SkipSpace(s, 0), []);
    if bounds.Ok? {
      var c := Cursor(bounds.value.1, 0, 0);
      ListIsRectangular(s, c, 0, []);
      var list := ReadList(s, c, 0, []);
      if list.Ok? {
        FromAnyOffset(c, list.value);
        DescribedIsValid(s, bounds.value.0, list.value);
      }
    }
  }

  lemma FromAnyOffset(c: Cursor, r: Read)
    requires c.elements == 0 && Rectangular(c, 0, [], r)
    ensures Rectangular(Cursor(0, 0, 0), 0, [], r)
  {
  }
}
