/** Printed arrays parse back to themselves, and no limit of the parser rejects printed text. */
module ArrayRoundTrip {
  import opened Options
  import opened Text
  import opened SqlArrays
  import opened ArrayText
  import opened ArrayParser
  import opened ArrayAccepted

  /** The text `t` stands at offset `i`. */
  ghost predicate Has(s: string, i: nat, t: string) {
    i + |t| <= |s| && s[i..i + |t|] == t
  }

  lemma HasParts(s: string, i: nat, a: string, b: string)
    requires Has(s, i, a + b)
    ensures Has(s, i, a) && Has(s, i + |a|, b)
  {
    assert (a + b)[..|a|] == a && (a + b)[|a|..] == b;
    assert s[i..i + |a|] == s[i..i + |a + b|][..|a|];
    assert s[i + |a|..i + |a + b|] == s[i..i + |a + b|][|a|..];
  }

  lemma HasAt(s: string, i: nat, t: string, k: nat)
    requires Has(s, i, t) && k < |t|
    ensures i + k < |s| && s[i + k] == t[k]
  {
    assert s[i..i + |t|][k] == s[i + k];
  }

  // ---------------------------------------------------------------- elements

  function Marked(t: string): Chars {
    seq(|t|, i requires 0 <= i < |t| => (t[i], EscapedInQuotes(t[i])))
  }

  lemma {:induction false} ReadEscaped(s: string, i: nat, t: string, quoted: bool, v: Chars)
    requires Has(s, i, Escaped(t))
    requires quoted || forall k | 0 <= k < |t| :: !IsSpecial(t[k])
    ensures ReadChars(s, i, quoted, v) == ReadChars(s, i + |Escaped(t)|, quoted, v + Marked(t))
    decreases |t|
  {
    if t == "" {
      assert v + Marked(t) == v;
    } else {
      var c, rest := EscapedChar(t[0]), Escaped(t[1..]);
      HasParts(s, i, c, rest);
      HasAt(s, i, c, 0);
      HasAt(s, i, c, |c| - 1);
      var v' := v + [(t[0], EscapedInQuotes(t[0]))];
      assert ReadChars(s, i, quoted, v) == ReadChars(s, i + |c|, quoted, v');
      ReadEscaped(s, i + |c|, t[1..], quoted, v');
      assert v' + Marked(t[1..]) == v + Marked(t);
    }
  }

  lemma {:induction false} EscapedPlain(t: string)
    requires forall k | 0 <= k < |t| :: !IsSpecial(t[k])
    ensures Escaped(t) == t
  {
    if t != "" {
      EscapedPlain(t[1..]);
    }
  }

  lemma ElementOfPlain(t: string)
    requires t != "" && forall k | 0 <= k < |t| :: !IsSpace(t[k])
    ensures ElementOf(Marked(t), false) == Ok(if SpellsNull(t) then None else Some(t))
  {
    assert TrimStart(Marked(t)) == Marked(t) && TrimEnd(Marked(t)) == Marked(t);
    assert Plain(Marked(t)) == t;
  }

  lemma ElementOfQuoted(t: string)
    ensures ElementOf(Marked(t), true) == Ok(Some(t))
  {
    assert Plain(Marked(t)) == t;
  }

  ghost predicate Ends(s: string, i: nat) {
    At(s, i, ',') || At(s, i, '}')
  }

  lemma PlainElement(s: string, c: Cursor, t: string)
    requires t != "" && forall k | 0 <= k < |t| :: !IsSpace(t[k]) && !IsSpecial(t[k])
    requires Has(s, c.offset, t) && Ends(s, c.offset + |t|) && c.elements < MAX_ELEMENTS
    ensures ReadElement(s, c) == Ok((if SpellsNull(t) then None else Some(t),
                                     Cursor(c.offset + |t|, c.lists, c.elements + 1)))
  {
    hide ElementOf, Escaped;
    EscapedPlain(t);
    HasAt(s, c.offset, t, 0);
    ReadEscaped(s, c.offset, t, false, []);
    assert [] + Marked(t) == Marked(t);
    ElementOfPlain(t);
  }

  lemma QuotedElement(s: string, c: Cursor, t: string)
    requires Has(s, c.offset, "\"" + Escaped(t) + "\"") && c.elements < MAX_ELEMENTS
    ensures ReadElement(s, c) == Ok((Some(t), Cursor(c.offset + |Escaped(t)| + 2, c.lists, c.elements + 1)))
  {
    hide ElementOf, Escaped;
    var i, e := c.offset, Escaped(t);
    assert "\"" + e + "\"" == "\"" + (e + "\"");
    HasParts(s, i, "\"", e + "\"");
    HasAt(s, i, "\"", 0);
    HasParts(s, i + 1, e, "\"");
    HasAt(s, i + 1 + |e|, "\"", 0);
    ReadEscaped(s, i + 1, t, true, []);
    assert [] + Marked(t) == Marked(t);
    ElementOfQuoted(t);
  }

  lemma ElementBack(s: string, c: Cursor, e: Token)
    requires Has(s, c.offset, ElementText(e)) && Ends(s, c.offset + |ElementText(e)|)
    requires c.elements < MAX_ELEMENTS
    ensures ReadElement(s, c) == Ok((e, Cursor(c.offset + |ElementText(e)|, c.lists, c.elements + 1)))
  {
    hide ReadElement, Escaped;
    if e.None? {
      PlainElement(s, c, "NULL");
    } else if NeedsQuotes(e.value) {
      QuotedElement(s, c, e.value);
    } else {
      EscapedPlain(e.value);
      PlainElement(s, c, e.value);
    }
  }

  lemma {:induction false} ElementStarts(e: Token)
    ensures ElementText(e) != "" && !IsSpace(ElementText(e)[0]) && ElementText(e)[0] != '{'
    ensures ElementText(e)[0] != '}'
  {
    if e.Some? && !NeedsQuotes(e.value) {
      EscapedPlain(e.value);
    }
  }

  // ---------------------------------------------------------------- lists

  /** How many lists a level of these lengths has, itself included. */
  ghost function ListCount(lens: seq<nat>): nat {
    if lens == [] then 0 else 1 + lens[0] * ListCount(lens[1..])
  }

  /** A level holds at most one list for each of its dimensions and elements. */
  lemma {:induction false} ListsFewerThanElements(lens: seq<nat>)
    requires Product(lens) > 0
    ensures ListCount(lens) <= |lens| * Product(lens)
  {
    if lens != [] {
      var n, p, k := lens[0], Product(lens[1..]), |lens| - 1;
      assert n * p > 0;
      ListsFewerThanElements(lens[1..]);
      MultiplesInOrder(ListCount(lens[1..]), k * p, n);
      assert n * (k * p) == k * (n * p);
      assert k * (n * p) + n * p == (k + 1) * (n * p);
    }
  }

  /** Where item `i` starts, relative to the first. */
  ghost function ItemStart(lens: seq<nat>, es: seq<Token>, i: nat): nat
    requires lens != [] && |es| == Product(lens) && i <= lens[0]
  {
    |ItemsText(lens, es, i)| + if i == 0 then 0 else 1
  }

  lemma {:induction false} ItemsPrefix(lens: seq<nat>, es: seq<Token>, i: nat, n: nat)
    requires lens != [] && |es| == Product(lens) && i <= n <= lens[0]
    ensures exists rest :: (ItemsText(lens, es, n) == ItemsText(lens, es, i) + rest
                            && (i < n && i > 0 ==> rest != "" && rest[0] == ','))
    decreases n
  {
    hide ItemsText, ItemText, Product;
    if i == n {
      assert ItemsText(lens, es, n) == ItemsText(lens, es, i) + "";
    } else {
      ItemsPrefix(lens, es, i, n - 1);
      var rest :| ItemsText(lens, es, n - 1) == ItemsText(lens, es, i) + rest
               && (i < n - 1 && i > 0 ==> rest != "" && rest[0] == ',');
      ItemsNext(lens, es, n - 1);
      var rest' := rest + (if n == 1 then "" else ",") + ItemText(lens, es, n - 1);
      assert i == n - 1 ==> rest == "";
      assert ItemsText(lens, es, n) == ItemsText(lens, es, i) + rest';
    }
  }

  ghost predicate HasItems(s: string, b: nat, lens: seq<nat>, es: seq<Token>)
    requires lens != [] && |es| == Product(lens)
  {
    Has(s, b, ItemsText(lens, es, lens[0]) + "}")
  }

  /** Item `i` of a printed level stands where it should, and is followed by a comma or, if it
      is the last, by the closing brace. */
  lemma ItemAt(s: string, b: nat, lens: seq<nat>, es: seq<Token>, i: nat)
    requires lens != [] && |es| == Product(lens) && i < lens[0] && HasItems(s, b, lens, es)
    ensures var o, t := b + ItemStart(lens, es, i), ItemText(lens, es, i);
            && Has(s, o, t)
            && o + |t| == b + |ItemsText(lens, es, i + 1)|
            && At(s, o + |t|, if i + 1 < lens[0] then ',' else '}')
  {
    hide ItemsText, ItemText, Product;
    var all, upTo := ItemsText(lens, es, lens[0]), ItemsText(lens, es, i + 1);
    ItemsPrefix(lens, es, i + 1, lens[0]);
    var rest :| all == upTo + rest && (i + 1 < lens[0] ==> rest != "" && rest[0] == ',');
    ItemsNext(lens, es, i);
    var sep := if i == 0 then "" else ",";
    ItemsNone(lens, es);
    var before, t := ItemsText(lens, es, i) + sep, ItemText(lens, es, i);
    assert upTo == before + t;
    assert all + "}" == upTo + (rest + "}");
    HasParts(s, b, upTo, rest + "}");
    HasParts(s, b, before, t);
    HasAt(s, b + |upTo|, rest + "}", 0);
    assert i + 1 == lens[0] ==> rest == "";
  }

  /** The cursor after `i` items of a level. */
  ghost function After(c: Cursor, b: nat, lens: seq<nat>, es: seq<Token>, i: nat): Cursor
    requires lens != [] && |es| == Product(lens) && i <= lens[0]
  {
    Cursor(b + |ItemsText(lens, es, i)|, c.lists + i * ListCount(lens[1..]), c.elements + i * Product(lens[1..]))
  }

  /** A level of these lengths is within the parser's limits when it starts at a cursor. */
  ghost predicate Fits(c: Cursor, depth: nat, lens: seq<nat>) {
    && lens != []
    && Product(lens) > 0
    && depth + |lens| <= MAX_DIMENSIONS
    && c.lists + ListCount(lens) <= MAX_LISTS
    && c.elements + Product(lens) <= MAX_ELEMENTS
  }

  /** If a level fits, so does each item of it. */
  lemma ItemFits(c: Cursor, b: nat, depth: nat, lens: seq<nat>, es: seq<Token>, i: nat)
    requires Fits(c, depth, lens) && |es| == Product(lens) && i < lens[0]
    ensures var c' := After(c.(lists := c.lists + 1), b, lens, es, i);
            && c'.elements < MAX_ELEMENTS
            && (|lens| > 1 ==> Fits(c', depth + 1, lens[1..]))
  {
    hide ItemsText, Product, ListCount;
    ProductStep(lens);
    ListCountStep(lens);
    var n, k := Product(lens[1..]), ListCount(lens[1..]);
    MultiplesInOrder(i + 1, lens[0], n);
    MultiplesInOrder(i + 1, lens[0], k);
    assert (i + 1) * n == i * n + n && (i + 1) * k == i * k + k;
    assert n > 0;
  }

  lemma ListCountStep(lens: seq<nat>)
    requires lens != []
    ensures ListCount(lens) == 1 + lens[0] * ListCount(lens[1..])
    ensures |lens| == 1 ==> ListCount(lens[1..]) == 0
  {
  }

  lemma ItemStarts(lens: seq<nat>, es: seq<Token>, i: nat)
    requires lens != [] && |es| == Product(lens) && i < lens[0]
    ensures var t := ItemText(lens, es, i);
            t != "" && !IsSpace(t[0]) && t[0] != '}' && (t[0] == '{' <==> |lens| > 1)
  {
    hide ElementText, ItemsText;
    if |lens| == 1 {
      ElementStarts(Item(lens, es, i)[0]);
    }
  }

  /** Reading item `i` of a printed level gives its elements. */
  lemma ItemBack(s: string, c: Cursor, b: nat, depth: nat, lens: seq<nat>, es: seq<Token>, i: nat,
                 tokens: seq<Token>)
    requires lens != [] && |es| == Product(lens) && i < lens[0] && HasItems(s, b, lens, es)
    requires Fits(c, depth, lens)
    ensures var c1 := c.(lists := c.lists + 1);
            var start := Start(c1, b, lens, es, i);
            && start.offset <= |s|
            && ReadItem(s, start, depth, i, NestedBefore(lens, i), tokens)
               == Ok(Read(lens[1..], tokens + Item(lens, es, i), After(c1, b, lens, es, i + 1)))
    decreases |lens|, 0
  {
    hide ItemsText, LevelText, ElementText, Product, ListCount, ReadList, ReadElement, Item, Fits, HasItems,
         SkipSpace;
    var c1 := c.(lists := c.lists + 1);
    var start := Start(c1, b, lens, es, i);
    ItemAt(s, b, lens, es, i);
    ItemStarts(lens, es, i);
    HasAt(s, start.offset, ItemText(lens, es, i), 0);
    ItemFits(c, b, depth, lens, es, i);
    ListCountStep(lens);
    ProductStep(lens);
    AfterNext(c1, b, lens, es, i);
    var item := Item(lens, es, i);
    if |lens| == 1 {
      ElementBack(s, start, item[0]);
      assert item == [item[0]];
    } else {
      OffsetFits(After(c1, b, lens, es, i), start, depth + 1, lens[1..]);
      ListBack(s, start, depth + 1, lens[1..], item, tokens);
    }
  }

  lemma OffsetFits(c: Cursor, c': Cursor, depth: nat, lens: seq<nat>)
    requires Fits(c, depth, lens) && c' == c.(offset := c'.offset)
    ensures Fits(c', depth, lens)
  {
  }

  lemma AfterNext(c: Cursor, b: nat, lens: seq<nat>, es: seq<Token>, i: nat)
    requires lens != [] && |es| == Product(lens) && i < lens[0]
    ensures var a, next := After(c, b, lens, es, i), After(c, b, lens, es, i + 1);
            && next.lists == a.lists + ListCount(lens[1..])
            && next.elements == a.elements + Product(lens[1..])
  {
    hide ItemsText, Product, ListCount;
    var n, k := Product(lens[1..]), ListCount(lens[1..]);
    assert (i + 1) * n == i * n + n && (i + 1) * k == i * k + k;
  }

  /** Where reading item `i` starts: past the comma before it. */
  ghost function Start(c: Cursor, b: nat, lens: seq<nat>, es: seq<Token>, i: nat): Cursor
    requires lens != [] && |es| == Product(lens) && i <= lens[0]
  {
    After(c, b, lens, es, i).(offset := b + ItemStart(lens, es, i))
  }

  ghost function NestedBefore(lens: seq<nat>, i: nat): Option<Shape>
    requires lens != []
  {
    if i == 0 then None else AsNested(lens[1..])
  }

  lemma CommaContinues(s: string, c: Cursor, depth: nat, count: nat, nested: Option<Shape>, tokens: seq<Token>,
                       item: Read)
    requires c.offset <= |s| && ReadItem(s, c, depth, count, nested, tokens) == Ok(item)
    requires At(s, item.cursor.offset, ',')
    ensures ReadItems(s, c, depth, count, nested, tokens)
         == ReadItems(s, item.cursor.(offset := item.cursor.offset + 1), depth, count + 1, AsNested(item.shape),
                      item.tokens)
  {
    hide ReadItem;
  }

  lemma BraceEnds(s: string, c: Cursor, depth: nat, count: nat, nested: Option<Shape>, tokens: seq<Token>,
                  item: Read)
    requires c.offset <= |s| && ReadItem(s, c, depth, count, nested, tokens) == Ok(item)
    requires At(s, item.cursor.offset, '}')
    ensures ReadItems(s, c, depth, count, nested, tokens)
         == Ok(Read([count + 1] + item.shape, item.tokens, item.cursor.(offset := item.cursor.offset + 1)))
  {
    hide ReadItem;
  }

  /** Reading the items of a printed level from item `i` on gives all its elements. */
  lemma ItemsBack(s: string, c: Cursor, b: nat, depth: nat, lens: seq<nat>, es: seq<Token>, i: nat,
                  tokens: seq<Token>)
    requires lens != [] && |es| == Product(lens) && i < lens[0] && HasItems(s, b, lens, es)
    requires Fits(c, depth, lens)
    ensures var c1 := c.(lists := c.lists + 1);
            var start, end := Start(c1, b, lens, es, i), After(c1, b, lens, es, lens[0]);
            && start.offset <= |s|
            && ReadItems(s, start, depth, i, NestedBefore(lens, i), tokens + es[..ElementsBefore(lens, es, i)])
               == Ok(Read(lens, tokens + es, end.(offset := end.offset + 1)))
    decreases |lens|, 1, lens[0] - i
  {
    hide ItemsText, ItemText, Product, ListCount, ReadItem, ReadItems, Item, Fits, HasItems, ElementsBefore;
    var c1 := c.(lists := c.lists + 1);
    var start, next := Start(c1, b, lens, es, i), After(c1, b, lens, es, i + 1);
    var before, upTo := tokens + es[..ElementsBefore(lens, es, i)], tokens + es[..ElementsBefore(lens, es, i + 1)];
    ItemAt(s, b, lens, es, i);
    ItemBack(s, c, b, depth, lens, es, i, before);
    ItemElements(lens, es, i);
    assert before + Item(lens, es, i) == upTo;
    var item := Read(lens[1..], upTo, next);
    if i + 1 < lens[0] {
      CommaContinues(s, start, depth, i, NestedBefore(lens, i), before, item);
      ItemsBack(s, c, b, depth, lens, es, i + 1, tokens);
    } else {
      BraceEnds(s, start, depth, i, NestedBefore(lens, i), before, item);
      assert es[..ElementsBefore(lens, es, i + 1)] == es;
      assert [i + 1] + lens[1..] == lens;
    }
  }

  ghost function ElementsBefore(lens: seq<nat>, es: seq<Token>, i: nat): (n: nat)
    requires lens != [] && |es| == Product(lens) && i <= lens[0]
    ensures n <= |es| && (i == lens[0] ==> n == |es|) && (i == 0 ==> n == 0)
  {
    MultiplesInOrder(i, lens[0], Product(lens[1..]));
    i * Product(lens[1..])
  }

  lemma ItemElements(lens: seq<nat>, es: seq<Token>, i: nat)
    requires lens != [] && |es| == Product(lens) && i < lens[0]
    ensures ElementsBefore(lens, es, i) <= ElementsBefore(lens, es, i + 1)
    ensures es[..ElementsBefore(lens, es, i)] + Item(lens, es, i) == es[..ElementsBefore(lens, es, i + 1)]
  {
    hide Product;
    ProductStep(lens);
    var n := Product(lens[1..]);
    assert (i + 1) * n == i * n + n;
    MultiplesInOrder(i + 1, lens[0], n);
    assert Item(lens, es, i) == es[i * n..(i + 1) * n];
  }

  /** Reading a printed level gives its lengths and elements, whatever follows it. */
  lemma ListBack(s: string, c: Cursor, depth: nat, lens: seq<nat>, es: seq<Token>, tokens: seq<Token>)
    requires Fits(c, depth, lens) && |es| == Product(lens) && Has(s, c.offset, LevelText(lens, es))
    ensures ReadList(s, c, depth, tokens)
         == Ok(Read(lens, tokens + es, Cursor(c.offset + |LevelText(lens, es)|,
                                              c.lists + ListCount(lens), c.elements + |es|)))
    decreases |lens|, 2
  {
    hide ItemsText, ItemText, Product, ListCount, ReadItems, Item;
    var b, text := c.offset + 1, ItemsText(lens, es, lens[0]) + "}";
    assert LevelText(lens, es) == "{" + text;
    HasParts(s, c.offset, "{", text);
    HasAt(s, c.offset, "{", 0);
    ProductStep(lens);
    ListCountStep(lens);
    ItemsNone(lens, es);
    ItemAt(s, b, lens, es, 0);
    ItemStarts(lens, es, 0);
    HasAt(s, b, ItemText(lens, es, 0), 0);
    ItemsBack(s, c, b, depth, lens, es, 0, tokens);
    assert tokens + es[..0] == tokens;
  }

  // ---------------------------------------------------------------- bounds

  lemma {:induction false} SkipDigitsIs(s: string, i: nat, j: nat)
    requires i <= j <= |s| && (forall k | i <= k < j :: IsDigit(s[k]))
    requires j < |s| ==> !IsDigit(s[j])
    ensures SkipDigits(s, i) == j
    decreases j - i
  {
    if i < j {
      SkipDigitsIs(s, i + 1, j);
    }
  }

  lemma IntegerBack(s: string, i: nat, n: int, stop: char)
    requires Has(s, i, PrintInt(n)) && I32_MIN <= n <= I32_MAX
    requires At(s, i + |PrintInt(n)|, stop) && !IsDigit(stop)
    ensures PrintInt(n) != "" && !IsSpace(s[i])
    ensures ReadInteger(s, i) == Ok((n, i + |PrintInt(n)|))
  {
    hide ParseSigned;
    var t := PrintInt(n);
    HasAt(s, i, t, 0);
    assert forall k | 0 < k < |t| :: IsDigit(t[k]);
    assert forall k | 0 <= k < |t| :: s[i + k] == t[k] by {
      forall k | 0 <= k < |t| ensures s[i + k] == t[k] { HasAt(s, i, t, k); }
    }
    var first := if n < 0 then i + 1 else i;
    assert forall k | first <= k < i + |t| :: s[k] == t[k - i];
    SkipDigitsIs(s, first, i + |t|);
    ParsePrintInt(n, I32_MIN, I32_MAX);
  }

  lemma BoundParts(s: string, i: nat, l: string, u: string)
    requires Has(s, i, "[" + l + ":" + u + "]")
    ensures At(s, i, '[') && Has(s, i + 1, l) && At(s, i + 1 + |l|, ':')
    ensures Has(s, i + 2 + |l|, u) && At(s, i + 2 + |l| + |u|, ']')
  {
    hide Has;
    var rest := u + "]";
    var tail := l + (":" + rest);
    assert "[" + l + ":" + u + "]" == "[" + tail;
    HasParts(s, i, "[", tail);
    HasParts(s, i + 1, l, ":" + rest);
    HasParts(s, i + 1 + |l|, ":", rest);
    HasParts(s, i + 2 + |l|, u, "]");
    HasAt(s, i, "[", 0);
    HasAt(s, i + 1 + |l|, ":", 0);
    HasAt(s, i + 2 + |l| + |u|, "]", 0);
  }

  lemma BoundBack(s: string, i: nat, d: Dimension)
    requires I32_MIN <= d.lower && BoundsFit(d) && Has(s, i, BoundText(d)) && d.len > 0
    ensures At(s, i, '[')
    ensures ReadBound(s, i + 1) == Ok(((d.lower, d.lower + d.len - 1), i + |BoundText(d)|))
  {
    hide PrintInt, ReadInteger, SkipSpace, Has;
    var l, u := PrintInt(d.lower), PrintInt(d.lower + d.len - 1);
    BoundParts(s, i, l, u);
    IntegerBack(s, i + 1, d.lower, ':');
    IntegerBack(s, i + 2 + |l|, d.lower + d.len - 1, ']');
  }

  function Pairs(dims: seq<Dimension>, n: nat): seq<(int, int)>
    requires n <= |dims|
  {
    seq(n, i requires 0 <= i < n => (dims[i].lower, dims[i].lower + dims[i].len - 1))
  }

  lemma {:induction false} BoundTextsPrefix(dims: seq<Dimension>, i: nat, n: nat)
    requires i <= n <= |dims|
    ensures BoundTexts(dims, i) <= BoundTexts(dims, n)
    decreases n
  {
    hide BoundText;
    if i < n {
      BoundTextsPrefix(dims, i, n - 1);
    }
  }

  lemma BoundAt(s: string, b: nat, dims: seq<Dimension>, i: nat)
    requires i < |dims| && Has(s, b, BoundTexts(dims, |dims|))
    ensures Has(s, b + |BoundTexts(dims, i)|, BoundText(dims[i]))
  {
    hide BoundText, Has;
    BoundTextsPrefix(dims, i + 1, |dims|);
    HasPrefix(s, b, BoundTexts(dims, i + 1), BoundTexts(dims, |dims|));
    HasParts(s, b, BoundTexts(dims, i), BoundText(dims[i]));
  }

  lemma HasPrefix(s: string, i: nat, a: string, t: string)
    requires Has(s, i, t) && a <= t
    ensures Has(s, i, a)
  {
    assert t == a + t[|a|..];
    HasParts(s, i, a, t[|a|..]);
  }

  ghost predicate BoundsOk(dims: seq<Dimension>) {
    && 0 < |dims| <= MAX_DIMENSIONS
    && forall i | 0 <= i < |dims| :: I32_MIN <= dims[i].lower && BoundsFit(dims[i]) && dims[i].len > 0
  }

  /** Reading printed bounds from bound `i` on gives all of them. */
  lemma {:induction false} BoundsBack(s: string, b: nat, dims: seq<Dimension>, i: nat)
    requires i <= |dims| && BoundsOk(dims) && Has(s, b, BoundTexts(dims, |dims|))
    requires At(s, b + |BoundTexts(dims, |dims|)|, '=') && At(s, b + |BoundTexts(dims, |dims|)| + 1, '{')
    ensures b + |BoundTexts(dims, i)| <= |s|
    ensures ReadBounds(s, b + |BoundTexts(dims, i)|, Pairs(dims, i))
         == Ok((Pairs(dims, |dims|), b + |BoundTexts(dims, |dims|)| + 1))
    decreases |dims| - i
  {
    hide BoundText, ReadBound, SkipSpace;
    if i < |dims| {
      BoundAt(s, b, dims, i);
      BoundBack(s, b + |BoundTexts(dims, i)|, dims[i]);
      BoundsBack(s, b, dims, i + 1);
      assert Pairs(dims, i + 1) == Pairs(dims, i) + [(dims[i].lower, dims[i].lower + dims[i].len - 1)];
    }
  }

  // ---------------------------------------------------------------- the theorem

  lemma ValidFits(a: SqlArray<string>, offset: nat)
    requires Valid(a) && a.elements != []
    ensures Fits(Cursor(offset, 0, 0), 0, Lengths(a.dims)) && BoundsOk(a.dims)
  {
    var lens := Lengths(a.dims);
    ListsFewerThanElements(lens);
    assert |lens| * Product(lens) <= MAX_DIMENSIONS * MAX_ELEMENTS by {
      MultiplesInOrder(|lens|, MAX_DIMENSIONS, Product(lens));
    }
    forall i | 0 <= i < |a.dims| ensures a.dims[i].len > 0 {
      FactorIsSmall(lens, i);
    }
  }

  /** The bounds a printed array shows, as the parser reads them. */
  ghost function Shown(dims: seq<Dimension>): seq<(int, int)> {
    if ShowsBounds(dims) then Pairs(dims, |dims|) else []
  }

  ghost function Head(a: SqlArray<string>): string {
    if ShowsBounds(a.dims) then BoundTexts(a.dims, |a.dims|) + "=" else ""
  }

  lemma HeadBack(a: SqlArray<string>, s: string)
    requires Valid(a) && a.elements != [] && s == Head(a) + LevelText(Lengths(a.dims), a.elements)
    ensures SkipSpace(s, 0) == 0
    ensures ReadBounds(s, 0, []) == Ok((Shown(a.dims), |Head(a)|))
  {
    hide Valid, BoundText, ItemsText, ReadBounds;
    ValidFits(a, 0);
    ValidSize(a);
    var level := LevelText(Lengths(a.dims), a.elements);
    assert s[|Head(a)|] == level[0] == '{';
    if ShowsBounds(a.dims) {
      var t := BoundTexts(a.dims, |a.dims|);
      assert s[|t|] == '=' && Has(s, 0, t);
      BoundsBack(s, 0, a.dims, 0);
      assert Pairs(a.dims, 0) == [];
      FirstBound(a.dims);
      assert s[0] == t[0];
    } else {
      NoBounds(s);
    }
  }

  lemma NoBounds(s: string)
    requires s != "" && s[0] != '['
    ensures ReadBounds(s, 0, []) == Ok(([], 0))
  {
  }

  lemma FirstBound(dims: seq<Dimension>)
    requires dims != []
    ensures var t := BoundTexts(dims, |dims|); t != "" && t[0] == '['
  {
    BoundTextsPrefix(dims, 1, |dims|);
    assert BoundTexts(dims, 1) == BoundTexts(dims, 0) + BoundText(dims[0]);
  }

  lemma DescribedBack(a: SqlArray<string>, s: string, list: Read)
    requires Valid(a) && a.elements != []
    requires list.shape == Lengths(a.dims) && list.tokens == a.elements && list.cursor.offset == |s|
    ensures Described(s, Shown(a.dims), list) == Ok((a.dims, a.elements))
  {
    assert ShowsBounds(a.dims) ==> BoundsMatch(list.shape, Pairs(a.dims, |a.dims|));
    assert forall i | 0 <= i < |a.dims| :: a.dims[i] in a.dims;
    assert DimensionsOf(list.shape, Shown(a.dims)) == a.dims;
  }

  lemma EmptyBack()
    ensures Parsed("{}") == Ok(([], []))
  {
    NoBounds("{}");
    assert ReadList("{}", Cursor(0, 0, 0), 0, []) == Ok(Read([0], [], Cursor(2, 1, 0)));
  }

  /** Parsing what was printed gives back the dimensions, the lower bounds and every element,
      NULL told from the text `NULL`, for every valid array. */
  lemma ArrayRoundTrips(a: SqlArray<string>)
    requires Valid(a)
    ensures Parsed(Printed(a)) == Ok((a.dims, a.elements))
  {
    hide Valid, Parsed, LevelText, Head;
    if a.elements == [] {
      EmptyBack();
      EmptyHasNoDimensions(a);
    } else {
      ValidSize(a);
      HeadIs(a);
      ParsedBack(a, Head(a) + LevelText(Lengths(a.dims), a.elements));
    }
  }

  lemma HeadIs(a: SqlArray<string>)
    requires Valid(a) && a.elements != []
    ensures a.dims != [] && |a.elements| == Product(Lengths(a.dims))
    ensures Printed(a) == Head(a) + LevelText(Lengths(a.dims), a.elements)
  {
    hide LevelText;
  }

  lemma ParsedBack(a: SqlArray<string>, s: string)
    requires Valid(a) && a.elements != [] && s == Head(a) + LevelText(Lengths(a.dims), a.elements)
    ensures Parsed(s) == Ok((a.dims, a.elements))
  {
    hide Valid, ReadBounds, ReadList, LevelText, Described, SkipSpace, Fits, Head, ListCount;
    ValidSize(a);
    var lens, c := Lengths(a.dims), Cursor(|Head(a)|, 0, 0);
    HeadBack(a, s);
    ValidFits(a, |Head(a)|);
    assert Has(s, |Head(a)|, LevelText(lens, a.elements));
    ListBack(s, c, 0, lens, a.elements, []);
    assert [] + a.elements == a.elements;
    DescribedBack(a, s, Read(lens, a.elements, Cursor(|s|, ListCount(lens), |a.elements|)));
  }

  lemma EmptyHasNoDimensions(a: SqlArray<string>)
    requires Valid(a) && a.elements == []
    ensures a.dims == []
  {
  }

  /** Every accepted text means the same as the printed text of what it describes. */
  lemma AcceptedReprints(s: string)
    ensures var r := Parsed(s);
            r.Ok? ==> Valid(SqlArray(r.value.0, r.value.1)) && Parsed(Printed(SqlArray(r.value.0, r.value.1))) == r
  {
    hide Parsed, Printed, Valid;
    AcceptedIsValid(s);
    if Parsed(s).Ok? {
      ArrayRoundTrips(SqlArray(Parsed(s).value.0, Parsed(s).value.1));
    }
  }
}
