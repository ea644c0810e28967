/** Array text: its characters, the errors of its parser, and the printer. */
module ArrayText {
  import opened Options
  import opened Text
  import opened SqlArrays

  /** An element's text; `None` is NULL. */
  type Token = Option<string>

  const MAX_LISTS: nat := MAX_DIMENSIONS * MAX_ELEMENTS + 1

  datatype Error =
    | TrailingInput | NotOneEmptyLevel | EmptyBoundsMismatch | DimensionalityMismatch | BoundsMismatch
    | TooManyDimensions | InvalidBounds | InvalidBound | MissingEquals | TooManyLists | MissingBrace
    | NestedEmpty | MixedItems | NotRectangular | InvalidSyntax | TooManyElements | UnterminatedElement
    | UnterminatedEscape | UnescapedSpecial | EmptyElement

  datatype Result<+T> = Ok(value: T) | Err(error: Error)

  /** `is_ascii_whitespace`: no vertical tab. */
  predicate IsSpace(c: char) { c == ' ' || c == '\t' || c == '\n' || c == '\r' || c as int == 0x0C }

  predicate IsSpecial(c: char) { c == '{' || c == '}' || c == ',' || c == '"' || c == '\\' }

  predicate EscapedInQuotes(c: char) { c == '"' || c == '\\' }

  /** `eq_ignore_ascii_case("NULL")` */
  predicate SpellsNull(t: string) {
    |t| == 4 && (t[0] == 'N' || t[0] == 'n') && (t[1] == 'U' || t[1] == 'u')
    && (t[2] == 'L' || t[2] == 'l') && (t[3] == 'L' || t[3] == 'l')
  }

  predicate At(s: string, i: nat, c: char) {
    i < |s| && s[i] == c
  }

  // ---------------------------------------------------------------- printing

  predicate NeedsQuotes(t: string) {
    t == "" || SpellsNull(t) || exists i | 0 <= i < |t| :: IsSpace(t[i]) || IsSpecial(t[i])
  }

  function EscapedChar(c: char): string {
    if EscapedInQuotes(c) then ['\\', c] else [c]
  }

  function Escaped(t: string): string {
    if t == "" then "" else EscapedChar(t[0]) + Escaped(t[1..])
  }

  function ElementText(e: Token): string {
    if e.None? then "NULL"
    else if NeedsQuotes(e.value) then "\"" + Escaped(e.value) + "\""
    else Escaped(e.value)
  }

  /** The text of a level: its items in braces, separated by commas. */
  function LevelText(lens: seq<nat>, es: seq<Token>): string
    requires lens != [] && |es| == Product(lens)
    decreases |lens|, 1, 0
  {
    "{" + ItemsText(lens, es, lens[0]) + "}"
  }

  /** The elements of item `i` of a level. */
  function Item(lens: seq<nat>, es: seq<Token>, i: nat): (item: seq<Token>)
    requires lens != [] && |es| == Product(lens) && i < lens[0]
    ensures |item| == Product(lens[1..])
  {
    var n := Product(lens[1..]);
    MultiplesInOrder(i + 1, lens[0], n);
    es[i * n..(i + 1) * n]
  }

  function ItemText(lens: seq<nat>, es: seq<Token>, i: nat): string
    requires lens != [] && |es| == Product(lens) && i < lens[0]
    decreases |lens|, 0, i
  {
    var item := Item(lens, es, i);
    if |lens| == 1 then ElementText(item[0]) else LevelText(lens[1..], item)
  }

  /** The first `n` items of a level, separated by commas. */
  function ItemsText(lens: seq<nat>, es: seq<Token>, n: nat): string
    requires lens != [] && |es| == Product(lens) && n <= lens[0]
    decreases |lens|, 0, n
  {
    if n == 0 then ""
    else ItemsText(lens, es, n - 1) + (if n == 1 then "" else ",") + ItemText(lens, es, n - 1)
  }

  function BoundText(d: Dimension): string {
    "[" + PrintInt(d.lower) + ":" + PrintInt(d.lower + d.len - 1) + "]"
  }

  function BoundTexts(dims: seq<Dimension>, n: nat): string
    requires n <= |dims|
  {
    if n == 0 then "" else BoundTexts(dims, n - 1) + BoundText(dims[n - 1])
  }

  predicate ShowsBounds(dims: seq<Dimension>) {
    exists d :: d in dims && d.lower != 1
  }

  ghost function Printed(a: SqlArray<string>): string
    requires Valid(a)
  {
    if a.elements == [] then "{}"
    else
      (if ShowsBounds(a.dims) then BoundTexts(a.dims, |a.dims|) + "=" else "")
      + LevelText(Lengths(a.dims), a.elements)
  }

  method WriteElement(output: string, text: string) returns (out: string)
    ensures out == output + ElementText(Some(text))
  {
    hide NeedsQuotes, Escaped;
    var quote := NeedsQuotes(text);
    if quote {
      out := WriteEscaped(output + "\"", text);
      out := out + "\"";
    } else {
      out := WriteEscaped(output, text);
    }
  }

  method WriteToken(output: string, e: Token) returns (out: string)
    ensures out == output + ElementText(e)
  {
    if e.None? {
      out := output + "NULL";
    } else {
      out := WriteElement(output, e.value);
    }
  }

  method WriteEscaped(output: string, text: string) returns (out: string)
    ensures out == output + Escaped(text)
  {
    out := output;
    for i := 0 to |text|
      invariant output + Escaped(text) == out + Escaped(text[i..])
    {
      assert text[i..][1..] == text[i + 1..];
      assert out + Escaped(text[i..]) == out + EscapedChar(text[i]) + Escaped(text[i + 1..]);
      if EscapedInQuotes(text[i]) {
        out := out + "\\" + [text[i]];
      } else {
        out := out + [text[i]];
      }
    }
  }

  /** Prints the level at `depth`, taking elements from `first` on. */
  method FormatLevel(output: string, a: SqlArray<string>, depth: nat, first: nat)
    returns (out: string, next: nat)
    requires Valid(a) && depth < |a.dims|
    requires first + Size(a.dims[depth..]) <= |a.elements|
    ensures next == first + Size(a.dims[depth..])
    ensures out == output + LevelText(Lengths(a.dims[depth..]), a.elements[first..next])
    decreases |a.dims| - depth
  {
    hide Product, ElementText, Item, ItemText, ItemsText, LevelText, Valid;
    ghost var lens := Lengths(a.dims[depth..]);
    ghost var es := a.elements[first..first + Product(lens)];
    ghost var n := Product(lens[1..]);
    assert lens[1..] == Lengths(a.dims[depth + 1..]);
    ProductStep(lens);
    ItemsNone(lens, es);
    out, next := output + "{", first;
    for i := 0 to a.dims[depth].len
      invariant next == first + i * n
      invariant out == output + "{" + ItemsText(lens, es, i)
    {
      LevelItem(a.elements, first, lens, i);
      ItemsNext(lens, es, i);
      ghost var start, sep := out, if i == 0 then "" else ",";
      if i != 0 {
        out := out + ",";
      }
      if depth + 1 < |a.dims| {
        out, next := FormatLevel(out, a, depth + 1, next);
      } else {
        out := WriteToken(out, a.elements[next]);
        next := next + 1;
      }
      assert out == start + sep + ItemText(lens, es, i);
      assert out == output + "{" + ItemsText(lens, es, i + 1);
    }
    LevelIs(lens, es);
    out := out + "}";
  }

  lemma LevelIs(lens: seq<nat>, es: seq<Token>)
    requires lens != [] && |es| == Product(lens)
    ensures LevelText(lens, es) == "{" + ItemsText(lens, es, lens[0]) + "}"
  {
  }

  lemma ItemsNone(lens: seq<nat>, es: seq<Token>)
    requires lens != [] && |es| == Product(lens)
    ensures ItemsText(lens, es, 0) == ""
  {
  }

  lemma ItemsNext(lens: seq<nat>, es: seq<Token>, n: nat)
    requires lens != [] && |es| == Product(lens) && n < lens[0]
    ensures ItemsText(lens, es, n + 1)
         == ItemsText(lens, es, n) + (if n == 0 then "" else ",") + ItemText(lens, es, n)
  {
  }

  lemma ProductStep(lens: seq<nat>)
    requires lens != []
    ensures Product(lens) == lens[0] * Product(lens[1..])
    ensures |lens| == 1 ==> Product(lens[1..]) == 1
  {
  }

  lemma ItemBounds(lens: seq<nat>, i: nat)
    requires lens != [] && i < lens[0]
    ensures var n := Product(lens[1..]); (i + 1) * n == i * n + n <= Product(lens)
  {
    hide Product;
    ProductStep(lens);
    MultiplesInOrder(i + 1, lens[0], Product(lens[1..]));
  }

  lemma ItemIs(lens: seq<nat>, es: seq<Token>, i: nat)
    requires lens != [] && |es| == Product(lens) && i < lens[0]
    ensures var n := Product(lens[1..]); i * n + n <= |es| && Item(lens, es, i) == es[i * n..i * n + n]
  {
    hide Product;
    ItemBounds(lens, i);
  }

  lemma SliceOfSlice(es: seq<Token>, first: nat, len: nat, a: nat, n: nat)
    requires first + len <= |es| && a + n <= len
    ensures es[first..first + len][a..a + n] == es[first + a..first + a + n]
  {
    var s := es[first..first + len];
    var x, y := s[a..a + n], es[first + a..first + a + n];
    assert forall k | 0 <= k < n :: x[k] == y[k];
  }

  lemma LevelItem(es: seq<Token>, first: nat, lens: seq<nat>, i: nat)
    requires lens != [] && i < lens[0] && first + Product(lens) <= |es|
    ensures var n := Product(lens[1..]);
            && (i + 1) * n == i * n + n
            && first + i * n + n <= first + Product(lens)
            && ItemText(lens, es[first..first + Product(lens)], i)
               == if |lens| == 1 then ElementText(es[first + i * n])
                  else LevelText(lens[1..], es[first + i * n..first + i * n + n])
  {
    hide Product, ElementText, LevelText, Item;
    ProductStep(lens);
    var n := Product(lens[1..]);
    ItemBounds(lens, i);
    SliceOfSlice(es, first, Product(lens), i * n, n);
    ItemIs(lens, es[first..first + Product(lens)], i);
  }

  method Format(a: SqlArray<string>) returns (out: string)
    requires Valid(a)
    ensures out == Printed(a)
  {
    hide LevelText, BoundText, Valid;
    if a.elements == [] {
      return "{}";
    }
    out := "";
    if ShowsBounds(a.dims) {
      for i := 0 to |a.dims|
        invariant out == BoundTexts(a.dims, i)
      {
        out := out + BoundText(a.dims[i]);
      }
      out := out + "=";
    }
    assert a.dims[0..] == a.dims && a.elements[0..|a.elements|] == a.elements;
    assert a.dims != [] && Size(a.dims) == |a.elements| by { ValidSize(a); }
    var next;
    out, next := FormatLevel(out, a, 0, 0);
  }

  lemma ValidSize(a: SqlArray<string>)
    requires Valid(a) && a.elements != []
    ensures a.dims != [] && Size(a.dims) == |a.elements|
  {
  }

  /** What formatting one element, or a whole array, gives. */
  datatype Rendered<+E> = Rendered(text: string) | Failed(error: E)

  /** The text of an element that formats. */
  function TokenOf<V, E>(e: Option<V>, format: V -> Rendered<E>): Token {
    if e.None? then None else var r := format(e.value); if r.Rendered? then Some(r.text) else None
  }

  predicate Renders<V, E>(e: Option<V>, format: V -> Rendered<E>) {
    e.Some? ==> format(e.value).Rendered?
  }

  function Tokens<V, E>(elements: seq<Option<V>>, format: V -> Rendered<E>): (ts: seq<Token>)
    ensures |ts| == |elements|
  {
    seq(|elements|, i requires 0 <= i < |elements| => TokenOf(elements[i], format))
  }

  /** Prints an array whose elements the callback formats, or fails as the first element does that
      it cannot format. */
  method FormatWith<V, E>(a: SqlArray<V>, format: V -> Rendered<E>) returns (r: Rendered<E>)
    requires Valid(a)
    ensures (forall i | 0 <= i < |a.elements| :: Renders(a.elements[i], format)) ==>
              r == Rendered(Printed(SqlArray(a.dims, Tokens(a.elements, format))))
    ensures forall i | 0 <= i < |a.elements| && !Renders(a.elements[i], format)
                       && (forall k | 0 <= k < i :: Renders(a.elements[k], format)) ::
              r == Failed(format(a.elements[i].value).error)
  {
    var tokens: seq<Token> := [];
    for i := 0 to |a.elements|
      invariant |tokens| == i && forall k | 0 <= k < i :: tokens[k] == TokenOf(a.elements[k], format)
      invariant forall k | 0 <= k < i :: Renders(a.elements[k], format)
    {
      if !Renders(a.elements[i], format) {
        return Failed(format(a.elements[i].value).error);
      }
      tokens := tokens + [TokenOf(a.elements[i], format)];
    }
    assert tokens == Tokens(a.elements, format);
    var text := Format(SqlArray(a.dims, tokens));
    return Rendered(text);
  }
}
