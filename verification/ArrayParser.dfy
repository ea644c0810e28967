/** What each operation of the array text parser reads from an offset, as a function of the text. */
module ArrayParser {
  import opened Options
  import opened Text
  import opened SqlArrays
  import opened ArrayText

  /** Where the parser is: its offset, and how many lists and elements it has entered. */
  datatype Cursor = Cursor(offset: nat, lists: nat, elements: nat)

  type Shape = seq<nat>

  function SkipSpace(s: string, i: nat): (j: nat)
    requires i <= |s|
    ensures i <= j <= |s|
    ensures j < |s| ==> !IsSpace(s[j])
    ensures i < |s| && !IsSpace(s[i]) ==> j == i
    decreases |s| - i
  {
    if i < |s| && IsSpace(s[i]) then SkipSpace(s, i + 1) else i
  }

  // ---------------------------------------------------------------- bounds

  function SkipDigits(s: string, i: nat): (j: nat)
    requires i <= |s|
    ensures i <= j <= |s|
    decreases |s| - i
  {
    if i < |s| && IsDigit(s[i]) then SkipDigits(s, i + 1) else i
  }

  function ReadInteger(s: string, i: nat): (r: Result<(int, nat)>)
    requires i <= |s|
    ensures r.Ok? ==> i < r.value.1 <= |s| && I32_MIN <= r.value.0 <= I32_MAX
  {
    var j := SkipDigits(s, if At(s, i, '+') || At(s, i, '-') then i + 1 else i);
    var n := ParseSigned(s[i..j], I32_MIN, I32_MAX);
    if j == i || n.None? then Err(InvalidBound) else Ok((n.value, j))
  }

  /** One `[lower:upper]`, from just past its bracket. */
  function ReadBound(s: string, i: nat): (r: Result<((int, int), nat)>)
    requires i <= |s|
    ensures r.Ok? ==> i < r.value.1 <= |s|
    ensures r.Ok? ==> I32_MIN <= r.value.0.0 <= I32_MAX && I32_MIN <= r.value.0.1 <= I32_MAX
  {
    var lower := ReadInteger(s, SkipSpace(s, i));
    if lower.Err? then Err(lower.error)
    else
      var j := SkipSpace(s, lower.value.1);
      if !At(s, j, ':') then Err(InvalidBounds)
      else
        var upper := ReadInteger(s, SkipSpace(s, j + 1));
        if upper.Err? then Err(upper.error)
        else
          var k := SkipSpace(s, upper.value.1);
          if !At(s, k, ']') then Err(InvalidBounds) else Ok(((lower.value.0, upper.value.0), k + 1))
  }

  /** The bounds from `i` on, after those already read. */
  function ReadBounds(s: string, i: nat, bounds: seq<(int, int)>): (r: Result<(seq<(int, int)>, nat)>)
    requires i <= |s|
    ensures r.Ok? ==> i <= r.value.1 <= |s|
    decreases |s| - i
  {
    if At(s, i, '[') then
      if |bounds| >= MAX_DIMENSIONS then Err(TooManyDimensions)
      else
        var b := ReadBound(s, i + 1);
        if b.Err? then Err(b.error) else ReadBounds(s, b.value.1, bounds + [b.value.0])
    else if bounds == [] then Ok((bounds, i))
    else
      var j := SkipSpace(s, i);
      if !At(s, j, '=') then Err(MissingEquals) else Ok((bounds, SkipSpace(s, j + 1)))
  }

  // ---------------------------------------------------------------- elements

  /** The characters of an element, each with whether it was escaped. */
  type Chars = seq<(char, bool)>

  function ReadChars(s: string, i: nat, quoted: bool, value: Chars): (r: Result<(Chars, nat)>)
    requires i <= |s|
    ensures r.Ok? ==> i <= r.value.1 <= |s|
    decreases |s| - i
  {
    if i == |s| then Err(UnterminatedElement)
    else if s[i] == '\\' then
      if i + 1 == |s| then Err(UnterminatedEscape)
      else ReadChars(s, i + 2, quoted, value + [(s[i + 1], true)])
    else if quoted && s[i] == '"' then Ok((value, i + 1))
    else if !quoted && (s[i] == ',' || s[i] == '}') then Ok((value, i))
    else if !quoted && (s[i] == '"' || s[i] == '{') then Err(UnescapedSpecial)
    else ReadChars(s, i + 1, quoted, value + [(s[i], false)])
  }

  predicate Blank(c: (char, bool)) { !c.1 && IsSpace(c.0) }

  function TrimStart(v: Chars): Chars {
    if v != [] && Blank(v[0]) then TrimStart(v[1..]) else v
  }

  function TrimEnd(v: Chars): Chars {
    if v != [] && Blank(v[|v| - 1]) then TrimEnd(v[..|v| - 1]) else v
  }

  function Plain(v: Chars): string {
    seq(|v|, i requires 0 <= i < |v| => v[i].0)
  }

  function ElementOf(v: Chars, quoted: bool): Result<Token> {
    var t := Plain(if quoted then v else TrimEnd(TrimStart(v)));
    if !quoted && t == "" then Err(EmptyElement)
    else if !quoted && SpellsNull(t) then Ok(None)
    else Ok(Some(t))
  }

  function ReadElement(s: string, c: Cursor): (r: Result<(Token, Cursor)>)
    requires c.offset <= |s|
    ensures r.Ok? ==> c.offset <= r.value.1.offset <= |s|
    ensures r.Ok? ==> r.value.1.lists == c.lists && r.value.1.elements == c.elements + 1 <= MAX_ELEMENTS
  {
    if c.elements + 1 > MAX_ELEMENTS then Err(TooManyElements)
    else
      var quoted := At(s, c.offset, '"');
      var chars := ReadChars(s, if quoted then c.offset + 1 else c.offset, quoted, []);
      if chars.Err? then Err(chars.error)
      else
        var e := ElementOf(chars.value.0, quoted);
        if e.Err? then Err(e.error)
        else Ok((e.value, c.(offset := chars.value.1, elements := c.elements + 1)))
  }

  // ---------------------------------------------------------------- lists

  /** What a list read: its shape, all tokens so far, and where the parser is. */
  datatype Read = Read(shape: Shape, tokens: seq<Token>, cursor: Cursor)

  function ReadList(s: string, c: Cursor, depth: nat, tokens: seq<Token>): (r: Result<Read>)
    requires c.offset <= |s|
    ensures r.Ok? ==> c.offset < r.value.cursor.offset <= |s| && r.value.shape != []
    decreases |s| - c.offset, 0
  {
    if c.lists + 1 > MAX_LISTS then Err(TooManyLists)
    else if depth >= MAX_DIMENSIONS then Err(TooManyDimensions)
    else
      var i := SkipSpace(s, c.offset);
      if !At(s, i, '{') then Err(MissingBrace)
      else
        var j := SkipSpace(s, i + 1);
        var c1 := Cursor(j, c.lists + 1, c.elements);
        if At(s, j, '}') then
          if depth != 0 then Err(NestedEmpty) else Ok(Read([0], tokens, c1.(offset := j + 1)))
        else ReadItems(s, c1, depth, 0, None, tokens)
  }

  /** One item of a list that has `count` items so far: a nested list if those were lists of
      shape `nested`, a scalar (whose shape is empty) if they were scalars. */
  function ReadItem(s: string, c: Cursor, depth: nat, count: nat, nested: Option<Shape>, tokens: seq<Token>)
    : (r: Result<Read>)
    requires c.offset <= |s|
    ensures r.Ok? ==> c.offset <= r.value.cursor.offset <= |s|
    decreases |s| - c.offset, 1
  {
    var i := SkipSpace(s, c.offset);
    if At(s, i, '{') then
      if nested.None? && count > 0 then Err(MixedItems)
      else
        var r := ReadList(s, c.(offset := i), depth + 1, tokens);
        if r.Ok? && nested.Some? && nested.value != r.value.shape then Err(NotRectangular) else r
    else if nested.Some? then Err(MixedItems)
    else
      var r := ReadElement(s, c.(offset := i));
      if r.Err? then Err(r.error) else Ok(Read([], tokens + [r.value.0], r.value.1))
  }

  /** The items of a list from a cursor on, after `count` items. */
  function ReadItems(s: string, c: Cursor, depth: nat, count: nat, nested: Option<Shape>, tokens: seq<Token>)
    : (r: Result<Read>)
    requires c.offset <= |s|
    ensures r.Ok? ==> c.offset < r.value.cursor.offset <= |s| && r.value.shape != []
    decreases |s| - c.offset, 2
  {
    var item := ReadItem(s, c, depth, count, nested, tokens);
    if item.Err? then item
    else
      var inner := item.value;
      var j := SkipSpace(s, inner.cursor.offset);
      if At(s, j, ',') then
        ReadItems(s, inner.cursor.(offset := j + 1), depth, count + 1, AsNested(inner.shape), inner.tokens)
      else if At(s, j, '}') then
        Ok(Read([count + 1] + inner.shape, inner.tokens, inner.cursor.(offset := j + 1)))
      else Err(InvalidSyntax)
  }

  function AsNested(shape: Shape): Option<Shape> {
    if shape == [] then None else Some(shape)
  }

  // ---------------------------------------------------------------- the whole text

  /** The dimensions a text describes: its lower bounds, or 1 where it gives none. */
  function DimensionsOf(lens: Shape, bounds: seq<(int, int)>): (dims: seq<Dimension>)
    requires bounds == [] || |bounds| == |lens|
    ensures |dims| == |lens|
  {
    seq(|lens|, i requires 0 <= i < |lens| => Dimension(lens[i], if bounds == [] then 1 else bounds[i].0))
  }

  predicate BoundsMatch(lens: Shape, bounds: seq<(int, int)>)
    requires |bounds| == |lens|
  {
    forall i | 0 <= i < |lens| :: bounds[i].1 - bounds[i].0 + 1 == lens[i]
  }

  function Parsed(s: string): Result<(seq<Dimension>, seq<Token>)> {
    var bounds := ReadBounds(s, SkipSpace(s, 0), []);
    if bounds.Err? then Err(bounds.error)
    else
      var list := ReadList(s, Cursor(bounds.value.1, 0, 0), 0, []);
      if list.Err? then Err(list.error)
      else Described(s, bounds.value.0, list.value)
  }

  function Described(s: string, bounds: seq<(int, int)>, list: Read): Result<(seq<Dimension>, seq<Token>)>
    requires list.cursor.offset <= |s|
  {
    if SkipSpace(s, list.cursor.offset) != |s| then Err(TrailingInput)
    else if list.tokens == [] && list.shape != [0] then Err(NotOneEmptyLevel)
    else if list.tokens == [] && bounds != [] && (|bounds| != 1 || bounds[0].1 - bounds[0].0 + 1 != 0) then
      Err(EmptyBoundsMismatch)
    else if bounds != [] && |bounds| != |list.shape| then Err(DimensionalityMismatch)
    else if list.tokens == [] then Ok(([], []))
    else if bounds != [] && !BoundsMatch(list.shape, bounds) then Err(BoundsMismatch)
    else Ok((DimensionsOf(list.shape, bounds), list.tokens))
  }
}
