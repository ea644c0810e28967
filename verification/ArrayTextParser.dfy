/** The parser object: an offset and two counters that its operations advance. */
module ArrayTextParser {
  import opened Options
  import opened Text
  import opened SqlArrays
  import opened ArrayText
  import opened ArrayParser

  class Parser {
    const bytes: string
    var offset: nat
    var lists: nat
    var elements: nat

    ghost predicate Valid()
      reads this
    {
      offset <= |bytes|
    }

    ghost function Here(): Cursor
      reads this
    {
      Cursor(offset, lists, elements)
    }

    constructor (text: string)
      ensures Valid() && bytes == text && Here() == Cursor(0, 0, 0)
    {
      bytes := text;
      offset, lists, elements := 0, 0, 0;
    }

    method Whitespace()
      requires Valid()
      modifies this`offset
      ensures Valid() && offset == SkipSpace(bytes, old(offset))
    {
      while offset < |bytes| && IsSpace(bytes[offset])
        invariant Valid() && SkipSpace(bytes, offset) == SkipSpace(bytes, old(offset))
      {
        offset := offset + 1;
      }
    }

    method Integer() returns (r: Result<int>)
      requires Valid()
      modifies this`offset
      ensures Valid()
      ensures match ReadInteger(bytes, old(offset))
              case Ok(read) => r == Ok(read.0) && offset == read.1
              case Err(e) => r == Err(e)
    {
      var start := offset;
      if At(bytes, offset, '+') || At(bytes, offset, '-') {
        offset := offset + 1;
      }
      ghost var first := offset;
      while offset < |bytes| && IsDigit(bytes[offset])
        invariant Valid() && start <= offset && SkipDigits(bytes, offset) == SkipDigits(bytes, first)
      {
        offset := offset + 1;
      }
      if offset == start {
        return Err(InvalidBound);
      }
      var n := ParseSigned(bytes[start..offset], I32_MIN, I32_MAX);
      return if n.None? then Err(InvalidBound) else Ok(n.value);
    }

    method Bound() returns (r: Result<(int, int)>)
      requires Valid() && offset < |bytes|
      modifies this`offset
      ensures Valid()
      ensures match ReadBound(bytes, old(offset) + 1)
              case Ok(read) => r == Ok(read.0) && offset == read.1
              case Err(e) => r == Err(e)
    {
      hide SkipSpace, ReadInteger;
      offset := offset + 1;
      Whitespace();
      var lower := Integer();
      if lower.Err? {
        return Err(lower.error);
      }
      Whitespace();
      if !At(bytes, offset, ':') {
        return Err(InvalidBounds);
      }
      offset := offset + 1;
      Whitespace();
      var upper := Integer();
      if upper.Err? {
        return Err(upper.error);
      }
      Whitespace();
      if !At(bytes, offset, ']') {
        return Err(InvalidBounds);
      }
      offset := offset + 1;
      return Ok((lower.value, upper.value));
    }

    method Bounds() returns (r: Result<seq<(int, int)>>)
      requires Valid()
      modifies this`offset
      ensures Valid()
      ensures match ReadBounds(bytes, old(offset), [])
              case Ok(read) => r == Ok(read.0) && offset == read.1
              case Err(e) => r == Err(e)
    {
      hide SkipSpace, ReadBound;
      var bounds: seq<(int, int)> := [];
      while At(bytes, offset, '[')
        invariant Valid()
        invariant ReadBounds(bytes, offset, bounds) == ReadBounds(bytes, old(offset), [])
        decreases |bytes| - offset
      {
        if |bounds| >= MAX_DIMENSIONS {
          return Err(TooManyDimensions);
        }
        var b := Bound();
        if b.Err? {
          return Err(b.error);
        }
        bounds := bounds + [b.value];
      }
      if bounds != [] {
        Whitespace();
        if !At(bytes, offset, '=') {
          return Err(MissingEquals);
        }
        offset := offset + 1;
        Whitespace();
      }
      return Ok(bounds);
    }

    method Chars(quoted: bool) returns (r: Result<Chars>)
      requires Valid()
      modifies this`offset
      ensures Valid()
      ensures match ReadChars(bytes, old(offset), quoted, [])
              case Ok(read) => r == Ok(read.0) && offset == read.1
              case Err(e) => r == Err(e)
    {
      var value: Chars := [];
      while true
        invariant Valid()
        invariant ReadChars(bytes, offset, quoted, value) == ReadChars(bytes, old(offset), quoted, [])
        decreases |bytes| - offset
      {
        if offset == |bytes| {
          return Err(UnterminatedElement);
        }
        var byte := bytes[offset];
        if byte == '\\' {
          if offset + 1 == |bytes| {
            return Err(UnterminatedEscape);
          }
          value := value + [(bytes[offset + 1], true)];
          offset := offset + 2;
          continue;
        }
        if quoted && byte == '"' {
          offset := offset + 1;
          return Ok(value);
        }
        if !quoted && (byte == ',' || byte == '}') {
          return Ok(value);
        }
        if !quoted && (byte == '"' || byte == '{') {
          return Err(UnescapedSpecial);
        }
        value := value + [(byte, false)];
        offset := offset + 1;
      }
    }

    method Element() returns (r: Result<Token>)
      requires Valid()
      modifies this`offset, this`elements
      ensures Valid()
      ensures match ReadElement(bytes, old(Here()))
              case Ok(read) => r == Ok(read.0) && Here() == read.1
              case Err(e) => r == Err(e)
    {
      hide ReadChars, SpellsNull;
      elements := elements + 1;
      if elements > MAX_ELEMENTS {
        return Err(TooManyElements);
      }
      var quoted := At(bytes, offset, '"');
      if quoted {
        offset := offset + 1;
      }
      var chars := Chars(quoted);
      if chars.Err? {
        return Err(chars.error);
      }
      var start, end := 0, |chars.value|;
      if !quoted {
        start, end := Trimmed(chars.value);
      }
      assert quoted ==> chars.value[start..end] == chars.value;
      var text := Plain(chars.value[start..end]);
      if !quoted && text == "" {
        return Err(EmptyElement);
      }
      return Ok(if !quoted && SpellsNull(text) then None else Some(text));
    }

    /** Reads a list, adding its scalars to `before`; the dimensions it returns never outnumber
        the six that the source's fixed-size shape has room for. */
    method List(depth: nat, before: seq<Token>) returns (r: Result<Shape>, tokens: seq<Token>)
      requires Valid()
      modifies this
      ensures Valid()
      ensures match ReadList(bytes, old(Here()), depth, before)
              case Ok(read) => r == Ok(read.shape) && tokens == read.tokens && Here() == read.cursor
              case Err(e) => r == Err(e)
      decreases |bytes| - offset, 0
    {
      hide SkipSpace, ReadElement, ReadItems;
      tokens := before;
      lists := lists + 1;
      if lists > MAX_LISTS {
        return Err(TooManyLists), tokens;
      }
      if depth >= MAX_DIMENSIONS {
        return Err(TooManyDimensions), tokens;
      }
      Whitespace();
      if !At(bytes, offset, '{') {
        return Err(MissingBrace), tokens;
      }
      offset := offset + 1;
      Whitespace();
      if At(bytes, offset, '}') {
        offset := offset + 1;
        if depth != 0 {
          return Err(NestedEmpty), tokens;
        }
        return Ok([0]), tokens;
      }
      r, tokens := Items(depth, before);
    }

    method Items(depth: nat, before: seq<Token>) returns (r: Result<Shape>, tokens: seq<Token>)
      requires Valid() && depth < MAX_DIMENSIONS
      modifies this
      ensures Valid()
      ensures match ReadItems(bytes, old(Here()), depth, 0, None, before)
              case Ok(read) => r == Ok(read.shape) && tokens == read.tokens && Here() == read.cursor
              case Err(e) => r == Err(e)
      decreases |bytes| - offset, 1
    {
      hide SkipSpace, ReadElement, ReadList;
      var count, nested: Option<Shape>, scalars := 0, None, false;
      tokens := before;
      while true
        invariant Valid() && offset >= old(offset)
        invariant scalars <==> nested.None? && count > 0
        invariant nested.Some? ==> nested.value != [] && count > 0
        invariant ReadItems(bytes, Here(), depth, count, nested, tokens)
               == ReadItems(bytes, old(Here()), depth, 0, None, before)
        decreases |bytes| - offset
      {
        Whitespace();
        if At(bytes, offset, '{') {
          if scalars {
            return Err(MixedItems), tokens;
          }
          var shape;
          shape, tokens := List(depth + 1, tokens);
          if shape.Err? {
            return Err(shape.error), tokens;
          }
          if nested.Some? && nested.value != shape.value {
            return Err(NotRectangular), tokens;
          }
          nested := Some(shape.value);
        } else {
          if nested.Some? {
            return Err(MixedItems), tokens;
          }
          scalars := true;
          var e := Element();
          if e.Err? {
            return Err(e.error), tokens;
          }
          tokens := tokens + [e.value];
        }
        count := count + 1;
        Whitespace();
        if At(bytes, offset, ',') {
          offset := offset + 1;
        } else if At(bytes, offset, '}') {
          offset := offset + 1;
          break;
        } else {
          return Err(InvalidSyntax), tokens;
        }
      }
      return Ok([count] + if nested.Some? then nested.value else []), tokens;
    }

    static method Trimmed(value: Chars) returns (start: nat, end: nat)
      ensures start <= end <= |value| && value[start..end] == TrimEnd(TrimStart(value))
    {
      start, end := 0, |value|;
      while start < end && Blank(value[start])
        invariant start <= end && TrimStart(value[start..]) == TrimStart(value)
      {
        assert value[start..][1..] == value[start + 1..];
        start := start + 1;
      }
      assert value[start..end] == value[start..];
      ghost var v := value[start..];
      while end > start && Blank(value[end - 1])
        invariant start <= end <= |value| && TrimEnd(value[start..end]) == TrimEnd(v)
      {
        assert value[start..end][..end - start - 1] == value[start..end - 1];
        end := end - 1;
      }
    }
  }

  /** The entry point: bounds, one list, nothing else, and bounds that describe the list. */
  method Parse(text: string) returns (r: Result<(seq<Dimension>, seq<Token>)>)
    ensures r == Parsed(text)
  {
    hide SkipSpace, ReadBounds, ReadList;
    var parser := new Parser(text);
    parser.Whitespace();
    var bounds := parser.Bounds();
    if bounds.Err? {
      return Err(bounds.error);
    }
    var shape, tokens := parser.List(0, []);
    if shape.Err? {
      return Err(shape.error);
    }
    var lens, bs := shape.value, bounds.value;
    parser.Whitespace();
    if parser.offset != |text| {
      return Err(TrailingInput);
    }
    if tokens == [] {
      if lens != [0] {
        return Err(NotOneEmptyLevel);
      }
      if bs != [] && (|bs| != 1 || bs[0].1 - bs[0].0 + 1 != 0) {
        return Err(EmptyBoundsMismatch);
      }
    }
    if bs != [] && |bs| != |lens| {
      return Err(DimensionalityMismatch);
    }
    var dims: seq<Dimension> := [];
    if tokens != [] {
      for i := 0 to |lens|
        invariant |dims| == i && forall k | 0 <= k < i :: dims[k] == DimensionsOf(lens, bs)[k]
        invariant bs != [] ==> forall k | 0 <= k < i :: bs[k].1 - bs[k].0 + 1 == lens[k]
      {
        var lower := if bs == [] then 1 else bs[i].0;
        if bs != [] && bs[i].1 - lower + 1 != lens[i] {
          return Err(BoundsMismatch);
        }
        dims := dims + [Dimension(lens[i], lower)];
      }
      assert dims == DimensionsOf(lens, bs);
    }
    return Ok((dims, tokens));
  }
}
