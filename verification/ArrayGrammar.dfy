/** What array texts there are and what they mean, without the parser: nested lists of quoted and
    unquoted elements, with blanks between the parts, and bounds in front of them. */
module ArrayGrammar {
  import opened Options
  import opened Text
  import opened SqlArrays
  import opened ArrayText
  import opened ArrayParser
  import opened ArrayRoundTrip

  // ---------------------------------------------------------------- elements

  /** A character of an element: as it is, or after a backslash. */
  datatype Unit = Bare(c: char) | Slash(c: char)

  function UnitText(u: Unit): string {
    match u
    case Bare(c) => [c]
    case Slash(c) => ['\\', c]
  }

  function UnitsText(us: seq<Unit>): string {
    if us == [] then "" else UnitText(us[0]) + UnitsText(us[1..])
  }

  function Meant(us: seq<Unit>): string {
    seq(|us|, i requires 0 <= i < |us| => us[i].c)
  }

  predicate AllBlank(s: string) {
    forall i | 0 <= i < |s| :: s[i] == ' ' || s[i] == '\t' || s[i] == '\n' || s[i] == '\r' || s[i] as int == 12
  }

  predicate QuotedOk(us: seq<Unit>) {
    forall u | u in us && u.Bare? :: u.c != '"' && u.c != '\\'
  }

  predicate PlainOk(us: seq<Unit>) {
    forall u | u in us && u.Bare? :: u.c != '"' && u.c != '\\' && u.c != ',' && u.c != '{' && u.c != '}'
  }

  predicate IsBlankUnit(u: Unit) {
    u.Bare? && AllBlank([u.c])
  }

  /** The word NULL in any mixture of cases. */
  predicate IsNullWord(t: string) {
    |t| == 4 && forall i | 0 <= i < 4 :: t[i] == "NULL"[i] || t[i] == "null"[i]
  }

  // ---------------------------------------------------------------- trees

  datatype Tree = Quoted(us: seq<Unit>) | Plain(us: seq<Unit>) | Empty(blank: string) | List(items: seq<Item>)

  datatype Item = Item(pre: string, tree: Tree, post: string)

  function TreeText(t: Tree): string
    decreases t, 0
  {
    match t
    case Quoted(us) => "\"" + UnitsText(us) + "\""
    case Plain(us) => UnitsText(us)
    case Empty(blank) => "{" + blank + "}"
    case List(items) => "{" + ItemsText(items) + "}"
  }

  function ItemText(i: Item): string
    decreases i, 1
  {
    i.pre + (TreeText(i.tree) + i.post)
  }

  function ItemsText(items: seq<Item>): string
    decreases items, 0
  {
    if items == [] then ""
    else if |items| == 1 then ItemText(items[0])
    else ItemText(items[0]) + ("," + ItemsText(items[1..]))
  }

  function ShapeOf(t: Tree): seq<nat>
    decreases t
  {
    match t
    case Empty(_) => [0]
    case List(items) => if items == [] then [0] else [|items|] + ShapeOf(items[0].tree)
    case _ => []
  }

  function TokensOf(t: Tree): seq<Token>
    decreases t, 0
  {
    match t
    case Quoted(us) => [Some(Meant(us))]
    case Plain(us) => [if IsNullWord(Meant(us)) then None else Some(Meant(us))]
    case Empty(_) => []
    case List(items) => ItemTokens(items)
  }

  function ItemTokens(items: seq<Item>): seq<Token>
    decreases items, 1
  {
    if items == [] then [] else TokensOf(items[0].tree) + ItemTokens(items[1..])
  }

  function ListsOf(t: Tree): nat
    decreases t, 0
  {
    match t
    case Empty(_) => 1
    case List(items) => 1 + ItemLists(items)
    case _ => 0
  }

  function ItemLists(items: seq<Item>): nat
    decreases items, 1
  {
    if items == [] then 0 else ListsOf(items[0].tree) + ItemLists(items[1..])
  }

  /** A tree at a depth: lists of items of one shape, at most six deep, only the outermost empty. */
  ghost predicate TreeOk(t: Tree, depth: nat)
    decreases t, 0
  {
    match t
    case Quoted(us) => QuotedOk(us)
    case Plain(us) => us != [] && PlainOk(us) && !IsBlankUnit(us[0]) && !IsBlankUnit(us[|us| - 1])
    case Empty(blank) => AllBlank(blank) && depth == 0
    case List(items) => items != [] && depth < 6 && ItemsOk(items, depth, ShapeOf(items[0].tree))
  }

  ghost predicate ItemsOk(items: seq<Item>, depth: nat, shape: seq<nat>)
    decreases items, 1
  {
    items != [] ==>
      && AllBlank(items[0].pre) && AllBlank(items[0].post) && TreeOk(items[0].tree, depth + 1)
      && ShapeOf(items[0].tree) == shape && ItemsOk(items[1..], depth, shape)
  }

  // ---------------------------------------------------------------- blanks

  lemma BlankIs(s: string)
    ensures AllBlank(s) <==> forall i | 0 <= i < |s| :: IsSpace(s[i])
  {
  }

  lemma {:induction false} SkipBlanks(s: string, i: nat, b: string)
    requires Has(s, i, b) && AllBlank(b)
    ensures SkipSpace(s, i) == SkipSpace(s, i + |b|)
    decreases |b|
  {
    if b != "" {
      HasAt(s, i, b, 0);
      assert b == [b[0]] + b[1..];
      HasParts(s, i, [b[0]], b[1..]);
      SkipBlanks(s, i + 1, b[1..]);
    }
  }

  lemma SkippedBlanks(s: string, i: nat)
    requires i <= |s|
    ensures AllBlank(s[i..SkipSpace(s, i)]) && Has(s, i, s[i..SkipSpace(s, i)])
    decreases |s| - i
  {
    if i < |s| && IsSpace(s[i]) {
      SkippedBlanks(s, i + 1);
      assert s[i..SkipSpace(s, i)] == [s[i]] + s[i + 1..SkipSpace(s, i + 1)];
    }
  }

  // ---------------------------------------------------------------- elements read

  function Marks(us: seq<Unit>): Chars {
    seq(|us|, i requires 0 <= i < |us| => (us[i].c, us[i].Slash?))
  }

  predicate UnitOk(u: Unit, quoted: bool) {
    u.Bare? ==> u.c != '"' && u.c != '\\' && (!quoted ==> u.c != ',' && u.c != '{' && u.c != '}')
  }

  lemma UnitReads(s: string, i: nat, u: Unit, quoted: bool, v: Chars)
    requires Has(s, i, UnitText(u)) && UnitOk(u, quoted)
    ensures ReadChars(s, i, quoted, v) == ReadChars(s, i + |UnitText(u)|, quoted, v + [(u.c, u.Slash?)])
  {
    HasAt(s, i, UnitText(u), 0);
    HasAt(s, i, UnitText(u), |UnitText(u)| - 1);
  }

  lemma {:induction false} UnitsRead(s: string, i: nat, us: seq<Unit>, quoted: bool, v: Chars)
    requires Has(s, i, UnitsText(us)) && forall u | u in us :: UnitOk(u, quoted)
    ensures ReadChars(s, i, quoted, v) == ReadChars(s, i + |UnitsText(us)|, quoted, v + Marks(us))
    decreases |us|
  {
    hide ReadChars, Has;
    if us == [] {
      assert v + Marks(us) == v;
    } else {
      var c, rest := UnitText(us[0]), UnitsText(us[1..]);
      HasParts(s, i, c, rest);
      var v' := v + [(us[0].c, us[0].Slash?)];
      assert us[0] in us;
      UnitReads(s, i, us[0], quoted, v);
      UnitsRead(s, i + |c|, us[1..], quoted, v');
      assert v' + Marks(us[1..]) == v + Marks(us);
    }
  }

  /** The units stand at `i`, and the element ends at `end`. */
  ghost predicate UnitsAt(s: string, i: nat, quoted: bool, us: seq<Unit>, end: nat) {
    && (forall u | u in us :: UnitOk(u, quoted)) && Has(s, i, UnitsText(us))
    && if quoted then At(s, i + |UnitsText(us)|, '"') && end == i + |UnitsText(us)| + 1
       else Ends(s, i + |UnitsText(us)|) && end == i + |UnitsText(us)|
  }

  lemma {:induction false} CharsAreUnits(s: string, i: nat, quoted: bool, v: Chars) returns (us: seq<Unit>)
    requires i <= |s| && ReadChars(s, i, quoted, v).Ok?
    ensures var r := ReadChars(s, i, quoted, v).value; UnitsAt(s, i, quoted, us, r.1) && r.0 == v + Marks(us)
    decreases |s| - i
  {
    hide ReadChars, UnitsAt, UnitsText, Marks, Has;
    CharStep(s, i, quoted, v);
    if s[i] == '\\' {
      us := CharsAreUnits(s, i + 2, quoted, v + [(s[i + 1], true)]);
      OneMore(s, i, quoted, Slash(s[i + 1]), us, v, ReadChars(s, i, quoted, v).value.1);
      us := [Slash(s[i + 1])] + us;
    } else if (quoted && s[i] == '"') || (!quoted && (s[i] == ',' || s[i] == '}')) {
      us := [];
      NoMore(s, i, quoted, v);
    } else {
      us := CharsAreUnits(s, i + 1, quoted, v + [(s[i], false)]);
      OneMore(s, i, quoted, Bare(s[i]), us, v, ReadChars(s, i, quoted, v).value.1);
      us := [Bare(s[i])] + us;
    }
  }

  /** What a character that is read leads to. */
  lemma CharStep(s: string, i: nat, quoted: bool, v: Chars)
    requires i <= |s| && ReadChars(s, i, quoted, v).Ok?
    ensures i < |s|
    ensures var r := ReadChars(s, i, quoted, v);
            if s[i] == '\\' then
              && i + 1 < |s| && Has(s, i, UnitText(Slash(s[i + 1])))
              && r == ReadChars(s, i + 2, quoted, v + [(s[i + 1], true)])
            else if (quoted && s[i] == '"') || (!quoted && (s[i] == ',' || s[i] == '}')) then
              r == Ok((v, if quoted then i + 1 else i))
            else
              && UnitOk(Bare(s[i]), quoted) && Has(s, i, UnitText(Bare(s[i])))
              && r == ReadChars(s, i + 1, quoted, v + [(s[i], false)])
  {
  }

  lemma NoMore(s: string, i: nat, quoted: bool, v: Chars)
    requires if quoted then At(s, i, '"') else Ends(s, i)
    ensures UnitsAt(s, i, quoted, [], if quoted then i + 1 else i) && v + Marks([]) == v
  {
  }

  lemma OneMore(s: string, i: nat, quoted: bool, u: Unit, us: seq<Unit>, v: Chars, end: nat)
    requires Has(s, i, UnitText(u)) && UnitOk(u, quoted) && UnitsAt(s, i + |UnitText(u)|, quoted, us, end)
    ensures UnitsAt(s, i, quoted, [u] + us, end)
    ensures v + Marks([u] + us) == v + [(u.c, u.Slash?)] + Marks(us)
  {
    var all := [u] + us;
    assert all[1..] == us && all[0] == u;
    HasBoth(s, i, UnitText(u), UnitsText(us));
    assert Marks(all) == [(u.c, u.Slash?)] + Marks(us);
  }

  lemma HasBoth(s: string, i: nat, a: string, b: string)
    requires Has(s, i, a) && Has(s, i + |a|, b)
    ensures Has(s, i, a + b)
  {
    assert s[i..i + |a + b|] == s[i..i + |a|] + s[i + |a|..i + |a| + |b|];
  }

  lemma NullIs(t: string)
    ensures SpellsNull(t) <==> IsNullWord(t)
  {
    if |t| == 4 {
      assert "NULL"[0] == 'N' && "NULL"[1] == 'U' && "NULL"[2] == 'L' && "NULL"[3] == 'L';
      assert "null"[0] == 'n' && "null"[1] == 'u' && "null"[2] == 'l' && "null"[3] == 'l';
      if IsNullWord(t) {
        assert t[0] == "NULL"[0] || t[0] == "null"[0];
        assert t[1] == "NULL"[1] || t[1] == "null"[1];
        assert t[2] == "NULL"[2] || t[2] == "null"[2];
        assert t[3] == "NULL"[3] || t[3] == "null"[3];
      }
    }
  }

  lemma MarksMean(us: seq<Unit>)
    ensures ArrayParser.Plain(Marks(us)) == Meant(us)
  {
  }

  function Blanks(b: string): (us: seq<Unit>)
    ensures |us| == |b|
  {
    seq(|b|, i requires 0 <= i < |b| => Bare(b[i]))
  }

  lemma {:induction false} BlanksText(b: string)
    ensures UnitsText(Blanks(b)) == b
  {
    if b != "" {
      assert Blanks(b)[1..] == Blanks(b[1..]);
      BlanksText(b[1..]);
      assert b == [b[0]] + b[1..];
    }
  }

  lemma {:induction false} UnitsTextMore(us: seq<Unit>, vs: seq<Unit>)
    ensures UnitsText(us + vs) == UnitsText(us) + UnitsText(vs)
  {
    if us == [] {
      assert us + vs == vs;
    } else {
      assert (us + vs)[1..] == us[1..] + vs;
      UnitsTextMore(us[1..], vs);
    }
  }

  lemma {:induction false} TrimsBlanks(us: seq<Unit>, b: string)
    requires us != [] && !IsBlankUnit(us[|us| - 1]) && AllBlank(b)
    ensures TrimEnd(Marks(us + Blanks(b))) == Marks(us)
    decreases |b|
  {
    BlankUnit(us[|us| - 1]);
    var v := Marks(us + Blanks(b));
    if b == "" {
      assert us + Blanks(b) == us;
    } else {
      var n := |b| - 1;
      assert v[|v| - 1] == (b[n], false);
      BlankUnit(Bare(b[n]));
      assert (us + Blanks(b))[..|us| + n] == us + Blanks(b[..n]);
      assert v[..|v| - 1] == Marks(us + Blanks(b[..n]));
      TrimsBlanks(us, b[..n]);
    }
  }

  lemma BlankUnit(u: Unit)
    ensures IsBlankUnit(u) <==> Blank((u.c, u.Slash?))
  {
    assert [u.c][0] == u.c;
  }

  /** Trailing blanks apart, the units of an unquoted element. */
  lemma {:induction false} SplitsBlanks(us: seq<Unit>) returns (core: seq<Unit>, b: string)
    ensures us == core + Blanks(b) && AllBlank(b) && (core != [] ==> !IsBlankUnit(core[|core| - 1]))
    decreases |us|
  {
    if us == [] || !IsBlankUnit(us[|us| - 1]) {
      core, b := us, "";
    } else {
      var n := |us| - 1;
      core, b := SplitsBlanks(us[..n]);
      assert AllBlank([us[n].c]) && [us[n].c][0] == us[n].c;
      assert Blanks(b + [us[n].c]) == Blanks(b) + [us[n]];
      b := b + [us[n].c];
    }
  }

  lemma PlainReads(s: string, c: Cursor, us: seq<Unit>, post: string)
    requires TreeOk(Plain(us), 1) && AllBlank(post)
    requires Has(s, c.offset, UnitsText(us) + post) && Ends(s, c.offset + |UnitsText(us) + post|)
             && c.elements < MAX_ELEMENTS
    ensures ReadElement(s, c) == Ok((TokensOf(Plain(us))[0],
                                     Cursor(c.offset + |UnitsText(us) + post|, c.lists, c.elements + 1)))
  {
    hide ReadChars, ElementOf, TokensOf, IsBlankUnit, Marks, UnitsText;
    FirstIsNoQuote(s, c.offset, us, post);
    PlainCharsRead(s, c.offset, us, post);
    PlainElementIs(us, post);
  }

  lemma PlainCharsRead(s: string, i: nat, us: seq<Unit>, post: string)
    requires PlainOk(us) && AllBlank(post) && Has(s, i, UnitsText(us) + post) && Ends(s, i + |UnitsText(us) + post|)
    ensures ReadChars(s, i, false, []) == Ok((Marks(us + Blanks(post)), i + |UnitsText(us) + post|))
  {
    hide UnitsText;
    var all := us + Blanks(post);
    UnitsTextMore(us, Blanks(post));
    BlanksText(post);
    BlanksAreOk(post);
    UnitsRead(s, i, all, false, []);
    assert [] + Marks(all) == Marks(all);
  }

  lemma PlainElementIs(us: seq<Unit>, post: string)
    requires TreeOk(Plain(us), 1) && AllBlank(post)
    ensures ElementOf(Marks(us + Blanks(post)), false) == Ok(TokensOf(Plain(us))[0])
  {
    hide SpellsNull, IsNullWord, IsBlankUnit;
    var all := us + Blanks(post);
    BlankUnit(us[0]);
    assert TrimStart(Marks(all)) == Marks(all) by {
      assert Marks(all)[0] == (us[0].c, us[0].Slash?);
    }
    TrimsBlanks(us, post);
    MarksMean(us);
    NullIs(Meant(us));
  }

  lemma BlanksAreOk(b: string)
    requires AllBlank(b)
    ensures forall u | u in Blanks(b) :: UnitOk(u, false)
  {
  }

  lemma FirstIsNoQuote(s: string, i: nat, us: seq<Unit>, post: string)
    requires us != [] && PlainOk(us) && !IsBlankUnit(us[0]) && Has(s, i, UnitsText(us) + post)
    ensures !At(s, i, '"') && !At(s, i, '{') && i < |s| && !IsSpace(s[i])
  {
    BlankUnit(us[0]);
    assert us[0] in us;
    HasAt(s, i, UnitsText(us) + post, 0);
    assert (UnitsText(us) + post)[0] == UnitText(us[0])[0];
  }

  lemma QuotedReads(s: string, c: Cursor, us: seq<Unit>)
    requires QuotedOk(us) && Has(s, c.offset, TreeText(Quoted(us))) && c.elements < MAX_ELEMENTS
    ensures ReadElement(s, c) == Ok((Some(Meant(us)),
                                     Cursor(c.offset + |TreeText(Quoted(us))|, c.lists, c.elements + 1)))
  {
    hide ReadChars, UnitsText, Has, Marks, Meant;
    var e := UnitsText(us);
    assert TreeText(Quoted(us)) == "\"" + (e + "\"");
    HasParts(s, c.offset, "\"", e + "\"");
    HasAt(s, c.offset, "\"", 0);
    HasParts(s, c.offset + 1, e, "\"");
    HasAt(s, c.offset + 1 + |e|, "\"", 0);
    UnitsRead(s, c.offset + 1, us, true, []);
    assert [] + Marks(us) == Marks(us);
    QuoteEnds(s, c.offset + 1 + |e|, Marks(us));
    MarksMean(us);
  }

  lemma QuoteEnds(s: string, i: nat, v: Chars)
    requires At(s, i, '"')
    ensures ReadChars(s, i, true, v) == Ok((v, i + 1))
  {
  }

  /** An element that is read, from where no blank stands, is a quoted or an unquoted one. */
  lemma ElementIsTree(s: string, c: Cursor) returns (t: Tree, post: string)
    requires c.offset < |s| && !IsSpace(s[c.offset]) && ReadElement(s, c).Ok?
    ensures var r := ReadElement(s, c).value;
            && (t.Quoted? || t.Plain?) && TreeOk(t, 1) && AllBlank(post) && TokensOf(t) == [r.0]
            && Has(s, c.offset, TreeText(t) + post) && r.1.offset == c.offset + |TreeText(t) + post|
            && (t.Quoted? ==> post == "")
            && (t.Plain? ==> Ends(s, r.1.offset))
  {
    hide ReadChars, Has, UnitsText, Marks, Meant, IsNullWord, TrimEnd, TrimStart, SpellsNull;
    if s[c.offset] == '"' {
      var us := CharsAreUnits(s, c.offset + 1, true, []);
      t, post := Quoted(us), "";
      QuotedIsTree(s, c.offset, us);
      assert [] + Marks(us) == Marks(us);
      MarksMean(us);
    } else {
      var us := CharsAreUnits(s, c.offset, false, []);
      assert [] + Marks(us) == Marks(us);
      t, post := PlainIsTree(s, c.offset, us);
    }
  }

  lemma HasOne(s: string, i: nat)
    requires i < |s|
    ensures Has(s, i, [s[i]])
  {
  }

  lemma QuotedIsTree(s: string, i: nat, us: seq<Unit>)
    requires At(s, i, '"') && Has(s, i + 1, UnitsText(us)) && At(s, i + 1 + |UnitsText(us)|, '"')
    requires forall u | u in us :: UnitOk(u, true)
    ensures TreeOk(Quoted(us), 1) && Has(s, i, TreeText(Quoted(us)) + "")
            && TreeText(Quoted(us)) + "" == TreeText(Quoted(us))
  {
    hide UnitsText, Has;
    HasOne(s, i);
    HasOne(s, i + 1 + |UnitsText(us)|);
    HasBoth(s, i + 1, UnitsText(us), "\"");
    HasBoth(s, i, "\"", UnitsText(us) + "\"");
    var t := TreeText(Quoted(us));
    assert t == "\"" + (UnitsText(us) + "\"");
    assert t + "" == t;
  }

  lemma PlainIsTree(s: string, i: nat, us: seq<Unit>) returns (t: Tree, post: string)
    requires i < |s| && !IsSpace(s[i]) && Has(s, i, UnitsText(us)) && (forall u | u in us :: UnitOk(u, false))
    requires ElementOf(Marks(us), false).Ok?
    ensures t.Plain? && TreeOk(t, 1) && AllBlank(post) && TokensOf(t) == [ElementOf(Marks(us), false).value]
    ensures TreeText(t) + post == UnitsText(us)
  {
    var core, b := SplitsBlanks(us);
    t, post := Plain(core), b;
    UnitsTextMore(core, Blanks(b));
    BlanksText(b);
    CoreStarts(s, i, us, core, b);
    BlankUnit(us[0]);
    assert TrimStart(Marks(us)) == Marks(us);
    TrimsBlanks(core, b);
    MarksMean(core);
    NullIs(Meant(core));
    assert forall u | u in core :: u in us;
  }

  lemma CoreStarts(s: string, i: nat, us: seq<Unit>, core: seq<Unit>, b: string)
    requires i < |s| && !IsSpace(s[i]) && Has(s, i, UnitsText(us)) && us == core + Blanks(b) && AllBlank(b)
    requires ElementOf(Marks(us), false).Ok?
    ensures core != [] && us[0] == core[0] && !IsBlankUnit(us[0])
  {
    hide ElementOf;
    NoneFails();
    assert us == [] ==> Marks(us) == [];
    HasAt(s, i, UnitsText(us), 0);
    assert UnitsText(us)[0] == UnitText(us[0])[0];
    BlankUnit(us[0]);
    BlankFirst(b);
    assert core == [] ==> us == Blanks(b);
  }

  lemma NoneFails()
    ensures ElementOf([], false).Err?
  {
  }

  lemma BlankFirst(b: string)
    requires AllBlank(b)
    ensures b != "" ==> IsBlankUnit(Blanks(b)[0])
  {
  }

  // ---------------------------------------------------------------- lists read

  lemma SkipTwice(s: string, i: nat)
    requires i <= |s|
    ensures SkipSpace(s, SkipSpace(s, i)) == SkipSpace(s, i)
  {
  }

  /** Blanks in front of the items make no difference. */
  lemma ItemsSkip(s: string, c: Cursor, i: nat, depth: nat, count: nat, nested: Option<Shape>, tokens: seq<Token>)
    requires i <= |s| && c.offset == SkipSpace(s, i)
    ensures ReadItems(s, c, depth, count, nested, tokens) == ReadItems(s, c.(offset := i), depth, count, nested, tokens)
  {
    hide SkipSpace, ReadList, ReadElement;
    SkipTwice(s, i);
    var c' := c.(offset := i);
    assert c'.(offset := SkipSpace(s, i)) == c;
    assert ReadItem(s, c, depth, count, nested, tokens) == ReadItem(s, c', depth, count, nested, tokens);
  }

  /** What a text of a tree at `c` reads as: its shape and tokens, with the cursor behind it. */
  ghost predicate Reads(r: Result<Read>, c: Cursor, shape: seq<nat>, all: seq<Token>, len: nat, lists: nat, elements: nat) {
    r == Ok(Read(shape, all, Cursor(c.offset + len, c.lists + lists, c.elements + elements)))
  }

  ghost predicate WithinLimits(c: Cursor, lists: nat, elements: nat) {
    c.lists + lists <= MAX_LISTS && c.elements + elements <= MAX_ELEMENTS
  }

  /** The items before had the shape of those to come. */
  ghost predicate Continues(count: nat, nested: Option<Shape>, shape: seq<nat>) {
    nested == if count == 0 then None else AsNested(shape)
  }

  lemma TreeStarts(s: string, i: nat, t: Tree, depth: nat, post: string)
    requires TreeOk(t, depth) && Has(s, i, TreeText(t) + post)
    ensures i < |s| && !IsSpace(s[i]) && s[i] != '}'
    ensures At(s, i, '{') <==> t.List? || t.Empty?
    ensures At(s, i, '"') <==> t.Quoted?
  {
    HasAt(s, i, TreeText(t) + post, 0);
    if t.Plain? {
      FirstIsNoQuote(s, i, t.us, post);
      assert t.us[0] in t.us;
      assert (UnitsText(t.us) + post)[0] == UnitText(t.us[0])[0];
    } else {
      assert (TreeText(t) + post)[0] == TreeText(t)[0];
    }
  }

  lemma ScalarReads(s: string, c: Cursor, item: Item, depth: nat, count: nat, nested: Option<Shape>, tokens: seq<Token>)
    requires AllBlank(item.pre) && AllBlank(item.post) && TreeOk(item.tree, depth + 1)
             && (item.tree.Quoted? || item.tree.Plain?)
    requires nested == None && c.elements < MAX_ELEMENTS
    requires Has(s, c.offset, ItemText(item)) && Ends(s, c.offset + |ItemText(item)|)
    ensures var r := ReadItem(s, c, depth, count, nested, tokens);
            && r.Ok? && r.value.shape == [] && r.value.tokens == tokens + TokensOf(item.tree)
            && SkipSpace(s, r.value.cursor.offset) == c.offset + |ItemText(item)|
            && r.value.cursor.lists == c.lists && r.value.cursor.elements == c.elements + 1
  {
    hide ReadElement, SkipSpace, ReadList, Has, AllBlank, TreeOk, TreeText, TokensOf;
    var i := c.offset + |item.pre|;
    HasParts(s, c.offset, item.pre, TreeText(item.tree) + item.post);
    SkipBlanks(s, c.offset, item.pre);
    TreeStarts(s, i, item.tree, depth + 1, item.post);
    SkipNone(s, i);
    ScalarIsRead(s, c.(offset := i), item.tree, depth + 1, item.post);
  }

  lemma ScalarIsRead(s: string, c: Cursor, t: Tree, depth: nat, post: string)
    requires (t.Quoted? || t.Plain?) && TreeOk(t, depth) && AllBlank(post) && c.elements < MAX_ELEMENTS
    requires Has(s, c.offset, TreeText(t) + post) && Ends(s, c.offset + |TreeText(t) + post|)
    ensures var r := ReadElement(s, c);
            && r.Ok? && TokensOf(t) == [r.value.0] && SkipSpace(s, r.value.1.offset) == c.offset + |TreeText(t) + post|
            && r.value.1.lists == c.lists && r.value.1.elements == c.elements + 1
  {
    hide ReadElement, SkipSpace, Has, AllBlank, UnitsText, Meant, IsNullWord, QuotedOk, PlainOk, IsBlankUnit;
    SkipNone(s, c.offset + |TreeText(t) + post|);
    if t.Quoted? {
      HasParts(s, c.offset, TreeText(t), post);
      QuotedReads(s, c, t.us);
      SkipBlanks(s, c.offset + |TreeText(t)|, post);
    } else {
      PlainReads(s, c, t.us, post);
    }
  }

  lemma SkipNone(s: string, i: nat)
    requires i < |s| && !IsSpace(s[i])
    ensures SkipSpace(s, i) == i
  {
  }

  lemma {:induction false} TreeReads(s: string, c: Cursor, t: Tree, depth: nat, tokens: seq<Token>)
    requires (t.List? || t.Empty?) && TreeOk(t, depth) && Has(s, c.offset, TreeText(t))
    requires WithinLimits(c, ListsOf(t), |TokensOf(t)|)
    ensures Reads(ReadList(s, c, depth, tokens), c, ShapeOf(t), tokens + TokensOf(t), |TreeText(t)|, ListsOf(t), |TokensOf(t)|)
    decreases t, 0
  {
    hide SkipSpace, ReadItems, Has, AllBlank, ItemsText, ItemTokens, ItemLists, ItemsOk;
    var i := c.offset;
    assert TreeText(t) + "" == TreeText(t);
    TreeStarts(s, i, t, depth, "");
    SkipNone(s, i);
    if t.Empty? {
      EmptyReads(s, i, t);
      assert tokens + [] == tokens;
    } else {
      var items := t.items;
      assert TreeText(t) == "{" + (ItemsText(items) + "}");
      HasParts(s, i, "{", ItemsText(items) + "}");
      FirstItem(s, i + 1, items, depth);
      var c1 := Cursor(i + 1, c.lists + 1, c.elements);
      ItemsRead(s, c1, items, depth, 0, None, ShapeOf(items[0].tree), tokens);
      ItemsSkip(s, c1.(offset := SkipSpace(s, i + 1)), i + 1, depth, 0, None, tokens);
    }
  }

  lemma EmptyReads(s: string, i: nat, t: Tree)
    requires t.Empty? && AllBlank(t.blank) && Has(s, i, TreeText(t))
    ensures At(s, SkipSpace(s, i + 1), '}') && SkipSpace(s, i + 1) + 1 == i + |TreeText(t)|
  {
    assert TreeText(t) == "{" + (t.blank + "}");
    HasParts(s, i, "{", t.blank + "}");
    HasParts(s, i + 1, t.blank, "}");
    HasAt(s, i + 1 + |t.blank|, "}", 0);
    SkipBlanks(s, i + 1, t.blank);
  }

  /** After the opening brace the first item comes, and no closing brace. */
  lemma FirstItem(s: string, i: nat, items: seq<Item>, depth: nat)
    requires items != [] && ItemsOk(items, depth, ShapeOf(items[0].tree)) && Has(s, i, ItemsText(items) + "}")
    ensures !At(s, SkipSpace(s, i), '}')
  {
    hide SkipSpace, TreeOk, TreeText, ItemsText, ItemsTextRest, Has, ShapeOf;
    var item, rest := items[0], ItemsTextRest(items);
    ItemsSplit(items);
    Regroup(item.pre, TreeText(item.tree), item.post, rest, "}");
    var tail := item.post + (rest + "}");
    HasParts(s, i, item.pre, TreeText(item.tree) + tail);
    SkipBlanks(s, i, item.pre);
    TreeStarts(s, i + |item.pre|, item.tree, depth + 1, tail);
    SkipNone(s, i + |item.pre|);
  }

  lemma Regroup(a: string, b: string, c: string, d: string, e: string)
    ensures (a + (b + c)) + d + e == a + (b + (c + (d + e)))
  {
  }

  /** What follows the first item. */
  function ItemsTextRest(items: seq<Item>): string
    requires items != []
  {
    if |items| == 1 then "" else "," + ItemsText(items[1..])
  }

  lemma ItemsSplit(items: seq<Item>)
    requires items != []
    ensures ItemsText(items) == ItemText(items[0]) + ItemsTextRest(items)
  {
    if |items| == 1 {
      assert ItemText(items[0]) + "" == ItemText(items[0]);
    }
  }

  lemma {:induction false} ItemReads(s: string, c: Cursor, item: Item, depth: nat, count: nat, nested: Option<Shape>,
                                     shape: seq<nat>,
                                     tokens: seq<Token>)
    requires AllBlank(item.pre) && AllBlank(item.post) && TreeOk(item.tree, depth + 1) && ShapeOf(item.tree) == shape
    requires Continues(count, nested, shape) && WithinLimits(c, ListsOf(item.tree), |TokensOf(item.tree)|)
    requires Has(s, c.offset, ItemText(item)) && Ends(s, c.offset + |ItemText(item)|)
    ensures var r := ReadItem(s, c, depth, count, nested, tokens);
            && r.Ok? && r.value.shape == shape && r.value.tokens == tokens + TokensOf(item.tree)
            && SkipSpace(s, r.value.cursor.offset) == c.offset + |ItemText(item)|
            && r.value.cursor.lists == c.lists + ListsOf(item.tree)
            && r.value.cursor.elements == c.elements + |TokensOf(item.tree)|
    decreases item, 1
  {
    hide SkipSpace, ReadList, ReadItem, TreeText, AllBlank, Has;
    if item.tree.Quoted? || item.tree.Plain? {
      ScalarReads(s, c, item, depth, count, nested, tokens);
    } else {
      hide TreeOk, TokensOf, ListsOf;
      var i := c.offset + |item.pre|;
      HasParts(s, c.offset, item.pre, TreeText(item.tree) + item.post);
      HasParts(s, i, TreeText(item.tree), item.post);
      SkipBlanks(s, c.offset, item.pre);
      TreeStarts(s, i, item.tree, depth + 1, item.post);
      SkipNone(s, i);
      TreeReads(s, c.(offset := i), item.tree, depth + 1, tokens);
      SkipBlanks(s, i + |TreeText(item.tree)|, item.post);
      SkipNone(s, c.offset + |ItemText(item)|);
      ShapeOfList(item.tree);
      NestedItem(s, c, depth, count, nested, tokens, shape);
    }
  }

  lemma NestedItem(s: string, c: Cursor, depth: nat, count: nat, nested: Option<Shape>, tokens: seq<Token>,
                   shape: seq<nat>)
    requires c.offset <= |s| && At(s, SkipSpace(s, c.offset), '{') && shape != [] && Continues(count, nested, shape)
    requires var r := ReadList(s, c.(offset := SkipSpace(s, c.offset)), depth + 1, tokens); r.Ok? && r.value.shape == shape
    ensures ReadItem(s, c, depth, count, nested, tokens) == ReadList(s, c.(offset := SkipSpace(s, c.offset)), depth + 1, tokens)
  {
    hide ReadList, SkipSpace;
  }

  lemma ShapeOfList(t: Tree)
    requires t.List? || t.Empty?
    ensures ShapeOf(t) != []
  {
  }

  lemma {:induction false} ItemsRead(s: string, c: Cursor, items: seq<Item>, depth: nat, count: nat,
                                     nested: Option<Shape>,
                                     shape: seq<nat>, tokens: seq<Token>)
    requires items != [] && ItemsOk(items, depth, shape) && Continues(count, nested, shape)
    requires Has(s, c.offset, ItemsText(items) + "}") && WithinLimits(c, ItemLists(items), |ItemTokens(items)|)
    ensures Reads(ReadItems(s, c, depth, count, nested, tokens), c, [count + |items|] + shape, tokens + ItemTokens(items),
                  |ItemsText(items)| + 1, ItemLists(items), |ItemTokens(items)|)
    decreases items, 2
  {
    hide SkipSpace, ReadItem, ReadItems, TreeOk, TreeText, TokensOf, ListsOf, ShapeOf, ItemText, ItemsText, Has, AsNested,
         ItemTokens, ItemLists, ItemsOk, AllBlank;
    HeadAndRest(items, depth, shape);
    ItemsStand(s, c.offset, items);
    var j := c.offset + |ItemText(items[0])|;
    ItemReads(s, c, items[0], depth, count, nested, shape, tokens);
    var inner := ReadItem(s, c, depth, count, nested, tokens).value;
    ItemsStep(s, c, depth, count, nested, tokens);
    if |items| == 1 {
      LastItem(items);
    } else {
      ItemsRead(s, inner.cursor.(offset := j + 1), items[1..], depth, count + 1, AsNested(shape), shape, inner.tokens);
      assert tokens + ItemTokens(items) == inner.tokens + ItemTokens(items[1..]);
    }
  }

  /** Where the first item stands, and what follows it. */
  lemma ItemsStand(s: string, i: nat, items: seq<Item>)
    requires items != [] && Has(s, i, ItemsText(items) + "}")
    ensures var n := |ItemText(items[0])|;
            && Has(s, i, ItemText(items[0])) && Ends(s, i + n)
            && (|items| == 1 ==> At(s, i + n, '}') && |ItemsText(items)| == n)
            && (|items| > 1 ==> At(s, i + n, ',') && Has(s, i + n + 1, ItemsText(items[1..]) + "}")
                                && |ItemsText(items)| == n + 1 + |ItemsText(items[1..])|)
  {
    hide ItemText, ItemsText, Has;
    var item, rest := items[0], ItemsTextRest(items) + "}";
    ItemsSplit(items);
    assert ItemsText(items) + "}" == ItemText(item) + rest;
    HasParts(s, i, ItemText(item), rest);
    var j := i + |ItemText(item)|;
    HasAt(s, j, rest, 0);
    if |items| > 1 {
      assert rest == "," + (ItemsText(items[1..]) + "}");
      HasParts(s, j, ",", ItemsText(items[1..]) + "}");
    }
  }

  lemma HeadAndRest(items: seq<Item>, depth: nat, shape: seq<nat>)
    requires items != [] && ItemsOk(items, depth, shape)
    ensures AllBlank(items[0].pre) && AllBlank(items[0].post) && TreeOk(items[0].tree, depth + 1)
    ensures ShapeOf(items[0].tree) == shape && ItemsOk(items[1..], depth, shape)
    ensures ItemTokens(items) == TokensOf(items[0].tree) + ItemTokens(items[1..])
    ensures ItemLists(items) == ListsOf(items[0].tree) + ItemLists(items[1..])
  {
  }

  lemma ItemsStep(s: string, c: Cursor, depth: nat, count: nat, nested: Option<Shape>, tokens: seq<Token>)
    requires c.offset <= |s| && ReadItem(s, c, depth, count, nested, tokens).Ok?
    ensures var inner := ReadItem(s, c, depth, count, nested, tokens).value;
            var j, r := SkipSpace(s, inner.cursor.offset), ReadItems(s, c, depth, count, nested, tokens);
            && (At(s, j, ',') ==>
                  r == ReadItems(s, inner.cursor.(offset := j + 1), depth, count + 1, AsNested(inner.shape), inner.tokens))
            && (At(s, j, '}') ==> r == Ok(Read([count + 1] + inner.shape, inner.tokens, inner.cursor.(offset := j + 1))))
            && (!At(s, j, ',') && !At(s, j, '}') ==> r.Err?)
  {
    hide ReadItem, SkipSpace;
  }

  lemma LastItem(items: seq<Item>)
    requires |items| == 1
    ensures ItemTokens(items) == TokensOf(items[0].tree) && ItemLists(items) == ListsOf(items[0].tree)
  {
    assert items[1..] == [];
    assert TokensOf(items[0].tree) + [] == TokensOf(items[0].tree);
  }

  // ---------------------------------------------------------------- what is read is a tree

  /** An item that is read, with a comma or a brace after it, is the text of one. */
  lemma {:induction false} ItemIsTree(s: string, c: Cursor, depth: nat, count: nat, nested: Option<Shape>,
                                      tokens: seq<Token>)
    returns (item: Item)
    requires c.offset <= |s| && depth < 6 && c.lists <= MAX_LISTS && ReadItem(s, c, depth, count, nested, tokens).Ok?
    requires Ends(s, SkipSpace(s, ReadItem(s, c, depth, count, nested, tokens).value.cursor.offset))
    ensures var r := ReadItem(s, c, depth, count, nested, tokens).value;
            && AllBlank(item.pre) && AllBlank(item.post) && TreeOk(item.tree, depth + 1)
            && r.shape == ShapeOf(item.tree) && r.tokens == tokens + TokensOf(item.tree)
            && Has(s, c.offset, ItemText(item)) && SkipSpace(s, r.cursor.offset) == c.offset + |ItemText(item)|
            && r.cursor.lists == c.lists + ListsOf(item.tree) <= MAX_LISTS
            && r.cursor.elements == c.elements + |TokensOf(item.tree)|
            && (TokensOf(item.tree) != [] && r.cursor.elements <= MAX_ELEMENTS)
            && (nested.Some? ==> nested.value == r.shape) && (count > 0 && nested.None? ==> r.shape == [])
            && (r.shape == [] ==> nested.None?)
    decreases |s| - c.offset, 1
  {
    hide SkipSpace, ReadList, ReadElement, TreeOk, AllBlank, Has, TreeText, ItemText, TokensOf, ListsOf, ShapeOf;
    var i := SkipSpace(s, c.offset);
    var r := ReadItem(s, c, depth, count, nested, tokens).value;
    var pre := s[c.offset..i];
    SkippedBlanks(s, c.offset);
    if At(s, i, '{') {
      var blank, t := ListIsTree(s, c.(offset := i), depth + 1, tokens);
      NoBlankAt(s, i, blank, t);
      var post := s[r.cursor.offset..SkipSpace(s, r.cursor.offset)];
      SkippedBlanks(s, r.cursor.offset);
      item := Item(pre, t, post);
      ItemAssembles(s, c.offset, item);
      ShapeOfList(t);
      NestedIsNotEmpty(t, depth + 1);
    } else {
      var t, post := ScalarIsTree(s, c.(offset := i));
      item := Item(pre, t, post);
      ItemAssembles(s, c.offset, item);
      ScalarAnyDepth(t, depth + 1);
    }
  }

  lemma NestedIsNotEmpty(t: Tree, depth: nat)
    requires TreeOk(t, depth) && depth > 0
    ensures !t.Empty?
  {
  }

  lemma ItemAssembles(s: string, i: nat, item: Item)
    requires Has(s, i, item.pre) && Has(s, i + |item.pre|, TreeText(item.tree))
    requires Has(s, i + |item.pre| + |TreeText(item.tree)|, item.post)
    ensures Has(s, i, ItemText(item)) && |ItemText(item)| == |item.pre| + |TreeText(item.tree)| + |item.post|
  {
    hide TreeText, Has;
    HasBoth(s, i + |item.pre|, TreeText(item.tree), item.post);
    HasBoth(s, i, item.pre, TreeText(item.tree) + item.post);
  }

  lemma NoBlankAt(s: string, i: nat, blank: string, t: Tree)
    requires At(s, i, '{') && AllBlank(blank) && Has(s, i, blank + TreeText(t))
    ensures blank == "" && Has(s, i, TreeText(t)) && blank + TreeText(t) == TreeText(t)
  {
    if blank != "" {
      HasParts(s, i, blank, TreeText(t));
      HasAt(s, i, blank, 0);
    }
    assert blank + TreeText(t) == TreeText(t);
  }

  /** The scalar at `c`, with the blanks up to the next comma or brace. */
  lemma ScalarIsTree(s: string, c: Cursor) returns (t: Tree, post: string)
    requires c.offset <= |s| && (c.offset < |s| ==> !IsSpace(s[c.offset])) && ReadElement(s, c).Ok?
    requires Ends(s, SkipSpace(s, ReadElement(s, c).value.1.offset))
    ensures var r := ReadElement(s, c).value;
            && (t.Quoted? || t.Plain?) && TreeOk(t, 1) && AllBlank(post) && TokensOf(t) == [r.0]
            && Has(s, c.offset, TreeText(t)) && Has(s, c.offset + |TreeText(t)|, post)
            && SkipSpace(s, r.1.offset) == c.offset + |TreeText(t)| + |post|
  {
    hide ReadElement, SkipSpace, TreeOk, TreeText, TokensOf, Has;
    ElementHasText(s, c);
    var blanks;
    t, blanks := ElementIsTree(s, c);
    var r := ReadElement(s, c).value;
    HasParts(s, c.offset, TreeText(t), blanks);
    if t.Quoted? {
      post := s[r.1.offset..SkipSpace(s, r.1.offset)];
      SkippedBlanks(s, r.1.offset);
      assert TreeText(t) + "" == TreeText(t);
    } else {
      post := blanks;
      SkipNone(s, r.1.offset);
    }
  }

  lemma ElementHasText(s: string, c: Cursor)
    requires c.offset <= |s| && ReadElement(s, c).Ok?
    ensures c.offset < |s|
  {
  }

  lemma ScalarAnyDepth(t: Tree, depth: nat)
    requires (t.Quoted? || t.Plain?) && TreeOk(t, 1)
    ensures TreeOk(t, depth) && ShapeOf(t) == [] && ListsOf(t) == 0
  {
  }

  lemma {:induction false} ListIsTree(s: string, c: Cursor, depth: nat, tokens: seq<Token>) returns (blank: string,
                                      t: Tree)
    requires c.offset <= |s| && ReadList(s, c, depth, tokens).Ok?
    ensures var r := ReadList(s, c, depth, tokens).value;
            && AllBlank(blank) && (t.List? || t.Empty?) && TreeOk(t, depth) && Has(s, c.offset, blank + TreeText(t))
            && r.cursor.offset == c.offset + |blank + TreeText(t)|
            && r.shape == ShapeOf(t) && r.tokens == tokens + TokensOf(t)
            && r.cursor.lists == c.lists + ListsOf(t) <= MAX_LISTS
            && r.cursor.elements == c.elements + |TokensOf(t)|
            && (TokensOf(t) != [] ==> r.cursor.elements <= MAX_ELEMENTS) && (t.List? ==> TokensOf(t) != [])
    decreases |s| - c.offset, 0
  {
    hide SkipSpace, ReadItems, Has, AllBlank, ItemsText, ItemTokens, ItemLists, ItemsOk, TreeOk, TreeText, TokensOf, ListsOf,
         ShapeOf;
    var i := SkipSpace(s, c.offset);
    blank := s[c.offset..i];
    SkippedBlanks(s, c.offset);
    var j := SkipSpace(s, i + 1);
    if At(s, j, '}') {
      t := Empty(s[i + 1..j]);
      SkippedBlanks(s, i + 1);
      EmptyAssembles(s, i, j);
      HasBoth(s, c.offset, blank, TreeText(t));
      EmptyIs(t.blank);
      assert tokens + [] == tokens;
    } else {
      var c1 := Cursor(i + 1, c.lists + 1, c.elements);
      ItemsSkip(s, c1.(offset := j), i + 1, depth, 0, None, tokens);
      var items, shape := ItemsAreTrees(s, c1, depth, 0, None, tokens);
      t := List(items);
      ListAssembles(s, c.offset, blank, items);
      ListIs(items, depth);
    }
  }

  lemma EmptyIs(blank: string)
    ensures var t := Empty(blank);
            && (AllBlank(blank) ==> TreeOk(t, 0)) && ShapeOf(t) == [0] && TokensOf(t) == [] && ListsOf(t) == 1
  {
  }

  lemma ListIs(items: seq<Item>, depth: nat)
    requires items != [] && depth < 6 && ItemsOk(items, depth, ShapeOf(items[0].tree))
    ensures var t := List(items);
            && TreeOk(t, depth) && ShapeOf(t) == [|items|] + ShapeOf(items[0].tree)
            && TokensOf(t) == ItemTokens(items) && ListsOf(t) == 1 + ItemLists(items)
  {
    hide ItemsOk, ItemTokens, ItemLists;
  }

  lemma EmptyAssembles(s: string, i: nat, j: nat)
    requires At(s, i, '{') && i + 1 <= j && At(s, j, '}')
    ensures var t := Empty(s[i + 1..j]); Has(s, i, TreeText(t)) && |TreeText(t)| == j + 1 - i
  {
    assert s[i..j + 1] == "{" + s[i + 1..j] + "}";
  }

  lemma ListAssembles(s: string, i: nat, blank: string, items: seq<Item>)
    requires Has(s, i, blank) && At(s, i + |blank|, '{') && Has(s, i + |blank| + 1, ItemsText(items) + "}")
    ensures var t := List(items);
            && Has(s, i, blank + TreeText(t)) && |TreeText(t)| == |ItemsText(items)| + 2
  {
    hide ItemsText;
    assert Has(s, i + |blank|, "{");
    HasBoth(s, i + |blank|, "{", ItemsText(items) + "}");
    assert TreeText(List(items)) == "{" + (ItemsText(items) + "}");
    HasBoth(s, i, blank, TreeText(List(items)));
  }

  lemma {:induction false} ItemsAreTrees(s: string, c: Cursor, depth: nat, count: nat, nested: Option<Shape>,
                                         tokens: seq<Token>)
    returns (items: seq<Item>, shape: seq<nat>)
    requires c.offset <= |s| && depth < 6 && c.lists <= MAX_LISTS && ReadItems(s, c, depth, count, nested, tokens).Ok?
    ensures var r := ReadItems(s, c, depth, count, nested, tokens).value;
            && items != [] && ItemsOk(items, depth, shape) && shape == ShapeOf(items[0].tree)
            && Has(s, c.offset, ItemsText(items) + "}") && r.cursor.offset == c.offset + |ItemsText(items)| + 1
            && r.shape == [count + |items|] + shape && r.tokens == tokens + ItemTokens(items)
            && r.cursor.lists == c.lists + ItemLists(items) <= MAX_LISTS
            && r.cursor.elements == c.elements + |ItemTokens(items)| <= MAX_ELEMENTS && ItemTokens(items) != []
            && (nested.Some? ==> nested.value == shape) && (count > 0 && nested.None? ==> shape == [])
    decreases |s| - c.offset, 2
  {
    hide SkipSpace, ReadItem, ReadItems, TreeOk, TreeText, TokensOf, ListsOf, ShapeOf, ItemText, Has, AllBlank;
    ItemsNeedItem(s, c, depth, count, nested, tokens);
    ItemsStep(s, c, depth, count, nested, tokens);
    var inner := ReadItem(s, c, depth, count, nested, tokens).value;
    var j := SkipSpace(s, inner.cursor.offset);
    var item := ItemIsTree(s, c, depth, count, nested, tokens);
    shape := inner.shape;
    if At(s, j, ',') {
      var items', shape' := ItemsAreTrees(s, inner.cursor.(offset := j + 1), depth, count + 1, AsNested(shape), inner.tokens);
      items := [item] + items';
      assert items[1..] == items' && items[0] == item;
      MoreAssembles(s, c.offset, item, items');
      assert tokens + ItemTokens(items) == inner.tokens + ItemTokens(items');
    } else {
      items := [item];
      assert items[1..] == [];
      LastAssembles(s, c.offset, item);
      LastItem(items);
    }
  }

  lemma ItemsNeedItem(s: string, c: Cursor, depth: nat, count: nat, nested: Option<Shape>, tokens: seq<Token>)
    requires c.offset <= |s| && ReadItems(s, c, depth, count, nested, tokens).Ok?
    ensures ReadItem(s, c, depth, count, nested, tokens).Ok?
  {
  }

  lemma MoreAssembles(s: string, i: nat, item: Item, items: seq<Item>)
    requires items != [] && Has(s, i, ItemText(item)) && At(s, i + |ItemText(item)|, ',')
    requires Has(s, i + |ItemText(item)| + 1, ItemsText(items) + "}")
    ensures var all := [item] + items;
            && Has(s, i, ItemsText(all) + "}") && |ItemsText(all)| == |ItemText(item)| + 1 + |ItemsText(items)|
  {
    hide ItemText;
    var all, j := [item] + items, i + |ItemText(item)|;
    assert all[1..] == items;
    assert ItemsText(all) == ItemText(item) + ("," + ItemsText(items));
    assert Has(s, j, ",");
    HasBoth(s, j, ",", ItemsText(items) + "}");
    HasBoth(s, i, ItemText(item), "," + (ItemsText(items) + "}"));
    assert ItemText(item) + ("," + (ItemsText(items) + "}")) == ItemsText(all) + "}";
  }

  lemma LastAssembles(s: string, i: nat, item: Item)
    requires Has(s, i, ItemText(item)) && At(s, i + |ItemText(item)|, '}')
    ensures Has(s, i, ItemsText([item]) + "}") && ItemsText([item]) == ItemText(item)
  {
    hide ItemText;
    assert Has(s, i + |ItemText(item)|, "}");
    HasBoth(s, i, ItemText(item), "}");
  }

  // ---------------------------------------------------------------- bounds

  /** One `[lower:upper]` with the blanks in it. */
  datatype Bound = Bound(b1: string, lo: string, lower: int, b2: string, b3: string, hi: string, upper: int, b4: string)

  function BoundText(b: Bound): string {
    "[" + (b.b1 + (b.lo + (b.b2 + (":" + UpperText(b)))))
  }

  function UpperText(b: Bound): string {
    b.b3 + (b.hi + (b.b4 + "]"))
  }

  predicate IsI32(n: int) {
    -0x8000_0000 <= n <= 0x7FFF_FFFF
  }

  predicate BoundOk(b: Bound) {
    && AllBlank(b.b1) && AllBlank(b.b2) && AllBlank(b.b3) && AllBlank(b.b4)
    && Numeral(b.lo, b.lower) && IsI32(b.lower) && Numeral(b.hi, b.upper) && IsI32(b.upper)
  }

  function Pairs(bs: seq<Bound>): seq<(int, int)> {
    if bs == [] then [] else [(bs[0].lower, bs[0].upper)] + Pairs(bs[1..])
  }

  lemma {:induction false} SkipsDigits(s: string, i: nat, d: string)
    requires Has(s, i, d) && AllDigits(d) && (i + |d| < |s| ==> !IsDigit(s[i + |d|]))
    ensures SkipDigits(s, i) == i + |d|
    decreases |d|
  {
    if d != "" {
      HasAt(s, i, d, 0);
      assert d == [d[0]] + d[1..];
      HasParts(s, i, [d[0]], d[1..]);
      SkipsDigits(s, i + 1, d[1..]);
    }
  }

  lemma {:induction false} SkippedDigits(s: string, i: nat)
    requires i <= |s|
    ensures AllDigits(s[i..SkipDigits(s, i)]) && (SkipDigits(s, i) < |s| ==> !IsDigit(s[SkipDigits(s, i)]))
    decreases |s| - i
  {
    if i < |s| && IsDigit(s[i]) {
      SkippedDigits(s, i + 1);
      assert s[i..SkipDigits(s, i)] == [s[i]] + s[i + 1..SkipDigits(s, i + 1)];
    }
  }

  lemma IntegerReads(s: string, i: nat, text: string, n: int)
    requires Has(s, i, text) && Numeral(text, n) && IsI32(n) && (i + |text| < |s| ==> !IsDigit(s[i + |text|]))
    ensures ReadInteger(s, i) == Ok((n, i + |text|))
  {
    hide SkipDigits, ParseSigned, Numeral, Has;
    IntegerEnds(s, i, text, n);
    NumeralParses(text, n);
    assert s[i..i + |text|] == text && text != "" by {
      HasIs(s, i, text);
    }
  }

  lemma HasIs(s: string, i: nat, t: string)
    requires Has(s, i, t)
    ensures i + |t| <= |s| && s[i..i + |t|] == t
  {
  }

  lemma NumeralParses(text: string, n: int)
    requires Numeral(text, n) && IsI32(n)
    ensures text != "" && ParseSigned(text, I32_MIN, I32_MAX) == Some(n)
  {
  }

  lemma IntegerEnds(s: string, i: nat, text: string, n: int)
    requires Has(s, i, text) && Numeral(text, n) && (i + |text| < |s| ==> !IsDigit(s[i + |text|]))
    ensures SkipDigits(s, if At(s, i, '+') || At(s, i, '-') then i + 1 else i) == i + |text|
  {
    hide SkipDigits, Value;
    HasAt(s, i, text, 0);
    if text[0] == '+' || text[0] == '-' {
      assert text == [text[0]] + text[1..];
      HasParts(s, i, [text[0]], text[1..]);
      SkipsDigits(s, i + 1, text[1..]);
    } else {
      assert IsDigit(text[0]);
      SkipsDigits(s, i, text);
    }
  }

  lemma IntegerIsNumeral(s: string, i: nat)
    requires i <= |s| && ReadInteger(s, i).Ok?
    ensures var r := ReadInteger(s, i).value;
            i < r.1 <= |s| && Numeral(s[i..r.1], r.0) && IsI32(r.0)
  {
  }

  /** A numeral is followed by a blank, a colon or a bracket. */
  predicate Delimits(s: string, i: nat) {
    i < |s| && (IsSpace(s[i]) || s[i] == ':' || s[i] == ']')
  }

  lemma BlanksDelimit(s: string, i: nat, b: string, rest: string)
    requires AllBlank(b) && Has(s, i, b + rest) && rest != "" && (rest[0] == ':' || rest[0] == ']')
    ensures Delimits(s, i) && !IsDigit(s[i]) && SkipSpace(s, i) == i + |b| && At(s, i + |b|, rest[0])
  {
    HasParts(s, i, b, rest);
    HasAt(s, i + |b|, rest, 0);
    HasAt(s, i, b + rest, 0);
    SkipBlanks(s, i, b);
    assert (b + rest)[0] == if b == "" then rest[0] else b[0];
  }

  lemma NumeralStarts(s: string, i: nat, b: string, text: string, n: int, rest: string)
    requires AllBlank(b) && Numeral(text, n) && Has(s, i, b + (text + rest))
    ensures SkipSpace(s, i) == i + |b| && Has(s, i + |b|, text) && Has(s, i + |b| + |text|, rest)
  {
    hide Has, AllBlank, SkipSpace;
    HasParts(s, i, b, text + rest);
    HasParts(s, i + |b|, text, rest);
    HasAt(s, i + |b|, text, 0);
    SkipBlanks(s, i, b);
    SkipNone(s, i + |b|);
  }

  /** A numeral with blanks around it and a separator behind them. */
  lemma HalfReads(s: string, i: nat, b: string, text: string, n: int, b2: string, rest: string)
    requires AllBlank(b) && AllBlank(b2) && Numeral(text, n) && IsI32(n) && rest != ""
             && (rest[0] == ':' || rest[0] == ']')
    requires Has(s, i, b + (text + (b2 + rest)))
    ensures i <= |s| && ReadInteger(s, SkipSpace(s, i)) == Ok((n, i + |b| + |text|))
    ensures var j := i + |b| + |text| + |b2|; SkipSpace(s, i + |b| + |text|) == j && At(s, j, rest[0]) && Has(s, j, rest)
  {
    hide SkipSpace, ReadInteger, Has, Numeral, AllBlank;
    HasIs(s, i, b + (text + (b2 + rest)));
    NumeralStarts(s, i, b, text, n, b2 + rest);
    var k := i + |b| + |text|;
    BlanksDelimit(s, k, b2, rest);
    HasParts(s, k, b2, rest);
    IntegerReads(s, i + |b|, text, n);
  }

  lemma BoundReads(s: string, i: nat, b: Bound)
    requires BoundOk(b) && Has(s, i, BoundText(b))
    ensures At(s, i, '[') && ReadBound(s, i + 1) == Ok(((b.lower, b.upper), i + |BoundText(b)|))
  {
    hide SkipSpace, ReadInteger, Has, Numeral, AllBlank, ReadBound, BoundText, UpperText;
    LowerHalf(s, i, b);
    var l := i + 1 + |b.b1| + |b.lo|;
    var j := l + |b.b2| + 1;
    UpperHalf(s, j, b);
    BoundStep(s, i + 1, b.lower, l, b.upper, j + |b.b3| + |b.hi|);
  }

  lemma LowerHalf(s: string, i: nat, b: Bound)
    requires BoundOk(b) && Has(s, i, BoundText(b))
    ensures var l := i + 1 + |b.b1| + |b.lo|;
            var j := l + |b.b2|;
            && At(s, i, '[') && j + 1 <= |s| && ReadInteger(s, SkipSpace(s, i + 1)) == Ok((b.lower, l))
            && SkipSpace(s, l) == j && At(s, j, ':') && Has(s, j + 1, UpperText(b))
            && |BoundText(b)| == j + 1 - i + |UpperText(b)|
  {
    hide SkipSpace, ReadInteger, Has, Numeral, AllBlank, UpperText;
    var rest := ":" + UpperText(b);
    HasParts(s, i, "[", b.b1 + (b.lo + (b.b2 + rest)));
    HasAt(s, i, "[", 0);
    HalfReads(s, i + 1, b.b1, b.lo, b.lower, b.b2, rest);
    HasParts(s, i + 1 + |b.b1| + |b.lo| + |b.b2|, ":", UpperText(b));
  }

  lemma UpperHalf(s: string, j: nat, b: Bound)
    requires BoundOk(b) && Has(s, j, UpperText(b))
    ensures var u := j + |b.b3| + |b.hi|;
            && u <= |s| && ReadInteger(s, SkipSpace(s, j)) == Ok((b.upper, u))
            && SkipSpace(s, u) == u + |b.b4| && At(s, u + |b.b4|, ']')
            && |UpperText(b)| == |b.b3| + |b.hi| + |b.b4| + 1
  {
    hide SkipSpace, ReadInteger, Has, Numeral, AllBlank;
    HalfReads(s, j, b.b3, b.hi, b.upper, b.b4, "]");
    HasIs(s, j, UpperText(b));
  }

  lemma BoundStep(s: string, i: nat, lower: int, l: nat, upper: int, u: nat)
    requires i <= |s| && l <= |s| && u <= |s|
    requires ReadInteger(s, SkipSpace(s, i)) == Ok((lower, l)) && At(s, SkipSpace(s, l), ':')
    requires ReadInteger(s, SkipSpace(s, SkipSpace(s, l) + 1)) == Ok((upper, u)) && At(s, SkipSpace(s, u), ']')
    ensures ReadBound(s, i) == Ok(((lower, upper), SkipSpace(s, u) + 1))
  {
    hide ReadInteger, SkipSpace;
  }

  lemma BoundIsRead(s: string, i: nat) returns (b: Bound)
    requires At(s, i, '[') && ReadBound(s, i + 1).Ok?
    ensures var r := ReadBound(s, i + 1).value;
            BoundOk(b) && Has(s, i, BoundText(b)) && r == ((b.lower, b.upper), i + |BoundText(b)|)
  {
    hide Numeral, AllBlank, IsI32, Has, ReadBound, BoundText;
    var lower, upper, i1, l, i2, i3, u, i4 := BoundParts(s, i + 1);
    BoundAssembles(s, i, i1, l, i2, i3, u, i4);
    b := Bound(s[i + 1..i1], s[i1..l], lower, s[l..i2], s[i2 + 1..i3], s[i3..u], upper, s[u..i4]);
    assert BoundText(b) == s[i..i4 + 1] by {
      BoundTextIs(b);
    }
    HasSlice(s, i, i4 + 1);
  }

  lemma BoundParts(s: string, i: nat)
    returns (lower: int, upper: int, i1: nat, l: nat, i2: nat, i3: nat, u: nat, i4: nat)
    requires i <= |s| && ReadBound(s, i).Ok?
    ensures i <= i1 <= l <= i2 && At(s, i2, ':') && i2 < i3 <= u <= i4 && At(s, i4, ']')
    ensures AllBlank(s[i..i1]) && Numeral(s[i1..l], lower) && IsI32(lower) && AllBlank(s[l..i2])
    ensures AllBlank(s[i2 + 1..i3]) && Numeral(s[i3..u], upper) && IsI32(upper) && AllBlank(s[u..i4])
    ensures ReadBound(s, i).value == ((lower, upper), i4 + 1)
  {
    hide SkipSpace, ReadInteger, Numeral, AllBlank, IsI32;
    i1 := SkipSpace(s, i);
    lower, l := ReadInteger(s, i1).value.0, ReadInteger(s, i1).value.1;
    i2 := SkipSpace(s, l);
    i3 := SkipSpace(s, i2 + 1);
    upper, u := ReadInteger(s, i3).value.0, ReadInteger(s, i3).value.1;
    i4 := SkipSpace(s, u);
    HalfIsRead(s, i);
    HalfIsRead(s, i2 + 1);
  }

  lemma BoundTextIs(b: Bound)
    ensures BoundText(b) == "[" + (b.b1 + (b.lo + (b.b2 + (":" + (b.b3 + (b.hi + (b.b4 + "]")))))))
  {
  }

  lemma HasSlice(s: string, i: nat, j: nat)
    requires i <= j <= |s|
    ensures Has(s, i, s[i..j])
  {
  }

  lemma HalfIsRead(s: string, i: nat)
    requires i <= |s| && ReadInteger(s, SkipSpace(s, i)).Ok?
    ensures var j, r := SkipSpace(s, i), ReadInteger(s, SkipSpace(s, i)).value;
            && i <= j < r.1 <= |s| && AllBlank(s[i..j]) && Numeral(s[j..r.1], r.0) && IsI32(r.0)
            && AllBlank(s[r.1..SkipSpace(s, r.1)])
  {
    hide ReadInteger, Numeral, AllBlank;
    var r := ReadInteger(s, SkipSpace(s, i)).value;
    SkippedBlanks(s, i);
    IntegerIsNumeral(s, SkipSpace(s, i));
    SkippedBlanks(s, r.1);
  }

  lemma BoundAssembles(s: string, i: nat, i1: nat, l: nat, i2: nat, i3: nat, u: nat, i4: nat)
    requires At(s, i, '[') && i + 1 <= i1 <= l <= i2 && At(s, i2, ':') && i2 + 1 <= i3 <= u <= i4 && At(s, i4, ']')
    ensures var t := "[" + (s[i + 1..i1] + (s[i1..l] + (s[l..i2] + (":" + (s[i2 + 1..i3] + (s[i3..u] + (s[u..i4] + "]")))))));
            t == s[i..i4 + 1] && |t| == i4 + 1 - i
  {
    assert s[u..i4] + "]" == s[u..i4 + 1];
    assert s[i3..u] + s[u..i4 + 1] == s[i3..i4 + 1];
    assert s[i2 + 1..i3] + s[i3..i4 + 1] == s[i2 + 1..i4 + 1];
    assert ":" + s[i2 + 1..i4 + 1] == s[i2..i4 + 1];
    assert s[l..i2] + s[i2..i4 + 1] == s[l..i4 + 1];
    assert s[i1..l] + s[l..i4 + 1] == s[i1..i4 + 1];
    assert s[i + 1..i1] + s[i1..i4 + 1] == s[i + 1..i4 + 1];
    assert "[" + s[i + 1..i4 + 1] == s[i..i4 + 1];
  }

  /** What stands in front of the list: nothing, or bounds and an equals sign. */
  function HeadText(bs: seq<Bound>, b1: string, b2: string): string {
    if bs == [] then "" else BoundsTail(bs, b1, b2)
  }

  function EqualsText(b1: string, b2: string): string {
    b1 + ("=" + b2)
  }

  /** The bounds and the equals sign after them. */
  function BoundsTail(bs: seq<Bound>, b1: string, b2: string): string {
    if bs == [] then EqualsText(b1, b2) else BoundText(bs[0]) + BoundsTail(bs[1..], b1, b2)
  }

  ghost predicate BoundsOk(bs: seq<Bound>) {
    forall b | b in bs :: BoundOk(b)
  }

  lemma HasFits(s: string, i: nat, t: string)
    requires Has(s, i, t)
    ensures i + |t| <= |s|
  {
  }

  lemma TailIs(bs: seq<Bound>, b1: string, b2: string)
    ensures BoundsTail(bs, b1, b2)
            == if bs == [] then EqualsText(b1, b2) else BoundText(bs[0]) + BoundsTail(bs[1..], b1, b2)
  {
    hide EqualsText, BoundText;
  }

  lemma {:induction false} BoundsRead(s: string, i: nat, bs: seq<Bound>, b1: string, b2: string, sofar: seq<(int, int)>)
    requires BoundsOk(bs) && AllBlank(b1) && AllBlank(b2) && |sofar| + |bs| <= 6 && (bs != [] || sofar != [])
    requires Has(s, i, BoundsTail(bs, b1, b2))
    requires var j := i + |BoundsTail(bs, b1, b2)|; j < |s| && !IsSpace(s[j])
    ensures i <= |s| && ReadBounds(s, i, sofar) == Ok((sofar + Pairs(bs), i + |BoundsTail(bs, b1, b2)|))
    decreases |bs|
  {
    hide ReadBound, Has, SkipSpace, BoundText, AllBlank, EqualsText, BoundOk, ReadBounds, BoundsTail, Pairs;
    HasFits(s, i, BoundsTail(bs, b1, b2));
    TailIs(bs, b1, b2);
    if bs == [] {
      NoPairs(sofar);
      EqualsReads(s, i, b1, b2);
      BoundsEnd(s, i, sofar);
    } else {
      assert bs[0] in bs;
      FirstBoundReads(s, i, bs[0], BoundsTail(bs[1..], b1, b2), sofar);
      BoundsRead(s, i + |BoundText(bs[0])|, bs[1..], b1, b2, sofar + [(bs[0].lower, bs[0].upper)]);
      MorePairs(bs, sofar);
    }
  }

  lemma NoPairs(sofar: seq<(int, int)>)
    ensures sofar + Pairs([]) == sofar
  {
  }

  lemma MorePairs(bs: seq<Bound>, sofar: seq<(int, int)>)
    requires bs != []
    ensures sofar + Pairs(bs) == sofar + [(bs[0].lower, bs[0].upper)] + Pairs(bs[1..])
  {
  }

  lemma FirstBoundReads(s: string, i: nat, b: Bound, rest: string, sofar: seq<(int, int)>)
    requires BoundOk(b) && Has(s, i, BoundText(b) + rest) && |sofar| < 6
    ensures var j := i + |BoundText(b)|;
            && j <= |s| && Has(s, j, rest) && ReadBounds(s, i, sofar) == ReadBounds(s, j, sofar + [(b.lower, b.upper)])
  {
    hide ReadBound, Has, BoundText, BoundOk, ReadBounds;
    HasParts(s, i, BoundText(b), rest);
    HasFits(s, i, BoundText(b));
    BoundReads(s, i, b);
    BoundsStep(s, i, sofar);
  }

  lemma BoundsStep(s: string, i: nat, sofar: seq<(int, int)>)
    requires At(s, i, '[') && |sofar| < 6 && ReadBound(s, i + 1).Ok?
    ensures var r := ReadBound(s, i + 1).value; ReadBounds(s, i, sofar) == ReadBounds(s, r.1, sofar + [r.0])
  {
    hide ReadBound;
  }

  lemma BoundsEnd(s: string, i: nat, sofar: seq<(int, int)>)
    requires i <= |s| && !At(s, i, '[') && sofar != [] && At(s, SkipSpace(s, i), '=')
    ensures ReadBounds(s, i, sofar) == Ok((sofar, SkipSpace(s, SkipSpace(s, i) + 1)))
  {
    hide SkipSpace;
  }

  lemma EqualsReads(s: string, i: nat, b1: string, b2: string)
    requires AllBlank(b1) && AllBlank(b2) && Has(s, i, EqualsText(b1, b2))
    requires var j := i + |EqualsText(b1, b2)|; j < |s| && !IsSpace(s[j])
    ensures !At(s, i, '[') && At(s, SkipSpace(s, i), '=')
    ensures SkipSpace(s, SkipSpace(s, i) + 1) == i + |EqualsText(b1, b2)|
  {
    HasParts(s, i, b1, "=" + b2);
    HasParts(s, i + |b1|, "=", b2);
    HasAt(s, i + |b1|, "=", 0);
    HasAt(s, i, b1 + ("=" + b2), 0);
    assert (b1 + ("=" + b2))[0] == if b1 == "" then '=' else b1[0];
    SkipBlanks(s, i, b1);
    SkipNone(s, i + |b1|);
    SkipBlanks(s, i + |b1| + 1, b2);
    SkipNone(s, i + |b1 + ("=" + b2)|);
  }

  lemma {:induction false} BoundsAreRead(s: string, i: nat, sofar: seq<(int, int)>) returns (bs: seq<Bound>,
                                         b1: string, b2: string)
    requires i <= |s| && |sofar| <= 6 && ReadBounds(s, i, sofar).Ok?
    ensures var r := ReadBounds(s, i, sofar).value;
            && BoundsOk(bs) && AllBlank(b1) && AllBlank(b2) && |sofar| + |bs| <= 6 && r.0 == sofar + Pairs(bs)
            && (if sofar == [] && bs == [] then r.1 == i
                else Has(s, i, BoundsTail(bs, b1, b2)) && r.1 == i + |BoundsTail(bs, b1, b2)|)
    decreases |s| - i
  {
    hide ReadBound, Has, SkipSpace, BoundText, AllBlank, EqualsText, BoundOk;
    if At(s, i, '[') {
      var b := BoundIsRead(s, i);
      var sofar', j := sofar + [(b.lower, b.upper)], i + |BoundText(b)|;
      var bs';
      bs', b1, b2 := BoundsAreRead(s, j, sofar');
      bs := [b] + bs';
      assert bs[1..] == bs';
      HasBoth(s, i, BoundText(b), BoundsTail(bs', b1, b2));
      assert sofar + Pairs(bs) == sofar' + Pairs(bs');
    } else if sofar == [] {
      bs, b1, b2 := [], "", "";
      assert sofar + Pairs(bs) == sofar;
      assert AllBlank("") by { NothingIsBlank(); }
    } else {
      var j := SkipSpace(s, i);
      var k := SkipSpace(s, j + 1);
      bs, b1, b2 := [], s[i..j], s[j + 1..k];
      SkippedBlanks(s, i);
      SkippedBlanks(s, j + 1);
      EqualsAssembles(s, i, j, k);
      assert sofar + Pairs(bs) == sofar;
    }
  }

  lemma NothingIsBlank()
    ensures AllBlank("")
  {
  }

  lemma EqualsAssembles(s: string, i: nat, j: nat, k: nat)
    requires i <= j && At(s, j, '=') && j + 1 <= k <= |s|
    ensures var t := EqualsText(s[i..j], s[j + 1..k]); Has(s, i, t) && |t| == k - i
  {
    assert s[i..j] + ("=" + s[j + 1..k]) == s[i..k];
  }

  // ---------------------------------------------------------------- the whole text

  /** An array text: blanks, a head, a tree, and blanks. */
  datatype Source = Source(pre: string, bounds: seq<Bound>, b1: string, b2: string, tree: Tree, post: string)

  function SourceText(a: Source): string {
    a.pre + (HeadText(a.bounds, a.b1, a.b2) + (TreeText(a.tree) + a.post))
  }

  ghost predicate SourceOk(a: Source) {
    && AllBlank(a.pre) && AllBlank(a.b1) && AllBlank(a.b2) && AllBlank(a.post)
    && BoundsOk(a.bounds) && |a.bounds| <= 6
    && (a.tree.List? || a.tree.Empty?) && TreeOk(a.tree, 0)
    && ListsOf(a.tree) <= 6_000_001 && |TokensOf(a.tree)| <= 1_000_000
  }

  /** The bounds of a text say what its lists hold. */
  ghost predicate BoundsAgree(bounds: seq<(int, int)>, shape: seq<nat>) {
    bounds == [] || (|bounds| == |shape| && forall i | 0 <= i < |shape| :: bounds[i].1 - bounds[i].0 + 1 == shape[i])
  }

  function Dims(bounds: seq<(int, int)>, shape: seq<nat>): seq<Dimension>
    requires bounds == [] || |bounds| == |shape|
  {
    seq(|shape|, i requires 0 <= i < |shape| => Dimension(shape[i], if bounds == [] then 1 else bounds[i].0))
  }

  /** The dimensions and elements a text means: none for an empty list. */
  ghost function MeaningOf(a: Source): (seq<Dimension>, seq<Token>)
    requires BoundsAgree(Pairs(a.bounds), ShapeOf(a.tree))
  {
    if a.tree.Empty? then ([], []) else (Dims(Pairs(a.bounds), ShapeOf(a.tree)), TokensOf(a.tree))
  }

  /** Whether a text with that tree and those bounds is accepted, and as what. */
  lemma DescribedIff(s: string, bounds: seq<(int, int)>, t: Tree, end: nat, lists: nat, elements: nat)
    requires end <= |s| && (t.List? || t.Empty?) && (t.List? ==> TokensOf(t) != []) && SkipSpace(s, end) == |s|
    ensures var r := Described(s, bounds, Read(ShapeOf(t), TokensOf(t), Cursor(end, lists, elements)));
            && (r.Ok? <==> BoundsAgree(bounds, ShapeOf(t)))
            && (r.Ok? ==> r.value == if t.Empty? then ([], []) else (Dims(bounds, ShapeOf(t)), TokensOf(t)))
  {
    hide SkipSpace;
    var shape := ShapeOf(t);
    if t.Empty? {
      EmptyAgrees(bounds);
    } else if bounds == [] || |bounds| == |shape| {
      assert Dims(bounds, shape) == DimensionsOf(shape, bounds);
    }
  }

  lemma EmptyAgrees(bounds: seq<(int, int)>)
    ensures BoundsAgree(bounds, [0]) <==> bounds == [] || (|bounds| == 1 && bounds[0].1 - bounds[0].0 + 1 == 0)
  {
  }

  lemma {:induction false} ItemsHaveTokens(items: seq<Item>, depth: nat, shape: seq<nat>)
    requires items != [] && ItemsOk(items, depth, shape)
    ensures ItemTokens(items) != []
    decreases items, 1
  {
    TreeHasTokens(items[0].tree, depth + 1);
  }

  lemma {:induction false} TreeHasTokens(t: Tree, depth: nat)
    requires TreeOk(t, depth) && !t.Empty?
    ensures TokensOf(t) != []
    decreases t, 0
  {
    if t.List? {
      ItemsHaveTokens(t.items, depth, ShapeOf(t.items[0].tree));
    }
  }

  lemma PlacesOf(a: Source)
    ensures var s, i := SourceText(a), |a.pre|;
            var j := i + |HeadText(a.bounds, a.b1, a.b2)|;
            && Has(s, 0, a.pre) && Has(s, i, HeadText(a.bounds, a.b1, a.b2)) && Has(s, j, TreeText(a.tree) + a.post)
            && Has(s, j, TreeText(a.tree)) && Has(s, j + |TreeText(a.tree)|, a.post)
            && j + |TreeText(a.tree)| + |a.post| == |s|
  {
    hide TreeText, HeadText;
    var s := SourceText(a);
    var t := TreeText(a.tree) + a.post;
    var h := HeadText(a.bounds, a.b1, a.b2);
    assert Has(s, 0, a.pre + (h + t)) by { assert s[0..|s|] == s; }
    HasParts(s, 0, a.pre, h + t);
    HasParts(s, |a.pre|, h, t);
    HasParts(s, |a.pre| + |h|, TreeText(a.tree), a.post);
  }

  lemma HeadReads(s: string, i: nat, a: Source)
    requires BoundsOk(a.bounds) && AllBlank(a.b1) && AllBlank(a.b2) && |a.bounds| <= 6
             && (a.tree.List? || a.tree.Empty?)
    requires var h := HeadText(a.bounds, a.b1, a.b2);
             Has(s, i, h) && i + |h| < |s| && s[i + |h|] == '{'
    ensures i <= |s| && ReadBounds(s, i, []) == Ok((Pairs(a.bounds), i + |HeadText(a.bounds, a.b1, a.b2)|))
  {
    hide ReadBounds, Has;
    if a.bounds == [] {
      NoBounds(s, i);
    } else {
      BoundsRead(s, i, a.bounds, a.b1, a.b2, []);
      assert [] + Pairs(a.bounds) == Pairs(a.bounds);
    }
  }

  lemma NoBounds(s: string, i: nat)
    requires i <= |s| && !At(s, i, '[')
    ensures ReadBounds(s, i, []) == Ok(([], i))
  {
  }

  /** A text of the grammar is accepted if and only if its bounds, where it has any, agree with its
      lists, and then it is read as what it means. */
  lemma SourceMeans(a: Source)
    requires SourceOk(a)
    ensures var r := ArrayParser.Parsed(SourceText(a));
            if BoundsAgree(Pairs(a.bounds), ShapeOf(a.tree)) then r == Ok(MeaningOf(a)) else r.Err?
  {
    hide ReadBounds, ReadList, TreeText, HeadText, SkipSpace, TreeOk, TokensOf, ListsOf, ShapeOf, Has, Described, SourceText, AllBlank;
    var s, i := SourceText(a), |a.pre|;
    var j := i + |HeadText(a.bounds, a.b1, a.b2)|;
    var end := j + |TreeText(a.tree)|;
    PlacesOf(a);
    TreeStarts(s, j, a.tree, 0, a.post);
    HeadStarts(s, i, a);
    SkipBlanks(s, 0, a.pre);
    HeadReads(s, i, a);
    TreeReads(s, Cursor(j, 0, 0), a.tree, 0, []);
    assert [] + TokensOf(a.tree) == TokensOf(a.tree);
    SkipBlanks(s, end, a.post);
    SkipsToEnd(s);
    if a.tree.List? {
      TreeHasTokens(a.tree, 0);
    }
    DescribedIff(s, Pairs(a.bounds), a.tree, end, ListsOf(a.tree), |TokensOf(a.tree)|);
  }

  lemma SkipsToEnd(s: string)
    ensures SkipSpace(s, |s|) == |s|
  {
  }

  lemma HeadStarts(s: string, i: nat, a: Source)
    requires var h := HeadText(a.bounds, a.b1, a.b2);
             Has(s, i, h) && i + |h| < |s| && s[i + |h|] == '{'
    ensures i < |s| && !IsSpace(s[i]) && SkipSpace(s, i) == i
  {
    if a.bounds != [] {
      HasAt(s, i, HeadText(a.bounds, a.b1, a.b2), 0);
      assert HeadText(a.bounds, a.b1, a.b2)[0] == '[';
    }
  }

  /** And every accepted text is one of the grammar. */
  lemma ParsedIsSource(s: string) returns (a: Source)
    requires ArrayParser.Parsed(s).Ok?
    ensures SourceOk(a) && SourceText(a) == s && BoundsAgree(Pairs(a.bounds), ShapeOf(a.tree))
    ensures ArrayParser.Parsed(s).value == MeaningOf(a)
  {
    hide ReadBounds, ReadList, SkipSpace, TreeOk, TokensOf, ListsOf, ShapeOf, Has, Described, AllBlank, TreeText, BoundOk;
    var i := SkipSpace(s, 0);
    SkippedBlanks(s, 0);
    var bounds := ReadBounds(s, i, []).value;
    var bs, b1, b2 := BoundsAreRead(s, i, []);
    assert [] + Pairs(bs) == Pairs(bs);
    var j := bounds.1;
    var list := ReadList(s, Cursor(j, 0, 0), 0, []).value;
    var blank, t := ListIsTree(s, Cursor(j, 0, 0), 0, []);
    assert [] + TokensOf(t) == TokensOf(t);
    HeadEnds(s, i, j, bounds.0, blank, t);
    var end := list.cursor.offset;
    EndsThere(s, bounds.0, list);
    SkippedBlanks(s, end);
    DescribedIff(s, bounds.0, t, end, ListsOf(t), |TokensOf(t)|);
    a := Source(s[0..i], bs, b1, b2, t, s[end..|s|]);
    SourceAssembles(s, i, j, end, a);
  }

  lemma EndsThere(s: string, bounds: seq<(int, int)>, list: Read)
    requires list.cursor.offset <= |s| && Described(s, bounds, list).Ok?
    ensures SkipSpace(s, list.cursor.offset) == |s|
  {
    hide SkipSpace;
  }

  /** Behind the head no blank is left. */
  lemma HeadEnds(s: string, i: nat, j: nat, bounds: seq<(int, int)>, blank: string, t: Tree)
    requires i <= |s| && i == SkipSpace(s, 0) && ReadBounds(s, i, []) == Ok((bounds, j)) && j <= |s|
    requires AllBlank(blank) && Has(s, j, blank + TreeText(t))
    ensures blank == "" && Has(s, j, TreeText(t)) && blank + TreeText(t) == TreeText(t)
  {
    hide TreeText;
    NoSpaceAfter(s, i, [], j);
    if blank != "" {
      HasParts(s, j, blank, TreeText(t));
      HasAt(s, j, blank, 0);
    }
    assert blank + TreeText(t) == TreeText(t);
  }

  lemma {:induction false} NoSpaceAfter(s: string, i: nat, sofar: seq<(int, int)>, j: nat)
    requires i <= |s| && (sofar == [] && i < |s| ==> !IsSpace(s[i]))
    requires ReadBounds(s, i, sofar).Ok? && ReadBounds(s, i, sofar).value.1 == j
    ensures j < |s| ==> !IsSpace(s[j])
    decreases |s| - i
  {
    if At(s, i, '[') {
      var b := ReadBound(s, i + 1).value;
      NoSpaceAfter(s, b.1, sofar + [b.0], j);
    }
  }

  lemma SourceAssembles(s: string, i: nat, j: nat, end: nat, a: Source)
    requires i <= j <= end <= |s| && a.pre == s[0..i] && a.post == s[end..|s|]
    requires Has(s, j, TreeText(a.tree)) && end == j + |TreeText(a.tree)|
    requires if a.bounds == [] then j == i else Has(s, i, BoundsTail(a.bounds, a.b1, a.b2)) && j == i + |BoundsTail(a.bounds, a.b1, a.b2)|
    ensures SourceText(a) == s
  {
    hide TreeText, BoundsTail, Has;
    HasIs(s, j, TreeText(a.tree));
    if a.bounds != [] {
      HasIs(s, i, BoundsTail(a.bounds, a.b1, a.b2));
    }
    assert HeadText(a.bounds, a.b1, a.b2) == s[i..j];
    Pieces(s, i, j, end);
  }

  lemma Pieces(s: string, i: nat, j: nat, end: nat)
    requires i <= j <= end <= |s|
    ensures s[0..i] + (s[i..j] + (s[j..end] + s[end..|s|])) == s
  {
    assert s[j..end] + s[end..|s|] == s[j..|s|];
    assert s[i..j] + s[j..|s|] == s[i..|s|];
  }

  /** The parser accepts exactly the texts of the grammar whose bounds agree with their lists, and
      reads them as what they mean. */
  lemma ParsedIff(s: string, dims: seq<Dimension>, tokens: seq<Token>)
    ensures ArrayParser.Parsed(s) == Ok((dims, tokens)) <==> exists a :: IsSource(a, s, dims, tokens)
  {
    hide ArrayParser.Parsed, SourceOk, SourceText, ShapeOf, MeaningOf;
    if ArrayParser.Parsed(s) == Ok((dims, tokens)) {
      var a := ParsedIsSource(s);
      assert IsSource(a, s, dims, tokens);
    }
    if a :| IsSource(a, s, dims, tokens) {
      SourceMeans(a);
    }
  }

  ghost predicate IsSource(a: Source, s: string, dims: seq<Dimension>, tokens: seq<Token>) {
    SourceOk(a) && SourceText(a) == s && BoundsAgree(Pairs(a.bounds), ShapeOf(a.tree)) && MeaningOf(a) == (dims, tokens)
  }

  // ---------------------------------------------------------------- how the printer writes

  /** The element can stand without quotes. */
  predicate Bareable(t: string) {
    && t != "" && !IsNullWord(t)
    && forall i | 0 <= i < |t| ::
         !AllBlank([t[i]]) && t[i] != '{' && t[i] != '}' && t[i] != ',' && t[i] != '"' && t[i] != '\\'
  }

  /** The fewest backslashes: before quotes and backslashes. */
  function Sparing(t: string): (us: seq<Unit>)
    ensures |us| == |t| && Meant(us) == t
  {
    seq(|t|, i requires 0 <= i < |t| => if t[i] == '"' || t[i] == '\\' then Slash(t[i]) else Bare(t[i]))
  }

  /** The printer quotes an element if and only if it could not stand without, and escapes in it
      quotes and backslashes only. */
  lemma ElementIsWritten(t: string)
    ensures ElementText(Some(t)) == if Bareable(t) then t else TreeText(Quoted(Sparing(t)))
    ensures ElementText(None) == "NULL"
  {
    hide SpellsNull, IsNullWord, Escaped, UnitsText;
    NullIs(t);
    BareableIff(t);
    if Bareable(t) {
      EscapedPlain(t);
    } else {
      EscapedIs(t);
    }
  }

  lemma BareableIff(t: string)
    ensures (t != "" && !SpellsNull(t) && forall i | 0 <= i < |t| :: !IsSpace(t[i]) && !IsSpecial(t[i])) <==> Bareable(t)
  {
    hide SpellsNull, IsNullWord;
    NullIs(t);
    forall i | 0 <= i < |t| ensures AllBlank([t[i]]) <==> IsSpace(t[i]) {
      assert [t[i]][0] == t[i];
    }
  }

  lemma {:induction false} EscapedIs(t: string)
    ensures Escaped(t) == UnitsText(Sparing(t))
  {
    if t != "" {
      EscapedIs(t[1..]);
      assert Sparing(t)[1..] == Sparing(t[1..]);
    }
  }

  /** Bounds are printed if and only if a lower bound is not 1. */
  lemma BoundsAreWritten(a: SqlArray<string>)
    requires Valid(a)
    ensures Printed(a) != ""
    ensures Printed(a)[0] == '[' <==> exists i :: 0 <= i < |a.dims| && a.dims[i].lower != 1
    ensures Printed(a)[0] != '[' ==> Printed(a)[0] == '{'
  {
    hide LevelText, BoundText;
    assert (exists d :: d in a.dims && d.lower != 1) <==> (exists i :: 0 <= i < |a.dims| && a.dims[i].lower != 1);
    if a.elements != [] {
      LevelStarts(Lengths(a.dims), a.elements);
      if ShowsBounds(a.dims) {
        FirstBound(a.dims, |a.dims|);
      }
    }
  }

  lemma LevelStarts(lens: seq<nat>, es: seq<Token>)
    requires lens != [] && |es| == Product(lens)
    ensures LevelText(lens, es) != "" && LevelText(lens, es)[0] == '{'
  {
  }

  lemma {:induction false} FirstBound(dims: seq<Dimension>, n: nat)
    requires 0 < n <= |dims|
    ensures BoundTexts(dims, n) != "" && BoundTexts(dims, n)[0] == '['
  {
    if n > 1 {
      FirstBound(dims, n - 1);
    }
  }
}
