/** What texts of the `INTERVAL` type there are and what they mean, without the parser: fields
    apart by white space, each worth so many months, days and microseconds, added up from left to
    right, and negated as a whole by a last `ago`. */
module IntervalGrammar {
  import opened Options
  import opened Text
  import opened IntervalText
  import C = Calendar
  import D = DateText

  const ZERO := C.Interval(0, 0, 0)

  // ---------------------------------------------------------------- words and numerals

  /** `word` is `lower` in any mixture of cases. */
  predicate SpelledAs(word: string, lower: string) {
    |word| == |lower|
    && forall i | 0 <= i < |word| ::
         word[i] == lower[i] || ('a' <= lower[i] <= 'z' && word[i] as int == lower[i] as int - 32)
  }

  /** One of the unit is worth `one`. */
  predicate IsUnit(unit: string, one: Interval) {
    || (unit == "year" && one == C.Interval(12, 0, 0))
    || (unit == "yr" && one == C.Interval(12, 0, 0))
    || (unit == "month" && one == C.Interval(1, 0, 0))
    || (unit == "mon" && one == C.Interval(1, 0, 0))
    || (unit == "week" && one == C.Interval(0, 7, 0))
    || (unit == "day" && one == C.Interval(0, 1, 0))
    || (unit == "hour" && one == C.Interval(0, 0, 3_600_000_000))
    || (unit == "hr" && one == C.Interval(0, 0, 3_600_000_000))
    || (unit == "minute" && one == C.Interval(0, 0, 60_000_000))
    || (unit == "min" && one == C.Interval(0, 0, 60_000_000))
    || (unit == "second" && one == C.Interval(0, 0, 1_000_000))
    || (unit == "sec" && one == C.Interval(0, 0, 1_000_000))
  }

  /** The word names a unit, in the singular or in the plural. */
  ghost predicate Names(word: string, one: Interval) {
    exists unit :: IsUnit(unit, one) && (SpelledAs(word, unit) || SpelledAs(word, unit + "s"))
  }

  lemma NumeralIff(s: string, n: int)
    ensures ParseI64(s) == Some(n) <==> Numeral(s, n) && IsI64(n)
  {
  }

  lemma NumeralChars(s: string, n: int)
    requires Numeral(s, n)
    ensures IsToken(s) && ':' !in s && '.' !in s && !SpelledAs(s, "ago")
  {
    assert forall i | 0 < i < |s| :: IsDigit(s[i]);
  }

  lemma LowerIs(word: string, lower: string)
    requires forall i | 0 <= i < |lower| :: 'a' <= lower[i] <= 'z'
    ensures Lower(word) == lower <==> SpelledAs(word, lower)
  {
    if Lower(word) == lower {
      forall i | 0 <= i < |word|
        ensures word[i] == lower[i] || ('a' <= lower[i] <= 'z' && word[i] as int == lower[i] as int - 32)
      {
        assert Lower(word)[i] == lower[i];
      }
    }
  }

  // ---------------------------------------------------------------- fields

  /** A quantity with its unit, or a clock time: a sign, the numerals of hours, minutes and
      seconds, and perhaps the digits of a fraction. */
  datatype Field =
    | Quantity(number: string, n: int, word: string, one: Interval)
    | Time(negative: bool, h: string, hours: int, m: string, minutes: int, s: string, seconds: int,
           fraction: Option<string>)

  ghost predicate WellFormed(f: Field) {
    match f
    case Quantity(number, n, word, one) => Numeral(number, n) && IsI64(n) && Names(word, one)
    case Time(negative, h, hours, m, minutes, s, seconds, fraction) =>
      && Numeral(h, hours) && Numeral(m, minutes) && Numeral(s, seconds) && (!negative ==> h[0] != '-')
      && 0 <= hours && IsI64(hours) && 0 <= minutes < 60 && 0 <= seconds < 60
      && (fraction.Some? ==> fraction.value != "" && AllDigits(fraction.value))
  }

  function SecondsText(s: string, fraction: Option<string>): string {
    s + if fraction.Some? then "." + fraction.value else ""
  }

  function TimeText(f: Field): string
    requires f.Time?
  {
    (if f.negative then "-" else "") + (f.h + ":" + (f.m + ":" + SecondsText(f.s, f.fraction)))
  }

  function Tokens1(f: Field): seq<string> {
    if f.Quantity? then [f.number, f.word] else [TimeText(f)]
  }

  function TokensOf(fs: seq<Field>): seq<string> {
    if fs == [] then [] else Tokens1(fs[0]) + TokensOf(fs[1..])
  }

  /** Six digits of a fraction of a second, filled up with zeros. */
  function FractionMicros(digits: string): nat
    requires AllDigits(digits)
  {
    Value((digits + "000000")[..6])
  }

  function Magnitude(f: Field): int
    requires f.Time? && (f.fraction.Some? ==> AllDigits(f.fraction.value))
  {
    (f.hours * 3_600 + f.minutes * 60 + f.seconds) * 1_000_000
    + if f.fraction.Some? then FractionMicros(f.fraction.value) else 0
  }

  /** What a field is worth. */
  ghost function Worth(f: Field): Interval
    requires WellFormed(f)
  {
    if f.Quantity? then C.Interval(f.n * f.one.months, f.n * f.one.days, f.n * f.one.micros)
    else C.Interval(0, 0, if f.negative then -Magnitude(f) else Magnitude(f))
  }

  predicate Fits(iv: Interval) {
    IsI64(iv.months) && IsI64(iv.days) && IsI64(iv.micros)
  }

  ghost predicate FieldFits(f: Field)
    requires WellFormed(f)
  {
    Fits(Worth(f)) && (f.Time? ==> IsI64(Magnitude(f)))
  }

  function Plus(a: Interval, b: Interval): Interval {
    C.Interval(a.months + b.months, a.days + b.days, a.micros + b.micros)
  }

  ghost function Total(acc: Interval, fs: seq<Field>): Interval
    requires forall f | f in fs :: WellFormed(f)
    decreases |fs|
  {
    if fs == [] then acc else Total(Plus(acc, Worth(fs[0])), fs[1..])
  }

  /** Every field and every running total fits 64 bits. */
  ghost predicate TotalsFit(acc: Interval, fs: seq<Field>)
    requires forall f | f in fs :: WellFormed(f)
    decreases |fs|
  {
    fs == [] || (FieldFits(fs[0]) && Fits(Plus(acc, Worth(fs[0]))) && TotalsFit(Plus(acc, Worth(fs[0])), fs[1..]))
  }

  function Negated(iv: Interval): Interval {
    C.Interval(-iv.months, -iv.days, -iv.micros)
  }

  /** The interval that fields mean, if it and all that leads to it fits. */
  ghost function Meaning(fs: seq<Field>, ago: bool): Option<Interval>
    requires forall f | f in fs :: WellFormed(f)
  {
    var v := if ago then Negated(Total(ZERO, fs)) else Total(ZERO, fs);
    if TotalsFit(ZERO, fs) && C.IsInterval(v) then Some(v) else None
  }

  // ---------------------------------------------------------------- white space

  /** The text is the tokens, apart by white space, with any white space around them. */
  ghost predicate Spaced(text: string, ts: seq<string>)
    decreases |ts|
  {
    if ts == [] then AllSpace(text)
    else
      exists pre, rest :: Starts(text, pre, ts[0], rest) && Spaced(rest, ts[1..])
  }

  /** The first token of the text, what precedes it and what follows. */
  predicate Starts(text: string, pre: string, token: string, rest: string) {
    text == pre + token + rest && AllSpace(pre) && IsToken(token) && (rest != "" ==> IsWhitespace(rest[0]))
  }

  lemma FirstWord(text: string, pre: string, token: string, rest: string)
    requires Starts(text, pre, token, rest)
    ensures Words(text, 0) == [token] + Words(rest, 0)
  {
    var i, j := |pre|, |pre| + |token|;
    assert forall k | 0 <= k < i :: text[k] == pre[k];
    assert forall k | i <= k < j :: text[k] == token[k - i];
    assert rest != "" ==> text[j] == rest[0];
    SpaceHasNoWords(text, 0, i);
    WordEndIs(text, i, j);
    assert text[i..j] == token;
    WordsShift(pre + token, rest, 0);
  }

  lemma {:induction false} WordsShift(pre: string, s: string, i: nat)
    requires i <= |s|
    ensures Words(pre + s, |pre| + i) == Words(s, i)
    decreases |s| - i
  {
    hide WordEnd, IsWhitespace;
    var t, n := pre + s, |pre| + i;
    if i < |s| {
      assert t[n] == s[i];
      if IsWhitespace(s[i]) {
        WordsShift(pre, s, i + 1);
        assert Words(t, n) == Words(t, n + 1);
      } else {
        var j := WordEnd(s, i);
        EndShifts(pre, s, i);
        WordStarts(s, i);
        WordsShift(pre, s, j);
        assert Words(t, n) == [t[n..|pre| + j]] + Words(t, |pre| + j);
      }
    }
  }

  lemma EndShifts(pre: string, s: string, i: nat)
    requires i <= |s|
    ensures WordEnd(pre + s, |pre| + i) == |pre| + WordEnd(s, i)
    ensures (pre + s)[|pre| + i..|pre| + WordEnd(s, i)] == s[i..WordEnd(s, i)]
  {
    hide WordEnd;
    var t, j := pre + s, WordEnd(s, i);
    forall k | |pre| + i <= k < |pre| + j ensures !IsWhitespace(t[k]) {
      assert t[k] == s[k - |pre|];
    }
    assert j < |s| ==> t[|pre| + j] == s[j];
    WordEndIs(t, |pre| + i, |pre| + j);
  }

  lemma WordStarts(s: string, i: nat)
    requires i < |s| && !IsWhitespace(s[i])
    ensures WordEnd(s, i) > i
  {
  }

  lemma {:induction false} SpaceHasNoWords(s: string, i: nat, j: nat)
    requires i <= j <= |s| && forall k | i <= k < j :: IsWhitespace(s[k])
    ensures Words(s, i) == Words(s, j)
    decreases j - i
  {
    if i < j {
      SpaceHasNoWords(s, i + 1, j);
    }
  }

  lemma {:induction false} WordsOfSpaced(text: string, ts: seq<string>)
    requires Spaced(text, ts)
    ensures Words(text, 0) == ts
    decreases |ts|
  {
    hide Starts, Words;
    if ts == [] {
      SpaceIsEmpty(text);
    } else {
      var pre, rest :| Starts(text, pre, ts[0], rest) && Spaced(rest, ts[1..]);
      WordsOfSpaced(rest, ts[1..]);
      FirstWord(text, pre, ts[0], rest);
    }
  }

  lemma SpaceIsEmpty(text: string)
    requires AllSpace(text)
    ensures Words(text, 0) == []
  {
    SpaceHasNoWords(text, 0, |text|);
  }

  lemma SpacedMore(text: string, pre: string, token: string, rest: string, ts: seq<string>)
    requires Starts(text, pre, token, rest) && Spaced(rest, ts)
    ensures Spaced(text, [token] + ts)
  {
    hide Starts;
    var us := [token] + ts;
    assert us[1..] == ts;
    assert Starts(text, pre, us[0], rest) && Spaced(rest, us[1..]);
  }

  /** Every text is its words, apart by white space. */
  lemma {:induction false} TextIsSpaced(text: string)
    ensures Spaced(text, Words(text, 0))
    decreases |text|
  {
    hide Starts, Words;
    var i := NextWord(text, 0);
    if i == |text| {
      SpaceIsEmpty(text);
    } else {
      var j := WordEnd(text, i);
      var pre, word, rest := text[..i], text[i..j], text[j..];
      StartsAt(text, i);
      FirstWord(text, pre, word, rest);
      TextIsSpaced(rest);
      SpacedMore(text, pre, word, rest, Words(rest, 0));
    }
  }

  lemma StartsAt(text: string, i: nat)
    requires i == NextWord(text, 0) && i < |text|
    ensures var j := WordEnd(text, i); i < j && Starts(text, text[..i], text[i..j], text[j..])
  {
    hide WordEnd, NextWord, IsWhitespace;
    WordStarts(text, i);
    var j := WordEnd(text, i);
    assert text == text[..i] + text[i..j] + text[j..];
    assert text[j..] != "" ==> text[j..][0] == text[j];
  }

  function NextWord(s: string, i: nat): (j: nat)
    requires i <= |s|
    ensures i <= j <= |s| && (forall k | i <= k < j :: IsWhitespace(s[k])) && (j < |s| ==> !IsWhitespace(s[j]))
    decreases |s| - i
  {
    if i == |s| || !IsWhitespace(s[i]) then i else NextWord(s, i + 1)
  }

  // ---------------------------------------------------------------- one field

  lemma SingularIs(unit: string, one: Interval)
    requires IsUnit(unit, one)
    ensures Singular(unit) == unit && Singular(unit + "s") == unit
    ensures forall i | 0 <= i < |unit| :: 'a' <= unit[i] <= 'z'
  {
    assert (unit + "s")[..|unit|] == unit;
  }

  /** The unit of a word decides what the parser does with the quantity. */
  lemma UnitApplies(n: int, word: string, one: Interval, acc: Interval)
    requires Names(word, one) && Fits(acc)
    ensures var w := C.Interval(n * one.months, n * one.days, n * one.micros);
            ApplyUnit(n, word, acc) == if Fits(w) && Fits(Plus(acc, w)) then Some(Plus(acc, w)) else None
  {
    hide Lower, Singular, SpelledAs, ApplyUnit;
    var unit :| IsUnit(unit, one) && (SpelledAs(word, unit) || SpelledAs(word, unit + "s"));
    SingularIs(unit, one);
    LowerIs(word, unit);
    LowerIs(word, unit + "s");
    if one.micros != 0 {
      TimeUnitApplies(n, word, unit, one, acc);
    } else {
      DateUnitApplies(n, word, unit, one, acc);
    }
  }

  lemma TimeUnitApplies(n: int, word: string, unit: string, one: Interval, acc: Interval)
    requires Singular(Lower(word)) == unit && IsUnit(unit, one) && one.micros != 0 && Fits(acc)
    ensures one == C.Interval(0, 0, one.micros)
    ensures ApplyUnit(n, word, acc)
         == if IsI64(n * one.micros) && IsI64(acc.micros + n * one.micros)
            then Some(acc.(micros := acc.micros + n * one.micros)) else None
  {
    hide Lower, Singular;
  }

  lemma DateUnitApplies(n: int, word: string, unit: string, one: Interval, acc: Interval)
    requires Singular(Lower(word)) == unit && IsUnit(unit, one) && one.micros == 0 && Fits(acc)
    ensures var w := C.Interval(n * one.months, n * one.days, 0);
            ApplyUnit(n, word, acc) == if Fits(w) && Fits(Plus(acc, w)) then Some(Plus(acc, w)) else None
  {
    hide Lower, Singular;
  }

  lemma OnlyUnitsApply(n: int, word: string, acc: Interval) returns (one: Interval)
    requires ApplyUnit(n, word, acc).Some?
    ensures Names(word, one)
  {
    var u := Singular(Lower(word));
    hide Lower, SpelledAs;
    one := if u == "year" || u == "yr" then C.Interval(12, 0, 0)
           else if u == "month" || u == "mon" then C.Interval(1, 0, 0)
           else if u == "week" then C.Interval(0, 7, 0)
           else if u == "day" then C.Interval(0, 1, 0)
           else if u == "hour" || u == "hr" then C.Interval(0, 0, 3_600_000_000)
           else if u == "minute" || u == "min" then C.Interval(0, 0, 60_000_000)
           else C.Interval(0, 0, 1_000_000);
    assert IsUnit(u, one);
    SingularIs(u, one);
    assert Lower(word) == u || Lower(word) == u + "s";
    LowerIs(word, u);
    LowerIs(word, u + "s");
  }

  lemma {:induction false} ValueThenZeros(s: string, k: nat)
    requires AllDigits(s)
    ensures AllDigits(s + Zeros(k)) && Value(s + Zeros(k)) == Value(s) * Pow10(k)
  {
    hide Value;
    if k == 0 {
      assert s + Zeros(0) == s;
    } else {
      ValueThenZeros(s, k - 1);
      assert s + Zeros(k) == s + Zeros(k - 1) + "0";
      TimesTen(s + Zeros(k - 1));
    }
  }

  lemma TimesTen(s: string)
    requires AllDigits(s)
    ensures AllDigits(s + "0") && Value(s + "0") == 10 * Value(s)
  {
    assert (s + "0")[..|s|] == s;
  }


  lemma FractionIs(digits: string)
    requires digits != "" && AllDigits(digits)
    ensures ParseFraction(digits) == Some(FractionMicros(digits))
  {
    hide Value, Zeros, Pow10;
    var take := if |digits| < 6 then |digits| else 6;
    ValueThenZeros(digits[..take], 6 - take);
    ZerosAre(6 - take);
    assert (digits + "000000")[..6] == digits[..take] + Zeros(6 - take);
  }

  lemma {:induction false} ZerosAre(k: nat)
    ensures forall i | 0 <= i < k :: Zeros(k)[i] == '0'
  {
    if k > 0 {
      ZerosAre(k - 1);
    }
  }

  lemma TimeMicrosIs(negative: bool, hours: int, minutes: int, seconds: int, fraction: int)
    requires 0 <= hours && 0 <= minutes < 60 && 0 <= seconds < 60 && 0 <= fraction < 1_000_000
    ensures var total := (hours * 3_600 + minutes * 60 + seconds) * 1_000_000 + fraction;
            TimeMicros(negative, hours, minutes, seconds, fraction)
            == if IsI64(total) then Some(if negative then -total else total) else None
  {
    if IsI64(hours * 3_600) && !IsI64(hours * 3_600 + minutes * 60 + seconds) {
      WrappedSumIsRefused(negative, hours, minutes, seconds, fraction);
    }
  }

  lemma {:induction false} ValueBound(s: string)
    requires AllDigits(s)
    ensures Value(s) < Pow10(|s|)
  {
    if s != "" {
      ValueBound(s[..|s| - 1]);
    }
  }

  lemma SecondsParse(f: Field)
    requires f.Time? && WellFormed(f)
    ensures ParseSeconds(SecondsText(f.s, f.fraction))
         == Some((f.seconds, if f.fraction.Some? then FractionMicros(f.fraction.value) else 0))
  {
    hide FractionMicros, ParseFraction, Numeral, ParseSigned;
    NumeralIff(f.s, f.seconds);
    NumeralChars(f.s, f.seconds);
    if f.fraction.Some? {
      var field := f.s + ("." + f.fraction.value);
      assert field == f.s + ['.'] + f.fraction.value;
      SplitOnceIs(f.s, '.', f.fraction.value);
      FractionIs(f.fraction.value);
    } else {
      assert f.s + "" == f.s;
    }
  }

  lemma FractionBound(digits: string)
    requires AllDigits(digits)
    ensures FractionMicros(digits) < 1_000_000
  {
    ValueBound((digits + "000000")[..6]);
    MillionIsPow10();
  }

  lemma TimeParses(f: Field)
    requires f.Time? && WellFormed(f)
    ensures ParseTime(TimeText(f)) == if IsI64(Magnitude(f)) then Some(Worth(f).micros) else None
    ensures IsToken(TimeText(f)) && ':' in TimeText(f)
  {
    hide FractionMicros, ParseSeconds, Numeral, ParseSigned, TimeMicros, SplitOnce, IsToken, SecondsText;
    var tail := SecondsText(f.s, f.fraction);
    var rest := f.h + [':'] + (f.m + [':'] + tail);
    assert TimeText(f) == (if f.negative then "-" else "") + rest;
    NumeralIff(f.h, f.hours);
    NumeralIff(f.m, f.minutes);
    NumeralChars(f.h, f.hours);
    NumeralChars(f.m, f.minutes);
    SplitOnceIs(f.h, ':', f.m + [':'] + tail);
    SplitOnceIs(f.m, ':', tail);
    SecondsParse(f);
    if f.fraction.Some? {
      FractionBound(f.fraction.value);
    }
    TimeMicrosIs(f.negative, f.hours, f.minutes, f.seconds, if f.fraction.Some? then FractionMicros(f.fraction.value) else 0);
    TimeStarts(f, rest);
    TimeChars(f);
  }

  lemma TimeStarts(f: Field, rest: string)
    requires f.Time? && WellFormed(f) && f.h <= rest
    ensures var t := (if f.negative then "-" else "") + rest;
            (t != "" && t[0] == '-' <==> f.negative) && (if f.negative then t[1..] else t) == rest
  {
  }

  lemma TimeChars(f: Field)
    requires f.Time? && WellFormed(f)
    ensures IsToken(TimeText(f)) && ':' in TimeText(f)
  {
    hide Numeral;
    NumeralChars(f.h, f.hours);
    NumeralChars(f.m, f.minutes);
    NumeralChars(f.s, f.seconds);
    var sign := if f.negative then "-" else "";
    assert TimeText(f)[|sign| + |f.h|] == ':';
  }

  /** A token with a colon that the parser takes is the text of a time. */
  lemma OnlyTimesParse(token: string) returns (f: Field)
    requires ParseTime(token).Some?
    ensures f.Time? && WellFormed(f) && TimeText(f) == token
  {
    hide SplitOnce, Numeral, ParseSigned, TimeMicros, ParseSeconds;
    var negative := token != "" && token[0] == '-';
    var rest := if negative then token[1..] else token;
    var first := SplitOnce(rest, ':').value;
    var second := SplitOnce(first.1, ':').value;
    var hours, minutes := ParseI64(first.0).value, ParseI64(second.0).value;
    var s, seconds, fraction := OnlySecondsParse(second.1);
    f := Time(negative, first.0, hours, second.0, minutes, s, seconds, fraction);
    NumeralIff(first.0, hours);
    NumeralIff(second.0, minutes);
    TimeInRange(negative, hours, minutes, seconds, ParseSeconds(second.1).value.1);
    NumeralChars(first.0, hours);
    Assembles(token, f, first.1, second.1);
  }

  lemma Assembles(token: string, f: Field, first: string, second: string)
    requires f.Time? && f.h != "" && (f.negative <==> token != "" && token[0] == '-')
    requires (if f.negative then token[1..] else token) == f.h + [':'] + first && first == f.m + [':'] + second
    requires second == SecondsText(f.s, f.fraction)
    ensures TimeText(f) == token && (!f.negative ==> f.h[0] != '-')
  {
    hide SecondsText;
    var rest := f.h + ":" + (f.m + ":" + second);
    assert token == (if f.negative then "-" else "") + rest;
    assert !f.negative ==> rest[0] == f.h[0] && rest == token;
  }

  lemma OnlySecondsParse(field: string) returns (s: string, seconds: int, fraction: Option<string>)
    requires ParseSeconds(field).Some?
    ensures Numeral(s, seconds) && seconds == ParseSeconds(field).value.0
    ensures fraction.Some? ==> fraction.value != "" && AllDigits(fraction.value)
    ensures field == SecondsText(s, fraction)
  {
    hide Numeral, ParseSigned, SplitOnce;
    var split := SplitOnce(field, '.');
    s := if split.Some? then split.value.0 else field;
    seconds := ParseI64(s).value;
    NumeralIff(s, seconds);
    fraction := if split.Some? then Some(split.value.1) else None;
    assert split.Some? ==> s + ['.'] + split.value.1 == s + ("." + split.value.1);
    assert s + "" == s;
  }

  lemma TimeInRange(negative: bool, hours: int, minutes: int, seconds: int, fraction: int)
    requires TimeMicros(negative, hours, minutes, seconds, fraction).Some?
    ensures 0 <= hours && 0 <= minutes < 60 && 0 <= seconds < 60
  {
  }

  // ---------------------------------------------------------------- all fields

  lemma AgoIs(word: string)
    ensures Lower(word) == "ago" <==> SpelledAs(word, "ago")
  {
    LowerIs(word, "ago");
  }

  /** What the parser makes of the tokens of fields, an `ago` after them or nothing. */
  lemma {:induction false} FieldsParse(fs: seq<Field>, tail: seq<string>, acc: Interval)
    requires (forall f | f in fs :: WellFormed(f)) && Fits(acc)
    requires tail == [] || (|tail| == 1 && SpelledAs(tail[0], "ago"))
    ensures ParseFrom(TokensOf(fs) + tail, 0, acc)
         == if TotalsFit(acc, fs) then Some((Total(acc, fs), tail != [])) else None
    decreases |fs|
  {
    if fs == [] {
      assert TokensOf(fs) + tail == tail;
      if tail != [] {
        AgoIs(tail[0]);
      }
    } else {
      FirstParses(fs, tail, acc);
      if FieldFits(fs[0]) && Fits(Plus(acc, Worth(fs[0]))) {
        FieldsParse(fs[1..], tail, Plus(acc, Worth(fs[0])));
      }
    }
  }

  lemma FirstParses(fs: seq<Field>, tail: seq<string>, acc: Interval)
    requires fs != [] && (forall f | f in fs :: WellFormed(f)) && Fits(acc)
    ensures ParseFrom(TokensOf(fs) + tail, 0, acc)
         == if FieldFits(fs[0]) && Fits(Plus(acc, Worth(fs[0])))
            then ParseFrom(TokensOf(fs[1..]) + tail, 0, Plus(acc, Worth(fs[0])))
            else None
  {
    hide Lower, ParseTime, ParseI64, ApplyUnit, TimeText, Names, Numeral;
    var f, ts, rest := fs[0], TokensOf(fs) + tail, TokensOf(fs[1..]) + tail;
    assert ts == Tokens1(f) + rest;
    var next := Plus(acc, Worth(f));
    if f.Quantity? {
      assert ts[0] == f.number && ts[1] == f.word && ts[2..] == rest;
      NumeralIff(f.number, f.n);
      NumeralChars(f.number, f.n);
      AgoIs(f.number);
      UnitApplies(f.n, f.word, f.one, acc);
      ParseFromSuffix(ts, 2, next);
    } else {
      assert ts[0] == TimeText(f) && ts[1..] == rest;
      TimeParses(f);
      TimeIsNoAgo(f);
      AgoIs(ts[0]);
      assert next == acc.(micros := acc.micros + Worth(f).micros);
      ParseFromSuffix(ts, 1, next);
    }
  }

  lemma TimeIsNoAgo(f: Field)
    requires f.Time? && WellFormed(f)
    ensures !SpelledAs(TimeText(f), "ago")
  {
    hide WellFormed, TimeText, SpelledAs;
    TimeChars(f);
    if SpelledAs(TimeText(f), "ago") {
      AgoHasNoColon(TimeText(f));
    }
  }

  lemma AgoHasNoColon(word: string)
    requires SpelledAs(word, "ago")
    ensures ':' !in word
  {
  }

  /** Tokens that the parser takes are those of fields, and perhaps an `ago`. */
  lemma {:induction false} OnlyFieldsParse(ts: seq<string>, acc: Interval) returns (fs: seq<Field>, tail: seq<string>)
    requires ParseFrom(ts, 0, acc).Some?
    ensures ts == TokensOf(fs) + tail && (forall f | f in fs :: WellFormed(f))
    ensures tail == [] || (|tail| == 1 && SpelledAs(tail[0], "ago"))
    decreases |ts|
  {
    hide Lower, ParseTime, ParseI64, ApplyUnit, TimeText, Names, Numeral;
    if ts == [] {
      fs, tail := [], [];
    } else if Lower(ts[0]) == "ago" {
      AgoIs(ts[0]);
      fs, tail := [], ts;
    } else {
      var f, acc', n := OneFieldParses(ts, acc);
      var fs', tail' := OnlyFieldsParse(ts[n..], acc');
      fs, tail := [f] + fs', tail';
      assert fs[1..] == fs';
      assert ts == Tokens1(f) + ts[n..];
    }
  }

  lemma OneFieldParses(ts: seq<string>, acc: Interval) returns (f: Field, acc': Interval, n: nat)
    requires ts != [] && Lower(ts[0]) != "ago" && ParseFrom(ts, 0, acc).Some?
    ensures WellFormed(f) && 0 < n <= |ts| && ts[..n] == Tokens1(f) && ParseFrom(ts[n..], 0, acc').Some?
  {
    hide Lower, ParseTime, ParseI64, ApplyUnit, TimeText, Names, Numeral;
    if ':' in ts[0] {
      f := OnlyTimesParse(ts[0]);
      n, acc' := 1, acc.(micros := acc.micros + ParseTime(ts[0]).value);
      ParseFromSuffix(ts, 1, acc');
    } else {
      var q := ParseI64(ts[0]).value;
      NumeralIff(ts[0], q);
      var one := OnlyUnitsApply(q, ts[1], acc);
      f := Quantity(ts[0], q, ts[1], one);
      n, acc' := 2, ApplyUnit(q, ts[1], acc).value;
      ParseFromSuffix(ts, 2, acc');
    }
  }

  /** A text of fields, at least one, and perhaps `ago` in any case, means what they mean. */
  lemma FieldsMean(text: string, fs: seq<Field>, tail: seq<string>)
    requires fs != [] && (forall f | f in fs :: WellFormed(f))
    requires tail == [] || (|tail| == 1 && SpelledAs(tail[0], "ago"))
    requires Spaced(text, TokensOf(fs) + tail)
    ensures Parsed(text) == Meaning(fs, tail != [])
  {
    hide ParseFrom, Spaced, Lower, WellFormed, Total, TotalsFit, SpelledAs, Words, TimeText;
    var ts := TokensOf(fs) + tail;
    WordsOfSpaced(text, ts);
    FieldsParse(fs, tail, ZERO);
    assert fs[0] in fs;
    FirstIsNoAgo(fs[0]);
    assert ts[0] == Tokens1(fs[0])[0];
    AgoIs(ts[0]);
    if TotalsFit(ZERO, fs) {
      Bounded(ZERO, fs);
    }
  }

  lemma {:induction false} Bounded(acc: Interval, fs: seq<Field>)
    requires (forall f | f in fs :: WellFormed(f)) && Fits(acc) && TotalsFit(acc, fs)
    ensures Fits(Total(acc, fs))
    decreases |fs|
  {
    if fs != [] {
      Bounded(Plus(acc, Worth(fs[0])), fs[1..]);
    }
  }

  lemma FirstIsNoAgo(f: Field)
    requires WellFormed(f)
    ensures !SpelledAs(Tokens1(f)[0], "ago")
  {
    if f.Quantity? {
      NumeralChars(f.number, f.n);
    } else {
      TimeIsNoAgo(f);
    }
  }

  /** The text is that of the fields, and of an `ago` if `tail` is one, and they mean `v`. */
  ghost predicate ReadsAs(text: string, v: Interval, fs: seq<Field>, tail: seq<string>) {
    && fs != [] && (forall f | f in fs :: WellFormed(f))
    && (tail == [] || (|tail| == 1 && SpelledAs(tail[0], "ago")))
    && Spaced(text, TokensOf(fs) + tail) && Meaning(fs, tail != []) == Some(v)
  }

  /** The parser accepts exactly the texts of the grammar, and gives them what they mean. */
  lemma ParsedIff(text: string, v: Interval)
    ensures Parsed(text) == Some(v) <==> exists fs, tail :: ReadsAs(text, v, fs, tail)
  {
    hide Parsed, ReadsAs;
    if fs, tail :| ReadsAs(text, v, fs, tail) {
      ReadIsParsed(text, v, fs, tail);
    }
    if Parsed(text) == Some(v) {
      var fs, tail := ParsedIsRead(text);
    }
  }

  lemma ReadIsParsed(text: string, v: Interval, fs: seq<Field>, tail: seq<string>)
    requires ReadsAs(text, v, fs, tail)
    ensures Parsed(text) == Some(v)
  {
    hide Parsed, Spaced, Meaning, WellFormed;
    FieldsMean(text, fs, tail);
  }

  lemma ParsedIsRead(text: string) returns (fs: seq<Field>, tail: seq<string>)
    requires Parsed(text).Some?
    ensures ReadsAs(text, Parsed(text).value, fs, tail)
  {
    hide ParseFrom, Spaced, Lower, Meaning, Finish, WellFormed, Words;
    var ts := Words(text, 0);
    fs, tail := OnlyFieldsParse(ts, ZERO);
    TextIsSpaced(text);
    AgoIs(ts[0]);
    assert fs == [] ==> ts == tail;
    FieldsMean(text, fs, tail);
  }

  // ---------------------------------------------------------------- units against each other

  lemma NameIsToken(word: string, one: Interval)
    requires Names(word, one)
    ensures IsToken(word)
  {
    var unit :| IsUnit(unit, one) && (SpelledAs(word, unit) || SpelledAs(word, unit + "s"));
    SingularIs(unit, one);
    LettersAreToken(word, unit);
    LettersAreToken(word, unit + "s");
  }

  lemma LettersAreToken(word: string, lower: string)
    requires lower != "" && forall i | 0 <= i < |lower| :: 'a' <= lower[i] <= 'z'
    ensures SpelledAs(word, lower) ==> IsToken(word)
  {
  }

  /** A number and the name of a unit, in either number and any mixture of cases, is that many of
      the unit. */
  lemma NumberAndWord(n: int, word: string, one: Interval)
    requires IsI64(n) && Names(word, one)
    ensures Parsed(PrintInt(n) + " " + word)
         == var v := C.Interval(n * one.months, n * one.days, n * one.micros); if C.IsInterval(v) then Some(v) else None
  {
    hide Parsed, Names, IsToken, Meaning;
    PrintedNumeral(n);
    NameIsToken(word, one);
    var f := Quantity(PrintInt(n), n, word, one);
    NumeralChars(f.number, n);
    assert TokensOf([f]) + [] == [f.number, word];
    TwoWords(f.number, word);
    FieldsMean(PrintInt(n) + " " + word, [f], []);
    OneField(f);
  }

  lemma PrintedNumeral(n: int)
    ensures Numeral(PrintInt(n), n)
  {
    if n < 0 {
      assert PrintInt(n)[1..] == PrintNat(-n);
    }
  }

  lemma TwoWords(a: string, b: string)
    requires IsToken(a) && IsToken(b)
    ensures Spaced(a + " " + b, [a, b])
  {
    hide Spaced, IsToken;
    var text, rest := a + " " + b, " " + b;
    assert Spaced("", []) by { EmptyIsSpaced(); }
    assert rest == " " + b + "" && Starts(rest, " ", b, "");
    SpacedMore(rest, " ", b, "", []);
    assert [b] + [] == [b];
    assert text == "" + a + rest && Starts(text, "", a, rest);
    SpacedMore(text, "", a, rest, [b]);
    assert [a] + [b] == [a, b];
  }

  lemma EmptyIsSpaced()
    ensures Spaced("", [])
  {
  }

  lemma OneField(f: Field)
    requires WellFormed(f) && f.Quantity?
    ensures Meaning([f], false) == if C.IsInterval(Worth(f)) then Some(Worth(f)) else None
  {
    hide WellFormed;
    var fs := [f];
    assert fs[1..] == [] && fs[0] == f;
    assert Plus(ZERO, Worth(f)) == Worth(f);
    assert Total(ZERO, fs) == Worth(f);
    assert TotalsFit(ZERO, fs) <==> Fits(Worth(f));
  }

  lemma OneWord(a: string)
    requires IsToken(a)
    ensures Spaced(a, [a])
  {
    hide Spaced, IsToken;
    EmptyIsSpaced();
    assert a == "" + a + "" && Starts(a, "", a, "");
    SpacedMore(a, "", a, "", []);
    assert [a] + [] == [a];
  }

  function OnTheHour(n: int): Field {
    Time(n < 0, PrintNat(if n < 0 then -n else n), if n < 0 then -n else n, "00", 0, "00", 0, None)
  }

  lemma OnTheHourIs(n: int)
    requires IsI64(n) && n != C.I64_MIN
    ensures OnTheHour(n).Time? && WellFormed(OnTheHour(n)) && TimeText(OnTheHour(n)) == PrintInt(n) + ":00:00"
    ensures Worth(OnTheHour(n)) == C.Interval(0, 0, n * 3_600_000_000)
    ensures IsI64(Magnitude(OnTheHour(n))) <==> IsI64(n * 3_600_000_000)
  {
    hide PrintNat, Numeral;
    var digits := PrintNat(if n < 0 then -n else n);
    PaddedZero();
    DigitsAreNumeral(digits);
    HourText(n, digits);
  }

  lemma PaddedZero()
    ensures Numeral("00", 0)
  {
    assert "00"[..1] == "0";
  }

  lemma DigitsAreNumeral(digits: string)
    requires digits != "" && AllDigits(digits)
    ensures Numeral(digits, Value(digits)) && digits[0] != '-'
  {
    assert IsDigit(digits[0]);
  }

  lemma HourText(n: int, digits: string)
    requires digits == PrintNat(if n < 0 then -n else n)
    ensures TimeText(OnTheHour(n)) == PrintInt(n) + ":00:00"
  {
    hide PrintNat;
    var sign := if n < 0 then "-" else "";
    assert SecondsText("00", None) == "00";
    assert TimeText(OnTheHour(n)) == sign + (digits + ":" + ("00" + ":" + "00"));
    assert ":" + ("00" + ":" + "00") == ":00:00" && PrintInt(n) == sign + digits;
    assert digits + ":" + ("00" + ":" + "00") == digits + ":00:00";
    assert sign + (digits + ":00:00") == sign + digits + ":00:00";
  }

  /** So many hours are as long as the clock says. */
  lemma HoursAreClock(n: int, word: string)
    requires IsI64(n)
    requires SpelledAs(word, "hour") || SpelledAs(word, "hours") || SpelledAs(word, "hr") || SpelledAs(word, "hrs")
    ensures Parsed(PrintInt(n) + " " + word) == Parsed(PrintInt(n) + ":00:00")
  {
    hide Parsed, SpelledAs, PrintInt;
    var one := C.Interval(0, 0, 3_600_000_000);
    HourNames(word, one);
    NumberAndWord(n, word, one);
    if n == C.I64_MIN {
      LeastHoursAreRefused();
    } else {
      ClockHours(n);
    }
  }

  lemma ClockHours(n: int)
    requires IsI64(n) && n != C.I64_MIN
    ensures Parsed(PrintInt(n) + ":00:00")
         == if IsI64(n * 3_600_000_000) then Some(C.Interval(0, 0, n * 3_600_000_000)) else None
  {
    hide Parsed, WellFormed, TimeText, Worth, Magnitude, OnTheHour, PrintInt;
    OnTheHourIs(n);
    OneTimeMeans(OnTheHour(n));
  }

  lemma OneTimeMeans(f: Field)
    requires WellFormed(f) && f.Time?
    ensures Parsed(TimeText(f)) == if IsI64(Magnitude(f)) then Some(Worth(f)) else None
  {
    hide Parsed, WellFormed, TimeText, Worth, Magnitude, Meaning, IsToken, Spaced;
    TimeChars(f);
    OneWord(TimeText(f));
    assert TokensOf([f]) + [] == [TimeText(f)];
    FieldsMean(TimeText(f), [f], []);
    OneTime(f);
  }

  lemma LeastHoursAreRefused()
    ensures Parsed(PrintInt(C.I64_MIN) + ":00:00") == None
  {
    hide PrintNat, Words, Lower, SplitOnce, ParseSigned;
    var h := PrintNat(-C.I64_MIN);
    var rest := h + [':'] + "00:00";
    var text := PrintInt(C.I64_MIN) + ":00:00";
    assert text == "-" + rest && text[1..] == rest && ':' in text;
    assert IsToken(text) by {
      assert forall i | 0 <= i < |text| :: text[i] == '-' || IsDigit(text[i]) || text[i] == ':';
    }
    OneWord(text);
    WordsOfSpaced(text, [text]);
    SplitOnceIs(h, ':', "00:00");
    assert ParseI64(h).None? by {
      TooManyHours(h);
    }
    assert ParseTime(text).None?;
  }

  lemma TooManyHours(h: string)
    requires h != "" && AllDigits(h) && Value(h) == -C.I64_MIN
    ensures ParseI64(h).None?
  {
    assert IsDigit(h[0]);
  }

  lemma HourNames(word: string, one: Interval)
    requires one == C.Interval(0, 0, 3_600_000_000)
    requires SpelledAs(word, "hour") || SpelledAs(word, "hours") || SpelledAs(word, "hr") || SpelledAs(word, "hrs")
    ensures Names(word, one)
  {
    hide SpelledAs;
    assert "hour" + "s" == "hours" && "hr" + "s" == "hrs";
    assert IsUnit("hour", one) && IsUnit("hr", one);
  }

  lemma OneTime(f: Field)
    requires WellFormed(f) && f.Time?
    ensures Meaning([f], false) == if IsI64(Magnitude(f)) then Some(Worth(f)) else None
  {
    hide WellFormed, Magnitude;
    var fs := [f];
    assert fs[1..] == [] && fs[0] == f;
    assert Plus(ZERO, Worth(f)) == Worth(f);
    assert Total(ZERO, fs) == Worth(f);
    assert TotalsFit(ZERO, fs) <==> FieldFits(f);
    MagnitudeIs(f);
  }

  lemma MagnitudeIs(f: Field)
    requires WellFormed(f) && f.Time?
    ensures Magnitude(f) >= 0 && Worth(f) == C.Interval(0, 0, if f.negative then -Magnitude(f) else Magnitude(f))
  {
  }

  // ---------------------------------------------------------------- how the printer writes

  /** A printed time: a sign if it is negative, two digits of hours or more, two of minutes and of
      seconds, and the digits of the fraction up to the last that is not zero. */
  lemma TimeShape(micros: int) returns (h: string, m: string, s: string, f: string)
    ensures FormatTime(micros)
         == (if micros < 0 then "-" else "") + (h + ":" + m + ":" + (s + if f == "" then "" else "." + f))
    ensures AllDigits(h) && AllDigits(m) && AllDigits(s) && AllDigits(f)
    ensures |h| >= 2 && (|h| > 2 ==> h[0] != '0') && |m| == 2 && |s| == 2 && Value(m) < 60 && Value(s) < 60
    ensures |f| <= 6 && (f != "" ==> f[|f| - 1] != '0')
    ensures (if micros < 0 then -micros else micros)
         == (Value(h) * 3_600 + Value(m) * 60 + Value(s)) * 1_000_000 + Value(f) * Pow10(6 - |f|)
  {
    hide Padded, TrimZeros, Pow10, Value;
    var abs := if micros < 0 then -micros else micros;
    var total, fraction := abs / MICROS_PER_SEC, abs % MICROS_PER_SEC;
    h, m, s := Padded(total / 3_600, 2), Padded(total % 3_600 / 60, 2), Padded(total % 60, 2);
    D.Powers();
    D.NoZeroInFront(total / 3_600, 2);
    f := FractionShape(fraction);
    assert total == total / 3_600 * 3_600 + total % 3_600 / 60 * 60 + total % 60;
  }

  lemma FractionShape(fraction: nat) returns (f: string)
    requires fraction < 1_000_000
    ensures AllDigits(f) && |f| <= 6 && (f != "" ==> f[|f| - 1] != '0') && fraction == Value(f) * Pow10(6 - |f|)
    ensures (if fraction != 0 then "." + TrimZeros(Padded(fraction, 6)) else "") == if f == "" then "" else "." + f
  {
    hide Padded, Pow10;
    if fraction == 0 {
      f := "";
    } else {
      MillionIsPow10();
      var p := Padded(fraction, 6);
      f := TrimZeros(p);
      TrimZerosValue(p);
      TrimZerosEnd(p);
    }
  }

  lemma {:induction false} TrimZerosEnd(s: string)
    ensures TrimZeros(s) != "" ==> TrimZeros(s)[|TrimZeros(s)| - 1] != '0'
  {
    if s != "" && s[|s| - 1] == '0' {
      TrimZerosEnd(s[..|s| - 1]);
    }
  }

  /** One of something is in the singular, and none of it is not written. */
  function Counted(n: int, one: string, many: string): seq<string> {
    if n == 0 then [] else [PrintInt(n) + " " + if n == 1 then one else many]
  }

  /** A printed interval: years and months of one sign, days, and a time if there is one or nothing
      else. */
  lemma IntervalIsWritten(iv: Interval, years: int, months: int)
    requires iv.months == years * 12 + months && -12 < months < 12 && (years > 0 ==> months >= 0) && (years < 0 ==> months <= 0)
    ensures var dates := Counted(years, "year", "years") + Counted(months, "mon", "mons") + Counted(iv.days, "day", "days");
            Formatted(iv) == Join(dates + if iv.micros != 0 || dates == [] then [FormatTime(iv.micros)] else [])
  {
    hide FormatTime, Join, PrintInt;
    MonthsDivide(iv.months, years, months);
    AmountIs(years, "year", "years");
    AmountIs(months, "mon", "mons");
    AmountIs(iv.days, "day", "days");
  }

  lemma MonthsDivide(n: int, years: int, months: int)
    requires n == years * 12 + months && -12 < months < 12 && (years > 0 ==> months >= 0) && (years < 0 ==> months <= 0)
    ensures C.Div(n, 12) == years && Rem(n, 12) == months
  {
  }

  lemma AmountIs(n: int, one: string, many: string)
    requires many == one + "s"
    ensures Amount(n, one) == Counted(n, one, many)
  {
    hide PrintInt;
    assert one + "" == one;
  }
}
