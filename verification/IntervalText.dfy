/** Text of the `INTERVAL` type: the `postgres` style printer and its parser. */
module IntervalText {
  import opened Options
  import opened Text
  import C = Calendar

  type Interval = C.Interval

  const MICROS_PER_SEC := 1_000_000

  predicate IsI64(x: int) { C.IsI64(x) }

  // ---------------------------------------------------------------- printing

  /** Rust's `%`: the sign of the dividend. */
  function Rem(a: int, b: int): int
    requires b > 0
  {
    a - C.Div(a, b) * b
  }

  function Plural(n: int): string {
    if n == 1 then "" else "s"
  }

  /** `trim_end_matches('0')` */
  function TrimZeros(s: string): string {
    if s != "" && s[|s| - 1] == '0' then TrimZeros(s[..|s| - 1]) else s
  }

  /** The seconds field, with its fraction if it has one. */
  function SecondsField(secs: nat, fraction: nat): string {
    Padded(secs, 2) + if fraction != 0 then "." + TrimZeros(Padded(fraction, 6)) else ""
  }

  function Clock(hours: nat, minutes: nat, secs: nat, fraction: nat): string {
    Padded(hours, 2) + ":" + Padded(minutes, 2) + ":" + SecondsField(secs, fraction)
  }

  function FormatTime(micros: int): string {
    var abs := if micros < 0 then -micros else micros;
    var total, fraction := abs / MICROS_PER_SEC, abs % MICROS_PER_SEC;
    (if micros < 0 then "-" else "") + Clock(total / 3_600, total % 3_600 / 60, total % 60, fraction)
  }

  function AmountText(n: int, unit: string): string {
    PrintInt(n) + " " + (unit + Plural(n))
  }

  function Amount(n: int, unit: string): seq<string> {
    if n != 0 then [AmountText(n, unit)] else []
  }

  /** The printer pushes its parts in order and joins them. */
  method FormatInterval(iv: Interval) returns (text: string)
    ensures text == Formatted(iv)
  {
    hide AmountText, FormatTime, Join, C.Div, Rem;
    var parts: seq<string> := [];
    var years, mons := C.Div(iv.months, 12), Rem(iv.months, 12);
    if years != 0 {
      parts := parts + [AmountText(years, "year")];
    }
    if mons != 0 {
      parts := parts + [AmountText(mons, "mon")];
    }
    if iv.days != 0 {
      parts := parts + [AmountText(iv.days, "day")];
    }
    assert parts == Dates(iv);
    if iv.micros != 0 || parts == [] {
      parts := parts + [FormatTime(iv.micros)];
    }
    assert parts == Parts(iv);
    text := Join(parts);
  }

  function Dates(iv: Interval): seq<string> {
    Amount(C.Div(iv.months, 12), "year") + Amount(Rem(iv.months, 12), "mon") + Amount(iv.days, "day")
  }

  function Parts(iv: Interval): seq<string> {
    Dates(iv) + if iv.micros != 0 || Dates(iv) == [] then [FormatTime(iv.micros)] else []
  }

  function Formatted(iv: Interval): string {
    Join(Parts(iv))
  }

  // ---------------------------------------------------------------- parsing

  function Lower(s: string): (r: string)
    ensures |r| == |s|
  {
    seq(|s|, i requires 0 <= i < |s| => if 'A' <= s[i] <= 'Z' then (s[i] as int + 32) as char else s[i])
  }

  /** `checked_mul` then `checked_add` on a running component. */
  function Accumulate(sum: int, n: int, factor: int): Option<int> {
    if IsI64(n * factor) then C.CheckedI64(sum + n * factor) else None
  }

  /** The singular of a lower-case unit. */
  function Singular(unit: string): string {
    if unit != "" && unit[|unit| - 1] == 's' then unit[..|unit| - 1] else unit
  }

  function ApplyUnit(n: int, unit: string, acc: Interval): Option<Interval> {
    var u := Singular(Lower(unit));
    if u == "year" || u == "yr" then WithMonths(acc, Accumulate(acc.months, n, 12))
    else if u == "month" || u == "mon" then WithMonths(acc, Accumulate(acc.months, n, 1))
    else if u == "week" then WithDays(acc, Accumulate(acc.days, n, 7))
    else if u == "day" then WithDays(acc, Accumulate(acc.days, n, 1))
    else if u == "hour" || u == "hr" then WithMicros(acc, Accumulate(acc.micros, n, 3_600 * MICROS_PER_SEC))
    else if u == "minute" || u == "min" then WithMicros(acc, Accumulate(acc.micros, n, 60 * MICROS_PER_SEC))
    else if u == "second" || u == "sec" then WithMicros(acc, Accumulate(acc.micros, n, MICROS_PER_SEC))
    else None
  }

  function WithMonths(acc: Interval, m: Option<int>): Option<Interval> {
    if m.None? then None else Some(acc.(months := m.value))
  }

  function WithDays(acc: Interval, d: Option<int>): Option<Interval> {
    if d.None? then None else Some(acc.(days := d.value))
  }

  function WithMicros(acc: Interval, m: Option<int>): Option<Interval> {
    if m.None? then None else Some(acc.(micros := m.value))
  }

  function ParseI64(s: string): Option<int> {
    ParseSigned(s, C.I64_MIN, C.I64_MAX)
  }

  /** Digits after the decimal point as microseconds; digits past the sixth are ignored. */
  function ParseFraction(s: string): Option<int> {
    if s == "" || !AllDigits(s) then None
    else
      var take := if |s| < 6 then |s| else 6;
      Some(Value(s[..take]) * Pow10(6 - take))
  }

  function ParseSeconds(field: string): Option<(int, int)> {
    var split := SplitOnce(field, '.');
    var seconds := ParseI64(if split.Some? then split.value.0 else field);
    var fraction := if split.Some? then ParseFraction(split.value.1) else Some(0);
    if seconds.None? || fraction.None? then None else Some((seconds.value, fraction.value))
  }

  function ParseTime(token: string): Option<int> {
    var negative := token != "" && token[0] == '-';
    var rest := if negative then token[1..] else token;
    var first := SplitOnce(rest, ':');
    if first.None? then None
    else
      var second := SplitOnce(first.value.1, ':');
      if second.None? then None
      else
        var hours, minutes := ParseI64(first.value.0), ParseI64(second.value.0);
        var seconds := ParseSeconds(second.value.1);
        if hours.None? || minutes.None? || seconds.None? then None
        else TimeMicros(negative, hours.value, minutes.value, seconds.value.0, seconds.value.1)
  }

  /** Two's complement: what an unchecked operation leaves of a result that does not fit. */
  function WrapI64(x: int): (r: int)
    ensures IsI64(r) && (IsI64(x) ==> r == x)
  {
    (x - C.I64_MIN) % 0x1_0000_0000_0000_0000 + C.I64_MIN
  }

  /** The seconds are summed unchecked; a build with overflow checks stops where the sum wraps. */
  function TimeMicros(negative: bool, hours: int, minutes: int, seconds: int, fraction: int): Option<int> {
    if hours < 0 || !(0 <= minutes < 60) || !(0 <= seconds < 60) || !IsI64(hours * 3_600) then None
    else
      var total := WrapI64(hours * 3_600 + minutes * 60 + seconds);
      if !IsI64(total * MICROS_PER_SEC) || !IsI64(total * MICROS_PER_SEC + fraction) then None
      else Some(if negative then -(total * MICROS_PER_SEC + fraction) else total * MICROS_PER_SEC + fraction)
  }

  /** What the parser's loop does with the tokens from `i` on: the components it adds up,
      and whether a final `ago` negates them. */
  function ParseFrom(ts: seq<string>, i: nat, acc: Interval): Option<(Interval, bool)>
    requires i <= |ts|
    decreases |ts| - i
  {
    if i == |ts| then Some((acc, false))
    else if Lower(ts[i]) == "ago" then (if i + 1 == |ts| then Some((acc, true)) else None)
    else if ':' in ts[i] then
      var t := ParseTime(ts[i]);
      if t.None? || !IsI64(acc.micros + t.value) then None
      else ParseFrom(ts, i + 1, acc.(micros := acc.micros + t.value))
    else
      var n := ParseI64(ts[i]);
      if n.None? || i + 1 == |ts| then None
      else
        var next := ApplyUnit(n.value, ts[i + 1], acc);
        if next.None? then None else ParseFrom(ts, i + 2, next.value)
  }

  function Finish(iv: Interval, negate: bool): Option<Interval> {
    var r := if negate then C.Interval(-iv.months, -iv.days, -iv.micros) else iv;
    if negate && !(IsI64(r.months) && IsI64(r.days) && IsI64(r.micros)) then None
    else if C.IsI32(r.months) && C.IsI32(r.days) then Some(r) else None
  }

  function Parsed(text: string): Option<Interval> {
    var ts := Words(text, 0);
    var r := ParseFrom(ts, 0, C.Interval(0, 0, 0));
    // A lone `ago` names no field.
    if ts == [] || r.None? || Lower(ts[0]) == "ago" then None
    else Finish(r.value.0, r.value.1)
  }

  /** The parser: one pass over the tokens with running components. */
  method ParseInterval(text: string) returns (r: Option<Interval>)
    ensures r == Parsed(text)
  {
    hide Lower, ParseTime, ParseI64, ApplyUnit, Finish, Words;
    var ts := Words(text, 0);
    if ts == [] {
      return None;
    }
    var acc, negate, sawField := C.Interval(0, 0, 0), false, false;
    var i := 0;
    while i < |ts|
      invariant 0 <= i <= |ts|
      invariant ParseFrom(ts, 0, C.Interval(0, 0, 0)) == ParseFrom(ts, i, acc)
      invariant !negate && (sawField <==> i > 0)
      invariant i > 0 ==> Lower(ts[0]) != "ago"
    {
      var token := ts[i];
      if Lower(token) == "ago" {
        if i + 1 < |ts| {
          return None;
        }
        if !sawField {
          return None;
        }
        r := Finish(acc, true);
        return;
      }
      if ':' in token {
        var t := ParseTime(token);
        if t.None? || !IsI64(acc.micros + t.value) {
          return None;
        }
        acc := acc.(micros := acc.micros + t.value);
        i := i + 1;
      } else {
        var n := ParseI64(token);
        if n.None? || i + 1 == |ts| {
          return None;
        }
        var next := ApplyUnit(n.value, ts[i + 1], acc);
        if next.None? {
          return None;
        }
        acc := next.value;
        i := i + 2;
      }
      sawField := true;
    }
    r := Finish(acc, false);
  }

  // ---------------------------------------------------------------- time round trip

  lemma {:induction false} TrimZerosValue(s: string)
    requires AllDigits(s)
    ensures AllDigits(TrimZeros(s)) && |TrimZeros(s)| <= |s|
    ensures Value(s) == Value(TrimZeros(s)) * Pow10(|s| - |TrimZeros(s)|)
    ensures Value(s) != 0 ==> TrimZeros(s) != ""
  {
    if s != "" && s[|s| - 1] == '0' {
      TrimZerosValue(s[..|s| - 1]);
    }
  }

  lemma MillionIsPow10()
    ensures Pow10(6) == 1_000_000
  {
    assert Pow10(3) == 1000;
  }

  lemma ShortFraction(t: string)
    requires t != "" && AllDigits(t) && |t| <= 6
    ensures ParseFraction(t) == Some(Value(t) * Pow10(6 - |t|))
  {
    assert t[..|t|] == t;
  }

  lemma FractionRoundTrip(fraction: nat)
    requires 0 < fraction < 1_000_000
    ensures ParseFraction(TrimZeros(Padded(fraction, 6))) == Some(fraction)
    ensures AllDigits(TrimZeros(Padded(fraction, 6)))
  {
    hide Padded, TrimZeros, Value, Pow10, ParseFraction;
    MillionIsPow10();
    var s := Padded(fraction, 6);
    TrimZerosValue(s);
    ShortFraction(TrimZeros(s));
  }

  lemma SecondsRoundTrip(secs: nat, fraction: nat)
    requires secs < 60 && fraction < 1_000_000
    ensures ParseSeconds(SecondsField(secs, fraction)) == Some((secs, fraction))
  {
    var a := Padded(secs, 2);
    ParseDigitsAre(a, C.I64_MIN, C.I64_MAX);
    assert '.' !in a;
    if fraction == 0 {
      assert SecondsField(secs, fraction) == a;
    } else {
      var t := TrimZeros(Padded(fraction, 6));
      FractionRoundTrip(fraction);
      assert SecondsField(secs, fraction) == a + ['.'] + t;
      SplitOnceIs(a, '.', t);
    }
  }

  lemma TimeParts(hours: nat, minutes: nat, secs: nat, fraction: nat)
    requires hours <= C.I64_MAX && minutes < 60 && secs < 60 && fraction < 1_000_000
    ensures var s := Clock(hours, minutes, secs, fraction);
            && ParseTime(s) == TimeMicros(false, hours, minutes, secs, fraction)
            && ParseTime("-" + s) == TimeMicros(true, hours, minutes, secs, fraction)
  {
    hide TimeMicros, ParseSeconds, SplitOnce, SecondsField, Padded, ParseSigned;
    var h, m, f := Padded(hours, 2), Padded(minutes, 2), SecondsField(secs, fraction);
    var s := Clock(hours, minutes, secs, fraction);
    ParseDigitsAre(h, C.I64_MIN, C.I64_MAX);
    ParseDigitsAre(m, C.I64_MIN, C.I64_MAX);
    assert s == h + [':'] + (m + [':'] + f);
    SplitOnceIs(h, ':', m + [':'] + f);
    SplitOnceIs(m, ':', f);
    SecondsRoundTrip(secs, fraction);
    assert ("-" + s)[1..] == s && s[0] == h[0] && IsDigit(h[0]);
  }

  lemma MicrosRecombine(abs: nat)
    requires abs <= C.I64_MAX + 1
    ensures var total, fraction := abs / MICROS_PER_SEC, abs % MICROS_PER_SEC;
            var t := TimeMicros(false, total / 3_600, total % 3_600 / 60, total % 60, fraction);
            var u := TimeMicros(true, total / 3_600, total % 3_600 / 60, total % 60, fraction);
            if abs <= C.I64_MAX then t == Some(abs) && u == Some(-(abs as int)) else t.None? && u.None?
  {
    var total := abs / MICROS_PER_SEC;
    assert total / 3_600 * 3_600 + total % 3_600 / 60 * 60 + total % 60 == total;
  }

  /** The one unchecked sum of the parser overflows on the last half hour that the checked hours
      leave, and nowhere else. */
  lemma SumOverflowsIff(hours: int, minutes: int, seconds: int)
    requires 0 <= hours && IsI64(hours * 3_600) && 0 <= minutes < 60 && 0 <= seconds < 60
    ensures !IsI64(hours * 3_600 + minutes * 60 + seconds)
       <==> hours == 2_562_047_788_015_215 && minutes * 60 + seconds > 1807
  {
  }

  /** Where it does, the wrapped sum is refused by the next checked product, whatever the
      fraction. */
  lemma WrappedSumIsRefused(negative: bool, hours: int, minutes: int, seconds: int, fraction: int)
    requires 0 <= hours && IsI64(hours * 3_600) && 0 <= minutes < 60 && 0 <= seconds < 60
    requires !IsI64(hours * 3_600 + minutes * 60 + seconds)
    ensures !IsI64(WrapI64(hours * 3_600 + minutes * 60 + seconds) * MICROS_PER_SEC)
    ensures TimeMicros(negative, hours, minutes, seconds, fraction).None?
  {
    SumOverflowsIff(hours, minutes, seconds);
    var sum := hours * 3_600 + minutes * 60 + seconds;
    assert WrapI64(sum) == sum - 0x1_0000_0000_0000_0000;
  }

  /** A text that reaches the overflow: `2562047788015215:59:59`. */
  lemma SumCanOverflow()
    ensures var text := Clock(2_562_047_788_015_215, 59, 59, 0);
            && ParseTime(text) == TimeMicros(false, 2_562_047_788_015_215, 59, 59, 0)
            && ParseTime(text).None?
    ensures !IsI64(2_562_047_788_015_215 * 3_600 + 59 * 60 + 59)
  {
    hide ParseTime, Clock, TimeMicros;
    TimeParts(2_562_047_788_015_215, 59, 59, 0);
    WrappedSumIsRefused(false, 2_562_047_788_015_215, 59, 59, 0);
  }

  /** A printed time parses back to its microseconds, but for the least one: its absolute
      value does not fit. */
  lemma TimeRoundTrip(micros: int)
    requires IsI64(micros)
    ensures ParseTime(FormatTime(micros)) == if micros == C.I64_MIN then None else Some(micros)
  {
    hide TimeMicros, ParseTime, Clock;
    var abs := if micros < 0 then -micros else micros;
    var total, fraction := abs / MICROS_PER_SEC, abs % MICROS_PER_SEC;
    TimeParts(total / 3_600, total % 3_600 / 60, total % 60, fraction);
    MicrosRecombine(abs);
    assert micros >= 0 ==> FormatTime(micros) == Clock(total / 3_600, total % 3_600 / 60, total % 60, fraction);
  }

  // ---------------------------------------------------------------- interval round trip

  function AmountTokens(n: int, unit: string): seq<string> {
    if n != 0 then [PrintInt(n), unit + Plural(n)] else []
  }

  function TimeTokens(iv: Interval): seq<string> {
    if iv.micros != 0 || Dates(iv) == [] then [FormatTime(iv.micros)] else []
  }

  /** The words of a printed interval. */
  function Tokens(iv: Interval): seq<string> {
    AmountTokens(C.Div(iv.months, 12), "year")
    + (AmountTokens(Rem(iv.months, 12), "mon") + (AmountTokens(iv.days, "day") + TimeTokens(iv)))
  }

  lemma JoinAmount(n: int, unit: string, parts: seq<string>, tokens: seq<string>)
    requires Join(parts) == Join(tokens) && (parts == [] <==> tokens == [])
    ensures var p, t := Amount(n, unit) + parts, AmountTokens(n, unit) + tokens;
            Join(p) == Join(t) && (p == [] <==> t == [])
  {
    hide PrintInt, Plural;
    var p, t := Amount(n, unit) + parts, AmountTokens(n, unit) + tokens;
    if n == 0 {
      assert p == parts && t == tokens;
    } else {
      var a, u := PrintInt(n), unit + Plural(n);
      assert t[1..] == [u] + tokens && p[1..] == parts && t[1..][1..] == tokens;
      assert parts == [] ==> Join(p) == a + " " + u;
      assert parts != [] ==> Join(p) == a + " " + u + " " + Join(parts);
    }
  }

  lemma FormattedTokens(iv: Interval)
    ensures Formatted(iv) == Join(Tokens(iv))
  {
    hide Amount, AmountTokens, FormatTime, Join;
    var d, m, t := Amount(iv.days, "day"), Amount(Rem(iv.months, 12), "mon"), TimeTokens(iv);
    JoinAmount(iv.days, "day", t, t);
    JoinAmount(Rem(iv.months, 12), "mon", d + t, AmountTokens(iv.days, "day") + t);
    JoinAmount(C.Div(iv.months, 12), "year", m + (d + t),
               AmountTokens(Rem(iv.months, 12), "mon") + (AmountTokens(iv.days, "day") + t));
    assert Parts(iv) == Amount(C.Div(iv.months, 12), "year") + (m + (d + t));
  }

  /** The parser's state after some tokens depends only on those left and the components so far. */
  lemma {:induction false} ParseFromSuffix(ts: seq<string>, i: nat, acc: Interval)
    requires i <= |ts|
    ensures ParseFrom(ts, i, acc) == ParseFrom(ts[i..], 0, acc)
    decreases |ts| - i
  {
    hide Lower, ParseTime, ParseI64, ApplyUnit;
    if i < |ts| {
      var rest := ts[i..];
      if ':' in ts[i] {
        var t := ParseTime(ts[i]);
        if t.Some? {
          var acc' := acc.(micros := acc.micros + t.value);
          assert rest[1..] == ts[i + 1..];
          ParseFromSuffix(ts, i + 1, acc');
          ParseFromSuffix(rest, 1, acc');
        }
      } else {
        var n := ParseI64(ts[i]);
        if n.Some? && i + 1 < |ts| {
          var next := ApplyUnit(n.value, ts[i + 1], acc);
          if next.Some? {
            assert rest[2..] == ts[i + 2..];
            ParseFromSuffix(ts, i + 2, next.value);
            ParseFromSuffix(rest, 2, next.value);
          }
        }
      }
    }
  }

  lemma PrintedNumber(n: int)
    ensures ':' !in PrintInt(n) && Lower(PrintInt(n)) != "ago" && IsToken(PrintInt(n))
  {
    var s := PrintInt(n);
    assert s[0] == '-' || IsDigit(s[0]);
    assert forall i | 0 < i < |s| :: IsDigit(s[i]);
    assert Lower(s)[0] == s[0];
  }

  lemma UnitIs(unit: string, n: int)
    requires unit == "year" || unit == "mon" || unit == "day"
    ensures Singular(Lower(unit + Plural(n))) == unit && IsToken(unit + Plural(n))
  {
    var u := unit + Plural(n);
    assert Lower(u) == u;
    assert n != 1 ==> u[..|u| - 1] == unit;
  }

  function WithUnit(acc: Interval, unit: string, n: int): Interval {
    if unit == "year" then acc.(months := acc.months + n * 12)
    else if unit == "mon" then acc.(months := acc.months + n)
    else acc.(days := acc.days + n)
  }

  /** Parsing a printed quantity adds it to its component. */
  lemma ParseAmount(n: int, unit: string, rest: seq<string>, acc: Interval)
    requires unit == "year" || unit == "mon" || unit == "day"
    requires C.IsI32(n) && -0x1_0000_0000 <= acc.months <= 0x1_0000_0000 && acc.days == 0
    ensures ParseFrom(AmountTokens(n, unit) + rest, 0, acc) == ParseFrom(rest, 0, WithUnit(acc, unit, n))
  {
    hide PrintInt, Lower, ParseTime, Singular, ParseSigned, Plural;
    var ts := AmountTokens(n, unit) + rest;
    if n == 0 {
      assert ts == rest;
    } else {
      PrintedNumber(n);
      UnitIs(unit, n);
      assert ParseI64(PrintInt(n)) == Some(n) by { ParsePrintInt(n, C.I64_MIN, C.I64_MAX); }
      assert ApplyUnit(n, ts[1], acc) == Some(WithUnit(acc, unit, n));
      ParseFromSuffix(ts, 2, WithUnit(acc, unit, n));
      assert ts[2..] == rest;
    }
  }

  lemma PrintedTime(micros: int)
    ensures var t := FormatTime(micros); IsToken(t) && ':' in t && Lower(t) != "ago"
  {
    hide Padded, TrimZeros, Lower;
    var abs := if micros < 0 then -micros else micros;
    var total, fraction := abs / MICROS_PER_SEC, abs % MICROS_PER_SEC;
    TrimmedDigits(fraction);
    var h, m, f := Padded(total / 3_600, 2), Padded(total % 3_600 / 60, 2), SecondsField(total % 60, fraction);
    var sign := if micros < 0 then "-" else "";
    assert FormatTime(micros) == sign + (h + ":" + m + ":" + f);
    assert (sign + (h + ":" + m + ":" + f))[|sign| + |h|] == ':';
  }

  lemma TrimmedDigits(fraction: nat)
    ensures AllDigits(TrimZeros(Padded(fraction, 6)))
  {
    TrimZerosValue(Padded(fraction, 6));
  }

  lemma TokensAre(iv: Interval)
    ensures forall t | t in Tokens(iv) :: IsToken(t)
    ensures Tokens(iv) != [] && Lower(Tokens(iv)[0]) != "ago"
  {
    hide PrintInt, Plural, FormatTime, Lower, IsToken;
    var years, mons := C.Div(iv.months, 12), Rem(iv.months, 12);
    UnitIs("year", years);
    UnitIs("mon", mons);
    UnitIs("day", iv.days);
    PrintedNumber(years);
    PrintedNumber(mons);
    PrintedNumber(iv.days);
    PrintedTime(iv.micros);
  }

  lemma ParseTimeTokens(iv: Interval, acc: Interval)
    requires IsI64(iv.micros) && acc.micros == 0
    ensures ParseFrom(TimeTokens(iv), 0, acc)
         == if iv.micros == C.I64_MIN then None else Some((acc.(micros := iv.micros), false))
  {
    hide FormatTime, Lower, ParseTime;
    PrintedTime(iv.micros);
    TimeRoundTrip(iv.micros);
  }

  lemma MonthsSplit(months: int)
    requires C.IsI32(months)
    ensures C.Div(months, 12) * 12 + Rem(months, 12) == months
    ensures C.IsI32(C.Div(months, 12)) && C.IsI32(Rem(months, 12))
  {
  }

  lemma ParseTokens(iv: Interval)
    requires C.IsInterval(iv)
    ensures ParseFrom(Tokens(iv), 0, C.Interval(0, 0, 0))
         == if iv.micros == C.I64_MIN then None else Some((iv, false))
  {
    hide ParseFrom, AmountTokens, TimeTokens, C.Div, Rem;
    var years, mons := C.Div(iv.months, 12), Rem(iv.months, 12);
    MonthsSplit(iv.months);
    var days := AmountTokens(iv.days, "day") + TimeTokens(iv);
    ParseAmount(years, "year", AmountTokens(mons, "mon") + days, C.Interval(0, 0, 0));
    ParseAmount(mons, "mon", days, C.Interval(years * 12, 0, 0));
    ParseAmount(iv.days, "day", TimeTokens(iv), C.Interval(iv.months, 0, 0));
    ParseTimeTokens(iv, C.Interval(iv.months, iv.days, 0));
  }

  /** Every interval but those with the least microsecond count prints to text that parses
      back to the same three components; those print to text that is rejected. */
  lemma IntervalRoundTrip(iv: Interval)
    requires C.IsInterval(iv)
    ensures Parsed(Formatted(iv)) == if iv.micros == C.I64_MIN then None else Some(iv)
  {
    hide ParseFrom, Tokens, Lower, Formatted;
    FormattedTokens(iv);
    TokensAre(iv);
    assert "" + Join(Tokens(iv)) == Join(Tokens(iv));
    WordsOfJoin("", Tokens(iv));
    ParseTokens(iv);
  }
}
