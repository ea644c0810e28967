/** Text of the `DATE` type. */
module DateText {
  import opened Options
  import opened Text
  import C = Calendar

  const U32_MAX := 0xFFFF_FFFF

  /** `Overflow` is where unchecked arithmetic leaves `i64`: a build with overflow checks stops,
      another goes on with a wrapped value. */
  datatype Outcome = Day(days: int) | Refused | Overflow

  /** `{year:04}`: the sign takes one of the four places. */
  function YearText(year: int): string {
    if year < 0 then "-" + Padded(-year, 3) else Padded(year, 4)
  }

  function FieldsText(year: int, month: nat, day: nat): string {
    YearText(year) + "-" + Padded(month, 2) + "-" + Padded(day, 2)
  }

  function FormatDate(days: int): string {
    var d := C.CivilFromDays(days);
    C.DaysRoundTrip(days);
    FieldsText(d.year, d.month, d.day)
  }

  function ParseDate(text: string): Outcome {
    var first := SplitOnce(Trim(text), '-');
    if first.None? then Refused
    else
      var second := SplitOnce(first.value.1, '-');
      if second.None? then Refused
      else
        var year := ParseSigned(first.value.0, C.I64_MIN, C.I64_MAX);
        var month, day := ParseUnsigned(second.value.0, U32_MAX), ParseUnsigned(second.value.1, U32_MAX);
        if year.None? || month.None? || day.None? then Refused
        else FromFields(C.Date(year.value, month.value, day.value))
  }

  /** The day of the fields, unless they name no day of the calendar. */
  function FromFields(d: C.Date): Outcome {
    if !(1 <= d.month <= 12) || !(1 <= d.day <= 31) then Refused
    else if !C.DaysFromCivilFits(d) || !C.CivilFromDaysFits(C.DaysFromCivil(d)) then Overflow
    else if C.CivilFromDays(C.DaysFromCivil(d)) == d then Day(C.DaysFromCivil(d))
    else Refused
  }

  /** Fields are accepted exactly when they name a day of the calendar, from the first to the last
      whose day count is computed without overflow; outside those the arithmetic overflows. */
  lemma FromFieldsIff(d: C.Date)
    requires C.IsI64(d.year)
    ensures FromFields(d)
         == if !(1 <= d.month <= 12) || !(1 <= d.day <= 31) then Refused
            else if C.Before(d, C.FIRST_DATE) || C.Before(C.LAST_DATE, d) then Overflow
            else if C.IsValid(d) then Day(C.DaysFromCivil(d))
            else Refused
  {
    hide C.DaysFromCivilFits, C.CivilFromDaysFits, C.CivilFromDays, C.DaysFromCivil, C.Before;
    if 1 <= d.month <= 12 && 1 <= d.day <= 31 {
      C.DaysFromCivilFitsIff(d);
      C.FitsByCount(d);
      if C.DaysFromCivilFits(d) {
        C.CivilFromDaysFitsIff(C.DaysFromCivil(d));
        if C.IsValid(d) {
          C.CivilRoundTrip(d);
        } else {
          C.DaysRoundTrip(C.DaysFromCivil(d));
        }
      }
    }
  }

  /** The text of a date whose year is not negative parses to its three fields. */
  lemma ParsesFields(year: nat, month: nat, day: nat)
    requires C.IsI64(year) && month <= U32_MAX && day <= U32_MAX
    ensures ParseDate(FieldsText(year, month, day)) == FromFields(C.Date(year, month, day))
  {
    hide Padded, SplitOnce, ParseSigned, ParseUnsigned, Trim, FromFields;
    var y, m, n := Padded(year, 4), Padded(month, 2), Padded(day, 2);
    var rest := m + "-" + n;
    assert FieldsText(year, month, day) == y + "-" + rest;
    Edges(y, rest);
    SplitOnceIs(y, '-', rest);
    SplitOnceIs(m, '-', n);
    ParseDigitsAre(y, C.I64_MIN, C.I64_MAX);
    ParseDigitsAre(m, 0, U32_MAX);
    ParseDigitsAre(n, 0, U32_MAX);
  }

  lemma LeadingSeparator(text: string)
    requires text != "" && text[0] == '-' && Trim(text) == text
    ensures ParseDate(text) == Refused
  {
    hide SplitOnce, ParseSigned, ParseUnsigned, Trim, FromFields;
    assert text == "" + ['-'] + text[1..];
    SplitOnceIs("", '-', text[1..]);
    EmptyIsNoNumber();
  }

  /** That of a negative year is refused: its sign is taken for the first separator. */
  lemma NegativeIsRefused(year: int, month: nat, day: nat)
    requires year < 0
    ensures ParseDate(FieldsText(year, month, day)) == Refused
  {
    hide Padded, Trim, ParseDate;
    var y, rest := YearText(year), Padded(month, 2) + "-" + Padded(day, 2);
    var text := FieldsText(year, month, day);
    assert text == y + "-" + rest;
    Edges(y, rest);
    LeadingSeparator(text);
  }

  lemma EmptyIsNoNumber()
    ensures ParseSigned("", C.I64_MIN, C.I64_MAX).None?
  {
  }

  lemma Edges(y: string, rest: string)
    requires y != "" && rest != "" && (y[0] == '-' || IsDigit(y[0])) && IsDigit(rest[|rest| - 1])
    ensures Trim(y + "-" + rest) == y + "-" + rest
  {
    hide Trim;
    var s := y + "-" + rest;
    assert s[0] == y[0] && s[|s| - 1] == rest[|rest| - 1];
  }

  /** A printed date parses back exactly when its year is not negative, and is refused otherwise. */
  lemma DateRoundTrip(days: int)
    requires C.IsI64(days) && days <= C.I64_MAX - 719468
    ensures ParseDate(FormatDate(days)) == if C.CivilFromDays(days).year >= 0 then Day(days) else Refused
  {
    hide C.CivilFromDays, C.DaysFromCivil, C.CivilFromDaysFits, C.DaysFromCivilFits, FieldsText, ParseDate, C.IsValid;
    var d := C.CivilFromDays(days);
    C.DaysRoundTrip(days);
    assert 1 <= d.month <= 12 && 1 <= d.day <= 31 by { ValidFields(d); }
    if d.year >= 0 {
      YearFits(days);
      ParsesFields(d.year, d.month, d.day);
      C.FitsByCount(d);
      C.CivilFromDaysFitsIff(days);
    } else {
      NegativeIsRefused(d.year, d.month, d.day);
    }
  }

  lemma ValidFields(d: C.Date)
    requires C.IsValid(d)
    ensures 1 <= d.month <= 12 && 1 <= d.day <= 31
  {
  }

  lemma YearFits(days: int)
    requires C.IsI64(days) && days <= C.I64_MAX - 719468
    ensures C.IsI64(C.CivilFromDays(days).year)
  {
    C.YearIsBounded(days, 64_000_000_000_000);
  }

  /** Every year past the last date's is accepted as a number and overflows: `30000000000000000-01-01`
      is such a text. */
  lemma LateYearOverflows(year: nat)
    requires C.LAST_DATE.year < year <= C.I64_MAX
    ensures ParseDate(FieldsText(year, 1, 1)) == Overflow
  {
    hide ParseDate, FieldsText, FromFields;
    ParsesFields(year, 1, 1);
    FromFieldsIff(C.Date(year, 1, 1));
  }

  lemma ParseCanOverflow()
    ensures ParseDate(FieldsText(30_000_000_000_000_000, 1, 1)) == Overflow
  {
    hide ParseDate, FieldsText;
    LateYearOverflows(30_000_000_000_000_000);
  }

  // ---------------------------------------------------------------- what texts there are

  /** The text is three numerals apart by hyphens, with white space around them. */
  predicate ReadsAs(text: string, pre: string, y: string, m: string, n: string, post: string, d: C.Date) {
    && text == pre + (y + "-" + (m + "-" + n)) + post && AllSpace(pre) && AllSpace(post)
    && 0 <= d.year <= C.I64_MAX && UnsignedNumeral(y, d.year)
    && 0 <= d.month <= U32_MAX && UnsignedNumeral(m, d.month)
    && 0 <= d.day <= U32_MAX && UnsignedNumeral(n, d.day)
  }

  lemma UnsignedIff(s: string, n: nat, max: int)
    requires n <= max
    ensures ParseUnsigned(s, max) == Some(n) <==> UnsignedNumeral(s, n)
    ensures '-' !in s ==> (ParseSigned(s, C.I64_MIN, max) == Some(n) <==> UnsignedNumeral(s, n))
  {
  }

  lemma UnsignedChars(s: string, n: nat)
    requires UnsignedNumeral(s, n)
    ensures s != "" && '-' !in s && !IsWhitespace(s[0]) && !IsWhitespace(s[|s| - 1])
  {
    assert forall i | 0 < i < |s| :: IsDigit(s[i]);
  }

  lemma {:induction false} TrimIs(pre: string, core: string, post: string)
    requires AllSpace(pre) && AllSpace(post) && core != ""
    requires !IsWhitespace(core[0]) && !IsWhitespace(core[|core| - 1])
    ensures Trim(pre + core + post) == core
    decreases |pre| + |post|
  {
    var s := pre + core + post;
    if pre != "" {
      assert s[0] == pre[0] && s[1..] == pre[1..] + core + post;
      TrimIs(pre[1..], core, post);
    } else if post != "" {
      var n := |post| - 1;
      assert s[0] == core[0] && s[|s| - 1] == post[n] && s[..|s| - 1] == pre + core + post[..n];
      TrimIs(pre, core, post[..n]);
    } else {
      assert s == core;
    }
  }

  lemma {:induction false} TrimmedFrom(s: string) returns (pre: string, post: string)
    ensures s == pre + Trim(s) + post && AllSpace(pre) && AllSpace(post)
    decreases |s|
  {
    if s == "" {
      pre, post := "", "";
    } else if IsWhitespace(s[0]) {
      pre, post := TrimmedFrom(s[1..]);
      pre := [s[0]] + pre;
    } else if IsWhitespace(s[|s| - 1]) {
      pre, post := TrimmedFrom(s[..|s| - 1]);
      post := post + [s[|s| - 1]];
    } else {
      pre, post := "", "";
    }
  }

  /** Such a text means its three numbers. */
  lemma NumeralsMean(text: string, pre: string, y: string, m: string, n: string, post: string, d: C.Date)
    requires ReadsAs(text, pre, y, m, n, post, d)
    ensures ParseDate(text) == FromFields(d)
  {
    hide Trim, SplitOnce, ParseSigned, ParseUnsigned, FromFields, UnsignedNumeral;
    var rest := m + "-" + n;
    var core := y + "-" + rest;
    UnsignedChars(y, d.year);
    UnsignedChars(m, d.month);
    UnsignedChars(n, d.day);
    assert core[0] == y[0] && core[|core| - 1] == n[|n| - 1];
    TrimIs(pre, core, post);
    SplitOnceIs(y, '-', rest);
    SplitOnceIs(m, '-', n);
    UnsignedIff(y, d.year, C.I64_MAX);
    UnsignedIff(m, d.month, U32_MAX);
    UnsignedIff(n, d.day, U32_MAX);
  }

  /** And no other text is accepted, nor reaches the arithmetic. */
  lemma OnlyNumeralsParse(text: string) returns (pre: string, y: string, m: string, n: string, post: string, d: C.Date)
    requires ParseDate(text) != Refused
    ensures ReadsAs(text, pre, y, m, n, post, d)
  {
    hide Trim, SplitOnce, ParseSigned, ParseUnsigned, FromFields, UnsignedNumeral;
    pre, post := TrimmedFrom(text);
    var first := SplitOnce(Trim(text), '-').value;
    var second := SplitOnce(first.1, '-').value;
    y, m, n := first.0, second.0, second.1;
    var year, month, day := ParseSigned(y, C.I64_MIN, C.I64_MAX).value, ParseUnsigned(m, U32_MAX).value, ParseUnsigned(n, U32_MAX).value;
    d := C.Date(year, month, day);
    NotNegative(y);
    UnsignedRange(m);
    UnsignedRange(n);
    UnsignedIff(y, year, C.I64_MAX);
    UnsignedIff(m, month, U32_MAX);
    UnsignedIff(n, day, U32_MAX);
    assert Trim(text) == y + ['-'] + (m + ['-'] + n);
  }

  lemma NotNegative(y: string)
    requires '-' !in y && ParseSigned(y, C.I64_MIN, C.I64_MAX).Some?
    ensures 0 <= ParseSigned(y, C.I64_MIN, C.I64_MAX).value <= C.I64_MAX
  {
  }

  lemma UnsignedRange(s: string)
    requires ParseUnsigned(s, U32_MAX).Some?
    ensures 0 <= ParseUnsigned(s, U32_MAX).value <= U32_MAX
  {
  }

  /** A printed date: four digits of the year or more, without a zero in front of more than four, a
      sign and at least three if it is negative, and two digits of month and day. */
  lemma DateShape(days: int) returns (y: string, m: string, n: string)
    ensures var d := C.CivilFromDays(days);
            && FormatDate(days) == (if d.year < 0 then "-" else "") + y + "-" + m + "-" + n
            && AllDigits(y) && AllDigits(m) && AllDigits(n) && |m| == 2 && |n| == 2
            && Value(m) == d.month && Value(n) == d.day && Value(y) == (if d.year < 0 then -d.year else d.year)
            && |y| >= (if d.year < 0 then 3 else 4) && (0 <= d.year < 10_000 ==> |FormatDate(days)| == 10)
            && (|y| > 4 ==> y[0] != '0')
  {
    hide C.CivilFromDays, C.DaysFromCivil, Padded, C.IsValid;
    var d := C.CivilFromDays(days);
    C.DaysRoundTrip(days);
    ValidFields(d);
    var year: nat := if d.year < 0 then -d.year else d.year;
    var w := if d.year < 0 then 3 else 4;
    y, m, n := Padded(year, w), Padded(d.month, 2), Padded(d.day, 2);
    Powers();
    NoZeroInFront(year, w);
  }

  lemma Powers()
    ensures Pow10(2) == 100 && Pow10(3) == 1000 && Pow10(4) == 10_000
  {
  }

  lemma NoZeroInFront(n: nat, w: nat)
    requires w >= 1
    ensures |Padded(n, w)| > w ==> Padded(n, w)[0] != '0'
  {
    FirstDigit(n);
  }

  lemma {:induction false} FirstDigit(n: nat)
    ensures n > 0 ==> PrintNat(n)[0] != '0'
    ensures |PrintNat(0)| == 1
  {
    if n >= 10 {
      FirstDigit(n / 10);
    }
  }
}
