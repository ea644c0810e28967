/** Day counts and civil dates of the proleptic Gregorian calendar, and adding an interval
    to a timestamp. Integers are mathematical; where the program uses `i64` without a
    check, a lemma bounds the value. */
module Calendar {
  import opened Options

  const I64_MIN := -0x8000_0000_0000_0000
  const I64_MAX := 0x7fff_ffff_ffff_ffff

  predicate IsI64(x: int) { I64_MIN <= x <= I64_MAX }
  predicate IsI32(x: int) { -0x8000_0000 <= x <= 0x7fff_ffff }

  /** Rust's `/`, which truncates toward zero, for a positive divisor. */
  function Div(a: int, b: int): int
    requires b > 0
  {
    if a >= 0 then a / b else -((-a) / b)
  }

  datatype Date = Date(year: int, month: int, day: int)

  // ---------------------------------------------------------------- the program

  function Era(y: int): int {
    Div(if y >= 0 then y else y - 399, 400)
  }

  function DaysFromCivil(d: Date): int {
    var y := if d.month <= 2 then d.year - 1 else d.year;
    var era := Era(y);
    var yoe := y - era * 400;
    var doy := Div(153 * (if d.month > 2 then d.month - 3 else d.month + 9) + 2, 5) + d.day - 1;
    var doe := yoe * 365 + Div(yoe, 4) - Div(yoe, 100) + doy;
    era * 146097 + doe - 719468
  }

  function EraOfDay(z: int): int {
    Div(if z >= 0 then z else z - 146096, 146097)
  }

  function YearOfEra(doe: int): int {
    Div(doe - Div(doe, 1460) + Div(doe, 36524) - Div(doe, 146096), 365)
  }

  function CivilFromDays(days: int): Date {
    var z := days + 719468;
    var era := EraOfDay(z);
    var doe := z - era * 146097;
    var yoe := YearOfEra(doe);
    var y := yoe + era * 400;
    var doy := doe - (365 * yoe + Div(yoe, 4) - Div(yoe, 100));
    var mp := Div(5 * doy + 2, 153);
    var d := doy - Div(153 * mp + 2, 5) + 1;
    var m := if mp < 10 then mp + 3 else mp - 9;
    Date(if m <= 2 then y + 1 else y, m, d)
  }

  // ---------------------------------------------------------------- the calendar

  predicate IsLeap(y: int) {
    y % 4 == 0 && (y % 100 != 0 || y % 400 == 0)
  }

  function MonthLength(y: int, m: int): int {
    if m == 2 then (if IsLeap(y) then 29 else 28)
    else if m == 4 || m == 6 || m == 9 || m == 11 then 30
    else 31
  }

  predicate IsValid(d: Date) {
    1 <= d.month <= 12 && 1 <= d.day <= MonthLength(d.year, d.month)
  }

  /** The calendar day after `d`. */
  function NextDay(d: Date): Date {
    if d.day < MonthLength(d.year, d.month) then d.(day := d.day + 1)
    else if d.month < 12 then Date(d.year, d.month + 1, 1)
    else Date(d.year + 1, 1, 1)
  }

  // ---------------------------------------------------------------- years within an era

  /** Days of the March-based years before year `yoe` of an era. */
  function YearStart(yoe: int): int {
    365 * yoe + yoe / 4 - yoe / 100
  }

  /** The March-based year `yoe` of an era ends with February of the next civil year. */
  function YearDays(yoe: int): int {
    if (yoe + 1) % 4 == 0 && ((yoe + 1) % 100 != 0 || yoe + 1 == 400) then 366 else 365
  }

  lemma YearSteps(yoe: int)
    requires 0 <= yoe < 400
    ensures yoe < 399 ==> YearStart(yoe + 1) == YearStart(yoe) + YearDays(yoe)
    ensures yoe == 399 ==> YearStart(yoe) + YearDays(yoe) == 146097
  {
    assert (yoe + 1) / 4 == yoe / 4 + if (yoe + 1) % 4 == 0 then 1 else 0;
    assert (yoe + 1) / 100 == yoe / 100 + if (yoe + 1) % 100 == 0 then 1 else 0;
  }

  lemma SmallMultiple(d: int, e: int)
    requires d > 0 && -d < d * e < d
    ensures e == 0
  {
  }

  lemma QuotientIs(x: int, d: int, q: int, r: int)
    requires d > 0 && x == d * q + r && 0 <= r < d
    ensures x / d == q
  {
    var e := x / d - q;
    assert d * e == d * (x / d) - d * q;
    SmallMultiple(d, e);
  }

  /** A year of an era by century, four-year group and rest. */
  lemma YearParts(yoe: int, doy: int, a: int, b: int, c: int)
    requires 0 <= yoe < 400 && 0 <= doy < YearDays(yoe)
    requires a == yoe / 100 && b == yoe % 100 / 4 && c == yoe % 4
    ensures yoe == 100 * a + 4 * b + c && 0 <= a <= 3 && 0 <= b <= 24 && 0 <= c <= 3
    ensures YearStart(yoe) + doy == 36524 * a + 1461 * b + 365 * c + doy
    ensures c < 3 ==> doy <= 364
    ensures b == 24 && c == 3 && a < 3 ==> doy <= 364
  {
    assert yoe / 4 == 25 * a + b;
  }

  lemma EraQuotients(doe: int, a: int, b: int, c: int, doy: int, carry: int, last: int)
    requires 0 <= a <= 3 && 0 <= b <= 24 && 0 <= c <= 3 && 0 <= doy <= 365
    requires (c < 3 ==> doy <= 364) && (b == 24 && c == 3 && a < 3 ==> doy <= 364)
    requires doe == 36524 * a + 1461 * b + 365 * c + doy
    requires carry == if 24 * a + b + 365 * c + doy >= 1460 then 1 else 0
    requires last == if doe == 146096 then 1 else 0
    ensures doe / 1460 == 25 * a + b + carry && doe / 36524 == a + last && doe / 146096 == last
    ensures 0 <= doe < 146097 && 0 <= doy - carry < 365
  {
    QuotientIs(doe, 1460, 25 * a + b + carry, 24 * a + b + 365 * c + doy - 1460 * carry);
    QuotientIs(doe, 36524, a + last, doe - 36524 * (a + last));
    QuotientIs(doe, 146096, last, doe - 146096 * last);
  }

  lemma YearFormula(doe: int, yoe: int, rest: int)
    requires 0 <= doe && 0 <= yoe && 0 <= rest < 365
    requires doe - doe / 1460 + doe / 36524 - doe / 146096 == 365 * yoe + rest
    ensures YearOfEra(doe) == yoe
  {
    QuotientIs(365 * yoe + rest, 365, yoe, rest);
  }

  /** The year formula picks, of every day of an era, the March-based year it is in. */
  lemma YearOfEraIs(yoe: int, doy: int)
    requires 0 <= yoe < 400 && 0 <= doy < YearDays(yoe)
    ensures YearOfEra(YearStart(yoe) + doy) == yoe
    ensures 0 <= YearStart(yoe) + doy < 146097
  {
    var a, b, c := yoe / 100, yoe % 100 / 4, yoe % 4;
    var doe := YearStart(yoe) + doy;
    YearParts(yoe, doy, a, b, c);
    var carry := if 24 * a + b + 365 * c + doy >= 1460 then 1 else 0;
    var last := if doe == 146096 then 1 else 0;
    assert doy <= 365;
    hide YearDays, YearStart, YearOfEra;
    EraQuotients(doe, a, b, c, doy, carry, last);
    YearFormula(doe, yoe, doy - carry);
  }

  lemma YearOfEraCovers(doe: int)
    requires 0 <= doe < 146097
    ensures 0 <= YearOfEra(doe) < 400
    ensures 0 <= doe - YearStart(YearOfEra(doe)) < YearDays(YearOfEra(doe))
  {
    YearSteps(399);
    var yoe := FindYear(doe, 399);
    YearOfEraIs(yoe, doe - YearStart(yoe));
  }

  lemma {:induction false} FindYear(doe: int, top: int) returns (yoe: int)
    requires 0 <= top < 400 && 0 <= doe < YearStart(top) + YearDays(top)
    ensures 0 <= yoe <= top && 0 <= doe - YearStart(yoe) < YearDays(yoe)
    decreases top
  {
    if doe >= YearStart(top) || top == 0 {
      yoe := top;
    } else {
      YearSteps(top - 1);
      yoe := FindYear(doe, top - 1);
    }
  }

  // ---------------------------------------------------------------- months within a year

  /** Days of a March-based year before its month `mp`. */
  function MonthStart(mp: int): int {
    (153 * mp + 2) / 5
  }

  function MonthOfDay(doy: int): int {
    (5 * doy + 2) / 153
  }

  /** Days of month `mp` of March-based year `y`. */
  function MarchMonthLength(y: int, mp: int): int {
    if mp < 10 then MonthLength(y, mp + 3) else MonthLength(y + 1, mp - 9)
  }

  lemma MonthStarts(y: int, mp: int)
    requires 0 <= mp < 12
    ensures mp < 11 ==> MonthStart(mp + 1) == MonthStart(mp) + MarchMonthLength(y, mp)
    ensures mp == 11 ==> MonthStart(mp) == 337
    ensures MonthStart(mp) + MarchMonthLength(y, mp) <= 366
  {
    var m := mp;
    assert m == 0 || m == 1 || m == 2 || m == 3 || m == 4 || m == 5
        || m == 6 || m == 7 || m == 8 || m == 9 || m == 10 || m == 11;
  }

  lemma MonthOfDayIs(mp: int, day: int)
    requires 0 <= mp < 12 && 1 <= day
    requires if mp < 11 then MonthStart(mp) + day - 1 < MonthStart(mp + 1) else day <= 29
    ensures MonthOfDay(MonthStart(mp) + day - 1) == mp
  {
    var m := mp;
    assert m == 0 || m == 1 || m == 2 || m == 3 || m == 4 || m == 5
        || m == 6 || m == 7 || m == 8 || m == 9 || m == 10 || m == 11;
  }

  lemma MonthOfDayCovers(y: int, doy: int)
    requires 0 <= doy < 337 + MonthLength(y + 1, 2)
    ensures 0 <= MonthOfDay(doy) < 12
    ensures 1 <= doy - MonthStart(MonthOfDay(doy)) + 1 <= MarchMonthLength(y, MonthOfDay(doy))
  {
    var mp := MonthOfDay(doy);
    assert 153 * mp <= 5 * doy + 2 < 153 * mp + 153;
    assert mp == 0 || mp == 1 || mp == 2 || mp == 3 || mp == 4 || mp == 5
        || mp == 6 || mp == 7 || mp == 8 || mp == 9 || mp == 10 || mp == 11;
  }

  // ---------------------------------------------------------------- eras

  lemma EraIsFloor(y: int)
    ensures Era(y) == y / 400 && y - Era(y) * 400 == y % 400
  {
  }

  lemma EraOfDayIsFloor(z: int)
    ensures EraOfDay(z) == z / 146097 && z - EraOfDay(z) * 146097 == z % 146097
  {
  }

  lemma LeapOfEra(y: int)
    ensures 337 + MonthLength(y + 1, 2) == YearDays(y % 400)
  {
    var era, yoe := y / 400, y % 400;
    assert y + 1 == 400 * era + (yoe + 1);
    assert (y + 1) % 4 == (yoe + 1) % 4 && (y + 1) % 100 == (yoe + 1) % 100;
    assert (y + 1) % 400 == 0 <==> yoe + 1 == 400;
  }

  /** March-based year and month of a civil date. */
  function MarchYear(d: Date): int {
    if d.month <= 2 then d.year - 1 else d.year
  }

  function MarchMonth(d: Date): int {
    if d.month > 2 then d.month - 3 else d.month + 9
  }

  function DayOfYear(d: Date): int {
    MonthStart(MarchMonth(d)) + d.day - 1
  }

  lemma FromCivilParts(d: Date)
    requires 1 <= d.month <= 12
    ensures var y := MarchYear(d);
            DaysFromCivil(d) == 146097 * (y / 400) + YearStart(y % 400) + DayOfYear(d) - 719468
  {
    EraIsFloor(MarchYear(d));
  }

  lemma ToCivilParts(days: int)
    ensures var doe := (days + 719468) % 146097;
            var yoe := YearOfEra(doe);
            var doy := doe - YearStart(yoe);
            var y, mp := yoe + (days + 719468) / 146097 * 400, MonthOfDay(doy);
            && 0 <= yoe < 400 && 0 <= doy < YearDays(yoe) && 0 <= mp < 12
            && CivilFromDays(days) == (if mp < 10 then Date(y, mp + 3, doy - MonthStart(mp) + 1)
                                       else Date(y + 1, mp - 9, doy - MonthStart(mp) + 1))
  {
    hide YearOfEra, EraOfDay, YearDays, MonthLength;
    EraOfDayIsFloor(days + 719468);
    var doe := (days + 719468) % 146097;
    YearOfEraCovers(doe);
    var yoe := YearOfEra(doe);
    var doy := doe - YearStart(yoe);
    LeapOfEra(yoe);
    MonthOfDayCovers(yoe, doy);
  }

  // ---------------------------------------------------------------- the two directions

  /** Every day count is a valid Gregorian date, and that date counts back to it. */
  lemma DaysRoundTrip(days: int)
    ensures IsValid(CivilFromDays(days))
    ensures DaysFromCivil(CivilFromDays(days)) == days
  {
    hide CivilFromDays, DaysFromCivil, YearOfEra, YearStart, YearDays, MonthStart, MonthOfDay, MonthLength;
    ToCivilParts(days);
    var d := CivilFromDays(days);
    var era, doe := (days + 719468) / 146097, (days + 719468) % 146097;
    var yoe := YearOfEra(doe);
    var doy := doe - YearStart(yoe);
    var y := yoe + era * 400;
    assert MarchYear(d) == y && MarchMonth(d) == MonthOfDay(doy) && DayOfYear(d) == doy;
    QuotientIs(y, 400, era, yoe);
    LeapOfEra(y);
    MonthOfDayCovers(y, doy);
    FromCivilParts(d);
  }

  lemma DayOfYearInYear(d: Date)
    requires IsValid(d)
    ensures 0 <= DayOfYear(d) < YearDays(MarchYear(d) % 400)
    ensures MonthOfDay(DayOfYear(d)) == MarchMonth(d)
  {
    var y, mp := MarchYear(d), MarchMonth(d);
    LeapOfEra(y);
    MonthStarts(y, mp);
    MonthOfDayIs(mp, d.day);
  }

  /** Every valid date counts to a day that converts back to it. */
  lemma CivilRoundTrip(d: Date)
    requires IsValid(d)
    ensures CivilFromDays(DaysFromCivil(d)) == d
  {
    hide CivilFromDays, DaysFromCivil, YearOfEra, YearStart, YearDays, MonthStart, MonthOfDay;
    var y, doy, days := MarchYear(d), DayOfYear(d), DaysFromCivil(d);
    FromCivilParts(d);
    DayOfYearInYear(d);
    YearOfEraIs(y % 400, doy);
    var doe := YearStart(y % 400) + doy;
    assert days + 719468 == 146097 * (y / 400) + doe;
    QuotientIs(days + 719468, 146097, y / 400, doe);
    assert (days + 719468) % 146097 == doe;
    ToCivilParts(days);
    assert y % 400 + y / 400 * 400 == y;
  }

  /** The day count is the calendar's: day zero is 1 January 1970. */
  lemma EpochIsZero()
    ensures CivilFromDays(0) == Date(1970, 1, 1) && DaysFromCivil(Date(1970, 1, 1)) == 0
  {
    hide CivilFromDays;
    CivilRoundTrip(Date(1970, 1, 1));
  }

  lemma NextYear(y: int)
    ensures if y % 400 == 399 then (y + 1) / 400 == y / 400 + 1 && (y + 1) % 400 == 0
            else (y + 1) / 400 == y / 400 && (y + 1) % 400 == y % 400 + 1
  {
  }

  lemma YearBoundary(y: int)
    ensures 146097 * ((y + 1) / 400) + YearStart((y + 1) % 400)
         == 146097 * (y / 400) + YearStart(y % 400) + YearDays(y % 400)
  {
    NextYear(y);
    YearSteps(y % 400);
  }

  lemma MarchBegins(d: Date, n: Date)
    requires IsValid(d) && d.month == 2 && d.day == MonthLength(d.year, 2) && n == Date(d.year, 3, 1)
    ensures DaysFromCivil(n) == DaysFromCivil(d) + 1
  {
    hide DaysFromCivil, YearStart, YearDays, MonthLength;
    var y := d.year - 1;
    FromCivilParts(d);
    FromCivilParts(n);
    LeapOfEra(y);
    YearBoundary(y);
    assert DayOfYear(d) + 1 == 337 + MonthLength(d.year, 2) && DayOfYear(n) == 0;
  }

  lemma NextDayCounts(d: Date)
    requires IsValid(d)
    ensures IsValid(NextDay(d)) && DaysFromCivil(NextDay(d)) == DaysFromCivil(d) + 1
  {
    hide DaysFromCivil;
    var n := NextDay(d);
    if d.day == MonthLength(d.year, d.month) && d.month == 2 {
      MarchBegins(d, n);
    } else {
      FromCivilParts(d);
      FromCivilParts(n);
      MonthStarts(MarchYear(d), MarchMonth(d));
      hide YearStart, MonthStart;
      assert MarchYear(n) == MarchYear(d);
    }
  }

  /** Consecutive day counts are consecutive calendar days. */
  lemma DaysAreConsecutive(days: int)
    ensures CivilFromDays(days + 1) == NextDay(CivilFromDays(days))
  {
    hide CivilFromDays, DaysFromCivil, NextDay;
    DaysRoundTrip(days);
    NextDayCounts(CivilFromDays(days));
    CivilRoundTrip(NextDay(CivilFromDays(days)));
  }

  // ---------------------------------------------------------------- months and intervals

  const MICROS_PER_DAY := 86_400 * 1_000_000

  datatype Interval = Interval(months: int, days: int, micros: int)

  predicate IsInterval(iv: Interval) {
    IsI32(iv.months) && IsI32(iv.days) && IsI64(iv.micros)
  }

  function DaysInMonth(year: int, month: int): int {
    var first := DaysFromCivil(Date(year, month, 1));
    var next := if month == 12 then DaysFromCivil(Date(year + 1, 1, 1)) else DaysFromCivil(Date(year, month + 1, 1));
    next - first
  }

  /** The difference of two day counts is the month's length in the calendar. */
  lemma DaysInMonthIs(year: int, month: int)
    requires 1 <= month <= 12
    ensures DaysInMonth(year, month) == MonthLength(year, month)
  {
    hide DaysFromCivil;
    var last := Date(year, month, MonthLength(year, month));
    NextDayCounts(last);
    FromCivilParts(last);
    FromCivilParts(Date(year, month, 1));
  }

  function AddMonths(days: int, months: int): int {
    var d := CivilFromDays(days);
    var total := d.year * 12 + (d.month - 1) + months;
    var year, month := total / 12, total % 12 + 1;
    var length := DaysInMonth(year, month);
    DaysFromCivil(Date(year, month, if d.day < length then d.day else length))
  }

  function MonthIndex(d: Date): int {
    d.year * 12 + (d.month - 1)
  }

  /** The month moves by exactly `months`; the day is the old one, clamped to the length of
      the month it lands in. */
  lemma AddMonthsMoves(days: int, months: int)
    ensures MonthsLater(CivilFromDays(days), months, CivilFromDays(AddMonths(days, months)))
  {
    hide CivilFromDays, DaysFromCivil, DaysInMonth;
    DaysRoundTrip(days);
    var d := CivilFromDays(days);
    var total := MonthIndex(d) + months;
    var year, month := total / 12, total % 12 + 1;
    DaysInMonthIs(year, month);
    var length := MonthLength(year, month);
    var e := Date(year, month, if d.day < length then d.day else length);
    CivilRoundTrip(e);
    assert total == 12 * year + (month - 1);
  }

  lemma SameMonth(d: Date, e: Date)
    requires 1 <= d.month <= 12 && 1 <= e.month <= 12 && MonthIndex(d) == MonthIndex(e)
    ensures d.year == e.year && d.month == e.month
  {
  }

  /** Adding no months changes no day; adding months and taking them away again restores
      the day exactly when the month in between is long enough. */
  lemma AddMonthsUndone(days: int, months: int)
    ensures AddMonths(days, 0) == days
    ensures AddMonths(AddMonths(days, months), -months) == days
       <==> CivilFromDays(AddMonths(days, months)).day == CivilFromDays(days).day
  {
    hide CivilFromDays, DaysFromCivil, AddMonths, MonthLength, MonthIndex;
    AddMonthsNone(days);
    var there := AddMonths(days, months);
    var back := AddMonths(there, -months);
    var d, m, e := CivilFromDays(days), CivilFromDays(there), CivilFromDays(back);
    AddMonthsMoves(days, months);
    AddMonthsMoves(there, -months);
    DaysRoundTrip(days);
    DaysRoundTrip(back);
    SameMonth(d, e);
  }

  lemma AddMonthsNone(days: int)
    ensures AddMonths(days, 0) == days
  {
    hide CivilFromDays, DaysFromCivil, AddMonths, MonthLength, MonthIndex;
    var back := AddMonths(days, 0);
    AddMonthsMoves(days, 0);
    DaysRoundTrip(days);
    DaysRoundTrip(back);
    SameMonth(CivilFromDays(days), CivilFromDays(back));
  }

  function CheckedI64(x: int): Option<int> {
    if IsI64(x) then Some(x) else None
  }

  function AddInterval(micros: int, iv: Interval): Option<int> {
    var days1 := AddMonths(micros / MICROS_PER_DAY, iv.months);
    var days2 := days1 + iv.days;
    if !IsI64(days2) || !IsI64(days2 * MICROS_PER_DAY) then None
    else
      var midnight := days2 * MICROS_PER_DAY + micros % MICROS_PER_DAY;
      if !IsI64(midnight) then None else CheckedI64(midnight + iv.micros)
  }

  /** `e` is `months` later than `d`: the month moves by exactly that, and the day is the old one,
      or the last of the month if the month is too short for it. */
  predicate MonthsLater(d: Date, months: int, e: Date) {
    && IsValid(e) && MonthIndex(e) == MonthIndex(d) + months
    && e.day == if d.day < MonthLength(e.year, e.month) then d.day else MonthLength(e.year, e.month)
  }

  lemma MonthsLaterIsUnique(d: Date, months: int, e: Date, f: Date)
    requires MonthsLater(d, months, e) && MonthsLater(d, months, f)
    ensures e == f
  {
    SameMonth(e, f);
  }

  /** The sums of an addition in their order: the days, in microseconds, with the time of day, and
      with the microseconds of the interval. */
  predicate SumsFit(day: int, timeOfDay: int, micros: int) {
    && IsI64(day) && IsI64(day * MICROS_PER_DAY) && IsI64(day * MICROS_PER_DAY + timeOfDay)
    && IsI64(day * MICROS_PER_DAY + timeOfDay + micros)
  }

  /** For every timestamp and interval: `to` is the date the months lead to, and from its count on
      days and microseconds are added. There is no result if and only if one of the sums does not
      fit. */
  lemma AddIntervalIs(micros: int, iv: Interval, to: Date)
    requires MonthsLater(CivilFromDays(micros / MICROS_PER_DAY), iv.months, to)
    ensures var day, timeOfDay := DaysFromCivil(to) + iv.days, micros % MICROS_PER_DAY;
            AddInterval(micros, iv)
            == if SumsFit(day, timeOfDay, iv.micros) then Some(day * MICROS_PER_DAY + timeOfDay + iv.micros) else None
  {
    hide AddMonths, CivilFromDays, DaysFromCivil, MonthLength, MonthIndex;
    var days := micros / MICROS_PER_DAY;
    AddMonthsMoves(days, iv.months);
    MonthsLaterIsUnique(CivilFromDays(days), iv.months, to, CivilFromDays(AddMonths(days, iv.months)));
    DaysRoundTrip(AddMonths(days, iv.months));
  }

  /** Without the days and microseconds of the interval, a result has the time of day of the start,
      and its date is the months of the interval later. */
  lemma AddIntervalMoves(micros: int, iv: Interval)
    requires AddInterval(micros, iv).Some?
    ensures var rest := AddInterval(micros, iv).value - iv.micros - iv.days * MICROS_PER_DAY;
            && rest % MICROS_PER_DAY == micros % MICROS_PER_DAY
            && MonthsLater(CivilFromDays(micros / MICROS_PER_DAY), iv.months, CivilFromDays(rest / MICROS_PER_DAY))
  {
    hide AddMonths, CivilFromDays, DaysFromCivil, MonthLength, MonthIndex;
    AddMonthsMoves(micros / MICROS_PER_DAY, iv.months);
  }

  /** An interval without months is plain addition of its days and microseconds. */
  lemma AddIntervalWithoutMonths(micros: int, iv: Interval)
    requires iv.months == 0
    ensures AddInterval(micros, iv)
         == if SumsFit(micros / MICROS_PER_DAY + iv.days, micros % MICROS_PER_DAY, iv.micros)
            then Some(micros + iv.days * MICROS_PER_DAY + iv.micros) else None
  {
    hide AddMonths, CivilFromDays, DaysFromCivil, MonthLength, MonthIndex;
    var days := micros / MICROS_PER_DAY;
    DaysRoundTrip(days);
    assert MonthsLater(CivilFromDays(days), 0, CivilFromDays(days)) by {
      AddMonthsMoves(days, 0);
      AddMonthsNone(days);
    }
    AddIntervalIs(micros, iv, CivilFromDays(days));
  }

  // ---------------------------------------------------------------- no unchecked overflow

  /** Every intermediate value of `civil_from_days` fits `i64`. */
  predicate CivilFromDaysFits(days: int) {
    var z := days + 719468;
    var era := EraOfDay(z);
    var doe := z - era * 146097;
    var yoe := YearOfEra(doe);
    && IsI64(days) && IsI64(z) && (z < 0 ==> IsI64(z - 146096)) && IsI64(era * 146097) && IsI64(doe)
    && IsI64(doe - doe / 1460 + doe / 36524) && IsI64(era * 400) && IsI64(yoe + era * 400) && IsI64(yoe + era * 400 + 1)
    && IsI64(365 * yoe) && IsI64(5 * (doe - YearStart(yoe)) + 2)
  }

  /** `civil_from_days` is free of overflow up to the last 719468 day counts. */
  lemma CivilFromDaysFitsIff(days: int)
    requires IsI64(days)
    ensures CivilFromDaysFits(days) <==> days <= I64_MAX - 719468
  {
    var z := days + 719468;
    EraOfDayIsFloor(z);
    YearOfEraCovers(z % 146097);
    hide YearOfEra, EraOfDay;
  }

  /** Every intermediate value of `days_from_civil` fits `i64`. */
  predicate DaysFromCivilFits(d: Date) {
    var y := MarchYear(d);
    var era := Era(y);
    var yoe := y - era * 400;
    && IsI64(d.year) && IsI64(y) && (y < 0 ==> IsI64(y - 399)) && IsI64(era * 400) && IsI64(yoe * 365)
    && IsI64(DayOfYear(d)) && IsI64(YearStart(yoe) + DayOfYear(d))
    && IsI64(era * 146097) && IsI64(era * 146097 + YearStart(yoe) + DayOfYear(d)) && IsI64(DaysFromCivil(d))
  }

  /** The first and the last date whose day count `days_from_civil` computes without overflow. */
  const FIRST_DATE: Date := Date(-25_252_734_927_764_585, 6, 7)
  const LAST_DATE: Date := Date(25_252_734_927_766_554, 9, 25)

  predicate Before(d: Date, e: Date) {
    d.year < e.year || (d.year == e.year && (d.month < e.month || (d.month == e.month && d.day < e.day)))
  }

  /** The day count of the first of March. */
  function MarchFirst(y: int): int {
    146097 * (y / 400) + YearStart(y % 400)
  }

  lemma {:induction false} YearsApart(a: int, b: int)
    requires a <= b
    ensures MarchFirst(a) + 365 * (b - a) <= MarchFirst(b)
    decreases b - a
  {
    if a < b {
      YearsApart(a, b - 1);
      YearBoundary(b - 1);
    }
  }

  lemma MonthsApart(a: int, b: int)
    requires 0 <= a <= b <= 11
    ensures MonthStart(a) + 30 * (b - a) <= MonthStart(b)
  {
  }

  /** Around a date in the middle of a month, day counts follow the order of dates, those of days
      that a month does not have included. */
  lemma CountsInOrder(d: Date, e: Date)
    requires 1 <= d.month <= 12 && 1 <= d.day <= 31 && 5 <= e.month <= 12 && 4 <= e.day <= 30
    ensures Before(d, e) ==> DaysFromCivil(d) < DaysFromCivil(e)
    ensures Before(e, d) ==> DaysFromCivil(e) < DaysFromCivil(d)
  {
    hide DaysFromCivil, YearStart;
    FromCivilParts(d);
    FromCivilParts(e);
    var y, z := MarchYear(d), MarchYear(e);
    if y < z {
      YearsApart(y, z);
      MonthsApart(2, MarchMonth(e));
    } else if z < y {
      YearsApart(z, y);
    } else if MarchMonth(d) < MarchMonth(e) {
      MonthsApart(MarchMonth(d), MarchMonth(e));
    } else {
      MonthsApart(MarchMonth(e), MarchMonth(d));
    }
  }

  lemma BoundaryCounts()
    ensures DaysFromCivil(FIRST_DATE) == I64_MIN
    ensures DaysFromCivil(LAST_DATE) == I64_MAX - 719468
  {
    hide DaysFromCivil;
    FromCivilParts(FIRST_DATE);
    FromCivilParts(LAST_DATE);
    QuotientIs(FIRST_DATE.year, 400, -63_131_837_319_412, 215);
    QuotientIs(LAST_DATE.year, 400, 63_131_837_319_416, 154);
    assert FIRST_DATE.year % 400 == 215 && LAST_DATE.year % 400 == 154;
    assert YearStart(215) == 78526 && YearStart(154) == 56247;
    assert DayOfYear(FIRST_DATE) == 98 && DayOfYear(LAST_DATE) == 208;
  }

  lemma FitsByCount(d: Date)
    requires IsI64(d.year) && 1 <= d.month <= 12 && 1 <= d.day <= 31
    ensures DaysFromCivilFits(d) <==> I64_MIN <= DaysFromCivil(d) <= I64_MAX - 719468
  {
    hide DaysFromCivil;
    var y := MarchYear(d);
    EraIsFloor(y);
    FromCivilParts(d);
    hide Era;
    assert 0 <= YearStart(y % 400) <= 145732 && 0 <= MonthStart(MarchMonth(d)) <= 337;
  }

  /** `days_from_civil` is free of overflow from the first date to the last and nowhere else. */
  lemma DaysFromCivilFitsIff(d: Date)
    requires IsI64(d.year) && 1 <= d.month <= 12 && 1 <= d.day <= 31
    ensures DaysFromCivilFits(d) <==> !Before(d, FIRST_DATE) && !Before(LAST_DATE, d)
  {
    hide DaysFromCivil, DaysFromCivilFits;
    FitsByCount(d);
    CountsInOrder(d, FIRST_DATE);
    CountsInOrder(d, LAST_DATE);
    BoundaryCounts();
  }

  lemma DaysFromCivilFitsIn(d: Date)
    requires 1 <= d.month <= 12 && 1 <= d.day <= 31 && -1_000_000_000_000 <= d.year <= 1_000_000_000_000
    ensures DaysFromCivilFits(d)
    ensures -366_000_000_000_000 <= DaysFromCivil(d) <= 366_000_000_000_000
  {
    hide DaysFromCivil;
    var y := MarchYear(d);
    EraIsFloor(y);
    FromCivilParts(d);
    hide Era;
    assert 0 <= YearStart(y % 400) <= 146097 && 0 <= MonthStart(MarchMonth(d)) <= 337;
    assert -2_500_000_001 <= y / 400 <= 2_500_000_000;
  }

  lemma YearIsBounded(days: int, bound: int)
    requires -146097 * bound <= days + 719468 < 146097 * bound
    ensures -400 * bound <= CivilFromDays(days).year <= 400 * bound
  {
    hide CivilFromDays;
    ToCivilParts(days);
    hide YearOfEra;
    var era := (days + 719468) / 146097;
    assert -bound <= era < bound;
  }

  /** Adding any interval to any timestamp never overflows an unchecked operation: the
      conversions and the month arithmetic stay in `i64`, whatever the result. */
  lemma AddIntervalFits(micros: int, iv: Interval)
    requires IsI64(micros) && IsInterval(iv)
    ensures var days0 := micros / MICROS_PER_DAY;
            var d := CivilFromDays(days0);
            var total := d.year * 12 + (d.month - 1) + iv.months;
            var year, month := total / 12, total % 12 + 1;
            && CivilFromDaysFits(days0) && IsI64(d.year * 12) && IsI64(total)
            && DaysFromCivilFits(Date(year, month, 1))
            && DaysFromCivilFits(if month == 12 then Date(year + 1, 1, 1) else Date(year, month + 1, 1))
            && DaysFromCivilFits(Date(year, month, CivilFromDays(AddMonths(days0, iv.months)).day))
            && IsI64(AddMonths(days0, iv.months))
  {
    hide CivilFromDays, DaysFromCivil, DaysFromCivilFits, CivilFromDaysFits, AddMonths;
    var days0 := micros / MICROS_PER_DAY;
    assert -106_751_992 <= days0 <= 106_751_991;
    CivilFromDaysFitsIff(days0);
    YearIsBounded(days0, 736);
    DaysRoundTrip(days0);
    var d := CivilFromDays(days0);
    var total := d.year * 12 + (d.month - 1) + iv.months;
    var year, month := total / 12, total % 12 + 1;
    DaysFromCivilFitsIn(Date(year, month, 1));
    DaysFromCivilFitsIn(if month == 12 then Date(year + 1, 1, 1) else Date(year, month + 1, 1));
    AddMonthsMoves(days0, iv.months);
    var e := CivilFromDays(AddMonths(days0, iv.months));
    assert e.year == year && e.month == month by {
      assert MonthIndex(e) == total && total == 12 * year + (month - 1);
      assert MonthIndex(e) / 12 == e.year;
    }
    DaysFromCivilFitsIn(e);
    DaysRoundTrip(AddMonths(days0, iv.months));
  }
}
