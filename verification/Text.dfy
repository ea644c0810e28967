/** Printing and parsing of integers, and splitting of text, as the standard library of the
    program's language does it. */
module Text {
  import opened Options

  predicate IsDigit(c: char) { '0' <= c <= '9' }

  /** `char::is_whitespace`: the Unicode White_Space property. */
  predicate IsWhitespace(c: char) {
    var u := c as int;
    0x9 <= u <= 0xD || u == 0x20 || u == 0x85 || u == 0xA0 || u == 0x1680 || 0x2000 <= u <= 0x200A
    || u == 0x2028 || u == 0x2029 || u == 0x202F || u == 0x205F || u == 0x3000
  }

  function Digit(n: nat): (c: char)
    requires n < 10
    ensures IsDigit(c) && DigitValue(c) == n
  {
    ('0' as int + n) as char
  }

  function DigitValue(c: char): (n: nat)
    requires IsDigit(c)
    ensures n < 10
  {
    c as int - '0' as int
  }

  predicate AllDigits(s: string) {
    forall i | 0 <= i < |s| :: IsDigit(s[i])
  }

  function Value(s: string): nat
    requires AllDigits(s)
  {
    if s == "" then 0 else 10 * Value(s[..|s| - 1]) + DigitValue(s[|s| - 1])
  }

  function Pow10(n: nat): (p: nat)
    ensures p >= 1
  {
    if n == 0 then 1 else 10 * Pow10(n - 1)
  }

  // ---------------------------------------------------------------- printing

  function PrintNat(n: nat): (s: string)
    ensures AllDigits(s) && s != "" && Value(s) == n
  {
    if n < 10 then [Digit(n)]
    else
      var s := PrintNat(n / 10);
      assert (s + [Digit(n % 10)])[..|s|] == s;
      s + [Digit(n % 10)]
  }

  function PrintInt(n: int): string {
    if n < 0 then "-" + PrintNat(-n) else PrintNat(n)
  }

  function Zeros(n: nat): (s: string)
    ensures |s| == n && AllDigits(s) && Value(s) == 0
  {
    if n == 0 then ""
    else
      var s := Zeros(n - 1);
      assert (s + "0")[..|s|] == s;
      s + "0"
  }

  /** `{n:0w}` for a number that is not negative: padded with zeros to width `w`. */
  function Padded(n: nat, w: nat): (s: string)
    ensures AllDigits(s) && s != "" && Value(s) == n && |s| >= w
    ensures n < Pow10(w) && w > 0 ==> |s| == w
  {
    var s := PrintNat(n);
    if |s| >= w then
      DigitsBound(n, w);
      s
    else
      ValueAfterZeros(w - |s|, s);
      Zeros(w - |s|) + s
  }

  lemma {:induction false} ValueAfterZeros(k: nat, s: string)
    requires AllDigits(s)
    ensures AllDigits(Zeros(k) + s) && Value(Zeros(k) + s) == Value(s)
  {
    if s == "" {
      assert Zeros(k) + s == Zeros(k);
    } else {
      var n := |s| - 1;
      ValueAfterZeros(k, s[..n]);
      assert (Zeros(k) + s)[..k + n] == Zeros(k) + s[..n];
    }
  }

  lemma {:induction false} DigitsBound(n: nat, w: nat)
    ensures n < Pow10(w) && w > 0 ==> |PrintNat(n)| <= w
  {
    if n >= 10 && n < Pow10(w) && w > 0 {
      assert w > 1;
      DigitsBound(n / 10, w - 1);
    }
  }

  // ---------------------------------------------------------------- parsing

  /** An unsigned decimal number: at least one digit, nothing else. */
  function ParseDigits(s: string): Option<nat> {
    if s != "" && AllDigits(s) then Some(Value(s)) else None
  }

  /** A decimal numeral with or without a sign. */
  predicate Numeral(s: string, n: int) {
    var digits := if s != "" && (s[0] == '+' || s[0] == '-') then s[1..] else s;
    && digits != "" && AllDigits(digits)
    && var value: int := Value(digits); n == if s[0] == '-' then -value else value
  }

  /** A decimal numeral that may have a plus sign and no other. */
  predicate UnsignedNumeral(s: string, n: nat) {
    var digits := if s != "" && s[0] == '+' then s[1..] else s;
    digits != "" && AllDigits(digits) && n == Value(digits)
  }

  /** `from_str` of a signed integer type with the given range. */
  function ParseSigned(s: string, min: int, max: int): Option<int> {
    var digits := if s != "" && (s[0] == '+' || s[0] == '-') then s[1..] else s;
    var n := ParseDigits(digits);
    if n.None? then None
    else
      var k: int := n.value;
      var v := if s[0] == '-' then -k else k;
      if min <= v <= max then Some(v) else None
  }

  /** `from_str` of an unsigned integer type with the given maximum. */
  function ParseUnsigned(s: string, max: int): Option<int> {
    var digits := if s != "" && s[0] == '+' then s[1..] else s;
    var n := ParseDigits(digits);
    if n.Some? && n.value <= max then Some(n.value) else None
  }

  /** Printed integers parse back. */
  lemma ParsePrintInt(n: int, min: int, max: int)
    requires min <= n <= max
    ensures ParseSigned(PrintInt(n), min, max) == Some(n)
  {
    if n < 0 {
      assert PrintInt(n)[1..] == PrintNat(-n);
    }
  }

  lemma ParseDigitsAre(s: string, min: int, max: int)
    requires s != "" && AllDigits(s) && min <= Value(s) <= max
    ensures ParseSigned(s, min, max) == Some(Value(s)) && ParseUnsigned(s, max) == Some(Value(s))
  {
    assert IsDigit(s[0]);
  }

  // ---------------------------------------------------------------- splitting

  /** `splitn(2, sep)`: the text before and after the first separator, if there is one. */
  function SplitOnce(s: string, sep: char): (r: Option<(string, string)>)
    ensures r.None? <==> sep !in s
    ensures r.Some? ==> s == r.value.0 + [sep] + r.value.1 && sep !in r.value.0
  {
    if s == "" then None
    else if s[0] == sep then Some(("", s[1..]))
    else
      var r := SplitOnce(s[1..], sep);
      if r.None? then None
      else
        assert s == [s[0]] + s[1..];
        Some(([s[0]] + r.value.0, r.value.1))
  }

  lemma {:induction false} SplitOnceIs(a: string, sep: char, b: string)
    requires sep !in a
    ensures SplitOnce(a + [sep] + b, sep) == Some((a, b))
  {
    var s := a + [sep] + b;
    if a == "" {
      assert s[1..] == b;
    } else {
      SplitOnceIs(a[1..], sep, b);
      assert s[1..] == a[1..] + [sep] + b;
      assert [a[0]] + a[1..] == a;
    }
  }

  /** `trim` */
  function Trim(s: string): (r: string)
    ensures s != "" && !IsWhitespace(s[0]) && !IsWhitespace(s[|s| - 1]) ==> r == s
  {
    if s == "" then ""
    else if IsWhitespace(s[0]) then Trim(s[1..])
    else if IsWhitespace(s[|s| - 1]) then Trim(s[..|s| - 1])
    else s
  }

  predicate AllSpace(s: string) {
    forall i | 0 <= i < |s| :: IsWhitespace(s[i])
  }

  predicate IsToken(t: string) {
    t != "" && forall i | 0 <= i < |t| :: !IsWhitespace(t[i])
  }

  /** The end of the run of non-space characters that starts at `i`. */
  function WordEnd(s: string, i: nat): (j: nat)
    requires i <= |s|
    ensures i <= j <= |s|
    ensures forall k | i <= k < j :: !IsWhitespace(s[k])
    ensures j < |s| ==> IsWhitespace(s[j])
    decreases |s| - i
  {
    if i == |s| || IsWhitespace(s[i]) then i else WordEnd(s, i + 1)
  }

  /** `split_whitespace`: the maximal runs of non-space characters, from `i` on. */
  function Words(s: string, i: nat): seq<string>
    requires i <= |s|
    decreases |s| - i
  {
    if i == |s| then []
    else if IsWhitespace(s[i]) then Words(s, i + 1)
    else
      var j := WordEnd(s, i);
      [s[i..j]] + Words(s, j)
  }

  /** `join(" ")` */
  function Join(ts: seq<string>): string {
    if ts == [] then ""
    else if |ts| == 1 then ts[0]
    else ts[0] + " " + Join(ts[1..])
  }

  lemma {:induction false} WordEndIs(s: string, i: nat, j: nat)
    requires i <= j <= |s|
    requires forall k | i <= k < j :: !IsWhitespace(s[k])
    requires j < |s| ==> IsWhitespace(s[j])
    ensures WordEnd(s, i) == j
    decreases j - i
  {
    if i < j {
      WordEndIs(s, i + 1, j);
    }
  }

  /** Splitting what was joined by single spaces gives the tokens back. */
  lemma {:induction false} WordsOfJoin(pre: string, ts: seq<string>)
    requires forall t | t in ts :: IsToken(t)
    ensures Words(pre + Join(ts), |pre|) == ts
    decreases |ts|
  {
    var s, n := pre + Join(ts), |pre|;
    if ts != [] {
      var t := ts[0];
      assert t in ts;
      assert s[n..n + |t|] == t;
      assert forall k | n <= k < n + |t| :: s[k] == t[k - n];
      if |ts| == 1 {
        WordEndIs(s, n, n + |t|);
        assert Words(s, n + |t|) == [];
      } else {
        var pre' := pre + t + " ";
        assert s == pre' + Join(ts[1..]);
        assert s[n + |t|] == ' ';
        WordEndIs(s, n, n + |t|);
        WordsOfJoin(pre', ts[1..]);
      }
    }
  }
}
