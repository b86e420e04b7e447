/** String helpers that reproduce the JavaScript string behaviour the
    application relies on: `String.prototype.trim`, `Array.prototype.join`
    and the decimal rendering of numbers inside template literals. */
module Text {
  import opened Wrappers

  /** The characters `String.prototype.trim` strips: the ECMAScript
      WhiteSpace set (TAB, VT, FF, SP, NBSP, ZWNBSP and the Zs category)
      and the LineTerminator set (LF, CR, LS, PS). */
  predicate IsSpace(c: char) {
    var n := c as int;
    n == 0x09 || n == 0x0A || n == 0x0B || n == 0x0C || n == 0x0D ||
    n == 0x20 || n == 0xA0 || n == 0x1680 || (0x2000 <= n <= 0x200A) ||
    n == 0x2028 || n == 0x2029 || n == 0x202F || n == 0x205F ||
    n == 0x3000 || n == 0xFEFF
  }

  /** Leading whitespace removed (`TrimStartStrips` states what is kept). */
  function TrimStart(s: string): (r: string)
    ensures |r| <= |s|
  {
    if |s| > 0 && IsSpace(s[0]) then TrimStart(s[1..]) else s
  }

  /** Trailing whitespace removed (`TrimEndStrips` states what is kept). */
  function TrimEnd(s: string): (r: string)
    ensures |r| <= |s|
  {
    if |s| > 0 && IsSpace(s[|s| - 1]) then TrimEnd(s[..|s| - 1]) else s
  }

  /** `TrimStart(s)` is the longest suffix of `s` that does not start with
      whitespace. */
  lemma {:induction false} TrimStartStrips(s: string)
    ensures var r := TrimStart(s);
      r == s[|s| - |r|..] &&
      (forall k :: 0 <= k < |s| - |r| ==> IsSpace(s[k])) &&
      (r != [] ==> !IsSpace(r[0]))
  {
    if |s| > 0 && IsSpace(s[0]) {
      TrimStartStrips(s[1..]);
      assert forall k :: 1 <= k < |s| ==> s[k] == s[1..][k - 1];
    }
  }

  /** `TrimEnd(s)` is the longest prefix of `s` that does not end with
      whitespace. */
  lemma {:induction false} TrimEndStrips(s: string)
    ensures var r := TrimEnd(s);
      r == s[..|r|] &&
      (forall k :: |r| <= k < |s| ==> IsSpace(s[k])) &&
      (r != [] ==> !IsSpace(r[|r| - 1]))
  {
    if |s| > 0 && IsSpace(s[|s| - 1]) {
      TrimEndStrips(s[..|s| - 1]);
    }
  }

  /** `s.trim()`. */
  function Trim(s: string): string {
    TrimEnd(TrimStart(s))
  }

  /** `!s.trim()`: the string is nothing but whitespace, so trimming
      leaves the empty, falsy string (`BlankIffTrimEmpty`). */
  predicate IsBlank(s: string) {
    |s| == 0 || (IsSpace(s[0]) && IsBlank(s[1..]))
  }

  /** A string is blank exactly when every character of it is whitespace. */
  lemma {:induction false} BlankIffAllSpace(s: string)
    ensures IsBlank(s) <==> forall k :: 0 <= k < |s| ==> IsSpace(s[k])
  {
    if |s| > 0 {
      BlankIffAllSpace(s[1..]);
      assert forall k :: 1 <= k < |s| ==> s[k] == s[1..][k - 1];
    }
  }

  /** A string is blank exactly when its trim is empty. */
  lemma BlankIffTrimEmpty(s: string)
    ensures IsBlank(s) <==> Trim(s) == ""
  {
    BlankIffAllSpace(s);
    TrimStartStrips(s);
    var t := TrimStart(s);
    TrimEndStrips(t);
    if Trim(s) != "" {
      assert !IsSpace(t[0]);
    }
  }

  /** A string with no whitespace at either end is its own trim. */
  lemma TrimOfTrimmed(s: string)
    requires s == [] || (!IsSpace(s[0]) && !IsSpace(s[|s| - 1]))
    ensures Trim(s) == s
  {
  }

  /** Trimming twice is trimming once. */
  lemma TrimIdempotent(s: string)
    ensures Trim(Trim(s)) == Trim(s)
  {
    TrimStartStrips(s);
    var t := TrimStart(s);
    TrimEndStrips(t);
    var r := TrimEnd(t);
    if r != [] {
      assert r[0] == t[0];
    }
    TrimOfTrimmed(r);
  }

  /** `parts.join(sep)`. */
  function Join(parts: seq<string>, sep: string): string
  {
    if |parts| == 0 then ""
    else if |parts| == 1 then parts[0]
    else parts[0] + sep + Join(parts[1..], sep)
  }

  /** A character that occurs in neither the parts nor the separator does
      not occur in their join. */
  lemma {:induction false} JoinAvoids(parts: seq<string>, sep: string, c: char)
    requires forall k :: 0 <= k < |parts| ==> c !in parts[k]
    requires c !in sep
    ensures c !in Join(parts, sep)
  {
    if |parts| > 1 {
      JoinAvoids(parts[1..], sep, c);
    }
  }

  function DigitChar(d: int): (c: char)
    requires 0 <= d < 10
    ensures '0' <= c <= '9'
    ensures c as int - '0' as int == d
  {
    ('0' as int + d) as char
  }

  /** Decimal digits of a natural number, without leading zeros. */
  function NatToString(n: nat): (r: string)
    ensures |r| >= 1
    ensures forall k :: 0 <= k < |r| ==> '0' <= r[k] <= '9'
    ensures r[0] == '0' ==> n == 0
  {
    if n < 10 then [DigitChar(n)] else NatToString(n / 10) + [DigitChar(n % 10)]
  }

  /** The number a string of decimal digits denotes. */
  function DigitsValue(s: string): nat
    requires forall k :: 0 <= k < |s| ==> '0' <= s[k] <= '9'
  {
    if s == [] then 0
    else DigitsValue(s[..|s| - 1]) * 10 + (s[|s| - 1] as int - '0' as int)
  }

  /** Reading the digits back gives the number. */
  lemma {:induction false} NatToStringValue(n: nat)
    ensures DigitsValue(NatToString(n)) == n
  {
    if n >= 10 {
      NatToStringValue(n / 10);
      var r := NatToString(n);
      assert r[..|r| - 1] == NatToString(n / 10);
    }
  }

  /** `${n}` for an integer-valued number. */
  function IntToString(n: int): (r: string)
    ensures forall k :: 0 <= k < |r| ==> r[k] == '-' || '0' <= r[k] <= '9'
    ensures (|r| > 0 && r[0] == '-') <==> n < 0
  {
    if n < 0 then "-" + NatToString(-n) else NatToString(n)
  }

  /** The sign and the digits of `IntToString(n)` give back `n`. */
  lemma IntToStringValue(n: int)
    ensures n >= 0 ==> DigitsValue(IntToString(n)) == n
    ensures n < 0 ==> DigitsValue(IntToString(n)[1..]) == -n
  {
    if n < 0 {
      NatToStringValue(-n);
      assert IntToString(n)[1..] == NatToString(-n);
    } else {
      NatToStringValue(n);
    }
  }

  /** `${x}` for a JavaScript number `x` that is a whole number of
      hundredths: `hundredths / 100` with trailing zeros of the fraction
      dropped, as JavaScript's shortest round-trip rendering gives it. */
  function HundredthsToString(hundredths: int): (r: string)
    ensures NumberChars(r)
    ensures ('.' in r) <==> hundredths % 100 != 0
  {
    HundredthsNegated(hundredths);
    if hundredths < 0 then
      var u := UnsignedText(-hundredths);
      NumberCharsConcat("-", u);
      "-" + u
    else UnsignedText(hundredths)
  }

  /** The rendering of `m` hundredths without a sign: the whole part, then
      the fraction part. */
  function UnsignedText(m: nat): (r: string)
    ensures NumberChars(r)
    ensures ('.' in r) <==> m % 100 != 0
  {
    var whole := NatToString(m / 100);
    var frac := FractionText(m % 100);
    assert '.' !in whole;
    NumberCharsConcat(whole, frac);
    whole + frac
  }

  /** Every character is a sign, a point or a digit. */
  predicate NumberChars(s: string) {
    forall k :: 0 <= k < |s| ==> s[k] == '-' || s[k] == '.' || '0' <= s[k] <= '9'
  }

  lemma NumberCharsConcat(a: string, b: string)
    requires NumberChars(a) && NumberChars(b)
    ensures NumberChars(a + b)
  {
    forall k | 0 <= k < |a + b| ensures (a + b)[k] == '-' || (a + b)[k] == '.' || '0' <= (a + b)[k] <= '9' {
      if k >= |a| {
        assert (a + b)[k] == b[k - |a|];
      }
    }
  }

  /** The fraction part of `HundredthsToString` for `f` hundredths:
      nothing for zero, else a point and one or two digits. */
  function FractionText(f: nat): (r: string)
    requires f < 100
    ensures NumberChars(r)
    ensures '.' in r <==> f != 0
  {
    if f == 0 then ""
    else if f % 10 == 0 then "." + [DigitChar(f / 10)]
    else "." + [DigitChar(f / 10), DigitChar(f % 10)]
  }

  // ----- reading a decimal number back -----

  /** Every character is a decimal digit. */
  predicate AllDigits(s: string) {
    forall k :: 0 <= k < |s| ==> '0' <= s[k] <= '9'
  }

  /** No `.` among the first `p` characters of `s`. */
  predicate NoPointBefore(s: string, p: nat)
    requires p <= |s|
  {
    forall k :: 0 <= k < p ==> s[k] != '.'
  }

  /** The position of the first `.` of `s`, or `|s|` when there is none. */
  function PointIndex(s: string): (p: nat)
    ensures p <= |s| && (p < |s| ==> s[p] == '.')
    ensures NoPointBefore(s, p)
  {
    if s == [] || s[0] == '.' then 0 else 1 + PointIndex(s[1..])
  }

  /** The hundredths one or two digits after a point denote. */
  function ReadFraction(t: string): Option<int> {
    if |t| == 1 && AllDigits(t) then Some((t[0] as int - '0' as int) * 10)
    else if |t| == 2 && AllDigits(t) then Some((t[0] as int - '0' as int) * 10 + (t[1] as int - '0' as int))
    else None
  }

  /** The hundredths denoted by a whole part and what follows it: nothing,
      or a point and one or two digits. */
  function ReadParts(whole: string, rest: string): Option<int> {
    if whole == [] || !AllDigits(whole) then None
    else if rest == [] then Some(DigitsValue(whole) * 100)
    else if rest[0] != '.' then None
    else
      var f := ReadFraction(rest[1..]);
      if f.None? then None else Some(DigitsValue(whole) * 100 + f.value)
  }

  /** The number of hundredths an unsigned decimal text denotes: digits,
      optionally followed by a point and one or two digits; `None` for
      any other text. */
  function ReadUnsigned(s: string): Option<int> {
    ReadParts(s[..PointIndex(s)], s[PointIndex(s)..])
  }

  /** The number of hundredths a decimal text with an optional leading
      `-` denotes, or `None` when it is not such a text. */
  function ReadHundredths(s: string): Option<int> {
    if s != [] && s[0] == '-' then
      var v := ReadUnsigned(s[1..]);
      if v.None? then None else Some(-v.value)
    else ReadUnsigned(s)
  }

  /** The digits after the point of a non-zero fraction denote `f`
      hundredths and do not end in a zero. */
  lemma {:induction false} FractionTextValue(f: nat)
    requires 0 < f < 100
    ensures var t := FractionText(f);
      |t| >= 2 && t[0] == '.' && ReadFraction(t[1..]) == Some(f) && t[|t| - 1] != '0'
  {
    var t := FractionText(f);
    if f % 10 == 0 {
      assert t[1..] == [DigitChar(f / 10)];
    } else {
      assert t[1..] == [DigitChar(f / 10), DigitChar(f % 10)];
    }
  }

  /** Digits without a point, followed by a point or nothing, split at the
      end of the digits. */
  lemma {:induction false} PointAfterDigits(w: string, f: string)
    requires AllDigits(w)
    requires f == [] || f[0] == '.'
    ensures PointIndex(w + f) == |w|
    ensures (w + f)[..|w|] == w && (w + f)[|w|..] == f
  {
    var s := w + f;
    var p := PointIndex(s);
    if f != [] {
      assert s[|w|] == f[0];
    }
  }

  /** Digits alone read back as that many whole units. */
  lemma {:induction false} ReadWhole(w: string)
    requires AllDigits(w) && w != []
    ensures ReadUnsigned(w) == Some(DigitsValue(w) * 100)
  {
    PointAfterDigits(w, "");
    assert w + "" == w;
  }

  /** Digits followed by the fraction text of `x` read back as those
      whole units and `x` hundredths, and do not end in a zero. */
  lemma {:induction false} ReadWithFraction(w: string, x: nat)
    requires AllDigits(w) && w != []
    requires 0 < x < 100
    ensures ReadUnsigned(w + FractionText(x)) == Some(DigitsValue(w) * 100 + x)
    ensures NoTrailingZero(w + FractionText(x))
  {
    var f := FractionText(x);
    PointAfterDigits(w, f);
    FractionTextValue(x);
    assert ReadUnsigned(w + f) == ReadParts(w, f);
    assert (w + f)[|w + f| - 1] == f[|f| - 1];
  }

  /** Digits denoting `m / 100` followed by the fraction text of `m % 100`
      read back as `m`, and end in a zero only when there is no point. */
  lemma {:induction false} WholeAndFraction(w: string, m: nat)
    requires AllDigits(w) && w != [] && DigitsValue(w) == m / 100
    ensures ReadUnsigned(w + FractionText(m % 100)) == Some(m)
    ensures var u := w + FractionText(m % 100);
      '0' <= u[0] <= '9' && NoTrailingZero(u)
  {
    var x := m % 100;
    var u := w + FractionText(x);
    assert u[0] == w[0];
    if x == 0 {
      assert u == w;
      ReadWhole(w);
    } else {
      ReadWithFraction(w, x);
    }
  }

  /** The unsigned rendering of `m` reads back as `m`, starts with a
      digit and leaves no trailing zero after a point. */
  lemma {:induction false} UnsignedValue(m: nat)
    ensures ReadUnsigned(UnsignedText(m)) == Some(m)
    ensures var u := UnsignedText(m);
      u != [] && '0' <= u[0] <= '9' && NoTrailingZero(u)
  {
    NatToStringValue(m / 100);
    WholeAndFraction(NatToString(m / 100), m);
    assert UnsignedText(m) == NatToString(m / 100) + FractionText(m % 100);
  }

  /** An unsigned text reads back the same on its own and, negated, after
      a `-`; the `-` adds no point and leaves the last character alone. */
  lemma {:induction false} SignedRead(u: string, m: nat)
    requires ReadUnsigned(u) == Some(m) && u != [] && '0' <= u[0] <= '9'
    ensures ReadHundredths(u) == Some(m)
    ensures ReadHundredths("-" + u) == Some(-(m as int))
    ensures ('.' in "-" + u ==> '.' in u) && ("-" + u)[|u|] == u[|u| - 1]
  {
    assert ("-" + u)[1..] == u;
  }

  /** A decimal text whose fraction, if it has one, does not end in `0`. */
  predicate NoTrailingZero(s: string) {
    '.' in s ==> s != [] && s[|s| - 1] != '0'
  }

  /** A `-` in front adds no point and leaves the last character alone. */
  lemma SignKeepsEnd(u: string)
    requires u != [] && NoTrailingZero(u)
    ensures NoTrailingZero("-" + u)
  {
    var r := "-" + u;
    assert r[|r| - 1] == u[|u| - 1];
    assert '.' in r ==> '.' in u by {
      if '.' in r {
        var k :| 0 <= k < |r| && r[k] == '.';
        assert u[k - 1] == '.';
      }
    }
  }

  /** The fraction `HundredthsToString` writes never ends in a zero. */
  lemma {:induction false} HundredthsNoTrailingZero(hundredths: int)
    ensures NoTrailingZero(HundredthsToString(hundredths))
  {
    var m: nat := if hundredths < 0 then -hundredths else hundredths;
    var u := UnsignedText(m);
    UnsignedValue(m);
    SignKeepsEnd(u);
    SignedText(hundredths, u);
  }

  /** `HundredthsToString` is the unsigned text of the magnitude, after a
      `-` for a negative number. */
  lemma SignedText(hundredths: int, u: string)
    requires u == UnsignedText(if hundredths < 0 then -hundredths else hundredths)
    ensures HundredthsToString(hundredths) == if hundredths < 0 then "-" + u else u
  {
  }

  /** `HundredthsToString` is read back as the number it renders, starts
      with `-` exactly for a negative number, and leaves no trailing zero
      in the fraction. */
  lemma {:induction false} HundredthsToStringValue(hundredths: int)
    ensures ReadHundredths(HundredthsToString(hundredths)) == Some(hundredths)
    ensures var r := HundredthsToString(hundredths);
      r != [] && (r[0] == '-' <==> hundredths < 0)
    ensures NoTrailingZero(HundredthsToString(hundredths))
  {
    var m: nat := if hundredths < 0 then -hundredths else hundredths;
    var u := UnsignedText(m);
    UnsignedValue(m);
    SignedRead(u, m);
    HundredthsNoTrailingZero(hundredths);
    SignedText(hundredths, u);
  }

  /** A number and its negation are multiples of 100 together. */
  lemma HundredthsNegated(x: int)
    ensures x % 100 == 0 <==> (-x) % 100 == 0
  {
    if x % 100 == 0 {
      assert -x == 100 * -(x / 100);
    }
    if (-x) % 100 == 0 {
      assert x == 100 * -((-x) / 100);
    }
  }

}
