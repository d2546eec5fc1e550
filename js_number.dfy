/** JavaScript's conversions between numbers and strings, as far as the ledger uses
    them: `parseFloat` (the form's amount field) and `Number.prototype.toString`
    (an amount put into the form, a total embedded in a chart label).
    Numbers are exact reals; NaN is the `None` of `ParseFloat`. */
module JsNumber {
  import opened Wrappers

  predicate IsDigit(c: char)
  {
    '0' <= c <= '9'
  }

  predicate AllDigits(s: string)
  {
    forall i :: 0 <= i < |s| ==> IsDigit(s[i])
  }

  function DigitValue(c: char): (d: nat)
    requires IsDigit(c)
    ensures d < 10
  {
    c as int - '0' as int
  }

  function DigitChar(d: nat): (c: char)
    requires d < 10
    ensures IsDigit(c) && DigitValue(c) == d
  {
    ('0' as int + d) as char
  }

  /** The white space `parseFloat` skips before the literal: the ECMAScript
      WhiteSpace and LineTerminator code points, including every space separator. */
  predicate IsSpace(c: char)
  {
    c == ' ' || c == '\t' || c == '\n' || c == '\r' || c == '\U{B}' || c == '\U{C}' ||
    c == '\U{A0}' || c == '\U{1680}' || '\U{2000}' <= c <= '\U{200A}' ||
    c == '\U{2028}' || c == '\U{2029}' || c == '\U{202F}' || c == '\U{205F}' ||
    c == '\U{3000}' || c == '\U{FEFF}'
  }

  function TrimStart(s: string): (r: string)
    ensures |r| <= |s| && r == s[|s| - |r|..]
    ensures r == [] || !IsSpace(r[0])
  {
    if s != [] && IsSpace(s[0]) then TrimStart(s[1..]) else s
  }

  /** The length of the run of decimal digits that starts `s`. */
  function LeadingDigits(s: string): (n: nat)
    ensures n <= |s| && AllDigits(s[..n])
    ensures n == |s| || !IsDigit(s[n])
  {
    if s == [] || !IsDigit(s[0]) then 0 else 1 + LeadingDigits(s[1..])
  }

  function Pow10(k: nat): (p: nat)
    ensures p >= 1
  {
    if k == 0 then 1 else 10 * Pow10(k - 1)
  }

  /** The natural number a string of decimal digits denotes, read left to right. */
  function DigitsValue(ds: string): nat
    requires AllDigits(ds)
  {
    if ds == [] then 0 else DigitsValue(ds[..|ds| - 1]) * 10 + DigitValue(ds[|ds| - 1])
  }

  /** The value of the digits after a decimal point. */
  function FractionValue(ds: string): (v: real)
    requires AllDigits(ds)
    ensures 0.0 <= v
  {
    DigitsValue(ds) as real / Pow10(|ds|) as real
  }

  /** The digits of the fraction part at the start of `rest`, if `rest` starts with a point. */
  function FractionAfter(rest: string): (ds: string)
    ensures AllDigits(ds)
    ensures ds != [] ==> |rest| >= 2 && rest[0] == '.' && IsDigit(rest[1])
  {
    if rest != [] && rest[0] == '.' then rest[1..][..LeadingDigits(rest[1..])] else []
  }

  /** An unsigned decimal literal at the start of `body`: the longest prefix of the form
      `digits [. digits]` or `. digits`; anything after it is ignored. `None` when it
      holds no digit. */
  function ParseUnsigned(body: string): (r: Option<real>)
    ensures r.Some? ==> r.value >= 0.0
    ensures r.Some? ==> exists i :: 0 <= i < |body| && IsDigit(body[i])
  {
    var n := LeadingDigits(body);
    var frac := FractionAfter(body[n..]);
    if n == 0 && frac == [] then None
    else Some(DigitsValue(body[..n]) as real + FractionValue(frac))
  }

  /** A digit anywhere in a suffix `t` of `s`, or in `t` past its first character, is a
      digit of `s`. */
  lemma DigitOfSuffix(s: string, t: string)
    requires |t| <= |s| && t == s[|s| - |t|..]
    ensures (exists j :: 0 <= j < |t| && IsDigit(t[j])) ==> exists i :: 0 <= i < |s| && IsDigit(s[i])
    ensures t != [] && (exists j :: 0 <= j < |t[1..]| && IsDigit(t[1..][j])) ==> exists j :: 0 <= j < |t| && IsDigit(t[j])
  {
    if j :| 0 <= j < |t| && IsDigit(t[j]) {
      assert s[|s| - |t| + j] == t[j];
    }
    if t != [] && exists j :: 0 <= j < |t[1..]| && IsDigit(t[1..][j]) {
      var j :| 0 <= j < |t[1..]| && IsDigit(t[1..][j]);
      assert t[j + 1] == t[1..][j];
    }
  }

  /** `parseFloat(s)`: skip leading white space, read an optional sign, then an unsigned
      decimal literal. When no digit is read the result is NaN, here `None`. */
  function ParseFloat(s: string): (r: Option<real>)
    ensures r.Some? ==> exists i :: 0 <= i < |s| && IsDigit(s[i])
    ensures s != [] && IsDigit(s[0]) ==> r == ParseUnsigned(s)
  {
    var t := TrimStart(s);
    DigitOfSuffix(s, t);
    if t != [] && t[0] == '-' then
      (match ParseUnsigned(t[1..]) case None => None case Some(m) => Some(-m))
    else if t != [] && t[0] == '+' then ParseUnsigned(t[1..])
    else ParseUnsigned(t)
  }

  /** The decimal digits of a natural number, without leading zeros. */
  function NatToString(n: nat): (s: string)
    ensures s != [] && AllDigits(s)
  {
    if n < 10 then [DigitChar(n)] else NatToString(n / 10) + [DigitChar(n % 10)]
  }

  /** Up to `fuel` digits of a fraction in [0, 1), stopping as soon as it is exhausted,
      so no trailing zero is produced. */
  function FractionDigits(f: real, fuel: nat): (s: string)
    requires 0.0 <= f < 1.0
    ensures AllDigits(s) && |s| <= fuel
    decreases fuel
  {
    if f == 0.0 || fuel == 0 then []
    else
      var d := (f * 10.0).Floor;
      [DigitChar(d)] + FractionDigits(f * 10.0 - d as real, fuel - 1)
  }

  /** The number of fraction digits `NumberToString` writes at most. */
  const FractionFuel: nat := 20

  /** `String(x)` for a number: a minus sign when negative, then the magnitude. */
  function NumberToString(x: real): (s: string)
    ensures s != []
    ensures x < 0.0 <==> s[0] == '-'
    ensures x >= 0.0 ==> IsDigit(s[0])
  {
    if x < 0.0 then "-" + MagnitudeToString(-x) else MagnitudeToString(x)
  }

  /** A non-negative number written as its integer part and, when there is one, a point
      followed by the fraction's digits. */
  function MagnitudeToString(m: real): (s: string)
    requires m >= 0.0
    ensures s != [] && IsDigit(s[0])
  {
    var w := m.Floor;
    var f := m - w as real;
    NatToString(w) + (if f == 0.0 then "" else "." + FractionDigits(f, FractionFuel))
  }

  /** Text that cannot continue a decimal literal: nothing, or a character that is
      neither a digit, a decimal point nor an exponent marker. */
  predicate EndsLiteral(tail: string)
  {
    tail == [] || (!IsDigit(tail[0]) && tail[0] != '.' && tail[0] != 'e' && tail[0] != 'E')
  }

  /** An amount in whole cents: at most two decimals, the precision the amount field enforces. */
  predicate IsCents(x: real)
  {
    (x * 100.0).Floor as real == x * 100.0
  }

  // ---------------------------------------------------------------------------
  // Round trip: parseFloat reads back what toString writes.

  lemma {:induction false} NatToStringRoundTrip(n: nat)
    ensures DigitsValue(NatToString(n)) == n
  {
    if n >= 10 {
      var s := NatToString(n);
      NatToStringRoundTrip(n / 10);
      assert s[..|s| - 1] == NatToString(n / 10);
    }
  }

  /** A run of digits followed by something that is not a digit is read up to its end. */
  lemma {:induction false} LeadingDigitsOfRun(ds: string, rest: string)
    requires AllDigits(ds)
    requires rest == [] || !IsDigit(rest[0])
    ensures LeadingDigits(ds + rest) == |ds|
  {
    if ds != [] {
      assert (ds + rest)[1..] == ds[1..] + rest;
      LeadingDigitsOfRun(ds[1..], rest);
    } else {
      assert ds + rest == rest;
    }
  }

  /** The fraction digits of a whole number of cents: none, one or two of them,
      and they denote the fraction exactly. */
  lemma CentsFraction(f: real)
    requires 0.0 <= f < 1.0 && IsCents(f)
    ensures var ds := FractionDigits(f, FractionFuel);
      |ds| <= 2 && (f == 0.0 <==> ds == []) &&
      FractionValue(ds) == f
  {
    var k := (f * 100.0).Floor;
    assert 0 <= k < 100;
    var ds := FractionDigits(f, FractionFuel);
    if f != 0.0 {
      var d1 := (f * 10.0).Floor;
      assert d1 == k / 10 by {
        assert f * 10.0 == k as real / 10.0;
        assert (k / 10) as real <= k as real / 10.0 < (k / 10) as real + 1.0;
      }
      var f1 := f * 10.0 - d1 as real;
      assert f1 == (k % 10) as real / 10.0;
      if f1 == 0.0 {
        assert ds == [DigitChar(d1)];
        assert DigitsValue(ds) == d1 by {
          assert ds[..0] == [];
        }
      } else {
        var d2 := (f1 * 10.0).Floor;
        assert d2 == k % 10;
        assert FractionDigits(f1 * 10.0 - d2 as real, FractionFuel - 2) == [];
        assert ds == [DigitChar(d1), DigitChar(d2)];
        assert DigitsValue(ds) == d1 * 10 + d2 by {
          assert ds[..1] == [DigitChar(d1)];
          assert ds[..1][..0] == [];
          assert DigitsValue(ds[..1]) == d1;
        }
        assert Pow10(2) == 100;
      }
    }
  }

  lemma CentsParts(x: real)
    requires IsCents(x)
    ensures var m := if x < 0.0 then -x else x;
      m >= 0.0 && IsCents(m) && m.Floor >= 0 && IsCents(m - m.Floor as real)
  {
    var m := if x < 0.0 then -x else x;
    var k := (x * 100.0).Floor;
    assert m * 100.0 == (if x < 0.0 then -k else k) as real;
    assert (m * 100.0).Floor == (if x < 0.0 then -k else k);
    var w := m.Floor;
    assert (m - w as real) * 100.0 == ((if x < 0.0 then -k else k) - 100 * w) as real;
  }

  /** A run of digits followed by text that is not a digit splits back into the two. */
  lemma SplitAtRun(digits: string, tail: string)
    requires AllDigits(digits)
    requires tail == [] || !IsDigit(tail[0])
    ensures var body := digits + tail;
      LeadingDigits(body) == |digits| && body[..|digits|] == digits && body[|digits|..] == tail
  {
    LeadingDigitsOfRun(digits, tail);
    var body := digits + tail;
    assert body[..|digits|] == digits;
    assert body[|digits|..] == tail;
  }

  /** A body whose digit run is not followed by a fraction is read as that run. */
  lemma WholeLiteral(body: string, n: nat)
    requires n == LeadingDigits(body) && n > 0
    requires FractionAfter(body[n..]) == []
    ensures ParseUnsigned(body) == Some(DigitsValue(body[..n]) as real)
  {
    assert FractionValue([]) == 0.0 by {
      assert DigitsValue([]) == 0 && Pow10(0) == 1;
    }
  }

  /** A body whose digit run is followed by the fraction `ds` is read as both. */
  lemma FractionLiteral(body: string, n: nat, ds: string)
    requires n == LeadingDigits(body) && FractionAfter(body[n..]) == ds && ds != []
    ensures ParseUnsigned(body) == Some(DigitsValue(body[..n]) as real + FractionValue(ds))
  {
  }

  /** Text that starts with no point holds no fraction. */
  lemma NoFractionAfter(tail: string)
    requires tail == [] || tail[0] != '.'
    ensures FractionAfter(tail) == []
  {
  }

  /** A literal of digits alone is read whole. */
  lemma ParseWhole(digits: string, tail: string)
    requires digits != [] && AllDigits(digits)
    requires EndsLiteral(tail)
    ensures ParseUnsigned(digits + tail) == Some(DigitsValue(digits) as real)
  {
    SplitAtRun(digits, tail);
    NoFractionAfter(tail);
    WholeLiteral(digits + tail, |digits|);
  }

  lemma FractionAfterPoint(ds: string, tail: string)
    requires AllDigits(ds)
    requires tail == [] || !IsDigit(tail[0])
    ensures FractionAfter("." + ds + tail) == ds
  {
    var rest := "." + ds + tail;
    assert rest[1..] == ds + tail;
    LeadingDigitsOfRun(ds, tail);
    assert rest[1..][..|ds|] == ds;
  }

  /** A literal of digits, a point and more digits is read whole. */
  lemma ParseWithFraction(digits: string, ds: string, tail: string)
    requires digits != [] && AllDigits(digits) && ds != [] && AllDigits(ds)
    requires tail == [] || !IsDigit(tail[0])
    ensures ParseUnsigned(digits + ("." + ds + tail)) == Some(DigitsValue(digits) as real + FractionValue(ds))
  {
    var rest := "." + ds + tail;
    SplitAtRun(digits, rest);
    FractionAfterPoint(ds, tail);
    FractionLiteral(digits + rest, |digits|, ds);
  }

  /** The fraction digits `MagnitudeToString` writes for an amount in cents denote its
      fraction exactly, and there are none exactly when it is whole. */
  lemma MagnitudeFraction(m: real)
    requires m >= 0.0 && IsCents(m)
    ensures var f := m - m.Floor as real;
      var ds := FractionDigits(f, FractionFuel);
      m.Floor >= 0 && 0.0 <= f < 1.0 && (f == 0.0 <==> ds == []) && FractionValue(ds) == f
  {
    CentsParts(m);
    CentsFraction(m - m.Floor as real);
  }

  lemma ParseMagnitudeToString(m: real, tail: string)
    requires m >= 0.0 && IsCents(m)
    requires EndsLiteral(tail)
    ensures ParseUnsigned(MagnitudeToString(m) + tail) == Some(m)
  {
    MagnitudeFraction(m);
    ParseMagnitudeParts(m, tail);
  }

  /** The two spellings of a magnitude, whole or with a fraction, both read back. */
  lemma ParseMagnitudeParts(m: real, tail: string)
    requires m >= 0.0 && EndsLiteral(tail)
    requires var f := m - m.Floor as real;
      var ds := FractionDigits(f, FractionFuel);
      0.0 <= f < 1.0 && (f == 0.0 <==> ds == []) && FractionValue(ds) == f
    ensures ParseUnsigned(MagnitudeToString(m) + tail) == Some(m)
  {
    var f := m - m.Floor as real;
    var ds := FractionDigits(f, FractionFuel);
    var digits := NatToString(m.Floor);
    NatToStringRoundTrip(m.Floor);
    if f == 0.0 {
      ParseWholeMagnitude(m, tail, digits);
    } else {
      ParseFractionalMagnitude(m, tail, digits, ds);
    }
  }

  /** A whole magnitude is written as its digits alone and read back as them. */
  lemma ParseWholeMagnitude(m: real, tail: string, digits: string)
    requires m >= 0.0 && m == m.Floor as real
    requires EndsLiteral(tail)
    requires digits == NatToString(m.Floor) && DigitsValue(digits) == m.Floor
    ensures ParseUnsigned(MagnitudeToString(m) + tail) == Some(m)
  {
    assert MagnitudeToString(m) == digits + "";
    ParseSpelledWhole(MagnitudeToString(m), digits, tail);
  }

  /** A magnitude with a fraction is written as digits, a point and the fraction's digits. */
  lemma ParseFractionalMagnitude(m: real, tail: string, digits: string, ds: string)
    requires m >= 0.0 && m != m.Floor as real
    requires EndsLiteral(tail)
    requires digits == NatToString(m.Floor) && DigitsValue(digits) == m.Floor
    requires ds == FractionDigits(m - m.Floor as real, FractionFuel) && ds != []
    requires FractionValue(ds) == m - m.Floor as real
    ensures ParseUnsigned(MagnitudeToString(m) + tail) == Some(m)
  {
    assert MagnitudeToString(m) == digits + ("." + ds);
    ParseSpelledFraction(MagnitudeToString(m), digits, ds, tail);
  }

  lemma ParseSpelledWhole(ms: string, digits: string, tail: string)
    requires digits != [] && AllDigits(digits) && ms == digits + ""
    requires EndsLiteral(tail)
    ensures ParseUnsigned(ms + tail) == Some(DigitsValue(digits) as real)
  {
    assert ms + tail == digits + tail;
    ParseWhole(digits, tail);
  }

  lemma ParseSpelledFraction(ms: string, digits: string, ds: string, tail: string)
    requires digits != [] && AllDigits(digits) && ds != [] && AllDigits(ds)
    requires ms == digits + ("." + ds)
    requires EndsLiteral(tail)
    ensures ParseUnsigned(ms + tail) == Some(DigitsValue(digits) as real + FractionValue(ds))
  {
    assert ms + tail == digits + ("." + ds + tail);
    ParseWithFraction(digits, ds, tail);
  }

  /** A literal that starts with a minus sign and a digit is read negated. */
  lemma ParseMinusDigit(body: string, m: real)
    requires body != [] && IsDigit(body[0])
    requires ParseUnsigned(body) == Some(m)
    ensures ParseFloat("-" + body) == Some(-m)
  {
    var s := "-" + body;
    assert TrimStart(s) == s;
    assert s[1..] == body;
  }

  lemma CentsNegated(x: real)
    requires IsCents(x)
    ensures IsCents(-x)
  {
    var k := (x * 100.0).Floor;
    assert -x * 100.0 == (-k) as real;
  }

  /** A sum of amounts in cents is in cents. */
  lemma CentsSum(x: real, y: real)
    requires IsCents(x) && IsCents(y)
    ensures IsCents(x + y)
  {
    var a := (x * 100.0).Floor;
    var b := (y * 100.0).Floor;
    assert (x + y) * 100.0 == (a + b) as real;
  }

  lemma NegativeToString(x: real, tail: string)
    requires x < 0.0
    ensures NumberToString(x) + tail == "-" + (MagnitudeToString(-x) + tail)
  {
  }

  lemma ParseMinusMagnitude(m: real, tail: string, s: string)
    requires m >= 0.0 && IsCents(m)
    requires EndsLiteral(tail)
    requires s == "-" + (MagnitudeToString(m) + tail)
    ensures ParseFloat(s) == Some(-m)
  {
    var body := MagnitudeToString(m) + tail;
    ParseMagnitudeToString(m, tail);
    ParseMinusDigit(body, m);
  }

  lemma ParseNegativeToString(x: real, tail: string)
    requires x < 0.0 && IsCents(x)
    requires EndsLiteral(tail)
    ensures ParseFloat(NumberToString(x) + tail) == Some(x)
  {
    CentsNegated(x);
    NegativeToString(x, tail);
    ParseMinusMagnitude(-x, tail, NumberToString(x) + tail);
  }

  lemma ParseNonNegativeToString(x: real, tail: string)
    requires x >= 0.0 && IsCents(x)
    requires EndsLiteral(tail)
    ensures ParseFloat(NumberToString(x) + tail) == Some(x)
  {
    ParseMagnitudeToString(x, tail);
    var body := MagnitudeToString(x) + tail;
    assert NumberToString(x) + tail == body;
  }

  /** `parseFloat` reads back an amount in cents from its `toString` form, followed by
      any text that cannot continue a number literal (not a digit, a point or an exponent
      marker). */
  lemma ParseNumberToString(x: real, tail: string)
    requires IsCents(x)
    requires EndsLiteral(tail)
    ensures ParseFloat(NumberToString(x) + tail) == Some(x)
  {
    if x < 0.0 {
      ParseNegativeToString(x, tail);
    } else {
      ParseNonNegativeToString(x, tail);
    }
  }
}
