/**
  Python's `float(s)` on a decimal literal, with exact real values in place of
  IEEE-754 doubles, and the C `printf("%.<k>f")` conversion of a fixed-point
  value that the sensor firmware uses to produce those literals.

  Grammar accepted, after surrounding whitespace is stripped:
    [sign] (digits ["." [digits]] | "." digits) [("e" | "E") [sign] digits]
 */
module PyFloat {
  import opened Wrappers
  import PyText

  predicate IsDigit(c: char) {
    '0' <= c <= '9'
  }

  predicate AllDigits(s: string) {
    forall i :: 0 <= i < |s| ==> IsDigit(s[i])
  }

  function DigitValue(c: char): nat
    requires IsDigit(c)
  {
    c as int - '0' as int
  }

  function DigitChar(d: nat): (c: char)
    requires d < 10
    ensures IsDigit(c) && DigitValue(c) == d
  {
    ('0' as int + d) as char
  }

  /** The natural number a string of decimal digits denotes, most significant first. */
  function DigitsValue(s: string): nat
    requires AllDigits(s)
  {
    if s == [] then 0 else DigitsValue(s[..|s| - 1]) * 10 + DigitValue(s[|s| - 1])
  }

  function TenTo(n: nat): (p: nat)
    ensures p >= 1
  {
    if n == 0 then 1 else 10 * TenTo(n - 1)
  }

  /** Reading digits `a` then digits `b` shifts `a` left by `|b|` places. */
  lemma {:induction false} DigitsValueAppend(a: string, b: string)
    requires AllDigits(a) && AllDigits(b)
    ensures AllDigits(a + b)
    ensures DigitsValue(a + b) == DigitsValue(a) * TenTo(|b|) + DigitsValue(b)
    decreases |b|
  {
    if b == [] {
      assert a + b == a;
    } else {
      var b' := b[..|b| - 1];
      var d := DigitValue(b[|b| - 1]);
      assert (a + b)[..|a + b| - 1] == a + b';
      assert (a + b)[|a + b| - 1] == b[|b| - 1];
      DigitsValueAppend(a, b');
      var x, y, t := DigitsValue(a), DigitsValue(b'), TenTo(|b'|);
      assert AllDigits(a + b');
      assert DigitsValue(a + b) == DigitsValue(a + b') * 10 + d;
      assert TenTo(|b|) == t * 10;
      assert b[..|b| - 1] == b';
      assert DigitsValue(b) == y * 10 + d;
      Shift(x, t, y, d);
    }
  }

  lemma {:induction false} Shift(x: int, t: int, y: int, d: int)
    ensures (x * t + y) * 10 + d == x * (t * 10) + (y * 10 + d)
  {
  }

  /** `[sign] digits` after an exponent marker. */
  function ParseExponent(x: string): Option<int> {
    var signed := |x| > 0 && (x[0] == '-' || x[0] == '+');
    var digits := if signed then x[1..] else x;
    if digits != [] && AllDigits(digits) then
      var v: int := DigitsValue(digits);
      Some(if signed && x[0] == '-' then -v else v)
    else
      None
  }

  /** Digits of a mantissa read as an integer, and how many of them follow the point. */
  datatype Mantissa = Mantissa(digits: nat, scale: nat)

  /** `digits ["." [digits]]` or `"." digits`. */
  function ParseMantissa(m: string): Option<Mantissa> {
    var dot := PyText.IndexOf(m, '.');
    var whole := m[..dot];
    var fraction := if dot < |m| then m[dot + 1..] else [];
    if AllDigits(whole) && AllDigits(fraction) && |whole| + |fraction| > 0 then
      Some(Mantissa(DigitsValue(whole + fraction), |fraction|))
    else
      None
  }

  /** Index of the first exponent marker `e` or `E`, or `|body|` when there is none. */
  function ExponentMarker(body: string): nat {
    var e := PyText.IndexOf(body, 'e');
    var capital := PyText.IndexOf(body, 'E');
    if e <= capital then e else capital
  }

  /** An unsigned literal: a mantissa, then an optional exponent. */
  function ParseUnsigned(body: string): Option<real> {
    var e := ExponentMarker(body);
    var exponent := if e < |body| then ParseExponent(body[e + 1..]) else Some(0);
    match (ParseMantissa(body[..e]), exponent)
    case (Some(m), Some(x)) => Some(Scaled(m, x))
    case _ => None
  }

  /** The value of a mantissa times ten to the exponent. */
  function Scaled(m: Mantissa, exponent: int): real {
    var e := exponent - m.scale;
    if e >= 0 then (m.digits * TenTo(e)) as real else m.digits as real / TenTo(-e) as real
  }

  /** A literal with no surrounding whitespace: an optional sign, then an unsigned literal. */
  function ParseLiteral(t: string): Option<real> {
    var signed := |t| > 0 && (t[0] == '-' || t[0] == '+');
    Negated(signed && t[0] == '-', ParseUnsigned(if signed then t[1..] else t))
  }

  function Negated(neg: bool, r: Option<real>): Option<real> {
    match r
    case None => None
    case Some(v) => Some(if neg then -v else v)
  }

  /** Python's `float(s)`; `None` stands for the `ValueError` it raises. */
  function ParseNum(s: string): Option<real> {
    ParseLiteral(PyText.Strip(s))
  }

  // ---------------------------------------------------------------------------
  // Reference encoder: C's printf("%.<places>f") of a value held in fixed point.
  // ---------------------------------------------------------------------------

  /** Decimal digits of `n` with no leading zero (`"0"` for zero). */
  function NatDigits(n: nat): (s: string)
    ensures |s| >= 1 && AllDigits(s) && DigitsValue(s) == n
  {
    if n < 10 then [DigitChar(n)]
    else
      var s := NatDigits(n / 10) + [DigitChar(n % 10)];
      assert s[..|s| - 1] == NatDigits(n / 10);
      s
  }

  /** The lowest `width` decimal digits of `n`, zero-padded on the left. */
  function PaddedDigits(n: nat, width: nat): (s: string)
    ensures |s| == width && AllDigits(s) && DigitsValue(s) == n % TenTo(width)
  {
    if width == 0 then []
    else
      var s := PaddedDigits(n / 10, width - 1) + [DigitChar(n % 10)];
      assert s[..|s| - 1] == PaddedDigits(n / 10, width - 1);
      DivModTen(n, width - 1);
      s
  }

  lemma {:induction false} DivModTen(n: nat, k: nat)
    ensures (n / 10) % TenTo(k) * 10 + n % 10 == n % TenTo(k + 1)
  {
    var t := TenTo(k);
    DivMod(n, 10);
    DivMod(n / 10, t);
    var a, b, c := (n / 10) / t, (n / 10) % t, n % 10;
    assert n == (a * t + b) * 10 + c;
    assert n == a * (t * 10) + (b * 10 + c);
    ModUnique(n, t * 10, a, b * 10 + c);
  }

  /** The remainder is the only `r` in `[0, d)` with `n - r` a multiple of `d`. */
  lemma {:induction false} ModUnique(n: int, d: int, a: int, r: int)
    requires 0 <= r < d && n == a * d + r
    ensures n % d == r
  {
    var q, s := n / d, n % d;
    assert n == q * d + s && 0 <= s < d;
    var k := a - q;
    assert k * d == s - r;
  }

  lemma {:induction false} DivMod(m: nat, t: nat)
    requires t > 0
    ensures 0 <= m / t && 0 <= m % t < t && (m / t) * t + m % t == m
  {
  }

  /** The digits `printf("%.<places>f")` writes before the point for `m / 10^places`. */
  function WholePart(m: nat, places: nat): nat {
    DivMod(m, TenTo(places));
    m / TenTo(places)
  }

  /** The digits it writes after the point, read as an integer. */
  function FractionPart(m: nat, places: nat): (f: nat)
    ensures f < TenTo(places)
    ensures WholePart(m, places) * TenTo(places) + f == m
  {
    DivMod(m, TenTo(places));
    m % TenTo(places)
  }

  /** The unsigned part of `printf("%.<places>f")` for `m / 10^places`: whole digits, then the point and `places` digits. */
  function FixedBody(m: nat, places: nat): (s: string)
    ensures |s| >= 1 && IsDigit(s[0]) && IsDigit(s[|s| - 1])
    ensures forall i :: 0 <= i < |s| ==> IsDigit(s[i]) || s[i] == '.'
  {
    NatDigits(WholePart(m, places))
      + (if places == 0 then "" else "." + PaddedDigits(FractionPart(m, places), places))
  }

  /** `printf("%.<places>f", n / 10^places)` for an integer `n`. */
  function FormatFixed(n: int, places: nat): string {
    (if n < 0 then "-" else "") + FixedBody(if n < 0 then -n else n, places)
  }

  /** Without an exponent marker, a literal is its mantissa. */
  lemma {:induction false} ParseUnsignedNoExponent(body: string)
    requires forall i :: 0 <= i < |body| ==> IsDigit(body[i]) || body[i] == '.'
    ensures ParseMantissa(body).Some? ==> ParseUnsigned(body) == Some(Scaled(ParseMantissa(body).value, 0))
  {
    PyText.IndexOfFirst(body, 'e');
    PyText.IndexOfFirst(body, 'E');
    assert ExponentMarker(body) == |body|;
    assert body[..|body|] == body;
  }

  /** A plain digit string reads as the integer it spells. */
  lemma {:induction false} ParseMantissaInteger(w: string)
    requires |w| >= 1 && AllDigits(w)
    ensures ParseMantissa(w) == Some(Mantissa(DigitsValue(w), 0))
  {
    PyText.IndexOfFirst(w, '.');
    assert PyText.IndexOf(w, '.') == |w|;
    assert w[..|w|] == w;
    assert w + [] == w;
  }

  /** `w.f` with digit strings `w` (non-empty) and `f` reads as the digits `wf` scaled by `|f|`. */
  lemma {:induction false} ParseMantissaDecimal(w: string, f: string)
    requires |w| >= 1 && AllDigits(w) && AllDigits(f)
    ensures AllDigits(w + f)
    ensures ParseMantissa(w + "." + f) == Some(Mantissa(DigitsValue(w + f), |f|))
  {
    var m := w + "." + f;
    assert '.' !in w;
    PyText.IndexOfSeparator(w, '.', f);
    assert m[..|w|] == w;
    assert m[|w| + 1..] == f;
    DigitsValueAppend(w, f);
  }

  /** An optional leading minus sign in front of an unsigned literal that starts with a digit. */
  lemma {:induction false} ParseLiteralSign(neg: bool, body: string)
    requires |body| >= 1 && IsDigit(body[0])
    ensures ParseLiteral((if neg then "-" else "") + body) == Negated(neg, ParseUnsigned(body))
  {
    var t := (if neg then "-" else "") + body;
    if neg {
      assert t[1..] == body;
    } else {
      assert t == body;
    }
  }

  /** The whole and fractional digits `printf` writes spell `m` again. */
  lemma {:induction false} FixedDigits(m: nat, places: nat)
    ensures AllDigits(NatDigits(WholePart(m, places)) + PaddedDigits(FractionPart(m, places), places))
    ensures DigitsValue(NatDigits(WholePart(m, places)) + PaddedDigits(FractionPart(m, places), places)) == m
  {
    var t := TenTo(places);
    var r := FractionPart(m, places);
    ModUnique(r, t, 0, r);
    JoinDigits(NatDigits(WholePart(m, places)), PaddedDigits(r, places), WholePart(m, places), t, r, m);
  }

  /** Whole digits worth `q` followed by fraction digits worth `r < t` spell `q * t + r`. */
  lemma {:induction false} JoinDigits(whole: string, fraction: string, q: nat, t: nat, r: nat, m: nat)
    requires AllDigits(whole) && AllDigits(fraction)
    requires DigitsValue(whole) == q && DigitsValue(fraction) == r
    requires TenTo(|fraction|) == t && q * t + r == m
    ensures AllDigits(whole + fraction) && DigitsValue(whole + fraction) == m
  {
    DigitsValueAppend(whole, fraction);
  }

  /** The unsigned literal `printf` wrote reads back as `m / 10^places`. */
  lemma {:induction false} ParseFixedBody(m: nat, places: nat)
    ensures ParseUnsigned(FixedBody(m, places)) == Some(m as real / TenTo(places) as real)
  {
    if places == 0 {
      ParseFixedInteger(m);
      assert FixedBody(m, places) == FixedBody(m, 0);
      assert TenTo(places) as real == 1.0;
    } else {
      ParseFixedDecimal(m, places);
    }
  }

  lemma {:induction false} ParseFixedInteger(m: nat)
    ensures ParseUnsigned(FixedBody(m, 0)) == Some(m as real)
  {
    var whole := NatDigits(WholePart(m, 0));
    var body := FixedBody(m, 0);
    ParseUnsignedNoExponent(body);
    assert body == whole + "";
    assert body == whole;
    assert WholePart(m, 0) == m;
    ParseMantissaInteger(whole);
    assert Scaled(Mantissa(m, 0), 0) == m as real;
  }

  lemma {:induction false} ParseFixedDecimal(m: nat, places: nat)
    requires places > 0
    ensures ParseUnsigned(FixedBody(m, places)) == Some(m as real / TenTo(places) as real)
  {
    var whole := NatDigits(WholePart(m, places));
    var fraction := PaddedDigits(FractionPart(m, places), places);
    var body := FixedBody(m, places);
    assert body == whole + "." + fraction;
    ParseUnsignedNoExponent(body);
    FixedDigits(m, places);
    ParseMantissaDecimal(whole, fraction);
    assert ParseMantissa(body) == Some(Mantissa(m, places));
    assert Scaled(Mantissa(m, places), 0) == m as real / TenTo(places) as real;
  }

  /** `float()` reads back exactly the fixed-point value `printf` wrote. */
  lemma {:induction false} ParseFormatFixed(n: int, places: nat)
    ensures ParseNum(FormatFixed(n, places)) == Some(n as real / TenTo(places) as real)
  {
    ParseFormatted(n, places, FormatFixed(n, places));
    SignedQuotient(n, TenTo(places) as real);
  }

  /** The sign and the unsigned part of a `printf` literal read back separately. */
  lemma {:induction false} ParseFormatted(n: int, places: nat, s: string)
    requires s == FormatFixed(n, places)
    ensures ParseNum(s) == Negated(n < 0, Some((if n < 0 then -n else n) as real / TenTo(places) as real))
  {
    var m: nat := if n < 0 then -n else n;
    FormattedUnpadded(n, places, s);
    FormattedLiteral(n, places, s);
    ParseFixedBody(m, places);
    assert ParseNum(s) == ParseLiteral(s);
  }

  /** A `printf` literal is digits with at most a leading minus and a point; it ends in a digit. */
  lemma {:induction false} FormatFixedChars(n: int, places: nat)
    ensures |FormatFixed(n, places)| >= 1
    ensures forall i :: 0 <= i < |FormatFixed(n, places)| ==>
      IsDigit(FormatFixed(n, places)[i]) || FormatFixed(n, places)[i] in ".-"
    ensures FormatFixed(n, places)[0] == '-' || IsDigit(FormatFixed(n, places)[0])
    ensures IsDigit(FormatFixed(n, places)[|FormatFixed(n, places)| - 1])
  {
    var s := FormatFixed(n, places);
    var body := FixedBody(if n < 0 then -n else n, places);
    var sign := if n < 0 then "-" else "";
    assert s == sign + body;
    assert forall i :: 0 <= i < |body| ==> s[|sign| + i] == body[i];
  }

  lemma {:induction false} FormattedUnpadded(n: int, places: nat, s: string)
    requires s == FormatFixed(n, places)
    ensures PyText.Strip(s) == s
  {
    FormatFixedChars(n, places);
    PyText.StripUnpadded(s);
  }

  lemma {:induction false} FormattedLiteral(n: int, places: nat, s: string)
    requires s == FormatFixed(n, places)
    ensures ParseLiteral(s) == Negated(n < 0, ParseUnsigned(FixedBody(if n < 0 then -n else n, places)))
  {
    var body := FixedBody(if n < 0 then -n else n, places);
    assert s == (if n < 0 then "-" else "") + body;
    ParseLiteralSign(n < 0, body);
  }

  /** Putting the sign back on `|n| / t` gives `n / t`. */
  lemma {:induction false} SignedQuotient(n: int, t: real)
    requires t > 0.0
    ensures Negated(n < 0, Some((if n < 0 then -n else n) as real / t)) == Some(n as real / t)
  {
    if n < 0 {
      var m := -n;
      NegatedQuotient(m as real, t);
      assert (-m) as real == n as real;
      assert -(m as real) == (-m) as real;
    }
  }

  lemma {:induction false} NegatedQuotient(x: real, t: real)
    requires t > 0.0
    ensures -(x / t) == (-x) / t
  {
  }
}
