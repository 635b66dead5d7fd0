/**
 * Decimal text and numbers: the parse that stands for Python's `float(text)` and the
 * fixed-point rendering that stands for the format specifier `:.4f`.
 */
module Numbers {
  import opened Wrappers
  import opened Text

  predicate IsDigit(c: char) {
    '0' <= c <= '9'
  }

  predicate AllDigits(s: string) {
    forall i :: 0 <= i < |s| ==> IsDigit(s[i])
  }

  function DigitValue(c: char): (d: nat)
    requires IsDigit(c)
    ensures d < 10
  {
    c as int - '0' as int
  }

  function DigitChar(d: nat): (c: char)
    requires d < 10
    ensures IsDigit(c) && DigitValue(c) == d
  {
    ('0' as int + d) as char
  }

  function Pow10(n: nat): (p: nat)
    ensures p >= 1
  {
    if n == 0 then 1 else 10 * Pow10(n - 1)
  }

  /** The value of a string of decimal digits, most significant first. */
  function DigitsValue(s: string): (v: nat)
    requires AllDigits(s)
    decreases |s|
  {
    if s == [] then 0 else DigitsValue(s[..|s| - 1]) * 10 + DigitValue(s[|s| - 1])
  }

  /** The shortest decimal digits of `n`, without leading zeros. */
  function NatDigits(n: nat): (s: string)
    ensures |s| >= 1 && AllDigits(s)
    ensures DigitsValue(s) == n
    ensures n > 0 ==> s[0] != '0'
  {
    if n < 10 then [DigitChar(n)]
    else
      var s := NatDigits(n / 10) + [DigitChar(n % 10)];
      assert s[..|s| - 1] == NatDigits(n / 10);
      s
  }

  /** Exactly `width` decimal digits of `n`, padded with leading zeros. */
  function FixedDigits(n: nat, width: nat): (s: string)
    requires n < Pow10(width)
    ensures |s| == width && AllDigits(s)
    ensures DigitsValue(s) == n
  {
    if width == 0 then []
    else
      var s := FixedDigits(n / 10, width - 1) + [DigitChar(n % 10)];
      assert s[..|s| - 1] == FixedDigits(n / 10, width - 1);
      s
  }

  /** The four digits after the point in `:.4f`. */
  function Fraction4(n: nat): (s: string)
    requires n < 10000
    ensures |s| == 4 && AllDigits(s)
    ensures DigitsValue(s) == n
  {
    assert Pow10(4) == 10000 by {
      assert Pow10(1) == 10 && Pow10(2) == 100 && Pow10(3) == 1000;
    }
    FixedDigits(n, 4)
  }

  /** The number of leading decimal digits of `s`. */
  function LeadingDigits(s: string): (k: nat)
    ensures k <= |s| && AllDigits(s[..k])
    ensures k < |s| ==> !IsDigit(s[k])
  {
    if s != [] && IsDigit(s[0]) then
      var k := 1 + LeadingDigits(s[1..]);
      assert s[..k] == [s[0]] + s[1..][..k - 1];
      k
    else 0
  }

  /** Digits, optionally followed by `.` and more digits, with at least one digit overall. */
  function ParseUnsigned(u: string): (r: Option<real>)
    ensures r.Some? ==> 0.0 <= r.value
  {
    var k := LeadingDigits(u);
    if k == |u| then
      (if k > 0 then Some(DigitsValue(u) as real) else None)
    else if u[k] == '.' && AllDigits(u[k + 1..]) && (k > 0 || k + 1 < |u|) then
      Some(DigitsValue(u[..k]) as real + FractionValue(u[k + 1..]))
    else None
  }

  /** The value of the digits after a decimal point: `0.d1d2d3...`. */
  function FractionValue(ds: string): (f: real)
    requires AllDigits(ds)
    ensures 0.0 <= f < 1.0
  {
    if ds == [] then 0.0 else (DigitValue(ds[0]) as real + FractionValue(ds[1..])) / 10.0
  }

  /** Four digits after the point are worth their integer value over 10000. */
  lemma FractionOfFour(fp: string)
    requires |fp| == 4 && AllDigits(fp)
    ensures FractionValue(fp) == DigitsValue(fp) as real / 10000.0
  {
    var d0, d1, d2, d3 := DigitValue(fp[0]), DigitValue(fp[1]), DigitValue(fp[2]), DigitValue(fp[3]);
    assert FractionValue(fp[3..]) == d3 as real / 10.0 by {
      assert fp[3..][1..] == [];
    }
    assert FractionValue(fp[2..]) == (d2 as real + d3 as real / 10.0) / 10.0 by {
      assert fp[2..][1..] == fp[3..];
    }
    assert FractionValue(fp[1..]) == (d1 as real + FractionValue(fp[2..])) / 10.0 by {
      assert fp[1..][1..] == fp[2..];
    }
    assert DigitsValue(fp[..1]) == d0 by {
      assert fp[..1][..0] == [];
    }
    assert DigitsValue(fp[..2]) == d0 * 10 + d1 by {
      assert fp[..2][..1] == fp[..1];
    }
    assert DigitsValue(fp[..3]) == (d0 * 10 + d1) * 10 + d2 by {
      assert fp[..3][..2] == fp[..2];
    }
    assert DigitsValue(fp) == ((d0 * 10 + d1) * 10 + d2) * 10 + d3 by {
      assert fp[..3] == fp[..|fp| - 1];
    }
  }

  /** An optional `+` or `-` sign in front of an unsigned decimal. */
  function ParseSigned(t: string): (r: Option<real>) {
    if |t| > 0 && t[0] == '-' then
      (match ParseUnsigned(t[1..])
       case Some(v) => Some(-v)
       case None => None)
    else if |t| > 0 && t[0] == '+' then ParseUnsigned(t[1..])
    else ParseUnsigned(t)
  }

  /**
   * Python's `float(text)` on a string, as far as decimal notation goes: surrounding
   * whitespace is ignored; `None` stands for the `ValueError` the source catches.
   */
  function ParseNum(text: string): (r: Option<real>) {
    ParseSigned(Strip(text))
  }

  /** A JSON scalar as the market-data API delivers it: a number or a string. */
  datatype Scalar = JNumber(n: real) | JString(s: string)

  /** Python's `float(x)` on a JSON scalar: numbers convert exactly, strings are parsed. */
  function Float(x: Scalar): (r: Option<real>) {
    match x
    case JNumber(n) => Some(n)
    case JString(s) => ParseNum(s)
  }

  function Abs(x: real): (a: real) {
    if x < 0.0 then -x else x
  }

  /** `|p|` in units of 0.0001, rounded half away from zero. */
  function ScaledMagnitude(p: real): (q: nat) {
    (Abs(p) * 10000.0 + 0.5).Floor
  }

  /** The value that `:.4f` keeps of `p`: `p` rounded to four decimal places. */
  function Round4(p: real): (rounded: real) {
    ScaledValue(p < 0.0, ScaledMagnitude(p))
  }

  /** The number `±q / 10000`. */
  function ScaledValue(negative: bool, q: nat): (v: real) {
    if negative then -(q as real / 10000.0) else q as real / 10000.0
  }

  /** `f"{p:.4f}"`: an optional minus sign, the integer digits, a point and four digits. */
  function FormatFixed4(p: real): (text: string) {
    ScaledText(p < 0.0, ScaledMagnitude(p))
  }

  /** `±q / 10000` written with an optional minus sign and four digits after the point. */
  function ScaledText(negative: bool, q: nat): (text: string) {
    if negative then "-" + FixedPointText(q) else FixedPointText(q)
  }

  /** `q / 10000` written with exactly four digits after the point. */
  function FixedPointText(q: nat): (text: string) {
    NatDigits(q / 10000) + "." + Fraction4(q % 10000)
  }

  /** Rounding to four places moves a number by at most half a unit of the last place and keeps its sign. */
  lemma Round4Error(p: real)
    ensures Abs(Round4(p) - p) <= 0.00005
    ensures (Round4(p) < 0.0 ==> p < 0.0) && (Round4(p) > 0.0 ==> p > 0.0)
  {
    var q := ScaledMagnitude(p);
    assert q as real <= Abs(p) * 10000.0 + 0.5 < q as real + 1.0;
  }

  /** The characters `FormatFixed4` can produce. */
  predicate NumberChar(c: char) {
    IsDigit(c) || c == '-' || c == '.'
  }

  /** A formatted number has no whitespace, round brackets or percent signs in it. */
  lemma FormatFixed4Chars(p: real)
    ensures |FormatFixed4(p)| > 0
    ensures forall i :: 0 <= i < |FormatFixed4(p)| ==> NumberChar(FormatFixed4(p)[i])
  {
  }

  lemma {:induction false} LeadingDigitsOf(d: string, s: string)
    requires AllDigits(d)
    requires s == [] || !IsDigit(s[0])
    ensures LeadingDigits(d + s) == |d|
  {
    if d != [] {
      assert (d + s)[1..] == d[1..] + s;
      LeadingDigitsOf(d[1..], s);
    }
  }

  /** The integer part and the four fraction digits add up to the scaled value. */
  lemma FixedPointValue(q: nat)
    ensures (q / 10000) as real + (q % 10000) as real / 10000.0 == q as real / 10000.0
  {
    assert q == (q / 10000) * 10000 + q % 10000;
  }

  /** The unsigned part `I.FFFF` of a formatted number parses to its scaled value. */
  lemma ParseFixedPoint(q: nat, u: string)
    requires u == FixedPointText(q)
    ensures ParseUnsigned(u) == Some(q as real / 10000.0)
  {
    var ip, fp := NatDigits(q / 10000), Fraction4(q % 10000);
    assert u == ip + ("." + fp);
    LeadingDigitsOf(ip, "." + fp);
    var k := LeadingDigits(u);
    assert k == |ip| && k < |u| && u[k] == '.';
    assert u[..k] == ip;
    assert u[k + 1..] == fp;
    FractionOfFour(fp);
    FixedPointValue(q);
  }

  /** A leading minus sign negates an unsigned number that starts and ends with a digit. */
  lemma ParseNegated(u: string, v: real, t: string, w: real)
    requires |u| > 0 && IsDigit(u[0]) && IsDigit(u[|u| - 1])
    requires ParseUnsigned(u) == Some(v)
    requires t == "-" + u && w == -v
    ensures ParseNum(t) == Some(w)
  {
    StripUnchanged(t);
    assert t[0] == '-' && t[1..] == u;
  }

  /** Text that starts and ends with a digit is parsed without a sign. */
  lemma ParseUnsignedEdged(u: string, v: real)
    requires |u| > 0 && IsDigit(u[0]) && IsDigit(u[|u| - 1])
    requires ParseUnsigned(u) == Some(v)
    ensures ParseNum(u) == Some(v)
  {
    StripUnchanged(u);
    assert u[0] != '-' && u[0] != '+';
  }

  /** The unsigned text `I.FFFF` starts and ends with a digit. */
  lemma FixedPointEdges(q: nat, u: string)
    requires u == FixedPointText(q)
    ensures |u| > 0 && IsDigit(u[0]) && IsDigit(u[|u| - 1])
  {
    var ip, fp := NatDigits(q / 10000), Fraction4(q % 10000);
    assert u[0] == ip[0] && u[|u| - 1] == fp[3];
  }

  /** `I.FFFF` starts and ends with a digit and parses, unsigned, to `q / 10000`. */
  lemma FixedPointFacts(q: nat)
    ensures var u := FixedPointText(q);
            |u| > 0 && IsDigit(u[0]) && IsDigit(u[|u| - 1]) && ParseUnsigned(u) == Some(q as real / 10000.0)
  {
    FixedPointEdges(q, FixedPointText(q));
    ParseFixedPoint(q, FixedPointText(q));
  }

  /** `q / 10000` written with four decimals parses back to `q / 10000`. */
  lemma PlainFixedPoint(q: nat)
    ensures ParseNum(FixedPointText(q)) == Some(q as real / 10000.0)
  {
    assert ParseNum(FixedPointText(q)) == Some(q as real / 10000.0) by {
      FixedPointFacts(q);
      ParseUnsignedEdged(FixedPointText(q), q as real / 10000.0);
    }
  }

  /** `-q / 10000` written with a minus sign and four decimals parses back to `-q / 10000`. */
  lemma NegatedFixedPoint(q: nat)
    ensures ParseNum("-" + FixedPointText(q)) == Some(-(q as real / 10000.0))
  {
    FixedPointFacts(q);
    ParseNegated(FixedPointText(q), q as real / 10000.0, "-" + FixedPointText(q), -(q as real / 10000.0));
  }

  /** The text of a signed scaled value parses back to that value. */
  lemma ParseScaledText(negative: bool, q: nat)
    ensures ParseNum(ScaledText(negative, q)) == Some(ScaledValue(negative, q))
  {
    if negative {
      NegatedFixedPoint(q);
    } else {
      PlainFixedPoint(q);
    }
  }

  /** Parsing what `:.4f` wrote gives back the number rounded to four places. */
  lemma ParseFormatted(p: real)
    ensures ParseNum(FormatFixed4(p)) == Some(Round4(p))
  {
    ParseScaledText(p < 0.0, ScaledMagnitude(p));
  }

  /** Parsing the digits of a natural number gives that number. */
  lemma ParseNatDigits(n: nat)
    ensures ParseNum(NatDigits(n)) == Some(n as real)
  {
    var s := NatDigits(n);
    StripUnchanged(s);
    LeadingDigitsOf(s, "");
    assert s + "" == s;
  }
}
