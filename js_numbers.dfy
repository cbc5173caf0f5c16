/** The part of JavaScript's number semantics the report code relies on: NaN, the infinities
    produced by division by zero, the `>` comparison, and `parseFloat` on a decimal prefix. */
module JsNumbers {

  datatype JsNumber = Finite(value: real) | NaN | PosInfinity | NegInfinity

  /** JavaScript `x > y` on numbers: false whenever either side is NaN. */
  predicate Gt(x: JsNumber, y: JsNumber) {
    match (x, y)
    case (NaN, _) => false
    case (_, NaN) => false
    case (Finite(a), Finite(b)) => a > b
    case (PosInfinity, PosInfinity) => false
    case (PosInfinity, _) => true
    case (_, PosInfinity) => false
    case (NegInfinity, _) => false
    case (Finite(_), NegInfinity) => true
  }

  /** JavaScript `x * c` for a positive constant `c`. */
  function Times(x: JsNumber, c: real): (r: JsNumber)
    requires c > 0.0
    ensures x.Finite? <==> r.Finite?
    ensures x.Finite? ==> r.value == x.value * c
    ensures x.NaN? <==> r.NaN?
  {
    match x
    case Finite(a) => Finite(a * c)
    case _ => x
  }

  /** JavaScript `a / b`: a finite quotient unless `b` is zero, in which case the result is an
      infinity with the sign of `a`, or NaN for `0 / 0`. */
  function Divide(a: real, b: real): (r: JsNumber)
    ensures r.Finite? <==> b != 0.0
    ensures r.Finite? ==> r.value * b == a
    ensures r.NaN? <==> a == 0.0 && b == 0.0
  {
    if b != 0.0 then Finite(a / b)
    else if a > 0.0 then PosInfinity
    else if a < 0.0 then NegInfinity
    else NaN
  }

  predicate IsDigit(c: char) {
    '0' <= c <= '9'
  }

  predicate AllDigits(s: string) {
    forall i :: 0 <= i < |s| ==> IsDigit(s[i])
  }

  function DigitValue(c: char): (d: nat)
    requires IsDigit(c)
    ensures d < 10
  {
    c as int - '0' as int
  }

  function DigitChar(d: nat): (c: char)
    requires d < 10
    ensures IsDigit(c) && DigitValue(c) == d
  {
    ('0' as int + d) as char
  }

  /** The length of the run of decimal digits that `s` starts with. */
  function LeadingDigits(s: string): (n: nat)
    ensures n <= |s|
    ensures AllDigits(s[..n])
    ensures n < |s| ==> !IsDigit(s[n])
  {
    if |s| > 0 && IsDigit(s[0]) then
      var n := 1 + LeadingDigits(s[1..]);
      assert s[..n] == [s[0]] + s[1..][..n - 1];
      n
    else 0
  }

  /** The value of a string of decimal digits, most significant first. */
  function DigitsValue(d: string): nat
    requires AllDigits(d)
  {
    if |d| == 0 then 0 else DigitsValue(d[..|d| - 1]) * 10 + DigitValue(d[|d| - 1])
  }

  function Pow10(n: nat): (p: nat)
    ensures p > 0
  {
    if n == 0 then 1 else 10 * Pow10(n - 1)
  }

  /** `parseFloat` on a decimal prefix: an optional sign, integer digits, and an optional `.`
      followed by fraction digits; at least one digit is needed, otherwise the result is NaN.
      Whatever follows the prefix (a unit such as `px`) is ignored. */
  function ParseFloat(s: string): (r: JsNumber)
    ensures r.Finite? || r.NaN?
    ensures |s| == 0 ==> r.NaN?
    ensures |s| > 0 && IsDigit(s[0]) ==> r.Finite? && r.value >= 0.0
    ensures |s| > 0 && !IsDigit(s[0]) && s[0] !in {'-', '+', '.'} ==> r.NaN?
  {
    var negative := |s| > 0 && s[0] == '-';
    var body := if |s| > 0 && (s[0] == '-' || s[0] == '+') then s[1..] else s;
    match Magnitude(body)
    case Finite(m) => Finite(if negative then -m else m)
    case _ => NaN
  }

  /** The unsigned part of `parseFloat`: integer digits, then an optional `.` and fraction
      digits, with at least one digit in all; NaN when there is none. */
  function Magnitude(body: string): (r: JsNumber)
    ensures r.Finite? || r.NaN?
    ensures r.Finite? ==> r.value >= 0.0
    ensures |body| > 0 && IsDigit(body[0]) ==> r.Finite?
    ensures |body| == 0 || (!IsDigit(body[0]) && body[0] != '.') ==> r.NaN?
  {
    var n := LeadingDigits(body);
    var rest := body[n..];
    var fraction := if |rest| > 0 && rest[0] == '.' then rest[1..][..LeadingDigits(rest[1..])] else [];
    if n == 0 && |fraction| == 0 then NaN
    else Finite(NumeralValue(body[..n], fraction))
  }

  /** The value of integer digits `d` followed by a point and fraction digits `f`. */
  function NumeralValue(d: string, f: string): real
    requires AllDigits(d) && AllDigits(f)
  {
    DigitsValue(d) as real + DigitsValue(f) as real / Pow10(|f|) as real
  }

  /** The decimal spelling of a natural number, without sign or leading zeros. */
  function NatToDigits(n: nat): (d: string)
    ensures |d| > 0 && AllDigits(d)
  {
    if n < 10 then [DigitChar(n)] else NatToDigits(n / 10) + [DigitChar(n % 10)]
  }

  lemma {:induction false} DigitsValueOfNat(n: nat)
    ensures DigitsValue(NatToDigits(n)) == n
  {
    var d := NatToDigits(n);
    if n >= 10 {
      DigitsValueOfNat(n / 10);
      assert d[..|d| - 1] == NatToDigits(n / 10);
    }
  }

  lemma {:induction false} LeadingDigitsOfAppend(d: string, u: string)
    requires AllDigits(d)
    requires u == [] || !IsDigit(u[0])
    ensures LeadingDigits(d + u) == |d|
  {
    if |d| > 0 {
      assert (d + u)[1..] == d[1..] + u;
      LeadingDigitsOfAppend(d[1..], u);
    } else {
      assert d + u == u;
    }
  }

  /** `parseFloat` reads back the decimal spelling of a natural number followed by any unit that
      does not start with a digit or a decimal point. */
  lemma ParseFloatOfNat(n: nat, unit: string)
    requires unit == [] || (!IsDigit(unit[0]) && unit[0] != '.')
    ensures ParseFloat(NatToDigits(n) + unit) == Finite(n as real)
  {
    var d := NatToDigits(n);
    var s := d + unit;
    assert s[0] == d[0] && IsDigit(s[0]);
    LeadingDigitsOfAppend(d, unit);
    assert s[..|d|] == d;
    assert s[|d|..] == unit;
    DigitsValueOfNat(n);
    assert DigitsValue([]) as real / Pow10(0) as real == 0.0;
  }
  /** A real with the sign a leading `-` gives it. */
  function Signed(sign: string, m: real): real {
    if sign == "-" then -m else m
  }

  /** A sign in front of a body: `parseFloat` reads the body and applies the sign. */
  lemma ParseFloatOfSigned(sign: string, body: string, v: real)
    requires sign == "" || sign == "-" || sign == "+"
    requires |body| > 0 && (IsDigit(body[0]) || body[0] == '.')
    requires Magnitude(body) == Finite(v)
    ensures ParseFloat(sign + body) == Finite(Signed(sign, v))
  {
    var s := sign + body;
    if |sign| == 1 {
      assert s[0] == sign[0] && s[1..] == body;
    } else {
      assert s == body && s[0] == body[0];
    }
  }

  /** Digits, a `.` and more digits (at least one digit in all) have as magnitude the integer
      digits plus the fraction digits scaled down by their count. */
  lemma MagnitudeOfPointedRun(body: string, n: nat, k: nat)
    requires n == LeadingDigits(body) && n < |body| && body[n] == '.'
    requires k == LeadingDigits(body[n + 1..]) && n + k > 0
    ensures Magnitude(body)
      == Finite(NumeralValue(body[..n], body[n + 1..][..k]))
  {
    assert body[n..][1..] == body[n + 1..];
  }

  /** The magnitude of digits `d`, a `.` and fraction digits `f`, followed by a unit that does not
      start with a digit, is the value of the numeral. */
  lemma MagnitudeOfDecimal(d: string, f: string, unit: string)
    requires AllDigits(d) && AllDigits(f) && |d| + |f| > 0
    requires unit == [] || !IsDigit(unit[0])
    ensures Magnitude(d + ("." + (f + unit))) == Finite(NumeralValue(d, f))
  {
    var body := d + ("." + (f + unit));
    assert LeadingDigits(body) == |d| && |d| < |body| && body[|d|] == '.' && body[..|d|] == d by {
      LeadingDigitsOfAppend(d, "." + (f + unit));
    }
    assert LeadingDigits(body[|d| + 1..]) == |f| && body[|d| + 1..][..|f|] == f by {
      assert body[|d| + 1..] == f + unit;
      LeadingDigitsOfAppend(f, unit);
      assert (f + unit)[..|f|] == f;
    }
    MagnitudeOfPointedRun(body, |d|, |f|);
  }

  /** A run of digits not followed by a `.` has the value of the run as its magnitude. */
  lemma MagnitudeOfDigitRun(body: string, n: nat)
    requires n == LeadingDigits(body) && n > 0
    requires !(|body[n..]| > 0 && body[n..][0] == '.')
    ensures Magnitude(body) == Finite(DigitsValue(body[..n]) as real)
  {
    assert DigitsValue([]) == 0;
  }

  /** The magnitude of digits `d` followed by a unit that starts with neither a digit nor a `.`
      is the value of the digits. */
  lemma MagnitudeOfInteger(d: string, unit: string)
    requires AllDigits(d) && |d| > 0
    requires unit == [] || (!IsDigit(unit[0]) && unit[0] != '.')
    ensures Magnitude(d + unit) == Finite(DigitsValue(d) as real)
  {
    var body := d + unit;
    LeadingDigitsOfAppend(d, unit);
    assert body[..|d|] == d;
    assert body[|d|..] == unit;
    MagnitudeOfDigitRun(body, |d|);
  }

  /** `parseFloat` of an optionally signed numeral with a decimal point: integer digits (leading
      zeros allowed, possibly none), a `.`, fraction digits (possibly none, but at least one digit
      in all), then any unit that does not start with a digit. The result is the numeral's value. */
  lemma ParseFloatOfDecimal(sign: string, d: string, f: string, unit: string)
    requires sign == "" || sign == "-" || sign == "+"
    requires AllDigits(d) && AllDigits(f) && |d| + |f| > 0
    requires unit == [] || !IsDigit(unit[0])
    ensures ParseFloat(sign + (d + ("." + (f + unit)))) == Finite(Signed(sign, NumeralValue(d, f)))
  {
    var body := d + ("." + (f + unit));
    var v := NumeralValue(d, f);
    assert |body| > 0 && (IsDigit(body[0]) || body[0] == '.') by {
      assert body[0] == if |d| > 0 then d[0] else '.';
    }
    MagnitudeOfDecimal(d, f, unit);
    ParseFloatOfSigned(sign, body, v);
  }

  /** `parseFloat` of an optionally signed run of digits (leading zeros allowed) followed by any
      unit that starts with neither a digit nor a decimal point: the value of the digits. */
  lemma ParseFloatOfInteger(sign: string, d: string, unit: string)
    requires sign == "" || sign == "-" || sign == "+"
    requires AllDigits(d) && |d| > 0
    requires unit == [] || (!IsDigit(unit[0]) && unit[0] != '.')
    ensures ParseFloat(sign + (d + unit)) == Finite(Signed(sign, DigitsValue(d) as real))
  {
    var body := d + unit;
    assert |body| > 0 && IsDigit(body[0]) by {
      assert body[0] == d[0];
    }
    MagnitudeOfInteger(d, unit);
    ParseFloatOfSigned(sign, body, DigitsValue(d) as real);
  }
}
