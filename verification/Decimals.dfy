/** Decimal normalisation: round half to even, print canonically, compare bytes. The backend's
    normaliser and its frontend mirror, over values written as plain decimal strings. */
module Decimals {
  import opened Basics
  import opened Digits

  /** The value coef / 10^scale, as decimal.js holds a parsed literal. */
  datatype Dec = Dec(coef: int, scale: nat)

  datatype NumError = BadPrecision | Unparseable

  function Abs(n: int): nat {
    if n < 0 then -n else n
  }

  /** Digits with at most one dot and at least one digit. */
  function ParseMagnitude(body: string): Option<(nat, nat)> {
    var dot := FirstDot(body);
    var whole, frac := body[..dot], if dot < |body| then body[dot + 1..] else [];
    if !AllDigits(whole) || !AllDigits(frac) || |whole| + |frac| == 0 then None
    else Some((ReadNat(whole + frac), |frac|))
  }

  predicate IsNegative(s: string) {
    s != [] && s[0] == '-'
  }

  function Unsigned(s: string): string {
    if s != [] && (s[0] == '-' || s[0] == '+') then s[1..] else s
  }

  /** A plain decimal literal: an optional sign, then a magnitude. */
  function ParseDecimal(s: string): Option<Dec> {
    var m := ParseMagnitude(Unsigned(s));
    if m.None? then None
    else Some(Dec(if IsNegative(s) then 0 - m.value.0 else m.value.0, m.value.1))
  }

  /** m / unit rounded to the nearest integer, ties to the even one. */
  function HalfEven(m: nat, unit: int): (n: nat)
    requires unit >= 1
    ensures -unit <= 2 * (n * unit - m) <= unit
    ensures 2 * (n * unit - m) == unit || 2 * (n * unit - m) == -unit ==> n % 2 == 0
  {
    var q, r := Quot(m, unit), Rem(m, unit);
    HalfEvenGaps(m, unit, q, r);
    if 2 * r > unit || (2 * r == unit && q % 2 == 1) then q + 1 else q
  }

  lemma HalfEvenGaps(m: int, unit: int, q: int, r: int)
    requires m == q * unit + r
    ensures q * unit - m == -r && (q + 1) * unit - m == unit - r
  {
    assert (q + 1) * unit == q * unit + unit;
  }

  /** decimal.js rounds the digits of the magnitude; the sign is reattached afterwards. */
  function RoundMagnitude(m: nat, scale: nat, p: nat): (n: nat) {
    if scale <= p then
      ScaleStrict(0, m, Pow10(p - scale));
      m * Pow10(p - scale)
    else HalfEven(m, Pow10(scale - p))
  }

  /** The digits of m / 10^p with exactly p of them behind the dot. */
  function PrintFixed(m: nat, p: nat): string {
    PrintNat(Quot(m, Pow10(p))) + if p == 0 then "" else "." + PrintPadded(Rem(m, Pow10(p)), p)
  }

  /** decimal.js toFixed under ROUND_HALF_EVEN: the minus sign is decided before rounding. */
  function ToFixed(d: Dec, p: nat): string {
    (if d.coef < 0 then "-" else "") + PrintFixed(RoundMagnitude(Abs(d.coef), d.scale, p), p)
  }

  /** One or more zeros, optionally a dot and one or more zeros. */
  predicate IsZeroText(t: string) {
    var dot := FirstDot(t);
    && dot > 0 && AllZeros(t[..dot])
    && (dot < |t| ==> dot + 1 < |t| && AllZeros(t[dot + 1..]))
  }

  function NormalizeNumDec(value: string, precision: int): Result<string, NumError> {
    if precision < 0 then Err(BadPrecision)
    else match ParseDecimal(value)
      case None => Err(Unparseable)
      case Some(d) =>
        var out := ToFixed(d, precision);
        if out[0] == '-' && IsZeroText(out[1..]) then Ok(out[1..]) else Ok(out)
  }

  /** The frontend mirror: it compares against the printed zero instead of matching a pattern. */
  function RoundHalfToEven(value: string, precision: int): Result<string, NumError> {
    if precision < 0 then Err(BadPrecision)
    else match ParseDecimal(value)
      case None => Err(Unparseable)
      case Some(d) =>
        var out, zero := ToFixed(d, precision), ToFixed(Dec(0, 0), precision);
        if out == "-" + zero then Ok(zero) else Ok(out)
  }

  function ByteEqualNormalized(answer: string, candidate: string, precision: int): Result<bool, NumError> {
    match NormalizeNumDec(answer, precision)
    case Err(e) => Err(e)
    case Ok(a) =>
      match NormalizeNumDec(candidate, precision)
      case Err(e) => Err(e)
      case Ok(b) => Ok(a == b)
  }

  // ---- what normalisation means ----

  /** n is a nearest integer to c * 10^p / 10^s, and the even one when two are equally near. */
  ghost predicate NearestEven(c: int, s: nat, n: int, p: nat) {
    var gap := 2 * (n * Pow10(s) - c * Pow10(p));
    -Pow10(s) <= gap <= Pow10(s) && (gap == Pow10(s) || gap == -Pow10(s) ==> n % 2 == 0)
  }

  function Rounded(d: Dec, p: nat): int {
    var m: int := RoundMagnitude(Abs(d.coef), d.scale, p);
    if d.coef < 0 then -m else m
  }

  /** The canonical text of n / 10^p: no sign on zero. */
  function Canonical(n: int, p: nat): string {
    (if n < 0 then "-" else "") + PrintFixed(Abs(n), p)
  }

  lemma Scale(a: int, b: int, k: int)
    requires a <= b && k >= 0
    ensures a * k <= b * k
  {
  }

  lemma ScaleStrict(a: int, b: int, k: int)
    requires k > 0
    ensures a * k == b * k <==> a == b
    ensures a * k <= b * k <==> a <= b
  {
    if a < b {
      assert (b - a) * k > 0;
    } else if b < a {
      assert (a - b) * k > 0;
    }
  }

  lemma GapScales(n: int, m: int, unit: int, t: int)
    requires unit >= 1 && t >= 1
    requires var g := 2 * (n * unit - m); -unit <= g <= unit && (g == unit || g == -unit ==> n % 2 == 0)
    ensures var g, u := 2 * (n * (unit * t) - m * t), unit * t;
            -u <= g <= u && (g == u || g == -u ==> n % 2 == 0)
  {
    var g := 2 * (n * unit - m);
    assert 2 * (n * (unit * t) - m * t) == g * t by {
      assert n * (unit * t) == (n * unit) * t;
      assert (n * unit) * t - m * t == (n * unit - m) * t;
    }
    ScaleStrict(g, unit, t);
    ScaleStrict(-unit, g, t);
    assert (-unit) * t == -(unit * t);
  }

  lemma ExactlyScaled(m: int, a: int, b: int)
    ensures (m * a) * b == m * (a * b)
  {
  }

  lemma MagnitudeIsNearest(m: nat, s: nat, p: nat)
    ensures NearestEven(m, s, RoundMagnitude(m, s, p), p)
  {
    if s <= p {
      Pow10Sum(p - s, s);
      ExactlyScaled(m, Pow10(p - s), Pow10(s));
    } else {
      Pow10Sum(s - p, p);
      GapScales(HalfEven(m, Pow10(s - p)), m, Pow10(s - p), Pow10(p));
    }
  }

  lemma NearestNegates(c: int, s: nat, n: int, p: nat)
    requires NearestEven(c, s, n, p)
    ensures NearestEven(-c, s, -n, p)
  {
    assert (-n) * Pow10(s) == -(n * Pow10(s));
    assert (-c) * Pow10(p) == -(c * Pow10(p));
  }

  /** The rounded integer is nearest, ties to even, for either sign. */
  lemma RoundedIsNearest(d: Dec, p: nat)
    ensures NearestEven(d.coef, d.scale, Rounded(d, p), p)
  {
    MagnitudeIsNearest(Abs(d.coef), d.scale, p);
    NearestNegates(Abs(d.coef), d.scale, RoundMagnitude(Abs(d.coef), d.scale, p), p);
  }

  /** Values compared exactly: c1 / 10^s1 <= c2 / 10^s2. */
  ghost predicate AtMost(a: Dec, b: Dec) {
    a.coef * Pow10(b.scale) <= b.coef * Pow10(a.scale)
  }

  lemma CommonDenominator(u: int, x: int, a: int, b: int, w: int, y: int)
    requires x >= 1 && y >= 1 && u * x <= 2 * a && 2 * b <= w * y && a * y <= b * x
    ensures u <= w && (u == w ==> u * x == 2 * a && w * y == 2 * b)
  {
    var k := x * y;
    assert k >= 1 by {
      ScaleStrict(1, x, y);
    }
    Scale(u * x, 2 * a, y);
    Scale(2 * b, w * y, x);
    assert (u * x) * y == u * k && (w * y) * x == w * k;
    assert (2 * a) * y == 2 * (a * y) && (2 * b) * x == 2 * (b * x);
    ScaleStrict(u, w, k);
    if u == w {
      ScaleStrict(u * x, 2 * a, y);
      ScaleStrict(2 * b, w * y, x);
    }
  }

  /** Any nearest-even choices of two ordered values are ordered. */
  lemma NearestIsMonotone(a: Dec, b: Dec, m: int, n: int, p: nat)
    requires AtMost(a, b) && NearestEven(a.coef, a.scale, m, p) && NearestEven(b.coef, b.scale, n, p)
    ensures m <= n
  {
    NearestOverCommonDenominator(a.coef, Pow10(a.scale), b.coef, Pow10(b.scale), Pow10(p), m, n);
  }

  lemma NearestOverCommonDenominator(ca: int, x: int, cb: int, y: int, t: int, m: int, n: int)
    requires x >= 1 && y >= 1 && t >= 1 && ca * y <= cb * x
    requires 2 * (m * x - ca * t) <= x && (2 * (m * x - ca * t) == x ==> m % 2 == 0)
    requires -y <= 2 * (n * y - cb * t) && (2 * (n * y - cb * t) == -y ==> n % 2 == 0)
    ensures m <= n
  {
    ScaleNumerators(ca, x, cb, y, t);
    OddMultiples(m, x);
    OddMultiples(n, y);
    CommonDenominator(2 * m - 1, x, ca * t, cb * t, 2 * n + 1, y);
  }

  lemma ScaleNumerators(ca: int, x: int, cb: int, y: int, t: int)
    requires t >= 1 && ca * y <= cb * x
    ensures (ca * t) * y <= (cb * t) * x
  {
    Scale(ca * y, cb * x, t);
    assert (ca * y) * t == (ca * t) * y && (cb * x) * t == (cb * t) * x;
  }

  lemma OddMultiples(m: int, x: int)
    ensures (2 * m - 1) * x == 2 * (m * x) - x && (2 * m + 1) * x == 2 * (m * x) + x
  {
  }

  /** Rounding is the only function with the nearest-even property, ... */
  lemma RoundedIsTheNearest(d: Dec, p: nat, n: int)
    ensures NearestEven(d.coef, d.scale, n, p) <==> n == Rounded(d, p)
  {
    RoundedIsNearest(d, p);
    if NearestEven(d.coef, d.scale, n, p) {
      NearestIsMonotone(d, d, n, Rounded(d, p), p);
      NearestIsMonotone(d, d, Rounded(d, p), n, p);
    }
  }

  /** ... monotone, and odd. */
  lemma RoundedIsMonotoneAndOdd(a: Dec, b: Dec, p: nat)
    ensures AtMost(a, b) ==> Rounded(a, p) <= Rounded(b, p)
    ensures Rounded(Dec(-a.coef, a.scale), p) == -Rounded(a, p)
  {
    RoundedIsNearest(a, p);
    RoundedIsNearest(b, p);
    if AtMost(a, b) {
      NearestIsMonotone(a, b, Rounded(a, p), Rounded(b, p), p);
    }
    if a.coef == 0 {
      assert RoundMagnitude(0, a.scale, p) == 0;
    }
  }

  // ---- texts ----

  /** The two digit groups of a printed number. */
  function Whole(m: nat, p: nat): string {
    PrintNat(Quot(m, Pow10(p)))
  }

  function Frac(m: nat, p: nat): string {
    PrintPadded(Rem(m, Pow10(p)), p)
  }

  lemma PrintFixedParts(m: nat, p: nat)
    ensures var whole, frac, out := Whole(m, p), Frac(m, p), PrintFixed(m, p);
            && FirstDot(out) == |whole| && out[..|whole|] == whole
            && (p == 0 ==> out == whole && frac == [])
            && (p > 0 ==> |out| == |whole| + 1 + p && out[|whole| + 1..] == frac)
            && out != [] && IsDigit(out[0])
  {
    assert PrintFixed(m, p)[0] == Whole(m, p)[0];
    FirstDotIs(PrintFixed(m, p), |Whole(m, p)|);
  }

  lemma PartsDenote(m: nat, p: nat)
    ensures ReadNat(Whole(m, p)) * Pow10(p) + ReadNat(Frac(m, p)) == m
    ensures ReadNat(Whole(m, p) + Frac(m, p)) == m
  {
    ReadConcat(Whole(m, p), Frac(m, p));
    ReadPrintNat(Quot(m, Pow10(p)));
    ReadPrintPadded(Rem(m, Pow10(p)), p);
  }

  lemma ParseParts(body: string, whole: string, frac: string)
    requires AllDigits(whole) && AllDigits(frac) && whole != []
    requires FirstDot(body) == |whole| && body[..|whole|] == whole
    requires if |whole| < |body| then body[|whole| + 1..] == frac else frac == []
    ensures ParseMagnitude(body) == Some((ReadNat(whole + frac), |frac|))
  {
  }

  lemma ParsePrintFixed(m: nat, p: nat)
    ensures ParseMagnitude(PrintFixed(m, p)) == Some((m, p))
  {
    PrintFixedParts(m, p);
    PartsDenote(m, p);
    ParseParts(PrintFixed(m, p), Whole(m, p), Frac(m, p));
  }

  /** A magnitude may stand alone or behind a minus sign. */
  lemma SignedText(body: string)
    requires body != [] && IsDigit(body[0])
    ensures Unsigned(body) == body && !IsNegative(body)
    ensures Unsigned("-" + body) == body && IsNegative("-" + body)
  {
  }

  /** Reading back a canonical text gives exactly the number it was printed from. */
  lemma ParseCanonical(n: int, p: nat)
    ensures ParseDecimal(Canonical(n, p)) == Some(Dec(n, p))
  {
    var body, s := PrintFixed(Abs(n), p), Canonical(n, p);
    assert Unsigned(s) == body && (IsNegative(s) <==> n < 0) by {
      PrintFixedParts(Abs(n), p);
      SignedText(body);
      assert "" + body == body;
    }
    assert ParseMagnitude(Unsigned(s)) == Some((Abs(n), p)) by {
      ParsePrintFixed(Abs(n), p);
    }
  }

  lemma ZeroTextIsZero(m: nat, p: nat)
    ensures IsZeroText(PrintFixed(m, p)) <==> m == 0
  {
    PrintFixedParts(m, p);
    PartsDenote(m, p);
    ReadZeros(Whole(m, p));
    ReadZeros(Frac(m, p));
    ScaleStrict(0, ReadNat(Whole(m, p)), Pow10(p));
  }

  /** Canonical texts are distinct, carry exactly p digits behind the dot, and none is a negative zero. */
  lemma CanonicalShape(n: int, p: nat)
    ensures p == 0 ==> forall i :: 0 <= i < |Canonical(n, p)| ==> Canonical(n, p)[i] != '.'
    ensures p > 0 ==> FirstDot(Canonical(n, p)) == |Canonical(n, p)| - p - 1
    ensures !(Canonical(n, p)[0] == '-' && IsZeroText(Canonical(n, p)[1..]))
    ensures forall k :: Canonical(k, p) == Canonical(n, p) ==> k == n
  {
    var body, s := PrintFixed(Abs(n), p), Canonical(n, p);
    PrintFixedParts(Abs(n), p);
    ZeroTextIsZero(Abs(n), p);
    if n < 0 {
      assert s[1..] == body;
      assert forall i :: 0 < i < |s| ==> s[i] == body[i - 1];
      FirstDotIs(s, 1 + FirstDot(body));
    } else {
      assert s == body;
    }
    ParseCanonical(n, p);
    forall k | Canonical(k, p) == s
      ensures k == n
    {
      ParseCanonical(k, p);
    }
  }

  /** Both collapses, of a text that may stand behind a minus sign, drop the sign exactly of zero. */
  lemma CollapsePicks(negative: bool, body: string, zero: string, isZero: bool)
    requires body != [] && body[0] != '-' && zero != [] && zero[0] != '-'
    requires (IsZeroText(body) <==> isZero) && (body == zero <==> isZero)
    ensures var out := (if negative then "-" else "") + body;
            && out != []
            && (if out[0] == '-' && IsZeroText(out[1..]) then out[1..] else out)
               == (if negative && !isZero then "-" else "") + body
            && (if out == "-" + zero then zero else out) == (if negative && !isZero then "-" else "") + body
  {
    assert ("-" + body)[1..] == body && ("-" + zero)[1..] == zero;
    assert "" + body == body;
  }

  lemma PrintedZero(m: nat, p: nat)
    ensures var body, zero := PrintFixed(m, p), PrintFixed(0, p);
            && body != [] && body[0] != '-' && zero != [] && zero[0] != '-'
            && (IsZeroText(body) <==> m == 0) && (body == zero <==> m == 0)
  {
    ZeroTextIsZero(m, p);
    PrintFixedParts(m, p);
    PrintFixedParts(0, p);
    if PrintFixed(m, p) == PrintFixed(0, p) {
      ParsePrintFixed(m, p);
      ParsePrintFixed(0, p);
    }
  }

  lemma SignOf(negative: bool, m: nat, p: nat)
    ensures var n: int := if negative then 0 - m else m;
            Canonical(n, p) == (if negative && m != 0 then "-" else "") + PrintFixed(m, p)
  {
  }

  /** Both collapses turn a signed print into the canonical text of the signed number. */
  lemma CollapseSign(negative: bool, m: nat, p: nat)
    ensures var body, zero := PrintFixed(m, p), PrintFixed(0, p);
            var out, n: int := (if negative then "-" else "") + body, if negative then 0 - m else m;
            && out != []
            && (if out[0] == '-' && IsZeroText(out[1..]) then out[1..] else out) == Canonical(n, p)
            && (if out == "-" + zero then zero else out) == Canonical(n, p)
  {
    PrintedZero(m, p);
    CollapsePicks(negative, PrintFixed(m, p), PrintFixed(0, p), m == 0);
    SignOf(negative, m, p);
  }

  lemma ToFixedZero(p: nat)
    ensures ToFixed(Dec(0, 0), p) == PrintFixed(0, p)
  {
    assert RoundMagnitude(0, 0, p) == 0;
    assert "" + PrintFixed(0, p) == PrintFixed(0, p);
  }

  /** Normalisation prints the nearest-even integer canonically; the frontend mirror returns the
      same bytes, and both fail on exactly the same inputs. */
  lemma NormalizeIsCanonical(value: string, precision: int)
    ensures NormalizeNumDec(value, precision) ==
            if precision < 0 then Err(BadPrecision)
            else if ParseDecimal(value).None? then Err(Unparseable)
            else Ok(Canonical(Rounded(ParseDecimal(value).value, precision), precision))
    ensures RoundHalfToEven(value, precision) == NormalizeNumDec(value, precision)
  {
    if precision >= 0 && ParseDecimal(value).Some? {
      var d := ParseDecimal(value).value;
      ToFixedZero(precision);
      CollapseSign(d.coef < 0, RoundMagnitude(Abs(d.coef), d.scale, precision), precision);
    }
  }

  /** Normalised text denotes the rounded number, and normalising it again changes nothing. */
  lemma NormalizeRoundTrips(value: string, precision: int)
    ensures var r := NormalizeNumDec(value, precision);
            (r.Ok? <==> precision >= 0 && ParseDecimal(value).Some?)
            && (r.Ok? ==>
                  && ParseDecimal(r.value) == Some(Dec(Rounded(ParseDecimal(value).value, precision), precision))
                  && NormalizeNumDec(r.value, precision) == r)
  {
    NormalizeIsCanonical(value, precision);
    if precision >= 0 && ParseDecimal(value).Some? {
      var n := Rounded(ParseDecimal(value).value, precision);
      ParseCanonical(n, precision);
      NormalizeIsCanonical(Canonical(n, precision), precision);
      assert Pow10(0) == 1;
      assert Rounded(Dec(n, precision), precision) == n;
    }
  }

  /** Byte equality decides equality of the rounded numbers; it fails only where normalising fails. */
  lemma ByteEqualIsEqualRounding(a: string, b: string, precision: int)
    ensures var r := ByteEqualNormalized(a, b, precision);
            if precision < 0 then r == Err(BadPrecision)
            else if ParseDecimal(a).None? || ParseDecimal(b).None? then r == Err(Unparseable)
            else r == Ok(Rounded(ParseDecimal(a).value, precision) == Rounded(ParseDecimal(b).value, precision))
  {
    NormalizeIsCanonical(a, precision);
    NormalizeIsCanonical(b, precision);
    if precision >= 0 && ParseDecimal(a).Some? && ParseDecimal(b).Some? {
      CanonicalShape(Rounded(ParseDecimal(a).value, precision), precision);
    }
  }
}
