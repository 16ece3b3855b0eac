/** Quantities as text: %.4f when a decision is written, strconv.ParseFloat when it
    is read back. Quantities are reals; what is read back may also be an infinity or no
    number. */
module Quantity {
  import opened Text

  const SCALE: real := 10000.0

  /** The nearest integer, a tie going to the even one. */
  function RoundHalfEven(x: real): int {
    var f := x.Floor;
    var d := x - f as real;
    if d < 0.5 then f else if d > 0.5 then f + 1 else if f % 2 == 0 then f else f + 1
  }

  /** How many ten-thousandths a quantity is written as. */
  function TenThousandths(q: real): (n: nat)
    requires q >= 0.0
  {
    RoundHalfEven(q * SCALE)
  }

  /** %.4f */
  function FormatQty(q: real): string {
    if q < 0.0 then "-" + FormatUnsigned(TenThousandths(-q)) else FormatUnsigned(TenThousandths(q))
  }

  function FormatUnsigned(n: nat): string {
    Decimal(n / 10000) + "." + ZeroPad(Decimal(n % 10000), 4)
  }

  /** A quantity rounded to four decimals. */
  function Rounded(q: real): real {
    if q < 0.0 then -(TenThousandths(-q) as real / SCALE) else TenThousandths(q) as real / SCALE
  }

  function Fraction(digits: string): real
    requires AllDigits(digits)
  {
    NatOf(digits) as real / Pow10(|digits|) as real
  }

  // ----- what ParseFloat yields -----

  datatype Float = Finite(value: real) | Infinite(negative: bool) | NaN

  const ZERO: Float := Finite(0.0)

  /** strconv.ParseFloat as the readers use it: its value, whatever its error. */
  type ParseFloat = string -> Float

  function Plus(a: Float, b: Float): Float {
    match (a, b)
    case (Finite(x), Finite(y)) => Finite(x + y)
    case (Infinite(m), Infinite(n)) => if m == n then a else NaN
    case (Infinite(_), Finite(_)) => a
    case (Finite(_), Infinite(_)) => b
    case _ => NaN
  }

  function Minus(a: Float, b: Float): Float {
    match b
    case Finite(y) => Plus(a, Finite(-y))
    case Infinite(n) => Plus(a, Infinite(!n))
    case NaN => NaN
  }

  /** Go's > 0 */
  predicate Positive(a: Float) {
    match a case Finite(x) => x > 0.0 case Infinite(n) => !n case NaN => false
  }

  /** Go's <= 0, which is not the opposite for what is no number */
  predicate AtMostZero(a: Float) {
    match a case Finite(x) => x <= 0.0 case Infinite(n) => n case NaN => false
  }

  /** maxFloat(a, 0) */
  function OrZero(a: Float): Float { if Positive(a) then a else ZERO }

  lemma PlusRegroups(a: Float, b: Float, c: Float)
    ensures Plus(Plus(a, b), c) == Plus(a, Plus(b, c))
    ensures Plus(a, b) == Plus(b, a) && Plus(a, ZERO) == a
  {
  }

  // ----- plain numerals -----

  /** Digits, a point, and digits. */
  function ParseUnsigned(s: string): Option<real> {
    var k := DigitRun(s);
    var whole, rest := s[..k], s[k..];
    if whole == "" || rest == "" || rest[0] != '.' || !AllDigits(rest[1..]) then None
    else Some(NatOf(whole) as real + Fraction(rest[1..]))
  }

  /** A numeral by place value; zero for any other text. */
  function PlaceValue(s: string): real {
    if s != "" && s[0] == '-' then
      match ParseUnsigned(s[1..]) case Some(v) => -v case None => 0.0
    else
      match ParseUnsigned(s) case Some(v) => v case None => 0.0
  }

  /** The nearest integer; of two at the same distance the even one. */
  lemma RoundingError(x: real)
    ensures var r := RoundHalfEven(x);
      -0.5 <= r as real - x <= 0.5 && (r as real - x == 0.5 || x - r as real == 0.5 ==> r % 2 == 0)
  {
  }

  /** Writing a quantity moves it by at most half a ten-thousandth. */
  lemma RoundedError(q: real)
    ensures -0.00005 <= Rounded(q) - q <= 0.00005
    ensures q >= 0.0 ==> Rounded(q) >= 0.0
  {
    if q < 0.0 { RoundingError(-q * SCALE); } else { RoundingError(q * SCALE); }
  }

  /** It is then a whole number of ten-thousandths, an even one if two were as near. */
  lemma RoundedToEven(q: real) returns (n: int)
    ensures Rounded(q) * 10000.0 == n as real
    ensures Rounded(q) - q == 0.00005 || q - Rounded(q) == 0.00005 ==> n % 2 == 0
  {
    if q < 0.0 {
      RoundingError(-q * SCALE);
      n := -(TenThousandths(-q) as int);
    } else {
      RoundingError(q * SCALE);
      n := TenThousandths(q);
    }
    assert (Rounded(q) - q) * SCALE == n as real - q * SCALE;
  }

  /** Rounding never passes a whole number of ten-thousandths. */
  lemma RoundedAtMost(q: real, k: nat)
    requires 0.0 <= q <= k as real / SCALE
    ensures Rounded(q) <= k as real / SCALE
  {
    assert q * SCALE <= k as real;
    assert TenThousandths(q) <= k;
  }

  lemma PlaceValues(n: nat)
    ensures n as real / SCALE == (n / 10000) as real + (n % 10000) as real / Pow10(4) as real
  {
    assert Pow10(3) == 10 * Pow10(2) && Pow10(2) == 10 * Pow10(1) && Pow10(1) == 10 * Pow10(0);
    var a, b := n / 10000, n % 10000;
    assert n as real == a as real * 10000.0 + b as real;
  }

  lemma {:induction false} ParsePoint(whole: string, frac: string)
    requires AllDigits(whole) && |whole| > 0 && AllDigits(frac)
    ensures ParseUnsigned(whole + "." + frac) == Some(NatOf(whole) as real + Fraction(frac))
  {
    hide Fraction, NatOf, DigitRun;
    var rest := "." + frac;
    Regroup(whole, ".", frac);
    DigitRunOf(whole, rest);
    assert (whole + rest)[..|whole|] == whole && (whole + rest)[|whole|..] == rest;
    assert rest[1..] == frac;
  }

  lemma ParseFormatted(n: nat)
    ensures ParseUnsigned(FormatUnsigned(n)) == Some(n as real / SCALE)
  {
    hide ParseUnsigned, NatOf, Decimal, ZeroPad;
    PlaceValues(n);
    DecimalDenotes(n / 10000);
    ZeroPadDenotes(n % 10000, 4);
    assert Pow10(4) == 10000 by { assert Pow10(3) == 10 * Pow10(2) && Pow10(2) == 10 * Pow10(1) && Pow10(1) == 10 * Pow10(0); }
    DecimalWidth(n % 10000, 4);
    ParsePoint(Decimal(n / 10000), ZeroPad(Decimal(n % 10000), 4));
  }

  lemma PlaceValueOfFormatted(q: real)
    ensures PlaceValue(FormatQty(q)) == Rounded(q)
  {
    if q < 0.0 {
      var t := FormatUnsigned(TenThousandths(-q));
      assert ("-" + t)[1..] == t;
      ParseFormatted(TenThousandths(-q));
    } else {
      ParseFormatted(TenThousandths(q));
      assert IsDigit(FormatQty(q)[0]) by { assert FormatQty(q)[0] == Decimal(TenThousandths(q) / 10000)[0]; }
    }
  }

  /** All that is asked of ParseFloat: what %.4f writes is read by place value. Other texts
      (exponents, hexadecimal, infinities) may be read as anything. */
  ghost predicate ReadsPrinted(parse: ParseFloat) {
    forall q: real :: parse(FormatQty(q)) == Finite(PlaceValue(FormatQty(q)))
  }

  /** Reading by place value is such a reading. */
  lemma PlaceValuesArePrinted()
    ensures ReadsPrinted(s => Finite(PlaceValue(s)))
  {
  }

  /** Reading a written quantity gives it rounded to four decimals. */
  lemma QtyRoundTrip(parse: ParseFloat, q: real)
    requires ReadsPrinted(parse)
    ensures parse(FormatQty(q)) == Finite(Rounded(q))
  {
    hide FormatQty, PlaceValue, Rounded;
    PlaceValueOfFormatted(q);
  }
}
