/**
 * Text forms of a number, with numbers taken as exact reals: `toFixed(0)` as
 * section 21.1.3.3 of ECMA-262 (2022 and later editions) defines it, and the plain
 * decimal text that `toString()` gives, together with a reader for that text.
 */
module NumberFormat {
  import opened Wrappers
  import opened Digits

  function Abs(x: real): real {
    if x < 0.0 then -x else x
  }

  predicate IsIntegral(x: real) {
    x.Floor as real == x
  }

  /**
   * The integer nearest to `x`, the larger of the two on a tie: the `n` that
   * `toFixed(0)` picks for a non-negative `x`.
   */
  function RoundHalfUp(x: real): (n: nat)
    requires x >= 0.0
    ensures x - 0.5 < n as real <= x + 0.5
  {
    (x + 0.5).Floor
  }

  /** No integer is nearer to `x` than `RoundHalfUp(x)`, and an equally near one is smaller. */
  lemma RoundHalfUpIsNearest(x: real, k: int)
    requires x >= 0.0
    ensures Abs(k as real - x) >= Abs(RoundHalfUp(x) as real - x)
    ensures Abs(k as real - x) == Abs(RoundHalfUp(x) as real - x) ==> k <= RoundHalfUp(x)
  {
    var n := RoundHalfUp(x);
    if k < n {
      assert k as real <= n as real - 1.0;
    } else if k > n {
      assert k as real >= n as real + 1.0;
    }
  }

  /** The threshold from which `toFixed` stops writing digits and falls back to `toString`. */
  const FixedLimit: real := 1_000_000_000_000_000_000_000.0

  /**
   * `x.toFixed(0)`: a minus sign for a negative `x` (so that -0.4 gives "-0"),
   * then the digits of the nearest integer to |x|, ties going up; from 10^21 on,
   * the plain text of |x| instead.
   */
  function ToFixed0(x: real): (s: string)
    ensures |s| >= 1 && IsDigit(s[|s| - 1])
    ensures s[0] == '-' <==> x < 0.0
  {
    var m := if Abs(x) >= FixedLimit then UnsignedDecimalText(Abs(x)) else NatToString(RoundHalfUp(Abs(x)));
    if x < 0.0 then "-" + m else m
  }

  /** For a non-negative `x` below 10^21, `toFixed(0)` is digits only and reads back as the nearest integer. */
  lemma ToFixed0Reads(x: real)
    requires 0.0 <= x < FixedLimit
    ensures AllDigits(ToFixed0(x))
    ensures ParseNat(ToFixed0(x)) == RoundHalfUp(x)
  {
    ParseNatToString(RoundHalfUp(x));
    assert ToFixed0(x) == NatToString(RoundHalfUp(x));
  }

  /** A negative `x` is written as a minus sign followed by `toFixed(0)` of its magnitude. */
  lemma ToFixed0Negative(x: real)
    requires x < 0.0
    ensures ToFixed0(x) == "-" + ToFixed0(-x)
  {
  }

  /** The most fraction digits the plain decimal text writes. */
  const MaxFractionDigits: nat := 20

  /** `x` scaled by 10^d. */
  function Scaled(x: real, d: nat): (r: real)
    ensures x >= 0.0 ==> r >= 0.0
  {
    x * Pow10(d) as real
  }

  /**
   * The fewest fraction digits, from `d` on, that write `x` exactly, or
   * `MaxFractionDigits` when none up to that does.
   */
  function FractionDigits(x: real, d: nat): (r: nat)
    requires d <= MaxFractionDigits
    ensures d <= r <= MaxFractionDigits
    ensures r < MaxFractionDigits ==> IsIntegral(Scaled(x, r))
    decreases MaxFractionDigits - d
  {
    if d == MaxFractionDigits || IsIntegral(Scaled(x, d)) then d else FractionDigits(x, d + 1)
  }

  /** No fewer fraction digits, from `d` on, write `x` exactly. */
  lemma {:induction false} FractionDigitsFewest(x: real, d: nat, e: nat)
    requires d <= MaxFractionDigits && d <= e < FractionDigits(x, d)
    ensures !IsIntegral(Scaled(x, e))
    decreases MaxFractionDigits - d
  {
    if d < e {
      FractionDigitsFewest(x, d + 1, e);
    }
  }

  /**
   * The plain decimal text of a non-negative `x`: the integer part, then a point
   * and the fewest fraction digits that write `x` exactly, cut at `MaxFractionDigits`.
   */
  function UnsignedDecimalText(x: real): (s: string)
    requires x >= 0.0
    ensures |s| >= 1 && IsDigit(s[0]) && IsDigit(s[|s| - 1])
  {
    var d := FractionDigits(x, 0);
    FixedPointText(ScaledFloor(x, d), d)
  }

  /** The integer part of `x` scaled by 10^d. */
  function ScaledFloor(x: real, d: nat): (n: nat)
    requires x >= 0.0
    ensures n as real <= Scaled(x, d) < n as real + 1.0
  {
    Scaled(x, d).Floor
  }

  /** The digits of `n / 10^d` with a point before its last `d` digits (none when `d` is 0). */
  function FixedPointText(n: nat, d: nat): (s: string)
    ensures |s| >= 1 && IsDigit(s[0]) && IsDigit(s[|s| - 1])
  {
    var whole := WholeText(n, d);
    if d == 0 then whole
    else
      var frac := FractionText(n, d);
      assert IsDigit(frac[|frac| - 1]);
      whole + "." + frac
  }

  /** The digits of `n / 10^d`. */
  function WholeText(n: nat, d: nat): (s: string)
    ensures |s| >= 1 && AllDigits(s)
  {
    NatToString(DivPow10(n, d))
  }

  /** The last `d` digits of `n`, leading zeros kept. */
  function FractionText(n: nat, d: nat): (s: string)
    ensures |s| >= 1 && AllDigits(s)
  {
    var digits := NatToString(ModPow10(n, d));
    var s := PadStart(digits, d, '0');
    assert forall i :: 0 <= i < |s| ==> s[i] == '0' || s[i] == digits[i - (|s| - |digits|)];
    s
  }

  /**
   * The plain decimal text of `x`, the form `toString()` gives between 10^-6 and
   * 10^21: a minus sign exactly for a negative `x`, and a digit at the end.
   */
  function DecimalText(x: real): (s: string)
    ensures |s| >= 1 && IsDigit(s[|s| - 1])
    ensures s[0] == '-' <==> x < 0.0
  {
    if x < 0.0 then "-" + UnsignedDecimalText(-x) else UnsignedDecimalText(x)
  }

  /**
   * A short number written with a point does not end in a zero: every fraction
   * digit it writes is needed.
   */
  lemma DecimalTextNoTrailingZero(x: real)
    requires IsShortDecimal(x) && FractionDigits(Abs(x), 0) > 0
    ensures DecimalText(x)[|DecimalText(x)| - 1] != '0'
  {
    var y := Abs(x);
    if x < 0.0 {
      ShortDecimalNegated(x);
      assert DecimalText(x) == "-" + UnsignedDecimalText(y);
    } else {
      assert DecimalText(x) == UnsignedDecimalText(y);
    }
    UnsignedNoTrailingZero(y);
  }

  lemma UnsignedNoTrailingZero(y: real)
    requires y >= 0.0 && IsShortDecimal(y) && FractionDigits(y, 0) > 0
    ensures UnsignedDecimalText(y)[|UnsignedDecimalText(y)| - 1] != '0'
  {
    var d := FractionDigits(y, 0);
    var n := ScaledFloor(y, d);
    assert UnsignedDecimalText(y) == FixedPointText(n, d);
    UnitsDigitNonZero(y, n);
    LastFractionDigit(n, d);
  }

  /** Scaled by its fewest fraction digits, a short number is not a multiple of ten. */
  lemma UnitsDigitNonZero(y: real, n: nat)
    requires y >= 0.0 && IsShortDecimal(y) && FractionDigits(y, 0) > 0
    requires n == ScaledFloor(y, FractionDigits(y, 0))
    ensures n % 10 != 0
  {
    var d := FractionDigits(y, 0);
    assert IsIntegral(Scaled(y, d));
    if n % 10 == 0 {
      DropTrailingZero(y, d, n / 10);
      FractionDigitsFewest(y, 0, d - 1);
      assert false;
    }
  }

  /** With a point, the fixed-point text ends in the last digit of `n`. */
  lemma LastFractionDigit(n: nat, d: nat)
    requires d >= 1
    ensures FixedPointText(n, d)[|FixedPointText(n, d)| - 1] == DigitChar(n % 10)
  {
    var m := ModPow10(n, d);
    var digits := NatToString(m);
    var frac := FractionText(n, d);
    assert frac == PadStart(digits, d, '0');
    assert frac[|frac| - 1] == digits[|digits| - 1];
    NatToStringLast(m);
    ModPow10Last(n, d);
  }

  /** The decimal representation of `m` ends in its units digit. */
  lemma NatToStringLast(m: nat)
    ensures NatToString(m)[|NatToString(m)| - 1] == DigitChar(m % 10)
  {
  }

  /** The last `d` digits of `n` (d >= 1) end in the units digit of `n`. */
  lemma ModPow10Last(n: nat, d: nat)
    requires d >= 1
    ensures ModPow10(n, d) % 10 == n % 10
  {
    var h := ModPow10(n / 10, d - 1);
    assert ModPow10(n, d) == 10 * h + n % 10;
  }

  /** A multiple of ten at `d` fraction digits is already whole at `d - 1`. */
  lemma DropTrailingZero(x: real, d: nat, k: nat)
    requires d >= 1 && Scaled(x, d) == (10 * k) as real
    ensures IsIntegral(Scaled(x, d - 1))
  {
    var p := Pow10(d - 1) as real;
    assert Pow10(d) as real == 10.0 * p;
    assert x * (10.0 * p) == 10.0 * (k as real);
    assert Scaled(x, d - 1) == x * p == k as real;
  }

  /** A number written with a decimal point: `mantissa` / 10^`digits`. */
  datatype Fixed = Fixed(mantissa: nat, digits: nat) {
    function Value(): real {
      mantissa as real / Pow10(digits) as real
    }
  }

  /**
   * Reads a non-empty run of digits, optionally followed by a point and a
   * non-empty run of digits, as the digits read together over 10^(digits after the point).
   */
  function ParseUnsignedDecimal(s: string): Option<Fixed> {
    match IndexOf(s, '.')
    case None =>
      if s != [] && AllDigits(s) then Some(Fixed(ParseNat(s), 0)) else None
    case Some(k) =>
      var whole, frac := s[..k], s[k + 1..];
      if whole != [] && frac != [] && AllDigits(whole) && AllDigits(frac)
      then AllDigitsConcat(whole, frac); Some(Fixed(ParseNat(whole + frac), |frac|))
      else None
  }

  /** Reads a decimal text with an optional leading minus sign. */
  function ParseDecimal(s: string): Option<real> {
    if s != [] && s[0] == '-' then Signed(ParseUnsignedDecimal(s[1..]), true)
    else Signed(ParseUnsignedDecimal(s), false)
  }

  /** The value read, negated when a minus sign came first. */
  function Signed(f: Option<Fixed>, negative: bool): Option<real> {
    match f
    case None => None
    case Some(v) => Some(if negative then -v.Value() else v.Value())
  }

  /** The fixed-point text of `n` with `d` fraction digits reads back as those `n` and `d`. */
  lemma FixedPointRoundTrip(n: nat, d: nat)
    ensures ParseUnsignedDecimal(FixedPointText(n, d)) == Some(Fixed(n, d))
  {
    if d == 0 {
      var whole := WholeText(n, d);
      ParseNatToString(n);
      assert FixedPointText(n, d) == whole == NatToString(n);
      assert IndexOf(whole, '.') == None;
    } else {
      var q, r := DivPow10(n, d), ModPow10(n, d);
      var whole, frac := WholeText(n, d), FractionText(n, d);
      var s := whole + "." + frac;
      assert FixedPointText(n, d) == s;
      ParseNatToString(q);
      ParsePadded(r, d);
      NatToStringLength(r, d);
      ParseNatConcat(whole, frac);
      DivModPow10(n, d);
      assert ParseNat(whole + frac) == n;
      IndexOfAfterDigits(whole, '.', frac);
      ParsePointed(s, whole, frac);
    }
  }

  /** Unfolds the reader at the first point of `whole + "." + frac`. */
  lemma ParsePointed(s: string, whole: string, frac: string)
    requires s == whole + "." + frac
    requires whole != [] && frac != [] && AllDigits(whole) && AllDigits(frac)
    requires IndexOf(s, '.') == Some(|whole|)
    ensures AllDigits(whole + frac)
    ensures ParseUnsignedDecimal(s) == Some(Fixed(ParseNat(whole + frac), |frac|))
  {
    AllDigitsConcat(whole, frac);
    assert s[..|whole|] == whole && s[|whole| + 1..] == frac;
  }

  /** Scaling by `p` and dividing by it again gives back `x`. */
  lemma Unscale(x: real, d: nat)
    requires IsIntegral(Scaled(x, d))
    ensures Scaled(x, d).Floor as real / Pow10(d) as real == x
  {
  }

  /** The plain decimal text of a non-negative number with at most `MaxFractionDigits` fraction digits reads back as that number. */
  lemma UnsignedRoundTrip(x: real)
    requires x >= 0.0 && IsShortDecimal(x)
    ensures ParseUnsignedDecimal(UnsignedDecimalText(x)).Some?
    ensures ParseUnsignedDecimal(UnsignedDecimalText(x)).value.Value() == x
  {
    var d := FractionDigits(x, 0);
    var n := ScaledFloor(x, d);
    assert IsIntegral(Scaled(x, d));
    FixedPointRoundTrip(n, d);
    Unscale(x, d);
  }

  /** A number with at most `MaxFractionDigits` fraction digits: the numbers the plain text writes exactly. */
  predicate IsShortDecimal(x: real) {
    IsIntegral(Scaled(x, MaxFractionDigits))
  }

  /** Negation keeps a number short. */
  lemma ShortDecimalNegated(x: real)
    requires IsShortDecimal(x)
    ensures IsShortDecimal(-x)
  {
    var p := Pow10(MaxFractionDigits) as real;
    assert Scaled(-x, MaxFractionDigits) == -(x * p);
    var k := Scaled(x, MaxFractionDigits).Floor;
    assert (-(k as real)).Floor == -k;
  }

  /** Reading back the plain decimal text of a short number gives the number. */
  lemma DecimalRoundTrip(x: real)
    requires IsShortDecimal(x)
    ensures ParseDecimal(DecimalText(x)) == Some(x)
  {
    if x < 0.0 {
      ShortDecimalNegated(x);
      NegativeRoundTrip(-x);
    } else {
      UnsignedRoundTrip(x);
      var s := UnsignedDecimalText(x);
      assert DecimalText(x) == s;
      assert s[0] != '-';
    }
  }

  lemma NegativeRoundTrip(y: real)
    requires y > 0.0 && IsShortDecimal(y)
    ensures ParseDecimal(DecimalText(-y)) == Some(-y)
  {
    UnsignedRoundTrip(y);
    NegativeText(y);
    ParseMinus(UnsignedDecimalText(y));
    SignedNegative(ParseUnsignedDecimal(UnsignedDecimalText(y)), y);
  }

  lemma SignedNegative(f: Option<Fixed>, y: real)
    requires f.Some? && f.value.Value() == y
    ensures Signed(f, true) == Some(-y)
  {
  }

  lemma NegativeText(y: real)
    requires y > 0.0
    ensures DecimalText(-y) == "-" + UnsignedDecimalText(y)
  {
  }

  lemma ParseMinus(u: string)
    ensures ParseDecimal("-" + u) == Signed(ParseUnsignedDecimal(u), true)
  {
    var s := "-" + u;
    assert s[1..] == u;
  }
}
