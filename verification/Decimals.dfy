/**
 `DecimalField.validate` of taiga/base/api/fields.py: what the digit counting amounts to.
 A finite decimal is a digit tuple without leading zeros and an exponent, as `as_tuple` gives it.

 `Verdict` says what the field answers in terms of powers of ten; the class `DecimalField` counts digits and
 is proved to answer that.
 */
module Decimals {
  import opened Wrappers

  datatype Decimal =
    | Finite(negative: bool, digits: seq<nat>, exponent: int)
    | NaN(signaling: bool)
    | Infinite(negative: bool)

  /** Comparing a signaling NaN, even with itself, raises an error of its own, which is not caught. */
  datatype Error = InvalidOperation | NotANumber | TooManyDigits | TooManyDecimalPlaces | TooManyWholeDigits

  predicate IsNumeral(digits: seq<nat>) {
    digits != [] &&
    (forall i :: 0 <= i < |digits| ==> digits[i] <= 9) &&
    (|digits| > 1 ==> digits[0] > 0)
  }

  predicate WellFormed(v: Decimal) {
    v.Finite? ==> IsNumeral(v.digits)
  }

  function Abs(n: int): nat {
    if n < 0 then -n else n
  }

  function Pow10(n: nat): (p: nat)
    ensures p >= 1
  {
    if n == 0 then 1 else 10 * Pow10(n - 1)
  }

  function Coefficient(digits: seq<nat>): nat {
    if digits == [] then 0 else 10 * Coefficient(digits[..|digits| - 1]) + digits[|digits| - 1]
  }

  /** The value without its sign. */
  function Magnitude(v: Decimal): real
    requires v.Finite?
  {
    if v.exponent >= 0 then (Coefficient(v.digits) * Pow10(v.exponent)) as real
    else Coefficient(v.digits) as real / Pow10(-v.exponent) as real
  }

  // -------------------------------------------------------------------------
  // The verdict, without counting digits
  // -------------------------------------------------------------------------

  predicate FitsDigits(maxDigits: Option<int>, v: Decimal)
    requires v.Finite?
  {
    maxDigits.Some? ==>
      var m := maxDigits.value;
      1 <= m && Abs(v.exponent) <= m && Coefficient(v.digits) < Pow10(m)
  }

  predicate FitsDecimals(decimalPlaces: Option<int>, v: Decimal)
    requires v.Finite?
  {
    decimalPlaces.Some? ==> Abs(v.exponent) <= decimalPlaces.value
  }

  /** A zero without decimals takes up a whole digit. */
  predicate FitsWholeDigits(maxDigits: Option<int>, decimalPlaces: Option<int>, v: Decimal)
    requires v.Finite?
  {
    maxDigits.Some? && decimalPlaces.Some? ==>
      var whole, k := maxDigits.value - decimalPlaces.value, Abs(v.exponent);
      0 <= whole && Coefficient(v.digits) < Pow10(k + whole) && (Coefficient(v.digits) == 0 && k == 0 ==> 0 < whole)
  }

  /** What the field answers; the errors are looked for in this order. */
  function Verdict(maxDigits: Option<int>, decimalPlaces: Option<int>, v: Decimal): Result<Decimal, Error> {
    if v.NaN? && v.signaling then Failure(InvalidOperation)
    else if !v.Finite? then Failure(NotANumber)
    else if !FitsDigits(maxDigits, v) then Failure(TooManyDigits)
    else if !FitsDecimals(decimalPlaces, v) then Failure(TooManyDecimalPlaces)
    else if !FitsWholeDigits(maxDigits, decimalPlaces, v) then Failure(TooManyWholeDigits)
    else Success(v)
  }

  // -------------------------------------------------------------------------
  // The field, which counts digits
  // -------------------------------------------------------------------------

  class DecimalField {
    const maxDigits: Option<int>
    const decimalPlaces: Option<int>

    constructor (maxDigits: Option<int>, decimalPlaces: Option<int>)
      ensures this.maxDigits == maxDigits && this.decimalPlaces == decimalPlaces
    {
      this.maxDigits, this.decimalPlaces := maxDigits, decimalPlaces;
    }

    method Validate(v: Decimal) returns (r: Result<Decimal, Error>)
      requires WellFormed(v)
      ensures r == Verdict(maxDigits, decimalPlaces, v)
    {
      if v.NaN? && v.signaling {
        return Failure(InvalidOperation);
      }
      if !v.Finite? {
        return Failure(NotANumber);
      }
      CountingIsComparing(v, maxDigits, decimalPlaces);
      hide FitsDigits, FitsWholeDigits;
      var decimals := Abs(v.exponent);
      var digits := |v.digits|;
      if decimals > digits {
        digits := decimals;
      }
      var wholeDigits := digits - decimals;
      if maxDigits.Some? && digits > maxDigits.value {
        return Failure(TooManyDigits);
      }
      if decimalPlaces.Some? && decimals > decimalPlaces.value {
        return Failure(TooManyDecimalPlaces);
      }
      if maxDigits.Some? && decimalPlaces.Some? && wholeDigits > maxDigits.value - decimalPlaces.value {
        return Failure(TooManyWholeDigits);
      }
      return Success(v);
    }
  }

  // -------------------------------------------------------------------------
  // Digits and powers of ten
  // -------------------------------------------------------------------------

  lemma {:induction false} Pow10Sum(a: nat, b: nat)
    ensures Pow10(a + b) == Pow10(a) * Pow10(b)
  {
    if a == 0 {
    } else {
      Pow10Sum(a - 1, b);
      assert Pow10(a + b) == 10 * (Pow10(a - 1) * Pow10(b)) == (10 * Pow10(a - 1)) * Pow10(b);
    }
  }

  lemma {:induction false} Pow10Grows(a: nat, b: nat)
    ensures a <= b ==> Pow10(a) <= Pow10(b)
    ensures a < b ==> 10 * Pow10(a) <= Pow10(b)
  {
    if a >= b {
    } else {
      Pow10Grows(a, b - 1);
    }
  }

  /** A digit string without leading zeros is as long as its value is large. */
  lemma {:induction false} CoefficientSize(digits: seq<nat>)
    requires IsNumeral(digits) && digits[0] > 0
    ensures Pow10(|digits| - 1) <= Coefficient(digits) < Pow10(|digits|)
  {
    var shorter := digits[..|digits| - 1];
    if shorter != [] {
      CoefficientSize(shorter);
    } else {
      assert Coefficient(shorter) == 0;
      assert digits[|digits| - 1] == digits[0];
    }
  }

  lemma ZeroIsOneDigit(digits: seq<nat>)
    requires IsNumeral(digits)
    ensures Coefficient(digits) == 0 <==> digits[0] == 0
    ensures digits[0] == 0 ==> |digits| == 1
  {
    if digits[0] > 0 {
      CoefficientSize(digits);
    } else {
      assert digits == [0] && digits[..0] == [];
    }
  }

  lemma LengthIsSize(digits: seq<nat>, n: nat)
    requires IsNumeral(digits)
    ensures |digits| <= n <==> 1 <= n && Coefficient(digits) < Pow10(n)
  {
    ZeroIsOneDigit(digits);
    if digits[0] > 0 {
      CoefficientSize(digits);
      Pow10Grows(|digits|, n);
      Pow10Grows(n, |digits| - 1);
    }
  }

  /** The counts the field takes, said of the coefficient. */
  lemma CountingIsComparing(v: Decimal, maxDigits: Option<int>, decimalPlaces: Option<int>)
    requires WellFormed(v) && v.Finite?
    ensures
      var k := Abs(v.exponent);
      var digits := if k > |v.digits| then k else |v.digits|;
      (FitsDigits(maxDigits, v) <==> (maxDigits.Some? ==> digits <= maxDigits.value)) &&
      (FitsWholeDigits(maxDigits, decimalPlaces, v) <==>
        (maxDigits.Some? && decimalPlaces.Some? ==> digits - k <= maxDigits.value - decimalPlaces.value))
  {
    hide Pow10, Coefficient;
    var k := Abs(v.exponent);
    if maxDigits.Some? && maxDigits.value >= 0 {
      LengthIsSize(v.digits, maxDigits.value);
    }
    if maxDigits.Some? && decimalPlaces.Some? && maxDigits.value >= decimalPlaces.value {
      LengthIsSize(v.digits, k + (maxDigits.value - decimalPlaces.value));
      NoPowerBelowOne(Coefficient(v.digits));
    }
  }

  lemma NoPowerBelowOne(c: nat)
    ensures c < Pow10(0) <==> c == 0
  {
  }

  // -------------------------------------------------------------------------
  // Magnitudes and powers of ten
  // -------------------------------------------------------------------------

  lemma MagnitudeTimesPower(v: Decimal, k: nat)
    requires v.Finite? && v.exponent + k == 0
    ensures Magnitude(v) * Pow10(k) as real == Coefficient(v.digits) as real
  {
  }

  lemma BelowPowerIff(v: Decimal, k: nat, e: nat)
    requires v.Finite? && v.exponent + k == 0
    ensures Magnitude(v) < Pow10(e) as real <==> Coefficient(v.digits) < Pow10(k + e)
  {
    hide Magnitude, Coefficient, Pow10;
    MagnitudeTimesPower(v, k);
    Pow10Sum(k, e);
    assert (Pow10(k) * Pow10(e)) as real == Pow10(k) as real * Pow10(e) as real;
    ComparedAfterScaling(
      Magnitude(v), Pow10(e) as real, Pow10(k) as real, Coefficient(v.digits) as real, Pow10(k + e) as real);
  }

  /** With a positive exponent, the zeros it stands for are digits too. */
  lemma BelowPowerIffShort(v: Decimal, e: nat)
    requires WellFormed(v) && v.Finite? && v.exponent > 0
    ensures Magnitude(v) < Pow10(e) as real <==> Coefficient(v.digits) == 0 || |v.digits| + v.exponent <= e
    ensures Magnitude(v) < Pow10(e) as real ==> Coefficient(v.digits) < Pow10(v.exponent + e)
  {
    var c, p := Coefficient(v.digits), v.exponent;
    var shifted := ShiftedUp(v);
    hide Magnitude, Coefficient, Pow10;
    ZeroIsOneDigit(v.digits);
    Pow10Grows(e, p + e);
    if c > 0 {
      ShiftedSize(v.digits, p, shifted);
      Pow10Grows(|v.digits| + p, e);
      Pow10Grows(e, |v.digits| - 1 + p);
    }
  }

  lemma ShiftedUp(v: Decimal) returns (shifted: nat)
    requires v.Finite? && v.exponent > 0
    ensures shifted == Coefficient(v.digits) * Pow10(v.exponent) && Magnitude(v) == shifted as real
    ensures Coefficient(v.digits) == 0 ==> shifted == 0
    ensures Coefficient(v.digits) <= shifted
  {
    shifted := Coefficient(v.digits) * Pow10(v.exponent);
    hide Coefficient, Pow10;
    ProductGrows(1, Pow10(v.exponent), Coefficient(v.digits));
  }

  lemma ShiftedSize(digits: seq<nat>, p: nat, shifted: nat)
    requires IsNumeral(digits) && digits[0] > 0 && shifted == Coefficient(digits) * Pow10(p)
    ensures Pow10(|digits| - 1 + p) <= shifted < Pow10(|digits| + p)
  {
    hide Coefficient, Pow10;
    CoefficientSize(digits);
    Pow10Sum(|digits| - 1, p);
    Pow10Sum(|digits|, p);
    ProductGrows(Pow10(|digits| - 1), Coefficient(digits), Pow10(p));
    ProductGrows(Coefficient(digits) + 1, Pow10(|digits|), Pow10(p));
  }

  lemma ScaledIsWhole(v: Decimal, d: nat)
    requires v.Finite? && d + v.exponent >= 0
    ensures (Coefficient(v.digits) * Pow10(d + v.exponent)) as real == Magnitude(v) * Pow10(d) as real
  {
    hide Magnitude, Coefficient, Pow10;
    if v.exponent > 0 {
      ScaledWithZeros(v, v.exponent, d);
    } else {
      ScaledWithDecimals(v, -v.exponent, d);
    }
  }

  lemma ScaledWithZeros(v: Decimal, p: nat, d: nat)
    requires v.Finite? && v.exponent == p > 0
    ensures (Coefficient(v.digits) * Pow10(d + p)) as real == Magnitude(v) * Pow10(d) as real
  {
    hide Magnitude, Coefficient, Pow10;
    var shifted := ShiftedUp(v);
    Pow10Sum(p, d);
    ScaledProduct(Coefficient(v.digits), Pow10(p), Pow10(d), Pow10(d + p), shifted, Magnitude(v));
  }

  lemma ScaledWithDecimals(v: Decimal, k: nat, d: nat)
    requires v.Finite? && v.exponent + k == 0 && k <= d
    ensures (Coefficient(v.digits) * Pow10(d - k)) as real == Magnitude(v) * Pow10(d) as real
  {
    hide Magnitude, Coefficient, Pow10;
    MagnitudeTimesPower(v, k);
    Pow10Sum(k, d - k);
    ProductAsReal(Pow10(k), Pow10(d - k));
    ProductAsReal(Coefficient(v.digits), Pow10(d - k));
    Regroup(Magnitude(v), Pow10(k) as real, Pow10(d - k) as real);
  }

  lemma ProductAsReal(a: nat, b: nat)
    ensures (a * b) as real == a as real * b as real
  {
  }

  lemma ComparedAfterScaling(x: real, y: real, scale: real, xs: real, ys: real)
    requires scale > 0.0 && xs == x * scale && ys == scale * y
    ensures x < y <==> xs < ys
  {
  }

  lemma Regroup(x: real, y: real, z: real)
    ensures x * (y * z) == (x * y) * z
  {
  }

  lemma ScaledProduct(x: nat, y: nat, z: nat, yz: nat, xy: nat, m: real)
    requires yz == y * z && xy == x * y && m == xy as real
    ensures (x * yz) as real == m * z as real
  {
    assert x * yz == xy * z;
    ProductAsReal(xy, z);
  }

  lemma ProductGrows(a: nat, b: nat, c: nat)
    requires a <= b
    ensures a * c <= b * c
  {
  }

  // -------------------------------------------------------------------------
  // Theorems
  // -------------------------------------------------------------------------

  /**
   With both limits set, a finite decimal is accepted iff its exponent, sign ignored, is within the decimal
   places and its coefficient below the matching power of ten; only a zero without decimals is also
   refused when no whole digit is allowed.
   */
  lemma AcceptedIff(m: int, d: int, v: Decimal)
    requires WellFormed(v) && v.Finite?
    ensures
      var k := Abs(v.exponent);
      Verdict(Some(m), Some(d), v).Success? <==>
      k <= d <= m && Coefficient(v.digits) < Pow10(k + (m - d)) && (Coefficient(v.digits) == 0 && k == 0 ==> d < m)
  {
    hide Pow10, Coefficient;
    var k := Abs(v.exponent);
    if k <= d <= m {
      Pow10Grows(k + (m - d), m);
      NoPowerBelowOne(Coefficient(v.digits));
    }
  }

  /** The same answers by counting, whichever limits are set, with the errors in the order in which they are found. */
  lemma ErrorsByCounting(maxDigits: Option<int>, decimalPlaces: Option<int>, v: Decimal)
    requires WellFormed(v)
    ensures
      var answer := Verdict(maxDigits, decimalPlaces, v);
      (answer == Failure(InvalidOperation) <==> v == NaN(true)) &&
      (answer == Failure(NotANumber) <==> v == NaN(false) || v.Infinite?) &&
      (v.Finite? ==>
        var decimals := if v.exponent < 0 then -v.exponent else v.exponent;
        var digits := if |v.digits| < decimals then decimals else |v.digits|;
        var tooLong := maxDigits.Some? && digits > maxDigits.value;
        var tooFine := decimalPlaces.Some? && decimals > decimalPlaces.value;
        var tooLarge :=
          maxDigits.Some? && decimalPlaces.Some? && digits - decimals > maxDigits.value - decimalPlaces.value;
        (answer == Failure(TooManyDigits) <==> tooLong) &&
        (answer == Failure(TooManyDecimalPlaces) <==> !tooLong && tooFine) &&
        (answer == Failure(TooManyWholeDigits) <==> !tooLong && !tooFine && tooLarge) &&
        (answer == Success(v) <==> !tooLong && !tooFine && !tooLarge))
  {
    if v.Finite? {
      CountingIsComparing(v, maxDigits, decimalPlaces);
    }
    hide FitsDigits, FitsWholeDigits;
  }

  /** The bound that the two settings of a field stand for. */
  predicate InBound(m: int, d: int, v: Decimal)
    requires v.Finite?
  {
    0 <= d <= m && Magnitude(v) < Pow10(m - d) as real
  }

  /**
   Acceptance against the bound, for every finite decimal. What is accepted is whole when scaled by 10^d, and it is
   in bound iff its exponent is not positive, or it is zero, or its digits and the zeros its exponent stands for are
   no more than m-d together. What is in bound is accepted iff its exponent, sign ignored, is within the decimal
   places, but for a zero without decimals when no whole digit is allowed.
   */
  lemma AcceptedIffBelowPowerOfTen(m: int, d: int, v: Decimal)
    requires WellFormed(v) && v.Finite?
    ensures Verdict(Some(m), Some(d), v).Success? ==>
      0 <= d + v.exponent && 0 <= d &&
      (Coefficient(v.digits) * Pow10(d + v.exponent)) as real == Magnitude(v) * Pow10(d) as real &&
      (InBound(m, d, v) <==> v.exponent <= 0 || Coefficient(v.digits) == 0 || |v.digits| + v.exponent <= m - d)
    ensures InBound(m, d, v) ==>
      (Verdict(Some(m), Some(d), v).Success? <==>
        Abs(v.exponent) <= d && (Coefficient(v.digits) == 0 && v.exponent == 0 ==> d < m))
  {
    hide Verdict, Magnitude, Coefficient, Pow10;
    AcceptedIff(m, d, v);
    if 0 <= d <= m && Abs(v.exponent) <= d {
      ScaledIsWhole(v, d);
      if v.exponent <= 0 {
        BelowPowerIff(v, -v.exponent, m - d);
      } else {
        BelowPowerIffShort(v, m - d);
      }
    }
  }

  /** A field keeps everything it accepts in bound iff it allows no decimal places, or accepts nothing at all. */
  lemma FieldKeepsBoundIff(m: int, d: int)
    ensures
      (forall v: Decimal :: WellFormed(v) && Verdict(Some(m), Some(d), v).Success? ==> InBound(m, d, v)) <==>
      !(1 <= d <= m)
  {
    hide Magnitude, Coefficient, Pow10, InBound, FitsDigits, FitsWholeDigits;
    forall v: Decimal | WellFormed(v) && Verdict(Some(m), Some(d), v).Success?
      ensures 0 <= d <= m && (d == 0 ==> InBound(m, d, v))
    {
      AcceptedIff(m, d, v);
      AcceptedIffBelowPowerOfTen(m, d, v);
    }
    if 1 <= d <= m {
      var v := Finite(false, OneAndZeros(m - d), 1);
      Pow10Grows(m - d, 1 + (m - d));
      AcceptedIff(m, d, v);
      AcceptedIffBelowPowerOfTen(m, d, v);
      assert !InBound(m, d, v);
    }
  }

  /** The digits of a power of ten. */
  function OneAndZeros(n: nat): (digits: seq<nat>)
    ensures |digits| == n + 1 && IsNumeral(digits) && digits[0] == 1 && Coefficient(digits) == Pow10(n)
  {
    if n == 0 then
      assert [1][..0] == [] && Coefficient([]) == 0;
      [1]
    else
      var shorter := OneAndZeros(n - 1);
      assert (shorter + [0])[..n] == shorter;
      shorter + [0]
  }

  /**
   Both ways for positive exponents to go wrong: 1E+2 passes a field that should only take values below 100, and
   1E+3 does not pass one that should take all values below 10000.
   */
  lemma PositiveExponentEscapesBound()
    ensures
      var v := Finite(false, [1], 2);
      WellFormed(v) && Verdict(Some(4), Some(2), v).Success? && !InBound(4, 2, v)
    ensures
      var v := Finite(false, [1], 3);
      WellFormed(v) && InBound(6, 2, v) && Verdict(Some(6), Some(2), v) == Failure(TooManyDecimalPlaces)
  {
    assert [1] == OneAndZeros(0);
    var large, small := Finite(false, [1], 2), Finite(false, [1], 3);
    hide Magnitude, Coefficient, Pow10;
    AcceptedIff(4, 2, large);
    AcceptedIffBelowPowerOfTen(4, 2, large);
    NoPowerBelowOne(1);
    Pow10Grows(0, 4);
    Pow10Grows(0, 6);
    BelowPowerIffShort(small, 4);
  }
}
