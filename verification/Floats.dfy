// The binary64 format of IEEE 754 (section 3.4): what number a score's bits stand for.
module Floats {
  import opened ByteStrings
  import opened Scores

  // Bits of the fraction.
  const FRACTION: int := 0x10_0000_0000_0000

  function Pow2(n: nat): (r: nat)
    ensures r >= 1
  {
    if n == 0 then 1 else 2 * Pow2(n - 1)
  }

  // The number below the sign bit, in units of the smallest subnormal number. Infinity
  // stands for a number above every finite one.
  function Magnitude(b: nat): (r: nat) {
    var exponent, fraction := b / FRACTION, b % FRACTION;
    if exponent == 0 then fraction else (FRACTION + fraction) * Pow2(exponent - 1)
  }

  function Value(s: Score): (r: int) {
    assert IsScore(s);
    var m: int := Magnitude(if s < TWO63 then s else s - TWO63);
    if s < TWO63 then m else -m
  }

  lemma {:induction false} Pow2Rises(a: nat, b: nat)
    requires a <= b
    ensures Pow2(a) <= Pow2(b)
    decreases b
  {
    if a < b {
      Pow2Rises(a, b - 1);
    }
  }

  // Within its exponent a number stays below the next power of two.
  lemma MagnitudeBounds(b: nat)
    ensures b / FRACTION >= 1 ==>
      FRACTION * Pow2(b / FRACTION - 1) <= Magnitude(b) < FRACTION * Pow2(b / FRACTION)
    ensures b / FRACTION == 0 ==> Magnitude(b) == b < FRACTION
  {
    var e, f := b / FRACTION, b % FRACTION;
    if e >= 1 {
      var p := Pow2(e - 1);
      assert Pow2(e) == 2 * p;
      assert FRACTION * p <= (FRACTION + f) * p < (2 * FRACTION) * p;
    }
  }

  lemma SameExponent(a: nat, b: nat)
    requires a < b && a / FRACTION == b / FRACTION
    ensures Magnitude(a) < Magnitude(b)
  {
    var e := a / FRACTION;
    assert a % FRACTION < b % FRACTION;
    if e >= 1 {
      Scaled(FRACTION + a % FRACTION, FRACTION + b % FRACTION, Pow2(e - 1));
    }
  }

  lemma Scaled(x: nat, y: nat, p: nat)
    requires x < y && p >= 1
    ensures x * p < y * p
  {
  }

  lemma MagnitudeRises(a: nat, b: nat)
    requires a < b
    ensures Magnitude(a) < Magnitude(b)
  {
    var e, f := a / FRACTION, b / FRACTION;
    if e == f {
      SameExponent(a, b);
    } else {
      assert e < f;
      MagnitudeBounds(a);
      MagnitudeBounds(b);
      Pow2Rises(e, f - 1);
      assert FRACTION <= FRACTION * Pow2(e) <= FRACTION * Pow2(f - 1);
    }
  }

  // The number a score is compared by orders the bits as the numbers they stand for.
  lemma NumIsValueOrder(s: Score, t: Score)
    ensures Num(s) < Num(t) <==> Value(s) < Value(t)
    ensures Num(s) == Num(t) <==> Value(s) == Value(t)
  {
    assert IsScore(s) && IsScore(t);
    var a, b := if s < TWO63 then s else s - TWO63, if t < TWO63 then t else t - TWO63;
    if a < b {
      MagnitudeRises(a, b);
    } else if b < a {
      MagnitudeRises(b, a);
    }
    if a > 0 {
      MagnitudeRises(0, a);
    }
    if b > 0 {
      MagnitudeRises(0, b);
    }
  }
}
