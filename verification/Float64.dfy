/**
 The binary64 values the evaluator compares, and the round-to-nearest-even conversion
 from `int64` (sections 4.3.1 and 5.4.1 of IEEE 754-2019) that `float64(t)` performs.
 */
module Float64 {
  import opened Common

  datatype F64 = NaN | NegInf | NegZero | Finite(r: real) | PosInf {
    /** -1, 0 or 1: below, among or above the finite values. */
    function Rank(): int {
      match this
      case NegInf => -1
      case PosInf => 1
      case _ => 0
    }

    function Magnitude(): real {
      match this
      case Finite(r) => r
      case _ => 0.0
    }

    /** Go's `<` on float64: false as soon as an operand is NaN. */
    predicate Less(that: F64) {
      !NaN? && !that.NaN? &&
      (Rank() < that.Rank() || (Rank() == that.Rank() && Magnitude() < that.Magnitude()))
    }

    /** Go's `<=` on float64. */
    predicate AtMost(that: F64) {
      !NaN? && !that.NaN? && !that.Less(this)
    }
  }

  function Pow2(k: nat): (p: nat)
    ensures p >= 1
  {
    if k == 0 then 1 else 2 * Pow2(k - 1)
  }

  // 2^53: below it every integer is a float64.
  const PRECISION: nat := 0x20_0000_0000_0000

  /** The binade of `n`: the least k with n < 2^(53+k). */
  function Binade(n: nat): nat {
    if n < PRECISION then 0 else 1 + Binade(n / 2)
  }

  /** The spacing of the floats around n. */
  function Unit(n: nat): nat { Pow2(Binade(n)) }

  /** The 53-bit significand n truncates to. */
  function Significand(n: nat): nat { n / Unit(n) }

  /** The largest multiple of n's unit that is at most n. */
  function FloorUnit(n: nat): (f: nat)
    ensures f <= n < f + Unit(n)
  {
    Significand(n) * Unit(n)
  }

  /** 2^(53+k): the top of binade k. */
  function Top(k: nat): nat {
    if k == 0 then PRECISION else 2 * Top(k - 1)
  }

  function RoundNat(n: nat): nat {
    var twice := 2 * (n - FloorUnit(n));
    if twice > Unit(n) || (twice == Unit(n) && Significand(n) % 2 == 1) then FloorUnit(n) + Unit(n)
    else FloorUnit(n)
  }

  /** `float64(n)` for an int64 n; the result is an integer. */
  function Round(n: int): int {
    if n < 0 then -(RoundNat(-n) as int) else RoundNat(n)
  }

  /** x is m * 2^e for a 53-bit significand m and an exponent e >= 0. */
  ghost predicate IsScaled(x: nat, m: nat, e: nat) {
    m < PRECISION && x == m * Pow2(e)
  }

  /** x is a non-negative integer among the float64 values. */
  ghost predicate IsFloatNat(x: nat) {
    exists m, e :: IsScaled(x, m, e)
  }

  /** x == m * 2^e for a 53-bit m: a finite float64. */
  ghost predicate IsScaledReal(x: real, m: int, e: int) {
    -(PRECISION as int) < m < PRECISION && -1074 <= e <= 971 &&
    if e >= 0 then x == (m * Pow2(e)) as real else x * (Pow2(-e) as real) == m as real
  }

  ghost predicate IsFinite64(x: real) {
    exists m, e :: IsScaledReal(x, m, e)
  }

  lemma MulAssoc(a: int, b: int, c: int)
    ensures (a * b) * c == a * (b * c)
  {}

  lemma MulSucc(q: int, u: int)
    ensures (q + 1) * u == q * u + u
  {}

  lemma {:induction false} Pow2Add(a: nat, b: nat)
    ensures Pow2(a + b) == Pow2(a) * Pow2(b)
  {
    if a > 0 {
      Pow2Add(a - 1, b);
    }
  }

  lemma {:induction false} TopIsMultiple(k: nat)
    ensures Top(k) == 0x20_0000_0000_0000 * Pow2(k)
    ensures k > 0 ==> Top(k - 1) == 0x10_0000_0000_0000 * Pow2(k)
  {
    if k > 0 {
      TopIsMultiple(k - 1);
    }
  }

  lemma {:induction false} TopMonotone(j: nat, k: nat)
    requires j <= k
    ensures PRECISION <= Top(j) <= Top(k)
  {
    if k > 0 {
      TopMonotone(if j < k then j else j - 1, k - 1);
    }
  }

  lemma {:induction false} BinadeBounds(n: nat)
    ensures n < Top(Binade(n))
    ensures Binade(n) > 0 ==> Top(Binade(n) - 1) <= n
  {
    if n >= PRECISION {
      BinadeBounds(n / 2);
    }
  }

  lemma {:induction false} BinadeMono(a: nat, b: nat)
    requires a <= b
    ensures Binade(a) <= Binade(b)
  {
    if a >= PRECISION {
      BinadeMono(a / 2, b / 2);
    }
  }

  /** A multiple of u that is at most n is at most n's floor; one above the floor is a unit above. */
  lemma MultipleBrackets(n: nat, c: nat)
    ensures c * Unit(n) <= FloorUnit(n) || FloorUnit(n) + Unit(n) <= c * Unit(n)
  {
    var u, q := Unit(n), Significand(n);
    if c <= q {
      MulMono(c, q, u);
    } else {
      MulMono(q + 1, c, u);
      MulSucc(q, u);
    }
  }

  /** Above 2^53 the floor is at least the bottom of n's binade. */
  lemma FloorAboveBottom(n: nat)
    requires Binade(n) > 0
    ensures PRECISION <= Top(Binade(n) - 1) <= FloorUnit(n)
  {
    BinadeBounds(n);
    TopIsMultiple(Binade(n));
    TopMonotone(0, Binade(n) - 1);
    MultipleBrackets(n, 0x10_0000_0000_0000);
  }

  /** No float lies strictly between n's floor and the next multiple of its unit, except n. */
  lemma FloatBrackets(n: nat, t: nat)
    requires IsFloatNat(t)
    ensures t <= FloorUnit(n) || FloorUnit(n) + Unit(n) <= t
  {
    var m: nat, e: nat :| IsScaled(t, m, e);
    var k := Binade(n);
    if e >= k {
      Pow2Add(e - k, k);
      MulAssoc(m, Pow2(e - k), Unit(n));
      MulMono(0, m, Pow2(e - k));
      MultipleBrackets(n, m * Pow2(e - k));
    } else {
      ScaledBelowTop(t, m, e);
      TopMonotone(e, k - 1);
      FloorAboveBottom(n);
    }
  }

  lemma ScaledBelowTop(t: nat, m: nat, e: nat)
    requires IsScaled(t, m, e)
    ensures t < Top(e)
  {
    TopIsMultiple(e);
    MulMono(m + 1, PRECISION, Pow2(e));
    MulSucc(m, Pow2(e));
  }

  lemma ScaledIsFloat(x: nat, m: nat, e: nat)
    requires IsScaled(x, m, e)
    ensures IsFloatNat(x)
  {}

  lemma SignificandBelowTop(n: nat)
    ensures Significand(n) < PRECISION
    ensures FloorUnit(n) + Unit(n) <= Top(Binade(n))
  {
    BinadeBounds(n);
    TopIsMultiple(Binade(n));
    MultipleBrackets(n, 0x20_0000_0000_0000);
    if Significand(n) >= PRECISION {
      MulMono(PRECISION, Significand(n), Unit(n));
      assert false;
    }
  }

  lemma RoundNatIsFloat(n: nat)
    ensures IsFloatNat(RoundNat(n))
    ensures RoundNat(n) <= Top(Binade(n))
  {
    var k, u, q := Binade(n), Unit(n), Significand(n);
    SignificandBelowTop(n);
    ScaledIsFloat(FloorUnit(n), q, k);
    if q + 1 < PRECISION {
      MulSucc(q, u);
      ScaledIsFloat(FloorUnit(n) + u, q + 1, k);
    } else {
      TopIsMultiple(k);
      TopIsMultiple(k + 1);
      MulSucc(q, u);
      ScaledIsFloat(FloorUnit(n) + u, 0x10_0000_0000_0000, k + 1);
    }
  }

  function Abs(n: int): nat { if n < 0 then -n else n }

  function Distance(a: int, b: int): nat { Abs(a - b) }

  /** The rounding of an integer is itself a float. */
  lemma RoundIsFloat(n: int)
    ensures IsFloatNat(Abs(Round(n)))
  {
    RoundNatIsFloat(Abs(n));
  }

  /** Independent specification: no float is nearer to n than its rounding is. */
  lemma RoundNearest(n: int, t: int)
    requires IsFloatNat(Abs(t))
    ensures Distance(n, Round(n)) <= Distance(n, t)
  {
    FloatBrackets(Abs(n), Abs(t));
    ScaledIsFloat(0, 0, 0);
    FloatBrackets(Abs(n), 0);
  }

  /** Halfway between two floats the rounding takes the one with the even significand. */
  lemma RoundTiesToEven(n: int) returns (c: int)
    requires 2 * (Abs(n) - FloorUnit(Abs(n))) == Unit(Abs(n))
    ensures Round(n) == (2 * c) * Unit(Abs(n)) && Distance(n, Round(n)) * 2 == Unit(Abs(n))
  {
    var q, u := Significand(Abs(n)), Unit(Abs(n));
    var m: int := (q + 1) / 2;
    MulSucc(q, u);
    assert 2 * m == if q % 2 == 1 then q + 1 else q;
    c := if n < 0 then -m else m;
    MulNeg(2 * m, u);
  }

  lemma MulNeg(a: int, u: int)
    ensures (-a) * u == -(a * u)
  {}

  /** Integers up to 2^53 are exact. */
  lemma RoundExact(n: int)
    requires -(PRECISION as int) <= n <= PRECISION
    ensures Round(n) == n
  {
    var a: nat := if n < 0 then -n else n;
    if a == PRECISION {
      assert Binade(a / 2) == 0;
      assert Pow2(1) == 2 * Pow2(0);
    } else {
      assert Pow2(0) == 1;
    }
  }

  /** Every float that is an integer is a fixed point. */
  lemma RoundFixesFloats(t: int)
    requires IsFloatNat(Abs(t))
    ensures Round(t) == t
  {
    RoundNearest(t, t);
  }

  lemma RoundIdempotent(n: int)
    ensures Round(Round(n)) == Round(n)
  {
    RoundIsFloat(n);
    RoundFixesFloats(Round(n));
  }

  lemma RoundNatMonotone(a: nat, b: nat)
    requires a <= b
    ensures RoundNat(a) <= RoundNat(b)
  {
    BinadeMono(a, b);
    if Binade(a) < Binade(b) {
      // The top of a's binade is at most the bottom of b's.
      RoundNatIsFloat(a);
      FloorAboveBottom(b);
      TopMonotone(Binade(a), Binade(b) - 1);
    } else {
      var u := Unit(a);
      assert Unit(b) == u;
      FloorsOrdered(a, b);
      if FloorUnit(a) == FloorUnit(b) {
        SameFloor(a, b);
      }
    }
  }

  lemma FloorsOrdered(a: nat, b: nat)
    requires a <= b && Unit(a) == Unit(b)
    ensures FloorUnit(a) == FloorUnit(b) || FloorUnit(a) + Unit(a) <= FloorUnit(b)
  {
    MultipleBrackets(b, Significand(a));
    MultipleBrackets(a, Significand(b));
  }

  lemma SameFloor(a: nat, b: nat)
    requires Unit(a) == Unit(b) && FloorUnit(a) == FloorUnit(b)
    ensures Significand(a) == Significand(b)
  {
    var u, p, q := Unit(a), Significand(a), Significand(b);
    if p < q {
      MulMono(p + 1, q, u);
      MulSucc(p, u);
    } else if q < p {
      MulMono(q + 1, p, u);
      MulSucc(q, u);
    }
  }

  lemma RoundMonotone(a: int, b: int)
    requires a <= b
    ensures Round(a) <= Round(b)
  {
    if a >= 0 {
      RoundNatMonotone(a, b);
    } else if b < 0 {
      RoundNatMonotone(-b, -a);
    }
  }

  /**
   Rounding never crosses a float, integral or not: n and Round(n) are on the same side of
   (or at) every finite float64 threshold.
   */
  lemma RoundKeepsSide(n: int, t: real)
    requires IsFinite64(t)
    ensures t <= n as real ==> t <= Round(n) as real
    ensures n as real <= t ==> Round(n) as real <= t
  {
    var m, e :| IsScaledReal(t, m, e);
    var a: nat := if n < 0 then -n else n;
    if Binade(a) == 0 {
      BinadeBounds(a);
      RoundExact(n);
    } else if e < 0 {
      FractionIsSmall(t, m, e);
      FloorAboveBottom(a);
    } else {
      IntegerSide(n, m, e);
    }
  }

  lemma RoundNatKeepsSide(n: nat, t: nat)
    requires IsFloatNat(t)
    ensures t <= n ==> t <= RoundNat(n)
    ensures n <= t ==> RoundNat(n) <= t
  {
    FloatBrackets(n, t);
  }

  lemma AbsScaled(m: int, e: nat) returns (x: nat)
    requires -(PRECISION as int) < m < PRECISION
    ensures IsFloatNat(x) && m * Pow2(e) == if m < 0 then -(x as int) else x
  {
    var a: nat := if m < 0 then -m else m;
    MulMono(0, a, Pow2(e));
    x := a * Pow2(e);
    ScaledIsFloat(x, a, e);
  }

  lemma IntegerSide(n: int, m: int, e: nat)
    requires -(PRECISION as int) < m < PRECISION
    ensures m * Pow2(e) <= n ==> m * Pow2(e) <= Round(n)
    ensures n <= m * Pow2(e) ==> Round(n) <= m * Pow2(e)
  {
    var x := AbsScaled(m, e);
    RoundNatKeepsSide(if n < 0 then -n else n, x);
  }

  /** A float with a negative exponent has magnitude below 2^53. */
  lemma FractionIsSmall(t: real, m: int, e: int)
    requires IsScaledReal(t, m, e) && e < 0
    ensures -(PRECISION as real) < t < PRECISION as real
  {
    var p := Pow2(-e) as real;
    if t >= PRECISION as real {
      RealMulMono(PRECISION as real, t, p);
      assert false;
    } else if t <= -(PRECISION as real) {
      RealMulMono(PRECISION as real, -t, p);
      assert false;
    }
  }

  lemma RealMulMono(c: real, t: real, p: real)
    requires c >= 0.0 && t >= c && p >= 1.0
    ensures t * p >= c
    ensures (-t) * p <= -c
  {
    assert t * p - t == t * (p - 1.0);
  }

  /** `int64(f)`: truncation toward zero. */
  function Truncate(x: real): int {
    if x < 0.0 then -((-x).Floor) else x.Floor
  }

  /** The integer between zero and `x` that is nearest to `x`. */
  lemma TruncateExactly(x: real)
    ensures x >= 0.0 ==> 0.0 <= Truncate(x) as real <= x < Truncate(x) as real + 1.0
    ensures x <= 0.0 ==> Truncate(x) as real - 1.0 < x <= Truncate(x) as real <= 0.0
  {}

  /** Truncating a float gives an integer the comparison represents exactly. */
  lemma TruncatedFloatIsExact(x: real)
    requires IsFinite64(x)
    ensures Round(Truncate(x)) == Truncate(x)
  {
    var m, e :| IsScaledReal(x, m, e);
    if e < 0 {
      FractionIsSmall(x, m, e);
      RoundExact(Truncate(x));
    } else {
      var t := AbsScaled(m, e);
      assert Truncate(x) == m * Pow2(e) by {
        if m < 0 { assert (-x).Floor == t; } else { assert x.Floor == t; }
      }
      RoundFixesFloats(Truncate(x));
    }
  }
}
