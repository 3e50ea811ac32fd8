/**
 * Floating-point numbers as the scorer meets them: finite reals with the overflow of
 * binary64, the two infinities and NaN.  Representation error is not modelled.
 */
module Numbers {
  datatype Float = Fin(r: real) | PosInf | NegInf | NaN {
    /** `math.isfinite`. */
    predicate Finite() {
      Fin?
    }
  }

  function Quotient(p: int, q: nat): real {
    p as real / (q + 1) as real
  }

  /** A number that can be written down: an infinity, NaN, or a quotient of integers.  All binary64 numbers are. */
  ghost predicate Rational(f: Float) {
    f.Fin? ==> exists p: int, q: nat :: Quotient(p, q) == f.r
  }

  function Pow2(n: nat): (p: real)
    ensures p >= 1.0
  {
    if n == 0 then 1.0 else 2.0 * Pow2(n - 1)
  }

  /** The largest finite binary64 number, 2^1024 - 2^970. */
  function FloatMax(): real {
    Pow2(1024) - Pow2(970)
  }

  lemma {:induction false} Pow2Monotone(m: nat, n: nat)
    requires m <= n
    ensures Pow2(m) <= Pow2(n)
  {
    if m < n {
      Pow2Monotone(m, n - 1);
    }
  }

  lemma FloatMaxLarge()
    ensures FloatMax() >= 1048576.0
  {
    hide Pow2;
    assert Pow2(1024) == 2.0 * Pow2(1023) by { Pow2Next(1023); }
    Pow2Monotone(970, 1023);
    Pow2Monotone(20, 1023);
    Pow2Of20();
  }

  lemma Pow2Next(n: nat)
    ensures Pow2(n + 1) == 2.0 * Pow2(n)
  {
  }

  lemma Pow2Of20()
    ensures Pow2(20) == 1048576.0
  {
    Pow2Next(19); Pow2Next(18); Pow2Next(17); Pow2Next(16); Pow2Next(15);
    Pow2Next(14); Pow2Next(13); Pow2Next(12); Pow2Next(11); Pow2Next(10);
    Pow2Next(9); Pow2Next(8); Pow2Next(7); Pow2Next(6); Pow2Next(5);
    Pow2Next(4); Pow2Next(3); Pow2Next(2); Pow2Next(1); Pow2Next(0);
  }

  /** A result too large for a finite number overflows to an infinity. */
  function Clip(r: real): Float {
    if r > FloatMax() then PosInf else if r < -FloatMax() then NegInf else Fin(r)
  }

  function Add(a: Float, b: Float): Float {
    if a.NaN? || b.NaN? then NaN
    else if a.Fin? && b.Fin? then Clip(a.r + b.r)
    else if a.Fin? then b
    else if b.Fin? then a
    else if a == b then a
    else NaN
  }

  function Neg(a: Float): Float {
    match a
    case Fin(r) => Fin(-r)
    case PosInf => NegInf
    case NegInf => PosInf
    case NaN => NaN
  }

  function Sub(a: Float, b: Float): Float {
    Add(a, Neg(b))
  }

  // ---------------------------------------------------------------------------
  // Rounding
  // ---------------------------------------------------------------------------

  /** Nearest integer, ties to even. */
  function RoundHalfEven(x: real): int {
    var f := x.Floor;
    var d := x - f as real;
    if d < 0.5 then f else if d > 0.5 then f + 1 else if f % 2 == 0 then f else f + 1
  }

  /** `round(r, 2)`. */
  function Round2(r: real): real {
    RoundHalfEven(r * 100.0) as real / 100.0
  }

  /** `round(r, 4)`. */
  function Round4(r: real): real {
    RoundHalfEven(r * 10000.0) as real / 10000.0
  }

  /** `k` is the nearest integer to `x`, or the even one of two. */
  predicate Nearest(x: real, k: int) {
    -0.5 <= x - k as real <= 0.5 && (x - k as real == 0.5 || x - k as real == -0.5 ==> k % 2 == 0)
  }

  /** The nearest integer, and of two nearest ones the even one. */
  lemma RoundedToNearest(x: real, k: int)
    ensures RoundHalfEven(x) == k <==> Nearest(x, k)
  {
  }

  /** Two decimals: the nearest hundredth. */
  lemma Round2Spelled(x: real, k: int)
    ensures Nearest(x * 100.0, k) ==> Round2(x) == k as real / 100.0
  {
    RoundedToNearest(x * 100.0, k);
    hide RoundHalfEven;
  }

  /** Four decimals: the nearest ten-thousandth. */
  lemma Round4Spelled(x: real, k: int)
    ensures Nearest(x * 10000.0, k) ==> Round4(x) == k as real / 10000.0
  {
    RoundedToNearest(x * 10000.0, k);
    hide RoundHalfEven;
  }

  lemma RoundHalfEvenMonotone(x: real, y: real)
    requires x <= y
    ensures RoundHalfEven(x) <= RoundHalfEven(y)
  {
    if x.Floor < y.Floor {
      assert RoundHalfEven(x) <= x.Floor + 1 <= y.Floor <= RoundHalfEven(y);
    } else {
      assert x.Floor == y.Floor;
    }
  }

  lemma Round2Monotone(x: real, y: real)
    requires x <= y
    ensures Round2(x) <= Round2(y)
  {
    RoundHalfEvenMonotone(x * 100.0, y * 100.0);
  }

  /** Rounded numbers are quotients. */
  lemma RoundedRational(x: real)
    ensures Rational(Fin(Round2(x)))
  {
    assert Quotient(RoundHalfEven(x * 100.0), 99) == Round2(x);
  }

  /** A positive rounded number is at least one hundredth. */
  lemma Round2Positive(x: real)
    requires Round2(x) > 0.0
    ensures Round2(x) >= 0.01
  {
    hide RoundHalfEven;
    assert RoundHalfEven(x * 100.0) >= 1;
  }

  /** Rounding moves a number by at most half a hundredth. */
  lemma Round2Near(x: real)
    ensures x - 0.005 <= Round2(x) <= x + 0.005
  {
    var y := x * 100.0;
    assert y - 0.5 <= RoundHalfEven(y) as real <= y + 0.5;
    hide RoundHalfEven;
  }

  lemma Round2Zero()
    ensures Round2(0.0) == 0.0
  {
  }

  function Abs(r: real): real {
    if r < 0.0 then -r else r
  }
}
