/** The 95% Wilson lower bound (src/eval-harness.ts, wilsonLowerBound95) over exact reals.

  Square root is a parameter constrained to be the non-negative root. The bound is proved equal to
  an independent definition: the least success rate that a score test at z = 1.96 does not reject.
  Its range, its monotonicity and the number of findings a policy floor forces follow from that.
*/
module Wilson {
  import opened Basics

  const Z := 1.96
  const Z_SQUARED := 3.8416

  ghost predicate IsSquareRoot(sqrt: real -> real) {
    forall x :: x >= 0.0 ==> sqrt(x) >= 0.0 && sqrt(x) * sqrt(x) == x
  }

  predicate Proper(successes: int, total: int) {
    0 < total && 0 <= successes <= total
  }

  function Rate(successes: int, total: int): real
    requires total > 0
  {
    successes as real / total as real
  }

  /** The variance under the square root of the margin. */
  function Radicand(n: real, p: real): real
    requires n > 0.0
  {
    (p * (1.0 - p) + Z * Z / (4.0 * n)) / n
  }

  /** (centre - margin) / denominator, where `root` is the square root in the margin. */
  function Unclamped(n: real, p: real, root: real): real
    requires n > 0.0
  {
    var denominator := 1.0 + Z * Z / n;
    var centre := p + Z * Z / (2.0 * n);
    var margin := Z * root;
    ScaledBound(n, p, margin);
    (centre - margin) / denominator
  }

  function WilsonLowerBound95(successes: int, total: int, sqrt: real -> real): real {
    if total <= 0 || successes < 0 || successes > total then 0.0
    else
      var n, p := total as real, Rate(successes, total);
      MaxReal(0.0, Unclamped(n, p, sqrt(Radicand(n, p))))
  }

  /** A score test of the observed rate p on n trials does not reject the true rate v:
      |p - v| is at most 1.96 standard errors of v. */
  predicate NotRejected(n: real, p: real, v: real) {
    0.0 <= v <= 1.0 && n * ((p - v) * (p - v)) <= Z_SQUARED * (v * (1.0 - v))
  }

  ghost predicate IsLeastNotRejected(n: real, p: real, w: real) {
    NotRejected(n, p, w) && forall v :: NotRejected(n, p, v) ==> w <= v
  }

  // ---------------------------------------------------------------- the quadratic behind the bound
  // n trials, rate p, q the squared z, m the margin times n, w the unclamped bound.

  ghost predicate Root(n: real, p: real, q: real, m: real, w: real) {
    && n > 0.0 && 0.0 <= p <= 1.0 && q > 0.0 && m >= 0.0
    && m * m == q * (n * (p * (1.0 - p)) + q / 4.0)
    && w * (n + q) == p * n + q / 2.0 - m
  }

  ghost function Quadratic(n: real, p: real, q: real, v: real): real {
    (n + q) * (v * v) - 2.0 * ((p * n + q / 2.0) * v) + n * (p * p)
  }

  /** The quadratic is the score test: it is not positive exactly where the test does not reject. */
  lemma QuadraticIsScore(n: real, p: real, q: real, v: real)
    ensures Quadratic(n, p, q, v) == n * ((p - v) * (p - v)) - q * (v * (1.0 - v))
  {
  }

  /** Completing the square. */
  lemma CompletedSquare(n: real, p: real, q: real, m: real, w: real, v: real)
    requires Root(n, p, q, m, w)
    ensures var d := (n + q) * v - (p * n + q / 2.0); (n + q) * Quadratic(n, p, q, v) == d * d - m * m
  {
  }

  lemma SignOfProduct(k: real, x: real)
    requires k > 0.0
    ensures k * x <= 0.0 <==> x <= 0.0
    ensures k * x >= 0.0 <==> x >= 0.0
  {
  }

  lemma AbsFromSquare(d: real, m: real)
    requires m >= 0.0 && d * d <= m * m
    ensures -m <= d <= m
  {
    if d > m { SquareGrows(m, d); }
    if d < -m { SquareGrows(m, -d); }
  }

  lemma NonNegativeProduct(a: real, b: real)
    requires a >= 0.0 && b >= 0.0
    ensures a * b >= 0.0
  {
  }

  lemma SquareGrows(a: real, b: real)
    requires 0.0 <= a < b
    ensures a * a < b * b
  {
    assert b * b - a * a == (b - a) * (b + a);
    PositiveProduct(b - a, b + a);
  }

  lemma PositiveProduct(a: real, b: real)
    requires a > 0.0 && b > 0.0
    ensures a * b > 0.0
  {
  }

  /** The bound solves the score equation. */
  lemma RootSolves(n: real, p: real, q: real, m: real, w: real)
    requires Root(n, p, q, m, w)
    ensures Quadratic(n, p, q, w) == 0.0
  {
  }

  /** Nothing below the bound is accepted. */
  lemma RootIsLeast(n: real, p: real, q: real, m: real, w: real, v: real)
    requires Root(n, p, q, m, w) && Quadratic(n, p, q, v) <= 0.0
    ensures w <= v
  {
    CompletedSquare(n, p, q, m, w, v);
    var d := (n + q) * v - (p * n + q / 2.0);
    SignOfProduct(n + q, Quadratic(n, p, q, v));
    AbsFromSquare(d, m);
    assert (n + q) * v >= (n + q) * w;
    SignOfProduct(n + q, v - w);
    assert (n + q) * (v - w) == (n + q) * v - (n + q) * w;
  }

  lemma RootInRange(n: real, p: real, q: real, m: real, w: real)
    requires Root(n, p, q, m, w)
    ensures 0.0 <= w <= p
  {
    // The observed rate itself is never rejected.
    QuadraticIsScore(n, p, q, p);
    assert n * ((p - p) * (p - p)) == 0.0;
    NonNegativeProduct(p, 1.0 - p);
    NonNegativeProduct(q, p * (1.0 - p));
    RootIsLeast(n, p, q, m, w, p);
    // The margin never exceeds the centre.
    var c := p * n + q / 2.0;
    CompletedSquare(n, p, q, m, w, 0.0);
    assert Quadratic(n, p, q, 0.0) == n * (p * p);
    NonNegativeProduct(p, p);
    NonNegativeProduct(n, p * p);
    SignOfProduct(n + q, Quadratic(n, p, q, 0.0));
    assert m * m <= c * c;
    NonNegativeProduct(p, n);
    AbsFromSquare(m, c);
    SignOfProduct(n + q, w);
    assert (n + q) * w == w * (n + q);
  }

  /** A higher observed rate never lowers the bound. */
  lemma RootIsMonotone(n: real, p1: real, p2: real, q: real, m1: real, m2: real, w1: real, w2: real)
    requires Root(n, p1, q, m1, w1) && Root(n, p2, q, m2, w2) && p1 <= p2
    ensures w1 <= w2
  {
    RootInRange(n, p1, q, m1, w1);
    if w2 < p1 {
      RootSolves(n, p2, q, m2, w2);
      LowerRateStillAccepts(n, p1, p2, q, w2);
      RootIsLeast(n, p1, q, m1, w1, w2);
    }
  }

  lemma LowerRateStillAccepts(n: real, p1: real, p2: real, q: real, v: real)
    requires n > 0.0 && v <= p1 <= p2 && Quadratic(n, p2, q, v) == 0.0
    ensures Quadratic(n, p1, q, v) <= 0.0
  {
  }

  // ---------------------------------------------------------------- the code computes that root

  lemma RateInRange(successes: int, total: int)
    requires Proper(successes, total)
    ensures 0.0 <= Rate(successes, total) <= 1.0
    ensures Rate(successes, total) * total as real == successes as real
  {
  }

  lemma UnclampedIsRoot(n: real, p: real, root: real)
    requires n > 0.0 && 0.0 <= p <= 1.0
    requires root >= 0.0 && root * root == Radicand(n, p)
    ensures Root(n, p, Z_SQUARED, Z * root * n, Unclamped(n, p, root))
  {
  }

  lemma BoundIsRoot(successes: int, total: int, sqrt: real -> real) returns (m: real)
    requires Proper(successes, total) && IsSquareRoot(sqrt)
    ensures Root(total as real, Rate(successes, total), Z_SQUARED, m, WilsonLowerBound95(successes, total, sqrt))
  {
    hide Root, Radicand, Unclamped;
    var n, p := total as real, Rate(successes, total);
    RateInRange(successes, total);
    RadicandNotNegative(n, p);
    var root := sqrt(Radicand(n, p));
    UnclampedIsRoot(n, p, root);
    m := Z * root * n;
    RootInRange(n, p, Z_SQUARED, m, Unclamped(n, p, root));
  }

  lemma RadicandNotNegative(n: real, p: real)
    requires n > 0.0 && 0.0 <= p <= 1.0
    ensures Radicand(n, p) >= 0.0
  {
    NonNegativeProduct(p, 1.0 - p);
    ScaledRadicand(n, p * (1.0 - p), Radicand(n, p));
  }

  lemma ScaledRadicand(n: real, spread: real, radicand: real)
    requires n > 0.0 && spread >= 0.0 && radicand == (spread + Z * Z / (4.0 * n)) / n
    ensures radicand >= 0.0 && radicand * n * n == n * spread + Z_SQUARED / 4.0
  {
  }

  lemma ScaledBound(n: real, p: real, margin: real)
    requires n > 0.0
    ensures 1.0 + Z * Z / n > 0.0
    ensures (p + Z * Z / (2.0 * n) - margin) / (1.0 + Z * Z / n) * (n + Z_SQUARED) == p * n + Z_SQUARED / 2.0 - margin * n
  {
  }

  // ---------------------------------------------------------------- results

  /** The clamp at zero never acts: the bound is exactly the least rate not rejected. */
  lemma BoundIsLeastRateNotRejected(successes: int, total: int, sqrt: real -> real)
    requires Proper(successes, total) && IsSquareRoot(sqrt)
    ensures var w := WilsonLowerBound95(successes, total, sqrt);
            IsLeastNotRejected(total as real, Rate(successes, total), w)
  {
    var n, p := total as real, Rate(successes, total);
    var w := WilsonLowerBound95(successes, total, sqrt);
    var m := BoundIsRoot(successes, total, sqrt);
    RootInRange(n, p, Z_SQUARED, m, w);
    RootSolves(n, p, Z_SQUARED, m, w);
    QuadraticIsScore(n, p, Z_SQUARED, w);
    forall v | NotRejected(n, p, v) ensures w <= v {
      QuadraticIsScore(n, p, Z_SQUARED, v);
      RootIsLeast(n, p, Z_SQUARED, m, w, v);
    }
  }

  lemma BoundInRange(successes: int, total: int, sqrt: real -> real)
    requires Proper(successes, total) && IsSquareRoot(sqrt)
    ensures 0.0 <= WilsonLowerBound95(successes, total, sqrt) <= Rate(successes, total) <= 1.0
  {
    var m := BoundIsRoot(successes, total, sqrt);
    RootInRange(total as real, Rate(successes, total), Z_SQUARED, m, WilsonLowerBound95(successes, total, sqrt));
  }

  /** The bound is zero exactly without a success, or when the counts make no sense. */
  lemma BoundIsZeroExactly(successes: int, total: int, sqrt: real -> real)
    requires IsSquareRoot(sqrt)
    ensures WilsonLowerBound95(successes, total, sqrt) == 0.0 <==> total <= 0 || successes <= 0 || total < successes
  {
    if Proper(successes, total) {
      hide WilsonLowerBound95;
      BoundIsLeastRateNotRejected(successes, total, sqrt);
      BoundInRange(successes, total, sqrt);
      var n, p := total as real, Rate(successes, total);
      if successes == 0 {
        assert p == 0.0;
        assert NotRejected(n, p, 0.0);
      } else {
        assert p > 0.0;
        PositiveProduct(p, p);
        PositiveProduct(n, p * p);
        assert !NotRejected(n, p, 0.0);
      }
    }
  }

  lemma BoundIsMonotone(fewer: int, more: int, total: int, sqrt: real -> real)
    requires Proper(fewer, total) && Proper(more, total) && fewer <= more && IsSquareRoot(sqrt)
    ensures WilsonLowerBound95(fewer, total, sqrt) <= WilsonLowerBound95(more, total, sqrt)
  {
    hide Root, WilsonLowerBound95;
    var n, p1, p2 := total as real, Rate(fewer, total), Rate(more, total);
    var m1 := BoundIsRoot(fewer, total, sqrt);
    var m2 := BoundIsRoot(more, total, sqrt);
    RateInRange(fewer, total);
    RateInRange(more, total);
    assert n * (p2 - p1) == p2 * n - p1 * n;
    SignOfProduct(n, p2 - p1);
    RootIsMonotone(n, p1, p2, Z_SQUARED, m1, m2,
                   WilsonLowerBound95(fewer, total, sqrt), WilsonLowerBound95(more, total, sqrt));
  }

  /** A perfect record on n trials reaches n / (n + z^2). */
  lemma PerfectBound(total: int, sqrt: real -> real)
    requires total > 0 && IsSquareRoot(sqrt)
    ensures WilsonLowerBound95(total, total, sqrt) * (total as real + Z_SQUARED) == total as real
  {
    var n := total as real;
    assert Rate(total, total) == 1.0;
    var m := BoundIsRoot(total, total, sqrt);
    assert m * m == Z_SQUARED * (Z_SQUARED / 4.0) == 1.9208 * 1.9208;
    AbsFromSquare(m, 1.9208);
    AbsFromSquare(1.9208, m);
  }

  lemma BoundCeiling(successes: int, total: int, sqrt: real -> real)
    requires Proper(successes, total) && IsSquareRoot(sqrt)
    ensures WilsonLowerBound95(successes, total, sqrt) * (total as real + Z_SQUARED) <= total as real
  {
    PerfectBound(total, sqrt);
    BoundIsMonotone(successes, total, total, sqrt);
    var k := total as real + Z_SQUARED;
    var w, top := WilsonLowerBound95(successes, total, sqrt), WilsonLowerBound95(total, total, sqrt);
    SignOfProduct(k, top - w);
    assert k * (top - w) == top * k - w * k;
  }

  /** The 0.95 policy floor cannot be reached with fewer than 73 findings, whatever their outcome. */
  lemma FloorForcesFindings(successes: int, total: int, sqrt: real -> real)
    requires IsSquareRoot(sqrt) && WilsonLowerBound95(successes, total, sqrt) >= 0.95
    ensures Proper(successes, total) && total >= 73
  {
    BoundCeiling(successes, total, sqrt);
    var k := total as real + Z_SQUARED;
    var w := WilsonLowerBound95(successes, total, sqrt);
    SignOfProduct(k, w - 0.95);
    assert k * (w - 0.95) == w * k - 0.95 * k;
    assert 0.05 * total as real >= 0.95 * Z_SQUARED;
  }

  /** 73 is exact: a perfect record reaches the floor if and only if it has at least 73 findings. */
  lemma PerfectRecordReachesFloor(total: int, sqrt: real -> real)
    requires total > 0 && IsSquareRoot(sqrt)
    ensures WilsonLowerBound95(total, total, sqrt) >= 0.95 <==> total >= 73
  {
    if total >= 73 {
      PerfectBound(total, sqrt);
      var k := total as real + Z_SQUARED;
      var w := WilsonLowerBound95(total, total, sqrt);
      assert k * (w - 0.95) == w * k - 0.95 * k;
      SignOfProduct(k, w - 0.95);
    } else if WilsonLowerBound95(total, total, sqrt) >= 0.95 {
      FloorForcesFindings(total, total, sqrt);
    }
  }
}
