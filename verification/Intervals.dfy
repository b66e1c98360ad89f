/**
 The 95% confidence intervals of backend/app/modules/analytics/aggregation.py and matrix.py,
 in exact real arithmetic.  `sqrt` is a parameter constrained by `IsSqrt`; rounding is
 Python's round-half-to-even.
 */
module Intervals {
  import opened Options
  import opened Sequences

  const Z: real := 1.96

  predicate IsSqrt(root: real, value: real) {
    root >= 0.0 && root * root == value
  }

  datatype Interval = Interval(lower: real, upper: real)

  function Min(x: real, y: real): real { if x <= y then x else y }

  function Max(x: real, y: real): real { if x <= y then y else x }

  // ---------- The Wilson interval of `_binomial_confidence_interval` ----------

  function Proportion(successes: int, total: int): real
    requires total > 0
  {
    successes as real / total as real
  }

  function Radicand(successes: int, total: int): real
    requires total > 0
  {
    var p := Proportion(successes, total);
    (p * (1.0 - p) + Z * Z / (4.0 * total as real)) / total as real
  }

  function Centre(successes: int, total: int): real
    requires total > 0
  {
    (Proportion(successes, total) + Z * Z / (2.0 * total as real)) / (1.0 + Z * Z / total as real)
  }

  function Margin(total: int, root: real): real
    requires total > 0
  {
    Z * root / (1.0 + Z * Z / total as real)
  }

  /** Before rounding; `root` is what `sqrt` returned. */
  function WilsonInterval(successes: int, total: int, root: real): Option<Interval>
    requires total > 0 ==> IsSqrt(root, Radicand(successes, total))
  {
    if total <= 0 then None
    else Some(Interval(Max(0.0, Centre(successes, total) - Margin(total, root)),
                       Min(1.0, Centre(successes, total) + Margin(total, root))))
  }

  /** `lower` and `upper` are the two solutions x of (x - p)^2 = c x (1 - x). */
  ghost predicate Roots(lower: real, upper: real, p: real, c: real) {
    && lower <= upper
    && (1.0 + c) * (lower + upper) == 2.0 * p + c
    && (1.0 + c) * (lower * upper) == p * p
  }

  lemma RootsFactor(lower: real, upper: real, p: real, c: real, x: real)
    requires Roots(lower, upper, p, c)
    ensures (x - p) * (x - p) - c * (x * (1.0 - x)) == (1.0 + c) * ((x - lower) * (x - upper))
  {
    var s, q := lower + upper, lower * upper;
    assert (x - lower) * (x - upper) == x * x - s * x + q;
    assert (1.0 + c) * (x * x - s * x + q) == (1.0 + c) * (x * x) - (1.0 + c) * s * x + (1.0 + c) * q;
    assert (1.0 + c) * s * x == (2.0 * p + c) * x;
    assert (x - p) * (x - p) == x * x - 2.0 * p * x + p * p;
    assert c * (x * (1.0 - x)) == c * x - c * (x * x);
    assert (2.0 * p + c) * x == 2.0 * p * x + c * x;
    assert (1.0 + c) * (x * x) == x * x + c * (x * x);
  }

  lemma SignOfProduct(a: real, b: real)
    ensures a * b > 0.0 <==> (a > 0.0 && b > 0.0) || (a < 0.0 && b < 0.0)
    ensures a * b == 0.0 <==> a == 0.0 || b == 0.0
  {
    if a > 0.0 && b > 0.0 {
      assert a * b > 0.0;
    } else if a < 0.0 && b < 0.0 {
      assert a * b == (-a) * (-b);
      assert (-a) * (-b) > 0.0;
    } else if a > 0.0 && b < 0.0 {
      assert a * -b > 0.0;
      assert a * b == -(a * -b);
    } else if a < 0.0 && b > 0.0 {
      assert -a * b > 0.0;
      assert a * b == -(-a * b);
    }
  }

  /** Exchanging successes and failures mirrors the interval. */
  lemma RootsMirror(lower: real, upper: real, p: real, c: real)
    requires Roots(lower, upper, p, c)
    ensures Roots(1.0 - upper, 1.0 - lower, 1.0 - p, c)
  {
    var s, q := lower + upper, lower * upper;
    assert (1.0 - upper) * (1.0 - lower) == 1.0 - s + q;
    assert (1.0 + c) * (1.0 - s + q) == (1.0 + c) - (1.0 + c) * s + (1.0 + c) * q;
    assert (1.0 + c) * (2.0 - s) == 2.0 * (1.0 + c) - (1.0 + c) * s;
    assert (1.0 - p) * (1.0 - p) == 1.0 - 2.0 * p + p * p;
  }

  lemma RootsEncloseProportion(lower: real, upper: real, p: real, c: real)
    requires Roots(lower, upper, p, c) && 0.0 < c && 0.0 <= p <= 1.0
    ensures lower <= p <= upper
  {
    RootsFactor(lower, upper, p, c, p);
    SignOfProduct(p, 1.0 - p);
    SignOfProduct(c, p * (1.0 - p));
    SignOfProduct(1.0 + c, (p - lower) * (p - upper));
    SignOfProduct(p - lower, p - upper);
  }

  /** Between 0 and 1, with p between the roots. */
  lemma RootsInUnitInterval(lower: real, upper: real, p: real, c: real)
    requires Roots(lower, upper, p, c) && 0.0 < c && 0.0 <= p <= 1.0
    ensures 0.0 <= lower <= p <= upper <= 1.0
  {
    RootsMirror(lower, upper, p, c);
    RootsEncloseProportion(lower, upper, p, c);
  }

  lemma DifferenceOfParabolas(l1: real, u1: real, p1: real, l2: real, u2: real, p2: real, c: real, x: real)
    requires Roots(l1, u1, p1, c) && Roots(l2, u2, p2, c)
    ensures (1.0 + c) * ((x - l1) * (x - u1)) - (1.0 + c) * ((x - l2) * (x - u2)) == (p2 - p1) * (2.0 * x - p1 - p2)
  {
    RootsFactor(l1, u1, p1, c, x);
    RootsFactor(l2, u2, p2, c, x);
    assert (x - p1) * (x - p1) - (x - p2) * (x - p2) == (p2 - p1) * (2.0 * x - p1 - p2);
  }

  lemma ParabolaAtLowerRoot(l1: real, u1: real, p1: real, l2: real, u2: real, p2: real, c: real)
    requires Roots(l1, u1, p1, c) && Roots(l2, u2, p2, c)
    ensures (1.0 + c) * ((l2 - l1) * (l2 - u1)) == (p2 - p1) * (2.0 * l2 - p1 - p2)
  {
    DifferenceOfParabolas(l1, u1, p1, l2, u2, p2, c, l2);
    assert (l2 - l2) * (l2 - u2) == 0.0;
  }

  lemma LowerRootIncreases(l1: real, u1: real, p1: real, l2: real, u2: real, p2: real, c: real)
    requires Roots(l1, u1, p1, c) && Roots(l2, u2, p2, c)
    requires 0.0 < c && 0.0 <= p1 < p2 <= 1.0
    ensures l1 < l2
  {
    RootsEncloseProportion(l1, u1, p1, c);
    ParabolaAtLowerRoot(l1, u1, p1, l2, u2, p2, c);
    LowerRootBySigns(l1, u1, p1, l2, p2, 1.0 + c);
  }

  lemma LowerRootBySigns(l1: real, u1: real, p1: real, l2: real, p2: real, d: real)
    requires 0.0 < d && l1 <= p1 < p2 && l1 <= u1
    requires d * ((l2 - l1) * (l2 - u1)) == (p2 - p1) * (2.0 * l2 - p1 - p2)
    ensures l1 < l2
  {
    SignOfProduct(p2 - p1, 2.0 * l2 - p1 - p2);
    SignOfProduct(d, (l2 - l1) * (l2 - u1));
    SignOfProduct(l2 - l1, l2 - u1);
  }

  /** A larger proportion moves both roots up. */
  lemma RootsMonotone(l1: real, u1: real, p1: real, l2: real, u2: real, p2: real, c: real)
    requires Roots(l1, u1, p1, c) && Roots(l2, u2, p2, c)
    requires 0.0 < c && 0.0 <= p1 < p2 <= 1.0
    ensures l1 < l2 && u1 < u2
  {
    LowerRootIncreases(l1, u1, p1, l2, u2, p2, c);
    RootsMirror(l1, u1, p1, c);
    RootsMirror(l2, u2, p2, c);
    LowerRootIncreases(1.0 - u2, 1.0 - l2, 1.0 - p2, 1.0 - u1, 1.0 - l1, 1.0 - p1, c);
  }

  /** The weight z^2 / n of the prior half-successes. */
  function Weight(total: int): real
    requires total > 0
  {
    Z * Z / total as real
  }

  lemma Divided(x: real, d: real)
    requires d != 0.0
    ensures d * (x / d) == x
  {
  }

  /** The endpoints before clamping solve the score equation. */
  lemma EndpointsAreRoots(successes: int, total: int, root: real)
    requires total > 0 && IsSqrt(root, Radicand(successes, total))
    ensures Roots(Centre(successes, total) - Margin(total, root), Centre(successes, total) + Margin(total, root),
                  Proportion(successes, total), Weight(total))
  {
    var p, c, centre, margin := Proportion(successes, total), Weight(total), Centre(successes, total), Margin(total, root);
    RootsFromScaled(p, c, root, centre, margin);
  }

  lemma RootsFromScaled(p: real, c: real, root: real, centre: real, margin: real)
    requires 0.0 < c && 0.0 <= root
    requires (1.0 + c) * centre == p + c / 2.0 && (1.0 + c) * margin == Z * root
    requires (Z * root) * (Z * root) == c * (p * (1.0 - p)) + c * c / 4.0
    ensures Roots(centre - margin, centre + margin, p, c)
  {
    var d := 1.0 + c;
    DifferenceOfSquares(d, centre, margin);
    assert (p + c / 2.0) * (p + c / 2.0) == p * p + c * p + c * c / 4.0;
    assert c * (p * (1.0 - p)) == c * p - c * (p * p);
    CancelFactor(d, d * ((centre - margin) * (centre + margin)), p * p);
    SignOfProduct(d, margin);
  }

  lemma DifferenceOfSquares(d: real, x: real, y: real)
    ensures (d * x) * (d * x) - (d * y) * (d * y) == d * (d * ((x - y) * (x + y)))
  {
    assert (x - y) * (x + y) == x * x - y * y;
    assert d * (d * (x * x - y * y)) == d * (d * (x * x)) - d * (d * (y * y));
    assert (d * x) * (d * x) == d * (d * (x * x));
    assert (d * y) * (d * y) == d * (d * (y * y));
  }

  lemma CancelFactor(d: real, x: real, y: real)
    requires d != 0.0 && d * x == d * y
    ensures x == y
  {
    assert d * (x - y) == 0.0;
    SignOfProduct(d, x - y);
  }

  /**
   For every success count the reported interval before rounding has the two solutions of
   (x - p)^2 = z^2 x (1 - x) / n as its endpoints, so the clamps never bind.
   */
  lemma {:induction false} WilsonCharacterised(successes: int, total: int, root: real)
    requires 0 <= successes <= total && total > 0 && IsSqrt(root, Radicand(successes, total))
    ensures var lower, upper := Centre(successes, total) - Margin(total, root), Centre(successes, total) + Margin(total, root);
            && WilsonInterval(successes, total, root) == Some(Interval(lower, upper))
            && Roots(lower, upper, Proportion(successes, total), Weight(total))
            && 0.0 <= lower <= Proportion(successes, total) <= upper <= 1.0
  {
    EndpointsAreRoots(successes, total, root);
    ProportionInUnit(successes, total);
    RootsInUnitInterval(Centre(successes, total) - Margin(total, root), Centre(successes, total) + Margin(total, root),
                        Proportion(successes, total), Weight(total));
  }

  lemma ProportionInUnit(successes: int, total: int)
    requires 0 <= successes <= total && total > 0
    ensures 0.0 <= Proportion(successes, total) <= 1.0
  {
    Divided(successes as real, total as real);
    SignOfProduct(total as real, Proportion(successes, total));
    SignOfProduct(total as real, 1.0 - Proportion(successes, total));
  }

  /** More successes move both endpoints up. */
  lemma WilsonMonotone(fewer: int, more: int, total: int, r1: real, r2: real)
    requires 0 <= fewer < more <= total
    requires IsSqrt(r1, Radicand(fewer, total)) && IsSqrt(r2, Radicand(more, total))
    ensures var i, j := WilsonInterval(fewer, total, r1).value, WilsonInterval(more, total, r2).value;
            i.lower < j.lower && i.upper < j.upper
  {
    var i, j := WilsonInterval(fewer, total, r1).value, WilsonInterval(more, total, r2).value;
    WilsonCharacterised(fewer, total, r1);
    WilsonCharacterised(more, total, r2);
    ProportionInUnit(fewer, total);
    ProportionInUnit(more, total);
    ProportionIncreases(fewer, more, total);
    RootsMonotone(i.lower, i.upper, Proportion(fewer, total), j.lower, j.upper, Proportion(more, total), Weight(total));
  }

  lemma ProportionIncreases(fewer: int, more: int, total: int)
    requires fewer < more && total > 0
    ensures Proportion(fewer, total) < Proportion(more, total)
  {
    Divided(fewer as real, total as real);
    Divided(more as real, total as real);
    SignOfProduct(total as real, Proportion(more, total) - Proportion(fewer, total));
  }

  lemma SqrtUnique(r1: real, r2: real, value: real)
    requires IsSqrt(r1, value) && IsSqrt(r2, value)
    ensures r1 == r2
  {
    assert (r1 - r2) * (r1 + r2) == 0.0;
    SignOfProduct(r1 - r2, r1 + r2);
  }

  /** The interval of the complementary count is the mirror image. */
  lemma {:induction false} WilsonMirror(successes: int, total: int, r1: real, r2: real)
    requires 0 <= successes <= total && total > 0
    requires IsSqrt(r1, Radicand(successes, total)) && IsSqrt(r2, Radicand(total - successes, total))
    ensures var i := WilsonInterval(successes, total, r1).value;
            WilsonInterval(total - successes, total, r2) == Some(Interval(1.0 - i.upper, 1.0 - i.lower))
  {
    WilsonCharacterised(successes, total, r1);
    WilsonCharacterised(total - successes, total, r2);
    ComplementProportion(successes, total);
    SqrtUnique(r1, r2, Radicand(successes, total));
    ComplementCentre(successes, total);
  }

  lemma ComplementProportion(successes: int, total: int)
    requires total > 0
    ensures Proportion(total - successes, total) == 1.0 - Proportion(successes, total)
    ensures Radicand(total - successes, total) == Radicand(successes, total)
  {
    var n, p, q := total as real, Proportion(successes, total), Proportion(total - successes, total);
    Divided(successes as real, n);
    Divided((total - successes) as real, n);
    assert n * (p + q) == n * p + n * q;
    CancelFactor(n, p + q, 1.0);
  }

  lemma ComplementCentre(successes: int, total: int)
    requires total > 0
    ensures Centre(total - successes, total) == 1.0 - Centre(successes, total)
  {
    ComplementProportion(successes, total);
    ComplementScaled(Proportion(successes, total), Proportion(total - successes, total), Weight(total),
                     Centre(successes, total), Centre(total - successes, total));
  }

  lemma ComplementScaled(p: real, q: real, c: real, x: real, y: real)
    requires 0.0 < c && q == 1.0 - p
    requires (1.0 + c) * x == p + c / 2.0 && (1.0 + c) * y == q + c / 2.0
    ensures y == 1.0 - x
  {
    assert (1.0 + c) * (x + y) == (1.0 + c) * x + (1.0 + c) * y;
    CancelFactor(1.0 + c, x + y, 1.0);
  }

  // ---------- Rounding to six decimals ----------

  /** Python's `round` to an integer: the nearest, ties to the even one. */
  function RoundHalfEven(x: real): int {
    var below := x.Floor;
    var rest := x - below as real;
    if rest < 0.5 then below
    else if rest > 0.5 then below + 1
    else if below % 2 == 0 then below
    else below + 1
  }

  const MICRO: int := 1000000

  /** `round(x, 6)`, in millionths. */
  function Reported(x: real): int {
    RoundHalfEven(x * MICRO as real)
  }

  lemma RoundingIsMonotone(x: real, y: real)
    requires x <= y
    ensures RoundHalfEven(x) <= RoundHalfEven(y)
  {
  }

  /** Ties to even make rounding symmetric about any even integer. */
  lemma RoundingMirrors(x: real, mirror: int)
    requires mirror % 2 == 0
    ensures RoundHalfEven(mirror as real - x) == mirror - RoundHalfEven(x)
  {
    var below, y := x.Floor, mirror as real - x;
    if x == below as real {
      assert y.Floor == mirror - below;
    } else {
      assert y.Floor == mirror - below - 1;
    }
  }

  /** The reported error-rate interval is exactly one minus the reported success-rate interval. */
  lemma {:induction false} ErrorRateMirrorsSuccessRate(successful: int, completed: int, r1: real, r2: real)
    requires 0 <= successful <= completed && completed > 0
    requires IsSqrt(r1, Radicand(successful, completed)) && IsSqrt(r2, Radicand(completed - successful, completed))
    ensures var success := WilsonInterval(successful, completed, r1).value;
            var error := WilsonInterval(completed - successful, completed, r2).value;
            && Reported(error.lower) == MICRO - Reported(success.upper)
            && Reported(error.upper) == MICRO - Reported(success.lower)
  {
    WilsonMirror(successful, completed, r1, r2);
    var success := WilsonInterval(successful, completed, r1).value;
    RoundingMirrors(success.upper * MICRO as real, MICRO);
    RoundingMirrors(success.lower * MICRO as real, MICRO);
    assert (1.0 - success.upper) * MICRO as real == MICRO as real - success.upper * MICRO as real;
    assert (1.0 - success.lower) * MICRO as real == MICRO as real - success.lower * MICRO as real;
  }

  /** More successes never lower a reported endpoint. */
  lemma ReportedEndpointsGrow(fewer: int, more: int, total: int, r1: real, r2: real)
    requires 0 <= fewer < more <= total
    requires IsSqrt(r1, Radicand(fewer, total)) && IsSqrt(r2, Radicand(more, total))
    ensures var i, j := WilsonInterval(fewer, total, r1).value, WilsonInterval(more, total, r2).value;
            Reported(i.lower) <= Reported(j.lower) && Reported(i.upper) <= Reported(j.upper)
  {
    var i, j := WilsonInterval(fewer, total, r1).value, WilsonInterval(more, total, r2).value;
    WilsonMonotone(fewer, more, total, r1, r2);
    RoundingIsMonotone(i.lower * MICRO as real, j.lower * MICRO as real);
    RoundingIsMonotone(i.upper * MICRO as real, j.upper * MICRO as real);
  }

  // ---------- Normal intervals of score lists ----------

  function SquaredDeviations(values: seq<real>, centre: real): real {
    if values == [] then 0.0
    else
      var last := values[|values| - 1];
      SquaredDeviations(values[..|values| - 1], centre) + (last - centre) * (last - centre)
  }

  /** The squared standard error used by `_mean_confidence_interval`. */
  function SampleVarianceOfMean(values: seq<real>): real
    requires |values| > 1
  {
    SquaredDeviations(values, Average(values)) / (|values| - 1) as real / |values| as real
  }

  /** `_mean_confidence_interval` of the aggregation service. */
  function MeanInterval(values: seq<real>, root: real): Option<Interval>
    requires |values| > 1 ==> IsSqrt(root, SampleVarianceOfMean(values))
  {
    if values == [] then None
    else if |values| == 1 then Some(Interval(Average(values), Average(values)))
    else Some(Interval(Average(values) - Z * root, Average(values) + Z * root))
  }

  function BernoulliVarianceOfMean(values: seq<real>): real
    requires values != []
  {
    Max(0.0, Average(values) * (1.0 - Average(values))) / |values| as real
  }

  /** `_confidence_interval` of the matrix service. */
  function MatrixInterval(values: seq<real>, root: real): Option<Interval>
    requires values != [] ==> IsSqrt(root, BernoulliVarianceOfMean(values))
  {
    if values == [] then None
    else Some(Interval(Max(0.0, Average(values) - Z * root), Min(1.0, Average(values) + Z * root)))
  }

  ghost predicate Binary(values: seq<real>) {
    forall i :: 0 <= i < |values| ==> values[i] == 0.0 || values[i] == 1.0
  }

  /** The sum of x (1 - x). */
  function Spread(values: seq<real>): real {
    if values == [] then 0.0
    else Spread(values[..|values| - 1]) + values[|values| - 1] * (1.0 - values[|values| - 1])
  }

  lemma ExpandOneMore(d: real, sum: real, spread: real, n: real, c: real, x: real)
    requires d == sum - spread - 2.0 * c * sum + n * (c * c)
    ensures d + (x - c) * (x - c)
         == (sum + x) - (spread + x * (1.0 - x)) - 2.0 * c * (sum + x) + (n + 1.0) * (c * c)
  {
    assert (x - c) * (x - c) == x - x * (1.0 - x) - 2.0 * c * x + c * c;
    assert 2.0 * c * (sum + x) == 2.0 * c * sum + 2.0 * c * x;
    assert (n + 1.0) * (c * c) == n * (c * c) + c * c;
  }

  lemma {:induction false} DeviationsExpanded(values: seq<real>, centre: real, n: real)
    requires n == |values| as real
    ensures SquaredDeviations(values, centre)
         == Sum(values) - Spread(values) - 2.0 * centre * Sum(values) + n * (centre * centre)
  {
    if values != [] {
      var front, last := values[..|values| - 1], values[|values| - 1];
      DeviationsExpanded(front, centre, n - 1.0);
      ExpandOneMore(SquaredDeviations(front, centre), Sum(front), Spread(front), n - 1.0, centre, last);
    }
  }

  lemma {:induction false} DeviationsNonNegative(values: seq<real>, centre: real)
    ensures SquaredDeviations(values, centre) >= 0.0
  {
    if values != [] {
      DeviationsNonNegative(values[..|values| - 1], centre);
      SignOfProduct(values[|values| - 1] - centre, values[|values| - 1] - centre);
    }
  }

  lemma DeviationsAround(d: real, sum: real, spread: real, n: real, a: real, v: real)
    requires n * a == sum && v == a * (1.0 - a) && d == sum - spread - 2.0 * a * sum + n * (a * a)
    ensures d == n * v - spread
  {
    assert 2.0 * a * (n * a) == 2.0 * (n * (a * a));
    assert n * (a * (1.0 - a)) == n * a - n * (a * a);
  }

  lemma MeanTimes(values: seq<real>)
    requires values != []
    ensures |values| as real * Average(values) == Sum(values)
  {
    Divided(Sum(values), |values| as real);
  }

  /** The squared deviations from the mean `a` sum to n a (1 - a) less the spread. */
  lemma DeviationsFromMean(values: seq<real>, n: real, a: real, v: real)
    requires values != [] && n == |values| as real && a == Average(values) && v == a * (1.0 - a)
    ensures SquaredDeviations(values, a) == n * v - Spread(values)
  {
    MeanTimes(values);
    DeviationsExpanded(values, a, n);
    DeviationsAround(SquaredDeviations(values, a), Sum(values), Spread(values), n, a, v);
  }

  /** Among scores in [0, 1] the spread is zero exactly for those in {0, 1}. */
  lemma {:induction false} SpreadOfScores(values: seq<real>)
    requires forall i :: 0 <= i < |values| ==> 0.0 <= values[i] <= 1.0
    ensures 0.0 <= Spread(values) && (Spread(values) == 0.0 <==> Binary(values))
  {
    if values != [] {
      var last := values[|values| - 1];
      SpreadOfScores(values[..|values| - 1]);
      SignOfProduct(last, 1.0 - last);
    }
  }

  lemma {:induction false} BinarySums(values: seq<real>)
    requires Binary(values)
    ensures Spread(values) == 0.0 && 0.0 <= Sum(values) <= |values| as real
  {
    if values != [] {
      BinarySums(values[..|values| - 1]);
    }
  }

  lemma QuotientInUnit(sum: real, n: real, a: real)
    requires n > 0.0 && n * a == sum && 0.0 <= sum <= n
    ensures 0.0 <= a <= 1.0
  {
    SignOfProduct(n, a);
    SignOfProduct(n, 1.0 - a);
    assert n * (1.0 - a) == n - n * a;
  }

  lemma BinaryMean(values: seq<real>)
    requires values != [] && Binary(values)
    ensures 0.0 <= Average(values) <= 1.0
  {
    BinarySums(values);
    MeanTimes(values);
    QuotientInUnit(Sum(values), |values| as real, Average(values));
  }

  /** For scores in {0, 1} the squared deviations sum to n a (1 - a). */
  lemma BinaryDeviations(values: seq<real>)
    requires values != [] && Binary(values)
    ensures var a := Average(values); SquaredDeviations(values, a) == |values| as real * (a * (1.0 - a))
    ensures 0.0 <= Average(values) <= 1.0
  {
    BinaryMean(values);
    var n, a, v := |values| as real, Average(values), Average(values) * (1.0 - Average(values));
    assert SquaredDeviations(values, a) == n * v by {
      BinarySums(values);
      DeviationsFromMean(values, n, a, v);
    }
  }

  // ---------- When one interval contains the other ----------

  predicate Contains(outer: Interval, inner: Interval) {
    outer.lower <= inner.lower && inner.upper <= outer.upper
  }

  lemma SqrtOrder(r1: real, v1: real, r2: real, v2: real)
    requires IsSqrt(r1, v1) && IsSqrt(r2, v2)
    ensures r1 <= r2 <==> v1 <= v2
  {
    assert (r2 - r1) * (r2 + r1) == v2 - v1;
    SignOfProduct(r2 - r1, r2 + r1);
    if r1 + r2 == 0.0 {
      assert r1 == 0.0 && r2 == 0.0;
    }
  }

  lemma QuotientOrder(x: real, y: real, n: real)
    requires n > 0.0
    ensures x / n <= y / n <==> x <= y
  {
    Divided(x, n);
    Divided(y, n);
    assert n * (y / n - x / n) == y - x;
    SignOfProduct(n, y / n - x / n);
  }

  lemma AtMostQuotient(y: real, x: real, d: real)
    requires d > 0.0
    ensures y <= x / d <==> d * y <= x
  {
    Divided(x, d);
    assert d * (x / d - y) == d * (x / d) - d * y;
    SignOfProduct(d, x / d - y);
  }

  lemma ScaledOrder(deviations: real, spread: real, n: real, v: real)
    requires n > 1.0 && deviations == n * v - spread && deviations >= 0.0
    ensures (n - 1.0) * Max(0.0, v) <= deviations <==> spread <= v
  {
    if v < 0.0 {
      SignOfProduct(n - 1.0, -v);
      assert (n - 1.0) * -v == v - n * v;
    } else {
      assert (n - 1.0) * v == n * v - v;
    }
  }

  lemma VariancesOrdered(deviations: real, spread: real, n: real, v: real)
    requires n > 1.0 && deviations == n * v - spread && deviations >= 0.0
    ensures Max(0.0, v) / n <= deviations / (n - 1.0) / n <==> spread <= v
  {
    QuotientOrder(Max(0.0, v), deviations / (n - 1.0), n);
    AtMostQuotient(Max(0.0, v), deviations, n - 1.0);
    ScaledOrder(deviations, spread, n, v);
  }

  /** The matrix's variance is at most the sample variance exactly when the spread is at most a (1 - a). */
  lemma VariancesCompared(values: seq<real>)
    requires |values| > 1
    ensures BernoulliVarianceOfMean(values) <= SampleVarianceOfMean(values)
       <==> Spread(values) <= Average(values) * (1.0 - Average(values))
  {
    var n, a, v := |values| as real, Average(values), Average(values) * (1.0 - Average(values));
    DeviationsFromMean(values, n, a, v);
    DeviationsNonNegative(values, a);
    VariancesOrdered(SquaredDeviations(values, a), Spread(values), n, v);
  }

  lemma ClampedContainment(a: real, inner: real, outer: real)
    ensures Contains(Interval(a - Z * outer, a + Z * outer), Interval(Max(0.0, a - Z * inner), Min(1.0, a + Z * inner)))
       <==> inner <= outer || Max(a, 1.0 - a) <= Z * outer
  {
  }

  lemma CoversExactly(far: real, root: real, variance: real)
    requires 0.0 <= far && IsSqrt(root, variance)
    ensures far <= Z * root <==> far * far <= Z * Z * variance
  {
    assert (Z * root) * (Z * root) == Z * Z * (root * root);
    SqrtOrder(far, far * far, Z * root, Z * Z * variance);
  }

  lemma RootsContained(a: real, inner: real, innerVariance: real, outer: real, outerVariance: real, reach: real)
    requires IsSqrt(inner, innerVariance) && IsSqrt(outer, outerVariance)
    requires reach == Max(a, 1.0 - a) * Max(a, 1.0 - a)
    ensures Contains(Interval(a - Z * outer, a + Z * outer), Interval(Max(0.0, a - Z * inner), Min(1.0, a + Z * inner)))
       <==> innerVariance <= outerVariance || reach <= Z * Z * outerVariance
  {
    ClampedContainment(a, inner, outer);
    CoversExactly(Max(a, 1.0 - a), outer, outerVariance);
    SqrtOrder(inner, innerVariance, outer, outerVariance);
  }

  /** The square of the distance from the mean to the farther end of [0, 1]. */
  function Reach(values: seq<real>): real
    requires values != []
  {
    Max(Average(values), 1.0 - Average(values)) * Max(Average(values), 1.0 - Average(values))
  }

  /**
   Exactly when the clamped normal interval of the comparison matrix lies inside the interval
   that the aggregation service reports for the same scores: for one score, when it is not
   strictly between 0 and 1; for several, when the sum of x (1 - x) is at most a (1 - a), or
   their variance is so large that the outer interval covers all of [0, 1].
   */
  lemma {:induction false} ContainmentExactly(values: seq<real>, matrixRoot: real, meanRoot: real)
    requires values != []
    requires IsSqrt(matrixRoot, BernoulliVarianceOfMean(values))
    requires |values| > 1 ==> IsSqrt(meanRoot, SampleVarianceOfMean(values))
    ensures var inner, outer := MatrixInterval(values, matrixRoot).value, MeanInterval(values, meanRoot).value;
      var v := Average(values) * (1.0 - Average(values));
      Contains(outer, inner) <==>
        if |values| == 1 then v <= 0.0
        else Spread(values) <= v || Reach(values) <= Z * Z * SampleVarianceOfMean(values)
  {
    if |values| == 1 {
      ClampedContainment(Average(values), matrixRoot, 0.0);
      SignOfProduct(matrixRoot, matrixRoot);
    } else {
      RootsContained(Average(values), matrixRoot, BernoulliVarianceOfMean(values), meanRoot, SampleVarianceOfMean(values),
                     Reach(values));
      VariancesCompared(values);
    }
  }

  /**
   For scores in {0, 1} the interval of the comparison matrix lies inside the interval that
   the aggregation service reports for the same scores, for every number of samples.
   */
  lemma MatrixIntervalInsideMeanInterval(values: seq<real>, matrixRoot: real, meanRoot: real)
    requires values != [] && Binary(values)
    requires IsSqrt(matrixRoot, BernoulliVarianceOfMean(values))
    requires |values| > 1 ==> IsSqrt(meanRoot, SampleVarianceOfMean(values))
    ensures var inner, outer := MatrixInterval(values, matrixRoot).value, MeanInterval(values, meanRoot).value;
            outer.lower <= inner.lower <= inner.upper <= outer.upper
  {
    BinaryMean(values);
    BinarySums(values);
    ContainmentExactly(values, matrixRoot, meanRoot);
    SignOfProduct(Average(values), 1.0 - Average(values));
    if |values| == 1 {
      assert values[..0] == [];
      assert Sum(values) == values[0];
    }
  }

  lemma {:induction false} EqualSums(values: seq<real>, score: real, n: real)
    requires n == |values| as real && forall i :: 0 <= i < |values| ==> values[i] == score
    ensures Sum(values) == n * score && Spread(values) == n * (score * (1.0 - score))
    ensures SquaredDeviations(values, score) == 0.0
  {
    if values != [] {
      EqualSums(values[..|values| - 1], score, n - 1.0);
      assert n * score == (n - 1.0) * score + score;
      var v := score * (1.0 - score);
      assert n * v == (n - 1.0) * v + v;
    }
  }

  lemma EqualMean(values: seq<real>, score: real)
    requires values != [] && forall i :: 0 <= i < |values| ==> values[i] == score
    ensures Average(values) == score
  {
    EqualSums(values, score, |values| as real);
    MeanTimes(values);
    CancelFactor(|values| as real, Average(values), score);
  }

  /** Equal scores strictly between 0 and 1 break the containment, however many there are. */
  lemma PartialScoresBreakContainment(values: seq<real>, score: real, matrixRoot: real, meanRoot: real)
    requires values != [] && 0.0 < score < 1.0 && forall i :: 0 <= i < |values| ==> values[i] == score
    requires IsSqrt(matrixRoot, BernoulliVarianceOfMean(values))
    requires |values| > 1 ==> IsSqrt(meanRoot, SampleVarianceOfMean(values))
    ensures !Contains(MeanInterval(values, meanRoot).value, MatrixInterval(values, matrixRoot).value)
  {
    EqualMean(values, score);
    SignOfProduct(score, 1.0 - score);
    if |values| > 1 {
      EqualSums(values, score, |values| as real);
      NoDeviationNoRoot(|values| as real, meanRoot);
    }
    ContainmentExactly(values, matrixRoot, meanRoot);
  }

  lemma NoDeviationNoRoot(n: real, root: real)
    requires n > 1.0 && IsSqrt(root, 0.0 / (n - 1.0) / n)
    ensures root == 0.0
  {
    Divided(0.0, n - 1.0);
    CancelFactor(n - 1.0, 0.0 / (n - 1.0), 0.0);
    Divided(0.0, n);
    CancelFactor(n, 0.0 / n, 0.0);
    SignOfProduct(root, root);
  }
}
