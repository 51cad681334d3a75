/** How fast the base limit rises with the score: the step onto the curve at the threshold, and the steps of
    one point along it. */
module LimitCurve {
  import opened Wrappers
  import opened HeuristicV3
  import opened ScoringBounds

  /** The step onto the curve: the point that crosses the threshold is worth the small anchor and whatever
      the curve has risen by then. It is worth nothing only if the small anchor is 0. */
  lemma CrossingTheThreshold(score: int, threshold: real, t: LoanType, c: Config, k: Curves)
    requires ValidConfig(c) && ValidCurves(k) && score < 1000
    requires score as real < threshold <= (score + 1) as real && threshold < 1000.0
    ensures var a := c.anchors.For(t);
            var step := Stage3BaseLimit(score + 1, threshold, t, c, k) - Stage3BaseLimit(score, threshold, t, c, k);
            && a.smallMin <= step <= a.maxLimit
            && (step == 0.0 <==> a.smallMin == 0.0
                                 && (a.maxLimit == 0.0 || Progress(score + 1, threshold, c, k) == 0.0))
  {
    BaseLimitRange(score, threshold, t, c, k);
    BaseLimitRange(score + 1, threshold, t, c, k);
  }

  // ---------------------------------------------------------------- Steps along the curve

  /** A power curve runs from 0 to 1. */
  ghost predicate Anchored(k: Curves, c: Config) {
    k.pow(0.0, c.curveExponent) == 0.0 && k.pow(1.0, c.curveExponent) == 1.0
  }

  /** What one more point is worth at score s. */
  function PointStep(s: int, threshold: int, t: LoanType, c: Config, k: Curves): real {
    Stage3BaseLimit(s + 1, threshold as real, t, c, k) - Stage3BaseLimit(s, threshold as real, t, c, k)
  }

  ghost predicate StepsWithin(lo: real, hi: real, threshold: int, t: LoanType, c: Config, k: Curves) {
    forall s: int | threshold <= s < 1000 :: lo <= PointStep(s, threshold, t, c, k) <= hi
  }

  lemma {:induction false} StepsAddUp(lo: real, hi: real, threshold: int, n: nat, t: LoanType, c: Config, k: Curves)
    requires StepsWithin(lo, hi, threshold, t, c, k) && threshold + n <= 1000
    ensures var rise := Stage3BaseLimit(threshold + n, threshold as real, t, c, k)
                        - Stage3BaseLimit(threshold, threshold as real, t, c, k);
            lo * n as real <= rise <= hi * n as real
  {
    hide Stage3BaseLimit;
    if n > 0 {
      StepsAddUp(lo, hi, threshold, n - 1, t, c, k);
      assert lo <= PointStep(threshold + n - 1, threshold, t, c, k) <= hi;
      assert n as real == (n - 1) as real + 1.0;
      OneMore(lo, (n - 1) as real);
      OneMore(hi, (n - 1) as real);
    }
  }

  lemma OneMore(x: real, n: real)
    ensures x * (n + 1.0) == x * n + x
  {
  }

  /** The curve rises by the whole distance between the anchors. */
  lemma WholeRise(threshold: int, t: LoanType, c: Config, k: Curves)
    requires ValidConfig(c) && Anchored(k, c) && threshold < 1000
    ensures Stage3BaseLimit(1000, threshold as real, t, c, k) - Stage3BaseLimit(threshold, threshold as real, t, c, k)
            == c.anchors.For(t).maxLimit - c.anchors.For(t).smallMin
  {
    var th := threshold as real;
    AboveThreshold(1000, th, t, c, k);
    AboveThreshold(threshold, th, t, c, k);
    DivSelf(1000.0 - th);
    assert Progress(1000, th, c, k) == 1.0;
    assert (threshold as real - th) / (1000.0 - th) == 0.0;
    assert Progress(threshold, th, c, k) == 0.0;
    assert ValidAnchors(c.anchors.For(t));
    hide Stage3BaseLimit, Progress;
  }

  /** The straight line, a power curve of exponent 1. */
  function Straight(): (k: Curves)
    ensures ValidCurves(k) && forall x: real, e: real :: k.pow(x, e) == x
  {
    Curves((x: real) => 0.0, (x: real, e: real) => x)
  }

  lemma StraightSteps(s: int, threshold: int, t: LoanType, c: Config)
    requires ValidConfig(c) && threshold <= s < 1000
    ensures PointStep(s, threshold, t, c, Straight())
            == (c.anchors.For(t).maxLimit - c.anchors.For(t).smallMin) / (1000 - threshold) as real
  {
    var th, a, k := threshold as real, c.anchors.For(t), Straight();
    var d := 1000.0 - th;
    assert ValidAnchors(a);
    AboveThreshold(s, th, t, c, k);
    AboveThreshold(s + 1, th, t, c, k);
    assert Progress(s, th, c, k) == (s as real - th) / d && Progress(s + 1, th, c, k) == (s as real + 1.0 - th) / d;
    QuotientInUnit(s as real - th, d);
    QuotientInUnit(s as real + 1.0 - th, d);
    hide Stage3BaseLimit, Progress, Blend, ValidConfig;
    BlendMono(a.smallMin, a.maxLimit, (s as real - th) / d, (s as real - th) / d);
    BlendMono(a.smallMin, a.maxLimit, (s as real + 1.0 - th) / d, (s as real + 1.0 - th) / d);
    LineStep(a.smallMin, a.maxLimit, s as real - th, d);
  }

  lemma LineStep(lo: real, hi: real, x: real, d: real)
    requires d > 0.0
    ensures Blend(lo, hi, (x + 1.0) / d) - Blend(lo, hi, x / d) == (hi - lo) / d
  {
    var r := 1.0 / d;
    assert (x + 1.0) / d == x / d + r;
    assert (hi - lo) * (x / d + r) == (hi - lo) * (x / d) + (hi - lo) * r;
    assert (hi - lo) / d == (hi - lo) * r;
  }

  /** Every point worth between lo and hi, all along: some rising curve from 0 to 1 manages that if and only
      if the distance between the anchors, spread evenly over the points, does. */
  lemma StepsPerPointExactlyWhen(lo: real, hi: real, threshold: int, t: LoanType, c: Config)
    requires ValidConfig(c) && threshold < 1000
    ensures var distance := c.anchors.For(t).maxLimit - c.anchors.For(t).smallMin;
            (exists k: Curves :: ValidCurves(k) && Anchored(k, c) && StepsWithin(lo, hi, threshold, t, c, k))
            <==> lo * (1000 - threshold) as real <= distance <= hi * (1000 - threshold) as real
  {
    hide Anchored, StepsWithin, ValidConfig, ValidCurves;
    var distance, n := c.anchors.For(t).maxLimit - c.anchors.For(t).smallMin, (1000 - threshold) as real;
    if k: Curves :| ValidCurves(k) && Anchored(k, c) && StepsWithin(lo, hi, threshold, t, c, k) {
      StepsAddUp(lo, hi, threshold, 1000 - threshold, t, c, k);
      WholeRise(threshold, t, c, k);
    }
    if lo * n <= distance <= hi * n {
      StraightFits(lo, hi, threshold, t, c);
    }
  }

  lemma StraightFits(lo: real, hi: real, threshold: int, t: LoanType, c: Config)
    requires ValidConfig(c) && threshold < 1000
    requires lo * (1000 - threshold) as real <= c.anchors.For(t).maxLimit - c.anchors.For(t).smallMin
    requires c.anchors.For(t).maxLimit - c.anchors.For(t).smallMin <= hi * (1000 - threshold) as real
    ensures ValidCurves(Straight()) && Anchored(Straight(), c) && StepsWithin(lo, hi, threshold, t, c, Straight())
  {
    EvenShare(lo, hi, c.anchors.For(t).maxLimit - c.anchors.For(t).smallMin, (1000 - threshold) as real);
    forall s: int | threshold <= s < 1000
      ensures lo <= PointStep(s, threshold, t, c, Straight()) <= hi
    {
      StraightSteps(s, threshold, t, c);
    }
    hide PointStep;
  }

  lemma EvenShare(lo: real, hi: real, distance: real, n: real)
    requires n > 0.0 && lo * n <= distance <= hi * n
    ensures lo <= distance / n <= hi
  {
    DivMono(lo * n, distance, n);
    DivMono(distance, hi * n, n);
    assert lo * n / n == lo && hi * n / n == hi;
  }

  /** Two to four naira a point throughout, as documented, is beyond every curve for two of the three loan
      types once the thin file is saturated: 2900 naira are too many for 700 points, and 950 too few. */
  lemma TwoToFourNairaAPoint(t: LoanType)
    ensures (exists k: Curves :: ValidCurves(k) && Anchored(k, DEFAULT_CONFIG)
                                 && StepsWithin(2.0, 4.0, 300, t, DEFAULT_CONFIG, k))
            <==> t == AIRTIME
  {
    DefaultConfigIsValid();
    StepsPerPointExactlyWhen(2.0, 4.0, 300, t, DEFAULT_CONFIG);
  }
}
