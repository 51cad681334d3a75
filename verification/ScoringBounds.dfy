/** Exact ranges of every stage of heuristic_v3, for all feature rows, requests and valid configs. */
module ScoringBounds {
  import opened Wrappers
  import opened HeuristicV3

  lemma DefaultConfigIsValid()
    ensures ValidConfig(DEFAULT_CONFIG)
  {
  }

  // ---------------------------------------------------------------- Real arithmetic

  lemma MulMono(a: real, b: real, c: real, d: real)
    requires 0.0 <= a <= b && 0.0 <= c <= d
    ensures 0.0 <= a * c <= b * d
  {
    assert a * c <= b * c;
    assert b * c <= b * d;
  }

  lemma DivMono(x: real, y: real, d: real)
    requires x <= y && d > 0.0
    ensures x / d <= y / d
    ensures 0.0 <= x ==> 0.0 <= x / d
  {
    assert x / d == x * (1.0 / d) && y / d == y * (1.0 / d);
  }

  lemma QuotientInUnit(x: real, d: real)
    requires 0.0 <= x <= d && d > 0.0
    ensures 0.0 <= x / d <= 1.0
  {
    DivMono(x, d, d);
  }

  /** Convex combinations stay between their end points and rise with the weight. */
  lemma BlendMono(lo: real, hi: real, x: real, y: real)
    requires lo <= hi && 0.0 <= x <= y <= 1.0
    ensures lo <= Blend(lo, hi, x) <= Blend(lo, hi, y) <= hi
  {
    MulMono(hi - lo, hi - lo, x, y);
    MulMono(hi - lo, hi - lo, y, 1.0);
  }

  lemma RoundMono(x: real, y: real)
    requires x <= y
    ensures Round(x) <= Round(y)
  {
  }

  // ---------------------------------------------------------------- Stage 2

  lemma MultiplierInUnit(lo: real, n: nat, m: nat, sat: real, k: Curves)
    requires ValidCurves(k) && sat > 0.0 && 0.0 <= lo <= 1.0 && n <= m
    ensures lo <= Multiplier(lo, n, sat, k) <= Multiplier(lo, m, sat, k) <= 1.0
  {
    hide Blend;
    var x, y := n as real / sat, m as real / sat;
    DivMono(n as real, m as real, sat);
    assert 0.0 <= k.tanh(x) <= k.tanh(y) <= 1.0;
    BlendMono(lo, 1.0, k.tanh(x), k.tanh(y));
  }

  lemma StabilityInUnit(f: FeatureRow, c: Config, k: Curves)
    requires ValidConfig(c) && ValidCurves(k)
    ensures 0.0 <= Stability(f, c, k) <= 1.0
    ensures 0.0 <= EngagementMult(f, c, k) <= 1.0
  {
    MultiplierInUnit(c.tenureMultMin, f.daysOnNetwork, f.daysOnNetwork, c.tenureSatDays, k);
    MultiplierInUnit(c.engagementMultMin, f.rechargeCount30d, f.rechargeCount30d, c.engagementSat, k);
  }

  lemma EvidenceNonNegative(f: FeatureRow, c: Config)
    requires ValidConfig(c)
    ensures 0.0 <= PosteriorRate(f, c) && 0.0 <= Confidence(f.loansTaken180d, c) <= 1.0
    ensures 0.0 <= EvidenceScore(f, c)
  {
    var num := f.loansRecovered180d as real + c.priorAlpha;
    DivMono(num, num, f.loansTaken180d as real + c.priorAlpha + c.priorBeta);
    QuotientInUnit(f.loansTaken180d as real, f.loansTaken180d as real + c.confidencePseudoN);
    hide PosteriorRate, Confidence;
    NonNegativeProduct(c.evidenceMax, PosteriorRate(f, c), Confidence(f.loansTaken180d, c));
  }

  lemma NonNegativeProduct(a: real, b: real, c: real)
    requires 0.0 <= a && 0.0 <= b && 0.0 <= c
    ensures 0.0 <= a * b * c
  {
    MulMono(0.0, a, 0.0, b);
    MulMono(0.0, a * b, 0.0, c);
  }

  /** Evidence as a share of its maximum is Weight / WeightLimit. */
  function Weight(f: FeatureRow, c: Config): real {
    (f.loansRecovered180d as real + c.priorAlpha) * f.loansTaken180d as real
  }

  function WeightLimit(taken: real, c: Config): real {
    (taken + c.priorAlpha + c.priorBeta) * (taken + c.confidencePseudoN)
  }

  /** What a caller can compute of the two counts: recoveries do not outweigh the loans taken by more than
      both priors allow. */
  predicate EvidenceFits(f: FeatureRow, c: Config) {
    Weight(f, c) <= WeightLimit(f.loansTaken180d as real, c)
  }

  /** The evidence ceiling holds exactly then, and is reached exactly at equality. */
  lemma EvidenceAtMostMaxExactlyWhen(f: FeatureRow, c: Config)
    requires ValidConfig(c) && c.evidenceMax > 0.0
    ensures EvidenceScore(f, c) <= c.evidenceMax <==> EvidenceFits(f, c)
    ensures EvidenceScore(f, c) < c.evidenceMax <==> Weight(f, c) < WeightLimit(f.loansTaken180d as real, c)
  {
    var taken := f.loansTaken180d as real;
    var y, b := taken + c.priorAlpha + c.priorBeta, taken + c.confidencePseudoN;
    assert y > 0.0 && b > 0.0;
    WeightOfRates(f, c);
    assert EvidenceScore(f, c) == c.evidenceMax * PosteriorRate(f, c) * Confidence(f.loansTaken180d, c);
    hide *;
    ScaledNamed(c.evidenceMax, PosteriorRate(f, c), Confidence(f.loansTaken180d, c), y, b,
                EvidenceScore(f, c), Weight(f, c), WeightLimit(taken, c));
  }

  lemma ScaledNamed(e: real, p: real, q: real, y: real, b: real, evidence: real, weight: real, limit: real)
    requires e > 0.0 && y > 0.0 && b > 0.0
    requires evidence == e * p * q && weight == (p * y) * (q * b) && limit == y * b
    ensures evidence <= e <==> weight <= limit
    ensures evidence < e <==> weight < limit
  {
    Scaled(e, p, q, y, b);
  }

  lemma WeightOfRates(f: FeatureRow, c: Config)
    requires ValidConfig(c)
    ensures var taken := f.loansTaken180d as real;
            var y, b := taken + c.priorAlpha + c.priorBeta, taken + c.confidencePseudoN;
            && Weight(f, c) == (PosteriorRate(f, c) * y) * (Confidence(f.loansTaken180d, c) * b)
            && WeightLimit(taken, c) == y * b
            && (EvidenceFits(f, c) <==> Weight(f, c) <= WeightLimit(taken, c))
  {
    var taken := f.loansTaken180d as real;
    var x, y, b := f.loansRecovered180d as real + c.priorAlpha, taken + c.priorAlpha + c.priorBeta,
                   taken + c.confidencePseudoN;
    Cancel(x, y);
    Cancel(taken, b);
    assert PosteriorRate(f, c) == x / y && Confidence(f.loansTaken180d, c) == taken / b;
    hide PosteriorRate, Confidence, ValidConfig;
    SameProduct(PosteriorRate(f, c) * y, Confidence(f.loansTaken180d, c) * b, x, taken);
  }

  lemma SameProduct(u: real, v: real, x: real, a: real)
    requires u == x && v == a
    ensures u * v == x * a
  {
  }

  lemma Cancel(x: real, d: real)
    requires d > 0.0
    ensures x / d * d == x
  {
  }

  /** Scaling by a positive e, and by positive denominators, keeps the comparison of p * q with 1. */
  lemma Scaled(e: real, p: real, q: real, y: real, b: real)
    requires e > 0.0 && y > 0.0 && b > 0.0
    ensures e * p * q <= e <==> (p * y) * (q * b) <= y * b
    ensures e * p * q < e <==> (p * y) * (q * b) < y * b
  {
    Regroup(e, p, q, y, b);
    Positive(y, b);
    ScaledBound(p * q, e);
    ScaledBound(p * q, y * b);
  }

  lemma Regroup(e: real, p: real, q: real, y: real, b: real)
    ensures e * p * q == (p * q) * e && (p * y) * (q * b) == (p * q) * (y * b)
  {
  }

  lemma Positive(y: real, b: real)
    requires y > 0.0 && b > 0.0
    ensures y * b > 0.0
  {
  }

  lemma ScaledBound(r: real, d: real)
    requires d > 0.0
    ensures r * d <= d <==> r <= 1.0
    ensures r * d < d <==> r < 1.0
  {
    if r < 1.0 {
      assert (1.0 - r) * d > 0.0;
    } else if r > 1.0 {
      assert (r - 1.0) * d > 0.0;
    }
  }

  lemma LighterWhenRecoveredWithinTaken(f: FeatureRow, c: Config)
    requires ValidConfig(c) && f.loansRecovered180d <= f.loansTaken180d
    ensures Weight(f, c) < WeightLimit(f.loansTaken180d as real, c)
  {
    var x, a := f.loansRecovered180d as real + c.priorAlpha, f.loansTaken180d as real;
    var y := a + c.priorAlpha + c.priorBeta;
    MulMono(x, y, a, a);
    assert y * (a + c.confidencePseudoN) == y * a + y * c.confidencePseudoN;
    assert y * c.confidencePseudoN > 0.0;
  }

  lemma EvidenceAtMostMax(f: FeatureRow, c: Config)
    requires ValidConfig(c) && EvidenceFits(f, c)
    ensures 0.0 <= EvidenceScore(f, c) <= c.evidenceMax
  {
    EvidenceNonNegative(f, c);
    if c.evidenceMax > 0.0 {
      EvidenceAtMostMaxExactlyWhen(f, c);
    } else {
      NoEvidence(PosteriorRate(f, c), Confidence(f.loansTaken180d, c));
    }
  }

  lemma NoEvidence(p: real, q: real)
    ensures 0.0 * p * q == 0.0
  {
  }

  lemma PenaltyPartsRise(m: nat, n: nat, c: Config)
    requires ValidConfig(c) && m <= n
    ensures 0.0 <= CuredRecentPenalty(m, c) <= CuredRecentPenalty(n, c)
    ensures 0.0 <= CuredLifetimePenalty(m, c) <= CuredLifetimePenalty(n, c)
    ensures 0.0 <= VelocityPenalty(m, c) <= VelocityPenalty(n, c)
  {
    MulMono(c.penaltyCuredRecent, c.penaltyCuredRecent, m as real, n as real);
    MulMono(c.penaltyCuredLifetime, c.penaltyCuredLifetime, m as real, n as real);
    MulMono(c.penaltyVelocity, c.penaltyVelocity,
            Max(0.0, m as real - c.velocityThreshold), Max(0.0, n as real - c.velocityThreshold));
  }

  lemma PenaltyNonNegative(f: FeatureRow, c: Config)
    requires ValidConfig(c)
    ensures Penalty(f, c) >= 0.0
  {
    hide CuredRecentPenalty, CuredLifetimePenalty, VelocityPenalty;
    PenaltyPartsRise(f.historicalCuredDefaults180d, f.historicalCuredDefaults180d, c);
    PenaltyPartsRise(f.historicalCuredDefaultsLifetime, f.historicalCuredDefaultsLifetime, c);
    PenaltyPartsRise(f.eligibilityChecks1h, f.eligibilityChecks1h, c);
  }

  lemma BaseScoreCeiling(f: FeatureRow, c: Config, k: Curves)
    requires ValidConfig(c) && ValidCurves(k) && EvidenceFits(f, c)
    ensures BaseScore(f, c, k) <= Max(c.evidenceMax, c.coldStartBase)
  {
    StabilityInUnit(f, c, k);
    EvidenceAtMostMax(f, c);
    BaseScoreShrinks(f, c, k);
    hide BaseScore, EvidenceScore, EvidenceFits, ValidConfig, ValidCurves;
  }

  /** Both formulas of the base scale a fixed amount down. */
  lemma BaseScoreShrinks(f: FeatureRow, c: Config, k: Curves)
    requires ValidConfig(c) && 0.0 <= EvidenceScore(f, c)
    requires 0.0 <= Stability(f, c, k) <= 1.0 && 0.0 <= EngagementMult(f, c, k) <= 1.0
    ensures BaseScore(f, c, k) <= if ColdStartUsed(f, c, k) then c.coldStartBase else EvidenceScore(f, c)
  {
    hide EvidenceScore, Stability, EngagementMult, ColdStartUsed;
    Shrinks(EvidenceScore(f, c), Stability(f, c, k));
    assert c.coldStartBase >= 0.0;
    hide ValidConfig;
    Shrinks(c.coldStartBase, EngagementMult(f, c, k));
  }

  /** Once a loan has been taken the score is under whatever the evidence is under. */
  lemma ScoreUnderEvidence(f: FeatureRow, top: int, c: Config, k: Curves)
    requires ValidConfig(c) && ValidCurves(k) && f.loansTaken180d >= 1
    requires EvidenceScore(f, c) <= top as real
    ensures Stage2Score(f, c, k) <= top
  {
    StabilityInUnit(f, c, k);
    EvidenceNonNegative(f, c);
    PenaltyNonNegative(f, c);
    BaseScoreShrinks(f, c, k);
    hide BaseScore, EvidenceScore, Penalty, ValidConfig, ValidCurves;
    RoundMono(BaseScore(f, c, k) - Penalty(f, c), top as real);
  }

  lemma Shrinks(a: real, x: real)
    requires 0.0 <= a && 0.0 <= x <= 1.0
    ensures a * x <= a
  {
    MulMono(a, a, x, 1.0);
  }

  /** Where the evidence ceiling holds (with no more loans recovered than taken it always does), the score
      never passes the larger of that ceiling and the cold-start base (rounded, so exactly that maximum for
      an integer config). */
  lemma ScoreRange(f: FeatureRow, c: Config, k: Curves)
    requires ValidConfig(c) && ValidCurves(k)
    ensures 0 <= Stage2Score(f, c, k) <= 1000
    ensures EvidenceFits(f, c) ==> Stage2Score(f, c, k) <= Round(Max(c.evidenceMax, c.coldStartBase))
    ensures f.loansRecovered180d <= f.loansTaken180d ==> EvidenceFits(f, c)
  {
    hide BaseScore, Penalty, Weight, WeightLimit;
    if f.loansRecovered180d <= f.loansTaken180d {
      LighterWhenRecoveredWithinTaken(f, c);
    }
    if EvidenceFits(f, c) {
      BaseScoreCeiling(f, c, k);
      PenaltyNonNegative(f, c);
      hide ValidConfig, ValidCurves;
      RoundMono(BaseScore(f, c, k) - Penalty(f, c), Max(c.evidenceMax, c.coldStartBase));
    }
  }

  /** The condition can fail: the two counts use different dates, so recoveries of older loans can outnumber
      the loans taken in the window. After 2 loans under the shipped defaults up to 16 recoveries fit. */
  lemma EvidenceCeilingBroken(f: FeatureRow)
    requires f.loansTaken180d == 2
    ensures EvidenceScore(f, DEFAULT_CONFIG) > DEFAULT_CONFIG.evidenceMax <==> f.loansRecovered180d > 16
  {
    DefaultConfigIsValid();
    EvidenceAtMostMaxExactlyWhen(f, DEFAULT_CONFIG);
    hide EvidenceScore;
  }

  /** The evidence ceiling is approached and never reached. */
  lemma EvidenceBelowMax(f: FeatureRow, c: Config)
    requires ValidConfig(c) && c.evidenceMax > 0.0 && f.loansRecovered180d <= f.loansTaken180d
    ensures EvidenceScore(f, c) < c.evidenceMax
  {
    EvidenceAtMostMaxExactlyWhen(f, c);
    LighterWhenRecoveredWithinTaken(f, c);
    hide EvidenceScore, Weight, WeightLimit;
  }

  /** The calibration, threshold and taper tables of the scoring document, every row of them, in closed
      form: n perfect repayments, n loans taken, exposure e. */
  lemma DocumentedTables(f: FeatureRow, n: nat, limit: real, e: real)
    requires f.loansTaken180d == n && f.loansRecovered180d == n
    ensures EvidenceScore(f, DEFAULT_CONFIG) * ((n as real + 4.0) * (n as real + 4.0))
            == 800.0 * (n as real + 2.0) * n as real
    ensures n <= 6 ==> EffectiveThreshold(n, DEFAULT_CONFIG)
                       == 300.0 - 220.0 * ((6 - n) * (6 - n)) as real / 36.0
    ensures n >= 6 ==> EffectiveThreshold(n, DEFAULT_CONFIG) == 300.0
    ensures 0.85 <= e < 0.95 ==> Tapered(limit, e, DEFAULT_CONFIG) == limit * (9.5 - 10.0 * e)
    ensures e < 0.85 ==> Tapered(limit, e, DEFAULT_CONFIG) == limit
    ensures e >= 0.95 ==> Tapered(limit, e, DEFAULT_CONFIG) == 0.0
  {
    TableEvidence(f, n);
    TableThreshold(n);
    hide EvidenceScore, EffectiveThreshold;
    if 0.85 <= e < 0.95 {
      assert 1.0 - (e - 0.85) / 0.1 == 9.5 - 10.0 * e;
    }
  }

  lemma TableEvidence(f: FeatureRow, n: nat)
    requires f.loansTaken180d == n && f.loansRecovered180d == n
    ensures EvidenceScore(f, DEFAULT_CONFIG) * ((n as real + 4.0) * (n as real + 4.0))
            == 800.0 * (n as real + 2.0) * n as real
  {
    var a, b, d := n as real + 2.0, n as real, n as real + 4.0;
    assert EvidenceScore(f, DEFAULT_CONFIG) == 800.0 * (a / d) * (b / d);
    hide EvidenceScore;
    FractionsMultiply(800.0, a / d, b / d, d);
    assert a / d * d == a && b / d * d == b;
  }

  lemma FractionsMultiply(e: real, p: real, q: real, d: real)
    ensures e * p * q * (d * d) == e * (p * d) * (q * d)
  {
  }

  lemma TableThreshold(n: nat)
    ensures n <= 6 ==> EffectiveThreshold(n, DEFAULT_CONFIG)
                       == 300.0 - 220.0 * ((6 - n) * (6 - n)) as real / 36.0
    ensures n >= 6 ==> EffectiveThreshold(n, DEFAULT_CONFIG) == 300.0
  {
    TableFraction(n);
    var x := ThinFileFraction(n, DEFAULT_CONFIG);
    assert EffectiveThreshold(n, DEFAULT_CONFIG) == 300.0 - Quadratic(220.0, x);
    hide EffectiveThreshold, ThinFileFraction;
    if n <= 6 {
      SixthsSquared(6 - n);
    }
    if n >= 6 {
      QuadraticEnds(220.0);
    }
  }

  lemma TableFraction(n: nat)
    ensures ThinFileFraction(n, DEFAULT_CONFIG) == if n <= 6 then (6 - n) as real / 6.0 else 0.0
  {
  }

  lemma SixthsSquared(j: nat)
    ensures Quadratic(220.0, j as real / 6.0) == 220.0 * (j * j) as real / 36.0
  {
    var x := j as real / 6.0;
    assert j as real == 6.0 * x;
    RealSquare(j);
    assert (6.0 * x) * (6.0 * x) == 36.0 * (x * x);
    assert Quadratic(220.0, x) == 220.0 * (x * x);
  }

  lemma RealSquare(j: nat)
    ensures (j * j) as real == j as real * j as real
  {
  }

  // ---------------------------------------------------------------- Stage 3

  lemma ProgressInUnit(score: int, threshold: real, t: LoanType, c: Config, k: Curves)
    requires ValidConfig(c) && ValidCurves(k) && score <= 1000
    requires threshold <= score as real && threshold < 1000.0
    ensures var x := (score as real - threshold) / (1000.0 - threshold);
            0.0 <= x <= 1.0 && 0.0 <= k.pow(x, c.curveExponent) <= 1.0
  {
    QuotientInUnit(score as real - threshold, 1000.0 - threshold);
  }

  predicate Denied(score: int, threshold: real) {
    score as real < threshold || threshold >= 1000.0
  }

  /** How far along the curve a score is that is not denied. */
  function Progress(score: int, threshold: real, c: Config, k: Curves): real
    requires threshold < 1000.0
  {
    k.pow((score as real - threshold) / (1000.0 - threshold), c.curveExponent)
  }

  lemma AboveThreshold(s: int, threshold: real, lt: LoanType, c: Config, k: Curves)
    requires !Denied(s, threshold)
    ensures var a := c.anchors.For(lt);
            Stage3BaseLimit(s, threshold, lt, c, k)
            == Max(0.0, Blend(a.smallMin, a.maxLimit, Progress(s, threshold, c, k)))
  {
  }

  /** The base limit is 0 for a denied score, and between the two anchors of the loan type for any other. It
      is 0 for no other score, unless the small anchor is 0 and the curve has not left it. */
  lemma BaseLimitRange(score: int, threshold: real, t: LoanType, c: Config, k: Curves)
    requires ValidConfig(c) && ValidCurves(k) && score <= 1000
    ensures var b, a := Stage3BaseLimit(score, threshold, t, c, k), c.anchors.For(t);
            && (Denied(score, threshold) ==> b == 0.0)
            && (!Denied(score, threshold) ==> a.smallMin <= b <= a.maxLimit)
            && (b == 0.0 <==>
                  Denied(score, threshold)
                  || (a.smallMin == 0.0 && (a.maxLimit == 0.0 || Progress(score, threshold, c, k) == 0.0)))
  {
    if !Denied(score, threshold) {
      ProgressInUnit(score, threshold, t, c, k);
      var p := Progress(score, threshold, c, k);
      var a := c.anchors.For(t);
      assert ValidAnchors(a) && 0.0 <= p <= 1.0;
      AboveThreshold(score, threshold, t, c, k);
      hide Progress, Stage3BaseLimit, ValidConfig, ValidCurves, Blend;
      BlendMono(a.smallMin, a.maxLimit, p, p);
      BlendIsZeroExactlyWhen(a, p);
    }
  }

  lemma BlendIsZeroExactlyWhen(a: Anchors, p: real)
    requires ValidAnchors(a) && 0.0 <= p <= 1.0
    ensures Blend(a.smallMin, a.maxLimit, p) == 0.0 <==> a.smallMin == 0.0 && (a.maxLimit == 0.0 || p == 0.0)
  {
    if a.smallMin > 0.0 {
      BlendMono(a.smallMin, a.maxLimit, p, p);
    } else if a.maxLimit > 0.0 && p > 0.0 {
      assert a.maxLimit * p > 0.0;
    }
  }

  lemma DivSelf(x: real)
    requires x > 0.0
    ensures x / x == 1.0
  {
  }

  lemma FractionFalls(t: nat, u: nat, c: Config)
    requires ValidConfig(c) && t <= u
    ensures 0.0 <= ThinFileFraction(u, c) <= ThinFileFraction(t, c) <= 1.0
    ensures t as real >= c.thinFileSaturation ==> ThinFileFraction(t, c) == 0.0
  {
    DivMono(t as real, u as real, c.thinFileSaturation);
    if t as real >= c.thinFileSaturation {
      DivMono(c.thinFileSaturation, t as real, c.thinFileSaturation);
      DivSelf(c.thinFileSaturation);
    }
  }

  lemma QuadraticRises(b: real, x: real, y: real)
    requires 0.0 <= b && 0.0 <= x <= y
    ensures 0.0 <= Quadratic(b, x) <= Quadratic(b, y)
  {
    MulMono(b, b, x, y);
    MulMono(b * x, b * y, x, y);
  }

  lemma QuadraticEnds(b: real)
    ensures Quadratic(b, 0.0) == 0.0 && Quadratic(b, 1.0) == b
  {
  }

  lemma BonusFalls(t: nat, u: nat, c: Config)
    requires ValidConfig(c) && c.thinFileMaxBonus >= 0.0 && t <= u
    ensures 0.0 <= ThinFileBonus(u, c) <= ThinFileBonus(t, c) <= c.thinFileMaxBonus
    ensures t as real >= c.thinFileSaturation ==> ThinFileBonus(t, c) == 0.0
  {
    hide ThinFileFraction, Quadratic;
    FractionFalls(t, u, c);
    QuadraticRises(c.thinFileMaxBonus, ThinFileFraction(u, c), ThinFileFraction(t, c));
    QuadraticRises(c.thinFileMaxBonus, ThinFileFraction(t, c), 1.0);
    QuadraticEnds(c.thinFileMaxBonus);
  }

  /** The adaptive threshold never falls as loans accumulate: it starts at base - bonus and reaches
      the base threshold once the thin file is saturated. */
  lemma ThresholdRisesToBase(t: nat, u: nat, c: Config)
    requires ValidConfig(c) && c.thinFileMaxBonus >= 0.0 && t <= u
    ensures c.baseThreshold - c.thinFileMaxBonus <= EffectiveThreshold(t, c)
    ensures EffectiveThreshold(t, c) <= EffectiveThreshold(u, c) <= c.baseThreshold
    ensures t == 0 ==> EffectiveThreshold(t, c) == c.baseThreshold - c.thinFileMaxBonus
    ensures t as real >= c.thinFileSaturation ==> EffectiveThreshold(t, c) == c.baseThreshold
  {
    hide ThinFileBonus;
    BonusFalls(t, u, c);
    BonusAtZero(c);
  }

  lemma BonusAtZero(c: Config)
    requires ValidConfig(c)
    ensures ThinFileBonus(0, c) == c.thinFileMaxBonus
  {
    assert ThinFileFraction(0, c) == 1.0;
    QuadraticEnds(c.thinFileMaxBonus);
  }

  // ---------------------------------------------------------------- Stage 4 and the whole pipeline

  lemma TaperShrinks(limit: real, e: real, c: Config)
    requires ValidConfig(c)
    ensures 0.0 <= limit ==> 0.0 <= Tapered(limit, e, c) <= limit
    ensures limit <= 0.0 ==> Tapered(limit, e, c) <= 0.0
  {
    if c.exposureTaperStartPct <= e < c.exposureHaltPct {
      var x := (e - c.exposureTaperStartPct) / (c.exposureHaltPct - c.exposureTaperStartPct);
      QuotientInUnit(e - c.exposureTaperStartPct, c.exposureHaltPct - c.exposureTaperStartPct);
      if 0.0 <= limit {
        MulMono(limit, limit, 1.0 - x, 1.0);
      } else {
        MulMono(-limit, -limit, 1.0 - x, 1.0);
        assert limit * (1.0 - x) == -((-limit) * (1.0 - x));
      }
    }
  }

  lemma WholeNairaOfKobo(kobo: int)
    ensures 0 <= kobo - 100 * WholeNaira(kobo) <= 99
  {
    var n := WholeNaira(kobo);
    assert n as real <= kobo as real / 100.0 < n as real + 1.0;
    assert (100 * n) as real <= kobo as real < (100 * n + 100) as real;
  }

  /** A served limit is never negative; a positive one fits the bonused base limit, the partner's
      residual and the subscriber's remaining daily allowance, and exposure below the halt. */
  lemma FinalLimitFits(f: FeatureRow, r: Request, e: real, c: Config, k: Curves)
    requires ValidConfig(c)
    ensures var s := ScoreV3(f, r, e, c, k);
            && 0 <= s.finalLimitNaira
            && (s.gateFailed.Some? ==> s.finalLimitNaira == 0)
            && (s.finalLimitNaira > 0 ==>
                  && s.finalLimitNaira as real <= BonusedBaseLimit(f, r, c, k)
                  && s.finalLimitNaira as real <= PartnerResidual(r, c)
                  && s.finalLimitNaira as real <= DailyRemaining(f, r, c)
                  && e < c.exposureHaltPct)
  {
    var limit := Min(Min(BonusedBaseLimit(f, r, c, k), PartnerResidual(r, c)), DailyRemaining(f, r, c));
    TaperShrinks(limit, e, c);
  }

  /** A positive limit goes only to subscribers whom no gate stops. */
  lemma PositiveLimitPassesEveryGate(f: FeatureRow, r: Request, e: real, c: Config, k: Curves)
    requires ValidConfig(c) && ScoreV3(f, r, e, c, k).finalLimitNaira > 0
    ensures !f.blacklisted && !f.uncuredDefaultExists && f.ourOutstandingKobo <= 0
    ensures r.daKobo as real < 100.0 * c.partnerCapNaira && f.eligibilityChecks1h as real < c.velocityExtreme
    ensures c.loanTypeEnabled.For(r.loanType)
  {
    FinalLimitFits(f, r, e, c, k);
  }

  /** Existing balance plus a served limit exceeds the partner cap by at most 99 kobo. */
  lemma PartnerCapWithinOneNaira(f: FeatureRow, r: Request, e: real, c: Config, k: Curves)
    requires ValidConfig(c)
    ensures var limit := ScoreV3(f, r, e, c, k).finalLimitNaira;
            limit > 0 ==> (r.daKobo + 100 * limit) as real <= 100.0 * c.partnerCapNaira + 99.0
  {
    FinalLimitFits(f, r, e, c, k);
    WholeNairaOfKobo(r.daKobo);
  }

  /** The share of a limit that the exposure taper leaves. */
  function TaperShare(e: real, c: Config): real
    requires ValidConfig(c)
  {
    if e >= c.exposureHaltPct then 0.0
    else if e >= c.exposureTaperStartPct then
      1.0 - (e - c.exposureTaperStartPct) / (c.exposureHaltPct - c.exposureTaperStartPct)
    else 1.0
  }

  lemma TaperIsShare(x: real, y: real, z: real, e: real, c: Config, n: int)
    requires ValidConfig(c) && n >= 1
    ensures n as real <= Tapered(Min(Min(x, y), z), e, c)
            <==>
            && e < c.exposureHaltPct
            && n as real <= TaperShare(e, c) * x && n as real <= TaperShare(e, c) * y && n as real <= TaperShare(e, c) * z
  {
    if e < c.exposureHaltPct {
      TaperedByShare(Min(Min(x, y), z), e, c);
      hide TaperShare, Tapered, ValidConfig;
      ScaledMin(x, y, TaperShare(e, c));
      ScaledMin(Min(x, y), z, TaperShare(e, c));
    }
  }

  lemma TaperedByShare(x: real, e: real, c: Config)
    requires ValidConfig(c) && e < c.exposureHaltPct
    ensures Tapered(x, e, c) == TaperShare(e, c) * x && 0.0 <= TaperShare(e, c)
  {
    if e >= c.exposureTaperStartPct {
      QuotientInUnit(e - c.exposureTaperStartPct, c.exposureHaltPct - c.exposureTaperStartPct);
    }
  }

  lemma ScaledMin(x: real, y: real, share: real)
    requires share >= 0.0
    ensures share * Min(x, y) == Min(share * x, share * y)
  {
    if x <= y {
      assert share * (y - x) >= 0.0;
    } else {
      assert share * (x - y) >= 0.0;
    }
  }

  /** The stage-4 limit before flooring. */
  function TaperedLimit(f: FeatureRow, r: Request, e: real, c: Config, k: Curves): real
    requires ValidConfig(c)
  {
    Tapered(Min(Min(BonusedBaseLimit(f, r, c, k), PartnerResidual(r, c)), DailyRemaining(f, r, c)), e, c)
  }

  /** "Don't push the user past the cross-partner cap" fails in exactly one family, whatever the cap. The
      balance has more loose kobo, which the floor dropped, than the residual has beyond its whole naira,
      and exposure is under the halt, with a taper that leaves those whole naira of the residual itself, of
      the bonused base limit and of the daily remainder. */
  lemma PartnerCapExceededExactlyWhen(f: FeatureRow, r: Request, e: real, c: Config, k: Curves)
    requires ValidConfig(c)
    ensures var limit := ScoreV3(f, r, e, c, k).finalLimitNaira;
            var residual := PartnerResidual(r, c);
            limit > 0 && (r.daKobo + 100 * limit) as real > 100.0 * c.partnerCapNaira
            <==>
            && Stage1Gates(f, r, c).None?
            && residual.Floor >= 1
            && (r.daKobo % 100) as real > 100.0 * (residual - residual.Floor as real)
            && e < c.exposureHaltPct
            && residual.Floor as real <= TaperShare(e, c) * residual
            && residual.Floor as real <= TaperShare(e, c) * BonusedBaseLimit(f, r, c, k)
            && residual.Floor as real <= TaperShare(e, c) * DailyRemaining(f, r, c)
  {
    hide *;
    PartnerCapByLimit(f, r, e, c, k);
    if PartnerResidual(r, c).Floor >= 1 {
      TaperedLimitIsShare(f, r, e, c, k, PartnerResidual(r, c).Floor);
    }
  }

  lemma TaperedLimitIsShare(f: FeatureRow, r: Request, e: real, c: Config, k: Curves, n: int)
    requires ValidConfig(c) && n >= 1
    ensures n as real <= TaperedLimit(f, r, e, c, k)
            <==>
            && e < c.exposureHaltPct
            && n as real <= TaperShare(e, c) * PartnerResidual(r, c)
            && n as real <= TaperShare(e, c) * BonusedBaseLimit(f, r, c, k)
            && n as real <= TaperShare(e, c) * DailyRemaining(f, r, c)
  {
    hide Tapered, TaperShare, BonusedBaseLimit, PartnerResidual, DailyRemaining;
    TaperIsShare(BonusedBaseLimit(f, r, c, k), PartnerResidual(r, c), DailyRemaining(f, r, c), e, c, n);
  }

  lemma PartnerCapByLimit(f: FeatureRow, r: Request, e: real, c: Config, k: Curves)
    requires ValidConfig(c)
    ensures var limit := ScoreV3(f, r, e, c, k).finalLimitNaira;
            var residual := PartnerResidual(r, c);
            limit > 0 && (r.daKobo + 100 * limit) as real > 100.0 * c.partnerCapNaira
            <==>
            && Stage1Gates(f, r, c).None?
            && residual.Floor >= 1
            && (r.daKobo % 100) as real > 100.0 * (residual - residual.Floor as real)
            && residual.Floor as real <= TaperedLimit(f, r, e, c, k)
  {
    var residual := PartnerResidual(r, c);
    var naira := WholeNaira(r.daKobo);
    WholeNairaOfKobo(r.daKobo);
    Remainder(r.daKobo, naira);
    if Stage1Gates(f, r, c).None? {
      var limit := ScoreV3(f, r, e, c, k).finalLimitNaira;
      LimitIsFlooredTaper(f, r, e, c, k);
      hide TaperedLimit, ScoreV3, Stage1Gates, ValidConfig, WholeNaira;
      FloorOfLimit(TaperedLimit(f, r, e, c, k), residual, limit);
      ExcessFromLooseKobo(r.daKobo % 100, residual, limit);
      assert 100.0 * c.partnerCapNaira == 100.0 * residual + (100 * naira) as real;
    }
  }

  lemma LimitIsFlooredTaper(f: FeatureRow, r: Request, e: real, c: Config, k: Curves)
    requires ValidConfig(c) && Stage1Gates(f, r, c).None?
    ensures ScoreV3(f, r, e, c, k).finalLimitNaira == Max(0.0, TaperedLimit(f, r, e, c, k)).Floor
    ensures TaperedLimit(f, r, e, c, k) <= Max(0.0, PartnerResidual(r, c))
  {
    hide Tapered, Stage1Gates, Stage2Score, Stage3BaseLimit, EffectiveThreshold, ContinuityBonus;
    var limit := Min(Min(BonusedBaseLimit(f, r, c, k), PartnerResidual(r, c)), DailyRemaining(f, r, c));
    TaperShrinks(limit, e, c);
    hide PartnerResidual, DailyRemaining;
  }

  lemma FloorOfLimit(x: real, residual: real, limit: int)
    requires limit == Max(0.0, x).Floor && x <= Max(0.0, residual)
    ensures limit > 0 ==> limit as real <= residual
    ensures residual.Floor >= 1 ==> (limit == residual.Floor <==> residual.Floor as real <= x)
    ensures residual.Floor < 1 ==> limit == 0
  {
  }

  lemma ExcessFromLooseKobo(loose: int, residual: real, limit: int)
    requires 0 <= loose <= 99 && (limit > 0 ==> limit as real <= residual)
    ensures limit > 0 && loose as real + (100 * limit) as real > 100.0 * residual
            <==> limit > 0 && limit == residual.Floor && loose as real > 100.0 * (residual - residual.Floor as real)
  {
    if limit > 0 && limit < residual.Floor {
      assert 100 * limit <= 100 * (residual.Floor - 1);
    }
  }

  /** Under a cap of whole naira any loose kobo suffices, and the offer must be the whole residual: base
      limit, daily remainder and taper all leave it alone. */
  lemma WholeCapExceededExactlyWhen(f: FeatureRow, r: Request, e: real, c: Config, k: Curves, cap: int)
    requires ValidConfig(c) && c.partnerCapNaira == cap as real
    ensures var limit := ScoreV3(f, r, e, c, k).finalLimitNaira;
            limit > 0 && r.daKobo + 100 * limit > 100 * cap
            <==>
            && Stage1Gates(f, r, c).None? && r.daKobo % 100 != 0
            && PartnerResidual(r, c) <= BonusedBaseLimit(f, r, c, k)
            && PartnerResidual(r, c) <= DailyRemaining(f, r, c)
            && e <= c.exposureTaperStartPct
  {
    var residual := cap - WholeNaira(r.daKobo);
    assert PartnerResidual(r, c) == residual as real;
    PartnerCapByLimit(f, r, e, c, k);
    if Stage1Gates(f, r, c).None? {
      WholeNairaOfKobo(r.daKobo);
      assert residual >= 1;
      FullResidualExactlyWhen(f, r, e, c, k, residual);
    }
    hide ScoreV3, TaperedLimit, BonusedBaseLimit, DailyRemaining, PartnerResidual, Stage1Gates, ValidConfig;
  }

  /** A whole-naira residual survives to the end exactly when no other clamp bites. */
  lemma FullResidualExactlyWhen(f: FeatureRow, r: Request, e: real, c: Config, k: Curves, residual: int)
    requires ValidConfig(c) && PartnerResidual(r, c) == residual as real && residual > 0
    ensures residual as real <= TaperedLimit(f, r, e, c, k)
            <==>
            && residual as real <= BonusedBaseLimit(f, r, c, k) && residual as real <= DailyRemaining(f, r, c)
            && e <= c.exposureTaperStartPct
  {
    hide Tapered, BonusedBaseLimit, DailyRemaining, PartnerResidual;
    var limit := Min(Min(BonusedBaseLimit(f, r, c, k), residual as real), DailyRemaining(f, r, c));
    TaperShrinks(limit, e, c);
    if limit > 0.0 {
      TaperKeepsExactlyWhen(limit, e, c);
    }
  }

  lemma TaperKeepsExactlyWhen(limit: real, e: real, c: Config)
    requires ValidConfig(c) && limit > 0.0
    ensures Tapered(limit, e, c) == limit <==> e <= c.exposureTaperStartPct
  {
    if c.exposureTaperStartPct <= e < c.exposureHaltPct {
      var x := (e - c.exposureTaperStartPct) / (c.exposureHaltPct - c.exposureTaperStartPct);
      assert x == 0.0 <==> e == c.exposureTaperStartPct;
      assert limit * (1.0 - x) == limit <==> x == 0.0 by {
        assert limit * (1.0 - x) == limit - limit * x;
      }
    }
  }

  lemma Remainder(kobo: int, naira: int)
    requires 0 <= kobo - 100 * naira <= 99
    ensures kobo % 100 == kobo - 100 * naira
  {
  }

  /** A balance of 4999.01 naira under the shipped cap of 5000 leaves a one-naira residual; serving
      it takes the balance to 5000.01. */
  lemma PartnerCapExceededExample(f: FeatureRow, k: Curves)
    requires ValidCurves(k)
    requires Stage1Gates(f, Request(499901, AIRTIME), DEFAULT_CONFIG) == None
    requires f.loansTaken180d == 0 && ColdStartUsed(f, DEFAULT_CONFIG, k)
    requires f.historicalCuredDefaults180d == 0 && f.historicalCuredDefaultsLifetime == 0
    requires f.ourDisbursed24hNaira == 0.0
    ensures var limit := ScoreV3(f, Request(499901, AIRTIME), 0.0, DEFAULT_CONFIG, k).finalLimitNaira;
            limit == 1 && 499901 + 100 * limit > 500000
  {
    ColdStartClearsThreshold(f, Request(499901, AIRTIME), 0.0, k);
    WholeNairaOfKobo(499901);
    assert WholeNaira(499901) == 4999;
  }

  lemma ColdStartScore(f: FeatureRow, r: Request, k: Curves)
    requires ValidCurves(k)
    requires Stage1Gates(f, r, DEFAULT_CONFIG) == None && ColdStartUsed(f, DEFAULT_CONFIG, k)
    requires f.historicalCuredDefaults180d == 0 && f.historicalCuredDefaultsLifetime == 0
    ensures 120 <= Stage2Score(f, DEFAULT_CONFIG, k) <= 1000
  {
    var c := DEFAULT_CONFIG;
    assert f.eligibilityChecks1h < 10;
    assert Penalty(f, c) <= 30.0;
    assert BaseScore(f, c, k) >= 150.0;
    RoundMono(120.0, BaseScore(f, c, k) - Penalty(f, c));
  }

  /** Under the shipped defaults a cold-start subscriber who passes the gates and has no cured default
      always gets at least the small anchor of the loan type as base limit. */
  lemma ColdStartClearsThreshold(f: FeatureRow, r: Request, e: real, k: Curves)
    requires ValidCurves(k)
    requires Stage1Gates(f, r, DEFAULT_CONFIG) == None && ColdStartUsed(f, DEFAULT_CONFIG, k)
    requires f.historicalCuredDefaults180d == 0 && f.historicalCuredDefaultsLifetime == 0
    ensures Stage2Score(f, DEFAULT_CONFIG, k) >= 120
    ensures ScoreV3(f, r, e, DEFAULT_CONFIG, k).baseLimitNaira as real
            >= DEFAULT_CONFIG.anchors.For(r.loanType).smallMin
  {
    var c := DEFAULT_CONFIG;
    ColdStartScore(f, r, k);
    ColdStartBaseLimit(Stage2Score(f, c, k), r.loanType, k);
    assert EffectiveThreshold(0, c) == 80.0;
    hide Stage1Gates, ColdStartUsed, Stage2Score, EffectiveThreshold, Stage3BaseLimit;
    hide ContinuityBonus, Stage4Clamps, PartnerResidual, DailyRemaining;
  }

  lemma ColdStartBaseLimit(score: int, t: LoanType, k: Curves)
    requires ValidCurves(k) && 80 <= score <= 1000
    ensures Stage3BaseLimit(score, 80.0, t, DEFAULT_CONFIG, k).Floor as real >= DEFAULT_CONFIG.anchors.For(t).smallMin
  {
    BaseLimitRange(score, 80.0, t, DEFAULT_CONFIG, k);
    hide Stage3BaseLimit;
    assert DEFAULT_CONFIG.anchors.For(t).smallMin == (if t.DATA? then 100 else 50) as real;
  }
}
