/** Two-run properties of heuristic_v3: a subscriber who is no worse never gets a smaller limit. */
module ScoringDominance {
  import opened Wrappers
  import opened HeuristicV3
  import opened ScoringBounds

  /** g is no worse than f in every feature, over the same number of loans taken. */
  predicate NoWorseFeatures(f: FeatureRow, g: FeatureRow) {
    && (g.blacklisted ==> f.blacklisted)
    && (g.uncuredDefaultExists ==> f.uncuredDefaultExists)
    && f.daysOnNetwork <= g.daysOnNetwork
    && f.rechargeCount30d <= g.rechargeCount30d
    && f.loansTaken180d == g.loansTaken180d
    && f.loansRecovered180d <= g.loansRecovered180d
    && g.historicalCuredDefaults180d <= f.historicalCuredDefaults180d
    && g.historicalCuredDefaultsLifetime <= f.historicalCuredDefaultsLifetime
    && g.ourOutstandingKobo <= f.ourOutstandingKobo
    && g.ourDisbursed24hNaira <= f.ourDisbursed24hNaira
    && g.eligibilityChecks1h <= f.eligibilityChecks1h
  }

  /** The last conjunct follows from recovered <= taken; it is weaker, and all that the pipeline needs. */
  predicate NoWorse(f: FeatureRow, g: FeatureRow) {
    && NoWorseFeatures(f, g)
    && (f.loansRecovered180d == f.loansTaken180d ==> g.loansRecovered180d == g.loansTaken180d)
  }

  predicate EasierRequest(r: Request, q: Request) {
    r.loanType == q.loanType && q.daKobo <= r.daKobo
  }

  lemma GatesOpenTogether(f: FeatureRow, g: FeatureRow, r: Request, q: Request, c: Config)
    requires NoWorse(f, g) && EasierRequest(r, q)
    ensures Stage1Gates(f, r, c).None? ==> Stage1Gates(g, q, c).None?
  {
  }

  lemma MultipliersRise(f: FeatureRow, g: FeatureRow, c: Config, k: Curves)
    requires ValidConfig(c) && ValidCurves(k) && NoWorseFeatures(f, g)
    ensures 0.0 <= EngagementMult(f, c, k) <= EngagementMult(g, c, k)
    ensures 0.0 <= Stability(f, c, k) <= Stability(g, c, k)
  {
    MultiplierInUnit(c.tenureMultMin, f.daysOnNetwork, g.daysOnNetwork, c.tenureSatDays, k);
    MultiplierInUnit(c.engagementMultMin, f.rechargeCount30d, g.rechargeCount30d, c.engagementSat, k);
  }

  lemma EvidenceRises(f: FeatureRow, g: FeatureRow, c: Config)
    requires ValidConfig(c) && NoWorse(f, g)
    ensures 0.0 <= EvidenceScore(f, c) <= EvidenceScore(g, c)
  {
    EvidenceNonNegative(f, c);
    DivMono(f.loansRecovered180d as real + c.priorAlpha, g.loansRecovered180d as real + c.priorAlpha,
            f.loansTaken180d as real + c.priorAlpha + c.priorBeta);
    var conf := Confidence(f.loansTaken180d, c);
    MulMono(c.evidenceMax, c.evidenceMax, PosteriorRate(f, c), PosteriorRate(g, c));
    MulMono(c.evidenceMax * PosteriorRate(f, c), c.evidenceMax * PosteriorRate(g, c), conf, conf);
  }

  lemma NoEvidenceWithoutLoans(f: FeatureRow, c: Config)
    requires ValidConfig(c) && f.loansTaken180d == 0
    ensures EvidenceScore(f, c) == 0.0
  {
    assert Confidence(0, c) == 0.0;
  }

  /** The base rises, also across the switch from the evidence formula to the cold-start one. */
  lemma BaseRises(f: FeatureRow, g: FeatureRow, c: Config, k: Curves)
    requires ValidConfig(c) && ValidCurves(k) && NoWorse(f, g)
    ensures BaseScore(f, c, k) <= BaseScore(g, c, k)
  {
    hide EvidenceScore, Stability, EngagementMult;
    MultipliersRise(f, g, c, k);
    if ColdStartUsed(f, c, k) {
      MulMono(c.coldStartBase, c.coldStartBase, EngagementMult(f, c, k), EngagementMult(g, c, k));
    } else if ColdStartUsed(g, c, k) {
      NoEvidenceWithoutLoans(f, c);
      MulMono(0.0, c.coldStartBase, 0.0, EngagementMult(g, c, k));
    } else {
      EvidenceRises(f, g, c);
      MulMono(EvidenceScore(f, c), EvidenceScore(g, c), Stability(f, c, k), Stability(g, c, k));
    }
  }

  lemma PenaltyFalls(f: FeatureRow, g: FeatureRow, c: Config)
    requires ValidConfig(c) && NoWorse(f, g)
    ensures Penalty(g, c) <= Penalty(f, c)
  {
    hide CuredRecentPenalty, CuredLifetimePenalty, VelocityPenalty;
    PenaltyPartsRise(g.historicalCuredDefaults180d, f.historicalCuredDefaults180d, c);
    PenaltyPartsRise(g.historicalCuredDefaultsLifetime, f.historicalCuredDefaultsLifetime, c);
    PenaltyPartsRise(g.eligibilityChecks1h, f.eligibilityChecks1h, c);
  }

  lemma ScoreRises(f: FeatureRow, g: FeatureRow, c: Config, k: Curves)
    requires ValidConfig(c) && ValidCurves(k) && NoWorse(f, g)
    ensures Stage2Score(f, c, k) <= Stage2Score(g, c, k)
  {
    BaseRises(f, g, c, k);
    PenaltyFalls(f, g, c);
    RoundMono(BaseScore(f, c, k) - Penalty(f, c), BaseScore(g, c, k) - Penalty(g, c));
  }

  /** Neither branch of the curve has a cliff downwards: the base limit rises with the score. */
  lemma BaseLimitRises(s: int, t: int, threshold: real, lt: LoanType, c: Config, k: Curves)
    requires ValidConfig(c) && ValidCurves(k) && s <= t <= 1000
    ensures 0.0 <= Stage3BaseLimit(s, threshold, lt, c, k) <= Stage3BaseLimit(t, threshold, lt, c, k)
  {
    if threshold <= s as real && threshold < 1000.0 {
      ProgressRises(s, t, threshold, c, k);
      CurveRises(s, t, threshold, lt, c, k);
    } else {
      BaseLimitRange(t, threshold, lt, c, k);
      assert ValidAnchors(c.anchors.For(lt));
    }
  }

  lemma ProgressRises(s: int, t: int, threshold: real, c: Config, k: Curves)
    requires ValidConfig(c) && ValidCurves(k) && s <= t <= 1000
    requires threshold <= s as real && threshold < 1000.0
    ensures 0.0 <= Progress(s, threshold, c, k) <= Progress(t, threshold, c, k) <= 1.0
  {
    DivMono(s as real - threshold, t as real - threshold, 1000.0 - threshold);
    QuotientInUnit(t as real - threshold, 1000.0 - threshold);
  }

  lemma CurveRises(s: int, t: int, threshold: real, lt: LoanType, c: Config, k: Curves)
    requires ValidConfig(c) && s <= t && threshold <= s as real && threshold < 1000.0
    requires 0.0 <= Progress(s, threshold, c, k) <= Progress(t, threshold, c, k) <= 1.0
    ensures 0.0 <= Stage3BaseLimit(s, threshold, lt, c, k) <= Stage3BaseLimit(t, threshold, lt, c, k)
  {
    hide Stage3BaseLimit, Progress, Blend;
    var a := c.anchors.For(lt);
    assert ValidAnchors(a);
    BlendMono(a.smallMin, a.maxLimit, Progress(s, threshold, c, k), Progress(t, threshold, c, k));
    AboveThreshold(s, threshold, lt, c, k);
    AboveThreshold(t, threshold, lt, c, k);
  }

  lemma BonusNonNegative(f: FeatureRow, c: Config, k: Curves)
    requires ValidConfig(c)
    ensures 0.0 <= ContinuityBonus(f, c, k) <= c.continuityBonusMaxNaira
  {
    if EligibleForContinuity(f, c, k) {
      var x := (f.loansTaken180d as real - 1.0) / Max(0.0, c.continuityBonusLoanWindow);
      QuotientInUnit(f.loansTaken180d as real - 1.0, Max(0.0, c.continuityBonusLoanWindow));
      MulMono(c.continuityBonusMaxNaira, c.continuityBonusMaxNaira, 1.0 - x, 1.0);
    }
  }

  lemma BonusRises(f: FeatureRow, g: FeatureRow, c: Config, k: Curves)
    requires ValidConfig(c) && ValidCurves(k) && NoWorse(f, g)
    ensures ContinuityBonus(f, c, k) <= ContinuityBonus(g, c, k)
  {
    MultipliersRise(f, g, c, k);
    BonusNonNegative(g, c, k);
    if EligibleForContinuity(f, c, k) {
      assert EligibleForContinuity(g, c, k);
    }
  }

  /** Less exposure and a larger limit never taper to less, once negative limits are cut to 0. */
  lemma TaperRises(x: real, y: real, d: real, e: real, c: Config)
    requires ValidConfig(c) && x <= y && e <= d
    ensures Max(0.0, Tapered(x, d, c)) <= Max(0.0, Tapered(y, e, c))
  {
    TaperShrinks(x, d, c);
    TaperShrinks(y, e, c);
    if 0.0 < x && d < c.exposureHaltPct && c.exposureTaperStartPct <= d {
      var w := c.exposureHaltPct - c.exposureTaperStartPct;
      var td := 1.0 - (d - c.exposureTaperStartPct) / w;
      QuotientInUnit(d - c.exposureTaperStartPct, w);
      if c.exposureTaperStartPct <= e {
        var te := 1.0 - (e - c.exposureTaperStartPct) / w;
        DivMono(e - c.exposureTaperStartPct, d - c.exposureTaperStartPct, w);
        MulMono(x, y, td, te);
      } else {
        MulMono(x, y, td, 1.0);
      }
    }
  }

  lemma ClampsRise(x: real, y: real, f: FeatureRow, g: FeatureRow, r: Request, q: Request,
                   d: real, e: real, c: Config)
    requires ValidConfig(c) && NoWorse(f, g) && EasierRequest(r, q) && x <= y && e <= d
    ensures Stage4Clamps(x, f, r, d, c) <= Stage4Clamps(y, g, q, e, c)
  {
    hide Tapered;
    assert WholeNaira(q.daKobo) <= WholeNaira(r.daKobo) by {
      DivMono(q.daKobo as real, r.daKobo as real, 100.0);
    }
    TaperRises(Min(Min(x, PartnerResidual(r, c)), DailyRemaining(f, r, c)),
               Min(Min(y, PartnerResidual(q, c)), DailyRemaining(g, q, c)), d, e, c);
  }

  /** Dominance through all four stages. */
  lemma NoWorseSubscriberGetsNoLess(f: FeatureRow, g: FeatureRow, r: Request, q: Request,
                                    d: real, e: real, c: Config, k: Curves)
    requires ValidConfig(c) && ValidCurves(k)
    requires NoWorse(f, g) && EasierRequest(r, q) && e <= d
    ensures ScoreV3(f, r, d, c, k).score <= ScoreV3(g, q, e, c, k).score
    ensures ScoreV3(f, r, d, c, k).baseLimitNaira <= ScoreV3(g, q, e, c, k).baseLimitNaira
    ensures ScoreV3(f, r, d, c, k).finalLimitNaira <= ScoreV3(g, q, e, c, k).finalLimitNaira
  {
    GatesOpenTogether(f, g, r, q, c);
    ScoreRange(g, c, k);
    ScoreRises(f, g, c, k);
    hide Stage1Gates, Stage2Score, EffectiveThreshold, Stage3BaseLimit, ContinuityBonus, Stage4Clamps;
    var th := EffectiveThreshold(f.loansTaken180d, c);
    BaseLimitRises(Stage2Score(f, c, k), Stage2Score(g, c, k), th, r.loanType, c, k);
    BonusRises(f, g, c, k);
    ClampsRise(BonusedBaseLimit(f, r, c, k), BonusedBaseLimit(g, q, c, k), f, g, r, q, d, e, c);
  }

  // ---------------------------------------------------------------- What the hypotheses are for

  /** A cold-start or first-loan subscriber with d days, n recharges and nothing held against them. */
  function CleanRow(days: nat, recharges: nat, taken: nat, recovered: nat): FeatureRow {
    FeatureRow(false, days, recharges, taken, recovered, 0, 0, false, 0, 0.0, 0)
  }

  lemma BonusPositive(f: FeatureRow, c: Config, k: Curves)
    requires ValidConfig(c) && EligibleForContinuity(f, c, k) && c.continuityBonusMaxNaira > 0.0
    ensures ContinuityBonus(f, c, k) > 0.0
  {
    var x, w := f.loansTaken180d as real - 1.0, Max(0.0, c.continuityBonusLoanWindow);
    assert 0.0 <= x < w;
    assert x / w < 1.0 by {
      assert x / w * w == x;
    }
    hide ValidConfig, EligibleForContinuity;
    assert 1.0 - x / w > 0.0;
  }

  /** In a no-worse comparison the continuity bonus shrinks exactly when there was one and the better
      subscriber has recovered more loans: they then outnumber the loans taken, and the record no longer
      counts as perfect. */
  lemma BonusIsLostExactlyWhen(f: FeatureRow, g: FeatureRow, c: Config, k: Curves)
    requires ValidConfig(c) && ValidCurves(k) && NoWorseFeatures(f, g)
    ensures ContinuityBonus(g, c, k) < ContinuityBonus(f, c, k)
            <==>
            && EligibleForContinuity(f, c, k) && c.continuityBonusMaxNaira > 0.0
            && f.loansRecovered180d < g.loansRecovered180d
  {
    BonusNonNegative(f, c, k);
    BonusNonNegative(g, c, k);
    if EligibleForContinuity(f, c, k) {
      if f.loansRecovered180d == g.loansRecovered180d {
        BonusRises(f, g, c, k);
      } else if c.continuityBonusMaxNaira > 0.0 {
        BonusPositive(f, c, k);
        assert !EligibleForContinuity(g, c, k);
      }
    }
    hide ValidConfig, ValidCurves, EngagementMult;
  }

  /** An instance that costs the whole offer: recovering one loan more than was taken in the window. */
  lemma ExtraRecoveryForfeitsBonus(k: Curves)
    requires ValidCurves(k)
    requires k.tanh(25.0 / 20.0) >= 0.5
    ensures ScoreV3(CleanRow(90, 25, 1, 1), Request(0, AIRTIME), 0.0, DEFAULT_CONFIG, k).finalLimitNaira == 100
    ensures ScoreV3(CleanRow(90, 25, 1, 2), Request(0, AIRTIME), 0.0, DEFAULT_CONFIG, k).finalLimitNaira == 0
  {
    var c, f := DEFAULT_CONFIG, CleanRow(90, 25, 1, 2);
    DefaultConfigIsValid();
    FirstLoanOfferIsBonus(CleanRow(90, 25, 1, 1), k);
    ThinFirstLoanHasNoBase(f, c, k);
    assert ContinuityBonus(f, c, k) == 0.0;
    hide Stage2Score, Stage3BaseLimit, EffectiveThreshold, ContinuityBonus;
    assert BonusedBaseLimit(f, Request(0, AIRTIME), c, k) == 0.0;
  }

  /** After one loan the evidence (at most 128 of the 147 the threshold asks for) earns no base limit. */
  lemma ThinFirstLoanHasNoBase(f: FeatureRow, c: Config, k: Curves)
    requires ValidCurves(k) && c == DEFAULT_CONFIG
    requires f.loansTaken180d == 1 && f.loansRecovered180d <= 2
    ensures forall t: LoanType :: Stage3BaseLimit(Stage2Score(f, c, k), EffectiveThreshold(1, c), t, c, k) == 0.0
  {
    FirstLoanEvidence(f, c);
    ScoreUnderEvidence(f, 128, c, k);
    assert EffectiveThreshold(1, c) > 147.0;
  }

  lemma FirstLoanEvidence(f: FeatureRow, c: Config)
    requires c == DEFAULT_CONFIG && f.loansTaken180d == 1 && f.loansRecovered180d <= 2
    ensures 0.0 <= EvidenceScore(f, c) <= 128.0
  {
    DivMono(f.loansRecovered180d as real + 2.0, 4.0, 5.0);
    assert 0.0 <= PosteriorRate(f, c) <= 4.0 / 5.0;
    assert Confidence(1, c) == 1.0 / 5.0;
  }

  /** Nor can the loans taken differ. With any curve that lies on or above the diagonal (every exponent
      up to 1), taking and repaying a first loan lowers a clean subscriber's airtime limit to the bonus. */
  lemma FirstRepaidLoanLowersLimit(days: nat, recharges: nat, k: Curves)
    requires ValidCurves(k)
    requires forall x: real :: 0.0 <= x <= 1.0 ==> x <= k.pow(x, DEFAULT_CONFIG.curveExponent)
    requires MeetsColdStartFloors(CleanRow(days, recharges, 0, 0), DEFAULT_CONFIG, k)
    ensures ScoreV3(CleanRow(days, recharges, 0, 0), Request(0, AIRTIME), 0.0, DEFAULT_CONFIG, k).finalLimitNaira
            >= 160
    ensures ScoreV3(CleanRow(days, recharges, 1, 1), Request(0, AIRTIME), 0.0, DEFAULT_CONFIG, k).finalLimitNaira
            == 100
  {
    ColdStartOfferAtLeast160(CleanRow(days, recharges, 0, 0), k);
    FirstLoanOfferIsBonus(CleanRow(days, recharges, 1, 1), k);
  }

  lemma ColdStartOfferAtLeast160(f: FeatureRow, k: Curves)
    requires ValidCurves(k)
    requires forall x: real :: 0.0 <= x <= 1.0 ==> x <= k.pow(x, DEFAULT_CONFIG.curveExponent)
    requires f == CleanRow(f.daysOnNetwork, f.rechargeCount30d, 0, 0)
    requires MeetsColdStartFloors(f, DEFAULT_CONFIG, k)
    ensures ScoreV3(f, Request(0, AIRTIME), 0.0, DEFAULT_CONFIG, k).finalLimitNaira >= 160
  {
    var c := DEFAULT_CONFIG;
    CleanColdStartScore(f, k);
    assert EffectiveThreshold(0, c) == 80.0;
    CurveAboveDiagonal(Stage2Score(f, c, k), k);
    assert WholeNaira(0) == 0;
    hide Stage2Score, Stage3BaseLimit, EffectiveThreshold;
    assert BonusedBaseLimit(f, Request(0, AIRTIME), c, k) >= 160.0;
  }

  lemma CleanColdStartScore(f: FeatureRow, k: Curves)
    requires ValidCurves(k)
    requires f == CleanRow(f.daysOnNetwork, f.rechargeCount30d, 0, 0)
    requires MeetsColdStartFloors(f, DEFAULT_CONFIG, k)
    ensures 150 <= Stage2Score(f, DEFAULT_CONFIG, k) <= 1000
  {
    assert Penalty(f, DEFAULT_CONFIG) == 0.0;
    RoundMono(150.0, BaseScore(f, DEFAULT_CONFIG, k));
  }

  lemma CurveAboveDiagonal(score: int, k: Curves)
    requires ValidCurves(k) && 150 <= score <= 1000
    requires forall x: real :: 0.0 <= x <= 1.0 ==> x <= k.pow(x, DEFAULT_CONFIG.curveExponent)
    ensures Stage3BaseLimit(score, 80.0, AIRTIME, DEFAULT_CONFIG, k) >= 160.0
  {
    var x := (score as real - 80.0) / 920.0;
    DivMono(70.0, score as real - 80.0, 920.0);
    QuotientInUnit(score as real - 80.0, 920.0);
    assert k.pow(x, 0.85) >= 70.0 / 920.0;
  }

  lemma FirstLoanOfferIsBonus(f: FeatureRow, k: Curves)
    requires ValidCurves(k)
    requires f == CleanRow(f.daysOnNetwork, f.rechargeCount30d, 1, 1)
    requires MeetsColdStartFloors(f, DEFAULT_CONFIG, k)
    ensures ScoreV3(f, Request(0, AIRTIME), 0.0, DEFAULT_CONFIG, k).finalLimitNaira == 100
  {
    var c := DEFAULT_CONFIG;
    DefaultConfigIsValid();
    ThinFirstLoanHasNoBase(f, c, k);
    assert ContinuityBonus(f, c, k) == 100.0;
    assert WholeNaira(0) == 0;
    hide Stage2Score, Stage3BaseLimit, EffectiveThreshold, ContinuityBonus;
    assert BonusedBaseLimit(f, Request(0, AIRTIME), c, k) == 100.0;
  }
}
