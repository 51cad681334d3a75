/** The thin-file dead zone under the shipped configuration: what a subscriber with one or two loans can
    be offered at best, what a cured default costs, and the scoring document's worked examples. */
module ScoringDeadZone {
  import opened Wrappers
  import opened HeuristicV3
  import opened ScoringBounds
  import opened ScoringDominance

  // ---------------------------------------------------------------- One or two loans

  lemma EvidenceAfterTwo(f: FeatureRow)
    requires f.loansTaken180d == 2 && f.loansRecovered180d <= 2
    ensures 0.0 <= EvidenceScore(f, DEFAULT_CONFIG) <= 178.0
  {
    var c := DEFAULT_CONFIG;
    DivMono(f.loansRecovered180d as real + 2.0, 4.0, 6.0);
    assert 0.0 <= PosteriorRate(f, c) <= 4.0 / 6.0;
    assert Confidence(2, c) == 1.0 / 3.0;
  }

  /** Whatever the tenure, the recharges and the curves, one or two loans earn no base limit for any
      product: the score stays under the thin-file threshold (147 and 202). */
  lemma NoBaseLimitInDeadZone(f: FeatureRow, t: LoanType, k: Curves)
    requires ValidCurves(k) && 1 <= f.loansTaken180d <= 2 && f.loansRecovered180d <= f.loansTaken180d
    ensures Stage3BaseLimit(Stage2Score(f, DEFAULT_CONFIG, k), EffectiveThreshold(f.loansTaken180d, DEFAULT_CONFIG),
                            t, DEFAULT_CONFIG, k) == 0.0
  {
    if f.loansTaken180d == 1 {
      ThinFirstLoanHasNoBase(f, DEFAULT_CONFIG, k);
    } else {
      DefaultConfigIsValid();
      EvidenceAfterTwo(f);
      ScoreUnderEvidence(f, 178, DEFAULT_CONFIG, k);
      assert ThinFileFraction(2, DEFAULT_CONFIG) == 2.0 / 3.0;
      assert EffectiveThreshold(2, DEFAULT_CONFIG) > 202.0;
    }
  }

  /** Who gets the bonus under the defaults: one to three loans, all of them repaid, 60 days on the network or
      more, an engagement of 0.75 or more, and no open default. */
  lemma ContinuityExactlyWhen(f: FeatureRow, k: Curves)
    ensures ContinuityBonus(f, DEFAULT_CONFIG, k) > 0.0
            <==>
            && f.loansTaken180d in {1, 2, 3} && f.loansRecovered180d == f.loansTaken180d
            && f.daysOnNetwork >= 60 && 0.7 + 0.3 * k.tanh(f.rechargeCount30d as real / 20.0) >= 0.75
            && !f.uncuredDefaultExists
    ensures ColdStartUsed(f, DEFAULT_CONFIG, k)
            <==>
            && f.loansTaken180d == 0 && f.daysOnNetwork >= 60
            && 0.7 + 0.3 * k.tanh(f.rechargeCount30d as real / 20.0) >= 0.75 && !f.uncuredDefaultExists
  {
    BonusTable(f, k);
    assert EngagementMult(f, DEFAULT_CONFIG, k) == 0.7 + 0.3 * k.tanh(f.rechargeCount30d as real / 20.0);
    hide EngagementMult, ContinuityBonus;
  }

  lemma BonusTable(f: FeatureRow, k: Curves)
    ensures ContinuityBonus(f, DEFAULT_CONFIG, k)
            == if !EligibleForContinuity(f, DEFAULT_CONFIG, k) then 0.0
               else if f.loansTaken180d == 1 then 100.0
               else if f.loansTaken180d == 2 then 200.0 / 3.0
               else 100.0 / 3.0
  {
  }

  /** So the offer after a first or second loan is the continuity bonus or nothing: at most 100 naira, then
      at most 66, and nothing at all unless every loan was repaid and the cold-start floors are met. */
  lemma DeadZoneOffersOnlyTheBonus(f: FeatureRow, r: Request, e: real, k: Curves)
    requires ValidCurves(k) && 1 <= f.loansTaken180d <= 2 && f.loansRecovered180d <= f.loansTaken180d
    ensures var limit := ScoreV3(f, r, e, DEFAULT_CONFIG, k).finalLimitNaira;
            && limit <= (if f.loansTaken180d == 1 then 100 else 66)
            && (limit > 0 ==> EligibleForContinuity(f, DEFAULT_CONFIG, k))
  {
    DefaultConfigIsValid();
    NoBaseLimitInDeadZone(f, r.loanType, k);
    BonusTable(f, k);
    FinalLimitFits(f, r, e, DEFAULT_CONFIG, k);
    hide Stage2Score, Stage3BaseLimit, EffectiveThreshold, ContinuityBonus, EligibleForContinuity, ScoreV3;
  }

  /** The dead zone ends at two loans, not at four as the document's table for a typical profile has it:
      three repaid loans without penalty earn a base limit exactly when stability reaches 0.998375, which
      lifts the score to the threshold of 245, and four when it reaches 551/600 (next lemma). */
  lemma ThirdLoanPassesExactlyWhen(f: FeatureRow, t: LoanType, k: Curves)
    requires ValidCurves(k) && f.loansTaken180d == 3 && f.loansRecovered180d == 3 && Penalty(f, DEFAULT_CONFIG) == 0.0
    ensures Stage3BaseLimit(Stage2Score(f, DEFAULT_CONFIG, k), EffectiveThreshold(3, DEFAULT_CONFIG),
                            t, DEFAULT_CONFIG, k) > 0.0
            <==> Stability(f, DEFAULT_CONFIG, k) >= 0.998375
  {
    var c := DEFAULT_CONFIG;
    DefaultConfigIsValid();
    ThirdLoanScore(f, k);
    assert ThinFileFraction(3, c) == 0.5;
    assert EffectiveThreshold(3, c) == 245.0;
    ScoreRange(f, c, k);
    BaseLimitRange(Stage2Score(f, c, k), 245.0, t, c, k);
    hide Stage2Score, Stage3BaseLimit, EffectiveThreshold, Stability, Penalty;
  }

  lemma ThirdLoanScore(f: FeatureRow, k: Curves)
    requires ValidCurves(k) && f.loansTaken180d == 3 && f.loansRecovered180d == 3 && Penalty(f, DEFAULT_CONFIG) == 0.0
    ensures Stage2Score(f, DEFAULT_CONFIG, k) >= 245 <==> Stability(f, DEFAULT_CONFIG, k) >= 0.998375
  {
    var c := DEFAULT_CONFIG;
    assert PosteriorRate(f, c) == 5.0 / 7.0 && Confidence(3, c) == 3.0 / 7.0;
    assert EvidenceScore(f, c) == 12000.0 / 49.0;
    hide EvidenceScore, Stability, Penalty;
    assert BaseScore(f, c, k) == 12000.0 / 49.0 * Stability(f, c, k);
    hide BaseScore;
    assert BaseScore(f, c, k) >= 244.5 <==> Stability(f, c, k) >= 0.998375;
  }

  lemma FourthLoanPassesExactlyWhen(f: FeatureRow, t: LoanType, k: Curves)
    requires ValidCurves(k) && f.loansTaken180d == 4 && f.loansRecovered180d == 4 && Penalty(f, DEFAULT_CONFIG) == 0.0
    ensures Stage3BaseLimit(Stage2Score(f, DEFAULT_CONFIG, k), EffectiveThreshold(4, DEFAULT_CONFIG),
                            t, DEFAULT_CONFIG, k) > 0.0
            <==> Stability(f, DEFAULT_CONFIG, k) >= 551.0 / 600.0
  {
    var c := DEFAULT_CONFIG;
    DefaultConfigIsValid();
    FourthLoanScore(f, k);
    assert ThinFileFraction(4, c) == 1.0 / 3.0;
    assert 275.0 < EffectiveThreshold(4, c) < 276.0;
    ScoreRange(f, c, k);
    BaseLimitRange(Stage2Score(f, c, k), EffectiveThreshold(4, c), t, c, k);
    hide Stage2Score, Stage3BaseLimit, EffectiveThreshold, Stability, Penalty;
  }

  lemma FourthLoanScore(f: FeatureRow, k: Curves)
    requires ValidCurves(k) && f.loansTaken180d == 4 && f.loansRecovered180d == 4 && Penalty(f, DEFAULT_CONFIG) == 0.0
    ensures Stage2Score(f, DEFAULT_CONFIG, k) >= 276 <==> Stability(f, DEFAULT_CONFIG, k) >= 551.0 / 600.0
  {
    var c := DEFAULT_CONFIG;
    PerfectBaseOfFour(f, k);
    hide BaseScore, Stability, Penalty;
    assert BaseScore(f, c, k) >= 275.5 <==> Stability(f, c, k) >= 551.0 / 600.0;
  }

  lemma PerfectBaseOfFour(f: FeatureRow, k: Curves)
    requires f.loansTaken180d == 4 && f.loansRecovered180d == 4
    ensures BaseScore(f, DEFAULT_CONFIG, k) == 300.0 * Stability(f, DEFAULT_CONFIG, k)
  {
    var c := DEFAULT_CONFIG;
    assert PosteriorRate(f, c) == 3.0 / 4.0 && Confidence(4, c) == 1.0 / 2.0;
    assert EvidenceScore(f, c) == 300.0;
    hide EvidenceScore, Stability;
  }

  lemma PerfectBaseOfTwelve(f: FeatureRow, k: Curves)
    requires f.loansTaken180d == 12 && f.loansRecovered180d == 12
    ensures BaseScore(f, DEFAULT_CONFIG, k) == 525.0 * Stability(f, DEFAULT_CONFIG, k)
  {
    var c := DEFAULT_CONFIG;
    assert PosteriorRate(f, c) == 7.0 / 8.0 && Confidence(12, c) == 3.0 / 4.0;
    assert EvidenceScore(f, c) == 525.0;
    hide EvidenceScore, Stability;
  }

  // ---------------------------------------------------------------- Cured defaults

  /** One more recent cured default costs 130 points up to the fifth of a lifetime and 100 from then on;
      once it leaves the 180-day window the scar that stays is 30 points each, and never above 150. */
  lemma CuredDefaultCosts(f: FeatureRow)
    ensures var n, c := f.historicalCuredDefaultsLifetime, DEFAULT_CONFIG;
            var g := f.(historicalCuredDefaults180d := f.historicalCuredDefaults180d + 1,
                        historicalCuredDefaultsLifetime := n + 1);
            && Penalty(g, c) == Penalty(f, c) + (if n < 5 then 130.0 else 100.0)
            && Penalty(f, c) - Penalty(f.(historicalCuredDefaultsLifetime := 0), c)
               == (if n < 5 then 30.0 * n as real else 150.0)
  {
  }

  /** Checks within the hour are free up to the third; each further one costs 5 points, until the tenth stops
      the request altogether. */
  lemma VelocityCosts(f: FeatureRow)
    ensures var c, n := DEFAULT_CONFIG, f.eligibilityChecks1h;
            && Penalty(f.(eligibilityChecks1h := n + 1), c) == Penalty(f, c) + (if n < 3 then 0.0 else 5.0)
            && Penalty(f.(historicalCuredDefaults180d := 0, historicalCuredDefaultsLifetime := 0), c)
               == (if n <= 3 then 0.0 else 5.0 * (n as real - 3.0))
  {
  }

  // ---------------------------------------------------------------- Worked examples

  /** 730 days, 12 recharges and a perfect record of n loans, one eligibility check in the last hour. */
  function Repayer(n: nat): FeatureRow {
    CleanRow(730, 12, n, n).(eligibilityChecks1h := 1)
  }

  /** tanh at the arguments the examples use, to three decimals. */
  ghost predicate ExampleTanh(k: Curves) {
    && 0.536 <= k.tanh(12.0 / 20.0) <= 0.538
    && 0.379 <= k.tanh(8.0 / 20.0) <= 0.381
    && 0.963 <= k.tanh(730.0 / 365.0) <= 0.965
  }

  /** Example A: four perfect repayments score 258 against a threshold of 275.6, and are denied. */
  lemma ExampleA(k: Curves)
    requires ValidCurves(k) && ExampleTanh(k)
    ensures var s := ScoreV3(Repayer(4), Request(80000, DATA), 0.4, DEFAULT_CONFIG, k);
            s.gateFailed == None && s.score == 258 && s.finalLimitNaira == 0
  {
    var f, c := Repayer(4), DEFAULT_CONFIG;
    DefaultConfigIsValid();
    RepayerOfFourScores(k);
    assert ThinFileFraction(4, c) == 1.0 / 3.0;
    assert EffectiveThreshold(4, c) > 275.0;
    assert ContinuityBonus(f, c, k) == 0.0;
    hide Stage2Score, EffectiveThreshold, ContinuityBonus;
  }

  /** Example B: a cold-start subscriber scores 163 and is offered 237 naira of airtime. */
  lemma ExampleB(k: Curves)
    requires ValidCurves(k) && ExampleTanh(k)
    requires 0.129 <= k.pow(83.0 / 920.0, 0.85) <= 0.1296
    ensures var s := ScoreV3(CleanRow(180, 8, 0, 0), Request(0, AIRTIME), 0.3, DEFAULT_CONFIG, k);
            s.gateFailed == None && s.score == 163 && s.finalLimitNaira == 237
  {
    var f, c := CleanRow(180, 8, 0, 0), DEFAULT_CONFIG;
    DefaultConfigIsValid();
    assert Stage2Score(f, c, k) == 163;
    assert EffectiveThreshold(0, c) == 80.0;
    Curve(163, 80.0, 237, AIRTIME, k);
    assert WholeNaira(0) == 0;
    hide Stage2Score, EffectiveThreshold, Stage3BaseLimit, ExampleTanh;
  }

  /** Example C: twelve perfect repayments score 452 and are offered 891 naira of data. */
  lemma ExampleC(k: Curves)
    requires ValidCurves(k) && ExampleTanh(k)
    requires 0.2728 <= k.pow(152.0 / 700.0, 0.85) <= 0.2731
    ensures var s := ScoreV3(Repayer(12), Request(80000, DATA), 0.4, DEFAULT_CONFIG, k);
            s.gateFailed == None && s.score == 452 && s.finalLimitNaira == 891
  {
    var f, c := Repayer(12), DEFAULT_CONFIG;
    DefaultConfigIsValid();
    RepayerOfTwelveScores(k);
    assert EffectiveThreshold(12, c) == 300.0;
    assert ContinuityBonus(f, c, k) == 0.0;
    ExampleCurve(k);
    IdleClamps(Stage3BaseLimit(452, 300.0, DATA, c, k), 891, f, Request(80000, DATA), 0.4);
    hide Stage2Score, EffectiveThreshold, ContinuityBonus, Stage3BaseLimit, Stage4Clamps, ExampleTanh, ValidCurves;
  }

  lemma ExampleCurve(k: Curves)
    requires 0.2728 <= k.pow(152.0 / 700.0, 0.85) <= 0.2731
    ensures 891.0 <= Stage3BaseLimit(452, 300.0, DATA, DEFAULT_CONFIG, k) < 892.0
  {
    Curve(452, 300.0, 891, DATA, k);
  }

  /** Without balance, disbursement or exposure to speak of, the clamps only floor. */
  lemma IdleClamps(base: real, naira: int, f: FeatureRow, r: Request, e: real)
    requires 0.0 <= naira as real <= base < naira as real + 1.0 <= 1000.0
    requires 0 <= r.daKobo <= 100000 && f.ourDisbursed24hNaira == 0.0 && e < 0.85
    ensures Stage4Clamps(base, f, r, e, DEFAULT_CONFIG) == naira
  {
  }

  /** The curve of the base limit at one point, in whole naira. */
  lemma Curve(score: int, threshold: real, naira: int, t: LoanType, k: Curves)
    requires threshold <= score as real && threshold < 1000.0
    requires var a := DEFAULT_CONFIG.anchors.For(t);
             naira as real <= a.smallMin + (a.maxLimit - a.smallMin)
                              * k.pow((score as real - threshold) / (1000.0 - threshold), 0.85) < naira as real + 1.0
    requires naira >= 0
    ensures naira as real <= Stage3BaseLimit(score, threshold, t, DEFAULT_CONFIG, k) < naira as real + 1.0
  {
  }

  lemma RepayerStability(n: nat, k: Curves)
    requires ValidCurves(k) && ExampleTanh(k)
    ensures 0.8608 <= Stability(Repayer(n), DEFAULT_CONFIG, k) <= 0.8614
    ensures Penalty(Repayer(n), DEFAULT_CONFIG) == 0.0
  {
    assert EngagementMult(Repayer(n), DEFAULT_CONFIG, k) == 0.7 + 0.3 * k.tanh(12.0 / 20.0);
    assert TenureMult(Repayer(n), DEFAULT_CONFIG, k) == 0.85 + 0.15 * k.tanh(730.0 / 365.0);
    hide EngagementMult, TenureMult, ValidCurves;
  }

  lemma RepayerOfFourScores(k: Curves)
    requires ValidCurves(k) && ExampleTanh(k)
    ensures Stage2Score(Repayer(4), DEFAULT_CONFIG, k) == 258
  {
    PerfectBaseOfFour(Repayer(4), k);
    RepayerStability(4, k);
    hide BaseScore, Stability, Penalty, ValidCurves, ExampleTanh;
  }

  lemma RepayerOfTwelveScores(k: Curves)
    requires ValidCurves(k) && ExampleTanh(k)
    ensures Stage2Score(Repayer(12), DEFAULT_CONFIG, k) == 452
  {
    PerfectBaseOfTwelve(Repayer(12), k);
    RepayerStability(12, k);
    hide BaseScore, Stability, Penalty, ValidCurves, ExampleTanh;
  }
}
