/** Each loan type is served on its own terms: its own anchors, daily cap and switch, and on nothing of the
    other two. */
module LoanTypeTerms {
  import opened Wrappers
  import opened HeuristicV3
  import opened ScoringBounds

  lemma AirtimeTerms(f: FeatureRow, r: Request, e: real, c: Config, k: Curves)
    requires ValidConfig(c) && r.loanType == AIRTIME
    ensures var limit := ScoreV3(f, r, e, c, k).finalLimitNaira;
            limit > 0 ==>
              && c.loanTypeEnabled.airtime
              && f.ourDisbursed24hNaira + limit as real <= c.dailyUserCapNaira.airtime
    ensures DailyRemaining(f, r, c) == c.dailyUserCapNaira.airtime - f.ourDisbursed24hNaira
    ensures Stage1Gates(f, r, c) == Some(TYPE_DISABLED) ==> !c.loanTypeEnabled.airtime
  {
    hide ScoreV3, BonusedBaseLimit, PartnerResidual;
    FinalLimitFits(f, r, e, c, k);
    OnlyEnabledTypesServed(f, r, e, c, k);
  }

  lemma DataTerms(f: FeatureRow, r: Request, e: real, c: Config, k: Curves)
    requires ValidConfig(c) && r.loanType == DATA
    ensures var limit := ScoreV3(f, r, e, c, k).finalLimitNaira;
            limit > 0 ==>
              && c.loanTypeEnabled.data
              && f.ourDisbursed24hNaira + limit as real <= c.dailyUserCapNaira.data
    ensures DailyRemaining(f, r, c) == c.dailyUserCapNaira.data - f.ourDisbursed24hNaira
    ensures Stage1Gates(f, r, c) == Some(TYPE_DISABLED) ==> !c.loanTypeEnabled.data
  {
    hide ScoreV3, BonusedBaseLimit, PartnerResidual;
    FinalLimitFits(f, r, e, c, k);
    OnlyEnabledTypesServed(f, r, e, c, k);
  }

  lemma TalktimeTerms(f: FeatureRow, r: Request, e: real, c: Config, k: Curves)
    requires ValidConfig(c) && r.loanType == TALKTIME
    ensures var limit := ScoreV3(f, r, e, c, k).finalLimitNaira;
            limit > 0 ==>
              && c.loanTypeEnabled.talktime
              && f.ourDisbursed24hNaira + limit as real <= c.dailyUserCapNaira.talktime
    ensures DailyRemaining(f, r, c) == c.dailyUserCapNaira.talktime - f.ourDisbursed24hNaira
    ensures Stage1Gates(f, r, c) == Some(TYPE_DISABLED) ==> !c.loanTypeEnabled.talktime
  {
    hide ScoreV3, BonusedBaseLimit, PartnerResidual;
    FinalLimitFits(f, r, e, c, k);
    OnlyEnabledTypesServed(f, r, e, c, k);
  }

  lemma OnlyEnabledTypesServed(f: FeatureRow, r: Request, e: real, c: Config, k: Curves)
    requires ValidConfig(c)
    ensures ScoreV3(f, r, e, c, k).finalLimitNaira > 0 ==> c.loanTypeEnabled.For(r.loanType)
  {
    hide BonusedBaseLimit, Stage2Score, Stage3BaseLimit, Stage4Clamps;
  }

  /** An undenied base limit lies between the anchors of its own type, and meets them where the curve ends. */
  lemma EachTypeHasItsAnchors(score: int, threshold: real, c: Config, k: Curves)
    requires ValidConfig(c) && ValidCurves(k) && !Denied(score, threshold) && score <= 1000
    ensures c.anchors.airtime.smallMin <= Stage3BaseLimit(score, threshold, AIRTIME, c, k) <= c.anchors.airtime.maxLimit
    ensures c.anchors.data.smallMin <= Stage3BaseLimit(score, threshold, DATA, c, k) <= c.anchors.data.maxLimit
    ensures c.anchors.talktime.smallMin <= Stage3BaseLimit(score, threshold, TALKTIME, c, k) <= c.anchors.talktime.maxLimit
    ensures Progress(score, threshold, c, k) == 0.0 ==>
              && Stage3BaseLimit(score, threshold, AIRTIME, c, k) == c.anchors.airtime.smallMin
              && Stage3BaseLimit(score, threshold, DATA, c, k) == c.anchors.data.smallMin
              && Stage3BaseLimit(score, threshold, TALKTIME, c, k) == c.anchors.talktime.smallMin
    ensures Progress(score, threshold, c, k) == 1.0 ==>
              && Stage3BaseLimit(score, threshold, AIRTIME, c, k) == c.anchors.airtime.maxLimit
              && Stage3BaseLimit(score, threshold, DATA, c, k) == c.anchors.data.maxLimit
              && Stage3BaseLimit(score, threshold, TALKTIME, c, k) == c.anchors.talktime.maxLimit
  {
    BaseLimitRange(score, threshold, AIRTIME, c, k);
    BaseLimitRange(score, threshold, DATA, c, k);
    BaseLimitRange(score, threshold, TALKTIME, c, k);
    AboveThreshold(score, threshold, AIRTIME, c, k);
    AboveThreshold(score, threshold, DATA, c, k);
    AboveThreshold(score, threshold, TALKTIME, c, k);
    hide Stage3BaseLimit, Progress, ValidCurves;
  }

  /** The configurations agree on everything but the terms of other loan types. */
  predicate SameTermsFor(t: LoanType, c: Config, d: Config) {
    && d == c.(anchors := d.anchors, dailyUserCapNaira := d.dailyUserCapNaira, loanTypeEnabled := d.loanTypeEnabled)
    && match t
       case AIRTIME =>
         d.anchors.airtime == c.anchors.airtime && d.dailyUserCapNaira.airtime == c.dailyUserCapNaira.airtime
         && d.loanTypeEnabled.airtime == c.loanTypeEnabled.airtime
       case DATA =>
         d.anchors.data == c.anchors.data && d.dailyUserCapNaira.data == c.dailyUserCapNaira.data
         && d.loanTypeEnabled.data == c.loanTypeEnabled.data
       case TALKTIME =>
         d.anchors.talktime == c.anchors.talktime && d.dailyUserCapNaira.talktime == c.dailyUserCapNaira.talktime
         && d.loanTypeEnabled.talktime == c.loanTypeEnabled.talktime
  }

  /** Whatever is changed in the terms of the other two loan types, the whole result stays the same. */
  lemma OtherTypesDoNotMatter(f: FeatureRow, r: Request, e: real, c: Config, d: Config, k: Curves)
    requires ValidConfig(c) && ValidConfig(d) && SameTermsFor(r.loanType, c, d)
    ensures ScoreV3(f, r, e, d, k) == ScoreV3(f, r, e, c, k)
  {
    SameGates(f, r, c, d);
    SameScore(f, c, d, k, r.loanType);
    SameThresholdAndBonus(f, c, d, k, r.loanType);
    SameBaseLimit(Stage2Score(f, c, k), EffectiveThreshold(f.loansTaken180d, c), r.loanType, c, d, k);
    SameClamps(BonusedBaseLimit(f, r, c, k), f, r, e, c, d);
    hide Stage1Gates, Stage2Score, EffectiveThreshold, ContinuityBonus, Stage3BaseLimit, Stage4Clamps;
    hide PartnerResidual, DailyRemaining, ValidConfig;
  }

  lemma SameGates(f: FeatureRow, r: Request, c: Config, d: Config)
    requires SameTermsFor(r.loanType, c, d)
    ensures Stage1Gates(f, r, d) == Stage1Gates(f, r, c)
  {
  }

  lemma SameMultipliers(f: FeatureRow, c: Config, d: Config, k: Curves, t: LoanType)
    requires ValidConfig(c) && ValidConfig(d) && SameTermsFor(t, c, d)
    ensures TenureMult(f, d, k) == TenureMult(f, c, k) && EngagementMult(f, d, k) == EngagementMult(f, c, k)
    ensures Stability(f, d, k) == Stability(f, c, k)
    ensures MeetsColdStartFloors(f, d, k) == MeetsColdStartFloors(f, c, k)
  {
    hide Multiplier;
  }

  lemma SameEvidence(f: FeatureRow, c: Config, d: Config, t: LoanType)
    requires ValidConfig(c) && ValidConfig(d) && SameTermsFor(t, c, d)
    ensures EvidenceScore(f, d) == EvidenceScore(f, c) && Penalty(f, d) == Penalty(f, c)
  {
    assert PosteriorRate(f, d) == PosteriorRate(f, c) && Confidence(f.loansTaken180d, d) == Confidence(f.loansTaken180d, c);
    hide PosteriorRate, Confidence;
  }

  lemma SameScore(f: FeatureRow, c: Config, d: Config, k: Curves, t: LoanType)
    requires ValidConfig(c) && ValidConfig(d) && SameTermsFor(t, c, d)
    ensures Stage2Score(f, d, k) == Stage2Score(f, c, k)
  {
    SameMultipliers(f, c, d, k, t);
    SameEvidence(f, c, d, t);
    hide EvidenceScore, Penalty, TenureMult, EngagementMult, Stability, MeetsColdStartFloors, ValidConfig;
    assert d.coldStartBase == c.coldStartBase && ColdStartUsed(f, d, k) == ColdStartUsed(f, c, k);
    assert BaseScore(f, d, k) == BaseScore(f, c, k);
    hide BaseScore;
  }

  lemma SameThresholdAndBonus(f: FeatureRow, c: Config, d: Config, k: Curves, t: LoanType)
    requires ValidConfig(c) && ValidConfig(d) && SameTermsFor(t, c, d)
    ensures EffectiveThreshold(f.loansTaken180d, d) == EffectiveThreshold(f.loansTaken180d, c)
    ensures ContinuityBonus(f, d, k) == ContinuityBonus(f, c, k)
  {
    SameMultipliers(f, c, d, k, t);
    hide MeetsColdStartFloors, EngagementMult, ValidConfig;
    assert ThinFileFraction(f.loansTaken180d, d) == ThinFileFraction(f.loansTaken180d, c);
    hide ThinFileFraction, Quadratic;
  }

  lemma SameClamps(base: real, f: FeatureRow, r: Request, e: real, c: Config, d: Config)
    requires ValidConfig(c) && ValidConfig(d) && SameTermsFor(r.loanType, c, d)
    ensures Stage4Clamps(base, f, r, e, d) == Stage4Clamps(base, f, r, e, c)
    ensures PartnerResidual(r, d) == PartnerResidual(r, c) && DailyRemaining(f, r, d) == DailyRemaining(f, r, c)
  {
    assert PartnerResidual(r, d) == PartnerResidual(r, c) && DailyRemaining(f, r, d) == DailyRemaining(f, r, c);
    hide PartnerResidual, DailyRemaining;
    var limit := Min(Min(base, PartnerResidual(r, c)), DailyRemaining(f, r, c));
    assert Tapered(limit, e, d) == Tapered(limit, e, c);
    hide Tapered, ValidConfig;
  }

  lemma SameBaseLimit(score: int, threshold: real, t: LoanType, c: Config, d: Config, k: Curves)
    requires SameTermsFor(t, c, d)
    ensures Stage3BaseLimit(score, threshold, t, d, k) == Stage3BaseLimit(score, threshold, t, c, k)
  {
  }

  // ---------------------------------------------------------------- Gates

  /** A request passes the gates exactly when none of the six conditions holds. */
  lemma GatesPassExactlyWhen(f: FeatureRow, r: Request, c: Config)
    ensures Stage1Gates(f, r, c).None? <==>
              && !f.blacklisted && f.ourOutstandingKobo <= 0 && !f.uncuredDefaultExists
              && r.daKobo as real < 100.0 * c.partnerCapNaira && f.eligibilityChecks1h as real < c.velocityExtreme
              && (match r.loanType
                  case AIRTIME => c.loanTypeEnabled.airtime
                  case DATA => c.loanTypeEnabled.data
                  case TALKTIME => c.loanTypeEnabled.talktime)
  {
  }

  /** The gate reported is one that holds, and the first of the six in the documented order. */
  lemma FirstGateIsReported(f: FeatureRow, r: Request, c: Config)
    ensures var g := Stage1Gates(f, r, c);
            var outstanding, capped := f.ourOutstandingKobo > 0, r.daKobo as real >= c.partnerCapNaira * 100.0;
            var fast := f.eligibilityChecks1h as real >= c.velocityExtreme;
            && (g == Some(BLACKLIST) <==> f.blacklisted)
            && (g == Some(OUTSTANDING) <==> outstanding && !f.blacklisted)
            && (g == Some(DA_CAP) <==> capped && !outstanding && !f.blacklisted)
            && (g == Some(UNCURED_DEFAULT) <==> f.uncuredDefaultExists && !capped && !outstanding && !f.blacklisted)
            && (g == Some(VELOCITY) <==>
                  fast && !f.uncuredDefaultExists && !capped && !outstanding && !f.blacklisted)
            && (g == Some(TYPE_DISABLED) ==>
                  !fast && !f.uncuredDefaultExists && !capped && !outstanding && !f.blacklisted)
  {
  }

  /** What the result reports beside the final limit, with and without a gate: the headroom under the partner
      cap to within the kobo the floor dropped, the daily remainder, and a score and base limit of 0 behind a
      gate and of the second and third stage otherwise. */
  lemma ResultReportsHeadroom(f: FeatureRow, r: Request, e: real, c: Config, k: Curves)
    requires ValidConfig(c)
    ensures var s := ScoreV3(f, r, e, c, k);
            && 0.0 <= 100.0 * s.partnerResidualNaira - (100.0 * c.partnerCapNaira - r.daKobo as real) <= 99.0
            && s.dailyUserRemainingNaira + f.ourDisbursed24hNaira
               == (match r.loanType
                   case AIRTIME => c.dailyUserCapNaira.airtime
                   case DATA => c.dailyUserCapNaira.data
                   case TALKTIME => c.dailyUserCapNaira.talktime)
            && s.gateFailed == Stage1Gates(f, r, c)
            && (s.gateFailed.Some? ==> s.score == 0 && s.baseLimitNaira == 0 && s.finalLimitNaira == 0)
            && (s.gateFailed.None? ==>
                  var base := Stage3BaseLimit(Stage2Score(f, c, k), EffectiveThreshold(f.loansTaken180d, c), r.loanType, c, k);
                  && s.score == Stage2Score(f, c, k)
                  && s.baseLimitNaira as real <= base < s.baseLimitNaira as real + 1.0)
  {
    WholeNairaOfKobo(r.daKobo);
    hide Stage1Gates, Stage2Score, EffectiveThreshold, Stage3BaseLimit, Stage4Clamps, ContinuityBonus, ValidConfig;
  }
}
