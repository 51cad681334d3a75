/** The four scoring stages of heuristic_v3: hard gates, score, base limit, clamps.
    Amounts and multipliers are exact reals; the two transcendental curves are passed in. */
module HeuristicV3 {
  import opened Wrappers
  datatype LoanType = AIRTIME | DATA | TALKTIME

  datatype Gate = BLACKLIST | OUTSTANDING | DA_CAP | UNCURED_DEFAULT | VELOCITY | TYPE_DISABLED

  /** One value for each loan type. */
  datatype PerType<T> = PerType(airtime: T, data: T, talktime: T) {
    function For(t: LoanType): T {
      match t
      case AIRTIME => airtime
      case DATA => data
      case TALKTIME => talktime
    }
  }

  datatype Anchors = Anchors(smallMin: real, maxLimit: real)

  datatype FeatureRow = FeatureRow(
    blacklisted: bool,
    daysOnNetwork: nat,
    rechargeCount30d: nat,
    loansTaken180d: nat,
    loansRecovered180d: nat,
    historicalCuredDefaults180d: nat,
    historicalCuredDefaultsLifetime: nat,
    uncuredDefaultExists: bool,
    ourOutstandingKobo: int,
    ourDisbursed24hNaira: real,
    eligibilityChecks1h: nat)

  datatype Request = Request(daKobo: int, loanType: LoanType)

  datatype Config = Config(
    priorAlpha: real,
    priorBeta: real,
    confidencePseudoN: real,
    evidenceMax: real,
    tenureMultMin: real,
    tenureSatDays: real,
    engagementMultMin: real,
    engagementSat: real,
    coldStartBase: real,
    coldStartMinTenureDays: real,
    coldStartMinEngagement: real,
    continuityBonusMaxNaira: real,
    continuityBonusLoanWindow: real,
    penaltyCuredRecent: real,
    penaltyCuredLifetime: real,
    penaltyCuredLifetimeCap: real,
    penaltyVelocity: real,
    velocityThreshold: real,
    baseThreshold: real,
    thinFileMaxBonus: real,
    thinFileSaturation: real,
    curveExponent: real,
    anchors: PerType<Anchors>,
    partnerCapNaira: real,
    dailyUserCapNaira: PerType<real>,
    exposureTaperStartPct: real,
    exposureHaltPct: real,
    velocityExtreme: real,
    loanTypeEnabled: PerType<bool>)

  const DEFAULT_CONFIG: Config := Config(
    2.0, 2.0, 4.0, 800.0,
    0.85, 365.0, 0.7, 20.0,
    200.0, 60.0, 0.75,
    100.0, 3.0,
    100.0, 30.0, 150.0, 5.0, 3.0,
    300.0, 220.0, 6.0, 0.85,
    PerType(Anchors(50.0, 1500.0), Anchors(100.0, 3000.0), Anchors(50.0, 1000.0)),
    5000.0, PerType(1500.0, 3000.0, 1000.0),
    0.85, 0.95, 10.0,
    PerType(true, true, true))

  /** tanh, and the power curve as a function of base and exponent. */
  datatype Curves = Curves(tanh: real -> real, pow: (real, real) -> real)

  /** All the stages ask of the curves: tanh rises from inside [0,1] on the non-negative reals,
      and for a positive exponent the power rises inside [0,1] on [0,1]. */
  ghost predicate ValidCurves(k: Curves) {
    && (forall x: real, y: real :: 0.0 <= x <= y ==> 0.0 <= k.tanh(x) <= k.tanh(y) <= 1.0)
    && (forall x: real, y: real, e: real ::
          0.0 <= x <= y <= 1.0 && 0.0 < e ==> 0.0 <= k.pow(x, e) <= k.pow(y, e) <= 1.0)
  }

  predicate ValidAnchors(a: Anchors) {
    0.0 <= a.smallMin <= a.maxLimit
  }

  predicate ValidConfig(c: Config) {
    && c.priorAlpha > 0.0 && c.priorBeta > 0.0 && c.confidencePseudoN > 0.0
    && c.evidenceMax >= 0.0 && c.coldStartBase >= 0.0
    && 0.0 <= c.tenureMultMin <= 1.0 && c.tenureSatDays > 0.0
    && 0.0 <= c.engagementMultMin <= 1.0 && c.engagementSat > 0.0
    && c.continuityBonusMaxNaira >= 0.0
    && c.penaltyCuredRecent >= 0.0 && c.penaltyCuredLifetime >= 0.0
    && c.penaltyCuredLifetimeCap >= 0.0 && c.penaltyVelocity >= 0.0
    && c.thinFileSaturation > 0.0 && c.curveExponent > 0.0
    && ValidAnchors(c.anchors.airtime) && ValidAnchors(c.anchors.data) && ValidAnchors(c.anchors.talktime)
    && c.exposureTaperStartPct < c.exposureHaltPct
  }

  function Min(x: real, y: real): real {
    if x <= y then x else y
  }

  function Max(x: real, y: real): real {
    if x >= y then x else y
  }

  /** JavaScript's Math.round: halves go up. */
  function Round(x: real): int {
    (x + 0.5).Floor
  }

  /** Floor of an integer number of kobo over 100, as Math.floor does for negatives too. */
  function WholeNaira(kobo: int): int {
    (kobo as real / 100.0).Floor
  }

  // ---------------------------------------------------------------- Stage 1

  function Stage1Gates(f: FeatureRow, r: Request, c: Config): Option<Gate> {
    if f.blacklisted then Some(BLACKLIST)
    else if f.ourOutstandingKobo > 0 then Some(OUTSTANDING)
    else if r.daKobo as real >= c.partnerCapNaira * 100.0 then Some(DA_CAP)
    else if f.uncuredDefaultExists then Some(UNCURED_DEFAULT)
    else if f.eligibilityChecks1h as real >= c.velocityExtreme then Some(VELOCITY)
    else if !c.loanTypeEnabled.For(r.loanType) then Some(TYPE_DISABLED)
    else None
  }

  // ---------------------------------------------------------------- Stage 2

  function PosteriorRate(f: FeatureRow, c: Config): real
    requires ValidConfig(c)
  {
    (f.loansRecovered180d as real + c.priorAlpha) / (f.loansTaken180d as real + c.priorAlpha + c.priorBeta)
  }

  function Confidence(taken: nat, c: Config): real
    requires ValidConfig(c)
  {
    taken as real / (taken as real + c.confidencePseudoN)
  }

  function EvidenceScore(f: FeatureRow, c: Config): real
    requires ValidConfig(c)
  {
    c.evidenceMax * PosteriorRate(f, c) * Confidence(f.loansTaken180d, c)
  }

  /** The point a weight w of the way from lo to hi. */
  function Blend(lo: real, hi: real, w: real): real {
    lo + (hi - lo) * w
  }

  /** lo + (1 - lo) * tanh(n / sat): the shape of both stability multipliers. */
  function Multiplier(lo: real, n: nat, sat: real, k: Curves): real
    requires sat > 0.0
  {
    Blend(lo, 1.0, k.tanh(n as real / sat))
  }

  function TenureMult(f: FeatureRow, c: Config, k: Curves): real
    requires ValidConfig(c)
  {
    Multiplier(c.tenureMultMin, f.daysOnNetwork, c.tenureSatDays, k)
  }

  function EngagementMult(f: FeatureRow, c: Config, k: Curves): real
    requires ValidConfig(c)
  {
    Multiplier(c.engagementMultMin, f.rechargeCount30d, c.engagementSat, k)
  }

  function Stability(f: FeatureRow, c: Config, k: Curves): real
    requires ValidConfig(c)
  {
    Min(TenureMult(f, c, k), EngagementMult(f, c, k))
  }

  /** The tenure and engagement floors that both cold start and the continuity bonus ask for. */
  predicate MeetsColdStartFloors(f: FeatureRow, c: Config, k: Curves)
    requires ValidConfig(c)
  {
    && f.daysOnNetwork as real >= c.coldStartMinTenureDays
    && EngagementMult(f, c, k) >= c.coldStartMinEngagement
    && !f.uncuredDefaultExists
  }

  predicate ColdStartUsed(f: FeatureRow, c: Config, k: Curves)
    requires ValidConfig(c)
  {
    f.loansTaken180d == 0 && MeetsColdStartFloors(f, c, k)
  }

  function BaseScore(f: FeatureRow, c: Config, k: Curves): real
    requires ValidConfig(c)
  {
    if ColdStartUsed(f, c, k) then c.coldStartBase * EngagementMult(f, c, k)
    else EvidenceScore(f, c) * Stability(f, c, k)
  }

  function CuredRecentPenalty(cured: nat, c: Config): real {
    c.penaltyCuredRecent * cured as real
  }

  function CuredLifetimePenalty(cured: nat, c: Config): real {
    Min(c.penaltyCuredLifetimeCap, c.penaltyCuredLifetime * cured as real)
  }

  function VelocityPenalty(checks: nat, c: Config): real {
    c.penaltyVelocity * Max(0.0, checks as real - c.velocityThreshold)
  }

  function Penalty(f: FeatureRow, c: Config): real {
    CuredRecentPenalty(f.historicalCuredDefaults180d, c)
    + CuredLifetimePenalty(f.historicalCuredDefaultsLifetime, c)
    + VelocityPenalty(f.eligibilityChecks1h, c)
  }

  function ClampScore(x: int): int {
    if x < 0 then 0 else if x > 1000 then 1000 else x
  }

  function Stage2Score(f: FeatureRow, c: Config, k: Curves): int
    requires ValidConfig(c)
  {
    ClampScore(Round(BaseScore(f, c, k) - Penalty(f, c)))
  }

  /** How much of the thin file is still missing. */
  function ThinFileFraction(taken: nat, c: Config): real
    requires ValidConfig(c)
  {
    Max(0.0, 1.0 - taken as real / c.thinFileSaturation)
  }

  function ThinFileBonus(taken: nat, c: Config): real
    requires ValidConfig(c)
  {
    Quadratic(c.thinFileMaxBonus, ThinFileFraction(taken, c))
  }

  function Quadratic(b: real, x: real): real {
    b * x * x
  }

  function EffectiveThreshold(taken: nat, c: Config): real
    requires ValidConfig(c)
  {
    c.baseThreshold - ThinFileBonus(taken, c)
  }

  predicate EligibleForContinuity(f: FeatureRow, c: Config, k: Curves)
    requires ValidConfig(c)
  {
    && f.loansTaken180d >= 1
    && f.loansTaken180d as real <= Max(0.0, c.continuityBonusLoanWindow)
    && f.loansRecovered180d == f.loansTaken180d
    && MeetsColdStartFloors(f, c, k)
  }

  function ContinuityBonus(f: FeatureRow, c: Config, k: Curves): real
    requires ValidConfig(c)
  {
    if EligibleForContinuity(f, c, k) then
      c.continuityBonusMaxNaira
      * (1.0 - (f.loansTaken180d as real - 1.0) / Max(0.0, c.continuityBonusLoanWindow))
    else 0.0
  }

  // ---------------------------------------------------------------- Stage 3

  function Stage3BaseLimit(score: int, threshold: real, t: LoanType, c: Config, k: Curves): real {
    if score as real < threshold then 0.0
    else if 1000.0 - threshold <= 0.0 then 0.0
    else
      var progress := k.pow((score as real - threshold) / (1000.0 - threshold), c.curveExponent);
      var a := c.anchors.For(t);
      Max(0.0, Blend(a.smallMin, a.maxLimit, progress))
  }

  // ---------------------------------------------------------------- Stage 4

  function PartnerResidual(r: Request, c: Config): real {
    c.partnerCapNaira - WholeNaira(r.daKobo) as real
  }

  function DailyRemaining(f: FeatureRow, r: Request, c: Config): real {
    c.dailyUserCapNaira.For(r.loanType) - f.ourDisbursed24hNaira
  }

  function Tapered(limit: real, exposurePct: real, c: Config): real
    requires ValidConfig(c)
  {
    if exposurePct >= c.exposureHaltPct then 0.0
    else if exposurePct >= c.exposureTaperStartPct then
      limit * (1.0 - (exposurePct - c.exposureTaperStartPct) / (c.exposureHaltPct - c.exposureTaperStartPct))
    else limit
  }

  function Stage4Clamps(baseLimit: real, f: FeatureRow, r: Request, exposurePct: real, c: Config): int
    requires ValidConfig(c)
  {
    var limit := Min(Min(baseLimit, PartnerResidual(r, c)), DailyRemaining(f, r, c));
    Max(0.0, Tapered(limit, exposurePct, c)).Floor
  }

  // ---------------------------------------------------------------- Pipeline

  datatype ScoreResult = ScoreResult(
    score: int,
    baseLimitNaira: int,
    partnerResidualNaira: real,
    dailyUserRemainingNaira: real,
    finalLimitNaira: int,
    gateFailed: Option<Gate>)

  function BonusedBaseLimit(f: FeatureRow, r: Request, c: Config, k: Curves): real
    requires ValidConfig(c)
  {
    Stage3BaseLimit(Stage2Score(f, c, k), EffectiveThreshold(f.loansTaken180d, c), r.loanType, c, k)
    + ContinuityBonus(f, c, k)
  }

  function ScoreV3(f: FeatureRow, r: Request, exposurePct: real, c: Config, k: Curves): ScoreResult
    requires ValidConfig(c)
  {
    var gate := Stage1Gates(f, r, c);
    if gate.Some? then
      ScoreResult(0, 0, PartnerResidual(r, c), DailyRemaining(f, r, c), 0, gate)
    else
      var score := Stage2Score(f, c, k);
      var base := Stage3BaseLimit(score, EffectiveThreshold(f.loansTaken180d, c), r.loanType, c, k);
      ScoreResult(score, base.Floor, PartnerResidual(r, c), DailyRemaining(f, r, c),
                  Stage4Clamps(base + ContinuityBonus(f, c, k), f, r, exposurePct, c), None)
  }
}
