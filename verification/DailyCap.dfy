/** The daily user cap over whole runs of offers and fulfilments for one subscriber, through the sorted
    set that the offers read. */
module DailyCap {
  import opened Wrappers
  import opened FiniteSums
  import opened HeuristicV3
  import opened ScoringBounds
  import L = LiveCounters

  /** Parameters that stay fixed over a run. */
  datatype World = World(config: Config, curves: Curves, price: L.Prices, numberOf: L.NumberOf)

  /** The subscriber's sorted set, the full disbursement history behind it, the limit last offered and
      not yet used, and the clock. */
  datatype State = State(key: L.SortedSet, history: seq<L.Disbursement>, offered: int, clock: int)

  datatype Step =
    | Offer(at: int, row: FeatureRow, request: Request, exposurePct: real)
    | Fulfil(now: int, loanId: string, issuedAt: int)

  function Begin(start: int): State {
    State(L.NO_KEY, [], 0, start)
  }

  function Naira(loanId: string, w: World): real {
    L.LoanNaira(w.price, w.numberOf)(loanId)
  }

  /** What was really disbursed in the 24 hours up to now. */
  ghost function Disbursed(s: State, now: int, w: World): real {
    L.RollingTotal(s.history, now, w.price, w.numberOf)
  }

  /** What sumDisbursed24hNaira reads. */
  ghost function KeyTotal(s: State, now: int, w: World): real {
    Sum(L.WindowMembers(s.key, now), L.MemberNaira(w.numberOf))
  }

  /** An offer prunes the set and scores the row with its sum; a fulfilment records the loan and uses the
      offer up. */
  ghost function Next(s: State, step: Step, w: World): State
    requires ValidConfig(w.config)
  {
    match step
    case Offer(at, row, request, e) =>
      var pruned := s.(key := L.Pruned(s.key, at - L.DAY_MS, at));
      var f := row.(ourDisbursed24hNaira := KeyTotal(pruned, at, w));
      State(pruned.key, s.history, ScoreV3(f, request, e, w.config, w.curves).finalLimitNaira, at)
    case Fulfil(now, id, issuedAt) =>
      State(L.Recorded(s.key, L.Member(w.price(id), id), issuedAt, now),
            s.history + [L.Disbursement(id, issuedAt)], 0, now)
  }

  /** The clock does not go back; a fulfilment is of a new loan, worth at most the limit on offer, and
      issued less than six hours ahead of the clock. */
  ghost predicate Allowed(s: State, step: Step, w: World) {
    match step
    case Offer(at, row, request, e) => s.clock <= at
    case Fulfil(now, id, issuedAt) => NewLoan(s, step, w) && issuedAt < now + L.SLACK_MS
  }

  ghost predicate NewLoan(s: State, step: Step, w: World)
    requires step.Fulfil?
  {
    && s.clock <= step.now && step.loanId !in L.LastAt(s.history) && L.ProperAmount(w.price(step.loanId))
    && 0.0 <= Naira(step.loanId, w) <= s.offered as real
  }

  ghost function Run(s: State, steps: seq<Step>, w: World): State
    requires ValidConfig(w.config)
    decreases |steps|
  {
    if steps == [] then s else Run(Next(s, steps[0], w), steps[1..], w)
  }

  ghost predicate AllowedRun(s: State, steps: seq<Step>, w: World)
    requires ValidConfig(w.config)
    decreases |steps|
  {
    steps != [] ==> Allowed(s, steps[0], w) && AllowedRun(Next(s, steps[0], w), steps[1..], w)
  }

  /** cap bounds the daily cap of every loan type that is offered. */
  predicate CapBounds(cap: real, steps: seq<Step>, c: Config) {
    0.0 <= cap && forall i | 0 <= i < |steps| && steps[i].Offer? ::
                    c.dailyUserCapNaira.For(steps[i].request.loanType) <= cap
  }

  // ---------------------------------------------------------------- The rolling total

  ghost predicate NoNegativeLoans(s: State, w: World) {
    forall id | id in L.LastAt(s.history) :: Naira(id, w) >= 0.0
  }

  /** As time passes loans only leave the window. */
  lemma WindowSlides(s: State, t: int, u: int, w: World)
    requires NoNegativeLoans(s, w) && t <= u
    ensures 0.0 <= Disbursed(s, u, w) <= Disbursed(s, t, w)
  {
    SumOfPart(L.WindowLoans(s.history, u), L.WindowLoans(s.history, t), L.LoanNaira(w.price, w.numberOf));
  }

  lemma NewLoanAddsItsAmount(s: State, id: string, at: int, t: int, w: World)
    requires id !in L.LastAt(s.history) && Naira(id, w) >= 0.0
    ensures L.RollingTotal(s.history + [L.Disbursement(id, at)], t, w.price, w.numberOf)
            <= Disbursed(s, t, w) + Naira(id, w)
  {
    L.LastAtAppend(s.history, L.Disbursement(id, at));
    var before := L.WindowLoans(s.history, t);
    var after := L.WindowLoans(s.history + [L.Disbursement(id, at)], t);
    if id in after {
      assert after == before + {id};
      SumAdd(before, L.LoanNaira(w.price, w.numberOf), id);
    } else {
      assert after == before;
    }
  }

  // ---------------------------------------------------------------- The invariant

  ghost predicate Faithful(s: State, w: World) {
    L.KeyAgrees(s.key, s.history, s.clock, w.price)
  }

  /** From now on the total, with the open offer on top, stays within the cap. */
  ghost predicate WithinCap(s: State, cap: real, w: World) {
    && NoNegativeLoans(s, w)
    && 0 <= s.offered
    && forall t | s.clock <= t :: Disbursed(s, t, w) + s.offered as real <= cap
  }

  lemma StepKeepsFaithful(s: State, step: Step, w: World)
    requires ValidConfig(w.config) && Faithful(s, w) && Allowed(s, step, w)
    ensures Faithful(Next(s, step, w), w)
  {
    hide L.KeyAgrees, L.Pruned, L.Recorded, L.Member, L.WindowMembers, ScoreV3, ValidConfig;
    match step {
      case Offer(at, row, request, e) => L.PruneKeepsAgreement(s.key, s.history, s.clock, at, w.price);
      case Fulfil(now, id, issuedAt) =>
        L.RecordKeepsAgreement(s.key, s.history, s.clock, now, id, issuedAt, w.price);
    }
  }

  /** An offer reads the rolling total although it sums the pruned set. */
  lemma OfferReadsDisbursed(s: State, at: int, w: World)
    requires Faithful(s, w) && s.clock <= at
    ensures KeyTotal(s.(key := L.Pruned(s.key, at - L.DAY_MS, at)), at, w) == Disbursed(s, at, w)
  {
    hide L.KeyAgrees, L.Pruned, L.WindowMembers, L.RollingTotal;
    L.PruneKeepsAgreement(s.key, s.history, s.clock, at, w.price);
    L.SortedSetTotalIsRollingTotal(L.Pruned(s.key, at - L.DAY_MS, at), s.history, at, at, w.price, w.numberOf);
  }

  lemma OfferKeepsCap(s: State, step: Step, cap: real, w: World)
    requires ValidConfig(w.config) && step.Offer? && s.clock <= step.at
    requires Faithful(s, w) && WithinCap(s, cap, w)
    requires w.config.dailyUserCapNaira.For(step.request.loanType) <= cap
    ensures WithinCap(Next(s, step, w), cap, w)
  {
    hide *;
    OfferReadsDisbursed(s, step.at, w);
    OfferFits(s, step, w);
    OfferLeavesRoom(s, Next(s, step, w), step, cap, w);
  }

  lemma OfferFits(s: State, step: Step, w: World)
    requires ValidConfig(w.config) && step.Offer?
    requires KeyTotal(s.(key := L.Pruned(s.key, step.at - L.DAY_MS, step.at)), step.at, w) == Disbursed(s, step.at, w)
    ensures var s' := Next(s, step, w);
            && s'.history == s.history && s'.clock == step.at && 0 <= s'.offered
            && (s'.offered > 0 ==>
                  Disbursed(s, step.at, w) + s'.offered as real
                  <= w.config.dailyUserCapNaira.For(step.request.loanType))
  {
    hide KeyTotal, Disbursed, ScoreV3, L.Pruned;
    var f := step.row.(ourDisbursed24hNaira := Disbursed(s, step.at, w));
    LimitFitsDailyCap(f, step.request, step.exposurePct, w);
    hide ValidConfig;
  }

  lemma LimitFitsDailyCap(f: FeatureRow, r: Request, e: real, w: World)
    requires ValidConfig(w.config)
    ensures var limit := ScoreV3(f, r, e, w.config, w.curves).finalLimitNaira;
            && 0 <= limit
            && (limit > 0 ==> f.ourDisbursed24hNaira + limit as real <= w.config.dailyUserCapNaira.For(r.loanType))
  {
    hide ScoreV3, BonusedBaseLimit, PartnerResidual;
    FinalLimitFits(f, r, e, w.config, w.curves);
    hide ValidConfig;
  }

  lemma OfferLeavesRoom(s: State, s': State, step: Step, cap: real, w: World)
    requires step.Offer? && s.clock <= step.at && WithinCap(s, cap, w)
    requires s'.history == s.history && s'.clock == step.at && 0 <= s'.offered
    requires s'.offered > 0 ==> Disbursed(s, step.at, w) + s'.offered as real <= cap
    ensures WithinCap(s', cap, w)
  {
    forall t | s'.clock <= t
      ensures Disbursed(s', t, w) + s'.offered as real <= cap
    {
      WindowSlides(s, step.at, t, w);
      assert Disbursed(s', t, w) == Disbursed(s, t, w);
    }
  }

  lemma FulfilKeepsCap(s: State, step: Step, cap: real, w: World)
    requires ValidConfig(w.config) && step.Fulfil? && NewLoan(s, step, w) && WithinCap(s, cap, w)
    ensures WithinCap(Next(s, step, w), cap, w)
  {
    var s' := Next(s, step, w);
    L.LastAtAppend(s.history, L.Disbursement(step.loanId, step.issuedAt));
    forall t | s'.clock <= t
      ensures Disbursed(s', t, w) + s'.offered as real <= cap
    {
      NewLoanAddsItsAmount(s, step.loanId, step.issuedAt, t, w);
    }
  }

  lemma {:induction false} RunKeepsCap(s: State, steps: seq<Step>, cap: real, w: World)
    requires ValidConfig(w.config) && AllowedRun(s, steps, w)
    requires Faithful(s, w) && WithinCap(s, cap, w)
    requires CapBounds(cap, steps, w.config)
    ensures Faithful(Run(s, steps, w), w) && WithinCap(Run(s, steps, w), cap, w)
    decreases |steps|
  {
    hide Faithful, WithinCap, ValidConfig, Next;
    if steps != [] {
      StepKeepsFaithful(s, steps[0], w);
      if steps[0].Offer? {
        OfferKeepsCap(s, steps[0], cap, w);
      } else {
        FulfilKeepsCap(s, steps[0], cap, w);
      }
      RunKeepsCap(Next(s, steps[0], w), steps[1..], cap, w);
    }
  }

  /** From an empty book, after any allowed run and at every later instant before the next step, the
      rolling 24 h total is at most any bound on the daily caps of the loan types offered: the largest
      cap in general, the type's own cap when a single type is used. And it is what the set sums to. */
  lemma RollingTotalNeverPassesCap(steps: seq<Step>, start: int, t: int, cap: real, w: World)
    requires ValidConfig(w.config) && AllowedRun(Begin(start), steps, w)
    requires CapBounds(cap, steps, w.config)
    requires Run(Begin(start), steps, w).clock <= t
    ensures Disbursed(Run(Begin(start), steps, w), t, w) <= cap
    ensures KeyTotal(Run(Begin(start), steps, w), t, w) == Disbursed(Run(Begin(start), steps, w), t, w)
  {
    EmptyBook(start, cap, w);
    RunKeepsCap(Begin(start), steps, cap, w);
    var s := Run(Begin(start), steps, w);
    WindowReads(s, t, w);
    hide Faithful, KeyTotal, Disbursed, Run, ValidConfig;
  }

  lemma EmptyBook(start: int, cap: real, w: World)
    requires 0.0 <= cap
    ensures Faithful(Begin(start), w) && WithinCap(Begin(start), cap, w)
  {
    forall u: int
      ensures Disbursed(Begin(start), u, w) == 0.0
    {
      assert L.WindowLoans([], u) == {};
    }
  }

  lemma WindowReads(s: State, t: int, w: World)
    requires Faithful(s, w) && s.clock <= t
    ensures KeyTotal(s, t, w) == Disbursed(s, t, w)
  {
    L.SortedSetTotalIsRollingTotal(s.key, s.history, s.clock, t, w.price, w.numberOf);
    hide L.KeyAgrees, L.WindowMembers, L.RollingTotal;
  }

  // ---------------------------------------------------------------- What the hypotheses are for

  /** The one-offer-one-fulfilment rule is needed. Two new loans within one open offer, each of which alone
      it would cover, pass a cap exactly when what is disbursed and both of them do. */
  lemma TwoFulfilmentsOfOneOffer(s: State, first: Step, second: Step, t: int, cap: real, w: World)
    requires ValidConfig(w.config) && first.Fulfil? && second.Fulfil?
    requires NewLoan(s, first, w) && NewLoan(s, second, w) && first.loanId != second.loanId
    requires first.issuedAt >= t - L.DAY_MS && second.issuedAt >= t - L.DAY_MS
    ensures Disbursed(Next(Next(s, first, w), second, w), t, w) > cap
            <==> Disbursed(s, t, w) + Naira(first.loanId, w) + Naira(second.loanId, w) > cap
  {
    var s1 := Next(s, first, w);
    L.LastAtAppend(s.history, L.Disbursement(first.loanId, first.issuedAt));
    FreshLoanAdds(s, first.loanId, first.issuedAt, t, w);
    FreshLoanAdds(s1, second.loanId, second.issuedAt, t, w);
    hide ValidConfig, L.RollingTotal, L.Recorded;
  }

  lemma FreshLoanAdds(s: State, id: string, at: int, t: int, w: World)
    requires id !in L.LastAt(s.history) && at >= t - L.DAY_MS
    ensures L.RollingTotal(s.history + [L.Disbursement(id, at)], t, w.price, w.numberOf)
            == Disbursed(s, t, w) + Naira(id, w)
  {
    L.LastAtAppend(s.history, L.Disbursement(id, at));
    var before, after := L.WindowLoans(s.history, t), L.WindowLoans(s.history + [L.Disbursement(id, at)], t);
    assert after == before + {id};
    SumAdd(before, L.LoanNaira(w.price, w.numberOf), id);
  }

  /** Nor may a loan be dated six hours ahead. The webhook puts no bound on its issue date; such a loan
      outlives its key, so from 30 h after the fulfilment an offer scores a row that shows nothing
      disbursed, while the loan still counts. */
  lemma FutureDatedLoanIsForgotten(s: State, step: Step, offer: Step, w: World)
    requires ValidConfig(w.config) && step.Fulfil? && NewLoan(s, step, w)
    requires NoNegativeLoans(s, w) && Naira(step.loanId, w) > 0.0
    requires step.issuedAt >= step.now + L.SLACK_MS
    requires offer.Offer? && step.now + L.KEY_TTL_MS <= offer.at <= step.issuedAt + L.DAY_MS
    ensures var s' := Next(s, step, w);
            && Disbursed(s', offer.at, w) >= Naira(step.loanId, w)
            && Next(s', offer, w).offered
               == ScoreV3(offer.row.(ourDisbursed24hNaira := 0.0), offer.request, offer.exposurePct,
                          w.config, w.curves).finalLimitNaira
  {
    StillCounts(s, step.loanId, step.issuedAt, offer.at, w);
    KeyIsGone(s.key, L.Member(w.price(step.loanId), step.loanId), step.issuedAt, step.now, offer.at);
    hide ScoreV3, ValidConfig, L.WindowMembers, L.Pruned, L.Recorded, L.RollingTotal;
  }

  lemma StillCounts(s: State, id: string, at: int, t: int, w: World)
    requires NoNegativeLoans(s, w) && Naira(id, w) > 0.0 && t <= at + L.DAY_MS
    ensures L.RollingTotal(s.history + [L.Disbursement(id, at)], t, w.price, w.numberOf) >= Naira(id, w)
  {
    var h, f := s.history + [L.Disbursement(id, at)], L.LoanNaira(w.price, w.numberOf);
    L.StillInWindow(s.history, id, at, t);
    L.LastAtAppend(s.history, L.Disbursement(id, at));
    assert forall i | i in L.WindowLoans(h, t) :: f(i) >= 0.0;
    hide L.WindowLoans, L.LastAt, L.LoanNaira;
    SumTakeOut(L.WindowLoans(h, t), f, id);
    SumOfPart({}, L.WindowLoans(h, t) - {id}, f);
  }

  lemma KeyIsGone(z: L.SortedSet, member: string, at: int, now: int, t: int)
    requires now + L.KEY_TTL_MS <= t
    ensures L.WindowMembers(L.Pruned(L.Recorded(z, member, at, now), t - L.DAY_MS, t), t) == {}
  {
  }
}
