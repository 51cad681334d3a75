/** What every run over the loan tables keeps: the default flag, and the fixpoint of the aging job. */
module LoanLifecycle {
  import opened Wrappers
  import opened LoanBook
  import opened IndexedSums
  import V3 = HeuristicV3

  // ---------------------------------------------------------------- Runs

  datatype Step =
    | LoanDelivered(loan: Loan)
    | ItemRecovered(msisdn: string, item: Item, at: int)
    | Aged(now: int)
    | Refreshed(msisdn: string, now: int, days: nat, recharges: nat)

  function Next(b: Book, s: Step): Book {
    match s
    case LoanDelivered(p) => Deliver(b, p)
    case ItemRecovered(m, it, at) => RecoverItem(b, m, it, at)
    case Aged(now) => Age(b, now)
    case Refreshed(m, now, days, recharges) => Refresh(b, m, now, days, recharges)
  }

  function Run(b: Book, steps: seq<Step>): Book
    decreases |steps|
  {
    if steps == [] then b else Run(Next(b, steps[0]), steps[1..])
  }

  /** Steps that leave every default flag right: the exact condition for each delivery and each recovery.
      A delivery must not change, unseen, whether its loan's owner has an open default; a recovery may name
      another subscriber than its loan's, unless that loan is the only open default its owner has. */
  predicate Allowed(b: Book, s: Step) {
    match s
    case LoanDelivered(p) => DeliverySafe(b, p)
    case ItemRecovered(m, it, at) => RecoverySafe(b, m, it)
    case Aged(now) => true
    case Refreshed(m, now, days, recharges) => true
  }

  /** A first delivery arrives ISSUED, or is of a subscriber with a row and adds no first default. A later
      one leaves its owner with an open default exactly if there was one. */
  predicate DeliverySafe(b: Book, p: Loan) {
    var i := Find(b.loans, p.loanId);
    if i == -1 then
      p.status == ISSUED || (p.msisdn in b.rows && (p.status == DEFAULTED ==> HasDefault(b.loans, p.msisdn)))
    else
      p.status == DEFAULTED || OtherDefault(b.loans, i) <==> HasDefault(b.loans, b.loans[i].msisdn)
  }

  /** The recovery cures no default, or its owner's row is the one written, or shows a default still. */
  predicate RecoverySafe(b: Book, m: string, it: Item) {
    var i := Find(b.loans, it.loanId);
    i != -1 && b.loans[i].status == DEFAULTED ==> b.loans[i].msisdn == m || OtherDefault(b.loans, i)
  }

  predicate AllowedRun(b: Book, steps: seq<Step>)
    decreases |steps|
  {
    steps != [] ==> Allowed(b, steps[0]) && AllowedRun(Next(b, steps[0]), steps[1..])
  }

  // ---------------------------------------------------------------- The default flag

  /** Every subscriber with a loan has a row, and every row's flag says whether a default is open. */
  predicate FlagsHold(b: Book) {
    && (forall i | 0 <= i < |b.loans| :: b.loans[i].msisdn in b.rows)
    && (forall m | m in b.rows :: b.rows[m].uncuredDefaultExists == HasDefault(b.loans, m))
  }

  /** Loans whose default status and subscriber did not change still show the same open defaults. */
  lemma SameDefaults(loans: seq<Loan>, loans': seq<Loan>, m: string)
    requires |loans| <= |loans'|
    requires forall i | 0 <= i < |loans| ::
               loans[i].msisdn == m || loans'[i].msisdn == m ==>
                 loans'[i].msisdn == loans[i].msisdn
                 && (loans'[i].status == DEFAULTED <==> loans[i].status == DEFAULTED)
    requires forall i | |loans| <= i < |loans'| :: loans'[i].msisdn == m ==> loans'[i].status != DEFAULTED
    ensures HasDefault(loans', m) == HasDefault(loans, m)
  {
    if HasDefault(loans, m) {
      var i :| 0 <= i < |loans| && loans[i].msisdn == m && loans[i].status == DEFAULTED;
      assert loans'[i].status == DEFAULTED;
    }
    if HasDefault(loans', m) {
      var i :| 0 <= i < |loans'| && loans'[i].msisdn == m && loans'[i].status == DEFAULTED;
      assert loans[i].status == DEFAULTED;
    }
  }

  /** The webhook writes no row on a later delivery, and on a first one only when it says ISSUED. The flags
      survive any delivery exactly when there was nothing to write. */
  lemma DeliverKeepsFlagsExactlyWhen(b: Book, p: Loan)
    requires FlagsHold(b)
    ensures FlagsHold(Deliver(b, p)) <==> DeliverySafe(b, p)
  {
    var b', i := Deliver(b, p), Find(b.loans, p.loanId);
    var m := if i == -1 then p.msisdn else b.loans[i].msisdn;
    forall n | n != m
      ensures HasDefault(b'.loans, n) == HasDefault(b.loans, n)
    {
      SameDefaults(b.loans, b'.loans, n);
    }
    if i == -1 {
      NewLoanDefaults(b.loans, p);
      assert b'.loans[|b.loans|] == p;
      assert forall j | 0 <= j < |b.loans| :: b'.loans[j] == b.loans[j];
      assert m in b.rows <== HasDefault(b.loans, m);
      assert m in b'.rows ==> (b'.rows[m].uncuredDefaultExists <==> HasDefault(b.loans, m));
    } else {
      ReplacedLoanDefaults(b.loans, i, p.status, p.recoveredAt);
    }
  }

  /** What Airtel's notifications map to, always ISSUED: first deliveries and retries keep the flags, except
      a retry for the only loan in default its owner has, which is then open again. */
  lemma IssuedDeliveryKeepsFlagsExactlyWhen(b: Book, p: Loan)
    requires FlagsHold(b) && p.status == ISSUED
    ensures var i := Find(b.loans, p.loanId);
            FlagsHold(Deliver(b, p))
            <==> i == -1 || b.loans[i].status != DEFAULTED || OtherDefault(b.loans, i)
  {
    DeliverKeepsFlagsExactlyWhen(b, p);
    var i := Find(b.loans, p.loanId);
    if i != -1 {
      DefaultsOfOwner(b.loans, i);
    }
    hide FlagsHold, Deliver;
  }

  lemma DefaultsOfOwner(loans: seq<Loan>, i: nat)
    requires i < |loans|
    ensures HasDefault(loans, loans[i].msisdn) <==> loans[i].status == DEFAULTED || OtherDefault(loans, i)
  {
  }

  /** A repeated delivery of a known loan is the no-op it is documented to be exactly when it repeats the
      stored status and recovery date. */
  lemma RedeliveryIsNoOpExactlyWhen(b: Book, p: Loan)
    requires Find(b.loans, p.loanId) != -1
    ensures var l := b.loans[Find(b.loans, p.loanId)];
            Deliver(b, p) == b <==> p.status == l.status && p.recoveredAt == l.recoveredAt
  {
    var i := Find(b.loans, p.loanId);
    var l' := b.loans[i].(status := p.status, recoveredAt := p.recoveredAt);
    assert Deliver(b, p).loans[i] == l';
    if l' == b.loans[i] {
      assert b.loans[i := l'] == b.loans;
    }
  }

  /** The payload's msisdn and the loan's are never compared. The flags survive a recovery exactly when
      the owner's row is right without being written, or is the one written. */
  lemma RecoverKeepsFlagsExactlyWhen(b: Book, m: string, it: Item, at: int)
    requires FlagsHold(b)
    ensures FlagsHold(RecoverItem(b, m, it, at)) <==> RecoverySafe(b, m, it)
  {
    var b', i := RecoverItem(b, m, it, at), Find(b.loans, it.loanId);
    if i != -1 && b.loans[i].status != RECOVERED {
      var owner := b.loans[i].msisdn;
      ReplacedLoanDefaults(b.loans, i, RECOVERED, Some(at));
      forall n | n != owner || b.loans[i].status != DEFAULTED
        ensures HasDefault(b'.loans, n) == HasDefault(b.loans, n)
      {
        SameDefaults(b.loans, b'.loans, n);
      }
      assert b.loans[i].status == DEFAULTED ==> HasDefault(b.loans, owner);
      assert owner in b'.rows;
      assert m != owner ==> b'.rows[owner] == b.rows[owner];
      assert forall n | n in b'.rows && n != m :: n in b.rows && b'.rows[n] == b.rows[n];
      assert m !in b.rows ==> !HasDefault(b.loans, m);
      if RecoverySafe(b, m, it) {
        forall n | n in b'.rows
          ensures b'.rows[n].uncuredDefaultExists == HasDefault(b'.loans, n)
        {
        }
      }
    }
  }

  lemma AgeKeepsFlags(b: Book, now: int)
    requires FlagsHold(b)
    ensures FlagsHold(Age(b, now))
  {
    var b' := Age(b, now);
    forall m | m in b'.rows
      ensures b'.rows[m].uncuredDefaultExists == HasDefault(b'.loans, m)
    {
      if m !in Affected(b.loans, b.items, now) {
        forall i | 0 <= i < |b.loans| && b.loans[i].msisdn == m
          ensures b'.loans[i] == b.loans[i]
        {
          assert !Touched(b.loans[i], b.items, now);
        }
        SameDefaults(b.loans, b'.loans, m);
      }
    }
  }

  lemma {:induction false} RunKeepsFlags(b: Book, steps: seq<Step>)
    requires FlagsHold(b) && AllowedRun(b, steps)
    ensures FlagsHold(Run(b, steps))
    decreases |steps|
  {
    if steps != [] {
      match steps[0] {
        case LoanDelivered(p) => DeliverKeepsFlagsExactlyWhen(b, p);
        case ItemRecovered(m, it, at) => RecoverKeepsFlagsExactlyWhen(b, m, it, at);
        case Aged(now) => AgeKeepsFlags(b, now);
        case Refreshed(m, now, days, recharges) =>
      }
      RunKeepsFlags(Next(b, steps[0]), steps[1..]);
    }
  }

  /** FeatureRowReadModel.read: the stored row, or zeros and no default when there is none, with the
      blacklist entry and the two live counters. */
  function Read(b: Book, m: string, blacklisted: bool, disbursed24h: real, checks1h: nat): V3.FeatureRow {
    var r := RowOrDefault(b.rows, m);
    V3.FeatureRow(blacklisted, r.daysOnNetwork, r.rechargeCount30d, r.loansTaken180d, r.loansRecovered180d,
                  r.curedDefaults180d, r.curedDefaultsLifetime, r.uncuredDefaultExists,
                  r.outstandingKobo, disbursed24h, checks1h)
  }

  /** What scoring reads after a recompute are the two footprint columns it was given and the aggregates of
      the loan table, each in its place, with the blacklist entry and counters passed through; without a row
      everything stored reads as nothing. */
  lemma ReadAfterRefresh(b: Book, m: string, now: int, days: nat, recharges: nat,
                         blacklisted: bool, disbursed24h: real, checks1h: nat)
    ensures var f := Read(Refresh(b, m, now, days, recharges), m, blacklisted, disbursed24h, checks1h);
            && f.daysOnNetwork == days && f.rechargeCount30d == recharges
            && f.loansTaken180d == SumTo(|b.loans|, TakenWeight(b.loans, m, now))
            && f.loansRecovered180d == SumTo(|b.loans|, RecoveredWeight(b.loans, m, now))
            && f.historicalCuredDefaults180d == SumTo(|b.loans|, CuredRecentWeight(b.loans, m, now))
            && f.historicalCuredDefaultsLifetime == SumTo(|b.loans|, CuredWeight(b.loans, m))
            && f.ourOutstandingKobo == SumTo(|b.loans|, OutstandingWeight(b.loans, m))
            && (f.uncuredDefaultExists <==> HasDefault(b.loans, m))
            && f.blacklisted == blacklisted && f.ourDisbursed24hNaira == disbursed24h && f.eligibilityChecks1h == checks1h
    ensures m !in b.rows ==>
              Read(b, m, blacklisted, disbursed24h, checks1h)
              == V3.FeatureRow(blacklisted, 0, 0, 0, 0, 0, 0, false, 0, disbursed24h, checks1h)
  {
  }

  /** After any allowed run from an empty database, a subscriber with a DEFAULTED loan is offered 0. */
  lemma DefaulterIsOfferedNothing(steps: seq<Step>, m: string, blacklisted: bool, disbursed24h: real,
                                  checks1h: nat, r: V3.Request, e: real, c: V3.Config, k: V3.Curves)
    requires AllowedRun(Book([], [], map[]), steps) && V3.ValidConfig(c)
    requires HasDefault(Run(Book([], [], map[]), steps).loans, m)
    ensures var f := Read(Run(Book([], [], map[]), steps), m, blacklisted, disbursed24h, checks1h);
            f.uncuredDefaultExists && V3.ScoreV3(f, r, e, c, k).finalLimitNaira == 0
  {
    RunKeepsFlags(Book([], [], map[]), steps);
  }

  /** A default of the same subscriber on some loan other than loan i. */
  predicate OtherDefault(loans: seq<Loan>, i: nat)
    requires i < |loans|
  {
    exists j :: 0 <= j < |loans| && j != i && loans[j].msisdn == loans[i].msisdn && loans[j].status == DEFAULTED
  }

  lemma NewLoanDefaults(loans: seq<Loan>, p: Loan)
    ensures HasDefault(loans + [p], p.msisdn) <==> HasDefault(loans, p.msisdn) || p.status == DEFAULTED
  {
    var loans' := loans + [p];
    if HasDefault(loans, p.msisdn) {
      var j :| 0 <= j < |loans| && loans[j].msisdn == p.msisdn && loans[j].status == DEFAULTED;
      assert loans'[j] == loans[j];
    }
    assert loans'[|loans|] == p;
  }

  lemma ReplacedLoanDefaults(loans: seq<Loan>, i: nat, status: Status, at: Option<int>)
    requires i < |loans|
    ensures var loans' := loans[i := loans[i].(status := status, recoveredAt := at)];
            HasDefault(loans', loans[i].msisdn) <==> status == DEFAULTED || OtherDefault(loans, i)
  {
    var loans' := loans[i := loans[i].(status := status, recoveredAt := at)];
    if OtherDefault(loans, i) {
      var j :| 0 <= j < |loans| && j != i && loans[j].msisdn == loans[i].msisdn && loans[j].status == DEFAULTED;
      assert loans'[j] == loans[j];
    }
    assert loans'[i].status == status;
  }

  // ---------------------------------------------------------------- Aging

  /** After one run nothing overdue is open, everything covered is RECOVERED, what was RECOVERED is
      untouched, and no loan moves without cause: one becomes DEFAULTED only when it was overdue and not
      covered, RECOVERED only when covered, with a recovery date that is never overwritten. */
  lemma AgingReachesItsGoal(b: Book, now: int)
    ensures var loans := Age(b, now).loans;
            forall i | 0 <= i < |loans| ::
              && !Overdue(loans[i], now)
              && (Covered(loans[i], b.items) ==> loans[i].status == RECOVERED)
              && (b.loans[i].status == RECOVERED ==> loans[i] == b.loans[i])
              && (loans[i] != b.loans[i] ==>
                    || (loans[i].status == DEFAULTED && Overdue(b.loans[i], now) && !Covered(b.loans[i], b.items)
                        && loans[i].recoveredAt == b.loans[i].recoveredAt)
                    || (loans[i].status == RECOVERED && Covered(b.loans[i], b.items)
                        && loans[i].recoveredAt == Some(if b.loans[i].recoveredAt.Some?
                                                        then b.loans[i].recoveredAt.value else now)))
              && loans[i].loanId == b.loans[i].loanId && loans[i].msisdn == b.loans[i].msisdn
              && loans[i].repayableKobo == b.loans[i].repayableKobo && loans[i].issuedAt == b.loans[i].issuedAt
  {
  }

  /** A second run at the same instant changes nothing and reports zeros. */
  lemma AgingIsAFixpoint(b: Book, now: int)
    ensures Age(Age(b, now), now) == Age(b, now)
    ensures AgingReport(Age(b, now), now) == AgingResult(0, 0, 0)
  {
    var b' := Age(b, now);
    var loans := b'.loans;
    AgingReachesItsGoal(b, now);
    assert forall i | 0 <= i < |loans| :: !Touched(loans[i], b'.items, now);
    assert AgedLoans(loans, b'.items, now) == loans;
    assert Affected(loans, b'.items, now) == {};
    assert Reflagged(b'.rows, loans, {}) == b'.rows;
    SumZero(|loans|, OverdueWeight(loans, now));
    SumZero(|loans|, SettlesWeight(loans, b'.items));
  }

  /** The report counts transitions, so it is all zeros only when the run changed no loan at all. */
  lemma ZeroReportMeansNothingChanged(b: Book, now: int)
    ensures AgingReport(b, now) == AgingResult(0, 0, 0) <==> Age(b, now).loans == b.loans
  {
    var n := |b.loans|;
    SumZero(n, OverdueWeight(b.loans, now));
    SumZero(n, SettlesWeight(b.loans, b.items));
    if AgingReport(b, now) == AgingResult(0, 0, 0) {
      forall i | 0 <= i < n
        ensures Age(b, now).loans[i] == b.loans[i]
      {
        assert OverdueWeight(b.loans, now)(i) == 0 && SettlesWeight(b.loans, b.items)(i) == 0;
      }
    }
    if Age(b, now).loans == b.loans {
      forall i: nat | i < n
        ensures OverdueWeight(b.loans, now)(i) == 0 && SettlesWeight(b.loans, b.items)(i) == 0
      {
        assert Age(b, now).loans[i] == b.loans[i];
      }
      assert Affected(b.loans, b.items, now) == {};
    }
  }
}
