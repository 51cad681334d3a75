/** Credit-score awards for repayments: the loan ledger, the user's score and the score history. */
module Repayment {
  import opened Wrappers
  import E = EligibleAmount

  // ---------------------------------------------------------------- Points

  datatype Tier = Tier(min: real, max: real, multiplier: real)

  /** Optional numbers of the configuration are 0 when absent: both are falsy. */
  datatype PointsConfig = PointsConfig(
    basePoints: real,
    amountTiers: seq<Tier>,
    durationTiers: seq<Tier>,
    maxPoints: real,
    enablePartial: bool,
    minPartialPoints: real,
    fullBonus: real,
    fullFixedBonus: real)

  /** Array.sort by ascending minimum, stable. */
  function InsertTier(t: Tier, s: seq<Tier>): seq<Tier> {
    if s == [] then [t]
    else if s[|s| - 1].min <= t.min then s + [t]
    else InsertTier(t, s[..|s| - 1]) + [s[|s| - 1]]
  }

  function SortedTiers(ts: seq<Tier>): seq<Tier> {
    if ts == [] then [] else InsertTier(ts[|ts| - 1], SortedTiers(ts[..|ts| - 1]))
  }

  function FirstTier(s: seq<Tier>, x: real): Option<real> {
    if s == [] then None
    else if s[0].min <= x <= s[0].max then Some(s[0].multiplier)
    else FirstTier(s[1..], x)
  }

  /** The first tier that holds x; the last tier when none does; 1 without tiers. */
  function Multiplier(ts: seq<Tier>, x: real): real {
    var s := SortedTiers(ts);
    var m := FirstTier(s, x);
    if m.Some? then m.value else if |s| > 0 then s[|s| - 1].multiplier else 1.0
  }

  const DEFAULT_AMOUNT_TIERS :=
    [Tier(0.0, 1000.0, 0.5), Tier(1001.0, 5000.0, 1.0), Tier(5001.0, 10000.0, 1.5), Tier(10001.0, 999999.0, 2.0)]

  function Round(x: real): int {
    (x + 0.5).Floor
  }

  /** What amount and duration are worth before shares and bonuses. */
  function PlainPoints(amount: real, days: nat, c: PointsConfig): real {
    c.basePoints * Multiplier(c.amountTiers, amount) * Multiplier(c.durationTiers, days as real)
  }

  /** Points before the cap; None when a partial repayment stays under the configured minimum. */
  function Uncapped(amount: real, due: real, days: nat, full: bool, c: PointsConfig): Option<real> {
    var base := PlainPoints(amount, days, c);
    if full then
      var boosted := if c.fullBonus > 0.0 then base * c.fullBonus else base;
      Some(if c.fullFixedBonus > 0.0 then boosted + c.fullFixedBonus else boosted)
    else if c.enablePartial then
      var part := base * (if due > 0.0 then amount / due else 0.0);
      if c.minPartialPoints != 0.0 && part < c.minPartialPoints then None else Some(part)
    else Some(base)
  }

  function Points(amount: real, due: real, days: nat, full: bool, c: PointsConfig): int {
    if amount <= 0.0 then 0
    else
      var p := Uncapped(amount, due, days, full, c);
      if p.None? then 0
      else Round(if c.maxPoints != 0.0 && p.value > c.maxPoints then c.maxPoints else p.value)
  }

  /** No single transaction earns more than the configured maximum, and nothing is earned for nothing. */
  lemma PointsAreCapped(amount: real, due: real, days: nat, full: bool, c: PointsConfig)
    requires c.maxPoints >= 0.0
    ensures c.maxPoints > 0.0 ==> Points(amount, due, days, full, c) <= Round(c.maxPoints)
    ensures amount <= 0.0 ==> Points(amount, due, days, full, c) == 0
  {
  }

  /** A full repayment earns the multiplier and the fixed bonus on top of the plain points; a partial one
      earns neither, but its share of the plain points when shares are enabled, and nothing when that share
      stays under a set minimum. */
  lemma BonusAndShare(amount: real, due: real, days: nat, c: PointsConfig)
    ensures var plain, full := PlainPoints(amount, days, c), Uncapped(amount, due, days, true, c);
            && full.Some?
            && (c.fullBonus <= 0.0 && c.fullFixedBonus <= 0.0 ==> full.value == plain)
            && (c.fullBonus > 0.0 && c.fullFixedBonus <= 0.0 ==> full.value == plain * c.fullBonus)
            && (c.fullFixedBonus > 0.0 ==>
                  var without := Uncapped(amount, due, days, true, c.(fullFixedBonus := 0.0));
                  without.Some? && full.value == without.value + c.fullFixedBonus)
    ensures var plain, partial := PlainPoints(amount, days, c), Uncapped(amount, due, days, false, c);
            && (!c.enablePartial ==> partial == Some(plain))
            && (c.enablePartial && due > 0.0 ==>
                  match partial
                  case Some(p) => p * due == plain * amount && (c.minPartialPoints == 0.0 || p >= c.minPartialPoints)
                  case None => c.minPartialPoints != 0.0 && plain * (amount / due) < c.minPartialPoints)
            && (c.enablePartial && due <= 0.0 ==>
                  partial == if c.minPartialPoints > 0.0 then None else Some(0.0))
  {
    assert PlainPoints(amount, days, c.(fullFixedBonus := 0.0)) == PlainPoints(amount, days, c);
    hide PlainPoints;
    if due > 0.0 {
      ShareTimesDue(PlainPoints(amount, days, c), amount, due);
    }
  }

  lemma ShareTimesDue(plain: real, amount: real, due: real)
    requires due > 0.0
    ensures plain * (amount / due) * due == plain * amount
  {
    assert amount / due * due == amount;
  }

  const DEFAULT_DURATION_TIERS :=
    [Tier(0.0, 7.0, 2.0), Tier(8.0, 14.0, 1.5), Tier(15.0, 30.0, 1.0), Tier(31.0, 60.0, 0.75), Tier(61.0, 999.0, 0.5)]

  const DEFAULT_POINTS := PointsConfig(50.0, DEFAULT_AMOUNT_TIERS, DEFAULT_DURATION_TIERS, 500.0, true, 5.0, 0.0, 0.0)

  /** Under the defaults: 50 points, halved for small amounts and doubled for large ones, doubled in the first
      week and halved after two months, and at most 500 once rounded. */
  lemma DefaultFullPoints(amount: real, due: real, days: nat)
    requires amount > 0.0
    ensures var m := 50.0 * Multiplier(DEFAULT_AMOUNT_TIERS, amount) * Multiplier(DEFAULT_DURATION_TIERS, days as real);
            Points(amount, due, days, true, DEFAULT_POINTS) == Round(if m > 500.0 then 500.0 else m)
  {
    BonusAndShare(amount, due, days, DEFAULT_POINTS);
    assert PlainPoints(amount, days, DEFAULT_POINTS)
           == 50.0 * Multiplier(DEFAULT_AMOUNT_TIERS, amount) * Multiplier(DEFAULT_DURATION_TIERS, days as real);
    hide Uncapped, Multiplier, PlainPoints;
  }

  /** Whole days fall into no gap: the sooner, the more. */
  lemma DurationMultiplierByDays(days: nat)
    ensures Multiplier(DEFAULT_DURATION_TIERS, days as real)
            == if days <= 7 then 2.0 else if days <= 14 then 1.5 else if days <= 30 then 1.0
               else if days <= 60 then 0.75 else 0.5
  {
    var ts, x := DEFAULT_DURATION_TIERS, days as real;
    SortedDurationTiers();
    assert ts[1..][1..] == ts[2..] && ts[2..][1..] == ts[3..] && ts[3..][1..] == ts[4..] && ts[4..][1..] == [];
    assert FirstTier([], x) == None;
    assert FirstTier(ts[4..], x) == if 61.0 <= x <= 999.0 then Some(0.5) else None;
    assert FirstTier(ts[3..], x) == if 31.0 <= x <= 60.0 then Some(0.75) else FirstTier(ts[4..], x);
    assert FirstTier(ts[2..], x) == if 15.0 <= x <= 30.0 then Some(1.0) else FirstTier(ts[3..], x);
    assert FirstTier(ts[1..], x) == if 8.0 <= x <= 14.0 then Some(1.5) else FirstTier(ts[2..], x);
  }

  lemma SortedDurationTiers()
    ensures SortedTiers(DEFAULT_DURATION_TIERS) == DEFAULT_DURATION_TIERS
  {
    var ts := DEFAULT_DURATION_TIERS;
    assert ts[..4][..3] == ts[..3] && ts[..3][..2] == ts[..2] && ts[..2][..1] == ts[..1] && ts[..1][..0] == [];
    assert SortedTiers(ts[..1]) == ts[..1];
    assert SortedTiers(ts[..2]) == ts[..2];
    assert SortedTiers(ts[..3]) == ts[..3];
    assert SortedTiers(ts[..4]) == ts[..4];
  }

  predicate Ascending(s: seq<Tier>) {
    forall i, j | 0 <= i < j < |s| :: s[i].min <= s[j].min
  }

  lemma {:induction false} InsertTierKeepsAll(t: Tier, s: seq<Tier>)
    ensures multiset(InsertTier(t, s)) == multiset(s) + multiset{t}
  {
    if s != [] && s[|s| - 1].min > t.min {
      InsertTierKeepsAll(t, s[..|s| - 1]);
      assert s == s[..|s| - 1] + [s[|s| - 1]];
    }
  }

  lemma {:induction false} SortedTiersKeepAll(ts: seq<Tier>)
    ensures multiset(SortedTiers(ts)) == multiset(ts)
  {
    hide InsertTier;
    if ts != [] {
      var init, last := ts[..|ts| - 1], ts[|ts| - 1];
      var s := SortedTiers(init);
      assert SortedTiers(ts) == InsertTier(last, s) && ts == init + [last];
      SortedTiersKeepAll(init);
      hide SortedTiers;
      InsertTierKeepsAll(last, s);
    }
  }

  lemma {:induction false} InsertTierAscends(t: Tier, s: seq<Tier>)
    requires Ascending(s)
    ensures Ascending(InsertTier(t, s))
  {
    if s != [] && s[|s| - 1].min > t.min {
      var init, last := s[..|s| - 1], s[|s| - 1];
      InsertTierAscends(t, init);
      InsertTierKeepsAll(t, init);
      var r := InsertTier(t, init);
      assert Ascending(r) && InsertTier(t, s) == r + [last];
      hide InsertTier;
      forall i | 0 <= i < |r|
        ensures r[i].min <= last.min
      {
        assert r[i] in multiset(r);
        assert r[i] == t || r[i] in init;
      }
      AscendsBefore(r, last);
    }
  }

  lemma AscendsBefore(s: seq<Tier>, last: Tier)
    requires Ascending(s) && forall i | 0 <= i < |s| :: s[i].min <= last.min
    ensures Ascending(s + [last])
  {
  }

  lemma {:induction false} SortedTiersAscend(ts: seq<Tier>)
    ensures Ascending(SortedTiers(ts))
  {
    if ts != [] {
      SortedTiersAscend(ts[..|ts| - 1]);
      InsertTierAscends(ts[|ts| - 1], SortedTiers(ts[..|ts| - 1]));
    }
  }

  lemma {:induction false} FirstTierIsLowest(s: seq<Tier>, x: real) returns (i: int)
    requires Ascending(s)
    ensures i == -1 ==> FirstTier(s, x) == None && forall t | t in multiset(s) :: !(t.min <= x <= t.max)
    ensures i != -1 ==>
              && 0 <= i < |s| && s[i].min <= x <= s[i].max && FirstTier(s, x) == Some(s[i].multiplier)
              && forall t | t in multiset(s) && t.min <= x <= t.max :: s[i].min <= t.min
  {
    if s == [] {
      i := -1;
    } else {
      assert s == [s[0]] + s[1..];
      if s[0].min <= x <= s[0].max {
        i := 0;
      } else {
        i := FirstTierIsLowest(s[1..], x);
        i := if i == -1 then -1 else i + 1;
      }
    }
  }

  /** Among the tiers that hold x the one with the lowest minimum decides; when none does, the tier with the
      highest minimum; without tiers the multiplier is 1. */
  lemma MultiplierComesFromTier(ts: seq<Tier>, x: real) returns (t: Tier)
    ensures ts == [] ==> Multiplier(ts, x) == 1.0
    ensures ts != [] ==>
              && t in multiset(ts) && Multiplier(ts, x) == t.multiplier
              && (if t.min <= x <= t.max then forall u | u in multiset(ts) && u.min <= x <= u.max :: t.min <= u.min
                  else forall u | u in multiset(ts) :: !(u.min <= x <= u.max) && u.min <= t.min)
  {
    var s := SortedTiers(ts);
    SortedTiersAscend(ts);
    SortedTiersKeepAll(ts);
    assert ts == [] ==> s == [];
    hide SortedTiers, Ascending, InsertTier;
    var i := FirstTierIsLowest(s, x);
    t := Tier(0.0, 0.0, 1.0);
    if ts != [] {
      assert |s| == |multiset(s)| == |multiset(ts)| == |ts|;
      t := if i == -1 then s[|s| - 1] else s[i];
      assert t in multiset(s);
      forall u | u in multiset(ts)
        ensures u.min <= s[|s| - 1].min
      {
        assert u in s;
      }
    }
  }

  /** Of two tiers with the same minimum that both hold x the one listed first decides. */
  lemma FirstListedWins(t: Tier, u: Tier, x: real)
    requires t.min == u.min <= x && x <= t.max && x <= u.max
    ensures Multiplier([t, u], x) == t.multiplier
  {
    assert [t, u][..1] == [t] && [t][..0] == [];
    assert SortedTiers([t]) == [t];
    assert SortedTiers([t, u]) == [t, u];
  }

  /** The shipped tiers leave gaps between whole amounts, and an amount in a gap falls through to the last
      tier: 1000.50 earns the multiplier meant for more than 10000. */
  lemma TopMultiplierExactlyWhen(x: real)
    requires x >= 0.0
    ensures Multiplier(DEFAULT_AMOUNT_TIERS, x) == 2.0
            <==> x >= 10001.0 || 1000.0 < x < 1001.0 || 5000.0 < x < 5001.0 || 10000.0 < x < 10001.0
  {
    var ts := DEFAULT_AMOUNT_TIERS;
    assert ts[..3][..2] == ts[..2] && ts[..3][..2][..1] == ts[..1] && ts[..1][..0] == [];
    assert SortedTiers(ts[..1]) == ts[..1];
    assert SortedTiers(ts[..2]) == ts[..2];
    assert SortedTiers(ts[..3]) == ts[..3];
    assert SortedTiers(ts) == ts;
    assert ts[1..][1..] == ts[2..] && ts[2..][1..] == ts[3..] && ts[3..][1..] == [];
    assert FirstTier([], x) == None;
    assert FirstTier(ts[3..], x) == if 10001.0 <= x <= 999999.0 then Some(2.0) else None;
    assert FirstTier(ts[2..], x) == if 5001.0 <= x <= 10000.0 then Some(1.5) else FirstTier(ts[3..], x);
    assert FirstTier(ts[1..], x) == if 1001.0 <= x <= 5000.0 then Some(1.0) else FirstTier(ts[2..], x);
  }

  // ---------------------------------------------------------------- The ledger

  datatype LoanStatus = PENDING | APPROVED | REJECTED | DISBURSED | REPAYING | COMPLETED | DEFAULTED

  datatype Loan = Loan(amountDue: real, amountPaid: real, outstanding: real, status: LoanStatus, startedAt: int)

  datatype RepaymentStatus = NEVER | PARTLY | FULLY | OVERDUE

  datatype User = User(
    phone: string,
    creditScore: int,
    totalRepaid: real,
    repaymentStatus: RepaymentStatus,
    creditLimit: real,
    autoLimitEnabled: bool,
    totalLoans: int)

  datatype Reason = LOAN_COMPLETED | PARTIAL_REPAYMENT

  datatype HistoryRow = HistoryRow(
    userId: string, transactionId: string, loanId: string,
    previousScore: int, newScore: int, points: int, reason: Reason)

  datatype Transaction = Transaction(completedRepayment: bool, amount: real, userId: string, repaidAt: int)

  datatype Ledger = Ledger(loans: map<string, Loan>, users: map<string, User>, history: seq<HistoryRow>)

  /** What a run does not change. maxScore is the configured one, or 1000 when it cannot be read. */
  datatype World = World(transactions: map<string, Transaction>, points: PointsConfig, terms: E.Terms, maxScore: int)

  datatype Error = TransactionNotFound | NotACompletedRepayment | LoanNotFound | UserNotFound

  datatype Result = Awarded(points: int, newScore: int) | Failed(error: Error)

  datatype Call = Call(transactionId: string, loanId: string, phone: Option<string>)

  const DAY_MS := 24 * 60 * 60 * 1000

  function Days(l: Loan, t: Transaction): nat {
    (if t.repaidAt >= l.startedAt then t.repaidAt - l.startedAt else l.startedAt - t.repaidAt) / DAY_MS
  }

  predicate DistinctPhones(users: map<string, User>) {
    forall u, v | u in users && v in users && users[u].phone == users[v].phone :: u == v
  }

  /** By phone when one is given and known, otherwise the transaction's user. */
  function FindUser(users: map<string, User>, phone: Option<string>, userId: string): Option<string>
    requires DistinctPhones(users)
    ensures FindUser(users, phone, userId).Some? ==> FindUser(users, phone, userId).value in users
  {
    if phone.Some? && exists u :: u in users && users[u].phone == phone.value then
      Some(var u :| u in users && users[u].phone == phone.value; u)
    else if userId in users then Some(userId) else None
  }

  /** The history row of a transaction, if there is one. */
  function RowOf(history: seq<HistoryRow>, transactionId: string): Option<HistoryRow> {
    if history == [] then None
    else if history[|history| - 1].transactionId == transactionId then Some(history[|history| - 1])
    else RowOf(history[..|history| - 1], transactionId)
  }

  function Repaid(l: Loan, amount: real): Loan {
    var paid := if l.amountPaid + amount <= l.amountDue then l.amountPaid + amount else l.amountDue;
    var outstanding := if l.amountDue - paid >= 0.0 then l.amountDue - paid else 0.0;
    l.(amountPaid := paid, outstanding := outstanding,
       status := if outstanding <= 0.0 then COMPLETED else if l.status == DISBURSED then REPAYING else l.status)
  }

  function Credited(u: User, amount: real, l: Loan): User {
    u.(totalRepaid := u.totalRepaid + amount,
       repaymentStatus := if l.outstanding <= 0.0 then FULLY
                          else if l.amountPaid > 0.0 then PARTLY else u.repaymentStatus)
  }

  function Capped(score: int, maxScore: int): int {
    if score > maxScore then maxScore else score
  }

  function Scored(u: User, points: int, w: World): User {
    var score := Capped(u.creditScore + points, w.maxScore);
    u.(creditScore := score,
       creditLimit := if u.autoLimitEnabled then E.FromScore(u.totalLoans, score, w.terms) else u.creditLimit)
  }

  /** The first of the four lookups that fails. */
  function Refusal(g: Ledger, c: Call, w: World): Option<Error>
    requires DistinctPhones(g.users)
  {
    if c.transactionId !in w.transactions then Some(TransactionNotFound)
    else if !w.transactions[c.transactionId].completedRepayment then Some(NotACompletedRepayment)
    else if c.loanId !in g.loans then Some(LoanNotFound)
    else if FindUser(g.users, c.phone, w.transactions[c.transactionId].userId).None? then Some(UserNotFound)
    else None
  }

  /** The points of a call that is neither refused nor a repeat. */
  function CallPoints(g: Ledger, c: Call, w: World): int
    requires c.transactionId in w.transactions && c.loanId in g.loans
  {
    var t := w.transactions[c.transactionId];
    var l := Repaid(g.loans[c.loanId], t.amount);
    Points(t.amount, l.amountDue, Days(l, t), l.outstanding <= 0.0, w.points)
  }

  function Award(g: Ledger, c: Call, w: World): (r: (Ledger, Result))
    requires DistinctPhones(g.users)
    ensures DistinctPhones(r.0.users)
  {
    var refusal := Refusal(g, c, w);
    if refusal.Some? then (g, Failed(refusal.value))
    else
      var t := w.transactions[c.transactionId];
      var id := FindUser(g.users, c.phone, t.userId).value;
      var seen := RowOf(g.history, c.transactionId);
      if seen.Some? then (g, Awarded(seen.value.points, seen.value.newScore))
      else
        var was := g.loans[c.loanId];
        var l := Repaid(was, t.amount);
        var u := Credited(g.users[id], t.amount, l);
        var points := CallPoints(g, c, w);
        if points <= 0 then
          (g.(loans := g.loans[c.loanId := l], users := g.users[id := u]), Awarded(0, u.creditScore))
        else
          var v := Scored(u, points, w);
          var reason := if l.outstanding <= 0.0 && was.status != COMPLETED then LOAN_COMPLETED else PARTIAL_REPAYMENT;
          (Ledger(g.loans[c.loanId := l], g.users[id := v],
                  g.history + [HistoryRow(id, c.transactionId, c.loanId, u.creditScore, v.creditScore, points, reason)]),
           Awarded(points, v.creditScore))
  }

  function Run(g: Ledger, calls: seq<Call>, w: World): (r: Ledger)
    requires DistinctPhones(g.users)
    ensures DistinctPhones(r.users)
    decreases |calls|
  {
    if calls == [] then g else Run(Award(g, calls[0], w).0, calls[1..], w)
  }

  // ---------------------------------------------------------------- Loans

  /** Paid and outstanding make up what is due, and a loan is completed exactly when nothing is left. */
  predicate LoanBalanced(l: Loan) {
    && 0.0 <= l.amountPaid <= l.amountDue
    && l.amountPaid + l.outstanding == l.amountDue
    && (l.status == COMPLETED <==> l.outstanding == 0.0)
  }

  predicate LoansBalanced(g: Ledger) {
    forall id | id in g.loans :: LoanBalanced(g.loans[id])
  }

  predicate NonNegativeAmounts(w: World) {
    forall t | t in w.transactions :: w.transactions[t].amount >= 0.0
  }

  lemma RepaidStaysBalanced(l: Loan, amount: real)
    requires LoanBalanced(l) && amount >= 0.0
    ensures LoanBalanced(Repaid(l, amount))
    ensures Repaid(l, amount).amountDue == l.amountDue && Repaid(l, amount).amountPaid >= l.amountPaid
  {
  }

  lemma AwardKeepsLoansBalanced(g: Ledger, c: Call, w: World)
    requires DistinctPhones(g.users) && LoansBalanced(g) && NonNegativeAmounts(w)
    ensures LoansBalanced(Award(g, c, w).0)
    ensures forall id | id in g.loans :: id in Award(g, c, w).0.loans
              && Award(g, c, w).0.loans[id].amountDue == g.loans[id].amountDue
              && Award(g, c, w).0.loans[id].amountPaid >= g.loans[id].amountPaid
  {
    if Refusal(g, c, w).None? {
      RepaidStaysBalanced(g.loans[c.loanId], w.transactions[c.transactionId].amount);
    }
    hide LoanBalanced, Repaid, Points, RowOf, FindUser, Scored, Credited, DistinctPhones;
  }

  lemma {:induction false} RunKeepsLoansBalanced(g: Ledger, calls: seq<Call>, w: World)
    requires DistinctPhones(g.users) && LoansBalanced(g) && NonNegativeAmounts(w)
    ensures LoansBalanced(Run(g, calls, w))
    ensures forall id | id in g.loans :: id in Run(g, calls, w).loans
              && Run(g, calls, w).loans[id].amountDue == g.loans[id].amountDue
              && Run(g, calls, w).loans[id].amountPaid >= g.loans[id].amountPaid
    decreases |calls|
  {
    if calls != [] {
      AwardKeepsLoansBalanced(g, calls[0], w);
      RunKeepsLoansBalanced(Award(g, calls[0], w).0, calls[1..], w);
    }
  }

  /** The call goes through and is not a repeat. */
  predicate Applies(g: Ledger, c: Call, w: World)
    requires DistinctPhones(g.users)
  {
    Refusal(g, c, w).None? && RowOf(g.history, c.transactionId).None?
  }

  function MinReal(x: real, y: real): real {
    if x < y then x else y
  }

  /** A call that applies books its amount: paid grows by it up to what is due, the rest is outstanding,
      nothing left means COMPLETED, and the credited user's total grows by all of it. A call that does not
      apply changes nothing. No other loan and no other user changes. */
  lemma CallBooksRepayment(g: Ledger, c: Call, w: World, loanId: string, id: string)
    requires DistinctPhones(g.users) && LoansBalanced(g) && NonNegativeAmounts(w)
    requires loanId in g.loans && id in g.users
    ensures var g' := Award(g, c, w).0;
            loanId in g'.loans && id in g'.users
            && var l, l', amount := g.loans[loanId], g'.loans[loanId],
                                    if c.transactionId in w.transactions then w.transactions[c.transactionId].amount else 0.0;
            if Applies(g, c, w) && c.loanId == loanId then
              && l'.amountPaid == MinReal(l.amountPaid + amount, l.amountDue)
              && l'.outstanding == l.amountDue - MinReal(l.amountPaid + amount, l.amountDue)
              && (l'.status == COMPLETED <==> l.amountPaid + amount >= l.amountDue)
              && (l'.status != COMPLETED ==> l'.status == if l.status == DISBURSED then REPAYING else l.status)
            else l' == l
    ensures var g' := Award(g, c, w).0;
            if Applies(g, c, w) && Credits(g, c, w) == id
            then g'.users[id].totalRepaid == g.users[id].totalRepaid + w.transactions[c.transactionId].amount
            else g'.users[id] == g.users[id]
  {
    assert LoanBalanced(g.loans[loanId]);
    hide Points, Days, RowOf, FindUser, DistinctPhones, E.FromScore;
  }

  /** The user a call credits. */
  function Credits(g: Ledger, c: Call, w: World): string
    requires DistinctPhones(g.users)
    requires Applies(g, c, w)
  {
    FindUser(g.users, c.phone, w.transactions[c.transactionId].userId).value
  }

  /** The amounts of the calls that a run applies to one loan. */
  function PaidInto(g: Ledger, calls: seq<Call>, w: World, loanId: string): real
    requires DistinctPhones(g.users)
    decreases |calls|
  {
    if calls == [] then 0.0
    else
      (if Applies(g, calls[0], w) && calls[0].loanId == loanId then w.transactions[calls[0].transactionId].amount
       else 0.0)
      + PaidInto(Award(g, calls[0], w).0, calls[1..], w, loanId)
  }

  lemma {:induction false} PaidIntoNonNegative(g: Ledger, calls: seq<Call>, w: World, loanId: string)
    requires DistinctPhones(g.users) && NonNegativeAmounts(w)
    ensures PaidInto(g, calls, w, loanId) >= 0.0
    decreases |calls|
  {
    if calls != [] {
      PaidIntoNonNegative(Award(g, calls[0], w).0, calls[1..], w, loanId);
    }
  }

  /** After any run a loan's paid amount is what it was at the start and all that the run paid into it, up to
      what is due. */
  lemma {:induction false} RunBooksRepayments(g: Ledger, calls: seq<Call>, w: World, loanId: string)
    requires DistinctPhones(g.users) && LoansBalanced(g) && NonNegativeAmounts(w) && loanId in g.loans
    ensures loanId in Run(g, calls, w).loans
    ensures var l, l' := g.loans[loanId], Run(g, calls, w).loans[loanId];
            && l'.amountPaid == MinReal(l.amountPaid + PaidInto(g, calls, w, loanId), l.amountDue)
            && l'.amountDue == l.amountDue
    decreases |calls|
  {
    assert LoanBalanced(g.loans[loanId]);
    if calls != [] {
      var g1 := Award(g, calls[0], w).0;
      AwardKeepsLoansBalanced(g, calls[0], w);
      LoanBooks(g, calls[0], w, loanId);
      PaidIntoNonNegative(g1, calls[1..], w, loanId);
      hide Award, Applies, LoansBalanced, NonNegativeAmounts, DistinctPhones, LoanBalanced;
      RunBooksRepayments(g1, calls[1..], w, loanId);
    }
  }

  lemma LoanBooks(g: Ledger, c: Call, w: World, loanId: string)
    requires DistinctPhones(g.users) && LoansBalanced(g) && NonNegativeAmounts(w) && loanId in g.loans
    ensures loanId in Award(g, c, w).0.loans
    ensures var l, l' := g.loans[loanId], Award(g, c, w).0.loans[loanId];
            && l'.amountDue == l.amountDue && l.amountPaid <= l.amountDue
            && l'.amountPaid == (if Applies(g, c, w) && c.loanId == loanId
                                 then MinReal(l.amountPaid + w.transactions[c.transactionId].amount, l.amountDue)
                                 else l.amountPaid)
            && (Applies(g, c, w) ==> w.transactions[c.transactionId].amount >= 0.0)
  {
    assert LoanBalanced(g.loans[loanId]);
    hide Points, Days, RowOf, FindUser, DistinctPhones, E.FromScore;
  }

  /** The amounts of the calls that a run credits to one user. */
  function CreditedTo(g: Ledger, calls: seq<Call>, w: World, id: string): real
    requires DistinctPhones(g.users)
    decreases |calls|
  {
    if calls == [] then 0.0
    else
      (if Applies(g, calls[0], w) && Credits(g, calls[0], w) == id then w.transactions[calls[0].transactionId].amount
       else 0.0)
      + CreditedTo(Award(g, calls[0], w).0, calls[1..], w, id)
  }

  lemma {:induction false} RunCreditsRepayments(g: Ledger, calls: seq<Call>, w: World, id: string)
    requires DistinctPhones(g.users) && id in g.users
    ensures id in Run(g, calls, w).users
    ensures Run(g, calls, w).users[id].totalRepaid == g.users[id].totalRepaid + CreditedTo(g, calls, w, id)
    decreases |calls|
  {
    if calls != [] {
      UserCredited(g, calls[0], w, id);
      hide Award, Applies, Credits, DistinctPhones;
      RunCreditsRepayments(Award(g, calls[0], w).0, calls[1..], w, id);
    }
  }

  lemma UserCredited(g: Ledger, c: Call, w: World, id: string)
    requires DistinctPhones(g.users) && id in g.users
    ensures id in Award(g, c, w).0.users
    ensures Award(g, c, w).0.users[id].totalRepaid
            == g.users[id].totalRepaid
               + if Applies(g, c, w) && Credits(g, c, w) == id then w.transactions[c.transactionId].amount else 0.0
  {
    hide Points, Days, RowOf, FindUser, DistinctPhones, E.FromScore, Repaid;
  }

  /** A given phone comes first: its owner is credited when there is one, whoever the transaction belongs to;
      otherwise the transaction's user, when known. */
  lemma PhoneComesFirst(users: map<string, User>, phone: Option<string>, userId: string, owner: string)
    requires DistinctPhones(users)
    ensures owner in users && phone == Some(users[owner].phone) ==> FindUser(users, phone, userId) == Some(owner)
    ensures (phone.None? || forall u | u in users :: users[u].phone != phone.value) ==>
              FindUser(users, phone, userId) == if userId in users then Some(userId) else None
  {
  }

  // ---------------------------------------------------------------- What a call reports and sets

  /** Which of the four refusals a call meets: the first missing thing in the order of the lookups. */
  lemma RefusalExactlyWhen(g: Ledger, c: Call, w: World)
    requires DistinctPhones(g.users)
    ensures var r, known := Refusal(g, c, w), c.transactionId in w.transactions;
            && (r == Some(TransactionNotFound) <==> !known)
            && (r == Some(NotACompletedRepayment) <==> known && !w.transactions[c.transactionId].completedRepayment)
            && (r == Some(LoanNotFound) <==>
                  known && w.transactions[c.transactionId].completedRepayment && c.loanId !in g.loans)
            && (r == Some(UserNotFound) <==>
                  known && w.transactions[c.transactionId].completedRepayment && c.loanId in g.loans
                  && w.transactions[c.transactionId].userId !in g.users
                  && (c.phone.None? || forall u | u in g.users :: g.users[u].phone != c.phone.value))
  {
  }

  /** A call that applies counts as a full repayment for its points exactly when it leaves nothing to pay. */
  lemma FullRepaymentEarnsFullPoints(g: Ledger, c: Call, w: World)
    requires DistinctPhones(g.users) && LoansBalanced(g) && Applies(g, c, w)
    ensures var l, t := g.loans[c.loanId], w.transactions[c.transactionId];
            CallPoints(g, c, w) == Points(t.amount, l.amountDue, Days(l, t), l.amountPaid + t.amount >= l.amountDue, w.points)
  {
    assert LoanBalanced(g.loans[c.loanId]);
    hide Points, RowOf, FindUser, DistinctPhones, Days;
    assert Days(Repaid(g.loans[c.loanId], w.transactions[c.transactionId].amount), w.transactions[c.transactionId])
           == Days(g.loans[c.loanId], w.transactions[c.transactionId]) by {
      SameDays(g.loans[c.loanId], w.transactions[c.transactionId]);
    }
  }

  lemma SameDays(l: Loan, t: Transaction)
    ensures Days(Repaid(l, t.amount), t) == Days(l, t)
    ensures var gap := if t.repaidAt >= l.startedAt then t.repaidAt - l.startedAt else l.startedAt - t.repaidAt;
            Days(l, t) * DAY_MS <= gap < (Days(l, t) + 1) * DAY_MS
  {
  }

  /** What a call that applies sets on its user and reports. The repayment status says whether the loan is paid
      off; points raise the score up to the maximum, and the limit follows the new score when it is automatic;
      the history row names the completion only when this call completed the loan. Without points the score,
      limit and history stay, and the report says 0. */
  lemma CallSettlesUser(g: Ledger, c: Call, w: World)
    requires DistinctPhones(g.users) && LoansBalanced(g) && NonNegativeAmounts(w) && Applies(g, c, w)
    ensures var id, l, amount := Credits(g, c, w), g.loans[c.loanId], w.transactions[c.transactionId].amount;
            var (g', result) := Award(g, c, w);
            id in g'.users
            && var u, u', points, full := g.users[id], g'.users[id], CallPoints(g, c, w), l.amountPaid + amount >= l.amountDue;
            && u'.repaymentStatus == (if full then FULLY else if l.amountPaid + amount > 0.0 then PARTLY else u.repaymentStatus)
            && u'.phone == u.phone && u'.autoLimitEnabled == u.autoLimitEnabled && u'.totalLoans == u.totalLoans
            && (points <= 0 ==>
                  && u'.creditScore == u.creditScore && u'.creditLimit == u.creditLimit
                  && g'.history == g.history && result == Awarded(0, u.creditScore))
            && (points > 0 ==>
                  && u'.creditScore == (if u.creditScore + points > w.maxScore then w.maxScore else u.creditScore + points)
                  && u'.creditLimit == (if u.autoLimitEnabled then E.FromScore(u.totalLoans, u'.creditScore, w.terms)
                                        else u.creditLimit)
                  && result == Awarded(points, u'.creditScore)
                  && g'.history
                     == g.history + [HistoryRow(id, c.transactionId, c.loanId, u.creditScore, u'.creditScore, points,
                                                if full && l.status != COMPLETED then LOAN_COMPLETED
                                                else PARTIAL_REPAYMENT)])
  {
    assert LoanBalanced(g.loans[c.loanId]);
    hide CallPoints, RowOf, FindUser, DistinctPhones, E.FromScore;
  }

  /** A repeat reports what its row says. */
  lemma RepeatReportsItsRow(g: Ledger, c: Call, w: World, r: HistoryRow)
    requires DistinctPhones(g.users) && OneRowPerTransaction(g.history) && Refusal(g, c, w).None?
    requires r in g.history && r.transactionId == c.transactionId
    ensures Award(g, c, w) == (g, Awarded(r.points, r.newScore))
  {
    RowOfFinds(g.history, c.transactionId);
    var i :| 0 <= i < |g.history| && g.history[i] == r;
    var seen := RowOf(g.history, c.transactionId).value;
    var j :| 0 <= j < |g.history| && g.history[j] == seen;
    assert i == j;
    hide RowOf, FindUser, DistinctPhones;
  }

  // ---------------------------------------------------------------- Scores and history

  function Earned(history: seq<HistoryRow>, id: string): int {
    if history == [] then 0
    else Earned(history[..|history| - 1], id)
         + if history[|history| - 1].userId == id then history[|history| - 1].points else 0
  }

  predicate HasRow(history: seq<HistoryRow>, id: string) {
    exists i :: 0 <= i < |history| && history[i].userId == id
  }

  /** The closed form: the start score until the first award, then start plus everything earned, capped. */
  function ScoreAfter(history: seq<HistoryRow>, id: string, start: int, maxScore: int): int {
    if HasRow(history, id) then Capped(start + Earned(history, id), maxScore) else start
  }

  /** Each row continues from the score its predecessors leave, and all points are positive. */
  predicate Chained(history: seq<HistoryRow>, users: map<string, User>, maxScore: int) {
    forall i | 0 <= i < |history| ::
      var r := history[i];
      && r.userId in users && r.points > 0
      && r.previousScore == ScoreAfter(history[..i], r.userId, users[r.userId].creditScore, maxScore)
      && r.newScore == Capped(r.previousScore + r.points, maxScore)
  }

  /** start holds every user's score from before the first award. */
  predicate ScoresHold(g: Ledger, start: map<string, User>, maxScore: int) {
    && g.users.Keys == start.Keys
    && Chained(g.history, start, maxScore)
    && forall id | id in start ::
         g.users[id].creditScore == ScoreAfter(g.history, id, start[id].creditScore, maxScore)
  }

  lemma ScoreAfterAppend(history: seq<HistoryRow>, r: HistoryRow, id: string, start: int, maxScore: int)
    requires r.points > 0 && forall i | 0 <= i < |history| :: history[i].points > 0
    ensures ScoreAfter(history + [r], id, start, maxScore)
            == if r.userId == id then Capped(ScoreAfter(history, id, start, maxScore) + r.points, maxScore)
               else ScoreAfter(history, id, start, maxScore)
  {
    var h' := history + [r];
    assert h'[..|history|] == history;
    if HasRow(history, id) {
      var i :| 0 <= i < |history| && history[i].userId == id;
      assert h'[i].userId == id;
    } else {
      NothingEarned(history, id);
    }
    assert r.userId == id ==> h'[|history|].userId == id;
    assert r.userId != id ==> HasRow(h', id) == HasRow(history, id);
  }

  lemma {:induction false} NothingEarned(history: seq<HistoryRow>, id: string)
    requires !HasRow(history, id)
    ensures Earned(history, id) == 0
  {
    if history != [] {
      NothingEarned(history[..|history| - 1], id);
    }
  }

  /** What a call does to the scores: nothing, or one new row that its user's score follows. */
  predicate ScoreStep(g: Ledger, g': Ledger, maxScore: int) {
    && g'.users.Keys == g.users.Keys
    && (g'.history == g.history ==> forall id | id in g.users :: g'.users[id].creditScore == g.users[id].creditScore)
    && (g'.history != g.history ==>
          && |g'.history| == |g.history| + 1 && g'.history[..|g.history|] == g.history
          && var r := g'.history[|g.history|];
             && r.userId in g.users && r.points > 0
             && r.previousScore == g.users[r.userId].creditScore
             && r.newScore == Capped(r.previousScore + r.points, maxScore)
             && forall id | id in g.users ::
                  g'.users[id].creditScore == if id == r.userId then r.newScore else g.users[id].creditScore)
  }

  lemma AwardIsScoreStep(g: Ledger, c: Call, w: World)
    requires DistinctPhones(g.users)
    ensures ScoreStep(g, Award(g, c, w).0, w.maxScore)
  {
  }

  lemma ScoreStepKeepsScores(g: Ledger, g': Ledger, start: map<string, User>, maxScore: int)
    requires ScoresHold(g, start, maxScore) && ScoreStep(g, g', maxScore)
    ensures ScoresHold(g', start, maxScore)
  {
    if g'.history != g.history {
      var h, r := g.history, g'.history[|g.history|];
      assert g'.history == h + [r];
      forall i | 0 <= i < |g'.history|
        ensures g'.history[..i] == h[..i]
      {
      }
      forall id | id in start
        ensures g'.users[id].creditScore == ScoreAfter(g'.history, id, start[id].creditScore, maxScore)
      {
        ScoreAfterAppend(h, r, id, start[id].creditScore, maxScore);
      }
    }
  }

  lemma {:induction false} RunKeepsScores(g: Ledger, calls: seq<Call>, w: World, start: map<string, User>)
    requires DistinctPhones(g.users) && ScoresHold(g, start, w.maxScore)
    ensures ScoresHold(Run(g, calls, w), start, w.maxScore)
    decreases |calls|
  {
    if calls != [] {
      AwardIsScoreStep(g, calls[0], w);
      ScoreStepKeepsScores(g, Award(g, calls[0], w).0, start, w.maxScore);
      RunKeepsScores(Award(g, calls[0], w).0, calls[1..], w, start);
    }
  }

  /** After any run a user's score is min(max, start + points earned) once anything was earned, and each
      history row's previousScore is the newScore of the user's row before it. */
  lemma ScoreIsStartPlusEarned(loans: map<string, Loan>, users: map<string, User>, calls: seq<Call>, w: World,
                               id: string, i: nat, j: nat)
    requires DistinctPhones(users) && id in users
    ensures var g := Run(Ledger(loans, users, []), calls, w);
            && id in g.users
            && g.users[id].creditScore == ScoreAfter(g.history, id, users[id].creditScore, w.maxScore)
            && (i < j < |g.history| && g.history[i].userId == id && g.history[j].userId == id
                && (forall k | i < k < j :: g.history[k].userId != id)
                ==> g.history[j].previousScore == g.history[i].newScore)
  {
    var g := Run(Ledger(loans, users, []), calls, w);
    RunKeepsScores(Ledger(loans, users, []), calls, w, users);
    if i < j < |g.history| && g.history[i].userId == id && g.history[j].userId == id
       && (forall k | i < k < j :: g.history[k].userId != id) {
      RowsLink(g.history, users, w.maxScore, i, j);
    }
    hide Run, ScoreAfter;
  }

  lemma RowsLink(h: seq<HistoryRow>, start: map<string, User>, maxScore: int, i: nat, j: nat)
    requires Chained(h, start, maxScore) && i < j < |h| && h[i].userId == h[j].userId
    requires forall k | i < k < j :: h[k].userId != h[j].userId
    ensures h[j].previousScore == h[i].newScore
  {
    var id := h[j].userId;
    assert h[..i + 1] == h[..i] + [h[i]];
    ScoreAfterAppend(h[..i], h[i], id, start[id].creditScore, maxScore);
    QuietRows(h, i + 1, j, id, start[id].creditScore, maxScore);
  }

  lemma {:induction false} QuietRows(h: seq<HistoryRow>, i: nat, j: nat, id: string, start: int, maxScore: int)
    requires i <= j <= |h| && forall k | 0 <= k < |h| :: h[k].points > 0
    requires forall k | i <= k < j :: h[k].userId != id
    ensures ScoreAfter(h[..j], id, start, maxScore) == ScoreAfter(h[..i], id, start, maxScore)
    decreases j - i
  {
    if i < j {
      QuietRows(h, i, j - 1, id, start, maxScore);
      assert h[..j] == h[..j - 1] + [h[j - 1]];
      ScoreAfterAppend(h[..j - 1], h[j - 1], id, start, maxScore);
    }
  }

  // ---------------------------------------------------------------- At most once

  predicate OneRowPerTransaction(history: seq<HistoryRow>) {
    forall i, j | 0 <= i < j < |history| :: history[i].transactionId != history[j].transactionId
  }

  lemma {:induction false} RowOfFinds(history: seq<HistoryRow>, t: string)
    ensures RowOf(history, t).None? <==> forall i | 0 <= i < |history| :: history[i].transactionId != t
    ensures RowOf(history, t).Some? ==> RowOf(history, t).value.transactionId == t && RowOf(history, t).value in history
  {
    if history != [] {
      RowOfFinds(history[..|history| - 1], t);
      assert history[|history| - 1] in history;
    }
  }

  /** Over any run a transaction has at most one history row, whatever loans and phones it is called with. */
  lemma {:induction false} RunKeepsOneRow(g: Ledger, calls: seq<Call>, w: World)
    requires DistinctPhones(g.users) && OneRowPerTransaction(g.history)
    ensures OneRowPerTransaction(Run(g, calls, w).history)
    decreases |calls|
  {
    if calls != [] {
      RowOfFinds(g.history, calls[0].transactionId);
      RunKeepsOneRow(Award(g, calls[0], w).0, calls[1..], w);
    }
  }

  lemma {:induction false} RunKeepsRow(g: Ledger, calls: seq<Call>, w: World, t: string)
    requires DistinctPhones(g.users) && RowOf(g.history, t).Some?
    ensures RowOf(Run(g, calls, w).history, t).Some?
    decreases |calls|
  {
    if calls != [] {
      RowOfFinds(g.history, t);
      RowOfFinds(Award(g, calls[0], w).0.history, t);
      AwardKeepsRows(g, calls[0], w);
      RunKeepsRow(Award(g, calls[0], w).0, calls[1..], w, t);
    }
  }

  lemma AwardKeepsRows(g: Ledger, c: Call, w: World)
    requires DistinctPhones(g.users)
    ensures forall r | r in g.history :: r in Award(g, c, w).0.history
  {
  }

  /** A transaction that earned points is applied at most once: once it has its history row, any later call
      of it, after any run and with any loan and phone, leaves loans, users and history as they are. */
  lemma AppliedAtMostOnce(g: Ledger, calls: seq<Call>, w: World, t: string, loanId: string, phone: Option<string>)
    requires DistinctPhones(g.users) && RowOf(g.history, t).Some?
    ensures var later := Run(g, calls, w);
            Award(later, Call(t, loanId, phone), w).0 == later
  {
    RunKeepsRow(g, calls, w, t);
  }

  /** And it has that row from the call that earned the points on. */
  lemma EarningLeavesRow(g: Ledger, c: Call, w: World)
    requires DistinctPhones(g.users) && Refusal(g, c, w).None?
    ensures RowOf(Award(g, c, w).0.history, c.transactionId).Some?
            <==> CallPoints(g, c, w) > 0 || RowOf(g.history, c.transactionId).Some?
  {
  }

  /** Repeating a call right after it went through changes nothing exactly when it earned points or paid
      nothing: a paying repayment that earned zero points leaves no history row, and is applied again. */
  lemma RepeatChangesNothingExactlyWhen(g: Ledger, c: Call, w: World)
    requires DistinctPhones(g.users) && LoansBalanced(g) && NonNegativeAmounts(w)
    requires Refusal(g, c, w).None? && RowOf(g.history, c.transactionId).None?
    ensures var g1 := Award(g, c, w).0;
            Award(g1, c, w).0 == g1 <==> CallPoints(g, c, w) > 0 || w.transactions[c.transactionId].amount == 0.0
  {
    var g1 := Award(g, c, w).0;
    var t := w.transactions[c.transactionId];
    var id := FindUser(g.users, c.phone, t.userId).value;
    assert FindUser(g1.users, c.phone, t.userId) == Some(id) by {
      SameUserFound(g.users, g1.users, c.phone, t.userId);
    }
    if CallPoints(g, c, w) > 0 {
      assert RowOf(g1.history, c.transactionId).Some?;
    } else if t.amount == 0.0 {
      var g2 := Award(g1, c, w).0;
      assert g1.loans[c.loanId] == g2.loans[c.loanId];
      assert g1.users[id] == g2.users[id];
    } else {
      assert Award(g1, c, w).0.users[id].totalRepaid == g1.users[id].totalRepaid + t.amount;
    }
  }

  lemma SameUserFound(users: map<string, User>, users': map<string, User>, phone: Option<string>, userId: string)
    requires DistinctPhones(users) && DistinctPhones(users') && users'.Keys == users.Keys
    requires forall u | u in users :: users'[u].phone == users[u].phone
    ensures FindUser(users', phone, userId) == FindUser(users, phone, userId)
  {
  }

  // ---------------------------------------------------------------- The service

  class CreditScoreService {
    var loans: map<string, Loan>
    var users: map<string, User>
    var history: seq<HistoryRow>
    const world: World

    ghost function Contents(): Ledger
      reads this
    {
      Ledger(loans, users, history)
    }

    constructor (g: Ledger, w: World)
      ensures Contents() == g && world == w
    {
      loans, users, history, world := g.loans, g.users, g.history, w;
    }

    method AwardPointsForRepayment(transactionId: string, loanId: string, phone: Option<string>) returns (result: Result)
      requires DistinctPhones(users)
      modifies this
      ensures (Contents(), result) == Award(old(Contents()), Call(transactionId, loanId, phone), world)
    {
      hide Points, Days, RowOf, FindUser, DistinctPhones, E.FromScore;
      if transactionId !in world.transactions {
        return Failed(TransactionNotFound);
      }
      var transaction := world.transactions[transactionId];
      if !transaction.completedRepayment {
        return Failed(NotACompletedRepayment);
      }
      if loanId !in loans {
        return Failed(LoanNotFound);
      }
      var found := FindUser(users, phone, transaction.userId);
      if found.None? {
        return Failed(UserNotFound);
      }
      assert Refusal(old(Contents()), Call(transactionId, loanId, phone), world).None?;
      hide Refusal;
      var seen := RowOf(history, transactionId);
      if seen.Some? {
        return Awarded(seen.value.points, seen.value.newScore);
      }
      var loan := loans[loanId];
      var wasCompleted := loan.status == COMPLETED;
      var newAmountPaid := loan.amountPaid + transaction.amount;
      if newAmountPaid > loan.amountDue {
        newAmountPaid := loan.amountDue;
      }
      loan := loan.(amountPaid := newAmountPaid);
      loan := loan.(outstanding := if loan.amountDue - newAmountPaid > 0.0 then loan.amountDue - newAmountPaid else 0.0);
      if loan.outstanding <= 0.0 && loan.status != COMPLETED {
        loan := loan.(status := COMPLETED);
      } else if loan.status == DISBURSED {
        loan := loan.(status := REPAYING);
      }
      loans := loans[loanId := loan];
      assert loan == Repaid(old(loans)[loanId], transaction.amount);
      hide Repaid;

      var user := users[found.value];
      user := user.(totalRepaid := user.totalRepaid + transaction.amount);
      var isFullRepayment := loan.outstanding <= 0.0;
      if isFullRepayment {
        user := user.(repaymentStatus := FULLY);
      } else if loan.amountPaid > 0.0 {
        user := user.(repaymentStatus := PARTLY);
      }
      assert user == Credited(old(users)[found.value], transaction.amount, loan);
      hide Credited;
      var points := Points(transaction.amount, loan.amountDue, Days(loan, transaction), isFullRepayment, world.points);
      assert points == CallPoints(old(Contents()), Call(transactionId, loanId, phone), world);
      hide CallPoints;
      if points <= 0 {
        users := users[found.value := user];
        return Awarded(0, user.creditScore);
      }
      var previousScore := user.creditScore;
      var newScore := previousScore + points;
      if newScore > world.maxScore {
        newScore := world.maxScore;
      }
      user := user.(creditScore := newScore);
      if user.autoLimitEnabled {
        user := user.(creditLimit := E.FromScore(user.totalLoans, newScore, world.terms));
      }
      users := users[found.value := user];
      var reason := if isFullRepayment && !wasCompleted then LOAN_COMPLETED else PARTIAL_REPAYMENT;
      history := history + [HistoryRow(found.value, transactionId, loanId, previousScore, newScore, points, reason)];
      return Awarded(points, newScore);
    }
  }
}
