/** The live-written feature row against the materializer: what the incremental columns of one subscriber
    are worth at any point of any run of deliveries, recoveries, aging and recomputes. */
module LiveRowRefinement {
  import opened Wrappers
  import opened LoanBook
  import opened LoanLifecycle
  import opened IndexedSums
  import V3 = HeuristicV3

  /** The last recompute of subscriber m: the loan table then, and its instant. */
  datatype Start = Start(m: string, loans: seq<Loan>, t0: int)

  /** A run remembers the last recompute, which loans it no longer counted as owed, and which a recovery
      item has closed since. */
  datatype Tracked = Tracked(book: Book, start: Start, closed: set<nat>)

  function NotOwed(loans: seq<Loan>): set<nat> {
    set i: nat | i < |loans| && !Open(loans[i])
  }

  function Begin(b: Book, m: string, t0: int): Tracked {
    Tracked(b, Start(m, b.loans, t0), NotOwed(b.loans))
  }

  predicate Recoverable(b: Book, id: string) {
    var i := Find(b.loans, id);
    i != -1 && b.loans[i].status != RECOVERED
  }

  function NextTracked(t: Tracked, step: Step): Tracked {
    var b := Next(t.book, step);
    if step.Refreshed? && step.msisdn == t.start.m then Begin(b, t.start.m, step.now)
    else if step.ItemRecovered? && Recoverable(t.book, step.item.loanId)
    then Tracked(b, t.start, t.closed + {Find(t.book.loans, step.item.loanId)})
    else Tracked(b, t.start, t.closed)
  }

  function RunTracked(t: Tracked, steps: seq<Step>): Tracked
    decreases |steps|
  {
    if steps == [] then t else RunTracked(NextTracked(t, steps[0]), steps[1..])
  }

  /** Loan i is in the live outstanding amount. */
  predicate Owing(t: Tracked, i: nat) {
    i < |t.book.loans| && t.book.loans[i].msisdn == t.start.m && i !in t.closed
  }

  /** The exact condition for the live columns of m to stay right. A first delivery of a loan of m says
      ISSUED, a later one does not reopen a loan that is closed, and a recovery names m exactly when its
      loan is in the live amount. */
  predicate LiveStep(t: Tracked, step: Step) {
    match step
    case LoanDelivered(p) =>
      var i := Find(t.book.loans, p.loanId);
      if i == -1 then p.msisdn == t.start.m ==> p.status == ISSUED
      else t.book.loans[i].msisdn == t.start.m && i in t.closed ==> !Open(p)
    case ItemRecovered(m, it, _) =>
      Recoverable(t.book, it.loanId) ==> (m == t.start.m <==> Owing(t, Find(t.book.loans, it.loanId)))
    case Aged(_) => true
    case Refreshed(_, _, _, _) => true
  }

  predicate LiveRun(t: Tracked, steps: seq<Step>)
    decreases |steps|
  {
    steps != [] ==> LiveStep(t, steps[0]) && LiveRun(NextTracked(t, steps[0]), steps[1..])
  }

  // ---------------------------------------------------------------- What the live columns count

  /** Kobo of the loans of m that were owed at the recompute, or issued since, and no recovery has closed. */
  function UnclosedWeight(loans: seq<Loan>, closed: set<nat>, m: string): nat -> nat {
    (i: nat) => if i < |loans| && i !in closed && loans[i].msisdn == m then loans[i].repayableKobo else 0
  }

  /** Loans of m issued since the recompute, or inside the window then. */
  function TakenSinceWeight(loans: seq<Loan>, s: Start): nat -> nat {
    (i: nat) => Indicator(i < |loans| && loans[i].msisdn == s.m
                          && (i >= |s.loans| || loans[i].issuedAt > s.t0 - WINDOW_MS))
  }

  /** Not owed at the recompute, without being one of its recoveries. */
  predicate UncountedAtStart(s: Start, i: nat) {
    i < |s.loans| && !Open(s.loans[i])
    && !(s.loans[i].status == RECOVERED && Within(s.loans[i].recoveredAt, s.t0 - WINDOW_MS))
  }

  /** The live recovered count includes loan i. */
  predicate Counted(i: nat, closed: set<nat>, s: Start) {
    i in closed && !UncountedAtStart(s, i)
  }

  function ClosedWeight(loans: seq<Loan>, closed: set<nat>, s: Start): nat -> nat {
    (i: nat) => Indicator(i < |loans| && loans[i].msisdn == s.m && Counted(i, closed, s))
  }

  /** The loan table only grows, and keeps what identifies a loan. */
  predicate Extends(loans: seq<Loan>, s: Start) {
    && |s.loans| <= |loans|
    && forall i | 0 <= i < |s.loans| ::
         loans[i].msisdn == s.loans[i].msisdn && loans[i].issuedAt == s.loans[i].issuedAt
  }

  /** Closed loans exist, those of m are not open, and what was not owed at the start is among them. */
  predicate ClosedAreShut(loans: seq<Loan>, closed: set<nat>, s: Start) {
    && (forall i | i in closed :: i < |loans| && (loans[i].msisdn == s.m ==> !Open(loans[i])))
    && (forall i | 0 <= i < |s.loans| && !Open(s.loans[i]) :: i in closed)
  }

  predicate RowSums(r: Row, loans: seq<Loan>, closed: set<nat>, s: Start) {
    && r.outstandingKobo == SumTo(|loans|, UnclosedWeight(loans, closed, s.m))
    && r.loansTaken180d == SumTo(|loans|, TakenSinceWeight(loans, s))
    && r.loansRecovered180d == SumTo(|loans|, ClosedWeight(loans, closed, s))
  }

  function LiveRow(t: Tracked): Row {
    RowOrDefault(t.book.rows, t.start.m)
  }

  /** The invariant: each live column is the sum it stands for. */
  predicate LiveColumns(t: Tracked) {
    && Extends(t.book.loans, t.start)
    && ClosedAreShut(t.book.loans, t.closed, t.start)
    && RowSums(LiveRow(t), t.book.loans, t.closed, t.start)
  }

  // ---------------------------------------------------------------- The start

  /** The row of m is freshly materialized, or m has neither row nor loan. */
  predicate Fresh(b: Book, m: string, t0: int) {
    if m in b.rows
    then b.rows[m] == Computed(b.loans, m, t0, b.rows[m].daysOnNetwork, b.rows[m].rechargeCount30d)
    else forall i | 0 <= i < |b.loans| :: b.loans[i].msisdn != m
  }

  lemma FreshStartHasLiveColumns(b: Book, m: string, t0: int)
    requires Fresh(b, m, t0)
    ensures LiveColumns(Begin(b, m, t0))
  {
    if m in b.rows {
      FreshUnclosed(b.loans, m);
      FreshCounts(b.loans, m, t0);
    } else {
      NoLoansNoSums(b.loans, m, t0);
    }
    hide SumTo, UnclosedWeight, TakenSinceWeight, ClosedWeight;
  }

  lemma FreshUnclosed(loans: seq<Loan>, m: string)
    ensures SumTo(|loans|, UnclosedWeight(loans, NotOwed(loans), m)) == SumTo(|loans|, OutstandingWeight(loans, m))
  {
    SumCongruent(|loans|, UnclosedWeight(loans, NotOwed(loans), m), OutstandingWeight(loans, m));
  }

  lemma FreshCounts(loans: seq<Loan>, m: string, t0: int)
    ensures var n, s := |loans|, Start(m, loans, t0);
            && SumTo(n, TakenSinceWeight(loans, s)) == SumTo(n, TakenWeight(loans, m, t0))
            && SumTo(n, ClosedWeight(loans, NotOwed(loans), s)) == SumTo(n, RecoveredWeight(loans, m, t0))
  {
    var n, s := |loans|, Start(m, loans, t0);
    SumCongruent(n, TakenSinceWeight(loans, s), TakenWeight(loans, m, t0));
    SumCongruent(n, ClosedWeight(loans, NotOwed(loans), s), RecoveredWeight(loans, m, t0));
  }

  lemma NoLoansNoSums(loans: seq<Loan>, m: string, t0: int)
    requires forall i | 0 <= i < |loans| :: loans[i].msisdn != m
    ensures RowSums(DEFAULT_ROW, loans, NotOwed(loans), Start(m, loans, t0))
  {
    SumZero(|loans|, UnclosedWeight(loans, NotOwed(loans), m));
    SumZero(|loans|, TakenSinceWeight(loans, Start(m, loans, t0)));
    SumZero(|loans|, ClosedWeight(loans, NotOwed(loans), Start(m, loans, t0)));
  }

  // ---------------------------------------------------------------- First deliveries

  lemma AppendUnclosed(l: seq<Loan>, p: Loan, closed: set<nat>, m: string)
    requires |l| !in closed
    ensures SumTo(|l| + 1, UnclosedWeight(l + [p], closed, m))
            == SumTo(|l|, UnclosedWeight(l, closed, m)) + if p.msisdn == m then p.repayableKobo else 0
  {
    SumCongruent(|l|, UnclosedWeight(l, closed, m), UnclosedWeight(l + [p], closed, m));
  }

  lemma AppendTaken(l: seq<Loan>, p: Loan, s: Start)
    requires |s.loans| <= |l|
    ensures SumTo(|l| + 1, TakenSinceWeight(l + [p], s))
            == SumTo(|l|, TakenSinceWeight(l, s)) + Indicator(p.msisdn == s.m)
  {
    SumCongruent(|l|, TakenSinceWeight(l, s), TakenSinceWeight(l + [p], s));
  }

  lemma AppendClosed(l: seq<Loan>, p: Loan, closed: set<nat>, s: Start)
    requires |l| !in closed
    ensures SumTo(|l| + 1, ClosedWeight(l + [p], closed, s)) == SumTo(|l|, ClosedWeight(l, closed, s))
  {
    SumCongruent(|l|, ClosedWeight(l, closed, s), ClosedWeight(l + [p], closed, s));
  }

  lemma FirstDeliverySums(r: Row, l: seq<Loan>, closed: set<nat>, p: Loan, s: Start)
    requires RowSums(r, l, closed, s) && |s.loans| <= |l| && |l| !in closed
    ensures var written := p.msisdn == s.m && p.status == ISSUED;
            RowSums(if written then IssuedRow(r, p.repayableKobo) else r, l + [p], closed, s)
            <==> (p.msisdn == s.m ==> p.status == ISSUED)
  {
    hide SumTo, UnclosedWeight, TakenSinceWeight, ClosedWeight;
    AppendUnclosed(l, p, closed, s.m);
    AppendTaken(l, p, s);
    AppendClosed(l, p, closed, s);
  }

  lemma FirstDeliveryTables(b: Book, p: Loan, m: string)
    requires Find(b.loans, p.loanId) == -1
    ensures Deliver(b, p).loans == b.loans + [p]
    ensures var r := RowOrDefault(b.rows, m);
            RowOrDefault(Deliver(b, p).rows, m)
            == if p.msisdn == m && p.status == ISSUED then IssuedRow(r, p.repayableKobo) else r
  {
  }

  lemma AppendStructure(l: seq<Loan>, p: Loan, closed: set<nat>, s: Start)
    requires Extends(l, s) && ClosedAreShut(l, closed, s)
    ensures |l| !in closed && Extends(l + [p], s) && ClosedAreShut(l + [p], closed, s)
  {
  }

  lemma FirstDeliveryKeepsLiveColumns(t: Tracked, p: Loan)
    requires LiveColumns(t) && Find(t.book.loans, p.loanId) == -1
    ensures LiveColumns(NextTracked(t, LoanDelivered(p))) <==> LiveStep(t, LoanDelivered(p))
  {
    FirstDeliveryTables(t.book, p, t.start.m);
    AppendStructure(t.book.loans, p, t.closed, t.start);
    FirstDeliverySums(LiveRow(t), t.book.loans, t.closed, p, t.start);
    hide RowSums, Extends, ClosedAreShut, Deliver, Find, RowOrDefault;
  }

  // ---------------------------------------------------------------- Quiet steps

  /** l' is l up to statuses and recovery dates. */
  predicate SameLoans(l: seq<Loan>, l': seq<Loan>) {
    && |l'| == |l|
    && forall i | 0 <= i < |l| ::
         l'[i].msisdn == l[i].msisdn && l'[i].repayableKobo == l[i].repayableKobo && l'[i].issuedAt == l[i].issuedAt
  }

  lemma SameLoansSameSums(l: seq<Loan>, l': seq<Loan>, closed: set<nat>, s: Start)
    requires SameLoans(l, l')
    ensures SumTo(|l|, UnclosedWeight(l', closed, s.m)) == SumTo(|l|, UnclosedWeight(l, closed, s.m))
    ensures SumTo(|l|, TakenSinceWeight(l', s)) == SumTo(|l|, TakenSinceWeight(l, s))
    ensures SumTo(|l|, ClosedWeight(l', closed, s)) == SumTo(|l|, ClosedWeight(l, closed, s))
  {
    SumCongruent(|l|, UnclosedWeight(l, closed, s.m), UnclosedWeight(l', closed, s.m));
    SumCongruent(|l|, TakenSinceWeight(l, s), TakenSinceWeight(l', s));
    SumCongruent(|l|, ClosedWeight(l, closed, s), ClosedWeight(l', closed, s));
  }

  predicate SameColumns(r: Row, r': Row) {
    && r'.outstandingKobo == r.outstandingKobo && r'.loansTaken180d == r.loansTaken180d
    && r'.loansRecovered180d == r.loansRecovered180d
  }

  /** A step that moves neither loans nor columns keeps the invariant unless it reopens a closed loan. */
  lemma QuietStep(t: Tracked, t': Tracked)
    requires LiveColumns(t) && t'.closed == t.closed && t'.start == t.start
    requires SameLoans(t.book.loans, t'.book.loans) && SameColumns(LiveRow(t), LiveRow(t'))
    ensures LiveColumns(t') <==> ClosedAreShut(t'.book.loans, t.closed, t.start)
  {
    SameLoansSameSums(t.book.loans, t'.book.loans, t.closed, t.start);
    hide SumTo, UnclosedWeight, TakenSinceWeight, ClosedWeight, ClosedAreShut, LiveRow;
  }

  lemma RedeliveryKeepsLiveColumns(t: Tracked, p: Loan)
    requires LiveColumns(t) && Find(t.book.loans, p.loanId) != -1
    ensures LiveColumns(NextTracked(t, LoanDelivered(p))) <==> LiveStep(t, LoanDelivered(p))
  {
    var t', i := NextTracked(t, LoanDelivered(p)), Find(t.book.loans, p.loanId);
    assert t'.book.loans[i].status == p.status;
    assert forall j | 0 <= j < |t.book.loans| && j != i :: t'.book.loans[j] == t.book.loans[j];
    QuietStep(t, t');
    hide RowSums, Find;
  }

  lemma AgingKeepsLiveColumns(t: Tracked, now: int)
    requires LiveColumns(t)
    ensures LiveColumns(NextTracked(t, Aged(now)))
  {
    AgingReachesItsGoal(t.book, now);
    QuietStep(t, NextTracked(t, Aged(now)));
    hide RowSums, Age;
  }

  // ---------------------------------------------------------------- Recoveries

  /** The clamp at 0 never bites: a loan in the live amount can be taken off it. */
  lemma ClampNeverBites(t: Tracked, i: nat)
    requires LiveColumns(t) && Owing(t, i)
    ensures LiveRow(t).outstandingKobo >= t.book.loans[i].repayableKobo
  {
    TermAtMostSum(|t.book.loans|, UnclosedWeight(t.book.loans, t.closed, t.start.m), i);
  }

  lemma CloseUnclosed(l: seq<Loan>, l': seq<Loan>, closed: set<nat>, i: nat, m: string)
    requires SameLoans(l, l') && i < |l|
    ensures SumTo(|l|, UnclosedWeight(l', closed + {i}, m))
            == SumTo(|l|, UnclosedWeight(l, closed, m))
               - if l[i].msisdn == m && i !in closed then l[i].repayableKobo else 0
  {
    SumChangedAt(|l|, UnclosedWeight(l, closed, m), UnclosedWeight(l', closed + {i}, m), i);
  }

  lemma CloseClosed(l: seq<Loan>, l': seq<Loan>, closed: set<nat>, i: nat, s: Start)
    requires SameLoans(l, l') && i < |l| && ClosedAreShut(l, closed, s)
    ensures SumTo(|l|, ClosedWeight(l', closed + {i}, s))
            == SumTo(|l|, ClosedWeight(l, closed, s)) + Indicator(l[i].msisdn == s.m && i !in closed)
  {
    SumChangedAt(|l|, ClosedWeight(l, closed, s), ClosedWeight(l', closed + {i}, s), i);
  }

  lemma RecoveryTables(b: Book, m: string, it: Item, at: int, n: string)
    requires Recoverable(b, it.loanId)
    ensures var b', i := RecoverItem(b, m, it, at), Find(b.loans, it.loanId);
            var r, r', was := RowOrDefault(b.rows, n), RowOrDefault(b'.rows, n), b.loans[i];
            && SameLoans(b.loans, b'.loans) && b'.loans[i].status == RECOVERED
            && (forall j | 0 <= j < |b.loans| && j != i :: b'.loans[j] == b.loans[j])
            && r'.loansTaken180d == r.loansTaken180d
            && r'.loansRecovered180d == r.loansRecovered180d + Indicator(m == n)
            && r'.outstandingKobo == if m != n then r.outstandingKobo
                                     else if r.outstandingKobo >= was.repayableKobo
                                     then r.outstandingKobo - was.repayableKobo else 0
  {
  }

  lemma CloseStructure(l: seq<Loan>, l': seq<Loan>, closed: set<nat>, i: nat, s: Start)
    requires Extends(l, s) && ClosedAreShut(l, closed, s) && SameLoans(l, l')
    requires i < |l| && l'[i].status == RECOVERED && forall j | 0 <= j < |l| && j != i :: l'[j] == l[j]
    ensures Extends(l', s) && ClosedAreShut(l', closed + {i}, s)
  {
  }

  /** What a recovery does to the outstanding amount, whoever it names. It still is the sum of the loans not
      closed if and only if the amount came off exactly when the loan was in that sum, or is nothing, or
      there was nothing to take it off. So a recovery that cures a default of the start, whose amount the
      recomputed row had dropped, undercounts unless that amount or the live one is 0; and one that names
      another subscriber leaves a paid loan owed. */
  lemma RecoveryKeepsOutstandingExactlyWhen(t: Tracked, m: string, it: Item, at: int)
    requires LiveColumns(t) && Recoverable(t.book, it.loanId)
    ensures var t', i := NextTracked(t, ItemRecovered(m, it, at)), Find(t.book.loans, it.loanId);
            LiveRow(t').outstandingKobo
            == SumTo(|t'.book.loans|, UnclosedWeight(t'.book.loans, t'.closed, t.start.m))
            <==>
            || (m == t.start.m <==> Owing(t, i))
            || t.book.loans[i].repayableKobo == 0 || (m == t.start.m && LiveRow(t).outstandingKobo == 0)
  {
    var t', i := NextTracked(t, ItemRecovered(m, it, at)), Find(t.book.loans, it.loanId);
    AfterRecovery(t, m, it, at);
    hide SumTo, LiveColumns, UnclosedWeight, NextTracked, RecoverItem, RowOrDefault;
    if Owing(t, i) {
      ClampNeverBites(t, i);
    }
    LiveIsUnclosedSum(t);
    RecoveryTables(t.book, m, it, at, t.start.m);
    CloseUnclosed(t.book.loans, t'.book.loans, t.closed, i, t.start.m);
  }

  lemma AfterRecovery(t: Tracked, m: string, it: Item, at: int)
    requires Recoverable(t.book, it.loanId)
    ensures NextTracked(t, ItemRecovered(m, it, at))
            == Tracked(RecoverItem(t.book, m, it, at), t.start, t.closed + {Find(t.book.loans, it.loanId)})
  {
  }

  lemma LiveIsUnclosedSum(t: Tracked)
    requires LiveColumns(t)
    ensures LiveRow(t).outstandingKobo == SumTo(|t.book.loans|, UnclosedWeight(t.book.loans, t.closed, t.start.m))
  {
  }

  lemma RecoveryKeepsLiveColumns(t: Tracked, m: string, it: Item, at: int)
    requires LiveColumns(t) && Recoverable(t.book, it.loanId)
    ensures LiveColumns(NextTracked(t, ItemRecovered(m, it, at))) <==> LiveStep(t, ItemRecovered(m, it, at))
  {
    var t', i := NextTracked(t, ItemRecovered(m, it, at)), Find(t.book.loans, it.loanId);
    var l, l' := t.book.loans, t'.book.loans;
    AfterRecovery(t, m, it, at);
    RecoveryKeepsOutstandingExactlyWhen(t, m, it, at);
    hide NextTracked, RecoverItem, RowOrDefault;
    RecoveryTables(t.book, m, it, at, t.start.m);
    CloseStructure(l, l', t.closed, i, t.start);
    CloseClosed(l, l', t.closed, i, t.start);
    SameLoansSameSums(l, l', t.closed, t.start);
    hide SumTo, UnclosedWeight, TakenSinceWeight, ClosedWeight, Extends, ClosedAreShut, Find, SameLoans;
  }

  // ---------------------------------------------------------------- Every step and every run

  /** The condition on steps is the weakest: from right columns exactly these steps lead to right columns. */
  lemma StepKeepsLiveColumnsExactlyWhen(t: Tracked, step: Step)
    requires LiveColumns(t)
    ensures LiveColumns(NextTracked(t, step)) <==> LiveStep(t, step)
  {
    hide LiveColumns, Deliver, RecoverItem, Age;
    match step {
      case LoanDelivered(p) =>
        if Find(t.book.loans, p.loanId) == -1 {
          FirstDeliveryKeepsLiveColumns(t, p);
        } else {
          RedeliveryKeepsLiveColumns(t, p);
        }
      case ItemRecovered(m, it, at) =>
        if Recoverable(t.book, it.loanId) {
          RecoveryKeepsLiveColumns(t, m, it, at);
        } else {
          SkippedItemKeepsLiveColumns(t, m, it, at);
        }
      case Aged(now) => AgingKeepsLiveColumns(t, now);
      case Refreshed(m, now, days, recharges) => RefreshKeepsLiveColumns(t, m, now, days, recharges);
    }
  }

  lemma SkippedItemKeepsLiveColumns(t: Tracked, m: string, it: Item, at: int)
    requires LiveColumns(t) && !Recoverable(t.book, it.loanId)
    ensures LiveColumns(NextTracked(t, ItemRecovered(m, it, at)))
  {
    QuietStep(t, NextTracked(t, ItemRecovered(m, it, at)));
    hide RowSums, Find;
  }

  lemma RefreshKeepsLiveColumns(t: Tracked, m: string, now: int, days: nat, recharges: nat)
    requires LiveColumns(t)
    ensures LiveColumns(NextTracked(t, Refreshed(m, now, days, recharges)))
  {
    var t' := NextTracked(t, Refreshed(m, now, days, recharges));
    if m == t.start.m {
      assert Fresh(t'.book, m, now);
      FreshStartHasLiveColumns(t'.book, m, now);
    } else {
      QuietStep(t, t');
    }
    hide RowSums, Computed;
  }

  lemma {:induction false} RunKeepsLiveColumns(t: Tracked, steps: seq<Step>)
    requires LiveColumns(t) && LiveRun(t, steps)
    ensures LiveColumns(RunTracked(t, steps)) && RunTracked(t, steps).start.m == t.start.m
    ensures RunTracked(t, steps).book == Run(t.book, steps)
    decreases |steps|
  {
    hide LiveColumns, LiveStep, Next;
    if steps != [] {
      StepKeepsLiveColumnsExactlyWhen(t, steps[0]);
      RunKeepsLiveColumns(NextTracked(t, steps[0]), steps[1..]);
    }
  }

  // ---------------------------------------------------------------- Against the recompute

  /** Loan i left the open states since the recompute without a recovery item: by aging, or by a delivery. */
  predicate ShutOtherwise(t: Tracked, i: nat) {
    Owing(t, i) && !Open(t.book.loans[i])
  }

  function Recomputed(t: Tracked): nat {
    SumTo(|t.book.loans|, OutstandingWeight(t.book.loans, t.start.m))
  }

  /** The live outstanding amount is the sum of the loans neither shut at the last recompute nor closed by a
      recovery since. It never falls below a recompute made now, and equals it exactly when every loan that
      was shut otherwise is worth nothing. */
  lemma OutstandingAgainstRecompute(b: Book, steps: seq<Step>, m: string, t0: int)
    requires Fresh(b, m, t0) && LiveRun(Begin(b, m, t0), steps)
    ensures var t := RunTracked(Begin(b, m, t0), steps);
            var live := RowOrDefault(Run(b, steps).rows, m).outstandingKobo;
            && t.book == Run(b, steps)
            && live == SumTo(|t.book.loans|, UnclosedWeight(t.book.loans, t.closed, m))
            && SumTo(|t.book.loans|, OutstandingWeight(t.book.loans, m)) <= live
            && (live == SumTo(|t.book.loans|, OutstandingWeight(t.book.loans, m)) <==>
                  forall i: nat | ShutOtherwise(t, i) :: t.book.loans[i].repayableKobo == 0)
  {
    FreshStartHasLiveColumns(b, m, t0);
    RunKeepsLiveColumns(Begin(b, m, t0), steps);
    RecomputeBelowLive(RunTracked(Begin(b, m, t0), steps));
    hide SumTo, UnclosedWeight, OutstandingWeight, RunTracked, Run;
  }

  lemma RecomputeBelowLive(t: Tracked)
    requires LiveColumns(t)
    ensures Recomputed(t) <= LiveRow(t).outstandingKobo
    ensures LiveRow(t).outstandingKobo == Recomputed(t) <==>
              forall i: nat | ShutOtherwise(t, i) :: t.book.loans[i].repayableKobo == 0
  {
    var loans := t.book.loans;
    var v, w := OutstandingWeight(loans, t.start.m), UnclosedWeight(loans, t.closed, t.start.m);
    forall i: nat | i < |loans|
      ensures v(i) <= w(i)
      ensures v(i) == w(i) <==> (ShutOtherwise(t, i) ==> loans[i].repayableKobo == 0)
    {
    }
    SumMono(|loans|, v, w);
  }

  /** So a borrower is never lent to on top of an open loan: over every such run from an empty database,
      recomputes included, whoever has an open loan of any amount reads a row that scores a limit of 0. */
  lemma OpenBorrowerIsOfferedNothing(steps: seq<Step>, m: string, i: nat, blacklisted: bool, disbursed24h: real,
                                     checks1h: nat, r: V3.Request, e: real, c: V3.Config, k: V3.Curves)
    requires V3.ValidConfig(c) && LiveRun(Begin(Book([], [], map[]), m, 0), steps)
    requires var loans := Run(Book([], [], map[]), steps).loans;
             i < |loans| && loans[i].msisdn == m && Open(loans[i]) && loans[i].repayableKobo > 0
    ensures var b := Run(Book([], [], map[]), steps);
            var f := Read(b, m, blacklisted, disbursed24h, checks1h);
            f.ourOutstandingKobo >= b.loans[i].repayableKobo && V3.ScoreV3(f, r, e, c, k).finalLimitNaira == 0
  {
    var b0 := Book([], [], map[]);
    OutstandingAgainstRecompute(b0, steps, m, 0);
    var b := Run(b0, steps);
    TermAtMostSum(|b.loans|, OutstandingWeight(b.loans, m), i);
    hide SumTo, UnclosedWeight, LiveRun, RunTracked, Run;
  }

  /** The taken count never falls below the recompute, and equals it exactly while no counted loan has left
      the 180-day window. */
  lemma TakenAgainstRecompute(b: Book, steps: seq<Step>, m: string, t0: int, now: int)
    requires Fresh(b, m, t0) && LiveRun(Begin(b, m, t0), steps)
    requires RunTracked(Begin(b, m, t0), steps).start.t0 <= now
    ensures var loans, live := Run(b, steps).loans, RowOrDefault(Run(b, steps).rows, m).loansTaken180d;
            var s := RunTracked(Begin(b, m, t0), steps).start;
            var recomputed := SumTo(|loans|, TakenWeight(loans, m, now));
            && recomputed <= live
            && (live == recomputed <==>
                  forall i: nat | i < |loans| && TakenSinceWeight(loans, s)(i) == 1 ::
                    loans[i].issuedAt > now - WINDOW_MS)
  {
    FreshStartHasLiveColumns(b, m, t0);
    RunKeepsLiveColumns(Begin(b, m, t0), steps);
    TakenBelowSince(Run(b, steps).loans, RunTracked(Begin(b, m, t0), steps).start, now);
    hide SumTo, TakenWeight, TakenSinceWeight, RunTracked, Run;
  }

  lemma TakenBelowSince(loans: seq<Loan>, s: Start, now: int)
    requires Extends(loans, s) && s.t0 <= now
    ensures var v, w := SumTo(|loans|, TakenWeight(loans, s.m, now)), SumTo(|loans|, TakenSinceWeight(loans, s));
            && v <= w
            && (w == v <==> forall i: nat | i < |loans| && TakenSinceWeight(loans, s)(i) == 1 ::
                              loans[i].issuedAt > now - WINDOW_MS)
  {
    var v, w := TakenWeight(loans, s.m, now), TakenSinceWeight(loans, s);
    forall i: nat | i < |loans|
      ensures v(i) <= w(i)
      ensures v(i) == w(i) <==> (w(i) == 1 ==> loans[i].issuedAt > now - WINDOW_MS)
    {
    }
    SumMono(|loans|, v, w);
  }

  /** A loan of m that the recompute counts as recovered. */
  predicate RecoveredLately(t: Tracked, i: nat, now: int) {
    && i < |t.book.loans| && t.book.loans[i].msisdn == t.start.m
    && t.book.loans[i].status == RECOVERED && Within(t.book.loans[i].recoveredAt, now - WINDOW_MS)
  }

  /** Recovered otherwise than by a recovery item: the live column misses it. */
  function MissedWeight(t: Tracked, now: int): nat -> nat {
    (i: nat) => Indicator(RecoveredLately(t, i, now) && !Counted(i, t.closed, t.start))
  }

  /** Recovered by an item and since out of the window, or out of the status: the live column keeps it. */
  function LapsedWeight(t: Tracked, now: int): nat -> nat {
    (i: nat) => Indicator(i < |t.book.loans| && t.book.loans[i].msisdn == t.start.m
                          && Counted(i, t.closed, t.start) && !RecoveredLately(t, i, now))
  }

  /** The recovered count differs from the recompute by exactly two things: it misses the recoveries no item
      has made, and keeps those that have lapsed. It equals the recompute if and only if there are as many
      of the one as of the other. */
  lemma RecoveredAgainstRecompute(b: Book, steps: seq<Step>, m: string, t0: int, now: int)
    requires Fresh(b, m, t0) && LiveRun(Begin(b, m, t0), steps)
    ensures var t := RunTracked(Begin(b, m, t0), steps);
            var n, live := |t.book.loans|, RowOrDefault(Run(b, steps).rows, m).loansRecovered180d;
            && t.book == Run(b, steps)
            && live + SumTo(n, MissedWeight(t, now))
               == SumTo(n, RecoveredWeight(t.book.loans, m, now)) + SumTo(n, LapsedWeight(t, now))
  {
    FreshStartHasLiveColumns(b, m, t0);
    RunKeepsLiveColumns(Begin(b, m, t0), steps);
    RecoveredCountsBalance(RunTracked(Begin(b, m, t0), steps), now);
    hide SumTo, MissedWeight, LapsedWeight, RecoveredWeight, ClosedWeight, RunTracked, Run, LiveRun;
  }

  lemma RecoveredCountsBalance(t: Tracked, now: int)
    ensures var n := |t.book.loans|;
            SumTo(n, ClosedWeight(t.book.loans, t.closed, t.start)) + SumTo(n, MissedWeight(t, now))
            == SumTo(n, RecoveredWeight(t.book.loans, t.start.m, now)) + SumTo(n, LapsedWeight(t, now))
  {
    SumBalanced(|t.book.loans|, ClosedWeight(t.book.loans, t.closed, t.start), MissedWeight(t, now),
                RecoveredWeight(t.book.loans, t.start.m, now), LapsedWeight(t, now));
  }

  // ---------------------------------------------------------------- Cured defaults

  function RecomputedCured(loans: seq<Loan>, m: string): nat {
    SumTo(|loans|, CuredWeight(loans, m))
  }

  function RecomputedCuredLately(loans: seq<Loan>, m: string, now: int): nat {
    SumTo(|loans|, CuredRecentWeight(loans, m, now))
  }

  /** A recovery of a loan of m by m's payload moves both live cured counts by one when the loan was in
      default, and both recomputed counts by one when it comes more than 30 days after the issue. So live and
      recompute move alike if and only if those two say the same. */
  lemma CuredCountsMoveAlikeExactlyWhen(b: Book, m: string, it: Item, at: int)
    requires Recoverable(b, it.loanId) && b.loans[Find(b.loans, it.loanId)].msisdn == m
    ensures var l, b' := b.loans[Find(b.loans, it.loanId)], RecoverItem(b, m, it, at);
            var r, r' := RowOrDefault(b.rows, m), RowOrDefault(b'.rows, m);
            var late := l.issuedAt < at - 30 * DAY_MS;
            && r'.curedDefaultsLifetime == r.curedDefaultsLifetime + (if l.status == DEFAULTED then 1 else 0)
            && r'.curedDefaults180d == r.curedDefaults180d + (if l.status == DEFAULTED then 1 else 0)
            && RecomputedCured(b'.loans, m) == RecomputedCured(b.loans, m) + (if late then 1 else 0)
            && RecomputedCuredLately(b'.loans, m, at) == RecomputedCuredLately(b.loans, m, at) + (if late then 1 else 0)
            && (r'.curedDefaultsLifetime - r.curedDefaultsLifetime
                == RecomputedCured(b'.loans, m) - RecomputedCured(b.loans, m)
                <==> (l.status == DEFAULTED <==> late))
  {
    var i := Find(b.loans, it.loanId);
    var loans' := RecoverItem(b, m, it, at).loans;
    assert loans'[i] == b.loans[i].(status := RECOVERED, recoveredAt := Some(at));
    SumChangedAt(|b.loans|, CuredWeight(b.loans, m), CuredWeight(loans', m), i);
    SumChangedAt(|b.loans|, CuredRecentWeight(b.loans, m, at), CuredRecentWeight(loans', m, at), i);
    assert CuredWeight(b.loans, m)(i) == 0 && CuredRecentWeight(b.loans, m, at)(i) == 0;
    hide SumTo;
  }

  // ---------------------------------------------------------------- Steps outside the condition

  /** Whatever is delivered again, and whatever state it meets, the row stays as it is. A recompute then
      stays within the live amount if and only if the amounts it would gain and lose fit. */
  lemma RedeliveryKeepsBoundExactlyWhen(b: Book, p: Loan)
    requires Find(b.loans, p.loanId) != -1
    ensures var l, b' := b.loans[Find(b.loans, p.loanId)], Deliver(b, p);
            var live := RowOrDefault(b.rows, l.msisdn).outstandingKobo;
            var owed := SumTo(|b.loans|, OutstandingWeight(b.loans, l.msisdn));
            && RowOrDefault(b'.rows, l.msisdn) == RowOrDefault(b.rows, l.msisdn)
            && (SumTo(|b'.loans|, OutstandingWeight(b'.loans, l.msisdn)) <= live
                <==> owed + (if Open(p) then l.repayableKobo else 0)
                     <= live + (if Open(l) then l.repayableKobo else 0))
  {
    var i := Find(b.loans, p.loanId);
    var l, loans' := b.loans[i], Deliver(b, p).loans;
    assert loans'[i] == l.(status := p.status, recoveredAt := p.recoveredAt);
    SumChangedAt(|b.loans|, OutstandingWeight(b.loans, l.msisdn), OutstandingWeight(loans', l.msisdn), i);
  }

  /** An instance Airtel's retries can produce: a loan is delivered, recovered, and delivered once more. The
      default flag is right all along, but the loan is open again and the row shows nothing owed. */
  lemma ReopenedLoanShowsNothingOwed(p: Loan, it: Item, at: int)
    requires p.status == ISSUED && p.recoveredAt == None && it.loanId == p.loanId
    ensures var b := Deliver(RecoverItem(Deliver(Book([], [], map[]), p), p.msisdn, it, at), p);
            && FlagsHold(b) && b.loans == [p] && b.rows[p.msisdn].outstandingKobo == 0
            && SumTo(1, OutstandingWeight(b.loans, p.msisdn)) == p.repayableKobo
  {
    var b0 := Book([], [], map[]);
    assert Find([], p.loanId) == -1;
    var b1 := Deliver(b0, p);
    assert b1.loans == [p] && Find([p], p.loanId) == 0;
    var b2 := RecoverItem(b1, p.msisdn, it, at);
    var q := p.(status := RECOVERED, recoveredAt := Some(at));
    assert b2.loans == [q] && Find([q], p.loanId) == 0;
    var b := Deliver(b2, p);
    assert b.loans == [p];
    assert SumTo(0, OutstandingWeight([p], p.msisdn)) == 0;
    assert OutstandingWeight([p], p.msisdn)(0) == p.repayableKobo;
  }

  /** An instance: an open default's amount is not in the recomputed row, so curing it eats the amount of a
      loan issued since, the clamp bites, and an open loan shows as 0 owed. */
  lemma CuringAnOldDefaultUndercounts(t: int)
    ensures var old_, new_ := Loan("L0", "m", 10000, DEFAULTED, t - 40 * DAY_MS, None),
                              Loan("L1", "m", 5000, ISSUED, t, None);
            var b := Book([old_], [], map["m" := Computed([old_], "m", t, 0, 0)]);
            var steps := [LoanDelivered(new_), ItemRecovered("m", Item("R0", "L0", 10000), t)];
            && AllowedRun(b, steps)
            && RowOrDefault(Run(b, steps).rows, "m").outstandingKobo == 0
            && SumTo(2, OutstandingWeight(Run(b, steps).loans, "m")) == 5000
  {
    var l0, l1 := Loan("L0", "m", 10000, DEFAULTED, t - 40 * DAY_MS, None), Loan("L1", "m", 5000, ISSUED, t, None);
    var b := Book([l0], [], map["m" := Computed([l0], "m", t, 0, 0)]);
    var s0, s1 := LoanDelivered(l1), ItemRecovered("m", Item("R0", "L0", 10000), t);
    SumZero(1, OutstandingWeight([l0], "m"));
    var b1 := IssuedAfterDefault(b, l0, l1);
    assert Find(b1.loans, "L0") == 0;
    TwoSteps(b, s0, s1);
    OneOpenLoan(l0.(status := RECOVERED, recoveredAt := Some(t)), l1);
    assert Next(b1, s1).loans == [l0.(status := RECOVERED, recoveredAt := Some(t)), l1];
  }

  lemma IssuedAfterDefault(b: Book, l0: Loan, l1: Loan) returns (b1: Book)
    requires b.loans == [l0] && l0.loanId == "L0" && l1.loanId == "L1" && l1.status == ISSUED
    requires l1.msisdn in b.rows && b.rows[l1.msisdn].outstandingKobo == 0
    ensures b1 == Deliver(b, l1) && b1.loans == [l0, l1] && Allowed(b, LoanDelivered(l1))
    ensures l1.msisdn in b1.rows && b1.rows[l1.msisdn].outstandingKobo == l1.repayableKobo
  {
    assert [l0][..0] == [];
    assert Find([l0], "L1") == -1;
    b1 := Deliver(b, l1);
  }

  lemma OneOpenLoan(closed: Loan, open: Loan)
    requires closed.status == RECOVERED && open.status == ISSUED
    ensures SumTo(2, OutstandingWeight([closed, open], open.msisdn)) == open.repayableKobo
  {
    var w := OutstandingWeight([closed, open], open.msisdn);
    assert w(0) == 0 && w(1) == open.repayableKobo && SumTo(0, w) == 0;
    assert SumTo(1, w) == 0;
  }

  lemma TwoSteps(b: Book, s0: Step, s1: Step)
    ensures Run(b, [s0, s1]) == Next(Next(b, s0), s1)
    ensures AllowedRun(b, [s0, s1]) <==> Allowed(b, s0) && Allowed(Next(b, s0), s1)
  {
    assert [s0, s1][1..] == [s1] && [s1][1..] == [];
    assert Run(Next(b, s0), [s1]) == Run(Next(Next(b, s0), s1), []);
    assert AllowedRun(Next(b, s0), [s1]) <==> Allowed(Next(b, s0), s1) && AllowedRun(Next(Next(b, s0), s1), []);
  }
}
