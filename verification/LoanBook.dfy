/** The loan, recovery-item and feature-row tables, and the four jobs that change them: loan
    deliveries, recovery items, the hourly aging run and the feature-row recompute.
    Instants are milliseconds and money is kobo. */
module LoanBook {
  import opened Wrappers
  import opened IndexedSums

  const DAY_MS := 24 * 60 * 60 * 1000
  const DEFAULT_AFTER_MS := 30 * DAY_MS
  const WINDOW_MS := 180 * DAY_MS

  datatype Status = ISSUED | PARTIAL | RECOVERED | DEFAULTED

  datatype Loan = Loan(
    loanId: string,
    msisdn: string,
    repayableKobo: nat,
    status: Status,
    issuedAt: int,
    recoveredAt: Option<int>)

  datatype Item = Item(recoveryId: string, loanId: string, appliedKobo: int)

  datatype Row = Row(
    daysOnNetwork: nat,
    rechargeCount30d: nat,
    loansTaken180d: nat,
    loansRecovered180d: nat,
    curedDefaults180d: nat,
    curedDefaultsLifetime: nat,
    uncuredDefaultExists: bool,
    outstandingKobo: nat)

  /** The column defaults of csdp_subscriber_feature_row. */
  const DEFAULT_ROW := Row(0, 0, 0, 0, 0, 0, false, 0)

  datatype Book = Book(loans: seq<Loan>, items: seq<Item>, rows: map<string, Row>)

  predicate Open(l: Loan) {
    l.status == ISSUED || l.status == PARTIAL
  }

  predicate HasDefault(loans: seq<Loan>, m: string) {
    exists i :: 0 <= i < |loans| && loans[i].msisdn == m && loans[i].status == DEFAULTED
  }

  predicate UniqueIds(loans: seq<Loan>) {
    forall i, j :: 0 <= i < j < |loans| ==> loans[i].loanId != loans[j].loanId
  }

  function Find(loans: seq<Loan>, id: string): (i: int)
    ensures i == -1 ==> forall j | 0 <= j < |loans| :: loans[j].loanId != id
    ensures i != -1 ==> 0 <= i < |loans| && loans[i].loanId == id
  {
    if loans == [] then -1
    else if loans[|loans| - 1].loanId == id then |loans| - 1
    else Find(loans[..|loans| - 1], id)
  }

  function RowOrDefault(rows: map<string, Row>, m: string): Row {
    if m in rows then rows[m] else DEFAULT_ROW
  }

  // ---------------------------------------------------------------- Materializer

  function Indicator(b: bool): nat {
    if b then 1 else 0
  }

  predicate Within(at: Option<int>, from: int) {
    at.Some? && at.value > from
  }

  predicate CuredLate(l: Loan) {
    l.status == RECOVERED && l.recoveredAt.Some? && l.issuedAt < l.recoveredAt.value - DEFAULT_AFTER_MS
  }

  function OutstandingWeight(loans: seq<Loan>, m: string): nat -> nat {
    (i: nat) => if i < |loans| && loans[i].msisdn == m && Open(loans[i]) then loans[i].repayableKobo else 0
  }

  function TakenWeight(loans: seq<Loan>, m: string, now: int): nat -> nat {
    (i: nat) => Indicator(i < |loans| && loans[i].msisdn == m && loans[i].issuedAt > now - WINDOW_MS)
  }

  function RecoveredWeight(loans: seq<Loan>, m: string, now: int): nat -> nat {
    (i: nat) => Indicator(i < |loans| && loans[i].msisdn == m && loans[i].status == RECOVERED
                          && Within(loans[i].recoveredAt, now - WINDOW_MS))
  }

  function CuredWeight(loans: seq<Loan>, m: string): nat -> nat {
    (i: nat) => Indicator(i < |loans| && loans[i].msisdn == m && CuredLate(loans[i]))
  }

  function CuredRecentWeight(loans: seq<Loan>, m: string, now: int): nat -> nat {
    (i: nat) => Indicator(i < |loans| && loans[i].msisdn == m && CuredLate(loans[i])
                          && Within(loans[i].recoveredAt, now - WINDOW_MS))
  }

  /** computedColumnsSql for one subscriber. The two footprint columns come from tables that the
      other jobs never touch, and are passed in. */
  function Computed(loans: seq<Loan>, m: string, now: int, days: nat, recharges: nat): Row {
    var n := |loans|;
    Row(days, recharges,
        SumTo(n, TakenWeight(loans, m, now)),
        SumTo(n, RecoveredWeight(loans, m, now)),
        SumTo(n, CuredRecentWeight(loans, m, now)),
        SumTo(n, CuredWeight(loans, m)),
        HasDefault(loans, m),
        SumTo(n, OutstandingWeight(loans, m)))
  }

  function Refresh(b: Book, m: string, now: int, days: nat, recharges: nat): Book {
    b.(rows := b.rows[m := Computed(b.loans, m, now, days, recharges)])
  }

  /** The windows end where the source ends them: exactly 180 days ago is out, exactly 30 days old is neither
      overdue nor, once recovered, a cured default. */
  lemma WindowEdges(l: Loan, now: int)
    ensures Within(l.recoveredAt, now - WINDOW_MS) <==> l.recoveredAt.Some? && now - l.recoveredAt.value < 180 * DAY_MS
    ensures TakenWeight([l], l.msisdn, now)(0) == if now - l.issuedAt < 180 * DAY_MS then 1 else 0
    ensures CuredLate(l) <==> l.status == RECOVERED && l.recoveredAt.Some? && l.recoveredAt.value - l.issuedAt > 30 * DAY_MS
    ensures Overdue(l, now) <==> (l.status == ISSUED || l.status == PARTIAL) && now - l.issuedAt > 30 * DAY_MS
  {
  }

  // ---------------------------------------------------------------- Live writer

  function IssuedRow(r: Row, repayableKobo: nat): Row {
    r.(loansTaken180d := r.loansTaken180d + 1, outstandingKobo := r.outstandingKobo + repayableKobo)
  }

  function RecoveredRow(r: Row, repayableKobo: nat, wasDefaulted: bool): Row {
    r.(loansRecovered180d := r.loansRecovered180d + 1,
       outstandingKobo := if r.outstandingKobo >= repayableKobo then r.outstandingKobo - repayableKobo else 0,
       curedDefaults180d := r.curedDefaults180d + Indicator(wasDefaulted),
       curedDefaultsLifetime := r.curedDefaultsLifetime + Indicator(wasDefaulted))
  }

  // ---------------------------------------------------------------- Loan deliveries and recovery items

  /** One delivered loan notification: the upsert of csdp_loan, and the live write when it is the first
      delivery of an ISSUED loan. A later delivery overwrites status and recovered_at only. */
  function Deliver(b: Book, p: Loan): Book {
    var i := Find(b.loans, p.loanId);
    if i == -1 then
      b.(loans := b.loans + [p],
         rows := if p.status == ISSUED
                 then b.rows[p.msisdn := IssuedRow(RowOrDefault(b.rows, p.msisdn), p.repayableKobo)]
                 else b.rows)
    else
      b.(loans := b.loans[i := b.loans[i].(status := p.status, recoveredAt := p.recoveredAt)])
  }

  predicate ItemKnown(items: seq<Item>, it: Item) {
    exists k :: 0 <= k < |items| && items[k].recoveryId == it.recoveryId && items[k].loanId == it.loanId
  }

  function AddItem(items: seq<Item>, it: Item): seq<Item> {
    if ItemKnown(items, it) then items else items + [it]
  }

  /** The row of m after the recovery of loan i, once the loan table already says RECOVERED. */
  function RecoveryRow(r: Row, was: Loan, loans: seq<Loan>, m: string): Row {
    var r' := RecoveredRow(r, was.repayableKobo, was.status == DEFAULTED);
    if was.status == DEFAULTED then r'.(uncuredDefaultExists := HasDefault(loans, m)) else r'
  }

  /** One loan item of a recovery notification for subscriber m. */
  function RecoverItem(b: Book, m: string, it: Item, at: int): Book {
    var b1 := b.(items := AddItem(b.items, it));
    var i := Find(b.loans, it.loanId);
    if i == -1 || b.loans[i].status == RECOVERED then b1
    else
      var loans := b.loans[i := b.loans[i].(status := RECOVERED, recoveredAt := Some(at))];
      b1.(loans := loans, rows := b.rows[m := RecoveryRow(RowOrDefault(b.rows, m), b.loans[i], loans, m)])
  }

  // ---------------------------------------------------------------- Aging

  predicate Overdue(l: Loan, now: int) {
    Open(l) && l.issuedAt < now - DEFAULT_AFTER_MS
  }

  function DefaultOverdue(l: Loan, now: int): Loan {
    if Overdue(l, now) then l.(status := DEFAULTED) else l
  }

  /** The GROUP BY total of a loan: None when it has no line item at all. */
  function Applied(items: seq<Item>, id: string): Option<int> {
    if items == [] then None
    else
      var rest, it := Applied(items[..|items| - 1], id), items[|items| - 1];
      if it.loanId != id then rest
      else Some((if rest.Some? then rest.value else 0) + it.appliedKobo)
  }

  predicate Covered(l: Loan, items: seq<Item>) {
    var total := Applied(items, l.loanId);
    total.Some? && total.value >= l.repayableKobo
  }

  predicate Settles(l: Loan, items: seq<Item>) {
    l.status != RECOVERED && Covered(l, items)
  }

  function Settle(l: Loan, items: seq<Item>, now: int): Loan {
    if Settles(l, items)
    then l.(status := RECOVERED, recoveredAt := if l.recoveredAt.Some? then l.recoveredAt else Some(now))
    else l
  }

  function AgeLoan(l: Loan, items: seq<Item>, now: int): Loan {
    Settle(DefaultOverdue(l, now), items, now)
  }

  function AgedLoans(loans: seq<Loan>, items: seq<Item>, now: int): (r: seq<Loan>)
    ensures |r| == |loans| && forall i | 0 <= i < |r| :: r[i] == AgeLoan(loans[i], items, now)
  {
    seq(|loans|, i requires 0 <= i < |loans| => AgeLoan(loans[i], items, now))
  }

  function DefaultedLoans(loans: seq<Loan>, now: int): (r: seq<Loan>)
    ensures |r| == |loans| && forall i | 0 <= i < |r| :: r[i] == DefaultOverdue(loans[i], now)
  {
    seq(|loans|, i requires 0 <= i < |loans| => DefaultOverdue(loans[i], now))
  }

  function SettledLoans(loans: seq<Loan>, items: seq<Item>, now: int): (r: seq<Loan>)
    ensures |r| == |loans| && forall i | 0 <= i < |r| :: r[i] == Settle(loans[i], items, now)
  {
    seq(|loans|, i requires 0 <= i < |loans| => Settle(loans[i], items, now))
  }

  function OverdueMsisdns(loans: seq<Loan>, now: int): set<string> {
    set i | 0 <= i < |loans| && Overdue(loans[i], now) :: loans[i].msisdn
  }

  function SettledMsisdns(loans: seq<Loan>, items: seq<Item>): set<string> {
    set i | 0 <= i < |loans| && Settles(loans[i], items) :: loans[i].msisdn
  }

  predicate Touched(l: Loan, items: seq<Item>, now: int) {
    Overdue(l, now) || Settles(l, items)
  }

  function Affected(loans: seq<Loan>, items: seq<Item>, now: int): set<string> {
    set i | 0 <= i < |loans| && Touched(loans[i], items, now) :: loans[i].msisdn
  }

  function Age(b: Book, now: int): Book {
    var loans := AgedLoans(b.loans, b.items, now);
    var affected := Affected(b.loans, b.items, now);
    Book(loans, b.items, Reflagged(b.rows, loans, affected))
  }

  /** The flag of every affected subscriber, recomputed; nobody gains a row. */
  function Reflagged(rows: map<string, Row>, loans: seq<Loan>, affected: set<string>): map<string, Row> {
    map m | m in rows :: if m in affected then rows[m].(uncuredDefaultExists := HasDefault(loans, m)) else rows[m]
  }

  datatype AgingResult = AgingResult(defaulted: nat, recovered: nat, affectedMsisdns: nat)

  function OverdueWeight(loans: seq<Loan>, now: int): nat -> nat {
    (i: nat) => Indicator(i < |loans| && Overdue(loans[i], now))
  }

  function SettlesWeight(loans: seq<Loan>, items: seq<Item>): nat -> nat {
    (i: nat) => Indicator(i < |loans| && Settles(loans[i], items))
  }

  function AgingReport(b: Book, now: int): AgingResult {
    AgingResult(SumTo(|b.loans|, OverdueWeight(b.loans, now)),
                SumTo(|b.loans|, SettlesWeight(b.loans, b.items)),
                |Affected(b.loans, b.items, now)|)
  }

  /** The second transition meets loans the first one has just defaulted; one pass does both. */
  lemma TransitionsCompose(loans: seq<Loan>, items: seq<Item>, now: int)
    ensures var d := DefaultedLoans(loans, now);
            && SettledLoans(d, items, now) == AgedLoans(loans, items, now)
            && SettledMsisdns(d, items) == SettledMsisdns(loans, items)
            && SumTo(|loans|, SettlesWeight(d, items)) == SumTo(|loans|, SettlesWeight(loans, items))
            && Affected(loans, items, now) == OverdueMsisdns(loans, now) + SettledMsisdns(loans, items)
  {
    var d := DefaultedLoans(loans, now);
    SettleSameLoans(loans, d, items, now);
    SumCongruent(|loans|, SettlesWeight(d, items), SettlesWeight(loans, items));
  }

  lemma SettleSameLoans(loans: seq<Loan>, d: seq<Loan>, items: seq<Item>, now: int)
    requires d == DefaultedLoans(loans, now)
    ensures forall i | 0 <= i < |loans| :: Settles(d[i], items) == Settles(loans[i], items) && d[i].msisdn == loans[i].msisdn
    ensures SettledMsisdns(d, items) == SettledMsisdns(loans, items)
  {
  }

  // ---------------------------------------------------------------- The database

  class LoanDatabase {
    var loans: seq<Loan>
    var items: seq<Item>
    var rows: map<string, Row>

    ghost function Contents(): Book
      reads this
    {
      Book(loans, items, rows)
    }

    constructor ()
      ensures Contents() == Book([], [], map[])
    {
      loans, items, rows := [], [], map[];
    }

    /** The COUNT, SUM and EXISTS columns, scanned; refreshing changes the one row and nothing else. */
    method RefreshOne(m: string, now: int, days: nat, recharges: nat)
      modifies this`rows
      ensures Contents() == Refresh(old(Contents()), m, now, days, recharges)
    {
      hide CuredLate, Within, Open;
      var taken, recovered, curedRecent, cured, outstanding := 0, 0, 0, 0, 0;
      var uncured := false;
      for i := 0 to |loans|
        invariant taken == SumTo(i, TakenWeight(loans, m, now))
        invariant recovered == SumTo(i, RecoveredWeight(loans, m, now))
        invariant curedRecent == SumTo(i, CuredRecentWeight(loans, m, now))
        invariant cured == SumTo(i, CuredWeight(loans, m))
        invariant outstanding == SumTo(i, OutstandingWeight(loans, m))
        invariant uncured <==> exists k :: 0 <= k < i && loans[k].msisdn == m && loans[k].status == DEFAULTED
      {
        var l := loans[i];
        if l.msisdn == m {
          var recent := Within(l.recoveredAt, now - WINDOW_MS);
          if l.issuedAt > now - WINDOW_MS {
            taken := taken + 1;
          }
          if l.status == RECOVERED && recent {
            recovered := recovered + 1;
          }
          if CuredLate(l) {
            cured := cured + 1;
            if recent {
              curedRecent := curedRecent + 1;
            }
          }
          if Open(l) {
            outstanding := outstanding + l.repayableKobo;
          }
          if l.status == DEFAULTED {
            uncured := true;
          }
        }
      }
      rows := rows[m := Row(days, recharges, taken, recovered, curedRecent, cured, uncured, outstanding)];
    }

    method OnLoanIssued(m: string, repayableKobo: nat)
      modifies this`rows
      ensures rows == old(rows)[m := IssuedRow(RowOrDefault(old(rows), m), repayableKobo)]
    {
      if m !in rows {
        rows := rows[m := DEFAULT_ROW.(loansTaken180d := 1, outstandingKobo := repayableKobo)];
      } else {
        var r := rows[m];
        rows := rows[m := r.(loansTaken180d := r.loansTaken180d + 1,
                             outstandingKobo := r.outstandingKobo + repayableKobo)];
      }
    }

    method OnLoanRecovered(m: string, repayableKobo: nat, wasDefaulted: bool)
      modifies this`rows
      ensures rows == old(rows)[m :=
                (var r := RecoveredRow(RowOrDefault(old(rows), m), repayableKobo, wasDefaulted);
                 if wasDefaulted then r.(uncuredDefaultExists := HasDefault(loans, m)) else r)]
    {
      var cured := if wasDefaulted then 1 else 0;
      if m !in rows {
        rows := rows[m := DEFAULT_ROW.(loansRecovered180d := 1, curedDefaults180d := cured,
                                       curedDefaultsLifetime := cured)];
      } else {
        var r := rows[m];
        rows := rows[m := r.(loansRecovered180d := r.loansRecovered180d + 1,
                             outstandingKobo := if r.outstandingKobo - repayableKobo > 0
                                                then r.outstandingKobo - repayableKobo else 0,
                             curedDefaults180d := r.curedDefaults180d + cured,
                             curedDefaultsLifetime := r.curedDefaultsLifetime + cured)];
      }
      if wasDefaulted {
        rows := rows[m := rows[m].(uncuredDefaultExists := HasDefault(loans, m))];
      }
    }

    method ProcessLoan(p: Loan)
      modifies this
      ensures Contents() == Deliver(old(Contents()), p)
    {
      var i := Find(loans, p.loanId);
      if i != -1 {
        loans := loans[i := loans[i].(status := p.status, recoveredAt := p.recoveredAt)];
      } else {
        loans := loans + [p];
        if p.status == ISSUED {
          OnLoanIssued(p.msisdn, p.repayableKobo);
        }
      }
    }

    method ProcessRecoveryItem(m: string, it: Item, at: int)
      modifies this
      ensures Contents() == RecoverItem(old(Contents()), m, it, at)
    {
      if !ItemKnown(items, it) {
        items := items + [it];
      }
      var i := Find(loans, it.loanId);
      if i == -1 || loans[i].status == RECOVERED {
        return;
      }
      var prior := loans[i];
      loans := loans[i := prior.(status := RECOVERED, recoveredAt := Some(at))];
      OnLoanRecovered(m, prior.repayableKobo, prior.status == DEFAULTED);
    }

    /** UPDATE csdp_loan SET status = 'DEFAULTED' ... RETURNING msisdn. */
    method MarkDefaulted(now: int) returns (returned: seq<string>)
      modifies this`loans
      ensures loans == DefaultedLoans(old(loans), now)
      ensures |returned| == SumTo(|loans|, OverdueWeight(old(loans), now))
      ensures forall m :: m in returned <==> m in OverdueMsisdns(old(loans), now)
    {
      returned := [];
      for i := 0 to |loans|
        invariant |loans| == |old(loans)|
        invariant forall j | 0 <= j < i :: loans[j] == DefaultOverdue(old(loans)[j], now)
        invariant forall j | i <= j < |loans| :: loans[j] == old(loans)[j]
        invariant |returned| == SumTo(i, OverdueWeight(old(loans), now))
        invariant forall m :: m in returned <==>
                    exists j :: 0 <= j < i && Overdue(old(loans)[j], now) && old(loans)[j].msisdn == m
      {
        if Open(loans[i]) && loans[i].issuedAt < now - DEFAULT_AFTER_MS {
          returned := returned + [loans[i].msisdn];
          loans := loans[i := loans[i].(status := DEFAULTED)];
        }
      }
    }

    /** UPDATE csdp_loan SET status = 'RECOVERED' ... FROM applied RETURNING msisdn. */
    method MarkRecovered(now: int) returns (returned: seq<string>)
      modifies this`loans
      ensures loans == SettledLoans(old(loans), items, now)
      ensures |returned| == SumTo(|loans|, SettlesWeight(old(loans), items))
      ensures forall m :: m in returned <==> m in SettledMsisdns(old(loans), items)
    {
      returned := [];
      for i := 0 to |loans|
        invariant |loans| == |old(loans)|
        invariant forall j | 0 <= j < i :: loans[j] == Settle(old(loans)[j], items, now)
        invariant forall j | i <= j < |loans| :: loans[j] == old(loans)[j]
        invariant |returned| == SumTo(i, SettlesWeight(old(loans), items))
        invariant forall m :: m in returned <==>
                    exists j :: 0 <= j < i && Settles(old(loans)[j], items) && old(loans)[j].msisdn == m
      {
        if loans[i].status != RECOVERED && Covered(loans[i], items) {
          returned := returned + [loans[i].msisdn];
          var at := if loans[i].recoveredAt.Some? then loans[i].recoveredAt else Some(now);
          loans := loans[i := loans[i].(status := RECOVERED, recoveredAt := at)];
        }
      }
    }

    /** Both transitions, then the flag of every affected subscriber that has a row. */
    method RunAging(now: int) returns (result: AgingResult)
      modifies this
      ensures Contents() == Age(old(Contents()), now)
      ensures result == AgingReport(old(Contents()), now)
    {
      hide DefaultedLoans, SettledLoans, AgedLoans, Affected, OverdueMsisdns, SettledMsisdns;
      hide OverdueWeight, SettlesWeight, HasDefault;
      var defaultedRows := MarkDefaulted(now);
      var recoveredRows := MarkRecovered(now);
      TransitionsCompose(old(loans), items, now);
      var affected := Distinct(defaultedRows + recoveredRows);
      assert affected == Affected(old(loans), items, now);
      if |affected| > 0 {
        rows := map m | m in rows :: if m in affected then rows[m].(uncuredDefaultExists := HasDefault(loans, m))
                                     else rows[m];
      }
      assert rows == Reflagged(old(rows), loans, affected);
      result := AgingResult(|defaultedRows|, |recoveredRows|, |affected|);
    }
  }

  method Distinct(names: seq<string>) returns (s: set<string>)
    ensures s == set m | m in names
  {
    s := {};
    for i := 0 to |names|
      invariant s == set m | m in names[..i]
    {
      s := s + {names[i]};
    }
    assert names[..|names|] == names;
  }
}
