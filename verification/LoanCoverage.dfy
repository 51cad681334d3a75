/** Whether RECOVERED means repaid: that the line items of every RECOVERED loan add up to its repayable
    amount. The aging job keeps this; the recovery webhook does so exactly under a condition. */
module LoanCoverage {
  import opened Wrappers
  import opened LoanBook
  import opened LoanLifecycle
  import opened IndexedSums

  // ---------------------------------------------------------------- What a loan's items add up to

  predicate HasItem(items: seq<Item>, id: string) {
    exists k :: 0 <= k < |items| && items[k].loanId == id
  }

  function ItemAmount(items: seq<Item>, id: string): nat -> int {
    (k: nat) => if k < |items| && items[k].loanId == id then items[k].appliedKobo else 0
  }

  function ItemTotal(items: seq<Item>, id: string): int {
    IntSumTo(|items|, ItemAmount(items, id))
  }

  /** The grouped total of a loan is the sum over all its line items, and absent exactly when it has none. */
  lemma {:induction false} AppliedIsItemTotal(items: seq<Item>, id: string)
    ensures Applied(items, id) == if HasItem(items, id) then Some(ItemTotal(items, id)) else None
    ensures !HasItem(items, id) ==> ItemTotal(items, id) == 0
  {
    if items != [] {
      var init, last := items[..|items| - 1], items[|items| - 1];
      AppliedIsItemTotal(init, id);
      IntSumCongruent(|init|, ItemAmount(items, id), ItemAmount(init, id));
      if k :| 0 <= k < |init| && init[k].loanId == id {
        assert items[k].loanId == id;
      }
    }
  }

  lemma {:induction false} ItemTotalConcat(a: seq<Item>, b: seq<Item>, id: string)
    ensures ItemTotal(a + b, id) == ItemTotal(a, id) + ItemTotal(b, id)
    decreases |b|
  {
    if b == [] {
      assert a + b == a;
    } else {
      var init := b[..|b| - 1];
      ItemTotalConcat(a, init, id);
      assert a + b == (a + init) + [b[|b| - 1]];
      ItemTotalAppend(a + init, b[|b| - 1], id);
      ItemTotalAppend(init, b[|b| - 1], id);
      assert b == init + [b[|b| - 1]];
    }
  }

  lemma ItemTotalAppend(a: seq<Item>, it: Item, id: string)
    ensures ItemTotal(a + [it], id) == ItemTotal(a, id) + if it.loanId == id then it.appliedKobo else 0
  {
    IntSumCongruent(|a|, ItemAmount(a + [it], id), ItemAmount(a, id));
  }

  /** The order in which line items arrived does not matter. */
  lemma {:induction false} ItemOrderIsIrrelevant(a: seq<Item>, b: seq<Item>, id: string)
    requires multiset(a) == multiset(b)
    ensures Applied(a, id) == Applied(b, id)
  {
    SameItemTotal(a, b, id);
    AppliedIsItemTotal(a, id);
    AppliedIsItemTotal(b, id);
    SameItemsFound(a, b, id);
    SameItemsFound(b, a, id);
    hide ItemTotal, Applied;
  }

  lemma SameItemsFound(a: seq<Item>, b: seq<Item>, id: string)
    requires multiset(a) == multiset(b)
    ensures HasItem(a, id) ==> HasItem(b, id)
  {
    if k :| 0 <= k < |a| && a[k].loanId == id {
      assert a[k] in multiset(a);
      assert a[k] in b;
    }
  }

  lemma {:induction false} SameItemTotal(a: seq<Item>, b: seq<Item>, id: string)
    requires multiset(a) == multiset(b)
    ensures ItemTotal(a, id) == ItemTotal(b, id)
    decreases |a|
  {
    if a == [] {
      assert |b| == |multiset(b)| == 0;
    } else {
      var init, x := a[..|a| - 1], a[|a| - 1];
      assert a == init + [x];
      assert x in multiset(b);
      hide ItemTotal;
      var j :| 0 <= j < |b| && b[j] == x;
      var b1, b2 := b[..j], b[j + 1..];
      assert b == b1 + [x] + b2;
      TakenOut(init, x, b1, b2);
      SameItemTotal(init, b1 + b2, id);
      ItemTotalAppend(init, x, id);
      ItemTotalAppend(b1, x, id);
      ItemTotalConcat(b1 + [x], b2, id);
      ItemTotalConcat(b1, b2, id);
    }
  }

  lemma TakenOut(init: seq<Item>, x: Item, b1: seq<Item>, b2: seq<Item>)
    requires multiset(init + [x]) == multiset(b1 + [x] + b2)
    ensures multiset(init) == multiset(b1 + b2)
  {
    assert multiset(init) == multiset(init + [x]) - multiset{x};
    assert multiset(b1 + b2) == multiset(b1 + [x] + b2) - multiset{x};
  }

  /** What one aging run makes of a loan that is not RECOVERED: RECOVERED exactly when it has a line item and
      their sum reaches its repayable amount, otherwise DEFAULTED exactly when it is older than 30 days and
      open (or was DEFAULTED), and as it was in every other case. */
  lemma AgingDecides(b: Book, now: int, i: nat)
    requires i < |b.loans| && b.loans[i].status != RECOVERED
    ensures var l, l' := b.loans[i], Age(b, now).loans[i];
            var repaid := HasItem(b.items, l.loanId) && ItemTotal(b.items, l.loanId) >= l.repayableKobo;
            && (l'.status == RECOVERED <==> repaid)
            && (l'.status == DEFAULTED <==>
                  !repaid && (l.status == DEFAULTED || l.issuedAt < now - 30 * 24 * 60 * 60 * 1000))
            && (l' != l ==> l'.status == RECOVERED || l'.status == DEFAULTED)
  {
    AppliedIsItemTotal(b.items, b.loans[i].loanId);
    AgingReachesItsGoal(b, now);
    hide Applied, ItemTotal;
  }

  /** The report of an aging run: how many open loans were older than 30 days, how many loans became
      RECOVERED, and how many subscribers own one of either. */
  lemma AgingReportCounts(b: Book, now: int)
    ensures var r, loans, loans' := AgingReport(b, now), b.loans, Age(b, now).loans;
            && r.defaulted == |set i: nat | i < |loans| && (loans[i].status == ISSUED || loans[i].status == PARTIAL)
                                            && now - loans[i].issuedAt > 30 * DAY_MS|
            && r.recovered == |set i: nat | i < |loans| && loans[i].status != RECOVERED && loans'[i].status == RECOVERED|
            && r.affectedMsisdns == |set i: nat | i < |loans| && loans'[i] != loans[i] :: loans[i].msisdn|
  {
    OverdueAreCounted(b.loans, now);
    RecoveredAreCounted(b, now);
    ChangedAreCounted(b, now);
    hide SumTo, Age, Affected, OverdueWeight, SettlesWeight;
  }

  lemma OverdueAreCounted(loans: seq<Loan>, now: int)
    ensures SumTo(|loans|, OverdueWeight(loans, now))
            == |set i: nat | i < |loans| && (loans[i].status == ISSUED || loans[i].status == PARTIAL)
                             && now - loans[i].issuedAt > 30 * DAY_MS|
  {
    var w := OverdueWeight(loans, now);
    SumCounts(|loans|, w);
    hide SumTo;
    assert (set i: nat | i < |loans| && w(i) == 1)
           == set i: nat | i < |loans| && (loans[i].status == ISSUED || loans[i].status == PARTIAL)
                           && now - loans[i].issuedAt > 30 * DAY_MS;
  }

  lemma RecoveredAreCounted(b: Book, now: int)
    ensures var loans, loans' := b.loans, Age(b, now).loans;
            SumTo(|loans|, SettlesWeight(loans, b.items))
            == |set i: nat | i < |loans| && loans[i].status != RECOVERED && loans'[i].status == RECOVERED|
  {
    var loans, loans', w := b.loans, Age(b, now).loans, SettlesWeight(b.loans, b.items);
    SumCounts(|loans|, w);
    hide SumTo;
    assert (set i: nat | i < |loans| && w(i) == 1)
           == set i: nat | i < |loans| && loans[i].status != RECOVERED && loans'[i].status == RECOVERED;
  }

  lemma ChangedAreCounted(b: Book, now: int)
    ensures Affected(b.loans, b.items, now)
            == set i: nat | i < |b.loans| && Age(b, now).loans[i] != b.loans[i] :: b.loans[i].msisdn
  {
    TouchedLoansChange(b, now);
    hide Age, Touched;
  }

  lemma TouchedLoansChange(b: Book, now: int)
    ensures forall i | 0 <= i < |b.loans| :: Touched(b.loans[i], b.items, now) <==> Age(b, now).loans[i] != b.loans[i]
  {
  }

  /** No recovery has two items for one loan. */
  predicate UniqueItems(items: seq<Item>) {
    forall i, j | 0 <= i < j < |items| :: items[i].recoveryId != items[j].recoveryId || items[i].loanId != items[j].loanId
  }

  /** An item is stored exactly when its recovery has none for its loan yet; the first one delivered stays. */
  lemma ItemStoredExactlyWhen(items: seq<Item>, it: Item)
    requires UniqueItems(items)
    ensures UniqueItems(AddItem(items, it))
    ensures AddItem(items, it) == items + [it]
            <==> forall k | 0 <= k < |items| :: items[k].recoveryId != it.recoveryId || items[k].loanId != it.loanId
    ensures AddItem(items, it) != items + [it] ==> AddItem(items, it) == items
    ensures AddItem(AddItem(items, it), it) == AddItem(items, it)
  {
    assert (items + [it])[|items|] == it;
  }

  /** So a recovery item delivered again changes nothing at all, whatever its date says by then. */
  lemma RepeatedRecoveryIsNoOp(b: Book, m: string, it: Item, at: int, again: int)
    ensures RecoverItem(RecoverItem(b, m, it, at), m, it, again) == RecoverItem(b, m, it, at)
  {
    var b1, i := RecoverItem(b, m, it, at), Find(b.loans, it.loanId);
    assert AddItem(AddItem(b.items, it), it) == AddItem(b.items, it) by {
      assert (b.items + [it])[|b.items|] == it;
    }
    if i != -1 {
      SameIdsFound(b.loans, b1.loans, it.loanId);
      assert b1.loans[i].status == RECOVERED;
    }
  }

  lemma {:induction false} SameIdsFound(loans: seq<Loan>, loans': seq<Loan>, id: string)
    requires |loans| == |loans'| && forall i | 0 <= i < |loans| :: loans'[i].loanId == loans[i].loanId
    ensures Find(loans', id) == Find(loans, id)
  {
    if loans != [] {
      SameIdsFound(loans[..|loans| - 1], loans'[..|loans'| - 1], id);
    }
  }

  // ---------------------------------------------------------------- Coverage

  predicate RecoveredAreCovered(b: Book) {
    forall i | 0 <= i < |b.loans| && b.loans[i].status == RECOVERED :: Covered(b.loans[i], b.items)
  }

  /** An item changes no other loan's total. */
  lemma AppliedAfterItem(items: seq<Item>, it: Item, id: string)
    requires it.loanId != id
    ensures Applied(AddItem(items, it), id) == Applied(items, id)
  {
    assert (items + [it])[..|items|] == items;
  }

  lemma FindsIt(loans: seq<Loan>, i: nat)
    requires UniqueIds(loans) && i < |loans|
    ensures Find(loans, loans[i].loanId) == i
  {
    var j := Find(loans, loans[i].loanId);
    assert j != -1;
    assert loans[j].loanId == loans[i].loanId;
  }

  /** The webhook closes a loan whatever amount the item applies, negative ones included, so it keeps the
      meaning of RECOVERED exactly when the loan is unknown or covered once this item is counted. */
  lemma RecoveryKeepsCoverageExactlyWhen(b: Book, m: string, it: Item, at: int)
    requires RecoveredAreCovered(b) && UniqueIds(b.loans)
    ensures RecoveredAreCovered(RecoverItem(b, m, it, at)) <==> CoveringStep(b, ItemRecovered(m, it, at))
  {
    var b', i := RecoverItem(b, m, it, at), Find(b.loans, it.loanId);
    assert b'.items == AddItem(b.items, it);
    forall j | 0 <= j < |b.loans| && j != i
      ensures Covered(b.loans[j], b'.items) == Covered(b.loans[j], b.items)
    {
      FindsIt(b.loans, j);
      AppliedAfterItem(b.items, it, b.loans[j].loanId);
    }
    if i != -1 {
      assert b'.loans[i].status == RECOVERED;
      assert Covered(b'.loans[i], b'.items) <==> Covered(b.loans[i], b'.items);
    }
  }

  /** Aging closes covered loans only. */
  lemma AgeKeepsCoverage(b: Book, now: int)
    requires RecoveredAreCovered(b)
    ensures RecoveredAreCovered(Age(b, now))
  {
    AgingReachesItsGoal(b, now);
  }

  /** So does a delivery exactly when it closes nothing that is not covered. */
  lemma DeliveryKeepsCoverageExactlyWhen(b: Book, p: Loan)
    requires RecoveredAreCovered(b)
    ensures RecoveredAreCovered(Deliver(b, p)) <==> CoveringStep(b, LoanDelivered(p))
  {
    var loans', i := Deliver(b, p).loans, Find(b.loans, p.loanId);
    if i == -1 {
      assert loans'[|b.loans|] == p;
      assert forall j | 0 <= j < |b.loans| :: loans'[j] == b.loans[j];
    } else {
      assert loans'[i].status == p.status && Covered(loans'[i], b.items) == Covered(b.loans[i], b.items);
      assert forall j | 0 <= j < |b.loans| && j != i :: loans'[j] == b.loans[j];
    }
  }

  /** Every loan that a recovery item or a delivery of the run closes is covered by then. */
  predicate CoveringRun(b: Book, steps: seq<Step>)
    decreases |steps|
  {
    steps != [] ==> CoveringStep(b, steps[0]) && CoveringRun(Next(b, steps[0]), steps[1..])
  }

  predicate CoveringStep(b: Book, s: Step) {
    match s
    case ItemRecovered(_, it, _) =>
      var i := Find(b.loans, it.loanId);
      i == -1 || Covered(b.loans[i], AddItem(b.items, it))
    case LoanDelivered(p) =>
      var i := Find(b.loans, p.loanId);
      p.status == RECOVERED ==> Covered(if i == -1 then p else b.loans[i], b.items)
    case _ => true
  }

  lemma NextKeepsUniqueIds(b: Book, s: Step)
    requires UniqueIds(b.loans)
    ensures UniqueIds(Next(b, s).loans)
  {
    if s.Aged? {
      AgingReachesItsGoal(b, s.now);
    }
  }

  lemma {:induction false} RunKeepsCoverage(b: Book, steps: seq<Step>)
    requires RecoveredAreCovered(b) && UniqueIds(b.loans) && CoveringRun(b, steps)
    ensures RecoveredAreCovered(Run(b, steps)) && UniqueIds(Run(b, steps).loans)
    decreases |steps|
  {
    if steps != [] {
      NextKeepsUniqueIds(b, steps[0]);
      match steps[0] {
        case LoanDelivered(p) => DeliveryKeepsCoverageExactlyWhen(b, p);
        case ItemRecovered(m, it, at) => RecoveryKeepsCoverageExactlyWhen(b, m, it, at);
        case Aged(now) => AgeKeepsCoverage(b, now);
        case Refreshed(m, now, days, recharges) =>
      }
      RunKeepsCoverage(Next(b, steps[0]), steps[1..]);
    }
  }

  /** One kobo closes any open loan, and once the row is recomputed nothing shows as owed. */
  lemma OneKoboClosesLoan(l: Loan, m: string, at: int, days: nat, recharges: nat)
    requires l.msisdn == m && Open(l) && l.repayableKobo > 1
    ensures var b := RecoverItem(Book([l], [], map[]), m, Item("R", l.loanId, 1), at);
            && b.loans[0].status == RECOVERED && !Covered(b.loans[0], b.items)
            && Computed(b.loans, m, at, days, recharges).outstandingKobo == 0
  {
    var it := Item("R", l.loanId, 1);
    var b := RecoverItem(Book([l], [], map[]), m, it, at);
    assert b.items == [it] && [it][..0] == [];
    assert Applied([it], l.loanId) == Some(1);
    assert OutstandingWeight(b.loans, m)(0) == 0;
  }
}
