/** From a credit score to an eligible loan amount: the threshold lookup, the manual cap and the debt. */
module EligibleAmount {
  import opened Wrappers

  datatype Threshold = Threshold(score: int, amount: real)

  const DEFAULT_MINIMUM := 500.0

  // ---------------------------------------------------------------- Sort, then first match

  /** Array.sort by descending score, stable: each element goes behind its equals. */
  function Insert(t: Threshold, s: seq<Threshold>): (r: seq<Threshold>)
    ensures multiset(r) == multiset(s) + multiset{t}
  {
    if s == [] then [t]
    else if s[|s| - 1].score >= t.score then s + [t]
    else
      var r := Insert(t, s[..|s| - 1]) + [s[|s| - 1]];
      assert s == s[..|s| - 1] + [s[|s| - 1]];
      r
  }

  function SortedByScore(ts: seq<Threshold>): (r: seq<Threshold>)
    ensures multiset(r) == multiset(ts)
  {
    if ts == [] then []
    else
      assert ts == ts[..|ts| - 1] + [ts[|ts| - 1]];
      Insert(ts[|ts| - 1], SortedByScore(ts[..|ts| - 1]))
  }

  function FirstMatch(s: seq<Threshold>, score: int): real {
    if s == [] then DEFAULT_MINIMUM
    else if score >= s[0].score then s[0].amount
    else FirstMatch(s[1..], score)
  }

  function AmountFor(ts: seq<Threshold>, score: int): real {
    FirstMatch(SortedByScore(ts), score)
  }

  // ---------------------------------------------------------------- The greatest threshold not above

  predicate Descending(s: seq<Threshold>) {
    forall i, j | 0 <= i < j < |s| :: s[i].score >= s[j].score
  }

  predicate DistinctScores(ts: seq<Threshold>) {
    forall t, u | t in multiset(ts) && u in multiset(ts) && t.score == u.score :: t == u
  }

  /** t is the greatest threshold of ts not above the score. */
  predicate Greatest(t: Threshold, ts: seq<Threshold>, score: int) {
    && t in multiset(ts) && t.score <= score
    && forall u | u in multiset(ts) && u.score <= score :: u.score <= t.score
  }

  lemma {:induction false} InsertDescends(t: Threshold, s: seq<Threshold>)
    requires Descending(s)
    ensures Descending(Insert(t, s))
  {
    if s != [] && s[|s| - 1].score < t.score {
      var init, last := s[..|s| - 1], s[|s| - 1];
      InsertDescends(t, init);
      var r := Insert(t, init);
      forall i | 0 <= i < |r|
        ensures r[i].score >= last.score
      {
        assert r[i] in multiset(r);
        assert r[i] == t || r[i] in init;
      }
      DescendsBefore(r, last);
    }
  }

  lemma DescendsBefore(s: seq<Threshold>, last: Threshold)
    requires Descending(s) && forall i | 0 <= i < |s| :: s[i].score >= last.score
    ensures Descending(s + [last])
  {
  }

  lemma {:induction false} SortDescends(ts: seq<Threshold>)
    ensures Descending(SortedByScore(ts))
  {
    if ts != [] {
      SortDescends(ts[..|ts| - 1]);
      InsertDescends(ts[|ts| - 1], SortedByScore(ts[..|ts| - 1]));
    }
  }

  lemma {:induction false} FirstMatchIsGreatest(s: seq<Threshold>, score: int)
    requires Descending(s)
    ensures (forall u | u in multiset(s) :: u.score > score) ==> FirstMatch(s, score) == DEFAULT_MINIMUM
    ensures (exists u :: u in multiset(s) && u.score <= score) ==>
              exists t :: Greatest(t, s, score) && FirstMatch(s, score) == t.amount
  {
    if s != [] {
      assert s == [s[0]] + s[1..];
      if score >= s[0].score {
        assert Greatest(s[0], s, score);
      } else {
        FirstMatchIsGreatest(s[1..], score);
        if t :| Greatest(t, s[1..], score) && FirstMatch(s[1..], score) == t.amount {
          assert Greatest(t, s, score);
        }
      }
    }
  }

  /** For distinct thresholds, sort-then-first-match is the amount of the greatest threshold not above the
      score, or the minimum when there is none. */
  lemma LookupIsGreatest(ts: seq<Threshold>, score: int, t: Threshold)
    requires DistinctScores(ts)
    ensures Greatest(t, ts, score) ==> AmountFor(ts, score) == t.amount
    ensures (forall u | u in multiset(ts) :: u.score > score) ==> AmountFor(ts, score) == 500.0
  {
    SortDescends(ts);
    FirstMatchIsGreatest(SortedByScore(ts), score);
    if Greatest(t, ts, score) {
      var u :| Greatest(u, SortedByScore(ts), score) && AmountFor(ts, score) == u.amount;
      assert u.score == t.score;
    }
  }

  lemma LookupHasCase(ts: seq<Threshold>, score: int) returns (t: Option<Threshold>)
    requires DistinctScores(ts)
    ensures match t
            case Some(g) => Greatest(g, ts, score) && AmountFor(ts, score) == g.amount
            case None => (forall u | u in multiset(ts) :: u.score > score) && AmountFor(ts, score) == DEFAULT_MINIMUM
  {
    SortDescends(ts);
    FirstMatchIsGreatest(SortedByScore(ts), score);
    if u :| u in multiset(ts) && u.score <= score {
      var g :| Greatest(g, SortedByScore(ts), score) && AmountFor(ts, score) == g.amount;
      t := Some(g);
    } else {
      t := None;
    }
  }

  /** The order in which the configuration lists distinct thresholds does not matter. */
  lemma ListOrderIsIrrelevant(ts: seq<Threshold>, us: seq<Threshold>, score: int)
    requires DistinctScores(ts) && multiset(ts) == multiset(us)
    ensures AmountFor(ts, score) == AmountFor(us, score)
  {
    var t := LookupHasCase(ts, score);
    LookupIsGreatest(us, score, if t.Some? then t.value else Threshold(0, 0.0));
    if t.Some? {
      assert Greatest(t.value, us, score);
    }
  }

  predicate AmountsRise(ts: seq<Threshold>) {
    forall t, u | t in multiset(ts) && u in multiset(ts) && t.score <= u.score :: t.amount <= u.amount
  }

  /** A better score never earns less, when amounts rise with the thresholds and none is under the minimum. */
  lemma AmountRisesWithScore(ts: seq<Threshold>, low: int, high: int)
    requires DistinctScores(ts) && AmountsRise(ts) && low <= high
    requires forall t | t in multiset(ts) :: t.amount >= DEFAULT_MINIMUM
    ensures AmountFor(ts, low) <= AmountFor(ts, high)
  {
    var t := LookupHasCase(ts, low);
    var u := LookupHasCase(ts, high);
    if t.Some? {
      assert t.value.score <= high;
    }
  }

  /** Nothing less will do: the amount rises over all scores exactly when the amounts rise with the
      thresholds and none is under the minimum. */
  lemma AmountRisesExactlyWhen(ts: seq<Threshold>)
    requires DistinctScores(ts)
    ensures (forall low, high | low <= high :: AmountFor(ts, low) <= AmountFor(ts, high))
            <==> AmountsRise(ts) && forall t | t in multiset(ts) :: t.amount >= DEFAULT_MINIMUM
  {
    if AmountsRise(ts) && (forall t | t in multiset(ts) :: t.amount >= DEFAULT_MINIMUM) {
      forall low, high | low <= high
        ensures AmountFor(ts, low) <= AmountFor(ts, high)
      {
        AmountRisesWithScore(ts, low, high);
      }
    }
    if forall low, high | low <= high :: AmountFor(ts, low) <= AmountFor(ts, high) {
      forall t | t in multiset(ts)
        ensures AmountFor(ts, t.score) == t.amount && t.amount >= DEFAULT_MINIMUM
      {
        assert Greatest(t, ts, t.score);
        LookupIsGreatest(ts, t.score, t);
        var low := LowerThanAll(ts, t.score);
        LookupIsGreatest(ts, low, t);
      }
    }
  }

  /** A score under every threshold, and not above s. */
  lemma {:induction false} LowerThanAll(ts: seq<Threshold>, s: int) returns (low: int)
    ensures low <= s && forall u | u in multiset(ts) :: u.score > low
  {
    low := s;
    if ts != [] {
      low := LowerThanAll(ts[1..], s);
      assert ts == [ts[0]] + ts[1..];
      low := if low < ts[0].score then low else ts[0].score - 1;
    }
  }

  /** The floor of 500 is needed: with one threshold of 300 at score 10, reaching it loses 200. */
  lemma LowThresholdLosesMoney()
    ensures AmountFor([Threshold(10, 300.0)], 9) == 500.0 && AmountFor([Threshold(10, 300.0)], 10) == 300.0
  {
    var ts := [Threshold(10, 300.0)];
    assert ts[..0] == [] && SortedByScore([]) == [];
    assert SortedByScore(ts) == ts;
    assert ts[1..] == [] && FirstMatch([], 9) == DEFAULT_MINIMUM;
  }

  // ---------------------------------------------------------------- The eligible amount

  datatype Borrower = Borrower(creditScore: int, totalLoans: int, autoLimitEnabled: bool, creditLimit: real)

  datatype Terms = Terms(firstTimeAmount: real, thresholds: seq<Threshold>)

  function FromScore(totalLoans: int, score: int, c: Terms): real {
    if totalLoans == 0 then c.firstTimeAmount else AmountFor(c.thresholds, score)
  }

  predicate ManualLimitInForce(b: Borrower) {
    !b.autoLimitEnabled && b.creditLimit > 0.0
  }

  function Total(debts: seq<real>): real {
    if debts == [] then 0.0 else Total(debts[..|debts| - 1]) + debts[|debts| - 1]
  }

  /** The score counts only from the second loan on: before, everybody is offered the same amount. */
  lemma FirstLoanIgnoresScore(low: int, high: int, loans: int, c: Terms, t: Threshold)
    requires DistinctScores(c.thresholds) && loans > 0
    ensures FromScore(0, low, c) == FromScore(0, high, c) == c.firstTimeAmount
    ensures Greatest(t, c.thresholds, low) ==> FromScore(loans, low, c) == t.amount
  {
    LookupIsGreatest(c.thresholds, low, t);
  }

  /** The debt is the sum over all active loans, in any grouping. */
  lemma {:induction false} TotalConcat(a: seq<real>, b: seq<real>)
    ensures Total(a + b) == Total(a) + Total(b)
    ensures forall x: real :: Total([x]) == x
    decreases |b|
  {
    forall x: real
      ensures Total([x]) == x
    {
      assert [x][..0] == [];
    }
    if b == [] {
      assert a + b == a;
    } else {
      assert (a + b)[..|a + b| - 1] == a + b[..|b| - 1];
      TotalConcat(a, b[..|b| - 1]);
    }
  }

  /** calculateEligibleLoanAmount on a cache miss. debts are the outstanding amounts of the active loans. */
  method CalculateEligibleLoanAmount(b: Borrower, debts: seq<real>, c: Terms) returns (eligible: real)
    ensures eligible >= 0.0
    ensures eligible > 0.0 ==> eligible + Total(debts) <= FromScore(b.totalLoans, b.creditScore, c)
    ensures eligible > 0.0 && ManualLimitInForce(b) ==> eligible + Total(debts) <= b.creditLimit
    ensures var amount := FromScore(b.totalLoans, b.creditScore, c);
            var ceiling := if ManualLimitInForce(b) && b.creditLimit < amount then b.creditLimit else amount;
            (eligible > 0.0 <==> ceiling > Total(debts)) && (eligible > 0.0 ==> eligible == ceiling - Total(debts))
  {
    if b.totalLoans == 0 {
      eligible := c.firstTimeAmount;
    } else {
      eligible := DEFAULT_MINIMUM;
      var sorted := SortedByScore(c.thresholds);
      var i := 0;
      while i < |sorted|
        invariant 0 <= i <= |sorted| && eligible == DEFAULT_MINIMUM
        invariant FirstMatch(sorted, b.creditScore) == FirstMatch(sorted[i..], b.creditScore)
      {
        if b.creditScore >= sorted[i].score {
          eligible := sorted[i].amount;
          break;
        }
        i := i + 1;
      }
      assert eligible == AmountFor(c.thresholds, b.creditScore);
    }
    if !b.autoLimitEnabled && b.creditLimit > 0.0 && eligible > b.creditLimit {
      eligible := b.creditLimit;
    }
    var outstanding := 0.0;
    for i := 0 to |debts|
      invariant outstanding == Total(debts[..i])
    {
      assert debts[..i + 1][..i] == debts[..i];
      outstanding := outstanding + debts[i];
    }
    assert debts[..|debts|] == debts;
    eligible := if eligible - outstanding > 0.0 then eligible - outstanding else 0.0;
  }
}
