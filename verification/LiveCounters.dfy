/** The Redis sorted set behind the rolling 24 h disbursed total, against the full disbursement history. */
module LiveCounters {
  import opened Wrappers
  import opened FiniteSums
  import opened Text

  const DAY_MS := 24 * 60 * 60 * 1000
  const KEY_TTL_MS := 30 * 60 * 60 * 1000
  /** What the key's life exceeds the window by. */
  const SLACK_MS := KEY_TTL_MS - DAY_MS

  /** JavaScript's Number() followed by Number.isFinite: None when the text is no finite number. */
  type NumberOf = string -> Option<real>

  // ---------------------------------------------------------------- Member encoding

  function Member(amount: string, loanId: string): string {
    amount + "|" + loanId
  }

  /** What the summing loop adds for one member: nothing when there is no amount before the bar. */
  function MemberNaira(numberOf: NumberOf): string -> real {
    (m: string) =>
      var idx := IndexOf(m, '|');
      if idx <= 0 then 0.0
      else match numberOf(m[..idx]) case Some(n) => n case None => 0.0
  }

  ghost function MemberLoan(m: string): string {
    m[IndexOf(m, '|') + 1..]
  }

  predicate ProperAmount(amount: string) {
    amount != "" && '|' !in amount
  }

  /** Decoding gets both parts back whatever the loan id contains, further bars included. */
  lemma MemberDecodes(amount: string, loanId: string)
    requires ProperAmount(amount)
    ensures var m := Member(amount, loanId);
            && IndexOf(m, '|') == |amount| && m[..|amount|] == amount
            && MemberLoan(m) == loanId
  {
    var m := Member(amount, loanId);
    assert m[|amount|] == '|';
    assert forall j | 0 <= j < |amount| :: m[j] == amount[j] && m[j] != '|';
    assert IndexOf(m, '|') == |amount|;
  }

  /** A member without bar, or with nothing before it, or whose amount is no finite number, adds nothing; any
      other adds the number before its first bar. */
  lemma MemberAdds(m: string, numberOf: NumberOf, amount: string, loanId: string)
    ensures '|' !in m || m[0] == '|' ==> MemberNaira(numberOf)(m) == 0.0
    ensures ProperAmount(amount) ==>
              MemberNaira(numberOf)(Member(amount, loanId))
              == match numberOf(amount) case Some(n) => n case None => 0.0
  {
    if ProperAmount(amount) {
      MemberDecodes(amount, loanId);
    }
    if '|' !in m {
      assert IndexOf(m, '|') == -1;
    } else if m[0] == '|' {
      IndexOfFirst(m, '|', 0);
    }
  }

  // ---------------------------------------------------------------- One sorted-set key

  /** Members with their scores, and the instant the key expires. */
  datatype SortedSet = SortedSet(members: map<string, int>, expireAt: int)

  const NO_KEY := SortedSet(map[], 0)

  function Visible(z: SortedSet, now: int): map<string, int> {
    if now >= z.expireAt then map[] else z.members
  }

  /** ZADD key at member, then EXPIRE key 30 h. */
  function Recorded(z: SortedSet, member: string, at: int, now: int): SortedSet {
    SortedSet(Visible(z, now)[member := at], now + KEY_TTL_MS)
  }

  /** ZREMRANGEBYSCORE key -inf (cutoff. */
  function Pruned(z: SortedSet, cutoff: int, now: int): SortedSet {
    var v := Visible(z, now);
    SortedSet(map m | m in v && v[m] >= cutoff :: v[m], z.expireAt)
  }

  /** A recorded member stays visible for exactly 30 h after its recording, and a key that had expired by then
      starts afresh with it. */
  lemma KeyLife(z: SortedSet, member: string, at: int, now: int, t: int)
    ensures member in Visible(Recorded(z, member, at, now), t) <==> t < now + 30 * 60 * 60 * 1000
    ensures z.expireAt <= now ==> Visible(Recorded(z, member, at, now), t).Keys <= {member}
    ensures now < z.expireAt && t < now + 30 * 60 * 60 * 1000 ==>
              Visible(Recorded(z, member, at, now), t) == z.members[member := at]
  {
  }

  // ---------------------------------------------------------------- The full history

  datatype Disbursement = Disbursement(loanId: string, at: int)

  /** When each loan was last recorded as disbursed. */
  function LastAt(h: seq<Disbursement>): map<string, int> {
    if h == [] then map[]
    else LastAt(h[..|h| - 1])[h[|h| - 1].loanId := h[|h| - 1].at]
  }

  /** The fixed amount text of each loan id. */
  type Prices = string -> string

  function LoanNaira(price: Prices, numberOf: NumberOf): string -> real {
    (id: string) => match numberOf(price(id)) case Some(n) => n case None => 0.0
  }

  function WindowLoans(h: seq<Disbursement>, now: int): set<string> {
    var last := LastAt(h);
    set id | id in last && last[id] >= now - DAY_MS
  }

  /** The specification: the naira of every distinct loan last recorded in the past 24 hours. */
  ghost function RollingTotal(h: seq<Disbursement>, now: int, price: Prices, numberOf: NumberOf): real {
    Sum(WindowLoans(h, now), LoanNaira(price, numberOf))
  }

  // ---------------------------------------------------------------- Agreement

  /** The sorted set holds only last-recorded times, every one that can still matter, and its key
      outlives them. */
  ghost predicate Agrees(z: SortedSet, h: seq<Disbursement>, clock: int, price: Prices) {
    var last := LastAt(h);
    && (forall id | id in last :: ProperAmount(price(id)) && last[id] + DAY_MS < z.expireAt)
    && (forall id | id in last && Member(price(id), id) in z.members ::
          z.members[Member(price(id), id)] == last[id])
    && (forall m | m in z.members :: MemberLoan(m) in last && m == Member(price(MemberLoan(m)), MemberLoan(m)))
    && (forall id | id in last && last[id] >= clock - DAY_MS :: Member(price(id), id) in z.members)
  }

  /** Agreement, and no recorded instant six hours or more ahead of the clock. */
  ghost predicate KeyAgrees(z: SortedSet, h: seq<Disbursement>, clock: int, price: Prices) {
    && Agrees(z, h, clock, price)
    && forall id | id in LastAt(h) :: LastAt(h)[id] < clock + SLACK_MS
  }

  lemma ClockKeepsAgreement(z: SortedSet, h: seq<Disbursement>, clock: int, now: int, price: Prices)
    requires KeyAgrees(z, h, clock, price) && clock <= now
    ensures KeyAgrees(z, h, now, price)
  {
  }

  lemma LastAtAppend(h: seq<Disbursement>, d: Disbursement)
    ensures LastAt(h + [d]) == LastAt(h)[d.loanId := d.at]
  {
    assert (h + [d])[..|h|] == h;
  }

  /** Recording (also a replay, also after the key has expired) keeps agreement, as long as the
      recorded instant is less than six hours ahead of the clock. */
  lemma RecordKeepsAgreement(z: SortedSet, h: seq<Disbursement>, clock: int, now: int,
                             id: string, at: int, price: Prices)
    requires KeyAgrees(z, h, clock, price) && clock <= now
    requires ProperAmount(price(id)) && at < now + SLACK_MS
    ensures KeyAgrees(Recorded(z, Member(price(id), id), at, now), h + [Disbursement(id, at)], now, price)
  {
    LastAtAppend(h, Disbursement(id, at));
    MemberDecodes(price(id), id);
    forall i | i in LastAt(h)
      ensures MemberLoan(Member(price(i), i)) == i
    {
      MemberDecodes(price(i), i);
    }
  }

  lemma PruneKeepsAgreement(z: SortedSet, h: seq<Disbursement>, clock: int, now: int, price: Prices)
    requires KeyAgrees(z, h, clock, price) && clock <= now
    ensures KeyAgrees(Pruned(z, now - DAY_MS, now), h, now, price)
  {
  }

  /** The members ZRANGEBYSCORE key cutoff +inf returns, in some order. */
  function WindowMembers(z: SortedSet, now: int): set<string> {
    var v := Visible(z, now);
    set m | m in v && v[m] >= now - DAY_MS
  }

  lemma WindowMembersAreWindowLoans(z: SortedSet, h: seq<Disbursement>, clock: int, now: int, price: Prices)
    requires Agrees(z, h, clock, price) && clock <= now
    ensures forall id | id in WindowLoans(h, now) ::
              Member(price(id), id) in WindowMembers(z, now) && MemberLoan(Member(price(id), id)) == id
    ensures forall m | m in WindowMembers(z, now) ::
              MemberLoan(m) in WindowLoans(h, now) && m == Member(price(MemberLoan(m)), MemberLoan(m))
  {
    forall id | id in LastAt(h)
      ensures MemberLoan(Member(price(id), id)) == id
    {
      MemberDecodes(price(id), id);
    }
  }

  /** Pruning, expiry, replays and the text encoding never change the answer. */
  lemma SortedSetTotalIsRollingTotal(z: SortedSet, h: seq<Disbursement>, clock: int, now: int,
                                     price: Prices, numberOf: NumberOf)
    requires KeyAgrees(z, h, clock, price) && clock <= now
    ensures Sum(WindowMembers(z, now), MemberNaira(numberOf)) == RollingTotal(h, now, price, numberOf)
  {
    var ids, members := WindowLoans(h, now), WindowMembers(z, now);
    var g := (id: string) => Member(price(id), id);
    WindowMembersAreWindowLoans(z, h, clock, now, price);
    forall id | id in ids
      ensures MemberNaira(numberOf)(g(id)) == LoanNaira(price, numberOf)(id)
    {
      MemberDecodes(price(id), id);
    }
    hide Agrees, WindowLoans, WindowMembers, MemberNaira, LoanNaira, Member, MemberLoan;
    forall m | m in members
      ensures exists id :: id in ids && g(id) == m
    {
      assert g(MemberLoan(m)) == m;
    }
    SumRelabelled(ids, members, g, LoanNaira(price, numberOf), MemberNaira(numberOf));
  }

  /** The six hours are exactly what the 30 h key life affords: one disbursement recorded at `at`
      agrees with its history at every later instant if and only if at is under now + 6 h. */
  lemma SlackIsExact(id: string, at: int, now: int, price: Prices)
    requires ProperAmount(price(id))
    ensures at < now + SLACK_MS
            <==> forall t | t >= now ::
                   WindowLoans([Disbursement(id, at)], t) == {id}
                   ==> Member(price(id), id) in Visible(Recorded(NO_KEY, Member(price(id), id), at, now), t)
  {
    var z := Recorded(NO_KEY, Member(price(id), id), at, now);
    LastAtAppend([], Disbursement(id, at));
    assert [] + [Disbursement(id, at)] == [Disbursement(id, at)];
    assert LastAt([Disbursement(id, at)]) == map[id := at];
    forall t
      ensures WindowLoans([Disbursement(id, at)], t) == {id} <==> at >= t - DAY_MS
    {
      assert at >= t - DAY_MS ==> id in WindowLoans([Disbursement(id, at)], t);
      assert at < t - DAY_MS ==> id !in WindowLoans([Disbursement(id, at)], t);
      assert forall i | i in WindowLoans([Disbursement(id, at)], t) :: i == id;
    }
    if at >= now + SLACK_MS {
      var t := now + KEY_TTL_MS;
      assert WindowLoans([Disbursement(id, at)], t) == {id};
      assert Member(price(id), id) !in Visible(z, t);
    }
  }

  lemma ExpiredKeyIsEmpty(z: SortedSet, member: string, at: int, now: int)
    ensures WindowMembers(Recorded(z, member, at, now), now + KEY_TTL_MS) == {}
  {
  }

  lemma StillInWindow(h: seq<Disbursement>, id: string, at: int, t: int)
    requires at >= t - DAY_MS
    ensures id in WindowLoans(h + [Disbursement(id, at)], t)
  {
    LastAtAppend(h, Disbursement(id, at));
  }

  /** In any agreeing state, recording a loan worth something leaves the sum right at every later instant
      if and only if the recorded instant is under six hours ahead: past that the key expires first. */
  lemma RecordingIsFaithfulExactlyWhen(z: SortedSet, h: seq<Disbursement>, clock: int, now: int,
                                       id: string, at: int, price: Prices, numberOf: NumberOf)
    requires KeyAgrees(z, h, clock, price) && clock <= now && ProperAmount(price(id))
    requires LoanNaira(price, numberOf)(id) > 0.0
    requires forall i | i in LastAt(h) :: LoanNaira(price, numberOf)(i) >= 0.0
    ensures at < now + SLACK_MS
            <==> forall t | t >= now ::
                   Sum(WindowMembers(Recorded(z, Member(price(id), id), at, now), t), MemberNaira(numberOf))
                   == RollingTotal(h + [Disbursement(id, at)], t, price, numberOf)
  {
    var z', h' := Recorded(z, Member(price(id), id), at, now), h + [Disbursement(id, at)];
    if at < now + SLACK_MS {
      RecordKeepsAgreement(z, h, clock, now, id, at, price);
      forall t | t >= now
        ensures Sum(WindowMembers(z', t), MemberNaira(numberOf)) == RollingTotal(h', t, price, numberOf)
      {
        SortedSetTotalIsRollingTotal(z', h', now, t, price, numberOf);
      }
    } else {
      var t := now + KEY_TTL_MS;
      ExpiredKeyIsEmpty(z, Member(price(id), id), at, now);
      StillInWindow(h, id, at, t);
      LastAtAppend(h, Disbursement(id, at));
      var f := LoanNaira(price, numberOf);
      assert forall i | i in WindowLoans(h', t) :: f(i) >= 0.0;
      SumTakeOut(WindowLoans(h', t), f, id);
      SumOfPart({}, WindowLoans(h', t) - {id}, f);
      assert RollingTotal(h', t, price, numberOf) > 0.0;
      assert Sum(WindowMembers(z', t), MemberNaira(numberOf)) == 0.0;
    }
    hide KeyAgrees, Recorded, WindowMembers, WindowLoans, RollingTotal, Sum, MemberNaira, LoanNaira;
  }

  /** Recording one loan twice, on any key and at any two instants still in the window, counts once exactly
      when the amount is spelled the same both times: "110" and "110.00" make two members, and the loan is
      summed twice. */
  lemma SameLoanIsIdempotentIffSameText(z: SortedSet, a: string, b: string, id: string,
                                        at1: int, now1: int, at2: int, now2: int, t: int)
    requires ProperAmount(a) && ProperAmount(b)
    requires now1 <= now2 < now1 + KEY_TTL_MS && now2 <= t < now2 + KEY_TTL_MS
    requires t - DAY_MS <= at1 && t - DAY_MS <= at2
    ensures var z' := Recorded(Recorded(z, Member(a, id), at1, now1), Member(b, id), at2, now2);
            |WindowMembers(z', t) * {Member(a, id), Member(b, id)}| == (if a == b then 1 else 2)
  {
    var z' := Recorded(Recorded(z, Member(a, id), at1, now1), Member(b, id), at2, now2);
    assert WindowMembers(z', t) * {Member(a, id), Member(b, id)} == {Member(a, id), Member(b, id)};
    MemberDecodes(a, id);
    MemberDecodes(b, id);
  }

  // ---------------------------------------------------------------- The service

  /** CsdpLiveCountersService over its Redis client: one sorted set per subscriber. */
  class LiveCountersService {
    var keys: map<string, SortedSet>
    const numberOf: NumberOf
    ghost const price: Prices
    ghost var history: map<string, seq<Disbursement>>
    ghost var clock: int

    ghost function History(msisdn: string): seq<Disbursement>
      reads this
    {
      if msisdn in history then history[msisdn] else []
    }

    function Key(msisdn: string): SortedSet
      reads this
    {
      if msisdn in keys then keys[msisdn] else NO_KEY
    }

    ghost predicate Valid()
      reads this
    {
      forall m: string :: KeyAgrees(Key(m), History(m), clock, price)
    }

    constructor (numberOf: NumberOf, ghost price: Prices, ghost clock: int)
      ensures Valid() && history == map[]
      ensures this.numberOf == numberOf && this.price == price && this.clock == clock
    {
      this.keys := map[];
      this.numberOf := numberOf;
      this.price := price;
      this.history := map[];
      this.clock := clock;
    }

    method RecordDisbursement(msisdn: string, loanId: string, repayableNaira: string, atMs: int, now: int)
      requires Valid() && clock <= now
      requires repayableNaira == price(loanId) && ProperAmount(repayableNaira) && atMs < now + SLACK_MS
      modifies this
      ensures Valid() && clock == now
      ensures history == old(history)[msisdn := old(History(msisdn)) + [Disbursement(loanId, atMs)]]
    {
      hide KeyAgrees, Recorded, Member, ProperAmount;
      ghost var z, h, was := Key(msisdn), History(msisdn), clock;
      keys := keys[msisdn := Recorded(Key(msisdn), Member(repayableNaira, loanId), atMs, now)];
      history := history[msisdn := h + [Disbursement(loanId, atMs)]];
      clock := now;
      forall m: string
        ensures KeyAgrees(Key(m), History(m), clock, price)
      {
        if m == msisdn {
          RecordKeepsAgreement(z, h, was, now, loanId, atMs, price);
          assert Key(m) == Recorded(z, Member(repayableNaira, loanId), atMs, now);
        } else {
          assert Key(m) == old(Key(m)) && History(m) == old(History(m));
          ClockKeepsAgreement(Key(m), History(m), was, now, price);
        }
      }
    }

    /** The members are visited in an arbitrary order, Redis's own order included. */
    method SumDisbursed24hNaira(msisdn: string, now: int) returns (total: real)
      requires Valid() && clock <= now
      modifies this
      ensures Valid() && clock == now && history == old(history)
      ensures total == RollingTotal(History(msisdn), now, price, numberOf)
    {
      hide KeyAgrees, Pruned, RollingTotal, WindowMembers;
      ghost var z, was := Key(msisdn), clock;
      keys := keys[msisdn := Pruned(Key(msisdn), now - DAY_MS, now)];
      clock := now;
      forall m: string
        ensures KeyAgrees(Key(m), History(m), clock, price)
      {
        if m == msisdn {
          PruneKeepsAgreement(z, History(m), was, now, price);
        } else {
          assert Key(m) == old(Key(m)) && History(m) == old(History(m));
          ClockKeepsAgreement(Key(m), History(m), was, now, price);
        }
      }
      SortedSetTotalIsRollingTotal(Key(msisdn), History(msisdn), clock, now, price, numberOf);
      total := SumMembers(WindowMembers(Key(msisdn), now));
    }

    method SumMembers(members: set<string>) returns (total: real)
      ensures total == Sum(members, MemberNaira(numberOf))
    {
      total := 0.0;
      var rest := members;
      while rest != {}
        invariant total + Sum(rest, MemberNaira(numberOf)) == Sum(members, MemberNaira(numberOf))
        decreases rest
      {
        var m :| m in rest;
        SumTakeOut(rest, MemberNaira(numberOf), m);
        total := total + MemberNaira(numberOf)(m);
        rest := rest - {m};
      }
    }
  }
}
