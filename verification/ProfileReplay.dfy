/** The profile decision, what is logged of it, and what a replay of the same trans_ref gets back.
    Limits are kobo: the legacy leg accepts at most two decimals and the heuristic serves whole naira. */
module ProfileReplay {
  import opened Wrappers

  datatype Mode = STUB_DENY | PROXY | SHADOW | LIVE_5 | LIVE_50 | LIVE

  datatype Winner = STUB | TEAMWEE | RIM | FALLBACK

  datatype Decision = Decision(
    response: int,
    teamweeLimit: Option<int>,
    rimLimit: Option<int>,
    winner: Winner,
    mode: Mode,
    errorReason: Option<string>)

  /** What both legs came back with: the legacy leg inside its budget or not, the proxied limit or the
      reason it failed, and the heuristic's final limit in naira when it ran. */
  datatype Legs = Legs(decided: bool, proxied: Option<int>, proxyError: string, budgetError: string, scored: Option<int>)

  // ---------------------------------------------------------------- Deciding

  function StubDeny(mode: Mode): Decision {
    Decision(0, None, None, STUB, mode, None)
  }

  function Proxy(mode: Mode, proxied: Option<int>, error: string): Decision {
    match proxied
    case Some(limit) => Decision(limit, Some(limit), None, TEAMWEE, mode, None)
    case None => Decision(0, None, None, FALLBACK, mode, Some(error))
  }

  function Decide(mode: Mode, legs: Legs): Decision {
    if mode == STUB_DENY then StubDeny(mode) else Proxy(mode, legs.proxied, legs.proxyError)
  }

  function Fallback(error: string): Decision {
    Decision(0, None, None, FALLBACK, STUB_DENY, Some(error))
  }

  function CohortThreshold(mode: Mode): nat {
    match mode
    case LIVE_5 => 5
    case LIVE_50 => 50
    case _ => 0
  }

  /** bucket is the subscriber's hash bucket in 0..99. */
  predicate InCohort(bucket: nat, threshold: nat) {
    if threshold <= 0 then false
    else if threshold >= 100 then true
    else bucket < threshold
  }

  function SelectFinal(mode: Mode, legacy: Decision, scored: Option<int>, bucket: nat): Decision {
    if mode == STUB_DENY || mode == PROXY || mode == SHADOW then legacy
    else if mode != LIVE && !InCohort(bucket, CohortThreshold(mode)) then legacy.(mode := SHADOW)
    else match scored
      case None =>
        legacy.(mode := mode,
                errorReason := if legacy.errorReason.Some? then legacy.errorReason else Some("scoring_unavailable"))
      case Some(naira) =>
        Decision(100 * naira, legacy.teamweeLimit, Some(100 * naira), RIM, mode, None)
  }

  function Legacy(mode: Mode, legs: Legs): Decision {
    if legs.decided then Decide(mode, legs) else Fallback(legs.budgetError)
  }

  /** The controller: the legacy leg's own mode decides, so a blown budget serves as STUB_DENY. */
  function Serve(mode: Mode, legs: Legs, bucket: nat): Decision {
    SelectFinal(Legacy(mode, legs).mode, Legacy(mode, legs), legs.scored, bucket)
  }

  // ---------------------------------------------------------------- Logging and replaying

  datatype Row = Row(winner: Winner, mode: Mode, teamweeLimit: Option<int>, rimLimit: Option<int>, finalLimit: Option<int>)

  /** The log row: rim_limit_naira carries the heuristic's limit whenever it ran, served or not. */
  function LogRow(d: Decision, scored: Option<int>): Row {
    Row(d.winner, d.mode, d.teamweeLimit, if scored.Some? then Some(100 * scored.value) else d.rimLimit, scored)
  }

  function OrZero(x: Option<int>): int {
    if x.Some? then x.value else 0
  }

  function DeriveResponse(r: Row): int {
    match r.winner
    case TEAMWEE => OrZero(r.teamweeLimit)
    case RIM => if r.rimLimit.Some? then r.rimLimit.value else 100 * OrZero(r.finalLimit)
    case STUB => 0
    case FALLBACK => 0
  }

  /** The amount rebuilt from the row is the amount served, for every mode, bucket and outcome of the legs. */
  lemma RowRebuildsServedAmount(mode: Mode, legs: Legs, bucket: nat)
    ensures DeriveResponse(LogRow(Serve(mode, legs, bucket), legs.scored)) == Serve(mode, legs, bucket).response
  {
    var legacy := Legacy(mode, legs);
    assert legacy.winner != RIM && DeriveResponse(LogRow(legacy, legs.scored)) == legacy.response;
  }

  /** Who is served by the heuristic: exactly the LIVE traffic, or the cohort's share of it, whose legacy
      leg kept its budget and whose score arrived. Everyone else keeps the legacy amount. */
  lemma WhoIsServedByTheHeuristic(mode: Mode, legs: Legs, bucket: nat)
    ensures Serve(mode, legs, bucket).winner == RIM
            <==> legs.decided && legs.scored.Some?
                 && (mode == LIVE || (mode == LIVE_5 && bucket < 5) || (mode == LIVE_50 && bucket < 50))
    ensures Serve(mode, legs, bucket).response
            == if Serve(mode, legs, bucket).winner == RIM then 100 * legs.scored.value
               else if legs.decided && mode != STUB_DENY then OrZero(legs.proxied) else 0
  {
  }

  /** A rollout of n percent takes the n lowest of the hundred buckets. */
  lemma CohortIsShareOfBuckets(bucket: nat, threshold: nat)
    requires bucket < 100
    ensures InCohort(bucket, threshold) <==> bucket < threshold
  {
  }

  /** What the caller and the log see besides the amount. A heuristic answer carries its own amount as limit
      and no error. Any other answer carries no heuristic limit, and an error exactly when something went
      wrong: the legacy leg failed, or a score was due and did not come. */
  lemma IncidentsAreVisible(mode: Mode, legs: Legs, bucket: nat)
    ensures var d := Serve(mode, legs, bucket);
            var due := mode == LIVE || (mode == LIVE_5 && bucket < 5) || (mode == LIVE_50 && bucket < 50);
            && d.mode == (if !legs.decided then STUB_DENY
                          else if (mode == LIVE_5 || mode == LIVE_50) && !due then SHADOW else mode)
            && d.winner == (if !legs.decided then FALLBACK
                            else if mode == STUB_DENY then STUB
                            else if due && legs.scored.Some? then RIM
                            else if legs.proxied.Some? then TEAMWEE else FALLBACK)
            && if d.winner == RIM then
              d.rimLimit == Some(d.response) && d.errorReason == None && d.teamweeLimit == legs.proxied
            else
              && d.rimLimit == None
              && d.errorReason
                 == (if !legs.decided then Some(legs.budgetError)
                     else if mode == STUB_DENY then None
                     else if legs.proxied.None? then Some(legs.proxyError)
                     else if due && legs.scored.None? then Some("scoring_unavailable") else None)
  {
  }

  /** The log row keeps who won and in which mode, the legacy limit, and the heuristic's limit whenever the
      heuristic ran, served or not. */
  lemma RowRecordsBothLegs(mode: Mode, legs: Legs, bucket: nat)
    ensures var d, row := Serve(mode, legs, bucket), LogRow(Serve(mode, legs, bucket), legs.scored);
            && row.winner == d.winner && row.mode == d.mode
            && row.teamweeLimit == (if legs.decided && mode != STUB_DENY then legs.proxied else None)
            && row.rimLimit == (if legs.scored.Some? then Some(100 * legs.scored.value) else None)
            && row.finalLimit == legs.scored
  {
  }

  /** A row without a heuristic limit falls back on the final limit for a heuristic answer, and 0. */
  lemma FallbackAmounts(mode: Mode, teamwee: Option<int>, final: Option<int>)
    ensures DeriveResponse(Row(RIM, mode, teamwee, None, final)) == (if final.Some? then 100 * final.value else 0)
    ensures DeriveResponse(Row(TEAMWEE, mode, None, None, final)) == 0
  {
  }

  /** The rollout only adds subscribers: whoever the heuristic serves at 5% it serves at 50% and at 100%. */
  lemma RampOnlyAdds(legs: Legs, bucket: nat)
    ensures Serve(LIVE_5, legs, bucket).winner == RIM ==> Serve(LIVE_50, legs, bucket).winner == RIM
    ensures Serve(LIVE_50, legs, bucket).winner == RIM ==> Serve(LIVE, legs, bucket).winner == RIM
    ensures Serve(LIVE_5, legs, bucket).winner == RIM ==>
              Serve(LIVE_5, legs, bucket).response == Serve(LIVE, legs, bucket).response
  {
    WhoIsServedByTheHeuristic(LIVE_5, legs, bucket);
    WhoIsServedByTheHeuristic(LIVE_50, legs, bucket);
    WhoIsServedByTheHeuristic(LIVE, legs, bucket);
  }

  // ---------------------------------------------------------------- Runs of requests

  const CACHE_WINDOW_MS := 24 * 60 * 60 * 1000

  datatype Logged = Logged(transRef: string, requestedAt: int, row: Row)

  datatype Answer = Answer(transRef: string, amount: int)

  /** The stored log, the rows still queued for it, every answer given, and the clock. */
  datatype System = System(log: seq<Logged>, queue: seq<Logged>, answers: seq<Answer>, clock: int)

  datatype Event =
    | Profile(transRef: string, now: int, mode: Mode, legs: Legs, bucket: nat)
    | Persisted(k: nat)
    | Lost(k: nat)

  /** The row of trans_ref inside the cache window, if any. */
  function Lookup(log: seq<Logged>, ref: string, now: int): Option<Row> {
    if log == [] then None
    else
      var l := log[|log| - 1];
      if l.transRef == ref && l.requestedAt > now - CACHE_WINDOW_MS then Some(l.row)
      else Lookup(log[..|log| - 1], ref, now)
  }

  predicate InLog(log: seq<Logged>, ref: string) {
    exists i :: 0 <= i < |log| && log[i].transRef == ref
  }

  function Without(q: seq<Logged>, k: nat): seq<Logged>
    requires k < |q|
  {
    q[..k] + q[k + 1..]
  }

  predicate Possible(s: System, e: Event) {
    match e
    case Profile(_, now, _, _, _) => s.clock <= now
    case Persisted(k) => k < |s.queue|
    case Lost(k) => k < |s.queue|
  }

  /** A hit answers from the row; a miss serves, and queues the row. Persisting a row whose trans_ref is
      already logged does nothing. */
  function Next(s: System, e: Event): System
    requires Possible(s, e)
  {
    match e
    case Profile(ref, now, mode, legs, bucket) =>
      var hit := Lookup(s.log, ref, now);
      if hit.Some? then System(s.log, s.queue, s.answers + [Answer(ref, DeriveResponse(hit.value))], now)
      else
        var d := Serve(mode, legs, bucket);
        System(s.log, s.queue + [Logged(ref, now, LogRow(d, legs.scored))], s.answers + [Answer(ref, d.response)], now)
    case Persisted(k) =>
      s.(log := if InLog(s.log, s.queue[k].transRef) then s.log else s.log + [s.queue[k]],
         queue := Without(s.queue, k))
    case Lost(k) => s.(queue := Without(s.queue, k))
  }

  predicate PossibleRun(s: System, es: seq<Event>)
    decreases |es|
  {
    es != [] ==> Possible(s, es[0]) && PossibleRun(Next(s, es[0]), es[1..])
  }

  function Run(s: System, es: seq<Event>): System
    requires PossibleRun(s, es)
    decreases |es|
  {
    if es == [] then s else Run(Next(s, es[0]), es[1..])
  }

  predicate UniqueRefs(log: seq<Logged>) {
    forall i, j | 0 <= i < j < |log| :: log[i].transRef != log[j].transRef
  }

  /** Some caller was given this row's amount for its trans_ref. */
  predicate WasServed(l: Logged, answers: seq<Answer>) {
    Answer(l.transRef, DeriveResponse(l.row)) in answers
  }

  predicate LogSound(s: System) {
    && UniqueRefs(s.log)
    && (forall i | 0 <= i < |s.log| :: WasServed(s.log[i], s.answers))
    && (forall i | 0 <= i < |s.queue| :: WasServed(s.queue[i], s.answers))
  }

  lemma {:induction false} LookupFinds(log: seq<Logged>, ref: string, now: int)
    ensures Lookup(log, ref, now).Some? ==>
              exists i :: 0 <= i < |log| && log[i].transRef == ref && log[i].requestedAt > now - CACHE_WINDOW_MS
                && log[i].row == Lookup(log, ref, now).value
    ensures Lookup(log, ref, now).None? ==>
              forall i | 0 <= i < |log| && log[i].transRef == ref :: log[i].requestedAt <= now - CACHE_WINDOW_MS
  {
    if log != [] {
      var init := log[..|log| - 1];
      LookupFinds(init, ref, now);
      if Lookup(log, ref, now) == Lookup(init, ref, now) && Lookup(init, ref, now).Some? {
        var i :| 0 <= i < |init| && init[i].transRef == ref && init[i].requestedAt > now - CACHE_WINDOW_MS
                 && init[i].row == Lookup(init, ref, now).value;
        assert log[i] == init[i];
      }
    }
  }

  lemma NextKeepsLogSound(s: System, e: Event)
    requires LogSound(s) && Possible(s, e)
    ensures LogSound(Next(s, e))
  {
    match e {
      case Profile(ref, now, mode, legs, bucket) =>
        RowRebuildsServedAmount(mode, legs, bucket);
        var s' := Next(s, e);
        assert forall a | a in s.answers :: a in s'.answers;
        assert s'.answers[|s.answers|] in s'.answers;
      case Persisted(k) =>
      case Lost(k) =>
    }
  }

  lemma {:induction false} RunKeepsLogSound(s: System, es: seq<Event>)
    requires LogSound(s) && PossibleRun(s, es)
    ensures LogSound(Run(s, es))
    decreases |es|
  {
    if es != [] {
      NextKeepsLogSound(s, es[0]);
      RunKeepsLogSound(Next(s, es[0]), es[1..]);
    }
  }

  /** The log only grows, at its end. */
  predicate Extends(log: seq<Logged>, later: seq<Logged>) {
    |log| <= |later| && later[..|log|] == log
  }

  lemma {:induction false} RunExtendsLog(s: System, es: seq<Event>)
    requires PossibleRun(s, es)
    ensures Extends(s.log, Run(s, es).log)
    decreases |es|
  {
    if es != [] {
      RunExtendsLog(Next(s, es[0]), es[1..]);
    }
  }

  /** Lookups made at any two points of a run that both find a row of one trans_ref agree, on an amount
      that some caller had been served by the earlier point. */
  lemma LookupsAgree(es: seq<Event>, fs: seq<Event>, clock: int, ref: string, t: int, u: int)
    requires PossibleRun(System([], [], [], clock), es)
    requires PossibleRun(Run(System([], [], [], clock), es), fs)
    ensures var s := Run(System([], [], [], clock), es);
            var x, y := Lookup(s.log, ref, t), Lookup(Run(s, fs).log, ref, u);
            && (x.Some? && y.Some? ==> x == y)
            && (x.Some? ==> Answer(ref, DeriveResponse(x.value)) in s.answers)
  {
    RunKeepsLogSound(System([], [], [], clock), es);
    var s := Run(System([], [], [], clock), es);
    RunKeepsLogSound(s, fs);
    RunExtendsLog(s, fs);
    LookupFinds(s.log, ref, t);
    LookupFinds(Run(s, fs).log, ref, u);
    OneRowOfEach(s.log, Run(s, fs).log);
    hide Run, PossibleRun, Lookup, DeriveResponse;
  }

  lemma OneRowOfEach(log: seq<Logged>, later: seq<Logged>)
    requires Extends(log, later) && UniqueRefs(later)
    ensures forall i, j | 0 <= i < |log| && 0 <= j < |later| && log[i].transRef == later[j].transRef ::
              log[i] == later[j]
  {
    assert forall i | 0 <= i < |log| :: later[i] == log[i];
  }

  // ---------------------------------------------------------------- Rows that are stored can be found

  /** Storing a queued row makes its trans_ref findable for 24 hours, with that row unless an earlier one of
      the same trans_ref had been stored. */
  lemma PersistedRowIsFound(s: System, k: nat, now: int)
    requires LogSound(s) && k < |s.queue| && !InLog(s.log, s.queue[k].transRef)
    ensures var l := s.queue[k];
            Lookup(Next(s, Persisted(k)).log, l.transRef, now)
            == if now - l.requestedAt < 24 * 60 * 60 * 1000 then Some(l.row) else None
  {
    var l, log := s.queue[k], Next(s, Persisted(k)).log;
    assert log == s.log + [l] && log[..|log| - 1] == s.log;
    LookupFinds(s.log, l.transRef, now);
  }

  lemma {:induction false} FoundStaysFound(log: seq<Logged>, later: seq<Logged>, ref: string, now: int)
    requires Extends(log, later) && UniqueRefs(later) && Lookup(log, ref, now).Some?
    ensures Lookup(later, ref, now) == Lookup(log, ref, now)
  {
    LookupFinds(log, ref, now);
    LookupFinds(later, ref, now);
    OneRowOfEach(log, later);
    var i :| 0 <= i < |log| && log[i].transRef == ref && log[i].requestedAt > now - CACHE_WINDOW_MS
             && log[i].row == Lookup(log, ref, now).value;
    assert later[i] == log[i];
  }

  /** The whole round: a new trans_ref is decided, its row is stored, anything may happen in between and
      after, and the same trans_ref within 24 hours of the decision hears the amount that was served. */
  lemma StoredDecisionIsReplayed(s: System, ref: string, now: int, mode: Mode, legs: Legs, bucket: nat,
                                 es: seq<Event>, again: Event)
    requires LogSound(s) && s.clock <= now && !InLog(s.log, ref) && Lookup(s.log, ref, now).None?
    requires var s1 := Next(s, Profile(ref, now, mode, legs, bucket));
             PossibleRun(Next(s1, Persisted(|s.queue|)), es)
    requires var s1 := Next(s, Profile(ref, now, mode, legs, bucket));
             var s2 := Run(Next(s1, Persisted(|s.queue|)), es);
             again.Profile? && again.transRef == ref && Possible(s2, again) && again.now < now + CACHE_WINDOW_MS
    ensures var s1 := Next(s, Profile(ref, now, mode, legs, bucket));
            var s2 := Run(Next(s1, Persisted(|s.queue|)), es);
            && s1.answers == s.answers + [Answer(ref, Serve(mode, legs, bucket).response)]
            && Next(s2, again).answers == s2.answers + [Answer(ref, Serve(mode, legs, bucket).response)]
  {
    NextKeepsLogSound(s, Profile(ref, now, mode, legs, bucket));
    var s1 := Next(s, Profile(ref, now, mode, legs, bucket));
    var k := |s.queue|;
    assert s1.queue[k] == Logged(ref, now, LogRow(Serve(mode, legs, bucket), legs.scored)) && s1.log == s.log;
    PersistedRowIsFound(s1, k, again.now);
    NextKeepsLogSound(s1, Persisted(k));
    var log := Next(s1, Persisted(k)).log;
    RunKeepsLogSound(Next(s1, Persisted(k)), es);
    RunExtendsLog(Next(s1, Persisted(k)), es);
    FoundStaysFound(log, Run(Next(s1, Persisted(k)), es).log, ref, again.now);
    RowRebuildsServedAmount(mode, legs, bucket);
    hide Serve, LogRow, DeriveResponse, Run, PossibleRun, Lookup, LogSound;
  }

  // ---------------------------------------------------------------- When every caller hears the same

  /** A trans_ref is presented again only once its row can be found. */
  predicate NoRace(s: System, e: Event) {
    e.Profile? ==>
      (forall i | 0 <= i < |s.answers| :: s.answers[i].transRef == e.transRef ==> Lookup(s.log, e.transRef, e.now).Some?)
  }

  predicate RaceFreeRun(s: System, es: seq<Event>)
    requires PossibleRun(s, es)
    decreases |es|
  {
    es != [] ==> NoRace(s, es[0]) && RaceFreeRun(Next(s, es[0]), es[1..])
  }

  predicate OneAmountPerRef(answers: seq<Answer>) {
    forall i, j | 0 <= i < |answers| && 0 <= j < |answers| && answers[i].transRef == answers[j].transRef ::
      answers[i] == answers[j]
  }

  lemma {:induction false} RaceFreeRunAnswersOnce(s: System, es: seq<Event>)
    requires PossibleRun(s, es) && RaceFreeRun(s, es) && LogSound(s) && OneAmountPerRef(s.answers)
    ensures OneAmountPerRef(Run(s, es).answers)
    decreases |es|
  {
    if es != [] {
      NextKeepsLogSound(s, es[0]);
      if es[0].Profile? {
        LookupFinds(s.log, es[0].transRef, es[0].now);
      }
      RaceFreeRunAnswersOnce(Next(s, es[0]), es[1..]);
    }
  }

  /** Replay returns what was served: in every run without a race all answers to one trans_ref are equal. */
  lemma ReplayReturnsWhatWasServed(es: seq<Event>, clock: int)
    requires PossibleRun(System([], [], [], clock), es) && RaceFreeRun(System([], [], [], clock), es)
    ensures OneAmountPerRef(Run(System([], [], [], clock), es).answers)
  {
    RaceFreeRunAnswersOnce(System([], [], [], clock), es);
  }

  /** The condition cannot be dropped. When every trans_ref has one amount so far and ref was answered
      before, its next request is sure to hear the same amount, whatever the two legs have become, if and
      only if its row can be found, or the mode denies everybody and so did the earlier answer. */
  lemma ReplayIsSafeExactlyWhenFound(s: System, ref: string, now: int, mode: Mode, bucket: nat, i: nat)
    requires LogSound(s) && OneAmountPerRef(s.answers) && s.clock <= now
    requires i < |s.answers| && s.answers[i].transRef == ref
    ensures (forall legs :: OneAmountPerRef(Next(s, Profile(ref, now, mode, legs, bucket)).answers))
            <==> Lookup(s.log, ref, now).Some? || (mode == STUB_DENY && s.answers[i].amount == 0)
  {
    if Lookup(s.log, ref, now).Some? {
      FoundReplayAgrees(s, ref, now, mode, bucket);
    } else if mode == STUB_DENY && s.answers[i].amount == 0 {
      forall legs
        ensures OneAmountPerRef(Next(s, Profile(ref, now, mode, legs, bucket)).answers)
      {
        WhoIsServedByTheHeuristic(mode, legs, bucket);
        assert Next(s, Profile(ref, now, mode, legs, bucket)).answers == s.answers + [Answer(ref, 0)];
      }
    } else {
      var other := s.answers[i].amount + 1;
      var legs := Legs(true, Some(other), "", "", None);
      WhoIsServedByTheHeuristic(mode, legs, bucket);
      var answers := Next(s, Profile(ref, now, mode, legs, bucket)).answers;
      assert answers[i] == s.answers[i];
      assert answers[|s.answers|] == Answer(ref, if mode == STUB_DENY then 0 else other);
      assert !OneAmountPerRef(answers);
    }
  }

  lemma FoundReplayAgrees(s: System, ref: string, now: int, mode: Mode, bucket: nat)
    requires LogSound(s) && OneAmountPerRef(s.answers) && s.clock <= now && Lookup(s.log, ref, now).Some?
    ensures forall legs :: OneAmountPerRef(Next(s, Profile(ref, now, mode, legs, bucket)).answers)
  {
    LookupFinds(s.log, ref, now);
    var a := Answer(ref, DeriveResponse(Lookup(s.log, ref, now).value));
    assert a in s.answers;
    forall legs
      ensures OneAmountPerRef(Next(s, Profile(ref, now, mode, legs, bucket)).answers)
    {
      assert Next(s, Profile(ref, now, mode, legs, bucket)).answers == s.answers + [a];
    }
  }

  /** An instance the queue makes real: a retry that arrives before the row is stored is decided afresh, and
      when the proxied limit has moved the two callers hear different amounts. */
  lemma RetryBeforePersistDiffers(a: int, b: int, e: string)
    requires a != b
    ensures var es := [Profile("T", 0, PROXY, Legs(true, Some(a), e, e, None), 0),
                       Profile("T", 1, PROXY, Legs(true, Some(b), e, e, None), 0)];
            && PossibleRun(System([], [], [], 0), es)
            && Run(System([], [], [], 0), es).answers == [Answer("T", a), Answer("T", b)]
  {
    var p, q := Profile("T", 0, PROXY, Legs(true, Some(a), e, e, None), 0),
                Profile("T", 1, PROXY, Legs(true, Some(b), e, e, None), 0);
    var es: seq<Event> := [p, q];
    assert es[1..] == [q] && es[1..][1..] == [];
    var s1 := Next(System([], [], [], 0), p);
    assert s1.log == [] && s1.answers == [Answer("T", a)];
    var s2 := Next(s1, q);
    assert Run(s2, []) == s2 && Run(s1, [q]) == s2;
  }
}
