/** The scoring-config TTL cache: coalesced refreshes, stale-while-error and the fallback to defaults,
    as interleaved steps of many loads. Instants are milliseconds. */
module ConfigCache {
  import opened Wrappers

  const TTL_MS := 60_000
  const HARD_TTL_MS := 5 * 60_000

  datatype Snapshot<C> = Snapshot(config: C, at: int)

  /** The promise in this.inFlight: when its load began, the cache age it saw (None when nothing was
      cached), and its value once settled. */
  datatype Flight<C> = Flight(startedAt: int, age: Option<int>, settled: Option<C>)

  datatype Cache<C> = Cache(cached: Option<Snapshot<C>>, inFlight: Option<Flight<C>>)

  /** What a call of load does before its first await. */
  datatype Loaded<C> = Hit(config: C) | Joined | Started

  predicate Fresh<C>(c: Cache<C>, now: int) {
    c.cached.Some? && now - c.cached.value.at < TTL_MS
  }

  function Load<C>(c: Cache<C>, now: int): (Cache<C>, Loaded<C>) {
    if Fresh(c, now) then (c, Hit(c.cached.value.config))
    else if c.inFlight.Some? then (c, Joined)
    else
      var age := if c.cached.Some? then Some(now - c.cached.value.at) else None;
      (c.(inFlight := Some(Flight(now, age, None))), Started)
  }

  function LoadFresh<C>(c: Cache<C>, now: int): (Cache<C>, Loaded<C>) {
    Load(c.(cached := None), now)
  }

  /** The in-flight read finishes: with a config, or with an error when read is None. */
  function Settle<C>(c: Cache<C>, now: int, read: Option<C>, defaults: C): Cache<C>
    requires c.inFlight.Some?
  {
    var f := c.inFlight.value;
    if read.Some? then Cache(Some(Snapshot(read.value, now)), Some(f.(settled := Some(read.value))))
    else
      var served := if c.cached.Some? && f.age.Some? && f.age.value < HARD_TTL_MS
                    then c.cached.value.config else defaults;
      c.(inFlight := Some(f.(settled := Some(served))))
  }

  // ---------------------------------------------------------------- Runs

  datatype Event<C> =
    | LoadCalled(at: int, bypass: bool)
    | ReadFinished(at: int, read: Option<C>)
    | FlightCleared

  /** What one load was given: a cached config at once, or the value of the k-th refresh. */
  datatype Ticket<C> = Now(at: int, config: C) | Awaits(at: int, flight: int)

  /** The cache with the whole past: every successful read, every refresh, and every load's ticket. */
  datatype Trace<C> = Trace(
    cache: Cache<C>,
    clock: int,
    snapshots: seq<Snapshot<C>>,
    flights: seq<Flight<C>>,
    tickets: seq<Ticket<C>>)

  function Begin<C>(clock: int): Trace<C> {
    Trace(Cache(None, None), clock, [], [], [])
  }

  function WithLast<T>(s: seq<T>, x: T): seq<T> {
    if s == [] then s else s[|s| - 1 := x]
  }

  predicate Allowed<C>(t: Trace<C>, e: Event<C>) {
    match e
    case LoadCalled(at, _) => t.clock <= at
    case ReadFinished(at, _) => t.clock <= at && t.cache.inFlight.Some? && t.cache.inFlight.value.settled.None?
    case FlightCleared => t.cache.inFlight.Some? && t.cache.inFlight.value.settled.Some?
  }

  function Next<C>(t: Trace<C>, e: Event<C>, defaults: C): Trace<C>
    requires Allowed(t, e)
  {
    match e
    case LoadCalled(at, bypass) =>
      var (cache, loaded) := if bypass then LoadFresh(t.cache, at) else Load(t.cache, at);
      match loaded {
        case Hit(config) => Trace(cache, at, t.snapshots, t.flights, t.tickets + [Now(at, config)])
        case Joined =>
          Trace(cache, at, t.snapshots, t.flights, t.tickets + [Awaits(at, |t.flights| - 1)])
        case Started =>
          Trace(cache, at, t.snapshots, t.flights + [cache.inFlight.value], t.tickets + [Awaits(at, |t.flights|)])
      }
    case ReadFinished(at, read) =>
      var cache := Settle(t.cache, at, read, defaults);
      Trace(cache, at,
            if read.Some? then t.snapshots + [Snapshot(read.value, at)] else t.snapshots,
            WithLast(t.flights, cache.inFlight.value),
            t.tickets)
    case FlightCleared => t.(cache := t.cache.(inFlight := None))
  }

  ghost predicate AllowedRun<C>(t: Trace<C>, es: seq<Event<C>>, defaults: C)
    decreases |es|
  {
    es != [] ==> Allowed(t, es[0]) && AllowedRun(Next(t, es[0], defaults), es[1..], defaults)
  }

  ghost function Run<C>(t: Trace<C>, es: seq<Event<C>>, defaults: C): Trace<C>
    requires AllowedRun(t, es, defaults)
    decreases |es|
  {
    if es == [] then t else Run(Next(t, es[0], defaults), es[1..], defaults)
  }

  // ---------------------------------------------------------------- Safety

  /** config came from a successful read less than maxAge before at. */
  ghost predicate ReadWithin<C>(snapshots: seq<Snapshot<C>>, config: C, at: int, maxAge: int) {
    exists i :: 0 <= i < |snapshots| && snapshots[i].config == config && at - snapshots[i].at < maxAge
  }

  /** Every settled refresh served a snapshot younger than the hard TTL when its load began, or the defaults. */
  ghost predicate FlightSound<C>(f: Flight<C>, snapshots: seq<Snapshot<C>>, defaults: C) {
    f.settled.Some? ==>
      f.settled.value == defaults || ReadWithin(snapshots, f.settled.value, f.startedAt, HARD_TTL_MS)
  }

  /** Every ticket points at a refresh of its own past, or holds a snapshot younger than the TTL. */
  ghost predicate TicketSound<C>(k: Ticket<C>, t: Trace<C>) {
    match k
    case Now(at, config) => ReadWithin(t.snapshots, config, at, TTL_MS)
    case Awaits(at, flight) => 0 <= flight < |t.flights| && t.flights[flight].startedAt <= at
  }

  /** The flight in the cache is the last one recorded, and every other one has settled. */
  ghost predicate OneInFlight<C>(t: Trace<C>) {
    && (forall i | 0 <= i < |t.flights| - 1 :: t.flights[i].settled.Some?)
    && (t.cache.inFlight.Some? ==> |t.flights| > 0 && t.flights[|t.flights| - 1] == t.cache.inFlight.value)
    && (t.cache.inFlight.None? && |t.flights| > 0 ==> t.flights[|t.flights| - 1].settled.Some?)
  }

  /** What is cached was read; an unsettled flight began in the past and knows the cache's age then. */
  ghost predicate CacheSound<C>(t: Trace<C>) {
    var c := t.cache;
    && (c.cached.Some? ==> c.cached.value in t.snapshots)
    && (c.inFlight.Some? ==> c.inFlight.value.startedAt <= t.clock)
    && (c.inFlight.Some? && c.inFlight.value.settled.None? && c.cached.Some? ==>
          c.inFlight.value.age == Some(c.inFlight.value.startedAt - c.cached.value.at))
  }

  ghost predicate Sound<C>(t: Trace<C>, defaults: C) {
    && OneInFlight(t) && CacheSound(t)
    && (forall f | f in t.flights :: FlightSound(f, t.snapshots, defaults))
    && (forall k | k in t.tickets :: TicketSound(k, t))
  }

  lemma ReadsGrow<C>(snapshots: seq<Snapshot<C>>, s: Snapshot<C>)
    ensures forall c, at, age :: ReadWithin(snapshots, c, at, age) ==> ReadWithin(snapshots + [s], c, at, age)
    ensures forall at, age | at - s.at < age :: ReadWithin(snapshots + [s], s.config, at, age)
  {
    forall c, at, age | ReadWithin(snapshots, c, at, age)
      ensures ReadWithin(snapshots + [s], c, at, age)
    {
      var i :| 0 <= i < |snapshots| && snapshots[i].config == c && at - snapshots[i].at < age;
      assert (snapshots + [s])[i] == snapshots[i];
    }
    assert (snapshots + [s])[|snapshots|] == s;
  }

  lemma LoadKeepsSound<C>(t: Trace<C>, at: int, bypass: bool, defaults: C)
    requires Sound(t, defaults) && Allowed(t, LoadCalled(at, bypass))
    ensures Sound(Next(t, LoadCalled(at, bypass), defaults), defaults)
  {
    var t' := Next(t, LoadCalled(at, bypass), defaults);
    assert forall k | k in t.tickets :: TicketSound(k, t');
    if !bypass && Fresh(t.cache, at) {
      var i :| 0 <= i < |t.snapshots| && t.snapshots[i] == t.cache.cached.value;
      assert ReadWithin(t'.snapshots, t.snapshots[i].config, at, TTL_MS);
    }
  }

  lemma ReadKeepsSound<C>(t: Trace<C>, at: int, read: Option<C>, defaults: C)
    requires Sound(t, defaults) && Allowed(t, ReadFinished(at, read))
    ensures Sound(Next(t, ReadFinished(at, read), defaults), defaults)
  {
    var t', f := Next(t, ReadFinished(at, read), defaults), t.cache.inFlight.value;
    if read.Some? {
      ReadsGrow(t.snapshots, Snapshot(read.value, at));
    } else if t.cache.cached.Some? && f.age.Some? && f.age.value < HARD_TTL_MS {
      var i :| 0 <= i < |t.snapshots| && t.snapshots[i] == t.cache.cached.value;
      assert ReadWithin(t'.snapshots, t.snapshots[i].config, f.startedAt, HARD_TTL_MS);
    }
    assert FlightSound(t'.cache.inFlight.value, t'.snapshots, defaults);
    forall i | 0 <= i < |t'.flights|
      ensures FlightSound(t'.flights[i], t'.snapshots, defaults)
    {
      if i < |t'.flights| - 1 {
        assert t'.flights[i] == t.flights[i] && t.flights[i] in t.flights;
      }
    }
    forall k | k in t'.tickets
      ensures TicketSound(k, t')
    {
      assert TicketSound(k, t);
    }
  }

  /** Over every interleaving: one refresh in flight at most, every joining load tied to it, and every
      config handed out young enough or the defaults. */
  lemma {:induction false} RunIsSound<C>(t: Trace<C>, es: seq<Event<C>>, defaults: C)
    requires Sound(t, defaults) && AllowedRun(t, es, defaults)
    ensures Sound(Run(t, es, defaults), defaults)
    decreases |es|
  {
    if es != [] {
      match es[0] {
        case LoadCalled(at, bypass) => LoadKeepsSound(t, at, bypass, defaults);
        case ReadFinished(at, read) => ReadKeepsSound(t, at, read, defaults);
        case FlightCleared =>
      }
      RunIsSound(Next(t, es[0], defaults), es[1..], defaults);
    }
  }

  /** The config a load resolves to, once it does. */
  function Resolved<C>(t: Trace<C>, k: nat): Option<C>
    requires k < |t.tickets|
  {
    match t.tickets[k]
    case Now(_, config) => Some(config)
    case Awaits(_, flight) => if 0 <= flight < |t.flights| then t.flights[flight].settled else None
  }

  /** The instant a load's answer is measured from: its own start for a hit, the start of the load that
      began the refresh otherwise. */
  function MeasuredFrom<C>(t: Trace<C>, k: nat): int
    requires k < |t.tickets|
  {
    match t.tickets[k]
    case Now(at, _) => at
    case Awaits(at, flight) => if 0 <= flight < |t.flights| then t.flights[flight].startedAt else at
  }

  lemma EveryLoadGetsYoungConfigOrDefaults<C>(es: seq<Event<C>>, clock: int, defaults: C, k: nat)
    requires AllowedRun(Begin(clock), es, defaults)
    requires k < |Run(Begin(clock), es, defaults).tickets|
    ensures var t := Run(Begin(clock), es, defaults);
            Resolved(t, k).Some? ==>
              || Resolved(t, k).value == defaults
              || ReadWithin(t.snapshots, Resolved(t, k).value, MeasuredFrom(t, k), 5 * 60_000)
  {
    RunIsSound(Begin(clock), es, defaults);
    var t := Run(Begin(clock), es, defaults);
    assert TicketSound(t.tickets[k], t);
    if t.tickets[k].Awaits? {
      assert FlightSound(t.flights[t.tickets[k].flight], t.snapshots, defaults);
    } else {
      var at, c := t.tickets[k].at, t.tickets[k].config;
      var i :| 0 <= i < |t.snapshots| && t.snapshots[i].config == c && at - t.snapshots[i].at < TTL_MS;
      assert ReadWithin(t.snapshots, c, at, HARD_TTL_MS);
    }
  }

  // ---------------------------------------------------------------- What a refresh serves

  lemma {:induction false} SettledFlightsStay<C>(t: Trace<C>, es: seq<Event<C>>, defaults: C, i: nat)
    requires Sound(t, defaults) && AllowedRun(t, es, defaults) && i < |t.flights| && t.flights[i].settled.Some?
    ensures i < |Run(t, es, defaults).flights| && Run(t, es, defaults).flights[i] == t.flights[i]
    decreases |es|
  {
    if es != [] {
      NextKeepsSound(t, es[0], defaults);
      assert Next(t, es[0], defaults).flights[i] == t.flights[i];
      SettledFlightsStay(Next(t, es[0], defaults), es[1..], defaults, i);
    }
  }

  lemma NextKeepsSound<C>(t: Trace<C>, e: Event<C>, defaults: C)
    requires Sound(t, defaults) && Allowed(t, e)
    ensures Sound(Next(t, e, defaults), defaults)
  {
    match e {
      case LoadCalled(at, bypass) => LoadKeepsSound(t, at, bypass, defaults);
      case ReadFinished(at, read) => ReadKeepsSound(t, at, read, defaults);
      case FlightCleared =>
    }
  }

  /** A refresh serves what it read. Once its read has finished with a config, every load tied to it, whether
      it started the refresh, joined it before or joins it later, resolves to that config for good. */
  lemma SuccessfulReadServesEveryLoad<C>(es: seq<Event<C>>, clock: int, at: int, config: C, fs: seq<Event<C>>,
                                         defaults: C, k: nat)
    requires AllowedRun(Begin(clock), es, defaults)
    requires Allowed(Run(Begin(clock), es, defaults), ReadFinished(at, Some(config)))
    requires AllowedRun(Next(Run(Begin(clock), es, defaults), ReadFinished(at, Some(config)), defaults), fs, defaults)
    ensures var t := Run(Begin(clock), es, defaults);
            var u := Run(Next(t, ReadFinished(at, Some(config)), defaults), fs, defaults);
            k < |u.tickets| && u.tickets[k].Awaits? && u.tickets[k].flight == |t.flights| - 1 ==>
              Resolved(u, k) == Some(config)
  {
    var t := Run(Begin(clock), es, defaults);
    RunIsSound(Begin(clock), es, defaults);
    var t' := Next(t, ReadFinished(at, Some(config)), defaults);
    NextKeepsSound(t, ReadFinished(at, Some(config)), defaults);
    assert |t'.flights| == |t.flights| && t'.flights[|t.flights| - 1].settled == Some(config);
    SettledFlightsStay(t', fs, defaults, |t.flights| - 1);
    hide Sound, AllowedRun, Run, Next;
  }

  /** So does a failed one: every load tied to it resolves to the config that was cached when the read failed,
      if the cache was under the hard TTL as the refresh began, and to the defaults only otherwise. */
  lemma FailedReadServesEveryLoad<C>(es: seq<Event<C>>, clock: int, at: int, fs: seq<Event<C>>, defaults: C, k: nat)
    requires AllowedRun(Begin(clock), es, defaults)
    requires Allowed(Run(Begin(clock), es, defaults), ReadFinished(at, None))
    requires AllowedRun(Next(Run(Begin(clock), es, defaults), ReadFinished(at, None), defaults), fs, defaults)
    ensures var t := Run(Begin(clock), es, defaults);
            var u := Run(Next(t, ReadFinished(at, None), defaults), fs, defaults);
            var cached := t.cache.cached;
            k < |u.tickets| && u.tickets[k].Awaits? && u.tickets[k].flight == |t.flights| - 1 ==>
              Resolved(u, k)
              == Some(if cached.Some? && t.cache.inFlight.value.startedAt - cached.value.at < HARD_TTL_MS
                      then cached.value.config else defaults)
  {
    var t := Run(Begin(clock), es, defaults);
    RunIsSound(Begin(clock), es, defaults);
    var t' := Next(t, ReadFinished(at, None), defaults);
    NextKeepsSound(t, ReadFinished(at, None), defaults);
    assert |t'.flights| == |t.flights| && t'.flights[|t.flights| - 1] == t'.cache.inFlight.value;
    SettledFlightsStay(t', fs, defaults, |t.flights| - 1);
    hide Sound, AllowedRun, Run, Next;
  }

  /** A successful read is also what the cache holds from then on, until the next one or a loadFresh. */
  lemma SuccessfulReadIsCached<C>(t: Trace<C>, at: int, config: C, later: int, defaults: C)
    requires Allowed(t, ReadFinished(at, Some(config))) && at <= later < at + 60_000
    ensures Load(Next(t, ReadFinished(at, Some(config)), defaults).cache, later).1 == Hit(config)
  {
  }

  // ---------------------------------------------------------------- How often the database is read

  predicate NoLoadFresh<C>(es: seq<Event<C>>) {
    forall i | 0 <= i < |es| :: es[i].LoadCalled? ==> !es[i].bypass
  }

  /** Nothing read yet, or the last successful read is what is cached. */
  ghost predicate CacheIsLastRead<C>(t: Trace<C>) {
    if t.snapshots == [] then t.cache.cached.None? else t.cache.cached == Some(t.snapshots[|t.snapshots| - 1])
  }

  /** Without loadFresh, the step after any run starts a read only a full TTL after the last successful one. */
  lemma {:induction false} ReadsAreATtlApart<C>(t: Trace<C>, es: seq<Event<C>>, at: int, defaults: C)
    requires CacheIsLastRead(t) && AllowedRun(t, es, defaults) && NoLoadFresh(es)
    ensures var u := Run(t, es, defaults);
            && CacheIsLastRead(u)
            && (Load(u.cache, at).1 == Started && u.snapshots != [] ==> at - u.snapshots[|u.snapshots| - 1].at >= 60_000)
    decreases |es|
  {
    if es != [] {
      assert CacheIsLastRead(Next(t, es[0], defaults));
      ReadsAreATtlApart(Next(t, es[0], defaults), es[1..], at, defaults);
    }
  }

  /** Stale-while-error, exactly: after any run without loadFresh a failing read serves the last snapshot
      if that was under the hard TTL when the refresh began, and the defaults otherwise. */
  lemma FailedReadServesLastGoodOrDefaults<C>(es: seq<Event<C>>, clock: int, at: int, defaults: C)
    requires AllowedRun(Begin(clock), es, defaults) && NoLoadFresh(es)
    requires Allowed(Run(Begin(clock), es, defaults), ReadFinished(at, None))
    ensures var t := Run(Begin(clock), es, defaults);
            var f := t.cache.inFlight.value;
            var last := if t.snapshots == [] then None else Some(t.snapshots[|t.snapshots| - 1]);
            Settle(t.cache, at, None, defaults).inFlight.value.settled
            == Some(if last.Some? && f.startedAt - last.value.at < HARD_TTL_MS then last.value.config else defaults)
  {
    RunIsSound(Begin(clock), es, defaults);
    ReadsAreATtlApart(Begin(clock), es, at, defaults);
  }

  /** loadFresh does not always force a read: it starts one exactly when none is in flight, and
      otherwise is served a read that began before the call. */
  lemma LoadFreshStartsOnlyWhenIdle<C>(es: seq<Event<C>>, clock: int, at: int, defaults: C)
    requires AllowedRun(Begin(clock), es, defaults) && Run(Begin(clock), es, defaults).clock <= at
    ensures var t := Run(Begin(clock), es, defaults);
            var t' := Next(t, LoadCalled(at, true), defaults);
            var k := t'.tickets[|t'.tickets| - 1];
            && k.Awaits? && 0 <= k.flight < |t'.flights|
            && (if t.cache.inFlight.None? then |t'.flights| == |t.flights| + 1 && t'.flights[k.flight].startedAt == at
                else t'.flights == t.flights && t.flights[k.flight] == t.cache.inFlight.value)
  {
    RunIsSound(Begin(clock), es, defaults);
  }

  // ---------------------------------------------------------------- The loader

  class ScoringConfigLoader<C> {
    var cached: Option<C>
    var cachedAt: int
    var inFlight: Option<Flight<C>>
    const defaults: C
    /** The clock, the successful reads, the refreshes and the tickets of all loads so far. */
    ghost var clock: int
    ghost var snapshots: seq<Snapshot<C>>
    ghost var flights: seq<Flight<C>>
    ghost var tickets: seq<Ticket<C>>

    ghost function Fields(): Cache<C>
      reads this
    {
      Cache(if cached.Some? then Some(Snapshot(cached.value, cachedAt)) else None, inFlight)
    }

    ghost function View(): Trace<C>
      reads this
    {
      Trace(Fields(), clock, snapshots, flights, tickets)
    }

    ghost predicate Valid()
      reads this
    {
      Sound(View(), defaults)
    }

    constructor (defaults: C, ghost clock: int)
      ensures Valid() && View() == Begin(clock) && this.defaults == defaults
    {
      this.defaults := defaults;
      cached, cachedAt, inFlight := None, 0, None;
      this.clock, snapshots, flights, tickets := clock, [], [], [];
    }

    /** A hit is a config read less than the TTL ago; any other load is tied to the last refresh. */
    method LoadUpToAwait(now: int) returns (r: Loaded<C>)
      requires Valid() && clock <= now
      modifies this
      ensures Valid() && View() == Next(old(View()), LoadCalled(now, false), defaults)
      ensures r == Load(old(Fields()), now).1
      ensures r.Hit? ==> ReadWithin(snapshots, r.config, now, TTL_MS)
      ensures !r.Hit? ==> inFlight.Some? && |flights| > 0 && flights[|flights| - 1] == inFlight.value
    {
      LoadKeepsSound(View(), now, false, defaults);
      HitIsYoung(View(), now, defaults);
      FlightIsLast(Next(View(), LoadCalled(now, false), defaults), defaults);
      hide Sound;
      clock := now;
      var ageMs := if cached.Some? then Some(now - cachedAt) else None;
      if cached.Some? && ageMs.value < TTL_MS {
        tickets := tickets + [Now(now, cached.value)];
        return Hit(cached.value);
      }
      if inFlight.Some? {
        tickets := tickets + [Awaits(now, |flights| - 1)];
        return Joined;
      }
      inFlight := Some(Flight(now, ageMs, None));
      tickets := tickets + [Awaits(now, |flights|)];
      flights := flights + [inFlight.value];
      r := Started;
    }

    method LoadFreshUpToAwait(now: int) returns (r: Loaded<C>)
      requires Valid() && clock <= now
      modifies this
      ensures Valid() && View() == Next(old(View()), LoadCalled(now, true), defaults)
      ensures r == if old(inFlight).Some? then Joined else Started
    {
      cached := None;
      cachedAt := 0;
      r := LoadUpToAwait(now);
    }

    /** What the refresh serves is young enough or the defaults, and a failed one leaves the cache alone. */
    method RefreshSettles(now: int, read: Option<C>)
      requires Valid() && clock <= now && inFlight.Some? && inFlight.value.settled.None?
      modifies this
      ensures Valid() && View() == Next(old(View()), ReadFinished(now, read), defaults)
      ensures inFlight.Some? && inFlight.value.settled.Some? && FlightSound(inFlight.value, snapshots, defaults)
      ensures read.Some? ==> inFlight.value.settled == read && cached == read && cachedAt == now
      ensures read.None? ==> cached == old(cached) && cachedAt == old(cachedAt)
    {
      ReadKeepsSound(View(), now, read, defaults);
      FlightIsLast(View(), defaults);
      FlightIsLast(Next(View(), ReadFinished(now, read), defaults), defaults);
      hide Sound;
      clock := now;
      var f := inFlight.value;
      if read.Some? {
        cached := read;
        cachedAt := now;
        inFlight := Some(f.(settled := read));
        snapshots := snapshots + [Snapshot(read.value, now)];
      } else if cached.Some? && f.age.Some? && f.age.value < HARD_TTL_MS {
        inFlight := Some(f.(settled := cached));
      } else {
        inFlight := Some(f.(settled := Some(defaults)));
      }
      flights := WithLast(flights, inFlight.value);
    }

    /** The finally block of the load that started the refresh. */
    method ClearFlight()
      requires Valid() && inFlight.Some? && inFlight.value.settled.Some?
      modifies this
      ensures Valid() && View() == Next(old(View()), FlightCleared, defaults)
      ensures inFlight.None? && forall i | 0 <= i < |flights| :: flights[i].settled.Some?
    {
      inFlight := None;
    }
  }

  lemma HitIsYoung<C>(t: Trace<C>, at: int, defaults: C)
    requires Sound(t, defaults)
    ensures Fresh(t.cache, at) ==> ReadWithin(t.snapshots, t.cache.cached.value.config, at, TTL_MS)
  {
    if Fresh(t.cache, at) {
      var i :| 0 <= i < |t.snapshots| && t.snapshots[i] == t.cache.cached.value;
      assert ReadWithin(t.snapshots, t.snapshots[i].config, at, TTL_MS);
    }
  }

  lemma FlightIsLast<C>(t: Trace<C>, defaults: C)
    requires Sound(t, defaults)
    ensures t.cache.inFlight.Some? ==>
              && |t.flights| > 0 && t.flights[|t.flights| - 1] == t.cache.inFlight.value
              && FlightSound(t.cache.inFlight.value, t.snapshots, defaults)
  {
  }
}
