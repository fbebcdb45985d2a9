/**
 * `resolveTenant` under concurrency. Any number of requests interleave at the lock boundaries:
 * the locked cache read, the singleflight group, the directory call, the locked cache write, the
 * end of the flight, and the return of whoever led or joined it.
 */
module TenantProtocol {
  import opened Common
  import opened Lru
  import opened Directory

  /** Where a request stands. `Missed` remembers how many answers had been stored when it read the cache. */
  datatype Request =
    | Reading(key: string)
    | Missed(key: string, since: nat)
    | InFlight(key: string, flight: nat)
    | Done(key: string, answer: Outcome, at: int, from: Option<nat>)

  /** A singleflight call: the directory is asked, answers, the answer is stored, the flight ends. */
  datatype Phase = Calling | Answered(o: Outcome) | Stored(o: Outcome) | Ended(o: Outcome)

  datatype Flight = Flight(key: string, phase: Phase)

  /** The log of definitive answers written to the cache, oldest first. */
  datatype Record = Record(key: string, answer: Outcome, at: int, flight: nat)

  datatype State = State(
    clock: int,
    cache: Recency<Payload>,
    group: map<string, nat>,       // the flight in progress for a key
    flights: seq<Flight>,
    requests: map<nat, Request>,
    log: seq<Record>)

  datatype Event =
    | Tick(d: nat)
    | Arrive(id: nat, key: string)
    | Read(id: nat)
    | Join(id: nat)
    | Reply(flight: nat, answer: Outcome)
    | Store(flight: nat)
    | End(flight: nat)
    | Return(id: nat)

  function Init(start: int): State {
    State(start, [], map[], [], map[], [])
  }

  predicate Enabled(s: State, e: Event) {
    match e
    case Tick(_) => true
    case Arrive(id, _) => id !in s.requests
    case Read(id) => id in s.requests && s.requests[id].Reading?
    case Join(id) => id in s.requests && s.requests[id].Missed?
    case Reply(f, _) => f < |s.flights| && s.flights[f].phase.Calling?
    case Store(f) => f < |s.flights| && s.flights[f].phase.Answered?
    case End(f) => f < |s.flights| && s.flights[f].phase.Stored?
    case Return(id) =>
      && id in s.requests && s.requests[id].InFlight?
      && s.requests[id].flight < |s.flights| && s.flights[s.requests[id].flight].phase.Ended?
  }

  /** The locked cache read, internal/plugins/tenantinjector/plugin.go:352. */
  function DoRead(s: State, id: nat): State
    requires Enabled(s, Read(id))
  {
    var key := s.requests[id].key;
    var (cache, hit) := Get(s.cache, key, s.clock);
    var r := match hit
             case Some(p) => Done(key, p.Answer(), s.clock, None)
             case None => Missed(key, |s.log|);
    s.(cache := cache, requests := s.requests[id := r])
  }

  /** Entering the singleflight group: join the flight in progress, or lead a new one. */
  function DoJoin(s: State, id: nat): State
    requires Enabled(s, Join(id))
  {
    var key := s.requests[id].key;
    if key in s.group then
      s.(requests := s.requests[id := InFlight(key, s.group[key])])
    else
      s.(group := s.group[key := |s.flights|],
         flights := s.flights + [Flight(key, Calling)],
         requests := s.requests[id := InFlight(key, |s.flights|)])
  }

  /** The locked cache write inside the flight; a timeout or a network error writes nothing. */
  function DoStore(cfg: Config, s: State, f: nat): State
    requires Enabled(s, Store(f))
  {
    var key, o := s.flights[f].key, s.flights[f].phase.o;
    s.(cache := Remember(cfg, s.cache, key, o, s.clock),
       flights := s.flights[f := Flight(key, Stored(o))],
       log := if o.Definitive() then s.log + [Record(key, o, s.clock, f)] else s.log)
  }

  function Apply(cfg: Config, s: State, e: Event): State
    requires Enabled(s, e)
  {
    match e
    case Tick(d) => s.(clock := s.clock + d)
    case Arrive(id, key) => s.(requests := s.requests[id := Reading(key)])
    case Read(id) => DoRead(s, id)
    case Join(id) => DoJoin(s, id)
    case Reply(f, o) => s.(flights := s.flights[f := Flight(s.flights[f].key, Answered(o))])
    case Store(f) => DoStore(cfg, s, f)
    case End(f) =>
      var flight := s.flights[f];
      s.(group := s.group - {flight.key}, flights := s.flights[f := Flight(flight.key, Ended(flight.phase.o))])
    case Return(id) =>
      var r := s.requests[id];
      s.(requests := s.requests[id := Done(r.key, s.flights[r.flight].phase.o, s.clock, Some(r.flight))])
  }

  /** The state after a run, or nothing if some event of it cannot happen. */
  function Run(cfg: Config, start: int, es: seq<Event>): Option<State> {
    if |es| == 0 then Some(Init(start))
    else match Run(cfg, start, es[..|es| - 1])
      case None => None
      case Some(s) => if Enabled(s, es[|es| - 1]) then Some(Apply(cfg, s, es[|es| - 1])) else None
  }

  // ----- the invariant -----

  /** A flight that has not ended is the one registered for its key, and only such flights are registered. */
  ghost predicate FlightInv(flights: seq<Flight>, group: map<string, nat>) {
    && (forall f :: 0 <= f < |flights| && !flights[f].phase.Ended? ==>
          flights[f].key in group && group[flights[f].key] == f)
    && (forall k :: k in group ==> group[k] < |flights| && flights[group[k]].key == k)
  }

  /** What storing a logged answer writes to the cache. */
  function EntryFor(cfg: Config, r: Record): Entry<Payload> {
    Entry(r.key, Pack(r.answer), r.at + cfg.TTL(r.answer))
  }

  function Written(cfg: Config, log: seq<Record>): (r: seq<Entry<Payload>>)
    ensures |r| == |log| && forall i :: 0 <= i < |r| ==> r[i] == EntryFor(cfg, log[i])
  {
    seq(|log|, i requires 0 <= i < |log| => EntryFor(cfg, log[i]))
  }

  /** Every cached entry is a logged answer with the expiry of its kind. */
  ghost predicate CacheInv(cfg: Config, cache: Recency<Payload>, log: seq<Record>) {
    Holds(cache, cfg.maxSize, Written(cfg, log))
  }

  /** Every logged answer is definitive and is the answer of its flight, stored no later than now. */
  ghost predicate LogInv(log: seq<Record>, flights: seq<Flight>, clock: int) {
    forall i :: 0 <= i < |log| ==>
      && log[i].answer.Definitive() && log[i].at <= clock
      && log[i].flight < |flights| && flights[log[i].flight].key == log[i].key
      && (flights[log[i].flight].phase == Stored(log[i].answer) || flights[log[i].flight].phase == Ended(log[i].answer))
  }

  predicate HasStored(f: Flight) {
    (f.phase.Stored? || f.phase.Ended?) && f.phase.o.Definitive()
  }

  ghost predicate Logged(log: seq<Record>, key: string, o: Outcome, f: nat) {
    exists i :: 0 <= i < |log| && log[i].key == key && log[i].answer == o && log[i].flight == f
  }

  /** A definitive answer is in the log from the moment its flight has stored it. */
  ghost predicate StoredInv(log: seq<Record>, flights: seq<Flight>) {
    forall f :: 0 <= f < |flights| && HasStored(flights[f]) ==>
      Logged(log, flights[f].key, flights[f].phase.o, f)
  }

  /** The answer `o` for `key` was stored recently enough to be good at `at`. */
  ghost predicate FreshIn(cfg: Config, log: seq<Record>, key: string, o: Outcome, at: int) {
    exists i :: 0 <= i < |log| && log[i].key == key && log[i].answer == o && GoodAt(cfg, o, log[i].at, at)
  }

  ghost predicate RequestInv(cfg: Config, r: Request, flights: seq<Flight>, log: seq<Record>) {
    match r
    case Reading(_) => true
    case Missed(_, since) => since <= |log|
    case InFlight(key, f) => f < |flights| && flights[f].key == key
    case Done(key, o, at, Some(f)) => f < |flights| && flights[f] == Flight(key, Ended(o))
    case Done(key, o, at, None) => FreshIn(cfg, log, key, o, at)
  }

  ghost predicate RequestsInv(cfg: Config, requests: map<nat, Request>, flights: seq<Flight>, log: seq<Record>) {
    forall id :: id in requests ==> RequestInv(cfg, requests[id], flights, log)
  }

  ghost predicate Inv(cfg: Config, s: State) {
    && FlightInv(s.flights, s.group)
    && CacheInv(cfg, s.cache, s.log)
    && LogInv(s.log, s.flights, s.clock)
    && StoredInv(s.log, s.flights)
    && RequestsInv(cfg, s.requests, s.flights, s.log)
  }

  // ----- each step keeps the invariant -----

  /** Flights keep their keys, ended flights stay as they are, and new ones are added behind. */
  ghost predicate Grow(flights: seq<Flight>, flights': seq<Flight>) {
    && |flights| <= |flights'|
    && forall f :: 0 <= f < |flights| ==>
         flights'[f].key == flights[f].key && (flights[f].phase.Ended? ==> flights'[f] == flights[f])
  }

  lemma RequestKeeps(cfg: Config, r: Request, flights: seq<Flight>, log: seq<Record>,
                     flights': seq<Flight>, log': seq<Record>)
    requires RequestInv(cfg, r, flights, log) && Grow(flights, flights') && log <= log'
    ensures RequestInv(cfg, r, flights', log')
  {
    if r.Done? && r.from.None? {
      var i :| 0 <= i < |log| && log[i].key == r.key && log[i].answer == r.answer
               && GoodAt(cfg, r.answer, log[i].at, r.at);
      assert log'[i] == log[i];
    }
  }

  lemma RequestsKeep(cfg: Config, requests: map<nat, Request>, flights: seq<Flight>, log: seq<Record>,
                     flights': seq<Flight>, log': seq<Record>)
    requires RequestsInv(cfg, requests, flights, log) && Grow(flights, flights') && log <= log'
    ensures RequestsInv(cfg, requests, flights', log')
  {
    forall id | id in requests
      ensures RequestInv(cfg, requests[id], flights', log')
    {
      RequestKeeps(cfg, requests[id], flights, log, flights', log');
    }
  }

  /** A hit answers with a logged answer that is still fresh. */
  lemma HitIsFresh(cfg: Config, cache: Recency<Payload>, log: seq<Record>, key: string, now: int)
    requires CacheInv(cfg, cache, log) && Get(cache, key, now).1.Some?
    requires forall i :: 0 <= i < |log| ==> log[i].answer.Definitive() && log[i].at <= now
    ensures FreshIn(cfg, log, key, Get(cache, key, now).1.value.Answer(), now)
  {
    var i := HitWasWritten(cache, cfg.maxSize, Written(cfg, log), key, now);
    hide Get;
    assert log[i].key == key && log[i].answer == Get(cache, key, now).1.value.Answer();
  }

  lemma ReadKeeps(cfg: Config, s: State, id: nat)
    requires cfg.Valid() && Inv(cfg, s) && Enabled(s, Read(id))
    ensures Inv(cfg, DoRead(s, id))
  {
    var key := s.requests[id].key;
    ReadHolds(s.cache, cfg.maxSize, Written(cfg, s.log), key, s.clock);
    if Get(s.cache, key, s.clock).1.Some? {
      HitIsFresh(cfg, s.cache, s.log, key, s.clock);
    }
    hide Get, CacheInv, FlightInv, StoredInv, FreshIn;
  }

  lemma JoinKeeps(cfg: Config, s: State, id: nat)
    requires cfg.Valid() && Inv(cfg, s) && Enabled(s, Join(id))
    ensures Inv(cfg, DoJoin(s, id))
  {
    var s' := DoJoin(s, id);
    RequestsKeep(cfg, s.requests, s.flights, s.log, s'.flights, s.log);
  }

  lemma ReplyKeeps(cfg: Config, s: State, f: nat, o: Outcome)
    requires cfg.Valid() && Inv(cfg, s) && Enabled(s, Reply(f, o))
    ensures Inv(cfg, Apply(cfg, s, Reply(f, o)))
  {
    var s' := Apply(cfg, s, Reply(f, o));
    RequestsKeep(cfg, s.requests, s.flights, s.log, s'.flights, s.log);
  }

  lemma EndKeeps(cfg: Config, s: State, f: nat)
    requires cfg.Valid() && Inv(cfg, s) && Enabled(s, End(f))
    ensures Inv(cfg, Apply(cfg, s, End(f)))
  {
    var s' := Apply(cfg, s, End(f));
    RequestsKeep(cfg, s.requests, s.flights, s.log, s'.flights, s.log);
  }

  lemma RememberKeeps(cfg: Config, cache: Recency<Payload>, log: seq<Record>, r: Record)
    requires cfg.Valid() && CacheInv(cfg, cache, log) && r.answer.Definitive()
    ensures CacheInv(cfg, Remember(cfg, cache, r.key, r.answer, r.at), log + [r])
  {
    hide Set, Holds;
    var e := EntryFor(cfg, r);
    WriteHolds(cache, cfg.maxSize, Written(cfg, log), e.key, e.value, e.expiresAt);
    assert Written(cfg, log + [r]) == Written(cfg, log) + [e];
  }

  lemma LogKeeps(log: seq<Record>, flights: seq<Flight>, clock: int, f: nat)
    requires LogInv(log, flights, clock) && StoredInv(log, flights)
    requires f < |flights| && flights[f].phase.Answered?
    ensures var key, o := flights[f].key, flights[f].phase.o;
      var flights' := flights[f := Flight(key, Stored(o))];
      var log' := if o.Definitive() then log + [Record(key, o, clock, f)] else log;
      LogInv(log', flights', clock) && StoredInv(log', flights')
  {
    var key, o := flights[f].key, flights[f].phase.o;
    var flights' := flights[f := Flight(key, Stored(o))];
    var log' := if o.Definitive() then log + [Record(key, o, clock, f)] else log;
    forall g | 0 <= g < |flights'| && HasStored(flights'[g])
      ensures Logged(log', flights'[g].key, flights'[g].phase.o, g)
    {
      if g == f {
        assert log'[|log|] == Record(key, o, clock, f);
      } else {
        var i :| 0 <= i < |log| && log[i].key == flights[g].key && log[i].answer == flights[g].phase.o
                 && log[i].flight == g;
        assert log'[i] == log[i];
      }
    }
  }

  lemma StoreKeeps(cfg: Config, s: State, f: nat)
    requires cfg.Valid() && Inv(cfg, s) && Enabled(s, Store(f))
    ensures Inv(cfg, DoStore(cfg, s, f))
  {
    hide CacheInv, LogInv, StoredInv, RequestsInv, Set;
    var s' := DoStore(cfg, s, f);
    var key, o := s.flights[f].key, s.flights[f].phase.o;
    RequestsKeep(cfg, s.requests, s.flights, s.log, s'.flights, s'.log);
    LogKeeps(s.log, s.flights, s.clock, f);
    if o.Definitive() {
      RememberKeeps(cfg, s.cache, s.log, Record(key, o, s.clock, f));
    }
  }

  lemma ApplyKeeps(cfg: Config, s: State, e: Event)
    requires cfg.Valid() && Inv(cfg, s) && Enabled(s, e)
    ensures Inv(cfg, Apply(cfg, s, e))
  {
    match e
    case Tick(_) =>
    case Arrive(_, _) =>
    case Read(id) => ReadKeeps(cfg, s, id);
    case Join(id) => JoinKeeps(cfg, s, id);
    case Reply(f, o) => ReplyKeeps(cfg, s, f, o);
    case Store(f) => StoreKeeps(cfg, s, f);
    case End(f) => EndKeeps(cfg, s, f);
    case Return(_) =>
  }

  lemma {:induction false} RunKeeps(cfg: Config, start: int, es: seq<Event>)
    requires cfg.Valid() && Run(cfg, start, es).Some?
    ensures Inv(cfg, Run(cfg, start, es).value)
  {
    if |es| > 0 {
      RunKeeps(cfg, start, es[..|es| - 1]);
      ApplyKeeps(cfg, Run(cfg, start, es[..|es| - 1]).value, es[|es| - 1]);
    }
  }

  // ----- what every run guarantees -----

  /** However requests interleave, at most one directory call per principal is outstanding. */
  lemma AtMostOneCall(cfg: Config, start: int, es: seq<Event>, f: nat, g: nat)
    requires cfg.Valid() && Run(cfg, start, es).Some?
    requires var s := Run(cfg, start, es).value;
      && f < |s.flights| && g < |s.flights| && s.flights[f].key == s.flights[g].key
      && s.flights[f].phase.Calling? && !s.flights[g].phase.Ended?
    ensures f == g
  {
    RunKeeps(cfg, start, es);
  }

  /**
   * Coalescing: a request that missed can always go on, and while a flight for its principal is
   * registered it starts no call of its own but waits for that flight.
   */
  lemma JoinShares(cfg: Config, s: State, id: nat)
    requires id in s.requests && s.requests[id].Missed?
    ensures Enabled(s, Join(id))
    ensures var key, s' := s.requests[id].key, Apply(cfg, s, Join(id));
      if key in s.group then
        s'.flights == s.flights && s'.requests[id] == InFlight(key, s.group[key]) && s'.group == s.group
      else
        && s'.flights == s.flights + [Flight(key, Calling)]
        && s'.requests[id] == InFlight(key, |s.flights|) && s'.group == s.group[key := |s.flights|]
  {}

  /**
   * Where an answer comes from: a finished request has the outcome of the flight it led or
   * joined, or a definitive answer for its own principal stored no longer ago than the TTL, for a
   * tenant, or the negative TTL, for a missing principal.
   */
  lemma AnswersAreFresh(cfg: Config, start: int, es: seq<Event>, id: nat)
    requires cfg.Valid() && Run(cfg, start, es).Some?
    requires var s := Run(cfg, start, es).value; id in s.requests && s.requests[id].Done?
    ensures var s := Run(cfg, start, es).value;
      var r := s.requests[id];
      match r.from
      case Some(f) => f < |s.flights| && s.flights[f] == Flight(r.key, Ended(r.answer))
      case None => r.answer.Definitive() && FreshIn(cfg, s.log, r.key, r.answer, r.at)
  {
    RunKeeps(cfg, start, es);
  }

  /** The request `r` of a flight is still waiting in `s`, or has returned with that flight's outcome. */
  ghost predicate WaitsOrReturned(s: State, id: nat, r: Request)
    requires r.InFlight?
  {
    && id in s.requests && r.flight < |s.flights| && s.flights[r.flight].key == r.key
    && (s.requests[id] == r
        || (s.requests[id].Done? && s.requests[id].from == Some(r.flight)
            && s.flights[r.flight] == Flight(r.key, Ended(s.requests[id].answer))))
  }

  lemma WaitsOrReturnedKeeps(cfg: Config, s: State, e: Event, id: nat, r: Request)
    requires r.InFlight? && WaitsOrReturned(s, id, r) && Enabled(s, e)
    ensures WaitsOrReturned(Apply(cfg, s, e), id, r)
  {
    hide Get, Remember;
  }

  /** Whoever is in a flight gets that flight's outcome, whatever happens until then. */
  lemma {:induction false} FlightAnswersItsRequests(cfg: Config, start: int, es: seq<Event>, more: seq<Event>, id: nat)
    requires cfg.Valid() && Run(cfg, start, es).Some? && Run(cfg, start, es + more).Some?
    requires var s := Run(cfg, start, es).value; id in s.requests && s.requests[id].InFlight?
    ensures WaitsOrReturned(Run(cfg, start, es + more).value, id, Run(cfg, start, es).value.requests[id])
  {
    if |more| == 0 {
      assert es + more == es;
      RunKeeps(cfg, start, es);
    } else {
      var init, e := more[..|more| - 1], more[|more| - 1];
      assert (es + more)[..|es + more| - 1] == es + init && (es + more)[|es + more| - 1] == e;
      FlightAnswersItsRequests(cfg, start, es, init, id);
      WaitsOrReturnedKeeps(cfg, Run(cfg, start, es + init).value, e, id, Run(cfg, start, es).value.requests[id]);
    }
  }

  /** A definitive answer is in the cache before its flight ends, filed with the expiry of its kind. */
  lemma StoredBeforeEnd(cfg: Config, s: State, f: nat)
    requires cfg.Valid() && Inv(cfg, s) && Enabled(s, Store(f)) && s.flights[f].phase.o.Definitive()
    ensures var key, o, s' := s.flights[f].key, s.flights[f].phase.o, DoStore(cfg, s, f);
      && EntryOf(s'.cache, key) == Some(Entry(key, Pack(o), s.clock + cfg.TTL(o)))
      && !s'.flights[f].phase.Ended? && key in s'.group && s'.group[key] == f
  {
    hide Set, EntryOf, WellFormed, Written, LogInv, StoredInv, RequestsInv;
    var key, o := s.flights[f].key, s.flights[f].phase.o;
    SetEntryOf(s.cache, cfg.maxSize, key, Pack(o), s.clock + cfg.TTL(o), key);
  }

  /**
   * All that can happen to a principal's cached answer: a read drops it once it is stale, a
   * definitive answer for the principal replaces it, or a definitive answer for another one
   * pushes it off the end of a full list. Hits never extend it; failures never touch it.
   */
  lemma EntryChanges(cfg: Config, s: State, e: Event, k: string)
    requires cfg.Valid() && Inv(cfg, s) && Enabled(s, e)
    requires EntryOf(Apply(cfg, s, e).cache, k) != EntryOf(s.cache, k)
    ensures var before, after := EntryOf(s.cache, k), EntryOf(Apply(cfg, s, e).cache, k);
      match e
      case Read(id) =>
        s.requests[id].key == k && before.Some? && before.value.expiresAt < s.clock && after.None?
      case Store(f) =>
        var key, o := s.flights[f].key, s.flights[f].phase.o;
        && o.Definitive()
        && if key == k then after == Some(Entry(k, Pack(o), s.clock + cfg.TTL(o)))
           else after.None? && |s.cache| == cfg.maxSize && before == Some(s.cache[|s.cache| - 1])
                && EntryOf(s.cache, key).None?
      case _ => false
  {
    hide Get, Set, EntryOf, WellFormed, Written, FlightInv, LogInv, StoredInv, RequestsInv;
    match e
    case Read(id) =>
      GetEntryOf(s.cache, cfg.maxSize, s.requests[id].key, s.clock, k);
    case Store(f) =>
      var key, o := s.flights[f].key, s.flights[f].phase.o;
      if o.Definitive() {
        SetEntryOf(s.cache, cfg.maxSize, key, Pack(o), s.clock + cfg.TTL(o), k);
      }
    case _ =>
  }

  // ----- transparency -----

  /** Every reply of the run is the directory's fixed answer for the principal asked about. */
  ghost predicate Follows(cfg: Config, start: int, es: seq<Event>, dir: string -> Outcome) {
    |es| > 0 ==>
      && Follows(cfg, start, es[..|es| - 1], dir)
      && match es[|es| - 1]
         case Reply(f, o) =>
           (match Run(cfg, start, es[..|es| - 1])
            case Some(s) => f < |s.flights| ==> o == dir(s.flights[f].key)
            case None => true)
         case _ => true
  }

  ghost predicate FlightsFollow(flights: seq<Flight>, dir: string -> Outcome) {
    forall f :: 0 <= f < |flights| && !flights[f].phase.Calling? ==> flights[f].phase.o == dir(flights[f].key)
  }

  lemma {:induction false} RunFollows(cfg: Config, start: int, es: seq<Event>, dir: string -> Outcome)
    requires Run(cfg, start, es).Some? && Follows(cfg, start, es, dir)
    ensures FlightsFollow(Run(cfg, start, es).value.flights, dir)
  {
    if |es| > 0 {
      RunFollows(cfg, start, es[..|es| - 1], dir);
    }
  }

  /**
   * Cache transparency: when the directory's outcome per principal is fixed, every request is
   * answered with exactly that outcome, whatever the capacity, the TTLs, the evictions, the
   * expiries and the interleaving.
   */
  lemma Transparent(cfg: Config, start: int, es: seq<Event>, dir: string -> Outcome, id: nat)
    requires cfg.Valid() && Run(cfg, start, es).Some? && Follows(cfg, start, es, dir)
    requires var s := Run(cfg, start, es).value; id in s.requests && s.requests[id].Done?
    ensures var r := Run(cfg, start, es).value.requests[id]; r.answer == dir(r.key)
  {
    var s := Run(cfg, start, es).value;
    var r := s.requests[id];
    RunKeeps(cfg, start, es);
    RunFollows(cfg, start, es, dir);
    if r.from.None? {
      assert FreshIn(cfg, s.log, r.key, r.answer, r.at);
    }
  }
}
