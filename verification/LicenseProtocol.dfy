/**
 * License-check under concurrency: any number of requests interleave at the locked cache read,
 * each attempt against the license server, and the locked cache write. There is no
 * singleflight here: requests for one token may ask the server side by side.
 */
module LicenseProtocol {
  import opened Common
  import opened Lru
  import opened LicenseCheck

  datatype Request =
    | Reading(token: string)
    | Trying(token: string, failures: nat)
    | Told(token: string, valid: bool)
    | Done(token: string, decision: Decision, at: int)

  datatype Record = Record(token: string, valid: bool, at: int)

  datatype State = State(
    clock: int,
    cache: Recency<bool>,
    requests: map<nat, Request>,
    log: seq<Record>)  // the verdicts written to the cache

  datatype Event =
    | Tick(d: nat)
    | Arrive(id: nat, token: string)
    | Read(id: nat)
    | Try(id: nat, a: Attempt)
    | Write(id: nat)

  datatype Config = Config(ttl: int, maxSize: nat)
  {
    ghost predicate Valid() {
      ttl > 0 && maxSize >= 1
    }
  }

  function Init(start: int): State {
    State(start, [], map[], [])
  }

  predicate Enabled(s: State, e: Event) {
    match e
    case Tick(_) => true
    case Arrive(id, _) => id !in s.requests
    case Read(id) => id in s.requests && s.requests[id].Reading?
    case Try(id, _) => id in s.requests && s.requests[id].Trying?
    case Write(id) => id in s.requests && s.requests[id].Told?
  }

  function AfterAttempt(token: string, failures: nat, a: Attempt, now: int): Request {
    match a
    case Status(_) => Told(token, a.Accepts())
    case NetworkFailure =>
      if failures + 1 < MAX_ATTEMPTS then Trying(token, failures + 1) else Done(token, Forbidden(true), now)
  }

  function Apply(cfg: Config, s: State, e: Event): State
    requires Enabled(s, e)
  {
    match e
    case Tick(d) => s.(clock := s.clock + d)
    case Arrive(id, token) => s.(requests := s.requests[id := Reading(token)])
    case Read(id) =>
      var token := s.requests[id].token;
      var (cache, hit) := Get(s.cache, token, s.clock);
      var r := if hit.Some? then Done(token, ToDecision(hit), s.clock) else Trying(token, 0);
      s.(cache := cache, requests := s.requests[id := r])
    case Try(id, a) =>
      var r := s.requests[id];
      s.(requests := s.requests[id := AfterAttempt(r.token, r.failures, a, s.clock)])
    case Write(id) =>
      var r := s.requests[id];
      s.(cache := Set(s.cache, r.token, r.valid, s.clock + cfg.ttl, cfg.maxSize),
         requests := s.requests[id := Done(r.token, ToDecision(Some(r.valid)), s.clock)],
         log := s.log + [Record(r.token, r.valid, s.clock)])
  }

  function Run(cfg: Config, start: int, es: seq<Event>): Option<State> {
    if |es| == 0 then Some(Init(start))
    else match Run(cfg, start, es[..|es| - 1])
      case None => None
      case Some(s) => if Enabled(s, es[|es| - 1]) then Some(Apply(cfg, s, es[|es| - 1])) else None
  }

  /** What the attempts of request `id` met, in order. */
  function AttemptsOf(es: seq<Event>, id: nat): seq<Attempt> {
    if |es| == 0 then []
    else
      var before, e := AttemptsOf(es[..|es| - 1], id), es[|es| - 1];
      if e.Try? && e.id == id then before + [e.a] else before
  }

  /** A verdict comes from at most one failed attempt followed by an HTTP answer. */
  ghost predicate AnsweredBy(attempts: seq<Attempt>, valid: bool) {
    && 1 <= |attempts| <= MAX_ATTEMPTS
    && attempts[|attempts| - 1].Status? && attempts[|attempts| - 1].Accepts() == valid
    && forall i :: 0 <= i < |attempts| - 1 ==> attempts[i].NetworkFailure?
  }

  ghost predicate AllFailed(attempts: seq<Attempt>, n: nat) {
    |attempts| == n && forall i :: 0 <= i < n ==> attempts[i].NetworkFailure?
  }

  /** The verdict was written to the cache within the time-to-live before `at`. */
  ghost predicate FreshIn(cfg: Config, log: seq<Record>, token: string, valid: bool, at: int) {
    exists i :: 0 <= i < |log| && log[i].token == token && log[i].valid == valid
      && log[i].at <= at <= log[i].at + cfg.ttl
  }

  /** What the attempts a request has made say about where it stands. */
  ghost predicate RequestInv(cfg: Config, r: Request, attempts: seq<Attempt>, log: seq<Record>) {
    match r
    case Reading(_) => attempts == []
    case Trying(_, failures) => failures < MAX_ATTEMPTS && AllFailed(attempts, failures)
    case Told(_, valid) => AnsweredBy(attempts, valid)
    case Done(token, d, at) =>
      || (d.Forbidden? && d.dependency && AllFailed(attempts, MAX_ATTEMPTS))
      || ((d == Next || d == Forbidden(false)) && AnsweredBy(attempts, d == Next))
      || ((d == Next || d == Forbidden(false)) && attempts == [] && FreshIn(cfg, log, token, d == Next, at))
  }

  /** What writing a verdict puts into the cache. */
  function EntryFor(cfg: Config, r: Record): Entry<bool> {
    Entry(r.token, r.valid, r.at + cfg.ttl)
  }

  function Written(cfg: Config, log: seq<Record>): (r: seq<Entry<bool>>)
    ensures |r| == |log| && forall i :: 0 <= i < |r| ==> r[i] == EntryFor(cfg, log[i])
  {
    seq(|log|, i requires 0 <= i < |log| => EntryFor(cfg, log[i]))
  }

  ghost predicate CacheInv(cfg: Config, cache: Recency<bool>, log: seq<Record>) {
    Holds(cache, cfg.maxSize, Written(cfg, log))
  }

  ghost predicate Inv(cfg: Config, s: State, es: seq<Event>) {
    && CacheInv(cfg, s.cache, s.log)
    && (forall i :: 0 <= i < |s.log| ==> s.log[i].at <= s.clock)
    && (forall id :: id in s.requests ==> RequestInv(cfg, s.requests[id], AttemptsOf(es, id), s.log))
    && (forall id :: id !in s.requests ==> AttemptsOf(es, id) == [])
  }

  // ----- each step keeps the invariant -----

  lemma AttemptsStep(es: seq<Event>, e: Event, id: nat)
    ensures AttemptsOf(es + [e], id) == if e.Try? && e.id == id then AttemptsOf(es, id) + [e.a] else AttemptsOf(es, id)
  {
    assert (es + [e])[..|es|] == es;
  }

  lemma FreshKeeps(cfg: Config, log: seq<Record>, r: Record, token: string, valid: bool, at: int)
    requires FreshIn(cfg, log, token, valid, at)
    ensures FreshIn(cfg, log + [r], token, valid, at)
  {
    var i :| 0 <= i < |log| && log[i].token == token && log[i].valid == valid && log[i].at <= at <= log[i].at + cfg.ttl;
    assert (log + [r])[i] == log[i];
  }

  lemma RequestKeeps(cfg: Config, q: Request, attempts: seq<Attempt>, log: seq<Record>, r: Record)
    requires RequestInv(cfg, q, attempts, log)
    ensures RequestInv(cfg, q, attempts, log + [r])
  {
    if q.Done? && FreshIn(cfg, log, q.token, q.decision == Next, q.at) {
      FreshKeeps(cfg, log, r, q.token, q.decision == Next, q.at);
    }
  }

  lemma WriteKeepsCache(cfg: Config, cache: Recency<bool>, log: seq<Record>, r: Record)
    requires cfg.Valid() && CacheInv(cfg, cache, log)
    ensures CacheInv(cfg, Set(cache, r.token, r.valid, r.at + cfg.ttl, cfg.maxSize), log + [r])
  {
    hide Set, Holds;
    WriteHolds(cache, cfg.maxSize, Written(cfg, log), r.token, r.valid, r.at + cfg.ttl);
    assert Written(cfg, log + [r]) == Written(cfg, log) + [EntryFor(cfg, r)];
  }

  lemma HitIsFresh(cfg: Config, cache: Recency<bool>, log: seq<Record>, token: string, now: int)
    requires CacheInv(cfg, cache, log) && Get(cache, token, now).1.Some?
    requires forall i :: 0 <= i < |log| ==> log[i].at <= now
    ensures FreshIn(cfg, log, token, Get(cache, token, now).1.value, now)
  {
    var i := HitWasWritten(cache, cfg.maxSize, Written(cfg, log), token, now);
    hide Get;
    assert log[i].token == token && log[i].valid == Get(cache, token, now).1.value;
  }

  /** The request an event moves meets its invariant again; the others are untouched. */
  lemma MovedRequest(cfg: Config, s: State, es: seq<Event>, e: Event, id: nat)
    requires cfg.Valid() && Inv(cfg, s, es) && Enabled(s, e) && id in Apply(cfg, s, e).requests
    ensures var s' := Apply(cfg, s, e); RequestInv(cfg, s'.requests[id], AttemptsOf(es + [e], id), s'.log)
  {
    AttemptsStep(es, e, id);
    hide Get, Set, CacheInv, AttemptsOf, FreshIn;
    if e == Read(id) {
      var token := s.requests[id].token;
      if Get(s.cache, token, s.clock).1.Some? {
        HitIsFresh(cfg, s.cache, s.log, token, s.clock);
      }
    } else if e.Write? && e.id != id {
      RequestKeeps(cfg, s.requests[id], AttemptsOf(es, id), s.log,
                   Record(s.requests[e.id].token, s.requests[e.id].valid, s.clock));
    }
  }

  lemma ApplyKeeps(cfg: Config, s: State, es: seq<Event>, e: Event)
    requires cfg.Valid() && Inv(cfg, s, es) && Enabled(s, e)
    ensures Inv(cfg, Apply(cfg, s, e), es + [e])
  {
    hide Holds, Written, RequestInv, Get, Set, AttemptsOf;
    var s' := Apply(cfg, s, e);
    forall id | id in s'.requests
      ensures RequestInv(cfg, s'.requests[id], AttemptsOf(es + [e], id), s'.log)
    {
      MovedRequest(cfg, s, es, e, id);
    }
    forall id | id !in s'.requests
      ensures AttemptsOf(es + [e], id) == []
    {
      AttemptsStep(es, e, id);
    }
    if e.Read? {
      ReadHolds(s.cache, cfg.maxSize, Written(cfg, s.log), s.requests[e.id].token, s.clock);
    } else if e.Write? {
      var r := s.requests[e.id];
      WriteKeepsCache(cfg, s.cache, s.log, Record(r.token, r.valid, s.clock));
    }
  }

  lemma {:induction false} RunKeeps(cfg: Config, start: int, es: seq<Event>)
    requires cfg.Valid() && Run(cfg, start, es).Some?
    ensures Inv(cfg, Run(cfg, start, es).value, es)
  {
    if |es| > 0 {
      var init, e := es[..|es| - 1], es[|es| - 1];
      RunKeeps(cfg, start, init);
      assert init + [e] == es;
      ApplyKeeps(cfg, Run(cfg, start, init).value, init, e);
    }
  }

  // ----- what every run guarantees -----

  /**
   * Where each decision comes from. A 403 that names the license server means that both attempts
   * of this very request failed; any other decision is the server's answer to this request, or,
   * without a single attempt, a verdict for the same token written no longer ago than the TTL.
   */
  lemma DecisionsAreBacked(cfg: Config, start: int, es: seq<Event>, id: nat)
    requires cfg.Valid() && Run(cfg, start, es).Some?
    requires var s := Run(cfg, start, es).value; id in s.requests && s.requests[id].Done?
    ensures var s := Run(cfg, start, es).value;
      var r, attempts := s.requests[id], AttemptsOf(es, id);
      && (r.decision == Forbidden(true) <==> AllFailed(attempts, MAX_ATTEMPTS))
      && (r.decision != Forbidden(true) ==>
            || AnsweredBy(attempts, r.decision == Next)
            || (attempts == [] && FreshIn(cfg, s.log, r.token, r.decision == Next, r.at)))
  {
    RunKeeps(cfg, start, es);
  }

  /**
   * While a verdict is live in the cache, it decides: the request that reads it is done at once,
   * so no network failure can change its outcome.
   */
  lemma LiveVerdictDecides(cfg: Config, s: State, es: seq<Event>, id: nat, e: Entry<bool>)
    requires Inv(cfg, s, es) && Enabled(s, Read(id))
    requires EntryOf(s.cache, s.requests[id].token) == Some(e) && s.clock <= e.expiresAt
    ensures Apply(cfg, s, Read(id)).requests[id] ==
            Done(s.requests[id].token, if e.value then Next else Forbidden(false), s.clock)
    ensures EntryOf(Apply(cfg, s, Read(id)).cache, s.requests[id].token) == Some(e)
  {
    var token := s.requests[id].token;
    GetEntryOf(s.cache, cfg.maxSize, token, s.clock, token);
    hide Get, EntryOf;
  }

  /** The write of a new token pushes `k`, the tail, off a full list. */
  ghost predicate Evicts(cfg: Config, s: State, e: Event, k: string)
    requires e.Write? && Enabled(s, e)
  {
    && |s.cache| == cfg.maxSize && |s.cache| > 0 && EntryOf(s.cache, s.requests[e.id].token).None?
    && EntryOf(s.cache, k) == Some(s.cache[|s.cache| - 1])
  }

  /**
   * All that can happen to a token's cached verdict: a read drops it once it is stale, a write for
   * the token replaces it, or a write for a new token pushes it off the end of a full list. No
   * attempt, failing or not, touches it.
   */
  lemma EntryChanges(cfg: Config, s: State, e: Event, k: string)
    requires cfg.Valid() && WellFormed(s.cache, cfg.maxSize) && Enabled(s, e)
    requires EntryOf(Apply(cfg, s, e).cache, k) != EntryOf(s.cache, k)
    ensures var before, after := EntryOf(s.cache, k), EntryOf(Apply(cfg, s, e).cache, k);
      match e
      case Read(id) =>
        s.requests[id].token == k && before.Some? && before.value.expiresAt < s.clock && after.None?
      case Write(id) =>
        var r := s.requests[id];
        if r.token == k then after == Some(Entry(k, r.valid, s.clock + cfg.ttl))
        else Evicts(cfg, s, e, k) && after.None?
      case _ => false
  {
    hide Get, Set, EntryOf, WellFormed;
    match e
    case Read(id) => GetEntryOf(s.cache, cfg.maxSize, s.requests[id].token, s.clock, k);
    case Write(id) =>
      var r := s.requests[id];
      SetEntryOf(s.cache, cfg.maxSize, r.token, r.valid, s.clock + cfg.ttl, k);
    case _ =>
  }

  lemma RunPrefix(cfg: Config, start: int, es: seq<Event>, more: seq<Event>)
    requires |more| > 0 && Run(cfg, start, es + more).Some?
    ensures var init, e := more[..|more| - 1], more[|more| - 1];
      && Run(cfg, start, es + init).Some? && Enabled(Run(cfg, start, es + init).value, e)
      && Run(cfg, start, es + more).value == Apply(cfg, Run(cfg, start, es + init).value, e)
  {
    assert (es + more)[..|es + more| - 1] == es + more[..|more| - 1];
  }

  /** Every event of `more` spares the token's verdict: none writes the token or evicts it. */
  ghost predicate Spared(cfg: Config, start: int, es: seq<Event>, more: seq<Event>, k: string)
    requires Run(cfg, start, es + more).Some?
  {
    |more| > 0 ==>
      var init, e := more[..|more| - 1], more[|more| - 1];
      RunPrefix(cfg, start, es, more);
      var s := Run(cfg, start, es + init).value;
      && Spared(cfg, start, es, init, k)
      && (e.Write? ==> s.requests[e.id].token != k && !Evicts(cfg, s, e, k))
  }

  /** A request for the token that reads it live is done at once, without an attempt. */
  ghost predicate Decided(r: Request, e: Entry<bool>) {
    r.token == e.key ==> r.Reading? || (r.Done? && r.decision == ToDecision(Some(e.value)))
  }

  lemma LiveVerdictStep(cfg: Config, s: State, event: Event, e: Entry<bool>, id: nat)
    requires cfg.Valid() && WellFormed(s.cache, cfg.maxSize) && Enabled(s, event)
    requires EntryOf(s.cache, e.key) == Some(e) && s.clock <= e.expiresAt
    requires event.Write? ==> s.requests[event.id].token != e.key && !Evicts(cfg, s, event, e.key)
    requires id in s.requests ==> Decided(s.requests[id], e)
    ensures var s' := Apply(cfg, s, event);
      && EntryOf(s'.cache, e.key) == Some(e)
      && (id in s'.requests ==> Decided(s'.requests[id], e))
  {
    hide Get, Set, EntryOf, WellFormed, Evicts;
    if EntryOf(Apply(cfg, s, event).cache, e.key) != EntryOf(s.cache, e.key) {
      EntryChanges(cfg, s, event, e.key);
    }
    if event == Read(id) {
      GetEntryOf(s.cache, cfg.maxSize, s.requests[id].token, s.clock, s.requests[id].token);
    }
  }

  /**
   * Until it expires, and unless a write replaces or evicts it, a verdict stays in the cache and
   * decides every request for its token that has not read yet, whatever attempts fail meanwhile.
   */
  lemma {:induction false} LiveVerdictStays(cfg: Config, start: int, es: seq<Event>, more: seq<Event>,
                                           e: Entry<bool>, id: nat)
    requires cfg.Valid() && Run(cfg, start, es).Some? && Run(cfg, start, es + more).Some?
    requires EntryOf(Run(cfg, start, es).value.cache, e.key) == Some(e)
    requires Spared(cfg, start, es, more, e.key) && Run(cfg, start, es + more).value.clock <= e.expiresAt
    requires id in Run(cfg, start, es).value.requests ==> Run(cfg, start, es).value.requests[id].Reading?
    ensures var s := Run(cfg, start, es + more).value;
      && EntryOf(s.cache, e.key) == Some(e)
      && (id in s.requests ==> Decided(s.requests[id], e))
  {
    if |more| == 0 {
      assert es + more == es;
    } else {
      var init := more[..|more| - 1];
      RunPrefix(cfg, start, es, more);
      LiveVerdictStays(cfg, start, es, init, e, id);
      RunKeeps(cfg, start, es + init);
      LiveVerdictStep(cfg, Run(cfg, start, es + init).value, more[|more| - 1], e, id);
    }
  }

  /** Every HTTP answer of the run gives the server's fixed verdict on the token asked about. */
  ghost predicate Follows(cfg: Config, start: int, es: seq<Event>, server: string -> bool) {
    |es| > 0 ==>
      && Follows(cfg, start, es[..|es| - 1], server)
      && match es[|es| - 1]
         case Try(id, a) =>
           (match Run(cfg, start, es[..|es| - 1])
            case Some(s) => id in s.requests && a.Status? ==> a.Accepts() == server(s.requests[id].token)
            case None => true)
         case _ => true
  }

  ghost predicate Agree(s: State, server: string -> bool) {
    && (forall id :: id in s.requests && s.requests[id].Told? ==> s.requests[id].valid == server(s.requests[id].token))
    && (forall id :: id in s.requests && s.requests[id].Done? && s.requests[id].decision != Forbidden(true) ==>
          (s.requests[id].decision == Next) == server(s.requests[id].token))
    && (forall i :: 0 <= i < |s.log| ==> s.log[i].valid == server(s.log[i].token))
  }

  lemma HitAgrees(cfg: Config, s: State, es: seq<Event>, server: string -> bool, id: nat)
    requires Inv(cfg, s, es) && Agree(s, server) && Enabled(s, Read(id))
    requires Get(s.cache, s.requests[id].token, s.clock).1.Some?
    ensures Get(s.cache, s.requests[id].token, s.clock).1.value == server(s.requests[id].token)
  {
    HitIsFresh(cfg, s.cache, s.log, s.requests[id].token, s.clock);
  }

  lemma {:induction false} RunAgrees(cfg: Config, start: int, es: seq<Event>, server: string -> bool)
    requires cfg.Valid() && Run(cfg, start, es).Some? && Follows(cfg, start, es, server)
    ensures Agree(Run(cfg, start, es).value, server)
  {
    if |es| > 0 {
      var init, e := es[..|es| - 1], es[|es| - 1];
      var s := Run(cfg, start, init).value;
      RunAgrees(cfg, start, init, server);
      RunKeeps(cfg, start, init);
      if e.Read? && Get(s.cache, s.requests[e.id].token, s.clock).1.Some? {
        HitAgrees(cfg, s, init, server, e.id);
      }
    }
  }

  /**
   * For a server with a fixed verdict per token, whatever the failures, the expiries and the
   * interleaving: `next` is called only for accepted tokens, and a 403 without a dependency is
   * written only for rejected ones.
   */
  lemma VerdictsAreRespected(cfg: Config, start: int, es: seq<Event>, server: string -> bool, id: nat)
    requires cfg.Valid() && Run(cfg, start, es).Some? && Follows(cfg, start, es, server)
    requires var s := Run(cfg, start, es).value; id in s.requests && s.requests[id].Done?
    ensures var r := Run(cfg, start, es).value.requests[id];
      && (r.decision == Next ==> server(r.token))
      && (r.decision == Forbidden(false) ==> !server(r.token))
      && (r.decision == Forbidden(true) <==> AllFailed(AttemptsOf(es, id), MAX_ATTEMPTS))
  {
    RunAgrees(cfg, start, es, server);
    DecisionsAreBacked(cfg, start, es, id);
  }
}
