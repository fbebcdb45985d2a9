/**
 * The interleaved machines of tenant-injector and license-check, when nothing interrupts a
 * request, are the sequential ones that the classes implement.
 */
module Uninterrupted {
  import opened Common
  import opened Lru
  import opened Directory
  import Check = LicenseCheck
  import License = LicenseProtocol
  import Protocol = TenantProtocol
  import Redundancy = TenantRedundancy
  import Runs = TenantRuns
  import Sse = SseAdmission
  import State = SseState

  /** What a lookup flight does from its first request's entry to that request's return. */
  lemma Lookup(cfg: Config, start: int, es: seq<Protocol.Event>, s: Protocol.State, id: nat, o: Outcome, wait: nat)
    returns (es': seq<Protocol.Event>, s': Protocol.State)
    requires Protocol.Run(cfg, start, es) == Some(s) && Protocol.Enabled(s, Protocol.Join(id))
    requires s.requests[id].key !in s.group
    ensures es <= es' && Protocol.Run(cfg, start, es') == Some(s')
    ensures var key := s.requests[id].key;
      && s'.cache == Remember(cfg, s.cache, key, o, s.clock + wait)
      && id in s'.requests && s'.requests[id] == Protocol.Done(key, o, s.clock + wait, Some(|s.flights|))
      && s'.group == s.group && |s'.flights| == |s.flights| + 1
  {
    hide Protocol.Run, Remember;
    var f := |s.flights|;
    es', s' := Redundancy.Extend(cfg, start, es, s, Protocol.Join(id));
    es', s' := Redundancy.Extend(cfg, start, es', s', Protocol.Reply(f, o));
    es', s' := Redundancy.Extend(cfg, start, es', s', Protocol.Tick(wait));
    es', s' := Redundancy.Extend(cfg, start, es', s', Protocol.Store(f));
    es', s' := Redundancy.Extend(cfg, start, es', s', Protocol.End(f));
    es', s' := Redundancy.Extend(cfg, start, es', s', Protocol.Return(id));
  }

  /**
   * From any reachable state with no flight for `key` in progress, a request that nothing
   * interrupts leaves the cache, the answer and the number of directory calls exactly as
   * `Resolve` says, which is what the class method `ResolveTenant` computes.
   */
  lemma TenantRequest(cfg: Config, start: int, es: seq<Protocol.Event>, s: Protocol.State,
                      id: nat, key: string, o: Outcome, wait: nat)
    returns (es': seq<Protocol.Event>, s': Protocol.State)
    requires Protocol.Run(cfg, start, es) == Some(s) && id !in s.requests && key !in s.group
    ensures es <= es' && Protocol.Run(cfg, start, es') == Some(s') && s'.group == s.group
    ensures id in s'.requests && s'.requests[id].Done? && s'.requests[id].key == key
    ensures (s'.cache, s'.requests[id].answer, |s'.flights| > |s.flights|)
         == Runs.Resolve(cfg, s.cache, Runs.Request(key, s.clock, o, s.clock + wait))
  {
    hide Protocol.Run, Get, Remember;
    es', s' := Redundancy.Extend(cfg, start, es, s, Protocol.Arrive(id, key));
    es', s' := Redundancy.Extend(cfg, start, es', s', Protocol.Read(id));
    if s'.requests[id].Missed? {
      es', s' := Lookup(cfg, start, es', s', id, o, wait);
    }
  }

  lemma Extend(cfg: License.Config, start: int, es: seq<License.Event>, s: License.State, e: License.Event)
    returns (es': seq<License.Event>, s': License.State)
    requires License.Run(cfg, start, es) == Some(s) && License.Enabled(s, e)
    ensures es' == es + [e] && s' == License.Apply(cfg, s, e) && License.Run(cfg, start, es') == Some(s')
  {
    es', s' := es + [e], License.Apply(cfg, s, e);
    assert es'[..|es|] == es;
  }

  /** The same for a license check: `Serve` is what the class method `Handle` computes. */
  lemma LicenseRequest(cfg: License.Config, start: int, es: seq<License.Event>, s: License.State,
                       id: nat, token: string,
                       attempts: nat -> Check.Attempt, wait: nat)
    returns (es': seq<License.Event>, s': License.State)
    requires License.Run(cfg, start, es) == Some(s) && id !in s.requests
    ensures es <= es' && License.Run(cfg, start, es') == Some(s')
    ensures id in s'.requests && s'.requests[id].Done? && s'.requests[id].token == token
    ensures (s'.cache, s'.requests[id].decision)
         == Check.Serve(cfg.maxSize, cfg.ttl, s.cache, token, s.clock, attempts, s.clock + wait)
  {
    hide License.Run, Get, Set;
    es', s' := Extend(cfg, start, es, s, License.Arrive(id, token));
    es', s' := Extend(cfg, start, es', s', License.Read(id));
    if s'.requests[id].Trying? {
      es', s' := Extend(cfg, start, es', s', License.Try(id, attempts(0)));
      if s'.requests[id].Trying? {
        es', s' := Extend(cfg, start, es', s', License.Try(id, attempts(1)));
      }
      if s'.requests[id].Told? {
        es', s' := Extend(cfg, start, es', s', License.Tick(wait));
        es', s' := Extend(cfg, start, es', s', License.Write(id));
      }
    }
  }

  lemma Rejected(max: int, es: seq<Sse.Event>, s: Sse.State, id: nat) returns (es': seq<Sse.Event>, s': Sse.State)
    requires Sse.Run(max, es) == Some(s) && Sse.Enabled(s, Sse.Undo(id))
    ensures es <= es' && Sse.Run(max, es') == Some(s')
    ensures var r := s.requests[id];
      && id in s'.requests && s'.requests[id].phase.Rejected?
      && s'.counts == Add(s.counts, r.tenant, -1) && s'.active == s.active
      && s'.errors == State.Recorded(s.errors, r.tenant, r.route, Some(State.LIMIT_EXCEEDED))
  {
    hide Sse.Run;
    es', s' := Sse.Extend(max, es, s, Sse.Undo(id));
    es', s' := Sse.Extend(max, es', s', Sse.RecordRejection(id));
  }

  lemma Streamed(max: int, es: seq<Sse.Event>, s: Sse.State, id: nat, failure: Option<string>)
    returns (es': seq<Sse.Event>, s': Sse.State)
    requires Sse.Run(max, es) == Some(s) && Sse.Enabled(s, Sse.Open(id)) && s.requests[id].failure.None?
    requires failure != Some(State.LIMIT_EXCEEDED)
    ensures es <= es' && Sse.Run(max, es') == Some(s')
    ensures var r := s.requests[id];
      var k := (r.tenant, r.route);
      && id in s'.requests && s'.requests[id].phase.Ended?
      && s'.counts == Add(s.counts, r.tenant, -1) && s'.active == State.Decrement(Add(s.active, k, 1), k)
      && s'.errors == State.Recorded(s.errors, r.tenant, r.route, failure)
  {
    hide Sse.Run, State.Decrement;
    es', s' := Sse.Extend(max, es, s, Sse.Open(id));
    if failure.Some? {
      es', s' := Sse.Extend(max, es', s', Sse.Fail(id, failure.value));
    }
    es', s' := Sse.Extend(max, es', s', Sse.Close(id));
    es', s' := Sse.Extend(max, es', s', Sse.Release(id));
  }

  lemma AddBack(m: map<string, int>, k: string)
    ensures Add(Add(m, k, 1), k, -1) == Add(m, k, 0)
  {}

  /**
   * The same for an event stream: `Proxy` is what the shared objects make of an uninterrupted
   * request, whether it is admitted or turned away.
   */
  lemma StreamRequest(max: int, es: seq<Sse.Event>, s: Sse.State, id: nat, tenant: string, route: string,
                      failure: Option<string>)
    returns (es': seq<Sse.Event>, s': Sse.State)
    requires Sse.Run(max, es) == Some(s) && id !in s.requests && failure != Some(State.LIMIT_EXCEEDED)
    ensures es <= es' && Sse.Run(max, es') == Some(s') && id in s'.requests
    ensures var admitted, k := At(s.counts, tenant) < max, (tenant, route);
      && (s'.requests[id].phase.Ended? <==> admitted) && (s'.requests[id].phase.Rejected? <==> !admitted)
      && s'.counts == Add(s.counts, tenant, 0)
      && s'.active == (if admitted then State.Decrement(Add(s.active, k, 1), k) else s.active)
      && s'.errors ==
         State.Recorded(s.errors, tenant, route, if admitted then failure else Some(State.LIMIT_EXCEEDED))
  {
    hide Sse.Run, State.Decrement, State.Recorded;
    AddBack(s.counts, tenant);
    es', s' := Sse.Extend(max, es, s, Sse.Arrive(id, tenant, route));
    es', s' := Sse.Extend(max, es', s', Sse.Increment(id));
    if s'.requests[id].phase.Overshot? {
      es', s' := Rejected(max, es', s', id);
    } else {
      es', s' := Streamed(max, es', s', id, failure);
    }
  }
}
