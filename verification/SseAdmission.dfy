/**
 * SSE admission under concurrency: requests on any number of routes share one limiter and one
 * metrics object. `TryAcquire` is two atomic steps, the increment and, past the limit, its
 * undo; the deferred `Dec` of a stream runs before the deferred `Release`.
 */
module SseAdmission {
  import opened Common
  import opened SseState

  datatype Phase =
    | Arrived
    | Overshot    // incremented past the limit, the undo is pending
    | Rejecting   // undone, the rejection is not yet recorded
    | Rejected
    | Granted     // holds a slot, the gauge not yet incremented
    | Streaming
    | Closed      // the gauge decremented, the slot not yet released
    | Ended

  /** `failure` is the error kind recorded for the request, if any. */
  datatype Request = Request(tenant: string, route: string, phase: Phase, failure: Option<string>)
  {
    predicate Holds(t: string) {
      tenant == t && (phase.Granted? || phase.Streaming? || phase.Closed?)
    }

    predicate Undoes(t: string) {
      tenant == t && phase.Overshot?
    }

    predicate Streams(k: GaugeKey) {
      (tenant, route) == k && phase.Streaming?
    }

    predicate Failed(k: ErrorKey) {
      failure.Some? && (tenant, route, failure.value) == k
    }

    predicate Finished() {
      phase.Rejected? || phase.Ended?
    }
  }

  datatype State = State(
    counts: map<string, int>,
    active: map<GaugeKey, int>,
    errors: map<ErrorKey, int>,
    requests: map<nat, Request>)

  datatype Event =
    | Arrive(id: nat, tenant: string, route: string)
    | Increment(id: nat)
    | Undo(id: nat)
    | RecordRejection(id: nat)
    | Open(id: nat)
    | Fail(id: nat, kind: string)
    | Close(id: nat)
    | Release(id: nat)

  function Init(): State {
    State(map[], map[], map[], map[])
  }

  predicate Enabled(s: State, e: Event) {
    match e
    case Arrive(id, _, _) => id !in s.requests
    case Increment(id) => id in s.requests && s.requests[id].phase.Arrived?
    case Undo(id) => id in s.requests && s.requests[id].phase.Overshot?
    case RecordRejection(id) => id in s.requests && s.requests[id].phase.Rejecting?
    case Open(id) => id in s.requests && s.requests[id].phase.Granted?
    case Fail(id, kind) =>
      id in s.requests && s.requests[id].phase.Streaming? && s.requests[id].failure.None? && kind != LIMIT_EXCEEDED
    case Close(id) => id in s.requests && s.requests[id].phase.Streaming?
    case Release(id) => id in s.requests && s.requests[id].phase.Closed?
  }

  /** Where the request of an event stands afterwards. */
  function Moved(max: int, s: State, e: Event): Request
    requires Enabled(s, e)
  {
    match e
    case Arrive(_, tenant, route) => Request(tenant, route, Arrived, None)
    case Increment(id) =>
      var r := s.requests[id];
      r.(phase := if At(s.counts, r.tenant) + 1 > max then Overshot else Granted)
    case Undo(id) => s.requests[id].(phase := Rejecting)
    case RecordRejection(id) => s.requests[id].(phase := Rejected, failure := Some(LIMIT_EXCEEDED))
    case Open(id) => s.requests[id].(phase := Streaming)
    case Fail(id, kind) => s.requests[id].(failure := Some(kind))
    case Close(id) => s.requests[id].(phase := Closed)
    case Release(id) => s.requests[id].(phase := Ended)
  }

  function Apply(max: int, s: State, e: Event): State
    requires Enabled(s, e)
  {
    var r := Moved(max, s, e);
    var s' := s.(requests := s.requests[e.id := r]);
    match e
    case Increment(_) => s'.(counts := Add(s.counts, r.tenant, 1))
    case Undo(_) => s'.(counts := Add(s.counts, r.tenant, -1))
    case Release(_) => s'.(counts := Add(s.counts, r.tenant, -1))
    case Open(_) => s'.(active := Add(s.active, (r.tenant, r.route), 1))
    case Close(_) => s'.(active := Decrement(s.active, (r.tenant, r.route)))
    case RecordRejection(_) => s'.(errors := Add(s.errors, (r.tenant, r.route, LIMIT_EXCEEDED), 1))
    case Fail(_, kind) => s'.(errors := Add(s.errors, (r.tenant, r.route, kind), 1))
    case Arrive(_, _, _) => s'
  }

  function Run(max: int, es: seq<Event>): Option<State> {
    if |es| == 0 then Some(Init())
    else match Run(max, es[..|es| - 1])
      case None => None
      case Some(s) => if Enabled(s, es[|es| - 1]) then Some(Apply(max, s, es[|es| - 1])) else None
  }

  // ----- counting requests -----

  ghost function Ids(requests: map<nat, Request>, p: Request -> bool): set<nat> {
    set id | id in requests && p(requests[id])
  }

  ghost function CountOf(requests: map<nat, Request>, p: Request -> bool): nat {
    |Ids(requests, p)|
  }

  function One(b: bool): nat {
    if b then 1 else 0
  }

  lemma Minus(ids: set<nat>, id: nat)
    ensures |ids - {id}| == |ids| - One(id in ids)
  {}

  lemma CountUpdate(requests: map<nat, Request>, id: nat, r: Request, p: Request -> bool)
    ensures CountOf(requests[id := r], p) ==
            CountOf(requests, p) - One(id in requests && p(requests[id])) + One(p(r))
  {
    var before, after := Ids(requests, p), Ids(requests[id := r], p);
    assert after - {id} == before - {id};
    Minus(before, id);
    Minus(after, id);
  }

  ghost function HoldsBy(t: string): Request -> bool {
    (r: Request) => r.Holds(t)
  }

  ghost function UndoesBy(t: string): Request -> bool {
    (r: Request) => r.Undoes(t)
  }

  ghost function StreamsOn(k: GaugeKey): Request -> bool {
    (r: Request) => r.Streams(k)
  }

  ghost function FailedWith(k: ErrorKey): Request -> bool {
    (r: Request) => r.Failed(k)
  }

  /** Slots granted to a tenant and not yet released. */
  ghost function Held(s: State, t: string): nat {
    CountOf(s.requests, HoldsBy(t))
  }

  /** Increments past the limit that are not yet undone. */
  ghost function Pending(s: State, t: string): nat {
    CountOf(s.requests, UndoesBy(t))
  }

  // ----- the invariant -----

  /** A tenant's counter is its granted slots plus its pending undos, and the slots respect the limit. */
  ghost predicate SlotInv(max: int, s: State, t: string) {
    At(s.counts, t) == Held(s, t) + Pending(s, t) && Held(s, t) <= max
  }

  /** A gauge is the number of streams between `Inc` and `Dec`, and only positive gauges are kept. */
  ghost predicate GaugeInv(s: State, k: GaugeKey) {
    At(s.active, k) == CountOf(s.requests, StreamsOn(k)) && (k in s.active ==> s.active[k] > 0)
  }

  /** An error counter is the number of requests whose recorded failure it counts. */
  ghost predicate ErrorInv(s: State, k: ErrorKey) {
    At(s.errors, k) == CountOf(s.requests, FailedWith(k))
  }

  /** A stream's failure is recorded once the stream is open; a rejection is recorded as such. */
  ghost predicate FailureInv(s: State) {
    forall id :: id in s.requests ==>
      && (s.requests[id].failure == Some(LIMIT_EXCEEDED) <==> s.requests[id].phase.Rejected?)
      && (s.requests[id].failure.Some? && !s.requests[id].phase.Rejected? ==>
            s.requests[id].phase.Streaming? || s.requests[id].phase.Closed? || s.requests[id].phase.Ended?)
  }

  ghost predicate Inv(max: int, s: State) {
    && (forall t :: SlotInv(max, s, t))
    && (forall k :: GaugeInv(s, k))
    && (forall k :: ErrorInv(s, k))
    && FailureInv(s)
  }

  lemma SlotKeeps(max: int, s: State, e: Event, t: string)
    requires max >= 1 && Enabled(s, e) && SlotInv(max, s, t)
    ensures SlotInv(max, Apply(max, s, e), t)
  {
    CountUpdate(s.requests, e.id, Moved(max, s, e), HoldsBy(t));
    CountUpdate(s.requests, e.id, Moved(max, s, e), UndoesBy(t));
    hide CountOf;
  }

  lemma GaugeKeeps(max: int, s: State, e: Event, k: GaugeKey)
    requires Enabled(s, e) && GaugeInv(s, k)
    ensures GaugeInv(Apply(max, s, e), k)
  {
    CountUpdate(s.requests, e.id, Moved(max, s, e), StreamsOn(k));
    hide CountOf;
  }

  lemma ErrorKeeps(max: int, s: State, e: Event, k: ErrorKey)
    requires Enabled(s, e) && ErrorInv(s, k) && FailureInv(s)
    ensures ErrorInv(Apply(max, s, e), k)
  {
    CountUpdate(s.requests, e.id, Moved(max, s, e), FailedWith(k));
    hide CountOf;
  }

  lemma ApplyKeeps(max: int, s: State, e: Event)
    requires max >= 1 && Enabled(s, e) && Inv(max, s)
    ensures Inv(max, Apply(max, s, e))
  {
    forall t ensures SlotInv(max, Apply(max, s, e), t) { SlotKeeps(max, s, e, t); }
    forall k ensures GaugeInv(Apply(max, s, e), k) { GaugeKeeps(max, s, e, k); }
    forall k ensures ErrorInv(Apply(max, s, e), k) { ErrorKeeps(max, s, e, k); }
    hide SlotInv, GaugeInv, ErrorInv;
  }

  lemma NobodyCounted(p: Request -> bool)
    ensures CountOf(map[], p) == 0
  {
    assert Ids(map[], p) == {};
  }

  lemma {:induction false} RunKeeps(max: int, es: seq<Event>)
    requires max >= 1 && Run(max, es).Some?
    ensures Inv(max, Run(max, es).value)
  {
    if |es| == 0 {
      forall t ensures SlotInv(max, Init(), t) { NobodyCounted(HoldsBy(t)); NobodyCounted(UndoesBy(t)); }
      forall k ensures GaugeInv(Init(), k) { NobodyCounted(StreamsOn(k)); }
      forall k ensures ErrorInv(Init(), k) { NobodyCounted(FailedWith(k)); }
    } else {
      RunKeeps(max, es[..|es| - 1]);
      ApplyKeeps(max, Run(max, es[..|es| - 1]).value, es[|es| - 1]);
    }
  }

  // ----- what every run guarantees -----

  /** The gauges of one tenant, summed over all routes. */
  ghost function SumGauge(active: map<GaugeKey, int>, t: string): int {
    if active == map[] then 0
    else
      var k :| k in active;
      (if k.0 == t then active[k] else 0) + SumGauge(active - {k}, t)
  }

  /** The streams of tenant `t` on the routes whose gauges are in `active`. */
  ghost function StreamsUnder(active: map<GaugeKey, int>, t: string): Request -> bool {
    (r: Request) => r.tenant == t && r.phase.Streaming? && (r.tenant, r.route) in active
  }

  lemma SplitStreams(requests: map<nat, Request>, active: map<GaugeKey, int>, k: GaugeKey, t: string)
    requires k in active
    ensures CountOf(requests, StreamsUnder(active, t)) ==
            CountOf(requests, StreamsUnder(active - {k}, t)) + if k.0 == t then CountOf(requests, StreamsOn(k)) else 0
  {
    var all, rest := Ids(requests, StreamsUnder(active, t)), Ids(requests, StreamsUnder(active - {k}, t));
    var here := Ids(requests, StreamsOn(k));
    if k.0 == t {
      assert all == rest + here && rest !! here;
    } else {
      assert all == rest;
    }
  }

  lemma PickGauge(active: map<GaugeKey, int>, t: string) returns (k: GaugeKey)
    requires active != map[]
    ensures k in active && SumGauge(active, t) == (if k.0 == t then active[k] else 0) + SumGauge(active - {k}, t)
  {
    k :| k in active && SumGauge(active, t) == (if k.0 == t then active[k] else 0) + SumGauge(active - {k}, t);
  }

  lemma NoGauges(requests: map<nat, Request>, t: string)
    ensures SumGauge(map[], t) == CountOf(requests, StreamsUnder(map[], t))
  {
    assert Ids(requests, StreamsUnder(map[], t)) == {};
  }

  lemma {:induction false} SumCountsStreams(requests: map<nat, Request>, active: map<GaugeKey, int>, t: string)
    requires forall k :: k in active ==> active[k] == CountOf(requests, StreamsOn(k))
    ensures SumGauge(active, t) == CountOf(requests, StreamsUnder(active, t))
    decreases |active|
  {
    hide *;
    if active == map[] {
      NoGauges(requests, t);
    } else {
      var k := PickGauge(active, t);
      SumCountsStreams(requests, active - {k}, t);
      SplitStreams(requests, active, k, t);
    }
  }

  /**
   * At every step of every run, across all routes: a tenant's gauges add up to no more than the
   * slots it was granted, which respect the limit, and its counter is never negative.
   */
  lemma AdmissionBound(max: int, es: seq<Event>, t: string)
    requires max >= 1 && Run(max, es).Some?
    ensures var s := Run(max, es).value;
      && SumGauge(s.active, t) <= Held(s, t) <= max
      && At(s.counts, t) == Held(s, t) + Pending(s, t) >= 0
  {
    var s := Run(max, es).value;
    RunKeeps(max, es);
    assert SlotInv(max, s, t);
    forall k | k in s.active
      ensures s.active[k] == CountOf(s.requests, StreamsOn(k))
    {
      assert GaugeInv(s, k);
    }
    SumCountsStreams(s.requests, s.active, t);
    SubsetCardinality(Ids(s.requests, StreamsUnder(s.active, t)), Ids(s.requests, HoldsBy(t)));
  }

  /**
   * An acquire succeeds exactly when granted slots and pending undos together are below the
   * limit; with no undo pending, exactly when a slot is free.
   */
  lemma GrantIff(max: int, es: seq<Event>, id: nat)
    requires max >= 1 && Run(max, es).Some? && Enabled(Run(max, es).value, Increment(id))
    ensures var s := Run(max, es).value;
      var t := s.requests[id].tenant;
      var r := Apply(max, s, Increment(id)).requests[id];
      && (r.phase.Granted? <==> Held(s, t) + Pending(s, t) < max)
      && (r.phase.Overshot? <==> Held(s, t) + Pending(s, t) >= max)
      && (Pending(s, t) == 0 ==> (r.phase.Granted? <==> Held(s, t) < max))
  {
    var s := Run(max, es).value;
    RunKeeps(max, es);
    assert SlotInv(max, s, s.requests[id].tenant);
  }

  /**
   * The counter stands above the limit exactly while more undos are pending than slots are free,
   * and never by more than the pending undos.
   */
  lemma OvershootIff(max: int, es: seq<Event>, t: string)
    requires max >= 1 && Run(max, es).Some?
    ensures var s := Run(max, es).value;
      && (At(s.counts, t) > max <==> Pending(s, t) > max - Held(s, t))
      && At(s.counts, t) <= max + Pending(s, t)
  {
    AdmissionBound(max, es, t);
  }

  /** The metrics are counts of requests: open streams, and requests that failed with each kind. */
  lemma MetricsAreCounts(max: int, es: seq<Event>, t: string, route: string, kind: string)
    requires max >= 1 && Run(max, es).Some?
    ensures var s := Run(max, es).value;
      && At(s.active, (t, route)) == CountOf(s.requests, StreamsOn((t, route)))
      && ((t, route) in s.active <==> exists id :: id in s.requests && s.requests[id].Streams((t, route)))
      && At(s.errors, (t, route, kind)) == CountOf(s.requests, FailedWith((t, route, kind)))
      && (forall id :: id in s.requests ==>
            (s.requests[id].Failed((t, route, LIMIT_EXCEEDED)) <==>
             s.requests[id] == Request(t, route, Rejected, Some(LIMIT_EXCEEDED))))
  {
    var s := Run(max, es).value;
    RunKeeps(max, es);
    assert GaugeInv(s, (t, route)) && ErrorInv(s, (t, route, kind));
    var ids := Ids(s.requests, StreamsOn((t, route)));
    assert ids == {} <==> |ids| == 0;
    assert forall id :: id in ids <==> id in s.requests && s.requests[id].Streams((t, route));
  }

  /** When every request has finished, every counter is zero and no gauge is left. */
  lemma QuiescentIsClean(max: int, es: seq<Event>)
    requires max >= 1 && Run(max, es).Some?
    requires var s := Run(max, es).value; forall id :: id in s.requests ==> s.requests[id].Finished()
    ensures var s := Run(max, es).value;
      (forall t :: At(s.counts, t) == 0) && s.active == map[]
  {
    var s := Run(max, es).value;
    RunKeeps(max, es);
    forall t
      ensures At(s.counts, t) == 0
    {
      assert SlotInv(max, s, t);
      assert Ids(s.requests, HoldsBy(t)) == {} && Ids(s.requests, UndoesBy(t)) == {};
    }
    forall k
      ensures k !in s.active
    {
      assert GaugeInv(s, k);
      assert Ids(s.requests, StreamsOn(k)) == {};
    }
  }

  lemma StartRun(max: int)
    ensures Run(max, []) == Some(Init())
  {}

  lemma Extend(max: int, es: seq<Event>, s: State, e: Event) returns (es': seq<Event>, s': State)
    requires Run(max, es) == Some(s) && Enabled(s, e)
    ensures es' == es + [e] && s' == Apply(max, s, e) && Run(max, es') == Some(s')
  {
    es', s' := es + [e], Apply(max, s, e);
    assert es'[..|es'| - 1] == es;
  }

  lemma NobodyHolds(s: State, t: string)
    requires forall id :: id in s.requests ==> !s.requests[id].Holds(t)
    ensures Held(s, t) == 0
  {
    assert Ids(s.requests, HoldsBy(t)) == {};
  }

  /**
   * The comment at internal/llm/limiter.go:43 says the counter stays at the limit. In between it
   * does not, and the overshoot can cost a tenant a slot: here nobody holds a slot, and a request
   * is turned away because another one's undo is still pending.
   */
  lemma RejectedThoughFree(t: string, route: string) returns (es: seq<Event>)
    ensures Run(1, es).Some? && Enabled(Run(1, es).value, Increment(2))
    ensures Held(Run(1, es).value, t) == 0
    ensures Apply(1, Run(1, es).value, Increment(2)).requests[2] == Request(t, route, Overshot, None)
    ensures At(Apply(1, Run(1, es).value, Increment(2)).counts, t) == 2
  {
    hide Held, CountOf, Run;
    es := [];
    var s := Init();
    StartRun(1);
    es, s := Extend(1, es, s, Arrive(0, t, route));
    es, s := Extend(1, es, s, Arrive(1, t, route));
    es, s := Extend(1, es, s, Arrive(2, t, route));
    es, s := Extend(1, es, s, Increment(0));
    es, s := Extend(1, es, s, Increment(1));
    es, s := Extend(1, es, s, Open(0));
    es, s := Extend(1, es, s, Close(0));
    es, s := Extend(1, es, s, Release(0));
    NobodyHolds(s, t);
  }
}
