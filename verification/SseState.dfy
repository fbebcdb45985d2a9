/**
 * The shared state behind the SSE proxies, updated in place: the per-tenant limiter and the
 * metrics. Each method is one atomic step; its specification function is what the interleaved
 * model in `SseAdmission` steps with.
 */
module SseState {
  import opened Common

  type GaugeKey = (string, string)           // tenant, route

  type ErrorKey = (string, string, string)   // tenant, route, kind

  const LIMIT_EXCEEDED := "limit_exceeded"

  /** A decrement that prunes an entry which would not stay positive. */
  function Decrement<K>(m: map<K, int>, k: K): map<K, int> {
    if At(m, k) - 1 <= 0 then m - {k} else m[k := At(m, k) - 1]
  }

  ghost predicate AllPositive<K(!new)>(m: map<K, int>) {
    forall k :: k in m ==> m[k] > 0
  }

  class Limiter {
    const maxPerTenant: int
    var counts: map<string, int>

    constructor (maxPerTenant: int)
      ensures this.maxPerTenant == (if maxPerTenant <= 0 then 10 else maxPerTenant) && counts == map[]
    {
      this.maxPerTenant := if maxPerTenant <= 0 then 10 else maxPerTenant;
      this.counts := map[];
    }

    /** One atomic add on the tenant's counter, which is created on first use. */
    method AddTo(tenant: string, d: int) returns (v: int)
      modifies this
      ensures counts == Add(old(counts), tenant, d)
      ensures Moves(old(counts), counts, tenant, d) && v == counts[tenant]
    {
      if tenant !in counts {
        counts := counts[tenant := 0];
      }
      v := counts[tenant] + d;
      counts := counts[tenant := v];
    }

    /** Increment, compare, undo: with nothing in between, a slot is granted iff one is free. */
    method TryAcquire(tenant: string) returns (ok: bool)
      modifies this
      ensures ok <==> old(At(counts, tenant)) < maxPerTenant
      ensures counts == Add(old(counts), tenant, if ok then 1 else 0)
      ensures Moves(old(counts), counts, tenant, if ok then 1 else 0)
    {
      var v := AddTo(tenant, 1);
      if v > maxPerTenant {
        var _ := AddTo(tenant, -1);
        return false;
      }
      return true;
    }

    method Release(tenant: string)
      modifies this
      ensures counts == Add(old(counts), tenant, -1)
      ensures Moves(old(counts), counts, tenant, -1)
    {
      var _ := AddTo(tenant, -1);
    }
  }

  class Metrics {
    var active: map<GaugeKey, int>
    var errors: map<ErrorKey, int>

    constructor ()
      ensures active == map[] && errors == map[]
    {
      active, errors := map[], map[];
    }

    method Inc(tenant: string, route: string)
      modifies this`active
      ensures active == Add(old(active), (tenant, route), 1)
      ensures Moves(old(active), active, (tenant, route), 1)
    {
      var k := (tenant, route);
      active := active[k := (if k in active then active[k] else 0) + 1];
    }

    method Dec(tenant: string, route: string)
      modifies this`active
      ensures active == Decrement(old(active), (tenant, route))
      ensures (tenant, route) in active <==> old(At(active, (tenant, route))) > 1
      ensures (tenant, route) in active ==> Moves(old(active), active, (tenant, route), -1)
      ensures (tenant, route) !in active ==> active == old(active) - {(tenant, route)}
      ensures old(AllPositive(active)) ==> AllPositive(active)
    {
      var k := (tenant, route);
      var v := (if k in active then active[k] else 0) - 1;
      if v <= 0 {
        active := active - {k};
      } else {
        active := active[k := v];
      }
    }

    method Error(tenant: string, route: string, kind: string)
      modifies this`errors
      ensures errors == Add(old(errors), (tenant, route, kind), 1)
      ensures Moves(old(errors), errors, (tenant, route, kind), 1)
    {
      var k := (tenant, route, kind);
      errors := errors[k := (if k in errors then errors[k] else 0) + 1];
    }
  }

  /** The error counters once a failure, if there is one, has been recorded. */
  function Recorded(errors: map<ErrorKey, int>, tenant: string, route: string, failure: Option<string>):
    map<ErrorKey, int>
  {
    if failure.Some? then Add(errors, (tenant, route, failure.value), 1) else errors
  }

  /**
   * One uninterrupted request of an SSE proxy: acquire or reject, `Inc`, the stream with the
   * failure it may end in, and the deferred `Dec` before the deferred `Release`.
   */
  method Proxy(limiter: Limiter, metrics: Metrics, tenant: string, route: string, failure: Option<string>)
    returns (admitted: bool)
    modifies limiter, metrics
    ensures admitted <==> old(At(limiter.counts, tenant)) < limiter.maxPerTenant
    ensures limiter.counts == Add(old(limiter.counts), tenant, 0)
    ensures metrics.active ==
            if admitted then Decrement(Add(old(metrics.active), (tenant, route), 1), (tenant, route))
            else old(metrics.active)
    ensures metrics.errors ==
            Recorded(old(metrics.errors), tenant, route, if admitted then failure else Some("limit_exceeded"))
  {
    admitted := limiter.TryAcquire(tenant);
    if !admitted {
      metrics.Error(tenant, route, LIMIT_EXCEEDED);
      return;
    }
    metrics.Inc(tenant, route);
    if failure.Some? {
      metrics.Error(tenant, route, failure.value);
    }
    metrics.Dec(tenant, route);
    limiter.Release(tenant);
  }
}
