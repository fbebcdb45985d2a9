/** What a tenant-directory lookup can answer and what tenant-injector caches of it. */
module Directory {
  import opened Common
  import opened Lru

  datatype Outcome = Tenant(id: string) | NotFound | Timeout | NetworkError
  {
    /** Only a tenant or a 404 is an answer worth remembering. */
    predicate Definitive() {
      Tenant? || NotFound?
    }
  }

  /** The body of an HTTP answer: unusable, or JSON whose tenant field is a string or not. */
  datatype Body = Garbled | Json(tenant: Option<string>)

  datatype Response = NoResponse(timedOut: bool) | Response(status: int, body: Body)

  function Classify(r: Response): Outcome {
    match r
    case NoResponse(timedOut) => if timedOut then Timeout else NetworkError
    case Response(status, body) =>
      if status == 404 then NotFound
      else if status < 200 || status >= 300 || body.Garbled? then NetworkError
      else if body.tenant.None? || body.tenant.value == "" then NotFound
      else Tenant(body.tenant.value)
  }

  /**
   * A principal has a tenant only by a 2xx answer that names one; it is unknown, and remembered
   * as such, not only by a 404 but also by a 2xx answer that names none.
   */
  lemma ClassifyIff(r: Response, id: string)
    ensures Classify(r) == Tenant(id) <==>
            id != "" && exists status :: 200 <= status < 300 && r == Response(status, Json(Some(id)))
    ensures Classify(r) == NotFound <==>
            || (exists body :: r == Response(404, body))
            || (exists status :: 200 <= status < 300 && r == Response(status, Json(None)))
            || (exists status :: 200 <= status < 300 && r == Response(status, Json(Some(""))))
    ensures Classify(r) == Timeout <==> r == NoResponse(true)
  {
    if r.Response? && r.body.Json? {
      assert r == Response(r.status, Json(r.body.tenant));
      var tenant := r.body.tenant;
      assert tenant == None || tenant == Some("") || (tenant == Some(tenant.value) && tenant.value != "");
    } else if r.Response? {
      assert r == Response(r.status, r.body);
    }
  }

  /** The payload of a cache entry. */
  datatype Payload = Payload(tenantID: string, negative: bool)
  {
    function Answer(): Outcome {
      if negative then NotFound else Tenant(tenantID)
    }
  }

  /**
   * The cache settings after `Init`: `maxSize` is at least one. The time-to-live of negative
   * answers is not checked there and may be negative, so nothing below assumes otherwise.
   */
  datatype Config = Config(ttl: int, negativeTTL: int, maxSize: nat)
  {
    ghost predicate Valid() {
      ttl > 0 && maxSize >= 1
    }

    function TTL(o: Outcome): int {
      if o.NotFound? then negativeTTL else ttl
    }
  }

  datatype BadBound = BadTTL | BadMaxEntries

  /**
   * The bounds on the cache that `Init` reads: absent ones take defaults. They are accepted iff
   * neither a given TTL nor a given size is zero or negative, and then the settings are valid.
   */
  function CacheSettings(ttl: Option<int>, negativeTTL: Option<int>, maxEntries: Option<int>):
    (r: Result<Config, BadBound>)
    ensures r.Ok? <==> (ttl.Some? ==> ttl.value > 0) && (maxEntries.Some? ==> maxEntries.value > 0)
    ensures r.Ok? ==> r.value.Valid()
    ensures r.Ok? ==> r.value.ttl == if ttl.Some? then ttl.value else 300
    ensures r.Ok? ==> r.value.maxSize == if maxEntries.Some? then maxEntries.value else 10000
    ensures r.Ok? && (negativeTTL.None? || negativeTTL.value == 0) ==> r.value.negativeTTL == 30
    ensures r.Ok? && negativeTTL.Some? && negativeTTL.value != 0 ==> r.value.negativeTTL == negativeTTL.value
    ensures r == Err(BadTTL) ==> ttl.Some? && ttl.value <= 0
    ensures r == Err(BadMaxEntries) ==> ttl.None? || ttl.value > 0
  {
    if ttl.Some? && ttl.value <= 0 then Err(BadTTL)
    else if maxEntries.Some? && maxEntries.value <= 0 then Err(BadMaxEntries)
    else Ok(Config(
      if ttl.Some? then ttl.value else 300,
      if negativeTTL.Some? && negativeTTL.value != 0 then negativeTTL.value else 30,
      if maxEntries.Some? then maxEntries.value else 10000))
  }

  function Pack(o: Outcome): (p: Payload)
    ensures o.Definitive() ==> p.Answer() == o
  {
    if o.Tenant? then Payload(o.id, false) else Payload("", true)
  }

  /** The cache after a lookup for `key` answered `o` at time `now`; failures leave it alone. */
  function Remember(cfg: Config, c: Recency<Payload>, key: string, o: Outcome, now: int): Recency<Payload> {
    if o.Definitive() then Set(c, key, Pack(o), now + cfg.TTL(o), cfg.maxSize) else c
  }

  /**
   * What each outcome of a lookup leaves in the cache: a tenant for the TTL, a missing principal
   * for the negative TTL, and nothing of a failure.
   */
  lemma RememberCases(cfg: Config, c: Recency<Payload>, key: string, id: string, now: int)
    ensures Remember(cfg, c, key, Tenant(id), now) == Set(c, key, Payload(id, false), now + cfg.ttl, cfg.maxSize)
    ensures Remember(cfg, c, key, NotFound, now) == Set(c, key, Payload("", true), now + cfg.negativeTTL, cfg.maxSize)
    ensures Remember(cfg, c, key, Timeout, now) == c
    ensures Remember(cfg, c, key, NetworkError, now) == c
  {
    hide Set;
  }

  /** What a cached payload answers, whatever tenant a negative one carries. */
  lemma AnswerCases(id: string)
    ensures Payload(id, false).Answer() == Tenant(id)
    ensures Payload(id, true).Answer() == NotFound
  {}

  /** How long an answer given at `from` is good for: a tenant for the TTL, a missing principal for the negative TTL. */
  ghost predicate GoodAt(cfg: Config, o: Outcome, from: int, at: int) {
    match o
    case Tenant(_) => from <= at <= from + cfg.ttl
    case NotFound => from <= at <= from + cfg.negativeTTL
    case _ => false
  }
}
