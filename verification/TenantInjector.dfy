/**
 * The tenant-injector plugin: `resolveTenant` over the heap cache, and the handler that turns
 * validated claims into an injected tenant header or a single error.
 */
module TenantInjector {
  import opened Common
  import opened Lru
  import opened LruCache
  import opened Directory
  import opened TenantRuns

  // ----- the handler's decision, as a function of what it reads -----

  datatype ClaimValue = Text(s: string) | NotText

  /** Header names are in canonical form; an empty `principalHeader` disables principal injection. */
  datatype Settings = Settings(
    principalClaim: string,
    tenantHeader: string,
    principalHeader: string,
    allowlist: set<string>,
    lookupNetworkError: int,
    lookupTimeout: int,
    principalNotFound: int,
    claimMissing: int)

  type Fields = map<string, seq<string>>

  /** The request goes on to the next handler, or one error is written. */
  datatype Verdict = Forward | Reject(status: int, code: string, dependency: string)

  /** The principal of a request, or nothing when the claim is absent, empty or not a string. */
  function Principal(st: Settings, claims: Option<map<string, ClaimValue>>): Option<string> {
    if claims.Some? && st.principalClaim in claims.value
       && claims.value[st.principalClaim].Text? && claims.value[st.principalClaim].s != ""
    then Some(claims.value[st.principalClaim].s)
    else None
  }

  function Decide(st: Settings, principal: Option<string>, answer: Outcome): Verdict {
    if principal.None? then Reject(st.claimMissing, "claim_missing", "")
    else match answer
      case NotFound => Reject(st.principalNotFound, "principal_not_found", "")
      case Timeout => Reject(st.lookupTimeout, "lookup_timeout", "iam-lookup")
      case NetworkError => Reject(st.lookupNetworkError, "lookup_network_error", "iam-lookup")
      case Tenant(id) =>
        if st.allowlist != {} && id !in st.allowlist
        then Reject(st.principalNotFound, "tenant_not_in_allowlist", "")
        else Forward
  }

  /** The header fields the next handler sees. */
  function Injected(st: Settings, fields: Fields, principal: string, tenant: string): Fields {
    var stripped := fields - {st.tenantHeader};
    var injected := stripped[st.tenantHeader := [tenant]];
    if st.principalHeader != "" then injected[st.principalHeader := [principal]] else injected
  }

  /** The principal is the claim's value: the configured claim, as a non-empty string. */
  ghost predicate Names(st: Settings, claims: Option<map<string, ClaimValue>>, p: string) {
    && p != "" && claims.Some?
    && st.principalClaim in claims.value && claims.value[st.principalClaim] == Text(p)
  }

  lemma PrincipalIff(st: Settings, claims: Option<map<string, ClaimValue>>, p: string)
    ensures Principal(st, claims) == Some(p) <==>
            p != "" && exists m: map<string, ClaimValue> ::
              claims == Some(m) && st.principalClaim in m && m[st.principalClaim] == Text(p)
    ensures Principal(st, claims) == Some(p) <==> Names(st, claims, p)
  {
    if claims.Some? {
      assert claims == Some(claims.value);
    }
  }

  /**
   * A request is forwarded exactly when its claims name a principal, the directory knows the
   * principal's tenant, and the allowlist, if there is one, admits that tenant.
   */
  lemma ForwardIff(st: Settings, claims: Option<map<string, ClaimValue>>, answer: Outcome)
    ensures Decide(st, Principal(st, claims), answer).Forward? <==>
            && (exists p :: Names(st, claims, p))
            && (exists t: string :: answer == Tenant(t) && (st.allowlist == {} || t in st.allowlist))
  {
    if Principal(st, claims).Some? {
      PrincipalIff(st, claims, Principal(st, claims).value);
    }
    if answer.Tenant? {
      assert answer == Tenant(answer.id);
    }
  }

  /**
   * Each rejection names its cause and carries the status configured for it, and a dependency is
   * named exactly when the directory could not be asked.
   */
  lemma RejectionCauses(st: Settings, principal: Option<string>, answer: Outcome)
    requires Decide(st, principal, answer).Reject?
    ensures var v := Decide(st, principal, answer);
      && (v.code == "claim_missing" <==> principal.None?)
      && (v.code == "principal_not_found" <==> principal.Some? && answer == NotFound)
      && (v.code == "tenant_not_in_allowlist" <==> principal.Some? && answer.Tenant?)
      && (v.code == "lookup_timeout" <==> principal.Some? && answer == Timeout)
      && (v.code == "lookup_network_error" <==> principal.Some? && answer == NetworkError)
      && (v.dependency == "iam-lookup" <==> principal.Some? && (answer == Timeout || answer == NetworkError))
      && (v.dependency == "" <==> principal.None? || answer == NotFound || answer.Tenant?)
      && (principal.None? ==> v.status == st.claimMissing)
      && (principal.Some? && answer == Timeout ==> v.status == st.lookupTimeout)
      && (principal.Some? && answer == NetworkError ==> v.status == st.lookupNetworkError)
      && (principal.Some? && (answer == NotFound || answer.Tenant?) ==> v.status == st.principalNotFound)
  {
    assert "claim_missing"[0] == 'c' && "principal_not_found"[0] == 'p' && "tenant_not_in_allowlist"[0] == 't';
    assert "lookup_timeout"[7] == 't' && "lookup_network_error"[7] == 'n';
  }

  /** What a client writes into the tenant header makes no difference to what is forwarded. */
  lemma NoSmuggling(st: Settings, fields: Fields, smuggled: seq<string>, principal: string, tenant: string)
    ensures Injected(st, fields[st.tenantHeader := smuggled], principal, tenant) ==
            Injected(st, fields, principal, tenant)
    ensures Injected(st, fields - {st.tenantHeader}, principal, tenant) == Injected(st, fields, principal, tenant)
  {
    assert fields[st.tenantHeader := smuggled] - {st.tenantHeader} == fields - {st.tenantHeader};
    assert fields - {st.tenantHeader} - {st.tenantHeader} == fields - {st.tenantHeader};
  }

  ghost predicate SameField(a: Fields, b: Fields, h: string) {
    (h in a <==> h in b) && (h in a ==> a[h] == b[h])
  }

  /**
   * The forwarded tenant header carries the derived tenant, except when the principal is
   * configured to go into the very same header: the later write wins and the header then carries
   * the principal. Every other header passes unchanged.
   */
  lemma TenantHeaderIff(st: Settings, fields: Fields, principal: string, tenant: string)
    requires st.tenantHeader != ""
    ensures var out := Injected(st, fields, principal, tenant);
      && st.tenantHeader in out
      && (out[st.tenantHeader] == [tenant] <==> st.principalHeader != st.tenantHeader || principal == tenant)
      && (st.principalHeader != "" ==> st.principalHeader in out && out[st.principalHeader] == [principal])
      && (forall h :: h != st.tenantHeader && (h != st.principalHeader || st.principalHeader == "") ==>
            SameField(out, fields, h))
  {}

  /** What the directory would answer, and the clock at the read and at the store. */
  datatype Lookup = Lookup(now: int, outcome: Outcome, stored: int)

  /** What one request comes to: its verdict, the cache after it, and the header fields after it. */
  function Handled(cfg: Config, st: Settings, claims: Option<map<string, ClaimValue>>, l: Lookup,
                   c: Recency<Payload>, fields: Fields): (Verdict, Recency<Payload>, Fields) {
    var stripped := fields - {st.tenantHeader};
    match Principal(st, claims)
    case None => (Decide(st, None, l.outcome), c, stripped)
    case Some(p) =>
      var (c', answer, _) := Resolve(cfg, c, Request(p, l.now, l.outcome, l.stored));
      var v := Decide(st, Some(p), answer);
      (v, c', if v.Forward? then Injected(st, fields, p, answer.id) else stripped)
  }

  /**
   * A request whose claims name a principal is resolved under that very name, and the name goes
   * into the principal header. Without a principal the cache is not touched. The client's tenant
   * header is gone on every path, and a rejected request keeps all its other fields.
   */
  lemma HandledCases(cfg: Config, st: Settings, claims: Option<map<string, ClaimValue>>, l: Lookup,
                     c: Recency<Payload>, fields: Fields)
    ensures var (v, c', out) := Handled(cfg, st, claims, l, c, fields);
      && ((forall p :: !Names(st, claims, p)) ==> c' == c && v.Reject? && v.code == "claim_missing")
      && (forall p :: Names(st, claims, p) ==>
            var (resolved, answer, _) := Resolve(cfg, c, Request(p, l.now, l.outcome, l.stored));
            && c' == resolved && v == Decide(st, Some(p), answer)
            && (v.Forward? ==> answer.Tenant? && out == Injected(st, fields, p, answer.id)))
      && (v.Reject? ==> st.tenantHeader !in out && forall h :: h != st.tenantHeader ==> SameField(out, fields, h))
  {
    hide Resolve;
    forall p
      ensures Principal(st, claims) == Some(p) <==> Names(st, claims, p)
    {
      PrincipalIff(st, claims, p);
    }
  }

  /** A header block, changed in place. */
  class Header {
    var fields: Fields

    constructor (fields: Fields)
      ensures this.fields == fields
    {
      this.fields := fields;
    }
  }

  /** The plugin's state between requests. The directory's answers and the clock come as parameters. */
  class Injector {
    const cfg: Config
    var cache: Cache<Payload>

    ghost predicate Valid()
      reads this, cache, cache.lruList, cache.lruList.ring
    {
      cfg.Valid() && cache.Valid() && cache.maxSize == cfg.maxSize
    }

    constructor (cfg: Config)
      requires cfg.Valid()
      ensures Valid() && this.cfg == cfg && cache.Contents() == []
    {
      this.cfg := cfg;
      this.cache := new Cache<Payload>(cfg.maxSize);
    }

    /** Caches a definitive answer; a timeout or a network error is not cached. */
    method RememberAnswer(key: string, answer: Outcome, now: int)
      requires Valid()
      modifies cache`lruMap, cache.lruList, cache.lruList.ring
      ensures Valid()
      ensures cache.Contents() == Remember(cfg, old(cache.Contents()), key, answer, now)
    {
      hide Set;
      match answer
      case Tenant(id) => cache.CacheSet(key, Payload(id, false), now, cfg.ttl);
      case NotFound => cache.CacheSet(key, Payload("", true), now, cfg.negativeTTL);
      case _ =>
    }

    /** One uninterrupted call: the cache first, the directory only on a miss. */
    method ResolveTenant(r: Request) returns (answer: Outcome, lookedUp: bool)
      requires Valid()
      modifies cache`lruMap, cache.lruList, cache.lruList.ring
      ensures Valid()
      ensures (cache.Contents(), answer, lookedUp) == Resolve(cfg, old(cache.Contents()), r)
    {
      hide Get, Remember;
      var hit := cache.CacheGet(r.key, r.now);
      match hit
      case Some(p) =>
        answer, lookedUp := p.Answer(), false;
      case None =>
        answer, lookedUp := r.outcome, true;
        RememberAnswer(r.key, r.outcome, r.stored);
    }

    /** The middleware for one request: strip the tenant header, resolve, decide, inject. */
    method Handle(st: Settings, header: Header, claims: Option<map<string, ClaimValue>>, l: Lookup)
      returns (v: Verdict)
      requires Valid()
      modifies header, cache`lruMap, cache.lruList, cache.lruList.ring
      ensures Valid()
      ensures (v, cache.Contents(), header.fields)
           == Handled(cfg, st, claims, l, old(cache.Contents()), old(header.fields))
      ensures v.Forward? ==>
                exists p, id :: Names(st, claims, p) && header.fields == Injected(st, old(header.fields), p, id)
    {
      hide Resolve, Names;
      header.fields := header.fields - {st.tenantHeader};
      if claims.None? {
        return Reject(st.claimMissing, "claim_missing", "");
      }
      var principal := Principal(st, claims);
      if principal.None? {
        return Reject(st.claimMissing, "claim_missing", "");
      }
      PrincipalIff(st, claims, principal.value);
      var answer, _ := ResolveTenant(Request(principal.value, l.now, l.outcome, l.stored));
      match answer {
        case NotFound => return Reject(st.principalNotFound, "principal_not_found", "");
        case Timeout => return Reject(st.lookupTimeout, "lookup_timeout", "iam-lookup");
        case NetworkError => return Reject(st.lookupNetworkError, "lookup_network_error", "iam-lookup");
        case Tenant(id) =>
          if |st.allowlist| > 0 && id !in st.allowlist {
            return Reject(st.principalNotFound, "tenant_not_in_allowlist", "");
          }
          header.fields := header.fields[st.tenantHeader := [id]];
          if st.principalHeader != "" {
            header.fields := header.fields[st.principalHeader := [principal.value]];
          }
          assert header.fields == Injected(st, old(header.fields), principal.value, id);
          return Forward;
      }
    }
  }
}
