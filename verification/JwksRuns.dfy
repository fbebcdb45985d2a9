/** Sequential runs of the two JWKS validators: availability, fetch bound, lockstep. */
module JwksRuns {
  import opened Common
  import opened Jwks

  /** The plugin's cache after a run of calls. */
  function After(ttl: int, start: Cache, calls: seq<Call>): Cache {
    if |calls| == 0 then start
    else PluginStep(ttl, After(ttl, start, calls[..|calls| - 1]), calls[|calls| - 1]).0
  }

  function AfterAuth(ttl: int, start: Cache, calls: seq<Call>): Cache {
    if |calls| == 0 then start
    else AuthStep(ttl, AfterAuth(ttl, start, calls[..|calls| - 1]), calls[|calls| - 1]).0
  }

  // ----- lockstep -----

  /**
   * Fed the same calls, the two validators hold the same keys and the same fetch time at every
   * step, and their answers to the next call differ exactly when its refresh failed and either a
   * stale key could be served or there was no key at all; only in the first case does one of them
   * return a key.
   */
  lemma {:induction false} Lockstep(ttl: int, start: Cache, calls: seq<Call>, q: Call)
    ensures AfterAuth(ttl, start, calls) == After(ttl, start, calls)
    ensures var c := After(ttl, start, calls);
      var (c1, plugin) := PluginStep(ttl, c, q);
      var (c2, auth) := AuthStep(ttl, AfterAuth(ttl, start, calls), q);
      && c1 == c2
      && (auth.Key? ==> plugin == auth)
      && (plugin.Key? && !auth.Key? <==> Refreshes(ttl, c, q) && Usable(q.fetch).None? && q.kid in c.keys)
      && (plugin != auth <==> Refreshes(ttl, c, q) && Usable(q.fetch).None? && (q.kid in c.keys || |c.keys| == 0))
  {
    if |calls| > 0 {
      Lockstep(ttl, start, calls[..|calls| - 1], calls[|calls| - 1]);
    }
  }

  // ----- availability -----

  /** No document that the run stores drops `kid`. */
  ghost predicate NeverDropped(ttl: int, start: Cache, calls: seq<Call>, kid: string) {
    |calls| > 0 ==>
      var init, q := calls[..|calls| - 1], calls[|calls| - 1];
      && NeverDropped(ttl, start, init, kid)
      && (Refreshes(ttl, After(ttl, start, init), q) && Usable(q.fetch).Some? ==> kid in Usable(q.fetch).value)
  }

  /**
   * Once a kid is cached, asking for it never fails until a stored document drops it, however
   * many refreshes fail in between and however stale the key is: `q` is the call that asks.
   */
  lemma {:induction false} StaysAvailable(ttl: int, start: Cache, calls: seq<Call>, q: Call)
    requires q.kid in start.keys && NeverDropped(ttl, start, calls, q.kid)
    ensures var c := After(ttl, start, calls);
      && q.kid in c.keys
      && (PluginStep(ttl, c, q).1.Key? <==> NeverDropped(ttl, start, calls + [q], q.kid))
  {
    assert (calls + [q])[..|calls|] == calls;
    if |calls| > 0 {
      StaysAvailable(ttl, start, calls[..|calls| - 1], Call(q.kid, 0, Unreachable, 0));
    }
  }

  /**
   * A failed refresh changes nothing, and `errJWKSUnavailable` means exactly that the refresh
   * failed with no key cached at all.
   */
  lemma FailureEffects(ttl: int, c: Cache, q: Call)
    ensures Usable(q.fetch).None? ==> PluginStep(ttl, c, q).0 == c
    ensures PluginStep(ttl, c, q).1 == Unavailable <==> Usable(q.fetch).None? && c.keys == map[]
    ensures PluginStep(ttl, c, q).1 == RefreshFailed <==>
            Usable(q.fetch).None? && c.keys != map[] && q.kid !in c.keys
  {
    assert |c.keys| == 0 <==> c.keys == map[];
  }

  /**
   * The comment at internal/plugins/tokenvalidator/jwks.go:200 takes an empty cache for a cold
   * start. A usable document without RSA keys empties the cache too, so the error also follows a
   * fetch that succeeded.
   */
  lemma UnavailableAfterSuccess(ttl: int, kid: string, t: int)
    ensures var calls := [Call(kid, t, Document([]), t)];
      && After(ttl, EMPTY, calls).fetchAt == Some(t)
      && PluginStep(ttl, After(ttl, EMPTY, calls), Call(kid, t, Unreachable, t)).1 == Unavailable
  {
    var calls := [Call(kid, t, Document([]), t)];
    assert calls[..0] == [];
  }

  /** The last usable document that a run has fetched. */
  function LatestDocument(ttl: int, calls: seq<Call>): Option<seq<Jwk>> {
    if |calls| == 0 then None
    else
      var init, q := calls[..|calls| - 1], calls[|calls| - 1];
      if Refreshes(ttl, After(ttl, EMPTY, init), q) && Usable(q.fetch).Some? then Some(q.fetch.keys)
      else LatestDocument(ttl, init)
  }

  lemma {:induction false} CacheIsLatestDocument(ttl: int, calls: seq<Call>)
    ensures var c := After(ttl, EMPTY, calls);
      match LatestDocument(ttl, calls)
      case None => c == EMPTY
      case Some(doc) => KeySet(doc) == Some(c.keys) && c.fetchAt.Some?
  {
    if |calls| > 0 {
      CacheIsLatestDocument(ttl, calls[..|calls| - 1]);
    }
  }

  /** A document publishes no key that the cache could use. */
  predicate Keyless(doc: seq<Jwk>) {
    forall i :: 0 <= i < |doc| ==> doc[i].kty != "RSA"
  }

  lemma KeylessIff(doc: seq<Jwk>, keys: Keys)
    requires KeySet(doc) == Some(keys)
    ensures keys == map[] <==> Keyless(doc)
  {
    forall kid
      ensures kid in keys <==> exists i :: 0 <= i < |doc| && doc[i].kty == "RSA" && doc[i].kid == kid
    {
      KeySetMeaning(doc, kid);
    }
    if !Keyless(doc) {
      var i :| 0 <= i < |doc| && doc[i].kty == "RSA";
      assert doc[i].kid in keys;
    }
  }

  /**
   * When `errJWKSUnavailable` is a cold start, as its comment has it: after any run it means that
   * this refresh failed and that no refresh has succeeded yet, or that the last one that did
   * brought a document without RSA keys. It is the cold start iff the first of the two holds.
   */
  lemma UnavailableIff(ttl: int, calls: seq<Call>, q: Call)
    ensures PluginStep(ttl, After(ttl, EMPTY, calls), q).1 == Unavailable <==>
            && Usable(q.fetch).None?
            && (LatestDocument(ttl, calls).None? || Keyless(LatestDocument(ttl, calls).value))
    ensures LatestDocument(ttl, calls).None? <==> After(ttl, EMPTY, calls).fetchAt.None?
  {
    var c, latest := After(ttl, EMPTY, calls), LatestDocument(ttl, calls);
    FailureEffects(ttl, c, q);
    CacheIsLatestDocument(ttl, calls);
    if latest.Some? {
      KeylessIff(latest.value, c.keys);
    }
  }

  /** Every key a run returns is published, under the requested kid, in the latest usable document. */
  lemma KeysComeFromLatestDocument(ttl: int, calls: seq<Call>, q: Call)
    requires PluginStep(ttl, After(ttl, EMPTY, calls), q).1.Key?
    ensures LatestDocument(ttl, calls + [q]).Some?
    ensures exists i :: 0 <= i < |LatestDocument(ttl, calls + [q]).value|
              && LatestDocument(ttl, calls + [q]).value[i] ==
                 Jwk("RSA", q.kid, Some(PluginStep(ttl, After(ttl, EMPTY, calls), q).1.key))
  {
    var all := calls + [q];
    assert all[..|all| - 1] == calls;
    CacheIsLatestDocument(ttl, all);
    KeySetMeaning(LatestDocument(ttl, all).value, q.kid);
  }

  // ----- staleness -----

  /** The usable documents that a run has stored, each with the time of its store. */
  function Stores(ttl: int, calls: seq<Call>): seq<(seq<Jwk>, int)> {
    if |calls| == 0 then []
    else
      var init, q := calls[..|calls| - 1], calls[|calls| - 1];
      if Refreshes(ttl, After(ttl, EMPTY, init), q) && Usable(q.fetch).Some?
      then Stores(ttl, init) + [(q.fetch.keys, q.stored)]
      else Stores(ttl, init)
  }

  lemma {:induction false} CacheIsLastStore(ttl: int, calls: seq<Call>)
    ensures var c, stores := After(ttl, EMPTY, calls), Stores(ttl, calls);
      if |stores| == 0 then c == EMPTY
      else
        var (doc, at) := stores[|stores| - 1];
        KeySet(doc) == Some(c.keys) && c.fetchAt == Some(at)
  {
    if |calls| > 0 {
      CacheIsLastStore(ttl, calls[..|calls| - 1]);
    }
  }

  /**
   * No key outlives its TTL while the endpoint works: a returned key is published under the kid in
   * the document stored last before the call, no longer than the TTL ago; or the call refreshed,
   * and it is in the document just fetched; or that refresh failed, and only then is a key of the
   * last document served at any age.
   */
  lemma KeysAreFresh(ttl: int, calls: seq<Call>, q: Call)
    requires PluginStep(ttl, After(ttl, EMPTY, calls), q).1.Key?
    ensures var key, stores := PluginStep(ttl, After(ttl, EMPTY, calls), q).1.key, Stores(ttl, calls);
      || (exists keys :: Usable(q.fetch) == Some(keys) && q.kid in keys && keys[q.kid] == key)
      || (|stores| > 0 && Jwk("RSA", q.kid, Some(key)) in stores[|stores| - 1].0
          && (q.now <= stores[|stores| - 1].1 + ttl || Usable(q.fetch).None?))
  {
    var c, stores := After(ttl, EMPTY, calls), Stores(ttl, calls);
    CacheIsLastStore(ttl, calls);
    PluginCases(ttl, c, q);
    hide PluginStep, After, Stores, Usable, KeySet;
    if |stores| > 0 {
      KeySetMeaning(stores[|stores| - 1].0, q.kid);
    }
    if Usable(q.fetch).Some? {
      assert Usable(q.fetch) == Some(Usable(q.fetch).value);
    }
  }

  // ----- the fetch bound -----

  /** The store times of the fetches that a run performs, when all of them succeed. */
  function FetchTimes(ttl: int, calls: seq<Call>): seq<int> {
    if |calls| == 0 then []
    else
      var init, q := calls[..|calls| - 1], calls[|calls| - 1];
      if Refreshes(ttl, After(ttl, EMPTY, init), q) then FetchTimes(ttl, init) + [q.stored] else FetchTimes(ttl, init)
  }

  /** Every refresh of the run succeeds, and what it stores publishes all of `kids`. */
  ghost predicate AllPublished(ttl: int, calls: seq<Call>, kids: set<string>) {
    |calls| > 0 ==>
      var init, q := calls[..|calls| - 1], calls[|calls| - 1];
      && AllPublished(ttl, init, kids)
      && (Refreshes(ttl, After(ttl, EMPTY, init), q) ==> Usable(q.fetch).Some? && kids <= Usable(q.fetch).value.Keys)
  }

  /** No call stores before it has read the clock, and each asks for one of `kids`. */
  ghost predicate Asks(calls: seq<Call>, kids: set<string>) {
    forall q :: q in calls ==> q.now <= q.stored && q.kid in kids
  }

  lemma {:induction false} FetchesAreSpaced(ttl: int, calls: seq<Call>, kids: set<string>)
    requires Asks(calls, kids) && AllPublished(ttl, calls, kids)
    ensures var times, c := FetchTimes(ttl, calls), After(ttl, EMPTY, calls);
      && (if |times| == 0 then c == EMPTY else c.fetchAt == Some(times[|times| - 1]) && kids <= c.keys.Keys)
      && (forall i :: 0 < i < |times| ==> times[i] > times[i - 1] + ttl)
  {
    if |calls| > 0 {
      var init, q := calls[..|calls| - 1], calls[|calls| - 1];
      assert q in calls && forall p :: p in init ==> p in calls;
      FetchesAreSpaced(ttl, init, kids);
    }
  }

  lemma {:induction false} SpreadOut(ttl: int, times: seq<int>)
    requires |times| >= 1 && forall i :: 0 < i < |times| ==> times[i] > times[i - 1] + ttl
    ensures (|times| - 1) * (ttl + 1) <= times[|times| - 1] - times[0]
  {
    if |times| > 1 {
      SpreadOut(ttl, times[..|times| - 1]);
    }
  }

  /**
   * The amortised bound: `k` fetches of such a run are spread over more than `k - 1` times the
   * TTL; with an integer clock each gap is at least one tick longer than the TTL.
   */
  lemma FetchBound(ttl: int, calls: seq<Call>, kids: set<string>)
    requires Asks(calls, kids) && AllPublished(ttl, calls, kids) && |FetchTimes(ttl, calls)| >= 1
    ensures var times := FetchTimes(ttl, calls);
      && (|times| - 1) * (ttl + 1) <= times[|times| - 1] - times[0]
      && (|times| >= 2 ==> (|times| - 1) * ttl < times[|times| - 1] - times[0])
  {
    FetchesAreSpaced(ttl, calls, kids);
    SpreadOut(ttl, FetchTimes(ttl, calls));
  }
}
