/**
 * The JWKS key cache of token-validator (stale-while-revalidate) and its older sibling in
 * `internal/auth`, as timed state machines over refresh outcomes.
 */
module Jwks {
  import opened Common

  datatype PublicKey = PublicKey(n: int, e: int)

  type Keys = map<string, PublicKey>

  /** One published key; `pub` is nothing when its modulus or exponent cannot be decoded. */
  datatype Jwk = Jwk(kty: string, kid: string, pub: Option<PublicKey>)

  /** What one request to the endpoint brings. The HTTP status plays no part. */
  datatype Fetch = Unreachable | Undecodable | Document(keys: seq<Jwk>)

  /** The cache: the keys last published and when they were fetched; nothing before the first success. */
  datatype Cache = Cache(keys: Keys, fetchAt: Option<int>)

  const EMPTY := Cache(map[], None)

  /** A call at `now`; should it refresh, the endpoint answers `fetch` and the result is stored at `stored`. */
  datatype Call = Call(kid: string, now: int, fetch: Fetch, stored: int)

  datatype Answer = Key(key: PublicKey) | Unavailable | RefreshFailed | UnknownKid

  // ----- reading a document -----

  /** The RSA keys of a document by kid, a later one replacing an earlier; nothing if one is broken. */
  function KeySet(doc: seq<Jwk>): Option<Keys> {
    if |doc| == 0 then Some(map[])
    else
      var k := doc[|doc| - 1];
      match KeySet(doc[..|doc| - 1])
      case None => None
      case Some(keys) =>
        if k.kty != "RSA" then Some(keys)
        else if k.pub.None? then None
        else Some(keys[k.kid := k.pub.value])
  }

  lemma {:induction false} BrokenPrefix(doc: seq<Jwk>, n: nat)
    requires n <= |doc| && KeySet(doc[..n]).None?
    ensures KeySet(doc).None?
    decreases |doc| - n
  {
    if n == |doc| {
      assert doc[..n] == doc;
    } else {
      assert doc[..n + 1][..n] == doc[..n];
      BrokenPrefix(doc, n + 1);
    }
  }

  /** The loop of `refresh`, which gives up at the first broken key. */
  method BuildKeys(doc: seq<Jwk>) returns (r: Option<Keys>)
    ensures r == KeySet(doc)
  {
    var keys: Keys := map[];
    for i := 0 to |doc|
      invariant KeySet(doc[..i]) == Some(keys)
    {
      var k := doc[i];
      assert doc[..i + 1][..i] == doc[..i];
      if k.kty == "RSA" {
        if k.pub.None? {
          BrokenPrefix(doc, i + 1);
          return None;
        }
        keys := keys[k.kid := k.pub.value];
      }
    }
    assert doc[..|doc|] == doc;
    return Some(keys);
  }

  /** A document is usable iff no RSA key in it is broken, and then each kid has the last key published for it. */
  lemma {:induction false} KeySetMeaning(doc: seq<Jwk>, kid: string)
    ensures KeySet(doc).Some? <==> forall i :: 0 <= i < |doc| ==> doc[i].kty != "RSA" || doc[i].pub.Some?
    ensures KeySet(doc).Some? ==>
              (kid in KeySet(doc).value <==> exists i :: 0 <= i < |doc| && doc[i].kty == "RSA" && doc[i].kid == kid)
    ensures KeySet(doc).Some? && kid in KeySet(doc).value ==>
              exists i :: 0 <= i < |doc| && doc[i] == Jwk("RSA", kid, Some(KeySet(doc).value[kid]))
                && forall j :: i < j < |doc| ==> !(doc[j].kty == "RSA" && doc[j].kid == kid)
  {
    if |doc| > 0 {
      var init, k := doc[..|doc| - 1], doc[|doc| - 1];
      KeySetMeaning(init, kid);
      assert doc == init + [k];
      if KeySet(doc).Some? && kid in KeySet(doc).value {
        if k.kty == "RSA" && k.kid == kid {
          assert doc[|doc| - 1] == Jwk("RSA", kid, Some(KeySet(doc).value[kid]));
        } else {
          var i :| 0 <= i < |init| && init[i] == Jwk("RSA", kid, Some(KeySet(init).value[kid]))
                   && forall j :: i < j < |init| ==> !(init[j].kty == "RSA" && init[j].kid == kid);
          assert doc[i] == init[i];
          assert forall j :: i < j < |init| ==> doc[j] == init[j];
        }
      }
    }
  }

  // ----- the two machines -----

  function Usable(f: Fetch): Option<Keys> {
    if f.Document? then KeySet(f.keys) else None
  }

  /** The cached keys are to be fetched anew: nothing fetched yet, or past the TTL. */
  predicate Expired(ttl: int, c: Cache, now: int) {
    c.fetchAt.None? || now > c.fetchAt.value + ttl
  }

  predicate Refreshes(ttl: int, c: Cache, q: Call) {
    q.kid !in c.keys || Expired(ttl, c, q.now)
  }

  /** token-validator: after a failed refresh a stale key is still served. */
  function PluginStep(ttl: int, c: Cache, q: Call): (Cache, Answer) {
    if q.kid in c.keys && !Expired(ttl, c, q.now) then (c, Key(c.keys[q.kid]))
    else match Usable(q.fetch)
      case None =>
        (c, if q.kid in c.keys then Key(c.keys[q.kid])
            else if |c.keys| == 0 then Unavailable
            else RefreshFailed)
      case Some(keys) =>
        (Cache(keys, Some(q.stored)), if q.kid in keys then Key(keys[q.kid]) else UnknownKid)
  }

  /** internal/auth: a failed refresh fails the call. */
  function AuthStep(ttl: int, c: Cache, q: Call): (Cache, Answer) {
    if q.kid in c.keys && !Expired(ttl, c, q.now) then (c, Key(c.keys[q.kid]))
    else if Usable(q.fetch).None? then (c, RefreshFailed)
    else
      var c' := Cache(Usable(q.fetch).value, Some(q.stored));
      (c', if q.kid in c'.keys then Key(c'.keys[q.kid]) else UnknownKid)
  }

  /** What counts as a successful refresh: a document that decodes and has no broken RSA key. */
  lemma UsableIff(f: Fetch, keys: Keys)
    ensures Usable(f) == Some(keys) <==> exists doc :: f == Document(doc) && KeySet(doc) == Some(keys)
  {
    if f.Document? {
      assert f == Document(f.keys);
    }
  }

  /** A call refreshes unless its kid is cached and the cache was fetched no longer than the TTL ago. */
  lemma RefreshesIff(ttl: int, c: Cache, q: Call)
    ensures Refreshes(ttl, c, q) <==>
            !(q.kid in c.keys && c.fetchAt.Some? && q.now <= c.fetchAt.value + ttl)
  {}

  /** What a call to token-validator's validator does, case by case. */
  lemma PluginCases(ttl: int, c: Cache, q: Call)
    ensures var (c', a) := PluginStep(ttl, c, q);
      var live := q.kid in c.keys && c.fetchAt.Some? && q.now <= c.fetchAt.value + ttl;
      && (live ==> c' == c && a == Key(c.keys[q.kid]))
      && (forall keys :: !live && Usable(q.fetch) == Some(keys) ==>
            && c' == Cache(keys, Some(q.stored))
            && a == if q.kid in keys then Key(keys[q.kid]) else UnknownKid)
      && (!live && Usable(q.fetch).None? ==>
            && c' == c
            && a == if q.kid in c.keys then Key(c.keys[q.kid])
                    else if c.keys == map[] then Unavailable else RefreshFailed)
  {
    assert |c.keys| == 0 <==> c.keys == map[];
  }

  /** The same for the older validator, which has no use for stale keys. */
  lemma AuthCases(ttl: int, c: Cache, q: Call)
    ensures var (c', a) := AuthStep(ttl, c, q);
      var live := q.kid in c.keys && c.fetchAt.Some? && q.now <= c.fetchAt.value + ttl;
      && (live ==> c' == c && a == Key(c.keys[q.kid]))
      && (forall keys :: !live && Usable(q.fetch) == Some(keys) ==>
            && c' == Cache(keys, Some(q.stored))
            && a == if q.kid in keys then Key(keys[q.kid]) else UnknownKid)
      && (!live && Usable(q.fetch).None? ==> c' == c && a == RefreshFailed)
  {}

  /** The validator object of token-validator. */
  class Validator {
    const ttl: int
    var keys: Keys
    var fetchAt: Option<int>
    var fetchCount: nat

    constructor (ttl: int)
      ensures this.ttl == ttl && State() == EMPTY && fetchCount == 0
    {
      this.ttl := ttl;
      keys, fetchAt, fetchCount := map[], None, 0;
    }

    function State(): Cache
      reads this
    {
      Cache(keys, fetchAt)
    }

    method Refresh(f: Fetch, stored: int) returns (ok: bool)
      modifies this
      ensures fetchCount == old(fetchCount) + 1
      ensures ok == Usable(f).Some?
      ensures State() == if ok then Cache(Usable(f).value, Some(stored)) else old(State())
    {
      fetchCount := fetchCount + 1;
      if !f.Document? {
        return false;
      }
      var built := BuildKeys(f.keys);
      if built.None? {
        return false;
      }
      keys, fetchAt := built.value, Some(stored);
      return true;
    }

    method GetKey(q: Call) returns (a: Answer)
      modifies this
      ensures (State(), a) == PluginStep(ttl, old(State()), q)
      ensures fetchCount == old(fetchCount) +
              if q.kid in old(keys) && old(fetchAt).Some? && q.now <= old(fetchAt).value + ttl then 0 else 1
    {
      var expired := fetchAt.None? || q.now > fetchAt.value + ttl;
      if q.kid in keys && !expired {
        return Key(keys[q.kid]);
      }
      var ok := Refresh(q.fetch, q.stored);
      if !ok {
        if q.kid in keys {
          return Key(keys[q.kid]);
        }
        if |keys| == 0 {
          return Unavailable;
        }
        return RefreshFailed;
      }
      if q.kid !in keys {
        return UnknownKid;
      }
      return Key(keys[q.kid]);
    }
  }

  /** The validator object of internal/auth. */
  class AuthValidator {
    const ttl: int
    var keys: Keys
    var fetchAt: Option<int>

    constructor (ttl: int)
      ensures this.ttl == ttl && State() == EMPTY
    {
      this.ttl := ttl;
      keys, fetchAt := map[], None;
    }

    function State(): Cache
      reads this
    {
      Cache(keys, fetchAt)
    }

    method GetKey(q: Call) returns (a: Answer)
      modifies this
      ensures (State(), a) == AuthStep(ttl, old(State()), q)
    {
      var expired := fetchAt.None? || q.now > fetchAt.value + ttl;
      if q.kid in keys && !expired {
        return Key(keys[q.kid]);
      }
      if !q.fetch.Document? {
        return RefreshFailed;
      }
      var built := BuildKeys(q.fetch.keys);
      if built.None? {
        return RefreshFailed;
      }
      keys, fetchAt := built.value, Some(q.stored);
      if q.kid !in keys {
        return UnknownKid;
      }
      return Key(keys[q.kid]);
    }
  }
}
