/**
 * The license-check plugin: the bounded retry against the license server, one request over the
 * heap cache, and any number of requests interleaving at the lock and network boundaries.
 */
module LicenseCheck {
  import opened Common
  import opened Lru
  import opened LruCache

  /** One attempt to reach the server. */
  datatype Attempt = NetworkFailure | Status(code: int)
  {
    predicate Accepts() {
      Status? && 200 <= code < 300
    }
  }

  /** `next` is called, or a 403 is written, naming the license server when it could not be reached. */
  datatype Decision = Next | Forbidden(dependency: bool)

  const MAX_ATTEMPTS: nat := 2

  /**
   * The retry loop of `verify`: a network failure is retried, any HTTP answer is final.
   * `attempts(n)` is what the n-th attempt would meet.
   */
  method Verify(attempts: nat -> Attempt) returns (valid: bool, dependency: bool, used: nat)
    ensures used <= MAX_ATTEMPTS
    ensures dependency <==> forall n :: 0 <= n < MAX_ATTEMPTS ==> attempts(n).NetworkFailure?
    ensures valid ==> !dependency
    ensures !dependency ==>
              && 1 <= used && attempts(used - 1).Status? && (valid <==> 200 <= attempts(used - 1).code < 300)
              && forall n :: 0 <= n < used - 1 ==> attempts(n).NetworkFailure?
    ensures dependency ==> used == 2
  {
    used := 0;
    while used < MAX_ATTEMPTS
      invariant used <= MAX_ATTEMPTS
      invariant forall n :: 0 <= n < used ==> attempts(n).NetworkFailure?
    {
      var a := attempts(used);
      used := used + 1;
      match a
      case NetworkFailure =>
      case Status(code) =>
        if 200 <= code < 300 {
          return true, false, used;
        }
        return false, false, used;
    }
    return false, true, used;
  }

  /** What the attempts of one request amount to: a verdict, or nothing when all of them failed. */
  function Verdict(attempts: nat -> Attempt): Option<bool> {
    if attempts(0).Status? then Some(attempts(0).Accepts())
    else if attempts(1).Status? then Some(attempts(1).Accepts())
    else None
  }

  ghost predicate AnsweredWith(attempts: nat -> Attempt, code: int) {
    attempts(0) == Status(code) || (attempts(0) == NetworkFailure && attempts(1) == Status(code))
  }

  /** A status from 200 to 299 accepts and any other rejects, at the first attempt or after one failure. */
  lemma VerdictCases(attempts: nat -> Attempt)
    ensures Verdict(attempts) == Some(true) <==> exists code :: 200 <= code < 300 && AnsweredWith(attempts, code)
    ensures Verdict(attempts) == Some(false) <==> exists code :: !(200 <= code < 300) && AnsweredWith(attempts, code)
    ensures Verdict(attempts) == None <==> attempts(0) == NetworkFailure && attempts(1) == NetworkFailure
  {
    if attempts(0).Status? {
      assert AnsweredWith(attempts, attempts(0).code);
    } else if attempts(1).Status? {
      assert AnsweredWith(attempts, attempts(1).code);
    }
  }

  lemma VerdictIs(attempts: nat -> Attempt, valid: bool, dependency: bool, used: nat)
    requires used <= MAX_ATTEMPTS
    requires dependency <==> forall n :: 0 <= n < MAX_ATTEMPTS ==> attempts(n).NetworkFailure?
    requires !dependency ==>
               && 1 <= used && attempts(used - 1).Status? && valid == attempts(used - 1).Accepts()
               && forall n :: 0 <= n < used - 1 ==> attempts(n).NetworkFailure?
    ensures Verdict(attempts) == if dependency then None else Some(valid)
  {
    assert attempts(0).NetworkFailure? && attempts(1).NetworkFailure? ==> dependency;
  }

  function ToDecision(verdict: Option<bool>): Decision {
    match verdict
    case Some(valid) => if valid then Next else Forbidden(false)
    case None => Forbidden(true)
  }

  /** The cache after the server was asked: a verdict is written, a failure is not. */
  function Remember(maxSize: nat, c: Recency<bool>, token: string, verdict: Option<bool>, expiresAt: int):
    Recency<bool>
  {
    match verdict
    case Some(valid) => Set(c, token, valid, expiresAt, maxSize)
    case None => c
  }

  /** One uninterrupted request. */
  function Serve(maxSize: nat, ttl: int, c: Recency<bool>, token: string, now: int,
                 attempts: nat -> Attempt, stored: int): (Recency<bool>, Decision) {
    var (c1, hit) := Get(c, token, now);
    if hit.Some? then (c1, ToDecision(hit))
    else (Remember(maxSize, c1, token, Verdict(attempts), stored + ttl), ToDecision(Verdict(attempts)))
  }

  /**
   * One request, case by case: a verdict that is still live decides without asking; otherwise the
   * server's verdict decides and is filed for the TTL, and a failure is a 403 that leaves nothing.
   */
  lemma ServeCases(maxSize: nat, ttl: int, c: Recency<bool>, token: string, now: int,
                   attempts: nat -> Attempt, stored: int)
    requires WellFormed(c, maxSize)
    ensures var (c', d) := Serve(maxSize, ttl, c, token, now, attempts, stored);
      var entry, read := EntryOf(c, token), Get(c, token, now).0;
      if entry.Some? && now <= entry.value.expiresAt then
        c' == read && d == if entry.value.value then Next else Forbidden(false)
      else match Verdict(attempts)
        case Some(true) => c' == Set(read, token, true, stored + ttl, maxSize) && d == Next
        case Some(false) => c' == Set(read, token, false, stored + ttl, maxSize) && d == Forbidden(false)
        case None => c' == read && d == Forbidden(true)
  {
    GetEntryOf(c, maxSize, token, now, token);
    hide Get, Set, EntryOf, WellFormed, Verdict;
  }

  class License {
    const ttl: int
    var cache: Cache<bool>

    constructor (maxSize: nat, ttl: int)
      requires maxSize >= 1 && ttl > 0
      ensures cache.Valid() && cache.maxSize == maxSize && this.ttl == ttl && cache.Contents() == []
    {
      this.ttl := ttl;
      this.cache := new Cache<bool>(maxSize);
    }

    /** Caches the server's verdict; a dependency failure is not cached. */
    method RememberVerdict(token: string, verdict: Option<bool>, stored: int)
      requires cache.Valid()
      modifies cache`lruMap, cache.lruList, cache.lruList.ring
      ensures cache.Valid()
      ensures cache.Contents() == Remember(cache.maxSize, old(cache.Contents()), token, verdict, stored + ttl)
    {
      hide Set;
      match verdict
      case Some(valid) => cache.CacheSet(token, valid, stored, ttl);
      case None =>
    }

    method Handle(token: string, now: int, attempts: nat -> Attempt, stored: int) returns (d: Decision)
      requires cache.Valid()
      modifies cache`lruMap, cache.lruList, cache.lruList.ring
      ensures cache.Valid()
      ensures (cache.Contents(), d) == Serve(cache.maxSize, ttl, old(cache.Contents()), token, now, attempts, stored)
    {
      hide Get, Remember, Verdict;
      var hit := cache.CacheGet(token, now);
      if hit.Some? {
        return if hit.value then Next else Forbidden(false);
      }
      var valid, dependency, used := Verify(attempts);
      VerdictIs(attempts, valid, dependency, used);
      RememberVerdict(token, if dependency then None else Some(valid), stored);
      return if valid then Next else Forbidden(dependency);
    }
  }
}
