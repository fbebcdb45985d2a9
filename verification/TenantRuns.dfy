/**
 * Sequential runs of tenant-injector's `resolveTenant`: which principals the cache holds, in
 * what order, and exactly when a request reaches the directory.
 */
module TenantRuns {
  import opened Common
  import opened Lru
  import opened Directory
  import opened RecencyOrder

  /**
   * One request: the cache is read at `now`, and if that misses, the directory answers `outcome`
   * and the answer is stored at `stored`.
   */
  datatype Request = Request(key: string, now: int, outcome: Outcome, stored: int)

  /** The cache after one request, its answer, and whether it asked the directory. */
  function Resolve(cfg: Config, c: Recency<Payload>, r: Request): (Recency<Payload>, Outcome, bool) {
    var (c1, hit) := Get(c, r.key, r.now);
    match hit
    case Some(p) => (c1, p.Answer(), false)
    case None => (Remember(cfg, c1, r.key, r.outcome, r.stored), r.outcome, true)
  }

  function After(cfg: Config, run: seq<Request>): Recency<Payload> {
    if |run| == 0 then []
    else Resolve(cfg, After(cfg, run[..|run| - 1]), run[|run| - 1]).0
  }

  predicate LooksUp(cfg: Config, c: Recency<Payload>, r: Request) {
    Resolve(cfg, c, r).2
  }

  /** The list after a request, split by what the request did. */
  lemma ResolveCases(cfg: Config, c: Recency<Payload>, r: Request)
    ensures var (c1, hit) := Get(c, r.key, r.now);
      && LooksUp(cfg, c, r) == hit.None?
      && (hit.Some? ==> Resolve(cfg, c, r) == (c1, hit.value.Answer(), false))
      && (hit.None? ==> Resolve(cfg, c, r).1 == r.outcome)
      && (hit.None? && r.outcome.Definitive() ==>
            Resolve(cfg, c, r).0 == Set(c1, r.key, Pack(r.outcome), r.stored + cfg.TTL(r.outcome), cfg.maxSize))
      && (hit.None? && !r.outcome.Definitive() ==> Resolve(cfg, c, r).0 == c1)
  {}

  lemma ResolveWellFormed(cfg: Config, c: Recency<Payload>, r: Request)
    requires cfg.Valid() && WellFormed(c, cfg.maxSize)
    ensures WellFormed(Resolve(cfg, c, r).0, cfg.maxSize)
  {
    hide Resolve, Get, Set, WellFormed;
    ResolveCases(cfg, c, r);
    GetWellFormed(c, cfg.maxSize, r.key, r.now);
    var (c1, hit) := Get(c, r.key, r.now);
    if hit.None? && r.outcome.Definitive() {
      SetWellFormed(c1, cfg.maxSize, r.key, Pack(r.outcome), r.stored + cfg.TTL(r.outcome));
    }
  }

  lemma {:induction false} AfterWellFormed(cfg: Config, run: seq<Request>)
    requires cfg.Valid()
    ensures WellFormed(After(cfg, run), cfg.maxSize)
  {
    if |run| > 0 {
      AfterWellFormed(cfg, run[..|run| - 1]);
      ResolveWellFormed(cfg, After(cfg, run[..|run| - 1]), run[|run| - 1]);
    }
  }

  /** Another key's entry survives a request unless the list is full and lacks the requested key. */
  lemma ResolveOtherKey(cfg: Config, c: Recency<Payload>, r: Request, k: string)
    requires cfg.Valid() && WellFormed(c, cfg.maxSize) && k != r.key
    ensures var c' := Resolve(cfg, c, r).0;
      EntryOf(c', k) == EntryOf(c, k)
      || (EntryOf(c', k).None? && EntryOf(c, r.key).None? && |c| == cfg.maxSize)
  {
    ResolveCases(cfg, c, r);
    GetOtherKey(c, cfg.maxSize, r.key, r.now, k);
    var (c1, hit) := Get(c, r.key, r.now);
    hide *;
    if hit.None? && r.outcome.Definitive() {
      SetOtherKey(c, c1, cfg.maxSize, r.key, Pack(r.outcome), r.stored + cfg.TTL(r.outcome), k);
    }
  }

  /** The requested key's own entry after a request. */
  lemma ResolveOwnKey(cfg: Config, c: Recency<Payload>, r: Request)
    requires cfg.Valid() && WellFormed(c, cfg.maxSize)
    ensures var entry := EntryOf(c, r.key);
      && (LooksUp(cfg, c, r) <==> entry.None? || r.now > entry.value.expiresAt)
      && (!LooksUp(cfg, c, r) ==> Resolve(cfg, c, r).1 == entry.value.value.Answer())
      && (LooksUp(cfg, c, r) ==> Resolve(cfg, c, r).1 == r.outcome)
      && EntryOf(Resolve(cfg, c, r).0, r.key) ==
         if !LooksUp(cfg, c, r) then entry
         else if r.outcome.Definitive() then Some(Entry(r.key, Pack(r.outcome), r.stored + cfg.TTL(r.outcome)))
         else None
  {
    hide Resolve, LooksUp, Get, Set, EntryOf, WellFormed;
    var (c1, hit) := Get(c, r.key, r.now);
    ResolveCases(cfg, c, r);
    GetWellFormed(c, cfg.maxSize, r.key, r.now);
    GetEntryOf(c, cfg.maxSize, r.key, r.now, r.key);
    if hit.None? && r.outcome.Definitive() {
      SetEntryOf(c1, cfg.maxSize, r.key, Pack(r.outcome), r.stored + cfg.TTL(r.outcome), r.key);
    }
  }

  // ----- the order of the list -----

  /** The principals that a run asks for, in order. */
  function Asked(run: seq<Request>): (r: seq<string>)
    ensures |r| == |run| && forall i :: 0 <= i < |r| ==> r[i] == run[i].key
  {
    seq(|run|, i requires 0 <= i < |run| => run[i].key)
  }

  lemma AskedAfter(run: seq<Request>)
    requires |run| > 0
    ensures Asked(run)[..|run| - 1] == Asked(run[..|run| - 1])
    ensures Asked(run) == Asked(run[..|run| - 1]) + [run[|run| - 1].key]
  {}

  lemma WithoutTwice(ks: seq<string>, k: string)
    requires Injective(ks)
    ensures Without(Without(ks, k), k) == Without(ks, k)
  {
    WithoutEffect(ks, k);
    assert IndexOf(Without(ks, k), k) == |Without(ks, k)|;
  }

  /**
   * The key list after any request: its principal comes to the front and the end may be cut off,
   * whether it hits, misses or finds a stale entry; one whose lookup fails only loses its own key.
   */
  lemma KeysAfterResolve(cfg: Config, c: Recency<Payload>, r: Request)
    requires cfg.Valid() && WellFormed(c, cfg.maxSize)
    ensures Keys(Resolve(cfg, c, r).0) ==
            if LooksUp(cfg, c, r) && !r.outcome.Definitive() then Without(Keys(c), r.key)
            else Take([r.key] + Without(Keys(c), r.key), cfg.maxSize)
  {
    hide Get, Set, WellFormed, Without, Take;
    var (c1, hit) := Get(c, r.key, r.now);
    ResolveCases(cfg, c, r);
    KeysAfterGet(c, cfg.maxSize, r.key, r.now);
    KeysDistinct(c, cfg.maxSize);
    WithoutTwice(Keys(c), r.key);
    GetWellFormed(c, cfg.maxSize, r.key, r.now);
    if hit.None? && r.outcome.Definitive() {
      KeysAfterSet(c1, cfg.maxSize, r.key, Pack(r.outcome), r.stored + cfg.TTL(r.outcome));
    }
  }

  /**
   * LRU refinement: when every lookup is definitive, the list is exactly the `maxSize` most
   * recently requested principals, latest first, whatever the clock, the TTLs and the expiries.
   */
  lemma {:induction false} RecencyRefinement(cfg: Config, run: seq<Request>)
    requires cfg.Valid() && forall r :: r in run ==> r.outcome.Definitive()
    ensures Keys(After(cfg, run)) == Take(MostRecent(Asked(run)), cfg.maxSize)
  {
    if |run| > 0 {
      var init, r := run[..|run| - 1], run[|run| - 1];
      RecencyRefinement(cfg, init);
      AfterWellFormed(cfg, init);
      KeysAfterResolve(cfg, After(cfg, init), r);
      AskedAfter(run);
      MostRecentIsOrdered(Asked(init));
      TakeWithout(MostRecent(Asked(init)), r.key, cfg.maxSize);
    }
  }

  /**
   * The order needs no answers at all: after every run, failing lookups, expiries and evictions
   * included, the list is in the order of the last requests, the latest first.
   */
  lemma {:induction false} AlwaysLatestFirst(cfg: Config, run: seq<Request>)
    requires cfg.Valid()
    ensures LatestFirst(Asked(run), Keys(After(cfg, run)))
  {
    if |run| > 0 {
      var init, r := run[..|run| - 1], run[|run| - 1];
      hide LatestFirst, Without, Take, Resolve, WellFormed;
      AlwaysLatestFirst(cfg, init);
      var ks := Keys(After(cfg, init));
      AfterWellFormed(cfg, init);
      KeysDistinct(After(cfg, init), cfg.maxSize);
      KeysAfterResolve(cfg, After(cfg, init), r);
      AskedAfter(run);
      UseKeepsOrder(Asked(init), ks, r.key, cfg.maxSize);
      WithoutEffect(ks, r.key);
      WithoutLatestFirst(Asked(init), ks, r.key);
      OtherKeysLatestFirst(Asked(init), Without(ks, r.key), r.key);
    }
  }

  /**
   * Inclusion: on the same sequence of principals a smaller cache always holds a prefix of what
   * a larger one holds, even under different TTLs, times and answers.
   */
  lemma SmallerCacheIsPrefix(small: Config, run: seq<Request>, large: Config, run': seq<Request>)
    requires small.Valid() && large.Valid() && small.maxSize <= large.maxSize
    requires |run| == |run'| && forall i :: 0 <= i < |run| ==> run[i].key == run'[i].key
    requires forall r :: r in run + run' ==> r.outcome.Definitive()
    ensures Keys(After(small, run)) <= Keys(After(large, run'))
  {
    assert forall r :: r in run || r in run' ==> r in run + run';
    RecencyRefinement(small, run);
    RecencyRefinement(large, run');
    assert Asked(run) == Asked(run');
  }

  // ----- when the directory is asked -----

  /** Time does not run backwards within a request or between requests. */
  ghost predicate Ordered(run: seq<Request>) {
    && (forall r :: r in run ==> r.now <= r.stored)
    && (forall i, j :: 0 <= i < j < |run| ==> run[i].stored <= run[j].now)
  }

  /** How long the answer of the last definitive lookup for `k` stays fresh, if there was one. */
  function FreshUntil(cfg: Config, run: seq<Request>, k: string): Option<int> {
    if |run| == 0 then None
    else
      var init, r := run[..|run| - 1], run[|run| - 1];
      if r.key == k && r.outcome.Definitive() && LooksUp(cfg, After(cfg, init), r)
      then Some(r.stored + cfg.TTL(r.outcome))
      else FreshUntil(cfg, init, k)
  }

  /** The principals that a run touches. */
  function Principals(run: seq<Request>): set<string> {
    set r | r in run :: r.key
  }

  lemma {:induction false} CachedWereRequested(cfg: Config, run: seq<Request>, k: string)
    requires cfg.Valid() && k !in Principals(run)
    ensures EntryOf(After(cfg, run), k).None?
  {
    if |run| > 0 {
      var init, r := run[..|run| - 1], run[|run| - 1];
      assert r in run;
      CachedWereRequested(cfg, init, k);
      AfterWellFormed(cfg, init);
      ResolveOtherKey(cfg, After(cfg, init), r, k);
    }
  }

  lemma HeldWereRequested(cfg: Config, run: seq<Request>, k: string)
    requires cfg.Valid() && k in Keys(After(cfg, run))
    ensures k in Principals(run)
  {
    var c := After(cfg, run);
    var i :| 0 <= i < |c| && Keys(c)[i] == k;
    assert c[i] in c && c[i].key == k;
    EntryOfMeaning(c, k);
    if k !in Principals(run) {
      CachedWereRequested(cfg, run, k);
    }
  }

  /** As many principals as entries fit: a list that is full already holds every key to come. */
  lemma FullListHoldsAll(cfg: Config, run: seq<Request>, r: Request)
    requires cfg.Valid() && |Principals(run + [r])| <= cfg.maxSize
    requires |After(cfg, run)| == cfg.maxSize
    ensures EntryOf(After(cfg, run), r.key).Some?
  {
    var c := After(cfg, run);
    AfterWellFormed(cfg, run);
    if EntryOf(c, r.key).None? {
      var ks := Keys(c);
      var held := set k | k in ks;
      InjectiveCardinality(ks);
      forall k | k in held + {r.key}
        ensures k in Principals(run + [r])
      {
        if k == r.key {
          assert r in run + [r];
        } else {
          HeldWereRequested(cfg, run, k);
          var q :| q in run && q.key == k;
          assert q in run + [r];
        }
      }
      EntryOfMeaning(c, r.key);
      SubsetCardinality(held + {r.key}, Principals(run + [r]));
    }
  }

  /** With room for every principal of the run, no request disturbs another principal's entry. */
  lemma NothingIsEvicted(cfg: Config, run: seq<Request>, r: Request, k: string)
    requires cfg.Valid() && |Principals(run + [r])| <= cfg.maxSize && k != r.key
    ensures EntryOf(After(cfg, run + [r]), k) == EntryOf(After(cfg, run), k)
  {
    assert (run + [r])[..|run|] == run;
    AfterWellFormed(cfg, run);
    ResolveOtherKey(cfg, After(cfg, run), r, k);
    if |After(cfg, run)| == cfg.maxSize {
      FullListHoldsAll(cfg, run, r);
    }
  }

  /**
   * What the cache holds for `k` after the run: the answer of the last definitive lookup for `k`,
   * or nothing once the clock has passed that answer's expiry.
   */
  ghost predicate Exact(cfg: Config, run: seq<Request>, k: string) {
    var entry := EntryOf(After(cfg, run), k);
    match FreshUntil(cfg, run, k)
    case None => entry.None?
    case Some(until) => |run| > 0 && if entry.Some? then entry.value.expiresAt == until else run[|run| - 1].now > until
  }

  lemma AfterStep(cfg: Config, run: seq<Request>, r: Request, k: string)
    ensures After(cfg, run + [r]) == Resolve(cfg, After(cfg, run), r).0
    ensures FreshUntil(cfg, run + [r], k) ==
            if r.key == k && r.outcome.Definitive() && LooksUp(cfg, After(cfg, run), r)
            then Some(r.stored + cfg.TTL(r.outcome))
            else FreshUntil(cfg, run, k)
  {
    assert (run + [r])[..|run|] == run;
  }

  lemma OrderedPrefix(run: seq<Request>, r: Request)
    requires Ordered(run + [r])
    ensures Ordered(run)
    ensures r.now <= r.stored
    ensures |run| > 0 ==> run[|run| - 1].now <= run[|run| - 1].stored <= r.now
    ensures Principals(run) <= Principals(run + [r])
  {
    var all := run + [r];
    assert all[|run|] == r && r in all;
    assert forall q :: q in run ==> q in all;
    assert forall i :: 0 <= i < |run| ==> all[i] == run[i];
    assert |run| > 0 ==> run[|run| - 1] in all;
  }

  lemma ExactStep(cfg: Config, run: seq<Request>, r: Request, k: string)
    requires cfg.Valid() && Ordered(run + [r]) && |Principals(run + [r])| <= cfg.maxSize
    requires Exact(cfg, run, k)
    ensures Exact(cfg, run + [r], k)
  {
    hide After, FreshUntil, Resolve, LooksUp, EntryOf, WellFormed, Ordered, Principals;
    AfterStep(cfg, run, r, k);
    OrderedPrefix(run, r);
    AfterWellFormed(cfg, run);
    if k == r.key {
      ResolveOwnKey(cfg, After(cfg, run), r);
    } else {
      NothingIsEvicted(cfg, run, r, k);
    }
  }

  lemma {:induction false} CacheIsExact(cfg: Config, run: seq<Request>, k: string)
    requires cfg.Valid() && Ordered(run) && |Principals(run)| <= cfg.maxSize
    ensures Exact(cfg, run, k)
  {
    if |run| == 0 {
      assert Exact(cfg, run, k);
    } else {
      var init, r := run[..|run| - 1], run[|run| - 1];
      assert run == init + [r];
      hide *;
      OrderedPrefix(init, r);
      SubsetCardinality(Principals(init), Principals(run));
      CacheIsExact(cfg, init, k);
      ExactStep(cfg, init, r, k);
    }
    hide *;
  }

  /**
   * Exactly when the directory is asked: with room for every principal of the run, a request
   * reaches it iff the principal has no definitive answer yet or the last one has gone stale.
   */
  lemma LookupIffStale(cfg: Config, run: seq<Request>, r: Request)
    requires cfg.Valid() && Ordered(run + [r]) && |Principals(run + [r])| <= cfg.maxSize
    ensures LooksUp(cfg, After(cfg, run), r) <==>
            FreshUntil(cfg, run, r.key).None? || r.now > FreshUntil(cfg, run, r.key).value
  {
    OrderedPrefix(run, r);
    SubsetCardinality(Principals(run), Principals(run + [r]));
    CacheIsExact(cfg, run, r.key);
    AfterWellFormed(cfg, run);
    ResolveOwnKey(cfg, After(cfg, run), r);
  }

  /** Request `i` of the run asks the directory and stores a definitive answer. */
  predicate Stores(cfg: Config, run: seq<Request>, i: nat)
    requires i < |run|
  {
    run[i].outcome.Definitive() && LooksUp(cfg, After(cfg, run[..i]), run[i])
  }

  lemma OrderedSlice(run: seq<Request>, j: nat)
    requires Ordered(run) && j < |run|
    ensures run[..j] + [run[j]] == run[..j + 1] && Ordered(run[..j + 1])
    ensures run[j].now <= run[j].stored
    ensures Principals(run[..j + 1]) <= Principals(run)
  {
    assert forall q :: q in run[..j + 1] ==> q in run;
    assert run[j] in run;
  }

  lemma {:induction false} FreshUntilSkips(cfg: Config, run: seq<Request>, i: nat, j: nat)
    requires i < j <= |run| && Stores(cfg, run, i)
    requires forall m :: i < m < j && run[m].key == run[i].key ==> !Stores(cfg, run, m)
    ensures FreshUntil(cfg, run[..j], run[i].key) == Some(run[i].stored + cfg.TTL(run[i].outcome))
    decreases j
  {
    hide FreshUntil, After, LooksUp;
    var init, r := run[..j - 1], run[j - 1];
    assert run[..j] == init + [r];
    AfterStep(cfg, init, r, run[i].key);
    if j > i + 1 {
      FreshUntilSkips(cfg, run, i, j - 1);
      assert r.key == run[i].key ==> !Stores(cfg, run, j - 1);
    }
  }

  /**
   * Two successive definitive lookups for one principal, `i` and then `j`, are stored more than
   * the first answer's TTL apart.
   */
  lemma DefinitiveLookupsAreSpaced(cfg: Config, run: seq<Request>, i: nat, j: nat)
    requires cfg.Valid() && Ordered(run) && |Principals(run)| <= cfg.maxSize
    requires i < j < |run| && run[i].key == run[j].key && Stores(cfg, run, i) && Stores(cfg, run, j)
    requires forall m :: i < m < j && run[m].key == run[i].key ==> !Stores(cfg, run, m)
    ensures run[j].stored > run[i].stored + cfg.TTL(run[i].outcome)
  {
    hide After, Resolve, LooksUp, FreshUntil;
    OrderedSlice(run, j);
    SubsetCardinality(Principals(run[..j + 1]), Principals(run));
    FreshUntilSkips(cfg, run, i, j);
    LookupIffStale(cfg, run[..j], run[j]);
    hide *;
  }
}
