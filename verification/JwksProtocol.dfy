/**
 * `getKey` of token-validator under concurrency. Any number of calls interleave at the lock
 * boundaries: the first locked read, the fetch, the locked store, and the last locked read.
 */
module JwksProtocol {
  import opened Common
  import opened Jwks

  /** Where a call stands; `Fetched` is between the fetch and the store of what it brought. */
  datatype Phase = Fetching | Fetched(keys: Keys) | Failed | Stored | Done(answer: Answer)

  /** `doc` is the index of the document that the call has fetched. */
  datatype Request = Request(kid: string, phase: Phase, doc: Option<nat>)

  /** `docs` lists the usable documents in the order in which they were fetched; `writer` stored last. */
  datatype State = State(cache: Cache, docs: seq<seq<Jwk>>, writer: Option<nat>, requests: map<nat, Request>)

  datatype Event =
    | Begin(id: nat, kid: string, now: int)
    | Fetch(id: nat, fetch: Jwks.Fetch)
    | Store(id: nat, now: int)
    | Finish(id: nat)

  const INIT := State(EMPTY, [], None, map[])

  predicate Enabled(s: State, e: Event) {
    match e
    case Begin(id, _, _) => id !in s.requests
    case Fetch(id, _) => id in s.requests && s.requests[id].phase.Fetching?
    case Store(id, _) => id in s.requests && s.requests[id].phase.Fetched?
    case Finish(id) => id in s.requests && (s.requests[id].phase.Failed? || s.requests[id].phase.Stored?)
  }

  /** The last locked read: after a failed refresh a stale key will do. */
  function Verdict(keys: Keys, kid: string, failed: bool): Answer {
    if kid in keys then Key(keys[kid])
    else if !failed then UnknownKid
    else if |keys| == 0 then Unavailable
    else RefreshFailed
  }

  function Apply(ttl: int, s: State, e: Event): State
    requires Enabled(s, e)
  {
    match e
    case Begin(id, kid, now) =>
      var phase :=
        if kid in s.cache.keys && !Expired(ttl, s.cache, now) then Done(Key(s.cache.keys[kid])) else Fetching;
      s.(requests := s.requests[id := Request(kid, phase, None)])
    case Fetch(id, f) =>
      var r := s.requests[id];
      if Usable(f).None? then s.(requests := s.requests[id := r.(phase := Failed)])
      else s.(docs := s.docs + [f.keys],
               requests := s.requests[id := r.(phase := Fetched(Usable(f).value), doc := Some(|s.docs|))])
    case Store(id, now) =>
      var r := s.requests[id];
      s.(cache := Cache(r.phase.keys, Some(now)), writer := Some(id), requests := s.requests[id := r.(phase := Stored)])
    case Finish(id) =>
      var r := s.requests[id];
      s.(requests := s.requests[id := r.(phase := Done(Verdict(s.cache.keys, r.kid, r.phase.Failed?)))])
  }

  function Run(ttl: int, start: State, es: seq<Event>): Option<State> {
    if |es| == 0 then Some(start)
    else match Run(ttl, start, es[..|es| - 1])
      case None => None
      case Some(s) => if Enabled(s, es[|es| - 1]) then Some(Apply(ttl, s, es[|es| - 1])) else None
  }

  lemma RunAppend(ttl: int, start: State, es: seq<Event>, e: Event)
    requires Run(ttl, start, es).Some? && Enabled(Run(ttl, start, es).value, e)
    ensures Run(ttl, start, es + [e]) == Some(Apply(ttl, Run(ttl, start, es).value, e))
  {
    assert (es + [e])[..|es|] == es;
  }

  // ----- a call that nothing interrupts is a step of the sequential machine -----

  function EventsOf(ttl: int, c: Cache, id: nat, q: Call): seq<Event> {
    if !Refreshes(ttl, c, q) then [Begin(id, q.kid, q.now)]
    else if Usable(q.fetch).None? then [Begin(id, q.kid, q.now), Fetch(id, q.fetch), Finish(id)]
    else [Begin(id, q.kid, q.now), Fetch(id, q.fetch), Store(id, q.stored), Finish(id)]
  }

  lemma Uninterrupted(ttl: int, s: State, id: nat, q: Call)
    requires id !in s.requests
    ensures var end := Run(ttl, s, EventsOf(ttl, s.cache, id, q));
      && end.Some?
      && end.value.cache == PluginStep(ttl, s.cache, q).0
      && end.value.requests[id].phase == Done(PluginStep(ttl, s.cache, q).1)
  {
    var begin := Begin(id, q.kid, q.now);
    RunAppend(ttl, s, [], begin);
    assert [] + [begin] == [begin];
    if Refreshes(ttl, s.cache, q) {
      var fetch := Fetch(id, q.fetch);
      RunAppend(ttl, s, [begin], fetch);
      assert [begin] + [fetch] == [begin, fetch];
      if Usable(q.fetch).None? {
        RunAppend(ttl, s, [begin, fetch], Finish(id));
        assert [begin, fetch] + [Finish(id)] == EventsOf(ttl, s.cache, id, q);
      } else {
        var store := Store(id, q.stored);
        RunAppend(ttl, s, [begin, fetch], store);
        assert [begin, fetch] + [store] == [begin, fetch, store];
        RunAppend(ttl, s, [begin, fetch, store], Finish(id));
        assert [begin, fetch, store] + [Finish(id)] == EventsOf(ttl, s.cache, id, q);
      }
    }
  }

  // ----- what every run keeps -----

  /** A usable document publishes `key` under `kid`. */
  ghost predicate Publishes(doc: seq<Jwk>, kid: string, key: PublicKey) {
    exists i :: 0 <= i < |doc| && doc[i] == Jwk("RSA", kid, Some(key))
  }

  ghost predicate Published(docs: seq<seq<Jwk>>, kid: string, key: PublicKey) {
    exists d :: 0 <= d < |docs| && Publishes(docs[d], kid, key)
  }

  /** `keys` are what the document at `doc` publishes. */
  ghost predicate Holds(docs: seq<seq<Jwk>>, doc: Option<nat>, keys: Keys) {
    doc.Some? && doc.value < |docs| && KeySet(docs[doc.value]) == Some(keys)
  }

  ghost predicate Sound(docs: seq<seq<Jwk>>, r: Request) {
    && (r.phase.Fetched? ==> Holds(docs, r.doc, r.phase.keys))
    && (r.phase.Fetching? || r.phase.Failed? ==> r.doc.None?)
    && (r.phase.Done? && r.phase.answer.Key? ==> Published(docs, r.kid, r.phase.answer.key))
  }

  ghost predicate Distinct(s: State) {
    forall a, b :: a in s.requests && b in s.requests && a != b && s.requests[a].doc.Some? ==>
      s.requests[a].doc != s.requests[b].doc
  }

  ghost predicate InRange(s: State) {
    forall a :: a in s.requests && s.requests[a].doc.Some? ==> s.requests[a].doc.value < |s.docs|
  }

  ghost predicate CacheSound(s: State) {
    match s.writer
    case None => s.cache == EMPTY
    case Some(id) => s.cache.fetchAt.Some? && id in s.requests && Holds(s.docs, s.requests[id].doc, s.cache.keys)
  }

  ghost predicate Inv(s: State) {
    && (forall id :: id in s.requests ==> Sound(s.docs, s.requests[id]))
    && CacheSound(s) && Distinct(s) && InRange(s)
  }

  lemma HeldIsPublished(docs: seq<seq<Jwk>>, doc: Option<nat>, keys: Keys, kid: string)
    requires Holds(docs, doc, keys) && kid in keys
    ensures Published(docs, kid, keys[kid])
  {
    KeySetMeaning(docs[doc.value], kid);
    assert Publishes(docs[doc.value], kid, keys[kid]);
  }

  lemma MoreDocuments(docs: seq<seq<Jwk>>, more: seq<Jwk>, r: Request)
    requires Sound(docs, r)
    ensures Sound(docs + [more], r)
  {
    var all := docs + [more];
    assert forall d :: 0 <= d < |docs| ==> all[d] == docs[d];
  }

  lemma StepKeeps(ttl: int, s: State, e: Event)
    requires Inv(s) && Enabled(s, e)
    ensures Inv(Apply(ttl, s, e))
  {
    var s' := Apply(ttl, s, e);
    match e
    case Begin(id, kid, now) =>
      if kid in s.cache.keys && s.writer.Some? {
        HeldIsPublished(s.docs, s.requests[s.writer.value].doc, s.cache.keys, kid);
      }
      assert Sound(s'.docs, s'.requests[id]);
    case Fetch(id, f) =>
      if Usable(f).Some? {
        forall a | a in s.requests
          ensures Sound(s'.docs, s.requests[a])
        {
          MoreDocuments(s.docs, f.keys, s.requests[a]);
        }
      }
      assert Sound(s'.docs, s'.requests[id]);
    case Store(id, now) =>
      assert Sound(s'.docs, s'.requests[id]);
    case Finish(id) =>
      if s.requests[id].kid in s.cache.keys && s.writer.Some? {
        HeldIsPublished(s.docs, s.requests[s.writer.value].doc, s.cache.keys, s.requests[id].kid);
      }
      assert Sound(s'.docs, s'.requests[id]);
  }

  lemma {:induction false} RunKeeps(ttl: int, es: seq<Event>)
    requires Run(ttl, INIT, es).Some?
    ensures Inv(Run(ttl, INIT, es).value)
  {
    if |es| > 0 {
      RunKeeps(ttl, es[..|es| - 1]);
      StepKeeps(ttl, Run(ttl, INIT, es[..|es| - 1]).value, es[|es| - 1]);
    }
  }

  /**
   * In every interleaving the cache holds exactly one fetched document, and a key that a call
   * returned is published under the requested kid in a document fetched by then.
   */
  lemma AnswersArePublished(ttl: int, es: seq<Event>, id: nat)
    requires Run(ttl, INIT, es).Some? && id in Run(ttl, INIT, es).value.requests
    ensures var s := Run(ttl, INIT, es).value;
      && (s.requests[id].phase.Done? && s.requests[id].phase.answer.Key? ==>
            Published(s.docs, s.requests[id].kid, s.requests[id].phase.answer.key))
      && (s.cache == EMPTY || exists d :: 0 <= d < |s.docs| && KeySet(s.docs[d]) == Some(s.cache.keys))
  {
    RunKeeps(ttl, es);
    var s := Run(ttl, INIT, es).value;
    assert Sound(s.docs, s.requests[id]);
    if s.writer.Some? {
      assert Holds(s.docs, s.requests[s.writer.value].doc, s.cache.keys);
    }
  }

  // ----- availability -----

  predicate Drops(s: State, e: Event, kid: string) {
    e.Store? && Enabled(s, e) && kid !in s.requests[e.id].phase.keys
  }

  ghost predicate NeverDropped(ttl: int, start: State, es: seq<Event>, kid: string)
    requires Run(ttl, start, es).Some?
  {
    |es| > 0 ==>
      && NeverDropped(ttl, start, es[..|es| - 1], kid)
      && !Drops(Run(ttl, start, es[..|es| - 1]).value, es[|es| - 1], kid)
  }

  /**
   * From a state in which `kid` is cached, and however the calls interleave: until a store drops
   * it, `kid` stays cached, every call for it that finishes gets a key, and no call at all gets
   * `errJWKSUnavailable`.
   */
  lemma {:induction false} StaysAvailable(ttl: int, start: State, es: seq<Event>, kid: string, id: nat)
    requires Run(ttl, start, es).Some? && NeverDropped(ttl, start, es, kid)
    requires kid in start.cache.keys && (id in start.requests ==> !start.requests[id].phase.Done?)
    ensures var s := Run(ttl, start, es).value;
      && kid in s.cache.keys
      && (id in s.requests && s.requests[id].phase.Done? ==>
            && s.requests[id].phase.answer != Unavailable
            && (s.requests[id].kid == kid ==> s.requests[id].phase.answer.Key?))
  {
    if |es| > 0 {
      StaysAvailable(ttl, start, es[..|es| - 1], kid, id);
    }
  }

  // ----- the newest document -----

  /** The call that fetched the newest document so far. */
  function Fetcher(ttl: int, start: State, es: seq<Event>): Option<nat> {
    if |es| == 0 then None
    else
      var e := es[|es| - 1];
      if e.Fetch? && Usable(e.fetch).Some? then Some(e.id) else Fetcher(ttl, start, es[..|es| - 1])
  }

  lemma {:induction false} FetcherHoldsNewest(ttl: int, es: seq<Event>)
    requires Run(ttl, INIT, es).Some?
    ensures var s, f := Run(ttl, INIT, es).value, Fetcher(ttl, INIT, es);
      && (f.None? <==> |s.docs| == 0)
      && (f.Some? ==>
            && f.value in s.requests && !s.requests[f.value].phase.Fetching?
            && s.requests[f.value].doc == Some(|s.docs| - 1))
  {
    if |es| > 0 {
      FetcherHoldsNewest(ttl, es[..|es| - 1]);
      hide Usable, Verdict, Expired;
    }
  }

  /**
   * A fetch and its store are separate steps, so an older document can overwrite a newer one.
   * The cached document is the newest fetched iff the call that stored last also fetched last.
   */
  lemma NewestIff(ttl: int, es: seq<Event>)
    requires Run(ttl, INIT, es).Some? && Run(ttl, INIT, es).value.writer.Some?
    ensures var s := Run(ttl, INIT, es).value;
      && s.writer.value in s.requests && Holds(s.docs, s.requests[s.writer.value].doc, s.cache.keys)
      && (s.requests[s.writer.value].doc == Some(|s.docs| - 1) <==> s.writer == Fetcher(ttl, INIT, es))
  {
    RunKeeps(ttl, es);
    FetcherHoldsNewest(ttl, es);
  }

  /** The call has fetched a usable document and has not stored it yet. */
  predicate Waits(s: State, id: nat) {
    id in s.requests && s.requests[id].phase.Fetched?
  }

  /** No two refreshes overlap: at most one document waits to be stored. */
  ghost predicate Apart(s: State) {
    forall a, b :: Waits(s, a) && Waits(s, b) ==> a == b
  }

  ghost predicate AlwaysApart(ttl: int, es: seq<Event>)
    requires Run(ttl, INIT, es).Some?
  {
    Apart(Run(ttl, INIT, es).value) && (|es| > 0 ==> AlwaysApart(ttl, es[..|es| - 1]))
  }

  ghost predicate HoldsNewest(s: State) {
    s.writer.Some? && s.writer.value in s.requests && s.requests[s.writer.value].doc == Some(|s.docs| - 1)
  }

  /** Whatever waits is the newest document, and when nothing waits the cache holds it. */
  ghost predicate Current(s: State) {
    && (forall a :: Waits(s, a) ==> s.requests[a].doc == Some(|s.docs| - 1))
    && (|s.docs| > 0 && (forall a :: !Waits(s, a)) ==> HoldsNewest(s))
  }

  lemma CurrentStep(ttl: int, s: State, e: Event)
    requires Enabled(s, e) && Current(s) && Apart(s) && Apart(Apply(ttl, s, e))
    ensures Current(Apply(ttl, s, e))
  {
    hide Verdict, Expired, Usable;
    var s' := Apply(ttl, s, e);
    assert forall a :: a != e.id ==> Waits(s', a) == Waits(s, a);
    if e.Fetch? && Usable(e.fetch).Some? {
      assert Waits(s', e.id) && !Waits(s, e.id);
    } else if e.Store? {
      assert Waits(s, e.id) && !Waits(s', e.id);
    } else {
      assert !Waits(s, e.id) && !Waits(s', e.id);
    }
  }

  lemma {:induction false} ApartIsCurrent(ttl: int, es: seq<Event>)
    requires Run(ttl, INIT, es).Some? && AlwaysApart(ttl, es)
    ensures Current(Run(ttl, INIT, es).value)
  {
    if |es| > 0 {
      var init := es[..|es| - 1];
      ApartIsCurrent(ttl, init);
      CurrentStep(ttl, Run(ttl, INIT, init).value, es[|es| - 1]);
    }
  }

  /**
   * In a run whose refreshes do not overlap, the cache holds the newest document that was fetched
   * whenever nothing waits to be stored.
   */
  lemma NewestWhenApart(ttl: int, es: seq<Event>)
    requires Run(ttl, INIT, es).Some? && AlwaysApart(ttl, es)
    requires var s := Run(ttl, INIT, es).value; |s.docs| > 0 && forall a :: !Waits(s, a)
    ensures var s := Run(ttl, INIT, es).value; KeySet(s.docs[|s.docs| - 1]) == Some(s.cache.keys)
  {
    RunKeeps(ttl, es);
    ApartIsCurrent(ttl, es);
  }

  /** The store would put an older document over a newer one. */
  ghost predicate Regresses(s: State, e: Event) {
    && e.Store? && Enabled(s, e) && s.writer.Some? && s.writer.value in s.requests
    && s.requests[e.id].doc.Some? && s.requests[s.writer.value].doc.Some?
    && s.requests[e.id].doc.value < s.requests[s.writer.value].doc.value
  }

  ghost predicate Stores(es: seq<Event>) {
    forall e :: e in es ==> e.Store?
  }

  /** No order in which the waiting documents may be stored puts an older one over a newer one. */
  ghost predicate NeverRegresses(ttl: int, s: State) {
    forall more, e :: Stores(more) && Run(ttl, s, more).Some? ==> !Regresses(Run(ttl, s, more).value, e)
  }

  ghost predicate Safe(s: State) {
    Apart(s) && forall a :: Waits(s, a) ==> !Regresses(s, Store(a, 0))
  }

  lemma {:induction false} StoresKeepSafe(ttl: int, s: State, more: seq<Event>)
    requires Safe(s) && Stores(more) && Run(ttl, s, more).Some?
    ensures Safe(Run(ttl, s, more).value)
  {
    if |more| > 0 {
      var init, e := more[..|more| - 1], more[|more| - 1];
      assert e in more && forall x :: x in init ==> x in more;
      StoresKeepSafe(ttl, s, init);
      var before, after := Run(ttl, s, init).value, Run(ttl, s, more).value;
      assert Waits(before, e.id) && forall a :: Waits(after, a) ==> Waits(before, a) && a != e.id;
    }
  }

  lemma SafeHasNoRegress(s: State, e: Event)
    requires Safe(s)
    ensures !Regresses(s, e)
  {
    if e.Store? && Enabled(s, e) {
      assert Waits(s, e.id) && !Regresses(s, Store(e.id, 0));
    }
  }

  lemma OneStore(ttl: int, s: State, id: nat)
    requires Waits(s, id)
    ensures Run(ttl, s, [Store(id, 0)]) == Some(Apply(ttl, s, Store(id, 0)))
  {
    RunAppend(ttl, s, [], Store(id, 0));
    assert [] + [Store(id, 0)] == [Store(id, 0)];
  }

  lemma OlderAfterNewer(ttl: int, s: State, older: nat, newer: nat)
    requires Inv(s) && Waits(s, older) && Waits(s, newer)
    requires s.requests[older].doc.Some? && s.requests[newer].doc.Some?
    requires s.requests[older].doc.value < s.requests[newer].doc.value
    ensures Regresses(Apply(ttl, s, Store(newer, 0)), Store(older, 0))
  {
    assert Sound(s.docs, s.requests[older]) && Sound(s.docs, s.requests[newer]);
  }

  /** Two documents that wait at once: the newer one may be stored first, and then the older one over it. */
  lemma OverlapRegresses(ttl: int, s: State, older: nat, newer: nat)
    requires Inv(s) && Waits(s, older) && Waits(s, newer)
    requires s.requests[older].doc.Some? && s.requests[newer].doc.Some?
    requires s.requests[older].doc.value < s.requests[newer].doc.value
    ensures !NeverRegresses(ttl, s)
  {
    hide Regresses, Apply, Run, Inv;
    OlderAfterNewer(ttl, s, older, newer);
    OneStore(ttl, s, newer);
    assert Stores([Store(newer, 0)]);
  }

  /**
   * Exactly when nothing can go wrong: in a reachable state no order of the pending stores puts an
   * older document over a newer one iff at most one document waits and it is not older than the
   * cached one.
   */
  lemma NeverRegressesIff(ttl: int, es: seq<Event>)
    requires Run(ttl, INIT, es).Some?
    ensures var s := Run(ttl, INIT, es).value; NeverRegresses(ttl, s) <==> Safe(s)
  {
    var s := Run(ttl, INIT, es).value;
    RunKeeps(ttl, es);
    if Safe(s) {
      forall more, e | Stores(more) && Run(ttl, s, more).Some?
        ensures !Regresses(Run(ttl, s, more).value, e)
      {
        StoresKeepSafe(ttl, s, more);
        SafeHasNoRegress(Run(ttl, s, more).value, e);
      }
    } else if !Apart(s) {
      var a, b :| Waits(s, a) && Waits(s, b) && a != b;
      assert Sound(s.docs, s.requests[a]) && Sound(s.docs, s.requests[b]);
      if s.requests[a].doc.value < s.requests[b].doc.value {
        OverlapRegresses(ttl, s, a, b);
      } else {
        OverlapRegresses(ttl, s, b, a);
      }
    } else {
      var a :| Waits(s, a) && Regresses(s, Store(a, 0));
      assert Run(ttl, s, []) == Some(s) && Stores([]);
    }
  }

  /** Two calls whose refreshes overlap: the key withdrawn by the newer document is cached again. */
  lemma OlderDocumentWins(ttl: int, k: PublicKey)
    ensures var older, newer := [Jwk("RSA", "a", Some(k))], [];
      var es := [Begin(0, "a", 0), Begin(1, "a", 0),
                 Fetch(0, Document(older)), Fetch(1, Document(newer)), Store(1, 1), Store(0, 2)];
      && Run(ttl, INIT, es).Some?
      && Run(ttl, INIT, es).value.docs == [older, newer]
      && Run(ttl, INIT, es).value.cache == Cache(map["a" := k], Some(2))
  {
    var older, newer := [Jwk("RSA", "a", Some(k))], [];
    assert older[..0] == [] && KeySet(older) == Some(map["a" := k]);
    var es0 := [Begin(0, "a", 0)];
    RunAppend(ttl, INIT, [], Begin(0, "a", 0));
    assert [] + [Begin(0, "a", 0)] == es0;
    var es1 := es0 + [Begin(1, "a", 0)];
    RunAppend(ttl, INIT, es0, Begin(1, "a", 0));
    var es2 := es1 + [Fetch(0, Document(older))];
    RunAppend(ttl, INIT, es1, Fetch(0, Document(older)));
    var es3 := es2 + [Fetch(1, Document(newer))];
    RunAppend(ttl, INIT, es2, Fetch(1, Document(newer)));
    var es4 := es3 + [Store(1, 1)];
    RunAppend(ttl, INIT, es3, Store(1, 1));
    var es5 := es4 + [Store(0, 2)];
    RunAppend(ttl, INIT, es4, Store(0, 2));
    assert es5 == [Begin(0, "a", 0), Begin(1, "a", 0),
                   Fetch(0, Document(older)), Fetch(1, Document(newer)), Store(1, 1), Store(0, 2)];
  }
}
