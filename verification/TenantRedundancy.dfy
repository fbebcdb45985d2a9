/**
 * How far singleflight keeps directory calls down. The comment at
 * internal/plugins/tenantinjector/plugin.go:359 promises one outbound call per principal; because
 * the cache read and the entry into the group are separate steps, a request that missed before
 * another one's answer was stored may still ask again. This module exhibits such a run and says
 * exactly when it happens.
 */
module TenantRedundancy {
  import opened Common
  import opened Lru
  import opened Directory
  import opened RecencyOrder
  import opened TenantProtocol

  /** Request `id` is about to start a directory call although the cache holds a live answer. */
  ghost predicate Redundant(s: State, id: nat) {
    && Enabled(s, Join(id))
    && s.requests[id].key !in s.group
    && EntryOf(s.cache, s.requests[id].key).Some?
    && s.clock <= EntryOf(s.cache, s.requests[id].key).value.expiresAt
  }

  lemma RunAppend(cfg: Config, start: int, es: seq<Event>, e: Event)
    requires Run(cfg, start, es).Some? && Enabled(Run(cfg, start, es).value, e)
    ensures Run(cfg, start, es + [e]) == Some(Apply(cfg, Run(cfg, start, es).value, e))
  {
    assert (es + [e])[..|es|] == es;
  }

  lemma StartRun(cfg: Config, start: int)
    ensures Run(cfg, start, []) == Some(Init(start))
  {}

  lemma Extend(cfg: Config, start: int, es: seq<Event>, s: State, e: Event) returns (es': seq<Event>, s': State)
    requires Run(cfg, start, es) == Some(s) && Enabled(s, e)
    ensures es' == es + [e] && s' == Apply(cfg, s, e) && Run(cfg, start, es') == Some(s')
  {
    RunAppend(cfg, start, es, e);
    es', s' := es + [e], Apply(cfg, s, e);
  }

  /** Two requests for one principal, no time passing, an answer good for hours: two directory calls. */
  lemma TwoCallsWitness(cfg: Config, start: int, k: string, t: string) returns (es: seq<Event>)
    requires cfg.Valid()
    ensures Run(cfg, start, es).Some? && Redundant(Run(cfg, start, es).value, 1)
    ensures Run(cfg, start, es + [Join(1)]).Some?
    ensures Run(cfg, start, es + [Join(1)]).value.flights == [Flight(k, Ended(Tenant(t))), Flight(k, Calling)]
  {
    hide Run;
    es := [];
    var s := Init(start);
    StartRun(cfg, start);
    es, s := Extend(cfg, start, es, s, Arrive(0, k));
    es, s := Extend(cfg, start, es, s, Arrive(1, k));
    es, s := Extend(cfg, start, es, s, Read(0));
    es, s := Extend(cfg, start, es, s, Read(1));
    es, s := Extend(cfg, start, es, s, Join(0));
    es, s := Extend(cfg, start, es, s, Reply(0, Tenant(t)));
    es, s := Extend(cfg, start, es, s, Store(0));
    es, s := Extend(cfg, start, es, s, End(0));
    RunAppend(cfg, start, es, Join(1));
  }

  // ----- exactly when -----

  function KeysOf(log: seq<Record>): (r: seq<string>)
    ensures |r| == |log| && forall i :: 0 <= i < |r| ==> r[i] == log[i].key
  {
    seq(|log|, i requires 0 <= i < |log| => log[i].key)
  }

  /** The index of the latest record for `k`, or -1. */
  function LastRecord(log: seq<Record>, k: string): (i: int)
    ensures -1 <= i < |log|
    ensures i >= 0 ==> log[i].key == k
    ensures forall j :: i < j < |log| ==> log[j].key != k
  {
    LastUse(KeysOf(log), k)
  }

  lemma LastRecordAppend(log: seq<Record>, r: Record, k: string)
    ensures LastRecord(log + [r], k) == if r.key == k then |log| else LastRecord(log, k)
  {
    assert KeysOf(log + [r]) == KeysOf(log) + [r.key];
    LastUseAfter(KeysOf(log), r.key, k);
  }

  /** If a request that missed now finds an entry for its key, the entry was stored since it read. */
  ghost predicate MissedInv(s: State) {
    forall id :: id in s.requests && s.requests[id].Missed? && EntryOf(s.cache, s.requests[id].key).Some? ==>
      LastRecord(s.log, s.requests[id].key) >= s.requests[id].since
  }

  lemma MissedRequestKeeps(cfg: Config, s: State, e: Event, id: nat)
    requires cfg.Valid() && Inv(cfg, s) && MissedInv(s) && Enabled(s, e)
    requires var s' := Apply(cfg, s, e);
      id in s'.requests && s'.requests[id].Missed? && EntryOf(s'.cache, s'.requests[id].key).Some?
    ensures var s' := Apply(cfg, s, e); LastRecord(s'.log, s'.requests[id].key) >= s'.requests[id].since
  {
    var s' := Apply(cfg, s, e);
    var k := s'.requests[id].key;
    if e == Read(id) {
      GetEntryOf(s.cache, cfg.maxSize, k, s.clock, k);
    } else {
      assert s'.requests[id] == s.requests[id];
      if EntryOf(s'.cache, k) != EntryOf(s.cache, k) {
        EntryChanges(cfg, s, e, k);
      }
      hide Inv, Get, Remember, LastRecord;
      if s'.log != s.log {
        LastRecordAppend(s.log, s'.log[|s.log|], k);
        assert s'.log == s.log + [s'.log[|s.log|]];
      }
    }
  }

  lemma MissedKeeps(cfg: Config, s: State, e: Event)
    requires cfg.Valid() && Inv(cfg, s) && MissedInv(s) && Enabled(s, e)
    ensures MissedInv(Apply(cfg, s, e))
  {
    var s' := Apply(cfg, s, e);
    forall id | id in s'.requests && s'.requests[id].Missed? && EntryOf(s'.cache, s'.requests[id].key).Some?
      ensures LastRecord(s'.log, s'.requests[id].key) >= s'.requests[id].since
    {
      MissedRequestKeeps(cfg, s, e, id);
    }
  }

  lemma {:induction false} MissedAlways(cfg: Config, start: int, es: seq<Event>)
    requires cfg.Valid() && Run(cfg, start, es).Some?
    ensures MissedInv(Run(cfg, start, es).value)
  {
    if |es| > 0 {
      var init := es[..|es| - 1];
      MissedAlways(cfg, start, init);
      RunKeeps(cfg, start, init);
      MissedKeeps(cfg, Run(cfg, start, init).value, es[|es| - 1]);
    }
  }

  /** A redundant call is always a race: the live answer was stored after the request read the cache. */
  lemma RedundantOnlyInRace(cfg: Config, start: int, es: seq<Event>, id: nat)
    requires cfg.Valid() && Run(cfg, start, es).Some? && Redundant(Run(cfg, start, es).value, id)
    ensures var s := Run(cfg, start, es).value;
      LastRecord(s.log, s.requests[id].key) >= s.requests[id].since
  {
    MissedAlways(cfg, start, es);
  }

  /** The principals that ever got a definitive answer. */
  function Answered(log: seq<Record>): set<string> {
    set r | r in log :: r.key
  }

  /** When nothing is evicted, the cache holds the last answer for `k`, or nothing once it is stale. */
  ghost predicate HoldsLast(cfg: Config, s: State, k: string) {
    var i, entry := LastRecord(s.log, k), EntryOf(s.cache, k);
    if i < 0 then entry.None?
    else
      var until := s.log[i].at + cfg.TTL(s.log[i].answer);
      s.log[i].answer.Definitive()
      && if entry.Some? then entry.value == Entry(k, Pack(s.log[i].answer), until) else s.clock > until
  }

  /** A full cache without an entry for `key` means more answered principals than entries. */
  lemma FullCacheHasKey(cfg: Config, cache: Recency<Payload>, log: seq<Record>, r: Record)
    requires CacheInv(cfg, cache, log) && |cache| == cfg.maxSize && EntryOf(cache, r.key).None?
    ensures |Answered(log + [r])| > cfg.maxSize
  {
    var ks := Keys(cache);
    var held := set k | k in ks;
    InjectiveCardinality(ks);
    EntryOfMeaning(cache, r.key);
    forall k | k in held
      ensures k in Answered(log + [r]) && k != r.key
    {
      var i :| 0 <= i < |ks| && ks[i] == k;
      assert cache[i] in cache && cache[i] in Written(cfg, log);
      var j :| 0 <= j < |log| && log[j].key == k;
      assert log[j] in log + [r];
    }
    assert r in log + [r];
    SubsetCardinality(held + {r.key}, Answered(log + [r]));
  }

  lemma CacheIsBacked(cfg: Config, s: State)
    requires Inv(cfg, s)
    ensures CacheInv(cfg, s.cache, s.log)
  {}

  /** With room for every answered principal, storing an answer disturbs no other principal's entry. */
  lemma StoreEvictsNothing(cfg: Config, s: State, f: nat, k: string)
    requires cfg.Valid() && Inv(cfg, s)
    requires Enabled(s, Store(f)) && s.flights[f].phase.o.Definitive() && k != s.flights[f].key
    requires |Answered(DoStore(cfg, s, f).log)| <= cfg.maxSize
    ensures EntryOf(DoStore(cfg, s, f).cache, k) == EntryOf(s.cache, k)
  {
    if EntryOf(DoStore(cfg, s, f).cache, k) != EntryOf(s.cache, k) {
      hide Inv, Remember, EntryOf, Answered;
      EntryChanges(cfg, s, Store(f), k);
      CacheIsBacked(cfg, s);
      FullCacheHasKey(cfg, s.cache, s.log, Record(s.flights[f].key, s.flights[f].phase.o, s.clock, f));
    }
  }

  lemma HoldsLastAfterStore(cfg: Config, s: State, f: nat, k: string)
    requires cfg.Valid() && Inv(cfg, s) && HoldsLast(cfg, s, k)
    requires Enabled(s, Store(f)) && s.flights[f].phase.o.Definitive()
    requires |Answered(DoStore(cfg, s, f).log)| <= cfg.maxSize
    ensures HoldsLast(cfg, DoStore(cfg, s, f), k)
  {
    hide Inv, Remember, EntryOf, Answered, LastRecord;
    LastRecordAppend(s.log, Record(s.flights[f].key, s.flights[f].phase.o, s.clock, f), k);
    if s.flights[f].key == k {
      StoredBeforeEnd(cfg, s, f);
    } else {
      StoreEvictsNothing(cfg, s, f, k);
    }
  }

  lemma HoldsLastKeeps(cfg: Config, s: State, e: Event, k: string)
    requires cfg.Valid() && Inv(cfg, s) && HoldsLast(cfg, s, k) && Enabled(s, e)
    requires |Answered(Apply(cfg, s, e).log)| <= cfg.maxSize
    ensures HoldsLast(cfg, Apply(cfg, s, e), k)
  {
    var s' := Apply(cfg, s, e);
    hide Inv, Get, Remember, EntryOf, Answered, LastRecord;
    if e.Store? && s.flights[e.flight].phase.o.Definitive() {
      HoldsLastAfterStore(cfg, s, e.flight, k);
    } else {
      assert s'.log == s.log;
      if EntryOf(s'.cache, k) != EntryOf(s.cache, k) {
        EntryChanges(cfg, s, e, k);
      }
    }
  }

  lemma LogGrows(cfg: Config, s: State, e: Event)
    requires Enabled(s, e)
    ensures Answered(s.log) <= Answered(Apply(cfg, s, e).log)
  {
    assert forall r :: r in s.log ==> r in Apply(cfg, s, e).log;
  }

  lemma {:induction false} HoldsLastAlways(cfg: Config, start: int, es: seq<Event>, k: string)
    requires cfg.Valid() && Run(cfg, start, es).Some?
    requires |Answered(Run(cfg, start, es).value.log)| <= cfg.maxSize
    ensures HoldsLast(cfg, Run(cfg, start, es).value, k)
  {
    if |es| > 0 {
      var init, e := es[..|es| - 1], es[|es| - 1];
      var s := Run(cfg, start, init).value;
      LogGrows(cfg, s, e);
      SubsetCardinality(Answered(s.log), Answered(Apply(cfg, s, e).log));
      HoldsLastAlways(cfg, start, init, k);
      RunKeeps(cfg, start, init);
      HoldsLastKeeps(cfg, s, e, k);
    }
  }

  /**
   * With room for every answered principal, a request that starts a call repeats a live answer
   * exactly when the last answer for its principal was stored after the request read the cache
   * and is still fresh. A request that read the cache after that store never repeats it.
   */
  lemma RedundantIff(cfg: Config, start: int, es: seq<Event>, id: nat)
    requires cfg.Valid() && Run(cfg, start, es).Some?
    requires var s := Run(cfg, start, es).value;
      |Answered(s.log)| <= cfg.maxSize && Enabled(s, Join(id)) && s.requests[id].key !in s.group
    ensures var s := Run(cfg, start, es).value;
      var i := LastRecord(s.log, s.requests[id].key);
      Redundant(s, id) <==>
      i >= 0 && i >= s.requests[id].since && s.clock <= s.log[i].at + cfg.TTL(s.log[i].answer)
  {
    var s := Run(cfg, start, es).value;
    MissedAlways(cfg, start, es);
    HoldsLastAlways(cfg, start, es, s.requests[id].key);
  }
}
