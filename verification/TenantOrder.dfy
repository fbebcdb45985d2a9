/** The order of tenant-injector's list under concurrency: by the last use of each principal. */
module TenantOrder {
  import opened Common
  import opened Lru
  import opened RecencyOrder
  import opened Directory
  import opened TenantProtocol

  /** The principal that an event uses: one that a read hits, or one whose definitive answer is stored. */
  function Uses(s: State, e: Event): Option<string>
    requires Enabled(s, e)
  {
    match e
    case Read(id) =>
      var key := s.requests[id].key;
      if Get(s.cache, key, s.clock).1.Some? then Some(key) else None
    case Store(f) => if s.flights[f].phase.o.Definitive() then Some(s.flights[f].key) else None
    case _ => None
  }

  function Extended(history: seq<string>, use: Option<string>): seq<string> {
    match use
    case Some(k) => history + [k]
    case None => history
  }

  /** The principals used in a run, in the order of their uses. */
  function History(cfg: Config, start: int, es: seq<Event>): seq<string>
    requires Run(cfg, start, es).Some?
  {
    if |es| == 0 then []
    else
      var init := es[..|es| - 1];
      Extended(History(cfg, start, init), Uses(Run(cfg, start, init).value, es[|es| - 1]))
  }

  /** What an event does to the keys of the list. */
  lemma KeysAfterEvent(cfg: Config, s: State, e: Event)
    requires cfg.Valid() && WellFormed(s.cache, cfg.maxSize) && Enabled(s, e)
    ensures var ks, ks' := Keys(s.cache), Keys(Apply(cfg, s, e).cache);
      match Uses(s, e)
      case Some(k) => ks' == Take([k] + Without(ks, k), cfg.maxSize)
      case None => ks' == ks || (e.Read? && ks' == Without(ks, s.requests[e.id].key))
  {
    hide Get, Set, WellFormed, Without, Take;
    match e
    case Read(id) => KeysAfterGet(s.cache, cfg.maxSize, s.requests[id].key, s.clock);
    case Store(f) =>
      var key, o := s.flights[f].key, s.flights[f].phase.o;
      if o.Definitive() {
        KeysAfterSet(s.cache, cfg.maxSize, key, Pack(o), s.clock + cfg.TTL(o));
      }
    case _ =>
  }

  lemma OrderKept(cfg: Config, s: State, e: Event, history: seq<string>)
    requires cfg.Valid() && Inv(cfg, s) && Enabled(s, e) && LatestFirst(history, Keys(s.cache))
    ensures LatestFirst(Extended(history, Uses(s, e)), Keys(Apply(cfg, s, e).cache))
  {
    hide LatestFirst, Without, Take, Apply, Uses, WellFormed;
    KeysDistinct(s.cache, cfg.maxSize);
    KeysAfterEvent(cfg, s, e);
    var ks := Keys(s.cache);
    match Uses(s, e)
    case Some(k) => UseKeepsOrder(history, ks, k, cfg.maxSize);
    case None =>
      if e.Read? {
        WithoutLatestFirst(history, ks, s.requests[e.id].key);
      }
  }

  /**
   * However requests interleave, the list holds its principals in the order of their last uses,
   * hits and definitive stores alike, the latest first; misses, failures and expiries never
   * reorder it.
   */
  lemma {:induction false} AlwaysLatestFirst(cfg: Config, start: int, es: seq<Event>)
    requires cfg.Valid() && Run(cfg, start, es).Some?
    ensures LatestFirst(History(cfg, start, es), Keys(Run(cfg, start, es).value.cache))
  {
    if |es| > 0 {
      var init, e := es[..|es| - 1], es[|es| - 1];
      var s := Run(cfg, start, init).value;
      AlwaysLatestFirst(cfg, start, init);
      RunKeeps(cfg, start, init);
      OrderKept(cfg, s, e, History(cfg, start, init));
    }
  }
}
