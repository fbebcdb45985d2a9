/**
 * Plugin chains: composition in declaration order, per-route overrides, the check that no route
 * switches token-validator off, and shutdown in reverse order.
 */
module Loader {
  import opened Common

  const TOKEN_VALIDATOR := "token-validator"

  /** A middleware answers the request itself or hands a request on. */
  datatype Step<Req, Resp> = Stop(resp: Resp) | Pass(req: Req)

  /** `after` is what the middleware makes of the response that comes back through it. */
  datatype Plugin<!Req, !Resp> = Plugin(name: string, step: Req -> Step<Req, Resp>, after: (Req, Resp) -> Resp)

  /** What serving a request does: which plugins it enters, whether it reaches the inner handler, the response. */
  datatype Served<Resp> = Served(visited: seq<string>, reached: bool, resp: Resp)

  /** `Plugin.Handler`: the middleware around an inner handler. */
  function Wrap<Req, Resp>(p: Plugin<Req, Resp>, inner: Req -> Served<Resp>): Req -> Served<Resp> {
    (r: Req) =>
      match p.step(r)
      case Stop(resp) => Served([p.name], false, resp)
      case Pass(r') =>
        var s := inner(r');
        Served([p.name] + s.visited, s.reached, p.after(r, s.resp))
  }

  function Innermost<Req, Resp>(next: Req -> Resp): Req -> Served<Resp> {
    (r: Req) => Served([], true, next(r))
  }

  datatype Setting = Flag(on: bool) | OtherSetting

  type Overrides = map<string, map<string, Setting>>

  predicate Disabled(o: Overrides, name: string) {
    name in o && "enabled" in o[name] && o[name]["enabled"] == Flag(false)
  }

  function Enabled<Req, Resp>(ps: seq<Plugin<Req, Resp>>, o: Overrides): seq<Plugin<Req, Resp>> {
    if |ps| == 0 then []
    else if Disabled(o, ps[0].name) then Enabled(ps[1..], o)
    else [ps[0]] + Enabled(ps[1..], o)
  }

  /** Running a list of plugins in order. */
  function Serve<Req, Resp>(ps: seq<Plugin<Req, Resp>>, next: Req -> Resp, r: Req): Served<Resp> {
    if |ps| == 0 then Served([], true, next(r))
    else match ps[0].step(r)
      case Stop(resp) => Served([ps[0].name], false, resp)
      case Pass(r') =>
        var s := Serve(ps[1..], next, r');
        Served([ps[0].name] + s.visited, s.reached, ps[0].after(r, s.resp))
  }

  /** Both loops wrap from the last plugin to the first. */
  method Chain<Req(!new), Resp>(ordered: seq<Plugin<Req, Resp>>, next: Req -> Resp) returns (h: Req -> Served<Resp>)
    ensures forall r :: h(r) == Serve(ordered, next, r)
  {
    h := Innermost(next);
    var i := |ordered|;
    while i > 0
      invariant 0 <= i <= |ordered|
      invariant forall r :: h(r) == Serve(ordered[i..], next, r)
    {
      i := i - 1;
      h := Wrap(ordered[i], h);
      assert ordered[i..][0] == ordered[i] && ordered[i..][1..] == ordered[i + 1..];
    }
  }

  method ChainFor<Req(!new), Resp>(ordered: seq<Plugin<Req, Resp>>, o: Overrides, next: Req -> Resp)
    returns (h: Req -> Served<Resp>)
    ensures forall r :: h(r) == Serve(Enabled(ordered, o), next, r)
  {
    h := Innermost(next);
    var i := |ordered|;
    while i > 0
      invariant 0 <= i <= |ordered|
      invariant forall r :: h(r) == Serve(Enabled(ordered[i..], o), next, r)
    {
      i := i - 1;
      var p := ordered[i];
      assert ordered[i..][0] == p && ordered[i..][1..] == ordered[i + 1..];
      if !Disabled(o, p.name) {
        h := Wrap(p, h);
        assert Enabled(ordered[i..], o)[1..] == Enabled(ordered[i + 1..], o);
      }
    }
  }

  lemma {:induction false} NoOverrides<Req, Resp>(ps: seq<Plugin<Req, Resp>>)
    ensures Enabled(ps, map[]) == ps
  {
    if |ps| > 0 {
      NoOverrides(ps[1..]);
    }
  }

  // ----- what serving means -----

  /** The request as it arrives at plugin `i`, when every plugin before it hands one on. */
  ghost function Arriving<Req, Resp>(ps: seq<Plugin<Req, Resp>>, r: Req, i: nat): Option<Req>
    requires i <= |ps|
  {
    if i == 0 then Some(r)
    else match Arriving(ps, r, i - 1)
      case None => None
      case Some(q) => match ps[i - 1].step(q) case Stop(_) => None case Pass(q') => Some(q')
  }

  function NamesOf<Req, Resp>(ps: seq<Plugin<Req, Resp>>): (r: seq<string>)
    ensures |r| == |ps| && forall i :: 0 <= i < |r| ==> r[i] == ps[i].name
  {
    seq(|ps|, i requires 0 <= i < |ps| => ps[i].name)
  }

  /** Serving `r` enters the first `k` plugins, each on a request; the last one stops it unless all hand one on. */
  ghost predicate Enters<Req, Resp>(ps: seq<Plugin<Req, Resp>>, s: Served<Resp>, r: Req, k: nat) {
    && k <= |ps|
    && s.visited == NamesOf(ps)[..k]
    && (forall i :: 0 <= i < k ==> Arriving(ps, r, i).Some?)
    && (s.reached <==> k == |ps| && Arriving(ps, r, |ps|).Some?)
    && (!s.reached ==> k >= 1 && ps[k - 1].step(Arriving(ps, r, k - 1).value).Stop?)
  }

  lemma {:induction false} ArrivingTail<Req, Resp>(ps: seq<Plugin<Req, Resp>>, r: Req, i: nat)
    requires 1 <= i <= |ps|
    ensures match ps[0].step(r)
            case Stop(_) => Arriving(ps, r, i).None?
            case Pass(q) => Arriving(ps, r, i) == Arriving(ps[1..], q, i - 1)
  {
    assert Arriving(ps, r, 0) == Some(r);
    if i > 1 {
      ArrivingTail(ps, r, i - 1);
    }
  }

  lemma EntersNone<Req, Resp>(ps: seq<Plugin<Req, Resp>>, s: Served<Resp>, r: Req)
    requires |ps| == 0 && s.visited == [] && s.reached
    ensures Enters(ps, s, r, 0)
  {}

  lemma ArrivingAtTail<Req, Resp>(ps: seq<Plugin<Req, Resp>>, r: Req)
    requires |ps| > 0
    ensures Arriving(ps, r, 0) == Some(r)
    ensures match ps[0].step(r)
            case Stop(_) => Arriving(ps, r, |ps|).None?
            case Pass(q) => forall i :: 1 <= i <= |ps| ==> Arriving(ps, r, i) == Arriving(ps[1..], q, i - 1)
  {
    forall i | 1 <= i <= |ps|
      ensures match ps[0].step(r)
              case Stop(_) => Arriving(ps, r, i).None?
              case Pass(q) => Arriving(ps, r, i) == Arriving(ps[1..], q, i - 1)
    {
      ArrivingTail(ps, r, i);
    }
  }

  lemma EntersOne<Req, Resp>(ps: seq<Plugin<Req, Resp>>, s: Served<Resp>, r: Req)
    requires |ps| > 0 && ps[0].step(r).Stop? && s.visited == [ps[0].name] && !s.reached
    ensures Enters(ps, s, r, 1)
  {
    hide Arriving;
    ArrivingAtTail(ps, r);
  }

  lemma NamesPrefix<Req, Resp>(ps: seq<Plugin<Req, Resp>>, n: nat)
    requires n < |ps|
    ensures NamesOf(ps)[..n + 1] == [ps[0].name] + NamesOf(ps[1..])[..n]
  {}

  /** A plugin that hands `q` on: the rest enters one plugin fewer. */
  lemma EntersNext<Req, Resp>(ps: seq<Plugin<Req, Resp>>, rest: Served<Resp>, s: Served<Resp>, r: Req, q: Req, n: nat)
    requires |ps| > 0 && ps[0].step(r) == Pass(q) && Enters(ps[1..], rest, q, n)
    requires s.visited == [ps[0].name] + rest.visited && s.reached == rest.reached
    ensures Enters(ps, s, r, n + 1)
  {
    hide Arriving, NamesOf;
    ArrivingAtTail(ps, r);
    NamesPrefix(ps, n);
  }

  /**
   * Serving enters the plugins in order up to the first that stops, and no further: `k` of them,
   * each reached by a request, and the inner handler is reached iff all of them hand one on.
   */
  lemma {:induction false} ServeMeaning<Req, Resp>(ps: seq<Plugin<Req, Resp>>, next: Req -> Resp, r: Req)
    returns (k: nat)
    ensures Enters(ps, Serve(ps, next, r), r, k)
  {
    hide Enters, Arriving, NamesOf;
    if |ps| == 0 {
      k := 0;
      EntersNone(ps, Serve(ps, next, r), r);
    } else {
      match ps[0].step(r)
      case Stop(_) =>
        k := 1;
        EntersOne(ps, Serve(ps, next, r), r);
      case Pass(q) =>
        var n := ServeMeaning(ps[1..], next, q);
        k := n + 1;
        EntersNext(ps, Serve(ps[1..], next, q), Serve(ps, next, r), r, q, n);
    }
  }

  /** `resp` on its way back through the first `i` plugins, the innermost first, each with the request it got. */
  ghost function Back<Req, Resp>(ps: seq<Plugin<Req, Resp>>, r: Req, i: nat, resp: Resp): Resp
    requires i <= |ps|
  {
    if i == 0 || Arriving(ps, r, i - 1).None? then resp
    else Back(ps, r, i - 1, ps[i - 1].after(Arriving(ps, r, i - 1).value, resp))
  }

  lemma {:induction false} BackTail<Req, Resp>(ps: seq<Plugin<Req, Resp>>, r: Req, q: Req, i: nat, resp: Resp)
    requires 1 <= i <= |ps| && ps[0].step(r) == Pass(q)
    requires forall j :: 0 <= j < i ==> Arriving(ps, r, j).Some?
    ensures Back(ps, r, i, resp) == ps[0].after(r, Back(ps[1..], q, i - 1, resp))
  {
    ArrivingAtTail(ps, r);
    if i == 1 {
      assert Back(ps, r, 0, ps[0].after(r, resp)) == ps[0].after(r, resp);
    } else {
      BackTail(ps, r, q, i - 1, ps[i - 1].after(Arriving(ps, r, i - 1).value, resp));
      assert ps[1..][i - 2] == ps[i - 1];
    }
  }

  /**
   * The response to be expected when `s` enters `k` plugins: the inner handler's, if the request
   * reaches it, and otherwise that of the plugin that stopped it; in either case passed back
   * through the plugins that had handed a request on.
   */
  ghost function Reply<Req, Resp>(ps: seq<Plugin<Req, Resp>>, next: Req -> Resp, s: Served<Resp>, r: Req, k: nat): Resp
    requires Enters(ps, s, r, k)
  {
    if s.reached then Back(ps, r, |ps|, next(Arriving(ps, r, |ps|).value))
    else Back(ps, r, k - 1, ps[k - 1].step(Arriving(ps, r, k - 1).value).resp)
  }

  lemma ReplyOne<Req, Resp>(ps: seq<Plugin<Req, Resp>>, next: Req -> Resp, s: Served<Resp>, r: Req, k: nat)
    requires |ps| > 0 && ps[0].step(r).Stop? && Enters(ps, s, r, k) && |s.visited| == 1
    ensures !s.reached && Reply(ps, next, s, r, k) == ps[0].step(r).resp
  {
    ArrivingAtTail(ps, r);
  }

  lemma ReplyReached<Req, Resp>(ps: seq<Plugin<Req, Resp>>, next: Req -> Resp, r: Req, q: Req)
    requires |ps| > 0 && ps[0].step(r) == Pass(q)
    requires forall j :: 0 <= j <= |ps| ==> Arriving(ps, r, j).Some?
    ensures Arriving(ps[1..], q, |ps| - 1).Some?
    ensures Back(ps, r, |ps|, next(Arriving(ps, r, |ps|).value)) ==
            ps[0].after(r, Back(ps[1..], q, |ps| - 1, next(Arriving(ps[1..], q, |ps| - 1).value)))
  {
    hide Arriving, Back;
    ArrivingAtTail(ps, r);
    BackTail(ps, r, q, |ps|, next(Arriving(ps, r, |ps|).value));
  }

  lemma ReplyStopped<Req, Resp>(ps: seq<Plugin<Req, Resp>>, r: Req, q: Req, n: nat)
    requires 1 <= n < |ps| && ps[0].step(r) == Pass(q)
    requires forall j :: 0 <= j <= n ==> Arriving(ps, r, j).Some?
    requires ps[n].step(Arriving(ps, r, n).value).Stop?
    ensures Arriving(ps[1..], q, n - 1) == Arriving(ps, r, n)
    ensures var resp := ps[n].step(Arriving(ps, r, n).value).resp;
      Back(ps, r, n, resp) == ps[0].after(r, Back(ps[1..], q, n - 1, resp))
  {
    hide Arriving, Back;
    ArrivingAtTail(ps, r);
    BackTail(ps, r, q, n, ps[n].step(Arriving(ps, r, n).value).resp);
  }

  lemma ReplyNext<Req, Resp>(ps: seq<Plugin<Req, Resp>>, next: Req -> Resp, rest: Served<Resp>, s: Served<Resp>,
                             r: Req, q: Req, n: nat)
    requires |ps| > 0 && ps[0].step(r) == Pass(q) && s.reached == rest.reached
    requires Enters(ps, s, r, n + 1) && Enters(ps[1..], rest, q, n)
    ensures Reply(ps, next, s, r, n + 1) == ps[0].after(r, Reply(ps[1..], next, rest, q, n))
  {
    hide Arriving, Back, NamesOf;
    if rest.reached {
      ReplyReached(ps, next, r, q);
    } else {
      ReplyStopped(ps, r, q, n);
    }
  }

  lemma EntersLength<Req, Resp>(ps: seq<Plugin<Req, Resp>>, s: Served<Resp>, r: Req, k: nat)
    requires Enters(ps, s, r, k)
    ensures |s.visited| == k
  {}

  lemma ServeUnfolds<Req, Resp>(ps: seq<Plugin<Req, Resp>>, next: Req -> Resp, r: Req)
    requires |ps| > 0
    ensures var s := Serve(ps, next, r);
      match ps[0].step(r)
      case Stop(resp) => s == Served([ps[0].name], false, resp)
      case Pass(q) =>
        var rest := Serve(ps[1..], next, q);
        && |s.visited| == |rest.visited| + 1
        && s.reached == rest.reached && s.resp == ps[0].after(r, rest.resp)
  {}

  lemma {:induction false} ServeResponse<Req, Resp>(ps: seq<Plugin<Req, Resp>>, next: Req -> Resp, r: Req, k: nat)
    requires Enters(ps, Serve(ps, next, r), r, k)
    ensures Serve(ps, next, r).resp == Reply(ps, next, Serve(ps, next, r), r, k)
  {
    if |ps| == 0 {
      assert Arriving(ps, r, 0) == Some(r);
      return;
    }
    ServeUnfolds(ps, next, r);
    hide Enters, Reply, Serve;
    match ps[0].step(r)
    case Stop(_) => ReplyOne(ps, next, Serve(ps, next, r), r, k);
    case Pass(q) =>
      var n := ServeMeaning(ps[1..], next, q);
      ServeResponse(ps[1..], next, q, n);
      EntersLength(ps, Serve(ps, next, r), r, k);
      EntersLength(ps[1..], Serve(ps[1..], next, q), q, n);
      ReplyNext(ps, next, Serve(ps[1..], next, q), Serve(ps, next, r), r, q, n);
  }

  // ----- which plugins a route runs -----

  /** `part` is what `keep` keeps of `whole`, every occurrence and no other, in order: the elements at `at`. */
  ghost predicate Selects<T>(at: seq<nat>, whole: seq<T>, part: seq<T>, keep: T -> bool) {
    && (forall a, b :: 0 <= a < b < |at| ==> at[a] < at[b])
    && |at| == |part|
    && (forall a :: 0 <= a < |at| ==> at[a] < |whole| && part[a] == whole[at[a]])
    && (forall i: nat :: i in at <==> i < |whole| && keep(whole[i]))
  }

  lemma SelectsAppend<T>(at: seq<nat>, whole: seq<T>, part: seq<T>, keep: T -> bool, x: T)
    requires Selects(at, whole, part, keep)
    ensures !keep(x) ==> Selects(at, whole + [x], part, keep)
    ensures keep(x) ==> Selects(at + [|whole|], whole + [x], part + [x], keep)
  {
    forall i: nat
      ensures i in at + [|whole|] <==> i in at || i == |whole|
    {}
  }

  function Shifted(at: seq<nat>): (r: seq<nat>)
    ensures |r| == |at| && forall a :: 0 <= a < |r| ==> r[a] == at[a] + 1
  {
    seq(|at|, a requires 0 <= a < |at| => at[a] + 1)
  }

  lemma ShiftedMembers(at: seq<nat>, i: nat)
    ensures i in Shifted(at) <==> i > 0 && i - 1 in at
  {
    if i > 0 && i - 1 in at {
      var a :| 0 <= a < |at| && at[a] == i - 1;
      assert Shifted(at)[a] == i;
    }
  }

  lemma ShiftedKeeps<T>(at: seq<nat>, whole: seq<T>, part: seq<T>, keep: T -> bool, x: T, i: nat)
    requires Selects(at, whole, part, keep)
    ensures i in Shifted(at) <==> 0 < i <= |whole| && keep(([x] + whole)[i])
  {
    ShiftedMembers(at, i);
    assert 0 < i <= |whole| ==> ([x] + whole)[i] == whole[i - 1];
  }

  lemma SelectsSkip<T>(at: seq<nat>, whole: seq<T>, part: seq<T>, keep: T -> bool, x: T)
    requires Selects(at, whole, part, keep) && !keep(x)
    ensures Selects(Shifted(at), [x] + whole, part, keep)
  {
    var all := [x] + whole;
    forall i: nat
      ensures i in Shifted(at) <==> i < |all| && keep(all[i])
    {
      ShiftedKeeps(at, whole, part, keep, x, i);
    }
    forall a | 0 <= a < |at|
      ensures Shifted(at)[a] == at[a] + 1 < |all| && part[a] == all[Shifted(at)[a]]
    {}
  }

  lemma SelectsPrepend<T>(at: seq<nat>, whole: seq<T>, part: seq<T>, keep: T -> bool, x: T)
    requires Selects(at, whole, part, keep) && keep(x)
    ensures Selects([0] + Shifted(at), [x] + whole, [x] + part, keep)
  {
    var at', part', all := [0] + Shifted(at), [x] + part, [x] + whole;
    forall i: nat
      ensures i in at' <==> i < |all| && keep(all[i])
    {
      ShiftedKeeps(at, whole, part, keep, x, i);
      assert i in at' <==> i == 0 || i in Shifted(at);
    }
    forall a | 0 <= a < |at'|
      ensures at'[a] == (if a == 0 then 0 else at[a - 1] + 1) < |all| && part'[a] == all[at'[a]]
    {}
  }

  /**
   * What is left under a route's overrides: the plugins whose settings do not say `enabled: false`,
   * every occurrence and no other, in declaration order.
   */
  lemma {:induction false} EnabledIs<Req, Resp>(ps: seq<Plugin<Req, Resp>>, o: Overrides) returns (at: seq<nat>)
    ensures Selects(at, ps, Enabled(ps, o), (p: Plugin<Req, Resp>) =>
              !(p.name in o && "enabled" in o[p.name] && o[p.name]["enabled"] == Flag(false)))
  {
    var keep := (p: Plugin<Req, Resp>) =>
      !(p.name in o && "enabled" in o[p.name] && o[p.name]["enabled"] == Flag(false));
    if |ps| == 0 {
      at := [];
    } else {
      assert ps == [ps[0]] + ps[1..];
      at := EnabledIs(ps[1..], o);
      hide Selects;
      if keep(ps[0]) {
        SelectsPrepend(at, ps[1..], Enabled(ps[1..], o), keep, ps[0]);
        at := [0] + Shifted(at);
      } else {
        SelectsSkip(at, ps[1..], Enabled(ps[1..], o), keep, ps[0]);
        at := Shifted(at);
      }
    }
  }

  // ----- the security floor -----

  /** Boot check: no route may switch token-validator off. */
  method ValidateRouteOverrides(routes: seq<Overrides>) returns (ok: bool)
    ensures ok <==> forall i :: 0 <= i < |routes| ==> !Disabled(routes[i], TOKEN_VALIDATOR)
    ensures ok <==> forall i :: 0 <= i < |routes| && "token-validator" in routes[i] ==>
                      var settings := routes[i]["token-validator"];
                      !("enabled" in settings && settings["enabled"] == Flag(false))
  {
    for i := 0 to |routes|
      invariant forall j :: 0 <= j < i ==> !Disabled(routes[j], TOKEN_VALIDATOR)
    {
      if Disabled(routes[i], TOKEN_VALIDATOR) {
        return false;
      }
    }
    return true;
  }

  function Occurrences(names: seq<string>, name: string): nat {
    if |names| == 0 then 0 else Occurrences(names[1..], name) + if names[0] == name then 1 else 0
  }

  lemma NamesOfFirst<Req, Resp>(ps: seq<Plugin<Req, Resp>>)
    requires |ps| > 0
    ensures NamesOf(ps)[0] == ps[0].name && NamesOf(ps)[1..] == NamesOf(ps[1..])
  {}

  /** The overrides keep every occurrence of a plugin that they do not disable. */
  lemma {:induction false} EnabledKeeps<Req, Resp>(ps: seq<Plugin<Req, Resp>>, o: Overrides, name: string)
    requires !Disabled(o, name)
    ensures Occurrences(NamesOf(Enabled(ps, o)), name) == Occurrences(NamesOf(ps), name)
  {
    if |ps| > 0 {
      EnabledKeeps(ps[1..], o, name);
      NamesOfFirst(ps);
      if !Disabled(o, ps[0].name) {
        assert Enabled(ps, o)[1..] == Enabled(ps[1..], o);
        NamesOfFirst(Enabled(ps, o));
      }
    }
  }

  lemma {:induction false} OccursIff(names: seq<string>, name: string)
    ensures Occurrences(names, name) > 0 <==> name in names
  {
    if |names| > 0 {
      OccursIff(names[1..], name);
      assert names == [names[0]] + names[1..];
    }
  }

  /**
   * On a route that passes the boot check, a request reaches the inner handler only after every
   * token-validator of the configuration has let it through.
   */
  lemma SecurityFloor<Req, Resp>(ordered: seq<Plugin<Req, Resp>>, o: Overrides, next: Req -> Resp, r: Req)
    requires !Disabled(o, TOKEN_VALIDATOR) && Serve(Enabled(ordered, o), next, r).reached
    ensures var visited := Serve(Enabled(ordered, o), next, r).visited;
      Occurrences(visited, TOKEN_VALIDATOR) == Occurrences(NamesOf(ordered), TOKEN_VALIDATOR)
  {
    var k := ServeMeaning(Enabled(ordered, o), next, r);
    EnabledKeeps(ordered, o, TOKEN_VALIDATOR);
    assert NamesOf(Enabled(ordered, o))[..k] == NamesOf(Enabled(ordered, o));
  }

  /**
   * The boot check alone does not put a token-validator in front of every request: one that
   * reaches the inner handler has passed a token-validator iff the configuration has one.
   */
  lemma ValidatedIff<Req, Resp>(ordered: seq<Plugin<Req, Resp>>, o: Overrides, next: Req -> Resp, r: Req)
    requires !Disabled(o, TOKEN_VALIDATOR) && Serve(Enabled(ordered, o), next, r).reached
    ensures TOKEN_VALIDATOR in Serve(Enabled(ordered, o), next, r).visited <==>
            TOKEN_VALIDATOR in NamesOf(ordered)
  {
    SecurityFloor(ordered, o, next, r);
    OccursIff(Serve(Enabled(ordered, o), next, r).visited, TOKEN_VALIDATOR);
    OccursIff(NamesOf(ordered), TOKEN_VALIDATOR);
  }

  // ----- load and shutdown -----

  /** One configured entry: whether it says `enabled: false`, and whether its plugin is registered and initialises. */
  datatype Entry = Entry(name: string, disabled: bool, registered: bool, initialises: bool)

  function Registered(es: seq<Entry>): seq<Entry> {
    if |es| == 0 then []
    else
      var init, e := Registered(es[..|es| - 1]), es[|es| - 1];
      if e.registered then init + [e] else init
  }

  /** The registered entries, every occurrence and no other, in the order of the configuration. */
  lemma {:induction false} RegisteredIs(es: seq<Entry>) returns (at: seq<nat>)
    ensures Selects(at, es, Registered(es), (e: Entry) => e.registered)
  {
    if |es| == 0 {
      at := [];
    } else {
      var init, last := es[..|es| - 1], es[|es| - 1];
      assert es == init + [last];
      at := RegisteredIs(init);
      SelectsAppend(at, init, Registered(init), (e: Entry) => e.registered, last);
      hide Selects;
      at := if last.registered then at + [|init|] else at;
    }
  }

  /** The first entry for token-validator, should there be one, is not switched off. */
  ghost predicate AlwaysOn(es: seq<Entry>) {
    forall i :: 0 <= i < |es| && es[i].name == TOKEN_VALIDATOR && es[i].disabled ==>
      exists j :: 0 <= j < i && es[j].name == TOKEN_VALIDATOR
  }

  method AssertAlwaysOn(entries: seq<Entry>) returns (ok: bool)
    ensures ok <==> AlwaysOn(entries)
    ensures ok <==> forall i :: 0 <= i < |entries| && entries[i].name == "token-validator" && entries[i].disabled ==>
                      exists j :: 0 <= j < i && entries[j].name == "token-validator"
  {
    for i := 0 to |entries|
      invariant forall j :: 0 <= j < i ==> entries[j].name != TOKEN_VALIDATOR
    {
      if entries[i].name == TOKEN_VALIDATOR {
        return !entries[i].disabled;
      }
    }
    return true;
  }

  datatype BootError = SwitchedOff | InitFailed(name: string)

  ghost predicate AllInitialise(es: seq<Entry>) {
    forall i :: 0 <= i < |es| && es[i].registered ==> es[i].initialises
  }

  /** What a configuration needs to boot. */
  ghost predicate Boots(es: seq<Entry>) {
    AlwaysOn(es) && AllInitialise(es)
  }

  /** The entry at `i` is the first registered one that does not initialise. */
  ghost predicate FailsFirst(es: seq<Entry>, i: nat, name: string) {
    && i < |es| && es[i].name == name && es[i].registered && !es[i].initialises
    && AllInitialise(es[..i])
  }

  /** Unregistered entries are skipped; the first failing `Init` aborts the boot. */
  method InitAll(entries: seq<Entry>) returns (r: Result<seq<Entry>, string>)
    ensures r.Ok? <==> AllInitialise(entries)
    ensures r.Ok? <==> forall i :: 0 <= i < |entries| && entries[i].registered ==> entries[i].initialises
    ensures match r
            case Ok(ordered) => ordered == Registered(entries)
            case Err(name) => exists i: nat :: FailsFirst(entries, i, name)
  {
    var ordered: seq<Entry> := [];
    for i := 0 to |entries|
      invariant ordered == Registered(entries[..i])
      invariant AllInitialise(entries[..i])
    {
      var e := entries[i];
      assert entries[..i + 1][..i] == entries[..i];
      if e.registered {
        if !e.initialises {
          assert FailsFirst(entries, i, e.name);
          return Err(e.name);
        }
        ordered := ordered + [e];
      }
    }
    assert entries[..|entries|] == entries;
    return Ok(ordered);
  }

  method Load(entries: seq<Entry>) returns (r: Result<seq<Entry>, BootError>)
    ensures r.Ok? <==> Boots(entries)
    ensures match r
            case Ok(ordered) => ordered == Registered(entries)
            case Err(SwitchedOff) => !AlwaysOn(entries)
            case Err(InitFailed(name)) => AlwaysOn(entries) && exists i: nat :: FailsFirst(entries, i, name)
  {
    hide AlwaysOn, AllInitialise, FailsFirst;
    var on := AssertAlwaysOn(entries);
    if !on {
      return Err(SwitchedOff);
    }
    var loaded := InitAll(entries);
    match loaded
    case Ok(ordered) => return Ok(ordered);
    case Err(name) => return Err(InitFailed(name));
  }

  function EntryNames(es: seq<Entry>): (r: seq<string>)
    ensures |r| == |es| && forall i :: 0 <= i < |r| ==> r[i] == es[i].name
  {
    seq(|es|, i requires 0 <= i < |es| => es[i].name)
  }

  lemma {:induction false} RegisteredMembers(es: seq<Entry>)
    ensures forall e :: e in Registered(es) ==> e in es
  {
    if |es| > 0 {
      RegisteredMembers(es[..|es| - 1]);
    }
  }

  lemma {:induction false} EnabledMembers<Req, Resp>(ps: seq<Plugin<Req, Resp>>, o: Overrides)
    ensures forall p :: p in Enabled(ps, o) ==> p in ps
  {
    if |ps| > 0 {
      EnabledMembers(ps[1..], o);
    }
  }

  ghost predicate PassesOn<Req(!new), Resp>(p: Plugin<Req, Resp>) {
    forall r :: p.step(r).Pass?
  }

  lemma {:induction false} AllPass<Req(!new), Resp>(ps: seq<Plugin<Req, Resp>>, next: Req -> Resp, r: Req)
    requires forall p :: p in ps ==> PassesOn(p)
    ensures Serve(ps, next, r).reached && Serve(ps, next, r).visited == NamesOf(ps)
  {
    if |ps| > 0 {
      assert PassesOn(ps[0]) && ps[0].step(r).Pass?;
      AllPass(ps[1..], next, ps[0].step(r).req);
      NamesOfFirst(ps);
      assert NamesOf(ps) == [ps[0].name] + NamesOf(ps)[1..];
    }
  }

  /**
   * Nothing at boot asks for a token-validator: a configuration without one boots, and if its
   * plugins pass requests on, every request on every route gets through unvalidated.
   */
  lemma Unguarded<Req(!new), Resp>(entries: seq<Entry>, ps: seq<Plugin<Req, Resp>>, o: Overrides,
                                   next: Req -> Resp, r: Req)
    requires forall e :: e in entries ==> e.name != TOKEN_VALIDATOR && (e.registered ==> e.initialises)
    requires NamesOf(ps) == EntryNames(Registered(entries)) && forall p :: p in ps ==> PassesOn(p)
    ensures Boots(entries)
    ensures Serve(Enabled(ps, o), next, r).reached
    ensures TOKEN_VALIDATOR !in Serve(Enabled(ps, o), next, r).visited
  {
    var kept := Enabled(ps, o);
    RegisteredMembers(entries);
    EnabledMembers(ps, o);
    AllPass(kept, next, r);
    forall i | 0 <= i < |kept|
      ensures NamesOf(kept)[i] != TOKEN_VALIDATOR
    {
      assert kept[i] in kept && kept[i] in ps;
      var j :| 0 <= j < |ps| && ps[j] == kept[i];
      assert NamesOf(ps)[j] == ps[j].name;
      assert EntryNames(Registered(entries))[j] == ps[j].name && Registered(entries)[j] in entries;
    }
  }

  /** Every plugin is shut down once, in exact reverse order, whatever errors come back. */
  method Shutdown(ordered: seq<string>, fails: nat -> bool) returns (calls: seq<string>, logged: seq<string>)
    ensures |calls| == |ordered| && forall i :: 0 <= i < |calls| ==> calls[i] == ordered[|ordered| - 1 - i]
    ensures forall x :: x in logged <==> exists i :: 0 <= i < |ordered| && fails(i) && ordered[i] == x
  {
    calls, logged := [], [];
    var i := |ordered|;
    while i > 0
      invariant 0 <= i <= |ordered| && |calls| == |ordered| - i
      invariant forall j :: 0 <= j < |calls| ==> calls[j] == ordered[|ordered| - 1 - j]
      invariant forall x :: x in logged <==> exists j :: i <= j < |ordered| && fails(j) && ordered[j] == x
    {
      i := i - 1;
      calls := calls + [ordered[i]];
      if fails(i) {
        logged := logged + [ordered[i]];
      }
    }
  }
}
