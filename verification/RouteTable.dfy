/** Validation of the route table: required fields, placeholders, unique ids, all problems at once. */
module RouteTable {
  import opened Common
  import Routing

  // ----- placeholders -----

  predicate IsBrace(c: char) {
    c == '{' || c == '}'
  }

  /** A brace token of the path: an opening and a closing brace with no brace in between. */
  ghost predicate IsToken(path: string, i: nat, j: nat) {
    i < j < |path| && path[i] == '{' && path[j] == '}' && forall k :: i < k < j ==> !IsBrace(path[k])
  }

  /** The first brace at or after `from`, or the end of the path. */
  function NextBrace(path: string, from: nat): (j: nat)
    requires from <= |path|
    ensures from <= j <= |path|
    ensures j < |path| ==> IsBrace(path[j])
    ensures forall k :: from <= k < j ==> !IsBrace(path[k])
    decreases |path| - from
  {
    if from == |path| || IsBrace(path[from]) then from else NextBrace(path, from + 1)
  }

  /** The placeholder expression matches at `from`. */
  predicate Opens(path: string, from: nat)
    requires from < |path|
  {
    path[from] == '{' && var j := NextBrace(path, from + 1); j < |path| && path[j] == '}'
  }

  /** Leftmost, non-overlapping matches of the placeholder expression from `from` on. */
  function Tokens(path: string, from: nat): seq<(nat, nat)>
    requires from <= |path|
    decreases |path| - from
  {
    if from == |path| then []
    else if Opens(path, from) then
      var j := NextBrace(path, from + 1);
      [(from, j)] + Tokens(path, j + 1)
    else Tokens(path, from + 1)
  }

  lemma OnlyToken(path: string, from: nat, i: nat, j: nat)
    requires from < |path| && Opens(path, from) && from <= i <= NextBrace(path, from + 1)
    ensures IsToken(path, i, j) <==> i == from && j == NextBrace(path, from + 1)
  {
    var end := NextBrace(path, from + 1);
    assert IsBrace(path[end]) && IsBrace('{');
    if IsToken(path, i, j) {
      assert i == from;
    }
  }

  lemma NoToken(path: string, from: nat, j: nat)
    requires from < |path| && !Opens(path, from)
    ensures !IsToken(path, from, j)
  {
    var end := NextBrace(path, from + 1);
    assert end < |path| ==> IsBrace(path[end]);
    assert forall k :: from < k < end ==> !IsBrace(path[k]);
  }

  /** A pair is matched iff it is a brace token of the path. */
  lemma {:induction false} TokensAreAll(path: string, from: nat, i: nat, j: nat)
    requires from <= |path|
    ensures (i, j) in Tokens(path, from) <==> from <= i && IsToken(path, i, j)
    decreases |path| - from
  {
    if from < |path| {
      if Opens(path, from) {
        var end := NextBrace(path, from + 1);
        TokensAreAll(path, end + 1, i, j);
        if from <= i <= end {
          OnlyToken(path, from, i, j);
        }
      } else {
        TokensAreAll(path, from + 1, i, j);
        if i == from {
          NoToken(path, from, j);
        }
      }
    }
  }

  /** The matches are listed from left to right and do not overlap. */
  lemma {:induction false} TokensInOrder(path: string, from: nat)
    requires from <= |path|
    ensures forall a :: 0 <= a < |Tokens(path, from)| ==>
              from <= Tokens(path, from)[a].0 < Tokens(path, from)[a].1 < |path|
    ensures forall a, b :: 0 <= a < b < |Tokens(path, from)| ==> Tokens(path, from)[a].1 < Tokens(path, from)[b].0
    decreases |path| - from
  {
    if from < |path| {
      TokensInOrder(path, if Opens(path, from) then NextBrace(path, from + 1) + 1 else from + 1);
    }
  }

  /** The names of the path's placeholders, from left to right. */
  function Placeholders(path: string): (names: seq<string>)
    ensures |names| == |Tokens(path, 0)|
  {
    TokensInOrder(path, 0);
    var ts := Tokens(path, 0);
    seq(|ts|, i requires 0 <= i < |ts| => path[ts[i].0 + 1..ts[i].1])
  }

  /** `name` in braces is what stands at `token`. */
  ghost predicate Braced(path: string, token: (nat, nat), name: string) {
    token.0 < token.1 < |path| && path[token.0..token.1 + 1] == "{" + name + "}"
  }

  /** Each name is what stands between the braces of its token. */
  lemma PlaceholderAt(path: string, a: nat)
    requires a < |Tokens(path, 0)|
    ensures var (i, j) := Tokens(path, 0)[a];
      i < j < |path| && path[i..j + 1] == "{" + Placeholders(path)[a] + "}"
    ensures Braced(path, Tokens(path, 0)[a], Placeholders(path)[a])
  {
    var (i, j) := Tokens(path, 0)[a];
    TokensInOrder(path, 0);
    assert (i, j) in Tokens(path, 0);
    TokensAreAll(path, 0, i, j);
  }

  lemma BracedIsPlaceholder(path: string, before: string, name: string, after: string)
    requires path == before + "{" + name + "}" + after && '{' !in name && '}' !in name
    ensures name in Placeholders(path)
  {
    var i, j := |before|, |before| + 1 + |name|;
    assert path[i + 1..j] == name;
    forall k | i < k < j
      ensures !IsBrace(path[k])
    {
      assert path[k] == name[k - i - 1] && name[k - i - 1] in name;
    }
    assert IsToken(path, i, j);
    TokensAreAll(path, 0, i, j);
    var a: nat :| a < |Tokens(path, 0)| && Tokens(path, 0)[a] == (i, j);
    assert Placeholders(path)[a] == name;
  }

  lemma PlaceholderIsBraced(path: string, name: string) returns (before: string, after: string)
    requires name in Placeholders(path)
    ensures path == before + "{" + name + "}" + after && '{' !in name && '}' !in name
  {
    var a: nat :| a < |Placeholders(path)| && Placeholders(path)[a] == name;
    var (i, j) := Tokens(path, 0)[a];
    PlaceholderAt(path, a);
    assert (i, j) in Tokens(path, 0);
    TokensAreAll(path, 0, i, j);
    hide Tokens, Placeholders;
    before, after := path[..i], path[j + 1..];
    assert path == before + path[i..j + 1] + after;
    assert path == before + "{" + name + "}" + after;
    forall k | 0 <= k < |name|
      ensures !IsBrace(name[k])
    {
      assert path[i..j + 1][k + 1] == name[k] == path[i + 1 + k];
    }
  }

  /** A name is a placeholder of the path iff it stands there in braces and has none itself. */
  lemma PlaceholderIff(path: string, name: string)
    ensures name in Placeholders(path) <==>
            exists before, after :: path == before + "{" + name + "}" + after && '{' !in name && '}' !in name
  {
    if name in Placeholders(path) {
      var before, after := PlaceholderIsBraced(path, name);
    }
    if before, after :| path == before + "{" + name + "}" + after && '{' !in name && '}' !in name {
      BracedIsPlaceholder(path, before, name, after);
    }
  }

  datatype PlaceholderError = EmptyName | Repeated(name: string)

  ghost predicate GoodNames(names: seq<string>) {
    Injective(names) && "" !in names
  }

  /** The names before `i` are good and `error` is what is wrong with the name at `i`. */
  ghost predicate IsFirstBad(names: seq<string>, i: nat, error: PlaceholderError) {
    && i < |names|
    && GoodNames(names[..i])
    && match error
       case EmptyName => names[i] == ""
       case Repeated(name) => names[i] == name != "" && name in names[..i]
  }

  /** Collects the names of the placeholders up to the first bad one. */
  method ParsePlaceholders(path: string) returns (r: Result<seq<string>, PlaceholderError>)
    ensures r.Ok? <==> GoodNames(Placeholders(path))
    ensures r.Ok? <==>
            && (forall i, j :: 0 <= i < j < |Placeholders(path)| ==> Placeholders(path)[i] != Placeholders(path)[j])
            && (forall i :: 0 <= i < |Placeholders(path)| ==> Placeholders(path)[i] != "")
    ensures r.Ok? ==> r.value == Placeholders(path)
    ensures r.Err? ==> exists i: nat :: IsFirstBad(Placeholders(path), i, r.error)
  {
    var matches := Placeholders(path);
    var names: seq<string> := [];
    var seen: set<string> := {};
    for i := 0 to |matches|
      invariant names == matches[..i] && GoodNames(names)
      invariant forall x :: x in seen <==> x in names
    {
      var name := matches[i];
      if name == "" {
        assert IsFirstBad(matches, i, EmptyName);
        return Err(EmptyName);
      }
      if name in seen {
        assert !Injective(matches);
        assert IsFirstBad(matches, i, Repeated(name));
        return Err(Repeated(name));
      }
      seen := seen + {name};
      names := names + [name];
    }
    return Ok(names);
  }

  // ----- the table -----

  datatype Route = Route(id: string, verb: string, path: string, target: string, pathParams: seq<string>)

  datatype Problem =
    | IdMissing(index: nat) | IdDuplicated(id: string)
    | VerbMissing(index: nat) | VerbInvalid(index: nat)
    | PathMissing(index: nat) | PathInvalid(index: nat)
    | TargetMissing(index: nat) | TargetInvalid(index: nat)

  const VERBS: set<string> := {"GET", "POST", "PUT", "PATCH", "DELETE", "HEAD", "OPTIONS"}

  predicate GoodVerb(v: string) {
    Routing.Fold(v) in VERBS
  }

  lemma UpperCaseFixed(m: string)
    requires m in VERBS
    ensures Routing.Fold(m) == m
  {
    assert forall i :: 0 <= i < |m| ==> 'A' <= m[i] <= 'Z';
  }

  /** The seven methods, in any letter case. */
  lemma GoodVerbIff(v: string)
    ensures GoodVerb(v) <==>
            exists m :: m in {"GET", "POST", "PUT", "PATCH", "DELETE", "HEAD", "OPTIONS"} && Routing.SameFolded(v, m)
  {
    forall m | m in VERBS
      ensures Routing.Fold(m) == m
    {
      UpperCaseFixed(m);
    }
    forall m
      ensures Routing.Fold(v) == Routing.Fold(m) <==> Routing.SameFolded(v, m)
    {
      Routing.FoldIff(v, m);
    }
  }

  ghost predicate GoodPath(p: string) {
    p != "" && GoodNames(Placeholders(p))
  }

  /** An empty placeholder is never accepted, wherever it stands. */
  lemma EmptyPlaceholderRejected(before: string, after: string)
    ensures !GoodPath(before + "{}" + after)
  {
    var path := before + "{}" + after;
    assert path == before + "{" + "" + "}" + after;
    BracedIsPlaceholder(path, before, "", after);
  }

  ghost predicate Seen(rs: seq<Route>, n: nat, id: string)
    requires n <= |rs|
  {
    exists j :: 0 <= j < n && rs[j].id == id
  }

  ghost function IdProblems(rs: seq<Route>, i: nat): seq<Problem>
    requires i < |rs|
  {
    if rs[i].id == "" then [IdMissing(i)]
    else if Seen(rs, i, rs[i].id) then [IdDuplicated(rs[i].id)]
    else []
  }

  ghost function FieldProblems(r: Route, i: nat, uri: string -> bool): seq<Problem> {
    (if r.verb == "" then [VerbMissing(i)] else if !GoodVerb(r.verb) then [VerbInvalid(i)] else [])
    + (if r.path == "" then [PathMissing(i)] else if !GoodPath(r.path) then [PathInvalid(i)] else [])
    + (if r.target == "" then [TargetMissing(i)] else if !uri(r.target) then [TargetInvalid(i)] else [])
  }

  /** Everything wrong with the first `n` routes, in the order in which it is reported. */
  ghost function Problems(rs: seq<Route>, n: nat, uri: string -> bool): seq<Problem>
    requires n <= |rs|
  {
    if n == 0 then []
    else Problems(rs, n - 1, uri) + IdProblems(rs, n - 1) + FieldProblems(rs[n - 1], n - 1, uri)
  }

  /** What validation writes into a route. */
  ghost function Normalised(r: Route): Route {
    r.(verb := if GoodVerb(r.verb) then Routing.Fold(r.verb) else r.verb,
       pathParams := if GoodPath(r.path) then Placeholders(r.path) else r.pathParams)
  }

  /** The verb, path and target of one route. */
  method CheckFields(routes: array<Route>, i: nat, uri: string -> bool) returns (errs: seq<Problem>)
    requires i < routes.Length
    modifies routes
    ensures errs == FieldProblems(old(routes[i]), i, uri)
    ensures routes[i] == Normalised(old(routes[i]))
    ensures forall j :: 0 <= j < routes.Length && j != i ==> routes[j] == old(routes[j])
  {
    var r := routes[i];
    errs := [];
    if r.verb == "" {
      errs := errs + [VerbMissing(i)];
    } else if Routing.Fold(r.verb) !in VERBS {
      errs := errs + [VerbInvalid(i)];
    } else {
      routes[i] := routes[i].(verb := Routing.Fold(r.verb));
    }
    if r.path == "" {
      errs := errs + [PathMissing(i)];
    } else {
      var params := ParsePlaceholders(r.path);
      if params.Err? {
        errs := errs + [PathInvalid(i)];
      } else {
        routes[i] := routes[i].(pathParams := params.value);
      }
    }
    if r.target == "" {
      errs := errs + [TargetMissing(i)];
    } else if !uri(r.target) {
      errs := errs + [TargetInvalid(i)];
    }
  }

  /** The problems of one route's fields, each exactly when its field has that fault. */
  lemma FieldProblemsIff(r: Route, i: nat, uri: string -> bool, q: Problem)
    ensures q in FieldProblems(r, i, uri) <==>
            || (q == VerbMissing(i) && r.verb == "")
            || (q == VerbInvalid(i) && r.verb != "" && !GoodVerb(r.verb))
            || (q == PathMissing(i) && r.path == "")
            || (q == PathInvalid(i) && r.path != "" && !GoodNames(Placeholders(r.path)))
            || (q == TargetMissing(i) && r.target == "")
            || (q == TargetInvalid(i) && r.target != "" && !uri(r.target))
  {
    hide GoodVerb, GoodNames, Placeholders;
  }

  /** The problem `q` is one of route `i`: of its id, or of one of its fields. */
  ghost predicate ProblemOf(rs: seq<Route>, i: nat, uri: string -> bool, q: Problem)
    requires i < |rs|
  {
    || (q == IdMissing(i) && rs[i].id == "")
    || (q == IdDuplicated(rs[i].id) && rs[i].id != "" && exists j :: 0 <= j < i && rs[j].id == rs[i].id)
    || q in FieldProblems(rs[i], i, uri)
  }

  /** Validation reports a problem iff one of the routes has it. */
  lemma {:induction false} ProblemsIff(rs: seq<Route>, n: nat, uri: string -> bool, q: Problem)
    requires n <= |rs|
    ensures q in Problems(rs, n, uri) <==> exists i: nat :: i < n && ProblemOf(rs, i, uri, q)
  {
    hide FieldProblems;
    if n > 0 {
      ProblemsIff(rs, n - 1, uri, q);
      assert ProblemOf(rs, n - 1, uri, q) <==> q in IdProblems(rs, n - 1) || q in FieldProblems(rs[n - 1], n - 1, uri);
    }
  }

  /**
   * What validation writes: an accepted method in upper case, the names of an accepted path's
   * placeholders, and nothing else.
   */
  lemma NormalisedCases(r: Route)
    ensures var n := Normalised(r);
      && n.id == r.id && n.path == r.path && n.target == r.target
      && (GoodVerb(r.verb) ==> n.verb in VERBS && Routing.SameFolded(n.verb, r.verb))
      && (!GoodVerb(r.verb) ==> n.verb == r.verb)
      && (GoodPath(r.path) ==> |n.pathParams| == |Tokens(r.path, 0)|)
      && (GoodPath(r.path) ==>
            forall a: nat :: a < |n.pathParams| ==> Braced(r.path, Tokens(r.path, 0)[a], n.pathParams[a]))
      && (!GoodPath(r.path) ==> n.pathParams == r.pathParams)
  {
    forall a: nat | a < |Tokens(r.path, 0)|
      ensures Braced(r.path, Tokens(r.path, 0)[a], Placeholders(r.path)[a])
    {
      PlaceholderAt(r.path, a);
    }
    Routing.FoldIff(Routing.Fold(r.verb), r.verb);
    assert Routing.Fold(Routing.Fold(r.verb)) == Routing.Fold(r.verb);
    hide GoodNames;
  }

  /** One pass over the table, rewriting it in place and collecting every problem. */
  method Validate(routes: array<Route>, uri: string -> bool) returns (errs: seq<Problem>)
    modifies routes
    ensures errs == Problems(old(routes[..]), routes.Length, uri)
    ensures forall i :: 0 <= i < routes.Length ==> routes[i] == Normalised(old(routes[i]))
  {
    hide Normalised, FieldProblems;
    errs := [];
    var seen: set<string> := {};
    ghost var rs := routes[..];
    for i := 0 to routes.Length
      invariant errs == Problems(rs, i, uri)
      invariant forall x :: x in seen <==> x != "" && Seen(rs, i, x)
      invariant forall j :: 0 <= j < i ==> routes[j] == Normalised(rs[j])
      invariant forall j :: i <= j < routes.Length ==> routes[j] == rs[j]
    {
      var r := routes[i];
      if r.id == "" {
        errs := errs + [IdMissing(i)];
      } else if r.id in seen {
        errs := errs + [IdDuplicated(r.id)];
      } else {
        seen := seen + {r.id};
      }
      var fields := CheckFields(routes, i, uri);
      errs := errs + fields;
    }
  }

  // ----- what acceptance means -----

  ghost predicate GoodRoute(r: Route, uri: string -> bool) {
    r.id != "" && GoodVerb(r.verb) && GoodPath(r.path) && r.target != "" && uri(r.target)
  }

  ghost predicate DistinctIds(rs: seq<Route>, n: nat)
    requires n <= |rs|
  {
    forall i, j :: 0 <= i < j < n ==> rs[i].id != rs[j].id
  }

  lemma NoFieldProblems(r: Route, i: nat, uri: string -> bool)
    ensures FieldProblems(r, i, uri) == [] <==> GoodVerb(r.verb) && GoodPath(r.path) && r.target != "" && uri(r.target)
  {
    hide GoodNames, Placeholders;
    assert Routing.Fold("") == "";
  }

  lemma AllEmpty<T>(a: seq<T>, b: seq<T>, c: seq<T>)
    ensures a + b + c == [] <==> a == [] && b == [] && c == []
  {
    assert |a + b + c| == |a| + |b| + |c|;
  }

  ghost predicate AllGood(rs: seq<Route>, n: nat, uri: string -> bool)
    requires n <= |rs|
  {
    forall i :: 0 <= i < n ==> GoodRoute(rs[i], uri)
  }

  lemma OneMoreId(rs: seq<Route>, n: nat)
    requires n < |rs|
    ensures DistinctIds(rs, n + 1) <==> DistinctIds(rs, n) && !Seen(rs, n, rs[n].id)
  {}

  lemma OneMoreRoute(rs: seq<Route>, n: nat, uri: string -> bool)
    requires n < |rs|
    ensures IdProblems(rs, n) == [] && FieldProblems(rs[n], n, uri) == []
       <==> GoodRoute(rs[n], uri) && !Seen(rs, n, rs[n].id)
  {
    hide GoodPath, GoodVerb, FieldProblems, Seen;
    NoFieldProblems(rs[n], n, uri);
  }

  /** A table is accepted iff every route is complete and valid and no two share an id. */
  lemma {:induction false} AcceptedIff(rs: seq<Route>, n: nat, uri: string -> bool)
    requires n <= |rs|
    ensures Problems(rs, n, uri) == [] <==> AllGood(rs, n, uri) && DistinctIds(rs, n)
  {
    hide GoodRoute, FieldProblems, IdProblems, Seen;
    if n > 0 {
      AcceptedIff(rs, n - 1, uri);
      OneMoreId(rs, n - 1);
      OneMoreRoute(rs, n - 1, uri);
      AllEmpty(Problems(rs, n - 1, uri), IdProblems(rs, n - 1), FieldProblems(rs[n - 1], n - 1, uri));
    }
  }

  lemma AgainTheSame(r: Route, uri: string -> bool)
    requires GoodRoute(r, uri)
    ensures GoodRoute(Normalised(r), uri) && Normalised(Normalised(r)) == Normalised(r) && Normalised(r).id == r.id
  {
    hide GoodPath, Placeholders;
    assert Routing.Fold(Routing.Fold(r.verb)) == Routing.Fold(r.verb);
  }

  /** Problems are listed route by route: those of the first routes come first, and the rest do not change them. */
  lemma {:induction false} ProblemsGrow(rs: seq<Route>, m: nat, n: nat, uri: string -> bool)
    requires m <= n <= |rs|
    ensures Problems(rs, m, uri) <= Problems(rs, n, uri)
  {
    hide IdProblems, FieldProblems;
    if m < n {
      ProblemsGrow(rs, m, n - 1, uri);
    }
  }

  /** Validating an accepted table again changes nothing and finds nothing. */
  lemma AcceptedTwice(rs: seq<Route>, uri: string -> bool, again: seq<Route>)
    requires Problems(rs, |rs|, uri) == []
    requires |again| == |rs| && forall i :: 0 <= i < |rs| ==> again[i] == Normalised(rs[i])
    ensures Problems(again, |again|, uri) == []
    ensures forall i :: 0 <= i < |again| ==> Normalised(again[i]) == again[i]
  {
    hide GoodRoute, Normalised, Problems;
    AcceptedIff(rs, |rs|, uri);
    forall i | 0 <= i < |rs|
      ensures GoodRoute(again[i], uri) && Normalised(again[i]) == again[i] && again[i].id == rs[i].id
    {
      AgainTheSame(rs[i], uri);
    }
    AcceptedIff(again, |again|, uri);
  }
}
