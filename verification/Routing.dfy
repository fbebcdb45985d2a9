/** Path splitting, pattern matching and first-match dispatch of the route dispatcher. */
module Routing {
  import opened Common

  // ----- splitting -----

  /** The pieces between slashes, empty ones included. */
  function Split(path: string): (r: seq<string>)
    ensures |r| >= 1
    decreases |path|
  {
    match Cut(path, '/')
    case None => [path]
    case Some(p) => [p.0] + Split(p.1)
  }

  function NonEmpty(parts: seq<string>): seq<string> {
    if |parts| == 0 then []
    else
      var init, last := NonEmpty(parts[..|parts| - 1]), parts[|parts| - 1];
      if last == "" then init else init + [last]
  }

  /** The non-empty segments of a path, in order. */
  function Segs(path: string): seq<string> {
    NonEmpty(Split(path))
  }

  /**
   * The in-place loop of `splitPath`: the output shares the array it reads from, and never
   * overtakes the reader.
   */
  method Compact(parts: array<string>) returns (n: nat)
    modifies parts
    ensures n <= parts.Length && parts[..n] == NonEmpty(old(parts[..]))
  {
    n := 0;
    for i := 0 to parts.Length
      invariant n <= i
      invariant parts[i..] == old(parts[i..])
      invariant parts[..n] == NonEmpty(old(parts[..])[..i])
    {
      var p := parts[i];
      assert p == old(parts[..])[i];
      assert old(parts[..])[..i + 1][..i] == old(parts[..])[..i];
      assert parts[i + 1..] == parts[i..][1..];
      if p != "" {
        parts[n] := p;
        n := n + 1;
      }
    }
    assert old(parts[..])[..parts.Length] == old(parts[..]);
  }

  /** A segment: not empty and without a slash. */
  predicate IsSegment(s: string) {
    s != "" && '/' !in s
  }

  lemma {:induction false} SplitHasNoSlash(path: string)
    ensures forall p :: p in Split(path) ==> '/' !in p
    decreases |path|
  {
    if Cut(path, '/').Some? {
      SplitHasNoSlash(Cut(path, '/').value.1);
    }
  }

  lemma {:induction false} NonEmptyMembers(parts: seq<string>)
    ensures forall p :: p in NonEmpty(parts) <==> p in parts && p != ""
  {
    if |parts| > 0 {
      NonEmptyMembers(parts[..|parts| - 1]);
      assert parts == parts[..|parts| - 1] + [parts[|parts| - 1]];
    }
  }

  /** So the empty-segment branch of `matchPath` is dead. */
  lemma SegsAreSegments(path: string)
    ensures forall s :: s in Segs(path) ==> IsSegment(s)
  {
    SplitHasNoSlash(path);
    NonEmptyMembers(Split(path));
  }

  lemma SplitAt(s: string, a: string, b: string)
    requires s == a + ['/'] + b && '/' !in a
    ensures Split(s) == [a] + Split(b)
  {
    CutIs(s, a, '/', b);
  }

  lemma SplitWhole(a: string)
    requires '/' !in a
    ensures Split(a) == [a]
  {}

  lemma {:induction false} SplitJoin(a: string, b: string)
    ensures Split(a + "/" + b) == Split(a) + Split(b)
    decreases |a|
  {
    hide Split, Cut;
    if '/' !in a {
      assert a + "/" + b == a + ['/'] + b;
      SplitAt(a + "/" + b, a, b);
      SplitWhole(a);
    } else {
      var (x, y) := Cut(a, '/').value;
      SplitJoin(y, b);
      SplitAt(a, x, y);
      assert a + "/" + b == x + ['/'] + (y + "/" + b);
      SplitAt(a + "/" + b, x, y + "/" + b);
    }
  }

  lemma {:induction false} NonEmptyJoin(a: seq<string>, b: seq<string>)
    ensures NonEmpty(a + b) == NonEmpty(a) + NonEmpty(b)
  {
    if |b| == 0 {
      assert a + b == a;
    } else {
      var init := b[..|b| - 1];
      NonEmptyJoin(a, init);
      assert (a + b)[..|a + b| - 1] == a + init;
    }
  }

  /** Segments split at slashes. */
  lemma SegsJoin(a: string, b: string)
    ensures Segs(a + "/" + b) == Segs(a) + Segs(b)
  {
    SplitJoin(a, b);
    NonEmptyJoin(Split(a), Split(b));
    hide Split, NonEmpty;
  }

  lemma SegsOfNothing()
    ensures Segs("") == []
  {
    assert Split("") == [""];
    assert [""][..0] == [];
  }

  /** However many slashes: an extra one in front, behind or in between changes nothing. */
  lemma ExtraSlashes(a: string, b: string)
    ensures Segs("/" + a) == Segs(a) == Segs(a + "/")
    ensures Segs(a + "//" + b) == Segs(a + "/" + b)
  {
    hide Segs;
    SegsOfNothing();
    assert "/" + a == "" + "/" + a && a + "/" == a + "/" + "" && a + "//" + b == a + "/" + ("" + "/" + b);
    SegsJoin("", a);
    SegsJoin(a, "");
    SegsJoin(a, b);
    SegsJoin("", b);
    SegsJoin(a, "" + "/" + b);
  }

  /** A path in normal form. */
  function Render(segs: seq<string>): string {
    if |segs| == 0 then "" else Render(segs[..|segs| - 1]) + "/" + segs[|segs| - 1]
  }

  lemma SegsOfSegment(s: string)
    requires IsSegment(s)
    ensures Segs(s) == [s]
  {
    assert Split(s) == [s];
    assert NonEmpty([s][..0]) == [];
  }

  lemma {:induction false} SegsOfRender(segs: seq<string>)
    requires forall s :: s in segs ==> IsSegment(s)
    ensures Segs(Render(segs)) == segs
  {
    hide Segs;
    if |segs| > 0 {
      var init, last := segs[..|segs| - 1], segs[|segs| - 1];
      assert segs == init + [last];
      SegsOfRender(init);
      SegsJoin(Render(init), last);
      SegsOfSegment(last);
    } else {
      SegsOfNothing();
    }
  }

  // ----- matching -----

  /** A brace-delimited segment, which stands for any segment. */
  predicate IsHole(s: string) {
    |s| > 0 && s[0] == '{' && s[|s| - 1] == '}'
  }

  lemma HoleIff(s: string)
    ensures IsHole(s) <==> exists name :: s == "{" + name + "}"
  {
    if IsHole(s) {
      assert s == "{" + s[1..|s| - 1] + "}";
    }
  }

  predicate MatchSegs(ps: seq<string>, rs: seq<string>) {
    |ps| == |rs| && forall i :: 0 <= i < |ps| ==> IsHole(ps[i]) || ps[i] == rs[i]
  }

  predicate Matches(pattern: string, path: string) {
    MatchSegs(Segs(pattern), Segs(path))
  }

  method SplitPath(path: string) returns (segs: seq<string>)
    ensures segs == Segs(path)
  {
    var split := Split(path);
    var parts := new string[|split|](i requires 0 <= i < |split| => split[i]);
    assert parts[..] == split;
    var n := Compact(parts);
    segs := parts[..n];
  }

  method MatchPath(pattern: string, path: string) returns (r: bool)
    ensures r == Matches(pattern, path)
  {
    var ps := SplitPath(pattern);
    var rs := SplitPath(path);
    if |ps| != |rs| {
      return false;
    }
    SegsAreSegments(path);
    for i := 0 to |ps|
      invariant forall j :: 0 <= j < i ==> IsHole(ps[j]) || ps[j] == rs[j]
    {
      assert IsSegment(rs[i]);
      if IsHole(ps[i]) {
        if rs[i] == "" {
          assert false;
        }
      } else if ps[i] != rs[i] {
        return false;
      }
    }
    return true;
  }

  /** The pattern with its holes filled from `vals`. */
  function Fill(ps: seq<string>, vals: seq<string>): (r: seq<string>)
    requires |vals| == |ps|
    ensures |r| == |ps| && forall i :: 0 <= i < |r| ==> r[i] == if IsHole(ps[i]) then vals[i] else ps[i]
  {
    seq(|ps|, i requires 0 <= i < |ps| => if IsHole(ps[i]) then vals[i] else ps[i])
  }

  ghost predicate Fits(ps: seq<string>, vals: seq<string>) {
    |vals| == |ps| && forall v :: v in vals ==> IsSegment(v)
  }

  lemma FillSegments(pattern: string, vals: seq<string>)
    requires Fits(Segs(pattern), vals)
    ensures Segs(Render(Fill(Segs(pattern), vals))) == Fill(Segs(pattern), vals)
  {
    SegsAreSegments(pattern);
    var filled := Fill(Segs(pattern), vals);
    forall s | s in filled
      ensures IsSegment(s)
    {
      var i :| 0 <= i < |filled| && filled[i] == s;
      assert vals[i] in vals && Segs(pattern)[i] in Segs(pattern);
    }
    SegsOfRender(filled);
  }

  /**
   * A path matches a pattern exactly when some segments put in the place of the pattern's holes
   * turn the pattern into the path, both in normal form.
   */
  lemma MatchIffSubstitution(pattern: string, path: string)
    ensures Matches(pattern, path) <==>
            exists vals :: Fits(Segs(pattern), vals) && Render(Fill(Segs(pattern), vals)) == Render(Segs(path))
  {
    var ps, rs := Segs(pattern), Segs(path);
    SegsAreSegments(path);
    SegsOfRender(rs);
    hide Segs, Render;
    if Matches(pattern, path) {
      assert Fits(ps, rs) && Fill(ps, rs) == rs;
    }
    if vals :| Fits(ps, vals) && Render(Fill(ps, vals)) == Render(rs) {
      FillSegments(pattern, vals);
      assert rs == Fill(ps, vals);
    }
  }

  // ----- subsumption -----

  /** Every path that `q` matches is matched by `p`, judged by the patterns alone. */
  predicate Subsumes(p: string, q: string) {
    var ps, qs := Segs(p), Segs(q);
    |ps| == |qs| && forall i :: 0 <= i < |ps| ==> IsHole(ps[i]) || (!IsHole(qs[i]) && ps[i] == qs[i])
  }

  function Repeat(n: nat): (s: string)
    ensures |s| == n && forall i :: 0 <= i < n ==> s[i] == 'x'
  {
    seq(n, _ => 'x')
  }

  function Fresh(k: nat, n: nat): seq<string> {
    seq(k, _ => Repeat(n + 1))
  }

  /** A path that `q` matches, with segments longer than `n` in all its holes. */
  function Sample(q: string, n: nat): string {
    Render(Fill(Segs(q), Fresh(|Segs(q)|, n)))
  }

  /** A pattern whose segments are no longer than `n` matches the sample iff it subsumes `q`. */
  lemma SampleDecides(p: string, q: string, n: nat)
    requires forall i :: 0 <= i < |Segs(p)| ==> |Segs(p)[i]| <= n
    ensures Matches(p, Sample(q, n)) <==> Subsumes(p, q)
  {
    hide Segs, Render;
    var ps, qs, vals := Segs(p), Segs(q), Fresh(|Segs(q)|, n);
    FillSegments(q, vals);
    assert forall i :: 0 <= i < |ps| ==> ps[i] != Repeat(n + 1);
  }

  lemma SampleMatches(q: string, n: nat)
    ensures Matches(q, Sample(q, n))
  {
    FillSegments(q, Fresh(|Segs(q)|, n));
  }

  lemma SubsumedMatches(p: string, q: string, path: string)
    requires Subsumes(p, q) && Matches(q, path)
    ensures Matches(p, path)
  {}

  function MaxLength(segs: seq<string>): (n: nat)
    ensures forall i :: 0 <= i < |segs| ==> |segs[i]| <= n
  {
    if |segs| == 0 then 0
    else
      var n := MaxLength(segs[1..]);
      assert forall i :: 1 <= i < |segs| ==> segs[i] == segs[1..][i - 1];
      if |segs[0]| > n then |segs[0]| else n
  }

  /** The syntactic test is exact. */
  lemma SubsumesIff(p: string, q: string)
    ensures Subsumes(p, q) <==> forall path :: Matches(q, path) ==> Matches(p, path)
  {
    var n := MaxLength(Segs(p));
    SampleMatches(q, n);
    SampleDecides(p, q, n);
  }

  // ----- dispatch -----

  datatype Route = Route(verb: string, path: string)

  function Upper(c: char): char {
    if 'a' <= c <= 'z' then c - 'a' + 'A' else c
  }

  function Fold(s: string): (r: string)
    ensures |r| == |s| && forall i :: 0 <= i < |s| ==> r[i] == Upper(s[i])
  {
    seq(|s|, i requires 0 <= i < |s| => Upper(s[i]))
  }

  /** The same letters up to the case of a to z, as character codes: 32 lies between the cases. */
  ghost predicate SameFolded(s: string, t: string) {
    && |s| == |t|
    && forall i :: 0 <= i < |s| ==>
         || s[i] == t[i]
         || (97 <= s[i] as int <= 122 && t[i] as int == s[i] as int - 32)
         || (97 <= t[i] as int <= 122 && s[i] as int == t[i] as int - 32)
  }

  lemma UpperIff(c: char, d: char)
    ensures Upper(c) == Upper(d) <==>
            || c == d
            || (97 <= c as int <= 122 && d as int == c as int - 32)
            || (97 <= d as int <= 122 && c as int == d as int - 32)
  {}

  lemma FoldIff(s: string, t: string)
    ensures Fold(s) == Fold(t) <==> SameFolded(s, t)
  {
    assert Fold(s) == Fold(t) <==> |s| == |t| && forall i :: 0 <= i < |s| ==> Fold(s)[i] == Fold(t)[i];
    if |s| == |t| {
      forall i | 0 <= i < |s|
        ensures Fold(s)[i] == Fold(t)[i] <==>
                || s[i] == t[i]
                || (97 <= s[i] as int <= 122 && t[i] as int == s[i] as int - 32)
                || (97 <= t[i] as int <= 122 && s[i] as int == t[i] as int - 32)
      {
        UpperIff(s[i], t[i]);
      }
    }
  }

  predicate Serves(r: Route, verb: string, path: string) {
    Fold(r.verb) == Fold(verb) && Matches(r.path, path)
  }

  /** The first route that serves the request, if any. */
  ghost predicate IsFirst(routes: seq<Route>, verb: string, path: string, i: nat) {
    i < |routes| && Serves(routes[i], verb, path) && forall j :: 0 <= j < i ==> !Serves(routes[j], verb, path)
  }

  method MatchEntry(routes: seq<Route>, verb: string, path: string) returns (r: Option<nat>)
    ensures match r
            case Some(i) => IsFirst(routes, verb, path, i)
            case None => forall j :: 0 <= j < |routes| ==> !Serves(routes[j], verb, path)
  {
    for i := 0 to |routes|
      invariant forall j :: 0 <= j < i ==> !Serves(routes[j], verb, path)
    {
      if Fold(routes[i].verb) == Fold(verb) {
        var m := MatchPath(routes[i].path, path);
        if m {
          return Some(i);
        }
      }
    }
    return None;
  }

  function LongestSegment(routes: seq<Route>): (n: nat)
    ensures forall i, k :: 0 <= i < |routes| && 0 <= k < |Segs(routes[i].path)| ==> |Segs(routes[i].path)[k]| <= n
  {
    if |routes| == 0 then 0
    else
      var n, m := LongestSegment(routes[1..]), MaxLength(Segs(routes[0].path));
      assert forall i :: 1 <= i < |routes| ==> routes[i] == routes[1..][i - 1];
      if m > n then m else n
  }

  /**
   * A route can be chosen at all exactly when no earlier route of the same method subsumes it:
   * single subsumption is the only way to be shadowed, even by many routes together.
   */
  lemma ReachableIff(routes: seq<Route>, j: nat)
    requires j < |routes|
    ensures (exists verb, path :: IsFirst(routes, verb, path, j)) <==>
            forall i :: 0 <= i < j && Fold(routes[i].verb) == Fold(routes[j].verb) ==>
              !Subsumes(routes[i].path, routes[j].path)
  {
    var n := LongestSegment(routes);
    var verb, path := routes[j].verb, Sample(routes[j].path, n);
    SampleMatches(routes[j].path, n);
    if forall i :: 0 <= i < j && Fold(routes[i].verb) == Fold(routes[j].verb) ==>
         !Subsumes(routes[i].path, routes[j].path) {
      forall i | 0 <= i < j
        ensures !Serves(routes[i], verb, path)
      {
        SampleDecides(routes[i].path, routes[j].path, n);
      }
      assert IsFirst(routes, verb, path, j);
    }
    if v, p :| IsFirst(routes, v, p, j) {
      forall i | 0 <= i < j && Fold(routes[i].verb) == Fold(routes[j].verb)
        ensures !Subsumes(routes[i].path, routes[j].path)
      {
        assert !Serves(routes[i], v, p);
        if Subsumes(routes[i].path, routes[j].path) {
          SubsumedMatches(routes[i].path, routes[j].path, p);
        }
      }
    }
  }
}
