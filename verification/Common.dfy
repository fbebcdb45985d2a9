/** Datatypes and sequence facts that several components share. */
module Common {

  datatype Option<+T> = None | Some(value: T)

  datatype Result<+T, +E> = Ok(value: T) | Err(error: E)

  /** A Go map of integers: a missing key reads as zero. */
  function At<K>(m: map<K, int>, k: K): int {
    if k in m then m[k] else 0
  }

  function Add<K>(m: map<K, int>, k: K, d: int): map<K, int> {
    m[k := At(m, k) + d]
  }

  /** From `before` to `after` exactly the entry of `k` moves, by `d`, and no other entry comes or goes. */
  ghost predicate Moves<K(!new)>(before: map<K, int>, after: map<K, int>, k: K, d: int) {
    && k in after && after[k] == At(before, k) + d
    && (forall j :: j != k ==> (j in after <==> j in before))
    && (forall j :: j != k && j in before ==> after[j] == before[j])
  }

  /** `s` without the element at index `i`. */
  function RemoveAt<T>(s: seq<T>, i: nat): (r: seq<T>)
    requires i < |s|
    ensures |r| == |s| - 1
    ensures forall j :: 0 <= j < |r| ==> r[j] == s[if j < i then j else j + 1]
  {
    s[..i] + s[i + 1..]
  }

  ghost predicate Injective<T>(s: seq<T>) {
    forall i, j :: 0 <= i < j < |s| ==> s[i] != s[j]
  }

  lemma RemoveAtInjective<T>(s: seq<T>, i: nat)
    requires Injective(s) && i < |s|
    ensures Injective(RemoveAt(s, i)) && s[i] !in RemoveAt(s, i)
  {
    var r := RemoveAt(s, i);
    assert forall j :: 0 <= j < |r| ==> r[j] == s[if j < i then j else j + 1];
  }

  lemma InjectivePrepend<T>(x: T, s: seq<T>)
    requires Injective(s) && x !in s
    ensures Injective([x] + s)
  {}

  /** A sequence without repetitions has as many members as it has positions. */
  lemma {:induction false} InjectiveCardinality<T>(s: seq<T>)
    requires Injective(s)
    ensures |set x | x in s| == |s|
  {
    if |s| == 0 {
      assert (set x | x in s) == {};
    } else {
      var init, last := s[..|s| - 1], s[|s| - 1];
      InjectiveCardinality(init);
      assert (set x | x in s) == (set x | x in init) + {last};
    }
  }

  lemma SubsetCardinality<T>(small: set<T>, large: set<T>)
    requires small <= large
    ensures |small| <= |large|
  {
    assert large == small + (large - small);
  }

  /** `s` around the first `c`. */
  function Cut(s: string, c: char): (r: Option<(string, string)>)
    ensures r.None? <==> c !in s
    ensures r.Some? ==> s == r.value.0 + [c] + r.value.1 && c !in r.value.0
  {
    if |s| == 0 then None
    else if s[0] == c then Some(("", s[1..]))
    else match Cut(s[1..], c)
      case None => None
      case Some(p) => assert s == [s[0]] + s[1..]; Some(([s[0]] + p.0, p.1))
  }

  lemma CutIs(s: string, a: string, c: char, b: string)
    requires s == a + [c] + b && c !in a
    ensures Cut(s, c) == Some((a, b))
  {
    var p := Cut(s, c).value;
    assert forall j :: 0 <= j < |a| ==> s[j] == a[j] && a[j] != c;
    assert forall j :: 0 <= j < |p.0| ==> s[j] == p.0[j] && p.0[j] != c;
    assert s[|a|] == s[|p.0|] == c;
    assert p.0 == s[..|a|] == a && p.1 == s[|a| + 1..] == b;
  }
}
