/**
 * The order of a recency list, as keys: a use of a key moves it to the front, and what is cut off
 * is cut off at the end. `history` lists the keys in the order in which they were used.
 */
module RecencyOrder {
  import opened Common
  import opened Lru

  function IndexOf(ks: seq<string>, k: string): (i: nat)
    ensures i <= |ks|
    ensures i < |ks| ==> ks[i] == k
    ensures forall j :: 0 <= j < i ==> ks[j] != k
  {
    if |ks| == 0 then 0 else if ks[0] == k then 0 else 1 + IndexOf(ks[1..], k)
  }

  function Without(ks: seq<string>, k: string): seq<string> {
    var i := IndexOf(ks, k);
    if i < |ks| then RemoveAt(ks, i) else ks
  }

  function Take(ks: seq<string>, n: nat): (r: seq<string>)
    ensures |r| == if |ks| <= n then |ks| else n
    ensures forall i :: 0 <= i < |r| ==> r[i] == ks[i]
  {
    if |ks| <= n then ks else ks[..n]
  }

  lemma WithoutEffect(ks: seq<string>, k: string)
    requires Injective(ks)
    ensures Injective(Without(ks, k))
    ensures forall x :: x in Without(ks, k) <==> x in ks && x != k
  {
    var p, r := IndexOf(ks, k), Without(ks, k);
    if p < |ks| {
      RemoveAtInjective(ks, p);
      forall x | x in ks && x != k
        ensures x in r
      {
        var j :| 0 <= j < |ks| && ks[j] == x;
        assert r[if j < p then j else j - 1] == x;
      }
    }
  }

  lemma TakeWithout(ks: seq<string>, k: string, n: nat)
    requires Injective(ks) && n >= 1
    ensures Take([k] + Without(Take(ks, n), k), n) == Take([k] + Without(ks, k), n)
  {
    var p := IndexOf(ks, k);
    var q := IndexOf(Take(ks, n), k);
    assert p < |ks| && p < n ==> Take(ks, n)[p] == k;
    assert q < |Take(ks, n)| ==> ks[q] == k;
  }

  // ----- order by last use -----

  /** The position of the last use of `k`, or -1. */
  function LastUse(history: seq<string>, k: string): (i: int)
    ensures -1 <= i < |history|
    ensures i >= 0 ==> history[i] == k
    ensures forall j :: i < j < |history| ==> history[j] != k
  {
    if |history| == 0 then -1
    else if history[|history| - 1] == k then |history| - 1
    else LastUse(history[..|history| - 1], k)
  }

  /** The keys appear in the order of their last uses, the latest first. */
  ghost predicate LatestFirst(history: seq<string>, ks: seq<string>) {
    forall i, j :: 0 <= i < j < |ks| ==> LastUse(history, ks[i]) > LastUse(history, ks[j])
  }

  lemma LastUseAfter(history: seq<string>, x: string, k: string)
    ensures LastUse(history + [x], k) == if k == x then |history| else LastUse(history, k)
  {
    assert (history + [x])[..|history|] == history;
  }

  lemma WithoutLatestFirst(history: seq<string>, ks: seq<string>, k: string)
    requires LatestFirst(history, ks)
    ensures LatestFirst(history, Without(ks, k))
  {
    hide LastUse, IndexOf;
    var p, rest := IndexOf(ks, k), Without(ks, k);
    forall i, j | 0 <= i < j < |rest|
      ensures LastUse(history, rest[i]) > LastUse(history, rest[j])
    {
      var i', j' := if i < p then i else i + 1, if j < p then j else j + 1;
      if p < |ks| {
        assert ks[i'] == rest[i] && ks[j'] == rest[j];
      }
    }
  }

  lemma PrependLatestFirst(history: seq<string>, rest: seq<string>, k: string)
    requires LatestFirst(history, rest) && k !in rest
    ensures LatestFirst(history + [k], [k] + rest)
  {
    var ks := [k] + rest;
    forall i | 0 <= i < |ks|
      ensures LastUse(history + [k], ks[i]) == if i == 0 then |history| else LastUse(history, rest[i - 1])
    {
      assert i > 0 ==> rest[i - 1] in rest;
      LastUseAfter(history, k, ks[i]);
    }
  }

  lemma OtherKeysLatestFirst(history: seq<string>, ks: seq<string>, k: string)
    requires LatestFirst(history, ks) && k !in ks
    ensures LatestFirst(history + [k], ks)
  {
    forall i | 0 <= i < |ks|
      ensures LastUse(history + [k], ks[i]) == LastUse(history, ks[i])
    {
      LastUseAfter(history, k, ks[i]);
    }
  }

  lemma TakeLatestFirst(history: seq<string>, ks: seq<string>, n: nat)
    requires LatestFirst(history, ks)
    ensures LatestFirst(history, Take(ks, n))
  {}

  /** A use moves its key to the front and may cut the end off; the order by last use is kept. */
  lemma UseKeepsOrder(history: seq<string>, ks: seq<string>, k: string, n: nat)
    requires LatestFirst(history, ks) && Injective(ks)
    ensures LatestFirst(history + [k], Take([k] + Without(ks, k), n))
  {
    hide LatestFirst, Without, Take;
    WithoutEffect(ks, k);
    WithoutLatestFirst(history, ks, k);
    PrependLatestFirst(history, Without(ks, k), k);
    TakeLatestFirst(history + [k], [k] + Without(ks, k), n);
  }

  /** The distinct keys of a history, the most recently used first. */
  function MostRecent(history: seq<string>): seq<string> {
    if |history| == 0 then []
    else
      var init, last := history[..|history| - 1], history[|history| - 1];
      [last] + Without(MostRecent(init), last)
  }

  /** `ks` lists the used keys, once each, the latest use first. */
  ghost predicate Ranks(history: seq<string>, ks: seq<string>) {
    && Injective(ks)
    && LatestFirst(history, ks)
    && (forall k :: k in ks <==> LastUse(history, k) >= 0)
  }

  lemma RanksStep(history: seq<string>, ks: seq<string>, x: string)
    requires Ranks(history, ks)
    ensures Ranks(history + [x], [x] + Without(ks, x))
  {
    hide LastUse, LatestFirst, Without, IndexOf;
    var rest := Without(ks, x);
    WithoutEffect(ks, x);
    InjectivePrepend(x, rest);
    WithoutLatestFirst(history, ks, x);
    PrependLatestFirst(history, rest, x);
    forall k
      ensures k in [x] + rest <==> LastUse(history + [x], k) >= 0
    {
      LastUseAfter(history, x, k);
      assert k in [x] + rest <==> k == x || k in rest;
    }
  }

  /** `MostRecent` is what its name says. */
  lemma {:induction false} MostRecentIsOrdered(history: seq<string>)
    ensures Ranks(history, MostRecent(history))
  {
    if |history| == 0 {
      assert history == [];
    } else {
      var init, last := history[..|history| - 1], history[|history| - 1];
      assert history == init + [last] && MostRecent(history) == [last] + Without(MostRecent(init), last);
      MostRecentIsOrdered(init);
      RanksStep(init, MostRecent(init), last);
    }
    hide *;
  }

  // ----- the keys of a list after a read or a write -----

  lemma {:induction false} FindIsIndexOf<V>(c: Recency<V>, k: string)
    ensures IndexOf(Keys(c), k) == Find(c, k)
  {
    if |c| > 0 {
      FindIsIndexOf(c[1..], k);
      assert Keys(c[1..]) == Keys(c)[1..];
    }
  }

  lemma KeysDistinct<V>(c: Recency<V>, maxSize: nat)
    requires WellFormed(c, maxSize)
    ensures Injective(Keys(c)) && |Keys(c)| <= maxSize
  {}

  lemma KeysAfterRemove<V>(c: Recency<V>, i: nat)
    requires i < |c|
    ensures Keys(RemoveAt(c, i)) == RemoveAt(Keys(c), i)
    ensures Keys([c[i]] + RemoveAt(c, i)) == [c[i].key] + RemoveAt(Keys(c), i)
  {}

  /** A hit moves its key to the front; a miss takes at most its own, stale, key out. */
  lemma KeysAfterGet<V>(c: Recency<V>, maxSize: nat, key: string, now: int)
    requires WellFormed(c, maxSize)
    ensures var (c', hit) := Get(c, key, now);
      Keys(c') == if hit.Some? then Take([key] + Without(Keys(c), key), maxSize) else Without(Keys(c), key)
  {
    hide Find, IndexOf, WellFormed;
    FindIsIndexOf(c, key);
    KeysDistinct(c, maxSize);
    var i := Find(c, key);
    if i < |c| {
      KeysAfterRemove(c, i);
    }
  }

  /** A write moves its key to the front, or puts it there and cuts the tail of a full list. */
  lemma KeysAfterSet<V>(c: Recency<V>, maxSize: nat, key: string, value: V, expiresAt: int)
    requires WellFormed(c, maxSize) && maxSize >= 1
    ensures Keys(Set(c, key, value, expiresAt, maxSize)) == Take([key] + Without(Keys(c), key), maxSize)
  {
    FindIsIndexOf(c, key);
    KeysDistinct(c, maxSize);
    var i, kept, entry := Find(c, key), Kept(c, key, maxSize), Entry(key, value, expiresAt);
    assert Keys([entry] + kept) == [key] + Keys(kept);
    hide Find, IndexOf, WellFormed;
    if i < |c| {
      assert Keys(kept) == RemoveAt(Keys(c), i);
    }
  }
}
