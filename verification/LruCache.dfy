/**
 * The bounded LRU+TTL cache shared in shape by tenant-injector and license-check: a recency
 * list and a map from key to list element, updated in place under the plugin's mutex. Each
 * method is one critical section; the clock value it reads inside the lock is a parameter.
 */
module LruCache {
  import opened Common
  import opened Lru
  import opened RecencyList

  ghost predicate Has<V>(c: Recency<V>, key: string) {
    exists i :: 0 <= i < |c| && c[i].key == key
  }

  /**
   * The recency list `c`, carried by the elements of `ring` behind the root, and the map `m` are
   * in bijection: every element is filed under the key it carries, and nothing else is filed.
   */
  ghost predicate Linked<V(0)>(c: Recency<V>, ring: seq<Element<V>>, m: map<string, Element<V>>) {
    && |ring| == |c| + 1
    && (forall i :: 0 <= i < |c| ==> c[i].key in m && m[c[i].key] == ring[i + 1])
    && (forall k :: k in m ==> Has(c, k))
  }

  /** The position of a filed key. */
  lemma LinkedFind<V(0)>(c: Recency<V>, ring: seq<Element<V>>, m: map<string, Element<V>>, key: string) returns (i: nat)
    requires Linked(c, ring, m) && key in m
    ensures i == Find(c, key) < |c| && m[key] == ring[i + 1] && c[i].key == key
  {
    i := Find(c, key);
  }

  lemma LinkedAbsent<V(0)>(c: Recency<V>, ring: seq<Element<V>>, m: map<string, Element<V>>, key: string)
    requires Linked(c, ring, m) && key !in m
    ensures Find(c, key) == |c| && !Has(c, key)
  {}

  lemma LinkedWellFormed<V(0)>(c: Recency<V>, ring: seq<Element<V>>, m: map<string, Element<V>>)
    requires Linked(c, ring, m) && Injective(ring)
    ensures WellFormed(c, |c|)
  {
    forall i, j | 0 <= i < j < |c|
      ensures c[i].key != c[j].key
    {
      assert ring[i + 1] != ring[j + 1];
    }
  }

  lemma LinkedRemove<V(0)>(c: Recency<V>, ring: seq<Element<V>>, m: map<string, Element<V>>, i: nat)
    requires Linked(c, ring, m) && Injective(ring) && i < |c|
    ensures Linked(RemoveAt(c, i), RemoveAt(ring, i + 1), m - {c[i].key})
    ensures !Has(RemoveAt(c, i), c[i].key)
  {
    var c', ring', m' := RemoveAt(c, i), RemoveAt(ring, i + 1), m - {c[i].key};
    forall j | 0 <= j < |c'|
      ensures c'[j].key in m' && m'[c'[j].key] == ring'[j + 1]
    {
      var was := if j < i then j else j + 1;
      assert c'[j] == c[was] && ring'[j + 1] == ring[was + 1] && ring[was + 1] != ring[i + 1];
    }
    forall k | k in m'
      ensures Has(c', k)
    {
      var j :| 0 <= j < |c| && c[j].key == k;
      assert c'[if j < i then j else j - 1].key == k;
    }
  }

  lemma LinkedPush<V(0)>(c: Recency<V>, ring: seq<Element<V>>, m: map<string, Element<V>>,
                           entry: Entry<V>, e: Element<V>)
    requires Linked(c, ring, m) && !Has(c, entry.key)
    ensures Linked([entry] + c, [ring[0], e] + ring[1..], m[entry.key := e])
  {
    var c', ring', m' := [entry] + c, [ring[0], e] + ring[1..], m[entry.key := e];
    forall j | 0 <= j < |c'|
      ensures c'[j].key in m' && m'[c'[j].key] == ring'[j + 1]
    {
      assert j > 0 ==> c'[j] == c[j - 1] && ring'[j + 1] == ring[j];
    }
    forall k | k in m'
      ensures Has(c', k)
    {
      if k == entry.key {
        assert c'[0].key == k;
      } else {
        var j :| 0 <= j < |c| && c[j].key == k;
        assert c'[j + 1].key == k;
      }
    }
  }

  lemma LinkedMove<V(0)>(c: Recency<V>, ring: seq<Element<V>>, m: map<string, Element<V>>, i: nat)
    requires Linked(c, ring, m) && Injective(ring) && i < |c|
    ensures Linked([c[i]] + RemoveAt(c, i), [ring[0], ring[i + 1]] + RemoveAt(ring, i + 1)[1..], m)
  {
    LinkedRemove(c, ring, m, i);
    LinkedPush(RemoveAt(c, i), RemoveAt(ring, i + 1), m - {c[i].key}, c[i], ring[i + 1]);
    assert (m - {c[i].key})[c[i].key := ring[i + 1]] == m;
  }

  lemma LinkedUpdate<V(0)>(c: Recency<V>, ring: seq<Element<V>>, m: map<string, Element<V>>, i: nat, entry: Entry<V>)
    requires Linked(c, ring, m) && i < |c| && entry.key == c[i].key
    ensures Linked(c[i := entry], ring, m)
    ensures RemoveAt(c[i := entry], i) == RemoveAt(c, i)
  {
    forall k | k in m
      ensures Has(c[i := entry], k)
    {
      var j :| 0 <= j < |c| && c[j].key == k;
      assert c[i := entry][j].key == k;
    }
  }

  lemma PushedFrame<A>(before: seq<A>, room: seq<A>, after: seq<A>)
    requires forall j :: 0 <= j < |room| ==> room[j] in before
    requires |room| > 0 && |after| > 1 && after == [room[0], after[1]] + room[1..]
    ensures forall j :: 0 <= j < |after| ==> after[j] in before || after[j] == after[1]
  {}

  /** What a write keeps when its key is absent. */
  lemma KeptAbsent<V>(c: Recency<V>, key: string, maxSize: nat)
    requires Find(c, key) == |c| && !Has(c, key) && maxSize >= 1
    ensures Kept(c, key, maxSize) == if |c| >= maxSize then c[..|c| - 1] else c
    ensures !Has(Kept(c, key, maxSize), key)
  {}

  class Cache<V(0)> {
    const maxSize: nat
    var lruList: List<V>
    var lruMap: map<string, Element<V>>

    ghost predicate Valid()
      reads this, lruList, lruList.ring
    {
      && 1 <= maxSize && lruList.Valid() && lruList.len <= maxSize
      && Linked(lruList.contents, lruList.ring, lruMap)
    }

    /** The entries, most recently used first. */
    ghost function Contents(): Recency<V>
      reads this, lruList
    {
      lruList.contents
    }

    constructor (maxSize: nat)
      requires maxSize >= 1
      ensures Valid() && fresh(lruList) && fresh(lruList.ring)
      ensures this.maxSize == maxSize && Contents() == []
    {
      this.maxSize := maxSize;
      this.lruList := new List<V>();
      this.lruMap := map[];
    }

    /** Drops the element at position `i` from the list and its key from the map. */
    method Discard(el: Element<V>, ghost i: nat)
      requires Valid() && i < lruList.len && lruList.ring[i + 1] == el
      modifies this`lruMap, lruList, lruList.ring
      ensures Valid() && forall j :: 0 <= j < |lruList.ring| ==> lruList.ring[j] in old(lruList.ring)
      ensures Contents() == old(RemoveAt(Contents(), i))
      ensures !Has(Contents(), old(Contents()[i].key))
    {
      LinkedRemove(Contents(), lruList.ring, lruMap, i);
      lruMap := lruMap - {el.key};
      lruList.Remove(el, i + 1);
    }

    /** Moves the element at position `i` to the front. */
    method Promote(el: Element<V>, ghost i: nat)
      requires Valid() && i < lruList.len && lruList.ring[i + 1] == el
      modifies lruList, lruList.ring
      ensures Valid() && forall j :: 0 <= j < |lruList.ring| ==> lruList.ring[j] in old(lruList.ring)
      ensures Contents() == old([Contents()[i]] + RemoveAt(Contents(), i))
    {
      LinkedMove(Contents(), lruList.ring, lruMap, i);
      lruList.MoveToFront(el, i + 1);
    }

    /** Overwrites the entry of a known key and moves it to the front. */
    method Renew(key: string, value: V, expiresAt: int)
      requires Valid() && key in lruMap
      modifies lruList, lruList.ring
      ensures Valid() && forall j :: 0 <= j < |lruList.ring| ==> lruList.ring[j] in old(lruList.ring)
      ensures Contents() == Set(old(Contents()), key, value, expiresAt, maxSize)
    {
      var el := lruMap[key];
      ghost var c, entry := Contents(), Entry(key, value, expiresAt);
      ghost var i := LinkedFind(c, lruList.ring, lruMap, key);
      LinkedUpdate(c, lruList.ring, lruMap, i, entry);
      assert Set(c, key, value, expiresAt, maxSize) == [entry] + RemoveAt(c, i);
      hide Set, Kept, Find, Has, Linked;
      lruList.Overwrite(el, i + 1, value, expiresAt);
      Promote(el, i);
    }

    /** Adds an entry for a new key at the front. */
    method Insert(key: string, value: V, expiresAt: int)
      requires Valid() && lruList.len < maxSize && !Has(Contents(), key)
      modifies this`lruMap, lruList, lruList.ring
      ensures Valid() && |lruList.ring| > 1 && fresh(lruList.ring[1])
      ensures lruList.ring == [old(lruList.ring[0]), lruList.ring[1]] + old(lruList.ring[1..])
      ensures Contents() == [Entry(key, value, expiresAt)] + old(Contents())
    {
      var el := new Element<V>(key, value, expiresAt);
      LinkedPush(Contents(), lruList.ring, lruMap, el.Entry(), el);
      lruList.PushFront(el);
      lruMap := lruMap[key := el];
    }

    /** Makes room for one entry by dropping the tail of a full list. */
    method EvictWhenFull()
      requires Valid()
      modifies this`lruMap, lruList, lruList.ring
      ensures Valid() && lruList.len < maxSize
      ensures forall j :: 0 <= j < |lruList.ring| ==> lruList.ring[j] in old(lruList.ring)
      ensures old(|Contents()|) >= maxSize ==> Contents() == old(Contents()[..|Contents()| - 1])
      ensures old(|Contents()|) < maxSize ==> Contents() == old(Contents())
    {
      if lruList.len >= maxSize {
        var tail := lruList.Back();
        if tail != null {
          Discard(tail, lruList.len - 1);
        }
      }
    }

    /** Adds an entry for a new key, dropping the tail of a full list first. */
    method Add(key: string, value: V, expiresAt: int)
      requires Valid() && key !in lruMap
      modifies this`lruMap, lruList, lruList.ring
      ensures Valid()
      ensures forall j :: 0 <= j < |lruList.ring| ==> lruList.ring[j] in old(lruList.ring) || fresh(lruList.ring[j])
      ensures Contents() == Set(old(Contents()), key, value, expiresAt, maxSize)
    {
      ghost var c, before := Contents(), lruList.ring;
      LinkedAbsent(c, before, lruMap, key);
      KeptAbsent(c, key, maxSize);
      EvictWhenFull();
      assert Contents() == Kept(c, key, maxSize);
      hide Kept, Find, Has, Linked;
      ghost var room := lruList.ring;
      Insert(key, value, expiresAt);
      PushedFrame(before, room, lruList.ring);
    }

    method CacheGet(key: string, now: int) returns (r: Option<V>)
      requires Valid()
      modifies this`lruMap, lruList, lruList.ring
      ensures Valid() && forall j :: 0 <= j < |lruList.ring| ==> lruList.ring[j] in old(lruList.ring)
      ensures (Contents(), r) == Get(old(Contents()), key, now)
    {
      ghost var c := Contents();
      if key !in lruMap {
        LinkedAbsent(c, lruList.ring, lruMap, key);
        return None;
      }
      var el := lruMap[key];
      ghost var i := LinkedFind(c, lruList.ring, lruMap, key);
      if now > el.expiresAt {
        Discard(el, i);
        r := None;
      } else {
        r := Some(el.value);
        Promote(el, i);
      }
    }

    method CacheSet(key: string, value: V, now: int, ttl: int)
      requires Valid()
      modifies this`lruMap, lruList, lruList.ring
      ensures Valid()
      ensures forall j :: 0 <= j < |lruList.ring| ==> lruList.ring[j] in old(lruList.ring) || fresh(lruList.ring[j])
      ensures Contents() == Set(old(Contents()), key, value, now + ttl, maxSize)
    {
      hide *;
      if key in lruMap {
        Renew(key, value, now + ttl);
      } else {
        Add(key, value, now + ttl);
      }
    }
  }
}
