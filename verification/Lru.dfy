/**
 * The per-key LRU+TTL cache as a value: a recency list, most recently used entry first.
 *
 * Tenant-injector and license-check carry the same cache with different payloads, so the
 * payload is a type parameter. `LruCache` proves that the linked list and the map, updated in
 * place, compute exactly these functions.
 */
module Lru {
  import opened Common

  datatype Entry<V> = Entry(key: string, value: V, expiresAt: int)

  type Recency<V> = seq<Entry<V>>

  function Keys<V>(c: Recency<V>): (ks: seq<string>)
    ensures |ks| == |c|
    ensures forall i :: 0 <= i < |c| ==> ks[i] == c[i].key
  {
    seq(|c|, i requires 0 <= i < |c| => c[i].key)
  }

  /** What every operation keeps: no key twice, never more than `maxSize` entries. */
  ghost predicate WellFormed<V>(c: Recency<V>, maxSize: nat) {
    |c| <= maxSize && forall i, j :: 0 <= i < j < |c| ==> c[i].key != c[j].key
  }

  /** The position of `key`, or the length of the list when it is absent. */
  function Find<V>(c: Recency<V>, key: string): (i: nat)
    ensures i <= |c|
    ensures i < |c| ==> c[i].key == key
    ensures forall j :: 0 <= j < i ==> c[j].key != key
  {
    if |c| == 0 then 0
    else if c[0].key == key then 0
    else 1 + Find(c[1..], key)
  }

  /** A read at time `now`: an entry past its expiry is dropped, a live one moves to the front. */
  function Get<V>(c: Recency<V>, key: string, now: int): (Recency<V>, Option<V>) {
    var i := Find(c, key);
    if i == |c| then (c, None)
    else if now > c[i].expiresAt then (RemoveAt(c, i), None)
    else ([c[i]] + RemoveAt(c, i), Some(c[i].value))
  }

  /** What a write keeps of the old list. */
  function Kept<V>(c: Recency<V>, key: string, maxSize: nat): Recency<V> {
    var i := Find(c, key);
    if i < |c| then RemoveAt(c, i)
    else if |c| >= maxSize && |c| > 0 then c[..|c| - 1]
    else c
  }

  /** A write: a known key is overwritten, a new one displaces the tail of a full list. */
  function Set<V>(c: Recency<V>, key: string, value: V, expiresAt: int, maxSize: nat): Recency<V> {
    [Entry(key, value, expiresAt)] + Kept(c, key, maxSize)
  }

  /** In a well-formed list an entry is determined by its key. */
  lemma FindUnique<V>(c: Recency<V>, maxSize: nat, i: nat)
    requires WellFormed(c, maxSize) && i < |c|
    ensures Find(c, c[i].key) == i
  {}

  /** Taking out the entry for a key leaves exactly the entries with other keys. */
  lemma RemoveMembers<V>(c: Recency<V>, maxSize: nat, i: nat)
    requires WellFormed(c, maxSize) && i < |c|
    ensures forall e :: e in RemoveAt(c, i) <==> e in c && e.key != c[i].key
    ensures forall e :: e in c && e.key == c[i].key <==> e == c[i]
    ensures WellFormed(RemoveAt(c, i), maxSize)
  {
    var r := RemoveAt(c, i);
    forall e | e in c && e.key != c[i].key
      ensures e in r
    {
      var j :| 0 <= j < |c| && c[j] == e;
      assert r[if j < i then j else j - 1] == e;
    }
  }

  /** The live entry for `key` at `now`, if there is one. */
  ghost predicate Live<V>(c: Recency<V>, e: Entry<V>, now: int) {
    e in c && now <= e.expiresAt
  }

  /**
   * A read is a hit exactly on a live entry for the key, answers with that entry's value,
   * introduces nothing and drops nothing but the key's own expired entry; in particular no
   * surviving entry's expiry changes.
   */
  lemma GetEffect<V>(c: Recency<V>, maxSize: nat, key: string, now: int)
    requires WellFormed(c, maxSize)
    ensures var (c', r) := Get(c, key, now);
      && WellFormed(c', maxSize)
      && (forall v :: r == Some(v) <==> exists e :: Live(c, e, now) && e.key == key && e.value == v)
      && (forall e :: e in c' <==> e in c && (e.key == key ==> now <= e.expiresAt))
      && (r.Some? ==> |c'| > 0 && c'[0].key == key)
  {
    var i := Find(c, key);
    if i < |c| {
      RemoveMembers(c, maxSize, i);
      assert Get(c, key, now).1.Some? ==> Live(c, c[i], now);
    }
  }

  lemma KeptEffect<V>(c: Recency<V>, maxSize: nat, key: string)
    requires WellFormed(c, maxSize) && maxSize >= 1
    ensures var rest := Kept(c, key, maxSize);
      && WellFormed(rest, maxSize - 1)
      && (forall e :: e in rest ==> e in c && e.key != key)
      && (forall e | e in c && e.key != key && e !in rest ::
            Find(c, key) == |c| == maxSize && e == c[|c| - 1])
  {
    var i := Find(c, key);
    if i < |c| {
      RemoveMembers(c, maxSize, i);
    } else if |c| >= maxSize {
      assert c == c[..|c| - 1] + [c[|c| - 1]];
    }
  }

  /**
   * After a write the key is at the front with the new payload, every other survivor is
   * untouched, and at most one entry is lost: the tail, only when the key is new and the list full.
   */
  lemma SetEffect<V>(c: Recency<V>, maxSize: nat, key: string, value: V, expiresAt: int)
    requires WellFormed(c, maxSize) && maxSize >= 1
    ensures var c' := Set(c, key, value, expiresAt, maxSize);
      && WellFormed(c', maxSize)
      && c'[0] == Entry(key, value, expiresAt)
      && (forall e :: e in c' && e.key == key ==> e == c'[0])
      && (forall e :: e in c' && e.key != key ==> e in c)
      && (forall e | e in c && e.key != key && e !in c' ::
            Find(c, key) == |c| == maxSize && e == c[|c| - 1])
  {
    KeptEffect(c, maxSize, key);
    var entry, rest := Entry(key, value, expiresAt), Kept(c, key, maxSize);
    var c' := [entry] + rest;
    assert Set(c, key, value, expiresAt, maxSize) == c';
    assert forall e :: e in c' <==> e == entry || e in rest;
  }

  lemma GetWellFormed<V>(c: Recency<V>, maxSize: nat, key: string, now: int)
    requires WellFormed(c, maxSize)
    ensures WellFormed(Get(c, key, now).0, maxSize)
  {
    GetEffect(c, maxSize, key, now);
  }

  lemma GetShrinks<V>(c: Recency<V>, key: string, now: int)
    ensures var (c', r) := Get(c, key, now);
      if r.Some? then |c'| == |c| else c' == c || |c'| < |c|
  {}

  lemma SetWellFormed<V>(c: Recency<V>, maxSize: nat, key: string, value: V, expiresAt: int)
    requires WellFormed(c, maxSize) && maxSize >= 1
    ensures WellFormed(Set(c, key, value, expiresAt, maxSize), maxSize)
  {
    SetEffect(c, maxSize, key, value, expiresAt);
  }

  /** The cache as a partial map: the entry filed under `key`. */
  function EntryOf<V>(c: Recency<V>, key: string): Option<Entry<V>> {
    var i := Find(c, key);
    if i < |c| then Some(c[i]) else None
  }

  lemma EntryOfMeaning<V>(c: Recency<V>, key: string)
    ensures EntryOf(c, key).Some? ==> EntryOf(c, key).value in c && EntryOf(c, key).value.key == key
    ensures EntryOf(c, key).None? <==> forall e :: e in c ==> e.key != key
  {
    var i := Find(c, key);
    assert i < |c| ==> c[i] in c;
  }

  lemma EntryOfMember<V>(c: Recency<V>, maxSize: nat, e: Entry<V>)
    requires WellFormed(c, maxSize)
    ensures e in c <==> EntryOf(c, e.key) == Some(e)
  {
    if e in c {
      var i :| 0 <= i < |c| && c[i] == e;
      FindUnique(c, maxSize, i);
    }
  }

  /** A read changes the partial map at most at its own key, and there only by dropping a stale entry. */
  lemma GetEntryOf<V>(c: Recency<V>, maxSize: nat, key: string, now: int, k: string)
    requires WellFormed(c, maxSize)
    ensures var (c', r) := Get(c, key, now);
      && r == (if EntryOf(c, key).Some? && now <= EntryOf(c, key).value.expiresAt then
                 Some(EntryOf(c, key).value.value) else None)
      && EntryOf(c', k) == (if k == key && r.None? then None else EntryOf(c, k))
  {
    var (c', r) := Get(c, key, now);
    GetEffect(c, maxSize, key, now);
    EntryOfMeaning(c, k);
    EntryOfMeaning(c', k);
    hide WellFormed, Find;
    if EntryOf(c, k).Some? {
      EntryOfMember(c', maxSize, EntryOf(c, k).value);
    }
  }

  /** A write sets its own key; another key's entry survives unless it is the tail of a full list. */
  lemma SetEntryOf<V>(c: Recency<V>, maxSize: nat, key: string, value: V, expiresAt: int, k: string)
    requires WellFormed(c, maxSize) && maxSize >= 1
    ensures var c' := Set(c, key, value, expiresAt, maxSize);
      && (k == key ==> EntryOf(c', k) == Some(Entry(key, value, expiresAt)))
      && (k != key && EntryOf(c', k) != EntryOf(c, k) ==>
            EntryOf(c', k).None? && EntryOf(c, key).None? && |c| == maxSize && EntryOf(c, k) == Some(c[|c| - 1]))
  {
    var c' := Set(c, key, value, expiresAt, maxSize);
    SetEffect(c, maxSize, key, value, expiresAt);
    EntryOfMeaning(c, k);
    EntryOfMeaning(c, key);
    EntryOfMeaning(c', k);
    hide WellFormed, Set;
    EntryOfMember(c', maxSize, Entry(key, value, expiresAt));
    if EntryOf(c, k).Some? {
      EntryOfMember(c', maxSize, EntryOf(c, k).value);
    }
    if EntryOf(c', k).Some? {
      EntryOfMember(c, maxSize, EntryOf(c', k).value);
    }
  }

  /** `c1` is what a missed read of `key` leaves of `c`. */
  ghost predicate AfterMiss<V>(c: Recency<V>, c1: Recency<V>, maxSize: nat, key: string) {
    WellFormed(c1, maxSize) && EntryOf(c1, key).None? && (c1 == c || |c1| < |c|) && |c| <= maxSize
  }

  /** What a read leaves behind for the write that follows a miss. */
  lemma GetOtherKey<V>(c: Recency<V>, maxSize: nat, key: string, now: int, k: string)
    requires WellFormed(c, maxSize) && k != key
    ensures var (c1, r) := Get(c, key, now);
      && EntryOf(c1, k) == EntryOf(c, k)
      && (r.None? ==> AfterMiss(c, c1, maxSize, key))
  {
    GetWellFormed(c, maxSize, key, now);
    GetShrinks(c, key, now);
    GetEntryOf(c, maxSize, key, now, k);
    GetEntryOf(c, maxSize, key, now, key);
    hide Get, EntryOf, WellFormed;
  }

  lemma SetOtherKey<V>(c: Recency<V>, c1: Recency<V>, maxSize: nat, key: string, value: V, expiresAt: int, k: string)
    requires AfterMiss(c, c1, maxSize, key) && maxSize >= 1 && k != key
    ensures var c' := Set(c1, key, value, expiresAt, maxSize);
      EntryOf(c', k) == EntryOf(c1, k) || (EntryOf(c', k).None? && EntryOf(c, key).None? && |c| == maxSize)
  {
    hide EntryOf, WellFormed, Set;
    SetEntryOf(c1, maxSize, key, value, expiresAt, k);
  }

  // ----- where entries come from -----

  /** The list is well formed and holds nothing but entries that have been written. */
  ghost predicate Holds<V>(c: Recency<V>, maxSize: nat, written: seq<Entry<V>>) {
    WellFormed(c, maxSize) && forall e :: e in c ==> e in written
  }

  lemma ReadHolds<V>(c: Recency<V>, maxSize: nat, written: seq<Entry<V>>, key: string, now: int)
    requires Holds(c, maxSize, written)
    ensures Holds(Get(c, key, now).0, maxSize, written)
  {
    GetEffect(c, maxSize, key, now);
    hide WellFormed, Get;
  }

  lemma WriteHolds<V>(c: Recency<V>, maxSize: nat, written: seq<Entry<V>>, key: string, value: V, expiresAt: int)
    requires Holds(c, maxSize, written) && maxSize >= 1
    ensures Holds(Set(c, key, value, expiresAt, maxSize), maxSize, written + [Entry(key, value, expiresAt)])
  {
    SetEffect(c, maxSize, key, value, expiresAt);
    hide WellFormed, Set;
  }

  /** A hit answers with a written entry for the key that has not expired. */
  lemma HitWasWritten<V>(c: Recency<V>, maxSize: nat, written: seq<Entry<V>>, key: string, now: int) returns (i: nat)
    requires Holds(c, maxSize, written) && Get(c, key, now).1.Some?
    ensures i < |written| && written[i].key == key && written[i].value == Get(c, key, now).1.value
    ensures now <= written[i].expiresAt
  {
    var hit := Get(c, key, now).1.value;
    GetEffect(c, maxSize, key, now);
    hide WellFormed, Get;
    var e :| Live(c, e, now) && e.key == key && e.value == hit;
    i :| 0 <= i < |written| && written[i] == e;
  }
}
