/**
 * The doubly linked list under the caches: Go's `container/list`, a ring of elements closed by
 * a root element. The ghost sequence `ring` lists the elements from the root onwards.
 */
module RecencyList {
  import opened Common
  import opened Lru

  /** A list element carrying one cache entry; the fields of the entry are overwritten in place. */
  class Element<V(0)> {
    var prev: Element?<V>
    var next: Element?<V>
    var key: string
    var value: V
    var expiresAt: int

    constructor (key: string, value: V, expiresAt: int)
      ensures this.key == key && this.value == value && this.expiresAt == expiresAt
    {
      this.key, this.value, this.expiresAt := key, value, expiresAt;
      this.prev, this.next := null, null;
    }

    constructor Root() {
      this.key, this.expiresAt := "", 0;
      this.prev, this.next := null, null;
    }

    function Entry(): Entry<V>
      reads this
    {
      Lru.Entry(key, value, expiresAt)
    }
  }

  lemma AlreadyInFront<A, B>(ring: seq<A>, contents: seq<B>, i: nat)
    requires Injective(ring) && 1 <= i < |ring| == |contents| + 1 && ring[1] == ring[i]
    ensures ring == [ring[0], ring[i]] + RemoveAt(ring, i)[1..]
    ensures contents == [contents[i - 1]] + RemoveAt(contents, i - 1)
  {
    assert i == 1;
  }

  class List<V(0)> {
    var root: Element<V>
    var len: nat
    ghost var ring: seq<Element<V>>  // the root, then the elements, front first
    ghost var contents: Recency<V>   // what the elements carry

    ghost predicate Valid()
      reads this, ring
    {
      && |ring| == len + 1 && |contents| == len && ring[0] == root
      && Injective(ring)
      && (forall i {:trigger ring[i].next} :: 0 <= i < len ==> ring[i].next == ring[i + 1])
      && (forall i {:trigger ring[i].prev} :: 1 <= i <= len ==> ring[i].prev == ring[i - 1])
      && ring[len].next == root && root.prev == ring[len]
      && (forall i :: 0 <= i < len ==> contents[i] == ring[i + 1].Entry())
    }

    constructor ()
      ensures Valid() && len == 0 && fresh(ring)
    {
      root := new Element<V>.Root();
      len := 0;
      new;
      root.next, root.prev := root, root;
      ring, contents := [root], [];
    }

    /** The element at the back, or null for an empty list. */
    method Back() returns (e: Element?<V>)
      requires Valid()
      ensures e == if len == 0 then null else ring[len]
    {
      if len == 0 {
        e := null;
      } else {
        e := root.prev;
      }
    }

    method Remove(e: Element<V>, ghost i: nat)
      requires Valid() && 1 <= i <= len && ring[i] == e
      modifies this, ring
      ensures Valid()
      ensures ring == old(RemoveAt(ring, i)) && contents == old(RemoveAt(contents, i - 1))
      ensures e.Entry() == old(e.Entry())
    {
      RemoveAtInjective(ring, i);
      ghost var r := ring;
      e.prev.next := e.next;
      e.next.prev := e.prev;
      len := len - 1;
      ring, contents := RemoveAt(ring, i), RemoveAt(contents, i - 1);
      forall j | 0 <= j <= len
        ensures 0 < j ==> ring[j].prev == ring[j - 1]
        ensures j < len ==> ring[j].next == ring[j + 1]
        ensures 0 < j ==> contents[j - 1] == ring[j].Entry()
      {
        ghost var k := if j < i then j else j + 1;
        assert ring[j] == r[k] && (k == i - 1 || r[k] != r[i - 1]);
      }
    }

    method PushFront(e: Element<V>)
      requires Valid() && e !in ring
      modifies this, ring, e
      ensures Valid()
      ensures ring == old([ring[0], e] + ring[1..]) && contents == old([e.Entry()] + contents)
    {
      e.prev := root;
      e.next := root.next;
      e.next.prev := e;
      root.next := e;
      len := len + 1;
      ring, contents := [ring[0], e] + ring[1..], [e.Entry()] + contents;
    }

    /** Overwrites the payload and the expiry of an element, as the caches do through its pointer. */
    method Overwrite(e: Element<V>, ghost i: nat, value: V, expiresAt: int)
      requires Valid() && 1 <= i <= len && ring[i] == e
      modifies this`contents, e`value, e`expiresAt
      ensures Valid() && contents == old(contents[i - 1 := Entry(e.key, value, expiresAt)])
    {
      e.value := value;
      e.expiresAt := expiresAt;
      contents := contents[i - 1 := e.Entry()];
    }

    method MoveToFront(e: Element<V>, ghost i: nat)
      requires Valid() && 1 <= i <= len && ring[i] == e
      modifies this, ring
      ensures Valid()
      ensures ring == old([ring[0], e] + RemoveAt(ring, i)[1..])
      ensures forall j :: 0 <= j < |ring| ==> ring[j] in old(ring)
      ensures contents == old([contents[i - 1]] + RemoveAt(contents, i - 1))
    {
      if root.next == e {
        AlreadyInFront(ring, contents, i);
        return;
      }
      RemoveAtInjective(ring, i);
      Remove(e, i);
      PushFront(e);
    }
  }
}
