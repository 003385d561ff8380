/** The intrusive circular list of an LRU shard, with pointers.

    `lru_` is the sentinel: its `next` is the oldest entry and its `prev` the newest.  `lowPri`
    (lru_low_pri_) points at the newest entry of the low-pri pool, or at the sentinel. */
module LruLinks {
  import opened CacheKeys

  /** The links of a handle; `id` is the number by which the handle is known. */
  class Node {
    const id: Id
    var next: Node?
    var prev: Node?

    constructor (id: Id)
      ensures this.id == id && next == null && prev == null
    {
      this.id := id;
      next, prev := null, null;
    }
  }

  /** Node `i` of a chain and the one after it point at each other. */
  ghost predicate LinkAt(c: seq<Node>, i: int)
    reads c
  {
    0 <= i < |c| - 1 ==> c[i].next == c[i + 1] && c[i + 1].prev == c[i]
  }

  ghost predicate Chained(c: seq<Node>)
    reads c
  {
    forall i {:trigger LinkAt(c, i)} :: LinkAt(c, i)
  }

  /** No node twice, except that the chain ends where it starts. */
  ghost predicate Circle(c: seq<Node>) {
    |c| >= 2 && c[0] == c[|c| - 1] && forall i, j :: 0 <= i < j < |c| - 1 ==> c[i] != c[j]
  }

  lemma CircleWithout(c: seq<Node>, p: nat)
    requires Circle(c) && 0 < p < |c| - 1
    ensures Circle(c[..p] + c[p + 1..])
  {
  }

  /** Away from position `p`, the nodes of a circle are other nodes than those around `p`. */
  lemma OthersDiffer(c: seq<Node>, p: nat, j: nat)
    requires Circle(c) && 0 < p < |c| - 1 && j < |c| - 1 && j != p && j != p - 1
    ensures c[j] != c[p] && c[j] != c[p - 1] && c[j + 1] != c[p] && c[j + 1] != c[p + 1]
  {
  }

  lemma NeighboursDiffer(c: seq<Node>, p: nat)
    requires Circle(c) && 0 < p < |c| - 1
    ensures c[p] != c[p - 1] && c[p] != c[p + 1]
  {
  }

  class LruList {
    const sentinel: Node
    var lowPri: Node
    ghost var items: seq<Node>   // from the oldest to the newest
    ghost var low: nat           // how many of them make up the low-pri pool

    /** Once around, from the sentinel to the sentinel. */
    ghost function Around(): seq<Node>
      reads this
    {
      [sentinel] + items + [sentinel]
    }

    ghost predicate Valid()
      reads this, Around()
    {
      Circle(Around()) && Chained(Around()) && low <= |items| && lowPri == Around()[low]
    }

    constructor ()
      ensures Valid() && items == [] && low == 0 && fresh(sentinel)
    {
      var s := new Node(0);
      s.next, s.prev := s, s;
      sentinel, lowPri, items, low := s, s, [], 0;
    }

    /** The oldest entry, the one to evict next; none if the list is empty. */
    method Oldest() returns (e: Node?)
      requires Valid()
      ensures if items == [] then e == null else e == items[0]
    {
      assert LinkAt(Around(), 0);
      assert items != [] ==> Around()[0] != Around()[1];
      e := if sentinel.next == sentinel then null else sentinel.next;
    }

    /** Takes the entry at position `k` out of the circle. */
    method Unlink(e: Node, ghost k: nat)
      requires Valid() && k < |items| && items[k] == e
      modifies this`items, Around()
      ensures items == old(items)[..k] + old(items)[k + 1..]
      ensures Circle(Around()) && Chained(Around())
      ensures e.next == null && e.prev == null
    {
      hide Circle;
      ghost var c, p := Around(), k + 1;
      assert c[p] == e && LinkAt(c, p - 1) && LinkAt(c, p);
      NeighboursDiffer(c, p);
      e.next.prev := e.prev;
      e.prev.next := e.next;
      e.prev, e.next := null, null;
      items := items[..k] + items[k + 1..];
      ghost var c' := c[..p] + c[p + 1..];
      assert Around() == c';
      CircleWithout(c, p);
      forall i
        ensures LinkAt(c', i)
      {
        if 0 <= i < |c'| - 1 && i != p - 1 {
          ghost var j := if i < p - 1 then i else i + 1;
          assert old(LinkAt(c, j));
          OthersDiffer(c, p, j);
          assert c'[i] == c[j] && c'[i + 1] == c[j + 1];
        }
      }
    }

    /** LRU_Remove, for the entry at position `k`. */
    method Remove(e: Node, ghost k: nat)
      requires Valid() && k < |items| && items[k] == e
      modifies this, Around()
      ensures Valid() && items == old(items)[..k] + old(items)[k + 1..]
      ensures low == if k < old(low) then old(low) - 1 else old(low)
      ensures e.next == null && e.prev == null
    {
      ghost var c := Around();
      assert c[k + 1] == e && LinkAt(c, k);
      assert c[low] == e <==> low == k + 1;
      ghost var before := low;
      if lowPri == e {
        lowPri := e.prev;
        low := k;
      }
      Unlink(e, k);
      low := if k < before then before - 1 else before;
      assert Around() == c[..k + 1] + c[k + 2..];
    }

    /** Links `e` behind the node at position `k` of the circle. */
    method LinkBehind(e: Node, at: Node, ghost k: nat)
      requires Valid() && k <= |items| && Around()[k] == at && e !in Around()
      modifies this`items, Around(), e
      ensures items == old(items)[..k] + [e] + old(items)[k..]
      ensures Circle(Around()) && Chained(Around())
    {
      ghost var c := Around();
      assert LinkAt(c, k);
      e.next := at.next;
      e.prev := at;
      e.prev.next := e;
      e.next.prev := e;
      items := items[..k] + [e] + items[k..];
      ghost var c' := c[..k + 1] + [e] + c[k + 1..];
      assert Around() == c';
      forall i
        ensures LinkAt(c', i)
      {
        if 0 <= i < |c'| - 1 && i != k && i != k + 1 {
          ghost var j := if i < k then i else i - 1;
          assert old(LinkAt(c, j));
          assert c'[i] == c[j] && c'[i + 1] == c[j + 1];
        }
      }
    }

    /** LRU_Insert, first case: head of the whole list, in the high-pri pool. */
    method InsertHigh(e: Node)
      requires Valid() && e !in Around() && e.next == null && e.prev == null
      modifies this, Around(), e
      ensures Valid() && items == old(items) + [e] && low == old(low)
    {
      assert LinkAt(Around(), |items|);
      LinkBehind(e, sentinel.prev, |items|);
    }

    /** LRU_Insert, second case: head of the low-pri pool. */
    method InsertLow(e: Node)
      requires Valid() && e !in Around() && e.next == null && e.prev == null
      modifies this, Around(), e
      ensures Valid() && items == old(items[..low] + [e] + items[low..]) && low == old(low) + 1
    {
      LinkBehind(e, lowPri, low);
      lowPri := e;
      low := low + 1;
    }

    /** One round of MaintainPoolSize: the boundary moves over one entry, never onto the sentinel. */
    method Overflow() returns (e: Node)
      requires Valid() && low < |items|
      modifies this`lowPri, this`low
      ensures Valid() && low == old(low) + 1 && items == old(items)
      ensures e == items[old(low)] && e == lowPri && e != sentinel
    {
      assert LinkAt(Around(), low);
      assert Around()[0] != Around()[low + 1];
      lowPri := lowPri.next;
      low := low + 1;
      e := lowPri;
    }
  }
}
