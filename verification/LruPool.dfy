/** The circular list together with the nodes of all allocated handles, by number. */
module LruPools {
  import opened CacheKeys
  import opened Options
  import opened LruLinks

  class PoolList {
    const links: LruList
    var nodes: map<Id, Node>
    ghost var ids: seq<Id>       // from the oldest to the newest
    ghost var low: nat
    ghost var Repr: set<object>

    ghost predicate Owns()
      reads this, links
    {
      && this in Repr && links in Repr && links.sentinel in Repr
      && (forall id :: id in nodes ==> nodes[id] in Repr)
      && (forall e :: e in links.items ==> e in Repr)
    }

    /** The pointers spell out `ids`, and nodes off the list are unlinked. */
    ghost predicate Spells(items: seq<Node>)
      reads this, Repr
      requires forall id :: id in nodes ==> nodes[id] in Repr
    {
      && |items| == |ids| && (forall i :: 0 <= i < |ids| ==> ids[i] in nodes && nodes[ids[i]] == items[i])
      && (forall id :: id in nodes ==> nodes[id].id == id && nodes[id] != links.sentinel)
      && (forall id :: id in nodes && id !in ids ==> nodes[id].next == null && nodes[id].prev == null)
    }

    ghost predicate Valid()
      reads this, links, Repr
    {
      Owns() && links.Valid() && links.low == low && Spells(links.items)
    }

    constructor ()
      ensures Valid() && ids == [] && low == 0 && nodes == map[] && this in Repr && fresh(Repr)
    {
      links := new LruList();
      nodes, ids, low := map[], [], 0;
      new;
      Repr := {this, links, links.sentinel};
    }

    /** A new handle, off the list. */
    method Add(id: Id)
      requires Valid() && id !in nodes
      modifies this`nodes, this`Repr
      ensures Valid() && nodes.Keys == old(nodes.Keys) + {id} && old(Repr) <= Repr && fresh(Repr - old(Repr))
    {
      var e := new Node(id);
      nodes := nodes[id := e];
      Repr := Repr + {e};
    }

    /** The memory of a handle off the list is given back. */
    method Drop(id: Id)
      requires Valid() && id in nodes && id !in ids
      modifies this`nodes
      ensures Valid() && nodes.Keys == old(nodes.Keys) - {id}
    {
      nodes := nodes - {id};
    }

    method Oldest() returns (r: Option<Id>)
      requires Valid()
      ensures r == if ids == [] then None else Some(ids[0])
    {
      var e := links.Oldest();
      r := if e == null then None else Some(e.id);
    }

    /** A node off the list is not part of the circle. */
    lemma OffTheCircle(id: Id)
      requires Valid() && id in nodes && id !in ids
      ensures nodes[id] !in links.Around() && nodes[id].next == null && nodes[id].prev == null
    {
    }

    method Remove(id: Id)
      requires Valid() && id in nodes && id in ids
      modifies Repr
      ensures Valid() && nodes == old(nodes) && Repr == old(Repr)
      ensures exists k :: IsRemoved(old(ids), old(low), ids, low, id, k)
    {
      hide Circle, Chained;
      ghost var k :| 0 <= k < |ids| && ids[k] == id;
      links.Remove(nodes[id], k);
      ids := ids[..k] + ids[k + 1..];
      low := links.low;
      assert IsRemoved(old(ids), old(low), ids, low, id, k);
    }

    method InsertHigh(id: Id)
      requires Valid() && id in nodes && id !in ids
      modifies Repr
      ensures Valid() && nodes == old(nodes) && Repr == old(Repr)
      ensures ids == old(ids) + [id] && low == old(low)
    {
      hide Circle, Chained;
      OffTheCircle(id);
      links.InsertHigh(nodes[id]);
      ids := ids + [id];
    }

    method InsertLow(id: Id)
      requires Valid() && id in nodes && id !in ids
      modifies Repr
      ensures Valid() && nodes == old(nodes) && Repr == old(Repr)
      ensures ids == old(ids[..low] + [id] + ids[low..]) && low == old(low) + 1
    {
      hide Circle, Chained;
      OffTheCircle(id);
      links.InsertLow(nodes[id]);
      ids := ids[..low] + [id] + ids[low..];
      low := low + 1;
    }

    method Overflow() returns (id: Id)
      requires Valid() && low < |ids|
      modifies Repr
      ensures Valid() && nodes == old(nodes) && Repr == old(Repr) && ids == old(ids)
      ensures low == old(low) + 1 && id == ids[old(low)]
    {
      var e := links.Overflow();
      low := low + 1;
      id := e.id;
    }

    /** Once around along the `next` pointers: all numbers, and how many come up to the mark. */
    method Walk() returns (all: seq<Id>, upToMark: nat)
      requires Valid()
      ensures all == ids && upToMark == low
    {
      all, upToMark := [], 0;
      ghost var c := links.Around();
      assert LinkAt(c, 0);
      var e := links.sentinel.next;
      ghost var n := 0;
      while e != links.sentinel
        invariant n <= |ids| && all == ids[..n] && e == c[n + 1] && upToMark == if n < low then 0 else low
        decreases |ids| - n
      {
        assert c[n + 1] == links.items[n] && LinkAt(c, n + 1);
        all := all + [e.id];
        n := n + 1;
        if e == links.lowPri {
          upToMark := |all|;
        }
        e := e.next;
      }
    }

    /** Once around along the `prev` pointers. */
    method WalkBack() returns (all: seq<Id>)
      requires Valid()
      ensures |all| == |ids| && forall i :: 0 <= i < |ids| ==> all[i] == ids[|ids| - 1 - i]
    {
      all := [];
      ghost var c := links.Around();
      assert LinkAt(c, |ids|);
      var e := links.sentinel.prev;
      while e != links.sentinel
        invariant |all| <= |ids| && e == c[|ids| - |all|]
        invariant forall i :: 0 <= i < |all| ==> all[i] == ids[|ids| - 1 - i]
        decreases |ids| - |all|
      {
        ghost var n := |ids| - |all|;
        assert n > 0 && c[n] == links.items[n - 1] && LinkAt(c, n - 1);
        all := all + [e.id];
        e := e.prev;
      }
    }
  }

  /** Position `k` is taken out, and the mark moves if it was behind. */
  ghost predicate IsRemoved(ids: seq<Id>, low: nat, ids': seq<Id>, low': nat, id: Id, k: int) {
    && 0 <= k < |ids| && ids[k] == id && ids' == ids[..k] + ids[k + 1..]
    && low' == if k < low then low - 1 else low
  }
}
