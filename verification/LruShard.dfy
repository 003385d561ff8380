/** LRUCacheShard: the operations of one shard.  Each runs under the shard's mutex, so a run of the
    shard is a sequence of these calls. */
module LruShards {
  import opened CacheKeys
  import opened Options
  import opened LruState
  import opened LruSpecs
  import opened LruPools
  import HandleTables

  lemma MarkIsInside(s: State, busy: set<Id>)
    requires InvBut(s, busy)
    ensures s.low <= |s.lru|
  {
  }

  lemma PositiveSumIsNonempty(s: State, busy: set<Id>)
    requires InvBut(s, busy) && s.highUsage > 0
    ensures s.low < |s.lru| && s.lru[s.low] in s.handles
  {
    assert s.lru[s.low..] != [];
    assert s.lru[s.low] in s.lru;
  }

  class LRUCacheShard {
    var handles: map<Id, Handle>
    const index: HandleTables.HandleTable
    const pool: PoolList
    var usage: int
    var lruUsage: int
    var highPriPoolUsage: int
    var nextId: Id
    var capacity: nat
    var strictCapacityLimit: bool
    var highPriPoolRatio: real
    var highPriPoolCapacity: real
    ghost var external: map<Id, nat>
    ghost var freed: seq<Id>

    ghost function Now(): State
      reads this, pool, index
    {
      State(handles, index.m, pool.ids, pool.low, usage, lruUsage, highPriPoolUsage, external, freed, nextId)
    }

    ghost predicate Configured()
      reads this
    {
      highPriPoolRatio >= 0.0 && highPriPoolCapacity == capacity as real * highPriPoolRatio
    }

    /** The circular list and the hash table are well formed, and every allocated handle has a node. */
    ghost predicate Linked()
      reads this`handles, pool, pool.links, pool.Repr, index
    {
      && pool.Valid() && index.Valid() && (forall id :: id in pool.nodes <==> id in handles)
      && pool in pool.Repr && this !in pool.Repr && index !in pool.Repr
    }

    lemma Separate()
      requires Linked()
      ensures pool in pool.Repr && this !in pool.Repr && index !in pool.Repr
    {
    }

    /** The cache is over its capacity only when nothing can be evicted. */
    ghost predicate Valid()
      reads this, pool, pool.links, pool.Repr, index
    {
      Linked() && Inv(Now()) && Configured() && (usage > capacity ==> pool.ids == [])
    }

    constructor (capacity: nat, strict: bool, ratio: real)
      requires ratio >= 0.0
      ensures Valid() && handles == map[] && index.m == map[] && pool.ids == [] && usage == 0 && freed == []
      ensures this.capacity == capacity && strictCapacityLimit == strict && highPriPoolRatio == ratio
      ensures fresh(pool.Repr) && fresh(index)
    {
      hide PoolList.Valid, HandleTables.HandleTable.Valid, InvBut;
      handles := map[];
      pool := new PoolList();
      index := new HandleTables.HandleTable();
      usage, lruUsage, highPriPoolUsage, nextId := 0, 0, 0, 0;
      this.capacity, strictCapacityLimit := capacity, strict;
      highPriPoolRatio, highPriPoolCapacity := ratio, capacity as real * ratio;
      external, freed := map[], [];
      NothingInvalid();
    }

    /** LRU_Remove: the position of lru_low_pri_ moves with the entries before it. */
    method LruRemove(id: Id)
      requires Linked() && ListOk(Now()) && id in pool.ids && id in handles
      modifies this`lruUsage, this`highPriPoolUsage, pool.Repr
      ensures Linked() && pool.Repr == old(pool.Repr) && Now() == Unlink(old(Now()), id)
      ensures lruUsage >= 0 && highPriPoolUsage >= 0
    {
      hide PoolList.Valid, HandleTables.HandleTable.Valid, ListOf, IndexOf, IsRemoved;
      UnlinkList(Now(), id);
      ListFacts(Now());
      ListFacts(Unlink(Now(), id));
      pool.Remove(id);
      OnlyPlace(old(pool.ids), old(pool.low), pool.ids, pool.low, id);
      lruUsage := lruUsage - handles[id].charge;
      if handles[id].inHighPool {
        highPriPoolUsage := highPriPoolUsage - handles[id].charge;
      }
    }

    /** The oldest entry of the high-pri pool joins the low-pri pool. */
    method OverflowOne()
      requires Linked() && pool.low < |pool.ids| && pool.ids[pool.low] in handles
      modifies this`handles, this`highPriPoolUsage, pool.Repr
      ensures Linked() && pool.Repr == old(pool.Repr) && Now() == Demote(old(Now()))
    {
      hide PoolList.Valid, HandleTables.HandleTable.Valid;
      var id := pool.Overflow();
      handles := handles[id := handles[id].(inHighPool := false)];
      highPriPoolUsage := highPriPoolUsage - handles[id].charge;
    }

    /** Overflows the high-pri pool into the low-pri pool until it fits.  `pending` is a charge that
        the caller has put on the list and still has to add to the usage of the list. */
    method MaintainPoolSize(ghost pending: nat, ghost busy: set<Id>)
      requires Linked() && InvBut(Now().(lruUsage := lruUsage + pending), busy) && highPriPoolCapacity >= 0.0
      modifies this`handles, this`highPriPoolUsage, pool.Repr
      ensures Linked() && pool.Repr == old(pool.Repr) && pool.ids == old(pool.ids)
      ensures InvBut(Now().(lruUsage := lruUsage + pending), busy)
      ensures SameButPools(old(handles), handles) && Trimmed(old(pool.low), Now(), highPriPoolCapacity)
    {
      hide PoolList.Valid, HandleTables.HandleTable.Valid, InvBut, SameButPools;
      SamePools(handles);
      MarkIsInside(Now().(lruUsage := lruUsage + pending), busy);
      while highPriPoolUsage as real > highPriPoolCapacity
        invariant Linked() && pool.Repr == old(pool.Repr) && pool.ids == old(pool.ids)
        invariant InvBut(Now().(lruUsage := lruUsage + pending), busy)
        invariant SameButPools(old(handles), handles) && old(pool.low) <= pool.low <= |pool.ids|
        invariant pool.low > old(pool.low) ==>
                    (highPriPoolUsage + Charge(handles, pool.ids[pool.low - 1])) as real > highPriPoolCapacity
        decreases |pool.ids| - pool.low
      {
        ghost var s := Now().(lruUsage := lruUsage + pending);
        PositiveSumIsNonempty(s, busy);
        DemoteKeeps(s, busy);
        OneMorePool(old(handles), handles, pool.ids[pool.low]);
        OverflowOne();
      }
    }

    /** The young end of the list; the usage of the list is still to be raised. */
    method PutHigh(id: Id)
      requires Linked() && id in handles && id !in pool.ids
      modifies this`handles, this`highPriPoolUsage, pool.Repr
      ensures Linked() && pool.Repr == old(pool.Repr)
      ensures Now().(lruUsage := lruUsage + old(handles)[id].charge) == LinkHigh(old(Now()), id)
    {
      hide PoolList.Valid, HandleTables.HandleTable.Valid;
      pool.InsertHigh(id);
      handles := handles[id := handles[id].(inHighPool := true)];
      highPriPoolUsage := highPriPoolUsage + handles[id].charge;
    }

    /** The young end of the low-pri pool. */
    method PutLow(id: Id)
      requires Linked() && id in handles && id !in pool.ids && pool.low <= |pool.ids|
      modifies this`handles, pool.Repr
      ensures Linked() && pool.Repr == old(pool.Repr)
      ensures Now().(lruUsage := lruUsage + old(handles)[id].charge) == LinkLow(old(Now()), id)
    {
      hide PoolList.Valid, HandleTables.HandleTable.Valid;
      pool.InsertLow(id);
      handles := handles[id := handles[id].(inHighPool := false)];
    }

    /** LRU_Insert, first case: the young end, and the high-pri pool is trimmed. */
    method LruInsertHigh(id: Id, ghost busy: set<Id>)
      requires Linked() && Linkable(Now(), id, busy) && highPriPoolCapacity >= 0.0
      modifies this`handles, this`lruUsage, this`highPriPoolUsage, pool.Repr
      ensures Linked() && pool.Repr == old(pool.Repr)
      ensures InvBut(Now(), busy - {id}) && SameButPools(old(handles), handles)
      ensures pool.ids == old(pool.ids) + [id] && Trimmed(old(pool.low), Now(), highPriPoolCapacity)
    {
      hide PoolList.Valid, HandleTables.HandleTable.Valid, InvBut, SameButPools, LinkHigh, Linkable, Linked;
      Separate();
      LinkHighKeeps(Now(), id, busy);
      LinkableIsOff(Now(), id, busy);
      HighPools(Now(), id);
      ghost var hs := handles;
      var charge := handles[id].charge;
      PutHigh(id);
      ghost var hs1 := handles;
      MaintainPoolSize(charge, busy - {id});
      SamePoolsTwice(hs, hs1, handles);
      lruUsage := lruUsage + charge;
    }

    /** LRU_Insert, second case: the young end of the low-pri pool. */
    method LruInsertLow(id: Id, ghost busy: set<Id>)
      requires Linked() && Linkable(Now(), id, busy)
      modifies this`handles, this`lruUsage, pool.Repr
      ensures Linked() && pool.Repr == old(pool.Repr)
      ensures InvBut(Now(), busy - {id}) && SameButPools(old(handles), handles)
      ensures old(pool.low) <= |old(pool.ids)| && pool.low == old(pool.low) + 1
      ensures pool.ids == old(pool.ids[..pool.low] + [id] + pool.ids[pool.low..])
    {
      hide PoolList.Valid, HandleTables.HandleTable.Valid, InvBut, SameButPools, LinkLow, Linkable;
      LinkLowKeeps(Now(), id, busy);
      LinkableIsOff(Now(), id, busy);
      LowPools(Now(), id);
      var charge := handles[id].charge;
      PutLow(id);
      lruUsage := lruUsage + charge;
    }

    /** LRU_Insert. */
    method LruInsert(id: Id, ghost busy: set<Id>)
      requires Linked() && Linkable(Now(), id, busy) && highPriPoolCapacity >= 0.0
      modifies this`handles, this`lruUsage, this`highPriPoolUsage, pool.Repr
      ensures Linked() && pool.Repr == old(pool.Repr)
      ensures InvBut(Now(), busy - {id}) && SameButPools(old(handles), handles)
      ensures Listed(old(pool.ids), old(pool.low), id, old(handles[id]), Now(), highPriPoolRatio, highPriPoolCapacity)
    {
      hide PoolList.Valid, HandleTables.HandleTable.Valid, InvBut, SameButPools;
      if highPriPoolRatio > 0.0 && (handles[id].highPri || handles[id].hit) {
        LruInsertHigh(id, busy);
      } else {
        LruInsertLow(id, busy);
      }
    }

    /** The cache gives up its reference to an entry, which leaves the hash table. */
    method Forget(id: Id)
      requires Linked() && id in handles && handles[id].refs > 0
      modifies this`handles, index
      ensures Linked() && index.m == old(index.m) - {TableKey(old(handles)[id])}
      ensures handles == old(handles)[id := old(handles)[id].(inCache := false, refs := old(handles)[id].refs - 1)]
    {
      hide PoolList.Valid, HandleTables.HandleTable.Valid;
      var h := handles[id];
      var _ := index.Remove(h.key, h.hash);
      handles := handles[id := h.(inCache := false, refs := h.refs - 1)];
    }

    /** An entry that only the cache refers to leaves the list and the hash table and is freed. */
    method Evict(id: Id)
      requires Linked() && Inv(Now()) && id in pool.ids && id in handles && Evictable(handles[id])
      modifies this`lruUsage, this`highPriPoolUsage, this`handles, this`usage, this`external, this`freed, pool.Repr,
        index
      ensures Linked() && pool.Repr == old(pool.Repr) && Inv(Now()) && Now() == Evicted(old(Now()), id)
    {
      hide PoolList.Valid, HandleTables.HandleTable.Valid, InvBut, ListOf, IndexOf;
      ghost var s := Now();
      EvictKeeps(s, id);
      ListIsOk(s);
      UnlinkedIsOff(s, id);
      LruRemove(id);
      usage := usage - handles[id].charge;
      Forget(id);
      SameWithout(s.handles, id, handles[id]);
      SameWithout(s.handles, id, s.handles[id].(inCache := false));
      Free(id);
    }

    /** Takes the oldest entry off the list, out of the table, and frees it. */
    method EvictOldest() returns (id: Id)
      requires Linked() && Inv(Now()) && pool.ids != []
      modifies this`lruUsage, this`highPriPoolUsage, this`handles, this`usage, this`external, this`freed, pool.Repr,
        index
      ensures Linked() && pool.Repr == old(pool.Repr)
      ensures id == old(pool.ids)[0] && id in old(handles) && Inv(Now()) && Now() == Evicted(old(Now()), id)
    {
      hide PoolList.Valid, HandleTables.HandleTable.Valid, InvBut, ListOf;
      var oldest := pool.Oldest();
      id := oldest.value;
      ListEntry(Now(), id);
      Evict(id);
    }

    /** The deleter runs and the memory is given back; the usage has been adjusted before. */
    method Free(id: Id)
      requires Linked() && id in handles && id !in pool.ids
      requires (handles[id].refs == 1 && handles[id].inCache) || (handles[id].refs == 0 && !handles[id].inCache)
      modifies this`handles, this`external, this`freed, pool`nodes
      ensures Linked() && handles == old(handles) - {id} && external == old(external) - {id} &&
              freed == old(freed) + [id]
    {
      hide PoolList.Valid, HandleTables.HandleTable.Valid;
      pool.Drop(id);
      handles := handles - {id};
      external := external - {id};
      freed := freed + [id];
    }

    /** EvictFromLRU: evicts the oldest entries, and no more of them than needed, until `charge`
        more fits or the list is empty. */
    method EvictFromLRU(charge: nat) returns (ghost k: nat)
      requires Linked() && Inv(Now())
      modifies this`lruUsage, this`highPriPoolUsage, this`handles, this`usage, this`external, this`freed, pool.Repr,
        index
      ensures Linked() && pool.Repr == old(pool.Repr) && Inv(Now())
      ensures Shrunk(old(Now()), Now(), k) && LeastRoom(old(Now()), charge, capacity, k)
      ensures Kept(old(external), external)
    {
      hide PoolList.Valid, HandleTables.HandleTable.Valid, InvBut, Shrunk, Evicted, SumOf;
      k := 0;
      ghost var s := Now();
      NotShrunk(s);
      var oldest := pool.Oldest();
      while usage + charge > capacity && oldest.Some?
        invariant Linked() && pool.Repr == old(pool.Repr) && Inv(Now()) && Shrunk(s, Now(), k)
        invariant oldest.None? <==> pool.ids == []
        invariant forall j :: 0 <= j < k ==> k <= |s.lru| && s.usage - SumOf(s.handles, s.lru[..j]) + charge > capacity
        decreases |pool.ids|
      {
        OneLess(s, Now(), k);
        ShrunkUsage(s, Now(), k);
        var id := EvictOldest();
        k := k + 1;
        oldest := pool.Oldest();
      }
      ShrunkUsage(s, Now(), k);
      ShrunkFacts(s, Now(), k);
    }

    method SetCapacity(capacity: nat)
      requires Valid()
      modifies this, pool.Repr, index
      ensures fresh(pool.Repr - old(pool.Repr))
      ensures Valid() && this.capacity == capacity && highPriPoolRatio == old(highPriPoolRatio)
      ensures strictCapacityLimit == old(strictCapacityLimit)
      ensures exists k: nat :: Shrunk(old(Now()), Now(), k) && LeastRoom(old(Now()), 0, capacity, k)
      ensures Kept(old(external), external)
    {
      hide PoolList.Valid, HandleTables.HandleTable.Valid, InvBut;
      this.capacity := capacity;
      highPriPoolCapacity := capacity as real * highPriPoolRatio;
      ghost var k := EvictFromLRU(0);
      RoomMeansEmpty(old(Now()), Now(), 0, capacity, k);
    }

    method SetHighPriorityPoolRatio(ratio: real)
      requires Valid() && ratio >= 0.0
      modifies this, pool.Repr, index
      ensures fresh(pool.Repr - old(pool.Repr))
      ensures Valid() && highPriPoolRatio == ratio && Trimmed(old(pool.low), Now(), highPriPoolCapacity)
      ensures pool.ids == old(pool.ids) && usage == old(usage) && freed == old(freed) &&
              SameButPools(old(handles), handles)
      ensures external == old(external) && index.m == old(index.m) && capacity == old(capacity)
    {
      hide PoolList.Valid, HandleTables.HandleTable.Valid, InvBut;
      highPriPoolRatio := ratio;
      highPriPoolCapacity := capacity as real * ratio;
      MaintainPoolSize(0, {});
    }

    /** One more client: the handle leaves the list if it is on it. */
    method Acquire(id: Id, hit: bool)
      requires Linked() && Inv(Now()) && id in handles && id in external && (id in pool.ids <==> Evictable(handles[id]))
      modifies this`handles, this`lruUsage, this`highPriPoolUsage, this`external, pool.Repr
      ensures Linked() && pool.Repr == old(pool.Repr) && Inv(Now()) && Now() == Acquired(old(Now()), id, hit)
    {
      hide PoolList.Valid, HandleTables.HandleTable.Valid, InvBut, ListOf, Unlink;
      AcquireKeeps(Now(), id, hit);
      ListIsOk(Now());
      UnlinkTouches(Now(), id);
      if handles[id].refs == 1 && handles[id].inCache {
        LruRemove(id);
      }
      handles := handles[id := handles[id].(refs := handles[id].refs + 1, hit := hit)];
      external := external[id := external[id] + 1];
    }

    /** Finds the handle of a key and hands out a reference to it. */
    method Lookup(key: Key, hash: nat) returns (e: Option<Id>)
      requires Valid()
      modifies this, pool.Repr, index
      ensures fresh(pool.Repr - old(pool.Repr))
      ensures Valid() && index.m == old(index.m) && freed == old(freed) && usage == old(usage)
      ensures e == if (key, hash) in old(index.m) then Some(old(index.m)[(key, hash)]) else None
      ensures e.None? ==> Now() == old(Now())
      ensures e.Some? ==> Referenced(old(Now()), Now(), e.value, true)
    {
      hide PoolList.Valid, HandleTables.HandleTable.Valid, InvBut, ListOf, Acquired;
      e := index.Lookup(key, hash);
      if e.None? {
        return;
      }
      TableEntry(Now(), (key, hash));
      LiveHandle(Now(), e.value);
      AcquiredFacts(Now(), e.value, true);
      Acquire(e.value, true);
    }

    /** Another reference to a handle that has not been freed. */
    method Ref(id: Id)
      requires Valid() && id in handles
      modifies this, pool.Repr, index
      ensures fresh(pool.Repr - old(pool.Repr))
      ensures Valid() && index.m == old(index.m) && freed == old(freed) && usage == old(usage)
      ensures Referenced(old(Now()), Now(), id, old(handles)[id].hit)
    {
      hide PoolList.Valid, HandleTables.HandleTable.Valid, InvBut, ListOf, Acquired;
      LiveHandle(Now(), id);
      AcquiredFacts(Now(), id, handles[id].hit);
      Acquire(id, handles[id].hit);
    }

    /** The last reference is gone. */
    method FreeLast(id: Id)
      requires Linked() && InvBut(Now(), {id}) && id in handles && handles[id].refs == 0 && !handles[id].inCache
      modifies this`usage, this`handles, this`external, this`freed, pool`nodes
      ensures Linked() && Inv(Now()) && usage == old(usage) - old(handles)[id].charge
      ensures handles == old(handles) - {id} && external == old(external) - {id} && freed == old(freed) + [id]
    {
      hide PoolList.Valid, HandleTables.HandleTable.Valid, InvBut;
      assert {id} - {id} == {};
      DiscardKeeps(Now(), id, {id});
      BusyIsOff(Now(), id);
      usage := usage - handles[id].charge;
      Free(id);
    }

    /** Only the cache refers to the entry, and it does not want to keep it. */
    method DropFromCache(id: Id)
      requires Linked() && InvBut(Now(), {id}) && id in handles && id in external && handles[id].refs == 1 &&
               handles[id].inCache
      modifies this`usage, this`handles, this`external, this`freed, pool`nodes, index
      ensures Linked() && Inv(Now()) && usage == old(usage) - old(handles)[id].charge
      ensures index.m == old(index.m) - {TableKey(old(handles)[id])}
      ensures handles == old(handles) - {id} && external == old(external) - {id} && freed == old(freed) + [id]
    {
      hide PoolList.Valid, HandleTables.HandleTable.Valid, InvBut;
      DroppedKeeps(Now(), id);
      Forget(id);
      SameWithout(old(handles), id, handles[id]);
      FreeLast(id);
    }

    /** Unref, for a reference that a client held. */
    method Unref(id: Id) returns (last: bool)
      requires Linked() && Inv(Now()) && id in external && external[id] > 0
      modifies this`handles, this`external
      ensures Linked() && id in old(handles) && InvBut(Now(), {id}) && id !in pool.ids
      ensures external == old(external)[id := old(external)[id] - 1]
      ensures handles == old(handles)[id := old(handles)[id].(refs := old(handles)[id].refs - 1)]
      ensures last <==> handles[id].refs == 0
      ensures handles[id].refs == external[id] + (if handles[id].inCache then 1 else 0)
    {
      hide PoolList.Valid, HandleTables.HandleTable.Valid, InvBut;
      HeldHandle(Now(), id);
      UnrefKeeps(Now(), id);
      handles := handles[id := handles[id].(refs := handles[id].refs - 1)];
      external := external[id := external[id] - 1];
      last := handles[id].refs == 0;
    }

    /** Gives a reference back.  The handle is freed if it was the last and the cache has no use for
        the entry: it was erased, it is to be erased, or the cache is over its capacity. */
    method Release(id: Id, forceErase: bool) returns (last: bool)
      requires Valid() && id in external && external[id] > 0
      modifies this, pool.Repr, index
      ensures fresh(pool.Repr - old(pool.Repr))
      ensures Valid() && id in old(handles)
      ensures last <==> old(external[id]) == 1 && (!old(handles)[id].inCache || old(usage > capacity) || forceErase)
      ensures freed == if last then old(freed) + [id] else old(freed)
      ensures external == if last then old(external) - {id} else old(external)[id := old(external[id]) - 1]
      ensures usage == if last then old(usage) - old(handles)[id].charge else old(usage)
      ensures index.m == if last && old(handles)[id].inCache then old(index.m) - {TableKey(old(handles)[id])}
              else old(index.m)
      ensures last ==> handles == old(handles) - {id} && pool.ids == old(pool.ids) && pool.low == old(pool.low)
      ensures var h := old(handles)[id];
              h.refs > 0 && var h' := h.(refs := h.refs - 1);
              && (!last && old(external[id]) == 1 && h.inCache ==>
                    && SameButPools(old(handles)[id := h'], handles)
                    && Listed(old(pool.ids), old(pool.low), id, h', Now(), highPriPoolRatio, highPriPoolCapacity))
              && (!last && !(old(external[id]) == 1 && h.inCache) ==>
                    handles == old(handles)[id := h'] && pool.ids == old(pool.ids) && pool.low == old(pool.low))
      ensures nextId == old(nextId) && capacity == old(capacity)
    {
      hide PoolList.Valid, HandleTables.HandleTable.Valid, InvBut, SameButPools, ListOf, TableOf, HistoryOk, Linked;
      Separate();
      last := Unref(id);
      if last {
        FreeLast(id);
        assert external == old(external) - {id} && handles == old(handles) - {id};
      } else if handles[id].refs == 1 && handles[id].inCache {
        if usage > capacity || forceErase {
          assert !(usage > capacity) || pool.ids == [];
          DropFromCache(id);
          assert external == old(external) - {id} && handles == old(handles) - {id};
          last := true;
        } else {
          LruInsert(id, {id});
          assert {id} - {id} == {};
        }
      } else {
        Settle(Now(), id, {id});
        assert {id} - {id} == {};
      }
    }

    /** Whether clients hold references to a handle: what is counted beyond the cache's own. */
    method Holds(id: Id) returns (held: bool)
      requires Valid()
      ensures held <==> id in external && external[id] > 0
    {
      HeldCount(Now());
      held := id in handles && handles[id].refs > (if handles[id].inCache then 1 else 0);
    }

    /** The cache gives up its reference to an entry: it is freed, or stays with its clients. */
    method Detach(id: Id) returns (last: bool)
      requires Linked() && Inv(Now()) && id in handles && id in external && handles[id].inCache
      modifies this`lruUsage, this`highPriPoolUsage, this`handles, this`usage, this`external, this`freed, pool.Repr,
        index
      ensures Linked() && pool.Repr == old(pool.Repr) && Inv(Now()) && (last <==> old(external)[id] == 0)
      ensures old(handles)[id].refs > 0 && (last <==> id in old(pool.ids))
      ensures Now() == if last then Evicted(old(Now()), id) else GivenUp(old(Now()), id)
    {
      hide PoolList.Valid, HandleTables.HandleTable.Valid, InvBut, Evicted;
      LiveHandle(Now(), id);
      AllCounted(Now(), id);
      last := handles[id].refs - 1 == 0;
      if last {
        Evict(id);
      } else {
        DetachHeld(Now(), id);
        DetachedFacts(Now(), id);
        Forget(id);
      }
    }

    method Erase(key: Key, hash: nat) returns (last: bool)
      requires Valid()
      modifies this, pool.Repr, index
      ensures fresh(pool.Repr - old(pool.Repr))
      ensures Valid() && index.m == old(index.m) - {(key, hash)} && Now() == WayMade(old(Now()), (key, hash))
      ensures last <==>
                (key, hash) in old(index.m) && old(index.m)[(key, hash)] in old(external) &&
                old(external)[old(index.m)[(key, hash)]] == 0
      ensures freed == if last then old(freed) + [old(index.m)[(key, hash)]] else old(freed)
      ensures external == if last then old(external) - {old(index.m)[(key, hash)]} else old(external)
      ensures Kept(old(external), external)
    {
      hide PoolList.Valid, HandleTables.HandleTable.Valid, InvBut;
      last := MakeWay(key, hash);
      WayFacts(old(Now()), (key, hash));
    }

    /** Frees everything that only the cache refers to. */
    method EraseUnRefEntries()
      requires Valid()
      modifies this, pool.Repr, index
      ensures fresh(pool.Repr - old(pool.Repr))
      ensures Valid() && pool.ids == [] && freed == old(freed) + old(pool.ids)
      ensures Shrunk(old(Now()), Now(), |old(pool.ids)|)
      ensures Kept(old(external), external)
    {
      hide PoolList.Valid, HandleTables.HandleTable.Valid, InvBut, Shrunk, Evicted;
      ghost var k, s := 0, Now();
      NotShrunk(s);
      var oldest := pool.Oldest();
      while oldest.Some?
        invariant oldest.None? <==> pool.ids == []
        invariant Linked() && pool.Repr == old(pool.Repr) && Inv(Now()) && Shrunk(s, Now(), k)
        invariant Configured() && capacity == old(capacity)
        decreases |pool.ids|
      {
        OneLess(s, Now(), k);
        var id := EvictOldest();
        k := k + 1;
        oldest := pool.Oldest();
      }
      ShrunkFacts(s, Now(), k);
      AllShrunk(s, Now(), k);
    }

    /** The entry is not taken in: with a handle wanted the call fails, without one it looks as if the
        entry had been inserted and evicted at once. */
    method Reject() returns (id: Id)
      requires Linked() && Inv(Now())
      modifies this`nextId, this`freed
      ensures Linked() && Inv(Now()) && id == old(nextId) && nextId == id + 1 && freed == old(freed) + [id]
    {
      hide PoolList.Valid, HandleTables.HandleTable.Valid, InvBut;
      RejectKeeps(Now());
      id := nextId;
      nextId := nextId + 1;
      freed := freed + [id];
    }

    /** The memory of a new handle, its node and its entry in the hash table. */
    method Allocate(h: Handle, ghost held: nat) returns (id: Id)
      requires Linked() && nextId !in handles
      modifies this`handles, this`usage, this`external, this`nextId, pool`nodes, pool`Repr, index
      ensures Linked() && fresh(pool.Repr - old(pool.Repr))
      ensures id == old(nextId) && Now() == Create(old(Now()), h, held)
    {
      hide PoolList.Valid, HandleTables.HandleTable.Valid;
      id := nextId;
      var _ := index.Insert(HandleTables.Entry(h.key, h.hash, id));
      pool.Add(id);
      handles := handles[id := h];
      external := external[id := held];
      usage := usage + h.charge;
      nextId := nextId + 1;
    }

    /** A new handle under a key that is free: one reference for the cache, one if a client wants it. */
    method AddNew(key: Key, hash: nat, charge: nat, wantHandle: bool, high: bool) returns (id: Id)
      requires Linked() && Inv(Now()) && (key, hash) !in index.m
      modifies this`handles, this`usage, this`external, this`nextId, pool`nodes, pool`Repr, index
      ensures Linked() && fresh(pool.Repr - old(pool.Repr))
      ensures id == old(nextId) && id in handles && id in external && InvBut(Now(), {id})
      ensures Now() == Create(old(Now()), NewHandle(key, hash, charge, wantHandle, high), if wantHandle then 1 else 0)
    {
      hide PoolList.Valid, HandleTables.HandleTable.Valid, InvBut;
      NewId(Now());
      var h := NewHandle(key, hash, charge, wantHandle, high);
      ghost var held := if wantHandle then 1 else 0;
      CreateKeeps(Now(), h, held, {});
      assert {} + {nextId} == {nextId};
      id := Allocate(h, held);
    }

    /** The entry of a key, if there is one, is given up by the cache. */
    method MakeWay(key: Key, hash: nat) returns (last: bool)
      requires Linked() && Inv(Now())
      modifies this`lruUsage, this`highPriPoolUsage, this`handles, this`usage, this`external, this`freed, pool.Repr,
        index
      ensures Linked() && pool.Repr == old(pool.Repr) && Inv(Now()) && Now() == WayMade(old(Now()), (key, hash))
      ensures last <==> (key, hash) in old(index.m) && Unheld(old(Now()), old(index.m)[(key, hash)])
    {
      hide PoolList.Valid, HandleTables.HandleTable.Valid, InvBut, Evicted, GivenUp;
      last := false;
      var replaced := index.Lookup(key, hash);
      if replaced.Some? {
        TableEntry(Now(), (key, hash));
        last := Detach(replaced.value);
      }
    }

    /** Insert, after room has been made. */
    method TakeIn(key: Key, hash: nat, charge: nat, wantHandle: bool, high: bool) returns (id: Id)
      requires Linked() && Inv(Now()) && highPriPoolCapacity >= 0.0
      modifies this`lruUsage, this`highPriPoolUsage, this`handles, this`usage, this`external, this`freed, this`nextId,
        pool.Repr, index
      ensures Linked() && fresh(pool.Repr - old(pool.Repr)) && Inv(Now()) && Inv(WayMade(old(Now()), (key, hash)))
      ensures id == old(nextId)
      ensures var s2 := WayMade(old(Now()), (key, hash));
              var h := NewHandle(key, hash, charge, wantHandle, high);
              var s3 := Create(s2, h, if wantHandle then 1 else 0);
              && SameButPools(s3.handles, handles) && external == s3.external && index.m == s3.table
              && usage == s3.usage && freed == s3.freed && nextId == s3.nextId
              && (wantHandle ==> pool.ids == s2.lru && pool.low == s2.low)
              && (!wantHandle ==> Listed(s2.lru, s2.low, id, h, Now(), highPriPoolRatio, highPriPoolCapacity))
    {
      hide PoolList.Valid, HandleTables.HandleTable.Valid, InvBut, SameButPools, WayMade, Listed;
      WayFacts(Now(), (key, hash));
      var last := MakeWay(key, hash);
      id := AddNew(key, hash, charge, wantHandle, high);
      SamePools(handles);
      assert {id} - {id} == {};
      if wantHandle {
        Settle(Now(), id, {id});
      } else {
        LruInsert(id, {id});
      }
    }

    /** Insert: makes room by evicting the oldest entries, replaces an entry of the same key, and
        takes the new one in unless the referenced entries leave no room for it.  `k` entries are
        evicted. */
    method Insert(key: Key, hash: nat, charge: nat, wantHandle: bool, high: bool)
      returns (ok: bool, handle: Option<Id>, ghost k: nat)
      requires Valid()
      modifies this, pool.Repr, index
      ensures fresh(pool.Repr - old(pool.Repr))
      ensures Valid() && old(freed) <= freed && Kept(old(external), external)
      ensures capacity == old(capacity) && strictCapacityLimit == old(strictCapacityLimit) &&
              highPriPoolRatio == old(highPriPoolRatio)
      ensures LeastRoom(old(Now()), charge, capacity, k)
      ensures var rejected := old(usage - lruUsage) + charge > capacity && (strictCapacityLimit || !wantHandle);
              var h := NewHandle(key, hash, charge, wantHandle, high);
              && (ok <==> !(rejected && wantHandle))
              && handle == (if wantHandle && !rejected then Some(old(nextId)) else None)
              && (rejected ==> Refused(old(Now()), Now(), k))
              && (!rejected ==> Inserted(old(Now()), Now(), k, h, if wantHandle then 1 else 0))
              && (!rejected && wantHandle ==> pool.ids == Remaining(old(Now()), k, (key, hash)))
              && (!rejected && !wantHandle ==>
                    Enlisted(old(Now()), Now(), k, old(nextId), h, highPriPoolRatio, highPriPoolCapacity))
    {
      hide PoolList.Valid, HandleTables.HandleTable.Valid, InvBut, Shrunk, WayMade, SameButPools, Listed, Inserted,
        Enlisted, Refused;
      ghost var s := Now();
      k := EvictFromLRU(charge);
      ghost var s1 := Now();
      EmptyListWeighsNothing(s1);
      SameOutside(s, s1, k);
      if usage - lruUsage + charge > capacity && (strictCapacityLimit || !wantHandle) {
        var id := Reject();
        ok, handle := !wantHandle, None;
        RefusedAfter(s, s1, Now(), k);
        RoomMeansEmpty(s, s1, charge, capacity, k);
      } else {
        var id := TakeIn(key, hash, charge, wantHandle, high);
        ok, handle := true, if wantHandle then Some(id) else None;
        ghost var h := NewHandle(key, hash, charge, wantHandle, high);
        InsertedAfter(s, s1, Now(), k, h, wantHandle);
        StaysWithin(s, s1, Now(), k, h, capacity, wantHandle);
        if !wantHandle {
          EnlistedAfter(s, Now(), k, id, h, highPriPoolRatio, highPriPoolCapacity, WayMade(s1, (key, hash)).low);
        }
      }
    }
  }

  /** What clients may do.  A handle is named by its identifier; a call that its contract forbids,
      such as releasing a reference one does not hold, is left out of the run. */
  datatype Op =
    | OpInsert(key: Key, hash: nat, charge: nat, wantHandle: bool, high: bool)
    | OpLookup(key: Key, hash: nat)
    | OpRef(id: Id)
    | OpRelease(id: Id, forceErase: bool)
    | OpErase(key: Key, hash: nat)
    | OpSetCapacity(capacity: nat)
    | OpSetStrict(strict: bool)
    | OpSetRatio(ratio: real)
    | OpEraseUnRef

  /** One call: a handle is freed only when clients hold nothing of it, or give back the last. */
  method Do(shard: LRUCacheShard, op: Op)
    requires shard.Valid()
    modifies shard, shard.pool.Repr, shard.index
    ensures fresh(shard.pool.Repr - old(shard.pool.Repr))
    ensures shard.Valid() && old(shard.freed) <= shard.freed
    ensures forall x ::
              x in old(shard.external) && old(shard.external)[x] > (if op.OpRelease? && op.id == x then 1 else 0) ==>
                x in shard.external && x in shard.handles && x !in shard.freed
  {
    hide PoolList.Valid, HandleTables.HandleTable.Valid, InvBut;
    match op {
      case OpInsert(key, hash, charge, wantHandle, high) =>
        var ok, h, k := shard.Insert(key, hash, charge, wantHandle, high);
      case OpLookup(key, hash) => var e := shard.Lookup(key, hash);
      case OpRef(id) => if id in shard.handles { shard.Ref(id); }
      case OpRelease(id, forceErase) =>
        var held := shard.Holds(id);
        if held { var last := shard.Release(id, forceErase); }
      case OpErase(key, hash) => var last := shard.Erase(key, hash);
      case OpSetCapacity(capacity) => shard.SetCapacity(capacity);
      case OpSetStrict(strict) => shard.strictCapacityLimit := strict;
      case OpSetRatio(ratio) => if ratio >= 0.0 { shard.SetHighPriorityPoolRatio(ratio); }
      case OpEraseUnRef => shard.EraseUnRefEntries();
    }
    AllocatedIsNotFreed(shard.Now());
  }

  lemma AllocatedIsNotFreed(s: State)
    requires Inv(s)
    ensures forall x :: x in s.external ==> x in s.handles && x !in s.freed
  {
  }

  /** What a call may free: handles that no client refers to, but for a reference that it gives back. */
  ghost predicate FreesUnheld(s: State, s': State, op: Op) {
    && s.freed <= s'.freed
    && forall x :: x in s'.freed && x !in s.freed && x in s.external ==>
         s.external[x] <= if op.OpRelease? && op.id == x then 1 else 0
  }

  /** The states between the calls of a run. */
  ghost predicate IsTrace(trace: seq<State>, ops: seq<Op>) {
    && |trace| == |ops| + 1 && trace[0].freed == []
    && forall k :: 0 <= k < |ops| ==> FreesUnheld(trace[k], trace[k + 1], ops[k])
  }

  lemma LongerTrace(trace: seq<State>, ops: seq<Op>, s: State, op: Op)
    requires IsTrace(trace, ops) && FreesUnheld(trace[|ops|], s, op)
    ensures IsTrace(trace + [s], ops + [op])
  {
    var trace', ops' := trace + [s], ops + [op];
    forall k | 0 <= k < |ops'|
      ensures FreesUnheld(trace'[k], trace'[k + 1], ops'[k])
    {
      assert k < |ops| ==> FreesUnheld(trace[k], trace[k + 1], ops[k]);
    }
  }

  lemma FreedOnce(s: State)
    requires Inv(s)
    ensures Distinct(s.freed) && forall id: Id :: id in s.freed <==> id < s.nextId && id !in s.handles
  {
  }

  /** Any run of a shard, from empty: following the `next` pointers of the circular list gives exactly
      the handles that only the cache refers to, following `prev` the same backwards, those up to the
      low-priority mark in the low-pri pool and those behind it in the high-pri pool; the buckets of
      the hash table hold exactly the handles in the cache; the usage is the sum of the charges of all
      handles that are allocated, the pinned usage leaves out the list, and the cache exceeds its
      capacity only while everything in it is referenced.  Every handle ever made is allocated or has
      been freed, once, and when it was freed no client held a reference, but for the one that the
      call gave back. */
  method AnyRun(capacity: nat, strict: bool, ratio: real, ops: seq<Op>)
    returns (usage: int, pinned: int, limit: nat, handles: map<Id, Handle>, lru: seq<Id>, back: seq<Id>, mark: nat,
             buckets: seq<seq<HandleTables.Entry>>, made: nat, ghost end: State, ghost trace: seq<State>)
    requires ratio >= 0.0
    ensures IsTrace(trace, ops) && end == trace[|ops|]
    ensures Distinct(end.freed) && forall id: Id :: id in end.freed <==> id < made && id !in handles
    ensures Inv(end) && end.handles == handles && end.lru == lru && end.low == mark && end.nextId == made
    ensures usage == SumBelow(handles, made)
    ensures forall id :: id in lru <==> id in handles && Evictable(handles[id])
    ensures forall i :: 0 <= i < |lru| ==> lru[i] in handles && (handles[lru[i]].inHighPool <==> i >= mark)
    ensures |back| == |lru| && forall i :: 0 <= i < |lru| ==> back[i] == lru[|lru| - 1 - i]
    ensures HandleTables.Holds(buckets, end.table)
    ensures 0 <= pinned == usage - SumOf(handles, lru)
    ensures usage > limit ==> lru == [] && pinned == usage
  {
    hide PoolList.Valid, HandleTables.HandleTable.Valid, InvBut, HandleTables.Holds;
    var shard := new LRUCacheShard(capacity, strict, ratio);
    trace := [shard.Now()];
    for i := 0 to |ops|
      invariant shard.Valid() && fresh(shard) && fresh(shard.pool.Repr) && fresh(shard.index)
      invariant IsTrace(trace, ops[..i]) && trace[i] == shard.Now()
    {
      Do(shard, ops[i]);
      LongerTrace(trace, ops[..i], shard.Now(), ops[i]);
      trace := trace + [shard.Now()];
      assert ops[..i + 1] == ops[..i] + [ops[i]];
    }
    assert ops[..|ops|] == ops;
    end := shard.Now();
    FreedOnce(end);
    usage, limit := shard.usage, shard.capacity;
    handles, made, buckets := shard.handles, shard.nextId, shard.index.list;
    lru, mark := shard.pool.Walk();
    back := shard.pool.WalkBack();
    Anatomy(end);
    BucketsHold(shard.index);
    pinned := shard.usage - shard.lruUsage;
  }

  lemma LinkableIsOff(s: State, id: Id, busy: set<Id>)
    requires Linkable(s, id, busy)
    ensures id in s.handles && id !in s.lru
  {
  }

  lemma NothingInvalid()
    ensures Inv(State(map[], map[], [], 0, 0, 0, 0, map[], [], 0))
  {
  }

  lemma Anatomy(s: State)
    requires Inv(s)
    ensures s.usage == SumBelow(s.handles, s.nextId) && s.lruUsage == SumOf(s.handles, s.lru) <= s.usage
    ensures forall id :: id in s.lru <==> id in s.handles && Evictable(s.handles[id])
    ensures forall i :: 0 <= i < |s.lru| ==> s.lru[i] in s.handles && (s.handles[s.lru[i]].inHighPool <==> i >= s.low)
  {
    SumOfAtMostAll(s.handles, s.lru, s.nextId);
    forall i | 0 <= i < |s.lru|
      ensures s.lru[i] in s.handles
    {
      assert s.lru[i] in s.lru;
    }
  }

  lemma BucketsHold(t: HandleTables.HandleTable)
    requires t.Valid()
    ensures HandleTables.Holds(t.list, t.m)
  {
  }

  /** In a list without repetition the number has one place. */
  lemma OnlyPlace(ids: seq<Id>, low: nat, ids': seq<Id>, low': nat, id: Id)
    requires Distinct(ids) && id in ids && exists k :: IsRemoved(ids, low, ids', low', id, k)
    ensures var i := IndexOf(ids, id);
            i < |ids| && ids' == ids[..i] + ids[i + 1..] && low' == if i < low then low - 1 else low
  {
    var k :| IsRemoved(ids, low, ids', low', id, k);
    assert ids[IndexOf(ids, id)] == ids[k];
  }

  lemma ListFacts(s: State)
    requires ListOk(s)
    ensures Distinct(s.lru) && s.lruUsage >= 0 && s.highUsage >= 0
  {
  }

  lemma ListIsOk(s: State)
    requires Inv(s)
    ensures ListOk(s)
  {
  }

  lemma UnlinkedIsOff(s: State, id: Id)
    requires Inv(s) && id in s.lru && id in s.handles
    ensures id !in Unlink(s, id).lru
  {
    hide InvBut;
    UnlinkKeeps(s, id, {});
    assert {} + {id} == {id};
    BusyIsOff(Unlink(s, id), id);
  }

  lemma SameWithout(hs: map<Id, Handle>, id: Id, h: Handle)
    requires id in hs
    ensures hs[id := h] - {id} == hs - {id}
  {
  }

  lemma UnlinkTouches(s: State, id: Id)
    requires id in s.handles
    ensures id in s.lru ==>
              var s' := Unlink(s, id);
              s' == s.(lru := s'.lru, low := s'.low, lruUsage := s'.lruUsage, highUsage := s'.highUsage)
  {
  }

  lemma AcquiredFacts(s: State, id: Id, hit: bool)
    requires Inv(s) && id in s.handles && id in s.external
    ensures var s' := Acquired(s, id, hit);
            && Referenced(s, s', id, hit) && |s'.lru| <= |s.lru|
            && s'.table == s.table && s'.freed == s.freed && s'.usage == s.usage
  {
    hide InvBut;
    AcquireKeeps(s, id, hit);
  }

  lemma DroppedKeeps(s: State, id: Id)
    requires InvBut(s, {id}) && id in s.handles && id in s.external && s.handles[id].refs == 1 && s.handles[id].inCache
    ensures InvBut(s.(table := s.table - {TableKey(s.handles[id])},
                      handles := s.handles[id := s.handles[id].(inCache := false, refs := s.handles[id].refs - 1)]),
                        {id})
  {
    hide InvBut;
    UncacheKeeps(s, id, {id});
    RecountKeeps(Uncache(s, id), id, Uncache(s, id).handles[id].(refs := 0), s.external[id], {id});
    DetachedFacts(s, id);
  }

  lemma HighPools(s: State, id: Id)
    requires id in s.handles
    ensures SameButPools(s.handles, LinkHigh(s, id).handles)
    ensures LinkHigh(s, id).lru == s.lru + [id] && LinkHigh(s, id).low == s.low
  {
  }

  lemma LowPools(s: State, id: Id)
    requires id in s.handles && s.low <= |s.lru|
    ensures SameButPools(s.handles, LinkLow(s, id).handles)
    ensures LinkLow(s, id).lru == s.lru[..s.low] + [id] + s.lru[s.low..] && LinkLow(s, id).low == s.low + 1
  {
  }

  lemma SamePoolsTwice(hs: map<Id, Handle>, hs1: map<Id, Handle>, hs2: map<Id, Handle>)
    requires SameButPools(hs, hs1) && SameButPools(hs1, hs2)
    ensures SameButPools(hs, hs2)
  {
  }

  /** One more reference to `id`, which leaves the list if it is on it, and nothing else. */
  ghost predicate Referenced(s: State, s': State, id: Id, hit: bool) {
    && id in s.handles && id in s.external
    && var h := s.handles[id];
    && s'.external == s.external[id := s.external[id] + 1]
    && s'.handles == s.handles[id := h.(refs := h.refs + 1, hit := hit)]
    && s'.lru == Without(s.lru, id) && id !in s'.lru && s'.nextId == s.nextId
  }

  lemma LiveHandle(s: State, id: Id)
    requires Inv(s) && id in s.handles
    ensures ListOk(s) && id in s.external && (id in s.lru <==> Evictable(s.handles[id]))
  {
  }

  lemma HeldHandle(s: State, id: Id)
    requires Inv(s) && id in s.external && s.external[id] > 0
    ensures id in s.handles && id !in s.lru && RefsOk(s, id) && ListOk(s)
  {
    assert RefsOk(s, id);
  }

  lemma AcquireKeeps(s: State, id: Id, hit: bool)
    requires Inv(s) && id in s.handles && id in s.external
    ensures Inv(Acquired(s, id, hit)) && id !in Acquired(s, id, hit).lru
  {
    hide InvBut;
    assert RefsOk(s, id) by {
      AllCounted(s, id);
    }
    var s1 := if id in s.lru then Unlink(s, id) else s;
    assert {} + {id} == {id} && {id} - {id} == {};
    if id in s.lru {
      UnlinkKeeps(s, id, {});
    } else {
      StartWork(s, id, {});
    }
    var h := s.handles[id];
    RecountKeeps(s1, id, h.(refs := h.refs + 1, hit := hit), s.external[id] + 1, {id});
    var s2 := Recount(s1, id, h.(refs := h.refs + 1, hit := hit), s.external[id] + 1);
    Settle(s2, id, {id});
    BusyIsOff(s1, id);
  }

  lemma BusyIsOff(s: State, id: Id)
    requires InvBut(s, {id})
    ensures id !in s.lru
  {
  }

  /** A client gives up a reference; the handle is now in the middle of the operation. */
  lemma UnrefKeeps(s: State, id: Id)
    requires Inv(s) && id in s.handles && id in s.external && s.external[id] > 0 && id !in s.lru && RefsOk(s, id)
    ensures var h := s.handles[id];
            InvBut(Recount(s, id, h.(refs := h.refs - 1), s.external[id] - 1), {id})
  {
    hide InvBut;
    assert {} + {id} == {id};
    StartWork(s, id, {});
    RecountKeeps(s, id, s.handles[id].(refs := s.handles[id].refs - 1), s.external[id] - 1, {id});
  }

  lemma DetachHeld(s: State, id: Id)
    requires Inv(s) && id in s.handles && id in s.external && s.handles[id].inCache && RefsOk(s, id) &&
             s.external[id] > 0 && id !in s.lru
    ensures var h := s.handles[id];
            Inv(Recount(Uncache(s, id), id, h.(inCache := false, refs := h.refs - 1), s.external[id]))
  {
    hide InvBut;
    assert {} + {id} == {id} && {id} - {id} == {};
    StartWork(s, id, {});
    UncacheKeeps(s, id, {id});
    var s1, h := Uncache(s, id), s.handles[id];
    RecountKeeps(s1, id, h.(inCache := false, refs := h.refs - 1), s.external[id], {id});
    Settle(Recount(s1, id, h.(inCache := false, refs := h.refs - 1), s.external[id]), id, {id});
  }

  lemma RejectKeeps(s: State)
    requires Inv(s)
    ensures Inv(s.(nextId := s.nextId + 1, freed := s.freed + [s.nextId]))
  {
    var s' := s.(nextId := s.nextId + 1, freed := s.freed + [s.nextId]);
    forall x | x in s'.handles
      ensures RefsOk(s', x)
    {
      assert RefsOk(s, x);
    }
    assert Charge(s.handles, s.nextId) == 0;
  }

  lemma EmptyListWeighsNothing(s: State)
    requires Inv(s)
    ensures s.lru == [] ==> s.lruUsage == 0
  {
  }

  lemma HeldCount(s: State)
    requires Inv(s)
    ensures s.external.Keys == s.handles.Keys
    ensures forall id :: id in s.handles ==>
            s.handles[id].refs == s.external[id] + (if s.handles[id].inCache then 1 else 0)
  {
    forall id | id in s.handles
      ensures RefsOk(s, id)
    {
    }
  }
}
