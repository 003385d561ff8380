/** What the operations of an LRU cache shard do to its state. */
module LruSpecs {
  import opened CacheKeys
  import opened LruState

  /** The handles differ in their pool flags at most. */
  ghost predicate SameButPools(hs: map<Id, Handle>, hs': map<Id, Handle>) {
    hs'.Keys == hs.Keys && forall x :: x in hs ==> hs'[x] == hs[x].(inHighPool := hs'[x].inHighPool)
  }

  lemma SamePools(hs: map<Id, Handle>)
    ensures SameButPools(hs, hs)
  {
  }

  lemma OneMorePool(hs: map<Id, Handle>, hs': map<Id, Handle>, id: Id)
    requires SameButPools(hs, hs') && id in hs'
    ensures SameButPools(hs, hs'[id := hs'[id].(inHighPool := false)])
  {
  }

  /** What clients hold stays allocated and counted. */
  ghost predicate Kept(external: map<Id, nat>, external': map<Id, nat>) {
    forall x :: x in external && external[x] > 0 ==> x in external' && external'[x] == external[x]
  }

  lemma ListEntry(s: State, id: Id)
    requires Inv(s) && id in s.lru
    ensures ListOk(s) && id in s.handles && Evictable(s.handles[id]) && id in s.external && s.external[id] == 0 &&
            RefsOk(s, id)
  {
    assert id in s.handles;
    assert RefsOk(s, id);
  }

  lemma TableEntry(s: State, k: (Key, nat))
    requires Inv(s) && k in s.table
    ensures var id := s.table[k];
            id in s.handles && s.handles[id].inCache && id in s.external && TableKey(s.handles[id]) == k
    ensures ListOk(s) && (s.table[k] in s.lru <==> s.handles[s.table[k]].refs == 1)
  {
  }

  /** Unlinking, uncaching and discarding an entry of the list. */
  ghost function Evicted(s: State, id: Id): State
    requires id in s.lru && id in s.handles
  {
    Discard(Uncache(Unlink(s, id), id), id)
  }

  lemma EvictKeeps(s: State, id: Id)
    requires Inv(s) && id in s.lru && id in s.handles && s.handles[id].inCache
    ensures Inv(Evicted(s, id))
  {
    hide InvBut;
    UnlinkKeeps(s, id, {});
    var s1 := Unlink(s, id);
    assert {} + {id} == {id};
    UncacheKeeps(s1, id, {id});
    DiscardKeeps(Uncache(s1, id), id, {id});
    assert {id} - {id} == {};
  }

  lemma EvictedFacts(s: State, id: Id)
    requires Inv(s) && id in s.lru && id in s.handles && id in s.external && s.external[id] == 0
    ensures var s' := Evicted(s, id);
            && s'.handles == s.handles - {id} && s'.external == s.external - {id} && s'.freed == s.freed + [id]
            && s'.usage == s.usage - s.handles[id].charge && s'.lruUsage == s.lruUsage - s.handles[id].charge
            && s'.table == s.table - {TableKey(s.handles[id])} && |s'.lru| == |s.lru| - 1 &&
              Kept(s.external, s'.external)
            && s'.nextId == s.nextId
  {
    hide InvBut;
  }

  // ----- Evicting the oldest entries

  function Ids(ids: seq<Id>): set<Id> {
    set x | x in ids
  }

  /** The table without the entries of the given handles. */
  function TableWithout(table: map<(Key, nat), Id>, ids: seq<Id>): map<(Key, nat), Id> {
    map k | k in table && table[k] !in ids :: table[k]
  }

  /** `s'` is `s` after evicting the `k` oldest entries. */
  ghost predicate Shrunk(s: State, s': State, k: nat) {
    && k <= |s.lru|
    && var gone := s.lru[..k];
    && s'.lru == s.lru[k..] && s'.low == (if k <= s.low then s.low - k else 0)
    && s'.freed == s.freed + gone && s'.nextId == s.nextId
    && s'.usage == s.usage - SumOf(s.handles, gone) && s'.lruUsage == s.lruUsage - SumOf(s.handles, gone)
    && s'.handles == s.handles - Ids(gone) && s'.external == s.external - Ids(gone)
    && s'.table == TableWithout(s.table, gone)
  }

  /** The `k` oldest entries are the fewest whose eviction makes room, or all. */
  ghost predicate LeastRoom(s: State, charge: nat, capacity: nat, k: nat) {
    && k <= |s.lru|
    && (s.usage - SumOf(s.handles, s.lru[..k]) + charge <= capacity || k == |s.lru|)
    && forall j :: 0 <= j < k ==> s.usage - SumOf(s.handles, s.lru[..j]) + charge > capacity
  }

  lemma NotShrunk(s: State)
    ensures Shrunk(s, s, 0)
  {
    assert s.lru[..0] == [] && s.lru[0..] == s.lru;
    assert s.handles - Ids([]) == s.handles && s.external - Ids([]) == s.external;
    assert TableWithout(s.table, []) == s.table;
  }

  lemma ShrunkFacts(s: State, s': State, k: nat)
    requires Inv(s) && Shrunk(s, s', k)
    ensures forall x :: x in s'.handles <==> x in s.handles && x !in s.lru[..k]
    ensures forall x :: x in s'.handles ==> s'.handles[x] == s.handles[x]
    ensures Kept(s.external, s'.external)
  {
    hide InvBut;
    forall x | x in s.external && s.external[x] > 0
      ensures x !in s.lru[..k]
    {
      if x in s.lru[..k] {
        ListEntry(s, x);
        assert false;
      }
    }
  }

  lemma AllShrunk(s: State, s': State, k: nat)
    requires Shrunk(s, s', k) && s'.lru == []
    ensures k == |s.lru| && s'.freed == s.freed + s.lru
  {
    assert s.lru[..|s.lru|] == s.lru;
  }

  /** One eviction more. */
  lemma OneLess(s: State, s': State, k: nat)
    requires Inv(s') && Shrunk(s, s', k) && s'.lru != []
    ensures s'.lru[0] in s'.handles && k < |s.lru| && s'.lru[0] == s.lru[k]
    ensures var s'' := Evicted(s', s'.lru[0]);
            && Shrunk(s, s'', k + 1) && |s''.lru| < |s'.lru|
            && s''.usage == s'.usage - Charge(s.handles, s.lru[k])
  {
    hide InvBut, Evicted, SumOf;
    var id, gone := s'.lru[0], s.lru[..k];
    ListEntry(s', id);
    EvictedFacts(s', id);
    EvictedOldest(s', id);
    assert s.lru[..k + 1] == gone + [id];
    assert s.freed + gone + [id] == s.freed + s.lru[..k + 1];
    SumOfAppend(s.handles, gone, [id]);
    SumOfOne(s.handles, id);
    assert Ids(gone + [id]) == Ids(gone) + {id};
    assert s'.handles - {id} == s.handles - Ids(gone + [id]) && s'.external - {id} == s.external - Ids(gone + [id]);
    TableWithoutOne(s', id);
    assert TableWithout(TableWithout(s.table, gone), [id]) == TableWithout(s.table, gone + [id]);
  }

  lemma EvictedOldest(s: State, id: Id)
    requires s.lru != [] && s.lru[0] == id && id in s.handles
    ensures Evicted(s, id).lru == s.lru[1..] && Evicted(s, id).low == if s.low > 0 then s.low - 1 else 0
  {
  }

  /** In the table a handle has one entry, that of its key. */
  lemma TableWithoutOne(s: State, id: Id)
    requires Inv(s) && id in s.handles && s.handles[id].inCache
    ensures s.table - {TableKey(s.handles[id])} == TableWithout(s.table, [id])
  {
  }

  // ----- Giving up the entry under a key

  /** The cache gives up its reference to an entry that clients hold. */
  ghost function GivenUp(s: State, id: Id): State
    requires id in s.handles && s.handles[id].refs > 0
  {
    var h := s.handles[id];
    s.(table := s.table - {TableKey(h)}, handles := s.handles[id := h.(inCache := false, refs := h.refs - 1)])
  }

  /** The entry under a key leaves the table: it is freed, or stays with its clients. */
  ghost function WayMade(s: State, key: (Key, nat)): State {
    if key in s.table && s.table[key] in s.handles && s.handles[s.table[key]].refs > 0 then
      var id := s.table[key];
      if id in s.lru then Evicted(s, id) else GivenUp(s, id)
    else s
  }

  lemma DetachedFacts(s: State, id: Id)
    requires id in s.handles && id in s.external && s.handles[id].refs > 0
    ensures var h' := s.handles[id].(inCache := false, refs := s.handles[id].refs - 1);
            Recount(Uncache(s, id), id, h', s.external[id]) ==
            s.(table := s.table - {TableKey(s.handles[id])}, handles := s.handles[id := h'])
  {
    assert s.external[id := s.external[id]] == s.external;
  }

  // ----- One more client

  ghost function Acquired(s: State, id: Id, hit: bool): State
    requires id in s.handles && id in s.external
  {
    var h := s.handles[id];
    Recount(if id in s.lru then Unlink(s, id) else s, id, h.(refs := h.refs + 1, hit := hit), s.external[id] + 1)
  }

  // ----- Onto the list

  /** The entries behind position `low` overflow into the low-pri pool one by one, and no more of them
      than needed, until the high-pri pool fits. */
  ghost predicate Trimmed(low: nat, s': State, poolCapacity: real) {
    && low <= s'.low <= |s'.lru| && s'.highUsage as real <= poolCapacity
    && (s'.low > low ==> (s'.highUsage + Charge(s'.handles, s'.lru[s'.low - 1])) as real > poolCapacity)
  }

  /** A handle has been put on the list `ids`, the first `low` of which are the low-pri pool. */
  ghost predicate Listed(ids: seq<Id>, low: nat, id: Id, h: Handle, s': State, ratio: real, poolCapacity: real) {
    if ratio > 0.0 && (h.highPri || h.hit) then s'.lru == ids + [id] && Trimmed(low, s', poolCapacity)
    else low <= |ids| && s'.lru == ids[..low] + [id] + ids[low..] && s'.low == low + 1
  }

  // ----- Insert

  /** A new handle: one reference for the cache, one if a client wants it; not hit yet. */
  function NewHandle(key: Key, hash: nat, charge: nat, wantHandle: bool, high: bool): Handle {
    Handle(key, hash, charge, if wantHandle then 2 else 1, true, high, false, false)
  }

  /** No client holds the handle. */
  predicate Unheld(s: State, id: Id) {
    id in s.external && s.external[id] == 0
  }

  /** What an insertion that evicts the `k` oldest entries frees: those, and then the entry of the same
      key if it is still there and no client holds it. */
  ghost function Gone(s: State, k: nat, key: (Key, nat)): seq<Id>
    requires k <= |s.lru|
  {
    if key in s.table && s.table[key] !in s.lru[..k] && Unheld(s, s.table[key]) then s.lru[..k] + [s.table[key]]
    else s.lru[..k]
  }

  /** What it leaves of a handle that it does not free: the cache gives up the entry of the same key. */
  ghost function Left(s: State, key: (Key, nat), x: Id): Handle
    requires x in s.handles
  {
    var h := s.handles[x];
    if key in s.table && s.table[key] == x then h.(inCache := false, refs := if h.refs > 0 then h.refs - 1 else 0)
    else h
  }

  function Without(ids: seq<Id>, id: Id): seq<Id> {
    if id in ids then ids[..IndexOf(ids, id)] + ids[IndexOf(ids, id) + 1..] else ids
  }

  /** What it leaves of the list. */
  ghost function Remaining(s: State, k: nat, key: (Key, nat)): seq<Id>
    requires k <= |s.lru|
  {
    if key in s.table then Without(s.lru[k..], s.table[key]) else s.lru[k..]
  }

  /** `s'` is `s` after making room and giving up the entry of the same key. */
  ghost predicate Cleared(s: State, s': State, k: nat, key: (Key, nat)) {
    && k <= |s.lru|
    && var gone := Gone(s, k, key);
    && s'.freed == s.freed + gone && s'.usage == s.usage - SumOf(s.handles, gone) && s'.nextId == s.nextId
    && s'.external == s.external - Ids(gone) && s'.handles.Keys == s.handles.Keys - Ids(gone)
    && (forall x :: x in s'.handles ==> s'.handles[x] == Left(s, key, x))
    && s'.table == TableWithout(s.table, gone) - {key}
    && s'.lru == Remaining(s, k, key)
  }

  /** After room has been made the entry of the same key was evicted, or is there as before. */
  lemma SameKeyAfter(s: State, s1: State, k: nat, key: (Key, nat))
    requires Inv(s) && Inv(s1) && Shrunk(s, s1, k)
    ensures key in s1.table <==> key in s.table && s.table[key] !in s.lru[..k]
    ensures key in s1.table ==>
              var id := s.table[key];
              && s1.table[key] == id && id in s1.handles && s1.handles[id] == s.handles[id] && id in s1.external
              && s1.external[id] == s.external[id] && s1.handles[id].inCache && TableKey(s.handles[id]) == key
              && s1.handles[id].refs > 0 && (id in s1.lru <==> Unheld(s, id))
  {
    hide InvBut, SumOf;
    if key in s1.table {
      TableEntry(s1, key);
      AllCounted(s1, s1.table[key]);
    }
  }

  lemma AllCounted(s: State, id: Id)
    requires Inv(s) && id in s.handles
    ensures id in s.external && RefsOk(s, id)
  {
  }

  lemma ClearedWithoutKey(s: State, s1: State, k: nat, key: (Key, nat))
    requires Inv(s) && Inv(s1) && Shrunk(s, s1, k) && key !in s1.table
    ensures Cleared(s, s1, k, key)
  {
    hide InvBut, SumOf;
    SameKeyAfter(s, s1, k, key);
    assert Gone(s, k, key) == s.lru[..k];
    assert TableWithout(s.table, s.lru[..k]) - {key} == s1.table;
    if key in s.table {
      NotInBoth(s, k, s.table[key]);
    }
  }

  lemma NotInBoth(s: State, k: nat, id: Id)
    requires Inv(s) && k <= |s.lru| && id in s.lru[..k]
    ensures id !in s.lru[k..]
  {
  }

  lemma ClearedHeld(s: State, s1: State, k: nat, key: (Key, nat))
    requires Inv(s) && Inv(s1) && Shrunk(s, s1, k) && key in s1.table && s1.table[key] !in s1.lru
    ensures Cleared(s, WayMade(s1, key), k, key)
  {
    hide InvBut, SumOf;
    SameKeyAfter(s, s1, k, key);
    assert Gone(s, k, key) == s.lru[..k];
    assert s1.table - {key} == TableWithout(s.table, s.lru[..k]) - {key};
  }

  lemma ClearedUnheld(s: State, s1: State, k: nat, key: (Key, nat))
    requires Inv(s) && Inv(s1) && Shrunk(s, s1, k) && key in s1.table && s1.table[key] in s1.lru
    ensures Cleared(s, WayMade(s1, key), k, key)
  {
    hide InvBut, SumOf, Evicted;
    SameKeyAfter(s, s1, k, key);
    var id, gone := s.table[key], s.lru[..k];
    EvictedFacts(s1, id);
    assert Gone(s, k, key) == gone + [id];
    assert s.freed + gone + [id] == s.freed + (gone + [id]);
    SumOfAppend(s.handles, gone, [id]);
    SumOfOne(s.handles, id);
    assert Ids(gone + [id]) == Ids(gone) + {id};
    var s2 := WayMade(s1, key);
    assert s2.external == s.external - Ids(gone + [id]);
    TableWithoutOne(s1, id);
    assert TableWithout(TableWithout(s.table, gone), [id]) == TableWithout(s.table, gone + [id]) - {key};
    UnlinkedList(s1, id);
  }

  lemma UnlinkedList(s: State, id: Id)
    requires id in s.lru && id in s.handles
    ensures Evicted(s, id).lru == Without(s.lru, id)
  {
  }

  lemma MakesWay(s: State, s1: State, k: nat, key: (Key, nat))
    requires Inv(s) && Inv(s1) && Shrunk(s, s1, k)
    ensures Cleared(s, WayMade(s1, key), k, key)
  {
    hide InvBut, Cleared, Shrunk;
    if key !in s1.table {
      ClearedWithoutKey(s, s1, k, key);
    } else if s1.table[key] in s1.lru {
      ClearedUnheld(s, s1, k, key);
    } else {
      ClearedHeld(s, s1, k, key);
    }
  }

  /** The first `m` of `ids` are those outside the high-pri pool. */
  ghost predicate LowPart(hs: map<Id, Handle>, ids: seq<Id>, m: nat) {
    m <= |ids| && forall i :: 0 <= i < |ids| ==> ids[i] in hs && (hs[ids[i]].inHighPool <==> i >= m)
  }

  /** A handle `h` has been taken in as number `id`, without a client. */
  ghost predicate Enlisted(s: State, s': State, k: nat, id: Id, h: Handle, ratio: real, poolCapacity: real) {
    && k <= |s.lru|
    && var ids := Remaining(s, k, TableKey(h));
    exists m: nat :: LowPart(s.handles, ids, m) && Listed(ids, m, id, h, s', ratio, poolCapacity)
  }

  /** The insertion of the handle `h`, after evicting the `k` oldest entries. */
  ghost predicate Inserted(s: State, s': State, k: nat, h: Handle, held: nat) {
    && k <= |s.lru|
    && var key, id := TableKey(h), s.nextId;
    && var gone := Gone(s, k, key);
    && s'.freed == s.freed + gone && s'.usage == s.usage - SumOf(s.handles, gone) + h.charge
    && s'.nextId == id + 1
    && s'.external == (s.external - Ids(gone))[id := held]
    && s'.handles.Keys == s.handles.Keys - Ids(gone) + {id}
    && s'.handles[id] == h.(inHighPool := s'.handles[id].inHighPool)
    && (forall x :: x in s'.handles && x != id ==>
      s'.handles[x] == Left(s, key, x).(inHighPool := s'.handles[x].inHighPool))
    && s'.table == TableWithout(s.table, gone)[key := id]
  }

  lemma CreatedIsInserted(s: State, s2: State, s': State, k: nat, h: Handle, held: nat)
    requires Inv(s) && Cleared(s, s2, k, TableKey(h))
    requires var s3 := Create(s2, h, held);
             && SameButPools(s3.handles, s'.handles) && s'.external == s3.external && s'.table == s3.table
             && s'.usage == s3.usage && s'.freed == s3.freed && s'.nextId == s3.nextId
    ensures Inserted(s, s', k, h, held)
  {
    hide InvBut, SumOf, Gone, Left;
    var key, id := TableKey(h), s.nextId;
    var gone := Gone(s, k, key);
    assert id !in s.handles by {
      NewId(s);
    }
    assert (TableWithout(s.table, gone) - {key})[key := id] == TableWithout(s.table, gone)[key := id];
  }

  lemma NewId(s: State)
    requires Inv(s)
    ensures s.nextId !in s.external && s.nextId !in s.handles
  {
  }

  /** The boundary between the pools in what is left of the list. */
  lemma LowPartLeft(s: State, s2: State, k: nat, key: (Key, nat))
    requires Inv(s) && Inv(s2) && Cleared(s, s2, k, key)
    ensures LowPart(s.handles, Remaining(s, k, key), s2.low)
  {
    hide SumOf, Gone;
    var ids := Remaining(s, k, key);
    forall i | 0 <= i < |ids|
      ensures ids[i] in s.handles && (s.handles[ids[i]].inHighPool <==> i >= s2.low)
    {
      assert ids[i] in s2.lru && ids[i] in s2.handles;
    }
  }

  /** Room was made, but the new handle was freed at once. */
  ghost predicate Refused(s: State, s': State, k: nat) {
    && s.nextId < s'.nextId && s'.freed != []
    && var id := s.nextId;
    s'.freed[|s'.freed| - 1] == id && s'.nextId == id + 1 && id !in s'.handles &&
    Shrunk(s, s'.(nextId := id, freed := s'.freed[..|s'.freed| - 1]), k)
  }

  lemma RefusedAfter(s: State, s1: State, s': State, k: nat)
    requires Inv(s) && Shrunk(s, s1, k) && s' == s1.(nextId := s1.nextId + 1, freed := s1.freed + [s1.nextId])
    ensures Refused(s, s', k) && s.freed <= s'.freed && s'.external == s1.external
  {
    hide InvBut, SumOf;
    NewId(s);
    assert s'.freed[..|s'.freed| - 1] == s1.freed;
    assert s1 == s'.(nextId := s.nextId, freed := s1.freed);
  }

  lemma ShrunkUsage(s: State, s': State, k: nat)
    requires Shrunk(s, s', k)
    ensures k <= |s.lru| && s'.usage == s.usage - SumOf(s.handles, s.lru[..k]) && s'.lru == s.lru[k..]
  {
  }

  /** Eviction leaves alone what is off the list. */
  lemma SameOutside(s: State, s': State, k: nat)
    requires Shrunk(s, s', k)
    ensures s'.usage - s'.lruUsage == s.usage - s.lruUsage && s'.nextId == s.nextId && s.freed <= s'.freed
  {
  }

  /** When no room could be made the list is empty. */
  lemma RoomMeansEmpty(s: State, s': State, charge: nat, capacity: nat, k: nat)
    requires Shrunk(s, s', k) && LeastRoom(s, charge, capacity, k)
    ensures s'.usage + charge > capacity ==> s'.lru == []
  {
  }

  lemma WayFacts(s: State, key: (Key, nat))
    requires Inv(s)
    ensures var s' := WayMade(s, key);
            && s'.table == s.table - {key} && Kept(s.external, s'.external) && key !in s'.table
            && s'.nextId == s.nextId && s'.usage <= s.usage && |s'.lru| <= |s.lru|
            && if key in s.table && Unheld(s, s.table[key]) then
                 s'.freed == s.freed + [s.table[key]] && s'.external == s.external - {s.table[key]}
               else s'.freed == s.freed && s'.external == s.external
  {
    hide InvBut, SumOf, Evicted;
    if key in s.table {
      TableEntry(s, key);
      var id := s.table[key];
      AllCounted(s, id);
      if id in s.lru {
        EvictedFacts(s, id);
      }
    } else {
      assert s.table - {key} == s.table;
    }
  }

  lemma InsertedAfter(s: State, s1: State, s': State, k: nat, h: Handle, wantHandle: bool)
    requires Inv(s) && Inv(s1) && Shrunk(s, s1, k)
    requires var s2 := WayMade(s1, TableKey(h));
             var s3 := Create(s2, h, if wantHandle then 1 else 0);
             && Inv(s2)
             && SameButPools(s3.handles, s'.handles) && s'.external == s3.external && s'.table == s3.table
             && s'.usage == s3.usage && s'.freed == s3.freed && s'.nextId == s3.nextId
    ensures Inserted(s, s', k, h, if wantHandle then 1 else 0)
    ensures LowPart(s.handles, Remaining(s, k, TableKey(h)), WayMade(s1, TableKey(h)).low)
    ensures WayMade(s1, TableKey(h)).lru == Remaining(s, k, TableKey(h))
    ensures s.freed <= s'.freed && Kept(s.external, s'.external)
  {
    hide InvBut, WayMade, Shrunk, SameButPools, Inserted, LowPart;
    var s2 := WayMade(s1, TableKey(h));
    MakesWay(s, s1, k, TableKey(h));
    CreatedIsInserted(s, s2, s', k, h, if wantHandle then 1 else 0);
    LowPartLeft(s, s2, k, TableKey(h));
    ShrunkFacts(s, s1, k);
    WayFacts(s1, TableKey(h));
    NewId(s);
  }

  lemma EnlistedAfter(s: State, s': State, k: nat, id: Id, h: Handle, ratio: real, poolCapacity: real, m: nat)
    requires k <= |s.lru| && LowPart(s.handles, Remaining(s, k, TableKey(h)), m)
    requires Listed(Remaining(s, k, TableKey(h)), m, id, h, s', ratio, poolCapacity)
    ensures Enlisted(s, s', k, id, h, ratio, poolCapacity)
  {
    hide LowPart, Listed, Remaining;
  }

  /** The cache is over its capacity afterwards only if the list is empty. */
  lemma StaysWithin(s: State, s1: State, s': State, k: nat, h: Handle, capacity: nat, wantHandle: bool)
    requires Inv(s1) && Shrunk(s, s1, k) && LeastRoom(s, h.charge, capacity, k)
    requires wantHandle || s1.usage - s1.lruUsage + h.charge <= capacity
    requires s1.lru == [] ==> s1.lruUsage == 0
    requires var s2 := WayMade(s1, TableKey(h));
             s'.usage == s2.usage + h.charge && (wantHandle ==> s'.lru == s2.lru)
    ensures s'.usage > capacity ==> s'.lru == []
  {
    hide InvBut, Shrunk, WayMade;
    RoomMeansEmpty(s, s1, h.charge, capacity, k);
    WayFacts(s1, TableKey(h));
  }
}
