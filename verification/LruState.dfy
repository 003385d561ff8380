/** The state of an LRU cache shard and the invariant that all its operations keep.

    Handles are named by identifiers in order of creation, so that the state can tell for every
    handle ever made whether it is still allocated, and how often it was freed.  The table is the
    finite map that the buckets of a shard's HandleTable hold, the list is the sequence that its
    circle of linked nodes spells. */
module LruState {
  import opened CacheKeys

  datatype Handle = Handle(
    key: Key, hash: nat, charge: nat,
    refs: nat,               // the cache itself counts as one
    inCache: bool, highPri: bool, inHighPool: bool, hit: bool)

  datatype State = State(
    handles: map<Id, Handle>,      // allocated and not freed
    table: map<(Key, nat), Id>,
    lru: seq<Id>,                  // from the oldest, lru_.next, to the newest, lru_.prev
    low: nat,                      // lru_low_pri_: this many entries make up the low-pri pool
    usage: int, lruUsage: int, highUsage: int,
    external: map<Id, nat>,        // references handed out and not released
    freed: seq<Id>,
    nextId: Id)

  // ----- Sums of charges

  function Charge(hs: map<Id, Handle>, id: Id): nat {
    if id in hs then hs[id].charge else 0
  }

  function SumBelow(hs: map<Id, Handle>, n: nat): nat {
    if n == 0 then 0 else SumBelow(hs, n - 1) + Charge(hs, n - 1)
  }

  function SumOf(hs: map<Id, Handle>, ids: seq<Id>): nat {
    if ids == [] then 0 else Charge(hs, ids[0]) + SumOf(hs, ids[1..])
  }

  lemma {:induction false} SumBelowChange(hs: map<Id, Handle>, hs': map<Id, Handle>, id: Id, n: nat)
    requires forall x :: x != id ==> Charge(hs, x) == Charge(hs', x)
    ensures SumBelow(hs', n) == SumBelow(hs, n) + if id < n then Charge(hs', id) - Charge(hs, id) else 0
  {
    if n > 0 {
      SumBelowChange(hs, hs', id, n - 1);
    }
  }

  lemma {:induction false} SumOfSame(hs: map<Id, Handle>, hs': map<Id, Handle>, ids: seq<Id>)
    requires forall x :: x in ids ==> Charge(hs, x) == Charge(hs', x)
    ensures SumOf(hs', ids) == SumOf(hs, ids)
  {
    if ids != [] {
      assert ids[0] in ids;
      SumOfSame(hs, hs', ids[1..]);
    }
  }

  lemma {:induction false} SumOfAppend(hs: map<Id, Handle>, a: seq<Id>, b: seq<Id>)
    ensures SumOf(hs, a + b) == SumOf(hs, a) + SumOf(hs, b)
  {
    if a == [] {
      assert a + b == b;
    } else {
      assert (a + b)[1..] == a[1..] + b;
      SumOfAppend(hs, a[1..], b);
    }
  }

  lemma SumOfOne(hs: map<Id, Handle>, id: Id)
    ensures SumOf(hs, [id]) == Charge(hs, id)
  {
    assert [id][1..] == [];
  }

  /** The entries of a list without repetitions weigh no more than all handles. */
  lemma {:induction false} SumOfAtMostAll(hs: map<Id, Handle>, ids: seq<Id>, n: nat)
    requires Distinct(ids) && forall x :: x in ids ==> x < n
    ensures SumOf(hs, ids) <= SumBelow(hs, n)
    decreases |ids|
  {
    if ids != [] {
      var id, rest := ids[0], ids[1..];
      var hs' := hs - {id};
      assert forall x :: x in rest ==> x in ids && x != id;
      SumOfSame(hs, hs', rest);
      SumBelowChange(hs, hs', id, n);
      SumOfAtMostAll(hs', rest, n);
      assert id in ids;
    }
  }

  // ----- Invariant

  ghost predicate Distinct(ids: seq<Id>) {
    forall i, j :: 0 <= i < j < |ids| ==> ids[i] != ids[j]
  }

  /** The first `low` entries are the low-pri pool, the others the high-pri pool. */
  ghost predicate PoolsOk(hs: map<Id, Handle>, ids: seq<Id>, low: nat) {
    forall i :: 0 <= i < |ids| && ids[i] in hs ==> (hs[ids[i]].inHighPool <==> i >= low)
  }

  /** The list: no entry twice, split into the two pools, with the right sums. */
  ghost predicate ListOf(hs: map<Id, Handle>, lru: seq<Id>, low: nat, lruUsage: int, highUsage: int) {
    && Distinct(lru) && low <= |lru|
    && (forall id :: id in lru ==> id in hs)
    && PoolsOk(hs, lru, low)
    && lruUsage == SumOf(hs, lru)
    && highUsage == SumOf(hs, lru[low..])
  }

  ghost predicate ListOk(s: State) {
    ListOf(s.handles, s.lru, s.low, s.lruUsage, s.highUsage)
  }

  /** A handle that only the cache refers to. */
  predicate Evictable(h: Handle) {
    h.refs == 1 && h.inCache
  }

  /** The list holds exactly the evictable handles, apart from `busy`. */
  ghost predicate ListExact(s: State, busy: set<Id>) {
    && (forall id :: id in s.handles && id !in busy ==> (id in s.lru <==> Evictable(s.handles[id])))
    && (forall id :: id in busy ==> id !in s.lru)
  }

  /** The hash table holds exactly the handles in the cache, under their keys. */
  ghost predicate TableOf(hs: map<Id, Handle>, table: map<(Key, nat), Id>) {
    && (forall k :: k in table ==> table[k] in hs && hs[table[k]].inCache && TableKey(hs[table[k]]) == k)
    && (forall id :: id in hs && hs[id].inCache ==> TableKey(hs[id]) in table && table[TableKey(hs[id])] == id)
  }

  function TableKey(h: Handle): (Key, nat) {
    (h.key, h.hash)
  }

  /** The counter of a handle is what its clients hold, and one for the cache. */
  ghost predicate RefsOk(s: State, id: Id)
    requires id in s.handles && id in s.external
  {
    && s.handles[id].refs == s.external[id] + (if s.handles[id].inCache then 1 else 0)
    && s.handles[id].refs > 0
  }

  /** Every handle ever made is either allocated or freed, once. */
  ghost predicate HistoryOk(s: State) {
    && s.external.Keys == s.handles.Keys
    && Distinct(s.freed)
    && (forall id :: id in s.freed ==> id < s.nextId && id !in s.handles)
    && (forall id: Id :: id < s.nextId ==> id in s.handles || id in s.freed)
    && (forall id :: id in s.handles ==> id < s.nextId)
    && s.usage == SumBelow(s.handles, s.nextId)
  }

  /** `busy` handles are in the middle of an operation: off the list, counter not settled. */
  ghost predicate InvBut(s: State, busy: set<Id>) {
    && ListOk(s) && ListExact(s, busy) && TableOf(s.handles, s.table) && HistoryOk(s)
    && (forall id :: id in s.handles && id !in busy ==> RefsOk(s, id))
  }

  ghost predicate Inv(s: State) {
    InvBut(s, {})
  }

  // ----- Single changes

  function IndexOf(ids: seq<Id>, id: Id): nat
    requires id in ids
    ensures IndexOf(ids, id) < |ids| && ids[IndexOf(ids, id)] == id
  {
    if ids[0] == id then 0 else 1 + IndexOf(ids[1..], id)
  }

  /** LRU_Remove. */
  function Unlink(s: State, id: Id): State
    requires id in s.lru && id in s.handles
  {
    var i := IndexOf(s.lru, id);
    s.(lru := s.lru[..i] + s.lru[i + 1..],
       low := if i < s.low then s.low - 1 else s.low,
       lruUsage := s.lruUsage - s.handles[id].charge,
       highUsage := if s.handles[id].inHighPool then s.highUsage - s.handles[id].charge else s.highUsage)
  }

  lemma UnlinkKeeps(s: State, id: Id, busy: set<Id>)
    requires InvBut(s, busy) && id in s.lru && id in s.handles
    ensures InvBut(Unlink(s, id), busy + {id})
  {
    hide PoolsOk, SumOf;
    UnlinkList(s, id);
    UnlinkMembers(s.lru, IndexOf(s.lru, id));
  }

  lemma UnlinkMembers(ids: seq<Id>, i: nat)
    requires i < |ids| && Distinct(ids)
    ensures var ids' := ids[..i] + ids[i + 1..]; Distinct(ids') && forall x :: x in ids' <==> x in ids && x != ids[i]
  {
    var ids' := ids[..i] + ids[i + 1..];
    forall x | x in ids && x != ids[i]
      ensures x in ids'
    {
      var j :| 0 <= j < |ids| && ids[j] == x;
      assert x == ids'[if j < i then j else j - 1];
    }
  }

  lemma SumOfWithout(hs: map<Id, Handle>, ids: seq<Id>, i: nat)
    requires i < |ids|
    ensures SumOf(hs, ids[..i] + ids[i + 1..]) == SumOf(hs, ids) - Charge(hs, ids[i])
  {
    assert ids == ids[..i] + [ids[i]] + ids[i + 1..];
    SumOfAppend(hs, ids[..i] + [ids[i]], ids[i + 1..]);
    SumOfAppend(hs, ids[..i], [ids[i]]);
    SumOfAppend(hs, ids[..i], ids[i + 1..]);
    SumOfOne(hs, ids[i]);
  }

  lemma PoolsWithout(hs: map<Id, Handle>, ids: seq<Id>, low: nat, i: nat)
    requires i < |ids| && low <= |ids| && PoolsOk(hs, ids, low) && ids[i] in hs
    ensures var ids' := ids[..i] + ids[i + 1..];
            var low' := if i < low then low - 1 else low;
            && low' <= |ids'| && PoolsOk(hs, ids', low')
            && SumOf(hs, ids'[low'..]) == SumOf(hs, ids[low..]) - (if i < low then 0 else Charge(hs, ids[i]))
    ensures hs[ids[i]].inHighPool <==> i >= low
  {
    var ids' := ids[..i] + ids[i + 1..];
    if i < low {
      assert ids'[low - 1..] == ids[low..];
    } else {
      SumOfWithout(hs, ids[low..], i - low);
      assert ids'[low..] == ids[low..][..i - low] + ids[low..][i - low + 1..];
    }
  }

  lemma UnlinkList(s: State, id: Id)
    requires ListOk(s) && id in s.lru && id in s.handles
    ensures ListOk(Unlink(s, id))
  {
    hide PoolsOk, Distinct, SumOf;
    var i := IndexOf(s.lru, id);
    UnlinkMembers(s.lru, i);
    SumOfWithout(s.handles, s.lru, i);
    PoolsWithout(s.handles, s.lru, s.low, i);
  }

  /** The list does not notice changes to handles that are not on it. */
  lemma ListElsewhere(hs: map<Id, Handle>, hs': map<Id, Handle>, lru: seq<Id>, low: nat, lruUsage: int, highUsage: int)
    requires ListOf(hs, lru, low, lruUsage, highUsage)
    requires forall x :: x in lru ==> x in hs' && hs'[x] == hs[x]
    ensures ListOf(hs', lru, low, lruUsage, highUsage)
  {
    SumOfSame(hs, hs', lru);
    SumOfSame(hs, hs', lru[low..]);
  }

  /** The counters of the other handles. */
  lemma RefsElsewhere(s: State, s': State, busy: set<Id>, busy': set<Id>)
    requires forall x :: x in s.handles && x !in busy ==> x in s.external && RefsOk(s, x)
    requires forall x :: x in s'.handles && x !in busy' ==>
               x in s.handles && x !in busy && s'.handles[x] == s.handles[x] && x in s.external && x in s'.external &&
                 s'.external[x] == s.external[x]
    ensures forall x :: x in s'.handles && x !in busy' ==> RefsOk(s', x)
  {
    forall x | x in s'.handles && x !in busy'
      ensures RefsOk(s', x)
    {
      assert RefsOk(s, x);
    }
  }

  /** Changing the counters or the hit flag of a handle in the middle of an operation. */
  function Recount(s: State, id: Id, h: Handle, external: nat): State {
    s.(handles := s.handles[id := h], external := s.external[id := external])
  }

  predicate SameEntry(h: Handle, h': Handle) {
    h'.key == h.key && h'.hash == h.hash && h'.charge == h.charge && h'.inCache == h.inCache
  }

  lemma RecountKeeps(s: State, id: Id, h: Handle, external: nat, busy: set<Id>)
    requires InvBut(s, busy) && id in busy && id in s.handles && SameEntry(s.handles[id], h)
    ensures InvBut(Recount(s, id, h, external), busy)
  {
    hide ListOf, Distinct, TableOf, HistoryOk;
    var s' := Recount(s, id, h, external);
    ListMembers(s);
    ListElsewhere(s.handles, s'.handles, s.lru, s.low, s.lruUsage, s.highUsage);
    SameEntryTable(s.handles, s.table, id, h);
    SameEntryHistory(s, id, h, external);
    RefsElsewhere(s, s', busy, busy);
  }

  lemma SameEntryTable(hs: map<Id, Handle>, table: map<(Key, nat), Id>, id: Id, h: Handle)
    requires TableOf(hs, table) && id in hs && SameEntry(hs[id], h)
    ensures TableOf(hs[id := h], table)
  {
  }

  lemma SameEntryHistory(s: State, id: Id, h: Handle, external: nat)
    requires HistoryOk(s) && id in s.handles && SameEntry(s.handles[id], h)
    ensures HistoryOk(Recount(s, id, h, external)) && s.external.Keys == s.handles.Keys
  {
    SumBelowChange(s.handles, s.handles[id := h], id, s.nextId);
  }

  lemma ListMembers(s: State)
    requires ListOk(s)
    ensures forall id :: id in s.lru ==> id in s.handles
  {
  }

  /** A handle off the list may be worked on. */
  lemma StartWork(s: State, id: Id, busy: set<Id>)
    requires InvBut(s, busy) && id !in s.lru
    ensures InvBut(s, busy + {id})
  {
  }

  /** A handle that clients refer to is settled off the list. */
  lemma Settle(s: State, id: Id, busy: set<Id>)
    requires InvBut(s, busy) && id in s.handles && id in busy && RefsOk(s, id) && !Evictable(s.handles[id])
    ensures InvBut(s, busy - {id})
  {
  }

  /** Taking a handle out of the hash table. */
  function Uncache(s: State, id: Id): State
    requires id in s.handles
  {
    s.(table := s.table - {TableKey(s.handles[id])}, handles := s.handles[id := s.handles[id].(inCache := false)])
  }

  lemma UncacheKeeps(s: State, id: Id, busy: set<Id>)
    requires InvBut(s, busy) && id in busy && id in s.handles && s.handles[id].inCache
    ensures InvBut(Uncache(s, id), busy)
  {
    hide ListOf, Distinct, TableOf, HistoryOk;
    var s' := Uncache(s, id);
    ListMembers(s);
    ListElsewhere(s.handles, s'.handles, s.lru, s.low, s.lruUsage, s.highUsage);
    UncacheTable(s, id);
    UncacheHistory(s, id);
    RefsElsewhere(s, s', busy, busy);
  }

  lemma UncacheTable(s: State, id: Id)
    requires TableOf(s.handles, s.table) && id in s.handles && s.handles[id].inCache
    ensures TableOf(Uncache(s, id).handles, Uncache(s, id).table)
  {
  }

  lemma UncacheHistory(s: State, id: Id)
    requires HistoryOk(s) && id in s.handles
    ensures HistoryOk(Uncache(s, id)) && s.external.Keys == s.handles.Keys
  {
    SumBelowChange(s.handles, Uncache(s, id).handles, id, s.nextId);
  }

  /** The last reference is gone: the handle is freed. */
  function Discard(s: State, id: Id): State
    requires id in s.handles
  {
    s.(handles := s.handles - {id}, external := s.external - {id}, freed := s.freed + [id],
       usage := s.usage - s.handles[id].charge)
  }

  lemma DiscardHistory(s: State, id: Id)
    requires HistoryOk(s) && id in s.handles
    ensures HistoryOk(Discard(s, id)) && s.external.Keys == s.handles.Keys
  {
    var s' := Discard(s, id);
    SumBelowChange(s.handles, s'.handles, id, s.nextId);
    assert forall x :: x in s'.freed <==> x in s.freed || x == id;
  }

  lemma DiscardTable(s: State, id: Id)
    requires TableOf(s.handles, s.table) && id in s.handles && !s.handles[id].inCache
    ensures TableOf(s.handles - {id}, s.table)
  {
  }

  lemma DiscardKeeps(s: State, id: Id, busy: set<Id>)
    requires InvBut(s, busy) && id in busy && id in s.handles && !s.handles[id].inCache
    ensures InvBut(Discard(s, id), busy - {id})
  {
    hide ListOf, Distinct, TableOf, HistoryOk;
    var s' := Discard(s, id);
    ListMembers(s);
    ListElsewhere(s.handles, s'.handles, s.lru, s.low, s.lruUsage, s.highUsage);
    DiscardHistory(s, id);
    DiscardTable(s, id);
    RefsElsewhere(s, s', busy, busy - {id});
  }

  /** A new handle, in the hash table under a key that is free. */
  function Create(s: State, h: Handle, external: nat): State {
    s.(handles := s.handles[s.nextId := h], external := s.external[s.nextId := external],
       table := s.table[TableKey(h) := s.nextId], usage := s.usage + h.charge, nextId := s.nextId + 1)
  }

  lemma CreateHistory(s: State, h: Handle, external: nat)
    requires HistoryOk(s)
    ensures s.nextId !in s.handles && s.external.Keys == s.handles.Keys && HistoryOk(Create(s, h, external))
  {
    var s' := Create(s, h, external);
    SumBelowChange(s.handles, s'.handles, s.nextId, s.nextId);
    assert Charge(s'.handles, s.nextId) == h.charge;
  }

  lemma CreateTable(s: State, h: Handle)
    requires TableOf(s.handles, s.table) && h.inCache && TableKey(h) !in s.table && s.nextId !in s.handles
    ensures TableOf(s.handles[s.nextId := h], s.table[TableKey(h) := s.nextId])
  {
  }

  lemma CreateKeeps(s: State, h: Handle, external: nat, busy: set<Id>)
    requires InvBut(s, busy) && h.inCache && TableKey(h) !in s.table
    ensures s.nextId !in s.handles && InvBut(Create(s, h, external), busy + {s.nextId})
  {
    hide ListOf, Distinct, HistoryOk, TableOf;
    var s' := Create(s, h, external);
    CreateHistory(s, h, external);
    CreateTable(s, h);
    ListMembers(s);
    ListElsewhere(s.handles, s'.handles, s.lru, s.low, s.lruUsage, s.highUsage);
    RefsElsewhere(s, s', busy, busy + {s.nextId});
  }

  // ----- Putting a handle on the list

  function WithPool(hs: map<Id, Handle>, id: Id, high: bool): map<Id, Handle>
    requires id in hs
  {
    hs[id := hs[id].(inHighPool := high)]
  }

  /** Head of the low-pri pool. */
  function LinkLow(s: State, id: Id): State
    requires id in s.handles && s.low <= |s.lru|
  {
    s.(lru := s.lru[..s.low] + [id] + s.lru[s.low..], low := s.low + 1, handles := WithPool(s.handles, id, false),
       lruUsage := s.lruUsage + s.handles[id].charge)
  }

  /** Head of the whole list. */
  function LinkHigh(s: State, id: Id): State
    requires id in s.handles
  {
    s.(lru := s.lru + [id], handles := WithPool(s.handles, id, true),
       lruUsage := s.lruUsage + s.handles[id].charge, highUsage := s.highUsage + s.handles[id].charge)
  }

  /** Overflow of the oldest entry of the high-pri pool into the low-pri pool. */
  function Demote(s: State): State
    requires s.low < |s.lru| && s.lru[s.low] in s.handles
  {
    s.(low := s.low + 1, handles := WithPool(s.handles, s.lru[s.low], false),
       highUsage := s.highUsage - s.handles[s.lru[s.low]].charge)
  }

  lemma LinkLowList(s: State, id: Id)
    requires ListOk(s) && id !in s.lru && id in s.handles
    ensures ListOk(LinkLow(s, id)) && forall x :: x in LinkLow(s, id).lru <==> x in s.lru || x == id
  {
    var s' := LinkLow(s, id);
    var a, b := s.lru[..s.low], s.lru[s.low..];
    SumOfAppend(s'.handles, a + [id], b);
    SumOfAppend(s'.handles, a, [id]);
    SumOfAppend(s'.handles, a, b);
    SumOfOne(s'.handles, id);
    assert a + b == s.lru && s'.lru[s'.low..] == b;
    SumOfSame(s.handles, s'.handles, s.lru);
    SumOfSame(s.handles, s'.handles, b);
    InsertedDistinct(s.lru, s.low, id);
    InsertedPools(s.handles, s.lru, s.low, id);
  }

  lemma InsertedDistinct(ids: seq<Id>, i: nat, id: Id)
    requires i <= |ids| && Distinct(ids) && id !in ids
    ensures var ids' := ids[..i] + [id] + ids[i..]; Distinct(ids') && forall x :: x in ids' <==> x in ids || x == id
  {
    assert forall x :: x in ids <==> x in ids[..i] || x in ids[i..] by {
      assert ids == ids[..i] + ids[i..];
    }
  }

  lemma InsertedPools(hs: map<Id, Handle>, ids: seq<Id>, low: nat, id: Id)
    requires low <= |ids| && PoolsOk(hs, ids, low) && id !in ids && id in hs
    ensures PoolsOk(WithPool(hs, id, false), ids[..low] + [id] + ids[low..], low + 1)
  {
    var hs', ids' := WithPool(hs, id, false), ids[..low] + [id] + ids[low..];
    forall i | 0 <= i < |ids'| && ids'[i] in hs'
      ensures hs'[ids'[i]].inHighPool <==> i >= low + 1
    {
      if i != low {
        var j := if i < low then i else i - 1;
        assert ids'[i] == ids[j] && ids[j] in ids;
      }
    }
  }

  lemma LinkHighList(s: State, id: Id)
    requires ListOk(s) && id !in s.lru && id in s.handles
    ensures ListOk(LinkHigh(s, id))
  {
    hide Distinct, PoolsOk, SumOf;
    var s' := LinkHigh(s, id);
    SumOfAppended(s.handles, s'.handles, s.lru, id);
    assert forall x :: x in s.lru[s.low..] ==> x in s.lru;
    SumOfAppended(s.handles, s'.handles, s.lru[s.low..], id);
    assert s'.lru[s'.low..] == s.lru[s.low..] + [id];
    AppendedPools(s.handles, s.lru, s.low, id);
  }

  lemma SumOfAppended(hs: map<Id, Handle>, hs': map<Id, Handle>, ids: seq<Id>, id: Id)
    requires id !in ids && forall x :: Charge(hs, x) == Charge(hs', x)
    ensures SumOf(hs', ids + [id]) == SumOf(hs, ids) + Charge(hs, id)
  {
    SumOfAppend(hs', ids, [id]);
    SumOfOne(hs', id);
    SumOfSame(hs, hs', ids);
  }

  lemma AppendedPools(hs: map<Id, Handle>, ids: seq<Id>, low: nat, id: Id)
    requires low <= |ids| && PoolsOk(hs, ids, low) && Distinct(ids) && id !in ids && id in hs
    ensures PoolsOk(WithPool(hs, id, true), ids + [id], low) && Distinct(ids + [id])
  {
  }

  lemma DemoteList(s: State)
    requires ListOk(s) && s.low < |s.lru| && s.lru[s.low] in s.handles
    ensures ListOk(Demote(s))
  {
    var s', id := Demote(s), s.lru[s.low];
    assert s.lru[s.low..] == [id] + s'.lru[s'.low..];
    SumOfAppend(s.handles, [id], s'.lru[s'.low..]);
    SumOfOne(s.handles, id);
    SumOfSame(s.handles, s'.handles, s.lru);
    SumOfSame(s.handles, s'.handles, s'.lru[s'.low..]);
  }

  /** The pool flag matters neither to the table nor to the counters. */
  lemma WithPoolKeeps(s: State, s': State, id: Id, high: bool, busy: set<Id>)
    requires TableOf(s.handles, s.table) && HistoryOk(s) && id in s.handles
    requires forall x :: x in s.handles && x !in busy ==> RefsOk(s, x)
    requires s'.handles == WithPool(s.handles, id, high) && s'.table == s.table && s'.external == s.external
    requires s'.freed == s.freed && s'.nextId == s.nextId && s'.usage == s.usage
    ensures TableOf(s'.handles, s'.table) && HistoryOk(s') &&
            forall x :: x in s'.handles && x !in busy ==> RefsOk(s', x)
  {
    SumBelowChange(s.handles, s'.handles, id, s.nextId);
    forall x | x in s'.handles && x !in busy
      ensures RefsOk(s', x)
    {
      assert RefsOk(s, x);
    }
  }

  /** Off the list, evictable, counted right: ready to be linked. */
  ghost predicate Linkable(s: State, id: Id, busy: set<Id>) {
    InvBut(s, busy) && id in busy && id in s.handles && RefsOk(s, id) && Evictable(s.handles[id])
  }

  lemma LinkLowKeeps(s: State, id: Id, busy: set<Id>)
    requires Linkable(s, id, busy)
    ensures s.low <= |s.lru| && InvBut(LinkLow(s, id), busy - {id})
  {
    hide Distinct, PoolsOk, SumOf, HistoryOk, TableOf;
    LinkLowList(s, id);
    WithPoolKeeps(s, LinkLow(s, id), id, false, busy - {id});
  }

  lemma LinkHighKeeps(s: State, id: Id, busy: set<Id>)
    requires Linkable(s, id, busy)
    ensures InvBut(LinkHigh(s, id), busy - {id})
  {
    hide ListOf, HistoryOk, TableOf;
    LinkHighList(s, id);
    WithPoolKeeps(s, LinkHigh(s, id), id, true, busy - {id});
  }

  lemma DemoteKeeps(s: State, busy: set<Id>)
    requires InvBut(s, busy) && s.low < |s.lru| && s.lru[s.low] in s.handles
    ensures InvBut(Demote(s), busy)
  {
    hide ListOf, HistoryOk, TableOf;
    DemoteList(s);
    WithPoolKeeps(s, Demote(s), s.lru[s.low], false, busy);
  }
}
