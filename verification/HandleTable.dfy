/** LRUHandleTable: a chained hash table of handles with a power-of-two number of buckets, and the
    finite map it stands for. */
module HandleTables {
  import opened Arithmetic
  import opened CacheKeys
  import opened Options

  datatype Entry = Entry(key: Key, hash: nat, id: Id)

  function KeyOf(e: Entry): (Key, nat) {
    (e.key, e.hash)
  }

  ghost predicate PowerOfTwo(n: nat)
    decreases n
  {
    n == 1 || (n > 1 && n % 2 == 0 && PowerOfTwo(n / 2))
  }

  /** Bitwise and. */
  function And(a: nat, b: nat): (r: nat)
    ensures r <= b
  {
    if a == 0 || b == 0 then 0 else 2 * And(a / 2, b / 2) + (a % 2) * (b % 2)
  }

  function Bucket(hash: nat, length: nat): (b: nat)
    requires length > 0
    ensures b < length
  {
    And(hash, length - 1)
  }

  lemma AndUnfold(hash: nat, half: nat)
    requires half > 0
    ensures And(hash, 2 * half - 1) == 2 * And(hash / 2, half - 1) + hash % 2
  {
    var b := 2 * half - 1;
    assert b / 2 == half - 1 && b % 2 == 1;
  }

  function Remainder(x: int, m: int): int
    requires m > 0
  {
    x % m
  }

  /** For a power of two the mask picks the remainder, so that every bucket is in use. */
  lemma {:induction false} BucketIsRemainder(hash: nat, length: nat)
    requires PowerOfTwo(length)
    ensures Bucket(hash, length) == Remainder(hash, length)
    decreases length
  {
    hide And, Remainder;
    if length == 1 {
      NothingMasked(hash);
    } else {
      var half := length / 2;
      BucketIsRemainder(hash / 2, half);
      AndUnfold(hash, half);
      HalfRemainder(hash, half);
    }
  }

  lemma NothingMasked(hash: nat)
    ensures And(hash, 0) == 0 == Remainder(hash, 1)
  {
  }

  lemma HalfRemainder(x: int, half: int)
    requires half > 0
    ensures Remainder(x, 2 * half) == 2 * Remainder(x / 2, half) + x % 2
  {
    var q, r := (x / 2) / half, (x / 2) % half;
    var m := 2 * half;
    assert x / 2 == q * half + r;
    assert q * m == 2 * (q * half);
    RemainderIs(x, m, q, 2 * r + x % 2);
  }

  /** Every chain entry is in its bucket and in the map. */
  ghost predicate EntryOk(list: seq<seq<Entry>>, m: map<(Key, nat), Id>, b: int, i: int)
    requires 0 <= b < |list| && 0 <= i < |list[b]|
  {
    var e := list[b][i];
    Bucket(e.hash, |list|) == b && KeyOf(e) in m && m[KeyOf(e)] == e.id
  }

  ghost predicate Chained(chain: seq<Entry>, k: (Key, nat)) {
    exists i :: 0 <= i < |chain| && KeyOf(chain[i]) == k
  }

  ghost predicate DistinctKeys(chain: seq<Entry>) {
    forall i, j :: 0 <= i < j < |chain| ==> KeyOf(chain[i]) != KeyOf(chain[j])
  }

  /** The buckets hold exactly the map. */
  ghost predicate Holds(list: seq<seq<Entry>>, m: map<(Key, nat), Id>) {
    && |list| > 0
    && (forall b, i {:trigger EntryOk(list, m, b, i)} :: 0 <= b < |list| && 0 <= i < |list[b]| ==>
      EntryOk(list, m, b, i))
    && (forall b :: 0 <= b < |list| ==> DistinctKeys(list[b]))
    && (forall k :: k in m ==> Chained(list[Bucket(k.1, |list|)], k))
  }

  /** One bucket changes, in one key. */
  lemma ChangeBucket(list: seq<seq<Entry>>, m: map<(Key, nat), Id>, m': map<(Key, nat), Id>, b: nat,
      chain: seq<Entry>, k: (Key, nat))
    requires Holds(list, m) && b < |list| && b == Bucket(k.1, |list|)
    requires forall x :: x != k ==> (x in m' <==> x in m) && (x in m ==> m'[x] == m[x])
    requires DistinctKeys(chain)
    requires forall x :: x != k ==> (Chained(chain, x) <==> Chained(list[b], x))
    requires forall i :: 0 <= i < |chain| ==>
             Bucket(chain[i].hash, |list|) == b && KeyOf(chain[i]) in m' && m'[KeyOf(chain[i])] == chain[i].id
    requires k in m' ==> Chained(chain, k)
    ensures Holds(list[b := chain], m')
  {
    hide Bucket;
    var list' := list[b := chain];
    forall c, i | 0 <= c < |list'| && 0 <= i < |list'[c]|
      ensures EntryOk(list', m', c, i)
    {
      if c != b {
        assert EntryOk(list, m, c, i);
      }
    }
  }

  class HandleTable {
    var list: seq<seq<Entry>>
    var elems: nat
    ghost var m: map<(Key, nat), Id>

    ghost predicate Valid()
      reads this
    {
      Holds(list, m) && elems == |m| && PowerOfTwo(|list|) && elems <= |list|
    }

    constructor ()
      ensures Valid() && m == map[] && |list| == 16
    {
      list := seq(16, i => []);
      elems := 0;
      m := map[];
      assert PowerOfTwo(1) && PowerOfTwo(2) && PowerOfTwo(4) && PowerOfTwo(8);
    }

    /** FindPointer: the position of a key in its chain, or the end of the chain. */
    method FindPointer(key: Key, hash: nat) returns (b: nat, p: nat)
      requires Valid()
      ensures b < |list| && b == Bucket(hash, |list|) && p <= |list[b]|
      ensures if (key, hash) in m then p < |list[b]| && KeyOf(list[b][p]) == (key, hash) else p == |list[b]|
      ensures p < |list[b]| ==> m[(key, hash)] == list[b][p].id
    {
      hide And;
      b := Bucket(hash, |list|);
      p := 0;
      while p < |list[b]| && (list[b][p].hash != hash || key != list[b][p].key)
        invariant p <= |list[b]| && forall i :: 0 <= i < p ==> KeyOf(list[b][i]) != (key, hash)
      {
        p := p + 1;
      }
      if p < |list[b]| {
        assert EntryOk(list, m, b, p);
      } else {
        assert (key, hash) in m ==> Chained(list[b], (key, hash));
      }
    }

    method Lookup(key: Key, hash: nat) returns (r: Option<Id>)
      requires Valid()
      ensures r == if (key, hash) in m then Some(m[(key, hash)]) else None
    {
      var b, p := FindPointer(key, hash);
      r := if p < |list[b]| then Some(list[b][p].id) else None;
    }

    /** Removes the entry of a key and returns it. */
    method Remove(key: Key, hash: nat) returns (r: Option<Id>)
      requires Valid()
      modifies this
      ensures Valid() && m == old(m) - {(key, hash)}
      ensures r == if (key, hash) in old(m) then Some(old(m)[(key, hash)]) else None
    {
      hide Bucket, Holds, PowerOfTwo;
      var b, p := FindPointer(key, hash);
      if p == |list[b]| {
        assert m - {(key, hash)} == m;
        return None;
      }
      r := Some(list[b][p].id);
      var chain := list[b][..p] + list[b][p + 1..];
      RemoveFromChain(list, m, b, p);
      list := list[b := chain];
      elems := elems - 1;
      m := m - {(key, hash)};
      assert old(m).Keys == m.Keys + {(key, hash)};
    }

    /** Inserts an entry and returns the one of the same key that it replaces. */
    method Insert(e: Entry) returns (r: Option<Id>)
      requires Valid()
      modifies this
      ensures Valid() && m == old(m)[KeyOf(e) := e.id]
      ensures r == if KeyOf(e) in old(m) then Some(old(m)[KeyOf(e)]) else None
    {
      hide Bucket, Holds, PowerOfTwo;
      var b, p := FindPointer(e.key, e.hash);
      InsertIntoChain(list, m, b, p, e);
      if p < |list[b]| {
        r := Some(list[b][p].id);
        list := list[b := list[b][p := e]];
        m := m[KeyOf(e) := e.id];
        assert m.Keys == old(m).Keys;
      } else {
        r := None;
        list := list[b := list[b] + [e]];
        m := m[KeyOf(e) := e.id];
        assert m.Keys == old(m).Keys + {KeyOf(e)};
        elems := elems + 1;
        if elems > |list| {
          Resize();
        }
      }
    }

    /** Rebuckets every entry under a length that fits the number of entries. */
    method Resize()
      requires Holds(list, m) && elems == |m| && PowerOfTwo(|list|)
      modifies this`list
      ensures Valid() && 2 * |list| >= 3 * elems && |list| >= 16
    {
      hide Holds, Moved, PowerOfTwo;
      var length := NewLength(elems);
      NothingMoved(list, m, length);
      var count: nat := 0;
      var fresh': seq<seq<Entry>> := seq(length, i => []);
      ghost var done: map<(Key, nat), Id> := map[];
      for i := 0 to |list|
        invariant list == old(list) && |fresh'| == length && Holds(fresh', done) && count == |done|
        invariant Moved(list, m, done, i, 0)
      {
        fresh', count, done := MoveBucket(i, fresh', count, done);
      }
      AllMoved(list, m, done);
      assert elems == count;
      list := fresh';
    }

    /** The inner loop of Resize: the entries of one bucket, each to the front of its new chain. */
    method MoveBucket(i: nat, fresh0: seq<seq<Entry>>, count0: nat, ghost done0: map<(Key, nat), Id>)
      returns (fresh': seq<seq<Entry>>, count: nat, ghost done: map<(Key, nat), Id>)
      requires Holds(list, m) && i < |list| && Holds(fresh0, done0) && count0 == |done0| && Moved(list, m, done0, i, 0)
      ensures |fresh'| == |fresh0| && Holds(fresh', done) && count == |done| && Moved(list, m, done, i + 1, 0)
    {
      fresh', count, done := fresh0, count0, done0;
      for j := 0 to |list[i]|
        invariant |fresh'| == |fresh0| && Holds(fresh', done) && count == |done| && Moved(list, m, done, i, j)
      {
        var e := list[i][j];
        NotMovedYet(list, m, done, i, j);
        var b := Bucket(e.hash, |fresh'|);
        PushFront(fresh', done, b, e);
        MoveOne(list, m, done, i, j);
        fresh' := fresh'[b := [e] + fresh'[b]];
        assert done[KeyOf(e) := e.id].Keys == done.Keys + {KeyOf(e)};
        done := done[KeyOf(e) := e.id];
        count := count + 1;
      }
      NextBucket(list, m, done, i);
    }
  }

  lemma SameChained(chain: seq<Entry>, p: nat, x: (Key, nat))
    requires p < |chain| && KeyOf(chain[p]) != x
    ensures Chained(chain[..p] + chain[p + 1..], x) <==> Chained(chain, x)
  {
    var short := chain[..p] + chain[p + 1..];
    if i :| 0 <= i < |chain| && KeyOf(chain[i]) == x {
      assert KeyOf(short[if i < p then i else i - 1]) == x;
    }
  }

  lemma RemoveFromChain(list: seq<seq<Entry>>, m: map<(Key, nat), Id>, b: nat, p: nat)
    requires Holds(list, m) && b < |list| && p < |list[b]|
    ensures Holds(list[b := list[b][..p] + list[b][p + 1..]], m - {KeyOf(list[b][p])})
  {
    hide Bucket, Chained;
    var chain, k := list[b][..p] + list[b][p + 1..], KeyOf(list[b][p]);
    assert EntryOk(list, m, b, p);
    forall x | x != k
      ensures Chained(chain, x) <==> Chained(list[b], x)
    {
      SameChained(list[b], p, x);
    }
    forall i | 0 <= i < |chain|
      ensures EntryOk(list, m, b, if i < p then i else i + 1) && KeyOf(chain[i]) != k
    {
    }
    ChangeBucket(list, m, m - {k}, b, chain, k);
  }

  lemma InsertIntoChain(list: seq<seq<Entry>>, m: map<(Key, nat), Id>, b: nat, p: nat, e: Entry)
    requires Holds(list, m) && b < |list| && b == Bucket(e.hash, |list|) && p <= |list[b]|
    requires if KeyOf(e) in m then p < |list[b]| && KeyOf(list[b][p]) == KeyOf(e) else p == |list[b]|
    ensures Holds(list[b := if p < |list[b]| then list[b][p := e] else list[b] + [e]], m[KeyOf(e) := e.id])
  {
    hide Bucket;
    var chain := if p < |list[b]| then list[b][p := e] else list[b] + [e];
    var k := KeyOf(e);
    assert KeyOf(chain[p]) == k;
    forall i | 0 <= i < |list[b]|
      ensures EntryOk(list, m, b, i) && KeyOf(chain[i]) == KeyOf(list[b][i])
    {
    }
    forall x | x != k
      ensures Chained(chain, x) <==> Chained(list[b], x)
    {
      if i :| 0 <= i < |list[b]| && KeyOf(list[b][i]) == x {
        assert KeyOf(chain[i]) == x;
      }
    }
    ChangeBucket(list, m, m[k := e.id], b, chain, k);
  }

  lemma PushFront(list: seq<seq<Entry>>, m: map<(Key, nat), Id>, b: nat, e: Entry)
    requires Holds(list, m) && b < |list| && b == Bucket(e.hash, |list|) && KeyOf(e) !in m
    ensures Holds(list[b := [e] + list[b]], m[KeyOf(e) := e.id])
  {
    hide Bucket;
    var chain, k := [e] + list[b], KeyOf(e);
    assert KeyOf(chain[0]) == k;
    forall i | 0 <= i < |list[b]|
      ensures EntryOk(list, m, b, i) && chain[i + 1] == list[b][i]
    {
    }
    forall x | x != k
      ensures Chained(chain, x) <==> Chained(list[b], x)
    {
      if i :| 0 <= i < |list[b]| && KeyOf(list[b][i]) == x {
        assert KeyOf(chain[i + 1]) == x;
      }
    }
    ChangeBucket(list, m, m[k := e.id], b, chain, k);
  }

  // ----- Progress of a resize

  /** The entries of the buckets before `i`, and the first `j` of bucket `i`, have been moved. */
  ghost predicate Moved(list: seq<seq<Entry>>, m: map<(Key, nat), Id>, done: map<(Key, nat), Id>, i: nat, j: nat) {
    && |list| > 0
    && (forall k :: k in done ==> k in m && done[k] == m[k])
    && (forall k :: k in m && Bucket(k.1, |list|) < i ==> k in done)
    && (forall k :: k in done ==>
      Bucket(k.1, |list|) < i ||
      (Bucket(k.1, |list|) == i && i < |list| && j <= |list[i]| && Chained(list[i][..j], k)))
    && (i < |list| && j <= |list[i]| ==> forall k :: Chained(list[i][..j], k) ==> k in done)
  }

  lemma NothingMoved(list: seq<seq<Entry>>, m: map<(Key, nat), Id>, length: nat)
    requires Holds(list, m) && length > 0
    ensures Holds(seq(length, i => []), map[]) && Moved(list, m, map[], 0, 0)
  {
    hide Bucket;
    assert list[0][..0] == [];
  }

  lemma NotMovedYet(list: seq<seq<Entry>>, m: map<(Key, nat), Id>, done: map<(Key, nat), Id>, i: nat, j: nat)
    requires Holds(list, m) && Moved(list, m, done, i, j) && i < |list| && j < |list[i]|
    ensures KeyOf(list[i][j]) !in done && EntryOk(list, m, i, j)
  {
    hide Bucket;
    assert EntryOk(list, m, i, j);
    assert DistinctKeys(list[i]);
  }

  lemma MoveOne(list: seq<seq<Entry>>, m: map<(Key, nat), Id>, done: map<(Key, nat), Id>, i: nat, j: nat)
    requires Holds(list, m) && Moved(list, m, done, i, j) && i < |list| && j < |list[i]|
    ensures Moved(list, m, done[KeyOf(list[i][j]) := list[i][j].id], i, j + 1)
  {
    hide Bucket;
    var e := list[i][j];
    assert EntryOk(list, m, i, j);
    assert list[i][..j + 1] == list[i][..j] + [e];
    forall k
      ensures Chained(list[i][..j + 1], k) <==> Chained(list[i][..j], k) || k == KeyOf(e)
    {
      if Chained(list[i][..j], k) {
        var x :| 0 <= x < j && KeyOf(list[i][..j][x]) == k;
        assert KeyOf(list[i][..j + 1][x]) == k;
      }
      assert KeyOf(list[i][..j + 1][j]) == KeyOf(e);
    }
  }

  lemma NextBucket(list: seq<seq<Entry>>, m: map<(Key, nat), Id>, done: map<(Key, nat), Id>, i: nat)
    requires Holds(list, m) && i < |list| && Moved(list, m, done, i, |list[i]|)
    ensures Moved(list, m, done, i + 1, 0)
  {
    hide Bucket;
    assert list[i][..|list[i]|] == list[i];
  }

  lemma AllMoved(list: seq<seq<Entry>>, m: map<(Key, nat), Id>, done: map<(Key, nat), Id>)
    requires Moved(list, m, done, |list|, 0)
    ensures done == m
  {
    hide Bucket;
  }

  /** The smallest power of two from 16 on that is at least one and a half times the entries. */
  method NewLength(elems: nat) returns (length: nat)
    ensures PowerOfTwo(length) && length >= 16 && 2 * length >= 3 * elems
    ensures length > 16 ==> length < 3 * elems
  {
    length := 16;
    assert PowerOfTwo(1) && PowerOfTwo(2) && PowerOfTwo(4) && PowerOfTwo(8);
    while 2 * length < 3 * elems
      invariant PowerOfTwo(length) && length >= 16 && (length > 16 ==> length < 3 * elems)
      decreases 3 * elems - 2 * length
    {
      length := length * 2;
    }
  }
}
