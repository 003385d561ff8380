/** Which records of its input a compaction keeps, told from the input alone: every position is decided
    by the records next to it, the snapshots, and whether the key has been output before. */
module CompactionFates {
  import opened Records
  import opened LevelCursors
  import opened SnapshotViews
  import opened CompactionSteps
  import opened CompactionBooks

  // ----- The fate of a position

  /** The same snapshots see both records. */
  ghost predicate SeenAlike(c: Config, a: Record, b: Record) {
    forall s :: IsView(c, s) ==> (a.seqno <= s <==> b.seqno <= s)
  }

  /** Position `i` has the next older version of its predecessor's key. */
  predicate Continues(input: seq<Record>, i: nat) {
    0 < i < |input| && input[i - 1].key == input[i].key
  }

  /** And no snapshot lies between the two. */
  ghost predicate Shadowed(c: Config, input: seq<Record>, i: nat) {
    Continues(input, i) && SeenAlike(c, input[i - 1], input[i])
  }

  /** The record at `i` is the one that a SingleDelete right above it cancels. */
  ghost predicate Cancelled(c: Config, input: seq<Record>, i: nat) {
    Shadowed(c, input, i) && input[i - 1].kind == SingleDeletion && input[i].kind != SingleDeletion
  }

  /** A record of the key of position `i` was output before, and was not the first of the output. */
  ghost predicate Outputted(input: seq<Record>, origin: seq<nat>, i: nat)
    requires i < |input|
  {
    exists j :: 1 <= j < |origin| && origin[j] < i && input[origin[j]].key == input[i].key
  }

  /** A SingleDelete and what it cancels have to stay for the sake of a write-conflict snapshot. */
  ghost predicate PairStays(c: Config, input: seq<Record>, origin: seq<nat>, i: nat)
    requires i < |input|
  {
    input[i].seqno > c.writeConflict && !Outputted(input, origin, i)
  }

  /** The record at position `i` is output.
      - Of a SingleDelete and the next older version, if no snapshot lies between them: nothing, but for
        a pair that has to stay; with a snapshot between them the SingleDelete stays; without an older
        version it stays unless nothing beneath can hold the key and no snapshot is older.
      - Of the other records those that no newer version hides from all snapshots, but for obsolete
        deletions. */
  ghost predicate Keeps(c: Config, input: seq<Record>, origin: seq<nat>, i: nat)
    requires i < |input|
  {
    var r := input[i];
    if r.kind == SingleDeletion then
      if Shadowed(c, input, i + 1) then input[i + 1].kind != SingleDeletion && PairStays(c, input, origin, i)
      else Continues(input, i + 1) || !(c.hasCompaction && r.seqno <= Earliest(c) && NotBeyond(c.layout, r.key))
    else if Cancelled(c, input, i) then PairStays(c, input, origin, i - 1)
    else !Shadowed(c, input, i) && !(r.kind == Deletion && MayDropDeletion(c, r.key, r.seqno))
  }

  /** And as what: without its value if a SingleDelete above it cancels it. */
  ghost function Presented(c: Config, input: seq<Record>, i: nat): Record
    requires i < |input|
  {
    Prepared(c, if Cancelled(c, input, i) then input[i].(value := []) else input[i])
  }

  /** The output is decided up to position `p`. */
  ghost predicate Exactly(c: Config, input: seq<Record>, out: seq<Record>, origin: seq<nat>, p: nat) {
    && p <= |input| && |out| == |origin|
    && (forall i :: 0 <= i < p ==> (i in origin <==> Keeps(c, input, origin, i)))
    && (forall j :: 0 <= j < |out| ==> origin[j] < p && out[j] == Presented(c, input, origin[j]))
  }

  // ----- Against the state of the iterator

  /** What the iterator knows of the record before position `p`. */
  ghost predicate Tracks(c: Config, input: seq<Record>, st: State, p: nat) {
    && p <= |input|
    && (st.t.active ==> 0 < p && input[p - 1].key == st.t.key && IsStripe(c, input[p - 1].seqno, st.t.stripe))
    && (!st.t.active ==> !Continues(input, p))
    && (st.clearNext <==> Cancelled(c, input, p))
    && (st.clearNext ==> PairStays(c, input, st.origin, p - 1))
  }

  ghost predicate Fates(c: Config, input: seq<Record>, st: State, p: nat) {
    Exactly(c, input, st.out, st.origin, p) && Tracks(c, input, st, p)
  }

  /** `has_outputted_key_`, when `n` records have been presented. */
  ghost predicate FlagOk(input: seq<Record>, st: State, n: nat) {
    && n <= |st.origin| && (forall j :: 0 <= j < n ==> st.origin[j] < |input|)
    && (st.t.active ==> (st.hasOutputted <==> exists j :: 1 <= j < n && input[st.origin[j]].key == st.t.key))
  }

  /** The record at `p` is about to be decided. */
  ghost predicate Deciding(c: Config, input: seq<Record>, st: State, p: nat) {
    && Fates(c, input, st, p) && p < |input| && st.t.key == input[p].key
    && (st.hasOutputted <==> Outputted(input, st.origin, p))
  }

  lemma LaterIsOutside(input: seq<Record>, origin: seq<nat>, q: nat, i: nat)
    requires i <= q && i < |input|
    ensures Outputted(input, origin + [q], i) <==> Outputted(input, origin, i)
  {
    if Outputted(input, origin, i) {
      var j :| 1 <= j < |origin| && origin[j] < i && input[origin[j]].key == input[i].key;
      assert (origin + [q])[j] == origin[j];
    }
  }

  lemma KeepsStays(c: Config, input: seq<Record>, origin: seq<nat>, q: nat, i: nat)
    requires i <= q && i < |input|
    ensures Keeps(c, input, origin + [q], i) <==> Keeps(c, input, origin, i)
  {
    LaterIsOutside(input, origin, q, i);
    if i > 0 {
      LaterIsOutside(input, origin, q, i - 1);
    }
  }

  /** The state after position `p` has been decided. */
  ghost predicate DecidedNext(c: Config, input: seq<Record>, st: State, st': State, p: nat)
    requires p < |input|
  {
    if Keeps(c, input, st.origin, p)
    then st'.origin == st.origin + [p] && st'.out == st.out + [Presented(c, input, p)]
    else st'.origin == st.origin && st'.out == st.out
  }

  lemma NextFate(c: Config, input: seq<Record>, st: State, st': State, p: nat)
    requires Exactly(c, input, st.out, st.origin, p) && p < |input| && DecidedNext(c, input, st, st', p)
    ensures Exactly(c, input, st'.out, st'.origin, p + 1)
  {
    hide Keeps, Presented;
    if Keeps(c, input, st.origin, p) {
      forall i | 0 <= i <= p
        ensures i in st'.origin <==> Keeps(c, input, st'.origin, i)
      {
        KeepsStays(c, input, st.origin, p, i);
        assert i in st'.origin <==> i in st.origin || i == p;
      }
    }
  }

  lemma SameStripeIsAlike(c: Config, a: Record, b: Record, v: Sequence)
    requires IsStripe(c, a.seqno, v) && b.seqno <= a.seqno
    ensures SeenAlike(c, a, b) <==> IsStripe(c, b.seqno, v)
  {
    if IsStripe(c, b.seqno, v) {
      forall s | IsView(c, s)
        ensures a.seqno <= s <==> b.seqno <= s
      {
      }
    }
  }

  // ----- The branches

  /** Where a new user key begins, nothing of it has been output. */
  lemma NewKeyFates(c: Config, input: seq<Record>, st: State, p: nat)
    requires Fates(c, input, st, p) && p < |input| && StrictlySorted(input)
    requires st.t.active ==> input[p].key != st.t.key
    ensures Deciding(c, input, st.(t := Track(false, input[p].key, 0), hasOutputted := false), p)
  {
    forall j | 1 <= j < |st.origin| && st.origin[j] < p
      ensures input[st.origin[j]].key != input[p].key
    {
      var i := st.origin[j];
      assert Before(input[i], input[p]);
      assert i < p - 1 ==> Before(input[i], input[p - 1]);
      assert Before(input[p - 1], input[p]);
    }
  }

  lemma SameKeyFates(c: Config, input: seq<Record>, st: State, p: nat)
    requires Fates(c, input, st, p) && p < |input| && st.t.active && input[p].key == st.t.key
    requires FlagOk(input, st, |st.origin|)
    ensures Deciding(c, input, st, p)
  {
    if st.hasOutputted {
      var j :| 1 <= j < |st.origin| && input[st.origin[j]].key == st.t.key;
      assert st.origin[j] < p;
    }
  }

  /** The iterator compares stripes to see whether the record is shadowed. */
  lemma StripesTell(c: Config, input: seq<Record>, st: State, p: nat, v: Sequence)
    requires Deciding(c, input, st, p) && StrictlySorted(input) && IsStripe(c, input[p].seqno, v)
    ensures Shadowed(c, input, p) <==> st.t.active && st.t.stripe == v
  {
    if st.t.active {
      assert Before(input[p - 1], input[p]);
      SameStripeIsAlike(c, input[p - 1], input[p], st.t.stripe);
    }
  }

  /** And looks at the next older view to see whether the one after it is. */
  lemma NextIsShadowed(c: Config, input: seq<Record>, beyond: seq<Record>, p: nat, v: Sequence, prev: Sequence)
    requires At(c, input, beyond, p) && Continues(input, p + 1) && IsStripe(c, input[p].seqno, v)
    requires prev != 0 ==> IsView(c, prev) && prev < input[p].seqno
    requires forall s: Sequence :: IsView(c, s) && s < input[p].seqno ==> s <= prev
    ensures Shadowed(c, input, p + 1) <==> prev == 0 || input[p + 1].seqno > prev
  {
    assert Before(input[p], input[p + 1]);
    assert input[p + 1] in input;
    if prev != 0 && input[p + 1].seqno <= prev {
      assert IsView(c, prev);
    }
  }

  lemma HiddenFates(c: Config, input: seq<Record>, st: State, p: nat, v: Sequence)
    requires Deciding(c, input, st, p) && StrictlySorted(input) && IsStripe(c, input[p].seqno, v) && !st.clearNext
    requires input[p].kind != SingleDeletion && st.t.active && st.t.stripe == v
    ensures Fates(c, input, st.(seqno := input[p].seqno), p + 1)
  {
    StripesTell(c, input, st, p, v);
    NextFate(c, input, st, st, p);
  }

  lemma ObsoleteFates(c: Config, input: seq<Record>, st: State, p: nat, v: Sequence)
    requires Deciding(c, input, st, p) && StrictlySorted(input) && IsStripe(c, input[p].seqno, v) && !st.clearNext
    requires input[p].kind == Deletion && MayDropDeletion(c, input[p].key, input[p].seqno)
    ensures Fates(c, input, st.(t := Track(true, input[p].key, v), seqno := input[p].seqno), p + 1)
  {
    NextFate(c, input, st, st, p);
  }

  lemma PlainFates(c: Config, input: seq<Record>, st: State, p: nat, v: Sequence)
    requires Deciding(c, input, st, p) && StrictlySorted(input) && IsStripe(c, input[p].seqno, v) && !st.clearNext
    requires input[p].kind != SingleDeletion && !(st.t.active && st.t.stripe == v)
    requires !(input[p].kind == Deletion && MayDropDeletion(c, input[p].key, input[p].seqno))
    ensures Fates(c, input, Delivered(input, st, p, v, Prepared(c, input[p])), p + 1)
  {
    StripesTell(c, input, st, p, v);
    NextFate(c, input, st, Delivered(input, st, p, v, Prepared(c, input[p])), p);
  }

  lemma ClearedFates(c: Config, input: seq<Record>, st: State, p: nat, v: Sequence)
    requires Deciding(c, input, st, p) && IsStripe(c, input[p].seqno, v) && st.clearNext
    ensures Fates(c, input, Delivered(input, st, p, v, Prepared(c, input[p].(value := []))), p + 1)
  {
    NextFate(c, input, st, Delivered(input, st, p, v, Prepared(c, input[p].(value := []))), p);
  }

  lemma SkipFates(c: Config, input: seq<Record>, st: State, p: nat, v: Sequence)
    requires Deciding(c, input, st, p) && IsStripe(c, input[p].seqno, v) && input[p].kind == SingleDeletion
    requires Shadowed(c, input, p + 1) && input[p + 1].kind == SingleDeletion && !st.clearNext
    ensures Fates(c, input, st.(t := Track(true, input[p].key, v), seqno := input[p].seqno), p + 1)
  {
    NextFate(c, input, st, st, p);
  }

  lemma PairFates(c: Config, input: seq<Record>, st: State, p: nat, v: Sequence)
    requires Deciding(c, input, st, p) && StrictlySorted(input) && IsStripe(c, input[p].seqno, v)
    requires input[p].kind == SingleDeletion && !st.clearNext
    requires Shadowed(c, input, p + 1) && input[p + 1].kind != SingleDeletion
    requires st.hasOutputted || input[p].seqno <= c.writeConflict
    ensures Fates(c, input, st.(t := Track(true, input[p].key, v), seqno := input[p].seqno), p + 2)
  {
    NextFate(c, input, st, st, p);
    NextFate(c, input, st, st, p + 1);
    assert Before(input[p], input[p + 1]);
    SameStripeIsAlike(c, input[p], input[p + 1], v);
  }

  lemma PairStaysFates(c: Config, input: seq<Record>, st: State, p: nat, v: Sequence)
    requires Deciding(c, input, st, p) && IsStripe(c, input[p].seqno, v)
    requires input[p].kind == SingleDeletion && !st.clearNext
    requires Shadowed(c, input, p + 1) && input[p + 1].kind != SingleDeletion
    requires !st.hasOutputted && input[p].seqno > c.writeConflict
    ensures Fates(c, input, Delivered(input, st, p, v, Prepared(c, input[p])).(clearNext := true), p + 1)
  {
    var st' := Delivered(input, st, p, v, Prepared(c, input[p])).(clearNext := true);
    NextFate(c, input, st, st', p);
    LaterIsOutside(input, st.origin, p, p);
  }

  lemma SingleStaysFates(c: Config, input: seq<Record>, st: State, p: nat, v: Sequence)
    requires Deciding(c, input, st, p) && IsStripe(c, input[p].seqno, v)
    requires input[p].kind == SingleDeletion && !st.clearNext
    requires Continues(input, p + 1) && !Shadowed(c, input, p + 1)
    ensures Fates(c, input, Delivered(input, st, p, v, Prepared(c, input[p])), p + 1)
  {
    NextFate(c, input, st, Delivered(input, st, p, v, Prepared(c, input[p])), p);
  }

  lemma LastDropFates(c: Config, input: seq<Record>, st: State, p: nat, v: Sequence)
    requires Deciding(c, input, st, p) && input[p].kind == SingleDeletion && !st.clearNext
    requires !Continues(input, p + 1)
    requires c.hasCompaction && input[p].seqno <= Earliest(c) && NotBeyond(c.layout, input[p].key)
    ensures Fates(c, input, st.(t := Track(false, input[p].key, v), seqno := input[p].seqno), p + 1)
  {
    NextFate(c, input, st, st, p);
  }

  lemma LastStaysFates(c: Config, input: seq<Record>, st: State, p: nat, v: Sequence)
    requires Deciding(c, input, st, p) && input[p].kind == SingleDeletion && !st.clearNext
    requires !Continues(input, p + 1)
    requires !(c.hasCompaction && input[p].seqno <= Earliest(c) && NotBeyond(c.layout, input[p].key))
    ensures Fates(c, input,
                  Delivered(input, st, p, v, Prepared(c, input[p])).(t := Track(false, input[p].key, v)), p + 1)
  {
    NextFate(c, input, st, Delivered(input, st, p, v, Prepared(c, input[p])), p);
  }

  // ----- Bookkeeping

  lemma SearchKeepsDeciding(c: Config, input: seq<Record>, st: State, p: nat, ptrs: seq<nat>)
    requires Deciding(c, input, st, p)
    ensures Deciding(c, input, st.(ptrs := ptrs), p)
  {
  }

  lemma FatesLength(c: Config, input: seq<Record>, st: State, p: nat)
    requires Fates(c, input, st, p)
    ensures |st.origin| == |st.out| && p <= |input|
  {
  }

  /** Deciding a record does not touch the flag, which is right for its key. */
  lemma DecidingKeepsFlag(c: Config, input: seq<Record>, st: State, st': State, p: nat)
    requires Deciding(c, input, st, p) && st'.origin == st.origin && st'.hasOutputted == st.hasOutputted
    requires st'.t.active ==> st'.t.key == input[p].key
    ensures FlagOk(input, st', |st.origin|)
  {
    if exists j :: 1 <= j < |st.origin| && input[st.origin[j]].key == input[p].key {
      var j :| 1 <= j < |st.origin| && input[st.origin[j]].key == input[p].key;
      assert st.origin[j] < p;
    }
  }

  lemma FlagStays(input: seq<Record>, st: State, st': State, n: nat)
    requires FlagOk(input, st, n) && st.origin <= st'.origin && st'.t == st.t && st'.hasOutputted == st.hasOutputted
    ensures FlagOk(input, st', n)
  {
    assert forall j :: 0 <= j < n ==> st'.origin[j] == st.origin[j];
  }

  /** The first record presented does not count. */
  lemma FlagOfFirst(c: Config, input: seq<Record>, st: State, p: nat)
    requires Fates(c, input, st, p) && FlagOk(input, st, 0) && |st.origin| <= 1
    ensures FlagOk(input, st, |st.origin|)
  {
  }

  /** Once the record presented last counts, the key has been output. */
  lemma FlagRises(c: Config, input: seq<Record>, st: State, p: nat)
    requires Fates(c, input, st, p) && |st.out| >= 2 && st.out[|st.out| - 1].key == st.t.key
    ensures FlagOk(input, st.(hasOutputted := true), |st.origin|) && Fates(c, input, st.(hasOutputted := true), p)
  {
    var j := |st.origin| - 1;
    assert st.out[j] == Presented(c, input, st.origin[j]);
  }

  // ----- What it means for the output

  /** A SingleDelete that stands right above the record it cancels is there for a write-conflict
      snapshot only. */
  lemma KeptPairsAreNew(c: Config, input: seq<Record>, out: seq<Record>, origin: seq<nat>, j: nat)
    requires Exactly(c, input, out, origin, |input|) && j < |out| && input[origin[j]].kind == SingleDeletion
    requires Shadowed(c, input, origin[j] + 1)
    ensures input[origin[j] + 1].kind != SingleDeletion && input[origin[j]].seqno > c.writeConflict
    ensures !Outputted(input, origin, origin[j]) && origin[j] + 1 in origin
  {
    var i := origin[j];
    assert i in origin;
    assert Keeps(c, input, origin, i + 1);
  }

  /** Nothing obsolete is left: no deletion that may go, no last SingleDelete that may go, and no record
      that a newer one hides from all snapshots, but for those a kept SingleDelete cancels. */
  lemma NothingObsoleteIsKept(c: Config, input: seq<Record>, out: seq<Record>, origin: seq<nat>, j: nat)
    requires Exactly(c, input, out, origin, |input|) && j < |out|
    ensures var i := origin[j]; var r := input[i];
            && (r.kind == Deletion && !Cancelled(c, input, i) ==> !MayDropDeletion(c, r.key, r.seqno))
            && (r.kind == SingleDeletion && !Continues(input, i + 1) ==>
                  !(c.hasCompaction && r.seqno <= Earliest(c) && NotBeyond(c.layout, r.key)))
            && (r.kind != SingleDeletion && Shadowed(c, input, i) ==>
                  Cancelled(c, input, i) && PairStays(c, input, origin, i - 1) && i - 1 in origin)
  {
    var i := origin[j];
    assert i in origin;
    if input[i].kind != SingleDeletion && Shadowed(c, input, i) {
      assert Keeps(c, input, origin, i - 1);
    }
  }

  /** Without snapshots that need them, a SingleDelete and the record it cancels leave no trace. */
  lemma OldPairsVanish(c: Config, input: seq<Record>, out: seq<Record>, origin: seq<nat>, i: nat)
    requires Exactly(c, input, out, origin, |input|) && Cancelled(c, input, i) && input[i - 1].seqno <= c.writeConflict
    ensures i - 1 !in origin && i !in origin
  {
    assert i - 1 in origin <==> Keeps(c, input, origin, i - 1);
  }

  ghost predicate Ascending(origin: seq<nat>) {
    forall i, j :: 0 <= i < j < |origin| ==> origin[i] < origin[j]
  }

  lemma TracedAscends(c: Config, input: seq<Record>, out: seq<Record>, origin: seq<nat>, p: nat)
    requires Traced(c, input, out, origin, p)
    ensures Ascending(origin)
  {
  }

  ghost predicate Alike(a: seq<nat>, b: seq<nat>) {
    (forall i :: i in a ==> i in b) && (forall i :: i in b ==> i in a)
  }

  lemma WithoutLast(a: seq<nat>, b: seq<nat>, a': seq<nat>, b': seq<nat>)
    requires Ascending(a) && a != [] && b != [] && a[|a| - 1] == b[|b| - 1] && Alike(a, b)
    requires a' == a[..|a| - 1] && b' == b[..|b| - 1]
    ensures Ascending(a') && forall i :: i in a' ==> i in b'
  {
    forall i | i in a'
      ensures i in b'
    {
      var k :| 0 <= k < |a| - 1 && a[k] == i;
      assert a[k] in a && a[k] < a[|a| - 1];
      assert i in b;
      var m :| 0 <= m < |b| && b[m] == i;
      assert b'[m] == i;
    }
  }

  lemma {:induction false} SameMembers(a: seq<nat>, b: seq<nat>)
    requires Ascending(a) && Ascending(b) && Alike(a, b)
    ensures a == b
    decreases |a|
  {
    assert (a != [] ==> a[0] in a) && (b != [] ==> b[0] in b);
    if a != [] {
      var x, y := a[|a| - 1], b[|b| - 1];
      assert x in a && y in b;
      assert x in b && y in a;
      assert x == y;
      var a', b' := a[..|a| - 1], b[..|b| - 1];
      WithoutLast(a, b, a', b');
      WithoutLast(b, a, b', a');
      SameMembers(a', b');
    }
  }

  /** Not to be the first of the output is to have another one before it. */
  lemma OutputtedMembers(input: seq<Record>, origin: seq<nat>, i: nat)
    requires Ascending(origin) && i < |input|
    ensures Outputted(input, origin, i) <==>
            exists q, q' :: q in origin && q' in origin && q' < q < i && input[q].key == input[i].key
  {
    if Outputted(input, origin, i) {
      var j :| 1 <= j < |origin| && origin[j] < i && input[origin[j]].key == input[i].key;
      assert origin[0] < origin[j] && origin[0] in origin && origin[j] in origin;
    }
    if q, q' :| q in origin && q' in origin && q' < q < i && input[q].key == input[i].key {
      var j :| 0 <= j < |origin| && origin[j] == q;
      assert j >= 1;
    }
  }

  lemma SameOutputted(input: seq<Record>, origin: seq<nat>, origin': seq<nat>, i: nat)
    requires Ascending(origin) && Ascending(origin') && i < |input|
    requires forall m: nat :: m < i ==> (m in origin <==> m in origin')
    ensures Outputted(input, origin, i) <==> Outputted(input, origin', i)
  {
    OutputtedMembers(input, origin, i);
    OutputtedMembers(input, origin', i);
  }

  lemma {:induction false} SameFates(c: Config, input: seq<Record>, out: seq<Record>, origin: seq<nat>,
      out': seq<Record>, origin': seq<nat>, p: nat)
    requires Exactly(c, input, out, origin, |input|) && Exactly(c, input, out', origin', |input|)
    requires Ascending(origin) && Ascending(origin') && p <= |input|
    ensures forall m: nat :: m < p ==> (m in origin <==> m in origin')
    decreases p
  {
    if p > 0 {
      var i := p - 1;
      SameFates(c, input, out, origin, out', origin', i);
      SameOutputted(input, origin, origin', i);
      if i > 0 {
        SameOutputted(input, origin, origin', i - 1);
      }
      assert Keeps(c, input, origin, i) <==> Keeps(c, input, origin', i);
    }
  }

  /** The input decides the output: there is only one. */
  lemma OutputIsDetermined(c: Config, input: seq<Record>, out: seq<Record>, origin: seq<nat>, out': seq<Record>,
      origin': seq<nat>)
    requires Exactly(c, input, out, origin, |input|) && Exactly(c, input, out', origin', |input|)
    requires Ascending(origin) && Ascending(origin')
    ensures out == out' && origin == origin'
  {
    SameFates(c, input, out, origin, out', origin', |input|);
    assert Alike(origin, origin');
    SameMembers(origin, origin');
    assert forall j :: 0 <= j < |out| ==> out[j] == Presented(c, input, origin[j]) == out'[j];
  }
}
