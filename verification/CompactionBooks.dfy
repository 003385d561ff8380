/** What the compaction iterator guarantees about delivered records besides the views: where each
    comes from, their order, and that write conflicts stay detectable.  `Ready` bundles this with
    `Progress`, and one lemma per branch of the iterator shows that the branch keeps it. */
module CompactionBooks {
  import opened Options
  import opened Records
  import opened LevelCursors
  import opened SnapshotViews
  import opened CompactionSteps

  // ----- Bookkeeping about delivered records

  /** Where a delivered record comes from: it is presented as it was read, or it is the Put below a
      delivered SingleDelete, without its value.  Only a Put may get sequence number zero. */
  ghost predicate ComesFrom(c: Config, input: seq<Record>, o: Record, i: nat) {
    && i < |input|
    && (MayZero(c, input[i].key, input[i].seqno) ==> input[i].kind == Put)
    && (|| o == Prepared(c, input[i])
        || (&& i > 0 && input[i - 1].kind == SingleDeletion && input[i].kind == Put
            && input[i - 1].key == input[i].key && o == Prepared(c, input[i].(value := []))))
  }

  ghost predicate Traced(c: Config, input: seq<Record>, out: seq<Record>, origin: seq<nat>, pos: nat) {
    && |origin| == |out|
    && (forall j :: 0 <= j < |out| ==> origin[j] < pos)
    && (forall j {:trigger ComesFrom(c, input, out[j], origin[j])} :: 0 <= j < |out| ==>
      ComesFrom(c, input, out[j], origin[j]))
    && (forall i, j :: 0 <= i < j < |out| ==> origin[i] < origin[j])
  }

  /** A delivered record whose number may be squashed is the last one of its key. */
  ghost predicate SquashedIsLast(c: Config, input: seq<Record>, out: seq<Record>, t: Track, pos: nat) {
    forall j, i {:trigger MayZero(c, out[j].key, out[j].seqno), input[i]} ::
      0 <= j < |out| && pos <= i < |input| && out[j].key == input[i].key && MayZero(c, out[j].key, out[j].seqno) ==>
        t.active && t.key == out[j].key && t.stripe == Earliest(c)
  }

  ghost predicate HasNewer(rs: seq<Record>, k: UserKey, w: Sequence) {
    exists r :: r in rs && r.key == k && r.seqno > w
  }

  /** The write of `r` is still detectable from snapshot `w`: a delivered record shows it, or the
      next input record is a SingleDelete that will. */
  ghost predicate Detectable(c: Config, input: seq<Record>, out: seq<Record>, t: Track, pos: nat, k: UserKey,
      w: Sequence)
  {
    || HasNewer(out, k, w)
    || (&& t.active && t.key == k && pos < |input| && input[pos].key == k
        && input[pos].kind == SingleDeletion && input[pos].seqno > w)
  }

  ghost predicate ConflictsKept(c: Config, input: seq<Record>, out: seq<Record>, t: Track, pos: nat) {
    forall w, i {:trigger Detectable(c, input, out, t, pos, input[i].key, w)} ::
      w in c.snapshots && c.writeConflict <= w && 0 <= i < pos && i < |input| && input[i].seqno > w ==>
      Detectable(c, input, out, t, pos, input[i].key, w)
  }

  /** The iterator's state between records, with what it has delivered. */
  datatype State = State(
    t: Track,
    seqno: Sequence,          // current_user_key_sequence_
    hasOutputted: bool,
    clearNext: bool,
    ptrs: seq<nat>,
    out: seq<Record>,
    origin: seq<nat>)

  ghost predicate Books(c: Config, input: seq<Record>, st: State, p: nat) {
    && Traced(c, input, st.out, st.origin, p)
    && StrictlySorted(st.out)
    && SquashedIsLast(c, input, st.out, st.t, p)
    && ConflictsKept(c, input, st.out, st.t, p)
  }

  /** Facts about the current key alone. */
  ghost predicate CurrentKey(c: Config, input: seq<Record>, st: State, p: nat) {
    && p <= |input|
    && (st.t.active ==>
          && p > 0 && input[p - 1].key == st.t.key && st.seqno >= input[p - 1].seqno
          && st.t.stripe > 0 && IsStripe(c, st.seqno, st.t.stripe))
    && (st.hasOutputted ==> exists r :: r in st.out && r.key == st.t.key)
    && (st.clearNext ==>
          && st.t.active && p < |input| && input[p].key == st.t.key && input[p].kind == Put
          && input[p - 1].kind == SingleDeletion && Covered(st.out, st.t)
          && IsStripe(c, input[p].seqno, st.t.stripe)
          && !NoSingleDeletion(c, st.t.stripe))
    && (p < |input| ==> CursorsBehind(c.layout, st.ptrs, input[p].key))
  }

  /** A stripe of which no SingleDelete is ever delivered. */
  ghost predicate NoSingleDeletion(c: Config, v: Sequence) {
    c.hasCompaction && c.layout.bottommost && v == Earliest(c)
  }

  ghost predicate Ready(c: Config, input: seq<Record>, beyond: seq<Record>, st: State, p: nat) {
    && InProgress(c, input, beyond, st.out, st.t, p)
    && Books(c, input, st, p)
    && CurrentKey(c, input, st, p)
  }

  /** The record at `p` is about to be processed: the state knows of its key or of none. */
  ghost predicate Facing(c: Config, input: seq<Record>, beyond: seq<Record>, st: State, p: nat, v: Sequence) {
    && Ready(c, input, beyond, st, p) && p < |input|
    && st.t.key == input[p].key && IsStripe(c, input[p].seqno, v) && v > 0
  }

  lemma NewKey(c: Config, input: seq<Record>, beyond: seq<Record>, st: State, p: nat)
    requires Ready(c, input, beyond, st, p) && p < |input|
    requires st.t.active ==> input[p].key != st.t.key
    ensures Ready(c, input, beyond, st.(t := Track(false, input[p].key, 0), hasOutputted := false), p)
  {
    if st.t.active {
      LastVersion(input, p - 1);
      ForgetKey(c, input, beyond, st.out, st.t, p);
      ForgetKeyInBooks(c, input, st, p);
    }
    NothingHidden(c, input, beyond, st.out, st.t.(active := false), p, input[p].key);
    ForgetKeyInBooks(c, input, st, p);
  }

  lemma NothingHidden(c: Config, input: seq<Record>, beyond: seq<Record>, out: seq<Record>, t: Track, p: nat,
      k: UserKey)
    requires InProgress(c, input, beyond, out, t, p) && !t.active
    ensures InProgress(c, input, beyond, out, Track(false, k, 0), p)
  {
    forall k', s | IsView(c, s)
      ensures SnapshotViews.Now(c, out, Track(false, k, 0), (input + beyond)[p..], k', s) ==
              Observe(c, input + beyond, k', s)
    {
      assert SnapshotViews.Now(c, out, t, (input + beyond)[p..], k', s) == Observe(c, input + beyond, k', s);
    }
  }

  lemma ForgetKeyInBooks(c: Config, input: seq<Record>, st: State, p: nat)
    requires Books(c, input, st, p) && p <= |input|
    requires st.t.active ==> forall i :: p <= i < |input| ==> input[i].key != st.t.key
    ensures forall k, v :: Books(c, input, st.(t := Track(false, k, v)), p)
    ensures forall k, v :: Books(c, input, st.(t := Track(false, k, v), hasOutputted := false), p)
  {
    forall k, v
      ensures SquashedIsLast(c, input, st.out, Track(false, k, v), p)
      ensures ConflictsKept(c, input, st.out, Track(false, k, v), p)
    {
      forall w, i | w in c.snapshots && c.writeConflict <= w && 0 <= i < p && i < |input| && input[i].seqno > w
        ensures Detectable(c, input, st.out, Track(false, k, v), p, input[i].key, w)
      {
        assert Detectable(c, input, st.out, st.t, p, input[i].key, w);
      }
    }
  }

  lemma CursorsStayBehind(c: Config, input: seq<Record>, ptrs: seq<nat>, p: nat, q: nat)
    requires StrictlySorted(input) && p <= q < |input| && CursorsBehind(c.layout, ptrs, input[p].key)
    ensures CursorsBehind(c.layout, ptrs, input[q].key)
  {
    assert p < q ==> Before(input[p], input[q]);
  }

  // ----- The books under each branch

  /** Without their positions, delivered records keep the order of the stream. */
  lemma DeliverKeepsOrder(c: Config, input: seq<Record>, out: seq<Record>, origin: seq<nat>, t: Track, pos: nat,
      o: Record, i: nat)
    requires ValidConfig(c) && StrictlySorted(input) && Traced(c, input, out, origin, pos)
    requires StrictlySorted(out) && SquashedIsLast(c, input, out, t, pos)
    requires pos <= i && ComesFrom(c, input, o, i)
    requires t.active && t.stripe == Earliest(c) && c.hasCompaction && c.layout.bottommost ==> t.key != input[i].key
    ensures StrictlySorted(out + [o])
  {
    var out' := out + [o];
    forall j, m | 0 <= j < m < |out'|
      ensures Before(out'[j], out'[m])
    {
      if m == |out| {
        assert ComesFrom(c, input, out[j], origin[j]);
        assert Before(input[origin[j]], input[i]);
        if out[j].key == input[i].key {
          assert !MayZero(c, out[j].key, out[j].seqno);
        }
      }
    }
  }

  /** Delivering a record keeps the write-conflict bookkeeping, also if it does so for the record
      that the last SingleDelete stood for. */
  lemma DeliverKeepsConflicts(c: Config, input: seq<Record>, out: seq<Record>, t: Track, t': Track, pos: nat, o: Record)
    requires ValidConfig(c) && pos < |input| && ConflictsKept(c, input, out, t, pos)
    requires o.key == input[pos].key && (o.seqno == input[pos].seqno || input[pos].seqno <= Earliest(c))
    ensures ConflictsKept(c, input, out + [o], t', pos + 1)
  {
    EarliestIsLeast(c);
    forall w, i | w in c.snapshots && c.writeConflict <= w && 0 <= i < pos + 1 && i < |input| && input[i].seqno > w
      ensures Detectable(c, input, out + [o], t', pos + 1, input[i].key, w)
    {
      assert o in out + [o];
      if i < pos {
        assert Detectable(c, input, out, t, pos, input[i].key, w);
        if HasNewer(out, input[i].key, w) {
          var r :| r in out && r.key == input[i].key && r.seqno > w;
          assert r in out + [o];
        }
      }
    }
  }

  /** Moving on within a key: what must not be delivered again stays so. */
  lemma SquashedStaysLast(c: Config, input: seq<Record>, beyond: seq<Record>, st: State, p: nat, v: Sequence)
    requires Facing(c, input, beyond, st, p, v)
    ensures SquashedIsLast(c, input, st.out, Track(true, input[p].key, v), p + 1)
    ensures st.t.active ==> v <= st.t.stripe
  {
    EarliestIsLeast(c);
    assert (input + beyond)[p..][0] == input[p];
  }

  lemma HiddenKeepsReady(c: Config, input: seq<Record>, beyond: seq<Record>, st: State, p: nat, v: Sequence)
    requires Facing(c, input, beyond, st, p, v) && !st.clearNext
    requires st.t.active && st.t.stripe == v && input[p].kind != SingleDeletion
    ensures Ready(c, input, beyond, st.(seqno := input[p].seqno), p + 1)
  {
    var st' := st.(seqno := input[p].seqno);
    DropHidden(c, input, beyond, st.out, st.t, p);
    SquashedStaysLast(c, input, beyond, st, p, v);
    forall w, i | w in c.snapshots && c.writeConflict <= w && 0 <= i < p + 1 && i < |input| && input[i].seqno > w
      ensures Detectable(c, input, st.out, st.t, p + 1, input[i].key, w)
    {
      assert Before(input[p - 1], input[p]);
      var i' := if i == p then p - 1 else i;
      assert Detectable(c, input, st.out, st.t, p, input[i'].key, w);
    }
    if p + 1 < |input| {
      CursorsStayBehind(c, input, st.ptrs, p, p + 1);
    }
  }

  /** Dropping a record that no write-conflict snapshot can miss. */
  lemma OldDropKeepsConflicts(c: Config, input: seq<Record>, out: seq<Record>, t: Track, t': Track, p: nat)
    requires ValidConfig(c) && p < |input| && ConflictsKept(c, input, out, t, p)
    requires input[p].seqno <= Earliest(c)
    ensures ConflictsKept(c, input, out, t', p + 1)
  {
    EarliestIsLeast(c);
    forall w, i | w in c.snapshots && c.writeConflict <= w && 0 <= i < p + 1 && i < |input| && input[i].seqno > w
      ensures Detectable(c, input, out, t', p + 1, input[i].key, w)
    {
      assert IsView(c, w);
      assert Detectable(c, input, out, t, p, input[i].key, w);
    }
  }

  lemma ObsoleteDeletionKeepsReady(c: Config, input: seq<Record>, beyond: seq<Record>, st: State, p: nat, v: Sequence)
    requires Facing(c, input, beyond, st, p, v) && !st.clearNext
    requires st.t.active ==> st.t.stripe != v
    requires input[p].kind == Deletion && MayDropDeletion(c, input[p].key, input[p].seqno)
    ensures Ready(c, input, beyond, st.(t := Track(true, input[p].key, v), seqno := input[p].seqno), p + 1)
  {
    DropDeletion(c, input, beyond, st.out, st.t, p, v);
    SquashedStaysLast(c, input, beyond, st, p, v);
    OldDropKeepsConflicts(c, input, st.out, st.t, Track(true, input[p].key, v), p);
    if p + 1 < |input| {
      CursorsStayBehind(c, input, st.ptrs, p, p + 1);
    }
  }

  /** The state after the record at `p` has been delivered as `o`. */
  function Delivered(input: seq<Record>, st: State, p: nat, v: Sequence, o: Record): State
    requires p < |input|
  {
    st.(t := Track(true, input[p].key, v), seqno := input[p].seqno, clearNext := false,
        out := st.out + [o], origin := st.origin + [p])
  }

  /** The books of any delivery. */
  lemma DeliveryKeepsBooks(c: Config, input: seq<Record>, beyond: seq<Record>, st: State, p: nat, v: Sequence,
      o: Record)
    requires Facing(c, input, beyond, st, p, v) && ComesFrom(c, input, o, p)
    requires st.t.active ==> st.t.stripe != v || !NoSingleDeletion(c, v)
    ensures Books(c, input, Delivered(input, st, p, v, o), p + 1)
  {
    var st' := Delivered(input, st, p, v, o);
    EarliestIsLeast(c);
    SquashedStaysLast(c, input, beyond, st, p, v);
    DeliverKeepsOrder(c, input, st.out, st.origin, st.t, p, o, p);
    DeliverKeepsConflicts(c, input, st.out, st.t, st'.t, p, o);
    assert MayZero(c, o.key, o.seqno) ==> v == Earliest(c);
  }

  lemma DeliveryKeepsReady(c: Config, input: seq<Record>, beyond: seq<Record>, st: State, p: nat, v: Sequence)
    requires Facing(c, input, beyond, st, p, v) && !st.clearNext
    requires if input[p].kind == SingleDeletion then !NoSingleDeletion(c, v) else st.t.active ==> st.t.stripe != v
    requires MayZero(c, input[p].key, input[p].seqno) ==> input[p].kind == Put
    ensures Ready(c, input, beyond, Delivered(input, st, p, v, Prepared(c, input[p])), p + 1)
    ensures Covered(st.out + [Prepared(c, input[p])], Track(true, input[p].key, v))
  {
    var o := Prepared(c, input[p]);
    Deliver(c, input, beyond, st.out, st.t, p, v);
    DeliveryKeepsBooks(c, input, beyond, st, p, v, o);
    assert o in st.out + [o];
    if p + 1 < |input| {
      CursorsStayBehind(c, input, st.ptrs, p, p + 1);
    }
  }

  lemma ClearedDeliveryKeepsReady(c: Config, input: seq<Record>, beyond: seq<Record>, st: State, p: nat, v: Sequence)
    requires Facing(c, input, beyond, st, p, v) && st.clearNext
    ensures st.t.active && v == st.t.stripe && input[p].kind == Put
    ensures Ready(c, input, beyond, Delivered(input, st, p, v, Prepared(c, input[p].(value := []))), p + 1)
  {
    var o := Prepared(c, input[p].(value := []));
    DeliverCleared(c, input, beyond, st.out, st.t, p);
    DeliveryKeepsBooks(c, input, beyond, st, p, v, o);
    assert o in st.out + [o];
    if p + 1 < |input| {
      CursorsStayBehind(c, input, st.ptrs, p, p + 1);
    }
  }

  // ----- The branches of a SingleDelete

  lemma SkipKeepsReady(c: Config, input: seq<Record>, beyond: seq<Record>, st: State, p: nat, v: Sequence)
    requires Facing(c, input, beyond, st, p, v) && !st.clearNext && input[p].kind == SingleDeletion
    requires p + 1 < |input| && input[p + 1].key == input[p].key && input[p + 1].kind == SingleDeletion
    requires IsStripe(c, input[p + 1].seqno, v)
    ensures Ready(c, input, beyond, st.(t := Track(true, input[p].key, v), seqno := input[p].seqno), p + 1)
  {
    var t' := Track(true, input[p].key, v);
    SkipSingleDeletion(c, input, beyond, st.out, st.t, p, v);
    SquashedStaysLast(c, input, beyond, st, p, v);
    forall w, i | w in c.snapshots && c.writeConflict <= w && 0 <= i < p + 1 && i < |input| && input[i].seqno > w
      ensures Detectable(c, input, st.out, t', p + 1, input[i].key, w)
    {
      assert IsView(c, w);
      if i < p {
        assert Detectable(c, input, st.out, st.t, p, input[i].key, w);
      }
    }
    CursorsStayBehind(c, input, st.ptrs, p, p + 1);
  }

  /** Dropping a pair hides no write: the key was delivered before, or the pair is too old. */
  lemma PairKeepsConflicts(c: Config, input: seq<Record>, st: State, p: nat, t': Track)
    requires ValidConfig(c) && StrictlySorted(input) && Books(c, input, st, p) && p + 1 < |input|
    requires input[p].key == input[p + 1].key
    requires st.hasOutputted ==> exists r :: r in st.out && r.key == input[p].key
    requires st.hasOutputted || input[p].seqno <= c.writeConflict
    ensures ConflictsKept(c, input, st.out, t', p + 2)
  {
    assert Before(input[p], input[p + 1]);
    forall w, i | w in c.snapshots && c.writeConflict <= w && 0 <= i < p + 2 && i < |input| && input[i].seqno > w
      ensures Detectable(c, input, st.out, t', p + 2, input[i].key, w)
    {
      if i < p {
        assert Detectable(c, input, st.out, st.t, p, input[i].key, w);
      }
      if input[p].seqno > w {
        OutputtedIsNewer(c, input, st, p, w);
      }
    }
  }

  lemma PairKeepsReady(c: Config, input: seq<Record>, beyond: seq<Record>, st: State, p: nat, v: Sequence)
    requires Facing(c, input, beyond, st, p, v) && !st.clearNext && input[p].kind == SingleDeletion
    requires p + 1 < |input| && input[p + 1].key == input[p].key && input[p + 1].kind != SingleDeletion
    requires IsStripe(c, input[p + 1].seqno, v)
    requires st.hasOutputted || input[p].seqno <= c.writeConflict
    ensures Ready(c, input, beyond, st.(t := Track(true, input[p].key, v), seqno := input[p].seqno), p + 2)
  {
    var t' := Track(true, input[p].key, v);
    DropPair(c, input, beyond, st.out, st.t, p, v);
    SquashedStaysLast(c, input, beyond, st, p, v);
    PairKeepsConflicts(c, input, st, p, t');
    assert Before(input[p], input[p + 1]);
    if p + 2 < |input| {
      CursorsStayBehind(c, input, st.ptrs, p, p + 2);
    }
  }

  /** A record delivered for the current key shows a write newer than the one at `p`. */
  lemma OutputtedIsNewer(c: Config, input: seq<Record>, st: State, p: nat, w: Sequence)
    requires ValidConfig(c) && StrictlySorted(input) && Books(c, input, st, p) && p < |input|
    requires st.hasOutputted && exists r :: r in st.out && r.key == input[p].key
    requires w in c.snapshots && input[p].seqno > w
    ensures HasNewer(st.out, input[p].key, w)
  {
    EarliestIsLeast(c);
    assert IsView(c, w);
    var r :| r in st.out && r.key == input[p].key;
    var j :| 0 <= j < |st.out| && st.out[j] == r;
    assert ComesFrom(c, input, st.out[j], st.origin[j]);
    assert Before(input[st.origin[j]], input[p]);
  }

  lemma LastSingleDropKeepsReady(c: Config, input: seq<Record>, beyond: seq<Record>, st: State, p: nat, v: Sequence)
    requires Facing(c, input, beyond, st, p, v) && !st.clearNext && input[p].kind == SingleDeletion
    requires p + 1 < |input| ==> input[p + 1].key != input[p].key
    requires c.hasCompaction && input[p].seqno <= Earliest(c) && NotBeyond(c.layout, input[p].key)
    ensures Ready(c, input, beyond, st.(t := Track(false, input[p].key, v), seqno := input[p].seqno), p + 1)
  {
    var t' := Track(false, input[p].key, v);
    DropLastSingleDeletion(c, input, beyond, st.out, st.t, p, v);
    SquashedStaysLast(c, input, beyond, st, p, v);
    LastVersion(input, p);
    assert SquashedIsLast(c, input, st.out, t', p + 1);
    OldDropKeepsConflicts(c, input, st.out, st.t, t', p);
    if p + 1 < |input| {
      CursorsStayBehind(c, input, st.ptrs, p, p + 1);
    }
  }

  /** The key's last version is a SingleDelete that must stay. */
  lemma LastSingleDeliveryKeepsReady(c: Config, input: seq<Record>, beyond: seq<Record>, st: State, p: nat, v: Sequence)
    requires Facing(c, input, beyond, st, p, v) && !st.clearNext && input[p].kind == SingleDeletion
    requires !NoSingleDeletion(c, v)
    requires p + 1 < |input| ==> input[p + 1].key != input[p].key
    ensures Ready(c, input, beyond,
                  Delivered(input, st, p, v, Prepared(c, input[p])).(t := Track(false, input[p].key, v)), p + 1)
  {
    NotZeroed(c, input[p], v);
    DeliveryKeepsReady(c, input, beyond, st, p, v);
    var st' := Delivered(input, st, p, v, Prepared(c, input[p]));
    LastVersion(input, p);
    ForgetKey(c, input, beyond, st'.out, st'.t, p + 1);
    ForgetKeyInBooks(c, input, st', p + 1);
  }

  /** A SingleDelete that must stay although the Put below it is in the same stripe. */
  lemma PairDeliveryKeepsReady(c: Config, input: seq<Record>, beyond: seq<Record>, st: State, p: nat, v: Sequence)
    requires Facing(c, input, beyond, st, p, v) && !st.clearNext && input[p].kind == SingleDeletion
    requires !NoSingleDeletion(c, v)
    requires p + 1 < |input| && input[p + 1].key == input[p].key && input[p + 1].kind != SingleDeletion
    requires IsStripe(c, input[p + 1].seqno, v)
    ensures Ready(c, input, beyond, Delivered(input, st, p, v, Prepared(c, input[p])).(clearNext := true), p + 1)
  {
    NotZeroed(c, input[p], v);
    DeliveryKeepsReady(c, input, beyond, st, p, v);
    assert Follows(input + beyond, p, p + 1);
  }

  /** In a stripe whose SingleDeletes stay, sequence numbers are not squashed. */
  lemma NotZeroed(c: Config, r: Record, v: Sequence)
    requires ValidConfig(c) && IsStripe(c, r.seqno, v) && !NoSingleDeletion(c, v)
    ensures !MayZero(c, r.key, r.seqno)
  {
    EarliestIsLeast(c);
  }

  /** Every write that a write-conflict snapshot must notice is still there, and none is made up. */
  lemma ConflictsAtEnd(c: Config, input: seq<Record>, st: State, k: UserKey, w: Sequence)
    requires Books(c, input, st, |input|)
    requires w in c.snapshots && c.writeConflict <= w
    ensures HasNewer(input, k, w) <==> HasNewer(st.out, k, w)
  {
    if HasNewer(input, k, w) {
      var r :| r in input && r.key == k && r.seqno > w;
      var i :| 0 <= i < |input| && input[i] == r;
      assert Detectable(c, input, st.out, st.t, |input|, input[i].key, w);
    }
    if HasNewer(st.out, k, w) {
      var r :| r in st.out && r.key == k && r.seqno > w;
      var j :| 0 <= j < |st.out| && st.out[j] == r;
      assert ComesFrom(c, input, st.out[j], st.origin[j]);
      assert input[st.origin[j]] in input;
    }
  }

  lemma StartsFacing(c: Config, input: seq<Record>, beyond: seq<Record>, st: State, p: nat, v: Sequence)
    requires Ready(c, input, beyond, st, p) && p < |input| && st.t.key == input[p].key
    requires IsStripe(c, input[p].seqno, v)
    ensures Facing(c, input, beyond, st, p, v)
  {
    StripeIsPositive(c, input, beyond, input[p], v);
  }

  lemma ReadyFacts(c: Config, input: seq<Record>, beyond: seq<Record>, st: State, p: nat)
    requires Ready(c, input, beyond, st, p)
    ensures At(c, input, beyond, p)
    ensures p < |input| ==> input[p].seqno <= MAX_SEQUENCE
    ensures Traced(c, input, st.out, st.origin, p) && StrictlySorted(st.out)
  {
    if p < |input| {
      assert input[p] in input + beyond;
    }
  }

  /** What the branches use of the state they start from. */
  lemma WhenFacing(c: Config, input: seq<Record>, beyond: seq<Record>, st: State, p: nat, v: Sequence)
    requires Facing(c, input, beyond, st, p, v)
    ensures At(c, input, beyond, p) && CursorsBehind(c.layout, st.ptrs, input[p].key)
    ensures st.t.active ==> st.t.stripe > 0
    ensures st.clearNext ==> st.t.active && st.t.stripe == v && input[p].kind == Put
  {
  }

  /** A search with the level cursors changes nothing else. */
  lemma SearchKeepsFacing(c: Config, input: seq<Record>, beyond: seq<Record>, st: State, p: nat, v: Sequence,
      ptrs: seq<nat>)
    requires Facing(c, input, beyond, st, p, v) && CursorsBehind(c.layout, ptrs, input[p].key)
    ensures Facing(c, input, beyond, st.(ptrs := ptrs), p, v)
  {
  }

  /** How the iterator tells that the next version is in the stripe of a SingleDelete. */
  lemma SameStripe(c: Config, input: seq<Record>, beyond: seq<Record>, p: nat, v: Sequence, prevSnapshot: Sequence)
    requires At(c, input, beyond, p) && p + 1 < |input| && input[p + 1].key == input[p].key
    requires IsStripe(c, input[p].seqno, v)
    requires forall s: Sequence :: IsView(c, s) && s < input[p].seqno ==> s <= prevSnapshot
    requires prevSnapshot == 0 || input[p + 1].seqno > prevSnapshot
    ensures IsStripe(c, input[p + 1].seqno, v)
  {
    assert Before(input[p], input[p + 1]);
    assert input[p + 1] in input;
  }

  /** When a SingleDelete has to stay. */
  lemma SingleDeletionStays(c: Config, q: Sequence, v: Sequence, prevSnapshot: Sequence, k: UserKey)
    requires ValidConfig(c) && IsStripe(c, q, v)
    requires || q > c.writeConflict
             || (prevSnapshot != 0 && IsView(c, prevSnapshot) && prevSnapshot < q)
             || !(c.hasCompaction && q <= Earliest(c) && NotBeyond(c.layout, k))
    ensures !NoSingleDeletion(c, v)
  {
    EarliestIsLeast(c);
  }

  lemma OutputtedKeepsReady(c: Config, input: seq<Record>, beyond: seq<Record>, st: State, p: nat)
    requires Ready(c, input, beyond, st, p) && st.out != [] && st.out[|st.out| - 1].key == st.t.key
    ensures Ready(c, input, beyond, st.(hasOutputted := true), p)
  {
    assert st.out[|st.out| - 1] in st.out;
  }
}
