/** CompactionIterator: one pass over a sorted multi-version stream that drops hidden versions,
    obsolete deletions and SingleDelete/Put pairs, and squashes sequence numbers.

    Merge operands, range tombstones, compaction filters, snapshot checkers, corrupt keys and
    shutdown are not part of this model. */
module CompactionIterators {
  import opened Options
  import opened Records
  import opened LevelCursors
  import opened SnapshotViews
  import opened CompactionSteps
  import opened CompactionBooks
  import opened CompactionFates

  /** Findings of the search over the live snapshots. */
  method FindEarliestVisibleSnapshot(c: Config, q: Sequence) returns (v: Sequence, prev: Sequence)
    requires ValidConfig(c) && c.snapshots != [] && q <= MAX_SEQUENCE
    ensures IsStripe(c, q, v)
    ensures prev != 0 ==> IsView(c, prev) && prev < q
    ensures forall s: Sequence :: IsView(c, s) && s < q ==> s <= prev
  {
    prev := MAX_SEQUENCE;
    for i := 0 to |c.snapshots|
      invariant forall j :: 0 <= j < i ==> c.snapshots[j] < q
      invariant prev == if i == 0 then MAX_SEQUENCE else c.snapshots[i - 1]
    {
      var cur := c.snapshots[i];
      assert prev == MAX_SEQUENCE || prev <= cur;
      if cur >= q {
        return cur, if prev == MAX_SEQUENCE then 0 else prev;
      }
      prev := cur;
      assert prev < MAX_SEQUENCE;
    }
    return MAX_SEQUENCE, prev;
  }

  class CompactionIterator {
    const c: Config
    const input: seq<Record>
    ghost const beyond: seq<Record>

    var pos: nat                    // position of input_
    var valid: bool
    var atNext: bool
    var ikey: Record                // the record being looked at or presented
    var hasCurrentUserKey: bool
    var currentUserKey: UserKey
    var currentUserKeySequence: Sequence
    var currentUserKeySnapshot: Sequence
    var hasOutputtedKey: bool
    var clearAndOutputNextKey: bool
    var levelPtrs: seq<nat>

    ghost var delivered: seq<Record>  // everything presented so far, with the current record
    ghost var origin: seq<nat>

    ghost function Now(): State
      reads this
    {
      State(Track(hasCurrentUserKey, currentUserKey, currentUserKeySnapshot), currentUserKeySequence,
            hasOutputtedKey, clearAndOutputNextKey, levelPtrs, delivered, origin)
    }

    /** Position of the first record not taken from the input yet. */
    function Rest(): nat
      reads this
    {
      if valid && !atNext then pos + 1 else pos
    }

    ghost predicate Valid()
      reads this
    {
      Ready(c, input, beyond, Now(), Rest()) && Fates(c, input, Now(), Rest())
    }

    /** `has_outputted_key_` tells whether the key was among the first `n` records presented. */
    ghost predicate FlagIs(n: nat)
      reads this
    {
      FlagOk(input, Now(), n)
    }

    constructor (c: Config, input: seq<Record>, ghost beyond: seq<Record>)
      requires ValidConfig(c) && ValidData(c, input, beyond)
      ensures this.c == c && this.input == input && this.beyond == beyond
      ensures Valid() && !valid && Rest() == 0 && delivered == [] && origin == [] && FlagIs(0)
    {
      this.c, this.input, this.beyond := c, input, beyond;
      pos, valid, atNext := 0, false, false;
      hasCurrentUserKey, currentUserKeySequence, currentUserKeySnapshot := false, 0, 0;
      hasOutputtedKey, clearAndOutputNextKey := false, false;
      levelPtrs := seq(|c.layout.levels|, i => 0);
      delivered, origin := [], [];
      assert (input + beyond)[0..] == input + beyond;
    }

    /** Resets the per-key state at the first version of a user key. */
    method StartKey() returns (ghost before: State)
      requires Valid() && !valid && pos < |input| && FlagIs(|origin|)
      modifies this`ikey, this`hasCurrentUserKey, this`currentUserKey, this`currentUserKeySequence,
               this`currentUserKeySnapshot, this`hasOutputtedKey
      ensures ikey == input[pos] && hasCurrentUserKey && currentUserKey == ikey.key
      ensures Deciding(c, input, before, pos)
      ensures Ready(c, input, beyond, before, pos) && before.t.key == ikey.key
      ensures currentUserKeySnapshot == if before.t.active then before.t.stripe else 0
      ensures before.t.active ==> currentUserKeySequence == before.seqno
      ensures Now() == before.(t := Now().t, seqno := currentUserKeySequence)
    {
      hide Ready, Fates, FlagOk, Deciding;
      ikey := input[pos];
      before := Now();
      ReadyFacts(c, input, beyond, before, pos);
      if !hasCurrentUserKey || ikey.key != currentUserKey {
        NewKey(c, input, beyond, before, pos);
        NewKeyFates(c, input, before, pos);
        before := before.(t := Track(false, ikey.key, 0), hasOutputted := false);
        currentUserKey := ikey.key;
        hasCurrentUserKey := true;
        hasOutputtedKey := false;
        currentUserKeySequence := MAX_SEQUENCE;
        currentUserKeySnapshot := 0;
      } else {
        SameKeyFates(c, input, before, pos);
      }
    }

    /** Processes the record at `pos` up to the search for its stripe. */
    method StartRecord() returns (lastSnapshot: Sequence, prevSnapshot: Sequence, ghost before: State)
      requires Valid() && !valid && pos < |input| && FlagIs(|origin|)
      modifies this`ikey, this`hasCurrentUserKey, this`currentUserKey, this`currentUserKeySequence,
               this`currentUserKeySnapshot, this`hasOutputtedKey
      ensures ikey == input[pos] && hasCurrentUserKey && Deciding(c, input, before, pos)
      ensures Facing(c, input, beyond, before, pos, currentUserKeySnapshot)
      ensures Now() == before.(t := Track(true, ikey.key, currentUserKeySnapshot), seqno := ikey.seqno)
      ensures lastSnapshot == if before.t.active then before.t.stripe else 0
      ensures prevSnapshot != 0 ==> IsView(c, prevSnapshot) && prevSnapshot < ikey.seqno
      ensures forall s: Sequence :: IsView(c, s) && s < ikey.seqno ==> s <= prevSnapshot
    {
      hide Ready, Fates, FlagOk, Deciding;
      before := StartKey();
      ReadyFacts(c, input, beyond, before, pos);
      lastSnapshot := currentUserKeySnapshot;
      currentUserKeySequence := ikey.seqno;
      currentUserKeySnapshot, prevSnapshot := Stripe(ikey.seqno);
      StartsFacing(c, input, beyond, before, pos, currentUserKeySnapshot);
    }

    /** The stripe of a sequence number and the snapshot before it; without snapshots everything is
        in the one stripe that ends at the tip. */
    method Stripe(q: Sequence) returns (v: Sequence, prevSnapshot: Sequence)
      requires ValidConfig(c) && q <= MAX_SEQUENCE
      ensures IsStripe(c, q, v)
      ensures prevSnapshot != 0 ==> IsView(c, prevSnapshot) && prevSnapshot < q
      ensures forall s: Sequence :: IsView(c, s) && s < q ==> s <= prevSnapshot
    {
      if c.snapshots == [] {
        v, prevSnapshot := Earliest(c), 0;
      } else {
        v, prevSnapshot := FindEarliestVisibleSnapshot(c, q);
      }
    }

    /** The SingleDelete branch when the key has no older version in the input. */
    method TakeLastSingleDeletion(ghost before: State, ghost p: nat)
      requires p < |input| && pos == p + 1 && !valid && !atNext && ikey == input[p] && ikey.kind == SingleDeletion
      requires pos < |input| ==> input[pos].key != ikey.key
      requires Facing(c, input, beyond, before, p, currentUserKeySnapshot) && !before.clearNext
      requires Deciding(c, input, before, p)
      requires Now() == before.(t := Track(true, ikey.key, currentUserKeySnapshot), seqno := ikey.seqno)
      modifies this`hasCurrentUserKey, this`levelPtrs, this`valid
      ensures var st := if valid then AfterPresenting(p) else Now();
              Ready(c, input, beyond, st, pos) && Fates(c, input, st, pos)
      ensures valid ==> !NoSingleDeletion(c, currentUserKeySnapshot)
    {
      hide Ready, Fates, Deciding;
      WhenFacing(c, input, beyond, before, p, currentUserKeySnapshot);
      hasCurrentUserKey := false;
      var gone := false;
      if c.hasCompaction && ikey.seqno <= Earliest(c) {
        gone, levelPtrs := KeyNotExistsBeyondOutputLevel(c.layout, ikey.key, levelPtrs);
      }
      ghost var searched := before.(ptrs := levelPtrs);
      SearchKeepsFacing(c, input, beyond, before, p, currentUserKeySnapshot, levelPtrs);
      SearchKeepsDeciding(c, input, before, p, levelPtrs);
      if gone {
        LastDropFates(c, input, searched, p, currentUserKeySnapshot);
        LastSingleDropKeepsReady(c, input, beyond, searched, p, currentUserKeySnapshot);
      } else {
        SingleDeletionStays(c, ikey.seqno, currentUserKeySnapshot, 0, ikey.key);
        LastStaysFates(c, input, searched, p, currentUserKeySnapshot);
        LastSingleDeliveryKeepsReady(c, input, beyond, searched, p, currentUserKeySnapshot);
        valid := true;
      }
    }

    /** The state once the record taken from position `p` counts as delivered. */
    ghost function AfterPresenting(p: nat): State
      reads this
    {
      Now().(out := delivered + [Prepared(c, ikey)], origin := origin + [p])
    }

    /** The SingleDelete branch when an older version follows; `prevSnapshot` ends the stripe. */
    method TakeFollowedSingleDeletion(prevSnapshot: Sequence, ghost before: State, ghost p: nat)
      requires p < |input| && pos == p + 1 && !valid && !atNext && ikey == input[p] && ikey.kind == SingleDeletion
      requires pos < |input| && input[pos].key == ikey.key
      requires Facing(c, input, beyond, before, p, currentUserKeySnapshot) && !before.clearNext
      requires Deciding(c, input, before, p)
      requires Now() == before.(t := Track(true, ikey.key, currentUserKeySnapshot), seqno := ikey.seqno)
      requires prevSnapshot != 0 ==> IsView(c, prevSnapshot) && prevSnapshot < ikey.seqno
      requires forall s: Sequence :: IsView(c, s) && s < ikey.seqno ==> s <= prevSnapshot
      modifies this`pos, this`clearAndOutputNextKey, this`valid
      ensures pos >= old(pos)
      ensures var st := if valid then AfterPresenting(p) else Now();
              Ready(c, input, beyond, st, pos) && Fates(c, input, st, pos)
      ensures valid ==> !NoSingleDeletion(c, currentUserKeySnapshot)
    {
      hide Ready, Fates, Deciding, Shadowed;
      ghost var v := currentUserKeySnapshot;
      WhenFacing(c, input, beyond, before, p, v);
      NextIsShadowed(c, input, beyond, p, v, prevSnapshot);
      if prevSnapshot == 0 || input[pos].seqno > prevSnapshot {
        SameStripe(c, input, beyond, p, v, prevSnapshot);
        if input[pos].kind == SingleDeletion {
          SkipFates(c, input, before, p, v);
          SkipKeepsReady(c, input, beyond, before, p, v);
        } else if hasOutputtedKey || ikey.seqno <= c.writeConflict {
          PairFates(c, input, before, p, v);
          PairKeepsReady(c, input, beyond, before, p, v);
          pos := pos + 1;
        } else {
          SingleDeletionStays(c, ikey.seqno, v, prevSnapshot, ikey.key);
          PairStaysFates(c, input, before, p, v);
          PairDeliveryKeepsReady(c, input, beyond, before, p, v);
          valid := true;
          clearAndOutputNextKey := true;
        }
      } else {
        SingleDeletionStays(c, ikey.seqno, v, prevSnapshot, ikey.key);
        NotZeroed(c, ikey, v);
        SingleStaysFates(c, input, before, p, v);
        DeliveryKeepsReady(c, input, beyond, before, p, v);
        valid := true;
      }
    }

    /** The SingleDelete branch: looks one record ahead. */
    method TakeSingleDeletion(prevSnapshot: Sequence, ghost before: State)
      requires pos < |input| && !valid && !atNext && ikey == input[pos] && ikey.kind == SingleDeletion
      requires Facing(c, input, beyond, before, pos, currentUserKeySnapshot) && !before.clearNext
      requires Deciding(c, input, before, pos)
      requires Now() == before.(t := Track(true, ikey.key, currentUserKeySnapshot), seqno := ikey.seqno)
      requires prevSnapshot != 0 ==> IsView(c, prevSnapshot) && prevSnapshot < ikey.seqno
      requires forall s: Sequence :: IsView(c, s) && s < ikey.seqno ==> s <= prevSnapshot
      modifies this`pos, this`hasCurrentUserKey, this`levelPtrs, this`clearAndOutputNextKey, this`valid, this`atNext
      ensures Outcome(old(pos)) && (valid ==> ikey.kind != SingleDeletion || !MayZero(c, ikey.key, ikey.seqno))
    {
      hide Ready, Fates, Deciding;
      ghost var p := pos;
      WhenFacing(c, input, beyond, before, p, currentUserKeySnapshot);
      pos := pos + 1;
      if pos < |input| && input[pos].key == ikey.key {
        TakeFollowedSingleDeletion(prevSnapshot, before, p);
      } else {
        TakeLastSingleDeletion(before, p);
      }
      if valid {
        NotZeroed(c, ikey, currentUserKeySnapshot);
        atNext := true;
      }
    }

    /** The record of position `p` is to be presented, or it has been passed over. */
    ghost predicate Outcome(p: nat)
      reads this
    {
      && Rest() > p && (!valid ==> !atNext)
      && Ready(c, input, beyond, if valid then AfterPresenting(p) else Now(), Rest())
      && Fates(c, input, if valid then AfterPresenting(p) else Now(), Rest())
    }

    /** A Put or a Deletion. */
    method TakePlainRecord(lastSnapshot: Sequence, ghost before: State)
      requires pos < |input| && !valid && !atNext && ikey == input[pos] && ikey.kind != SingleDeletion
      requires Facing(c, input, beyond, before, pos, currentUserKeySnapshot) && !before.clearNext
      requires Deciding(c, input, before, pos)
      requires Now() == before.(t := Track(true, ikey.key, currentUserKeySnapshot), seqno := ikey.seqno)
      requires lastSnapshot == if before.t.active then before.t.stripe else 0
      modifies this`pos, this`levelPtrs, this`valid
      ensures Outcome(old(pos)) && (valid ==> MayZero(c, ikey.key, ikey.seqno) ==> ikey.kind == Put)
    {
      hide Ready, Fates, Deciding;
      ghost var p, v := pos, currentUserKeySnapshot;
      WhenFacing(c, input, beyond, before, p, v);
      if lastSnapshot == currentUserKeySnapshot {
        HiddenFates(c, input, before, p, v);
        HiddenKeepsReady(c, input, beyond, before, p, v);
        pos := pos + 1;
        return;
      }
      var gone := false;
      if c.hasCompaction && ikey.kind == Deletion && ikey.seqno <= Earliest(c)
         && NotNeededForIncrementalSnapshot(c, ikey.seqno) {
        gone, levelPtrs := KeyNotExistsBeyondOutputLevel(c.layout, ikey.key, levelPtrs);
      }
      ghost var searched := before.(ptrs := levelPtrs);
      SearchKeepsFacing(c, input, beyond, before, p, v, levelPtrs);
      SearchKeepsDeciding(c, input, before, p, levelPtrs);
      if gone {
        ObsoleteFates(c, input, searched, p, v);
        ObsoleteDeletionKeepsReady(c, input, beyond, searched, p, v);
        pos := pos + 1;
      } else {
        PlainFates(c, input, searched, p, v);
        DeliveryKeepsReady(c, input, beyond, searched, p, v);
        valid := true;
      }
    }

    /** Decides the record at `pos`: to be presented, or passed over. */
    method DecideRecord()
      requires Valid() && !valid && !atNext && pos < |input| && FlagIs(|origin|)
      modifies this`pos, this`valid, this`atNext, this`ikey, this`hasCurrentUserKey, this`currentUserKey,
               this`currentUserKeySequence, this`currentUserKeySnapshot, this`hasOutputtedKey,
               this`clearAndOutputNextKey, this`levelPtrs
      ensures Outcome(old(pos)) && FlagIs(|origin|)
      ensures valid ==> currentUserKey == ikey.key && (MayZero(c, ikey.key, ikey.seqno) ==> ikey.kind == Put)
    {
      hide Ready, Fates, Deciding, FlagOk;
      ghost var p := pos;
      var lastSnapshot, prevSnapshot;
      ghost var before;
      lastSnapshot, prevSnapshot, before := StartRecord();
      if clearAndOutputNextKey {
        ClearedFates(c, input, before, pos, currentUserKeySnapshot);
        ClearedDeliveryKeepsReady(c, input, beyond, before, pos, currentUserKeySnapshot);
        assert ikey.kind == Put;
        assert currentUserKeySnapshot == lastSnapshot;
        ikey := ikey.(value := []);
        valid := true;
        clearAndOutputNextKey := false;
      } else if ikey.kind == SingleDeletion {
        TakeSingleDeletion(prevSnapshot, before);
      } else {
        TakePlainRecord(lastSnapshot, before);
      }
      DecidingKeepsFlag(c, input, before, Now(), p);
    }

    /** One round of the loop in NextFromInput. */
    method ProcessRecord()
      requires Valid() && !valid && !atNext && pos < |input| && FlagIs(|origin|)
      modifies this
      ensures Valid() && Rest() > old(pos) && (!valid ==> !atNext) && FlagIs(|old(origin)|)
      ensures delivered == if valid then old(delivered) + [Prepared(c, ikey)] else old(delivered)
      ensures valid ==> currentUserKey == ikey.key && (MayZero(c, ikey.key, ikey.seqno) ==> ikey.kind == Put)
    {
      hide Ready, Fates, FlagOk;
      ghost var p := pos;
      DecideRecord();
      if valid {
        FlagStays(input, Now(), AfterPresenting(p), |origin|);
        delivered, origin := delivered + [Prepared(c, ikey)], origin + [p];
      }
    }

    method NextFromInput()
      requires Ready(c, input, beyond, Now(), pos) && Fates(c, input, Now(), pos) && FlagIs(|origin|)
      modifies this
      ensures Valid() && FlagIs(|old(origin)|)
      ensures |origin| == |delivered|
      ensures delivered == if valid then old(delivered) + [Prepared(c, ikey)] else old(delivered)
      ensures if valid then old(pos) < Rest() else Rest() == |input|
      ensures valid ==> currentUserKey == ikey.key && (MayZero(c, ikey.key, ikey.seqno) ==> ikey.kind == Put)
    {
      hide Ready, Fates, FlagOk;
      FatesLength(c, input, Now(), pos);
      atNext := false;
      valid := false;
      while !valid && pos < |input|
        invariant Valid() && old(pos) <= Rest() && (!valid ==> !atNext) && FlagIs(|old(origin)|)
        invariant |origin| == |delivered| && Rest() <= |input|
        invariant delivered == if valid then old(delivered) + [Prepared(c, ikey)] else old(delivered)
        invariant valid ==> currentUserKey == ikey.key && (MayZero(c, ikey.key, ikey.seqno) ==> ikey.kind == Put)
        invariant valid ==> old(pos) < Rest()
        decreases |input| - Rest()
      {
        ProcessRecord();
        FatesLength(c, input, Now(), Rest());
      }
    }

    /** Squashes the sequence number of the record about to be presented where that is safe. */
    method PrepareOutput()
      requires Valid()
      requires valid ==> delivered != [] && delivered[|delivered| - 1] == Prepared(c, ikey)
      requires valid ==> MayZero(c, ikey.key, ikey.seqno) ==> ikey.kind == Put
      modifies this`ikey
      ensures Valid() && (valid ==> ikey == delivered[|delivered| - 1])
    {
      if valid && MayZero(c, ikey.key, ikey.seqno) {
        assert ikey.kind != Deletion && ikey.kind != SingleDeletion;
        ikey := ikey.(seqno := 0);
      }
    }

    method SeekToFirst()
      requires Valid() && !valid && pos == 0 && delivered == [] && FlagIs(0)
      modifies this
      ensures Valid() && FlagIs(|origin|)
      ensures delivered == if valid then old(delivered) + [ikey] else old(delivered)
      ensures if valid then old(Rest()) < Rest() else Rest() == |input|
    {
      hide Ready, Fates;
      FatesLength(c, input, Now(), Rest());
      NextFromInput();
      FlagOfFirst(c, input, Now(), Rest());
      PrepareOutput();
    }

    method Next()
      requires Valid() && valid && delivered != [] && FlagIs(|origin|)
      modifies this
      ensures Valid() && FlagIs(|origin|)
      ensures delivered == if valid then old(delivered) + [ikey] else old(delivered)
      ensures if valid then old(Rest()) < Rest() else Rest() == |input|
    {
      hide Ready, Fates, FlagOk;
      FatesLength(c, input, Now(), Rest());
      if !atNext {
        pos := pos + 1;
      }
      NextFromInput();
      if valid {
        FlagRises(c, input, Now(), Rest());
        OutputtedKeepsReady(c, input, beyond, Now(), Rest());
        hasOutputtedKey := true;
      }
      PrepareOutput();
    }
  }

  /** The compaction loop: everything the iterator presents, in order.

      Every live snapshot and the tip read the same from the output and the older data as from the
      input and the older data; up to squashing they even stop at the same record.  Nothing is
      made up: each output record is an input record, and the order of the stream is kept.  And
      from every live snapshot not older than `writeConflict` the same keys look written to.

      Which records are kept, and as what, is decided by their neighbours in the input: `Exactly`. */
  method Compact(c: Config, input: seq<Record>, ghost beyond: seq<Record>)
    returns (out: seq<Record>, ghost origin: seq<nat>)
    requires ValidConfig(c) && ValidData(c, input, beyond)
    ensures forall k, s :: IsView(c, s) ==> Get(out + beyond, k, s) == Get(input + beyond, k, s)
    ensures SameViews(c, out + beyond, input + beyond)
    ensures StrictlySorted(out)
    ensures Traced(c, input, out, origin, |input|)
    ensures Exactly(c, input, out, origin, |input|)
    ensures forall k, w :: w in c.snapshots && c.writeConflict <= w ==> (HasNewer(input, k, w) <==> HasNewer(out, k, w))
  {
    var iter := new CompactionIterator(c, input, beyond);
    out := [];
    iter.SeekToFirst();
    while iter.valid
      invariant iter.Valid() && fresh(iter) && iter.c == c && iter.input == input && iter.beyond == beyond
      invariant iter.delivered == if iter.valid then out + [iter.ikey] else out
      invariant !iter.valid ==> iter.Rest() == |input|
      invariant iter.FlagIs(|iter.origin|)
      decreases iter.valid, |input| - iter.Rest()
    {
      out := out + [iter.ikey];
      iter.Next();
    }
    origin := iter.origin;
    Finished(c, input, beyond, out, iter.Now().t);
    SameViewsMeansSameReads(c, out + beyond, input + beyond);
    forall k, w | w in c.snapshots && c.writeConflict <= w
      ensures HasNewer(input, k, w) <==> HasNewer(out, k, w)
    {
      ConflictsAtEnd(c, input, iter.Now(), k, w);
    }
  }
}
