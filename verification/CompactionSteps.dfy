/** Each thing the compaction iterator can do with the record in front of it keeps `Progress`. */
module CompactionSteps {
  import opened Options
  import opened Records
  import opened LevelCursors
  import opened SnapshotViews

  /** Compaction input and the data beyond the output level, with the position reached. */
  ghost predicate At(c: Config, input: seq<Record>, beyond: seq<Record>, pos: nat) {
    ValidConfig(c) && ValidData(c, input, beyond) && pos <= |input|
  }

  ghost predicate InProgress(c: Config, input: seq<Record>, beyond: seq<Record>, out: seq<Record>, t: Track, pos: nat) {
    && At(c, input, beyond, pos)
    && Progress(c, out, t, (input + beyond)[pos..], beyond, input + beyond)
  }

  /** As `PrepareOutput` presents a record. */
  function Prepared(c: Config, r: Record): Record {
    if MayZero(c, r.key, r.seqno) then r.(seqno := 0) else r
  }

  lemma PreparedLooksTheSame(c: Config, r: Record, s: Sequence)
    requires ValidConfig(c) && IsView(c, s)
    ensures Prepared(c, r).seqno <= s <==> r.seqno <= s
    ensures Shown(c, Prepared(c, r)) == Shown(c, r) || r.kind == Deletion
    ensures Prepared(c, r).key == r.key && Prepared(c, r).kind == r.kind && Prepared(c, r).value == r.value
    ensures Prepared(c, r).seqno <= r.seqno
  {
    EarliestIsLeast(c);
  }

  lemma Unfold(input: seq<Record>, beyond: seq<Record>, pos: nat)
    requires pos < |input|
    ensures (input + beyond)[pos..] == [input[pos]] + (input + beyond)[pos + 1..]
    ensures (input + beyond)[pos..][1..] == (input + beyond)[pos + 1..]
    ensures forall r :: r in (input + beyond)[pos + 1..] ==> r in (input + beyond)[pos..]
  {
  }

  /** At the end of a key nothing needs to be hidden any more. */
  lemma ForgetKey(c: Config, input: seq<Record>, beyond: seq<Record>, out: seq<Record>, t: Track, pos: nat)
    requires InProgress(c, input, beyond, out, t, pos) && t.active
    requires forall i :: pos <= i < |input| ==> input[i].key != t.key
    ensures InProgress(c, input, beyond, out, t.(active := false), pos)
  {
    var rest, all, t' := (input + beyond)[pos..], input + beyond, t.(active := false);
    assert rest == input[pos..] + beyond;
    forall k, s | IsView(c, s)
      ensures Now(c, out, t', rest, k, s) == Observe(c, all, k, s)
    {
      assert Now(c, out, t, rest, k, s) == Observe(c, all, k, s);
      if Hides(t, k, s) && Find(out, k, s).None? {
        if Covered(out, t) {
          FindSome(out, k, s);
        } else {
          HarmlessReadsAbsent(c, t, rest, beyond, s);
        }
      }
    }
  }

  /** A stripe that no delivered record covers cannot be followed by a record of an older stripe
      that is not a SingleDelete. */
  lemma CoveredBeforeOlderStripe(c: Config, input: seq<Record>, beyond: seq<Record>, out: seq<Record>, t: Track,
      pos: nat, v: Sequence, k: UserKey, s: Sequence)
    requires InProgress(c, input, beyond, out, t, pos) && pos < |input|
    requires t.active ==> t.key == input[pos].key && t.stripe != v
    requires IsStripe(c, input[pos].seqno, v) && input[pos].kind != SingleDeletion
    requires IsView(c, s) && Hides(t, k, s)
    ensures Find(out, k, s).Some?
  {
    Unfold(input, beyond, pos);
    EarliestIsLeast(c);
    assert input[pos] in input + beyond;
    assert Newest((input + beyond)[pos..], k) == Some(input[pos]);
    FindSome(out, k, s);
  }

  lemma DropHidden(c: Config, input: seq<Record>, beyond: seq<Record>, out: seq<Record>, t: Track, pos: nat)
    requires InProgress(c, input, beyond, out, t, pos) && pos < |input|
    requires t.active && t.key == input[pos].key && IsStripe(c, input[pos].seqno, t.stripe)
    requires input[pos].kind != SingleDeletion
    ensures InProgress(c, input, beyond, out, t, pos + 1)
  {
    var rest, tail, all := (input + beyond)[pos..], (input + beyond)[pos + 1..], input + beyond;
    Unfold(input, beyond, pos);
    forall k, s | IsView(c, s)
      ensures Now(c, out, t, tail, k, s) == Observe(c, all, k, s)
    {
      assert Now(c, out, t, rest, k, s) == Observe(c, all, k, s);
    }
    assert input[pos] in all;
    assert Newest(rest, t.key) == Some(input[pos]);
  }

  lemma DropDeletion(c: Config, input: seq<Record>, beyond: seq<Record>, out: seq<Record>, t: Track, pos: nat,
      v: Sequence)
    requires InProgress(c, input, beyond, out, t, pos) && pos < |input|
    requires t.active ==> t.key == input[pos].key && t.stripe != v
    requires IsStripe(c, input[pos].seqno, v)
    requires input[pos].kind == Deletion && MayDropDeletion(c, input[pos].key, input[pos].seqno)
    ensures InProgress(c, input, beyond, out, Track(true, input[pos].key, v), pos + 1)
  {
    var e := input[pos];
    var rest, tail, all, t' := (input + beyond)[pos..], (input + beyond)[pos + 1..], input + beyond,
      Track(true, e.key, v);
    Unfold(input, beyond, pos);
    EarliestIsLeast(c);
    forall k, s | IsView(c, s)
      ensures Now(c, out, t', tail, k, s) == Observe(c, all, k, s)
    {
      assert Now(c, out, t, rest, k, s) == Observe(c, all, k, s);
      if Hides(t, k, s) {
        CoveredBeforeOlderStripe(c, input, beyond, out, t, pos, v, k, s);
      }
    }
    assert e in input;
    FindNone(beyond, e.key, MAX_SEQUENCE);
    OlderVersions(c, input, beyond, pos, v);
  }

  /** Versions of the current key further on are older, so its stripe sees them. */
  lemma OlderVersions(c: Config, input: seq<Record>, beyond: seq<Record>, pos: nat, v: Sequence)
    requires At(c, input, beyond, pos) && pos < |input| && input[pos].seqno <= v
    ensures forall r :: r in (input + beyond)[pos + 1..] && r.key == input[pos].key ==> r.seqno < input[pos].seqno <= v
  {
    var all := input + beyond;
    forall r | r in all[pos + 1..] && r.key == input[pos].key
      ensures r.seqno < input[pos].seqno
    {
      var j :| pos + 1 <= j < |all| && all[j] == r;
      assert NewerAt(all, pos, j);
    }
  }

  /** A SingleDelete leaves every view that sees it, or that was hidden already, with nothing; so
      does its stripe once it is gone. */
  lemma AfterSingleDeletion(c: Config, input: seq<Record>, beyond: seq<Record>, out: seq<Record>, t: Track, pos: nat,
      v: Sequence, k: UserKey, s: Sequence)
    requires InProgress(c, input, beyond, out, t, pos) && pos < |input|
    requires t.active ==> t.key == input[pos].key
    requires IsStripe(c, input[pos].seqno, v) && input[pos].kind == SingleDeletion
    requires IsView(c, s) && Find(out, k, s).None?
    ensures Observe(c, input + beyond, k, s) ==
            if k == input[pos].key && v <= s then Absent else Observe(c, (input + beyond)[pos + 1..], k, s)
    ensures v <= s <==> input[pos].seqno <= s
  {
    var rest := (input + beyond)[pos..];
    Unfold(input, beyond, pos);
    assert Now(c, out, t, rest, k, s) == Observe(c, input + beyond, k, s);
    assert rest[0] in rest;
    assert Hides(t, k, s) ==> input[pos].seqno <= t.stripe;
  }

  lemma SkipSingleDeletion(c: Config, input: seq<Record>, beyond: seq<Record>, out: seq<Record>, t: Track, pos: nat,
      v: Sequence)
    requires InProgress(c, input, beyond, out, t, pos) && pos + 1 < |input|
    requires t.active ==> t.key == input[pos].key
    requires IsStripe(c, input[pos].seqno, v) && input[pos].kind == SingleDeletion
    requires input[pos + 1].key == input[pos].key && input[pos + 1].kind == SingleDeletion
    ensures InProgress(c, input, beyond, out, Track(true, input[pos].key, v), pos + 1)
  {
    var tail, all, t' := (input + beyond)[pos + 1..], input + beyond, Track(true, input[pos].key, v);
    forall k, s | IsView(c, s)
      ensures Now(c, out, t', tail, k, s) == Observe(c, all, k, s)
    {
      assert Now(c, out, t, all[pos..], k, s) == Observe(c, all, k, s);
      if Find(out, k, s).None? {
        AfterSingleDeletion(c, input, beyond, out, t, pos, v, k, s);
      }
    }
    OlderVersions(c, input, beyond, pos, v);
    assert input[pos + 1] in all;
    assert tail[0] == input[pos + 1];
    assert Newest(tail, t'.key) == Some(input[pos + 1]);
  }

  lemma DropPair(c: Config, input: seq<Record>, beyond: seq<Record>, out: seq<Record>, t: Track, pos: nat, v: Sequence)
    requires InProgress(c, input, beyond, out, t, pos) && pos + 1 < |input|
    requires t.active ==> t.key == input[pos].key
    requires IsStripe(c, input[pos].seqno, v) && input[pos].kind == SingleDeletion
    requires input[pos + 1].key == input[pos].key && input[pos + 1].kind != SingleDeletion
    requires IsStripe(c, input[pos + 1].seqno, v)
    ensures InProgress(c, input, beyond, out, Track(true, input[pos].key, v), pos + 2)
  {
    var tail, all, t' := (input + beyond)[pos + 2..], input + beyond, Track(true, input[pos].key, v);
    Unfold(input, beyond, pos + 1);
    forall k, s | IsView(c, s)
      ensures Now(c, out, t', tail, k, s) == Observe(c, all, k, s)
    {
      assert Now(c, out, t, all[pos..], k, s) == Observe(c, all, k, s);
      if Find(out, k, s).None? {
        AfterSingleDeletion(c, input, beyond, out, t, pos, v, k, s);
      }
    }
    OlderVersions(c, input, beyond, pos, v);
    assert Follows(all, pos, pos + 1);
    if Newest(tail, t'.key).Some? {
      var j := NewestFollows(all, pos + 1, pos + 2);
    }
  }

  /** The last version of a key, a SingleDelete with nothing below it anywhere. */
  lemma DropLastSingleDeletion(c: Config, input: seq<Record>, beyond: seq<Record>, out: seq<Record>, t: Track,
      pos: nat, v: Sequence)
    requires InProgress(c, input, beyond, out, t, pos) && pos < |input|
    requires t.active ==> t.key == input[pos].key
    requires IsStripe(c, input[pos].seqno, v) && input[pos].kind == SingleDeletion
    requires pos + 1 < |input| ==> input[pos + 1].key != input[pos].key
    requires c.hasCompaction && NotBeyond(c.layout, input[pos].key)
    ensures InProgress(c, input, beyond, out, Track(false, input[pos].key, v), pos + 1)
  {
    var tail, all, t' := (input + beyond)[pos + 1..], input + beyond, Track(false, input[pos].key, v);
    LastVersion(input, pos);
    assert tail == input[pos + 1..] + beyond;
    assert input[pos] in input;
    forall k, s | IsView(c, s)
      ensures Now(c, out, t', tail, k, s) == Observe(c, all, k, s)
    {
      assert Now(c, out, t, all[pos..], k, s) == Observe(c, all, k, s);
      if Find(out, k, s).None? {
        AfterSingleDeletion(c, input, beyond, out, t, pos, v, k, s);
        if k == input[pos].key {
          FindNone(tail, k, s);
        }
      }
    }
  }

  lemma LastVersion(input: seq<Record>, pos: nat)
    requires StrictlySorted(input) && pos < |input|
    requires pos + 1 < |input| ==> input[pos + 1].key != input[pos].key
    ensures forall i :: pos < i < |input| ==> input[i].key > input[pos].key
  {
    forall i | pos < i < |input|
      ensures input[i].key > input[pos].key
    {
      assert Before(input[pos], input[pos + 1]);
      assert i > pos + 1 ==> Before(input[pos + 1], input[i]);
    }
  }

  /** Delivering a record from a stripe not hidden yet, or a SingleDelete. */
  lemma Deliver(c: Config, input: seq<Record>, beyond: seq<Record>, out: seq<Record>, t: Track, pos: nat, v: Sequence)
    requires InProgress(c, input, beyond, out, t, pos) && pos < |input|
    requires t.active ==> t.key == input[pos].key
    requires IsStripe(c, input[pos].seqno, v)
    requires input[pos].kind == SingleDeletion || !t.active || t.stripe != v
    requires MayZero(c, input[pos].key, input[pos].seqno) ==> input[pos].kind == Put
    ensures InProgress(c, input, beyond, out + [Prepared(c, input[pos])], Track(true, input[pos].key, v), pos + 1)
  {
    var e, o := input[pos], Prepared(c, input[pos]);
    var rest, tail, all, t' := (input + beyond)[pos..], (input + beyond)[pos + 1..], input + beyond,
      Track(true, e.key, v);
    Unfold(input, beyond, pos);
    forall k, s | IsView(c, s)
      ensures Now(c, out + [o], t', tail, k, s) == Observe(c, all, k, s)
    {
      assert Now(c, out, t, rest, k, s) == Observe(c, all, k, s);
      FindAppend(out, [o], k, s);
      PreparedLooksTheSame(c, e, s);
      if e.kind == SingleDeletion {
        if Find(out, k, s).None? {
          AfterSingleDeletion(c, input, beyond, out, t, pos, v, k, s);
        }
      } else if Hides(t, k, s) {
        CoveredBeforeOlderStripe(c, input, beyond, out, t, pos, v, k, s);
      }
    }
    PreparedLooksTheSame(c, e, v);
    assert o in out + [o];
    OlderVersions(c, input, beyond, pos, v);
  }

  /** Delivering the Put below a SingleDelete that was delivered, without its value. */
  lemma DeliverCleared(c: Config, input: seq<Record>, beyond: seq<Record>, out: seq<Record>, t: Track, pos: nat)
    requires InProgress(c, input, beyond, out, t, pos) && pos < |input|
    requires t.active && t.key == input[pos].key && IsStripe(c, input[pos].seqno, t.stripe)
    requires Covered(out, t)
    ensures InProgress(c, input, beyond, out + [Prepared(c, input[pos].(value := []))], t, pos + 1)
  {
    var e := input[pos].(value := []);
    var rest, tail, all, o := (input + beyond)[pos..], (input + beyond)[pos + 1..], input + beyond, Prepared(c, e);
    Unfold(input, beyond, pos);
    forall k, s | IsView(c, s)
      ensures Now(c, out + [o], t, tail, k, s) == Observe(c, all, k, s)
    {
      assert Now(c, out, t, rest, k, s) == Observe(c, all, k, s);
      FindAppend(out, [o], k, s);
      PreparedLooksTheSame(c, e, s);
      if Hides(t, k, s) {
        FindSome(out, k, s);
      }
    }
    var r :| r in out && r.key == t.key && r.seqno <= t.stripe;
    assert r in out + [o];
  }

  /** When the input is used up, the delivered records stand for it. */
  lemma Finished(c: Config, input: seq<Record>, beyond: seq<Record>, out: seq<Record>, t: Track)
    requires InProgress(c, input, beyond, out, t, |input|)
    ensures SameViews(c, out + beyond, input + beyond)
  {
    var t' := t.(active := false);
    if t.active {
      ForgetKey(c, input, beyond, out, t, |input|);
    }
    assert (input + beyond)[|input|..] == beyond;
    forall k, s | IsView(c, s)
      ensures Observe(c, out + beyond, k, s) == Observe(c, input + beyond, k, s)
    {
      assert Now(c, out, t', beyond, k, s) == Observe(c, input + beyond, k, s);
      FindAppend(out, beyond, k, s);
    }
  }
}
