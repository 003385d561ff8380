/** Snapshots, the stripes they cut the sequence numbers into, and the invariant that ties a
    half-finished compaction to what every snapshot reads.

    While records are being dropped, what has been delivered and what is still to be read do not
    add up to the original stream: a dropped deletion or a dropped SingleDelete/Put pair must
    still hide older records of the same stripe.  The iterator remembers this as the pair
    (current user key, current stripe); `Progress` below gives that pair its meaning. */
module SnapshotViews {
  import opened Options
  import opened Records
  import opened LevelCursors

  datatype Config = Config(
    snapshots: seq<Sequence>,        // live snapshots, oldest first
    writeConflict: Sequence,         // earliest_write_conflict_snapshot_
    hasCompaction: bool,             // false: a flush, compaction_ == nullptr
    layout: Layout,
    allowIngestBehind: bool,
    preserveDeletes: bool,
    preserveSeqno: Sequence,         // preserve_deletes_seqnum_
    largestKey: UserKey)

  function Earliest(c: Config): Sequence {
    if c.snapshots == [] then MAX_SEQUENCE else c.snapshots[0]
  }

  ghost predicate ValidConfig(c: Config) {
    && (forall i, j :: 0 <= i < j < |c.snapshots| ==> c.snapshots[i] <= c.snapshots[j])
    && (forall s :: s in c.snapshots ==> s < MAX_SEQUENCE)
    && Earliest(c) <= c.writeConflict
    && ValidLayout(c.layout)
  }

  /** A position somebody may read from: a live snapshot or the tip. */
  ghost predicate IsView(c: Config, s: Sequence) {
    s in c.snapshots || s == MAX_SEQUENCE
  }

  /** `v` is the earliest view that sees sequence number `q`. */
  ghost predicate IsStripe(c: Config, q: Sequence, v: Sequence) {
    && IsView(c, v) && q <= v
    && forall s :: IsView(c, s) && q <= s ==> v <= s
  }

  predicate NotNeededForIncrementalSnapshot(c: Config, q: Sequence) {
    !c.preserveDeletes || q < c.preserveSeqno
  }

  /** When PrepareOutput squashes a sequence number to zero. */
  predicate MayZero(c: Config, k: UserKey, q: Sequence) {
    && c.hasCompaction && !c.allowIngestBehind && NotNeededForIncrementalSnapshot(c, q)
    && c.layout.bottommost && q <= Earliest(c) && c.largestKey != k
  }

  /** When a deletion marker is obsolete. */
  ghost predicate MayDropDeletion(c: Config, k: UserKey, q: Sequence) {
    && c.hasCompaction && q <= Earliest(c) && NotNeededForIncrementalSnapshot(c, q)
    && NotBeyond(c.layout, k)
  }

  /** In terms of readers: a sequence number is squashed, and a marker dropped, only where every view sees
      the record, nobody asked for its number to be kept, and nothing older can come from below. */
  lemma WhenSquashed(c: Config, k: UserKey, q: Sequence)
    requires ValidConfig(c)
    ensures MayZero(c, k, q) <==>
            && (forall s :: IsView(c, s) ==> q <= s) && (c.preserveDeletes ==> q < c.preserveSeqno)
            && c.hasCompaction && c.layout.bottommost && !c.allowIngestBehind && k != c.largestKey
    ensures MayDropDeletion(c, k, q) <==>
            && (forall s :: IsView(c, s) ==> q <= s) && (c.preserveDeletes ==> q < c.preserveSeqno)
            && c.hasCompaction && NotBeyond(c.layout, k)
  {
    if q <= Earliest(c) {
      forall s | IsView(c, s)
        ensures q <= s
      {
        if s in c.snapshots {
          var i :| 0 <= i < |c.snapshots| && c.snapshots[i] == s;
          assert c.snapshots[0] <= c.snapshots[i];
        }
      }
    } else {
      assert IsView(c, Earliest(c));
    }
  }

  /** What compaction may not change about a record that a view stops at: a value, its sequence
      number unless that may be squashed, and the marker of a deletion that is not obsolete. */
  datatype Observation = Absent | Present(value: Value, seqno: Sequence) | Tombstone(seqno: Sequence)

  ghost function Shown(c: Config, r: Record): Observation {
    match r.kind
    case Put => Present(r.value, if MayZero(c, r.key, r.seqno) then 0 else r.seqno)
    case Deletion => if MayDropDeletion(c, r.key, r.seqno) then Absent else Tombstone(r.seqno)
    case SingleDeletion => Absent
  }

  ghost function Observe(c: Config, rs: seq<Record>, k: UserKey, s: Sequence): Observation {
    match Find(rs, k, s)
    case None => Absent
    case Some(r) => Shown(c, r)
  }

  /** What a plain point read returns. */
  function Get(rs: seq<Record>, k: UserKey, s: Sequence): Option<Value> {
    match Find(rs, k, s)
    case Some(r) => if r.kind == Put then Some(r.value) else None
    case None => None
  }

  ghost predicate SameViews(c: Config, a: seq<Record>, b: seq<Record>) {
    forall k, s :: IsView(c, s) ==> Observe(c, a, k, s) == Observe(c, b, k, s)
  }

  lemma SameViewsMeansSameReads(c: Config, a: seq<Record>, b: seq<Record>)
    requires SameViews(c, a, b)
    ensures forall k, s :: IsView(c, s) ==> Get(a, k, s) == Get(b, k, s)
  {
    forall k, s | IsView(c, s)
      ensures Get(a, k, s) == Get(b, k, s)
    {
      assert Observe(c, a, k, s) == Observe(c, b, k, s);
    }
  }

  // ----- The versions of one key, over the whole database

  /** `rs` lists the versions of each key newest first. */
  ghost predicate NewestFirst(rs: seq<Record>) {
    forall i, j {:trigger NewerAt(rs, i, j)} :: 0 <= i < j < |rs| ==> NewerAt(rs, i, j)
  }

  ghost predicate NewerAt(rs: seq<Record>, i: int, j: int)
    requires 0 <= i < |rs| && 0 <= j < |rs|
  {
    rs[i].key == rs[j].key ==> rs[i].seqno > rs[j].seqno
  }

  /** The next older version of `k`. */
  ghost function Newest(rs: seq<Record>, k: UserKey): Option<Record> {
    Find(rs, k, MAX_SEQUENCE)
  }

  /** `rs[j]` is the next older version of the key of `rs[i]`. */
  ghost predicate Follows(rs: seq<Record>, i: nat, j: nat) {
    && i < j < |rs| && rs[i].key == rs[j].key
    && forall m :: i < m < j ==> rs[m].key != rs[i].key
  }

  /** The supported use of SingleDelete: below it comes nothing, another SingleDelete, or the one
      Put it cancels, and below that Put nothing or another SingleDelete. */
  ghost predicate Disciplined(rs: seq<Record>) {
    forall i: nat, j: nat :: Follows(rs, i, j) && rs[i].kind == SingleDeletion ==>
      rs[j].kind == SingleDeletion || (rs[j].kind == Put && OnlySingleDeletionBelow(rs, j))
  }

  ghost predicate OnlySingleDeletionBelow(rs: seq<Record>, i: nat) {
    forall j: nat :: Follows(rs, i, j) ==> rs[j].kind == SingleDeletion
  }

  /** What the compaction reads, and the older data beyond its output level. */
  ghost predicate ValidData(c: Config, input: seq<Record>, beyond: seq<Record>) {
    && StrictlySorted(input)
    && NewestFirst(input + beyond)
    && (forall r :: r in input + beyond ==> r.seqno <= MAX_SEQUENCE)
    && Disciplined(input + beyond)
    // the file ranges of the levels beyond the output level cover the keys stored there
    && (c.hasCompaction ==> forall r, b :: r in input && b in beyond && NotBeyond(c.layout, r.key) ==> b.key != r.key)
    // zero is not the number of both a snapshot and a record
    && (0 in c.snapshots ==> forall r :: r in input ==> r.seqno > 0)
  }

  lemma StripeIsPositive(c: Config, input: seq<Record>, beyond: seq<Record>, r: Record, v: Sequence)
    requires ValidData(c, input, beyond) && r in input && IsStripe(c, r.seqno, v)
    ensures v > 0
  {
  }

  lemma EarliestIsLeast(c: Config)
    requires ValidConfig(c)
    ensures IsView(c, Earliest(c))
    ensures forall s :: IsView(c, s) ==> Earliest(c) <= s
  {
  }

  /** The record after position `i` that `Newest` finds is the one that follows. */
  lemma NewestFollows(rs: seq<Record>, i: nat, m: nat) returns (j: nat)
    requires i < m <= |rs| && Newest(rs[m..], rs[i].key).Some?
    requires forall n :: i < n < m ==> rs[n].key != rs[i].key
    requires forall r :: r in rs ==> r.seqno <= MAX_SEQUENCE
    ensures Follows(rs, i, j) && rs[j] == Newest(rs[m..], rs[i].key).value
    decreases |rs| - m
  {
    if rs[m].key == rs[i].key {
      j := m;
    } else {
      assert rs[m..][1..] == rs[m + 1..];
      j := NewestFollows(rs, i, m + 1);
    }
  }

  // ----- Progress of a compaction

  /** The key and the stripe of the last record taken from the input, if its key is still current. */
  datatype Track = Track(active: bool, key: UserKey, stripe: Sequence)

  ghost predicate Hides(t: Track, k: UserKey, s: Sequence) {
    t.active && t.key == k && t.stripe <= s
  }

  /** What view `s` would find for `k` if the compaction stopped here: delivered records first,
      then whatever the current key and stripe still hide, then the rest. */
  ghost function Now(c: Config, out: seq<Record>, t: Track, rest: seq<Record>, k: UserKey, s: Sequence): Observation {
    if Find(out, k, s).Some? then Shown(c, Find(out, k, s).value)
    else if Hides(t, k, s) then Absent
    else Observe(c, rest, k, s)
  }

  /** Some delivered record of the current key is seen by every view the stripe hides. */
  ghost predicate Covered(out: seq<Record>, t: Track) {
    exists r :: r in out && r.key == t.key && r.seqno <= t.stripe
  }

  /** Nothing older can be mistaken for a live value by a view that the stripe hides. */
  ghost predicate Harmless(c: Config, t: Track, rest: seq<Record>, beyond: seq<Record>) {
    match Newest(rest, t.key)
    case None => true
    case Some(r) => r.kind == SingleDeletion || (t.stripe == Earliest(c) && Newest(beyond, t.key).None?)
  }

  ghost predicate Progress(c: Config, out: seq<Record>, t: Track, rest: seq<Record>, beyond: seq<Record>,
      all: seq<Record>)
  {
    && (forall k, s {:trigger Now(c, out, t, rest, k, s)} :: IsView(c, s) ==>
          Now(c, out, t, rest, k, s) == Observe(c, all, k, s))
    && (t.active ==>
          && IsView(c, t.stripe)
          && (forall r :: r in rest && r.key == t.key ==> r.seqno <= t.stripe)
          && (Covered(out, t) || Harmless(c, t, rest, beyond)))
  }

  /** At a view that the stripe hides, a not yet covered key reads as absent from the rest. */
  lemma HarmlessReadsAbsent(c: Config, t: Track, rest: seq<Record>, beyond: seq<Record>, s: Sequence)
    requires ValidConfig(c) && t.active && t.stripe <= s && Harmless(c, t, rest, beyond)
    requires forall r :: r in rest && r.key == t.key ==> r.seqno <= t.stripe
    requires forall r :: r in rest && r.key == t.key ==> r in beyond
    requires t.stripe <= MAX_SEQUENCE
    ensures Observe(c, rest, t.key, s) == Absent
  {
    var k := t.key;
    FindSameFromMax(rest, k, s, t.stripe);
    match Newest(rest, k)
    case None =>
    case Some(r) =>
      FindIsMember(rest, k, MAX_SEQUENCE);
      if r.kind != SingleDeletion {
        FindSome(beyond, k, MAX_SEQUENCE);
      }
  }

  /** Above every version, the position read from makes no difference. */
  lemma {:induction false} FindSameFromMax(rs: seq<Record>, k: UserKey, s: Sequence, bound: Sequence)
    requires forall r :: r in rs && r.key == k ==> r.seqno <= bound
    requires bound <= s && bound <= MAX_SEQUENCE
    ensures Find(rs, k, s) == Newest(rs, k)
  {
    if rs != [] {
      assert rs[0] in rs;
      FindSameFromMax(rs[1..], k, s, bound);
    }
  }
}
