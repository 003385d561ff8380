/** What the subcompactions of a split compaction write together. */
module SubcompactionRuns {
  import opened Options
  import opened Records
  import opened SnapshotViews
  import opened CompactionBooks
  import opened CompactionFates
  import opened CompactionIterators
  import opened Subcompactions

  /** The input from where a subcompaction starts to read is input as good as the whole. */
  lemma SuffixIsValid(c: Config, input: seq<Record>, beyond: seq<Record>, n: nat)
    requires ValidData(c, input, beyond) && n <= |input|
    ensures ValidData(c, input[n..], beyond)
  {
    var all, rest := input + beyond, input[n..] + beyond;
    assert forall i :: 0 <= i < |rest| ==> rest[i] == all[n + i];
    forall i, j | 0 <= i < j < |rest|
      ensures NewerAt(rest, i, j)
    {
      assert NewerAt(all, n + i, n + j);
    }
    forall i, j | 0 <= i < j < |input[n..]|
      ensures Before(input[n..][i], input[n..][j])
    {
      assert Before(input[n + i], input[n + j]);
    }
    SuffixIsDisciplined(all, rest, n);
  }

  lemma SuffixIsDisciplined(all: seq<Record>, rest: seq<Record>, n: nat)
    requires Disciplined(all) && n <= |all| && rest == all[n..]
    ensures Disciplined(rest)
  {
    forall i: nat, j: nat | Follows(rest, i, j) && rest[i].kind == SingleDeletion
      ensures rest[j].kind == SingleDeletion || (rest[j].kind == Put && OnlySingleDeletionBelow(rest, j))
    {
      FollowsInWhole(all, rest, n, i, j);
      if rest[j].kind != SingleDeletion {
        assert OnlySingleDeletionBelow(all, n + j);
        forall m: nat | Follows(rest, j, m)
          ensures rest[m].kind == SingleDeletion
        {
          FollowsInWhole(all, rest, n, j, m);
        }
      }
    }
  }

  lemma FollowsInWhole(all: seq<Record>, rest: seq<Record>, n: nat, i: nat, j: nat)
    requires n <= |all| && rest == all[n..] && Follows(rest, i, j)
    ensures Follows(all, n + i, n + j)
  {
    forall m | n + i < m < n + j
      ensures all[m].key != all[n + i].key
    {
      assert rest[m - n].key != rest[i].key;
    }
  }

  lemma DataIsSorted(c: Config, input: seq<Record>, beyond: seq<Record>)
    requires ValidData(c, input, beyond)
    ensures StrictlySorted(input)
  {
  }

  predicate IsBefore(r: Record, start: Option<UserKey>) {
    start.Some? && r.key < start.value
  }

  /** Where a subcompaction finds its first record. */
  method Seek(input: seq<Record>, start: Option<UserKey>) returns (n: nat)
    requires StrictlySorted(input)
    ensures n <= |input|
    ensures forall i :: 0 <= i < n ==> IsBefore(input[i], start)
    ensures forall i :: n <= i < |input| ==> !IsBefore(input[i], start)
  {
    n := 0;
    if start.Some? {
      while n < |input| && input[n].key < start.value
        invariant n <= |input| && forall i :: 0 <= i < n ==> input[i].key < start.value
      {
        n := n + 1;
      }
      forall i | n <= i < |input|
        ensures start.value <= input[i].key
      {
        assert i > n ==> Before(input[n], input[i]);
      }
    }
  }

  predicate InRange(start: Option<UserKey>, end: Option<UserKey>, k: UserKey) {
    (start.Some? ==> start.value <= k) && (end.Some? ==> k < end.value)
  }

  /** What a subcompaction writes: from its first record on, what a compaction of the rest of the input
      keeps, up to its last record in the range. */
  ghost predicate WritesRange(c: Config, input: seq<Record>, start: Option<UserKey>, end: Option<UserKey>,
      out: seq<Record>, first: nat, whole: seq<Record>, origin: seq<nat>)
  {
    && first <= |input| && (forall i :: 0 <= i < first ==> IsBefore(input[i], start))
    && (forall i :: first <= i < |input| ==> !IsBefore(input[i], start))
    && Exactly(c, input[first..], whole, origin, |input| - first) && Ascending(origin)
    && out <= whole && (forall r :: r in out ==> end.Some? ==> r.key < end.value)
    && (forall r :: r in whole[|out|..] ==> end.Some? && r.key >= end.value)
  }

  ghost predicate IsPiece(c: Config, input: seq<Record>, start: Option<UserKey>, end: Option<UserKey>,
      out: seq<Record>)
  {
    exists first, whole, origin :: WritesRange(c, input, start, end, out, first, whole, origin)
  }

  /** One subcompaction: everything the iterator presents from `start` on, up to the first record
      at or past `end`. */
  method ProcessRange(c: Config, input: seq<Record>, ghost beyond: seq<Record>, start: Option<UserKey>,
      end: Option<UserKey>)
    returns (out: seq<Record>)
    requires ValidConfig(c) && ValidData(c, input, beyond)
    ensures StrictlySorted(out) && IsPiece(c, input, start, end, out)
    ensures forall r :: r in out ==> InRange(start, end, r.key)
    ensures forall k, s :: InRange(start, end, k) && IsView(c, s) ==>
              Observe(c, out + beyond, k, s) == Observe(c, input + beyond, k, s)
    ensures forall k, w :: InRange(start, end, k) && w in c.snapshots && c.writeConflict <= w ==>
              (HasNewer(input, k, w) <==> HasNewer(out, k, w))
  {
    DataIsSorted(c, input, beyond);
    hide Exactly, ValidData;
    var n := Seek(input, start);
    SuffixIsValid(c, input, beyond, n);
    var presented, origin := Compact(c, input[n..], beyond);
    out := [];
    var i := 0;
    while i < |presented| && !(end.Some? && presented[i].key >= end.value)
      invariant i <= |presented| && out == presented[..i]
      invariant forall j :: 0 <= j < i ==> end.Some? ==> presented[j].key < end.value
    {
      out := out + [presented[i]];
      i := i + 1;
    }
    PresentedFrom(c, input, n, start, presented, origin);
    PrefixIsSorted(presented, i);
    TracedAscends(c, input[n..], presented, origin, |input| - n);
    RangeIsWritten(c, input, start, end, n, presented, origin, i);
    forall k, s | InRange(start, end, k) && IsView(c, s)
      ensures Observe(c, out + beyond, k, s) == Observe(c, input + beyond, k, s)
    {
      assert Observe(c, presented + beyond, k, s) == Observe(c, input[n..] + beyond, k, s);
      CutAfter(presented, beyond, i, end, k, s);
      CutBefore(input, beyond, n, start, k, s);
    }
    forall k, w | InRange(start, end, k) && w in c.snapshots && c.writeConflict <= w
      ensures HasNewer(input, k, w) <==> HasNewer(out, k, w)
    {
      assert HasNewer(input[n..], k, w) <==> HasNewer(presented, k, w);
      SameNewer(input, n, start, presented, i, end, k, w);
    }
  }

  lemma RangeIsWritten(c: Config, input: seq<Record>, start: Option<UserKey>, end: Option<UserKey>, n: nat,
      presented: seq<Record>, origin: seq<nat>, i: nat)
    requires StrictlySorted(presented) && i <= |presented| && n <= |input|
    requires forall j :: 0 <= j < n ==> IsBefore(input[j], start)
    requires forall j :: n <= j < |input| ==> !IsBefore(input[j], start)
    requires forall j :: 0 <= j < i ==> end.Some? ==> presented[j].key < end.value
    requires i < |presented| ==> end.Some? && presented[i].key >= end.value
    requires Exactly(c, input[n..], presented, origin, |input| - n) && Ascending(origin)
    ensures IsPiece(c, input, start, end, presented[..i])
  {
    RestIsBehind(presented, i, end);
    var out := presented[..i];
    assert out <= presented && presented[|out|..] == presented[i..];
    assert forall r :: r in out ==> end.Some? ==> r.key < end.value;
    assert WritesRange(c, input, start, end, out, n, presented, origin);
  }

  lemma RestIsBehind(presented: seq<Record>, i: nat, end: Option<UserKey>)
    requires StrictlySorted(presented) && i <= |presented|
    requires i < |presented| ==> end.Some? && presented[i].key >= end.value
    ensures forall r :: r in presented[i..] ==> end.Some? && r.key >= end.value
  {
    forall r | r in presented[i..]
      ensures end.Some? && r.key >= end.value
    {
      var j :| i <= j < |presented| && presented[j] == r;
      assert j > i ==> Before(presented[i], presented[j]);
    }
  }

  lemma PrefixIsSorted(rs: seq<Record>, i: nat)
    requires StrictlySorted(rs) && i <= |rs|
    ensures StrictlySorted(rs[..i])
  {
    forall a, b | 0 <= a < b < i
      ensures Before(rs[..i][a], rs[..i][b])
    {
      assert Before(rs[a], rs[b]);
    }
  }

  lemma PresentedFrom(c: Config, input: seq<Record>, n: nat, start: Option<UserKey>, presented: seq<Record>,
      origin: seq<nat>)
    requires n <= |input| && Traced(c, input[n..], presented, origin, |input| - n)
    requires forall i :: n <= i < |input| ==> !IsBefore(input[i], start)
    ensures forall r :: r in presented ==> start.Some? ==> start.value <= r.key
  {
    forall j | 0 <= j < |presented|
      ensures start.Some? ==> start.value <= presented[j].key
    {
      assert ComesFrom(c, input[n..], presented[j], origin[j]);
    }
  }

  /** Records before the start have other keys. */
  lemma CutBefore(input: seq<Record>, beyond: seq<Record>, n: nat, start: Option<UserKey>, k: UserKey, s: Sequence)
    requires n <= |input| && (start.Some? ==> start.value <= k)
    requires forall i :: 0 <= i < n ==> IsBefore(input[i], start)
    ensures Find(input + beyond, k, s) == Find(input[n..] + beyond, k, s)
  {
    FindNone(input[..n], k, s);
    assert input + beyond == input[..n] + (input[n..] + beyond);
    FindAppend(input[..n], input[n..] + beyond, k, s);
  }

  /** So have the records from the end on. */
  lemma CutAfter(presented: seq<Record>, beyond: seq<Record>, i: nat, end: Option<UserKey>, k: UserKey, s: Sequence)
    requires StrictlySorted(presented) && i <= |presented| && (end.Some? ==> k < end.value)
    requires i < |presented| ==> end.Some? && presented[i].key >= end.value
    ensures Find(presented + beyond, k, s) == Find(presented[..i] + beyond, k, s)
  {
    forall r | r in presented[i..]
      ensures r.key != k
    {
      var j :| i <= j < |presented| && presented[j] == r;
      assert j > i ==> Before(presented[i], presented[j]);
    }
    FindNone(presented[i..], k, s);
    assert presented + beyond == presented[..i] + (presented[i..] + beyond);
    FindAppend(presented[..i], presented[i..] + beyond, k, s);
    FindAppend(presented[i..], beyond, k, s);
    FindAppend(presented[..i], beyond, k, s);
  }

  lemma SameNewer(input: seq<Record>, n: nat, start: Option<UserKey>, presented: seq<Record>, i: nat,
      end: Option<UserKey>, k: UserKey, w: Sequence)
    requires n <= |input| && i <= |presented| && InRange(start, end, k) && StrictlySorted(presented)
    requires forall j :: 0 <= j < n ==> IsBefore(input[j], start)
    requires i < |presented| ==> end.Some? && presented[i].key >= end.value
    ensures HasNewer(input, k, w) <==> HasNewer(input[n..], k, w)
    ensures HasNewer(presented, k, w) <==> HasNewer(presented[..i], k, w)
  {
    assert forall r :: r in input && r.key == k ==> r in input[n..];
    forall r | r in presented && r.key == k
      ensures r in presented[..i]
    {
      var j :| 0 <= j < |presented| && presented[j] == r;
      assert i < j ==> Before(presented[i], presented[j]);
      assert j < i && presented[..i][j] == r;
    }
  }

  // ----- All pieces together

  function StartOf(boundaries: seq<UserKey>, i: nat): Option<UserKey>
    requires i <= |boundaries|
  {
    if i == 0 then None else Some(boundaries[i - 1])
  }

  function EndOf(boundaries: seq<UserKey>, i: nat): Option<UserKey>
    requires i <= |boundaries|
  {
    if i == |boundaries| then None else Some(boundaries[i])
  }

  /** What is written for the keys before piece `i` is final. */
  ghost predicate DoneBefore(c: Config, input: seq<Record>, beyond: seq<Record>, out: seq<Record>,
      boundaries: seq<UserKey>, i: nat)
  {
    forall k :: PieceOf(boundaries, k) < i ==> SameFor(c, input, beyond, out, k)
  }

  /** All views read key `k` alike, and the same snapshots see it written to. */
  ghost predicate SameFor(c: Config, input: seq<Record>, beyond: seq<Record>, out: seq<Record>, k: UserKey) {
    && (forall s :: IsView(c, s) ==> Observe(c, out + beyond, k, s) == Observe(c, input + beyond, k, s))
    && (forall w :: w in c.snapshots && c.writeConflict <= w ==> (HasNewer(input, k, w) <==> HasNewer(out, k, w)))
  }

  ghost predicate AllBefore(out: seq<Record>, boundaries: seq<UserKey>, i: nat) {
    forall r :: r in out ==> PieceOf(boundaries, r.key) < i
  }

  /** Output for other keys makes no difference. */
  lemma AppendOther(c: Config, input: seq<Record>, beyond: seq<Record>, a: seq<Record>, b: seq<Record>, k: UserKey)
    requires SameFor(c, input, beyond, a, k) && forall r :: r in b ==> r.key != k
    ensures SameFor(c, input, beyond, a + b, k)
  {
    forall s | IsView(c, s)
      ensures Find((a + b) + beyond, k, s) == Find(a + beyond, k, s)
    {
      FindNone(b, k, s);
      FindAppend(a + b, beyond, k, s);
      FindAppend(a, b, k, s);
      FindAppend(a, beyond, k, s);
    }
    forall s | IsView(c, s)
      ensures Observe(c, (a + b) + beyond, k, s) == Observe(c, input + beyond, k, s)
    {
      assert Observe(c, a + beyond, k, s) == Observe(c, input + beyond, k, s);
    }
    assert forall w :: HasNewer(a + b, k, w) <==> HasNewer(a, k, w);
  }

  lemma PrependOther(c: Config, input: seq<Record>, beyond: seq<Record>, a: seq<Record>, b: seq<Record>, k: UserKey)
    requires SameFor(c, input, beyond, b, k) && forall r :: r in a ==> r.key != k
    ensures SameFor(c, input, beyond, a + b, k)
  {
    forall s | IsView(c, s)
      ensures Find((a + b) + beyond, k, s) == Find(b + beyond, k, s)
    {
      FindNone(a, k, s);
      assert (a + b) + beyond == a + (b + beyond);
      FindAppend(a, b + beyond, k, s);
    }
    forall s | IsView(c, s)
      ensures Observe(c, (a + b) + beyond, k, s) == Observe(c, input + beyond, k, s)
    {
      assert Observe(c, b + beyond, k, s) == Observe(c, input + beyond, k, s);
    }
    assert forall w :: HasNewer(a + b, k, w) <==> HasNewer(b, k, w);
  }

  lemma RangeIsPiece(boundaries: seq<UserKey>, i: nat, k: UserKey)
    requires Increasing(boundaries) && i <= |boundaries|
    ensures InRange(StartOf(boundaries, i), EndOf(boundaries, i), k) <==> PieceOf(boundaries, k) == i
  {
    PiecesPartition(boundaries, k, i);
  }

  lemma {:induction false} PiecesAreOrdered(boundaries: seq<UserKey>, k: UserKey, k': UserKey)
    requires Increasing(boundaries) && PieceOf(boundaries, k) < PieceOf(boundaries, k')
    ensures k < k'
  {
    var i, j := PieceOf(boundaries, k), PieceOf(boundaries, k');
    PiecesPartition(boundaries, k, i);
    PiecesPartition(boundaries, k', j);
    assert i < j - 1 ==> boundaries[i] < boundaries[j - 1];
  }

  lemma AppendPiece(c: Config, input: seq<Record>, beyond: seq<Record>, out: seq<Record>, piece: seq<Record>,
      boundaries: seq<UserKey>, i: nat)
    requires Increasing(boundaries) && i <= |boundaries|
    requires StrictlySorted(out) && AllBefore(out, boundaries, i) && DoneBefore(c, input, beyond, out, boundaries, i)
    requires StrictlySorted(piece) && forall r :: r in piece ==> PieceOf(boundaries, r.key) == i
    requires forall k :: PieceOf(boundaries, k) == i ==> SameFor(c, input, beyond, piece, k)
    ensures StrictlySorted(out + piece) && AllBefore(out + piece, boundaries, i + 1)
    ensures DoneBefore(c, input, beyond, out + piece, boundaries, i + 1)
  {
    hide SameFor, PieceOf;
    forall a, b | 0 <= a < b < |out + piece|
      ensures Before((out + piece)[a], (out + piece)[b])
    {
      if b < |out| {
        assert Before(out[a], out[b]);
      } else if a >= |out| {
        assert Before(piece[a - |out|], piece[b - |out|]);
      } else {
        PiecesAreOrdered(boundaries, out[a].key, piece[b - |out|].key);
      }
    }
    forall k | PieceOf(boundaries, k) < i + 1
      ensures SameFor(c, input, beyond, out + piece, k)
    {
      if PieceOf(boundaries, k) == i {
        PrependOther(c, input, beyond, out, piece, k);
      } else {
        AppendOther(c, input, beyond, out, piece, k);
      }
    }
  }

  lemma SameEverywhere(c: Config, input: seq<Record>, beyond: seq<Record>, out: seq<Record>)
    requires forall k :: SameFor(c, input, beyond, out, k)
    ensures SameViews(c, out + beyond, input + beyond)
    ensures forall k, w :: w in c.snapshots && c.writeConflict <= w ==> (HasNewer(input, k, w) <==> HasNewer(out, k, w))
  {
    forall k, s | IsView(c, s)
      ensures Observe(c, out + beyond, k, s) == Observe(c, input + beyond, k, s)
    {
      assert SameFor(c, input, beyond, out, k);
    }
    forall k, w | w in c.snapshots && c.writeConflict <= w
      ensures HasNewer(input, k, w) <==> HasNewer(out, k, w)
    {
      assert SameFor(c, input, beyond, out, k);
    }
  }

  function Join(pieces: seq<seq<Record>>): seq<Record> {
    if pieces == [] then [] else Join(pieces[..|pieces| - 1]) + pieces[|pieces| - 1]
  }

  /** However a compaction is split, its subcompactions together do what the whole would: every
      view reads the same, and the output of one after the other is sorted. */
  method CompactInPieces(c: Config, input: seq<Record>, ghost beyond: seq<Record>, boundaries: seq<UserKey>)
    returns (out: seq<Record>, ghost pieces: seq<seq<Record>>)
    requires ValidConfig(c) && ValidData(c, input, beyond) && Increasing(boundaries)
    ensures forall k, s :: IsView(c, s) ==> Get(out + beyond, k, s) == Get(input + beyond, k, s)
    ensures SameViews(c, out + beyond, input + beyond)
    ensures StrictlySorted(out)
    ensures forall k, w :: w in c.snapshots && c.writeConflict <= w ==> (HasNewer(input, k, w) <==> HasNewer(out, k, w))
    ensures |pieces| == |boundaries| + 1 && out == Join(pieces)
    ensures forall i :: 0 <= i < |pieces| ==>
              IsPiece(c, input, StartOf(boundaries, i), EndOf(boundaries, i), pieces[i])
  {
    hide ValidData, PieceOf, IsPiece;
    out, pieces := [], [];
    for i := 0 to |boundaries| + 1
      invariant StrictlySorted(out) && AllBefore(out, boundaries, i) && DoneBefore(c, input, beyond, out, boundaries, i)
      invariant |pieces| == i && out == Join(pieces)
      invariant forall m :: 0 <= m < i ==>
                  IsPiece(c, input, StartOf(boundaries, m), EndOf(boundaries, m), pieces[m])
    {
      var piece := ProcessRange(c, input, beyond, StartOf(boundaries, i), EndOf(boundaries, i));
      forall k
        ensures InRange(StartOf(boundaries, i), EndOf(boundaries, i), k) <==> PieceOf(boundaries, k) == i
      {
        RangeIsPiece(boundaries, i, k);
      }
      AppendPiece(c, input, beyond, out, piece, boundaries, i);
      out := out + piece;
      assert (pieces + [piece])[..i] == pieces;
      pieces := pieces + [piece];
    }
    forall k
      ensures SameFor(c, input, beyond, out, k)
    {
      assert PieceOf(boundaries, k) < |boundaries| + 1;
    }
    SameEverywhere(c, input, beyond, out);
    SameViewsMeansSameReads(c, out + beyond, input + beyond);
  }
}
