/** How a compaction is split into subcompactions by user key. */
module Subcompactions {
  import opened Records
  import opened Arithmetic

  datatype FileRange = FileRange(smallest: UserKey, largest: UserKey)

  datatype InputLevel = InputLevel(level: nat, files: seq<FileRange>)

  /** The estimated size of the data between two keys. */
  type Estimate = (UserKey, UserKey) -> nat

  ghost predicate Increasing(keys: seq<UserKey>) {
    forall i, j :: 0 <= i < j < |keys| ==> keys[i] < keys[j]
  }

  // ----- Candidate boundaries

  /** Level 0 contributes both keys of every file; other levels their first and last key, and the
      output level also the key where each further file begins. */
  ghost predicate Contributes(il: InputLevel, outLevel: nat, k: UserKey) {
    if il.level == 0 then exists f :: 0 <= f < |il.files| && (k == il.files[f].smallest || k == il.files[f].largest)
    else || (il.files != [] && (k == il.files[0].smallest || k == il.files[|il.files| - 1].largest))
         || (il.level == outLevel && exists f :: 1 <= f < |il.files| && k == il.files[f].smallest)
  }

  method LevelBounds(il: InputLevel, outLevel: nat) returns (bounds: seq<UserKey>)
    ensures forall k :: k in bounds <==> Contributes(il, outLevel, k)
  {
    bounds := [];
    if |il.files| == 0 {
      return;
    }
    if il.level == 0 {
      for f := 0 to |il.files|
        invariant forall k :: k in bounds <==>
                  exists g :: 0 <= g < f && (k == il.files[g].smallest || k == il.files[g].largest)
      {
        bounds := bounds + [il.files[f].smallest];
        bounds := bounds + [il.files[f].largest];
      }
    } else {
      bounds := [il.files[0].smallest, il.files[|il.files| - 1].largest];
      if il.level == outLevel {
        ghost var ends := bounds;
        for f := 1 to |il.files|
          invariant forall k :: k in bounds <==> k in ends || exists g :: 1 <= g < f && k == il.files[g].smallest
        {
          bounds := bounds + [il.files[f].smallest];
        }
      }
    }
  }

  ghost predicate IsCandidate(levels: seq<InputLevel>, startLevel: nat, outLevel: nat, k: UserKey) {
    exists l :: 0 <= l < |levels| && startLevel <= levels[l].level <= outLevel && Contributes(levels[l], outLevel, k)
  }

  method CollectBounds(levels: seq<InputLevel>, startLevel: nat, outLevel: nat) returns (bounds: seq<UserKey>)
    ensures forall k :: k in bounds <==> IsCandidate(levels, startLevel, outLevel, k)
  {
    bounds := [];
    for l := 0 to |levels|
      invariant forall k :: k in bounds <==>
                  exists m :: 0 <= m < l && startLevel <= levels[m].level <= outLevel &&
                    Contributes(levels[m], outLevel, k)
    {
      if startLevel <= levels[l].level <= outLevel {
        var more := LevelBounds(levels[l], outLevel);
        bounds := bounds + more;
      }
    }
  }

  /** Sorting and removing duplicates. */
  method SortUnique(bounds: seq<UserKey>) returns (keys: seq<UserKey>)
    ensures Increasing(keys) && forall k :: k in keys <==> k in bounds
  {
    keys := [];
    for i := 0 to |bounds|
      invariant Increasing(keys) && forall k :: k in keys <==> k in bounds[..i]
    {
      var n := 0;
      while n < |keys| && keys[n] < bounds[i]
        invariant n <= |keys| && forall m :: 0 <= m < n ==> keys[m] < bounds[i]
      {
        n := n + 1;
      }
      assert bounds[..i + 1] == bounds[..i] + [bounds[i]];
      if n == |keys| || keys[n] != bounds[i] {
        InsertAt(keys, n, bounds[i]);
        keys := keys[..n] + [bounds[i]] + keys[n..];
      }
    }
    assert bounds[..|bounds|] == bounds;
  }

  lemma InsertAt(keys: seq<UserKey>, n: nat, k: UserKey)
    requires Increasing(keys) && n <= |keys|
    requires forall m :: 0 <= m < n ==> keys[m] < k
    requires n < |keys| ==> k < keys[n]
    ensures Increasing(keys[..n] + [k] + keys[n..])
    ensures forall x :: x in keys[..n] + [k] + keys[n..] <==> x in keys || x == k
  {
    assert keys == keys[..n] + keys[n..];
    assert forall x :: x in keys <==> x in keys[..n] || x in keys[n..];
  }

  // ----- Grouping

  /** Total of `sizes[from..end]`. */
  function Sum(sizes: seq<nat>, from: nat, end: nat): nat
    requires from <= end <= |sizes|
  {
    if from == end then 0 else Sum(sizes, from, end - 1) + sizes[end - 1]
  }

  lemma {:induction false} SumSplit(sizes: seq<nat>, from: nat, mid: nat, end: nat)
    requires from <= mid <= end <= |sizes|
    ensures Sum(sizes, from, end) == Sum(sizes, from, mid) + Sum(sizes, mid, end)
    decreases end
  {
    if mid < end {
      SumSplit(sizes, from, mid, end - 1);
    }
  }

  lemma {:induction false} SumPrefix(a: seq<nat>, b: seq<nat>, from: nat, end: nat)
    requires from <= end <= |a| <= |b| && forall i :: 0 <= i < |a| ==> a[i] == b[i]
    ensures Sum(a, from, end) == Sum(b, from, end)
    decreases end
  {
    if from < end {
      SumPrefix(a, b, from, end - 1);
    }
  }

  method RangeSizes(keys: seq<UserKey>, estimate: Estimate) returns (sizes: seq<nat>, sum: nat)
    requires keys != []
    ensures |sizes| == |keys| - 1 && sum == Sum(sizes, 0, |sizes|)
    ensures forall i :: 0 <= i < |sizes| ==> sizes[i] == estimate(keys[i], keys[i + 1])
  {
    sizes, sum := [], 0;
    for i := 0 to |keys| - 1
      invariant |sizes| == i && sum == Sum(sizes, 0, i)
      invariant forall j :: 0 <= j < i ==> sizes[j] == estimate(keys[j], keys[j + 1])
    {
      var size := estimate(keys[i], keys[i + 1]);
      SumPrefix(sizes, sizes + [size], 0, i);
      sizes, sum := sizes + [size], sum + size;
    }
  }

  /** Piece `i` covers the ranges `cuts[i]..cuts[i + 1]` and ends at the key where they end.  It
      reaches the mean size, and would not without its last range. */
  ghost predicate IsPiece(keys: seq<UserKey>, ranges: seq<nat>, limit: nat, cuts: seq<nat>, boundaries: seq<UserKey>,
      sizes: seq<nat>, i: nat)
    requires |keys| == |ranges| + 1 && i < |boundaries| && |boundaries| <= |sizes| && |boundaries| < |cuts|
  {
    && cuts[i] < cuts[i + 1] < |ranges|
    && boundaries[i] == keys[cuts[i + 1]]
    && sizes[i] == Sum(ranges, cuts[i], cuts[i + 1])
    && sizes[i] * limit >= Sum(ranges, 0, |ranges|)
    && Sum(ranges, cuts[i], cuts[i + 1] - 1) * limit < Sum(ranges, 0, |ranges|)
  }

  ghost predicate ArePieces(keys: seq<UserKey>, ranges: seq<nat>, limit: nat, cuts: seq<nat>,
      boundaries: seq<UserKey>, sizes: seq<nat>)
    requires |keys| == |ranges| + 1
  {
    && |cuts| == |boundaries| + 1 && |boundaries| <= |sizes| && cuts[0] == 0 && cuts[|boundaries|] <= |ranges|
    && (forall i :: 0 <= i < |boundaries| ==> IsPiece(keys, ranges, limit, cuts, boundaries, sizes, i))
  }

  /** What is left from range `cut` on does not reach the mean size before the last range. */
  ghost predicate RestIsSmall(ranges: seq<nat>, limit: nat, cut: nat) {
    cut < |ranges| && Sum(ranges, cut, |ranges| - 1) * limit < Sum(ranges, 0, |ranges|)
  }

  /** Greedily: a subcompaction is closed once it has the mean size; the last one takes the rest. */
  method Group(keys: seq<UserKey>, ranges: seq<nat>, total: nat, limit: nat)
    returns (boundaries: seq<UserKey>, sizes: seq<nat>, ghost cuts: seq<nat>)
    requires |keys| == |ranges| + 1 && total == Sum(ranges, 0, |ranges|) > 0 && 1 < limit <= |ranges|
    ensures |sizes| == |boundaries| + 1 <= limit
    ensures ArePieces(keys, ranges, limit, cuts, boundaries, sizes)
    ensures sizes[|boundaries|] == Sum(ranges, cuts[|boundaries|], |ranges|)
    ensures |sizes| < limit ==> RestIsSmall(ranges, limit, cuts[|boundaries|])
  {
    boundaries, sizes, cuts := [], [], [0];
    var left, sum := limit, 0;
    for i := 0 to |ranges| - 1
      invariant |sizes| == |boundaries| == limit - left && left >= 1
      invariant |cuts| == |boundaries| + 1 && cuts[|boundaries|] <= i
      invariant ArePieces(keys, ranges, limit, cuts, boundaries, sizes)
      invariant sum == Sum(ranges, cuts[|boundaries|], i)
      invariant left > 1 ==> cuts[|boundaries|] == i || sum * limit < total
    {
      sum := sum + ranges[i];
      if left != 1 && sum * limit >= total {
        ghost var old' := (cuts, boundaries, sizes);
        assert sum == Sum(ranges, cuts[|boundaries|], i + 1);
        boundaries, sizes, cuts := boundaries + [keys[i + 1]], sizes + [sum], cuts + [i + 1];
        PiecesStay(keys, ranges, limit, old'.0, old'.1, old'.2, keys[i + 1], sum, i + 1);
        left, sum := left - 1, 0;
      }
    }
    sizes := sizes + [sum + ranges[|ranges| - 1]];
    LastPiece(keys, ranges, limit, cuts, boundaries, sizes[..|boundaries|], sizes);
  }

  lemma PiecesStay(keys: seq<UserKey>, ranges: seq<nat>, limit: nat, cuts: seq<nat>, boundaries: seq<UserKey>,
      sizes: seq<nat>, k: UserKey, size: nat, cut: nat)
    requires |keys| == |ranges| + 1 && ArePieces(keys, ranges, limit, cuts, boundaries, sizes) &&
             |sizes| == |boundaries|
    requires IsPiece(keys, ranges, limit, cuts + [cut], boundaries + [k], sizes + [size], |boundaries|)
    ensures ArePieces(keys, ranges, limit, cuts + [cut], boundaries + [k], sizes + [size])
  {
    forall i | 0 <= i < |boundaries|
      ensures IsPiece(keys, ranges, limit, cuts + [cut], boundaries + [k], sizes + [size], i)
    {
      assert IsPiece(keys, ranges, limit, cuts, boundaries, sizes, i);
    }
  }

  lemma LastPiece(keys: seq<UserKey>, ranges: seq<nat>, limit: nat, cuts: seq<nat>, boundaries: seq<UserKey>,
      sizes: seq<nat>, sizes': seq<nat>)
    requires |keys| == |ranges| + 1 && ArePieces(keys, ranges, limit, cuts, boundaries, sizes) && |sizes| <= |sizes'|
    requires forall i :: 0 <= i < |sizes| ==> sizes[i] == sizes'[i]
    ensures ArePieces(keys, ranges, limit, cuts, boundaries, sizes')
  {
    forall i | 0 <= i < |boundaries|
      ensures IsPiece(keys, ranges, limit, cuts, boundaries, sizes', i)
    {
      assert IsPiece(keys, ranges, limit, cuts, boundaries, sizes, i);
    }
  }

  /** The sizes of the pieces add up. */
  lemma {:induction false} PiecesAddUp(keys: seq<UserKey>, ranges: seq<nat>, limit: nat, cuts: seq<nat>,
                                       boundaries: seq<UserKey>, sizes: seq<nat>, n: nat)
    requires |keys| == |ranges| + 1 && ArePieces(keys, ranges, limit, cuts, boundaries, sizes) && n <= |boundaries|
    ensures cuts[n] <= |ranges| && Sum(sizes, 0, n) == Sum(ranges, 0, cuts[n])
    decreases n
  {
    if n > 0 {
      PiecesAddUp(keys, ranges, limit, cuts, boundaries, sizes, n - 1);
      assert IsPiece(keys, ranges, limit, cuts, boundaries, sizes, n - 1);
      SumSplit(ranges, 0, cuts[n - 1], cuts[n]);
    }
  }

  lemma {:induction false} CutsIncrease(keys: seq<UserKey>, ranges: seq<nat>, limit: nat, cuts: seq<nat>,
                                        boundaries: seq<UserKey>, sizes: seq<nat>, i: nat, j: nat)
    requires |keys| == |ranges| + 1 && ArePieces(keys, ranges, limit, cuts, boundaries, sizes) && i < j <= |boundaries|
    ensures cuts[i] < cuts[j] < |ranges|
    decreases j
  {
    assert IsPiece(keys, ranges, limit, cuts, boundaries, sizes, j - 1);
    if i < j - 1 {
      CutsIncrease(keys, ranges, limit, cuts, boundaries, sizes, i, j - 1);
    }
  }

  lemma BoundariesIncrease(keys: seq<UserKey>, ranges: seq<nat>, limit: nat, cuts: seq<nat>, boundaries: seq<UserKey>,
      sizes: seq<nat>)
    requires |keys| == |ranges| + 1 && Increasing(keys) && ArePieces(keys, ranges, limit, cuts, boundaries, sizes)
    ensures Increasing(boundaries)
    ensures forall b :: b in boundaries ==> b in keys && keys[0] < b < keys[|keys| - 1]
  {
    forall i | 0 <= i < |boundaries|
      ensures boundaries[i] in keys && keys[0] < boundaries[i] < keys[|keys| - 1]
    {
      assert IsPiece(keys, ranges, limit, cuts, boundaries, sizes, i);
    }
    forall i, j | 0 <= i < j < |boundaries|
      ensures boundaries[i] < boundaries[j]
    {
      CutsIncrease(keys, ranges, limit, cuts, boundaries, sizes, i + 1, j + 1);
      assert IsPiece(keys, ranges, limit, cuts, boundaries, sizes, i);
      assert IsPiece(keys, ranges, limit, cuts, boundaries, sizes, j);
    }
  }

  /** Output files of the target size, filled to four fifths, that the data would need. */
  function MaxOutputFiles(sum: nat, fileSize: nat): (n: nat)
    requires fileSize > 0
    ensures 4 * fileSize * n >= 5 * sum
    ensures n > 0 ==> 4 * fileSize * (n - 1) < 5 * sum
  {
    DivisionRoundsUp(5 * sum, 4 * fileSize);
    (5 * sum + 4 * fileSize - 1) / (4 * fileSize)
  }

  lemma DivisionRoundsUp(a: nat, d: nat)
    requires d > 0
    ensures var n := (a + d - 1) / d; d * n >= a && (n > 0 ==> d * (n - 1) < a)
  {
    var n := (a + d - 1) / d;
    assert a + d - 1 == d * n + (a + d - 1) % d;
    assert d * (n - 1) == d * n - d;
  }

  /** One output file less than `n`, filled to four fifths, would not hold the data. */
  predicate NeedsFiles(n: nat, sum: nat, fileSize: nat) {
    n == 0 || 4 * fileSize * (n - 1) < 5 * sum
  }

  lemma FilesNeeded(sum: nat, fileSize: nat)
    requires fileSize > 0
    ensures forall n: nat :: n <= MaxOutputFiles(sum, fileSize) <==> NeedsFiles(n, sum, fileSize)
  {
    var most := MaxOutputFiles(sum, fileSize);
    forall n: nat
      ensures n <= most <==> NeedsFiles(n, sum, fileSize)
    {
      if 0 < n <= most {
        MulMonotonic(n - 1, most - 1, 4 * fileSize);
      } else if n > 0 {
        MulMonotonic(most, n - 1, 4 * fileSize);
      }
    }
  }

  /** The number of subcompactions aimed at: the most that ranges, options and data allow. */
  function Limit(ranges: nat, maxSubcompactions: nat, sum: nat, fileSize: nat): (r: nat)
    requires fileSize > 0
    ensures forall n: nat ::
              n <= r <==> n <= ranges && n <= maxSubcompactions && NeedsFiles(n, sum, fileSize)
  {
    FilesNeeded(sum, fileSize);
    Min(Min(ranges, maxSubcompactions), MaxOutputFiles(sum, fileSize))
  }

  lemma SumOfLast(sizes: seq<nat>, n: nat)
    requires |sizes| == n + 1
    ensures Sum(sizes, 0, n + 1) == Sum(sizes, 0, n) + sizes[n] && (n == 0 ==> Sum(sizes, 0, n) == 0)
  {
    SumSplit(sizes, 0, n, n + 1);
  }

  /** The boundaries are keys where input files begin or end, strictly increasing; there is one
      size more than boundaries, and no more than the limit unless that is below one; the sizes add
      up to the estimate for the whole input; every piece but the last is the shortest run of
      ranges that reaches the mean, and if there are fewer pieces than the limit the last one does
      not reach it before its last range. */
  method GenSubcompactionBoundaries(levels: seq<InputLevel>, startLevel: nat, outLevel: nat, estimate: Estimate,
                                    maxSubcompactions: nat, fileSize: nat)
    returns (boundaries: seq<UserKey>, sizes: seq<nat>, keys: seq<UserKey>, ranges: seq<nat>, ghost cuts: seq<nat>)
    requires fileSize > 0 && exists k :: IsCandidate(levels, startLevel, outLevel, k)
    ensures Increasing(keys) && forall k :: k in keys <==> IsCandidate(levels, startLevel, outLevel, k)
    ensures |keys| == |ranges| + 1 && forall i :: 0 <= i < |ranges| ==> ranges[i] == estimate(keys[i], keys[i + 1])
    ensures |sizes| == |boundaries| + 1 && Sum(sizes, 0, |sizes|) == Sum(ranges, 0, |ranges|)
    ensures var limit := Limit(|ranges|, maxSubcompactions, Sum(ranges, 0, |ranges|), fileSize);
            && (if limit > 1 then |sizes| <= limit else |sizes| == 1)
            && ArePieces(keys, ranges, limit, cuts, boundaries, sizes)
            && sizes[|boundaries|] == Sum(ranges, cuts[|boundaries|], |ranges|)
            && (|sizes| < limit ==> RestIsSmall(ranges, limit, cuts[|boundaries|]))
    ensures Increasing(boundaries) && forall b :: b in boundaries ==> b in keys && keys[0] < b < keys[|keys| - 1]
  {
    hide IsCandidate, Sum;
    var bounds := CollectBounds(levels, startLevel, outLevel);
    keys := SortUnique(bounds);
    var sum;
    ranges, sum := RangeSizes(keys, estimate);
    var limit := Limit(|ranges|, maxSubcompactions, sum, fileSize);
    if limit > 1 {
      assert sum > 0;
      boundaries, sizes, cuts := Group(keys, ranges, sum, limit);
      var n := |boundaries|;
      PiecesAddUp(keys, ranges, limit, cuts, boundaries, sizes, n);
      SumSplit(ranges, 0, cuts[n], |ranges|);
      SumOfLast(sizes, n);
    } else {
      boundaries, sizes, cuts := [], [sum], [0];
      SumOfLast(sizes, 0);
    }
    BoundariesIncrease(keys, ranges, limit, cuts, boundaries, sizes);
  }

  // ----- The pieces of the key space

  /** Piece `i` runs from one boundary up to, but not including, the next. */
  predicate InPiece(boundaries: seq<UserKey>, i: nat, k: UserKey)
    requires i <= |boundaries|
  {
    (i > 0 ==> boundaries[i - 1] <= k) && (i < |boundaries| ==> k < boundaries[i])
  }

  function PieceOf(boundaries: seq<UserKey>, k: UserKey): (i: nat)
    ensures i <= |boundaries|
  {
    if boundaries == [] then 0
    else if boundaries[|boundaries| - 1] <= k then |boundaries|
    else PieceOf(boundaries[..|boundaries| - 1], k)
  }

  /** Every key, hence every version of it, is in exactly one piece. */
  lemma {:induction false} PiecesPartition(boundaries: seq<UserKey>, k: UserKey, i: nat)
    requires Increasing(boundaries) && i <= |boundaries|
    ensures InPiece(boundaries, i, k) <==> i == PieceOf(boundaries, k)
  {
    if boundaries != [] {
      var last := |boundaries| - 1;
      if boundaries[last] > k {
        if i <= last {
          PiecesPartition(boundaries[..last], k, i);
        }
      }
    }
  }
}
