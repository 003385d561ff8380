/** How CompactionPicker completes the set of files requested for a manual compaction, so that no
    newer version of a key is moved below an older one.

    User keys are numbered in comparator order, the empty key being 0. */
module CompactionInputs {

  type Key = nat

  datatype File = File(number: nat, smallest: Key, largest: Key, busy: bool)

  /** A running compaction: the level it writes to and its key range. */
  datatype Running = Running(level: nat, smallest: Key, largest: Key)

  predicate Overlap(lo: Key, hi: Key, lo': Key, hi': Key) {
    lo <= hi' && lo' <= hi
  }

  predicate In(k: Key, lo: Key, hi: Key) {
    lo <= k <= hi
  }

  /** The four cases tell whether the ranges have a key in common. */
  function HaveOverlappingKeyRanges(lo: Key, hi: Key, f: File): (r: bool)
    requires lo <= hi && f.smallest <= f.largest
    ensures r <==> exists k: Key :: In(k, lo, hi) && In(k, f.smallest, f.largest)
    ensures r <==> Overlap(lo, hi, f.smallest, f.largest)
  {
    assert In(lo, lo, hi) && In(hi, lo, hi) && In(f.smallest, f.smallest, f.largest) &&
      In(f.largest, f.smallest, f.largest);
    if lo >= f.smallest && lo <= f.largest then true
    else if lo < f.smallest && hi >= f.smallest then true
    else if hi <= f.largest then hi >= f.smallest
    else lo <= f.largest
  }

  // ----- Levels

  ghost predicate Ranges(files: seq<File>) {
    forall f :: 0 <= f < |files| ==> files[f].smallest <= files[f].largest
  }

  /** Below level 0 the files of a level follow one another; neighbours may share a user key. */
  ghost predicate Partitioned(files: seq<File>) {
    forall f, g :: 0 <= f < g < |files| ==> files[f].largest <= files[g].smallest
  }

  ghost predicate Distinct(files: seq<File>, files': seq<File>) {
    forall f, g :: 0 <= f < |files| && 0 <= g < |files'| ==> files[f].number != files'[g].number
  }

  ghost predicate Unique(files: seq<File>) {
    forall f, g :: 0 <= f < g < |files| ==> files[f].number != files[g].number
  }

  ghost predicate ValidLevels(levels: seq<seq<File>>) {
    && (forall l :: 0 <= l < |levels| ==> Ranges(levels[l]) && Unique(levels[l]))
    && (forall l :: 1 <= l < |levels| ==> Partitioned(levels[l]))
    && (forall l, m :: 0 <= l < m < |levels| ==> Distinct(levels[l], levels[m]))
  }

  // ----- Properties of a selection of files

  /** Every selected file lies in the range. */
  ghost predicate Within(files: seq<File>, input: set<nat>, lo: Key, hi: Key) {
    forall f :: 0 <= f < |files| && files[f].number in input ==> lo <= files[f].smallest && files[f].largest <= hi
  }

  /** Every file that overlaps the range is selected. */
  ghost predicate Covers(files: seq<File>, input: set<nat>, lo: Key, hi: Key) {
    forall f :: 0 <= f < |files| && Overlap(lo, hi, files[f].smallest, files[f].largest) ==> files[f].number in input
  }

  ghost predicate NoneBusy(files: seq<File>, input: set<nat>) {
    forall f :: 0 <= f < |files| && files[f].number in input ==> !files[f].busy
  }

  ghost predicate NoneSelected(files: seq<File>, input: set<nat>) {
    forall f :: 0 <= f < |files| ==> files[f].number !in input
  }

  ghost predicate SameSelection(files: seq<File>, input: set<nat>, input': set<nat>) {
    forall f :: 0 <= f < |files| ==> (files[f].number in input <==> files[f].number in input')
  }

  ghost predicate OlderToo(files: seq<File>, input: set<nat>) {
    forall f, g :: 0 <= f < g < |files| && files[f].number in input ==> files[g].number in input
  }

  function Lowest(l: nat): nat {
    if l == 0 then 1 else l
  }

  /** The range covers levels `l` (level 0 excepted) to `out`. */
  ghost predicate CoversFrom(levels: seq<seq<File>>, input: set<nat>, l: nat, out: nat, lo: Key, hi: Key)
    requires out < |levels|
  {
    forall m :: Lowest(l) <= m <= out ==> Covers(levels[m], input, lo, hi)
  }

  ghost predicate LowReached(levels: seq<seq<File>>, t: set<nat>, l: nat, lo: Key)
    requires l < |levels|
  {
    exists j, f :: 0 <= j <= l && 0 <= f < |levels[j]| && levels[j][f].number in t && levels[j][f].smallest <= lo
  }

  ghost predicate HighReached(levels: seq<seq<File>>, t: set<nat>, l: nat, hi: Key)
    requires l < |levels|
  {
    exists j, f :: 0 <= j <= l && 0 <= f < |levels[j]| && levels[j][f].number in t && levels[j][f].largest >= hi
  }

  /** Between the keys of the files selected in levels 0 to `l`, everything is selected in level `l`
      (level 0 excepted) and below, down to level `out`. */
  ghost predicate SpanClosed(levels: seq<seq<File>>, t: set<nat>, l: nat, out: nat)
    requires l < |levels| && out < |levels|
  {
    forall lo, hi :: LowReached(levels, t, l, lo) && HighReached(levels, t, l, hi) ==>
      CoversFrom(levels, t, l, out, lo, hi)
  }

  /** In level 0, newest first: with a file all older ones, or, if nothing leaves the level, all between two files. */
  ghost predicate TimeClosed(files: seq<File>, t: set<nat>, out: nat) {
    if out > 0 then OlderToo(files, t)
    else forall f, g, h :: 0 <= f < g < h < |files| && files[f].number in t && files[h].number in t ==>
      files[g].number in t
  }

  /** A set of files that contains the request and whatever must go with it. */
  ghost predicate Complete(levels: seq<seq<File>>, request: set<nat>, t: set<nat>, out: nat)
    requires out < |levels|
  {
    request <= t && TimeClosed(levels[0], t, out) && forall l :: 0 <= l <= out ==> SpanClosed(levels, t, l, out)
  }

  /** A file of `t` in the levels down to `out` is being compacted. */
  ghost predicate HasBusy(levels: seq<seq<File>>, t: set<nat>, out: nat)
    requires out < |levels|
  {
    exists l, f :: 0 <= l <= out && 0 <= f < |levels[l]| && levels[l][f].number in t && levels[l][f].busy
  }

  // ----- One level

  /** The first and the last requested file of the level. */
  method FindIncluded(files: seq<File>, input: set<nat>) returns (first: nat, last: int)
    ensures -1 <= last < |files|
    ensures last == -1 ==> NoneSelected(files, input)
    ensures last >= 0 ==> first <= last && files[first].number in input && files[last].number in input
    ensures forall f :: 0 <= f < |files| && files[f].number in input ==> first <= f <= last
  {
    first, last := |files|, -1;
    for f := 0 to |files|
      invariant -1 <= last < f
      invariant last == -1 ==> first == |files|
      invariant last >= 0 ==> first <= last && files[first].number in input && files[last].number in input
      invariant forall g :: 0 <= g < f && files[g].number in input ==> first <= g <= last
    {
      if files[f].number in input {
        first := if first < f then first else f;
        last := f;
      }
    }
  }

  /** Each of the files `from..to` shares a key with the next. */
  ghost predicate Linked(files: seq<File>, from: nat, to: nat)
    requires from <= to < |files|
  {
    forall g :: from <= g < to ==> files[g].largest >= files[g + 1].smallest
  }

  /** Below level 0, neighbours that share a key are taken along. */
  method Expand(files: seq<File>, first: nat, last: nat) returns (first': nat, last': nat)
    requires first <= last < |files| && Ranges(files) && Partitioned(files)
    ensures first' <= first && last <= last' < |files|
    ensures Linked(files, first', first) && Linked(files, last, last')
    ensures forall f :: 0 <= f < first' ==> files[f].largest < files[first'].smallest
    ensures forall f :: last' < f < |files| ==> files[last'].largest < files[f].smallest
  {
    first', last' := first, last;
    while first' > 0 && files[first' - 1].largest >= files[first'].smallest
      invariant first' <= first && Linked(files, first', first)
    {
      first' := first' - 1;
    }
    while last' < |files| - 1 && files[last' + 1].smallest <= files[last'].largest
      invariant last <= last' < |files| && Linked(files, last, last')
    {
      last' := last' + 1;
    }
  }

  /** All files from `first` to `last`, unless one of them is being compacted. */
  method Include(files: seq<File>, first: nat, last: nat, input: set<nat>) returns (ok: bool, input': set<nat>)
    requires first <= last < |files| && Unique(files)
    ensures input <= input'
    ensures ok ==> forall f :: first <= f <= last ==> !files[f].busy && files[f].number in input'
    ensures forall n :: n in input' && n !in input ==> exists f :: first <= f <= last && files[f].number == n
    ensures AllBetween(files, input, first, last) ==> AllBetween(files, input', first, last)
    ensures !ok ==> exists f :: first <= f <= last && files[f].busy
  {
    input' := input;
    for f := first to last + 1
      invariant input <= input'
      invariant forall g :: first <= g < f ==> !files[g].busy && files[g].number in input'
      invariant forall n :: n in input' && n !in input ==> exists g :: first <= g <= last && files[g].number == n
    {
      if files[f].busy {
        return false, input';
      }
      input' := input' + {files[f].number};
    }
    ok := true;
  }

  /** Level 0: the smallest and the largest key of the files from `first` to `last`, and of the range so far. */
  method Widen(files: seq<File>, first: nat, last: nat, lo: Key, hi: Key) returns (lo': Key, hi': Key)
    requires first <= last < |files| && lo <= hi
    ensures lo' <= lo && hi <= hi'
    ensures forall f :: first <= f <= last ==> lo' <= files[f].smallest && files[f].largest <= hi'
    ensures lo' == lo || exists f :: first <= f <= last && files[f].smallest == lo'
    ensures hi' == hi || exists f :: first <= f <= last && files[f].largest == hi'
  {
    lo', hi' := lo, hi;
    for f := first to last + 1
      invariant lo' <= lo && hi <= hi'
      invariant forall g :: first <= g < f ==> lo' <= files[g].smallest && files[g].largest <= hi'
      invariant lo' == lo || exists g :: first <= g <= last && files[g].smallest == lo'
      invariant hi' == hi || exists g :: first <= g <= last && files[g].largest == hi'
    {
      lo' := if lo' > files[f].smallest then files[f].smallest else lo';
      hi' := if hi' < files[f].largest then files[f].largest else hi';
    }
  }

  /** All files of a level that overlap the range, unless one of them is being compacted. */
  method IncludeOverlapping(files: seq<File>, lo: Key, hi: Key, input: set<nat>) returns (ok: bool, input': set<nat>)
    requires Ranges(files) && lo <= hi
    ensures input <= input'
    ensures ok ==> Covers(files, input', lo, hi)
    ensures ok ==> forall f :: 0 <= f < |files| && Overlap(lo, hi, files[f].smallest, files[f].largest) ==>
            !files[f].busy
    ensures forall n :: n in input' && n !in input ==>
              exists f :: 0 <= f < |files| && files[f].number == n &&
                Overlap(lo, hi, files[f].smallest, files[f].largest)
    ensures !ok ==> exists f ::
              0 <= f < |files| && files[f].busy && Overlap(lo, hi, files[f].smallest, files[f].largest)
  {
    input' := input;
    for f := 0 to |files|
      invariant input <= input'
      invariant forall g :: 0 <= g < f && Overlap(lo, hi, files[g].smallest, files[g].largest) ==>
                  files[g].number in input' && !files[g].busy
      invariant forall n :: n in input' && n !in input ==>
                  exists g :: 0 <= g < |files| && files[g].number == n &&
                    Overlap(lo, hi, files[g].smallest, files[g].largest)
    {
      if HaveOverlappingKeyRanges(lo, hi, files[f]) {
        if files[f].busy {
          return false, input';
        }
        input' := input' + {files[f].number};
      }
    }
    ok := true;
  }

  /** What one step of the outer loop keeps of the levels above. */
  ghost predicate AddsBelow(levels: seq<seq<File>>, l: nat, input: set<nat>, input': set<nat>)
    requires l <= |levels|
  {
    && input <= input'
    && (forall j :: 0 <= j < l ==> SameSelection(levels[j], input, input'))
  }

  /** Numbers of files of level `m` select nothing in the levels above. */
  lemma AddedAtLevel(levels: seq<seq<File>>, l: nat, m: nat, input: set<nat>, input': set<nat>)
    requires ValidLevels(levels) && l <= m < |levels| && input <= input'
    requires forall n :: n in input' && n !in input ==> exists f :: 0 <= f < |levels[m]| && levels[m][f].number == n
    ensures AddsBelow(levels, l, input, input')
  {
    forall j | 0 <= j < l
      ensures SameSelection(levels[j], input, input')
    {
      assert Distinct(levels[j], levels[m]);
    }
  }

  /** For all levels from `l` on, the files that overlap the range. */
  method IncludeBelow(levels: seq<seq<File>>, l: nat, out: nat, lo: Key, hi: Key, input: set<nat>)
    returns (ok: bool, input': set<nat>)
    requires ValidLevels(levels) && l <= out < |levels| && lo <= hi
    ensures AddsBelow(levels, l, input, input')
    ensures ok ==> CoversFrom(levels, input', l, out, lo, hi)
    ensures ok ==> AddedOverlaps(levels[l], input, input', lo, hi)
    ensures l == 0 ==> SameSelection(levels[0], input, input')
    ensures forall t :: input <= t && CoversFrom(levels, t, l, out, lo, hi) ==>
            input' <= t && (!ok ==> HasBusy(levels, t, out))
  {
    input' := input;
    for m := Lowest(l) to out + 1
      invariant AddsBelow(levels, l, input, input')
      invariant m == Lowest(l) ==> input' == input
      invariant l == 0 ==> SameSelection(levels[0], input, input')
      invariant forall j :: Lowest(l) <= j < m ==> Covers(levels[j], input', lo, hi)
      invariant AddedOverlaps(levels[l], input, input', lo, hi)
      invariant forall t :: input <= t && CoversFrom(levels, t, l, out, lo, hi) ==> input' <= t
    {
      var before := input';
      ok, input' := IncludeOverlapping(levels[m], lo, hi, input');
      AddedAtLevel(levels, l, m, before, input');
      forall t | input <= t && CoversFrom(levels, t, l, out, lo, hi)
        ensures input' <= t && (!ok ==> HasBusy(levels, t, out))
      {
        assert Covers(levels[m], t, lo, hi);
      }
      if l == 0 {
        AddedAtLevel(levels, 1, m, before, input');
      }
      if !ok {
        return;
      }
      if l == m {
        AddedHere(levels[l], input, input', lo, hi);
      } else {
        AddedAtLevel(levels, l + 1, m, before, input');
        assert SameSelection(levels[l], before, input');
      }
    }
    ok := true;
  }

  /** What was newly selected in a level overlaps the range and is not being compacted. */
  ghost predicate AddedOverlaps(files: seq<File>, input: set<nat>, input': set<nat>, lo: Key, hi: Key) {
    forall f :: 0 <= f < |files| && files[f].number in input' && files[f].number !in input ==>
      !files[f].busy && Overlap(lo, hi, files[f].smallest, files[f].largest)
  }

  lemma AddedHere(files: seq<File>, input: set<nat>, input': set<nat>, lo: Key, hi: Key)
    requires Unique(files)
    requires forall f :: 0 <= f < |files| && Overlap(lo, hi, files[f].smallest, files[f].largest) ==> !files[f].busy
    requires forall n :: n in input' && n !in input ==>
               exists f :: 0 <= f < |files| && files[f].number == n &&
                 Overlap(lo, hi, files[f].smallest, files[f].largest)
    ensures AddedOverlaps(files, input, input', lo, hi)
  {
  }

  /** The keys of the files selected so far. */
  datatype Bounds = Empty | Bounds(lo: Key, hi: Key)

  ghost predicate Hull(b: Bounds, files: seq<File>, input: set<nat>) {
    match b
    case Empty => NoneSelected(files, input)
    case Bounds(lo, hi) => Within(files, input, lo, hi)
  }

  ghost predicate BoundsCover(levels: seq<seq<File>>, input: set<nat>, l: nat, out: nat, b: Bounds)
    requires out < |levels|
  {
    b.Bounds? ==> b.lo <= b.hi && CoversFrom(levels, input, l, out, b.lo, b.hi)
  }

  ghost predicate Wider(b: Bounds, b': Bounds) {
    b.Bounds? ==> b'.Bounds? && b'.lo <= b.lo && b.hi <= b'.hi
  }

  /** Outside `first..last` a level has files only in the gap between the old range and the
      requested files, hence inside the new one. */
  lemma GapIsInside(files: seq<File>, first: nat, last: nat, b: Bounds, lo: Key, hi: Key, input: set<nat>, f: nat)
    requires first <= last < |files| && f < |files| && Ranges(files) && Partitioned(files)
    requires b.Bounds? ==> b.lo <= b.hi && Covers(files, input, b.lo, b.hi)
    requires AllBetween(files, input, first, last) && SetApart(files, first, last) &&
             Joins(files, first, last, b, lo, hi)
    requires Overlap(lo, hi, files[f].smallest, files[f].largest)
    ensures lo <= files[f].smallest && files[f].largest <= hi
  {
    if first <= f <= last {
      assert f > first ==> files[first].largest <= files[f].smallest;
      assert f < last ==> files[f].largest <= files[last].smallest;
    } else {
      assert files[f].number !in input;
    }
  }

  /** No file outside `first..last` touches the files inside it. */
  ghost predicate SetApart(files: seq<File>, first: nat, last: nat)
    requires first <= last < |files|
  {
    && (forall g :: 0 <= g < first ==> files[g].largest < files[first].smallest)
    && (forall g :: last < g < |files| ==> files[last].largest < files[g].smallest)
  }

  ghost predicate AllBetween(files: seq<File>, input: set<nat>, first: nat, last: int) {
    forall g :: 0 <= g < |files| && files[g].number in input ==> first <= g <= last
  }

  /** The files `first..last` that a level contributes, given the first and the last requested one. */
  ghost predicate IsSpan(files: seq<File>, input: set<nat>, l: nat, out: nat, found: nat, foundLast: nat, first: nat,
      last: nat)
  {
    && first <= found <= foundLast <= last < |files|
    && files[found].number in input && files[foundLast].number in input && AllBetween(files, input, first, last)
    && (l != 0 ==> SetApart(files, first, last) && Linked(files, first, found) && Linked(files, foundLast, last))
    && (l == 0 ==> first == found && last == if out > 0 then |files| - 1 else foundLast)
  }

  method Span(levels: seq<seq<File>>, l: nat, out: nat, input: set<nat>)
    returns (any: bool, found: nat, foundLast: nat, first: nat, last: nat)
    requires ValidLevels(levels) && l <= out < |levels|
    ensures if any then IsSpan(levels[l], input, l, out, found, foundLast, first, last)
            else NoneSelected(levels[l], input)
  {
    var files := levels[l];
    assert Ranges(files);
    var lastIncluded;
    first, lastIncluded := FindIncluded(files, input);
    if lastIncluded == -1 {
      return false, 0, 0, 0, 0;
    }
    any, last := true, lastIncluded;
    found, foundLast := first, last;
    if l != 0 {
      assert Partitioned(files);
      first, last := Expand(files, first, last);
    } else if out > 0 {
      last := |files| - 1;
    }
  }

  /** `lo..hi` is the old range together with the files `first..last`. */
  ghost predicate Joins(files: seq<File>, first: nat, last: nat, b: Bounds, lo: Key, hi: Key)
    requires first <= last < |files|
  {
    && (if b.Bounds? && b.lo <= files[first].smallest then lo == b.lo else lo == files[first].smallest)
    && (if b.Bounds? && b.hi >= files[last].largest then hi == b.hi else hi == files[last].largest)
  }

  /** Both ends of the range come from the old range or from a file in `first..last`. */
  ghost predicate Attained(files: seq<File>, first: nat, last: nat, b: Bounds, lo: Key, hi: Key)
    requires first <= last < |files|
  {
    && ((b.Bounds? && lo == b.lo) || exists f :: first <= f <= last && files[f].smallest == lo)
    && ((b.Bounds? && hi == b.hi) || exists f :: first <= f <= last && files[f].largest == hi)
  }

  method NewBounds(levels: seq<seq<File>>, l: nat, found: nat, first: nat, last: nat, b: Bounds)
      returns (lo: Key, hi: Key)
    requires ValidLevels(levels) && l < |levels| && first <= found <= last < |levels[l]| && (b.Bounds? ==> b.lo <= b.hi)
    ensures lo <= hi && Wider(b, Bounds(lo, hi)) && Attained(levels[l], first, last, b, lo, hi)
    ensures if l == 0 then forall g :: first <= g <= last ==> lo <= levels[l][g].smallest && levels[l][g].largest <= hi
            else Joins(levels[l], first, last, b, lo, hi)
  {
    var files := levels[l];
    assert Ranges(files);
    var some := if b.Bounds? then b else Bounds(files[found].smallest, files[found].largest);
    if l == 0 {
      lo, hi := Widen(files, first, last, some.lo, some.hi);
    } else {
      assert Partitioned(files);
      lo := if some.lo > files[first].smallest then files[first].smallest else some.lo;
      hi := if some.hi < files[last].largest then files[last].largest else some.hi;
      assert first < found ==> files[first].largest <= files[found].smallest;
      assert found < last ==> files[found].largest <= files[last].smallest;
      assert first < last ==> files[first].largest <= files[last].smallest;
    }
  }

  ghost predicate BoundsReached(levels: seq<seq<File>>, t: set<nat>, l: nat, b: Bounds)
    requires l < |levels|
  {
    b.Bounds? ==> LowReached(levels, t, l, b.lo) && HighReached(levels, t, l, b.hi)
  }

  /** `t` is closed at level `l`, contains what has been selected and spans the range so far. */
  ghost predicate Bound(levels: seq<seq<File>>, t: set<nat>, l: nat, out: nat, input: set<nat>, b: Bounds)
    requires l < |levels| && out < |levels|
  {
    && input <= t && BoundsReached(levels, t, l, b) && SpanClosed(levels, t, l, out)
    && (l == 0 ==> TimeClosed(levels[0], t, out))
  }

  /** A file of level `l` that overlaps one of `t` is in `t`. */
  lemma OverlapForced(levels: seq<seq<File>>, t: set<nat>, l: nat, out: nat, f: nat, g: nat, h: nat)
    requires 1 <= l <= out < |levels| && f < |levels[l]| && g < |levels[l]| && h < |levels[l]| &&
             SpanClosed(levels, t, l, out)
    requires levels[l][f].number in t && levels[l][h].number in t
    requires Overlap(levels[l][f].smallest, levels[l][h].largest, levels[l][g].smallest, levels[l][g].largest)
    ensures levels[l][g].number in t
  {
    assert LowReached(levels, t, l, levels[l][f].smallest) && HighReached(levels, t, l, levels[l][h].largest);
    assert CoversFrom(levels, t, l, out, levels[l][f].smallest, levels[l][h].largest);
    assert Covers(levels[l], t, levels[l][f].smallest, levels[l][h].largest);
  }

  lemma {:induction false} LinkedLeft(levels: seq<seq<File>>, t: set<nat>, l: nat, out: nat, g: nat, found: nat)
    requires ValidLevels(levels) && 1 <= l <= out < |levels| && SpanClosed(levels, t, l, out)
    requires g <= found < |levels[l]| && Linked(levels[l], g, found) && levels[l][found].number in t
    ensures levels[l][g].number in t
    decreases found - g
  {
    if g < found {
      LinkedLeft(levels, t, l, out, g + 1, found);
      assert Partitioned(levels[l]) && Ranges(levels[l]);
      OverlapForced(levels, t, l, out, g + 1, g, g + 1);
    }
  }

  lemma {:induction false} LinkedRight(levels: seq<seq<File>>, t: set<nat>, l: nat, out: nat, found: nat, g: nat)
    requires ValidLevels(levels) && 1 <= l <= out < |levels| && SpanClosed(levels, t, l, out)
    requires found <= g < |levels[l]| && Linked(levels[l], found, g) && levels[l][found].number in t
    ensures levels[l][g].number in t
    decreases g
  {
    if found < g {
      LinkedRight(levels, t, l, out, found, g - 1);
      assert levels[l][g - 1].largest >= levels[l][g - 1 + 1].smallest;
      assert Partitioned(levels[l]) && Ranges(levels[l]);
      OverlapForced(levels, t, l, out, g - 1, g, g - 1);
    }
  }

  /** The files `first..last` are in every such set. */
  lemma SpanForced(levels: seq<seq<File>>, t: set<nat>, l: nat, out: nat, input: set<nat>, b: Bounds,
                   found: nat, foundLast: nat, first: nat, last: nat, g: nat)
    requires ValidLevels(levels) && l <= out < |levels| && Bound(levels, t, l, out, input, b)
    requires IsSpan(levels[l], input, l, out, found, foundLast, first, last) && first <= g <= last
    ensures levels[l][g].number in t
  {
    if l != 0 {
      if g < found {
        LinkedLeft(levels, t, l, out, g, found);
      } else if g > foundLast {
        LinkedRight(levels, t, l, out, foundLast, g);
      } else {
        assert Partitioned(levels[l]) && Ranges(levels[l]);
        assert found < g ==> levels[l][found].largest <= levels[l][g].smallest;
        assert g < foundLast ==> levels[l][g].largest <= levels[l][foundLast].smallest;
        OverlapForced(levels, t, l, out, found, g, foundLast);
      }
    }
  }

  lemma BoundsForced(levels: seq<seq<File>>, t: set<nat>, l: nat, b: Bounds, first: nat, last: nat, lo: Key, hi: Key)
    requires l < |levels| && BoundsReached(levels, t, l, b) && first <= last < |levels[l]|
    requires Attained(levels[l], first, last, b, lo, hi) && forall g :: first <= g <= last ==> levels[l][g].number in t
    ensures BoundsReached(levels, t, l, Bounds(lo, hi))
  {
  }

  /** One round of the outer loop. */
  method IncludeLevel(levels: seq<seq<File>>, l: nat, out: nat, input: set<nat>, b: Bounds)
    returns (ok: bool, input': set<nat>, b': Bounds)
    requires ValidLevels(levels) && l <= out < |levels| && BoundsCover(levels, input, l, out, b) &&
             (l == 0 ==> b == Empty)
    ensures AddsBelow(levels, l, input, input')
    ensures ok ==> Wider(b, b') && Hull(b', levels[l], input') && BoundsCover(levels, input', l, out, b')
    ensures ok ==> NoneBusy(levels[l], input') && (l == 0 ==> TimeClosed(levels[0], input', out))
    ensures forall t :: Bound(levels, t, l, out, input, b) ==>
              input' <= t && BoundsReached(levels, t, l, b') && (!ok ==> HasBusy(levels, t, out))
  {
    hide Covers, CoversFrom, Within, Partitioned, Joins, Attained, AddedOverlaps, SameSelection, NoneBusy, TimeClosed,
      Wider;
    hide AddsBelow, IsSpan, BoundsReached, Bound, ValidLevels, SpanClosed, HasBusy, AllBetween, Unique;
    LevelFacts(levels, l);
    var any, found, foundLast, first, last := Span(levels, l, out, input);
    b' := b;
    if !any {
      NothingSelected(levels, l, out, input, b);
      ok, input' := true, input;
      return;
    }
    SpanFacts(levels[l], input, l, out, found, foundLast, first, last);
    ok, input' := Include(levels[l], first, last, input);
    AddedAtLevel(levels, l, l, input, input');
    var middle := input';
    forall t | Bound(levels, t, l, out, input, b)
      ensures middle <= t && (forall g :: first <= g <= last ==> levels[l][g].number in t)
      ensures BoundsReached(levels, t, l, b) && (!ok ==> HasBusy(levels, t, out))
    {
      BoundFacts(levels, t, l, out, input, b);
      forall g | first <= g <= last
        ensures levels[l][g].number in t
      {
        SpanForced(levels, t, l, out, input, b, found, foundLast, first, last, g);
      }
      if !ok {
        BusyInSpan(levels, t, l, out, first, last);
      }
    }
    if !ok {
      return;
    }
    var lo, hi := NewBounds(levels, l, found, first, last, b);
    ok, input' := IncludeBelow(levels, l, out, lo, hi, middle);
    b' := Bounds(lo, hi);
    AddsBelowTwice(levels, l, input, middle, input');
    forall t | Bound(levels, t, l, out, input, b)
      ensures input' <= t && BoundsReached(levels, t, l, b') && (!ok ==> HasBusy(levels, t, out))
    {
      BoundsForced(levels, t, l, b, first, last, lo, hi);
      ReachedIsCovered(levels, t, l, out, input, b, lo, hi);
    }
    if ok {
      CoveredHere(levels, input, l, out, b);
      LevelIsInside(levels, l, first, last, b, lo, hi, input, middle, input');
      LevelIsIdle(levels[l], l, out, first, last, middle, input', lo, hi);
    }
  }

  lemma LevelFacts(levels: seq<seq<File>>, l: nat)
    requires ValidLevels(levels) && l < |levels|
    ensures Ranges(levels[l]) && Unique(levels[l])
  {
  }

  lemma SpanFacts(files: seq<File>, input: set<nat>, l: nat, out: nat, found: nat, foundLast: nat, first: nat,
      last: nat)
    requires IsSpan(files, input, l, out, found, foundLast, first, last)
    ensures first <= found <= foundLast <= last < |files| && AllBetween(files, input, first, last)
    ensures l != 0 ==> SetApart(files, first, last)
    ensures l == 0 && out > 0 ==> last == |files| - 1
    ensures l == 0 && out == 0 ==> files[first].number in input && files[last].number in input
  {
  }

  lemma BoundFacts(levels: seq<seq<File>>, t: set<nat>, l: nat, out: nat, input: set<nat>, b: Bounds)
    requires l < |levels| && out < |levels| && Bound(levels, t, l, out, input, b)
    ensures input <= t && BoundsReached(levels, t, l, b)
  {
  }

  lemma BusyInSpan(levels: seq<seq<File>>, t: set<nat>, l: nat, out: nat, first: nat, last: nat)
    requires l <= out < |levels| && first <= last < |levels[l]| &&
             forall g :: first <= g <= last ==> levels[l][g].number in t
    requires exists f :: first <= f <= last && levels[l][f].busy
    ensures HasBusy(levels, t, out)
  {
  }

  lemma ReachedIsCovered(levels: seq<seq<File>>, t: set<nat>, l: nat, out: nat, input: set<nat>, b: Bounds, lo: Key,
      hi: Key)
    requires l <= out < |levels| && Bound(levels, t, l, out, input, b) && BoundsReached(levels, t, l, Bounds(lo, hi))
    ensures CoversFrom(levels, t, l, out, lo, hi)
  {
  }

  lemma CoveredHere(levels: seq<seq<File>>, input: set<nat>, l: nat, out: nat, b: Bounds)
    requires l <= out < |levels| && BoundsCover(levels, input, l, out, b)
    ensures l != 0 && b.Bounds? ==> b.lo <= b.hi && Covers(levels[l], input, b.lo, b.hi)
  {
  }

  lemma NothingSelected(levels: seq<seq<File>>, l: nat, out: nat, input: set<nat>, b: Bounds)
    requires l < |levels| && out < |levels| && NoneSelected(levels[l], input)
    ensures AddsBelow(levels, l, input, input) && Wider(b, b) && Hull(b, levels[l], input)
    ensures NoneBusy(levels[l], input) && TimeClosed(levels[l], input, out)
    ensures forall t :: Bound(levels, t, l, out, input, b) ==> input <= t && BoundsReached(levels, t, l, b)
  {
  }

  lemma AddsBelowTwice(levels: seq<seq<File>>, l: nat, input: set<nat>, middle: set<nat>, input': set<nat>)
    requires l <= |levels| && AddsBelow(levels, l, input, middle) && AddsBelow(levels, l, middle, input')
    ensures AddsBelow(levels, l, input, input')
  {
  }

  lemma LevelIsIdle(files: seq<File>, l: nat, out: nat, first: nat, last: nat,
                    middle: set<nat>, input': set<nat>, lo: Key, hi: Key)
    requires first <= last < |files| && AllBetween(files, middle, first, last) && middle <= input'
    requires forall f :: first <= f <= last ==> !files[f].busy && files[f].number in middle
    requires AddedOverlaps(files, middle, input', lo, hi)
    requires l == 0 ==> SameSelection(files, middle, input')
    requires l == 0 && out > 0 ==> last == |files| - 1
    ensures NoneBusy(files, input') && (l == 0 ==> TimeClosed(files, input', out))
  {
  }

  lemma LevelIsInside(levels: seq<seq<File>>, l: nat, first: nat, last: nat, b: Bounds, lo: Key, hi: Key,
                      input: set<nat>, middle: set<nat>, input': set<nat>)
    requires ValidLevels(levels) && l < |levels| && first <= last < |levels[l]|
    requires AllBetween(levels[l], input, first, last) && AllBetween(levels[l], middle, first, last)
    requires l == 0 ==> SameSelection(levels[l], middle, input')
    requires l == 0 ==> forall g :: first <= g <= last ==> lo <= levels[l][g].smallest && levels[l][g].largest <= hi
    requires l != 0 ==> AddedOverlaps(levels[l], middle, input', lo, hi)
    requires l != 0 && b.Bounds? ==> b.lo <= b.hi && Covers(levels[l], input, b.lo, b.hi)
    requires l != 0 ==> SetApart(levels[l], first, last) && Joins(levels[l], first, last, b, lo, hi)
    ensures Within(levels[l], input', lo, hi)
  {
    var files := levels[l];
    forall f | 0 <= f < |files| && files[f].number in input'
      ensures lo <= files[f].smallest && files[f].largest <= hi
    {
      if l != 0 {
        assert Ranges(files) && Partitioned(files);
        if first <= f <= last {
          assert f > first ==> files[first].largest <= files[f].smallest;
          assert f < last ==> files[f].largest <= files[last].smallest;
        } else {
          GapIsInside(files, first, last, b, lo, hi, input, f);
        }
      }
    }
  }

  // ----- All levels

  /** What holds of the levels that the outer loop has been through. */
  ghost predicate Sane(levels: seq<seq<File>>, input: set<nat>, j: nat, out: nat, b: Bounds)
    requires j < |levels| && out < |levels|
  {
    && SpanClosed(levels, input, j, out) && NoneBusy(levels[j], input) && Hull(b, levels[j], input)
    && (j == 0 ==> TimeClosed(levels[0], input, out))
  }

  lemma StaysSane(levels: seq<seq<File>>, l: nat, j: nat, out: nat, input: set<nat>, b: Bounds, input': set<nat>,
      b': Bounds)
    requires j < l <= out < |levels| && Sane(levels, input, j, out, b)
    requires AddsBelow(levels, l, input, input') && Wider(b, b')
    ensures Sane(levels, input', j, out, b')
  {
    assert SameSelection(levels[j], input, input');
    assert j == 0 ==> SameSelection(levels[0], input, input');
    forall lo, hi | LowReached(levels, input', j, lo) && HighReached(levels, input', j, hi)
      ensures CoversFrom(levels, input', j, out, lo, hi)
    {
      assert forall i :: 0 <= i <= j ==> SameSelection(levels[i], input, input');
      assert LowReached(levels, input, j, lo) && HighReached(levels, input, j, hi);
      forall m | Lowest(j) <= m <= out
        ensures Covers(levels[m], input', lo, hi)
      {
        assert Covers(levels[m], input, lo, hi);
      }
    }
  }

  lemma BecomesSane(levels: seq<seq<File>>, l: nat, out: nat, input: set<nat>, b: Bounds)
    requires l <= out < |levels| && (forall j :: 0 <= j <= l ==> Hull(b, levels[j], input)) &&
             BoundsCover(levels, input, l, out, b)
    requires NoneBusy(levels[l], input) && (l == 0 ==> TimeClosed(levels[0], input, out))
    ensures Sane(levels, input, l, out, b)
  {
    forall lo, hi | LowReached(levels, input, l, lo) && HighReached(levels, input, l, hi)
      ensures CoversFrom(levels, input, l, out, lo, hi)
    {
      var i, f :| 0 <= i <= l && 0 <= f < |levels[i]| && levels[i][f].number in input && levels[i][f].smallest <= lo;
      var j, g :| 0 <= j <= l && 0 <= g < |levels[j]| && levels[j][g].number in input && levels[j][g].largest >= hi;
      assert Hull(b, levels[i], input) && Hull(b, levels[j], input);
      forall m | Lowest(l) <= m <= out
        ensures Covers(levels[m], input, lo, hi)
      {
        assert Covers(levels[m], input, b.lo, b.hi);
      }
    }
  }

  ghost predicate Clash(running: seq<Running>, out: nat, lo: Key, hi: Key) {
    exists r :: 0 <= r < |running| && running[r].level == out &&
      Overlap(lo, hi, running[r].smallest, running[r].largest)
  }

  method RangeOverlapWithCompaction(running: seq<Running>, lo: Key, hi: Key, level: nat) returns (r: bool)
    ensures r <==> Clash(running, level, lo, hi)
  {
    for i := 0 to |running|
      invariant forall j :: 0 <= j < i ==>
                !(running[j].level == level && Overlap(lo, hi, running[j].smallest, running[j].largest))
    {
      if running[i].level == level && lo <= running[i].largest && hi >= running[i].smallest {
        return true;
      }
    }
    r := false;
  }

  ghost predicate AllSane(levels: seq<seq<File>>, input: set<nat>, out: nat, b: Bounds)
    requires out < |levels|
  {
    forall j :: 0 <= j <= out ==> Sane(levels, input, j, out, b)
  }

  /** The empty key stands for both ends of a range that no file has been found for. */
  function Low(b: Bounds): Key {
    if b.Bounds? then b.lo else 0
  }

  function High(b: Bounds): Key {
    if b.Bounds? then b.hi else 0
  }

  lemma ReachedBelow(levels: seq<seq<File>>, t: set<nat>, l: nat, m: nat, b: Bounds)
    requires l <= m < |levels| && BoundsReached(levels, t, l, b)
    ensures BoundsReached(levels, t, m, b)
  {
  }

  lemma CompleteIsBound(levels: seq<seq<File>>, request: set<nat>, t: set<nat>, l: nat, out: nat, input: set<nat>,
      b: Bounds)
    requires l <= out < |levels| && Complete(levels, request, t, out) && input <= t && BoundsReached(levels, t, l, b)
    ensures Bound(levels, t, l, out, input, b)
  {
  }

  method SanitizeForAllLevels(request: set<nat>, levels: seq<seq<File>>, out: nat, running: seq<Running>)
    returns (ok: bool, input: set<nat>, b: Bounds)
    requires ValidLevels(levels) && out < |levels|
    ensures request <= input
    ensures forall t :: Complete(levels, request, t, out) ==> input <= t && BoundsReached(levels, t, out, b)
    ensures ok ==> AllSane(levels, input, out, b) && !Clash(running, out, Low(b), High(b))
    ensures !ok ==> (forall t :: Complete(levels, request, t, out) ==> HasBusy(levels, t, out)) ||
                    (Clash(running, out, Low(b), High(b)) && forall j :: 0 <= j <= out ==> Hull(b, levels[j], input))
  {
    hide Sane, BoundsCover, Hull, NoneBusy, TimeClosed, Wider, Complete, Bound, BoundsReached, HasBusy, AddsBelow;
    input, b := request, Empty;
    NoBoundsCover(levels, input, out);
    NothingReached(levels, request, out);
    for l := 0 to out + 1
      invariant request <= input
      invariant BoundsCover(levels, input, l, out, b) && (l == 0 ==> b == Empty)
      invariant forall j :: 0 <= j < l ==> Sane(levels, input, j, out, b)
      invariant forall t :: Complete(levels, request, t, out) ==>
                  input <= t && BoundsReached(levels, t, if l == 0 then 0 else l - 1, b)
    {
      var input0, b0 := input, b;
      ok, input, b := IncludeLevel(levels, l, out, input0, b0);
      forall t | Complete(levels, request, t, out)
        ensures input <= t && BoundsReached(levels, t, l, b) && BoundsReached(levels, t, out, b)
        ensures !ok ==> HasBusy(levels, t, out)
      {
        ReachedBelow(levels, t, if l == 0 then 0 else l - 1, l, b0);
        CompleteIsBound(levels, request, t, l, out, input0, b0);
        ReachedBelow(levels, t, l, out, b);
      }
      AddsContains(levels, l, input0, input);
      if !ok {
        return;
      }
      forall j | 0 <= j < l
        ensures Sane(levels, input, j, out, b)
      {
        StaysSane(levels, l, j, out, input0, b0, input, b);
      }
      SaneIsHull(levels, input, l, out, b);
      BecomesSane(levels, l, out, input, b);
      BoundsCoverNext(levels, input, l, out, b);
    }
    SaneIsHull(levels, input, out + 1, out, b);
    var clash := RangeOverlapWithCompaction(running, Low(b), High(b), out);
    ok := !clash;
  }

  lemma AddsContains(levels: seq<seq<File>>, l: nat, input: set<nat>, input': set<nat>)
    requires l <= |levels| && AddsBelow(levels, l, input, input')
    ensures input <= input'
  {
  }

  lemma SaneIsHull(levels: seq<seq<File>>, input: set<nat>, l: nat, out: nat, b: Bounds)
    requires l <= out + 1 <= |levels| && forall j :: 0 <= j < l ==> Sane(levels, input, j, out, b)
    ensures forall j :: 0 <= j < l ==> Hull(b, levels[j], input)
  {
    forall j | 0 <= j < l
      ensures Hull(b, levels[j], input)
    {
      assert Sane(levels, input, j, out, b);
    }
  }

  lemma NothingReached(levels: seq<seq<File>>, request: set<nat>, out: nat)
    requires out < |levels|
    ensures forall t :: Complete(levels, request, t, out) ==> request <= t && BoundsReached(levels, t, 0, Empty)
  {
  }

  lemma NoBoundsCover(levels: seq<seq<File>>, input: set<nat>, out: nat)
    requires out < |levels|
    ensures BoundsCover(levels, input, 0, out, Empty)
  {
  }

  lemma BoundsCoverNext(levels: seq<seq<File>>, input: set<nat>, l: nat, out: nat, b: Bounds)
    requires out < |levels| && BoundsCover(levels, input, l, out, b)
    ensures BoundsCover(levels, input, l + 1, out, b)
  {
  }

  /** Some level has a file of that number. */
  ghost predicate Exists(levels: seq<seq<File>>, n: nat) {
    exists l :: 0 <= l < |levels| && HasFile(levels[l], n)
  }

  ghost predicate HasFile(files: seq<File>, n: nat) {
    exists f :: 0 <= f < |files| && files[f].number == n
  }

  // ----- The whole check

  datatype Status = OK | Aborted | InvalidArgument

  /** The keys of the files of `t`, down to level `out`, span some range that clashes with a
      compaction writing to that level. */
  ghost predicate SpanClashes(levels: seq<seq<File>>, t: set<nat>, out: nat, running: seq<Running>)
    requires out < |levels|
  {
    exists lo, hi :: LowReached(levels, t, out, lo) && HighReached(levels, t, out, hi) && Clash(running, out, lo, hi)
  }

  ghost predicate Blocked(levels: seq<seq<File>>, t: set<nat>, out: nat, running: seq<Running>)
    requires out < |levels|
  {
    HasBusy(levels, t, out) || SpanClashes(levels, t, out, running)
  }

  /** In plain terms: for every file of a complete set, all files with a key in its range belong to
      the set too, in its own level (level 0 excepted) and in all levels down to the output level. */
  lemma CompleteIsClosed(levels: seq<seq<File>>, request: set<nat>, t: set<nat>, out: nat, l: nat, f: nat, m: nat,
      g: nat)
    requires out < |levels| && Complete(levels, request, t, out)
    requires l <= out && Lowest(l) <= m <= out && f < |levels[l]| && g < |levels[m]| && levels[l][f].number in t
    requires Overlap(levels[l][f].smallest, levels[l][f].largest, levels[m][g].smallest, levels[m][g].largest)
    ensures levels[m][g].number in t
  {
    assert SpanClosed(levels, t, l, out);
    assert LowReached(levels, t, l, levels[l][f].smallest) && HighReached(levels, t, l, levels[l][f].largest);
    assert CoversFrom(levels, t, l, out, levels[l][f].smallest, levels[l][f].largest);
    assert Covers(levels[m], t, levels[l][f].smallest, levels[l][f].largest);
  }

  lemma SaneIsComplete(levels: seq<seq<File>>, request: set<nat>, input: set<nat>, out: nat, b: Bounds,
      running: seq<Running>)
    requires out < |levels| && request <= input && AllSane(levels, input, out, b) &&
             !Clash(running, out, Low(b), High(b))
    ensures Complete(levels, request, input, out) && !Blocked(levels, input, out, running)
  {
    hide SpanClosed;
    forall l | 0 <= l <= out
      ensures SpanClosed(levels, input, l, out) && NoneBusy(levels[l], input) && Hull(b, levels[l], input)
    {
      assert Sane(levels, input, l, out, b);
    }
    assert Sane(levels, input, 0, out, b);
  }

  /** Every requested file is in the levels down to `out`. */
  ghost predicate Shallow(levels: seq<seq<File>>, request: set<nat>, out: nat)
    requires out < |levels|
  {
    forall n :: n in request ==> ExistsDownTo(levels, out, n)
  }

  ghost predicate ExistsDownTo(levels: seq<seq<File>>, out: nat, n: nat)
    requires out < |levels|
  {
    exists l :: 0 <= l <= out && HasFile(levels[l], n)
  }

  /** The request together with all files down to level `out`. */
  ghost function Everything(levels: seq<seq<File>>, request: set<nat>, out: nat): set<nat>
    requires out < |levels|
  {
    request + set l, f | 0 <= l <= out && 0 <= f < |levels[l]| :: levels[l][f].number
  }

  lemma EverythingIsComplete(levels: seq<seq<File>>, request: set<nat>, out: nat)
    requires out < |levels|
    ensures Complete(levels, request, Everything(levels, request, out), out)
    ensures forall n :: n in Everything(levels, request, out) && n !in request ==> ExistsDownTo(levels, out, n)
  {
    var t := Everything(levels, request, out);
    assert forall l, f :: 0 <= l <= out && 0 <= f < |levels[l]| ==> levels[l][f].number in t;
    forall l | 0 <= l <= out
      ensures SpanClosed(levels, t, l, out)
    {
      assert forall lo, hi, m :: Lowest(l) <= m <= out ==> Covers(levels[m], t, lo, hi);
    }
    forall n | n in t && n !in request
      ensures ExistsDownTo(levels, out, n)
    {
      var l, f :| 0 <= l <= out && 0 <= f < |levels[l]| && levels[l][f].number == n;
      assert HasFile(levels[l], n);
    }
  }

  predicate BadRequest(request: set<nat>, levels: seq<seq<File>>, out: int, maxLevel: int) {
    out >= |levels| || out > maxLevel || out < 0 || request == {}
  }

  method FindFile(levels: seq<seq<File>>, n: nat) returns (found: bool, busy: bool)
    requires ValidLevels(levels)
    ensures (found <==> Exists(levels, n)) && (busy ==> found)
    ensures forall l, f :: 0 <= l < |levels| && 0 <= f < |levels[l]| && levels[l][f].number == n ==>
            busy == levels[l][f].busy
  {
    for l := 0 to |levels|
      invariant forall j, f :: 0 <= j < l && 0 <= f < |levels[j]| ==> levels[j][f].number != n
    {
      for f := 0 to |levels[l]|
        invariant forall g :: 0 <= g < f ==> levels[l][g].number != n
      {
        if levels[l][f].number == n {
          assert HasFile(levels[l], n);
          OnlyOneOfThatNumber(levels, l, f);
          return true, levels[l][f].busy;
        }
      }
    }
    return false, false;
  }

  lemma OnlyOneOfThatNumber(levels: seq<seq<File>>, l: nat, f: nat)
    requires ValidLevels(levels) && l < |levels| && f < |levels[l]|
    ensures forall m, g :: 0 <= m < |levels| && 0 <= g < |levels[m]| && levels[m][g].number == levels[l][f].number ==>
              m == l && g == f
  {
    forall m, g | 0 <= m < |levels| && 0 <= g < |levels[m]| && levels[m][g].number == levels[l][f].number
      ensures m == l && g == f
    {
      assert m < l ==> Distinct(levels[m], levels[l]);
      assert l < m ==> Distinct(levels[l], levels[m]);
      assert Unique(levels[l]);
    }
  }

  ghost predicate IsBusy(levels: seq<seq<File>>, n: nat) {
    exists l, f :: 0 <= l < |levels| && 0 <= f < |levels[l]| && levels[l][f].number == n && levels[l][f].busy
  }

  /** No requested file is in the levels down to `out`. */
  ghost predicate NoneDownTo(levels: seq<seq<File>>, request: set<nat>, out: nat)
    requires out < |levels|
  {
    forall j :: 0 <= j <= out ==> NoneSelected(levels[j], request)
  }

  /** A clash of the computed range is one that every complete set has, unless no file was found for the
      range, which then is that of the empty key. */
  lemma ClashBlocks(levels: seq<seq<File>>, request: set<nat>, input: set<nat>, out: nat, b: Bounds,
      running: seq<Running>)
    requires out < |levels| && request <= input && request != {}
    requires Clash(running, out, Low(b), High(b)) && forall j :: 0 <= j <= out ==> Hull(b, levels[j], input)
    requires forall t :: Complete(levels, request, t, out) ==> BoundsReached(levels, t, out, b)
    ensures || (forall t :: Complete(levels, request, t, out) ==> Blocked(levels, t, out, running))
            || (NoneDownTo(levels, request, out) && Clash(running, out, 0, 0))
  {
    hide Complete, Clash;
    if b == Empty {
      forall j | 0 <= j <= out
        ensures NoneSelected(levels[j], request)
      {
        assert Hull(b, levels[j], input);
      }
    }
  }

  lemma ShallowIsFound(levels: seq<seq<File>>, request: set<nat>, out: nat)
    requires out < |levels| && request != {} && Shallow(levels, request, out)
    ensures !NoneDownTo(levels, request, out)
  {
    var n :| n in request;
    assert ExistsDownTo(levels, out, n);
    var l :| 0 <= l <= out && HasFile(levels[l], n);
    assert !NoneSelected(levels[l], request);
  }

  /** If the request is accepted, the result is the least complete set, and nothing in it is being
      compacted or clashes with a running compaction.  A request for files down to the output level
      is turned down only if every complete set is blocked in that way. */
  method SanitizeCompactionInputFiles(request: set<nat>,
      levels: seq<seq<File>>, out: int, maxLevel: int, running: seq<Running>)
    returns (status: Status, input: set<nat>)
    requires ValidLevels(levels)
    ensures request <= input
    ensures status == OK ==> !BadRequest(request, levels, out, maxLevel)
    ensures status == OK ==> Complete(levels, request, input, out) && !Blocked(levels, input, out, running)
    ensures status == OK ==> forall t :: Complete(levels, request, t, out) ==> input <= t
    ensures status == OK ==> forall n :: n in input ==> Exists(levels, n)
    ensures status == OK ==> forall l :: 0 <= l < |levels| ==> NoneBusy(levels[l], input)
    ensures BadRequest(request, levels, out, maxLevel) ==> status == InvalidArgument && input == request
    ensures status == InvalidArgument ==>
              BadRequest(request, levels, out, maxLevel) || exists n :: n in request && !Exists(levels, n)
    ensures status == Aborted ==> !BadRequest(request, levels, out, maxLevel)
    ensures status == Aborted && Shallow(levels, request, out) ==>
              forall t :: Complete(levels, request, t, out) ==> Blocked(levels, t, out, running)
    ensures status == Aborted ==>
              || (forall t :: Complete(levels, request, t, out) ==> Blocked(levels, t, out, running))
              || (exists n :: n in request && IsBusy(levels, n))
              || (NoneDownTo(levels, request, out) && Clash(running, out, 0, 0))
  {
    hide AllSane, Clash, Complete, Hull, BoundsReached, HasBusy, SpanClashes, Shallow, Exists, NoneBusy, ExistsDownTo;
    input := request;
    if out >= |levels| || out > maxLevel || out < 0 || request == {} {
      return InvalidArgument, input;
    }
    var ok, b;
    ok, input, b := SanitizeForAllLevels(request, levels, out, running);
    if !ok {
      if Clash(running, out, Low(b), High(b)) && (forall j :: 0 <= j <= out ==> Hull(b, levels[j], input)) {
        ClashBlocks(levels, request, input, out, b, running);
        if Shallow(levels, request, out) {
          ShallowIsFound(levels, request, out);
        }
      }
      return Aborted, input;
    }
    SaneIsComplete(levels, request, input, out, b, running);
    EverythingIsComplete(levels, request, out);
    var rest := input;
    NobodyIsBusy(levels, {});
    assert input - rest == {};
    while rest != {}
      invariant rest <= input
      invariant forall n :: n in input - rest ==> Exists(levels, n)
      invariant forall l :: 0 <= l < |levels| ==> NoneBusy(levels[l], input - rest)
      decreases rest
    {
      var n :| n in rest;
      var found, busy := FindFile(levels, n);
      if busy {
        BusyIsDeeper(levels, request, input, out, n);
        return Aborted, input;
      }
      if !found {
        MissingIsRequested(levels, request, out, n);
        return InvalidArgument, input;
      }
      OneMoreIdle(levels, input - rest, n);
      assert input - (rest - {n}) == input - rest + {n};
      rest := rest - {n};
    }
    assert input - rest == input;
    status := OK;
  }

  lemma NobodyIsBusy(levels: seq<seq<File>>, input: set<nat>)
    requires input == {}
    ensures forall l :: 0 <= l < |levels| ==> NoneBusy(levels[l], input)
  {
  }

  lemma OneMoreIdle(levels: seq<seq<File>>, input: set<nat>, n: nat)
    requires forall l :: 0 <= l < |levels| ==> NoneBusy(levels[l], input)
    requires forall l, f :: 0 <= l < |levels| && 0 <= f < |levels[l]| && levels[l][f].number == n ==> !levels[l][f].busy
    ensures forall l :: 0 <= l < |levels| ==> NoneBusy(levels[l], input + {n})
  {
    forall l | 0 <= l < |levels|
      ensures NoneBusy(levels[l], input + {n})
    {
      assert NoneBusy(levels[l], input);
    }
  }

  lemma MissingIsRequested(levels: seq<seq<File>>, request: set<nat>, out: nat, n: nat)
    requires out < |levels| && n in Everything(levels, request, out) && !Exists(levels, n)
    ensures n in request
  {
    EverythingIsComplete(levels, request, out);
  }

  /** A busy file, when none is down to level `out`, is one requested from below it. */
  lemma BusyIsDeeper(levels: seq<seq<File>>, request: set<nat>, input: set<nat>, out: nat, n: nat)
    requires out < |levels| && n in input && input <= Everything(levels, request, out)
    requires forall l, f :: 0 <= l < |levels| && 0 <= f < |levels[l]| && levels[l][f].number == n ==> levels[l][f].busy
    requires !HasBusy(levels, input, out) && Exists(levels, n)
    ensures n in request && IsBusy(levels, n) && !Shallow(levels, request, out)
  {
    EverythingIsComplete(levels, request, out);
    assert !ExistsDownTo(levels, out, n);
  }
}
