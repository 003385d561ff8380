/** Compaction::KeyNotExistsBeyondOutputLevel: a search over the files of the levels beyond the
    output level that keeps one cursor per level between calls. */
module LevelCursors {
  import opened Records

  datatype File = File(smallest: UserKey, largest: UserKey)

  /** The part of a compaction that the search reads.  `levelStyle` says the compaction style is
      kCompactionStyleLevel. */
  datatype Layout = Layout(levels: seq<seq<File>>, outputLevel: nat, bottommost: bool, levelStyle: bool)

  /** Files of one level beyond level 0 are ordered; neighbours may share a boundary user key. */
  ghost predicate OrderedLevel(files: seq<File>) {
    && (forall i :: 0 <= i < |files| ==> files[i].smallest <= files[i].largest)
    && (forall i, j :: 0 <= i < j < |files| ==> files[i].largest <= files[j].smallest)
  }

  ghost predicate ValidLayout(c: Layout) {
    forall l :: c.outputLevel < l < |c.levels| ==> OrderedLevel(c.levels[l])
  }

  predicate Covers(f: File, k: UserKey) {
    f.smallest <= k <= f.largest
  }

  /** No file of the level has a range containing `k`. */
  ghost predicate LevelMisses(files: seq<File>, k: UserKey) {
    forall f :: f in files ==> !Covers(f, k)
  }

  /** The stateless answer. */
  ghost predicate NotBeyond(c: Layout, k: UserKey) {
    c.bottommost ||
    (c.outputLevel != 0 && c.levelStyle &&
     forall l :: c.outputLevel < l < |c.levels| ==> LevelMisses(c.levels[l], k))
  }

  /** Every file a cursor has passed ends before `k`. */
  ghost predicate CursorBehind(files: seq<File>, ptr: nat, k: UserKey) {
    ptr <= |files| && forall j :: 0 <= j < ptr ==> files[j].largest < k
  }

  ghost predicate CursorsBehind(c: Layout, ptrs: seq<nat>, k: UserKey) {
    && |ptrs| == |c.levels|
    && forall l :: 0 <= l < |c.levels| ==> CursorBehind(c.levels[l], ptrs[l], k)
  }

  /** Advances the cursor of one level to the first file that ends at or after `k`. */
  method AdvanceCursor(files: seq<File>, ptr: nat, k: UserKey) returns (found: bool, next: nat)
    requires OrderedLevel(files)
    requires CursorBehind(files, ptr, k)
    ensures ptr <= next && CursorBehind(files, next, k)
    ensures next < |files| ==> k <= files[next].largest
    ensures found <==> !LevelMisses(files, k)
  {
    next := ptr;
    while next < |files|
      invariant ptr <= next && CursorBehind(files, next, k)
    {
      var f := files[next];
      if k <= f.largest {
        if k >= f.smallest {
          assert Covers(f, k);
          return true, next;
        }
        return false, next;
      }
      next := next + 1;
    }
    return false, next;
  }

  method KeyNotExistsBeyondOutputLevel(c: Layout, k: UserKey, levelPtrs: seq<nat>) returns (r: bool, ptrs: seq<nat>)
    requires ValidLayout(c)
    requires CursorsBehind(c, levelPtrs, k)
    ensures r <==> NotBeyond(c, k)
    ensures CursorsBehind(c, ptrs, k)
  {
    ptrs := levelPtrs;
    if c.bottommost {
      return true, ptrs;
    } else if c.outputLevel != 0 && c.levelStyle {
      var lvl := c.outputLevel + 1;
      while lvl < |c.levels|
        invariant c.outputLevel < lvl
        invariant CursorsBehind(c, ptrs, k)
        invariant forall l :: c.outputLevel < l < lvl && l < |c.levels| ==> LevelMisses(c.levels[l], k)
      {
        var found, next := AdvanceCursor(c.levels[lvl], ptrs[lvl], k);
        ptrs := ptrs[lvl := next];
        if found {
          return false, ptrs;
        }
        lvl := lvl + 1;
      }
      return true, ptrs;
    }
    return false, ptrs;
  }

  /** Any run of queries for non-decreasing keys that shares one vector of cursors, all zero at the
      start, gets the stateless answers. */
  method QueryAscending(c: Layout, keys: seq<UserKey>) returns (answers: seq<bool>)
    requires ValidLayout(c)
    requires forall i, j :: 0 <= i < j < |keys| ==> keys[i] <= keys[j]
    ensures |answers| == |keys|
    ensures forall i :: 0 <= i < |keys| ==> (answers[i] <==> NotBeyond(c, keys[i]))
  {
    var ptrs: seq<nat> := seq(|c.levels|, i => 0);
    answers := [];
    for i := 0 to |keys|
      invariant |answers| == i
      invariant i < |keys| ==> CursorsBehind(c, ptrs, keys[i])
      invariant forall j :: 0 <= j < i ==> (answers[j] <==> NotBeyond(c, keys[j]))
    {
      var r;
      r, ptrs := KeyNotExistsBeyondOutputLevel(c, keys[i], ptrs);
      answers := answers + [r];
    }
  }
}
