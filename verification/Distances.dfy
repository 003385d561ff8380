/** Longest uninstrumented distances over the sorted blocks: what the two dynamic programs of the
    pass compute, and why it is a maximum over paths. */
module Distances {
  import opened ControlFlow

  datatype InstStatus = Uninst | NormInst | LoopInst

  /** EdgeInstMap, CostMap and InstrumentedBB.  An edge without an entry is uninstrumented. */
  datatype Probes = Probes(edges: map<Edge, InstStatus>, blocks: set<Block>, cost: seq<int>)

  function Status(pr: Probes, u: Block, v: Block): InstStatus {
    if (u, v) in pr.edges then pr.edges[(u, v)] else Uninst
  }

  function Cost(pr: Probes, b: Block): int {
    if b < |pr.cost| then pr.cost[b] else 0
  }

  ghost predicate ValidProbes(g: Cfg, pr: Probes) {
    |pr.cost| == |g.succ| && forall b: Block :: Cost(pr, b) >= 0
  }

  /** A forward edge along which an uninstrumented path goes on. */
  predicate Carries(g: Cfg, pr: Probes, u: Block, v: Block) {
    Forward(g, u, v) && Status(pr, u, v) == Uninst && Cost(pr, u) > 0 && u !in pr.blocks
  }

  /** A path that meets no probe between its first and its last block. */
  ghost predicate Unbroken(g: Cfg, pr: Probes, p: seq<Block>) {
    && p != [] && Last(p) < |g.succ|
    && (|p| > 1 ==> Unbroken(g, pr, Init(p)) && Carries(g, pr, Last(Init(p)), Last(p)))
  }

  ghost function Total(pr: Probes, p: seq<Block>): int {
    if p == [] then 0 else Total(pr, Init(p)) + Cost(pr, Last(p))
  }

  lemma {:induction false} UnbrokenIsPath(g: Cfg, pr: Probes, p: seq<Block>)
    requires Unbroken(g, pr, p)
    ensures Path(g, p)
  {
    if |p| > 1 {
      UnbrokenIsPath(g, pr, Init(p));
    }
  }

  lemma TotalOfOne(pr: Probes, b: Block)
    ensures Total(pr, [b]) == Cost(pr, b)
  {
    assert Total(pr, Init([b])) == 0;
  }

  lemma ExtendUnbroken(g: Cfg, pr: Probes, p: seq<Block>, b: Block)
    requires ValidCfg(g) && Unbroken(g, pr, p) && Carries(g, pr, Last(p), b)
    ensures Unbroken(g, pr, p + [b]) && Total(pr, p + [b]) == Total(pr, p) + Cost(pr, b)
    ensures (p + [b])[0] == p[0] && Last(p + [b]) == b
  {
    assert Init(p + [b]) == p;
  }

  // ----- From anywhere

  /** An unbroken path that ends in `b` and starts in a sorted block. */
  ghost predicate Arrives(g: Cfg, pr: Probes, sorted: seq<Block>, p: seq<Block>, b: Block) {
    Unbroken(g, pr, p) && p[0] in sorted && Last(p) == b
  }

  /** `d` is the largest total over those paths. */
  ghost predicate IsLongest(g: Cfg, pr: Probes, sorted: seq<Block>, b: Block, d: int) {
    && (exists p :: Arrives(g, pr, sorted, p, b) && Total(pr, p) == d)
    && (forall p :: Arrives(g, pr, sorted, p, b) ==> Total(pr, p) <= d)
  }

  /** The entry of block `b` in the two maps is explained by its predecessor entry. */
  ghost predicate Explained(g: Cfg, pr: Probes, dist: map<Block, int>, prev: map<Block, Block>, b: Block) {
    && b in dist && b in prev
    && (if prev[b] == b then dist[b] == Cost(pr, b)
        else prev[b] in dist && Carries(g, pr, prev[b], b) && dist[b] == dist[prev[b]] + Cost(pr, b))
  }

  /** No edge out of `u` would lengthen a distance. */
  ghost predicate Relaxed(g: Cfg, pr: Probes, dist: map<Block, int>, u: Block) {
    u in dist && forall v: Block :: Forward(g, u, v) ==> RelaxedEdge(g, pr, dist, u, v)
  }

  ghost predicate RelaxedEdge(g: Cfg, pr: Probes, dist: map<Block, int>, u: Block, v: Block)
    requires u in dist
  {
    v in dist && (Carries(g, pr, u, v) ==> dist[v] >= dist[u] + Cost(pr, v))
  }

  /** The two maps when the predecessor entries come from `sorted[i..]` and no edge out of the
      blocks `sorted[k..]` would lengthen a distance. */
  ghost predicate Partial(g: Cfg, pr: Probes, sorted: seq<Block>, i: nat, k: nat, dist: map<Block, int>,
      prev: map<Block, Block>)
    requires i <= k <= |sorted|
  {
    && (forall b :: b in dist ==> b in sorted && Explained(g, pr, dist, prev, b) && dist[b] >= Cost(pr, b))
    && (forall b :: b in dist ==> prev[b] == b || prev[b] in sorted[i..])
    && (forall u :: u in sorted[k..] ==> Relaxed(g, pr, dist, u))
    && g.entry in dist
  }

  /** The outcome of the first dynamic program. */
  ghost predicate Solved(g: Cfg, pr: Probes, sorted: seq<Block>, dist: map<Block, int>, prev: map<Block, Block>) {
    && (forall b :: b in sorted <==> b in dist)
    && Partial(g, pr, sorted, 0, 0, dist, prev)
  }

  /** No unbroken path is longer than the distance computed for its end. */
  lemma {:induction false} SolvedIsUpperBound(g: Cfg, pr: Probes, sorted: seq<Block>, dist: map<Block, int>,
      prev: map<Block, Block>, p: seq<Block>)
    requires Solved(g, pr, sorted, dist, prev)
    requires Unbroken(g, pr, p) && p[0] in sorted
    ensures Last(p) in dist && Total(pr, p) <= dist[Last(p)]
    decreases |p|
  {
    if |p| == 1 {
      TotalOfOne(pr, p[0]);
      assert p == [p[0]];
    } else {
      SolvedIsUpperBound(g, pr, sorted, dist, prev, Init(p));
      assert sorted[0..] == sorted;
      assert Relaxed(g, pr, dist, Last(Init(p)));
      assert RelaxedEdge(g, pr, dist, Last(Init(p)), Last(p));
    }
  }

  /** And some unbroken path attains it: follow the predecessors. */
  lemma {:induction false} SolvedIsAttained(g: Cfg, pr: Probes, sorted: seq<Block>, dist: map<Block, int>,
      prev: map<Block, Block>, i: nat)
    returns (p: seq<Block>)
    requires ValidCfg(g) && TopoList(g, sorted) && Solved(g, pr, sorted, dist, prev) && i < |sorted|
    ensures Arrives(g, pr, sorted, p, sorted[i]) && sorted[i] in dist && Total(pr, p) == dist[sorted[i]]
    decreases |sorted| - i
  {
    var b := sorted[i];
    assert Explained(g, pr, dist, prev, b);
    if prev[b] == b {
      p := [b];
      TotalOfOne(pr, b);
    } else {
      var j := PredecessorIsLater(g, sorted, i, prev[b]);
      var q := SolvedIsAttained(g, pr, sorted, dist, prev, j);
      ExtendUnbroken(g, pr, q, b);
      p := q + [b];
    }
  }

  lemma PredecessorIsLater(g: Cfg, sorted: seq<Block>, i: nat, u: Block) returns (j: nat)
    requires TopoList(g, sorted) && i < |sorted| && u in sorted && Forward(g, u, sorted[i])
    ensures i < j < |sorted| && sorted[j] == u
  {
    j :| 0 <= j < |sorted| && sorted[j] == u;
    assert sorted[i] in sorted[..j];
  }

  lemma SolvedIsLongest(g: Cfg, pr: Probes, sorted: seq<Block>, dist: map<Block, int>, prev: map<Block, Block>,
      b: Block)
    requires ValidCfg(g) && TopoList(g, sorted) && Solved(g, pr, sorted, dist, prev) && b in sorted
    ensures b in dist && IsLongest(g, pr, sorted, b, dist[b])
  {
    var i :| 0 <= i < |sorted| && sorted[i] == b;
    var q := SolvedIsAttained(g, pr, sorted, dist, prev, i);
    forall p | Arrives(g, pr, sorted, p, b)
      ensures Total(pr, p) <= dist[b]
    {
      SolvedIsUpperBound(g, pr, sorted, dist, prev, p);
    }
  }

  ghost predicate IsMaximum(dist: map<Block, int>, maxBlock: Block, maxDist: int) {
    maxBlock in dist && dist[maxBlock] == maxDist && forall b :: b in dist ==> dist[b] <= maxDist
  }

  /** Later distances keep or raise earlier ones, and leave the blocks from position `i` on alone. */
  ghost predicate Raises(sorted: seq<Block>, i: nat, dist0: map<Block, int>, dist: map<Block, int>)
    requires i <= |sorted|
  {
    forall b :: b in dist0 ==> b in dist && dist[b] >= dist0[b] && (b in sorted[i..] ==> dist[b] == dist0[b])
  }

  /** Raising the entry of one block that comes before position `i`. */
  lemma RaiseKeepsPartial(g: Cfg, pr: Probes, sorted: seq<Block>, i: nat, dist: map<Block, int>,
      prev: map<Block, Block>, u: Block, v: Block, d: int, w: Block)
    requires TopoList(g, sorted) && i < |sorted| && sorted[i] == u && Forward(g, u, v)
    requires Partial(g, pr, sorted, i, i + 1, dist, prev) && u in dist && (v in dist ==> d > dist[v])
    requires d >= Cost(pr, v)
    requires if w == v then d == Cost(pr, v) else w == u && Carries(g, pr, u, v) && d == dist[u] + Cost(pr, v)
    ensures Partial(g, pr, sorted, i, i + 1, dist[v := d], prev[v := w])
    ensures Raises(sorted, i, dist, dist[v := d])
  {
    hide TopoList;
    SuccessorIsEarlier(g, sorted, i, v);
    var dist', prev' := dist[v := d], prev[v := w];
    assert u in sorted[i..];
    forall b | b in dist'
      ensures b in sorted && Explained(g, pr, dist', prev', b) && dist'[b] >= Cost(pr, b)
    {
      if b != v {
        assert Explained(g, pr, dist, prev, b);
      }
    }
    forall x | x in sorted[i + 1..]
      ensures Relaxed(g, pr, dist', x)
    {
      assert x in sorted[i..];
      RaiseKeepsRelaxed(g, pr, dist, x, v, d);
    }
  }

  lemma SuccessorIsEarlier(g: Cfg, sorted: seq<Block>, i: nat, v: Block)
    requires TopoList(g, sorted) && i < |sorted| && Forward(g, sorted[i], v)
    ensures v in sorted && v !in sorted[i..]
  {
    assert v in sorted[..i];
    var j :| 0 <= j < i && sorted[j] == v;
  }

  lemma RaiseKeepsRelaxed(g: Cfg, pr: Probes, dist: map<Block, int>, x: Block, v: Block, d: int)
    requires Relaxed(g, pr, dist, x) && x != v && (v in dist ==> d > dist[v])
    ensures Relaxed(g, pr, dist[v := d], x)
  {
    forall y: Block | Forward(g, x, y)
      ensures RelaxedEdge(g, pr, dist[v := d], x, y)
    {
      assert RelaxedEdge(g, pr, dist, x, y);
    }
  }

  /** Processes one edge out of the block `u` at position `i`. */
  method RelaxEdge(g: Cfg, pr: Probes, ghost sorted: seq<Block>, ghost i: nat, u: Block, v: Block,
                   dist0: map<Block, int>, prev0: map<Block, Block>, maxBlock0: Block, maxDist0: int)
    returns (dist: map<Block, int>, prev: map<Block, Block>, maxBlock: Block, maxDist: int)
    requires ValidCfg(g) && ValidProbes(g, pr) && TopoList(g, sorted) && i < |sorted| && sorted[i] == u
    requires u in dist0 && Forward(g, u, v) && Partial(g, pr, sorted, i, i + 1, dist0, prev0)
    requires IsMaximum(dist0, maxBlock0, maxDist0)
    ensures Partial(g, pr, sorted, i, i + 1, dist, prev) && IsMaximum(dist, maxBlock, maxDist)
    ensures u in dist && RelaxedEdge(g, pr, dist, u, v)
    ensures Raises(sorted, i, dist0, dist)
  {
    dist, prev, maxBlock, maxDist := dist0, prev0, maxBlock0, maxDist0;
    assert dist[u] >= Cost(pr, u);
    var d := Cost(pr, v);
    var propagate := false;
    if Status(pr, u, v) == Uninst && Cost(pr, u) > 0 && u !in pr.blocks {
      propagate := true;
      d := d + dist[u];
    }
    if v !in dist || d > dist[v] {
      RaiseKeepsPartial(g, pr, sorted, i, dist, prev, u, v, d, if propagate then u else v);
      dist := dist[v := d];
      prev := prev[v := if propagate then u else v];
      if d > maxDist {
        maxDist, maxBlock := d, v;
      }
    }
  }

  /** Processes the block at position `i`: all its forward edges. */
  method RelaxBlock(g: Cfg, pr: Probes, sorted: seq<Block>, i: nat,
                    dist0: map<Block, int>, prev0: map<Block, Block>, maxBlock0: Block, maxDist0: int)
    returns (dist: map<Block, int>, prev: map<Block, Block>, maxBlock: Block, maxDist: int)
    requires ValidCfg(g) && ValidProbes(g, pr) && Sorted(g, sorted) && i < |sorted|
    requires Partial(g, pr, sorted, i + 1, i + 1, dist0, prev0) && IsMaximum(dist0, maxBlock0, maxDist0)
    ensures Partial(g, pr, sorted, i, i, dist, prev) && IsMaximum(dist, maxBlock, maxDist)
  {
    hide Sorted, TopoList, Partial;
    var u := sorted[i];
    ReachedBefore(g, pr, sorted, i, dist0, prev0);
    WidenPartial(g, pr, sorted, i, dist0, prev0);
    dist, prev, maxBlock, maxDist := dist0, prev0, maxBlock0, maxDist0;
    var succ := g.succ[u];
    for j := 0 to |succ|
      invariant Partial(g, pr, sorted, i, i + 1, dist, prev) && IsMaximum(dist, maxBlock, maxDist) && u in dist
      invariant forall m :: 0 <= m < j && Forward(g, u, succ[m]) ==> RelaxedEdge(g, pr, dist, u, succ[m])
    {
      var v := succ[j];
      if (u, v) in g.back {
        continue;
      }
      ghost var before := dist;
      dist, prev, maxBlock, maxDist := RelaxEdge(g, pr, sorted, i, u, v, dist, prev, maxBlock, maxDist);
      assert u in sorted[i..];
      forall m | 0 <= m < j + 1 && Forward(g, u, succ[m])
        ensures RelaxedEdge(g, pr, dist, u, succ[m])
      {
        assert m < j ==> RelaxedEdge(g, pr, before, u, succ[m]);
      }
    }
    NarrowPartial(g, pr, sorted, i, dist, prev);
  }

  /** When a block is processed it has a distance: it is the entry or follows a processed block. */
  lemma ReachedBefore(g: Cfg, pr: Probes, sorted: seq<Block>, i: nat, dist: map<Block, int>, prev: map<Block, Block>)
    requires ValidCfg(g) && Sorted(g, sorted) && i < |sorted| && Partial(g, pr, sorted, i + 1, i + 1, dist, prev)
    ensures sorted[i] in dist && sorted[i] < |g.succ| && TopoList(g, sorted)
  {
    if sorted[i] != g.entry {
      var j := HasPredecessor(g, sorted, i);
      assert sorted[j] in sorted[i + 1..];
      assert Relaxed(g, pr, dist, sorted[j]);
      assert RelaxedEdge(g, pr, dist, sorted[j], sorted[i]);
    }
  }

  lemma WidenPartial(g: Cfg, pr: Probes, sorted: seq<Block>, i: nat, dist: map<Block, int>, prev: map<Block, Block>)
    requires i < |sorted| && Partial(g, pr, sorted, i + 1, i + 1, dist, prev)
    ensures Partial(g, pr, sorted, i, i + 1, dist, prev)
  {
    assert forall b :: b in sorted[i + 1..] ==> b in sorted[i..];
  }

  lemma NarrowPartial(g: Cfg, pr: Probes, sorted: seq<Block>, i: nat, dist: map<Block, int>, prev: map<Block, Block>)
    requires i < |sorted| && Partial(g, pr, sorted, i, i + 1, dist, prev) && Relaxed(g, pr, dist, sorted[i])
    ensures Partial(g, pr, sorted, i, i, dist, prev)
  {
    forall u | u in sorted[i..]
      ensures Relaxed(g, pr, dist, u)
    {
      assert u == sorted[i] || u in sorted[i + 1..];
    }
  }

  lemma StartPartial(g: Cfg, pr: Probes, sorted: seq<Block>)
    requires ValidCfg(g) && Sorted(g, sorted)
    ensures TopoList(g, sorted)
    ensures Partial(g, pr, sorted, |sorted|, |sorted|, map[g.entry := Cost(pr, g.entry)], map[g.entry := g.entry])
  {
    ReachesItself(g, g.entry);
  }

  lemma EndPartial(g: Cfg, pr: Probes, sorted: seq<Block>, dist: map<Block, int>, prev: map<Block, Block>)
    requires Partial(g, pr, sorted, 0, 0, dist, prev)
    ensures Solved(g, pr, sorted, dist, prev)
  {
    assert sorted[0..] == sorted;
    assert forall b :: b in sorted ==> Relaxed(g, pr, dist, b);
  }

  /** generateDistanceMap: for every sorted block the largest total over the unbroken paths that end
      there, a predecessor on such a path, and where the overall maximum is. */
  method GenerateDistanceMap(g: Cfg, pr: Probes, sorted: seq<Block>)
    returns (dist: map<Block, int>, prev: map<Block, Block>, maxBlock: Block, maxDist: int)
    requires ValidCfg(g) && ValidProbes(g, pr) && Sorted(g, sorted)
    ensures Solved(g, pr, sorted, dist, prev) && IsMaximum(dist, maxBlock, maxDist)
    ensures forall b :: b in sorted ==> b in dist && IsLongest(g, pr, sorted, b, dist[b])
  {
    hide Sorted, Partial, Solved, IsLongest;
    StartPartial(g, pr, sorted);
    dist, prev := map[g.entry := Cost(pr, g.entry)], map[g.entry := g.entry];
    maxDist, maxBlock := Cost(pr, g.entry), g.entry;
    var i := |sorted|;
    while i > 0
      invariant 0 <= i <= |sorted|
      invariant Partial(g, pr, sorted, i, i, dist, prev) && IsMaximum(dist, maxBlock, maxDist)
    {
      i := i - 1;
      dist, prev, maxBlock, maxDist := RelaxBlock(g, pr, sorted, i, dist, prev, maxBlock, maxDist);
    }
    EndPartial(g, pr, sorted, dist, prev);
    forall b | b in sorted
      ensures b in dist && IsLongest(g, pr, sorted, b, dist[b])
    {
      SolvedIsLongest(g, pr, sorted, dist, prev, b);
    }
  }
}
