/** The rest of the pass: block probes, loop probes, and the pass as a whole. */
module ProbePass {
  import opened Arithmetic
  import opened ControlFlow
  import opened TopoSort
  import opened Distances
  import opened DistancesFrom
  import opened CallDistances
  import opened BlockProbes
  import opened StretchBounds
  import opened StretchLimits
  import opened ProbePlacement
  import opened GreedyCuts
  import opened GreedyLoops

  // ----- Block probes

  predicate AllEdgesProbed(g: Cfg, pr: Probes, b: Block)
    requires b < |g.succ|
  {
    forall i :: 0 <= i < |g.succ[b]| ==> Status(pr, b, g.succ[b][i]) != Uninst
  }

  /** A probe that control passes when it takes the edge: on the edge or at the end of its source. */
  predicate Probed(pr: Probes, u: Block, v: Block) {
    Status(pr, u, v) != Uninst || u in pr.blocks
  }

  /** The edges that pass a probe are the same, before and after. */
  ghost predicate SameProbed(g: Cfg, pr: Probes, pr': Probes) {
    && pr'.cost == pr.cost
    && forall u: Block, v: Block :: IsEdge(g, u, v) ==> (Probed(pr', u, v) <==> Probed(pr, u, v))
  }

  method ClearEdges(g: Cfg, pr0: Probes, b: Block) returns (pr: Probes)
    requires b < |g.succ|
    ensures pr.blocks == pr0.blocks && pr.cost == pr0.cost
    ensures forall u, v :: Status(pr, u, v) == if u == b && v in g.succ[b] then Uninst else Status(pr0, u, v)
  {
    pr := pr0;
    ghost var done: set<Block> := {};
    for i := 0 to |g.succ[b]|
      invariant pr.blocks == pr0.blocks && pr.cost == pr0.cost
      invariant done == set j | 0 <= j < i :: g.succ[b][j]
      invariant forall u, v :: Status(pr, u, v) == if u == b && v in done then Uninst else Status(pr0, u, v)
    {
      var v := g.succ[b][i];
      ghost var before := pr;
      pr := pr.(edges := pr.edges[(b, v) := Uninst]);
      done := done + {v};
      forall x, y
        ensures Status(pr, x, y) == if x == b && y in done then Uninst else Status(pr0, x, y)
      {
        assert (x, y) != (b, v) ==> Status(pr, x, y) == Status(before, x, y);
      }
    }
  }

  /** Step (1) of insertProbes: a block all of whose edges (two or more) carry a probe gets one probe
      instead.  Control passes a probe on exactly the same edges as before. */
  method MergeIntoBlockProbes(g: Cfg, pr0: Probes) returns (pr: Probes)
    requires ValidCfg(g) && pr0.blocks == {}
    ensures SameProbed(g, pr0, pr)
    ensures forall u, v :: Status(pr, u, v) == Status(pr0, u, v) || (u in pr.blocks && Status(pr, u, v) == Uninst)
    ensures forall u, v :: u in pr.blocks && IsEdge(g, u, v) ==> Status(pr, u, v) == Uninst
    ensures forall b: Block :: b in pr.blocks <==> b < |g.succ| && |g.succ[b]| >= 2 && AllEdgesProbed(g, pr0, b)
  {
    pr := pr0;
    for b := 0 to |g.succ|
      invariant SameProbed(g, pr0, pr) && forall x :: x in pr.blocks ==> x < b
      invariant forall u, v :: Status(pr, u, v) == Status(pr0, u, v) || (u in pr.blocks && Status(pr, u, v) == Uninst)
      invariant forall u, v :: u in pr.blocks && IsEdge(g, u, v) ==> Status(pr, u, v) == Uninst
      invariant forall x: Block :: x < b ==> (x in pr.blocks <==> |g.succ[x]| >= 2 && AllEdgesProbed(g, pr0, x))
    {
      assert forall v :: Status(pr, b, v) == Status(pr0, b, v);
      if |g.succ[b]| >= 2 && AllEdgesProbed(g, pr, b) {
        assert b !in pr.blocks;
        ghost var before := pr;
        pr := ClearEdges(g, pr, b);
        pr := pr.(blocks := pr.blocks + {b});
        MergeKeepsProbed(g, before, pr, b);
      }
    }
  }

  lemma MergeKeepsProbed(g: Cfg, pr: Probes, pr': Probes, b: Block)
    requires b < |g.succ| && AllEdgesProbed(g, pr, b) && pr'.cost == pr.cost && pr'.blocks == pr.blocks + {b}
    requires forall u, v :: Status(pr', u, v) == if u == b && v in g.succ[b] then Uninst else Status(pr, u, v)
    ensures SameProbed(g, pr, pr')
  {
    forall u: Block, v: Block | IsEdge(g, u, v)
      ensures Probed(pr', u, v) <==> Probed(pr, u, v)
    {
      if u == b {
        var i :| 0 <= i < |g.succ[b]| && g.succ[b][i] == v;
      }
    }
  }

  lemma SameProbedCarriesLess(g: Cfg, pr: Probes, pr': Probes)
    requires SameProbed(g, pr, pr')
    ensures NoMoreCarries(g, pr, pr')
  {
    forall u, v | Carries(g, pr', u, v)
      ensures Carries(g, pr, u, v)
    {
      assert Probed(pr', u, v) <==> Probed(pr, u, v);
    }
  }

  // ----- Loop probes

  /** Control meets a probe on the way along `p`: on an edge, in a block, or inside a block whose
      cost was set to zero because it is probed within. */
  ghost predicate MeetsProbe(pr: Probes, p: seq<Block>) {
    || (exists i :: 0 <= i < |p| && Cost(pr, p[i]) == 0)
    || (exists i :: 0 <= i < |p| - 1 && Probed(pr, p[i], p[i + 1]))
  }

  lemma ProbeInPrefix(pr: Probes, p: seq<Block>)
    requires |p| > 1 && MeetsProbe(pr, Init(p))
    ensures MeetsProbe(pr, p)
  {
    var q := Init(p);
    if i :| 0 <= i < |q| && Cost(pr, q[i]) == 0 {
      assert Cost(pr, p[i]) == 0;
    } else {
      var i :| 0 <= i < |q| - 1 && Probed(pr, q[i], q[i + 1]);
      assert Probed(pr, p[i], p[i + 1]);
    }
  }

  /** A path that meets no probe is unbroken. */
  lemma {:induction false} ProbeOrUnbroken(g: Cfg, pr: Probes, p: seq<Block>)
    requires ValidProbes(g, pr) && Path(g, p)
    ensures MeetsProbe(pr, p) || (Connects(g, pr, p, p[0], Last(p)) && Total(pr, p) > 0)
    decreases |p|
  {
    if Cost(pr, Last(p)) != 0 {
      if |p| == 1 {
        TotalOfOne(pr, p[0]);
        assert p == [p[0]];
      } else {
        ProbeOrUnbroken(g, pr, Init(p));
        if MeetsProbe(pr, Init(p)) {
          ProbeInPrefix(pr, p);
        } else {
          assert Init(p)[|p| - 2] == p[|p| - 2];
          assert Probed(pr, p[|p| - 2], p[|p| - 1]) ==> MeetsProbe(pr, p);
        }
      }
    }
  }

  /** The number of iterations between two probes of a loop. */
  function NumIters(interval: int, loopCost: int, calls: int, callThreshold: int): (n: int)
    requires 0 < loopCost <= interval && callThreshold >= 0
    ensures n >= 1 && n * loopCost <= interval && (n == 1 || n * calls <= callThreshold)
    ensures forall m :: m > n ==> m * loopCost > interval || m * calls > callThreshold
  {
    var n := interval / loopCost;
    DivIsLargest(interval, loopCost);
    if calls > 0 then
      DivIsLargest(callThreshold, calls);
      var byCalls := if callThreshold / calls == 0 then 1 else callThreshold / calls;
      MulMonotonic(n, byCalls, loopCost);
      MulMonotonic(byCalls, n, calls);
      if n <= byCalls then n else byCalls
    else n
  }

  /** What the pass leaves at a back edge. */
  datatype LoopProbe = Cancelled | Every(iterations: int, loopCost: int, calls: int)

  /** What bounds the iterations between two probes of a loop. */
  datatype Limits = Limits(interval: int, callThreshold: int, counts: seq<int>)

  predicate IsRate(limits: Limits, n: int, cost: int, calls: int) {
    && n >= 1 && cost > 0 && n * cost <= limits.interval && (n == 1 || n * calls <= limits.callThreshold)
    && ((n + 1) * cost > limits.interval || (n + 1) * calls > limits.callThreshold)
  }

  /** A back edge whose latch has a block probe, whose loop is probed within, or that is probed every
      so many iterations, the most that cost no more than the interval and, unless it is one, call no
      more functions than the threshold. */
  ghost predicate LoopIsProbed(g: Cfg, pr: Probes, e: Edge, loops: map<Edge, LoopProbe>, limits: Limits) {
    if e !in loops then e.0 in pr.blocks
    else match loops[e]
      case Cancelled => forall p :: PathBetween(g, p, e.1, e.0) ==> MeetsProbe(pr, p)
      case Every(n, cost, calls) =>
        && IsRate(limits, n, cost, calls)
        && IsLongestFrom(g, pr, e.1, e.0, cost) && IsMostCalls(g, pr, limits.counts, e.1, e.0, calls)
  }

  lemma ZeroMeetsProbe(g: Cfg, pr: Probes, a: Block, b: Block)
    requires ValidProbes(g, pr) && IsLongestFrom(g, pr, a, b, 0)
    ensures forall p :: PathBetween(g, p, a, b) ==> MeetsProbe(pr, p)
  {
    forall p | PathBetween(g, p, a, b)
      ensures MeetsProbe(pr, p)
    {
      ProbeOrUnbroken(g, pr, p);
    }
  }

  /** One trip round a loop costs at most the interval: it is an unbroken path. */
  lemma LoopCostIsBounded(g: Cfg, pr: Probes, sorted: seq<Block>, a: Block, b: Block, d: int, limit: int)
    requires Bounded(g, pr, sorted, limit) && a in sorted && IsLongestFrom(g, pr, a, b, d) && d > 0
    ensures d <= limit
  {
    var p :| Connects(g, pr, p, a, b) && Total(pr, p) == d;
    assert Arrives(g, pr, sorted, p, b);
  }

  lemma RateOf(limits: Limits, n: int, cost: int, calls: int)
    requires 0 < cost <= limits.interval && limits.callThreshold >= 0
    requires n == NumIters(limits.interval, cost, calls, limits.callThreshold)
    ensures IsRate(limits, n, cost, calls)
  {
  }

  /** Step (3) of insertProbes: the cost of each loop that still has a probe on its back edge, and
      from it how often to probe, or that no probe is needed. */
  method PlaceLoopProbes(g: Cfg, pr: Probes, sorted: seq<Block>, backEdges: seq<Edge>, limits: Limits)
    returns (loops: map<Edge, LoopProbe>)
    requires ValidCfg(g) && ValidProbes(g, pr) && TopoList(g, sorted) && Bounded(g, pr, sorted, limits.interval)
    requires limits.callThreshold >= 0
    requires forall e :: e in backEdges ==> e.1 in sorted
    ensures forall e :: e in backEdges && Status(pr, e.0, e.1) != Uninst ==> e in loops
    ensures forall e :: e in loops ==> LoopIsProbed(g, pr, e, loops, limits) && Status(pr, e.0, e.1) != Uninst
  {
    hide TopoList, Bounded, IsLongestFrom, IsMostCalls, SolvedFrom, MeetsProbe, IsRate;
    loops := map[];
    for i := 0 to |backEdges|
      invariant forall j :: 0 <= j < i && Status(pr, backEdges[j].0, backEdges[j].1) != Uninst ==> backEdges[j] in loops
      invariant forall e :: e in loops ==> LoopIsProbed(g, pr, e, loops, limits) && Status(pr, e.0, e.1) != Uninst
    {
      var e := backEdges[i];
      if Status(pr, e.0, e.1) == Uninst {
        continue;
      }
      var dist, _ := LongestDistanceFrom(g, pr, sorted, e.1);
      var cost := Lookup(dist, e.0);
      assert IsLongestFrom(g, pr, e.1, e.0, cost);
      DistanceIsNatural(g, pr, e.1, e.0, cost);
      ghost var before := loops;
      if cost == 0 {
        ZeroMeetsProbe(g, pr, e.1, e.0);
        loops := loops[e := Cancelled];
      } else {
        LoopCostIsBounded(g, pr, sorted, e.1, e.0, cost, limits.interval);
        var numbers := MostCallsFrom(g, pr, limits.counts, sorted, e.1);
        var calls := Lookup(numbers, e.0);
        var n := NumIters(limits.interval, cost, calls, limits.callThreshold);
        RateOf(limits, n, cost, calls);
        loops := loops[e := Every(n, cost, calls)];
      }
      forall x | x in loops
        ensures LoopIsProbed(g, pr, x, loops, limits)
      {
        assert x != e ==> LoopIsProbed(g, pr, x, before, limits);
      }
    }
  }

  lemma DistanceIsNatural(g: Cfg, pr: Probes, a: Block, b: Block, d: int)
    requires IsLongestFrom(g, pr, a, b, d)
    ensures d >= 0
  {
  }

  // ----- The pass

  /** populateEdgeInstMap: nothing is probed but the back edges. */
  method StartEdges(g: Cfg, backEdges: seq<Edge>) returns (edges: map<Edge, InstStatus>)
    ensures forall e :: e in backEdges ==> e in edges && edges[e] == LoopInst
    ensures forall e :: e in edges ==> e in backEdges
  {
    edges := map[];
    for i := 0 to |backEdges|
      invariant forall j :: 0 <= j < i ==> backEdges[j] in edges
      invariant forall e :: e in edges ==> e in backEdges && edges[e] == LoopInst
    {
      edges := edges[backEdges[i] := LoopInst];
    }
  }

  /** Takes the probes of cancelled back edges away again. */
  method CancelBackEdges(pr0: Probes, backEdges: seq<Edge>, loops: map<Edge, LoopProbe>) returns (pr: Probes)
    ensures pr.cost == pr0.cost && pr.blocks == pr0.blocks
    ensures forall u: Block, v: Block ::
              Status(pr, u, v) == Status(pr0, u, v) ||
              ((u, v) in backEdges && (u, v) in loops && loops[(u, v)] == Cancelled)
    ensures forall e :: e in backEdges && e in loops && loops[e] == Cancelled ==> Status(pr, e.0, e.1) == Uninst
  {
    pr := pr0;
    for i := 0 to |backEdges|
      invariant pr.cost == pr0.cost && pr.blocks == pr0.blocks
      invariant forall u: Block, v: Block ::
                  Status(pr, u, v) == Status(pr0, u, v) ||
                  ((u, v) in backEdges && (u, v) in loops && loops[(u, v)] == Cancelled)
      invariant forall j :: 0 <= j < i && backEdges[j] in loops && loops[backEdges[j]] == Cancelled ==>
                  Status(pr, backEdges[j].0, backEdges[j].1) == Uninst
    {
      var e := backEdges[i];
      if e in loops && loops[e] == Cancelled {
        pr := pr.(edges := pr.edges[(e.0, e.1) := Uninst]);
      }
    }
  }

  /** The placements agree on everything that forward paths depend on. */
  ghost predicate AgreeForward(g: Cfg, pr: Probes, pr': Probes) {
    pr'.cost == pr.cost && pr'.blocks == pr.blocks &&
    forall u, v :: Forward(g, u, v) ==> Status(pr', u, v) == Status(pr, u, v)
  }

  lemma {:induction false} AgreeOnUnbroken(g: Cfg, pr: Probes, pr': Probes, p: seq<Block>)
    requires AgreeForward(g, pr, pr')
    ensures Unbroken(g, pr, p) <==> Unbroken(g, pr', p)
    ensures Total(pr, p) == Total(pr', p)
    decreases |p|
  {
    if p != [] {
      AgreeOnUnbroken(g, pr, pr', Init(p));
    }
  }

  lemma {:induction false} AgreeOnMeetsProbe(g: Cfg, pr: Probes, pr': Probes, p: seq<Block>)
    requires AgreeForward(g, pr, pr') && Path(g, p) && MeetsProbe(pr, p)
    ensures MeetsProbe(pr', p)
    decreases |p|
  {
    if i :| 0 <= i < |p| && Cost(pr, p[i]) == 0 {
      assert Cost(pr', p[i]) == 0;
    } else {
      var i :| 0 <= i < |p| - 1 && Probed(pr, p[i], p[i + 1]);
      ForwardOnPath(g, p, i);
      assert Probed(pr', p[i], p[i + 1]);
    }
  }

  lemma AgreeOnLoops(g: Cfg, pr: Probes, pr': Probes, e: Edge, loops: map<Edge, LoopProbe>, limits: Limits)
    requires AgreeForward(g, pr, pr') && LoopIsProbed(g, pr, e, loops, limits)
    ensures LoopIsProbed(g, pr', e, loops, limits)
  {
    if e in loops {
      match loops[e]
      case Cancelled =>
        forall p | PathBetween(g, p, e.1, e.0)
          ensures MeetsProbe(pr', p)
        {
          AgreeOnMeetsProbe(g, pr, pr', p);
        }
      case Every(n, cost, calls) =>
        AgreeOnMostCalls(g, pr, pr', limits.counts, e.1, e.0, calls);
        var q :| Connects(g, pr, q, e.1, e.0) && Total(pr, q) == cost;
        AgreeOnUnbroken(g, pr, pr', q);
        assert Connects(g, pr', q, e.1, e.0);
        forall p | Connects(g, pr', p, e.1, e.0)
          ensures Total(pr', p) <= cost
        {
          AgreeOnUnbroken(g, pr, pr', p);
          assert Connects(g, pr, p, e.1, e.0);
        }
    }
  }

  /** analyzeAndInstrFunc, for a function whose forward edges form no cycle.  In the result
      - every path of forward edges that meets no probe costs at most the commit interval;
      - every such path from the entry to a return costs at most `endToEnd`, or is the entry alone;
      - every loop is probed: at its latch, within, or every so many iterations, the most that cost
        at most the commit interval and call no more functions than the threshold;
      - every probe on a forward edge cuts a longest path that was too long at an earlier placement;
      - the blocks that reach the commit interval are probed within, so that instructions worth at
        most three times the interval run between two probes. */
  method PlaceProbes(g: Cfg, exits: set<Block>, code: seq<seq<nat>>, calls: seq<seq<Call>>, interval: int,
                     endToEnd: int, backEdges: seq<Edge>, callThreshold: nat)
    returns (pr: Probes, loops: map<Edge, LoopProbe>, within: seq<seq<nat>>, counts: seq<int>)
    requires ValidCfg(g) && |code| == |calls| == |g.succ| && interval > 0 && endToEnd >= 0
    requires !CyclicFrom(g, g.entry)
    requires forall e :: e in backEdges <==> e in g.back
    requires forall e :: e in g.back ==> e.0 < |g.succ| && e.1 < |g.succ| && Reaches(g, g.entry, e.1)
    ensures AreCosts(code, interval, pr.cost) && AreCounts(calls, counts)
    ensures PathsBounded(g, pr, interval) && BoundedEndToEnd(g, pr, exits, endToEnd)
    ensures forall e :: e in g.back ==> LoopIsProbed(g, pr, e, loops, Limits(interval, callThreshold, counts))
    ensures forall e :: e in g.back && e in loops && loops[e].Every? ==> Status(pr, e.0, e.1) == LoopInst
    ensures AreWithin(code, interval, pr.cost, within) && Merged(g, pr)
    ensures AllNeeded(g, pr, exits, endToEnd, interval)
    ensures |within| == |code| && (Terminated(code) ==> StretchFacts(g, pr, code, within, interval))
    ensures var none := Probes(map[], {}, pr.cost);
            PathsBounded(g, none, interval) && WithinEndToEnd(g, none, exits, endToEnd) ==> Untouched(g, pr)
  {
    hide TopoList, Bounded, BoundedEndToEnd, LoopIsProbed, CyclicFrom, AgreeForward, NoMoreCarries, PathsBounded;
    hide AreCosts, AreCounts, AreWithin, Merged, Untouched, WithinEndToEnd, StretchFacts, AllNeeded;
    var costs := CostMap(code, interval);
    var ok, sorted := RunToposort(g);
    ReachesItself(g, g.entry);
    var pr3 := PlaceForward(g, exits, code, costs, interval, endToEnd, backEdges, sorted);
    CostsAreNatural(g, code, interval, pr3);
    counts := CallCostMap(calls);
    var limits := Limits(interval, callThreshold, counts);
    loops := PlaceLoopProbes(g, pr3, sorted, backEdges, limits);
    pr := CancelBackEdges(pr3, backEdges, loops);
    CancelAgrees(g, pr3, pr, backEdges);
    CancelKeepsMerged(g, pr3, pr, backEdges);
    CancelKeepsNeeded(g, pr3, pr, exits, endToEnd, interval);
    BoundedStays(g, pr3, pr, sorted, interval);
    BoundedEndToEndStays(g, pr3, pr, exits, endToEnd);
    BoundedMeansPaths(g, pr, sorted, interval);
    forall e | e in g.back
      ensures LoopIsProbed(g, pr, e, loops, limits)
    {
      LatchProbed(g, pr3, e, loops, limits);
      AgreeOnLoops(g, pr3, pr, e, loops, limits);
    }
    within := ProbeLargeBlocks(code, interval, pr.cost);
    PlacedBoundsStretches(g, pr, code, within, interval);
  }

  /** The pass up to step (1) of insertProbes: the two greedy loops, then block probes. */
  method PlaceForward(g: Cfg, exits: set<Block>, ghost code: seq<seq<nat>>, costs: seq<int>, interval: int,
                      endToEnd: int, backEdges: seq<Edge>, sorted: seq<Block>)
    returns (pr: Probes)
    requires ValidCfg(g) && Sorted(g, sorted) && TopoList(g, sorted) && interval > 0 && endToEnd >= 0
    requires |code| == |g.succ| && AreCosts(code, interval, costs)
    requires forall e :: e in backEdges <==> e in g.back
    requires g.entry in sorted
    ensures pr.cost == costs && Bounded(g, pr, sorted, interval) && BoundedEndToEnd(g, pr, exits, endToEnd)
    ensures Merged(g, pr) && AllNeeded(g, pr, exits, endToEnd, interval)
    ensures forall e :: e in g.back ==>
              Status(pr, e.0, e.1) == LoopInst || (Status(pr, e.0, e.1) == Uninst && e.0 in pr.blocks)
    ensures var none := Probes(map[], {}, costs);
            PathsBounded(g, none, interval) && WithinEndToEnd(g, none, exits, endToEnd) ==> Untouched(g, pr)
  {
    hide TopoList, Sorted, Bounded, BoundedEndToEnd, NoMoreCarries, PathsBounded, WithinEndToEnd, Merged, Untouched;
    hide AreCosts, OnlyAdds, SameProbed, EndToEndStep, AnywhereStep, AllNeeded;
    var edges := StartEdges(g, backEdges);
    var pr0 := Probes(edges, {}, costs);
    CostsAreNatural(g, code, interval, pr0);
    var pr1, first := BoundEndToEnd(g, pr0, sorted, exits, endToEnd);
    OnlyAddsFacts(g, pr0, pr1);
    CostsAreNatural(g, code, interval, pr1);
    var pr2, second := BoundDistances(g, pr1, sorted, interval);
    OnlyAddsFacts(g, pr1, pr2);
    OnlyAddsCarriesLess(g, pr1, pr2);
    BoundedEndToEndStays(g, pr1, pr2, exits, endToEnd);
    pr := MergeIntoBlockProbes(g, pr2);
    MergeGives(g, pr2, pr);
    SameProbedCarriesLess(g, pr2, pr);
    BoundedStays(g, pr2, pr, sorted, interval);
    BoundedEndToEndStays(g, pr2, pr, exits, endToEnd);
    ChainsAreNeeded(g, first, second, pr, exits, endToEnd, interval);
    NothingToDo(g, pr0, exits, sorted, interval, endToEnd);
    if pr2 == pr0 {
      StaysUntouched(g, pr0, pr);
    }
  }

  /** A placement before block probes that has no probe which `pr` does not have. */
  ghost predicate Earlier(g: Cfg, q: Probes, pr: Probes) {
    && q.cost == pr.cost && q.blocks == {}
    && forall x: Block, y: Block :: Forward(g, x, y) && Status(q, x, y) != Uninst ==> Probed(pr, x, y)
  }

  /** Why the greedy loops put a probe on an edge at placement `q`. */
  ghost predicate HasReason(g: Cfg, q: Probes, exits: set<Block>, endToEnd: int, interval: int, u: Block, v: Block) {
    || EndToEndCut(g, q, exits, endToEnd, u, v)
    || (u == g.entry && LargeEntry(g, q, exits, endToEnd))
    || AnywhereCut(g, q, interval, u, v)
  }

  ghost predicate IsNeeded(g: Cfg, pr: Probes, exits: set<Block>, endToEnd: int, interval: int, u: Block, v: Block) {
    exists q :: Earlier(g, q, pr) && HasReason(g, q, exits, endToEnd, interval, u, v)
  }

  /** No forward edge is probed without a reason. */
  ghost predicate AllNeeded(g: Cfg, pr: Probes, exits: set<Block>, endToEnd: int, interval: int) {
    forall u: Block, v: Block ::
      Forward(g, u, v) && Probed(pr, u, v) ==> IsNeeded(g, pr, exits, endToEnd, interval, u, v)
  }

  lemma ReasonIsNeeded(g: Cfg, q: Probes, pr2: Probes, pr: Probes, exits: set<Block>, endToEnd: int, interval: int,
      u: Block, v: Block)
    requires OnlyAdds(q, pr2) && pr2.blocks == {} && SameProbed(g, pr2, pr)
    requires HasReason(g, q, exits, endToEnd, interval, u, v)
    ensures IsNeeded(g, pr, exits, endToEnd, interval, u, v)
  {
    hide HasReason;
    forall x: Block, y: Block | Forward(g, x, y) && Status(q, x, y) != Uninst
      ensures Probed(pr, x, y)
    {
      assert Status(pr2, x, y) == Status(q, x, y);
      assert Probed(pr2, x, y);
    }
    assert Earlier(g, q, pr);
  }

  lemma ChainsAreNeeded(g: Cfg, first: seq<Probes>, second: seq<Probes>, pr: Probes, exits: set<Block>, endToEnd: int,
      interval: int)
    requires EndToEndChain(g, first, exits, endToEnd) && AnywhereChain(g, second, interval)
    requires first[|first| - 1] == second[0] && first[0].blocks == {} && second[|second| - 1].blocks == {}
    requires forall e :: e in first[0].edges ==> e in g.back
    requires SameProbed(g, second[|second| - 1], pr)
    ensures AllNeeded(g, pr, exits, endToEnd, interval)
  {
    hide EndToEndStep, AnywhereStep, OnlyAdds, EndToEndCut, LargeEntry, AnywhereCut, IsNeeded;
    var pr0, pr1, pr2 := first[0], second[0], second[|second| - 1];
    forall u: Block, v: Block | Forward(g, u, v) && Probed(pr, u, v)
      ensures IsNeeded(g, pr, exits, endToEnd, interval, u, v)
    {
      assert Probed(pr2, u, v);
      assert Status(pr0, u, v) == Uninst;
      EndToEndReason(g, first, exits, endToEnd, u, v);
      AnywhereReason(g, second, interval, u, v);
      if Status(pr1, u, v) != Uninst {
        var q :| OnlyAdds(pr0, q) && OnlyAdds(q, pr1) &&
          (EndToEndCut(g, q, exits, endToEnd, u, v) || (u == g.entry && LargeEntry(g, q, exits, endToEnd)));
        OnlyAddsTransitive(q, pr1, pr2);
        ReasonIsNeeded(g, q, pr2, pr, exits, endToEnd, interval, u, v);
      } else {
        var q :| OnlyAdds(pr1, q) && OnlyAdds(q, pr2) && AnywhereCut(g, q, interval, u, v);
        ReasonIsNeeded(g, q, pr2, pr, exits, endToEnd, interval, u, v);
      }
    }
  }

  lemma CancelKeepsNeeded(g: Cfg, pr: Probes, pr': Probes, exits: set<Block>, endToEnd: int, interval: int)
    requires AgreeForward(g, pr, pr') && AllNeeded(g, pr, exits, endToEnd, interval)
    ensures AllNeeded(g, pr', exits, endToEnd, interval)
  {
    hide HasReason;
    forall u: Block, v: Block | Forward(g, u, v) && Probed(pr', u, v)
      ensures IsNeeded(g, pr', exits, endToEnd, interval, u, v)
    {
      assert Probed(pr, u, v);
      var q :| Earlier(g, q, pr) && HasReason(g, q, exits, endToEnd, interval, u, v);
      assert Earlier(g, q, pr');
    }
  }

  lemma OnlyAddsFacts(g: Cfg, pr: Probes, pr': Probes)
    requires OnlyAdds(pr, pr')
    ensures pr'.cost == pr.cost && pr'.blocks == pr.blocks
    ensures forall u, v :: Status(pr, u, v) == LoopInst ==> Status(pr', u, v) == LoopInst
  {
    forall u, v | Status(pr, u, v) == LoopInst
      ensures Status(pr', u, v) == LoopInst
    {
      assert Status(pr', u, v) == Status(pr, u, v) || Status(pr, u, v) == Uninst;
    }
  }

  lemma MergeGives(g: Cfg, pr: Probes, pr': Probes)
    requires SameProbed(g, pr, pr')
    requires forall u, v :: Status(pr', u, v) == Status(pr, u, v) || (u in pr'.blocks && Status(pr', u, v) == Uninst)
    requires forall u, v :: u in pr'.blocks && IsEdge(g, u, v) ==> Status(pr', u, v) == Uninst
    requires forall b: Block :: b in pr'.blocks <==> b < |g.succ| && |g.succ[b]| >= 2 && AllEdgesProbed(g, pr, b)
    ensures pr'.cost == pr.cost && Merged(g, pr')
  {
    forall b | 0 <= b < |g.succ| && |g.succ[b]| >= 2 && b !in pr'.blocks
      ensures exists v :: v in g.succ[b] && Status(pr', b, v) == Uninst
    {
      var i :| 0 <= i < |g.succ[b]| && Status(pr, b, g.succ[b][i]) == Uninst;
      assert g.succ[b][i] in g.succ[b];
    }
  }

  lemma CancelKeepsMerged(g: Cfg, pr: Probes, pr': Probes, backEdges: seq<Edge>)
    requires Merged(g, pr) && pr'.cost == pr.cost && pr'.blocks == pr.blocks
    requires forall u: Block, v: Block :: Status(pr', u, v) == Status(pr, u, v) || Status(pr', u, v) == Uninst
    ensures Merged(g, pr') && (Untouched(g, pr) ==> Untouched(g, pr'))
  {
    forall b | 0 <= b < |g.succ| && |g.succ[b]| >= 2 && b !in pr'.blocks
      ensures exists v :: v in g.succ[b] && Status(pr', b, v) == Uninst
    {
      var v :| v in g.succ[b] && Status(pr, b, v) == Uninst;
      assert Status(pr', b, v) == Uninst;
    }
  }

  /** No forward edge has a probe, on it or in the block before. */
  ghost predicate Untouched(g: Cfg, pr: Probes) {
    forall u, v :: Forward(g, u, v) ==> Status(pr, u, v) == Uninst && u !in pr.blocks
  }

  lemma StaysUntouched(g: Cfg, pr0: Probes, pr: Probes)
    requires forall e :: e in pr0.edges ==> e in g.back
    requires forall u, v :: Status(pr, u, v) == Status(pr0, u, v) || (u in pr.blocks && Status(pr, u, v) == Uninst)
    requires forall b: Block :: b in pr.blocks <==> b < |g.succ| && |g.succ[b]| >= 2 && AllEdgesProbed(g, pr0, b)
    ensures Untouched(g, pr)
  {
    forall u: Block, v: Block | Forward(g, u, v)
      ensures Status(pr, u, v) == Uninst && u !in pr.blocks
    {
      assert Status(pr0, u, v) == Uninst;
      var i :| 0 <= i < |g.succ[u]| && g.succ[u][i] == v;
    }
  }

  /** Where nothing has to be done, the greedy loops do nothing. */
  lemma NothingToDo(g: Cfg, pr: Probes, exits: set<Block>, sorted: seq<Block>, interval: int, endToEnd: int)
    requires Sorted(g, sorted) && pr.blocks == {} && forall e :: e in pr.edges ==> e in g.back
    ensures var none := Probes(map[], {}, pr.cost);
            && (PathsBounded(g, none, interval) ==> Bounded(g, pr, sorted, interval))
            && (WithinEndToEnd(g, none, exits, endToEnd) ==> WithinEndToEnd(g, pr, exits, endToEnd))
  {
    hide Sorted;
    var none := Probes(map[], {}, pr.cost);
    assert AgreeForward(g, pr, none);
    if PathsBounded(g, none, interval) {
      forall p, b | Arrives(g, pr, sorted, p, b)
        ensures Total(pr, p) <= interval
      {
        SortedIsReached(g, sorted, p[0]);
        AgreeOnUnbroken(g, pr, none, p);
      }
    }
    if WithinEndToEnd(g, none, exits, endToEnd) {
      forall p, r | r in exits && Connects(g, pr, p, g.entry, r)
        ensures Total(pr, p) <= endToEnd
      {
        AgreeOnUnbroken(g, pr, none, p);
        assert Connects(g, none, p, g.entry, r);
      }
    }
  }

  lemma SortedIsReached(g: Cfg, sorted: seq<Block>, b: Block)
    requires Sorted(g, sorted) && b in sorted
    ensures Reaches(g, g.entry, b)
  {
  }

  /** What the placement means for the instructions that run between two probes. */
  ghost predicate StretchFacts(g: Cfg, pr: Probes, code: seq<seq<nat>>, within: seq<seq<nat>>, interval: int)
    requires |code| == |within| == |g.succ|
  {
    && (NoneAbove(code, interval) ==> StretchesBounded(g, pr, code, within, 3 * interval))
    && (forall t: nat :: NoneReaches(code, interval) && BranchesEnd(g, code, t) ==>
          StretchesBounded(g, pr, code, within, interval + t))
    && (!Overhangs(g, code, interval) ==> StretchesBounded(g, pr, code, within, interval))
  }

  lemma PlacedBoundsStretches(g: Cfg, pr: Probes, code: seq<seq<nat>>, within: seq<seq<nat>>, interval: int)
    requires ValidCfg(g) && interval > 0 && |code| == |g.succ| && AreCosts(code, interval, pr.cost)
    requires AreWithin(code, interval, pr.cost, within) && PathsBounded(g, pr, interval) && Merged(g, pr)
    ensures |within| == |code| && (Terminated(code) ==> StretchFacts(g, pr, code, within, interval))
  {
    hide AreCosts, PathsBounded, Merged, Terminated, NoneAbove, NoneReaches, BranchesEnd, Overhangs, StretchesBounded;
    if Terminated(code) {
      if NoneAbove(code, interval) {
        BoundStretches(g, pr, code, within, interval);
      }
      forall t: nat | NoneReaches(code, interval) && BranchesEnd(g, code, t)
        ensures StretchesBounded(g, pr, code, within, interval + t)
      {
        SmallBlocksKeepTheInterval(g, pr, code, within, interval, t);
      }
      if !Overhangs(g, code, interval) {
        NothingOverhangs(g, pr, code, within, interval);
      }
    }
  }

  lemma CostsAreNatural(g: Cfg, code: seq<seq<nat>>, interval: int, pr: Probes)
    requires AreCosts(code, interval, pr.cost) && |code| == |g.succ| && interval > 0
    ensures ValidProbes(g, pr) && |pr.cost| == |code| && forall b: Block :: Cost(pr, b) < interval
  {
  }

  lemma CancelAgrees(g: Cfg, pr: Probes, pr': Probes, backEdges: seq<Edge>)
    requires pr'.cost == pr.cost && pr'.blocks == pr.blocks
    requires forall u: Block, v: Block :: Status(pr', u, v) == Status(pr, u, v) || (u, v) in backEdges
    requires forall e :: e in backEdges ==> e in g.back
    ensures AgreeForward(g, pr, pr') && NoMoreCarries(g, pr, pr')
  {
  }

  lemma BoundedMeansPaths(g: Cfg, pr: Probes, sorted: seq<Block>, limit: int)
    requires Bounded(g, pr, sorted, limit) && Sorted(g, sorted)
    ensures PathsBounded(g, pr, limit)
  {
    forall p | Unbroken(g, pr, p) && Reaches(g, g.entry, p[0])
      ensures Total(pr, p) <= limit
    {
      UnbrokenIsPath(g, pr, p);
      FirstOfPath(g, p);
      assert Arrives(g, pr, sorted, p, Last(p));
    }
  }

  /** A back edge that lost its probe has a block probe at its latch. */
  lemma LatchProbed(g: Cfg, pr: Probes, e: Edge, loops: map<Edge, LoopProbe>, limits: Limits)
    requires Status(pr, e.0, e.1) == LoopInst || e.0 in pr.blocks
    requires Status(pr, e.0, e.1) != Uninst ==> e in loops
    requires e in loops ==> LoopIsProbed(g, pr, e, loops, limits)
    ensures LoopIsProbed(g, pr, e, loops, limits)
  {
  }
}
