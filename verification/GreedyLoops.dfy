/** generateInst: the two greedy loops that place probes on edges. */
module GreedyLoops {
  import opened ControlFlow
  import opened Distances
  import opened DistancesFrom
  import opened ProbePlacement
  import opened GreedyCuts

  // ----- The first greedy loop

  /** The largest distance of a returning block. */
  method LongestToExit(g: Cfg, exits: set<Block>, dist: map<Block, int>) returns (maxDist: int, maxBlock: Block)
    ensures maxDist >= 0 && forall b :: b in exits && b < |g.succ| && b in dist ==> dist[b] <= maxDist
    ensures maxDist > 0 ==> maxBlock in exits && maxBlock in dist && dist[maxBlock] == maxDist
  {
    maxDist, maxBlock := 0, 0;
    for b := 0 to |g.succ|
      invariant maxDist >= 0 && forall x :: x in exits && x < b && x in dist ==> dist[x] <= maxDist
      invariant maxDist > 0 ==> maxBlock in exits && maxBlock in dist && dist[maxBlock] == maxDist
    {
      if b in dist && b in exits && dist[b] > maxDist {
        maxDist, maxBlock := dist[b], b;
      }
    }
  }

  lemma DistancesBoundEndToEnd(g: Cfg, pr: Probes, exits: set<Block>, dist: map<Block, int>, maxDist: int, limit: int)
    requires forall b :: IsLongestFrom(g, pr, g.entry, b, Lookup(dist, b))
    requires 0 <= maxDist <= limit && forall b :: b in exits && b < |g.succ| && b in dist ==> dist[b] <= maxDist
    ensures BoundedEndToEnd(g, pr, exits, limit)
  {
    forall p, r | r in exits && Connects(g, pr, p, g.entry, r)
      ensures Total(pr, p) <= limit
    {
      assert IsLongestFrom(g, pr, g.entry, r, Lookup(dist, r));
    }
  }

  /** Instruments every edge out of the entry block that is not a probe yet. */
  method InstrumentEntryEdges(g: Cfg, pr0: Probes) returns (pr: Probes)
    requires ValidCfg(g)
    ensures EntryProbed(g, pr0, pr)
  {
    pr := pr0;
    var succ := g.succ[g.entry];
    ghost var done: set<Block> := {};
    for i := 0 to |succ|
      invariant pr.cost == pr0.cost && pr.blocks == pr0.blocks
      invariant done == set j | 0 <= j < i :: succ[j]
      invariant forall u: Block, v: Block ::
                  Status(pr, u, v) == if u == g.entry && v in done && Status(pr0, u, v) == Uninst then NormInst
                                      else Status(pr0, u, v)
    {
      ghost var before := pr;
      var v := succ[i];
      done := done + {v};
      if Status(pr, g.entry, v) == Uninst {
        pr := Instrument(pr, g.entry, v);
      }
      forall x: Block, y: Block
        ensures Status(pr, x, y) == if x == g.entry && y in done && Status(pr0, x, y) == Uninst then NormInst
                                    else Status(pr0, x, y)
      {
        assert (x, y) != (g.entry, v) ==> Status(pr, x, y) == Status(before, x, y);
      }
    }
    assert forall v: Block :: v in done <==> v in succ;
  }

  lemma {:induction false} EntryAlone(g: Cfg, pr: Probes, p: seq<Block>)
    requires Unbroken(g, pr, p) && p[0] == g.entry && forall v :: !Carries(g, pr, g.entry, v)
    ensures p == [g.entry]
    decreases |p|
  {
    if |p| > 1 {
      EntryAlone(g, pr, Init(p));
    }
  }

  /** No unbroken path from the entry to a return exceeds the limit, not even the entry alone. */
  ghost predicate WithinEndToEnd(g: Cfg, pr: Probes, exits: set<Block>, limit: int) {
    forall p, r :: r in exits && Connects(g, pr, p, g.entry, r) ==> Total(pr, p) <= limit
  }

  /** The path that the walk back follows is a longest one. */
  lemma WalkIsLongestEndToEnd(g: Cfg, pr: Probes, sorted: seq<Block>, exits: set<Block>, dist: map<Block, int>,
      prev: map<Block, Block>, p: seq<Block>, b: Block)
    requires ValidCfg(g) && TopoList(g, sorted) && SolvedFrom(g, pr, sorted, g.entry, dist, prev)
    requires forall x :: IsLongestFrom(g, pr, g.entry, x, Lookup(dist, x))
    requires b in exits && b in dist && forall x :: x in exits && x < |g.succ| && x in dist ==> dist[x] <= dist[b]
    requires dist[b] > 0 && WalksBack(g, pr, dist, prev, p, b)
    ensures LongestEndToEnd(g, pr, exits, p) && Total(pr, p) == dist[b] && p[0] == g.entry
  {
    hide TopoList, SolvedFrom, Total, IsLongestFrom;
    SolvedFromIsWalkable(g, pr, sorted, g.entry, dist, prev);
    assert WalkAt(pr, dist, prev, p, 0) && WalkAt(pr, dist, prev, p, |p| - 1);
    assert p[..|p|] == p;
    forall q, r | r in exits && Connects(g, pr, q, g.entry, r)
      ensures Total(pr, q) <= dist[b]
    {
      ConnectsIsBounded(g, pr, q, r, Lookup(dist, r));
    }
  }

  lemma ConnectsIsBounded(g: Cfg, pr: Probes, q: seq<Block>, r: Block, d: int)
    requires Connects(g, pr, q, g.entry, r) && IsLongestFrom(g, pr, g.entry, r, d)
    ensures Total(pr, q) <= d && r < |g.succ|
  {
  }

  /** The first greedy loop: paths from the entry to a return.  `chain` are the placements it goes through. */
  method BoundEndToEnd(g: Cfg, pr0: Probes, sorted: seq<Block>, exits: set<Block>, limit: int)
    returns (pr: Probes, ghost chain: seq<Probes>)
    requires ValidCfg(g) && ValidProbes(g, pr0) && TopoList(g, sorted) && g.entry in sorted && limit >= 0
    ensures OnlyAdds(pr0, pr) && BoundedEndToEnd(g, pr, exits, limit)
    ensures EndToEndChain(g, chain, exits, limit) && chain[0] == pr0 && chain[|chain| - 1] == pr
    ensures WithinEndToEnd(g, pr0, exits, limit) ==> pr == pr0
  {
    hide WithinEndToEnd, SolvedFrom, IsLongestFrom, OnlyAdds, BoundedEndToEnd, TopoList, Walkable, EndToEndStep;
    hide LongestEndToEnd, EntryProbed, WalksBack, Cuts, Carries;
    SortedBlocks(g, sorted);
    OnlyAddsItself(pr0);
    pr, chain := pr0, [pr0];
    while true
      invariant OnlyAdds(pr0, pr) && pr.cost == pr0.cost
      invariant EndToEndChain(g, chain, exits, limit) && chain[0] == pr0 && chain[|chain| - 1] == pr
      invariant WithinEndToEnd(g, pr0, exits, limit) ==> pr == pr0
      decreases CarryEdges(g, pr, sorted)
    {
      assert forall b: Block :: Cost(pr, b) == Cost(pr0, b);
      var dist, prev := LongestDistanceFrom(g, pr, sorted, g.entry);
      var maxDist, maxBlock := LongestToExit(g, exits, dist);
      if maxDist <= limit {
        DistancesBoundEndToEnd(g, pr, exits, dist, maxDist, limit);
        return;
      }
      SolvedFromIsWalkable(g, pr, sorted, g.entry, dist, prev);
      var found, pr', large, p, k := DecideInstLocations(g, pr, sorted, dist, prev, maxBlock, limit);
      WalkIsLongestEndToEnd(g, pr, sorted, exits, dist, prev, p, maxBlock);
      NotWithin(g, pr, exits, p, limit);
      if !found {
        // only the entry block starts its path, so it alone reaches the limit
        pr' := InstrumentEntryEdges(g, pr);
        EntryIsLarge(g, pr, pr', exits, p, limit);
        OnlyAddsTransitive(pr0, pr, pr');
        EntryEdgesBoundEndToEnd(g, pr', exits, limit);
        ChainGrows(g, chain, pr', exits, limit);
        pr, chain := pr', chain + [pr'];
        return;
      }
      EdgeIsCut(g, pr, exits, p, k, limit);
      InstrumentOnlyAdds(g, pr0, pr, p[k - 1], p[k]);
      InstrumentUsesUp(g, pr, sorted, p[k - 1], p[k]);
      ChainGrows(g, chain, pr', exits, limit);
      pr, chain := pr', chain + [pr'];
    }
  }

  lemma NotWithin(g: Cfg, pr: Probes, exits: set<Block>, p: seq<Block>, limit: int)
    requires LongestEndToEnd(g, pr, exits, p) && Total(pr, p) > limit
    ensures !WithinEndToEnd(g, pr, exits, limit)
  {
  }

  lemma EntryIsLarge(g: Cfg, pr: Probes, pr': Probes, exits: set<Block>, p: seq<Block>, limit: int)
    requires LongestEndToEnd(g, pr, exits, p) && Total(pr, p) > limit && Cost(pr, g.entry) >= limit
    requires EntryProbed(g, pr, pr')
    ensures EndToEndStep(g, pr, pr', exits, limit) && OnlyAdds(pr, pr') && forall v :: !Carries(g, pr', g.entry, v)
  {
    hide LongestEndToEnd, EntryProbed;
    EntryProbedAdds(g, pr, pr');
  }

  lemma EdgeIsCut(g: Cfg, pr: Probes, exits: set<Block>, p: seq<Block>, k: nat, limit: int)
    requires LongestEndToEnd(g, pr, exits, p) && Total(pr, p) > limit
    requires 0 < k < |p| && Cuts(pr, p, k, limit, p[k - 1], p[k])
    ensures Carries(g, pr, p[k - 1], p[k])
    ensures EndToEndStep(g, pr, Instrument(pr, p[k - 1], p[k]), exits, limit)
  {
    UnbrokenCarries(g, pr, p, k);
    hide LongestEndToEnd, Cuts;
    assert EndToEndCut(g, pr, exits, limit, p[k - 1], p[k]);
  }

  lemma ChainGrows(g: Cfg, chain: seq<Probes>, pr': Probes, exits: set<Block>, limit: int)
    requires EndToEndChain(g, chain, exits, limit) && EndToEndStep(g, chain[|chain| - 1], pr', exits, limit)
    ensures EndToEndChain(g, chain + [pr'], exits, limit)
  {
    hide EndToEndStep;
  }

  lemma EntryEdgesBoundEndToEnd(g: Cfg, pr: Probes, exits: set<Block>, limit: int)
    requires forall v :: !Carries(g, pr, g.entry, v)
    ensures BoundedEndToEnd(g, pr, exits, limit)
  {
    forall p, r | r in exits && Connects(g, pr, p, g.entry, r)
      ensures p == [g.entry]
    {
      EntryAlone(g, pr, p);
    }
  }

  /** A path from the entry to a return that exceeds the limit is the entry alone: there is one exactly
      if the entry block returns and costs more than the limit. */
  lemma OnlyTheEntryExceeds(g: Cfg, pr: Probes, exits: set<Block>, limit: int)
    requires ValidCfg(g) && BoundedEndToEnd(g, pr, exits, limit)
    ensures (exists p, r :: r in exits && Connects(g, pr, p, g.entry, r) && Total(pr, p) > limit) <==>
            g.entry in exits && Cost(pr, g.entry) > limit
  {
    TotalOfOne(pr, g.entry);
    assert Connects(g, pr, [g.entry], g.entry, g.entry);
  }

  // ----- The second greedy loop

  /** The path that the walk back follows is a longest one of all. */
  lemma WalkIsLongest(g: Cfg, pr: Probes, sorted: seq<Block>, dist: map<Block, int>, prev: map<Block, Block>,
      p: seq<Block>, b: Block)
    requires ValidCfg(g) && Sorted(g, sorted) && Solved(g, pr, sorted, dist, prev)
    requires b in dist && IsMaximum(dist, b, dist[b]) && WalksBack(g, pr, dist, prev, p, b)
    ensures LongestAnywhere(g, pr, p) && Total(pr, p) == dist[b]
  {
    hide Total, TopoList, Partial, Reaches;
    assert WalkAt(pr, dist, prev, p, 0) && WalkAt(pr, dist, prev, p, |p| - 1);
    assert p[..|p|] == p;
    assert p[0] in sorted;
    forall q | Unbroken(g, pr, q) && Reaches(g, g.entry, q[0])
      ensures Total(pr, q) <= dist[b]
    {
      UnbrokenIsPath(g, pr, q);
      FirstOfPath(g, q);
      SolvedIsUpperBound(g, pr, sorted, dist, prev, q);
    }
  }

  lemma {:induction false} FirstOfPath(g: Cfg, p: seq<Block>)
    requires Path(g, p)
    ensures p[0] < |g.succ|
    decreases |p|
  {
    if |p| > 1 {
      FirstOfPath(g, Init(p));
    }
  }

  lemma NotBounded(g: Cfg, pr: Probes, sorted: seq<Block>, p: seq<Block>, limit: int)
    requires LongestAnywhere(g, pr, p) && Total(pr, p) > limit && p[0] in sorted
    ensures !Bounded(g, pr, sorted, limit)
  {
    assert Arrives(g, pr, sorted, p, Last(p));
  }

  lemma EdgeIsCutAnywhere(g: Cfg, pr: Probes, p: seq<Block>, k: nat, limit: int)
    requires LongestAnywhere(g, pr, p) && Total(pr, p) > limit
    requires 0 < k < |p| && Cuts(pr, p, k, limit, p[k - 1], p[k])
    ensures Carries(g, pr, p[k - 1], p[k])
    ensures AnywhereStep(g, pr, Instrument(pr, p[k - 1], p[k]), limit)
  {
    UnbrokenCarries(g, pr, p, k);
    hide LongestAnywhere, Cuts;
    assert AnywhereCut(g, pr, limit, p[k - 1], p[k]);
  }

  lemma AnywhereChainGrows(g: Cfg, chain: seq<Probes>, pr': Probes, limit: int)
    requires AnywhereChain(g, chain, limit) && AnywhereStep(g, chain[|chain| - 1], pr', limit)
    ensures AnywhereChain(g, chain + [pr'], limit)
  {
    hide AnywhereStep;
  }

  /** The second greedy loop: afterwards every unbroken path costs at most the commit interval.  All
      block costs are below it, so the walk back always finds an edge and the fallback that would
      instrument all edges of one large block is never taken.  `chain` are the placements it goes through. */
  method BoundDistances(g: Cfg, pr0: Probes, sorted: seq<Block>, interval: int)
    returns (pr: Probes, ghost chain: seq<Probes>)
    requires ValidCfg(g) && ValidProbes(g, pr0) && Sorted(g, sorted)
    requires forall b: Block :: Cost(pr0, b) < interval
    ensures OnlyAdds(pr0, pr) && Bounded(g, pr, sorted, interval)
    ensures AnywhereChain(g, chain, interval) && chain[0] == pr0 && chain[|chain| - 1] == pr
    ensures Bounded(g, pr0, sorted, interval) ==> pr == pr0
  {
    hide Solved, IsLongest, OnlyAdds, Bounded, Sorted, TopoList, Walkable, AnywhereStep, LongestAnywhere, Carries;
    hide WalksBack, Cuts;
    StartPartial(g, pr0, sorted);
    SortedBlocks(g, sorted);
    OnlyAddsItself(pr0);
    pr, chain := pr0, [pr0];
    while true
      invariant OnlyAdds(pr0, pr) && pr.cost == pr0.cost
      invariant AnywhereChain(g, chain, interval) && chain[0] == pr0 && chain[|chain| - 1] == pr
      invariant Bounded(g, pr0, sorted, interval) ==> pr == pr0
      decreases CarryEdges(g, pr, sorted)
    {
      assert forall b: Block :: Cost(pr, b) == Cost(pr0, b);
      var dist, prev, maxBlock, maxDist := GenerateDistanceMap(g, pr, sorted);
      if maxDist <= interval {
        MaximumBounds(g, pr, sorted, dist, maxBlock, maxDist, interval);
        return;
      }
      SolvedIsWalkable(g, pr, sorted, dist, prev);
      var found, pr', large, p, k := DecideInstLocations(g, pr, sorted, dist, prev, maxBlock, interval);
      if !found {
        assert false;
      }
      WalkIsLongest(g, pr, sorted, dist, prev, p, maxBlock);
      NotBounded(g, pr, sorted, p, interval);
      EdgeIsCutAnywhere(g, pr, p, k, interval);
      InstrumentOnlyAdds(g, pr0, pr, p[k - 1], p[k]);
      InstrumentUsesUp(g, pr, sorted, p[k - 1], p[k]);
      AnywhereChainGrows(g, chain, pr', interval);
      pr, chain := pr', chain + [pr'];
    }
  }

  lemma MaximumBounds(g: Cfg, pr: Probes, sorted: seq<Block>, dist: map<Block, int>, maxBlock: Block, maxDist: int,
      limit: int)
    requires IsMaximum(dist, maxBlock, maxDist) && maxDist <= limit && TopoList(g, sorted)
    requires forall b :: b in sorted ==> b in dist && IsLongest(g, pr, sorted, b, dist[b])
    ensures Bounded(g, pr, sorted, limit)
  {
    forall p, b | Arrives(g, pr, sorted, p, b)
      ensures Total(pr, p) <= limit
    {
      UnbrokenIsPath(g, pr, p);
      assert PathBetween(g, p, p[0], b);
      TopoListIsClosed(g, sorted, p[0], b);
      assert IsLongest(g, pr, sorted, b, dist[b]);
    }
  }
}
