/** decideInstLocations, and what the greedy loops do with it: a chain of placements in which every
    probe cuts a path that was too long, where its cost reaches the limit. */
module GreedyCuts {
  import opened ControlFlow
  import opened Distances
  import opened DistancesFrom
  import opened ProbePlacement

  // ----- Walking back

  /** The entry of block `b` is that of its predecessor, if it is positive, along an edge that carries
      on, and the cost of the block; or the cost of the block alone, where a path starts. */
  ghost predicate WalkableAt(g: Cfg, pr: Probes, sorted: seq<Block>, dist: map<Block, int>, prev: map<Block, Block>,
      b: Block)
    requires b in dist
  {
    && b in sorted && b in prev && prev[b] in dist && dist[b] >= 0
    && (if prev[b] == b then dist[b] == Cost(pr, b)
        else
          && Forward(g, prev[b], b)
          && (dist[b] > 0 ==>
            Carries(g, pr, prev[b], b) && dist[prev[b]] > 0 && dist[b] == dist[prev[b]] + Cost(pr, b)))
  }

  /** A distance map that can be walked back. */
  ghost predicate Walkable(g: Cfg, pr: Probes, sorted: seq<Block>, dist: map<Block, int>, prev: map<Block, Block>) {
    forall b :: b in dist ==> WalkableAt(g, pr, sorted, dist, prev, b)
  }

  lemma ExplainedIsWalkable(g: Cfg, pr: Probes, sorted: seq<Block>, dist: map<Block, int>, prev: map<Block, Block>,
      b: Block)
    requires ValidProbes(g, pr) && Explained(g, pr, dist, prev, b) && b in sorted && dist[b] >= Cost(pr, b)
    requires dist[prev[b]] >= Cost(pr, prev[b])
    ensures WalkableAt(g, pr, sorted, dist, prev, b)
  {
  }

  lemma SolvedIsWalkable(g: Cfg, pr: Probes, sorted: seq<Block>, dist: map<Block, int>, prev: map<Block, Block>)
    requires ValidProbes(g, pr) && Solved(g, pr, sorted, dist, prev)
    ensures Walkable(g, pr, sorted, dist, prev)
  {
    hide WalkableAt, Relaxed, ValidProbes;
    forall b | b in dist
      ensures WalkableAt(g, pr, sorted, dist, prev, b)
    {
      assert Explained(g, pr, dist, prev, b);
      ExplainedIsWalkable(g, pr, sorted, dist, prev, b);
    }
  }

  lemma SolvedFromIsWalkable(g: Cfg, pr: Probes, sorted: seq<Block>, a: Block, dist: map<Block, int>,
      prev: map<Block, Block>)
    requires SolvedFrom(g, pr, sorted, a, dist, prev)
    ensures Walkable(g, pr, sorted, dist, prev)
    ensures forall b :: b in dist ==> b in prev && (prev[b] == b ==> b == a)
  {
    hide RelaxedFrom;
    forall b | b in dist
      ensures WalkableAt(g, pr, sorted, dist, prev, b) && (prev[b] == b ==> b == a)
    {
      assert ExplainedFrom(g, pr, a, dist, prev, b);
    }
  }

  ghost predicate WalkAt(pr: Probes, dist: map<Block, int>, prev: map<Block, Block>, p: seq<Block>, k: nat)
    requires k < |p|
  {
    && p[k] in dist && p[k] in prev && Total(pr, p[..k + 1]) == dist[p[k]]
    && (if k == 0 then prev[p[0]] == p[0] else prev[p[k]] == p[k - 1] != p[k])
  }

  /** The unbroken path to `b` that the predecessor entries give. */
  ghost predicate WalksBack(g: Cfg, pr: Probes, dist: map<Block, int>, prev: map<Block, Block>, p: seq<Block>,
      b: Block)
  {
    p != [] && Unbroken(g, pr, p) && Last(p) == b && forall k :: 0 <= k < |p| ==> WalkAt(pr, dist, prev, p, k)
  }

  lemma {:induction false} WalkedPath(g: Cfg, pr: Probes, sorted: seq<Block>, dist: map<Block, int>,
      prev: map<Block, Block>, i: nat)
    returns (p: seq<Block>)
    requires ValidCfg(g) && TopoList(g, sorted) && Walkable(g, pr, sorted, dist, prev)
    requires i < |sorted| && sorted[i] in dist && dist[sorted[i]] > 0
    ensures WalksBack(g, pr, dist, prev, p, sorted[i])
    decreases |sorted| - i
  {
    hide TopoList, Carries, WalksBack, Total;
    var b := sorted[i];
    SortedBlocks(g, sorted);
    assert WalkableAt(g, pr, sorted, dist, prev, b);
    if prev[b] == b {
      p := [b];
      WalkStarts(g, pr, dist, prev, b);
    } else {
      var j := PredecessorIsLater(g, sorted, i, prev[b]);
      var q := WalkedPath(g, pr, sorted, dist, prev, j);
      p := q + [b];
      WalkExtends(g, pr, dist, prev, q, b);
    }
  }

  lemma WalkStarts(g: Cfg, pr: Probes, dist: map<Block, int>, prev: map<Block, Block>, b: Block)
    requires b < |g.succ| && b in dist && b in prev && prev[b] == b && dist[b] == Cost(pr, b)
    ensures WalksBack(g, pr, dist, prev, [b], b)
  {
    TotalOfOne(pr, b);
    assert [b][..1] == [b];
  }

  lemma WalkExtends(g: Cfg, pr: Probes, dist: map<Block, int>, prev: map<Block, Block>, q: seq<Block>, b: Block)
    requires ValidCfg(g) && b in dist && b in prev && prev[b] != b && prev[b] in dist
    requires WalksBack(g, pr, dist, prev, q, prev[b]) && Carries(g, pr, prev[b], b)
    requires dist[b] == dist[prev[b]] + Cost(pr, b)
    ensures WalksBack(g, pr, dist, prev, q + [b], b)
  {
    hide Unbroken, Carries, Total;
    ExtendUnbroken(g, pr, q, b);
    var p := q + [b];
    assert WalkAt(pr, dist, prev, q, |q| - 1);
    assert q[..|q|] == q && p[..|p|] == p;
    forall k | 0 <= k < |p|
      ensures WalkAt(pr, dist, prev, p, k)
    {
      if k < |q| {
        assert WalkAt(pr, dist, prev, q, k);
        assert p[..k + 1] == q[..k + 1];
      }
    }
  }

  /** The edge from `u` to `v` is where the cost of the path `p` reaches the limit. */
  ghost predicate Cuts(pr: Probes, p: seq<Block>, k: nat, limit: int, u: Block, v: Block) {
    && 0 < k < |p| && p[k - 1] == u && p[k] == v
    && Total(pr, p[..k]) < limit <= Total(pr, p[..k + 1])
  }

  /** The distance reaches the threshold with block `v`, but not with its predecessor. */
  predicate IsCrossing(dist: map<Block, int>, prev: map<Block, Block>, threshold: int, v: Block) {
    v in dist && v in prev && prev[v] in dist && dist[prev[v]] < threshold <= dist[v]
  }

  /** decideInstLocations: walks back from `maxBlock` to the first edge whose source is below the
      threshold and instruments it.  Fails only at a block that starts its path at or above it. */
  method DecideInstLocations(g: Cfg, pr: Probes, ghost sorted: seq<Block>, dist: map<Block, int>,
      prev: map<Block, Block>, maxBlock: Block, threshold: int)
    returns (found: bool, pr': Probes, large: Block, ghost p: seq<Block>, ghost k: nat)
    requires ValidCfg(g) && TopoList(g, sorted) && Walkable(g, pr, sorted, dist, prev)
    requires maxBlock in dist && dist[maxBlock] > threshold && dist[maxBlock] > 0
    ensures WalksBack(g, pr, dist, prev, p, maxBlock) && forall i :: 0 <= i < |p| ==> p[i] in sorted
    ensures found ==> 0 < k < |p| && Cuts(pr, p, k, threshold, p[k - 1], p[k]) && pr' == Instrument(pr, p[k - 1], p[k])
    ensures !found ==> pr' == pr && large == p[0] && Cost(pr, large) >= threshold
    ensures found ==> exists v :: IsCrossing(dist, prev, threshold, v) && pr' == Instrument(pr, prev[v], v)
    ensures !found ==> large in dist && large in prev && prev[large] == large && dist[large] >= threshold
  {
    hide *;
    p := WalkFrom(g, pr, sorted, dist, prev, maxBlock);
    pr', large, k := pr, maxBlock, |p| - 1;
    var cur := maxBlock;
    while true
      invariant k < |p| && cur == p[k] && cur in dist && dist[cur] >= threshold
      decreases k
    {
      StepBack(g, pr, dist, prev, p, maxBlock, k, threshold);
      var before := prev[cur];
      if dist[before] < threshold {
        pr' := Instrument(pr, before, cur);
        Crosses(dist, prev, threshold, cur);
        return true, pr', cur, p, k;
      }
      if before == cur {
        return false, pr, cur, p, k;
      }
      cur, k := before, k - 1;
    }
  }

  lemma Crosses(dist: map<Block, int>, prev: map<Block, Block>, threshold: int, v: Block)
    requires v in dist && v in prev && prev[v] in dist && dist[prev[v]] < threshold <= dist[v]
    ensures IsCrossing(dist, prev, threshold, v)
  {
  }

  lemma WalkFrom(g: Cfg, pr: Probes, sorted: seq<Block>, dist: map<Block, int>, prev: map<Block, Block>, b: Block)
    returns (p: seq<Block>)
    requires ValidCfg(g) && TopoList(g, sorted) && Walkable(g, pr, sorted, dist, prev) && b in dist && dist[b] > 0
    ensures WalksBack(g, pr, dist, prev, p, b) && p != [] && Last(p) == b == p[|p| - 1]
    ensures forall k :: 0 <= k < |p| ==> p[k] in sorted
  {
    hide TopoList, Unbroken;
    assert WalkableAt(g, pr, sorted, dist, prev, b);
    var i: nat :| i < |sorted| && sorted[i] == b;
    p := WalkedPath(g, pr, sorted, dist, prev, i);
    forall k | 0 <= k < |p|
      ensures p[k] in sorted
    {
      assert WalkAt(pr, dist, prev, p, k);
      assert WalkableAt(g, pr, sorted, dist, prev, p[k]);
    }
  }

  /** One step of the walk: it ends at the first block of the path, or goes on to the one before. */
  lemma StepBack(g: Cfg, pr: Probes, dist: map<Block, int>, prev: map<Block, Block>, p: seq<Block>, b: Block, k: nat,
      threshold: int)
    requires WalksBack(g, pr, dist, prev, p, b) && k < |p| && p[k] in dist && dist[p[k]] >= threshold
    ensures p[k] in prev && prev[p[k]] in dist
    ensures prev[p[k]] == p[k] <==> k == 0
    ensures k > 0 ==> prev[p[k]] == p[k - 1]
    ensures k > 0 && dist[p[k - 1]] < threshold ==> Cuts(pr, p, k, threshold, p[k - 1], p[k])
    ensures k == 0 ==> Cost(pr, p[0]) >= threshold
  {
    hide Unbroken, Total;
    assert WalkAt(pr, dist, prev, p, k);
    if k == 0 {
      assert p[..1] == [p[0]];
      TotalOfOne(pr, p[0]);
    } else {
      assert WalkAt(pr, dist, prev, p, k - 1);
    }
  }

  // ----- Chains of greedy steps

  lemma {:induction false} UnbrokenCarries(g: Cfg, pr: Probes, p: seq<Block>, k: nat)
    requires Unbroken(g, pr, p) && 0 < k < |p|
    ensures Carries(g, pr, p[k - 1], p[k])
    decreases |p|
  {
    if k < |p| - 1 {
      UnbrokenCarries(g, pr, Init(p), k);
    }
  }

  /** A longest unbroken path from the entry to a return. */
  ghost predicate LongestEndToEnd(g: Cfg, pr: Probes, exits: set<Block>, p: seq<Block>) {
    && p != [] && Last(p) in exits && Connects(g, pr, p, g.entry, Last(p))
    && forall q, r :: r in exits && Connects(g, pr, q, g.entry, r) ==> Total(pr, q) <= Total(pr, p)
  }

  /** A longest unbroken path that starts anywhere the entry reaches. */
  ghost predicate LongestAnywhere(g: Cfg, pr: Probes, p: seq<Block>) {
    && Unbroken(g, pr, p) && Reaches(g, g.entry, p[0])
    && forall q :: Unbroken(g, pr, q) && Reaches(g, g.entry, q[0]) ==> Total(pr, q) <= Total(pr, p)
  }

  /** The edge is where a longest path from the entry to a return, which is too long, reaches the limit. */
  ghost predicate EndToEndCut(g: Cfg, pr: Probes, exits: set<Block>, limit: int, u: Block, v: Block) {
    exists p, k :: LongestEndToEnd(g, pr, exits, p) && Total(pr, p) > limit && Cuts(pr, p, k, limit, u, v)
  }

  /** The edge is where a longest path of all, which is too long, reaches the limit. */
  ghost predicate AnywhereCut(g: Cfg, pr: Probes, limit: int, u: Block, v: Block) {
    exists p, k :: LongestAnywhere(g, pr, p) && Total(pr, p) > limit && Cuts(pr, p, k, limit, u, v)
  }

  /** A path from the entry to a return is too long, and the entry block alone reaches the limit. */
  ghost predicate LargeEntry(g: Cfg, pr: Probes, exits: set<Block>, limit: int) {
    Cost(pr, g.entry) >= limit && exists p :: LongestEndToEnd(g, pr, exits, p) && Total(pr, p) > limit
  }

  /** All edges out of the entry block are probed now, and nothing else has changed. */
  ghost predicate EntryProbed(g: Cfg, pr: Probes, pr': Probes) {
    && pr'.cost == pr.cost && pr'.blocks == pr.blocks
    && forall u: Block, v: Block ::
      Status(pr', u, v) == if u == g.entry && IsEdge(g, u, v) && Status(pr, u, v) == Uninst then NormInst
                           else Status(pr, u, v)
  }

  /** One round of the first greedy loop. */
  ghost predicate EndToEndStep(g: Cfg, pr: Probes, pr': Probes, exits: set<Block>, limit: int) {
    || (exists u: Block, v: Block :: EndToEndCut(g, pr, exits, limit, u, v) && pr' == Instrument(pr, u, v))
    || (LargeEntry(g, pr, exits, limit) && EntryProbed(g, pr, pr'))
  }

  /** One round of the second. */
  ghost predicate AnywhereStep(g: Cfg, pr: Probes, pr': Probes, limit: int) {
    exists u: Block, v: Block :: AnywhereCut(g, pr, limit, u, v) && pr' == Instrument(pr, u, v)
  }

  /** The placements that the rounds of the first greedy loop go through. */
  ghost predicate EndToEndChain(g: Cfg, chain: seq<Probes>, exits: set<Block>, limit: int) {
    chain != [] && forall i :: 0 < i < |chain| ==> EndToEndStep(g, chain[i - 1], chain[i], exits, limit)
  }

  /** The placements that the rounds of the second go through. */
  ghost predicate AnywhereChain(g: Cfg, chain: seq<Probes>, limit: int) {
    chain != [] && forall i :: 0 < i < |chain| ==> AnywhereStep(g, chain[i - 1], chain[i], limit)
  }

  lemma OnlyAddsTransitive(a: Probes, b: Probes, c: Probes)
    requires OnlyAdds(a, b) && OnlyAdds(b, c)
    ensures OnlyAdds(a, c)
  {
    forall u, v
      ensures Status(c, u, v) == Status(a, u, v) || (Status(a, u, v) == Uninst && Status(c, u, v) == NormInst)
    {
      assert Status(b, u, v) == Status(a, u, v) || (Status(a, u, v) == Uninst && Status(b, u, v) == NormInst);
      assert Status(c, u, v) == Status(b, u, v) || (Status(b, u, v) == Uninst && Status(c, u, v) == NormInst);
    }
  }

  /** A step adds exactly the edges it has a reason for. */
  lemma EndToEndStepAdds(g: Cfg, pr: Probes, pr': Probes, exits: set<Block>, limit: int)
    requires EndToEndStep(g, pr, pr', exits, limit)
    ensures OnlyAdds(pr, pr')
    ensures forall u: Block, v: Block :: Status(pr', u, v) != Status(pr, u, v) ==>
              EndToEndCut(g, pr, exits, limit, u, v) || (u == g.entry && LargeEntry(g, pr, exits, limit))
  {
    hide LongestEndToEnd, LargeEntry, EndToEndCut;
    if LargeEntry(g, pr, exits, limit) && EntryProbed(g, pr, pr') {
      EntryProbedAdds(g, pr, pr');
    } else {
      var x: Block, y: Block :| EndToEndCut(g, pr, exits, limit, x, y) && pr' == Instrument(pr, x, y);
      EndToEndCutCarries(g, pr, exits, limit, x, y);
      OnlyAddsItself(pr);
      InstrumentOnlyAdds(g, pr, pr, x, y);
    }
  }

  lemma EntryProbedAdds(g: Cfg, pr: Probes, pr': Probes)
    requires EntryProbed(g, pr, pr')
    ensures OnlyAdds(pr, pr') && forall v :: !Carries(g, pr', g.entry, v)
  {
  }

  lemma EndToEndCutCarries(g: Cfg, pr: Probes, exits: set<Block>, limit: int, u: Block, v: Block)
    requires EndToEndCut(g, pr, exits, limit, u, v)
    ensures Carries(g, pr, u, v)
  {
    var p, k :| LongestEndToEnd(g, pr, exits, p) && Total(pr, p) > limit && Cuts(pr, p, k, limit, u, v);
    UnbrokenCarries(g, pr, p, k);
  }

  lemma AnywhereStepAdds(g: Cfg, pr: Probes, pr': Probes, limit: int)
    requires AnywhereStep(g, pr, pr', limit)
    ensures OnlyAdds(pr, pr')
    ensures forall u: Block, v: Block :: Status(pr', u, v) != Status(pr, u, v) ==> AnywhereCut(g, pr, limit, u, v)
  {
    hide AnywhereCut;
    var x: Block, y: Block :| AnywhereCut(g, pr, limit, x, y) && pr' == Instrument(pr, x, y);
    AnywhereCutCarries(g, pr, limit, x, y);
    OnlyAddsItself(pr);
    InstrumentOnlyAdds(g, pr, pr, x, y);
  }

  lemma AnywhereCutCarries(g: Cfg, pr: Probes, limit: int, u: Block, v: Block)
    requires AnywhereCut(g, pr, limit, u, v)
    ensures Carries(g, pr, u, v)
  {
    var p, k :| LongestAnywhere(g, pr, p) && Total(pr, p) > limit && Cuts(pr, p, k, limit, u, v);
    UnbrokenCarries(g, pr, p, k);
  }

  /** The chain only adds probes, and each one at a placement it goes through that gives the reason. */
  lemma {:induction false} EndToEndReason(g: Cfg, chain: seq<Probes>, exits: set<Block>, limit: int, u: Block, v: Block)
    requires EndToEndChain(g, chain, exits, limit)
    ensures var pr := chain[|chain| - 1];
            && OnlyAdds(chain[0], pr)
            && (Status(pr, u, v) != Status(chain[0], u, v) ==>
              exists q :: OnlyAdds(chain[0], q) && OnlyAdds(q, pr) &&
                (EndToEndCut(g, q, exits, limit, u, v) || (u == g.entry && LargeEntry(g, q, exits, limit))))
    decreases |chain|
  {
    hide OnlyAdds, EndToEndCut, LargeEntry, EndToEndStep;
    var n := |chain| - 1;
    if n == 0 {
      OnlyAddsItself(chain[0]);
    } else {
      var pr0, pr, pr' := chain[0], chain[n - 1], chain[n];
      EndToEndReason(g, chain[..n], exits, limit, u, v);
      EndToEndStepAdds(g, pr, pr', exits, limit);
      OnlyAddsTransitive(pr0, pr, pr');
      if Status(pr', u, v) != Status(pr, u, v) {
        assert EndToEndCut(g, pr, exits, limit, u, v) || (u == g.entry && LargeEntry(g, pr, exits, limit));
      } else if Status(pr', u, v) != Status(pr0, u, v) {
        var q :| OnlyAdds(pr0, q) && OnlyAdds(q, pr) &&
          (EndToEndCut(g, q, exits, limit, u, v) || (u == g.entry && LargeEntry(g, q, exits, limit)));
        OnlyAddsTransitive(q, pr, pr');
      }
    }
  }

  lemma {:induction false} AnywhereReason(g: Cfg, chain: seq<Probes>, limit: int, u: Block, v: Block)
    requires AnywhereChain(g, chain, limit)
    ensures var pr := chain[|chain| - 1];
            && OnlyAdds(chain[0], pr)
            && (Status(pr, u, v) != Status(chain[0], u, v) ==>
              exists q :: OnlyAdds(chain[0], q) && OnlyAdds(q, pr) && AnywhereCut(g, q, limit, u, v))
    decreases |chain|
  {
    hide OnlyAdds, AnywhereCut, AnywhereStep;
    var n := |chain| - 1;
    if n == 0 {
      OnlyAddsItself(chain[0]);
    } else {
      var pr0, pr, pr' := chain[0], chain[n - 1], chain[n];
      AnywhereReason(g, chain[..n], limit, u, v);
      AnywhereStepAdds(g, pr, pr', limit);
      OnlyAddsTransitive(pr0, pr, pr');
      if Status(pr', u, v) != Status(pr, u, v) {
        assert AnywhereCut(g, pr, limit, u, v);
      } else if Status(pr', u, v) != Status(pr0, u, v) {
        var q :| OnlyAdds(pr0, q) && OnlyAdds(q, pr) && AnywhereCut(g, q, limit, u, v);
        OnlyAddsTransitive(q, pr, pr');
      }
    }
  }
}
