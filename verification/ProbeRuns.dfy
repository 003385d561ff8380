/** What the pass does on three functions, with a commit interval of ten: in two of them more than the
    interval runs between two probes, in the third a loop runs forever without one. */
module ProbeRuns {
  import opened ControlFlow
  import opened Distances
  import opened DistancesFrom
  import opened CallDistances
  import opened BlockProbes
  import opened StretchBounds
  import opened StretchLimits
  import opened GreedyLoops
  import opened ProbePass
  import opened WalkBounds

  // ----- Three blocks in a row, the outer two of which reach the interval

  const ROW := Cfg([[1], [2], []], {}, 0)
  const ROW_CODE: seq<seq<nat>> := [[5, 9], [9], [9, 1]]
  const ROW_COSTS: seq<int> := [0, 9, 0]
  const ROW_WITHIN: seq<seq<nat>> := [[1], [], [1]]

  lemma SumOfPair(a: nat, b: nat)
    ensures Sum([a, b]) == a + b
  {
    SumSplit([a], [b]);
    assert [a] + [b] == [a, b] && Sum([a]) == a && Sum([b]) == b;
  }

  lemma SumOfSingle(a: nat)
    ensures Sum([a]) == a
  {
    SumOfOne([a], 0);
    assert [a][0..1] == [a];
  }

  lemma GreedyPair(a: nat, b: nat)
    requires a < 10 <= a + b
    ensures Greedy([a, b], 10) == [1]
  {
    var pair: seq<nat> := [a, b];
    assert GreedyFrom(pair, 10, 2, b) == [];
    assert GreedyFrom(pair, 10, 1, a) == [1] + [];
  }

  lemma RowIsAcyclic()
    ensures ValidCfg(ROW) && !CyclicFrom(ROW, ROW.entry)
  {
    var s: seq<Block> := [2, 1, 0];
    assert s[..1] == [2] && s[..2] == [2, 1];
    TopoListHasNoCycle(ROW, s, 0);
  }

  lemma RowCosts(costs: seq<int>, within: seq<seq<nat>>)
    requires AreCosts(ROW_CODE, 10, costs) && AreWithin(ROW_CODE, 10, costs, within)
    ensures costs == ROW_COSTS && within == ROW_WITHIN
  {
    hide Sum, Greedy;
    SumOfPair(5, 9);
    SumOfSingle(9);
    SumOfPair(9, 1);
    assert forall b :: 0 <= b < 3 ==> IsCost(ROW_CODE[b], 10, costs[b]);
    GreedyPair(5, 9);
    GreedyPair(9, 1);
  }

  /** The only edge that carries on is the one from the middle block. */
  lemma {:induction false} RowPaths(p: seq<Block>)
    requires Unbroken(ROW, Probes(map[], {}, ROW_COSTS), p)
    ensures Total(Probes(map[], {}, ROW_COSTS), p) <= 10 && (|p| > 1 ==> Last(p) == 2)
    decreases |p|
  {
    if |p| == 1 {
      TotalOfOne(Probes(map[], {}, ROW_COSTS), p[0]);
      assert p == [p[0]];
    } else {
      RowPaths(Init(p));
    }
  }

  lemma RowNeedsNothing()
    ensures PathsBounded(ROW, Probes(map[], {}, ROW_COSTS), 10)
    ensures WithinEndToEnd(ROW, Probes(map[], {}, ROW_COSTS), {2}, 100)
  {
    forall p | Unbroken(ROW, Probes(map[], {}, ROW_COSTS), p)
      ensures Total(Probes(map[], {}, ROW_COSTS), p) <= 10
    {
      RowPaths(p);
    }
  }

  lemma RowStretch(pr: Probes)
    requires Untouched(ROW, pr)
    ensures var p := [0, 1, 2];
            && IsStretch(ROW, ROW_CODE, p, 1, 1) && Reaches(ROW, ROW.entry, p[0])
            && ProbeFree(ROW, pr, ROW_CODE, ROW_WITHIN, p, 1, 1) && StretchCost(ROW, ROW_CODE, p, 1, 1) == 27
  {
    ReachesItself(ROW, 0);
    var p: seq<Block> := [0, 1, 2];
    assert Init(p) == [0, 1] && Init([0, 1]) == [0];
    assert Path(ROW, [0]) && Path(ROW, [0, 1]) && Path(ROW, p);
    assert Forward(ROW, 0, 1) && Forward(ROW, 1, 2);
    assert ROW_CODE[0][1..] == [9] && ROW_CODE[2][..1] == [9] && p[1..2] == [1];
    SumOfSingle(9);
    assert Init([1]) == [];
  }

  /** The pass leaves instructions worth 27 without a probe: the rest of one large block, a block in
      between, and the first part of another large block. */
  method PassOnRow() returns (pr: Probes, within: seq<seq<nat>>, cost: int)
    ensures AreCosts(ROW_CODE, 10, pr.cost) && AreWithin(ROW_CODE, 10, pr.cost, within)
    ensures var p := [0, 1, 2];
            && IsStretch(ROW, ROW_CODE, p, 1, 1) && Reaches(ROW, ROW.entry, p[0]) && |within| == |ROW_CODE|
            && ProbeFree(ROW, pr, ROW_CODE, within, p, 1, 1) && cost == StretchCost(ROW, ROW_CODE, p, 1, 1) == 27
  {
    hide AreCosts, AreWithin, ProbeFree, Untouched, StretchCost, IsStretch, PathsBounded, WithinEndToEnd, ValidCfg;
    hide CyclicFrom;
    RowIsAcyclic();
    var loops, counts;
    pr, loops, within, counts := PlaceProbes(ROW, {2}, ROW_CODE, [[], [], []], 10, 100, [], 0);
    RowCosts(pr.cost, within);
    RowNeedsNothing();
    RowStretch(pr);
    cost := 27;
  }

  // ----- A branch, no block of which reaches the interval

  const DIAMOND := Cfg([[1, 2], [3], [3], []], {}, 0)
  const DIAMOND_CODE: seq<seq<nat>> := [[4, 5], [9], [9], [1]]

  lemma DiamondIsAcyclic()
    ensures ValidCfg(DIAMOND) && !CyclicFrom(DIAMOND, DIAMOND.entry)
  {
    var s: seq<Block> := [3, 2, 1, 0];
    assert s[..1] == [3] && s[..2] == [3, 2] && s[..3] == [3, 2, 1];
    TopoListHasNoCycle(DIAMOND, s, 0);
  }

  lemma DiamondCosts(costs: seq<int>, within: seq<seq<nat>>)
    requires AreCosts(DIAMOND_CODE, 10, costs) && AreWithin(DIAMOND_CODE, 10, costs, within)
    ensures costs == [9, 9, 9, 1] && within == [[], [], [], []] && Terminated(DIAMOND_CODE)
    ensures NoneReaches(DIAMOND_CODE, 10)
  {
    hide Sum, Greedy;
    SumOfPair(4, 5);
    SumOfSingle(9);
    SumOfSingle(1);
    assert forall b :: 0 <= b < 4 ==> IsCost(DIAMOND_CODE[b], 10, costs[b]);
  }

  /** Both edges of the branch have to be probed, so the branch block gets the probe. */
  lemma DiamondBranch(pr: Probes)
    requires pr.cost == [9, 9, 9, 1] && PathsBounded(DIAMOND, pr, 10) && Merged(DIAMOND, pr)
    ensures 0 in pr.blocks && Status(pr, 0, 1) == Uninst && 1 !in pr.blocks
  {
    if 0 !in pr.blocks {
      var v :| v in DIAMOND.succ[0] && Status(pr, 0, v) == Uninst;
      DiamondEdge(pr, v);
    }
  }

  lemma DiamondEdge(pr: Probes, v: Block)
    requires pr.cost == [9, 9, 9, 1] && Carries(DIAMOND, pr, 0, v)
    ensures !PathsBounded(DIAMOND, pr, 10)
  {
    ReachesItself(DIAMOND, 0);
    TotalOfOne(pr, 0);
    ExtendUnbroken(DIAMOND, pr, [0], v);
    assert Unbroken(DIAMOND, pr, [0] + [v]) && Total(pr, [0] + [v]) == 18;
  }

  /** Whatever the pass does, instructions worth 14 are left without a probe: the terminator of the branch
      behind the probe of its block, and the next block. */
  lemma DiamondStretch(pr: Probes, within: seq<seq<nat>>)
    requires Placed(DIAMOND, pr, DIAMOND_CODE, within, 10)
    ensures var p := [0, 1];
            && IsStretch(DIAMOND, DIAMOND_CODE, p, 1, 1) && Reaches(DIAMOND, DIAMOND.entry, p[0])
            && ProbeFree(DIAMOND, pr, DIAMOND_CODE, within, p, 1, 1)
            && StretchCost(DIAMOND, DIAMOND_CODE, p, 1, 1) == 14
  {
    hide Merged, PathsBounded;
    DiamondCosts(pr.cost, within);
    DiamondBranch(pr);
    ReachesItself(DIAMOND, 0);
    var p: seq<Block> := [0, 1];
    assert Init(p) == [0];
    assert Path(DIAMOND, [0]) && Path(DIAMOND, p);
    assert DIAMOND_CODE[0][1..] == [5] && DIAMOND_CODE[1][..1] == [9] && p[1..1] == [];
    SumOfSingle(5);
    SumOfSingle(9);
  }

  method PassOnDiamond() returns (pr: Probes, within: seq<seq<nat>>, cost: int)
    ensures Placed(DIAMOND, pr, DIAMOND_CODE, within, 10) && NoneReaches(DIAMOND_CODE, 10)
    ensures var p := [0, 1];
            && IsStretch(DIAMOND, DIAMOND_CODE, p, 1, 1) && Reaches(DIAMOND, DIAMOND.entry, p[0])
            && ProbeFree(DIAMOND, pr, DIAMOND_CODE, within, p, 1, 1)
            && cost == StretchCost(DIAMOND, DIAMOND_CODE, p, 1, 1) == 14
  {
    hide AreCosts, ProbeFree, StretchCost, IsStretch, PathsBounded, Merged, CyclicFrom;
    DiamondIsAcyclic();
    var loops, counts;
    pr, loops, within, counts := PlaceProbes(DIAMOND, {3}, DIAMOND_CODE, [[], [], [], []], 10, 100, [], 0);
    DiamondCosts(pr.cost, within);
    DiamondStretch(pr, within);
    cost := 14;
  }

  // ----- Two loops that enter each other beside their headers

  /** Block 3 is the header of the back edge from 5, which is reached from 1 as well. */
  const KNOT := Cfg([[1], [2, 5], [3], [4, 6], [1, 7], [3], [5], []], {(4, 1), (5, 3)}, 0)
  const KNOT_CODE: seq<seq<nat>> := [[1], [1], [10], [1], [1], [1], [10], [1]]
  const KNOT_COSTS: seq<int> := [1, 1, 0, 1, 1, 1, 0, 1]

  lemma KnotIsAcyclic()
    ensures ValidCfg(KNOT) && !CyclicFrom(KNOT, KNOT.entry)
  {
    KnotIsSorted();
    TopoListHasNoCycle(KNOT, [7, 4, 5, 6, 3, 2, 1, 0], 0);
  }

  lemma KnotIsSorted()
    ensures TopoList(KNOT, [7, 4, 5, 6, 3, 2, 1, 0])
  {
    var s: seq<Block> := [7, 4, 5, 6, 3, 2, 1, 0];
    assert s[..1] == [7] && s[..3] == [7, 4, 5] && s[..4] == [7, 4, 5, 6];
    assert s[..5] == [7, 4, 5, 6, 3] && s[..6] == [7, 4, 5, 6, 3, 2] && s[..7] == [7, 4, 5, 6, 3, 2, 1];
  }

  lemma KnotIsReached()
    ensures Reaches(KNOT, 0, 1) && Reaches(KNOT, 0, 3)
  {
    hide Reaches;
    ReachesItself(KNOT, 0);
    ReachesStep(KNOT, 0, 0, 1);
    ReachesStep(KNOT, 0, 1, 2);
    ReachesStep(KNOT, 0, 2, 3);
  }

  lemma KnotCosts(costs: seq<int>)
    requires AreCosts(KNOT_CODE, 10, costs)
    ensures costs == KNOT_COSTS
  {
    hide Sum;
    SumOfSingle(1);
    SumOfSingle(10);
    assert forall b :: 0 <= b < 8 ==> IsCost(KNOT_CODE[b], 10, costs[b]);
  }

  const KNOT_LONGEST: seq<int> := [1, 2, 2, 1, 2, 3, 1, 3]

  lemma {:induction false} KnotPaths(p: seq<Block>)
    requires Unbroken(KNOT, Probes(map[], {}, KNOT_COSTS), p)
    ensures Total(Probes(map[], {}, KNOT_COSTS), p) <= KNOT_LONGEST[Last(p)]
    decreases |p|
  {
    if |p| == 1 {
      TotalOfOne(Probes(map[], {}, KNOT_COSTS), p[0]);
      assert p == [p[0]];
    } else {
      KnotPaths(Init(p));
    }
  }

  lemma KnotNeedsNothing()
    ensures PathsBounded(KNOT, Probes(map[], {}, KNOT_COSTS), 10)
    ensures WithinEndToEnd(KNOT, Probes(map[], {}, KNOT_COSTS), {7}, 100)
  {
    forall p | Unbroken(KNOT, Probes(map[], {}, KNOT_COSTS), p)
      ensures Total(Probes(map[], {}, KNOT_COSTS), p) <= 10
    {
      KnotPaths(p);
    }
  }

  /** No unbroken path leads from a header to its latch. */
  lemma {:induction false} KnotIsBroken(pr: Probes, p: seq<Block>)
    requires pr.cost == KNOT_COSTS && Unbroken(KNOT, pr, p)
    ensures p[0] == 1 ==> Last(p) in {1, 2, 5}
    ensures p[0] == 3 ==> Last(p) in {3, 4, 6, 7}
    decreases |p|
  {
    if |p| > 1 {
      KnotIsBroken(pr, Init(p));
    }
  }

  lemma KnotLoops(pr: Probes, loops: map<Edge, LoopProbe>, limits: Limits, e: Edge)
    requires pr.cost == KNOT_COSTS && e in KNOT.back && LoopIsProbed(KNOT, pr, e, loops, limits)
    ensures e.0 in pr.blocks || (e in loops && loops[e].Cancelled?)
  {
    if e in loops && loops[e].Every? {
      var p :| Connects(KNOT, pr, p, e.1, e.0) && Total(pr, p) == loops[e].loopCost;
      KnotIsBroken(pr, p);
    }
  }

  /** Round and round: from 4 back to 1, on to 5, back to 3, on to 4. */
  function Rounds(n: nat): seq<Block> {
    if n == 0 then [4] else Rounds(n - 1) + [1, 5, 3, 4]
  }

  lemma {:induction false} RoundsAreQuiet(pr: Probes, n: nat)
    requires pr.cost == KNOT_COSTS && Untouched(KNOT, pr) && 4 !in pr.blocks && 5 !in pr.blocks
    ensures var w := Rounds(n);
            && Last(w) == 4 && (forall k :: 0 <= k < |w| ==> w[k] < 8) && Total(pr, w) == 4 * n + 1
            && forall k :: 0 <= k < |w| - 1 ==> Quiet(KNOT, pr, w[k], w[k + 1])
  {
    var w := Rounds(n);
    if n == 0 {
      TotalOfOne(pr, 4);
    } else {
      RoundsAreQuiet(pr, n - 1);
      var v := Rounds(n - 1);
      assert Forward(KNOT, 1, 5) && Forward(KNOT, 3, 4);
      forall k | 0 <= k < |w| - 1
        ensures Quiet(KNOT, pr, w[k], w[k + 1])
      {
        assert k < |v| - 1 ==> w[k] == v[k] && w[k + 1] == v[k + 1];
      }
      OneRound(pr, v);
    }
  }

  lemma OneRound(pr: Probes, v: seq<Block>)
    requires pr.cost == KNOT_COSTS
    ensures Total(pr, v + [1, 5, 3, 4]) == Total(pr, v) + 4
  {
    assert v + [1, 5, 3, 4] == v + [1] + [5] + [3] + [4];
    TotalOfSum(pr, v + [1] + [5] + [3], [4]);
    TotalOfSum(pr, v + [1] + [5], [3]);
    TotalOfSum(pr, v + [1], [5]);
    TotalOfSum(pr, v, [1]);
    TotalOfOne(pr, 1);
    TotalOfOne(pr, 5);
    TotalOfOne(pr, 3);
    TotalOfOne(pr, 4);
  }

  lemma {:induction false} CancelledNeverFires(g: Cfg, loops: map<Edge, LoopProbe>, c: Counters, w: seq<Block>)
    requires forall e :: e in g.back ==> !IsCounted(loops, e)
    ensures NoneFires(g, loops, c, w)
    decreases |w|
  {
    if |w| > 1 {
      CancelledNeverFires(g, loops, c, w[1..]);
    }
  }

  /** The pass cancels both loop probes, and no bound holds for what then runs without a probe. */
  method PassOnKnot() returns (pr: Probes, loops: map<Edge, LoopProbe>)
    ensures !Natural(KNOT)
    ensures forall n: nat :: Silent(KNOT, pr, loops, map[], Rounds(n)) && Total(pr, Rounds(n)) == 4 * n + 1
  {
    hide AreCosts, AreWithin, Untouched, PathsBounded, WithinEndToEnd, CyclicFrom, LoopIsProbed, ValidCfg, Merged;
    KnotIsAcyclic();
    KnotIsReached();
    var within, counts;
    pr, loops, within, counts :=
      PlaceProbes(KNOT, {7}, KNOT_CODE, [[], [], [], [], [], [], [], []], 10, 100, [(4, 1), (5, 3)], 0);
    KnotCosts(pr.cost);
    KnotNeedsNothing();
    KnotBlocks(pr);
    KnotLoops(pr, loops, Limits(10, 0, counts), (4, 1));
    KnotLoops(pr, loops, Limits(10, 0, counts), (5, 3));
    forall n: nat
      ensures Silent(KNOT, pr, loops, map[], Rounds(n)) && Total(pr, Rounds(n)) == 4 * n + 1
    {
      RoundsAreQuiet(pr, n);
      CancelledNeverFires(KNOT, loops, map[], Rounds(n));
    }
    KnotIsNotNatural();
  }

  lemma KnotBlocks(pr: Probes)
    requires Untouched(KNOT, pr) && Merged(KNOT, pr)
    ensures 4 !in pr.blocks && 5 !in pr.blocks
  {
    assert Forward(KNOT, 4, 7);
  }

  /** The header 3 can be passed by on the way to 5. */
  lemma KnotIsNotNatural()
    ensures !Natural(KNOT)
  {
    var p: seq<Block> := [0, 1, 5];
    assert Init(p) == [0, 1] && Init([0, 1]) == [0];
    assert Path(KNOT, [0]) && Path(KNOT, [0, 1]) && PathBetween(KNOT, p, 0, 5);
    assert (5, 3) in KNOT.back && 3 !in p;
  }
}
