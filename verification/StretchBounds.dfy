/** What the pass guarantees about the instructions that run between two probes.

    The pass bounds paths of blocks, with blocks that reach the interval counted as nothing and
    probed within, and it puts the probe of a block in front of its terminator.  So the stretch of
    instructions between two probes can begin in the rest of one such block and end in the first
    part of another. */
module StretchBounds {
  import opened ControlFlow
  import opened Distances
  import opened BlockProbes

  /** The instruction costs of each block; every block has its terminator, which is not free. */
  ghost predicate Terminated(code: seq<seq<nat>>) {
    forall b :: 0 <= b < |code| ==> code[b] != [] && Sum(code[b]) > 0
  }

  /** The placement: edge and block probes, and those within the blocks of cost zero. */
  ghost predicate Laid(g: Cfg, pr: Probes, code: seq<seq<nat>>, within: seq<seq<nat>>, interval: int) {
    && ValidCfg(g) && interval > 0 && |code| == |g.succ| && Terminated(code)
    && AreCosts(code, interval, pr.cost) && AreWithin(code, interval, pr.cost, within)
  }

  /** A probe in front of instruction `m` of block `b`. */
  predicate Marked(pr: Probes, code: seq<seq<nat>>, within: seq<seq<nat>>, b: Block, m: nat)
    requires b < |code| == |within|
  {
    m in within[b] || (b in pr.blocks && m == |code[b]| - 1)
  }

  ghost predicate InCode(code: seq<seq<nat>>, p: seq<Block>) {
    forall k :: 0 <= k < |p| ==> p[k] < |code|
  }

  /** What the blocks of `p` cost together. */
  ghost function Run(code: seq<seq<nat>>, p: seq<Block>): nat
    requires InCode(code, p)
  {
    if p == [] then 0 else Run(code, Init(p)) + Sum(code[Last(p)])
  }

  /** The stretch from instruction `i` of the first block up to instruction `j` of the last one. */
  ghost predicate IsStretch(g: Cfg, code: seq<seq<nat>>, p: seq<Block>, i: nat, j: nat) {
    && Path(g, p) && InCode(code, p) && i <= |code[p[0]]| && j <= |code[Last(p)]|
    && (|p| == 1 ==> i <= j)
  }

  ghost function StretchCost(g: Cfg, code: seq<seq<nat>>, p: seq<Block>, i: nat, j: nat): nat
    requires IsStretch(g, code, p, i, j)
  {
    if |p| == 1 then Sum(code[p[0]][i..j])
    else Sum(code[p[0]][i..]) + Run(code, p[1..|p| - 1]) + Sum(code[Last(p)][..j])
  }

  /** Control meets no probe after the start of the stretch and before its end. */
  ghost predicate ProbeFree(g: Cfg, pr: Probes, code: seq<seq<nat>>, within: seq<seq<nat>>, p: seq<Block>,
      i: nat, j: nat)
    requires IsStretch(g, code, p, i, j) && |code| == |within|
  {
    && (forall k :: 0 <= k < |p| - 1 ==> Status(pr, p[k], p[k + 1]) == Uninst)
    && (forall k, m {:trigger Marked(pr, code, within, p[k], m)} ::
          0 <= k < |p| && 0 <= m < |code[p[k]]| && (k == 0 ==> i < m) && (k == |p| - 1 ==> m < j) ==>
            !Marked(pr, code, within, p[k], m))
  }

  /** A block whose cost is counted in full, with no probe of its own. */
  predicate Plain(pr: Probes, b: Block) {
    Cost(pr, b) > 0 && b !in pr.blocks
  }

  lemma MiddleIsPlain(g: Cfg, pr: Probes, code: seq<seq<nat>>, within: seq<seq<nat>>, interval: int, b: Block)
    requires Laid(g, pr, code, within, interval) && b < |code|
    requires forall m :: 0 <= m < |code[b]| ==> !Marked(pr, code, within, b, m)
    ensures Plain(pr, b) && Cost(pr, b) == Sum(code[b])
  {
    hide Sum, Probing, Short, Greedy;
    assert IsCost(code[b], interval, pr.cost[b]);
    assert !Marked(pr, code, within, b, |code[b]| - 1);
    assert within[b] != [] ==> Marked(pr, code, within, b, within[b][0]);
    if Cost(pr, b) == 0 {
      GreedyIsSpaced(code[b], interval);
      FirstProbe(code[b], interval, within[b]);
    }
  }

  lemma FirstProbe(insts: seq<nat>, interval: int, marks: seq<nat>)
    requires Spaced(insts, interval, marks) && Sum(insts) >= interval
    ensures marks != [] && marks[0] < |insts|
  {
    assert ProbeOk(insts, interval, marks, 0);
  }

  lemma {:induction false} ForwardOnPath(g: Cfg, p: seq<Block>, k: nat)
    requires Path(g, p) && k < |p| - 1
    ensures Forward(g, p[k], p[k + 1])
    decreases |p|
  {
    if k < |p| - 2 {
      ForwardOnPath(g, Init(p), k);
    }
  }

  /** A part of a path all of whose edges carry on is unbroken, and costs what its blocks cost. */
  lemma {:induction false} CarriedIsUnbroken(g: Cfg, pr: Probes, code: seq<seq<nat>>, p: seq<Block>)
    requires p != [] && InCode(code, p) && |code| == |g.succ|
    requires forall k :: 0 <= k < |p| - 1 ==>
               Carries(g, pr, p[k], p[k + 1]) && Cost(pr, p[k]) == Sum(code[p[k]])
    ensures Unbroken(g, pr, p) && Total(pr, p) == Run(code, Init(p)) + Cost(pr, Last(p))
    decreases |p|
  {
    if |p| == 1 {
      TotalOfOne(pr, p[0]);
      assert p == [p[0]];
    } else {
      CarriedIsUnbroken(g, pr, code, Init(p));
    }
  }

  lemma {:induction false} RunOfRest(code: seq<seq<nat>>, p: seq<Block>)
    requires p != [] && InCode(code, p)
    ensures Run(code, p) == Sum(code[p[0]]) + Run(code, p[1..])
    decreases |p|
  {
    if |p| == 1 {
      assert Run(code, Init(p)) == 0;
    } else {
      RunOfRest(code, Init(p));
      assert Init(p)[1..] == Init(p[1..]);
    }
  }

  /** The part of the first block counts in full only if that block is not plain. */
  ghost function Before(pr: Probes, code: seq<seq<nat>>, b: Block, i: nat): nat
    requires b < |code| && i <= |code[b]|
  {
    if Plain(pr, b) then 0 else Sum(code[b][i..])
  }

  /** The part of the last block counts in full only if that block is probed within. */
  ghost function Behind(pr: Probes, code: seq<seq<nat>>, b: Block, j: nat): nat
    requires b < |code| && j <= |code[b]|
  {
    if Cost(pr, b) > 0 then 0 else Sum(code[b][..j])
  }

  /** No unbroken path of blocks costs more than the interval. */
  ghost predicate PathsBounded(g: Cfg, pr: Probes, interval: int) {
    forall p :: Unbroken(g, pr, p) && Reaches(g, g.entry, p[0]) ==> Total(pr, p) <= interval
  }

  lemma MiddleCarries(g: Cfg, pr: Probes, code: seq<seq<nat>>, within: seq<seq<nat>>, interval: int,
      p: seq<Block>, i: nat, j: nat, k: nat)
    requires Laid(g, pr, code, within, interval) && IsStretch(g, code, p, i, j)
    requires ProbeFree(g, pr, code, within, p, i, j) && k < |p| - 1 && (k > 0 || Plain(pr, p[0]))
    ensures Carries(g, pr, p[k], p[k + 1]) && Cost(pr, p[k]) == Sum(code[p[k]])
  {
    hide Sum, AreWithin;
    ForwardOnPath(g, p, k);
    if k == 0 {
      assert IsCost(code[p[0]], interval, pr.cost[p[0]]);
    } else {
      MiddleIsPlain(g, pr, code, within, interval, p[k]);
    }
  }

  /** A stretch over several blocks: an unbroken path, and what sticks out at its ends. */
  lemma StretchOverBlocks(g: Cfg, pr: Probes, code: seq<seq<nat>>, within: seq<seq<nat>>, interval: int,
      p: seq<Block>, i: nat, j: nat)
    requires Laid(g, pr, code, within, interval) && PathsBounded(g, pr, interval)
    requires IsStretch(g, code, p, i, j) && |p| > 1 && ProbeFree(g, pr, code, within, p, i, j)
    requires Reaches(g, g.entry, p[0])
    ensures StretchCost(g, code, p, i, j) <= interval + Before(pr, code, p[0], i) + Behind(pr, code, Last(p), j)
  {
    hide Sum, Laid, ProbeFree, AreWithin;
    forall k | 0 <= k < |p| - 1 && (k > 0 || Plain(pr, p[0]))
      ensures Carries(g, pr, p[k], p[k + 1]) && Cost(pr, p[k]) == Sum(code[p[k]])
    {
      MiddleCarries(g, pr, code, within, interval, p, i, j, k);
    }
    LastPart(g, pr, code, within, interval, Last(p), j);
    var q := p[1..];
    assert Init(q) == p[1..|p| - 1] && Last(q) == Last(p);
    if Plain(pr, p[0]) {
      CarriedIsUnbroken(g, pr, code, p);
      RunOfRest(code, Init(p));
      assert Init(p)[1..] == Init(q);
      SumOfPart(code[p[0]], i, |code[p[0]]|);
      assert code[p[0]][i..|code[p[0]]|] == code[p[0]][i..];
    } else {
      CarriedIsUnbroken(g, pr, code, q);
      SecondIsReached(g, pr, code, within, interval, p);
    }
  }

  lemma LastPart(g: Cfg, pr: Probes, code: seq<seq<nat>>, within: seq<seq<nat>>, interval: int, b: Block, j: nat)
    requires Laid(g, pr, code, within, interval) && b < |code| && j <= |code[b]|
    ensures |code| == |g.succ| && Sum(code[b][..j]) <= Cost(pr, b) + Behind(pr, code, b, j)
  {
    hide AreWithin;
    assert IsCost(code[b], interval, pr.cost[b]);
    SumOfPart(code[b], 0, j);
    assert code[b][0..j] == code[b][..j];
  }

  lemma SecondIsReached(g: Cfg, pr: Probes, code: seq<seq<nat>>, within: seq<seq<nat>>, interval: int, p: seq<Block>)
    requires Laid(g, pr, code, within, interval) && Path(g, p) && |p| > 1 && Reaches(g, g.entry, p[0])
    ensures Reaches(g, g.entry, p[1])
  {
    ForwardOnPath(g, p, 0);
    ReachesStep(g, g.entry, p[0], p[1]);
  }

  /** What sticks out at the start: below the interval, or one instruction. */
  lemma BeforeIsShort(g: Cfg, pr: Probes, code: seq<seq<nat>>, within: seq<seq<nat>>, interval: int, b: Block, i: nat)
    requires Laid(g, pr, code, within, interval) && b < |code| && i <= |code[b]|
    requires forall m :: i < m < |code[b]| ==> !Marked(pr, code, within, b, m)
    ensures Before(pr, code, b, i) < interval || i == |code[b]| - 1
  {
    hide Sum, Spaced, Greedy;
    assert IsCost(code[b], interval, pr.cost[b]);
    if Cost(pr, b) == 0 {
      forall m | m in within[b]
        ensures !(i < m < |code[b]|)
      {
        assert Marked(pr, code, within, b, m);
      }
      GreedyIsSpaced(code[b], interval);
      UnprobedInstructions(code[b], interval, within[b], i, |code[b]|);
      assert code[b][i..|code[b]|] == code[b][i..];
    } else if b in pr.blocks {
      assert Marked(pr, code, within, b, |code[b]| - 1);
      NoInstruction(code[b], |code[b]|);
      assert i == |code[b]| ==> code[b][i..] == code[b][i..i];
    }
  }

  /** What sticks out at the end. */
  lemma BehindIsShort(g: Cfg, pr: Probes, code: seq<seq<nat>>, within: seq<seq<nat>>, interval: int, b: Block, j: nat)
    requires Laid(g, pr, code, within, interval) && b < |code| && j <= |code[b]|
    requires forall m :: 0 <= m < j ==> !Marked(pr, code, within, b, m)
    ensures Behind(pr, code, b, j) < interval || j == 1
  {
    hide Sum, Spaced, Greedy;
    assert IsCost(code[b], interval, pr.cost[b]);
    if Cost(pr, b) == 0 {
      forall m | m in within[b]
        ensures !(0 < m < j)
      {
        assert Marked(pr, code, within, b, m);
      }
      GreedyIsSpaced(code[b], interval);
      UnprobedInstructions(code[b], interval, within[b], 0, j);
      assert code[b][0..j] == code[b][..j];
    }
  }

  /** Both together are worth at most twice the interval, if no instruction is worth more than one. */
  lemma EndsAreShort(g: Cfg, pr: Probes, code: seq<seq<nat>>, within: seq<seq<nat>>, interval: int, a: Block, i: nat,
      b: Block, j: nat)
    requires Laid(g, pr, code, within, interval) && NoneAbove(code, interval)
    requires a < |code| && i <= |code[a]| && b < |code| && j <= |code[b]|
    requires forall m :: i < m < |code[a]| ==> !Marked(pr, code, within, a, m)
    requires forall m :: 0 <= m < j ==> !Marked(pr, code, within, b, m)
    ensures Before(pr, code, a, i) + Behind(pr, code, b, j) <= 2 * interval
  {
    hide Sum, AreWithin, AreCosts;
    BeforeIsShort(g, pr, code, within, interval, a, i);
    BehindIsShort(g, pr, code, within, interval, b, j);
    if i == |code[a]| - 1 {
      SumOfOne(code[a], i);
      assert code[a][i..] == code[a][i..i + 1];
    }
    if j == 1 {
      SumOfOne(code[b], 0);
      assert code[b][..1] == code[b][0..1];
    }
  }

  ghost predicate NoneAbove(code: seq<seq<nat>>, interval: int) {
    forall b, i :: 0 <= b < |code| && 0 <= i < |code[b]| ==> code[b][i] <= interval
  }

  lemma StretchInBlock(g: Cfg, pr: Probes, code: seq<seq<nat>>, within: seq<seq<nat>>, interval: int,
      p: seq<Block>, i: nat, j: nat)
    requires Laid(g, pr, code, within, interval) && IsStretch(g, code, p, i, j) && |p| == 1
    requires ProbeFree(g, pr, code, within, p, i, j)
    ensures StretchCost(g, code, p, i, j) < interval || j == i + 1
  {
    hide Sum, Spaced, Greedy;
    var b := p[0];
    assert IsCost(code[b], interval, pr.cost[b]);
    if Cost(pr, b) == 0 {
      forall m | m in within[b]
        ensures !(i < m < j)
      {
        assert Marked(pr, code, within, p[0], m);
      }
      GreedyIsSpaced(code[b], interval);
      UnprobedInstructions(code[b], interval, within[b], i, j);
    } else {
      SumOfPart(code[b], i, j);
    }
  }

  /** Between two probes instructions worth at most the interval run, if the stretch starts in a block
      without a probe of its own and ends in one that is not probed within; in general three times
      the interval, if no single instruction is worth more than one. */
  lemma StretchIsBounded(g: Cfg, pr: Probes, code: seq<seq<nat>>, within: seq<seq<nat>>, interval: int,
      p: seq<Block>, i: nat, j: nat)
    requires Laid(g, pr, code, within, interval) && PathsBounded(g, pr, interval)
    requires IsStretch(g, code, p, i, j) && ProbeFree(g, pr, code, within, p, i, j) && Reaches(g, g.entry, p[0])
    ensures Plain(pr, p[0]) && Cost(pr, Last(p)) > 0 ==> StretchCost(g, code, p, i, j) <= interval
    ensures NoneAbove(code, interval) ==> StretchCost(g, code, p, i, j) <= 3 * interval
  {
    hide Sum, AreWithin, PathsBounded;
    if |p| == 1 {
      StretchInBlock(g, pr, code, within, interval, p, i, j);
      assert IsCost(code[p[0]], interval, pr.cost[p[0]]);
      SumOfPart(code[p[0]], i, j);
      if j == i + 1 {
        SumOfOne(code[p[0]], i);
      }
    } else {
      StretchOverBlocks(g, pr, code, within, interval, p, i, j);
      if NoneAbove(code, interval) {
        assert Last(p) == p[|p| - 1];
        EndsAreShort(g, pr, code, within, interval, p[0], i, Last(p), j);
      }
    }
  }

  /** The instructions that run between two probes are worth at most `limit`. */
  ghost predicate StretchesBounded(g: Cfg, pr: Probes, code: seq<seq<nat>>, within: seq<seq<nat>>, limit: int)
    requires |code| == |within|
  {
    forall p, i, j ::
      IsStretch(g, code, p, i, j) && ProbeFree(g, pr, code, within, p, i, j) && Reaches(g, g.entry, p[0]) ==>
        StretchCost(g, code, p, i, j) <= limit
  }

  lemma BoundStretches(g: Cfg, pr: Probes, code: seq<seq<nat>>, within: seq<seq<nat>>, interval: int)
    requires Laid(g, pr, code, within, interval) && PathsBounded(g, pr, interval) && NoneAbove(code, interval)
    ensures StretchesBounded(g, pr, code, within, 3 * interval)
  {
    hide PathsBounded, NoneAbove, ProbeFree, Terminated, AreCosts;
    forall p, i: nat, j: nat |
        IsStretch(g, code, p, i, j) && ProbeFree(g, pr, code, within, p, i, j) && Reaches(g, g.entry, p[0])
      ensures StretchCost(g, code, p, i, j) <= 3 * interval
    {
      StretchIsBounded(g, pr, code, within, interval, p, i, j);
    }
  }

  // ----- What a caller can tell beforehand

  /** A block has a probe in front of its terminator exactly if it branches and all its edges were to be
      probed; then none of them is. */
  ghost predicate Merged(g: Cfg, pr: Probes) {
    && (forall b :: b in pr.blocks ==>
          b < |g.succ| && |g.succ[b]| >= 2 && forall v :: v in g.succ[b] ==> Status(pr, b, v) == Uninst)
    && (forall b :: 0 <= b < |g.succ| && |g.succ[b]| >= 2 && b !in pr.blocks ==>
          exists v :: v in g.succ[b] && Status(pr, b, v) == Uninst)
  }

  /** Everything that the pass establishes about single blocks and paths of blocks. */
  ghost predicate Placed(g: Cfg, pr: Probes, code: seq<seq<nat>>, within: seq<seq<nat>>, interval: int) {
    Laid(g, pr, code, within, interval) && PathsBounded(g, pr, interval) && Merged(g, pr)
  }

  ghost predicate NoneReaches(code: seq<seq<nat>>, interval: int) {
    forall b :: 0 <= b < |code| ==> Sum(code[b]) < interval
  }

  /** The terminators of the blocks that branch are worth at most `t`. */
  ghost predicate BranchesEnd(g: Cfg, code: seq<seq<nat>>, t: nat) {
    |code| == |g.succ| &&
    forall b :: 0 <= b < |code| && |g.succ[b]| >= 2 && code[b] != [] ==> code[b][|code[b]| - 1] <= t
  }

  /** In a function without blocks that reach the interval only the terminator of a branch can come on
      top of it: the probe of its block is in front of it. */
  lemma SmallBlocksKeepTheInterval(g: Cfg, pr: Probes, code: seq<seq<nat>>, within: seq<seq<nat>>, interval: int,
      t: nat)
    requires Placed(g, pr, code, within, interval) && NoneReaches(code, interval) && BranchesEnd(g, code, t)
    ensures StretchesBounded(g, pr, code, within, interval + t)
  {
    hide Sum, PathsBounded, ProbeFree, Greedy, IsCost;
    forall p, i: nat, j: nat |
        IsStretch(g, code, p, i, j) && ProbeFree(g, pr, code, within, p, i, j) && Reaches(g, g.entry, p[0])
      ensures StretchCost(g, code, p, i, j) <= interval + t
    {
      SmallIsCounted(code, interval, pr.cost, Last(p));
      SmallIsCounted(code, interval, pr.cost, p[0]);
      StretchIsBounded(g, pr, code, within, interval, p, i, j);
      if p[0] in pr.blocks {
        BranchSticksOut(g, pr, code, within, interval, p, i, j, t);
      }
    }
  }

  lemma SmallIsCounted(code: seq<seq<nat>>, interval: int, costs: seq<int>, b: Block)
    requires AreCosts(code, interval, costs) && Terminated(code) && NoneReaches(code, interval) && b < |code|
    ensures costs[b] > 0
  {
    assert IsCost(code[b], interval, costs[b]);
  }

  lemma BranchSticksOut(g: Cfg, pr: Probes, code: seq<seq<nat>>, within: seq<seq<nat>>, interval: int,
      p: seq<Block>, i: nat, j: nat, t: nat)
    requires Placed(g, pr, code, within, interval) && NoneReaches(code, interval) && BranchesEnd(g, code, t)
    requires IsStretch(g, code, p, i, j) && ProbeFree(g, pr, code, within, p, i, j) && Reaches(g, g.entry, p[0])
    requires p[0] in pr.blocks && Cost(pr, Last(p)) > 0
    ensures StretchCost(g, code, p, i, j) <= interval + t
  {
    hide Sum, PathsBounded, Greedy;
    var first := code[p[0]];
    if |p| == 1 {
      SumOfPart(first, i, j);
    } else {
      StretchOverBlocks(g, pr, code, within, interval, p, i, j);
      assert Marked(pr, code, within, p[0], |first| - 1);
      NoInstruction(first, |first|);
      SumOfOne(first, |first| - 1);
      assert first[i..] == if i == |first| then first[|first|..|first|] else first[|first| - 1..|first|];
    }
  }
}
