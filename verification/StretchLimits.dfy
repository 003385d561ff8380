/** Exactly which stretches of instructions the pass may leave without a probe, told from the graph,
    the instruction costs and the commit interval alone. */
module StretchLimits {
  import opened ControlFlow
  import opened Distances
  import opened BlockProbes
  import opened StretchBounds

  // ----- The condition

  /** What the pass counts for the blocks of `p`. */
  ghost function Budget(code: seq<seq<nat>>, interval: int, p: seq<Block>): int
    requires InCode(code, p)
  {
    if p == [] then 0 else Budget(code, interval, Init(p)) + CostIn(code[Last(p)], interval)
  }

  function WithinOf(code: seq<seq<nat>>, interval: int, b: Block): seq<nat>
    requires b < |code|
  {
    if CostIn(code[b], interval) == 0 then Greedy(code[b], interval) else []
  }

  /** The pass can leave the edges of `p` alone: its blocks are within the interval, or those after the
      first one are, and that one branches, with its probe in front of the terminator. */
  ghost predicate Affordable(g: Cfg, code: seq<seq<nat>>, interval: int, p: seq<Block>, i: nat)
    requires p != [] && InCode(code, p) && |code| == |g.succ|
  {
    || Budget(code, interval, p) <= interval
    || (|g.succ[p[0]]| >= 2 && i >= |code[p[0]]| - 1 && Budget(code, interval, p[1..]) <= interval)
  }

  /** A stretch that takes in the terminator of a branch needs an edge there that carries no probe. */
  ghost predicate OpenEnd(g: Cfg, code: seq<seq<nat>>, interval: int, p: seq<Block>, i: nat, j: nat)
    requires p != [] && InCode(code, p) && |code| == |g.succ|
  {
    var b := Last(p);
    CostIn(code[b], interval) > 0 && |g.succ[b]| >= 2 && j == |code[b]| ==>
      exists v :: v in g.succ[b] && ((b, v) in g.back || (v < |code| && Affordable(g, code, interval, p + [v], i)))
  }

  /** The stretch over several blocks starts behind the probes within its first block, ends before those
      within its last block, has no others on its way, and its edges can be left alone. */
  ghost predicate Leavable(g: Cfg, code: seq<seq<nat>>, interval: int, p: seq<Block>, i: nat, j: nat) {
    && |code| == |g.succ| && IsStretch(g, code, p, i, j) && |p| > 1 && Reaches(g, g.entry, p[0])
    && (forall k :: 0 < k < |p| - 1 ==> CostIn(code[p[k]], interval) > 0)
    && (forall m :: m in WithinOf(code, interval, p[0]) ==> m <= i)
    && (forall m :: m in WithinOf(code, interval, Last(p)) ==> j <= m)
    && Affordable(g, code, interval, p, i) && OpenEnd(g, code, interval, p, i, j)
  }

  // ----- What is left is leavable

  lemma CostsAre(g: Cfg, pr: Probes, code: seq<seq<nat>>, within: seq<seq<nat>>, interval: int, b: Block)
    requires Laid(g, pr, code, within, interval) && b < |code|
    ensures Cost(pr, b) == CostIn(code[b], interval) && within[b] == WithinOf(code, interval, b)
  {
    assert IsCost(code[b], interval, pr.cost[b]);
    CostIsUnique(code[b], interval, pr.cost[b]);
  }

  lemma {:induction false} TotalIsBudget(g: Cfg, pr: Probes, code: seq<seq<nat>>, within: seq<seq<nat>>, interval: int,
      p: seq<Block>)
    requires Laid(g, pr, code, within, interval) && InCode(code, p)
    ensures Total(pr, p) == Budget(code, interval, p)
    decreases |p|
  {
    hide Laid;
    if p != [] {
      CostsAre(g, pr, code, within, interval, Last(p));
      TotalIsBudget(g, pr, code, within, interval, Init(p));
    }
  }

  lemma {:induction false} BudgetOfRest(code: seq<seq<nat>>, interval: int, p: seq<Block>)
    requires p != [] && InCode(code, p)
    ensures Budget(code, interval, p) == CostIn(code[p[0]], interval) + Budget(code, interval, p[1..])
    decreases |p|
  {
    if |p| == 1 {
      assert Budget(code, interval, Init(p)) == 0;
    } else {
      BudgetOfRest(code, interval, Init(p));
      assert Init(p)[1..] == Init(p[1..]);
    }
  }

  /** A path with no probe on it, but perhaps one in front of the terminator it starts with. */
  ghost predicate Bare(g: Cfg, pr: Probes, code: seq<seq<nat>>, p: seq<Block>, i: nat) {
    && Path(g, p) && |p| > 1 && InCode(code, p) && Reaches(g, g.entry, p[0])
    && (forall k :: 0 <= k < |p| - 1 ==> Status(pr, p[k], p[k + 1]) == Uninst)
    && (forall k :: 0 < k < |p| - 1 ==> Plain(pr, p[k]) && Cost(pr, p[k]) == Sum(code[p[k]]))
    && (p[0] in pr.blocks ==> i >= |code[p[0]]| - 1)
  }

  lemma BareIsAffordable(g: Cfg, pr: Probes, code: seq<seq<nat>>, within: seq<seq<nat>>, interval: int,
      p: seq<Block>, i: nat)
    requires Placed(g, pr, code, within, interval) && Bare(g, pr, code, p, i)
    ensures Affordable(g, code, interval, p, i)
  {
    hide Sum, AreWithin, AreCosts, CostIn, Terminated;
    forall k | 0 <= k < |p| - 1
      ensures Forward(g, p[k], p[k + 1])
    {
      ForwardOnPath(g, p, k);
    }
    CostsAre(g, pr, code, within, interval, p[0]);
    BudgetOfRest(code, interval, p);
    var q := p[1..];
    if Plain(pr, p[0]) {
      PlainIsCounted(g, pr, code, within, interval, p[0]);
      CarriedIsUnbroken(g, pr, code, p);
      TotalIsBudget(g, pr, code, within, interval, p);
    } else {
      assert forall k :: 0 <= k < |q| ==> q[k] == p[k + 1];
      CarriedIsUnbroken(g, pr, code, q);
      SecondIsReached(g, pr, code, within, interval, p);
      TotalIsBudget(g, pr, code, within, interval, q);
      CostIsNatural(code[p[0]], interval);
    }
  }

  lemma CostIsNatural(insts: seq<nat>, interval: int)
    ensures CostIn(insts, interval) >= 0
  {
  }

  lemma PlainIsCounted(g: Cfg, pr: Probes, code: seq<seq<nat>>, within: seq<seq<nat>>, interval: int, b: Block)
    requires Laid(g, pr, code, within, interval) && b < |code| && Plain(pr, b)
    ensures Cost(pr, b) == Sum(code[b])
  {
    assert IsCost(code[b], interval, pr.cost[b]);
  }

  lemma GreedyInRange(insts: seq<nat>, interval: int, m: nat)
    requires interval > 0 && m in Greedy(insts, interval)
    ensures m < |insts|
  {
    GreedyIsSpaced(insts, interval);
    var k :| 0 <= k < |Greedy(insts, interval)| && Greedy(insts, interval)[k] == m;
    assert ProbeOk(insts, interval, Greedy(insts, interval), k);
  }

  lemma LeftIsBare(g: Cfg, pr: Probes, code: seq<seq<nat>>, within: seq<seq<nat>>, interval: int,
      p: seq<Block>, i: nat, j: nat)
    requires Laid(g, pr, code, within, interval) && IsStretch(g, code, p, i, j) && |p| > 1
    requires ProbeFree(g, pr, code, within, p, i, j) && Reaches(g, g.entry, p[0])
    ensures Bare(g, pr, code, p, i)
    ensures forall k :: 0 < k < |p| - 1 ==> CostIn(code[p[k]], interval) > 0
  {
    hide Sum, Greedy, CostIn;
    forall k | 0 < k < |p| - 1
      ensures Plain(pr, p[k]) && Cost(pr, p[k]) == Sum(code[p[k]]) && CostIn(code[p[k]], interval) > 0
    {
      MiddleIsPlain(g, pr, code, within, interval, p[k]);
      CostsAre(g, pr, code, within, interval, p[k]);
    }
    assert p[0] in pr.blocks ==> Marked(pr, code, within, p[0], |code[p[0]]| - 1);
  }

  lemma MarksAreOutside(g: Cfg, pr: Probes, code: seq<seq<nat>>, within: seq<seq<nat>>, interval: int,
      p: seq<Block>, i: nat, j: nat)
    requires Laid(g, pr, code, within, interval) && IsStretch(g, code, p, i, j) && |p| > 1
    requires ProbeFree(g, pr, code, within, p, i, j)
    ensures forall m :: m in WithinOf(code, interval, p[0]) ==> m <= i
    ensures forall m :: m in WithinOf(code, interval, Last(p)) ==> j <= m
  {
    hide Sum, Greedy, CostIn;
    CostsAre(g, pr, code, within, interval, p[0]);
    CostsAre(g, pr, code, within, interval, Last(p));
    forall m | m in WithinOf(code, interval, p[0])
      ensures m <= i
    {
      GreedyInRange(code[p[0]], interval, m);
      assert Marked(pr, code, within, p[0], m);
    }
    forall m | m in WithinOf(code, interval, Last(p))
      ensures j <= m
    {
      GreedyInRange(code[Last(p)], interval, m);
      assert Marked(pr, code, within, p[|p| - 1], m);
    }
  }

  lemma EndIsOpen(g: Cfg, pr: Probes, code: seq<seq<nat>>, within: seq<seq<nat>>, interval: int,
      p: seq<Block>, i: nat, j: nat)
    requires Placed(g, pr, code, within, interval) && IsStretch(g, code, p, i, j)
    requires ProbeFree(g, pr, code, within, p, i, j) && Bare(g, pr, code, p, i)
    ensures OpenEnd(g, code, interval, p, i, j)
  {
    hide Sum, Greedy, CostIn, Affordable;
    var b := Last(p);
    CostsAre(g, pr, code, within, interval, b);
    if CostIn(code[b], interval) > 0 && |g.succ[b]| >= 2 && j == |code[b]| {
      assert b in pr.blocks ==> Marked(pr, code, within, p[|p| - 1], |code[b]| - 1);
      PlainIsCounted(g, pr, code, within, interval, b);
      var v :| v in g.succ[b] && Status(pr, b, v) == Uninst;
      if (b, v) !in g.back {
        var q := p + [v];
        assert Init(q) == p;
        assert forall k :: 0 <= k < |p| ==> q[k] == p[k];
        BareIsAffordable(g, pr, code, within, interval, q, i);
      }
    }
  }

  lemma LeftIsLeavable(g: Cfg, pr: Probes, code: seq<seq<nat>>, within: seq<seq<nat>>, interval: int,
      p: seq<Block>, i: nat, j: nat)
    requires Placed(g, pr, code, within, interval) && IsStretch(g, code, p, i, j) && |p| > 1
    requires ProbeFree(g, pr, code, within, p, i, j) && Reaches(g, g.entry, p[0])
    ensures Leavable(g, code, interval, p, i, j)
  {
    hide ProbeFree, Bare, WithinOf, CostIn, Affordable, OpenEnd, PathsBounded, Merged;
    LeftIsBare(g, pr, code, within, interval, p, i, j);
    MarksAreOutside(g, pr, code, within, interval, p, i, j);
    BareIsAffordable(g, pr, code, within, interval, p, i);
    EndIsOpen(g, pr, code, within, interval, p, i, j);
  }

  // ----- What is leavable can be left

  ghost predicate OnPath(p: seq<Block>, u: Block, v: Block) {
    exists k :: 0 <= k < |p| - 1 && p[k] == u && p[k + 1] == v
  }

  ghost function Edges(g: Cfg): set<Edge> {
    set u, i | 0 <= u < |g.succ| && 0 <= i < |g.succ[u]| :: (u, g.succ[u][i])
  }

  /** The forward edges that are not on `p`. */
  ghost function Others(g: Cfg, p: seq<Block>): set<Edge> {
    set e | e in Edges(g) && e !in g.back && !OnPath(p, e.0, e.1)
  }

  /** The branches with probes on all edges, and the first block of `p` if it is to have one. */
  ghost function Branches(g: Cfg, p: seq<Block>, atFirst: bool): set<Block>
    requires p != []
  {
    (set b | 0 <= b < |g.succ| && |g.succ[b]| >= 2 && forall v :: v in g.succ[b] ==> (b, v) in Others(g, p))
    + (if atFirst then {p[0]} else {})
  }

  /** The placement that leaves `p` alone and probes every other edge, directly or in the block before. */
  ghost function Sparing(g: Cfg, code: seq<seq<nat>>, interval: int, p: seq<Block>, atFirst: bool): Probes
    requires p != []
  {
    var blocks := Branches(g, p, atFirst);
    Probes(map e | e in Others(g, p) && e.0 !in blocks :: NormInst, blocks,
           seq(|code|, b requires 0 <= b < |code| => CostIn(code[b], interval)))
  }

  ghost function AllWithin(code: seq<seq<nat>>, interval: int): seq<seq<nat>> {
    seq(|code|, b requires 0 <= b < |code| => WithinOf(code, interval, b))
  }

  lemma SparingStatus(g: Cfg, code: seq<seq<nat>>, interval: int, p: seq<Block>, atFirst: bool, u: Block, v: Block)
    requires p != []
    ensures var pr := Sparing(g, code, interval, p, atFirst);
            Status(pr, u, v) == if Forward(g, u, v) && !OnPath(p, u, v) && u !in pr.blocks then NormInst else Uninst
  {
    var pr := Sparing(g, code, interval, p, atFirst);
    if IsEdge(g, u, v) {
      var i :| 0 <= i < |g.succ[u]| && g.succ[u][i] == v;
      assert (u, v) in Edges(g);
    }
    assert (u, v) in pr.edges <==> (u, v) in Others(g, p) && u !in pr.blocks;
  }

  lemma SparingIsLaid(g: Cfg, code: seq<seq<nat>>, interval: int, p: seq<Block>, atFirst: bool)
    requires ValidCfg(g) && interval > 0 && |code| == |g.succ| && Terminated(code) && p != []
    ensures Laid(g, Sparing(g, code, interval, p, atFirst), code, AllWithin(code, interval), interval)
  {
    hide Sum, Greedy, Branches, Others;
    var pr := Sparing(g, code, interval, p, atFirst);
    forall b | 0 <= b < |code|
      ensures IsCost(code[b], interval, pr.cost[b])
    {
      CostIsUnique(code[b], interval, pr.cost[b]);
    }
  }

  lemma SparingIsMerged(g: Cfg, code: seq<seq<nat>>, interval: int, p: seq<Block>, atFirst: bool)
    requires p != [] && p[0] < |g.succ| && (atFirst ==> |g.succ[p[0]]| >= 2)
    ensures Merged(g, Sparing(g, code, interval, p, atFirst))
  {
    var pr := Sparing(g, code, interval, p, atFirst);
    forall u: Block, v: Block
      ensures Status(pr, u, v) == if Forward(g, u, v) && !OnPath(p, u, v) && u !in pr.blocks then NormInst else Uninst
    {
      SparingStatus(g, code, interval, p, atFirst, u, v);
    }
    forall b | 0 <= b < |g.succ| && |g.succ[b]| >= 2 && b !in pr.blocks
      ensures exists v :: v in g.succ[b] && Status(pr, b, v) == Uninst
    {
      var v :| v in g.succ[b] && (b, v) !in Others(g, p);
      var i :| 0 <= i < |g.succ[b]| && g.succ[b][i] == v;
      assert (b, v) in Edges(g);
    }
  }

  ghost predicate Simple(p: seq<Block>) {
    forall k, m :: 0 <= k < m < |p| ==> p[k] != p[m]
  }

  /** Without a cycle of forward edges no path meets a block twice. */
  lemma PathsAreSimple(g: Cfg, p: seq<Block>)
    requires Path(g, p) && Reaches(g, g.entry, p[0]) && !CyclicFrom(g, g.entry)
    ensures Simple(p)
  {
    forall k, m | 0 <= k < m < |p|
      ensures p[k] != p[m]
    {
      if p[k] == p[m] {
        var c := p[k..m + 1];
        PartOfPath(g, p, k, m);
        ReachesPart(g, p, k);
        assert IsCycleFrom(g, g.entry, c);
      }
    }
  }

  lemma {:induction false} PartOfPath(g: Cfg, p: seq<Block>, k: nat, m: nat)
    requires Path(g, p) && k <= m < |p|
    ensures PathBetween(g, p[k..m + 1], p[k], p[m])
    decreases |p| + m
  {
    if m < |p| - 1 {
      PartOfPath(g, Init(p), k, m);
      assert Init(p)[k..m + 1] == p[k..m + 1];
    } else if k < m {
      PartOfPath(g, Init(p), k, m - 1);
      assert Init(p)[k..m] == p[k..m];
      assert Init(p[k..m + 1]) == p[k..m];
    } else {
      assert p[k..m + 1] == [p[k]];
    }
  }

  lemma {:induction false} JoinPaths(g: Cfg, p: seq<Block>, q: seq<Block>)
    requires Path(g, p) && Path(g, q) && Last(p) == q[0]
    ensures PathBetween(g, p + q[1..], p[0], Last(q))
    decreases |q|
  {
    if |q| == 1 {
      assert p + q[1..] == p;
    } else {
      JoinPaths(g, p, Init(q));
      assert Init(p + q[1..]) == p + Init(q)[1..];
    }
  }

  lemma ReachesPart(g: Cfg, p: seq<Block>, k: nat)
    requires Path(g, p) && Reaches(g, g.entry, p[0]) && k < |p|
    ensures Reaches(g, g.entry, p[k])
  {
    var q :| PathBetween(g, q, g.entry, p[0]);
    PartOfPath(g, p, 0, k);
    assert p[..k + 1] == p[0..k + 1];
    JoinPaths(g, q, p[..k + 1]);
    assert PathBetween(g, q + p[..k + 1][1..], g.entry, p[k]);
  }

  /** The unbroken paths of that placement are single blocks and parts of `p`. */
  lemma {:induction false} UnbrokenIsPart(g: Cfg, code: seq<seq<nat>>, interval: int, p: seq<Block>, atFirst: bool,
      r: seq<Block>) returns (k: nat)
    requires p != [] && Simple(p) && Unbroken(g, Sparing(g, code, interval, p, atFirst), r) && |r| > 1
    ensures k + |r| <= |p| && r == p[k..k + |r|] && (atFirst ==> k > 0)
    decreases |r|
  {
    hide Branches, Others, Sparing, Simple;
    var pr := Sparing(g, code, interval, p, atFirst);
    var u, v := Last(Init(r)), Last(r);
    SparingStatus(g, code, interval, p, atFirst, u, v);
    var m :| 0 <= m < |p| - 1 && p[m] == u && p[m + 1] == v;
    if |r| == 2 {
      k := m;
      assert r == [u, v] == p[m..m + 2];
      FirstHasProbe(g, code, interval, p, atFirst);
    } else {
      k := UnbrokenIsPart(g, code, interval, p, atFirst, Init(r));
      var n := k + |r| - 2;
      assert p[n] == Init(r)[|r| - 2];
      SamePlace(p, m, n);
      assert p[k..k + |r|] == p[k..k + |r| - 1] + [p[k + |r| - 1]];
      assert r == Init(r) + [v];
    }
  }

  lemma FirstHasProbe(g: Cfg, code: seq<seq<nat>>, interval: int, p: seq<Block>, atFirst: bool)
    requires p != []
    ensures atFirst ==> p[0] in Sparing(g, code, interval, p, atFirst).blocks
  {
  }

  lemma SamePlace(p: seq<Block>, m: nat, n: nat)
    requires Simple(p) && m < |p| && n < |p| && p[m] == p[n]
    ensures m == n
  {
  }

  lemma {:induction false} BudgetOfPart(code: seq<seq<nat>>, interval: int, p: seq<Block>, k: nat, m: nat)
    requires InCode(code, p) && k <= m <= |p|
    ensures 0 <= Budget(code, interval, p[k..m]) <= Budget(code, interval, p)
    decreases |p|
  {
    if m < |p| {
      BudgetOfPart(code, interval, Init(p), k, m);
      assert Init(p)[k..m] == p[k..m];
    } else if k < |p| {
      BudgetOfPart(code, interval, Init(p), k, m - 1);
      assert Init(p)[k..m - 1] == Init(p[k..m]);
    } else if p != [] {
      BudgetOfPart(code, interval, Init(p), k - 1, m - 1);
      assert Init(p)[k - 1..m - 1] == p[k..m];
    }
  }

  lemma SparingIsBounded(g: Cfg, code: seq<seq<nat>>, interval: int, p: seq<Block>, atFirst: bool)
    requires ValidCfg(g) && interval > 0 && |code| == |g.succ| && Terminated(code)
    requires p != [] && Simple(p) && InCode(code, p)
    requires Budget(code, interval, if atFirst then p[1..] else p) <= interval
    ensures PathsBounded(g, Sparing(g, code, interval, p, atFirst), interval)
  {
    hide Terminated, Simple, Sparing, Laid, CostIn, Reaches, Budget, InCode;
    var pr := Sparing(g, code, interval, p, atFirst);
    SparingIsLaid(g, code, interval, p, atFirst);
    forall r | Unbroken(g, pr, r)
      ensures Total(pr, r) <= interval
    {
      if |r| == 1 {
        CostIsBelow(g, pr, code, AllWithin(code, interval), interval, r);
      } else {
        PartFits(g, code, interval, p, atFirst, r);
      }
    }
  }

  lemma PartFits(g: Cfg, code: seq<seq<nat>>, interval: int, p: seq<Block>, atFirst: bool, r: seq<Block>)
    requires p != [] && Simple(p) && InCode(code, p)
    requires Budget(code, interval, if atFirst then p[1..] else p) <= interval
    requires Laid(g, Sparing(g, code, interval, p, atFirst), code, AllWithin(code, interval), interval)
    requires Unbroken(g, Sparing(g, code, interval, p, atFirst), r) && |r| > 1
    ensures Total(Sparing(g, code, interval, p, atFirst), r) <= interval
  {
    hide Simple, Sparing, Laid, CostIn, Budget;
    var pr := Sparing(g, code, interval, p, atFirst);
    var k := UnbrokenIsPart(g, code, interval, p, atFirst, r);
    TotalIsBudget(g, pr, code, AllWithin(code, interval), interval, r);
    if atFirst {
      BudgetOfPart(code, interval, p[1..], k - 1, k - 1 + |r|);
      assert p[1..][k - 1..k - 1 + |r|] == r;
    } else {
      BudgetOfPart(code, interval, p, k, k + |r|);
    }
  }

  lemma CostIsBelow(g: Cfg, pr: Probes, code: seq<seq<nat>>, within: seq<seq<nat>>, interval: int, r: seq<Block>)
    requires Laid(g, pr, code, within, interval) && |r| == 1 && r[0] < |g.succ|
    ensures Total(pr, r) <= interval
  {
    TotalOfOne(pr, r[0]);
    assert r == [r[0]];
    assert IsCost(code[r[0]], interval, pr.cost[r[0]]);
  }

  /** On the spared path only the first block can have a probe, and the last one if all its edges do. */
  lemma NoProbeOnPath(g: Cfg, code: seq<seq<nat>>, interval: int, q: seq<Block>, atFirst: bool, k: nat, v: Block)
    requires Simple(q) && k < |q| && q[k] in Sparing(g, code, interval, q, atFirst).blocks && (k == 0 ==> !atFirst)
    ensures q[k] < |g.succ| && |g.succ[q[k]]| >= 2
    ensures v in g.succ[q[k]] ==> (q[k], v) !in g.back && !OnPath(q, q[k], v)
  {
    assert q[k] == q[0] ==> k == 0;
    assert v in g.succ[q[k]] ==> (q[k], v) in Others(g, q);
  }

  /** The path to spare for a stretch along `p`: the same, or one block more. */
  ghost predicate Spares(g: Cfg, code: seq<seq<nat>>, interval: int, p: seq<Block>, i: nat, j: nat, q: seq<Block>)
    requires |code| == |g.succ| && IsStretch(g, code, p, i, j)
  {
    && p <= q && |q| <= |p| + 1 && Path(g, q) && InCode(code, q) && Affordable(g, code, interval, q, i)
    && (CostIn(code[Last(p)], interval) > 0 && |g.succ[Last(p)]| >= 2 && j == |code[Last(p)]| ==>
          exists v :: v in g.succ[Last(p)] && ((Last(p), v) in g.back || OnPath(q, Last(p), v)))
  }

  lemma SparedPath(g: Cfg, code: seq<seq<nat>>, interval: int, p: seq<Block>, i: nat, j: nat) returns (q: seq<Block>)
    requires ValidCfg(g) && Leavable(g, code, interval, p, i, j)
    ensures Spares(g, code, interval, p, i, j, q)
  {
    hide Affordable, CostIn, WithinOf;
    q := p;
    var b := Last(p);
    if CostIn(code[b], interval) > 0 && |g.succ[b]| >= 2 && j == |code[b]| {
      var v :| v in g.succ[b] && ((b, v) in g.back || (v < |code| && Affordable(g, code, interval, p + [v], i)));
      if (b, v) !in g.back {
        q := p + [v];
        assert Init(q) == p;
        assert q[|p| - 1] == b && q[|p|] == v;
      }
    }
  }

  lemma SparedIsUnmarked(g: Cfg, code: seq<seq<nat>>, interval: int, p: seq<Block>, i: nat, j: nat, q: seq<Block>,
      atFirst: bool, k: nat, m: nat)
    requires interval > 0 && Terminated(code) && Leavable(g, code, interval, p, i, j)
    requires Spares(g, code, interval, p, i, j, q) && Simple(q) && (atFirst ==> i >= |code[p[0]]| - 1)
    requires k < |p| && m < |code[p[k]]| && (k == 0 ==> i < m) && (k == |p| - 1 ==> m < j)
    ensures !Marked(Sparing(g, code, interval, q, atFirst), code, AllWithin(code, interval), p[k], m)
  {
    hide Simple, Sum, Greedy, Affordable, Sparing;
    var pr := Sparing(g, code, interval, q, atFirst);
    assert p[k] == q[k];
    assert 0 < k < |p| - 1 ==> CostIn(code[p[k]], interval) > 0;
    assert m !in WithinOf(code, interval, p[k]);
    if p[k] in pr.blocks && m == |code[p[k]]| - 1 {
      if k < |p| - 1 {
        assert q[k + 1] == p[k + 1];
        ForwardOnPath(g, p, k);
        NoProbeOnPath(g, code, interval, q, atFirst, k, p[k + 1]);
      } else {
        NoProbeOnPath(g, code, interval, q, atFirst, k, 0);
        EndsInSmall(code, interval, p[k], j);
        var v :| v in g.succ[p[k]] && ((p[k], v) in g.back || OnPath(q, p[k], v));
        NoProbeOnPath(g, code, interval, q, atFirst, k, v);
      }
    }
  }

  /** Only a block without probes within can be taken in to its end. */
  lemma EndsInSmall(code: seq<seq<nat>>, interval: int, b: Block, j: nat)
    requires interval > 0 && Terminated(code) && b < |code| && j == |code[b]|
    requires forall m :: m in WithinOf(code, interval, b) ==> j <= m
    ensures CostIn(code[b], interval) > 0
  {
    var marks := Greedy(code[b], interval);
    assert marks != [] && CostIn(code[b], interval) == 0 ==> marks[0] in WithinOf(code, interval, b);
    if CostIn(code[b], interval) == 0 {
      GreedyIsSpaced(code[b], interval);
      FirstProbe(code[b], interval, marks);
    }
  }

  lemma LeavableIsLeft(g: Cfg, code: seq<seq<nat>>, interval: int, p: seq<Block>, i: nat, j: nat)
    returns (pr: Probes, within: seq<seq<nat>>)
    requires ValidCfg(g) && interval > 0 && |code| == |g.succ| && Terminated(code) && !CyclicFrom(g, g.entry)
    requires Leavable(g, code, interval, p, i, j)
    ensures Placed(g, pr, code, within, interval) && ProbeFree(g, pr, code, within, p, i, j)
  {
    hide Sum, Terminated, CyclicFrom, Laid, PathsBounded, Merged, Sparing, Simple, CostIn, WithinOf;
    var q := SparedPath(g, code, interval, p, i, j);
    PathsAreSimple(g, q);
    var atFirst := Budget(code, interval, q) > interval;
    pr, within := Sparing(g, code, interval, q, atFirst), AllWithin(code, interval);
    SparingIsLaid(g, code, interval, q, atFirst);
    SparingIsMerged(g, code, interval, q, atFirst);
    SparingIsBounded(g, code, interval, q, atFirst);
    forall k | 0 <= k < |p| - 1
      ensures Status(pr, p[k], p[k + 1]) == Uninst
    {
      SparingStatus(g, code, interval, q, atFirst, p[k], p[k + 1]);
      assert q[k] == p[k] && q[k + 1] == p[k + 1];
    }
    forall k, m | 0 <= k < |p| && 0 <= m < |code[p[k]]| && (k == 0 ==> i < m) && (k == |p| - 1 ==> m < j)
      ensures !Marked(pr, code, within, p[k], m)
    {
      SparedIsUnmarked(g, code, interval, p, i, j, q, atFirst, k, m);
    }
  }

  /** A stretch over several blocks is left without a probe by some placement that meets what the pass
      establishes, if and only if it is leavable. */
  lemma LeftExactlyIfLeavable(g: Cfg, code: seq<seq<nat>>, interval: int, p: seq<Block>, i: nat, j: nat)
    requires ValidCfg(g) && interval > 0 && |code| == |g.succ| && Terminated(code) && !CyclicFrom(g, g.entry)
    requires IsStretch(g, code, p, i, j) && |p| > 1 && Reaches(g, g.entry, p[0])
    ensures Leavable(g, code, interval, p, i, j) <==>
            exists pr, within :: Leaves(g, pr, code, within, interval, p, i, j)
  {
    hide Leavable, Placed, Terminated, CyclicFrom, Reaches, ProbeFree, IsStretch;
    if Leavable(g, code, interval, p, i, j) {
      var pr, within := LeavableIsLeft(g, code, interval, p, i, j);
      assert Leaves(g, pr, code, within, interval, p, i, j);
    }
    if pr, within :| Leaves(g, pr, code, within, interval, p, i, j) {
      LeftIsLeavable(g, pr, code, within, interval, p, i, j);
    }
  }

  ghost predicate Leaves(g: Cfg, pr: Probes, code: seq<seq<nat>>, within: seq<seq<nat>>, interval: int, p: seq<Block>,
      i: nat, j: nat)
    requires IsStretch(g, code, p, i, j)
  {
    Placed(g, pr, code, within, interval) && ProbeFree(g, pr, code, within, p, i, j)
  }

  // ----- When the interval holds for instructions

  /** Some instruction is worth more than the interval, or some leavable stretch is. */
  ghost predicate Overhangs(g: Cfg, code: seq<seq<nat>>, interval: int)
    requires |code| == |g.succ|
  {
    || (exists b, i :: 0 <= b < |code| && Reaches(g, g.entry, b) && 0 <= i < |code[b]| && code[b][i] > interval)
    || (exists p, i, j :: Exceeds(g, code, interval, p, i, j))
  }

  ghost predicate Exceeds(g: Cfg, code: seq<seq<nat>>, interval: int, p: seq<Block>, i: nat, j: nat) {
    Leavable(g, code, interval, p, i, j) && StretchCost(g, code, p, i, j) > interval
  }

  /** Between any two probes of any placement that meets what the pass establishes, instructions worth at
      most the interval run, if and only if nothing overhangs. */
  lemma IntervalHoldsExactly(g: Cfg, code: seq<seq<nat>>, interval: int)
    requires ValidCfg(g) && interval > 0 && |code| == |g.succ| && Terminated(code) && !CyclicFrom(g, g.entry)
    ensures !Overhangs(g, code, interval) <==>
            forall pr, within :: Placed(g, pr, code, within, interval) ==>
              StretchesBounded(g, pr, code, within, interval)
  {
    hide Leavable, PathsBounded, Merged, AreCosts, StretchesBounded, Terminated, CyclicFrom, Reaches;
    if Overhangs(g, code, interval) {
      var pr, within := OverhangShows(g, code, interval);
    } else {
      forall pr, within | Placed(g, pr, code, within, interval)
        ensures StretchesBounded(g, pr, code, within, interval)
      {
        NothingOverhangs(g, pr, code, within, interval);
      }
    }
  }

  lemma OverhangShows(g: Cfg, code: seq<seq<nat>>, interval: int) returns (pr: Probes, within: seq<seq<nat>>)
    requires ValidCfg(g) && interval > 0 && |code| == |g.succ| && Terminated(code) && !CyclicFrom(g, g.entry)
    requires Overhangs(g, code, interval)
    ensures Placed(g, pr, code, within, interval) && |within| == |code|
    ensures !StretchesBounded(g, pr, code, within, interval)
  {
    hide Leavable, Terminated, CyclicFrom, Reaches, PathsBounded, Merged, ProbeFree, Sum;
    if p, i, j :| Exceeds(g, code, interval, p, i, j) {
      pr, within := LeavableIsLeft(g, code, interval, p, i, j);
      LeavableIsReached(g, code, interval, p, i, j);
      assert StretchCost(g, code, p, i, j) > interval;
    } else {
      var b, i :| 0 <= b < |code| && Reaches(g, g.entry, b) && 0 <= i < |code[b]| && code[b][i] > interval;
      pr, within := SomePlacement(g, code, interval, b);
      LargeInstruction(g, pr, code, within, interval, b, i);
    }
  }

  lemma LeavableIsReached(g: Cfg, code: seq<seq<nat>>, interval: int, p: seq<Block>, i: nat, j: nat)
    requires Leavable(g, code, interval, p, i, j)
    ensures IsStretch(g, code, p, i, j) && Reaches(g, g.entry, p[0])
  {
  }

  lemma SomePlacement(g: Cfg, code: seq<seq<nat>>, interval: int, b: Block)
    returns (pr: Probes, within: seq<seq<nat>>)
    requires ValidCfg(g) && interval > 0 && |code| == |g.succ| && Terminated(code) && b < |code|
    ensures Placed(g, pr, code, within, interval)
  {
    hide Sum, Terminated, Laid, PathsBounded, Merged, Sparing;
    pr, within := Sparing(g, code, interval, [b], false), AllWithin(code, interval);
    assert Budget(code, interval, Init([b])) == 0;
    SparingIsLaid(g, code, interval, [b], false);
    SparingIsMerged(g, code, interval, [b], false);
    SparingIsBounded(g, code, interval, [b], false);
  }

  lemma LargeInstruction(g: Cfg, pr: Probes, code: seq<seq<nat>>, within: seq<seq<nat>>, interval: int, b: Block,
      i: nat)
    requires |within| == |code| == |g.succ| && b < |code| && Reaches(g, g.entry, b)
    requires i < |code[b]| && code[b][i] > interval
    ensures !StretchesBounded(g, pr, code, within, interval)
  {
    var p := [b];
    assert IsStretch(g, code, p, i, i + 1) && ProbeFree(g, pr, code, within, p, i, i + 1);
    SumOfOne(code[b], i);
    assert StretchCost(g, code, p, i, i + 1) > interval;
  }

  lemma NothingOverhangs(g: Cfg, pr: Probes, code: seq<seq<nat>>, within: seq<seq<nat>>, interval: int)
    requires Placed(g, pr, code, within, interval) && !Overhangs(g, code, interval)
    ensures StretchesBounded(g, pr, code, within, interval)
  {
    hide Leavable, Terminated, Reaches, PathsBounded, Merged, ProbeFree, Sum;
    forall p, i: nat, j: nat |
        IsStretch(g, code, p, i, j) && ProbeFree(g, pr, code, within, p, i, j) && Reaches(g, g.entry, p[0])
      ensures StretchCost(g, code, p, i, j) <= interval
    {
      if |p| > 1 {
        LeftIsLeavable(g, pr, code, within, interval, p, i, j);
        assert !Exceeds(g, code, interval, p, i, j);
      } else {
        StretchInBlock(g, pr, code, within, interval, p, i, j);
        if j == i + 1 {
          SumOfOne(code[p[0]], i);
        }
      }
    }
  }
}
