/** Inside a block: the cost the pass gives it, and where it probes a block that reaches the commit
    interval alone.  A block is the sequence of the costs of its instructions, the last of which is
    its terminator. */
module BlockProbes {

  function Sum(insts: seq<nat>): nat {
    if insts == [] then 0 else Sum(insts[..|insts| - 1]) + insts[|insts| - 1]
  }

  lemma {:induction false} SumSplit(a: seq<nat>, b: seq<nat>)
    ensures Sum(a + b) == Sum(a) + Sum(b)
    decreases |b|
  {
    if b == [] {
      assert a + b == a;
    } else {
      assert (a + b)[..|a + b| - 1] == a + b[..|b| - 1];
      SumSplit(a, b[..|b| - 1]);
    }
  }

  lemma SumOfInner(insts: seq<nat>, start: nat, i: nat, j: nat, end: nat)
    requires start <= i <= j <= end <= |insts|
    ensures Sum(insts[i..j]) <= Sum(insts[start..end])
  {
    assert insts[start..end] == insts[start..i] + insts[i..j] + insts[j..end];
    SumSplit(insts[start..i] + insts[i..j], insts[j..end]);
    SumSplit(insts[start..i], insts[i..j]);
  }

  lemma SumOfPart(insts: seq<nat>, i: nat, j: nat)
    requires i <= j <= |insts|
    ensures Sum(insts[i..j]) <= Sum(insts)
  {
    SumOfInner(insts, 0, i, j, |insts|);
    assert insts[0..|insts|] == insts;
  }

  lemma SumOfNext(insts: seq<nat>, i: nat, j: nat)
    requires i <= j < |insts|
    ensures Sum(insts[i..j + 1]) == Sum(insts[i..j]) + insts[j]
  {
    assert insts[i..j + 1][..j - i] == insts[i..j];
  }

  // ----- Costs

  /** A cost stays below the interval, and is the whole block's or nothing; it is nothing for the
      blocks that are to be probed within. */
  ghost predicate IsCost(insts: seq<nat>, interval: int, cost: int) {
    && 0 <= cost < interval
    && (cost > 0 ==> cost == Sum(insts))
    && (cost == 0 <==> Sum(insts) == 0 || Sum(insts) >= interval)
  }

  ghost predicate AreCosts(code: seq<seq<nat>>, interval: int, costs: seq<int>) {
    |costs| == |code| && forall b :: 0 <= b < |code| ==> IsCost(code[b], interval, costs[b])
  }

  /** There is only one such cost. */
  function CostIn(insts: seq<nat>, interval: int): int {
    if Sum(insts) >= interval then 0 else Sum(insts)
  }

  lemma CostIsUnique(insts: seq<nat>, interval: int, cost: int)
    requires interval > 0
    ensures IsCost(insts, interval, cost) <==> cost == CostIn(insts, interval)
  {
  }

  method CostOf(insts: seq<nat>, interval: int) returns (cost: int)
    requires interval > 0
    ensures IsCost(insts, interval, cost)
  {
    cost := 0;
    for i := 0 to |insts|
      invariant cost == Sum(insts[..i])
    {
      assert insts[..i + 1][..i] == insts[..i];
      cost := cost + insts[i];
    }
    assert insts[..|insts|] == insts;
    if cost >= interval {
      cost := 0;
    }
  }

  /** populateCostMap. */
  method CostMap(code: seq<seq<nat>>, interval: int) returns (costs: seq<int>)
    requires interval > 0
    ensures AreCosts(code, interval, costs)
  {
    costs := [];
    for b := 0 to |code|
      invariant |costs| == b && forall x :: 0 <= x < b ==> IsCost(code[x], interval, costs[x])
    {
      var cost := CostOf(code[b], interval);
      costs := costs + [cost];
    }
  }

  // ----- Probes within

  /** Where the stretch before probe `k` begins; probes come before the instructions they name. */
  function Start(marks: seq<nat>, k: nat): nat
    requires k <= |marks|
  {
    if k == 0 then 0 else marks[k - 1]
  }

  function End(insts: seq<nat>, marks: seq<nat>, k: nat): nat
    requires k <= |marks|
  {
    if k == |marks| then |insts| else marks[k]
  }

  /** A stretch without probes stays below the interval or is a single instruction. */
  ghost predicate Short(insts: seq<nat>, interval: int, start: nat, end: nat) {
    start <= end <= |insts| && (Sum(insts[start..end]) < interval || end == start + 1)
  }

  /** And it is as long as it can be, if the next instruction would take it to the interval. */
  ghost predicate Full(insts: seq<nat>, interval: int, start: nat, end: nat) {
    start <= end < |insts| && Sum(insts[start..end + 1]) >= interval
  }

  /** Probe `k` comes after the one before it, and ends a stretch that is short and full. */
  ghost predicate ProbeOk(insts: seq<nat>, interval: int, marks: seq<nat>, k: nat) {
    && k < |marks| && (k > 0 ==> marks[k - 1] < marks[k])
    && Short(insts, interval, Start(marks, k), marks[k]) && Full(insts, interval, Start(marks, k), marks[k])
  }

  ghost predicate Probing(insts: seq<nat>, interval: int, marks: seq<nat>) {
    forall k :: 0 <= k < |marks| ==> ProbeOk(insts, interval, marks, k)
  }

  /** Each stretch between two probes, or a probe and an end of the block, is short; no probe comes
      earlier than it has to, and a block that reaches the interval has one. */
  ghost predicate Spaced(insts: seq<nat>, interval: int, marks: seq<nat>) {
    && Probing(insts, interval, marks) && Short(insts, interval, Start(marks, |marks|), |insts|)
    && (marks == [] ==> Sum(insts) < interval)
  }

  /** Before instruction `i`, with a last stretch of cost `total` that goes on. */
  ghost predicate SpacedSoFar(insts: seq<nat>, interval: int, marks: seq<nat>, i: nat, total: nat) {
    var start := Start(marks, |marks|);
    && Probing(insts, interval, marks) && start <= i <= |insts| && total == Sum(insts[start..i])
    && (marks != [] ==> start < i)
    && (total < interval || (marks != [] && i == start + 1))
  }

  lemma ProbeHere(insts: seq<nat>, interval: int, marks: seq<nat>, i: nat, total: nat)
    requires SpacedSoFar(insts, interval, marks, i, total) && i < |insts| && total + insts[i] >= interval
    ensures SpacedSoFar(insts, interval, marks + [i], i + 1, insts[i])
  {
    hide Sum;
    var start, marks' := Start(marks, |marks|), marks + [i];
    SumOfNext(insts, start, i);
    SumOfOne(insts, i);
    assert Short(insts, interval, start, i) && Full(insts, interval, start, i);
    hide Short, Full;
    forall k | 0 <= k < |marks'|
      ensures ProbeOk(insts, interval, marks', k)
    {
      assert Start(marks', k) == Start(marks, k);
      assert k < |marks| ==> ProbeOk(insts, interval, marks, k);
    }
  }

  lemma SumOfOne(insts: seq<nat>, i: nat)
    requires i < |insts|
    ensures Sum(insts[i..i + 1]) == insts[i]
  {
    SumOfNext(insts, i, i);
  }

  lemma NoProbeHere(insts: seq<nat>, interval: int, marks: seq<nat>, i: nat, total: nat)
    requires SpacedSoFar(insts, interval, marks, i, total) && i < |insts| && total + insts[i] < interval
    ensures SpacedSoFar(insts, interval, marks, i + 1, total + insts[i])
  {
    hide Sum, Probing;
    SumOfNext(insts, Start(marks, |marks|), i);
  }

  /** The probes from instruction `i` on, when the last stretch has cost `total` so far. */
  function GreedyFrom(insts: seq<nat>, interval: int, i: nat, total: nat): seq<nat>
    requires i <= |insts|
    decreases |insts| - i
  {
    if i == |insts| then []
    else if total + insts[i] >= interval then [i] + GreedyFrom(insts, interval, i + 1, insts[i])
    else GreedyFrom(insts, interval, i + 1, total + insts[i])
  }

  function Greedy(insts: seq<nat>, interval: int): seq<nat> {
    GreedyFrom(insts, interval, 0, 0)
  }

  lemma {:induction false} GreedyGoesOn(insts: seq<nat>, interval: int, marks: seq<nat>, i: nat, total: nat)
    requires SpacedSoFar(insts, interval, marks, i, total)
    ensures Spaced(insts, interval, marks + GreedyFrom(insts, interval, i, total))
    decreases |insts| - i
  {
    hide SpacedSoFar, Spaced;
    SpacedSoFarIndex(insts, interval, marks, i, total);
    if i == |insts| {
      SpacedAtTheEnd(insts, interval, marks, total);
      assert marks + [] == marks;
    } else if total + insts[i] >= interval {
      ProbeHere(insts, interval, marks, i, total);
      GreedyGoesOn(insts, interval, marks + [i], i + 1, insts[i]);
      var rest := GreedyFrom(insts, interval, i + 1, insts[i]);
      assert marks + [i] + rest == marks + ([i] + rest);
    } else {
      NoProbeHere(insts, interval, marks, i, total);
      GreedyGoesOn(insts, interval, marks, i + 1, total + insts[i]);
    }
  }

  lemma SpacedSoFarIndex(insts: seq<nat>, interval: int, marks: seq<nat>, i: nat, total: nat)
    requires SpacedSoFar(insts, interval, marks, i, total)
    ensures i <= |insts|
  {
  }

  lemma GreedyIsSpaced(insts: seq<nat>, interval: int)
    requires interval > 0
    ensures Spaced(insts, interval, Greedy(insts, interval))
  {
    assert SpacedSoFar(insts, interval, [], 0, 0);
    GreedyGoesOn(insts, interval, [], 0, 0);
    assert [] + Greedy(insts, interval) == Greedy(insts, interval);
  }

  /** The last loop of insertProbes, for one block. */
  method ProbeWithin(insts: seq<nat>, interval: int) returns (marks: seq<nat>)
    requires interval > 0
    ensures marks == Greedy(insts, interval) && Spaced(insts, interval, marks)
  {
    hide Spaced;
    marks := [];
    var total: nat := 0;
    for i := 0 to |insts|
      invariant Greedy(insts, interval) == marks + GreedyFrom(insts, interval, i, total)
    {
      if total + insts[i] >= interval {
        marks := marks + [i];
        total := insts[i];
      } else {
        total := total + insts[i];
      }
    }
    GreedyIsSpaced(insts, interval);
  }

  lemma SpacedAtTheEnd(insts: seq<nat>, interval: int, marks: seq<nat>, total: nat)
    requires SpacedSoFar(insts, interval, marks, |insts|, total)
    ensures Spaced(insts, interval, marks)
  {
    hide Sum, Probing;
    assert insts[0..|insts|] == insts;
  }

  /** The blocks of cost zero are probed within, the others are not. */
  ghost predicate AreWithin(code: seq<seq<nat>>, interval: int, costs: seq<int>, within: seq<seq<nat>>) {
    && |costs| == |within| == |code|
    && forall b :: 0 <= b < |code| ==> within[b] == if costs[b] == 0 then Greedy(code[b], interval) else []
  }

  /** The last loop of insertProbes. */
  method ProbeLargeBlocks(code: seq<seq<nat>>, interval: int, costs: seq<int>) returns (within: seq<seq<nat>>)
    requires interval > 0 && |costs| == |code|
    ensures AreWithin(code, interval, costs, within)
  {
    hide Spaced, Greedy;
    within := [];
    for b := 0 to |code|
      invariant |within| == b
      invariant forall x :: 0 <= x < b ==> within[x] == if costs[x] == 0 then Greedy(code[x], interval) else []
    {
      var marks := [];
      if costs[b] == 0 {
        marks := ProbeWithin(code[b], interval);
      }
      within := within + [marks];
    }
  }

  /** The stretch that instruction `i` is in. */
  lemma {:induction false} StretchOf(insts: seq<nat>, interval: int, marks: seq<nat>, i: nat, n: nat) returns (k: nat)
    requires Spaced(insts, interval, marks) && n <= |marks| && Start(marks, n) <= i
    ensures n <= k <= |marks| && Start(marks, k) <= i && (k < |marks| ==> i < marks[k])
    decreases |marks| - n
  {
    if n == |marks| || i < marks[n] {
      k := n;
    } else {
      assert ProbeOk(insts, interval, marks, n);
      k := StretchOf(insts, interval, marks, i, n + 1);
    }
  }

  /** Instructions with no probe between them stay below the interval, or are a single one. */
  lemma UnprobedInstructions(insts: seq<nat>, interval: int, marks: seq<nat>, i: nat, j: nat)
    requires interval > 0 && Spaced(insts, interval, marks) && i <= j <= |insts|
    requires forall m :: m in marks ==> !(i < m < j)
    ensures Sum(insts[i..j]) < interval || j == i + 1
  {
    var k := StretchOf(insts, interval, marks, i, 0);
    var start, end := Start(marks, k), End(insts, marks, k);
    assert k < |marks| ==> ProbeOk(insts, interval, marks, k);
    assert Short(insts, interval, start, end);
    hide Sum, Probing;
    assert k < |marks| ==> marks[k] in marks;
    if i < j {
      SumOfInner(insts, start, i, j, end);
    } else {
      NoInstruction(insts, i);
    }
  }

  lemma NoInstruction(insts: seq<nat>, i: nat)
    requires i <= |insts|
    ensures Sum(insts[i..i]) == 0
  {
  }
}
