/** The most function calls on the way from one block to another: the third dynamic program of the
    pass, which decides together with the loop cost how often a loop is probed. */
module CallDistances {
  import opened ControlFlow
  import opened Distances
  import opened DistancesFrom

  // ----- The calls of a block

  /** A call, by what the pass knows of the callee: nothing, that it is instrumented itself and
      whether every path through it then meets a probe, or that it belongs to another library. */
  datatype Call = Indirect | Own(stops: bool) | Foreign

  function Counted(calls: seq<Call>): nat {
    if calls == [] then 0
    else Counted(calls[..|calls| - 1]) + (if calls[|calls| - 1].Foreign? then 0 else 1)
  }

  /** A block that calls a function that always probes is marked, any other has its calls counted. */
  ghost predicate IsCount(calls: seq<Call>, n: int) {
    if Own(true) in calls then n == -1 else n == Counted(calls)
  }

  ghost predicate AreCounts(calls: seq<seq<Call>>, counts: seq<int>) {
    |counts| == |calls| && forall b :: 0 <= b < |calls| ==> IsCount(calls[b], counts[b])
  }

  method CountCalls(calls: seq<Call>) returns (n: int)
    ensures IsCount(calls, n)
  {
    n := 0;
    var terminated := false;
    for i := 0 to |calls|
      invariant n == Counted(calls[..i]) && (terminated <==> Own(true) in calls[..i])
    {
      assert calls[..i + 1][..i] == calls[..i];
      assert calls[..i + 1] == calls[..i] + [calls[i]];
      if calls[i].Indirect? {
        n := n + 1;
      } else if calls[i].Own? {
        if calls[i].stops {
          terminated := true;
        }
        n := n + 1;
      }
    }
    assert calls[..|calls|] == calls;
    if terminated {
      n := -1;
    }
  }

  /** populateFuncCallCostMap. */
  method CallCostMap(calls: seq<seq<Call>>) returns (counts: seq<int>)
    ensures AreCounts(calls, counts)
  {
    counts := [];
    for b := 0 to |calls|
      invariant |counts| == b && forall x :: 0 <= x < b ==> IsCount(calls[x], counts[x])
    {
      var n := CountCalls(calls[b]);
      counts := counts + [n];
    }
  }

  // ----- Stretches of calls

  function CallsIn(counts: seq<int>, b: Block): int {
    if b < |counts| then counts[b] else 0
  }

  /** A forward edge along which calls add up. */
  predicate AddsUp(g: Cfg, pr: Probes, counts: seq<int>, u: Block, v: Block) {
    Carries(g, pr, u, v) && CallsIn(counts, u) >= 0
  }

  ghost predicate Uncut(g: Cfg, pr: Probes, counts: seq<int>, p: seq<Block>) {
    && p != [] && Last(p) < |g.succ|
    && (|p| > 1 ==> Uncut(g, pr, counts, Init(p)) && AddsUp(g, pr, counts, Last(Init(p)), Last(p)))
  }

  ghost function CallTotal(counts: seq<int>, p: seq<Block>): int {
    if p == [] then 0 else CallTotal(counts, Init(p)) + CallsIn(counts, Last(p))
  }

  /** Block `b` comes after a block that `a` reaches, over an edge along which calls do not add up. */
  ghost predicate Resumes(g: Cfg, pr: Probes, counts: seq<int>, a: Block, b: Block) {
    exists u :: Reaches(g, a, u) && Forward(g, u, b) && !AddsUp(g, pr, counts, u, b)
  }

  /** The calls counted along `p`: all of them if it starts in `a`; if it starts behind a probe, those
      after its first block. */
  ghost predicate Counts(g: Cfg, pr: Probes, counts: seq<int>, a: Block, p: seq<Block>, n: int) {
    && Uncut(g, pr, counts, p)
    && (|| (p[0] == a && n == CallTotal(counts, p))
        || (Resumes(g, pr, counts, a, p[0]) && n == CallTotal(counts, p) - CallsIn(counts, p[0])))
  }

  ghost predicate CountsTo(g: Cfg, pr: Probes, counts: seq<int>, a: Block, b: Block, p: seq<Block>, n: int) {
    Counts(g, pr, counts, a, p, n) && Last(p) == b
  }

  /** `n` is the largest such number of calls on the way from `a` to `b`; zero without a way. */
  ghost predicate IsMostCalls(g: Cfg, pr: Probes, counts: seq<int>, a: Block, b: Block, n: int) {
    && (if Reaches(g, a, b) then exists p :: CountsTo(g, pr, counts, a, b, p, n) else n == 0)
    && (forall p, m :: CountsTo(g, pr, counts, a, b, p, m) ==> m <= n)
  }

  lemma OneBlock(counts: seq<int>, b: Block)
    ensures CallTotal(counts, [b]) == CallsIn(counts, b)
  {
    assert CallTotal(counts, Init([b])) == 0;
  }

  lemma ExtendCounts(g: Cfg, pr: Probes, counts: seq<int>, a: Block, p: seq<Block>, n: int, b: Block)
    requires ValidCfg(g) && Counts(g, pr, counts, a, p, n) && AddsUp(g, pr, counts, Last(p), b)
    ensures CountsTo(g, pr, counts, a, b, p + [b], n + CallsIn(counts, b))
  {
    assert Init(p + [b]) == p;
  }

  /** The placements agree on which forward edges carry on. */
  ghost predicate SameCarries(g: Cfg, pr: Probes, pr': Probes) {
    forall u, v :: Carries(g, pr', u, v) <==> Carries(g, pr, u, v)
  }

  lemma {:induction false} AgreeOnUncut(g: Cfg, pr: Probes, pr': Probes, counts: seq<int>, p: seq<Block>)
    requires SameCarries(g, pr, pr')
    ensures Uncut(g, pr, counts, p) <==> Uncut(g, pr', counts, p)
    decreases |p|
  {
    if |p| > 1 {
      AgreeOnUncut(g, pr, pr', counts, Init(p));
    }
  }

  lemma AgreeOnMostCalls(g: Cfg, pr: Probes, pr': Probes, counts: seq<int>, a: Block, b: Block, n: int)
    requires SameCarries(g, pr, pr') && IsMostCalls(g, pr, counts, a, b, n)
    ensures IsMostCalls(g, pr', counts, a, b, n)
  {
    forall p, m
      ensures CountsTo(g, pr', counts, a, b, p, m) <==> CountsTo(g, pr, counts, a, b, p, m)
    {
      AgreeOnUncut(g, pr, pr', counts, p);
    }
  }

  // ----- The dynamic program

  /** `n` calls are counted along some way from `a` to `b`. */
  ghost predicate Attained(g: Cfg, pr: Probes, counts: seq<int>, a: Block, b: Block, n: int) {
    && Reaches(g, a, b) && (exists p :: CountsTo(g, pr, counts, a, b, p, n))
    && (CallsIn(counts, b) >= 0 ==> n >= 0)
  }

  ghost predicate RelaxedCalls(g: Cfg, pr: Probes, counts: seq<int>, dist: map<Block, int>, u: Block, v: Block)
    requires u in dist
  {
    v in dist && dist[v] >= if AddsUp(g, pr, counts, u, v) then dist[u] + CallsIn(counts, v) else 0
  }

  ghost predicate AllRelaxed(g: Cfg, pr: Probes, counts: seq<int>, dist: map<Block, int>, u: Block) {
    u in dist ==> forall v: Block :: Forward(g, u, v) ==> RelaxedCalls(g, pr, counts, dist, u, v)
  }

  /** The map when no edge out of the blocks `sorted[k..]` would raise a number. */
  ghost predicate PartialCalls(g: Cfg, pr: Probes, counts: seq<int>, sorted: seq<Block>, a: Block, k: nat,
      dist: map<Block, int>)
    requires k <= |sorted|
  {
    && (forall b :: b in dist ==> b in sorted && Attained(g, pr, counts, a, b, dist[b]))
    && (forall u :: u in sorted[k..] ==> AllRelaxed(g, pr, counts, dist, u))
    && a in dist && dist[a] >= CallsIn(counts, a)
  }

  lemma {:induction false} ReachedHasNumber(g: Cfg, pr: Probes, counts: seq<int>, sorted: seq<Block>, a: Block,
      dist: map<Block, int>, p: seq<Block>)
    requires PartialCalls(g, pr, counts, sorted, a, 0, dist) && Path(g, p) && p[0] == a
    ensures Last(p) in dist
    decreases |p|
  {
    if |p| > 1 {
      var u := Last(Init(p));
      ReachedHasNumber(g, pr, counts, sorted, a, dist, Init(p));
      assert u in sorted && sorted[0..] == sorted;
      assert AllRelaxed(g, pr, counts, dist, u);
      assert RelaxedCalls(g, pr, counts, dist, u, Last(p));
    }
  }

  lemma EdgeIsRelaxed(g: Cfg, pr: Probes, counts: seq<int>, sorted: seq<Block>, a: Block, dist: map<Block, int>,
      u: Block, v: Block)
    requires PartialCalls(g, pr, counts, sorted, a, 0, dist) && u in dist && Forward(g, u, v)
    ensures RelaxedCalls(g, pr, counts, dist, u, v)
  {
    assert u in sorted && sorted[0..] == sorted;
    assert AllRelaxed(g, pr, counts, dist, u);
  }

  /** No way counts more calls than the number at its end. */
  lemma {:induction false} CountsAreBelow(g: Cfg, pr: Probes, counts: seq<int>, sorted: seq<Block>, a: Block,
      dist: map<Block, int>, p: seq<Block>, n: int)
    requires PartialCalls(g, pr, counts, sorted, a, 0, dist) && Counts(g, pr, counts, a, p, n)
    ensures Last(p) in dist && n <= dist[Last(p)]
    decreases |p|
  {
    hide PartialCalls;
    if |p| == 1 {
      OneBlock(counts, p[0]);
      assert p == [p[0]];
      if p[0] == a && n == CallTotal(counts, p) {
        StartHasNumber(g, pr, counts, sorted, a, dist);
      } else {
        var u :| Reaches(g, a, u) && Forward(g, u, p[0]) && !AddsUp(g, pr, counts, u, p[0]);
        var q :| PathBetween(g, q, a, u);
        ReachedHasNumber(g, pr, counts, sorted, a, dist, q);
        EdgeIsRelaxed(g, pr, counts, sorted, a, dist, u, p[0]);
      }
    } else {
      CountsAreBelow(g, pr, counts, sorted, a, dist, Init(p), n - CallsIn(counts, Last(p)));
      EdgeIsRelaxed(g, pr, counts, sorted, a, dist, Last(Init(p)), Last(p));
    }
  }

  lemma StartHasNumber(g: Cfg, pr: Probes, counts: seq<int>, sorted: seq<Block>, a: Block, dist: map<Block, int>)
    requires PartialCalls(g, pr, counts, sorted, a, 0, dist)
    ensures a in dist && dist[a] >= CallsIn(counts, a)
  {
  }

  lemma SolvedIsMost(g: Cfg, pr: Probes, counts: seq<int>, sorted: seq<Block>, a: Block, dist: map<Block, int>,
      b: Block)
    requires PartialCalls(g, pr, counts, sorted, a, 0, dist)
    ensures IsMostCalls(g, pr, counts, a, b, Lookup(dist, b))
  {
    if b in dist {
      assert Attained(g, pr, counts, a, b, dist[b]);
    } else if Reaches(g, a, b) {
      var p :| PathBetween(g, p, a, b);
      ReachedHasNumber(g, pr, counts, sorted, a, dist, p);
    }
    forall p, m | CountsTo(g, pr, counts, a, b, p, m)
      ensures m <= Lookup(dist, b)
    {
      CountsAreBelow(g, pr, counts, sorted, a, dist, p, m);
    }
  }

  /** The number that an edge out of `u` offers is counted along a way. */
  lemma OfferIsAttained(g: Cfg, pr: Probes, counts: seq<int>, a: Block, dist: map<Block, int>, u: Block, v: Block,
      d: int)
    requires ValidCfg(g) && u in dist && Attained(g, pr, counts, a, u, dist[u]) && Forward(g, u, v)
    requires d == if AddsUp(g, pr, counts, u, v) then dist[u] + CallsIn(counts, v) else 0
    ensures Attained(g, pr, counts, a, v, d)
  {
    ReachesStep(g, a, u, v);
    if AddsUp(g, pr, counts, u, v) {
      var p :| CountsTo(g, pr, counts, a, u, p, dist[u]);
      ExtendCounts(g, pr, counts, a, p, dist[u], v);
    } else {
      OneBlock(counts, v);
      assert Resumes(g, pr, counts, a, v);
      assert CountsTo(g, pr, counts, a, v, [v], 0);
    }
  }

  lemma RaiseKeepsRelaxedCalls(g: Cfg, pr: Probes, counts: seq<int>, dist: map<Block, int>, x: Block, v: Block, d: int)
    requires AllRelaxed(g, pr, counts, dist, x) && x != v && (v in dist ==> d > dist[v])
    ensures AllRelaxed(g, pr, counts, dist[v := d], x)
  {
    if x in dist {
      forall y: Block | Forward(g, x, y)
        ensures RelaxedCalls(g, pr, counts, dist[v := d], x, y)
      {
        assert RelaxedCalls(g, pr, counts, dist, x, y);
      }
    }
  }

  lemma RaiseKeepsCalls(g: Cfg, pr: Probes, counts: seq<int>, sorted: seq<Block>, a: Block, i: nat,
      dist: map<Block, int>, u: Block, v: Block, d: int)
    requires ValidCfg(g) && TopoList(g, sorted) && i < |sorted| && sorted[i] == u && Forward(g, u, v)
    requires PartialCalls(g, pr, counts, sorted, a, i + 1, dist) && u in dist && (v in dist ==> d > dist[v])
    requires d == if AddsUp(g, pr, counts, u, v) then dist[u] + CallsIn(counts, v) else 0
    ensures PartialCalls(g, pr, counts, sorted, a, i + 1, dist[v := d]) && v !in sorted[i..]
  {
    hide TopoList, Attained, AllRelaxed;
    SuccessorIsEarlier(g, sorted, i, v);
    OfferIsAttained(g, pr, counts, a, dist, u, v, d);
    var dist' := dist[v := d];
    forall b | b in dist'
      ensures b in sorted && Attained(g, pr, counts, a, b, dist'[b])
    {
      assert b != v ==> Attained(g, pr, counts, a, b, dist[b]);
    }
    forall x | x in sorted[i + 1..]
      ensures AllRelaxed(g, pr, counts, dist', x)
    {
      assert x in sorted[i..];
      RaiseKeepsRelaxedCalls(g, pr, counts, dist, x, v, d);
    }
  }

  /** Processes one edge out of the block `u` at position `i`. */
  method RelaxCallEdge(g: Cfg, pr: Probes, counts: seq<int>, ghost sorted: seq<Block>, ghost a: Block, ghost i: nat,
      u: Block, v: Block, dist0: map<Block, int>)
    returns (dist: map<Block, int>)
    requires ValidCfg(g) && TopoList(g, sorted) && i < |sorted| && sorted[i] == u && Forward(g, u, v)
    requires u in dist0 && PartialCalls(g, pr, counts, sorted, a, i + 1, dist0)
    ensures PartialCalls(g, pr, counts, sorted, a, i + 1, dist)
    ensures u in dist && RelaxedCalls(g, pr, counts, dist, u, v) && Raises(sorted, i, dist0, dist)
  {
    hide TopoList;
    assert Attained(g, pr, counts, a, u, dist0[u]);
    dist := dist0;
    var d := 0;
    if Status(pr, u, v) == Uninst && Cost(pr, u) > 0 && CallsIn(counts, u) >= 0 && dist[u] >= 0 && u !in pr.blocks {
      d := dist[u] + CallsIn(counts, v);
    }
    if v !in dist || d > dist[v] {
      RaiseKeepsCalls(g, pr, counts, sorted, a, i, dist, u, v, d);
      dist := dist[v := d];
      assert u in sorted[i..];
    }
  }

  /** Processes the block at position `i`, which has a number. */
  method RelaxCallBlock(g: Cfg, pr: Probes, counts: seq<int>, sorted: seq<Block>, ghost a: Block, i: nat,
      dist0: map<Block, int>)
    returns (dist: map<Block, int>)
    requires ValidCfg(g) && TopoList(g, sorted) && i < |sorted| && sorted[i] < |g.succ|
    requires sorted[i] in dist0 && PartialCalls(g, pr, counts, sorted, a, i + 1, dist0)
    ensures PartialCalls(g, pr, counts, sorted, a, i, dist)
  {
    hide TopoList, PartialCalls, AddsUp;
    var u := sorted[i];
    dist := dist0;
    var succ := g.succ[u];
    for j := 0 to |succ|
      invariant PartialCalls(g, pr, counts, sorted, a, i + 1, dist) && u in dist
      invariant forall m :: 0 <= m < j && Forward(g, u, succ[m]) ==> RelaxedCalls(g, pr, counts, dist, u, succ[m])
    {
      var v := succ[j];
      if (u, v) in g.back {
        continue;
      }
      ghost var before := dist;
      dist := RelaxCallEdge(g, pr, counts, sorted, a, i, u, v, dist);
      assert u in sorted[i..];
      forall m | 0 <= m < j + 1 && Forward(g, u, succ[m])
        ensures RelaxedCalls(g, pr, counts, dist, u, succ[m])
      {
        assert m < j ==> RelaxedCalls(g, pr, counts, before, u, succ[m]);
      }
    }
    NextIsRelaxed(g, pr, counts, sorted, a, i, dist);
  }

  lemma NextIsRelaxed(g: Cfg, pr: Probes, counts: seq<int>, sorted: seq<Block>, a: Block, i: nat,
      dist: map<Block, int>)
    requires i < |sorted| && PartialCalls(g, pr, counts, sorted, a, i + 1, dist)
    requires AllRelaxed(g, pr, counts, dist, sorted[i])
    ensures PartialCalls(g, pr, counts, sorted, a, i, dist)
  {
    forall u | u in sorted[i..]
      ensures AllRelaxed(g, pr, counts, dist, u)
    {
      assert u == sorted[i] || u in sorted[i + 1..];
    }
  }

  lemma StartCalls(g: Cfg, pr: Probes, counts: seq<int>, sorted: seq<Block>, a: Block)
    requires a < |g.succ| && a in sorted
    ensures PartialCalls(g, pr, counts, sorted, a, |sorted|, map[a := CallsIn(counts, a)])
  {
    ReachesItself(g, a);
    OneBlock(counts, a);
    assert CountsTo(g, pr, counts, a, a, [a], CallsIn(counts, a));
  }

  /** longestFuncCallDistanceFrom: for every block the largest number of calls counted on the way. */
  method MostCallsFrom(g: Cfg, pr: Probes, counts: seq<int>, sorted: seq<Block>, a: Block)
    returns (dist: map<Block, int>)
    requires ValidCfg(g) && TopoList(g, sorted) && a in sorted
    ensures forall b :: IsMostCalls(g, pr, counts, a, b, Lookup(dist, b))
  {
    assert forall i :: 0 <= i < |sorted| ==> sorted[i] < |g.succ|;
    hide TopoList, PartialCalls, IsMostCalls;
    StartCalls(g, pr, counts, sorted, a);
    dist := map[a := CallsIn(counts, a)];
    var i := |sorted|;
    while i > 0
      invariant 0 <= i <= |sorted| && PartialCalls(g, pr, counts, sorted, a, i, dist)
    {
      i := i - 1;
      if sorted[i] in dist {
        dist := RelaxCallBlock(g, pr, counts, sorted, a, i, dist);
      } else {
        NextIsRelaxed(g, pr, counts, sorted, a, i, dist);
      }
    }
    forall b
      ensures IsMostCalls(g, pr, counts, a, b, Lookup(dist, b))
    {
      SolvedIsMost(g, pr, counts, sorted, a, dist, b);
    }
  }
}
