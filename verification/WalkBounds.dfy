/** Whole executions of a function: walks along forward and back edges, with a counter for every loop
    that is probed every so many iterations.  However the loops are nested and entered, a bounded cost
    runs between two probes. */
module WalkBounds {
  import opened Arithmetic
  import opened ControlFlow
  import opened Distances
  import opened DistancesFrom
  import opened CallDistances
  import opened BlockProbes
  import opened StretchBounds
  import opened StretchLimits
  import opened ProbePass

  // ----- Walks that meet no probe

  type Counters = map<Edge, nat>

  function CountAt(c: Counters, e: Edge): nat {
    if e in c then c[e] else 0
  }

  predicate IsCounted(loops: map<Edge, LoopProbe>, e: Edge) {
    e in loops && loops[e].Every?
  }

  ghost predicate ValidCounters(loops: map<Edge, LoopProbe>, c: Counters) {
    forall e :: IsCounted(loops, e) ==> CountAt(c, e) < loops[e].iterations
  }

  /** The counter of a loop when its back edge is taken: it fires and starts again, or goes on. */
  predicate Fires(loops: map<Edge, LoopProbe>, c: Counters, e: Edge) {
    IsCounted(loops, e) && CountAt(c, e) + 1 == loops[e].iterations
  }

  function Tick(loops: map<Edge, LoopProbe>, c: Counters, e: Edge): Counters {
    if !IsCounted(loops, e) then c else if Fires(loops, c, e) then c[e := 0] else c[e := CountAt(c, e) + 1]
  }

  /** Control goes from `u` to `v` and meets no probe inside `u`, in front of its terminator or on a
      forward edge. */
  predicate Quiet(g: Cfg, pr: Probes, u: Block, v: Block) {
    IsEdge(g, u, v) && Cost(pr, u) > 0 && u !in pr.blocks && ((u, v) in g.back || Status(pr, u, v) == Uninst)
  }

  /** No loop counter fires on the walk. */
  ghost predicate NoneFires(g: Cfg, loops: map<Edge, LoopProbe>, c: Counters, w: seq<Block>)
    decreases |w|
  {
    |w| > 1 ==>
      var e := (w[0], w[1]);
      if e in g.back then !Fires(loops, c, e) && NoneFires(g, loops, Tick(loops, c, e), w[1..])
      else NoneFires(g, loops, c, w[1..])
  }

  /** The walk meets no probe, and no loop counter fires on it. */
  ghost predicate Silent(g: Cfg, pr: Probes, loops: map<Edge, LoopProbe>, c: Counters, w: seq<Block>) {
    && w != [] && (forall k :: 0 <= k < |w| ==> w[k] < |g.succ|)
    && (forall k :: 0 <= k < |w| - 1 ==> Quiet(g, pr, w[k], w[k + 1]))
    && NoneFires(g, loops, c, w)
  }

  /** How often the walk takes an edge. */
  function Ticks(w: seq<Block>, e: Edge): nat {
    if |w| < 2 then 0 else Ticks(Init(w), e) + (if (w[|w| - 2], w[|w| - 1]) == e then 1 else 0)
  }

  lemma {:induction false} TicksOfRest(w: seq<Block>, e: Edge)
    requires |w| > 1
    ensures Ticks(w, e) == Ticks(w[1..], e) + (if (w[0], w[1]) == e then 1 else 0)
    decreases |w|
  {
    if |w| > 2 {
      TicksOfRest(Init(w), e);
      assert Init(w)[1..] == Init(w[1..]);
    } else {
      assert Ticks(Init(w), e) == 0;
    }
  }

  /** What counts of a silent walk: its edges, and how often it takes the back edges. */
  ghost predicate Calm(g: Cfg, pr: Probes, loops: map<Edge, LoopProbe>, w: seq<Block>) {
    && w != [] && (forall k :: 0 <= k < |w| ==> w[k] < |g.succ|)
    && (forall k :: 0 <= k < |w| - 1 ==> Quiet(g, pr, w[k], w[k + 1]))
    && (forall e :: e in g.back && IsCounted(loops, e) ==> Ticks(w, e) < loops[e].iterations)
  }

  lemma {:induction false} SilentTicks(g: Cfg, loops: map<Edge, LoopProbe>, c: Counters, w: seq<Block>, e: Edge)
    requires NoneFires(g, loops, c, w) && ValidCounters(loops, c) && e in g.back && IsCounted(loops, e)
    ensures CountAt(c, e) + Ticks(w, e) < loops[e].iterations
    decreases |w|
  {
    if |w| > 1 {
      var c' := if (w[0], w[1]) in g.back then Tick(loops, c, (w[0], w[1])) else c;
      TicksOfRest(w, e);
      SilentTicks(g, loops, c', w[1..], e);
    }
  }

  lemma SilentIsCalm(g: Cfg, pr: Probes, loops: map<Edge, LoopProbe>, c: Counters, w: seq<Block>)
    requires Silent(g, pr, loops, c, w) && ValidCounters(loops, c)
    ensures Calm(g, pr, loops, w)
  {
    hide Quiet, ValidCounters, NoneFires;
    forall e | e in g.back && IsCounted(loops, e)
      ensures Ticks(w, e) < loops[e].iterations
    {
      SilentTicks(g, loops, c, w, e);
    }
  }

  // ----- Natural loops

  /** Every forward path from the entry to `b` meets `a`. */
  ghost predicate Dominates(g: Cfg, a: Block, b: Block) {
    forall p :: PathBetween(g, p, g.entry, b) ==> a in p
  }

  /** Every loop is entered at its header only. */
  ghost predicate Natural(g: Cfg) {
    forall e :: e in g.back ==> Dominates(g, e.1, e.0)
  }

  lemma DominatesItself(g: Cfg, a: Block)
    ensures Dominates(g, a, a)
  {
    forall p | PathBetween(g, p, g.entry, a)
      ensures a in p
    {
      assert Last(p) in p;
    }
  }

  lemma DominatesOn(g: Cfg, a: Block, b: Block, c: Block)
    requires Dominates(g, a, b) && Dominates(g, b, c)
    ensures Dominates(g, a, c)
  {
    forall p | PathBetween(g, p, g.entry, c)
      ensures a in p
    {
      var k :| 0 <= k < |p| && p[k] == b;
      PartOfPath(g, p, 0, k);
      assert a in p[0..k + 1];
    }
  }

  lemma DominateEachOther(g: Cfg, a: Block, b: Block)
    requires Dominates(g, a, b) && Dominates(g, b, a) && Reaches(g, g.entry, b) && !CyclicFrom(g, g.entry)
    requires g.entry < |g.succ|
    ensures a == b
  {
    var p :| PathBetween(g, p, g.entry, b);
    var k :| 0 <= k < |p| && p[k] == a;
    PartOfPath(g, p, 0, k);
    assert b in p[0..k + 1];
    var m :| 0 <= m <= k && p[m] == b;
    ReachesItself(g, g.entry);
    PathsAreSimple(g, p);
  }

  /** A path to a latch that misses the header starts inside the loop. */
  lemma StartsInside(g: Cfg, p: seq<Block>, e: Edge)
    requires Natural(g) && e in g.back && Path(g, p) && Last(p) == e.0 && e.1 !in p
    ensures Dominates(g, e.1, p[0])
  {
    forall q | PathBetween(g, q, g.entry, p[0])
      ensures e.1 in q
    {
      JoinPaths(g, q, p);
      assert e.1 in q + p[1..];
      assert forall x :: x in p[1..] ==> x in p;
    }
  }

  lemma HeaderIsReached(g: Cfg, e: Edge)
    requires Natural(g) && e in g.back && Reaches(g, g.entry, e.0)
    ensures Reaches(g, g.entry, e.1)
  {
    var p :| PathBetween(g, p, g.entry, e.0);
    var k :| 0 <= k < |p| && p[k] == e.1;
    PartOfPath(g, p, 0, k);
    assert PathBetween(g, p[0..k + 1], g.entry, e.1);
  }

  // ----- Unbroken paths in parts

  lemma {:induction false} TotalOfSum(pr: Probes, p: seq<Block>, q: seq<Block>)
    ensures Total(pr, p + q) == Total(pr, p) + Total(pr, q)
    decreases |q|
  {
    if q == [] {
      assert p + q == p;
    } else {
      assert Init(p + q) == p + Init(q);
      TotalOfSum(pr, p, Init(q));
    }
  }

  lemma {:induction false} PartIsUnbroken(g: Cfg, pr: Probes, p: seq<Block>, k: nat, m: nat)
    requires Unbroken(g, pr, p) && k < m <= |p|
    ensures Unbroken(g, pr, p[k..m])
    decreases |p| + m
  {
    if m < |p| {
      PartIsUnbroken(g, pr, Init(p), k, m);
      assert Init(p)[k..m] == p[k..m];
    } else if k < m - 1 {
      PartIsUnbroken(g, pr, Init(p), k, m - 1);
      assert Init(p)[k..m - 1] == Init(p[k..m]);
    } else {
      assert p[k..m] == [p[k]];
    }
  }

  lemma {:induction false} UnbrokenCarries(g: Cfg, pr: Probes, p: seq<Block>, k: nat)
    requires Unbroken(g, pr, p) && k < |p| - 1
    ensures Carries(g, pr, p[k], p[k + 1])
    decreases |p|
  {
    if k < |p| - 2 {
      UnbrokenCarries(g, pr, Init(p), k);
    }
  }

  /** An unbroken path that ends in a block of positive cost meets no probe. */
  lemma UnbrokenMeetsNone(g: Cfg, pr: Probes, p: seq<Block>)
    requires Unbroken(g, pr, p) && Cost(pr, Last(p)) > 0
    ensures !MeetsProbe(pr, p)
  {
    forall k | 0 <= k < |p| - 1
      ensures Cost(pr, p[k]) > 0 && !Probed(pr, p[k], p[k + 1])
    {
      UnbrokenCarries(g, pr, p, k);
    }
  }

  // ----- The bound

  /** What the pass establishes of the loops. */
  ghost predicate LoopsProbed(g: Cfg, pr: Probes, loops: map<Edge, LoopProbe>, limits: Limits) {
    forall e :: e in g.back ==> LoopIsProbed(g, pr, e, loops, limits)
  }

  function LoopCost(loops: map<Edge, LoopProbe>, e: Edge): int {
    if IsCounted(loops, e) then loops[e].loopCost else 0
  }

  /** The iterations of all loops on a walk, each at the cost of its loop. */
  function Charge(loops: map<Edge, LoopProbe>, edges: seq<Edge>, w: seq<Block>): int {
    if edges == [] then 0
    else Charge(loops, edges[1..], w) + Ticks(w, edges[0]) * LoopCost(loops, edges[0])
  }

  function Share(n: nat, interval: int): int {
    n * interval
  }

  lemma ShareOfNext(n: nat, interval: int)
    ensures Share(n + 1, interval) == Share(n, interval) + interval
  {
  }

  lemma ShareOfMore(n: nat, m: nat, interval: int)
    requires n <= m && interval >= 0
    ensures Share(n, interval) <= Share(m, interval)
  {
    MulMonotonic(n, m, interval);
  }

  /** The walk is reduced to an unbroken path `p` by taking out what ran round the loops of the walk,
      and what ran before loops that were entered before it: their back edges are in `left`. */
  ghost predicate Reduced(g: Cfg, pr: Probes, loops: map<Edge, LoopProbe>, edges: seq<Edge>, interval: int,
      w: seq<Block>, p: seq<Block>, left: set<Edge>)
  {
    && w != [] && Unbroken(g, pr, p) && Last(p) == Last(w) && Reaches(g, g.entry, p[0]) && left <= g.back
    && (forall e :: e in left ==> Dominates(g, p[0], e.1))
    && Total(pr, w) <= Total(pr, p) + Share(|left|, interval) + Charge(loops, edges, w)
  }

  ghost predicate WellLooped(g: Cfg, pr: Probes, loops: map<Edge, LoopProbe>, limits: Limits, edges: seq<Edge>) {
    && ValidCfg(g) && ValidProbes(g, pr) && Natural(g) && !CyclicFrom(g, g.entry)
    && PathsBounded(g, pr, limits.interval) && LoopsProbed(g, pr, loops, limits)
    && (forall e :: e in edges <==> e in g.back)
  }

  lemma {:induction false} ChargeGrows(loops: map<Edge, LoopProbe>, edges: seq<Edge>, w: seq<Block>, w': seq<Block>,
      e: Edge)
    requires w' != [] && w == Init(w') && w != [] && e == (Last(w), Last(w'))
    requires forall f :: f in edges ==> LoopCost(loops, f) >= 0
    ensures Charge(loops, edges, w') >= Charge(loops, edges, w) + (if e in edges then LoopCost(loops, e) else 0)
  {
    if edges != [] {
      ChargeGrows(loops, edges[1..], w, w', e);
      var f := edges[0];
      assert Ticks(w', f) == Ticks(w, f) + (if e == f then 1 else 0);
      assert Ticks(w', f) * LoopCost(loops, f) ==
             Ticks(w, f) * LoopCost(loops, f) + (if e == f then LoopCost(loops, f) else 0);
    }
  }

  lemma LoopCostsAreNatural(g: Cfg, pr: Probes, loops: map<Edge, LoopProbe>, limits: Limits, edges: seq<Edge>)
    requires WellLooped(g, pr, loops, limits, edges)
    ensures forall e :: e in edges ==> LoopCost(loops, e) >= 0
  {
    forall e | e in edges
      ensures LoopCost(loops, e) >= 0
    {
      assert LoopIsProbed(g, pr, e, loops, limits);
    }
  }

  lemma StepForward(g: Cfg, pr: Probes, loops: map<Edge, LoopProbe>, limits: Limits, edges: seq<Edge>,
      w: seq<Block>, p: seq<Block>, left: set<Edge>, v: Block)
    requires WellLooped(g, pr, loops, limits, edges) && Reduced(g, pr, loops, edges, limits.interval, w, p, left)
    requires Quiet(g, pr, Last(w), v) && (Last(w), v) !in g.back
    ensures Reduced(g, pr, loops, edges, limits.interval, w + [v], p + [v], left)
  {
    hide Natural, CyclicFrom, PathsBounded, LoopsProbed, Dominates;
    assert Init(w + [v]) == w;
    ExtendUnbroken(g, pr, p, v);
    LoopCostsAreNatural(g, pr, loops, limits, edges);
    ChargeGrows(loops, edges, w, w + [v], (Last(w), v));
  }

  /** The path comes back to a block of its own: what it ran since is paid by that loop. */
  lemma StepRound(g: Cfg, pr: Probes, loops: map<Edge, LoopProbe>, limits: Limits, edges: seq<Edge>,
      w: seq<Block>, p: seq<Block>, left: set<Edge>, h: Block, k: nat)
    requires WellLooped(g, pr, loops, limits, edges) && Reduced(g, pr, loops, edges, limits.interval, w, p, left)
    requires Quiet(g, pr, Last(w), h) && (Last(w), h) in g.back && k < |p| && p[k] == h
    ensures Reduced(g, pr, loops, edges, limits.interval, w + [h], p[..k + 1], left)
  {
    hide Natural, CyclicFrom, PathsBounded, Dominates;
    var e := (Last(w), h);
    assert Init(w + [h]) == w;
    RoundIsPaid(g, pr, loops, limits, e, p[k..]) by {
      PartIsUnbroken(g, pr, p, k, |p|);
      assert p[k..|p|] == p[k..];
    }
    LoopCostsAreNatural(g, pr, loops, limits, edges);
    ChargeGrows(loops, edges, w, w + [h], e);
    PartIsUnbroken(g, pr, p, 0, k + 1);
    assert p[0..k + 1] == p[..k + 1];
    TotalOfSum(pr, p[..k], p[k..]);
    assert p[..k] + p[k..] == p;
    assert Init(p[..k + 1]) == p[..k];
  }

  lemma RoundIsPaid(g: Cfg, pr: Probes, loops: map<Edge, LoopProbe>, limits: Limits, e: Edge, p: seq<Block>)
    requires LoopsProbed(g, pr, loops, limits) && e in g.back && Quiet(g, pr, e.0, e.1)
    requires Connects(g, pr, p, e.1, e.0)
    ensures Total(pr, p) <= LoopCost(loops, e)
  {
    assert LoopIsProbed(g, pr, e, loops, limits);
    UnbrokenIsPath(g, pr, p);
    UnbrokenMeetsNone(g, pr, p);
    assert PathBetween(g, p, e.1, e.0);
  }

  /** The path goes back to a header it has not met: that loop was entered before the walk, and this
      happens only once. */
  lemma StepOut(g: Cfg, pr: Probes, loops: map<Edge, LoopProbe>, limits: Limits, edges: seq<Edge>,
      w: seq<Block>, p: seq<Block>, left: set<Edge>, h: Block)
    requires WellLooped(g, pr, loops, limits, edges) && Reduced(g, pr, loops, edges, limits.interval, w, p, left)
    requires Quiet(g, pr, Last(w), h) && (Last(w), h) in g.back && h !in p && h < |g.succ|
    ensures Reduced(g, pr, loops, edges, limits.interval, w + [h], [h], left + {(Last(w), h)})
  {
    var e := (Last(w), h);
    OutOnlyOnce(g, pr, loops, limits, edges, w, p, left, e);
    OutDominates(g, pr, loops, limits, edges, w, p, left, e);
    hide Natural, CyclicFrom, LoopsProbed, Dominates, Share, Charge, Reaches, ValidCfg, ValidProbes;
    assert Init(w + [h]) == w;
    LoopCostsAreNatural(g, pr, loops, limits, edges);
    ChargeGrows(loops, edges, w, w + [h], e);
    TotalOfOne(pr, h);
    assert Total(pr, p) <= limits.interval;
    ShareOfNext(|left|, limits.interval);
    assert |left + {e}| == |left| + 1;
  }

  lemma OutOnlyOnce(g: Cfg, pr: Probes, loops: map<Edge, LoopProbe>, limits: Limits, edges: seq<Edge>,
      w: seq<Block>, p: seq<Block>, left: set<Edge>, e: Edge)
    requires WellLooped(g, pr, loops, limits, edges) && Reduced(g, pr, loops, edges, limits.interval, w, p, left)
    requires e in g.back && e.0 == Last(w) && e.1 !in p
    ensures e !in left && Dominates(g, e.1, p[0])
  {
    hide CyclicFrom, PathsBounded, LoopsProbed, Dominates;
    UnbrokenIsPath(g, pr, p);
    StartsInside(g, p, e);
    if e in left {
      DominateEachOther(g, e.1, p[0]);
    }
  }

  lemma OutDominates(g: Cfg, pr: Probes, loops: map<Edge, LoopProbe>, limits: Limits, edges: seq<Edge>,
      w: seq<Block>, p: seq<Block>, left: set<Edge>, e: Edge)
    requires WellLooped(g, pr, loops, limits, edges) && Reduced(g, pr, loops, edges, limits.interval, w, p, left)
    requires e in g.back && e.0 == Last(w) && e.1 !in p
    ensures Reaches(g, g.entry, e.1) && forall f :: f in left + {e} ==> Dominates(g, e.1, f.1)
  {
    hide CyclicFrom, PathsBounded, LoopsProbed, Dominates;
    UnbrokenIsPath(g, pr, p);
    ReachesPart(g, p, |p| - 1);
    HeaderIsReached(g, e);
    StartsInside(g, p, e);
    DominatesItself(g, e.1);
    forall f | f in left
      ensures Dominates(g, e.1, f.1)
    {
      DominatesOn(g, e.1, p[0], f.1);
    }
  }

  lemma {:induction false} WalkIsReduced(g: Cfg, pr: Probes, loops: map<Edge, LoopProbe>, limits: Limits,
      edges: seq<Edge>, w: seq<Block>)
    returns (p: seq<Block>, left: set<Edge>)
    requires WellLooped(g, pr, loops, limits, edges) && w != [] && Reaches(g, g.entry, w[0])
    requires forall k :: 0 <= k < |w| ==> w[k] < |g.succ|
    requires forall k :: 0 <= k < |w| - 1 ==> Quiet(g, pr, w[k], w[k + 1])
    ensures Reduced(g, pr, loops, edges, limits.interval, w, p, left)
    decreases |w|
  {
    hide WellLooped, Quiet, Reaches, Reduced;
    if |w| == 1 {
      p, left := w, {};
      StartsReduced(g, pr, loops, edges, limits.interval, w);
    } else {
      var w0, v := Init(w), Last(w);
      p, left := WalkIsReduced(g, pr, loops, limits, edges, w0);
      assert w == w0 + [v] && Last(w0) == w[|w| - 2];
      if (Last(w0), v) !in g.back {
        StepForward(g, pr, loops, limits, edges, w0, p, left, v);
        p := p + [v];
      } else if v in p {
        var k :| 0 <= k < |p| && p[k] == v;
        StepRound(g, pr, loops, limits, edges, w0, p, left, v, k);
        p := p[..k + 1];
      } else {
        StepOut(g, pr, loops, limits, edges, w0, p, left, v);
        p, left := [v], left + {(Last(w0), v)};
      }
    }
  }

  lemma {:induction false} NoTicks(loops: map<Edge, LoopProbe>, edges: seq<Edge>, w: seq<Block>)
    requires |w| < 2
    ensures Charge(loops, edges, w) == 0
  {
    if edges != [] {
      NoTicks(loops, edges[1..], w);
    }
  }

  lemma StartsReduced(g: Cfg, pr: Probes, loops: map<Edge, LoopProbe>, edges: seq<Edge>, interval: int, w: seq<Block>)
    requires |w| == 1 && w[0] < |g.succ| && Reaches(g, g.entry, w[0])
    ensures Reduced(g, pr, loops, edges, interval, w, w, {})
  {
    NoTicks(loops, edges, w);
  }

  /** Every loop pays for at most the interval before its counter fires. */
  lemma {:induction false} ChargeIsBounded(g: Cfg, pr: Probes, loops: map<Edge, LoopProbe>, limits: Limits,
      edges: seq<Edge>, w: seq<Block>)
    requires LoopsProbed(g, pr, loops, limits) && (forall e :: e in edges ==> e in g.back) && limits.interval >= 0
    requires forall e :: e in g.back && IsCounted(loops, e) ==> Ticks(w, e) < loops[e].iterations
    ensures Charge(loops, edges, w) <= Share(|edges|, limits.interval)
  {
    if edges != [] {
      ChargeIsBounded(g, pr, loops, limits, edges[1..], w);
      var e := edges[0];
      assert LoopIsProbed(g, pr, e, loops, limits);
      if IsCounted(loops, e) {
        assert IsRate(limits, loops[e].iterations, loops[e].loopCost, loops[e].calls);
        MulMonotonic(Ticks(w, e), loops[e].iterations, loops[e].loopCost);
      }
      ShareOfNext(|edges[1..]|, limits.interval);
    }
  }

  lemma {:induction false} ListOf(s: set<Edge>) returns (l: seq<Edge>)
    ensures |l| == |s| && forall e :: e in l <==> e in s
  {
    if s == {} {
      l := [];
    } else {
      var e :| e in s;
      var rest := ListOf(s - {e});
      l := [e] + rest;
    }
  }

  lemma OneAndTwice(n: nat, interval: int)
    ensures (1 + 2 * n) * interval == interval + Share(n, interval) + Share(n, interval)
  {
  }

  lemma CalmIsBounded(g: Cfg, pr: Probes, loops: map<Edge, LoopProbe>, limits: Limits, w: seq<Block>)
    requires ValidCfg(g) && ValidProbes(g, pr) && Natural(g) && !CyclicFrom(g, g.entry) && limits.interval > 0
    requires PathsBounded(g, pr, limits.interval) && LoopsProbed(g, pr, loops, limits)
    requires Calm(g, pr, loops, w) && Reaches(g, g.entry, w[0])
    ensures Total(pr, w) <= (1 + 2 * |g.back|) * limits.interval
  {
    hide Natural, CyclicFrom, LoopsProbed, Reaches, Quiet, Dominates, Share, Charge, Ticks, ValidCfg, ValidProbes;
    var edges := ListOf(g.back);
    assert WellLooped(g, pr, loops, limits, edges);
    var p, left := WalkIsReduced(g, pr, loops, limits, edges, w);
    ChargeIsBounded(g, pr, loops, limits, edges, w);
    SmallerSet(left, g.back);
    ShareOfMore(|left|, |g.back|, limits.interval);
    assert Total(pr, p) <= limits.interval;
    OneAndTwice(|g.back|, limits.interval);
  }

  lemma {:induction false} SmallerSet(a: set<Edge>, b: set<Edge>)
    requires a <= b
    ensures |a| <= |b|
  {
    if e :| e in a {
      SmallerSet(a - {e}, b - {e});
    }
  }

  /** Along every execution of a function with natural loops, from any block and with any values of the
      loop counters, what runs before the next probe costs at most the interval, and twice the interval
      for every back edge. */
  lemma SilentWalksAreBounded(g: Cfg, pr: Probes, loops: map<Edge, LoopProbe>, limits: Limits, c: Counters,
      w: seq<Block>)
    requires ValidCfg(g) && ValidProbes(g, pr) && Natural(g) && !CyclicFrom(g, g.entry) && limits.interval > 0
    requires PathsBounded(g, pr, limits.interval) && LoopsProbed(g, pr, loops, limits)
    requires ValidCounters(loops, c) && Silent(g, pr, loops, c, w) && Reaches(g, g.entry, w[0])
    ensures Total(pr, w) <= (1 + 2 * |g.back|) * limits.interval
  {
    SilentIsCalm(g, pr, loops, c, w);
    CalmIsBounded(g, pr, loops, limits, w);
  }

  // ----- Instructions

  /** The walk from instruction `i` of its first block up to instruction `j` of its last one. */
  ghost predicate IsWalk(g: Cfg, code: seq<seq<nat>>, w: seq<Block>, i: nat, j: nat) {
    && |w| > 1 && |code| == |g.succ| && InCode(code, w) && (forall k :: 0 <= k < |w| - 1 ==> IsEdge(g, w[k], w[k + 1]))
    && i <= |code[w[0]]| && j <= |code[Last(w)]|
  }

  ghost function WalkCost(g: Cfg, code: seq<seq<nat>>, w: seq<Block>, i: nat, j: nat): nat
    requires IsWalk(g, code, w, i, j)
  {
    Sum(code[w[0]][i..]) + Run(code, w[1..|w| - 1]) + Sum(code[Last(w)][..j])
  }

  /** Control meets no probe on it, and no loop counter fires. */
  ghost predicate WalkFree(g: Cfg, pr: Probes, loops: map<Edge, LoopProbe>, c: Counters, code: seq<seq<nat>>,
      within: seq<seq<nat>>, w: seq<Block>, i: nat, j: nat)
    requires IsWalk(g, code, w, i, j) && |code| == |within|
  {
    && (forall k :: 0 <= k < |w| - 1 ==> (w[k], w[k + 1]) in g.back || Status(pr, w[k], w[k + 1]) == Uninst)
    && (forall k, m {:trigger Marked(pr, code, within, w[k], m)} ::
          0 <= k < |w| && 0 <= m < |code[w[k]]| && (k == 0 ==> i < m) && (k == |w| - 1 ==> m < j) ==>
            !Marked(pr, code, within, w[k], m))
    && NoneFires(g, loops, c, w)
  }

  lemma WalkIsQuiet(g: Cfg, pr: Probes, loops: map<Edge, LoopProbe>, c: Counters, code: seq<seq<nat>>,
      within: seq<seq<nat>>, interval: int, w: seq<Block>, i: nat, j: nat, k: nat)
    requires Laid(g, pr, code, within, interval) && IsWalk(g, code, w, i, j)
    requires WalkFree(g, pr, loops, c, code, within, w, i, j) && k < |w| - 1 && (k > 0 || Plain(pr, w[0]))
    ensures Quiet(g, pr, w[k], w[k + 1]) && Cost(pr, w[k]) == Sum(code[w[k]])
  {
    hide Sum, AreWithin, NoneFires;
    if k == 0 {
      PlainIsCounted(g, pr, code, within, interval, w[0]);
    } else {
      MiddleIsPlain(g, pr, code, within, interval, w[k]);
    }
  }

  lemma {:induction false} TotalOfWalk(pr: Probes, code: seq<seq<nat>>, w: seq<Block>)
    requires w != [] && InCode(code, w) && forall k :: 0 <= k < |w| - 1 ==> Cost(pr, w[k]) == Sum(code[w[k]])
    ensures Total(pr, w) == Run(code, Init(w)) + Cost(pr, Last(w))
    decreases |w|
  {
    if |w| == 1 {
      TotalOfOne(pr, w[0]);
      assert w == [w[0]];
    } else {
      TotalOfWalk(pr, code, Init(w));
    }
  }

  lemma FewerTicks(g: Cfg, loops: map<Edge, LoopProbe>, c: Counters, w: seq<Block>, w': seq<Block>)
    requires NoneFires(g, loops, c, w) && ValidCounters(loops, c) && |w| > 1 && (w' == w || w' == w[1..])
    ensures forall e :: e in g.back && IsCounted(loops, e) ==> Ticks(w', e) < loops[e].iterations
  {
    forall e | e in g.back && IsCounted(loops, e)
      ensures Ticks(w', e) < loops[e].iterations
    {
      SilentTicks(g, loops, c, w, e);
      TicksOfRest(w, e);
    }
  }

  lemma NextIsReached(g: Cfg, u: Block, v: Block)
    requires ValidCfg(g) && Natural(g) && Reaches(g, g.entry, u) && IsEdge(g, u, v)
    ensures Reaches(g, g.entry, v)
  {
    if (u, v) in g.back {
      HeaderIsReached(g, (u, v));
    } else {
      ReachesStep(g, g.entry, u, v);
    }
  }

  /** The walk of blocks behind the instructions, without a first block that has a probe of its own. */
  function Counting(pr: Probes, w: seq<Block>): seq<Block>
    requires |w| > 1
  {
    if Plain(pr, w[0]) then w else w[1..]
  }

  lemma CountingIsCalm(g: Cfg, pr: Probes, loops: map<Edge, LoopProbe>, c: Counters, code: seq<seq<nat>>,
      within: seq<seq<nat>>, interval: int, w: seq<Block>, i: nat, j: nat)
    requires Laid(g, pr, code, within, interval) && IsWalk(g, code, w, i, j) && Natural(g)
    requires WalkFree(g, pr, loops, c, code, within, w, i, j) && ValidCounters(loops, c) && Reaches(g, g.entry, w[0])
    ensures Calm(g, pr, loops, Counting(pr, w)) && Reaches(g, g.entry, Counting(pr, w)[0])
  {
    var v := Counting(pr, w);
    FewerTicks(g, loops, c, w, v);
    NextIsReached(g, w[0], w[1]);
    hide Sum, AreWithin, AreCosts, NoneFires, Quiet, Terminated, Natural, Ticks, Reaches, ValidCounters;
    var d := if Plain(pr, w[0]) then 0 else 1;
    assert forall k :: 0 <= k < |v| ==> v[k] == w[k + d];
    forall k | 0 <= k < |v| - 1
      ensures Quiet(g, pr, v[k], v[k + 1])
    {
      WalkIsQuiet(g, pr, loops, c, code, within, interval, w, i, j, k + d);
    }
  }

  lemma CountingCosts(g: Cfg, pr: Probes, loops: map<Edge, LoopProbe>, c: Counters, code: seq<seq<nat>>,
      within: seq<seq<nat>>, interval: int, w: seq<Block>, i: nat, j: nat)
    requires Laid(g, pr, code, within, interval) && IsWalk(g, code, w, i, j)
    requires WalkFree(g, pr, loops, c, code, within, w, i, j)
    ensures WalkCost(g, code, w, i, j) <=
            Total(pr, Counting(pr, w)) + Before(pr, code, w[0], i) + Behind(pr, code, Last(w), j)
  {
    hide Sum, Laid, WalkFree, Total, Run;
    forall k | 0 <= k < |w| - 1 && (k > 0 || Plain(pr, w[0]))
      ensures Cost(pr, w[k]) == Sum(code[w[k]])
    {
      WalkIsQuiet(g, pr, loops, c, code, within, interval, w, i, j, k);
    }
    LastPart(g, pr, code, within, interval, Last(w), j);
    if Plain(pr, w[0]) {
      FromTheFirst(pr, code, w);
      SumOfPart(code[w[0]], i, |code[w[0]]|);
      assert code[w[0]][i..|code[w[0]]|] == code[w[0]][i..];
    } else {
      FromTheSecond(pr, code, w);
    }
  }

  lemma FromTheFirst(pr: Probes, code: seq<seq<nat>>, w: seq<Block>)
    requires |w| > 1 && InCode(code, w) && forall k :: 0 <= k < |w| - 1 ==> Cost(pr, w[k]) == Sum(code[w[k]])
    ensures Total(pr, w) == Sum(code[w[0]]) + Run(code, w[1..|w| - 1]) + Cost(pr, Last(w))
  {
    hide Sum, Total;
    TotalOfWalk(pr, code, w);
    RunOfRest(code, Init(w));
    assert Init(w)[1..] == w[1..|w| - 1];
  }

  lemma FromTheSecond(pr: Probes, code: seq<seq<nat>>, w: seq<Block>)
    requires |w| > 1 && InCode(code, w) && forall k :: 0 < k < |w| - 1 ==> Cost(pr, w[k]) == Sum(code[w[k]])
    ensures Total(pr, w[1..]) == Run(code, w[1..|w| - 1]) + Cost(pr, Last(w))
  {
    hide Sum, Total;
    assert forall k :: 0 <= k < |w| - 1 ==> w[1..][k] == w[k + 1];
    TotalOfWalk(pr, code, w[1..]);
    assert Init(w[1..]) == w[1..|w| - 1] && Last(w[1..]) == Last(w);
  }

  /** Along every execution of a function with natural loops, instructions worth at most three times the
      interval, and twice the interval for every back edge, run between two probes. */
  lemma WalksAreBounded(g: Cfg, pr: Probes, loops: map<Edge, LoopProbe>, limits: Limits, c: Counters,
      code: seq<seq<nat>>, within: seq<seq<nat>>, w: seq<Block>, i: nat, j: nat)
    requires Laid(g, pr, code, within, limits.interval) && Natural(g) && !CyclicFrom(g, g.entry)
    requires PathsBounded(g, pr, limits.interval) && LoopsProbed(g, pr, loops, limits)
    requires NoneAbove(code, limits.interval) && ValidCounters(loops, c)
    requires IsWalk(g, code, w, i, j) && WalkFree(g, pr, loops, c, code, within, w, i, j) && Reaches(g, g.entry, w[0])
    ensures WalkCost(g, code, w, i, j) <= (3 + 2 * |g.back|) * limits.interval
  {
    hide Sum, AreWithin, NoneFires, Terminated, Natural, CyclicFrom, PathsBounded, LoopsProbed, Reaches, Calm;
    CountingIsCalm(g, pr, loops, c, code, within, limits.interval, w, i, j);
    CountingCosts(g, pr, loops, c, code, within, limits.interval, w, i, j);
    CostsAreNatural(g, code, limits.interval, pr);
    CalmIsBounded(g, pr, loops, limits, Counting(pr, w));
    assert Last(w) == w[|w| - 1];
    EndsAreShort(g, pr, code, within, limits.interval, w[0], i, Last(w), j);
    assert (3 + 2 * |g.back|) * limits.interval == (1 + 2 * |g.back|) * limits.interval + 2 * limits.interval;
  }

  /** Whatever the loop counters are at the start, what runs on a walk without a probe is worth at most
      `limit`. */
  ghost predicate WalksBounded(g: Cfg, pr: Probes, loops: map<Edge, LoopProbe>, code: seq<seq<nat>>,
      within: seq<seq<nat>>, limit: int)
    requires |code| == |within|
  {
    forall c, w, i, j ::
      && IsWalk(g, code, w, i, j) && Reaches(g, g.entry, w[0])
      && ValidCounters(loops, c) && WalkFree(g, pr, loops, c, code, within, w, i, j) ==>
        WalkCost(g, code, w, i, j) <= limit
  }

  /** The whole pass, for all executions of the function. */
  method PlaceProbesForWalks(g: Cfg, exits: set<Block>, code: seq<seq<nat>>, calls: seq<seq<Call>>, interval: int,
                             endToEnd: int, backEdges: seq<Edge>, callThreshold: nat)
    returns (pr: Probes, loops: map<Edge, LoopProbe>, within: seq<seq<nat>>, counts: seq<int>)
    requires ValidCfg(g) && |code| == |calls| == |g.succ| && interval > 0 && endToEnd >= 0
    requires !CyclicFrom(g, g.entry)
    requires forall e :: e in backEdges <==> e in g.back
    requires forall e :: e in g.back ==> e.0 < |g.succ| && e.1 < |g.succ| && Reaches(g, g.entry, e.1)
    ensures |within| == |code| && LoopsProbed(g, pr, loops, Limits(interval, callThreshold, counts))
    ensures Natural(g) && Terminated(code) && NoneAbove(code, interval) ==>
              WalksBounded(g, pr, loops, code, within, (3 + 2 * |g.back|) * interval)
  {
    pr, loops, within, counts := PlaceProbes(g, exits, code, calls, interval, endToEnd, backEdges, callThreshold);
    if Natural(g) && Terminated(code) && NoneAbove(code, interval) {
      BoundWalks(g, pr, loops, Limits(interval, callThreshold, counts), code, within);
    }
  }

  lemma BoundWalks(g: Cfg, pr: Probes, loops: map<Edge, LoopProbe>, limits: Limits, code: seq<seq<nat>>,
      within: seq<seq<nat>>)
    requires Laid(g, pr, code, within, limits.interval) && Natural(g) && !CyclicFrom(g, g.entry)
    requires PathsBounded(g, pr, limits.interval) && LoopsProbed(g, pr, loops, limits)
    requires NoneAbove(code, limits.interval)
    ensures WalksBounded(g, pr, loops, code, within, (3 + 2 * |g.back|) * limits.interval)
  {
    hide Natural, CyclicFrom, PathsBounded, LoopsProbed, NoneAbove, WalkFree, ValidCounters, Terminated, AreCosts;
    forall c, w, i: nat, j: nat |
        && IsWalk(g, code, w, i, j) && Reaches(g, g.entry, w[0])
        && ValidCounters(loops, c) && WalkFree(g, pr, loops, c, code, within, w, i, j)
      ensures WalkCost(g, code, w, i, j) <= (3 + 2 * |g.back|) * limits.interval
    {
      WalksAreBounded(g, pr, loops, limits, c, code, within, w, i, j);
    }
  }
}
