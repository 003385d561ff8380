/** Exactly which control-flow graphs the loop probes keep bounded, whatever the blocks cost. */
module LoopLimits {
  import opened Arithmetic
  import opened ControlFlow
  import opened Distances
  import opened DistancesFrom
  import opened CallDistances
  import opened BlockProbes
  import opened StretchBounds
  import opened StretchLimits
  import opened ProbePass
  import opened WalkBounds

  // ----- The condition

  /** A walk that comes back to where it started. */
  ghost predicate IsRound(g: Cfg, w: seq<Block>) {
    && |w| > 1 && w[0] == Last(w) && Reaches(g, g.entry, w[0])
    && forall k :: 0 <= k < |w| - 1 ==> IsEdge(g, w[k], w[k + 1])
  }

  /** The forward path `p` takes edges of the walk only, from the target of its back edge `e` to the source. */
  ghost predicate Closes(g: Cfg, w: seq<Block>, e: Edge, p: seq<Block>) {
    && e in g.back && OnPath(w, e.0, e.1) && PathBetween(g, p, e.1, e.0)
    && forall k :: 0 <= k < |p| - 1 ==> OnPath(w, p[k], p[k + 1])
  }

  /** Every round goes round one of its loops by forward edges. */
  ghost predicate Tame(g: Cfg) {
    forall w :: IsRound(g, w) ==> exists e, p :: Closes(g, w, e, p)
  }

  ghost predicate ValidBack(g: Cfg) {
    forall e :: e in g.back ==> IsEdge(g, e.0, e.1) && Reaches(g, g.entry, e.1)
  }

  /** What the pass establishes. */
  ghost predicate Instrumented(g: Cfg, code: seq<seq<nat>>, pr: Probes, within: seq<seq<nat>>,
      loops: map<Edge, LoopProbe>, limits: Limits)
  {
    Placed(g, pr, code, within, limits.interval) && LoopsProbed(g, pr, loops, limits)
  }

  /** What runs before the next probe costs at most `bound`, along every execution. */
  ghost predicate WalksWithin(g: Cfg, pr: Probes, loops: map<Edge, LoopProbe>, bound: int) {
    forall c, w :: ValidCounters(loops, c) && Silent(g, pr, loops, c, w) && Reaches(g, g.entry, w[0]) ==>
      Total(pr, w) <= bound
  }

  // ----- Pigeonholes

  lemma {:induction false} SimpleFits(p: seq<Block>, n: nat)
    requires Simple(p) && forall k :: 0 <= k < |p| ==> p[k] < n
    ensures |p| <= n
    decreases n
  {
    if p != [] {
      var last := p[|p| - 1];
      var q := seq(|p| - 1, i requires 0 <= i < |p| - 1 => if p[i] == n - 1 then last else p[i]);
      assert Simple(q);
      SimpleFits(q, n - 1);
    }
  }

  lemma SimpleGrows(p: seq<Block>, b: Block)
    requires Simple(p) && b !in p
    ensures Simple(p + [b])
  {
  }

  // ----- Tame graphs

  /** A round without a probe has a counter on it. */
  lemma NoQuietRound(g: Cfg, pr: Probes, loops: map<Edge, LoopProbe>, limits: Limits, w: seq<Block>)
    requires Tame(g) && LoopsProbed(g, pr, loops, limits) && IsRound(g, w)
    requires forall k :: 0 <= k < |w| - 1 ==> Quiet(g, pr, w[k], w[k + 1])
    ensures exists k :: 0 <= k < |w| - 1 && (w[k], w[k + 1]) in g.back && IsCounted(loops, (w[k], w[k + 1]))
  {
    var e, p :| Closes(g, w, e, p);
    var k :| 0 <= k < |w| - 1 && w[k] == e.0 && w[k + 1] == e.1;
    assert LoopIsProbed(g, pr, e, loops, limits);
    if !IsCounted(loops, e) {
      ClosedIsProbeless(g, pr, w, e, p);
    }
  }

  lemma ClosedIsProbeless(g: Cfg, pr: Probes, w: seq<Block>, e: Edge, p: seq<Block>)
    requires Closes(g, w, e, p) && forall k :: 0 <= k < |w| - 1 ==> Quiet(g, pr, w[k], w[k + 1])
    ensures !MeetsProbe(pr, p)
  {
    forall m | 0 <= m < |p| - 1
      ensures Cost(pr, p[m]) > 0 && !Probed(pr, p[m], p[m + 1])
    {
      ForwardOnPath(g, p, m);
      var k :| 0 <= k < |w| - 1 && w[k] == p[m] && w[k + 1] == p[m + 1];
    }
    var k :| 0 <= k < |w| - 1 && w[k] == e.0 && w[k + 1] == e.1;
    assert Cost(pr, Last(p)) > 0;
  }

  function CountedTicks(g: Cfg, loops: map<Edge, LoopProbe>, w: seq<Block>): nat {
    if |w| < 2 then 0
    else
      var e := (w[|w| - 2], w[|w| - 1]);
      CountedTicks(g, loops, Init(w)) + (if e in g.back && IsCounted(loops, e) then 1 else 0)
  }

  /** The walk since it last took a counted back edge meets no block twice. */
  ghost predicate FreshFrom(g: Cfg, loops: map<Edge, LoopProbe>, w: seq<Block>, k: nat) {
    && k < |w| && Simple(w[k..]) && k <= CountedTicks(g, loops, w) * |g.succ|
    && forall m :: k <= m < |w| - 1 ==> !((w[m], w[m + 1]) in g.back && IsCounted(loops, (w[m], w[m + 1])))
  }

  ghost predicate IsQuietWalk(g: Cfg, pr: Probes, w: seq<Block>) {
    && w != [] && Reaches(g, g.entry, w[0]) && (forall k :: 0 <= k < |w| ==> w[k] < |g.succ|)
    && forall k :: 0 <= k < |w| - 1 ==> Quiet(g, pr, w[k], w[k + 1])
  }

  lemma {:induction false} WalkIsReached(g: Cfg, pr: Probes, w: seq<Block>, k: nat)
    requires ValidCfg(g) && ValidBack(g) && IsQuietWalk(g, pr, w) && k < |w|
    ensures Reaches(g, g.entry, w[k])
    decreases k
  {
    if k > 0 {
      WalkIsReached(g, pr, w, k - 1);
      assert Quiet(g, pr, w[k - 1], w[k]);
      if (w[k - 1], w[k]) !in g.back {
        ReachesStep(g, g.entry, w[k - 1], w[k]);
      }
    }
  }

  lemma {:induction false} FreshPart(g: Cfg, pr: Probes, loops: map<Edge, LoopProbe>, limits: Limits, w: seq<Block>)
    returns (k: nat)
    requires ValidCfg(g) && ValidBack(g) && Tame(g) && LoopsProbed(g, pr, loops, limits) && IsQuietWalk(g, pr, w)
    ensures FreshFrom(g, loops, w, k)
    decreases |w|
  {
    hide Tame, LoopsProbed, Quiet, ValidBack, Reaches;
    if |w| == 1 {
      k := 0;
    } else {
      var v, e := Init(w), (w[|w| - 2], w[|w| - 1]);
      var m := FreshPart(g, pr, loops, limits, v);
      if e in g.back && IsCounted(loops, e) {
        k := |w| - 1;
        FreshAgain(g, loops, w, m);
      } else {
        k := m;
        StillFresh(g, pr, loops, limits, w, m);
      }
    }
  }

  lemma FreshAgain(g: Cfg, loops: map<Edge, LoopProbe>, w: seq<Block>, m: nat)
    requires |w| > 1 && FreshFrom(g, loops, Init(w), m) && forall k :: 0 <= k < |w| ==> w[k] < |g.succ|
    requires var e := (w[|w| - 2], w[|w| - 1]); e in g.back && IsCounted(loops, e)
    ensures FreshFrom(g, loops, w, |w| - 1)
  {
    var v := Init(w);
    SimpleFits(v[m..], |g.succ|);
    assert (CountedTicks(g, loops, v) + 1) * |g.succ| == CountedTicks(g, loops, v) * |g.succ| + |g.succ|;
  }

  lemma StillFresh(g: Cfg, pr: Probes, loops: map<Edge, LoopProbe>, limits: Limits, w: seq<Block>, m: nat)
    requires ValidCfg(g) && ValidBack(g) && Tame(g) && LoopsProbed(g, pr, loops, limits) && IsQuietWalk(g, pr, w)
    requires |w| > 1 && FreshFrom(g, loops, Init(w), m)
    requires var e := (w[|w| - 2], w[|w| - 1]); !(e in g.back && IsCounted(loops, e))
    ensures FreshFrom(g, loops, w, m)
  {
    hide Tame, LoopsProbed, Quiet, ValidBack, Reaches, Simple;
    var v, b := Init(w), Last(w);
    assert w[m..] == v[m..] + [b];
    assert forall k :: m <= k < |v| ==> v[k] == w[k];
    if b in v[m..] {
      var k :| 0 <= k < |v[m..]| && v[m..][k] == b;
      NotFreshIsRound(g, pr, loops, limits, w, m + k);
    } else {
      SimpleGrows(v[m..], b);
    }
  }

  lemma NotFreshIsRound(g: Cfg, pr: Probes, loops: map<Edge, LoopProbe>, limits: Limits, w: seq<Block>, k: nat)
    requires ValidCfg(g) && ValidBack(g) && Tame(g) && LoopsProbed(g, pr, loops, limits) && IsQuietWalk(g, pr, w)
    requires k < |w| - 1 && w[k] == Last(w)
    ensures exists m :: k <= m < |w| - 1 && (w[m], w[m + 1]) in g.back && IsCounted(loops, (w[m], w[m + 1]))
  {
    hide Tame, LoopsProbed, ValidBack, Reaches;
    var r := w[k..];
    WalkIsReached(g, pr, w, k);
    assert forall m :: 0 <= m < |r| ==> r[m] == w[k + m];
    NoQuietRound(g, pr, loops, limits, r);
    var m :| 0 <= m < |r| - 1 && (r[m], r[m + 1]) in g.back && IsCounted(loops, (r[m], r[m + 1]));
    assert (w[k + m], w[k + m + 1]) in g.back;
  }

  lemma {:induction false} TicksAreCharged(g: Cfg, pr: Probes, loops: map<Edge, LoopProbe>, limits: Limits,
      edges: seq<Edge>, w: seq<Block>)
    requires LoopsProbed(g, pr, loops, limits) && forall e :: e in edges <==> e in g.back
    ensures CountedTicks(g, loops, w) <= Charge(loops, edges, w)
    decreases |w|
  {
    if |w| < 2 {
      NoTicks(loops, edges, w);
    } else {
      var v, e := Init(w), (w[|w| - 2], w[|w| - 1]);
      TicksAreCharged(g, pr, loops, limits, edges, v);
      forall f | f in edges
        ensures LoopCost(loops, f) >= 0 && (IsCounted(loops, f) ==> LoopCost(loops, f) >= 1)
      {
        assert LoopIsProbed(g, pr, f, loops, limits);
      }
      ChargeGrows(loops, edges, v, w, e);
    }
  }

  lemma {:induction false} TotalOfLength(pr: Probes, w: seq<Block>, most: int)
    requires forall k :: 0 <= k < |w| ==> Cost(pr, w[k]) <= most
    ensures Total(pr, w) <= |w| * most
    decreases |w|
  {
    if w != [] {
      TotalOfLength(pr, Init(w), most);
      assert |w| * most == |Init(w)| * most + most;
    }
  }

  /** The bound for a graph: the counters allow so many rounds, and each part without is short. */
  function Bound(g: Cfg, interval: int): int {
    (Share(|g.back|, interval) + 1) * |g.succ| * interval
  }

  lemma TameWalkIsBounded(g: Cfg, pr: Probes, loops: map<Edge, LoopProbe>, limits: Limits, w: seq<Block>)
    requires ValidCfg(g) && ValidBack(g) && Tame(g) && LoopsProbed(g, pr, loops, limits) && limits.interval > 0
    requires (forall b: Block :: 0 <= Cost(pr, b) <= limits.interval) && Calm(g, pr, loops, w)
    requires Reaches(g, g.entry, w[0])
    ensures Total(pr, w) <= Bound(g, limits.interval)
  {
    var edges := ListOf(g.back);
    var k := FreshPart(g, pr, loops, limits, w);
    SimpleFits(w[k..], |g.succ|);
    TicksAreCharged(g, pr, loops, limits, edges, w);
    ChargeIsBounded(g, pr, loops, limits, edges, w);
    TotalOfLength(pr, w, limits.interval);
    LengthIsBounded(|w|, CountedTicks(g, loops, w), Share(|g.back|, limits.interval), |g.succ|, limits.interval);
  }

  lemma LengthIsBounded(length: nat, ticks: nat, most: int, blocks: nat, interval: int)
    requires length <= ticks * blocks + blocks && ticks <= most && interval > 0
    ensures length * interval <= (most + 1) * blocks * interval
  {
    MulMonotonic(ticks + 1, most + 1, blocks);
    assert (ticks + 1) * blocks == ticks * blocks + blocks;
    MulMonotonic(length, (most + 1) * blocks, interval);
  }

  lemma TameIsBounded(g: Cfg, code: seq<seq<nat>>, pr: Probes, within: seq<seq<nat>>, loops: map<Edge, LoopProbe>,
      limits: Limits)
    requires ValidBack(g) && Tame(g) && Instrumented(g, code, pr, within, loops, limits)
    ensures WalksWithin(g, pr, loops, Bound(g, limits.interval))
  {
    hide Tame, LoopsProbed, ValidBack, Reaches, PathsBounded, Merged, Bound;
    CostsAreNatural(g, code, limits.interval, pr);
    forall c, w | ValidCounters(loops, c) && Silent(g, pr, loops, c, w) && Reaches(g, g.entry, w[0])
      ensures Total(pr, w) <= Bound(g, limits.interval)
    {
      SilentIsCalm(g, pr, loops, c, w);
      TameWalkIsBounded(g, pr, loops, limits, w);
    }
  }

  // ----- Other graphs

  /** One instruction to a block, and an interval that no path reaches. */
  function Ones(g: Cfg): seq<seq<nat>> {
    seq(|g.succ|, b => [1])
  }

  function Wide(g: Cfg): int {
    |g.succ| + 1
  }

  function NoCalls(g: Cfg): seq<int> {
    seq(|g.succ|, b => 0)
  }

  function LimitsOf(g: Cfg): Limits {
    Limits(Wide(g), 0, NoCalls(g))
  }

  lemma OnesAreTerminated(g: Cfg)
    ensures Terminated(Ones(g))
  {
    SumOfOne([1], 0);
    assert [1][0..1] == [1];
  }

  lemma OnesCost(g: Cfg, w: seq<Block>, b: Block)
    requires w != [] && b < |g.succ|
    ensures Cost(Sparing(g, Ones(g), Wide(g), w, false), b) == 1
  {
    SumOfOne([1], 0);
    assert [1][0..1] == [1];
  }

  lemma {:induction false} OnesTotal(g: Cfg, w: seq<Block>, p: seq<Block>)
    requires w != [] && forall k :: 0 <= k < |p| ==> p[k] < |g.succ|
    ensures Total(Sparing(g, Ones(g), Wide(g), w, false), p) == |p|
    decreases |p|
  {
    if p != [] {
      OnesTotal(g, w, Init(p));
      OnesCost(g, w, Last(p));
    }
  }

  lemma {:induction false} PathInRange(g: Cfg, p: seq<Block>, k: nat)
    requires Path(g, p) && k < |p|
    ensures p[k] < |g.succ|
    decreases |p|
  {
    if k < |p| - 1 {
      PathInRange(g, Init(p), k);
    }
  }

  lemma OnesAreBounded(g: Cfg, w: seq<Block>)
    requires ValidCfg(g) && !CyclicFrom(g, g.entry) && w != []
    ensures PathsBounded(g, Sparing(g, Ones(g), Wide(g), w, false), Wide(g))
  {
    hide CyclicFrom, Sparing;
    var pr := Sparing(g, Ones(g), Wide(g), w, false);
    forall p | Unbroken(g, pr, p) && Reaches(g, g.entry, p[0])
      ensures Total(pr, p) <= Wide(g)
    {
      UnbrokenIsPath(g, pr, p);
      PathsAreSimple(g, p);
      forall k | 0 <= k < |p|
        ensures p[k] < |g.succ|
      {
        PathInRange(g, p, k);
      }
      SimpleFits(p, |g.succ|);
      OnesTotal(g, w, p);
    }
  }

  // ----- Loop probes for them

  /** A largest number exists where there is any, below a bound. */
  lemma {:induction false} SomeLongest(g: Cfg, pr: Probes, a: Block, b: Block, p: seq<Block>, most: int)
    returns (d: int)
    requires Connects(g, pr, p, a, b) && Total(pr, p) > 0
    requires forall q :: Connects(g, pr, q, a, b) ==> Total(pr, q) <= most
    ensures d > 0 && IsLongestFrom(g, pr, a, b, d) && d <= most
    decreases most - Total(pr, p)
  {
    if q :| Connects(g, pr, q, a, b) && Total(pr, q) > Total(pr, p) {
      d := SomeLongest(g, pr, a, b, q, most);
    } else {
      d := Total(pr, p);
    }
  }

  ghost predicate HasLongest(g: Cfg, pr: Probes, e: Edge, d: int) {
    0 < d <= Wide(g) && IsLongestFrom(g, pr, e.1, e.0, d)
  }

  ghost function LoopFor(g: Cfg, pr: Probes, e: Edge): LoopProbe {
    if d :| HasLongest(g, pr, e, d) then Every(NumIters(Wide(g), d, 0, 0), d, 0) else Cancelled
  }

  ghost function LoopsFor(g: Cfg, pr: Probes): map<Edge, LoopProbe> {
    map e | e in g.back && e.0 !in pr.blocks :: LoopFor(g, pr, e)
  }

  lemma {:induction false} NoCallTotal(g: Cfg, p: seq<Block>)
    ensures CallTotal(NoCalls(g), p) == 0
    decreases |p|
  {
    if p != [] {
      NoCallTotal(g, Init(p));
    }
  }

  lemma {:induction false} SomeCount(g: Cfg, pr: Probes, a: Block, q: seq<Block>) returns (p: seq<Block>)
    requires ValidCfg(g) && Path(g, q) && q[0] == a
    ensures CountsTo(g, pr, NoCalls(g), a, Last(q), p, 0)
    decreases |q|
  {
    var counts := NoCalls(g);
    if |q| == 1 {
      p := q;
      NoCallTotal(g, p);
    } else {
      var u, b := Last(Init(q)), Last(q);
      var r := SomeCount(g, pr, a, Init(q));
      if AddsUp(g, pr, counts, u, b) {
        ExtendCounts(g, pr, counts, a, r, 0, b);
        p := r + [b];
      } else {
        p := [b];
        NoCallTotal(g, p);
        assert PathBetween(g, Init(q), a, u);
        assert Reaches(g, a, u);
        assert Resumes(g, pr, counts, a, b);
      }
    }
  }

  lemma NoneIsMost(g: Cfg, pr: Probes, a: Block, b: Block)
    requires ValidCfg(g)
    ensures IsMostCalls(g, pr, NoCalls(g), a, b, 0)
  {
    if Reaches(g, a, b) {
      var q :| PathBetween(g, q, a, b);
      var p := SomeCount(g, pr, a, q);
    }
    forall p, m | CountsTo(g, pr, NoCalls(g), a, b, p, m)
      ensures m <= 0
    {
      NoCallTotal(g, p);
    }
  }

  lemma LoopForIsProbed(g: Cfg, pr: Probes, e: Edge)
    requires ValidCfg(g) && ValidProbes(g, pr) && PathsBounded(g, pr, Wide(g))
    requires e in g.back && Reaches(g, g.entry, e.1)
    ensures LoopIsProbed(g, pr, e, LoopsFor(g, pr), LimitsOf(g))
  {
    hide IsMostCalls;
    if e.0 !in pr.blocks {
      NoneIsMost(g, pr, e.1, e.0);
      if d :| HasLongest(g, pr, e, d) {
        var l := LoopFor(g, pr, e);
        var d' := l.loopCost;
        assert HasLongest(g, pr, e, d');
        RateOf(LimitsOf(g), NumIters(Wide(g), d', 0, 0), d', 0);
      } else {
        NoLongestMeetsProbe(g, pr, e);
      }
    }
  }

  lemma NoLongestMeetsProbe(g: Cfg, pr: Probes, e: Edge)
    requires ValidCfg(g) && ValidProbes(g, pr) && Reaches(g, g.entry, e.1) && PathsBounded(g, pr, Wide(g))
    requires forall d :: !HasLongest(g, pr, e, d)
    ensures forall p :: PathBetween(g, p, e.1, e.0) ==> MeetsProbe(pr, p)
  {
    forall p | PathBetween(g, p, e.1, e.0)
      ensures MeetsProbe(pr, p)
    {
      ProbeOrUnbroken(g, pr, p);
      if !MeetsProbe(pr, p) {
        var d := SomeLongest(g, pr, e.1, e.0, p, Wide(g));
        assert HasLongest(g, pr, e, d);
      }
    }
  }

  /** A back edge of a round that goes round none of its loops gets no counter. */
  lemma RoundIsCancelled(g: Cfg, w: seq<Block>, e: Edge)
    requires w != [] && e in g.back && OnPath(w, e.0, e.1) && forall f, p :: !Closes(g, w, f, p)
    ensures !IsCounted(LoopsFor(g, Sparing(g, Ones(g), Wide(g), w, false)), e)
  {
    var pr := Sparing(g, Ones(g), Wide(g), w, false);
    if d :| HasLongest(g, pr, e, d) {
      var p :| Connects(g, pr, p, e.1, e.0) && Total(pr, p) == d;
      UnbrokenIsAlong(g, w, p);
      UnbrokenIsPath(g, pr, p);
      assert Closes(g, w, e, p);
    }
  }

  lemma UnbrokenIsAlong(g: Cfg, w: seq<Block>, p: seq<Block>)
    requires w != [] && Unbroken(g, Sparing(g, Ones(g), Wide(g), w, false), p)
    ensures forall k :: 0 <= k < |p| - 1 ==> OnPath(w, p[k], p[k + 1])
  {
    hide Sparing;
    var pr := Sparing(g, Ones(g), Wide(g), w, false);
    forall k | 0 <= k < |p| - 1
      ensures OnPath(w, p[k], p[k + 1])
    {
      UnbrokenCarries(g, pr, p, k);
      SparingStatus(g, Ones(g), Wide(g), w, false, p[k], p[k + 1]);
    }
  }

  /** The round again and again. */
  function Again(w: seq<Block>, n: nat): seq<Block>
    requires w != []
  {
    if n == 0 then [w[0]] else Again(w, n - 1) + w[1..]
  }

  lemma {:induction false} AgainIsAlong(w: seq<Block>, n: nat)
    requires |w| > 1 && w[0] == Last(w)
    ensures var v := Again(w, n);
            && |v| > n && v[0] == Last(v) == w[0] && (forall k :: 0 <= k < |v| ==> v[k] in w)
            && forall k :: 0 <= k < |v| - 1 ==> OnPath(w, v[k], v[k + 1])
  {
    if n > 0 {
      AgainIsAlong(w, n - 1);
      var u, v := Again(w, n - 1), Again(w, n);
      forall k | 0 <= k < |v| - 1
        ensures OnPath(w, v[k], v[k + 1])
      {
        if k < |u| - 1 {
          assert v[k] == u[k] && v[k + 1] == u[k + 1];
        } else {
          var m := k - (|u| - 1);
          assert v[k] == w[m] && v[k + 1] == w[m + 1];
        }
      }
    }
  }

  lemma RoundIsQuiet(g: Cfg, w: seq<Block>, u: Block, v: Block)
    requires IsRound(g, w) && OnPath(w, u, v)
    ensures Quiet(g, Sparing(g, Ones(g), Wide(g), w, false), u, v)
  {
    var pr := Sparing(g, Ones(g), Wide(g), w, false);
    var k :| 0 <= k < |w| - 1 && w[k] == u && w[k + 1] == v;
    OnesCost(g, w, u);
    SparingStatus(g, Ones(g), Wide(g), w, false, u, v);
    assert (u, v) !in Others(g, w);
  }

  lemma {:induction false} UncountedNeverFires(g: Cfg, loops: map<Edge, LoopProbe>, c: Counters, w: seq<Block>,
      v: seq<Block>)
    requires forall k :: 0 <= k < |v| - 1 ==> OnPath(w, v[k], v[k + 1])
    requires forall e :: e in g.back && OnPath(w, e.0, e.1) ==> !IsCounted(loops, e)
    ensures NoneFires(g, loops, c, v)
    decreases |v|
  {
    if |v| > 1 {
      assert OnPath(w, v[0], v[1]);
      var rest := v[1..];
      assert forall k :: 0 <= k < |rest| ==> rest[k] == v[k + 1];
      UncountedNeverFires(g, loops, c, w, rest);
    }
  }

  lemma RoundIsSilent(g: Cfg, w: seq<Block>, n: nat)
    requires ValidCfg(g) && IsRound(g, w) && forall f, p :: !Closes(g, w, f, p)
    ensures var pr, v := Sparing(g, Ones(g), Wide(g), w, false), Again(w, n);
            && Silent(g, pr, LoopsFor(g, pr), map[], v) && Reaches(g, g.entry, v[0]) && Total(pr, v) > n
  {
    hide Reaches, Sparing, LoopsFor, Quiet, NoneFires, Again, Closes, IsCounted, Ones, Wide, ValidCfg;
    var pr, v := Sparing(g, Ones(g), Wide(g), w, false), Again(w, n);
    AgainIsAlong(w, n);
    RoundInRange(g, w);
    forall k | 0 <= k < |v| - 1
      ensures Quiet(g, pr, v[k], v[k + 1])
    {
      RoundIsQuiet(g, w, v[k], v[k + 1]);
    }
    forall e | e in g.back && OnPath(w, e.0, e.1)
      ensures !IsCounted(LoopsFor(g, pr), e)
    {
      RoundIsCancelled(g, w, e);
    }
    UncountedNeverFires(g, LoopsFor(g, pr), map[], w, v);
    OnesTotal(g, w, v);
  }

  lemma RoundInRange(g: Cfg, w: seq<Block>)
    requires IsRound(g, w)
    ensures forall b :: b in w ==> b < |g.succ|
  {
    forall b | b in w
      ensures b < |g.succ|
    {
      var k :| 0 <= k < |w| && w[k] == b;
      var m := if k == |w| - 1 then 0 else k;
      assert IsEdge(g, w[m], w[m + 1]);
    }
  }

  lemma NotTameIsUnbounded(g: Cfg)
    returns (code: seq<seq<nat>>, pr: Probes, within: seq<seq<nat>>, loops: map<Edge, LoopProbe>, limits: Limits)
    requires ValidCfg(g) && ValidBack(g) && !CyclicFrom(g, g.entry) && !Tame(g)
    ensures Instrumented(g, code, pr, within, loops, limits) && forall bound :: !WalksWithin(g, pr, loops, bound)
  {
    var w :| IsRound(g, w) && forall e, p :: !Closes(g, w, e, p);
    hide Tame, CyclicFrom, Closes, Sparing, LoopsFor, Merged, PathsBounded, Laid, LoopIsProbed;
    code, limits := Ones(g), LimitsOf(g);
    pr, within := Sparing(g, code, Wide(g), w, false), AllWithin(code, Wide(g));
    loops := LoopsFor(g, pr);
    OnesAreTerminated(g);
    SparingIsLaid(g, code, Wide(g), w, false);
    RoundInRange(g, w);
    SparingIsMerged(g, code, Wide(g), w, false);
    OnesAreBounded(g, w);
    LaidIsValid(g, pr, code, within, Wide(g));
    forall e | e in g.back
      ensures LoopIsProbed(g, pr, e, loops, limits)
    {
      LoopForIsProbed(g, pr, e);
    }
    forall bound
      ensures !WalksWithin(g, pr, loops, bound)
    {
      Exceeded(g, w, bound);
    }
  }

  lemma LaidIsValid(g: Cfg, pr: Probes, code: seq<seq<nat>>, within: seq<seq<nat>>, interval: int)
    requires Laid(g, pr, code, within, interval)
    ensures ValidProbes(g, pr)
  {
    CostsAreNatural(g, code, interval, pr);
  }

  lemma Exceeded(g: Cfg, w: seq<Block>, bound: int)
    requires ValidCfg(g) && IsRound(g, w) && forall f, p :: !Closes(g, w, f, p)
    ensures var pr := Sparing(g, Ones(g), Wide(g), w, false); !WalksWithin(g, pr, LoopsFor(g, pr), bound)
  {
    hide Sparing, Silent, Again, Closes;
    var pr := Sparing(g, Ones(g), Wide(g), w, false);
    RoundIsSilent(g, w, if bound < 0 then 0 else bound);
    CountersStart(g, pr);
  }

  lemma CountersStart(g: Cfg, pr: Probes)
    ensures ValidCounters(LoopsFor(g, pr), map[])
  {
    forall e | IsCounted(LoopsFor(g, pr), e)
      ensures CountAt(map[], e) < LoopsFor(g, pr)[e].iterations
    {
      var l := LoopFor(g, pr, e);
      assert l.iterations >= 1;
    }
  }

  /** For every graph: whatever the blocks cost, all placements that meet what the pass establishes have a
      bound on what runs between two probes along every execution, if and only if the graph is tame. */
  lemma BoundedExactlyIfTame(g: Cfg)
    requires ValidCfg(g) && ValidBack(g) && !CyclicFrom(g, g.entry)
    ensures Tame(g) <==>
            forall code, pr, within, loops, limits :: Instrumented(g, code, pr, within, loops, limits) ==>
              exists bound :: WalksWithin(g, pr, loops, bound)
  {
    hide Tame, CyclicFrom, Instrumented, WalksWithin, ValidBack, ValidCfg;
    if Tame(g) {
      forall code, pr, within, loops, limits | Instrumented(g, code, pr, within, loops, limits)
        ensures exists bound :: WalksWithin(g, pr, loops, bound)
      {
        TameIsBounded(g, code, pr, within, loops, limits);
      }
    } else {
      var code, pr, within, loops, limits := NotTameIsUnbounded(g);
    }
  }

  /** Natural loops make a graph tame; their bound is given by SilentWalksAreBounded. */
  lemma NaturalIsTame(g: Cfg)
    requires ValidCfg(g) && ValidBack(g) && !CyclicFrom(g, g.entry) && Natural(g)
    ensures Tame(g)
  {
    hide Tame, CyclicFrom, Natural, ValidBack, LoopsProbed, PathsBounded, Merged, Reaches, NoneFires, Quiet;
    BoundedExactlyIfTame(g);
    forall code, pr, within, loops, limits | Instrumented(g, code, pr, within, loops, limits)
      ensures exists bound :: WalksWithin(g, pr, loops, bound)
    {
      CostsAreNatural(g, code, limits.interval, pr);
      var bound := (1 + 2 * |g.back|) * limits.interval;
      forall c, w | ValidCounters(loops, c) && Silent(g, pr, loops, c, w) && Reaches(g, g.entry, w[0])
        ensures Total(pr, w) <= bound
      {
        SilentWalksAreBounded(g, pr, loops, limits, c, w);
      }
      assert WalksWithin(g, pr, loops, bound);
    }
  }
}
