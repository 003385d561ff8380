/** Longest uninstrumented distances from one given block; zero where every path is broken. */
module DistancesFrom {
  import opened ControlFlow
  import opened Distances

  /** An unbroken path from `a` to `b`. */
  ghost predicate Connects(g: Cfg, pr: Probes, p: seq<Block>, a: Block, b: Block) {
    Unbroken(g, pr, p) && p[0] == a && Last(p) == b
  }

  /** `d` is the largest total over those paths, or zero if there is none of positive total. */
  ghost predicate IsLongestFrom(g: Cfg, pr: Probes, a: Block, b: Block, d: int) {
    && d >= 0
    && (d > 0 ==> exists p :: Connects(g, pr, p, a, b) && Total(pr, p) == d)
    && (forall p :: Connects(g, pr, p, a, b) ==> Total(pr, p) <= d)
  }

  function Lookup(dist: map<Block, int>, b: Block): int {
    if b in dist then dist[b] else 0
  }

  /** A positive distance comes from the predecessor entry, along an edge that carries on. */
  ghost predicate ExplainedFrom(g: Cfg, pr: Probes, a: Block, dist: map<Block, int>, prev: map<Block, Block>,
      b: Block)
  {
    && b in dist && b in prev && dist[b] >= 0
    && (if b == a then prev[b] == b && dist[b] == Cost(pr, b)
        else
          && prev[b] != b && prev[b] in dist && Forward(g, prev[b], b)
          && (dist[b] > 0 ==>
            Carries(g, pr, prev[b], b) && dist[prev[b]] > 0 && dist[b] == dist[prev[b]] + Cost(pr, b)))
  }

  ghost predicate RelaxedFromEdge(g: Cfg, pr: Probes, dist: map<Block, int>, u: Block, v: Block)
    requires u in dist
  {
    v in dist && (Carries(g, pr, u, v) && dist[u] > 0 ==> dist[v] >= dist[u] + Cost(pr, v))
  }

  ghost predicate RelaxedFrom(g: Cfg, pr: Probes, dist: map<Block, int>, u: Block) {
    u in dist ==> forall v: Block :: Forward(g, u, v) ==> RelaxedFromEdge(g, pr, dist, u, v)
  }

  /** As `Partial`, for the distances from `a`. */
  ghost predicate PartialFrom(g: Cfg, pr: Probes, sorted: seq<Block>, a: Block, i: nat, k: nat,
                              dist: map<Block, int>, prev: map<Block, Block>)
    requires i <= k <= |sorted|
  {
    && (forall b :: b in dist ==> b in sorted && ExplainedFrom(g, pr, a, dist, prev, b))
    && (forall b :: b in dist ==> prev[b] == b || prev[b] in sorted[i..])
    && (forall u :: u in sorted[k..] ==> RelaxedFrom(g, pr, dist, u))
    && a in dist
  }

  ghost predicate SolvedFrom(g: Cfg, pr: Probes, sorted: seq<Block>, a: Block, dist: map<Block, int>,
      prev: map<Block, Block>)
  {
    PartialFrom(g, pr, sorted, a, 0, 0, dist, prev)
  }

  lemma {:induction false} SolvedFromIsUpperBound(g: Cfg, pr: Probes, sorted: seq<Block>, a: Block,
                                                  dist: map<Block, int>, prev: map<Block, Block>, p: seq<Block>)
    requires ValidProbes(g, pr) && SolvedFrom(g, pr, sorted, a, dist, prev) && Unbroken(g, pr, p) && p[0] == a
    ensures Last(p) in dist && Total(pr, p) <= dist[Last(p)]
    ensures |p| > 1 ==> Total(pr, p) > 0
    decreases |p|
  {
    assert ExplainedFrom(g, pr, a, dist, prev, a);
    if |p| == 1 {
      TotalOfOne(pr, p[0]);
      assert p == [p[0]];
    } else {
      var u := Last(Init(p));
      SolvedFromIsUpperBound(g, pr, sorted, a, dist, prev, Init(p));
      if |Init(p)| == 1 {
        TotalOfOne(pr, a);
        assert Init(p) == [a];
      }
      assert sorted[0..] == sorted;
      assert u in sorted[0..];
      assert RelaxedFrom(g, pr, dist, u);
      assert RelaxedFromEdge(g, pr, dist, u, Last(p));
    }
  }

  lemma {:induction false} SolvedFromIsAttained(g: Cfg, pr: Probes, sorted: seq<Block>, a: Block,
                                                dist: map<Block, int>, prev: map<Block, Block>, i: nat)
    returns (p: seq<Block>)
    requires ValidCfg(g) && TopoList(g, sorted) && SolvedFrom(g, pr, sorted, a, dist, prev)
    requires i < |sorted| && sorted[i] in dist && dist[sorted[i]] > 0
    ensures Connects(g, pr, p, a, sorted[i]) && Total(pr, p) == dist[sorted[i]]
    decreases |sorted| - i
  {
    var b := sorted[i];
    assert ExplainedFrom(g, pr, a, dist, prev, b);
    if b == a {
      p := [b];
      TotalOfOne(pr, b);
    } else {
      var j := PredecessorIsLater(g, sorted, i, prev[b]);
      var q := SolvedFromIsAttained(g, pr, sorted, a, dist, prev, j);
      ExtendUnbroken(g, pr, q, b);
      p := q + [b];
    }
  }

  lemma SolvedFromIsLongest(g: Cfg, pr: Probes, sorted: seq<Block>, a: Block, dist: map<Block, int>,
      prev: map<Block, Block>, b: Block)
    requires ValidCfg(g) && ValidProbes(g, pr) && TopoList(g, sorted) && SolvedFrom(g, pr, sorted, a, dist, prev)
    ensures IsLongestFrom(g, pr, a, b, Lookup(dist, b))
  {
    if b in dist {
      assert ExplainedFrom(g, pr, a, dist, prev, b);
      if dist[b] > 0 {
        var i :| 0 <= i < |sorted| && sorted[i] == b;
        var q := SolvedFromIsAttained(g, pr, sorted, a, dist, prev, i);
      }
    }
    forall p | Connects(g, pr, p, a, b)
      ensures Total(pr, p) <= Lookup(dist, b)
    {
      SolvedFromIsUpperBound(g, pr, sorted, a, dist, prev, p);
    }
  }

  lemma RaiseKeepsRelaxedFrom(g: Cfg, pr: Probes, dist: map<Block, int>, x: Block, v: Block, d: int)
    requires RelaxedFrom(g, pr, dist, x) && x != v && (v in dist ==> d > dist[v])
    ensures RelaxedFrom(g, pr, dist[v := d], x)
  {
    if x in dist {
      forall y: Block | Forward(g, x, y)
        ensures RelaxedFromEdge(g, pr, dist[v := d], x, y)
      {
        assert RelaxedFromEdge(g, pr, dist, x, y);
      }
    }
  }

  lemma RaiseKeepsPartialFrom(g: Cfg, pr: Probes, sorted: seq<Block>, a: Block, i: nat, dist: map<Block, int>,
      prev: map<Block, Block>, u: Block, v: Block, d: int)
    requires TopoList(g, sorted) && i < |sorted| && sorted[i] == u && Forward(g, u, v) && a !in sorted[..i]
    requires PartialFrom(g, pr, sorted, a, i, i + 1, dist, prev) && u in dist && (v in dist ==> d > dist[v]) && d >= 0
    requires d > 0 ==> Carries(g, pr, u, v) && dist[u] > 0 && d == dist[u] + Cost(pr, v)
    ensures PartialFrom(g, pr, sorted, a, i, i + 1, dist[v := d], prev[v := u])
    ensures Raises(sorted, i, dist, dist[v := d])
  {
    hide TopoList;
    SuccessorIsEarlier(g, sorted, i, v);
    SuccessorInPrefix(g, sorted, i, v);
    var dist', prev' := dist[v := d], prev[v := u];
    assert u in sorted[i..];
    forall b | b in dist'
      ensures b in sorted && ExplainedFrom(g, pr, a, dist', prev', b)
    {
      if b != v {
        assert ExplainedFrom(g, pr, a, dist, prev, b);
      }
    }
    forall x | x in sorted[i + 1..]
      ensures RelaxedFrom(g, pr, dist', x)
    {
      assert x in sorted[i..];
      RaiseKeepsRelaxedFrom(g, pr, dist, x, v, d);
    }
  }

  lemma SuccessorInPrefix(g: Cfg, sorted: seq<Block>, i: nat, v: Block)
    requires TopoList(g, sorted) && i < |sorted| && Forward(g, sorted[i], v)
    ensures v in sorted[..i]
  {
  }

  method RelaxEdgeFrom(g: Cfg, pr: Probes, ghost sorted: seq<Block>, ghost a: Block, ghost i: nat, u: Block, v: Block,
                       dist0: map<Block, int>, prev0: map<Block, Block>)
    returns (dist: map<Block, int>, prev: map<Block, Block>)
    requires ValidProbes(g, pr) && TopoList(g, sorted) && i < |sorted| && sorted[i] == u && Forward(g, u, v)
    requires u in dist0 && a !in sorted[..i] && PartialFrom(g, pr, sorted, a, i, i + 1, dist0, prev0)
    ensures PartialFrom(g, pr, sorted, a, i, i + 1, dist, prev)
    ensures u in dist && RelaxedFromEdge(g, pr, dist, u, v)
    ensures Raises(sorted, i, dist0, dist)
  {
    hide TopoList;
    dist, prev := dist0, prev0;
    var d := 0;
    if Status(pr, u, v) == Uninst && Cost(pr, u) > 0 && dist[u] > 0 && u !in pr.blocks {
      d := dist[u] + Cost(pr, v);
    }
    if v !in dist || d > dist[v] {
      RaiseKeepsPartialFrom(g, pr, sorted, a, i, dist, prev, u, v, d);
      dist := dist[v := d];
      prev := prev[v := u];
      assert u in sorted[i..];
    }
  }

  /** Processes the block at position `i`, which has a distance; `a` comes no earlier in the list. */
  method RelaxBlockFrom(g: Cfg, pr: Probes, sorted: seq<Block>, ghost a: Block, i: nat, dist0: map<Block, int>,
      prev0: map<Block, Block>)
    returns (dist: map<Block, int>, prev: map<Block, Block>)
    requires ValidCfg(g) && ValidProbes(g, pr) && TopoList(g, sorted) && i < |sorted| && sorted[i] < |g.succ|
    requires sorted[i] in dist0 && a !in sorted[..i] && PartialFrom(g, pr, sorted, a, i + 1, i + 1, dist0, prev0)
    ensures PartialFrom(g, pr, sorted, a, i, i, dist, prev)
  {
    hide TopoList, PartialFrom;
    var u := sorted[i];
    WidenPartialFrom(g, pr, sorted, a, i, dist0, prev0);
    dist, prev := dist0, prev0;
    var succ := g.succ[u];
    for j := 0 to |succ|
      invariant PartialFrom(g, pr, sorted, a, i, i + 1, dist, prev) && u in dist
      invariant forall m :: 0 <= m < j && Forward(g, u, succ[m]) ==> RelaxedFromEdge(g, pr, dist, u, succ[m])
    {
      var v := succ[j];
      if (u, v) in g.back {
        continue;
      }
      ghost var before := dist;
      dist, prev := RelaxEdgeFrom(g, pr, sorted, a, i, u, v, dist, prev);
      assert u in sorted[i..];
      forall m | 0 <= m < j + 1 && Forward(g, u, succ[m])
        ensures RelaxedFromEdge(g, pr, dist, u, succ[m])
      {
        assert m < j ==> RelaxedFromEdge(g, pr, before, u, succ[m]);
      }
    }
    NarrowPartialFrom(g, pr, sorted, a, i, dist, prev);
  }

  lemma WidenPartialFrom(g: Cfg, pr: Probes, sorted: seq<Block>, a: Block, i: nat, dist: map<Block, int>,
      prev: map<Block, Block>)
    requires i < |sorted| && PartialFrom(g, pr, sorted, a, i + 1, i + 1, dist, prev)
    ensures PartialFrom(g, pr, sorted, a, i, i + 1, dist, prev)
  {
    assert forall b :: b in sorted[i + 1..] ==> b in sorted[i..];
  }

  lemma NarrowPartialFrom(g: Cfg, pr: Probes, sorted: seq<Block>, a: Block, i: nat, dist: map<Block, int>,
      prev: map<Block, Block>)
    requires i < |sorted| && PartialFrom(g, pr, sorted, a, i, i + 1, dist, prev) && RelaxedFrom(g, pr, dist, sorted[i])
    ensures PartialFrom(g, pr, sorted, a, i, i, dist, prev)
  {
    forall u | u in sorted[i..]
      ensures RelaxedFrom(g, pr, dist, u)
    {
      assert u == sorted[i] || u in sorted[i + 1..];
    }
  }

  lemma StartPartialFrom(g: Cfg, pr: Probes, sorted: seq<Block>, a: Block)
    requires ValidProbes(g, pr) && a in sorted
    ensures PartialFrom(g, pr, sorted, a, |sorted|, |sorted|, map[a := Cost(pr, a)], map[a := a])
  {
  }

  /** Once a block other than `a` has a distance, `a` has been processed. */
  lemma ProcessedFrom(g: Cfg, sorted: seq<Block>, a: Block, i: nat, dist: map<Block, int>)
    requires TopoList(g, sorted) && i < |sorted| && sorted[i] in dist
    requires a in sorted[..i + 1] ==> dist.Keys == {a}
    ensures a !in sorted[..i] && sorted[i] < |g.succ|
  {
  }

  /** longestDistanceFrom: for every block the largest total over the unbroken paths from `a` to it,
      and zero when every path is broken. */
  method LongestDistanceFrom(g: Cfg, pr: Probes, sorted: seq<Block>, a: Block)
    returns (dist: map<Block, int>, prev: map<Block, Block>)
    requires ValidCfg(g) && ValidProbes(g, pr) && TopoList(g, sorted) && a in sorted
    ensures SolvedFrom(g, pr, sorted, a, dist, prev)
    ensures forall b :: IsLongestFrom(g, pr, a, b, Lookup(dist, b))
  {
    hide TopoList, PartialFrom, IsLongestFrom;
    StartPartialFrom(g, pr, sorted, a);
    dist, prev := map[a := Cost(pr, a)], map[a := a];
    var i := |sorted|;
    while i > 0
      invariant 0 <= i <= |sorted|
      invariant PartialFrom(g, pr, sorted, a, i, i, dist, prev)
      invariant a in sorted[..i] ==> dist.Keys == {a}
    {
      i := i - 1;
      assert a in sorted[..i] ==> a in sorted[..i + 1];
      if sorted[i] in dist {
        ProcessedFrom(g, sorted, a, i, dist);
        dist, prev := RelaxBlockFrom(g, pr, sorted, a, i, dist, prev);
      } else {
        WidenPartialFrom(g, pr, sorted, a, i, dist, prev);
        NarrowPartialFrom(g, pr, sorted, a, i, dist, prev);
      }
    }
    forall b
      ensures IsLongestFrom(g, pr, a, b, Lookup(dist, b))
    {
      SolvedFromIsLongest(g, pr, sorted, a, dist, prev, b);
    }
  }
}
