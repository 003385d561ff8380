/** Placements of probes compared: what adding probes keeps of the bounds on uninstrumented paths. */
module ProbePlacement {
  import opened ControlFlow
  import opened Distances
  import opened DistancesFrom

  /** No edge carries on in `pr'` that did not in `pr`. */
  ghost predicate NoMoreCarries(g: Cfg, pr: Probes, pr': Probes) {
    pr'.cost == pr.cost && forall u, v :: Carries(g, pr', u, v) ==> Carries(g, pr, u, v)
  }

  lemma {:induction false} NoMoreUnbroken(g: Cfg, pr: Probes, pr': Probes, p: seq<Block>)
    requires NoMoreCarries(g, pr, pr') && Unbroken(g, pr', p)
    ensures Unbroken(g, pr, p) && Total(pr, p) == Total(pr', p)
    decreases |p|
  {
    SameTotal(pr, pr', p);
    if |p| > 1 {
      NoMoreUnbroken(g, pr, pr', Init(p));
    }
  }

  lemma {:induction false} SameTotal(pr: Probes, pr': Probes, p: seq<Block>)
    requires pr'.cost == pr.cost
    ensures Total(pr, p) == Total(pr', p)
    decreases |p|
  {
    if p != [] {
      SameTotal(pr, pr', Init(p));
    }
  }

  /** Every unbroken path from a reachable block costs at most `limit`. */
  ghost predicate Bounded(g: Cfg, pr: Probes, sorted: seq<Block>, limit: int) {
    forall p, b :: Arrives(g, pr, sorted, p, b) ==> Total(pr, p) <= limit
  }

  lemma BoundedStays(g: Cfg, pr: Probes, pr': Probes, sorted: seq<Block>, limit: int)
    requires NoMoreCarries(g, pr, pr') && Bounded(g, pr, sorted, limit)
    ensures Bounded(g, pr', sorted, limit)
  {
    forall p, b | Arrives(g, pr', sorted, p, b)
      ensures Total(pr', p) <= limit
    {
      NoMoreUnbroken(g, pr, pr', p);
      assert Arrives(g, pr, sorted, p, b);
    }
  }

  /** Every unbroken path from the entry to a returning block costs at most `limit`, or is the entry
      block alone. */
  ghost predicate BoundedEndToEnd(g: Cfg, pr: Probes, exits: set<Block>, limit: int) {
    forall p, r :: r in exits && Connects(g, pr, p, g.entry, r) ==> Total(pr, p) <= limit || p == [g.entry]
  }

  lemma BoundedEndToEndStays(g: Cfg, pr: Probes, pr': Probes, exits: set<Block>, limit: int)
    requires NoMoreCarries(g, pr, pr') && BoundedEndToEnd(g, pr, exits, limit)
    ensures BoundedEndToEnd(g, pr', exits, limit)
  {
    forall p, r | r in exits && Connects(g, pr', p, g.entry, r)
      ensures Total(pr', p) <= limit || p == [g.entry]
    {
      NoMoreUnbroken(g, pr, pr', p);
      assert Connects(g, pr, p, g.entry, r);
    }
  }

  function Instrument(pr: Probes, u: Block, v: Block): Probes {
    pr.(edges := pr.edges[(u, v) := NormInst])
  }

  lemma InstrumentCarriesLess(g: Cfg, pr: Probes, u: Block, v: Block)
    ensures NoMoreCarries(g, pr, Instrument(pr, u, v)) && !Carries(g, Instrument(pr, u, v), u, v)
  {
  }

  /** The edges out of reachable blocks that carry on: what the greedy loops use up. */
  ghost function CarryEdges(g: Cfg, pr: Probes, sorted: seq<Block>): set<Edge>
    requires forall b :: b in sorted ==> b < |g.succ|
  {
    set u, v | u in sorted && v in g.succ[u] && Carries(g, pr, u, v) :: (u, v)
  }

  /** Edges that were not probed may have been since; everything else is the same. */
  ghost predicate OnlyAdds(pr: Probes, pr': Probes) {
    && pr'.cost == pr.cost && pr'.blocks == pr.blocks
    && forall u, v ::
      Status(pr', u, v) == Status(pr, u, v) || (Status(pr, u, v) == Uninst && Status(pr', u, v) == NormInst)
  }

  lemma InstrumentOnlyAdds(g: Cfg, pr0: Probes, pr: Probes, u: Block, v: Block)
    requires OnlyAdds(pr0, pr) && Carries(g, pr, u, v)
    ensures OnlyAdds(pr0, Instrument(pr, u, v))
  {
    var pr' := Instrument(pr, u, v);
    forall x, y
      ensures Status(pr', x, y) == Status(pr0, x, y) || (Status(pr0, x, y) == Uninst && Status(pr', x, y) == NormInst)
    {
      assert Status(pr, x, y) == Status(pr0, x, y) || (Status(pr0, x, y) == Uninst && Status(pr, x, y) == NormInst);
    }
  }

  /** Adding probes never lets an edge carry on that did not before. */
  lemma OnlyAddsCarriesLess(g: Cfg, pr: Probes, pr': Probes)
    requires OnlyAdds(pr, pr')
    ensures NoMoreCarries(g, pr, pr')
  {
    forall u, v | Carries(g, pr', u, v)
      ensures Carries(g, pr, u, v)
    {
      assert Status(pr', u, v) == Status(pr, u, v) || (Status(pr, u, v) == Uninst && Status(pr', u, v) == NormInst);
    }
  }

  lemma OnlyAddsItself(pr: Probes)
    ensures OnlyAdds(pr, pr)
  {
  }

  lemma InstrumentUsesUp(g: Cfg, pr: Probes, sorted: seq<Block>, u: Block, v: Block)
    requires forall b :: b in sorted ==> b < |g.succ|
    requires u in sorted && Carries(g, pr, u, v)
    ensures CarryEdges(g, Instrument(pr, u, v), sorted) < CarryEdges(g, pr, sorted)
  {
    InstrumentCarriesLess(g, pr, u, v);
    assert (u, v) in CarryEdges(g, pr, sorted) && (u, v) !in CarryEdges(g, Instrument(pr, u, v), sorted);
  }

  lemma SortedBlocks(g: Cfg, sorted: seq<Block>)
    requires TopoList(g, sorted)
    ensures forall b :: b in sorted ==> b < |g.succ|
  {
  }
}
