/** TopoSorter: a recursive depth-first search with three colours over the forward edges. */
module TopoSort {
  import opened ControlFlow

  datatype Color = White | Grey | Black

  /** The blocks on the recursion stack form a path from the root to the block in front. */
  ghost predicate IsStack(g: Cfg, root: Block, stack: seq<Block>, u: Block) {
    PathBetween(g, stack + [u], root, u)
  }

  /** Every block on the path to `u` can be reached from the root and reaches `u`. */
  lemma {:induction false} StackReaches(g: Cfg, p: seq<Block>, k: nat)
    requires Path(g, p) && k < |p|
    ensures PathBetween(g, p[..k + 1], p[0], p[k]) && PathBetween(g, p[k..], p[k], Last(p))
    decreases |p|
  {
    if k == |p| - 1 {
      assert p[..k + 1] == p;
      assert Path(g, [Last(p)]);
      assert p[k..] == [Last(p)];
    } else {
      StackReaches(g, Init(p), k);
      assert Init(p)[..k + 1] == p[..k + 1];
      assert Init(p[k..]) == Init(p)[k..];
    }
  }

  /** An edge back to a block on the stack closes a cycle. */
  lemma StackCycle(g: Cfg, root: Block, p: seq<Block>, k: nat)
    requires ValidCfg(g) && Path(g, p) && p[0] == root && k < |p| && Forward(g, Last(p), p[k])
    ensures CyclicFrom(g, root)
  {
    StackReaches(g, p, k);
    var c := p[k..] + [p[k]];
    assert Init(c) == p[k..];
    assert IsCycleFrom(g, root, c);
  }

  class TopoSorter {
    const g: Cfg
    var color: seq<Color>
    var sorted: seq<Block>

    ghost predicate Valid()
      reads this
    {
      && ValidCfg(g) && |color| == |g.succ| && TopoList(g, sorted)
      && forall b :: 0 <= b < |color| ==> (color[b] == Black <==> b in sorted)
    }

    ghost function Whites(): set<Block>
      reads this
    {
      set b: Block | b < |color| && color[b] == White
    }

    /** Exactly the blocks of `stack` are grey. */
    ghost predicate GreyIs(stack: seq<Block>)
      reads this
    {
      forall b: Block :: b < |color| ==> (color[b] == Grey <==> b in stack)
    }

    constructor (g: Cfg)
      requires ValidCfg(g)
      ensures this.g == g && Valid() && sorted == [] && GreyIs([])
      ensures forall b :: 0 <= b < |color| ==> color[b] == White
    {
      this.g := g;
      color := seq(|g.succ|, i => White);
      sorted := [];
    }

    /** Sorts what can be reached from `u`.  A false result means a cycle was found. */
    method RecursiveDfs(u: Block, ghost root: Block, ghost stack: seq<Block>) returns (ok: bool)
      requires Valid() && u < |color| && color[u] == White
      requires IsStack(g, root, stack, u) && GreyIs(stack)
      modifies this
      ensures ok ==> Valid() && GreyIs(stack) && u in sorted && Whites() <= old(Whites())
      ensures ok ==> old(sorted) <= sorted && forall b :: b in sorted ==> b in old(sorted) || Reaches(g, u, b)
      ensures !ok ==> CyclicFrom(g, root)
      decreases Whites()
    {
      color := color[u := Grey];
      ghost var path := stack + [u];
      assert u in old(Whites());
      assert u !in stack;
      var succ := g.succ[u];
      for i := 0 to |succ|
        invariant Valid() && GreyIs(path) && Whites() <= old(Whites()) - {u}
        invariant old(sorted) <= sorted && forall b :: b in sorted ==> b in old(sorted) || Reaches(g, u, b)
        invariant forall j :: 0 <= j < i && Forward(g, u, succ[j]) ==> succ[j] in sorted
      {
        var v := succ[i];
        if (u, v) in g.back {
          continue;
        }
        assert Forward(g, u, v);
        if color[v] == White {
          assert Init(path + [v]) == path;
          ghost var before := sorted;
          var sub := RecursiveDfs(v, root, path);
          if !sub {
            return false;
          }
          forall b | b in sorted
            ensures b in old(sorted) || Reaches(g, u, b)
          {
            if b !in before {
              ReachesThrough(g, u, v, b);
            }
          }
        } else if color[v] == Grey {
          ghost var k :| 0 <= k < |path| && path[k] == v;
          StackCycle(g, root, path, k);
          return false;
        }
      }
      ReachesItself(g, u);
      FinishBlock(u, stack);
      ok := true;
    }

    /** The block is fully explored. */
    method FinishBlock(u: Block, ghost stack: seq<Block>)
      requires Valid() && u < |color| && color[u] == Grey && GreyIs(stack + [u]) && u !in stack
      requires forall v :: Forward(g, u, v) ==> v in sorted
      modifies this
      ensures Valid() && GreyIs(stack) && sorted == old(sorted) + [u] && Whites() == old(Whites())
    {
      color := color[u := Black];
      sorted := sorted + [u];
      forall i, v | 0 <= i < |sorted| && Forward(g, sorted[i], v)
        ensures v in sorted[..i]
      {
        assert i < |sorted| - 1 ==> old(sorted)[..i] == sorted[..i];
        assert i == |sorted| - 1 ==> sorted[..i] == old(sorted);
      }
    }
  }

  lemma ReachesThrough(g: Cfg, a: Block, b: Block, c: Block)
    requires ValidCfg(g) && a < |g.succ| && Forward(g, a, b) && Reaches(g, b, c)
    ensures Reaches(g, a, c)
  {
    var p :| PathBetween(g, p, b, c);
    PrependEdge(g, a, p);
    assert PathBetween(g, [a] + p, a, c);
  }

  lemma {:induction false} PrependEdge(g: Cfg, a: Block, p: seq<Block>)
    requires a < |g.succ| && Path(g, p) && Forward(g, a, p[0])
    ensures Path(g, [a] + p)
    decreases |p|
  {
    assert Init([a] + p) == [a] + Init(p);
    if |p| == 1 {
      assert Init([a] + p) == [a];
    } else {
      PrependEdge(g, a, Init(p));
    }
  }

  /** The sort succeeds exactly when no cycle of forward edges can be reached from the entry, and
      then lists every reachable block once, after all its successors. */
  method RunToposort(g: Cfg) returns (ok: bool, sorted: seq<Block>)
    requires ValidCfg(g)
    ensures ok <==> !CyclicFrom(g, g.entry)
    ensures ok ==> Sorted(g, sorted)
  {
    var sorter := new TopoSorter(g);
    assert Init([g.entry]) == [];
    assert [] + [g.entry] == [g.entry];
    ok := sorter.RecursiveDfs(g.entry, g.entry, []);
    sorted := sorter.sorted;
    if ok {
      TopoListHasNoCycle(g, sorted, g.entry);
      forall b: Block | b < |g.succ| && Reaches(g, g.entry, b)
        ensures b in sorted
      {
        TopoListIsClosed(g, sorted, g.entry, b);
      }
    }
  }
}
