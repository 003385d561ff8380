/** Control-flow graphs as the probe-placement pass sees them: blocks with successor lists, a given
    set of back edges, block costs, and the probes placed so far. */
module ControlFlow {

  type Block = nat
  type Edge = (Block, Block)

  /** `succ[b]` are the successors of block `b`, in terminator order; duplicates are possible. */
  datatype Cfg = Cfg(succ: seq<seq<Block>>, back: set<Edge>, entry: Block)

  ghost predicate ValidCfg(g: Cfg) {
    && g.entry < |g.succ|
    && forall b, i :: 0 <= b < |g.succ| && 0 <= i < |g.succ[b]| ==> g.succ[b][i] < |g.succ|
  }

  /** An edge that is not a back edge. */
  predicate Forward(g: Cfg, u: Block, v: Block) {
    u < |g.succ| && v in g.succ[u] && (u, v) !in g.back
  }

  predicate IsEdge(g: Cfg, u: Block, v: Block) {
    u < |g.succ| && v in g.succ[u]
  }

  function Last(p: seq<Block>): Block
    requires p != []
  {
    p[|p| - 1]
  }

  function Init(p: seq<Block>): seq<Block>
    requires p != []
  {
    p[..|p| - 1]
  }

  /** A path of forward edges. */
  ghost predicate Path(g: Cfg, p: seq<Block>) {
    && p != [] && Last(p) < |g.succ|
    && (|p| > 1 ==> Path(g, Init(p)) && Forward(g, Last(Init(p)), Last(p)))
  }

  ghost predicate PathBetween(g: Cfg, p: seq<Block>, a: Block, b: Block) {
    Path(g, p) && p[0] == a && Last(p) == b
  }

  ghost predicate Reaches(g: Cfg, a: Block, b: Block) {
    exists p :: PathBetween(g, p, a, b)
  }

  /** A cycle of forward edges that can be reached from `a`. */
  ghost predicate IsCycleFrom(g: Cfg, a: Block, p: seq<Block>) {
    |p| > 1 && PathBetween(g, p, p[0], p[0]) && Reaches(g, a, p[0])
  }

  ghost predicate CyclicFrom(g: Cfg, a: Block) {
    exists p :: IsCycleFrom(g, a, p)
  }

  lemma ReachesItself(g: Cfg, a: Block)
    requires a < |g.succ|
    ensures Reaches(g, a, a)
  {
    assert PathBetween(g, [a], a, a);
  }

  lemma ReachesStep(g: Cfg, a: Block, b: Block, c: Block)
    requires ValidCfg(g) && Reaches(g, a, b) && Forward(g, b, c)
    ensures Reaches(g, a, c)
  {
    var p :| PathBetween(g, p, a, b);
    assert Init(p + [c]) == p;
    assert PathBetween(g, p + [c], a, c);
  }

  /** Successors come before their predecessors, each block once. */
  ghost predicate TopoList(g: Cfg, s: seq<Block>) {
    && (forall i :: 0 <= i < |s| ==> s[i] < |g.succ|)
    && (forall i, j :: 0 <= i < j < |s| ==> s[i] != s[j])
    && (forall i, v :: 0 <= i < |s| && Forward(g, s[i], v) ==> v in s[..i])
  }

  /** Along a path the position in such a list goes down. */
  lemma {:induction false} PathGoesDown(g: Cfg, s: seq<Block>, p: seq<Block>, i: nat) returns (j: nat)
    requires TopoList(g, s) && Path(g, p) && i < |s| && s[i] == p[0]
    ensures j <= i && s[j] == Last(p) && (|p| > 1 ==> j < i)
    decreases |p|
  {
    if |p| == 1 {
      j := i;
    } else {
      var m := PathGoesDown(g, s, Init(p), i);
      assert Forward(g, s[m], Last(p));
      j :| 0 <= j < m && s[j] == Last(p);
    }
  }

  lemma TopoListIsClosed(g: Cfg, s: seq<Block>, a: Block, b: Block)
    requires TopoList(g, s) && a in s && Reaches(g, a, b)
    ensures b in s
  {
    var p :| PathBetween(g, p, a, b);
    var i :| 0 <= i < |s| && s[i] == a;
    var j := PathGoesDown(g, s, p, i);
  }

  lemma TopoListHasNoCycle(g: Cfg, s: seq<Block>, a: Block)
    requires TopoList(g, s) && a in s
    ensures !CyclicFrom(g, a)
  {
    if CyclicFrom(g, a) {
      var p :| IsCycleFrom(g, a, p);
      TopoListIsClosed(g, s, a, p[0]);
      var i :| 0 <= i < |s| && s[i] == p[0];
      var j := PathGoesDown(g, s, p, i);
      assert false;
    }
  }

  /** What a successful sort gives: exactly the blocks reachable from the entry. */
  ghost predicate Sorted(g: Cfg, s: seq<Block>) {
    TopoList(g, s) && forall b: Block :: b in s <==> b < |g.succ| && Reaches(g, g.entry, b)
  }

  /** Every sorted block but the entry has a forward predecessor later in the list. */
  lemma HasPredecessor(g: Cfg, s: seq<Block>, i: nat) returns (j: nat)
    requires ValidCfg(g) && Sorted(g, s) && i < |s| && s[i] != g.entry
    ensures i < j < |s| && Forward(g, s[j], s[i])
  {
    assert s[i] in s;
    var p :| PathBetween(g, p, g.entry, s[i]);
    var u := Last(Init(p));
    assert PathBetween(g, Init(p), g.entry, u);
    assert Reaches(g, g.entry, u);
    assert u in s;
    j :| 0 <= j < |s| && s[j] == u;
    assert s[i] in s[..j];
  }
}
