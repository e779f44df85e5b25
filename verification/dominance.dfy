/** Control-flow graphs and dominance by paths (src/banjo/ssa/control_flow_graph.hpp). */
module Dominance {
  import opened Graph

  datatype Node = Node(predecessors: seq<nat>, successors: seq<nat>)

  /** Nodes numbered in post-order: the entry comes last. */
  datatype Cfg = Cfg(nodes: seq<Node>)

  function Entry(g: Cfg): nat
    requires |g.nodes| > 0
  {
    |g.nodes| - 1
  }

  function CfgEdges(g: Cfg): Edges {
    set a, k | 0 <= a < |g.nodes| && 0 <= k < |g.nodes[a].successors| :: (a, g.nodes[a].successors[k])
  }

  ghost predicate ValidCfg(g: Cfg) {
    && |g.nodes| > 0
    && forall a, b {:trigger Linked(g, a, b)} :: Linked(g, a, b)
  }

  /** Successor and predecessor lists name nodes of the graph and say the same. */
  ghost predicate Linked(g: Cfg, a: nat, b: nat) {
    && ((a, b) in CfgEdges(g) ==> a < |g.nodes| && b < |g.nodes|)
    && (b < |g.nodes| ==> (a in g.nodes[b].predecessors <==> (a, b) in CfgEdges(g)))
  }

  /** Every node but the entry has a predecessor that the depth-first search finished later. */
  ghost predicate PostOrdered(g: Cfg)
    requires |g.nodes| > 0
  {
    forall b: nat | b < Entry(g) :: HasLaterPredecessor(g, b)
  }

  ghost predicate HasLaterPredecessor(g: Cfg, b: nat)
    requires b < |g.nodes|
  {
    exists a :: a in g.nodes[b].predecessors && b < a < |g.nodes|
  }

  lemma EdgeIsPredecessor(g: Cfg, a: nat, b: nat)
    requires ValidCfg(g)
    ensures (a, b) in CfgEdges(g) ==> a < |g.nodes| && b < |g.nodes| && a in g.nodes[b].predecessors
    ensures b < |g.nodes| && a in g.nodes[b].predecessors ==> (a, b) in CfgEdges(g)
  {
    assert Linked(g, a, b);
  }

  ghost predicate PathTo(g: Cfg, p: seq<nat>, b: nat)
    requires |g.nodes| > 0
  {
    IsPathFromTo(CfgEdges(g), p, Entry(g), b)
  }

  /** Every path from the entry to `b` passes `d`. */
  ghost predicate Dominates(g: Cfg, d: nat, b: nat)
    requires |g.nodes| > 0
  {
    forall p :: PathTo(g, p, b) ==> d in p
  }

  ghost predicate ReachableNode(g: Cfg, b: nat)
    requires |g.nodes| > 0
  {
    Reaches(CfgEdges(g), Entry(g), b)
  }

  lemma {:induction false} AllReachable(g: Cfg, b: nat)
    requires ValidCfg(g) && PostOrdered(g) && b < |g.nodes|
    ensures ReachableNode(g, b)
    decreases |g.nodes| - b
  {
    if b == Entry(g) {
      ReachesSelf(CfgEdges(g), b);
    } else {
      assert HasLaterPredecessor(g, b);
      var a :| a in g.nodes[b].predecessors && b < a < |g.nodes|;
      AllReachable(g, a);
      EdgeIsPredecessor(g, a, b);
      ReachesStep(CfgEdges(g), Entry(g), a, b);
    }
  }

  lemma PathExists(g: Cfg, b: nat) returns (p: seq<nat>)
    requires |g.nodes| > 0 && ReachableNode(g, b)
    ensures PathTo(g, p, b)
  {
    p :| IsPathFromTo(CfgEdges(g), p, Entry(g), b);
  }

  lemma PathStaysInGraph(g: Cfg, p: seq<nat>, b: nat)
    requires ValidCfg(g) && PathTo(g, p, b)
    ensures forall k | 0 <= k < |p| :: p[k] < |g.nodes|
  {
    forall k | 0 <= k < |p|
      ensures p[k] < |g.nodes|
    {
      if k > 0 {
        assert (p[k - 1], p[k - 1 + 1]) in CfgEdges(g);
        EdgeIsPredecessor(g, p[k - 1], p[k]);
      }
    }
  }

  lemma PrefixPath(g: Cfg, p: seq<nat>, b: nat, k: nat)
    requires |g.nodes| > 0 && PathTo(g, p, b) && k < |p|
    ensures PathTo(g, p[..k + 1], p[k])
  {
  }

  lemma ExtendPath(g: Cfg, p: seq<nat>, a: nat, b: nat)
    requires |g.nodes| > 0 && PathTo(g, p, a) && (a, b) in CfgEdges(g)
    ensures PathTo(g, p + [b], b)
  {
    var q := p + [b];
    forall k | 0 <= k < |q| - 1
      ensures (q[k], q[k + 1]) in CfgEdges(g)
    {
    }
  }

  // ---- Dominance as a relation ----

  lemma DominatesItself(g: Cfg, b: nat)
    requires |g.nodes| > 0
    ensures Dominates(g, b, b)
  {
  }

  lemma EntryDominates(g: Cfg, b: nat)
    requires |g.nodes| > 0
    ensures Dominates(g, Entry(g), b)
  {
  }

  /** A strict dominator of a node dominates its predecessors. */
  lemma DominatesPredecessor(g: Cfg, d: nat, a: nat, b: nat)
    requires |g.nodes| > 0 && (a, b) in CfgEdges(g) && Dominates(g, d, b) && d != b
    ensures Dominates(g, d, a)
  {
    forall p | PathTo(g, p, a)
      ensures d in p
    {
      ExtendPath(g, p, a, b);
      assert d in p + [b];
    }
  }

  lemma DominatesTransitively(g: Cfg, d: nat, e: nat, b: nat)
    requires |g.nodes| > 0 && Dominates(g, d, e) && Dominates(g, e, b)
    ensures Dominates(g, d, b)
  {
    forall p | PathTo(g, p, b)
      ensures d in p
    {
      var k :| 0 <= k < |p| && p[k] == e;
      PrefixPath(g, p, b, k);
      assert d in p[..k + 1];
    }
  }

  function FirstIndex(p: seq<nat>, b: nat): (k: nat)
    requires b in p
    ensures k < |p| && p[k] == b && b !in p[..k]
  {
    if p[0] == b then 0 else
      var k := FirstIndex(p[1..], b) + 1;
      assert p[..k] == [p[0]] + p[1..][..k - 1];
      k
  }

  /** A path that arrives at `a` for the first time passes a strict dominator of `a` before it meets `a`. */
  lemma DominanceAntisymmetric(g: Cfg, a: nat, b: nat)
    requires |g.nodes| > 0 && ReachableNode(g, a) && Dominates(g, b, a) && a != b
    ensures !Dominates(g, a, b)
  {
    var p := PathExists(g, a);
    var k := FirstIndex(p, a);
    PrefixPath(g, p, a, k);
    var q := p[..k + 1];
    assert PathTo(g, q, a);
    var j :| 0 <= j < |q| && q[j] == b;
    PrefixPath(g, q, a, j);
    var r := q[..j + 1];
    assert PathTo(g, r, b) && r <= p[..k];
  }

  /** The dominator closest to `b`. */
  ghost predicate IsIdom(g: Cfg, d: nat, b: nat)
    requires |g.nodes| > 0
  {
    && d != b && Dominates(g, d, b)
    && forall e :: Dominates(g, e, b) && e != b ==> Dominates(g, e, d)
  }

  lemma IdomIsUnique(g: Cfg, d: nat, e: nat, b: nat)
    requires ValidCfg(g) && PostOrdered(g) && b < |g.nodes| && IsIdom(g, d, b) && IsIdom(g, e, b)
    ensures d == e
  {
    AllReachable(g, b);
    var p := PathExists(g, b);
    PathStaysInGraph(g, p, b);
    AllReachable(g, d);
    if d != e { DominanceAntisymmetric(g, d, e); }
  }

  // ---- Dominance along paths with few retreating edges ----

  /** How many edges of the path do not go down in the numbering. */
  function Retreats(p: seq<nat>): nat {
    if |p| <= 1 then 0
    else Retreats(p[..|p| - 1]) + if p[|p| - 2] <= p[|p| - 1] then 1 else 0
  }

  lemma {:induction false} RetreatsOfPrefix(p: seq<nat>, k: nat)
    requires 0 < k <= |p|
    ensures Retreats(p[..k]) <= Retreats(p)
  {
    if k == |p| {
      assert p[..k] == p;
    } else {
      var q := p[..|p| - 1];
      RetreatsOfPrefix(q, k);
      assert q[..k] == p[..k];
    }
  }

  lemma {:induction false} RetreatsBound(p: seq<nat>)
    ensures |p| > 0 ==> Retreats(p) < |p|
  {
    if |p| > 1 { RetreatsBound(p[..|p| - 1]); }
  }

  /** Every path with fewer than `k` retreating edges passes `d`. */
  ghost predicate DominatesUpTo(g: Cfg, d: nat, b: nat, k: nat)
    requires |g.nodes| > 0
  {
    forall p :: PathTo(g, p, b) && Retreats(p) < k ==> d in p
  }

  ghost predicate Simple(p: seq<nat>) {
    forall j, k :: 0 <= j < k < |p| ==> p[j] != p[k]
  }

  function ElementsOf(p: seq<nat>): set<nat> {
    set k | 0 <= k < |p| :: p[k]
  }

  lemma {:induction false} SimpleIsShort(p: seq<nat>, n: nat, all: set<nat>)
    requires Simple(p) && forall k | 0 <= k < |p| :: p[k] in all
    requires |all| == n
    ensures |p| <= n
  {
    if p != [] {
      var last := p[|p| - 1];
      SimpleIsShort(p[..|p| - 1], n - 1, all - {last});
    }
  }

  function NumbersBelow(n: nat): (s: set<nat>)
    ensures |s| == n && forall k: nat :: k in s <==> k < n
  {
    if n == 0 then {} else
      var s := NumbersBelow(n - 1);
      assert n - 1 !in s;
      s + {n - 1}
  }

  /** Leaving out the cycles of a path gives a simple path over some of its nodes. */
  lemma {:induction false} SimplePath(g: Cfg, p: seq<nat>, b: nat) returns (q: seq<nat>)
    requires |g.nodes| > 0 && PathTo(g, p, b)
    ensures PathTo(g, q, b) && Simple(q) && forall x :: x in q ==> x in p
    decreases |p|
  {
    if |p| == 1 {
      q := p;
    } else {
      var n := |p| - 1;
      var a := p[n - 1];
      PrefixPath(g, p, b, n - 1);
      assert p[..n] == p[..n - 1 + 1];
      q := SimplePath(g, p[..n], a);
      assert forall x :: x in p[..n] ==> x in p;
      assert (p[n - 1], p[n - 1 + 1]) in CfgEdges(g);
      if b in q {
        var k := FirstIndex(q, b);
        PrefixPath(g, q, a, k);
        q := q[..k + 1];
      } else {
        ExtendPath(g, q, a, b);
        q := q + [b];
      }
    }
  }

  /** Paths without cycles suffice, so as many retreating edges as there are nodes are enough. */
  lemma DominatesUpToAll(g: Cfg, d: nat, b: nat, k: nat)
    requires ValidCfg(g) && |g.nodes| <= k && DominatesUpTo(g, d, b, k)
    ensures Dominates(g, d, b)
  {
    forall p | PathTo(g, p, b)
      ensures d in p
    {
      var q := SimplePath(g, p, b);
      PathStaysInGraph(g, q, b);
      SimpleIsShort(q, |g.nodes|, NumbersBelow(|g.nodes|));
      RetreatsBound(q);
    }
  }
}
