/** Immediate dominators by iterated intersection (src/banjo/ssa/control_flow_graph.cpp, DominatorTree). */
module DominatorTrees {
  import opened Graph
  import opened Dominance

  /** `doms[b]` is the parent found so far for node `b`; -1 where none has been found. */
  predicate Defined(doms: seq<int>, b: nat) {
    b < |doms| && doms[b] != -1
  }

  /** Parents have larger numbers than their children and are themselves defined; the entry is its own parent. */
  ghost predicate Grown(doms: seq<int>) {
    && |doms| > 0 && doms[|doms| - 1] == |doms| - 1
    && forall b: nat | b < |doms| - 1 :: GrownAt(doms, b)
  }

  predicate GrownAt(doms: seq<int>, b: nat)
    requires b < |doms|
  {
    doms[b] == -1 || (b < doms[b] < |doms| && doms[doms[b]] != -1)
  }

  /** `x` is `b` or lies above it in the tree. */
  predicate IsAncestor(doms: seq<int>, x: nat, b: nat)
    requires b < |doms|
    decreases |doms| - b
  {
    x == b || (b < doms[b] < |doms| && IsAncestor(doms, x, doms[b]))
  }

  lemma {:induction false} AncestorsAreAbove(doms: seq<int>, x: nat, b: nat)
    requires b < |doms| && IsAncestor(doms, x, b)
    ensures b <= x < |doms|
    decreases |doms| - b
  {
    if x != b { AncestorsAreAbove(doms, x, doms[b]); }
  }

  lemma {:induction false} AncestorTransitive(doms: seq<int>, x: nat, y: nat, b: nat)
    requires b < |doms| && y < |doms| && IsAncestor(doms, y, b) && IsAncestor(doms, x, y)
    ensures IsAncestor(doms, x, b)
    decreases |doms| - b
  {
    if y != b { AncestorTransitive(doms, x, y, doms[b]); }
  }

  /** `x` is an ancestor of all nodes of the list that are in the tree already. */
  ghost predicate CommonAncestor(doms: seq<int>, preds: seq<nat>, n: nat, x: nat)
    requires n <= |preds|
  {
    forall j | 0 <= j < n && Defined(doms, preds[j]) :: IsAncestor(doms, x, preds[j])
  }

  // ---- What the iteration keeps ----

  /** Nothing that dominates `b` is missed by going up to its parent. */
  ghost predicate SoundAt(g: Cfg, doms: seq<int>, b: nat)
    requires |g.nodes| > 0
  {
    b < Entry(g) && Defined(doms, b) && doms[b] >= 0 ==>
      forall d :: Dominates(g, d, b) && d != b ==> Dominates(g, d, doms[b])
  }

  ghost predicate Sound(g: Cfg, doms: seq<int>)
    requires |g.nodes| > 0
  {
    && |doms| == |g.nodes| && Grown(doms)
    && forall b: nat {:trigger SoundAt(g, doms, b)} :: SoundAt(g, doms, b)
  }

  /** The parent of `b` dominates it as far as paths with fewer than `k` retreating edges can tell. */
  ghost predicate ExactAt(g: Cfg, doms: seq<int>, b: nat, k: nat)
    requires |g.nodes| > 0
  {
    b < Entry(g) && Defined(doms, b) && doms[b] >= 0 ==> DominatesUpTo(g, doms[b], b, k)
  }

  /** Exactness for the nodes from `from` on. */
  ghost predicate Exact(g: Cfg, doms: seq<int>, from: nat, k: nat)
    requires |g.nodes| > 0
  {
    forall b: nat {:trigger ExactAt(g, doms, b, k)} :: from <= b ==> ExactAt(g, doms, b, k)
  }

  lemma {:induction false} DominatorIsAncestor(g: Cfg, doms: seq<int>, d: nat, b: nat)
    requires |g.nodes| > 0 && Sound(g, doms) && Defined(doms, b) && Dominates(g, d, b)
    ensures IsAncestor(doms, d, b)
    decreases |doms| - b
  {
    if b == Entry(g) {
      assert PathTo(g, [b], b);
    } else if d != b {
      assert GrownAt(doms, b) && SoundAt(g, doms, b);
      DominatorIsAncestor(g, doms, d, doms[b]);
    }
  }

  /** Going up from `b`, a dominator of `b` keeps dominating until it is passed. */
  lemma {:induction false} DominatesAncestor(g: Cfg, doms: seq<int>, d: nat, b: nat, y: nat)
    requires |g.nodes| > 0 && Sound(g, doms) && Defined(doms, b) && Dominates(g, d, b)
    requires y < |doms| && IsAncestor(doms, y, b) && IsAncestor(doms, d, y)
    ensures Dominates(g, d, y)
    decreases |doms| - b
  {
    if y != b {
      assert GrownAt(doms, b) && SoundAt(g, doms, b);
      AncestorsAreAbove(doms, y, doms[b]);
      AncestorsAreAbove(doms, d, y);
      DominatesAncestor(g, doms, d, doms[b], y);
    }
  }

  lemma {:induction false} AncestorDominatesUpTo(g: Cfg, doms: seq<int>, x: nat, b: nat, k: nat)
    requires |g.nodes| > 0 && Sound(g, doms) && Defined(doms, b) && IsAncestor(doms, x, b) && Exact(g, doms, b, k)
    ensures DominatesUpTo(g, x, b, k)
    decreases |doms| - b
  {
    if x != b {
      var y := doms[b];
      assert GrownAt(doms, b) && ExactAt(g, doms, b, k);
      AncestorDominatesUpTo(g, doms, x, y, k);
      forall p | PathTo(g, p, b) && Retreats(p) < k
        ensures x in p
      {
        assert y in p;
        var j :| 0 <= j < |p| && p[j] == y;
        PrefixPath(g, p, b, j);
        RetreatsOfPrefix(p, j + 1);
        assert x in p[..j + 1];
      }
    }
  }

  // ---- One update ----

  /** `r` is what the update of `node` computes: the deepest common ancestor of its predecessors. */
  ghost predicate Meets(g: Cfg, doms: seq<int>, node: nat, r: nat)
    requires node < |g.nodes|
  {
    && Defined(doms, r)
    && forall x: nat :: IsAncestor(doms, x, r) <==> CommonAncestor(doms, g.nodes[node].predecessors, |g.nodes[node].predecessors|, x)
  }

  lemma MeetIsAncestor(g: Cfg, doms: seq<int>, node: nat, r: nat, a: nat)
    requires node < |g.nodes| && Meets(g, doms, node, r)
    requires a in g.nodes[node].predecessors && Defined(doms, a)
    ensures IsAncestor(doms, r, a)
  {
    assert IsAncestor(doms, r, r);
    var j :| 0 <= j < |g.nodes[node].predecessors| && g.nodes[node].predecessors[j] == a;
  }

  lemma MeetIsSound(g: Cfg, doms: seq<int>, node: nat, r: nat, a: nat)
    requires ValidCfg(g) && Sound(g, doms) && node < Entry(g) && Meets(g, doms, node, r)
    requires a in g.nodes[node].predecessors && Defined(doms, a)
    ensures forall d :: Dominates(g, d, node) && d != node ==> Dominates(g, d, r)
  {
    MeetIsAncestor(g, doms, node, r, a);
    var preds := g.nodes[node].predecessors;
    forall d | Dominates(g, d, node) && d != node
      ensures Dominates(g, d, r)
    {
      forall j | 0 <= j < |preds| && Defined(doms, preds[j])
        ensures IsAncestor(doms, d, preds[j])
      {
        EdgeIsPredecessor(g, preds[j], node);
        DominatesPredecessor(g, d, preds[j], node);
        DominatorIsAncestor(g, doms, d, preds[j]);
      }
      assert CommonAncestor(doms, preds, |preds|, d);
      EdgeIsPredecessor(g, a, node);
      DominatesPredecessor(g, d, a, node);
      DominatesAncestor(g, doms, d, a, r);
    }
  }

  /** Predecessors are in the tree, except for those behind a retreating edge in the first sweep. */
  ghost predicate PredecessorsKnown(g: Cfg, doms: seq<int>, node: nat, k: nat)
    requires node < |g.nodes|
  {
    forall a :: a in g.nodes[node].predecessors ==> Defined(doms, a) || (k == 0 && a <= node)
  }

  lemma MeetIsExact(g: Cfg, doms: seq<int>, node: nat, r: nat, k: nat)
    requires ValidCfg(g) && Sound(g, doms) && node < Entry(g) && Meets(g, doms, node, r)
    requires PredecessorsKnown(g, doms, node, k) && Exact(g, doms, 0, k) && Exact(g, doms, node + 1, k + 1)
    ensures DominatesUpTo(g, r, node, k + 1)
  {
    forall p | PathTo(g, p, node) && Retreats(p) < k + 1
      ensures r in p
    {
      var n := |p| - 1;
      var a := p[n - 1];
      assert (p[n - 1], p[n - 1 + 1]) in CfgEdges(g);
      EdgeIsPredecessor(g, a, node);
      PrefixPath(g, p, node, n - 1);
      assert p[..n] == p[..n - 1 + 1];
      MeetIsAncestor(g, doms, node, r, a);
      AncestorDominatesUpTo(g, doms, r, a, if a <= node then k else k + 1);
      assert r in p[..n];
    }
  }

  /** The parents after the update of `node`. */
  function Updated(doms: seq<int>, node: nat, r: nat): seq<int>
    requires node < |doms|
  {
    doms[node := r]
  }

  lemma UpdateKeepsSound(g: Cfg, doms: seq<int>, node: nat, r: nat, a: nat)
    requires ValidCfg(g) && Sound(g, doms) && node < Entry(g) && Meets(g, doms, node, r)
    requires a in g.nodes[node].predecessors && Defined(doms, a) && node < a
    ensures node < r && Sound(g, Updated(doms, node, r))
  {
    MeetIsAncestor(g, doms, node, r, a);
    AncestorsAreAbove(doms, r, a);
    MeetIsSound(g, doms, node, r, a);
    var doms' := Updated(doms, node, r);
    forall b: nat | b < |doms'| - 1
      ensures GrownAt(doms', b)
    {
      assert GrownAt(doms, b);
    }
    forall b: nat
      ensures SoundAt(g, doms', b)
    {
      assert SoundAt(g, doms, b);
    }
  }

  lemma UpdateKeepsExact(g: Cfg, doms: seq<int>, node: nat, r: nat, k: nat)
    requires ValidCfg(g) && Sound(g, doms) && node < Entry(g) && Meets(g, doms, node, r)
    requires PredecessorsKnown(g, doms, node, k) && Exact(g, doms, 0, k) && Exact(g, doms, node + 1, k + 1)
    ensures Exact(g, Updated(doms, node, r), 0, k) && Exact(g, Updated(doms, node, r), node, k + 1)
  {
    MeetIsExact(g, doms, node, r, k);
    var doms', more := Updated(doms, node, r), k + 1;
    forall b: nat
      ensures ExactAt(g, doms', b, k)
      ensures node <= b ==> ExactAt(g, doms', b, more)
    {
      assert ExactAt(g, doms, b, k) && (node < b ==> ExactAt(g, doms, b, more));
    }
  }

  // ---- When it is over ----

  /** Every parent is a common ancestor of the predecessors. */
  ghost predicate AgreesAt(g: Cfg, doms: seq<int>, b: nat)
    requires b < |g.nodes|
  {
    Defined(doms, b) && doms[b] >= 0 && |doms| == |g.nodes|
    && forall a :: a in g.nodes[b].predecessors ==> Defined(doms, a) && IsAncestor(doms, doms[b], a)
  }

  lemma {:induction false} FixpointDominates(g: Cfg, doms: seq<int>, p: seq<nat>, b: nat, x: nat)
    requires ValidCfg(g) && Sound(g, doms) && b < |g.nodes| && PathTo(g, p, b) && IsAncestor(doms, x, b)
    requires forall c: nat | c < Entry(g) :: AgreesAt(g, doms, c)
    ensures x in p
    decreases |p|
  {
    if x != b {
      assert GrownAt(doms, b) && AgreesAt(g, doms, b);
      var n := |p| - 1;
      var a := p[n - 1];
      assert (p[n - 1], p[n - 1 + 1]) in CfgEdges(g);
      EdgeIsPredecessor(g, a, b);
      PrefixPath(g, p, b, n - 1);
      assert p[..n] == p[..n - 1 + 1];
      AncestorTransitive(doms, x, doms[b], a);
      FixpointDominates(g, doms, p[..n], a, x);
      assert forall y :: y in p[..n] ==> y in p;
    }
  }

  /** A sound fixpoint is the tree of immediate dominators. */
  lemma FixpointIsIdom(g: Cfg, doms: seq<int>, b: nat)
    requires ValidCfg(g) && Sound(g, doms) && b < Entry(g)
    requires forall c: nat | c < Entry(g) :: AgreesAt(g, doms, c)
    ensures doms[b] >= 0 && IsIdom(g, doms[b], b)
  {
    assert AgreesAt(g, doms, b) && GrownAt(doms, b) && SoundAt(g, doms, b);
    assert IsAncestor(doms, doms[b], doms[b]);
    forall p | PathTo(g, p, b)
      ensures doms[b] in p
    {
      FixpointDominates(g, doms, p, b, doms[b]);
    }
  }

  /** After as many sweeps as there are nodes, an update finds what is there already. */
  lemma NothingLeftToFind(g: Cfg, doms: seq<int>, node: nat, r: nat, k: nat)
    requires ValidCfg(g) && PostOrdered(g) && Sound(g, doms) && node < Entry(g) && Defined(doms, node) && node < r
    requires Sound(g, Updated(doms, node, r))
    requires |g.nodes| <= k && Exact(g, doms, 0, k) && Exact(g, Updated(doms, node, r), 0, k)
    ensures doms[node] == r
  {
    var doms' := Updated(doms, node, r);
    assert GrownAt(doms, node) && SoundAt(g, doms, node) && SoundAt(g, doms', node);
    assert ExactAt(g, doms, node, k) && ExactAt(g, doms', node, k);
    DominatesUpToAll(g, doms[node], node, k);
    DominatesUpToAll(g, r, node, k);
    IdomIsUnique(g, doms[node], r, node);
  }

  // ---- The algorithm ----

  /** The nearest common ancestor: two fingers climb, the lower one first. */
  method Intersect(doms: seq<int>, first: nat, second: nat) returns (b1: nat)
    requires Grown(doms) && Defined(doms, first) && Defined(doms, second)
    ensures Defined(doms, b1)
    ensures forall x: nat :: IsAncestor(doms, x, b1) <==> IsAncestor(doms, x, first) && IsAncestor(doms, x, second)
  {
    b1 := first;
    var b2: nat := second;
    while b1 != b2
      invariant Defined(doms, b1) && Defined(doms, b2)
      invariant forall x: nat :: IsAncestor(doms, x, b1) && IsAncestor(doms, x, b2) <==>
                                 IsAncestor(doms, x, first) && IsAncestor(doms, x, second)
      decreases 2 * |doms| - b1 - b2
    {
      if b1 < b2 {
        ClimbKeepsCommon(doms, b1, b2);
        b1 := doms[b1];
      } else {
        ClimbKeepsCommon(doms, b2, b1);
        b2 := doms[b2];
      }
    }
  }

  /** The lower of two different nodes is no ancestor of the other. */
  lemma ClimbKeepsCommon(doms: seq<int>, low: nat, high: nat)
    requires Grown(doms) && Defined(doms, low) && Defined(doms, high) && low < high
    ensures low < doms[low] < |doms| && Defined(doms, doms[low])
    ensures forall x: nat :: IsAncestor(doms, x, low) && IsAncestor(doms, x, high) <==>
                             IsAncestor(doms, x, doms[low]) && IsAncestor(doms, x, high)
  {
    assert GrownAt(doms, low);
    forall x: nat
      ensures IsAncestor(doms, x, low) && IsAncestor(doms, x, high) <==> IsAncestor(doms, x, doms[low]) && IsAncestor(doms, x, high)
    {
      if IsAncestor(doms, x, high) { AncestorsAreAbove(doms, x, high); }
    }
  }

  /** The meet of the predecessors found so far; -1 if there is none. */
  method NewIdom(doms: seq<int>, preds: seq<nat>) returns (newIdom: int)
    requires Grown(doms)
    ensures newIdom >= -1 && (newIdom == -1 <==> forall j :: 0 <= j < |preds| ==> !Defined(doms, preds[j]))
    ensures newIdom >= 0 ==> Defined(doms, newIdom)
    ensures newIdom >= 0 ==> forall x: nat :: IsAncestor(doms, x, newIdom) <==> CommonAncestor(doms, preds, |preds|, x)
  {
    newIdom := -1;
    for k := 0 to |preds|
      invariant newIdom >= -1 && (newIdom == -1 <==> forall j :: 0 <= j < k ==> !Defined(doms, preds[j]))
      invariant newIdom >= 0 ==> Defined(doms, newIdom)
      invariant newIdom >= 0 ==> forall x: nat :: IsAncestor(doms, x, newIdom) <==> CommonAncestor(doms, preds, k, x)
    {
      if preds[k] < |doms| && doms[preds[k]] != -1 {
        newIdom := MeetOne(doms, preds, k, newIdom);
      } else {
        assert forall x: nat :: CommonAncestor(doms, preds, k + 1, x) <==> CommonAncestor(doms, preds, k, x);
      }
    }
  }

  method MeetOne(doms: seq<int>, preds: seq<nat>, k: nat, idom: int) returns (newIdom: nat)
    requires Grown(doms) && k < |preds| && Defined(doms, preds[k])
    requires idom >= -1 && (idom == -1 ==> forall j :: 0 <= j < k ==> !Defined(doms, preds[j]))
    requires idom >= 0 ==> Defined(doms, idom)
    requires idom >= 0 ==> forall x: nat :: IsAncestor(doms, x, idom) <==> CommonAncestor(doms, preds, k, x)
    ensures Defined(doms, newIdom)
    ensures forall x: nat :: IsAncestor(doms, x, newIdom) <==> CommonAncestor(doms, preds, k + 1, x)
  {
    forall x: nat
      ensures CommonAncestor(doms, preds, k + 1, x) <==> CommonAncestor(doms, preds, k, x) && IsAncestor(doms, x, preds[k])
    {
    }
    if idom == -1 {
      newIdom := preds[k];
    } else {
      newIdom := Intersect(doms, idom, preds[k]);
    }
  }

  /** What holds when the nodes from `node` on have been visited in sweep `k`. */
  ghost predicate SweepInv(g: Cfg, doms: seq<int>, node: nat, k: nat)
    requires |g.nodes| > 0
  {
    && Sound(g, doms) && Exact(g, doms, 0, k) && Exact(g, doms, node, k + 1)
    && forall b: nat | b < |g.nodes| && (k > 0 || node <= b) :: Defined(doms, b)
  }

  /** Visits one node; its predecessors that come later in the numbering are in the tree. */
  method VisitNode(g: Cfg, doms: seq<int>, node: nat, ghost k: nat) returns (newIdom: nat)
    requires ValidCfg(g) && PostOrdered(g) && node < Entry(g) && SweepInv(g, doms, node + 1, k)
    ensures SweepInv(g, Updated(doms, node, newIdom), node, k) && node < newIdom
    ensures Meets(g, doms, node, newIdom)
  {
    assert HasLaterPredecessor(g, node);
    ghost var a :| a in g.nodes[node].predecessors && node < a < |g.nodes|;
    assert Defined(doms, a);
    ghost var j :| 0 <= j < |g.nodes[node].predecessors| && g.nodes[node].predecessors[j] == a;
    var found := NewIdom(doms, g.nodes[node].predecessors);
    newIdom := found;
    UpdateKeepsSound(g, doms, node, newIdom, a);
    forall b | b in g.nodes[node].predecessors
      ensures Defined(doms, b) || (k == 0 && b <= node)
    {
      EdgeIsPredecessor(g, b, node);
    }
    UpdateKeepsExact(g, doms, node, newIdom, k);
    forall b: nat | b < |g.nodes| && (k > 0 || node <= b)
      ensures Defined(Updated(doms, node, newIdom), b)
    {
      assert b == node || Defined(doms, b);
    }
  }

  /** One round over all nodes, last one first. */
  method Sweep(g: Cfg, start: seq<int>, ghost k: nat) returns (doms: seq<int>, changed: bool)
    requires ValidCfg(g) && PostOrdered(g) && SweepInv(g, start, Entry(g), k)
    ensures SweepInv(g, doms, 0, k)
    ensures !changed ==> doms == start && forall b: nat | b < Entry(g) :: AgreesAt(g, doms, b)
    ensures |g.nodes| <= k ==> !changed
  {
    doms, changed := start, false;
    var node: nat := Entry(g);
    while node > 0
      invariant node <= Entry(g) && SweepInv(g, doms, node, k)
      invariant !changed ==> doms == start && forall b: nat | node <= b < Entry(g) :: MeetsOwn(g, doms, b)
      invariant |g.nodes| <= k ==> !changed
    {
      node := node - 1;
      var newIdom := VisitNode(g, doms, node, k);
      if |g.nodes| <= k { NothingLeftToFind(g, doms, node, newIdom, k); }
      if doms[node] != newIdom {
        doms := doms[node := newIdom];
        changed := true;
      } else {
        assert doms == Updated(doms, node, newIdom);
      }
    }
    if !changed {
      forall b: nat | b < Entry(g)
        ensures AgreesAt(g, doms, b)
      {
        assert MeetsOwn(g, doms, b);
        MeetsOwnAgrees(g, doms, b, k);
      }
    }
  }

  ghost predicate MeetsOwn(g: Cfg, doms: seq<int>, b: nat)
    requires b < |g.nodes|
  {
    b < |doms| && doms[b] >= 0 && Meets(g, doms, b, doms[b])
  }

  lemma MeetsOwnAgrees(g: Cfg, doms: seq<int>, b: nat, k: nat)
    requires ValidCfg(g) && b < Entry(g) && SweepInv(g, doms, 0, k) && MeetsOwn(g, doms, b)
    ensures AgreesAt(g, doms, b)
  {
    assert Sound(g, doms);
    forall a | a in g.nodes[b].predecessors
      ensures Defined(doms, a) && IsAncestor(doms, doms[b], a)
    {
      EdgeIsPredecessor(g, a, b);
      MeetIsAncestor(g, doms, b, doms[b], a);
    }
  }

  /** Parents that are the immediate dominators, with the entry its own parent. */
  ghost predicate IsDominatorTree(g: Cfg, parents: seq<int>)
    requires |g.nodes| > 0
  {
    && |parents| == |g.nodes| && Grown(parents)
    && forall b: nat | b < Entry(g) :: parents[b] >= 0 && IsIdom(g, parents[b], b)
  }

  /** Finds the immediate dominator of every node; as many sweeps as there are nodes always suffice. */
  method ComputeIdoms(g: Cfg) returns (doms: seq<int>)
    requires ValidCfg(g) && PostOrdered(g)
    ensures IsDominatorTree(g, doms)
  {
    doms := seq(|g.nodes|, _ => -1)[Entry(g) := Entry(g)];
    StartIsSound(g, doms);
    ghost var k := 0;
    var changed := true;
    while changed
      invariant SweepInv(g, doms, Entry(g), k)
      invariant !changed ==> forall b: nat | b < Entry(g) :: AgreesAt(g, doms, b)
      invariant changed ==> k <= |g.nodes|
      decreases changed, |g.nodes| - k
    {
      doms, changed := Sweep(g, doms, k);
      k := k + 1;
    }
    forall b: nat | b < Entry(g)
      ensures doms[b] >= 0 && IsIdom(g, doms[b], b)
    {
      FixpointIsIdom(g, doms, b);
    }
  }

  lemma StartIsSound(g: Cfg, doms: seq<int>)
    requires ValidCfg(g) && doms == seq(|g.nodes|, _ => -1)[Entry(g) := Entry(g)]
    ensures SweepInv(g, doms, Entry(g), 0)
  {
    forall b: nat
      ensures SoundAt(g, doms, b) && ExactAt(g, doms, b, 0) && ExactAt(g, doms, b, 1)
    {
    }
  }

  // ---- What the tree is good for ----

  /** The ancestors of a node are exactly its dominators. */
  lemma {:induction false} AncestorsAreDominators(g: Cfg, parents: seq<int>, x: nat, b: nat)
    requires ValidCfg(g) && IsDominatorTree(g, parents) && b < |parents|
    ensures IsAncestor(parents, x, b) <==> Dominates(g, x, b)
    decreases |parents| - b
  {
    if b == Entry(g) {
      assert PathTo(g, [b], b);
      DominatesItself(g, b);
    } else if x == b {
      DominatesItself(g, b);
    } else {
      assert GrownAt(parents, b);
      AncestorsAreDominators(g, parents, x, parents[b]);
      if Dominates(g, x, parents[b]) { DominatesTransitively(g, x, parents[b], b); }
    }
  }

  // ---- Dominance frontiers ----

  /** `r` dominates a predecessor of `i` without dominating `i` strictly. */
  ghost predicate OnFrontier(g: Cfg, r: nat, i: nat)
    requires i < |g.nodes|
  {
    && !(Dominates(g, r, i) && r != i)
    && exists p :: p in g.nodes[i].predecessors && Dominates(g, r, p)
  }

  /** What the walks from the predecessors of `i` find: nodes on the way up to the parent of `i`, exclusive. */
  ghost predicate Walked(g: Cfg, parents: seq<int>, r: nat, i: nat, n: nat)
    requires i < |g.nodes| && n <= |g.nodes[i].predecessors|
  {
    && i < |parents| && 0 <= parents[i] < |parents| && !IsAncestor(parents, r, parents[i])
    && exists k :: 0 <= k < n && g.nodes[i].predecessors[k] < |parents| && IsAncestor(parents, r, g.nodes[i].predecessors[k])
  }

  /** The walk never misses the node it is to stop at: the parent of a node is above its predecessors. */
  lemma ParentIsAboveEdges(g: Cfg, parents: seq<int>, a: nat, b: nat)
    requires ValidCfg(g) && IsDominatorTree(g, parents) && (a, b) in CfgEdges(g)
    ensures a < |parents| && b < |parents| && 0 <= parents[b] < |parents| && IsAncestor(parents, parents[b], a)
  {
    EdgeIsPredecessor(g, a, b);
    if b == Entry(g) {
      EntryDominates(g, a);
    } else {
      assert GrownAt(parents, b);
      DominatesPredecessor(g, parents[b], a, b);
    }
    AncestorsAreDominators(g, parents, parents[b], a);
  }

  /** A node with one predecessor is on no frontier. */
  lemma SinglePredecessor(g: Cfg, r: nat, i: nat)
    requires ValidCfg(g) && PostOrdered(g) && i < Entry(g) && |g.nodes[i].predecessors| < 2
    ensures !OnFrontier(g, r, i)
  {
    assert HasLaterPredecessor(g, i);
    var a :| a in g.nodes[i].predecessors && i < a < |g.nodes|;
    assert Dominates(g, a, i) by { OnlyWayIn(g, a, i); }
    AllReachable(g, i);
    DominanceAntisymmetric(g, i, a);
    forall p | p in g.nodes[i].predecessors && Dominates(g, r, p)
      ensures Dominates(g, r, i) && r != i
    {
      DominatesTransitively(g, r, a, i);
    }
  }

  lemma OnlyWayIn(g: Cfg, a: nat, i: nat)
    requires ValidCfg(g) && i < Entry(g) && forall p :: p in g.nodes[i].predecessors ==> p == a
    ensures Dominates(g, a, i)
  {
    forall p | PathTo(g, p, i)
      ensures a in p
    {
      var n := |p| - 1;
      assert (p[n - 1], p[n - 1 + 1]) in CfgEdges(g);
      EdgeIsPredecessor(g, p[n - 1], i);
    }
  }

  class DominatorTree {
    const cfg: Cfg
    var parents: seq<int>
    var children: seq<seq<nat>>
    var frontiers: seq<seq<nat>>

    ghost predicate Valid()
      reads this
    {
      && ValidCfg(cfg) && PostOrdered(cfg) && IsDominatorTree(cfg, parents)
      && ChildrenAre(|parents|)
    }

    /** The children of a node are the nodes it is the parent of. */
    ghost predicate ChildrenAre(n: nat)
      reads this
    {
      && |children| == |cfg.nodes|
      && forall a: nat, b: nat {:trigger b in children[a]} :: a < |children| ==>
           (b in children[a] <==> b < n && b < |parents| && b != |parents| - 1 && parents[b] == a)
    }

    constructor (cfg: Cfg)
      requires ValidCfg(cfg) && PostOrdered(cfg)
      ensures this.cfg == cfg && Valid() && |frontiers| == |cfg.nodes|
      ensures forall r: nat, i: nat {:trigger i in frontiers[r]} :: r < |frontiers| ==>
                (i in frontiers[r] <==> i < |cfg.nodes| && InFrontierOf(r, i))
    {
      this.cfg := cfg;
      parents, children, frontiers := [], seq(|cfg.nodes|, _ => []), seq(|cfg.nodes|, _ => []);
      new;
      parents := ComputeIdoms(cfg);
      LinkChildren();
      ComputeDominanceFrontiers();
    }

    method LinkChildren()
      requires ValidCfg(cfg) && PostOrdered(cfg) && IsDominatorTree(cfg, parents) && children == seq(|cfg.nodes|, _ => [])
      modifies this`children
      ensures Valid()
    {
      for i := 0 to |parents|
        invariant ChildrenAre(i)
      {
        if i != Entry(cfg) {
          assert GrownAt(parents, i);
          var p := parents[i];
          children := children[p := children[p] + [i]];
        }
      }
    }

    /** Walks down the tree from `a` in search of `b`. */
    method DominatesNode(a: nat, b: nat) returns (found: bool)
      requires Valid() && a < |cfg.nodes| && b < |cfg.nodes|
      ensures found <==> Dominates(cfg, a, b)
      decreases a
    {
      if a == b {
        DominatesItself(cfg, a);
        return true;
      }
      for k := 0 to |children[a]|
        invariant forall j :: 0 <= j < k ==> !Dominates(cfg, children[a][j], b)
      {
        var child := children[a][k];
        assert child in children[a] && GrownAt(parents, child);
        found := DominatesNode(child, b);
        if found {
          assert IsIdom(cfg, a, child);
          DominatesTransitively(cfg, a, child, b);
          return true;
        }
      }
      if Dominates(cfg, a, b) { DominatorHasChildAbove(a, b, b); }
      return false;
    }

    /** A strict dominator reaches the node through one of its children. */
    lemma {:induction false} DominatorHasChildAbove(a: nat, b: nat, c: nat)
      requires Valid() && a < |cfg.nodes| && b < |cfg.nodes| && c < |cfg.nodes| && a != c
      requires Dominates(cfg, a, c) && Dominates(cfg, c, b)
      ensures exists j :: 0 <= j < |children[a]| && Dominates(cfg, children[a][j], b)
      decreases |cfg.nodes| - c
    {
      AncestorsAreDominators(cfg, parents, a, c);
      assert GrownAt(parents, c);
      if parents[c] == a {
        assert c in children[a];
        var j :| 0 <= j < |children[a]| && children[a][j] == c;
      } else {
        AncestorsAreDominators(cfg, parents, a, parents[c]);
        assert IsIdom(cfg, parents[c], c);
        DominatesTransitively(cfg, parents[c], c, b);
        DominatorHasChildAbove(a, b, parents[c]);
      }
    }

    /** What ends up in the frontier of `r`. */
    ghost predicate InFrontierOf(r: nat, i: nat)
      requires i < |cfg.nodes|
      reads this
    {
      |cfg.nodes[i].predecessors| >= 2 && Walked(cfg, parents, r, i, |cfg.nodes[i].predecessors|)
    }

    /** Frontiers after the nodes before `node`, and the walks from the first `n` predecessors of `node`. */
    ghost predicate FrontiersAre(node: nat, n: nat)
      reads this
    {
      && |frontiers| == |cfg.nodes|
      && forall r: nat, i: nat {:trigger i in frontiers[r]} :: r < |frontiers| ==>
           (i in frontiers[r] <==> i < |cfg.nodes| && ((i < node && InFrontierOf(r, i)) || (i == node && WalkedFrom(r, i, n))))
    }

    ghost predicate WalkedFrom(r: nat, i: nat, n: nat)
      requires i < |cfg.nodes|
      reads this
    {
      n <= |cfg.nodes[i].predecessors| && Walked(cfg, parents, r, i, n)
    }

    method ComputeDominanceFrontiers()
      requires Valid() && frontiers == seq(|cfg.nodes|, _ => [])
      modifies this`frontiers
      ensures FrontiersAre(|cfg.nodes|, 0)
    {
      for i := 0 to |cfg.nodes|
        invariant FrontiersAre(i, 0)
      {
        var preds := cfg.nodes[i].predecessors;
        if |preds| >= 2 {
          for k := 0 to |preds|
            invariant FrontiersAre(i, k)
          {
            WalkUp(i, k);
          }
        }
      }
    }

    /** From predecessor `k` of `i` up to the parent of `i`. */
    method WalkUp(i: nat, k: nat)
      requires Valid() && i < |cfg.nodes| && k < |cfg.nodes[i].predecessors| && FrontiersAre(i, k)
      modifies this`frontiers
      ensures FrontiersAre(i, k + 1)
    {
      var pred := cfg.nodes[i].predecessors[k];
      EdgeIsPredecessor(cfg, pred, i);
      ParentIsAboveEdges(cfg, parents, pred, i);
      var idom: nat := parents[i];
      var runner: nat := pred;
      while runner != idom
        invariant runner < |parents| && IsAncestor(parents, runner, pred) && IsAncestor(parents, idom, runner)
        invariant |frontiers| == |cfg.nodes|
        invariant forall r: nat, j: nat {:trigger j in frontiers[r]} :: r < |frontiers| ==>
          (j in frontiers[r] <==> j in old(frontiers)[r] || (j == i && IsAncestor(parents, r, pred) && !IsAncestor(parents, r, runner)))
        decreases |parents| - runner
      {
        StepUp(pred, runner, idom);
        frontiers := frontiers[runner := frontiers[runner] + [i]];
        runner := parents[runner];
      }
    }

    /** Going one step up adds one node to those passed. */
    lemma StepUp(pred: nat, runner: nat, idom: nat)
      requires Valid() && pred < |parents| && runner < |parents| && runner != idom
      requires IsAncestor(parents, runner, pred) && IsAncestor(parents, idom, runner)
      ensures runner < parents[runner] < |parents|
      ensures IsAncestor(parents, parents[runner], pred) && IsAncestor(parents, idom, parents[runner])
      ensures forall r: nat | r < |parents| :: IsAncestor(parents, r, pred) ==>
                (!IsAncestor(parents, r, parents[runner]) <==> !IsAncestor(parents, r, runner) || r == runner)
    {
      AncestorTransitive(parents, parents[runner], runner, pred);
      forall r: nat | r < |parents| && IsAncestor(parents, r, parents[runner])
        ensures r != runner
      {
        AncestorsAreAbove(parents, r, parents[runner]);
      }
    }
  }

  /**
    The frontiers are the dominance frontiers of all nodes but the entry. The entry is in no frontier of its own, and in no
    frontier at all if a single edge leads back to it: nodes with fewer than two predecessors are skipped.
   */
  lemma FrontierIff(t: DominatorTree, r: nat, i: nat)
    requires t.Valid() && r < |t.cfg.nodes| && i < |t.cfg.nodes|
    ensures t.InFrontierOf(r, i) <==>
            OnFrontier(t.cfg, r, i) && (i == Entry(t.cfg) ==> r != i && |t.cfg.nodes[i].predecessors| >= 2)
  {
    var g, parents := t.cfg, t.parents;
    forall p | p in g.nodes[i].predecessors
      ensures p < |parents| && (IsAncestor(parents, r, p) <==> Dominates(g, r, p))
    {
      EdgeIsPredecessor(g, p, i);
      AncestorsAreDominators(g, parents, r, p);
    }
    assert i != Entry(g) ==> GrownAt(parents, i);
    AncestorsAreDominators(g, parents, r, parents[i]);
    AncestorsAreDominators(g, parents, r, i);
    if i != Entry(g) {
      if IsAncestor(parents, r, parents[i]) { AncestorsAreAbove(parents, r, parents[i]); }
      if |g.nodes[i].predecessors| < 2 && OnFrontier(g, r, i) { SinglePredecessor(g, r, i); }
    } else {
      assert PathTo(g, [i], i);
    }
  }

  /** So all frontiers are right if and only if no edge leads back to the entry. */
  lemma FrontiersExactIff(t: DominatorTree)
    requires t.Valid()
    ensures (forall r: nat, i: nat | r < |t.cfg.nodes| && i < |t.cfg.nodes| :: t.InFrontierOf(r, i) <==> OnFrontier(t.cfg, r, i))
       <==> t.cfg.nodes[Entry(t.cfg)].predecessors == []
  {
    var g, e := t.cfg, Entry(t.cfg);
    var preds := g.nodes[e].predecessors;
    forall r: nat, i: nat | r < |g.nodes| && i < |g.nodes|
      ensures t.InFrontierOf(r, i) <==> OnFrontier(g, r, i) && (i == e ==> r != i && |preds| >= 2)
    {
      FrontierIff(t, r, i);
    }
    if preds != [] {
      EntryDominates(g, preds[0]);
      assert OnFrontier(g, e, e) && !t.InFrontierOf(e, e);
    }
  }
}
