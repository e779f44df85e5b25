/** Natural loops (src/banjo/passes/loop_analysis.cpp). */
module LoopAnalysis {
  import opened Graph
  import opened Dominance
  import opened DominatorTrees

  datatype Loop = Loop(header: nat, body: set<nat>, tail: nat, entries: set<nat>, exits: set<(nat, nat)>)

  /** `n` reaches `t` without passing `h`. */
  ghost predicate ReachesAvoiding(g: Cfg, n: nat, t: nat, h: nat) {
    exists p :: AvoidingPath(g, p, n, t, h)
  }

  ghost predicate AvoidingPath(g: Cfg, p: seq<nat>, n: nat, t: nat, h: nat) {
    IsPathFromTo(CfgEdges(g), p, n, t) && h !in p
  }

  /** The natural loop of the edge from `tail` to `header`: body, ways in and ways out. */
  ghost predicate IsNaturalLoop(g: Cfg, l: Loop) {
    && (forall n: nat :: n in l.body <==> n == l.header || ReachesAvoiding(g, n, l.tail, l.header))
    && (forall a: nat :: a in l.entries <==> a !in l.body && (a, l.header) in CfgEdges(g))
    && forall a: nat, b: nat :: (a, b) in l.exits <==> (a, b) in CfgEdges(g) && a in l.body && b !in l.body
  }

  /** No edge leads into the set, except to its members in `s`. */
  ghost predicate ClosedBackwards(g: Cfg, body: set<nat>, s: set<nat>) {
    forall a, b :: (a, b) in CfgEdges(g) && b in body && b !in s ==> a in body
  }

  // ---- The theorem ----

  lemma {:induction false} BackwardsStaysInside(g: Cfg, body: set<nat>, h: nat, p: seq<nat>, k: nat)
    requires ClosedBackwards(g, body, {h}) && IsPath(CfgEdges(g), p) && h !in p && p[|p| - 1] in body
    requires k < |p|
    ensures p[k] in body
    decreases |p| - k
  {
    if k < |p| - 1 {
      BackwardsStaysInside(g, body, h, p, k + 1);
      assert (p[k], p[k + 1]) in CfgEdges(g) && p[k + 1] in p;
    }
  }

  /** The predecessor of a body node other than the header is in the body. */
  lemma BodyIsClosed(g: Cfg, l: Loop)
    requires IsNaturalLoop(g, l)
    ensures ClosedBackwards(g, l.body, {l.header})
  {
    forall a, b | (a, b) in CfgEdges(g) && b in l.body && b != l.header
      ensures a in l.body
    {
      if a != l.header {
        var p :| AvoidingPath(g, p, b, l.tail, l.header);
        JoinPaths(CfgEdges(g), [a, b], p);
        assert AvoidingPath(g, [a, b] + p[1..], a, l.tail, l.header);
      }
    }
  }

  /** The header dominates every node of the body. */
  lemma HeaderDominatesBody(g: Cfg, l: Loop, n: nat)
    requires |g.nodes| > 0 && IsNaturalLoop(g, l) && Dominates(g, l.header, l.tail) && n in l.body
    ensures Dominates(g, l.header, n)
  {
    if n == l.header {
      DominatesItself(g, n);
    } else {
      var p :| AvoidingPath(g, p, n, l.tail, l.header);
      forall q | PathTo(g, q, n)
        ensures l.header in q
      {
        JoinPaths(CfgEdges(g), q, p);
        assert PathTo(g, q + p[1..], l.tail);
        assert l.header in q + p[1..];
      }
    }
  }

  /** Every edge that enters the body from outside goes from one of the entries to the header. */
  lemma EntersThroughHeader(g: Cfg, l: Loop, a: nat, b: nat)
    requires IsNaturalLoop(g, l)
    ensures (a, b) in CfgEdges(g) && a !in l.body && b in l.body <==> b == l.header && a in l.entries
  {
    BodyIsClosed(g, l);
  }

  // ---- The analysis ----

  /** The back edges the analysis reports, in the order in which it finds them. */
  ghost predicate IsReported(g: Cfg, tail: nat, header: nat)
    requires |g.nodes| > 0
  {
    (tail, header) in CfgEdges(g) && (tail == header || (header != Entry(g) && Dominates(g, header, tail)))
  }

  ghost predicate AreNaturalLoops(g: Cfg, loops: seq<Loop>) {
    forall k | 0 <= k < |loops| :: IsNaturalLoop(g, loops[k])
  }

  ghost predicate HasLoop(loops: seq<Loop>, tail: nat, header: nat) {
    exists k :: 0 <= k < |loops| && loops[k].tail == tail && loops[k].header == header
  }

  /** Back edges are found in the order of the nodes they leave. */
  ghost predicate InOrderOfTails(loops: seq<Loop>) {
    forall j, k | 0 <= j < k < |loops| :: loops[j].tail <= loops[k].tail
  }

  ghost predicate TailsBelow(loops: seq<Loop>, n: nat) {
    forall k | 0 <= k < |loops| :: loops[k].tail < n
  }

  lemma OnlyEntryIsOwnParent(g: Cfg, parents: seq<int>, b: nat)
    requires ValidCfg(g) && IsDominatorTree(g, parents) && b < |parents|
    ensures b <= parents[b] < |parents| && (parents[b] == b <==> b == Entry(g))
  {
    assert b < Entry(g) ==> GrownAt(parents, b);
  }

  class LoopAnalyzer {
    const cfg: Cfg
    const domtree: DominatorTree
    var loops: seq<Loop>

    constructor (cfg: Cfg, domtree: DominatorTree)
      ensures this.cfg == cfg && this.domtree == domtree && loops == []
    {
      this.cfg, this.domtree, loops := cfg, domtree, [];
    }

    ghost predicate Valid()
      reads this, domtree
    {
      domtree.Valid() && domtree.cfg == cfg
    }

    /** One loop per reported back edge, and no others. */
    method Analyze()
      requires Valid() && loops == []
      modifies this`loops
      ensures AreNaturalLoops(cfg, loops)
      ensures forall tail: nat, header: nat :: HasLoop(loops, tail, header) <==> IsReported(cfg, tail, header)
      ensures InOrderOfTails(loops)
    {
      for i := 0 to |cfg.nodes|
        invariant AreNaturalLoops(cfg, loops) && InOrderOfTails(loops) && TailsBelow(loops, i)
        invariant forall tail: nat, header: nat :: HasLoop(loops, tail, header) <==> IsReported(cfg, tail, header) && tail < i
      {
        AnalyzeNode(i);
      }
      forall tail: nat, header: nat | IsReported(cfg, tail, header)
        ensures tail < |cfg.nodes|
      {
      }
    }

    ghost predicate ReportedFrom(i: nat, n: nat, tail: nat, header: nat)
      requires i < |cfg.nodes|
    {
      tail == i && IsReported(cfg, i, header)
      && exists j :: 0 <= j < n && j < |cfg.nodes[i].successors| && cfg.nodes[i].successors[j] == header
    }

    lemma ReportedOneMore(i: nat, k: nat, tail: nat, header: nat)
      requires i < |cfg.nodes| && k < |cfg.nodes[i].successors|
      ensures ReportedFrom(i, k + 1, tail, header) <==>
              ReportedFrom(i, k, tail, header) || (tail == i && IsReported(cfg, i, header) && header == cfg.nodes[i].successors[k])
    {
    }

    method AnalyzeNode(i: nat)
      requires Valid() && i < |cfg.nodes| && AreNaturalLoops(cfg, loops) && InOrderOfTails(loops) && TailsBelow(loops, i)
      modifies this`loops
      ensures AreNaturalLoops(cfg, loops) && InOrderOfTails(loops) && TailsBelow(loops, i + 1)
      ensures forall tail: nat, header: nat :: HasLoop(loops, tail, header) <==>
                HasLoop(old(loops), tail, header) || (tail == i && IsReported(cfg, i, header))
    {
      var succs := cfg.nodes[i].successors;
      for k := 0 to |succs|
        invariant AreNaturalLoops(cfg, loops) && InOrderOfTails(loops) && TailsBelow(loops, i + 1)
        invariant forall tail: nat, header: nat :: HasLoop(loops, tail, header) <==>
          HasLoop(old(loops), tail, header) || ReportedFrom(i, k, tail, header)
      {
        assert (i, succs[k]) in CfgEdges(cfg);
        EdgeIsPredecessor(cfg, i, succs[k]);
        var back := IsDominatedBy(i, succs[k]);
        ghost var before := loops;
        if back {
          AnalyzeBackEdge(i, succs[k]);
          HasLoopAppend(before, loops[|loops| - 1]);
          assert loops == before + [loops[|loops| - 1]];
        }
        forall tail: nat, header: nat
          ensures ReportedFrom(i, k + 1, tail, header) <==>
                  ReportedFrom(i, k, tail, header) || (back && tail == i && header == succs[k])
        {
          ReportedOneMore(i, k, tail, header);
        }
      }
      forall header | IsReported(cfg, i, header)
        ensures ReportedFrom(i, |succs|, i, header)
      {
        var j :| 0 <= j < |succs| && succs[j] == header;
      }
    }

    /** Walks up the tree. The walk stops before it looks at the entry, so the entry counts only for itself. */
    method IsDominatedBy(a: nat, b: nat) returns (dominated: bool)
      requires Valid() && a < |cfg.nodes| && b < |cfg.nodes|
      ensures dominated <==> a == b || (b != Entry(cfg) && Dominates(cfg, b, a))
    {
      AncestorsAreDominators(cfg, domtree.parents, b, a);
      if a == b {
        return true;
      }
      OnlyEntryIsOwnParent(cfg, domtree.parents, a);
      var idom: nat := domtree.parents[a];
      while domtree.parents[idom] != idom
        invariant idom < |cfg.nodes| && (a != Entry(cfg) ==> a < idom)
        invariant b != Entry(cfg) ==> (IsAncestor(domtree.parents, b, a) <==> IsAncestor(domtree.parents, b, idom))
        decreases |cfg.nodes| - idom
      {
        OnlyEntryIsOwnParent(cfg, domtree.parents, idom);
        if idom == b {
          return true;
        }
        idom := domtree.parents[idom];
      }
      OnlyEntryIsOwnParent(cfg, domtree.parents, idom);
      return false;
    }

    method AnalyzeBackEdge(from: nat, to: nat)
      requires Valid() && from < |cfg.nodes| && to < |cfg.nodes| && AreNaturalLoops(cfg, loops)
      modifies this`loops
      ensures |loops| == |old(loops)| + 1 && loops[..|old(loops)|] == old(loops)
      ensures loops[|old(loops)|].tail == from && loops[|old(loops)|].header == to
      ensures AreNaturalLoops(cfg, loops)
    {
      var body := CollectBodyNodes({to}, from, to);
      BodyIsRight(from, to, body);
      var entries := CollectEntries(to, body);
      var exits := CollectExits(body);
      loops := loops + [Loop(to, body, from, entries, exits)];
    }

    /** Backwards from the tail; nodes already in the body are not passed again. */
    method CollectBodyNodes(body: set<nat>, node: nat, ghost header: nat) returns (body': set<nat>)
      requires ValidCfg(cfg) && node < |cfg.nodes| && body <= NumbersBelow(|cfg.nodes|) && header in body
      ensures body <= body' <= NumbersBelow(|cfg.nodes|) && node in body'
      ensures forall n | n in body' && n !in body :: ReachesAvoiding(cfg, n, node, header)
      ensures ClosedBackwards(cfg, body', body)
      decreases NumbersBelow(|cfg.nodes|) - body
    {
      if node in body {
        return body;
      }
      body' := body + {node};
      assert AvoidingPath(cfg, [node], node, node, header);
      var preds := cfg.nodes[node].predecessors;
      for k := 0 to |preds|
        invariant body + {node} <= body' <= NumbersBelow(|cfg.nodes|)
        invariant forall n | n in body' && n !in body :: ReachesAvoiding(cfg, n, node, header)
        invariant ClosedBackwards(cfg, body', body + {node})
        invariant forall j :: 0 <= j < k ==> preds[j] in body'
      {
        EdgeIsPredecessor(cfg, preds[k], node);
        ghost var before := body';
        body' := CollectBodyNodes(body', preds[k], header);
        forall n | n in body' && n !in before
          ensures ReachesAvoiding(cfg, n, node, header)
        {
          GoesOn(n, preds[k], node, header);
        }
      }
      forall a, b | (a, b) in CfgEdges(cfg) && b in body' && b !in body
        ensures a in body'
      {
        EdgeIsPredecessor(cfg, a, b);
      }
    }

    lemma GoesOn(n: nat, a: nat, b: nat, h: nat)
      requires ReachesAvoiding(cfg, n, a, h) && (a, b) in CfgEdges(cfg) && b != h
      ensures ReachesAvoiding(cfg, n, b, h)
    {
      var p :| AvoidingPath(cfg, p, n, a, h);
      JoinPaths(CfgEdges(cfg), p, [a, b]);
      assert AvoidingPath(cfg, p + [a, b][1..], n, b, h);
    }

    /** The set found is the body of the natural loop. */
    lemma BodyIsRight(tail: nat, header: nat, body: set<nat>)
      requires header in body && tail in body && ClosedBackwards(cfg, body, {header})
      requires forall n | n in body && n !in {header} :: ReachesAvoiding(cfg, n, tail, header)
      ensures forall n: nat :: n in body <==> n == header || ReachesAvoiding(cfg, n, tail, header)
    {
      forall n: nat | ReachesAvoiding(cfg, n, tail, header)
        ensures n in body
      {
        var p :| AvoidingPath(cfg, p, n, tail, header);
        BackwardsStaysInside(cfg, body, header, p, 0);
      }
    }

    method CollectEntries(header: nat, body: set<nat>) returns (entries: set<nat>)
      requires ValidCfg(cfg) && header < |cfg.nodes|
      ensures forall a: nat :: a in entries <==> a !in body && (a, header) in CfgEdges(cfg)
    {
      entries := {};
      var preds := cfg.nodes[header].predecessors;
      for k := 0 to |preds|
        invariant forall a: nat :: a in entries <==> a !in body && a in preds[..k]
      {
        if preds[k] !in body {
          entries := entries + {preds[k]};
        }
      }
      assert preds[..|preds|] == preds;
      forall a: nat
        ensures a in preds <==> (a, header) in CfgEdges(cfg)
      {
        EdgeIsPredecessor(cfg, a, header);
      }
    }

    method CollectExits(body: set<nat>) returns (exits: set<(nat, nat)>)
      requires ValidCfg(cfg) && body <= NumbersBelow(|cfg.nodes|)
      ensures forall a: nat, b: nat :: (a, b) in exits <==> (a, b) in CfgEdges(cfg) && a in body && b !in body
    {
      exits := {};
      var todo := body;
      while todo != {}
        invariant todo <= body
        invariant forall a: nat, b: nat :: (a, b) in exits <==> (a, b) in CfgEdges(cfg) && a in body - todo && b !in body
        decreases todo
      {
        var node :| node in todo;
        var more := CollectExitNodes(body, node);
        exits, todo := exits + more, todo - {node};
      }
    }

    method CollectExitNodes(body: set<nat>, node: nat) returns (exits: set<(nat, nat)>)
      requires node < |cfg.nodes|
      ensures forall a: nat, b: nat :: (a, b) in exits <==> (a, b) in CfgEdges(cfg) && a == node && b !in body
    {
      exits := {};
      var succs := cfg.nodes[node].successors;
      for k := 0 to |succs|
        invariant forall a: nat, b: nat :: (a, b) in exits <==> a == node && b in succs[..k] && b !in body
      {
        if succs[k] !in body {
          exits := exits + {(node, succs[k])};
        }
      }
      assert succs[..|succs|] == succs;
    }
  }

  lemma HasLoopAppend(loops: seq<Loop>, l: Loop)
    ensures forall tail: nat, header: nat :: HasLoop(loops + [l], tail, header) <==>
              HasLoop(loops, tail, header) || (l.tail == tail && l.header == header)
  {
    forall tail: nat, header: nat
      ensures HasLoop(loops + [l], tail, header) <==> HasLoop(loops, tail, header) || (l.tail == tail && l.header == header)
    {
      var all := loops + [l];
      assert forall k :: 0 <= k < |loops| ==> all[k] == loops[k];
      assert all[|loops|] == l;
    }
  }
}
