/** Numbering the nodes of a control-flow graph in post-order (src/banjo/ssa/control_flow_graph.cpp, sort_in_post_order). */
module CfgOrder {
  import opened Graph
  import opened Dominance

  /** A graph as it is built: the entry is node 0 and every node was found from it. */
  ghost predicate Discovered(g: Cfg) {
    ValidCfg(g) && forall b: nat | b < |g.nodes| :: Reaches(CfgEdges(g), 0, b)
  }

  /** `order` lists the finished nodes; their numbers are their places in it. */
  ghost predicate Numbered(indexMap: map<nat, nat>, order: seq<nat>) {
    forall v | 0 <= v < |order| :: order[v] in indexMap && indexMap[order[v]] == v
  }

  ghost predicate FinishedBefore(g: Cfg, order: seq<nat>, v: nat) {
    v < |order| && exists w :: v < w < |order| && (order[w], order[v]) in CfgEdges(g)
  }

  ghost predicate KeysBelow(indexMap: map<nat, nat>, n: nat) {
    indexMap.Keys <= NumbersBelow(n)
  }

  /** What one call has added: nodes that were not in the map, each of them finished before a predecessor of it. */
  ghost predicate Added(g: Cfg, indexMap: map<nat, nat>, order: seq<nat>, indexMap': map<nat, nat>, order': seq<nat>) {
    && order <= order' && indexMap.Keys <= indexMap'.Keys
    && Numbered(indexMap', order') && KeysBelow(indexMap', |g.nodes|)
    && (forall b | b in indexMap :: indexMap'[b] == indexMap[b])
    && (forall v | |order| <= v < |order'| :: order'[v] !in indexMap)
  }

  // ---- Post-order ----

  /** From where it is listed on, whatever the node has an edge to leads back to it. */
  ghost predicate LeadsBack(g: Cfg, order: seq<nat>, v: nat) {
    v < |order| && forall b :: (order[v], b) in CfgEdges(g) && b !in order[..v] ==> Reaches(CfgEdges(g), b, order[v])
  }

  ghost predicate AllLeadBack(g: Cfg, order: seq<nat>, lo: nat) {
    forall v: nat | lo <= v < |order| :: LeadsBack(g, order, v)
  }

  /** Nodes that were visited and are not finished are on the way to `index`. */
  ghost predicate OnTheWay(g: Cfg, indexMap: map<nat, nat>, order: seq<nat>, index: nat) {
    forall x | x in indexMap && x !in order :: Reaches(CfgEdges(g), x, index)
  }

  lemma LongerLeadsBack(g: Cfg, order: seq<nat>, before: seq<nat>, after: seq<nat>)
    requires before <= after && AllLeadBack(g, before, |order|) && AllLeadBack(g, after, |before|)
    ensures AllLeadBack(g, after, |order|)
  {
    forall v: nat | |order| <= v < |after|
      ensures LeadsBack(g, after, v)
    {
      if v < |before| {
        assert LeadsBack(g, before, v) && after[..v] == before[..v];
      }
    }
  }

  lemma WayToSuccessor(g: Cfg, indexMap: map<nat, nat>, order: seq<nat>, index: nat, indexMap': map<nat, nat>, order': seq<nat>, succ: nat)
    requires OnTheWay(g, indexMap, order, index) && order <= order' && (index, succ) in CfgEdges(g)
    requires forall b :: b in indexMap' ==> b in indexMap || b in order' || b == index
    ensures OnTheWay(g, indexMap', order', succ)
  {
    ReachesSelf(CfgEdges(g), index);
    forall x | x in indexMap' && x !in order'
      ensures Reaches(CfgEdges(g), x, succ)
    {
      assert x in order ==> x in order';
      ReachesStep(CfgEdges(g), x, index, succ);
    }
  }

  lemma FinishedLeadsBack(g: Cfg, indexMap: map<nat, nat>, order: seq<nat>, index: nat, indexMap': map<nat, nat>, order': seq<nat>)
    requires OnTheWay(g, indexMap, order, index) && order <= order' && AllLeadBack(g, order', |order|)
    requires forall b :: b in indexMap' ==> b in indexMap || b in order' || b == index
    requires forall b :: (index, b) in CfgEdges(g) ==> b in indexMap'
    ensures AllLeadBack(g, order' + [index], |order|)
  {
    var all := order' + [index];
    ReachesSelf(CfgEdges(g), index);
    forall v: nat | |order| <= v < |all|
      ensures LeadsBack(g, all, v)
    {
      if v < |order'| {
        assert LeadsBack(g, order', v) && all[..v] == order'[..v];
      } else {
        assert all[..v] == order';
        forall b | (index, b) in CfgEdges(g) && b !in order'
          ensures Reaches(CfgEdges(g), b, index)
        {
          assert b in order ==> b in order';
        }
      }
    }
  }

  lemma SuccessorsAreEdges(g: Cfg, index: nat, indexMap: map<nat, nat>)
    requires index < |g.nodes| && forall j | 0 <= j < |g.nodes[index].successors| :: g.nodes[index].successors[j] in indexMap
    ensures forall b :: (index, b) in CfgEdges(g) ==> b in indexMap
  {
  }

  /** The call for `index` has numbered it last, and what it found. */
  ghost predicate Collected(g: Cfg, index: nat, indexMap: map<nat, nat>, order: seq<nat>, indexMap': map<nat, nat>, order': seq<nat>) {
    && Added(g, indexMap, order, indexMap', order') && |order'| > |order| && order'[|order'| - 1] == index
    && (forall v: nat | |order| <= v < |order'| - 1 :: FinishedBefore(g, order', v)) && AllLeadBack(g, order', |order|)
    && (forall b :: b in indexMap' ==> b in indexMap || b in order')
    && forall a, b :: (a, b) in CfgEdges(g) && a in indexMap' && a !in indexMap ==> b in indexMap'
  }

  /** It has been through the first `k` successors. */
  ghost predicate Collecting(g: Cfg, index: nat, indexMap: map<nat, nat>, order: seq<nat>, indexMap': map<nat, nat>, order': seq<nat>, k: nat) {
    && index < |g.nodes| && k <= |g.nodes[index].successors|
    && index in indexMap' && Added(g, indexMap, order, indexMap', order') && index !in order'
    && (forall v: nat | |order| <= v < |order'| :: FinishedBefore(g, order' + [index], v)) && AllLeadBack(g, order', |order|)
    && (forall b :: b in indexMap' ==> b in indexMap || b in order' || b == index)
    && (forall a, b :: (a, b) in CfgEdges(g) && a in indexMap' && a !in indexMap && a != index ==> b in indexMap')
    && forall j :: 0 <= j < k ==> g.nodes[index].successors[j] in indexMap'
  }

  lemma OneMoreSuccessor(g: Cfg, index: nat, indexMap: map<nat, nat>, order: seq<nat>, before: map<nat, nat>, found: seq<nat>, k: nat,
                         after: map<nat, nat>, found': seq<nat>)
    requires Collecting(g, index, indexMap, order, before, found, k) && k < |g.nodes[index].successors| && index !in indexMap
    requires var succ := g.nodes[index].successors[k];
             succ !in before && (index, succ) in CfgEdges(g) && Collected(g, succ, before, found, after, found')
    ensures Collecting(g, index, indexMap, order, after, found', k + 1)
  {
    StillFinishedBefore(g, index, order, found, found');
    LongerLeadsBack(g, order, found, found');
  }

  lemma AllSuccessors(g: Cfg, index: nat, indexMap: map<nat, nat>, order: seq<nat>, before: map<nat, nat>, found: seq<nat>)
    requires index < |g.nodes| && index !in indexMap && Collecting(g, index, indexMap, order, before, found, |g.nodes[index].successors|)
    requires OnTheWay(g, indexMap, order, index)
    ensures Collected(g, index, indexMap, order, before[index := |found|], found + [index])
  {
    SuccessorsAreEdges(g, index, before);
    FinishedLeadsBack(g, indexMap, order, index, before, found);
  }

  method CollectNodesInPostOrder(g: Cfg, index: nat, indexMap: map<nat, nat>, cur: nat, ghost order: seq<nat>)
    returns (indexMap': map<nat, nat>, cur': nat, ghost order': seq<nat>)
    requires ValidCfg(g) && index < |g.nodes| && index !in indexMap
    requires Numbered(indexMap, order) && KeysBelow(indexMap, |g.nodes|) && cur == |order| && OnTheWay(g, indexMap, order, index)
    ensures Collected(g, index, indexMap, order, indexMap', order') && cur' == |order'|
    ensures cur' > cur && index in indexMap' && indexMap'[index] == cur' - 1
    ensures forall b | b in indexMap :: b in indexMap' && indexMap'[b] == indexMap[b]
    ensures forall a, b :: (a, b) in CfgEdges(g) && a in indexMap' && a !in indexMap ==> b in indexMap'
    decreases NumbersBelow(|g.nodes|) - indexMap.Keys
  {
    // A dummy value marks the node as visited.
    indexMap', cur', order' := indexMap[index := 0], cur, order;
    var succs := g.nodes[index].successors;
    for k := 0 to |succs|
      invariant Collecting(g, index, indexMap, order, indexMap', order', k) && cur' == |order'|
    {
      assert (index, succs[k]) in CfgEdges(g);
      if succs[k] !in indexMap' {
        EdgeIsPredecessor(g, index, succs[k]);
        WayToSuccessor(g, indexMap, order, index, indexMap', order', succs[k]);
        ghost var before, found := indexMap', order';
        indexMap', cur', order' := CollectNodesInPostOrder(g, succs[k], indexMap', cur', order');
        OneMoreSuccessor(g, index, indexMap, order, before, found, k, indexMap', order');
      }
    }
    AllSuccessors(g, index, indexMap, order, indexMap', order');
    indexMap', order', cur' := indexMap'[index := cur'], order' + [index], cur' + 1;
  }

  /** Nodes finished before an earlier call's predecessors stay so; the root of a call is finished before its caller. */
  lemma StillFinishedBefore(g: Cfg, index: nat, order: seq<nat>, before: seq<nat>, after: seq<nat>)
    requires order <= before <= after && |before| < |after|
    requires forall v: nat | |order| <= v < |before| :: FinishedBefore(g, before + [index], v)
    requires forall v: nat | |before| <= v < |after| - 1 :: FinishedBefore(g, after, v)
    requires (index, after[|after| - 1]) in CfgEdges(g)
    ensures forall v: nat | |order| <= v < |after| :: FinishedBefore(g, after + [index], v)
  {
    var all := after + [index];
    forall v: nat | |order| <= v < |after|
      ensures FinishedBefore(g, all, v)
    {
      if v < |before| {
        assert FinishedBefore(g, before + [index], v);
        var w :| v < w < |before| + 1 && ((before + [index])[w], (before + [index])[v]) in CfgEdges(g);
        var w' := if w == |before| then |after| else w;
        assert all[w'] == (before + [index])[w] && all[v] == before[v];
      } else if v < |after| - 1 {
        assert FinishedBefore(g, after, v);
        var w :| v < w < |after| && (after[w], after[v]) in CfgEdges(g);
        assert all[w] == after[w] && all[v] == after[v];
      } else {
        assert all[|after|] == index && all[v] == after[v];
      }
    }
  }

  function MapAll(indexMap: map<nat, nat>, s: seq<nat>): (t: seq<nat>)
    requires forall k :: 0 <= k < |s| ==> s[k] in indexMap
    ensures |t| == |s| && forall k :: 0 <= k < |s| ==> t[k] == indexMap[s[k]]
  {
    if s == [] then [] else MapAll(indexMap, s[..|s| - 1]) + [indexMap[s[|s| - 1]]]
  }

  /** `h` is `g` with its nodes renumbered, one to one. */
  ghost predicate Renumbers(g: Cfg, h: Cfg, indexMap: map<nat, nat>) {
    && |h.nodes| == |g.nodes|
    && (forall b: nat :: b in indexMap <==> b < |g.nodes|)
    && (forall b :: b in indexMap ==> indexMap[b] < |h.nodes|)
    && (forall a, b {:trigger indexMap[a], indexMap[b]} :: a in indexMap && b in indexMap && indexMap[a] == indexMap[b] ==> a == b)
    && (forall c: nat | c < |h.nodes| :: c in indexMap.Values)
    && forall a, b {:trigger (a, b) in CfgEdges(g)} :: a in indexMap && b in indexMap ==>
         ((a, b) in CfgEdges(g) <==> (indexMap[a], indexMap[b]) in CfgEdges(h))
  }

  ghost predicate IsNumbering(g: Cfg, indexMap: map<nat, nat>, order: seq<nat>) {
    && |order| == |g.nodes| && Numbered(indexMap, order)
    && (forall b: nat :: b in indexMap <==> b < |g.nodes|)
    && forall b :: b in indexMap ==> indexMap[b] < |order| && order[indexMap[b]] == b
  }

  ghost predicate RenumberedAt(g: Cfg, indexMap: map<nat, nat>, nodes: seq<Node>, i: nat)
    requires i < |g.nodes|
  {
    && i in indexMap && indexMap[i] < |nodes|
    && (forall k :: 0 <= k < |g.nodes[i].predecessors| ==> g.nodes[i].predecessors[k] in indexMap)
    && (forall k :: 0 <= k < |g.nodes[i].successors| ==> g.nodes[i].successors[k] in indexMap)
    && nodes[indexMap[i]] == Node(MapAll(indexMap, g.nodes[i].predecessors), MapAll(indexMap, g.nodes[i].successors))
  }

  lemma NeighboursAreNodes(g: Cfg, i: nat)
    requires ValidCfg(g) && i < |g.nodes|
    ensures forall k :: 0 <= k < |g.nodes[i].predecessors| ==> g.nodes[i].predecessors[k] < |g.nodes|
    ensures forall k :: 0 <= k < |g.nodes[i].successors| ==> g.nodes[i].successors[k] < |g.nodes|
  {
    forall k | 0 <= k < |g.nodes[i].predecessors|
      ensures g.nodes[i].predecessors[k] < |g.nodes|
    {
      EdgeIsPredecessor(g, g.nodes[i].predecessors[k], i);
    }
    forall k | 0 <= k < |g.nodes[i].successors|
      ensures g.nodes[i].successors[k] < |g.nodes|
    {
      assert (i, g.nodes[i].successors[k]) in CfgEdges(g);
      EdgeIsPredecessor(g, i, g.nodes[i].successors[k]);
    }
  }

  method Renumber(g: Cfg, indexMap: map<nat, nat>, ghost order: seq<nat>) returns (nodes: seq<Node>)
    requires ValidCfg(g) && IsNumbering(g, indexMap, order)
    ensures |nodes| == |g.nodes| && forall i: nat | i < |g.nodes| :: RenumberedAt(g, indexMap, nodes, i)
  {
    nodes := seq(|g.nodes|, _ => Node([], []));
    for i := 0 to |g.nodes|
      invariant |nodes| == |g.nodes| && forall j: nat | j < i :: RenumberedAt(g, indexMap, nodes, j)
    {
      NeighboursAreNodes(g, i);
      ghost var before := nodes;
      nodes := nodes[indexMap[i] := Node(MapAll(indexMap, g.nodes[i].predecessors), MapAll(indexMap, g.nodes[i].successors))];
      forall j: nat | j < i
        ensures RenumberedAt(g, indexMap, nodes, j)
      {
        assert RenumberedAt(g, indexMap, before, j) && order[indexMap[j]] != order[indexMap[i]];
      }
    }
  }

  lemma RenumberedEdges(g: Cfg, h: Cfg, indexMap: map<nat, nat>, order: seq<nat>, a: nat, b: nat)
    requires ValidCfg(g) && IsNumbering(g, indexMap, order) && |h.nodes| == |g.nodes|
    requires forall i: nat | i < |g.nodes| :: RenumberedAt(g, indexMap, h.nodes, i)
    requires a < |g.nodes| && b < |g.nodes|
    ensures (a, b) in CfgEdges(g) <==> (indexMap[a], indexMap[b]) in CfgEdges(h)
    ensures (a, b) in CfgEdges(g) <==> indexMap[a] in h.nodes[indexMap[b]].predecessors
  {
    assert RenumberedAt(g, indexMap, h.nodes, a) && RenumberedAt(g, indexMap, h.nodes, b);
    EdgeIsPredecessor(g, a, b);
    if (a, b) in CfgEdges(g) {
      var k :| 0 <= k < |g.nodes[a].successors| && g.nodes[a].successors[k] == b;
      assert h.nodes[indexMap[a]].successors[k] == indexMap[b];
      var l :| 0 <= l < |g.nodes[b].predecessors| && g.nodes[b].predecessors[l] == a;
      assert h.nodes[indexMap[b]].predecessors[l] == indexMap[a];
    }
    if (indexMap[a], indexMap[b]) in CfgEdges(h) {
      var k :| 0 <= k < |h.nodes[indexMap[a]].successors| && h.nodes[indexMap[a]].successors[k] == indexMap[b];
      assert order[indexMap[g.nodes[a].successors[k]]] == order[indexMap[b]];
    }
    if indexMap[a] in h.nodes[indexMap[b]].predecessors {
      var l :| 0 <= l < |h.nodes[indexMap[b]].predecessors| && h.nodes[indexMap[b]].predecessors[l] == indexMap[a];
      assert order[indexMap[g.nodes[b].predecessors[l]]] == order[indexMap[a]];
    }
  }

  /** Edges of the renumbered graph run between its nodes. */
  lemma RenumberedIsValid(g: Cfg, h: Cfg, indexMap: map<nat, nat>, order: seq<nat>)
    requires ValidCfg(g) && IsNumbering(g, indexMap, order) && |h.nodes| == |g.nodes|
    requires forall i: nat | i < |g.nodes| :: RenumberedAt(g, indexMap, h.nodes, i)
    ensures ValidCfg(h)
  {
    forall a: nat, b: nat
      ensures Linked(h, a, b)
    {
      if a < |h.nodes| {
        assert RenumberedAt(g, indexMap, h.nodes, order[a]);
        if b < |h.nodes| { RenumberedEdges(g, h, indexMap, order, order[a], order[b]); }
        if (a, b) in CfgEdges(h) {
          var k :| 0 <= k < |h.nodes[a].successors| && h.nodes[a].successors[k] == b;
          assert indexMap[g.nodes[order[a]].successors[k]] == b;
        }
      }
      if b < |h.nodes| && a in h.nodes[b].predecessors {
        assert RenumberedAt(g, indexMap, h.nodes, order[b]);
        var k :| 0 <= k < |h.nodes[b].predecessors| && h.nodes[b].predecessors[k] == a;
        assert indexMap[g.nodes[order[b]].predecessors[k]] == a;
      }
    }
  }

  /** In post-order, an edge that does not lead to a lower number closes a cycle. */
  ghost predicate OnlyCyclesLeadUp(g: Cfg, indexMap: map<nat, nat>) {
    forall a, b | (a, b) in CfgEdges(g) && a in indexMap && b in indexMap && indexMap[a] <= indexMap[b] :: Reaches(CfgEdges(g), b, a)
  }

  lemma OrderLeadsUpOnCycles(g: Cfg, indexMap: map<nat, nat>, order: seq<nat>)
    requires IsNumbering(g, indexMap, order) && AllLeadBack(g, order, 0)
    ensures OnlyCyclesLeadUp(g, indexMap)
  {
    forall a, b | (a, b) in CfgEdges(g) && a in indexMap && b in indexMap && indexMap[a] <= indexMap[b]
      ensures Reaches(CfgEdges(g), b, a)
    {
      var v := indexMap[a];
      assert LeadsBack(g, order, v) && order[v] == a;
      forall w | 0 <= w < v
        ensures order[w] != b
      {
        assert indexMap[order[w]] == w;
      }
      assert b !in order[..v];
    }
  }

  /** Renumbers the graph so that the entry comes last and every other node has a predecessor after it. */
  method SortInPostOrder(g: Cfg) returns (h: Cfg, indexMap: map<nat, nat>)
    requires Discovered(g)
    ensures ValidCfg(h) && PostOrdered(h) && Renumbers(g, h, indexMap) && indexMap[0] == Entry(h)
    ensures OnlyCyclesLeadUp(g, indexMap)
  {
    var cur;
    ghost var order;
    indexMap, cur, order := CollectNodesInPostOrder(g, 0, map[], 0, []);
    NumberingIsComplete(g, indexMap, order);
    OrderLeadsUpOnCycles(g, indexMap, order);
    var nodes := Renumber(g, indexMap, order);
    h := Cfg(nodes);
    RenumberedIsValid(g, h, indexMap, order);
    NumberingRenumbers(g, h, indexMap, order);
    forall b: nat | b < Entry(h)
      ensures HasLaterPredecessor(h, b)
    {
      FinishedEarlier(g, h, indexMap, order, b);
    }
  }

  lemma NumberingRenumbers(g: Cfg, h: Cfg, indexMap: map<nat, nat>, order: seq<nat>)
    requires ValidCfg(g) && IsNumbering(g, indexMap, order) && |h.nodes| == |g.nodes|
    requires forall i: nat | i < |g.nodes| :: RenumberedAt(g, indexMap, h.nodes, i)
    ensures Renumbers(g, h, indexMap)
  {
    forall a, b | a in indexMap && b in indexMap
      ensures (a, b) in CfgEdges(g) <==> (indexMap[a], indexMap[b]) in CfgEdges(h)
    {
      RenumberedEdges(g, h, indexMap, order, a, b);
    }
    forall a, b | a in indexMap && b in indexMap && indexMap[a] == indexMap[b]
      ensures a == b
    {
      assert order[indexMap[a]] == a && order[indexMap[b]] == b;
    }
    forall c: nat | c < |h.nodes|
      ensures c in indexMap.Values
    {
      assert indexMap[order[c]] == c;
    }
  }

  lemma FinishedEarlier(g: Cfg, h: Cfg, indexMap: map<nat, nat>, order: seq<nat>, b: nat)
    requires ValidCfg(g) && IsNumbering(g, indexMap, order) && |h.nodes| == |g.nodes|
    requires forall i: nat | i < |g.nodes| :: RenumberedAt(g, indexMap, h.nodes, i)
    requires FinishedBefore(g, order, b)
    ensures b < |h.nodes| && HasLaterPredecessor(h, b)
  {
    var w :| b < w < |order| && (order[w], order[b]) in CfgEdges(g);
    RenumberedEdges(g, h, indexMap, order, order[w], order[b]);
  }

  /** The search from the entry numbers every node. */
  lemma NumberingIsComplete(g: Cfg, indexMap: map<nat, nat>, order: seq<nat>)
    requires Discovered(g) && Added(g, map[], [], indexMap, order) && 0 in indexMap
    requires forall b :: b in indexMap ==> b in order
    requires forall a, b :: (a, b) in CfgEdges(g) && a in indexMap ==> b in indexMap
    ensures IsNumbering(g, indexMap, order)
  {
    forall b: nat | b < |g.nodes|
      ensures b in indexMap
    {
      assert Closed(CfgEdges(g), indexMap.Keys);
      ClosedContainsReachable(CfgEdges(g), indexMap.Keys, 0, b);
    }
    forall b | b in indexMap
      ensures indexMap[b] < |order| && order[indexMap[b]] == b
    {
      var v :| 0 <= v < |order| && order[v] == b;
    }
    assert Simple(order);
    SimpleIsShort(order, |g.nodes|, NumbersBelow(|g.nodes|));
    OrderIsLong(order, |g.nodes|);
  }

  lemma OrderIsLong(order: seq<nat>, n: nat)
    requires forall b: nat | b < n :: b in order
    ensures n <= |order|
  {
    forall b | b in NumbersBelow(n)
      ensures b in ElementsOf(order)
    {
      assert b < n && b in order;
      var k :| 0 <= k < |order| && order[k] == b;
    }
    SizeOfSubset(NumbersBelow(n), ElementsOf(order));
    ElementsAreFew(order);
  }

  lemma SizeOfSubset(a: set<nat>, b: set<nat>)
    requires a <= b
    ensures |a| <= |b|
  {
    assert b == a + (b - a);
  }

  lemma {:induction false} ElementsAreFew(p: seq<nat>)
    ensures |ElementsOf(p)| <= |p|
  {
    if p != [] {
      var q := p[..|p| - 1];
      ElementsAreFew(q);
      assert ElementsOf(p) == ElementsOf(q) + {p[|p| - 1]};
    }
  }
}
