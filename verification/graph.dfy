/** Paths over a finite directed graph: the vocabulary in which liveness, loops and module dependencies are stated. */
module Graph {

  type Edges = set<(nat, nat)>

  ghost predicate IsPath(es: Edges, p: seq<nat>) {
    && |p| > 0
    && forall k :: 0 <= k < |p| - 1 ==> (p[k], p[k + 1]) in es
  }

  ghost predicate IsPathFromTo(es: Edges, p: seq<nat>, a: nat, b: nat) {
    IsPath(es, p) && p[0] == a && p[|p| - 1] == b
  }

  ghost predicate Reaches(es: Edges, a: nat, b: nat) {
    exists p :: IsPathFromTo(es, p, a, b)
  }

  /** No edge leaves the set. */
  ghost predicate Closed(es: Edges, s: set<nat>) {
    forall a, b :: (a, b) in es && a in s ==> b in s
  }

  lemma ReachesSelf(es: Edges, a: nat)
    ensures Reaches(es, a, a)
  {
    assert IsPathFromTo(es, [a], a, a);
  }

  /** Two paths that meet can be joined; the meeting node is listed once. */
  lemma JoinPaths(es: Edges, p: seq<nat>, q: seq<nat>)
    requires IsPath(es, p) && IsPath(es, q) && p[|p| - 1] == q[0]
    ensures IsPathFromTo(es, p + q[1..], p[0], q[|q| - 1])
  {
    var r := p + q[1..];
    forall k | 0 <= k < |r| - 1
      ensures (r[k], r[k + 1]) in es
    {
      if k >= |p| - 1 {
        assert r[k] == q[k + 1 - |p|] && r[k + 1] == q[k + 2 - |p|];
      }
    }
  }

  lemma ReachesStep(es: Edges, a: nat, b: nat, c: nat)
    requires Reaches(es, a, b) && (b, c) in es
    ensures Reaches(es, a, c)
  {
    var p :| IsPathFromTo(es, p, a, b);
    JoinPaths(es, p, [b, c]);
  }

  lemma ReachesVia(es: Edges, a: nat, b: nat, c: nat)
    requires (a, b) in es && Reaches(es, b, c)
    ensures Reaches(es, a, c)
  {
    var p :| IsPathFromTo(es, p, b, c);
    JoinPaths(es, [a, b], p);
  }

  /** Any part of a path is a path. */
  lemma SubPath(es: Edges, p: seq<nat>, i: nat, j: nat)
    requires IsPath(es, p) && i < j <= |p|
    ensures IsPathFromTo(es, p[i..j], p[i], p[j - 1])
  {
  }

  /** A path that starts in a closed set never leaves it. */
  lemma {:induction false} ClosedKeepsPath(es: Edges, s: set<nat>, p: seq<nat>, k: nat)
    requires Closed(es, s) && IsPath(es, p) && p[0] in s && k < |p|
    ensures p[k] in s
  {
    if k > 0 {
      ClosedKeepsPath(es, s, p, k - 1);
      assert (p[k - 1], p[k]) in es;
    }
  }

  lemma ClosedContainsReachable(es: Edges, s: set<nat>, a: nat, b: nat)
    requires Closed(es, s) && a in s && Reaches(es, a, b)
    ensures b in s
  {
    var p :| IsPathFromTo(es, p, a, b);
    ClosedKeepsPath(es, s, p, |p| - 1);
  }
}
