/**
  Finite directed graphs over the node ids 0 .. |g| - 1 and reachability along
  their edges. The binding world gives three such graphs: super-interface
  links, annotations on annotation types, and the subclass links of a type
  hierarchy.
 */
module Graphs {

  /** g[a] is the set of direct successors of node a. */
  type Graph = seq<set<nat>>

  predicate Edge(g: Graph, a: nat, b: nat) {
    a < |g| && b in g[a]
  }

  /** A non-empty sequence of nodes, each one an edge away from the one before. */
  ghost predicate IsPath(g: Graph, p: seq<nat>) {
    |p| >= 1 && forall k :: 0 <= k < |p| - 1 ==> Edge(g, p[k], p[k + 1])
  }

  /** b can be reached from a in zero or more steps. */
  ghost predicate Reaches(g: Graph, a: nat, b: nat) {
    exists p :: IsPath(g, p) && p[0] == a && p[|p| - 1] == b
  }

  lemma ReachesRefl(g: Graph, a: nat)
    ensures Reaches(g, a, a)
  {
    assert IsPath(g, [a]);
  }

  lemma ReachesStep(g: Graph, a: nat, b: nat, c: nat)
    requires Edge(g, a, b) && Reaches(g, b, c)
    ensures Reaches(g, a, c)
  {
    var p :| IsPath(g, p) && p[0] == b && p[|p| - 1] == c;
    var q := [a] + p;
    forall k | 0 <= k < |q| - 1
      ensures Edge(g, q[k], q[k + 1])
    {
      if k > 0 {
        assert q[k] == p[k - 1] && q[k + 1] == p[k];
      }
    }
    assert IsPath(g, q) && q[0] == a && q[|q| - 1] == c;
  }

  lemma ReachesExtend(g: Graph, a: nat, b: nat, c: nat)
    requires Reaches(g, a, b) && Edge(g, b, c)
    ensures Reaches(g, a, c)
  {
    var p :| IsPath(g, p) && p[0] == a && p[|p| - 1] == b;
    var q := p + [c];
    forall k | 0 <= k < |q| - 1
      ensures Edge(g, q[k], q[k + 1])
    {
      if k < |p| - 1 {
        assert q[k] == p[k] && q[k + 1] == p[k + 1];
      }
    }
    assert IsPath(g, q) && q[0] == a && q[|q| - 1] == c;
  }

  /** A node reaches c exactly when it is c or one of its successors reaches c. */
  lemma ReachesUnfold(g: Graph, a: nat, c: nat)
    requires Reaches(g, a, c)
    ensures a == c || exists b :: Edge(g, a, b) && Reaches(g, b, c)
  {
    var p :| IsPath(g, p) && p[0] == a && p[|p| - 1] == c;
    if |p| > 1 {
      var q := p[1..];
      assert Edge(g, p[0], p[1]);
      forall k | 0 <= k < |q| - 1
        ensures Edge(g, q[k], q[k + 1])
      {
        assert q[k] == p[k + 1] && q[k + 1] == p[k + 2];
      }
      assert IsPath(g, q) && q[0] == p[1] && q[|q| - 1] == c;
    }
  }

  /** Every node added to `before` to give `now` has all its successors in `now`. */
  ghost predicate GrownClosed(g: Graph, before: set<nat>, now: set<nat>) {
    forall x, y :: x in now - before && Edge(g, x, y) ==> y in now
  }

  /**
    If every node of grown - before has all its successors in grown, a is in
    grown - before and no node reachable from a is in before, then everything
    reachable from a is in grown. With before == {} this is the familiar
    "a set closed under the edges contains everything reachable from its members".
   */
  lemma {:induction false} ClosedReach(g: Graph, before: set<nat>, grown: set<nat>, a: nat, b: nat)
    requires a in grown && a !in before
    requires GrownClosed(g, before, grown)
    requires forall x :: Reaches(g, a, x) ==> x !in before
    requires Reaches(g, a, b)
    ensures b in grown
  {
    var p :| IsPath(g, p) && p[0] == a && p[|p| - 1] == b;
    var k := 0;
    ReachesRefl(g, a);
    while k < |p| - 1
      invariant 0 <= k < |p|
      invariant p[k] in grown - before
      invariant Reaches(g, a, p[k])
    {
      assert Edge(g, p[k], p[k + 1]);
      ReachesExtend(g, a, p[k], p[k + 1]);
      k := k + 1;
    }
  }

  /** b can be reached from a along a path none of whose nodes, a and b included, is in `avoid`. */
  ghost predicate ReachesAvoiding(g: Graph, a: nat, b: nat, avoid: set<nat>) {
    exists p :: IsPath(g, p) && p[0] == a && p[|p| - 1] == b && forall k :: 0 <= k < |p| ==> p[k] !in avoid
  }

  /** The nodes of g that a reaches without passing through `avoid`. */
  ghost function ReachableAvoiding(g: Graph, a: nat, avoid: set<nat>): set<nat> {
    set x | 0 <= x < |g| && ReachesAvoiding(g, a, x, avoid)
  }

  lemma AvoidingRefl(g: Graph, a: nat, avoid: set<nat>)
    requires a !in avoid
    ensures ReachesAvoiding(g, a, a, avoid)
  {
    assert IsPath(g, [a]) && [a][0] == a;
  }

  /** A path avoiding a set starts outside it and is a path. */
  lemma AvoidingStart(g: Graph, a: nat, b: nat, avoid: set<nat>)
    requires ReachesAvoiding(g, a, b, avoid)
    ensures a !in avoid && Reaches(g, a, b)
  {
    var p :| IsPath(g, p) && p[0] == a && p[|p| - 1] == b && forall k :: 0 <= k < |p| ==> p[k] !in avoid;
    assert p[0] !in avoid;
  }

  /** A path that avoids a set also avoids every smaller set. */
  lemma AvoidingMono(g: Graph, a: nat, b: nat, big: set<nat>, small: set<nat>)
    requires ReachesAvoiding(g, a, b, big) && small <= big
    ensures ReachesAvoiding(g, a, b, small)
  {
    var p :| IsPath(g, p) && p[0] == a && p[|p| - 1] == b && forall k :: 0 <= k < |p| ==> p[k] !in big;
    assert forall k :: 0 <= k < |p| ==> p[k] !in small;
  }

  lemma AvoidingStep(g: Graph, a: nat, b: nat, c: nat, avoid: set<nat>)
    requires Edge(g, a, b) && a !in avoid && ReachesAvoiding(g, b, c, avoid)
    ensures ReachesAvoiding(g, a, c, avoid)
  {
    var p :| IsPath(g, p) && p[0] == b && p[|p| - 1] == c && forall k :: 0 <= k < |p| ==> p[k] !in avoid;
    var q := [a] + p;
    forall k | 0 <= k < |q| - 1
      ensures Edge(g, q[k], q[k + 1])
    {
      if k > 0 {
        assert q[k] == p[k - 1] && q[k + 1] == p[k];
      }
    }
    forall k | 0 <= k < |q|
      ensures q[k] !in avoid
    {
      if k > 0 {
        assert q[k] == p[k - 1];
      }
    }
    assert IsPath(g, q) && q[0] == a && q[|q| - 1] == c;
  }

  /** A path of two or more nodes starts with an edge. */
  lemma FirstEdge(g: Graph, p: seq<nat>)
    requires IsPath(g, p)
    ensures |p| > 1 ==> Edge(g, p[0], p[1])
  {
  }

  /** A node whose successors all lie in `avoid` reaches only itself without passing through `avoid`. */
  lemma AvoidingBlocked(g: Graph, a: nat, x: nat, avoid: set<nat>)
    requires a < |g| && g[a] <= avoid
    requires ReachesAvoiding(g, a, x, avoid)
    ensures x == a
  {
    var p :| IsPath(g, p) && p[0] == a && p[|p| - 1] == x && forall k :: 0 <= k < |p| ==> p[k] !in avoid;
    FirstEdge(g, p);
  }

  /**
    If every node of grown - before has all its successors in grown, then a
    path that starts in grown and avoids `before` stays in grown.
   */
  lemma {:induction false} ClosedReachAvoiding(g: Graph, before: set<nat>, grown: set<nat>, a: nat, b: nat)
    requires a in grown
    requires GrownClosed(g, before, grown)
    requires ReachesAvoiding(g, a, b, before)
    ensures b in grown
  {
    var p :| IsPath(g, p) && p[0] == a && p[|p| - 1] == b && forall k :: 0 <= k < |p| ==> p[k] !in before;
    var k := 0;
    while k < |p| - 1
      invariant 0 <= k < |p|
      invariant p[k] in grown
    {
      assert Edge(g, p[k], p[k + 1]);
      assert p[k] !in before;
      k := k + 1;
    }
  }

  // Node sets and their sizes, for the termination measures of the set-growing walks.

  ghost function Below(n: nat): (s: set<nat>)
    ensures forall t: nat :: t in s <==> t < n
  {
    if n == 0 then {} else Below(n - 1) + {n - 1}
  }

  lemma FewerMissing(all: set<nat>, before: set<nat>, after: set<nat>, u: nat)
    requires before <= after && u in after && u !in before && u in all
    ensures |all - after| < |all - before|
  {
    assert all - after <= (all - before) - {u};
    assert |(all - before) - {u}| == |all - before| - 1;
    SubsetCardinality(all - after, (all - before) - {u});
  }

  lemma SubsetCardinality(a: set<nat>, b: set<nat>)
    requires a <= b
    ensures |a| <= |b|
  {
    assert b == a + (b - a);
  }
}
