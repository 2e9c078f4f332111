/** Paths and reachability in a directed graph whose nodes are naturals. */
module Relation {

  type Edges = (nat, nat) -> bool

  ghost predicate Path(edge: Edges, p: seq<nat>)
  {
    |p| > 0 && forall k :: 0 <= k < |p| - 1 ==> edge(p[k], p[k+1])
  }

  ghost predicate Connects(edge: Edges, p: seq<nat>, a: nat, b: nat)
  {
    Path(edge, p) && p[0] == a && p[|p|-1] == b
  }

  /** b can be reached from a in zero or more steps. */
  ghost predicate Reach(edge: Edges, a: nat, b: nat)
  {
    exists p :: Connects(edge, p, a, b)
  }

  /** b can be reached from a in one or more steps. */
  ghost predicate ReachPlus(edge: Edges, a: nat, b: nat)
  {
    exists c :: edge(a, c) && Reach(edge, c, b)
  }

  lemma ReachRefl(edge: Edges, a: nat)
    ensures Reach(edge, a, a)
  {
    assert Connects(edge, [a], a, a);
  }

  lemma ReachEdge(edge: Edges, a: nat, b: nat)
    requires edge(a, b)
    ensures Reach(edge, a, b)
  {
    assert Connects(edge, [a, b], a, b);
  }

  lemma ReachTrans(edge: Edges, a: nat, b: nat, c: nat)
    requires Reach(edge, a, b) && Reach(edge, b, c)
    ensures Reach(edge, a, c)
  {
    var p :| Connects(edge, p, a, b);
    var q :| Connects(edge, q, b, c);
    var r := p + q[1..];
    forall k | 0 <= k < |r| - 1 ensures edge(r[k], r[k+1]) {
      if k == |p| - 1 {
        assert r[k] == q[0] && r[k+1] == q[1];
      } else if k >= |p| {
        assert r[k] == q[k - |p| + 1] && r[k+1] == q[k - |p| + 2];
      }
    }
    assert Connects(edge, r, a, c);
  }

  lemma ReachStep(edge: Edges, a: nat, b: nat, c: nat)
    requires edge(a, b) && Reach(edge, b, c)
    ensures Reach(edge, a, c)
  {
    ReachEdge(edge, a, b);
    ReachTrans(edge, a, b, c);
  }

  lemma ReachSnoc(edge: Edges, a: nat, b: nat, c: nat)
    requires Reach(edge, a, b) && edge(b, c)
    ensures Reach(edge, a, c)
  {
    ReachEdge(edge, b, c);
    ReachTrans(edge, a, b, c);
  }

  /** A path either is empty or starts with an edge. */
  lemma ReachHead(edge: Edges, a: nat, b: nat)
    requires Reach(edge, a, b)
    ensures a == b || ReachPlus(edge, a, b)
  {
    var p :| Connects(edge, p, a, b);
    if |p| > 1 {
      assert edge(p[0], p[1]);
      assert Connects(edge, p[1..], p[1], b);
    }
  }

  /** A path either is empty or ends with an edge. */
  lemma ReachLast(edge: Edges, a: nat, b: nat)
    requires Reach(edge, a, b)
    ensures a == b || exists c :: Reach(edge, a, c) && edge(c, b)
  {
    var p :| Connects(edge, p, a, b);
    if |p| > 1 {
      var c := p[|p|-2];
      assert Connects(edge, p[..|p|-1], a, c);
      assert edge(p[|p|-2], p[|p|-2+1]);
    }
  }

  /** Relations with the same edges reach the same nodes. */
  lemma ReachSame(edge: Edges, edge': Edges, a: nat, b: nat)
    requires forall x: nat, y: nat :: edge(x, y) == edge'(x, y)
    ensures Reach(edge, a, b) == Reach(edge', a, b)
  {
    if Reach(edge, a, b) {
      var p :| Connects(edge, p, a, b);
      assert Connects(edge', p, a, b);
    }
    if Reach(edge', a, b) {
      var p :| Connects(edge', p, a, b);
      assert Connects(edge, p, a, b);
    }
  }

  /** Induction along a path: a set that holds the start and is closed under edges holds the end. */
  lemma {:induction false} ReachInvariant(edge: Edges, a: nat, b: nat, inv: nat -> bool)
    requires Reach(edge, a, b) && inv(a)
    requires forall x, y :: inv(x) && edge(x, y) ==> inv(y)
    ensures inv(b)
  {
    var p :| Connects(edge, p, a, b);
    PathInvariant(edge, p, inv);
  }

  lemma {:induction false} PathInvariant(edge: Edges, p: seq<nat>, inv: nat -> bool)
    requires Path(edge, p) && inv(p[0])
    requires forall x, y :: inv(x) && edge(x, y) ==> inv(y)
    ensures inv(p[|p|-1])
  {
    if |p| > 1 {
      assert edge(p[0], p[1]);
      PathInvariant(edge, p[1..], inv);
    }
  }

  /** The edges of an adjacency list. */
  ghost function Adjacent(rel: seq<seq<nat>>): Edges
  {
    (i: nat, j: nat) => i < |rel| && j in rel[i]
  }

  /** Every target in the adjacency lists is a node. */
  ghost predicate IsGraph(rel: seq<seq<nat>>)
  {
    forall i, k :: 0 <= i < |rel| && 0 <= k < |rel[i]| ==> rel[i][k] < |rel|
  }
}
