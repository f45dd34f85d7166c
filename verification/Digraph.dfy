/** Directed graphs as adjacency lists over the node ids 0..N-1, and reachability in them. */
module Digraph {

  type Adjacency = seq<seq<nat>>

  /** Every target is a node. */
  predicate WellFormed(adj: Adjacency) {
    forall u, i :: 0 <= u < |adj| && 0 <= i < |adj[u]| ==> adj[u][i] < |adj|
  }

  /** The node ids below n. */
  function Below(n: nat): (s: set<nat>)
    ensures forall x: nat :: x in s <==> x < n
    ensures |s| == n
  {
    if n == 0 then {} else Below(n - 1) + {n - 1}
  }

  predicate Edge(adj: Adjacency, u: nat, v: nat) {
    u < |adj| && v in adj[u]
  }

  ghost predicate IsPath(adj: Adjacency, u: nat, p: seq<nat>, v: nat) {
    && |p| > 0 && p[0] == u && p[|p| - 1] == v
    && u < |adj|
    && forall i :: 0 <= i < |p| - 1 ==> Edge(adj, p[i], p[i + 1])
  }

  /** v can be reached from u along zero or more edges. */
  ghost predicate Reach(adj: Adjacency, u: nat, v: nat) {
    exists p :: IsPath(adj, u, p, v)
  }

  ghost predicate Mutual(adj: Adjacency, u: nat, v: nat) {
    Reach(adj, u, v) && Reach(adj, v, u)
  }

  lemma EdgeInRange(adj: Adjacency, u: nat, v: nat)
    requires WellFormed(adj) && Edge(adj, u, v)
    ensures v < |adj|
  {
    var i :| 0 <= i < |adj[u]| && adj[u][i] == v;
  }

  lemma ReachRefl(adj: Adjacency, u: nat)
    requires u < |adj|
    ensures Reach(adj, u, u)
  {
    assert IsPath(adj, u, [u], u);
  }

  lemma ReachEdge(adj: Adjacency, u: nat, v: nat)
    requires Edge(adj, u, v)
    ensures Reach(adj, u, v)
  {
    assert IsPath(adj, u, [u, v], v);
  }

  lemma ReachTrans(adj: Adjacency, u: nat, v: nat, w: nat)
    requires Reach(adj, u, v) && Reach(adj, v, w)
    ensures Reach(adj, u, w)
  {
    var p :| IsPath(adj, u, p, v);
    var q :| IsPath(adj, v, q, w);
    var r := p + q[1..];
    forall i | 0 <= i < |r| - 1
      ensures Edge(adj, r[i], r[i + 1])
    {
      if i < |p| - 1 {
        assert Edge(adj, p[i], p[i + 1]);
      } else {
        var j := i - (|p| - 1);
        assert r[i] == q[j] && r[i + 1] == q[j + 1];
        assert Edge(adj, q[j], q[j + 1]);
      }
    }
    assert IsPath(adj, u, r, w);
  }

  /** A set of nodes that no edge leaves cannot be left along a path. */
  lemma {:induction false} ClosedUnderPath(adj: Adjacency, S: set<nat>, u: nat, p: seq<nat>, v: nat)
    requires WellFormed(adj)
    requires forall x, y :: x in S && Edge(adj, x, y) ==> y in S
    requires u in S && IsPath(adj, u, p, v)
    ensures v in S
    decreases |p|
  {
    if |p| > 1 {
      assert Edge(adj, p[0], p[1]);
      var q := p[1..];
      forall i | 0 <= i < |q| - 1
        ensures Edge(adj, q[i], q[i + 1])
      {
        assert Edge(adj, p[i + 1], p[i + 2]);
      }
      EdgeInRange(adj, p[0], p[1]);
      assert IsPath(adj, p[1], q, v);
      ClosedUnderPath(adj, S, p[1], q, v);
    }
  }

  lemma ClosedUnderReach(adj: Adjacency, S: set<nat>, u: nat, v: nat)
    requires WellFormed(adj)
    requires forall x, y :: x in S && Edge(adj, x, y) ==> y in S
    requires u in S && Reach(adj, u, v)
    ensures v in S
  {
    var p :| IsPath(adj, u, p, v);
    ClosedUnderPath(adj, S, u, p, v);
  }
}
