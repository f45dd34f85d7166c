/** What PageRank computes, in terms of the weights of the graph. */
module GraphWalk {
  import opened Digraph
  import opened Sums
  import opened Sorting
  import opened GraphModel
  import opened RandomWalk
  import opened PageRank

  // ---- On a loaded graph -----------------------------------------------------------------

  /** What the first n nodes pass on to v in one sweep: along edges, the share of the weight u -> v in all that leaves
      u; from a node that nothing leaves, the share of v in the restart distribution. */
  ghost function Arrived(g: Graph, p: seq<real>, x: seq<real>, v: nat, n: nat): real
    requires g.Valid() && n <= |g.adj| == |x| == |p| && v < |p|
    reads g
  {
    if n == 0 then 0.0
    else
      var out := Total(g.adjW[n - 1]);
      Arrived(g, p, x, v, n - 1) + if out > 0.0 then x[n - 1] * (g.Weight(n - 1, v) / out) else x[n - 1] * p[v]
  }

  /** One sweep of PageRank on the graph. */
  ghost predicate GraphSweep(g: Graph, p: seq<real>, d: real, x: seq<real>, y: seq<real>)
    requires g.Valid()
    reads g
  {
    && |x| == |y| == |p| == |g.adj|
    && forall v: nat :: v < |y| ==> y[v] == (1.0 - d) * p[v] + d * Arrived(g, p, x, v, |g.adj|)
  }

  ghost predicate Sweeps(g: Graph, p: seq<real>, d: real, xs: seq<seq<real>>)
    requires g.Valid()
    reads g
  {
    forall j, k :: 0 <= j < k < |xs| && k == j + 1 ==> GraphSweep(g, p, d, xs[j], xs[k])
  }

  /** The vectors of a run: all equal at first, then one sweep each until one changes the vector by less than eps, or
      until the sweeps are used up. */
  ghost predicate IsPageRankRun(g: Graph, p: seq<real>, d: real, eps: real, maxIter: int, xs: seq<seq<real>>)
    requires g.Valid()
    reads g
  {
    && xs != [] && |xs[0]| == |g.adj|
    && (forall v :: 0 <= v < |xs[0]| ==> xs[0][v] == 1.0 / |g.adj| as real)
    && Sweeps(g, p, d, xs)
    && (|xs| - 1 <= maxIter || |xs| == 1)
    && (forall j, k :: 0 <= j < k < |xs| - 1 && k == j + 1 ==> L1(xs[k], xs[j]) >= eps)
    && (|xs| - 1 < maxIter ==> |xs| > 1 && L1(xs[|xs| - 1], xs[|xs| - 2]) < eps)
  }

  /** The walk and the graph read the same weight for an edge. */
  lemma SameWeight(g: Graph, w: Walk, u: nat, i: nat)
    requires w.adj == g.adj && w.adjW == g.adjW && u < |g.adj| && i < |g.adj[u]|
    ensures w.WeightOf(u, i) == g.EdgeWeight(u, i)
  {
  }

  lemma RowWeight(g: Graph, w: Walk, u: nat, v: nat)
    requires g.Valid() && w.adj == g.adj && w.adjW == g.adjW && u < |g.adj| && v < |g.adj|
    ensures w.RowPart(u, |g.adj[u]|, v) == g.Weight(u, v)
  {
    g.NoParallelEdges(u);
    KeyOfEdge(g.adj, g.edgePos, u, v);
    hide IndexOk, TransposeOk, Bijection;
    if EdgeKey(u, v) in g.edgePos {
      OnceInRow(w, u, |g.adj[u]|, g.edgePos[EdgeKey(u, v)]);
    } else {
      assert g.adj[u][..|g.adj[u]|] == g.adj[u];
      NotInRow(w, u, |g.adj[u]|, v);
    }
  }

  lemma FlowTerm(g: Graph, w: Walk, x: seq<real>, v: nat, u: nat)
    requires g.Valid() && w.adj == g.adj && w.adjW == g.adjW && |w.p| == |x| == |g.adj| && v < |g.adj| && u < |g.adj|
    ensures w.Flow(x, v)(u) ==
            if Total(g.adjW[u]) > 0.0 then x[u] * (g.Weight(u, v) / Total(g.adjW[u])) else x[u] * w.p[v]
  {
    hide IndexOk, TransposeOk, Bijection;
    RowWeight(g, w, u, v);
    OutIsTotal(w, u);
  }

  lemma {:induction false} FlowIsArrived(g: Graph, w: Walk, x: seq<real>, v: nat, n: nat)
    requires g.Valid() && w.adj == g.adj && w.adjW == g.adjW && |w.p| == |x| == |g.adj| && v < |g.adj| && n <= |g.adj|
    ensures Sum(n, w.Flow(x, v)) == Arrived(g, w.p, x, v, n)
  {
    hide IndexOk, TransposeOk, Bijection, Walk.Flow, Total;
    if n > 0 {
      FlowIsArrived(g, w, x, v, n - 1);
      FlowTerm(g, w, x, v, n - 1);
    }
  }

  lemma StepIsSweep(g: Graph, w: Walk, x: seq<real>)
    requires g.Valid() && w.adj == g.adj && w.adjW == g.adjW && |w.p| == |x| == |g.adj|
    ensures GraphSweep(g, w.p, w.d, x, w.Step(x))
  {
    hide IndexOk, TransposeOk, Bijection, Sum, Arrived, Walk.Flow;
    forall v: nat | v < |g.adj|
      ensures w.Step(x)[v] == (1.0 - w.d) * w.p[v] + w.d * Arrived(g, w.p, x, v, |g.adj|)
    {
      FlowIsArrived(g, w, x, v, |g.adj|);
    }
  }

  ghost function Vectors(w: Walk, k: nat): (xs: seq<seq<real>>)
    ensures |xs| == k + 1 && forall j: nat :: j <= k ==> xs[j] == w.Iterate(Uniform(w.N()), j)
  {
    seq(k + 1, j requires 0 <= j <= k => w.Iterate(Uniform(w.N()), j))
  }

  lemma VectorsSweep(g: Graph, w: Walk, k: nat)
    requires g.Valid() && w.adj == g.adj && w.adjW == g.adjW && |w.p| == |g.adj|
    ensures Sweeps(g, w.p, w.d, Vectors(w, k))
  {
    hide Graph.Valid, GraphSweep, Uniform;
    var xs, x := Vectors(w, k), Uniform(w.N());
    assert |x| == w.N() by { UniformLength(w.N()); }
    forall i: nat, j: nat | i < j < |xs| && j == i + 1
      ensures GraphSweep(g, w.p, w.d, xs[i], xs[j])
    {
      IterateSize(w, x, i);
      StepIsSweep(g, w, xs[i]);
      IterateNext(w, x, i);
    }
  }

  lemma UniformLength(n: nat)
    ensures |Uniform(n)| == n && forall v :: 0 <= v < n ==> Uniform(n)[v] == 1.0 / n as real
  {
  }

  /** Main result on weights: the vectors of the walk are a run of PageRank on the graph with its edge weights. */
  lemma WalkIsRun(g: Graph, w: Walk, eps: real, maxIter: int, k: nat)
    requires g.Valid() && w.adj == g.adj && w.adj != [] && w.adjW == g.adjW && |w.p| == |g.adj|
    requires StopsAt(w, Uniform(w.N()), eps, maxIter, k)
    ensures IsPageRankRun(g, w.p, w.d, eps, maxIter, Vectors(w, k))
  {
    hide L1, Graph.Valid, Sweeps, Uniform;
    var xs, x := Vectors(w, k), Uniform(w.N());
    UniformLength(w.N());
    VectorsSweep(g, w, k);
    forall i: nat, j: nat | i < j < |xs| && j == i + 1
      ensures L1(xs[j], xs[i]) == Change(w, x, j)
    {
    }
  }
}
