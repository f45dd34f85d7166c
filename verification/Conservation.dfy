/** Conservation laws of the dependencies of one source. */
module Conservation {
  import opened Digraph
  import opened Sums
  import opened Sorting
  import opened Walks
  import opened ShortestPaths

  function Indicator(b: bool): real {
    if b then 1.0 else 0.0
  }

  function AtLevel(adj: Adjacency, s: nat, dist: seq<int>, level: nat): (nat, nat) -> real {
    (v: nat, t: nat) => if v < |dist| && dist[v] == level then PairDep(adj, s, dist, v)(t) else 0.0
  }

  function LevelDep(adj: Adjacency, s: nat, dist: seq<int>, level: nat): nat -> real {
    (v: nat) => if v < |dist| && dist[v] == level then Dep(adj, s, dist, v) else 0.0
  }

  function Deeper(dist: seq<int>, level: nat): nat -> real {
    (t: nat) => Indicator(t < |dist| && dist[t] > level)
  }

  /** The part of the walks from s to t that pass through v after `level` steps. */
  lemma LevelTerm(adj: Adjacency, s: nat, dist: seq<int>, level: nat, v: nat, t: nat)
    requires DistOk(adj, s, dist) && v < |adj| && t < |adj|
    ensures dist[t] > level ==>
              AtLevel(adj, s, dist, level)(v, t) == Inv(adj, s, dist, t) * Via(adj, level, dist[t] - level, s, t)(v)
    ensures dist[t] <= level ==> AtLevel(adj, s, dist, level)(v, t) == 0.0
  {
    hide W, HasPred, Inv;
    var part := PairDep(adj, s, dist, v);
    assert AtLevel(adj, s, dist, level)(v, t) == if dist[v] == level then part(t) else 0.0;
    assert part(t) == if 0 <= dist[v] < dist[t] then W(adj, dist[v], s, v) * (W(adj, dist[t] - dist[v], v, t) * Inv(adj, s, dist, t)) else 0.0;
    if dist[t] > level {
      var a, b := W(adj, level, s, v), W(adj, dist[t] - level, v, t);
      assert Via(adj, level, dist[t] - level, s, t)(v) == a * b;
      if dist[v] == level {
        MulRotate(a, b, Inv(adj, s, dist, t));
      } else {
        WNonNeg(adj, level, s, v);
        WNonNeg(adj, dist[t] - level, v, t);
        if a > 0.0 && b > 0.0 {
          WalkRaises(adj, s, dist, level, s, v);
          WalkRaises(adj, s, dist, dist[t] - level, v, t);
        }
        assert a == 0.0 || b == 0.0;
      }
    }
  }

  /** Every shortest walk to a target deeper than a level crosses that level once. */
  lemma CrossesLevelOnce(adj: Adjacency, s: nat, dist: seq<int>, level: nat, t: nat)
    requires DistOk(adj, s, dist) && t < |adj|
    ensures Sum(|adj|, Col(AtLevel(adj, s, dist, level), t)) == Indicator(dist[t] > level)
  {
    hide W, HasPred, Inv, AtLevel, Via, Sum;
    var col := Col(AtLevel(adj, s, dist, level), t);
    if dist[t] > level {
      forall v: nat | v < |adj|
        ensures col(v) == Inv(adj, s, dist, t) * Via(adj, level, dist[t] - level, s, t)(v)
      {
        LevelTerm(adj, s, dist, level, v, t);
      }
      SumTimes(|adj|, Inv(adj, s, dist, t), Via(adj, level, dist[t] - level, s, t), col);
      WalksCompose(adj, level, dist[t] - level, s, t);
      InvCancels(adj, s, dist, t);
    } else {
      forall v: nat | v < |adj|
        ensures col(v) == 0.0
      {
        LevelTerm(adj, s, dist, level, v, t);
      }
      SumZero(|adj|, col);
    }
  }

  /** The dependencies of the nodes of a level add up to the number of nodes deeper than it. */
  lemma LevelConservation(adj: Adjacency, s: nat, dist: seq<int>, level: nat)
    requires DistOk(adj, s, dist)
    ensures Sum(|adj|, LevelDep(adj, s, dist, level)) == Sum(|adj|, Deeper(dist, level))
  {
    hide W, HasPred, PairDep, Sum;
    var F := AtLevel(adj, s, dist, level);
    forall v: nat | v < |adj|
      ensures LevelDep(adj, s, dist, level)(v) == Sum(|adj|, Row(F, v))
    {
      if dist[v] == level {
        SumCongr(|adj|, PairDep(adj, s, dist, v), Row(F, v));
      } else {
        SumZero(|adj|, Row(F, v));
      }
    }
    forall t: nat | t < |adj|
      ensures Deeper(dist, level)(t) == Sum(|adj|, Col(F, t))
    {
      CrossesLevelOnce(adj, s, dist, level, t);
    }
    SumSwap(|adj|, |adj|, F, LevelDep(adj, s, dist, level), Deeper(dist, level));
  }

  /** The dependency of the source is the number of other nodes it reaches. */
  lemma SourceDependency(adj: Adjacency, s: nat, dist: seq<int>)
    requires DistOk(adj, s, dist)
    ensures Dep(adj, s, dist, s) == Sum(|adj|, Deeper(dist, 0))
  {
    hide W, HasPred, Sum, Dep;
    LevelConservation(adj, s, dist, 0);
    SumOnly(|adj|, LevelDep(adj, s, dist, 0), s);
  }

  function InnerDep(adj: Adjacency, s: nat, dist: seq<int>): nat -> real {
    (v: nat) => if v < |dist| && dist[v] >= 1 then Dep(adj, s, dist, v) else 0.0
  }

  function InnerNodes(dist: seq<int>): nat -> real {
    (t: nat) => if t < |dist| && dist[t] >= 1 then (dist[t] - 1) as real else 0.0
  }

  function ByLevel(adj: Adjacency, s: nat, dist: seq<int>): (nat, nat) -> real {
    (v: nat, l: nat) => LevelDep(adj, s, dist, l + 1)(v)
  }

  function DeeperByLevel(dist: seq<int>): (nat, nat) -> real {
    (l: nat, t: nat) => Deeper(dist, l + 1)(t)
  }

  lemma {:induction false} CountLevels(dist: seq<int>, t: nat, far: nat, n: nat)
    requires t < |dist| && dist[t] <= far + 1 && n <= far
    ensures Sum(n, Col(DeeperByLevel(dist), t)) ==
            if dist[t] < 1 then 0.0 else if dist[t] - 1 <= n then (dist[t] - 1) as real else n as real
    decreases n
  {
    if n > 0 {
      CountLevels(dist, t, far, n - 1);
      assert Col(DeeperByLevel(dist), t)(n - 1) == DeeperByLevel(dist)(n - 1, t);
      assert DeeperByLevel(dist)(n - 1, t) == Deeper(dist, n)(t);
    }
  }

  lemma OneLevel(adj: Adjacency, s: nat, dist: seq<int>, v: nat, far: nat)
    requires v < |adj| == |dist| && dist[v] <= far
    ensures InnerDep(adj, s, dist)(v) == Sum(far, Row(ByLevel(adj, s, dist), v))
  {
    hide Sum, Dep;
    var row := Row(ByLevel(adj, s, dist), v);
    forall l: nat | l < far
      ensures row(l) == if dist[v] == l + 1 then Dep(adj, s, dist, v) else 0.0
    {
      assert row(l) == ByLevel(adj, s, dist)(v, l);
      assert ByLevel(adj, s, dist)(v, l) == LevelDep(adj, s, dist, l + 1)(v);
    }
    if dist[v] >= 1 {
      SumOnly(far, row, dist[v] - 1);
    } else {
      SumZero(far, row);
    }
  }

  lemma DeeperRow(adj: Adjacency, dist: seq<int>, l: nat)
    ensures Sum(|adj|, Deeper(dist, l + 1)) == Sum(|adj|, Row(DeeperByLevel(dist), l))
  {
    hide Sum;
    var row := Row(DeeperByLevel(dist), l);
    forall t: nat | t < |adj|
      ensures Deeper(dist, l + 1)(t) == row(t)
    {
      assert row(t) == DeeperByLevel(dist)(l, t);
    }
    SumCongr(|adj|, Deeper(dist, l + 1), row);
  }

  lemma ByLevelCol(adj: Adjacency, s: nat, dist: seq<int>, l: nat)
    ensures Sum(|adj|, LevelDep(adj, s, dist, l + 1)) == Sum(|adj|, Col(ByLevel(adj, s, dist), l))
  {
    hide Sum, Dep;
    var col := Col(ByLevel(adj, s, dist), l);
    forall v: nat | v < |adj|
      ensures LevelDep(adj, s, dist, l + 1)(v) == col(v)
    {
      assert col(v) == ByLevel(adj, s, dist)(v, l);
    }
    SumCongr(|adj|, LevelDep(adj, s, dist, l + 1), col);
  }

  /** What one source adds to the betweenness of all nodes together: for each target it reaches,
      the number of inner nodes of a shortest path. */
  lemma TotalConservation(adj: Adjacency, s: nat, dist: seq<int>, far: nat)
    requires DistOk(adj, s, dist) && forall x: nat :: x < |adj| ==> dist[x] <= far
    ensures Sum(|adj|, InnerDep(adj, s, dist)) == Sum(|adj|, InnerNodes(dist))
  {
    hide W, HasPred, Sum, Dep, LevelDep, ByLevel, InnerDep, Row, Col;
    var F, G := ByLevel(adj, s, dist), DeeperByLevel(dist);
    var levels := (l: nat) => Sum(|adj|, Deeper(dist, l + 1));
    forall v: nat | v < |adj|
      ensures InnerDep(adj, s, dist)(v) == Sum(far, Row(F, v))
    {
      OneLevel(adj, s, dist, v, far);
    }
    forall l: nat | l < far
      ensures levels(l) == Sum(|adj|, Col(F, l))
    {
      LevelConservation(adj, s, dist, l + 1);
      ByLevelCol(adj, s, dist, l);
    }
    SumSwap(|adj|, far, F, InnerDep(adj, s, dist), levels);
    forall l: nat | l < far
      ensures levels(l) == Sum(|adj|, Row(G, l))
    {
      DeeperRow(adj, dist, l);
    }
    forall t: nat | t < |adj|
      ensures InnerNodes(dist)(t) == Sum(far, Col(G, t))
    {
      CountLevels(dist, t, far, far);
    }
    SumSwap(far, |adj|, G, levels, InnerNodes(dist));
  }

  function DeltaAtLevel(dist: seq<int>, delta: seq<real>, level: nat): nat -> real {
    (v: nat) => if v < |dist| && v < |delta| && dist[v] == level then delta[v] else 0.0
  }

  function InnerDelta(dist: seq<int>, delta: seq<real>): nat -> real {
    (v: nat) => if v < |dist| && v < |delta| && dist[v] >= 1 then delta[v] else 0.0
  }

  /** The conservation laws for every array that meets the recurrence of the accumulation. */
  lemma DeltaConservation(adj: Adjacency, s: nat, dist: seq<int>, sigma: seq<int>, delta: seq<real>, level: nat)
    requires DistOk(adj, s, dist) && SigmaOk(adj, s, dist, sigma) && DeltaOk(adj, dist, sigma, delta)
    ensures Sum(|adj|, DeltaAtLevel(dist, delta, level)) == Sum(|adj|, Deeper(dist, level))
    ensures delta[s] == Sum(|adj|, Deeper(dist, 0))
    ensures Sum(|adj|, InnerDelta(dist, delta)) == Sum(|adj|, InnerNodes(dist))
  {
    hide HasPred, Sum, Dep, SigmaOk;
    var far := FarthestOf(dist, |dist|);
    LevelConservation(adj, s, dist, level);
    SourceDependency(adj, s, dist);
    TotalConservation(adj, s, dist, far);
    forall v: nat | v < |adj|
      ensures DeltaAtLevel(dist, delta, level)(v) == LevelDep(adj, s, dist, level)(v)
      ensures InnerDelta(dist, delta)(v) == InnerDep(adj, s, dist)(v)
    {
      if dist[v] >= 0 { DeltaIsDep(adj, s, dist, sigma, delta, far, v); }
    }
    DeltaIsDep(adj, s, dist, sigma, delta, far, s);
    SumCongr(|adj|, DeltaAtLevel(dist, delta, level), LevelDep(adj, s, dist, level));
    SumCongr(|adj|, InnerDelta(dist, delta), InnerDep(adj, s, dist));
  }

  // ---- In terms of the definitions -------------------------------------------------------

  ghost function Distances(adj: Adjacency, s: nat): seq<int> {
    seq(|adj|, x requires 0 <= x < |adj| => Distance(adj, s, x))
  }

  lemma DistanceIff(adj: Adjacency, s: nat, x: nat, k: nat)
    requires Simple(adj) && s < |adj| && W(adj, k, s, x) > 0.0
    ensures 0 <= Distance(adj, s, x) <= k && W(adj, Distance(adj, s, x), s, x) > 0.0
  {
    hide W, Paths, Simple;
    PathsNonEmpty(adj, k, s, x);
    assert HasPath(adj, s, x);
    PathsNonEmpty(adj, Distance(adj, s, x), s, x);
  }

  lemma DistanceToSource(adj: Adjacency, s: nat, x: nat)
    requires Simple(adj) && s < |adj|
    ensures Distance(adj, s, x) == 0 <==> x == s
  {
    hide Paths, Simple;
    if x == s {
      assert W(adj, 0, s, s) == 1.0;
      DistanceIff(adj, s, s, 0);
    }
    if Distance(adj, s, x) == 0 {
      PathsNonEmpty(adj, 0, s, x);
    }
  }

  lemma ReachedHasWalk(adj: Adjacency, s: nat, x: nat)
    requires Simple(adj) && s < |adj| && Distance(adj, s, x) >= 0
    ensures W(adj, Distance(adj, s, x), s, x) > 0.0
  {
    hide W, Paths, Simple;
    PathsNonEmpty(adj, Distance(adj, s, x), s, x);
  }

  lemma DistanceAlongEdge(adj: Adjacency, s: nat, v: nat, w: nat)
    requires Simple(adj) && s < |adj| && v < |adj| && w < |adj| && Edge(adj, v, w) && Distance(adj, s, v) >= 0
    ensures 0 <= Distance(adj, s, w) <= Distance(adj, s, v) + 1
  {
    hide W, Paths, Simple, Distance;
    ReachedHasWalk(adj, s, v);
    ExtendWalk(adj, Distance(adj, s, v), s, v, w);
    DistanceIff(adj, s, w, Distance(adj, s, v) + 1);
  }

  /** A node at a positive distance has a predecessor one step closer. */
  lemma CloserPredecessor(adj: Adjacency, s: nat, x: nat) returns (v: nat)
    requires Simple(adj) && s < |adj| && x < |adj| && Distance(adj, s, x) > 0
    ensures v < |adj| && Edge(adj, v, x) && Distance(adj, s, v) == Distance(adj, s, x) - 1
  {
    hide W, A, Sum, Paths, Simple, Distance, Edge;
    var k := Distance(adj, s, x) - 1;
    ReachedHasWalk(adj, s, x);
    WalksLast(adj, k, s, x);
    forall i: nat | i < |adj|
      ensures LastStep(adj, k, s, x)(i) >= 0.0
    {
      LastStepNonNeg(adj, k, s, x, i);
    }
    v := SumPositiveTerm(|adj|, LastStep(adj, k, s, x));
    WNonNeg(adj, k, s, v);
    EdgeIffPositive(adj, v, x);
    MulNonNeg(W(adj, k, s, v), A(adj, v, x));
    DistanceIff(adj, s, v, k);
    DistanceAlongEdge(adj, s, v, x);
  }

  /** The distances as defined satisfy the local conditions. */
  lemma DistancesOk(adj: Adjacency, s: nat)
    requires Simple(adj) && s < |adj|
    ensures DistOk(adj, s, Distances(adj, s))
  {
    hide Distinct;
    var dist := Distances(adj, s);
    hide Distance, Edge;
    DistanceToSource(adj, s, s);
    forall x | 0 <= x < |adj|
      ensures dist[x] >= -1 && (dist[x] == 0 ==> x == s)
    {
      DistanceToSource(adj, s, x);
      DistanceBound(adj, s, x);
    }
    forall v: nat, w: nat | v < |adj| && w < |adj| && Edge(adj, v, w) && dist[v] >= 0
      ensures 0 <= dist[w] <= dist[v] + 1
    {
      DistanceAlongEdge(adj, s, v, w);
    }
    forall x: nat | x < |adj| && dist[x] > 0
      ensures HasPred(adj, dist, x)
    {
      var v := CloserPredecessor(adj, s, x);
      assert dist[v] == dist[x] - 1;
    }
  }

  lemma DistanceBound(adj: Adjacency, s: nat, x: nat)
    ensures Distance(adj, s, x) >= -1
  {
  }

  ghost function DependencyAtLevel(adj: Adjacency, s: nat, level: nat): nat -> real {
    (v: nat) => if Distance(adj, s, v) == level then Dependency(adj, s, v) else 0.0
  }

  ghost function NodesBeyond(adj: Adjacency, s: nat, level: nat): nat -> real {
    (t: nat) => Indicator(Distance(adj, s, t) > level)
  }

  /** The dependencies of s on the nodes at a distance add up to the number of nodes farther away. */
  lemma DependenciesPerLevel(adj: Adjacency, s: nat, level: nat)
    requires Simple(adj) && s < |adj|
    ensures Sum(|adj|, DependencyAtLevel(adj, s, level)) == Sum(|adj|, NodesBeyond(adj, s, level))
  {
    hide Distance, Dependency, Sum, DistOk, Dep, Simple;
    var dist := Distances(adj, s);
    DistancesOk(adj, s);
    LevelConservation(adj, s, dist, level);
    forall v: nat | v < |adj|
      ensures DependencyAtLevel(adj, s, level)(v) == LevelDep(adj, s, dist, level)(v)
      ensures NodesBeyond(adj, s, level)(v) == Deeper(dist, level)(v)
    {
      if dist[v] == level { DepIsDependency(adj, s, dist, v); }
    }
    SumCongr(|adj|, DependencyAtLevel(adj, s, level), LevelDep(adj, s, dist, level));
    SumCongr(|adj|, NodesBeyond(adj, s, level), Deeper(dist, level));
  }

  ghost function AddedBy(adj: Adjacency, s: nat): nat -> real {
    (v: nat) => Added(adj, s, v)
  }

  ghost function InnerNodesTo(adj: Adjacency, s: nat): nat -> real {
    (t: nat) => if Distance(adj, s, t) >= 1 then (Distance(adj, s, t) - 1) as real else 0.0
  }

  /** Main result on conservation: a source adds to the betweenness of all nodes together, for each
      other node it reaches, the number of inner nodes of a shortest path there. */
  lemma AddedInTotal(adj: Adjacency, s: nat)
    requires Simple(adj) && s < |adj|
    ensures Sum(|adj|, AddedBy(adj, s)) == Sum(|adj|, InnerNodesTo(adj, s))
  {
    hide Distance, Dependency, Sum, DistOk, Dep, Simple;
    var dist := Distances(adj, s);
    DistancesOk(adj, s);
    var far := FarthestOf(dist, |dist|);
    TotalConservation(adj, s, dist, far);
    forall v: nat | v < |adj|
      ensures AddedBy(adj, s)(v) == InnerDep(adj, s, dist)(v)
      ensures InnerNodesTo(adj, s)(v) == InnerNodes(dist)(v)
    {
      DistanceToSource(adj, s, v);
      DistanceBound(adj, s, v);
      if dist[v] >= 0 {
        DepIsDependency(adj, s, dist, v);
      } else {
        UnreachedNoDependency(adj, s, dist, v);
      }
    }
    SumCongr(|adj|, AddedBy(adj, s), InnerDep(adj, s, dist));
    SumCongr(|adj|, InnerNodesTo(adj, s), InnerNodes(dist));
  }

  lemma {:induction false} FarthestOf(dist: seq<int>, n: nat) returns (far: nat)
    requires n <= |dist|
    ensures forall x: nat :: x < n ==> dist[x] <= far
  {
    if n == 0 {
      far := 0;
    } else {
      far := FarthestOf(dist, n - 1);
      if far < dist[n - 1] { far := dist[n - 1]; }
    }
  }
}
