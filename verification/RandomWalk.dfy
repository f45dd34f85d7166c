/** The random walk behind PageRank, as the header comment of PageRank::compute defines it, and the
    laws of its power iteration. */
module RandomWalk {
  import opened Digraph
  import opened Sums
  import opened Sorting

  /** The weight of adj[u][i]; 1 on a graph whose weights were never filled in. */
  function WeightAt(adj: Adjacency, adjW: seq<seq<real>>, u: nat, i: nat): real
    requires u < |adj| && i < |adj[u]|
  {
    if u >= |adjW| || |adjW[u]| != |adj[u]| then 1.0 else adjW[u][i]
  }

  /** A walk: a weighted graph, a restart distribution p and a damping factor d. */
  datatype Walk = Walk(adj: Adjacency, adjW: seq<seq<real>>, p: seq<real>, d: real) {
    function N(): nat { |adj| }

    function WeightOf(u: nat, i: nat): real {
      if u < |adj| && i < |adj[u]| then WeightAt(adj, adjW, u, i) else 0.0
    }

    /** The weight of the first n edges of u. */
    function OutPart(u: nat, n: nat): real {
      if n == 0 then 0.0 else OutPart(u, n - 1) + WeightOf(u, n - 1)
    }

    function Out(u: nat): real {
      if u < |adj| then OutPart(u, |adj[u]|) else 0.0
    }

    /** The weight that the first n edges of u send to v. */
    function RowPart(u: nat, n: nat, v: nat): real {
      if n == 0 then 0.0
      else RowPart(u, n - 1, v) + if u < |adj| && n <= |adj[u]| && adj[u][n - 1] == v then WeightOf(u, n - 1) else 0.0
    }

    function P(v: nat): real {
      if v < |p| then p[v] else 0.0
    }

    /** The probability of a step from u to v: along an edge, or by restart where there is none. */
    function M(u: nat, v: nat): real {
      if u < |adj| && Out(u) > 0.0 then RowPart(u, |adj[u]|, v) / Out(u) else P(v)
    }

    function Flow(x: seq<real>, v: nat): nat -> real {
      (u: nat) => if u < |x| then x[u] * M(u, v) else 0.0
    }

    function Next(x: seq<real>, v: nat): real {
      (1.0 - d) * P(v) + d * Sum(|adj|, Flow(x, v))
    }

    /** One sweep of the power iteration. */
    function Step(x: seq<real>): seq<real> {
      seq(|adj|, v requires 0 <= v < |adj| => Next(x, v))
    }

    function Iterate(x: seq<real>, k: nat): seq<real> {
      if k == 0 then x else Step(Iterate(x, k - 1))
    }

    ghost predicate Valid() {
      && WellFormed(adj) && |p| == |adj| && 0.0 <= d < 1.0
      && (forall u: nat, i: nat :: u < |adj| && i < |adj[u]| ==> WeightOf(u, i) >= 0.0)
      && (forall v :: 0 <= v < |p| ==> p[v] >= 0.0)
    }
  }

  function Entry(x: seq<real>): nat -> real {
    (i: nat) => if i < |x| then x[i] else 0.0
  }

  function Mass(x: seq<real>): real {
    Sum(|x|, Entry(x))
  }

  ghost predicate NonNeg(x: seq<real>) {
    forall i :: 0 <= i < |x| ==> x[i] >= 0.0
  }

  // ---- Rows of the transition matrix -----------------------------------------------------

  lemma {:induction false} OutNonNeg(w: Walk, u: nat, n: nat)
    requires w.Valid()
    ensures w.OutPart(u, n) >= 0.0
  {
    if n > 0 { OutNonNeg(w, u, n - 1); }
  }

  lemma {:induction false} RowNonNeg(w: Walk, u: nat, n: nat, v: nat)
    requires w.Valid()
    ensures w.RowPart(u, n, v) >= 0.0
  {
    if n > 0 { RowNonNeg(w, u, n - 1, v); }
  }

  function RowFun(w: Walk, u: nat, n: nat): nat -> real {
    (v: nat) => w.RowPart(u, n, v)
  }

  lemma {:induction false} RowPartSum(w: Walk, u: nat, n: nat)
    requires w.Valid() && u < w.N() && n <= |w.adj[u]|
    ensures Sum(w.N(), RowFun(w, u, n)) == w.OutPart(u, n)
  {
    if n == 0 {
      SumZero(w.N(), RowFun(w, u, 0));
    } else {
      RowPartSum(w, u, n - 1);
      SumChange(w.N(), RowFun(w, u, n - 1), RowFun(w, u, n), w.adj[u][n - 1]);
    }
  }

  lemma MNonNeg(w: Walk, u: nat, v: nat)
    requires w.Valid()
    ensures w.M(u, v) >= 0.0
  {
    if u < w.N() && w.Out(u) > 0.0 {
      RowNonNeg(w, u, |w.adj[u]|, v);
      DivNonNeg(w.RowPart(u, |w.adj[u]|, v), w.Out(u));
    }
  }

  function MRow(w: Walk, u: nat): nat -> real {
    (v: nat) => w.M(u, v)
  }

  /** The mass that leaves u: all of it along edges, and that of p where u has no way out. */
  function RowSum(w: Walk, u: nat): real {
    if w.Out(u) > 0.0 then 1.0 else Mass(w.p)
  }

  lemma MRowAt(w: Walk, u: nat, v: nat)
    requires u < w.N() && w.Out(u) > 0.0
    ensures MRow(w, u)(v) == 1.0 / w.Out(u) * RowFun(w, u, |w.adj[u]|)(v)
  {
    DivIsTimes(w.RowPart(u, |w.adj[u]|, v), w.Out(u));
  }

  lemma MRowSum(w: Walk, u: nat)
    requires w.Valid() && u < w.N()
    ensures Sum(w.N(), MRow(w, u)) == RowSum(w, u)
  {
    hide Sum, RowFun;
    if w.Out(u) > 0.0 {
      var n := |w.adj[u]|;
      RowPartSum(w, u, n);
      forall v: nat | v < w.N()
        ensures MRow(w, u)(v) == 1.0 / w.Out(u) * RowFun(w, u, n)(v)
      {
        MRowAt(w, u, v);
      }
      hide MRow;
      SumTimes(w.N(), 1.0 / w.Out(u), RowFun(w, u, n), MRow(w, u));
      DivIsTimes(1.0, w.Out(u));
    } else {
      SumCongr(w.N(), MRow(w, u), Entry(w.p));
    }
  }

  lemma DivIsTimes(a: real, b: real)
    requires b != 0.0
    ensures a / b == 1.0 / b * a && 1.0 / b * b == 1.0
  {
  }

  // ---- The weights of the edges ----------------------------------------------------------

  /** Where the weights fit the edges, what leaves a node is their sum. */
  lemma {:induction false} OutPartIsTotal(w: Walk, u: nat, n: nat)
    requires u < |w.adj| && u < |w.adjW| && |w.adjW[u]| == |w.adj[u]| && n <= |w.adj[u]|
    ensures w.OutPart(u, n) == Total(w.adjW[u][..n])
  {
    if n > 0 {
      OutPartIsTotal(w, u, n - 1);
      assert w.adjW[u][..n][..n - 1] == w.adjW[u][..n - 1];
    }
  }

  lemma OutIsTotal(w: Walk, u: nat)
    requires u < |w.adj| && u < |w.adjW| && |w.adjW[u]| == |w.adj[u]|
    ensures w.Out(u) == Total(w.adjW[u])
  {
    OutPartIsTotal(w, u, |w.adj[u]|);
    assert w.adjW[u][..|w.adj[u]|] == w.adjW[u];
  }

  /** A row without weights counts 1 for each edge. */
  lemma {:induction false} OutPartIsNumber(w: Walk, u: nat, n: nat)
    requires u < |w.adj| && (u >= |w.adjW| || |w.adjW[u]| != |w.adj[u]|) && n <= |w.adj[u]|
    ensures w.OutPart(u, n) == n as real
  {
    if n > 0 { OutPartIsNumber(w, u, n - 1); }
  }

  lemma {:induction false} NotInRow(w: Walk, u: nat, n: nat, v: nat)
    requires u < |w.adj| && n <= |w.adj[u]| && v !in w.adj[u][..n]
    ensures w.RowPart(u, n, v) == 0.0
  {
    if n > 0 {
      assert w.adj[u][n - 1] in w.adj[u][..n];
      assert w.adj[u][..n - 1] <= w.adj[u][..n];
      NotInRow(w, u, n - 1, v);
    }
  }

  /** In a row without repetitions only one edge sends to a node. */
  lemma {:induction false} OnceInRow(w: Walk, u: nat, n: nat, i: nat)
    requires u < |w.adj| && i < n <= |w.adj[u]| && Distinct(w.adj[u])
    ensures w.RowPart(u, n, w.adj[u][i]) == w.WeightOf(u, i)
  {
    if i == n - 1 {
      NotInRow(w, u, n - 1, w.adj[u][i]);
    } else {
      OnceInRow(w, u, n - 1, i);
    }
  }

  /** The probability of a step along edge i of u: its weight by the sum of all out of u, and an equal share where the row
      has no weights. */
  lemma EdgeShare(w: Walk, u: nat, i: nat)
    requires u < |w.adj| && i < |w.adj[u]| && Distinct(w.adj[u])
    ensures u < |w.adjW| && |w.adjW[u]| == |w.adj[u]| && Total(w.adjW[u]) > 0.0 ==>
      w.M(u, w.adj[u][i]) == w.adjW[u][i] / Total(w.adjW[u])
    ensures u >= |w.adjW| || |w.adjW[u]| != |w.adj[u]| ==> w.M(u, w.adj[u][i]) == 1.0 / |w.adj[u]| as real
  {
    OnceInRow(w, u, |w.adj[u]|, i);
    if u < |w.adjW| && |w.adjW[u]| == |w.adj[u]| {
      OutIsTotal(w, u);
    } else {
      OutPartIsNumber(w, u, |w.adj[u]|);
    }
  }

  /** The steps of the walk follow the weights of the edges. */
  ghost predicate FollowsWeights(w: Walk) {
    forall u: nat, i: nat :: u < |w.adj| && i < |w.adj[u]| && Distinct(w.adj[u]) ==> HasEdgeShare(w, u, i)
  }

  ghost predicate HasEdgeShare(w: Walk, u: nat, i: nat)
    requires u < |w.adj| && i < |w.adj[u]|
  {
    if u < |w.adjW| && |w.adjW[u]| == |w.adj[u]|
    then Total(w.adjW[u]) > 0.0 ==> w.M(u, w.adj[u][i]) == w.adjW[u][i] / Total(w.adjW[u])
    else w.M(u, w.adj[u][i]) == 1.0 / |w.adj[u]| as real
  }

  lemma StepsFollowWeights(w: Walk)
    ensures FollowsWeights(w)
  {
    hide Walk.M, Total, Distinct;
    forall u: nat, i: nat | u < |w.adj| && i < |w.adj[u]| && Distinct(w.adj[u])
      ensures HasEdgeShare(w, u, i)
    {
      EdgeShare(w, u, i);
    }
  }

  // ---- Mass ------------------------------------------------------------------------------

  lemma NextNonNeg(w: Walk, x: seq<real>, v: nat)
    requires w.Valid() && NonNeg(x)
    ensures w.Next(x, v) >= 0.0
  {
    hide Sum;
    forall u: nat
      ensures w.Flow(x, v)(u) >= 0.0
    {
      MNonNeg(w, u, v);
      if u < |x| { MulNonNeg(x[u], w.M(u, v)); }
    }
    SumNonNeg(w.N(), w.Flow(x, v));
    MulNonNeg(w.d, Sum(w.N(), w.Flow(x, v)));
    MulNonNeg(1.0 - w.d, w.P(v));
  }

  lemma StepNonNeg(w: Walk, x: seq<real>)
    requires w.Valid() && NonNeg(x)
    ensures NonNeg(w.Step(x))
  {
    forall v: nat | v < w.N()
      ensures w.Next(x, v) >= 0.0
    {
      NextNonNeg(w, x, v);
    }
  }

  function FlowMatrix(w: Walk, x: seq<real>): (nat, nat) -> real {
    (u: nat, v: nat) => w.Flow(x, v)(u)
  }

  function Leaving(w: Walk, x: seq<real>): nat -> real {
    (u: nat) => if u < |x| then x[u] * RowSum(w, u) else 0.0
  }

  function Inflow(w: Walk, x: seq<real>): nat -> real {
    (v: nat) => Sum(w.N(), w.Flow(x, v))
  }

  /** What leaves the nodes is what arrives. */
  lemma FlowConserved(w: Walk, x: seq<real>)
    requires w.Valid() && |x| == w.N()
    ensures Sum(w.N(), Inflow(w, x)) == Sum(w.N(), Leaving(w, x))
  {
    hide Sum, RowSum;
    var F := FlowMatrix(w, x);
    forall u: nat | u < w.N()
      ensures Leaving(w, x)(u) == Sum(w.N(), Row(F, u))
    {
      MRowSum(w, u);
      forall v: nat | v < w.N()
        ensures Row(F, u)(v) == x[u] * MRow(w, u)(v)
      {
        assert Row(F, u)(v) == w.Flow(x, v)(u);
      }
      SumTimes(w.N(), x[u], MRow(w, u), Row(F, u));
    }
    forall v: nat | v < w.N()
      ensures Inflow(w, x)(v) == Sum(w.N(), Col(F, v))
    {
      SumCongr(w.N(), w.Flow(x, v), Col(F, v));
    }
    SumSwap(w.N(), w.N(), F, Leaving(w, x), Inflow(w, x));
  }

  function Stuck(w: Walk, x: seq<real>): nat -> real {
    (u: nat) => if u < |x| && w.Out(u) <= 0.0 then x[u] else 0.0
  }

  /** The mass on nodes without a way out. */
  function Dangling(w: Walk, x: seq<real>): real {
    Sum(w.N(), Stuck(w, x))
  }

  lemma LeavingSum(w: Walk, x: seq<real>)
    requires |x| == w.N()
    ensures Sum(w.N(), Leaving(w, x)) == Mass(x) + (Mass(w.p) - 1.0) * Dangling(w, x)
  {
    hide Sum;
    var c := Mass(w.p) - 1.0;
    var extra := (u: nat) => c * Stuck(w, x)(u);
    SumTimes(w.N(), c, Stuck(w, x), extra);
    forall u: nat | u < w.N()
      ensures Leaving(w, x)(u) == Entry(x)(u) + extra(u)
    {
      if w.Out(u) <= 0.0 {
        assert x[u] * Mass(w.p) == x[u] + c * x[u];
      }
    }
    SumPlus(w.N(), Entry(x), extra, Leaving(w, x));
  }

  /** The mass after a sweep. */
  lemma MassStep(w: Walk, x: seq<real>)
    requires w.Valid() && |x| == w.N()
    ensures Mass(w.Step(x)) == (1.0 - w.d) * Mass(w.p) + w.d * (Mass(x) + (Mass(w.p) - 1.0) * Dangling(w, x))
  {
    hide Sum, Dangling;
    var restart := (v: nat) => (1.0 - w.d) * Entry(w.p)(v);
    var moved := (v: nat) => w.d * Inflow(w, x)(v);
    SumTimes(w.N(), 1.0 - w.d, Entry(w.p), restart);
    SumTimes(w.N(), w.d, Inflow(w, x), moved);
    forall v: nat | v < w.N()
      ensures Entry(w.Step(x))(v) == restart(v) + moved(v)
    {
    }
    SumPlus(w.N(), restart, moved, Entry(w.Step(x)));
    FlowConserved(w, x);
    LeavingSum(w, x);
  }

  lemma DanglingNonNeg(w: Walk, x: seq<real>)
    requires NonNeg(x)
    ensures Dangling(w, x) >= 0.0
  {
    SumNonNeg(w.N(), Stuck(w, x));
  }

  /** A sweep keeps the mass 1 exactly when the restart distribution sums to exactly 1. */
  lemma MassKeptIff(w: Walk, x: seq<real>)
    requires w.Valid() && |x| == w.N() && NonNeg(x) && Mass(x) == 1.0
    ensures Mass(w.Step(x)) == 1.0 <==> Mass(w.p) == 1.0
  {
    hide Sum, Dangling, Mass;
    MassStep(w, x);
    DanglingNonNeg(w, x);
    MassKeptArithmetic(w.d, Mass(w.p), Dangling(w, x));
  }

  lemma MassKeptArithmetic(d: real, s: real, g: real)
    requires 0.0 <= d < 1.0 && g >= 0.0
    ensures (1.0 - d) * s + d * (1.0 + (s - 1.0) * g) == 1.0 <==> s == 1.0
  {
    MulNonNeg(d, g);
    ExcessFactors(d, s, g, s - 1.0, 1.0 - d + d * g);
    ZeroProduct(s - 1.0, 1.0 - d + d * g);
  }

  lemma ExcessFactors(d: real, s: real, g: real, a: real, c: real)
    requires a == s - 1.0 && c == 1.0 - d + d * g
    ensures (1.0 - d) * s + d * (1.0 + (s - 1.0) * g) - 1.0 == a * c
  {
  }

  lemma ZeroProduct(a: real, c: real)
    requires c > 0.0
    ensures a * c == 0.0 <==> a == 0.0
  {
    if a > 0.0 { MulNonNeg(a, c); }
    if a < 0.0 { MulNonNeg(-a, c); assert -a * c == -(a * c); }
  }

  // ---- Contraction -----------------------------------------------------------------------

  function Gap(x: seq<real>, y: seq<real>): nat -> real {
    (i: nat) => if i < |x| && i < |y| then Abs(x[i] - y[i]) else 0.0
  }

  /** The L1 distance of two vectors. */
  function L1(x: seq<real>, y: seq<real>): real {
    Sum(|x|, Gap(x, y))
  }

  /** A row never carries more than this. */
  function MaxRow(w: Walk): real {
    if Mass(w.p) > 1.0 then Mass(w.p) else 1.0
  }

  /** The factor by which a sweep brings two vectors closer: the damping factor, unless p exceeds 1. */
  function Factor(w: Walk): real {
    w.d * MaxRow(w)
  }

  lemma FactorNonNeg(w: Walk)
    requires w.Valid()
    ensures Factor(w) >= 0.0
  {
    MulNonNeg(w.d, MaxRow(w));
  }

  function GapMatrix(w: Walk, x: seq<real>, y: seq<real>): (nat, nat) -> real {
    (u: nat, v: nat) => Gap(x, y)(u) * w.M(u, v)
  }

  function GapInflow(w: Walk, x: seq<real>, y: seq<real>): nat -> real {
    (v: nat) => Sum(w.N(), Col(GapMatrix(w, x, y), v))
  }

  lemma AbsTimes(a: real, b: real)
    requires b >= 0.0
    ensures Abs(a * b) == Abs(a) * b
  {
    if a >= 0.0 { MulNonNeg(a, b); } else { MulNonNeg(-a, b); }
  }

  lemma ScaledAbs(e: real, d: real, bound: real, n: real)
    requires d >= 0.0 && Abs(e) <= bound && n == d * e
    ensures Abs(n) <= d * bound
  {
    AbsTimes(e, d);
    MulMono(d, Abs(e), bound);
  }

  lemma GapTerm(w: Walk, x: seq<real>, y: seq<real>, v: nat, u: nat)
    requires w.Valid() && |x| == |y| == w.N() && u < w.N()
    ensures Col(GapMatrix(w, x, y), v)(u) == Abs(w.Flow(x, v)(u) - w.Flow(y, v)(u))
  {
    var m := w.M(u, v);
    MNonNeg(w, u, v);
    AbsTimes(x[u] - y[u], m);
    assert Col(GapMatrix(w, x, y), v)(u) == GapMatrix(w, x, y)(u, v);
    assert GapMatrix(w, x, y)(u, v) == Gap(x, y)(u) * m;
    assert w.Flow(x, v)(u) == x[u] * m && w.Flow(y, v)(u) == y[u] * m;
    assert (x[u] - y[u]) * m == x[u] * m - y[u] * m;
  }

  lemma FlowDifference(w: Walk, x: seq<real>, y: seq<real>, v: nat)
    requires w.Valid() && |x| == |y| == w.N()
    ensures Abs(Sum(w.N(), w.Flow(x, v)) - Sum(w.N(), w.Flow(y, v))) <= GapInflow(w, x, y)(v)
  {
    hide Sum, Abs, GapMatrix, Col;
    var col := Col(GapMatrix(w, x, y), v);
    var diff := (u: nat) => w.Flow(x, v)(u) - w.Flow(y, v)(u);
    var minus := (u: nat) => -1.0 * w.Flow(y, v)(u);
    SumTimes(w.N(), -1.0, w.Flow(y, v), minus);
    SumPlus(w.N(), w.Flow(x, v), minus, diff);
    forall u: nat | u < w.N()
      ensures col(u) == Abs(diff(u))
    {
      GapTerm(w, x, y, v, u);
    }
    SumAbs(w.N(), diff, col);
    assert Sum(w.N(), diff) == Sum(w.N(), w.Flow(x, v)) - Sum(w.N(), w.Flow(y, v));
    assert GapInflow(w, x, y)(v) == Sum(w.N(), col);
  }

  /** One coordinate of two sweeps differs by at most the weighted difference of the inputs. */
  lemma NextGap(w: Walk, x: seq<real>, y: seq<real>, v: nat)
    requires w.Valid() && |x| == |y| == w.N() && v < w.N()
    ensures Abs(w.Next(x, v) - w.Next(y, v)) <= w.d * GapInflow(w, x, y)(v)
  {
    hide Sum, GapInflow;
    var a, b := Sum(w.N(), w.Flow(x, v)), Sum(w.N(), w.Flow(y, v));
    FlowDifference(w, x, y, v);
    ScaledAbs(a - b, w.d, GapInflow(w, x, y)(v), w.Next(x, v) - w.Next(y, v));
  }

  /** The rows of the gap matrix carry at most MaxRow times the gap. */
  lemma GapRow(w: Walk, x: seq<real>, y: seq<real>, u: nat)
    requires w.Valid() && u < w.N()
    ensures Sum(w.N(), Row(GapMatrix(w, x, y), u)) == Gap(x, y)(u) * RowSum(w, u)
    ensures Sum(w.N(), Row(GapMatrix(w, x, y), u)) <= MaxRow(w) * Gap(x, y)(u)
  {
    hide Sum;
    MRowSum(w, u);
    SumTimes(w.N(), Gap(x, y)(u), MRow(w, u), Row(GapMatrix(w, x, y), u));
    MulMono(Gap(x, y)(u), RowSum(w, u), MaxRow(w));
  }

  lemma GapInflowSum(w: Walk, x: seq<real>, y: seq<real>)
    requires w.Valid() && |x| == |y| == w.N()
    ensures Sum(w.N(), GapInflow(w, x, y)) <= MaxRow(w) * L1(x, y)
  {
    hide Sum, MaxRow, Gap, GapMatrix;
    var F := GapMatrix(w, x, y);
    var rows := (u: nat) => Sum(w.N(), Row(F, u));
    var bound := (u: nat) => MaxRow(w) * Gap(x, y)(u);
    SumSwap(w.N(), w.N(), F, rows, GapInflow(w, x, y));
    forall u: nat | u < w.N()
      ensures rows(u) <= bound(u)
    {
      GapRow(w, x, y, u);
    }
    SumLeq(w.N(), rows, bound);
    SumTimes(w.N(), MaxRow(w), Gap(x, y), bound);
  }

  /** Two runs get closer by the damping factor in every sweep (up to the excess of p over 1). */
  lemma Contraction(w: Walk, x: seq<real>, y: seq<real>)
    requires w.Valid() && |x| == |y| == w.N()
    ensures L1(w.Step(x), w.Step(y)) <= Factor(w) * L1(x, y)
  {
    hide Sum, MaxRow;
    var bound := (v: nat) => w.d * GapInflow(w, x, y)(v);
    forall v: nat | v < w.N()
      ensures Gap(w.Step(x), w.Step(y))(v) <= bound(v)
    {
      NextGap(w, x, y, v);
    }
    SumLeq(w.N(), Gap(w.Step(x), w.Step(y)), bound);
    SumTimes(w.N(), w.d, GapInflow(w, x, y), bound);
    GapInflowSum(w, x, y);
    MulMono(w.d, Sum(w.N(), GapInflow(w, x, y)), MaxRow(w) * L1(x, y));
    assert w.d * (MaxRow(w) * L1(x, y)) == Factor(w) * L1(x, y);
  }

  function Pow(b: real, n: nat): real {
    if n == 0 then 1.0 else b * Pow(b, n - 1)
  }

  lemma {:induction false} PowNonNeg(b: real, n: nat)
    requires b >= 0.0
    ensures Pow(b, n) >= 0.0
  {
    if n > 0 {
      PowNonNeg(b, n - 1);
      MulNonNeg(b, Pow(b, n - 1));
    }
  }

  lemma {:induction false} IterateSize(w: Walk, x: seq<real>, k: nat)
    requires |x| == w.N()
    ensures |w.Iterate(x, k)| == w.N()
  {
    if k > 0 { IterateSize(w, x, k - 1); }
  }

  /** A probability distribution stays one through any number of sweeps. */
  lemma {:induction false} IterateMass(w: Walk, x: seq<real>, k: nat)
    requires w.Valid() && |x| == w.N() && NonNeg(x) && Mass(x) == 1.0 && Mass(w.p) == 1.0
    ensures NonNeg(w.Iterate(x, k)) && Mass(w.Iterate(x, k)) == 1.0
  {
    hide Mass;
    if k > 0 {
      IterateMass(w, x, k - 1);
      IterateSize(w, x, k - 1);
      StepNonNeg(w, w.Iterate(x, k - 1));
      MassKeptIff(w, w.Iterate(x, k - 1));
    }
  }

  /** Successive sweeps differ by a geometrically shrinking amount. */
  lemma {:induction false} DifferencesShrink(w: Walk, x: seq<real>, k: nat)
    requires w.Valid() && |x| == w.N()
    ensures L1(w.Iterate(x, k), w.Iterate(x, k + 1)) <= Pow(Factor(w), k) * L1(x, w.Step(x))
  {
    hide Factor, L1;
    if k == 0 {
      assert w.Iterate(x, 1) == w.Step(w.Iterate(x, 0));
    } else {
      var c, l := Factor(w), L1(x, w.Step(x));
      DifferencesShrink(w, x, k - 1);
      IterateSize(w, x, k - 1);
      IterateSize(w, x, k);
      Contraction(w, w.Iterate(x, k - 1), w.Iterate(x, k));
      FactorNonNeg(w);
      MulMono(c, L1(w.Iterate(x, k - 1), w.Iterate(x, k)), Pow(c, k - 1) * l);
      assert c * (Pow(c, k - 1) * l) == Pow(c, k) * l;
      assert w.Iterate(x, k + 1) == w.Step(w.Iterate(x, k));
    }
  }

  lemma L1Symmetric(x: seq<real>, y: seq<real>)
    requires |x| == |y|
    ensures L1(x, y) == L1(y, x)
  {
    SumCongr(|x|, Gap(x, y), Gap(y, x));
  }

  lemma L1Triangle(x: seq<real>, y: seq<real>, z: seq<real>)
    requires |x| == |y| == |z|
    ensures L1(x, z) <= L1(x, y) + L1(y, z)
  {
    hide Sum;
    var both := (i: nat) => Gap(x, y)(i) + Gap(y, z)(i);
    forall i: nat | i < |x|
      ensures Gap(x, z)(i) <= both(i)
    {
      var a, b, c := Abs(x[i] - y[i]), Abs(y[i] - z[i]), Abs(x[i] - z[i]);
      assert Gap(x, y)(i) == a && Gap(y, z)(i) == b && Gap(x, z)(i) == c;
      assert c <= a + b;
    }
    SumLeq(|x|, Gap(x, z), both);
    SumPlus(|x|, Gap(x, y), Gap(y, z), both);
  }

  /** When the last sweep changed less than eps, the result is within c / (1 - c) * eps of every
      fixed point, with c the contraction factor. */
  lemma CloseToFixedPoint(w: Walk, x: seq<real>, z: seq<real>, eps: real)
    requires w.Valid() && |x| == |z| == w.N()
    requires w.Step(z) == z && L1(x, w.Step(x)) <= eps
    ensures (1.0 - Factor(w)) * L1(w.Step(x), z) <= Factor(w) * eps
  {
    hide Factor, L1;
    var c, l := Factor(w), L1(w.Step(x), z);
    Contraction(w, x, z);
    L1Triangle(x, w.Step(x), z);
    FactorNonNeg(w);
    MulMono(c, L1(x, z), eps + l);
    assert c * (eps + l) == c * eps + c * l;
    assert (1.0 - c) * l == l - c * l;
  }

  lemma L1NonNeg(x: seq<real>, y: seq<real>)
    ensures L1(x, y) >= 0.0
  {
    SumNonNeg(|x|, Gap(x, y));
  }

  lemma FixedPointGap(w: Walk, y: seq<real>, z: seq<real>)
    requires w.Valid() && |y| == |z| == w.N() && w.Step(y) == y && w.Step(z) == z
    requires Factor(w) < 1.0
    ensures L1(y, z) == 0.0
  {
    hide Factor, L1;
    Contraction(w, y, z);
    L1NonNeg(y, z);
    L1Zero(Factor(w), L1(y, z), Factor(w) * L1(y, z));
  }

  /** There is at most one fixed point. */
  lemma FixedPointUnique(w: Walk, y: seq<real>, z: seq<real>)
    requires w.Valid() && |y| == |z| == w.N() && w.Step(y) == y && w.Step(z) == z
    requires Factor(w) < 1.0
    ensures y == z
  {
    FixedPointGap(w, y, z);
    forall i: nat | i < |y|
      ensures y[i] == z[i]
    {
      SumAtLeast(|y|, Gap(y, z), i);
    }
  }

  lemma L1Zero(c: real, l: real, bound: real)
    requires c < 1.0 && l >= 0.0 && bound == c * l && l <= bound
    ensures l == 0.0
  {
    MulNonNeg(1.0 - c, l);
    assert (1.0 - c) * l == l - c * l;
  }

  // ---- Seeded walks stay where the seeds lead --------------------------------------------

  ghost predicate IsSeed(w: Walk, s: nat) {
    s < w.N() && w.P(s) > 0.0
  }

  /** v can be reached from a node with positive restart probability. */
  ghost predicate Seeded(w: Walk, v: nat) {
    exists s: nat :: IsSeed(w, s) && Reach(w.adj, s, v)
  }

  ghost function Outside(w: Walk, x: seq<real>): nat -> real {
    (v: nat) => if v < |x| && !Seeded(w, v) then x[v] else 0.0
  }

  /** The mass on nodes that no seed leads to. */
  ghost function Leak(w: Walk, x: seq<real>): real {
    Sum(w.N(), Outside(w, x))
  }

  lemma {:induction false} RowMeansEdge(w: Walk, u: nat, n: nat, v: nat)
    requires u < w.N() && n <= |w.adj[u]| && w.RowPart(u, n, v) != 0.0
    ensures Edge(w.adj, u, v)
  {
    if w.adj[u][n - 1] == v {
      assert v in w.adj[u];
    } else {
      RowMeansEdge(w, u, n - 1, v);
    }
  }

  /** Into a node that no seed leads to, mass comes only along edges from other such nodes. */
  lemma OutsideSources(w: Walk, u: nat, v: nat)
    requires w.Valid() && u < w.N() && v < w.N() && !Seeded(w, v)
    ensures w.P(v) == 0.0
    ensures Seeded(w, u) || w.Out(u) <= 0.0 ==> w.M(u, v) == 0.0
  {
    if w.P(v) > 0.0 {
      ReachRefl(w.adj, v);
      assert IsSeed(w, v);
    }
    if Seeded(w, u) && w.Out(u) > 0.0 && w.RowPart(u, |w.adj[u]|, v) != 0.0 {
      RowMeansEdge(w, u, |w.adj[u]|, v);
      ReachEdge(w.adj, u, v);
      var s: nat :| IsSeed(w, s) && Reach(w.adj, s, u);
      ReachTrans(w.adj, s, u, v);
    }
  }

  ghost function LeakMatrix(w: Walk, x: seq<real>): (nat, nat) -> real {
    (u: nat, v: nat) => if Seeded(w, v) then 0.0 else Outside(w, x)(u) * (if w.Out(u) > 0.0 then w.M(u, v) else 0.0)
  }

  ghost function LeakIn(w: Walk, x: seq<real>): nat -> real {
    (v: nat) => Sum(w.N(), Col(LeakMatrix(w, x), v))
  }

  lemma LeakEntry(w: Walk, x: seq<real>, v: nat)
    requires w.Valid() && |x| == w.N() && v < w.N()
    ensures Outside(w, w.Step(x))(v) == w.d * LeakIn(w, x)(v)
  {
    hide Sum, Seeded;
    var col := Col(LeakMatrix(w, x), v);
    if Seeded(w, v) {
      SumZero(w.N(), col);
    } else {
      forall u: nat | u < w.N()
        ensures col(u) == w.Flow(x, v)(u)
      {
        OutsideSources(w, u, v);
        assert col(u) == LeakMatrix(w, x)(u, v);
        assert LeakMatrix(w, x)(u, v) == Outside(w, x)(u) * (if w.Out(u) > 0.0 then w.M(u, v) else 0.0);
        if Seeded(w, u) {
          assert Outside(w, x)(u) == 0.0 && w.M(u, v) == 0.0;
        } else {
          assert Outside(w, x)(u) == x[u];
        }
      }
      OutsideSources(w, v, v);
      SumCongr(w.N(), col, w.Flow(x, v));
    }
  }

  lemma LeakRowAt(w: Walk, x: seq<real>, u: nat, v: nat)
    requires w.Valid() && |x| == w.N() && NonNeg(x) && u < w.N() && w.Out(u) > 0.0
    ensures Row(LeakMatrix(w, x), u)(v) <= Outside(w, x)(u) * MRow(w, u)(v)
  {
    hide Seeded;
    MNonNeg(w, u, v);
    MulNonNeg(Outside(w, x)(u), w.M(u, v));
    assert Row(LeakMatrix(w, x), u)(v) == LeakMatrix(w, x)(u, v);
    assert LeakMatrix(w, x)(u, v) == if Seeded(w, v) then 0.0 else Outside(w, x)(u) * w.M(u, v);
  }

  lemma LeakRow(w: Walk, x: seq<real>, u: nat)
    requires w.Valid() && |x| == w.N() && NonNeg(x) && u < w.N()
    ensures Sum(w.N(), Row(LeakMatrix(w, x), u)) <= Outside(w, x)(u)
  {
    hide Sum, Seeded;
    var row := Row(LeakMatrix(w, x), u);
    var o := Outside(w, x)(u);
    if w.Out(u) > 0.0 {
      var full := (v: nat) => o * MRow(w, u)(v);
      forall v: nat | v < w.N()
        ensures row(v) <= full(v)
      {
        LeakRowAt(w, x, u, v);
      }
      SumLeq(w.N(), row, full);
      SumTimes(w.N(), o, MRow(w, u), full);
      MRowSum(w, u);
    } else {
      forall v: nat | v < w.N()
        ensures row(v) == 0.0
      {
        assert row(v) == LeakMatrix(w, x)(u, v);
      }
      SumZero(w.N(), row);
    }
  }

  /** The leaked mass shrinks by the damping factor in every sweep. */
  lemma LeakStep(w: Walk, x: seq<real>)
    requires w.Valid() && |x| == w.N() && NonNeg(x)
    ensures Leak(w, w.Step(x)) <= w.d * Leak(w, x)
  {
    hide Sum, LeakMatrix, Outside;
    var F := LeakMatrix(w, x);
    var rows := (u: nat) => Sum(w.N(), Row(F, u));
    forall v: nat | v < w.N()
      ensures Outside(w, w.Step(x))(v) == w.d * LeakIn(w, x)(v)
    {
      LeakEntry(w, x, v);
    }
    SumTimes(w.N(), w.d, LeakIn(w, x), Outside(w, w.Step(x)));
    SumSwap(w.N(), w.N(), F, rows, LeakIn(w, x));
    forall u: nat | u < w.N()
      ensures rows(u) <= Outside(w, x)(u)
    {
      LeakRow(w, x, u);
    }
    SumLeq(w.N(), rows, Outside(w, x));
    MulMono(w.d, Sum(w.N(), rows), Leak(w, x));
  }

  lemma {:induction false} IterateNonNeg(w: Walk, x: seq<real>, k: nat)
    requires w.Valid() && |x| == w.N() && NonNeg(x)
    ensures NonNeg(w.Iterate(x, k)) && |w.Iterate(x, k)| == w.N()
  {
    if k > 0 {
      IterateNonNeg(w, x, k - 1);
      StepNonNeg(w, w.Iterate(x, k - 1));
    }
  }

  /** Main result on seeded walks: after k sweeps at most d^k of the mass is on nodes that no seed
      leads to; neither restarts nor dangling nodes ever send any there. */
  lemma {:induction false} LeakVanishes(w: Walk, x: seq<real>, k: nat)
    requires w.Valid() && |x| == w.N() && NonNeg(x) && Mass(x) <= 1.0
    ensures Leak(w, w.Iterate(x, k)) <= Pow(w.d, k)
  {
    hide Sum, Outside, Leak;
    if k == 0 {
      LeakAtMostMass(w, x);
    } else {
      LeakVanishes(w, x, k - 1);
      IterateNonNeg(w, x, k - 1);
      LeakStep(w, w.Iterate(x, k - 1));
      MulMono(w.d, Leak(w, w.Iterate(x, k - 1)), Pow(w.d, k - 1));
    }
  }

  lemma LeakAtMostMass(w: Walk, x: seq<real>)
    requires |x| == w.N() && NonNeg(x)
    ensures Leak(w, x) <= Mass(x)
  {
    SumLeq(w.N(), Outside(w, x), Entry(x));
  }

  // ---- The default constants -------------------------------------------------------------

  lemma {:induction false} PowAdd(b: real, m: nat, n: nat)
    ensures Pow(b, m + n) == Pow(b, m) * Pow(b, n)
  {
    if m > 0 {
      PowAdd(b, m - 1, n);
      assert b * (Pow(b, m - 1) * Pow(b, n)) == Pow(b, m) * Pow(b, n);
    }
  }

  lemma {:induction false} PowMono(b: real, c: real, n: nat)
    requires 0.0 <= b <= c
    ensures 0.0 <= Pow(b, n) <= Pow(c, n)
  {
    if n > 0 {
      PowMono(b, c, n - 1);
      MulNonNeg(b, Pow(b, n - 1));
      MulMono(b, Pow(b, n - 1), Pow(c, n - 1));
      MulMono(Pow(c, n - 1), b, c);
    }
  }

  lemma PowProduct(b: real, m: nat, n: nat, x: real, y: real)
    requires 0.0 <= Pow(b, m) <= x && 0.0 <= Pow(b, n) <= y
    ensures 0.0 <= Pow(b, m + n) <= x * y
  {
    PowAdd(b, m, n);
    MulBounds(Pow(b, m), Pow(b, n), x, y);
  }

  lemma MulBounds(a: real, b: real, x: real, y: real)
    requires 0.0 <= a <= x && 0.0 <= b <= y
    ensures 0.0 <= a * b <= x * y
  {
    MulNonNeg(a, b);
    MulMono(a, b, y);
    MulMono(y, a, x);
  }

  const BOUND := 0.8500001

  /** 0.8500001^90 by repeated squaring, rounded up. */
  lemma NinetyFactors()
    ensures 0.0 <= Pow(BOUND, 90) <= 0.000000451
  {
    hide Pow;
    assert Pow(BOUND, 1) == BOUND by { PowOne(BOUND); }
    PowProduct(BOUND, 1, 1, BOUND, BOUND);
    PowProduct(BOUND, 2, 2, 0.7226, 0.7226);
    PowProduct(BOUND, 4, 4, 0.5222, 0.5222);
    PowProduct(BOUND, 8, 8, 0.2727, 0.2727);
    PowProduct(BOUND, 16, 16, 0.0744, 0.0744);
    PowProduct(BOUND, 32, 32, 0.00554, 0.00554);
    PowProduct(BOUND, 64, 16, 0.0000307, 0.0744);
    PowProduct(BOUND, 80, 8, 0.00000228409, 0.2727);
    PowProduct(BOUND, 88, 2, 0.00000062288, 0.7226);
  }

  lemma PowOne(b: real)
    ensures Pow(b, 1) == b
  {
    assert Pow(b, 0) == 1.0;
  }

  lemma DanglingAtMostMass(w: Walk, x: seq<real>)
    requires |x| == w.N() && NonNeg(x)
    ensures Dangling(w, x) <= Mass(x)
  {
    SumLeq(w.N(), Stuck(w, x), Entry(x));
  }

  lemma MassBound(w: Walk, x: seq<real>)
    requires w.Valid() && |x| == w.N() && NonNeg(x) && Mass(x) == 1.0
    ensures Mass(w.Step(x)) <= MaxRow(w)
  {
    hide Sum, Dangling, Mass;
    MassStep(w, x);
    DanglingNonNeg(w, x);
    DanglingAtMostMass(w, x);
    MassBoundArithmetic(w.d, Mass(w.p), Dangling(w, x), MaxRow(w));
  }

  lemma MassBoundArithmetic(d: real, s: real, g: real, q: real)
    requires 0.0 <= d < 1.0 && 0.0 <= g <= 1.0 && q == if s > 1.0 then s else 1.0
    ensures (1.0 - d) * s + d * (1.0 + (s - 1.0) * g) <= q
  {
    ExcessBound(s, g, (s - 1.0) * g);
    Convex(d, s, 1.0 + (s - 1.0) * g, q);
  }

  lemma ExcessBound(s: real, g: real, e: real)
    requires 0.0 <= g <= 1.0 && e == (s - 1.0) * g
    ensures 1.0 + e <= if s > 1.0 then s else 1.0
  {
    if s > 1.0 {
      MulMono(s - 1.0, g, 1.0);
    } else {
      MulNonNeg(1.0 - s, g);
      assert (1.0 - s) * g == -e;
    }
  }

  lemma Convex(d: real, a: real, b: real, q: real)
    requires 0.0 <= d < 1.0 && a <= q && b <= q
    ensures (1.0 - d) * a + d * b <= q
  {
    var c, k, l := 1.0 - d, q - a, q - b;
    MulNonNeg(c, k);
    MulNonNeg(d, l);
    assert c * k == q - a - d * q + d * a;
    assert d * l == d * q - d * b;
  }

  lemma GapAtMostMasses(x: seq<real>, y: seq<real>)
    requires |x| == |y| && NonNeg(x) && NonNeg(y)
    ensures L1(x, y) <= Mass(x) + Mass(y)
  {
    hide Sum;
    var both := (i: nat) => Entry(x)(i) + Entry(y)(i);
    forall i: nat | i < |x|
      ensures Gap(x, y)(i) <= both(i)
    {
      var a, b := x[i], y[i];
      assert a >= 0.0 && b >= 0.0;
      assert Entry(x)(i) == a && Entry(y)(i) == b;
      assert Gap(x, y)(i) == Abs(a - b);
    }
    SumLeq(|x|, Gap(x, y), both);
    SumPlus(|x|, Entry(x), Entry(y), both);
  }

  /** Main result on convergence: with damping 0.85, from any distribution, the 91st sweep changes the
      vector by less than 1e-6, even if p exceeds 1 by the tolerated 1e-12. */
  lemma NinetyOneSweeps(w: Walk, x: seq<real>)
    requires w.Valid() && w.d == 0.85 && Mass(w.p) <= 1.000000000001
    requires |x| == w.N() && NonNeg(x) && Mass(x) == 1.0
    ensures L1(w.Iterate(x, 90), w.Iterate(x, 91)) < 0.000001
  {
    hide Sum, Mass, L1, Pow, Factor;
    DifferencesShrink(w, x, 90);
    StepNonNeg(w, x);
    GapAtMostMasses(x, w.Step(x));
    MassBound(w, x);
    L1NonNeg(x, w.Step(x));
    NinetyFactors();
    FactorNonNeg(w);
    FactorBound(w);
    PowMono(Factor(w), BOUND, 90);
    BelowEps(Pow(Factor(w), 90), L1(x, w.Step(x)), L1(w.Iterate(x, 90), w.Iterate(x, 91)));
  }

  lemma BelowEps(f: real, l: real, diff: real)
    requires 0.0 <= f <= 0.000000451 && 0.0 <= l <= 2.1 && diff <= f * l
    ensures diff < 0.000001
  {
    MulBounds(f, l, 0.000000451, 2.1);
  }

  lemma FactorBound(w: Walk)
    requires w.d == 0.85 && Mass(w.p) <= 1.000000000001
    ensures Factor(w) <= BOUND
    ensures MaxRow(w) <= 1.000000000001
  {
    hide Mass;
    DefaultFactor(w.d, MaxRow(w));
  }

  lemma DefaultFactor(d: real, q: real)
    requires d == 0.85 && q <= 1.000000000001
    ensures d * q <= BOUND
  {
    MulMono(d, q, 1.000000000001);
  }
}
