/** Counting walks in a graph: W(k, a, b) is the number of walks of length k from a to b. */
module Walks {
  import opened Digraph
  import opened Sums

  function Count(s: seq<nat>, x: nat): nat {
    if s == [] then 0 else Count(s[..|s| - 1], x) + if s[|s| - 1] == x then 1 else 0
  }

  lemma {:induction false} CountZero(s: seq<nat>, x: nat)
    ensures Count(s, x) == 0 <==> x !in s
  {
    if s != [] {
      CountZero(s[..|s| - 1], x);
      assert s == s[..|s| - 1] + [s[|s| - 1]];
    }
  }

  lemma CountAppend(s: seq<nat>, y: nat, x: nat)
    ensures Count(s + [y], x) == Count(s, x) + if y == x then 1 else 0
  {
    assert (s + [y])[..|s|] == s;
  }

  /** The number of edges u -> v. */
  function A(adj: Adjacency, u: nat, v: nat): real {
    if u < |adj| then Count(adj[u], v) as real else 0.0
  }

  lemma EdgeIffPositive(adj: Adjacency, u: nat, v: nat)
    ensures A(adj, u, v) >= 0.0
    ensures A(adj, u, v) > 0.0 <==> Edge(adj, u, v)
  {
    if u < |adj| { CountZero(adj[u], v); }
  }

  function W(adj: Adjacency, k: nat, a: nat, b: nat): real {
    if k == 0 then (if a == b then 1.0 else 0.0)
    else Sum(|adj|, (c: nat) => A(adj, a, c) * W(adj, k - 1, c, b))
  }

  lemma {:induction false} WNonNeg(adj: Adjacency, k: nat, a: nat, b: nat)
    ensures W(adj, k, a, b) >= 0.0
  {
    if k > 0 {
      forall c: nat
        ensures A(adj, a, c) * W(adj, k - 1, c, b) >= 0.0
      {
        WNonNeg(adj, k - 1, c, b);
      }
      SumNonNeg(|adj|, (c: nat) => A(adj, a, c) * W(adj, k - 1, c, b));
    }
  }

  function Via(adj: Adjacency, i: nat, j: nat, a: nat, b: nat): nat -> real {
    (v: nat) => W(adj, i, a, v) * W(adj, j, v, b)
  }

  function FirstStep(adj: Adjacency, k: nat, a: nat, b: nat): nat -> real {
    (c: nat) => A(adj, a, c) * W(adj, k, c, b)
  }

  lemma WalksFirst(adj: Adjacency, k: nat, a: nat, b: nat)
    ensures W(adj, k + 1, a, b) == Sum(|adj|, FirstStep(adj, k, a, b))
  {
    SumCongr(|adj|, (c: nat) => A(adj, a, c) * W(adj, k, c, b), FirstStep(adj, k, a, b));
  }

  function StepThen(adj: Adjacency, i: nat, j: nat, a: nat, b: nat): (nat, nat) -> real {
    (c: nat, v: nat) => A(adj, a, c) * (W(adj, i, c, v) * W(adj, j, v, b))
  }

  lemma StepThenCol(adj: Adjacency, i: nat, j: nat, a: nat, b: nat, v: nat)
    ensures Via(adj, i + 1, j, a, b)(v) == Sum(|adj|, Col(StepThen(adj, i, j, a, b), v))
  {
    hide W, A, Sum;
    WalksFirst(adj, i, a, v);
    SumTimes(|adj|, W(adj, j, v, b), FirstStep(adj, i, a, v), Col(StepThen(adj, i, j, a, b), v));
  }

  lemma StepThenRow(adj: Adjacency, i: nat, j: nat, a: nat, b: nat, c: nat)
    requires W(adj, i + j, c, b) == Sum(|adj|, Via(adj, i, j, c, b))
    ensures FirstStep(adj, i + j, a, b)(c) == Sum(|adj|, Row(StepThen(adj, i, j, a, b), c))
  {
    hide W, A, Sum;
    SumTimes(|adj|, A(adj, a, c), Via(adj, i, j, c, b), Row(StepThen(adj, i, j, a, b), c));
  }

  /** A walk of length i + j is a walk of length i followed by one of length j. */
  lemma {:induction false} WalksCompose(adj: Adjacency, i: nat, j: nat, a: nat, b: nat)
    requires a < |adj|
    ensures W(adj, i + j, a, b) == Sum(|adj|, Via(adj, i, j, a, b))
    decreases i
  {
    var N := |adj|;
    if i == 0 {
      SumOnly(N, Via(adj, 0, j, a, b), a);
    } else {
      hide W, A, Sum, FirstStep, StepThen, Via, Row, Col;
      var F := StepThen(adj, i - 1, j, a, b);
      WalksFirst(adj, i - 1 + j, a, b);
      forall c: nat | c < N
        ensures FirstStep(adj, i - 1 + j, a, b)(c) == Sum(N, Row(F, c))
      {
        WalksCompose(adj, i - 1, j, c, b);
        StepThenRow(adj, i - 1, j, a, b, c);
      }
      forall v: nat | v < N
        ensures Via(adj, i, j, a, b)(v) == Sum(N, Col(F, v))
      {
        StepThenCol(adj, i - 1, j, a, b, v);
      }
      SumSwap(N, N, F, FirstStep(adj, i - 1 + j, a, b), Via(adj, i, j, a, b));
    }
  }

  function LastStep(adj: Adjacency, k: nat, a: nat, b: nat): nat -> real {
    (v: nat) => W(adj, k, a, v) * A(adj, v, b)
  }

  lemma OneStep(adj: Adjacency, v: nat, b: nat)
    requires b < |adj|
    ensures W(adj, 1, v, b) == A(adj, v, b)
  {
    WalksFirst(adj, 0, v, b);
    SumOnly(|adj|, FirstStep(adj, 0, v, b), b);
  }

  /** One more edge at the end. */
  lemma WalksLast(adj: Adjacency, k: nat, a: nat, b: nat)
    requires a < |adj| && b < |adj|
    ensures W(adj, k + 1, a, b) == Sum(|adj|, LastStep(adj, k, a, b))
  {
    hide W, A, Sum;
    WalksCompose(adj, k, 1, a, b);
    forall v: nat | v < |adj|
      ensures Via(adj, k, 1, a, b)(v) == LastStep(adj, k, a, b)(v)
    {
      OneStep(adj, v, b);
    }
    SumCongr(|adj|, Via(adj, k, 1, a, b), LastStep(adj, k, a, b));
  }

  // ---- Distances -------------------------------------------------------------------------

  /** The local conditions under which dist lists the distances from s, -1 where there is no walk. */
  ghost predicate DistOk(adj: Adjacency, s: nat, dist: seq<int>) {
    && WellFormed(adj) && |dist| == |adj| && s < |adj| && dist[s] == 0
    && (forall x :: 0 <= x < |adj| ==> dist[x] >= -1 && (dist[x] == 0 ==> x == s))
    && (forall v: nat, w: nat :: v < |adj| && w < |adj| && Edge(adj, v, w) && dist[v] >= 0 ==> 0 <= dist[w] <= dist[v] + 1)
    && (forall x: nat :: x < |adj| && dist[x] > 0 ==> HasPred(adj, dist, x))
  }

  ghost predicate HasPred(adj: Adjacency, dist: seq<int>, x: nat)
    requires |dist| == |adj| && x < |adj|
  {
    exists v: nat :: v < |adj| && Edge(adj, v, x) && dist[v] == dist[x] - 1
  }

  lemma FirstStepNonNeg(adj: Adjacency, k: nat, a: nat, x: nat, c: nat)
    ensures FirstStep(adj, k, a, x)(c) >= 0.0
    ensures FirstStep(adj, k, a, x)(c) > 0.0 ==> A(adj, a, c) > 0.0 && W(adj, k, c, x) > 0.0
  {
    hide W, A;
    WNonNeg(adj, k, c, x);
    EdgeIffPositive(adj, a, c);
    MulNonNeg(A(adj, a, c), W(adj, k, c, x));
  }

  /** A walk of positive length has a first edge. */
  lemma FirstEdge(adj: Adjacency, k: nat, a: nat, x: nat) returns (c: nat)
    requires WellFormed(adj) && W(adj, k + 1, a, x) > 0.0
    ensures c < |adj| && Edge(adj, a, c) && W(adj, k, c, x) > 0.0
  {
    hide W, A, Sum;
    WalksFirst(adj, k, a, x);
    forall i: nat | i < |adj|
      ensures FirstStep(adj, k, a, x)(i) >= 0.0
    {
      FirstStepNonNeg(adj, k, a, x, i);
    }
    c := SumPositiveTerm(|adj|, FirstStep(adj, k, a, x));
    FirstStepNonNeg(adj, k, a, x, c);
    EdgeIffPositive(adj, a, c);
  }

  /** A walk of length k raises the distance by at most k. */
  lemma {:induction false} WalkRaises(adj: Adjacency, s: nat, dist: seq<int>, k: nat, a: nat, x: nat)
    requires DistOk(adj, s, dist) && a < |adj| && x < |adj| && dist[a] >= 0 && W(adj, k, a, x) > 0.0
    ensures 0 <= dist[x] <= dist[a] + k
  {
    if k > 0 {
      hide W, HasPred, A;
      var c := FirstEdge(adj, k - 1, a, x);
      WalkRaises(adj, s, dist, k - 1, c, x);
    }
  }

  lemma LastStepNonNeg(adj: Adjacency, k: nat, a: nat, b: nat, v: nat)
    ensures LastStep(adj, k, a, b)(v) >= 0.0
    ensures W(adj, k, a, v) > 0.0 && A(adj, v, b) > 0.0 ==> LastStep(adj, k, a, b)(v) > 0.0
  {
    hide W, A;
    WNonNeg(adj, k, a, v);
    EdgeIffPositive(adj, v, b);
    MulNonNeg(W(adj, k, a, v), A(adj, v, b));
  }

  lemma ExtendWalk(adj: Adjacency, k: nat, a: nat, v: nat, x: nat)
    requires a < |adj| && v < |adj| && x < |adj| && W(adj, k, a, v) > 0.0 && Edge(adj, v, x)
    ensures W(adj, k + 1, a, x) > 0.0
  {
    hide W, A, Sum, LastStep;
    WalksLast(adj, k, a, x);
    forall i: nat | i < |adj|
      ensures LastStep(adj, k, a, x)(i) >= 0.0
    {
      LastStepNonNeg(adj, k, a, x, i);
    }
    EdgeIffPositive(adj, v, x);
    LastStepNonNeg(adj, k, a, x, v);
    SumAtLeast(|adj|, LastStep(adj, k, a, x), v);
  }

  lemma {:induction false} WalkToEach(adj: Adjacency, s: nat, dist: seq<int>, x: nat)
    requires DistOk(adj, s, dist) && x < |adj| && dist[x] >= 0
    ensures W(adj, dist[x], s, x) > 0.0
    decreases dist[x]
  {
    if dist[x] > 0 {
      hide W;
      assert HasPred(adj, dist, x);
      var v: nat :| v < |adj| && Edge(adj, v, x) && dist[v] == dist[x] - 1;
      WalkToEach(adj, s, dist, v);
      ExtendWalk(adj, dist[v], s, v, x);
    }
  }

  /** dist[x] is the length of a shortest walk from s to x; -1 means that there is none. */
  lemma DistIsShortest(adj: Adjacency, s: nat, dist: seq<int>, x: nat)
    requires DistOk(adj, s, dist) && x < |adj|
    ensures dist[x] >= 0 ==> W(adj, dist[x], s, x) > 0.0
    ensures forall k: nat :: W(adj, k, s, x) > 0.0 ==> 0 <= dist[x] <= k
  {
    if dist[x] >= 0 {
      WalkToEach(adj, s, dist, x);
    }
    forall k: nat | W(adj, k, s, x) > 0.0
      ensures 0 <= dist[x] <= k
    {
      WalkRaises(adj, s, dist, k, s, x);
    }
  }

  // ---- Numbers of shortest walks ---------------------------------------------------------

  /** The edges v -> w that lie on shortest walks from s. */
  function Dag(adj: Adjacency, dist: seq<int>, v: nat, w: nat): real {
    if v < |dist| && w < |dist| && dist[v] >= 0 && dist[w] == dist[v] + 1 then A(adj, v, w) else 0.0
  }

  function SigmaTerm(adj: Adjacency, dist: seq<int>, sigma: seq<int>, w: nat): nat -> real {
    (v: nat) => if v < |sigma| then Dag(adj, dist, v, w) * sigma[v] as real else 0.0
  }

  /** sigma obeys the recurrence of the numbers of shortest walks. */
  ghost predicate SigmaOk(adj: Adjacency, s: nat, dist: seq<int>, sigma: seq<int>) {
    && |sigma| == |dist| == |adj|
    && forall w: nat :: w < |adj| && dist[w] >= 0 ==>
         sigma[w] as real == (if w == s then 1.0 else 0.0) + Sum(|adj|, SigmaTerm(adj, dist, sigma, w))
  }

  lemma LastTerm(adj: Adjacency, s: nat, dist: seq<int>, v: nat, w: nat)
    requires DistOk(adj, s, dist) && v < |adj| && w < |adj| && dist[w] > 0
    ensures dist[v] != dist[w] - 1 ==> LastStep(adj, dist[w] - 1, s, w)(v) == 0.0
  {
    hide W, A, HasPred;
    var k := dist[w] - 1;
    WNonNeg(adj, k, s, v);
    EdgeIffPositive(adj, v, w);
    if W(adj, k, s, v) > 0.0 && A(adj, v, w) > 0.0 {
      WalkRaises(adj, s, dist, k, s, v);
    }
  }

  lemma SigmaTermIsLastStep(adj: Adjacency, s: nat, dist: seq<int>, sigma: seq<int>, v: nat, w: nat)
    requires DistOk(adj, s, dist) && |sigma| == |adj| && v < |adj| && w < |adj| && dist[w] > 0
    requires dist[v] == dist[w] - 1 ==> sigma[v] as real == W(adj, dist[v], s, v)
    ensures SigmaTerm(adj, dist, sigma, w)(v) == LastStep(adj, dist[w] - 1, s, w)(v)
  {
    hide W, A, HasPred;
    LastTerm(adj, s, dist, v, w);
  }

  /** sigma[w] is the number of shortest walks from s to w. */
  lemma {:induction false} SigmaCounts(adj: Adjacency, s: nat, dist: seq<int>, sigma: seq<int>, w: nat)
    requires DistOk(adj, s, dist) && SigmaOk(adj, s, dist, sigma) && w < |adj| && dist[w] >= 0
    ensures sigma[w] as real == W(adj, dist[w], s, w)
    decreases dist[w]
  {
    if dist[w] == 0 {
      SumZero(|adj|, SigmaTerm(adj, dist, sigma, w));
    } else {
      hide W, HasPred, SigmaTerm, LastStep, Sum;
      var k := dist[w] - 1;
      WalksLast(adj, k, s, w);
      forall v: nat | v < |adj|
        ensures SigmaTerm(adj, dist, sigma, w)(v) == LastStep(adj, k, s, w)(v)
      {
        if dist[v] == k {
          SigmaCounts(adj, s, dist, sigma, v);
        }
        SigmaTermIsLastStep(adj, s, dist, sigma, v, w);
      }
      SumCongr(|adj|, SigmaTerm(adj, dist, sigma, w), LastStep(adj, k, s, w));
    }
  }

  // ---- Dependencies ----------------------------------------------------------------------

  /** One over the number of shortest walks from s to t. */
  function Inv(adj: Adjacency, s: nat, dist: seq<int>, t: nat): real {
    if t < |dist| && dist[t] >= 0 && W(adj, dist[t], s, t) != 0.0 then 1.0 / W(adj, dist[t], s, t) else 0.0
  }

  /** The fraction of the shortest walks from s to t that pass through v, for t farther than v. */
  function PairDep(adj: Adjacency, s: nat, dist: seq<int>, v: nat): nat -> real {
    (t: nat) => if t < |dist| && v < |dist| && 0 <= dist[v] < dist[t]
                then W(adj, dist[v], s, v) * (W(adj, dist[t] - dist[v], v, t) * Inv(adj, s, dist, t)) else 0.0
  }

  /** The dependency of s on v: the sum of those fractions over all targets. */
  function Dep(adj: Adjacency, s: nat, dist: seq<int>, v: nat): real {
    Sum(|adj|, PairDep(adj, s, dist, v))
  }

  function DeltaTerm(adj: Adjacency, dist: seq<int>, sigma: seq<int>, delta: seq<real>, v: nat): nat -> real {
    (w: nat) => if v < |sigma| && w < |sigma| && w < |delta| && sigma[w] != 0
                then Dag(adj, dist, v, w) * (sigma[v] as real / sigma[w] as real * (1.0 + delta[w])) else 0.0
  }

  /** delta obeys Brandes' recurrence. */
  ghost predicate DeltaOk(adj: Adjacency, dist: seq<int>, sigma: seq<int>, delta: seq<real>) {
    && |delta| == |sigma| == |dist| == |adj|
    && forall v: nat :: v < |adj| && dist[v] >= 0 ==> delta[v] == Sum(|adj|, DeltaTerm(adj, dist, sigma, delta, v))
  }

  function Tail(adj: Adjacency, s: nat, dist: seq<int>, w: nat): nat -> real {
    (t: nat) => if t < |dist| && w < |dist| && 0 <= dist[w] <= dist[t]
                then W(adj, dist[t] - dist[w], w, t) * Inv(adj, s, dist, t) else 0.0
  }

  lemma InvCancels(adj: Adjacency, s: nat, dist: seq<int>, t: nat)
    requires DistOk(adj, s, dist) && t < |adj| && dist[t] >= 0
    ensures W(adj, dist[t], s, t) * Inv(adj, s, dist, t) == 1.0
  {
    hide W, HasPred;
    WalkToEach(adj, s, dist, t);
  }

  lemma TailAt(adj: Adjacency, s: nat, dist: seq<int>, w: nat, t: nat)
    requires DistOk(adj, s, dist) && w < |adj| && t < |adj| && dist[w] >= 0
    ensures W(adj, dist[w], s, w) * Tail(adj, s, dist, w)(t) ==
            PairDep(adj, s, dist, w)(t) + if t == w then 1.0 else 0.0
  {
    hide HasPred, Inv;
    InvCancels(adj, s, dist, w);
    if dist[t] == dist[w] {
      assert W(adj, 0, w, t) == if w == t then 1.0 else 0.0;
    }
  }

  /** 1 + Dep(w) in the form in which it is summed over the successors. */
  lemma OnePlusDep(adj: Adjacency, s: nat, dist: seq<int>, w: nat)
    requires DistOk(adj, s, dist) && w < |adj| && dist[w] >= 0
    ensures W(adj, dist[w], s, w) * Sum(|adj|, Tail(adj, s, dist, w)) == 1.0 + Dep(adj, s, dist, w)
  {
    hide W, HasPred, Tail, PairDep, Sum;
    var c := W(adj, dist[w], s, w);
    var self := (t: nat) => if t == w then 1.0 else 0.0;
    var both := (t: nat) => c * Tail(adj, s, dist, w)(t);
    SumTimes(|adj|, c, Tail(adj, s, dist, w), both);
    forall t: nat | t < |adj|
      ensures both(t) == PairDep(adj, s, dist, w)(t) + self(t)
    {
      TailAt(adj, s, dist, w, t);
    }
    SumPlus(|adj|, PairDep(adj, s, dist, w), self, both);
    SumOnly(|adj|, self, w);
  }

  /** Only edges of the shortest-walk graph start shortest walks. */
  lemma FirstStepInDag(adj: Adjacency, s: nat, dist: seq<int>, v: nat, w: nat, t: nat)
    requires DistOk(adj, s, dist) && v < |adj| && w < |adj| && t < |adj| && 0 <= dist[v] < dist[t]
    ensures FirstStep(adj, dist[t] - dist[v] - 1, v, t)(w) == Dag(adj, dist, v, w) * W(adj, dist[t] - dist[v] - 1, w, t)
  {
    hide W, A, HasPred;
    var k := dist[t] - dist[v] - 1;
    EdgeIffPositive(adj, v, w);
    WNonNeg(adj, k, w, t);
    if A(adj, v, w) > 0.0 && W(adj, k, w, t) > 0.0 {
      WalkRaises(adj, s, dist, k, w, t);
    }
  }

  function DagTail(adj: Adjacency, s: nat, dist: seq<int>, v: nat): (nat, nat) -> real {
    (w: nat, t: nat) => Dag(adj, dist, v, w) * Tail(adj, s, dist, w)(t)
  }

  lemma DagTailAt(adj: Adjacency, s: nat, dist: seq<int>, v: nat, w: nat, t: nat)
    requires DistOk(adj, s, dist) && v < |adj| && w < |adj| && t < |adj| && 0 <= dist[v]
    ensures DagTail(adj, s, dist, v)(w, t) ==
            if dist[t] > dist[v] then Inv(adj, s, dist, t) * FirstStep(adj, dist[t] - dist[v] - 1, v, t)(w) else 0.0
  {
    hide W, A, HasPred, Inv, FirstStep;
    if dist[t] > dist[v] {
      FirstStepInDag(adj, s, dist, v, w, t);
      if dist[w] == dist[v] + 1 {
        var k := dist[t] - dist[v] - 1;
        assert Tail(adj, s, dist, w)(t) == W(adj, k, w, t) * Inv(adj, s, dist, t);
        MulRotate(Dag(adj, dist, v, w), W(adj, k, w, t), Inv(adj, s, dist, t));
        assert DagTail(adj, s, dist, v)(w, t) == Dag(adj, dist, v, w) * (W(adj, k, w, t) * Inv(adj, s, dist, t));
      } else {
        assert Dag(adj, dist, v, w) == 0.0;
      }
    } else {
      assert Dag(adj, dist, v, w) == 0.0 || Tail(adj, s, dist, w)(t) == 0.0;
    }
  }

  lemma MulRotate(a: real, b: real, c: real)
    ensures a * (b * c) == c * (a * b)
  {
  }

  /** Summing over the first edges of the shortest walks from v to t gives all of them. */
  lemma DagTailSum(adj: Adjacency, s: nat, dist: seq<int>, v: nat, t: nat)
    requires DistOk(adj, s, dist) && v < |adj| && t < |adj| && 0 <= dist[v]
    ensures W(adj, dist[v], s, v) * Sum(|adj|, Col(DagTail(adj, s, dist, v), t)) == PairDep(adj, s, dist, v)(t)
  {
    hide W, HasPred, Inv, FirstStep, DagTail, Sum;
    var col := Col(DagTail(adj, s, dist, v), t);
    if dist[t] > dist[v] {
      var k := dist[t] - dist[v] - 1;
      forall w: nat | w < |adj|
        ensures col(w) == Inv(adj, s, dist, t) * FirstStep(adj, k, v, t)(w)
      {
        DagTailAt(adj, s, dist, v, w, t);
      }
      SumTimes(|adj|, Inv(adj, s, dist, t), FirstStep(adj, k, v, t), col);
      WalksFirst(adj, k, v, t);
    } else {
      forall w: nat | w < |adj|
        ensures col(w) == 0.0
      {
        DagTailAt(adj, s, dist, v, w, t);
      }
      SumZero(|adj|, col);
    }
  }

  /** The dependency of v as a sum over its successors in the shortest-walk graph. */
  lemma DepOverSuccessors(adj: Adjacency, s: nat, dist: seq<int>, v: nat, rows: nat -> real)
    requires DistOk(adj, s, dist) && v < |adj| && 0 <= dist[v]
    requires forall w: nat :: w < |adj| ==> rows(w) == Dag(adj, dist, v, w) * Sum(|adj|, Tail(adj, s, dist, w))
    ensures W(adj, dist[v], s, v) * Sum(|adj|, rows) == Dep(adj, s, dist, v)
  {
    hide W, HasPred, Dag, Tail, PairDep, Sum;
    var F := DagTail(adj, s, dist, v);
    var cols := (t: nat) => Sum(|adj|, Col(F, t));
    forall w: nat | w < |adj|
      ensures rows(w) == Sum(|adj|, Row(F, w))
    {
      SumTimes(|adj|, Dag(adj, dist, v, w), Tail(adj, s, dist, w), Row(F, w));
    }
    SumSwap(|adj|, |adj|, F, rows, cols);
    forall t: nat | t < |adj|
      ensures PairDep(adj, s, dist, v)(t) == W(adj, dist[v], s, v) * cols(t)
    {
      DagTailSum(adj, s, dist, v, t);
    }
    SumTimes(|adj|, W(adj, dist[v], s, v), cols, PairDep(adj, s, dist, v));
  }

  lemma DeltaTermAt(adj: Adjacency, s: nat, dist: seq<int>, sigma: seq<int>, delta: seq<real>, v: nat, w: nat)
    requires DistOk(adj, s, dist) && SigmaOk(adj, s, dist, sigma) && |delta| == |adj|
    requires v < |adj| && w < |adj| && dist[v] >= 0
    requires dist[w] == dist[v] + 1 ==> delta[w] == Dep(adj, s, dist, w)
    ensures DeltaTerm(adj, dist, sigma, delta, v)(w) ==
            W(adj, dist[v], s, v) * (Dag(adj, dist, v, w) * Sum(|adj|, Tail(adj, s, dist, w)))
  {
    hide W, A, HasPred, Sum, Tail, SigmaOk, Dep;
    SigmaSize(adj, s, dist, sigma);
    if dist[w] == dist[v] + 1 {
      WalkToEach(adj, s, dist, w);
      SigmaCounts(adj, s, dist, sigma, v);
      SigmaCounts(adj, s, dist, sigma, w);
      OnePlusDep(adj, s, dist, w);
      FractionCancels(W(adj, dist[v], s, v), W(adj, dist[w], s, w), Sum(|adj|, Tail(adj, s, dist, w)), Dag(adj, dist, v, w));
    }
  }

  lemma SigmaSize(adj: Adjacency, s: nat, dist: seq<int>, sigma: seq<int>)
    requires SigmaOk(adj, s, dist, sigma)
    ensures |sigma| == |adj|
  {
  }

  lemma FractionCancels(a: real, b: real, t: real, d: real)
    requires b != 0.0
    ensures d * (a / b * (b * t)) == a * (d * t)
  {
    assert a / b * b == a;
    assert a / b * (b * t) == a * t;
  }

  /** Brandes' theorem: the recurrence computes the dependencies. */
  lemma {:induction false} DeltaIsDep(adj: Adjacency, s: nat, dist: seq<int>, sigma: seq<int>, delta: seq<real>,
                                      far: nat, v: nat)
    requires DistOk(adj, s, dist) && SigmaOk(adj, s, dist, sigma) && DeltaOk(adj, dist, sigma, delta)
    requires forall x: nat :: x < |adj| ==> dist[x] <= far
    requires v < |adj| && dist[v] >= 0
    ensures delta[v] == Dep(adj, s, dist, v)
    decreases far - dist[v]
  {
    hide W, HasPred, Sum, Dep, SigmaOk, DeltaTerm, Dag;
    var c := W(adj, dist[v], s, v);
    var rows := (w: nat) => Dag(adj, dist, v, w) * Sum(|adj|, Tail(adj, s, dist, w));
    forall w: nat | w < |adj|
      ensures DeltaTerm(adj, dist, sigma, delta, v)(w) == c * rows(w)
    {
      if dist[w] == dist[v] + 1 {
        DeltaIsDep(adj, s, dist, sigma, delta, far, w);
      }
      DeltaTermAt(adj, s, dist, sigma, delta, v, w);
    }
    SumTimes(|adj|, c, rows, DeltaTerm(adj, dist, sigma, delta, v));
    DepOverSuccessors(adj, s, dist, v, rows);
  }
}
