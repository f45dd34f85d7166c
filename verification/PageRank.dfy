/** PageRank::compute and PageRank::makeTeleport. */
module PageRank {
  import opened Digraph
  import opened Sums
  import opened RandomWalk
  import opened Outcomes

  function Uniform(n: nat): seq<real> {
    seq(n, _ => if n == 0 then 0.0 else 1.0 / n as real)
  }

  /** The restart distribution that a teleport vector stands for. */
  function Restart(n: nat, teleport: seq<real>): seq<real> {
    if teleport == [] || Mass(teleport) <= 0.0 then Uniform(n)
    else if Abs(Mass(teleport) - 1.0) > 0.000000000001 then seq(|teleport|, v requires 0 <= v < |teleport| => teleport[v] / Mass(teleport))
    else teleport
  }

  lemma UniformMass(n: nat)
    requires n > 0
    ensures Mass(Uniform(n)) == 1.0 && NonNeg(Uniform(n))
  {
    UniformPart(n, n);
    SumCongr(n, Entry(Uniform(n)), (i: nat) => 1.0 / n as real);
  }

  lemma {:induction false} UniformPart(n: nat, k: nat)
    requires n > 0
    ensures Sum(k, (i: nat) => 1.0 / n as real) == k as real / n as real
  {
    if k > 0 {
      UniformPart(n, k - 1);
      assert (k - 1) as real / n as real + 1.0 / n as real == k as real / n as real;
    }
  }

  /** The restart distribution is non-negative; it sums to exactly 1 unless the teleport vector was
      taken as it is, within 1e-12 of 1. */
  lemma RestartMass(n: nat, teleport: seq<real>)
    requires n > 0 && NonNeg(teleport) && (teleport == [] || |teleport| == n)
    ensures |Restart(n, teleport)| == n && NonNeg(Restart(n, teleport))
    ensures Mass(Restart(n, teleport)) <= 1.000000000001
    ensures Mass(Restart(n, teleport)) == 1.0 <==>
            Mass(teleport) == 1.0 || Mass(teleport) <= 0.0 || Abs(Mass(teleport) - 1.0) > 0.000000000001
  {
    UniformMass(n);
    var s := Mass(teleport);
    if teleport == [] {
      assert Mass(teleport) == 0.0;
    } else if s > 0.0 && Abs(s - 1.0) > 0.000000000001 {
      var r := Restart(n, teleport);
      forall v: nat | v < n
        ensures r[v] >= 0.0 && Entry(r)(v) == 1.0 / s * Entry(teleport)(v)
      {
        DivNonNeg(teleport[v], s);
        DivIsTimes(teleport[v], s);
      }
      SumTimes(n, 1.0 / s, Entry(teleport), Entry(r));
      DivIsTimes(1.0, s);
    }
  }

  /** A teleport vector that is off by 5e-13 is taken as it is, and the first sweep leaves the mass 1. */
  lemma TeleportTakenAsIs(w: Walk)
    requires w.adj == [[]] && w.p == Restart(1, [1.0000000000005]) && 0.0 <= w.d < 1.0
    ensures Mass(Uniform(1)) == 1.0 && Mass(w.Step(Uniform(1))) != 1.0
  {
    var teleport := [1.0000000000005];
    assert Mass(teleport) == Sum(0, Entry(teleport)) + 1.0000000000005;
    UniformMass(1);
    MassKeptIff(w, Uniform(1));
  }

  // ---- One sweep -------------------------------------------------------------------------

  /** `share` times what the first n edges of u send to v. */
  function Shared(w: Walk, u: nat, share: real, n: nat, v: nat): real {
    share * w.RowPart(u, n, v)
  }

  /** What node u sends along its edges per unit of weight. */
  function ShareOf(w: Walk, x: seq<real>, u: nat): real {
    if u < |x| && w.Out(u) > 0.0 then w.d * x[u] / w.Out(u) else 0.0
  }

  /** What node u pushes to v. */
  function Push(w: Walk, x: seq<real>, v: nat): nat -> real {
    (u: nat) => if u < |x| && u < w.N() && w.Out(u) > 0.0 then Shared(w, u, ShareOf(w, x, u), |w.adj[u]|, v) else 0.0
  }

  /** What a sweep puts on v before anything is pushed, with dangling mass g. */
  function Base(w: Walk, g: real, v: nat): real {
    ((1.0 - w.d) + w.d * g) * w.P(v)
  }

  lemma BaseSplit(w: Walk, g: real, v: nat)
    ensures Base(w, g, v) == (1.0 - w.d) * w.P(v) + w.d * w.P(v) * g
  {
  }

  lemma PushTerm(w: Walk, x: seq<real>, v: nat, u: nat)
    requires |x| == w.N() && u < w.N()
    ensures w.d * w.Flow(x, v)(u) == Push(w, x, v)(u) + w.d * w.P(v) * Stuck(w, x)(u)
  {
    if w.Out(u) > 0.0 {
      PushArithmetic(w.d, x[u], w.Out(u), w.RowPart(u, |w.adj[u]|, v));
      assert Push(w, x, v)(u) == ShareOf(w, x, u) * w.RowPart(u, |w.adj[u]|, v);
    } else {
      assert w.d * (x[u] * w.P(v)) == w.d * w.P(v) * x[u];
    }
  }

  lemma PushArithmetic(d: real, x: real, out: real, row: real)
    requires out != 0.0
    ensures d * (x * (row / out)) == d * x / out * row
  {
    var q := 1.0 / out;
    assert row / out == row * q && d * x / out == d * x * q;
    assert d * (x * (row * q)) == d * x * q * row;
  }

  function DFlow(w: Walk, x: seq<real>, v: nat): nat -> real {
    (u: nat) => w.d * w.Flow(x, v)(u)
  }

  function StuckShare(w: Walk, x: seq<real>, v: nat): nat -> real {
    (u: nat) => w.d * w.P(v) * Stuck(w, x)(u)
  }

  /** Pushing from every node gives the documented equation. */
  lemma PushIsPull(w: Walk, x: seq<real>, v: nat)
    requires |x| == w.N()
    ensures Base(w, Dangling(w, x), v) + Sum(w.N(), Push(w, x, v)) == w.Next(x, v)
  {
    hide Sum, Base, Push;
    SumTimes(w.N(), w.d * w.P(v), Stuck(w, x), StuckShare(w, x, v));
    SumTimes(w.N(), w.d, w.Flow(x, v), DFlow(w, x, v));
    forall u: nat | u < w.N()
      ensures DFlow(w, x, v)(u) == Push(w, x, v)(u) + StuckShare(w, x, v)(u)
    {
      PushTerm(w, x, v, u);
    }
    SumPlus(w.N(), Push(w, x, v), StuckShare(w, x, v), DFlow(w, x, v));
    BaseSplit(w, Dangling(w, x), v);
  }

  lemma SharedStep(w: Walk, u: nat, share: real, i: nat, v: nat)
    requires u < w.N() && i < |w.adj[u]|
    ensures Shared(w, u, share, i + 1, v) ==
            Shared(w, u, share, i, v) + if w.adj[u][i] == v then share * WeightAt(w.adj, w.adjW, u, i) else 0.0
  {
    if w.adj[u][i] == v {
      Distribute(share, w.RowPart(u, i, v), w.WeightOf(u, i));
    }
  }

  lemma Distribute(a: real, b: real, c: real)
    ensures a * (b + c) == a * b + a * c
  {
  }

  lemma NothingShared(w: Walk, u: nat, share: real, v: nat)
    ensures Shared(w, u, share, 0, v) == 0.0
  {
  }

  method PushFrom(w: Walk, u: nat, share: real, prNew: array<real>)
    requires WellFormed(w.adj) && u < w.N() == prNew.Length
    modifies prNew
    ensures forall v: nat :: v < prNew.Length ==> prNew[v] == old(prNew[v]) + Shared(w, u, share, |w.adj[u]|, v)
  {
    hide Shared, WeightAt;
    forall v: nat
      ensures Shared(w, u, share, 0, v) == 0.0
    {
      NothingShared(w, u, share, v);
    }
    for i := 0 to |w.adj[u]|
      invariant forall v: nat :: v < prNew.Length ==> prNew[v] == old(prNew[v]) + Shared(w, u, share, i, v)
    {
      var t := w.adj[u][i];
      ghost var next: nat := i + 1;
      forall v: nat
        ensures Shared(w, u, share, next, v) ==
                Shared(w, u, share, i, v) + if t == v then share * WeightAt(w.adj, w.adjW, u, i) else 0.0
      {
        SharedStep(w, u, share, i, v);
      }
      prNew[t] := prNew[t] + share * WeightAt(w.adj, w.adjW, u, i);
    }
  }

  /** The teleport part of a sweep: everywhere the same in the plain walk, by p in a seeded one. */
  method Refill(w: Walk, seeded: bool, dangling: real, prNew: array<real>)
    requires prNew.Length == w.N() == |w.p| && w.N() > 0 && (!seeded ==> w.p == Uniform(w.N()))
    modifies prNew
    ensures forall v: nat :: v < prNew.Length ==> prNew[v] == Base(w, dangling, v)
  {
    hide Base, Uniform, Times;
    if seeded {
      var tele := (1.0 - w.d) + w.d * dangling;
      for v := 0 to prNew.Length
        invariant forall k: nat :: k < v ==> prNew[k] == Base(w, dangling, k)
      {
        SeededBase(w, dangling, v);
        prNew[v] := Times(tele, w.p[v]);
      }
    } else {
      var base := (1.0 - w.d) / w.N() as real + w.d * dangling / w.N() as real;
      UniformBase(w, dangling);
      for v := 0 to prNew.Length
        invariant forall k: nat :: k < v ==> prNew[k] == base
      {
        prNew[v] := base;
      }
    }
  }

  lemma SeededBase(w: Walk, dangling: real, v: nat)
    requires v < |w.p|
    ensures Base(w, dangling, v) == Times((1.0 - w.d) + w.d * dangling, w.p[v])
  {
  }

  lemma UniformBase(w: Walk, dangling: real)
    requires |w.p| == w.N() > 0 && w.p == Uniform(w.N())
    ensures forall v: nat :: v < w.N() ==>
      Base(w, dangling, v) == (1.0 - w.d) / w.N() as real + w.d * dangling / w.N() as real
  {
    forall v: nat | v < w.N()
      ensures Base(w, dangling, v) == (1.0 - w.d) / w.N() as real + w.d * dangling / w.N() as real
    {
      BaseIsTele(w.d, dangling, w.N() as real, w.P(v));
    }
  }

  lemma BaseIsTele(d: real, g: real, n: real, p: real)
    requires n != 0.0 && p == 1.0 / n
    ensures (1.0 - d) / n + d * g / n == ((1.0 - d) + d * g) * p
  {
    assert (1.0 - d) / n == (1.0 - d) * p && d * g / n == d * g * p;
  }

  lemma SumStep(n: nat, f: nat -> real)
    ensures Sum(n + 1, f) == Sum(n, f) + f(n)
  {
  }

  lemma PushAt(w: Walk, x: seq<real>, v: nat, u: nat)
    requires |x| == w.N() && u < w.N()
    ensures Push(w, x, v)(u) == if w.Out(u) > 0.0 then Shared(w, u, ShareOf(w, x, u), |w.adj[u]|, v) else 0.0
  {
    hide Shared, ShareOf;
  }

  method DanglingMass(w: Walk, outW: seq<real>, pr: array<real>) returns (dangling: real)
    requires pr.Length == |outW| == w.N() && forall u: nat :: u < w.N() ==> outW[u] == w.Out(u)
    ensures dangling == Dangling(w, pr[..])
  {
    dangling := 0.0;
    for u := 0 to w.N()
      invariant dangling == Sum(u, Stuck(w, pr[..]))
    {
      if outW[u] <= 0.0 {
        dangling := dangling + pr[u];
      }
    }
  }

  method Sweep(w: Walk, seeded: bool, outW: seq<real>, pr: array<real>, prNew: array<real>)
    requires WellFormed(w.adj) && w.N() > 0 && pr.Length == prNew.Length == |w.p| == |outW| == w.N() && pr != prNew
    requires !seeded ==> w.p == Uniform(w.N())
    requires forall u: nat :: u < w.N() ==> outW[u] == w.Out(u)
    modifies prNew
    ensures prNew[..] == w.Step(pr[..])
  {
    hide Sum, Push, Shared, Base, Dangling, Stuck;
    ghost var x := pr[..];
    var dangling := DanglingMass(w, outW, pr);
    Refill(w, seeded, dangling, prNew);
    forall v: nat
      ensures Sum(0, Push(w, x, v)) == 0.0
    {
      SumZero(0, Push(w, x, v));
    }
    for u := 0 to w.N()
      invariant pr[..] == x
      invariant forall v: nat :: v < w.N() ==> prNew[v] == Base(w, dangling, v) + Sum(u, Push(w, x, v))
    {
      ghost var next: nat := u + 1;
      forall v: nat
        ensures Sum(next, Push(w, x, v)) == Sum(u, Push(w, x, v)) + (if w.Out(u) > 0.0 then Shared(w, u, ShareOf(w, x, u), |w.adj[u]|, v) else 0.0)
      {
        SumStep(u, Push(w, x, v));
        PushAt(w, x, v, u);
      }
      if outW[u] <= 0.0 { continue; }
      var share := w.d * pr[u] / outW[u];
      assert pr[u] == x[u];
      assert share == ShareOf(w, x, u);
      PushFrom(w, u, share, prNew);
    }
    forall v: nat | v < w.N()
      ensures prNew[v] == w.Next(x, v)
    {
      PushIsPull(w, x, v);
    }
  }

  method Difference(a: array<real>, b: array<real>) returns (diff: real)
    requires a.Length == b.Length
    ensures diff == L1(a[..], b[..])
  {
    diff := 0.0;
    for i := 0 to a.Length
      invariant diff == Sum(i, Gap(a[..], b[..]))
    {
      diff := diff + Abs(a[i] - b[i]);
    }
  }

  // ---- The iteration ---------------------------------------------------------------------

  /** The sweep with which the loop stops: the first that changes the vector by less than eps. */
  ghost predicate StopsAt(w: Walk, x: seq<real>, eps: real, maxIter: int, k: nat) {
    && (k as int <= maxIter || k == 0)
    && (forall j: nat :: 0 < j < k ==> Change(w, x, j) >= eps)
    && (k as int < maxIter ==> k > 0 && Change(w, x, k) < eps)
  }

  /** How much the j-th sweep changes the vector. */
  ghost function Change(w: Walk, x: seq<real>, j: nat): real
    requires j > 0
  {
    L1(w.Iterate(x, j), w.Iterate(x, j - 1))
  }

  method OutWeights(w: Walk) returns (outW: seq<real>)
    ensures |outW| == w.N() && forall u: nat :: u < w.N() ==> outW[u] == w.Out(u)
    ensures forall u: nat :: u < w.N() ==>
      outW[u] == if u < |w.adjW| && |w.adjW[u]| == |w.adj[u]| then Total(w.adjW[u]) else |w.adj[u]| as real
  {
    outW := [];
    for u := 0 to w.N()
      invariant |outW| == u && forall k: nat :: k < u ==> outW[k] == w.Out(k)
    {
      var s := 0.0;
      for i := 0 to |w.adj[u]|
        invariant s == w.OutPart(u, i)
      {
        s := s + WeightAt(w.adj, w.adjW, u, i);
      }
      outW := outW + [s];
    }
    forall u: nat | u < w.N()
      ensures w.Out(u) == if u < |w.adjW| && |w.adjW[u]| == |w.adj[u]| then Total(w.adjW[u]) else |w.adj[u]| as real
    {
      OutIs(w, u);
    }
  }

  lemma OutIs(w: Walk, u: nat)
    requires u < w.N()
    ensures w.Out(u) == if u < |w.adjW| && |w.adjW[u]| == |w.adj[u]| then Total(w.adjW[u]) else |w.adj[u]| as real
  {
    if u < |w.adjW| && |w.adjW[u]| == |w.adj[u]| {
      OutIsTotal(w, u);
    } else {
      OutPartIsNumber(w, u, |w.adj[u]|);
    }
  }

  lemma IterateNext(w: Walk, x: seq<real>, k: nat)
    ensures w.Iterate(x, k + 1) == w.Step(w.Iterate(x, k))
  {
  }

  method PowerIteration(w: Walk, seeded: bool, eps: real, maxIter: int) returns (pr: array<real>, ghost sweeps: nat)
    requires WellFormed(w.adj) && w.N() > 0 && |w.p| == w.N() && (!seeded ==> w.p == Uniform(w.N()))
    ensures pr[..] == w.Iterate(Uniform(w.N()), sweeps)
    ensures StopsAt(w, Uniform(w.N()), eps, maxIter, sweeps)
  {
    hide L1;
    var n := w.N();
    pr := new real[n](_ => 1.0 / n as real);
    var prNew := new real[n];
    assert pr[..] == Uniform(n);
    var outW := OutWeights(w);
    ghost var x := Uniform(n);
    sweeps := 0;
    var iter := 0;
    while iter < maxIter
      invariant 0 <= iter && iter == sweeps && (iter <= maxIter || iter == 0)
      invariant fresh(pr) && fresh(prNew) && pr != prNew && pr.Length == prNew.Length == n
      invariant pr[..] == w.Iterate(x, sweeps)
      invariant forall j: nat :: 0 < j <= sweeps ==> Change(w, x, j) >= eps
      decreases maxIter - iter
    {
      Sweep(w, seeded, outW, pr, prNew);
      var diff := Difference(prNew, pr);
      pr, prNew := prNew, pr;
      sweeps := sweeps + 1;
      IterateNext(w, x, sweeps - 1);
      if diff < eps { break; }
      iter := iter + 1;
    }
  }

  /** A teleport vector without positive sum stands for equal shares; one whose sum is farther than 1e-12 from 1 for its
      entries divided by that sum; any other for itself. */
  ghost predicate IsRestart(n: nat, teleport: seq<real>, p: seq<real>) {
    && |p| == n
    && if teleport == [] || Mass(teleport) <= 0.0 then forall v :: 0 <= v < n ==> p[v] == 1.0 / n as real
       else if -0.000000000001 <= Mass(teleport) - 1.0 <= 0.000000000001 then p == teleport
       else forall v :: 0 <= v < n && v < |teleport| ==> p[v] * Mass(teleport) == teleport[v]
  }

  lemma RestartIs(n: nat, teleport: seq<real>)
    requires teleport == [] || |teleport| == n
    ensures IsRestart(n, teleport, Restart(n, teleport))
  {
    hide Mass;
    if teleport != [] && Mass(teleport) > 0.0 {
      forall v | 0 <= v < n
        ensures teleport[v] / Mass(teleport) * Mass(teleport) == teleport[v]
      {
        DivIsTimes(teleport[v], Mass(teleport));
      }
    }
  }

  /** PageRank::compute. A teleport vector of the wrong size or with a negative entry is refused. */
  method Compute(adj: Adjacency, adjW: seq<seq<real>>, d: real, eps: real, maxIter: int, teleport: seq<real>)
    returns (r: Result<seq<real>>, ghost w: Walk, ghost sweeps: nat)
    requires WellFormed(adj)
    ensures r.InvalidArgument? <==> adj != [] && teleport != [] && (|teleport| != |adj| || !NonNeg(teleport))
    ensures w == Walk(adj, adjW, Restart(|adj|, teleport), d)
    ensures r.Ok? && adj != [] ==> IsRestart(|adj|, teleport, w.p) && FollowsWeights(w)
    ensures r.Ok? && adj == [] ==> r.value == []
    ensures r.Ok? && adj != [] ==> r.value == w.Iterate(Uniform(|adj|), sweeps) && StopsAt(w, Uniform(|adj|), eps, maxIter, sweeps)
  {
    hide FollowsWeights, IsRestart;
    w, sweeps := Walk(adj, adjW, Restart(|adj|, teleport), d), 0;
    if |adj| == 0 { return Ok([]), w, sweeps; }
    if teleport != [] && |teleport| != |adj| { return InvalidArgument, w, sweeps; }
    var p := Uniform(|adj|);
    var seeded := false;
    if teleport != [] {
      var sum := 0.0;
      for v := 0 to |teleport|
        invariant sum == Sum(v, Entry(teleport))
        invariant forall k :: 0 <= k < v ==> teleport[k] >= 0.0
      {
        if teleport[v] < 0.0 { return InvalidArgument, w, sweeps; }
        sum := sum + teleport[v];
      }
      if sum > 0.0 {
        seeded := true;
        p := if Abs(sum - 1.0) > 0.000000000001 then seq(|teleport|, v requires 0 <= v < |teleport| => teleport[v] / sum) else teleport;
      }
    }
    assert p == Restart(|adj|, teleport);
    var pr;
    pr, sweeps := PowerIteration(Walk(adj, adjW, p, d), seeded, eps, maxIter);
    RestartIs(|adj|, teleport);
    StepsFollowWeights(w);
    return Ok(pr[..]), w, sweeps;
  }

  /** With the default constants the loop always leaves because it has converged, after at most 91
      of its 100 sweeps. */
  lemma DefaultsConverge(w: Walk, k: nat)
    requires w.Valid() && w.N() > 0 && w.d == 0.85 && Mass(w.p) <= 1.000000000001
    requires StopsAt(w, Uniform(w.N()), 0.000001, 100, k)
    ensures 0 < k <= 91 && Change(w, Uniform(w.N()), k) < 0.000001
  {
    hide L1, Mass;
    var x := Uniform(w.N());
    UniformMass(w.N());
    NinetyOneSweeps(w, x);
    IterateSize(w, x, 90);
    IterateSize(w, x, 91);
    L1Symmetric(w.Iterate(x, 90), w.Iterate(x, 91));
    assert Change(w, x, 91) < 0.000001;
  }

  /** The result of a converged run is within c / (1 - c) * eps of every fixed point, where c is the
      damping factor unless p exceeds 1. */
  lemma ConvergedIsClose(w: Walk, k: nat, z: seq<real>, eps: real)
    requires w.Valid() && w.N() > 0 && k > 0 && Change(w, Uniform(w.N()), k) < eps
    requires |z| == w.N() && w.Step(z) == z
    ensures (1.0 - Factor(w)) * L1(w.Iterate(Uniform(w.N()), k), z) <= Factor(w) * eps
    ensures Mass(w.p) <= 1.0 ==> Factor(w) == w.d
  {
    hide L1, Mass;
    var x := Uniform(w.N());
    IterateSize(w, x, k);
    IterateSize(w, x, k - 1);
    L1Symmetric(w.Iterate(x, k), w.Iterate(x, k - 1));
    CloseToFixedPoint(w, w.Iterate(x, k - 1), z, eps);
  }

  // ---- Seeds -----------------------------------------------------------------------------

  datatype SeedEntry = SeedEntry(fileId: string, weight: real)

  /** The seed names a node of the graph and has a positive weight. */
  predicate Matches(ids: map<string, nat>, s: SeedEntry) {
    s.fileId in ids && s.weight > 0.0
  }

  /** The weight that the first k seeds give to node v. */
  function SeedWeight(ids: map<string, nat>, seeds: seq<SeedEntry>, k: nat, v: nat): real
    requires k <= |seeds|
  {
    if k == 0 then 0.0
    else SeedWeight(ids, seeds, k - 1, v) +
         if Matches(ids, seeds[k - 1]) && ids[seeds[k - 1].fileId] == v then seeds[k - 1].weight else 0.0
  }

  /** The weight that the first k seeds put on the graph altogether. */
  function MatchedWeight(ids: map<string, nat>, seeds: seq<SeedEntry>, k: nat): real
    requires k <= |seeds|
  {
    if k == 0 then 0.0
    else MatchedWeight(ids, seeds, k - 1) + if Matches(ids, seeds[k - 1]) then seeds[k - 1].weight else 0.0
  }

  lemma MassUpdate(p: seq<real>, i: nat, x: real)
    requires i < |p|
    ensures Mass(p[i := p[i] + x]) == Mass(p) + x
  {
    SumChange(|p|, Entry(p), Entry(p[i := p[i] + x]), i);
  }

  lemma ZeroMass(n: nat)
    ensures Mass(seq(n, _ => 0.0)) == 0.0
  {
    SumZero(n, Entry(seq(n, _ => 0.0)));
  }

  lemma NormalizedMass(raw: seq<real>, p: seq<real>)
    requires Mass(raw) > 0.0 && |p| == |raw| && NonNeg(raw)
    requires forall v :: 0 <= v < |raw| ==> p[v] == raw[v] / Mass(raw)
    ensures Mass(p) == 1.0 && NonNeg(p)
  {
    var s := Mass(raw);
    forall v: nat | v < |p|
      ensures p[v] >= 0.0 && Entry(p)(v) == 1.0 / s * Entry(raw)(v)
    {
      DivNonNeg(raw[v], s);
      DivIsTimes(raw[v], s);
    }
    SumTimes(|p|, 1.0 / s, Entry(raw), Entry(p));
    DivIsTimes(1.0, s);
  }

  /** PageRank::makeTeleport: seeds outside the graph and seeds without positive weight are dropped;
      the rest is normalised to sum to exactly 1. Empty means that no seed is left. */
  method MakeTeleport(n: nat, ids: map<string, nat>, seeds: seq<SeedEntry>) returns (p: seq<real>)
    requires forall s :: s in ids ==> ids[s] < n
    ensures p == [] <==> forall i :: 0 <= i < |seeds| ==> !Matches(ids, seeds[i])
    ensures p != [] ==> |p| == n && NonNeg(p) && Mass(p) == 1.0
    ensures p != [] ==> MatchedWeight(ids, seeds, |seeds|) > 0.0 && forall v: nat :: v < n ==>
      p[v] == SeedWeight(ids, seeds, |seeds|, v) / MatchedWeight(ids, seeds, |seeds|)
  {
    hide Mass;
    if n == 0 { return []; }
    var raw := seq(n, _ => 0.0);
    ZeroMass(n);
    var sum := 0.0;
    for k := 0 to |seeds|
      invariant |raw| == n && NonNeg(raw) && Mass(raw) == sum == MatchedWeight(ids, seeds, k) && sum >= 0.0
      invariant sum > 0.0 <==> exists i :: 0 <= i < k && Matches(ids, seeds[i])
      invariant forall v: nat :: v < n ==> raw[v] == SeedWeight(ids, seeds, k, v)
    {
      var s := seeds[k];
      if s.fileId !in ids { continue; }
      if !(s.weight > 0.0) { continue; }
      MassUpdate(raw, ids[s.fileId], s.weight);
      raw := raw[ids[s.fileId] := raw[ids[s.fileId]] + s.weight];
      sum := sum + s.weight;
      assert Matches(ids, seeds[k]);
    }
    if !(sum > 0.0) { return []; }
    p := seq(n, v requires 0 <= v < n => raw[v] / sum);
    NormalizedMass(raw, p);
  }

  /** The positions below k whose seed matches. */
  function Matching(ids: map<string, nat>, seeds: seq<SeedEntry>, k: nat): set<nat>
    requires k <= |seeds|
  {
    set i: nat | i < k && Matches(ids, seeds[i])
  }

  /** AlgoRunner::personalizedPageRank counts the seeds that matched; 0 tells the caller that the walk fell
      back to plain PageRank, exactly when makeTeleport has returned nothing. */
  method MatchedSeeds(ids: map<string, nat>, seeds: seq<SeedEntry>) returns (matched: nat)
    ensures matched == |Matching(ids, seeds, |seeds|)|
    ensures matched == 0 <==> forall i :: 0 <= i < |seeds| ==> !Matches(ids, seeds[i])
  {
    matched := 0;
    for k := 0 to |seeds|
      invariant matched == |Matching(ids, seeds, k)|
      invariant matched == 0 <==> forall i :: 0 <= i < k ==> !Matches(ids, seeds[i])
    {
      if seeds[k].weight > 0.0 && seeds[k].fileId in ids {
        matched := matched + 1;
        assert Matches(ids, seeds[k]);
        assert Matching(ids, seeds, k + 1) == Matching(ids, seeds, k) + {k};
      } else {
        assert Matching(ids, seeds, k + 1) == Matching(ids, seeds, k);
      }
    }
  }
}
