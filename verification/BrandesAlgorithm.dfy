/** brandes_source and the strategies built on it. */
module BrandesAlgorithm {
  import opened Digraph
  import opened Sums
  import opened Sorting
  import opened Walks
  import opened SearchInvariants
  import opened ShortestPaths
  import opened ReadingOrders
  import Conservation

  /** The forward pass from s. */
  method Search(adj: Adjacency, s: nat)
    returns (sigma: seq<int>, ghost dist: seq<int>, pred: seq<seq<nat>>, stk: seq<nat>)
    requires WellFormed(adj) && s < |adj|
    ensures DistOk(adj, s, dist) && SigmaOk(adj, s, dist, sigma)
    ensures PredOk(adj, dist, pred) && StackOk(adj, dist, stk)
    ensures forall w: nat, v: nat :: w < |adj| && w < |pred| && v in pred[w] ==> v < |adj|
  {
    hide DistInv, SigmaInv, PredInv, Between, Within, DistOk, SigmaOk, PredOk, StackOk;
    var N := |adj|;
    var far := Single(N, s, 0, -1);
    sigma := Single(N, s, 1, 0);
    pred := NoLists(N);
    ghost var prog: seq<nat> := Zeros(N);
    var q: seq<nat> := [s];
    stk := [];
    InitialState(adj, s);
    while |q| > 0
      invariant DistInv(adj, s, far, prog) && SigmaInv(adj, s, far, prog, sigma) && PredInv(adj, far, prog, pred)
      invariant Between(adj, far, stk, q, prog)
      decreases N - |stk|
    {
      RoundStarts(adj, far, stk, q, prog);
      RoundIsNew(adj, far, stk, q, prog);
      var v := q[0];
      q := q[1..];
      stk := stk + [v];
      for i := 0 to |adj[v]|
        invariant DistInv(adj, s, far, prog) && SigmaInv(adj, s, far, prog, sigma) && PredInv(adj, far, prog, pred)
        invariant Within(adj, far, stk, q, prog, v, i)
      {
        var w := adj[v][i];
        ghost var far0 := far;
        Sizes(adj, s, far, sigma, pred, stk, q, prog, v, i);
        if far[w] < 0 {
          DiscoverStep(adj, s, far, sigma, pred, stk, q, prog, v, i);
          far := far[w := far[v] + 1];
          q := q + [w];
        }
        EdgeStep(adj, s, far0, far, sigma, pred, stk, q, prog, v, i);
        if far[w] == far[v] + 1 {
          sigma := sigma[w := sigma[w] + sigma[v]];
          pred := pred[w := pred[w] + [v]];
        }
        prog := prog[v := i + 1];
      }
      RoundEnds(adj, far, stk, q, prog, v);
    }
    dist := far;
    assert q == [];
    FinalDist(adj, s, far, stk, prog);
    FinalSigma(adj, s, far, stk, prog, sigma);
    FinalPred(adj, far, stk, prog, pred);
    FinalStack(adj, far, stk, prog);
    PredsInRange(adj, far, pred, prog);
  }

  lemma RoundIsNew(adj: Adjacency, dist: seq<int>, stk: seq<nat>, q: seq<nat>, prog: seq<nat>)
    requires Between(adj, dist, stk, q, prog) && q != []
    ensures q[0] < |adj| && |stk| < |adj|
  {
    var order := stk + q;
    assert order[|stk|] == q[0] && q[0] in order;
    var S := set x | x in order;
    DistinctSize(order, S);
    SubsetSize(S, Below(|adj|));
  }

  lemma Sizes(adj: Adjacency, s: nat, dist: seq<int>, sigma: seq<int>, pred: seq<seq<nat>>, stk: seq<nat>,
              q: seq<nat>, prog: seq<nat>, v: nat, i: nat)
    requires DistInv(adj, s, dist, prog) && SigmaInv(adj, s, dist, prog, sigma) && PredInv(adj, dist, prog, pred)
    requires Within(adj, dist, stk, q, prog, v, i) && v < |adj| && i < |adj[v]|
    ensures |dist| == |sigma| == |pred| == |prog| == |adj|
    ensures prog[v] == i && dist[v] >= 0 && adj[v][i] < |adj|
  {
    hide QueueInv, SigmaAt, SeenPred;
  }

  lemma DiscoverStep(adj: Adjacency, s: nat, dist: seq<int>, sigma: seq<int>, pred: seq<seq<nat>>, stk: seq<nat>,
                     q: seq<nat>, prog: seq<nat>, v: nat, i: nat)
    requires DistInv(adj, s, dist, prog) && SigmaInv(adj, s, dist, prog, sigma) && PredInv(adj, dist, prog, pred)
    requires Within(adj, dist, stk, q, prog, v, i) && v < |adj| && i < |adj[v]|
    requires |dist| == |adj| && adj[v][i] < |adj| && dist[adj[v][i]] < 0 && dist[v] >= 0
    ensures var w := adj[v][i];
      && SigmaInv(adj, s, dist[w := dist[v] + 1], prog, sigma)
      && PredInv(adj, dist[w := dist[v] + 1], prog, pred)
      && Within(adj, dist[w := dist[v] + 1], stk, q + [w], prog, v, i)
  {
    var w := adj[v][i];
    Sizes(adj, s, dist, sigma, pred, stk, q, prog, v, i);
    hide DistInv, SigmaInv, PredInv, Within;
    Discovered(adj, dist, stk, q, prog, v, i, w);
    SigmaDiscover(adj, s, dist, prog, sigma, w, dist[v] + 1);
    PredDiscover(adj, s, dist, prog, pred, w, dist[v] + 1);
  }

  /** The edge v -> adj[v][i] has been looked at. */
  lemma EdgeStep(adj: Adjacency, s: nat, dist0: seq<int>, dist: seq<int>, sigma: seq<int>, pred: seq<seq<nat>>,
                 stk: seq<nat>, q: seq<nat>, prog: seq<nat>, v: nat, i: nat)
    requires DistInv(adj, s, dist0, prog) && |dist0| == |dist| == |sigma| == |pred| == |prog| == |adj|
    requires v < |adj| && i < |adj[v]| && prog[v] == i && dist0[v] >= 0 && adj[v][i] < |adj|
    requires dist == if dist0[adj[v][i]] < 0 then dist0[adj[v][i] := dist0[v] + 1] else dist0
    requires SigmaInv(adj, s, dist, prog, sigma) && PredInv(adj, dist, prog, pred)
    requires Within(adj, dist, stk, q, prog, v, i)
    ensures var w := adj[v][i];
      var prog' := prog[v := i + 1];
      && DistInv(adj, s, dist, prog')
      && (dist[w] == dist[v] + 1 ==> SigmaInv(adj, s, dist, prog', sigma[w := sigma[w] + sigma[v]]) &&
                                     PredInv(adj, dist, prog', pred[w := pred[w] + [v]]))
      && (dist[w] != dist[v] + 1 ==> SigmaInv(adj, s, dist, prog', sigma) && PredInv(adj, dist, prog', pred))
      && Within(adj, dist, stk, q, prog', v, i + 1)
  {
    hide SigmaInv, PredInv, QueueInv, SeenPred;
    var w := adj[v][i];
    forall x: nat | x < |adj|
      ensures dist0[x] <= dist0[v] + 1
    {
      assert dist[x] <= dist[v] + 1;
    }
    DistStep(adj, s, dist0, prog, v);
    PredEdge(adj, dist, prog, pred, v);
    if dist[w] == dist[v] + 1 {
      NextLevelFresh(adj, dist, stk, q, prog, v, i, w);
      SigmaCredit(adj, s, dist, prog, sigma, v, w);
    } else {
      SigmaSkip(adj, s, dist, prog, sigma, v);
    }
    EdgeDone(adj, dist, stk, q, prog, v, i);
  }

  // ---- The backward pass -----------------------------------------------------------------

  /** The contribution of one successor w to its predecessor v. */
  function Share(sigma: seq<int>, delta: seq<real>, v: nat, w: nat): real
    requires v < |sigma| && w < |sigma| && w < |delta| && sigma[w] != 0
  {
    sigma[v] as real / sigma[w] as real * (1.0 + delta[w])
  }

  /** What v has received after the first i entries of the predecessor list of w. */
  function Received(pred: seq<nat>, i: nat, sigma: seq<int>, delta: seq<real>, v: nat, w: nat): real
    requires i <= |pred| && v < |sigma| && w < |sigma| && w < |delta| && sigma[w] != 0
  {
    Count(pred[..i], v) as real * Share(sigma, delta, v, w)
  }

  lemma ReceivedStep(pred: seq<nat>, i: nat, sigma: seq<int>, delta: seq<real>, v: nat, w: nat)
    requires i < |pred| && v < |sigma| && w < |sigma| && w < |delta| && sigma[w] != 0
    ensures Received(pred, i + 1, sigma, delta, v, w) ==
            Received(pred, i, sigma, delta, v, w) + if pred[i] == v then Share(sigma, delta, v, w) else 0.0
  {
    hide Share;
    assert pred[..i + 1] == pred[..i] + [pred[i]];
    CountAppend(pred[..i], pred[i], v);
    OneMore(Count(pred[..i], v) as real, Share(sigma, delta, v, w));
  }

  lemma OneMore(n: real, x: real)
    ensures (n + 1.0) * x == n * x + x
  {
  }

  lemma NothingReceived(pred: seq<nat>, sigma: seq<int>, delta: seq<real>, v: nat, w: nat)
    requires v < |sigma| && w < |sigma| && w < |delta| && sigma[w] != 0
    ensures Received(pred, 0, sigma, delta, v, w) == 0.0
  {
    assert pred[..0] == [];
  }

  lemma NoneReceived(pred: seq<nat>, sigma: seq<int>, delta: seq<real>, v: nat, w: nat)
    requires v < |sigma| && w < |sigma| && w < |delta| && sigma[w] != 0 && Count(pred, v) == 0
    ensures Received(pred, |pred|, sigma, delta, v, w) == 0.0
  {
    assert pred[..|pred|] == pred;
  }

  method PushBack(w: nat, pred: seq<nat>, sigma: seq<int>, delta0: seq<real>) returns (delta: seq<real>)
    requires |delta0| == |sigma| && w < |sigma| && sigma[w] != 0 && w !in pred
    requires forall v: nat :: v in pred ==> v < |sigma|
    ensures |delta| == |delta0|
    ensures forall v: nat :: v < |sigma| ==> delta[v] == delta0[v] + Received(pred, |pred|, sigma, delta0, v, w)
  {
    hide Received;
    delta := delta0;
    forall v: nat | v < |sigma|
      ensures Received(pred, 0, sigma, delta0, v, w) == 0.0
    {
      NothingReceived(pred, sigma, delta0, v, w);
    }
    for i := 0 to |pred|
      invariant |delta| == |delta0| && delta[w] == delta0[w]
      invariant forall v: nat :: v < |sigma| ==> delta[v] == delta0[v] + Received(pred, i, sigma, delta0, v, w)
    {
      var u := pred[i];
      assert u in pred;
      ghost var next: nat := i + 1;
      forall v: nat | v < |sigma|
        ensures Received(pred, next, sigma, delta0, v, w) ==
                Received(pred, i, sigma, delta0, v, w) + if u == v then Share(sigma, delta0, v, w) else 0.0
      {
        ReceivedStep(pred, i, sigma, delta0, v, w);
      }
      delta := delta[u := delta[u] + sigma[u] as real / sigma[w] as real * (1.0 + delta[w])];
    }
  }

  function BackTerm(adj: Adjacency, dist: seq<int>, sigma: seq<int>, delta: seq<real>, done: set<nat>,
                    v: nat): nat -> real {
    (w: nat) => if w in done then DeltaTerm(adj, dist, sigma, delta, v)(w) else 0.0
  }

  ghost predicate BackInv(adj: Adjacency, dist: seq<int>, sigma: seq<int>, delta: seq<real>, done: set<nat>) {
    && |delta| == |adj|
    && forall v: nat :: v < |adj| ==> delta[v] == Sum(|adj|, BackTerm(adj, dist, sigma, delta, done, v))
  }

  /** Every node processed so far is at least as far as w, so that pushing from w leaves it alone. */
  lemma DoneUntouched(adj: Adjacency, dist: seq<int>, pred: seq<seq<nat>>, w: nat, x: nat)
    requires PredOk(adj, dist, pred) && w < |adj| && x < |adj| && dist[x] >= dist[w]
    ensures Count(pred[w], x) == 0 && pred[w][..|pred[w]|] == pred[w]
  {
  }

  lemma BackTermNew(adj: Adjacency, dist: seq<int>, sigma: seq<int>, pred: seq<seq<nat>>, delta: seq<real>,
                    delta': seq<real>,
                    done: set<nat>, w: nat, v: nat)
    requires PredOk(adj, dist, pred) && |sigma| == |delta| == |delta'| == |adj|
    requires w < |adj| && w !in done && sigma[w] != 0 && v < |adj| && delta'[w] == delta[w]
    ensures BackTerm(adj, dist, sigma, delta', done + {w}, v)(w) == Received(pred[w], |pred[w]|, sigma, delta, v, w)
    ensures BackTerm(adj, dist, sigma, delta, done, v)(w) == 0.0
  {
    hide Dag;
    assert pred[w][..|pred[w]|] == pred[w];
    assert Count(pred[w], v) as real == Dag(adj, dist, v, w);
    var term := DeltaTerm(adj, dist, sigma, delta', v);
    assert term(w) == Dag(adj, dist, v, w) * Share(sigma, delta', v, w);
    assert BackTerm(adj, dist, sigma, delta', done + {w}, v)(w) == term(w);
  }

  lemma BackTermOld(adj: Adjacency, dist: seq<int>, sigma: seq<int>, delta: seq<real>, delta': seq<real>,
                    done: set<nat>, w: nat, v: nat, x: nat)
    requires |sigma| == |delta| == |delta'| == |adj| && v < |adj| && x < |adj| && x != w
    requires x in done ==> delta'[x] == delta[x]
    ensures BackTerm(adj, dist, sigma, delta', done + {w}, v)(x) == BackTerm(adj, dist, sigma, delta, done, v)(x)
  {
    hide Dag;
    if x in done {
      assert DeltaTerm(adj, dist, sigma, delta', v)(x) == DeltaTerm(adj, dist, sigma, delta, v)(x);
      assert BackTerm(adj, dist, sigma, delta', done + {w}, v)(x) == DeltaTerm(adj, dist, sigma, delta', v)(x);
    }
  }

  lemma BackStep(adj: Adjacency, dist: seq<int>, sigma: seq<int>, pred: seq<seq<nat>>, delta: seq<real>,
                 delta': seq<real>,
                 done: set<nat>, w: nat)
    requires PredOk(adj, dist, pred) && |sigma| == |delta| == |delta'| == |adj|
    requires w < |adj| && w !in done && sigma[w] != 0
    requires forall y: nat :: y < |adj| ==> delta'[y] == delta[y] + Received(pred[w], |pred[w]|, sigma, delta, y, w)
    requires forall x: nat :: x in done ==> x < |adj| && dist[x] >= dist[w]
    requires BackInv(adj, dist, sigma, delta, done)
    ensures BackInv(adj, dist, sigma, delta', done + {w})
    ensures delta'[w] == delta[w] && forall x: nat :: x in done ==> delta'[x] == delta[x]
  {
    hide Sum, Share, BackTerm, Received;
    assert pred[w][..|pred[w]|] == pred[w];
    forall x: nat | x < |adj| && (x == w || x in done)
      ensures delta'[x] == delta[x]
    {
      DoneUntouched(adj, dist, pred, w, x);
      NoneReceived(pred[w], sigma, delta, x, w);
    }
    forall v: nat | v < |adj|
      ensures delta'[v] == Sum(|adj|, BackTerm(adj, dist, sigma, delta', done + {w}, v))
    {
      var f, g := BackTerm(adj, dist, sigma, delta, done, v), BackTerm(adj, dist, sigma, delta', done + {w}, v);
      forall x: nat | x < |adj|
        ensures g(x) == f(x) + if x == w then Received(pred[w], |pred[w]|, sigma, delta, v, w) else 0.0
      {
        if x == w {
          BackTermNew(adj, dist, sigma, pred, delta, delta', done, w, v);
        } else {
          BackTermOld(adj, dist, sigma, delta, delta', done, w, v, x);
        }
      }
      SumChange(|adj|, f, g, w);
    }
  }

  lemma BackStart(adj: Adjacency, dist: seq<int>, sigma: seq<int>, delta: seq<real>)
    requires |delta| == |adj| && forall v :: 0 <= v < |adj| ==> delta[v] == 0.0
    ensures BackInv(adj, dist, sigma, delta, {})
  {
    forall v: nat | v < |adj|
      ensures Sum(|adj|, BackTerm(adj, dist, sigma, delta, {}, v)) == 0.0
    {
      SumZero(|adj|, BackTerm(adj, dist, sigma, delta, {}, v));
    }
  }

  /** When every reached node has been processed, delta obeys Brandes' recurrence. */
  lemma BackEnd(adj: Adjacency, dist: seq<int>, sigma: seq<int>, delta: seq<real>, done: set<nat>)
    requires BackInv(adj, dist, sigma, delta, done) && |sigma| == |dist| == |adj|
    requires forall x: nat :: x < |adj| && dist[x] >= 0 ==> x in done
    ensures DeltaOk(adj, dist, sigma, delta)
  {
    hide Sum;
    forall v: nat | v < |adj|
      ensures Sum(|adj|, BackTerm(adj, dist, sigma, delta, done, v)) == Sum(|adj|, DeltaTerm(adj, dist, sigma, delta, v))
    {
      forall w: nat | w < |adj|
        ensures BackTerm(adj, dist, sigma, delta, done, v)(w) == DeltaTerm(adj, dist, sigma, delta, v)(w)
      {
        if w !in done {
          assert Dag(adj, dist, v, w) == 0.0;
        }
      }
      SumCongr(|adj|, BackTerm(adj, dist, sigma, delta, done, v), DeltaTerm(adj, dist, sigma, delta, v));
    }
  }

  /** The nodes of stk from position m on have been processed. */
  ghost function DoneFrom(stk: seq<nat>, m: nat): set<nat>
    requires m <= |stk|
  {
    set x | x in stk[m..]
  }

  lemma TopOfStack(adj: Adjacency, s: nat, dist: seq<int>, sigma: seq<int>, pred: seq<seq<nat>>, stk: seq<nat>, m: nat)
    requires DistOk(adj, s, dist) && SigmaOk(adj, s, dist, sigma) && PredOk(adj, dist, pred) && StackOk(adj, dist, stk)
    requires 0 < m <= |stk|
    ensures var w := stk[m - 1];
      && |sigma| == |pred| == |dist| == |adj|
      && w < |adj| && w !in DoneFrom(stk, m) && DoneFrom(stk, m - 1) == DoneFrom(stk, m) + {w}
      && sigma[w] != 0
      && (forall x: nat :: x in DoneFrom(stk, m) ==> x < |adj| && dist[x] >= dist[w])
      && w !in pred[w]
  {
    hide W, Sum, HasPred;
    var w := stk[m - 1];
    assert w in stk;
    SigmaCounts(adj, s, dist, sigma, w);
    WalkToEach(adj, s, dist, w);
    assert stk[m - 1..] == [w] + stk[m..];
    forall x: nat | x in stk[m..]
      ensures x < |adj| && dist[x] >= dist[w] && x != w
    {
      var i :| 0 <= i < |stk[m..]| && stk[m..][i] == x;
      assert stk[m + i] == x;
    }
    DoneUntouched(adj, dist, pred, w, w);
    CountZero(pred[w], w);
  }

  lemma PredsInRange(adj: Adjacency, dist: seq<int>, pred: seq<seq<nat>>, prog: seq<nat>)
    requires PredInv(adj, dist, prog, pred)
    ensures forall w: nat, v: nat :: w < |adj| && w < |pred| && v in pred[w] ==> v < |adj|
  {
    forall w: nat, v: nat | w < |adj| && v in pred[w]
      ensures v < |adj|
    {
      CountZero(pred[w], v);
    }
  }

  /** The recurrences that the two passes establish give the dependencies as defined. */
  lemma DeltaIsAdded(adj: Adjacency, s: nat, dist: seq<int>, sigma: seq<int>, delta: seq<real>, v: nat)
    requires Simple(adj) && DistOk(adj, s, dist) && SigmaOk(adj, s, dist, sigma) && DeltaOk(adj, dist, sigma, delta)
    requires v < |adj| == |dist| == |delta|
    ensures Added(adj, s, v) == if dist[v] >= 0 && v != s then delta[v] else 0.0
  {
    hide Simple, DistOk, SigmaOk, DeltaOk, Dependency;
    if dist[v] >= 0 {
      var far := Conservation.FarthestOf(dist, |dist|);
      DeltaIsDep(adj, s, dist, sigma, delta, far, v);
      DepIsDependency(adj, s, dist, v);
    } else {
      UnreachedNoDependency(adj, s, dist, v);
    }
  }

  /** What bc has received when the nodes of `done` have been processed. */
  function Credit(delta: seq<real>, s: nat, done: set<nat>, v: nat): real {
    if v in done && v != s && v < |delta| then delta[v] else 0.0
  }

  /** brandes_source: adds the dependencies of s to bc. */
  method BrandesSource(adj: Adjacency, s: nat, bc: array<real>)
    requires Simple(adj) && s < |adj| == bc.Length
    modifies bc
    ensures forall v: nat :: v < bc.Length ==> bc[v] == old(bc[v]) + Added(adj, s, v)
  {
    hide DistOk, SigmaOk, PredOk, StackOk, BackInv, DeltaOk, Added;
    var sigma, dist, pred, stk := Search(adj, s);
    var delta := seq(|adj|, _ => 0.0);
    var m: nat := |stk|;
    BackStart(adj, dist, sigma, delta);
    assert DoneFrom(stk, m) == {};
    while m > 0
      invariant m <= |stk| && |delta| == |adj|
      invariant BackInv(adj, dist, sigma, delta, DoneFrom(stk, m))
      invariant forall v: nat :: v < bc.Length ==> bc[v] == old(bc[v]) + Credit(delta, s, DoneFrom(stk, m), v)
    {
      TopOfStack(adj, s, dist, sigma, pred, stk, m);
      m := m - 1;
      var w := stk[m];
      ghost var before := delta;
      delta := PushBack(w, pred[w], sigma, delta);
      BackStep(adj, dist, sigma, pred, before, delta, DoneFrom(stk, m + 1), w);
      if w != s {
        bc[w] := bc[w] + delta[w];
      }
    }
    assert stk[0..] == stk;
    StackFacts(adj, s, dist, sigma, stk);
    BackEnd(adj, dist, sigma, delta, DoneFrom(stk, 0));
    forall v: nat | v < bc.Length
      ensures Credit(delta, s, DoneFrom(stk, 0), v) == Added(adj, s, v)
    {
      DeltaIsAdded(adj, s, dist, sigma, delta, v);
    }
  }

  lemma StackFacts(adj: Adjacency, s: nat, dist: seq<int>, sigma: seq<int>, stk: seq<nat>)
    requires StackOk(adj, dist, stk) && SigmaOk(adj, s, dist, sigma)
    ensures |dist| == |sigma| == |adj|
    ensures forall x: nat :: x in stk <==> x < |adj| && dist[x] >= 0
  {
  }

  /** ExactBrandesStrategy: betweenness of every node, as defined on sets of shortest paths. */
  method Exact(adj: Adjacency) returns (bc: array<real>)
    requires Simple(adj)
    ensures fresh(bc) && bc.Length == |adj|
    ensures forall v: nat :: v < |adj| ==> bc[v] == Betweenness(adj, v)
  {
    hide Simple, Dependency, Added;
    bc := new real[|adj|](_ => 0.0);
    for s := 0 to |adj|
      invariant forall v: nat :: v < |adj| ==> bc[v] == Sum(s, FromOthers(adj, v))
    {
      BrandesSource(adj, s, bc);
      forall v: nat | v < |adj|
        ensures Sum(s + 1, FromOthers(adj, v)) == Sum(s, FromOthers(adj, v)) + Added(adj, s, v)
      {
        AddedIsTerm(adj, s, v);
      }
    }
  }

  lemma AddedIsTerm(adj: Adjacency, s: nat, v: nat)
    ensures Added(adj, s, v) == FromOthers(adj, v)(s)
  {
    hide Added;
  }

  // ---- Sampling --------------------------------------------------------------------------

  const TWO64: nat := 0x1_0000_0000_0000_0000

  /** One step of the linear congruential generator on 64-bit words. */
  function NextRandom(rng: nat): nat {
    (rng * 6364136223846793005 + 1442695040888963407) % TWO64
  }

  lemma SwapPermutes(n: nat, s: seq<nat>, i: nat, j: nat)
    requires IsPermutationOf(n, s) && i < n && j < n
    ensures IsPermutationOf(n, s[i := s[j]][j := s[i]])
  {
    var t := s[i := s[j]][j := s[i]];
    forall x: nat | x < n
      ensures x in t
    {
      assert x in s;
      var k :| 0 <= k < |s| && s[k] == x;
      if k == i {
        assert t[j] == x;
      } else if k == j {
        assert t[i] == x;
      } else {
        assert t[k] == x;
      }
    }
  }

  lemma IdentityPermutes(n: nat, s: seq<nat>)
    requires |s| == n && forall i :: 0 <= i < n ==> s[i] == i
    ensures IsPermutationOf(n, s)
  {
    forall x: nat | x < n
      ensures x in s
    {
      assert s[x] == x;
    }
  }

  /** The shuffle of the sources: whatever the seed, a permutation. */
  method Shuffle(n: nat, seed: nat) returns (order: array<nat>)
    ensures fresh(order) && IsPermutationOf(n, order[..])
  {
    hide IsPermutationOf;
    order := new nat[n](i => i);
    IdentityPermutes(n, order[..]);
    var rng: nat := seed;
    var i := n - 1;
    while i > 0
      invariant order.Length == n && i < n
      invariant IsPermutationOf(n, order[..])
    {
      rng := NextRandom(rng);
      var j := (rng / 0x2_0000_0000) % (i + 1);
      ghost var before := order[..];
      SwapPermutes(n, before, i, j);
      order[i], order[j] := order[j], order[i];
      assert order[..] == before[i := before[j]][j := before[i]];
      i := i - 1;
    }
  }

  function Sampled(order: seq<nat>, f: nat -> real): nat -> real {
    (i: nat) => if i < |order| then f(order[i]) else 0.0
  }

  function Among(order: seq<nat>, k: nat, f: nat -> real): nat -> real {
    (x: nat) => if k <= |order| && x in order[..k] then f(x) else 0.0
  }

  lemma {:induction false} SumOfDistinct(n: nat, order: seq<nat>, k: nat, f: nat -> real)
    requires Distinct(order) && k <= |order| && forall i :: 0 <= i < |order| ==> order[i] < n
    ensures Sum(k, Sampled(order, f)) == Sum(n, Among(order, k, f))
    decreases k
  {
    if k == 0 {
      SumZero(n, Among(order, 0, f));
    } else {
      SumOfDistinct(n, order, k - 1, f);
      var x := order[k - 1];
      assert order[..k] == order[..k - 1] + [x];
      assert x !in order[..k - 1];
      SumChange(n, Among(order, k - 1, f), Among(order, k, f), x);
    }
  }

  /** A sum does not depend on the order of its terms. */
  lemma SumPermuted(n: nat, order: seq<nat>, f: nat -> real)
    requires IsPermutationOf(n, order)
    ensures Sum(n, Sampled(order, f)) == Sum(n, f)
  {
    SumOfDistinct(n, order, n, f);
    assert order[..n] == order;
    SumCongr(n, Among(order, n, f), f);
  }

  /** SamplingBrandesStrategy: the dependencies of the first k sources of the shuffled order, scaled
      up by N / k; with k >= N nothing is lost and nothing is scaled. */
  method Sampling(adj: Adjacency, k: int, seed: nat) returns (bc: array<real>, ghost order: seq<nat>)
    requires Simple(adj)
    ensures fresh(bc) && bc.Length == |adj|
    ensures IsPermutationOf(|adj|, order)
    ensures k <= 0 ==> forall v: nat :: v < |adj| ==> bc[v] == 0.0
    ensures 0 < k < |adj| ==> forall v: nat :: v < |adj| ==>
              bc[v] == Sum(k, Sampled(order, FromOthers(adj, v))) * (|adj| as real / k as real)
    ensures k >= |adj| ==> forall v: nat :: v < |adj| ==> bc[v] == Betweenness(adj, v)
  {
    hide Simple, Dependency, Added, IsPermutationOf;
    bc := new real[|adj|](_ => 0.0);
    if |adj| == 0 {
      IdentityPermutes(0, []);
      return bc, [];
    }
    var shuffled := Shuffle(|adj|, seed);
    order := shuffled[..];
    PermutationRange(|adj|, order);
    var samples := if k < |adj| then k else |adj|;
    if samples == 0 { return; }
    var i: nat := 0;
    while i < samples
      invariant (i <= samples || i == 0) && shuffled[..] == order
      invariant forall v: nat :: v < |adj| ==> bc[v] == Sum(i, Sampled(order, FromOthers(adj, v)))
    {
      BrandesSource(adj, shuffled[i], bc);
      forall v: nat | v < |adj|
        ensures Sum(i + 1, Sampled(order, FromOthers(adj, v))) == Sum(i, Sampled(order, FromOthers(adj, v))) + Added(adj, order[i], v)
      {
        AddedIsTerm(adj, order[i], v);
      }
      i := i + 1;
    }
    if samples < |adj| {
      ScaleAll(bc, |adj| as real / samples as real);
    } else {
      forall v: nat | v < |adj|
        ensures bc[v] == Betweenness(adj, v)
      {
        SumPermuted(|adj|, order, FromOthers(adj, v));
      }
    }
  }

  lemma PermutationRange(n: nat, order: seq<nat>)
    requires IsPermutationOf(n, order)
    ensures |order| == n && forall i :: 0 <= i < n ==> order[i] < n
  {
  }

  method ScaleAll(bc: array<real>, scale: real)
    modifies bc
    ensures forall v: nat :: v < bc.Length ==> bc[v] == old(bc[v]) * scale
  {
    for i := 0 to bc.Length
      invariant forall v: nat :: v < i ==> bc[v] == old(bc[v]) * scale
      invariant forall v: nat :: i <= v < bc.Length ==> bc[v] == old(bc[v])
    {
      bc[i] := bc[i] * scale;
    }
  }
}
