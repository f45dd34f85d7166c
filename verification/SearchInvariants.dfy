/** The forward pass of Brandes' algorithm: breadth-first search that counts shortest paths. Its
    invariants are stated edge by edge: prog[u] is the number of edges of u looked at so far. */
module SearchInvariants {
  import opened Digraph
  import opened Sums
  import opened Sorting
  import opened Walks

  ghost predicate ProgOk(adj: Adjacency, prog: seq<nat>) {
    && WellFormed(adj) && |prog| == |adj|
    && forall u :: 0 <= u < |adj| ==> prog[u] <= |adj[u]|
  }

  // ---- Distances -------------------------------------------------------------------------

  ghost predicate SeenPred(adj: Adjacency, dist: seq<int>, prog: seq<nat>, x: nat)
    requires ProgOk(adj, prog) && |dist| == |adj| && x < |adj|
  {
    exists u: nat, i: nat :: SeenAt(adj, dist, prog, x, u, i)
  }

  /** Edge i of u has been looked at and leads from the level before x to x. */
  ghost predicate SeenAt(adj: Adjacency, dist: seq<int>, prog: seq<nat>, x: nat, u: nat, i: nat)
    requires ProgOk(adj, prog) && |dist| == |adj| && x < |adj|
  {
    u < |adj| && i < prog[u] && adj[u][i] == x && dist[u] == dist[x] - 1
  }

  /** Edge i of u raises the distance by at most one. */
  ghost predicate EdgeOk(adj: Adjacency, dist: seq<int>, u: nat, i: nat)
    requires WellFormed(adj) && |dist| == |adj| && u < |adj| && i < |adj[u]|
  {
    dist[u] >= 0 && 0 <= dist[adj[u][i]] <= dist[u] + 1
  }

  ghost predicate DistInv(adj: Adjacency, s: nat, dist: seq<int>, prog: seq<nat>) {
    && ProgOk(adj, prog) && |dist| == |adj| && s < |adj| && dist[s] == 0
    && (forall x :: 0 <= x < |adj| ==> dist[x] >= -1 && (dist[x] == 0 ==> x == s))
    && (forall u: nat, i: nat :: u < |adj| && i < prog[u] ==> EdgeOk(adj, dist, u, i))
    && (forall x: nat :: x < |adj| && dist[x] > 0 ==> SeenPred(adj, dist, prog, x))
  }

  lemma SeenPredStep(adj: Adjacency, dist: seq<int>, prog: seq<nat>, v: nat, w: nat, d: nat, x: nat)
    requires ProgOk(adj, prog) && |dist| == |adj| && v < |adj| && prog[v] < |adj[v]| && w < |adj| && x < |adj|
    requires dist[w] < 0 || dist[w] == d
    requires SeenPred(adj, dist, prog, x) && dist[x] > 0
    ensures ProgOk(adj, prog[v := prog[v] + 1])
    ensures SeenPred(adj, dist[w := d], prog[v := prog[v] + 1], x)
  {
    var prog' := prog[v := prog[v] + 1];
    var u: nat, i: nat :| SeenAt(adj, dist, prog, x, u, i);
    assert SeenAt(adj, dist[w := d], prog', x, u, i);
  }

  lemma SeenPredNew(adj: Adjacency, dist: seq<int>, prog: seq<nat>, v: nat)
    requires ProgOk(adj, prog) && |dist| == |adj| && v < |adj| && prog[v] < |adj[v]|
    requires adj[v][prog[v]] < |adj| && dist[adj[v][prog[v]]] == dist[v] + 1
    ensures ProgOk(adj, prog[v := prog[v] + 1])
    ensures SeenPred(adj, dist, prog[v := prog[v] + 1], adj[v][prog[v]])
  {
    var prog': seq<nat> := prog[v := prog[v] + 1];
    var i, w := prog[v], adj[v][prog[v]];
    assert prog'[v] == i + 1;
    assert SeenAt(adj, dist, prog', w, v, i);
  }

  /** Looking at the next edge v -> w; w is given its distance if it has none. */
  lemma DistStep(adj: Adjacency, s: nat, dist: seq<int>, prog: seq<nat>, v: nat)
    requires DistInv(adj, s, dist, prog) && v < |adj| && prog[v] < |adj[v]| && dist[v] >= 0
    requires forall x: nat :: x < |adj| ==> dist[x] <= dist[v] + 1
    ensures var w := adj[v][prog[v]];
      w < |adj| &&
      DistInv(adj, s, if dist[w] < 0 then dist[w := dist[v] + 1] else dist, prog[v := prog[v] + 1])
  {
    hide SeenPred;
    var w := adj[v][prog[v]];
    var d := if dist[w] < 0 then dist[v] + 1 else dist[w];
    var dist' := dist[w := d];
    assert dist' == if dist[w] < 0 then dist[w := dist[v] + 1] else dist;
    var prog' := prog[v := prog[v] + 1];
    forall u: nat, i: nat | u < |adj| && i < prog'[u]
      ensures EdgeOk(adj, dist', u, i)
    {
      if u != v || i < prog[v] {
        assert EdgeOk(adj, dist, u, i);
      }
    }
    forall x: nat | x < |adj| && dist'[x] > 0
      ensures SeenPred(adj, dist', prog', x)
    {
      if x == w && dist[w] < 0 {
        SeenPredNew(adj, dist', prog, v);
      } else {
        SeenPredStep(adj, dist, prog, v, w, d, x);
      }
    }
  }

  // ---- Counts ----------------------------------------------------------------------------

  /** How often u -> w has been seen as an edge to the next level. */
  function Seen(adj: Adjacency, dist: seq<int>, prog: seq<nat>, u: nat, w: nat): nat {
    if u < |adj| && u < |dist| && w < |dist| && u < |prog| && prog[u] <= |adj[u]| && dist[u] >= 0 && dist[w] == dist[u] + 1
    then Count(adj[u][..prog[u]], w) else 0
  }

  function SeenTerm(adj: Adjacency, dist: seq<int>, prog: seq<nat>, sigma: seq<int>, w: nat): nat -> real {
    (u: nat) => if u < |sigma| then Seen(adj, dist, prog, u, w) as real * sigma[u] as real else 0.0
  }

  function Start(s: nat, w: nat): real {
    if w == s then 1.0 else 0.0
  }

  ghost predicate SigmaAt(adj: Adjacency, s: nat, dist: seq<int>, prog: seq<nat>, sigma: seq<int>, w: nat)
    requires w < |sigma|
  {
    sigma[w] as real == Start(s, w) + Sum(|adj|, SeenTerm(adj, dist, prog, sigma, w))
  }

  ghost predicate SigmaInv(adj: Adjacency, s: nat, dist: seq<int>, prog: seq<nat>, sigma: seq<int>) {
    |sigma| == |adj| && forall w: nat :: w < |adj| ==> SigmaAt(adj, s, dist, prog, sigma, w)
  }

  ghost predicate PredInv(adj: Adjacency, dist: seq<int>, prog: seq<nat>, pred: seq<seq<nat>>) {
    && |pred| == |adj|
    && forall w: nat, u: nat :: w < |adj| ==> Count(pred[w], u) == Seen(adj, dist, prog, u, w)
  }

  /** An undiscovered node is not the target of an edge looked at. */
  lemma NotSeenYet(adj: Adjacency, s: nat, dist: seq<int>, prog: seq<nat>, u: nat, w: nat)
    requires DistInv(adj, s, dist, prog) && u < |adj| && w < |adj| && dist[w] < 0
    ensures Count(adj[u][..prog[u]], w) == 0
  {
    CountZero(adj[u][..prog[u]], w);
    forall i: nat | i < prog[u]
      ensures adj[u][i] != w
    {
      assert EdgeOk(adj, dist, u, i);
    }
  }

  /** Giving w a distance changes no count. */
  lemma SeenDiscover(adj: Adjacency, s: nat, dist: seq<int>, prog: seq<nat>, w: nat, d: nat, u: nat, x: nat)
    requires DistInv(adj, s, dist, prog) && w < |adj| && dist[w] < 0 && prog[w] == 0 && x < |adj|
    ensures Seen(adj, dist[w := d], prog, u, x) == Seen(adj, dist, prog, u, x)
  {
    if u < |adj| {
      NotSeenYet(adj, s, dist, prog, u, w);
      if u == w { assert adj[u][..0] == []; }
    }
  }

  /** The next edge v -> y counts if y is on the next level. */
  lemma SeenEdge(adj: Adjacency, s: nat, dist: seq<int>, prog: seq<nat>, v: nat, u: nat, x: nat)
    requires ProgOk(adj, prog) && |dist| == |adj| && v < |adj| && prog[v] < |adj[v]| && dist[v] >= 0 && x < |adj|
    ensures adj[v][prog[v]] < |adj|
    ensures Seen(adj, dist, prog[v := prog[v] + 1], u, x) == Seen(adj, dist, prog, u, x) +
              if u == v && x == adj[v][prog[v]] && dist[x] == dist[v] + 1 then 1 else 0
  {
    if u == v {
      var i := prog[v];
      assert adj[v][..i + 1] == adj[v][..i] + [adj[v][i]];
      CountAppend(adj[v][..i], adj[v][i], x);
    }
  }

  lemma SigmaDiscover(adj: Adjacency, s: nat, dist: seq<int>, prog: seq<nat>, sigma: seq<int>, w: nat, d: nat)
    requires DistInv(adj, s, dist, prog) && SigmaInv(adj, s, dist, prog, sigma)
    requires |prog| == |dist| == |adj| && w < |adj| && dist[w] < 0 && prog[w] == 0
    ensures SigmaInv(adj, s, dist[w := d], prog, sigma)
  {
    hide DistInv, Seen, Sum;
    var dist' := dist[w := d];
    forall x: nat | x < |adj|
      ensures SigmaAt(adj, s, dist', prog, sigma, x)
    {
      assert SigmaAt(adj, s, dist, prog, sigma, x);
      forall u: nat | u < |adj|
        ensures SeenTerm(adj, dist, prog, sigma, x)(u) == SeenTerm(adj, dist', prog, sigma, x)(u)
      {
        SeenDiscover(adj, s, dist, prog, w, d, u, x);
      }
      SumCongr(|adj|, SeenTerm(adj, dist, prog, sigma, x), SeenTerm(adj, dist', prog, sigma, x));
    }
  }

  /** The edge v -> w to the next level: w inherits the paths of v. */
  lemma CreditTerm(adj: Adjacency, dist: seq<int>, prog: seq<nat>, sigma: seq<int>, v: nat, w: nat, u: nat, x: nat)
    requires ProgOk(adj, prog) && |dist| == |adj| == |sigma| && v < |adj| && prog[v] < |adj[v]| && dist[v] >= 0
    requires w == adj[v][prog[v]] && w < |adj| && dist[w] == dist[v] + 1 && prog[w] == 0
    requires u < |adj| && x < |adj|
    ensures SeenTerm(adj, dist, prog[v := prog[v] + 1], sigma[w := sigma[w] + sigma[v]], x)(u) ==
            SeenTerm(adj, dist, prog, sigma, x)(u) + if u == v && x == w then sigma[v] as real else 0.0
  {
    SeenEdge(adj, 0, dist, prog, v, u, x);
    if u == w {
      assert adj[w][..0] == [];
      assert Seen(adj, dist, prog, u, x) == 0;
    }
    hide Seen;
    var n, y := Seen(adj, dist, prog, u, x) as real, sigma[u] as real;
    assert (n + 1.0) * y == n * y + y;
  }

  lemma SigmaCredit(adj: Adjacency, s: nat, dist: seq<int>, prog: seq<nat>, sigma: seq<int>, v: nat, w: nat)
    requires ProgOk(adj, prog) && |dist| == |adj| && SigmaInv(adj, s, dist, prog, sigma)
    requires v < |adj| && prog[v] < |adj[v]| && dist[v] >= 0
    requires w == adj[v][prog[v]] && w < |adj| && dist[w] == dist[v] + 1 && prog[w] == 0
    ensures SigmaInv(adj, s, dist, prog[v := prog[v] + 1], sigma[w := sigma[w] + sigma[v]])
  {
    hide Seen, SeenTerm, Sum;
    var prog', sigma' := prog[v := prog[v] + 1], sigma[w := sigma[w] + sigma[v]];
    forall x: nat | x < |adj|
      ensures SigmaAt(adj, s, dist, prog', sigma', x)
    {
      assert SigmaAt(adj, s, dist, prog, sigma, x);
      var f, g := SeenTerm(adj, dist, prog, sigma, x), SeenTerm(adj, dist, prog', sigma', x);
      forall u: nat | u < |adj|
        ensures g(u) == f(u) + if u == v && x == w then sigma[v] as real else 0.0
      {
        CreditTerm(adj, dist, prog, sigma, v, w, u, x);
      }
      SumChange(|adj|, f, g, v);
    }
  }

  lemma SigmaSkip(adj: Adjacency, s: nat, dist: seq<int>, prog: seq<nat>, sigma: seq<int>, v: nat)
    requires ProgOk(adj, prog) && |dist| == |adj| && SigmaInv(adj, s, dist, prog, sigma)
    requires v < |adj| && prog[v] < |adj[v]| && dist[v] >= 0
    requires adj[v][prog[v]] < |adj| && dist[adj[v][prog[v]]] != dist[v] + 1
    ensures SigmaInv(adj, s, dist, prog[v := prog[v] + 1], sigma)
  {
    hide Seen, Sum;
    var prog' := prog[v := prog[v] + 1];
    forall x: nat | x < |adj|
      ensures SigmaAt(adj, s, dist, prog', sigma, x)
    {
      assert SigmaAt(adj, s, dist, prog, sigma, x);
      forall u: nat | u < |adj|
        ensures SeenTerm(adj, dist, prog, sigma, x)(u) == SeenTerm(adj, dist, prog', sigma, x)(u)
      {
        SeenEdge(adj, s, dist, prog, v, u, x);
      }
      SumCongr(|adj|, SeenTerm(adj, dist, prog, sigma, x), SeenTerm(adj, dist, prog', sigma, x));
    }
  }

  lemma PredDiscover(adj: Adjacency, s: nat, dist: seq<int>, prog: seq<nat>, pred: seq<seq<nat>>, w: nat, d: nat)
    requires DistInv(adj, s, dist, prog) && PredInv(adj, dist, prog, pred)
    requires |prog| == |dist| == |adj| && w < |adj| && dist[w] < 0 && prog[w] == 0
    ensures PredInv(adj, dist[w := d], prog, pred)
  {
    hide DistInv, Seen;
    var dist' := dist[w := d];
    forall x: nat, u: nat | x < |adj|
      ensures Count(pred[x], u) == Seen(adj, dist', prog, u, x)
    {
      SeenDiscover(adj, s, dist, prog, w, d, u, x);
    }
  }

  lemma PredEdge(adj: Adjacency, dist: seq<int>, prog: seq<nat>, pred: seq<seq<nat>>, v: nat)
    requires ProgOk(adj, prog) && |dist| == |adj| && PredInv(adj, dist, prog, pred)
    requires v < |adj| && prog[v] < |adj[v]| && dist[v] >= 0
    ensures var w := adj[v][prog[v]];
      && w < |adj|
      && PredInv(adj, dist, prog[v := prog[v] + 1], if dist[w] == dist[v] + 1 then pred[w := pred[w] + [v]] else pred)
  {
    hide Seen;
    var w := adj[v][prog[v]];
    var pred' := if dist[w] == dist[v] + 1 then pred[w := pred[w] + [v]] else pred;
    forall x: nat, u: nat | x < |adj|
      ensures Count(pred'[x], u) == Seen(adj, dist, prog[v := prog[v] + 1], u, x)
    {
      SeenEdge(adj, 0, dist, prog, v, u, x);
      CountAppend(pred[w], v, u);
    }
  }

  // ---- The queue -------------------------------------------------------------------------

  /** Processed nodes and queue together list the discovered nodes once each, by distance. */
  ghost predicate QueueInv(adj: Adjacency, dist: seq<int>, stk: seq<nat>, q: seq<nat>) {
    && |dist| == |adj|
    && Distinct(stk + q)
    && (forall x: nat :: x in stk + q <==> x < |adj| && dist[x] >= 0)
    && (forall i, j :: 0 <= i < j < |stk + q| ==> (stk + q)[i] < |adj| && (stk + q)[j] < |adj| && dist[(stk + q)[i]] <= dist[(stk + q)[j]])
  }

  /** No node is more than one level beyond v. */
  ghost predicate Near(dist: seq<int>, v: nat) {
    v < |dist| && dist[v] >= 0 && forall x: nat :: x < |dist| ==> dist[x] <= dist[v] + 1
  }

  ghost predicate ProgIs(adj: Adjacency, prog: seq<nat>, stk: seq<nat>, v: nat, i: nat) {
    && |prog| == |adj|
    && forall u: nat :: u < |adj| ==> prog[u] == if u == v then i else if u in stk then |adj[u]| else 0
  }

  /** Between two rounds: v is no node. */
  ghost predicate Between(adj: Adjacency, dist: seq<int>, stk: seq<nat>, q: seq<nat>, prog: seq<nat>) {
    && QueueInv(adj, dist, stk, q)
    && (q != [] ==> Near(dist, q[0]))
    && ProgIs(adj, prog, stk, |adj|, 0)
  }

  /** In the round of v, after i of its edges. */
  ghost predicate Within(adj: Adjacency, dist: seq<int>, stk: seq<nat>, q: seq<nat>, prog: seq<nat>, v: nat, i: nat) {
    && QueueInv(adj, dist, stk, q)
    && |stk| > 0 && stk[|stk| - 1] == v
    && Near(dist, v)
    && ProgIs(adj, prog, stk, v, i)
  }

  lemma RoundStarts(adj: Adjacency, dist: seq<int>, stk: seq<nat>, q: seq<nat>, prog: seq<nat>)
    requires Between(adj, dist, stk, q, prog) && q != []
    ensures Within(adj, dist, stk + [q[0]], q[1..], prog, q[0], 0)
  {
    var v := q[0];
    assert stk + [v] + q[1..] == stk + q;
    assert (stk + q)[|stk|] == v;
    assert v !in stk by {
      assert forall i :: 0 <= i < |stk| ==> stk[i] == (stk + q)[i];
    }
  }

  lemma RoundEnds(adj: Adjacency, dist: seq<int>, stk: seq<nat>, q: seq<nat>, prog: seq<nat>, v: nat)
    requires v < |adj| && Within(adj, dist, stk, q, prog, v, |adj[v]|)
    ensures Between(adj, dist, stk, q, prog)
  {
    if q != [] {
      assert (stk + q)[|stk|] == q[0] && (stk + q)[|stk| - 1] == v;
      assert q[0] in stk + q;
    }
  }

  lemma Discovered(adj: Adjacency, dist: seq<int>, stk: seq<nat>, q: seq<nat>, prog: seq<nat>, v: nat, i: nat, w: nat)
    requires Within(adj, dist, stk, q, prog, v, i) && w < |adj| && dist[w] < 0
    ensures Within(adj, dist[w := dist[v] + 1], stk, q + [w], prog, v, i)
    ensures prog[w] == 0
  {
    var order := stk + q;
    assert stk + (q + [w]) == order + [w];
    assert w !in order;
    assert v in order by { assert order[|stk| - 1] == v; }
    assert w !in stk by {
      assert forall k :: 0 <= k < |stk| ==> stk[k] == order[k];
    }
  }

  lemma NextLevelFresh(adj: Adjacency, dist: seq<int>, stk: seq<nat>, q: seq<nat>, prog: seq<nat>, v: nat, i: nat,
                       w: nat)
    requires Within(adj, dist, stk, q, prog, v, i) && w < |adj| && dist[w] == dist[v] + 1
    ensures prog[w] == 0
  {
    var order := stk + q;
    forall k | 0 <= k < |stk|
      ensures stk[k] != w
    {
      assert order[k] == stk[k] && order[|stk| - 1] == v;
    }
  }

  lemma EdgeDone(adj: Adjacency, dist: seq<int>, stk: seq<nat>, q: seq<nat>, prog: seq<nat>, v: nat, i: nat)
    requires v < |adj| && Within(adj, dist, stk, q, prog, v, i)
    ensures Within(adj, dist, stk, q, prog[v := i + 1], v, i + 1)
  {
  }

  // ---- The end of the search -------------------------------------------------------------

  /** With the queue empty the distances are the distances. */
  lemma FinalDist(adj: Adjacency, s: nat, dist: seq<int>, stk: seq<nat>, prog: seq<nat>)
    requires DistInv(adj, s, dist, prog) && Between(adj, dist, stk, [], prog)
    ensures DistOk(adj, s, dist)
  {
    assert stk + [] == stk;
    forall v: nat, w: nat | v < |adj| && w < |adj| && Edge(adj, v, w) && dist[v] >= 0
      ensures 0 <= dist[w] <= dist[v] + 1
    {
      var i: nat :| i < |adj[v]| && adj[v][i] == w;
      assert prog[v] == |adj[v]|;
      assert EdgeOk(adj, dist, v, i);
    }
    forall x: nat | x < |adj| && dist[x] > 0
      ensures HasPred(adj, dist, x)
    {
      assert SeenPred(adj, dist, prog, x);
      var u: nat, i: nat :| SeenAt(adj, dist, prog, x, u, i);
      assert Edge(adj, u, x);
    }
  }

  lemma FinalSeen(adj: Adjacency, dist: seq<int>, stk: seq<nat>, prog: seq<nat>, u: nat, w: nat)
    requires Between(adj, dist, stk, [], prog) && u < |adj| && w < |adj|
    ensures Seen(adj, dist, prog, u, w) as real == Dag(adj, dist, u, w)
  {
    assert stk + [] == stk;
    if dist[u] >= 0 {
      assert prog[u] == |adj[u]|;
      assert adj[u][..|adj[u]|] == adj[u];
    }
  }

  /** ... the counts satisfy the recurrence of shortest paths ... */
  lemma FinalSigma(adj: Adjacency, s: nat, dist: seq<int>, stk: seq<nat>, prog: seq<nat>, sigma: seq<int>)
    requires Between(adj, dist, stk, [], prog) && SigmaInv(adj, s, dist, prog, sigma)
    ensures SigmaOk(adj, s, dist, sigma)
  {
    hide Seen, Dag, Sum, QueueInv, ProgIs;
    assert |dist| == |adj| by { BetweenSize(adj, dist, stk, prog); }
    forall w: nat | w < |adj|
      ensures Sum(|adj|, SeenTerm(adj, dist, prog, sigma, w)) == Sum(|adj|, SigmaTerm(adj, dist, sigma, w))
    {
      forall u: nat | u < |adj|
        ensures SeenTerm(adj, dist, prog, sigma, w)(u) == SigmaTerm(adj, dist, sigma, w)(u)
      {
        FinalSeen(adj, dist, stk, prog, u, w);
      }
      SumCongr(|adj|, SeenTerm(adj, dist, prog, sigma, w), SigmaTerm(adj, dist, sigma, w));
    }
    forall w: nat | w < |adj| && dist[w] >= 0
      ensures sigma[w] as real == (if w == s then 1.0 else 0.0) + Sum(|adj|, SigmaTerm(adj, dist, sigma, w))
    {
      assert SigmaAt(adj, s, dist, prog, sigma, w);
    }
  }

  lemma BetweenSize(adj: Adjacency, dist: seq<int>, stk: seq<nat>, prog: seq<nat>)
    requires Between(adj, dist, stk, [], prog)
    ensures |dist| == |adj|
  {
  }

  /** pred[w] lists the predecessors of w on shortest paths. */
  ghost predicate PredOk(adj: Adjacency, dist: seq<int>, pred: seq<seq<nat>>) {
    && |pred| == |dist| == |adj|
    && forall w: nat, u: nat :: w < |adj| && u < |adj| ==> Count(pred[w], u) as real == Dag(adj, dist, u, w)
  }

  /** ... and pred lists the predecessors. */
  lemma FinalPred(adj: Adjacency, dist: seq<int>, stk: seq<nat>, prog: seq<nat>, pred: seq<seq<nat>>)
    requires Between(adj, dist, stk, [], prog) && PredInv(adj, dist, prog, pred)
    ensures PredOk(adj, dist, pred)
  {
    hide Seen, Dag, QueueInv, ProgIs;
    assert |dist| == |adj| by { BetweenSize(adj, dist, stk, prog); }
    forall w: nat, u: nat | w < |adj| && u < |adj|
      ensures Count(pred[w], u) as real == Dag(adj, dist, u, w)
    {
      FinalSeen(adj, dist, stk, prog, u, w);
    }
  }

  /** The processed nodes: every reached node once, by increasing distance. */
  ghost predicate StackOk(adj: Adjacency, dist: seq<int>, stk: seq<nat>) {
    && |dist| == |adj| && Distinct(stk)
    && (forall x: nat :: x in stk <==> x < |adj| && dist[x] >= 0)
    && (forall i, j :: 0 <= i < j < |stk| ==> stk[i] < |adj| && stk[j] < |adj| && dist[stk[i]] <= dist[stk[j]])
  }

  lemma FinalStack(adj: Adjacency, dist: seq<int>, stk: seq<nat>, prog: seq<nat>)
    requires Between(adj, dist, stk, [], prog)
    ensures StackOk(adj, dist, stk)
  {
    assert stk + [] == stk;
  }

  /** A vector that is a at s and b elsewhere. */
  function Single(n: nat, s: nat, a: int, b: int): (r: seq<int>) {
    seq(n, x requires 0 <= x < n => if x == s then a else b)
  }

  function NoLists(n: nat): seq<seq<nat>> {
    seq(n, _ => [])
  }

  function Zeros(n: nat): seq<nat> {
    seq(n, _ => 0)
  }

  lemma InitialSeen(adj: Adjacency, dist: seq<int>, u: nat, w: nat)
    ensures Seen(adj, dist, Zeros(|adj|), u, w) == 0
  {
    if u < |adj| { assert adj[u][..0] == []; }
  }

  lemma InitialCounts(adj: Adjacency, s: nat)
    requires WellFormed(adj) && s < |adj|
    ensures SigmaInv(adj, s, Single(|adj|, s, 0, -1), Zeros(|adj|), Single(|adj|, s, 1, 0))
    ensures PredInv(adj, Single(|adj|, s, 0, -1), Zeros(|adj|), NoLists(|adj|))
  {
    hide Seen, Sum;
    var N, dist, prog, sigma := |adj|, Single(|adj|, s, 0, -1), Zeros(|adj|), Single(|adj|, s, 1, 0);
    forall u: nat, w: nat
      ensures Seen(adj, dist, prog, u, w) == 0
    {
      InitialSeen(adj, dist, u, w);
    }
    forall w: nat | w < N
      ensures SigmaAt(adj, s, dist, prog, sigma, w)
    {
      SumZero(N, SeenTerm(adj, dist, prog, sigma, w));
    }
  }

  lemma InitialQueue(adj: Adjacency, s: nat)
    requires WellFormed(adj) && s < |adj|
    ensures DistInv(adj, s, Single(|adj|, s, 0, -1), Zeros(|adj|))
    ensures Between(adj, Single(|adj|, s, 0, -1), [], [s], Zeros(|adj|))
  {
    assert [] + [s] == [s];
  }

  lemma InitialState(adj: Adjacency, s: nat)
    requires WellFormed(adj) && s < |adj|
    ensures DistInv(adj, s, Single(|adj|, s, 0, -1), Zeros(|adj|))
    ensures SigmaInv(adj, s, Single(|adj|, s, 0, -1), Zeros(|adj|), Single(|adj|, s, 1, 0))
    ensures PredInv(adj, Single(|adj|, s, 0, -1), Zeros(|adj|), NoLists(|adj|))
    ensures Between(adj, Single(|adj|, s, 0, -1), [], [s], Zeros(|adj|))
  {
    hide DistInv, SigmaInv, PredInv, Between, WellFormed;
    InitialCounts(adj, s);
    InitialQueue(adj, s);
  }
}
