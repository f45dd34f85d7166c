/** Betweenness as it is defined, on explicit sets of paths, and what Brandes' recurrence has to
    do with it. */
module ShortestPaths {
  import opened Digraph
  import opened Sums
  import opened Sorting
  import opened Walks

  type Path = seq<nat>

  ghost predicate Simple(adj: Adjacency) {
    WellFormed(adj) && forall u :: 0 <= u < |adj| ==> Distinct(adj[u])
  }

  function Prepend(a: nat, S: set<Path>): set<Path> {
    set p | p in S :: [a] + p
  }

  /** The paths of k edges from a to b. */
  function Paths(adj: Adjacency, k: nat, a: nat, b: nat): set<Path>
    decreases k, 0
  {
    if a >= |adj| then {}
    else if k == 0 then (if a == b then {[a]} else {})
    else PathsFrom(adj, k, a, b, |adj[a]|)
  }

  /** Those whose first edge is among the first n edges of a. */
  function PathsFrom(adj: Adjacency, k: nat, a: nat, b: nat, n: nat): set<Path>
    requires k > 0 && a < |adj| && n <= |adj[a]|
    decreases k - 1, n + 1
  {
    if n == 0 then {}
    else PathsFrom(adj, k, a, b, n - 1) + Prepend(a, Paths(adj, k - 1, adj[a][n - 1], b))
  }

  // ---- Membership ------------------------------------------------------------------------

  ghost predicate IsPathOf(adj: Adjacency, k: nat, a: nat, b: nat, p: Path) {
    |p| == k + 1 && IsPath(adj, a, p, b)
  }

  lemma {:induction false} PathsFromMember(adj: Adjacency, k: nat, a: nat, b: nat, n: nat, p: Path)
    requires k > 0 && a < |adj| && n <= |adj[a]|
    ensures p in PathsFrom(adj, k, a, b, n) <==> exists i :: 0 <= i < n && |p| > 0 && p[0] == a && p[1..] in Paths(adj, k - 1, adj[a][i], b)
    decreases n
  {
    if n > 0 {
      PathsFromMember(adj, k, a, b, n - 1, p);
      var last := Paths(adj, k - 1, adj[a][n - 1], b);
      if p in Prepend(a, last) {
        var q :| q in last && p == [a] + q;
        assert p[1..] == q;
      }
      if |p| > 0 && p[0] == a && p[1..] in last {
        assert p == [a] + p[1..];
      }
    }
  }

  lemma PathTail(adj: Adjacency, k: nat, a: nat, b: nat, p: Path, c: nat)
    requires WellFormed(adj) && a < |adj| && |p| > 0 && p[0] == a && k > 0
    requires Edge(adj, a, c) && IsPathOf(adj, k - 1, c, b, p[1..])
    ensures IsPathOf(adj, k, a, b, p)
  {
    var q := p[1..];
    forall i | 0 <= i < |p| - 1
      ensures Edge(adj, p[i], p[i + 1])
    {
      if i > 0 { assert Edge(adj, q[i - 1], q[i]); }
    }
  }

  lemma PathUntail(adj: Adjacency, k: nat, a: nat, b: nat, p: Path)
    requires WellFormed(adj) && k > 0 && IsPathOf(adj, k, a, b, p)
    ensures Edge(adj, a, p[1]) && IsPathOf(adj, k - 1, p[1], b, p[1..])
  {
    var q := p[1..];
    assert Edge(adj, p[0], p[1]);
    EdgeInRange(adj, p[0], p[1]);
    forall i | 0 <= i < |q| - 1
      ensures Edge(adj, q[i], q[i + 1])
    {
      assert Edge(adj, p[i + 1], p[i + 2]);
    }
  }

  /** Paths lists exactly the paths. */
  lemma {:induction false} PathsAreThePaths(adj: Adjacency, k: nat, a: nat, b: nat, p: Path)
    requires WellFormed(adj) && a < |adj|
    ensures p in Paths(adj, k, a, b) <==> IsPathOf(adj, k, a, b, p)
    decreases k
  {
    hide IsPath;
    if k == 0 {
      OneNodePath(adj, a, b, p);
    } else {
      PathsFromMember(adj, k, a, b, |adj[a]|, p);
      if p in Paths(adj, k, a, b) {
        var i :| 0 <= i < |adj[a]| && |p| > 0 && p[0] == a && p[1..] in Paths(adj, k - 1, adj[a][i], b);
        PathsAreThePaths(adj, k - 1, adj[a][i], b, p[1..]);
        assert Edge(adj, a, adj[a][i]);
        PathTail(adj, k, a, b, p, adj[a][i]);
      }
      if IsPathOf(adj, k, a, b, p) {
        PathUntail(adj, k, a, b, p);
        PathStart(adj, k, a, b, p);
        EdgeInRange(adj, a, p[1]);
        PathsAreThePaths(adj, k - 1, p[1], b, p[1..]);
        var i :| 0 <= i < |adj[a]| && adj[a][i] == p[1];
      }
    }
  }

  lemma OneNodePath(adj: Adjacency, a: nat, b: nat, p: Path)
    requires a < |adj|
    ensures IsPathOf(adj, 0, a, b, p) <==> a == b && p == [a]
  {
  }

  lemma PathStart(adj: Adjacency, k: nat, a: nat, b: nat, p: Path)
    requires IsPathOf(adj, k, a, b, p)
    ensures |p| == k + 1 && p[0] == a && p[k] == b
  {
  }

  // ---- Counting --------------------------------------------------------------------------

  lemma {:induction false} PrependSize(a: nat, S: set<Path>)
    ensures |Prepend(a, S)| == |S|
  {
    if S != {} {
      var p :| p in S;
      PrependSize(a, S - {p});
      assert Prepend(a, S) == Prepend(a, S - {p}) + {[a] + p};
      assert [a] + p !in Prepend(a, S - {p}) by {
        forall q | q in S - {p}
          ensures [a] + q != [a] + p
        {
          assert ([a] + q)[1..] == q && ([a] + p)[1..] == p;
        }
      }
    }
  }

  function WeightedBy(adj: Adjacency, k: nat, row: seq<nat>, b: nat): nat -> real {
    (c: nat) => Count(row, c) as real * W(adj, k, c, b)
  }

  lemma WeightedByAt(adj: Adjacency, k: nat, row: seq<nat>, x: nat, b: nat, c: nat)
    ensures c != x ==> WeightedBy(adj, k, row + [x], b)(c) == WeightedBy(adj, k, row, b)(c)
    ensures c == x ==> WeightedBy(adj, k, row + [x], b)(c) == WeightedBy(adj, k, row, b)(c) + W(adj, k, x, b)
  {
    hide W;
    CountAppend(row, x, c);
    var n, w := Count(row, c) as real, W(adj, k, c, b);
    assert (n + 1.0) * w == n * w + w;
  }

  lemma WeightedByAppend(adj: Adjacency, k: nat, row: seq<nat>, x: nat, b: nat)
    requires x < |adj|
    ensures Sum(|adj|, WeightedBy(adj, k, row + [x], b)) == Sum(|adj|, WeightedBy(adj, k, row, b)) + W(adj, k, x, b)
  {
    hide W, Sum, WeightedBy;
    forall c: nat | c < |adj|
      ensures c != x ==> WeightedBy(adj, k, row, b)(c) == WeightedBy(adj, k, row + [x], b)(c)
    {
      WeightedByAt(adj, k, row, x, b, c);
    }
    WeightedByAt(adj, k, row, x, b, x);
    SumChange(|adj|, WeightedBy(adj, k, row, b), WeightedBy(adj, k, row + [x], b), x);
  }

  ghost predicate Counted(adj: Adjacency, k: nat, b: nat, c: nat) {
    |Paths(adj, k, c, b)| as real == W(adj, k, c, b)
  }

  lemma {:induction false} PathsFromCount(adj: Adjacency, k: nat, a: nat, b: nat, n: nat)
    requires Simple(adj) && a < |adj| && n <= |adj[a]|
    requires forall c: nat :: c < |adj| ==> Counted(adj, k, b, c)
    ensures |PathsFrom(adj, k + 1, a, b, n)| as real == Sum(|adj|, WeightedBy(adj, k, adj[a][..n], b))
    decreases n
  {
    hide W, Sum, Distinct, Prepend;
    if n == 0 {
      assert adj[a][..0] == [];
      SumZero(|adj|, WeightedBy(adj, k, [], b));
    } else {
      var c := adj[a][n - 1];
      PathsFromCount(adj, k, a, b, n - 1);
      assert Counted(adj, k, b, c);
      assert adj[a][..n] == adj[a][..n - 1] + [c];
      WeightedByAppend(adj, k, adj[a][..n - 1], c, b);
      PrependSize(a, Paths(adj, k, c, b));
      NewFirstEdge(adj, k + 1, a, b, n);
    }
  }

  /** Paths with different first edges are different. */
  lemma NewFirstEdge(adj: Adjacency, k: nat, a: nat, b: nat, n: nat)
    requires Simple(adj) && k > 0 && a < |adj| && 0 < n <= |adj[a]|
    ensures PathsFrom(adj, k, a, b, n - 1) !! Prepend(a, Paths(adj, k - 1, adj[a][n - 1], b))
  {
    var c := adj[a][n - 1];
    var row := adj[a][..n - 1];
    var before, here := PathsFrom(adj, k, a, b, n - 1), Prepend(a, Paths(adj, k - 1, c, b));
    forall p | p in here
      ensures p !in before
    {
      var q :| q in Paths(adj, k - 1, c, b) && p == [a] + q;
      assert p[1..] == q;
      PathsAreThePaths(adj, k - 1, c, b, q);
      PathsFromMember(adj, k, a, b, n - 1, p);
      if p in before {
        var i :| 0 <= i < n - 1 && q in Paths(adj, k - 1, adj[a][i], b);
        PathsAreThePaths(adj, k - 1, adj[a][i], b, q);
      }
    }
  }

  /** W counts the paths. */
  lemma {:induction false} PathsCount(adj: Adjacency, k: nat, a: nat, b: nat)
    requires Simple(adj) && a < |adj|
    ensures |Paths(adj, k, a, b)| as real == W(adj, k, a, b)
    decreases k
  {
    if k > 0 {
      hide Sum, Distinct, PathsFrom;
      var j: nat := k - 1;
      forall c: nat | c < |adj|
        ensures Counted(adj, j, b, c)
      {
        PathsCount(adj, j, c, b);
      }
      PathsFromCount(adj, j, a, b, |adj[a]|);
      assert adj[a][..|adj[a]|] == adj[a];
      WalksFirst(adj, j, a, b);
      SumCongr(|adj|, WeightedBy(adj, j, adj[a], b), FirstStep(adj, j, a, b));
    }
  }

  // ---- Joining paths ---------------------------------------------------------------------

  function Join(p: Path, q: Path): Path {
    if q == [] then p else p + q[1..]
  }

  function JoinAll(p: Path, Q: set<Path>): set<Path> {
    set q | q in Q :: Join(p, q)
  }

  function Joins(P: set<Path>, Q: set<Path>): set<Path> {
    set p, q | p in P && q in Q :: Join(p, q)
  }

  ghost predicate Joinable(P: set<Path>, Q: set<Path>, i: nat, v: nat) {
    && (forall p :: p in P ==> |p| == i + 1)
    && (forall q :: q in Q ==> |q| > 0 && q[0] == v)
  }

  lemma JoinInjective(p: Path, q: Path, r: Path)
    requires |q| > 0 && |r| > 0 && q[0] == r[0] && Join(p, q) == Join(p, r)
    ensures q == r
  {
    assert Join(p, q)[|p|..] == q[1..] && Join(p, r)[|p|..] == r[1..];
    assert q == [q[0]] + q[1..] && r == [r[0]] + r[1..];
  }

  lemma {:induction false} JoinOneSize(p: Path, Q: set<Path>, v: nat)
    requires forall q :: q in Q ==> |q| > 0 && q[0] == v
    ensures |JoinAll(p, Q)| == |Q|
  {
    if Q != {} {
      hide Join;
      var r :| r in Q;
      JoinOneSize(p, Q - {r}, v);
      assert JoinAll(p, Q) == JoinAll(p, Q - {r}) + {Join(p, r)};
      forall q | q in Q - {r}
        ensures Join(p, q) != Join(p, r)
      {
        if Join(p, q) == Join(p, r) { JoinInjective(p, q, r); }
      }
    }
  }

  lemma JoinsApart(P: set<Path>, Q: set<Path>, i: nat, v: nat, p: Path)
    requires Joinable(P, Q, i, v) && p in P
    ensures Joins(P - {p}, Q) !! JoinAll(p, Q)
  {
    forall p', q', q | p' in P - {p} && q' in Q && q in Q
      ensures Join(p', q') != Join(p, q)
    {
      assert Join(p', q')[..i + 1] == p' && Join(p, q)[..i + 1] == p;
    }
  }

  lemma JoinableRest(P: set<Path>, Q: set<Path>, i: nat, v: nat, p: Path)
    requires Joinable(P, Q, i, v) && p in P
    ensures Joinable(P - {p}, Q, i, v)
    ensures |JoinAll(p, Q)| == |Q|
  {
    JoinOneSize(p, Q, v);
  }

  lemma {:induction false} JoinsSize(P: set<Path>, Q: set<Path>, i: nat, v: nat)
    requires Joinable(P, Q, i, v)
    ensures |Joins(P, Q)| == |P| * |Q|
  {
    if P != {} {
      hide Join, JoinAll, Joinable;
      var p :| p in P;
      JoinableRest(P, Q, i, v, p);
      JoinsSize(P - {p}, Q, i, v);
      JoinsSplit(P, Q, p);
      JoinsApart(P, Q, i, v, p);
      MulStep(|P - {p}|, |Q|);
      assert |P| == |P - {p}| + 1;
    } else {
      assert Joins(P, Q) == {};
    }
  }

  lemma MulStep(n: nat, m: nat)
    ensures (n + 1) * m == n * m + m
  {
  }

  lemma JoinsSplit(P: set<Path>, Q: set<Path>, p: Path)
    requires p in P
    ensures Joins(P, Q) == Joins(P - {p}, Q) + JoinAll(p, Q)
  {
    forall r | r in Joins(P, Q)
      ensures r in Joins(P - {p}, Q) + JoinAll(p, Q)
    {
      var p', q' :| p' in P && q' in Q && r == Join(p', q');
      if p' != p { assert p' in P - {p}; }
    }
  }

  lemma JoinIsPath(adj: Adjacency, i: nat, j: nat, a: nat, v: nat, b: nat, p: Path, q: Path)
    requires IsPathOf(adj, i, a, v, p) && IsPathOf(adj, j, v, b, q)
    ensures IsPathOf(adj, i + j, a, b, Join(p, q)) && Join(p, q)[i] == v
  {
    var r := Join(p, q);
    forall x | 0 <= x < |r| - 1
      ensures Edge(adj, r[x], r[x + 1])
    {
      if x < i {
        assert Edge(adj, p[x], p[x + 1]);
      } else {
        assert r[x] == q[x - i] && r[x + 1] == q[x - i + 1];
        assert Edge(adj, q[x - i], q[x - i + 1]);
      }
    }
  }

  lemma SplitPath(adj: Adjacency, k: nat, i: nat, a: nat, b: nat, r: Path)
    requires WellFormed(adj) && IsPathOf(adj, k, a, b, r) && i <= k
    ensures r[i] < |adj|
    ensures IsPathOf(adj, i, a, r[i], r[..i + 1]) && IsPathOf(adj, k - i, r[i], b, r[i..])
    ensures Join(r[..i + 1], r[i..]) == r
  {
    var p, q := r[..i + 1], r[i..];
    forall x | 0 <= x < |p| - 1
      ensures Edge(adj, p[x], p[x + 1])
    {
      assert Edge(adj, r[x], r[x + 1]);
    }
    forall x | 0 <= x < |q| - 1
      ensures Edge(adj, q[x], q[x + 1])
    {
      assert Edge(adj, r[x + i], r[x + i + 1]);
    }
    if i > 0 {
      assert Edge(adj, r[i - 1], r[i]);
      EdgeInRange(adj, r[i - 1], r[i]);
    }
  }

  // ---- Shortest paths --------------------------------------------------------------------

  ghost predicate HasPath(adj: Adjacency, a: nat, b: nat) {
    exists k: nat :: Paths(adj, k, a, b) != {}
  }

  ghost predicate IsDistance(adj: Adjacency, a: nat, b: nat, k: nat) {
    Paths(adj, k, a, b) != {} && forall j: nat :: j < k ==> Paths(adj, j, a, b) == {}
  }

  lemma {:induction false} DistanceExists(adj: Adjacency, a: nat, b: nat, k: nat)
    requires Paths(adj, k, a, b) != {}
    ensures exists d: nat :: IsDistance(adj, a, b, d)
    decreases k
  {
    if j: nat :| j < k && Paths(adj, j, a, b) != {} {
      DistanceExists(adj, a, b, j);
    } else {
      assert IsDistance(adj, a, b, k);
    }
  }

  /** The number of edges of a shortest path, -1 if there is no path. */
  ghost function Distance(adj: Adjacency, a: nat, b: nat): (d: int)
    ensures d >= 0 ==> IsDistance(adj, a, b, d)
    ensures d < 0 ==> d == -1 && !HasPath(adj, a, b)
  {
    if HasPath(adj, a, b) then
      var k: nat :| Paths(adj, k, a, b) != {};
      DistanceExists(adj, a, b, k);
      var d: nat :| IsDistance(adj, a, b, d);
      d
    else -1
  }

  /** The shortest paths from a to b. */
  ghost function Shortest(adj: Adjacency, a: nat, b: nat): set<Path> {
    if Distance(adj, a, b) < 0 then {} else Paths(adj, Distance(adj, a, b), a, b)
  }

  /** Those that pass through v. */
  ghost function Through(adj: Adjacency, a: nat, b: nat, v: nat): set<Path> {
    set p | p in Shortest(adj, a, b) && v in p
  }

  /** The fraction of the shortest paths from s to t that have v as an inner node or as start. */
  ghost function Fraction(adj: Adjacency, s: nat, v: nat): nat -> real {
    (t: nat) => if t == v || Distance(adj, s, t) < 0 then 0.0
                else assert Shortest(adj, s, t) != {};
                     |Through(adj, s, t, v)| as real / |Shortest(adj, s, t)| as real
  }

  ghost function Dependency(adj: Adjacency, s: nat, v: nat): real {
    Sum(|adj|, Fraction(adj, s, v))
  }

  /** What the source s adds to the betweenness of v. */
  ghost function Added(adj: Adjacency, s: nat, v: nat): real {
    if v == s then 0.0 else Dependency(adj, s, v)
  }

  ghost function FromOthers(adj: Adjacency, v: nat): nat -> real {
    (s: nat) => Added(adj, s, v)
  }

  /** Betweenness: over all pairs of a source s != v and a target t != v, the fraction of the
      shortest paths from s to t that pass through v. */
  ghost function Betweenness(adj: Adjacency, v: nat): real {
    Sum(|adj|, FromOthers(adj, v))
  }

  lemma PathsNonEmpty(adj: Adjacency, k: nat, a: nat, b: nat)
    requires Simple(adj) && a < |adj|
    ensures Paths(adj, k, a, b) != {} <==> W(adj, k, a, b) > 0.0
  {
    PathsCount(adj, k, a, b);
  }

  /** The locally consistent distances are the distances. */
  lemma DistIsDistance(adj: Adjacency, s: nat, dist: seq<int>, t: nat)
    requires Simple(adj) && DistOk(adj, s, dist) && t < |adj|
    ensures dist[t] == Distance(adj, s, t)
  {
    hide W, HasPred, Paths, Distinct;
    DistIsShortest(adj, s, dist, t);
    var d := Distance(adj, s, t);
    if d >= 0 { PathsNonEmpty(adj, d, s, t); }
    if dist[t] >= 0 { PathsNonEmpty(adj, dist[t], s, t); }
  }

  /** A node on a shortest path stands there at its distance. */
  lemma PlaceOnShortest(adj: Adjacency, s: nat, dist: seq<int>, t: nat, r: Path, i: nat)
    requires Simple(adj) && DistOk(adj, s, dist) && t < |adj| && dist[t] >= 0
    requires IsPathOf(adj, dist[t], s, t, r) && i < |r|
    ensures r[i] < |adj| && dist[r[i]] == i
  {
    hide W, HasPred, Paths, Distinct, IsPath;
    var k := dist[t];
    PathStart(adj, k, s, t, r);
    SplitPath(adj, k, i, s, t, r);
    PathsAreThePaths(adj, i, s, r[i], r[..i + 1]);
    PathsAreThePaths(adj, k - i, r[i], t, r[i..]);
    PathsNonEmpty(adj, i, s, r[i]);
    PathsNonEmpty(adj, k - i, r[i], t);
    WalkRaises(adj, s, dist, i, s, r[i]);
    WalkRaises(adj, s, dist, k - i, r[i], t);
  }

  /** The shortest paths through v are the joins of shortest paths to v and from v. */
  lemma ThroughIsJoins(adj: Adjacency, s: nat, dist: seq<int>, t: nat, v: nat)
    requires Simple(adj) && DistOk(adj, s, dist) && |dist| == |adj| && t < |adj| && v < |adj| && 0 <= dist[v] <= dist[t]
    ensures Through(adj, s, t, v) == Joins(Paths(adj, dist[v], s, v), Paths(adj, dist[t] - dist[v], v, t))
  {
    hide W, HasPred, Distinct, IsPath, Paths, DistOk;
    DistFacts(adj, s, dist);
    DistIsDistance(adj, s, dist, t);
    var i, k := dist[v], dist[t];
    forall r | r in Through(adj, s, t, v)
      ensures r in Joins(Paths(adj, i, s, v), Paths(adj, k - i, v, t))
    {
      PathsAreThePaths(adj, k, s, t, r);
      var x :| 0 <= x < |r| && r[x] == v;
      PlaceOnShortest(adj, s, dist, t, r, x);
      PathStart(adj, k, s, t, r);
      SplitPath(adj, k, i, s, t, r);
      PathsAreThePaths(adj, i, s, v, r[..i + 1]);
      PathsAreThePaths(adj, k - i, v, t, r[i..]);
    }
    forall p, q | p in Paths(adj, i, s, v) && q in Paths(adj, k - i, v, t)
      ensures Join(p, q) in Through(adj, s, t, v)
    {
      PathsAreThePaths(adj, i, s, v, p);
      PathsAreThePaths(adj, k - i, v, t, q);
      JoinIsPath(adj, i, k - i, s, v, t, p, q);
      PathsAreThePaths(adj, k, s, t, Join(p, q));
      PathStart(adj, k, s, t, Join(p, q));
      assert v in Join(p, q);
    }
  }

  lemma DistFacts(adj: Adjacency, s: nat, dist: seq<int>)
    requires DistOk(adj, s, dist)
    ensures s < |adj| == |dist| && WellFormed(adj)
  {
  }

  lemma ThroughCount(adj: Adjacency, s: nat, dist: seq<int>, t: nat, v: nat)
    requires Simple(adj) && DistOk(adj, s, dist) && |dist| == |adj| && t < |adj| && v < |adj| && 0 <= dist[v] <= dist[t]
    ensures |Through(adj, s, t, v)| as real == W(adj, dist[v], s, v) * W(adj, dist[t] - dist[v], v, t)
  {
    hide W, HasPred, Distinct, IsPath, Paths, DistOk, Through, Joins;
    DistFacts(adj, s, dist);
    var P, Q := Paths(adj, dist[v], s, v), Paths(adj, dist[t] - dist[v], v, t);
    ThroughIsJoins(adj, s, dist, t, v);
    forall p | p in P
      ensures |p| == dist[v] + 1
    {
      PathsAreThePaths(adj, dist[v], s, v, p);
      PathStart(adj, dist[v], s, v, p);
    }
    forall q | q in Q
      ensures |q| > 0 && q[0] == v
    {
      PathsAreThePaths(adj, dist[t] - dist[v], v, t, q);
      PathStart(adj, dist[t] - dist[v], v, t, q);
    }
    JoinsSize(P, Q, dist[v], v);
    PathsCount(adj, dist[v], s, v);
    PathsCount(adj, dist[t] - dist[v], v, t);
    MulCast(|P|, |Q|);
  }

  lemma MulCast(a: nat, b: nat)
    ensures (a * b) as real == a as real * b as real
  {
  }

  /** No shortest path from s to t passes through a node that is farther than t, or unreachable. */
  lemma NoneThrough(adj: Adjacency, s: nat, dist: seq<int>, t: nat, v: nat)
    requires Simple(adj) && DistOk(adj, s, dist) && |dist| == |adj| && t < |adj| && v < |adj| && dist[t] >= 0
    requires dist[v] < 0 || dist[v] > dist[t] || (dist[v] == dist[t] && v != t)
    ensures Through(adj, s, t, v) == {}
  {
    hide W, HasPred, Distinct, IsPath, Paths, DistOk;
    DistFacts(adj, s, dist);
    DistIsDistance(adj, s, dist, t);
    forall r | r in Through(adj, s, t, v)
      ensures false
    {
      PathsAreThePaths(adj, dist[t], s, t, r);
      var x :| 0 <= x < |r| && r[x] == v;
      PlaceOnShortest(adj, s, dist, t, r, x);
      PathStart(adj, dist[t], s, t, r);
    }
  }

  /** The summand of Brandes' dependency is the fraction of shortest paths. */
  lemma PairDepIsFraction(adj: Adjacency, s: nat, dist: seq<int>, v: nat, t: nat)
    requires Simple(adj) && DistOk(adj, s, dist) && v < |adj| && t < |adj| && dist[v] >= 0
    ensures PairDep(adj, s, dist, v)(t) == Fraction(adj, s, v)(t)
  {
    hide W, HasPred, Distinct, Through, DistOk;
    DistFacts(adj, s, dist);
    DistIsDistance(adj, s, dist, t);
    if dist[t] >= 0 && t != v {
      PathsCount(adj, dist[t], s, t);
      if dist[v] < dist[t] {
        ThroughCount(adj, s, dist, t, v);
        InvCancels(adj, s, dist, t);
        DivAsMul(W(adj, dist[v], s, v), W(adj, dist[t] - dist[v], v, t), W(adj, dist[t], s, t), Inv(adj, s, dist, t));
      } else {
        NoneThrough(adj, s, dist, t, v);
      }
    }
  }

  lemma DivAsMul(a: real, b: real, c: real, inv: real)
    requires c * inv == 1.0
    ensures c != 0.0 && a * (b * inv) == (a * b) / c
  {
    assert a * (b * inv) * c == a * b * (inv * c);
  }

  /** What Brandes' recurrence computes is the dependency as defined on sets of paths. */
  lemma DepIsDependency(adj: Adjacency, s: nat, dist: seq<int>, v: nat)
    requires Simple(adj) && DistOk(adj, s, dist) && v < |adj| && dist[v] >= 0
    ensures Dep(adj, s, dist, v) == Dependency(adj, s, v)
  {
    hide W, HasPred, Distinct, DistOk, PairDep, Fraction, Sum;
    forall t: nat | t < |adj|
      ensures PairDep(adj, s, dist, v)(t) == Fraction(adj, s, v)(t)
    {
      PairDepIsFraction(adj, s, dist, v, t);
    }
    SumCongr(|adj|, PairDep(adj, s, dist, v), Fraction(adj, s, v));
  }

  /** A node that s does not reach has no dependency. */
  lemma UnreachedNoDependency(adj: Adjacency, s: nat, dist: seq<int>, v: nat)
    requires Simple(adj) && DistOk(adj, s, dist) && v < |adj| && dist[v] < 0
    ensures Dependency(adj, s, v) == 0.0
  {
    hide W, HasPred, Distinct, DistOk, Through, Paths;
    DistFacts(adj, s, dist);
    forall t: nat | t < |adj|
      ensures Fraction(adj, s, v)(t) == 0.0
    {
      DistIsDistance(adj, s, dist, t);
        if dist[t] >= 0 {
        NoneThrough(adj, s, dist, t, v);
      }
    }
    SumZero(|adj|, Fraction(adj, s, v));
  }
}
