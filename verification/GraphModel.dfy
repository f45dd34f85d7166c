/** The dependency graph: names interned to node ids, a deduplicated adjacency list with its
    transpose and weights, and an index from edges to their positions. */
module GraphModel {
  import opened Digraph
  import opened Sorting
  import opened Sums

  const TWO32: nat := 0x1_0000_0000

  /** (u << 32) | v on 32-bit ids. */
  function EdgeKey(u: nat, v: nat): nat {
    u * TWO32 + v
  }

  lemma EdgeKeyInjective(u: nat, v: nat, x: nat, y: nat)
    requires v < TWO32 && y < TWO32 && EdgeKey(u, v) == EdgeKey(x, y)
    ensures u == x && v == y
  {
  }

  lemma SumAppend(w: seq<real>, x: real)
    ensures Total(w + [x]) == Total(w) + x
  {
    assert (w + [x])[..|w|] == w;
  }

  lemma {:induction false} SumUpdate(w: seq<real>, i: nat, x: real)
    requires i < |w|
    ensures Total(w[i := x]) == Total(w) - w[i] + x
  {
    var n := |w| - 1;
    if i < n {
      SumUpdate(w[..n], i, x);
      assert w[i := x][..n] == w[..n][i := x];
    } else {
      assert w[i := x][..n] == w[..n];
    }
  }

  /** Names and node ids correspond one to one. */
  ghost predicate Bijection(idToNode: map<string, nat>, nodeToId: seq<string>) {
    && (forall s :: s in idToNode ==> idToNode[s] < |nodeToId| && nodeToId[idToNode[s]] == s)
    && (forall i :: 0 <= i < |nodeToId| ==> nodeToId[i] in idToNode && idToNode[nodeToId[i]] == i)
  }

  /** The index holds exactly the edges, each with its position; so there are no parallel edges. */
  ghost predicate IndexOk(adj: Adjacency, edgePos: map<nat, nat>) {
    && WellFormed(adj)
    && (forall u: nat, i: nat :: u < |adj| && i < |adj[u]| ==>
          EdgeKey(u, adj[u][i]) in edgePos && edgePos[EdgeKey(u, adj[u][i])] == i)
    && (forall u: nat, v: nat :: u < |adj| && v < |adj| && EdgeKey(u, v) in edgePos ==>
          edgePos[EdgeKey(u, v)] < |adj[u]| && adj[u][edgePos[EdgeKey(u, v)]] == v)
    && (forall k :: k in edgePos ==> k / TWO32 < |adj| && k % TWO32 < |adj|)
  }

  ghost predicate TransposeOk(adj: Adjacency, radj: Adjacency) {
    && |radj| == |adj|
    && (forall v :: 0 <= v < |radj| ==> Distinct(radj[v]))
    && (forall u: nat, v: nat :: v < |radj| ==> (u in radj[v] <==> Edge(adj, u, v)))
  }

  lemma KeyOfEdge(adj: Adjacency, edgePos: map<nat, nat>, u: nat, v: nat)
    requires IndexOk(adj, edgePos) && u < |adj| && v < |adj|
    ensures Edge(adj, u, v) <==> EdgeKey(u, v) in edgePos
  {
    if Edge(adj, u, v) {
      var i :| 0 <= i < |adj[u]| && adj[u][i] == v;
    }
  }

  lemma NewNode(adj: Adjacency, radj: Adjacency, edgePos: map<nat, nat>)
    requires IndexOk(adj, edgePos) && TransposeOk(adj, radj) && |adj| < TWO32
    ensures IndexOk(adj + [[]], edgePos) && TransposeOk(adj + [[]], radj + [[]])
  {
    forall u: nat, v: nat | u < |adj| + 1 && v < |adj| + 1 && EdgeKey(u, v) in edgePos
      ensures u < |adj| && v < |adj|
    {
      assert EdgeKey(u, v) / TWO32 == u && EdgeKey(u, v) % TWO32 == v;
    }
  }

  lemma InsertIndexed(adj: Adjacency, edgePos: map<nat, nat>, u: nat, v: nat)
    requires IndexOk(adj, edgePos) && |adj| <= TWO32 && u < |adj| && v < |adj| && EdgeKey(u, v) !in edgePos
    ensures IndexOk(adj[u := adj[u] + [v]], edgePos[EdgeKey(u, v) := |adj[u]|])
  {
    var adj', edgePos' := adj[u := adj[u] + [v]], edgePos[EdgeKey(u, v) := |adj[u]|];
    forall x: nat, i: nat | x < |adj'| && i < |adj'[x]|
      ensures EdgeKey(x, adj'[x][i]) in edgePos' && edgePos'[EdgeKey(x, adj'[x][i])] == i
    {
      if x == u && i == |adj[u]| {
      } else {
        assert adj'[x][i] == adj[x][i];
        assert EdgeKey(x, adj[x][i]) in edgePos;
      }
    }
    forall x: nat, y: nat | x < |adj'| && y < |adj'| && EdgeKey(x, y) in edgePos'
      ensures edgePos'[EdgeKey(x, y)] < |adj'[x]| && adj'[x][edgePos'[EdgeKey(x, y)]] == y
    {
      if EdgeKey(x, y) == EdgeKey(u, v) {
        EdgeKeyInjective(x, y, u, v);
      } else {
        assert EdgeKey(x, y) in edgePos;
      }
    }
  }

  lemma InsertTransposed(adj: Adjacency, radj: Adjacency, u: nat, v: nat)
    requires TransposeOk(adj, radj) && u < |adj| && v < |adj| && !Edge(adj, u, v)
    ensures TransposeOk(adj[u := adj[u] + [v]], radj[v := radj[v] + [u]])
  {
    assert u !in radj[v];
  }

  class Graph {
    var adj: Adjacency
    var radj: Adjacency
    var adjW: seq<seq<real>>
    var idToNode: map<string, nat>
    var nodeToId: seq<string>
    var edgePos: map<nat, nat>

    ghost predicate Valid()
      reads this
    {
      && |adj| == |radj| == |adjW| == |nodeToId| <= TWO32
      && Bijection(idToNode, nodeToId) && IndexOk(adj, edgePos) && TransposeOk(adj, radj)
      && (forall u :: 0 <= u < |adj| ==> u !in adj[u] && |adjW[u]| == |adj[u]|)
    }

    ghost predicate HasEdge(u: nat, v: nat)
      reads this
    {
      Edge(adj, u, v)
    }

    /** The accumulated weight of the edge u -> v, 0 if there is none. */
    ghost function Weight(u: nat, v: nat): real
      reads this
      requires Valid()
    {
      if u < |adj| && v < |adj| && EdgeKey(u, v) in edgePos then adjW[u][edgePos[EdgeKey(u, v)]] else 0.0
    }

    constructor ()
      ensures Valid() && nodeToId == [] && adj == []
    {
      adj, radj, adjW := [], [], [];
      idToNode, nodeToId, edgePos := map[], [], map[];
    }

    lemma NoParallelEdges(u: nat)
      requires Valid() && u < |adj|
      ensures Distinct(adj[u])
    {
      forall i, j | 0 <= i < j < |adj[u]|
        ensures adj[u][i] != adj[u][j]
      {
        assert edgePos[EdgeKey(u, adj[u][i])] == i;
        assert edgePos[EdgeKey(u, adj[u][j])] == j;
      }
    }

    /** The node of a name, created if it is new. A node number is 32 bits wide, so the names stay
        in correspondence exactly as long as there are at most 2^32 of them. */
    method GetOrAdd(id: string) returns (nid: nat)
      requires Valid()
      modifies this
      ensures Valid() <==> (id in old(idToNode) || old(|nodeToId|) < TWO32)
      ensures Bijection(idToNode, nodeToId) <==> (id in old(idToNode) || old(|nodeToId|) < TWO32)
      ensures id in old(idToNode) ==> nid == old(idToNode[id]) && unchanged(this)
      ensures id !in old(idToNode) ==>
                && nodeToId == old(nodeToId) + [id] && nid == old(|nodeToId|) % TWO32
                && adj == old(adj) + [[]] && radj == old(radj) + [[]] && adjW == old(adjW) + [[]]
                && edgePos == old(edgePos) && idToNode == old(idToNode)[id := nid]
      ensures Valid() ==> nid < |nodeToId| && nodeToId[nid] == id
    {
      hide IndexOk, TransposeOk;
      if id in idToNode {
        return idToNode[id];
      }
      nid := |nodeToId| % TWO32;
      idToNode := idToNode[id := nid];
      nodeToId := nodeToId + [id];
      adj, radj, adjW := adj + [[]], radj + [[]], adjW + [[]];
      assert nodeToId[|nodeToId| - 1] == id;
      if old(|nodeToId|) < TWO32 {
        NewNode(old(adj), old(radj), edgePos);
      }
    }

    /** What adding w to the edge u -> v means for the whole graph. */
    twostate predicate Added(u: nat, v: nat, w: real)
      requires old(Valid()) && Valid()
      reads this
    {
      && nodeToId == old(nodeToId) && idToNode == old(idToNode) && |adj| == old(|adj|)
      && u < |adj| && v < |adj| && HasEdge(u, v)
      && Weight(u, v) == old(Weight(u, v)) + w
      && Total(adjW[u]) == old(Total(adjW[u])) + w
      && (forall x: nat, y: nat :: (x, y) != (u, v) ==>
            HasEdge(x, y) == old(HasEdge(x, y)) && Weight(x, y) == old(Weight(x, y)))
      && (forall x: nat :: x < |adj| && x != u ==> adjW[x] == old(adjW[x]) && adj[x] == old(adj[x]))
    }

    /** The edge is there: its weight grows. */
    method Accumulate(u: nat, v: nat, w: real)
      requires Valid() && u < |adj| && v < |adj| && EdgeKey(u, v) in edgePos
      modifies this
      ensures Valid() && Added(u, v, w)
    {
      hide Bijection, TransposeOk;
      KeyOfEdge(adj, edgePos, u, v);
      var i := edgePos[EdgeKey(u, v)];
      SumUpdate(adjW[u], i, adjW[u][i] + w);
      adjW := adjW[u := adjW[u][i := adjW[u][i] + w]];
      forall x: nat, y: nat | (x, y) != (u, v)
        ensures Weight(x, y) == old(Weight(x, y))
      {
        if x < |adj| && y < |adj| && EdgeKey(x, y) in edgePos && x == u {
          assert adj[u][edgePos[EdgeKey(u, y)]] == y;
        }
      }
    }

    /** The edge is new: it is appended, and its transpose with it. */
    method InsertEdge(u: nat, v: nat, w: real)
      requires Valid() && u != v && u < |adj| && v < |adj| && EdgeKey(u, v) !in edgePos
      modifies this
      ensures Valid() && Added(u, v, w)
    {
      hide Bijection, IndexOk, TransposeOk;
      KeyOfEdge(adj, edgePos, u, v);
      InsertIndexed(adj, edgePos, u, v);
      InsertTransposed(adj, radj, u, v);
      SumAppend(adjW[u], w);
      ghost var m := old(edgePos);
      edgePos := edgePos[EdgeKey(u, v) := |adj[u]|];
      adj := adj[u := adj[u] + [v]];
      adjW := adjW[u := adjW[u] + [w]];
      radj := radj[v := radj[v] + [u]];
      forall x: nat, y: nat | (x, y) != (u, v)
        ensures Weight(x, y) == old(Weight(x, y))
      {
        OtherWeight(old(adj), m, u, v, x, y);
      }
    }

    /** Inserts u -> v, or adds w to the weight of the edge that is there; self-loops and unknown
        nodes are ignored. */
    method AddEdge(u: nat, v: nat, w: real)
      requires Valid()
      modifies this
      ensures Valid()
      ensures if u == v || u >= old(|adj|) || v >= old(|adj|) then unchanged(this) else Added(u, v, w)
    {
      hide Bijection, IndexOk, TransposeOk;
      if u == v { return; }
      if u >= |adj| || v >= |radj| { return; }
      if EdgeKey(u, v) in edgePos {
        Accumulate(u, v, w);
      } else {
        InsertEdge(u, v, w);
      }
    }

    /** The weight of adj[u][i]; 1 on a graph whose weights were never filled in. */
    function EdgeWeight(u: nat, i: nat): real
      reads this
      requires u < |adj| && i < |adj[u]|
    {
      if u >= |adjW| || |adjW[u]| != |adj[u]| then 1.0 else adjW[u][i]
    }

    method OutWeight(u: nat) returns (s: real)
      ensures u >= |adj| ==> s == 0.0
      ensures u < |adj| && u < |adjW| && |adjW[u]| == |adj[u]| ==> s == Total(adjW[u])
      ensures u < |adj| && (u >= |adjW| || |adjW[u]| != |adj[u]|) ==> s == |adj[u]| as real
    {
      if u >= |adj| { return 0.0; }
      s := 0.0;
      for i := 0 to |adj[u]|
        invariant u < |adjW| && |adjW[u]| == |adj[u]| ==> s == Total(adjW[u][..i])
        invariant u >= |adjW| || |adjW[u]| != |adj[u]| ==> s == i as real
      {
        if u < |adjW| && |adjW[u]| == |adj[u]| {
          assert adjW[u][..i + 1][..i] == adjW[u][..i];
        }
        s := s + EdgeWeight(u, i);
      }
      if u < |adjW| && |adjW[u]| == |adj[u]| {
        assert adjW[u][..|adj[u]|] == adjW[u];
      }
    }
  }

  lemma OtherWeight(adj: Adjacency, edgePos: map<nat, nat>, u: nat, v: nat, x: nat, y: nat)
    requires IndexOk(adj, edgePos) && |adj| <= TWO32 && u < |adj| && v < |adj| && (x, y) != (u, v)
    ensures x < |adj| && y < |adj| ==> EdgeKey(x, y) != EdgeKey(u, v)
    ensures x < |adj| && y < |adj| && EdgeKey(x, y) in edgePos ==> edgePos[EdgeKey(x, y)] < |adj[x]|
  {
  }

  // ---- Loading a graph -------------------------------------------------------------------

  /** One row of a link query: an edge between two names, with its weight. */
  datatype LinkRow = LinkRow(src: string, tgt: string, weight: real)

  /** The row contributes to the edge s -> t: names of the same file give no edge. */
  predicate Contributes(row: LinkRow, s: string, t: string) {
    row.src == s && row.tgt == t && s != t
  }

  ghost predicate SomeRow(rows: seq<LinkRow>, k: nat, s: string, t: string)
    requires k <= |rows|
  {
    exists i :: 0 <= i < k && Contributes(rows[i], s, t)
  }

  /** The weights of the first k rows for s -> t, added up. */
  function TotalWeight(rows: seq<LinkRow>, k: nat, s: string, t: string): real
    requires k <= |rows|
  {
    if k == 0 then 0.0
    else TotalWeight(rows, k - 1, s, t) + if Contributes(rows[k - 1], s, t) then rows[k - 1].weight else 0.0
  }

  /** The row is an edge out of s: it leads to another file of the project. */
  predicate Leaves(row: LinkRow, ids: map<string, nat>, s: string) {
    row.src == s && row.tgt in ids && row.tgt != s
  }

  /** The weights of the first k rows out of s, whatever they lead to, added up. */
  function WeightOut(rows: seq<LinkRow>, k: nat, ids: map<string, nat>, s: string): real
    requires k <= |rows|
  {
    if k == 0 then 0.0
    else WeightOut(rows, k - 1, ids, s) + if Leaves(rows[k - 1], ids, s) then rows[k - 1].weight else 0.0
  }

  /** The weight of row i if it leads from s to another name t. */
  function Between(rows: seq<LinkRow>, s: string, t: string): nat -> real {
    (i: nat) => if i < |rows| && rows[i].src == s && rows[i].tgt == t && s != t then rows[i].weight else 0.0
  }

  /** The weight of row i if it leads from s to another file of the project. */
  function From(rows: seq<LinkRow>, files: set<string>, s: string): nat -> real {
    (i: nat) => if i < |rows| && rows[i].src == s && rows[i].tgt in files && rows[i].tgt != s then rows[i].weight else 0.0
  }

  lemma {:induction false} WeightsAreSums(rows: seq<LinkRow>, k: nat, ids: map<string, nat>, s: string, t: string)
    requires k <= |rows|
    ensures TotalWeight(rows, k, s, t) == Sum(k, Between(rows, s, t))
    ensures WeightOut(rows, k, ids, s) == Sum(k, From(rows, ids.Keys, s))
  {
    if k > 0 { WeightsAreSums(rows, k - 1, ids, s, t); }
  }

  /** In the loaded graph two files are connected if a row leads from one to the other; the weight is the sum of these
      rows, and the total out of a file is the sum of all rows to other files. */
  ghost predicate Loaded(g: Graph, files: set<string>, rows: seq<LinkRow>)
    reads g
  {
    && g.Valid() && g.idToNode.Keys == files
    && forall s, t :: s in files && t in files ==> LoadedPair(g, files, rows, s, t)
  }

  ghost predicate LoadedPair(g: Graph, files: set<string>, rows: seq<LinkRow>, s: string, t: string)
    requires g.Valid() && s in g.idToNode && t in g.idToNode
    reads g
  {
    && (g.HasEdge(g.idToNode[s], g.idToNode[t]) <==> s != t && exists row :: row in rows && row.src == s && row.tgt == t)
    && g.Weight(g.idToNode[s], g.idToNode[t]) == Sum(|rows|, Between(rows, s, t))
    && g.idToNode[s] < |g.adjW| && Total(g.adjW[g.idToNode[s]]) == Sum(|rows|, From(rows, files, s))
  }

  lemma HoldsMeans(g: Graph, files: set<string>, rows: seq<LinkRow>)
    requires Holds(g, rows, |rows|) && g.idToNode.Keys == files
    ensures Loaded(g, files, rows)
  {
    hide IndexOk, TransposeOk, Sum, Between, From, TotalWeight, WeightOut, Total;
    forall s, t | s in files && t in files
      ensures LoadedPair(g, files, rows, s, t)
    {
      var u, v := g.idToNode[s], g.idToNode[t];
      assert Represents(g, rows, |rows|, u, v) && TotalsRows(g, rows, |rows|, u);
      WeightsAreSums(rows, |rows|, g.idToNode, s, t);
      SomeRowIff(rows, s, t);
    }
  }

  lemma SomeRowIff(rows: seq<LinkRow>, s: string, t: string)
    ensures SomeRow(rows, |rows|, s, t) <==> s != t && exists row :: row in rows && row.src == s && row.tgt == t
  {
    if SomeRow(rows, |rows|, s, t) {
      var i :| 0 <= i < |rows| && Contributes(rows[i], s, t);
      assert rows[i] in rows;
    }
    if row :| s != t && row in rows && row.src == s && row.tgt == t {
      var i :| 0 <= i < |rows| && rows[i] == row;
      assert Contributes(rows[i], s, t);
    }
  }

  /** The graph holds the first k rows: one edge for each pair of different names that some row
      connects, weighted by the sum over those rows; and the total out of a node is the sum over all
      rows out of it. */
  ghost predicate Holds(g: Graph, rows: seq<LinkRow>, k: nat)
    requires k <= |rows|
    reads g
  {
    && g.Valid()
    && (forall u: nat, v: nat :: u < |g.nodeToId| && v < |g.nodeToId| ==> Represents(g, rows, k, u, v))
    && (forall u: nat :: u < |g.nodeToId| ==> TotalsRows(g, rows, k, u))
  }

  ghost predicate TotalsRows(g: Graph, rows: seq<LinkRow>, k: nat, u: nat)
    requires k <= |rows| && g.Valid() && u < |g.nodeToId|
    reads g
  {
    Total(g.adjW[u]) == WeightOut(rows, k, g.idToNode, g.nodeToId[u])
  }

  ghost predicate Represents(g: Graph, rows: seq<LinkRow>, k: nat, u: nat, v: nat)
    requires k <= |rows| && g.Valid() && u < |g.nodeToId| && v < |g.nodeToId|
    reads g
  {
    && (g.HasEdge(u, v) <==> SomeRow(rows, k, g.nodeToId[u], g.nodeToId[v]))
    && g.Weight(u, v) == TotalWeight(rows, k, g.nodeToId[u], g.nodeToId[v])
  }

  method AddNodes(g: Graph, ids: seq<string>)
    requires g.Valid() && g.nodeToId == [] && |ids| <= TWO32
    modifies g
    ensures g.Valid() && forall s :: s in g.idToNode <==> s in ids
    ensures forall u: nat, v: nat :: !g.HasEdge(u, v) && g.Weight(u, v) == 0.0
    ensures forall u: nat :: u < |g.adjW| ==> g.adjW[u] == []
  {
    hide IndexOk, TransposeOk, Bijection;
    assert forall s :: s !in g.idToNode by { NoNames(g); }
    NoEdges(g);
    for i := 0 to |ids|
      invariant g.Valid() && |g.nodeToId| <= i
      invariant forall s :: s in g.idToNode <==> s in ids[..i]
      invariant forall u: nat :: u < |g.adj| ==> g.adj[u] == []
    {
      var nid := g.GetOrAdd(ids[i]);
      assert ids[..i + 1] == ids[..i] + [ids[i]];
    }
    assert ids[..|ids|] == ids;
    NoEdges(g);
  }

  lemma NoNames(g: Graph)
    requires Bijection(g.idToNode, g.nodeToId) && g.nodeToId == []
    ensures forall s :: s !in g.idToNode
  {
  }

  lemma NoEdges(g: Graph)
    requires g.Valid() && forall u: nat :: u < |g.adj| ==> g.adj[u] == []
    ensures forall u: nat, v: nat :: !g.HasEdge(u, v) && g.Weight(u, v) == 0.0
  {
    hide TransposeOk, Bijection;
    forall u: nat, v: nat
      ensures !g.HasEdge(u, v) && g.Weight(u, v) == 0.0
    {
      if u < |g.adj| && v < |g.adj| {
        KeyOfEdge(g.adj, g.edgePos, u, v);
      }
    }
  }

  /** The loader's add_edge on names. */
  method AddLink(g: Graph, src: string, tgt: string, w: real) returns (ghost u: nat, ghost v: nat)
    requires g.Valid() && src in g.idToNode && tgt in g.idToNode
    modifies g
    ensures g.Valid() && g.nodeToId == old(g.nodeToId) && g.idToNode == old(g.idToNode)
    ensures u == g.idToNode[src] && v == g.idToNode[tgt]
    ensures if src == tgt then unchanged(g) else g.Added(u, v, w)
  {
    hide IndexOk, TransposeOk;
    u, v := g.idToNode[src], g.idToNode[tgt];
    if src == tgt { return; }
    var a := g.GetOrAdd(src);
    var b := g.GetOrAdd(tgt);
    g.AddEdge(a, b, w);
  }

  /** A pair of names that row k does not connect sees no difference. */
  lemma RowElsewhere(rows: seq<LinkRow>, k: nat, s: string, t: string)
    requires k < |rows| && !Contributes(rows[k], s, t)
    ensures SomeRow(rows, k + 1, s, t) <==> SomeRow(rows, k, s, t)
    ensures TotalWeight(rows, k + 1, s, t) == TotalWeight(rows, k, s, t)
  {
  }

  lemma RowHere(rows: seq<LinkRow>, k: nat, s: string, t: string)
    requires k < |rows| && Contributes(rows[k], s, t)
    ensures SomeRow(rows, k + 1, s, t)
    ensures TotalWeight(rows, k + 1, s, t) == TotalWeight(rows, k, s, t) + rows[k].weight
  {
  }

  /** The names of two nodes match a row exactly when the nodes are the ones the row names. */
  lemma NodesOfRow(idToNode: map<string, nat>, nodeToId: seq<string>, row: LinkRow, u: nat, v: nat)
    requires Bijection(idToNode, nodeToId) && u < |nodeToId| && v < |nodeToId|
    ensures nodeToId[u] in idToNode && nodeToId[v] in idToNode
    ensures Contributes(row, nodeToId[u], nodeToId[v]) <==>
            (row.src in idToNode && row.tgt in idToNode && row.src != row.tgt && idToNode[row.src] == u && idToNode[row.tgt] == v)
  {
  }

  /** A row leaves a node exactly when it is accepted and its source is that node. */
  lemma SourceOfRow(idToNode: map<string, nat>, nodeToId: seq<string>, row: LinkRow, u: nat)
    requires Bijection(idToNode, nodeToId) && u < |nodeToId|
    ensures Leaves(row, idToNode, nodeToId[u]) <==>
            (row.src in idToNode && row.tgt in idToNode && row.src != row.tgt && idToNode[row.src] == u)
  {
  }

  lemma WeightOutStep(rows: seq<LinkRow>, k: nat, ids: map<string, nat>, s: string)
    requires k < |rows|
    ensures WeightOut(rows, k + 1, ids, s) == WeightOut(rows, k, ids, s) + if Leaves(rows[k], ids, s) then rows[k].weight else 0.0
  {
  }

  method LoadRow(g: Graph, rows: seq<LinkRow>, k: nat, files: seq<string>)
    requires k < |rows| && Holds(g, rows, k) && forall s :: s in g.idToNode <==> s in files
    modifies g
    ensures Holds(g, rows, k + 1) && g.idToNode == old(g.idToNode)
  {
    hide IndexOk, TransposeOk, Bijection, SomeRow, TotalWeight, Contributes, WeightOut, Leaves, Total;
    var row := rows[k];
    ghost var names := g.nodeToId;
    ghost var u0, v0;
    if row.src in files && row.tgt in files {
      u0, v0 := AddLink(g, row.src, row.tgt, row.weight);
    }
    ghost var next: nat := k + 1;
    forall u: nat, v: nat | u < |names| && v < |names|
      ensures Represents(g, rows, next, u, v)
    {
      assert old(Represents(g, rows, k, u, v));
      NodesOfRow(g.idToNode, names, row, u, v);
      if Contributes(row, names[u], names[v]) {
        RowHere(rows, k, names[u], names[v]);
      } else {
        RowElsewhere(rows, k, names[u], names[v]);
      }
    }
    forall u: nat | u < |names|
      ensures TotalsRows(g, rows, next, u)
    {
      assert old(TotalsRows(g, rows, k, u));
      SourceOfRow(g.idToNode, names, row, u);
      WeightOutStep(rows, k, g.idToNode, names[u]);
    }
  }

  /** Loads the file graph: every file is a node; a row between two files of the project becomes
      an edge, rows that name anything else are dropped. */
  method LoadFileGraph(files: seq<string>, rows: seq<LinkRow>) returns (g: Graph)
    requires |files| <= TWO32
    ensures fresh(g) && Holds(g, rows, |rows|)
    ensures forall s :: s in g.idToNode <==> s in files
    ensures Loaded(g, (set s | s in files), rows)
  {
    hide IndexOk, TransposeOk, Bijection;
    g := new Graph();
    AddNodes(g, files);
    for k := 0 to |rows|
      invariant fresh(g) && Holds(g, rows, k)
      invariant forall s :: s in g.idToNode <==> s in files
    {
      LoadRow(g, rows, k, files);
    }
    HoldsMeans(g, (set s | s in files), rows);
  }
}
