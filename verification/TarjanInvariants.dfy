/** Tarjan's search for strongly connected components: the invariants of the search on
    snapshots of its state, and the search itself. */
module TarjanInvariants {
  import opened Digraph

  const UNVISITED := -1

  /** One snapshot of the search. `comp` is the index of the emitted component of a node,
      -1 while it has none. */
  datatype Env = Env(disc: seq<int>, low: seq<int>, onStack: seq<bool>,
                     stk: seq<nat>, sccs: seq<seq<nat>>, timer: int, comp: seq<int>)

  ghost predicate Shape(adj: Adjacency, e: Env) {
    && WellFormed(adj)
    && |e.disc| == |e.low| == |e.onStack| == |e.comp| == |adj|
    && 0 <= e.timer
    && forall x :: 0 <= x < |adj| ==> UNVISITED <= e.disc[x] < e.timer
  }

  /** The stack holds exactly the nodes flagged as on it, in order of discovery; a node has
      been discovered exactly when it is on the stack or in an emitted component. */
  ghost predicate StackOk(adj: Adjacency, e: Env)
    requires Shape(adj, e)
  {
    && (forall i :: 0 <= i < |e.stk| ==> e.stk[i] < |adj| && e.onStack[e.stk[i]])
    && (forall i, j :: 0 <= i < j < |e.stk| ==> e.disc[e.stk[i]] < e.disc[e.stk[j]])
    && (forall x :: 0 <= x < |adj| && e.onStack[x] ==> x in e.stk)
    && (forall x :: 0 <= x < |adj| ==> (e.disc[x] >= 0 <==> e.onStack[x] || e.comp[x] >= 0))
    && (forall x :: 0 <= x < |adj| ==> !(e.onStack[x] && e.comp[x] >= 0))
    && (forall x, y :: 0 <= x < |adj| && 0 <= y < |adj| && e.disc[x] == e.disc[y] >= 0 ==> x == y)
  }

  /** The emitted components: each is strongly connected, and every edge out of one leads
      into itself or into one emitted earlier. */
  ghost predicate SccsOk(adj: Adjacency, e: Env)
    requires Shape(adj, e)
  {
    && (forall x :: 0 <= x < |adj| ==> -1 <= e.comp[x] < |e.sccs|)
    && (forall i, x: nat :: 0 <= i < |e.sccs| ==> (x in e.sccs[i] <==> x < |adj| && e.comp[x] == i))
    && (forall i, a :: 0 <= i < |e.sccs| && 0 <= a < |e.sccs[i]| ==> e.sccs[i][a] < |adj|)
    && (forall i :: 0 <= i < |e.sccs| ==> |e.sccs[i]| > 0)
    && (forall i, a, b :: 0 <= i < |e.sccs| && 0 <= a < b < |e.sccs[i]| ==> e.sccs[i][a] != e.sccs[i][b])
    && (forall x, y :: 0 <= x < |adj| && 0 <= y < |adj| && e.comp[x] == e.comp[y] >= 0 ==> Reach(adj, x, y))
    && (forall x: nat, y: nat :: x < |adj| && y < |adj| && e.comp[x] >= 0 && Edge(adj, x, y) ==>
          0 <= e.comp[y] <= e.comp[x])
  }

  /** Every discovered node off the recursion path has only discovered successors. */
  ghost predicate DoneNodesDone(adj: Adjacency, e: Env, gray: set<nat>)
    requires Shape(adj, e)
  {
    forall x: nat, y: nat :: x < |adj| && y < |adj| && e.disc[x] >= 0 && x !in gray && Edge(adj, x, y) ==> e.disc[y] >= 0
  }

  /** On the stack, older reaches younger. */
  ghost predicate OlderReachesYounger(adj: Adjacency, e: Env)
    requires Shape(adj, e)
  {
    forall x, y :: 0 <= x < |adj| && 0 <= y < |adj| && e.onStack[x] && e.onStack[y] && e.disc[x] <= e.disc[y] ==>
      Reach(adj, x, y)
  }

  /** The nodes on the recursion path (`gray`) are on the stack, and every node on the stack
      reaches a gray one that is no younger. */
  ghost predicate PathOk(adj: Adjacency, e: Env, gray: set<nat>)
    requires Shape(adj, e)
  {
    && (forall x :: x in gray ==> x < |adj| && e.onStack[x])
    && DoneNodesDone(adj, e, gray)
    && OlderReachesYounger(adj, e)
    && (forall y :: 0 <= y < |adj| && e.onStack[y] ==> ReachesGray(adj, e, gray, y))
  }

  ghost predicate ReachesGray(adj: Adjacency, e: Env, gray: set<nat>, y: nat)
    requires Shape(adj, e) && y < |adj|
  {
    exists x :: x in gray && x < |adj| && e.disc[x] <= e.disc[y] && Reach(adj, y, x)
  }

  ghost predicate Inv(adj: Adjacency, e: Env, gray: set<nat>) {
    Shape(adj, e) && StackOk(adj, e) && SccsOk(adj, e) && PathOk(adj, e, gray)
  }

  /** What the search never does to a node once discovered, and never undoes. */
  ghost predicate Extends(e: Env, f: Env) {
    && |e.disc| == |e.low| == |e.onStack| == |e.comp|
    && |f.disc| == |f.low| == |f.onStack| == |f.comp| == |e.disc|
    && e.timer <= f.timer
    && (forall x :: 0 <= x < |e.disc| && e.disc[x] >= 0 ==>
          f.disc[x] == e.disc[x] && f.low[x] == e.low[x] && f.onStack[x] == e.onStack[x] && f.comp[x] == e.comp[x])
    && (forall x :: 0 <= x < |e.disc| && e.disc[x] < 0 && f.disc[x] >= 0 ==> f.disc[x] >= e.timer)
    && e.sccs <= f.sccs
  }

  ghost predicate LowReal(adj: Adjacency, e: Env, u: nat)
    requires Shape(adj, e) && u < |adj|
  {
    exists w :: 0 <= w < |adj| && e.onStack[w] && e.disc[w] == e.low[u] && Reach(adj, u, w)
  }

  /** No edge from a node discovered since `e0` (other than `skip`) leads to a node that was on the
      stack at `e0` and is older than low[u]. */
  ghost predicate LowBound(adj: Adjacency, e0: Env, e: Env, u: nat, from: int)
    requires Shape(adj, e0) && Shape(adj, e) && u < |adj|
  {
    forall y: nat, v: nat :: y < |adj| && v < |adj| && e.onStack[y] && e.disc[y] >= from && Edge(adj, y, v) && e0.onStack[v] ==>
      e.low[u] <= e.disc[v]
  }

  /** What dfs(u) has done when it returns. */
  ghost predicate DfsPost(adj: Adjacency, e0: Env, e: Env, u: nat)
    requires Shape(adj, e0) && Shape(adj, e) && u < |adj|
  {
    && e.disc[u] == e0.timer
    && e.low[u] <= e.disc[u]
    && (e.onStack[u] ==> LowReal(adj, e, u))
    && (!e.onStack[u] ==> e.low[u] == e.disc[u])
    && LowBound(adj, e0, e, u, e0.timer)
  }

  /** The loop of dfs(u) after its first i successors; e0 is the state dfs(u) was entered with. */
  ghost predicate LoopInv(adj: Adjacency, e0: Env, e: Env, u: nat, i: nat, gray: set<nat>) {
    && u < |adj| && i <= |adj[u]|
    && Inv(adj, e0, gray) && e0.disc[u] < 0
    && (forall x :: x in gray ==> Reach(adj, x, u))
    && Inv(adj, e, gray + {u})
    && Extends(e0, e)
    && e.disc[u] == e0.timer && e.onStack[u]
    && e.low[u] <= e.disc[u]
    && LowReal(adj, e, u)
    && LowBound(adj, e0, e, u, e0.timer + 1)
    && SuccessorsDone(adj, e0, e, u, i)
  }

  ghost predicate SuccessorsDone(adj: Adjacency, e0: Env, e: Env, u: nat, i: nat)
    requires Shape(adj, e0) && Shape(adj, e) && u < |adj| && i <= |adj[u]|
  {
    && (forall j :: 0 <= j < i ==> e.disc[adj[u][j]] >= 0)
    && (forall j :: 0 <= j < i && e0.onStack[adj[u][j]] ==> e.low[u] <= e.disc[adj[u][j]])
  }

  function Push(e: Env, u: nat): Env
    requires u < |e.disc| && u < |e.low| && u < |e.onStack|
  {
    e.(disc := e.disc[u := e.timer], low := e.low[u := e.timer], timer := e.timer + 1,
       stk := e.stk + [u], onStack := e.onStack[u := true])
  }

  lemma PushStackOk(adj: Adjacency, e: Env, u: nat)
    requires Shape(adj, e) && StackOk(adj, e) && u < |adj| && e.disc[u] < 0
    ensures Shape(adj, Push(e, u)) && StackOk(adj, Push(e, u))
  {
    var f := Push(e, u);
    PushOnStack(adj, e, u);
    forall i, j | 0 <= i < j < |f.stk|
      ensures f.disc[f.stk[i]] < f.disc[f.stk[j]]
    {
      assert f.stk[i] == e.stk[i];
    }
  }

  lemma PushOnStack(adj: Adjacency, e: Env, u: nat)
    requires Shape(adj, e) && StackOk(adj, e) && u < |adj| && e.disc[u] < 0
    ensures Shape(adj, Push(e, u)) && forall x: nat :: x < |adj| && Push(e, u).onStack[x] ==> x in Push(e, u).stk
  {
    var f := Push(e, u);
    assert f.stk[|e.stk|] == u;
    forall x: nat | x < |adj| && f.onStack[x]
      ensures x in f.stk
    {
      if x != u { assert x in e.stk; }
    }
  }

  lemma PushSccsOk(adj: Adjacency, e: Env, u: nat)
    requires Shape(adj, e) && SccsOk(adj, e) && u < |adj| && e.disc[u] < 0
    ensures Shape(adj, Push(e, u)) && SccsOk(adj, Push(e, u))
  {
    hide Reach;
  }

  lemma PushReachesGray(adj: Adjacency, e: Env, u: nat, gray: set<nat>, y: nat)
    requires Shape(adj, e) && u < |adj| && y < |adj| && Shape(adj, Push(e, u))
    requires e.disc[u] < 0 && (forall x :: x in gray ==> x < |adj| && e.disc[x] >= 0)
    requires y == u || ReachesGray(adj, e, gray, y)
    ensures ReachesGray(adj, Push(e, u), gray + {u}, y)
  {
    hide Reach;
    if y == u {
      ReachRefl(adj, u);
      assert u in gray + {u};
    } else {
      var x :| x in gray && x < |adj| && e.disc[x] <= e.disc[y] && Reach(adj, y, x);
      assert x in gray + {u};
    }
  }

  lemma PushOlderReaches(adj: Adjacency, e: Env, u: nat, gray: set<nat>)
    requires Inv(adj, e, gray) && u < |adj| && e.disc[u] < 0
    requires forall x :: x in gray ==> Reach(adj, x, u)
    requires Shape(adj, Push(e, u))
    ensures OlderReachesYounger(adj, Push(e, u))
  {
    hide Reach, ReachesGray, SccsOk, DoneNodesDone, StackOk;
    var f := Push(e, u);
    ReachRefl(adj, u);
    forall x, y | 0 <= x < |adj| && 0 <= y < |adj| && f.onStack[x] && f.onStack[y] && f.disc[x] <= f.disc[y]
      ensures Reach(adj, x, y)
    {
      if x != u && y == u {
        StackReachesNew(adj, e, u, gray, x);
      }
    }
  }

  lemma StackReachesNew(adj: Adjacency, e: Env, u: nat, gray: set<nat>, x: nat)
    requires Shape(adj, e) && x < |adj| && ReachesGray(adj, e, gray, x)
    requires forall z :: z in gray ==> Reach(adj, z, u)
    ensures Reach(adj, x, u)
  {
    hide Reach;
    var z :| z in gray && z < |adj| && e.disc[z] <= e.disc[x] && Reach(adj, x, z);
    ReachTrans(adj, x, z, u);
  }

  lemma PushPathOk(adj: Adjacency, e: Env, u: nat, gray: set<nat>)
    requires Inv(adj, e, gray) && u < |adj| && e.disc[u] < 0
    requires forall x :: x in gray ==> Reach(adj, x, u)
    requires Shape(adj, Push(e, u))
    ensures PathOk(adj, Push(e, u), gray + {u})
  {
    hide Reach, ReachesGray, OlderReachesYounger, SccsOk;
    var f := Push(e, u);
    PushOlderReaches(adj, e, u, gray);
    forall y | 0 <= y < |adj| && f.onStack[y]
      ensures ReachesGray(adj, f, gray + {u}, y)
    {
      PushReachesGray(adj, e, u, gray, y);
    }
  }

  lemma PushOk(adj: Adjacency, e: Env, u: nat, gray: set<nat>)
    requires Inv(adj, e, gray) && u < |adj| && e.disc[u] < 0
    requires forall x :: x in gray ==> Reach(adj, x, u)
    ensures LoopInv(adj, e, Push(e, u), u, 0, gray)
  {
    hide Reach, SccsOk, PathOk;
    var f := Push(e, u);
    PushStackOk(adj, e, u);
    PushSccsOk(adj, e, u);
    PushPathOk(adj, e, u, gray);
    ReachRefl(adj, u);
    assert LowReal(adj, f, u);
  }

  function SetLow(e: Env, u: nat, w: int): Env
    requires u < |e.low|
  {
    e.(low := e.low[u := if w < e.low[u] then w else e.low[u]])
  }

  /** Changing low touches no invariant. */
  lemma SetLowKeepsInv(adj: Adjacency, e: Env, u: nat, w: int, gray: set<nat>)
    requires Inv(adj, e, gray) && u < |adj|
    ensures Inv(adj, SetLow(e, u, w), gray)
  {
    hide Reach, ReachesGray;
    var f := SetLow(e, u, w);
    forall y | 0 <= y < |adj| && f.onStack[y]
      ensures ReachesGray(adj, f, gray, y)
    {
      SameReachesGray(adj, e, f, gray, y);
    }
  }

  lemma SameReachesGray(adj: Adjacency, e: Env, f: Env, gray: set<nat>, y: nat)
    requires Shape(adj, e) && Shape(adj, f) && e.disc == f.disc && y < |adj|
    requires ReachesGray(adj, e, gray, y)
    ensures ReachesGray(adj, f, gray, y)
  {
    hide Reach;
  }

  /** The successor is on the stack: a back edge. */
  lemma BackEdgeStep(adj: Adjacency, e0: Env, e: Env, u: nat, i: nat, gray: set<nat>)
    requires LoopInv(adj, e0, e, u, i, gray) && i < |adj[u]|
    requires e.disc[adj[u][i]] >= 0 && e.onStack[adj[u][i]]
    ensures LoopInv(adj, e0, SetLow(e, u, e.disc[adj[u][i]]), u, i + 1, gray)
  {
    hide Reach, SccsOk, PathOk, StackOk;
    var v := adj[u][i];
    var f := SetLow(e, u, e.disc[v]);
    SetLowKeepsInv(adj, e, u, e.disc[v], gray + {u});
    assert LowReal(adj, f, u) by {
      if f.low[u] == e.disc[v] {
        assert Edge(adj, u, v);
        ReachEdge(adj, u, v);
        assert f.onStack[v];
      } else {
        assert LowReal(adj, e, u);
      }
    }
    assert Extends(e0, f);
    assert LowBound(adj, e0, f, u, e0.timer + 1);
  }

  /** The successor is in an emitted component. */
  lemma CrossStep(adj: Adjacency, e0: Env, e: Env, u: nat, i: nat, gray: set<nat>)
    requires LoopInv(adj, e0, e, u, i, gray) && i < |adj[u]|
    requires e.disc[adj[u][i]] >= 0 && !e.onStack[adj[u][i]]
    ensures LoopInv(adj, e0, e, u, i + 1, gray)
  {
    hide Reach, SccsOk, PathOk, LowBound, LowReal;
    var v := adj[u][i];
    assert !e0.onStack[v];
  }

  /** The successor v was new: e1 is the state before dfs(v), e2 the state after it. */
  lemma ChildReady(adj: Adjacency, e0: Env, e1: Env, u: nat, i: nat, gray: set<nat>)
    requires LoopInv(adj, e0, e1, u, i, gray) && i < |adj[u]|
    ensures adj[u][i] < |adj| && forall x :: x in gray + {u} ==> Reach(adj, x, adj[u][i])
  {
    hide Reach, StackOk, SccsOk, PathOk, LowReal, LowBound, SuccessorsDone, Extends;
    var v := adj[u][i];
    assert Edge(adj, u, v);
    ReachEdge(adj, u, v);
    forall x | x in gray
      ensures Reach(adj, x, v)
    {
      ReachTrans(adj, x, u, v);
    }
  }

  lemma ExtendsTrans(e0: Env, e1: Env, e2: Env)
    requires Extends(e0, e1) && Extends(e1, e2)
    ensures Extends(e0, e2)
  {
  }

  lemma ChildLowReal(adj: Adjacency, e0: Env, e1: Env, e2: Env, u: nat, i: nat, gray: set<nat>)
    requires LoopInv(adj, e0, e1, u, i, gray) && i < |adj[u]|
    requires Inv(adj, e2, gray + {u}) && Extends(e1, e2) && DfsPost(adj, e1, e2, adj[u][i])
    ensures LowReal(adj, SetLow(e2, u, e2.low[adj[u][i]]), u)
  {
    hide Reach;
    var v := adj[u][i];
    var f := SetLow(e2, u, e2.low[v]);
    if e2.low[v] < e2.low[u] {
      assert e2.onStack[v];
      var w :| 0 <= w < |adj| && e2.onStack[w] && e2.disc[w] == e2.low[v] && Reach(adj, v, w);
      assert Edge(adj, u, v);
      ReachEdge(adj, u, v);
      ReachTrans(adj, u, v, w);
      assert f.onStack[w] && f.disc[w] == f.low[u];
    } else {
      var w :| 0 <= w < |adj| && e1.onStack[w] && e1.disc[w] == e1.low[u] && Reach(adj, u, w);
      assert e1.disc[w] >= 0;
      assert f.onStack[w] && f.disc[w] == f.low[u];
    }
  }

  lemma ChildLowBound(adj: Adjacency, e0: Env, e1: Env, e2: Env, u: nat, i: nat, gray: set<nat>)
    requires LoopInv(adj, e0, e1, u, i, gray) && i < |adj[u]|
    requires Inv(adj, e2, gray + {u}) && Extends(e1, e2) && DfsPost(adj, e1, e2, adj[u][i])
    ensures LowBound(adj, e0, SetLow(e2, u, e2.low[adj[u][i]]), u, e0.timer + 1)
  {
    hide Reach;
    var z := adj[u][i];
    var f := SetLow(e2, u, e2.low[z]);
    forall y: nat, v: nat | y < |adj| && v < |adj| && f.onStack[y] && f.disc[y] >= e0.timer + 1 && Edge(adj, y, v) && e0.onStack[v]
      ensures f.low[u] <= f.disc[v]
    {
      assert e0.disc[v] >= 0;
      assert e1.onStack[v];
      assert e1.disc[v] >= 0;
      if e1.disc[y] >= 0 {
        assert e1.onStack[y];
        assert e1.low[u] <= e1.disc[v];
      } else {
        assert e2.disc[y] >= e1.timer;
        assert e2.low[z] <= e2.disc[v];
      }
    }
  }

  lemma ChildSuccessorsDone(adj: Adjacency, e0: Env, e1: Env, e2: Env, u: nat, i: nat, gray: set<nat>)
    requires LoopInv(adj, e0, e1, u, i, gray) && i < |adj[u]|
    requires Inv(adj, e2, gray + {u}) && Extends(e1, e2) && DfsPost(adj, e1, e2, adj[u][i])
    ensures SuccessorsDone(adj, e0, SetLow(e2, u, e2.low[adj[u][i]]), u, i + 1)
  {
    hide Reach, SccsOk, PathOk, LowReal, LowBound;
    var v := adj[u][i];
    var f := SetLow(e2, u, e2.low[v]);
    assert !e0.onStack[v];
    forall j | 0 <= j < i + 1
      ensures f.disc[adj[u][j]] >= 0
    {
      if j < i { assert e1.disc[adj[u][j]] >= 0; }
    }
    forall j | 0 <= j < i + 1 && e0.onStack[adj[u][j]]
      ensures f.low[u] <= f.disc[adj[u][j]]
    {
      assert j < i;
      assert e1.low[u] <= e1.disc[adj[u][j]];
    }
  }

  lemma ChildStep(adj: Adjacency, e0: Env, e1: Env, e2: Env, u: nat, i: nat, gray: set<nat>)
    requires LoopInv(adj, e0, e1, u, i, gray) && i < |adj[u]|
    requires Inv(adj, e2, gray + {u}) && Extends(e1, e2) && DfsPost(adj, e1, e2, adj[u][i])
    ensures LoopInv(adj, e0, SetLow(e2, u, e2.low[adj[u][i]]), u, i + 1, gray)
  {
    hide Reach, StackOk, SccsOk, PathOk, LowReal, LowBound, SuccessorsDone;
    var v := adj[u][i];
    var f := SetLow(e2, u, e2.low[v]);
    SetLowKeepsInv(adj, e2, u, e2.low[v], gray + {u});
    ExtendsTrans(e0, e1, e2);
    ChildLowReal(adj, e0, e1, e2, u, i, gray);
    ChildLowBound(adj, e0, e1, e2, u, i, gray);
    ChildSuccessorsDone(adj, e0, e1, e2, u, i, gray);
    assert Extends(e0, f);
  }

  /** dfs(u) has looked at every successor of u. */
  ghost predicate AllDone(adj: Adjacency, e0: Env, e: Env, u: nat, gray: set<nat>) {
    u < |adj| && LoopInv(adj, e0, e, u, |adj[u]|, gray)
  }

  /** When u reaches the older w, whatever reached the gray u reaches a gray node without it. */
  lemma ReachesGrayWithout(adj: Adjacency, e: Env, u: nat, w: nat, gray: set<nat>, y: nat)
    requires Shape(adj, e) && u < |adj| && w < |adj| && y < |adj|
    requires ReachesGray(adj, e, gray + {u}, w) && e.disc[w] < e.disc[u] && Reach(adj, u, w)
    requires ReachesGray(adj, e, gray + {u}, y)
    ensures ReachesGray(adj, e, gray, y)
  {
    hide Reach;
    var x :| x in gray + {u} && x < |adj| && e.disc[x] <= e.disc[w] && Reach(adj, w, x);
    assert x in gray;
    var z :| z in gray + {u} && z < |adj| && e.disc[z] <= e.disc[y] && Reach(adj, y, z);
    if z == u {
      ReachTrans(adj, y, u, w);
      ReachTrans(adj, y, w, x);
    }
  }

  /** u can leave the recursion path but stay on the stack, because it reaches an older node. */
  lemma UngrayPathOk(adj: Adjacency, e: Env, u: nat, gray: set<nat>)
    requires Shape(adj, e) && PathOk(adj, e, gray + {u}) && u < |adj| && u !in gray
    requires e.low[u] < e.disc[u] && LowReal(adj, e, u)
    requires forall v: nat :: Edge(adj, u, v) ==> v < |adj| && e.disc[v] >= 0
    ensures PathOk(adj, e, gray)
  {
    hide Reach, OlderReachesYounger, ReachesGray;
    var w :| 0 <= w < |adj| && e.onStack[w] && e.disc[w] == e.low[u] && Reach(adj, u, w);
    forall y | 0 <= y < |adj| && e.onStack[y]
      ensures ReachesGray(adj, e, gray, y)
    {
      ReachesGrayWithout(adj, e, u, w, gray, y);
    }
    assert forall x :: x in gray ==> x in gray + {u};
  }

  /** The bound that low[u] gives covers u's own edges once they have all been looked at. */
  lemma FullLowBound(adj: Adjacency, e0: Env, e: Env, u: nat, gray: set<nat>)
    requires AllDone(adj, e0, e, u, gray)
    ensures LowBound(adj, e0, e, u, e0.timer)
  {
    hide Reach, SccsOk, PathOk, LowReal, Extends, SuccessorsDone;
    forall y: nat, v: nat | y < |adj| && v < |adj| && e.onStack[y] && e.disc[y] >= e0.timer && Edge(adj, y, v) && e0.onStack[v]
      ensures e.low[u] <= e.disc[v]
    {
      if y == u {
        SuccessorBound(adj, e0, e, u, gray, v);
      } else {
        DiscInjective(adj, e, u, y);
      }
    }
  }

  /** All successors of u are done and low[u] is below disc[u]: u is finished but stays on the stack. */
  lemma FinishBelow(adj: Adjacency, e0: Env, e: Env, u: nat, gray: set<nat>)
    requires AllDone(adj, e0, e, u, gray) && e.low[u] < e.disc[u]
    ensures Inv(adj, e, gray) && DfsPost(adj, e0, e, u) && Extends(e0, e)
  {
    hide Reach, StackOk, SccsOk, PathOk, LowReal, LowBound, SuccessorsDone, Extends;
    GrayBelow(adj, e0, e, u, |adj[u]|, gray);
    SuccessorsOf(adj, e0, e, u, gray);
    UngrayPathOk(adj, e, u, gray);
    FullLowBound(adj, e0, e, u, gray);
  }

  lemma DiscInjective(adj: Adjacency, e: Env, x: nat, y: nat)
    requires Shape(adj, e) && StackOk(adj, e) && x < |adj| && y < |adj| && e.disc[x] >= 0
    ensures e.disc[x] == e.disc[y] ==> x == y
  {
  }

  lemma SuccessorsOf(adj: Adjacency, e0: Env, e: Env, u: nat, gray: set<nat>)
    requires AllDone(adj, e0, e, u, gray)
    ensures forall v: nat :: Edge(adj, u, v) ==> v < |adj| && e.disc[v] >= 0
  {
    hide Reach, StackOk, SccsOk, PathOk, LowReal, LowBound;
  }

  lemma SuccessorBound(adj: Adjacency, e0: Env, e: Env, u: nat, gray: set<nat>, v: nat)
    requires AllDone(adj, e0, e, u, gray) && Edge(adj, u, v) && v < |adj| && e0.onStack[v]
    ensures e.low[u] <= e.disc[v]
  {
    hide Reach, StackOk, SccsOk, PathOk, LowReal, LowBound;
  }

  /** The state after the nodes from u upwards have been popped as one component. */
  ghost predicate Popped(adj: Adjacency, e: Env, f: Env, u: nat)
    requires Shape(adj, e) && StackOk(adj, e) && u < |adj|
  {
    && f.disc == e.disc && f.low == e.low && f.timer == e.timer
    && |f.onStack| == |f.comp| == |adj|
    && (forall x :: 0 <= x < |adj| ==> f.onStack[x] == (e.onStack[x] && e.disc[x] < e.disc[u]))
    && (forall x :: 0 <= x < |adj| ==>
          f.comp[x] == if e.onStack[x] && e.disc[x] >= e.disc[u] then |e.sccs| else e.comp[x])
    && f.stk <= e.stk
    && (forall i :: 0 <= i < |f.stk| ==> e.disc[f.stk[i]] < e.disc[u])
    && (forall i :: |f.stk| <= i < |e.stk| ==> e.disc[e.stk[i]] >= e.disc[u])
    && |f.sccs| == |e.sccs| + 1 && f.sccs[..|e.sccs|] == e.sccs
    && var scc := f.sccs[|e.sccs|];
       && |scc| > 0 && (forall a :: 0 <= a < |scc| ==> scc[a] < |adj|)
       && (forall a, b :: 0 <= a < b < |scc| ==> scc[a] != scc[b])
       && (forall x: nat :: x in scc <==> x < |adj| && e.onStack[x] && e.disc[x] >= e.disc[u])
  }

  ghost function Undiscovered(disc: seq<int>): set<nat> {
    set x | 0 <= x < |disc| && disc[x] < 0
  }

  /** The facts about sizes and about u that the loop of dfs(u) needs. */
  lemma LoopFacts(adj: Adjacency, e0: Env, e: Env, u: nat, i: nat, gray: set<nat>)
    requires LoopInv(adj, e0, e, u, i, gray)
    ensures Inv(adj, e0, gray) && Inv(adj, e, gray + {u}) && Shape(adj, e0) && Shape(adj, e) && StackOk(adj, e)
    ensures u < |adj| && e.onStack[u] && e.low[u] <= e.disc[u]
    ensures i < |adj[u]| ==> adj[u][i] < |adj|
    ensures Undiscovered(e.disc) < Undiscovered(e0.disc)
  {
    hide Reach, SccsOk, PathOk, LowReal, LowBound, SuccessorsDone, StackOk;
    assert u in Undiscovered(e0.disc) && u !in Undiscovered(e.disc);
  }

  lemma InvShape(adj: Adjacency, e: Env, gray: set<nat>)
    requires Inv(adj, e, gray)
    ensures Shape(adj, e)
  {
    hide Reach, SccsOk, PathOk, StackOk;
  }

  lemma DfsKeepsDiscovered(adj: Adjacency, e: Env, f: Env, u: nat)
    requires Inv(adj, e, {}) && Inv(adj, f, {}) && Extends(e, f) && u < |adj|
    requires Shape(adj, e) && Shape(adj, f) && DfsPost(adj, e, f, u)
    ensures |e.disc| == |f.disc| == |adj| && f.disc[u] >= 0
    ensures forall x :: 0 <= x < |adj| && e.disc[x] >= 0 ==> f.disc[x] >= 0
  {
    hide Reach, SccsOk, PathOk, StackOk, LowReal, LowBound;
  }

  lemma OnStackInStk(adj: Adjacency, e: Env, u: nat)
    requires Shape(adj, e) && StackOk(adj, e) && u < |adj| && e.onStack[u]
    ensures u in e.stk
  {
  }

  /** Halfway through popping: the nodes above `stk` have been moved to `scc`, youngest first. */
  ghost predicate Popping(adj: Adjacency, e: Env, stk: seq<nat>, onStack: seq<bool>, scc: seq<nat>)
    requires Shape(adj, e)
  {
    && |stk| <= |e.stk| && stk == e.stk[..|stk|]
    && |onStack| == |adj| && (forall x: nat :: x < |adj| ==> (onStack[x] <==> x in stk))
    && |scc| == |e.stk| - |stk| && (forall a :: 0 <= a < |scc| ==> scc[a] == e.stk[|e.stk| - 1 - a])
  }

  lemma PoppingStart(adj: Adjacency, e: Env)
    requires Shape(adj, e) && StackOk(adj, e)
    ensures Popping(adj, e, e.stk, e.onStack, [])
  {
  }

  lemma TopIsOnce(adj: Adjacency, e: Env, n: nat)
    requires Shape(adj, e) && StackOk(adj, e) && n < |e.stk|
    ensures e.stk[n] < |adj| && e.stk[n] !in e.stk[..n]
  {
    forall i | 0 <= i < n
      ensures e.stk[i] != e.stk[n]
    {
      assert e.disc[e.stk[i]] < e.disc[e.stk[n]];
    }
  }

  lemma PoppingStep(adj: Adjacency, e: Env, stk: seq<nat>, onStack: seq<bool>, scc: seq<nat>, u: nat)
    requires Shape(adj, e) && StackOk(adj, e) && Popping(adj, e, stk, onStack, scc) && u in stk
    ensures var w := stk[|stk| - 1];
      && w < |adj| == |onStack|
      && Popping(adj, e, stk[..|stk| - 1], onStack[w := false], scc + [w])
      && (w != u ==> u in stk[..|stk| - 1])
  {
    hide StackOk, Shape;
    var n := |stk| - 1;
    var w := stk[n];
    TopIsOnce(adj, e, n);
    var rest := stk[..n];
    assert rest == e.stk[..n];
    assert forall x :: x in stk <==> x in rest || x == w by {
      assert stk == rest + [w];
    }
  }

  /** Once u has been popped, `scc` holds exactly the nodes on the old stack that are no older than u. */
  lemma PoppingDone(adj: Adjacency, e: Env, stk: seq<nat>, onStack: seq<bool>, scc: seq<nat>, u: nat, x: nat)
    requires Shape(adj, e) && StackOk(adj, e) && Popping(adj, e, stk, onStack, scc) && u < |adj|
    requires |scc| > 0 && scc[|scc| - 1] == u && x < |adj|
    ensures onStack[x] == (e.onStack[x] && e.disc[x] < e.disc[u])
    ensures x in scc <==> e.onStack[x] && e.disc[x] >= e.disc[u]
  {
    var k := |stk|;
    assert e.stk[k] == u;
    if e.onStack[x] {
      var i :| 0 <= i < |e.stk| && e.stk[i] == x;
      if i < k {
        assert stk[i] == x;
      } else {
        assert scc[|e.stk| - 1 - i] == x;
      }
    }
    if x in stk {
      var i :| 0 <= i < |stk| && stk[i] == x;
      assert e.stk[i] == x;
    }
  }

  lemma PoppingPopped(adj: Adjacency, e: Env, f: Env, scc: seq<nat>, u: nat)
    requires Shape(adj, e) && StackOk(adj, e) && Popping(adj, e, f.stk, f.onStack, scc) && u < |adj|
    requires |scc| > 0 && scc[|scc| - 1] == u
    requires f.disc == e.disc && f.low == e.low && f.timer == e.timer && f.sccs == e.sccs + [scc]
    requires |f.comp| == |adj|
    requires forall x :: 0 <= x < |adj| ==>
               f.comp[x] == if e.onStack[x] && e.disc[x] >= e.disc[u] then |e.sccs| else e.comp[x]
    ensures Popped(adj, e, f, u)
  {
    assert e.stk[|f.stk|] == u;
    forall x: nat | x < |adj|
      ensures f.onStack[x] == (e.onStack[x] && e.disc[x] < e.disc[u])
      ensures x in scc <==> e.onStack[x] && e.disc[x] >= e.disc[u]
    {
      PoppingDone(adj, e, f.stk, f.onStack, scc, u, x);
    }
    forall x: nat | x in scc
      ensures x < |adj|
    {
      var a :| 0 <= a < |scc| && scc[a] == x;
    }
    forall a, b | 0 <= a < b < |scc|
      ensures scc[a] != scc[b]
    {
      assert e.disc[e.stk[|e.stk| - 1 - b]] < e.disc[e.stk[|e.stk| - 1 - a]];
    }
  }

  /** Every node popped with u reaches u and is reached from it. */
  lemma PoppedMeetsRoot(adj: Adjacency, e: Env, u: nat, gray: set<nat>, y: nat)
    requires Shape(adj, e) && PathOk(adj, e, gray + {u}) && u < |adj|
    requires forall x :: x in gray ==> Reach(adj, x, u)
    requires y < |adj| && e.onStack[y] && e.disc[y] >= e.disc[u]
    ensures Reach(adj, y, u) && Reach(adj, u, y)
  {
    hide Reach;
    assert u in gray + {u};
    assert ReachesGray(adj, e, gray + {u}, y);
    var x :| x in gray + {u} && x < |adj| && e.disc[x] <= e.disc[y] && Reach(adj, y, x);
    if x != u {
      ReachTrans(adj, y, x, u);
    }
  }

  /** No edge leads from a popped node to one that stays on the stack. */
  lemma PoppedIsClosed(adj: Adjacency, e0: Env, e: Env, u: nat, gray: set<nat>, y: nat, v: nat)
    requires AllDone(adj, e0, e, u, gray) && e.low[u] == e.disc[u]
    requires y < |adj| && v < |adj| && e.onStack[y] && e.disc[y] >= e.disc[u] && Edge(adj, y, v)
    ensures e.disc[v] >= 0 && (e.onStack[v] ==> e.disc[v] >= e.disc[u])
  {
    hide Reach, SccsOk, LowReal, SuccessorsDone, StackOk, OlderReachesYounger, ReachesGray, LowBound;
    GrayBelow(adj, e0, e, u, |adj[u]|, gray);
    SuccessorsOf(adj, e0, e, u, gray);
    FullLowBound(adj, e0, e, u, gray);
    if e.onStack[v] && e.disc[v] < e.disc[u] {
      LowBoundAt(adj, e0, e, u, y, v);
    }
  }

  lemma LowBoundAt(adj: Adjacency, e0: Env, e: Env, u: nat, y: nat, v: nat)
    requires Shape(adj, e0) && Shape(adj, e) && Extends(e0, e) && u < |adj| && LowBound(adj, e0, e, u, e0.timer)
    requires y < |adj| && v < |adj| && e.onStack[y] && e.disc[y] >= e0.timer && Edge(adj, y, v)
    requires e.onStack[v] && 0 <= e.disc[v] < e0.timer
    ensures e.low[u] <= e.disc[v]
  {
  }

  lemma GrayBelow(adj: Adjacency, e0: Env, e: Env, u: nat, i: nat, gray: set<nat>)
    requires LoopInv(adj, e0, e, u, i, gray)
    ensures u !in gray && forall x :: x in gray ==> x < |adj| && e.disc[x] < e.disc[u]
  {
    hide Reach, SccsOk, LowReal, LowBound, SuccessorsDone;
  }

  /** The list of components still lists what `comp` says. */
  lemma PopMembers(adj: Adjacency, e: Env, f: Env, u: nat, i: nat)
    requires Shape(adj, e) && StackOk(adj, e) && SccsOk(adj, e) && u < |adj|
    requires Popped(adj, e, f, u) && i < |f.sccs|
    ensures |f.sccs[i]| > 0 && forall a :: 0 <= a < |f.sccs[i]| ==> f.sccs[i][a] < |adj|
    ensures forall x: nat :: x in f.sccs[i] <==> x < |adj| && f.comp[x] == i
    ensures forall a, b :: 0 <= a < b < |f.sccs[i]| ==> f.sccs[i][a] != f.sccs[i][b]
  {
    hide Reach;
    if i < |e.sccs| {
      assert f.sccs[i] == e.sccs[i];
    }
  }

  lemma PopSccsOk(adj: Adjacency, e0: Env, e: Env, f: Env, u: nat, gray: set<nat>)
    requires AllDone(adj, e0, e, u, gray) && e.low[u] == e.disc[u]
    requires Popped(adj, e, f, u)
    ensures Shape(adj, f) && SccsOk(adj, f)
  {
    hide Reach, PathOk, LowReal, LowBound, SuccessorsDone, Extends, StackOk;
    var n := |e.sccs|;
    forall i | 0 <= i < |f.sccs|
      ensures |f.sccs[i]| > 0 && forall a :: 0 <= a < |f.sccs[i]| ==> f.sccs[i][a] < |adj|
      ensures forall x: nat :: x in f.sccs[i] <==> x < |adj| && f.comp[x] == i
      ensures forall a, b :: 0 <= a < b < |f.sccs[i]| ==> f.sccs[i][a] != f.sccs[i][b]
    {
      PopMembers(adj, e, f, u, i);
    }
    GrayBelow(adj, e0, e, u, |adj[u]|, gray);
    forall x, y | 0 <= x < |adj| && 0 <= y < |adj| && f.comp[x] == f.comp[y] >= 0
      ensures Reach(adj, x, y)
    {
      if f.comp[x] == n {
        PoppedMeetsRoot(adj, e, u, gray, x);
        PoppedMeetsRoot(adj, e, u, gray, y);
        ReachTrans(adj, x, u, y);
      }
    }
    forall x: nat, y: nat | x < |adj| && y < |adj| && f.comp[x] >= 0 && Edge(adj, x, y)
      ensures 0 <= f.comp[y] <= f.comp[x]
    {
      if f.comp[x] == n {
        PoppedIsClosed(adj, e0, e, u, gray, x, y);
        VisitedHasPlace(adj, e, y);
      } else {
        EmittedIsOffStack(adj, e, y);
      }
    }
  }

  lemma EmittedIsOffStack(adj: Adjacency, e: Env, y: nat)
    requires Shape(adj, e) && StackOk(adj, e) && y < |adj|
    ensures !(e.onStack[y] && e.comp[y] >= 0)
  {
  }

  lemma VisitedHasPlace(adj: Adjacency, e: Env, y: nat)
    requires Shape(adj, e) && StackOk(adj, e) && y < |adj| && e.disc[y] >= 0
    ensures e.onStack[y] || e.comp[y] >= 0
  {
  }

  lemma PopStackOk(adj: Adjacency, e: Env, f: Env, u: nat)
    requires Shape(adj, e) && StackOk(adj, e) && SccsOk(adj, e) && u < |adj| && e.onStack[u]
    requires Popped(adj, e, f, u)
    ensures Shape(adj, f) && StackOk(adj, f)
  {
    hide Reach;
    forall x | 0 <= x < |adj| && f.onStack[x]
      ensures x in f.stk
    {
      var i :| 0 <= i < |e.stk| && e.stk[i] == x;
      assert i < |f.stk|;
      assert f.stk[i] == x;
    }
    forall i, j | 0 <= i < j < |f.stk|
      ensures f.disc[f.stk[i]] < f.disc[f.stk[j]]
    {
      assert f.stk[i] == e.stk[i] && f.stk[j] == e.stk[j];
    }
  }

  lemma PopReachesGray(adj: Adjacency, e: Env, f: Env, u: nat, gray: set<nat>, y: nat)
    requires Shape(adj, e) && Shape(adj, f) && u < |adj| && y < |adj|
    requires f.disc == e.disc && e.disc[y] < e.disc[u]
    requires ReachesGray(adj, e, gray + {u}, y)
    ensures ReachesGray(adj, f, gray, y)
  {
    hide Reach;
    var z :| z in gray + {u} && z < |adj| && e.disc[z] <= e.disc[y] && Reach(adj, y, z);
    assert z in gray;
  }

  lemma PopPathOk(adj: Adjacency, e: Env, f: Env, u: nat, gray: set<nat>)
    requires Shape(adj, e) && StackOk(adj, e) && PathOk(adj, e, gray + {u}) && u < |adj|
    requires forall x :: x in gray ==> x < |adj| && e.disc[x] < e.disc[u]
    requires forall v: nat :: Edge(adj, u, v) ==> v < |adj| && e.disc[v] >= 0
    requires Popped(adj, e, f, u) && Shape(adj, f)
    ensures PathOk(adj, f, gray)
  {
    hide Reach, StackOk, ReachesGray;
    assert forall x :: x in gray ==> x in gray + {u};
    forall y | 0 <= y < |adj| && f.onStack[y]
      ensures ReachesGray(adj, f, gray, y)
    {
      PopReachesGray(adj, e, f, u, gray, y);
    }
  }

  /** low[u] == disc[u]: the nodes from u upwards on the stack are one component. */
  lemma FinishRoot(adj: Adjacency, e0: Env, e: Env, f: Env, u: nat, gray: set<nat>)
    requires AllDone(adj, e0, e, u, gray) && e.low[u] == e.disc[u]
    requires Popped(adj, e, f, u)
    ensures Inv(adj, f, gray) && DfsPost(adj, e0, f, u) && Extends(e0, f)
  {
    hide Reach, StackOk, PathOk, LowReal, LowBound, SuccessorsDone;
    GrayBelow(adj, e0, e, u, |adj[u]|, gray);
    SuccessorsOf(adj, e0, e, u, gray);
    PopSccsOk(adj, e0, e, f, u, gray);
    PopStackOk(adj, e, f, u);
    PopPathOk(adj, e, f, u, gray);
    PopLowBound(adj, e0, e, f, u);
    assert Extends(e0, f);
  }

  lemma PopLowBound(adj: Adjacency, e0: Env, e: Env, f: Env, u: nat)
    requires Shape(adj, e0) && Shape(adj, e) && Shape(adj, f) && u < |adj|
    requires StackOk(adj, e) && e.disc[u] == e0.timer && Popped(adj, e, f, u)
    ensures LowBound(adj, e0, f, u, e0.timer)
  {
  }

  // ---- The result ------------------------------------------------------------------------

  ghost predicate Listed(sccs: seq<seq<nat>>, x: nat) {
    exists i :: 0 <= i < |sccs| && x in sccs[i]
  }

  /** sccs lists every node exactly once. */
  ghost predicate IsPartition(n: nat, sccs: seq<seq<nat>>) {
    && (forall i, a :: 0 <= i < |sccs| && 0 <= a < |sccs[i]| ==> sccs[i][a] < n)
    && (forall x: nat :: x < n ==> Listed(sccs, x))
    && (forall i, j, x: nat :: 0 <= i < |sccs| && 0 <= j < |sccs| && x in sccs[i] && x in sccs[j] ==> i == j)
    && (forall i, a, b :: 0 <= i < |sccs| && 0 <= a < b < |sccs[i]| ==> sccs[i][a] != sccs[i][b])
    && (forall i :: 0 <= i < |sccs| ==> |sccs[i]| > 0)
  }

  /** Two nodes are listed together exactly when each reaches the other. */
  ghost predicate AreComponents(adj: Adjacency, sccs: seq<seq<nat>>) {
    forall i, x: nat, y: nat :: 0 <= i < |sccs| && x in sccs[i] && y < |adj| ==>
      (y in sccs[i] <==> Mutual(adj, x, y))
  }

  /** An edge never leads to a component listed later than the one it leaves. */
  ghost predicate SinksFirst(adj: Adjacency, sccs: seq<seq<nat>>) {
    forall i, j, x: nat, y: nat ::
      0 <= i < |sccs| && 0 <= j < |sccs| && x in sccs[i] && y in sccs[j] && Edge(adj, x, y) ==> j <= i
  }

  ghost predicate IsSccList(adj: Adjacency, sccs: seq<seq<nat>>) {
    IsPartition(|adj|, sccs) && AreComponents(adj, sccs) && SinksFirst(adj, sccs)
  }

  /** Between calls of dfs no node is left on the stack. */
  lemma NothingOnStack(adj: Adjacency, e: Env, x: nat)
    requires Inv(adj, e, {}) && x < |adj| && e.disc[x] >= 0
    ensures e.comp[x] >= 0
  {
    hide Reach, SccsOk, OlderReachesYounger, DoneNodesDone;
    assert !ReachesGray(adj, e, {}, x);
    VisitedHasPlace(adj, e, x);
  }

  /** From a node in component i one only reaches components emitted no later than i. */
  lemma ReachGoesDown(adj: Adjacency, e: Env, x: nat, y: nat)
    requires Shape(adj, e) && SccsOk(adj, e)
    requires x < |adj| && y < |adj| && e.comp[x] >= 0 && Reach(adj, x, y)
    ensures 0 <= e.comp[y] <= e.comp[x]
  {
    hide Reach;
    var S := set z: nat | z < |adj| && 0 <= e.comp[z] <= e.comp[x];
    forall a: nat, b: nat | a in S && Edge(adj, a, b)
      ensures b in S
    {
      EdgeInRange(adj, a, b);
    }
    ClosedUnderReach(adj, S, x, y);
  }

  lemma MutualIffSameComp(adj: Adjacency, e: Env, x: nat, y: nat)
    requires Shape(adj, e) && SccsOk(adj, e)
    requires x < |adj| && y < |adj| && e.comp[x] >= 0
    ensures Mutual(adj, x, y) <==> e.comp[x] == e.comp[y]
  {
    hide Reach;
    if Mutual(adj, x, y) {
      ReachGoesDown(adj, e, x, y);
      ReachGoesDown(adj, e, y, x);
    }
  }

  /** Once every node has been discovered the emitted components are the answer. */
  lemma AllDiscovered(adj: Adjacency, e: Env)
    requires Inv(adj, e, {}) && forall x :: 0 <= x < |adj| ==> e.disc[x] >= 0
    ensures IsSccList(adj, e.sccs)
  {
    hide Reach, PathOk, Mutual, StackOk;
    forall x: nat | x < |adj|
      ensures Listed(e.sccs, x)
    {
      NothingOnStack(adj, e, x);
      assert x in e.sccs[e.comp[x]];
    }
    forall i, j, x: nat | 0 <= i < |e.sccs| && 0 <= j < |e.sccs| && x in e.sccs[i] && x in e.sccs[j]
      ensures i == j
    {
      assert e.comp[x] == i;
    }
    forall i, x: nat, y: nat | 0 <= i < |e.sccs| && x in e.sccs[i] && y < |adj|
      ensures y in e.sccs[i] <==> Mutual(adj, x, y)
    {
      assert e.comp[x] == i;
      MutualIffSameComp(adj, e, x, y);
    }
    forall i, j, x: nat, y: nat | 0 <= i < |e.sccs| && 0 <= j < |e.sccs| && x in e.sccs[i] && y in e.sccs[j] && Edge(adj, x, y)
      ensures j <= i
    {
      assert e.comp[x] == i && e.comp[y] == j;
    }
  }
}
