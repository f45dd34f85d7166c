module Tarjan {
  import opened Digraph
  import opened TarjanInvariants

  function Min(a: int, b: int): int {
    if b < a then b else a
  }

  class TarjanState {
    const adj: Adjacency
    var disc: seq<int>
    var low: seq<int>
    var onStack: seq<bool>
    var stk: seq<nat>
    var sccs: seq<seq<nat>>
    var timer: int
    ghost var comp: seq<int>

    ghost function View(): Env
      reads this
    {
      Env(disc, low, onStack, stk, sccs, timer, comp)
    }

    constructor (adj: Adjacency)
      requires WellFormed(adj)
      ensures this.adj == adj && Inv(adj, View(), {})
      ensures sccs == [] && forall x :: 0 <= x < |adj| ==> disc[x] < 0
    {
      this.adj := adj;
      disc := seq(|adj|, _ => UNVISITED);
      low := seq(|adj|, _ => 0);
      onStack := seq(|adj|, _ => false);
      stk, sccs, timer := [], [], 0;
      comp := seq(|adj|, _ => -1);
    }

    /** Pops the nodes from u upwards off the stack as one component. */
    method PopComponent(u: nat)
      requires Shape(adj, View()) && StackOk(adj, View()) && u < |adj| && onStack[u]
      modifies this
      ensures Shape(adj, old(View())) && Popped(adj, old(View()), View(), u)
    {
      hide StackOk, Popping, Popped;
      ghost var e := View();
      PoppingStart(adj, e);
      OnStackInStk(adj, e, u);
      var scc: seq<nat> := [];
      while true
        invariant disc == e.disc && low == e.low && sccs == e.sccs && timer == e.timer && comp == e.comp
        invariant Popping(adj, e, stk, onStack, scc)
        invariant u in stk
        decreases |stk|
      {
        PoppingStep(adj, e, stk, onStack, scc, u);
        var w := stk[|stk| - 1];
        stk := stk[..|stk| - 1];
        onStack := onStack[w := false];
        scc := scc + [w];
        if w == u { break; }
      }
      sccs := sccs + [scc];
      comp := seq(|adj|, x requires 0 <= x < |adj| => if e.onStack[x] && e.disc[x] >= e.disc[u] then |e.sccs| else e.comp[x]);
      PoppingPopped(adj, e, View(), scc, u);
    }

    /** dfs(u) for an undiscovered node u; `gray` holds the nodes on the recursion path. */
    method Dfs(u: nat, ghost gray: set<nat>)
      requires Inv(adj, View(), gray) && u < |adj| && disc[u] == UNVISITED
      requires forall x :: x in gray ==> Reach(adj, x, u)
      modifies this
      ensures Inv(adj, old(View()), gray) && Inv(adj, View(), gray)
      ensures Extends(old(View()), View()) && DfsPost(adj, old(View()), View(), u)
      decreases Undiscovered(disc)
    {
      hide Reach, Inv, Extends, DfsPost, LoopInv, Popped;
      ghost var e0 := View();
      PushOk(adj, e0, u, gray);
      InvShape(adj, e0, gray);
      disc, low := disc[u := timer], low[u := timer];
      timer := timer + 1;
      stk := stk + [u];
      onStack := onStack[u := true];
      assert View() == Push(e0, u);

      var i := 0;
      while i < |adj[u]|
        invariant i <= |adj[u]| && LoopInv(adj, e0, View(), u, i, gray)
      {
        var v := adj[u][i];
        ghost var e1 := View();
        LoopFacts(adj, e0, e1, u, i, gray);
        if disc[v] == UNVISITED {
          ChildReady(adj, e0, e1, u, i, gray);
          Dfs(v, gray + {u});
          ghost var e2 := View();
          InvShape(adj, e2, gray + {u});
          low := low[u := Min(low[u], low[v])];
          ChildStep(adj, e0, e1, e2, u, i, gray);
        } else if onStack[v] {
          low := low[u := Min(low[u], disc[v])];
          BackEdgeStep(adj, e0, e1, u, i, gray);
        } else {
          CrossStep(adj, e0, e1, u, i, gray);
        }
        i := i + 1;
      }

      ghost var e := View();
      LoopFacts(adj, e0, e, u, i, gray);
      if low[u] == disc[u] {
        PopComponent(u);
        FinishRoot(adj, e0, e, View(), u, gray);
      } else {
        FinishBelow(adj, e0, e, u, gray);
      }
    }
  }
  /** The components of the graph, each listed after all the components it depends on. */
  method Find(adj: Adjacency) returns (sccs: seq<seq<nat>>)
    requires WellFormed(adj)
    ensures IsSccList(adj, sccs)
  {
    hide Inv, IsSccList, Extends, DfsPost;
    var state := new TarjanState(adj);
    InvShape(adj, state.View(), {});
    var u := 0;
    while u < |adj|
      invariant 0 <= u <= |adj| == |state.disc| && state.adj == adj
      invariant Inv(adj, state.View(), {})
      invariant forall x :: 0 <= x < u ==> state.disc[x] >= 0
    {
      ghost var e := state.View();
      if state.disc[u] == UNVISITED {
        InvShape(adj, e, {});
        state.Dfs(u, {});
        InvShape(adj, state.View(), {});
        DfsKeepsDiscovered(adj, e, state.View(), u);
      } else {
        InvShape(adj, e, {});
      }
      u := u + 1;
    }
    AllDiscovered(adj, state.View());
    sccs := state.sccs;
  }
}
