/** ReadingSequencer::sequence: condensation, then Kahn's algorithm with a heap on the score. */
module Sequencer {
  import opened Digraph
  import opened Sorting
  import opened MemberOrder
  import opened TarjanInvariants
  import opened ReadingOrders
  import Tarjan
  import opened Outcomes

  // ---- The condensation ------------------------------------------------------------------

  ghost predicate ComponentOf(n: nat, sccs: seq<seq<nat>>, sccOf: seq<nat>) {
    && |sccOf| == n
    && forall x: nat :: x < n ==> sccOf[x] < |sccs| && x in sccs[sccOf[x]]
  }

  /** Edge a of node u makes component j depend on component i. */
  ghost predicate DependsBy(adj: Adjacency, sccOf: seq<nat>, j: nat, i: nat, u: nat, a: nat) {
    && |sccOf| == |adj|
    && u < |adj| && a < |adj[u]| && adj[u][a] < |adj|
    && sccOf[u] == j && sccOf[adj[u][a]] == i && i != j
  }

  ghost predicate DependsUpTo(adj: Adjacency, sccOf: seq<nat>, j: nat, i: nat, n: nat, m: nat) {
    exists u: nat, a: nat :: (u < n || (u == n && a < m)) && DependsBy(adj, sccOf, j, i, u, a)
  }

  /** Component j depends on component i. */
  ghost predicate DependsOn(adj: Adjacency, sccOf: seq<nat>, j: nat, i: nat) {
    DependsUpTo(adj, sccOf, j, i, |adj|, 0)
  }

  method MapNodes(n: nat, sccs: seq<seq<nat>>) returns (sccOf: seq<nat>)
    requires IsPartition(n, sccs)
    ensures ComponentOf(n, sccs, sccOf)
  {
    sccOf := seq(n, _ => 0);
    for i := 0 to |sccs|
      invariant |sccOf| == n
      invariant forall x: nat :: x < n && InFirst(sccs, i, x) ==> sccOf[x] < |sccs| && x in sccs[sccOf[x]]
    {
      for a := 0 to |sccs[i]|
        invariant |sccOf| == n
        invariant forall x: nat :: x < n && (InFirst(sccs, i, x) || x in sccs[i][..a]) ==> sccOf[x] < |sccs| && x in sccs[sccOf[x]]
      {
        sccOf := sccOf[sccs[i][a] := i];
        assert sccs[i][..a + 1] == sccs[i][..a] + [sccs[i][a]];
      }
      assert sccs[i][..|sccs[i]|] == sccs[i];
      forall x: nat | x < n && InFirst(sccs, i + 1, x)
        ensures InFirst(sccs, i, x) || x in sccs[i]
      {
        var j :| 0 <= j < i + 1 && x in sccs[j];
      }
    }
    forall x: nat | x < n
      ensures InFirst(sccs, |sccs|, x)
    {
      assert Listed(sccs, x);
    }
  }

  method SuperScores(keys: Keys, sccs: seq<seq<nat>>) returns (super: seq<real>)
    requires forall i, a :: 0 <= i < |sccs| && 0 <= a < |sccs[i]| ==> sccs[i][a] < |keys.score|
    ensures |super| == |sccs| && forall i :: 0 <= i < |sccs| ==> super[i] == SuperScore(keys, sccs[i])
  {
    super := seq(|sccs|, _ => 0.0);
    for i := 0 to |sccs|
      invariant |super| == |sccs|
      invariant forall k :: 0 <= k < i ==> super[k] == SuperScore(keys, sccs[k])
      invariant forall k :: i <= k < |sccs| ==> super[k] == 0.0
    {
      for a := 0 to |sccs[i]|
        invariant |super| == |sccs|
        invariant forall k :: 0 <= k < i ==> super[k] == SuperScore(keys, sccs[k])
        invariant forall k :: i < k < |sccs| ==> super[k] == 0.0
        invariant super[i] == SuperScore(keys, sccs[i][..a])
      {
        var u := sccs[i][a];
        assert sccs[i][..a + 1][..a] == sccs[i][..a];
        super := super[i := if super[i] < keys.score[u] then keys.score[u] else super[i]];
      }
      assert sccs[i][..|sccs[i]|] == sccs[i];
    }
  }

  /** The reversed condensation edges found so far: j is in cond[i] when j depends on i. */
  ghost predicate CondUpTo(adj: Adjacency, sccOf: seq<nat>, cond: seq<seq<nat>>, n: nat, m: nat) {
    forall i: nat, j: nat :: i < |cond| ==> (j in cond[i] <==> DependsUpTo(adj, sccOf, j, i, n, m))
  }

  lemma CondStep(adj: Adjacency, sccOf: seq<nat>, cond: seq<seq<nat>>, u: nat, a: nat)
    requires WellFormed(adj) && |sccOf| == |adj| && u < |adj| && a < |adj[u]|
    requires forall x: nat :: x < |adj| ==> sccOf[x] < |cond|
    requires CondUpTo(adj, sccOf, cond, u, a)
    ensures adj[u][a] < |adj|
    ensures var i, j := sccOf[adj[u][a]], sccOf[u];
      CondUpTo(adj, sccOf, if i != j then cond[i := cond[i] + [j]] else cond, u, a + 1)
  {
    var v := adj[u][a];
    var i0, j0 := sccOf[v], sccOf[u];
    var next := if i0 != j0 then cond[i0 := cond[i0] + [j0]] else cond;
    forall i: nat, j: nat | i < |next|
      ensures j in next[i] <==> DependsUpTo(adj, sccOf, j, i, u, a + 1)
    {
      assert j in next[i] <==> j in cond[i] || (i == i0 && j == j0 && i0 != j0);
      if DependsUpTo(adj, sccOf, j, i, u, a + 1) && !DependsUpTo(adj, sccOf, j, i, u, a) {
        var u': nat, a': nat :| (u' < u || (u' == u && a' < a + 1)) && DependsBy(adj, sccOf, j, i, u', a');
        assert u' == u && a' == a;
      }
      if DependsUpTo(adj, sccOf, j, i, u, a) {
        var u': nat, a': nat :| (u' < u || (u' == u && a' < a)) && DependsBy(adj, sccOf, j, i, u', a');
        assert u' < u || (u' == u && a' < a + 1);
      }
      if i == i0 && j == j0 && i0 != j0 {
        assert DependsBy(adj, sccOf, j, i, u, a);
      }
    }
  }

  lemma DependsNextRow(adj: Adjacency, sccOf: seq<nat>, cond: seq<seq<nat>>, u: nat)
    requires u < |adj| && CondUpTo(adj, sccOf, cond, u, |adj[u]|)
    ensures CondUpTo(adj, sccOf, cond, u + 1, 0)
  {
    forall i: nat, j: nat
      ensures DependsUpTo(adj, sccOf, j, i, u, |adj[u]|) <==> DependsUpTo(adj, sccOf, j, i, u + 1, 0)
    {
      if DependsUpTo(adj, sccOf, j, i, u, |adj[u]|) {
        var u': nat, a': nat :| (u' < u || (u' == u && a' < |adj[u]|)) && DependsBy(adj, sccOf, j, i, u', a');
        assert u' < u + 1;
      }
      if DependsUpTo(adj, sccOf, j, i, u + 1, 0) {
        var u': nat, a': nat :| (u' < u + 1 || (u' == u + 1 && a' < 0)) && DependsBy(adj, sccOf, j, i, u', a');
        assert u' < u || (u' == u && a' < |adj[u]|);
      }
    }
  }

  method CondensationEdges(adj: Adjacency, sccOf: seq<nat>, S: nat) returns (cond: seq<seq<nat>>)
    requires WellFormed(adj) && |sccOf| == |adj| && forall x: nat :: x < |adj| ==> sccOf[x] < S
    ensures |cond| == S && CondUpTo(adj, sccOf, cond, |adj|, 0)
  {
    hide DependsUpTo, CondUpTo;
    cond := seq(S, _ => []);
    NothingYet(adj, sccOf, cond);
    for u := 0 to |adj|
      invariant |cond| == S && CondUpTo(adj, sccOf, cond, u, 0)
    {
      for a := 0 to |adj[u]|
        invariant |cond| == S && CondUpTo(adj, sccOf, cond, u, a)
      {
        var v := adj[u][a];
        CondStep(adj, sccOf, cond, u, a);
        if sccOf[u] != sccOf[v] {
          cond := cond[sccOf[v] := cond[sccOf[v]] + [sccOf[u]]];
        }
      }
      DependsNextRow(adj, sccOf, cond, u);
    }
  }

  lemma NothingYet(adj: Adjacency, sccOf: seq<nat>, cond: seq<seq<nat>>)
    requires forall i :: 0 <= i < |cond| ==> cond[i] == []
    ensures CondUpTo(adj, sccOf, cond, 0, 0)
  {
  }

  /** std::unique: drops every element equal to the one before it. */
  function Unique(s: seq<nat>): seq<nat> {
    if |s| <= 1 then s
    else if s[0] == s[1] then Unique(s[1..])
    else [s[0]] + Unique(s[1..])
  }

  /** On a sorted list std::unique leaves each element once. */
  lemma {:induction false} UniqueOnSorted(s: seq<nat>)
    requires forall i, j :: 0 <= i < j < |s| ==> s[i] <= s[j]
    ensures forall x :: x in Unique(s) <==> x in s
    ensures forall i, j :: 0 <= i < j < |Unique(s)| ==> Unique(s)[i] < Unique(s)[j]
    ensures s != [] ==> Unique(s) != [] && Unique(s)[0] == s[0]
  {
    if |s| > 1 {
      assert s == [s[0]] + s[1..];
      UniqueOnSorted(s[1..]);
      if s[0] != s[1] {
        var t := Unique(s[1..]);
        forall j | 0 <= j < |t|
          ensures s[0] < t[j]
        {
          if j > 0 { assert t[0] < t[j]; }
        }
      }
    }
  }

  lemma IntOrder()
    ensures WeakOrder((a: nat, b: nat) => a < b)
  {
  }

  method Dedup(edges: seq<nat>) returns (r: seq<nat>)
    ensures Distinct(r) && forall x :: x in r <==> x in edges
  {
    var sorted := Sort((a: nat, b: nat) => a < b, edges);
    IntOrder();
    SortSorted((a: nat, b: nat) => a < b, edges);
    SameMembers(sorted, edges);
    UniqueOnSorted(sorted);
    r := Unique(sorted);
  }

  /** How many components below n that j depends on are not done yet. */
  function Pending(cond: seq<seq<nat>>, done: set<nat>, j: nat, n: nat): nat
    requires n <= |cond|
  {
    if n == 0 then 0
    else Pending(cond, done, j, n - 1) + if n - 1 !in done && j in cond[n - 1] then 1 else 0
  }

  lemma {:induction false} PendingZero(cond: seq<seq<nat>>, done: set<nat>, j: nat, n: nat)
    requires n <= |cond|
    ensures Pending(cond, done, j, n) == 0 <==> forall i: nat :: i < n && j in cond[i] ==> i in done
  {
    if n > 0 {
      PendingZero(cond, done, j, n - 1);
    }
  }

  lemma {:induction false} PendingDone(cond: seq<seq<nat>>, done: set<nat>, j: nat, n: nat, i: nat)
    requires n <= |cond| && i !in done
    ensures Pending(cond, done + {i}, j, n) ==
            Pending(cond, done, j, n) - if i < n && j in cond[i] then 1 else 0
  {
    if n > 0 {
      PendingDone(cond, done, j, n - 1, i);
    }
  }

  lemma {:induction false} PendingUpdate(cond: seq<seq<nat>>, done: set<nat>, j: nat, n: nat, i: nat, edges: seq<nat>)
    requires n <= |cond| && n <= i < |cond|
    ensures Pending(cond[i := edges], done, j, n) == Pending(cond, done, j, n)
  {
    if n > 0 {
      PendingUpdate(cond, done, j, n - 1, i, edges);
    }
  }

  /** Deduplicates the edges in place and counts the in-degrees. */
  method DedupAndCount(raw: seq<seq<nat>>) returns (cond: seq<seq<nat>>, indegree: seq<int>)
    requires forall i, j :: 0 <= i < |raw| && j in raw[i] ==> j < |raw|
    ensures |cond| == |raw| == |indegree|
    ensures forall i :: 0 <= i < |raw| ==> Distinct(cond[i]) && forall j :: j in cond[i] <==> j in raw[i]
    ensures forall j: nat :: j < |raw| ==> indegree[j] == Pending(cond, {}, j, |raw|)
  {
    cond := raw;
    indegree := seq(|raw|, _ => 0);
    for i := 0 to |raw|
      invariant |cond| == |raw| == |indegree|
      invariant forall k :: 0 <= k < i ==> Distinct(cond[k]) && forall j :: j in cond[k] <==> j in raw[k]
      invariant forall k :: i <= k < |raw| ==> cond[k] == raw[k]
      invariant forall j: nat :: j < |raw| ==> indegree[j] == Pending(cond, {}, j, i)
    {
      var edges := Dedup(cond[i]);
      ghost var before := cond;
      cond := cond[i := edges];
      forall j: nat | j < |raw|
        ensures Pending(cond, {}, j, i) == Pending(before, {}, j, i)
      {
        PendingUpdate(before, {}, j, i, i, edges);
      }
      indegree := CountEdges(edges, indegree);
    }
  }

  method CountEdges(edges: seq<nat>, before: seq<int>) returns (indegree: seq<int>)
    requires Distinct(edges) && forall j :: j in edges ==> j < |before|
    ensures |indegree| == |before|
    ensures forall j: nat :: j < |before| ==> indegree[j] == before[j] + if j in edges then 1 else 0
  {
    indegree := before;
    for a := 0 to |edges|
      invariant |indegree| == |before|
      invariant forall j: nat :: j < |before| ==> indegree[j] == before[j] + if j in edges[..a] then 1 else 0
    {
      var j := edges[a];
      assert edges[..a + 1] == edges[..a] + [j];
      assert j in edges && j !in edges[..a];
      indegree := indegree[j := indegree[j] + 1];
    }
    assert edges[..|edges|] == edges;
  }

  // ---- Kahn's algorithm ------------------------------------------------------------------

  ghost function Done(order: seq<nat>): set<nat> {
    set x | x in order
  }

  /** Every component that j depends on is in the list. */
  ghost predicate Free(cond: seq<seq<nat>>, order: seq<nat>, j: nat) {
    forall i: nat :: i < |cond| && j in cond[i] ==> i in order
  }

  ghost predicate Topological(cond: seq<seq<nat>>, order: seq<nat>) {
    forall t :: 0 <= t < |order| ==> Free(cond, order[..t], order[t])
  }

  ghost predicate GreedyIndices(cond: seq<seq<nat>>, super: seq<real>, order: seq<nat>) {
    forall t, j: nat :: 0 <= t < |order| && j < |super| && order[t] < |super| && j !in order[..t] && Free(cond, order[..t], j) ==>
      super[order[t]] >= super[j]
  }

  /** Between two pops: in-degrees count the unread dependencies, and the heap holds exactly the
      unread components that have none. */
  ghost predicate KahnInv(cond: seq<seq<nat>>, indegree: seq<int>, pq: seq<nat>, order: seq<nat>) {
    && |indegree| == |cond|
    && (forall x: nat :: x in order ==> x < |cond|)
    && (forall x: nat :: x in pq ==> x < |cond|)
    && Distinct(order) && Distinct(pq)
    && (forall j: nat :: j < |cond| ==> indegree[j] == Pending(cond, Done(order), j, |cond|))
    && (forall j: nat :: j < |cond| ==> (j in pq <==> j !in order && indegree[j] == 0))
    && Topological(cond, order)
  }

  lemma FreeIffZero(cond: seq<seq<nat>>, order: seq<nat>, j: nat)
    ensures Pending(cond, Done(order), j, |cond|) == 0 <==> Free(cond, order, j)
  {
    PendingZero(cond, Done(order), j, |cond|);
  }

  method FillHeap(indegree: seq<int>) returns (pq: seq<nat>)
    ensures Distinct(pq) && forall j: nat :: j in pq <==> j < |indegree| && indegree[j] == 0
  {
    pq := [];
    for i := 0 to |indegree|
      invariant Distinct(pq) && forall j: nat :: j in pq <==> j < i && indegree[j] == 0
    {
      if indegree[i] == 0 {
        pq := pq + [i];
      }
    }
  }

  ghost predicate IsTop(pq: seq<nat>, super: seq<real>, t: nat)
    requires forall i :: 0 <= i < |pq| ==> pq[i] < |super|
  {
    t < |pq| && forall j :: 0 <= j < |pq| ==> super[pq[j]] <= super[pq[t]]
  }

  lemma {:induction false} TopExists(pq: seq<nat>, super: seq<real>) returns (t: nat)
    requires |pq| > 0 && forall i :: 0 <= i < |pq| ==> pq[i] < |super|
    ensures IsTop(pq, super, t)
  {
    if |pq| == 1 {
      t := 0;
    } else {
      var n := |pq| - 1;
      t := TopExists(pq[..n], super);
      assert forall j :: 0 <= j < n ==> super[pq[..n][j]] <= super[pq[t]];
      if super[pq[t]] < super[pq[n]] { t := n; }
    }
  }

  lemma RemoveAt(pq: seq<nat>, t: nat)
    requires Distinct(pq) && t < |pq|
    ensures var rest := pq[..t] + pq[t + 1..];
      Distinct(rest) && forall x: nat :: x in rest <==> x in pq && x != pq[t]
  {
    assert pq == pq[..t] + [pq[t]] + pq[t + 1..];
  }

  lemma TopIsTop(pq: seq<nat>, super: seq<real>, t: nat)
    requires forall i :: 0 <= i < |pq| ==> pq[i] < |super|
    requires IsTop(pq, super, t)
    ensures pq[t] in pq && forall x: nat :: x in pq ==> x < |super| && super[x] <= super[pq[t]]
  {
  }

  /** top() and pop() of the heap: removes some element of maximal score. */
  method PopMax(pq: seq<nat>, super: seq<real>) returns (si: nat, rest: seq<nat>)
    requires |pq| > 0 && Distinct(pq) && forall x: nat :: x in pq ==> x < |super|
    ensures si in pq && forall x: nat :: x in pq ==> super[x] <= super[si]
    ensures Distinct(rest) && forall x: nat :: x in rest <==> x in pq && x != si
  {
    hide Distinct;
    assert forall i :: 0 <= i < |pq| ==> pq[i] in pq;
    ghost var m := TopExists(pq, super);
    var t :| 0 <= t < |pq| && forall j :: 0 <= j < |pq| ==> super[pq[j]] <= super[pq[t]];
    si, rest := pq[t], pq[..t] + pq[t + 1..];
    RemoveAt(pq, t);
    TopIsTop(pq, super, t);
  }

  /** Lowers the in-degree of every dependent of a component that has just been read, and pushes
      those that reach 0. */
  method Relax(edges: seq<nat>, indegree0: seq<int>, pq0: seq<nat>) returns (indegree: seq<int>, pq: seq<nat>)
    requires Distinct(edges) && forall j :: j in edges ==> j < |indegree0| && j !in pq0
    requires Distinct(pq0)
    ensures |indegree| == |indegree0|
    ensures forall j: nat :: j < |indegree0| ==> indegree[j] == indegree0[j] - if j in edges then 1 else 0
    ensures Distinct(pq) && forall x: nat :: x in pq <==> x in pq0 || (x in edges && indegree0[x] == 1)
  {
    indegree, pq := indegree0, pq0;
    for a := 0 to |edges|
      invariant |indegree| == |indegree0|
      invariant forall j: nat :: j < |indegree0| ==> indegree[j] == indegree0[j] - if j in edges[..a] then 1 else 0
      invariant Distinct(pq) && forall x: nat :: x in pq <==> x in pq0 || (x in edges[..a] && indegree0[x] == 1)
    {
      var sj := edges[a];
      assert edges[..a + 1] == edges[..a] + [sj];
      assert sj in edges && sj !in edges[..a];
      indegree := indegree[sj := indegree[sj] - 1];
      if indegree[sj] == 0 {
        pq := pq + [sj];
      }
    }
    assert edges[..|edges|] == edges;
  }

  lemma KahnStart(cond: seq<seq<nat>>, indegree: seq<int>, pq: seq<nat>)
    requires |indegree| == |cond| && Distinct(pq)
    requires forall j: nat :: j < |cond| ==> indegree[j] == Pending(cond, {}, j, |cond|)
    requires forall j: nat :: j in pq <==> j < |cond| && indegree[j] == 0
    ensures KahnInv(cond, indegree, pq, [])
  {
    assert Done([]) == {};
  }

  /** The dependents of the popped component were waiting for it. */
  lemma DependentsWait(cond: seq<seq<nat>>, indegree: seq<int>, pq: seq<nat>, order: seq<nat>, si: nat, j: nat)
    requires KahnInv(cond, indegree, pq, order) && si in pq && j < |cond| && j in cond[si]
    ensures j !in order && j !in pq && indegree[j] >= 1
  {
    hide Distinct, Topological, Free;
    FreeIffZero(cond, order, j);
    OrderedAreFree(cond, order);
    assert !Free(cond, order, j) by { NotFree(cond, order, si, j); }
  }

  lemma NotFree(cond: seq<seq<nat>>, order: seq<nat>, i: nat, j: nat)
    requires i < |cond| && j in cond[i] && i !in order
    ensures !Free(cond, order, j)
  {
  }

  lemma OrderedAreFree(cond: seq<seq<nat>>, order: seq<nat>)
    requires Topological(cond, order)
    ensures forall j: nat :: j in order ==> Free(cond, order, j)
  {
    forall j: nat | j in order
      ensures Free(cond, order, j)
    {
      var t :| 0 <= t < |order| && order[t] == j;
      assert Free(cond, order[..t], order[t]);
      assert forall i :: i in order[..t] ==> i in order;
    }
  }

  lemma KahnDegrees(cond: seq<seq<nat>>, indegree: seq<int>, indegree': seq<int>, order: seq<nat>, si: nat)
    requires si < |cond| == |indegree| == |indegree'| && si !in order
    requires forall j: nat :: j < |cond| ==> indegree[j] == Pending(cond, Done(order), j, |cond|)
    requires forall j: nat :: j < |cond| ==> indegree'[j] == indegree[j] - if j in cond[si] then 1 else 0
    ensures forall j: nat :: j < |cond| ==> indegree'[j] == Pending(cond, Done(order + [si]), j, |cond|)
  {
    assert Done(order + [si]) == Done(order) + {si};
    forall j: nat | j < |cond|
      ensures indegree'[j] == Pending(cond, Done(order + [si]), j, |cond|)
    {
      PendingDone(cond, Done(order), j, |cond|, si);
    }
  }

  lemma TopologicalStep(cond: seq<seq<nat>>, order: seq<nat>, si: nat)
    requires Topological(cond, order) && Free(cond, order, si)
    ensures Topological(cond, order + [si])
  {
    var next := order + [si];
    forall t | 0 <= t < |next|
      ensures Free(cond, next[..t], next[t])
    {
      if t < |order| {
        assert next[..t] == order[..t];
        assert Free(cond, order[..t], order[t]);
      } else {
        assert next[..t] == order;
      }
    }
  }

  lemma GreedyStep(cond: seq<seq<nat>>, super: seq<real>, indegree: seq<int>, pq: seq<nat>, order: seq<nat>, si: nat)
    requires |super| == |cond| && KahnInv(cond, indegree, pq, order) && GreedyIndices(cond, super, order)
    requires si in pq && forall x: nat :: x in pq ==> super[x] <= super[si]
    ensures GreedyIndices(cond, super, order + [si])
  {
    hide Distinct, Topological, Free;
    var next := order + [si];
    forall t, j: nat | 0 <= t < |next| && j < |super| && next[t] < |super| && j !in next[..t] && Free(cond, next[..t], j)
      ensures super[next[t]] >= super[j]
    {
      if t < |order| {
        assert next[..t] == order[..t];
      } else {
        assert next[..t] == order;
        FreeIffZero(cond, order, j);
        assert j in pq;
      }
    }
  }

  lemma KahnStep(cond: seq<seq<nat>>, indegree: seq<int>, pq: seq<nat>, order: seq<nat>, si: nat,
                 indegree': seq<int>, pq': seq<nat>)
    requires KahnInv(cond, indegree, pq, order) && si in pq
    requires |indegree'| == |cond|
    requires forall j: nat :: j < |cond| ==> indegree'[j] == indegree[j] - if j in cond[si] then 1 else 0
    requires Distinct(pq') && forall x: nat :: x in pq' <==> (x in pq && x != si) || (x < |cond| && x in cond[si] && indegree[x] == 1)
    ensures KahnInv(cond, indegree', pq', order + [si])
  {
    hide Free, Topological;
    var next := order + [si];
    KahnDegrees(cond, indegree, indegree', order, si);
    FreeIffZero(cond, order, si);
    TopologicalStep(cond, order, si);
    forall j: nat | j < |cond|
      ensures j in pq' <==> j !in next && indegree'[j] == 0
    {
      if j in cond[si] {
        DependentsWait(cond, indegree, pq, order, si, j);
      }
    }
  }

  lemma KahnBound(cond: seq<seq<nat>>, indegree: seq<int>, pq: seq<nat>, order: seq<nat>)
    requires KahnInv(cond, indegree, pq, order)
    ensures |order| <= |cond|
  {
    hide Topological;
    DistinctSize(order, Done(order));
    SubsetSize(Done(order), Below(|cond|));
  }

  /** Kahn's algorithm never stalls: the position in Tarjan's list is a rank along which
      dependencies decrease, so an empty heap means that every component has been read. */
  lemma {:induction false} KahnReadsAll(cond: seq<seq<nat>>, indegree: seq<int>, order: seq<nat>, m: nat)
    requires KahnInv(cond, indegree, [], order) && m <= |cond|
    requires forall i: nat, j: nat :: i < |cond| && j in cond[i] ==> i < j
    ensures forall j: nat :: j < m ==> j in order
  {
    hide Topological, Distinct;
    if m > 0 {
      KahnReadsAll(cond, indegree, order, m - 1);
      FreeIffZero(cond, order, m - 1);
    }
  }

  // ---- From indices of components to the reading order -----------------------------------

  lemma {:induction false} SuperScoreIsMax(keys: Keys, block: seq<nat>)
    ensures SuperScore(keys, block) >= 0.0
    ensures forall x: nat :: x in block ==> keys.Score(x) <= SuperScore(keys, block)
    ensures SuperScore(keys, block) == 0.0 || exists x: nat :: x in block && keys.Score(x) == SuperScore(keys, block)
  {
    if block != [] {
      var n := |block| - 1;
      SuperScoreIsMax(keys, block[..n]);
      assert block == block[..n] + [block[n]];
    }
  }

  /** A component's score is one of its members' exactly when some member's score is not negative. */
  lemma SuperScoreIsAMembers(keys: Keys, block: seq<nat>)
    requires block != []
    ensures (exists x: nat :: x in block && keys.Score(x) == SuperScore(keys, block)) <==>
            (exists x: nat :: x in block && keys.Score(x) >= 0.0)
  {
    SuperScoreIsMax(keys, block);
  }

  /** A node whose score is negative stands alone in a component whose score is 0. */
  lemma NegativeScoreRaised()
    ensures var keys := Keys([-1.0], [], []);
      keys.Score(0) == -1.0 && SuperScore(keys, [0]) == 0.0
  {
    SuperScoreIsMax(Keys([-1.0], [], []), [0]);
  }

  lemma SuperScoreSame(keys: Keys, a: seq<nat>, b: seq<nat>)
    requires forall x: nat :: x in a <==> x in b
    ensures SuperScore(keys, a) == SuperScore(keys, b)
  {
    SuperScoreIsMax(keys, a);
    SuperScoreIsMax(keys, b);
  }

  /** The blocks are the components, in the order in which they were popped, each sorted. */
  ghost predicate AreBlocks(keys: Keys, sccs: seq<seq<nat>>, order: seq<nat>, blocks: seq<seq<nat>>) {
    && |blocks| == |order|
    && forall t :: 0 <= t < |order| ==>
         order[t] < |sccs| && blocks[t] == Sort((a: nat, b: nat) => keys.Before(a, b), sccs[order[t]])
  }

  lemma BlockMembers(keys: Keys, sccs: seq<seq<nat>>, order: seq<nat>, blocks: seq<seq<nat>>, t: nat)
    requires AreBlocks(keys, sccs, order, blocks) && t < |order|
    ensures order[t] < |sccs| && |blocks[t]| == |sccs[order[t]]|
    ensures multiset(blocks[t]) == multiset(sccs[order[t]])
    ensures forall x: nat :: x in blocks[t] <==> x in sccs[order[t]]
    ensures SortedBy((a: nat, b: nat) => keys.Before(a, b), blocks[t])
    ensures SuperScore(keys, blocks[t]) == SuperScore(keys, sccs[order[t]])
  {
    BeforeIsWeakOrder(keys);
    SortSorted((a: nat, b: nat) => keys.Before(a, b), sccs[order[t]]);
    SameMembers(blocks[t], sccs[order[t]]);
    SuperScoreSame(keys, blocks[t], sccs[order[t]]);
  }

  lemma BlocksPartition(n: nat, keys: Keys, sccs: seq<seq<nat>>, order: seq<nat>, blocks: seq<seq<nat>>)
    requires IsPartition(n, sccs) && IsPermutationOf(|sccs|, order) && AreBlocks(keys, sccs, order, blocks)
    ensures IsPartition(n, blocks)
  {
    hide AreBlocks, Distinct;
    BlockCount(keys, sccs, order, blocks);
    forall i, a | 0 <= i < |blocks| && 0 <= a < |blocks[i]|
      ensures blocks[i][a] < n
    {
      BlockMembers(keys, sccs, order, blocks, i);
      var x: nat := blocks[i][a];
      assert x in blocks[i];
      var b :| 0 <= b < |sccs[order[i]]| && sccs[order[i]][b] == x;
    }
    forall x: nat | x < n
      ensures Listed(blocks, x)
    {
      assert Listed(sccs, x);
      var i: nat :| i < |sccs| && x in sccs[i];
      assert i in order;
      var t :| 0 <= t < |order| && order[t] == i;
      BlockMembers(keys, sccs, order, blocks, t);
    }
    forall i, j, x: nat | 0 <= i < |blocks| && 0 <= j < |blocks| && x in blocks[i] && x in blocks[j]
      ensures i == j
    {
      BlockMembers(keys, sccs, order, blocks, i);
      BlockMembers(keys, sccs, order, blocks, j);
      assert order[i] == order[j];
      DistinctAt(order, i, j);
    }
    forall i | 0 <= i < |blocks|
      ensures |blocks[i]| > 0
      ensures forall a, b :: 0 <= a < b < |blocks[i]| ==> blocks[i][a] != blocks[i][b]
    {
      BlockMembers(keys, sccs, order, blocks, i);
      PermutedDistinct(sccs[order[i]], blocks[i]);
    }
  }

  lemma PermutedDistinct(a: seq<nat>, b: seq<nat>)
    requires multiset(a) == multiset(b)
    requires forall i, j :: 0 <= i < j < |a| ==> a[i] != a[j]
    ensures forall i, j :: 0 <= i < j < |b| ==> b[i] != b[j]
  {
    PermutationDistinct(a, b);
  }

  lemma DistinctAt(s: seq<nat>, i: nat, j: nat)
    requires Distinct(s) && i < |s| && j < |s| && s[i] == s[j]
    ensures i == j
  {
  }

  lemma BlocksComponents(adj: Adjacency, keys: Keys, sccs: seq<seq<nat>>, order: seq<nat>, blocks: seq<seq<nat>>)
    requires AreComponents(adj, sccs) && AreBlocks(keys, sccs, order, blocks)
    ensures AreComponents(adj, blocks) && MembersSorted(keys, blocks)
  {
    hide AreBlocks, Mutual, SortedBy;
    assert |blocks| == |order| by { BlockCount(keys, sccs, order, blocks); }
    forall i, x: nat, y: nat | 0 <= i < |blocks| && x in blocks[i] && y < |adj|
      ensures y in blocks[i] <==> Mutual(adj, x, y)
    {
      BlockMembers(keys, sccs, order, blocks, i);
    }
    forall i | 0 <= i < |blocks|
      ensures SortedBy((a: nat, b: nat) => keys.Before(a, b), blocks[i])
    {
      BlockMembers(keys, sccs, order, blocks, i);
    }
  }

  lemma BlockCount(keys: Keys, sccs: seq<seq<nat>>, order: seq<nat>, blocks: seq<seq<nat>>)
    requires AreBlocks(keys, sccs, order, blocks)
    ensures |blocks| == |order|
  {
  }

  /** The condensation of a graph: j in cond[i] exactly when an edge makes j depend on i. */
  ghost predicate IsCondensation(adj: Adjacency, sccs: seq<seq<nat>>, cond: seq<seq<nat>>) {
    && |cond| == |sccs|
    && forall i: nat, j: nat :: i < |sccs| ==>
         (j in cond[i] <==> j < |sccs| && i != j && SomeEdge(adj, sccs[j], sccs[i]))
  }

  ghost predicate SomeEdge(adj: Adjacency, a: seq<nat>, b: seq<nat>) {
    exists x: nat, y: nat :: x in a && y in b && Edge(adj, x, y)
  }

  lemma DependsIsSomeEdge(adj: Adjacency, sccs: seq<seq<nat>>, sccOf: seq<nat>, i: nat, j: nat)
    requires WellFormed(adj) && IsPartition(|adj|, sccs) && ComponentOf(|adj|, sccs, sccOf) && i < |sccs|
    ensures DependsOn(adj, sccOf, j, i) <==> j < |sccs| && i != j && SomeEdge(adj, sccs[j], sccs[i])
  {
    if DependsOn(adj, sccOf, j, i) {
      var u: nat, a: nat :| (u < |adj| || (u == |adj| && a < 0)) && DependsBy(adj, sccOf, j, i, u, a);
      assert Edge(adj, u, adj[u][a]);
    }
    if j < |sccs| && i != j && SomeEdge(adj, sccs[j], sccs[i]) {
      var x: nat, y: nat :| x in sccs[j] && y in sccs[i] && Edge(adj, x, y);
      var a: nat :| a < |adj[x]| && adj[x][a] == y;
      assert DependsBy(adj, sccOf, j, i, x, a);
    }
  }

  lemma CondensationFound(adj: Adjacency, sccs: seq<seq<nat>>, sccOf: seq<nat>, raw: seq<seq<nat>>, cond: seq<seq<nat>>)
    requires WellFormed(adj) && IsPartition(|adj|, sccs) && ComponentOf(|adj|, sccs, sccOf)
    requires |raw| == |cond| == |sccs| && CondUpTo(adj, sccOf, raw, |adj|, 0)
    requires forall i :: 0 <= i < |raw| ==> forall j :: j in cond[i] <==> j in raw[i]
    ensures IsCondensation(adj, sccs, cond)
  {
    hide IsPartition, ComponentOf, DependsUpTo, SomeEdge;
    forall i: nat, j: nat | i < |sccs|
      ensures j in cond[i] <==> j < |sccs| && i != j && SomeEdge(adj, sccs[j], sccs[i])
    {
      DependsIsSomeEdge(adj, sccs, sccOf, i, j);
      assert j in raw[i] <==> DependsOn(adj, sccOf, j, i);
    }
  }

  /** In Tarjan's list dependencies point to smaller indices. */
  lemma CondensationAcyclic(adj: Adjacency, sccs: seq<seq<nat>>, cond: seq<seq<nat>>)
    requires SinksFirst(adj, sccs) && IsCondensation(adj, sccs, cond)
    ensures forall i: nat, j: nat :: i < |cond| && j in cond[i] ==> i < j < |cond|
  {
    forall i: nat, j: nat | i < |cond| && j in cond[i]
      ensures i < j < |cond|
    {
      assert j < |sccs| && SomeEdge(adj, sccs[j], sccs[i]);
      var x: nat, y: nat :| x in sccs[j] && y in sccs[i] && Edge(adj, x, y);
    }
  }

  lemma BlocksSinksFirst(adj: Adjacency, keys: Keys, sccs: seq<seq<nat>>, cond: seq<seq<nat>>, order: seq<nat>,
                         blocks: seq<seq<nat>>)
    requires IsCondensation(adj, sccs, cond) && AreBlocks(keys, sccs, order, blocks)
    requires Distinct(order) && Topological(cond, order)
    ensures SinksFirst(adj, blocks)
  {
    hide AreBlocks, Distinct;
    BlockCount(keys, sccs, order, blocks);
    forall i, j, x: nat, y: nat | 0 <= i < |blocks| && 0 <= j < |blocks| && x in blocks[i] && y in blocks[j] && Edge(adj, x, y)
      ensures j <= i
    {
      BlockMembers(keys, sccs, order, blocks, i);
      BlockMembers(keys, sccs, order, blocks, j);
      if order[i] == order[j] {
        DistinctAt(order, i, j);
      } else {
        assert SomeEdge(adj, sccs[order[i]], sccs[order[j]]);
        assert order[i] in cond[order[j]];
        assert Free(cond, order[..i], order[i]);
        assert order[j] in order[..i];
        var k :| 0 <= k < i && order[..i][k] == order[j];
        DistinctAt(order, k, j);
      }
    }
  }

  lemma ReadyIsFree(adj: Adjacency, keys: Keys, sccs: seq<seq<nat>>, cond: seq<seq<nat>>, order: seq<nat>,
                    blocks: seq<seq<nat>>, k: nat, m: nat)
    requires IsPartition(|adj|, sccs) && IsCondensation(adj, sccs, cond) && AreBlocks(keys, sccs, order, blocks)
    requires k <= m < |blocks| == |order| && Ready(adj, blocks, k, m)
    ensures Free(cond, order[..k], order[m])
  {
    hide AreBlocks;
    BlockMembers(keys, sccs, order, blocks, m);
    forall i: nat | i < |cond| && order[m] in cond[i]
      ensures i in order[..k]
    {
      var x: nat, y: nat :| x in sccs[order[m]] && y in sccs[i] && Edge(adj, x, y);
      assert y !in blocks[m];
      assert InFirst(blocks, k, y);
      var j :| 0 <= j < k && y in blocks[j];
      BlockMembers(keys, sccs, order, blocks, j);
      assert order[j] == i;
      assert order[..k][j] == i;
    }
  }

  lemma BlocksGreedy(adj: Adjacency, keys: Keys, sccs: seq<seq<nat>>, cond: seq<seq<nat>>, super: seq<real>,
                     order: seq<nat>, blocks: seq<seq<nat>>)
    requires IsPartition(|adj|, sccs) && IsCondensation(adj, sccs, cond) && AreBlocks(keys, sccs, order, blocks)
    requires |super| == |sccs| && forall i :: 0 <= i < |sccs| ==> super[i] == SuperScore(keys, sccs[i])
    requires Distinct(order) && GreedyIndices(cond, super, order)
    ensures Greedy(adj, keys, blocks)
  {
    hide AreBlocks, IsPartition, IsCondensation, Distinct, Ready, Free;
    BlockCount(keys, sccs, order, blocks);
    forall k, m | 0 <= k <= m < |blocks| && Ready(adj, blocks, k, m)
      ensures SuperScore(keys, blocks[k]) >= SuperScore(keys, blocks[m])
    {
      ReadyIsFree(adj, keys, sccs, cond, order, blocks, k, m);
      BlockMembers(keys, sccs, order, blocks, k);
      BlockMembers(keys, sccs, order, blocks, m);
      NotYet(order, k, m);
      assert super[order[k]] >= super[order[m]];
    }
  }

  lemma NotYet(order: seq<nat>, k: nat, m: nat)
    requires Distinct(order) && k <= m < |order|
    ensures order[m] !in order[..k]
  {
  }

  /** The finished run of Kahn's algorithm is a reading order. */
  lemma FinishedOrder(adj: Adjacency, keys: Keys, sccs: seq<seq<nat>>, cond: seq<seq<nat>>, super: seq<real>,
                      indegree: seq<int>, order: seq<nat>, blocks: seq<seq<nat>>)
    requires IsSccList(adj, sccs) && IsCondensation(adj, sccs, cond) && AreBlocks(keys, sccs, order, blocks)
    requires |super| == |sccs| && forall i :: 0 <= i < |sccs| ==> super[i] == SuperScore(keys, sccs[i])
    requires KahnInv(cond, indegree, [], order) && GreedyIndices(cond, super, order)
    ensures IsReadingOrder(adj, keys, blocks)
  {
    hide IsPartition, AreComponents, SinksFirst, AreBlocks, IsCondensation, GreedyIndices, MembersSorted, Greedy, Topological, Distinct;
    CondensationAcyclic(adj, sccs, cond);
    KahnReadsAll(cond, indegree, order, |cond|);
    CondSize(adj, sccs, cond);
    assert IsPermutationOf(|sccs|, order) by {
      forall p | 0 <= p < |order|
        ensures order[p] < |sccs|
      {
        assert order[p] in order;
      }
      DistinctSize(order, Below(|sccs|));
    }
    BlocksPartition(|adj|, keys, sccs, order, blocks);
    BlocksComponents(adj, keys, sccs, order, blocks);
    BlocksSinksFirst(adj, keys, sccs, cond, order, blocks);
    BlocksGreedy(adj, keys, sccs, cond, super, order, blocks);
  }

  lemma CondSize(adj: Adjacency, sccs: seq<seq<nat>>, cond: seq<seq<nat>>)
    requires IsCondensation(adj, sccs, cond)
    ensures |cond| == |sccs|
  {
  }

  lemma FlatAppend(blocks: seq<seq<nat>>, block: seq<nat>)
    ensures Flat(blocks + [block]) == Flat(blocks) + block
  {
    assert (blocks + [block])[..|blocks|] == blocks;
  }

  /** Kahn's loop on a condensation; `blocks` records the sorted members of each popped component. */
  method RunKahn(keys: Keys, sccs: seq<seq<nat>>, super: seq<real>, cond: seq<seq<nat>>, indegree0: seq<int>)
    returns (result: seq<nat>, ghost indegree': seq<int>, ghost order: seq<nat>, ghost blocks: seq<seq<nat>>)
    requires |sccs| == |super| == |cond| == |indegree0|
    requires forall j: nat :: j < |cond| ==> indegree0[j] == Pending(cond, {}, j, |cond|)
    requires forall i: nat, j: nat :: i < |cond| && j in cond[i] ==> j < |cond|
    requires forall i :: 0 <= i < |cond| ==> Distinct(cond[i])
    ensures KahnInv(cond, indegree', [], order) && GreedyIndices(cond, super, order)
    ensures AreBlocks(keys, sccs, order, blocks) && result == Flat(blocks)
  {
    hide KahnInv, GreedyIndices, Distinct, Sort;
    var indegree := indegree0;
    var pq := FillHeap(indegree);
    result, order, blocks := [], [], [];
    KahnStart(cond, indegree, pq);
    assert GreedyIndices(cond, super, order) by { NoneYet(cond, super); }
    while |pq| > 0
      invariant KahnInv(cond, indegree, pq, order) && GreedyIndices(cond, super, order)
      invariant AreBlocks(keys, sccs, order, blocks) && result == Flat(blocks)
      invariant |order| <= |cond| && |indegree| == |cond|
      decreases |cond| - |order|
    {
      HeapFacts(cond, indegree, pq, order);
      ghost var pq0, indegree1 := pq, indegree;
      var si;
      si, pq := PopMax(pq, super);
      var members := Sort((a: nat, b: nat) => keys.Before(a, b), sccs[si]);
      FlatAppend(blocks, members);
      result := result + members;
      EdgesWait(cond, indegree, pq0, order, si);
      indegree, pq := Relax(cond[si], indegree, pq);
      GreedyStep(cond, super, indegree1, pq0, order, si);
      KahnStep(cond, indegree1, pq0, order, si, indegree, pq);
      order, blocks := order + [si], blocks + [members];
      KahnBound(cond, indegree, pq, order);
    }
    assert pq == [];
    indegree' := indegree;
  }

  lemma NoneYet(cond: seq<seq<nat>>, super: seq<real>)
    ensures GreedyIndices(cond, super, [])
  {
  }

  lemma HeapFacts(cond: seq<seq<nat>>, indegree: seq<int>, pq: seq<nat>, order: seq<nat>)
    requires KahnInv(cond, indegree, pq, order)
    ensures Distinct(pq) && |indegree| == |cond| && forall x: nat :: x in pq ==> x < |cond|
  {
  }

  lemma EdgesWait(cond: seq<seq<nat>>, indegree: seq<int>, pq: seq<nat>, order: seq<nat>, si: nat)
    requires KahnInv(cond, indegree, pq, order) && si in pq && si < |cond|
    requires forall j: nat :: j in cond[si] ==> j < |cond|
    ensures forall j: nat :: j in cond[si] ==> j !in pq
  {
    hide KahnInv;
    forall j: nat | j in cond[si]
      ensures j !in pq
    {
      DependentsWait(cond, indegree, pq, order, si, j);
    }
  }

  /** The reading order of a graph. `names` lists the node names, and with them the number of nodes. */
  method Sequence(adj: Adjacency, names: seq<string>, score: seq<real>, cost: seq<real>)
    returns (r: Result<seq<nat>>, ghost blocks: seq<seq<nat>>)
    requires WellFormed(adj) && |names| == |adj|
    ensures r.InvalidArgument? <==> |score| < |adj|
    ensures r.Ok? ==> IsReadingOrder(adj, Keys(score, cost, names), blocks) && r.value == Flat(blocks)
    ensures r.Ok? ==> CyclesInOrder(adj, names, score, cost, r.value)
  {
    hide CyclesInOrder, IsSccList, IsReadingOrder, KahnInv, GreedyIndices, AreBlocks, IsCondensation, Distinct, CondUpTo, ComponentOf;
    blocks := [];
    if |adj| == 0 {
      EmptyOrder(adj, Keys(score, cost, names));
      CycleOrder(adj, names, score, cost, []);
      return Ok([]), blocks;
    }
    if |score| < |adj| {
      return InvalidArgument, blocks;
    }
    ghost var keys := Keys(score, cost, names);
    var sccs := Tarjan.Find(adj);
    SccFacts(adj, sccs);
    var sccOf := MapNodes(|adj|, sccs);
    NodesHaveComponents(adj, sccs, sccOf);
    var super := SuperScores(Keys(score, cost, names), sccs);
    var raw := CondensationEdges(adj, sccOf, |sccs|);
    RawInRange(adj, sccs, sccOf, raw);
    var cond, indegree := DedupAndCount(raw);
    CondensationFound(adj, sccs, sccOf, raw, cond);
    CondensationAcyclic(adj, sccs, cond);
    var result;
    ghost var indegree', order;
    result, indegree', order, blocks := RunKahn(Keys(score, cost, names), sccs, super, cond, indegree);
    FinishedOrder(adj, keys, sccs, cond, super, indegree', order, blocks);
    CycleOrder(adj, names, score, cost, blocks);
    return Ok(result), blocks;
  }

  lemma EmptyOrder(adj: Adjacency, keys: Keys)
    requires |adj| == 0
    ensures IsReadingOrder(adj, keys, [])
  {
  }

  lemma SccFacts(adj: Adjacency, sccs: seq<seq<nat>>)
    requires IsSccList(adj, sccs)
    ensures IsPartition(|adj|, sccs) && SinksFirst(adj, sccs)
    ensures forall i, a :: 0 <= i < |sccs| && 0 <= a < |sccs[i]| ==> sccs[i][a] < |adj|
  {
    hide AreComponents, SinksFirst;
  }

  lemma NodesHaveComponents(adj: Adjacency, sccs: seq<seq<nat>>, sccOf: seq<nat>)
    requires ComponentOf(|adj|, sccs, sccOf)
    ensures |sccOf| == |adj| && forall x: nat :: x < |adj| ==> sccOf[x] < |sccs|
  {
  }

  lemma RawInRange(adj: Adjacency, sccs: seq<seq<nat>>, sccOf: seq<nat>, raw: seq<seq<nat>>)
    requires WellFormed(adj) && IsPartition(|adj|, sccs) && ComponentOf(|adj|, sccs, sccOf)
    requires |raw| == |sccs| && CondUpTo(adj, sccOf, raw, |adj|, 0)
    ensures forall i, j :: 0 <= i < |raw| && j in raw[i] ==> j < |raw|
  {
    hide IsPartition, ComponentOf, DependsUpTo;
    forall i: nat, j: nat | i < |raw| && j in raw[i]
      ensures j < |raw|
    {
      DependsIsSomeEdge(adj, sccs, sccOf, i, j);
    }
  }
}
