/** When the reading order leaves nothing to the heap or to the sort, and when it does. */
module OrderChoice {
  import opened Digraph
  import opened Sorting
  import opened MemberOrder
  import opened TarjanInvariants
  import opened ReadingOrders
  import opened Sequencer

  /** At every step the component that was read has a higher score than every other one that
      could have been read. */
  ghost predicate NoTieAmongReady(adj: Adjacency, keys: Keys, blocks: seq<seq<nat>>) {
    forall k, m :: 0 <= k < m < |blocks| && Ready(adj, blocks, k, m) ==>
      SuperScore(keys, blocks[k]) > SuperScore(keys, blocks[m])
  }

  /** Of two members of one cycle, one comes before the other. */
  ghost predicate NoTieInCycle(keys: Keys, blocks: seq<seq<nat>>) {
    forall i, p, q :: 0 <= i < |blocks| && 0 <= p < q < |blocks[i]| ==> keys.Before(blocks[i][p], blocks[i][q])
  }

  /** The list of blocks that is the only reading order of a graph. */
  ghost predicate OnlyReadingOrder(adj: Adjacency, keys: Keys, blocks: seq<seq<nat>>) {
    forall other :: IsReadingOrder(adj, keys, other) ==> other == blocks
  }

  /** The list of nodes that every reading order of a graph gives. */
  ghost predicate OnlyList(adj: Adjacency, keys: Keys, list: seq<nat>) {
    forall other :: IsReadingOrder(adj, keys, other) ==> Flat(other) == list
  }

  // ---- Without ties there is no choice ---------------------------------------------------

  lemma BlockOf(adj: Adjacency, blocks: seq<seq<nat>>, x: nat) returns (j: nat)
    requires IsPartition(|adj|, blocks) && x < |adj|
    ensures j < |blocks| && x in blocks[j]
  {
    assert Listed(blocks, x);
    var i: nat :| i < |blocks| && x in blocks[i];
    j := i;
  }

  lemma InRange(n: nat, blocks: seq<seq<nat>>, i: nat, x: nat)
    requires IsPartition(n, blocks) && i < |blocks| && x in blocks[i]
    ensures x < n
  {
    var a :| 0 <= a < |blocks[i]| && blocks[i][a] == x;
  }

  lemma HasMember(n: nat, blocks: seq<seq<nat>>, i: nat)
    requires IsPartition(n, blocks) && i < |blocks|
    ensures |blocks[i]| > 0 && blocks[i][0] in blocks[i] && blocks[i][0] < n
  {
  }

  /** Components that share a member have the same members. */
  lemma SameComponent(adj: Adjacency, a: seq<seq<nat>>, b: seq<seq<nat>>, i: nat, j: nat, x: nat)
    requires IsSccList(adj, a) && IsSccList(adj, b) && i < |a| && j < |b| && x in a[i] && x in b[j]
    ensures forall y: nat :: y in a[i] <==> y in b[j]
  {
    hide Mutual, SinksFirst;
    forall y: nat
      ensures y in a[i] <==> y in b[j]
    {
      if y in a[i] { InRange(|adj|, a, i, y); }
      if y in b[j] { InRange(|adj|, b, j, y); }
      if y < |adj| {
        assert y in a[i] <==> Mutual(adj, x, y);
        assert y in b[j] <==> Mutual(adj, x, y);
      }
    }
  }

  /** The component of a node that one order has not read after k steps, in another order that read
      the same k components first. */
  lemma LaterIn(adj: Adjacency, a: seq<seq<nat>>, b: seq<seq<nat>>, k: nat) returns (j: nat)
    requires IsSccList(adj, a) && IsSccList(adj, b) && k < |a| && k <= |b| && a[..k] == b[..k]
    ensures k <= j < |b| && forall y: nat :: y in a[k] <==> y in b[j]
  {
    hide AreComponents, SinksFirst;
    HasMember(|adj|, a, k);
    j := BlockOf(adj, b, a[k][0]);
    SameComponent(adj, a, b, k, j, a[k][0]);
    NotAmongFirst(|adj|, a, b, k, j, a[k][0]);
  }

  lemma NotAmongFirst(n: nat, a: seq<seq<nat>>, b: seq<seq<nat>>, k: nat, j: nat, x: nat)
    requires IsPartition(n, a) && k < |a| && k <= |b| && a[..k] == b[..k]
    requires j < |b| && x in a[k] && x in b[j]
    ensures k <= j
  {
    hide IsPartition;
    if j < k {
      assert a[..k][j] == b[..k][j];
      OnlyBlock(n, a, j, k, x);
    }
  }

  lemma OnlyBlock(n: nat, blocks: seq<seq<nat>>, i: nat, j: nat, x: nat)
    requires IsPartition(n, blocks) && i < |blocks| && j < |blocks| && x in blocks[i] && x in blocks[j]
    ensures i == j
  {
  }

  lemma OwnTurn(adj: Adjacency, blocks: seq<seq<nat>>, k: nat)
    requires WellFormed(adj) && IsSccList(adj, blocks) && k < |blocks|
    ensures Ready(adj, blocks, k, k)
  {
    hide AreComponents;
    forall x: nat, y: nat | x in blocks[k] && Edge(adj, x, y) && y !in blocks[k]
      ensures InFirst(blocks, k, y)
    {
      EdgeInRange(adj, x, y);
      var j := BlockOf(adj, blocks, y);
    }
  }

  lemma ReadyCarries(adj: Adjacency, a: seq<seq<nat>>, b: seq<seq<nat>>, k: nat, i: nat, j: nat)
    requires k <= |a| && k <= |b| && a[..k] == b[..k] && i < |a| && j < |b|
    requires forall y: nat :: y in a[i] <==> y in b[j]
    requires Ready(adj, a, k, i)
    ensures Ready(adj, b, k, j)
  {
    forall x: nat, y: nat | x in b[j] && Edge(adj, x, y) && y !in b[j]
      ensures InFirst(b, k, y)
    {
      assert InFirst(a, k, y);
      var t :| 0 <= t < k && y in a[t];
      assert a[t] == a[..k][t] == b[t];
    }
  }

  /** Two reading orders agree at a step, when the first one has no tie there. */
  lemma AgreeAtStep(adj: Adjacency, keys: Keys, a: seq<seq<nat>>, b: seq<seq<nat>>, k: nat)
    requires WellFormed(adj) && IsReadingOrder(adj, keys, a) && IsReadingOrder(adj, keys, b)
    requires NoTieAmongReady(adj, keys, a) && NoTieInCycle(keys, a)
    requires k < |a| && k <= |b| && a[..k] == b[..k]
    ensures k < |b| && a[k] == b[k]
  {
    hide IsSccList, MembersSorted, Ready, WellFormed, NoTieInCycle;
    var j := LaterIn(adj, a, b, k);
    var i := LaterIn(adj, b, a, k);
    OwnTurn(adj, a, k);
    OwnTurn(adj, b, k);
    ReadyCarries(adj, a, b, k, k, j);
    ReadyCarries(adj, b, a, k, k, i);
    SuperScoreSame(keys, a[k], b[j]);
    SuperScoreSame(keys, b[k], a[i]);
    assert i == k;
    AgreeInCycle(adj, keys, a, b, k);
  }

  lemma AgreeInCycle(adj: Adjacency, keys: Keys, a: seq<seq<nat>>, b: seq<seq<nat>>, k: nat)
    requires IsSccList(adj, a) && IsSccList(adj, b) && MembersSorted(keys, b) && NoTieInCycle(keys, a)
    requires k < |a| && k < |b| && forall y: nat :: y in b[k] <==> y in a[k]
    ensures a[k] == b[k]
  {
    hide AreComponents, SinksFirst;
    StrictIsOnlySort((x: nat, y: nat) => keys.Before(x, y), a[k], b[k]);
  }

  lemma {:induction false} AgreeUpTo(adj: Adjacency, keys: Keys, a: seq<seq<nat>>, b: seq<seq<nat>>, k: nat)
    requires WellFormed(adj) && IsReadingOrder(adj, keys, a) && IsReadingOrder(adj, keys, b)
    requires NoTieAmongReady(adj, keys, a) && NoTieInCycle(keys, a)
    requires k <= |a|
    ensures k <= |b| && a[..k] == b[..k]
  {
    hide IsReadingOrder, NoTieAmongReady, NoTieInCycle;
    if k > 0 {
      AgreeUpTo(adj, keys, a, b, k - 1);
      AgreeAtStep(adj, keys, a, b, k - 1);
      assert a[..k] == a[..k - 1] + [a[k - 1]];
    }
  }

  lemma NoTieNoChoice(adj: Adjacency, keys: Keys, a: seq<seq<nat>>)
    requires WellFormed(adj) && IsReadingOrder(adj, keys, a)
    requires NoTieAmongReady(adj, keys, a) && NoTieInCycle(keys, a)
    ensures OnlyReadingOrder(adj, keys, a)
  {
    forall b | IsReadingOrder(adj, keys, b)
      ensures b == a
    {
      hide IsSccList, MembersSorted, Greedy, NoTieAmongReady, NoTieInCycle;
      AgreeUpTo(adj, keys, a, b, |a|);
      assert a[..|a|] == a;
      if |a| < |b| {
        var j := LaterIn(adj, b, a, |a|);
      }
    }
  }

  // ---- A tie inside a cycle leaves a choice ----------------------------------------------

  /** Lists with the same members block by block are reading orders together. */
  lemma SameBlocks(adj: Adjacency, keys: Keys, a: seq<seq<nat>>, b: seq<seq<nat>>)
    requires IsReadingOrder(adj, keys, a) && |b| == |a| && MembersSorted(keys, b)
    requires forall i :: 0 <= i < |a| ==> |b[i]| == |a[i]| && Distinct(b[i]) && forall x: nat :: x in b[i] <==> x in a[i]
    ensures IsReadingOrder(adj, keys, b)
  {
    assert IsPartition(|adj|, b) by {
      hide AreComponents, SinksFirst, MembersSorted, Greedy;
      forall i, p | 0 <= i < |b| && 0 <= p < |b[i]|
        ensures b[i][p] < |adj|
      {
        assert b[i][p] in b[i];
        InRange(|adj|, a, i, b[i][p]);
      }
      forall x: nat | x < |adj|
        ensures Listed(b, x)
      {
        var i := BlockOf(adj, a, x);
      }
    }
    assert AreComponents(adj, b) by {
      hide Mutual, IsPartition, SinksFirst, MembersSorted, Greedy;
    }
    assert SinksFirst(adj, b) by {
      hide AreComponents, IsPartition, MembersSorted, Greedy;
    }
    assert Greedy(adj, keys, b) by {
      hide IsSccList, MembersSorted;
      forall k, m | 0 <= k <= m < |b| && Ready(adj, b, k, m)
        ensures SuperScore(keys, b[k]) >= SuperScore(keys, b[m])
      {
        ReadySame(adj, a, b, k, m);
        SuperScoreSame(keys, b[k], a[k]);
        SuperScoreSame(keys, b[m], a[m]);
      }
    }
  }

  lemma ReadySame(adj: Adjacency, a: seq<seq<nat>>, b: seq<seq<nat>>, k: nat, m: nat)
    requires k <= m < |a| == |b| && Ready(adj, b, k, m)
    requires forall i :: 0 <= i < |a| ==> forall x: nat :: x in b[i] <==> x in a[i]
    ensures Ready(adj, a, k, m)
  {
    forall x: nat, y: nat | x in a[m] && Edge(adj, x, y) && y !in a[m]
      ensures InFirst(a, k, y)
    {
      assert InFirst(b, k, y);
      var t :| 0 <= t < k && y in b[t];
    }
  }

  function Swapped(s: seq<nat>, p: nat, q: nat): seq<nat>
    requires p < q < |s|
  {
    s[p := s[q]][q := s[p]]
  }

  lemma SwappedSorted(keys: Keys, s: seq<nat>, p: nat, q: nat)
    requires p < q < |s| && Distinct(s) && SortedBy((x: nat, y: nat) => keys.Before(x, y), s)
    requires !keys.Before(s[p], s[q])
    ensures Distinct(Swapped(s, p, q)) && Swapped(s, p, q) != s
    ensures forall x: nat :: x in Swapped(s, p, q) <==> x in s
    ensures SortedBy((x: nat, y: nat) => keys.Before(x, y), Swapped(s, p, q))
  {
    var t := Swapped(s, p, q);
    assert !keys.Before(s[q], s[p]);
    LexTotal(keys.Name(s[p]), keys.Name(s[q]));
    assert t[p] != s[p];
    forall x: nat
      ensures x in t <==> x in s
    {
      assert t[p] == s[q] && t[q] == s[p];
      if x in s {
        var i :| 0 <= i < |s| && s[i] == x;
        assert x == t[if i == p then q else if i == q then p else i];
      }
    }
    forall i, j | 0 <= i < j < |t|
      ensures !keys.Before(t[j], t[i])
    {
      assert !keys.Before(s[j], s[i]);
    }
  }

  ghost predicate SameMembersEach(a: seq<seq<nat>>, b: seq<seq<nat>>) {
    && |a| == |b|
    && forall i :: 0 <= i < |a| ==> |b[i]| == |a[i]| && Distinct(b[i]) && forall x: nat :: x in b[i] <==> x in a[i]
  }

  lemma TieInCycle(adj: Adjacency, keys: Keys, a: seq<seq<nat>>)
    requires IsReadingOrder(adj, keys, a) && !NoTieInCycle(keys, a)
    ensures !OnlyReadingOrder(adj, keys, a)
  {
    var i, p, q :| 0 <= i < |a| && 0 <= p < q < |a[i]| && !keys.Before(a[i][p], a[i][q]);
    var b := a[i := Swapped(a[i], p, q)];
    hide IsPartition, AreComponents, SinksFirst, Greedy, NoTieInCycle, SortedBy;
    assert SortedBlock(keys, a[i]) by { BlocksSortedDistinct(adj, keys, a); }
    SwappedSorted(keys, a[i], p, q);
    SwappedBlocks(adj, keys, a, i, Swapped(a[i], p, q));
    SameBlocks(adj, keys, a, b);
    assert b[i] != a[i];
  }

  ghost predicate SortedBlock(keys: Keys, s: seq<nat>) {
    Distinct(s) && SortedBy((x: nat, y: nat) => keys.Before(x, y), s)
  }

  lemma BlocksSortedDistinct(adj: Adjacency, keys: Keys, a: seq<seq<nat>>)
    requires IsReadingOrder(adj, keys, a)
    ensures forall i :: 0 <= i < |a| ==> SortedBlock(keys, a[i])
  {
    hide AreComponents, SinksFirst, Greedy, SortedBy;
  }

  lemma SwappedBlocks(adj: Adjacency, keys: Keys, a: seq<seq<nat>>, i: nat, block: seq<nat>)
    requires IsReadingOrder(adj, keys, a) && i < |a| && SortedBlock(keys, block)
    requires |block| == |a[i]| && forall x: nat :: x in block <==> x in a[i]
    ensures MembersSorted(keys, a[i := block]) && SameMembersEach(a, a[i := block])
  {
    hide IsSccList, Greedy, SortedBy, Distinct;
    BlocksSortedDistinct(adj, keys, a);
  }

  // ---- A tie among ready components leaves a choice --------------------------------------

  /** The components below n that depend on component i. */
  ghost function DependentsOf(adj: Adjacency, blocks: seq<seq<nat>>, i: nat, n: nat): (r: seq<nat>)
    requires i < |blocks| && n <= |blocks|
    ensures forall j: nat :: j in r <==> j < n && j != i && SomeEdge(adj, blocks[j], blocks[i])
  {
    if n == 0 then []
    else
      DependentsOf(adj, blocks, i, n - 1) + if n - 1 != i && SomeEdge(adj, blocks[n - 1], blocks[i]) then [n - 1] else []
  }

  ghost function CondensationOf(adj: Adjacency, blocks: seq<seq<nat>>): seq<seq<nat>> {
    seq(|blocks|, i requires 0 <= i < |blocks| => DependentsOf(adj, blocks, i, |blocks|))
  }

  lemma IsCondensationOf(adj: Adjacency, blocks: seq<seq<nat>>)
    ensures IsCondensation(adj, blocks, CondensationOf(adj, blocks))
  {
    var cond := CondensationOf(adj, blocks);
    forall i: nat, j: nat | i < |blocks|
      ensures j in cond[i] <==> j < |blocks| && i != j && SomeEdge(adj, blocks[j], blocks[i])
    {
      assert cond[i] == DependentsOf(adj, blocks, i, |blocks|);
    }
  }

  ghost predicate KahnPrefix(cond: seq<seq<nat>>, super: seq<real>, order: seq<nat>) {
    && |super| == |cond| && Distinct(order) && (forall x: nat :: x in order ==> x < |cond|)
    && Topological(cond, order) && GreedyIndices(cond, super, order)
  }

  ghost predicate MayFollow(cond: seq<seq<nat>>, order: seq<nat>, j: nat) {
    j < |cond| && j !in order && Free(cond, order, j)
  }

  /** The first unread component below n, if any, depends on read ones only. */
  lemma {:induction false} SomeFree(cond: seq<seq<nat>>, order: seq<nat>, n: nat) returns (j: nat)
    requires forall i: nat, j: nat :: i < |cond| && j in cond[i] ==> i < j
    requires n <= |cond| && exists x: nat :: x < n && x !in order
    ensures MayFollow(cond, order, j)
  {
    if exists x: nat :: x < n - 1 && x !in order {
      j := SomeFree(cond, order, n - 1);
    } else {
      j := n - 1;
    }
  }

  /** Of the components that may follow, one has the highest score. */
  lemma {:induction false} BestFree(cond: seq<seq<nat>>, super: seq<real>, order: seq<nat>, n: nat, j0: nat) returns (j: nat)
    requires |super| == |cond| && n <= |cond| && MayFollow(cond, order, j0)
    ensures MayFollow(cond, order, j) && super[j] >= super[j0]
    ensures forall x: nat :: x < n && MayFollow(cond, order, x) ==> super[x] <= super[j]
  {
    hide MayFollow;
    assert j0 < |cond| by { InCond(cond, order, j0); }
    j := j0;
    if n > 0 {
      j := BestFree(cond, super, order, n - 1, j0);
      InCond(cond, order, j);
      if MayFollow(cond, order, n - 1) && super[j] < super[n - 1] { j := n - 1; }
    }
  }

  lemma InCond(cond: seq<seq<nat>>, order: seq<nat>, j: nat)
    requires MayFollow(cond, order, j)
    ensures j < |cond|
  {
  }

  lemma PrefixStep(cond: seq<seq<nat>>, super: seq<real>, order: seq<nat>, si: nat)
    requires KahnPrefix(cond, super, order) && MayFollow(cond, order, si)
    requires forall x: nat :: x < |cond| && MayFollow(cond, order, x) ==> super[x] <= super[si]
    ensures KahnPrefix(cond, super, order + [si])
  {
    hide Free, Topological;
    var next := order + [si];
    TopologicalStep(cond, order, si);
    forall t, j: nat | 0 <= t < |next| && j < |super| && next[t] < |super| && j !in next[..t] && Free(cond, next[..t], j)
      ensures super[next[t]] >= super[j]
    {
      if t < |order| {
        assert next[..t] == order[..t];
      } else {
        assert next[..t] == order;
        assert MayFollow(cond, order, j);
      }
    }
  }

  /** What Kahn's algorithm has read so far can always be completed. */
  lemma {:induction false} Complete(cond: seq<seq<nat>>, super: seq<real>, order: seq<nat>) returns (full: seq<nat>)
    requires KahnPrefix(cond, super, order)
    requires forall i: nat, j: nat :: i < |cond| && j in cond[i] ==> i < j
    ensures order <= full && IsPermutationOf(|cond|, full) && KahnPrefix(cond, super, full)
    decreases |cond| - |order|
  {
    hide Topological, GreedyIndices, MayFollow;
    DistinctSize(order, Done(order));
    SubsetSize(Done(order), Below(|cond|));
    if exists x: nat :: x < |cond| && x !in order {
      var j0 := SomeFree(cond, order, |cond|);
      var j := BestFree(cond, super, order, |cond|, j0);
      PrefixStep(cond, super, order, j);
      DistinctSize(order + [j], Done(order + [j]));
      SubsetSize(Done(order + [j]), Below(|cond|));
      full := Complete(cond, super, order + [j]);
    } else {
      full := order;
      forall p | 0 <= p < |full|
        ensures full[p] < |cond|
      {
        assert full[p] in full;
      }
      DistinctSize(full, Below(|cond|));
    }
  }

  function FirstIndices(k: nat): (r: seq<nat>)
    ensures |r| == k && forall i :: 0 <= i < k ==> r[i] == i
  {
    if k == 0 then [] else FirstIndices(k - 1) + [k - 1]
  }

  lemma {:induction false} FirstOfFirst(k: nat, t: nat)
    requires t <= k
    ensures FirstIndices(k)[..t] == FirstIndices(t)
  {
    if t < k {
      FirstOfFirst(k - 1, t);
      assert FirstIndices(k)[..t] == FirstIndices(k - 1)[..t];
    }
  }

  lemma IndexIn(k: nat, m: nat)
    requires m < k
    ensures m in FirstIndices(k)
  {
    assert FirstIndices(k)[m] == m;
  }

  ghost function Supers(keys: Keys, blocks: seq<seq<nat>>): (r: seq<real>)
    ensures |r| == |blocks| && forall i :: 0 <= i < |blocks| ==> r[i] == SuperScore(keys, blocks[i])
  {
    seq(|blocks|, i requires 0 <= i < |blocks| => SuperScore(keys, blocks[i]))
  }

  /** Being ready after k components is depending on none but the first k. */
  lemma ReadyIffFree(adj: Adjacency, blocks: seq<seq<nat>>, cond: seq<seq<nat>>, k: nat, m: nat)
    requires WellFormed(adj) && IsPartition(|adj|, blocks) && IsCondensation(adj, blocks, cond)
    requires k <= |blocks| && k <= m < |blocks|
    ensures Ready(adj, blocks, k, m) <==> Free(cond, FirstIndices(k), m)
  {
    if Ready(adj, blocks, k, m) {
      forall i: nat | i < |cond| && m in cond[i]
        ensures i in FirstIndices(k)
      {
        assert SomeEdge(adj, blocks[m], blocks[i]);
        var x: nat, y: nat :| x in blocks[m] && y in blocks[i] && Edge(adj, x, y);
        assert y !in blocks[m];
        assert InFirst(blocks, k, y);
        var j :| 0 <= j < k && y in blocks[j];
        assert FirstIndices(k)[j] == j == i;
      }
    }
    if Free(cond, FirstIndices(k), m) {
      forall x: nat, y: nat | x in blocks[m] && Edge(adj, x, y) && y !in blocks[m]
        ensures InFirst(blocks, k, y)
      {
        EdgeInRange(adj, x, y);
        var i := BlockOf(adj, blocks, y);
        assert SomeEdge(adj, blocks[m], blocks[i]);
        assert m in cond[i];
        assert i in FirstIndices(k);
      }
    }
  }

  lemma MayFollowIsReady(adj: Adjacency, blocks: seq<seq<nat>>, cond: seq<seq<nat>>, k: nat, m: nat)
    requires WellFormed(adj) && IsPartition(|adj|, blocks) && IsCondensation(adj, blocks, cond)
    requires k <= |blocks| && MayFollow(cond, FirstIndices(k), m)
    ensures k <= m < |blocks| && Ready(adj, blocks, k, m)
  {
    hide IsPartition, Ready, SomeEdge, WellFormed;
    if m < k {
      IndexIn(k, m);
    }
    ReadyIffFree(adj, blocks, cond, k, m);
  }

  /** A reading order, as far as it goes, is a run of Kahn's algorithm on its own components. */
  lemma {:induction false} OwnPrefix(adj: Adjacency, keys: Keys, a: seq<seq<nat>>, cond: seq<seq<nat>>, k: nat)
    requires WellFormed(adj) && IsReadingOrder(adj, keys, a) && IsCondensation(adj, a, cond) && k <= |a|
    ensures KahnPrefix(cond, Supers(keys, a), FirstIndices(k))
  {
    hide AreComponents, SinksFirst, MembersSorted, Ready, IsPartition, KahnPrefix, WellFormed, Greedy, MayFollow;
    if k == 0 {
      EmptyPrefix(cond, Supers(keys, a));
    } else {
      var n: nat := k - 1;
      OwnPrefix(adj, keys, a, cond, n);
      OwnTurn(adj, a, n);
      NextMayFollow(adj, keys, a, cond, n, n);
    }
  }

  lemma EmptyPrefix(cond: seq<seq<nat>>, super: seq<real>)
    requires |super| == |cond|
    ensures KahnPrefix(cond, super, [])
  {
  }

  /** After k components, a ready one whose score is that of the next may be read instead. */
  lemma NextMayFollow(adj: Adjacency, keys: Keys, a: seq<seq<nat>>, cond: seq<seq<nat>>, k: nat, m: nat)
    requires WellFormed(adj) && IsReadingOrder(adj, keys, a) && IsCondensation(adj, a, cond)
    requires k <= m < |a| && Ready(adj, a, k, m) && SuperScore(keys, a[m]) >= SuperScore(keys, a[k])
    requires KahnPrefix(cond, Supers(keys, a), FirstIndices(k))
    ensures KahnPrefix(cond, Supers(keys, a), FirstIndices(k) + [m])
  {
    hide AreComponents, SinksFirst, MembersSorted, Ready, IsPartition, KahnPrefix, WellFormed, IsCondensation;
    var super := Supers(keys, a);
    ReadyIffFree(adj, a, cond, k, m);
    assert |cond| == |a| by { CondSize(adj, a, cond); }
    forall x: nat | x < |cond| && MayFollow(cond, FirstIndices(k), x)
      ensures super[x] <= super[m]
    {
      MayFollowIsReady(adj, a, cond, k, x);
    }
    PrefixStep(cond, super, FirstIndices(k), m);
  }

  ghost function SortedBlocks(keys: Keys, a: seq<seq<nat>>, order: seq<nat>): (blocks: seq<seq<nat>>)
    requires forall p :: 0 <= p < |order| ==> order[p] < |a|
    ensures AreBlocks(keys, a, order, blocks)
  {
    seq(|order|, t requires 0 <= t < |order| => Sort((x: nat, y: nat) => keys.Before(x, y), a[order[t]]))
  }

  lemma TieAmongReady(adj: Adjacency, keys: Keys, a: seq<seq<nat>>)
    requires WellFormed(adj) && IsReadingOrder(adj, keys, a) && !NoTieAmongReady(adj, keys, a)
    ensures !OnlyReadingOrder(adj, keys, a)
  {
    hide IsSccList, MembersSorted, Ready, WellFormed, Greedy, KahnPrefix, IsCondensation, AreBlocks;
    var k: nat, m: nat :| k < m < |a| && Ready(adj, a, k, m) && !(SuperScore(keys, a[k]) > SuperScore(keys, a[m]));
    var cond, super := CondensationOf(adj, a), Supers(keys, a);
    IsCondensationOf(adj, a);
    SccFacts(adj, a);
    CondensationAcyclic(adj, a, cond);
    CondSize(adj, a, cond);
    OwnPrefix(adj, keys, a, cond, k);
    NextMayFollow(adj, keys, a, cond, k, m);
    var order := Complete(cond, super, FirstIndices(k) + [m]);
    var b := SortedBlocks(keys, a, order);
    RunIsOrder(adj, keys, a, cond, super, order, b);
    assert order[k] == m;
    if b == a {
      BlockMembers(keys, a, order, b, k);
      HasMember(|adj|, a, k);
      OnlyBlock(|adj|, a, k, m, a[k][0]);
    }
  }

  lemma RunIsOrder(adj: Adjacency, keys: Keys, a: seq<seq<nat>>, cond: seq<seq<nat>>, super: seq<real>,
                   order: seq<nat>, blocks: seq<seq<nat>>)
    requires IsSccList(adj, a) && IsCondensation(adj, a, cond) && AreBlocks(keys, a, order, blocks)
    requires super == Supers(keys, a)
    requires IsPermutationOf(|a|, order) && KahnPrefix(cond, super, order)
    ensures IsReadingOrder(adj, keys, blocks)
  {
    hide IsPartition, AreComponents, SinksFirst, AreBlocks, IsCondensation, GreedyIndices, MembersSorted, Greedy, Topological, Distinct;
    BlocksPartition(|adj|, keys, a, order, blocks);
    BlocksComponents(adj, keys, a, order, blocks);
    BlocksSinksFirst(adj, keys, a, cond, order, blocks);
    BlocksGreedy(adj, keys, a, cond, super, order, blocks);
  }

  // ---- Exactly when the order is determined ----------------------------------------------

  lemma OneOrderIff(adj: Adjacency, keys: Keys, a: seq<seq<nat>>)
    requires WellFormed(adj) && IsReadingOrder(adj, keys, a)
    ensures OnlyReadingOrder(adj, keys, a) <==> NoTieAmongReady(adj, keys, a) && NoTieInCycle(keys, a)
  {
    hide WellFormed, IsReadingOrder, NoTieAmongReady, NoTieInCycle, OnlyReadingOrder;
    if NoTieAmongReady(adj, keys, a) && NoTieInCycle(keys, a) {
      NoTieNoChoice(adj, keys, a);
    } else if NoTieInCycle(keys, a) {
      TieAmongReady(adj, keys, a);
    } else {
      TieInCycle(adj, keys, a);
    }
  }

  /** The list of nodes gives back the components it was made of. */
  lemma {:induction false} FlatDetermines(adj: Adjacency, a: seq<seq<nat>>, b: seq<seq<nat>>, k: nat)
    requires IsSccList(adj, a) && IsSccList(adj, b) && Flat(a) == Flat(b) && k <= |a|
    ensures k <= |b| && a[..k] == b[..k]
  {
    hide IsSccList;
    if k > 0 {
      var n: nat := k - 1;
      FlatDetermines(adj, a, b, n);
      SameStart(adj, a, b, n);
      assert a[..k] == a[..n] + [a[n]];
    }
  }

  lemma SameStart(adj: Adjacency, a: seq<seq<nat>>, b: seq<seq<nat>>, k: nat)
    requires IsSccList(adj, a) && IsSccList(adj, b) && Flat(a) == Flat(b)
    requires k < |a| && k <= |b| && a[..k] == b[..k]
    ensures k < |b| && a[k] == b[k]
  {
    hide AreComponents, SinksFirst;
    StartOfPrefix(a, k, k);
    StartOfPrefix(b, k, k);
    HasMember(|adj|, a, k);
    FlatAt(a, k, 0);
    if k == |b| {
      FlatLength(b);
    } else {
      HasMember(|adj|, b, k);
      FlatAt(b, k, 0);
      SameComponent(adj, a, b, k, k, a[k][0]);
      SameSize(a[k], b[k]);
      forall p: nat | p < |a[k]|
        ensures a[k][p] == b[k][p]
      {
        FlatAt(a, k, p);
        FlatAt(b, k, p);
      }
    }
  }

  lemma SameSize(s: seq<nat>, t: seq<nat>)
    requires forall p, q :: 0 <= p < q < |s| ==> s[p] != s[q]
    requires forall p, q :: 0 <= p < q < |t| ==> t[p] != t[q]
    requires forall x: nat :: x in s <==> x in t
    ensures |s| == |t|
  {
    DistinctSize(s, set x | x in s);
    DistinctSize(t, set x | x in s);
  }

  lemma SameListSameBlocks(adj: Adjacency, a: seq<seq<nat>>, b: seq<seq<nat>>)
    requires IsSccList(adj, a) && IsSccList(adj, b) && Flat(a) == Flat(b)
    ensures a == b
  {
    hide IsSccList;
    FlatDetermines(adj, a, b, |a|);
    FlatDetermines(adj, b, a, |b|);
    assert a[..|a|] == a && b[..|b|] == b;
  }

  /** Main result on ties: the list of nodes is determined by the graph and the keys exactly when,
      along one reading order, no other ready component has the score of the one that is read, and
      of two members of one cycle one comes before the other. */
  lemma DeterminedIff(adj: Adjacency, keys: Keys, a: seq<seq<nat>>)
    requires WellFormed(adj) && IsReadingOrder(adj, keys, a)
    ensures OnlyList(adj, keys, Flat(a)) <==> NoTieAmongReady(adj, keys, a) && NoTieInCycle(keys, a)
  {
    hide WellFormed, IsSccList, NoTieAmongReady, NoTieInCycle, MembersSorted, Greedy;
    OneOrderIff(adj, keys, a);
    if OnlyList(adj, keys, Flat(a)) {
      forall b | IsReadingOrder(adj, keys, b)
        ensures b == a
      {
        SameListSameBlocks(adj, a, b);
      }
    }
  }

  /** Where no two components have the same score and no two nodes the same name, there is one order. */
  lemma DistinctKeysOneOrder(adj: Adjacency, keys: Keys, a: seq<seq<nat>>, b: seq<seq<nat>>)
    requires WellFormed(adj) && IsReadingOrder(adj, keys, a) && IsReadingOrder(adj, keys, b)
    requires forall i, j :: 0 <= i < j < |a| ==> SuperScore(keys, a[i]) != SuperScore(keys, a[j])
    requires forall x: nat, y: nat :: x < y < |adj| ==> keys.Name(x) != keys.Name(y)
    ensures a == b
  {
    NamesDecide(adj, keys, a);
    assert NoTieAmongReady(adj, keys, a) by {
      hide IsSccList, MembersSorted, Ready;
    }
    OneOrderIff(adj, keys, a);
  }

  /** Names decide inside a cycle, as node names are distinct. */
  lemma NamesDecide(adj: Adjacency, keys: Keys, a: seq<seq<nat>>)
    requires IsReadingOrder(adj, keys, a)
    requires forall x: nat, y: nat :: x < y < |adj| ==> keys.Name(x) != keys.Name(y)
    ensures NoTieInCycle(keys, a)
  {
    forall i, p, q | 0 <= i < |a| && 0 <= p < q < |a[i]|
      ensures keys.Before(a[i][p], a[i][q])
    {
      var x, y := a[i][p], a[i][q];
      assert keys.Name(x) != keys.Name(y) by {
        assert x != y;
        assert if x < y then keys.Name(x) != keys.Name(y) else keys.Name(y) != keys.Name(x);
      }
      assert !keys.Before(y, x);
      if !LexLess(keys.Name(x), keys.Name(y)) && !LexLess(keys.Name(y), keys.Name(x)) {
        LexTotal(keys.Name(x), keys.Name(y));
      }
    }
  }

  /** Two files without edges and with the same score: the one of higher cost and later name may be
      read first. */
  lemma CostDoesNotDecide()
    ensures var keys := Keys([0.5, 0.5], [1.0, 2.0], ["a", "b"]);
      keys.Before(0, 1) && IsReadingOrder([[], []], keys, [[0], [1]]) && IsReadingOrder([[], []], keys, [[1], [0]])
  {
    var keys := Keys([0.5, 0.5], [1.0, 2.0], ["a", "b"]);
    SingleBlocks(keys, [[0], [1]]);
    SingleBlocks(keys, [[1], [0]]);
  }

  lemma SingleBlocks(keys: Keys, blocks: seq<seq<nat>>)
    requires blocks == [[0], [1]] || blocks == [[1], [0]]
    requires keys.score == [0.5, 0.5]
    ensures IsReadingOrder([[], []], keys, blocks)
  {
    var adj: Adjacency := [[], []];
    assert Greedy(adj, keys, blocks) by {
      hide Ready;
      SingleScores(keys, blocks);
    }
    assert IsPartition(2, blocks) by {
      hide Greedy;
      assert Listed(blocks, 0) && Listed(blocks, 1) by {
        assert 0 in blocks[0] || 0 in blocks[1];
        assert 1 in blocks[0] || 1 in blocks[1];
      }
    }
    hide Greedy, Mutual, IsPartition;
    forall i, x: nat, y: nat | 0 <= i < 2 && x in blocks[i] && y < 2
      ensures y in blocks[i] <==> Mutual(adj, x, y)
    {
      NoEdges(adj, x, y);
    }
  }

  lemma SingleScores(keys: Keys, blocks: seq<seq<nat>>)
    requires blocks == [[0], [1]] || blocks == [[1], [0]]
    requires keys.score == [0.5, 0.5]
    ensures forall i :: 0 <= i < 2 ==> SuperScore(keys, blocks[i]) == 0.5
  {
    forall i | 0 <= i < 2
      ensures SuperScore(keys, blocks[i]) == 0.5
    {
      SuperScoreIsMax(keys, blocks[i]);
      assert blocks[i] == [blocks[i][0]];
      assert keys.Score(blocks[i][0]) == 0.5;
    }
  }

  lemma NoEdges(adj: Adjacency, x: nat, y: nat)
    requires adj == [[], []] && x < 2
    ensures Mutual(adj, x, y) <==> x == y
  {
    ReachRefl(adj, x);
    if Reach(adj, x, y) { ClosedUnderReach(adj, {x}, x, y); }
  }
}
