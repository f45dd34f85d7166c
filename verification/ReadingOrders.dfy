/** What a reading order is, stated on the finished order alone. */
module ReadingOrders {
  import opened Digraph
  import opened Sorting
  import opened MemberOrder
  import opened TarjanInvariants

  function Flat(blocks: seq<seq<nat>>): seq<nat> {
    if blocks == [] then [] else Flat(blocks[..|blocks| - 1]) + blocks[|blocks| - 1]
  }

  /** The score of a component: the maximum of its members' scores and 0. */
  function SuperScore(k: Keys, block: seq<nat>): real {
    if block == [] then 0.0
    else
      var rest := SuperScore(k, block[..|block| - 1]);
      var last := k.Score(block[|block| - 1]);
      if rest < last then last else rest
  }

  ghost predicate InFirst(blocks: seq<seq<nat>>, k: nat, y: nat)
    requires k <= |blocks|
  {
    exists j :: 0 <= j < k && y in blocks[j]
  }

  /** Everything component m depends on is among the first k components. */
  ghost predicate Ready(adj: Adjacency, blocks: seq<seq<nat>>, k: nat, m: nat)
    requires k <= |blocks| && m < |blocks|
  {
    forall x: nat, y: nat :: x in blocks[m] && Edge(adj, x, y) && y !in blocks[m] ==> InFirst(blocks, k, y)
  }

  /** No component that could have been read at step k has a higher score than the one that was. */
  ghost predicate Greedy(adj: Adjacency, keys: Keys, blocks: seq<seq<nat>>) {
    forall k, m :: 0 <= k <= m < |blocks| && Ready(adj, blocks, k, m) ==>
      SuperScore(keys, blocks[k]) >= SuperScore(keys, blocks[m])
  }

  ghost predicate MembersSorted(keys: Keys, blocks: seq<seq<nat>>) {
    forall i :: 0 <= i < |blocks| ==> SortedBy((a: nat, b: nat) => keys.Before(a, b), blocks[i])
  }

  ghost predicate IsReadingOrder(adj: Adjacency, keys: Keys, blocks: seq<seq<nat>>) {
    && IsSccList(adj, blocks)
    && MembersSorted(keys, blocks)
    && Greedy(adj, keys, blocks)
  }

  // ---- Positions in the flattened list ---------------------------------------------------

  function Start(blocks: seq<seq<nat>>, i: nat): nat
    requires i <= |blocks|
  {
    if i == 0 then 0 else Start(blocks, i - 1) + |blocks[i - 1]|
  }

  lemma {:induction false} StartOfPrefix(blocks: seq<seq<nat>>, n: nat, i: nat)
    requires i <= n <= |blocks|
    ensures Start(blocks[..n], i) == Start(blocks, i)
  {
    if i > 0 {
      StartOfPrefix(blocks, n, i - 1);
    }
  }

  lemma {:induction false} StartMonotone(blocks: seq<seq<nat>>, i: nat, j: nat)
    requires i < j <= |blocks|
    ensures Start(blocks, i) + |blocks[i]| <= Start(blocks, j)
  {
    if i + 1 < j {
      StartMonotone(blocks, i, j - 1);
    }
  }

  lemma {:induction false} FlatLength(blocks: seq<seq<nat>>)
    ensures |Flat(blocks)| == Start(blocks, |blocks|)
  {
    if blocks != [] {
      var n := |blocks| - 1;
      FlatLength(blocks[..n]);
      StartOfPrefix(blocks, n, n);
    }
  }

  /** Component i occupies the stretch of the list that starts at Start(i). */
  lemma {:induction false} FlatAt(blocks: seq<seq<nat>>, i: nat, a: nat)
    requires i < |blocks| && a < |blocks[i]|
    ensures Start(blocks, i) + a < |Flat(blocks)|
    ensures Flat(blocks)[Start(blocks, i) + a] == blocks[i][a]
  {
    var n := |blocks| - 1;
    FlatLength(blocks);
    FlatLength(blocks[..n]);
    StartOfPrefix(blocks, n, n);
    if i < n {
      StartOfPrefix(blocks, n, i);
      StartMonotone(blocks, i, n);
      FlatAt(blocks[..n], i, a);
    }
  }

  /** Every position of the list lies in the stretch of one component. */
  lemma {:induction false} PositionOf(blocks: seq<seq<nat>>, p: nat) returns (i: nat, a: nat)
    requires p < |Flat(blocks)|
    ensures i < |blocks| && a < |blocks[i]| && p == Start(blocks, i) + a
    ensures Flat(blocks)[p] == blocks[i][a]
  {
    var n := |blocks| - 1;
    FlatLength(blocks[..n]);
    StartOfPrefix(blocks, n, n);
    if p < |Flat(blocks[..n])| {
      i, a := PositionOf(blocks[..n], p);
      StartOfPrefix(blocks, n, i);
    } else {
      i, a := n, p - |Flat(blocks[..n])|;
    }
  }

  // ---- What a reader gets from a reading order -------------------------------------------

  lemma SameBlock(adj: Adjacency, blocks: seq<seq<nat>>, i: nat, j: nat, x: nat, y: nat)
    requires IsSccList(adj, blocks) && i < |blocks| && j < |blocks| && x in blocks[i] && y in blocks[j]
    ensures Mutual(adj, x, y) <==> i == j
  {
    hide Mutual, SinksFirst;
    var b :| 0 <= b < |blocks[j]| && blocks[j][b] == y;
    assert blocks[j][b] < |adj|;
    assert y in blocks[i] <==> Mutual(adj, x, y);
  }

  /** Whatever x reaches is in its own block or an earlier one. */
  lemma ReachStaysBefore(adj: Adjacency, blocks: seq<seq<nat>>, i: nat, j: nat, x: nat, y: nat)
    requires WellFormed(adj) && IsSccList(adj, blocks)
    requires i < |blocks| && j < |blocks| && x in blocks[i] && y in blocks[j] && Reach(adj, x, y)
    ensures j <= i
  {
    hide Reach, Mutual, AreComponents;
    var S := set z | z in Below(|adj|) && InFirst(blocks, i + 1, z);
    forall a: nat, b: nat | a in S && Edge(adj, a, b)
      ensures b in S
    {
      EdgeInRange(adj, a, b);
      var ja :| 0 <= ja < i + 1 && a in blocks[ja];
      assert Listed(blocks, b);
      var jb :| 0 <= jb < |blocks| && b in blocks[jb];
      assert jb <= ja;
      assert InFirst(blocks, i + 1, b);
    }
    var c :| 0 <= c < |blocks[i]| && blocks[i][c] == x;
    assert InFirst(blocks, i + 1, x);
    ClosedUnderReach(adj, S, x, y);
    var jy :| 0 <= jy < i + 1 && y in blocks[jy];
  }

  /** Main result on the order: whatever a node needs, directly or not, outside its own cycle
      is read before it. */
  lemma DependenciesFirst(adj: Adjacency, keys: Keys, blocks: seq<seq<nat>>, p: nat, q: nat)
    requires WellFormed(adj) && IsReadingOrder(adj, keys, blocks)
    requires p < |Flat(blocks)| && q < |Flat(blocks)|
    requires Reach(adj, Flat(blocks)[p], Flat(blocks)[q]) && !Mutual(adj, Flat(blocks)[p], Flat(blocks)[q])
    ensures q < p
  {
    hide Reach, Mutual, MembersSorted, Greedy, IsSccList;
    var i, a := PositionOf(blocks, p);
    var j, b := PositionOf(blocks, q);
    ReachStaysBefore(adj, blocks, i, j, Flat(blocks)[p], Flat(blocks)[q]);
    SameBlock(adj, blocks, i, j, Flat(blocks)[p], Flat(blocks)[q]);
    StartMonotone(blocks, j, i);
  }

  /** The members of a cycle stand next to each other, in the order of Keys.Before. */
  lemma CyclesTogether(adj: Adjacency, keys: Keys, blocks: seq<seq<nat>>, p: nat, q: nat, r: nat)
    requires IsReadingOrder(adj, keys, blocks)
    requires p < q <= r < |Flat(blocks)| && Mutual(adj, Flat(blocks)[p], Flat(blocks)[r])
    ensures Mutual(adj, Flat(blocks)[p], Flat(blocks)[q])
    ensures !keys.Before(Flat(blocks)[q], Flat(blocks)[p])
  {
    hide Mutual, Greedy, IsSccList;
    var i, a := PositionOf(blocks, p);
    var j, b := PositionOf(blocks, q);
    var k, c := PositionOf(blocks, r);
    SameBlock(adj, blocks, i, k, Flat(blocks)[p], Flat(blocks)[r]);
    if j < i { StartMonotone(blocks, j, i); }
    if k < j { StartMonotone(blocks, k, j); }
    SameBlock(adj, blocks, i, j, Flat(blocks)[p], Flat(blocks)[q]);
  }

  lemma FlatDistinct(adj: Adjacency, blocks: seq<seq<nat>>)
    requires IsSccList(adj, blocks)
    ensures Distinct(Flat(blocks))
  {
    hide AreComponents, SinksFirst;
    var s := Flat(blocks);
    forall p, q | 0 <= p < q < |s|
      ensures s[p] != s[q]
    {
      var i, a := PositionOf(blocks, p);
      var j, b := PositionOf(blocks, q);
      if i == j {
        assert blocks[i][a] != blocks[i][b];
      } else {
        assert s[p] in blocks[i] && s[q] in blocks[j];
      }
    }
  }

  lemma FlatCovers(adj: Adjacency, blocks: seq<seq<nat>>, x: nat)
    requires IsSccList(adj, blocks) && x < |adj|
    ensures x in Flat(blocks)
  {
    hide AreComponents, SinksFirst;
    assert Listed(blocks, x);
    var i :| 0 <= i < |blocks| && x in blocks[i];
    var a :| 0 <= a < |blocks[i]| && blocks[i][a] == x;
    FlatAt(blocks, i, a);
  }

  ghost predicate IsPermutationOf(n: nat, s: seq<nat>) {
    && |s| == n
    && Distinct(s)
    && (forall p :: 0 <= p < |s| ==> s[p] < n)
    && (forall x: nat :: x < n ==> x in s)
  }

  /** Every node is read exactly once. */
  lemma ReadsEveryNodeOnce(adj: Adjacency, keys: Keys, blocks: seq<seq<nat>>)
    requires IsReadingOrder(adj, keys, blocks)
    ensures IsPermutationOf(|adj|, Flat(blocks))
  {
    hide AreComponents, SinksFirst, MembersSorted, Greedy;
    var s := Flat(blocks);
    FlatDistinct(adj, blocks);
    forall p | 0 <= p < |s|
      ensures s[p] < |adj|
    {
      var i, a := PositionOf(blocks, p);
    }
    forall x: nat | x < |adj|
      ensures x in s
    {
      FlatCovers(adj, blocks, x);
    }
    DistinctSize(s, Below(|adj|));
  }

  /** Of two nodes of one cycle the first has the higher score; with equal scores the lower cost, which is 0 where there is
      none; with equal costs too the name that comes first. */
  ghost predicate CyclesInOrder(adj: Adjacency, names: seq<string>, score: seq<real>, cost: seq<real>, list: seq<nat>) {
    forall p, q :: 0 <= p < q < |list| && Mutual(adj, list[p], list[q]) ==> PairInOrder(names, score, cost, list[p], list[q])
  }

  ghost predicate PairInOrder(names: seq<string>, score: seq<real>, cost: seq<real>, x: nat, y: nat) {
    && x < |names| && y < |names| && x < |score| && y < |score|
    && var costX, costY := if x < |cost| then cost[x] else 0.0, if y < |cost| then cost[y] else 0.0;
       && score[x] >= score[y]
       && (score[x] == score[y] ==> costX <= costY)
       && (score[x] == score[y] && costX == costY ==> names[x] == names[y] || NameFirst(names[x], names[y]))
  }

  lemma CycleOrder(adj: Adjacency, names: seq<string>, score: seq<real>, cost: seq<real>, blocks: seq<seq<nat>>)
    requires IsReadingOrder(adj, Keys(score, cost, names), blocks) && |names| == |adj| <= |score|
    ensures CyclesInOrder(adj, names, score, cost, Flat(blocks))
  {
    hide Mutual, IsReadingOrder, NameFirst, LexLess;
    var list, keys := Flat(blocks), Keys(score, cost, names);
    ReadsEveryNodeOnce(adj, keys, blocks);
    forall p: nat, q: nat | p < q < |list| && Mutual(adj, list[p], list[q])
      ensures PairInOrder(names, score, cost, list[p], list[q])
    {
      CyclesTogether(adj, keys, blocks, p, q, q);
      NotBefore(keys, list[p], list[q]);
    }
  }
}
