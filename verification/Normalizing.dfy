/** percentile_rank_normalize and the min-max alternative: what a value means is where it stands among the
    others. */
module Normalizing {
  import opened Sums
  import opened Sorting
  import opened Counting

  function Below(x: real): real -> bool {
    (v: real) => v < x
  }

  function Less(): (real, real) -> bool {
    (a: real, b: real) => a < b
  }

  predicate AllEqual(values: seq<real>) {
    forall i, j :: 0 <= i < j < |values| ==> values[i] == values[j]
  }

  /** The share of the other values that are strictly smaller. */
  ghost function RankOf(values: seq<real>, x: real): real
    requires |values| >= 2
  {
    Count(values, Below(x)) as real / (|values| - 1) as real
  }

  /** The percentile ranks: 0 for a single value, 0.5 throughout if all are equal. */
  ghost predicate IsPercentileRank(values: seq<real>, ranks: seq<real>) {
    && |ranks| == |values|
    && (|values| == 1 ==> ranks[0] == 0.0)
    && forall i :: 0 <= i < |values| && |values| >= 2 ==>
         ranks[i] == if AllEqual(values) then 0.5 else RankOf(values, values[i])
  }

  /** std::lower_bound on a sorted list: the number of smaller values. */
  method LowerBound(sorted: seq<real>, x: real) returns (at: nat)
    requires SortedBy(Less(), sorted)
    ensures at == Count(sorted, Below(x))
  {
    at := 0;
    var length := |sorted|;
    while length > 0
      invariant 0 <= length && at + length <= |sorted|
      invariant forall i :: 0 <= i < at ==> sorted[i] < x
      invariant forall i :: at + length <= i < |sorted| ==> sorted[i] >= x
    {
      var half := length / 2;
      var mid := at + half;
      if sorted[mid] < x {
        forall i | 0 <= i <= mid
          ensures sorted[i] < x
        {
          if i < mid { assert !Less()(sorted[mid], sorted[i]); }
        }
        at := mid + 1;
        length := length - half - 1;
      } else {
        forall i | mid <= i < |sorted|
          ensures sorted[i] >= x
        {
          if mid < i { assert !Less()(sorted[i], sorted[mid]); }
        }
        length := half;
      }
    }
    CountSplit(sorted, at, Below(x));
    CountIsAll(sorted[..at], Below(x));
    CountIsZero(sorted[at..], Below(x));
  }

  lemma LessIsWeak()
    ensures WeakOrder(Less())
  {
  }

  /** In sorted order, the first value equals the last one exactly if all are equal. */
  lemma EndsEqual(values: seq<real>, sorted: seq<real>)
    requires multiset(sorted) == multiset(values) && SortedBy(Less(), sorted) && |sorted| == |values| > 0
    ensures sorted[0] == sorted[|sorted| - 1] <==> AllEqual(values)
  {
    SameMembers(sorted, values);
    var n := |sorted| - 1;
    assert sorted[0] in sorted && sorted[n] in sorted;
    if sorted[0] == sorted[n] {
      forall i | 0 <= i < |values|
        ensures values[i] == sorted[0]
      {
        assert values[i] in values;
        var k :| 0 <= k < |sorted| && sorted[k] == values[i];
        assert k > 0 ==> !Less()(sorted[k], sorted[0]);
        assert k < n ==> !Less()(sorted[n], sorted[k]);
      }
    } else {
      assert sorted[0] in values && sorted[n] in values;
      var i :| 0 <= i < |values| && values[i] == sorted[0];
      var j :| 0 <= j < |values| && values[j] == sorted[n];
      assert if i < j then values[i] != values[j] else values[j] != values[i];
    }
  }

  lemma RankByCount(values: seq<real>, sorted: seq<real>, x: real)
    requires multiset(sorted) == multiset(values) && |values| >= 2
    ensures Count(sorted, Below(x)) as real / (|values| - 1) as real == RankOf(values, x)
  {
    CountPermutation(sorted, values, Below(x));
  }

  method PercentileRankNormalize(values: seq<real>) returns (ranks: seq<real>)
    ensures IsPercentileRank(values, ranks)
  {
    var n := |values|;
    if n == 0 { return []; }
    if n == 1 { return [0.0]; }
    var sorted := Sort(Less(), values);
    LessIsWeak();
    SortSorted(Less(), values);
    EndsEqual(values, sorted);
    hide SortedBy, Sort, AllEqual, WeakOrder, Less, RankOf, Count, Below;
    if sorted[0] == sorted[n - 1] {
      return seq(n, _ => 0.5);
    }
    ranks := [];
    for i := 0 to n
      invariant |ranks| == i
      invariant forall k :: 0 <= k < i ==> ranks[k] == RankOf(values, values[k])
    {
      var strictlyLower := LowerBound(sorted, values[i]);
      RankByCount(values, sorted, values[i]);
      ranks := ranks + [strictlyLower as real / (n - 1) as real];
    }
  }

  /** More values are below a greater one: its rank is at least one place higher. */
  lemma CountBelow(values: seq<real>, i: nat, j: nat)
    requires i < |values| && j < |values|
    ensures Count(values, Below(values[i])) <= |values| - 1
    ensures values[i] < values[j] ==> Count(values, Below(values[i])) + 1 <= Count(values, Below(values[j]))
  {
    CountRemove(values, i, Below(values[i]));
    CountRemove(values, i, Below(values[j]));
    var rest := values[..i] + values[i + 1..];
    if values[i] < values[j] {
      CountLeq(rest, Below(values[i]), Below(values[j]));
    }
  }

  lemma Scaling(x: real, y: real, m: real)
    requires m > 0.0
    ensures x < y <==> x * m < y * m
  {
  }

  lemma QuotientOrder(a: real, b: real, m: real)
    requires m > 0.0
    ensures a / m < b / m <==> a < b
  {
    var x, y := a / m, b / m;
    assert x * m == a && y * m == b;
    Scaling(x, y, m);
  }

  lemma QuotientInUnit(a: real, m: real)
    requires 0.0 <= a <= m && m > 0.0
    ensures 0.0 <= a / m <= 1.0
  {
    DivNonNeg(a, m);
    QuotientOrder(m, a, m);
    assert m / m == 1.0;
  }

  lemma RankOrder(values: seq<real>, i: nat, j: nat)
    requires i < |values| && j < |values| && |values| >= 2
    ensures 0.0 <= RankOf(values, values[i]) <= 1.0
    ensures RankOf(values, values[i]) < RankOf(values, values[j]) <==> values[i] < values[j]
  {
    CountBelow(values, i, j);
    CountBelow(values, j, i);
    var a, b, n := Count(values, Below(values[i])), Count(values, Below(values[j])), |values| - 1;
    assert a < b <==> values[i] < values[j] by {
      if values[i] == values[j] { assert a == b; }
    }
    hide Count;
    QuotientOrder(a as real, b as real, n as real);
    QuotientInUnit(a as real, n as real);
  }

  /** Percentile ranks lie between 0 and 1 and keep the order of the values: strictly smaller stays strictly smaller,
      and ties stay ties. */
  lemma RanksKeepOrder(values: seq<real>, ranks: seq<real>, i: nat, j: nat)
    requires IsPercentileRank(values, ranks) && i < |values| && j < |values|
    ensures 0.0 <= ranks[i] <= 1.0
    ensures ranks[i] < ranks[j] <==> values[i] < values[j]
  {
    hide RankOf;
    if |values| >= 2 && !AllEqual(values) {
      RankOrder(values, i, j);
    }
  }

  // ---- Min-max ---------------------------------------------------------------------------

  function Low(values: seq<real>): (r: real)
    requires values != []
    ensures r in values && forall v :: v in values ==> r <= v
  {
    if |values| == 1 then values[0]
    else
      assert forall v :: v in values ==> v == values[0] || v in values[1..];
      var rest := Low(values[1..]);
      if values[0] < rest then values[0] else rest
  }

  function High(values: seq<real>): (r: real)
    requires values != []
    ensures r in values && forall v :: v in values ==> v <= r
  {
    if |values| == 1 then values[0]
    else
      assert forall v :: v in values ==> v == values[0] || v in values[1..];
      var rest := High(values[1..]);
      if rest < values[0] then values[0] else rest
  }

  /** Where a value stands between the two. */
  function Position(v: real, lo: real, hi: real): real {
    if hi == lo then 0.5 else (v - lo) / (hi - lo)
  }

  function MinMax(values: seq<real>): seq<real> {
    seq(|values|, i requires 0 <= i < |values| => Position(values[i], Low(values), High(values)))
  }

  lemma MinMaxKeepsOrder(values: seq<real>, i: nat, j: nat)
    requires i < |values| && j < |values|
    ensures |MinMax(values)| == |values| && 0.0 <= MinMax(values)[i] <= 1.0
    ensures MinMax(values)[i] < MinMax(values)[j] <==> values[i] < values[j]
  {
    assert values[i] in values && values[j] in values;
    var lo, hi := Low(values), High(values);
    if hi != lo {
      QuotientOrder(values[i] - lo, values[j] - lo, hi - lo);
      QuotientInUnit(values[i] - lo, hi - lo);
      assert MinMax(values)[i] == (values[i] - lo) / (hi - lo);
      assert MinMax(values)[j] == (values[j] - lo) / (hi - lo);
    }
  }

  lemma Extremes(values: seq<real>, lo: real, hi: real)
    requires lo in values && hi in values && forall k :: 0 <= k < |values| ==> lo <= values[k] <= hi
    ensures Low(values) == lo && High(values) == hi
  {
    assert forall v :: v in values ==> lo <= v <= hi;
  }

  method MinMaxNormalize(values: seq<real>) returns (out: seq<real>)
    ensures out == MinMax(values)
  {
    hide Low, High, Position;
    if values == [] { return []; }
    var lo, hi := values[0], values[0];
    for i := 1 to |values|
      invariant lo in values && hi in values
      invariant forall k :: 0 <= k < i ==> lo <= values[k] <= hi
    {
      if values[i] < lo { lo := values[i]; }
      if hi < values[i] { hi := values[i]; }
    }
    Extremes(values, lo, hi);
    if hi == lo {
      FlatPosition(values, lo);
      return seq(|values|, _ => 0.5);
    }
    var range := hi - lo;
    out := [];
    for i := 0 to |values|
      invariant |out| == i
      invariant forall k :: 0 <= k < i ==> out[k] == Position(values[k], lo, hi)
    {
      InPosition(values[i], lo, hi);
      out := out + [(values[i] - lo) / range];
    }
  }

  lemma FlatPosition(values: seq<real>, lo: real)
    ensures forall k :: 0 <= k < |values| ==> Position(values[k], lo, lo) == 0.5
  {
  }

  lemma InPosition(v: real, lo: real, hi: real)
    requires lo != hi
    ensures Position(v, lo, hi) == (v - lo) / (hi - lo)
  {
  }

  // ---- What the two normalisations mean --------------------------------------------------

  /** The positions of the values that are smaller than x. */
  ghost function Smaller(values: seq<real>, x: real): set<nat> {
    set k: nat | k < |values| && values[k] < x
  }

  lemma CountIsSmaller(values: seq<real>, x: real)
    ensures Count(values, Below(x)) == |Smaller(values, x)|
  {
    CountIsSize(values, Below(x));
    assert Smaller(values, x) == Passing(values, Below(x));
  }

  /** Among n values a rank times n - 1 is the number of smaller values; it is a half if all are equal, 0 for a single one. */
  ghost predicate RankedAmong(values: seq<real>, normal: seq<real>) {
    && |normal| == |values|
    && forall i :: 0 <= i < |values| ==>
         if |values| == 1 then normal[i] == 0.0
         else if forall j :: 0 <= j < |values| ==> values[j] == values[i] then normal[i] == 0.5
         else normal[i] * (|values| - 1) as real == |Smaller(values, values[i])| as real
  }

  /** A value is placed between the least and the greatest one in proportion; it gets a half if these coincide. */
  ghost predicate PlacedBetween(values: seq<real>, normal: seq<real>) {
    && |normal| == |values|
    && forall i, lo, hi :: 0 <= i < |values| && lo in values && hi in values &&
                           (forall j :: 0 <= j < |values| ==> lo <= values[j] <= hi) ==>
         if lo == hi then normal[i] == 0.5 else normal[i] * (hi - lo) == values[i] - lo
  }

  lemma QuotientBack(a: real, m: real)
    requires m != 0.0
    ensures a / m * m == a
  {
  }

  lemma RankBack(values: seq<real>, i: nat)
    requires i < |values| && |values| >= 2
    ensures RankOf(values, values[i]) * (|values| - 1) as real == |Smaller(values, values[i])| as real
  {
    CountIsSmaller(values, values[i]);
    hide Count, Smaller, Below;
    QuotientBack(Count(values, Below(values[i])) as real, (|values| - 1) as real);
  }

  lemma EqualTo(values: seq<real>, i: nat)
    requires i < |values|
    ensures AllEqual(values) <==> forall j :: 0 <= j < |values| ==> values[j] == values[i]
  {
    if AllEqual(values) {
      forall j | 0 <= j < |values|
        ensures values[j] == values[i]
      {
        assert if i < j then values[i] == values[j] else j < i ==> values[j] == values[i];
      }
    }
  }

  lemma RanksMean(values: seq<real>, ranks: seq<real>)
    requires IsPercentileRank(values, ranks)
    ensures RankedAmong(values, ranks)
  {
    hide RankOf, Smaller, AllEqual;
    forall i: nat | i < |values| && |values| >= 2
      ensures if forall j :: 0 <= j < |values| ==> values[j] == values[i] then ranks[i] == 0.5
              else ranks[i] * (|values| - 1) as real == |Smaller(values, values[i])| as real
    {
      RankBack(values, i);
      EqualTo(values, i);
    }
  }

  lemma PositionBack(v: real, lo: real, hi: real)
    ensures if lo == hi then Position(v, lo, hi) == 0.5 else Position(v, lo, hi) * (hi - lo) == v - lo
  {
    if lo != hi { QuotientBack(v - lo, hi - lo); }
  }

  lemma MinMaxAt(values: seq<real>, i: nat)
    requires i < |values|
    ensures |MinMax(values)| == |values| && MinMax(values)[i] == Position(values[i], Low(values), High(values))
  {
    hide Low, High, Position;
  }

  lemma PlacesMean(values: seq<real>)
    ensures PlacedBetween(values, MinMax(values))
  {
    hide Low, High, Position, MinMax;
    var normal := MinMax(values);
    assert |normal| == |values| by { MinMaxSize(values); }
    forall i: nat, lo, hi | i < |values| && lo in values && hi in values &&
                            (forall j :: 0 <= j < |values| ==> lo <= values[j] <= hi)
      ensures if lo == hi then normal[i] == 0.5 else normal[i] * (hi - lo) == values[i] - lo
    {
      Extremes(values, lo, hi);
      MinMaxAt(values, i);
      PositionBack(values[i], lo, hi);
    }
  }

  lemma MinMaxSize(values: seq<real>)
    ensures |MinMax(values)| == |values|
  {
  }
}
