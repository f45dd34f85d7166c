/** MRR, recall and NDCG of a ranked list of file ids. */
module RankingMetrics {
  import opened Outcomes
  import opened Sums
  import opened Sorting
  import opened MemberOrder
  import opened Counting
  import opened TieBreaking
  import opened RepeatedGold

  /** A float result; without gold files every metric is NaN, so that averages can leave it out. */
  datatype Metric = NaN | Value(value: real)

  predicate InUnit(m: Metric) {
    m.Value? ==> 0.0 <= m.value <= 1.0
  }

  /** The first metric is a lower bound of the second one. */
  predicate AtMost(a: Metric, b: Metric) {
    (a.NaN? <==> b.NaN?) && (a.Value? && b.Value? ==> a.value <= b.value)
  }

  /** The slice [:k] of a Python list, for k > 0. */
  function Cut(ranked: seq<string>, k: int): nat
  {
    if k <= 0 then 0 else if k < |ranked| then k else |ranked|
  }

  // ---- Distinct hits and recall ----------------------------------------------------------

  function Hits(ranked: seq<string>, gold: set<string>, k: nat): set<string>
    requires k <= |ranked|
  {
    set f | f in gold && f in ranked[..k]
  }

  method DistinctHits(ranked: seq<string>, gold: set<string>, k: nat) returns (n: nat)
    ensures n == |Hits(ranked, gold, Cut(ranked, k))|
  {
    var seen: set<string> := {};
    for i := 0 to Cut(ranked, k)
      invariant seen == Hits(ranked, gold, i)
    {
      assert ranked[..i + 1] == ranked[..i] + [ranked[i]];
      if ranked[i] in gold { seen := seen + {ranked[i]}; }
    }
    return |seen|;
  }

  function Recall(ranked: seq<string>, gold: set<string>, k: int): Metric {
    if gold == {} then NaN
    else Value(|Hits(ranked, gold, Cut(ranked, k))| as real / |gold| as real)
  }

  lemma EmptyHits(ranked: seq<string>, gold: set<string>)
    ensures Hits(ranked, gold, 0) == {}
  {
  }

  method RecallAtK(ranked: seq<string>, gold: set<string>, k: int) returns (r: Metric)
    ensures r == Recall(ranked, gold, k)
  {
    if gold == {} { return NaN; }
    if k <= 0 {
      EmptyHits(ranked, gold);
      return Value(0.0);
    }
    var top := if k < |ranked| then k else |ranked|;
    var n := DistinctHits(ranked, gold, top);
    return Value(n as real / |gold| as real);
  }

  function Ceiling(scanned: set<string>, gold: set<string>): Metric {
    if gold == {} then NaN else Value(|gold * scanned| as real / |gold| as real)
  }

  lemma Quotients(a: int, b: int, n: int)
    requires 0 <= a <= b && n > 0
    ensures a as real / n as real <= b as real / n as real
    ensures 0.0 <= a as real / n as real
  {
    DivNonNeg(a as real, n as real);
    DivNonNeg((b - a) as real, n as real);
    assert (b - a) as real / n as real == b as real / n as real - a as real / n as real;
  }

  /** Recall never exceeds the ceiling when every candidate was scanned; the ceiling never exceeds 1. */
  lemma RecallBelowCeiling(ranked: seq<string>, gold: set<string>, scanned: set<string>, k: int)
    requires forall f :: f in ranked ==> f in scanned
    ensures AtMost(Recall(ranked, gold, k), Ceiling(scanned, gold))
    ensures InUnit(Recall(ranked, gold, k)) && InUnit(Ceiling(scanned, gold))
  {
    if gold != {} {
      var cut := Cut(ranked, k);
      SubsetSize(Hits(ranked, gold, cut), gold * scanned);
      SubsetSize(gold * scanned, gold);
      Quotients(|Hits(ranked, gold, cut)|, |gold * scanned|, |gold|);
      Quotients(|gold * scanned|, |gold|, |gold|);
    }
  }

  /** The ceiling is tight: a ranking that lists every scanned file reaches it. */
  lemma CeilingIsReached(ranked: seq<string>, gold: set<string>, scanned: set<string>)
    requires forall f :: f in ranked <==> f in scanned
    ensures Recall(ranked, gold, |ranked|) == Ceiling(scanned, gold)
  {
    assert ranked[..|ranked|] == ranked;
    assert Hits(ranked, gold, |ranked|) == gold * scanned;
  }

  // ---- Reciprocal rank -------------------------------------------------------------------

  /** The first gold file is at index i. */
  ghost predicate FirstAt(ranked: seq<string>, gold: set<string>, i: nat) {
    i < |ranked| && ranked[i] in gold && forall j :: 0 <= j < i ==> ranked[j] !in gold
  }

  /** The reciprocal of the rank of the first gold file, 0 if there is none. */
  ghost predicate IsReciprocalRank(ranked: seq<string>, gold: set<string>, r: Metric) {
    if gold == {} then r == NaN
    else if forall i :: 0 <= i < |ranked| ==> ranked[i] !in gold then r == Value(0.0)
    else exists i: nat :: FirstAt(ranked, gold, i) && r == Value(Reciprocal(i))
  }

  /** 1 / rank, for the file at index i. */
  function Reciprocal(i: nat): real {
    1.0 / (i + 1) as real
  }

  method Mrr(ranked: seq<string>, gold: set<string>) returns (r: Metric)
    ensures IsReciprocalRank(ranked, gold, r)
  {
    hide Reciprocal;
    if gold == {} { return NaN; }
    for i := 0 to |ranked|
      invariant forall j :: 0 <= j < i ==> ranked[j] !in gold
    {
      if ranked[i] in gold {
        assert FirstAt(ranked, gold, i);
        return Value(Reciprocal(i));
      }
    }
    return Value(0.0);
  }

  // ---- NDCG ------------------------------------------------------------------------------

  /** 1 / log2(i + 2), of which only this much is used: positive and not increasing. */
  ghost predicate IsDiscount(d: nat -> real) {
    && (forall i: nat :: d(i) > 0.0)
    && (forall i: nat, j: nat :: i <= j ==> d(i) >= d(j))
  }

  /** 1 where a gold file occurs for the first time. */
  function Gain(ranked: seq<string>, gold: set<string>): nat -> real {
    (i: nat) => if i < |ranked| && ranked[i] in gold && ranked[i] !in ranked[..i] then 1.0 else 0.0
  }

  function Discounted(d: nat -> real, g: nat -> real): nat -> real {
    (i: nat) => d(i) * g(i)
  }

  function IdealLength(gold: set<string>, k: int): nat {
    if k < 0 then 0 else if k < |gold| then k else |gold|
  }

  function Ndcg(ranked: seq<string>, gold: set<string>, k: int, d: nat -> real): Metric {
    if gold == {} then NaN
    else if k <= 0 then Value(0.0)
    else if Sum(IdealLength(gold, k), d) == 0.0 then NaN
    else Value(Sum(Cut(ranked, k), Discounted(d, Gain(ranked, gold))) / Sum(IdealLength(gold, k), d))
  }

  method NdcgAtK(ranked: seq<string>, gold: set<string>, k: int, d: nat -> real) returns (r: Metric)
    ensures r == Ndcg(ranked, gold, k, d)
  {
    if gold == {} { return NaN; }
    if k <= 0 { return Value(0.0); }
    EmptyHits(ranked, gold);
    hide Hits, Gain;
    var cut := if k < |ranked| then k else |ranked|;
    var seen: set<string> := {};
    var dcg := 0.0;
    for i := 0 to cut
      invariant seen == Hits(ranked, gold, i)
      invariant dcg == Sum(i, Discounted(d, Gain(ranked, gold)))
    {
      NextHit(ranked, gold, i);
      DiscountedStep(i, d, Gain(ranked, gold));
      if ranked[i] in gold && ranked[i] !in seen {
        seen := seen + {ranked[i]};
        dcg := dcg + d(i);
      }
    }
    var idealLength := if k < |gold| then k else |gold|;
    var idcg := 0.0;
    for i := 0 to idealLength
      invariant idcg == Sum(i, d)
    {
      idcg := idcg + d(i);
    }
    if idcg == 0.0 { return NaN; }
    return Value(dcg / idcg);
  }

  lemma {:induction false} GainsCountHits(ranked: seq<string>, gold: set<string>, j: nat)
    requires j <= |ranked|
    ensures Sum(j, Gain(ranked, gold)) == |Hits(ranked, gold, j)| as real
  {
    if j == 0 {
      EmptyHits(ranked, gold);
    } else {
      GainsCountHits(ranked, gold, j - 1);
      HitsStep(ranked, gold, j - 1);
    }
  }

  lemma HitsStep(ranked: seq<string>, gold: set<string>, j: nat)
    requires j < |ranked|
    ensures |Hits(ranked, gold, j + 1)| as real == |Hits(ranked, gold, j)| as real + Gain(ranked, gold)(j)
  {
    NextHit(ranked, gold, j);
  }

  lemma NextHit(ranked: seq<string>, gold: set<string>, j: nat)
    requires j < |ranked|
    ensures ranked[j] in gold && ranked[j] !in Hits(ranked, gold, j) ==>
      Hits(ranked, gold, j + 1) == Hits(ranked, gold, j) + {ranked[j]} && Gain(ranked, gold)(j) == 1.0
    ensures !(ranked[j] in gold && ranked[j] !in Hits(ranked, gold, j)) ==>
      Hits(ranked, gold, j + 1) == Hits(ranked, gold, j) && Gain(ranked, gold)(j) == 0.0
  {
    assert ranked[..j + 1] == ranked[..j] + [ranked[j]];
  }

  /** One step of summation by parts. */
  lemma GapStep(lower: real, previous: real, gap: real, d: real, a: real, b: real)
    requires previous >= d > 0.0 && gap >= 0.0 && gap + (b - a) >= 0.0 && lower >= previous * gap
    ensures lower + d * b - d * a >= d * (gap + (b - a)) >= 0.0
  {
    assert (previous - d) * gap >= 0.0;
    MulNonNeg(d, gap + (b - a));
  }

  lemma DiscountedStep(m: nat, d: nat -> real, a: nat -> real)
    ensures Sum(m + 1, Discounted(d, a)) == Sum(m, Discounted(d, a)) + d(m) * a(m)
    ensures Sum(m + 1, a) == Sum(m, a) + a(m)
  {
  }

  /** The discount at a place and at the place before it. */
  lemma DiscountFalls(d: nat -> real, m: nat)
    requires IsDiscount(d)
    ensures d(m) > 0.0 && (m > 0 ==> d(m - 1) >= d(m))
  {
  }

  /** Summation by parts: if every partial sum of a is at most that of b, so is every discounted sum. */
  lemma {:induction false} DiscountedGap(n: nat, d: nat -> real, a: nat -> real, b: nat -> real)
    requires IsDiscount(d) && forall j: nat :: j <= n ==> Sum(j, a) <= Sum(j, b)
    ensures n > 0 ==> Sum(n, Discounted(d, b)) - Sum(n, Discounted(d, a)) >= d(n - 1) * (Sum(n, b) - Sum(n, a))
    ensures Sum(n, Discounted(d, a)) <= Sum(n, Discounted(d, b))
  {
    hide IsDiscount, Discounted;
    if n == 0 {
      assert Sum(0, Discounted(d, a)) == 0.0 == Sum(0, Discounted(d, b));
    } else {
      var m: nat := n - 1;
      DiscountedGap(m, d, a, b);
      DiscountFalls(d, m);
      DiscountedStep(m, d, a);
      DiscountedStep(m, d, b);
      var gap, lower := Sum(m, b) - Sum(m, a), Sum(m, Discounted(d, b)) - Sum(m, Discounted(d, a));
      if m == 0 { assert gap == 0.0 && lower == 0.0; }
      hide Sum;
      GapStep(lower, if m > 0 then d(m - 1) else d(m), gap, d(m), a(m), b(m));
    }
  }

  lemma {:induction false} SumGrows(m: nat, n: nat, f: nat -> real)
    requires m <= n && forall i: nat :: i < n ==> f(i) >= 0.0
    ensures Sum(m, f) <= Sum(n, f)
  {
    if m < n { SumGrows(m, n - 1, f); }
  }

  /** Ones up to position g. */
  function Ideal(g: nat): nat -> real {
    (i: nat) => if i < g then 1.0 else 0.0
  }

  lemma {:induction false} IdealSums(n: nat, g: nat, d: nat -> real)
    ensures Sum(n, Ideal(g)) == (if n < g then n else g) as real
    ensures Sum(n, Discounted(d, Ideal(g))) == Sum(if n < g then n else g, d)
  {
    if n > 0 {
      var m: nat := n - 1;
      IdealSums(m, g, d);
      assert Discounted(d, Ideal(g))(m) == if m < g then d(m) else 0.0;
    }
  }

  lemma IdealIsPositive(gold: set<string>, k: int, d: nat -> real)
    requires IsDiscount(d) && k > 0 && gold != {}
    ensures Sum(IdealLength(gold, k), d) > 0.0
  {
    SumGrows(1, IdealLength(gold, k), d);
    assert Sum(1, d) == Sum(0, d) + d(0);
  }

  /** The discounted gain never exceeds the ideal one, even if files are listed twice. */
  lemma GainBelowIdeal(ranked: seq<string>, gold: set<string>, k: int, d: nat -> real)
    requires IsDiscount(d) && k > 0
    ensures 0.0 <= Sum(Cut(ranked, k), Discounted(d, Gain(ranked, gold))) <= Sum(IdealLength(gold, k), d)
  {
    var cut, g := Cut(ranked, k), |gold|;
    forall j: nat | j <= cut
      ensures Sum(j, Gain(ranked, gold)) <= Sum(j, Ideal(g))
    {
      GainsCountHits(ranked, gold, j);
      HitsBound(ranked, gold, j);
      IdealSums(j, g, d);
    }
    DiscountedGap(cut, d, Gain(ranked, gold), Ideal(g));
    IdealSums(cut, g, d);
    SumGrows(if cut < g then cut else g, IdealLength(gold, k), d);
    SumNonNeg(cut, Discounted(d, Gain(ranked, gold)));
  }

  lemma {:induction false} HitsBound(ranked: seq<string>, gold: set<string>, j: nat)
    requires j <= |ranked|
    ensures |Hits(ranked, gold, j)| <= |gold| && |Hits(ranked, gold, j)| <= j
  {
    SubsetSize(Hits(ranked, gold, j), gold);
    if j == 0 {
      EmptyHits(ranked, gold);
    } else {
      HitsBound(ranked, gold, j - 1);
      assert ranked[..j] == ranked[..j - 1] + [ranked[j - 1]];
      assert Hits(ranked, gold, j) <= Hits(ranked, gold, j - 1) + {ranked[j - 1]};
      SubsetSize(Hits(ranked, gold, j), Hits(ranked, gold, j - 1) + {ranked[j - 1]});
    }
  }

  lemma RatioMono(x: real, y: real, z: real)
    requires x <= y && z > 0.0
    ensures x / z <= y / z
  {
    DivNonNeg(y - x, z);
    assert (y - x) / z == y / z - x / z;
  }

  /** NDCG is NaN only without gold files, and lies between 0 and 1 even if files are listed twice. */
  lemma NdcgInUnit(ranked: seq<string>, gold: set<string>, k: int, d: nat -> real)
    requires IsDiscount(d)
    ensures Ndcg(ranked, gold, k, d).NaN? <==> gold == {}
    ensures InUnit(Ndcg(ranked, gold, k, d))
  {
    if gold != {} && k > 0 {
      IdealIsPositive(gold, k, d);
      GainBelowIdeal(ranked, gold, k, d);
      var ideal := Sum(IdealLength(gold, k), d);
      RatioMono(Sum(Cut(ranked, k), Discounted(d, Gain(ranked, gold))), ideal, ideal);
      DivNonNeg(Sum(Cut(ranked, k), Discounted(d, Gain(ranked, gold))), ideal);
    }
  }

  /** A list that starts with as many different gold files as it can has an NDCG of exactly 1. */
  lemma PerfectNdcg(ranked: seq<string>, gold: set<string>, k: int, d: nat -> real)
    requires IsDiscount(d) && k > 0 && gold != {} && IdealLength(gold, k) <= |ranked|
    requires |Hits(ranked, gold, IdealLength(gold, k))| == IdealLength(gold, k)
    ensures Ndcg(ranked, gold, k, d) == Value(1.0)
  {
    PerfectGain(ranked, gold, k, d);
    IdealIsPositive(gold, k, d);
    hide Sum, IdealLength;
    SelfRatio(Sum(IdealLength(gold, k), d));
  }

  lemma PerfectGain(ranked: seq<string>, gold: set<string>, k: int, d: nat -> real)
    requires IsDiscount(d) && k > 0 && IdealLength(gold, k) <= |ranked|
    requires |Hits(ranked, gold, IdealLength(gold, k))| == IdealLength(gold, k)
    ensures Sum(Cut(ranked, k), Discounted(d, Gain(ranked, gold))) == Sum(IdealLength(gold, k), d)
  {
    hide Sum;
    var m := IdealLength(gold, k);
    forall i: nat | i < m
      ensures Gain(ranked, gold)(i) == 1.0
    {
      GainsCountHits(ranked, gold, m);
      AllOnes(m, Gain(ranked, gold), i);
    }
    SumCongr(m, d, Discounted(d, Gain(ranked, gold)));
    SumGrows(m, Cut(ranked, k), Discounted(d, Gain(ranked, gold)));
    GainBelowIdeal(ranked, gold, k, d);
  }

  lemma {:induction false} AllOnes(n: nat, f: nat -> real, i: nat)
    requires i < n && (forall j: nat :: f(j) <= 1.0) && Sum(n, f) >= n as real
    ensures f(i) == 1.0
  {
    SumBelow(n - 1, f);
    if i < n - 1 { AllOnes(n - 1, f, i); }
  }

  lemma {:induction false} SumBelow(n: nat, f: nat -> real)
    requires forall j: nat :: f(j) <= 1.0
    ensures Sum(n, f) <= n as real
  {
    if n > 0 { SumBelow(n - 1, f); }
  }

  // ---- The pessimistic order is the lower bound ------------------------------------------

  /** No gold file is listed twice. */
  ghost predicate GoldOnce(s: seq<Candidate>, gold: set<string>) {
    forall i, j :: 0 <= i < j < |s| && s[i].id in gold ==> s[i].id != s[j].id
  }

  function HasId(f: string): Candidate -> bool {
    (c: Candidate) => c.id == f
  }

  lemma {:induction false} GoldOnceCounts(s: seq<Candidate>, gold: set<string>, f: string)
    requires GoldOnce(s, gold) && f in gold
    ensures Count(s, HasId(f)) <= 1
  {
    if s != [] {
      var t := s[1..];
      forall i, j | 0 <= i < j < |t| && t[i].id in gold
        ensures t[i].id != t[j].id
      {
        assert s[i + 1].id != s[j + 1].id;
      }
      GoldOnceCounts(t, gold, f);
      if s[0].id == f {
        assert forall i :: 0 <= i < |t| ==> t[i] == s[i + 1];
        CountIsZero(t, HasId(f));
      }
    }
  }

  /** Then no file of a tie stands in the wrong place. */
  lemma GoldOnceFalls(s: seq<Candidate>, gold: set<string>, quantum: real)
    requires quantum > 0.0 && GoldOnce(s, gold)
    ensures GoldFalls(s, gold, quantum)
  {
    forall i, j | 0 <= i < |s| && 0 <= j < |s| && TiedGold(s[i], s[j], gold, quantum)
      ensures MayPrecede(s, quantum, LevelOf(s[i].score, quantum), s[i].id, s[j].id)
    {
      var l := LevelOf(s[i].score, quantum);
      OnceIsNew(s, gold, quantum, j);
      GoldOnceCounts(s, gold, s[j].id);
      CountLeq(s, EntryOf(quantum, l, s[j].id), HasId(s[j].id));
      CountsItself(s, quantum, 0, i);
      assert s[0..] == s;
    }
  }

  lemma OnceIsNew(s: seq<Candidate>, gold: set<string>, quantum: real, j: nat)
    requires quantum > 0.0 && GoldOnce(s, gold) && j < |s| && s[j].id in gold
    ensures !Old(s, quantum, LevelOf(s[j].score, quantum), s[j].id)
  {
    forall k: nat | k < |s| && s[k].id == s[j].id
      ensures k == j
    {
    }
  }

  lemma HitsAreGoldIds(s: seq<Candidate>, gold: set<string>, k: nat)
    requires k <= |s|
    ensures |Ids(s)| == |s| && Hits(Ids(s), gold, k) == GoldIds(s[..k], gold)
  {
    var ids := Ids(s);
    forall f
      ensures f in Hits(ids, gold, k) <==> f in GoldIds(s[..k], gold)
    {
      SubsetOfIds(s, gold, k, f);
      if f in ids[..k] {
        var i :| 0 <= i < |ids[..k]| && ids[..k][i] == f;
        assert s[i].id == f;
      }
      if exists i :: 0 <= i < k && s[i].id == f {
        var i :| 0 <= i < k && s[i].id == f;
        assert ids[..k][i] == f;
      }
    }
  }

  /** The pessimistic order has its first gold file no earlier than any other order has. */
  lemma FirstGoldIsLatest(candidates: seq<Candidate>, gold: set<string>, quantum: real, r: seq<Candidate>, i: nat)
      returns (j: nat)
    requires quantum > 0.0 && IsRanking(candidates, quantum, r)
    requires FirstAt(Ids(PessimisticOrder(candidates, gold, quantum)), gold, i)
    ensures j <= i && j < |r| && Ids(r)[j] in gold
  {
    var a := PessimisticOrder(candidates, gold, quantum);
    FewestGold(candidates, gold, quantum, r, i + 1);
    assert IsGold(gold)(a[..i + 1][i]);
    CountIsZero(a[..i + 1], IsGold(gold));
    CountIsZero(r[..i + 1], IsGold(gold));
    j :| 0 <= j < |r[..i + 1]| && IsGold(gold)(r[..i + 1][j]);
  }

  /** The mean reciprocal rank of the pessimistic order is the lowest of all tie-breakings. */
  lemma PessimisticMrrIsLowest(candidates: seq<Candidate>, gold: set<string>, quantum: real, r: seq<Candidate>,
                               low: Metric, other: Metric)
    requires quantum > 0.0 && IsRanking(candidates, quantum, r)
    requires IsReciprocalRank(Ids(PessimisticOrder(candidates, gold, quantum)), gold, low)
    requires IsReciprocalRank(Ids(r), gold, other)
    ensures AtMost(low, other)
  {
    hide PessimisticOrder, Ids, IsRanking, Reciprocal;
    ReciprocalRankInUnit(Ids(r), gold, other);
    var ids := Ids(PessimisticOrder(candidates, gold, quantum));
    if gold != {} && exists i :: 0 <= i < |ids| && ids[i] in gold {
      var i: nat :| FirstAt(ids, gold, i) && low == Value(Reciprocal(i));
      var g := FirstGoldIsLatest(candidates, gold, quantum, r, i);
      IdsLength(r);
      var j: nat :| FirstAt(Ids(r), gold, j) && other == Value(Reciprocal(j));
      assert j <= g <= i;
      Reciprocals(j, i);
    }
  }

  lemma IdsLength(r: seq<Candidate>)
    ensures |Ids(r)| == |r|
  {
  }

  lemma Cancel(x: real, y: real, m: real)
    requires m > 0.0 && y * m <= x * m
    ensures y <= x
  {
    var gap := y - x;
    assert gap * m == y * m - x * m;
    if gap > 0.0 { MulNonNeg(gap, m); }
  }

  lemma Inverses(x: real, y: real, m: real, n: real)
    requires x * m == 1.0 && y * n == 1.0 && 0.0 < m <= n && y >= 0.0
    ensures y <= x
  {
    MulMono(y, m, n);
    Cancel(x, y, m);
  }

  lemma ReciprocalOf(i: nat)
    ensures Reciprocal(i) * (i + 1) as real == 1.0 && Reciprocal(i) >= 0.0
  {
    DivNonNeg(1.0, (i + 1) as real);
  }

  lemma Reciprocals(a: nat, b: nat)
    requires a <= b
    ensures 0.0 <= Reciprocal(b) <= Reciprocal(a)
  {
    ReciprocalOf(a);
    ReciprocalOf(b);
    hide Reciprocal;
    Inverses(Reciprocal(a), Reciprocal(b), (a + 1) as real, (b + 1) as real);
  }

  lemma ReciprocalInUnit(i: nat)
    ensures 0.0 <= Reciprocal(i) <= 1.0
  {
    Reciprocals(0, i);
  }

  /** The reciprocal rank is NaN only without gold files, and lies between 0 and 1. */
  lemma ReciprocalRankInUnit(ranked: seq<string>, gold: set<string>, r: Metric)
    requires IsReciprocalRank(ranked, gold, r)
    ensures InUnit(r) && (r.NaN? <==> gold == {})
  {
    hide Reciprocal;
    if gold != {} && exists i :: 0 <= i < |ranked| && ranked[i] in gold {
      var i: nat :| FirstAt(ranked, gold, i) && r == Value(Reciprocal(i));
      ReciprocalInUnit(i);
    }
  }

  /** With the condition on ties, the pessimistic order finds the fewest different gold files in every prefix. */
  lemma FewestHits(candidates: seq<Candidate>, gold: set<string>, quantum: real, r: seq<Candidate>, j: nat)
    requires quantum > 0.0 && IsRanking(candidates, quantum, r) && GoldFalls(candidates, gold, quantum)
    requires j <= |candidates|
    ensures |Ids(PessimisticOrder(candidates, gold, quantum))| == |Ids(r)| == |candidates|
    ensures |Hits(Ids(PessimisticOrder(candidates, gold, quantum)), gold, j)| <= |Hits(Ids(r), gold, j)|
  {
    hide PessimisticOrder, GoldFalls, Descending, SortedBy, GoldIds, Hits, Ids;
    var a := PessimisticOrder(candidates, gold, quantum);
    PessimisticIsRanking(candidates, gold, quantum);
    SameFall(candidates, a, gold, quantum);
    SameLength(a, candidates);
    SameLength(r, candidates);
    FewestFiles(a, r, gold, quantum, j);
    HitsAreGoldIds(a, gold, j);
    HitsAreGoldIds(r, gold, j);
  }

  /** More distinct hits in every prefix: a higher recall and a higher NDCG at every cut. */
  lemma MoreHitsMoreRecall(low: seq<string>, high: seq<string>, gold: set<string>, k: int)
    requires |low| == |high| && forall j: nat :: j <= |low| ==> |Hits(low, gold, j)| <= |Hits(high, gold, j)|
    ensures AtMost(Recall(low, gold, k), Recall(high, gold, k))
  {
    if gold != {} {
      Quotients(|Hits(low, gold, Cut(low, k))|, |Hits(high, gold, Cut(low, k))|, |gold|);
    }
  }

  lemma MoreHitsMoreNdcg(low: seq<string>, high: seq<string>, gold: set<string>, k: int, d: nat -> real)
    requires IsDiscount(d)
    requires |low| == |high| && forall j: nat :: j <= |low| ==> |Hits(low, gold, j)| <= |Hits(high, gold, j)|
    ensures AtMost(Ndcg(low, gold, k, d), Ndcg(high, gold, k, d))
  {
    if gold != {} && k > 0 {
      IdealIsPositive(gold, k, d);
      hide IsDiscount, IdealLength, Sum;
      var cut := Cut(low, k);
      forall j: nat | j <= cut
        ensures Sum(j, Gain(low, gold)) <= Sum(j, Gain(high, gold))
      {
        GainsCountHits(low, gold, j);
        GainsCountHits(high, gold, j);
      }
      DiscountedGap(cut, d, Gain(low, gold), Gain(high, gold));
      RatioMono(Sum(cut, Discounted(d, Gain(low, gold))), Sum(cut, Discounted(d, Gain(high, gold))),
                Sum(IdealLength(gold, k), d));
    }
  }

  /** With the condition on ties, recall and NDCG of the pessimistic order at every cut are the lowest of all
      tie-breakings. */
  lemma PessimisticIsLowest(candidates: seq<Candidate>, gold: set<string>, quantum: real, r: seq<Candidate>,
                            k: int, d: nat -> real)
    requires quantum > 0.0 && IsRanking(candidates, quantum, r) && GoldFalls(candidates, gold, quantum)
    requires IsDiscount(d)
    ensures var low := Ids(PessimisticOrder(candidates, gold, quantum));
            AtMost(Recall(low, gold, k), Recall(Ids(r), gold, k)) &&
            AtMost(Ndcg(low, gold, k, d), Ndcg(Ids(r), gold, k, d))
  {
    hide Recall, Ndcg, AtMost, Hits, PessimisticOrder, Ids, IsRanking, GoldFalls, IsDiscount;
    var low := Ids(PessimisticOrder(candidates, gold, quantum));
    FewestHits(candidates, gold, quantum, r, 0);
    forall j: nat | j <= |low|
      ensures |Hits(low, gold, j)| <= |Hits(Ids(r), gold, j)|
    {
      FewestHits(candidates, gold, quantum, r, j);
    }
    MoreHitsMoreRecall(low, Ids(r), gold, k);
    MoreHitsMoreNdcg(low, Ids(r), gold, k, d);
  }

  lemma QuotientsStrict(a: int, b: int, n: int)
    requires a < b && n > 0
    ensures a as real / n as real < b as real / n as real
  {
    RatioStrict(a as real, b as real, n as real);
  }

  lemma RatioStrict(x: real, y: real, z: real)
    requires x < y && z > 0.0
    ensures x / z < y / z
  {
    var q := (y - x) / z;
    assert q * z == y - x;
    DivNonNeg(y - x, z);
    assert q == y / z - x / z;
  }

  /** More hits at a cut and no fewer before it: a higher recall and a higher NDCG there. */
  lemma LessHitsLess(high: seq<string>, low: seq<string>, gold: set<string>, cut: nat, d: nat -> real)
    requires IsDiscount(d) && |low| == |high| && 0 < cut <= |low|
    requires forall j: nat :: j <= cut ==> |Hits(low, gold, j)| <= |Hits(high, gold, j)|
    requires |Hits(low, gold, cut)| < |Hits(high, gold, cut)|
    ensures !AtMost(Recall(high, gold, cut), Recall(low, gold, cut))
    ensures !AtMost(Ndcg(high, gold, cut, d), Ndcg(low, gold, cut, d))
  {
    HitsBound(high, gold, cut);
    assert gold != {};
    QuotientsStrict(|Hits(low, gold, cut)|, |Hits(high, gold, cut)|, |gold|);
    IdealIsPositive(gold, cut, d);
    LessGain(high, low, gold, cut, d);
    hide Sum, IdealLength, Hits, IsDiscount, Discounted, Gain;
    RatioStrict(Sum(cut, Discounted(d, Gain(low, gold))), Sum(cut, Discounted(d, Gain(high, gold))),
                Sum(IdealLength(gold, cut), d));
  }

  lemma LessGain(high: seq<string>, low: seq<string>, gold: set<string>, cut: nat, d: nat -> real)
    requires IsDiscount(d) && |low| == |high| && 0 < cut <= |low|
    requires forall j: nat :: j <= cut ==> |Hits(low, gold, j)| <= |Hits(high, gold, j)|
    requires |Hits(low, gold, cut)| < |Hits(high, gold, cut)|
    ensures Sum(cut, Discounted(d, Gain(low, gold))) < Sum(cut, Discounted(d, Gain(high, gold)))
  {
    hide Sum, Hits, Discounted, Gain;
    forall j: nat | j <= cut
      ensures Sum(j, Gain(low, gold)) <= Sum(j, Gain(high, gold))
    {
      GainsCountHits(low, gold, j);
      GainsCountHits(high, gold, j);
    }
    DiscountedGap(cut, d, Gain(low, gold), Gain(high, gold));
    GainsCountHits(low, gold, cut);
    GainsCountHits(high, gold, cut);
    MulNonNeg(d(cut - 1), Sum(cut, Gain(high, gold)) - Sum(cut, Gain(low, gold)));
  }

  /** No tie-breaking has a lower recall at any cut. */
  ghost predicate LowestRecall(candidates: seq<Candidate>, gold: set<string>, quantum: real)
    requires quantum > 0.0
  {
    forall r, k :: IsRanking(candidates, quantum, r) ==>
      AtMost(Recall(Ids(PessimisticOrder(candidates, gold, quantum)), gold, k), Recall(Ids(r), gold, k))
  }

  /** No tie-breaking has a lower NDCG at any cut. */
  ghost predicate LowestNdcg(candidates: seq<Candidate>, gold: set<string>, quantum: real, d: nat -> real)
    requires quantum > 0.0
  {
    forall r, k :: IsRanking(candidates, quantum, r) ==>
      AtMost(Ndcg(Ids(PessimisticOrder(candidates, gold, quantum)), gold, k, d), Ndcg(Ids(r), gold, k, d))
  }

  /** Exactly when the pessimistic order is the lower bound at every cut: recall and NDCG, whatever the discount, are the
      lowest of all tie-breakings if and only if the gold files of every tie fall. */
  lemma LowestExactlyIfGoldFalls(candidates: seq<Candidate>, gold: set<string>, quantum: real, d: nat -> real)
    requires quantum > 0.0 && IsDiscount(d)
    ensures LowestRecall(candidates, gold, quantum) <==> GoldFalls(candidates, gold, quantum)
    ensures LowestNdcg(candidates, gold, quantum, d) <==> GoldFalls(candidates, gold, quantum)
  {
    hide Recall, Ndcg, AtMost, PessimisticOrder, Ids, IsRanking, GoldFalls, IsDiscount;
    if GoldFalls(candidates, gold, quantum) {
      forall r, k | IsRanking(candidates, quantum, r)
        ensures AtMost(Recall(Ids(PessimisticOrder(candidates, gold, quantum)), gold, k), Recall(Ids(r), gold, k))
        ensures AtMost(Ndcg(Ids(PessimisticOrder(candidates, gold, quantum)), gold, k, d), Ndcg(Ids(r), gold, k, d))
      {
        PessimisticIsLowest(candidates, gold, quantum, r, k, d);
      }
    } else {
      var r, cut := LowerOrder(candidates, gold, quantum, d);
    }
  }

  /** Without the condition there is an order that is lower at some cut. */
  lemma LowerOrder(candidates: seq<Candidate>, gold: set<string>, quantum: real, d: nat -> real)
      returns (r: seq<Candidate>, cut: nat)
    requires quantum > 0.0 && IsDiscount(d) && !GoldFalls(candidates, gold, quantum)
    ensures IsRanking(candidates, quantum, r)
    ensures var low := Ids(PessimisticOrder(candidates, gold, quantum));
            !AtMost(Recall(low, gold, cut), Recall(Ids(r), gold, cut)) &&
            !AtMost(Ndcg(low, gold, cut, d), Ndcg(Ids(r), gold, cut, d))
  {
    hide PessimisticOrder, Descending, SortedBy, GoldIds, Hits, Ids, Recall, Ndcg, AtMost, IsDiscount, GoldFalls, Broken;
    var a := PessimisticOrder(candidates, gold, quantum);
    PessimisticIsRanking(candidates, gold, quantum);
    SameLength(a, candidates);
    if GoldFalls(a, gold, quantum) { SameFall(a, candidates, gold, quantum); }
    var i, j := BrokenPair(a, gold, quantum);
    r, cut := SomeOrderDoesWorse(a, gold, quantum, i, j);
    HitsAreGoldIds(a, gold, cut);
    HitsAreGoldIds(r, gold, cut);
    forall n: nat | n <= cut
      ensures |Hits(Ids(r), gold, n)| <= |Hits(Ids(a), gold, n)|
    {
      HitsAreGoldIds(a, gold, n);
      HitsAreGoldIds(r, gold, n);
    }
    LessHitsLess(Ids(a), Ids(r), gold, cut, d);
  }

  const FILE_A := Candidate("a", Finite(0.0))
  const FILE_B := Candidate("b", Finite(0.0))

  lemma OneSorted(lt: (Candidate, Candidate) -> bool, x: Candidate)
    ensures Sort(lt, [x]) == [x]
  {
    assert [x][1..] == [];
    assert Sort(lt, []) == [];
  }

  /** Nothing moves when the first element is not greater than the next one. */
  lemma SortInPlace(lt: (Candidate, Candidate) -> bool, x: Candidate, s: seq<Candidate>)
    requires s != [] && Sort(lt, s) == s && !lt(s[0], x)
    ensures Sort(lt, [x] + s) == [x] + s
  {
    assert ([x] + s)[1..] == s;
  }

  lemma ThreeSorted(gold: set<string>)
    requires "a" in gold && "b" in gold
    ensures PessimisticOrder([FILE_A, FILE_B, FILE_B], gold, 1.0) == [FILE_A, FILE_B, FILE_B]
  {
    var lt := KeyOrder(gold, 1.0);
    assert !lt(FILE_B, FILE_A) && !lt(FILE_B, FILE_B) by { assert !LexLess("b", "b") && !LexLess("b", "a"); }
    hide KeyOrder, Sort;
    OneSorted(lt, FILE_B);
    SortInPlace(lt, FILE_B, [FILE_B]);
    SortInPlace(lt, FILE_A, [FILE_B] + [FILE_B]);
    assert [FILE_A] + ([FILE_B] + [FILE_B]) == [FILE_A, FILE_B, FILE_B];
  }

  lemma ThreeHits(gold: set<string>)
    requires gold == {"a", "b"}
    ensures Recall(Ids([FILE_A, FILE_B, FILE_B]), gold, 2) == Value(1.0)
    ensures Recall(Ids([FILE_B, FILE_B, FILE_A]), gold, 2) == Value(0.5)
  {
    var low, other := Ids([FILE_A, FILE_B, FILE_B]), Ids([FILE_B, FILE_B, FILE_A]);
    assert low[..2] == ["a", "b"] && other[..2] == ["b", "b"];
    assert Hits(low, gold, 2) == gold && Hits(other, gold, 2) == {"b"};
    assert |gold| == 2;
  }

  lemma ThreeTied()
    ensures IsRanking([FILE_A, FILE_B, FILE_B], 1.0, [FILE_B, FILE_B, FILE_A])
  {
    assert multiset([FILE_A, FILE_B, FILE_B]) == multiset([FILE_B, FILE_B, FILE_A]);
  }

  /** With a gold file listed twice the bound can fail: of three tied entries a, b, b, all gold, the pessimistic order finds
      both files in its first two entries, and the order b, b, a finds one. */
  lemma RepeatedGoldBreaksTheBound(gold: set<string>)
    requires gold == {"a", "b"}
    ensures var candidates, other := [FILE_A, FILE_B, FILE_B], [FILE_B, FILE_B, FILE_A];
            IsRanking(candidates, 1.0, other) &&
            !AtMost(Recall(Ids(PessimisticOrder(candidates, gold, 1.0)), gold, 2), Recall(Ids(other), gold, 2))
  {
    ThreeSorted(gold);
    ThreeHits(gold);
    ThreeTied();
    hide Recall, PessimisticOrder, IsRanking, Ids;
  }

  // ---- One instance ----------------------------------------------------------------------

  datatype Report = Report(nCandidates: nat, nScanned: nat, nGold: nat, mrr: Metric, ceiling: Metric,
                           recall: map<int, Metric>, ndcg: map<int, Metric>)

  ghost predicate LowestMrr(candidates: seq<Candidate>, gold: set<string>, quantum: real, mrr: Metric)
    requires quantum > 0.0
  {
    forall order, other :: IsRanking(candidates, quantum, order) && IsReciprocalRank(Ids(order), gold, other) ==>
      AtMost(mrr, other)
  }

  ghost predicate LowestAtCuts(candidates: seq<Candidate>, gold: set<string>, quantum: real, d: nat -> real,
                               report: Report)
    requires quantum > 0.0 && report.recall.Keys == report.ndcg.Keys
  {
    forall order, k :: k in report.recall && IsRanking(candidates, quantum, order) ==>
      AtMost(report.recall[k], Recall(Ids(order), gold, k)) && AtMost(report.ndcg[k], Ndcg(Ids(order), gold, k, d))
  }

  lemma PessimisticReport(candidates: seq<Candidate>, gold: set<string>, quantum: real, d: nat -> real, report: Report)
    requires quantum > 0.0 && report.recall.Keys == report.ndcg.Keys && IsDiscount(d)
    requires var ranked := Ids(PessimisticOrder(candidates, gold, quantum));
             IsReciprocalRank(ranked, gold, report.mrr) &&
             (forall k :: k in report.recall ==> report.recall[k] == Recall(ranked, gold, k)) &&
             (forall k :: k in report.ndcg ==> report.ndcg[k] == Ndcg(ranked, gold, k, d))
    ensures LowestMrr(candidates, gold, quantum, report.mrr)
    ensures GoldFalls(candidates, gold, quantum) ==> LowestAtCuts(candidates, gold, quantum, d, report)
  {
    hide PessimisticOrder, Ids, IsRanking, IsReciprocalRank, GoldFalls, IsDiscount, Recall, Ndcg, AtMost;
    forall order, other | IsRanking(candidates, quantum, order) && IsReciprocalRank(Ids(order), gold, other)
      ensures AtMost(report.mrr, other)
    {
      PessimisticMrrIsLowest(candidates, gold, quantum, order, report.mrr, other);
    }
    if GoldFalls(candidates, gold, quantum) {
      forall order, k | k in report.recall && IsRanking(candidates, quantum, order)
        ensures AtMost(report.recall[k], Recall(Ids(order), gold, k))
        ensures AtMost(report.ndcg[k], Ndcg(Ids(order), gold, k, d))
      {
        PessimisticIsLowest(candidates, gold, quantum, order, k, d);
      }
    }
  }

  // ---- The numbers in terms of the order -------------------------------------------------

  /** The first file of the order that is gold is at position i. */
  ghost predicate FirstGoldAt(order: seq<Candidate>, gold: set<string>, i: int) {
    0 <= i < |order| && order[i].id in gold && forall j :: 0 <= j < i ==> order[j].id !in gold
  }

  /** The different gold files among the first k of the order. */
  ghost function GoldAmong(order: seq<Candidate>, gold: set<string>, k: int): set<string> {
    set f | f in gold && exists i :: 0 <= i < k && i < |order| && order[i].id == f
  }

  /** The discount of a position that holds a gold file not seen before. */
  ghost function FirstHits(order: seq<Candidate>, gold: set<string>, d: nat -> real): nat -> real {
    (i: nat) => if i < |order| && order[i].id in gold && (forall j :: 0 <= j < i ==> order[j].id != order[i].id) then d(i) else 0.0
  }

  /** Without gold files every number is NaN. Otherwise: 1 by the rank of the first gold file, or 0; the share of the gold
      files that were scanned; for each k, the share that is among the first k, and their discounts by those of an order
      that starts with all gold files. */
  ghost predicate Reports(order: seq<Candidate>, gold: set<string>, scanned: set<string>, d: nat -> real, report: Report)
    requires report.recall.Keys == report.ndcg.Keys
  {
    if gold == {} then
      && report.mrr == report.ceiling == NaN
      && forall k :: k in report.recall ==> report.recall[k] == report.ndcg[k] == NaN
    else
      && (forall i :: FirstGoldAt(order, gold, i) ==> report.mrr == Value(1.0 / (i + 1) as real))
      && ((forall i :: 0 <= i < |order| ==> order[i].id !in gold) ==> report.mrr == Value(0.0))
      && report.ceiling == Value(|gold * scanned| as real / |gold| as real)
      && forall k :: k in report.recall ==>
           && report.recall[k] == Value(|GoldAmong(order, gold, k)| as real / |gold| as real)
           && IsNdcg(order, gold, k, d, report.ndcg[k])
  }

  /** 0 for no file at all; otherwise the discounts of the first hits, divided by those of an order that starts with gold. */
  ghost predicate IsNdcg(order: seq<Candidate>, gold: set<string>, k: int, d: nat -> real, r: Metric) {
    && r.Value?
    && if k <= 0 then r.value == 0.0
       else r.value * Sum(if k < |gold| then k else |gold|, d) == Sum(if k < |order| then k else |order|, FirstHits(order, gold, d))
  }

  lemma GoldAmongIsHits(order: seq<Candidate>, gold: set<string>, k: int)
    ensures GoldAmong(order, gold, k) == Hits(Ids(order), gold, Cut(Ids(order), k))
  {
    var ranked, cut := Ids(order), Cut(Ids(order), k);
    forall f | f in gold
      ensures f in GoldAmong(order, gold, k) <==> f in ranked[..cut]
    {
      if f in GoldAmong(order, gold, k) {
        var i :| 0 <= i < k && i < |order| && order[i].id == f;
        assert ranked[..cut][i] == f;
      }
      if f in ranked[..cut] {
        var i :| 0 <= i < cut && ranked[..cut][i] == f;
        assert order[i].id == f;
      }
    }
  }

  lemma FirstHitIsGain(order: seq<Candidate>, gold: set<string>, d: nat -> real, i: nat)
    requires i < |order|
    ensures FirstHits(order, gold, d)(i) == Discounted(d, Gain(Ids(order), gold))(i)
  {
    var ranked := Ids(order);
    if ranked[i] in ranked[..i] {
      var j :| 0 <= j < i && ranked[..i][j] == ranked[i];
      assert order[j].id == order[i].id;
    } else {
      forall j | 0 <= j < i
        ensures order[j].id != order[i].id
      {
        assert ranked[..i][j] == order[j].id;
      }
    }
  }

  lemma NdcgMeans(order: seq<Candidate>, gold: set<string>, k: int, d: nat -> real)
    requires IsDiscount(d) && gold != {}
    ensures IsNdcg(order, gold, k, d, Ndcg(Ids(order), gold, k, d))
  {
    hide FirstHits, Discounted, Gain, Sum, IsDiscount, Ids, Ndcg;
    if k > 0 {
      IdealIsPositive(gold, k, d);
      FirstHitsSum(order, gold, Cut(Ids(order), k), d);
      IdsSize(order);
      NdcgBack(Ids(order), gold, k, d);
    } else {
      NdcgAtNothing(Ids(order), gold, k, d);
    }
  }

  lemma NdcgAtNothing(ranked: seq<string>, gold: set<string>, k: int, d: nat -> real)
    requires gold != {} && k <= 0
    ensures Ndcg(ranked, gold, k, d) == Value(0.0)
  {
  }

  lemma NdcgBack(ranked: seq<string>, gold: set<string>, k: int, d: nat -> real)
    requires gold != {} && k > 0 && Sum(IdealLength(gold, k), d) > 0.0
    ensures Ndcg(ranked, gold, k, d).Value?
    ensures Ndcg(ranked, gold, k, d).value * Sum(IdealLength(gold, k), d) == Sum(Cut(ranked, k), Discounted(d, Gain(ranked, gold)))
  {
    hide Discounted, Gain, Sum;
    QuotientBack(Sum(Cut(ranked, k), Discounted(d, Gain(ranked, gold))), Sum(IdealLength(gold, k), d));
  }

  lemma IdsSize(order: seq<Candidate>)
    ensures |Ids(order)| == |order|
  {
  }

  lemma FirstHitsSum(order: seq<Candidate>, gold: set<string>, cut: nat, d: nat -> real)
    requires cut <= |Ids(order)|
    ensures Sum(cut, FirstHits(order, gold, d)) == Sum(cut, Discounted(d, Gain(Ids(order), gold)))
  {
    hide FirstHits, Discounted, Gain, Sum;
    forall i: nat | i < cut
      ensures FirstHits(order, gold, d)(i) == Discounted(d, Gain(Ids(order), gold))(i)
    {
      FirstHitIsGain(order, gold, d, i);
    }
    SumCongr(cut, FirstHits(order, gold, d), Discounted(d, Gain(Ids(order), gold)));
  }

  lemma QuotientBack(a: real, m: real)
    requires m != 0.0
    ensures a / m * m == a
  {
  }

  lemma MrrMeans(order: seq<Candidate>, gold: set<string>, r: Metric)
    requires IsReciprocalRank(Ids(order), gold, r) && gold != {}
    ensures forall i :: FirstGoldAt(order, gold, i) ==> r == Value(1.0 / (i + 1) as real)
    ensures (forall i :: 0 <= i < |order| ==> order[i].id !in gold) ==> r == Value(0.0)
  {
    var ranked := Ids(order);
    assert forall i :: 0 <= i < |order| ==> ranked[i] == order[i].id;
    forall i | FirstGoldAt(order, gold, i)
      ensures r == Value(1.0 / (i + 1) as real)
    {
      assert ranked[i] in gold;
      var k: nat :| FirstAt(ranked, gold, k) && r == Value(Reciprocal(k));
      assert k == i;
    }
  }

  lemma ReportMeans(order: seq<Candidate>, gold: set<string>, scanned: set<string>, d: nat -> real, report: Report)
    requires IsDiscount(d) && report.recall.Keys == report.ndcg.Keys
    requires IsReciprocalRank(Ids(order), gold, report.mrr) && report.ceiling == Ceiling(scanned, gold)
    requires forall k :: k in report.recall ==> report.recall[k] == Recall(Ids(order), gold, k)
    requires forall k :: k in report.ndcg ==> report.ndcg[k] == Ndcg(Ids(order), gold, k, d)
    ensures Reports(order, gold, scanned, d, report)
  {
    hide IsReciprocalRank, IsDiscount, Ids, Hits, FirstHits, GoldAmong, FirstGoldAt;
    if gold == {} {
      NoGoldNoRank(Ids(order), gold, report.mrr);
      hide Ndcg;
      forall k | k in report.ndcg
        ensures Ndcg(Ids(order), gold, k, d) == NaN
      {
        NoGoldNoNdcg(Ids(order), gold, k, d);
      }
    } else {
      MrrMeans(order, gold, report.mrr);
      forall k | k in report.recall
        ensures report.recall[k] == Value(|GoldAmong(order, gold, k)| as real / |gold| as real)
        ensures IsNdcg(order, gold, k, d, report.ndcg[k])
      {
        GoldAmongIsHits(order, gold, k);
        NdcgMeans(order, gold, k, d);
      }
    }
  }

  lemma NoGoldNoRank(ranked: seq<string>, gold: set<string>, r: Metric)
    requires IsReciprocalRank(ranked, gold, r) && gold == {}
    ensures r == NaN
  {
  }

  lemma NoGoldNoNdcg(ranked: seq<string>, gold: set<string>, k: int, d: nat -> real)
    requires gold == {}
    ensures Ndcg(ranked, gold, k, d) == NaN
  {
  }

  /** evaluate_instance: the numbers are those of the order that puts gold files last in every tie, and the ceiling is the
      share of the gold files that were scanned. The reciprocal rank is a lower bound over all tie-breakings of the candidates, the other numbers
      are if the gold files of every tie fall, and no recall exceeds the ceiling if all candidates were scanned. */
  method EvaluateInstance(ids: seq<string>, scores: seq<Score>, gold: set<string>, scanned: set<string>,
                          ks: seq<int>, quantum: real, d: nat -> real)
      returns (r: Result<Report>, ghost order: seq<Candidate>)
    requires IsDiscount(d)
    ensures r.InvalidArgument? <==> |ids| != |scores| || quantum <= 0.0
    ensures r.Ok? ==> r.value.nCandidates == |ids| && r.value.nScanned == |scanned| && r.value.nGold == |gold|
    ensures r.Ok? ==> r.value.recall.Keys == r.value.ndcg.Keys == set k | k in ks
    ensures r.Ok? ==> multiset(order) == multiset(seq(|ids|, i requires 0 <= i < |ids| => Candidate(ids[i], scores[i])))
    ensures r.Ok? ==> GoldLast(order, gold, quantum) && IsRanking(Zip(ids, scores), quantum, order)
    ensures r.Ok? ==> Reports(order, gold, scanned, d, r.value)
    ensures r.Ok? ==> LowestMrr(Zip(ids, scores), gold, quantum, r.value.mrr)
    ensures r.Ok? && GoldFalls(Zip(ids, scores), gold, quantum) ==>
      LowestAtCuts(Zip(ids, scores), gold, quantum, d, r.value)
    ensures r.Ok? && (forall f :: f in ids ==> f in scanned) ==>
      forall k :: k in r.value.recall ==> AtMost(r.value.recall[k], r.value.ceiling)
  {
    hide Recall, Ndcg, Reports, GoldLast, IsRanking, LowestMrr, LowestAtCuts, GoldFalls, IsDiscount, IsReciprocalRank, Hits,
      AtMost, PessimisticOrder;
    order := [];
    var sorted := ApplyPessimisticTiebreak(ids, scores, gold, quantum);
    if sorted.InvalidArgument? { return InvalidArgument, order; }
    var ranked := sorted.value;
    var candidates := Zip(ids, scores);
    order := PessimisticOrder(candidates, gold, quantum);
    PessimisticIsGoldLast(ids, scores, gold, quantum);
    PessimisticIsRanking(candidates, gold, quantum);
    var first := Mrr(ranked, gold);
    var recall: map<int, Metric> := map[];
    var ndcg: map<int, Metric> := map[];
    for i := 0 to |ks|
      invariant recall.Keys == ndcg.Keys == set k | k in ks[..i]
      invariant forall k :: k in ks[..i] ==> recall[k] == Recall(ranked, gold, k) && ndcg[k] == Ndcg(ranked, gold, k, d)
    {
      var k := ks[i];
      assert ks[..i + 1] == ks[..i] + [k];
      var hits := RecallAtK(ranked, gold, k);
      recall := recall[k := hits];
      var gain := NdcgAtK(ranked, gold, k, d);
      ndcg := ndcg[k := gain];
    }
    assert ks[..|ks|] == ks;
    var report := Report(|ranked|, |scanned|, |gold|, first, Ceiling(scanned, gold), recall, ndcg);
    PessimisticReport(candidates, gold, quantum, d, report);
    ReportMeans(order, gold, scanned, d, report);
    ReciprocalRankInUnit(ranked, gold, first);
    if forall f :: f in ids ==> f in scanned {
      RankedAreCandidates(candidates, gold, quantum, scanned);
      forall k | k in recall
        ensures AtMost(recall[k], Ceiling(scanned, gold))
      {
        RecallBelowCeiling(ranked, gold, scanned, k);
      }
    }
    return Ok(report), order;
  }

  lemma RankedAreCandidates(candidates: seq<Candidate>, gold: set<string>, quantum: real, scanned: set<string>)
    requires quantum > 0.0 && forall f :: f in Ids(candidates) ==> f in scanned
    ensures forall f :: f in Ids(PessimisticOrder(candidates, gold, quantum)) ==> f in scanned
  {
    var a := PessimisticOrder(candidates, gold, quantum);
    SameMembers(a, candidates);
    forall f | f in Ids(a)
      ensures f in scanned
    {
      var i :| 0 <= i < |a| && Ids(a)[i] == f;
      assert a[i] in candidates;
      var j :| 0 <= j < |candidates| && candidates[j] == a[i];
      assert Ids(candidates)[j] == f;
    }
  }
}
