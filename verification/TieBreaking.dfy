/** Ordering candidates by quantised score, with ties broken against the gold files. */
module TieBreaking {
  import opened Outcomes
  import opened Sorting
  import opened MemberOrder
  import opened Counting

  /** A Python float seen as a score. */
  datatype Score = NotANumber | PlusInfinity | MinusInfinity | Finite(value: real)

  datatype Candidate = Candidate(id: string, score: Score)

  /** The first component of the sort key: which of two candidates comes first. */
  datatype Level = Top | Tick(n: int) | Bottom

  predicate Higher(a: Level, b: Level) {
    match (a, b)
    case (Top, Top) => false
    case (Top, _) => true
    case (Tick(x), Tick(y)) => x > y
    case (Tick(_), Bottom) => true
    case _ => false
  }

  /** Python's round: to the nearest integer, halves to the even one. */
  function Round(x: real): (r: int)
    ensures -0.5 <= r as real - x <= 0.5
  {
    var f := x.Floor;
    var d := x - f as real;
    if d < 0.5 then f else if d > 0.5 then f + 1 else if f % 2 == 0 then f else f + 1
  }

  /** NaN is sent to the bottom, beside minus infinity. */
  function LevelOf(s: Score, quantum: real): Level
    requires quantum > 0.0
  {
    match s
    case NotANumber => Bottom
    case PlusInfinity => Top
    case MinusInfinity => Bottom
    case Finite(v) => Tick(Round(v / quantum))
  }

  /** The key (-quantised score, is_gold, file_id) compared as Python compares tuples. */
  predicate KeyLess(gold: set<string>, quantum: real, a: Candidate, b: Candidate)
    requires quantum > 0.0
  {
    var la, lb := LevelOf(a.score, quantum), LevelOf(b.score, quantum);
    if la != lb then Higher(la, lb)
    else if (a.id in gold) != (b.id in gold) then b.id in gold
    else LexLess(a.id, b.id)
  }

  function KeyOrder(gold: set<string>, quantum: real): (Candidate, Candidate) -> bool
    requires quantum > 0.0
  {
    (a, b) => KeyLess(gold, quantum, a, b)
  }

  lemma KeyOrderIsWeak(gold: set<string>, quantum: real)
    requires quantum > 0.0
    ensures WeakOrder(KeyOrder(gold, quantum))
  {
    var lt := KeyOrder(gold, quantum);
    forall a, b
      ensures !(lt(a, b) && lt(b, a))
    {
      LexAsym(a.id, b.id);
    }
    forall a, b, c | !lt(b, a) && !lt(c, b)
      ensures !lt(c, a)
    {
      if LevelOf(a.score, quantum) == LevelOf(b.score, quantum) == LevelOf(c.score, quantum) {
        if !LexLess(b.id, a.id) && !LexLess(c.id, b.id) {
          LexNegTrans(a.id, b.id, c.id);
        }
      }
    }
  }

  function Zip(ids: seq<string>, scores: seq<Score>): seq<Candidate>
    requires |ids| == |scores|
  {
    seq(|ids|, i requires 0 <= i < |ids| => Candidate(ids[i], scores[i]))
  }

  function Ids(s: seq<Candidate>): seq<string> {
    seq(|s|, i requires 0 <= i < |s| => s[i].id)
  }

  function PessimisticOrder(candidates: seq<Candidate>, gold: set<string>, quantum: real): seq<Candidate>
    requires quantum > 0.0
  {
    Sort(KeyOrder(gold, quantum), candidates)
  }

  /** apply_pessimistic_tiebreak. */
  function ApplyPessimisticTiebreak(ids: seq<string>, scores: seq<Score>, gold: set<string>, quantum: real)
      : Result<seq<string>>
  {
    if |ids| != |scores| then InvalidArgument
    else if quantum <= 0.0 then InvalidArgument
    else Ok(Ids(PessimisticOrder(Zip(ids, scores), gold, quantum)))
  }

  // ---- The pessimistic order among all orders --------------------------------------------

  /** No candidate is at a lower level than one after it. */
  ghost predicate Descending(r: seq<Candidate>, quantum: real)
    requires quantum > 0.0
  {
    forall i, j :: 0 <= i < j < |r| ==> !Higher(LevelOf(r[j].score, quantum), LevelOf(r[i].score, quantum))
  }

  /** One way of sorting the candidates by descending quantised score, with any order inside a tie. */
  ghost predicate IsRanking(candidates: seq<Candidate>, quantum: real, r: seq<Candidate>)
    requires quantum > 0.0
  {
    multiset(r) == multiset(candidates) && Descending(r, quantum)
  }

  /** The pessimistic order is one of these orders, sorted by the whole key. */
  lemma PessimisticIsRanking(candidates: seq<Candidate>, gold: set<string>, quantum: real)
    requires quantum > 0.0
    ensures IsRanking(candidates, quantum, PessimisticOrder(candidates, gold, quantum))
    ensures SortedBy(KeyOrder(gold, quantum), PessimisticOrder(candidates, gold, quantum))
  {
    KeyOrderIsWeak(gold, quantum);
    SortSorted(KeyOrder(gold, quantum), candidates);
    var lt, r := KeyOrder(gold, quantum), PessimisticOrder(candidates, gold, quantum);
    forall i, j | 0 <= i < j < |r|
      ensures !Higher(LevelOf(r[j].score, quantum), LevelOf(r[i].score, quantum))
    {
      assert !lt(r[j], r[i]);
    }
  }

  ghost predicate AtLeast(quantum: real, l: Level, c: Candidate)
    requires quantum > 0.0
  {
    !Higher(l, LevelOf(c.score, quantum))
  }

  ghost predicate Above(quantum: real, l: Level, c: Candidate)
    requires quantum > 0.0
  {
    Higher(LevelOf(c.score, quantum), l)
  }

  lemma PrefixAtLeast(r: seq<Candidate>, quantum: real, l: Level, k: nat)
    requires quantum > 0.0 && Descending(r, quantum)
    requires k <= Count(r, c => AtLeast(quantum, l, c))
    ensures forall i :: 0 <= i < k ==> AtLeast(quantum, l, r[i])
  {
    var p := (c: Candidate) => AtLeast(quantum, l, c);
    forall i | 0 <= i < k
      ensures p(r[i])
    {
      if !p(r[i]) {
        CountSplit(r, i, p);
        CountIsZero(r[i..], p);
      }
    }
  }

  lemma NoneAboveAfter(r: seq<Candidate>, quantum: real, l: Level, k: nat)
    requires quantum > 0.0 && Descending(r, quantum)
    requires Count(r, c => Above(quantum, l, c)) <= k
    ensures forall i :: k <= i < |r| ==> !Above(quantum, l, r[i])
  {
    var p := (c: Candidate) => Above(quantum, l, c);
    forall i | k <= i < |r|
      ensures !p(r[i])
    {
      if p(r[i]) {
        var head := r[..i + 1];
        forall j | 0 <= j < |head|
          ensures p(head[j])
        {
          assert head[j] == r[j];
        }
        CountIsAll(head, p);
        CountSplit(r, i + 1, p);
      }
    }
  }

  function IsGold(gold: set<string>): Candidate -> bool {
    (c: Candidate) => c.id in gold
  }

  function NotGold(gold: set<string>): Candidate -> bool {
    (c: Candidate) => c.id !in gold
  }

  /** The prefix ends in a file that is not gold: the gold files before it are all at higher levels,
      and those are in every prefix of this length. */
  lemma FewestGoldNonGoldLast(a: seq<Candidate>, b: seq<Candidate>, gold: set<string>, quantum: real, k: nat)
    requires quantum > 0.0 && multiset(a) == multiset(b) && Descending(a, quantum) && Descending(b, quantum)
    requires SortedBy(KeyOrder(gold, quantum), a)
    requires 0 < k <= |a| == |b| && a[k - 1].id !in gold
    ensures Count(a[..k], IsGold(gold)) <= Count(b[..k], IsGold(gold))
  {
    var l := LevelOf(a[k - 1].score, quantum);
    var above := (c: Candidate) => Above(quantum, l, c);
    var goldAbove := (c: Candidate) => c.id in gold && Above(quantum, l, c);
    forall i | 0 <= i < |a[..k]| && IsGold(gold)(a[..k][i])
      ensures goldAbove(a[..k][i])
    {
      assert !KeyOrder(gold, quantum)(a[k - 1], a[i]);
    }
    CountLeq(a[..k], IsGold(gold), goldAbove);
    CountSplit(a, k, goldAbove);
    CountPermutation(a, b, goldAbove);
    CountSplit(b, k, goldAbove);
    CountLeq(b[..k], goldAbove, IsGold(gold));
    CountSplit(a, k, above);
    CountIsZero(a[k..], above);
    CountPermutation(a, b, above);
    NoneAboveAfter(b, quantum, l, k);
    CountIsZero(b[k..], goldAbove);
  }

  /** The prefix ends in a gold file: every other file at its level or higher is in the prefix. */
  lemma FewestGoldGoldLast(a: seq<Candidate>, b: seq<Candidate>, gold: set<string>, quantum: real, k: nat)
    requires quantum > 0.0 && multiset(a) == multiset(b) && Descending(a, quantum) && Descending(b, quantum)
    requires SortedBy(KeyOrder(gold, quantum), a)
    requires 0 < k <= |a| == |b| && a[k - 1].id in gold
    ensures Count(a[..k], IsGold(gold)) <= Count(b[..k], IsGold(gold))
  {
    var l := LevelOf(a[k - 1].score, quantum);
    var atLeast := (c: Candidate) => AtLeast(quantum, l, c);
    var other := (c: Candidate) => c.id !in gold && AtLeast(quantum, l, c);
    forall i | 0 <= i < |a[k..]|
      ensures !other(a[k..][i])
    {
      assert !KeyOrder(gold, quantum)(a[k + i], a[k - 1]);
    }
    CountIsZero(a[k..], other);
    CountSplit(a, k, other);
    CountLeq(a[..k], other, NotGold(gold));
    CountIsAll(a[..k], atLeast);
    CountSplit(a, k, atLeast);
    CountPermutation(a, b, atLeast);
    PrefixAtLeast(b, quantum, l, k);
    CountLeq(b[..k], NotGold(gold), other);
    CountSplit(b, k, other);
    CountPermutation(a, b, other);
    CountNot(a[..k], IsGold(gold), NotGold(gold));
    CountNot(b[..k], IsGold(gold), NotGold(gold));
  }

  /** Among all orders by descending quantised score, the pessimistic one has the fewest gold entries in
      every prefix. */
  lemma FewestGold(candidates: seq<Candidate>, gold: set<string>, quantum: real, r: seq<Candidate>, k: nat)
    requires quantum > 0.0 && IsRanking(candidates, quantum, r) && k <= |candidates|
    ensures |r| == |candidates|
    ensures Count(PessimisticOrder(candidates, gold, quantum)[..k], IsGold(gold)) <= Count(r[..k], IsGold(gold))
  {
    PessimisticIsRanking(candidates, gold, quantum);
    assert |multiset(r)| == |multiset(candidates)|;
    var a := PessimisticOrder(candidates, gold, quantum);
    if k == 0 {
    } else if a[k - 1].id in gold {
      FewestGoldGoldLast(a, r, gold, quantum, k);
    } else {
      FewestGoldNonGoldLast(a, r, gold, quantum, k);
    }
  }

  // ---- What a tie is ---------------------------------------------------------------------

  predicate Tied(s: real, t: real, quantum: real)
    requires quantum > 0.0
  {
    LevelOf(Finite(s), quantum) == LevelOf(Finite(t), quantum)
  }

  lemma Scaled(x: real, y: real, s: real, t: real, quantum: real)
    requires quantum > 0.0 && s == x * quantum && t == y * quantum
    ensures s - t > quantum <==> x - y > 1.0
    ensures s >= t <==> x >= y
  {
    var d := x - y;
    assert s - t == d * quantum;
    if d > 1.0 { assert (d - 1.0) * quantum > 0.0; } else { assert (1.0 - d) * quantum >= 0.0; }
    if d >= 0.0 { assert d * quantum >= 0.0; } else { assert -d * quantum > 0.0; }
  }

  lemma Quotient(s: real, quantum: real)
    requires quantum > 0.0
    ensures s == (s / quantum) * quantum
  {
  }

  lemma ScaledGap(s: real, t: real, quantum: real)
    requires quantum > 0.0
    ensures s - t > quantum <==> s / quantum - t / quantum > 1.0
    ensures s >= t <==> s / quantum >= t / quantum
  {
    Quotient(s, quantum);
    Quotient(t, quantum);
    Scaled(s / quantum, t / quantum, s, t, quantum);
  }

  lemma RoundMonotone(x: real, y: real)
    requires x <= y
    ensures Round(x) <= Round(y)
  {
  }

  /** Quantising never reverses two scores, and separates all that are more than a quantum apart. */
  lemma QuantisedOrder(s: real, t: real, quantum: real)
    requires quantum > 0.0
    ensures s >= t ==> !Higher(LevelOf(Finite(t), quantum), LevelOf(Finite(s), quantum))
    ensures s - t > quantum ==> Higher(LevelOf(Finite(s), quantum), LevelOf(Finite(t), quantum))
  {
    ScaledGap(s, t, quantum);
    if s >= t {
      RoundMonotone(t / quantum, s / quantum);
    }
    if s - t > quantum {
      var x, y := s / quantum, t / quantum;
      assert Round(x) as real >= x - 0.5 > y + 0.5 >= Round(y) as real;
    }
  }

  /** The values that are rounded to n: at most a half away, and a half itself only if n is even. */
  predicate InBand(x: real, n: int) {
    if n % 2 == 0 then -0.5 <= x - n as real <= 0.5 else -0.5 < x - n as real < 0.5
  }

  predicate SameBand(s: real, t: real, quantum: real, n: int)
    requires quantum > 0.0
  {
    InBand(s / quantum, n) && InBand(t / quantum, n)
  }

  lemma RoundBand(x: real, n: int)
    ensures Round(x) == n <==> InBand(x, n)
  {
    var f := x.Floor;
    if InBand(x, n) {
      assert n == f || n == f + 1;
    }
  }

  /** Exactly when two finite scores are tied: some multiple of the quantum has both in its band. */
  lemma TiedIffOneBand(s: real, t: real, quantum: real)
    requires quantum > 0.0
    ensures Tied(s, t, quantum) <==> exists n :: SameBand(s, t, quantum, n)
  {
    RoundBand(s / quantum, Round(s / quantum));
    RoundBand(t / quantum, Round(t / quantum));
    if Tied(s, t, quantum) { assert SameBand(s, t, quantum, Round(s / quantum)); }
    if exists n :: SameBand(s, t, quantum, n) {
      var n :| SameBand(s, t, quantum, n);
      RoundBand(s / quantum, n);
      RoundBand(t / quantum, n);
    }
  }

  /** The comment at TIE_QUANTUM has it that two scores closer than the quantum are tied. Only the converse
      holds: tied scores are at most a quantum apart, but scores however close can fall on the two sides of
      a rounding boundary. */
  lemma CloseScoresMayDiffer(quantum: real, gap: real)
    requires quantum > 0.0 && 0.0 < gap < quantum
    ensures var s := 0.5 * quantum; var t := 0.5 * quantum + gap; t - s < quantum && !Tied(s, t, quantum)
  {
    var s, t := 0.5 * quantum, 0.5 * quantum + gap;
    Quotient(s, quantum);
    Scaled(s / quantum, 0.5, s, s, quantum);
    Scaled(0.5, s / quantum, s, s, quantum);
    assert s / quantum == 0.5;
    ScaledGap(s, t, quantum);
    assert Round(t / quantum) >= 1;
  }

  // ---- The pessimistic order in terms of scores, gold and names --------------------------

  /** The first score is ranked above the second: infinity above all, NaN and minus infinity below all, and of two finite
      ones the one that is nearer to the higher multiple of the quantum. */
  ghost predicate RankedAbove(s: Score, t: Score, quantum: real)
    requires quantum > 0.0
  {
    || (s.PlusInfinity? && !t.PlusInfinity?)
    || (s.Finite? && (t.NotANumber? || t.MinusInfinity?))
    || (s.Finite? && t.Finite? && exists m, n :: InBands(s.value, t.value, quantum, m, n) && m > n)
  }

  predicate InBands(s: real, t: real, quantum: real, m: int, n: int)
    requires quantum > 0.0
  {
    InBand(s / quantum, m) && InBand(t / quantum, n)
  }

  lemma RankedAboveIff(s: Score, t: Score, quantum: real)
    requires quantum > 0.0
    ensures RankedAbove(s, t, quantum) <==> Higher(LevelOf(s, quantum), LevelOf(t, quantum))
  {
    if s.Finite? && t.Finite? {
      var x, y := s.value / quantum, t.value / quantum;
      RoundBand(x, Round(x));
      RoundBand(y, Round(y));
      forall m, n | InBands(s.value, t.value, quantum, m, n)
        ensures m == Round(x) && n == Round(y)
      {
        RoundBand(x, m);
        RoundBand(y, n);
      }
      assert InBands(s.value, t.value, quantum, Round(x), Round(y));
    }
  }

  /** Higher scores first; of tied candidates the gold files last, and then by name. */
  ghost predicate GoldLast(order: seq<Candidate>, gold: set<string>, quantum: real)
    requires quantum > 0.0
  {
    forall i, j :: 0 <= i < j < |order| ==> PairGoldLast(order[i], order[j], gold, quantum)
  }

  ghost predicate PairGoldLast(a: Candidate, b: Candidate, gold: set<string>, quantum: real)
    requires quantum > 0.0
  {
    && !RankedAbove(b.score, a.score, quantum)
    && (!RankedAbove(a.score, b.score, quantum) ==>
          && (a.id in gold ==> b.id in gold)
          && ((b.id in gold ==> a.id in gold) ==> a.id == b.id || NameFirst(a.id, b.id)))
  }

  lemma NotKeyLess(a: Candidate, b: Candidate, gold: set<string>, quantum: real)
    requires quantum > 0.0 && !KeyLess(gold, quantum, b, a)
    ensures PairGoldLast(a, b, gold, quantum)
  {
    RankedAboveIff(a.score, b.score, quantum);
    RankedAboveIff(b.score, a.score, quantum);
    hide RankedAbove, LevelOf, NameFirst, LexLess;
    LexLessIff(a.id, b.id);
    if !LexLess(a.id, b.id) && !LexLess(b.id, a.id) { LexTotal(a.id, b.id); }
  }

  /** Main result on the order itself: it holds the candidates, and stands as the rule says. */
  lemma PessimisticIsGoldLast(ids: seq<string>, scores: seq<Score>, gold: set<string>, quantum: real)
    requires quantum > 0.0 && |ids| == |scores|
    ensures var order := PessimisticOrder(Zip(ids, scores), gold, quantum);
      GoldLast(order, gold, quantum) &&
      multiset(order) == multiset(seq(|ids|, i requires 0 <= i < |ids| => Candidate(ids[i], scores[i])))
  {
    hide KeyLess, PairGoldLast;
    var order := PessimisticOrder(Zip(ids, scores), gold, quantum);
    PessimisticIsRanking(Zip(ids, scores), gold, quantum);
    forall i, j | 0 <= i < j < |order|
      ensures PairGoldLast(order[i], order[j], gold, quantum)
    {
      assert !KeyOrder(gold, quantum)(order[j], order[i]);
      NotKeyLess(order[i], order[j], gold, quantum);
    }
  }
}
