/** ScoreCombiner::combine and ComplexityScorer::compute. */
module Scores {
  import opened Sums
  import opened Counting
  import opened Normalizing

  // ---- The combined score ----------------------------------------------------------------

  datatype Weights = Weights(pr: real, bc: real, ease: real)

  /** The weights as shares of their sum; without any weight, rank and betweenness count half each. */
  function Shares(alpha: real, beta: real, gamma: real, useEase: bool): Weights {
    var total := alpha + beta + if useEase then gamma else 0.0;
    if total == 0.0 then Weights(0.5, 0.5, 0.0)
    else Weights(alpha / total, beta / total, if useEase then gamma / total else 0.0)
  }

  function UsesEase(complexity: seq<real>, gamma: real): bool {
    complexity != [] && gamma != 0.0
  }

  /** How easy a file is: 1 minus its complexity, clamped to the unit interval; files without one count as neutral. */
  function Ease(complexity: seq<real>, neutral: real, i: nat): real {
    var cx := if i < |complexity| then complexity[i] else neutral;
    1.0 - if cx < 0.0 then 0.0 else if 1.0 < cx then 1.0 else cx
  }

  ghost predicate IsNormalized(mode: int, values: seq<real>, normal: seq<real>) {
    if mode == 0 then normal == MinMax(values) else IsPercentileRank(values, normal)
  }

  function Importance(w: Weights, pr: real, bc: real): real {
    Times(w.pr, pr) + Times(w.bc, bc)
  }

  function Combined(w: Weights, pr: real, bc: real, ease: real): real {
    Importance(w, pr, bc) + Times(w.ease, ease)
  }

  method Normalize(mode: int, values: seq<real>) returns (normal: seq<real>)
    ensures IsNormalized(mode, values, normal)
  {
    if mode == 0 { normal := MinMaxNormalize(values); } else { normal := PercentileRankNormalize(values); }
  }

  /** What a normalised list is to its values. */
  ghost predicate NormalizedAs(mode: int, values: seq<real>, normal: seq<real>) {
    if mode == 0 then PlacedBetween(values, normal) else RankedAmong(values, normal)
  }

  lemma NormalizedMeans(mode: int, values: seq<real>, normal: seq<real>)
    requires IsNormalized(mode, values, normal)
    ensures NormalizedAs(mode, values, normal)
  {
    hide RankedAmong, PlacedBetween, MinMax, IsPercentileRank;
    if mode == 0 { PlacesMean(values); } else { RanksMean(values, normal); }
  }

  /** The mean of rank, betweenness and ease under their weights. Ease is 1 minus the complexity where that lies in the
      unit interval, 1 below and 0 above it; without complexities it has no weight. Without any weight, rank and
      betweenness count half each. */
  ghost predicate IsMean(alpha: real, beta: real, gamma: real, complexity: seq<real>, neutral: real, prn: seq<real>,
                         bcn: seq<real>, score: seq<real>) {
    && |score| == |prn| == |bcn|
    && var weight := if complexity == [] then 0.0 else gamma;
       forall i :: 0 <= i < |score| ==>
         var cx := if i < |complexity| then complexity[i] else neutral;
         var ease := if cx <= 0.0 then 1.0 else if cx >= 1.0 then 0.0 else 1.0 - cx;
         if alpha + beta + weight == 0.0 then score[i] + score[i] == prn[i] + bcn[i]
         else score[i] * (alpha + beta + weight) == alpha * prn[i] + beta * bcn[i] + weight * ease
  }

  lemma SharesBack(alpha: real, beta: real, gamma: real, useEase: bool, p: real, b: real, e: real)
    ensures var total := alpha + beta + if useEase then gamma else 0.0;
            var x := Combined(Shares(alpha, beta, gamma, useEase), p, b, e);
            if total == 0.0 then x + x == p + b
            else x * total == alpha * p + beta * b + (if useEase then gamma else 0.0) * e
  {
    var total := alpha + beta + if useEase then gamma else 0.0;
    var w := Shares(alpha, beta, gamma, useEase);
    if total == 0.0 {
      Halves(p, b, e);
    } else {
      ShareTimesTotal(alpha, beta, gamma, useEase);
      hide Shares, Combined, Importance;
      ScaleBack(w, total, alpha, beta, if useEase then gamma else 0.0, p, b, e);
    }
  }

  lemma Halves(p: real, b: real, e: real)
    ensures Combined(Weights(0.5, 0.5, 0.0), p, b, e) == 0.5 * p + 0.5 * b
  {
  }

  lemma ShareTimesTotal(alpha: real, beta: real, gamma: real, useEase: bool)
    requires alpha + beta + (if useEase then gamma else 0.0) != 0.0
    ensures var total := alpha + beta + if useEase then gamma else 0.0;
      var w := Shares(alpha, beta, gamma, useEase);
      w.pr * total == alpha && w.bc * total == beta && w.ease * total == if useEase then gamma else 0.0
  {
    var total := alpha + beta + if useEase then gamma else 0.0;
    QuotientBack(alpha, total);
    QuotientBack(beta, total);
    QuotientBack(gamma, total);
  }

  lemma ScaleBack(w: Weights, total: real, a: real, b: real, g: real, x: real, y: real, z: real)
    requires w.pr * total == a && w.bc * total == b && w.ease * total == g
    ensures Combined(w, x, y, z) * total == a * x + b * y + g * z
  {
    var u, v, t := w.pr * x, w.bc * y, w.ease * z;
    CombinedParts(w, x, y, z);
    Move(w.pr, x, total);
    Move(w.bc, y, total);
    Move(w.ease, z, total);
    hide Combined;
    assert (u + v + t) * total == u * total + v * total + t * total;
  }

  lemma CombinedParts(w: Weights, x: real, y: real, z: real)
    ensures Combined(w, x, y, z) == w.pr * x + w.bc * y + w.ease * z
  {
  }

  lemma Move(k: real, x: real, total: real)
    ensures k * x * total == k * total * x
  {
  }

  lemma CombinedIsMean(alpha: real, beta: real, gamma: real, complexity: seq<real>, neutral: real, prn: seq<real>,
                       bcn: seq<real>, score: seq<real>)
    requires |score| == |prn| == |bcn|
    requires forall i: nat :: i < |score| ==>
      score[i] == Combined(Shares(alpha, beta, gamma, UsesEase(complexity, gamma)), prn[i], bcn[i], Ease(complexity, neutral, i))
    ensures IsMean(alpha, beta, gamma, complexity, neutral, prn, bcn, score)
  {
    hide Combined, Shares;
    forall i: nat | i < |score|
      ensures var weight := if complexity == [] then 0.0 else gamma;
              var cx := if i < |complexity| then complexity[i] else neutral;
              var ease := if cx <= 0.0 then 1.0 else if cx >= 1.0 then 0.0 else 1.0 - cx;
              if alpha + beta + weight == 0.0 then score[i] + score[i] == prn[i] + bcn[i]
              else score[i] * (alpha + beta + weight) == alpha * prn[i] + beta * bcn[i] + weight * ease
    {
      SharesBack(alpha, beta, gamma, UsesEase(complexity, gamma), prn[i], bcn[i], Ease(complexity, neutral, i));
    }
  }

  method Combine(pr: seq<real>, bc: seq<real>, complexity: seq<real>, alpha: real, beta: real, gamma: real, mode: int,
                 neutral: real) returns (score: seq<real>, ghost prn: seq<real>, ghost bcn: seq<real>)
    ensures |pr| == 0 || |bc| != |pr| ==> score == []
    ensures |pr| == 0 || |bc| != |pr| ==> prn == bcn == []
    ensures 0 < |pr| == |bc| ==> |score| == |prn| == |bcn| == |pr| && IsNormalized(mode, pr, prn) && IsNormalized(mode, bc, bcn)
    ensures 0 < |pr| == |bc| ==> NormalizedAs(mode, pr, prn) && NormalizedAs(mode, bc, bcn)
    ensures 0 < |pr| == |bc| ==> IsMean(alpha, beta, gamma, complexity, neutral, prn, bcn, score)
    ensures 0 < |pr| == |bc| ==> forall i: nat :: i < |score| ==>
      score[i] == Combined(Shares(alpha, beta, gamma, UsesEase(complexity, gamma)), prn[i], bcn[i], Ease(complexity, neutral, i))
  {
    hide Times, Combined, Importance, Shares, IsNormalized, NormalizedAs, IsMean;
    prn, bcn := [], [];
    var n := |pr|;
    if n == 0 || |bc| != n { return [], [], []; }
    var useEase := UsesEase(complexity, gamma);
    var w := Shares(alpha, beta, gamma, useEase);
    var p := Normalize(mode, pr);
    var b := Normalize(mode, bc);
    NormalizedSize(mode, pr, p);
    NormalizedSize(mode, bc, b);
    NormalizedMeans(mode, pr, p);
    NormalizedMeans(mode, bc, b);
    prn, bcn := p, b;
    NoEase(alpha, beta, gamma);
    score := [];
    for i := 0 to n
      invariant |score| == i
      invariant forall k: nat :: k < i ==> score[k] == Combined(w, p[k], b[k], Ease(complexity, neutral, k))
    {
      var s := Importance(w, p[i], b[i]);
      if useEase {
        var cx := if i < |complexity| then complexity[i] else neutral;
        cx := if cx < 0.0 then 0.0 else cx;
        cx := if 1.0 < cx then 1.0 else cx;
        s := s + Times(w.ease, 1.0 - cx);
      }
      ScoreParts(w, p[i], b[i], Ease(complexity, neutral, i));
      score := score + [s];
    }
    CombinedIsMean(alpha, beta, gamma, complexity, neutral, p, b, score);
  }

  lemma ScoreParts(w: Weights, pr: real, bc: real, ease: real)
    ensures Combined(w, pr, bc, ease) == Importance(w, pr, bc) + Times(w.ease, ease)
    ensures w.ease == 0.0 ==> Combined(w, pr, bc, ease) == Importance(w, pr, bc)
  {
    hide Importance;
  }

  lemma NoEase(alpha: real, beta: real, gamma: real)
    ensures Shares(alpha, beta, gamma, false).ease == 0.0
  {
  }

  lemma NormalizedSize(mode: int, values: seq<real>, normal: seq<real>)
    requires IsNormalized(mode, values, normal)
    ensures |normal| == |values|
  {
  }

  lemma NormalizedOrder(mode: int, values: seq<real>, normal: seq<real>, i: nat, j: nat)
    requires IsNormalized(mode, values, normal) && i < |values| && j < |values|
    ensures |normal| == |values| && 0.0 <= normal[i] <= 1.0
    ensures normal[i] < normal[j] <==> values[i] < values[j]
  {
    if mode == 0 { MinMaxKeepsOrder(values, i, j); } else { RanksKeepOrder(values, normal, i, j); }
  }

  lemma SharesOk(alpha: real, beta: real, gamma: real, useEase: bool)
    requires alpha >= 0.0 && beta >= 0.0 && gamma >= 0.0
    ensures var w := Shares(alpha, beta, gamma, useEase);
            w.pr >= 0.0 && w.bc >= 0.0 && w.ease >= 0.0 && w.pr + w.bc + w.ease == 1.0
  {
    var total := alpha + beta + if useEase then gamma else 0.0;
    if total != 0.0 {
      DivNonNeg(alpha, total);
      DivNonNeg(beta, total);
      DivNonNeg(gamma, total);
      assert total / total == 1.0;
      assert (alpha + beta + if useEase then gamma else 0.0) / total ==
             alpha / total + beta / total + if useEase then gamma / total else 0.0;
    }
  }

  lemma Term(w: real, x: real)
    requires w >= 0.0 && 0.0 <= x <= 1.0
    ensures 0.0 <= Times(w, x) <= w
  {
    MulNonNeg(w, x);
    MulMono(w, x, 1.0);
  }

  lemma TermMono(w: real, x: real, y: real)
    requires w >= 0.0 && x <= y
    ensures Times(w, x) <= Times(w, y)
  {
    MulMono(w, x, y);
  }

  /** With weights that are not negative the combined score lies between 0 and 1. It never falls when PageRank, betweenness
      or ease rises, and ease cannot reverse two files whose importance differs by more than ease's share. */
  lemma CombinedOrder(mode: int, pr: seq<real>, bc: seq<real>, prn: seq<real>, bcn: seq<real>, complexity: seq<real>,
                      alpha: real, beta: real, gamma: real, neutral: real, i: nat, j: nat)
    requires alpha >= 0.0 && beta >= 0.0 && gamma >= 0.0
    requires IsNormalized(mode, pr, prn) && IsNormalized(mode, bc, bcn) && i < |pr| == |bc| && j < |pr|
    ensures |prn| == |bcn| == |pr|
    ensures var w := Shares(alpha, beta, gamma, UsesEase(complexity, gamma));
            var si := Combined(w, prn[i], bcn[i], Ease(complexity, neutral, i));
            var sj := Combined(w, prn[j], bcn[j], Ease(complexity, neutral, j));
            0.0 <= si <= 1.0 &&
            (pr[i] <= pr[j] && bc[i] <= bc[j] && Ease(complexity, neutral, i) <= Ease(complexity, neutral, j) ==> si <= sj) &&
            (Importance(w, prn[i], bcn[i]) - Importance(w, prn[j], bcn[j]) > w.ease ==> si > sj)
  {
    var w := Shares(alpha, beta, gamma, UsesEase(complexity, gamma));
    SharesOk(alpha, beta, gamma, UsesEase(complexity, gamma));
    NormalizedOrder(mode, pr, prn, i, j);
    NormalizedOrder(mode, bc, bcn, i, j);
    NormalizedOrder(mode, pr, prn, j, i);
    NormalizedOrder(mode, bc, bcn, j, i);
    var ei, ej := Ease(complexity, neutral, i), Ease(complexity, neutral, j);
    EaseInUnit(complexity, neutral, i);
    EaseInUnit(complexity, neutral, j);
    hide *;
    ConvexScore(w, prn[i], bcn[i], ei);
    EaseIsBounded(w, prn[i], bcn[i], ei, prn[j], bcn[j], ej);
    if pr[i] <= pr[j] && bc[i] <= bc[j] && ei <= ej {
      MonotoneScore(w, prn[i], bcn[i], ei, prn[j], bcn[j], ej);
    }
  }

  lemma ConvexScore(w: Weights, p: real, b: real, e: real)
    requires w.pr >= 0.0 && w.bc >= 0.0 && w.ease >= 0.0 && w.pr + w.bc + w.ease == 1.0
    requires 0.0 <= p <= 1.0 && 0.0 <= b <= 1.0 && 0.0 <= e <= 1.0
    ensures 0.0 <= Combined(w, p, b, e) <= 1.0
  {
    hide Times;
    Term(w.pr, p);
    Term(w.bc, b);
    Term(w.ease, e);
  }

  lemma MonotoneScore(w: Weights, p: real, b: real, e: real, p1: real, b1: real, e1: real)
    requires w.pr >= 0.0 && w.bc >= 0.0 && w.ease >= 0.0 && p <= p1 && b <= b1 && e <= e1
    ensures Combined(w, p, b, e) <= Combined(w, p1, b1, e1)
  {
    hide Times;
    TermMono(w.pr, p, p1);
    TermMono(w.bc, b, b1);
    TermMono(w.ease, e, e1);
  }

  lemma EaseIsBounded(w: Weights, p: real, b: real, e: real, p1: real, b1: real, e1: real)
    requires w.ease >= 0.0 && 0.0 <= e <= 1.0 && 0.0 <= e1 <= 1.0
    ensures Importance(w, p, b) - Importance(w, p1, b1) > w.ease ==> Combined(w, p, b, e) > Combined(w, p1, b1, e1)
  {
    hide Importance, Times;
    Term(w.ease, e);
    Term(w.ease, e1);
  }

  lemma EaseInUnit(complexity: seq<real>, neutral: real, i: nat)
    ensures 0.0 <= Ease(complexity, neutral, i) <= 1.0
  {
  }

  // ---- The complexity score --------------------------------------------------------------

  datatype FileMetrics = FileMetrics(maxCc: int, avgCc: real, maxDepth: int, avgDepth: real, loc: int, inbound: int,
                                     outbound: int)

  /** normalizeWeights: weights that do not sum to 1, give or take 0.001, are scaled; if their sum is as good as 0 they
      become equal. */
  function Scaled(ws: seq<real>): (r: seq<real>)
    ensures |r| == |ws|
  {
    var sum := Total(ws);
    if Abs(sum - 1.0) <= 0.001 then ws
    else if Abs(sum) < 0.000_000_001 then seq(|ws|, _ => if |ws| == 0 then 0.0 else 1.0 / |ws| as real)
    else seq(|ws|, i requires 0 <= i < |ws| => ws[i] / sum)
  }

  /** Weights whose sum is within 0.001 of 1 are kept; if the sum is within 1e-9 of 0 they become equal shares of 1;
      otherwise each becomes its share of the sum. */
  ghost predicate IsScaled(ws: seq<real>, out: seq<real>) {
    && |out| == |ws|
    && if -0.001 <= Total(ws) - 1.0 <= 0.001 then out == ws
       else if -0.000_000_001 < Total(ws) < 0.000_000_001 then forall i :: 0 <= i < |ws| ==> out[i] * |ws| as real == 1.0
       else forall i :: 0 <= i < |ws| ==> out[i] * Total(ws) == ws[i]
  }

  lemma ScaledMeans(ws: seq<real>)
    ensures IsScaled(ws, Scaled(ws))
  {
    hide Total;
    forall i | 0 <= i < |ws|
      ensures 1.0 / |ws| as real * |ws| as real == 1.0
      ensures Total(ws) != 0.0 ==> ws[i] / Total(ws) * Total(ws) == ws[i]
    {
      QuotientBack(1.0, |ws| as real);
      if Total(ws) != 0.0 { QuotientBack(ws[i], Total(ws)); }
    }
  }

  method NormalizeWeights(ws: seq<real>) returns (out: seq<real>)
    ensures out == Scaled(ws) && IsScaled(ws, out)
  {
    ScaledMeans(ws);
    hide IsScaled;
    var sum := 0.0;
    for i := 0 to |ws|
      invariant sum == Total(ws[..i])
    {
      assert ws[..i + 1][..i] == ws[..i];
      sum := sum + ws[i];
    }
    assert ws[..|ws|] == ws;
    if Abs(sum - 1.0) <= 0.001 { return ws; }
    if Abs(sum) < 0.000_000_001 {
      return seq(|ws|, _ => if |ws| == 0 then 0.0 else 1.0 / |ws| as real);
    }
    return seq(|ws|, i requires 0 <= i < |ws| => ws[i] / sum);
  }

  ghost predicate NonNegative(ws: seq<real>) {
    forall i :: 0 <= i < |ws| ==> ws[i] >= 0.0
  }

  lemma {:induction false} TotalOfQuotients(ws: seq<real>, out: seq<real>, m: real)
    requires |out| == |ws| && m > 0.0 && forall i :: 0 <= i < |ws| ==> out[i] == ws[i] / m
    ensures Total(out) == Total(ws) / m
  {
    if ws != [] {
      var n := |ws| - 1;
      TotalOfQuotients(ws[..n], out[..n], m);
      assert (Total(ws[..n]) + ws[n]) / m == Total(ws[..n]) / m + ws[n] / m;
    }
  }

  lemma {:induction false} TotalOfEqual(ws: seq<real>, x: real)
    requires forall i :: 0 <= i < |ws| ==> ws[i] == x
    ensures Total(ws) == |ws| as real * x
  {
    if ws != [] {
      var n := |ws| - 1;
      TotalOfEqual(ws[..n], x);
      assert (n + 1) as real * x == n as real * x + x;
    }
  }

  lemma {:induction false} TotalNonNegative(ws: seq<real>)
    requires NonNegative(ws)
    ensures Total(ws) >= 0.0
  {
    if ws != [] { TotalNonNegative(ws[..|ws| - 1]); }
  }

  lemma ScaledByTotal(ws: seq<real>, out: seq<real>)
    requires NonNegative(ws) && Total(ws) > 0.0 && |out| == |ws|
    requires forall i :: 0 <= i < |ws| ==> out[i] == ws[i] / Total(ws)
    ensures NonNegative(out) && Total(out) == 1.0
  {
    var sum := Total(ws);
    forall i | 0 <= i < |ws|
      ensures out[i] >= 0.0
    {
      DivNonNeg(ws[i], sum);
    }
    TotalOfQuotients(ws, out, sum);
    hide Total;
    SelfRatio(sum);
  }

  lemma EqualShares(out: seq<real>)
    requires out != [] && forall i :: 0 <= i < |out| ==> out[i] == 1.0 / |out| as real
    ensures NonNegative(out) && Total(out) == 1.0
  {
    var n := |out| as real;
    var share := 1.0 / n;
    DivNonNeg(1.0, n);
    TotalOfEqual(out, share);
    Inverse(n);
    assert n * share == 1.0;
  }

  lemma Inverse(n: real)
    requires n > 0.0
    ensures n * (1.0 / n) == 1.0
  {
  }

  /** What the weights sum to in the end: 1, unless they already did give or take 0.001. */
  lemma ScaledTotal(ws: seq<real>)
    requires NonNegative(ws) && ws != []
    ensures NonNegative(Scaled(ws))
    ensures Total(Scaled(ws)) == if Abs(Total(ws) - 1.0) <= 0.001 then Total(ws) else 1.0
    ensures Total(Scaled(ws)) <= 1.001
    ensures Total(Scaled(ws)) <= 1.0 <==> !(1.0 < Total(ws) <= 1.001)
  {
    hide Total, NonNegative;
    TotalNonNegative(ws);
    if Abs(Total(ws) - 1.0) <= 0.001 {
    } else if Abs(Total(ws)) < 0.000_000_001 {
      EqualShares(Scaled(ws));
    } else {
      ScaledByTotal(ws, Scaled(ws));
    }
  }

  /** One of the five measurements of all files. */
  function Column(files: seq<FileMetrics>, cc: seq<real>, nesting: seq<real>, c: nat): seq<real>
    requires |cc| == 2 && |nesting| == 2
  {
    seq(|files|, i requires 0 <= i < |files| => Raw(files[i], cc, nesting, c))
  }

  function Raw(m: FileMetrics, cc: seq<real>, nesting: seq<real>, c: nat): real
    requires |cc| == 2 && |nesting| == 2
  {
    if c == 0 then Times(cc[0], m.maxCc as real) + Times(cc[1], m.avgCc)
    else if c == 1 then Times(nesting[0], m.maxDepth as real) + Times(nesting[1], m.avgDepth)
    else if c == 2 then m.loc as real
    else if c == 3 then m.inbound as real
    else m.outbound as real
  }

  /** The weighted sum of the first c ranks of file i. */
  function Weighted(w: seq<real>, ranks: seq<seq<real>>, i: nat, c: nat): real
    requires c <= |w| == |ranks| && forall k :: 0 <= k < |ranks| ==> i < |ranks[k]|
  {
    if c == 0 then 0.0 else Weighted(w, ranks, i, c - 1) + Times(w[c - 1], ranks[c - 1][i])
  }

  ghost predicate AreRanks(files: seq<FileMetrics>, cc: seq<real>, nesting: seq<real>, ranks: seq<seq<real>>)
    requires |cc| == 2 && |nesting| == 2
  {
    |ranks| == 5 && forall c: nat :: c < 5 ==>
      |ranks[c]| == |files| && IsPercentileRank(Column(files, cc, nesting, c), ranks[c])
  }

  /** The five percentile ranks of a file are those of its cyclomatic complexity and its nesting, each a blend of maximum
      and average, of its lines, and of its dependents and dependencies; the score is their sum under the five weights. */
  ghost predicate IsComplexity(files: seq<FileMetrics>, w: seq<real>, cc: seq<real>, nesting: seq<real>,
                               ranks: seq<seq<real>>, scores: seq<real>)
    requires |w| == 5 && |cc| == 2 && |nesting| == 2
  {
    && |ranks| == 5 && |scores| == |files| && (forall c :: 0 <= c < 5 ==> |ranks[c]| == |files|)
    && RankedAmong(seq(|files|, i requires 0 <= i < |files| => cc[0] * files[i].maxCc as real + cc[1] * files[i].avgCc), ranks[0])
    && RankedAmong(seq(|files|, i requires 0 <= i < |files| => nesting[0] * files[i].maxDepth as real + nesting[1] * files[i].avgDepth), ranks[1])
    && RankedAmong(seq(|files|, i requires 0 <= i < |files| => files[i].loc as real), ranks[2])
    && RankedAmong(seq(|files|, i requires 0 <= i < |files| => files[i].inbound as real), ranks[3])
    && RankedAmong(seq(|files|, i requires 0 <= i < |files| => files[i].outbound as real), ranks[4])
    && forall i :: 0 <= i < |files| ==>
         scores[i] == w[0] * ranks[0][i] + w[1] * ranks[1][i] + w[2] * ranks[2][i] + w[3] * ranks[3][i] + w[4] * ranks[4][i]
  }

  lemma ColumnRanked(files: seq<FileMetrics>, cc: seq<real>, nesting: seq<real>, ranks: seq<seq<real>>, c: nat)
    requires |cc| == 2 && |nesting| == 2 && AreRanks(files, cc, nesting, ranks) && c < 5
    ensures |ranks| == 5 && |ranks[c]| == |files| && RankedAmong(Column(files, cc, nesting, c), ranks[c])
  {
    hide IsPercentileRank, RankedAmong, Column;
    RanksMean(Column(files, cc, nesting, c), ranks[c]);
  }

  lemma FiveColumns(files: seq<FileMetrics>, cc: seq<real>, nesting: seq<real>)
    requires |cc| == 2 && |nesting| == 2
    ensures Column(files, cc, nesting, 0) == seq(|files|, i requires 0 <= i < |files| => cc[0] * files[i].maxCc as real + cc[1] * files[i].avgCc)
    ensures Column(files, cc, nesting, 1) == seq(|files|, i requires 0 <= i < |files| => nesting[0] * files[i].maxDepth as real + nesting[1] * files[i].avgDepth)
    ensures Column(files, cc, nesting, 2) == seq(|files|, i requires 0 <= i < |files| => files[i].loc as real)
    ensures Column(files, cc, nesting, 3) == seq(|files|, i requires 0 <= i < |files| => files[i].inbound as real)
    ensures Column(files, cc, nesting, 4) == seq(|files|, i requires 0 <= i < |files| => files[i].outbound as real)
  {
    forall i | 0 <= i < |files|
      ensures Column(files, cc, nesting, 0)[i] == cc[0] * files[i].maxCc as real + cc[1] * files[i].avgCc
      ensures Column(files, cc, nesting, 1)[i] == nesting[0] * files[i].maxDepth as real + nesting[1] * files[i].avgDepth
    {
      Blends(files[i], cc, nesting);
    }
    hide Raw;
    var first, second := Column(files, cc, nesting, 0), Column(files, cc, nesting, 1);
    var f := seq(|files|, i requires 0 <= i < |files| => cc[0] * files[i].maxCc as real + cc[1] * files[i].avgCc);
    var s := seq(|files|, i requires 0 <= i < |files| => nesting[0] * files[i].maxDepth as real + nesting[1] * files[i].avgDepth);
    assert |first| == |f| && forall i :: 0 <= i < |f| ==> first[i] == f[i];
    assert |second| == |s| && forall i :: 0 <= i < |s| ==> second[i] == s[i];
    assert first == f && second == s;
  }

  lemma Blends(m: FileMetrics, cc: seq<real>, nesting: seq<real>)
    requires |cc| == 2 && |nesting| == 2
    ensures Raw(m, cc, nesting, 0) == cc[0] * m.maxCc as real + cc[1] * m.avgCc
    ensures Raw(m, cc, nesting, 1) == nesting[0] * m.maxDepth as real + nesting[1] * m.avgDepth
  {
  }

  lemma ScoresMean(files: seq<FileMetrics>, w: seq<real>, cc: seq<real>, nesting: seq<real>, ranks: seq<seq<real>>,
                   scores: seq<real>)
    requires |w| == 5 && |cc| == 2 && |nesting| == 2 && AreRanks(files, cc, nesting, ranks) && |scores| == |files|
    requires forall i: nat :: i < |scores| ==> scores[i] == Weighted(w, ranks, i, 5)
    ensures IsComplexity(files, w, cc, nesting, ranks, scores)
  {
    hide RankedAmong, Column, AreRanks, Weighted, Raw;
    ColumnRanked(files, cc, nesting, ranks, 0);
    ColumnRanked(files, cc, nesting, ranks, 1);
    ColumnRanked(files, cc, nesting, ranks, 2);
    ColumnRanked(files, cc, nesting, ranks, 3);
    ColumnRanked(files, cc, nesting, ranks, 4);
    FiveColumns(files, cc, nesting);
    forall i: nat | i < |files|
      ensures scores[i] == w[0] * ranks[0][i] + w[1] * ranks[1][i] + w[2] * ranks[2][i] + w[3] * ranks[3][i] + w[4] * ranks[4][i]
    {
      FiveTerms(w, ranks, i);
    }
  }

  /** ComplexityScorer::compute: five percentile ranks, weighted. */
  method Complexity(files: seq<FileMetrics>, weights: seq<real>, ccBlend: seq<real>, nestingBlend: seq<real>)
      returns (scores: seq<real>, ghost ranks: seq<seq<real>>)
    requires |weights| == 5 && |ccBlend| == 2 && |nestingBlend| == 2
    ensures |scores| == |files| && IsScaled(weights, Scaled(weights))
    ensures IsScaled(ccBlend, Scaled(ccBlend)) && IsScaled(nestingBlend, Scaled(nestingBlend))
    ensures files != [] ==> IsComplexity(files, Scaled(weights), Scaled(ccBlend), Scaled(nestingBlend), ranks, scores)
    ensures files != [] ==> AreRanks(files, Scaled(ccBlend), Scaled(nestingBlend), ranks)
    ensures files != [] ==> forall i: nat :: i < |scores| ==> scores[i] == Weighted(Scaled(weights), ranks, i, 5)
  {
    hide Scaled, IsScaled, IsComplexity;
    scores, ranks := [], [];
    var w := NormalizeWeights(weights);
    var cc := NormalizeWeights(ccBlend);
    var nesting := NormalizeWeights(nestingBlend);
    hide Raw, Weighted, IsPercentileRank;
    if files == [] { return; }
    var columns: seq<seq<real>> := [];
    for c: nat := 0 to 5
      invariant |columns| == c
      invariant forall k: nat :: k < c ==> IsPercentileRank(Column(files, cc, nesting, k), columns[k])
      invariant forall k: nat :: k < c ==> |columns[k]| == |files|
    {
      var raw: seq<real> := [];
      for i := 0 to |files|
        invariant |raw| == i
        invariant forall k :: 0 <= k < i ==> raw[k] == Raw(files[k], cc, nesting, c)
      {
        raw := raw + [Raw(files[i], cc, nesting, c)];
      }
      assert raw == Column(files, cc, nesting, c);
      var pct := PercentileRankNormalize(raw);
      RankSize(raw, pct);
      columns := columns + [pct];
    }
    ranks := columns;
    for i: nat := 0 to |files|
      invariant |scores| == i
      invariant forall k: nat :: k < i ==> scores[k] == Weighted(w, columns, k, 5)
    {
      FiveTerms(w, columns, i);
      scores := scores + [Times(w[0], columns[0][i]) + Times(w[1], columns[1][i]) + Times(w[2], columns[2][i]) +
                          Times(w[3], columns[3][i]) + Times(w[4], columns[4][i])];
    }
    ScoresMean(files, w, cc, nesting, columns, scores);
  }

  lemma RankSize(values: seq<real>, ranks: seq<real>)
    requires IsPercentileRank(values, ranks)
    ensures |ranks| == |values|
  {
  }

  lemma FiveTerms(w: seq<real>, ranks: seq<seq<real>>, i: nat)
    requires |w| == |ranks| == 5 && forall k :: 0 <= k < |ranks| ==> i < |ranks[k]|
    ensures Weighted(w, ranks, i, 5) == Times(w[0], ranks[0][i]) + Times(w[1], ranks[1][i]) + Times(w[2], ranks[2][i]) +
                                        Times(w[3], ranks[3][i]) + Times(w[4], ranks[4][i])
  {
    hide Times;
    assert Weighted(w, ranks, i, 1) == Times(w[0], ranks[0][i]);
    assert Weighted(w, ranks, i, 2) == Times(w[0], ranks[0][i]) + Times(w[1], ranks[1][i]);
    assert Weighted(w, ranks, i, 3) == Times(w[0], ranks[0][i]) + Times(w[1], ranks[1][i]) + Times(w[2], ranks[2][i]);
    assert Weighted(w, ranks, i, 5) == Weighted(w, ranks, i, 4) + Times(w[4], ranks[4][i]);
  }

  /** A weighted sum of ranks is at most the sum of the weights, and reaches it when every rank is 1. */
  lemma {:induction false} WeightedBound(w: seq<real>, ranks: seq<seq<real>>, i: nat, c: nat)
    requires c <= |w| == |ranks| && NonNegative(w) && forall k :: 0 <= k < |ranks| ==> i < |ranks[k]| && 0.0 <= ranks[k][i] <= 1.0
    ensures 0.0 <= Weighted(w, ranks, i, c) <= Total(w[..c])
    ensures (forall k :: 0 <= k < c ==> ranks[k][i] == 1.0) ==> Weighted(w, ranks, i, c) == Total(w[..c])
  {
    if c > 0 {
      WeightedBound(w, ranks, i, c - 1);
      assert w[..c][..c - 1] == w[..c - 1];
      Term(w[c - 1], ranks[c - 1][i]);
    }
  }

  /** The file is first in every measurement. */
  ghost predicate Foremost(files: seq<FileMetrics>, cc: seq<real>, nesting: seq<real>, i: nat)
    requires |cc| == 2 && |nesting| == 2 && i < |files|
  {
    forall c: nat, j: nat :: c < 5 && j < |files| && j != i ==>
      Column(files, cc, nesting, c)[j] < Column(files, cc, nesting, c)[i]
  }

  /** A value above all others has rank 1. */
  lemma TopRank(values: seq<real>, ranks: seq<real>, i: nat)
    requires IsPercentileRank(values, ranks) && i < |values| && |values| >= 2
    requires forall j :: 0 <= j < |values| && j != i ==> values[j] < values[i]
    ensures ranks[i] == 1.0
  {
    CountRemove(values, i, Below(values[i]));
    var rest := values[..i] + values[i + 1..];
    forall k | 0 <= k < |rest|
      ensures Below(values[i])(rest[k])
    {
      assert rest[k] == values[if k < i then k else k + 1];
    }
    CountIsAll(rest, Below(values[i]));
    var other: nat := if i == 0 then 1 else 0;
    assert values[other] < values[i];
    hide Count;
    SelfRatio((|values| - 1) as real);
  }

  /** Complexity scores lie between 0 and what the scaled weights sum to, and a file that is first in every measurement
      gets just that: the scores are bounded by 1 exactly if the configured weights do not sum to more than 1 by at most
      0.001, and by 1.001 in any case. */
  lemma ComplexityBound(files: seq<FileMetrics>, weights: seq<real>, ccBlend: seq<real>, nestingBlend: seq<real>,
                        ranks: seq<seq<real>>, i: nat)
    requires |weights| == 5 && |ccBlend| == 2 && |nestingBlend| == 2 && NonNegative(weights) && i < |files|
    requires AreRanks(files, Scaled(ccBlend), Scaled(nestingBlend), ranks)
    ensures 0.0 <= Weighted(Scaled(weights), ranks, i, 5) <= Total(Scaled(weights)) <= 1.001
    ensures |files| >= 2 && Foremost(files, Scaled(ccBlend), Scaled(nestingBlend), i) ==>
      Weighted(Scaled(weights), ranks, i, 5) == Total(Scaled(weights))
    ensures Total(Scaled(weights)) <= 1.0 <==> !(1.0 < Total(weights) <= 1.001)
  {
    ScaledTotal(weights);
    var cc, nesting, w := Scaled(ccBlend), Scaled(nestingBlend), Scaled(weights);
    hide Scaled, Raw, Weighted, IsPercentileRank, Total;
    forall c: nat | c < 5
      ensures 0.0 <= ranks[c][i] <= 1.0
      ensures |files| >= 2 && Foremost(files, cc, nesting, i) ==> ranks[c][i] == 1.0
    {
      RanksKeepOrder(Column(files, cc, nesting, c), ranks[c], i, i);
      if |files| >= 2 && Foremost(files, cc, nesting, i) { TopRank(Column(files, cc, nesting, c), ranks[c], i); }
    }
    WeightedBound(w, ranks, i, 5);
    assert w[..5] == w;
  }

  const NO_METRICS := FileMetrics(0, 0.0, 0, 0.0, 0, 0, 0)
  const ALL_METRICS := FileMetrics(1, 1.0, 1, 1.0, 1, 1, 1)

  lemma BlendIsPositive(blend: seq<real>)
    requires |blend| == 2 && NonNegative(blend)
    ensures Scaled(blend)[0] + Scaled(blend)[1] > 0.0
  {
    ScaledTotal(blend);
    var w := Scaled(blend);
    assert Total(w[..1]) == w[0] by { assert w[..1][..0] == []; }
    hide Scaled;
    assert Total(w) == Total(w[..1]) + w[1];
  }

  /** A population of two in which the second file leads in every measurement. */
  lemma TwoFiles(cc: seq<real>, nesting: seq<real>, c: nat)
    requires |cc| == 2 && |nesting| == 2 && cc[0] + cc[1] > 0.0 && nesting[0] + nesting[1] > 0.0 && c < 5
    ensures var values := Column([NO_METRICS, ALL_METRICS], cc, nesting, c); |values| == 2 && values[0] < values[1]
  {
  }

  /** Two different values have the ranks 0 and 1. */
  lemma TwoRanks(values: seq<real>)
    requires |values| == 2 && values[0] < values[1]
    ensures IsPercentileRank(values, [0.0, 1.0])
  {
    var low, high := values[0], values[1];
    assert values == [low, high] && [low, high][1..] == [high] && [high][1..] == [];
    assert Count([high], Below(low)) == 0 && Count([high], Below(high)) == 0;
    assert Count(values, Below(low)) == 0 && Count(values, Below(high)) == 1;
  }

  /** A file population in which some score is the whole sum of the weights. */
  lemma LeaderExists(weights: seq<real>, ccBlend: seq<real>, nestingBlend: seq<real>)
      returns (files: seq<FileMetrics>, ranks: seq<seq<real>>)
    requires |weights| == 5 && |ccBlend| == 2 && |nestingBlend| == 2
    requires NonNegative(weights) && NonNegative(ccBlend) && NonNegative(nestingBlend)
    ensures |files| == 2 && Foremost(files, Scaled(ccBlend), Scaled(nestingBlend), 1)
    ensures AreRanks(files, Scaled(ccBlend), Scaled(nestingBlend), ranks)
    ensures Weighted(Scaled(weights), ranks, 1, 5) == Total(Scaled(weights))
  {
    BlendIsPositive(ccBlend);
    BlendIsPositive(nestingBlend);
    var cc, nesting := Scaled(ccBlend), Scaled(nestingBlend);
    files, ranks := [NO_METRICS, ALL_METRICS], seq(5, _ => [0.0, 1.0]);
    hide Raw, IsPercentileRank, Scaled, Total, Weighted;
    forall c: nat | c < 5
      ensures IsPercentileRank(Column(files, cc, nesting, c), ranks[c])
      ensures Column(files, cc, nesting, c)[0] < Column(files, cc, nesting, c)[1]
    {
      TwoFiles(cc, nesting, c);
      TwoRanks(Column(files, cc, nesting, c));
    }
    ComplexityBound(files, weights, ccBlend, nestingBlend, ranks, 1);
  }

  /** No file of any population gets a complexity score above 1. */
  ghost predicate BoundedByOne(weights: seq<real>, ccBlend: seq<real>, nestingBlend: seq<real>)
    requires |weights| == 5 && |ccBlend| == 2 && |nestingBlend| == 2
  {
    forall files, ranks, i: nat :: i < |files| && AreRanks(files, Scaled(ccBlend), Scaled(nestingBlend), ranks) ==>
      Weighted(Scaled(weights), ranks, i, 5) <= 1.0
  }

  /** Exactly when complexity scores lie in the unit interval, for weights that are not negative. */
  lemma ScoresBoundedByOneIff(weights: seq<real>, ccBlend: seq<real>, nestingBlend: seq<real>)
    requires |weights| == 5 && |ccBlend| == 2 && |nestingBlend| == 2
    requires NonNegative(weights) && NonNegative(ccBlend) && NonNegative(nestingBlend)
    ensures BoundedByOne(weights, ccBlend, nestingBlend) <==> !(1.0 < Total(weights) <= 1.001)
  {
    hide Scaled, Total, AreRanks, Weighted;
    ScaledTotal(weights);
    var two, ranks := LeaderExists(weights, ccBlend, nestingBlend);
    if !(1.0 < Total(weights) <= 1.001) {
      forall files, r, i: nat | i < |files| && AreRanks(files, Scaled(ccBlend), Scaled(nestingBlend), r)
        ensures RanksFit(files, r)
        ensures Weighted(Scaled(weights), r, i, 5) <= 1.0
      {
        FittingRanks(files, Scaled(ccBlend), Scaled(nestingBlend), r);
        ComplexityBound(files, weights, ccBlend, nestingBlend, r, i);
      }
    }
  }

  predicate RanksFit(files: seq<FileMetrics>, ranks: seq<seq<real>>) {
    |ranks| == 5 && forall c: nat :: c < 5 ==> |ranks[c]| == |files|
  }

  lemma FittingRanks(files: seq<FileMetrics>, cc: seq<real>, nesting: seq<real>, ranks: seq<seq<real>>)
    requires |cc| == 2 && |nesting| == 2 && AreRanks(files, cc, nesting, ranks)
    ensures RanksFit(files, ranks)
  {
  }
}
