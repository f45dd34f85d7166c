/** Gold files that are listed more than once: when the pessimistic order still finds the fewest different ones in
    every prefix. */
module RepeatedGold {
  import opened Sorting
  import opened MemberOrder
  import opened Counting
  import opened TieBreaking

  /** The different gold files among some entries. */
  function GoldIds(s: seq<Candidate>, gold: set<string>): set<string> {
    set f | f in gold && Lists(s, f)
  }

  predicate Lists(s: seq<Candidate>, f: string) {
    exists i :: 0 <= i < |s| && s[i].id == f
  }

  /** The file is listed above the level. */
  predicate Old(s: seq<Candidate>, quantum: real, l: Level, f: string)
    requires quantum > 0.0
  {
    exists i :: 0 <= i < |s| && s[i].id == f && Higher(LevelOf(s[i].score, quantum), l)
  }

  function EntryOf(quantum: real, l: Level, f: string): Candidate -> bool
    requires quantum > 0.0
  {
    (c: Candidate) => c.id == f && LevelOf(c.score, quantum) == l
  }

  /** How often the file is listed at the level. */
  function Number(s: seq<Candidate>, quantum: real, l: Level, f: string): nat
    requires quantum > 0.0
  {
    Count(s, EntryOf(quantum, l, f))
  }

  /** The first file may stand before the second: it was found higher up, or it is listed at least as often and the second
      was not found either. */
  predicate MayPrecede(s: seq<Candidate>, quantum: real, l: Level, x: string, y: string)
    requires quantum > 0.0
  {
    Old(s, quantum, l, x) || (!Old(s, quantum, l, y) && Number(s, quantum, l, x) >= Number(s, quantum, l, y))
  }

  /** Two gold entries of one tie, in the order of their names. */
  predicate TiedGold(x: Candidate, y: Candidate, gold: set<string>, quantum: real)
    requires quantum > 0.0
  {
    x.id in gold && y.id in gold && LevelOf(x.score, quantum) == LevelOf(y.score, quantum) && LexLess(x.id, y.id)
  }

  /** In every tie, the gold files in the order of their names are first those found at higher levels, and then the others
      by the number of their entries, falling. */
  predicate GoldFalls(s: seq<Candidate>, gold: set<string>, quantum: real)
    requires quantum > 0.0
  {
    forall i, j :: 0 <= i < |s| && 0 <= j < |s| && TiedGold(s[i], s[j], gold, quantum) ==>
      MayPrecede(s, quantum, LevelOf(s[i].score, quantum), s[i].id, s[j].id)
  }

  // ---- The condition belongs to the candidates, not to their order -----------------------

  lemma SameEntry(a: seq<Candidate>, b: seq<Candidate>, i: nat) returns (j: nat)
    requires multiset(a) == multiset(b) && i < |a|
    ensures j < |b| && b[j] == a[i]
  {
    SameMembers(a, b);
    assert a[i] in b;
    j :| j < |b| && b[j] == a[i];
  }

  lemma SameOld(a: seq<Candidate>, b: seq<Candidate>, quantum: real, l: Level, f: string)
    requires quantum > 0.0 && multiset(a) == multiset(b) && Old(a, quantum, l, f)
    ensures Old(b, quantum, l, f)
  {
    var i: nat :| i < |a| && a[i].id == f && Higher(LevelOf(a[i].score, quantum), l);
    var j := SameEntry(a, b, i);
  }

  lemma SamePrecedence(a: seq<Candidate>, b: seq<Candidate>, quantum: real, l: Level, x: string, y: string)
    requires quantum > 0.0 && multiset(a) == multiset(b) && MayPrecede(a, quantum, l, x, y)
    ensures MayPrecede(b, quantum, l, x, y)
  {
    CountPermutation(a, b, EntryOf(quantum, l, x));
    CountPermutation(a, b, EntryOf(quantum, l, y));
    if Old(a, quantum, l, x) { SameOld(a, b, quantum, l, x); }
    if Old(b, quantum, l, y) { SameOld(b, a, quantum, l, y); }
  }

  lemma SameFall(a: seq<Candidate>, b: seq<Candidate>, gold: set<string>, quantum: real)
    requires quantum > 0.0 && multiset(a) == multiset(b) && GoldFalls(a, gold, quantum)
    ensures GoldFalls(b, gold, quantum)
  {
    hide MayPrecede, LevelOf, TiedGold;
    forall i, j | 0 <= i < |b| && 0 <= j < |b| && TiedGold(b[i], b[j], gold, quantum)
      ensures MayPrecede(b, quantum, LevelOf(b[i].score, quantum), b[i].id, b[j].id)
    {
      var p := SameEntry(b, a, i);
      var q := SameEntry(b, a, j);
      assert MayPrecede(a, quantum, LevelOf(a[p].score, quantum), a[p].id, a[q].id);
      SamePrecedence(a, b, quantum, LevelOf(b[i].score, quantum), b[i].id, b[j].id);
    }
  }

  // ---- Weights of sets of files ----------------------------------------------------------

  /** The entries at a level that list one of the files. */
  function EntryIn(quantum: real, l: Level, files: set<string>): Candidate -> bool
    requires quantum > 0.0
  {
    (c: Candidate) => c.id in files && LevelOf(c.score, quantum) == l
  }

  function Weight(s: seq<Candidate>, quantum: real, l: Level, files: set<string>): nat
    requires quantum > 0.0
  {
    Count(s, EntryIn(quantum, l, files))
  }

  lemma WeightSplit(s: seq<Candidate>, quantum: real, l: Level, a: set<string>, b: set<string>)
    requires quantum > 0.0 && a !! b
    ensures Weight(s, quantum, l, a + b) == Weight(s, quantum, l, a) + Weight(s, quantum, l, b)
  {
    CountDisjoint(s, EntryIn(quantum, l, a), EntryIn(quantum, l, b), EntryIn(quantum, l, a + b));
  }

  lemma WeightOfOne(s: seq<Candidate>, quantum: real, l: Level, f: string)
    requires quantum > 0.0
    ensures Weight(s, quantum, l, {f}) == Number(s, quantum, l, f)
    ensures Weight(s, quantum, l, {}) == 0
  {
    CountLeq(s, EntryIn(quantum, l, {f}), EntryOf(quantum, l, f));
    CountLeq(s, EntryOf(quantum, l, f), EntryIn(quantum, l, {f}));
    CountIsZero(s, EntryIn(quantum, l, {}));
  }

  lemma Once(c: nat, n: nat)
    requires n > 0
    ensures c * n == c * (n - 1) + c
  {
  }

  lemma {:induction false} WeightAtMost(s: seq<Candidate>, quantum: real, l: Level, files: set<string>, c: nat)
    requires quantum > 0.0 && forall f :: f in files ==> Number(s, quantum, l, f) <= c
    ensures Weight(s, quantum, l, files) <= c * |files|
  {
    WeightOfOne(s, quantum, l, "");
    if files != {} {
      var f :| f in files;
      WeightOfOne(s, quantum, l, f);
      WeightSplit(s, quantum, l, {f}, files - {f});
      assert {f} + (files - {f}) == files;
      WeightAtMost(s, quantum, l, files - {f}, c);
      Once(c, |files|);
    }
  }

  lemma {:induction false} WeightAtLeast(s: seq<Candidate>, quantum: real, l: Level, files: set<string>, c: nat)
    requires quantum > 0.0 && forall f :: f in files ==> Number(s, quantum, l, f) >= c
    ensures Weight(s, quantum, l, files) >= c * |files|
  {
    WeightOfOne(s, quantum, l, "");
    if files != {} {
      var f :| f in files;
      WeightOfOne(s, quantum, l, f);
      WeightSplit(s, quantum, l, {f}, files - {f});
      assert {f} + (files - {f}) == files;
      WeightAtLeast(s, quantum, l, files - {f}, c);
      Once(c, |files|);
    }
  }

  lemma Products(c: nat, m: nat, n: nat)
    requires m <= n
    ensures c * m <= c * n
  {
  }

  /** A set of more weight has more files, if all that it has in addition are light and all that it lacks are heavy. */
  lemma MoreWeightMoreFiles(s: seq<Candidate>, quantum: real, l: Level, light: set<string>, heavy: set<string>, c: nat)
    requires quantum > 0.0 && Weight(s, quantum, l, light) > Weight(s, quantum, l, heavy)
    requires forall f :: f in light - heavy ==> Number(s, quantum, l, f) <= c
    requires forall f :: f in heavy - light ==> Number(s, quantum, l, f) >= c
    ensures |light| > |heavy|
  {
    hide Weight, Number;
    var both := light * heavy;
    WeightSplit(s, quantum, l, both, light - heavy);
    WeightSplit(s, quantum, l, both, heavy - light);
    assert both + (light - heavy) == light && both + (heavy - light) == heavy;
    WeightAtMost(s, quantum, l, light - heavy, c);
    WeightAtLeast(s, quantum, l, heavy - light, c);
    if |light - heavy| <= |heavy - light| { Products(c, |light - heavy|, |heavy - light|); }
  }

  // ---- The condition suffices ------------------------------------------------------------

  /** The gold files listed above the level. */
  function OldIds(s: seq<Candidate>, gold: set<string>, quantum: real, l: Level): set<string>
    requires quantum > 0.0
  {
    set f | f in gold && Old(s, quantum, l, f)
  }

  lemma SubsetOfIds(s: seq<Candidate>, gold: set<string>, k: nat, f: string)
    requires k <= |s|
    ensures f in GoldIds(s[..k], gold) <==> f in gold && exists i :: 0 <= i < k && s[i].id == f
  {
    if exists i :: 0 <= i < k && s[i].id == f {
      var i :| 0 <= i < k && s[i].id == f;
      assert s[..k][i] == s[i];
    }
  }

  lemma InPrefix(s: seq<Candidate>, gold: set<string>, k: nat, i: nat)
    requires i < k <= |s| && s[i].id in gold
    ensures s[i].id in GoldIds(s[..k], gold)
  {
    assert s[..k][i].id == s[i].id;
  }

  /** Every prefix that ends at the level or lower holds all that is above. */
  lemma OldIdsInPrefix(a: seq<Candidate>, b: seq<Candidate>, gold: set<string>, quantum: real, k: nat)
    requires quantum > 0.0 && multiset(a) == multiset(b) && Descending(a, quantum) && Descending(b, quantum)
    requires 0 < k <= |a| == |b|
    ensures OldIds(a, gold, quantum, LevelOf(a[k - 1].score, quantum)) <= GoldIds(b[..k], gold)
  {
    var l := LevelOf(a[k - 1].score, quantum);
    var above := (c: Candidate) => Above(quantum, l, c);
    CountSplit(a, k, above);
    CountIsZero(a[k..], above);
    CountPermutation(a, b, above);
    NoneAboveAfter(b, quantum, l, k);
    forall f | f in OldIds(a, gold, quantum, l)
      ensures f in GoldIds(b[..k], gold)
    {
      SameOld(a, b, quantum, l, f);
      var i: nat :| i < |b| && b[i].id == f && Higher(LevelOf(b[i].score, quantum), l);
      assert i < k;
      SubsetOfIds(b, gold, k, f);
    }
  }

  /** What the prefix of the pessimistic order finds at the level of its last entry, not above. */
  lemma FoundInTie(a: seq<Candidate>, gold: set<string>, quantum: real, k: nat, f: string) returns (i: nat)
    requires quantum > 0.0 && Descending(a, quantum) && SortedBy(KeyOrder(gold, quantum), a) && 0 < k <= |a|
    requires f in GoldIds(a[..k], gold) - OldIds(a, gold, quantum, LevelOf(a[k - 1].score, quantum))
    ensures i < k && a[i].id == f && f in gold && LevelOf(a[i].score, quantum) == LevelOf(a[k - 1].score, quantum)
    ensures a[k - 1].id in gold && (f == a[k - 1].id || LexLess(f, a[k - 1].id))
  {
    var l := LevelOf(a[k - 1].score, quantum);
    SubsetOfIds(a, gold, k, f);
    i :| i < k && a[i].id == f;
    assert !Higher(LevelOf(a[i].score, quantum), l);
    if i < k - 1 {
      assert !Higher(l, LevelOf(a[i].score, quantum));
      assert !KeyOrder(gold, quantum)(a[k - 1], a[i]);
      if !LexLess(f, a[k - 1].id) { LexTotal(f, a[k - 1].id); }
    }
  }

  /** If the prefix found anything new in the tie, its last entry is new too. */
  lemma NewLast(a: seq<Candidate>, gold: set<string>, quantum: real, k: nat, f: string)
    requires quantum > 0.0 && Descending(a, quantum) && SortedBy(KeyOrder(gold, quantum), a) && GoldFalls(a, gold, quantum)
    requires 0 < k <= |a|
    requires f in GoldIds(a[..k], gold) - OldIds(a, gold, quantum, LevelOf(a[k - 1].score, quantum))
    ensures a[k - 1].id in gold && !Old(a, quantum, LevelOf(a[k - 1].score, quantum), a[k - 1].id)
  {
    GoldInIds(a, gold, k);
    var i := FoundInTie(a, gold, quantum, k, f);
    hide SortedBy, KeyOrder, GoldIds, Old, Number;
    if f != a[k - 1].id { assert TiedGold(a[i], a[k - 1], gold, quantum); }
  }

  /** The prefix ends in a file that is not gold or was found higher up: it has found only what is above. */
  lemma NothingNewLast(a: seq<Candidate>, gold: set<string>, quantum: real, k: nat)
    requires quantum > 0.0 && Descending(a, quantum) && SortedBy(KeyOrder(gold, quantum), a) && GoldFalls(a, gold, quantum)
    requires 0 < k <= |a|
    requires a[k - 1].id !in gold || Old(a, quantum, LevelOf(a[k - 1].score, quantum), a[k - 1].id)
    ensures GoldIds(a[..k], gold) <= OldIds(a, gold, quantum, LevelOf(a[k - 1].score, quantum))
  {
    hide SortedBy, KeyOrder, GoldIds, GoldFalls, Old, OldIds;
    forall f | f in GoldIds(a[..k], gold)
      ensures f in OldIds(a, gold, quantum, LevelOf(a[k - 1].score, quantum))
    {
      if f !in OldIds(a, gold, quantum, LevelOf(a[k - 1].score, quantum)) { NewLast(a, gold, quantum, k, f); }
    }
  }

  lemma GoldInIds(a: seq<Candidate>, gold: set<string>, k: nat)
    requires k <= |a|
    ensures GoldIds(a[..k], gold) <= gold
  {
  }

  /** An entry that adds nothing new: above the level, or at it and not gold or found above. */
  ghost predicate Idle(s: seq<Candidate>, gold: set<string>, quantum: real, l: Level, c: Candidate)
    requires quantum > 0.0
  {
    Higher(LevelOf(c.score, quantum), l) ||
    (LevelOf(c.score, quantum) == l && (c.id !in gold || Old(s, quantum, l, c.id)))
  }

  ghost function IdleTest(s: seq<Candidate>, gold: set<string>, quantum: real, l: Level): Candidate -> bool
    requires quantum > 0.0
  {
    (c: Candidate) => Idle(s, gold, quantum, l, c)
  }

  ghost function IdleOrIn(s: seq<Candidate>, gold: set<string>, quantum: real, l: Level, files: set<string>): Candidate -> bool
    requires quantum > 0.0
  {
    (c: Candidate) => Idle(s, gold, quantum, l, c) || EntryIn(quantum, l, files)(c)
  }

  /** The files in question are gold and were not found above. */
  ghost predicate AreNew(s: seq<Candidate>, gold: set<string>, quantum: real, l: Level, files: set<string>)
    requires quantum > 0.0
  {
    forall f :: f in files ==> f in gold && !Old(s, quantum, l, f)
  }

  lemma IdlePlusWeight(s: seq<Candidate>, gold: set<string>, quantum: real, l: Level, files: set<string>)
    requires quantum > 0.0 && AreNew(s, gold, quantum, l, files)
    ensures Count(s, IdleOrIn(s, gold, quantum, l, files)) ==
            Count(s, IdleTest(s, gold, quantum, l)) + Weight(s, quantum, l, files)
  {
    hide Old, LevelOf;
    CountDisjoint(s, IdleTest(s, gold, quantum, l), EntryIn(quantum, l, files), IdleOrIn(s, gold, quantum, l, files));
  }

  /** The files found in the tie before the last entry's own file. */
  function Before(a: seq<Candidate>, gold: set<string>, quantum: real, k: nat): set<string>
    requires quantum > 0.0 && 0 < k <= |a|
  {
    GoldIds(a[..k], gold) - OldIds(a, gold, quantum, LevelOf(a[k - 1].score, quantum)) - {a[k - 1].id}
  }

  /** From the last entry on, nothing is idle and nothing lists a file found before. */
  lemma LastOnIsNew(a: seq<Candidate>, gold: set<string>, quantum: real, k: nat, i: nat)
    requires quantum > 0.0 && Descending(a, quantum) && SortedBy(KeyOrder(gold, quantum), a) && GoldFalls(a, gold, quantum)
    requires 0 < k <= |a| && k - 1 <= i < |a| && a[k - 1].id in gold
    requires !Old(a, quantum, LevelOf(a[k - 1].score, quantum), a[k - 1].id)
    ensures !IdleOrIn(a, gold, quantum, LevelOf(a[k - 1].score, quantum), Before(a, gold, quantum, k))(a[i])
  {
    var l, x := LevelOf(a[k - 1].score, quantum), a[k - 1].id;
    var c := a[i];
    assert !Higher(LevelOf(c.score, quantum), l) by { if i >= k { assert Descending(a, quantum); } }
    if i >= k && LevelOf(c.score, quantum) == l {
      LaterInTie(a, gold, quantum, k, i);
      if c.id != x {
        assert TiedGold(a[k - 1], c, gold, quantum);
        assert MayPrecede(a, quantum, l, x, c.id);
        NotBefore(a, gold, quantum, k, c.id);
      }
    }
    assert !Idle(a, gold, quantum, l, c) && !EntryIn(quantum, l, Before(a, gold, quantum, k))(c);
  }

  lemma LaterInTie(a: seq<Candidate>, gold: set<string>, quantum: real, k: nat, i: nat)
    requires quantum > 0.0 && SortedBy(KeyOrder(gold, quantum), a) && 0 < k <= i < |a| && a[k - 1].id in gold
    requires LevelOf(a[i].score, quantum) == LevelOf(a[k - 1].score, quantum)
    ensures a[i].id in gold && !LexLess(a[i].id, a[k - 1].id)
    ensures a[i].id == a[k - 1].id || LexLess(a[k - 1].id, a[i].id)
  {
    assert !KeyOrder(gold, quantum)(a[i], a[k - 1]);
    if !LexLess(a[k - 1].id, a[i].id) { LexTotal(a[i].id, a[k - 1].id); }
  }

  lemma NotBefore(a: seq<Candidate>, gold: set<string>, quantum: real, k: nat, f: string)
    requires quantum > 0.0 && Descending(a, quantum) && SortedBy(KeyOrder(gold, quantum), a) && 0 < k <= |a|
    requires !LexLess(f, a[k - 1].id)
    ensures f !in Before(a, gold, quantum, k)
  {
    hide GoldIds, OldIds, LexLess, SortedBy, KeyOrder;
    if f in Before(a, gold, quantum, k) {
      var i := FoundInTie(a, gold, quantum, k, f);
    }
  }

  lemma CountUpTo(s: seq<Candidate>, n: nat, test: Candidate -> bool)
    requires n <= |s| && forall i :: n <= i < |s| ==> !test(s[i])
    ensures Count(s, test) <= n
  {
    CountSplit(s, n, test);
    CountIsZero(s[n..], test);
  }

  lemma FewBefore(a: seq<Candidate>, gold: set<string>, quantum: real, k: nat)
    requires quantum > 0.0 && Descending(a, quantum) && SortedBy(KeyOrder(gold, quantum), a) && GoldFalls(a, gold, quantum)
    requires 0 < k <= |a| && a[k - 1].id in gold && !Old(a, quantum, LevelOf(a[k - 1].score, quantum), a[k - 1].id)
    ensures Count(a, IdleOrIn(a, gold, quantum, LevelOf(a[k - 1].score, quantum), Before(a, gold, quantum, k))) < k
  {
    hide Before, IdleOrIn, Descending, SortedBy, GoldFalls, Old, LevelOf, KeyOrder, Count;
    var test := IdleOrIn(a, gold, quantum, LevelOf(a[k - 1].score, quantum), Before(a, gold, quantum, k));
    forall i | k - 1 <= i < |a|
      ensures !test(a[i])
    {
      LastOnIsNew(a, gold, quantum, k, i);
    }
    CountUpTo(a, k - 1, test);
  }

  /** The files that another order has found in the tie after as many entries. */
  function Rival(a: seq<Candidate>, b: seq<Candidate>, gold: set<string>, quantum: real, k: nat): set<string>
    requires quantum > 0.0 && 0 < k <= |a| == |b|
  {
    GoldIds(b[..k], gold) - OldIds(a, gold, quantum, LevelOf(a[k - 1].score, quantum))
  }

  lemma ManyRivals(a: seq<Candidate>, b: seq<Candidate>, gold: set<string>, quantum: real, k: nat)
    requires quantum > 0.0 && multiset(a) == multiset(b) && Descending(a, quantum) && Descending(b, quantum)
    requires 0 < k <= |a| == |b|
    ensures Count(a, IdleOrIn(a, gold, quantum, LevelOf(a[k - 1].score, quantum), Rival(a, b, gold, quantum, k))) >= k
  {
    var l := LevelOf(a[k - 1].score, quantum);
    var test := IdleOrIn(a, gold, quantum, l, Rival(a, b, gold, quantum, k));
    PrefixOfLevel(a, b, quantum, k);
    hide IdleOrIn, Descending, Rival, LevelOf, AtLeast;
    var head := b[..k];
    forall i | 0 <= i < |head|
      ensures test(head[i])
    {
      IdleOrRival(a, b, gold, quantum, k, i);
    }
    CountIsAll(head, test);
    CountSplit(b, k, test);
    CountPermutation(a, b, test);
  }

  /** As many entries as the prefix has are at its last level or above, so those of another order are too. */
  lemma PrefixOfLevel(a: seq<Candidate>, b: seq<Candidate>, quantum: real, k: nat)
    requires quantum > 0.0 && multiset(a) == multiset(b) && Descending(a, quantum) && Descending(b, quantum)
    requires 0 < k <= |a| == |b|
    ensures forall i :: 0 <= i < k ==> AtLeast(quantum, LevelOf(a[k - 1].score, quantum), b[i])
  {
    var l := LevelOf(a[k - 1].score, quantum);
    var atLeast := (c: Candidate) => AtLeast(quantum, l, c);
    CountIsAll(a[..k], atLeast);
    CountSplit(a, k, atLeast);
    CountPermutation(a, b, atLeast);
    PrefixAtLeast(b, quantum, l, k);
  }

  lemma IdleOrRival(a: seq<Candidate>, b: seq<Candidate>, gold: set<string>, quantum: real, k: nat, i: nat)
    requires quantum > 0.0 && 0 < k <= |a| == |b| && i < k
    requires AtLeast(quantum, LevelOf(a[k - 1].score, quantum), b[i])
    ensures IdleOrIn(a, gold, quantum, LevelOf(a[k - 1].score, quantum), Rival(a, b, gold, quantum, k))(b[i])
  {
    LevelTotal(LevelOf(a[k - 1].score, quantum), LevelOf(b[i].score, quantum));
    if b[i].id in gold { InPrefix(b, gold, k, i); }
    hide LevelOf, Old, GoldIds;
    var l := LevelOf(a[k - 1].score, quantum);
    assert Idle(a, gold, quantum, l, b[i]) || EntryIn(quantum, l, Rival(a, b, gold, quantum, k))(b[i]);
  }

  lemma LevelTotal(a: Level, b: Level)
    ensures !Higher(a, b) && !Higher(b, a) ==> a == b
  {
  }

  lemma BeforeIsNew(a: seq<Candidate>, gold: set<string>, quantum: real, k: nat)
    requires quantum > 0.0 && 0 < k <= |a|
    ensures AreNew(a, gold, quantum, LevelOf(a[k - 1].score, quantum), Before(a, gold, quantum, k))
  {
    GoldInIds(a, gold, k);
    hide GoldIds, Old;
  }

  lemma RivalIsNew(a: seq<Candidate>, b: seq<Candidate>, gold: set<string>, quantum: real, k: nat)
    requires quantum > 0.0 && 0 < k <= |a| == |b|
    ensures AreNew(a, gold, quantum, LevelOf(a[k - 1].score, quantum), Rival(a, b, gold, quantum, k))
  {
    GoldInIds(b, gold, k);
    hide GoldIds, Old;
  }

  /** What stands before the last file in the tie is listed at least as often as it, what does not at most as often. */
  lemma HeavyBefore(a: seq<Candidate>, gold: set<string>, quantum: real, k: nat, f: string)
    requires quantum > 0.0 && Descending(a, quantum) && SortedBy(KeyOrder(gold, quantum), a) && GoldFalls(a, gold, quantum)
    requires 0 < k <= |a| && f in Before(a, gold, quantum, k)
    ensures var l := LevelOf(a[k - 1].score, quantum);
            Number(a, quantum, l, f) >= Number(a, quantum, l, a[k - 1].id)
  {
    GoldInIds(a, gold, k);
    var i := FoundInTie(a, gold, quantum, k, f);
    hide SortedBy, KeyOrder, GoldIds, Old, Number;
    assert TiedGold(a[i], a[k - 1], gold, quantum);
  }

  lemma LightAfter(a: seq<Candidate>, gold: set<string>, quantum: real, k: nat, i: nat)
    requires quantum > 0.0 && Descending(a, quantum) && SortedBy(KeyOrder(gold, quantum), a) && GoldFalls(a, gold, quantum)
    requires 0 < k <= |a| && i < |a| && a[i].id in gold && a[k - 1].id in gold
    requires LevelOf(a[i].score, quantum) == LevelOf(a[k - 1].score, quantum)
    requires !Old(a, quantum, LevelOf(a[k - 1].score, quantum), a[i].id)
    requires !Old(a, quantum, LevelOf(a[k - 1].score, quantum), a[k - 1].id)
    requires a[i].id !in Before(a, gold, quantum, k)
    ensures var l := LevelOf(a[k - 1].score, quantum);
            Number(a, quantum, l, a[i].id) <= Number(a, quantum, l, a[k - 1].id)
  {
    if i < k { InPrefix(a, gold, k, i); }
    if i >= k { LaterInTie(a, gold, quantum, k, i); }
    hide SortedBy, KeyOrder, GoldIds, Old, Number, LexLess;
    if a[i].id != a[k - 1].id { assert TiedGold(a[k - 1], a[i], gold, quantum); }
  }

  /** A file of another order's prefix that is new in the tie is listed there. */
  lemma RivalListed(a: seq<Candidate>, b: seq<Candidate>, gold: set<string>, quantum: real, k: nat, f: string) returns (i: nat)
    requires quantum > 0.0 && multiset(a) == multiset(b) && Descending(a, quantum) && Descending(b, quantum)
    requires 0 < k <= |a| == |b| && f in Rival(a, b, gold, quantum, k)
    ensures i < |a| && a[i].id == f && f in gold && LevelOf(a[i].score, quantum) == LevelOf(a[k - 1].score, quantum)
  {
    var l := LevelOf(a[k - 1].score, quantum);
    PrefixOfLevel(a, b, quantum, k);
    SubsetOfIds(b, gold, k, f);
    var j: nat :| j < k && b[j].id == f;
    i := SameEntry(b, a, j);
    LevelTotal(l, LevelOf(a[i].score, quantum));
    assert AtLeast(quantum, l, b[j]);
    assert !Old(a, quantum, l, f);
  }

  lemma MoreRivals(a: seq<Candidate>, b: seq<Candidate>, gold: set<string>, quantum: real, k: nat)
    requires quantum > 0.0 && multiset(a) == multiset(b) && Descending(a, quantum) && Descending(b, quantum)
    requires SortedBy(KeyOrder(gold, quantum), a) && GoldFalls(a, gold, quantum)
    requires 0 < k <= |a| == |b| && a[k - 1].id in gold && !Old(a, quantum, LevelOf(a[k - 1].score, quantum), a[k - 1].id)
    ensures |Rival(a, b, gold, quantum, k)| > |Before(a, gold, quantum, k)|
  {
    hide Before, Rival, IdleOrIn, IdleTest, Descending, SortedBy, GoldFalls, Old, LevelOf, KeyOrder, Weight, Number, Count;
    var l := LevelOf(a[k - 1].score, quantum);
    var light, heavy := Rival(a, b, gold, quantum, k), Before(a, gold, quantum, k);
    BeforeIsNew(a, gold, quantum, k);
    RivalIsNew(a, b, gold, quantum, k);
    IdlePlusWeight(a, gold, quantum, l, light);
    IdlePlusWeight(a, gold, quantum, l, heavy);
    FewBefore(a, gold, quantum, k);
    ManyRivals(a, b, gold, quantum, k);
    forall f | f in heavy - light
      ensures Number(a, quantum, l, f) >= Number(a, quantum, l, a[k - 1].id)
    {
      HeavyBefore(a, gold, quantum, k, f);
    }
    forall f | f in light - heavy
      ensures Number(a, quantum, l, f) <= Number(a, quantum, l, a[k - 1].id)
    {
      var i := RivalListed(a, b, gold, quantum, k, f);
      LightAfter(a, gold, quantum, k, i);
    }
    MoreWeightMoreFiles(a, quantum, l, light, heavy, Number(a, quantum, l, a[k - 1].id));
  }

  /** With the condition, no other order finds fewer different gold files in any prefix. */
  lemma FewestFiles(a: seq<Candidate>, b: seq<Candidate>, gold: set<string>, quantum: real, k: nat)
    requires quantum > 0.0 && multiset(a) == multiset(b) && Descending(a, quantum) && Descending(b, quantum)
    requires SortedBy(KeyOrder(gold, quantum), a) && GoldFalls(a, gold, quantum)
    requires k <= |a| == |b|
    ensures |GoldIds(a[..k], gold)| <= |GoldIds(b[..k], gold)|
  {
    if k == 0 {
      assert a[..0] == b[..0];
    } else {
      hide Descending, SortedBy, GoldFalls, Old, KeyOrder, GoldIds, OldIds;
      var l := LevelOf(a[k - 1].score, quantum);
      OldIdsInPrefix(a, b, gold, quantum, k);
      if a[k - 1].id !in gold || Old(a, quantum, l, a[k - 1].id) {
        NothingNewLast(a, gold, quantum, k);
        SubsetSize(GoldIds(a[..k], gold), GoldIds(b[..k], gold));
      } else {
        MoreRivals(a, b, gold, quantum, k);
        FilesOf(a, b, gold, quantum, k);
      }
    }
  }

  lemma FilesOf(a: seq<Candidate>, b: seq<Candidate>, gold: set<string>, quantum: real, k: nat)
    requires quantum > 0.0 && 0 < k <= |a| == |b|
    requires OldIds(a, gold, quantum, LevelOf(a[k - 1].score, quantum)) <= GoldIds(b[..k], gold)
    ensures |GoldIds(a[..k], gold)| - |Before(a, gold, quantum, k)| <=
            |GoldIds(b[..k], gold)| - |Rival(a, b, gold, quantum, k)| + 1
  {
    hide OldIds, GoldIds;
    var found, x := OldIds(a, gold, quantum, LevelOf(a[k - 1].score, quantum)), a[k - 1].id;
    var mine, theirs := GoldIds(a[..k], gold), GoldIds(b[..k], gold);
    assert theirs == found + Rival(a, b, gold, quantum, k);
    SubsetSize(mine, found + Before(a, gold, quantum, k) + {x});
  }

  // ---- The condition is needed -----------------------------------------------------------

  function NotEntryOf(quantum: real, l: Level, f: string): Candidate -> bool
    requires quantum > 0.0
  {
    (c: Candidate) => !(c.id == f && LevelOf(c.score, quantum) == l)
  }

  /** The order with all entries of a file moved forward to a position of its tie. */
  function Fronted(a: seq<Candidate>, quantum: real, at: nat, l: Level, f: string): seq<Candidate>
    requires quantum > 0.0 && at <= |a|
  {
    a[..at] + (Keep(a[at..], EntryOf(quantum, l, f)) + Keep(a[at..], NotEntryOf(quantum, l, f)))
  }

  lemma {:induction false} KeepDescending(s: seq<Candidate>, quantum: real, p: Candidate -> bool)
    requires quantum > 0.0 && Descending(s, quantum)
    ensures Descending(Keep(s, p), quantum)
  {
    if s != [] {
      var t := s[1..];
      assert forall i :: 0 <= i < |t| ==> t[i] == s[i + 1];
      KeepDescending(t, quantum, p);
      if p(s[0]) {
        var kept := Keep(t, p);
        forall j | 0 <= j < |kept|
          ensures !Higher(LevelOf(kept[j].score, quantum), LevelOf(s[0].score, quantum))
        {
          var i :| 0 <= i < |t| && t[i] == kept[j];
          assert !Higher(LevelOf(s[i + 1].score, quantum), LevelOf(s[0].score, quantum));
        }
      }
    }
  }

  lemma DescendingConcat(a: seq<Candidate>, b: seq<Candidate>, quantum: real)
    requires quantum > 0.0 && Descending(a, quantum) && Descending(b, quantum)
    requires forall x, y :: x in a && y in b ==> !Higher(LevelOf(y.score, quantum), LevelOf(x.score, quantum))
    ensures Descending(a + b, quantum)
  {
    forall i, j | 0 <= i < j < |a + b|
      ensures !Higher(LevelOf((a + b)[j].score, quantum), LevelOf((a + b)[i].score, quantum))
    {
      if i < |a| && j >= |a| { assert a[i] in a && b[j - |a|] in b; }
    }
  }

  lemma FrontedSame(a: seq<Candidate>, quantum: real, at: nat, l: Level, f: string)
    requires quantum > 0.0 && at <= |a|
    ensures multiset(Fronted(a, quantum, at, l, f)) == multiset(a)
  {
    KeepSplits(a[at..], EntryOf(quantum, l, f), NotEntryOf(quantum, l, f));
    assert a == a[..at] + a[at..];
  }

  lemma TailDescending(a: seq<Candidate>, quantum: real, at: nat)
    requires quantum > 0.0 && Descending(a, quantum) && at < |a|
    ensures Descending(a[..at], quantum) && Descending(a[at..], quantum)
    ensures forall y :: y in a[at..] ==> !Higher(LevelOf(y.score, quantum), LevelOf(a[at].score, quantum))
    ensures forall x, y :: x in a[..at] && y in a[at..] ==> !Higher(LevelOf(y.score, quantum), LevelOf(x.score, quantum))
  {
  }

  lemma FrontedDescending(a: seq<Candidate>, quantum: real, at: nat, f: string)
    requires quantum > 0.0 && Descending(a, quantum) && at < |a|
    ensures Descending(Fronted(a, quantum, at, LevelOf(a[at].score, quantum), f), quantum)
  {
    hide Descending, Keep;
    var l := LevelOf(a[at].score, quantum);
    var tail := a[at..];
    TailDescending(a, quantum, at);
    var front, back := Keep(tail, EntryOf(quantum, l, f)), Keep(tail, NotEntryOf(quantum, l, f));
    KeepDescending(tail, quantum, EntryOf(quantum, l, f));
    KeepDescending(tail, quantum, NotEntryOf(quantum, l, f));
    forall x, y | x in front && y in back
      ensures !Higher(LevelOf(y.score, quantum), LevelOf(x.score, quantum))
    {
      assert EntryOf(quantum, l, f)(x);
      assert y in tail;
    }
    DescendingConcat(front, back, quantum);
    forall y | y in front + back
      ensures y in tail
    {
    }
    DescendingConcat(a[..at], front + back, quantum);
  }

  /** Up to the place nothing changes; from there on come the entries of the file, as many as there are. */
  lemma FrontedAt(a: seq<Candidate>, quantum: real, at: nat, l: Level, f: string, j: nat)
    requires quantum > 0.0 && at <= |a| && j <= at + Count(a[at..], EntryOf(quantum, l, f))
    ensures |Fronted(a, quantum, at, l, f)| >= j
    ensures j <= at ==> Fronted(a, quantum, at, l, f)[..j] == a[..j]
    ensures forall i :: at <= i < j ==> Fronted(a, quantum, at, l, f)[i].id == f
    ensures forall i :: 0 <= i < at ==> Fronted(a, quantum, at, l, f)[i] == a[i]
  {
    var front := Keep(a[at..], EntryOf(quantum, l, f));
    forall i | at <= i < j
      ensures Fronted(a, quantum, at, l, f)[i].id == f
    {
      assert Fronted(a, quantum, at, l, f)[i] == front[i - at];
      assert EntryOf(quantum, l, f)(front[i - at]);
    }
  }

  /** What the prefix of the new order finds. */
  lemma FrontedFinds(a: seq<Candidate>, gold: set<string>, quantum: real, at: nat, l: Level, f: string, j: nat)
    requires quantum > 0.0 && at <= |a| && at <= j <= at + Count(a[at..], EntryOf(quantum, l, f))
    ensures |Fronted(a, quantum, at, l, f)| >= j
    ensures GoldIds(Fronted(a, quantum, at, l, f)[..j], gold) <= GoldIds(a[..at], gold) + {f}
  {
    FrontedAt(a, quantum, at, l, f, j);
    var r := Fronted(a, quantum, at, l, f);
    forall g | g in GoldIds(r[..j], gold)
      ensures g in GoldIds(a[..at], gold) + {f}
    {
      SubsetOfIds(r, gold, j, g);
      var i :| 0 <= i < j && r[i].id == g;
      if i < at { InPrefix(a, gold, at, i); }
    }
  }

  /** An order that does worse than a at the cut, and nowhere better before it. */
  ghost predicate DoesWorse(a: seq<Candidate>, r: seq<Candidate>, gold: set<string>, quantum: real, cut: nat)
    requires quantum > 0.0
  {
    && multiset(r) == multiset(a) && Descending(r, quantum) && 0 < cut <= |a| == |r|
    && (forall j :: 0 <= j <= cut ==> |GoldIds(r[..j], gold)| <= |GoldIds(a[..j], gold)|)
    && |GoldIds(r[..cut], gold)| < |GoldIds(a[..cut], gold)|
  }

  /** The place of a file that is new in its tie: its first entry of all. */
  ghost predicate FirstEntry(a: seq<Candidate>, gold: set<string>, at: nat) {
    at < |a| && a[at].id in gold && !Lists(a[..at], a[at].id)
  }

  lemma FirstEntryOf(a: seq<Candidate>, gold: set<string>, quantum: real, i: nat) returns (at: nat)
    requires quantum > 0.0 && Descending(a, quantum) && i < |a| && a[i].id in gold
    requires !Old(a, quantum, LevelOf(a[i].score, quantum), a[i].id)
    ensures at <= i && FirstEntry(a, gold, at) && a[at].id == a[i].id
    ensures LevelOf(a[at].score, quantum) == LevelOf(a[i].score, quantum)
  {
    at := 0;
    while a[at].id != a[i].id
      invariant at <= i
      invariant forall j :: 0 <= j < at ==> a[j].id != a[i].id
      decreases i - at
    {
      at := at + 1;
    }
    forall j | 0 <= j < |a[..at]|
      ensures a[..at][j].id != a[at].id
    {
      assert a[..at][j] == a[j];
    }
    LevelTotal(LevelOf(a[at].score, quantum), LevelOf(a[i].score, quantum));
    assert !Higher(LevelOf(a[at].score, quantum), LevelOf(a[i].score, quantum));
  }

  lemma PrefixGrows(a: seq<Candidate>, gold: set<string>, i: nat, j: nat)
    requires i <= j <= |a|
    ensures GoldIds(a[..i], gold) <= GoldIds(a[..j], gold)
  {
    forall f | f in GoldIds(a[..i], gold)
      ensures f in GoldIds(a[..j], gold)
    {
      SubsetOfIds(a, gold, i, f);
      SubsetOfIds(a, gold, j, f);
    }
  }

  /** A file found above is moved before a new one. */
  lemma OldComesFirst(a: seq<Candidate>, gold: set<string>, quantum: real, at: nat, y: string)
      returns (r: seq<Candidate>, cut: nat)
    requires quantum > 0.0 && Descending(a, quantum) && FirstEntry(a, gold, at)
    requires y in GoldIds(a[..at], gold)
    requires Count(a[at..], EntryOf(quantum, LevelOf(a[at].score, quantum), y)) > 0
    ensures DoesWorse(a, r, gold, quantum, cut)
  {
    hide Descending, GoldIds, Fronted, LevelOf;
    var l := LevelOf(a[at].score, quantum);
    r, cut := Fronted(a, quantum, at, l, y), at + 1;
    FrontedSame(a, quantum, at, l, y);
    SameLength(r, a);
    FrontedDescending(a, quantum, at, y);
    FrontedFinds(a, gold, quantum, at, l, y, cut);
    forall j | 0 <= j <= at
      ensures r[..j] == a[..j]
    {
      FrontedAt(a, quantum, at, l, y, j);
    }
    OneMoreFound(a, gold, at, cut);
    SubsetSize(GoldIds(r[..cut], gold), GoldIds(a[..at], gold));
  }

  lemma SameLength(a: seq<Candidate>, b: seq<Candidate>)
    requires multiset(a) == multiset(b)
    ensures |a| == |b|
  {
    assert |multiset(a)| == |multiset(b)|;
  }

  /** After its first entry a file is found. */
  lemma OneMoreFound(a: seq<Candidate>, gold: set<string>, at: nat, j: nat)
    requires FirstEntry(a, gold, at) && at < j <= |a|
    ensures GoldIds(a[..at], gold) + {a[at].id} <= GoldIds(a[..j], gold)
    ensures |GoldIds(a[..at], gold)| + 1 <= |GoldIds(a[..j], gold)|
  {
    PrefixGrows(a, gold, at, j);
    InPrefix(a, gold, j, at);
    assert a[at].id !in GoldIds(a[..at], gold);
    SubsetSize(GoldIds(a[..at], gold) + {a[at].id}, GoldIds(a[..j], gold));
  }

  /** Two new files of one tie follow each other, and a third one is listed more often than the first: its entries are moved
      before them. */
  lemma ManyComeFirst(a: seq<Candidate>, gold: set<string>, quantum: real, at: nat, m: nat, y: string)
      returns (r: seq<Candidate>, cut: nat)
    requires quantum > 0.0 && Descending(a, quantum) && FirstEntry(a, gold, at) && FirstEntry(a, gold, m) && at < m
    requires m + 1 <= at + Count(a[at..], EntryOf(quantum, LevelOf(a[at].score, quantum), y))
    ensures DoesWorse(a, r, gold, quantum, cut)
  {
    hide Descending, GoldIds, Fronted, LevelOf, FirstEntry, Count;
    FirstInRange(a, gold, at);
    FirstInRange(a, gold, m);
    var l := LevelOf(a[at].score, quantum);
    r, cut := Fronted(a, quantum, at, l, y), m + 1;
    FrontedSame(a, quantum, at, l, y);
    SameLength(r, a);
    FrontedDescending(a, quantum, at, y);
    forall j | 0 <= j <= cut
      ensures |GoldIds(r[..j], gold)| <= |GoldIds(a[..j], gold)|
    {
      assert j <= |a| == |r|;
      FrontedAt(a, quantum, at, l, y, j);
      if j > at {
        FrontedFinds(a, gold, quantum, at, l, y, j);
        SubsetSize(GoldIds(r[..j], gold), GoldIds(a[..at], gold) + {y});
        OneMoreFound(a, gold, at, j);
      }
    }
    FrontedFinds(a, gold, quantum, at, l, y, cut);
    SubsetSize(GoldIds(r[..cut], gold), GoldIds(a[..at], gold) + {y});
    OneMoreFound(a, gold, at, m);
    OneMoreFound(a, gold, m, cut);
  }

  lemma FirstInRange(a: seq<Candidate>, gold: set<string>, at: nat)
    requires FirstEntry(a, gold, at)
    ensures at < |a|
  {
  }

  lemma SortedAt(a: seq<Candidate>, gold: set<string>, quantum: real, i: nat, j: nat)
    requires quantum > 0.0 && SortedBy(KeyOrder(gold, quantum), a) && i < j < |a|
    ensures !KeyLess(gold, quantum, a[j], a[i])
  {
    assert !KeyOrder(gold, quantum)(a[j], a[i]);
  }

  /** Tied gold entries stand in the order of their names. */
  lemma InOrder(a: seq<Candidate>, gold: set<string>, quantum: real, i: nat, j: nat)
    requires quantum > 0.0 && SortedBy(KeyOrder(gold, quantum), a)
    requires i < |a| && j < |a| && TiedGold(a[i], a[j], gold, quantum)
    ensures i < j && a[i].id != a[j].id
  {
    LexAsym(a[i].id, a[j].id);
    if j < i { SortedAt(a, gold, quantum, j, i); }
  }

  /** The entry after the first file's block. */
  lemma EndOfBlock(a: seq<Candidate>, at: nat, j: nat) returns (m: nat)
    requires at < j < |a| && a[j].id != a[at].id
    ensures at < m <= j && a[m].id != a[at].id && forall i :: at <= i < m ==> a[i].id == a[at].id
  {
    m := at + 1;
    while a[m].id == a[at].id
      invariant at < m <= j && forall i :: at <= i < m ==> a[i].id == a[at].id
      decreases j - m
    {
      m := m + 1;
    }
  }

  /** Between two entries of one tie there are only entries of it, gold ones after a gold one. */
  lemma InsideTie(a: seq<Candidate>, gold: set<string>, quantum: real, at: nat, i: nat, j: nat)
    requires quantum > 0.0 && Descending(a, quantum) && SortedBy(KeyOrder(gold, quantum), a)
    requires at <= i <= j < |a| && a[at].id in gold && LevelOf(a[at].score, quantum) == LevelOf(a[j].score, quantum)
    ensures LevelOf(a[i].score, quantum) == LevelOf(a[at].score, quantum) && a[i].id in gold
    ensures a[i].id == a[at].id || LexLess(a[at].id, a[i].id)
  {
    var l := LevelOf(a[at].score, quantum);
    if at < i && i < j {
      assert !Higher(LevelOf(a[i].score, quantum), l) && !Higher(LevelOf(a[j].score, quantum), LevelOf(a[i].score, quantum));
      LevelTotal(l, LevelOf(a[i].score, quantum));
    }
    if at < i { LaterInTie(a, gold, quantum, at + 1, i); }
  }

  lemma BlockCount(a: seq<Candidate>, quantum: real, at: nat, m: nat, l: Level)
    requires quantum > 0.0 && at < m <= |a|
    requires forall i :: at <= i < m ==> a[i].id == a[at].id && LevelOf(a[i].score, quantum) == l
    ensures m - at <= Number(a, quantum, l, a[at].id)
  {
    var test := EntryOf(quantum, l, a[at].id);
    var block := a[at..m];
    CountIsAll(block, test);
    CountSplit(a, m, test);
    CountSplit(a[..m], at, test);
    assert a[..m][at..] == block;
  }

  /** All entries of a later file of the tie are after the place. */
  lemma LaterCount(a: seq<Candidate>, gold: set<string>, quantum: real, at: nat, y: string)
    requires quantum > 0.0 && Descending(a, quantum) && SortedBy(KeyOrder(gold, quantum), a)
    requires at < |a| && a[at].id in gold && y in gold && LexLess(a[at].id, y)
    ensures var l := LevelOf(a[at].score, quantum); Count(a[at..], EntryOf(quantum, l, y)) == Number(a, quantum, l, y)
  {
    var l := LevelOf(a[at].score, quantum);
    var test := EntryOf(quantum, l, y);
    var head := a[..at];
    forall i: nat | i < |head|
      ensures !test(head[i])
    {
      assert head[i] == a[i];
      if test(a[i]) { InOrder(a, gold, quantum, at, i); }
    }
    CountIsZero(head, test);
    CountSplit(a, at, test);
  }

  lemma ListedInPrefix(a: seq<Candidate>, gold: set<string>, quantum: real, at: nat, y: string)
    requires quantum > 0.0 && Descending(a, quantum) && at < |a| && y in gold && Old(a, quantum, LevelOf(a[at].score, quantum), y)
    ensures y in GoldIds(a[..at], gold)
  {
    var l := LevelOf(a[at].score, quantum);
    var i: nat :| i < |a| && a[i].id == y && Higher(LevelOf(a[i].score, quantum), l);
    InPrefix(a, gold, at, i);
  }

  lemma CountsItself(a: seq<Candidate>, quantum: real, at: nat, i: nat)
    requires quantum > 0.0 && at <= i < |a|
    ensures Count(a[at..], EntryOf(quantum, LevelOf(a[i].score, quantum), a[i].id)) > 0
  {
    var test := EntryOf(quantum, LevelOf(a[i].score, quantum), a[i].id);
    assert test(a[at..][i - at]);
    CountIsZero(a[at..], test);
  }

  /** Two gold entries of a tie that stand in the wrong order. */
  ghost predicate Broken(a: seq<Candidate>, gold: set<string>, quantum: real, i: nat, j: nat)
    requires quantum > 0.0
  {
    i < |a| && j < |a| && TiedGold(a[i], a[j], gold, quantum) &&
    !MayPrecede(a, quantum, LevelOf(a[i].score, quantum), a[i].id, a[j].id)
  }

  lemma BrokenPair(a: seq<Candidate>, gold: set<string>, quantum: real) returns (i: nat, j: nat)
    requires quantum > 0.0 && !GoldFalls(a, gold, quantum)
    ensures Broken(a, gold, quantum, i, j)
  {
    i, j :| i < |a| && j < |a| && TiedGold(a[i], a[j], gold, quantum) &&
      !MayPrecede(a, quantum, LevelOf(a[i].score, quantum), a[i].id, a[j].id);
  }

  /** Without the condition some order does worse. */
  lemma SomeOrderDoesWorse(a: seq<Candidate>, gold: set<string>, quantum: real, i: nat, j: nat)
      returns (r: seq<Candidate>, cut: nat)
    requires quantum > 0.0 && Descending(a, quantum) && SortedBy(KeyOrder(gold, quantum), a) && Broken(a, gold, quantum, i, j)
    ensures DoesWorse(a, r, gold, quantum, cut)
  {
    hide Descending, SortedBy, KeyOrder, LevelOf, LexLess, DoesWorse, Old, GoldIds, Number, Count;
    var at := FirstEntryOf(a, gold, quantum, i);
    FirstInRange(a, gold, at);
    var l, y := LevelOf(a[at].score, quantum), a[j].id;
    InOrder(a, gold, quantum, at, j);
    LaterCount(a, gold, quantum, at, y);
    if Old(a, quantum, l, y) {
      ListedInPrefix(a, gold, quantum, at, y);
      CountsItself(a, quantum, at, j);
      r, cut := OldComesFirst(a, gold, quantum, at, y);
    } else {
      var m := EndOfBlock(a, at, j);
      InsideTie(a, gold, quantum, at, m, j);
      if Old(a, quantum, l, a[m].id) {
        ListedInPrefix(a, gold, quantum, at, a[m].id);
        CountsItself(a, quantum, at, m);
        r, cut := OldComesFirst(a, gold, quantum, at, a[m].id);
      } else {
        forall k | at <= k < m
          ensures LevelOf(a[k].score, quantum) == l
        {
          InsideTie(a, gold, quantum, at, k, j);
        }
        BlockCount(a, quantum, at, m, l);
        BlockEndIsFirst(a, gold, quantum, at, m);
        r, cut := ManyComeFirst(a, gold, quantum, at, m, y);
      }
    }
  }

  /** A new file right after the block of another one has its first entry there. */
  lemma BlockEndIsFirst(a: seq<Candidate>, gold: set<string>, quantum: real, at: nat, m: nat)
    requires quantum > 0.0 && Descending(a, quantum) && SortedBy(KeyOrder(gold, quantum), a)
    requires FirstEntry(a, gold, at) && at < m < |a| && TiedGold(a[at], a[m], gold, quantum)
    requires !Old(a, quantum, LevelOf(a[at].score, quantum), a[m].id)
    requires forall i :: at <= i < m ==> a[i].id == a[at].id
    ensures FirstEntry(a, gold, m)
  {
    var head := a[..m];
    LexAsym(a[at].id, a[m].id);
    forall i: nat | i < |head|
      ensures head[i].id != a[m].id
    {
      assert head[i] == a[i];
      if i < at && a[i].id == a[m].id {
        NotAbove(a, quantum, i, at);
        InOrder(a, gold, quantum, at, i);
      }
    }
  }

  lemma NotAbove(a: seq<Candidate>, quantum: real, i: nat, at: nat)
    requires quantum > 0.0 && Descending(a, quantum) && i < at < |a|
    requires !Old(a, quantum, LevelOf(a[at].score, quantum), a[i].id)
    ensures LevelOf(a[i].score, quantum) == LevelOf(a[at].score, quantum)
  {
    LevelTotal(LevelOf(a[at].score, quantum), LevelOf(a[i].score, quantum));
  }
}
