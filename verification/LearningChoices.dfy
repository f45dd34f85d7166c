/** Where a session goes next, in terms of its goal, its history, its material and the estimates. */
module LearningChoices {
  import opened Sorting
  import opened Counting
  import opened LearningModel
  import opened LearningInvariants
  import opened LearningSteps

  // ---- What the goal needs ---------------------------------------------------------------

  /** What a concept in the set builds on is in it too. */
  ghost predicate RelationClosed(relations: seq<Relation>, x: set<string>) {
    forall r :: r in relations && r.to in x ==> r.from in x
  }

  /** What an action that teaches a concept in the set requires is in it too. */
  ghost predicate ItemClosed(items: seq<Item>, x: set<string>) {
    forall a :: a in items && Teaches(a, x) ==> forall e, p :: e in a.effects && p in e.prerequisites ==> p in x
  }

  ghost predicate Teaches(a: Item, x: set<string>) {
    exists e :: e in a.effects && e.conceptId in x
  }

  ghost predicate HoldsTargets(targets: seq<Target>, x: set<string>) {
    forall t :: t in targets ==> t.conceptId in x
  }

  /** The concept is a target, or one builds on it along relations, or an action for such a concept requires it. */
  ghost predicate IsNeeded(s: Session, c: string) {
    forall x, y :: HoldsTargets(s.goal.targets, x) && RelationClosed(s.relations, x) && x <= y && ItemClosed(s.items, y) ==>
      c in y
  }

  lemma {:induction false} RelationPassWithin(relations: seq<Relation>, needed: set<string>, x: set<string>)
    requires needed <= x && RelationClosed(relations, x)
    ensures RelationPass(relations, needed) <= x
  {
    if relations != [] {
      assert relations[0] in relations;
      RelationPassWithin(relations[1..], if relations[0].to in needed then needed + {relations[0].from} else needed, x);
    }
  }

  lemma {:induction false} RelationPassesWithin(n: nat, relations: seq<Relation>, needed: set<string>, x: set<string>)
    requires needed <= x && RelationClosed(relations, x)
    ensures RelationPasses(n, relations, needed) <= x
  {
    if n > 0 {
      RelationPassWithin(relations, needed, x);
      RelationPassesWithin(n - 1, relations, RelationPass(relations, needed), x);
    }
  }

  lemma {:induction false} ItemPassWithin(items: seq<Item>, needed: set<string>, x: set<string>)
    requires needed <= x && ItemClosed(items, x)
    ensures ItemPass(items, needed) <= x
  {
    if items != [] {
      var a := items[0];
      assert a in items;
      var teaches := exists e :: e in a.effects && e.conceptId in needed;
      if teaches { assert Teaches(a, x); }
      ItemPassWithin(items[1..], if teaches then needed + Prerequisites(a.effects) else needed, x);
    }
  }

  lemma {:induction false} ItemPassesWithin(n: nat, items: seq<Item>, needed: set<string>, x: set<string>)
    requires needed <= x && ItemClosed(items, x)
    ensures ItemPasses(n, items, needed) <= x
  {
    if n > 0 {
      ItemPassWithin(items, needed, x);
      ItemPassesWithin(n - 1, items, ItemPass(items, needed), x);
    }
  }

  /** A pass that adds nothing has found the set closed. */
  lemma {:induction false} RelationStable(relations: seq<Relation>, needed: set<string>)
    requires RelationPass(relations, needed) == needed
    ensures RelationClosed(relations, needed)
  {
    if relations != [] {
      var more := if relations[0].to in needed then needed + {relations[0].from} else needed;
      assert more == needed;
      RelationStable(relations[1..], needed);
    }
  }

  lemma {:induction false} ItemStable(items: seq<Item>, needed: set<string>)
    requires ItemPass(items, needed) == needed
    ensures ItemClosed(items, needed)
  {
    if items != [] {
      var a := items[0];
      var teaches := exists e :: e in a.effects && e.conceptId in needed;
      var more := if teaches then needed + Prerequisites(a.effects) else needed;
      assert more == needed;
      ItemStable(items[1..], needed);
      forall b | b in items && Teaches(b, needed)
        ensures forall e, p :: e in b.effects && p in e.prerequisites ==> p in needed
      {
        if b == a {
          forall e, p | e in a.effects && p in e.prerequisites
            ensures p in needed
          {
            assert p in Prerequisites(a.effects);
          }
        } else {
          assert b in items[1..];
        }
      }
    }
  }

  lemma {:induction false} RelationPassesStay(n: nat, relations: seq<Relation>, needed: set<string>)
    requires RelationPass(relations, needed) == needed
    ensures RelationPasses(n, relations, needed) == needed
  {
    if n > 0 { RelationPassesStay(n - 1, relations, needed); }
  }

  lemma {:induction false} ItemPassesStay(n: nat, items: seq<Item>, needed: set<string>)
    requires ItemPass(items, needed) == needed
    ensures ItemPasses(n, items, needed) == needed
  {
    if n > 0 { ItemPassesStay(n - 1, items, needed); }
  }

  lemma StrictSize(a: set<string>, b: set<string>)
    requires a <= b && a != b
    ensures |a| + 1 <= |b|
  {
    var x :| x in b && x !in a;
    SubsetSize(a, b - {x});
  }

  /** Passes that are not closed yet have each added something. */
  lemma {:induction false} RelationPassesGrow(n: nat, relations: seq<Relation>, needed: set<string>)
    ensures var r := RelationPasses(n, relations, needed);
      RelationPass(relations, r) == r || |r| >= |needed| + n
  {
    if n > 0 {
      var next := RelationPass(relations, needed);
      if next == needed {
        RelationPassesStay(n, relations, needed);
      } else {
        StrictSize(needed, next);
        RelationPassesGrow(n - 1, relations, next);
      }
    }
  }

  lemma {:induction false} ItemPassesGrow(n: nat, items: seq<Item>, needed: set<string>)
    ensures var r := ItemPasses(n, items, needed);
      ItemPass(items, r) == r || |r| >= |needed| + n
  {
    if n > 0 {
      var next := ItemPass(items, needed);
      if next == needed {
        ItemPassesStay(n, items, needed);
      } else {
        StrictSize(needed, next);
        ItemPassesGrow(n - 1, items, next);
      }
    }
  }

  ghost function AllIds(concepts: seq<Concept>): (ids: set<string>)
    ensures forall id :: id in ids <==> Known(concepts, id)
    ensures |ids| <= |concepts|
  {
    if concepts == [] then {}
    else
      var n := |concepts| - 1;
      assert concepts == concepts[..n] + [concepts[n]];
      AllIds(concepts[..n]) + {concepts[n].id}
  }

  lemma {:induction false} NothingRelated(n: nat, relations: seq<Relation>)
    ensures RelationPass(relations, {}) == {} && RelationPasses(n, relations, {}) == {}
  {
    if relations != [] { NothingRelated(0, relations[1..]); }
    if n > 0 { NothingRelated(n - 1, relations); }
  }

  lemma {:induction false} NothingTaught(n: nat, items: seq<Item>)
    ensures ItemPass(items, {}) == {} && ItemPasses(n, items, {}) == {}
  {
    if items != [] { NothingTaught(0, items[1..]); }
    if n > 0 { NothingTaught(n - 1, items); }
  }

  /** With at most eight concepts, eight passes over the relations close the set of needed concepts. */
  lemma EightRelationPasses(relations: seq<Relation>, needed: set<string>, ids: set<string>)
    requires |ids| <= 8 && needed <= ids && forall r :: r in relations ==> r.from in ids
    ensures var r := RelationPasses(8, relations, needed); r <= ids && RelationClosed(relations, r)
  {
    var r := RelationPasses(8, relations, needed);
    RelationPassesWithin(8, relations, needed, ids);
    if needed == {} {
      NothingRelated(8, relations);
    } else {
      RelationPassesGrow(8, relations, needed);
      SubsetSize(r, ids);
      assert |needed| > 0;
    }
    RelationStable(relations, r);
  }

  lemma EightItemPasses(items: seq<Item>, needed: set<string>, ids: set<string>)
    requires |ids| <= 8 && needed <= ids
    requires forall a, e, p :: a in items && e in a.effects && p in e.prerequisites ==> p in ids
    ensures ItemClosed(items, ItemPasses(8, items, needed))
  {
    var r := ItemPasses(8, items, needed);
    assert ItemClosed(items, ids);
    ItemPassesWithin(8, items, needed, ids);
    if needed == {} {
      NothingTaught(8, items);
    } else {
      ItemPassesGrow(8, items, needed);
      SubsetSize(r, ids);
      assert |needed| > 0;
    }
    ItemStable(items, r);
  }

  /** Main result on need: with the material of a prepared session, the sixteen passes find exactly what the goal needs. */
  lemma NeededIff(s: Session, c: string)
    requires MaterialOk(s.goal.targets, s.version, s.concepts, s.relations, s.items) && s.version > 0
    ensures c in Needed(s) <==> IsNeeded(s, c)
  {
    var ids := AllIds(s.concepts);
    var targets := TargetConcepts(s.goal.targets);
    assert HoldsTargets(s.goal.targets, targets);
    var related := RelationPasses(8, s.relations, targets);
    var needed := ItemPasses(8, s.items, related);
    hide *;
    assert needed == Needed(s) by { NeededIs(s); }
    TargetsKnown(s, ids);
    EightRelationPasses(s.relations, targets, ids);
    EightItemPasses(s.items, related, ids);
    TargetsStay(s.relations, targets);
    RelatedStay(s.items, related);
    HoldsMore(s.goal.targets, targets, related);
    if IsNeeded(s, c) { NeededInClosed(s, c, related, needed); }
    if c in needed {
      NeededEverywhere(s, c, targets, related, needed);
    }
  }

  lemma NeededIs(s: Session)
    ensures Needed(s) == ItemPasses(8, s.items, RelationPasses(8, s.relations, TargetConcepts(s.goal.targets)))
  {
  }

  lemma TargetsKnown(s: Session, ids: set<string>)
    requires MaterialOk(s.goal.targets, s.version, s.concepts, s.relations, s.items) && s.version > 0
    requires ids == AllIds(s.concepts)
    ensures |ids| <= 8 && TargetConcepts(s.goal.targets) <= ids
    ensures forall r :: r in s.relations ==> r.from in ids
    ensures forall a, e, p :: a in s.items && e in a.effects && p in e.prerequisites ==> p in ids
  {
    hide AllIds, Known;
  }

  lemma TargetsStay(relations: seq<Relation>, targets: set<string>)
    ensures targets <= RelationPasses(8, relations, targets)
  {
  }

  lemma RelatedStay(items: seq<Item>, related: set<string>)
    ensures related <= ItemPasses(8, items, related)
  {
  }

  lemma HoldsMore(targets: seq<Target>, x: set<string>, y: set<string>)
    requires HoldsTargets(targets, x) && x <= y
    ensures HoldsTargets(targets, y)
  {
  }

  lemma NeededInClosed(s: Session, c: string, x: set<string>, y: set<string>)
    requires IsNeeded(s, c) && HoldsTargets(s.goal.targets, x) && RelationClosed(s.relations, x) && x <= y && ItemClosed(s.items, y)
    ensures c in y
  {
  }

  lemma NeededEverywhere(s: Session, c: string, targets: set<string>, related: set<string>, needed: set<string>)
    requires targets == TargetConcepts(s.goal.targets) && related == RelationPasses(8, s.relations, targets)
    requires needed == ItemPasses(8, s.items, related) && c in needed
    ensures IsNeeded(s, c)
  {
    hide RelationPasses, ItemPasses, RelationClosed, ItemClosed;
    forall x: set<string>, y: set<string> | HoldsTargets(s.goal.targets, x) && RelationClosed(s.relations, x) && x <= y && ItemClosed(s.items, y)
      ensures c in y
    {
      RelationPassesWithin(8, s.relations, targets, x);
      ItemPassesWithin(8, s.items, related, y);
    }
  }

  // ---- Which actions may be offered ------------------------------------------------------

  /** The visits of an action. */
  ghost function VisitsOf(history: seq<Visit>, actionId: string): set<nat> {
    set i: nat | i < |history| && history[i].step.actionId == actionId
  }

  ghost predicate WasSkipped(history: seq<Visit>, conceptId: string) {
    exists v :: v in history && v.outcome == Skip && v.step.conceptId == conceptId
  }

  /** The goal needs its concept, which was not skipped; it was visited less than twice; and it has no question, or one
      that was not seen. */
  ghost predicate MayBeOffered(s: Session, exposed: set<string>, a: Item) {
    && IsNeeded(s, a.conceptId)
    && !WasSkipped(s.history, a.conceptId)
    && |VisitsOf(s.history, a.id)| < 2
    && (a.compiled == [] || exists q :: q in a.compiled && q.fingerprint !in exposed)
  }

  lemma SkippedIff(history: seq<Visit>, conceptId: string)
    ensures Skipped(history, conceptId) <==> WasSkipped(history, conceptId)
  {
    if Skipped(history, conceptId) {
      var i :| 0 <= i < |history| && history[i].outcome == Skip && history[i].step.conceptId == conceptId;
      assert history[i] in history;
    }
  }

  lemma VisitsAreSize(history: seq<Visit>, actionId: string)
    ensures Visits(history, actionId) == |VisitsOf(history, actionId)|
  {
    CountIsSize(history, OfAction(actionId));
    assert VisitsOf(history, actionId) == Passing(history, OfAction(actionId));
  }

  /** The question is the first one that was not seen. */
  ghost predicate IsFirstUnseen(questions: seq<Question>, exposed: set<string>, id: Option<nat>) {
    && ((forall i :: 0 <= i < |questions| ==> questions[i].fingerprint in exposed) ==> id == None)
    && (forall i :: FirstUnseenAt(questions, exposed, i) ==> id == Some(questions[i].id))
  }

  ghost predicate FirstUnseenAt(questions: seq<Question>, exposed: set<string>, i: int) {
    && 0 <= i < |questions| && questions[i].fingerprint !in exposed
    && forall j :: 0 <= j < i ==> questions[j].fingerprint in exposed
  }

  lemma {:induction false} FirstFreshMeans(questions: seq<Question>, exposed: set<string>)
    ensures FirstFresh(questions, exposed).Some? <==> exists q :: q in questions && q.fingerprint !in exposed
    ensures IsFirstUnseen(questions, exposed,
              match FirstFresh(questions, exposed) case Some(q) => Some(q.id) case None => None)
  {
    if questions != [] {
      var rest := questions[1..];
      FirstFreshMeans(rest, exposed);
      assert forall q :: q in questions <==> q == questions[0] || q in rest;
      assert forall i :: 0 <= i < |rest| ==> rest[i] == questions[i + 1];
      if questions[0].fingerprint in exposed {
        forall i | FirstUnseenAt(questions, exposed, i)
          ensures i > 0 && FirstUnseenAt(rest, exposed, i - 1)
        {
        }
      }
    }
  }

  lemma EligibleIff(s: Session, exposed: set<string>, a: Item)
    requires MaterialOk(s.goal.targets, s.version, s.concepts, s.relations, s.items) && s.version > 0
    ensures Eligible(s, exposed, a) <==> MayBeOffered(s, exposed, a)
  {
    hide MaterialOk, Needed, IsNeeded, Skipped, WasSkipped, Visits, VisitsOf, FirstFresh;
    NeededIff(s, a.conceptId);
    SkippedIff(s.history, a.conceptId);
    VisitsAreSize(s.history, a.id);
    FirstFreshMeans(a.compiled, exposed);
  }

  // ---- In which order ---------------------------------------------------------------------

  ghost predicate OnTarget(s: Session, a: Item) {
    exists t :: t in s.goal.targets && t.conceptId == a.conceptId
  }

  ghost predicate OfferedAt(s: Session, exposed: set<string>, i: int) {
    0 <= i < |s.items| && MayBeOffered(s, exposed, s.items[i])
  }

  /** Of two actions, those on the goal's own concepts go first; otherwise the earlier one does. */
  ghost predicate GoesBefore(s: Session, j: nat, i: nat)
    requires j < |s.items| && i < |s.items|
  {
    if OnTarget(s, s.items[j]) == OnTarget(s, s.items[i]) then j < i else OnTarget(s, s.items[j])
  }

  /** The actions that may be offered and go before the i-th one. */
  ghost function Preferred(s: Session, exposed: set<string>, i: nat): set<nat>
    requires i < |s.items|
  {
    set j: nat | j < |s.items| && OfferedAt(s, exposed, j) && GoesBefore(s, j, i)
  }

  /** The positions from n on of the actions that may be offered and are on target, or are not. */
  ghost function Places(s: Session, exposed: set<string>, n: nat, onTarget: bool): (r: seq<nat>)
    requires n <= |s.items|
    ensures forall i :: i in r <==> n <= i < |s.items| && OfferedAt(s, exposed, i) && OnTarget(s, s.items[i]) == onTarget
    ensures forall k, l :: 0 <= k < l < |r| ==> r[k] < r[l]
    decreases |s.items| - n
  {
    if n == |s.items| then []
    else
      var rest := Places(s, exposed, n + 1, onTarget);
      assert forall i :: i in [n] + rest <==> i == n || i in rest;
      assert forall k :: 0 <= k < |rest| ==> rest[k] in rest;
      if OfferedAt(s, exposed, n) && OnTarget(s, s.items[n]) == onTarget then [n] + rest else rest
  }

  ghost predicate InItems(items: seq<Item>, places: seq<nat>) {
    forall k :: 0 <= k < |places| ==> places[k] < |items|
  }

  ghost function ItemsAt(items: seq<Item>, places: seq<nat>): (r: seq<Item>)
    requires InItems(items, places)
    ensures |r| == |places| && forall k :: 0 <= k < |r| ==> r[k] == items[places[k]]
  {
    seq(|places|, k requires 0 <= k < |places| => items[places[k]])
  }

  lemma PlacesInRange(s: Session, exposed: set<string>, n: nat, onTarget: bool)
    requires n <= |s.items|
    ensures InItems(s.items, Places(s, exposed, n, onTarget))
  {
    var r := Places(s, exposed, n, onTarget);
    forall k | 0 <= k < |r|
      ensures r[k] < |s.items|
    {
      assert r[k] in r;
    }
  }

  lemma OnTargetIff(s: Session, a: Item)
    ensures a.conceptId in TargetConcepts(s.goal.targets) <==> OnTarget(s, a)
  {
  }

  lemma TargetsFirstIff(s: Session, a: Item, b: Item)
    ensures TargetsFirst(s.goal)(a, b) <==> OnTarget(s, a) && !OnTarget(s, b)
  {
    OnTargetIff(s, a);
    OnTargetIff(s, b);
  }

  /** Insertion puts an action that is not on target behind those that are, and any other one in front. */
  lemma {:induction false} InsertBehind(s: Session, x: Item, a: seq<Item>, b: seq<Item>)
    requires !OnTarget(s, x) && (forall k :: 0 <= k < |a| ==> OnTarget(s, a[k])) && (forall k :: 0 <= k < |b| ==> !OnTarget(s, b[k]))
    ensures Insert(TargetsFirst(s.goal), x, a + b) == a + [x] + b
  {
    hide OnTarget, TargetsFirst;
    if a == [] {
      assert a + b == b;
      if b != [] { TargetsFirstIff(s, b[0], x); }
    } else {
      TargetsFirstIff(s, a[0], x);
      assert (a + b)[1..] == a[1..] + b;
      InsertBehind(s, x, a[1..], b);
    }
  }

  lemma InsertInFront(s: Session, x: Item, a: seq<Item>)
    requires OnTarget(s, x)
    ensures Insert(TargetsFirst(s.goal), x, a) == [x] + a
  {
    hide OnTarget, TargetsFirst;
    if a != [] { TargetsFirstIff(s, a[0], x); }
  }

  ghost function OrderedPlaces(s: Session, exposed: set<string>, n: nat): seq<nat>
    requires n <= |s.items|
  {
    Places(s, exposed, n, true) + Places(s, exposed, n, false)
  }

  lemma OrderedInRange(s: Session, exposed: set<string>, n: nat)
    requires n <= |s.items|
    ensures InItems(s.items, OrderedPlaces(s, exposed, n))
  {
    PlacesInRange(s, exposed, n, true);
    PlacesInRange(s, exposed, n, false);
  }

  lemma ItemsAtConcat(items: seq<Item>, a: seq<nat>, b: seq<nat>)
    requires InItems(items, a) && InItems(items, b)
    ensures InItems(items, a + b) && ItemsAt(items, a + b) == ItemsAt(items, a) + ItemsAt(items, b)
  {
  }

  lemma ItemAt(items: seq<Item>, n: nat)
    requires n < |items|
    ensures InItems(items, [n]) && ItemsAt(items, [n]) == [items[n]]
  {
  }

  lemma OrderedShape(s: Session, exposed: set<string>, n: nat)
    requires n < |s.items|
    ensures var a, b := Places(s, exposed, n + 1, true), Places(s, exposed, n + 1, false);
      OrderedPlaces(s, exposed, n) ==
        if !OfferedAt(s, exposed, n) then a + b
        else if OnTarget(s, s.items[n]) then [n] + (a + b)
        else a + [n] + b
  {
    hide OfferedAt, OnTarget, Places;
    PlacesStep(s, exposed, n, true);
    PlacesStep(s, exposed, n, false);
  }

  /** One action more in front, and what that does to the order. */
  lemma OrderedStep(s: Session, exposed: set<string>, n: nat)
    requires n < |s.items|
    ensures InItems(s.items, OrderedPlaces(s, exposed, n)) && InItems(s.items, OrderedPlaces(s, exposed, n + 1))
    ensures var rest := ItemsAt(s.items, OrderedPlaces(s, exposed, n + 1));
      ItemsAt(s.items, OrderedPlaces(s, exposed, n)) ==
        if OfferedAt(s, exposed, n) then Insert(TargetsFirst(s.goal), s.items[n], rest) else rest
  {
    var a, b := Places(s, exposed, n + 1, true), Places(s, exposed, n + 1, false);
    assert OrderedPlaces(s, exposed, n + 1) == a + b;
    OrderedShape(s, exposed, n);
    hide *;
    PlacesInRange(s, exposed, n + 1, true);
    PlacesInRange(s, exposed, n + 1, false);
    ItemsAtConcat(s.items, a, b);
    ItemAt(s.items, n);
    if OfferedAt(s, exposed, n) {
      if OnTarget(s, s.items[n]) {
        ItemsAtConcat(s.items, [n], a + b);
        InsertInFront(s, s.items[n], ItemsAt(s.items, a + b));
      } else {
        BehindTargets(s, exposed, n);
        ItemsAtConcat(s.items, a, [n]);
        ItemsAtConcat(s.items, a + [n], b);
      }
    }
  }

  lemma BehindTargets(s: Session, exposed: set<string>, n: nat)
    requires n < |s.items| && !OnTarget(s, s.items[n])
    ensures InItems(s.items, Places(s, exposed, n + 1, true)) && InItems(s.items, Places(s, exposed, n + 1, false))
    ensures var a, b := Places(s, exposed, n + 1, true), Places(s, exposed, n + 1, false);
      Insert(TargetsFirst(s.goal), s.items[n], ItemsAt(s.items, a) + ItemsAt(s.items, b)) ==
        ItemsAt(s.items, a) + [s.items[n]] + ItemsAt(s.items, b)
  {
    hide OfferedAt, OnTarget, Insert, TargetsFirst, Places;
    PlacesInRange(s, exposed, n + 1, true);
    PlacesInRange(s, exposed, n + 1, false);
    PlacesAre(s, exposed, n + 1);
    InsertBehind(s, s.items[n], ItemsAt(s.items, Places(s, exposed, n + 1, true)), ItemsAt(s.items, Places(s, exposed, n + 1, false)));
  }

  /** The sorted candidates are the offered actions in this order. */
  lemma {:induction false} SortedAt(s: Session, exposed: set<string>, n: nat)
    requires MaterialOk(s.goal.targets, s.version, s.concepts, s.relations, s.items) && s.version > 0
    requires n <= |s.items|
    ensures InItems(s.items, OrderedPlaces(s, exposed, n))
    ensures Sort(TargetsFirst(s.goal), Filter(s, exposed, s.items[n..])) == ItemsAt(s.items, OrderedPlaces(s, exposed, n))
    decreases |s.items| - n
  {
    hide MaterialOk, Eligible, MayBeOffered, Insert, TargetsFirst, OrderedPlaces, Filter, Sort, InItems, ItemsAt;
    if n < |s.items| {
      var x, tail := s.items[n], s.items[n + 1..];
      assert s.items[n..] == [x] + tail;
      SortedAt(s, exposed, n + 1);
      OrderedStep(s, exposed, n);
      EligibleIff(s, exposed, x);
      SortStep(s, exposed, x, tail);
    } else {
      NoPlaces(s, exposed);
      NoItems(s.items);
      assert s.items[n..] == [];
      SortNothing(s, exposed);
    }
  }

  lemma NoItems(items: seq<Item>)
    ensures InItems(items, []) && ItemsAt(items, []) == []
  {
  }

  lemma SortNothing(s: Session, exposed: set<string>)
    ensures Sort(TargetsFirst(s.goal), Filter(s, exposed, [])) == []
  {
  }

  lemma NoPlaces(s: Session, exposed: set<string>)
    ensures OrderedPlaces(s, exposed, |s.items|) == []
  {
  }

  lemma PlacesStep(s: Session, exposed: set<string>, n: nat, own: bool)
    requires n < |s.items|
    ensures Places(s, exposed, n, own) ==
      (if OfferedAt(s, exposed, n) && OnTarget(s, s.items[n]) == own then [n] else []) + Places(s, exposed, n + 1, own)
  {
    hide OfferedAt, OnTarget;
  }

  lemma PlacesAre(s: Session, exposed: set<string>, n: nat)
    requires n <= |s.items|
    ensures var a := Places(s, exposed, n, true); forall k :: 0 <= k < |a| ==> a[k] < |s.items| && OnTarget(s, s.items[a[k]])
    ensures var b := Places(s, exposed, n, false); forall k :: 0 <= k < |b| ==> b[k] < |s.items| && !OnTarget(s, s.items[b[k]])
  {
    hide OnTarget, OfferedAt;
    var a, b := Places(s, exposed, n, true), Places(s, exposed, n, false);
    assert forall k :: 0 <= k < |a| ==> a[k] in a;
    assert forall k :: 0 <= k < |b| ==> b[k] in b;
  }

  lemma SortStep(s: Session, exposed: set<string>, x: Item, tail: seq<Item>)
    ensures Sort(TargetsFirst(s.goal), Filter(s, exposed, [x] + tail)) ==
      var rest := Sort(TargetsFirst(s.goal), Filter(s, exposed, tail));
      if Eligible(s, exposed, x) then Insert(TargetsFirst(s.goal), x, rest) else rest
  {
    hide Eligible, TargetsFirst, Insert;
    assert ([x] + tail)[1..] == tail;
    var f := Filter(s, exposed, tail);
    assert ([x] + f)[1..] == f && [] + f == f;
    assert Filter(s, exposed, [x] + tail) == if Eligible(s, exposed, x) then [x] + f else f;
  }

  /** The k-th of the sorted candidates has exactly k before it. */
  lemma PreferredSize(s: Session, exposed: set<string>, k: nat)
    requires k < |OrderedPlaces(s, exposed, 0)|
    ensures OrderedPlaces(s, exposed, 0)[k] < |s.items| && OfferedAt(s, exposed, OrderedPlaces(s, exposed, 0)[k])
    ensures |Preferred(s, exposed, OrderedPlaces(s, exposed, 0)[k])| == k
  {
    hide OfferedAt, OnTarget, OrderedPlaces, Preferred;
    var all := OrderedPlaces(s, exposed, 0);
    EarlierGoesBefore(s, exposed, k, k);
    var i := all[k];
    forall j: nat
      ensures j in Preferred(s, exposed, i) <==> j in all[..k]
    {
      PreferredIff(s, exposed, k, j);
    }
    forall x: nat, y: nat | x < y < k
      ensures all[..k][x] != all[..k][y]
    {
      EarlierGoesBefore(s, exposed, x, y);
      EarlierGoesBefore(s, exposed, y, x);
    }
    DistinctSize(all[..k], Preferred(s, exposed, i));
  }

  /** Where a position stands in the order. */
  lemma PlaceOf(s: Session, exposed: set<string>, j: nat) returns (l: nat)
    requires j < |s.items| && OfferedAt(s, exposed, j)
    ensures l < |OrderedPlaces(s, exposed, 0)| && OrderedPlaces(s, exposed, 0)[l] == j
  {
    hide OfferedAt, OnTarget;
    var a, b := Places(s, exposed, 0, true), Places(s, exposed, 0, false);
    if OnTarget(s, s.items[j]) {
      var m: nat :| m < |a| && a[m] == j;
      l := m;
    } else {
      var m: nat :| m < |b| && b[m] == j;
      l := |a| + m;
    }
  }

  /** Earlier in the order is going before. */
  lemma EarlierGoesBefore(s: Session, exposed: set<string>, l: nat, k: nat)
    requires l < |OrderedPlaces(s, exposed, 0)| && k < |OrderedPlaces(s, exposed, 0)|
    ensures OrderedPlaces(s, exposed, 0)[l] < |s.items| && OrderedPlaces(s, exposed, 0)[k] < |s.items|
    ensures l < k <==> GoesBefore(s, OrderedPlaces(s, exposed, 0)[l], OrderedPlaces(s, exposed, 0)[k])
    ensures OfferedAt(s, exposed, OrderedPlaces(s, exposed, 0)[l])
  {
    hide OfferedAt, OnTarget, Places;
    var a, b, all := Places(s, exposed, 0, true), Places(s, exposed, 0, false), OrderedPlaces(s, exposed, 0);
    PlacesAre(s, exposed, 0);
    assert forall m :: 0 <= m < |a| ==> all[m] == a[m] && a[m] in a;
    assert forall m :: |a| <= m < |all| ==> all[m] == b[m - |a|] && b[m - |a|] in b;
    Increasing(a);
    Increasing(b);
  }

  lemma Increasing(r: seq<nat>)
    requires forall k, l :: 0 <= k < l < |r| ==> r[k] < r[l]
    ensures forall k, l :: 0 <= k < |r| && 0 <= l < |r| ==> (r[k] < r[l] <==> k < l)
  {
    forall k, l | 0 <= k < |r| && 0 <= l < |r|
      ensures r[k] < r[l] <==> k < l
    {
      if l < k { assert r[l] < r[k]; }
    }
  }

  lemma PreferredIff(s: Session, exposed: set<string>, k: nat, j: nat)
    requires k < |OrderedPlaces(s, exposed, 0)| && OrderedPlaces(s, exposed, 0)[k] < |s.items|
    ensures j in Preferred(s, exposed, OrderedPlaces(s, exposed, 0)[k]) <==> j in OrderedPlaces(s, exposed, 0)[..k]
  {
    hide OfferedAt, OnTarget, OrderedPlaces, GoesBefore;
    var all := OrderedPlaces(s, exposed, 0);
    if j in all[..k] {
      var l :| 0 <= l < k && all[..k][l] == j;
      EarlierGoesBefore(s, exposed, l, k);
    }
    if j in Preferred(s, exposed, all[k]) {
      var l := PlaceOf(s, exposed, j);
      EarlierGoesBefore(s, exposed, l, k);
      assert all[..k][l] == j;
    }
  }

  // ---- The next stop, or the reason why there is none ------------------------------------

  /** The first estimate of a concept at a level. */
  ghost predicate IsEstimate(knowledge: seq<Estimate>, conceptId: string, level: Level, k: int) {
    && 0 <= k < |knowledge| && knowledge[k].conceptId == conceptId && knowledge[k].level == level
    && forall j :: 0 <= j < k ==> knowledge[j].conceptId != conceptId || knowledge[j].level != level
  }

  /** The target counts, its concept was not skipped, and it has no estimate that is at least 0.8 with two observations. */
  ghost predicate IsOpen(s: Session, t: Target) {
    && t.weight > 0.0
    && !WasSkipped(s.history, t.conceptId)
    && forall k :: IsEstimate(s.knowledge, t.conceptId, t.level, k) ==>
         s.knowledge[k].probability < 0.8 || s.knowledge[k].observations < 2
  }

  /** Without a stop a session is out of budget; or else in need of material, if a target is open, and finished if none is. */
  ghost predicate HasEnded(s: Session) {
    && s.questionId == None
    && (s.status == BudgetExhausted <==> s.spent >= s.goal.budget)
    && (s.status == GenerationNeeded <==> s.spent < s.goal.budget && exists t :: t in s.goal.targets && IsOpen(s, t))
    && (s.status == Finished <==> s.spent < s.goal.budget && forall t :: t in s.goal.targets ==> !IsOpen(s, t))
  }

  /** The stop is at the i-th action: one of the first five that may be offered, within the budget, with its first question
      that was not seen. */
  ghost predicate IsAt(s: Session, exposed: set<string>, stop: Stop, i: int) {
    && OfferedAt(s, exposed, i)
    && |Preferred(s, exposed, i)| < 5
    && var a := s.items[i];
       && stop.actionId == a.id && stop.conceptId == a.conceptId && stop.level == a.level
       && s.spent + a.cost <= s.goal.budget
       && IsFirstUnseen(a.compiled, exposed, s.questionId)
  }

  /** The session has arrived at its next stop, which has a new id and no response, or has ended. */
  ghost predicate HasArrived(s: Session, exposed: set<string>, stopId: nat) {
    && s.responseId == None
    && match s.current
       case Some(stop) => s.status == Active && stop.id == stopId && exists i :: IsAt(s, exposed, stop, i)
       case None => HasEnded(s)
  }

  lemma {:induction false} FindMeans(knowledge: seq<Estimate>, conceptId: string, level: Level)
    ensures Find(knowledge, conceptId, level).None? ==> forall k :: !IsEstimate(knowledge, conceptId, level, k)
    ensures Find(knowledge, conceptId, level).Some? ==>
      (exists k :: IsEstimate(knowledge, conceptId, level, k)) &&
      forall k :: IsEstimate(knowledge, conceptId, level, k) ==> knowledge[k] == Find(knowledge, conceptId, level).value
  {
    if knowledge != [] {
      var rest := knowledge[1..];
      FindMeans(rest, conceptId, level);
      if knowledge[0].conceptId == conceptId && knowledge[0].level == level {
        assert IsEstimate(knowledge, conceptId, level, 0);
      } else {
        forall k | IsEstimate(knowledge, conceptId, level, k)
          ensures IsEstimate(rest, conceptId, level, k - 1) && rest[k - 1] == knowledge[k]
        {
          assert forall j :: 0 <= j < |rest| ==> rest[j] == knowledge[j + 1];
        }
        if k :| IsEstimate(rest, conceptId, level, k) {
          assert forall j :: 0 <= j < |rest| ==> rest[j] == knowledge[j + 1];
          assert IsEstimate(knowledge, conceptId, level, k + 1);
        }
      }
    }
  }

  predicate CountsAsOpen(s: Session, t: Target) {
    t.weight > 0.0 && !Skipped(s.history, t.conceptId) &&
    (Mastery(s.knowledge, t.conceptId, t.level) < 0.8 || Observations(s.knowledge, t.conceptId, t.level) < 2)
  }

  lemma OpenIff(s: Session, t: Target)
    ensures IsOpen(s, t) <==> CountsAsOpen(s, t)
  {
    SkippedIff(s.history, t.conceptId);
    FindMeans(s.knowledge, t.conceptId, t.level);
    hide Skipped, WasSkipped, Find, IsEstimate;
  }

  lemma UnresolvedIff(s: Session)
    ensures Unresolved(s) <==> exists t :: t in s.goal.targets && IsOpen(s, t)
  {
    hide IsOpen, Skipped, Mastery, Observations;
    forall t
      ensures IsOpen(s, t) <==> CountsAsOpen(s, t)
    {
      OpenIff(s, t);
    }
    if Unresolved(s) {
      var i :| 0 <= i < |s.goal.targets| && CountsAsOpen(s, s.goal.targets[i]);
      assert s.goal.targets[i] in s.goal.targets;
    }
    if t :| t in s.goal.targets && IsOpen(s, t) {
      var i :| 0 <= i < |s.goal.targets| && s.goal.targets[i] == t;
      assert CountsAsOpen(s, s.goal.targets[i]);
    }
  }

  /** The chosen action is one of the first five, at its place among the actions. */
  lemma ChosenPlace(s: Session, exposed: set<string>, wish: nat) returns (i: nat)
    requires MaterialOk(s.goal.targets, s.version, s.concepts, s.relations, s.items) && s.version > 0 && ItemsOk(s.items)
    requires NextItem(s, exposed, wish).Some?
    ensures OfferedAt(s, exposed, i) && |Preferred(s, exposed, i)| < 5 && s.items[i] == NextItem(s, exposed, wish).value
    ensures s.spent + s.items[i].cost <= s.goal.budget
  {
    hide MaterialOk, OfferedAt, Preferred, OrderedPlaces, MayBeOffered;
    SortedAt(s, exposed, 0);
    assert s.items[0..] == s.items;
    var candidates := Candidates(s, exposed);
    var selected := if |candidates| < 5 then candidates else candidates[..5];
    assert candidates[wish] == selected[wish];
    PreferredSize(s, exposed, wish);
    i := OrderedPlaces(s, exposed, 0)[wish];
    assert candidates[wish] == s.items[i];
    UniqueItem(s, exposed, wish, s.items[i]);
  }

  lemma UniqueItem(s: Session, exposed: set<string>, wish: nat, a: Item)
    requires ItemsOk(s.items) && NextItem(s, exposed, wish).Some? && Decision(s, exposed, wish) == Some(a.id) && a in s.items
    ensures NextItem(s, exposed, wish).value == a && s.spent + a.cost <= s.goal.budget
  {
    NextItemOk(s, exposed, wish);
    FindUnique(s.items, a);
    hide Candidates, Decision, FindItem, Eligible;
    assert a.cost > 0.0;
  }

  /** Each of the first five that fits into the budget can be chosen, and so can none. */
  lemma EveryChoice(s: Session, exposed: set<string>, i: nat) returns (wish: nat, none: nat)
    requires MaterialOk(s.goal.targets, s.version, s.concepts, s.relations, s.items) && s.version > 0 && ItemsOk(s.items)
    requires OfferedAt(s, exposed, i) && |Preferred(s, exposed, i)| < 5 && s.spent + s.items[i].cost <= s.goal.budget
    ensures NextItem(s, exposed, wish) == Some(s.items[i]) && NextItem(s, exposed, none) == None
  {
    hide MaterialOk, Preferred, OrderedPlaces, MayBeOffered;
    SortedAt(s, exposed, 0);
    assert s.items[0..] == s.items;
    wish := PlaceOf(s, exposed, i);
    none := 5;
    PreferredSize(s, exposed, wish);
    var candidates := Candidates(s, exposed);
    assert candidates[wish] == s.items[i];
    assert s.items[i].cost > 0.0;
    assert Decision(s, exposed, wish) == Some(s.items[i].id);
    FindUnique(s.items, s.items[i]);
  }

  /** Main result on moving: Moved arrives at a stop or ends, as stated. */
  lemma MovedArrives(s: Session, exposed: set<string>, wish: nat, stopId: nat)
    requires MaterialOk(s.goal.targets, s.version, s.concepts, s.relations, s.items) && s.version > 0 && ItemsOk(s.items)
    ensures HasArrived(Moved(s, exposed, wish, stopId), exposed, stopId)
  {
    var t := Moved(s, exposed, wish, stopId);
    if NextItem(s, exposed, wish).Some? {
      var i := ChosenPlace(s, exposed, wish);
      FirstFreshMeans(s.items[i].compiled, exposed);
      SameOffers(s, t, exposed, i);
      hide MaterialOk, OfferedAt, Preferred, NextItem, IsFirstUnseen, FirstFresh;
      assert IsAt(t, exposed, t.current.value, i);
    } else {
      hide NextItem, Unresolved, IsOpen;
      UnresolvedIff(t);
      SameUnresolved(s, t);
    }
  }

  lemma SameUnresolved(s: Session, t: Session)
    requires t == s.(status := t.status, current := t.current, questionId := t.questionId, responseId := t.responseId)
    ensures Unresolved(s) <==> Unresolved(t)
  {
    hide Skipped, Mastery, Observations;
  }

  /** What may be offered depends on goal, history and material only. */
  lemma SameOffers(s: Session, t: Session, exposed: set<string>, i: nat)
    requires t == s.(status := t.status, current := t.current, questionId := t.questionId, responseId := t.responseId)
    requires i < |s.items|
    ensures OfferedAt(s, exposed, i) <==> OfferedAt(t, exposed, i)
    ensures Preferred(s, exposed, i) == Preferred(t, exposed, i)
  {
    hide RelationClosed, ItemClosed, HoldsTargets, WasSkipped, VisitsOf;
    forall c
      ensures IsNeeded(s, c) <==> IsNeeded(t, c)
    {
    }
    hide IsNeeded;
    forall j: nat | j < |s.items|
      ensures OfferedAt(s, exposed, j) <==> OfferedAt(t, exposed, j)
      ensures OnTarget(s, s.items[j]) <==> OnTarget(t, t.items[j])
    {
    }
  }

  /** None of this depends on the revision. */
  lemma SameAtRevision(s: Session, t: Session, exposed: set<string>)
    requires t == s.(revision := t.revision)
    ensures forall i: nat :: i < |s.items| ==> (OfferedAt(s, exposed, i) <==> OfferedAt(t, exposed, i)) && Preferred(s, exposed, i) == Preferred(t, exposed, i)
    ensures forall x :: IsOpen(s, x) <==> IsOpen(t, x)
  {
    hide RelationClosed, ItemClosed, HoldsTargets, WasSkipped, VisitsOf;
    forall c
      ensures IsNeeded(s, c) <==> IsNeeded(t, c)
    {
    }
    hide IsNeeded;
    forall i: nat | i < |s.items|
      ensures (OfferedAt(s, exposed, i) <==> OfferedAt(t, exposed, i)) && Preferred(s, exposed, i) == Preferred(t, exposed, i)
    {
      forall j: nat | j < |s.items|
        ensures OfferedAt(s, exposed, j) <==> OfferedAt(t, exposed, j)
        ensures OnTarget(s, s.items[j]) <==> OnTarget(t, t.items[j])
      {
      }
    }
  }
}
