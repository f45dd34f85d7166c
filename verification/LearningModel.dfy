/** What the learning store keeps for a session, and the planner's view of it. */
module LearningModel {
  import opened Sorting
  import opened Counting

  datatype Option<T> = None | Some(value: T)

  datatype Level = Easy | Medium | Hard

  datatype Status = Preparing | GenerationNeeded | Active | Finished | BudgetExhausted | Stopped

  datatype Outcome = Continue | Skip

  datatype Target = Target(conceptId: string, level: Level, weight: real)

  datatype Goal = Goal(repositoryId: string, snapshot: string, targets: seq<Target>, budget: real)

  /** A multiple-choice question; the fingerprint stands for the hash of its normalised text. */
  datatype Question = Question(id: nat, fingerprint: string, choices: seq<string>, answer: string)

  datatype Effect = Effect(conceptId: string, prerequisites: seq<string>)

  datatype Item = Item(id: string, conceptId: string, level: Level, cost: real, effects: seq<Effect>,
                       compiled: seq<Question>)

  datatype Relation = Relation(from: string, to: string)

  datatype Concept = Concept(id: string, name: string, version: nat, definition: string)

  datatype Curriculum = Curriculum(version: nat, concepts: seq<Concept>, items: seq<Item>, relations: seq<Relation>)

  datatype Estimate = Estimate(conceptId: string, level: Level, probability: real, observations: nat)

  /** The step a learner is at: one visit of one action. */
  datatype Stop = Stop(id: nat, actionId: string, conceptId: string, level: Level)

  datatype Visit = Visit(step: Stop, outcome: Outcome, responseId: Option<nat>)

  /** Version 0 stands for a session that has no curriculum yet. */
  datatype Session = Session(learner: string, goal: Goal, revision: nat, status: Status, current: Option<Stop>,
                             spent: real, history: seq<Visit>, version: nat, concepts: seq<Concept>,
                             relations: seq<Relation>, items: seq<Item>, knowledge: seq<Estimate>,
                             questionId: Option<nat>, responseId: Option<nat>)

  // ---- Lookups ---------------------------------------------------------------------------

  function FindItem(items: seq<Item>, id: string): (r: Option<Item>)
    ensures r.Some? ==> r.value in items && r.value.id == id
    ensures r.None? ==> forall i :: 0 <= i < |items| ==> items[i].id != id
  {
    if items == [] then None
    else if items[0].id == id then Some(items[0])
    else FindItem(items[1..], id)
  }

  function FindQuestion(questions: seq<Question>, id: nat): (r: Option<Question>)
    ensures r.Some? ==> r.value in questions && r.value.id == id
  {
    if questions == [] then None
    else if questions[0].id == id then Some(questions[0])
    else FindQuestion(questions[1..], id)
  }

  function Find(knowledge: seq<Estimate>, conceptId: string, level: Level): Option<Estimate> {
    if knowledge == [] then None
    else if knowledge[0].conceptId == conceptId && knowledge[0].level == level then Some(knowledge[0])
    else Find(knowledge[1..], conceptId, level)
  }

  // ---- Which actions come into question --------------------------------------------------

  function TargetConcepts(targets: seq<Target>): set<string> {
    set t | t in targets :: t.conceptId
  }

  /** One pass over the relations: what a needed concept builds on is needed too. */
  function RelationPass(relations: seq<Relation>, needed: set<string>): (r: set<string>)
    ensures needed <= r
  {
    if relations == [] then needed
    else RelationPass(relations[1..], if relations[0].to in needed then needed + {relations[0].from} else needed)
  }

  function Prerequisites(effects: seq<Effect>): set<string> {
    set e, p | e in effects && p in e.prerequisites :: p
  }

  /** One pass over the actions: the prerequisites of an action that teaches a needed concept are needed. */
  function ItemPass(items: seq<Item>, needed: set<string>): (r: set<string>)
    ensures needed <= r
  {
    if items == [] then needed
    else
      var teaches := exists e :: e in items[0].effects && e.conceptId in needed;
      ItemPass(items[1..], if teaches then needed + Prerequisites(items[0].effects) else needed)
  }

  function RelationPasses(n: nat, relations: seq<Relation>, needed: set<string>): (r: set<string>)
    ensures needed <= r
  {
    if n == 0 then needed else RelationPasses(n - 1, relations, RelationPass(relations, needed))
  }

  function ItemPasses(n: nat, items: seq<Item>, needed: set<string>): (r: set<string>)
    ensures needed <= r
  {
    if n == 0 then needed else ItemPasses(n - 1, items, ItemPass(items, needed))
  }

  function Needed(s: Session): set<string> {
    ItemPasses(8, s.items, RelationPasses(8, s.relations, TargetConcepts(s.goal.targets)))
  }

  predicate Skipped(history: seq<Visit>, conceptId: string) {
    exists i :: 0 <= i < |history| && history[i].outcome == Skip && history[i].step.conceptId == conceptId
  }

  function OfAction(actionId: string): Visit -> bool {
    (v: Visit) => v.step.actionId == actionId
  }

  function Visits(history: seq<Visit>, actionId: string): nat {
    Count(history, OfAction(actionId))
  }

  function FirstFresh(questions: seq<Question>, exposed: set<string>): (r: Option<Question>)
    ensures r.Some? ==> r.value in questions && r.value.fingerprint !in exposed
  {
    if questions == [] then None
    else if questions[0].fingerprint !in exposed then Some(questions[0])
    else FirstFresh(questions[1..], exposed)
  }

  /** The action serves the goal, its concept was not skipped, it was visited less than twice, and it has no
      question or one that the learner has not answered yet. */
  predicate Eligible(s: Session, exposed: set<string>, item: Item) {
    && item.conceptId in Needed(s)
    && !Skipped(s.history, item.conceptId)
    && Visits(s.history, item.id) < 2
    && (item.compiled == [] || FirstFresh(item.compiled, exposed).Some?)
  }

  function Filter(s: Session, exposed: set<string>, items: seq<Item>): (r: seq<Item>)
    ensures forall a :: a in r <==> a in items && Eligible(s, exposed, a)
  {
    if items == [] then []
    else (if Eligible(s, exposed, items[0]) then [items[0]] else []) + Filter(s, exposed, items[1..])
  }

  function TargetsFirst(goal: Goal): (Item, Item) -> bool {
    (a: Item, b: Item) =>
      a.conceptId in TargetConcepts(goal.targets) && b.conceptId !in TargetConcepts(goal.targets)
  }

  function Candidates(s: Session, exposed: set<string>): seq<Item> {
    Sort(TargetsFirst(s.goal), Filter(s, exposed, s.items))
  }

  lemma CandidatesEligible(s: Session, exposed: set<string>)
    ensures forall a :: a in Candidates(s, exposed) <==> a in s.items && Eligible(s, exposed, a)
  {
    SameMembers(Candidates(s, exposed), Filter(s, exposed, s.items));
  }

  /** Actions on the goal's own concepts come before all others. */
  lemma CandidatesSorted(s: Session, exposed: set<string>)
    ensures SortedBy(TargetsFirst(s.goal), Candidates(s, exposed))
    ensures forall i, j, t :: 0 <= i < j < |Candidates(s, exposed)| && t in s.goal.targets && Candidates(s, exposed)[j].conceptId == t.conceptId ==>
      exists x :: x in s.goal.targets && Candidates(s, exposed)[i].conceptId == x.conceptId
  {
    SortSorted(TargetsFirst(s.goal), Filter(s, exposed, s.items));
    var c := Candidates(s, exposed);
    forall i, j, t | 0 <= i < j < |c| && t in s.goal.targets && c[j].conceptId == t.conceptId
      ensures exists x :: x in s.goal.targets && c[i].conceptId == x.conceptId
    {
      assert !TargetsFirst(s.goal)(c[j], c[i]);
      assert c[j].conceptId in TargetConcepts(s.goal.targets);
      assert c[i].conceptId in TargetConcepts(s.goal.targets);
    }
  }

  function Remaining(s: Session): real {
    if s.goal.budget - s.spent > 0.0 then s.goal.budget - s.spent else 0.0
  }

  /** chooseAction, of which only this is used: it returns nothing, or one of the first five candidates whose
      cost fits into the remaining budget. Which one it is depends on a search with a time limit; the number
      `wish` stands for its outcome, and every outcome is possible. */
  function ChooseAction(selected: seq<Item>, budget: real, wish: nat): Option<string> {
    if wish < |selected| && selected[wish].cost <= budget then Some(selected[wish].id) else None
  }

  function Decision(s: Session, exposed: set<string>, wish: nat): Option<string> {
    var candidates := Candidates(s, exposed);
    ChooseAction(if |candidates| < 5 then candidates else candidates[..5], Remaining(s), wish)
  }

  function Mastery(knowledge: seq<Estimate>, conceptId: string, level: Level): real {
    match Find(knowledge, conceptId, level)
    case Some(k) => k.probability
    case None => 0.3
  }

  function Observations(knowledge: seq<Estimate>, conceptId: string, level: Level): nat {
    match Find(knowledge, conceptId, level)
    case Some(k) => k.observations
    case None => 0
  }

  /** A target that counts, was not skipped, and is not mastered with two observations. */
  predicate Unresolved(s: Session) {
    exists i :: 0 <= i < |s.goal.targets| &&
      var t := s.goal.targets[i];
      t.weight > 0.0 && !Skipped(s.history, t.conceptId) &&
      (Mastery(s.knowledge, t.conceptId, t.level) < 0.8 || Observations(s.knowledge, t.conceptId, t.level) < 2)
  }
}
