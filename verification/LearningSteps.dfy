/** What each transaction does to the session it loads, and why the invariants survive saving it. */
module LearningSteps {
  import opened Counting
  import opened LearningModel
  import opened LearningInvariants
  import opened LearningJobs

  // ---- The next stop ---------------------------------------------------------------------

  function Fresh(item: Item, exposed: set<string>): Option<nat> {
    match FirstFresh(item.compiled, exposed)
    case Some(q) => Some(q.id)
    case None => None
  }

  function NextItem(s: Session, exposed: set<string>, wish: nat): Option<Item> {
    match Decision(s, exposed, wish)
    case Some(id) => FindItem(s.items, id)
    case None => None
  }

  /** The session at its next stop, or without one and with the reason in its status. */
  function Moved(s: Session, exposed: set<string>, wish: nat, stopId: nat): Session {
    match NextItem(s, exposed, wish)
    case Some(item) =>
      s.(status := Active, current := Some(Stop(stopId, item.id, item.conceptId, item.level)),
         questionId := Fresh(item, exposed), responseId := None)
    case None =>
      s.(status := if s.spent >= s.goal.budget then BudgetExhausted else if Unresolved(s) then GenerationNeeded else Finished,
         current := None, questionId := None, responseId := None)
  }

  /** What holds of a session between two stops. */
  ghost predicate BetweenStops(s: Session, nextId: nat) {
    && s.revision >= 1
    && 0.0 <= s.spent <= s.goal.budget
    && (s.version == 0 ==> s.items == [])
    && ItemsOk(s.items)
    && MaterialOk(s.goal.targets, s.version, s.concepts, s.relations, s.items)
    && HistoryOk(s.history, nextId)
  }

  lemma {:induction false} FindUnique(items: seq<Item>, item: Item)
    requires item in items && forall i, j :: 0 <= i < j < |items| ==> items[i].id != items[j].id
    ensures FindItem(items, item.id) == Some(item)
  {
    if items[0] != item {
      var k :| 0 <= k < |items| && items[k] == item;
      assert items[0].id != items[k].id;
      assert items[1..][k - 1] == item;
      FindUnique(items[1..], item);
    }
  }

  /** The next stop is an eligible action that fits into the budget. */
  lemma NextItemOk(s: Session, exposed: set<string>, wish: nat)
    requires ItemsOk(s.items) && NextItem(s, exposed, wish).Some?
    ensures var item := NextItem(s, exposed, wish).value;
            item in s.items && FindItem(s.items, item.id) == Some(item) && Eligible(s, exposed, item) && item.cost <= Remaining(s)
  {
    var candidates := Candidates(s, exposed);
    var selected := if |candidates| < 5 then candidates else candidates[..5];
    var item := selected[wish];
    assert item in candidates;
    CandidatesEligible(s, exposed);
    FindUnique(s.items, item);
  }

  lemma MovedOk(s: Session, exposed: set<string>, wish: nat, stopId: nat)
    requires BetweenStops(s, stopId)
    ensures SessionOk(Moved(s, exposed, wish, stopId), stopId + 1)
  {
    var t := Moved(s, exposed, wish, stopId);
    assert HistoryOk(t.history, stopId + 1);
    if NextItem(s, exposed, wish).Some? {
      NextItemOk(s, exposed, wish);
      hide NextItem, HistoryOk, ItemsOk, Candidates;
      var item := NextItem(s, exposed, wish).value;
      assert t.current == Some(Stop(stopId, item.id, item.conceptId, item.level));
      assert item.cost > 0.0 by { PositiveCost(s.items, item); }
      FreshStop(s.history, stopId);
    }
  }

  lemma PositiveCost(items: seq<Item>, item: Item)
    requires ItemsOk(items) && item in items
    ensures item.cost > 0.0
  {
  }

  lemma FreshStop(history: seq<Visit>, stopId: nat)
    requires HistoryOk(history, stopId)
    ensures forall i :: 0 <= i < |history| ==> history[i].step.id != stopId
  {
  }

  // ---- Leaving a stop --------------------------------------------------------------------

  /** The current stop goes into the history and is paid for. */
  function Completed(s: Session, cost: real, outcome: Outcome): Session
    requires s.current.Some?
  {
    s.(spent := s.spent + cost, history := s.history + [Visit(s.current.value, outcome, s.responseId)],
       current := None, questionId := None, responseId := None)
  }

  lemma VisitsGrow(history: seq<Visit>, v: Visit, actionId: string)
    ensures Visits(history + [v], actionId) == Visits(history, actionId) + if v.step.actionId == actionId then 1 else 0
  {
    CountConcat(history, [v], OfAction(actionId));
  }

  lemma HistoryGrows(s: Session, v: Visit, nextId: nat)
    requires HistoryOk(s.history, nextId) && CurrentOk(s, nextId) && s.current == Some(v.step)
    ensures HistoryOk(s.history + [v], nextId)
  {
    var h := s.history + [v];
    forall a
      ensures Visits(h, a) <= 2
    {
      VisitsGrow(s.history, v, a);
      assert Visits(s.history, a) <= 2;
    }
    hide Visits;
    forall i, j | 0 <= i < j < |h| && h[i].outcome == Skip
      ensures h[j].step.conceptId != h[i].step.conceptId
    {
      assert h[i] == s.history[i];
      if j == |s.history| { assert !Skipped(s.history, v.step.conceptId); }
    }
  }

  lemma CompletedOk(s: Session, outcome: Outcome, nextId: nat)
    requires SessionOk(s, nextId) && s.current.Some?
    ensures FindItem(s.items, s.current.value.actionId).Some?
    ensures var item := FindItem(s.items, s.current.value.actionId).value;
            item in s.items && item.cost > 0.0 && BetweenStops(Completed(s, item.cost, outcome), nextId)
  {
    var item := FindItem(s.items, s.current.value.actionId).value;
    PositiveCost(s.items, item);
    hide HistoryOk, ItemsOk, Visits, Skipped, FindItem;
    HistoryGrows(s, Visit(s.current.value, outcome, s.responseId), nextId);
  }

  // ---- Saving ----------------------------------------------------------------------------

  function Save(d: Database, sid: nat, t: Session, what: What): Database {
    d.(sessions := d.sessions[sid := t], events := d.events + [Event(sid, t.revision, what)])
  }

  lemma CountNew(events: seq<Event>, e: Event, p: Event -> bool)
    ensures Count(events + [e], p) == Count(events, p) + if p(e) then 1 else 0
  {
    CountConcat(events, [e], p);
  }

  /** The new event has the session's new revision. A session without events is a new one. */
  lemma EventSaved(events: seq<Event>, sessions: map<nat, Session>, sid: nat, t: Session, what: What)
    requires EventsOk(events, sessions)
    requires if sid in sessions then t.revision == sessions[sid].revision + 1 else t.revision == 1
    ensures EventsOk(events + [Event(sid, t.revision, what)], sessions[sid := t])
  {
    var e := Event(sid, t.revision, what);
    var all, after := events + [e], sessions[sid := t];
    if sid !in sessions { NoEvents(events, sid, sessions); }
    forall x | x in after
      ensures after[x].revision == Count(all, InSession(x))
    {
      CountNew(events, e, InSession(x));
    }
    forall i | 0 <= i < |all|
      ensures all[i].session in after && all[i].revision == Count(all[..i + 1], InSession(all[i].session))
    {
      if i < |events| {
        assert all[..i + 1] == events[..i + 1];
      } else {
        assert all[..i + 1] == all;
      }
    }
  }

  lemma NoEvents(events: seq<Event>, sid: nat, sessions: map<nat, Session>)
    requires EventsOk(events, sessions) && sid !in sessions
    ensures Count(events, InSession(sid)) == 0
  {
    CountIsZero(events, InSession(sid));
  }

  lemma AnswersKept(events: seq<Event>, exposures: set<Exposure>, submissions: map<string, Submission>, e: Event)
    requires AnswersOk(events, exposures, submissions) && !e.what.AnsweredEvent?
    ensures AnswersOk(events + [e], exposures, submissions)
  {
    CountNew(events, e, IsAnswer());
    forall x
      ensures Answered(events + [e], x) <==> Answered(events, x)
    {
      AnsweredGrows(events, e, x);
    }
  }

  lemma AnsweredGrows(events: seq<Event>, e: Event, x: Exposure)
    ensures Answered(events + [e], x) <==> Answered(events, x) || (e.what.AnsweredEvent? && e.what.exposure == x)
  {
    var all := events + [e];
    if Answered(events, x) {
      var i :| 0 <= i < |events| && events[i].what.AnsweredEvent? && events[i].what.exposure == x;
      assert all[i] == events[i];
    }
    if e.what.AnsweredEvent? && e.what.exposure == x {
      assert all[|events|] == e;
    }
  }

  /** A counted answer: a new submission id, and an exposure row that was not there. */
  lemma AnswerAdded(events: seq<Event>, exposures: set<Exposure>, submissions: map<string, Submission>, e: Event,
                    id: string, submission: Submission)
    requires AnswersOk(events, exposures, submissions) && e.what.AnsweredEvent?
    requires e.what.exposure !in exposures && id !in submissions
    ensures AnswersOk(events + [e], exposures + {e.what.exposure}, submissions[id := submission])
  {
    var all, x := events + [e], e.what.exposure;
    CountNew(events, e, IsAnswer());
    assert submissions[id := submission].Keys == submissions.Keys + {id};
    forall y
      ensures Answered(all, y) <==> Answered(events, y) || x == y
    {
      AnsweredGrows(events, e, y);
    }
    forall i, j | 0 <= i < j < |all| && all[i].what.AnsweredEvent? && all[j].what.AnsweredEvent?
      ensures all[i].what.exposure != all[j].what.exposure
    {
      if j == |events| { assert Answered(events, all[i].what.exposure); }
    }
  }

  lemma SessionsSaved(sessions: map<nat, Session>, nextId: nat, sid: nat, t: Session, newId: nat)
    requires SessionsOk(sessions, nextId) && nextId <= newId && SessionOk(t, newId) && sid < newId
    ensures SessionsOk(sessions[sid := t], newId)
  {
    var after := sessions[sid := t];
    forall x | x in after
      ensures x < newId && SessionOk(after[x], newId)
    {
      if x != sid {
        assert SessionOk(sessions[x], nextId);
        LaterIds(sessions[x], nextId, newId);
      }
    }
  }

  lemma LaterIds(s: Session, nextId: nat, newId: nat)
    requires SessionOk(s, nextId) && nextId <= newId
    ensures SessionOk(s, newId)
  {
    hide FindItem, Visits, Skipped;
  }

  lemma OtherPredictions(x: nat, s: Session, sid: nat, before: multiset<(nat, nat)>, more: multiset<(nat, nat)>)
    requires PredictionsOk(x, s, before) && x != sid && forall p: (nat, nat) :: p in more ==> p.0 == sid
    ensures PredictionsOk(x, s, before + more)
  {
    forall stop: nat
      ensures (before + more)[(x, stop)] == before[(x, stop)]
    {
      assert (x, stop).0 != sid;
    }
  }

  /** The ledger when a session is saved: at most one prediction more, for a stop that had none. */
  lemma LedgerSaved(sessions: map<nat, Session>, before: Ledger, nextId: nat, sid: nat, t: Session, after: Ledger,
                    newId: nat, more: multiset<(nat, nat)>)
    requires LedgerOk(sessions, before, nextId) && nextId <= newId
    requires after.charges.Keys == before.charges.Keys + {sid} && ChargesOk(t, after.charges[sid])
    requires forall x :: x in sessions && x != sid ==> after.charges[x] == before.charges[x]
    requires after.predictions == before.predictions + more
    requires forall p: (nat, nat) :: p in more ==> more[p] <= 1 && p.0 == sid && p.1 < newId && before.predictions[p] == 0
    requires PredictionsOk(sid, t, after.predictions)
    ensures LedgerOk(sessions[sid := t], after, newId)
  {
    forall x | x in sessions && x != sid
      ensures PredictionsOk(x, sessions[x], after.predictions)
    {
      assert PredictionsOk(x, sessions[x], before.predictions);
      OtherPredictions(x, sessions[x], sid, before.predictions, more);
    }
    hide PredictionsOk, ChargesOk;
    forall p: (nat, nat) | p in after.predictions
      ensures after.predictions[p] <= 1 && p.1 < newId
    {
      if p in more { } else { assert p in before.predictions; }
    }
  }

  lemma SaveEvolves(d: Database, sid: nat, t: Session, what: What)
    requires sid in d.sessions ==> SessionEvolves(d.sessions[sid], t)
    ensures Evolves(d, Save(d, sid, t, what))
  {
    EvolvesRefl(d);
    forall x | x in d.sessions && x != sid
      ensures SessionEvolves(d.sessions[x], d.sessions[sid := t][x])
    {
    }
  }

  // ---- Answering -------------------------------------------------------------------------

  /** The current question was answered; the estimates are new ones. */
  function Responded(s: Session, knowledge: seq<Estimate>, responseId: nat): Session {
    s.(knowledge := knowledge, responseId := Some(responseId), revision := s.revision + 1)
  }

  lemma RespondedOk(s: Session, knowledge: seq<Estimate>, nextId: nat)
    requires SessionOk(s, nextId) && s.status == Active
    ensures SessionOk(Responded(s, knowledge, nextId), nextId + 1)
    ensures SessionEvolves(s, Responded(s, knowledge, nextId))
  {
    hide FindItem, Visits, Skipped;
  }

  /** The model is applied at the current stop, once. */
  function Predict(ledger: Ledger, sid: nat, stop: nat): Ledger {
    ledger.(predictions := ledger.predictions + multiset{(sid, stop)})
  }

  lemma RespondedLedger(sessions: map<nat, Session>, ledger: Ledger, nextId: nat, sid: nat, t: Session)
    requires LedgerOk(sessions, ledger, nextId) && sid in sessions
    requires SessionOk(sessions[sid], nextId) && sessions[sid].current.Some? && sessions[sid].responseId.None?
    requires t.history == sessions[sid].history && t.spent == sessions[sid].spent
    requires t.current == sessions[sid].current && t.responseId.Some?
    ensures LedgerOk(sessions[sid := t], Predict(ledger, sid, t.current.value.id), nextId + 1)
  {
    var s := sessions[sid];
    var stop := s.current.value.id;
    var after := Predict(ledger, sid, stop);
    assert ChargesOk(s, ledger.charges[sid]) && PredictionsOk(sid, s, ledger.predictions);
    assert CurrentOk(s, nextId);
    hide FindItem, Visits, Skipped, HistoryOk, ItemsOk, LedgerOk;
    forall i | 0 <= i < |t.history|
      ensures after.predictions[(sid, t.history[i].step.id)] == Due(t.history[i])
    {
      assert t.history[i] == s.history[i];
    }
    assert PredictionsOk(sid, t, after.predictions);
    LedgerSaved(sessions, ledger, nextId, sid, t, after, nextId + 1, multiset{(sid, stop)});
  }

  // ---- Advancing -------------------------------------------------------------------------

  function Advanced(s: Session, knowledge: seq<Estimate>, cost: real, outcome: Outcome, exposed: set<string>, wish: nat,
                    stopId: nat): Session
    requires s.current.Some?
  {
    var t := Moved(Completed(s.(knowledge := knowledge), cost, outcome), exposed, wish, stopId);
    t.(revision := t.revision + 1)
  }

  lemma AdvancedOk(s: Session, knowledge: seq<Estimate>, outcome: Outcome, exposed: set<string>, wish: nat, nextId: nat)
    requires SessionOk(s, nextId) && s.current.Some?
    ensures FindItem(s.items, s.current.value.actionId).Some?
    ensures var cost := FindItem(s.items, s.current.value.actionId).value.cost;
            var t := Advanced(s, knowledge, cost, outcome, exposed, wish, nextId);
            cost > 0.0 && SessionOk(t, nextId + 1) && SessionEvolves(s, t) &&
            t.history == s.history + [Visit(s.current.value, outcome, s.responseId)] && t.spent == s.spent + cost &&
            t.responseId == None && t.version == s.version &&
            (t.current.Some? ==> t.current.value.id == nextId) && t.status != Stopped
  {
    var s1 := s.(knowledge := knowledge);
    SameOk(s, knowledge, nextId);
    CompletedOk(s1, outcome, nextId);
    var cost := FindItem(s.items, s.current.value.actionId).value.cost;
    var c := Completed(s1, cost, outcome);
    MovedOk(c, exposed, wish, nextId);
    MovedKeeps(c, exposed, wish, nextId);
    RevisionOk(Moved(c, exposed, wish, nextId), nextId + 1);
  }

  lemma SameOk(s: Session, knowledge: seq<Estimate>, nextId: nat)
    requires SessionOk(s, nextId)
    ensures SessionOk(s.(knowledge := knowledge), nextId)
  {
    hide FindItem, Visits, Skipped;
  }

  lemma RevisionOk(s: Session, nextId: nat)
    requires SessionOk(s, nextId)
    ensures SessionOk(s.(revision := s.revision + 1), nextId)
  {
    hide FindItem, Visits, Skipped;
  }

  lemma MovedKeeps(s: Session, exposed: set<string>, wish: nat, stopId: nat)
    ensures var t := Moved(s, exposed, wish, stopId);
            t == s.(status := t.status, current := t.current, questionId := t.questionId, responseId := None) &&
            (t.current.Some? ==> t.current.value.id == stopId) && t.status in {Active, BudgetExhausted, GenerationNeeded, Finished}
  {
  }

  /** The ledger when a stop is left: the model is applied if the visit is continued without an answer, and the
      visit is charged. */
  function Charge(ledger: Ledger, sid: nat, stop: nat, cost: real, predicted: bool): Ledger
    requires sid in ledger.charges
  {
    Ledger(ledger.predictions + (if predicted then multiset{(sid, stop)} else multiset{}),
           ledger.charges[sid := ledger.charges[sid] + [cost]])
  }

  lemma AdvancedLedger(sessions: map<nat, Session>, ledger: Ledger, nextId: nat, sid: nat, t: Session, cost: real,
                       outcome: Outcome)
    requires LedgerOk(sessions, ledger, nextId) && sid in sessions
    requires SessionOk(sessions[sid], nextId) && sessions[sid].current.Some?
    requires t.history == sessions[sid].history + [Visit(sessions[sid].current.value, outcome, sessions[sid].responseId)]
    requires t.spent == sessions[sid].spent + cost && t.responseId == None
    requires t.current.Some? ==> t.current.value.id == nextId
    ensures var s := sessions[sid];
            LedgerOk(sessions[sid := t],
                     Charge(ledger, sid, s.current.value.id, cost, outcome == Continue && s.responseId.None?), nextId + 1)
  {
    hide SessionOk, LedgerOk, ChargesOk, PredictionsOk;
    var s := sessions[sid];
    LedgerParts(sessions, ledger, nextId, sid);
    var stop, predicted := s.current.value.id, outcome == Continue && s.responseId.None?;
    var after := Charge(ledger, sid, stop, cost, predicted);
    var more := if predicted then multiset{(sid, stop)} else multiset{};
    CurrentIsNew(s, nextId);
    NothingAt(ledger, sessions, nextId, sid, nextId);
    ChargedOk(s, t, ledger.charges[sid], cost);
    AdvancedPredictions(sid, s, t, outcome, ledger.predictions, more, nextId);
    if predicted { UnpredictedStop(sid, s, ledger.predictions); }
    LedgerSaved(sessions, ledger, nextId, sid, t, after, nextId + 1, more);
  }

  lemma LedgerParts(sessions: map<nat, Session>, ledger: Ledger, nextId: nat, sid: nat)
    requires LedgerOk(sessions, ledger, nextId) && sid in sessions
    ensures ledger.charges.Keys == sessions.Keys
    ensures ChargesOk(sessions[sid], ledger.charges[sid]) && PredictionsOk(sid, sessions[sid], ledger.predictions)
  {
  }

  lemma CurrentIsNew(s: Session, nextId: nat)
    requires SessionOk(s, nextId) && s.current.Some?
    ensures s.current.value.id < nextId && forall i :: 0 <= i < |s.history| ==> s.history[i].step.id != s.current.value.id
  {
    assert CurrentOk(s, nextId);
    hide FindItem, Visits, Skipped, HistoryOk, ItemsOk;
  }

  lemma ChargedOk(s: Session, t: Session, charges: seq<real>, cost: real)
    requires ChargesOk(s, charges) && |t.history| == |s.history| + 1 && t.spent == s.spent + cost
    ensures ChargesOk(t, charges + [cost])
  {
    assert (charges + [cost])[..|charges|] == charges;
  }

  lemma UnpredictedStop(sid: nat, s: Session, predictions: multiset<(nat, nat)>)
    requires PredictionsOk(sid, s, predictions) && s.current.Some? && s.responseId.None?
    ensures predictions[(sid, s.current.value.id)] == 0
  {
  }

  lemma AdvancedPredictions(sid: nat, s: Session, t: Session, outcome: Outcome, predictions: multiset<(nat, nat)>,
                            more: multiset<(nat, nat)>, nextId: nat)
    requires PredictionsOk(sid, s, predictions) && s.current.Some? && s.current.value.id < nextId
    requires forall i :: 0 <= i < |s.history| ==> s.history[i].step.id != s.current.value.id
    requires t.history == s.history + [Visit(s.current.value, outcome, s.responseId)] && t.responseId == None
    requires t.current.Some? ==> t.current.value.id == nextId && predictions[(sid, nextId)] == 0
    requires more == if outcome == Continue && s.responseId.None? then multiset{(sid, s.current.value.id)} else multiset{}
    ensures PredictionsOk(sid, t, predictions + more)
  {
    forall i | 0 <= i < |t.history|
      ensures (predictions + more)[(sid, t.history[i].step.id)] == Due(t.history[i])
    {
      if i < |s.history| { assert t.history[i] == s.history[i]; }
    }
  }

  lemma NothingAt(ledger: Ledger, sessions: map<nat, Session>, nextId: nat, sid: nat, stop: nat)
    requires LedgerOk(sessions, ledger, nextId) && stop >= nextId
    ensures ledger.predictions[(sid, stop)] == 0
  {
    var p: (nat, nat) := (sid, stop);
    assert p !in ledger.predictions;
  }

  // ---- Other changes of a session --------------------------------------------------------

  /** A session is saved between stops, or at a fresh one: nothing was predicted or charged. */
  lemma SameLedger(sessions: map<nat, Session>, ledger: Ledger, nextId: nat, sid: nat, t: Session, newId: nat)
    requires LedgerOk(sessions, ledger, nextId) && sid in sessions && nextId <= newId
    requires t.history == sessions[sid].history && t.spent == sessions[sid].spent
    requires t.current.Some? ==> t.responseId == None && t.current.value.id >= nextId
    ensures LedgerOk(sessions[sid := t], ledger, newId)
  {
    var s := sessions[sid];
    assert ChargesOk(s, ledger.charges[sid]) && PredictionsOk(sid, s, ledger.predictions);
    if t.current.Some? { NothingAt(ledger, sessions, nextId, sid, t.current.value.id); }
    assert PredictionsOk(sid, t, ledger.predictions);
    LedgerSaved(sessions, ledger, nextId, sid, t, ledger, newId, multiset{});
  }

  function Ended(s: Session, knowledge: seq<Estimate>): Session {
    s.(status := Stopped, current := None, knowledge := knowledge, revision := s.revision + 1)
  }

  /** A session without a current stop changes its status. */
  function Waiting(s: Session, status: Status): Session {
    s.(status := status, revision := s.revision + 1)
  }

  lemma EndedOk(s: Session, knowledge: seq<Estimate>, nextId: nat)
    requires SessionOk(s, nextId)
    ensures SessionOk(Ended(s, knowledge), nextId) && SessionEvolves(s, Ended(s, knowledge))
  {
    hide FindItem, Visits, Skipped;
  }

  lemma WaitingOk(s: Session, status: Status, nextId: nat)
    requires SessionOk(s, nextId) && s.status in {Preparing, GenerationNeeded}
    requires status in {Preparing, GenerationNeeded}
    ensures SessionOk(Waiting(s, status), nextId) && SessionEvolves(s, Waiting(s, status))
  {
    hide FindItem, Visits, Skipped;
  }

  function WithCurriculum(s: Session, c: Curriculum, knowledge: seq<Estimate>): Session {
    s.(version := c.version, concepts := c.concepts, relations := c.relations, items := c.items, knowledge := knowledge,
       revision := s.revision + 1)
  }

  lemma InstalledOk(s: Session, c: Curriculum, knowledge: seq<Estimate>, exposed: set<string>, wish: nat, nextId: nat)
    requires SessionOk(s, nextId) && s.status in {Preparing, GenerationNeeded}
    requires c.version == s.version + 1 && ItemsOk(c.items)
    requires MaterialOk(s.goal.targets, c.version, c.concepts, c.relations, c.items)
    ensures var t := Moved(WithCurriculum(s, c, knowledge), exposed, wish, nextId);
            SessionOk(t, nextId + 1) && SessionEvolves(s, t) && t.version == s.version + 1 && t.status != Stopped &&
            t.history == s.history && t.spent == s.spent && t.responseId == None && t.revision == s.revision + 1 &&
            (t.current.Some? ==> t.current.value.id == nextId)
  {
    var m := WithCurriculum(s, c, knowledge);
    assert BetweenStops(m, nextId) by { hide ItemsOk, HistoryOk, CurrentOk; }
    MovedOk(m, exposed, wish, nextId);
    MovedKeeps(m, exposed, wish, nextId);
  }
}
