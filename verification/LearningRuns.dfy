/** What the invariants mean for a learner and a session, over whole runs of any interleaved calls. */
module LearningRuns {
  import opened Sums
  import opened Counting
  import opened LearningModel
  import opened LearningInvariants
  import opened LearningJobs
  import opened LearningSteps
  import opened LearningCommits
  import opened LearningStores

  // ---- One state -------------------------------------------------------------------------

  lemma JobFacts(d: Database, ledger: Ledger, nextId: nat, i: nat)
    requires Inv(d, ledger, nextId) && i < |d.jobs|
    ensures PairsOk(d.jobs) && JobOk(d.jobs[i], d.sessions, nextId) && |JobsOf(d.jobs, d.jobs[i].session)| <= 3
  {
  }

  lemma DistinctRevisions(jobs: seq<Job>)
    requires PairsOk(jobs)
    ensures forall i, j :: 0 <= i < j < |jobs| && jobs[i].session == jobs[j].session ==> jobs[i].revision != jobs[j].revision
  {
    forall i, j | 0 <= i < j < |jobs| && jobs[i].session == jobs[j].session
      ensures jobs[i].revision != jobs[j].revision
    {
      assert PairOk(jobs[i], jobs[j]);
    }
  }

  /** At most one running job is for the session's present revision. */
  lemma OneMatchingJob(d: Database, ledger: Ledger, nextId: nat, i: nat, j: nat)
    requires Inv(d, ledger, nextId) && i < |d.jobs| && j < |d.jobs| && d.jobs[i].session == d.jobs[j].session
    requires Matching(d.jobs[i], d.sessions) && Matching(d.jobs[j], d.sessions)
    ensures i == j
    ensures d.sessions[d.jobs[i].session].status == Preparing
    ensures d.jobs[i].baseVersion == d.sessions[d.jobs[i].session].version
  {
    hide Inv, PairsOk;
    JobFacts(d, ledger, nextId, i);
    DistinctRevisions(d.jobs);
  }

  ghost predicate Ordered(jobs: seq<Job>) {
    forall i, j :: 0 <= i < j < |jobs| && Rivals(jobs[i], jobs[j]) ==>
      jobs[i].attempt < jobs[j].attempt && jobs[i].status != Running
  }

  lemma AttemptsOrdered(jobs: seq<Job>)
    requires PairsOk(jobs)
    ensures Ordered(jobs)
  {
    forall i, j | 0 <= i < j < |jobs| && Rivals(jobs[i], jobs[j])
      ensures jobs[i].attempt < jobs[j].attempt && jobs[i].status != Running
    {
      assert PairOk(jobs[i], jobs[j]);
    }
  }

  /** A session has at most three jobs, and at most two for one version of its curriculum, the first of them attempt 1
      and the second attempt 2; the first is over. */
  lemma JobLimits(d: Database, ledger: Ledger, nextId: nat, i: nat, j: nat, k: nat)
    requires Inv(d, ledger, nextId) && i < j < |d.jobs| && k < |d.jobs|
    ensures |JobsOf(d.jobs, d.jobs[k].session)| <= 3 && 1 <= d.jobs[k].attempt <= 2
    ensures Rivals(d.jobs[i], d.jobs[j]) ==> d.jobs[i].attempt == 1 && d.jobs[j].attempt == 2 && d.jobs[i].status != Running
    ensures Rivals(d.jobs[i], d.jobs[j]) && Rivals(d.jobs[j], d.jobs[k]) ==> k == i || k == j
  {
    hide Inv, PairsOk, JobsOf;
    JobFacts(d, ledger, nextId, i);
    JobFacts(d, ledger, nextId, j);
    JobFacts(d, ledger, nextId, k);
    AttemptsOrdered(d.jobs);
  }

  lemma NoneRunning(d: Database, ledger: Ledger, nextId: nat, id: nat)
    requires Inv(d, ledger, nextId) && id in d.sessions && d.sessions[id].status == Stopped
    ensures Quiet(d.jobs, id)
  {
    hide Inv, JobOk;
    forall k: nat | k < |d.jobs| && d.jobs[k].session == id
      ensures d.jobs[k].status != Running
    {
      JobFacts(d, ledger, nextId, k);
      StoppedJob(d.jobs[k], d.sessions, nextId);
    }
  }

  lemma StoppedJob(job: Job, sessions: map<nat, Session>, nextId: nat)
    requires JobOk(job, sessions, nextId)
    ensures sessions[job.session].status == Stopped ==> job.status != Running
  {
  }

  /** A stopped session has no running job, and none can be started. */
  lemma StoppedIsOver(d: Database, ledger: Ledger, nextId: nat, id: nat, revision: nat)
    requires Inv(d, ledger, nextId) && id in d.sessions && d.sessions[id].status == Stopped
    ensures Quiet(d.jobs, id) && !CanRun(d, id, revision)
  {
    NoneRunning(d, ledger, nextId, id);
    hide Inv, Quiet, LastJob, JobsOf, Spent;
  }

  lemma FoundJob(jobs: seq<Job>, i: nat)
    requires PairsOk(jobs) && i < |jobs|
    ensures FindJob(jobs, jobs[i].id) == Some(jobs[i])
  {
    DistinctJobs(jobs);
    hide FindJob;
    assert FindJob(jobs, jobs[i].id).Some?;
  }

  /** A job whose session moved on is of no use any more: neither its curriculum nor its failure reaches the session. */
  lemma LateJobIsHarmless(d: Database, ledger: Ledger, nextId: nat, i: nat, c: Curriculum, revision: nat, sources: nat)
    requires Inv(d, ledger, nextId) && i < |d.jobs| && d.jobs[i].session in d.sessions
    requires d.sessions[d.jobs[i].session].revision != d.jobs[i].revision
    ensures WithFailure(d, d.jobs[i]).sessions == d.sessions && WithFailure(d, d.jobs[i]).events == d.events
    ensures !CanPrepare(d, d.jobs[i].session, revision, c, Some(d.jobs[i].id), sources)
  {
    hide Inv, PairsOk, JobOk, FindJob, SaveJob, ConceptsOk, ItemsAccepted, RelationsAccepted;
    JobFacts(d, ledger, nextId, i);
    FoundJob(d.jobs, i);
  }

  /** What a session has spent is what its visits cost at the time, and never more than its budget. No action was
      visited more than twice, no concept after it was skipped, and the present stop keeps to all of that. */
  lemma BudgetKept(d: Database, ledger: Ledger, nextId: nat, id: nat, i: nat, j: nat, action: string)
    requires Inv(d, ledger, nextId) && id in d.sessions
    ensures id in ledger.charges && |ledger.charges[id]| == |d.sessions[id].history|
    ensures d.sessions[id].spent == Total(ledger.charges[id]) <= d.sessions[id].goal.budget
    ensures Visits(d.sessions[id].history, action) <= 2
    ensures i < j < |d.sessions[id].history| && d.sessions[id].history[i].outcome == Skip ==>
      d.sessions[id].history[j].step.conceptId != d.sessions[id].history[i].step.conceptId
    ensures d.sessions[id].current.Some? && i < |d.sessions[id].history| && d.sessions[id].history[i].outcome == Skip ==>
      d.sessions[id].current.value.conceptId != d.sessions[id].history[i].step.conceptId
    ensures d.sessions[id].current.Some? && d.sessions[id].current.value.actionId == action ==>
      Visits(d.sessions[id].history, action) + 1 <= 2
  {
    var s := d.sessions[id];
    assert SessionOk(s, nextId) && ChargesOk(s, ledger.charges[id]) && HistoryOk(s.history, nextId) && CurrentOk(s, nextId);
  }

  /** At every stop of every session the transition model was applied at most once, and exactly once if the visit was
      continued. */
  lemma PredictedOnce(d: Database, ledger: Ledger, nextId: nat, id: nat, stop: nat, i: nat)
    requires Inv(d, ledger, nextId) && id in d.sessions
    ensures ledger.predictions[(id, stop)] <= 1
    ensures i < |d.sessions[id].history| && d.sessions[id].history[i].outcome == Continue ==>
      ledger.predictions[(id, d.sessions[id].history[i].step.id)] == 1
    ensures i < |d.sessions[id].history| && d.sessions[id].history[i].outcome == Skip ==>
      (ledger.predictions[(id, d.sessions[id].history[i].step.id)] == 1 <==> d.sessions[id].history[i].responseId.Some?)
  {
    var p: (nat, nat) := (id, stop);
    assert p in ledger.predictions ==> ledger.predictions[p] <= 1;
    assert PredictionsOk(id, d.sessions[id], ledger.predictions);
    if i < |d.sessions[id].history| {
      assert ledger.predictions[(id, d.sessions[id].history[i].step.id)] == Due(d.sessions[id].history[i]);
    }
  }

  /** Whoever joins a job joins the one that matches the session, so the curriculum it brings can be installed. */
  lemma JoinedJobMatches(d: Database, ledger: Ledger, nextId: nat, id: nat, revision: nat, now: int, ownerAlive: bool)
    requires Inv(d, ledger, nextId) && id in d.sessions && Joinable(d, id, revision, now, ownerAlive)
    ensures Matching(Previous(d, id).value, d.sessions) && Previous(d, id).value.session == id
    ensures Previous(d, id).value in d.jobs && d.sessions[id].status == Preparing
  {
    var at := LastJobAt(d.jobs, id, Some(d.sessions[id].version));
    JobFacts(d, ledger, nextId, at);
  }

  /** A question is counted once for a learner and a repository, every submission id stands for one counted answer, and
      the revision of a session is the number of its events. */
  lemma CountedOnce(d: Database, ledger: Ledger, nextId: nat, i: nat, j: nat, id: nat)
    requires Inv(d, ledger, nextId) && i < j < |d.events| && id in d.sessions
    requires d.events[i].what.AnsweredEvent? && d.events[j].what.AnsweredEvent?
    ensures var x, y := d.events[i].what.exposure, d.events[j].what.exposure;
            x.learner == y.learner && x.repository == y.repository ==> x.fingerprint != y.fingerprint
    ensures |d.submissions| == |d.exposures| == Count(d.events, IsAnswer())
    ensures d.sessions[id].revision == Count(d.events, InSession(id))
  {
    assert AnswersOk(d.events, d.exposures, d.submissions);
  }

  // ---- Runs ------------------------------------------------------------------------------

  /** The store between two calls: its tables and, beside them, what the tables do not record. */
  datatype State = State(db: Database, ledger: Ledger, nextId: nat)

  ghost predicate Consistent(s: State) {
    Inv(s.db, s.ledger, s.nextId)
  }

  /** Predictions are only added, and what a visit was charged stays as it is. */
  ghost predicate LedgerGrows(l: Ledger, m: Ledger) {
    && l.predictions <= m.predictions
    && forall sid :: sid in l.charges ==> sid in m.charges && l.charges[sid] <= m.charges[sid]
  }

  function RevisionOf(d: Database, sid: nat): nat {
    if sid in d.sessions then d.sessions[sid].revision else 0
  }

  /** One session is saved, with its next revision (1 for a new one) and one event; no other changes. */
  ghost predicate Moves(d: Database, e: Database, sid: nat) {
    && e.sessions.Keys == d.sessions.Keys + {sid}
    && (forall t :: t in d.sessions && t != sid ==> e.sessions[t] == d.sessions[t])
    && RevisionOf(e, sid) == RevisionOf(d, sid) + 1
    && |e.events| == |d.events| + 1 && e.events[|d.events|].session == sid
  }

  /** A call saves at most one session, once. */
  ghost predicate AtMostOneMoves(d: Database, e: Database) {
    (e.sessions == d.sessions && e.events == d.events) || exists sid :: Moves(d, e, sid)
  }

  /** What one call does, whichever it is. */
  ghost predicate Steps(a: State, b: State) {
    Evolves(a.db, b.db) && LedgerGrows(a.ledger, b.ledger) && AtMostOneMoves(a.db, b.db)
  }

  /** The states of a run, one after each call. */
  ghost predicate Run(trace: seq<State>) {
    && (forall i :: 0 <= i < |trace| ==> Consistent(trace[i]))
    && (forall i, j :: 0 <= i < j < |trace| && j == i + 1 ==> Steps(trace[i], trace[j]))
  }

  lemma StepAt(trace: seq<State>, i: nat)
    requires Run(trace) && i + 1 < |trace|
    ensures Consistent(trace[i]) && Consistent(trace[i + 1]) && Steps(trace[i], trace[i + 1])
  {
  }

  lemma ConsistentAt(trace: seq<State>, i: nat)
    requires Run(trace) && i < |trace|
    ensures Consistent(trace[i])
  {
  }

  lemma LedgerGrowsTrans(l: Ledger, m: Ledger, n: Ledger)
    requires LedgerGrows(l, m) && LedgerGrows(m, n)
    ensures LedgerGrows(l, n)
  {
  }

  lemma {:induction false} RunEvolves(trace: seq<State>, i: nat, j: nat)
    requires Run(trace) && i <= j < |trace|
    ensures Evolves(trace[i].db, trace[j].db) && LedgerGrows(trace[i].ledger, trace[j].ledger)
    decreases j - i
  {
    hide Evolves, Consistent, Run;
    if i == j {
      EvolvesRefl(trace[i].db);
    } else {
      var k: nat := j - 1;
      RunEvolves(trace, i, k);
      StepAt(trace, k);
      EvolvesTrans(trace[i].db, trace[k].db, trace[j].db);
      LedgerGrowsTrans(trace[i].ledger, trace[k].ledger, trace[j].ledger);
    }
  }

  /** Later in a run: a stopped session is still stopped and has no running job; revisions, spending and history have
      only grown; a counted answer is stored as it was; a concept definition is what it was; a job that was over has not
      changed. */
  lemma RunIsSafe(trace: seq<State>, i: nat, j: nat)
    requires Run(trace) && i <= j < |trace|
    ensures Evolves(trace[i].db, trace[j].db)
    ensures forall id :: id in trace[i].db.sessions && trace[i].db.sessions[id].status == Stopped ==> EndedFor(trace[j].db, id)
    ensures forall job :: job in trace[i].db.jobs && job.status != Running ==> job in trace[j].db.jobs
  {
    RunEvolves(trace, i, j);
    var d, e := trace[i].db, trace[j].db;
    forall job | job in d.jobs && job.status != Running
      ensures job in e.jobs
    {
      var k :| 0 <= k < |d.jobs| && d.jobs[k] == job;
      assert JobSurvives(d.jobs[k], e.jobs);
    }
    ConsistentAt(trace, j);
    hide Inv;
    forall id | id in d.sessions && d.sessions[id].status == Stopped
      ensures EndedFor(e, id)
    {
      assert SessionEvolves(d.sessions[id], e.sessions[id]);
      NoneRunning(e, trace[j].ledger, trace[j].nextId, id);
    }
  }

  /** The session is stopped and has no running job. */
  ghost predicate EndedFor(d: Database, id: nat) {
    id in d.sessions && d.sessions[id].status == Stopped && Quiet(d.jobs, id)
  }

  ghost predicate Quiet(jobs: seq<Job>, id: nat) {
    forall k :: 0 <= k < |jobs| && jobs[k].session == id ==> jobs[k].status != Running
  }

  /** Between two points of a run the revision of a session grows by the number of events it got in between. */
  lemma RevisionsCountEvents(trace: seq<State>, i: nat, j: nat, id: nat)
    requires Run(trace) && i <= j < |trace|
    ensures |trace[i].db.events| <= |trace[j].db.events|
    ensures RevisionOf(trace[j].db, id) == RevisionOf(trace[i].db, id) + Count(trace[j].db.events[|trace[i].db.events|..], InSession(id))
  {
    hide Inv, Run, Evolves, RevisionOf;
    var d, e := trace[i].db, trace[j].db;
    RunEvolves(trace, i, j);
    EventsGrow(d, e);
    ConsistentAt(trace, i);
    ConsistentAt(trace, j);
    RevisionIsCount(d, trace[i].ledger, trace[i].nextId, id);
    RevisionIsCount(e, trace[j].ledger, trace[j].nextId, id);
    assert e.events == d.events + e.events[|d.events|..];
    CountConcat(d.events, e.events[|d.events|..], InSession(id));
  }

  lemma EventsGrow(d: Database, e: Database)
    requires Evolves(d, e)
    ensures d.events <= e.events
  {
  }

  lemma RevisionIsCount(d: Database, ledger: Ledger, nextId: nat, id: nat)
    requires Inv(d, ledger, nextId)
    ensures RevisionOf(d, id) == Count(d.events, InSession(id))
  {
    assert EventsOk(d.events, d.sessions);
    if id !in d.sessions { NoEvents(d.events, id, d.sessions); }
  }

  /** No call saves a session twice: there are never more new events than calls. */
  lemma {:induction false} EventsBelowCalls(trace: seq<State>, i: nat, j: nat)
    requires Run(trace) && i <= j < |trace|
    ensures |trace[i].db.events| <= |trace[j].db.events| <= |trace[i].db.events| + j - i
    decreases j - i
  {
    hide Consistent, Run, Evolves;
    if i < j {
      var k: nat := j - 1;
      EventsBelowCalls(trace, i, k);
      StepAt(trace, k);
    }
  }

  /** The k-th call of the run applies the transition model at a stop. */
  ghost predicate Applies(trace: seq<State>, k: nat, p: (nat, nat)) {
    k + 1 < |trace| && trace[k].ledger.predictions[p] < trace[k + 1].ledger.predictions[p]
  }

  lemma PredictionsBetween(trace: seq<State>, i: nat, j: nat, p: (nat, nat))
    requires Run(trace) && i <= j < |trace|
    ensures trace[i].ledger.predictions[p] <= trace[j].ledger.predictions[p] <= 1
  {
    hide Evolves;
    RunEvolves(trace, i, j);
    ConsistentAt(trace, j);
    assert p in trace[j].ledger.predictions ==> trace[j].ledger.predictions[p] <= 1;
  }

  /** Main result on predictions: of all calls in a run at most one applies the model at a given stop, and none does
      once it has been applied. */
  lemma AppliedAtMostOnce(trace: seq<State>, i: nat, j: nat, p: (nat, nat))
    requires Run(trace) && Applies(trace, i, p) && Applies(trace, j, p)
    ensures i == j && trace[0].ledger.predictions[p] == 0
  {
    hide Run;
    PredictionsBetween(trace, 0, i, p);
    PredictionsBetween(trace, i + 1, i + 1, p);
    PredictionsBetween(trace, j + 1, j + 1, p);
    if i < j { PredictionsBetween(trace, i + 1, j, p); }
    if j < i { PredictionsBetween(trace, j + 1, i, p); }
  }

  lemma {:induction false} SomeCallApplies(trace: seq<State>, i: nat, j: nat, p: (nat, nat)) returns (k: nat)
    requires Run(trace) && i <= j < |trace|
    requires trace[i].ledger.predictions[p] < trace[j].ledger.predictions[p]
    ensures i <= k < j && Applies(trace, k, p)
    decreases j - i
  {
    hide Run;
    var m: nat := j - 1;
    if Applies(trace, m, p) {
      k := m;
    } else {
      k := SomeCallApplies(trace, i, m, p);
    }
  }

  /** A stop that was continued in the course of a run had the model applied by exactly one of its calls. */
  lemma ContinuedAppliedOnce(trace: seq<State>, id: nat, v: nat) returns (k: nat)
    requires Run(trace) && trace != [] && id in trace[|trace| - 1].db.sessions
    requires v < |trace[|trace| - 1].db.sessions[id].history|
    requires trace[|trace| - 1].db.sessions[id].history[v].outcome == Continue
    requires trace[0].ledger.predictions[(id, trace[|trace| - 1].db.sessions[id].history[v].step.id)] == 0
    ensures var p := (id, trace[|trace| - 1].db.sessions[id].history[v].step.id);
            Applies(trace, k, p) && forall other: nat :: Applies(trace, other, p) ==> other == k
  {
    hide Run, Applies, Inv;
    var n: nat := |trace| - 1;
    ConsistentAt(trace, n);
    var stop := trace[n].db.sessions[id].history[v].step.id;
    PredictedOnce(trace[n].db, trace[n].ledger, trace[n].nextId, id, stop, v);
    k := SomeCallApplies(trace, 0, n, (id, stop));
    forall other: nat | Applies(trace, other, (id, stop))
      ensures other == k
    {
      AppliedAtMostOnce(trace, k, other, (id, stop));
    }
  }

  // ---- Every sequence of calls is a run --------------------------------------------------

  datatype Call =
    | CallStart(goal: Goal, learner: string, snapshot: string)
    | CallRespond(input: Answer, legacy: set<string>, evidenceOk: bool, refreshed: seq<Estimate>)
    | CallAdvance(id: nat, revision: nat, stop: nat, outcome: Outcome, legacy: set<string>, evidenceOk: bool,
                  refreshed: seq<Estimate>, wish: nat)
    | CallStop(id: nat, revision: nat, at: Option<nat>, refreshed: seq<Estimate>)
    | CallPrepare(id: nat, revision: nat, c: Curriculum, jobId: Option<nat>, sources: nat, evidenceOk: bool,
                  materialOk: bool, knowledge: seq<Estimate>, legacy: set<string>, wish: nat)
    | CallSaveJob(job: nat, c: Curriculum, sources: nat, evidenceOk: bool, materialOk: bool, knowledge: seq<Estimate>,
                  legacy: set<string>, wish: nat)
    | CallRequest(id: nat, revision: nat, provider: Provider, owner: int, now: int, ownerAlive: bool, sources: nat)
    | CallFinish(job: nat)

  lemma DisciplineMoves(d: Database, e: Database, sid: nat, revision: nat)
    requires Disciplined(d, e, sid, revision)
    ensures AtMostOneMoves(d, e)
  {
    if e.sessions != d.sessions {
      assert Moves(d, e, sid);
    }
  }

  lemma DisciplineSteps(a: State, b: State, sid: nat, revision: nat)
    requires Evolves(a.db, b.db) && b.ledger == a.ledger && Disciplined(a.db, b.db, sid, revision)
    ensures Steps(a, b)
  {
    hide Evolves, Disciplined;
    LedgerSame(a.ledger);
    DisciplineMoves(a.db, b.db, sid, revision);
  }

  lemma StartMoves(d: Database, sid: nat, t: Session)
    requires sid !in d.sessions && t.revision == 1
    ensures AtMostOneMoves(d, Save(d, sid, t, StartedEvent))
  {
    assert Moves(d, Save(d, sid, t, StartedEvent), sid);
  }

  lemma NothingMoves(d: Database)
    ensures AtMostOneMoves(d, d)
  {
  }

  lemma LedgerSame(l: Ledger)
    ensures LedgerGrows(l, l)
  {
  }

  lemma ChargesKnown(d: Database, ledger: Ledger, nextId: nat)
    requires Inv(d, ledger, nextId)
    ensures ledger.charges.Keys == d.sessions.Keys
  {
  }

  lemma NewChargeGrows(l: Ledger, sid: nat)
    requires sid !in l.charges
    ensures LedgerGrows(l, l.(charges := l.charges[sid := []]))
  {
  }

  lemma PredictGrows(l: Ledger, sid: nat, stop: nat)
    ensures LedgerGrows(l, Predict(l, sid, stop))
  {
  }

  lemma ChargeGrows(l: Ledger, sid: nat, stop: nat, cost: real, predicted: bool)
    requires sid in l.charges
    ensures LedgerGrows(l, Charge(l, sid, stop, cost, predicted))
  {
  }

  method PerformStart(store: LearningStore, goal: Goal, learner: string, snapshot: string)
    requires store.Valid()
    modifies store
    ensures store.Valid()
    ensures Steps(State(old(store.db), old(store.ledger), old(store.nextId)), State(store.db, store.ledger, store.nextId))
  {
    hide Inv, Evolves, AtMostOneMoves, LedgerGrows, AcceptableGoal, Save;
    ghost var d, l := store.db, store.ledger;
    NothingMoves(d);
    LedgerSame(l);
    ChargesKnown(d, l, store.nextId);
    var r := store.Start(goal, learner, snapshot);
    if r.Done? {
      assert r.value !in l.charges.Keys;
      NewChargeGrows(l, r.value);
      StartMoves(d, r.value, NewSession(goal, learner));
    }
  }

  method PerformRespond(store: LearningStore, input: Answer, legacy: set<string>, evidenceOk: bool, refreshed: seq<Estimate>)
    requires store.Valid()
    modifies store
    ensures store.Valid()
    ensures Steps(State(old(store.db), old(store.ledger), old(store.nextId)), State(store.db, store.ledger, store.nextId))
  {
    hide Inv, Evolves, AtMostOneMoves, LedgerGrows, Disciplined, CanAnswer, Counted, Predict;
    ghost var d, l := store.db, store.ledger;
    LedgerSame(l);
    PredictGrows(l, input.session, input.stop);
    var _ := store.Respond(input, legacy, evidenceOk, refreshed);
    DisciplineMoves(d, store.db, input.session, input.revision);
  }

  method PerformAdvance(store: LearningStore, id: nat, revision: nat, stop: nat, outcome: Outcome, legacy: set<string>,
                        evidenceOk: bool, refreshed: seq<Estimate>, wish: nat)
    requires store.Valid()
    modifies store
    ensures store.Valid()
    ensures Steps(State(old(store.db), old(store.ledger), old(store.nextId)), State(store.db, store.ledger, store.nextId))
  {
    hide Inv, Evolves, AtMostOneMoves, LedgerGrows, Disciplined, Save, Charge, FindItem, Advanced, ExposedTo;
    ghost var d, l := store.db, store.ledger;
    LedgerSame(l);
    ChargesKnown(d, l, store.nextId);
    var r := store.Advance(id, revision, stop, outcome, legacy, evidenceOk, refreshed, wish);
    DisciplineMoves(d, store.db, id, revision);
    if r.Done? {
      ghost var s := d.sessions[id];
      assert id in l.charges.Keys;
      ChargeGrows(l, id, stop, FindItem(s.items, s.current.value.actionId).value.cost, outcome == Continue && s.responseId.None?);
    }
  }

  /** One call. */
  method Perform(store: LearningStore, call: Call)
    requires store.Valid()
    modifies store
    ensures store.Valid()
    ensures Steps(State(old(store.db), old(store.ledger), old(store.nextId)), State(store.db, store.ledger, store.nextId))
  {
    hide Inv, Evolves, AtMostOneMoves, LedgerGrows, Disciplined, CanStop, CanPrepare, MayAsk, Joinable, Shareable, CanRun, Save,
      FindJob, Settled, GivenUp, PreviousOrBlank, NewJob, WithFailure, Steps, Ended, Matching;
    ghost var a := State(store.db, store.ledger, store.nextId);
    match call {
      case CallStart(goal, learner, snapshot) =>
        PerformStart(store, goal, learner, snapshot);
      case CallRespond(input, legacy, evidenceOk, refreshed) =>
        PerformRespond(store, input, legacy, evidenceOk, refreshed);
      case CallAdvance(id, revision, stop, outcome, legacy, evidenceOk, refreshed, wish) =>
        PerformAdvance(store, id, revision, stop, outcome, legacy, evidenceOk, refreshed, wish);
      case CallStop(id, revision, at, refreshed) =>
        var _ := store.Stop(id, revision, at, refreshed);
        DisciplineSteps(a, State(store.db, store.ledger, store.nextId), id, revision);
      case CallPrepare(id, revision, c, jobId, sources, evidenceOk, materialOk, knowledge, legacy, wish) =>
        var _ := store.Prepare(id, revision, c, jobId, sources, evidenceOk, materialOk, knowledge, legacy, wish);
        DisciplineSteps(a, State(store.db, store.ledger, store.nextId), id, revision);
      case CallSaveJob(job, c, sources, evidenceOk, materialOk, knowledge, legacy, wish) =>
        PerformSaveJob(store, job, c, sources, evidenceOk, materialOk, knowledge, legacy, wish);
      case CallRequest(id, revision, provider, owner, now, ownerAlive, sources) =>
        var _ := store.RequestPreparation(id, revision, provider, owner, now, ownerAlive, sources);
        DisciplineSteps(a, State(store.db, store.ledger, store.nextId), id, revision);
      case CallFinish(job) =>
        PerformFinish(store, job);
    }
  }

  method PerformSaveJob(store: LearningStore, job: nat, c: Curriculum, sources: nat, evidenceOk: bool, materialOk: bool,
                        knowledge: seq<Estimate>, legacy: set<string>, wish: nat)
    requires store.Valid()
    modifies store
    ensures store.Valid()
    ensures Steps(State(old(store.db), old(store.ledger), old(store.nextId)), State(store.db, store.ledger, store.nextId))
  {
    hide Inv, Evolves, AtMostOneMoves, LedgerGrows, Disciplined, CanPrepare, FindJob, Settled, Steps, Matching;
    ghost var a := State(store.db, store.ledger, store.nextId);
    Unchanged(a.db, 0, 0);
    var _ := store.SaveJobCurriculum(job, c, sources, evidenceOk, materialOk, knowledge, legacy, wish);
    ghost var b := State(store.db, store.ledger, store.nextId);
    ghost var found := FindJob(a.db.jobs, job);
    if found.Some? {
      DisciplineSteps(a, b, found.value.session, found.value.revision);
    } else {
      DisciplineSteps(a, b, 0, 0);
    }
  }

  method PerformFinish(store: LearningStore, job: nat)
    requires store.Valid()
    modifies store
    ensures store.Valid()
    ensures Steps(State(old(store.db), old(store.ledger), old(store.nextId)), State(store.db, store.ledger, store.nextId))
  {
    hide Inv, Evolves, AtMostOneMoves, LedgerGrows, Disciplined, FindJob, WithFailure, Steps;
    ghost var a := State(store.db, store.ledger, store.nextId);
    Unchanged(a.db, 0, 0);
    var _ := store.FinishPreparation(job);
    ghost var b := State(store.db, store.ledger, store.nextId);
    ghost var found := FindJob(a.db.jobs, job);
    if found.Some? && found.value.status == Running {
      DisciplineSteps(a, b, found.value.session, found.value.revision);
    } else {
      DisciplineSteps(a, b, 0, 0);
    }
  }

  /** Any calls, in any order and with any arguments: the states are a run. */
  method Execute(store: LearningStore, calls: seq<Call>) returns (ghost trace: seq<State>)
    requires store.Valid()
    modifies store
    ensures store.Valid() && Run(trace) && |trace| == |calls| + 1
    ensures trace[0] == State(old(store.db), old(store.ledger), old(store.nextId))
    ensures trace[|calls|] == State(store.db, store.ledger, store.nextId)
  {
    hide Inv, Steps;
    trace := [State(store.db, store.ledger, store.nextId)];
    for i := 0 to |calls|
      invariant store.Valid() && Run(trace) && |trace| == i + 1
      invariant trace[0] == State(old(store.db), old(store.ledger), old(store.nextId))
      invariant trace[i] == State(store.db, store.ledger, store.nextId)
    {
      Perform(store, calls[i]);
      trace := trace + [State(store.db, store.ledger, store.nextId)];
    }
  }
}
