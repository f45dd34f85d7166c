/** The database of the learning store, and what every transaction keeps. */
module LearningInvariants {
  import opened Sums
  import opened Counting
  import opened LearningModel

  // ---- Tables ----------------------------------------------------------------------------

  datatype Answer = Answer(session: nat, revision: nat, stop: nat, submission: string, question: nat, selected: int)

  /** What a learner is told: the session at that moment, and whether the answer was right. */
  datatype LearningResult = LearningResult(session: Session, responseId: nat, correct: bool)

  datatype Submission = Submission(request: Answer, result: LearningResult)

  /** A row of learning_exposures: the learner has answered this question of this repository. */
  datatype Exposure = Exposure(learner: string, repository: string, fingerprint: string)

  datatype ConceptKey = ConceptKey(repository: string, id: string, version: nat)

  datatype JobStatus = Running | Ready | Failed

  datatype Provider = Codex | Claude | OtherProvider

  /** A preparation job. `sources` stands for the hashes of all source files when it was requested. */
  datatype Job = Job(id: nat, session: nat, revision: nat, status: JobStatus, attempt: nat, provider: Provider,
                     created: int, owner: int, baseVersion: nat, sources: nat)

  datatype What =
    | StartedEvent
    | PreparedEvent(version: nat, job: Option<nat>)
    | AnsweredEvent(stop: nat, responseId: nat, exposure: Exposure, correct: bool)
    | AdvancedEvent(stop: nat, outcome: Outcome)
    | StoppedEvent(at: Option<nat>)
    | RequestedEvent(requested: nat)
    | ExhaustedEvent
    | FailedEvent(failed: nat)

  datatype Event = Event(session: nat, revision: nat, what: What)

  /** The tables; jobs are in rowid order. */
  datatype Database = Database(sessions: map<nat, Session>, submissions: map<string, Submission>,
                               exposures: set<Exposure>, concepts: map<ConceptKey, string>, jobs: seq<Job>,
                               events: seq<Event>)

  /** What the tables do not record: how often the transition model was applied at a stop of a session, and what
      each visit of a session cost at the time. */
  datatype Ledger = Ledger(predictions: multiset<(nat, nat)>, charges: map<nat, seq<real>>)

  // ---- One session -----------------------------------------------------------------------

  ghost predicate ItemsOk(items: seq<Item>) {
    && (forall i, j :: 0 <= i < j < |items| ==> items[i].id != items[j].id)
    && (forall i :: 0 <= i < |items| ==> items[i].cost > 0.0)
  }

  /** The current stop names an action of the session that can still be paid, visited and is not skipped. */
  ghost predicate CurrentOk(s: Session, nextId: nat) {
    s.current.Some? ==>
      var stop := s.current.value;
      && stop.id < nextId
      && FindItem(s.items, stop.actionId).Some?
      && FindItem(s.items, stop.actionId).value.conceptId == stop.conceptId
      && s.spent + FindItem(s.items, stop.actionId).value.cost <= s.goal.budget
      && Visits(s.history, stop.actionId) < 2
      && !Skipped(s.history, stop.conceptId)
      && (forall i :: 0 <= i < |s.history| ==> s.history[i].step.id != stop.id)
  }

  /** No action is visited more than twice, and a skipped concept is never visited again. */
  ghost predicate HistoryOk(history: seq<Visit>, nextId: nat) {
    && (forall a :: Visits(history, a) <= 2)
    && (forall i, j :: 0 <= i < j < |history| && history[i].outcome == Skip ==>
          history[j].step.conceptId != history[i].step.conceptId)
    && (forall i, j :: 0 <= i < j < |history| ==> history[i].step.id != history[j].step.id)
    && (forall i :: 0 <= i < |history| ==> history[i].step.id < nextId)
  }

  /** At most eight concepts, and all that the actions and relations speak of is among them; with a curriculum, the
      goal's concepts are too. */
  ghost predicate MaterialOk(targets: seq<Target>, version: nat, concepts: seq<Concept>, relations: seq<Relation>,
                             items: seq<Item>) {
    && |concepts| <= 8
    && (forall r :: r in relations ==> Known(concepts, r.from))
    && (forall a, e, p :: a in items && e in a.effects && p in e.prerequisites ==> Known(concepts, p))
    && (version > 0 ==> forall t :: t in targets ==> Known(concepts, t.conceptId))
  }

  ghost predicate Known(concepts: seq<Concept>, id: string) {
    exists c :: c in concepts && c.id == id
  }

  ghost predicate SessionOk(s: Session, nextId: nat) {
    && s.revision >= 1
    && 0.0 <= s.spent <= s.goal.budget
    && (s.status == Active <==> s.current.Some?)
    && (s.responseId.Some? ==> s.status == Active || s.status == Stopped)
    && (s.version == 0 ==> s.items == [])
    && ItemsOk(s.items)
    && MaterialOk(s.goal.targets, s.version, s.concepts, s.relations, s.items)
    && CurrentOk(s, nextId)
    && HistoryOk(s.history, nextId)
  }

  ghost predicate SessionsOk(sessions: map<nat, Session>, nextId: nat) {
    forall sid :: sid in sessions ==> sid < nextId && SessionOk(sessions[sid], nextId)
  }

  // ---- The ledger ------------------------------------------------------------------------

  /** How often the model must have been applied at a visit that is over: once if it was continued, and at a
      skipped one once if it had been answered. */
  function Due(v: Visit): nat {
    if v.outcome == Continue || v.responseId.Some? then 1 else 0
  }

  ghost predicate ChargesOk(s: Session, charges: seq<real>) {
    |charges| == |s.history| && s.spent == Total(charges)
  }

  ghost predicate PredictionsOk(sid: nat, s: Session, predictions: multiset<(nat, nat)>) {
    && (forall i :: 0 <= i < |s.history| ==> predictions[(sid, s.history[i].step.id)] == Due(s.history[i]))
    && (s.current.Some? ==> predictions[(sid, s.current.value.id)] == if s.responseId.Some? then 1 else 0)
  }

  ghost predicate LedgerOk(sessions: map<nat, Session>, ledger: Ledger, nextId: nat) {
    && (forall p: (nat, nat) :: p in ledger.predictions ==> ledger.predictions[p] <= 1 && p.1 < nextId)
    && ledger.charges.Keys == sessions.Keys
    && (forall sid :: sid in sessions ==>
          ChargesOk(sessions[sid], ledger.charges[sid]) && PredictionsOk(sid, sessions[sid], ledger.predictions))
  }

  // ---- Jobs ------------------------------------------------------------------------------

  function JobsOf(jobs: seq<Job>, sid: nat): (r: seq<Job>)
    ensures forall j :: j in r <==> j in jobs && j.session == sid
  {
    if jobs == [] then []
    else JobsOf(jobs[..|jobs| - 1], sid) + if jobs[|jobs| - 1].session == sid then [jobs[|jobs| - 1]] else []
  }

  /** Jobs of one session that started from the same curriculum version. */
  predicate Rivals(a: Job, b: Job) {
    a.session == b.session && a.baseVersion == b.baseVersion
  }

  ghost predicate JobOk(j: Job, sessions: map<nat, Session>, nextId: nat) {
    && j.id < nextId
    && j.session in sessions
    && 1 <= j.attempt <= 2
    && j.baseVersion <= 1
    && var s := sessions[j.session];
       && j.revision <= s.revision
       && j.baseVersion <= s.version
       && (j.status == Ready ==> j.baseVersion < s.version)
       && (j.status == Running ==> s.status != Stopped)
       && (j.status == Running && j.revision == s.revision ==> s.status == Preparing && j.baseVersion == s.version)
  }

  /** Of two jobs, the ids differ; within one session the revisions differ; among rivals the later row is the
      later attempt, and only the last row can be running. */
  ghost predicate PairOk(a: Job, b: Job) {
    && a.id != b.id
    && (a.session == b.session ==> a.revision != b.revision)
    && (Rivals(a, b) ==> a.revision < b.revision && a.attempt < b.attempt && a.status != Running)
  }

  ghost predicate PairsOk(jobs: seq<Job>) {
    forall i, j :: 0 <= i < j < |jobs| ==> PairOk(jobs[i], jobs[j])
  }

  ghost predicate JobsOk(jobs: seq<Job>, sessions: map<nat, Session>, nextId: nat) {
    && (forall i :: 0 <= i < |jobs| ==> JobOk(jobs[i], sessions, nextId))
    && PairsOk(jobs)
    && (forall sid :: |JobsOf(jobs, sid)| <= 3)
  }

  // ---- Events, answers, concepts ---------------------------------------------------------

  function InSession(sid: nat): Event -> bool {
    (e: Event) => e.session == sid
  }

  function IsAnswer(): Event -> bool {
    (e: Event) => e.what.AnsweredEvent?
  }

  /** The events of a session carry the revisions 1, 2, 3 and so on up to its present one. */
  ghost predicate EventsOk(events: seq<Event>, sessions: map<nat, Session>) {
    && (forall i :: 0 <= i < |events| ==>
          events[i].session in sessions && events[i].revision == Count(events[..i + 1], InSession(events[i].session)))
    && (forall sid :: sid in sessions ==> sessions[sid].revision == Count(events, InSession(sid)))
  }

  /** Every answer has its own submission id and its own exposure row, and no question is counted twice for a
      learner and a repository. */
  ghost predicate AnswersOk(events: seq<Event>, exposures: set<Exposure>, submissions: map<string, Submission>) {
    && (forall i, j :: 0 <= i < j < |events| && events[i].what.AnsweredEvent? && events[j].what.AnsweredEvent? ==>
          events[i].what.exposure != events[j].what.exposure)
    && (forall x :: x in exposures <==> Answered(events, x))
    && |submissions| == |exposures| == Count(events, IsAnswer())
  }

  ghost predicate Answered(events: seq<Event>, x: Exposure) {
    exists i :: 0 <= i < |events| && events[i].what.AnsweredEvent? && events[i].what.exposure == x
  }

  ghost predicate Inv(db: Database, ledger: Ledger, nextId: nat) {
    && SessionsOk(db.sessions, nextId)
    && LedgerOk(db.sessions, ledger, nextId)
    && JobsOk(db.jobs, db.sessions, nextId)
    && EventsOk(db.events, db.sessions)
    && AnswersOk(db.events, db.exposures, db.submissions)
  }

  // ---- What one transaction, and any number of them, may do ------------------------------

  ghost predicate SessionEvolves(s: Session, t: Session) {
    && (s == t || s.revision < t.revision)
    && s.learner == t.learner && s.goal == t.goal
    && s.history <= t.history && s.spent <= t.spent && s.version <= t.version
    && (s.status == Stopped ==> t.status == Stopped)
  }

  /** A job keeps everything but its status, and its status changes only from running. */
  ghost predicate JobEvolves(a: Job, b: Job) {
    a.(status := b.status) == b && (a.status != Running ==> a == b)
  }

  ghost predicate JobSurvives(a: Job, jobs: seq<Job>) {
    exists i :: 0 <= i < |jobs| && JobEvolves(a, jobs[i])
  }

  ghost predicate Evolves(d: Database, e: Database) {
    && (forall sid :: sid in d.sessions ==> sid in e.sessions && SessionEvolves(d.sessions[sid], e.sessions[sid]))
    && (forall k :: k in d.submissions ==> k in e.submissions && e.submissions[k] == d.submissions[k])
    && d.exposures <= e.exposures
    && (forall k :: k in d.concepts ==> k in e.concepts && e.concepts[k] == d.concepts[k])
    && (forall i :: 0 <= i < |d.jobs| ==> JobSurvives(d.jobs[i], e.jobs))
    && d.events <= e.events
  }

  /** Only session sid may have changed, and then from the given revision to the next one, with one event. */
  ghost predicate Disciplined(d: Database, e: Database, sid: nat, revision: nat) {
    && e.sessions.Keys == d.sessions.Keys
    && (forall t :: t in d.sessions && t != sid ==> e.sessions[t] == d.sessions[t])
    && if e.sessions == d.sessions then e.events == d.events
       else sid in d.sessions && d.sessions[sid].revision == revision && e.sessions[sid].revision == revision + 1 &&
            |e.events| == |d.events| + 1 && e.events[|d.events|].session == sid
  }

  lemma EvolvesRefl(d: Database)
    ensures Evolves(d, d)
  {
    forall i | 0 <= i < |d.jobs|
      ensures JobSurvives(d.jobs[i], d.jobs)
    {
      assert JobEvolves(d.jobs[i], d.jobs[i]);
    }
  }

  lemma EvolvesTrans(a: Database, b: Database, c: Database)
    requires Evolves(a, b) && Evolves(b, c)
    ensures Evolves(a, c)
  {
    forall sid | sid in a.sessions
      ensures sid in c.sessions && SessionEvolves(a.sessions[sid], c.sessions[sid])
    {
      assert SessionEvolves(b.sessions[sid], c.sessions[sid]);
    }
    forall i | 0 <= i < |a.jobs|
      ensures JobSurvives(a.jobs[i], c.jobs)
    {
      assert JobSurvives(a.jobs[i], b.jobs);
      var j :| 0 <= j < |b.jobs| && JobEvolves(a.jobs[i], b.jobs[j]);
      assert JobSurvives(b.jobs[j], c.jobs);
      var k :| 0 <= k < |c.jobs| && JobEvolves(b.jobs[j], c.jobs[k]);
      assert JobEvolves(a.jobs[i], c.jobs[k]);
    }
  }
}
