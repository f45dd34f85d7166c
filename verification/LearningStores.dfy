/** The learning store: a few short-lived processes call these methods on one database, each of them one
    transaction. Whatever the order of the calls, the invariants hold after each of them. */
module LearningStores {
  import opened Counting
  import opened LearningModel
  import opened LearningInvariants
  import opened LearningJobs
  import opened LearningSteps
  import opened LearningCommits
  import opened LearningChoices
  import opened LearningEffects

  datatype Refusal =
    | InvalidGoal | InvalidSubmission | BoundToAnother | NoSession | StaleRevision | StaleStep | EvidenceChanged
    | QuestionExposed | ChoiceOutOfRange | CurriculumFrozen | NoJob | StaleJob | InvalidCurriculum | SessionEnded
    | UnknownProvider | InvalidOwner

  datatype Reply<T> = Done(value: T) | Refused(reason: Refusal)

  /** What requestPreparation hands back: a job, and whether the caller is the one to run it. */
  datatype JobReply = JobReply(job: Job, shouldRun: bool)

  predicate IdCharacter(c: char) {
    'a' <= c <= 'z' || 'A' <= c <= 'Z' || '0' <= c <= '9' || c == '_' || c == '-'
  }

  lemma IdCharacterIff(c: char)
    ensures IdCharacter(c) <==> IsWordCode(c as int)
  {
  }

  predicate ValidId(id: string) {
    1 <= |id| <= 100 && forall i :: 0 <= i < |id| ==> IdCharacter(id[i])
  }

  /** The fingerprints that the learner of the session has seen; `legacy` are those of the older quizzes, which
      count for the learner "local" only. */
  function ExposedTo(exposures: set<Exposure>, legacy: set<string>, s: Session): set<string> {
    (if s.learner == "local" then legacy else {}) +
    set x | x in exposures && x.learner == s.learner && x.repository == s.goal.repositoryId :: x.fingerprint
  }

  class LearningStore {
    var db: Database
    /** Stands for randomUUID: the next number that was never used as an id. */
    var nextId: nat
    ghost var ledger: Ledger
    const predict: (seq<Estimate>, Item) -> seq<Estimate>
    const observe: (seq<Estimate>, Item, Question, bool) -> seq<Estimate>

    ghost predicate Valid()
      reads this
    {
      Inv(db, ledger, nextId)
    }

    constructor (predict: (seq<Estimate>, Item) -> seq<Estimate>,
                 observe: (seq<Estimate>, Item, Question, bool) -> seq<Estimate>)
      ensures Valid() && db == Database(map[], map[], {}, map[], [], [])
      ensures this.predict == predict && this.observe == observe
    {
      this.predict, this.observe := predict, observe;
      db := Database(map[], map[], {}, map[], [], []);
      nextId := 0;
      ledger := Ledger(multiset{}, map[]);
    }

    // ---- respond -------------------------------------------------------------------------

    /** An answer. A known submission id gives back the stored result for the same request and is refused for another
        one; nothing changes. A new one is counted once: the model is applied and the answer observed. */
    method Respond(input: Answer, legacy: set<string>, evidenceOk: bool, refreshed: seq<Estimate>)
        returns (r: Reply<LearningResult>)
      requires Valid()
      modifies this
      ensures Valid() && Evolves(old(db), db) && Disciplined(old(db), db, input.session, input.revision)
      ensures r.Refused? ==> db == old(db) && ledger == old(ledger)
      ensures !ValidId(input.submission) ==> r == Refused(InvalidSubmission)
      ensures input.submission in old(db.submissions) && ValidId(input.submission) ==>
        db == old(db) && ledger == old(ledger) &&
        r == if old(db.submissions)[input.submission].request == input
             then Done(old(db.submissions)[input.submission].result) else Refused(BoundToAnother)
      ensures input.submission !in old(db.submissions) ==>
        (r.Done? <==> ValidId(input.submission) && evidenceOk && CanAnswer(old(db), input, legacy))
      ensures r.Done? && input.submission !in old(db.submissions) ==>
        CanAnswer(old(db), input, legacy) && ledger == Predict(old(ledger), input.session, input.stop) &&
        var s := old(db).sessions[input.session];
        var item := FindItem(s.items, s.current.value.actionId).value;
        var q := QuestionFor(s, item, input, ExposedTo(old(db).exposures, legacy, s)).value;
        Counted(old(db), db, input, item, q, observe(predict(refreshed, item), item, q, r.value.correct), r.value)
      ensures input.submission !in old(db.submissions) ==>
        (r.Done? <==> IsSubmissionId(input.submission) && evidenceOk && exists a, q :: AnswerFits(old(db), input, legacy, a, q))
      ensures r.Done? && input.submission !in old(db.submissions) ==>
        exists a, q :: AnswerFits(old(db), input, legacy, a, q) &&
          Answers(old(db), db, input, q, observe(predict(refreshed, a), a, q, r.value.correct), old(nextId), r.value)
    {
      hide Inv, Evolves, Disciplined, FindItem, ExposedTo, QuestionFor, Predict, Responded, AnswerFits, Answers, IsSubmissionId,
        ValidId;
      Unchanged(db, input.session, input.revision);
      ValidIdIff(input.submission);
      AnswerFitsIff(db, ledger, nextId, input, legacy);
      if !ValidId(input.submission) { return Refused(InvalidSubmission); }
      if input.submission in db.submissions {
        if db.submissions[input.submission].request != input { return Refused(BoundToAnother); }
        return Done(db.submissions[input.submission].result);
      }
      if input.session !in db.sessions { return Refused(NoSession); }
      var s := db.sessions[input.session];
      if s.revision != input.revision { return Refused(StaleRevision); }
      if s.status != Active || s.current.None? || s.current.value.id != input.stop || s.responseId.Some? {
        return Refused(StaleStep);
      }
      InvParts(db, ledger, nextId, input.session);
      var item := FindItem(s.items, s.current.value.actionId).value;
      if !evidenceOk { return Refused(EvidenceChanged); }
      var found := QuestionFor(s, item, input, ExposedTo(db.exposures, legacy, s));
      if found.None? { return Refused(QuestionExposed); }
      var q := found.value;
      if !(0 <= input.selected < |q.choices|) { return Refused(ChoiceOutOfRange); }
      QuestionUnseen(s, item, input, db.exposures, legacy);
      var correct := q.choices[input.selected] == q.answer;
      var responseId := nextId;
      var knowledge := observe(predict(refreshed, item), item, q, correct);
      var exposure := Exposure(s.learner, s.goal.repositoryId, q.fingerprint);
      s := Responded(s, knowledge, responseId);
      var result := LearningResult(s, responseId, correct);
      ghost var before, owed, was := db, ledger, nextId;
      db := Save(db, input.session, s, AnsweredEvent(input.stop, responseId, exposure, correct))
        .(exposures := db.exposures + {exposure}, submissions := db.submissions[input.submission := Submission(input, result)]);
      ledger := Predict(ledger, input.session, input.stop);
      nextId := nextId + 1;
      RespondKeeps(before, owed, was, input, item, q, knowledge, result, db);
      AnswerIsFit(before, owed, was, input, legacy, item, q);
      CountedAnswers(before, db, input, item, q, knowledge, result);
      return Done(result);
    }

    // ---- start ---------------------------------------------------------------------------

    /** A new session, at revision 1. */
    method Start(goal: Goal, learner: string, snapshot: string) returns (r: Reply<nat>)
      requires Valid()
      modifies this
      ensures Valid() && Evolves(old(db), db)
      ensures r.Done? <==> AcceptableGoal(goal, learner, snapshot)
      ensures r.Done? <==> GoalFits(goal, learner, snapshot)
      ensures r.Done? ==> Stores(old(db), db, r.value,
        Session(learner, goal, 1, Preparing, None, 0.0, [], 0, [], [], [], [], None, None), StartedEvent)
      ensures r.Refused? ==> db == old(db)
      ensures r.Done? ==> r.value !in old(db).sessions && db == Save(old(db), r.value, NewSession(goal, learner), StartedEvent)
      ensures ledger == if r.Done? then old(ledger).(charges := old(ledger).charges[r.value := []]) else old(ledger)
    {
      hide Inv, Evolves, AcceptableGoal, GoalFits;
      Unchanged(db, 0, 0);
      GoalFitsIff(goal, learner, snapshot);
      if !AcceptableGoal(goal, learner, snapshot) { return Refused(InvalidGoal); }
      StartKeeps(db, ledger, nextId, goal, learner, snapshot);
      var sid := nextId;
      db := Save(db, sid, NewSession(goal, learner), StartedEvent);
      ledger := ledger.(charges := ledger.charges[sid := []]);
      nextId := nextId + 1;
      return Done(sid);
    }

    // ---- advance -------------------------------------------------------------------------

    /** Continue or skip: the stop is charged and goes into the history, the model is applied if the visit is continued
        without an answer, and the session moves on. */
    method Advance(id: nat, revision: nat, stop: nat, outcome: Outcome, legacy: set<string>, evidenceOk: bool,
                   refreshed: seq<Estimate>, wish: nat) returns (r: Reply<Session>)
      requires Valid()
      modifies this
      ensures Valid() && Evolves(old(db), db) && Disciplined(old(db), db, id, revision)
      ensures r.Refused? ==> db == old(db) && ledger == old(ledger)
      ensures r.Done? <==> evidenceOk && AtStop(old(db), id, revision, stop)
      ensures r.Done? ==>
        var s := old(db).sessions[id];
        var item := FindItem(s.items, s.current.value.actionId).value;
        var predicted := outcome == Continue && s.responseId.None?;
        r.value == Advanced(s, if predicted then predict(refreshed, item) else refreshed, item.cost, outcome,
                            ExposedTo(old(db).exposures, legacy, s), wish, old(nextId)) &&
        db == Save(old(db), id, r.value, AdvancedEvent(stop, outcome)) &&
        ledger == Charge(old(ledger), id, stop, item.cost, predicted)
      ensures r.Done? ==>
        var s := old(db).sessions[id];
        var item := FindItem(s.items, s.current.value.actionId).value;
        var exposed := ExposedTo(old(db).exposures, legacy, s);
        AreExposed(exposed, old(db).exposures, legacy, s) &&
        Leaves(s, r.value, item, outcome, if outcome == Continue && s.responseId.None? then predict(refreshed, item) else refreshed,
               exposed, old(nextId)) &&
        Stores(old(db), db, id, r.value, AdvancedEvent(stop, outcome)) && db.concepts == old(db).concepts && db.jobs == old(db).jobs
      ensures r.Done? ==>
        var s := old(db).sessions[id];
        var item := FindItem(s.items, s.current.value.actionId).value;
        id in old(ledger).charges && ledger.charges == old(ledger).charges[id := old(ledger).charges[id] + [item.cost]] &&
        ledger.predictions == old(ledger).predictions +
          if outcome == Continue && s.responseId.None? then multiset{(id, stop)} else multiset{}
    {
      hide Inv, Evolves, Disciplined, FindItem, ExposedTo, Charge, Moved, Completed, AreExposed, Leaves;
      Unchanged(db, id, revision);
      if id !in db.sessions { return Refused(NoSession); }
      var s := db.sessions[id];
      if s.revision != revision { return Refused(StaleRevision); }
      if s.status != Active || s.current.None? || s.current.value.id != stop { return Refused(StaleStep); }
      InvParts(db, ledger, nextId, id);
      var item := FindItem(s.items, s.current.value.actionId).value;
      if !evidenceOk { return Refused(EvidenceChanged); }
      var exposed := ExposedTo(db.exposures, legacy, s);
      var predicted := outcome == Continue && s.responseId.None?;
      var knowledge := if predicted then predict(refreshed, item) else refreshed;
      AdvanceKeeps(db, ledger, nextId, id, knowledge, outcome, exposed, wish);
      AdvanceLeaves(db, ledger, nextId, id, knowledge, outcome, exposed, wish);
      ExposedMeans(db.exposures, legacy, s);
      ChargeMeans(ledger, id, stop, item.cost, predicted);
      ledger := Charge(ledger, id, stop, item.cost, predicted);
      s := s.(knowledge := knowledge);
      s := Completed(s, item.cost, outcome);
      s := Moved(s, exposed, wish, nextId);
      s := s.(revision := s.revision + 1);
      db := Save(db, id, s, AdvancedEvent(stop, outcome));
      nextId := nextId + 1;
      return Done(s);
    }

    /** Stop: the session ends, and with it all its running jobs. The stop id may be left out. */
    method Stop(id: nat, revision: nat, stop: Option<nat>, refreshed: seq<Estimate>) returns (r: Reply<Session>)
      requires Valid()
      modifies this
      ensures Valid() && Evolves(old(db), db) && Disciplined(old(db), db, id, revision)
      ensures r.Refused? ==> db == old(db)
      ensures ledger == old(ledger)
      ensures r.Done? <==> CanStop(old(db), id, revision, stop)
      ensures r.Done? ==> r.value == Ended(old(db).sessions[id], refreshed)
      ensures r.Done? ==> db == Save(old(db), id, r.value, StoppedEvent(stop)).(jobs := db.jobs)
      ensures r.Done? ==> forall i :: 0 <= i < |db.jobs| && db.jobs[i].session == id ==> db.jobs[i].status != Running
      ensures r.Done? ==>
        var s := old(db).sessions[id];
        r.value == s.(status := Stopped, current := None, knowledge := refreshed, revision := s.revision + 1) &&
        Stores(old(db), db, id, r.value, StoppedEvent(stop)) && db.concepts == old(db).concepts &&
        FailsRunning(old(db).jobs, db.jobs, id)
    {
      hide Inv, Evolves, Disciplined;
      Unchanged(db, id, revision);
      if id !in db.sessions { return Refused(NoSession); }
      var s := db.sessions[id];
      if s.revision != revision { return Refused(StaleRevision); }
      if stop.Some? && (s.current.None? || s.current.value.id != stop.value) { return Refused(StaleStep); }
      var jobs := FailRunning(id);
      StopKeeps(db, db.(jobs := jobs), ledger, nextId, id, refreshed, StoppedEvent(stop));
      s := Ended(s, refreshed);
      db := Save(db.(jobs := jobs), id, s, StoppedEvent(stop));
      return Done(s);
    }

    /** The loop over all rows of the job table that ends the running jobs of a session. */
    method FailRunning(id: nat) returns (jobs: seq<Job>)
      requires Valid()
      ensures Inv(db.(jobs := jobs), ledger, nextId) && Evolves(db, db.(jobs := jobs))
      ensures forall i :: 0 <= i < |jobs| && jobs[i].session == id ==> jobs[i].status != Running
      ensures FailsRunning(db.jobs, jobs, id)
    {
      hide Inv, Evolves, SaveJob, FailedUpTo, FailsRunning;
      jobs := db.jobs;
      NoneFailed(db.jobs, id);
      EvolvesRefl(db);
      assert db.(jobs := jobs) == db;
      var k := 0;
      while k < |db.jobs|
        invariant k <= |db.jobs|
        invariant Inv(db.(jobs := jobs), ledger, nextId) && Evolves(db, db.(jobs := jobs))
        invariant FailedUpTo(db.jobs, jobs, id, k)
      {
        var job := db.jobs[k];
        FailRow(db, jobs, ledger, nextId, id, k);
        if job.session == id && job.status == Running {
          jobs := SaveJob(jobs, job.(status := Failed));
        }
        k := k + 1;
      }
      AllFailed(db.jobs, jobs, id);
      NoneRunningNow(db.jobs, jobs, id);
    }

    // ---- prepare -------------------------------------------------------------------------

    /** A curriculum is installed, by hand or through a job, and the session moves to its first stop. */
    method Prepare(id: nat, revision: nat, c: Curriculum, jobId: Option<nat>, sources: nat, evidenceOk: bool,
                   materialOk: bool, knowledge: seq<Estimate>, legacy: set<string>, wish: nat)
        returns (r: Reply<Session>)
      requires Valid()
      modifies this
      ensures Valid() && Evolves(old(db), db) && Disciplined(old(db), db, id, revision)
      ensures r.Refused? ==> db == old(db)
      ensures ledger == old(ledger)
      ensures r.Done? <==> CanPrepare(old(db), id, revision, c, jobId, sources) && materialOk &&
                           (old(db).sessions[id].version > 0 ==> evidenceOk)
      ensures r.Done? ==> r.value == Moved(WithCurriculum(old(db).sessions[id], c, knowledge),
                                           ExposedTo(old(db).exposures, legacy, old(db).sessions[id]), wish, old(nextId))
      ensures r.Done? ==> db == Save(old(db), id, r.value, PreparedEvent(c.version, jobId))
                                  .(concepts := db.concepts, jobs := Settled(old(db).jobs, jobId))
      ensures r.Done? ==> ConceptsStored(old(db).concepts, db.concepts, old(db).sessions[id].goal.repositoryId, c.concepts)
      ensures r.Done? <==> CurriculumFits(old(db), id, revision, c, jobId, sources) && materialOk &&
                           (old(db).sessions[id].version > 0 ==> evidenceOk)
      ensures r.Done? ==>
        var s := old(db).sessions[id];
        var exposed := ExposedTo(old(db).exposures, legacy, s);
        AreExposed(exposed, old(db).exposures, legacy, s) && Installs(s, r.value, c, knowledge, exposed, old(nextId)) &&
        Stores(old(db), db, id, r.value, PreparedEvent(c.version, jobId)) &&
        if jobId.Some? then Settles(old(db).jobs, db.jobs, jobId.value, Ready) else db.jobs == old(db).jobs
    {
      hide Inv, Evolves, Disciplined, ExposedTo, Moved, WithCurriculum, ConceptsOk, MaterialOk, ConceptIds, TargetConcepts, ItemsAccepted, RelationsAccepted,
        LastJob, SaveJob, Settled, FindJob, CurriculumFits, Installs, AreExposed, Settles;
      Unchanged(db, id, revision);
      CurriculumFitsIff(db, ledger, nextId, id, revision, c, jobId, sources);
      if id !in db.sessions { return Refused(NoSession); }
      var s := db.sessions[id];
      if s.revision != revision { return Refused(StaleRevision); }
      if s.status != Preparing && s.status != GenerationNeeded { return Refused(CurriculumFrozen); }
      if jobId.Some? {
        var job := FindJob(db.jobs, jobId.value);
        if job.None? { return Refused(NoJob); }
        if job.value.session != id || job.value.revision != revision || job.value.status != Running { return Refused(StaleJob); }
        if job.value.sources != sources { return Refused(EvidenceChanged); }
        assert JobAllows(db.jobs, jobId.value, id, revision, sources);
      }
      if c.version != s.version + 1 || !(1 <= |c.concepts| <= 8) || !(1 <= |c.items| <= 24) {
        return Refused(InvalidCurriculum);
      }
      if s.version > 0 && !evidenceOk { return Refused(EvidenceChanged); }
      var ok, table, ids := CheckConcepts(db.concepts, s, c.concepts);
      if !ok { return Refused(InvalidCurriculum); }
      if !(TargetConcepts(s.goal.targets) <= ids) { return Refused(InvalidCurriculum); }
      if !ItemsAccepted(c.items, ids) || !RelationsAccepted(c.relations, ids) || !materialOk {
        return Refused(InvalidCurriculum);
      }
      var exposed := ExposedTo(db.exposures, legacy, s);
      AcceptedMaterial(s, c, ids);
      AcceptedItems(c.items, ids);
      PrepareKeeps(db, ledger, nextId, id, c, jobId, knowledge, exposed, wish, table, ids);
      ExposedMeans(db.exposures, legacy, s);
      PrepareInstalls(db, ledger, nextId, id, c, knowledge, exposed, wish);
      JobReady(db, ledger, nextId, jobId);
      s := WithCurriculum(s, c, knowledge);
      s := Moved(s, exposed, wish, nextId);
      db := Save(db, id, s, PreparedEvent(c.version, jobId)).(concepts := table, jobs := Settled(db.jobs, jobId));
      nextId := nextId + 1;
      return Done(s);
    }

    /** saveJobCurriculum: the job says which session and which revision the curriculum is for. */
    method SaveJobCurriculum(jobId: nat, c: Curriculum, sources: nat, evidenceOk: bool, materialOk: bool,
                             knowledge: seq<Estimate>, legacy: set<string>, wish: nat) returns (r: Reply<Session>)
      requires Valid()
      modifies this
      ensures Valid() && Evolves(old(db), db)
      ensures r.Refused? ==> db == old(db)
      ensures ledger == old(ledger)
      ensures r.Done? ==> FindJob(old(db).jobs, jobId).Some? && Matching(FindJob(old(db).jobs, jobId).value, old(db).sessions)
      ensures FindJob(old(db).jobs, jobId).Some? ==>
        var job := FindJob(old(db).jobs, jobId).value;
        Disciplined(old(db), db, job.session, job.revision) &&
        (r.Done? <==> CanPrepare(old(db), job.session, job.revision, c, Some(jobId), sources) && materialOk &&
                      (old(db).sessions[job.session].version > 0 ==> evidenceOk)) &&
        (r.Done? ==> db.sessions == old(db).sessions[job.session := r.value] && db.jobs == Settled(old(db).jobs, Some(jobId)) &&
                     Settles(old(db).jobs, db.jobs, jobId, Ready) &&
                     Installs(old(db).sessions[job.session], r.value, c, knowledge,
                              ExposedTo(old(db).exposures, legacy, old(db).sessions[job.session]), old(nextId)))
    {
      hide Inv, Evolves;
      Unchanged(db, 0, 0);
      var job := FindJob(db.jobs, jobId);
      if job.None? { return Refused(NoJob); }
      r := Prepare(job.value.session, job.value.revision, c, Some(jobId), sources, evidenceOk, materialOk, knowledge,
                   legacy, wish);
    }

    // ---- preparation jobs ----------------------------------------------------------------

    /** requestPreparation's transaction: join the running job, share the outcome of the last one, give up, or start a
        new job on the session's next revision. `now` and `ownerAlive` are the clock and the liveness of the process
        that owns the job in question. */
    method RequestPreparation(id: nat, revision: nat, provider: Provider, owner: int, now: int, ownerAlive: bool,
                              sources: nat) returns (r: Reply<JobReply>)
      requires Valid()
      modifies this
      ensures Valid() && Evolves(old(db), db) && Disciplined(old(db), db, id, revision)
      ensures r.Refused? ==> db == old(db)
      ensures ledger == old(ledger)
      ensures r.Done? ==> MayAsk(old(db), id, provider, owner)
      ensures MayAsk(old(db), id, provider, owner) && Joinable(old(db), id, revision, now, ownerAlive) ==>
        r == Done(JobReply(Previous(old(db), id).value, false)) && db == old(db)
      ensures MayAsk(old(db), id, provider, owner) && !Joinable(old(db), id, revision, now, ownerAlive) && Shareable(old(db), id, revision) ==>
        r == Done(JobReply(LastJob(old(db).jobs, id, None).value, false)) && db == old(db)
      ensures MayAsk(old(db), id, provider, owner) && !Joinable(old(db), id, revision, now, ownerAlive) && !Shareable(old(db), id, revision) ==>
        (r.Refused? <==> old(db).sessions[id].revision != revision) &&
        (r.Done? ==> (r.value.shouldRun <==> CanRun(old(db), id, revision)))
      ensures r.Done? && r.value.shouldRun ==>
        r.value.job == NewJob(old(db), id, old(nextId), provider, now, owner, sources) &&
        db == Save(old(db), id, Waiting(old(db).sessions[id], Preparing), RequestedEvent(old(nextId)))
                .(jobs := SaveJob(FailPrevious(old(db).jobs, id, old(db).sessions[id].version), r.value.job))
      ensures r.Done? && !r.value.shouldRun && db != old(db) ==> Spent(old(db), id, revision) && db == GivenUp(old(db), id)
      ensures MayAsk(old(db), id, provider, owner) && NothingToShare(old(db), id, revision, now, ownerAlive) &&
              !CanRun(old(db), id, revision) ==>
        var job := PreviousOrBlank(old(db), id, revision, provider, owner, now, old(nextId), sources);
        if old(db).sessions[id].status == Active
        then r == Done(JobReply(job.(status := Ready), false)) && db == old(db)
        else r == Done(JobReply(job.(status := Failed), false)) && db == GivenUp(old(db), id)
      ensures r.Done? && r.value.shouldRun ==>
        Starts(old(db), db, id, r.value.job) &&
        r.value.job == Job(old(nextId), id, old(db).sessions[id].revision + 1, Running, r.value.job.attempt, provider, now, owner,
                           old(db).sessions[id].version, sources)
      ensures MayAsk(old(db), id, provider, owner) && NothingToShare(old(db), id, revision, now, ownerAlive) &&
              !CanRun(old(db), id, revision) ==>
        var s := old(db).sessions[id];
        var blank := Job(old(nextId), id, revision, Ready, 0, provider, now, owner, s.version, sources);
        r.Done? && !r.value.shouldRun &&
        IsOutcome(old(db).jobs, id, s.version, blank, if s.status == Active then Ready else Failed, r.value.job) &&
        if s.status == Active then db == old(db) else GivesUp(old(db), db, id)
    {
      hide Inv, Evolves, Disciplined, LastJob, SaveJob, JobsOf, NewJob, GivenUp, FailPrevious, Waiting, Save, Joinable,
        Shareable, Spent, Previous, PreviousOrBlank, Starts, GivesUp, IsOutcome;
      Unchanged(db, id, revision);
      if id in db.sessions { OutcomeOfPrevious(db, id, revision, provider, owner, now, nextId, sources); }
      var verdict := Judge(db, id, revision, provider, owner, now, ownerAlive, nextId, sources);
      match verdict {
        case Refuse(reason) => return Refused(reason);
        case HandOut(job) => return Done(JobReply(job, false));
        case GiveUp(job) =>
          GiveUpKeeps(db, ledger, nextId, id);
          GivenUpMeans(db, ledger, nextId, id);
          db := GivenUp(db, id);
          return Done(JobReply(job, false));
        case StartJob =>
          var s := db.sessions[id];
          var job := NewJob(db, id, nextId, provider, now, owner, sources);
          RequestKeeps(db, ledger, nextId, id, provider, now, owner, sources);
          RequestStarts(db, ledger, nextId, id, provider, now, owner, sources);
          db := Save(db, id, Waiting(s, Preparing), RequestedEvent(nextId))
                  .(jobs := SaveJob(FailPrevious(db.jobs, id, s.version), job));
          nextId := nextId + 1;
          return Done(JobReply(job, true));
      }
    }

    /** finishPreparation: a job that is still running has failed. Its session hears of it only if it is still waiting for
        this job. */
    method FinishPreparation(jobId: nat) returns (r: Reply<bool>)
      requires Valid()
      modifies this
      ensures Valid() && Evolves(old(db), db)
      ensures ledger == old(ledger)
      ensures r == if FindJob(old(db).jobs, jobId).None? then Refused(NoJob) else Done(db != old(db))
      ensures FindJob(old(db).jobs, jobId).None? || FindJob(old(db).jobs, jobId).value.status != Running ==> db == old(db)
      ensures FindJob(old(db).jobs, jobId).Some? && FindJob(old(db).jobs, jobId).value.status == Running ==>
        var job := FindJob(old(db).jobs, jobId).value;
        db == WithFailure(old(db), job) && Disciplined(old(db), db, job.session, job.revision)
      ensures FindJob(old(db).jobs, jobId).Some? && FindJob(old(db).jobs, jobId).value.status == Running ==>
        Fails(old(db), db, FindJob(old(db).jobs, jobId).value)
    {
      hide Inv, Evolves, SaveJob, FindJob;
      Unchanged(db, 0, 0);
      var found := FindJob(db.jobs, jobId);
      if found.None? { return Refused(NoJob); }
      var job := found.value;
      if job.status == Ready { return Done(false); }
      if job.status != Running { return Done(false); }
      FinishKeeps(db, ledger, nextId, jobId);
      FinishMeans(db, ledger, nextId, jobId);
      var s := db.sessions[job.session];
      var jobs := SaveJob(db.jobs, job.(status := Failed));
      db := db.(jobs := jobs);
      if s.revision == job.revision {
        s := Waiting(s, GenerationNeeded);
        db := Save(db, job.session, s, FailedEvent(jobId));
      }
      return Done(true);
    }
  }

  /** The store takes the answer: it fits the session's revision, its stop and its question. */
  ghost predicate CanAnswer(d: Database, input: Answer, legacy: set<string>) {
    && input.session in d.sessions
    && var s := d.sessions[input.session];
       && s.revision == input.revision && s.status == Active && s.responseId.None?
       && s.current.Some? && s.current.value.id == input.stop
       && FindItem(s.items, s.current.value.actionId).Some?
       && var q := QuestionFor(s, FindItem(s.items, s.current.value.actionId).value, input, ExposedTo(d.exposures, legacy, s));
          q.Some? && 0 <= input.selected < |q.value.choices|
  }

  /** The question that an answer is about: it is the current one, and the learner has not seen it answered. */
  function QuestionFor(s: Session, item: Item, input: Answer, exposed: set<string>): Option<Question> {
    if s.questionId != Some(input.question) then None
    else
      match FindQuestion(item.compiled, input.question)
      case Some(q) => if q.fingerprint in exposed then None else Some(q)
      case None => None
  }

  /** What a counted answer does to the tables, for the estimates it leads to: one exposure row that was not there, one
      submission, one event, and the session with its response. */
  ghost predicate Counted(d: Database, e: Database, input: Answer, item: Item, q: Question, knowledge: seq<Estimate>,
                          result: LearningResult)
    requires input.session in d.sessions && 0 <= input.selected < |q.choices|
  {
    var s := d.sessions[input.session];
    var x := Exposure(s.learner, s.goal.repositoryId, q.fingerprint);
    var t := Responded(s, knowledge, result.responseId);
    && x !in d.exposures && input.submission !in d.submissions
    && result == LearningResult(t, result.responseId, q.choices[input.selected] == q.answer)
    && e == Save(d, input.session, t, AnsweredEvent(input.stop, result.responseId, x, result.correct))
              .(exposures := d.exposures + {x}, submissions := d.submissions[input.submission := Submission(input, result)])
  }

  lemma ValidIdIff(id: string)
    ensures ValidId(id) <==> IsSubmissionId(id)
  {
    forall i | 0 <= i < |id|
      ensures IdCharacter(id[i]) <==> IsWordCode(id[i] as int)
    {
      IdCharacterIff(id[i]);
    }
  }

  lemma {:induction false} FirstQuestion(questions: seq<Question>, id: nat, q: Question)
    ensures FindQuestion(questions, id) == Some(q) <==> IsQuestion(questions, id, q)
  {
    if questions != [] {
      var rest := questions[1..];
      FirstQuestion(rest, id, q);
      assert forall j :: 0 <= j < |rest| ==> rest[j] == questions[j + 1];
      if questions[0].id != id {
        if IsQuestion(questions, id, q) {
          var i :| 0 <= i < |questions| && questions[i] == q && q.id == id && forall j :: 0 <= j < i ==> questions[j].id != id;
          assert rest[i - 1] == q;
        }
        if IsQuestion(rest, id, q) {
          var i :| 0 <= i < |rest| && rest[i] == q && q.id == id && forall j :: 0 <= j < i ==> rest[j].id != id;
          assert questions[i + 1] == q;
        }
      }
    }
  }

  lemma AnswerIsFit(d: Database, ledger: Ledger, nextId: nat, input: Answer, legacy: set<string>, a: Item, q: Question)
    requires Inv(d, ledger, nextId) && CanAnswer(d, input, legacy)
    requires var s := d.sessions[input.session];
             a == FindItem(s.items, s.current.value.actionId).value &&
             QuestionFor(s, a, input, ExposedTo(d.exposures, legacy, s)) == Some(q)
    ensures AnswerFits(d, input, legacy, a, q)
  {
    hide Inv, FindItem, FindQuestion, IsQuestion, IsExposed, ExposedTo;
    var s := d.sessions[input.session];
    FirstQuestion(a.compiled, input.question, q);
    ExposedMeans(d.exposures, legacy, s);
  }

  lemma AnswerFitsIff(d: Database, ledger: Ledger, nextId: nat, input: Answer, legacy: set<string>)
    requires Inv(d, ledger, nextId)
    ensures CanAnswer(d, input, legacy) <==> exists a, q :: AnswerFits(d, input, legacy, a, q)
  {
    hide Inv, FindItem, FindQuestion, IsQuestion, IsExposed, ExposedTo;
    if CanAnswer(d, input, legacy) {
      var s := d.sessions[input.session];
      var a := FindItem(s.items, s.current.value.actionId).value;
      AnswerIsFit(d, ledger, nextId, input, legacy, a, QuestionFor(s, a, input, ExposedTo(d.exposures, legacy, s)).value);
    }
    if a, q :| AnswerFits(d, input, legacy, a, q) {
      var s := d.sessions[input.session];
      SessionMaterial(d, ledger, nextId, input.session);
      FindUnique(s.items, a);
      FirstQuestion(a.compiled, input.question, q);
      ExposedMeans(d.exposures, legacy, s);
    }
  }

  lemma CountedAnswers(d: Database, e: Database, input: Answer, item: Item, q: Question, knowledge: seq<Estimate>,
                       r: LearningResult)
    requires input.session in d.sessions && 0 <= input.selected < |q.choices| && Counted(d, e, input, item, q, knowledge, r)
    ensures Answers(d, e, input, q, knowledge, r.responseId, r)
  {
  }

  lemma QuestionUnseen(s: Session, item: Item, input: Answer, exposures: set<Exposure>, legacy: set<string>)
    ensures var q := QuestionFor(s, item, input, ExposedTo(exposures, legacy, s));
            q.Some? ==> Exposure(s.learner, s.goal.repositoryId, q.value.fingerprint) !in exposures
  {
  }

  lemma RespondKeeps(d: Database, ledger: Ledger, nextId: nat, input: Answer, item: Item, q: Question,
                     knowledge: seq<Estimate>, result: LearningResult, e: Database)
    requires Inv(d, ledger, nextId) && input.session in d.sessions && 0 <= input.selected < |q.choices|
    requires var s := d.sessions[input.session];
             s.status == Active && s.current.Some? && s.current.value.id == input.stop && s.responseId.None?
    requires Counted(d, e, input, item, q, knowledge, result) && result.responseId == nextId
    ensures Inv(e, Predict(ledger, input.session, input.stop), nextId + 1)
    ensures Evolves(d, e) && Disciplined(d, e, input.session, d.sessions[input.session].revision)
  {
    hide LedgerOk, SessionOk, Inv, Evolves, Disciplined, SessionEvolves, Predict, FindItem;
    var s := d.sessions[input.session];
    var t := Responded(s, knowledge, nextId);
    InvParts(d, ledger, nextId, input.session);
    RespondedOk(s, knowledge, nextId);
    RespondedLedger(d.sessions, ledger, nextId, input.session, t);
    var x := Exposure(s.learner, s.goal.repositoryId, q.fingerprint);
    AnswerCommit(d, ledger, nextId, input.session, t, AnsweredEvent(input.stop, nextId, x, result.correct),
                 Predict(ledger, input.session, input.stop), nextId + 1, input.submission, Submission(input, result), e);
  }

  // ---- start -----------------------------------------------------------------------------

  predicate Blank(text: string) {
    forall i :: 0 <= i < |text| ==> text[i] in " \t\n\r"
  }

  function Weights(targets: seq<Target>): real {
    if targets == [] then 0.0 else Weights(targets[..|targets| - 1]) + targets[|targets| - 1].weight
  }

  /** The limits that start checks, validateGoal's among them. */
  predicate AcceptableGoal(goal: Goal, learner: string, snapshot: string) {
    && !Blank(goal.repositoryId) && !Blank(goal.snapshot) && goal.snapshot == snapshot
    && 0.0 <= goal.budget <= 30.0
    && 1 <= |goal.targets| <= 8
    && (forall i :: 0 <= i < |goal.targets| ==> !Blank(goal.targets[i].conceptId) && goal.targets[i].weight >= 0.0)
    && Weights(goal.targets) > 0.0
    && (forall i, j :: 0 <= i < j < |goal.targets| ==>
          goal.targets[i].conceptId != goal.targets[j].conceptId || goal.targets[i].level != goal.targets[j].level)
    && !Blank(learner) && |learner| <= 200
  }

  lemma BlankIff(text: string)
    ensures Blank(text) <==> !HasText(text)
  {
  }

  lemma {:induction false} SomeWeight(targets: seq<Target>)
    requires forall t :: t in targets ==> t.weight >= 0.0
    ensures Weights(targets) >= 0.0
    ensures Weights(targets) > 0.0 <==> exists t :: t in targets && t.weight > 0.0
  {
    if targets != [] {
      var n := |targets| - 1;
      assert targets == targets[..n] + [targets[n]];
      SomeWeight(targets[..n]);
    }
  }

  lemma GoalFitsIff(goal: Goal, learner: string, snapshot: string)
    ensures AcceptableGoal(goal, learner, snapshot) <==> GoalFits(goal, learner, snapshot)
  {
    hide Blank, HasText, Weights;
    BlankIff(goal.repositoryId);
    BlankIff(goal.snapshot);
    BlankIff(learner);
    forall i | 0 <= i < |goal.targets|
      ensures Blank(goal.targets[i].conceptId) <==> !HasText(goal.targets[i].conceptId)
      ensures goal.targets[i] in goal.targets
    {
      BlankIff(goal.targets[i].conceptId);
    }
    assert (forall t :: t in goal.targets ==> HasText(t.conceptId) && t.weight >= 0.0) <==>
      (forall i :: 0 <= i < |goal.targets| ==> !Blank(goal.targets[i].conceptId) && goal.targets[i].weight >= 0.0);
    if forall t :: t in goal.targets ==> t.weight >= 0.0 { SomeWeight(goal.targets); }
  }

  function NewSession(goal: Goal, learner: string): Session {
    Session(learner, goal, 1, Preparing, None, 0.0, [], 0, [], [], [], [], None, None)
  }

  lemma NewSessionOk(goal: Goal, learner: string, snapshot: string, nextId: nat)
    requires AcceptableGoal(goal, learner, snapshot)
    ensures SessionOk(NewSession(goal, learner), nextId)
  {
  }

  lemma NewJobs(jobs: seq<Job>, sessions: map<nat, Session>, nextId: nat, t: Session)
    requires JobsOk(jobs, sessions, nextId)
    requires forall sid :: sid in sessions ==> sid < nextId
    ensures JobsOk(jobs, sessions[nextId := t], nextId + 1)
  {
    hide JobsOf, PairsOk;
    forall i | 0 <= i < |jobs|
      ensures JobOk(jobs[i], sessions[nextId := t], nextId + 1)
    {
      assert JobOk(jobs[i], sessions, nextId);
    }
  }

  lemma NewLedger(sessions: map<nat, Session>, ledger: Ledger, nextId: nat, t: Session)
    requires LedgerOk(sessions, ledger, nextId) && t.history == [] && t.spent == 0.0 && t.current.None?
    ensures LedgerOk(sessions[nextId := t], ledger.(charges := ledger.charges[nextId := []]), nextId + 1)
  {
    var after := ledger.(charges := ledger.charges[nextId := []]);
    LedgerSaved(sessions, ledger, nextId, nextId, t, after, nextId + 1, multiset{});
  }

  lemma StartKeeps(d: Database, ledger: Ledger, nextId: nat, goal: Goal, learner: string, snapshot: string)
    requires Inv(d, ledger, nextId) && AcceptableGoal(goal, learner, snapshot)
    ensures var e := Save(d, nextId, NewSession(goal, learner), StartedEvent);
            Inv(e, ledger.(charges := ledger.charges[nextId := []]), nextId + 1) && Evolves(d, e) && nextId !in d.sessions
  {
    hide LedgerOk, SessionOk, JobsOk, EventsOk, AnswersOk, SessionEvolves, Evolves, AcceptableGoal;
    var t := NewSession(goal, learner);
    NewSessionOk(goal, learner, snapshot, nextId + 1);
    SessionsSaved(d.sessions, nextId, nextId, t, nextId + 1);
    NewLedger(d.sessions, ledger, nextId, t);
    NewJobs(d.jobs, d.sessions, nextId, t);
    EventSaved(d.events, d.sessions, nextId, t, StartedEvent);
    AnswersKept(d.events, d.exposures, d.submissions, Event(nextId, 1, StartedEvent));
    SaveEvolves(d, nextId, t, StartedEvent);
  }

  // ---- advance ---------------------------------------------------------------------------

  ghost predicate AtStop(d: Database, id: nat, revision: nat, stop: nat) {
    && id in d.sessions
    && d.sessions[id].revision == revision && d.sessions[id].status == Active
    && d.sessions[id].current.Some? && d.sessions[id].current.value.id == stop
    && FindItem(d.sessions[id].items, d.sessions[id].current.value.actionId).Some?
  }

  lemma AdvanceKeeps(d: Database, ledger: Ledger, nextId: nat, id: nat, knowledge: seq<Estimate>, outcome: Outcome,
                     exposed: set<string>, wish: nat)
    requires Inv(d, ledger, nextId) && id in d.sessions && d.sessions[id].current.Some?
    requires FindItem(d.sessions[id].items, d.sessions[id].current.value.actionId).Some?
    ensures id in ledger.charges
    ensures var s := d.sessions[id];
            var cost := FindItem(s.items, s.current.value.actionId).value.cost;
            var t := Advanced(s, knowledge, cost, outcome, exposed, wish, nextId);
            var e := Save(d, id, t, AdvancedEvent(s.current.value.id, outcome));
            Inv(e, Charge(ledger, id, s.current.value.id, cost, outcome == Continue && s.responseId.None?), nextId + 1) &&
            Evolves(d, e) && Disciplined(d, e, id, s.revision)
  {
    hide LedgerOk, SessionOk, Inv, Evolves, Disciplined, SessionEvolves, FindItem, Charge, Advanced;
    InvParts(d, ledger, nextId, id);
    var s := d.sessions[id];
    var cost := FindItem(s.items, s.current.value.actionId).value.cost;
    var t := Advanced(s, knowledge, cost, outcome, exposed, wish, nextId);
    Charged(d.sessions, ledger, nextId, id);
    AdvancedOk(s, knowledge, outcome, exposed, wish, nextId);
    AdvancedRevision(s, knowledge, cost, outcome, exposed, wish, nextId);
    AdvancedLedger(d.sessions, ledger, nextId, id, t, cost, outcome);
    SessionCommit(d, ledger, nextId, id, t, AdvancedEvent(s.current.value.id, outcome),
                  Charge(ledger, id, s.current.value.id, cost, outcome == Continue && s.responseId.None?), nextId + 1);
  }

  lemma ExposedMeans(exposures: set<Exposure>, legacy: set<string>, s: Session)
    ensures AreExposed(ExposedTo(exposures, legacy, s), exposures, legacy, s)
  {
    forall f
      ensures f in ExposedTo(exposures, legacy, s) <==> IsExposed(exposures, legacy, s, f)
    {
      if Exposure(s.learner, s.goal.repositoryId, f) in exposures {
        assert Exposure(s.learner, s.goal.repositoryId, f).fingerprint == f;
      }
    }
  }

  lemma ChargeMeans(ledger: Ledger, id: nat, stop: nat, cost: real, predicted: bool)
    requires id in ledger.charges
    ensures var l := Charge(ledger, id, stop, cost, predicted);
      l.charges == ledger.charges[id := ledger.charges[id] + [cost]] &&
      l.predictions == ledger.predictions + if predicted then multiset{(id, stop)} else multiset{}
  {
  }

  /** The session after Advance, in full. */
  lemma AdvanceLeaves(d: Database, ledger: Ledger, nextId: nat, id: nat, knowledge: seq<Estimate>, outcome: Outcome,
                      exposed: set<string>, wish: nat)
    requires Inv(d, ledger, nextId) && id in d.sessions && d.sessions[id].current.Some?
    requires FindItem(d.sessions[id].items, d.sessions[id].current.value.actionId).Some?
    ensures var s := d.sessions[id];
            var item := FindItem(s.items, s.current.value.actionId).value;
            Leaves(s, Advanced(s, knowledge, item.cost, outcome, exposed, wish, nextId), item, outcome, knowledge, exposed, nextId)
  {
    hide Inv, FindItem, MaterialOk, ItemsOk, HasArrived, Moved;
    var s := d.sessions[id];
    var item := FindItem(s.items, s.current.value.actionId).value;
    SessionMaterial(d, ledger, nextId, id);
    var c := Completed(s.(knowledge := knowledge), item.cost, outcome);
    MovedArrives(c, exposed, wish, nextId);
    MovedKeeps(c, exposed, wish, nextId);
    LaterRevision(Moved(c, exposed, wish, nextId), exposed, nextId);
  }

  lemma SessionMaterial(d: Database, ledger: Ledger, nextId: nat, id: nat)
    requires Inv(d, ledger, nextId) && id in d.sessions
    ensures var s := d.sessions[id];
      MaterialOk(s.goal.targets, s.version, s.concepts, s.relations, s.items) && ItemsOk(s.items) && (s.items != [] ==> s.version > 0)
  {
    assert SessionOk(d.sessions[id], nextId);
  }

  lemma LaterRevision(s: Session, exposed: set<string>, stopId: nat)
    requires HasArrived(s, exposed, stopId)
    ensures HasArrived(s.(revision := s.revision + 1), exposed, stopId)
  {
    hide MayBeOffered, OnTarget, IsFirstUnseen, IsOpen;
    var t := s.(revision := s.revision + 1);
    SameAtRevision(s, t, exposed);
    if s.current.Some? {
      var i :| IsAt(s, exposed, s.current.value, i);
      assert IsAt(t, exposed, t.current.value, i);
    }
  }

  ghost predicate CanStop(d: Database, id: nat, revision: nat, stop: Option<nat>) {
    && id in d.sessions && d.sessions[id].revision == revision
    && (stop.Some? ==> d.sessions[id].current.Some? && d.sessions[id].current.value.id == stop.value)
  }

  lemma Charged(sessions: map<nat, Session>, ledger: Ledger, nextId: nat, id: nat)
    requires LedgerOk(sessions, ledger, nextId) && id in sessions
    ensures id in ledger.charges
  {
  }

  lemma AdvancedRevision(s: Session, knowledge: seq<Estimate>, cost: real, outcome: Outcome, exposed: set<string>,
                         wish: nat, stopId: nat)
    requires s.current.Some?
    ensures Advanced(s, knowledge, cost, outcome, exposed, wish, stopId).revision == s.revision + 1
  {
    MovedKeeps(Completed(s.(knowledge := knowledge), cost, outcome), exposed, wish, stopId);
  }

  lemma FailKeeps(d: Database, ledger: Ledger, nextId: nat, i: nat)
    requires Inv(d, ledger, nextId) && i < |d.jobs| && d.jobs[i].status == Running
    ensures var jobs := SaveJob(d.jobs, d.jobs[i].(status := Failed));
            jobs == d.jobs[..i] + d.jobs[i + 1..] + [d.jobs[i].(status := Failed)] &&
            Inv(d.(jobs := jobs), ledger, nextId) && Evolves(d, d.(jobs := jobs))
  {
    JobKnown(d, ledger, nextId, i);
    JobCommit(d, ledger, nextId, i, d.jobs[i].(status := Failed));
  }

  lemma RowGone(d: Database, ledger: Ledger, nextId: nat, i: nat)
    requires Inv(d, ledger, nextId) && i < |d.jobs|
    ensures d.jobs[i] !in d.jobs[..i] + d.jobs[i + 1..]
  {
    DistinctJobs(d.jobs);
  }

  /** The rows before k have been looked at, in the snapshot. */
  ghost predicate FailedUpTo(rows: seq<Job>, jobs: seq<Job>, id: nat, k: nat) {
    && |jobs| == |rows|
    && forall j :: j in jobs <==> exists i :: 0 <= i < |rows| && if i < k then IsAfterStop(rows[i], id, j) else j == rows[i]
  }

  lemma NoneFailed(rows: seq<Job>, id: nat)
    ensures FailedUpTo(rows, rows, id, 0)
  {
  }

  lemma AllFailed(rows: seq<Job>, jobs: seq<Job>, id: nat)
    requires FailedUpTo(rows, jobs, id, |rows|)
    ensures FailsRunning(rows, jobs, id)
  {
  }

  lemma AllDistinct(d: Database, ledger: Ledger, nextId: nat)
    requires Inv(d, ledger, nextId)
    ensures DistinctIds(d.jobs)
  {
    DistinctJobs(d.jobs);
  }

  /** A row that is there once has made way for another one. */
  ghost predicate Replaces(jobs: seq<Job>, after: seq<Job>, job: Job, failed: Job) {
    |after| == |jobs| && forall j :: j in after <==> (j in jobs && j != job) || j == failed
  }

  lemma RowReplaced(jobs: seq<Job>, i: nat, after: seq<Job>, job: Job)
    requires i < |jobs| && jobs[i] == job && after == jobs[..i] + jobs[i + 1..] + [job.(status := Failed)]
    requires job !in jobs[..i] + jobs[i + 1..]
    ensures Replaces(jobs, after, job, job.(status := Failed))
  {
    var rest := jobs[..i] + jobs[i + 1..];
    assert jobs == jobs[..i] + [job] + jobs[i + 1..];
  }

  lemma FailedStep(rows: seq<Job>, jobs: seq<Job>, id: nat, k: nat)
    requires k < |rows| && DistinctIds(rows) && FailedUpTo(rows, jobs, id, k)
    ensures !(rows[k].session == id && rows[k].status == Running) ==> FailedUpTo(rows, jobs, id, k + 1)
    ensures rows[k].session == id && rows[k].status == Running ==>
      forall after :: Replaces(jobs, after, rows[k], rows[k].(status := Failed)) ==> FailedUpTo(rows, after, id, k + 1)
  {
    var job := rows[k];
    if job.session == id && job.status == Running {
      forall after | Replaces(jobs, after, job, job.(status := Failed))
        ensures FailedUpTo(rows, after, id, k + 1)
      {
        FailedRow(rows, jobs, after, id, k);
      }
    }
  }

  lemma FailedRow(rows: seq<Job>, jobs: seq<Job>, after: seq<Job>, id: nat, k: nat)
    requires k < |rows| && DistinctIds(rows) && FailedUpTo(rows, jobs, id, k)
    requires rows[k].session == id && rows[k].status == Running
    requires Replaces(jobs, after, rows[k], rows[k].(status := Failed))
    ensures FailedUpTo(rows, after, id, k + 1)
  {
    var job := rows[k];
    forall j
      ensures j in after <==> exists i :: 0 <= i < |rows| && if i < k + 1 then IsAfterStop(rows[i], id, j) else j == rows[i]
    {
      if j in jobs && j != job {
        var i :| 0 <= i < |rows| && if i < k then IsAfterStop(rows[i], id, j) else j == rows[i];
        assert i != k;
        assert if i < k + 1 then IsAfterStop(rows[i], id, j) else j == rows[i];
      }
      if j == job.(status := Failed) {
        assert IsAfterStop(rows[k], id, j);
      }
      if i :| 0 <= i < |rows| && if i < k + 1 then IsAfterStop(rows[i], id, j) else j == rows[i] {
        if i != k {
          assert if i < k then IsAfterStop(rows[i], id, j) else j == rows[i];
          assert rows[i].id != rows[k].id by { if i < k { assert rows[i].id != rows[k].id; } else { assert rows[k].id != rows[i].id; } }
        }
      }
    }
  }

  /** One row of the loop that ends running jobs. */
  lemma FailRow(d: Database, jobs: seq<Job>, ledger: Ledger, nextId: nat, id: nat, k: nat)
    requires Inv(d, ledger, nextId) && Inv(d.(jobs := jobs), ledger, nextId) && Evolves(d, d.(jobs := jobs))
    requires k < |d.jobs| && FailedUpTo(d.jobs, jobs, id, k)
    ensures var job := d.jobs[k];
      var after := if job.session == id && job.status == Running then SaveJob(jobs, job.(status := Failed)) else jobs;
      Inv(d.(jobs := after), ledger, nextId) && Evolves(d, d.(jobs := after)) && FailedUpTo(d.jobs, after, id, k + 1)
  {
    hide Inv, Evolves, SaveJob, FailedUpTo;
    var job := d.jobs[k];
    AllDistinct(d, ledger, nextId);
    FailedStep(d.jobs, jobs, id, k);
    if job.session == id && job.status == Running {
      StillThere(d.jobs, jobs, id, k);
      var before := d.(jobs := jobs);
      var i :| 0 <= i < |jobs| && jobs[i] == job;
      FailKeeps(before, ledger, nextId, i);
      RowGone(before, ledger, nextId, i);
      var after := SaveJob(jobs, job.(status := Failed));
      EvolvesTrans(d, before, d.(jobs := after));
      RowReplaced(jobs, i, after, job);
    }
  }

  lemma StillThere(rows: seq<Job>, jobs: seq<Job>, id: nat, k: nat)
    requires k < |rows| && FailedUpTo(rows, jobs, id, k)
    ensures rows[k] in jobs
  {
  }

  lemma NoneRunningNow(rows: seq<Job>, jobs: seq<Job>, id: nat)
    requires FailsRunning(rows, jobs, id)
    ensures forall i :: 0 <= i < |jobs| && jobs[i].session == id ==> jobs[i].status != Running
  {
    forall i | 0 <= i < |jobs| && jobs[i].session == id
      ensures jobs[i].status != Running
    {
      assert jobs[i] in jobs;
      var k :| 0 <= k < |rows| && IsAfterStop(rows[k], id, jobs[i]);
    }
  }

  lemma StopKeeps(d: Database, m: Database, ledger: Ledger, nextId: nat, id: nat, refreshed: seq<Estimate>, what: What)
    requires Inv(m, ledger, nextId) && Evolves(d, m) && m == d.(jobs := m.jobs) && id in d.sessions
    requires forall i :: 0 <= i < |m.jobs| && m.jobs[i].session == id ==> m.jobs[i].status != Running
    requires !what.AnsweredEvent?
    ensures var t := Ended(d.sessions[id], refreshed);
            var e := Save(m, id, t, what);
            Inv(e, ledger, nextId) && Evolves(d, e) && Disciplined(d, e, id, d.sessions[id].revision)
  {
    hide LedgerOk, SessionOk, Inv, Evolves, SessionEvolves;
    InvParts(m, ledger, nextId, id);
    var s := d.sessions[id];
    var t := Ended(s, refreshed);
    EndedOk(s, refreshed, nextId);
    SameLedger(m.sessions, ledger, nextId, id, t, nextId);
    SessionCommit(m, ledger, nextId, id, t, what, ledger, nextId);
    EvolvesTrans(d, m, Save(m, id, t, what));
  }

  // ---- prepare ---------------------------------------------------------------------------

  function FindJob(jobs: seq<Job>, id: nat): (r: Option<Job>)
    ensures r.Some? ==> r.value in jobs && r.value.id == id
    ensures r.None? ==> forall i :: 0 <= i < |jobs| ==> jobs[i].id != id
  {
    if jobs == [] then None
    else if jobs[|jobs| - 1].id == id then Some(jobs[|jobs| - 1])
    else FindJob(jobs[..|jobs| - 1], id)
  }

  function FindConcept(concepts: seq<Concept>, id: string): Option<Concept> {
    if concepts == [] then None
    else if concepts[0].id == id then Some(concepts[0])
    else FindConcept(concepts[1..], id)
  }

  function ConceptIds(concepts: seq<Concept>): set<string> {
    set c | c in concepts :: c.id
  }

  /** The definition of a goal's own concept is frozen once the session has a curriculum with it. */
  predicate Frozen(s: Session, c: Concept) {
    s.version > 0 && c.id in TargetConcepts(s.goal.targets) && FindConcept(s.concepts, c.id).Some? ==>
      var p := FindConcept(s.concepts, c.id).value;
      p.version == c.version && p.definition == c.definition
  }

  /** No other definition is stored for this version of the concept. */
  predicate Agrees(table: map<ConceptKey, string>, repository: string, c: Concept) {
    var key := ConceptKey(repository, c.id, c.version);
    key in table ==> table[key] == c.definition
  }

  predicate ConceptOk(table: map<ConceptKey, string>, s: Session, c: Concept) {
    !Blank(c.id) && !Blank(c.name) && !Blank(c.definition) && c.version >= 1 && Frozen(s, c) &&
    Agrees(table, s.goal.repositoryId, c)
  }

  ghost predicate ConceptsOk(table: map<ConceptKey, string>, s: Session, concepts: seq<Concept>) {
    && (forall i :: 0 <= i < |concepts| ==> ConceptOk(table, s, concepts[i]))
    && (forall i, j :: 0 <= i < j < |concepts| ==> concepts[i].id != concepts[j].id)
  }

  /** The table afterwards: nothing stored is changed, and every concept has its definition. */
  ghost predicate ConceptsStored(before: map<ConceptKey, string>, after: map<ConceptKey, string>, repository: string,
                                 concepts: seq<Concept>) {
    && (forall k :: k in before ==> k in after && after[k] == before[k])
    && (forall i :: 0 <= i < |concepts| ==>
          var key := ConceptKey(repository, concepts[i].id, concepts[i].version);
          key in after && after[key] == concepts[i].definition)
    && (forall k :: k in after ==> k in before || (k.repository == repository && k.id in ConceptIds(concepts)))
  }

  method CheckConcepts(before: map<ConceptKey, string>, s: Session, concepts: seq<Concept>)
      returns (ok: bool, table: map<ConceptKey, string>, ids: set<string>)
    ensures ok <==> ConceptsOk(before, s, concepts)
    ensures ok ==> ids == ConceptIds(concepts) && ConceptsStored(before, table, s.goal.repositoryId, concepts)
  {
    hide Blank, Frozen, ConceptsOk, ConceptsStored, ConceptIds;
    assert concepts[..0] == [];
    NothingChecked(before, s);
    ok, table, ids := true, before, {};
    for i := 0 to |concepts|
      invariant ConceptsOk(before, s, concepts[..i])
      invariant ids == ConceptIds(concepts[..i])
      invariant ConceptsStored(before, table, s.goal.repositoryId, concepts[..i])
    {
      var c := concepts[i];
      var key := ConceptKey(s.goal.repositoryId, c.id, c.version);
      OneMoreId(concepts, i);
      OneMoreChecked(before, s, concepts, i);
      if Blank(c.id) || Blank(c.name) || Blank(c.definition) || c.version < 1 || c.id in ids { return false, table, ids; }
      if !Frozen(s, c) { return false, table, ids; }
      OneMoreAgrees(before, table, s.goal.repositoryId, concepts[..i], c);
      ids := ids + {c.id};
      if key in table && table[key] != c.definition { return false, table, ids; }
      OneMoreStored(before, table, s.goal.repositoryId, concepts[..i], c);
      table := if key in table then table else table[key := c.definition];
    }
    assert concepts[..|concepts|] == concepts;
  }

  lemma NothingChecked(before: map<ConceptKey, string>, s: Session)
    ensures ConceptsOk(before, s, []) && ConceptIds([]) == {} && ConceptsStored(before, before, s.goal.repositoryId, [])
  {
  }

  lemma OneMoreId(concepts: seq<Concept>, i: nat)
    requires i < |concepts|
    ensures concepts[..i + 1] == concepts[..i] + [concepts[i]]
    ensures ConceptIds(concepts[..i + 1]) == ConceptIds(concepts[..i]) + {concepts[i].id}
  {
  }

  lemma OneMoreChecked(before: map<ConceptKey, string>, s: Session, concepts: seq<Concept>, i: nat)
    requires i < |concepts| && ConceptsOk(before, s, concepts[..i])
    ensures ConceptsOk(before, s, concepts[..i + 1]) <==>
            ConceptOk(before, s, concepts[i]) && concepts[i].id !in ConceptIds(concepts[..i])
    ensures ConceptsOk(before, s, concepts) ==> ConceptsOk(before, s, concepts[..i + 1])
  {
    hide ConceptOk;
    var done, c := concepts[..i], concepts[i];
    var more := concepts[..i + 1];
    assert forall k :: 0 <= k < i ==> more[k] == done[k] == concepts[k];
    if c.id in ConceptIds(done) {
      var k :| 0 <= k < |done| && done[k].id == c.id;
      assert more[k].id == more[i].id;
    }
  }

  lemma OneMoreAgrees(before: map<ConceptKey, string>, table: map<ConceptKey, string>, repository: string,
                      done: seq<Concept>, c: Concept)
    requires ConceptsStored(before, table, repository, done) && c.id !in ConceptIds(done)
    ensures Agrees(before, repository, c) <==> Agrees(table, repository, c)
  {
  }

  lemma OneMoreStored(before: map<ConceptKey, string>, table: map<ConceptKey, string>, repository: string,
                      done: seq<Concept>, c: Concept)
    requires ConceptsStored(before, table, repository, done) && Agrees(table, repository, c)
    ensures var key := ConceptKey(repository, c.id, c.version);
            ConceptsStored(before, if key in table then table else table[key := c.definition], repository, done + [c])
  {
    var key := ConceptKey(repository, c.id, c.version);
    var after := if key in table then table else table[key := c.definition];
    var more := done + [c];
    assert ConceptIds(more) == ConceptIds(done) + {c.id} by { assert more[..|done|] == done; OneMoreId(more, |done|); }
    forall i | 0 <= i < |more|
      ensures var k := ConceptKey(repository, more[i].id, more[i].version); k in after && after[k] == more[i].definition
    {
      if i < |done| { assert more[i] == done[i]; }
    }
  }

  /** The checks on actions: different ids, known concepts, positive costs. */
  predicate ItemsAccepted(items: seq<Item>, ids: set<string>) {
    && (forall i, j :: 0 <= i < j < |items| ==> items[i].id != items[j].id)
    && forall i :: 0 <= i < |items| ==>
         && !Blank(items[i].id) && items[i].conceptId in ids && items[i].cost > 0.0
         && forall e :: e in items[i].effects ==>
              e.conceptId in ids && forall p :: p in e.prerequisites ==> p in ids
  }

  predicate RelationsAccepted(relations: seq<Relation>, ids: set<string>) {
    forall x :: x in relations ==> x.from in ids && x.to in ids && x.from != x.to
  }

  /** The job is running for exactly this revision of its session. */
  ghost predicate Matching(job: Job, sessions: map<nat, Session>) {
    job.status == Running && job.session in sessions && sessions[job.session].revision == job.revision
  }

  ghost predicate JobAllows(jobs: seq<Job>, jobId: nat, id: nat, revision: nat, sources: nat) {
    var job := FindJob(jobs, jobId);
    job.Some? && job.value.session == id && job.value.revision == revision && job.value.status == Running &&
    job.value.sources == sources
  }

  ghost predicate CanPrepare(d: Database, id: nat, revision: nat, c: Curriculum, jobId: Option<nat>, sources: nat) {
    && id in d.sessions
    && var s := d.sessions[id];
       && s.revision == revision && s.status in {Preparing, GenerationNeeded}
       && (jobId.Some? ==> JobAllows(d.jobs, jobId.value, id, revision, sources))
       && c.version == s.version + 1 && 1 <= |c.concepts| <= 8 && 1 <= |c.items| <= 24
       && ConceptsOk(d.concepts, s, c.concepts)
       && TargetConcepts(s.goal.targets) <= ConceptIds(c.concepts)
       && ItemsAccepted(c.items, ConceptIds(c.concepts)) && RelationsAccepted(c.relations, ConceptIds(c.concepts))
  }

  lemma {:induction false} FirstConcept(concepts: seq<Concept>, id: string)
    ensures FindConcept(concepts, id).None? ==> forall k :: !IsConcept(concepts, id, k)
    ensures FindConcept(concepts, id).Some? ==>
      exists k :: IsConcept(concepts, id, k) && concepts[k] == FindConcept(concepts, id).value
    ensures forall k, l :: IsConcept(concepts, id, k) && IsConcept(concepts, id, l) ==> k == l
  {
    if concepts != [] {
      var rest := concepts[1..];
      FirstConcept(rest, id);
      assert forall j :: 0 <= j < |rest| ==> rest[j] == concepts[j + 1];
      if concepts[0].id == id {
        assert IsConcept(concepts, id, 0);
      } else {
        forall k
          ensures IsConcept(concepts, id, k) <==> k > 0 && IsConcept(rest, id, k - 1)
        {
          if k > 0 && IsConcept(rest, id, k - 1) {
            forall j | 0 <= j < k
              ensures concepts[j].id != id
            {
              if j > 0 { assert rest[j - 1].id != id; }
            }
          }
        }
        if k :| IsConcept(rest, id, k) && rest[k] == FindConcept(rest, id).value {
          assert IsConcept(concepts, id, k + 1);
        }
      }
    }
  }

  lemma FrozenIff(s: Session, c: Concept)
    ensures Frozen(s, c) <==>
      (s.version > 0 && (exists t :: t in s.goal.targets && t.conceptId == c.id) ==>
         forall k :: IsConcept(s.concepts, c.id, k) ==> s.concepts[k].version == c.version && s.concepts[k].definition == c.definition)
  {
    hide FindConcept, IsConcept;
    FirstConcept(s.concepts, c.id);
    assert c.id in TargetConcepts(s.goal.targets) <==> exists t :: t in s.goal.targets && t.conceptId == c.id;
  }

  lemma ConceptFitsIff(d: Database, s: Session, c: Concept)
    ensures ConceptOk(d.concepts, s, c) <==> ConceptFits(d, s, c)
  {
    hide Frozen, Blank, HasText, IsConcept;
    FrozenIff(s, c);
    BlankIff(c.id);
    BlankIff(c.name);
    BlankIff(c.definition);
  }

  lemma KnownIff(concepts: seq<Concept>, id: string)
    ensures id in ConceptIds(concepts) <==> Known(concepts, id)
  {
  }

  lemma ItemsFitIff(concepts: seq<Concept>, items: seq<Item>, relations: seq<Relation>)
    ensures ItemsAccepted(items, ConceptIds(concepts)) <==>
      (forall i :: 0 <= i < |items| ==> ItemFits(concepts, items[i])) &&
      (forall i, j :: 0 <= i < j < |items| ==> items[i].id != items[j].id)
    ensures RelationsAccepted(relations, ConceptIds(concepts)) <==> forall r :: r in relations ==> RelationFits(concepts, r)
  {
    hide Blank, HasText, ConceptIds, Known;
    forall id
      ensures id in ConceptIds(concepts) <==> Known(concepts, id)
    {
      KnownIff(concepts, id);
    }
    forall i | 0 <= i < |items|
      ensures Blank(items[i].id) <==> !HasText(items[i].id)
    {
      BlankIff(items[i].id);
    }
  }

  lemma TargetsFitIff(s: Session, concepts: seq<Concept>)
    ensures TargetConcepts(s.goal.targets) <= ConceptIds(concepts) <==> forall t :: t in s.goal.targets ==> Known(concepts, t.conceptId)
  {
    hide ConceptIds, Known;
    forall id
      ensures id in ConceptIds(concepts) <==> Known(concepts, id)
    {
      KnownIff(concepts, id);
    }
    assert forall t :: t in s.goal.targets ==> t.conceptId in TargetConcepts(s.goal.targets);
  }

  /** The row with the id, of which there is at most one. */
  lemma JobRow(d: Database, ledger: Ledger, nextId: nat, id: nat)
    requires Inv(d, ledger, nextId)
    ensures forall j :: j in d.jobs && j.id == id ==> FindJob(d.jobs, id) == Some(j)
  {
    hide Inv, FindJob, DistinctIds;
    AllDistinct(d, ledger, nextId);
    forall j | j in d.jobs && j.id == id
      ensures FindJob(d.jobs, id) == Some(j)
    {
      SameRow(d.jobs, j, FindJob(d.jobs, id).value);
    }
  }

  lemma SameRow(jobs: seq<Job>, a: Job, b: Job)
    requires DistinctIds(jobs) && a in jobs && b in jobs && a.id == b.id
    ensures a == b
  {
    var x :| 0 <= x < |jobs| && jobs[x] == a;
    var y :| 0 <= y < |jobs| && jobs[y] == b;
    assert x == y;
  }

  lemma JobFitsIff(d: Database, ledger: Ledger, nextId: nat, jobId: nat, id: nat, revision: nat, sources: nat)
    requires Inv(d, ledger, nextId)
    ensures JobAllows(d.jobs, jobId, id, revision, sources) <==>
      exists j :: j in d.jobs && j.id == jobId && j.session == id && j.revision == revision && j.status == Running && j.sources == sources
  {
    hide Inv, FindJob;
    JobRow(d, ledger, nextId, jobId);
  }

  lemma CurriculumFitsIff(d: Database, ledger: Ledger, nextId: nat, id: nat, revision: nat, c: Curriculum, jobId: Option<nat>,
                          sources: nat)
    requires Inv(d, ledger, nextId)
    ensures CanPrepare(d, id, revision, c, jobId, sources) <==> CurriculumFits(d, id, revision, c, jobId, sources)
  {
    hide Inv, ConceptFits, ConceptOk, ItemFits, RelationFits, Known, ConceptIds, TargetConcepts, ItemsAccepted, RelationsAccepted,
      JobAllows;
    if id in d.sessions {
      var s := d.sessions[id];
      if jobId.Some? { JobFitsIff(d, ledger, nextId, jobId.value, id, revision, sources); }
      forall i | 0 <= i < |c.concepts|
        ensures ConceptOk(d.concepts, s, c.concepts[i]) <==> ConceptFits(d, s, c.concepts[i])
      {
        ConceptFitsIff(d, s, c.concepts[i]);
      }
      TargetsFitIff(s, c.concepts);
      ItemsFitIff(c.concepts, c.items, c.relations);
    }
  }

  /** The session after Prepare, in full. */
  lemma PrepareInstalls(d: Database, ledger: Ledger, nextId: nat, id: nat, c: Curriculum, knowledge: seq<Estimate>,
                        exposed: set<string>, wish: nat)
    requires Inv(d, ledger, nextId) && id in d.sessions && c.version == d.sessions[id].version + 1 && ItemsOk(c.items)
    requires MaterialOk(d.sessions[id].goal.targets, c.version, c.concepts, c.relations, c.items)
    ensures Installs(d.sessions[id], Moved(WithCurriculum(d.sessions[id], c, knowledge), exposed, wish, nextId), c, knowledge,
                     exposed, nextId)
  {
    hide Inv, MaterialOk, ItemsOk, HasArrived, Moved;
    var m := WithCurriculum(d.sessions[id], c, knowledge);
    MovedArrives(m, exposed, wish, nextId);
    MovedKeeps(m, exposed, wish, nextId);
  }

  lemma JobReady(d: Database, ledger: Ledger, nextId: nat, jobId: Option<nat>)
    requires Inv(d, ledger, nextId)
    ensures jobId.None? ==> Settled(d.jobs, jobId) == d.jobs
    ensures jobId.Some? && FindJob(d.jobs, jobId.value).Some? ==> Settles(d.jobs, Settled(d.jobs, jobId), jobId.value, Ready)
  {
    AllDistinct(d, ledger, nextId);
    hide Inv, FindJob;
    if jobId.Some? && FindJob(d.jobs, jobId.value).Some? {
      var job := FindJob(d.jobs, jobId.value).value;
      var i :| 0 <= i < |d.jobs| && d.jobs[i] == job;
      WithoutOne(d.jobs, i);
    }
  }

  /** The job table with the job ready. */
  function Settled(jobs: seq<Job>, jobId: Option<nat>): seq<Job> {
    if jobId.None? || FindJob(jobs, jobId.value).None? then jobs
    else SaveJob(jobs, FindJob(jobs, jobId.value).value.(status := Ready))
  }

  lemma AcceptedItems(items: seq<Item>, ids: set<string>)
    requires ItemsAccepted(items, ids)
    ensures ItemsOk(items)
  {
  }

  lemma AcceptedMaterial(s: Session, c: Curriculum, ids: set<string>)
    requires ids == ConceptIds(c.concepts) && |c.concepts| <= 8 && TargetConcepts(s.goal.targets) <= ids
    requires ItemsAccepted(c.items, ids) && RelationsAccepted(c.relations, ids)
    ensures MaterialOk(s.goal.targets, c.version, c.concepts, c.relations, c.items)
  {
    forall id | id in ids
      ensures Known(c.concepts, id)
    {
    }
    forall t | t in s.goal.targets
      ensures t.conceptId in ids
    {
      assert t.conceptId in TargetConcepts(s.goal.targets);
    }
  }

  lemma NewConcepts(d: Database, ledger: Ledger, nextId: nat, table: map<ConceptKey, string>)
    requires Inv(d, ledger, nextId) && forall k :: k in d.concepts ==> k in table && table[k] == d.concepts[k]
    ensures Inv(d.(concepts := table), ledger, nextId) && Evolves(d, d.(concepts := table))
  {
    EvolvesRefl(d);
    hide SessionsOk, LedgerOk, JobsOk, EventsOk, AnswersOk, JobSurvives;
  }

  lemma PrepareKeeps(d: Database, ledger: Ledger, nextId: nat, id: nat, c: Curriculum, jobId: Option<nat>,
                     knowledge: seq<Estimate>, exposed: set<string>, wish: nat, table: map<ConceptKey, string>,
                     ids: set<string>)
    requires Inv(d, ledger, nextId) && id in d.sessions && d.sessions[id].status in {Preparing, GenerationNeeded}
    requires c.version == d.sessions[id].version + 1 && ItemsAccepted(c.items, ids)
    requires MaterialOk(d.sessions[id].goal.targets, c.version, c.concepts, c.relations, c.items)
    requires forall k :: k in d.concepts ==> k in table && table[k] == d.concepts[k]
    requires jobId.Some? ==> exists sources :: JobAllows(d.jobs, jobId.value, id, d.sessions[id].revision, sources)
    ensures var t := Moved(WithCurriculum(d.sessions[id], c, knowledge), exposed, wish, nextId);
            var e := Save(d, id, t, PreparedEvent(c.version, jobId)).(concepts := table, jobs := Settled(d.jobs, jobId));
            Inv(e, ledger, nextId + 1) && Evolves(d, e) && Disciplined(d, e, id, d.sessions[id].revision)
  {
    hide LedgerOk, SessionOk, Inv, Evolves, SessionEvolves, Moved, WithCurriculum, ItemsAccepted, FindJob, SaveJob, MaterialOk;
    var s := d.sessions[id];
    var what := PreparedEvent(c.version, jobId);
    InvParts(d, ledger, nextId, id);
    AcceptedItems(c.items, ids);
    InstalledOk(s, c, knowledge, exposed, wish, nextId);
    var t := Moved(WithCurriculum(s, c, knowledge), exposed, wish, nextId);
    SameLedger(d.sessions, ledger, nextId, id, t, nextId + 1);
    SessionCommit(d, ledger, nextId, id, t, what, ledger, nextId + 1);
    var e := Save(d, id, t, what);
    NewConcepts(e, ledger, nextId + 1, table);
    var e1 := e.(concepts := table);
    EvolvesTrans(d, e, e1);
    if jobId.Some? {
      var job := FindJob(d.jobs, jobId.value).value;
      assert job in d.jobs;
      var i :| 0 <= i < |d.jobs| && d.jobs[i] == job;
      JobKnown(d, ledger, nextId, i);
      JobCommit(e1, ledger, nextId + 1, i, job.(status := Ready));
      EvolvesTrans(d, e1, e1.(jobs := SaveJob(d.jobs, job.(status := Ready))));
    }
  }

  // ---- preparation jobs ------------------------------------------------------------------

  /** The last job of the session's curriculum version is failed if it is still running. */
  function FailPrevious(jobs: seq<Job>, id: nat, version: nat): seq<Job> {
    var previous := LastJob(jobs, id, Some(version));
    if previous.Some? && previous.value.status == Running then SaveJob(jobs, previous.value.(status := Failed)) else jobs
  }

  /** The last job for the session's curriculum version. */
  function Previous(d: Database, id: nat): Option<Job>
    requires id in d.sessions
  {
    LastJob(d.jobs, id, Some(d.sessions[id].version))
  }

  ghost predicate MayAsk(d: Database, id: nat, provider: Provider, owner: int) {
    owner > 0 && id in d.sessions && d.sessions[id].status in {Preparing, GenerationNeeded, Active} && provider != OtherProvider
  }

  /** The job that is running for the session's present revision is young enough, its owner is alive, and the caller asks
      for this revision or for the one before the job. */
  ghost predicate Joinable(d: Database, id: nat, revision: nat, now: int, ownerAlive: bool)
    requires id in d.sessions
  {
    var previous := Previous(d, id);
    previous.Some? && previous.value.status == Running && previous.value.revision == d.sessions[id].revision &&
    (previous.value.revision == revision || previous.value.revision - 1 == revision) &&
    now - previous.value.created < 600_000 && ownerAlive
  }

  /** The session's last job is over, and the caller asks for its revision or for the one before. */
  ghost predicate Shareable(d: Database, id: nat, revision: nat) {
    var last := LastJob(d.jobs, id, None);
    last.Some? && last.value.status != Running && (last.value.revision == revision || last.value.revision - 1 == revision)
  }

  /** There is no outcome to share, and the caller is up to date. */
  ghost predicate NothingToShare(d: Database, id: nat, revision: nat, now: int, ownerAlive: bool)
    requires id in d.sessions
  {
    !Joinable(d, id, revision, now, ownerAlive) && !Shareable(d, id, revision) && d.sessions[id].revision == revision
  }

  /** What the answer is made from if no job is started: the previous job, or a blank one that is not stored. */
  function PreviousOrBlank(d: Database, id: nat, revision: nat, provider: Provider, owner: int, now: int, blankId: nat,
                           sources: nat): Job
    requires id in d.sessions
  {
    match Previous(d, id)
    case Some(job) => job
    case None => Job(blankId, id, revision, Ready, 0, provider, now, owner, d.sessions[id].version, sources)
  }

  lemma LastIs(jobs: seq<Job>, id: nat, base: Option<nat>, i: nat)
    requires IsLast(jobs, id, base, i)
    ensures LastJob(jobs, id, base) == Some(jobs[i])
  {
    var at := LastJobAt(jobs, id, base);
    hide LastJob;
    assert at == i;
  }

  /** The rows of a session are counted one by one. */
  lemma {:induction false} NumberOfJobs(jobs: seq<Job>, id: nat)
    ensures |JobsOf(jobs, id)| == |RowsOf(jobs, id)|
  {
    if jobs == [] {
      assert RowsOf(jobs, id) == {};
    } else {
      var n := |jobs| - 1;
      NumberOfJobs(jobs[..n], id);
      RowsStep(jobs, id);
    }
  }

  lemma RowsStep(jobs: seq<Job>, id: nat)
    requires jobs != []
    ensures var n := |jobs| - 1;
      |RowsOf(jobs, id)| == |RowsOf(jobs[..n], id)| + if jobs[n].session == id then 1 else 0
  {
    var n := |jobs| - 1;
    assert RowsOf(jobs, id) == RowsOf(jobs[..n], id) + if jobs[n].session == id then {n} else {};
  }

  lemma OutcomeOfPrevious(d: Database, id: nat, revision: nat, provider: Provider, owner: int, now: int, blankId: nat, sources: nat)
    requires id in d.sessions
    ensures var s := d.sessions[id];
      var job := PreviousOrBlank(d, id, revision, provider, owner, now, blankId, sources);
      var blank := Job(blankId, id, revision, Ready, 0, provider, now, owner, s.version, sources);
      IsOutcome(d.jobs, id, s.version, blank, Ready, job.(status := Ready)) &&
      IsOutcome(d.jobs, id, s.version, blank, Failed, job.(status := Failed))
  {
    var version := d.sessions[id].version;
    var at := LastJobAt(d.jobs, id, Some(version));
    hide LastJob;
    forall i: nat | IsLast(d.jobs, id, Some(version), i)
      ensures LastJob(d.jobs, id, Some(version)) == Some(d.jobs[i])
    {
      LastIs(d.jobs, id, Some(version), i);
    }
  }

  lemma FailPreviousMeans(d: Database, ledger: Ledger, nextId: nat, id: nat, version: nat)
    requires Inv(d, ledger, nextId)
    ensures FailsLast(d.jobs, FailPrevious(d.jobs, id, version), id, version)
  {
    hide Inv, LastJob, SaveJob, DistinctIds;
    AllDistinct(d, ledger, nextId);
    var at := LastJobAt(d.jobs, id, Some(version));
    if i: nat :| IsLast(d.jobs, id, Some(version), i) && d.jobs[i].status == Running {
      LastIs(d.jobs, id, Some(version), i);
      RowToEnd(d.jobs, i, d.jobs[i].(status := Failed));
    }
  }

  lemma RowToEnd(jobs: seq<Job>, i: nat, job: Job)
    requires DistinctIds(jobs) && i < |jobs| && job.id == jobs[i].id
    ensures SaveJob(jobs, job) == jobs[..i] + jobs[i + 1..] + [job]
  {
    hide DistinctIds;
    WithoutOne(jobs, i);
  }

  lemma NextAttempt(jobs: seq<Job>, id: nat, version: nat)
    ensures var previous := LastJob(jobs, id, Some(version));
      IsNextAttempt(jobs, id, version, if previous.Some? then previous.value.attempt + 1 else 1)
  {
    var at := LastJobAt(jobs, id, Some(version));
    hide LastJob;
    forall i: nat | IsLast(jobs, id, Some(version), i)
      ensures LastJob(jobs, id, Some(version)) == Some(jobs[i])
    {
      LastIs(jobs, id, Some(version), i);
    }
  }

  /** What becomes of a request. */
  datatype Verdict = Refuse(reason: Refusal) | HandOut(job: Job) | GiveUp(job: Job) | StartJob

  /** The checks of requestPreparation, in their order. */
  method Judge(d: Database, id: nat, revision: nat, provider: Provider, owner: int, now: int, ownerAlive: bool,
               blankId: nat, sources: nat) returns (v: Verdict)
    ensures !v.Refuse? ==> MayAsk(d, id, provider, owner)
    ensures MayAsk(d, id, provider, owner) && Joinable(d, id, revision, now, ownerAlive) ==> v == HandOut(Previous(d, id).value)
    ensures MayAsk(d, id, provider, owner) && !Joinable(d, id, revision, now, ownerAlive) && Shareable(d, id, revision) ==>
      v == HandOut(LastJob(d.jobs, id, None).value)
    ensures MayAsk(d, id, provider, owner) && !Joinable(d, id, revision, now, ownerAlive) && !Shareable(d, id, revision) ==>
      (v.Refuse? <==> d.sessions[id].revision != revision) &&
      (v.HandOut? ==> d.sessions[id].status == Active) && (v.StartJob? <==> CanRun(d, id, revision))
    ensures v.GiveUp? ==> Spent(d, id, revision) && d.sessions[id].status in {Preparing, GenerationNeeded}
    ensures v.StartJob? ==> CanRun(d, id, revision)
    ensures MayAsk(d, id, provider, owner) && NothingToShare(d, id, revision, now, ownerAlive) && !CanRun(d, id, revision) ==>
      var job := PreviousOrBlank(d, id, revision, provider, owner, now, blankId, sources);
      v == if d.sessions[id].status == Active then HandOut(job.(status := Ready)) else GiveUp(job.(status := Failed))
  {
    hide LastJob, JobsOf;
    if owner <= 0 { return Refuse(InvalidOwner); }
    if id !in d.sessions { return Refuse(NoSession); }
    var s := d.sessions[id];
    if s.status !in {Preparing, GenerationNeeded, Active} { return Refuse(SessionEnded); }
    if provider == OtherProvider { return Refuse(UnknownProvider); }
    var jobs := JobsOf(d.jobs, id);
    var previous := LastJob(d.jobs, id, Some(s.version));
    if previous.Some? && previous.value.status == Running && previous.value.revision == s.revision &&
       (previous.value.revision == revision || previous.value.revision - 1 == revision) &&
       now - previous.value.created < 600_000 && ownerAlive {
      return HandOut(previous.value);
    }
    var last := LastJob(d.jobs, id, None);
    if last.Some? && last.value.status != Running && (last.value.revision == revision || last.value.revision - 1 == revision) {
      return HandOut(last.value);
    }
    if s.revision != revision { return Refuse(StaleRevision); }
    var job := if previous.Some? then previous.value
               else Job(blankId, id, revision, Ready, 0, provider, now, owner, s.version, sources);
    if s.status == Active { return HandOut(job.(status := Ready)); }
    if |jobs| >= 3 || s.version >= 2 || (previous.Some? && previous.value.attempt >= 2) {
      return GiveUp(job.(status := Failed));
    }
    return StartJob;
  }

  /** No further job is allowed. */
  ghost predicate Spent(d: Database, id: nat, revision: nat) {
    && id in d.sessions && d.sessions[id].revision == revision
    && var previous := LastJob(d.jobs, id, Some(d.sessions[id].version));
       |JobsOf(d.jobs, id)| >= 3 || d.sessions[id].version >= 2 || (previous.Some? && previous.value.attempt >= 2)
  }

  /** A new job is allowed: the session waits for material at this revision, and the limits are not reached. */
  ghost predicate CanRun(d: Database, id: nat, revision: nat) {
    id in d.sessions && d.sessions[id].status in {Preparing, GenerationNeeded} && d.sessions[id].revision == revision &&
    !Spent(d, id, revision)
  }

  function GivenUp(d: Database, id: nat): Database
    requires id in d.sessions
  {
    var s := d.sessions[id];
    var e := d.(jobs := FailPrevious(d.jobs, id, s.version));
    if s.status == Preparing then Save(e, id, Waiting(s, GenerationNeeded), ExhaustedEvent) else e
  }

  function NewJob(d: Database, id: nat, jobId: nat, provider: Provider, now: int, owner: int, sources: nat): Job
    requires id in d.sessions
  {
    var s := d.sessions[id];
    var previous := LastJob(d.jobs, id, Some(s.version));
    Job(jobId, id, s.revision + 1, Running, if previous.Some? then previous.value.attempt + 1 else 1, provider, now,
        owner, s.version, sources)
  }

  function WithFailure(d: Database, job: Job): Database
    requires job.session in d.sessions
  {
    var s := d.sessions[job.session];
    var e := d.(jobs := SaveJob(d.jobs, job.(status := Failed)));
    if s.revision == job.revision then Save(e, job.session, Waiting(s, GenerationNeeded), FailedEvent(job.id)) else e
  }

  /** Failing the previous job leaves its rivals as earlier attempts, all of them over. */
  lemma FailPreviousKeeps(d: Database, ledger: Ledger, nextId: nat, id: nat)
    requires Inv(d, ledger, nextId) && id in d.sessions
    ensures var version := d.sessions[id].version;
            var previous := LastJob(d.jobs, id, Some(version));
            var jobs := FailPrevious(d.jobs, id, version);
            Inv(d.(jobs := jobs), ledger, nextId) && Evolves(d, d.(jobs := jobs)) &&
            |JobsOf(jobs, id)| == |JobsOf(d.jobs, id)| &&
            forall i :: 0 <= i < |jobs| && jobs[i].session == id && jobs[i].baseVersion == version ==>
              jobs[i].status != Running && previous.Some? && jobs[i].attempt <= previous.value.attempt
  {
    hide Inv, Evolves, LastJob, SaveJob, JobsOf;
    var version := d.sessions[id].version;
    var previous := LastJob(d.jobs, id, Some(version));
    var at := LastJobAt(d.jobs, id, Some(version));
    Unchanged(d, 0, 0);
    assert d.(jobs := d.jobs) == d;
    if previous.Some? {
      EarlierRivals(d, ledger, nextId, id, version, at);
      if previous.value.status == Running {
        FailKeeps(d, ledger, nextId, at);
        JobsOfSaved(d.jobs, at, previous.value.(status := Failed), id);
        var jobs := FailPrevious(d.jobs, id, version);
        forall i | 0 <= i < |jobs| && jobs[i].session == id && jobs[i].baseVersion == version
          ensures jobs[i].status != Running && jobs[i].attempt <= previous.value.attempt
        {
          if i < |jobs| - 1 { assert jobs[i] == d.jobs[if i < at then i else i + 1]; }
        }
      }
    } else {
      forall i | 0 <= i < |d.jobs|
        ensures d.jobs[i].session != id || d.jobs[i].baseVersion != version
      {
        assert !Chosen(d.jobs[i], id, Some(version));
      }
    }
  }

  lemma EarlierRivals(d: Database, ledger: Ledger, nextId: nat, id: nat, version: nat, at: nat)
    requires Inv(d, ledger, nextId) && IsLast(d.jobs, id, Some(version), at)
    ensures forall i :: 0 <= i < |d.jobs| && d.jobs[i].session == id && d.jobs[i].baseVersion == version ==>
              d.jobs[i].attempt <= d.jobs[at].attempt && (i != at ==> d.jobs[i].status != Running)
  {
    forall i | 0 <= i < |d.jobs| && d.jobs[i].session == id && d.jobs[i].baseVersion == version && i != at
      ensures d.jobs[i].attempt <= d.jobs[at].attempt && d.jobs[i].status != Running
    {
      assert Chosen(d.jobs[i], id, Some(version));
      assert i < at;
      assert PairOk(d.jobs[i], d.jobs[at]);
    }
  }

  lemma GiveUpKeeps(d: Database, ledger: Ledger, nextId: nat, id: nat)
    requires Inv(d, ledger, nextId) && id in d.sessions && d.sessions[id].status in {Preparing, GenerationNeeded}
    ensures Inv(GivenUp(d, id), ledger, nextId) && Evolves(d, GivenUp(d, id)) &&
            Disciplined(d, GivenUp(d, id), id, d.sessions[id].revision)
  {
    hide Inv, Evolves, LedgerOk, SessionOk, SessionEvolves, FailPrevious, JobsOf, LastJob;
    var s := d.sessions[id];
    var e := d.(jobs := FailPrevious(d.jobs, id, s.version));
    FailPreviousKeeps(d, ledger, nextId, id);
    if s.status == Preparing {
      WaitingCommit(e, ledger, nextId, id, GenerationNeeded, ExhaustedEvent);
      EvolvesTrans(d, e, Save(e, id, Waiting(s, GenerationNeeded), ExhaustedEvent));
    }
  }

  lemma GivenUpMeans(d: Database, ledger: Ledger, nextId: nat, id: nat)
    requires Inv(d, ledger, nextId) && id in d.sessions
    ensures GivesUp(d, GivenUp(d, id), id)
  {
    hide Inv, FailPrevious, FailsLast;
    FailPreviousMeans(d, ledger, nextId, id, d.sessions[id].version);
  }

  lemma RequestStarts(d: Database, ledger: Ledger, nextId: nat, id: nat, provider: Provider, now: int, owner: int, sources: nat)
    requires Inv(d, ledger, nextId) && id in d.sessions
    ensures var s := d.sessions[id];
            var job := NewJob(d, id, nextId, provider, now, owner, sources);
            var e := Save(d, id, Waiting(s, Preparing), RequestedEvent(nextId))
                       .(jobs := SaveJob(FailPrevious(d.jobs, id, s.version), job));
            Starts(d, e, id, job) &&
            job == Job(nextId, id, s.revision + 1, Running, job.attempt, provider, now, owner, s.version, sources)
  {
    hide Inv, FailPrevious, FailsLast, LastJob, IsNextAttempt, HasId;
    var s := d.sessions[id];
    var m := FailPrevious(d.jobs, id, s.version);
    FailPreviousMeans(d, ledger, nextId, id, s.version);
    NextAttempt(d.jobs, id, s.version);
    FailPreviousKeeps(d, ledger, nextId, id);
    IdUnused(d.(jobs := m), ledger, nextId);
    WithoutNothing(m, nextId);
  }

  lemma IdUnused(d: Database, ledger: Ledger, nextId: nat)
    requires Inv(d, ledger, nextId)
    ensures !HasId(d.jobs, nextId)
  {
    assert forall i :: 0 <= i < |d.jobs| ==> JobOk(d.jobs[i], d.sessions, nextId);
  }

  lemma WaitingCommit(d: Database, ledger: Ledger, nextId: nat, id: nat, status: Status, what: What)
    requires Inv(d, ledger, nextId) && id in d.sessions && d.sessions[id].status in {Preparing, GenerationNeeded}
    requires status in {Preparing, GenerationNeeded} && !what.AnsweredEvent?
    ensures var e := Save(d, id, Waiting(d.sessions[id], status), what);
            Inv(e, ledger, nextId) && Evolves(d, e) && Disciplined(d, e, id, d.sessions[id].revision)
  {
    hide Inv, Evolves, LedgerOk, SessionOk, SessionEvolves, Disciplined;
    InvParts(d, ledger, nextId, id);
    var t := Waiting(d.sessions[id], status);
    WaitingOk(d.sessions[id], status, nextId);
    NoCurrent(d.sessions[id], nextId);
    SameLedger(d.sessions, ledger, nextId, id, t, nextId);
    SessionCommit(d, ledger, nextId, id, t, what, ledger, nextId);
  }

  lemma NoCurrent(s: Session, nextId: nat)
    requires SessionOk(s, nextId) && s.status != Active
    ensures s.current.None?
  {
  }

  lemma AddJobCommit(d: Database, ledger: Ledger, nextId: nat, job: Job)
    requires Inv(d, ledger, nextId) && JobOk(job, d.sessions, nextId + 1) && job.id == nextId
    requires |JobsOf(d.jobs, job.session)| < 3
    requires forall i :: 0 <= i < |d.jobs| && d.jobs[i].session == job.session ==> d.jobs[i].revision < job.revision
    requires forall i :: 0 <= i < |d.jobs| && Rivals(d.jobs[i], job) ==> d.jobs[i].attempt < job.attempt && d.jobs[i].status != Running
    ensures Inv(d.(jobs := SaveJob(d.jobs, job)), ledger, nextId + 1)
    ensures Evolves(d, d.(jobs := SaveJob(d.jobs, job)))
  {
    hide LedgerOk, EventsOk, AnswersOk, JobsOk, JobOk, JobsOf, Rivals, SaveJob, SessionOk, JobSurvives;
    JobAdded(d.jobs, d.sessions, nextId, job);
    EvolvesRefl(d);
    forall sid | sid in d.sessions
      ensures sid < nextId + 1 && SessionOk(d.sessions[sid], nextId + 1)
    {
      LaterIds(d.sessions[sid], nextId, nextId + 1);
    }
    LaterLedger(d.sessions, ledger, nextId);
  }

  lemma LaterLedger(sessions: map<nat, Session>, ledger: Ledger, nextId: nat)
    requires LedgerOk(sessions, ledger, nextId)
    ensures LedgerOk(sessions, ledger, nextId + 1)
  {
    hide ChargesOk, PredictionsOk;
  }

  lemma RequestKeeps(d: Database, ledger: Ledger, nextId: nat, id: nat, provider: Provider, now: int, owner: int,
                     sources: nat)
    requires Inv(d, ledger, nextId) && id in d.sessions && CanRun(d, id, d.sessions[id].revision)
    ensures var s := d.sessions[id];
            var job := NewJob(d, id, nextId, provider, now, owner, sources);
            var e := Save(d, id, Waiting(s, Preparing), RequestedEvent(nextId))
                       .(jobs := SaveJob(FailPrevious(d.jobs, id, s.version), job));
            Inv(e, ledger, nextId + 1) && Evolves(d, e) && Disciplined(d, e, id, s.revision)
  {
    hide Inv, Evolves, LedgerOk, SessionOk, SessionEvolves, FailPrevious, JobsOf, LastJob, SaveJob, JobsOk;
    var s := d.sessions[id];
    var job := NewJob(d, id, nextId, provider, now, owner, sources);
    var m := d.(jobs := FailPrevious(d.jobs, id, s.version));
    FailPreviousKeeps(d, ledger, nextId, id);
    WaitingCommit(m, ledger, nextId, id, Preparing, RequestedEvent(job.id));
    var n := Save(m, id, Waiting(s, Preparing), RequestedEvent(job.id));
    OldRevisions(m, ledger, nextId, id);
    AddJobCommit(n, ledger, nextId, job);
    EvolvesTrans(d, m, n);
    EvolvesTrans(d, n, n.(jobs := SaveJob(n.jobs, job)));
  }

  lemma OldRevisions(d: Database, ledger: Ledger, nextId: nat, id: nat)
    requires Inv(d, ledger, nextId) && id in d.sessions
    ensures forall i :: 0 <= i < |d.jobs| && d.jobs[i].session == id ==> d.jobs[i].revision <= d.sessions[id].revision
  {
    assert forall i :: 0 <= i < |d.jobs| ==> JobOk(d.jobs[i], d.sessions, nextId);
  }

  lemma FinishMeans(d: Database, ledger: Ledger, nextId: nat, jobId: nat)
    requires Inv(d, ledger, nextId) && FindJob(d.jobs, jobId).Some? && FindJob(d.jobs, jobId).value.session in d.sessions
    ensures Fails(d, WithFailure(d, FindJob(d.jobs, jobId).value), FindJob(d.jobs, jobId).value)
  {
    hide Inv, FindJob, SaveJob, DistinctIds;
    AllDistinct(d, ledger, nextId);
    var job := FindJob(d.jobs, jobId).value;
    var i :| 0 <= i < |d.jobs| && d.jobs[i] == job;
    RowToEnd(d.jobs, i, job.(status := Failed));
    assert Settles(d.jobs, SaveJob(d.jobs, job.(status := Failed)), job.id, Failed);
  }

  lemma FinishKeeps(d: Database, ledger: Ledger, nextId: nat, jobId: nat)
    requires Inv(d, ledger, nextId) && FindJob(d.jobs, jobId).Some? && FindJob(d.jobs, jobId).value.status == Running
    ensures var job := FindJob(d.jobs, jobId).value;
            job.session in d.sessions && Inv(WithFailure(d, job), ledger, nextId) && Evolves(d, WithFailure(d, job)) &&
            WithFailure(d, job) != d && Disciplined(d, WithFailure(d, job), job.session, job.revision)
  {
    hide Inv, Evolves, SaveJob, FindJob;
    var job := FindJob(d.jobs, jobId).value;
    var i :| 0 <= i < |d.jobs| && d.jobs[i] == job;
    JobKnown(d, ledger, nextId, i);
    FailKeeps(d, ledger, nextId, i);
    var e := d.(jobs := SaveJob(d.jobs, job.(status := Failed)));
    if d.sessions[job.session].revision == job.revision {
      WaitingCommit(e, ledger, nextId, job.session, GenerationNeeded, FailedEvent(jobId));
      EvolvesTrans(d, e, WithFailure(d, job));
    }
    RowGone(d, ledger, nextId, i);
    assert job !in e.jobs;
  }
}
