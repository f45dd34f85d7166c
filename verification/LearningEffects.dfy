/** What the calls of the store accept and what they leave behind, in terms of the tables alone. */
module LearningEffects {
  import opened LearningModel
  import opened LearningInvariants
  import opened LearningJobs
  import opened LearningChoices

  ghost predicate HasText(text: string) {
    exists i :: 0 <= i < |text| && text[i] !in " \t\n\r"
  }

  // ---- start -----------------------------------------------------------------------------

  /** At most eight different targets with weights that are not negative and not all zero, a budget of at most 30, the
      snapshot of the analysis, and a learner's name of at most 200 characters. */
  ghost predicate GoalFits(goal: Goal, learner: string, snapshot: string) {
    && HasText(goal.repositoryId) && HasText(goal.snapshot) && goal.snapshot == snapshot
    && 0.0 <= goal.budget <= 30.0 && 1 <= |goal.targets| <= 8
    && (forall t :: t in goal.targets ==> HasText(t.conceptId) && t.weight >= 0.0)
    && (exists t :: t in goal.targets && t.weight > 0.0)
    && (forall i, j :: 0 <= i < j < |goal.targets| ==>
          (goal.targets[i].conceptId, goal.targets[i].level) != (goal.targets[j].conceptId, goal.targets[j].level))
    && HasText(learner) && |learner| <= 200
  }

  /** One session is stored with one event; the other tables are as they were. */
  ghost predicate Stores(d: Database, e: Database, id: nat, t: Session, what: What) {
    && e.sessions == d.sessions[id := t] && e.events == d.events + [Event(id, t.revision, what)]
    && e.submissions == d.submissions && e.exposures == d.exposures
  }

  // ---- respond ---------------------------------------------------------------------------

  /** ASCII digits, letters, underscore and hyphen, by their codes. */
  predicate IsWordCode(n: int) {
    48 <= n <= 57 || 65 <= n <= 90 || 97 <= n <= 122 || n == 95 || n == 45
  }

  ghost predicate IsSubmissionId(id: string) {
    1 <= |id| <= 100 && forall i :: 0 <= i < |id| ==> IsWordCode(id[i] as int)
  }

  /** The learner has answered the question, in this store or, as the local learner, in the older quizzes. */
  ghost predicate IsExposed(exposures: set<Exposure>, legacy: set<string>, s: Session, fingerprint: string) {
    Exposure(s.learner, s.goal.repositoryId, fingerprint) in exposures || (s.learner == "local" && fingerprint in legacy)
  }

  /** The first question with the id. */
  ghost predicate IsQuestion(questions: seq<Question>, id: nat, q: Question) {
    exists i :: 0 <= i < |questions| && questions[i] == q && q.id == id && forall j :: 0 <= j < i ==> questions[j].id != id
  }

  /** The answer is to the unanswered question q of the present stop at action a, which the learner has not seen. */
  ghost predicate AnswerFits(d: Database, input: Answer, legacy: set<string>, a: Item, q: Question) {
    && input.session in d.sessions
    && var s := d.sessions[input.session];
       && s.revision == input.revision && s.status == Active && s.responseId == None
       && s.current.Some? && s.current.value.id == input.stop && a in s.items && a.id == s.current.value.actionId
       && s.questionId == Some(input.question) && IsQuestion(a.compiled, input.question, q)
       && !IsExposed(d.exposures, legacy, s, q.fingerprint) && 0 <= input.selected < |q.choices|
  }

  /** The answer is right if the choice is the question's answer; it is stored with its result, and the question as seen. */
  ghost predicate Answers(d: Database, e: Database, input: Answer, q: Question, knowledge: seq<Estimate>, responseId: nat,
                          r: LearningResult)
    requires input.session in d.sessions && 0 <= input.selected < |q.choices|
  {
    var s := d.sessions[input.session];
    var x := Exposure(s.learner, s.goal.repositoryId, q.fingerprint);
    var t := s.(knowledge := knowledge, responseId := Some(responseId), revision := s.revision + 1);
    && r == LearningResult(t, responseId, q.choices[input.selected] == q.answer)
    && e.sessions == d.sessions[input.session := t]
    && e.events == d.events + [Event(input.session, t.revision, AnsweredEvent(input.stop, responseId, x, r.correct))]
    && e.exposures == d.exposures + {x} && e.submissions == d.submissions[input.submission := Submission(input, r)]
    && e.concepts == d.concepts && e.jobs == d.jobs
  }

  // ---- advance ---------------------------------------------------------------------------

  ghost predicate AreExposed(exposed: set<string>, exposures: set<Exposure>, legacy: set<string>, s: Session) {
    forall f :: f in exposed <==> IsExposed(exposures, legacy, s, f)
  }

  /** The stop at action a is paid for and goes into the history, and the session arrives at the next one. */
  ghost predicate Leaves(s: Session, t: Session, a: Item, outcome: Outcome, knowledge: seq<Estimate>, exposed: set<string>,
                         stopId: nat) {
    && s.current.Some? && a in s.items && a.id == s.current.value.actionId
    && t == s.(revision := s.revision + 1, spent := s.spent + a.cost, knowledge := knowledge,
               history := s.history + [Visit(s.current.value, outcome, s.responseId)],
               status := t.status, current := t.current, questionId := t.questionId, responseId := t.responseId)
    && HasArrived(t, exposed, stopId)
  }

  // ---- prepare ---------------------------------------------------------------------------

  /** The session's first concept with the id. */
  ghost predicate IsConcept(concepts: seq<Concept>, id: string, k: int) {
    0 <= k < |concepts| && concepts[k].id == id && forall j :: 0 <= j < k ==> concepts[j].id != id
  }

  /** The concept is complete; a target's concept keeps version and definition once there is a curriculum; and no other
      definition is stored for the version. */
  ghost predicate ConceptFits(d: Database, s: Session, c: Concept) {
    && HasText(c.id) && HasText(c.name) && HasText(c.definition) && c.version >= 1
    && (s.version > 0 && (exists t :: t in s.goal.targets && t.conceptId == c.id) ==>
          forall k :: IsConcept(s.concepts, c.id, k) ==> s.concepts[k].version == c.version && s.concepts[k].definition == c.definition)
    && var key := ConceptKey(s.goal.repositoryId, c.id, c.version);
       key in d.concepts ==> d.concepts[key] == c.definition
  }

  ghost predicate ItemFits(concepts: seq<Concept>, a: Item) {
    && HasText(a.id) && Known(concepts, a.conceptId) && a.cost > 0.0
    && forall e :: e in a.effects ==> Known(concepts, e.conceptId) && forall p :: p in e.prerequisites ==> Known(concepts, p)
  }

  ghost predicate RelationFits(concepts: seq<Concept>, r: Relation) {
    Known(concepts, r.from) && Known(concepts, r.to) && r.from != r.to
  }

  /** The curriculum is the next version for a session that waits at this revision, through a running job of this revision
      if through any, and all its parts fit. */
  ghost predicate CurriculumFits(d: Database, id: nat, revision: nat, c: Curriculum, jobId: Option<nat>, sources: nat) {
    && id in d.sessions
    && var s := d.sessions[id];
       && s.revision == revision && (s.status == Preparing || s.status == GenerationNeeded)
       && (jobId.Some? ==> exists j :: j in d.jobs && j.id == jobId.value && j.session == id && j.revision == revision &&
                                       j.status == Running && j.sources == sources)
       && c.version == s.version + 1 && 1 <= |c.concepts| <= 8 && 1 <= |c.items| <= 24
       && (forall i :: 0 <= i < |c.concepts| ==> ConceptFits(d, s, c.concepts[i]))
       && (forall i, j :: 0 <= i < j < |c.concepts| ==> c.concepts[i].id != c.concepts[j].id)
       && (forall t :: t in s.goal.targets ==> Known(c.concepts, t.conceptId))
       && (forall i :: 0 <= i < |c.items| ==> ItemFits(c.concepts, c.items[i]))
       && (forall i, j :: 0 <= i < j < |c.items| ==> c.items[i].id != c.items[j].id)
       && (forall r :: r in c.relations ==> RelationFits(c.concepts, r))
  }

  /** The curriculum is the session's, and the session arrives at its first stop. */
  ghost predicate Installs(s: Session, t: Session, c: Curriculum, knowledge: seq<Estimate>, exposed: set<string>, stopId: nat) {
    && t == s.(revision := s.revision + 1, version := c.version, concepts := c.concepts, relations := c.relations,
               items := c.items, knowledge := knowledge, status := t.status, current := t.current,
               questionId := t.questionId, responseId := t.responseId)
    && HasArrived(t, exposed, stopId)
  }

  // ---- jobs ------------------------------------------------------------------------------

  /** The row of the job has gone to the end with another status. */
  ghost predicate Settles(jobs: seq<Job>, after: seq<Job>, jobId: nat, status: JobStatus) {
    exists i :: 0 <= i < |jobs| && jobs[i].id == jobId && after == jobs[..i] + jobs[i + 1..] + [jobs[i].(status := status)]
  }

  /** The running jobs of the session have failed; all others are as they were. */
  ghost predicate FailsRunning(jobs: seq<Job>, after: seq<Job>, id: nat) {
    && |after| == |jobs|
    && forall j :: j in after <==> exists i :: 0 <= i < |jobs| && IsAfterStop(jobs[i], id, j)
  }

  predicate IsAfterStop(before: Job, id: nat, after: Job) {
    after == if before.session == id && before.status == Running then before.(status := Failed) else before
  }

  /** The last job for the version has failed if it was running, and its row has gone to the end. */
  ghost predicate FailsLast(jobs: seq<Job>, after: seq<Job>, id: nat, version: nat) {
    if exists i: nat :: IsLast(jobs, id, Some(version), i) && jobs[i].status == Running
    then exists i: nat :: IsLast(jobs, id, Some(version), i) && after == jobs[..i] + jobs[i + 1..] + [jobs[i].(status := Failed)]
    else after == jobs
  }

  /** The attempt after the last one for the version, or the first. */
  ghost predicate IsNextAttempt(jobs: seq<Job>, id: nat, version: nat, attempt: nat) {
    && (forall i: nat :: IsLast(jobs, id, Some(version), i) ==> attempt == jobs[i].attempt + 1)
    && ((forall i :: 0 <= i < |jobs| ==> !Chosen(jobs[i], id, Some(version))) ==> attempt == 1)
  }

  ghost function RowsOf(jobs: seq<Job>, id: nat): set<nat> {
    set i: nat | i < |jobs| && jobs[i].session == id
  }

  /** A caller who may not run a job gets the last one for the version, or a blank one, with this status. */
  ghost predicate IsOutcome(jobs: seq<Job>, id: nat, version: nat, blank: Job, status: JobStatus, r: Job) {
    && (forall i: nat :: IsLast(jobs, id, Some(version), i) ==> r == jobs[i].(status := status))
    && ((forall i :: 0 <= i < |jobs| ==> !Chosen(jobs[i], id, Some(version))) ==> r == blank.(status := status))
  }

  /** The session waits for the new job, which is the next attempt; the last one has failed if it was running. */
  ghost predicate Starts(d: Database, e: Database, id: nat, job: Job) {
    && id in d.sessions
    && var s := d.sessions[id];
       && IsNextAttempt(d.jobs, id, s.version, job.attempt)
       && Stores(d, e, id, s.(status := Preparing, revision := s.revision + 1), RequestedEvent(job.id))
       && e.concepts == d.concepts
       && exists m :: FailsLast(d.jobs, m, id, s.version) && e.jobs == m + [job]
  }

  /** The last job has failed if it was running; a session that was waiting for it needs other material. */
  ghost predicate GivesUp(d: Database, e: Database, id: nat) {
    && id in d.sessions && e.concepts == d.concepts
    && var s := d.sessions[id];
       && FailsLast(d.jobs, e.jobs, id, s.version)
       && if s.status == Preparing then
            Stores(d, e, id, s.(status := GenerationNeeded, revision := s.revision + 1), ExhaustedEvent)
          else e == d.(jobs := e.jobs)
  }

  /** The job has failed; its session needs other material if it still waits at the job's revision. */
  ghost predicate Fails(d: Database, e: Database, job: Job) {
    && job.session in d.sessions && e.concepts == d.concepts && Settles(d.jobs, e.jobs, job.id, Failed)
    && var s := d.sessions[job.session];
       if s.revision == job.revision then
         Stores(d, e, job.session, s.(status := GenerationNeeded, revision := s.revision + 1), FailedEvent(job.id))
       else e == d.(jobs := e.jobs)
  }
}
