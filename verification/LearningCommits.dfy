/** Transactions as a whole: the parts that LearningSteps and LearningJobs prove, put together. */
module LearningCommits {
  import opened Counting
  import opened LearningModel
  import opened LearningInvariants
  import opened LearningJobs
  import opened LearningSteps

  /** A session is saved with its next revision and an event that is not an answer. */
  lemma SessionCommit(d: Database, ledger: Ledger, nextId: nat, sid: nat, t: Session, what: What, after: Ledger,
                      newId: nat)
    requires Inv(d, ledger, nextId) && sid in d.sessions && nextId <= newId
    requires SessionOk(t, newId) && SessionEvolves(d.sessions[sid], t) && t.revision == d.sessions[sid].revision + 1
    requires LedgerOk(d.sessions[sid := t], after, newId)
    requires t.status == Stopped ==> forall i :: 0 <= i < |d.jobs| && d.jobs[i].session == sid ==> d.jobs[i].status != Running
    requires !what.AnsweredEvent?
    ensures Inv(Save(d, sid, t, what), after, newId)
    ensures Evolves(d, Save(d, sid, t, what)) && Disciplined(d, Save(d, sid, t, what), sid, d.sessions[sid].revision)
  {
    hide LedgerOk, SessionOk, JobsOk, EventsOk, AnswersOk, SessionEvolves, Evolves;
    assert t.version >= d.sessions[sid].version by { Versions(d.sessions[sid], t); }
    assert sid < newId && SessionsOk(d.sessions, nextId);
    SessionsSaved(d.sessions, nextId, sid, t, newId);
    JobsUnderSave(d.jobs, d.sessions, nextId, sid, t, newId);
    EventSaved(d.events, d.sessions, sid, t, what);
    AnswersKept(d.events, d.exposures, d.submissions, Event(sid, t.revision, what));
    SaveEvolves(d, sid, t, what);
  }

  lemma InvParts(d: Database, ledger: Ledger, nextId: nat, sid: nat)
    requires Inv(d, ledger, nextId) && sid in d.sessions
    ensures LedgerOk(d.sessions, ledger, nextId)
    ensures sid < nextId && SessionOk(d.sessions[sid], nextId)
    ensures d.sessions[sid].current.Some? ==> FindItem(d.sessions[sid].items, d.sessions[sid].current.value.actionId).Some?
  {
    hide LedgerOk, JobsOk, EventsOk, AnswersOk;
    assert SessionsOk(d.sessions, nextId);
    assert CurrentOk(d.sessions[sid], nextId);
  }

  lemma Unchanged(d: Database, sid: nat, revision: nat)
    ensures Evolves(d, d) && Disciplined(d, d, sid, revision)
  {
    EvolvesRefl(d);
  }

  lemma Versions(s: Session, t: Session)
    requires SessionEvolves(s, t)
    ensures s.version <= t.version
  {
  }

  /** The same for an answer, with its submission and its exposure row. */
  lemma AnswerCommit(d: Database, ledger: Ledger, nextId: nat, sid: nat, t: Session, what: What, after: Ledger,
                     newId: nat,
                     id: string, submission: Submission, e: Database)
    requires Inv(d, ledger, nextId) && sid in d.sessions && nextId <= newId
    requires SessionOk(t, newId) && SessionEvolves(d.sessions[sid], t) && t.revision == d.sessions[sid].revision + 1
    requires LedgerOk(d.sessions[sid := t], after, newId) && t.status != Stopped
    requires what.AnsweredEvent? && what.exposure !in d.exposures && id !in d.submissions
    requires e == Save(d, sid, t, what).(exposures := d.exposures + {what.exposure}, submissions := d.submissions[id := submission])
    ensures Inv(e, after, newId)
    ensures Evolves(d, e) && Disciplined(d, e, sid, d.sessions[sid].revision)
  {
    AnswerEvolves(d, sid, t, what, id, submission, e);
    assert t.version >= d.sessions[sid].version by { Versions(d.sessions[sid], t); }
    hide LedgerOk, SessionOk, JobsOk, EventsOk, AnswersOk, SessionEvolves, Evolves, Disciplined;
    assert sid < newId && SessionsOk(d.sessions, nextId);
    SessionsSaved(d.sessions, nextId, sid, t, newId);
    JobsUnderSave(d.jobs, d.sessions, nextId, sid, t, newId);
    EventSaved(d.events, d.sessions, sid, t, what);
    AnswerAdded(d.events, d.exposures, d.submissions, Event(sid, t.revision, what), id, submission);
  }

  lemma AnswerEvolves(d: Database, sid: nat, t: Session, what: What, id: string, submission: Submission, e: Database)
    requires sid in d.sessions && SessionEvolves(d.sessions[sid], t) && t.revision == d.sessions[sid].revision + 1
    requires what.AnsweredEvent? && id !in d.submissions
    requires e == Save(d, sid, t, what).(exposures := d.exposures + {what.exposure}, submissions := d.submissions[id := submission])
    ensures Evolves(d, e) && Disciplined(d, e, sid, d.sessions[sid].revision)
  {
    hide SessionEvolves, JobSurvives;
    SaveEvolves(d, sid, t, what);
  }

  /** A running job is settled. */
  lemma JobCommit(d: Database, ledger: Ledger, nextId: nat, i: nat, job: Job)
    requires Inv(d, ledger, nextId) && i < |d.jobs| && d.jobs[i].status == Running
    requires job == d.jobs[i].(status := job.status) && job.status != Running
    requires job.session in d.sessions
    requires job.status == Ready ==> job.baseVersion < d.sessions[job.session].version
    ensures Inv(d.(jobs := SaveJob(d.jobs, job)), ledger, nextId)
    ensures SaveJob(d.jobs, job) == d.jobs[..i] + d.jobs[i + 1..] + [job]
    ensures Evolves(d, d.(jobs := SaveJob(d.jobs, job)))
  {
    hide LedgerOk, SessionsOk, EventsOk, AnswersOk, JobSurvives, SaveJob, JobsOk;
    JobSettled(d.jobs, d.sessions, nextId, i, job);
    EvolvesRefl(d);
  }

  /** The job that a request would start exists and is running. */
  lemma JobKnown(d: Database, ledger: Ledger, nextId: nat, i: nat)
    requires Inv(d, ledger, nextId) && i < |d.jobs|
    ensures d.jobs[i].session in d.sessions && JobOk(d.jobs[i], d.sessions, nextId)
  {
  }
}
