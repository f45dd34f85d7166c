/** The job table under the store's statements. */
module LearningJobs {
  import opened Counting
  import opened LearningModel
  import opened LearningInvariants

  function Without(jobs: seq<Job>, id: nat): (r: seq<Job>) {
    if jobs == [] then []
    else Without(jobs[..|jobs| - 1], id) + if jobs[|jobs| - 1].id == id then [] else [jobs[|jobs| - 1]]
  }

  /** INSERT OR REPLACE: the row goes to the end, whether it is new or replaces one. */
  function SaveJob(jobs: seq<Job>, job: Job): seq<Job> {
    Without(jobs, job.id) + [job]
  }

  predicate HasId(jobs: seq<Job>, id: nat) {
    exists i :: 0 <= i < |jobs| && jobs[i].id == id
  }

  lemma {:induction false} WithoutNothing(jobs: seq<Job>, id: nat)
    requires !HasId(jobs, id)
    ensures Without(jobs, id) == jobs
  {
    if jobs != [] {
      var n := |jobs| - 1;
      assert forall i :: 0 <= i < n ==> jobs[..n][i] == jobs[i];
      WithoutNothing(jobs[..n], id);
    }
  }

  ghost predicate DistinctIds(jobs: seq<Job>) {
    forall i, j :: 0 <= i < j < |jobs| ==> jobs[i].id != jobs[j].id
  }

  lemma {:induction false} WithoutOne(jobs: seq<Job>, i: nat)
    requires i < |jobs| && DistinctIds(jobs)
    ensures Without(jobs, jobs[i].id) == jobs[..i] + jobs[i + 1..]
  {
    var n := |jobs| - 1;
    if i == n {
      WithoutNothing(jobs[..n], jobs[i].id);
    } else {
      assert jobs[..n][i] == jobs[i];
      WithoutOne(jobs[..n], i);
      assert jobs[..n][..i] == jobs[..i];
      assert jobs[..n][i + 1..] + [jobs[n]] == jobs[i + 1..];
    }
  }

  lemma {:induction false} JobsOfConcat(a: seq<Job>, b: seq<Job>, sid: nat)
    ensures JobsOf(a + b, sid) == JobsOf(a, sid) + JobsOf(b, sid)
  {
    if b == [] {
      assert a + b == a;
    } else {
      var n := |b| - 1;
      assert (a + b)[..|a + b| - 1] == a + b[..n];
      JobsOfConcat(a, b[..n], sid);
    }
  }

  lemma JobsOfOne(job: Job, sid: nat)
    ensures JobsOf([job], sid) == if job.session == sid then [job] else []
  {
    assert JobsOf([job][..0], sid) == [];
  }

  lemma JobsOfSaved(jobs: seq<Job>, i: nat, job: Job, sid: nat)
    requires i < |jobs| && job.session == jobs[i].session
    ensures |JobsOf(jobs[..i] + jobs[i + 1..] + [job], sid)| == |JobsOf(jobs, sid)|
  {
    var a, b := jobs[..i], jobs[i + 1..];
    assert jobs == a + ([jobs[i]] + b);
    JobsOfConcat(a, [jobs[i]] + b, sid);
    JobsOfConcat([jobs[i]], b, sid);
    JobsOfConcat(a + b, [job], sid);
    JobsOfConcat(a, b, sid);
    JobsOfOne(job, sid);
    JobsOfOne(jobs[i], sid);
  }

  lemma SettledPairs(jobs: seq<Job>, i: nat, job: Job)
    requires PairsOk(jobs) && i < |jobs| && jobs[i].status == Running
    requires job == jobs[i].(status := job.status) && job.status != Running
    ensures PairsOk(jobs[..i] + jobs[i + 1..] + [job])
  {
    var r := jobs[..i] + jobs[i + 1..] + [job];
    var n := |jobs| - 1;
    hide Rivals;
    forall p, q | 0 <= p < q < |r|
      ensures PairOk(r[p], r[q])
    {
      var x := if p < i then p else p + 1;
      assert r[p] == jobs[x];
      if q < n {
        var y := if q < i then q else q + 1;
        assert r[q] == jobs[y];
        assert PairOk(jobs[x], jobs[y]);
      } else if x < i {
        assert PairOk(jobs[x], jobs[i]);
        RivalsStatus(jobs[x], jobs[i], job);
      } else {
        assert PairOk(jobs[i], jobs[x]);
        RivalsStatus(jobs[x], jobs[i], job);
      }
    }
  }

  lemma RivalsStatus(a: Job, b: Job, c: Job)
    requires c == b.(status := c.status)
    ensures Rivals(a, c) <==> Rivals(a, b)
    ensures Rivals(a, b) <==> Rivals(b, a)
  {
  }

  /** A running job is settled: its row moves to the end. */
  lemma JobSettled(jobs: seq<Job>, sessions: map<nat, Session>, nextId: nat, i: nat, job: Job)
    requires JobsOk(jobs, sessions, nextId) && i < |jobs| && jobs[i].status == Running
    requires job == jobs[i].(status := job.status) && job.status != Running
    requires job.status == Ready ==> job.baseVersion < sessions[job.session].version
    ensures SaveJob(jobs, job) == jobs[..i] + jobs[i + 1..] + [job]
    ensures JobsOk(SaveJob(jobs, job), sessions, nextId)
    ensures forall k :: 0 <= k < |jobs| ==> JobSurvives(jobs[k], SaveJob(jobs, job))
  {
    DistinctJobs(jobs);
    WithoutOne(jobs, i);
    SettledPairs(jobs, i, job);
    var r := SaveJob(jobs, job);
    hide PairsOk, SaveJob, JobsOf;
    assert JobOk(jobs[i], sessions, nextId);
    forall k | 0 <= k < |r|
      ensures JobOk(r[k], sessions, nextId)
    {
      if k < |jobs| - 1 { assert r[k] == jobs[if k < i then k else k + 1]; }
    }
    forall sid
      ensures |JobsOf(r, sid)| <= 3
    {
      JobsOfSaved(jobs, i, job, sid);
    }
    forall k | 0 <= k < |jobs|
      ensures JobSurvives(jobs[k], r)
    {
      var at := if k < i then k else if k == i then |jobs| - 1 else k - 1;
      assert JobEvolves(jobs[k], r[at]);
    }
  }

  lemma DistinctJobs(jobs: seq<Job>)
    requires PairsOk(jobs)
    ensures DistinctIds(jobs)
  {
    forall i, j | 0 <= i < j < |jobs|
      ensures jobs[i].id != jobs[j].id
    {
      assert PairOk(jobs[i], jobs[j]);
    }
  }

  /** A new job: its session has room, it has the session's new revision, and its rivals are over and were earlier
      attempts. */
  lemma JobAdded(jobs: seq<Job>, sessions: map<nat, Session>, nextId: nat, job: Job)
    requires JobsOk(jobs, sessions, nextId) && JobOk(job, sessions, nextId + 1) && job.id == nextId
    requires |JobsOf(jobs, job.session)| < 3
    requires forall i :: 0 <= i < |jobs| && jobs[i].session == job.session ==> jobs[i].revision < job.revision
    requires forall i :: 0 <= i < |jobs| && Rivals(jobs[i], job) ==> jobs[i].attempt < job.attempt && jobs[i].status != Running
    ensures SaveJob(jobs, job) == jobs + [job]
    ensures JobsOk(SaveJob(jobs, job), sessions, nextId + 1)
    ensures forall k :: 0 <= k < |jobs| ==> JobSurvives(jobs[k], SaveJob(jobs, job))
  {
    assert forall i :: 0 <= i < |jobs| ==> JobOk(jobs[i], sessions, nextId);
    WithoutNothing(jobs, job.id);
    var r := jobs + [job];
    forall k | 0 <= k < |r|
      ensures JobOk(r[k], sessions, nextId + 1)
    {
      if k < |jobs| { assert JobOk(jobs[k], sessions, nextId); }
    }
    forall i, j | 0 <= i < j < |r|
      ensures PairOk(r[i], r[j])
    {
      if j < |jobs| {
        assert PairOk(jobs[i], jobs[j]);
      } else {
        assert JobOk(jobs[i], sessions, nextId);
      }
    }
    forall sid
      ensures |JobsOf(r, sid)| <= 3
    {
      JobsOfConcat(jobs, [job], sid);
      JobsOfOne(job, sid);
    }
    forall k | 0 <= k < |jobs|
      ensures JobSurvives(jobs[k], r)
    {
      assert JobEvolves(jobs[k], r[k]);
    }
  }

  /** A session is saved with its next revision: no running job matches it any more. */
  lemma JobsUnderSave(jobs: seq<Job>, sessions: map<nat, Session>, nextId: nat, sid: nat, t: Session, newId: nat)
    requires JobsOk(jobs, sessions, nextId) && nextId <= newId && sid in sessions
    requires t.revision == sessions[sid].revision + 1 && t.version >= sessions[sid].version
    requires t.status == Stopped ==> forall i :: 0 <= i < |jobs| && jobs[i].session == sid ==> jobs[i].status != Running
    ensures JobsOk(jobs, sessions[sid := t], newId)
  {
    hide JobsOf, PairsOk;
    forall i | 0 <= i < |jobs|
      ensures JobOk(jobs[i], sessions[sid := t], newId)
    {
      assert JobOk(jobs[i], sessions, nextId);
    }
  }

  /** The last row of the session, or of one curriculum version of it. */
  function LastJob(jobs: seq<Job>, sid: nat, base: Option<nat>): (r: Option<Job>) {
    if jobs == [] then None
    else
      var job := jobs[|jobs| - 1];
      if job.session == sid && (base.Some? ==> job.baseVersion == base.value) then Some(job)
      else LastJob(jobs[..|jobs| - 1], sid, base)
  }

  predicate Chosen(j: Job, sid: nat, base: Option<nat>) {
    j.session == sid && (base.Some? ==> j.baseVersion == base.value)
  }

  ghost predicate IsLast(jobs: seq<Job>, sid: nat, base: Option<nat>, at: nat) {
    && at < |jobs| && Chosen(jobs[at], sid, base)
    && forall i :: at < i < |jobs| ==> !Chosen(jobs[i], sid, base)
  }

  lemma {:induction false} LastJobAt(jobs: seq<Job>, sid: nat, base: Option<nat>) returns (at: nat)
    ensures LastJob(jobs, sid, base).Some? ==> IsLast(jobs, sid, base, at) && jobs[at] == LastJob(jobs, sid, base).value
    ensures LastJob(jobs, sid, base).None? ==> forall i :: 0 <= i < |jobs| ==> !Chosen(jobs[i], sid, base)
  {
    at := 0;
    if jobs != [] {
      var n := |jobs| - 1;
      if Chosen(jobs[n], sid, base) {
        at := n;
      } else {
        at := LastJobAt(jobs[..n], sid, base);
        forall i | (if LastJob(jobs, sid, base).Some? then at < i else 0 <= i) && i < |jobs|
          ensures !Chosen(jobs[i], sid, base)
        {
          if i < n { assert jobs[..n][i] == jobs[i]; }
        }
      }
    }
  }
}
