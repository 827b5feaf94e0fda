/** Running one model pull against the persisted jobs while others change them too. */
module PullJob {
  import opened Options
  import opened Jobs

  // ---- What others do between two units of work ----

  datatype Other =
    | UserCancels(id: int)
    | ShutdownSweeps(ids: seq<int>)
    | RestartRecovers
    | DispatchFails(id: int)
    | CreatesPull(model: string)

  const INTERRUPTED_ON_SHUTDOWN := Change(Failed, Some("interrupted"),
                                          Some("Model acquisition was interrupted by shutdown."), None,
                                          Some("INTERRUPTED_ON_SHUTDOWN"))

  const INTERRUPTED_ON_RESTART := Change(Failed, Some("interrupted"),
                                         Some("Model acquisition was interrupted by a restart."), None,
                                         Some("INTERRUPTED_ON_RESTART"))

  const USER_REASON := "Model acquisition cancelled by user."

  function Failure(code: string, message: string): Change {
    Change(Failed, Some("failed"), Some(message), None, Some(code))
  }

  const CANCELLATION := Change(Cancelled, Some("cancelled"), Some("Model acquisition cancelled."), None,
                               Some("CANCELLED"))

  const START := Change(Running, Some("downloading"), Some("Model acquisition started."), Some(0.0), None)

  const SUCCESS := Change(Succeeded, Some("complete"), Some("Model acquired and discovery confirmed."), Some(1.0),
                          Some("ACQUISITION_SUCCEEDED"))

  /** A pull that no longer needs anyone: gone, not a pull, or ended. */
  ghost predicate Settled(jobs: map<int, Job>, id: int) {
    id !in jobs || !jobs[id].kind.ModelPull? || Terminal(jobs[id].status)
  }

  /** What holds between the table before and after anything any actor does. */
  ghost predicate Sound(before: map<int, Job>, after: map<int, Job>) {
    && AllEvolve(before, after)
    && (AllLogged(before) ==> AllLogged(after))
  }

  /** Only the runner's last unit of work may make a job succeed. */
  ghost predicate NoneSucceeds(before: map<int, Job>, after: map<int, Job>) {
    forall id | id in after && after[id].status.Succeeded? :: id in before && before[id].status.Succeeded?
  }

  /** Only the runner's first unit of work makes a job running. */
  ghost predicate NoneStarts(before: map<int, Job>, after: map<int, Job>) {
    forall id | id in after && after[id].status.Running? :: id in before && before[id].status.Running?
  }

  lemma SoundOnward(a: map<int, Job>, b: map<int, Job>, c: map<int, Job>)
    requires Sound(a, b) && Sound(b, c)
    ensures Sound(a, c)
  {
    hide Evolves, Logged;
    AllEvolveOnward(a, b, c);
  }

  lemma SoundSame(a: map<int, Job>)
    ensures Sound(a, a)
  {
    hide Logged;
  }

  lemma SoundUpdate(jobs: map<int, Job>, id: int, job: Job)
    requires id in jobs && Evolves(jobs[id], job) && (Logged(jobs[id]) && job.kind.ModelPull? ==> Logged(job))
    ensures Sound(jobs, jobs[id := job])
  {
    hide Logged, Reaches;
  }

  lemma SoundChange(jobs: map<int, Job>, id: int, c: Change)
    requires id in jobs && c.target in Targets(jobs[id].status) && PullChange(c)
    ensures Sound(jobs, jobs[id := Changed(jobs[id], c)])
  {
    hide Logged, Changed, Evolves, Targets;
    ChangeEvolves(jobs[id], c);
    if Logged(jobs[id]) { ChangeLogged(jobs[id], c); }
    SoundUpdate(jobs, id, Changed(jobs[id], c));
  }

  /** A job is as it was, or has been interrupted by the shutdown, if it had not ended. */
  ghost predicate Swept(before: Job, after: Job) {
    || after == before
    || (!Terminal(before.status) && Terminal(after.status) && Shows(before, INTERRUPTED_ON_SHUTDOWN, after))
  }

  lemma SweptNow(before: Job, after: Job)
    requires !Terminal(before.status) && Shows(before, INTERRUPTED_ON_SHUTDOWN, after)
    ensures Swept(before, after)
  {
  }

  /** The loop of the shutdown sweep's unit of work. */
  method SweepJobs(db: JobStore, ids: seq<int>)
    modifies db`jobs
    ensures Sound(old(db.jobs), db.jobs) && db.jobs.Keys == old(db.jobs.Keys)
    ensures forall id | id in old(db.jobs) && id in ids :: Terminal(db.jobs[id].status)
    ensures forall id | id in old(db.jobs) && (id !in ids || Terminal(old(db.jobs)[id].status)) ::
              db.jobs[id] == old(db.jobs)[id]
    ensures forall id | id in old(db.jobs) && id in ids && !Terminal(old(db.jobs)[id].status) ::
              Shows(old(db.jobs)[id], INTERRUPTED_ON_SHUTDOWN, db.jobs[id])
    ensures NoneSucceeds(old(db.jobs), db.jobs) && NoneStarts(old(db.jobs), db.jobs)
  {
    hide Sound, Changed, Evolves, Logged, Shows, Allowed;
    SoundSame(db.jobs);
    for i := 0 to |ids|
      invariant Sound(old(db.jobs), db.jobs) && db.jobs.Keys == old(db.jobs.Keys)
      invariant forall k | 0 <= k < i && ids[k] in db.jobs :: Terminal(db.jobs[ids[k]].status)
      invariant forall id | id in old(db.jobs) && id !in ids :: db.jobs[id] == old(db.jobs)[id]
      invariant forall id | id in old(db.jobs) :: Swept(old(db.jobs)[id], db.jobs[id])
      invariant NoneSucceeds(old(db.jobs), db.jobs) && NoneStarts(old(db.jobs), db.jobs)
    {
      ghost var before := db.jobs;
      var id := ids[i];
      if id in db.jobs && !Terminal(db.jobs[id].status) {
        TerminalIsFinal(db.jobs[id].status);
        SoundChange(db.jobs, id, INTERRUPTED_ON_SHUTDOWN);
        var problem := db.Transition(id, INTERRUPTED_ON_SHUTDOWN);
        ChangedStatus(before[id], INTERRUPTED_ON_SHUTDOWN);
        SweptNow(before[id], db.jobs[id]);
        SoundOnward(old(db.jobs), before, db.jobs);
      }
    }
  }

  lemma ChangedStatus(job: Job, c: Change)
    ensures Changed(job, c).status == c.target && Changed(job, c).kind == job.kind
  {
  }

  predicate ActivePull(job: Job) {
    job.kind.ModelPull? && !Terminal(job.status)
  }

  ghost function Active(jobs: map<int, Job>): set<int> {
    set id | id in jobs && ActivePull(jobs[id])
  }

  /** `list_active` */
  function ListActive(jobs: map<int, Job>): set<int> {
    set id | id in jobs && !Terminal(jobs[id].status)
  }

  lemma ListedActive(jobs: map<int, Job>)
    ensures Active(jobs) <= ListActive(jobs) <= jobs.Keys
  {
    forall id | id in Active(jobs) ensures id in ListActive(jobs) {
      assert id in jobs && ActivePull(jobs[id]);
    }
  }

  /** Just these jobs have been marked interrupted. */
  ghost predicate Interrupted(before: map<int, Job>, after: map<int, Job>, done: set<int>) {
    && after.Keys == before.Keys
    && done <= Active(before)
    && forall id | id in before ::
         after[id] == if id in done then Changed(before[id], INTERRUPTED_ON_RESTART) else before[id]
  }

  lemma InterruptStep(before: map<int, Job>, now: map<int, Job>, done: set<int>, id: int)
    requires Interrupted(before, now, done) && id !in done && id in before && ActivePull(before[id])
    ensures id in now && now[id] == before[id] && Failed in Targets(now[id].status)
    ensures Interrupted(before, now[id := Changed(now[id], INTERRUPTED_ON_RESTART)], done + {id})
  {
    TerminalIsFinal(before[id].status);
    hide Changed;
  }

  lemma InterruptedSound(before: map<int, Job>, after: map<int, Job>)
    requires Interrupted(before, after, Active(before))
    ensures Sound(before, after) && NoneSucceeds(before, after) && NoneStarts(before, after)
    ensures forall id | id in after :: !ActivePull(after[id])
  {
    hide Changed, Logged, Evolves;
    forall id | id in before
      ensures Evolves(before[id], after[id]) && (Logged(before[id]) ==> Logged(after[id])) && !ActivePull(after[id])
      ensures after[id].status.Succeeded? ==> before[id].status.Succeeded?
      ensures after[id].status.Running? ==> before[id].status.Running?
      ensures after[id].kind == before[id].kind
    {
      ChangedStatus(before[id], INTERRUPTED_ON_RESTART);
      EvolvesSame(before[id]);
      if ActivePull(before[id]) {
        TerminalIsFinal(before[id].status);
        ChangeEvolves(before[id], INTERRUPTED_ON_RESTART);
        if Logged(before[id]) { ChangeLogged(before[id], INTERRUPTED_ON_RESTART); }
      }
    }
  }

  lemma EvolvesSame(job: Job)
    ensures Evolves(job, job)
  {
  }

  /** The loop over the listed jobs: those it has come to are interrupted if they are active pulls. */
  ghost predicate Underway(before: map<int, Job>, now: map<int, Job>, left: set<int>, done: set<int>) {
    && Interrupted(before, now, done)
    && left <= before.Keys && done !! left
    && done <= Active(before) <= done + left
  }

  lemma UnderwayAtFirst(before: map<int, Job>)
    ensures Underway(before, before, ListActive(before), {})
  {
    ListedActive(before);
    assert Interrupted(before, before, {}) by { hide Active, Changed; }
    hide Interrupted, ListActive, Active;
  }

  lemma UnderwayPast(before: map<int, Job>, now: map<int, Job>, left: set<int>, done: set<int>, id: int)
    requires Underway(before, now, left, done) && id in left
    ensures id !in done && id in before && id in now && now[id] == before[id]
    ensures !ActivePull(before[id]) ==> Underway(before, now, left - {id}, done)
    ensures ActivePull(before[id]) ==>
              && Failed in Targets(now[id].status)
              && Underway(before, now[id := Changed(now[id], INTERRUPTED_ON_RESTART)], left - {id}, done + {id})
  {
    SameUntilDone(before, now, done, id);
    IsActive(before, id);
    if ActivePull(before[id]) { InterruptStep(before, now, done, id); }
    hide Interrupted, Active, ActivePull, Changed, Targets;
  }

  lemma UnderwayToTheEnd(before: map<int, Job>, now: map<int, Job>, done: set<int>)
    requires Underway(before, now, {}, done)
    ensures done == Active(before) && Interrupted(before, now, Active(before))
    ensures Sound(before, now) && now.Keys == before.Keys && NoneSucceeds(before, now) && NoneStarts(before, now)
    ensures forall id | id in now :: !ActivePull(now[id])
  {
    hide Interrupted, Active, ActivePull, Sound, NoneSucceeds, NoneStarts;
    assert done == Active(before);
    InterruptedSound(before, now);
    InterruptedKeys(before, now);
  }

  /** `recover_interrupted_pull_jobs` */
  method RecoverPulls(db: JobStore) returns (count: nat)
    modifies db`jobs
    ensures Sound(old(db.jobs), db.jobs) && db.jobs.Keys == old(db.jobs.Keys)
    ensures NoneSucceeds(old(db.jobs), db.jobs) && NoneStarts(old(db.jobs), db.jobs)
    ensures forall id | id in db.jobs :: !ActivePull(db.jobs[id])
    ensures Interrupted(old(db.jobs), db.jobs, Active(old(db.jobs)))
    ensures count == |Active(old(db.jobs))|
    ensures forall id | id in old(db.jobs) :: Recovered(old(db.jobs)[id], db.jobs[id])
  {
    hide Sound, Changed, NoneSucceeds, NoneStarts, Interrupted, ListActive, Active, Underway, Shows, Allowed, Recovered;
    ghost var before, done := db.jobs, {};
    var left := ListActive(db.jobs);
    UnderwayAtFirst(before);
    count := 0;
    while left != {}
      invariant Underway(before, db.jobs, left, done) && count == |done|
      decreases |left|
    {
      assert (forall id :: id !in left) ==> left == {};
      var id :| id in left;
      UnderwayPast(before, db.jobs, left, done, id);
      left := left - {id};
      if db.jobs[id].kind.ModelPull? && !Terminal(db.jobs[id].status) {
        var problem := db.Transition(id, INTERRUPTED_ON_RESTART);
        done := done + {id};
        count := count + 1;
      }
    }
    UnderwayToTheEnd(before, db.jobs, done);
    AllRecovered(before, db.jobs);
  }

  /** A pull that was waiting or running is interrupted; any other job is as it was. */
  ghost predicate Recovered(before: Job, after: Job) {
    && (before.kind.ModelPull? && (before.status.Pending? || before.status.Running?) ==>
          Shows(before, INTERRUPTED_ON_RESTART, after))
    && (!before.kind.ModelPull? || (!before.status.Pending? && !before.status.Running?) ==> after == before)
  }

  lemma AllRecovered(before: map<int, Job>, after: map<int, Job>)
    requires Interrupted(before, after, Active(before))
    ensures forall id | id in before :: Recovered(before[id], after[id])
  {
    hide Changed, Shows;
    forall id | id in before ensures Recovered(before[id], after[id]) {
      IsActive(before, id);
      ChangedShows(before[id], INTERRUPTED_ON_RESTART);
    }
  }

  lemma IsActive(jobs: map<int, Job>, id: int)
    ensures id in Active(jobs) <==> id in jobs && ActivePull(jobs[id])
  {
  }

  lemma SameUntilDone(before: map<int, Job>, now: map<int, Job>, done: set<int>, id: int)
    requires Interrupted(before, now, done) && id in before && id !in done
    ensures id in now && now[id] == before[id]
  {
  }

  lemma InterruptedKeys(before: map<int, Job>, after: map<int, Job>)
    requires Interrupted(before, after, Active(before))
    ensures after.Keys == before.Keys
  {
  }

  /** A pull that is waiting or running. */
  ghost predicate Unfinished(jobs: map<int, Job>, id: int) {
    id in jobs && jobs[id].kind == ModelPull && (jobs[id].status == Pending || jobs[id].status == Running)
  }

  /** What the cancel endpoint leaves of an unfinished pull. */
  ghost predicate CancelledByTheUser(before: Job, after: Job) {
    && after.kind == before.kind && after.status == Cancelled && after.error == Some("CANCELLED")
    && after.message == "Model acquisition cancelled by user."
    && after.phase == before.phase && after.progress == before.progress
    && after.events == before.events
       + [Event(CancelledByUser, before.phase, "Model acquisition cancelled by user.", 0.0, None)]
  }

  /** The cancel endpoint, on a job that exists. */
  method UserCancel(db: JobStore, id: int)
    modifies db`jobs
    ensures Sound(old(db.jobs), db.jobs) && NoneSucceeds(old(db.jobs), db.jobs) && db.jobs.Keys == old(db.jobs.Keys)
    ensures NoneStarts(old(db.jobs), db.jobs)
    ensures Settled(db.jobs, id)
    ensures !Unfinished(old(db.jobs), id) ==> db.jobs == old(db.jobs)
    ensures Unfinished(old(db.jobs), id) ==>
              && CancelledByTheUser(old(db.jobs)[id], db.jobs[id])
              && db.jobs == old(db.jobs)[id := db.jobs[id]]
  {
    hide Evolves, Logged, Sound;
    SoundSame(db.jobs);
    if id !in db.jobs || !db.jobs[id].kind.ModelPull? || Terminal(db.jobs[id].status) {
      return;
    }
    ghost var before := db.jobs;
    CancelLogged(before[id], USER_REASON);
    SoundUpdate(before, id, CancelledJob(before[id], USER_REASON));
    var problem := db.Cancel(id, USER_REASON);
    var cancelled := db.jobs;
    ErrorOnly(before[id]);
    SoundUpdate(before, id, CancelledJob(before[id], USER_REASON).(error := Some("CANCELLED")));
    db.jobs := db.jobs[id := db.jobs[id].(error := Some("CANCELLED"))];
    assert db.jobs == before[id := CancelledJob(before[id], USER_REASON).(error := Some("CANCELLED"))];
  }

  lemma ErrorOnly(job: Job)
    requires !Terminal(job.status)
    ensures var after := CancelledJob(job, USER_REASON).(error := Some("CANCELLED"));
            Evolves(job, after) && (Logged(job) ==> Logged(after))
  {
    CancelLogged(job, USER_REASON);
  }

  method CreatePull(db: JobStore, model: string) returns (id: nat)
    requires db.Valid()
    modifies db
    ensures db.Valid() && Sound(old(db.jobs), db.jobs) && NoneSucceeds(old(db.jobs), db.jobs)
    ensures NoneStarts(old(db.jobs), db.jobs)
    ensures id !in old(db.jobs) && old(db.jobs.Keys) <= db.jobs.Keys
  {
    id := db.Create(ModelPull, "queued", model);
    FreshLogged(old(db.jobs), id, db.jobs[id]);
  }

  lemma FreshLogged(jobs: map<int, Job>, id: int, job: Job)
    requires id !in jobs && Logged(job)
    ensures Sound(jobs, jobs[id := job])
  {
    hide Logged;
  }

  /** Everything other actors do between two units of work, in any order. */
  method Others(db: JobStore, actions: seq<Other>)
    requires db.Valid()
    modifies db
    ensures db.Valid() && Sound(old(db.jobs), db.jobs) && NoneSucceeds(old(db.jobs), db.jobs)
    ensures NoneStarts(old(db.jobs), db.jobs)
    ensures old(db.jobs.Keys) <= db.jobs.Keys
    ensures actions == [] ==> db.jobs == old(db.jobs)
  {
    hide Sound, Settled;
    SoundSame(db.jobs);
    for i := 0 to |actions|
      invariant db.Valid() && Sound(old(db.jobs), db.jobs) && NoneSucceeds(old(db.jobs), db.jobs)
      invariant NoneStarts(old(db.jobs), db.jobs)
      invariant old(db.jobs.Keys) <= db.jobs.Keys
      invariant i == 0 ==> db.jobs == old(db.jobs)
    {
      ghost var before := db.jobs;
      match actions[i] {
        case UserCancels(id) => UserCancel(db, id);
        case ShutdownSweeps(ids) => SweepJobs(db, ids);
        case RestartRecovers => var count := RecoverPulls(db);
        case DispatchFails(id) =>
          var raised := MarkFailed(db, id, Failure("ACQUISITION_DISPATCH_FAILED",
              "The job could not be dispatched."), false);
        case CreatesPull(model) => var id := CreatePull(db, model);
      }
      SoundOnward(old(db.jobs), before, db.jobs);
    }
  }

  // ---- The runner's units of work ----

  /** `_load_job` */
  function Load(jobs: map<int, Job>, id: int): Option<Job> {
    if id in jobs && jobs[id].kind.ModelPull? && !Terminal(jobs[id].status) then Some(jobs[id]) else None
  }

  /** A unit of work that ends the job unless it is settled already: `_fail`, `_cancel_before_start`,
      `mark_job_failed`. A database fault rolls it back and raises. */
  method MarkFailed(db: JobStore, id: int, ending: Change, fault: bool) returns (raised: bool)
    requires ending.target.Failed? || ending.target.Cancelled?
    requires PullChange(ending)
    modifies db`jobs
    ensures raised == fault
    ensures raised ==> db.jobs == old(db.jobs)
    ensures Sound(old(db.jobs), db.jobs) && NoneSucceeds(old(db.jobs), db.jobs) && db.jobs.Keys == old(db.jobs.Keys)
    ensures NoneStarts(old(db.jobs), db.jobs)
    ensures !raised ==> Settled(db.jobs, id)
    ensures !raised && Load(old(db.jobs), id).Some? ==>
              && db.jobs == old(db.jobs)[id := Changed(old(db.jobs)[id], ending)]
              && Shows(old(db.jobs)[id], ending, db.jobs[id])
    ensures Load(old(db.jobs), id).None? ==> db.jobs == old(db.jobs)
    ensures !Unfinished(old(db.jobs), id) ==> db.jobs == old(db.jobs)
    ensures Unfinished(old(db.jobs), id) && !fault ==>
              Shows(old(db.jobs)[id], ending, db.jobs[id]) && db.jobs == old(db.jobs)[id := db.jobs[id]]
  {
    hide Evolves, Logged, Sound, Changed, Shows, Allowed;
    SoundSame(db.jobs);
    if fault { return true; }
    if Load(db.jobs, id).None? { return false; }
    TerminalIsFinal(db.jobs[id].status);
    SoundChange(db.jobs, id, ending);
    ChangedStatus(db.jobs[id], ending);
    var problem := db.Transition(id, ending);
    return false;
  }
}
