/** Persisted jobs: their lifecycle, their event log, and the service that changes both. */
module Jobs {
  import opened Options

  datatype Kind = ModelPull | OtherKind

  datatype Status = Pending | Running | Succeeded | Failed | Cancelled

  datatype EventKind = Created | StatusChanged | Error | CancelledByUser | Progress

  datatype Event = Event(kind: EventKind, phase: string, message: string, progress: real, error: Option<string>)

  /** `error` is the code of the stored error document. */
  datatype Job = Job(kind: Kind, status: Status, phase: string, message: string, progress: real, error: Option<string>,
                     events: seq<Event>)

  /** `GENERIC_JOB_TRANSITIONS` */
  function Targets(s: Status): set<Status> {
    match s
    case Pending => {Running, Failed, Cancelled}
    case Running => {Succeeded, Failed, Cancelled}
    case _ => {}
  }

  predicate Terminal(s: Status) {
    s in {Succeeded, Failed, Cancelled}
  }

  /** The states reachable in one or more transitions. */
  predicate Reaches(s: Status, t: Status) {
    t in Targets(s) || exists u | u in Targets(s) :: t in Targets(u)
  }

  lemma TerminalIsFinal(s: Status)
    ensures Terminal(s) <==> forall t: Status :: !Reaches(s, t)
    ensures !Terminal(s) ==> Failed in Targets(s) && Cancelled in Targets(s)
    ensures !Reaches(s, s)
  {
    assert Failed in Targets(Pending) && Failed in Targets(Running);
    assert !Terminal(s) ==> Reaches(s, Failed);
  }

  function Clamp(value: real): real {
    if value < 0.0 then 0.0 else if value > 1.0 then 1.0 else value
  }

  // ---- What the service does to one job ----

  datatype Change = Change(target: Status, phase: Option<string>, message: Option<string>, progress: Option<real>,
                           error: Option<string>)

  function Or<T>(o: Option<T>, other: T): T {
    if o.Some? then o.value else other
  }

  function Changed(job: Job, c: Change): Job {
    var phase := Or(c.phase, job.phase);
    var progress := if c.progress.Some? then Clamp(c.progress.value) else job.progress;
    Job(job.kind, c.target, phase, Or(c.message, job.message), progress, if c.error.Some? then c.error else job.error,
        job.events
        + [Event(if c.error.Some? then Error else StatusChanged, phase, Or(c.message, ""), progress, c.error)])
  }

  function CancelledJob(job: Job, reason: string): Job {
    job.(status := Cancelled, message := if reason != "" then reason else job.message,
         events := job.events + [Event(CancelledByUser, job.phase, reason, 0.0, None)])
  }

  function Progressed(job: Job, value: real, phase: string, message: string): Job {
    job.(progress := Clamp(value), phase := phase, message := if message != "" then message else job.message,
         events := job.events + [Event(Progress, phase, message, Clamp(value), None)])
  }

  datatype Problem = JobNotFound | InvalidTransition

  // ---- The same, told field by field ----

  /** The lifecycle: a job runs before it succeeds, may fail or be cancelled until it has ended, and then stays. */
  ghost predicate Allowed(s: Status, t: Status) {
    && (s.Pending? || s.Running?)
    && (t.Failed? || t.Cancelled? || (t.Running? && s.Pending?) || (t.Succeeded? && s.Running?))
  }

  /** What a change sets, and what it leaves. */
  ghost predicate Shows(before: Job, c: Change, after: Job) {
    && after.kind == before.kind && after.status == c.target
    && (c.phase.Some? ==> after.phase == c.phase.value) && (c.phase.None? ==> after.phase == before.phase)
    && (c.message.Some? ==> after.message == c.message.value) && (c.message.None? ==> after.message == before.message)
    && (c.error.Some? ==> after.error == c.error) && (c.error.None? ==> after.error == before.error)
    && (c.progress.None? ==> after.progress == before.progress)
    && (c.progress.Some? ==> Clamped(c.progress.value, after.progress))
    && |after.events| == |before.events| + 1 && before.events <= after.events
    && var event := after.events[|before.events|];
       && (c.error.Some? ==> event.kind == Error) && (c.error.None? ==> event.kind == StatusChanged)
       && event.phase == after.phase && event.progress == after.progress && event.error == c.error
       && (c.message.Some? ==> event.message == c.message.value) && (c.message.None? ==> event.message == "")
  }

  /** The nearest value between zero and one. */
  ghost predicate Clamped(value: real, r: real) {
    && 0.0 <= r <= 1.0
    && (0.0 <= value <= 1.0 ==> r == value) && (value < 0.0 ==> r == 0.0) && (value > 1.0 ==> r == 1.0)
  }

  /** A cancellation by the user. */
  ghost predicate ShowsCancelled(before: Job, reason: string, after: Job) {
    && after.kind == before.kind && after.status == Cancelled && after.phase == before.phase
    && after.progress == before.progress && after.error == before.error
    && (reason != "" ==> after.message == reason) && (reason == "" ==> after.message == before.message)
    && after.events == before.events + [Event(CancelledByUser, before.phase, reason, 0.0, None)]
  }

  /** A report of progress. */
  ghost predicate ShowsProgress(before: Job, value: real, phase: string, message: string, after: Job) {
    && after.kind == before.kind && after.status == before.status && after.error == before.error
    && after.phase == phase && Clamped(value, after.progress)
    && (message != "" ==> after.message == message) && (message == "" ==> after.message == before.message)
    && after.events == before.events + [Event(Progress, phase, message, after.progress, None)]
  }

  lemma ChangedShows(job: Job, c: Change)
    ensures Shows(job, c, Changed(job, c))
  {
  }

  /** The jobs table and the service over it. */
  class JobStore {
    var jobs: map<int, Job>
    var next: nat

    ghost predicate Valid()
      reads this
    {
      forall id | id in jobs :: 0 <= id < next
    }

    constructor ()
      ensures Valid() && jobs == map[]
    {
      jobs, next := map[], 1;
    }

    method Create(kind: Kind, phase: string, message: string) returns (id: nat)
      requires Valid()
      modifies this
      ensures Valid() && id !in old(jobs)
      ensures jobs == old(jobs)[id := Job(kind, Pending, phase, message, 0.0, None,
                                          [Event(Created, phase, message, 0.0, None)])]
    {
      id := next;
      var job := Job(kind, Pending, phase, message, 0.0, None, []);
      job := job.(events := [Event(Created, phase, message, 0.0, None)]);
      jobs := jobs[id := job];
      next := next + 1;
    }

    method Transition(id: int, c: Change) returns (problem: Option<Problem>)
      modifies `jobs
      ensures problem == if id !in old(jobs) then Some(JobNotFound)
                         else if c.target !in Targets(old(jobs)[id].status) then Some(InvalidTransition) else None
      ensures jobs == if problem.Some? then old(jobs) else old(jobs)[id := Changed(old(jobs)[id], c)]
      ensures problem.None? <==> id in old(jobs) && Allowed(old(jobs)[id].status, c.target)
      ensures problem.None? ==> Shows(old(jobs)[id], c, jobs[id])
    {
      if id !in jobs { return Some(JobNotFound); }
      var job := jobs[id];
      if c.target !in Targets(job.status) { return Some(InvalidTransition); }
      job := job.(status := c.target);
      if c.phase.Some? { job := job.(phase := c.phase.value); }
      if c.message.Some? { job := job.(message := c.message.value); }
      if c.progress.Some? { job := job.(progress := Clamp(c.progress.value)); }
      if c.error.Some? { job := job.(error := c.error); }
      var event := Event(if c.error.Some? then Error else StatusChanged, job.phase,
                         if c.message.Some? then c.message.value else "", job.progress, c.error);
      jobs := jobs[id := job.(events := job.events + [event])];
      return None;
    }

    method Cancel(id: int, reason: string) returns (problem: Option<Problem>)
      modifies `jobs
      ensures problem == if id !in old(jobs) then Some(JobNotFound)
                         else if Terminal(old(jobs)[id].status) then Some(InvalidTransition) else None
      ensures jobs == if problem.Some? then old(jobs) else old(jobs)[id := CancelledJob(old(jobs)[id], reason)]
      ensures problem.None? <==> id in old(jobs) && (old(jobs)[id].status.Pending? || old(jobs)[id].status.Running?)
      ensures problem.None? ==> ShowsCancelled(old(jobs)[id], reason, jobs[id])
    {
      if id !in jobs { return Some(JobNotFound); }
      var job := jobs[id];
      if Terminal(job.status) { return Some(InvalidTransition); }
      job := job.(status := Cancelled);
      if reason != "" { job := job.(message := reason); }
      jobs := jobs[id := job.(events := job.events + [Event(CancelledByUser, job.phase, reason, 0.0, None)])];
      return None;
    }

    method RecordProgress(id: int, value: real, phase: string, message: string) returns (problem: Option<Problem>)
      modifies `jobs
      ensures problem == if id !in old(jobs) then Some(JobNotFound)
                         else if Terminal(old(jobs)[id].status) then Some(InvalidTransition) else None
      ensures jobs == if problem.Some? then old(jobs)
                      else old(jobs)[id := Progressed(old(jobs)[id], value, phase, message)]
      ensures problem.None? <==> id in old(jobs) && (old(jobs)[id].status.Pending? || old(jobs)[id].status.Running?)
      ensures problem.None? ==> ShowsProgress(old(jobs)[id], value, phase, message, jobs[id])
    {
      if id !in jobs { return Some(JobNotFound); }
      var job := jobs[id];
      if Terminal(job.status) { return Some(InvalidTransition); }
      job := job.(progress := Clamp(value), phase := phase);
      if message != "" { job := job.(message := message); }
      jobs := jobs[id := job.(events := job.events + [Event(Progress, phase, message, job.progress, None)])];
      return None;
    }
  }

  // ---- What no operation undoes ----

  /** A job never goes back, keeps its log, and once ended does not change at all. */
  ghost predicate Evolves(before: Job, after: Job) {
    && after.kind == before.kind
    && before.events <= after.events
    && (after.status == before.status || Reaches(before.status, after.status))
    && (Terminal(before.status) ==> after == before)
  }

  ghost predicate AllEvolve(before: map<int, Job>, after: map<int, Job>) {
    forall id | id in before :: id in after && Evolves(before[id], after[id])
  }

  lemma EvolvesOnward(a: Job, b: Job, c: Job)
    requires Evolves(a, b) && Evolves(b, c)
    ensures Evolves(a, c)
  {
    if Reaches(a.status, b.status) && Reaches(b.status, c.status) {
      assert c.status in Targets(a.status) || exists u | u in Targets(a.status) :: c.status in Targets(u) by {
        assert a.status.Pending? || a.status.Running?;
      }
    }
  }

  lemma AllEvolveOnward(a: map<int, Job>, b: map<int, Job>, c: map<int, Job>)
    requires AllEvolve(a, b) && AllEvolve(b, c)
    ensures AllEvolve(a, c)
  {
    forall id | id in a ensures id in c && Evolves(a[id], c[id]) {
      EvolvesOnward(a[id], b[id], c[id]);
    }
  }

  lemma ChangeEvolves(job: Job, c: Change)
    requires c.target in Targets(job.status)
    ensures Evolves(job, Changed(job, c))
  {
  }

  // ---- The log of a model pull ----

  predicate Ends(kind: EventKind) {
    kind.Error? || kind.CancelledByUser?
  }

  /** A pull's log starts with its creation and ends, if the job has ended, with the one event that ended it; every
      reported progress before that is below one. */
  ghost predicate Logged(job: Job) {
    && job.events != [] && job.events[0].kind.Created?
    && (forall i | 0 < i < |job.events| :: !job.events[i].kind.Created?)
    && (forall i | 0 <= i < |job.events| - 1 :: !Ends(job.events[i].kind))
    && (Terminal(job.status) <==> Ends(job.events[|job.events| - 1].kind))
    && (forall i | 0 <= i < |job.events| && job.events[i].kind.Progress? :: 0.0 <= job.events[i].progress < 1.0)
    && 0.0 <= job.progress <= 1.0 && (job.progress == 1.0 ==> job.status.Succeeded?)
  }

  ghost predicate AllLogged(jobs: map<int, Job>) {
    forall id | id in jobs && jobs[id].kind.ModelPull? :: Logged(jobs[id])
  }

  /** The changes the pull runner, the sweep and the recovery make. */
  predicate PullChange(c: Change) {
    && (c.error.Some? <==> Terminal(c.target))
    && (c.progress.Some? ==> c.progress.value == (if c.target.Succeeded? then 1.0 else 0.0))
  }

  lemma ChangeLogged(job: Job, c: Change)
    requires Logged(job) && c.target in Targets(job.status) && PullChange(c)
    ensures Logged(Changed(job, c))
  {
    var after := Changed(job, c);
    assert forall i | 0 <= i < |job.events| :: after.events[i] == job.events[i];
  }

  lemma CancelLogged(job: Job, reason: string)
    requires !Terminal(job.status)
    ensures Evolves(job, CancelledJob(job, reason))
    ensures Logged(job) ==> Logged(CancelledJob(job, reason))
  {
    var after := CancelledJob(job, reason);
    assert forall i | 0 <= i < |job.events| :: after.events[i] == job.events[i];
  }

  lemma ProgressLogged(job: Job, value: real, phase: string, message: string)
    requires !Terminal(job.status)
    ensures Evolves(job, Progressed(job, value, phase, message))
    ensures Logged(job) && 0.0 <= value < 1.0 ==> Logged(Progressed(job, value, phase, message))
  {
    var after := Progressed(job, value, phase, message);
    assert forall i | 0 <= i < |job.events| :: after.events[i] == job.events[i];
  }

  /** No PROGRESS event follows the event that ended a pull, and there is only one such event. */
  lemma NothingAfterEnd(job: Job, i: nat, j: nat)
    requires Logged(job) && i < |job.events| && j < |job.events| && Ends(job.events[i].kind)
    ensures i == |job.events| - 1 && Terminal(job.status)
    ensures job.events[j].kind.Progress? ==> j < i
  {
  }
}
