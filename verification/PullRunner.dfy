/** The progress writer and the execution of one pull, with a fault possible in every unit of work. */
module PullRunner {
  import opened Options
  import opened Jobs
  import opened PullJob

  // ---- Persisting progress ----

  datatype Persisted = Persisted(at: real, value: real)

  datatype Report = Report(now: real, value: Option<real>, status: string)

  /** What a writer has persisted: never falling, below one, few enough and far enough apart. A clock value that is
      not positive switches the spacing off for the next report. */
  ghost predicate WellSpaced(log: seq<Persisted>, maxEvents: nat, minInterval: real) {
    && |log| <= maxEvents
    && (forall i | 0 <= i < |log| :: 0.0 <= log[i].value < 1.0)
    && (forall i, j | 0 <= i < j < |log| :: log[i].value <= log[j].value)
    && (forall i | 0 <= i < |log| - 1 :: log[i].at > 0.0 ==> log[i + 1].at - log[i].at >= minInterval)
  }

  /** The value persisted of a report: it stays below one, and none counts as zero. */
  ghost function Worth(report: Report): (value: real)
    ensures report.value.None? ==> value == 0.0
    ensures report.value.Some? && report.value.value >= 1.0 ==> value == 0.99
    ensures report.value.Some? && report.value.value < 1.0 ==> value == report.value.value
  {
    if report.value.None? then 0.0 else if report.value.value < 1.0 then report.value.value else 0.99
  }

  /** A report that is to be persisted: there is room, enough time has passed since the last one, and the value does
      not fall. */
  ghost predicate Due(log: seq<Persisted>, last: real, report: Report, maxEvents: nat, minInterval: real) {
    && |log| < maxEvents
    && (log != [] && log[|log| - 1].at > 0.0 ==> report.now - log[|log| - 1].at >= minInterval)
    && Worth(report) >= last
  }

  class ProgressWriter {
    const maxEvents: nat
    const minInterval: real
    var lastPersistedAt: real
    var persistedEvents: nat
    var lastValue: real
    ghost var log: seq<Persisted>

    ghost predicate Valid()
      reads this
    {
      && WellSpaced(log, maxEvents, minInterval)
      && persistedEvents == |log|
      && 0.0 <= lastValue < 1.0
      && (forall i | 0 <= i < |log| :: log[i].value <= lastValue)
      && lastPersistedAt == (if log == [] then 0.0 else log[|log| - 1].at)
    }

    constructor (maxEvents: nat, minInterval: real)
      ensures Valid() && log == [] && lastValue == 0.0
      ensures this.maxEvents == maxEvents && this.minInterval == minInterval
    {
      this.maxEvents, this.minInterval := maxEvents, minInterval;
      lastPersistedAt, persistedEvents, lastValue := 0.0, 0, 0.0;
      log := [];
    }

    /** The closure `write`; it raises when the database does, or when the job is gone. */
    method Write(db: JobStore, id: int, report: Report, fault: bool) returns (raised: bool)
      requires Valid()
      modifies this, db`jobs
      ensures Valid() && db.jobs.Keys == old(db.jobs.Keys)
      ensures Sound(old(db.jobs), db.jobs) && NoneSucceeds(old(db.jobs), db.jobs)
      ensures log == old(log) ==> db.jobs == old(db.jobs)
      ensures log == old(log) ||
              (&& |log| == |old(log)| + 1 && log[..|old(log)|] == old(log) && log[|old(log)|].at == report.now
               && id in db.jobs && !Terminal(old(db.jobs)[id].status)
               && db.jobs == old(db.jobs)[id :=
                    Progressed(old(db.jobs)[id], log[|old(log)|].value, "downloading", report.status)])
      ensures raised ==> log == old(log) && (fault || id !in db.jobs)
      ensures log != old(log) ==> log[|old(log)|].value == Worth(report)
      ensures var due := Due(old(log), old(lastValue), report, maxEvents, minInterval);
              && (log != old(log) <==>
                    && due && !fault && id in old(db.jobs)
                    && (old(db.jobs)[id].status.Pending? || old(db.jobs)[id].status.Running?))
              && (raised <==> due && (fault || id !in old(db.jobs)))
              && lastValue == if due then Worth(report) else old(lastValue)
    {
      hide Sound, Progressed, Evolves, Logged, WellSpaced, ShowsProgress, Worth, NoneSucceeds;
      SoundSame(db.jobs);
      NoneSame(db.jobs);
      if persistedEvents >= maxEvents { return false; }
      var now := report.now;
      if lastPersistedAt > 0.0 && now - lastPersistedAt < minInterval { return false; }
      var value: real;
      if report.value.Some? && report.value.value >= 1.0 {
        value := 0.99;
      } else {
        value := if report.value.Some? then report.value.value else 0.0;
      }
      if value < lastValue { return false; }
      lastValue := value;
      if fault { return true; }
      ghost var before := db.jobs;
      var problem := db.RecordProgress(id, value, "downloading", report.status);
      if problem == Some(InvalidTransition) { return false; }
      if problem == Some(JobNotFound) { return true; }
      SoundProgress(before, id, value, report.status);
      StillSpaced(log, Persisted(now, value), maxEvents, minInterval);
      persistedEvents := persistedEvents + 1;
      lastPersistedAt := now;
      log := log + [Persisted(now, value)];
      return false;
    }
  }

  lemma StillSpaced(log: seq<Persisted>, next: Persisted, maxEvents: nat, minInterval: real)
    requires WellSpaced(log, maxEvents, minInterval) && |log| < maxEvents && 0.0 <= next.value < 1.0
    requires forall i | 0 <= i < |log| :: log[i].value <= next.value
    requires log != [] && log[|log| - 1].at > 0.0 ==> next.at - log[|log| - 1].at >= minInterval
    ensures WellSpaced(log + [next], maxEvents, minInterval)
  {
  }

  lemma NoneSame(jobs: map<int, Job>)
    ensures NoneSucceeds(jobs, jobs)
  {
  }

  lemma SoundProgress(jobs: map<int, Job>, id: int, value: real, status: string)
    requires id in jobs && !Terminal(jobs[id].status) && 0.0 <= value < 1.0
    ensures var after := jobs[id := Progressed(jobs[id], value, "downloading", status)];
            Sound(jobs, after) && NoneSucceeds(jobs, after)
  {
    hide Logged, Evolves;
    ProgressLogged(jobs[id], value, "downloading", status);
    SoundUpdate(jobs, id, Progressed(jobs[id], value, "downloading", status));
  }

  /** The value the next report must not be below: that of the last report persisted. */
  ghost function LastOf(log: seq<Persisted>): real {
    if log == [] then 0.0 else log[|log| - 1].value
  }

  /** What an undisturbed writer makes of one report. */
  ghost predicate Writes(log: seq<Persisted>, report: Report, after: seq<Persisted>, maxEvents: nat,
                         minInterval: real) {
    var due := Due(log, LastOf(log), report, maxEvents, minInterval);
    && (due ==> after == log + [Persisted(report.now, Worth(report))])
    && (!due ==> after == log)
  }

  /** Each report was persisted exactly if it was due after those persisted before it. */
  ghost predicate AllWritten(reports: seq<Report>, log: seq<Persisted>, maxEvents: nat, minInterval: real) {
    exists logs: seq<seq<Persisted>> ::
      && |logs| == |reports| + 1 && logs[0] == [] && logs[|reports|] == log
      && forall i | 0 <= i < |reports| :: Writes(logs[i], reports[i], logs[i + 1], maxEvents, minInterval)
  }

  lemma NoneWritten(maxEvents: nat, minInterval: real)
    ensures AllWritten([], [], maxEvents, minInterval)
  {
    var none: seq<Persisted> := [];
    assert |[none]| == 1 && [none][0] == none;
  }

  lemma OneMoreWritten(reports: seq<Report>, log: seq<Persisted>, report: Report, after: seq<Persisted>,
                       maxEvents: nat, minInterval: real)
    requires AllWritten(reports, log, maxEvents, minInterval) && Writes(log, report, after, maxEvents, minInterval)
    ensures AllWritten(reports + [report], after, maxEvents, minInterval)
  {
    hide Writes;
    var logs: seq<seq<Persisted>> :|
      && |logs| == |reports| + 1 && logs[0] == [] && logs[|reports|] == log
      && forall i | 0 <= i < |reports| :: Writes(logs[i], reports[i], logs[i + 1], maxEvents, minInterval);
    var longer, all := logs + [after], reports + [report];
    forall i | 0 <= i < |all| ensures Writes(longer[i], all[i], longer[i + 1], maxEvents, minInterval) {
      if i < |reports| {
        assert longer[i] == logs[i] && longer[i + 1] == logs[i + 1] && all[i] == reports[i];
      }
    }
    assert longer[|all|] == after;
  }

  /** What the reports leave in the job: one event for each that was persisted, and the last one's value. */
  ghost predicate Reported(before: Job, after: Job, reports: seq<Report>, log: seq<Persisted>, maxEvents: nat,
                           minInterval: real) {
    && AllWritten(reports, log, maxEvents, minInterval)
    && |after.events| == |before.events| + |log|
    && after.progress == if log == [] then before.progress else LastOf(log)
  }

  lemma NoneReported(job: Job, maxEvents: nat, minInterval: real)
    ensures Reported(job, job, [], [], maxEvents, minInterval)
  {
    NoneWritten(maxEvents, minInterval);
  }

  lemma OneMoreReported(before: Job, now: Job, reports: seq<Report>, log: seq<Persisted>, report: Report, after: Job,
                        longer: seq<Persisted>, maxEvents: nat, minInterval: real)
    requires Reported(before, now, reports, log, maxEvents, minInterval)
    requires var due := Due(log, LastOf(log), report, maxEvents, minInterval);
             && (due ==> && |longer| == |log| + 1 && longer[..|log|] == log
                         && longer[|log|] == Persisted(report.now, Worth(report))
                         && |after.events| == |now.events| + 1 && after.progress == Worth(report))
             && (!due ==> longer == log && after == now)
    ensures Reported(before, after, reports + [report], longer, maxEvents, minInterval)
  {
    hide AllWritten, Due, Worth;
    assert Writes(log, report, longer, maxEvents, minInterval);
    OneMoreWritten(reports, log, report, longer, maxEvents, minInterval);
  }

  // ---- The first and the last unit of work ----

  /** The job shows this change as its ending. */
  ghost predicate EndedAs(job: Job, c: Change) {
    && job.status == c.target && job.phase == Or(c.phase, job.phase) && job.message == Or(c.message, job.message)
    && job.error == (if c.error.Some? then c.error else job.error)
    && (c.progress.Some? ==> job.progress == Clamp(c.progress.value))
  }

  lemma ChangedEnds(job: Job, c: Change)
    ensures EndedAs(Changed(job, c), c)
  {
  }

  /** The unit that validates the persisted request and starts the job; a job already running makes it raise. */
  method Start(db: JobStore, id: int, refusal: Option<string>, fault: bool) returns (raised: bool, go: bool)
    modifies db`jobs
    ensures Sound(old(db.jobs), db.jobs) && NoneSucceeds(old(db.jobs), db.jobs) && db.jobs.Keys == old(db.jobs.Keys)
    ensures raised ==> db.jobs == old(db.jobs) && !go
    ensures raised ==> fault || (id in db.jobs && db.jobs[id].status.Running?)
    ensures !raised && !go ==> Settled(db.jobs, id)
    ensures go ==> refusal.None? && id in db.jobs && db.jobs[id] == Changed(old(db.jobs)[id], START)
    ensures !fault && Load(old(db.jobs), id).Some? ==>
              if refusal.Some? then
                !raised && !go && EndedAs(db.jobs[id], Failure(refusal.value, refusal.value))
              else go <==> old(db.jobs)[id].status.Pending?
  {
    hide Evolves, Logged, Sound, Changed;
    SoundSame(db.jobs);
    if fault { return true, false; }
    if Load(db.jobs, id).None? { return false, false; }
    if refusal.Some? {
      ChangedEnds(db.jobs[id], Failure(refusal.value, refusal.value));
      var failed := MarkFailed(db, id, Failure(refusal.value, refusal.value), false);
      return false, false;
    }
    if START.target in Targets(db.jobs[id].status) {
      SoundChange(db.jobs, id, START);
      ChangedStatus(db.jobs[id], START);
    }
    var problem := db.Transition(id, START);
    if problem.Some? { return true, false; }
    return false, true;
  }

  /** The unit that records success after discovery has been asked. */
  method Finish(db: JobStore, id: int, cancelled: bool, confirmed: bool, fault: bool) returns (raised: bool)
    modifies db`jobs
    ensures Sound(old(db.jobs), db.jobs) && db.jobs.Keys == old(db.jobs.Keys)
    ensures raised ==> db.jobs == old(db.jobs)
    ensures raised ==> fault || (id in db.jobs && db.jobs[id].status.Pending?)
    ensures !raised ==> Settled(db.jobs, id)
    ensures cancelled || !confirmed ==> NoneSucceeds(old(db.jobs), db.jobs)
    ensures forall other | other in db.jobs && other != id :: db.jobs[other] == old(db.jobs)[other]
    ensures !raised && Load(old(db.jobs), id).Some? ==>
              db.jobs[id] == Changed(old(db.jobs)[id],
                if cancelled then CANCELLATION
                else if !confirmed then NOT_CONFIRMED else SUCCESS)
  {
    hide Evolves, Logged, Sound, Changed;
    SoundSame(db.jobs);
    if fault { return true; }
    if Load(db.jobs, id).None? { return false; }
    if cancelled {
      raised := MarkFailed(db, id, CANCELLATION, false);
      return;
    }
    if !confirmed {
      raised := MarkFailed(db, id, NOT_CONFIRMED, false);
      return;
    }
    if SUCCESS.target in Targets(db.jobs[id].status) {
      SoundChange(db.jobs, id, SUCCESS);
      ChangedStatus(db.jobs[id], SUCCESS);
    }
    var problem := db.Transition(id, SUCCESS);
    return problem.Some?;
  }

  const DENIAL := Failure("ADMISSION_DENIED", "Model acquisition was blocked by resource policy.")
  const NOT_EXECUTED := Failure("ACQUISITION_RUNNER_FAILED", "Model acquisition could not be executed.")
  const UNSUPPORTED := Failure("UNSUPPORTED_RUNTIME", "The selected runtime cannot perform a native model pull.")
  const NOT_CONFIRMED := Failure("DISCOVERY_CONFIRMATION_FAILED", UNCONFIRMED)
  const UNCONFIRMED := "The acquired model could not be confirmed by runtime discovery."

  // ---- One execution ----

  /** How the adapter's work ended, after it had reported its progress. */
  datatype Outcome = Denied | Unexecutable | Unsupported | Acquired | Stopped | Refused(code: string, message: string)

  /** Everything the execution does not decide: what the persisted request and the adapter turn out to be, and at each
      step what others have done meanwhile, whether the flag is set, and whether the database fails. */
  datatype World = World(
    refusal: Option<string>,
    reports: seq<Report>,
    outcome: Outcome,
    lookupRaises: bool,
    confirmed: bool,
    others: nat -> seq<Other>,
    cancelled: nat -> bool,
    fault: nat -> bool)

  /** The only way a pull can come to succeed. */
  predicate MaySucceed(w: World) {
    w.refusal.None? && w.outcome.Acquired? && w.confirmed && !w.lookupRaises && !w.cancelled(0) && !w.cancelled(1)
    && !w.cancelled(2) && !w.cancelled(3)
  }

  /** One of the execution's own units of work meets a database fault. */
  ghost predicate UnitFails(w: World) {
    exists k | 0 <= k <= 5 :: w.fault(k)
  }

  /** Nobody else does anything, and the database does not fail. */
  ghost predicate Quiet(w: World) {
    forall k: nat :: w.others(k) == [] && !w.fault(k)
  }

  /** The execution comes to ask discovery, and that raises. */
  predicate AsksInVain(w: World) {
    w.refusal.None? && !w.cancelled(0) && !w.cancelled(1) && !w.cancelled(2) && w.outcome.Acquired? && w.lookupRaises
  }

  /** What is recorded of a pull that nothing disturbs. */
  function Ending(w: World): Change {
    if w.cancelled(0) then CANCELLATION
    else if w.refusal.Some? then Failure(w.refusal.value, w.refusal.value)
    else if w.cancelled(1) then CANCELLATION
    else AcquiredEnding(w)
  }

  function AcquiredEnding(w: World): Change {
    match w.outcome
    case Denied => DENIAL
    case Unexecutable => NOT_EXECUTED
    case Unsupported => UNSUPPORTED
    case Acquired => if w.cancelled(2) then CANCELLATION else Confirmation(w)
    case Stopped => CANCELLATION
    case Refused(code, message) => if w.cancelled(2) then CANCELLATION else Failure(code, message)
  }

  /** What is recorded of an acquired pull once discovery has answered. */
  function Confirmation(w: World): Change {
    if w.cancelled(3) then CANCELLATION else if w.confirmed then SUCCESS else NOT_CONFIRMED
  }

  ghost predicate Tells(job: Job, status: Status, phase: string, code: string) {
    job.status == status && job.phase == phase && job.error == Some(code)
  }

  /** What a pull that nothing disturbs shows in the end, case by case. The flag is looked at before anything else,
      once the job has started, when the adapter is done, and once discovery has answered. */
  ghost predicate EndsRight(w: World, job: Job) {
    var unflagged := !w.cancelled(0) && !w.cancelled(1);
    var sent := unflagged && w.refusal.None?;
    && (w.cancelled(0) ==> Tells(job, Cancelled, "cancelled", "CANCELLED"))
    && (!w.cancelled(0) && w.refusal.Some? ==> Tells(job, Failed, "failed", w.refusal.value))
    && (!w.cancelled(0) && w.refusal.None? && w.cancelled(1) ==> Tells(job, Cancelled, "cancelled", "CANCELLED"))
    && (sent && w.outcome.Denied? ==> Tells(job, Failed, "failed", "ADMISSION_DENIED"))
    && (sent && w.outcome.Unexecutable? ==> Tells(job, Failed, "failed", "ACQUISITION_RUNNER_FAILED"))
    && (sent && w.outcome.Unsupported? ==> Tells(job, Failed, "failed", "UNSUPPORTED_RUNTIME"))
    && (sent && w.outcome.Stopped? ==> Tells(job, Cancelled, "cancelled", "CANCELLED"))
    && (sent && (w.outcome.Acquired? || w.outcome.Refused?) && w.cancelled(2) ==>
          Tells(job, Cancelled, "cancelled", "CANCELLED"))
    && (sent && w.outcome.Refused? && !w.cancelled(2) ==>
          Tells(job, Failed, "failed", w.outcome.code) && job.message == w.outcome.message)
    && (sent && w.outcome.Acquired? && !w.cancelled(2) ==>
          && (w.cancelled(3) ==> Tells(job, Cancelled, "cancelled", "CANCELLED"))
          && (!w.cancelled(3) && w.confirmed ==>
                Tells(job, Succeeded, "complete", "ACQUISITION_SUCCEEDED") && job.progress == 1.0)
          && (!w.cancelled(3) && !w.confirmed ==> Tells(job, Failed, "failed", "DISCOVERY_CONFIRMATION_FAILED")))
  }

  lemma EndingIsRight(w: World, job: Job)
    requires EndedAs(job, Ending(w))
    ensures EndsRight(w, job)
  {
  }

  predicate Queued(jobs: map<int, Job>, id: int) {
    id in jobs && jobs[id].kind.ModelPull? && jobs[id].status.Pending?
  }

  /** Why an execution may raise: a fault in one of its units of work, a raising lookup, or a job that is running
      already. */
  ghost predicate MayRaise(w: World, jobs: map<int, Job>, id: int) {
    UnitFails(w) || w.lookupRaises || (id in jobs && jobs[id].status.Running?)
  }

  lemma ChangedKeepsKind(job: Job)
    ensures Changed(job, START).kind == job.kind && Changed(job, START).status.Running?
  {
  }

  predicate Pulling(jobs: map<int, Job>, id: int) {
    id in jobs && jobs[id].kind.ModelPull? && jobs[id].status.Running?
  }

  predicate Begun(jobs: map<int, Job>, id: int) {
    id in jobs && !jobs[id].status.Pending?
  }

  /** A job that is past its beginning stays so. */
  lemma BegunStays(a: map<int, Job>, b: map<int, Job>, id: int)
    requires Sound(a, b) && Begun(a, id)
    ensures Begun(b, id)
  {
    hide Logged;
  }

  lemma WrittenStillPulls(job: Job, message: string)
    ensures forall value :: Progressed(job, value, "downloading", message).status == job.status
    ensures forall value :: Progressed(job, value, "downloading", message).kind == job.kind
    ensures forall value | 0.0 <= value < 1.0 :: Progressed(job, value, "downloading", message).progress == value
    ensures forall value :: |Progressed(job, value, "downloading", message).events| == |job.events| + 1
  {
  }

  ghost predicate SucceedsOnlyIf(before: map<int, Job>, after: map<int, Job>, may: bool) {
    !may ==> NoneSucceeds(before, after)
  }

  class PullRunner {
    const db: JobStore
    const maxEvents: nat
    const minInterval: real

    constructor (db: JobStore, maxEvents: nat, minInterval: real)
      ensures this.db == db
    {
      this.db, this.maxEvents, this.minInterval := db, maxEvents, minInterval;
    }

    /** A unit that ends the job, after whatever others did first. */
    method End(id: int, ending: Change, w: World, step: nat) returns (raised: bool)
      requires db.Valid() && PullChange(ending)
      requires ending.target.Failed? || ending.target.Cancelled?
      modifies db
      ensures db.Valid() && old(db.jobs.Keys) <= db.jobs.Keys
      ensures Sound(old(db.jobs), db.jobs) && NoneSucceeds(old(db.jobs), db.jobs)
      ensures raised == w.fault(step)
      ensures !raised ==> Settled(db.jobs, id)
      ensures w.others(step) == [] && !w.fault(step) && Load(old(db.jobs), id).Some? ==>
                id in db.jobs && EndedAs(db.jobs[id], ending)
    {
      hide Sound, Settled, Changed, EndedAs;
      if id in db.jobs { ChangedEnds(db.jobs[id], ending); }
      Others(db, w.others(step));
      ghost var before := db.jobs;
      raised := MarkFailed(db, id, ending, w.fault(step));
      SoundOnward(old(db.jobs), before, db.jobs);
    }

    /** The adapter's run, as far as the jobs table sees it: reports until one cannot be recorded. */
    method Acquire(id: int, w: World) returns (writer: ProgressWriter)
      requires db.Valid()
      modifies db
      ensures db.Valid() && old(db.jobs.Keys) <= db.jobs.Keys
      ensures Sound(old(db.jobs), db.jobs) && NoneSucceeds(old(db.jobs), db.jobs)
      ensures fresh(writer) && writer.Valid() && WellSpaced(writer.log, maxEvents, minInterval)
      ensures Quiet(w) && Pulling(old(db.jobs), id) ==>
                && Pulling(db.jobs, id)
                && Reported(old(db.jobs)[id], db.jobs[id], w.reports, writer.log, maxEvents, minInterval)
    {
      hide Sound, WellSpaced, AllWritten, Writes, Worth, Due, Reported;
      writer := new ProgressWriter(maxEvents, minInterval);
      SoundSame(db.jobs);
      if id in db.jobs { NoneReported(db.jobs[id], maxEvents, minInterval); }
      for i := 0 to |w.reports|
        invariant db.Valid() && old(db.jobs.Keys) <= db.jobs.Keys
        invariant Sound(old(db.jobs), db.jobs) && NoneSucceeds(old(db.jobs), db.jobs)
        invariant writer.Valid() && fresh(writer)
        invariant writer.maxEvents == maxEvents && writer.minInterval == minInterval
        invariant Quiet(w) && Pulling(old(db.jobs), id) ==>
                    && Pulling(db.jobs, id) && writer.lastValue == LastOf(writer.log)
                    && Reported(old(db.jobs)[id], db.jobs[id], w.reports[..i], writer.log, maxEvents, minInterval)
      {
        ghost var before := db.jobs;
        Others(db, w.others(10 + i));
        ghost var middle := db.jobs;
        SoundOnward(old(db.jobs), before, middle);
        if id in db.jobs { WrittenStillPulls(db.jobs[id], w.reports[i].status); }
        ghost var log := writer.log;
        var raised := writer.Write(db, id, w.reports[i], w.fault(10 + i));
        if Quiet(w) && Pulling(old(db.jobs), id) {
          OneMoreReported(old(db.jobs)[id], middle[id], w.reports[..i], log, w.reports[i], db.jobs[id], writer.log,
                          maxEvents, minInterval);
          assert w.reports[..i] + [w.reports[i]] == w.reports[..i + 1];
        }
        SoundOnward(old(db.jobs), middle, db.jobs);
        if raised { break; }
      }
      assert w.reports[..|w.reports|] == w.reports;
    }

    /** The part of `_finalize` for a pull the adapter acquired: ask discovery, then record what it says. */
    method Confirm(id: int, w: World) returns (raised: bool)
      requires db.Valid()
      modifies db
      ensures db.Valid() && old(db.jobs.Keys) <= db.jobs.Keys
      ensures Sound(old(db.jobs), db.jobs)
      ensures SucceedsOnlyIf(old(db.jobs), db.jobs, w.confirmed && !w.lookupRaises && !w.cancelled(3))
      ensures !raised ==> Settled(db.jobs, id)
      ensures raised ==> w.fault(4) || w.fault(5) || w.lookupRaises || !Begun(old(db.jobs), id)
      ensures Quiet(w) && Pulling(old(db.jobs), id) ==>
                (raised <==> w.lookupRaises) && (!raised ==> id in db.jobs && EndedAs(db.jobs[id], Confirmation(w)))
    {
      hide Sound, Settled, Changed, EndedAs;
      Others(db, w.others(4));
      ghost var before := db.jobs;
      if w.fault(4) { return true; }
      if Load(db.jobs, id).None? {
        NotLoadedSettled(db.jobs, id);
        return false;
      }
      if w.lookupRaises { return true; }
      Others(db, w.others(5));
      SoundOnward(old(db.jobs), before, db.jobs);
      if Begun(old(db.jobs), id) { BegunStays(old(db.jobs), db.jobs, id); }
      before := db.jobs;
      if id in db.jobs { ChangedEnds(db.jobs[id], Confirmation(w)); }
      raised := Finish(db, id, w.cancelled(3), w.confirmed, w.fault(5));
      SoundOnward(old(db.jobs), before, db.jobs);
    }

    /** `_finalize` */
    method Finalize(id: int, w: World) returns (raised: bool)
      requires db.Valid()
      requires w.outcome.Acquired? || w.outcome.Stopped? || w.outcome.Refused?
      modifies db
      ensures db.Valid() && old(db.jobs.Keys) <= db.jobs.Keys
      ensures Sound(old(db.jobs), db.jobs)
      ensures SucceedsOnlyIf(old(db.jobs), db.jobs,
                             w.outcome.Acquired? && w.confirmed && !w.lookupRaises && !w.cancelled(2)
                                 && !w.cancelled(3))
      ensures !raised ==> Settled(db.jobs, id)
      ensures raised ==> UnitFails(w) || w.lookupRaises || !Begun(old(db.jobs), id)
      ensures Quiet(w) && Pulling(old(db.jobs), id) ==>
                && (raised <==> w.outcome.Acquired? && !w.cancelled(2) && w.lookupRaises)
                && (!raised ==> id in db.jobs && EndedAs(db.jobs[id], AcquiredEnding(w)))
    {
      hide Sound, Settled, Changed, EndedAs;
      if w.cancelled(2) {
        raised := End(id, CANCELLATION, w, 3);
        return;
      }
      match w.outcome {
        case Acquired => raised := Confirm(id, w);
        case Stopped => raised := End(id, CANCELLATION, w, 3);
        case Refused(code, message) => raised := End(id, Failure(code, message), w, 3);
      }
    }

    /** `execute` */
    method Execute(id: int, w: World) returns (raised: bool)
      requires db.Valid()
      modifies db
      ensures db.Valid() && old(db.jobs.Keys) <= db.jobs.Keys
      ensures Sound(old(db.jobs), db.jobs) && SucceedsOnlyIf(old(db.jobs), db.jobs, MaySucceed(w))
      ensures !raised ==> Settled(db.jobs, id)
      ensures raised ==> MayRaise(w, old(db.jobs), id)
      ensures Quiet(w) && Queued(old(db.jobs), id) ==>
                && (raised <==> AsksInVain(w))
                && (!raised ==> id in db.jobs && EndedAs(db.jobs[id], Ending(w)) && EndsRight(w, db.jobs[id]))
      ensures Quiet(w) && Queued(old(db.jobs), id) && MaySucceed(w) ==>
                !raised && id in db.jobs && db.jobs[id].status.Succeeded? && db.jobs[id].progress == 1.0
    {
      hide Sound, Settled, Changed, EndsRight;
      forall job | EndedAs(job, Ending(w)) ensures EndsRight(w, job) { EndingIsRight(w, job); }
      if w.cancelled(0) {
        raised := End(id, CANCELLATION, w, 0);
        return;
      }
      Others(db, w.others(1));
      ghost var before := db.jobs;
      var go: bool;
      if id in db.jobs { ChangedKeepsKind(db.jobs[id]); }
      raised, go := Start(db, id, w.refusal, w.fault(1));
      SoundOnward(old(db.jobs), before, db.jobs);
      if raised || !go { return; }
      before := db.jobs;
      if w.cancelled(1) {
        raised := End(id, CANCELLATION, w, 2);
        SoundOnward(old(db.jobs), before, db.jobs);
        return;
      }
      raised := Conclude(id, w);
      SoundOnward(old(db.jobs), before, db.jobs);
    }

    /** The adapter's run and what is made of its outcome. */
    method Conclude(id: int, w: World) returns (raised: bool)
      requires db.Valid()
      modifies db
      ensures db.Valid() && old(db.jobs.Keys) <= db.jobs.Keys
      ensures Sound(old(db.jobs), db.jobs)
      ensures SucceedsOnlyIf(old(db.jobs), db.jobs,
                             w.outcome.Acquired? && w.confirmed && !w.lookupRaises && !w.cancelled(2)
                                 && !w.cancelled(3))
      ensures !raised ==> Settled(db.jobs, id)
      ensures raised ==> UnitFails(w) || w.lookupRaises || !Begun(old(db.jobs), id)
      ensures Quiet(w) && Pulling(old(db.jobs), id) ==>
                && (raised <==> w.outcome.Acquired? && !w.cancelled(2) && w.lookupRaises)
                && (!raised ==> id in db.jobs && EndedAs(db.jobs[id], AcquiredEnding(w)))
    {
      hide Sound, Settled, Changed, EndedAs, Reported;
      var writer := Acquire(id, w);
      if Begun(old(db.jobs), id) { BegunStays(old(db.jobs), db.jobs, id); }
      ghost var before := db.jobs;
      match w.outcome {
        case Denied =>
          raised := End(id, DENIAL, w, 2);
        case Unexecutable =>
          raised := End(id, NOT_EXECUTED, w, 2);
        case Unsupported =>
          raised := End(id, UNSUPPORTED, w, 2);
        case _ => raised := Finalize(id, w);
      }
      SoundOnward(old(db.jobs), before, db.jobs);
    }

    /** The worker's body for one job: execute it and, if that raises, mark it failed. Whether the job has ended is in
        doubt only when both the execution raises and marking it failed does. */
    method Work(id: int, w: World, late: seq<Other>, handlerFault: bool) returns (lost: bool)
      requires db.Valid()
      modifies db
      ensures db.Valid() && old(db.jobs.Keys) <= db.jobs.Keys
      ensures Sound(old(db.jobs), db.jobs) && SucceedsOnlyIf(old(db.jobs), db.jobs, MaySucceed(w))
      ensures Settled(db.jobs, id) || handlerFault
      ensures if lost then handlerFault && MayRaise(w, old(db.jobs), id) else Settled(db.jobs, id)
    {
      hide Sound, Settled, Changed;
      lost := false;
      var raised := Execute(id, w);
      if raised {
        ghost var before := db.jobs;
        Others(db, late);
        SoundOnward(old(db.jobs), before, db.jobs);
        before := db.jobs;
        lost := MarkFailed(db, id, NOT_EXECUTED, handlerFault);
        SoundOnward(old(db.jobs), before, db.jobs);
      }
    }
  }

  lemma NotLoadedSettled(jobs: map<int, Job>, id: int)
    requires Load(jobs, id).None?
    ensures Settled(jobs, id)
  {
  }
}
