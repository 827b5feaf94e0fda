/** The supervisor and the jobs table together: what the supervisor holds to have ended has ended in the table. */
module Acquisition {
  import opened Options
  import opened Jobs
  import opened PullJob
  import opened Supervision
  import opened Supervisor
  import PullRunner

  /** The supervisor's state beside the persisted jobs. */
  datatype Joint = Joint(s: State, jobs: map<int, Job>)

  ghost predicate IsPull(jobs: map<int, Job>, id: int) {
    id in jobs && jobs[id].kind.ModelPull?
  }

  ghost predicate Ended(jobs: map<int, Job>, id: int) {
    IsPull(jobs, id) && Terminal(jobs[id].status)
  }

  /** What the table must show after a step of the supervisor: a pull is created before it is dispatched, and a job is
      said to have ended only when it has. */
  ghost predicate Backed(before: Joint, a: Action, jobs: map<int, Job>)
    requires Enabled(before.s, a)
  {
    match a
    case Dispatch(job, _, _) => IsPull(before.jobs, job)
    case Finishes(w, fault) => fault || Settled(jobs, before.s.threads[w].entry.job)
    case SweepWrites(ids, fault) => fault || forall id | id in ids && id in jobs :: Terminal(jobs[id].status)
    case EndedElsewhere(job) => IsPull(before.jobs, job) && Settled(jobs, job)
    case _ => true
  }

  /** One step of the supervisor, and whatever was done to the table meanwhile. */
  ghost predicate JointStep(before: Joint, a: Action, after: Joint, maxQueue: nat) {
    && Enabled(before.s, a) && after.s == Step(before.s, a, maxQueue)
    && Sound(before.jobs, after.jobs)
    && Backed(before, a, after.jobs)
  }

  /** Every job the supervisor has to do with is a pull in the table. */
  ghost predicate KnownIn(s: State, jobs: map<int, Job>) {
    && (forall id | id in s.tokens :: IsPull(jobs, id))
    && (forall w | 0 <= w < |s.threads| && Busy(s.threads[w]) :: IsPull(jobs, s.threads[w].entry.job))
    && (forall id | id in s.log.awaiting :: IsPull(jobs, id))
    && (forall i | 0 <= i < |s.log.accepted| :: IsPull(jobs, s.log.accepted[i].job))
  }

  /** And those it holds to have ended have ended in the table. */
  ghost predicate Known(j: Joint) {
    KnownIn(j.s, j.jobs) && forall id | id in j.s.log.terminal :: Ended(j.jobs, id)
  }

  // ---- What the table keeps ----

  lemma PullStays(a: map<int, Job>, b: map<int, Job>, id: int)
    requires Sound(a, b)
    ensures IsPull(a, id) ==> IsPull(b, id)
    ensures Ended(a, id) ==> Ended(b, id) && b[id] == a[id]
  {
    hide AllLogged;
  }

  lemma EndedIfSettled(a: map<int, Job>, b: map<int, Job>, id: int)
    requires Sound(a, b) && IsPull(a, id)
    ensures Settled(b, id) <==> Ended(b, id)
  {
    PullStays(a, b, id);
  }

  // ---- One step ----

  /** The jobs the supervisor newly holds to have ended. */
  lemma NewlyEnded(before: Joint, a: Action, after: Joint, maxQueue: nat, id: int)
    requires Known(before) && JointStep(before, a, after, maxQueue)
    requires id in after.s.log.terminal && id !in before.s.log.terminal
    ensures Ended(after.jobs, id)
  {
    hide Sound, Settled, Taken, Dispatched, Queued, Serials, Ended, IsPull;
    match a {
      case Finishes(w, fault) => EndedIfSettled(before.jobs, after.jobs, id);
      case SweepWrites(ids, fault) =>
        assert IsPull(before.jobs, id);
        PullStays(before.jobs, after.jobs, id);
        PullTerminal(before.jobs, after.jobs, id);
      case EndedElsewhere(job) => EndedIfSettled(before.jobs, after.jobs, id);
      case Dispatch(job, generation, starts) => DispatchedLog(before.s, job, generation, starts, maxQueue);
      case Takes(w) => TakenLog(before.s, w);
      case _ =>
    }
  }

  lemma PullTerminal(a: map<int, Job>, b: map<int, Job>, id: int)
    requires IsPull(a, id) && IsPull(b, id)
    ensures id in a && id in b && (Terminal(b[id].status) ==> Ended(b, id))
  {
  }

  lemma DispatchedLog(s: State, job: int, generation: nat, starts: bool, maxQueue: nat)
    ensures var s' := Dispatched(s, job, generation, starts, maxQueue);
            && s'.log.terminal == s.log.terminal && s'.log.awaiting == s.log.awaiting
            && (forall id | id in s'.tokens :: id in s.tokens || id == job)
            && (forall i | 0 <= i < |s'.log.accepted| ::
                  s'.log.accepted[i].job == job || (i < |s.log.accepted| && s'.log.accepted[i] == s.log.accepted[i]))
            && (forall w | 0 <= w < |s'.threads| && Busy(s'.threads[w]) ::
                  w < |s.threads| && s'.threads[w] == s.threads[w])
  {
  }

  lemma TakenLog(s: State, w: nat)
    requires Enabled(s, Takes(w))
    ensures var s' := Taken(s, w);
            && s'.log.terminal == s.log.terminal && s'.log.awaiting == s.log.awaiting && s'.tokens == s.tokens
            && s'.log.accepted == s.log.accepted && |s'.threads| == |s.threads|
            && (forall v | 0 <= v < |s.threads| && v != w :: s'.threads[v] == s.threads[v])
            && (Busy(s'.threads[w]) ==> s.pending != [] && s'.threads[w].entry.job == s.pending[0])
  {
  }

  lemma QueueTokened(s: State, maxQueue: nat)
    requires Inv(s, maxQueue)
    ensures forall i | 0 <= i < |s.pending| :: s.pending[i] in s.tokens
  {
    hide Order, Flags, Accounted, HeldToken, OneWorker, Generations;
  }

  lemma KnownDispatched(s: State, jobs: map<int, Job>, job: int, generation: nat, starts: bool, maxQueue: nat)
    requires KnownIn(s, jobs) && IsPull(jobs, job)
    ensures KnownIn(Dispatched(s, job, generation, starts, maxQueue), jobs)
  {
    DispatchedLog(s, job, generation, starts, maxQueue);
    hide Dispatched, IsPull;
  }

  lemma KnownTaken(s: State, jobs: map<int, Job>, w: nat, maxQueue: nat)
    requires Inv(s, maxQueue) && Enabled(s, Takes(w)) && KnownIn(s, jobs)
    ensures KnownIn(Taken(s, w), jobs)
  {
    TakenLog(s, w);
    QueueTokened(s, maxQueue);
    hide Taken, Inv, IsPull;
  }

  lemma KnownSwept(s: State, jobs: map<int, Job>, maxQueue: nat)
    requires Inv(s, maxQueue) && Enabled(s, Sweep) && KnownIn(s, jobs)
    ensures KnownIn(Step(s, Sweep, maxQueue), jobs)
  {
    QueueTokened(s, maxQueue);
    hide Inv, IsPull, Queued;
  }

  lemma KnownBefore(before: Joint, a: Action, after: Joint, maxQueue: nat)
    requires Inv(before.s, maxQueue) && KnownIn(before.s, before.jobs) && JointStep(before, a, after, maxQueue)
    ensures KnownIn(after.s, before.jobs)
  {
    hide Sound, Settled, Taken, Dispatched, Queued, Serials, Inv, IsPull;
    match a {
      case Dispatch(job, generation, starts) =>
        hide KnownIn;
        KnownDispatched(before.s, before.jobs, job, generation, starts, maxQueue);
      case Takes(w) =>
        hide KnownIn;
        KnownTaken(before.s, before.jobs, w, maxQueue);
      case Sweep =>
        hide KnownIn;
        KnownSwept(before.s, before.jobs, maxQueue);
      case _ =>
    }
  }

  lemma KnownLater(s: State, a: map<int, Job>, b: map<int, Job>)
    requires KnownIn(s, a) && Sound(a, b)
    ensures KnownIn(s, b)
  {
    forall id | IsPull(a, id) ensures IsPull(b, id) { PullStays(a, b, id); }
    hide Sound, IsPull;
  }

  lemma JointKeeps(before: Joint, a: Action, after: Joint, maxQueue: nat)
    requires Inv(before.s, maxQueue) && Known(before) && JointStep(before, a, after, maxQueue)
    ensures Inv(after.s, maxQueue) && Known(after)
  {
    hide Inv, Step, Enabled, Sound, Backed, KnownIn, Ended;
    StepKeeps(before.s, a, maxQueue);
    KnownBefore(before, a, after, maxQueue);
    KnownLater(after.s, before.jobs, after.jobs);
    forall id | id in after.s.log.terminal ensures Ended(after.jobs, id) {
      if id in before.s.log.terminal {
        PullStays(before.jobs, after.jobs, id);
      } else {
        NewlyEnded(before, a, after, maxQueue, id);
      }
    }
  }

  // ---- Whole runs ----

  /** A run of the supervisor beside the table, one joint state after the other. */
  ghost predicate JointRun(states: seq<Joint>, actions: seq<Action>, maxQueue: nat) {
    && |states| == |actions| + 1 && states[0].s == INITIAL
    && forall i | 0 <= i < |actions| :: JointStep(states[i], actions[i], states[i + 1], maxQueue)
  }

  lemma {:induction false} JointRunKeeps(states: seq<Joint>, actions: seq<Action>, maxQueue: nat, n: nat)
    requires JointRun(states, actions, maxQueue) && n < |states|
    ensures Inv(states[n].s, maxQueue) && Known(states[n])
  {
    hide JointStep, Inv;
    if n == 0 {
      InitInv(maxQueue);
    } else {
      hide Known;
      JointRunKeeps(states, actions, maxQueue, n - 1);
      JointKeeps(states[n - 1], actions[n - 1], states[n], maxQueue);
    }
  }

  /** A job that has ended in the table stays as it is for the rest of the run. */
  lemma {:induction false} EndedStays(states: seq<Joint>, actions: seq<Action>, maxQueue: nat, m: nat, n: nat, id: int)
    requires JointRun(states, actions, maxQueue) && m <= n < |states| && Ended(states[m].jobs, id)
    ensures Ended(states[n].jobs, id) && states[n].jobs[id] == states[m].jobs[id]
    decreases n
  {
    if m < n {
      EndedStays(states, actions, maxQueue, m, n - 1, id);
      assert JointStep(states[n - 1], actions[n - 1], states[n], maxQueue);
      hide Step, Enabled, Backed, JointRun, Sound, Ended;
      PullStays(states[n - 1].jobs, states[n].jobs, id);
    }
  }

  /** After every run: each pull ever accepted is waiting, executing or about to be swept, or the database failed on it,
      or its persisted status is terminal. */
  lemma AcceptedPullsEnd(states: seq<Joint>, actions: seq<Action>, maxQueue: nat, i: nat)
    requires JointRun(states, actions, maxQueue) && i < |states[|actions|].s.log.accepted|
    ensures var last := states[|actions|];
            var id := last.s.log.accepted[i].job;
            && IsPull(last.jobs, id)
            && (|| Waits(last.s.pending, id)
                || (|last.s.threads| == 1 && last.s.threads[0].Executing? && last.s.threads[0].entry.job == id)
                || id in last.s.log.awaiting || id in last.s.log.faulted
                || Ended(last.jobs, id))
  {
    hide JointStep, Queue, Order, Flags, HeldToken, OneWorker, Generations, Waits;
    JointRunKeeps(states, actions, maxQueue, |actions|);
    var last := states[|actions|];
    assert Somewhere(last.s, last.s.log.accepted[i].job);
  }

  /** Once shutdown's sweep is written and the worker is not in the middle of a job, every pull ever accepted has ended
      in the table, unless the database failed on it. */
  lemma ShutdownEndsPulls(states: seq<Joint>, actions: seq<Action>, maxQueue: nat)
    requires JointRun(states, actions, maxQueue)
    requires var s := states[|actions|].s;
             && s.pending == [] && s.log.awaiting == {}
             && forall w | 0 <= w < |s.threads| :: !s.threads[w].Executing?
    ensures var last := states[|actions|];
            forall i | 0 <= i < |last.s.log.accepted| ::
              Ended(last.jobs, last.s.log.accepted[i].job) || last.s.log.accepted[i].job in last.s.log.faulted
  {
    hide JointStep, Ended, IsPull;
    var last := states[|actions|];
    forall i | 0 <= i < |last.s.log.accepted|
      ensures Ended(last.jobs, last.s.log.accepted[i].job) || last.s.log.accepted[i].job in last.s.log.faulted
    {
      AcceptedPullsEnd(states, actions, maxQueue, i);
    }
  }

  // ---- The objects take these steps ----

  /** The worker runs the job it took: the runner's work is what backs the step that says it has ended. Steps that
      others take meanwhile are joint steps of their own, and what they do to the table leaves an ended pull as it
      is. The job counts as lost only when both the execution and marking it failed have raised. */
  method WorkerRuns(supervisor: AcquisitionSupervisor, runner: PullRunner.PullRunner, w: nat, world: PullRunner.World,
                    late: seq<Other>, handlerFault: bool) returns (lost: bool)
    requires supervisor.Valid() && runner.db.Valid()
    requires w < |supervisor.threads| && supervisor.threads[w].Executing?
    modifies supervisor`threads, supervisor`log, runner.db
    ensures supervisor.Valid() && runner.db.Valid()
    ensures JointStep(old(Joint(supervisor.View(), runner.db.jobs)), Finishes(w, lost),
                      Joint(supervisor.View(), runner.db.jobs), supervisor.maxQueue)
    ensures lost ==>
              && handlerFault
              && PullRunner.MayRaise(world, old(runner.db.jobs), old(supervisor.threads[w].entry.job))
  {
    hide Sound, Settled, Inv, PullRunner.MayRaise;
    lost := runner.Work(supervisor.threads[w].entry.job, world, late, handlerFault);
    supervisor.Finish(w, lost);
  }

  /** `_mark_pending_interrupted`: the sweep under the lock, and then one unit of work over what it found. */
  method ShutdownSweeps(supervisor: AcquisitionSupervisor, db: JobStore, fault: bool) returns (ghost between: State)
    requires supervisor.Valid() && supervisor.stop
    modifies supervisor, db`jobs
    ensures supervisor.Valid()
    ensures JointStep(old(Joint(supervisor.View(), db.jobs)), Sweep, Joint(between, old(db.jobs)), supervisor.maxQueue)
    ensures JointStep(Joint(between, old(db.jobs)), SweepWrites(old(supervisor.tokens.Keys), fault),
                      Joint(supervisor.View(), db.jobs), supervisor.maxQueue)
    ensures supervisor.pending == [] && supervisor.tokens == map[]
  {
    hide Sound, Inv, Waits, Distinct;
    SoundSame(db.jobs);
    SweepEnabled(supervisor.View(), supervisor.maxQueue);
    var ids := supervisor.SweepAll();
    between := supervisor.View();
    if !fault {
      SweepJobs(db, ids);
    }
    InSequence(ids);
    supervisor.SweepWritten(old(supervisor.tokens.Keys), fault);
  }

  lemma SweepEnabled(s: State, maxQueue: nat)
    requires Inv(s, maxQueue) && s.stop
    ensures Enabled(s, Sweep)
  {
    hide Order, Flags, Accounted, HeldToken, OneWorker, Generations;
  }

  lemma InSequence(ids: seq<int>)
    ensures forall id | Waits(ids, id) :: id in ids
  {
  }
}
