/** What the supervisor's queue can always do while it is not shutting down: fill to its limit, and drain. */
module QueueLaws {
  import opened Options
  import opened Supervision

  // ---- Filling ----

  /** Jobs that could be dispatched: positive, without a token, each once. */
  ghost predicate Fresh(s: State, jobs: seq<int>) {
    && Distinct(jobs)
    && forall k | 0 <= k < |jobs| :: jobs[k] > 0 && jobs[k] !in s.tokens
  }

  function Dispatches(jobs: seq<int>): (r: seq<Action>)
    ensures |r| == |jobs|
    ensures forall k | 0 <= k < |jobs| :: r[k] == Dispatch(jobs[k], 0, true)
  {
    seq(|jobs|, k requires 0 <= k < |jobs| => Dispatch(jobs[k], 0, true))
  }

  ghost predicate Accepting(s: State, maxQueue: nat) {
    Inv(s, maxQueue) && !s.stop
  }

  /** A fresh job is queued at the end with a token of its own, unless the queue is full; then nothing changes. */
  lemma FreshDispatch(s: State, job: int, maxQueue: nat)
    requires Accepting(s, maxQueue) && job > 0 && job !in s.tokens
    ensures Enabled(s, Dispatch(job, 0, true))
    ensures var t := Step(s, Dispatch(job, 0, true), maxQueue);
            && Accepting(t, maxQueue)
            && (|s.tokens| < maxQueue ==>
                  && t.pending == s.pending + [job] && t.tokens == s.tokens[job := Token(s.serial, 0)]
                  && |t.tokens| == |s.tokens| + 1
                  && t.log.accepted == s.log.accepted + [Entry(job, Token(s.serial, 0))])
            && (|s.tokens| == maxQueue ==> t == s && RefusalOf(s, job, true, maxQueue) == Some(QueueFull))
    ensures |s.tokens| <= maxQueue
  {
    DispatchKeeps(s, job, 0, true, maxQueue);
    WithinLimit(s, maxQueue);
    WorkerAlive(s, maxQueue);
    OneMore(s.tokens, job, Token(s.serial, 0));
    hide Inv;
  }

  lemma OneMore(tokens: map<int, Token>, job: int, token: Token)
    requires job !in tokens
    ensures |tokens[job := token]| == |tokens| + 1
  {
    assert tokens[job := token].Keys == tokens.Keys + {job};
  }

  lemma WorkerAlive(s: State, maxQueue: nat)
    requires Accepting(s, maxQueue)
    ensures s.threads != [] ==> Alive(s, s.worker)
  {
    hide Order, Accounted, Flags, HeldToken, Generations, Queue;
  }

  lemma FreshRest(s: State, jobs: seq<int>, maxQueue: nat)
    requires Accepting(s, maxQueue) && Fresh(s, jobs) && jobs != [] && |s.tokens| < maxQueue
    ensures jobs[0] > 0 && jobs[0] !in s.tokens && Enabled(s, Dispatch(jobs[0], 0, true))
    ensures Fresh(Step(s, Dispatch(jobs[0], 0, true), maxQueue), jobs[1..])
  {
    FreshDispatch(s, jobs[0], maxQueue);
    hide Step, Inv;
    var rest := jobs[1..];
    assert forall k | 0 <= k < |rest| :: rest[k] == jobs[k + 1];
  }

  /** As long as there is room every fresh job is accepted, in the order of the dispatches. */
  lemma {:induction false} QueueFills(s: State, jobs: seq<int>, maxQueue: nat)
    requires Accepting(s, maxQueue) && Fresh(s, jobs) && |s.tokens| + |jobs| <= maxQueue
    ensures Runs(s, Dispatches(jobs), maxQueue)
    ensures var t := After(s, Dispatches(jobs), maxQueue);
            && Accepting(t, maxQueue) && t.pending == s.pending + jobs && |t.tokens| == |s.tokens| + |jobs|
            && |t.log.accepted| == |s.log.accepted| + |jobs|
    decreases |jobs|
  {
    hide Step, Enabled, Accepting, Fresh;
    if jobs == [] {
      assert s.pending + jobs == s.pending;
    } else {
      FreshRest(s, jobs, maxQueue);
      FreshDispatch(s, jobs[0], maxQueue);
      var next, rest := Step(s, Dispatch(jobs[0], 0, true), maxQueue), jobs[1..];
      QueueFills(next, rest, maxQueue);
      assert Dispatches(jobs)[1..] == Dispatches(rest);
      assert s.pending + [jobs[0]] + rest == s.pending + jobs;
    }
  }

  lemma {:induction false} AllBelow(jobs: set<int>) returns (bound: int)
    ensures bound > 0 && forall job | job in jobs :: job < bound
  {
    if jobs == {} {
      bound := 1;
    } else {
      assert (forall job :: job !in jobs) ==> jobs == {};
      var job :| job in jobs;
      var below := AllBelow(jobs - {job});
      bound := if job < below then below else job + 1;
      assert forall other | other in jobs :: other == job || other in jobs - {job};
    }
  }

  lemma FreshJobs(s: State, n: nat) returns (jobs: seq<int>)
    ensures |jobs| == n && Fresh(s, jobs)
  {
    var bound := AllBelow(s.tokens.Keys);
    jobs := seq(n, k => bound + k);
  }

  /** From any state a run can reach that is not shutting down, fresh jobs fill the queue to exactly its limit: each of
      them is accepted, and only then is the next one refused as full. */
  lemma QueueFillsToLimit(actions: seq<Action>, maxQueue: nat) returns (jobs: seq<int>)
    requires Runs(INITIAL, actions, maxQueue) && !After(INITIAL, actions, maxQueue).stop
    ensures var s := After(INITIAL, actions, maxQueue);
            && Fresh(s, jobs) && |s.tokens| + |jobs| == maxQueue
            && Runs(s, Dispatches(jobs), maxQueue)
            && var t := After(s, Dispatches(jobs), maxQueue);
               && |t.tokens| == maxQueue && t.pending == s.pending + jobs
               && forall extra | extra > 0 && extra !in t.tokens ::
                    && RefusalOf(t, extra, true, maxQueue) == Some(QueueFull)
                    && Dispatched(t, extra, 0, true, maxQueue) == t
  {
    InitInv(maxQueue);
    RunKeeps(INITIAL, actions, maxQueue);
    var s := After(INITIAL, actions, maxQueue);
    WithinLimit(s, maxQueue);
    jobs := FreshJobs(s, maxQueue - |s.tokens|);
    QueueFills(s, jobs, maxQueue);
    var t := After(s, Dispatches(jobs), maxQueue);
    forall extra | extra > 0 && extra !in t.tokens
      ensures RefusalOf(t, extra, true, maxQueue) == Some(QueueFull) && Dispatched(t, extra, 0, true, maxQueue) == t
    {
      FreshDispatch(t, extra, maxQueue);
      hide Inv, Runs, After;
    }
  }

  lemma WithinLimit(s: State, maxQueue: nat)
    requires Inv(s, maxQueue)
    ensures |s.tokens| <= maxQueue
  {
    hide Order, Accounted, Flags, HeldToken, Generations, OneWorker;
  }

  // ---- Draining ----

  /** The worker's next step, if it has one to take. */
  function Next(s: State): Action
    requires |s.threads| == 1
  {
    match s.threads[0]
    case Born => Reads(0)
    case Idle(_) => Takes(0)
    case Executing(_, _) => Finishes(0, false)
    case Executed(_, _) => Releases(0)
    case Leaving => Exits(0)
    case Exiting => Dies(0)
    case Dead => ClearWorker(0)
  }

  function Rank(p: Phase): nat {
    match p
    case Executing(_, _) => 3
    case Executed(_, _) => 2
    case Born => 1
    case _ => 0
  }

  /** What the worker has left to do. */
  function Left(s: State): nat {
    4 * |s.pending| + (if |s.threads| == 1 then Rank(s.threads[0]) else 0)
  }

  ghost predicate WorkersOwn(actions: seq<Action>) {
    forall k | 0 <= k < |actions| ::
      actions[k] == Reads(0) || actions[k] == Takes(0) || actions[k] == Finishes(0, false) || actions[k] == Releases(0)
  }

  ghost predicate Drained(s: State) {
    s.pending == [] && s.tokens == map[]
  }

  /** What one step of the worker does while it has something to do. */
  lemma WorkerStep(s: State, maxQueue: nat)
    requires Accepting(s, maxQueue) && !Drained(s)
    ensures |s.threads| == 1 && Enabled(s, Next(s)) && AllTokened(s.pending, s.tokens)
    ensures WorkersOwn([Next(s)])
    ensures var t := Step(s, Next(s), maxQueue);
            && Accepting(t, maxQueue) && Left(t) < Left(s) && AllTokened(t.pending, t.tokens)
            && t.log.handed + Queued(t.pending, t.tokens) == s.log.handed + Queued(s.pending, s.tokens)
            && t.log.accepted == s.log.accepted && t.log.faulted == s.log.faulted
            && s.log.terminal <= t.log.terminal && t.log.awaiting == s.log.awaiting
  {
    SomeWorker(s, maxQueue);
    StepKeeps(s, Next(s), maxQueue);
    match s.threads[0]
    case Idle(_) => TakeLeaves(s, maxQueue);
    case Executed(_, _) =>
      ReleaseLeaves(s, maxQueue);
      hide Inv, Queued, AllTokened;
    case _ =>
      hide Inv, Queued, AllTokened;
  }

  lemma TakeLeaves(s: State, maxQueue: nat)
    requires Accepting(s, maxQueue) && |s.threads| == 1 && s.threads[0].Idle? && s.pending != []
    ensures AllTokened(s.pending, s.tokens)
    ensures var t := Step(s, Takes(0), maxQueue);
            && !t.stop && Left(t) < Left(s) && AllTokened(t.pending, t.tokens)
            && t.log.handed + Queued(t.pending, t.tokens) == s.log.handed + Queued(s.pending, s.tokens)
            && t.log == s.log.(handed := t.log.handed)
  {
    TakeRuns(s, 0, maxQueue);
    PendingTokened(s, maxQueue);
    QueuedPop(s.pending, s.tokens);
    var entry := Entry(s.pending[0], s.tokens[s.pending[0]]);
    assert s.log.handed + ([entry] + Queued(s.pending[1..], s.tokens))
        == s.log.handed + [entry] + Queued(s.pending[1..], s.tokens);
    hide Taken, Inv, Queued, AllTokened;
  }

  lemma PendingTokened(s: State, maxQueue: nat)
    requires Inv(s, maxQueue)
    ensures AllTokened(s.pending, s.tokens)
  {
    hide Order, Accounted, Flags, HeldToken, Generations, OneWorker, AllTokened;
  }

  lemma SomeWorker(s: State, maxQueue: nat)
    requires Accepting(s, maxQueue) && !Drained(s)
    ensures |s.threads| == 1 && AllTokened(s.pending, s.tokens)
    ensures !s.threads[0].Leaving? && !s.threads[0].Exiting? && !s.threads[0].Dead?
    ensures s.threads[0].Idle? || s.threads[0].Born? ==> s.pending != []
  {
    hide Order, Accounted, Flags, Generations;
    if s.pending != [] {
      assert s.pending[0] in s.tokens;
    } else {
      assert (forall job :: job !in s.tokens) ==> s.tokens == map[];
    }
  }

  lemma ReleaseLeaves(s: State, maxQueue: nat)
    requires Accepting(s, maxQueue) && |s.threads| == 1 && s.threads[0].Executed?
    ensures AllTokened(s.pending, s.tokens)
    ensures var tokens := s.tokens - {s.threads[0].entry.job};
            AllTokened(s.pending, tokens) && Queued(s.pending, tokens) == Queued(s.pending, s.tokens)
  {
    hide Order, Accounted, Flags, Generations, OneWorker;
    var job := s.threads[0].entry.job;
    var tokens := s.tokens - {job};
    forall other | Waits(s.pending, other) ensures other in tokens && tokens[other] == s.tokens[other] {
      WaitingTokened(s.pending, s.tokens, other);
    }
    QueuedSame(s.pending, s.tokens, tokens);
  }

  /** The worker alone, given time, hands every waiting job to the runner, in order, and ends them all. */
  lemma {:induction false} Drains(s: State, maxQueue: nat) returns (actions: seq<Action>)
    requires Accepting(s, maxQueue) && AllTokened(s.pending, s.tokens)
    ensures WorkersOwn(actions) && Runs(s, actions, maxQueue)
    ensures var t := After(s, actions, maxQueue);
            && Accepting(t, maxQueue) && Drained(t)
            && t.log.handed == s.log.handed + Queued(s.pending, s.tokens)
            && t.log.accepted == s.log.accepted && t.log.faulted == s.log.faulted
            && t.log.awaiting == s.log.awaiting
    decreases Left(s)
  {
    hide Step, Enabled, Accepting, Left, AllTokened;
    if Drained(s) {
      actions := [];
      assert Queued(s.pending, s.tokens) == [];
    } else {
      hide Queued, Drained;
      WorkerStep(s, maxQueue);
      var next := Step(s, Next(s), maxQueue);
      var rest := Drains(next, maxQueue);
      actions := [Next(s)] + rest;
      assert actions[1..] == rest;
      assert [Next(s)][0] == Next(s);
    }
  }

  /** From any state a run can reach that is not shutting down, the worker can end every job accepted so far: none is
      left waiting or running, and each has been handed to the runner, in the order of acceptance. */
  lemma QueueDrains(actions: seq<Action>, maxQueue: nat) returns (more: seq<Action>)
    requires Runs(INITIAL, actions, maxQueue) && !After(INITIAL, actions, maxQueue).stop
    ensures var s := After(INITIAL, actions, maxQueue);
            && WorkersOwn(more) && Runs(s, more, maxQueue)
            && var t := After(s, more, maxQueue);
               && t.pending == [] && t.tokens == map[] && t.log.handed == s.log.accepted
               && forall i | 0 <= i < |s.log.accepted| ::
                    || s.log.accepted[i].job in t.log.terminal || s.log.accepted[i].job in s.log.faulted
                    || s.log.accepted[i].job in s.log.awaiting
  {
    InitInv(maxQueue);
    RunKeeps(INITIAL, actions, maxQueue);
    var s := After(INITIAL, actions, maxQueue);
    InOrder(s, maxQueue);
    more := Drains(s, maxQueue);
    AllSomewhere(After(s, more, maxQueue), maxQueue);
  }

  lemma InOrder(s: State, maxQueue: nat)
    requires Accepting(s, maxQueue)
    ensures AllTokened(s.pending, s.tokens)
    ensures s.log.accepted == s.log.handed + Queued(s.pending, s.tokens)
  {
    hide Queue, Accounted, Flags, HeldToken, Generations, OneWorker, Queued, Increasing;
    assert s.log.swept == [];
    assert s.log.handed + [] == s.log.handed;
  }

  lemma AllSomewhere(s: State, maxQueue: nat)
    requires Accepting(s, maxQueue) && Drained(s)
    ensures forall i | 0 <= i < |s.log.accepted| ::
              || s.log.accepted[i].job in s.log.terminal || s.log.accepted[i].job in s.log.faulted
              || s.log.accepted[i].job in s.log.awaiting
  {
    hide Queue, Order, Flags, Generations, Queued;
    forall i | 0 <= i < |s.log.accepted|
      ensures || s.log.accepted[i].job in s.log.terminal || s.log.accepted[i].job in s.log.faulted
              || s.log.accepted[i].job in s.log.awaiting
    {
      assert Somewhere(s, s.log.accepted[i].job);
    }
  }
}
