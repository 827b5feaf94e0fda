/** The supervisor object: each method is one lock region, and does to the shared state what its step says. */
module Supervisor {
  import opened Options
  import opened Supervision

  /** `deque.remove` */
  function RemoveFirst(pending: seq<int>, job: int): seq<int> {
    if pending == [] then []
    else if pending[0] == job then pending[1..]
    else [pending[0]] + RemoveFirst(pending[1..], job)
  }

  /** Taking back a job that was not queued before restores the queue. */
  lemma {:induction false} RemoveAppended(pending: seq<int>, job: int)
    requires !Waits(pending, job)
    ensures RemoveFirst(pending + [job], job) == pending
  {
    if pending == [] {
      assert (pending + [job])[1..] == [];
    } else {
      PopWaits(pending);
      RemoveAppended(pending[1..], job);
      assert (pending + [job])[1..] == pending[1..] + [job];
    }
  }

  lemma Unqueued(s: State, job: int, token: Token, maxQueue: nat)
    requires Inv(s, maxQueue)
    ensures job !in s.tokens ==>
              RemoveFirst(s.pending + [job], job) == s.pending && s.tokens[job := token] - {job} == s.tokens
  {
    hide Order, Flags, Accounted, HeldToken, RemoveFirst;
    if job !in s.tokens {
      if Waits(s.pending, job) { WaitingTokened(s.pending, s.tokens, job); }
      RemoveAppended(s.pending, job);
    }
  }

  lemma TokensOfStopped(s: State, maxQueue: nat)
    requires Inv(s, maxQueue)
    ensures forall job | job in s.tokens :: s.tokens[job].generation != s.generation <==> s.stop
  {
    hide Order, Flags, Accounted, HeldToken, Queue;
  }

  /** Only the busy worker's job can have a token without being pending. */
  lemma OthersAtMostOne(s: State, a: int, b: int, maxQueue: nat)
    requires Inv(s, maxQueue)
    requires a in s.tokens && b in s.tokens && !Waits(s.pending, a) && !Waits(s.pending, b)
    ensures a == b
  {
    hide Order, Flags, Accounted, HeldToken, OneWorker, Waits;
  }

  lemma HasMember(jobs: set<int>)
    requires jobs != {}
    ensures exists job :: job in jobs
  {
    assert (forall job :: job !in jobs) ==> jobs == {};
  }

  lemma PendingSet(pending: seq<int>, job: int)
    ensures job in (set i | 0 <= i < |pending| :: pending[i]) <==> Waits(pending, job)
  {
  }

  // What each step leaves, without the other cases of the transition function.

  lemma StepTakes(s: State, w: nat, maxQueue: nat)
    requires Inv(s, maxQueue) && Enabled(s, Takes(w))
    ensures Step(s, Takes(w), maxQueue) == Taken(s, w) && Inv(Taken(s, w), maxQueue)
    ensures s.stop ==> Taken(s, w) == s.(threads := s.threads[w := Leaving])
    ensures |s.threads| == 1 && w == 0
  {
    hide Queued, Order, Flags, Accounted, HeldToken, Queue, Generations;
    TakeKeeps(s, w, maxQueue);
  }

  lemma StepShutdown(s: State, maxQueue: nat)
    requires Inv(s, maxQueue)
    ensures var s' := Step(s, BeginShutdown, maxQueue);
            && Inv(s', maxQueue)
            && s' == s.(generation := s.generation + 1, stop := true, cancelled := s.cancelled + Serials(s.tokens))
  {
    hide Inv;
    ShutdownKeeps(s, maxQueue);
  }

  lemma StepSweep(s: State, maxQueue: nat)
    requires Inv(s, maxQueue) && s.stop
    ensures AllTokened(s.pending, s.tokens) && Distinct(s.pending)
    ensures forall job | Waits(s.pending, job) :: job in s.tokens
    ensures var s' := Step(s, Sweep, maxQueue);
            && Inv(s', maxQueue)
            && s' == s.(pending := [], tokens := map[],
                        log := s.log.(swept := s.log.swept + Queued(s.pending, s.tokens),
                                      awaiting := s.log.awaiting + (set i | 0 <= i < |s.pending| :: s.pending[i])
                                                  + s.tokens.Keys))
  {
    hide Order, Flags, Accounted, HeldToken, OneWorker, Generations;
    SweepKeeps(s, maxQueue);
  }

  function Enqueued(s: State, job: int, token: Token): State {
    s.(pending := s.pending + [job], tokens := s.tokens[job := token], serial := s.serial + 1,
       log := s.log.(accepted := s.log.accepted + [Entry(job, token)]))
  }

  lemma StepDispatch(s: State, job: int, read: nat, starts: bool, maxQueue: nat)
    requires Inv(s, maxQueue) && read <= s.generation
    ensures Inv(Step(s, Action.Dispatch(job, read, starts), maxQueue), maxQueue)
    ensures var s' := Step(s, Action.Dispatch(job, read, starts), maxQueue);
            var refusal := RefusalOf(s, job, starts, maxQueue);
            && (refusal == Some(WorkerNotStarted) ==> s' == s.(worker := None))
            && (refusal.Some? && refusal != Some(WorkerNotStarted) ==> s' == s)
            && (refusal.None? && Alive(s, s.worker) ==> s' == Enqueued(s, job, Token(s.serial, read)))
            && (refusal.None? && !Alive(s, s.worker) ==>
                  s' == Enqueued(s, job, Token(s.serial, read)).(worker := Some(|s.threads|),
                      threads := s.threads + [Born]))
    ensures !s.stop ==> read == 0
  {
    ReadsZero(s, maxQueue);
    hide Inv;
    DispatchKeeps(s, job, read, starts, maxQueue);
  }

  class AcquisitionSupervisor {
    const maxQueue: nat
    var pending: seq<int>
    var tokens: map<int, Token>
    var worker: Option<nat>
    var stop: bool
    var generation: nat

    // The threads started so far, the flags set so far, and the next token's number.
    var threads: seq<Phase>
    var cancelled: set<nat>
    var serial: nat

    ghost var log: Log

    ghost function View(): State
      reads this
    {
      State(pending, tokens, worker, stop, generation, threads, cancelled, serial, log)
    }

    ghost predicate Valid()
      reads this
    {
      Inv(View(), maxQueue)
    }

    constructor (maxQueue: nat)
      requires 1 <= maxQueue <= 64
      ensures Valid() && View() == INITIAL && this.maxQueue == maxQueue
    {
      this.maxQueue := maxQueue;
      pending, tokens, worker, stop, generation := [], map[], None, false, 0;
      threads, cancelled, serial := [], {}, 0;
      log := Log([], [], [], [], {}, {}, {});
      new;
      InitInv(maxQueue);
    }

    /** `dispatch`, given the generation read before the lock and whether a new thread would start. */
    method Dispatch(job: int, read: nat, starts: bool) returns (refused: Option<Refusal>)
      requires Valid() && read <= generation
      modifies this
      ensures Valid() && View() == Step(old(View()), Action.Dispatch(job, read, starts), maxQueue)
      ensures refused == RefusalOf(old(View()), job, starts, maxQueue)
      ensures refused.None? ==> log.accepted == old(log.accepted) + [Entry(job, Token(old(serial), 0))]
      ensures refused.None? <==>
                && job > 0 && !old(stop) && job !in old(tokens) && |old(tokens)| < maxQueue
                && (old(worker.Some? && worker.value < |threads| && !threads[worker.value].Dead?) || starts)
      ensures refused == Some(NotPositive) <==> job <= 0
      ensures refused == Some(ShuttingDown) <==> job > 0 && old(stop)
      ensures refused == Some(AlreadyQueued) <==> job > 0 && !old(stop) && job in old(tokens)
      ensures refused == Some(QueueFull) <==>
                job > 0 && !old(stop) && job !in old(tokens) && |old(tokens)| >= maxQueue
      ensures refused == Some(WorkerNotStarted) <==>
                && job > 0 && !old(stop) && job !in old(tokens) && |old(tokens)| < maxQueue
                && !old(worker.Some? && worker.value < |threads| && !threads[worker.value].Dead?) && !starts
      ensures pending == if refused.None? then old(pending) + [job] else old(pending)
      ensures tokens == if refused.None? then old(tokens)[job := Token(old(serial), 0)] else old(tokens)
      ensures refused.None? ==> worker.Some? && worker.value < |threads| && !threads[worker.value].Dead?
    {
      hide Inv, Queued, Waits, Step, RemoveFirst;
      ghost var before := View();
      StepDispatch(before, job, read, starts, maxQueue);
      var token := Token(serial, read);
      Unqueued(before, job, token, maxQueue);
      refused := Admit(job);
      if refused.Some? { return; }
      pending := pending + [job];
      tokens := tokens[job := token];
      var started := StartWorker(starts);
      if !started {
        pending := RemoveFirst(pending, job);
        tokens := tokens - {job};
        assert View() == before.(worker := None);
        return Some(WorkerNotStarted);
      }
      serial := serial + 1;
      log := log.(accepted := log.accepted + [Entry(job, token)]);
      assert View() == Enqueued(before, job, token).(worker := worker, threads := threads);
      return None;
    }

    method Admit(job: int) returns (refused: Option<Refusal>)
      ensures refused == Inadmissible(View(), job, maxQueue)
      ensures refused.None? <==> job > 0 && !stop && job !in tokens && |tokens| < maxQueue
      ensures refused == Some(NotPositive) <==> job <= 0
      ensures refused == Some(ShuttingDown) <==> job > 0 && stop
      ensures refused == Some(AlreadyQueued) <==> job > 0 && !stop && job in tokens
      ensures refused == Some(QueueFull) <==> job > 0 && !stop && job !in tokens && |tokens| >= maxQueue
      ensures refused != Some(WorkerNotStarted)
    {
      if job <= 0 { return Some(NotPositive); }
      if stop { return Some(ShuttingDown); }
      if job in tokens { return Some(AlreadyQueued); }
      if |tokens| >= maxQueue { return Some(QueueFull); }
      return None;
    }

    /** A thread for the queue, unless the worker is alive; the factory or `start` may raise. */
    method StartWorker(starts: bool) returns (started: bool)
      modifies `worker, `threads
      ensures started <==> old(worker.Some? && IsAlive(worker.value)) || starts
      ensures old(worker.Some? && IsAlive(worker.value)) ==> worker == old(worker) && threads == old(threads)
      ensures !old(worker.Some? && IsAlive(worker.value)) && starts ==>
                worker == Some(|old(threads)|) && threads == old(threads) + [Born]
      ensures !started ==> worker == None && threads == old(threads)
    {
      if worker.None? || !IsAlive(worker.value) {
        worker := None;
        if !starts {
          return false;
        }
        worker := Some(|threads|);
        threads := threads + [Born];
      }
      return true;
    }

    predicate IsAlive(thread: nat)
      reads this
    {
      thread < |threads| && !threads[thread].Dead?
    }

    /** The lookup `cancel` makes under the lock: at most the token of this job's own dispatch. */
    method Lookup(job: int) returns (token: Option<Token>)
      requires Valid()
      ensures token.Some? ==> job in tokens && token.value == tokens[job]
      ensures token.None? <==> job !in tokens || stop
    {
      token := if job in tokens then Some(tokens[job]) else None;
      if token.Some? && token.value.generation != generation {
        token := None;
      }
      TokensOfStopped(View(), maxQueue);
    }

    /** `token.cancel()`, outside the lock. */
    method Cancel(token: Token)
      requires Valid() && token.serial < serial
      modifies `cancelled
      ensures Valid() && View() == Step(old(View()), SetFlag(token.serial), maxQueue)
      ensures cancelled == old(cancelled) + {token.serial}
    {
      StepKeeps(View(), SetFlag(token.serial), maxQueue);
      hide Inv;
      cancelled := cancelled + {token.serial};
    }

    /** The worker's region: wait is over, so leave if stopping, else take the oldest job and its token. */
    method Take(w: nat) returns (job: Option<Entry>)
      requires Valid() && w < |threads| && threads[w].Idle? && (pending != [] || stop)
      modifies `pending, `threads, `log
      ensures Valid() && View() == Step(old(View()), Takes(w), maxQueue)
      ensures job.None? <==> old(stop)
      ensures job.None? ==> pending == old(pending) && threads == old(threads)[w := Leaving]
      ensures job.Some? ==>
                && old(pending) != [] && old(pending)[0] in tokens
                && job.value == Entry(old(pending)[0], tokens[old(pending)[0]])
                && pending == old(pending)[1..] && threads == old(threads)[w := Executing(0, job.value)]
    {
      hide Inv, Queued, Waits, Distinct, Step, Taken, AllTokened;
      StepTakes(View(), w, maxQueue);
      if stop {
        threads := threads[w := Leaving];
        return None;
      }
      var id := pending[0];
      var own := threads[w].generation;
      var token := if id in tokens then tokens[id] else Token(serial, own);
      TakeRuns(View(), w, maxQueue);
      pending := pending[1..];
      if token.generation != own {
        assert false;
      }
      log := log.(handed := log.handed + [Entry(id, token)]);
      threads := threads[w := Executing(own, Entry(id, token))];
      assert View() == Taken(old(View()), w);
      return Some(Entry(id, token));
    }

    /** The runner has returned or raised, and the job has been marked failed if it raised and that was possible. */
    method Finish(w: nat, fault: bool)
      requires Valid() && w < |threads| && threads[w].Executing?
      modifies `threads, `log
      ensures Valid() && View() == Step(old(View()), Finishes(w, fault), maxQueue)
      ensures threads == old(threads)[w := Executed(old(threads)[w].generation, old(threads)[w].entry)]
      ensures log.terminal == old(log.terminal) + (if fault then {} else {old(threads)[w].entry.job})
      ensures log.faulted == old(log.faulted) + (if fault then {old(threads)[w].entry.job} else {})
    {
      hide Inv, Queued, Waits;
      StepKeeps(View(), Finishes(w, fault), maxQueue);
      var entry := threads[w].entry;
      threads := threads[w := Executed(threads[w].generation, entry)];
      log := if fault then log.(faulted := log.faulted + {entry.job})
             else log.(terminal := log.terminal + {entry.job});
    }

    /** The unit of work over swept jobs has been committed or rolled back. */
    ghost method SweepWritten(jobs: set<int>, fault: bool)
      requires Valid() && Enabled(View(), SweepWrites(jobs, fault))
      modifies `log
      ensures Valid() && View() == Step(old(View()), SweepWrites(jobs, fault), maxQueue)
    {
      hide Inv, Queued, Waits;
      StepKeeps(View(), SweepWrites(jobs, fault), maxQueue);
      log := log.(awaiting := log.awaiting - jobs);
      log := if fault then log.(faulted := log.faulted + jobs) else log.(terminal := log.terminal + jobs);
    }

    /** The `finally` region after a job: forget its token. */
    method Release(w: nat)
      requires Valid() && w < |threads| && threads[w].Executed?
      modifies `tokens, `threads
      ensures Valid() && View() == Step(old(View()), Releases(w), maxQueue)
      ensures tokens == old(tokens) - {old(threads)[w].entry.job}
      ensures threads == old(threads)[w := Idle(old(threads)[w].generation)]
    {
      StepKeeps(View(), Releases(w), maxQueue);
      hide Inv, Queued, Waits;
      tokens := tokens - {threads[w].entry.job};
      threads := threads[w := Idle(threads[w].generation)];
    }

    /** The worker's last region. */
    method Exit(w: nat)
      requires Valid() && w < |threads| && threads[w].Leaving?
      modifies `worker, `threads
      ensures Valid() && View() == Step(old(View()), Exits(w), maxQueue)
      ensures worker == None && threads == old(threads)[w := Exiting]
    {
      StepKeeps(View(), Exits(w), maxQueue);
      hide Inv, Queued, Waits;
      worker := None;
      threads := threads[w := Exiting];
    }

    /** The first region of `shutdown`: stop, and set the flag of every token. */
    method StopAll() returns (joining: Option<nat>)
      requires Valid()
      modifies `generation, `stop, `cancelled
      ensures Valid() && View() == Step(old(View()), BeginShutdown, maxQueue)
      ensures joining == old(worker) && stop && generation == old(generation) + 1
      ensures forall job | job in tokens :: tokens[job].serial in cancelled
      ensures forall flag | flag in cancelled ::
                flag in old(cancelled) || exists job :: job in tokens && tokens[job].serial == flag
    {
      hide Inv, Queued, Waits, Step;
      StepShutdown(View(), maxQueue);
      generation := generation + 1;
      stop := true;
      var left := tokens.Keys;
      ghost var ended := old(View()).(generation := generation, stop := true, cancelled := cancelled + Serials(tokens));
      while left != {}
        invariant left <= tokens.Keys
        invariant old(cancelled) <= cancelled <= old(cancelled) + Serials(tokens)
        invariant forall job | job in tokens && job !in left :: tokens[job].serial in cancelled
        invariant View() == ended.(cancelled := cancelled)
        decreases |left|
      {
        HasMember(left);
        var job :| job in left;
        cancelled := cancelled + {tokens[job].serial};
        left := left - {job};
      }
      assert cancelled == old(cancelled) + Serials(tokens);
      return worker;
    }

    /** After joining a worker that has ended. */
    method Joined(w: nat)
      requires Valid() && stop && w < |threads| && threads[w].Dead?
      modifies `worker
      ensures Valid() && View() == Step(old(View()), Action.ClearWorker(w), maxQueue)
      ensures worker == if old(worker) == Some(w) then None else old(worker)
    {
      StepKeeps(View(), Action.ClearWorker(w), maxQueue);
      hide Inv, Queued, Waits;
      if worker == Some(w) {
        worker := None;
      }
    }

    /** The region of `_mark_pending_interrupted`: every pending job, then any other that still has a token. */
    method SweepAll() returns (interrupted: seq<int>)
      requires Valid() && stop
      modifies `pending, `tokens, `log
      ensures Valid() && View() == Step(old(View()), Sweep, maxQueue)
      ensures pending == [] && tokens == map[]
      ensures old(pending) <= interrupted && |interrupted| <= |old(pending)| + 1
      ensures forall job :: Waits(interrupted, job) <==> job in old(tokens)
      ensures Distinct(interrupted)
    {
      hide Inv, Queued, Waits, Distinct, Step, AllTokened;
      ghost var before := View();
      StepSweep(before, maxQueue);
      interrupted := pending;
      var left := tokens.Keys - set i | 0 <= i < |pending| :: pending[i];
      forall job ensures job in left <==> job in tokens && !Waits(pending, job) { PendingSet(pending, job); }
      while left != {}
        invariant View() == before && left <= tokens.Keys && pending <= interrupted
        invariant forall job :: Waits(interrupted, job) <==> job in tokens && job !in left
        invariant forall job | job in left :: !Waits(pending, job)
        invariant Distinct(interrupted)
        invariant |interrupted| <= |pending| + 1 && (|interrupted| == |pending| + 1 ==> left == {})
      {
        HasMember(left);
        var job :| job in left;
        PushWaits(interrupted, job);
        interrupted := interrupted + [job];
        left := left - {job};
        if left != {} {
          HasMember(left);
          var other :| other in left;
          OthersAtMostOne(before, job, other, maxQueue);
        }
      }
      log := log.(swept := log.swept + Queued(pending, tokens),
                  awaiting := log.awaiting + (set i | 0 <= i < |pending| :: pending[i]) + tokens.Keys);
      pending := [];
      tokens := map[];
    }
  }
}
