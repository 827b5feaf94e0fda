/** The acquisition supervisor's queue, worker and shutdown, one step per lock region or unlocked read. */
module Supervision {
  import opened Options
  import opened Sets

  /** A cancellation token: an object of its own for every dispatch, with the generation it was created under. */
  datatype Token = Token(serial: nat, generation: nat)

  datatype Entry = Entry(job: int, token: Token)

  /** Where a worker thread stands in `_run_forever`. */
  datatype Phase =
    | Born
    | Idle(generation: nat)
    | Executing(generation: nat, entry: Entry)
    | Executed(generation: nat, entry: Entry)
    | Leaving
    | Exiting
    | Dead

  /** What has happened so far: the entries accepted, handed to the runner and swept, jobs the worker dropped, jobs
      swept but not yet written, and jobs that have ended or whose ending could not be written. */
  datatype Log = Log(
    accepted: seq<Entry>,
    handed: seq<Entry>,
    swept: seq<Entry>,
    discarded: seq<int>,
    awaiting: set<int>,
    terminal: set<int>,
    faulted: set<int>)

  /** The supervisor's fields, and the threads and flags it shares. */
  datatype State = State(
    pending: seq<int>,
    tokens: map<int, Token>,
    worker: Option<nat>,
    stop: bool,
    generation: nat,
    threads: seq<Phase>,
    cancelled: set<nat>,
    serial: nat,
    log: Log)

  datatype Action =
    | Dispatch(job: int, generation: nat, starts: bool)
    | Reads(thread: nat)
    | Takes(thread: nat)
    | Finishes(thread: nat, fault: bool)
    | Releases(thread: nat)
    | Exits(thread: nat)
    | Dies(thread: nat)
    | SetFlag(flag: nat)
    | BeginShutdown
    | ClearWorker(thread: nat)
    | Sweep
    | SweepWrites(jobs: set<int>, fault: bool)
    | EndedElsewhere(job: int)

  const INITIAL := State([], map[], None, false, 0, [], {}, 0, Log([], [], [], [], {}, {}, {}))

  datatype Refusal = NotPositive | ShuttingDown | AlreadyQueued | QueueFull | WorkerNotStarted

  // ---- The steps ----

  predicate Alive(s: State, thread: Option<nat>) {
    thread.Some? && thread.value < |s.threads| && !s.threads[thread.value].Dead?
  }

  /** The checks at the top of `dispatch`, in its order. */
  function Inadmissible(s: State, job: int, maxQueue: nat): Option<Refusal> {
    if job <= 0 then Some(NotPositive)
    else if s.stop then Some(ShuttingDown)
    else if job in s.tokens then Some(AlreadyQueued)
    else if |s.tokens| >= maxQueue then Some(QueueFull)
    else None
  }

  /** Why `dispatch` refuses, given whether a new thread would start. */
  function RefusalOf(s: State, job: int, starts: bool, maxQueue: nat): Option<Refusal> {
    var early := Inadmissible(s, job, maxQueue);
    if early.None? && !Alive(s, s.worker) && !starts then Some(WorkerNotStarted) else early
  }

  function Dispatched(s: State, job: int, generation: nat, starts: bool, maxQueue: nat): State {
    match RefusalOf(s, job, starts, maxQueue)
    case Some(WorkerNotStarted) => s.(worker := None)
    case Some(_) => s
    case None =>
      var token := Token(s.serial, generation);
      var queued := s.(pending := s.pending + [job], tokens := s.tokens[job := token], serial := s.serial + 1,
                       log := s.log.(accepted := s.log.accepted + [Entry(job, token)]));
      if Alive(s, s.worker) then queued
      else queued.(worker := Some(|s.threads|), threads := s.threads + [Born])
  }

  /** The region at the top of the worker's loop, once it is not waiting. */
  function Taken(s: State, w: nat): State
    requires w < |s.threads| && s.threads[w].Idle? && (s.pending != [] || s.stop)
  {
    if s.stop then s.(threads := s.threads[w := Leaving])
    else
      var job, generation := s.pending[0], s.threads[w].generation;
      var popped := s.(pending := s.pending[1..]);
      if job !in s.tokens then
        var entry := Entry(job, Token(s.serial, generation));
        popped.(serial := s.serial + 1, threads := s.threads[w := Executing(generation, entry)],
                log := s.log.(handed := s.log.handed + [entry]))
      else if s.tokens[job].generation != generation then popped.(log := s.log.(discarded := s.log.discarded + [job]))
      else
        var entry := Entry(job, s.tokens[job]);
        popped.(threads := s.threads[w := Executing(generation, entry)],
                log := s.log.(handed := s.log.handed + [entry]))
  }

  function Serials(tokens: map<int, Token>): set<nat> {
    set job | job in tokens :: tokens[job].serial
  }

  ghost predicate Waits(pending: seq<int>, job: int) {
    exists i | 0 <= i < |pending| :: pending[i] == job
  }

  ghost predicate Distinct(pending: seq<int>) {
    forall i, j | 0 <= i < j < |pending| :: pending[i] != pending[j]
  }

  predicate AllTokened(pending: seq<int>, tokens: map<int, Token>) {
    forall i | 0 <= i < |pending| :: pending[i] in tokens
  }

  function Queued(pending: seq<int>, tokens: map<int, Token>): seq<Entry>
    requires AllTokened(pending, tokens)
  {
    if pending == [] then []
    else Queued(pending[..|pending| - 1], tokens) + [Entry(pending[|pending| - 1], tokens[pending[|pending| - 1]])]
  }

  predicate Enabled(s: State, a: Action) {
    match a
    case Dispatch(_, generation, _) => generation <= s.generation
    case Reads(w) => w < |s.threads| && s.threads[w].Born?
    case Takes(w) => w < |s.threads| && s.threads[w].Idle? && (s.pending != [] || s.stop)
    case Finishes(w, _) => w < |s.threads| && s.threads[w].Executing?
    case Releases(w) => w < |s.threads| && s.threads[w].Executed?
    case Exits(w) => w < |s.threads| && s.threads[w].Leaving?
    case Dies(w) => w < |s.threads| && s.threads[w].Exiting?
    case SetFlag(flag) => flag < s.serial
    case BeginShutdown => true
    case ClearWorker(w) => s.stop && w < |s.threads| && s.threads[w].Dead?
    case Sweep => s.stop && AllTokened(s.pending, s.tokens)
    case SweepWrites(jobs, _) => jobs <= s.log.awaiting
    case EndedElsewhere(_) => true
  }

  function Step(s: State, a: Action, maxQueue: nat): State
    requires Enabled(s, a)
  {
    match a
    case Dispatch(job, generation, starts) => Dispatched(s, job, generation, starts, maxQueue)
    case Reads(w) => s.(threads := s.threads[w := Idle(s.generation)])
    case Takes(w) => Taken(s, w)
    case Finishes(w, fault) =>
      var t := s.threads[w];
      var s' := s.(threads := s.threads[w := Executed(t.generation, t.entry)]);
      s'.(log := if fault then s.log.(faulted := s.log.faulted + {t.entry.job})
                 else s.log.(terminal := s.log.terminal + {t.entry.job}))
    case Releases(w) =>
      s.(threads := s.threads[w := Idle(s.threads[w].generation)], tokens := s.tokens - {s.threads[w].entry.job})
    case Exits(w) => s.(threads := s.threads[w := Exiting], worker := None)
    case Dies(w) => s.(threads := s.threads[w := Dead])
    case SetFlag(flag) => s.(cancelled := s.cancelled + {flag})
    case BeginShutdown =>
      s.(generation := s.generation + 1, stop := true, cancelled := s.cancelled + Serials(s.tokens))
    case ClearWorker(w) => if s.worker == Some(w) then s.(worker := None) else s
    case Sweep =>
      s.(pending := [], tokens := map[],
         log := s.log.(swept := s.log.swept + Queued(s.pending, s.tokens),
                       awaiting := s.log.awaiting + (set i | 0 <= i < |s.pending| :: s.pending[i]) + s.tokens.Keys))
    case SweepWrites(jobs, fault) =>
      var log := s.log.(awaiting := s.log.awaiting - jobs);
      s.(log := if fault then log.(faulted := log.faulted + jobs) else log.(terminal := log.terminal + jobs))
    case EndedElsewhere(job) => s.(log := s.log.(terminal := s.log.terminal + {job}))
  }

  // ---- What every step keeps ----

  predicate Busy(p: Phase) {
    p.Executing? || p.Executed?
  }

  /** While the supervisor accepts work, its worker field names the one thread there is. */
  ghost predicate OneWorker(s: State) {
    && |s.threads| <= 1
    && (!s.stop ==> (s.worker == if |s.threads| == 1 then Some(0) else None))
    && (!s.stop && |s.threads| == 1 ==> !s.threads[0].Leaving? && !s.threads[0].Exiting? && !s.threads[0].Dead?)
    && (s.worker.Some? ==> s.worker.value < |s.threads|)
    && (s.tokens != map[] ==> |s.threads| == 1)
  }

  ghost predicate Generations(s: State) {
    && (s.generation > 0 <==> s.stop)
    && (forall job | job in s.tokens :: s.tokens[job].generation == 0)
    && (!s.stop ==> forall w | 0 <= w < |s.threads| ::
          (s.threads[w].Idle? || Busy(s.threads[w])) ==> s.threads[w].generation == 0)
    && s.log.discarded == []
  }

  ghost predicate HeldByWorker(s: State, job: int)
    requires job in s.tokens
  {
    |s.threads| == 1 && Busy(s.threads[0]) && s.threads[0].entry == Entry(job, s.tokens[job])
  }

  /** Pending jobs are distinct, each with its token; the only other token is the busy worker's. */
  ghost predicate Queue(s: State, maxQueue: nat) {
    && AllTokened(s.pending, s.tokens)
    && Distinct(s.pending)
    && (forall job | job in s.tokens :: Waits(s.pending, job) || HeldByWorker(s, job))
    && (|s.threads| == 1 && Busy(s.threads[0]) && s.threads[0].entry.job in s.tokens ==>
          s.tokens[s.threads[0].entry.job] == s.threads[0].entry.token && !Waits(s.pending, s.threads[0].entry.job))
    && |s.tokens| <= maxQueue
  }

  ghost predicate Increasing(entries: seq<Entry>, serial: nat) {
    && (forall i, j | 0 <= i < j < |entries| :: entries[i].token.serial < entries[j].token.serial)
    && (forall i | 0 <= i < |entries| :: entries[i].token.serial < serial)
  }

  /** Accepted jobs are handed to the runner in order, and what shutdown sweeps comes after them. */
  ghost predicate Order(s: State) {
    && AllTokened(s.pending, s.tokens)
    && s.log.accepted == s.log.handed + s.log.swept + Queued(s.pending, s.tokens)
    && (s.log.swept != [] ==> s.stop && s.pending == [])
    && Increasing(s.log.accepted, s.serial)
  }

  /** Once shutdown has begun every job it can still reach has its flag set. */
  ghost predicate Flags(s: State) {
    s.stop ==>
      && (forall job | job in s.tokens :: s.tokens[job].serial in s.cancelled)
      && forall w | 0 <= w < |s.threads| :: s.threads[w].Executing? ==> s.threads[w].entry.token.serial in s.cancelled
  }

  /** No accepted job is lost: it waits, runs, is about to be swept, or has ended. */
  ghost predicate Accounted(s: State) {
    forall i | 0 <= i < |s.log.accepted| :: Somewhere(s, s.log.accepted[i].job)
  }

  ghost predicate Somewhere(s: State, job: int) {
    || Waits(s.pending, job)
    || (|s.threads| == 1 && s.threads[0].Executing? && s.threads[0].entry.job == job)
    || job in s.log.awaiting
    || job in s.log.terminal
    || job in s.log.faulted
  }

  /** A busy worker keeps its token unless shutdown has swept it. */
  ghost predicate HeldToken(s: State) {
    |s.threads| == 1 && Busy(s.threads[0]) && !s.stop ==> s.threads[0].entry.job in s.tokens
  }

  ghost predicate Inv(s: State, maxQueue: nat) {
    && OneWorker(s) && Generations(s) && Queue(s, maxQueue) && Order(s) && Flags(s) && Accounted(s) && HeldToken(s)
  }

  lemma InitInv(maxQueue: nat)
    ensures Inv(INITIAL, maxQueue)
  {
  }

  // ---- Queue facts ----

  lemma PushWaits(pending: seq<int>, job: int)
    ensures forall other :: Waits(pending + [job], other) <==> Waits(pending, other) || other == job
    ensures Distinct(pending) && !Waits(pending, job) ==> Distinct(pending + [job])
  {
    var longer := pending + [job];
    assert longer[|pending|] == job;
    assert forall i | 0 <= i < |pending| :: longer[i] == pending[i];
  }

  lemma PopWaits(pending: seq<int>)
    requires pending != []
    ensures forall other :: Waits(pending, other) <==> Waits(pending[1..], other) || other == pending[0]
    ensures Distinct(pending) ==> Distinct(pending[1..]) && !Waits(pending[1..], pending[0])
  {
    var rest := pending[1..];
    assert forall i | 0 <= i < |rest| :: rest[i] == pending[i + 1];
    forall other | Waits(pending, other) && other != pending[0] ensures Waits(rest, other) {
      var i :| 0 <= i < |pending| && pending[i] == other;
      assert rest[i - 1] == other;
    }
  }

  lemma WaitingTokened(pending: seq<int>, tokens: map<int, Token>, job: int)
    requires AllTokened(pending, tokens) && Waits(pending, job)
    ensures job in tokens
  {
  }

  lemma {:induction false} QueuedSame(pending: seq<int>, tokens: map<int, Token>, others: map<int, Token>)
    requires AllTokened(pending, tokens)
    requires forall job | Waits(pending, job) :: job in others && others[job] == tokens[job]
    ensures AllTokened(pending, others) && Queued(pending, tokens) == Queued(pending, others)
  {
    if pending != [] {
      var front, last := pending[..|pending| - 1], pending[|pending| - 1];
      assert front + [last] == pending;
      PushWaits(front, last);
      QueuedSame(front, tokens, others);
    }
  }

  lemma QueuedPush(pending: seq<int>, job: int, tokens: map<int, Token>)
    requires AllTokened(pending, tokens) && job in tokens
    ensures AllTokened(pending + [job], tokens)
    ensures Queued(pending + [job], tokens) == Queued(pending, tokens) + [Entry(job, tokens[job])]
  {
    assert (pending + [job])[..|pending|] == pending;
  }

  lemma {:induction false} QueuedPop(pending: seq<int>, tokens: map<int, Token>)
    requires pending != [] && AllTokened(pending, tokens)
    ensures AllTokened(pending[1..], tokens) && pending[0] in tokens
    ensures Queued(pending, tokens) == [Entry(pending[0], tokens[pending[0]])] + Queued(pending[1..], tokens)
  {
    if |pending| == 1 {
      assert Queued(pending[..0], tokens) == [];
    } else {
      var front, last := pending[..|pending| - 1], pending[|pending| - 1];
      QueuedPop(front, tokens);
      assert front[1..] + [last] == pending[1..];
      QueuedPush(front[1..], last, tokens);
    }
  }

  // ---- One lemma a step ----

  /** Work is accepted only before shutdown, so under generation 0. */
  lemma DispatchWorker(s: State, job: int, generation: nat, starts: bool, maxQueue: nat)
    requires Inv(s, maxQueue) && generation <= s.generation
    ensures var s' := Dispatched(s, job, generation, starts, maxQueue);
            OneWorker(s') && Generations(s') && HeldToken(s') && Flags(s')
  {
    hide Order, Accounted, Queued, Serials, Queue;
  }

  lemma DispatchQueue(s: State, job: int, generation: nat, starts: bool, maxQueue: nat)
    requires Inv(s, maxQueue) && generation <= s.generation
    requires RefusalOf(s, job, starts, maxQueue).None?
    ensures Queue(Dispatched(s, job, generation, starts, maxQueue), maxQueue)
  {
    AcceptedIs(s, job, generation, starts, maxQueue);
    if Waits(s.pending, job) { WaitingTokened(s.pending, s.tokens, job); }
    PushWaits(s.pending, job);
    hide Order, Accounted, Flags, Queued, Serials, OneWorker, Generations, HeldToken, Dispatched, RefusalOf, Waits,
         Distinct;
    var s' := Dispatched(s, job, generation, starts, maxQueue);
    forall other | other in s'.tokens ensures Waits(s'.pending, other) || HeldByWorker(s', other) {
      assert other != job ==> other in s.tokens;
    }
  }

  lemma AcceptedIs(s: State, job: int, generation: nat, starts: bool, maxQueue: nat)
    requires OneWorker(s) && RefusalOf(s, job, starts, maxQueue).None?
    ensures var s' := Dispatched(s, job, generation, starts, maxQueue);
            && job !in s.tokens && |s.tokens| < maxQueue
            && s'.pending == s.pending + [job] && s'.tokens == s.tokens[job := Token(s.serial, generation)]
            && (|s.threads| == 1 ==> s'.threads == s.threads)
            && (s.threads == [] ==> s'.threads == [Born])
  {
  }

  lemma DispatchOrder(s: State, job: int, generation: nat, starts: bool, maxQueue: nat)
    requires Inv(s, maxQueue) && generation <= s.generation
    requires RefusalOf(s, job, starts, maxQueue).None?
    ensures Order(Dispatched(s, job, generation, starts, maxQueue))
  {
    hide OneWorker, Accounted, Flags, Queued, Serials, Generations, HeldToken, Alive, Waits, Distinct, AllTokened,
         Queue, Dispatched, RefusalOf, Increasing;
    var s' := Dispatched(s, job, generation, starts, maxQueue);
    AcceptedOrder(s, job, generation, starts, maxQueue);
    forall other | Waits(s.pending, other) ensures other in s.tokens { WaitingTokened(s.pending, s.tokens, other); }
    QueuedSame(s.pending, s.tokens, s'.tokens);
    QueuedPush(s.pending, job, s'.tokens);
    NoneSwept(s);
    var entry := Entry(job, s'.tokens[job]);
    calc {
      s'.log.accepted;
      s.log.accepted + [entry];
      (s.log.handed + Queued(s.pending, s.tokens)) + [entry];
      { Regroup(s.log.handed, Queued(s.pending, s.tokens), [entry]); }
      s.log.handed + Queued(s'.pending, s'.tokens);
      { NoneBetween(s'.log.handed, s'.log.swept, Queued(s'.pending, s'.tokens)); }
      s'.log.handed + s'.log.swept + Queued(s'.pending, s'.tokens);
    }
    SerialsGrow(s.log.accepted, entry, s.serial);
  }

  lemma SerialsGrow(entries: seq<Entry>, entry: Entry, serial: nat)
    requires Increasing(entries, serial) && entry.token.serial == serial
    ensures Increasing(entries + [entry], serial + 1)
  {
  }

  lemma AcceptedOrder(s: State, job: int, generation: nat, starts: bool, maxQueue: nat)
    requires RefusalOf(s, job, starts, maxQueue).None?
    ensures var s', token := Dispatched(s, job, generation, starts, maxQueue), Token(s.serial, generation);
            && !s.stop && !s'.stop && job !in s.tokens
            && s'.log.accepted == s.log.accepted + [Entry(job, token)]
            && s'.log.handed == s.log.handed && s'.log.swept == s.log.swept && s'.serial == s.serial + 1
            && s'.pending == s.pending + [job] && s'.tokens == s.tokens[job := token]
  {
  }

  lemma Regroup(a: seq<Entry>, b: seq<Entry>, c: seq<Entry>)
    ensures (a + b) + c == a + (b + c)
  {
  }

  lemma NoneBetween(a: seq<Entry>, b: seq<Entry>, c: seq<Entry>)
    requires b == []
    ensures a + b + c == a + c
  {
  }

  lemma NoneSwept(s: State)
    requires Order(s) && !s.stop
    ensures s.log.swept == [] && s.log.accepted == s.log.handed + Queued(s.pending, s.tokens)
  {
    hide Queued;
    assert s.log.handed + [] == s.log.handed;
  }

  lemma DispatchAccounted(s: State, job: int, generation: nat, starts: bool, maxQueue: nat)
    requires Inv(s, maxQueue) && generation <= s.generation
    requires RefusalOf(s, job, starts, maxQueue).None?
    ensures Accounted(Dispatched(s, job, generation, starts, maxQueue))
  {
    hide Order, Flags, Queued, Serials, Queue, Generations, HeldToken, Somewhere;
    var s' := Dispatched(s, job, generation, starts, maxQueue);
    forall i | 0 <= i < |s'.log.accepted| ensures Somewhere(s', s'.log.accepted[i].job) {
      if i < |s.log.accepted| {
        assert Somewhere(s, s.log.accepted[i].job);
        StillSomewhere(s, s', s.log.accepted[i].job);
      } else {
        JustQueued(s', |s.pending|);
      }
    }
  }

  lemma JustQueued(s: State, i: nat)
    requires i < |s.pending|
    ensures Somewhere(s, s.pending[i])
  {
  }

  lemma StillSomewhere(s: State, s': State, job: int)
    requires Somewhere(s, job) && s.pending <= s'.pending
    requires |s.threads| == 1 ==> s'.threads == s.threads
    requires s.log.awaiting <= s'.log.awaiting && s.log.terminal <= s'.log.terminal && s.log.faulted <= s'.log.faulted
    ensures Somewhere(s', job)
  {
    if Waits(s.pending, job) {
      var i :| 0 <= i < |s.pending| && s.pending[i] == job;
      assert s'.pending[i] == job;
    }
  }

  lemma DispatchKeeps(s: State, job: int, generation: nat, starts: bool, maxQueue: nat)
    requires Inv(s, maxQueue) && generation <= s.generation
    ensures Inv(Dispatched(s, job, generation, starts, maxQueue), maxQueue)
  {
    DispatchWorker(s, job, generation, starts, maxQueue);
    if RefusalOf(s, job, starts, maxQueue).None? {
      DispatchQueue(s, job, generation, starts, maxQueue);
      DispatchOrder(s, job, generation, starts, maxQueue);
      DispatchAccounted(s, job, generation, starts, maxQueue);
    } else {
      RefusedAccounted(s, job, generation, starts, maxQueue);
    }
  }

  lemma RefusedAccounted(s: State, job: int, generation: nat, starts: bool, maxQueue: nat)
    requires Inv(s, maxQueue) && RefusalOf(s, job, starts, maxQueue).Some?
    ensures var s' := Dispatched(s, job, generation, starts, maxQueue);
            Queue(s', maxQueue) && Order(s') && Accounted(s')
  {
    hide Queued;
    var s' := Dispatched(s, job, generation, starts, maxQueue);
    assert s' == s || s' == s.(worker := None);
    forall i | 0 <= i < |s.log.accepted| ensures Somewhere(s', s.log.accepted[i].job) {
      assert Somewhere(s, s.log.accepted[i].job);
    }
  }

  // ---- The worker's steps ----

  /** The worker takes the oldest job with its token: the generation test never discards one. */
  lemma TakeRuns(s: State, w: nat, maxQueue: nat)
    requires Inv(s, maxQueue) && Enabled(s, Takes(w)) && !s.stop
    ensures w == 0 && |s.threads| == 1 && s.threads[0] == Idle(0)
    ensures s.pending[0] in s.tokens && s.tokens[s.pending[0]].generation == 0
    ensures var entry := Entry(s.pending[0], s.tokens[s.pending[0]]);
            Taken(s, w) == s.(pending := s.pending[1..], threads := [Executing(0, entry)],
                             log := s.log.(handed := s.log.handed + [entry]))
  {
    hide Order, Accounted, Flags, HeldToken, Queued, Serials;
    assert s.threads[0 := Executing(0, Entry(s.pending[0], s.tokens[s.pending[0]]))]
        == [Executing(0, Entry(s.pending[0], s.tokens[s.pending[0]]))];
  }

  lemma TakeQueue(s: State, w: nat, maxQueue: nat)
    requires Inv(s, maxQueue) && Enabled(s, Takes(w)) && !s.stop
    ensures Queue(Taken(s, w), maxQueue)
  {
    TakeRuns(s, w, maxQueue);
    PopWaits(s.pending);
    QueuedPop(s.pending, s.tokens);
    hide Taken, Order, Accounted, Flags, HeldToken, Queued, Serials, Generations, OneWorker, Waits, Distinct,
         AllTokened;
  }

  lemma TakeOrder(s: State, w: nat, maxQueue: nat)
    requires Inv(s, maxQueue) && Enabled(s, Takes(w)) && !s.stop
    ensures Order(Taken(s, w)) && Flags(Taken(s, w))
  {
    TakeRuns(s, w, maxQueue);
    hide Taken, Accounted, HeldToken, Queued, Serials, Generations, OneWorker, Waits, Distinct, AllTokened, Queue;
    var s' := Taken(s, w);
    QueuedPop(s.pending, s.tokens);
    NoneSwept(s);
    var entry := Entry(s.pending[0], s.tokens[s.pending[0]]);
    assert s.log.handed + ([entry] + Queued(s'.pending, s'.tokens)) == s'.log.handed + s'.log.swept
        + Queued(s'.pending, s'.tokens);
  }

  lemma TakeAccounted(s: State, w: nat, maxQueue: nat)
    requires Inv(s, maxQueue) && Enabled(s, Takes(w)) && !s.stop
    ensures Accounted(Taken(s, w))
  {
    TakeRuns(s, w, maxQueue);
    PopWaits(s.pending);
    hide Taken, Order, Flags, HeldToken, Queued, Serials, Generations, Queue, Waits;
    var s' := Taken(s, w);
    forall i | 0 <= i < |s'.log.accepted| ensures Somewhere(s', s'.log.accepted[i].job) {
      assert Somewhere(s, s.log.accepted[i].job);
    }
  }

  lemma TakeKeeps(s: State, w: nat, maxQueue: nat)
    requires Inv(s, maxQueue) && Enabled(s, Takes(w))
    ensures Inv(Taken(s, w), maxQueue)
  {
    if s.stop {
      LeaveKeeps(s, w, maxQueue);
    } else {
      TakeQueue(s, w, maxQueue);
      TakeOrder(s, w, maxQueue);
      TakeAccounted(s, w, maxQueue);
      TakeRuns(s, w, maxQueue);
      hide Taken, Order, Accounted, Flags, Queue, Queued, Serials;
      TokenOfTaken(s, w, maxQueue);
    }
  }

  lemma TokenOfTaken(s: State, w: nat, maxQueue: nat)
    requires Inv(s, maxQueue) && Enabled(s, Takes(w)) && !s.stop
    ensures HeldToken(Taken(s, w)) && OneWorker(Taken(s, w)) && Generations(Taken(s, w))
  {
    TakeRuns(s, w, maxQueue);
    hide Taken, Order, Accounted, Flags, Queue, Queued, Serials;
  }

  /** Steps that move a thread that is not executing, and nothing else that the queue depends on. */
  ghost predicate SameQueue(s: State, s': State) {
    && s'.pending == s.pending && s'.tokens == s.tokens && s'.serial == s.serial
    && s'.log.accepted == s.log.accepted && s'.log.handed == s.log.handed && s'.log.swept == s.log.swept
  }

  lemma SameQueueOrder(s: State, s': State)
    requires Order(s) && SameQueue(s, s') && (s.stop ==> s'.stop)
    ensures Order(s')
  {
    hide Queued;
  }

  lemma StillAccounted(s: State, s': State)
    requires Accounted(s) && SameQueue(s, s')
    requires forall job | Somewhere(s, job) :: Somewhere(s', job)
    ensures Accounted(s')
  {
    hide Somewhere;
  }

  lemma LeaveKeeps(s: State, w: nat, maxQueue: nat)
    requires Inv(s, maxQueue) && Enabled(s, Takes(w)) && s.stop
    ensures Inv(Taken(s, w), maxQueue)
  {
    var s' := Taken(s, w);
    IdleMoves(s, w, Leaving, s', maxQueue);
  }

  /** A thread that holds no job changes phase without taking one. */
  lemma IdleMoves(s: State, w: nat, phase: Phase, s': State, maxQueue: nat)
    requires Inv(s, maxQueue) && w < |s.threads|
    requires !Busy(s.threads[w]) && !Busy(phase)
    requires s' == s.(threads := s.threads[w := phase])
          || (s' == s.(threads := s.threads[w := phase], worker := None) && s.stop)
    requires (phase.Idle? ==> s.stop || phase.generation == 0)
    requires (phase.Leaving? || phase.Exiting? || phase.Dead?) ==> s.stop
    ensures Inv(s', maxQueue)
  {
    IdleMovesQueue(s, w, phase, s', maxQueue);
    SameQueueOrder(s, s');
    forall job | Somewhere(s, job) ensures Somewhere(s', job) {
    }
    StillAccounted(s, s');
    hide Order, Accounted, Queued, Serials, Queue, Somewhere;
  }

  lemma IdleMovesQueue(s: State, w: nat, phase: Phase, s': State, maxQueue: nat)
    requires OneWorker(s) && Queue(s, maxQueue) && w < |s.threads| && !Busy(s.threads[w]) && !Busy(phase)
    requires SameQueue(s, s') && s'.threads == s.threads[w := phase]
    ensures Queue(s', maxQueue)
  {
  }

  lemma FinishKeeps(s: State, w: nat, fault: bool, maxQueue: nat)
    requires Inv(s, maxQueue) && Enabled(s, Finishes(w, fault))
    ensures Inv(Step(s, Finishes(w, fault), maxQueue), maxQueue)
  {
    hide Order, Accounted, Queued, Serials, Queue, Somewhere;
    FinishQueue(s, w, fault, maxQueue);
    SameQueueOrder(s, Step(s, Finishes(w, fault), maxQueue));
    FinishAccounted(s, w, fault, maxQueue);
  }

  lemma FinishAccounted(s: State, w: nat, fault: bool, maxQueue: nat)
    requires Inv(s, maxQueue) && Enabled(s, Finishes(w, fault))
    ensures Accounted(Step(s, Finishes(w, fault), maxQueue))
  {
    hide Order, Flags, Queued, Serials, Generations, HeldToken, Queue, Waits;
    var s' := Step(s, Finishes(w, fault), maxQueue);
    forall job | Somewhere(s, job) ensures Somewhere(s', job) {
    }
    StillAccounted(s, s');
  }

  lemma FinishQueue(s: State, w: nat, fault: bool, maxQueue: nat)
    requires Inv(s, maxQueue) && Enabled(s, Finishes(w, fault))
    ensures Queue(Step(s, Finishes(w, fault), maxQueue), maxQueue)
  {
    hide Order, Accounted, Flags, Queued, Serials, Generations;
  }

  lemma ReleaseKeeps(s: State, w: nat, maxQueue: nat)
    requires Inv(s, maxQueue) && Enabled(s, Releases(w))
    ensures Inv(Step(s, Releases(w), maxQueue), maxQueue)
  {
    hide Order, Accounted, Queued, Serials, Queue, Somewhere;
    ReleaseQueue(s, w, maxQueue);
    ReleaseOrder(s, w, maxQueue);
    ReleaseAccounted(s, w, maxQueue);
  }

  lemma ReleaseQueue(s: State, w: nat, maxQueue: nat)
    requires Inv(s, maxQueue) && Enabled(s, Releases(w))
    ensures Queue(Step(s, Releases(w), maxQueue), maxQueue)
  {
    var s' := Step(s, Releases(w), maxQueue);
    var job := s.threads[w].entry.job;
    ReleaseTokened(s, w, maxQueue);
    assert s'.pending == s.pending && s'.tokens == s.tokens - {job} && |s'.threads| == 1 && !Busy(s'.threads[0]);
    hide Order, Accounted, Flags, Queued, Serials, Generations, HeldToken, Step, Waits, Distinct, AllTokened;
    assert s'.tokens.Keys <= s.tokens.Keys;
    FewerKeys(s'.tokens, s.tokens);
    forall other | other in s'.tokens ensures Waits(s'.pending, other) {
      assert other in s.tokens && other != job;
    }
  }

  /** The busy worker's job is not pending, so removing its token leaves every pending job its own. */
  lemma ReleaseTokened(s: State, w: nat, maxQueue: nat)
    requires Inv(s, maxQueue) && Enabled(s, Releases(w))
    ensures w == 0
    ensures var others := s.tokens - {s.threads[w].entry.job};
            && AllTokened(s.pending, others)
            && forall job | Waits(s.pending, job) :: job in others && others[job] == s.tokens[job]
  {
    hide Order, Accounted, Flags, Queued, Serials, Generations, HeldToken;
    var others := s.tokens - {s.threads[w].entry.job};
    forall job | Waits(s.pending, job) ensures job in others { WaitingTokened(s.pending, s.tokens, job); }
    forall i | 0 <= i < |s.pending| ensures s.pending[i] in others { assert Waits(s.pending, s.pending[i]); }
  }

  lemma FewerKeys(a: map<int, Token>, b: map<int, Token>)
    requires a.Keys <= b.Keys
    ensures |a| <= |b|
  {
    SubsetSize(a.Keys, b.Keys);
  }

  lemma ReleaseOrder(s: State, w: nat, maxQueue: nat)
    requires Inv(s, maxQueue) && Enabled(s, Releases(w))
    ensures Order(Step(s, Releases(w), maxQueue))
  {
    ReleaseTokened(s, w, maxQueue);
    hide Accounted, Flags, Queued, Serials, Generations, HeldToken, Waits, Distinct, AllTokened, Queue, OneWorker;
    QueuedSame(s.pending, s.tokens, Step(s, Releases(w), maxQueue).tokens);
  }

  lemma ReleaseAccounted(s: State, w: nat, maxQueue: nat)
    requires Inv(s, maxQueue) && Enabled(s, Releases(w))
    ensures Accounted(Step(s, Releases(w), maxQueue))
  {
    hide Order, Flags, Queued, Serials, Generations, HeldToken, Queue, Waits;
    var s' := Step(s, Releases(w), maxQueue);
    forall i | 0 <= i < |s'.log.accepted| ensures Somewhere(s', s'.log.accepted[i].job) {
      assert Somewhere(s, s.log.accepted[i].job);
    }
  }

  // ---- Shutdown's steps, and the rest ----

  lemma ShutdownKeeps(s: State, maxQueue: nat)
    requires Inv(s, maxQueue)
    ensures Inv(Step(s, BeginShutdown, maxQueue), maxQueue)
  {
    hide Order, Accounted, Queued, Serials, Flags;
    var s' := Step(s, BeginShutdown, maxQueue);
    ShutdownFlags(s, maxQueue);
    SameQueueOrder(s, s');
    StillAccounted(s, s');
  }

  lemma ShutdownFlags(s: State, maxQueue: nat)
    requires Inv(s, maxQueue)
    ensures Flags(Step(s, BeginShutdown, maxQueue))
  {
    hide Order, Accounted, Queued, Generations;
    forall job | job in s.tokens ensures s.tokens[job].serial in Serials(s.tokens) {
    }
  }

  /** Steps that only set flags, record endings or clear the worker field. */
  lemma OtherKeeps(s: State, s': State, maxQueue: nat)
    requires Inv(s, maxQueue) && SameQueue(s, s')
    requires s'.threads == s.threads && s'.stop == s.stop && s'.generation == s.generation
    requires s'.worker == s.worker || (s.stop && s'.worker.None?)
    requires s.cancelled <= s'.cancelled && s'.log.discarded == s.log.discarded
    requires s.log.terminal <= s'.log.terminal && s.log.faulted <= s'.log.faulted
    requires s.log.awaiting <= s'.log.awaiting + s'.log.terminal + s'.log.faulted
    ensures Inv(s', maxQueue)
  {
    SameQueueOrder(s, s');
    forall job | Somewhere(s, job) ensures Somewhere(s', job) {
    }
    StillAccounted(s, s');
    hide Order, Accounted, Queued, Serials, Somewhere;
  }

  lemma SweepKeeps(s: State, maxQueue: nat)
    requires Inv(s, maxQueue) && Enabled(s, Sweep)
    ensures Inv(Step(s, Sweep, maxQueue), maxQueue)
  {
    hide Order, Accounted, Queued, Serials, Somewhere, Waits;
    SweepOrder(s, maxQueue);
    SweepAccounted(s, maxQueue);
  }

  lemma SweepOrder(s: State, maxQueue: nat)
    requires Inv(s, maxQueue) && Enabled(s, Sweep)
    ensures Order(Step(s, Sweep, maxQueue))
  {
    var s' := Step(s, Sweep, maxQueue);
    hide Accounted, Queued, Serials, Queue, Generations, HeldToken, Flags, Step, AllTokened, OneWorker, Waits;
    SweepIs(s, maxQueue);
    Regroup(s.log.handed, s.log.swept, Queued(s.pending, s.tokens));
    NothingAfter(s.log.handed + s'.log.swept, Queued(s'.pending, s'.tokens));
  }

  lemma NothingAfter(a: seq<Entry>, b: seq<Entry>)
    requires b == []
    ensures a + b == a
  {
  }

  lemma SweepIs(s: State, maxQueue: nat)
    requires Enabled(s, Sweep)
    ensures var s' := Step(s, Sweep, maxQueue);
            && s'.log.swept == s.log.swept + Queued(s.pending, s.tokens)
            && s'.pending == [] && s'.tokens == map[] && s'.stop && s.stop
            && AllTokened(s'.pending, s'.tokens) && Queued(s'.pending, s'.tokens) == []
            && s'.log.accepted == s.log.accepted && s'.log.handed == s.log.handed && s'.serial == s.serial
  {
  }

  lemma SweepAccounted(s: State, maxQueue: nat)
    requires Inv(s, maxQueue) && Enabled(s, Sweep)
    ensures Accounted(Step(s, Sweep, maxQueue))
  {
    hide Order, Flags, Queued, Serials, Generations, HeldToken, Queue;
    var s' := Step(s, Sweep, maxQueue);
    forall job | Waits(s.pending, job) ensures job in s'.log.awaiting {
    }
    hide Waits;
    forall i | 0 <= i < |s'.log.accepted| ensures Somewhere(s', s'.log.accepted[i].job) {
      assert Somewhere(s, s.log.accepted[i].job);
    }
  }

  lemma StepKeeps(s: State, a: Action, maxQueue: nat)
    requires Inv(s, maxQueue) && Enabled(s, a)
    ensures Inv(Step(s, a, maxQueue), maxQueue)
  {
    hide Inv, Dispatched, Taken, Queued, Serials;
    match a
    case Dispatch(job, generation, starts) => DispatchKeeps(s, job, generation, starts, maxQueue);
    case Reads(w) =>
      ReadsZero(s, maxQueue);
      IdleMoves(s, w, Idle(s.generation), Step(s, a, maxQueue), maxQueue);
    case Takes(w) => TakeKeeps(s, w, maxQueue);
    case Finishes(w, fault) => FinishKeeps(s, w, fault, maxQueue);
    case Releases(w) => ReleaseKeeps(s, w, maxQueue);
    case Exits(w) =>
      LeavingStopped(s, maxQueue);
      IdleMoves(s, w, Exiting, Step(s, a, maxQueue), maxQueue);
    case Dies(w) =>
      LeavingStopped(s, maxQueue);
      IdleMoves(s, w, Dead, Step(s, a, maxQueue), maxQueue);
    case BeginShutdown => ShutdownKeeps(s, maxQueue);
    case Sweep => SweepKeeps(s, maxQueue);
    case _ => OtherKeeps(s, Step(s, a, maxQueue), maxQueue);
  }

  lemma ReadsZero(s: State, maxQueue: nat)
    requires Inv(s, maxQueue)
    ensures s.generation > 0 ==> s.stop
  {
  }

  lemma LeavingStopped(s: State, maxQueue: nat)
    requires Inv(s, maxQueue)
    ensures forall w | 0 <= w < |s.threads| :: s.threads[w].Leaving? || s.threads[w].Exiting? ==> s.stop
  {
  }

  // ---- Whole runs ----

  /** A run: any steps, in any order the threads may interleave them. */
  ghost predicate Runs(s: State, actions: seq<Action>, maxQueue: nat)
    decreases |actions|
  {
    actions != [] ==> Enabled(s, actions[0]) && Runs(Step(s, actions[0], maxQueue), actions[1..], maxQueue)
  }

  ghost function After(s: State, actions: seq<Action>, maxQueue: nat): State
    requires Runs(s, actions, maxQueue)
    decreases |actions|
  {
    if actions == [] then s else After(Step(s, actions[0], maxQueue), actions[1..], maxQueue)
  }

  lemma {:induction false} RunKeeps(s: State, actions: seq<Action>, maxQueue: nat)
    requires Inv(s, maxQueue) && Runs(s, actions, maxQueue)
    ensures Inv(After(s, actions, maxQueue), maxQueue)
    decreases |actions|
  {
    hide Inv, Step, Enabled;
    if actions != [] {
      StepKeeps(s, actions[0], maxQueue);
      RunKeeps(Step(s, actions[0], maxQueue), actions[1..], maxQueue);
    }
  }

  /** What holds after every run from the start, whatever the interleaving. */
  lemma SupervisorSafe(actions: seq<Action>, maxQueue: nat)
    requires Runs(INITIAL, actions, maxQueue)
    ensures var s := After(INITIAL, actions, maxQueue);
            && |s.threads| <= 1
            && |s.tokens| <= maxQueue
            && Distinct(s.pending) && AllTokened(s.pending, s.tokens)
            && (forall job | job in s.tokens :: Waits(s.pending, job) || HeldByWorker(s, job))
            && s.log.discarded == []
            && s.log.accepted == s.log.handed + s.log.swept + Queued(s.pending, s.tokens)
            && (forall i, j | 0 <= i < j < |s.log.accepted| :: s.log.accepted[i] != s.log.accepted[j])
            && (s.log.swept != [] ==> s.stop && s.pending == [])
            && (forall i | 0 <= i < |s.log.accepted| :: Somewhere(s, s.log.accepted[i].job))
            && (s.stop ==> forall job | job in s.tokens :: s.tokens[job].serial in s.cancelled)
            && (s.stop && s.threads != [] && s.threads[0].Executing? ==>
                  s.threads[0].entry.token.serial in s.cancelled)
  {
    InitInv(maxQueue);
    hide Step, Enabled, Queued, Somewhere, Runs, After, Waits, Distinct, AllTokened;
    RunKeeps(INITIAL, actions, maxQueue);
  }

  /** Once the sweep has been written and the worker is not in the middle of a job, every job ever accepted has ended,
      unless the database failed on it. */
  lemma ShutdownLeavesNothing(actions: seq<Action>, maxQueue: nat)
    requires Runs(INITIAL, actions, maxQueue)
    requires var s := After(INITIAL, actions, maxQueue);
             && s.pending == [] && s.log.awaiting == {}
             && forall w | 0 <= w < |s.threads| :: !s.threads[w].Executing?
    ensures var s := After(INITIAL, actions, maxQueue);
            forall i | 0 <= i < |s.log.accepted| ::
              s.log.accepted[i].job in s.log.terminal || s.log.accepted[i].job in s.log.faulted
  {
    hide Runs, After, Queued, AllTokened, Distinct, HeldByWorker;
    SupervisorSafe(actions, maxQueue);
    var s := After(INITIAL, actions, maxQueue);
    forall i | 0 <= i < |s.log.accepted|
      ensures s.log.accepted[i].job in s.log.terminal || s.log.accepted[i].job in s.log.faulted
    {
      assert Somewhere(s, s.log.accepted[i].job);
    }
  }
}
