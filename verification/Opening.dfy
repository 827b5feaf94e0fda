/** Opens and closes of the one native stream, one step per lock region or call that leaves the lock. */
module Opening {
  import opened Options

  /** Where a call of `open_stream` stands, with the generation it began under. */
  datatype Call =
    | Awaiting(generation: nat)
    | Failing(generation: nat)
    | Got(generation: nat, response: nat)
    | Discarding(response: nat)

  /** A response from the network: held by a call, wrapped in an installed stream, or being closed. */
  datatype Response = Held(call: nat) | Installed | Closing | Closed

  datatype State = State(
    active: Option<nat>,
    opening: Option<nat>,
    generation: nat,
    calls: map<nat, Call>,
    responses: map<nat, Response>,
    detached: set<nat>)

  datatype Action =
    | Begin(call: nat)
    | Answers(call: nat, response: nat)
    | Fails(call: nat)
    | Clear(call: nat)
    | Install(call: nat)
    | Discard(call: nat)
    | Close
    | CloseDetached(response: nat)
    | EndStream(response: nat)
    | Shut(response: nat)

  const INITIAL := State(None, None, 0, map[], map[], {})

  predicate Enabled(s: State, a: Action) {
    match a
    case Begin(c) => c !in s.calls
    case Answers(c, r) => c in s.calls && s.calls[c].Awaiting? && r !in s.responses
    case Fails(c) => c in s.calls && s.calls[c].Awaiting?
    case Clear(c) => c in s.calls && s.calls[c].Failing?
    case Install(c) => c in s.calls && s.calls[c].Got?
    case Discard(c) => c in s.calls && s.calls[c].Discarding?
    case Close => true
    case CloseDetached(r) => r in s.detached
    case EndStream(r) => r in s.responses && !s.responses[r].Held?
    case Shut(r) => r in s.responses && s.responses[r].Closing?
  }

  /** The test under which `open_stream` gives a response up. */
  predicate Stale(s: State, generation: nat) {
    s.opening != Some(generation) || s.active.Some?
  }

  /** The first `close` of a stream marks it; later ones find it marked. */
  function Marked(responses: map<nat, Response>, r: nat): map<nat, Response> {
    if r in responses && responses[r].Installed? then responses[r := Closing] else responses
  }

  function Step(s: State, a: Action): State
    requires Enabled(s, a)
  {
    match a
    case Begin(c) =>
      if s.active.Some? || s.opening.Some? then s
      else s.(opening := Some(s.generation), calls := s.calls[c := Awaiting(s.generation)])
    case Answers(c, r) =>
      s.(calls := s.calls[c := Got(s.calls[c].generation, r)], responses := s.responses[r := Held(c)])
    case Fails(c) => s.(calls := s.calls[c := Failing(s.calls[c].generation)])
    case Clear(c) =>
      s.(opening := if s.opening == Some(s.calls[c].generation) then None else s.opening, calls := s.calls - {c})
    case Install(c) =>
      var r := s.calls[c].response;
      if Stale(s, s.calls[c].generation) then s.(calls := s.calls[c := Discarding(r)])
      else s.(active := Some(r), opening := None, calls := s.calls - {c}, responses := s.responses[r := Installed])
    case Discard(c) => s.(calls := s.calls - {c}, responses := s.responses[s.calls[c].response := Closed])
    case Close =>
      s.(generation := s.generation + 1, active := None, opening := None,
         detached := s.detached + (if s.active.Some? then {s.active.value} else {}))
    case CloseDetached(r) => s.(detached := s.detached - {r}, responses := Marked(s.responses, r))
    case EndStream(r) => s.(responses := Marked(s.responses, r))
    case Shut(r) => s.(responses := s.responses[r := Closed])
  }

  // ---- What every step keeps ----

  predicate Outstanding(c: Call) {
    !c.Discarding?
  }

  /** An outstanding call began under the current generation exactly when it is the one being opened. */
  ghost predicate Generations(s: State) {
    && (s.opening.Some? ==> s.opening.value == s.generation && s.active.None?)
    && (forall c | c in s.calls && Outstanding(s.calls[c]) ::
          s.calls[c].generation < s.generation || s.opening == Some(s.calls[c].generation))
    && (forall c | c in s.calls && Outstanding(s.calls[c]) :: s.calls[c].generation <= s.generation)
  }

  ghost predicate Unshared(s: State) {
    forall c, d | c in s.calls && d in s.calls && Outstanding(s.calls[c]) && Outstanding(s.calls[d]) && c != d ::
      s.calls[c].generation != s.calls[d].generation
  }

  predicate Holds(c: Call, r: nat) {
    (c.Got? || c.Discarding?) && c.response == r
  }

  /** Every response is somebody's: a call's, the active stream's, a running `close`'s, or closed. */
  ghost predicate Owned(s: State) {
    && (forall r | r in s.responses && s.responses[r].Held? ::
          s.responses[r].call in s.calls && Holds(s.calls[s.responses[r].call], r))
    && (forall r | r in s.responses && s.responses[r].Installed? :: s.active == Some(r) || r in s.detached)
    && (forall c | c in s.calls && (s.calls[c].Got? || s.calls[c].Discarding?) ::
          s.calls[c].response in s.responses && s.responses[s.calls[c].response] == Held(c))
    && (s.active.Some? ==> s.active.value in s.responses && !s.responses[s.active.value].Held?)
    && (forall r | r in s.detached :: r in s.responses && !s.responses[r].Held?)
  }

  ghost predicate Inv(s: State) {
    Generations(s) && Unshared(s) && Owned(s)
  }

  lemma InitInv()
    ensures Inv(INITIAL)
  {
  }

  lemma StepGenerations(s: State, a: Action)
    requires Inv(s) && Enabled(s, a)
    ensures Generations(Step(s, a))
  {
    hide Owned;
  }

  lemma StepUnshared(s: State, a: Action)
    requires Inv(s) && Enabled(s, a)
    ensures Unshared(Step(s, a))
  {
    hide Owned;
  }

  predicate OnCall(a: Action) {
    a.Begin? || a.Answers? || a.Fails? || a.Clear? || a.Install? || a.Discard?
  }

  lemma CallOwned(s: State, a: Action)
    requires Inv(s) && Enabled(s, a) && OnCall(a)
    ensures Owned(Step(s, a))
  {
    hide Unshared, Marked;
  }

  lemma StreamOwned(s: State, a: Action)
    requires Inv(s) && Enabled(s, a) && !OnCall(a)
    ensures Owned(Step(s, a))
  {
    hide Unshared;
  }

  lemma StepOwned(s: State, a: Action)
    requires Inv(s) && Enabled(s, a)
    ensures Owned(Step(s, a))
  {
    hide Inv, Step, Enabled, Owned;
    if OnCall(a) { CallOwned(s, a); } else { StreamOwned(s, a); }
  }

  /** The test for a stale response comes down to whether a `close` has come in between. */
  lemma StaleIffClosedSince(s: State, call: nat)
    requires Inv(s) && call in s.calls && s.calls[call].Got?
    ensures Stale(s, s.calls[call].generation) <==> s.calls[call].generation < s.generation
  {
  }

  // ---- Whole runs ----

  ghost predicate Runs(s: State, actions: seq<Action>)
    decreases |actions|
  {
    actions != [] ==> Enabled(s, actions[0]) && Runs(Step(s, actions[0]), actions[1..])
  }

  ghost function After(s: State, actions: seq<Action>): State
    requires Runs(s, actions)
    decreases |actions|
  {
    if actions == [] then s else After(Step(s, actions[0]), actions[1..])
  }

  lemma {:induction false} RunKeeps(s: State, actions: seq<Action>)
    requires Inv(s) && Runs(s, actions)
    ensures Inv(After(s, actions))
    decreases |actions|
  {
    hide Generations, Unshared, Owned, Step, Enabled;
    if actions != [] {
      StepGenerations(s, actions[0]);
      StepUnshared(s, actions[0]);
      StepOwned(s, actions[0]);
      RunKeeps(Step(s, actions[0]), actions[1..]);
    }
  }

  /** How many times `close` has been called. */
  function Closes(actions: seq<Action>): nat {
    if actions == [] then 0 else (if actions[0].Close? then 1 else 0) + Closes(actions[1..])
  }

  ghost predicate Avoids(actions: seq<Action>, call: nat) {
    forall i | 0 <= i < |actions| :: actions[i] != Begin(call)
  }

  /** While a call is outstanding it keeps its generation, and every `close` moves the transport's on. */
  lemma {:induction false} CallKeepsGeneration(s: State, actions: seq<Action>, call: nat)
    requires Inv(s) && Runs(s, actions) && Avoids(actions, call)
    ensures After(s, actions).generation == s.generation + Closes(actions)
    ensures var t := After(s, actions);
            call in t.calls && Outstanding(t.calls[call]) ==>
              call in s.calls && Outstanding(s.calls[call]) && t.calls[call].generation == s.calls[call].generation
    decreases |actions|
  {
    hide Inv, Step, Enabled;
    if actions != [] {
      var a := actions[0];
      StepGenerations(s, a);
      StepUnshared(s, a);
      StepOwned(s, a);
      var s' := Step(s, a);
      assert Inv(s') by { InvOf(s'); }
      CallStep(s, a, call);
      assert forall i | 0 <= i < |actions| - 1 :: actions[1..][i] == actions[i + 1];
      CallKeepsGeneration(s', actions[1..], call);
    }
  }

  lemma InvOf(s: State)
    requires Generations(s) && Unshared(s) && Owned(s)
    ensures Inv(s)
  {
  }

  lemma CallStep(s: State, a: Action, call: nat)
    requires Enabled(s, a) && a != Begin(call)
    ensures Step(s, a).generation == s.generation + (if a.Close? then 1 else 0)
    ensures var t := Step(s, a);
            call in t.calls && Outstanding(t.calls[call]) ==>
              call in s.calls && Outstanding(s.calls[call]) && t.calls[call].generation == s.calls[call].generation
  {
  }

  /** A response is installed exactly when no `close` ran between the beginning of its open and its arrival. */
  lemma InstalledIffNoCloseSince(before: seq<Action>, call: nat, middle: seq<Action>)
    requires Runs(INITIAL, before)
    requires var s := After(INITIAL, before);
             && Enabled(s, Begin(call)) && s.active.None? && s.opening.None?
             && Runs(Step(s, Begin(call)), middle)
             && Enabled(After(Step(s, Begin(call)), middle), Install(call))
    requires Avoids(middle, call)
    ensures var late := After(Step(After(INITIAL, before), Begin(call)), middle);
            var response := late.calls[call].response;
            && (Step(late, Install(call)).active == Some(response) <==> Closes(middle) == 0)
            && response in Step(late, Install(call)).responses
            && (Closes(middle) == 0 <==> Step(late, Install(call)).responses[response].Installed?)
  {
    hide Inv, Runs, After, Step;
    InitInv();
    var s := After(INITIAL, before);
    var begun := Step(s, Begin(call));
    RunKeeps(INITIAL, before);
    BeginKeeps(s, call);
    RunKeeps(begun, middle);
    CallKeepsGeneration(begun, middle, call);
    InstallOutcome(After(begun, middle), call);
  }

  lemma InstallOutcome(s: State, call: nat)
    requires Inv(s) && Enabled(s, Install(call))
    ensures var response, t := s.calls[call].response, Step(s, Install(call));
            && response in t.responses
            && (t.active == Some(response) <==> s.calls[call].generation == s.generation)
            && (t.responses[response].Installed? <==> s.calls[call].generation == s.generation)
  {
    StaleIffClosedSince(s, call);
    ActiveIsNotHeld(s, call);
    hide Unshared;
  }

  lemma BeginKeeps(s: State, call: nat)
    requires Inv(s) && Enabled(s, Begin(call)) && s.active.None? && s.opening.None?
    ensures var begun := Step(s, Begin(call));
            && Inv(begun) && begun.generation == s.generation
            && call in begun.calls && begun.calls[call] == Awaiting(s.generation)
  {
    StepGenerations(s, Begin(call));
    StepUnshared(s, Begin(call));
    StepOwned(s, Begin(call));
  }

  lemma ActiveIsNotHeld(s: State, call: nat)
    requires Inv(s) && call in s.calls && s.calls[call].Got?
    ensures s.active != Some(s.calls[call].response)
    ensures s.calls[call].response in s.responses && s.responses[s.calls[call].response].Held?
  {
  }

  /** What holds after every run: opens do not share a generation, at most one stream is active or opening, and when
      nothing is in progress and nothing active every response obtained has been closed. */
  lemma TransportSafe(actions: seq<Action>)
    requires Runs(INITIAL, actions)
    ensures var s := After(INITIAL, actions);
            && Unshared(s)
            && (s.opening.Some? ==> s.active.None?)
            && (s.calls == map[] && s.detached == {} && s.active.None? ==>
                  forall r | r in s.responses :: s.responses[r].Closing? || s.responses[r].Closed?)
  {
    InitInv();
    hide Step, Enabled, Runs, After;
    RunKeeps(INITIAL, actions);
  }
}
