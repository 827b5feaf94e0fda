/** The bounded event loop of the native pull adapter, on top of the framer. */
module PullRun {
  import opened Bytes
  import opened Options
  import opened Framing
  import Utf8

  // ---- One line ----

  /** A member of the decoded object; booleans, floats, null and absence are all `Other`. */
  datatype JsonValue = Text(text: string) | Number(n: int) | Other

  /** What UTF-8 decoding and JSON parsing make of a line. `Unreadable` is any failure that is not one of
      the two decoding errors the source catches. */
  datatype Payload =
    | NotUtf8
    | NotJson
    | NotObject
    | Unreadable
    | Object(status: JsonValue, digest: JsonValue, error: JsonValue, total: JsonValue, completed: JsonValue)

  datatype Event = Event(
    sequence: nat, status: string, digest: Option<string>, total: Option<int>, completed: Option<int>,
    progress: Option<real>, error: Option<string>)

  const MAX_NUMBER := 0x100_0000_0000
  const REDACTED_ERROR := "Native acquisition reported an error."

  function BoundedText(v: JsonValue): Option<string> {
    if v.Text? && v.text != "" then Some(Utf8.Bounded(v.text, Utf8.MAX_TEXT_CHARS, Utf8.MAX_TEXT_BYTES)) else None
  }

  function BoundedInt(v: JsonValue): Option<int> {
    if v.Number? && 0 <= v.n <= MAX_NUMBER then Some(v.n) else None
  }

  function RedactedError(v: JsonValue): Option<string> {
    if v.Text? && v.text != "" then Some(REDACTED_ERROR) else None
  }

  datatype Handled = Ignored | Malformed | Faulted | Accepted(event: Event)

  /** `_handle_line` */
  function HandleLine(parse: Line -> Payload, line: Line, sequence: nat): (h: Handled)
    ensures h.Accepted? ==> h.event.sequence == sequence
  {
    if Blank(line) then Ignored
    else
      match parse(line)
      case NotUtf8 => Malformed
      case NotJson => Malformed
      case NotObject => Malformed
      case Unreadable => Faulted
      case Object(status, digest, error, total, completed) =>
        if BoundedText(status).None? then Ignored
        else
          var t, c := BoundedInt(total), BoundedInt(completed);
          if t.Some? && c.Some? && c.value > t.value then Malformed
          else
            var progress := if t.Some? && c.Some? && t.value > 0 then Some(c.value as real / t.value as real) else None;
            Accepted(Event(sequence, BoundedText(status).value, BoundedText(digest), t, c, progress,
                           RedactedError(error)))
  }

  predicate Named(v: JsonValue) {
    v.Text? && v.text != ""
  }

  predicate Countable(v: JsonValue) {
    v.Number? && 0 <= v.n <= MAX_NUMBER
  }

  /** The object says more is completed than there is. */
  predicate Overcounts(p: Payload)
    requires p.Object?
  {
    Countable(p.total) && Countable(p.completed) && p.completed.n > p.total.n
  }

  /** What an accepted event may carry, whatever the line said: bounded texts that begin the line's own, no more
      completed than there is, progress of at most one, and never the text of the error. */
  ghost predicate Contained(p: Payload, e: Event)
    requires p.Object? && p.status.Text?
  {
    && e.status != "" && Utf8.IsBounded(e.status, p.status.text)
    && (e.digest.Some? <==> Named(p.digest)) && (Named(p.digest) ==> Utf8.IsBounded(e.digest.value, p.digest.text))
    && (e.total.Some? <==> Countable(p.total)) && (e.total.Some? ==> p.total == Number(e.total.value))
    && (e.completed.Some? <==> Countable(p.completed))
    && (e.completed.Some? ==> p.completed == Number(e.completed.value))
    && (e.progress.Some? <==> e.total.Some? && e.total.value > 0 && e.completed.Some?)
    && (e.progress.Some? ==>
          0.0 <= e.progress.value <= 1.0 && e.progress.value * e.total.value as real == e.completed.value as real)
    && e.error == if Named(p.error) then Some(REDACTED_ERROR) else None
  }

  /** Which lines are passed over, which end the stream, and what the others become. */
  lemma LineHandled(parse: Line -> Payload, line: Line, sequence: nat)
    ensures var h, p := HandleLine(parse, line, sequence), parse(line);
            && (h.Ignored? <==> Blank(line) || (p.Object? && !Named(p.status)))
            && (h.Faulted? <==> !Blank(line) && p.Unreadable?)
            && (h.Malformed? <==> !Blank(line) && !p.Unreadable? && (p.Object? ==> Named(p.status) && Overcounts(p)))
            && (h.Accepted? ==> h.event.sequence == sequence && Contained(p, h.event))
  {
    hide Utf8.Bounded, Utf8.IsBounded;
    var p := parse(line);
    if p.Object? {
      if Named(p.status) { Utf8.BoundedIs(p.status.text); }
      if Named(p.digest) { Utf8.BoundedIs(p.digest.text); }
      var t, c := BoundedInt(p.total), BoundedInt(p.completed);
      if t.Some? && c.Some? && c.value <= t.value && t.value > 0 { Share(c.value, t.value); }
    }
  }

  lemma Share(c: nat, t: nat)
    requires c <= t && t > 0
    ensures 0.0 <= c as real / t as real <= 1.0
    ensures (c as real / t as real) * t as real == c as real
  {
  }

  predicate Succeeds(e: Event) {
    e.error.None? && (e.status == "success" || e.status == "completed")
  }

  predicate Fails(e: Event) {
    e.error.Some?
  }

  // ---- The loop over lines, as a fold ----

  datatype Limits = Limits(maxLineBytes: nat, maxTotalBytes: nat, maxEvents: nat, maxRetained: nat)

  datatype Stop = EventCapReached | MalformedLine | UnreadableLine | ErrorEvent | SuccessEvent

  datatype State = State(consumed: nat, retained: seq<Event>, stopped: Option<Stop>)

  const START := State(0, [], None)

  /** `retained.append(progress)`, then `pop(0)` when over the cap. */
  function Retain(retained: seq<Event>, event: Event, cap: nat): seq<Event> {
    var longer := retained + [event];
    if |longer| > cap then longer[1..] else longer
  }

  function TerminalStop(event: Event): Option<Stop> {
    if Fails(event) then Some(ErrorEvent) else if Succeeds(event) then Some(SuccessEvent) else None
  }

  function Advance(limits: Limits, parse: Line -> Payload, st: State, line: Line): State {
    if st.stopped.Some? then st
    else if st.consumed >= limits.maxEvents then st.(stopped := Some(EventCapReached))
    else
      match HandleLine(parse, line, st.consumed + 1)
      case Ignored => st
      case Malformed => st.(stopped := Some(MalformedLine))
      case Faulted => st.(stopped := Some(UnreadableLine))
      case Accepted(event) =>
        State(st.consumed + 1, Retain(st.retained, event, limits.maxRetained), TerminalStop(event))
  }

  function Fold(limits: Limits, parse: Line -> Payload, lines: seq<Line>): State {
    if lines == [] then START
    else Advance(limits, parse, Fold(limits, parse, lines[..|lines| - 1]), lines[|lines| - 1])
  }

  // ---- The line that decides a run ----

  predicate IsUnreadable(parse: Line -> Payload, line: Line) {
    !Blank(line) && parse(line).Unreadable?
  }

  predicate IsMalformed(parse: Line -> Payload, line: Line) {
    var p := parse(line);
    !Blank(line) && (p.NotUtf8? || p.NotJson? || p.NotObject? || (p.Object? && Named(p.status) && Overcounts(p)))
  }

  predicate IsEvent(parse: Line -> Payload, line: Line) {
    var p := parse(line);
    !Blank(line) && p.Object? && Named(p.status) && !Overcounts(p)
  }

  predicate IsError(parse: Line -> Payload, line: Line) {
    IsEvent(parse, line) && Named(parse(line).error)
  }

  predicate IsSuccess(parse: Line -> Payload, line: Line) {
    IsEvent(parse, line) && !Named(parse(line).error) && parse(line).status in {Text("success"), Text("completed")}
  }

  function EventCount(parse: Line -> Payload, lines: seq<Line>): nat {
    if lines == [] then 0
    else EventCount(parse, lines[..|lines| - 1]) + (if IsEvent(parse, lines[|lines| - 1]) then 1 else 0)
  }

  /** Line `k` ends the run if none before it does: it is malformed, unreadable, an error or a success, or it comes when
      as many events as allowed have been counted. */
  predicate Decides(limits: Limits, parse: Line -> Payload, lines: seq<Line>, k: nat)
    requires k < |lines|
  {
    || EventCount(parse, lines[..k]) >= limits.maxEvents
    || IsMalformed(parse, lines[k]) || IsUnreadable(parse, lines[k])
    || IsError(parse, lines[k]) || IsSuccess(parse, lines[k])
  }

  ghost predicate NoneDecides(limits: Limits, parse: Line -> Payload, lines: seq<Line>, n: nat)
    requires n <= |lines|
  {
    forall k | 0 <= k < n :: !Decides(limits, parse, lines, k)
  }

  ghost predicate FirstDecides(limits: Limits, parse: Line -> Payload, lines: seq<Line>, k: nat) {
    k < |lines| && Decides(limits, parse, lines, k) && NoneDecides(limits, parse, lines, k)
  }

  /** What the deciding line decides. */
  function StopOf(limits: Limits, parse: Line -> Payload, lines: seq<Line>, k: nat): Stop
    requires k < |lines|
  {
    if EventCount(parse, lines[..k]) >= limits.maxEvents then EventCapReached
    else if IsMalformed(parse, lines[k]) then MalformedLine
    else if IsUnreadable(parse, lines[k]) then UnreadableLine
    else if IsError(parse, lines[k]) then ErrorEvent
    else SuccessEvent
  }

  /** The events counted when the deciding line has ended the run: an error or a success is counted itself. */
  function CountedAt(limits: Limits, parse: Line -> Payload, lines: seq<Line>, k: nat): nat
    requires k < |lines|
  {
    var stop := StopOf(limits, parse, lines, k);
    EventCount(parse, lines[..k]) + (if stop.ErrorEvent? || stop.SuccessEvent? then 1 else 0)
  }

  ghost predicate DecidedState(limits: Limits, parse: Line -> Payload, lines: seq<Line>, st: State) {
    && (st.stopped.None? ==> NoneDecides(limits, parse, lines, |lines|) && st.consumed == EventCount(parse, lines))
    && (st.stopped.Some? ==> exists k: nat ::
          && k < |lines| && FirstDecides(limits, parse, lines, k)
          && st.stopped.value == StopOf(limits, parse, lines, k) && st.consumed == CountedAt(limits, parse, lines, k))
  }

  /** One line, in terms of what it says. */
  lemma LineSays(parse: Line -> Payload, line: Line, sequence: nat)
    ensures var h := HandleLine(parse, line, sequence);
            && (h.Malformed? <==> IsMalformed(parse, line))
            && (h.Faulted? <==> IsUnreadable(parse, line))
            && (h.Accepted? <==> IsEvent(parse, line))
            && (h.Accepted? ==>
                  && (TerminalStop(h.event) == Some(ErrorEvent) <==> IsError(parse, line))
                  && (TerminalStop(h.event) == Some(SuccessEvent) <==> IsSuccess(parse, line)))
  {
    LineHandled(parse, line, sequence);
    hide HandleLine;
    if IsEvent(parse, line) { StatusKept(parse(line).status.text, HandleLine(parse, line, sequence).event.status); }
  }

  /** The short statuses are not cut, and no longer one is cut to them. */
  lemma StatusKept(text: string, status: string)
    requires Utf8.IsBounded(status, text)
    ensures status == "success" <==> text == "success"
    ensures status == "completed" <==> text == "completed"
  {
    Utf8.ShortIsKept(text, status, "success");
    Utf8.ShortIsKept(text, status, "completed");
  }

  lemma SameBefore(limits: Limits, parse: Line -> Payload, lines: seq<Line>, line: Line, k: nat)
    requires k < |lines|
    ensures Decides(limits, parse, lines + [line], k) == Decides(limits, parse, lines, k)
    ensures StopOf(limits, parse, lines + [line], k) == StopOf(limits, parse, lines, k)
    ensures CountedAt(limits, parse, lines + [line], k) == CountedAt(limits, parse, lines, k)
    ensures (lines + [line])[..k] == lines[..k] && (lines + [line])[k] == lines[k]
  {
    hide EventCount, IsMalformed, IsUnreadable, IsError, IsSuccess;
    assert (lines + [line])[..k] == lines[..k];
  }

  lemma FirstStays(limits: Limits, parse: Line -> Payload, lines: seq<Line>, line: Line, k: nat)
    requires k <= |lines|
    ensures NoneDecides(limits, parse, lines + [line], k) <==> NoneDecides(limits, parse, lines, k)
    ensures k < |lines| ==>
              (FirstDecides(limits, parse, lines + [line], k) <==> FirstDecides(limits, parse, lines, k))
  {
    forall j | 0 <= j < |lines|
      ensures Decides(limits, parse, lines + [line], j) == Decides(limits, parse, lines, j)
    {
      SameBefore(limits, parse, lines, line, j);
    }
    hide Decides;
  }

  lemma EventCountOne(parse: Line -> Payload, lines: seq<Line>, line: Line)
    ensures EventCount(parse, lines + [line]) == EventCount(parse, lines) + (if IsEvent(parse, line) then 1 else 0)
  {
    hide IsEvent;
    assert (lines + [line])[..|lines|] == lines;
  }

  lemma DecidedStep(limits: Limits, parse: Line -> Payload, lines: seq<Line>, st: State, line: Line)
    requires DecidedState(limits, parse, lines, st)
    ensures DecidedState(limits, parse, lines + [line], Advance(limits, parse, st, line))
  {
    hide HandleLine, Retain, EventCount, IsMalformed, IsUnreadable, IsError, IsSuccess, IsEvent, TerminalStop,
         NoneDecides, Decides, FirstDecides, StopOf, CountedAt;
    var longer, n := lines + [line], |lines|;
    if st.stopped.Some? {
      var k: nat :| && k < |lines| && FirstDecides(limits, parse, lines, k)
                    && st.stopped.value == StopOf(limits, parse, lines, k)
                    && st.consumed == CountedAt(limits, parse, lines, k);
      SameBefore(limits, parse, lines, line, k);
      FirstStays(limits, parse, lines, line, k);
    } else {
      FirstStays(limits, parse, lines, line, n);
      LineSays(parse, line, st.consumed + 1);
      LastDecides(limits, parse, lines, line, st);
    }
  }

  lemma LastDecides(limits: Limits, parse: Line -> Payload, lines: seq<Line>, line: Line, st: State)
    requires st.stopped.None? && st.consumed == EventCount(parse, lines)
    requires NoneDecides(limits, parse, lines + [line], |lines|)
    ensures DecidedState(limits, parse, lines + [line], Advance(limits, parse, st, line))
  {
    var longer, n := lines + [line], |lines|;
    var next := Advance(limits, parse, st, line);
    assert longer[..n] == lines && longer[n] == line;
    EventCountOne(parse, lines, line);
    LastSays(limits, parse, lines, line, st);
    hide Advance, EventCount, IsEvent, Decides, StopOf, CountedAt, NoneDecides;
    if next.stopped.None? {
      NoneYet(limits, parse, longer, n);
    } else {
      assert FirstDecides(limits, parse, longer, n);
    }
  }

  lemma NoneYet(limits: Limits, parse: Line -> Payload, lines: seq<Line>, n: nat)
    requires |lines| == n + 1 && NoneDecides(limits, parse, lines, n) && !Decides(limits, parse, lines, n)
    ensures NoneDecides(limits, parse, lines, n + 1)
  {
    hide Decides;
  }

  /** The last line against what it says: it stops the run exactly if it decides, for its own reason. */
  lemma LastSays(limits: Limits, parse: Line -> Payload, lines: seq<Line>, line: Line, st: State)
    requires st.stopped.None? && st.consumed == EventCount(parse, lines)
    ensures var longer, n, next := lines + [line], |lines|, Advance(limits, parse, st, line);
            && (next.stopped.Some? <==> Decides(limits, parse, longer, n))
            && (next.stopped.None? ==> next.consumed == EventCount(parse, longer))
            && (next.stopped.Some? ==>
                  && next.stopped.value == StopOf(limits, parse, longer, n)
                  && next.consumed == CountedAt(limits, parse, longer, n))
  {
    var longer, n := lines + [line], |lines|;
    assert longer[..n] == lines && longer[n] == line;
    EventCountOne(parse, lines, line);
    LineSays(parse, line, st.consumed + 1);
    LineKinds(parse, line);
    AdvanceIs(limits, parse, st, line);
    hide HandleLine, Retain, EventCount, IsMalformed, IsUnreadable, IsError, IsSuccess, IsEvent, Advance;
    if st.consumed < limits.maxEvents && HandleLine(parse, line, st.consumed + 1).Accepted? {
      StopKinds(HandleLine(parse, line, st.consumed + 1).event);
      hide TerminalStop;
    }
  }

  lemma StopKinds(event: Event)
    ensures TerminalStop(event) in {None, Some(ErrorEvent), Some(SuccessEvent)}
  {
  }

  lemma LineKinds(parse: Line -> Payload, line: Line)
    ensures !(IsMalformed(parse, line) && IsUnreadable(parse, line))
    ensures !(IsError(parse, line) && IsSuccess(parse, line))
    ensures IsEvent(parse, line) ==> !IsMalformed(parse, line) && !IsUnreadable(parse, line)
    ensures IsError(parse, line) || IsSuccess(parse, line) ==> IsEvent(parse, line)
  {
  }

  /** The loop over lines stops at the first line that decides, for the reason that line gives, with the events counted
      that come before it, and with it if it is an error or a success itself. */
  lemma {:induction false} FoldDecided(limits: Limits, parse: Line -> Payload, lines: seq<Line>)
    ensures DecidedState(limits, parse, lines, Fold(limits, parse, lines))
  {
    if lines == [] {
      assert Fold(limits, parse, lines) == START;
    } else {
      hide Advance, Fold, DecidedState;
      var front, line := lines[..|lines| - 1], lines[|lines| - 1];
      assert lines == front + [line];
      FoldDecided(limits, parse, front);
      FoldOne(limits, parse, front, line);
      DecidedStep(limits, parse, front, Fold(limits, parse, front), line);
    }
  }

  // ---- Results ----

  datatype Verdict = Succeeded | Failed | Cancelled

  datatype Code =
    | NoCode | AdmissionDenied | DeadlineExceeded | WasCancelled | NativeError | EventCountExceeded
    | OverTotalBudget | StreamMalformed | ProgressRecordingFailed | TransportFailed | TransportCloseFailed
    | EndedWithoutSuccess

  datatype Result = Result(verdict: Verdict, consumed: nat, retained: seq<Event>, code: Code)

  function Failure(st: State, code: Code): Result {
    Result(Failed, st.consumed, st.retained, code)
  }

  function Stopped(st: State): Result
    requires st.stopped.Some?
  {
    match st.stopped.value
    case EventCapReached => Failure(st, EventCountExceeded)
    case MalformedLine => Failure(st, StreamMalformed)
    case UnreadableLine => Failure(st, TransportFailed)
    case ErrorEvent => Failure(st, NativeError)
    case SuccessEvent => Result(Succeeded, st.consumed, st.retained, NoCode)
  }

  function Rejected(st: State, error: StreamError): Result {
    Failure(st, if error.OverBudget? then OverTotalBudget else StreamMalformed)
  }

  /** The result of a stream in which nothing but its lines happens. */
  function ReferenceRun(limits: Limits, parse: Line -> Payload, lines: seq<Line>): Result {
    var st := Fold(limits, parse, lines);
    if st.stopped.Some? then Stopped(st) else Failure(st, EndedWithoutSuccess)
  }

  // ---- The method, in every environment ----

  /** Everything outside the stream's bytes: the clock and the cancellation flag at each poll, the
      progress callback at each event, and the transport. */
  datatype Environment = Environment(
    expired: nat -> bool,
    cancelled: nat -> bool,
    recordingFails: nat -> bool,
    openFails: bool,
    breaksAfter: Option<nat>,
    closeFails: bool)

  ghost predicate Quiet(env: Environment) {
    && (forall n: nat :: !env.expired(n) && !env.cancelled(n) && !env.recordingFails(n))
    && !env.openFails && env.breaksAfter.None? && !env.closeFails
  }

  /** A result reports the state it was taken from, and success only after a success event. */
  ghost predicate Reports(r: Result, st: State) {
    && r.consumed == st.consumed && r.retained == st.retained
    && (r.verdict.Succeeded? ==> st.stopped == Some(SuccessEvent))
  }

  /** A result that blames the environment is right to. */
  ghost predicate Explained(env: Environment, r: Result) {
    && (r.verdict.Succeeded? <==> r.code.NoCode?)
    && (r.verdict.Cancelled? <==> r.code.WasCancelled?)
    && (r.code.DeadlineExceeded? ==> exists n: nat :: env.expired(n))
    && (r.code.WasCancelled? ==> exists n: nat :: env.cancelled(n))
    && (r.code.ProgressRecordingFailed? ==> env.recordingFails(r.consumed + 1))
    && (r.code.TransportCloseFailed? ==> env.closeFails)
  }

  lemma FoldOne(limits: Limits, parse: Line -> Payload, lines: seq<Line>, line: Line)
    ensures Fold(limits, parse, lines + [line]) == Advance(limits, parse, Fold(limits, parse, lines), line)
  {
    assert (lines + [line])[..|lines|] == lines;
  }

  /** The body that the source repeats for each line of `feed` and of `finish`. The line is folded into
      the state, unless the environment ends the run before it is. */
  method ConsumeLine(limits: Limits, parse: Line -> Payload, env: Environment, line: Line, poll: nat, st: State)
    returns (st': State, result: Option<Result>)
    requires st.stopped.None?
    ensures st' == st || st' == Advance(limits, parse, st, line)
    ensures result.None? ==> st' == Advance(limits, parse, st, line) && st'.stopped.None?
    ensures result.Some? ==> Reports(result.value, st') && Explained(env, result.value)
    ensures result.Some? && Quiet(env) ==> st'.stopped.Some? && result.value == Stopped(st')
    ensures env.expired(poll) ==> st' == st && result == Some(Failure(st, DeadlineExceeded))
    ensures !env.expired(poll) && env.cancelled(poll) ==>
              st' == st && result == Some(Result(Cancelled, st.consumed, st.retained, WasCancelled))
    ensures !env.expired(poll) && !env.cancelled(poll) ==>
              if st.consumed < limits.maxEvents && IsEvent(parse, line) && env.recordingFails(st.consumed + 1) then
                st' == st && result == Some(Failure(st, ProgressRecordingFailed))
              else
                && st' == Advance(limits, parse, st, line)
                && result == if st'.stopped.Some? then Some(Stopped(st')) else None
  {
    hide Advance, IsEvent, Stopped, Reports, Explained;
    st', result := st, None;
    if env.expired(poll) {
      result := Some(Failure(st, DeadlineExceeded));
      PollExplained(env, st, poll);
      return;
    }
    if env.cancelled(poll) {
      result := Some(Result(Cancelled, st.consumed, st.retained, WasCancelled));
      PollExplained(env, st, poll);
      return;
    }
    st', result := HandleOne(limits, parse, env, line, st);
    if st'.stopped.Some? {
      StoppedExplained(env, st');
    } else if result.Some? {
      RecordingExplained(env, st);
    }
  }

  /** What follows the poll: the event cap, and then what the line says. */
  method HandleOne(limits: Limits, parse: Line -> Payload, env: Environment, line: Line, st: State)
    returns (st': State, result: Option<Result>)
    requires st.stopped.None?
    ensures if st.consumed < limits.maxEvents && IsEvent(parse, line) && env.recordingFails(st.consumed + 1) then
              st' == st && result == Some(Failure(st, ProgressRecordingFailed))
            else
              && st' == Advance(limits, parse, st, line)
              && result == if st'.stopped.Some? then Some(Stopped(st')) else None
  {
    LineSays(parse, line, st.consumed + 1);
    AdvanceIs(limits, parse, st, line);
    hide HandleLine, Retain, IsEvent, IsMalformed, IsUnreadable, IsError, IsSuccess, Advance, Stopped;
    st', result := st, None;
    if st.consumed >= limits.maxEvents {
      st' := st.(stopped := Some(EventCapReached));
      return st', Some(Stopped(st'));
    }
    var handled := HandleLine(parse, line, st.consumed + 1);
    match handled {
      case Ignored =>
      case Malformed =>
        st' := st.(stopped := Some(MalformedLine));
        return st', Some(Stopped(st'));
      case Faulted =>
        st' := st.(stopped := Some(UnreadableLine));
        return st', Some(Stopped(st'));
      case Accepted(event) =>
        if env.recordingFails(st.consumed + 1) {
          return st, Some(Failure(st, ProgressRecordingFailed));
        }
        st' := State(st.consumed + 1, Retain(st.retained, event, limits.maxRetained), TerminalStop(event));
        if st'.stopped.Some? {
          return st', Some(Stopped(st'));
        }
    }
  }

  lemma PollExplained(env: Environment, st: State, poll: nat)
    ensures var late := Failure(st, DeadlineExceeded);
            var flagged := Result(Cancelled, st.consumed, st.retained, WasCancelled);
            && Reports(late, st) && Reports(flagged, st)
            && (env.expired(poll) ==> Explained(env, late)) && (env.cancelled(poll) ==> Explained(env, flagged))
  {
  }

  lemma StoppedExplained(env: Environment, st: State)
    requires st.stopped.Some?
    ensures Reports(Stopped(st), st) && Explained(env, Stopped(st))
  {
  }

  lemma RecordingExplained(env: Environment, st: State)
    requires env.recordingFails(st.consumed + 1)
    ensures Reports(Failure(st, ProgressRecordingFailed), st) && Explained(env, Failure(st, ProgressRecordingFailed))
  {
  }

  lemma AdvanceIs(limits: Limits, parse: Line -> Payload, st: State, line: Line)
    requires st.stopped.None?
    ensures st.consumed >= limits.maxEvents ==>
              Advance(limits, parse, st, line) == st.(stopped := Some(EventCapReached))
    ensures st.consumed < limits.maxEvents ==>
              Advance(limits, parse, st, line) ==
              match HandleLine(parse, line, st.consumed + 1)
              case Ignored => st
              case Malformed => st.(stopped := Some(MalformedLine))
              case Faulted => st.(stopped := Some(UnreadableLine))
              case Accepted(event) =>
                State(st.consumed + 1, Retain(st.retained, event, limits.maxRetained), TerminalStop(event))
  {
    hide HandleLine, Retain;
  }

  /** These polls found neither the deadline passed nor the flag set. */
  ghost predicate Passed(env: Environment, from: nat, to: nat) {
    forall n | from <= n < to :: !env.expired(n) && !env.cancelled(n)
  }

  /** These events were reported to the callback. */
  ghost predicate Recorded(env: Environment, first: nat, last: nat) {
    forall n | first <= n <= last :: !env.recordingFails(n)
  }

  /** How a line can end the run: the poll before it, the callback, or what the line says. */
  ghost predicate EndsAt(env: Environment, r: Result, poll: nat, st: State) {
    && (r.code.DeadlineExceeded? <==> env.expired(poll))
    && (r.code.WasCancelled? <==> !env.expired(poll) && env.cancelled(poll))
    && (r.code.ProgressRecordingFailed? ==> env.recordingFails(st.consumed + 1))
    && (st.stopped.Some? ==> r == Stopped(st))
    && (st.stopped.None? ==> r.code.DeadlineExceeded? || r.code.WasCancelled? || r.code.ProgressRecordingFailed?)
  }

  lemma LineEnds(limits: Limits, parse: Line -> Payload, env: Environment, line: Line, poll: nat, st: State, st': State,
                 result: Option<Result>)
    requires st.stopped.None? && (st' == st || st' == Advance(limits, parse, st, line))
    requires env.expired(poll) ==> st' == st && result == Some(Failure(st, DeadlineExceeded))
    requires !env.expired(poll) && env.cancelled(poll) ==>
               st' == st && result == Some(Result(Cancelled, st.consumed, st.retained, WasCancelled))
    requires !env.expired(poll) && !env.cancelled(poll) ==>
               if st.consumed < limits.maxEvents && IsEvent(parse, line) && env.recordingFails(st.consumed + 1) then
                 st' == st && result == Some(Failure(st, ProgressRecordingFailed))
               else
                 && st' == Advance(limits, parse, st, line)
                 && result == if st'.stopped.Some? then Some(Stopped(st')) else None
    ensures st.consumed <= st'.consumed <= st.consumed + 1
    ensures st'.consumed == st.consumed + 1 ==> !env.recordingFails(st'.consumed)
    ensures result.None? ==> !env.expired(poll) && !env.cancelled(poll)
    ensures result.Some? ==> EndsAt(env, result.value, poll, st')
  {
    LineSays(parse, line, st.consumed + 1);
    hide HandleLine, Retain, IsEvent, IsMalformed, IsUnreadable, IsError, IsSuccess;
  }

  /** One inner loop. `before` is what the run has consumed already; some prefix of `lines` is folded in,
      all of it if nothing ends the run. */
  method ConsumeLines(limits: Limits, parse: Line -> Payload, env: Environment, lines: seq<Line>,
                      polls: nat, st: State, ghost before: seq<Line>)
    returns (polls': nat, st': State, result: Option<Result>, ghost count: nat)
    requires st == Fold(limits, parse, before) && st.stopped.None?
    ensures count <= |lines|
    ensures st' == Fold(limits, parse, before + lines[..count])
    ensures result.None? ==> count == |lines| && st'.stopped.None?
    ensures result.Some? ==> Reports(result.value, st') && Explained(env, result.value)
    ensures result.Some? && Quiet(env) ==> st'.stopped.Some? && result.value == Stopped(st')
    ensures polls + count <= polls' <= polls + count + 1
    ensures result.None? ==> polls' == polls + count
    ensures Passed(env, polls + 1, if result.Some? then polls' else polls' + 1)
    ensures Recorded(env, st.consumed + 1, st'.consumed)
    ensures result.Some? ==> polls' > polls && EndsAt(env, result.value, polls', st')
  {
    hide Fold, Advance, Stopped, Reports, Explained, IsEvent;
    polls', st', result, count := polls, st, None, 0;
    var i := 0;
    assert before + lines[..0] == before;
    while i < |lines|
      invariant count == i <= |lines|
      invariant st' == Fold(limits, parse, before + lines[..i]) && st'.stopped.None? && result.None?
      invariant polls' == polls + i && Passed(env, polls + 1, polls' + 1)
      invariant st.consumed <= st'.consumed && Recorded(env, st.consumed + 1, st'.consumed)
    {
      FoldOne(limits, parse, before + lines[..i], lines[i]);
      assert before + lines[..i] + [lines[i]] == before + lines[..i + 1];
      polls' := polls' + 1;
      ghost var st0 := st';
      st', result := ConsumeLine(limits, parse, env, lines[i], polls', st');
      LineEnds(limits, parse, env, lines[i], polls', st0, st', result);
      i := i + 1;
      count := if st' == st0 && result.Some? then i - 1 else i;
      if result.Some? {
        return;
      }
    }
  }

  /** The chunks read so far break a size limit of the framer: the budget, or a line's. */
  ghost predicate FramingFails(limits: Limits, chunks: seq<seq<Byte>>, read: nat, budget: bool)
    requires read <= |chunks|
  {
    var error := FeedAll(limits.maxLineBytes, limits.maxTotalBytes, chunks[..read]).error;
    error.Some? && (error.value.OverBudget? <==> budget)
  }

  /** Each code has its cause, and nothing else does what it says. */
  ghost predicate Caused(limits: Limits, env: Environment, chunks: seq<seq<Byte>>, r: Result, st: State,
                         seen: seq<Line>, polls: nat, read: nat)
    requires read <= |chunks|
  {
    && (r.code.DeadlineExceeded? <==> env.expired(polls))
    && (r.code.WasCancelled? <==> !env.expired(polls) && env.cancelled(polls))
    && match r.code
       case NoCode => st.stopped == Some(SuccessEvent)
       case NativeError => st.stopped == Some(ErrorEvent)
       case EventCountExceeded => st.stopped == Some(EventCapReached)
       case StreamMalformed => st.stopped == Some(MalformedLine) || FramingFails(limits, chunks, read, false)
       case OverTotalBudget => FramingFails(limits, chunks, read, true)
       case TransportFailed => st.stopped == Some(UnreadableLine) || env.openFails || env.breaksAfter == Some(read)
       case EndedWithoutSuccess => st.stopped.None? && seen == ReferenceLines(Concat(chunks))
       case ProgressRecordingFailed => env.recordingFails(r.consumed + 1)
       case DeadlineExceeded => true
       case WasCancelled => true
       case _ => false
  }

  lemma EndIsCause(limits: Limits, env: Environment, chunks: seq<seq<Byte>>, r: Result, st: State, seen: seq<Line>,
                   polls: nat, read: nat)
    requires read <= |chunks| && EndsAt(env, r, polls, st) && Reports(r, st)
    ensures Caused(limits, env, chunks, r, st, seen, polls, read)
  {
    hide FramingFails, ReferenceLines, Concat;
  }

  /** Where the run stands: the lines handled, and the polls, one for each line and each chunk. */
  ghost predicate Standing(limits: Limits, parse: Line -> Payload, env: Environment, chunks: seq<seq<Byte>>,
                           seen: seq<Line>, st: State, polls: nat, read: nat)
  {
    && Prefix(seen, ReferenceLines(Concat(chunks))) && st == Fold(limits, parse, seen)
    && read <= |chunks| && read + |seen| <= polls <= read + |seen| + 1
    && Passed(env, 0, polls) && Recorded(env, 1, st.consumed)
  }

  /** How the run ends: where it stood, with a result that has its cause. */
  ghost predicate Finished(limits: Limits, parse: Line -> Payload, env: Environment, chunks: seq<seq<Byte>>, r: Result,
                           seen: seq<Line>, polls: nat, read: nat)
  {
    && Standing(limits, parse, env, chunks, seen, Fold(limits, parse, seen), polls, read)
    && Reports(r, Fold(limits, parse, seen)) && Explained(env, r)
    && Caused(limits, env, chunks, r, Fold(limits, parse, seen), seen, polls, read)
  }

  /** The deadline has passed or the flag is set at this poll. */
  lemma EndsByPoll(limits: Limits, parse: Line -> Payload, env: Environment, chunks: seq<seq<Byte>>, seen: seq<Line>,
                   st: State, polls: nat, read: nat)
    requires Standing(limits, parse, env, chunks, seen, st, polls, read)
    ensures env.expired(polls) ==>
              Finished(limits, parse, env, chunks, Failure(st, DeadlineExceeded), seen, polls, read)
    ensures !env.expired(polls) && env.cancelled(polls) ==>
              Finished(limits, parse, env, chunks, Result(Cancelled, st.consumed, st.retained, WasCancelled), seen,
                       polls, read)
  {
    hide Fold, ReferenceLines, Concat, Passed, Recorded, FramingFails, Prefix;
  }

  /** The transport does not open or breaks, the framer refuses, or the stream ends. */
  lemma EndsOtherwise(limits: Limits, parse: Line -> Payload, env: Environment, chunks: seq<seq<Byte>>, seen: seq<Line>,
                      st: State, polls: nat, read: nat)
    requires Standing(limits, parse, env, chunks, seen, st, polls, read) && st.stopped.None?
    requires !env.expired(polls) && !env.cancelled(polls)
    ensures env.openFails || env.breaksAfter == Some(read) ==>
              Finished(limits, parse, env, chunks, Failure(st, TransportFailed), seen, polls, read)
    ensures forall error: StreamError ::
              FeedAll(limits.maxLineBytes, limits.maxTotalBytes, chunks[..read]).error == Some(error) ==>
                Finished(limits, parse, env, chunks, Rejected(st, error), seen, polls, read)
    ensures seen == ReferenceLines(Concat(chunks)) ==>
              Finished(limits, parse, env, chunks, Failure(st, EndedWithoutSuccess), seen, polls, read)
  {
    hide Fold, ReferenceLines, Concat, Passed, Recorded, Prefix, FeedAll;
  }

  /** A line has ended the run. */
  lemma EndsByLine(limits: Limits, parse: Line -> Payload, env: Environment, chunks: seq<seq<Byte>>, r: Result,
                   seen: seq<Line>, st: State, polls: nat, read: nat)
    requires Standing(limits, parse, env, chunks, seen, st, polls, read)
    requires EndsAt(env, r, polls, st) && Reports(r, st) && Explained(env, r)
    ensures Finished(limits, parse, env, chunks, r, seen, polls, read)
  {
    EndIsCause(limits, env, chunks, r, st, seen, polls, read);
    hide Fold, ReferenceLines, Concat, Passed, Recorded, Prefix, Caused, EndsAt, Explained;
  }

  lemma PassedOn(env: Environment, a: nat, b: nat, c: nat)
    requires a <= b && Passed(env, a, b) && Passed(env, b, c)
    ensures Passed(env, a, c)
  {
  }

  lemma RecordedOn(env: Environment, a: nat, b: nat, c: nat)
    requires Recorded(env, a, b) && Recorded(env, b + 1, c)
    ensures Recorded(env, a, c)
  {
  }

  /** The part of `run` between opening the transport and closing it. */
  method Pump(limits: Limits, parse: Line -> Payload, env: Environment, chunks: seq<seq<Byte>>)
    returns (r: Result, ghost seen: seq<Line>, ghost polls: nat, ghost read: nat)
    ensures Finished(limits, parse, env, chunks, r, seen, polls, read)
    ensures Quiet(env) && CutFits(limits.maxLineBytes, limits.maxTotalBytes, chunks) ==>
              r == ReferenceRun(limits, parse, ReferenceLines(Concat(chunks)))
  {
    Beginnings(limits, parse);
    AtFirst(limits, parse, env, chunks);
    hide CutFits, Concat, FeedFrom, FinishLines, CompleteLines, Tail, LastLine, Advance, FeedAll, Fold, Segments,
         Prefix, Finished, Explained, Passed, Recorded, Reports, EndsAt;
    var framer := new Framer(limits.maxLineBytes, limits.maxTotalBytes);
    var cap, budget := limits.maxLineBytes, limits.maxTotalBytes;
    var poll, st, i := 0, START, 0;
    ghost var count := 0;
    seen, polls, read := [], 0, 0;
    assert chunks[..0] == [];
    EndsByPoll(limits, parse, env, chunks, seen, st, polls, read);
    if env.expired(0) {
      return Failure(st, DeadlineExceeded), seen, polls, read;
    }
    if env.cancelled(0) {
      return Result(Cancelled, 0, [], WasCancelled), seen, polls, read;
    }
    EndsOtherwise(limits, parse, env, chunks, seen, st, polls, read);
    if env.openFails {
      return Failure(st, TransportFailed), seen, polls, read;
    }
    while i < |chunks|
      invariant i == read <= |chunks|
      invariant framer.maxLineBytes == cap && framer.maxTotalBytes == budget
      invariant Progress(seen, framer.buffer, framer.totalBytes, None) == FeedAll(cap, budget, chunks[..i])
      invariant framer.totalBytes <= budget
      invariant Standing(limits, parse, env, chunks, seen, st, polls, read) && st.stopped.None?
      invariant poll == polls == i + |seen| && !env.expired(poll) && !env.cancelled(poll)
    {
      EndsOtherwise(limits, parse, env, chunks, seen, st, polls, read);
      if env.breaksAfter == Some(i) {
        return Failure(st, TransportFailed), seen, polls, read;
      }
      PassedNext(env, poll);
      poll := poll + 1;
      polls := poll;
      EndsByPoll(limits, parse, env, chunks, seen, st, polls, read);
      if env.expired(poll) {
        return Failure(st, DeadlineExceeded), seen, polls, read;
      }
      if env.cancelled(poll) {
        return Result(Cancelled, st.consumed, st.retained, WasCancelled), seen, polls, read;
      }
      SeenSoFar(cap, budget, chunks, i + 1);
      FeedNext(cap, budget, chunks, i);
      var lines, error := framer.Feed(chunks[i]);
      ghost var yielded, before, earlier, from := seen + lines, seen, st, poll;
      assert yielded == FeedAll(cap, budget, chunks[..i + 1]).lines;
      var result;
      poll, st, result, count := ConsumeLines(limits, parse, env, lines, poll, st, seen);
      polls, read := poll, i + 1;
      seen := seen + lines[..count];
      StandingOn(limits, parse, env, chunks, before, earlier, from, lines, count, st, polls, read, result.Some?);
      if result.Some? {
        if st.stopped.Some? { StopIsFinal(limits, parse, seen, ReferenceLines(Concat(chunks))); }
        EndsByLine(limits, parse, env, chunks, result.value, seen, st, polls, read);
        return result.value, seen, polls, read;
      }
      assert seen == yielded;
      EndsOtherwise(limits, parse, env, chunks, seen, st, polls, read);
      if error.Some? {
        ErrorMeansNoFit(cap, budget, chunks, i + 1);
        return Rejected(st, error.value), seen, polls, read;
      }
      i := i + 1;
    }
    assert chunks[..i] == chunks;
    EndsOtherwise(limits, parse, env, chunks, seen, st, polls, read);
    if env.breaksAfter == Some(i) {
      return Failure(st, TransportFailed), seen, polls, read;
    }
    FeedAllYields(cap, budget, chunks);
    FinishIsLastLine(cap, framer.buffer);
    var lines, error := framer.Finish();
    ghost var before, earlier, from := seen, st, poll;
    YieldsAll(seen, lines, chunks);
    var result;
    poll, st, result, count := ConsumeLines(limits, parse, env, lines, poll, st, seen);
    polls := poll;
    seen := seen + lines[..count];
    StandingOn(limits, parse, env, chunks, before, earlier, from, lines, count, st, polls, read, result.Some?);
    if result.Some? {
      if st.stopped.Some? { StopIsFinal(limits, parse, seen, ReferenceLines(Concat(chunks))); }
      EndsByLine(limits, parse, env, chunks, result.value, seen, st, polls, read);
      return result.value, seen, polls, read;
    }
    assert seen == before + lines;
    EndsOtherwise(limits, parse, env, chunks, seen, st, polls, read);
    return Failure(st, EndedWithoutSuccess), seen, polls, read;
  }

  lemma AtFirst(limits: Limits, parse: Line -> Payload, env: Environment, chunks: seq<seq<Byte>>)
    ensures Standing(limits, parse, env, chunks, [], START, 0, 0)
  {
    Beginnings(limits, parse);
    hide ReferenceLines, Concat, Fold;
  }

  lemma PassedNext(env: Environment, poll: nat)
    requires Passed(env, 0, poll) && !env.expired(poll) && !env.cancelled(poll)
    ensures Passed(env, 0, poll + 1)
  {
  }

  /** After some of the lines a chunk has yielded. */
  lemma StandingOn(limits: Limits, parse: Line -> Payload, env: Environment, chunks: seq<seq<Byte>>, before: seq<Line>,
                   earlier: State, from: nat, lines: seq<Line>, count: nat, st: State, polls: nat, read: nat,
                   ended: bool)
    requires count <= |lines| && Prefix(before + lines, ReferenceLines(Concat(chunks)))
    requires read <= |chunks| && from == read + |before| && Recorded(env, 1, earlier.consumed)
    requires Passed(env, 0, from) && !env.expired(from) && !env.cancelled(from)
    requires st == Fold(limits, parse, before + lines[..count])
    requires from + count <= polls <= from + count + 1 && (!ended ==> polls == from + count)
    requires Passed(env, from + 1, if ended then polls else polls + 1)
    requires Recorded(env, earlier.consumed + 1, st.consumed)
    ensures Standing(limits, parse, env, chunks, before + lines[..count], st, polls, read)
    ensures !ended ==> !env.expired(polls) && !env.cancelled(polls)
  {
    hide Fold, ReferenceLines, Concat, Prefix;
    PrefixOf(before, lines, count, ReferenceLines(Concat(chunks)));
  }

  lemma PrefixOf(a: seq<Line>, b: seq<Line>, n: nat, c: seq<Line>)
    requires n <= |b| && Prefix(a + b, c)
    ensures Prefix(a + b[..n], c)
  {
  }

  lemma YieldsAll(seen: seq<Line>, lines: seq<Line>, chunks: seq<seq<Byte>>)
    requires seen + lines == ReferenceLines(Concat(chunks))
    ensures Prefix(seen + lines, ReferenceLines(Concat(chunks)))
  {
    hide ReferenceLines, Concat;
  }

  lemma Beginnings(limits: Limits, parse: Line -> Payload)
    ensures Fold(limits, parse, []) == START
    ensures FeedAll(limits.maxLineBytes, limits.maxTotalBytes, []) == Progress([], [], 0, None)
  {
  }

  lemma FeedNext(cap: nat, budget: nat, chunks: seq<seq<Byte>>, i: nat)
    requires i < |chunks|
    ensures FeedAll(cap, budget, chunks[..i + 1]) == FeedOne(cap, budget, FeedAll(cap, budget, chunks[..i]), chunks[i])
  {
    hide FeedOne;
    assert chunks[..i + 1][..i] == chunks[..i];
  }

  lemma PrefixTransitive<T>(a: seq<T>, b: seq<T>, c: seq<T>)
    requires Prefix(a, b) && Prefix(b, c)
    ensures Prefix(a, c)
  {
  }

  /** What the framer has yielded after `i` chunks is a prefix of the whole stream's reference lines. */
  lemma SeenSoFar(cap: nat, budget: nat, chunks: seq<seq<Byte>>, i: nat)
    requires i <= |chunks|
    ensures Prefix(FeedAll(cap, budget, chunks[..i]).lines, ReferenceLines(Concat(chunks)))
  {
    FeedAllYields(cap, budget, chunks[..i]);
    ConcatTake(chunks, i);
    var s, all := Concat(chunks[..i]), Concat(chunks);
    CompleteLinesGrow(s, all[|s|..]);
    assert s + all[|s|..] == all;
  }

  lemma ErrorMeansNoFit(cap: nat, budget: nat, chunks: seq<seq<Byte>>, i: nat)
    requires i <= |chunks| && FeedAll(cap, budget, chunks[..i]).error.Some?
    ensures !CutFits(cap, budget, chunks)
    decreases |chunks| - i
  {
    if i == |chunks| {
      assert chunks[..i] == chunks;
      FeedAllYields(cap, budget, chunks);
    } else {
      assert chunks[..i + 1][..i] == chunks[..i];
      ErrorMeansNoFit(cap, budget, chunks, i + 1);
    }
  }

  /** A run that has stopped ignores every further line. */
  lemma {:induction false} StopIsFinal(limits: Limits, parse: Line -> Payload, lines: seq<Line>, all: seq<Line>)
    requires Prefix(lines, all) && Fold(limits, parse, lines).stopped.Some?
    ensures Fold(limits, parse, all) == Fold(limits, parse, lines)
  {
    if |lines| < |all| {
      StopIsFinal(limits, parse, lines, all[..|all| - 1]);
    } else {
      assert lines == all;
    }
  }

  // ---- The accepted events ----

  /** The events of the decodable lines, numbered from 1, with no cap and no stop. */
  function Events(parse: Line -> Payload, lines: seq<Line>): seq<Event> {
    if lines == [] then []
    else
      var before := Events(parse, lines[..|lines| - 1]);
      Include(before, HandleLine(parse, lines[|lines| - 1], |before| + 1))
  }

  function Include(events: seq<Event>, handled: Handled): seq<Event> {
    if handled.Accepted? then events + [handled.event] else events
  }

  function LastOf(events: seq<Event>, n: nat): seq<Event> {
    if |events| <= n then events else events[|events| - n..]
  }

  lemma {:induction false} EventsGrow(parse: Line -> Payload, lines: seq<Line>, all: seq<Line>)
    requires Prefix(lines, all)
    ensures Prefix(Events(parse, lines), Events(parse, all))
  {
    if |lines| < |all| {
      EventsGrow(parse, lines, all[..|all| - 1]);
    } else {
      assert lines == all;
    }
  }

  ghost predicate Numbered(events: seq<Event>) {
    forall i | 0 <= i < |events| :: events[i].sequence == i + 1
  }

  lemma {:induction false} EventsNumbered(parse: Line -> Payload, lines: seq<Line>)
    ensures Numbered(Events(parse, lines))
  {
    if lines != [] {
      var before := Events(parse, lines[..|lines| - 1]);
      EventsNumbered(parse, lines[..|lines| - 1]);
      var handled := HandleLine(parse, lines[|lines| - 1], |before| + 1);
      if handled.Accepted? {
        assert handled.event.sequence == |before| + 1;
        assert Numbered(before + [handled.event]);
        assert Events(parse, lines) == before + [handled.event];
      } else {
        assert Events(parse, lines) == before;
      }
    }
  }

  lemma RetainIsLast(events: seq<Event>, event: Event, cap: nat)
    requires cap >= 1
    ensures Retain(LastOf(events, cap), event, cap) == LastOf(events + [event], cap)
  {
  }

  /** What every state of the loop knows about the events it has accepted. */
  ghost predicate Accounts(limits: Limits, st: State, events: seq<Event>) {
    && st.consumed <= limits.maxEvents
    && st.consumed <= |events|
    && st.retained == LastOf(events[..st.consumed], limits.maxRetained)
    && (forall i | 0 <= i < st.consumed - 1 :: TerminalStop(events[i]).None?)
    && (st.stopped == Some(SuccessEvent) ==> st.consumed > 0 && Succeeds(events[st.consumed - 1]))
    && (st.stopped.None? ==> st.consumed == |events| && forall i | 0 <= i < |events| :: TerminalStop(events[i]).None?)
  }

  lemma AccountsStep(limits: Limits, parse: Line -> Payload, st: State, events: seq<Event>, line: Line)
    requires limits.maxRetained >= 1
    requires Accounts(limits, st, events) && st.stopped.None?
    ensures Accounts(limits, Advance(limits, parse, st, line),
                     Include(events, HandleLine(parse, line, |events| + 1)))
  {
    hide HandleLine, LastOf, Retain;
    var handled := HandleLine(parse, line, |events| + 1);
    assert events[..|events|] == events;
    if handled.Accepted? {
      var longer := events + [handled.event];
      assert longer[..|longer|] == longer && longer[..|events|] == events;
      RetainIsLast(events, handled.event, limits.maxRetained);
    }
  }

  lemma EventsOne(parse: Line -> Payload, lines: seq<Line>, line: Line)
    ensures var before := Events(parse, lines);
            Events(parse, lines + [line]) == Include(before, HandleLine(parse, line, |before| + 1))
  {
    hide HandleLine, Include;
    assert (lines + [line])[..|lines|] == lines;
  }

  lemma {:induction false} FoldAccounts(limits: Limits, parse: Line -> Payload, lines: seq<Line>)
    requires limits.maxRetained >= 1
    ensures Accounts(limits, Fold(limits, parse, lines), Events(parse, lines))
  {
    if lines == [] {
      assert Events(parse, lines) == [] && Fold(limits, parse, lines) == START;
    } else {
      hide HandleLine, LastOf, Fold, Events, Advance, Include;
      var front, line := lines[..|lines| - 1], lines[|lines| - 1];
      assert lines == front + [line];
      FoldAccounts(limits, parse, front);
      FoldOne(limits, parse, front, line);
      EventsOne(parse, front, line);
      AccountsAdvance(limits, parse, Fold(limits, parse, front), Events(parse, front), line);
    }
  }

  lemma AccountsAdvance(limits: Limits, parse: Line -> Payload, st: State, events: seq<Event>, line: Line)
    requires limits.maxRetained >= 1 && Accounts(limits, st, events)
    ensures Accounts(limits, Advance(limits, parse, st, line),
                     Include(events, HandleLine(parse, line, |events| + 1)))
  {
    hide HandleLine, LastOf;
    var handled := HandleLine(parse, line, |events| + 1);
    if st.stopped.None? {
      AccountsStep(limits, parse, st, events, line);
    } else if handled.Accepted? {
      assert (events + [handled.event])[..st.consumed] == events[..st.consumed];
    }
  }

  /** The accounts hold as well against the events of any longer list of lines. */
  lemma AccountsAgainst(limits: Limits, parse: Line -> Payload, lines: seq<Line>, all: seq<Line>)
    requires limits.maxRetained >= 1 && Prefix(lines, all)
    ensures var st, events := Fold(limits, parse, lines), Events(parse, all);
            && st.consumed <= limits.maxEvents && st.consumed <= |events|
            && st.retained == LastOf(events[..st.consumed], limits.maxRetained)
            && (st.stopped == Some(SuccessEvent) ==>
                  && st.consumed > 0 && Succeeds(events[st.consumed - 1])
                  && forall i | 0 <= i < st.consumed - 1 :: !Succeeds(events[i]) && !Fails(events[i]))
  {
    hide HandleLine, LastOf;
    FoldAccounts(limits, parse, lines);
    EventsGrow(parse, lines, all);
    var st, own, events := Fold(limits, parse, lines), Events(parse, lines), Events(parse, all);
    assert events[..st.consumed] == own[..st.consumed];
    forall i | 0 <= i < st.consumed - 1 && st.stopped == Some(SuccessEvent) ensures !Succeeds(events[i])
        && !Fails(events[i]) {
      assert TerminalStop(own[i]).None?;
    }
  }

  // ---- run ----

  /** What an end of the run tells of its result. */
  lemma FinishedRun(limits: Limits, parse: Line -> Payload, env: Environment, chunks: seq<seq<Byte>>, r: Result,
                    seen: seq<Line>, polls: nat, read: nat)
    requires limits.maxRetained >= 1 && Finished(limits, parse, env, chunks, r, seen, polls, read)
    ensures var events := Events(parse, ReferenceLines(Concat(chunks)));
            && r.consumed <= |events| && r.consumed <= limits.maxEvents
            && r.retained == LastOf(events[..r.consumed], limits.maxRetained)
            && (r.verdict.Succeeded? ==>
                  && r.consumed > 0 && Succeeds(events[r.consumed - 1])
                  && forall i | 0 <= i < r.consumed - 1 :: !Succeeds(events[i]) && !Fails(events[i]))
    ensures read <= |chunks| && Passed(env, 0, polls) && Recorded(env, 1, r.consumed) && Explained(env, r)
    ensures Justified(limits, parse, env, chunks, r, polls, read)
    ensures !r.code.AdmissionDenied? && !r.code.TransportCloseFailed?
  {
    hide Fold, Events, LastOf, ReferenceLines, Concat, Justified, Caused, Passed, Recorded, Explained, Prefix, Succeeds,
         Fails;
    AccountsAgainst(limits, parse, seen, ReferenceLines(Concat(chunks)));
    CausedJustifies(limits, parse, env, chunks, r, seen, polls, read);
    CausedCodes(limits, env, chunks, r, Fold(limits, parse, seen), seen, polls, read);
  }

  lemma CausedCodes(limits: Limits, env: Environment, chunks: seq<seq<Byte>>, r: Result, st: State, seen: seq<Line>,
                    polls: nat, read: nat)
    requires read <= |chunks| && Caused(limits, env, chunks, r, st, seen, polls, read) && Reports(r, st)
    ensures !r.code.AdmissionDenied? && !r.code.TransportCloseFailed?
    ensures r.consumed == st.consumed && r.retained == st.retained
    ensures r.verdict.Succeeded? ==> st.stopped == Some(SuccessEvent)
  {
    hide FramingFails, ReferenceLines, Concat;
  }

  /** The result by the line that decides the run. */
  ghost predicate DecidedBy(limits: Limits, parse: Line -> Payload, lines: seq<Line>, r: Result, stop: Stop) {
    exists k: nat ::
      && k < |lines| && FirstDecides(limits, parse, lines, k)
      && StopOf(limits, parse, lines, k) == stop && r.consumed == CountedAt(limits, parse, lines, k)
  }

  /** No line decides, and every event is counted. */
  ghost predicate Undecided(limits: Limits, parse: Line -> Payload, lines: seq<Line>, r: Result) {
    NoneDecides(limits, parse, lines, |lines|) && r.consumed == EventCount(parse, lines)
  }

  /** The result of every run, by the lines of its stream and what happened around it. */
  ghost predicate Justified(limits: Limits, parse: Line -> Payload, env: Environment, chunks: seq<seq<Byte>>, r: Result,
                            polls: nat, read: nat)
    requires read <= |chunks|
  {
    var lines := ReferenceLines(Concat(chunks));
    && (r.code.DeadlineExceeded? <==> env.expired(polls))
    && (r.code.WasCancelled? <==> !env.expired(polls) && env.cancelled(polls))
    && match r.code
       case NoCode => DecidedBy(limits, parse, lines, r, SuccessEvent)
       case NativeError => DecidedBy(limits, parse, lines, r, ErrorEvent)
       case EventCountExceeded => DecidedBy(limits, parse, lines, r, EventCapReached)
       case StreamMalformed =>
         DecidedBy(limits, parse, lines, r, MalformedLine) || FramingFails(limits, chunks, read, false)
       case OverTotalBudget => FramingFails(limits, chunks, read, true)
       case TransportFailed =>
         DecidedBy(limits, parse, lines, r, UnreadableLine) || env.openFails || env.breaksAfter == Some(read)
       case EndedWithoutSuccess => Undecided(limits, parse, lines, r)
       case ProgressRecordingFailed => env.recordingFails(r.consumed + 1)
       case DeadlineExceeded => true
       case WasCancelled => true
       case _ => false
  }

  /** What the lines alone decide: the code and the count, each code for its own kind of line and no other. */
  ghost predicate ByItsLines(limits: Limits, parse: Line -> Payload, lines: seq<Line>, r: Result) {
    && (r.verdict.Succeeded? <==> DecidedBy(limits, parse, lines, r, SuccessEvent))
    && (r.code.NoCode? <==> DecidedBy(limits, parse, lines, r, SuccessEvent))
    && (r.code.NativeError? <==> DecidedBy(limits, parse, lines, r, ErrorEvent))
    && (r.code.EventCountExceeded? <==> DecidedBy(limits, parse, lines, r, EventCapReached))
    && (r.code.StreamMalformed? <==> DecidedBy(limits, parse, lines, r, MalformedLine))
    && (r.code.TransportFailed? <==> DecidedBy(limits, parse, lines, r, UnreadableLine))
    && (r.code.EndedWithoutSuccess? <==> Undecided(limits, parse, lines, r))
    && (r.verdict.Succeeded? || r.verdict.Failed?)
  }

  lemma {:induction false} FirstInLonger(limits: Limits, parse: Line -> Payload, lines: seq<Line>, all: seq<Line>,
                                         k: nat)
    requires Prefix(lines, all) && k < |lines| && FirstDecides(limits, parse, lines, k)
    ensures k < |all| && FirstDecides(limits, parse, all, k)
    ensures StopOf(limits, parse, all, k) == StopOf(limits, parse, lines, k)
    ensures CountedAt(limits, parse, all, k) == CountedAt(limits, parse, lines, k)
  {
    hide Decides, FirstDecides, StopOf, CountedAt, NoneDecides;
    if |lines| < |all| {
      var front, line := all[..|all| - 1], all[|all| - 1];
      assert front + [line] == all;
      FirstInLonger(limits, parse, lines, front, k);
      FirstStays(limits, parse, front, line, k);
      SameBefore(limits, parse, front, line, k);
    } else {
      assert lines == all;
    }
  }

  /** There is at most one first deciding line. */
  lemma OneFirst(limits: Limits, parse: Line -> Payload, lines: seq<Line>, j: nat, k: nat)
    requires FirstDecides(limits, parse, lines, j) && FirstDecides(limits, parse, lines, k)
    ensures j == k
  {
    hide Decides;
  }

  lemma StoppedDecides(limits: Limits, parse: Line -> Payload, seen: seq<Line>, all: seq<Line>, r: Result)
    requires Prefix(seen, all) && Fold(limits, parse, seen).stopped.Some?
    requires r.consumed == Fold(limits, parse, seen).consumed
    ensures DecidedBy(limits, parse, all, r, Fold(limits, parse, seen).stopped.value)
  {
    hide Fold, Decides, FirstDecides, StopOf, CountedAt, NoneDecides, Prefix;
    FoldDecided(limits, parse, seen);
    var st := Fold(limits, parse, seen);
    var k: nat :| && k < |seen| && FirstDecides(limits, parse, seen, k)
                  && st.stopped.value == StopOf(limits, parse, seen, k)
                  && st.consumed == CountedAt(limits, parse, seen, k);
    FirstInLonger(limits, parse, seen, all, k);
  }

  lemma CausedJustifies(limits: Limits, parse: Line -> Payload, env: Environment, chunks: seq<seq<Byte>>, r: Result,
                        seen: seq<Line>, polls: nat, read: nat)
    requires read <= |chunks| && Prefix(seen, ReferenceLines(Concat(chunks)))
    requires Caused(limits, env, chunks, r, Fold(limits, parse, seen), seen, polls, read)
    requires Reports(r, Fold(limits, parse, seen))
    ensures Justified(limits, parse, env, chunks, r, polls, read)
  {
    hide Fold, DecidedBy, ReferenceLines, Concat, FramingFails, Undecided, Prefix;
    var st := Fold(limits, parse, seen);
    if st.stopped.Some? {
      StoppedDecides(limits, parse, seen, ReferenceLines(Concat(chunks)), r);
    } else {
      NotStopped(limits, parse, seen, r);
    }
  }

  lemma NotStopped(limits: Limits, parse: Line -> Payload, seen: seq<Line>, r: Result)
    requires Fold(limits, parse, seen).stopped.None? && r.consumed == Fold(limits, parse, seen).consumed
    ensures Undecided(limits, parse, seen, r)
  {
    hide Fold, NoneDecides;
    FoldDecided(limits, parse, seen);
  }

  /** Undisturbed, the result is what the first deciding line makes it. */
  lemma ReferenceByLines(limits: Limits, parse: Line -> Payload, lines: seq<Line>)
    ensures ByItsLines(limits, parse, lines, ReferenceRun(limits, parse, lines))
  {
    hide Fold, DecidedBy, Undecided;
    var st, r := Fold(limits, parse, lines), ReferenceRun(limits, parse, lines);
    if st.stopped.Some? {
      StoppedDecides(limits, parse, lines, lines, r);
      forall stop | DecidedBy(limits, parse, lines, r, stop) ensures stop == st.stopped.value {
        OneStop(limits, parse, lines, r, stop, st.stopped.value);
      }
      NotBoth(limits, parse, lines, r, st.stopped.value);
    } else {
      NotStopped(limits, parse, lines, r);
      forall stop ensures !DecidedBy(limits, parse, lines, r, stop) { NotBoth(limits, parse, lines, r, stop); }
    }
  }

  lemma OneStop(limits: Limits, parse: Line -> Payload, lines: seq<Line>, r: Result, a: Stop, b: Stop)
    requires DecidedBy(limits, parse, lines, r, a) && DecidedBy(limits, parse, lines, r, b)
    ensures a == b
  {
    hide FirstDecides, StopOf, CountedAt;
    var j: nat :| && j < |lines| && FirstDecides(limits, parse, lines, j)
                  && StopOf(limits, parse, lines, j) == a && r.consumed == CountedAt(limits, parse, lines, j);
    var k: nat :| && k < |lines| && FirstDecides(limits, parse, lines, k)
                  && StopOf(limits, parse, lines, k) == b && r.consumed == CountedAt(limits, parse, lines, k);
    OneFirst(limits, parse, lines, j, k);
  }

  lemma NotBoth(limits: Limits, parse: Line -> Payload, lines: seq<Line>, r: Result, stop: Stop)
    ensures !(DecidedBy(limits, parse, lines, r, stop) && Undecided(limits, parse, lines, r))
  {
    hide Decides, StopOf, CountedAt;
  }

  method Run(limits: Limits, parse: Line -> Payload, env: Environment, chunks: seq<seq<Byte>>, admitted: bool)
    returns (r: Result, ghost polls: nat, ghost read: nat)
    requires 1 <= limits.maxRetained
    // The events accepted are a prefix of those of the reference lines, and the last of them are retained.
    ensures var events := Events(parse, ReferenceLines(Concat(chunks)));
            && r.consumed <= |events| && r.consumed <= limits.maxEvents
            && r.retained == LastOf(events[..r.consumed], limits.maxRetained)
            && (r.verdict.Succeeded? ==>
                  && r.consumed > 0 && Succeeds(events[r.consumed - 1])
                  && forall i | 0 <= i < r.consumed - 1 :: !Succeeds(events[i]) && !Fails(events[i]))
    // With nothing but the stream's lines to go by, the result does not depend on the chunks.
    ensures admitted && Quiet(env) && CutFits(limits.maxLineBytes, limits.maxTotalBytes, chunks) ==>
              r == ReferenceRun(limits, parse, ReferenceLines(Concat(chunks)))
    // And it is what the first deciding line makes it.
    ensures admitted && Quiet(env) && CutFits(limits.maxLineBytes, limits.maxTotalBytes, chunks) ==>
              ByItsLines(limits, parse, ReferenceLines(Concat(chunks)), r)
    // Whatever happens around it, the result has its cause, at the first poll, callback or line that gives one.
    ensures read <= |chunks| && Passed(env, 0, polls) && Recorded(env, 1, r.consumed)
    ensures admitted && !env.closeFails ==> Justified(limits, parse, env, chunks, r, polls, read)
    ensures r.code.AdmissionDenied? <==> !admitted
    ensures r.code.TransportCloseFailed? <==> admitted && env.closeFails
    ensures r.verdict.Succeeded? ==> admitted && !env.closeFails
    ensures Explained(env, r)
  {
    polls, read := 0, 0;
    if !admitted {
      r := Result(Failed, 0, [], AdmissionDenied);
      return;
    }
    hide Fold, Events, LastOf, ReferenceLines, ReferenceRun, Concat, Justified, ByItsLines, CutFits, Finished,
         Passed, Recorded, Explained;
    ghost var seen;
    r, seen, polls, read := Pump(limits, parse, env, chunks);
    FinishedRun(limits, parse, env, chunks, r, seen, polls, read);
    ReferenceByLines(limits, parse, ReferenceLines(Concat(chunks)));
    if env.closeFails {
      r := Result(Failed, r.consumed, r.retained, TransportCloseFailed);
    }
  }
}
