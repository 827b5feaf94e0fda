/** The transport object and the bounded stream it hands out. */
module Transport {
  import opened Options
  import opened Bytes
  import opened Opening

  class NativeTransport {
    var active: Option<nat>
    var opening: Option<nat>
    var generation: nat

    // The calls under way, the responses obtained, and the streams `close` has still to close.
    var calls: map<nat, Call>
    var responses: map<nat, Response>
    var detached: set<nat>

    ghost function View(): State
      reads this
    {
      State(active, opening, generation, calls, responses, detached)
    }

    ghost predicate Valid()
      reads this
    {
      Inv(View())
    }

    constructor ()
      ensures Valid() && View() == INITIAL
    {
      active, opening, generation, calls, responses, detached := None, None, 0, map[], map[], {};
      new;
      InitInv();
    }

    /** The first region of `open_stream`. */
    method BeginOpen(call: nat) returns (began: bool)
      requires Valid() && call !in calls
      modifies this
      ensures Valid() && View() == Step(old(View()), Begin(call))
      ensures began <==> old(active).None? && old(opening).None?
      ensures began ==> opening == Some(generation) && calls == old(calls)[call := Awaiting(generation)]
      ensures !began ==> opening == old(opening) && calls == old(calls)
      ensures active == old(active) && generation == old(generation) && responses == old(responses)
    {
      StepKeeps(View(), Begin(call));
      hide Inv;
      if active.Some? || opening.Some? { return false; }
      var own := generation;
      opening := Some(own);
      calls := calls[call := Awaiting(own)];
      return true;
    }

    /** `_clear_opening`, after the request has failed. */
    method ClearOpening(call: nat)
      requires Valid() && Enabled(View(), Clear(call))
      modifies this
      ensures Valid() && View() == Step(old(View()), Clear(call))
      ensures opening == (if old(calls)[call].generation == generation then None else old(opening))
      ensures calls == old(calls) - {call} && active == old(active) && generation == old(generation)
    {
      StepKeeps(View(), Clear(call));
      OwnOpening(View(), call);
      hide Inv;
      var own := calls[call].generation;
      if opening == Some(own) {
        opening := None;
      }
      calls := calls - {call};
    }

    /** The second region of `open_stream`, with the response in hand. */
    method Accept(call: nat) returns (stale: bool)
      requires Valid() && Enabled(View(), Install(call))
      modifies this
      ensures Valid() && View() == Step(old(View()), Install(call))
      ensures stale <==> old(calls)[call].generation < generation
      ensures !stale ==> active == Some(old(calls)[call].response)
      ensures stale ==> active == old(active) && opening == old(opening)
      ensures !stale ==>
                && opening == None && calls == old(calls) - {call}
                && responses == old(responses)[old(calls)[call].response := Installed]
      ensures stale ==>
                && calls == old(calls)[call := Discarding(old(calls)[call].response)]
                && responses == old(responses)
    {
      StepKeeps(View(), Install(call));
      StaleIffClosedSince(View(), call);
      hide Inv;
      var own, response := calls[call].generation, calls[call].response;
      stale := opening != Some(own) || active.Some?;
      if !stale {
        active := Some(response);
        opening := None;
        calls := calls - {call};
        responses := responses[response := Installed];
      } else {
        calls := calls[call := Discarding(response)];
      }
    }

    /** The region of `close`; the stream it takes off is closed afterwards. */
    method Detach() returns (stream: Option<nat>)
      requires Valid()
      modifies this
      ensures Valid() && View() == Step(old(View()), Close)
      ensures stream == old(active) && active.None? && opening.None?
      ensures forall c | c in calls && Outstanding(calls[c]) :: calls[c].generation < generation
      ensures generation == old(generation) + 1 && calls == old(calls) && responses == old(responses)
      ensures detached == old(detached) + (if stream.Some? then {stream.value} else {})
    {
      hide Inv, Step, Generations;
      StepKeeps(View(), Close);
      CloseOutdates(View());
      generation := generation + 1;
      stream := active;
      active := None;
      opening := None;
      detached := detached + if stream.Some? then {stream.value} else {};
    }

    /** `close` on the stream taken off. */
    method CloseStream(stream: nat)
      requires Valid() && stream in detached
      modifies this
      ensures Valid() && View() == Step(old(View()), CloseDetached(stream))
      ensures stream in responses && (responses[stream].Closing? || responses[stream].Closed?)
      ensures detached == old(detached) - {stream} && stream in old(responses)
      ensures responses == if old(responses)[stream] == Installed then old(responses)[stream := Closing]
                           else old(responses)
    {
      StepKeeps(View(), CloseDetached(stream));
      hide Generations, Unshared;
      if responses[stream].Installed? {
        responses := responses[stream := Closing];
      }
      detached := detached - {stream};
    }
  }

  lemma StepKeeps(s: State, a: Action)
    requires Inv(s) && Enabled(s, a)
    ensures Inv(Step(s, a))
  {
    hide Enabled, Step, Generations, Unshared, Owned;
    StepGenerations(s, a);
    StepUnshared(s, a);
    StepOwned(s, a);
  }

  /** A failing call clears the opening mark only if it is its own. */
  lemma OwnOpening(s: State, call: nat)
    requires Inv(s) && call in s.calls && Outstanding(s.calls[call])
    ensures s.opening == Some(s.calls[call].generation) <==> s.calls[call].generation == s.generation
  {
  }

  /** After a `close` no call that is under way can install its response any more. */
  lemma CloseOutdates(s: State)
    requires Inv(s)
    ensures var t := Step(s, Close);
            && t == s.(generation := s.generation + 1, active := None, opening := None,
                       detached := s.detached + (if s.active.Some? then {s.active.value} else {}))
            && forall c | c in t.calls && Outstanding(t.calls[c]) :: t.calls[c].generation < t.generation
  {
    hide Owned, Unshared;
  }

  // ---- The stream ----

  function Total(chunks: seq<seq<Byte>>): nat {
    if chunks == [] then 0 else Total(chunks[..|chunks| - 1]) + |chunks[|chunks| - 1]|
  }

  lemma {:induction false} TotalGrows(chunks: seq<seq<Byte>>, n: nat)
    requires n <= |chunks|
    ensures Total(chunks[..n]) <= Total(chunks)
    decreases |chunks|
  {
    if n < |chunks| {
      var front := chunks[..|chunks| - 1];
      assert front[..n] == chunks[..n];
      TotalGrows(front, n);
    } else {
      assert chunks[..n] == chunks;
    }
  }

  datatype Ending = Finished | ClosedMeanwhile | TooLong

  /** `_BoundedNativeStream.__iter__`, drained: what `read` returns is `chunks` and then nothing, and another thread
      may close the stream before or during any read. Whatever ends it, the stream ends up closed. `breaks` says whether
      closing the response raises; that error replaces any other ending. */
  class BoundedStream {
    const maxBytes: nat
    const breaks: bool
    var total: nat
    var closed: bool
    var closes: nat
    var closeError: bool

    ghost predicate Valid()
      reads this
    {
      closes == (if closed then 1 else 0) && (closeError <==> closed && breaks)
    }

    constructor (maxBytes: nat, breaks: bool)
      ensures Valid() && !closed && total == 0 && this.maxBytes == maxBytes && this.breaks == breaks
    {
      this.maxBytes, this.breaks := maxBytes, breaks;
      total, closed, closes, closeError := 0, false, 0, false;
    }

    /** `close`: the response is closed by the first call only, and if that raises every later call raises again. */
    method Close() returns (raised: bool)
      requires Valid()
      modifies `closed, `closes, `closeError
      ensures Valid() && closed && closes == 1
      ensures raised <==> breaks
    {
      if closed { return closeError; }
      closed := true;
      closes := closes + 1;
      if breaks {
        closeError := true;
      }
      return closeError;
    }

    method Drain(chunks: seq<seq<Byte>>, closesBefore: nat -> bool, closesDuring: nat -> bool)
      returns (yielded: seq<seq<Byte>>, ending: Ending, raised: bool)
      requires Valid() && total == 0 && !closed
      requires forall i | 0 <= i < |chunks| :: chunks[i] != []
      modifies this
      ensures Valid() && closed && closes == 1
      ensures raised <==> breaks
      ensures yielded <= chunks && Total(yielded) <= maxBytes
      ensures ending.Finished? ==> yielded == chunks
      ensures ending.TooLong? ==> |yielded| < |chunks| && Total(chunks[..|yielded| + 1]) > maxBytes
      ensures ending.ClosedMeanwhile? ==> closesBefore(|yielded|) || (|yielded| < |chunks| && closesDuring(|yielded|))
      ensures (forall i :: !closesBefore(i) && !closesDuring(i)) ==>
                (ending.Finished? <==> Total(chunks) <= maxBytes)
    {
      yielded := [];
      ending := Finished;
      var i := 0;
      assert Total(chunks[..0]) == 0;
      while true
        invariant i <= |chunks| && yielded == chunks[..i] && total == Total(yielded) <= maxBytes
        invariant Valid() && !closed && ending.Finished?
        decreases |chunks| - i
      {
        if closesBefore(i) { var elsewhere := Close(); }
        if closed {
          ending := ClosedMeanwhile;
          break;
        }
        var chunk := if i < |chunks| then chunks[i] else [];
        if chunk == [] {
          raised := Close();
          break;
        }
        if closesDuring(i) { var elsewhere := Close(); }
        if closed {
          ending := ClosedMeanwhile;
          break;
        }
        total := total + |chunk|;
        assert chunks[..i + 1][..i] == chunks[..i];
        if total > maxBytes {
          ending := TooLong;
          TotalGrows(chunks, i + 1);
          break;
        }
        yielded := yielded + [chunk];
        i := i + 1;
      }
      assert chunks[..|chunks|] == chunks;
      raised := Close();
    }
  }
}
