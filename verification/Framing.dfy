/** The bounded JSONL framer of the native pull adapter.

    `Framer` is the object the source updates in place. `FeedLines` and `Finish` say what one call
    yields; `Deliver` is a whole stream cut into chunks. `ReferenceLines` is the specification: a split
    of the complete byte string at its newlines, which knows nothing of chunks or buffers. */
module Framing {
  import opened Bytes
  import opened Options

  datatype StreamError = OverBudget | TailTooLong | LineTooLong

  type Line = seq<Byte>

  // ---- The specification: one split of the whole byte string ----

  ghost predicate Unbroken(s: seq<Byte>) {
    forall i | 0 <= i < |s| :: s[i] != LF
  }

  /** The segments between newlines; the last one is what follows the last newline. */
  function Segments(s: seq<Byte>): (segments: seq<Line>)
    ensures |segments| >= 1
  {
    if s == [] then [[]] else
      var before := Segments(s[..|s| - 1]);
      var b := s[|s| - 1];
      if b == LF then before + [[]]
      else before[|before| - 1 := before[|before| - 1] + [b]]
  }

  /** `raw[:-1]` when `raw` ends in a carriage return. */
  function DropCR(s: Line): Line {
    if EndsWith(s, CR) then s[..|s| - 1] else s
  }

  function UnlessBlank(s: Line): seq<Line> {
    if Blank(s) then [] else [s]
  }

  /** The bytes after the last newline. */
  function Tail(s: seq<Byte>): Line {
    if s == [] || s[|s| - 1] == LF then [] else Tail(s[..|s| - 1]) + [s[|s| - 1]]
  }

  /** The lines that end in a newline: up to two trailing carriage returns dropped, blank lines dropped. */
  function CompleteLines(s: seq<Byte>): seq<Line> {
    if s == [] then []
    else
      var before := CompleteLines(s[..|s| - 1]);
      if s[|s| - 1] == LF then before + UnlessBlank(DropCR(DropCR(Tail(s[..|s| - 1])))) else before
  }

  /** What a stream that ends here still owes: at most one carriage return dropped. */
  function LastLine(tail: Line): seq<Line> {
    UnlessBlank(DropCR(tail))
  }

  function ReferenceLines(s: seq<Byte>): seq<Line> {
    CompleteLines(s) + LastLine(Tail(s))
  }

  ghost predicate AllWithin(cap: nat, lines: seq<Line>) {
    forall i | 0 <= i < |lines| :: |lines[i]| <= cap
  }

  /** No segment is longer than the line cap, and the total is within the budget. */
  ghost predicate Fits(cap: nat, budget: nat, s: seq<Byte>) {
    && |s| <= budget
    && AllWithin(cap, Segments(s))
  }

  // ---- What the code computes ----

  datatype Taken = Kept(line: Line) | Skipped | TooLong

  /** `_take_complete_line`, on a buffer that ends in the newline just appended. */
  function Trimmed(buffer: Line): Line {
    var raw :=
      if EndsWith(buffer, LF) && EndsWith(buffer[..|buffer| - 1], CR) then buffer[..|buffer| - 2]
      else if EndsWith(buffer, LF) then buffer[..|buffer| - 1]
      else buffer;
    if EndsWith(raw, CR) then raw[..|raw| - 1] else raw
  }

  function TakeCompleteLine(cap: nat, buffer: Line): Taken {
    var trimmed := Trimmed(buffer);
    if Blank(trimmed) then Skipped
    else if |trimmed| > cap then TooLong
    else Kept(trimmed)
  }

  /** The lines a generator yields before it ends or raises, and the buffer it leaves. */
  datatype Fed = Fed(lines: seq<Line>, buffer: Line, error: Option<StreamError>)

  /** `_feed_lines`, for a generator that stands at `start` in the chunk. */
  function FeedFrom(cap: nat, buffer: Line, chunk: seq<Byte>, start: nat): Fed
    requires start <= |chunk|
    decreases |chunk| - start
  {
    var newline := IndexOf(chunk, LF, start);
    if newline == |chunk| then
      var tail := chunk[start..];
      if tail != [] && |buffer| + |tail| > cap then Fed([], buffer, Some(TailTooLong))
      else Fed([], buffer + tail, None)
    else
      match TakeCompleteLine(cap, buffer + chunk[start..newline] + [LF])
      case TooLong => Fed([], [], Some(LineTooLong))
      case Skipped => FeedFrom(cap, [], chunk, newline + 1)
      case Kept(line) =>
        var rest := FeedFrom(cap, [], chunk, newline + 1);
        rest.(lines := [line] + rest.lines)
  }

  lemma FeedFromStep(cap: nat, buffer: Line, chunk: seq<Byte>, start: nat)
    requires start <= |chunk|
    ensures var newline := IndexOf(chunk, LF, start);
            FeedFrom(cap, buffer, chunk, start) ==
            if newline == |chunk| then
              if start < |chunk| && |buffer| + |chunk[start..]| > cap then Fed([], buffer, Some(TailTooLong))
              else Fed([], buffer + chunk[start..], None)
            else
              match TakeCompleteLine(cap, buffer + chunk[start..newline] + [LF])
              case TooLong => Fed([], [], Some(LineTooLong))
              case Skipped => FeedFrom(cap, [], chunk, newline + 1)
              case Kept(line) =>
                var rest := FeedFrom(cap, [], chunk, newline + 1);
                rest.(lines := [line] + rest.lines)
  {
    hide TakeCompleteLine;
  }

  function FeedLines(cap: nat, buffer: Line, chunk: seq<Byte>): Fed {
    FeedFrom(cap, buffer, chunk, 0)
  }

  function FinishLines(cap: nat, buffer: Line): Fed {
    if Blank(buffer) then Fed([], [], None)
    else
      var raw := DropCR(buffer);
      if Blank(raw) then Fed([], [], None)
      else if |raw| > cap then Fed([], [], Some(TailTooLong))
      else Fed([raw], [], None)
  }

  /** Lazily assembles bounded lines from arbitrary chunks. */
  class Framer {
    const maxLineBytes: nat
    const maxTotalBytes: nat
    var buffer: Line
    var totalBytes: nat

    constructor (maxLineBytes: nat, maxTotalBytes: nat)
      ensures this.maxLineBytes == maxLineBytes && this.maxTotalBytes == maxTotalBytes
      ensures buffer == [] && totalBytes == 0
    {
      this.maxLineBytes := maxLineBytes;
      this.maxTotalBytes := maxTotalBytes;
      buffer := [];
      totalBytes := 0;
    }

    /** `feed`: the generator is run to its end, or to the point where it raises. */
    method Feed(chunk: seq<Byte>) returns (lines: seq<Line>, error: Option<StreamError>)
      requires totalBytes <= maxTotalBytes
      modifies this
      ensures totalBytes <= maxTotalBytes
      ensures |chunk| > maxTotalBytes - old(totalBytes) ==>
                lines == [] && error == Some(OverBudget) && buffer == old(buffer) && totalBytes == old(totalBytes)
      ensures |chunk| <= maxTotalBytes - old(totalBytes) ==>
                && totalBytes == old(totalBytes) + |chunk|
                && Fed(lines, buffer, error) == FeedLines(maxLineBytes, old(buffer), chunk)
    {
      hide FeedFrom, TakeCompleteLine;
      lines := [];
      if |chunk| > maxTotalBytes - totalBytes {
        return [], Some(OverBudget);
      }
      totalBytes := totalBytes + |chunk|;
      var start := 0;
      while true
        invariant start <= |chunk|
        invariant totalBytes == old(totalBytes) + |chunk|
        invariant FeedLines(maxLineBytes, old(buffer), chunk) ==
                  var rest := FeedFrom(maxLineBytes, buffer, chunk, start);
                  rest.(lines := lines + rest.lines)
        decreases |chunk| - start
      {
        FeedFromStep(maxLineBytes, buffer, chunk, start);
        ghost var rest := FeedFrom(maxLineBytes, buffer, chunk, start);
        var newline := IndexOf(chunk, LF, start);
        if newline == |chunk| {
          var tail := chunk[start..];
          if tail != [] {
            if |buffer| + |tail| > maxLineBytes {
              return lines, Some(TailTooLong);
            }
            buffer := buffer + tail;
          }
          return lines, None;
        }
        buffer := buffer + chunk[start..newline];
        buffer := buffer + [LF];
        var taken := TakeCompleteLine(maxLineBytes, buffer);
        buffer := [];
        start := newline + 1;
        match taken {
          case TooLong => return lines, Some(LineTooLong);
          case Skipped =>
          case Kept(line) => lines := lines + [line];
        }
      }
    }

    method Finish() returns (lines: seq<Line>, error: Option<StreamError>)
      modifies this`buffer
      ensures Fed(lines, buffer, error) == FinishLines(maxLineBytes, old(buffer))
      ensures buffer == []
      ensures var raw := if EndsWith(old(buffer), CR) then old(buffer)[..|old(buffer)| - 1] else old(buffer);
              && (error == Some(TailTooLong) <==> !Blank(raw) && |raw| > maxLineBytes)
              && (error.None? <==> Blank(raw) || |raw| <= maxLineBytes)
              && lines == if Blank(raw) || error.Some? then [] else [raw]
    {
      if Blank(buffer) {
        buffer := [];
        return [], None;
      }
      var raw := DropCR(buffer);
      buffer := [];
      if !Blank(raw) {
        if |raw| > maxLineBytes {
          return [], Some(TailTooLong);
        }
        return [raw], None;
      }
      return [], None;
    }
  }

  // ---- A whole stream ----

  /** A framer after some chunks: everything yielded, and the error that ended it if one did. */
  datatype Progress = Progress(lines: seq<Line>, buffer: Line, totalBytes: nat, error: Option<StreamError>)

  function FeedOne(cap: nat, budget: nat, p: Progress, chunk: seq<Byte>): Progress {
    if p.error.Some? then p
    else if |chunk| + p.totalBytes > budget then p.(error := Some(OverBudget))
    else
      var fed := FeedLines(cap, p.buffer, chunk);
      Progress(p.lines + fed.lines, fed.buffer, p.totalBytes + |chunk|, fed.error)
  }

  function FeedAll(cap: nat, budget: nat, chunks: seq<seq<Byte>>): Progress {
    if chunks == [] then Progress([], [], 0, None)
    else FeedOne(cap, budget, FeedAll(cap, budget, chunks[..|chunks| - 1]), chunks[|chunks| - 1])
  }

  /** Every chunk is fed, then `finish` is called. */
  function Deliver(cap: nat, budget: nat, chunks: seq<seq<Byte>>): Progress {
    var p := FeedAll(cap, budget, chunks);
    if p.error.Some? then p
    else
      var last := FinishLines(cap, p.buffer);
      Progress(p.lines + last.lines, last.buffer, p.totalBytes, last.error)
  }

  // ---- The reference is the split at newlines, and there is only one ----

  function JoinSegments(segments: seq<Line>): seq<Byte> {
    if segments == [] then []
    else if |segments| == 1 then segments[0]
    else JoinSegments(segments[..|segments| - 1]) + [LF] + segments[|segments| - 1]
  }

  lemma SegmentsStep(s: seq<Byte>, b: Byte)
    ensures var before := Segments(s);
            Segments(s + [b]) ==
            if b == LF then before + [[]] else before[..|before| - 1] + [before[|before| - 1] + [b]]
  {
    assert (s + [b])[..|s|] == s;
  }

  lemma JoinStep(segments: seq<Line>, last: Line)
    requires segments != []
    ensures JoinSegments(segments + [last]) == JoinSegments(segments) + [LF] + last
  {
    assert (segments + [last])[..|segments|] == segments;
  }

  lemma JoinExtend(segments: seq<Line>, last: Line, b: Byte)
    ensures JoinSegments(segments + [last + [b]]) == JoinSegments(segments + [last]) + [b]
  {
    if segments != [] {
      JoinStep(segments, last);
      JoinStep(segments, last + [b]);
    }
  }

  lemma {:induction false} SegmentsSplit(s: seq<Byte>)
    ensures JoinSegments(Segments(s)) == s
  {
    if s != [] {
      hide JoinSegments, Segments;
      var s', b := s[..|s| - 1], s[|s| - 1];
      assert s == s' + [b];
      SegmentsSplit(s');
      SegmentsStep(s', b);
      var before := Segments(s');
      var front, last := before[..|before| - 1], before[|before| - 1];
      assert before == front + [last];
      if b == LF {
        JoinStep(before, []);
        assert s' + [LF] + [] == s;
      } else {
        JoinExtend(front, last, b);
      }
    }
  }

  lemma {:induction false} SegmentsUnbroken(s: seq<Byte>)
    ensures forall i | 0 <= i < |Segments(s)| :: Unbroken(Segments(s)[i])
  {
    if s != [] {
      SegmentsUnbroken(s[..|s| - 1]);
    }
  }

  lemma {:induction false} SegmentsUnique(segments: seq<Line>)
    requires |segments| >= 1
    requires forall i | 0 <= i < |segments| :: Unbroken(segments[i])
    ensures Segments(JoinSegments(segments)) == segments
  {
    hide Segments;
    var last := segments[|segments| - 1];
    if |segments| == 1 {
      SegmentsAppend([], last);
      assert Segments([]) == [[]] by { SegmentsEmpty(); }
      assert [] + last == last;
    } else {
      var front := segments[..|segments| - 1];
      assert segments == front + [last];
      SegmentsUnique(front);
      JoinStep(front, last);
      SegmentsStep(JoinSegments(front), LF);
      SegmentsAppend(JoinSegments(front) + [LF], last);
      assert [] + last == last;
    }
  }

  lemma SegmentsEmpty()
    ensures Segments([]) == [[]]
  {
  }

  lemma {:induction false} SegmentsAppend(s: seq<Byte>, t: seq<Byte>)
    requires Unbroken(t)
    ensures var before := Segments(s);
            Segments(s + t) == before[|before| - 1 := before[|before| - 1] + t]
  {
    var before := Segments(s);
    var last := before[|before| - 1];
    if t == [] {
      assert s + t == s;
      assert last + t == last;
    } else {
      var t' := t[..|t| - 1];
      assert (s + t)[..|s + t| - 1] == s + t';
      SegmentsAppend(s, t');
      assert last + t == (last + t') + [t[|t| - 1]];
    }
  }

  /** The lines that a list of closed segments yields. */
  function LinesOf(segments: seq<Line>): seq<Line> {
    if segments == [] then []
    else LinesOf(segments[..|segments| - 1]) + UnlessBlank(DropCR(DropCR(segments[|segments| - 1])))
  }

  /** The reference lines come from the segments: all but the last are closed, the last is the tail. */
  lemma {:induction false} ReferenceIsSplit(s: seq<Byte>)
    ensures var segments := Segments(s);
            && Tail(s) == segments[|segments| - 1]
            && CompleteLines(s) == LinesOf(segments[..|segments| - 1])
  {
    if s != [] {
      ReferenceIsSplit(s[..|s| - 1]);
      var before, after := Segments(s[..|s| - 1]), Segments(s);
      if s[|s| - 1] == LF {
        assert after[..|after| - 1] == before;
      } else {
        assert after[..|after| - 1] == before[..|before| - 1];
      }
    }
  }

  // ---- Chunking does not matter ----

  lemma AppendByte(s: seq<Byte>, b: Byte)
    ensures CompleteLines(s + [b]) ==
            if b == LF then CompleteLines(s) + UnlessBlank(DropCR(DropCR(Tail(s)))) else CompleteLines(s)
    ensures Tail(s + [b]) == if b == LF then [] else Tail(s) + [b]
  {
    assert (s + [b])[..|s|] == s;
  }

  lemma {:induction false} AppendUnbroken(s: seq<Byte>, t: seq<Byte>)
    requires Unbroken(t)
    ensures CompleteLines(s + t) == CompleteLines(s)
    ensures Tail(s + t) == Tail(s) + t
    decreases |t|
  {
    hide UnlessBlank, DropCR, Tail, CompleteLines;
    if t == [] {
      assert s + t == s && Tail(s) + t == Tail(s);
    } else {
      AppendByte(s, t[0]);
      AppendUnbroken(s + [t[0]], t[1..]);
      assert s + t == s + [t[0]] + t[1..];
      assert Tail(s) + t == Tail(s) + [t[0]] + t[1..];
    }
  }

  lemma TrimmingDropsTwoCRs(segment: Line)
    ensures Trimmed(segment + [LF]) == DropCR(DropCR(segment))
  {
    var buffer := segment + [LF];
    assert buffer[..|buffer| - 1] == segment;
    if EndsWith(segment, CR) {
      assert buffer[..|buffer| - 2] == DropCR(segment);
    }
  }

  /** A line completed by `t` and a newline, on top of `s`. */
  lemma CompleteOne(s: seq<Byte>, t: seq<Byte>)
    requires Unbroken(t)
    ensures Tail(s + t + [LF]) == []
    ensures CompleteLines(s + t + [LF]) == CompleteLines(s) + UnlessBlank(Trimmed(Tail(s) + t + [LF]))
  {
    AppendUnbroken(s, t);
    AppendByte(s + t, LF);
    TrimmingDropsTwoCRs(Tail(s) + t);
  }

  ghost predicate Prefix<T>(a: seq<T>, b: seq<T>) {
    |a| <= |b| && a == b[..|a|]
  }

  lemma {:induction false} CompleteLinesGrow(s: seq<Byte>, t: seq<Byte>)
    ensures Prefix(CompleteLines(s), CompleteLines(s + t))
    decreases |t|
  {
    hide UnlessBlank, DropCR, Tail, CompleteLines;
    if t == [] {
      assert s + t == s;
    } else {
      AppendByte(s, t[0]);
      CompleteLinesGrow(s + [t[0]], t[1..]);
      assert s + t == s + [t[0]] + t[1..];
    }
  }

  /** A feed on top of `s`, resumed at `start`: the lines it yields are the next complete lines of
      `s + chunk`, and it raises exactly when one of them is too long or the tail it leaves is. */
  lemma {:induction false} FeedExtends(cap: nat, s: seq<Byte>, chunk: seq<Byte>, start: nat)
    requires start <= |chunk|
    requires AllWithin(cap, CompleteLines(s + chunk[..start])) && |Tail(s + chunk[..start])| <= cap
    ensures var fed := FeedFrom(cap, Tail(s + chunk[..start]), chunk, start);
            && (fed.error.None? <==> AllWithin(cap, CompleteLines(s + chunk)) && |Tail(s + chunk)| <= cap)
            && (fed.error.None? ==>
                  && CompleteLines(s + chunk) == CompleteLines(s + chunk[..start]) + fed.lines
                  && Tail(s + chunk) == fed.buffer)
            && Prefix(CompleteLines(s + chunk[..start]) + fed.lines, CompleteLines(s + chunk))
    decreases |chunk| - start
  {
    hide DropCR, Trimmed, Tail, CompleteLines, Blank, FeedFrom;
    var here := s + chunk[..start];
    FeedFromStep(cap, Tail(here), chunk, start);
    var n := IndexOf(chunk, LF, start);
    var t := chunk[start..n];
    if n == |chunk| {
      AppendUnbroken(here, t);
      assert here + t == s + chunk;
      assert CompleteLines(here) + [] == CompleteLines(here);
    } else {
      var next := s + chunk[..n + 1];
      assert next == here + t + [LF];
      var line := Trimmed(Tail(here) + t + [LF]);
      CompleteOne(here, t);
      CompleteLinesGrow(next, chunk[n + 1..]);
      assert next + chunk[n + 1..] == s + chunk;
      var taken := TakeCompleteLine(cap, Tail(here) + t + [LF]);
      if taken.TooLong? {
        assert CompleteLines(s + chunk)[|CompleteLines(here)|] == CompleteLines(next)[|CompleteLines(here)|] == line;
        assert CompleteLines(here) + [] == CompleteLines(here);
      } else {
        FeedExtends(cap, s, chunk, n + 1);
        var more := FeedFrom(cap, [], chunk, n + 1);
        assert CompleteLines(here) + (UnlessBlank(line) + more.lines) == CompleteLines(next) + more.lines;
        assert [] + more.lines == more.lines;
      }
    }
  }

  /** The exact condition under which one way of cutting the stream raises nothing: the budget holds, no
      complete line is too long once trimmed, and no chunk boundary falls inside a segment after more
      than `cap` of its bytes. */
  ghost predicate CutFits(cap: nat, budget: nat, chunks: seq<seq<Byte>>) {
    && |Concat(chunks)| <= budget
    && AllWithin(cap, CompleteLines(Concat(chunks)))
    && forall i | 0 <= i <= |chunks| :: |Tail(Concat(chunks[..i]))| <= cap
  }

  lemma CutFitsStep(cap: nat, budget: nat, chunks: seq<seq<Byte>>)
    requires chunks != []
    ensures var front, all := chunks[..|chunks| - 1], Concat(chunks);
            CutFits(cap, budget, chunks) <==>
            && CutFits(cap, budget, front)
            && |all| <= budget && AllWithin(cap, CompleteLines(all)) && |Tail(all)| <= cap
  {
    hide Tail, CompleteLines;
    var front, all := chunks[..|chunks| - 1], Concat(chunks);
    CompleteLinesGrow(Concat(front), chunks[|chunks| - 1]);
    assert all == Concat(front) + chunks[|chunks| - 1];
    hide Concat;
    assert chunks[..|chunks|] == chunks;
    forall i | 0 <= i <= |front| ensures front[..i] == chunks[..i] {}
  }

  /** After any chunks, whatever they were: what has been yielded so far is a prefix of the complete
      lines of the bytes so far, all of them if no error was raised; and between feeds the buffer never
      exceeds the line cap. */
  lemma {:induction false} FeedAllYields(cap: nat, budget: nat, chunks: seq<seq<Byte>>)
    ensures var p := FeedAll(cap, budget, chunks);
            && (p.error.None? <==> CutFits(cap, budget, chunks))
            && (p.error.None? ==>
                  && p.lines == CompleteLines(Concat(chunks))
                  && p.buffer == Tail(Concat(chunks))
                  && |p.buffer| <= cap
                  && p.totalBytes == |Concat(chunks)| <= budget)
            && Prefix(p.lines, CompleteLines(Concat(chunks)))
  {
    if chunks != [] {
      var front, chunk := chunks[..|chunks| - 1], chunks[|chunks| - 1];
      FeedAllYields(cap, budget, front);
      CutFitsStep(cap, budget, chunks);
      CompleteLinesGrow(Concat(front), chunk);
      if CutFits(cap, budget, front) {
        assert Concat(front) + chunk[..0] == Concat(front);
        FeedExtends(cap, Concat(front), chunk, 0);
      }
    }
  }

  /** Every way of cutting the stream that raises nothing yields the one reference split; a cut that
      raises has yielded a prefix of it; and `finish` itself never raises. */
  lemma ChunkingIndependent(cap: nat, budget: nat, chunks: seq<seq<Byte>>)
    ensures var d := Deliver(cap, budget, chunks);
            && (d.error.None? <==> CutFits(cap, budget, chunks))
            && (d.error.None? ==> d.lines == ReferenceLines(Concat(chunks)))
            && Prefix(d.lines, ReferenceLines(Concat(chunks)))
            && d.error == FeedAll(cap, budget, chunks).error
  {
    FeedAllYields(cap, budget, chunks);
    var p := FeedAll(cap, budget, chunks);
    FinishIsLastLine(cap, p.buffer);
  }

  lemma FinishIsLastLine(cap: nat, buffer: Line)
    ensures |buffer| <= cap ==> FinishLines(cap, buffer) == Fed(LastLine(buffer), [], None)
  {
    if Blank(buffer) {
      assert Blank(DropCR(buffer));
    }
  }

  // ---- When no chunking raises ----

  /** Closed segments never change again; the open one only grows. */
  lemma {:induction false} SegmentsGrow(s: seq<Byte>, t: seq<Byte>)
    ensures |Segments(s)| <= |Segments(s + t)|
    ensures forall i | 0 <= i < |Segments(s)| - 1 :: Segments(s + t)[i] == Segments(s)[i]
    ensures |Segments(s)[|Segments(s)| - 1]| <= |Segments(s + t)[|Segments(s)| - 1]|
  {
    if t == [] {
      assert s + t == s;
    } else {
      SegmentsGrow(s, t[..|t| - 1]);
      assert (s + t)[..|s + t| - 1] == s + t[..|t| - 1];
    }
  }

  lemma {:induction false} LinesWithinSegments(cap: nat, segments: seq<Line>)
    requires AllWithin(cap, segments)
    ensures AllWithin(cap, LinesOf(segments))
  {
    if segments != [] {
      LinesWithinSegments(cap, segments[..|segments| - 1]);
      assert |segments[|segments| - 1]| <= cap;
    }
  }

  lemma {:induction false} ConcatTake(chunks: seq<seq<Byte>>, i: nat)
    requires i <= |chunks|
    ensures Prefix(Concat(chunks[..i]), Concat(chunks))
  {
    if i == |chunks| {
      assert chunks[..i] == chunks;
    } else {
      var front := chunks[..|chunks| - 1];
      assert front[..i] == chunks[..i];
      ConcatTake(front, i);
    }
  }

  lemma PrefixTailWithin(cap: nat, s: seq<Byte>, n: nat)
    requires n <= |s| && AllWithin(cap, Segments(s))
    ensures |Tail(s[..n])| <= cap
  {
    hide Segments, Tail;
    assert s[..n] + s[n..] == s;
    SegmentsGrow(s[..n], s[n..]);
    ReferenceIsSplit(s[..n]);
  }

  lemma FittingStreamFitsAnyCut(cap: nat, budget: nat, chunks: seq<seq<Byte>>)
    requires Fits(cap, budget, Concat(chunks))
    ensures CutFits(cap, budget, chunks)
  {
    hide Segments, Tail, CompleteLines, LinesOf;
    var all := Concat(chunks);
    ReferenceIsSplit(all);
    LinesWithinSegments(cap, Segments(all)[..|Segments(all)| - 1]);
    forall i | 0 <= i <= |chunks| ensures |Tail(Concat(chunks[..i]))| <= cap {
      ConcatTake(chunks, i);
      PrefixTailWithin(cap, all, |Concat(chunks[..i])|);
    }
  }

  /** The stream one byte at a time: the most demanding way to cut it. */
  function Singly(s: seq<Byte>): (chunks: seq<seq<Byte>>)
    ensures |chunks| == |s|
  {
    if s == [] then [] else Singly(s[..|s| - 1]) + [[s[|s| - 1]]]
  }

  lemma {:induction false} SinglyConcat(s: seq<Byte>)
    ensures Concat(Singly(s)) == s
  {
    if s != [] {
      SinglyConcat(s[..|s| - 1]);
      assert Singly(s)[..|s| - 1] == Singly(s[..|s| - 1]);
      assert s == s[..|s| - 1] + [s[|s| - 1]];
    }
  }

  lemma {:induction false} SinglyTake(s: seq<Byte>, i: nat)
    requires i <= |s|
    ensures Singly(s)[..i] == Singly(s[..i])
  {
    if i == |s| {
      assert s[..i] == s;
    } else {
      SinglyTake(s[..|s| - 1], i);
      assert s[..|s| - 1][..i] == s[..i];
    }
  }

  lemma {:induction false} TailsWithin(cap: nat, s: seq<Byte>)
    requires forall i | 0 <= i <= |s| :: |Tail(s[..i])| <= cap
    ensures AllWithin(cap, Segments(s))
  {
    assert s[..|s|] == s;
    ReferenceIsSplit(s);
    if s != [] {
      var s' := s[..|s| - 1];
      forall i | 0 <= i <= |s'| ensures |Tail(s'[..i])| <= cap {
        assert s'[..i] == s[..i];
      }
      TailsWithin(cap, s');
    }
  }

  /** A byte string is safe to cut anywhere exactly when it fits: no segment between newlines, counted
      with its carriage returns and even when blank, exceeds the line cap. */
  lemma SafeToCutIffFits(cap: nat, budget: nat, s: seq<Byte>)
    ensures (forall chunks | Concat(chunks) == s :: Deliver(cap, budget, chunks).error.None?) <==> Fits(cap, budget, s)
  {
    if Fits(cap, budget, s) {
      forall chunks | Concat(chunks) == s ensures Deliver(cap, budget, chunks).error.None? {
        FittingStreamFitsAnyCut(cap, budget, chunks);
        ChunkingIndependent(cap, budget, chunks);
      }
    }
    if forall chunks | Concat(chunks) == s :: Deliver(cap, budget, chunks).error.None? {
      SinglyConcat(s);
      assert Deliver(cap, budget, Singly(s)).error.None?;
      ChunkingIndependent(cap, budget, Singly(s));
      forall i | 0 <= i <= |s| ensures |Tail(s[..i])| <= cap {
        SinglyTake(s, i);
        SinglyConcat(s[..i]);
        assert |Tail(Concat(Singly(s)[..i]))| <= cap;
      }
      TailsWithin(cap, s);
    }
  }

  /** Whole, a line that is too long only by its carriage return passes; cut before its newline it is
      rejected. So is an over-long blank line. */
  lemma SizeErrorsDependOnChunking(x: Byte)
    requires !IsSpace(x)
    ensures CutFits(1, 10, [[x, CR] + [LF]]) && !CutFits(1, 10, [[x, CR], [LF]])
    ensures CutFits(1, 10, [[32, 32] + [LF]]) && !CutFits(1, 10, [[32, 32], [LF]])
  {
    OneLineCut([x, CR]);
    OneLineCut([32, 32]);
    assert DropCR([x, CR]) == [x] == DropCR([x]);
    assert Blank(DropCR(DropCR([32, 32])));
  }

  lemma OneLineCut(t: seq<Byte>)
    requires Unbroken(t) && |t| == 2
    ensures CutFits(1, 10, [t + [LF]]) <==> AllWithin(1, UnlessBlank(DropCR(DropCR(t))))
    ensures !CutFits(1, 10, [t, [LF]])
  {
    hide UnlessBlank, DropCR;
    AppendUnbroken([], t);
    assert [] + t == t;
    AppendByte(t, LF);
    assert CompleteLines([]) + UnlessBlank(DropCR(DropCR(t))) == UnlessBlank(DropCR(DropCR(t)));
    CutFitsOne(1, 10, t + [LF]);
    assert [t, [LF]][..1] == [t];
    assert Concat([t]) == t;
    assert |Tail(Concat([t, [LF]][..1]))| == 2;
  }

  lemma CutFitsOne(cap: nat, budget: nat, chunk: seq<Byte>)
    ensures CutFits(cap, budget, [chunk]) <==>
            |chunk| <= budget && AllWithin(cap, CompleteLines(chunk)) && |Tail(chunk)| <= cap
  {
    hide CompleteLines;
    assert [chunk][..0] == [] && [chunk][..1] == [chunk];
    assert Concat([chunk]) == chunk by { assert [] + chunk == chunk; }
  }
}
