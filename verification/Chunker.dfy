/** The structural chunker: a word-counted window slides over the text of one section.

    The methods are the source's scanning loops. Each is proved against the function of the same meaning,
    and `Windows` is the run of the whole loop; the theorems are about `Windows`. The estimator's
    `words_per_token` is the positive rational `num / den`. */
module Chunker {
  import opened Options
  import opened PyText
  import Utf8

  // ---- Estimation ----

  datatype Estimator = Estimator(num: nat, den: nat) {
    ghost predicate Valid() {
      num > 0 && den > 0
    }
  }

  function CeilDiv(a: nat, b: nat): nat
    requires b > 0
  {
    (a + b - 1) / b
  }

  /** `estimate_word_count`: at least 1, and the words over `words_per_token` rounded up. */
  function Estimate(e: Estimator, words: nat): nat
    requires e.Valid()
  {
    var tokens := CeilDiv(words * e.den, e.num);
    if tokens < 1 then 1 else tokens
  }

  /** The most words that are estimated at `tokens` or fewer. */
  function Capacity(e: Estimator, tokens: nat): nat
    requires e.Valid()
  {
    tokens * e.num / e.den
  }

  lemma DivisionBound(a: nat, b: nat, q: nat)
    requires b > 0
    ensures q <= a / b <==> q * b <= a
  {
    var d := a / b;
    assert a == d * b + a % b;
    if q <= d {
      assert q * b <= d * b;
    } else {
      assert (d + 1) * b <= q * b;
    }
  }

  lemma CeilBound(a: nat, b: nat, t: nat)
    requires b > 0
    ensures CeilDiv(a, b) <= t <==> a <= t * b
  {
    DivisionBound(a + b - 1, b, t + 1);
    assert (t + 1) * b == t * b + b;
  }

  /** Comparing an estimate with a cap is comparing the words with the cap's capacity. */
  lemma EstimateAtMost(e: Estimator, words: nat, tokens: nat)
    requires e.Valid() && tokens >= 1
    ensures Estimate(e, words) <= tokens <==> words <= Capacity(e, tokens)
  {
    CeilBound(words * e.den, e.num, tokens);
    DivisionBound(tokens * e.num, e.den, words);
  }

  lemma CapacityMonotone(e: Estimator, s: nat, t: nat)
    requires e.Valid() && s <= t
    ensures Capacity(e, s) <= Capacity(e, t)
  {
    DivisionBound(s * e.num, e.den, Capacity(e, s));
    DivisionBound(t * e.num, e.den, Capacity(e, s));
    assert s * e.num <= t * e.num;
  }

  // ---- Words ----

  /** A word starts at `i` for a scan that began at `lo`. */
  predicate StartsWord(text: string, lo: nat, i: nat)
    requires lo <= i < |text|
  {
    !IsSpace(text[i]) && (i == lo || IsSpace(text[i - 1]))
  }

  /** How many words a scan of [lo, hi) counts. */
  function Words(text: string, lo: nat, hi: nat): nat
    requires lo <= hi <= |text|
    decreases hi - lo
  {
    if hi == lo then 0
    else Words(text, lo, hi - 1) + (if StartsWord(text, lo, hi - 1) then 1 else 0)
  }

  method CountWords(text: string, start: nat, end: nat) returns (count: nat)
    requires start <= end <= |text|
    ensures count == Words(text, start, end)
  {
    count := 0;
    var inWord := false;
    for index := start to end
      invariant count == Words(text, start, index)
      invariant inWord <==> index > start && !IsSpace(text[index - 1])
    {
      if IsSpace(text[index]) {
        inWord := false;
      } else if !inWord {
        count := count + 1;
        inWord := true;
      }
    }
  }

  // ---- Window ends ----

  datatype Config = Config(minTokens: nat, target: nat, maxTokens: nat, overlapTokens: nat) {
    ghost predicate Valid() {
      1 <= minTokens <= target <= maxTokens
    }

    /** `min(overlap_tokens, target_tokens - 1)` */
    function Overlap(): nat
      requires Valid()
    {
      if overlapTokens < target - 1 then overlapTokens else target - 1
    }
  }

  /** From `i` on, the first word start that takes the count past `limit` words; the end if there is none. */
  function Boundary(text: string, start: nat, limit: nat, i: nat): (b: nat)
    requires start <= i <= |text|
    ensures i <= b <= |text|
    decreases |text| - i
  {
    if i == |text| then i
    else if StartsWord(text, start, i) && Words(text, start, i + 1) > limit then i
    else Boundary(text, start, limit, i + 1)
  }

  function WindowEnd(e: Estimator, c: Config, text: string, start: nat): (end: nat)
    requires e.Valid() && c.Valid() && start <= |text|
    ensures start <= end <= |text|
  {
    var boundary := Boundary(text, start, Capacity(e, c.target), start);
    if boundary == |text| then |text|
    else
      var newline := FindNewline(text, boundary + 1);
      if newline < |text| && Estimate(e, Words(text, start, newline)) <= c.maxTokens then newline else boundary
  }

  method ScanWindowEnd(e: Estimator, c: Config, text: string, start: nat) returns (end: nat)
    requires e.Valid() && c.Valid() && start <= |text|
    ensures end == WindowEnd(e, c, text, start)
  {
    hide Estimate, Capacity, IsSpace;
    var length := |text|;
    if start >= length {
      return length;
    }
    var boundary := length;
    var wordCount := 0;
    var inWord := false;
    var index := start;
    while index < length
      invariant start <= index <= length && boundary == length
      invariant wordCount == Words(text, start, index)
      invariant inWord <==> index > start && !IsSpace(text[index - 1])
      invariant Boundary(text, start, Capacity(e, c.target), start) ==
                Boundary(text, start, Capacity(e, c.target), index)
    {
      if IsSpace(text[index]) {
        inWord := false;
      } else if !inWord {
        wordCount := wordCount + 1;
        inWord := true;
        EstimateAtMost(e, wordCount, c.target);
        if Estimate(e, wordCount) > c.target {
          boundary := index;
          break;
        }
      }
      index := index + 1;
    }
    if boundary >= length {
      return length;
    }
    var newline := FindNewline(text, boundary + 1);
    if newline < length {
      var words := CountWords(text, start, newline);
      if Estimate(e, words) <= c.maxTokens {
        boundary := newline;
      }
    }
    return boundary;
  }

  // ---- Stepping back ----

  /** The backward scan over text[..i], after `count` word starts of which `last` is the earliest. */
  function ScanBack(e: Estimator, text: string, overlap: nat, i: nat, count: nat, last: nat): (start: nat)
    requires e.Valid() && i <= |text|
    ensures start <= last || start < i
  {
    if i == 0 then last
    else if !StartsWord(text, 0, i - 1) then ScanBack(e, text, overlap, i - 1, count, last)
    else if Estimate(e, count + 1) >= overlap then i - 1
    else ScanBack(e, text, overlap, i - 1, count + 1, i - 1)
  }

  function OverlapStart(e: Estimator, text: string, end: nat, overlap: nat): (start: nat)
    requires e.Valid() && end <= |text|
    ensures start <= end
  {
    if overlap == 0 || end == 0 then 0 else ScanBack(e, text, overlap, end, 0, 0)
  }

  method FindOverlapStart(e: Estimator, text: string, end: nat, overlap: nat) returns (start: nat)
    requires e.Valid() && end <= |text|
    ensures start == OverlapStart(e, text, end, overlap)
  {
    hide Estimate, IsSpace;
    if overlap <= 0 || end <= 0 {
      return 0;
    }
    var starts: seq<nat> := [];
    var index: int := end - 1;
    while index >= 0
      invariant -1 <= index < end
      invariant OverlapStart(e, text, end, overlap) ==
                ScanBack(e, text, overlap, index + 1, |starts|, if starts == [] then 0 else starts[|starts| - 1])
    {
      if !IsSpace(text[index]) && (index == 0 || IsSpace(text[index - 1])) {
        starts := starts + [index];
        if Estimate(e, |starts|) >= overlap {
          return starts[|starts| - 1];
        }
      }
      index := index - 1;
    }
    return if starts != [] then starts[|starts| - 1] else 0;
  }

  /** Past the rest of a word, or past white space. */
  function SkipWord(text: string, i: nat): (j: nat)
    requires i <= |text|
    ensures i <= j <= |text|
    decreases |text| - i
  {
    if i < |text| && !IsSpace(text[i]) then SkipWord(text, i + 1) else i
  }

  function SkipSpace(text: string, i: nat): (j: nat)
    requires i <= |text|
    ensures i <= j <= |text|
    decreases |text| - i
  {
    if i < |text| && IsSpace(text[i]) then SkipSpace(text, i + 1) else i
  }

  function NextCursor(e: Estimator, text: string, windowEnd: nat, overlap: nat): (next: nat)
    requires e.Valid() && windowEnd <= |text|
    ensures next <= |text|
  {
    if windowEnd == |text| then |text|
    else
      var candidate := OverlapStart(e, text, windowEnd, overlap);
      if 0 < candidate < windowEnd then candidate
      else
        var index := SkipSpace(text, SkipWord(text, windowEnd));
        if index > windowEnd then index else |text|
  }

  method FindNextCursor(e: Estimator, text: string, windowEnd: nat, overlap: nat) returns (next: nat)
    requires e.Valid() && windowEnd <= |text|
    ensures next == NextCursor(e, text, windowEnd, overlap)
  {
    hide IsSpace, OverlapStart;
    var length: nat := |text|;
    if windowEnd >= length {
      return length;
    }
    var candidate := FindOverlapStart(e, text, windowEnd, overlap);
    if candidate > 0 && candidate < windowEnd {
      return candidate;
    }
    var index := windowEnd;
    while index < |text| && !IsSpace(text[index])
      invariant windowEnd <= index <= |text|
      invariant SkipWord(text, index) == SkipWord(text, windowEnd)
    {
      index := index + 1;
    }
    ghost var middle := index;
    while index < |text| && IsSpace(text[index])
      invariant middle <= index <= |text|
      invariant SkipSpace(text, index) == SkipSpace(text, middle)
    {
      index := index + 1;
    }
    next := length;
    if index > windowEnd {
      next := index;
    }
  }

  // ---- The loop over windows ----

  datatype Window = Window(start: nat, end: nat)

  predicate Emitted(e: Estimator, c: Config, text: string, start: nat, end: nat)
    requires e.Valid() && start <= end <= |text|
  {
    !Blank(text[start..end]) && Estimate(e, Words(text, start, end)) >= c.minTokens
  }

  /** The windows the loop emits from `cursor` on, when no limit stops it. */
  function Windows(e: Estimator, c: Config, text: string, cursor: nat): seq<Window>
    requires e.Valid() && c.Valid() && cursor <= |text|
    decreases |text| - cursor
  {
    if cursor == |text| then []
    else
      var end := WindowEnd(e, c, text, cursor);
      if !Emitted(e, c, text, cursor, end) then []
      else
        var next := NextCursor(e, text, end, c.Overlap());
        if next <= cursor then [Window(cursor, end)]
        else [Window(cursor, end)] + Windows(e, c, text, next)
  }

  lemma WindowsStep(e: Estimator, c: Config, text: string, cursor: nat)
    requires e.Valid() && c.Valid() && cursor <= |text|
    ensures Windows(e, c, text, cursor) ==
            if cursor == |text| then []
            else
              var end := WindowEnd(e, c, text, cursor);
              var next := NextCursor(e, text, end, c.Overlap());
              if !Emitted(e, c, text, cursor, end) then []
              else [Window(cursor, end)] + (if next <= cursor then [] else Windows(e, c, text, next))
  {
    hide WindowEnd, NextCursor, Emitted;
  }

  /** The loop comes to its top for the `k`th time with text left, counted from `cursor` on. */
  predicate TopAt(e: Estimator, c: Config, text: string, cursor: nat, k: nat)
    requires e.Valid() && c.Valid() && cursor <= |text|
    decreases k
  {
    && cursor < |text|
    && (k == 0 ||
        var end := WindowEnd(e, c, text, cursor);
        var next := NextCursor(e, text, end, c.Overlap());
        Emitted(e, c, text, cursor, end) && next > cursor && TopAt(e, c, text, next, k - 1))
  }

  /** Text is left when the last of the windows from `cursor` on has been emitted. */
  predicate TextLeft(e: Estimator, c: Config, text: string, cursor: nat)
    requires e.Valid() && c.Valid() && cursor <= |text|
  {
    var ws := Windows(e, c, text, cursor);
    if ws == [] then cursor < |text|
    else
      var last := ws[|ws| - 1];
      last.end <= |text| && last.start < NextCursor(e, text, last.end, c.Overlap()) < |text|
  }

  /** The loop comes to its top once for each window, and once more when text is left after the last. */
  lemma {:induction false} TopsOfWindows(e: Estimator, c: Config, text: string, cursor: nat, k: nat)
    requires e.Valid() && c.Valid() && cursor <= |text|
    ensures var n := |Windows(e, c, text, cursor)|;
            TopAt(e, c, text, cursor, k) <==> k < n || (k == n && TextLeft(e, c, text, cursor))
    decreases |text| - cursor
  {
    hide WindowEnd, NextCursor, Emitted, Windows;
    WindowsStep(e, c, text, cursor);
    WindowsInText(e, c, text, cursor);
    if cursor < |text| {
      var end := WindowEnd(e, c, text, cursor);
      var next := NextCursor(e, text, end, c.Overlap());
      if Emitted(e, c, text, cursor, end) && next > cursor {
        var rest := Windows(e, c, text, next);
        if k > 0 { TopsOfWindows(e, c, text, next, k - 1); }
        assert rest != [] ==> Windows(e, c, text, cursor)[|rest|] == rest[|rest| - 1];
      }
    }
  }

  /** What is yielded for one window; `prefix` is the overlap text, None where it is blank. */
  datatype Chunk = Chunk(index: nat, startOffset: nat, endOffset: nat, text: string, tokens: nat,
                         prefix: Option<string>)

  function OverlapPrefix(e: Estimator, c: Config, text: string, index: nat, cursor: nat): Option<string>
    requires e.Valid() && c.Valid() && cursor <= |text|
  {
    if index == 0 || c.Overlap() == 0 then None
    else
      var start := OverlapStart(e, text, cursor, c.Overlap());
      if start < cursor && Strip(text[start..cursor]) != "" then Some(Strip(text[start..cursor])) else None
  }

  function ChunkOf(e: Estimator, c: Config, text: string, offset: nat, index: nat, w: Window): Chunk
    requires e.Valid() && c.Valid() && w.start <= w.end <= |text|
  {
    Chunk(index, offset + w.start, offset + w.end, text[w.start..w.end],
          Estimate(e, Words(text, w.start, w.end)), OverlapPrefix(e, c, text, index, w.start))
  }

  datatype Limits = Limits(maxTextBytes: nat, maxChunkBytes: nat, maxChunks: nat)

  datatype Error = TooManyChunks | TextTooLong | DeadlinePassed

  ghost predicate InText(ws: seq<Window>, text: string) {
    forall i | 0 <= i < |ws| :: ws[i].start <= ws[i].end <= |text|
  }

  lemma {:induction false} WindowsInText(e: Estimator, c: Config, text: string, cursor: nat)
    requires e.Valid() && c.Valid() && cursor <= |text|
    ensures InText(Windows(e, c, text, cursor), text)
    decreases |text| - cursor
  {
    if cursor < |text| {
      hide WindowEnd, NextCursor, Emitted;
      var end := WindowEnd(e, c, text, cursor);
      var next := NextCursor(e, text, end, c.Overlap());
      if next > cursor { WindowsInText(e, c, text, next); }
    }
  }

  /** The chunks are those of the first windows, in order, and within the byte cap. */
  ghost predicate Yielded(e: Estimator, c: Config, limits: Limits, text: string, offset: nat, chunks: seq<Chunk>)
    requires e.Valid() && c.Valid()
  {
    var ws := Windows(e, c, text, 0);
    && InText(ws, text)
    && |chunks| <= |ws|
    && forall i | 0 <= i < |chunks| ::
         && chunks[i] == ChunkOf(e, c, text, offset, i, ws[i])
         && |Utf8.Encode(chunks[i].text)| <= limits.maxChunkBytes
  }

  lemma YieldedOneMore(e: Estimator, c: Config, limits: Limits, text: string, offset: nat, chunks: seq<Chunk>,
                       chunk: Chunk)
    requires e.Valid() && c.Valid() && Yielded(e, c, limits, text, offset, chunks)
    requires |chunks| < |Windows(e, c, text, 0)|
    requires chunk == ChunkOf(e, c, text, offset, |chunks|, Windows(e, c, text, 0)[|chunks|])
    requires |Utf8.Encode(chunk.text)| <= limits.maxChunkBytes
    ensures Yielded(e, c, limits, text, offset, chunks + [chunk])
  {
    hide Windows, ChunkOf;
  }

  /** What stops the loop at its top for the `k`th time: the deadline, the number of chunks, or the bytes of the
      window it would emit. */
  function StopAt(e: Estimator, c: Config, limits: Limits, text: string, deadlinePassed: nat -> bool, k: nat)
    : Option<Error>
    requires e.Valid() && c.Valid()
  {
    var ws := Windows(e, c, text, 0);
    if deadlinePassed(k) then Some(DeadlinePassed)
    else if k >= limits.maxChunks then Some(TooManyChunks)
    else if k < |ws| && ws[k].start <= ws[k].end <= |text| && WindowBytes(text, ws[k]) > limits.maxChunkBytes then
      Some(TextTooLong)
    else None
  }

  function WindowBytes(text: string, w: Window): nat
    requires w.start <= w.end <= |text|
  {
    |Utf8.Encode(text[w.start..w.end])|
  }

  ghost predicate NextTooLong(text: string, ws: seq<Window>, k: nat, limits: Limits) {
    k < |ws| && ws[k].start <= ws[k].end <= |text| && |Utf8.Encode(text[ws[k].start..ws[k].end])| > limits.maxChunkBytes
  }

  lemma NothingYielded(e: Estimator, c: Config, limits: Limits, text: string, offset: nat)
    requires e.Valid() && c.Valid()
    ensures Yielded(e, c, limits, text, offset, [])
  {
    WindowsInText(e, c, text, 0);
  }

  /** Where the loop over windows is: `index` windows are emitted, and the rest start at `cursor`. */
  ghost predicate AtTop(e: Estimator, c: Config, text: string, cursor: nat, index: nat)
    requires e.Valid() && c.Valid()
  {
    var ws := Windows(e, c, text, 0);
    && cursor <= |text| && index <= |ws| && InText(ws, text)
    && ws[index..] == Windows(e, c, text, cursor)
    && if index == 0 then cursor == 0
       else ws[index - 1].start < cursor == NextCursor(e, text, ws[index - 1].end, c.Overlap())
  }

  lemma StartAtTop(e: Estimator, c: Config, text: string)
    requires e.Valid() && c.Valid()
    ensures AtTop(e, c, text, 0, 0)
  {
    hide Windows;
    WindowsInText(e, c, text, 0);
  }

  lemma TopReached(e: Estimator, c: Config, text: string, cursor: nat, index: nat)
    requires e.Valid() && c.Valid() && AtTop(e, c, text, cursor, index) && cursor < |text|
    ensures TopAt(e, c, text, 0, index)
  {
    hide Windows, NextCursor, TopAt;
    TopsOfWindows(e, c, text, 0, index);
  }

  /** An emitted window is the next of them, and the loop goes on behind it or there is no text left for it. */
  lemma TopEmits(e: Estimator, c: Config, text: string, cursor: nat, index: nat)
    requires e.Valid() && c.Valid() && AtTop(e, c, text, cursor, index) && cursor < |text|
    requires Emitted(e, c, text, cursor, WindowEnd(e, c, text, cursor))
    ensures var ws, end := Windows(e, c, text, 0), WindowEnd(e, c, text, cursor);
            var next := NextCursor(e, text, end, c.Overlap());
            && index < |ws| && ws[index] == Window(cursor, end)
            && (next > cursor ==> AtTop(e, c, text, next, index + 1))
            && (next <= cursor ==> |ws| == index + 1 && !TextLeft(e, c, text, 0))
  {
    hide Windows, NextCursor, WindowEnd, Emitted;
    WindowsStep(e, c, text, cursor);
    var ws := Windows(e, c, text, 0);
    assert ws[index] == ws[index..][0];
    assert ws[index + 1..] == ws[index..][1..];
  }

  /** The loop ends where no window is emitted: there is none left. */
  lemma TopEnds(e: Estimator, c: Config, text: string, cursor: nat, index: nat)
    requires e.Valid() && c.Valid() && AtTop(e, c, text, cursor, index)
    requires cursor < |text| ==> !Emitted(e, c, text, cursor, WindowEnd(e, c, text, cursor))
    ensures |Windows(e, c, text, 0)| == index
    ensures cursor == |text| ==> !TextLeft(e, c, text, 0)
  {
    hide Windows, NextCursor, WindowEnd, Emitted;
    WindowsStep(e, c, text, cursor);
  }

  ghost predicate NoneStops(e: Estimator, c: Config, limits: Limits, text: string, deadlinePassed: nat -> bool, n: nat)
    requires e.Valid() && c.Valid()
  {
    forall k | 0 <= k < n :: StopAt(e, c, limits, text, deadlinePassed, k).None?
  }

  lemma AllTopsPass(e: Estimator, c: Config, limits: Limits, text: string, deadlinePassed: nat -> bool, n: nat)
    requires e.Valid() && c.Valid() && NoneStops(e, c, limits, text, deadlinePassed, n)
    requires n > |Windows(e, c, text, 0)| || (n == |Windows(e, c, text, 0)| && !TextLeft(e, c, text, 0))
    ensures forall k | TopAt(e, c, text, 0, k) :: StopAt(e, c, limits, text, deadlinePassed, k).None?
  {
    hide Windows, TopAt, StopAt, TextLeft;
    forall k | TopAt(e, c, text, 0, k) ensures StopAt(e, c, limits, text, deadlinePassed, k).None? {
      TopsOfWindows(e, c, text, 0, k);
    }
  }

  /** `_iter_section_chunks`: the generator is run to its end, or to the point where it raises. The
      chunks are those of the windows, in order; all of them unless a limit or the deadline stops the loop, which
      happens at the first top of the loop that has something to stop it. */
  method ChunkSection(e: Estimator, c: Config, limits: Limits, text: string, offset: nat, deadlinePassed: nat -> bool)
    returns (chunks: seq<Chunk>, error: Option<Error>)
    requires e.Valid() && c.Valid()
    ensures Yielded(e, c, limits, text, offset, chunks)
    ensures error.None? ==> |chunks| == |Windows(e, c, text, 0)|
    ensures error.None? <==>
              && |Utf8.Encode(text)| <= limits.maxTextBytes
              && forall k | TopAt(e, c, text, 0, k) :: StopAt(e, c, limits, text, deadlinePassed, k).None?
    ensures error.Some? && |Utf8.Encode(text)| <= limits.maxTextBytes ==>
              && TopAt(e, c, text, 0, |chunks|)
              && error == StopAt(e, c, limits, text, deadlinePassed, |chunks|)
              && NoneStops(e, c, limits, text, deadlinePassed, |chunks|)
    ensures |Utf8.Encode(text)| > limits.maxTextBytes ==> error == Some(TextTooLong) && chunks == []
    ensures |chunks| <= limits.maxChunks
    ensures error.Some? && |Utf8.Encode(text)| <= limits.maxTextBytes ==>
              && (error == Some(DeadlinePassed) <==> deadlinePassed(|chunks|))
              && (error == Some(TooManyChunks) <==> !deadlinePassed(|chunks|) && |chunks| == limits.maxChunks)
              && (error == Some(TextTooLong) ==> NextTooLong(text, Windows(e, c, text, 0), |chunks|, limits))
    ensures error.None? ==>
              forall k: nat | TopAt(e, c, text, 0, k) :: !deadlinePassed(k) && k < limits.maxChunks
  {
    hide Windows, WindowEnd, Estimate, Blank, OverlapStart, NextCursor, Utf8.Encode, Strip, Yielded, TopAt, AtTop,
         TextLeft;
    chunks := [];
    NothingYielded(e, c, limits, text, offset);
    if |Utf8.Encode(text)| > limits.maxTextBytes {
      return [], Some(TextTooLong);
    }
    ghost var ws := Windows(e, c, text, 0);
    StartAtTop(e, c, text);
    var overlap := c.Overlap();
    var cursor := 0;
    var index := 0;
    while cursor < |text|
      invariant cursor <= |text| && index == |chunks| <= limits.maxChunks
      invariant AtTop(e, c, text, cursor, index)
      invariant Yielded(e, c, limits, text, offset, chunks)
      invariant NoneStops(e, c, limits, text, deadlinePassed, index)
      decreases |text| - cursor
    {
      TopReached(e, c, text, cursor, index);
      if deadlinePassed(index) {
        return chunks, Some(DeadlinePassed);
      }
      if index >= limits.maxChunks {
        return chunks, Some(TooManyChunks);
      }
      var windowEnd := ScanWindowEnd(e, c, text, cursor);
      var window := text[cursor..windowEnd];
      if Blank(window) {
        TopEnds(e, c, text, cursor, index);
        AllTopsPass(e, c, limits, text, deadlinePassed, index + 1);
        return chunks, None;
      }
      var words := CountWords(text, cursor, windowEnd);
      var tokens := Estimate(e, words);
      if tokens < c.minTokens {
        TopEnds(e, c, text, cursor, index);
        AllTopsPass(e, c, limits, text, deadlinePassed, index + 1);
        return chunks, None;
      }
      TopEmits(e, c, text, cursor, index);
      if |Utf8.Encode(window)| > limits.maxChunkBytes {
        return chunks, Some(TextTooLong);
      }
      var prefix := None;
      if index > 0 && overlap > 0 {
        var overlapStart := FindOverlapStart(e, text, cursor, overlap);
        if overlapStart < cursor && Strip(text[overlapStart..cursor]) != "" {
          prefix := Some(Strip(text[overlapStart..cursor]));
        }
      }
      var chunk := Chunk(index, offset + cursor, offset + windowEnd, window, tokens, prefix);
      YieldedOneMore(e, c, limits, text, offset, chunks, chunk);
      chunks := chunks + [chunk];
      var next := FindNextCursor(e, text, windowEnd, overlap);
      if next <= cursor {
        AllTopsPass(e, c, limits, text, deadlinePassed, index + 1);
        return chunks, None;
      }
      cursor := next;
      index := index + 1;
    }
    TopEnds(e, c, text, cursor, index);
    AllTopsPass(e, c, limits, text, deadlinePassed, index);
    return chunks, None;
  }
}
