/** What the chunker's windows cover, what consecutive windows share, and how many there are. */
module Coverage {
  import opened PyText
  import opened Chunker

  // ---- Counting words ----

  /** A scan that starts here counts the words a scan from the start of the text would. */
  ghost predicate Clean(text: string, i: nat)
    requires i <= |text|
  {
    i == 0 || i == |text| || IsSpace(text[i]) || IsSpace(text[i - 1])
  }

  lemma {:induction false} WordsSplit(text: string, middle: nat, hi: nat)
    requires middle <= hi <= |text| && Clean(text, middle)
    ensures Words(text, 0, hi) == Words(text, 0, middle) + Words(text, middle, hi)
    decreases hi
  {
    if middle < hi {
      hide IsSpace;
      WordsSplit(text, middle, hi - 1);
      assert StartsWord(text, middle, hi - 1) <==> StartsWord(text, 0, hi - 1);
    }
  }

  lemma {:induction false} WordsGrow(text: string, lo: nat, a: nat, b: nat)
    requires lo <= a <= b <= |text|
    ensures Words(text, lo, a) <= Words(text, lo, b)
    ensures forall i | a <= i < b && StartsWord(text, lo, i) :: Words(text, lo, a) < Words(text, lo, b)
    decreases b
  {
    if a < b {
      hide StartsWord;
      WordsGrow(text, lo, a, b - 1);
    }
  }

  lemma BlankRange(text: string, lo: nat, hi: nat)
    requires lo <= hi <= |text|
    ensures Blank(text[lo..hi]) <==> forall i | lo <= i < hi :: IsSpace(text[i])
  {
    hide IsSpace;
    var part := text[lo..hi];
    assert forall i | lo <= i < hi :: text[i] == part[i - lo];
    assert forall i | 0 <= i < |part| :: part[i] == text[lo + i];
  }

  lemma {:induction false} BlankHasNoWords(text: string, lo: nat, hi: nat)
    requires lo <= hi <= |text|
    ensures Blank(text[lo..hi]) <==> Words(text, lo, hi) == 0
    decreases hi
  {
    hide IsSpace, Blank;
    BlankRange(text, lo, hi);
    if lo < hi {
      BlankHasNoWords(text, lo, hi - 1);
      BlankRange(text, lo, hi - 1);
    }
  }

  // ---- One window ----

  lemma {:induction false} BoundaryCounts(text: string, start: nat, limit: nat, i: nat)
    requires start <= i <= |text| && Words(text, start, i) <= limit
    ensures var b := Boundary(text, start, limit, i);
            && Words(text, start, b) <= limit
            && (b < |text| ==> StartsWord(text, start, b) && Words(text, start, b) == limit)
    decreases |text| - i
  {
    if i < |text| {
      hide StartsWord;
      if !(StartsWord(text, start, i) && Words(text, start, i + 1) > limit) {
        BoundaryCounts(text, start, limit, i + 1);
      }
    }
  }

  /** Every window is estimated at `max_tokens` or less. One that does not reach the end of the text holds
      at least as many words as `target` tokens allow, exactly as many unless it was extended, and it ends
      before a word or at a newline. */
  lemma WindowHolds(e: Estimator, c: Config, text: string, start: nat)
    requires e.Valid() && c.Valid() && start <= |text|
    ensures var end, n := WindowEnd(e, c, text, start), Capacity(e, c.target);
            && Estimate(e, Words(text, start, end)) <= c.maxTokens
            && (end < |text| ==>
                  && Words(text, start, end) >= n
                  && n < Words(text, start, |text|)
                  && (IsSpace(text[end]) || (Words(text, start, end) == n && (end == start || IsSpace(text[end - 1]))))
                  && (IsSpace(text[end]) ==> Words(text, start, end) > n)
                  && (n > 0 ==> start < end))
  {
    hide Estimate, Capacity, Boundary, Words;
    var n := Capacity(e, c.target);
    assert Words(text, start, start) == 0 by { EmptyScan(text, start); }
    BoundaryCounts(text, start, n, start);
    var b := Boundary(text, start, n, start);
    EstimateAtMost(e, Words(text, start, b), c.target);
    if b < |text| {
      OneMoreWord(text, start, b);
      WordsGrow(text, start, b + 1, |text|);
      var newline := FindNewline(text, b + 1);
      WordsGrow(text, start, b + 1, newline);
    }
  }

  lemma EmptyScan(text: string, i: nat)
    requires i <= |text|
    ensures Words(text, i, i) == 0
  {
  }

  lemma OneMoreWord(text: string, start: nat, b: nat)
    requires start <= b < |text| && StartsWord(text, start, b)
    ensures Words(text, start, b + 1) == Words(text, start, b) + 1
  {
  }

  // ---- Stepping back ----

  /** The number of words an overlap of `overlap` tokens takes. */
  function OverlapWords(e: Estimator, overlap: nat): nat
    requires e.Valid() && overlap >= 1
  {
    Capacity(e, overlap - 1) + 1
  }

  lemma EnoughForOverlap(e: Estimator, count: nat, overlap: nat)
    requires e.Valid() && overlap >= 1 && count >= 1
    ensures Estimate(e, count) >= overlap <==> count >= OverlapWords(e, overlap)
  {
    if overlap >= 2 {
      EstimateAtMost(e, count, overlap - 1);
    } else {
      ZeroCapacity(e);
    }
  }

  lemma ZeroCapacity(e: Estimator)
    requires e.Valid()
    ensures Capacity(e, 0) == 0
  {
    DivisionBound(0, e.den, 1);
    assert 0 * e.num == 0;
  }

  lemma {:induction false} ScanBackFinds(e: Estimator, text: string, overlap: nat, i: nat, count: nat, last: nat)
    requires e.Valid() && i <= |text| && overlap >= 1
    requires count < OverlapWords(e, overlap)
    requires count > 0 ==> i <= last < |text| && StartsWord(text, 0, last) && Words(text, 0, i) == Words(text, 0, last)
    requires count == 0 ==> last == 0
    ensures var r := ScanBack(e, text, overlap, i, count, last);
            var need := OverlapWords(e, overlap) - count;
            if Words(text, 0, i) >= need then
              r < i && StartsWord(text, 0, r) && Words(text, 0, i) == Words(text, 0, r) + need
            else
              && r < |text| + 1 && Words(text, 0, r) == 0
              && (Words(text, 0, i) + count > 0 ==> r < |text| && StartsWord(text, 0, r))
    decreases i
  {
    if i > 0 {
      hide StartsWord, Estimate, Capacity;
      if StartsWord(text, 0, i - 1) {
        EnoughForOverlap(e, count + 1, overlap);
        if Estimate(e, count + 1) < overlap {
          ScanBackFinds(e, text, overlap, i - 1, count + 1, i - 1);
        }
      } else {
        ScanBackFinds(e, text, overlap, i - 1, count, last);
      }
    }
  }

  /** The overlap starts at a word, exactly as many words before `end` as the overlap takes; or at the
      first word, where there are fewer. */
  lemma OverlapStartFinds(e: Estimator, text: string, end: nat, overlap: nat)
    requires e.Valid() && end <= |text| && overlap >= 1
    ensures var r, n := OverlapStart(e, text, end, overlap), OverlapWords(e, overlap);
            if Words(text, 0, end) >= n then
              r < end && StartsWord(text, 0, r) && Words(text, 0, end) == Words(text, 0, r) + n
            else
              Words(text, 0, r) == 0 && (Words(text, 0, end) > 0 ==> r < |text| && StartsWord(text, 0, r))
  {
    hide Capacity, ScanBack;
    if end > 0 {
      ScanBackFinds(e, text, overlap, end, 0, 0);
    }
  }

  // ---- The condition on the configuration ----

  /** The overlap is not empty, a full window holds more words than the overlap takes, and a full window
      is not below the minimum size. */
  predicate Covering(e: Estimator, c: Config)
    requires e.Valid() && c.Valid()
  {
    && c.Overlap() >= 1
    && Capacity(e, c.target) > OverlapWords(e, c.Overlap())
    && Capacity(e, c.target) > Capacity(e, c.minTokens - 1)
  }

  lemma CapacityAdds(e: Estimator, s: nat, t: nat)
    requires e.Valid()
    ensures Capacity(e, s + t) >= Capacity(e, s) + Capacity(e, t)
  {
    var a, b := Capacity(e, s), Capacity(e, t);
    DivisionBound(s * e.num, e.den, a);
    DivisionBound(t * e.num, e.den, b);
    assert (a + b) * e.den == a * e.den + b * e.den;
    assert (s + t) * e.num == s * e.num + t * e.num;
    DivisionBound((s + t) * e.num, e.den, a + b);
  }

  lemma CapacityAtLeast(e: Estimator, t: nat)
    requires e.Valid() && e.num >= e.den
    ensures Capacity(e, t) >= t
  {
    DivisionBound(t * e.num, e.den, t);
    assert t * e.den <= t * e.num;
  }

  /** A word or more per token, and an overlap, are enough. */
  lemma WordPerTokenCovers(e: Estimator, c: Config)
    requires e.Valid() && c.Valid() && e.num >= e.den && c.Overlap() >= 1
    ensures Covering(e, c)
    ensures Capacity(e, c.target) > Capacity(e, c.target - 1)
  {
    var o := c.Overlap();
    CapacityAtLeast(e, 2);
    CapacityAtLeast(e, 1);
    CapacityAdds(e, o - 1, 2);
    CapacityMonotone(e, o + 1, c.target);
    CapacityAdds(e, c.target - 1, 1);
    CapacityMonotone(e, c.minTokens - 1, c.target - 1);
  }

  /** One step of a covering configuration: the next window starts at a word strictly inside this one, and
      shares exactly the overlap's words with it. */
  lemma StepInside(e: Estimator, c: Config, text: string, cursor: nat)
    requires e.Valid() && c.Valid() && Covering(e, c)
    requires cursor < |text| && Clean(text, cursor)
    ensures var end := WindowEnd(e, c, text, cursor);
            end < |text| ==>
              && Emitted(e, c, text, cursor, end)
              && var next := NextCursor(e, text, end, c.Overlap());
                 && cursor < next < end
                 && Clean(text, next)
                 && StartsWord(text, 0, next)
                 && Words(text, next, end) == OverlapWords(e, c.Overlap())
                 && Words(text, 0, next) >=
                    Words(text, 0, cursor) + Capacity(e, c.target) - OverlapWords(e, c.Overlap())
  {
    hide Estimate, Capacity, Words, WindowEnd, OverlapStart, IsSpace, Blank;
    var end := WindowEnd(e, c, text, cursor);
    WindowHolds(e, c, text, cursor);
    if end < |text| {
      var words := Words(text, cursor, end);
      BlankHasNoWords(text, cursor, end);
      if c.minTokens >= 2 { EstimateAtMost(e, words, c.minTokens - 1); }
      assert Emitted(e, c, text, cursor, end) by { AtLeastOne(e, words); }
      OverlapStartFinds(e, text, end, c.Overlap());
      WordsSplit(text, cursor, end);
      var next := OverlapStart(e, text, end, c.Overlap());
      if next <= cursor { WordsGrow(text, 0, next, cursor); }
      assert Clean(text, next);
      WordsSplit(text, next, end);
    }
  }

  lemma AtLeastOne(e: Estimator, words: nat)
    requires e.Valid()
    ensures Estimate(e, words) >= 1
  {
  }

  // ---- The whole run ----

  /** Windows start at `cursor`; each next one starts strictly between the start and the end of the one
      before it. */
  ghost predicate Chained(ws: seq<Window>, cursor: nat) {
    && (ws != [] ==> ws[0].start == cursor)
    && (forall i | 0 <= i < |ws| :: ws[i].start < ws[i].end)
    && (forall i | 0 <= i < |ws| - 1 :: ws[i].start < ws[i + 1].start < ws[i].end)
  }

  function LastEnd(ws: seq<Window>, cursor: nat): nat {
    if ws == [] then cursor else ws[|ws| - 1].end
  }

  /** What is left after the last window is nothing, or blank, or too small to be a chunk. */
  predicate Negligible(e: Estimator, c: Config, text: string, i: nat)
    requires e.Valid() && i <= |text|
  {
    Blank(text[i..]) || Estimate(e, Words(text, i, |text|)) < c.minTokens
  }

  ghost predicate Covers(e: Estimator, c: Config, text: string, ws: seq<Window>)
    requires e.Valid()
  {
    && InText(ws, text)
    && Chained(ws, 0)
    && Negligible(e, c, text, LastEnd(ws, 0))
  }

  /** No gap: every position before the last end lies in some window. */
  lemma {:induction false} ChainedCovers(ws: seq<Window>, cursor: nat, p: nat)
    requires Chained(ws, cursor) && cursor <= p < LastEnd(ws, cursor)
    ensures exists i | 0 <= i < |ws| :: ws[i].start <= p < ws[i].end
  {
    if p >= ws[0].end {
      var rest := ws[1..];
      assert Chained(rest, ws[1].start) by {
        assert forall i | 0 <= i < |rest| :: rest[i] == ws[i + 1];
      }
      ChainedCovers(rest, ws[1].start, p);
      var i :| 0 <= i < |rest| && rest[i].start <= p < rest[i].end;
      assert ws[i + 1].start <= p < ws[i + 1].end;
    }
  }

  /** Consecutive windows share exactly the overlap's words. */
  ghost predicate Shares(text: string, ws: seq<Window>, words: nat)
    requires InText(ws, text) && Chained(ws, if ws == [] then 0 else ws[0].start)
  {
    forall i | 0 <= i < |ws| - 1 :: Words(text, ws[i + 1].start, ws[i].end) == words
  }

  ghost predicate Sized(e: Estimator, c: Config, text: string, ws: seq<Window>)
    requires e.Valid() && InText(ws, text)
  {
    && (forall i | 0 <= i < |ws| ::
          c.minTokens <= Estimate(e, Words(text, ws[i].start, ws[i].end)) <= c.maxTokens)
    && (forall i | 0 <= i < |ws| && ws[i].end < |text| ::
          Words(text, ws[i].start, ws[i].end) >= Capacity(e, c.target))
  }

  lemma TailNegligible(e: Estimator, c: Config, text: string, next: nat, end: nat)
    requires e.Valid() && c.Valid() && next < end <= |text| && Clean(text, next) && Clean(text, end)
    requires Estimate(e, Words(text, next, |text|)) < c.minTokens
    ensures Estimate(e, Words(text, end, |text|)) < c.minTokens
  {
    hide Estimate, Words, Clean;
    WordsSplit(text, next, |text|);
    WordsSplit(text, end, |text|);
    WordsGrow(text, 0, next, end);
    AtLeastOne(e, Words(text, next, |text|));
    EstimateAtMost(e, Words(text, next, |text|), c.minTokens - 1);
    EstimateAtMost(e, Words(text, end, |text|), c.minTokens - 1);
  }

  lemma PrependChained(text: string, w: Window, rest: seq<Window>, next: nat)
    requires w.start < next < w.end <= |text| && InText(rest, text) && Chained(rest, next)
    ensures var ws := [w] + rest;
            && InText(ws, text) && Chained(ws, w.start)
            && LastEnd(ws, w.start) == if rest == [] then w.end else LastEnd(rest, next)
  {
    var ws := [w] + rest;
    assert forall i | 0 < i < |ws| :: ws[i] == rest[i - 1];
  }

  lemma PrependShares(text: string, w: Window, rest: seq<Window>, next: nat, shared: nat)
    requires w.start < next < w.end <= |text| && InText(rest, text) && Chained(rest, next)
    requires Shares(text, rest, shared) && Words(text, next, w.end) == shared
    ensures var ws := [w] + rest;
            InText(ws, text) && Chained(ws, w.start) && Shares(text, ws, shared)
  {
    hide Words;
    PrependChained(text, w, rest, next);
    var ws := [w] + rest;
    forall i | 0 <= i < |ws| - 1 ensures Words(text, ws[i + 1].start, ws[i].end) == shared {
      assert ws[i + 1] == rest[i] && (i > 0 ==> ws[i] == rest[i - 1]);
      if i > 0 { assert Words(text, rest[i - 1 + 1].start, rest[i - 1].end) == shared; }
    }
  }

  lemma PrependSized(e: Estimator, c: Config, text: string, w: Window, rest: seq<Window>)
    requires e.Valid() && w.start < w.end <= |text| && InText(rest, text) && Sized(e, c, text, rest)
    requires c.minTokens <= Estimate(e, Words(text, w.start, w.end)) <= c.maxTokens
    requires Words(text, w.start, w.end) >= Capacity(e, c.target)
    ensures InText([w] + rest, text) && Sized(e, c, text, [w] + rest)
  {
    hide Estimate, Capacity, Words;
    var ws := [w] + rest;
    assert forall i | 0 < i < |ws| :: ws[i] == rest[i - 1];
  }

  lemma PrependWindow(e: Estimator, c: Config, text: string, w: Window, rest: seq<Window>, next: nat, shared: nat)
    requires e.Valid() && w.start < next < w.end <= |text|
    requires InText(rest, text) && Chained(rest, next) && Shares(text, rest, shared) && Sized(e, c, text, rest)
    requires Words(text, next, w.end) == shared
    requires c.minTokens <= Estimate(e, Words(text, w.start, w.end)) <= c.maxTokens
    requires Words(text, w.start, w.end) >= Capacity(e, c.target)
    ensures var ws := [w] + rest;
            && InText(ws, text) && Chained(ws, w.start) && Shares(text, ws, shared) && Sized(e, c, text, ws)
            && LastEnd(ws, w.start) == if rest == [] then w.end else LastEnd(rest, next)
  {
    hide InText, Chained, Shares, Sized, LastEnd, Estimate, Capacity, Words;
    PrependChained(text, w, rest, next);
    PrependShares(text, w, rest, next, shared);
    PrependSized(e, c, text, w, rest);
  }

  /** Everything the theorems say of the windows from `cursor` on. */
  ghost predicate WellWindowed(e: Estimator, c: Config, text: string, ws: seq<Window>, cursor: nat, shared: nat)
    requires e.Valid()
  {
    && InText(ws, text) && Chained(ws, cursor) && LastEnd(ws, cursor) <= |text|
    && Shares(text, ws, shared) && Sized(e, c, text, ws)
    && Negligible(e, c, text, LastEnd(ws, cursor))
  }

  lemma NoWindow(e: Estimator, c: Config, text: string, cursor: nat, shared: nat)
    requires e.Valid() && cursor <= |text| && Negligible(e, c, text, cursor)
    ensures WellWindowed(e, c, text, [], cursor, shared)
  {
  }

  lemma LastWindow(e: Estimator, c: Config, text: string, w: Window, shared: nat)
    requires e.Valid() && c.Valid() && w.start < w.end == |text|
    requires c.minTokens <= Estimate(e, Words(text, w.start, w.end)) <= c.maxTokens
    ensures WellWindowed(e, c, text, [w], w.start, shared)
  {
    hide Estimate, Words, Capacity;
    NothingIsBlank(text);
  }

  /** In a covering configuration, the windows from any word start on. */
  lemma {:induction false} WindowsFrom(e: Estimator, c: Config, text: string, cursor: nat)
    requires e.Valid() && c.Valid() && Covering(e, c)
    requires cursor <= |text| && Clean(text, cursor)
    ensures WellWindowed(e, c, text, Windows(e, c, text, cursor), cursor, OverlapWords(e, c.Overlap()))
    decreases |text| - cursor
  {
    hide Estimate, Capacity, Words, WindowEnd, NextCursor, OverlapWords, Windows, Blank, IsSpace, WellWindowed;
    var shared := OverlapWords(e, c.Overlap());
    WindowsStep(e, c, text, cursor);
    if cursor == |text| {
      NothingIsBlank(text);
      NoWindow(e, c, text, cursor, shared);
    } else {
      var end := WindowEnd(e, c, text, cursor);
      WindowHolds(e, c, text, cursor);
      if end == |text| {
        assert text[cursor..end] == text[cursor..];
        AtEnd(e, text, c.Overlap());
        WindowsStep(e, c, text, |text|);
        if Emitted(e, c, text, cursor, end) {
          var w := Window(cursor, end);
          LastWindow(e, c, text, w, shared);
          assert [w] + [] == [w];
        } else {
          NoWindow(e, c, text, cursor, shared);
        }
      } else {
        StepInside(e, c, text, cursor);
        var next := NextCursor(e, text, end, c.Overlap());
        WindowsFrom(e, c, text, next);
        InnerWindow(e, c, text, Window(cursor, end), next);
      }
    }
  }

  lemma InnerWindow(e: Estimator, c: Config, text: string, w: Window, next: nat)
    requires e.Valid() && c.Valid() && Covering(e, c)
    requires w.start < next < w.end < |text| && Clean(text, next) && StartsWord(text, 0, next) && Clean(text, w.end)
    requires var shared := OverlapWords(e, c.Overlap());
             && Words(text, next, w.end) == shared
             && WellWindowed(e, c, text, Windows(e, c, text, next), next, shared)
    requires c.minTokens <= Estimate(e, Words(text, w.start, w.end)) <= c.maxTokens
    requires Words(text, w.start, w.end) >= Capacity(e, c.target)
    ensures WellWindowed(e, c, text, [w] + Windows(e, c, text, next), w.start, OverlapWords(e, c.Overlap()))
  {
    hide Estimate, Capacity, Words, OverlapWords, Windows, Blank, IsSpace, Clean, InText, Chained, Shares, Sized;
    var rest := Windows(e, c, text, next);
    PrependWindow(e, c, text, w, rest, next, OverlapWords(e, c.Overlap()));
    if rest == [] {
      BlankFrom(text, next);
      TailNegligible(e, c, text, next, w.end);
    }
  }

  lemma NothingIsBlank(text: string)
    ensures Blank(text[|text|..])
  {
  }

  lemma AtEnd(e: Estimator, text: string, overlap: nat)
    requires e.Valid()
    ensures NextCursor(e, text, |text|, overlap) == |text|
  {
  }

  lemma BlankFrom(text: string, i: nat)
    requires i < |text| && !IsSpace(text[i])
    ensures !Blank(text[i..])
  {
    assert text[i..][0] == text[i];
  }

  /** Every window but the last moves on by at least the words it does not share. */
  lemma {:induction false} WindowsSpend(e: Estimator, c: Config, text: string, cursor: nat)
    requires e.Valid() && c.Valid() && Covering(e, c)
    requires cursor <= |text| && Clean(text, cursor)
    ensures var k, n := |Windows(e, c, text, cursor)|, Capacity(e, c.target);
            k >= 2 ==> Words(text, cursor, |text|) > n + (k - 2) * (n - OverlapWords(e, c.Overlap()))
    decreases |text| - cursor
  {
    hide Estimate, Capacity, Words, WindowEnd, NextCursor, OverlapWords, Windows, IsSpace, Emitted;
    WindowsStep(e, c, text, cursor);
    if cursor < |text| {
      var end := WindowEnd(e, c, text, cursor);
      WindowHolds(e, c, text, cursor);
      if end == |text| {
        AtEnd(e, text, c.Overlap());
        WindowsStep(e, c, text, |text|);
      } else {
        StepInside(e, c, text, cursor);
        var next := NextCursor(e, text, end, c.Overlap());
        WindowsSpend(e, c, text, next);
        WordsSplit(text, cursor, |text|);
        WordsSplit(text, next, |text|);
        var k, d := |Windows(e, c, text, cursor)|, Capacity(e, c.target) - OverlapWords(e, c.Overlap());
        if k >= 3 { assert (k - 2) * d == (k - 3) * d + d; }
      }
    }
  }

  /** The number of chunks of a section of `W` words. */
  lemma ChunkCountBound(e: Estimator, c: Config, text: string)
    requires e.Valid() && c.Valid() && Covering(e, c)
    ensures var n, w := Capacity(e, c.target), Words(text, 0, |text|);
            |Windows(e, c, text, 0)| <= 1 + CeilDiv(if w > n then w - n else 0, n - OverlapWords(e, c.Overlap()))
  {
    hide Estimate, Capacity, Words, OverlapWords, Windows;
    WindowsSpend(e, c, text, 0);
    var k, n, w := |Windows(e, c, text, 0)|, Capacity(e, c.target), Words(text, 0, |text|);
    if k >= 2 {
      CeilBound(w - n, n - OverlapWords(e, c.Overlap()), k - 2);
    }
  }

  /** With a word or more per token, every chunk that does not end the section is estimated at `target`
      tokens or more. */
  lemma FullChunksReachTarget(e: Estimator, c: Config, text: string, i: nat)
    requires e.Valid() && c.Valid() && e.num >= e.den && c.Overlap() >= 1
    requires i < |Windows(e, c, text, 0)|
    ensures var w := Windows(e, c, text, 0)[i];
            w.start <= w.end <= |text| && (w.end < |text| ==> Estimate(e, Words(text, w.start, w.end)) >= c.target)
  {
    hide Estimate, Capacity, Words, Windows;
    WordPerTokenCovers(e, c);
    WindowsFrom(e, c, text, 0);
    var w := Windows(e, c, text, 0)[i];
    AtLeastOne(e, Words(text, w.start, w.end));
    if c.target >= 2 { EstimateAtMost(e, Words(text, w.start, w.end), c.target - 1); }
  }

  // ---- The condition is necessary ----

  /** `k` one-letter words, each followed by a space. */
  function Letters(k: nat): (text: string)
    ensures |text| == 2 * k
    ensures forall i | 0 <= i < 2 * k :: text[i] == if i % 2 == 0 then 'a' else ' '
  {
    if k == 0 then "" else Letters(k - 1) + "a "
  }

  lemma {:induction false} LettersWords(k: nat, lo: nat, hi: nat)
    requires lo <= hi <= 2 * k && lo % 2 == 0
    ensures Words(Letters(k), lo, hi) == (hi - lo + 1) / 2
    decreases hi
  {
    hide Letters;
    if lo < hi {
      LettersWords(k, lo, hi - 1);
      LetterStarts(k, lo, hi - 1);
      hide StartsWord;
    }
  }

  lemma LetterStarts(k: nat, lo: nat, i: nat)
    requires lo <= i < 2 * k && lo % 2 == 0
    ensures StartsWord(Letters(k), lo, i) <==> i % 2 == 0
  {
    hide Letters;
  }

  lemma {:induction false} LettersBoundary(k: nat, limit: nat, i: nat)
    requires i <= 2 * limit < 2 * k
    ensures Boundary(Letters(k), 0, limit, i) == 2 * limit
    decreases 2 * limit - i
  {
    hide Letters, Words;
    LettersWords(k, 0, i + 1);
    if i < 2 * limit {
      LettersBoundary(k, limit, i + 1);
    }
  }

  lemma {:induction false} NoNewline(k: nat, i: nat)
    requires i <= 2 * k
    ensures FindNewline(Letters(k), i) == 2 * k
    decreases 2 * k - i
  {
    hide Letters;
    if i < 2 * k {
      NoNewline(k, i + 1);
    }
  }

  lemma LettersWindow(e: Estimator, c: Config, k: nat)
    requires e.Valid() && c.Valid() && Capacity(e, c.target) < k
    ensures WindowEnd(e, c, Letters(k), 0) == 2 * Capacity(e, c.target)
  {
    hide Letters, Estimate, Capacity;
    var n := Capacity(e, c.target);
    LettersBoundary(k, n, 0);
    NoNewline(k, 2 * n + 1);
  }

  /** Where the overlap takes no word, or all the words of a full window, the first window is followed by a
      skip over one whole word. */
  lemma LettersSkip(e: Estimator, c: Config, k: nat)
    requires e.Valid() && c.Valid() && 1 <= Capacity(e, c.target) < k
    requires c.Overlap() == 0 || Capacity(e, c.target) <= OverlapWords(e, c.Overlap())
    ensures NextCursor(e, Letters(k), 2 * Capacity(e, c.target), c.Overlap()) == 2 * Capacity(e, c.target) + 2
  {
    hide Letters, Estimate, Capacity, OverlapWords, Words;
    var text, n := Letters(k), Capacity(e, c.target);
    LettersWords(k, 0, 2 * n);
    if c.Overlap() >= 1 {
      OverlapStartFinds(e, text, 2 * n, c.Overlap());
      var r := OverlapStart(e, text, 2 * n, c.Overlap());
      LettersWords(k, 0, r);
    }
    assert SkipWord(text, 2 * n) == SkipWord(text, 2 * n + 1) == 2 * n + 1;
    assert SkipSpace(text, 2 * n + 1) == SkipSpace(text, 2 * n + 2) == 2 * n + 2;
  }

  lemma NotBlankLetters(k: nat, i: nat)
    requires i < 2 * k && i % 2 == 0
    ensures !Blank(Letters(k)[i..])
  {
    hide Letters;
    BlankFrom(Letters(k), i);
  }

  /** Outside the covering configurations some text is not covered. */
  lemma NotCoveringLoses(e: Estimator, c: Config)
    requires e.Valid() && c.Valid() && !Covering(e, c)
    ensures var k := Capacity(e, c.target) + Capacity(e, c.minTokens - 1) + 1;
            !Covers(e, c, Letters(k), Windows(e, c, Letters(k), 0))
  {
    hide Letters, Estimate, Capacity, OverlapWords, Words, Windows, WindowEnd, NextCursor, Blank;
    var n, m := Capacity(e, c.target), Capacity(e, c.minTokens - 1);
    var k := n + m + 1;
    var text := Letters(k);
    LettersWindow(e, c, k);
    WindowsStep(e, c, text, 0);
    LettersWords(k, 0, 2 * n);
    LettersWords(k, 0, 2 * k);
    LettersWords(k, 2 * n, 2 * k);
    NotBlankLetters(k, 0);
    NotBlankLetters(k, 2 * n);
    AtLeastOne(e, m + 1);
    AtLeastOne(e, k);
    if c.minTokens >= 2 {
      EstimateAtMost(e, m + 1, c.minTokens - 1);
      EstimateAtMost(e, k, c.minTokens - 1);
      EstimateAtMost(e, n, c.minTokens - 1);
    } else {
      ZeroCapacity(e);
    }
    assert !Negligible(e, c, text, 2 * n) && !Negligible(e, c, text, 0);
    if n <= m {
      BlankHasNoWords(text, 0, 2 * n);
      assert !Emitted(e, c, text, 0, 2 * n);
    } else {
      LettersSkip(e, c, k);
      WindowsStep(e, c, text, 2 * n + 2);
      var ws := Windows(e, c, text, 0);
      var rest := Windows(e, c, text, 2 * n + 2);
      if Emitted(e, c, text, 0, 2 * n) {
        assert ws == [Window(0, 2 * n)] + rest;
        if rest != [] {
          assert ws[1] == rest[0];
          assert ws[1].start == 2 * n + 2;
        }
      }
    }
  }

  /** A configuration covers every text, with no gap and nothing lost but a negligible tail, exactly when
      its overlap is not empty, a full window outnumbers the overlap's words, and a full window is not
      below the minimum size. */
  lemma CoversEveryTextIffCovering(e: Estimator, c: Config)
    requires e.Valid() && c.Valid()
    ensures (forall text: string :: Covers(e, c, text, Windows(e, c, text, 0))) <==> Covering(e, c)
  {
    hide Covering, Windows;
    if Covering(e, c) {
      forall text: string ensures Covers(e, c, text, Windows(e, c, text, 0)) {
        WindowsFrom(e, c, text, 0);
      }
    } else {
      NotCoveringLoses(e, c);
    }
  }

  // ---- Windows that just fill the limit on chunks ----

  /** A section with as many windows as chunks are allowed that is refused all the same: text is left after the last. */
  ghost predicate LeavesText(e: Estimator, c: Config, text: string)
    requires e.Valid() && c.Valid()
  {
    Windows(e, c, text, 0) != [] && TopAt(e, c, text, 0, |Windows(e, c, text, 0)|)
  }

  /** The configurations for which there is such a section: the smallest chunk refuses more words than the overlap
      takes, or just as many and a window can be extended to a newline. */
  predicate CanLeaveText(e: Estimator, c: Config)
    requires e.Valid() && c.Valid() && c.Overlap() >= 1
  {
    var overlap, refused := OverlapWords(e, c.Overlap()), Capacity(e, c.minTokens - 1);
    overlap < refused || (overlap == refused && Capacity(e, c.maxTokens) > Capacity(e, c.target))
  }

  lemma LeavesTextIffCan(e: Estimator, c: Config)
    requires e.Valid() && c.Valid() && Covering(e, c)
    ensures (exists text: string :: LeavesText(e, c, text)) <==> CanLeaveText(e, c)
  {
    hide Windows, TopAt, TextLeft, LeavesText, Capacity, OverlapWords;
    if CanLeaveText(e, c) {
      if OverlapWords(e, c.Overlap()) < Capacity(e, c.minTokens - 1) {
        AsManyChunksAsAllowedRefused(e, c);
        OneLeaves(e, c, Letters(Capacity(e, c.target) + 1));
      } else {
        LinedLeaves(e, c);
        OneLeaves(e, c, Lined(Capacity(e, c.target) + 1));
      }
    }
    forall text: string | LeavesText(e, c, text) ensures CanLeaveText(e, c) {
      LeavesMeans(e, c, text);
    }
  }

  lemma OneLeaves(e: Estimator, c: Config, text: string)
    requires e.Valid() && c.Valid() && |Windows(e, c, text, 0)| == 1 && TopAt(e, c, text, 0, 1)
    ensures LeavesText(e, c, text)
  {
    hide Windows, TopAt;
  }

  lemma LeavesMeans(e: Estimator, c: Config, text: string)
    requires e.Valid() && c.Valid() && Covering(e, c) && LeavesText(e, c, text)
    ensures CanLeaveText(e, c)
  {
    hide Windows, TopAt, TextLeft, Covering, CanLeaveText;
    TopsOfWindows(e, c, text, 0, |Windows(e, c, text, 0)|);
    LeftoverSmall(e, c, text, 0);
  }

  /** Where text is left, it was too little for a chunk, although it starts with the overlap. */
  lemma {:induction false} LeftoverSmall(e: Estimator, c: Config, text: string, cursor: nat)
    requires e.Valid() && c.Valid() && Covering(e, c)
    requires cursor <= |text| && Clean(text, cursor)
    requires Windows(e, c, text, cursor) != [] && TextLeft(e, c, text, cursor)
    ensures CanLeaveText(e, c)
    decreases |text| - cursor
  {
    hide Windows, WindowEnd, NextCursor, Emitted, Covering, CanLeaveText, Clean, Words, Estimate, Capacity,
         OverlapWords, StartsWord;
    WindowsStep(e, c, text, cursor);
    var end := WindowEnd(e, c, text, cursor);
    var next := NextCursor(e, text, end, c.Overlap());
    var rest := if next > cursor then Windows(e, c, text, next) else [];
    assert Windows(e, c, text, cursor) == [Window(cursor, end)] + rest;
    if end == |text| {
      AtEnd(e, text, c.Overlap());
      NothingFrom(e, c, text);
    } else {
      StepInside(e, c, text, cursor);
      if rest != [] {
        assert Windows(e, c, text, cursor)[|rest|] == rest[|rest| - 1];
        LeftoverSmall(e, c, text, next);
      } else {
        WindowsStep(e, c, text, next);
        OverlapTakes(e, c);
        RefusedRest(e, c, text, next, end);
        RestAfterWindow(e, c, text, cursor, end, next);
      }
    }
  }

  lemma NothingFrom(e: Estimator, c: Config, text: string)
    requires e.Valid() && c.Valid()
    ensures Windows(e, c, text, |text|) == []
  {
  }

  /** What is refused reaches the end of the text, and is no more than the smallest chunk refuses. */
  lemma RefusedRest(e: Estimator, c: Config, text: string, next: nat, end: nat)
    requires e.Valid() && c.Valid() && Covering(e, c) && next < end < |text| && Clean(text, next)
    requires Words(text, next, end) >= 1
    requires !Emitted(e, c, text, next, WindowEnd(e, c, text, next))
    ensures c.minTokens >= 2 && Words(text, next, |text|) <= Capacity(e, c.minTokens - 1)
  {
    hide WindowEnd, NextCursor, Covering, Clean, Words, Estimate, Capacity, StartsWord, Blank;
    var stop := WindowEnd(e, c, text, next);
    StepInside(e, c, text, next);
    assert stop == |text|;
    WordsGrow(text, next, end, |text|);
    BlankHasNoWords(text, next, |text|);
    AtLeastOne(e, Words(text, next, |text|));
    EstimateAtMost(e, Words(text, next, |text|), c.minTokens - 1);
  }

  lemma RestAfterWindow(e: Estimator, c: Config, text: string, cursor: nat, end: nat, next: nat)
    requires e.Valid() && c.Valid() && c.Overlap() >= 1 && c.minTokens >= 2
    requires cursor < next < end < |text| && end == WindowEnd(e, c, text, cursor)
    requires Clean(text, cursor) && Clean(text, next)
    requires Words(text, next, end) == OverlapWords(e, c.Overlap())
    requires Words(text, next, |text|) <= Capacity(e, c.minTokens - 1)
    ensures CanLeaveText(e, c)
  {
    hide WindowEnd, Words, Estimate, Capacity, OverlapWords;
    WindowHolds(e, c, text, cursor);
    EstimateAtMost(e, Words(text, cursor, end), c.maxTokens);
    WordsGrow(text, next, end, |text|);
    if !IsSpace(text[end]) {
      assert StartsWord(text, next, end);
    }
  }

  /** A section with no more windows than chunks are allowed is refused when text is left after the last of them. In
      every covering configuration whose smallest chunk refuses more words than the overlap takes, this happens to a
      full window and one more word. */
  lemma AsManyChunksAsAllowedRefused(e: Estimator, c: Config)
    requires e.Valid() && c.Valid() && Covering(e, c) && OverlapWords(e, c.Overlap()) < Capacity(e, c.minTokens - 1)
    ensures var text := Letters(Capacity(e, c.target) + 1);
            |Windows(e, c, text, 0)| == 1 && TopAt(e, c, text, 0, 1)
  {
    var n, n0 := Capacity(e, c.target), OverlapWords(e, c.Overlap());
    var text := Letters(n + 1);
    hide Windows, Letters, WindowEnd, NextCursor, Words, Estimate, TopAt, Covering, Emitted, Capacity, OverlapWords;
    LettersNext(e, c);
    LettersRest(n, n0);
    ZeroCapacity(e);
    assert c.minTokens >= 2;
    SmallRest(e, c, text, 2 * (n - n0));
    OneWindowLeaves(e, c, text, 2 * n, 2 * (n - n0));
  }

  lemma LettersRest(n: nat, n0: nat)
    requires n0 <= n
    ensures |Letters(n + 1)| == 2 * (n + 1) && Words(Letters(n + 1), 2 * (n - n0), 2 * (n + 1)) == n0 + 1
  {
    hide Letters, Words;
    LettersWords(n + 1, 2 * (n - n0), 2 * (n + 1));
  }

  lemma OneWindowLeaves(e: Estimator, c: Config, text: string, end: nat, next: nat)
    requires e.Valid() && c.Valid() && 0 < next < |text| && 0 < end <= |text|
    requires WindowEnd(e, c, text, 0) == end && Emitted(e, c, text, 0, end)
    requires NextCursor(e, text, end, c.Overlap()) == next
    requires !Emitted(e, c, text, next, WindowEnd(e, c, text, next))
    ensures |Windows(e, c, text, 0)| == 1 && TopAt(e, c, text, 0, 1)
  {
    hide Windows, WindowEnd, NextCursor, TopAt, Emitted;
    WindowsStep(e, c, text, 0);
    WindowsStep(e, c, text, next);
    TopsOfWindows(e, c, text, 0, 1);
  }

  /** The same words as `Letters`, with a newline at the end. */
  function Lined(k: nat): (text: string)
    requires k >= 1
    ensures |text| == 2 * k
  {
    Letters(k)[2 * k - 1 := '\n']
  }

  ghost predicate SameShape(a: string, b: string) {
    |a| == |b| && forall i | 0 <= i < |a| :: IsSpace(a[i]) == IsSpace(b[i])
  }

  lemma {:induction false} SameWords(a: string, b: string, lo: nat, hi: nat)
    requires SameShape(a, b) && lo <= hi <= |a|
    ensures Words(a, lo, hi) == Words(b, lo, hi)
    decreases hi
  {
    hide IsSpace;
    if lo < hi { SameWords(a, b, lo, hi - 1); }
  }

  lemma {:induction false} SameBoundary(a: string, b: string, start: nat, limit: nat, i: nat)
    requires SameShape(a, b) && start <= i <= |a|
    ensures Boundary(a, start, limit, i) == Boundary(b, start, limit, i)
    decreases |a| - i
  {
    hide IsSpace, Words;
    if i < |a| {
      SameWords(a, b, start, i + 1);
      SameBoundary(a, b, start, limit, i + 1);
    }
  }

  lemma LinedShape(k: nat)
    requires k >= 1
    ensures SameShape(Letters(k), Lined(k)) && FindNewline(Lined(k), 2 * k - 1) == 2 * k - 1
  {
    hide Letters;
    assert IsSpace('\n') && IsSpace(' ');
  }

  /** A full window is extended over one more word to the newline; behind it only the newline is left. */
  lemma LinedWindow(e: Estimator, c: Config)
    requires e.Valid() && c.Valid() && Capacity(e, c.maxTokens) > Capacity(e, c.target)
    ensures var n := Capacity(e, c.target);
            WindowEnd(e, c, Lined(n + 1), 0) == 2 * n + 1 && Words(Lined(n + 1), 0, 2 * n + 1) == n + 1
  {
    hide Letters, Lined, Estimate, Capacity, SameShape;
    var n := Capacity(e, c.target);
    var text := Lined(n + 1);
    LinedShape(n + 1);
    LettersBoundary(n + 1, n, 0);
    SameBoundary(Letters(n + 1), text, 0, n, 0);
    LettersWords(n + 1, 0, 2 * n + 1);
    SameWords(Letters(n + 1), text, 0, 2 * n + 1);
    EstimateAtMost(e, n + 1, c.maxTokens);
  }

  lemma LinedLeaves(e: Estimator, c: Config)
    requires e.Valid() && c.Valid() && Covering(e, c) && Capacity(e, c.maxTokens) > Capacity(e, c.target)
    requires OverlapWords(e, c.Overlap()) == Capacity(e, c.minTokens - 1)
    ensures var text := Lined(Capacity(e, c.target) + 1);
            |Windows(e, c, text, 0)| == 1 && TopAt(e, c, text, 0, 1)
  {
    hide Windows, Lined, Letters, WindowEnd, NextCursor, Words, Estimate, TopAt, Emitted, Capacity, OverlapWords,
         StartsWord;
    var n := Capacity(e, c.target);
    var text := Lined(n + 1);
    LinedWindow(e, c);
    OverlapTakes(e, c);
    ZeroCapacity(e);
    assert Clean(text, 0);
    hide Covering, Clean;
    StepInside(e, c, text, 0);
    var next := NextCursor(e, text, 2 * n + 1, c.Overlap());
    LinedTail(n + 1, next);
    SmallRest(e, c, text, next);
    OneWindowLeaves(e, c, text, 2 * n + 1, next);
  }

  lemma LinedTail(k: nat, i: nat)
    requires k >= 1 && i <= 2 * k - 1
    ensures Words(Lined(k), i, 2 * k) == Words(Lined(k), i, 2 * k - 1)
  {
    assert IsSpace('\n');
    hide Letters, IsSpace;
  }

  /** The second window would start so many words before the end of the first as the overlap takes. */
  lemma LettersNext(e: Estimator, c: Config)
    requires e.Valid() && c.Valid() && Covering(e, c)
    ensures var n, n0 := Capacity(e, c.target), OverlapWords(e, c.Overlap());
            var text := Letters(n + 1);
            && WindowEnd(e, c, text, 0) == 2 * n && Emitted(e, c, text, 0, 2 * n)
            && 0 < n0 < n && NextCursor(e, text, 2 * n, c.Overlap()) == 2 * (n - n0)
  {
    var n, n0 := Capacity(e, c.target), OverlapWords(e, c.Overlap());
    hide WindowEnd, NextCursor, Words, Estimate, Emitted, Letters, Capacity, OverlapWords, StartsWord;
    OverlapTakes(e, c);
    hide Covering;
    LettersInside(e, c);
    var next := NextCursor(e, Letters(n + 1), 2 * n, c.Overlap());
    LetterStarts(n + 1, 0, next);
    LettersWords(n + 1, next, 2 * n);
    HalfOf(n, n0, next);
  }

  lemma LettersInside(e: Estimator, c: Config)
    requires e.Valid() && c.Valid() && Covering(e, c)
    ensures var n := Capacity(e, c.target);
            var text := Letters(n + 1);
            var next := NextCursor(e, text, 2 * n, c.Overlap());
            && WindowEnd(e, c, text, 0) == 2 * n && Emitted(e, c, text, 0, 2 * n)
            && 0 < next < 2 * n && StartsWord(text, 0, next)
            && Words(text, next, 2 * n) == OverlapWords(e, c.Overlap())
  {
    hide WindowEnd, NextCursor, Words, Estimate, Emitted, Letters, Capacity, OverlapWords, StartsWord;
    var n := Capacity(e, c.target);
    LettersWindow(e, c, n + 1);
    assert Clean(Letters(n + 1), 0);
    hide Clean;
    StepInside(e, c, Letters(n + 1), 0);
  }

  lemma HalfOf(n: nat, n0: nat, next: nat)
    requires next <= 2 * n && next % 2 == 0 && (2 * n - next + 1) / 2 == n0
    ensures next == 2 * (n - n0)
  {
  }

  lemma OverlapTakes(e: Estimator, c: Config)
    requires e.Valid() && c.Valid() && Covering(e, c)
    ensures c.Overlap() >= 1 && 0 < OverlapWords(e, c.Overlap()) < Capacity(e, c.target)
  {
    hide Capacity;
  }

  /** Too few words are left for a chunk. */
  lemma SmallRest(e: Estimator, c: Config, text: string, cursor: nat)
    requires e.Valid() && c.Valid() && c.minTokens >= 2 && cursor <= |text|
    requires Words(text, cursor, |text|) <= Capacity(e, c.minTokens - 1)
    ensures !Emitted(e, c, text, cursor, WindowEnd(e, c, text, cursor))
  {
    hide WindowEnd, Words, Estimate, Capacity;
    var end := WindowEnd(e, c, text, cursor);
    WordsGrow(text, cursor, end, |text|);
    EstimateAtMost(e, Words(text, cursor, end), c.minTokens - 1);
  }

  /** An empty overlap skips exactly one word after a window that ends before a word, and none after one
      that was extended to a newline. */
  lemma EmptyOverlapSkips(e: Estimator, text: string, end: nat)
    requires e.Valid() && end < |text|
    ensures var next := NextCursor(e, text, end, 0);
            && end < next <= |text|
            && Words(text, end, next) == (if IsSpace(text[end]) then 0 else 1)
  {
    hide IsSpace;
    var middle := SkipWord(text, end);
    var next := SkipSpace(text, middle);
    SkipWordCounts(text, end, end);
    SkipSpaceCounts(text, end, middle);
  }

  lemma {:induction false} SkipWordCounts(text: string, start: nat, i: nat)
    requires start <= i <= |text|
    requires Words(text, start, i) == if i == start then 0 else 1
    requires i > start ==> !IsSpace(text[i - 1])
    ensures var j := SkipWord(text, i);
            && Words(text, start, j) == (if j == start then 0 else 1)
            && (j < |text| ==> IsSpace(text[j]))
            && (i < |text| && !IsSpace(text[i]) ==> j > i)
    decreases |text| - i
  {
    hide IsSpace;
    if i < |text| && !IsSpace(text[i]) {
      SkipWordCounts(text, start, i + 1);
    }
  }

  lemma {:induction false} SkipSpaceCounts(text: string, start: nat, i: nat)
    requires start <= i <= |text|
    ensures var j := SkipSpace(text, i);
            && Words(text, start, j) == Words(text, start, i)
            && (i < |text| && IsSpace(text[i]) ==> j > i)
    decreases |text| - i
  {
    hide IsSpace;
    if i < |text| && IsSpace(text[i]) {
      SkipSpaceCounts(text, start, i + 1);
    }
  }
}
