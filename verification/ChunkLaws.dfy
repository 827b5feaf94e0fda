/** What the scans of the chunker find, told by the text alone. */
module ChunkLaws {
  import opened Options
  import opened PyText
  import opened Chunker
  import opened Coverage

  /** The estimate is the least positive number of tokens whose words are enough. */
  lemma EstimateIs(e: Estimator, words: nat)
    requires e.Valid()
    ensures var t := Estimate(e, words);
            t >= 1 && words * e.den <= t * e.num && (t > 1 ==> (t - 1) * e.num < words * e.den)
  {
    CeilBound(words * e.den, e.num, Estimate(e, words));
    CeilBound(words * e.den, e.num, Estimate(e, words) - 1);
  }

  // ---- Where a window ends ----

  /** The position after which the count of words passes the limit: the start of the word that is one too many. */
  ghost predicate OneTooMany(text: string, start: nat, limit: nat, b: nat) {
    start <= b < |text| && StartsWord(text, start, b) && Words(text, start, b) == limit
  }

  ghost predicate FirstNewline(text: string, from: nat, n: nat) {
    from <= n < |text| && text[n] == '\n' && forall i | from <= i < n :: text[i] != '\n'
  }

  /** A window ends with the text if all its words fit the target; otherwise at the first newline behind the word that
      is one too many if it may be extended that far, and else before that word. */
  ghost predicate EndsAt(e: Estimator, c: Config, text: string, start: nat, end: nat)
    requires e.Valid() && c.Valid() && start <= |text|
  {
    var limit := Capacity(e, c.target);
    && (Words(text, start, |text|) <= limit ==> end == |text|)
    && (Words(text, start, |text|) > limit ==>
          exists b: nat :: OneTooMany(text, start, limit, b) && ExtendsTo(e, c, text, start, b, end))
  }

  ghost predicate ExtendsTo(e: Estimator, c: Config, text: string, start: nat, b: nat, end: nat)
    requires e.Valid() && c.Valid() && start <= b < |text|
  {
    && start <= end <= |text|
    && (end == b || (FirstNewline(text, b + 1, end) && Estimate(e, Words(text, start, end)) <= c.maxTokens))
    && forall n: nat | FirstNewline(text, b + 1, n) && Estimate(e, Words(text, start, n)) <= c.maxTokens :: end == n
  }

  lemma WindowEndIs(e: Estimator, c: Config, text: string, start: nat)
    requires e.Valid() && c.Valid() && start <= |text|
    ensures EndsAt(e, c, text, start, WindowEnd(e, c, text, start))
  {
    hide Estimate, Capacity, Boundary, Words, StartsWord;
    var limit := Capacity(e, c.target);
    EmptyScan(text, start);
    BoundaryCounts(text, start, limit, start);
    var b, end := Boundary(text, start, limit, start), WindowEnd(e, c, text, start);
    if b < |text| {
      OneMoreWord(text, start, b);
      WordsGrow(text, start, b + 1, |text|);
      var newline := FindNewline(text, b + 1);
      assert ExtendsTo(e, c, text, start, b, end);
    }
  }

  // ---- Where the next window starts ----

  /** The next place, behind `from`, where a word starts; the end of the text if there is none. */
  ghost predicate NextWord(text: string, from: nat, j: nat) {
    && from < j <= |text|
    && (j < |text| ==> !IsSpace(text[j]) && IsSpace(text[j - 1]))
    && forall i | from < i < j :: IsSpace(text[i]) || !IsSpace(text[i - 1])
  }

  lemma {:induction false} SkipWordStops(text: string, i: nat)
    requires i <= |text|
    ensures var j := SkipWord(text, i);
            (forall k | i <= k < j :: !IsSpace(text[k])) && (j < |text| ==> IsSpace(text[j]))
    decreases |text| - i
  {
    if i < |text| && !IsSpace(text[i]) {
      SkipWordStops(text, i + 1);
      hide IsSpace;
    }
  }

  lemma {:induction false} SkipSpaceStops(text: string, i: nat)
    requires i <= |text|
    ensures var j := SkipSpace(text, i);
            (forall k | i <= k < j :: IsSpace(text[k])) && (j < |text| ==> !IsSpace(text[j]))
    decreases |text| - i
  {
    if i < |text| && IsSpace(text[i]) {
      SkipSpaceStops(text, i + 1);
      hide IsSpace;
    }
  }

  /** The next window starts at the overlap before the end if that is inside the text read so far, and otherwise at the
      next word behind the end. */
  lemma NextCursorIs(e: Estimator, text: string, end: nat, overlap: nat)
    requires e.Valid() && end <= |text|
    ensures var next, s := NextCursor(e, text, end, overlap), OverlapStart(e, text, end, overlap);
            && (end == |text| ==> next == |text|)
            && (end < |text| && 0 < s < end ==> next == s)
            && (end < |text| && !(0 < s < end) ==> NextWord(text, end, next))
  {
    hide IsSpace, OverlapStart, SkipWord, SkipSpace;
    if end < |text| {
      SkipWordStops(text, end);
      SkipSpaceStops(text, SkipWord(text, end));
    }
  }

  // ---- The overlap in front of a chunk ----

  /** The place that leaves the overlap's words before `cursor`, or all words if there are fewer. */
  ghost predicate OverlapAt(e: Estimator, text: string, cursor: nat, overlap: nat, s: nat)
    requires e.Valid() && cursor <= |text| && overlap >= 1
  {
    var n := OverlapWords(e, overlap);
    && s <= cursor
    && (Words(text, 0, cursor) >= n ==>
          s < cursor && StartsWord(text, 0, s) && Words(text, 0, cursor) == Words(text, 0, s) + n)
    && (Words(text, 0, cursor) < n ==> Words(text, 0, s) == 0)
  }

  /** The text in front of a chunk: none before the first or without an overlap, else what the overlap leaves before
      the chunk, stripped, unless that is nothing. */
  lemma PrefixIs(e: Estimator, c: Config, text: string, index: nat, cursor: nat)
    requires e.Valid() && c.Valid() && cursor <= |text|
    ensures var prefix := OverlapPrefix(e, c, text, index, cursor);
            && (index == 0 || c.Overlap() == 0 ==> prefix == None)
            && (index > 0 && c.Overlap() > 0 ==>
                  exists s: nat :: OverlapAt(e, text, cursor, c.Overlap(), s)
                    && prefix == if Strip(text[s..cursor]) == "" then None else Some(Strip(text[s..cursor])))
  {
    if index > 0 && c.Overlap() > 0 {
      OverlapStartFinds(e, text, cursor, c.Overlap());
      hide Strip, OverlapStart, Words, StartsWord;
      var s := OverlapStart(e, text, cursor, c.Overlap());
      assert OverlapAt(e, text, cursor, c.Overlap(), s);
      NothingLeft(text, cursor);
    }
  }

  /** What is yielded for each window: its number, its place in the document, its text, its estimate and its overlap. */
  lemma YieldedAre(e: Estimator, c: Config, limits: Limits, text: string, offset: nat, chunks: seq<Chunk>, i: nat)
    requires e.Valid() && c.Valid() && Yielded(e, c, limits, text, offset, chunks) && i < |chunks|
    ensures var ws := Windows(e, c, text, 0);
            && i < |ws| && ws[i].start <= ws[i].end <= |text|
            && chunks[i].index == i
            && chunks[i].startOffset == offset + ws[i].start && chunks[i].endOffset == offset + ws[i].end
            && chunks[i].text == text[ws[i].start..ws[i].end]
            && chunks[i].tokens == Estimate(e, Words(text, ws[i].start, ws[i].end))
            && (i == 0 || c.Overlap() == 0 ==> chunks[i].prefix == None)
            && (i > 0 && c.Overlap() > 0 ==>
                  exists s: nat :: OverlapAt(e, text, ws[i].start, c.Overlap(), s)
                    && chunks[i].prefix == if Strip(text[s..ws[i].start]) == "" then None
                                           else Some(Strip(text[s..ws[i].start])))
  {
    hide Windows, OverlapPrefix, Estimate, OverlapAt;
    PrefixIs(e, c, text, i, Windows(e, c, text, 0)[i].start);
  }

  lemma NothingLeft(text: string, cursor: nat)
    requires cursor <= |text|
    ensures Strip(text[cursor..cursor]) == ""
  {
    assert text[cursor..cursor] == "";
  }
}
