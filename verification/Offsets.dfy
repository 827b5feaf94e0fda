/** Where a chunk's characters come from in the document: a section's text leaves the blank lines out, and its chunks
    count their offsets as if it did not. */
module Offsets {
  import opened Options
  import opened PyText
  import opened Normalizer
  import opened Headings
  import opened Sections
  import Chunker

  // ---- From a text without its blank lines back to the lines ----

  /** The text the content lines make, each ended by a newline. */
  function Kept(lines: seq<string>): string {
    Document(ContentLines(lines))
  }

  /** The line that position `p` of the kept text is in. */
  function LineAt(lines: seq<string>, p: nat): (k: nat)
    requires p < |Kept(lines)|
    ensures k < |lines|
  {
    var front := lines[..|lines| - 1];
    if p < |Kept(front)| then LineAt(front, p) else |front|
  }

  /** How many characters of the first `k` lines are left out. */
  function Dropped(lines: seq<string>, k: nat): int
    requires k <= |lines|
  {
    Offset(lines, k) - |Kept(lines[..k])|
  }

  /** Where position `p` of the kept text is in the document of all the lines. */
  function Where(lines: seq<string>, p: nat): int
    requires p < |Kept(lines)|
  {
    p + Dropped(lines, LineAt(lines, p))
  }

  lemma KeptStep(lines: seq<string>, k: nat)
    requires k < |lines|
    ensures Kept(lines[..k + 1]) == Kept(lines[..k]) + (if IsContent(lines[k]) then lines[k] + "\n" else "")
  {
    hide IsContent, ContentLines, Document;
    assert lines[..k] + [lines[k]] == lines[..k + 1];
    var before := ContentLines(lines[..k]);
    ContentStep(lines[..k], lines[k]);
    if IsContent(lines[k]) {
      DocumentStep(before, lines[k]);
      assert Kept(lines[..k]) + lines[k] + "\n" == Kept(lines[..k]) + (lines[k] + "\n");
    } else {
      assert before + [] == before;
    }
  }

  /** Line `k` is a content line, and its part of the kept text holds position `p`. */
  lemma {:induction false} LineAtHolds(lines: seq<string>, p: nat)
    requires p < |Kept(lines)|
    ensures var k := LineAt(lines, p);
            IsContent(lines[k]) && |Kept(lines[..k])| <= p <= |Kept(lines[..k])| + |lines[k]|
  {
    var n: nat := |lines| - 1;
    hide Kept, IsContent;
    assert lines[..n + 1] == lines;
    KeptStep(lines, n);
    if p < |Kept(lines[..n])| {
      LineAtHolds(lines[..n], p);
      assert lines[..n][..LineAt(lines, p)] == lines[..LineAt(lines, p)];
    }
  }

  lemma KeptPart(lines: seq<string>, k: nat)
    requires k < |lines| && IsContent(lines[k])
    ensures Kept(lines) == Kept(lines[..k]) + lines[k] + ("\n" + Kept(lines[k + 1..]))
  {
    hide IsContent, ContentLines, Document;
    var pre, post := lines[..k], lines[k + 1..];
    assert pre + [lines[k]] + post == lines;
    ContentAdds(pre + [lines[k]], post);
    ContentStep(pre, lines[k]);
    DocumentAdds(ContentLines(pre) + [lines[k]], ContentLines(post));
    DocumentStep(ContentLines(pre), lines[k]);
    Regroup(Kept(pre), lines[k], "\n", Kept(post));
  }

  /** Each character of the kept text is the one at its place in the document. */
  lemma WhereHolds(lines: seq<string>, p: nat)
    requires p < |Kept(lines)|
    ensures 0 <= Where(lines, p) < |Document(lines)|
    ensures Document(lines)[Where(lines, p)] == Kept(lines)[p]
  {
    hide Kept, Document, IsContent, LineAt;
    LineAtHolds(lines, p);
    var k := LineAt(lines, p);
    KeptAt(lines, k, p - |Kept(lines[..k])|);
    DocumentAt(lines, k, p - |Kept(lines[..k])|);
  }

  lemma PartAt(a: string, line: string, b: string, j: nat)
    requires j <= |line|
    ensures |a| + j < |a + line + ("\n" + b)|
    ensures (a + line + ("\n" + b))[|a| + j] == (if j < |line| then line[j] else '\n')
  {
  }

  lemma KeptAt(lines: seq<string>, k: nat, j: nat)
    requires k < |lines| && IsContent(lines[k]) && j <= |lines[k]|
    ensures |Kept(lines[..k])| + j < |Kept(lines)|
    ensures Kept(lines)[|Kept(lines[..k])| + j] == (if j < |lines[k]| then lines[k][j] else '\n')
  {
    hide Kept, IsContent;
    KeptPart(lines, k);
    PartAt(Kept(lines[..k]), lines[k], Kept(lines[k + 1..]), j);
  }

  lemma DocumentAt(lines: seq<string>, k: nat, j: nat)
    requires k < |lines| && j <= |lines[k]|
    ensures Offset(lines, k) + j < |Document(lines)|
    ensures Document(lines)[Offset(lines, k) + j] == (if j < |lines[k]| then lines[k][j] else '\n')
  {
    hide Document;
    DocumentAround(lines, k);
    PartAt(Document(lines[..k]), lines[k], Document(lines[k + 1..]), j);
  }

  /** Nothing is left out exactly as long as there are content lines only. */
  lemma {:induction false} DroppedGrows(lines: seq<string>, m: nat, k: nat)
    requires m <= k <= |lines|
    ensures Dropped(lines, m) <= Dropped(lines, k)
    ensures Dropped(lines, m) == Dropped(lines, k) <==> forall n | m <= n < k :: IsContent(lines[n])
    decreases k
  {
    hide Kept, Offset, IsContent;
    if m < k {
      DroppedGrows(lines, m, k - 1);
      OffsetStep(lines, k - 1);
      KeptStep(lines, k - 1);
    }
  }

  lemma NothingDropped(lines: seq<string>)
    ensures Dropped(lines, 0) == 0
  {
  }

  lemma {:induction false} LineAtGrows(lines: seq<string>, p: nat, q: nat)
    requires p <= q < |Kept(lines)|
    ensures LineAt(lines, p) <= LineAt(lines, q)
  {
    var front := lines[..|lines| - 1];
    hide Kept;
    if q < |Kept(front)| { LineAtGrows(front, p, q); }
  }

  /** Places keep their order, and none is before its position in the kept text. */
  lemma WhereGrows(lines: seq<string>, p: nat, q: nat)
    requires p <= q < |Kept(lines)|
    ensures p <= Where(lines, p) && q - p <= Where(lines, q) - Where(lines, p)
  {
    hide Kept, LineAt, Dropped;
    LineAtGrows(lines, p, q);
    NothingDropped(lines);
    DroppedGrows(lines, 0, LineAt(lines, p));
    DroppedGrows(lines, LineAt(lines, p), LineAt(lines, q));
  }

  /** No two positions have one place. */
  lemma WhereOnce(lines: seq<string>, p: nat, q: nat)
    requires p < |Kept(lines)| && q < |Kept(lines)| && Where(lines, p) == Where(lines, q)
    ensures p == q
  {
    hide *;
    if p < q { WhereGrows(lines, p, q); } else { WhereGrows(lines, q, p); }
  }

  /** Every character of a content line is the place of exactly one position of the kept text. */
  lemma WhereOnto(lines: seq<string>, k: nat, j: nat)
    requires k < |lines| && IsContent(lines[k]) && j <= |lines[k]|
    ensures var p := |Kept(lines[..k])| + j;
            p < |Kept(lines)| && LineAt(lines, p) == k && Where(lines, p) == Offset(lines, k) + j
    ensures forall q: nat | q < |Kept(lines)| && Where(lines, q) == Offset(lines, k) + j :: q == |Kept(lines[..k])| + j
  {
    var p := |Kept(lines[..k])| + j;
    hide Kept, LineAt, Dropped, Offset, IsContent;
    OntoLine(lines, k, j);
    DroppedIs(lines, k);
    hide Where;
    forall q: nat | q < |Kept(lines)| && Where(lines, q) == Offset(lines, k) + j ensures q == p {
      WhereOnce(lines, p, q);
    }
  }

  lemma DroppedIs(lines: seq<string>, k: nat)
    requires k <= |lines|
    ensures Dropped(lines, k) == Offset(lines, k) - |Kept(lines[..k])|
  {
  }

  lemma {:induction false} OntoLine(lines: seq<string>, k: nat, j: nat)
    requires k < |lines| && IsContent(lines[k]) && j <= |lines[k]|
    ensures |Kept(lines[..k])| + j < |Kept(lines)| && LineAt(lines, |Kept(lines[..k])| + j) == k
    decreases |lines|
  {
    hide Kept, IsContent;
    var n := |lines| - 1;
    KeptPart(lines, k);
    if k < n {
      var front := lines[..n];
      assert front[..k] == lines[..k];
      OntoLine(front, k, j);
    }
  }

  // ---- Chunks ----

  ghost predicate NoBlanks(lines: seq<string>, k: nat)
    requires k <= |lines|
  {
    forall n | 0 <= n < k :: !Blank(lines[n])
  }

  /** The lines of a section, from its first content line to its last. */
  function Held(lines: seq<string>, s: Span): seq<string>
    requires InLines(s, lines)
  {
    lines[s.first..s.last + 1]
  }

  /** The section's text is the kept text of its lines, without the last newline. */
  lemma TextIsKept(lines: seq<string>, s: Span)
    requires InLines(s, lines) && IsContent(lines[s.last])
    ensures Kept(Held(lines, s)) == SectionText(lines, s) + "\n"
  {
    hide Document, Join, IsContent, ContentLines;
    var held := Held(lines, s);
    assert held[|held| - 1] == lines[s.last];
    LastContent(held);
    var kept := ContentLines(held);
    assert kept[..|kept| - 1] + [kept[|kept| - 1]] == kept;
    DocumentStep(kept[..|kept| - 1], kept[|kept| - 1]);
    JoinStep(kept[..|kept| - 1], kept[|kept| - 1]);
  }

  /** Position `p` of the section's text comes from here in the document. */
  function Origin(lines: seq<string>, s: Span, p: nat): int
    requires InLines(s, lines) && p < |Kept(Held(lines, s))|
  {
    Offset(lines, s.first) + Where(Held(lines, s), p)
  }

  lemma OriginHolds(lines: seq<string>, s: Span, p: nat)
    requires InLines(s, lines) && IsContent(lines[s.last]) && p < |SectionText(lines, s)|
    ensures p < |Kept(Held(lines, s))| && 0 <= Origin(lines, s, p) < |Document(lines)|
    ensures Document(lines)[Origin(lines, s, p)] == SectionText(lines, s)[p]
  {
    hide Document, Kept, IsContent, Where, SectionText, Offset;
    var held := Held(lines, s);
    TextIsKept(lines, s);
    WhereHolds(held, p);
    OffsetIs(lines, s.first);
    assert lines[..s.first] + held + lines[s.last + 1..] == lines;
    DocumentAdds(lines[..s.first] + held, lines[s.last + 1..]);
    DocumentAdds(lines[..s.first], held);
  }

  lemma OffsetIs(lines: seq<string>, n: nat)
    requires n <= |lines|
    ensures Offset(lines, n) == |Document(lines[..n])|
  {
  }

  /** A chunk's offsets are where its characters come from exactly when no blank line of the section is before the line
      of its last character; its text is then the document between them. */
  lemma ChunkOffsets(lines: seq<string>, s: Span, e: Chunker.Estimator, c: Chunker.Config, index: nat,
                     w: Chunker.Window)
    requires e.Valid() && c.Valid()
    requires InLines(s, lines) && IsContent(lines[s.last])
    requires forall n | s.first <= n <= s.last :: HeadingOf(lines[n]).None?
    requires w.start < w.end <= |SectionText(lines, s)|
    ensures w.end <= |Kept(Held(lines, s))|
    ensures forall p | w.start <= p < w.end ::
              && 0 <= Origin(lines, s, p) < |Document(lines)|
              && Document(lines)[Origin(lines, s, p)] == SectionText(lines, s)[p]
    ensures var section := SectionOf(lines, s);
            var chunk := Chunker.ChunkOf(e, c, section.text, section.start, index, w);
            && chunk.text == section.text[w.start..w.end]
            && ((forall p | w.start <= p < w.end :: Origin(lines, s, p) == chunk.startOffset + (p - w.start)) <==>
                NoBlanks(Held(lines, s), LineAt(Held(lines, s), w.end - 1)))
            && (NoBlanks(Held(lines, s), LineAt(Held(lines, s), w.end - 1)) ==>
                  && chunk.startOffset <= chunk.endOffset <= |Document(lines)|
                  && Document(lines)[chunk.startOffset..chunk.endOffset] == chunk.text)
  {
    hide Document, Kept, IsContent, Where, SectionText, Offset, LineAt, HeadingOf, Blank, PathAt;
    TextIsKept(lines, s);
    forall p | w.start <= p < w.end
      ensures 0 <= Origin(lines, s, p) < |Document(lines)|
      ensures Document(lines)[Origin(lines, s, p)] == SectionText(lines, s)[p]
    {
      OriginHolds(lines, s, p);
    }
    OriginsExact(lines, s, w.start, w.end);
  }

  lemma OriginsExact(lines: seq<string>, s: Span, a: nat, b: nat)
    requires InLines(s, lines) && a < b <= |Kept(Held(lines, s))|
    requires forall n | s.first <= n <= s.last :: HeadingOf(lines[n]).None?
    ensures (forall p | a <= p < b :: Origin(lines, s, p) == Offset(lines, s.first) + p) <==>
            NoBlanks(Held(lines, s), LineAt(Held(lines, s), b - 1))
  {
    hide Document, Kept, LineAt, HeadingOf, Blank, Offset, Dropped;
    var held := Held(lines, s);
    var k := LineAt(held, b - 1);
    NothingDropped(held);
    DroppedGrows(held, 0, k);
    assert forall n | 0 <= n < k :: held[n] == lines[s.first + n];
    assert NoBlanks(held, k) <==> Dropped(held, k) == 0;
    assert Origin(lines, s, b - 1) == Offset(lines, s.first) + (b - 1) + Dropped(held, k);
    if NoBlanks(held, k) {
      forall p | a <= p < b ensures Origin(lines, s, p) == Offset(lines, s.first) + p {
        WhereGrows(held, p, b - 1);
      }
    }
  }

  // ---- The chunks of a document's sections ----

  ghost predicate HoldText(ws: seq<Chunker.Window>, text: string) {
    forall j | 0 <= j < |ws| :: ws[j].start < ws[j].end <= |text|
  }

  lemma {:induction false} WindowsHoldText(e: Chunker.Estimator, c: Chunker.Config, text: string, cursor: nat)
    requires e.Valid() && c.Valid() && cursor <= |text|
    ensures HoldText(Chunker.Windows(e, c, text, cursor), text)
    decreases |text| - cursor
  {
    hide Chunker.WindowEnd, Chunker.NextCursor, Chunker.Windows, Chunker.Estimate;
    Chunker.WindowsStep(e, c, text, cursor);
    if cursor < |text| {
      var end := Chunker.WindowEnd(e, c, text, cursor);
      var next := Chunker.NextCursor(e, text, end, c.Overlap());
      if next > cursor { WindowsHoldText(e, c, text, next); }
    }
  }

  /** Each character between the chunk's offsets comes from just there. */
  ghost predicate AtOrigin(lines: seq<string>, s: Span, chunk: Chunker.Chunk)
    requires InLines(s, lines)
  {
    var start := Offset(lines, s.first);
    && start <= chunk.startOffset && chunk.endOffset - start <= |Kept(Held(lines, s))|
    && forall p: nat | chunk.startOffset - start <= p < chunk.endOffset - start :: Origin(lines, s, p) == start + p
  }

  /** No blank line of the section is before the line its chunk ends in. */
  ghost predicate NoBlankBefore(lines: seq<string>, s: Span, chunk: Chunker.Chunk)
    requires InLines(s, lines)
  {
    var end := chunk.endOffset - Offset(lines, s.first);
    1 <= end <= |Kept(Held(lines, s))| && NoBlanks(Held(lines, s), LineAt(Held(lines, s), end - 1))
  }

  /** For each chunk of each section of a document: it holds the document's characters, and its offsets are theirs
      exactly when no blank line of the section is before the line it ends in. */
  lemma ChunksOfSection(lines: seq<string>, i: nat, e: Chunker.Estimator, c: Chunker.Config, limits: Chunker.Limits,
                        chunks: seq<Chunker.Chunk>)
    requires e.Valid() && c.Valid() && i < |Spans(lines)|
    requires Chunker.Yielded(e, c, limits, SectionsOf(lines)[i].text, SectionsOf(lines)[i].start, chunks)
    ensures InLines(Spans(lines)[i], lines)
    ensures forall j | 0 <= j < |chunks| ::
              && (AtOrigin(lines, Spans(lines)[i], chunks[j]) <==> NoBlankBefore(lines, Spans(lines)[i], chunks[j]))
              && (AtOrigin(lines, Spans(lines)[i], chunks[j]) ==>
                    && chunks[j].startOffset < chunks[j].endOffset <= |Document(lines)|
                    && Document(lines)[chunks[j].startOffset..chunks[j].endOffset] == chunks[j].text)
  {
    hide Document, Kept, Where, SectionText, LineAt, HeadingOf, IsContent, PathAt, Spans, SectionsFor,
         Chunker.Windows, Chunker.ChunkOf;
    var s := Spans(lines)[i];
    SpanMeets(lines, i);
    var text := SectionText(lines, s);
    WindowsHoldText(e, c, text, 0);
    forall j | 0 <= j < |chunks|
      ensures AtOrigin(lines, s, chunks[j]) <==> NoBlankBefore(lines, s, chunks[j])
      ensures AtOrigin(lines, s, chunks[j]) ==>
                && chunks[j].startOffset < chunks[j].endOffset <= |Document(lines)|
                && Document(lines)[chunks[j].startOffset..chunks[j].endOffset] == chunks[j].text
    {
      var ws := Chunker.Windows(e, c, text, 0);
      OneChunk(lines, s, e, c, j, ws[j]);
    }
  }

  lemma SpanMeets(lines: seq<string>, i: nat)
    requires i < |Spans(lines)|
    ensures var s := Spans(lines)[i];
            && InLines(s, lines) && IsContent(lines[s.last])
            && (forall n | s.first <= n <= s.last :: HeadingOf(lines[n]).None?)
            && SectionsOf(lines)[i].text == SectionText(lines, s)
            && SectionsOf(lines)[i].start == Offset(lines, s.first)
  {
    hide Document, HeadingOf, IsContent, ScanOf, SectionsFor, SectionText, Offset, PathAt;
    ScanOfOrdered(lines);
    ScanGathers(lines);
    SectionsForAt(lines, Spans(lines), i);
  }

  lemma OneChunk(lines: seq<string>, s: Span, e: Chunker.Estimator, c: Chunker.Config, index: nat, w: Chunker.Window)
    requires e.Valid() && c.Valid()
    requires InLines(s, lines) && IsContent(lines[s.last])
    requires forall n | s.first <= n <= s.last :: HeadingOf(lines[n]).None?
    requires w.start < w.end <= |SectionText(lines, s)|
    ensures var chunk := Chunker.ChunkOf(e, c, SectionText(lines, s), Offset(lines, s.first), index, w);
            && (AtOrigin(lines, s, chunk) <==> NoBlankBefore(lines, s, chunk))
            && (AtOrigin(lines, s, chunk) ==>
                  && chunk.startOffset < chunk.endOffset <= |Document(lines)|
                  && Document(lines)[chunk.startOffset..chunk.endOffset] == chunk.text)
  {
    hide Document, Kept, Where, Origin, SectionText, LineAt, HeadingOf, IsContent, PathAt, Offset, NoBlanks,
         Chunker.Estimate, Chunker.OverlapPrefix;
    ChunkOffsets(lines, s, e, c, index, w);
    var start := Offset(lines, s.first);
    var chunk := Chunker.ChunkOf(e, c, SectionText(lines, s), start, index, w);
    assert AtOrigin(lines, s, chunk) <==>
           forall p | w.start <= p < w.end :: Origin(lines, s, p) == chunk.startOffset + (p - w.start);
  }

  lemma Letters()
    ensures IsContent("a") && IsContent("b") && !IsContent("") && HeadingOf("").None?
    ensures ContentLines([]) == [] && Document([]) == ""
  {
    assert !IsSpace("a"[0]) && !IsSpace("b"[0]);
  }

  lemma Prefixes()
    ensures [] + ["a"] == ["a"] && ["a"] + [""] == ["a", ""] && ["a", ""] + ["b"] == ["a", "", "b"]
    ensures ["a"] + ["b"] == ["a", "b"] && ["a"] + [] == ["a"] && ["a", "", "b"][0..3] == ["a", "", "b"]
  {
  }

  lemma Scanning()
    ensures ScanOf(["a", "", "b"]) == Scan([], Some(Span(0, 2)))
  {
    Letters();
    Prefixes();
    assert ScanOf([]) == Scan([], None);
    hide ScanOf;
    ScanStep([], "a");
    ScanStep(["a"], "");
    ScanStep(["a", ""], "b");
  }

  lemma ContentOfThree()
    ensures ContentLines(["a", "", "b"]) == ["a", "b"]
  {
    Letters();
    Prefixes();
    hide *;
    ContentStep([], "a");
    ContentStep(["a"], "");
    ContentStep(["a", ""], "b");
  }

  lemma DocumentOfThree()
    ensures Document(["a", "", "b"]) == "a\n\nb\n"
  {
    Letters();
    Prefixes();
    hide *;
    DocumentStep([], "a");
    DocumentStep(["a"], "");
    DocumentStep(["a", ""], "b");
    assert "" + "a" + "\n" == "a\n" && "a\n" + "" + "\n" == "a\n\n" && "a\n\n" + "b" + "\n" == "a\n\nb\n";
  }

  lemma JoinOfTwo()
    ensures Join(["a", "b"]) == "a\nb"
  {
    Letters();
    Prefixes();
    hide *;
    DocumentStep([], "a");
    JoinStep(["a"], "b");
    assert "" + "a" + "\n" == "a\n" && "a\n" + "b" == "a\nb";
  }

  /** A blank line inside a section shifts what follows: the chunk with all of this section's text has offsets between
      which the document has other characters. */
  lemma BlankShifts()
    ensures var lines := ["a", "", "b"];
            && Spans(lines) == [Span(0, 2)] && Offset(lines, 0) == 0 && SectionText(lines, Span(0, 2)) == "a\nb"
            && |Document(lines)| > 3 && Document(lines)[0..3] != "a\nb"
  {
    Scanning();
    ContentOfThree();
    DocumentOfThree();
    JoinOfTwo();
    Prefixes();
    hide ScanOf, ContentLines, Document, Join;
    assert Close(Scan([], Some(Span(0, 2)))) == [Span(0, 2)];
    OffsetIs(["a", "", "b"], 0);
    assert ["a", "", "b"][..0] == [];
    Letters();
    assert Document(["a", "", "b"])[2] != "a\nb"[2];
  }
}
