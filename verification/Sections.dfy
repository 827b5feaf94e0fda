/** Splitting a normalized document into sections under heading paths. */
module Sections {
  import opened Options
  import opened PyText
  import opened Headings
  import opened Normalizer
  import Utf8

  // ---- Content ----

  predicate IsContent(line: string) {
    HeadingOf(line).None? && !Blank(line)
  }

  function ContentLines(lines: seq<string>): seq<string> {
    if lines == [] then []
    else ContentLines(lines[..|lines| - 1]) + (if IsContent(lines[|lines| - 1]) then [lines[|lines| - 1]] else [])
  }

  // ---- Sections as spans of lines ----

  /** From the first to the last content line under one heading. */
  datatype Span = Span(first: nat, last: nat)

  datatype Scan = Scan(closed: seq<Span>, open: Option<Span>)

  function Close(s: Scan): seq<Span> {
    s.closed + (if s.open.Some? then [s.open.value] else [])
  }

  function Take(s: Scan, n: nat, line: string): Scan {
    if HeadingOf(line).Some? then Scan(Close(s), None)
    else if Blank(line) then s
    else s.(open := Some(Span(if s.open.Some? then s.open.value.first else n, n)))
  }

  function ScanOf(lines: seq<string>): Scan {
    if lines == [] then Scan([], None)
    else Take(ScanOf(lines[..|lines| - 1]), |lines| - 1, lines[|lines| - 1])
  }

  function Spans(lines: seq<string>): seq<Span> {
    Close(ScanOf(lines))
  }

  // ---- What the sections are ----

  datatype Section = Section(path: seq<string>, text: string, start: nat, end: nat)

  /** Where line `n` starts in the document. */
  function Offset(lines: seq<string>, n: nat): nat
    requires n <= |lines|
  {
    |Document(lines[..n])|
  }

  predicate InLines(s: Span, lines: seq<string>) {
    s.first <= s.last < |lines|
  }

  function SectionText(lines: seq<string>, s: Span): string
    requires InLines(s, lines)
  {
    Join(ContentLines(lines[s.first..s.last + 1]))
  }

  function SectionOf(lines: seq<string>, s: Span): Section
    requires InLines(s, lines)
  {
    Section(PathAt(lines[..s.first]), SectionText(lines, s), Offset(lines, s.first),
            Offset(lines, s.last) + |lines[s.last]|)
  }

  // ---- The order of the spans ----

  /** Spans follow each other, begin and end at content lines, and hold no heading. */
  ghost predicate Ordered(lines: seq<string>, spans: seq<Span>) {
    && (forall i | 0 <= i < |spans| ::
          && InLines(spans[i], lines)
          && IsContent(lines[spans[i].first]) && IsContent(lines[spans[i].last])
          && forall n | spans[i].first <= n <= spans[i].last :: HeadingOf(lines[n]).None?)
    && (forall i | 0 <= i < |spans| - 1 :: spans[i].last < spans[i + 1].first)
  }

  ghost predicate ScanOrdered(lines: seq<string>, s: Scan) {
    && Ordered(lines, Close(s))
    && (s.open.Some? ==> forall n | s.open.value.last <= n < |lines| :: HeadingOf(lines[n]).None?)
  }

  lemma TakeOrdered(lines: seq<string>, s: Scan, line: string)
    requires ScanOrdered(lines, s)
    ensures ScanOrdered(lines + [line], Take(s, |lines|, line))
  {
    hide HeadingOf, Blank;
    var longer, s' := lines + [line], Take(s, |lines|, line);
    var before, after := Close(s), Close(s');
    assert forall n | 0 <= n < |lines| :: longer[n] == lines[n];
    if HeadingOf(line).Some? || Blank(line) {
      assert after == before;
    } else if s.open.None? {
      assert after == before + [Span(|lines|, |lines|)];
    } else {
      var k := |s.closed|;
      assert before[k] == s.open.value && after == before[k := s'.open.value];
    }
  }

  lemma {:induction false} ScanOfOrdered(lines: seq<string>)
    ensures ScanOrdered(lines, ScanOf(lines))
  {
    if lines == [] {
      assert ScanOf(lines) == Scan([], None);
    } else {
      hide ScanOf, Take, ScanOrdered;
      var front, line := lines[..|lines| - 1], lines[|lines| - 1];
      assert front + [line] == lines;
      ScanOfOrdered(front);
      ScanStep(front, line);
      TakeOrdered(front, ScanOf(front), line);
    }
  }

  lemma ScanStep(lines: seq<string>, line: string)
    ensures ScanOf(lines + [line]) == Take(ScanOf(lines), |lines|, line)
  {
    assert (lines + [line])[..|lines|] == lines;
  }

  // ---- The spans are as wide as they can be ----

  ghost predicate HeadingBetween(lines: seq<string>, a: nat, b: nat) {
    exists n: nat :: a < n < b && n < |lines| && HeadingOf(lines[n]).Some?
  }

  /** Only headings part the spans. */
  ghost predicate Parted(lines: seq<string>, s: Scan) {
    && (forall i: nat | i + 1 < |Close(s)| :: HeadingBetween(lines, Close(s)[i].last, Close(s)[i + 1].first))
    && (s.open.None? && s.closed != [] ==> HeadingBetween(lines, s.closed[|s.closed| - 1].last, |lines|))
  }

  lemma BetweenStays(lines: seq<string>, line: string, a: nat, b: nat)
    requires HeadingBetween(lines, a, b)
    ensures HeadingBetween(lines + [line], a, b) && HeadingBetween(lines + [line], a, b + 1)
  {
    hide HeadingOf;
    var n: nat :| a < n < b && n < |lines| && HeadingOf(lines[n]).Some?;
    assert HeadingOf((lines + [line])[n]).Some?;
  }

  lemma TakeParted(lines: seq<string>, s: Scan, line: string)
    requires ScanOrdered(lines, s) && Parted(lines, s)
    ensures Parted(lines + [line], Take(s, |lines|, line))
  {
    hide HeadingOf, Blank, HeadingBetween;
    var longer, s' := lines + [line], Take(s, |lines|, line);
    var before, after := Close(s), Close(s');
    forall i: nat | i + 1 < |before| ensures HeadingBetween(longer, before[i].last, before[i + 1].first) {
      BetweenStays(lines, line, before[i].last, before[i + 1].first);
    }
    if s.open.None? && s.closed != [] {
      BetweenStays(lines, line, s.closed[|s.closed| - 1].last, |lines|);
    }
    if HeadingOf(line).Some? {
      assert after == before && s'.closed == before;
      if before != [] { HeadingLast(lines, line, before[|before| - 1].last); }
    } else if Blank(line) {
      assert after == before;
    } else if s.open.None? {
      assert after == before + [Span(|lines|, |lines|)];
    } else {
      Widened(lines, s, line);
    }
  }

  /** Widening the open span leaves where spans begin, and where all but the last end. */
  lemma Widened(lines: seq<string>, s: Scan, line: string)
    requires s.open.Some? && HeadingOf(line).None? && !Blank(line)
    ensures var s' := Take(s, |lines|, line);
            && s'.open.Some? && s'.closed == s.closed && |Close(s')| == |Close(s)|
            && |Close(s)| == |s.closed| + 1 && Close(s')[|s.closed|].first == Close(s)[|s.closed|].first
            && forall i | 0 <= i < |s.closed| :: Close(s')[i] == Close(s)[i]
  {
    hide HeadingOf, Blank;
  }

  lemma HeadingLast(lines: seq<string>, line: string, a: nat)
    requires a < |lines| && HeadingOf(line).Some?
    ensures HeadingBetween(lines + [line], a, |lines + [line]|)
  {
    hide HeadingOf;
    assert HeadingOf((lines + [line])[|lines|]).Some?;
  }

  lemma {:induction false} ScanParted(lines: seq<string>)
    ensures Parted(lines, ScanOf(lines))
  {
    if lines == [] {
      assert ScanOf(lines) == Scan([], None);
    } else {
      hide ScanOf, Take, ScanOrdered, Parted;
      var front, line := lines[..|lines| - 1], lines[|lines| - 1];
      assert front + [line] == lines;
      ScanParted(front);
      ScanOfOrdered(front);
      ScanStep(front, line);
      TakeParted(front, ScanOf(front), line);
    }
  }

  // ---- The spans partition the content ----

  ghost predicate AllInLines(spans: seq<Span>, lines: seq<string>) {
    forall i | 0 <= i < |spans| :: InLines(spans[i], lines)
  }

  /** The content lines the spans hold, in order. */
  ghost function Gather(lines: seq<string>, spans: seq<Span>): seq<string>
    requires AllInLines(spans, lines)
  {
    if spans == [] then []
    else
      var last := spans[|spans| - 1];
      Gather(lines, spans[..|spans| - 1]) + ContentLines(lines[last.first..last.last + 1])
  }

  lemma {:induction false} GatherGrow(lines: seq<string>, line: string, spans: seq<Span>)
    requires AllInLines(spans, lines)
    ensures AllInLines(spans, lines + [line])
    ensures Gather(lines + [line], spans) == Gather(lines, spans)
  {
    hide ContentLines;
    if spans != [] {
      var last := spans[|spans| - 1];
      GatherGrow(lines, line, spans[..|spans| - 1]);
      assert (lines + [line])[last.first..last.last + 1] == lines[last.first..last.last + 1];
    }
  }

  lemma GatherAppend(lines: seq<string>, spans: seq<Span>, span: Span)
    requires AllInLines(spans, lines) && InLines(span, lines)
    ensures AllInLines(spans + [span], lines)
    ensures Gather(lines, spans + [span]) == Gather(lines, spans) + ContentLines(lines[span.first..span.last + 1])
  {
    hide ContentLines;
    assert (spans + [span])[..|spans|] == spans;
  }

  lemma ContentStep(lines: seq<string>, line: string)
    ensures ContentLines(lines + [line]) == ContentLines(lines) + (if IsContent(line) then [line] else [])
  {
    hide HeadingOf, Blank;
    assert (lines + [line])[..|lines|] == lines;
  }

  lemma {:induction false} ContentSkips(lines: seq<string>, a: nat, b: nat)
    requires a <= b <= |lines|
    requires forall n | a <= n < b :: !IsContent(lines[n])
    ensures ContentLines(lines[a..b]) == []
    decreases b
  {
    hide IsContent;
    if a < b {
      ContentSkips(lines, a, b - 1);
      ContentStep(lines[a..b - 1], lines[b - 1]);
      assert lines[a..b - 1] + [lines[b - 1]] == lines[a..b];
    }
  }

  lemma {:induction false} ContentAdds(front: seq<string>, more: seq<string>)
    ensures ContentLines(front + more) == ContentLines(front) + ContentLines(more)
  {
    NoContent();
    hide ContentLines, IsContent;
    if more == [] {
      assert front + more == front;
    } else {
      var init, last := more[..|more| - 1], more[|more| - 1];
      ContentAdds(front, init);
      ContentStep(front + init, last);
      ContentStep(init, last);
      assert front + init + [last] == front + more;
      assert init + [last] == more;
    }
  }

  lemma NoContent()
    ensures ContentLines([]) == []
  {
  }

  /** Between the open span's last line and here there is no content. */
  ghost predicate Quiescent(lines: seq<string>, s: Scan) {
    s.open.Some? ==> forall n | s.open.value.last < n < |lines| :: !IsContent(lines[n])
  }

  ghost predicate Gathers(lines: seq<string>, s: Scan) {
    && Quiescent(lines, s)
    && AllInLines(Close(s), lines)
    && Gather(lines, Close(s)) == ContentLines(lines)
  }

  lemma {:induction false} ScanGathers(lines: seq<string>)
    ensures Gathers(lines, ScanOf(lines))
  {
    if lines == [] {
      NoContent();
      assert ScanOf(lines) == Scan([], None);
    } else {
      hide ScanOf, Gathers, Take;
      var front, line := lines[..|lines| - 1], lines[|lines| - 1];
      assert front + [line] == lines;
      ScanGathers(front);
      ScanStep(front, line);
      if !IsContent(line) {
        OtherGathers(front, ScanOf(front), line);
      } else if ScanOf(front).open.None? {
        NewGathers(front, ScanOf(front), line);
      } else {
        MoreGathers(front, ScanOf(front), line);
      }
    }
  }

  lemma OtherGathers(lines: seq<string>, s: Scan, line: string)
    requires Gathers(lines, s) && !IsContent(line)
    ensures Gathers(lines + [line], Take(s, |lines|, line))
  {
    assert Close(Take(s, |lines|, line)) == Close(s);
    hide HeadingOf, Blank, ContentLines, Gather;
    GatherGrow(lines, line, Close(s));
    ContentStep(lines, line);
  }

  lemma NewGathers(lines: seq<string>, s: Scan, line: string)
    requires Gathers(lines, s) && IsContent(line) && s.open.None?
    ensures Gathers(lines + [line], Take(s, |lines|, line))
  {
    var longer, span := lines + [line], Span(|lines|, |lines|);
    assert Take(s, |lines|, line) == s.(open := Some(span));
    assert Close(Take(s, |lines|, line)) == Close(s) + [span];
    NoContent();
    hide ContentLines, Gather, IsContent, Take;
    GatherGrow(lines, line, Close(s));
    GatherAppend(longer, Close(s), span);
    assert longer[|lines|..|lines| + 1] == [] + [line];
    ContentStep([], line);
    ContentStep(lines, line);
  }

  lemma MoreGathers(lines: seq<string>, s: Scan, line: string)
    requires Gathers(lines, s) && IsContent(line) && s.open.Some?
    ensures Gathers(lines + [line], Take(s, |lines|, line))
  {
    var longer, span := lines + [line], s.open.value;
    var wider := Span(span.first, |lines|);
    var added := if IsContent(line) then [line] else [];
    hide ContentLines, Gather, IsContent, Take, HeadingOf, Blank;
    TakeMore(s, |lines|, line);
    assert Close(s)[|s.closed|] == span;
    assert forall i | 0 <= i < |s.closed| :: Close(s)[i] == s.closed[i];
    hide Close;
    var earlier, held := Gather(lines, s.closed), ContentLines(lines[span.first..span.last + 1]);
    GatherGrow(lines, line, s.closed);
    GatherAppend(longer, s.closed, wider);
    calc {
      Gather(longer, s.closed + [wider]);
      earlier + ContentLines(longer[wider.first..wider.last + 1]);
      { WiderContent(lines, span, line); }
      earlier + (held + added);
      earlier + held + added;
      { GatherAppend(lines, s.closed, span); CloseOpen(s); }
      Gather(lines, Close(s)) + added;
      ContentLines(lines) + added;
      { ContentStep(lines, line); }
      ContentLines(longer);
    }
    CloseOpen(Take(s, |lines|, line));
  }

  lemma CloseOpen(s: Scan)
    requires s.open.Some?
    ensures Close(s) == s.closed + [s.open.value]
  {
  }

  lemma TakeMore(s: Scan, n: nat, line: string)
    requires IsContent(line) && s.open.Some?
    ensures Take(s, n, line) == s.(open := Some(Span(s.open.value.first, n)))
  {
  }

  lemma WiderContent(lines: seq<string>, span: Span, line: string)
    requires InLines(span, lines)
    requires forall n | span.last < n < |lines| :: !IsContent(lines[n])
    ensures ContentLines((lines + [line])[span.first..|lines| + 1]) ==
            ContentLines(lines[span.first..span.last + 1]) + (if IsContent(line) then [line] else [])
  {
    hide ContentLines, IsContent;
    var held, gap := lines[span.first..span.last + 1], lines[span.last + 1..|lines|];
    ContentSkips(lines, span.last + 1, |lines|);
    ContentAdds(held, gap);
    ContentStep(held + gap, line);
    assert held + gap + [line] == (lines + [line])[span.first..|lines| + 1];
  }

  // ---- Offsets ----

  lemma {:induction false} DocumentAdds(a: seq<string>, b: seq<string>)
    ensures Document(a + b) == Document(a) + Document(b)
  {
    assert Document([]) == "";
    hide Document;
    if b == [] {
      assert a + b == a;
    } else {
      var front, last := b[..|b| - 1], b[|b| - 1];
      calc {
        Document(a + b);
        { assert a + b == a + front + [last]; DocumentStep(a + front, last); }
        Document(a + front) + last + "\n";
        { DocumentAdds(a, front); }
        Document(a) + Document(front) + last + "\n";
        { Regroup(Document(a), Document(front), last, "\n"); }
        Document(a) + (Document(front) + last + "\n");
        { DocumentStep(front, last); assert front + [last] == b; }
        Document(a) + Document(b);
      }
    }
  }

  lemma Regroup(a: string, b: string, c: string, d: string)
    ensures a + b + c + d == a + (b + c + d)
    ensures a + b + c + d == a + b + (c + d)
  {
  }

  lemma OffsetStep(lines: seq<string>, n: nat)
    requires n < |lines|
    ensures Offset(lines, n + 1) == Offset(lines, n) + |lines[n]| + 1
  {
    assert lines[..n + 1][..n] == lines[..n];
  }

  lemma {:induction false} OffsetsGrow(lines: seq<string>, m: nat, n: nat)
    requires m <= n <= |lines|
    ensures Offset(lines, m) + (n - m) <= Offset(lines, n)
    decreases n
  {
    hide Offset;
    if m < n {
      OffsetsGrow(lines, m, n - 1);
      OffsetStep(lines, n - 1);
    }
  }

  lemma DocumentStep(lines: seq<string>, line: string)
    ensures Document(lines + [line]) == Document(lines) + line + "\n"
  {
    assert (lines + [line])[..|lines|] == lines;
  }

  lemma JoinStep(lines: seq<string>, line: string)
    ensures Join(lines + [line]) == Document(lines) + line
  {
    assert (lines + [line])[..|lines|] == lines;
  }

  /** The document's text from the start of line `a` to the end of line `b` is those lines, joined. */
  lemma SliceOfDocument(lines: seq<string>, a: nat, b: nat)
    requires a <= b < |lines|
    ensures var start, end := Offset(lines, a), Offset(lines, b) + |lines[b]|;
            && start <= end < |Document(lines)|
            && Document(lines)[start..end] == Join(lines[a..b + 1])
  {
    hide Document, Join;
    var pre, mid, post := lines[..a], lines[a..b], lines[b + 1..];
    assert pre + mid == lines[..b];
    assert mid + [lines[b]] == lines[a..b + 1];
    DocumentAdds(pre, mid);
    JoinStep(mid, lines[b]);
    DocumentAround(lines, b);
    MiddleOf(Document(pre), Document(mid), lines[b], "\n" + Document(post), Document(lines));
  }

  lemma DocumentAround(lines: seq<string>, b: nat)
    requires b < |lines|
    ensures Document(lines) == Document(lines[..b]) + lines[b] + ("\n" + Document(lines[b + 1..]))
  {
    hide Document;
    var pre, upto, post := lines[..b], lines[..b + 1], lines[b + 1..];
    calc {
      Document(lines);
      { assert upto + post == lines; DocumentAdds(upto, post); }
      Document(upto) + Document(post);
      { assert pre + [lines[b]] == upto; DocumentStep(pre, lines[b]); }
      Document(pre) + lines[b] + "\n" + Document(post);
      { Regroup(Document(pre), lines[b], "\n", Document(post)); }
      Document(pre) + lines[b] + ("\n" + Document(post));
    }
  }

  lemma MiddleOf(a: string, b: string, c: string, d: string, whole: string)
    requires whole == (a + b) + c + d
    ensures whole[|a|..|a + b| + |c|] == b + c
  {
    assert whole == a + (b + c) + d;
  }

  // ---- The sections of a document ----

  ghost function SectionsFor(lines: seq<string>, spans: seq<Span>): (r: seq<Section>)
    requires AllInLines(spans, lines)
    ensures |r| == |spans|
  {
    if spans == [] then []
    else SectionsFor(lines, spans[..|spans| - 1]) + [SectionOf(lines, spans[|spans| - 1])]
  }

  lemma {:induction false} SectionsForAt(lines: seq<string>, spans: seq<Span>, i: nat)
    requires AllInLines(spans, lines) && i < |spans|
    ensures SectionsFor(lines, spans)[i] == SectionOf(lines, spans[i])
  {
    hide SectionOf;
    if i < |spans| - 1 { SectionsForAt(lines, spans[..|spans| - 1], i); }
  }

  ghost function SectionsOf(lines: seq<string>): seq<Section> {
    ScanGathers(lines);
    SectionsFor(lines, Spans(lines))
  }

  /** The lines of all section texts, one section after the other. */
  ghost function TextLines(sections: seq<Section>): seq<string> {
    if sections == [] then [] else TextLines(sections[..|sections| - 1]) + Lines(sections[|sections| - 1].text)
  }

  function DropBlank(lines: seq<string>): seq<string> {
    if lines == [] then []
    else DropBlank(lines[..|lines| - 1]) + (if Blank(lines[|lines| - 1]) then [] else [lines[|lines| - 1]])
  }

  lemma {:induction false} NoHeadingsDropBlank(lines: seq<string>)
    requires forall n | 0 <= n < |lines| :: HeadingOf(lines[n]).None?
    ensures DropBlank(lines) == ContentLines(lines)
  {
    hide HeadingOf, Blank;
    if lines != [] { NoHeadingsDropBlank(lines[..|lines| - 1]); }
  }

  ghost predicate AllContent(lines: seq<string>) {
    forall i | 0 <= i < |lines| :: IsContent(lines[i])
  }

  lemma {:induction false} ContentIsContent(lines: seq<string>)
    requires AllOneLine(lines)
    ensures AllOneLine(ContentLines(lines)) && AllContent(ContentLines(lines))
  {
    hide IsContent, OneLine;
    if lines != [] { ContentIsContent(lines[..|lines| - 1]); }
  }

  lemma ContentNotEmpty(line: string)
    requires IsContent(line)
    ensures line != ""
  {
    hide HeadingOf;
    assert line == "" ==> Blank(line);
  }

  lemma LastContent(lines: seq<string>)
    requires lines != [] && IsContent(lines[|lines| - 1])
    ensures ContentLines(lines) != []
  {
    hide IsContent, ContentLines;
    assert lines[..|lines| - 1] + [lines[|lines| - 1]] == lines;
    ContentStep(lines[..|lines| - 1], lines[|lines| - 1]);
  }

  /** The section begins with line `first`, under the path of the headings before it. */
  ghost predicate Begins(lines: seq<string>, s: Section, first: nat) {
    first < |lines| && s.start == |Document(lines[..first])| && HeadedBy(lines[..first], s.path)
  }

  /** What one section records: its text is its slice of the document without the blank lines, and its path is made by
      the headings before it. */
  ghost predicate Faithful(lines: seq<string>, s: Section) {
    && s.start < s.end <= |Document(lines)|
    && s.text != ""
    && Lines(s.text) == DropBlank(Lines(Document(lines)[s.start..s.end]))
    && |s.path| <= 6
    && exists first: nat :: Begins(lines, s, first)
  }

  lemma SpanBegins(lines: seq<string>, s: Span)
    requires InLines(s, lines)
    ensures Begins(lines, SectionOf(lines, s), s.first)
  {
    hide Document, PathAt, SectionText, HeadedBy;
    PathIs(lines[..s.first]);
  }

  lemma SpanFaithful(lines: seq<string>, s: Span)
    requires AllOneLine(lines) && InLines(s, lines) && IsContent(lines[s.last])
    requires forall n | s.first <= n <= s.last :: HeadingOf(lines[n]).None?
    ensures Faithful(lines, SectionOf(lines, s))
    ensures Lines(SectionText(lines, s)) == ContentLines(lines[s.first..s.last + 1])
  {
    hide Document, Join, Lines, HeadingOf, IsContent, Blank, ContentLines, PathAt, DropBlank, Begins;
    SpanBegins(lines, s);
    var held := lines[s.first..s.last + 1];
    var kept := ContentLines(held);
    assert held[|held| - 1] == lines[s.last];
    ContentNotEmpty(lines[s.last]);
    SliceOfDocument(lines, s.first, s.last);
    LinesOfJoin(held);
    NoHeadingsDropBlank(held);
    ContentIsContent(held);
    LastContent(held);
    ContentNotEmpty(kept[|kept| - 1]);
    LinesOfJoin(kept);
    PathBounded(lines[..s.first]);
    NoLines();
    JoinLonger(held);
  }

  lemma NoLines()
    ensures Lines("") == []
  {
  }

  lemma JoinLonger(lines: seq<string>)
    requires lines != [] && lines[|lines| - 1] != ""
    ensures Join(lines) != ""
  {
  }

  /** A whole heading line is between the two. */
  ghost predicate HeadingParts(lines: seq<string>, s: Section, t: Section) {
    exists n: nat ::
      n < |lines| && Heads(lines[n]) && s.end < |Document(lines[..n])| && |Document(lines[..n])| + |lines[n]| < t.start
  }

  lemma SpansParted(lines: seq<string>, s: Span, t: Span)
    requires InLines(s, lines) && InLines(t, lines) && HeadingBetween(lines, s.last, t.first)
    ensures HeadingParts(lines, SectionOf(lines, s), SectionOf(lines, t))
  {
    hide HeadingOf, Heads, Document, SectionText, PathAt;
    var n: nat :| s.last < n < t.first && n < |lines| && HeadingOf(lines[n]).Some?;
    HeadingIs(lines[n]);
    OffsetStep(lines, s.last);
    OffsetsGrow(lines, s.last + 1, n);
    OffsetStep(lines, n);
    OffsetsGrow(lines, n + 1, t.first);
  }

  /** Every content line is in exactly one section, in order, the sections' spans do not overlap, and only headings part
      them. */
  lemma SectionsPartition(lines: seq<string>)
    requires AllOneLine(lines)
    ensures var sections := SectionsOf(lines);
            && TextLines(sections) == ContentLines(lines)
            && (forall i | 0 <= i < |sections| :: Faithful(lines, sections[i]))
            && (forall i | 0 <= i < |sections| - 1 :: sections[i].end < sections[i + 1].start)
            && (forall i | 0 <= i < |sections| - 1 :: HeadingParts(lines, sections[i], sections[i + 1]))
  {
    hide ContentLines, Document, HeadingOf, IsContent, Faithful, SectionOf, Gather, TextLines, ScanOf, Close, Heads,
         HeadingParts, HeadingBetween;
    ScanOfOrdered(lines);
    ScanParted(lines);
    ScanGathers(lines);
    var spans := Spans(lines);
    SectionsGather(lines, spans);
    forall i | 0 <= i < |spans| ensures Faithful(lines, SectionsOf(lines)[i]) {
      SectionsForAt(lines, spans, i);
      SpanFaithful(lines, spans[i]);
    }
    forall i | 0 <= i < |spans| - 1 ensures SectionsOf(lines)[i].end < SectionsOf(lines)[i + 1].start {
      SectionsForAt(lines, spans, i);
      SectionsForAt(lines, spans, i + 1);
      SpansApart(lines, spans[i], spans[i + 1]);
    }
    forall i | 0 <= i < |spans| - 1
      ensures HeadingParts(lines, SectionsOf(lines)[i], SectionsOf(lines)[i + 1])
    {
      SectionsForAt(lines, spans, i);
      SectionsForAt(lines, spans, i + 1);
      SpansParted(lines, spans[i], spans[i + 1]);
    }
  }

  lemma SpansApart(lines: seq<string>, s: Span, t: Span)
    requires InLines(s, lines) && InLines(t, lines) && s.last < t.first
    ensures SectionOf(lines, s).end < SectionOf(lines, t).start
  {
    hide Offset, SectionText, PathAt;
    OffsetStep(lines, s.last);
    OffsetsGrow(lines, s.last + 1, t.first);
  }

  lemma {:induction false} SectionsGather(lines: seq<string>, spans: seq<Span>)
    requires AllOneLine(lines) && Ordered(lines, spans) && AllInLines(spans, lines)
    ensures TextLines(SectionsFor(lines, spans)) == Gather(lines, spans)
  {
    hide ContentLines, Document, HeadingOf, IsContent, Lines, SectionOf, SectionsFor, TextLines, Gather;
    if spans == [] {
      SectionsForNone(lines);
    } else {
      var front, last := spans[..|spans| - 1], spans[|spans| - 1];
      assert front + [last] == spans;
      SectionsGather(lines, front);
      SpanFaithful(lines, last);
      SectionsForStep(lines, front, last);
      TextLinesStep(SectionsFor(lines, front), SectionOf(lines, last));
      GatherAppend(lines, front, last);
      SectionOfText(lines, last);
    }
  }

  lemma SectionsForNone(lines: seq<string>)
    ensures TextLines(SectionsFor(lines, [])) == Gather(lines, []) == []
  {
  }

  lemma SectionOfText(lines: seq<string>, s: Span)
    requires InLines(s, lines)
    ensures SectionOf(lines, s).text == SectionText(lines, s)
  {
  }

  lemma SectionsForStep(lines: seq<string>, spans: seq<Span>, span: Span)
    requires AllInLines(spans, lines) && InLines(span, lines)
    ensures AllInLines(spans + [span], lines)
    ensures SectionsFor(lines, spans + [span]) == SectionsFor(lines, spans) + [SectionOf(lines, span)]
  {
    hide SectionOf;
    assert (spans + [span])[..|spans|] == spans;
  }

  lemma TextLinesStep(sections: seq<Section>, section: Section)
    ensures TextLines(sections + [section]) == TextLines(sections) + Lines(section.text)
  {
    hide Lines;
    assert (sections + [section])[..|sections|] == sections;
  }
}
