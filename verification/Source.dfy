/** The loop that cuts a source into sections, with its limits. */
module Source {
  import opened Options
  import opened PyText
  import opened Normalizer
  import opened Headings
  import opened Sections
  import Markdown
  import Utf8

  datatype Limits = Limits(maxTextBytes: nat, maxLines: nat, maxSections: nat, maxDepth: nat, maxStringBytes: nat,
                           maxWarnings: nat)

  datatype SourceError =
    | UnsupportedKind | TitleTooLong | IdTooLong | TooManyWarnings
    | DocumentTooLong | DocumentTooManyLines | TooManySections | PathTooDeep | HeadingTooLong | SectionTooLong

  ghost predicate HeadingFits(lines: seq<string>, n: nat, limits: Limits)
    requires n < |lines|
  {
    HeadingOf(lines[n]).Some? ==>
      |PathAt(lines[..n + 1])| <= limits.maxDepth && Bytes(HeadingOf(lines[n]).value.text) <= limits.maxStringBytes
  }

  /** The documents that are not refused. */
  ghost predicate Acceptable(lines: seq<string>, limits: Limits) {
    && |lines| <= limits.maxLines
    && |Spans(lines)| <= limits.maxSections
    && (forall n | 0 <= n < |lines| :: HeadingFits(lines, n, limits))
    && forall i | 0 <= i < |Spans(lines)| ::
         InLines(Spans(lines)[i], lines) && Bytes(SectionText(lines, Spans(lines)[i])) <= limits.maxTextBytes
  }

  // ---- What the loop's variables hold ----

  /** After `n` lines the spans found so far are where they will end up, except that the last may still widen. */
  lemma {:induction false} SpansPersist(lines: seq<string>, n: nat)
    requires n <= |lines|
    ensures Extends(Close(ScanOf(lines[..n])), Spans(lines))
    decreases |lines| - n
  {
    hide ScanOf, Take, Close, Extends;
    if n == |lines| {
      assert lines[..n] == lines;
      ExtendsItself(Spans(lines));
    } else {
      SpansPersist(lines, n + 1);
      assert lines[..n] + [lines[n]] == lines[..n + 1];
      ScanStep(lines[..n], lines[n]);
      ScanOfOrdered(lines[..n]);
      TakeExtends(lines[..n], ScanOf(lines[..n]), lines[n]);
      ExtendsOnward(Close(ScanOf(lines[..n])), Close(ScanOf(lines[..n + 1])), Spans(lines));
    }
  }

  ghost predicate Extends(a: seq<Span>, b: seq<Span>) {
    |a| <= |b| && forall i | 0 <= i < |a| :: a[i].first == b[i].first && a[i].last <= b[i].last
  }

  lemma ExtendsItself(a: seq<Span>)
    ensures Extends(a, a)
  {
  }

  lemma ExtendsOnward(a: seq<Span>, b: seq<Span>, c: seq<Span>)
    requires Extends(a, b) && Extends(b, c)
    ensures Extends(a, c)
  {
  }

  lemma TakeExtends(lines: seq<string>, s: Scan, line: string)
    requires ScanOrdered(lines, s)
    ensures Extends(Close(s), Close(Take(s, |lines|, line)))
  {
    hide HeadingOf, Blank;
    var before, after := Close(s), Close(Take(s, |lines|, line));
    if HeadingOf(line).None? && !Blank(line) && s.open.Some? {
      assert before[|s.closed|] == s.open.value;
      assert after == before[|s.closed| := Span(s.open.value.first, |lines|)];
    }
  }

  /** The variables of an open section; `path` is the heading path in force. */
  ghost predicate Holds(lines: seq<string>, n: nat, text: seq<string>, start: Option<nat>, end: nat, bytes: nat)
    requires n <= |lines|
  {
    match ScanOf(lines[..n]).open
    case None => text == [] && start == None && end == 0 && bytes == 0
    case Some(span) =>
      && InLines(span, lines) && span.last < n && text != []
      && start == Some(Offset(lines, span.first))
      && end == Offset(lines, span.last) + |lines[span.last]|
      && text == ContentLines(lines[span.first..n]) == ContentLines(lines[span.first..span.last + 1])
      && bytes == Bytes(Join(text))
      && PathAt(lines[..n]) == PathAt(lines[..span.first])
  }

  ghost predicate Tracks(lines: seq<string>, n: nat, sections: seq<Section>, text: seq<string>, start: Option<nat>,
                         end: nat, bytes: nat)
    requires n <= |lines|
  {
    && Holds(lines, n, text, start, end, bytes)
    && AllInLines(ScanOf(lines[..n]).closed, lines)
    && sections == SectionsFor(lines, ScanOf(lines[..n]).closed)
  }

  lemma ContentFrom(lines: seq<string>, first: nat, n: nat)
    requires first <= n < |lines|
    ensures ContentLines(lines[first..n + 1]) ==
            ContentLines(lines[first..n]) + (if IsContent(lines[n]) then [lines[n]] else [])
  {
    hide ContentLines, IsContent;
    ContentStep(lines[first..n], lines[n]);
    assert lines[first..n] + [lines[n]] == lines[first..n + 1];
  }

  lemma ScanNext(lines: seq<string>, n: nat)
    requires n < |lines|
    ensures ScanOf(lines[..n + 1]) == Take(ScanOf(lines[..n]), n, lines[n])
  {
    hide ScanOf, Take;
    assert lines[..n] + [lines[n]] == lines[..n + 1];
    ScanStep(lines[..n], lines[n]);
  }

  lemma TracksBlank(lines: seq<string>, n: nat, sections: seq<Section>, text: seq<string>, start: Option<nat>, end: nat,
                    bytes: nat)
    requires n < |lines| && Tracks(lines, n, sections, text, start, end, bytes)
    requires HeadingOf(lines[n]).None? && Blank(lines[n])
    ensures Tracks(lines, n + 1, sections, text, start, end, bytes)
  {
    hide ScanOf, Take, ContentLines, HeadingOf, Blank, Bytes, Join, PathAt, Offset, SectionsFor;
    ScanNext(lines, n);
    TakeBlank(ScanOf(lines[..n]), n, lines[n]);
    PathStep(lines, n);
    if ScanOf(lines[..n]).open.Some? { ContentFrom(lines, ScanOf(lines[..n]).open.value.first, n); }
  }

  lemma TakeBlank(s: Scan, n: nat, line: string)
    requires HeadingOf(line).None? && Blank(line)
    ensures Take(s, n, line) == s && !IsContent(line)
  {
  }

  lemma TracksFirst(lines: seq<string>, n: nat, sections: seq<Section>)
    requires n < |lines| && Tracks(lines, n, sections, [], None, 0, 0)
    requires IsContent(lines[n])
    ensures Tracks(lines, n + 1, sections, [lines[n]], Some(Offset(lines, n)), Offset(lines, n) + |lines[n]|,
                   Bytes(lines[n]))
  {
    ScanNext(lines, n);
    assert ScanOf(lines[..n + 1]) == ScanOf(lines[..n]).(open := Some(Span(n, n)));
    JoinOne(lines[n]);
    NoContent();
    hide ScanOf, Take, ContentLines, Bytes, Join, PathAt, Offset, SectionsFor, HeadingOf, Blank;
    PathStep(lines, n);
    ContentFrom(lines, n, n);
    assert lines[n..n] == [];
  }

  lemma JoinOne(line: string)
    ensures Join([line]) == line
  {
    assert Document([][..0]) == "";
  }

  lemma JoinBytes(lines: seq<string>, line: string)
    requires lines != []
    ensures Bytes(Join(lines + [line])) == Bytes(Join(lines)) + Bytes(line) + 1
  {
    var front, last := lines[..|lines| - 1], lines[|lines| - 1];
    assert front + [last] == lines;
    OneByte();
    hide Utf8.Encode, Join, Document;
    JoinStep(lines, line);
    DocumentStep(front, last);
    JoinStep(front, last);
    Utf8.EncodeAppend(Document(lines), line);
    Utf8.EncodeAppend(Join(lines), "\n");
  }

  lemma OneByte()
    ensures Bytes("\n") == 1
  {
    assert "\n"[1..] == "";
  }

  lemma TracksMore(lines: seq<string>, n: nat, sections: seq<Section>, text: seq<string>, start: Option<nat>, end: nat,
                   bytes: nat)
    requires n < |lines| && Tracks(lines, n, sections, text, start, end, bytes)
    requires IsContent(lines[n]) && start.Some?
    ensures Tracks(lines, n + 1, sections, text + [lines[n]], start, Offset(lines, n) + |lines[n]|,
                   bytes + Bytes(lines[n]) + 1)
  {
    var before := ScanOf(lines[..n]);
    ScanNext(lines, n);
    assert ScanOf(lines[..n + 1]) == before.(open := Some(Span(before.open.value.first, n)));
    hide ScanOf, Take, ContentLines, Bytes, Join, PathAt, Offset, SectionsFor, HeadingOf, Blank;
    PathStep(lines, n);
    ContentFrom(lines, before.open.value.first, n);
    JoinBytes(text, lines[n]);
  }

  /** `_append_section` before a heading or at the end. */
  ghost function Appended(lines: seq<string>, n: nat, sections: seq<Section>, text: seq<string>, start: Option<nat>,
                          end: nat): seq<Section>
    requires n <= |lines|
  {
    if text == [] then sections
    else sections + [Section(PathAt(lines[..n]), Join(text), if start.Some? then start.value else 0, end)]
  }

  lemma AppendCloses(lines: seq<string>, n: nat, sections: seq<Section>, text: seq<string>, start: Option<nat>,
                     end: nat, bytes: nat)
    requires n <= |lines| && Tracks(lines, n, sections, text, start, end, bytes)
    ensures AllInLines(Close(ScanOf(lines[..n])), lines)
    ensures Appended(lines, n, sections, text, start, end) == SectionsFor(lines, Close(ScanOf(lines[..n])))
  {
    hide ScanOf, ContentLines, Bytes, Join, PathAt, Offset, SectionsFor;
    var scan := ScanOf(lines[..n]);
    if scan.open.Some? {
      assert SectionOf(lines, scan.open.value) == Section(PathAt(lines[..n]), Join(text), start.value, end);
      hide SectionOf;
      SectionsForStep(lines, scan.closed, scan.open.value);
    } else {
      assert Close(scan) == scan.closed;
    }
  }

  lemma TracksHeading(lines: seq<string>, n: nat, sections: seq<Section>, text: seq<string>, start: Option<nat>,
                      end: nat, bytes: nat)
    requires n < |lines| && Tracks(lines, n, sections, text, start, end, bytes)
    requires HeadingOf(lines[n]).Some?
    ensures Tracks(lines, n + 1, Appended(lines, n, sections, text, start, end), [], None, 0, 0)
  {
    AppendCloses(lines, n, sections, text, start, end, bytes);
    ScanNext(lines, n);
    hide ScanOf, ContentLines, Bytes, Join, PathAt, Offset, SectionsFor, HeadingOf, Appended;
  }

  // ---- The limits met so far ----

  ghost predicate Within(lines: seq<string>, n: nat, limits: Limits)
    requires n <= |lines|
  {
    && n <= limits.maxLines
    && |ScanOf(lines[..n]).closed| <= limits.maxSections
    && (forall m | 0 <= m < n :: HeadingFits(lines, m, limits))
    && AllInLines(Close(ScanOf(lines[..n])), lines)
    && SpansFit(lines, Close(ScanOf(lines[..n])), limits)
  }

  ghost predicate SpansFit(lines: seq<string>, spans: seq<Span>, limits: Limits)
    requires AllInLines(spans, lines)
  {
    forall i | 0 <= i < |spans| :: Bytes(SectionText(lines, spans[i])) <= limits.maxTextBytes
  }

  /** A section that is already too long, or one too many, refuses the whole document. */
  lemma RefusedEarly(lines: seq<string>, n: nat, limits: Limits)
    requires n <= |lines|
    requires AllInLines(Close(ScanOf(lines[..n])), lines)
    requires |Close(ScanOf(lines[..n]))| > limits.maxSections || !SpansFit(lines, Close(ScanOf(lines[..n])), limits)
    ensures !Acceptable(lines, limits)
  {
    hide ScanOf, Close, Bytes, SectionText, HeadingFits;
    SpansPersist(lines, n);
    var spans, all := Close(ScanOf(lines[..n])), Spans(lines);
    ScanGathers(lines);
    if !SpansFit(lines, spans, limits) {
      var i :| 0 <= i < |spans| && Bytes(SectionText(lines, spans[i])) > limits.maxTextBytes;
      WiderText(lines, spans[i], all[i]);
    }
  }

  lemma WiderText(lines: seq<string>, s: Span, t: Span)
    requires InLines(s, lines) && InLines(t, lines) && s.first == t.first && s.last <= t.last
    ensures Bytes(SectionText(lines, s)) <= Bytes(SectionText(lines, t))
  {
    hide ContentLines, Bytes, Join;
    var short, more := lines[s.first..s.last + 1], lines[s.last + 1..t.last + 1];
    assert lines[t.first..t.last + 1] == short + more;
    ContentAdds(short, more);
    JoinGrows(ContentLines(short), ContentLines(more));
  }

  lemma JoinEmpty()
    ensures Bytes(Join([])) == 0
  {
  }

  lemma {:induction false} JoinGrows(a: seq<string>, b: seq<string>)
    ensures Bytes(Join(a)) <= Bytes(Join(a + b))
  {
    JoinEmpty();
    hide Bytes, Join;
    if b == [] {
      assert a + b == a;
    } else if a != [] {
      var front, last := b[..|b| - 1], b[|b| - 1];
      JoinGrows(a, front);
      JoinBytes(a + front, last);
      assert a + front + [last] == a + b;
    }
  }

  lemma WithinNext(lines: seq<string>, n: nat, limits: Limits, sections: seq<Section>, text: seq<string>,
                   start: Option<nat>, end: nat, bytes: nat)
    requires n < |lines| && Within(lines, n, limits) && n < limits.maxLines
    requires HeadingFits(lines, n, limits)
    requires |ScanOf(lines[..n + 1]).closed| <= limits.maxSections
    requires Tracks(lines, n + 1, sections, text, start, end, bytes) && bytes <= limits.maxTextBytes
    ensures Within(lines, n + 1, limits)
  {
    hide ScanOf, ContentLines, Bytes, Join, PathAt, Offset, SectionsFor, HeadingOf, Take, HeadingFits;
    ScanNext(lines, n);
    SpansKept(lines, n, limits, text);
  }

  lemma SpansKept(lines: seq<string>, n: nat, limits: Limits, text: seq<string>)
    requires n < |lines| && Within(lines, n, limits)
    requires ScanOf(lines[..n + 1]).open.Some? ==>
               InLines(ScanOf(lines[..n + 1]).open.value, lines)
               && Bytes(SectionText(lines, ScanOf(lines[..n + 1]).open.value)) <= limits.maxTextBytes
    ensures AllInLines(Close(ScanOf(lines[..n + 1])), lines)
    ensures SpansFit(lines, Close(ScanOf(lines[..n + 1])), limits)
  {
    ScanNext(lines, n);
    hide ScanOf, Bytes, HeadingOf, Blank, HeadingFits, SectionText;
    var before, after := ScanOf(lines[..n]), ScanOf(lines[..n + 1]);
    forall i | 0 <= i < |Close(after)|
      ensures InLines(Close(after)[i], lines) && Bytes(SectionText(lines, Close(after)[i])) <= limits.maxTextBytes
    {
      if i < |after.closed| {
        assert Close(after)[i] == after.closed[i] == Close(before)[i];
      }
    }
  }

  lemma AllWithin(lines: seq<string>, limits: Limits)
    requires Within(lines, |lines|, limits) && |Spans(lines)| <= limits.maxSections
    ensures Acceptable(lines, limits)
  {
    hide ScanOf, Bytes, HeadingFits, SectionText, Close;
    assert lines[..|lines|] == lines;
  }

  // ---- Where the loop starts and stops ----

  lemma Beginning(lines: seq<string>, limits: Limits)
    ensures Tracks(lines, 0, [], [], None, 0, 0) && Within(lines, 0, limits)
    ensures PathAt(lines[..0]) == [] && Offset(lines, 0) == 0
  {
    assert ScanOf(lines[..0]) == Scan([], None);
    assert Document(lines[..0]) == "";
  }

  lemma LinesAre(text: string)
    ensures LinesFrom(text, 0) == Lines(text) == Lines(text)[0..]
  {
  }

  lemma TooMany(lines: seq<string>, limits: Limits)
    requires |lines| > limits.maxLines
    ensures !Acceptable(lines, limits)
  {
  }

  lemma HeadingRefused(lines: seq<string>, n: nat, limits: Limits)
    requires n < |lines| && HeadingOf(lines[n]).Some?
    requires || |PathAt(lines[..n + 1])| > limits.maxDepth
             || Bytes(HeadingOf(lines[n]).value.text) > limits.maxStringBytes
    ensures !Acceptable(lines, limits)
  {
    hide HeadingOf, PathAt, Bytes, ScanOf, Close, SectionText;
    assert !HeadingFits(lines, n, limits);
  }

  lemma TracksNothing(lines: seq<string>, n: nat, sections: seq<Section>, text: seq<string>, start: Option<nat>,
                      end: nat, bytes: nat)
    requires n <= |lines| && Tracks(lines, n, sections, text, start, end, bytes) && start.None?
    ensures text == [] && end == 0 && bytes == 0
  {
    hide ScanOf, ContentLines, Bytes, Join, PathAt, Offset, SectionsFor;
  }

  lemma ClosedCount(lines: seq<string>, n: nat, sections: seq<Section>, text: seq<string>, start: Option<nat>, end: nat,
                    bytes: nat)
    requires n <= |lines| && Tracks(lines, n, sections, text, start, end, bytes)
    ensures |sections| == |ScanOf(lines[..n]).closed|
    ensures |Close(ScanOf(lines[..n]))| == |sections| + (if text == [] then 0 else 1)
  {
    hide ScanOf, ContentLines, Bytes, Join, PathAt, Offset, SectionsFor;
  }

  lemma TextRefused(lines: seq<string>, n: nat, sections: seq<Section>, text: seq<string>, start: Option<nat>, end: nat,
                    bytes: nat, limits: Limits)
    requires n <= |lines| && Tracks(lines, n, sections, text, start, end, bytes) && bytes > limits.maxTextBytes
    ensures !Acceptable(lines, limits)
  {
    hide ScanOf, ContentLines, Bytes, Join, PathAt, Offset, SectionsFor, Acceptable;
    AppendCloses(lines, n, sections, text, start, end, bytes);
    var scan := ScanOf(lines[..n]);
    assert Close(scan)[|scan.closed|] == scan.open.value;
    assert Bytes(SectionText(lines, scan.open.value)) == bytes;
    RefusedEarly(lines, n, limits);
  }

  // ---- The loop ----

  /** The loop of `normalize_source` over the lines of a normalized text. */
  method CutSections(normalized: string, limits: Limits) returns (sections: seq<Section>, error: Option<SourceError>)
    ensures error.None? <==> Acceptable(Lines(normalized), limits)
    ensures error.None? ==> sections == SectionsOf(Lines(normalized))
  {
    ghost var all := Lines(normalized);
    hide LinesFrom, Lines, HeadingOf, Blank, Bytes, Join, PathAt, Tracks, Within, Acceptable, Enter, Offset,
         SectionsFor, ScanOf, Close, SpansFit, SectionText;
    sections := [];
    var path: seq<string> := [];
    var text: seq<string> := [];
    var start: Option<nat> := None;
    var end: nat, bytes: nat, offset: nat, at: nat, count: nat := 0, 0, 0, 0, 0;
    Beginning(all, limits);
    EndOfLines(normalized);
    LinesAre(normalized);
    while at < |normalized|
      invariant at <= |normalized| && count <= |all|
      invariant LinesFrom(normalized, at) == all[count..]
      invariant path == PathAt(all[..count]) && offset == Offset(all, count)
      invariant Tracks(all, count, sections, text, start, end, bytes)
      invariant Within(all, count, limits) && |sections| <= limits.maxSections
      decreases |normalized| - at
    {
      var stop := FindNewline(normalized, at);
      LinesFromStep(normalized, at);
      var line := normalized[at..stop];
      assert all[count] == all[count..][0] == line;
      assert all[count..][1..] == all[count + 1..];
      if count + 1 > limits.maxLines {
        TooMany(all, limits);
        return [], Some(DocumentTooManyLines);
      }
      PathStep(all, count);
      OffsetStep(all, count);
      var heading := HeadingOf(line);
      if heading.Some? {
        ghost var appended := Appended(all, count, sections, text, start, end);
        TracksHeading(all, count, sections, text, start, end, bytes);
        AppendCloses(all, count, sections, text, start, end, bytes);
        if text != [] {
          if |sections| >= limits.maxSections {
            RefusedEarly(all, count, limits);
            return [], Some(TooManySections);
          }
          sections := sections + [Section(path, Join(text), if start.Some? then start.value else 0, end)];
        }
        assert sections == appended;
        path := Enter(path, heading.value);
        if |path| > limits.maxDepth {
          HeadingRefused(all, count, limits);
          return [], Some(PathTooDeep);
        }
        if Bytes(heading.value.text) > limits.maxStringBytes {
          HeadingRefused(all, count, limits);
          return [], Some(HeadingTooLong);
        }
        text, start, end, bytes := [], None, 0, 0;
      } else {
        if Blank(line) {
          TracksBlank(all, count, sections, text, start, end, bytes);
        } else if start.None? {
          TracksNothing(all, count, sections, text, start, end, bytes);
          TracksFirst(all, count, sections);
          assert text + [line] == [line];
          start := Some(offset);
          text := text + [line];
          end := offset + |line|;
          bytes := Bytes(line);
        } else {
          TracksMore(all, count, sections, text, start, end, bytes);
          text := text + [line];
          end := offset + |line|;
          bytes := bytes + Bytes(line) + 1;
        }
        if bytes > limits.maxTextBytes {
          TextRefused(all, count + 1, sections, text, start, end, bytes, limits);
          return [], Some(SectionTooLong);
        }
      }
      ClosedCount(all, count + 1, sections, text, start, end, bytes);
      WithinNext(all, count, limits, sections, text, start, end, bytes);
      offset := offset + |line| + 1;
      count := count + 1;
      at := if stop == |normalized| then stop else stop + 1;
    }
    assert all[..count] == all;
    AppendCloses(all, count, sections, text, start, end, bytes);
    ClosedCount(all, count, sections, text, start, end, bytes);
    if text != [] {
      if |sections| >= limits.maxSections {
        RefusedEarly(all, count, limits);
        return [], Some(TooManySections);
      }
      sections := sections + [Section(path, Join(text), if start.Some? then start.value else 0, end)];
    }
    AllWithin(all, limits);
    error := None;
  }

  /** The same told by the headings and the sections: few enough lines and sections, no path too deep, and no heading
      and no section too long. */
  lemma AcceptableIs(lines: seq<string>, limits: Limits)
    ensures Acceptable(lines, limits) <==>
              && |lines| <= limits.maxLines && |SectionsOf(lines)| <= limits.maxSections
              && (forall n, level: nat, title: string | 0 <= n < |lines| && IsHeading(lines[n], level, title) ::
                    |PathAt(lines[..n + 1])| <= limits.maxDepth && |Utf8.Encode(title)| <= limits.maxStringBytes)
              && (forall i | 0 <= i < |SectionsOf(lines)| ::
                    |Utf8.Encode(SectionsOf(lines)[i].text)| <= limits.maxTextBytes)
  {
    hide Utf8.Encode, HeadingOf, IsHeading, PathAt, ScanOf, Close, SectionText, SectionsFor, HeadingFits;
    ScanGathers(lines);
    forall n | 0 <= n < |lines|
      ensures HeadingFits(lines, n, limits) <==>
                forall level: nat, title: string | IsHeading(lines[n], level, title) ::
                  |PathAt(lines[..n + 1])| <= limits.maxDepth && |Utf8.Encode(title)| <= limits.maxStringBytes
    {
      HeadingFitsIs(lines, n, limits);
    }
    forall i | 0 <= i < |Spans(lines)| ensures SectionsOf(lines)[i].text == SectionText(lines, Spans(lines)[i]) {
      SectionsForAt(lines, Spans(lines), i);
      SectionOfText(lines, Spans(lines)[i]);
    }
  }

  lemma HeadingFitsIs(lines: seq<string>, n: nat, limits: Limits)
    requires n < |lines|
    ensures HeadingFits(lines, n, limits) <==>
              forall level: nat, title: string | IsHeading(lines[n], level, title) ::
                |PathAt(lines[..n + 1])| <= limits.maxDepth && |Utf8.Encode(title)| <= limits.maxStringBytes
  {
    HeadingIs(lines[n]);
    hide Utf8.Encode, HeadingOf, IsHeading, PathAt, Heads;
  }

  datatype Kind = MarkdownSource | TextSource | OtherSource

  /** The sources that are not refused. */
  ghost predicate Admissible(text: string, kind: Kind, title: string, id: string, limits: Limits) {
    && !kind.OtherSource?
    && Bytes(text) <= limits.maxTextBytes
    && Bytes(title) <= limits.maxStringBytes && Bytes(id) <= limits.maxStringBytes
    && |Lines(Decoded(text))| <= limits.maxLines
    && (kind.MarkdownSource? ==> Markdown.WarningsFit(NormalLines(text), limits.maxWarnings))
    && Acceptable(NormalLines(text), limits)
  }

  /** `normalize_source`: the passes over the normalized lines never meet the line limit. */
  method NormalizeSource(text: string, kind: Kind, title: string, id: string, limits: Limits)
    returns (sections: seq<Section>, warnings: seq<nat>, error: Option<SourceError>)
    ensures error.None? <==> Admissible(text, kind, title, id, limits)
    ensures error.None? <==>
              && (kind == MarkdownSource || kind == TextSource)
              && |Utf8.Encode(text)| <= limits.maxTextBytes && |Lines(Decoded(text))| <= limits.maxLines
              && |Utf8.Encode(title)| <= limits.maxStringBytes && |Utf8.Encode(id)| <= limits.maxStringBytes
              && (kind == MarkdownSource ==> Markdown.WarningsFit(NormalLines(text), limits.maxWarnings))
              && Acceptable(NormalLines(text), limits)
    ensures error.None? ==>
              && sections == SectionsOf(NormalLines(text))
              && TextLines(sections) == ContentLines(NormalLines(text))
              && (forall i | 0 <= i < |sections| :: Faithful(NormalLines(text), sections[i]))
              && forall i | 0 <= i < |sections| - 1 :: HeadingParts(NormalLines(text), sections[i], sections[i + 1])
    ensures error.None? ==>
              warnings == if kind.MarkdownSource? then Markdown.Warnings(NormalLines(text)) else []
  {
    hide Utf8.Encode, Lines, Decoded, NormalLines, Document, Acceptable, SectionsOf, TextLines, ContentLines,
         Faithful, HeadingParts, Markdown.Warnings, Markdown.WarningsFit;
    sections, warnings := [], [];
    if kind.OtherSource? { return [], [], Some(UnsupportedKind); }
    if Bytes(text) > limits.maxTextBytes { return [], [], Some(DocumentTooLong); }
    if Bytes(title) > limits.maxStringBytes { return [], [], Some(TitleTooLong); }
    if Bytes(id) > limits.maxStringBytes { return [], [], Some(IdTooLong); }
    var normalized, limit := NormalizeText(text, limits.maxTextBytes, limits.maxLines);
    if limit.Some? {
      return [], [], Some(if limit.value.TextTooLong? then DocumentTooLong else DocumentTooManyLines);
    }
    ReadBack(text);
    if kind.MarkdownSource? {
      NormalLinesAreNormal(text);
      var problem;
      warnings, problem := Markdown.FindWarnings(normalized, limits.maxLines, limits.maxWarnings);
      if problem.Some? {
        return [], [], Some(TooManyWarnings);
      }
    }
    sections, error := CutSections(normalized, limits);
    SectionsPartition(NormalLines(text));
  }

  lemma ReadBack(text: string)
    ensures AllOneLine(NormalLines(text)) && Lines(Normalized(text)) == NormalLines(text)
  {
    hide NormalLines, Document, Lines;
    NormalLinesAreNormal(text);
    LinesOfDocument(NormalLines(text));
  }
}
