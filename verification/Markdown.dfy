/** The warnings of Markdown normalization: links to the outside, except in fenced code. */
module Markdown {
  import opened Options
  import opened PyText
  import opened Normalizer

  // ---- One line ----

  predicate StartsWith(s: string, prefix: string) {
    |prefix| <= |s| && s[..|prefix|] == prefix
  }

  /** A line that opens or closes fenced code. */
  predicate IsFence(line: string) {
    StartsWith(line, "```")
  }

  /** "]" here, and after it the start of a web address in parentheses. */
  predicate ClosesLink(line: string, j: nat) {
    && j < |line| && line[j] == ']'
    && (StartsWith(line[j + 1..], "(http://") || StartsWith(line[j + 1..], "(https://"))
  }

  predicate NoneCloses(line: string, i: nat, j: nat)
    requires i <= j <= |line|
  {
    forall k | i <= k < j :: line[k] != ']'
  }

  /** A bracketed text, without a closing bracket in it, followed by the start of a web address. */
  predicate HasLink(line: string) {
    exists i, j | 0 <= i < j < |line| :: line[i] == '[' && ClosesLink(line, j) && NoneCloses(line, i, j)
  }

  // ---- All lines ----

  /** After these lines fenced code is open. */
  function Fenced(lines: seq<string>): bool {
    if lines == [] then false
    else if IsFence(lines[|lines| - 1]) then !Fenced(lines[..|lines| - 1])
    else Fenced(lines[..|lines| - 1])
  }

  predicate Warns(lines: seq<string>, n: nat)
    requires n < |lines|
  {
    !IsFence(lines[n]) && !Fenced(lines[..n]) && HasLink(lines[n])
  }

  /** The numbers, from one, of the lines that have a warning. */
  function Warnings(lines: seq<string>): (r: seq<nat>)
    ensures |r| <= |lines|
  {
    if lines == [] then []
    else Warnings(lines[..|lines| - 1]) + (if Warns(lines, |lines| - 1) then [|lines|] else [])
  }

  lemma WarningsNext(lines: seq<string>, n: nat)
    requires n < |lines|
    ensures Warnings(lines[..n + 1]) == Warnings(lines[..n]) + (if Warns(lines, n) then [n + 1] else [])
    ensures Fenced(lines[..n + 1]) == (if IsFence(lines[n]) then !Fenced(lines[..n]) else Fenced(lines[..n]))
  {
    hide HasLink, IsFence;
    assert lines[..n + 1][..n] == lines[..n];
  }

  /** Just the lines that warn are listed, in order. */
  lemma {:induction false} WarningsAre(lines: seq<string>)
    ensures forall i | 0 <= i < |Warnings(lines)| ::
              1 <= Warnings(lines)[i] <= |lines| && Warns(lines, Warnings(lines)[i] - 1)
    ensures forall i, j | 0 <= i < j < |Warnings(lines)| :: Warnings(lines)[i] < Warnings(lines)[j]
    ensures forall n | 0 <= n < |lines| && Warns(lines, n) :: n + 1 in Warnings(lines)
  {
    hide HasLink, IsFence;
    if lines != [] {
      var front := lines[..|lines| - 1];
      WarningsAre(front);
      forall n | 0 <= n < |front| ensures Warns(front, n) <==> Warns(lines, n) {
        assert front[..n] == lines[..n];
      }
    }
  }

  // ---- The limit ----

  /** The limit is tested at the top of the loop, so before the last line: the documents that pass it. */
  predicate WarningsFit(lines: seq<string>, maxWarnings: nat) {
    lines != [] ==> |Warnings(lines[..|lines| - 1])| < maxWarnings
  }

  /** That is not the same as having no more warnings than the limit: with just as many, the last of them must be on the
      last line. */
  lemma WarningsFitExactly(lines: seq<string>, maxWarnings: nat)
    requires maxWarnings >= 1
    ensures WarningsFit(lines, maxWarnings) <==>
              || |Warnings(lines)| < maxWarnings
              || (|Warnings(lines)| == maxWarnings && Warns(lines, |lines| - 1))
  {
    hide HasLink, IsFence;
  }

  const LINK := "[a](http://"

  /** A text whose normal form has no more warnings than the limit, and is refused: a line with a link, and any line
      after it. */
  lemma AsManyAsTheLimitRefused()
    ensures var lines := Lines(Normalized(LINK + "\nx"));
            lines == [LINK, "x"] && Warnings(lines) == [1] && !WarningsFit(lines, 1)
  {
    LinkPlain();
    hide *;
    NormalPair(LINK, "x");
    OneWarning("x");
    assert LINK + "\n" + "x" == LINK + "\nx";
  }

  lemma LinkPlain()
    ensures OneLine(LINK) && Plain(LINK) && RStrip(LINK) == LINK && LINK != ""
    ensures OneLine("x") && Plain("x") && RStrip("x") == "x" && !HasLink("x")
  {
    assert LINK[10] == '/' && !IsSpace(LINK[10]) && !IsSpace("x"[0]);
  }

  lemma OneWarning(other: string)
    requires !HasLink(other)
    ensures Warnings([LINK, other]) == [1] && !WarningsFit([LINK, other], 1)
  {
    hide HasLink, IsFence;
    var lines := [LINK, other];
    LinkWarns();
    assert lines[..1] == [LINK] && [LINK][..0] == [];
    assert Warnings([LINK]) == [1];
  }

  /** Two lines with nothing to drop are their own normal form. */
  lemma NormalPair(a: string, b: string)
    requires OneLine(a) && OneLine(b) && Plain(a) && Plain(b)
    requires a != "" && b != "" && RStrip(a) == a && RStrip(b) == b
    ensures Lines(Normalized(a + "\n" + b)) == [a, b]
  {
    JoinPair(a, b);
    hide LinesFrom, Document, Join, ReplaceCRLF, ReplaceCR, RemoveBOM, RStripAll, RStrip;
    var text, lines := a + "\n" + b, [a, b];
    PlainUnchanged(text);
    LinesOfJoin(lines);
    StrippedUnchanged(lines);
    assert NormalLines(text) == lines;
    LinesOfDocument(lines);
  }

  lemma JoinPair(a: string, b: string)
    ensures Join([a, b]) == a + "\n" + b
  {
    assert [a, b][..1] == [a] && [a][..0] == [];
    assert Document([a]) == a + "\n";
  }

  lemma LinkWarns()
    ensures HasLink(LINK) && !IsFence(LINK)
  {
    assert LINK[0] == '[' && LINK[1] == 'a' && LINK[2] == ']';
    assert LINK[3..] == "(http://";
    assert StartsWith(LINK[3..], "(http://");
    assert ClosesLink(LINK, 2) && NoneCloses(LINK, 0, 2);
    assert LINK[..3][0] != "```"[0];
  }

  lemma {:induction false} WarningsGrow(lines: seq<string>, n: nat)
    requires n <= |lines|
    ensures |Warnings(lines[..n])| <= |Warnings(lines)|
    decreases |lines| - n
  {
    hide Warnings, Warns;
    if n < |lines| {
      WarningsNext(lines, n);
      WarningsGrow(lines, n + 1);
    } else {
      assert lines[..n] == lines;
    }
  }

  lemma Refused(lines: seq<string>, n: nat, maxWarnings: nat)
    requires n < |lines| && |Warnings(lines[..n])| >= maxWarnings
    ensures !WarningsFit(lines, maxWarnings)
  {
    hide Warnings;
    var front := lines[..|lines| - 1];
    assert front[..n] == lines[..n];
    WarningsGrow(front, n);
  }

  lemma Passed(lines: seq<string>, maxWarnings: nat)
    requires forall n | 0 <= n < |lines| :: |Warnings(lines[..n])| < maxWarnings
    ensures WarningsFit(lines, maxWarnings)
  {
  }

  datatype WarningError = LineLimit | WarningLimit

  /** The loop of `normalize_markdown` over the lines of a normalized text. */
  method FindWarnings(normalized: string, maxLines: nat, maxWarnings: nat)
    returns (warnings: seq<nat>, error: Option<WarningError>)
    ensures error.None? <==> |Lines(normalized)| <= maxLines && WarningsFit(Lines(normalized), maxWarnings)
    ensures error.None? ==> warnings == Warnings(Lines(normalized))
  {
    ghost var all := Lines(normalized);
    hide LinesFrom, Lines, Warnings, Fenced, HasLink, IsFence, WarningsFit;
    warnings := [];
    var inFence := false;
    var at, count := 0, 0;
    NoWarnings(all, normalized);
    while at < |normalized|
      invariant at <= |normalized| && count <= |all| && count <= maxLines
      invariant LinesFrom(normalized, at) == all[count..]
      invariant warnings == Warnings(all[..count]) && inFence == Fenced(all[..count])
      invariant forall n | 0 <= n < count :: |Warnings(all[..n])| < maxWarnings
      decreases |normalized| - at
    {
      var stop := FindNewline(normalized, at);
      LinesFromStep(normalized, at);
      var line := normalized[at..stop];
      assert all[count] == all[count..][0] == line;
      assert all[count..][1..] == all[count + 1..];
      if count + 1 > maxLines { return [], Some(LineLimit); }
      if |warnings| >= maxWarnings {
        Refused(all, count, maxWarnings);
        return [], Some(WarningLimit);
      }
      WarningsNext(all, count);
      if IsFence(line) {
        inFence := !inFence;
      } else if !inFence && HasLink(line) {
        warnings := warnings + [count + 1];
      }
      count := count + 1;
      at := if stop == |normalized| then stop else stop + 1;
      EndOfLines(normalized);
    }
    AllRead(all, count, normalized);
    Passed(all, maxWarnings);
    error := None;
  }

  lemma NoWarnings(lines: seq<string>, text: string)
    requires lines == Lines(text)
    ensures Warnings(lines[..0]) == [] && !Fenced(lines[..0]) && LinesFrom(text, 0) == lines[0..]
  {
  }

  lemma AllRead(lines: seq<string>, count: nat, text: string)
    requires count <= |lines| && LinesFrom(text, |text|) == lines[count..]
    ensures count == |lines| && lines[..count] == lines
  {
    EndOfLines(text);
  }
}
