/** What normalizing makes of a text, told character by character and line by line, and the patterns it looks for. */
module NormalLaws {
  import opened Options
  import opened PyText
  import opened Normalizer
  import Markdown

  // ---- Decoding ----

  /** Decoding in one pass: a carriage return with or without a newline behind it is one newline, and byte order marks
      disappear. */
  function OnePass(text: string): string {
    if text == "" then ""
    else if text[0] == '\r' then
      "\n" + OnePass(if |text| >= 2 && text[1] == '\n' then text[2..] else text[1..])
    else if text[0] == '\U{FEFF}' then OnePass(text[1..])
    else [text[0]] + OnePass(text[1..])
  }

  lemma CRPush(c: char, rest: string)
    ensures ReplaceCR([c] + rest) == [if c == '\r' then '\n' else c] + ReplaceCR(rest)
    ensures RemoveBOM([c] + rest) == (if c == BOM then "" else [c]) + RemoveBOM(rest)
  {
    assert ([c] + rest)[1..] == rest;
  }

  lemma CRLFStep(text: string)
    requires text != ""
    ensures ReplaceCRLF(text) ==
            if |text| >= 2 && text[0] == '\r' && text[1] == '\n' then ['\n'] + ReplaceCRLF(text[2..])
            else [text[0]] + ReplaceCRLF(text[1..])
  {
  }

  /** The three replacements, one after the other, are the one pass. */
  lemma {:induction false} DecodedOnePass(text: string)
    ensures Decoded(text) == OnePass(text)
  {
    if text != "" {
      CRLFStep(text);
      if |text| >= 2 && text[0] == '\r' && text[1] == '\n' {
        DecodedOnePass(text[2..]);
        CRPush('\n', ReplaceCRLF(text[2..]));
        CRPush('\n', ReplaceCR(ReplaceCRLF(text[2..])));
      } else {
        DecodedOnePass(text[1..]);
        var c := if text[0] == '\r' then '\n' else text[0];
        CRPush(text[0], ReplaceCRLF(text[1..]));
        CRPush(c, ReplaceCR(ReplaceCRLF(text[1..])));
      }
      hide ReplaceCRLF, ReplaceCR, RemoveBOM;
      assert "" + OnePass(text[1..]) == OnePass(text[1..]);
    }
  }

  // ---- Lines ----

  /** A line without the white space at its end, and with nothing else missing. */
  ghost predicate TrimmedLine(line: string, kept: string) {
    && |kept| <= |line| && kept == line[..|kept|]
    && (forall i | |kept| <= i < |line| :: IsSpace(line[i]))
    && (kept != "" ==> !IsSpace(kept[|kept| - 1]))
  }

  ghost predicate AllTrimmed(lines: seq<string>, kept: seq<string>) {
    |kept| == |lines| && forall i | 0 <= i < |lines| :: TrimmedLine(lines[i], kept[i])
  }

  lemma {:induction false} RStripAllTrims(lines: seq<string>)
    ensures AllTrimmed(lines, RStripAll(lines))
  {
    if lines != [] {
      RStripAllTrims(lines[..|lines| - 1]);
      var last := lines[|lines| - 1];
      assert TrimmedLine(last, RStrip(last));
      hide RStrip;
    }
  }

  /** From line `a` up to line `b`: everything before and behind is blank, and both ends of what is left are not. */
  ghost predicate Between(lines: seq<string>, a: nat, b: nat) {
    && a <= b <= |lines|
    && (forall i | 0 <= i < a || b <= i < |lines| :: Blank(lines[i]))
    && (a < b ==> !Blank(lines[a]) && !Blank(lines[b - 1]))
  }

  lemma {:induction false} LeadingIs(lines: seq<string>) returns (a: nat)
    ensures a <= |lines| && DropLeading(lines) == lines[a..]
    ensures (forall i | 0 <= i < a :: lines[i] == "") && (a < |lines| ==> lines[a] != "")
  {
    if lines != [] && lines[0] == "" {
      var rest := LeadingIs(lines[1..]);
      a := rest + 1;
      assert forall i | 0 < i < a :: lines[i] == lines[1..][i - 1];
    } else {
      a := 0;
    }
  }

  lemma {:induction false} TrailingIs(lines: seq<string>) returns (b: nat)
    ensures b <= |lines| && DropTrailing(lines) == lines[..b]
    ensures (forall i | b <= i < |lines| :: lines[i] == "") && (b > 0 ==> lines[b - 1] != "")
  {
    if lines != [] && lines[|lines| - 1] == "" {
      b := TrailingIs(lines[..|lines| - 1]);
    } else {
      b := |lines|;
    }
  }

  lemma TrimmedBlank(line: string, kept: string)
    requires TrimmedLine(line, kept)
    ensures kept == "" <==> Blank(line)
  {
    hide IsSpace;
    if kept != "" { assert kept[|kept| - 1] == line[|kept| - 1]; }
  }

  /** The normal lines are the decoded lines between the first and the last that are not blank, each without the white
      space at its end: white space at the start of a line and blank lines in between stay. */
  lemma NormalLinesAre(text: string) returns (a: nat, b: nat)
    ensures Between(Lines(OnePass(text)), a, b)
    ensures AllTrimmed(Lines(OnePass(text))[a..b], NormalLines(text))
  {
    DecodedOnePass(text);
    var lines := Lines(Decoded(text));
    var kept := RStripAll(lines);
    RStripAllTrims(lines);
    a := LeadingIs(kept);
    var c := TrailingIs(kept[a..]);
    b := a + c;
    hide Decoded, RStripAll, DropLeading, DropTrailing, Lines, OnePass;
    assert NormalLines(text) == kept[a..][..c] == kept[a..b];
    EndsOf(kept, a, b);
    KeptBetween(lines, kept, a, b);
  }

  lemma KeptBetween(lines: seq<string>, kept: seq<string>, a: nat, b: nat)
    requires AllTrimmed(lines, kept) && a <= b <= |kept|
    requires forall i | 0 <= i < a || b <= i < |kept| :: kept[i] == ""
    requires a < b ==> kept[a] != "" && kept[b - 1] != ""
    ensures Between(lines, a, b) && AllTrimmed(lines[a..b], kept[a..b])
  {
    hide TrimmedLine, Blank;
    forall i | 0 <= i < |lines| ensures kept[i] == "" <==> Blank(lines[i]) { TrimmedBlank(lines[i], kept[i]); }
  }

  lemma EndsOf(kept: seq<string>, a: nat, b: nat)
    requires a <= b <= |kept|
    ensures forall i | a <= i < |kept| :: kept[a..][i - a] == kept[i]
    ensures a < b ==> kept[a..][b - a - 1] == kept[b - 1]
  {
  }

  // ---- Patterns ----

  /** A regular expression without alternatives: one character, one that may be missing, or any number of characters
      other than this. */
  datatype Item = One(c: char) | Maybe(c: char) | ManyBut(c: char)

  /** The pattern matches at the start of the text. */
  ghost predicate Matches(pattern: seq<Item>, s: string)
    decreases |pattern|
  {
    pattern == [] ||
    match pattern[0]
    case One(c) => s != "" && s[0] == c && Matches(pattern[1..], s[1..])
    case Maybe(c) => Matches(pattern[1..], s) || (s != "" && s[0] == c && Matches(pattern[1..], s[1..]))
    case ManyBut(c) => exists n: nat :: n <= |s| && Without(s, n, c) && Matches(pattern[1..], s[n..])
  }

  ghost predicate Without(s: string, n: nat, c: char) {
    n <= |s| && forall i | 0 <= i < n :: s[i] != c
  }

  /** The pattern matches somewhere in the text. */
  ghost predicate Search(pattern: seq<Item>, s: string) {
    exists i: nat :: i <= |s| && Matches(pattern, s[i..])
  }

  function Text(s: string): (r: seq<Item>)
    ensures |r| == |s|
  {
    if s == "" then [] else [One(s[0])] + Text(s[1..])
  }

  /** Three backquotes. */
  const FENCE := Text("```")

  /** `\[[^\]]*\]\(https?://` */
  const LINK := [One('['), ManyBut(']'), One(']')] + (Text("(http") + ([Maybe('s')] + Text("://")))

  lemma {:induction false} TextMatches(t: string, more: seq<Item>, s: string)
    ensures Matches(Text(t) + more, s) <==> Markdown.StartsWith(s, t) && Matches(more, s[|t|..])
    decreases |t|
  {
    var pattern := Text(t) + more;
    if t == "" {
      assert pattern == more && s[0..] == s && s[..0] == "";
    } else {
      assert pattern[0] == One(t[0]) && pattern[1..] == Text(t[1..]) + more;
      if s != "" {
        TextMatches(t[1..], more, s[1..]);
        if |t| <= |s| {
          assert s[..|t|] == [s[0]] + s[1..][..|t| - 1];
          assert s[1..][|t| - 1..] == s[|t|..];
          assert t == [t[0]] + t[1..];
        }
      }
    }
  }

  lemma TextMatchesWhole(t: string, s: string)
    ensures Matches(Text(t), s) <==> Markdown.StartsWith(s, t)
  {
    TextMatches(t, [], s);
    assert Text(t) + [] == Text(t);
  }

  /** What follows the closing bracket. */
  lemma AddressMatches(s: string)
    ensures Matches(Text("(http") + ([Maybe('s')] + Text("://")), s) <==>
              Markdown.StartsWith(s, "(http://") || Markdown.StartsWith(s, "(https://")
  {
    var rest := [Maybe('s')] + Text("://");
    TextMatches("(http", rest, s);
    if Markdown.StartsWith(s, "(http") {
      var tail := s[5..];
      assert rest[1..] == Text("://");
      TextMatchesWhole("://", tail);
      if tail != "" { TextMatchesWhole("://", tail[1..]); }
      hide Text;
      Prefixes(s, tail);
    } else {
      hide Text;
      NotAnAddress(s);
    }
  }

  lemma Prefixes(s: string, tail: string)
    requires Markdown.StartsWith(s, "(http") && tail == s[5..]
    ensures Markdown.StartsWith(s, "(http://") <==> Markdown.StartsWith(tail, "://")
    ensures Markdown.StartsWith(s, "(https://") <==>
              tail != "" && tail[0] == 's' && Markdown.StartsWith(tail[1..], "://")
  {
    Joins(s, "(http", "://");
    Joins(s, "(http", "s://");
    assert "(http" + "://" == "(http://" && "(http" + "s://" == "(https://";
    Joins(tail, "s", "://");
    assert "s" + "://" == "s://";
    assert tail != "" ==> tail[..1] == [tail[0]];
  }

  lemma Joins(s: string, a: string, b: string)
    ensures Markdown.StartsWith(s, a + b) <==> Markdown.StartsWith(s, a) && Markdown.StartsWith(s[|a|..], b)
  {
    if |a| + |b| <= |s| {
      assert s[..|a + b|] == s[..|a|] + s[|a|..][..|b|];
      if s[..|a + b|] == a + b {
        assert s[..|a|] == (a + b)[..|a|] == a;
        assert s[|a|..][..|b|] == (a + b)[|a|..] == b;
      }
    }
  }

  lemma NotAnAddress(s: string)
    requires !Markdown.StartsWith(s, "(http")
    ensures !Markdown.StartsWith(s, "(http://") && !Markdown.StartsWith(s, "(https://")
  {
    Joins(s, "(http", "://");
    Joins(s, "(http", "s://");
    assert "(http" + "://" == "(http://" && "(http" + "s://" == "(https://";
  }

  /** A line opens or closes fenced code exactly when the pattern matches at its start. */
  lemma FenceIs(line: string)
    ensures Markdown.IsFence(line) <==> Matches(FENCE, line)
  {
    TextMatchesWhole("```", line);
  }

  /** After an opening bracket: up to a closing one, and an address behind it. */
  ghost predicate Closes(line: string, i: nat, n: nat) {
    i + 1 + n < |line| && Without(line[i + 1..], n, ']') && Markdown.ClosesLink(line, i + 1 + n)
  }

  lemma LinkAt(line: string, i: nat)
    requires i <= |line|
    ensures Matches(LINK, line[i..]) <==> i < |line| && line[i] == '[' && exists n: nat :: Closes(line, i, n)
  {
    var s := line[i..];
    var address := Text("(http") + ([Maybe('s')] + Text("://"));
    assert LINK[0] == One('[') && LINK[1..] == [ManyBut(']'), One(']')] + address;
    var two, three := [ManyBut(']'), One(']')] + address, [One(']')] + address;
    assert two[0] == ManyBut(']') && two[1..] == three && three[0] == One(']') && three[1..] == address;
    hide Text;
    if s != "" {
      var t := s[1..];
      assert t == line[i + 1..];
      forall n: nat | n <= |t|
        ensures Without(t, n, ']') && Matches(three, t[n..]) <==> Closes(line, i, n)
      {
        ClosedAt(line, i, n, three, address);
      }
      assert Matches(LINK, s) <==> s[0] == '[' && Matches(two, t);
      assert Matches(two, t) <==> exists n: nat :: n <= |t| && Without(t, n, ']') && Matches(three, t[n..]);
      hide Matches;
      if n: nat :| n <= |t| && Without(t, n, ']') && Matches(three, t[n..]) { assert Closes(line, i, n); }
      if n: nat :| Closes(line, i, n) { assert n <= |t| && Without(t, n, ']') && Matches(three, t[n..]); }
    }
  }

  lemma ClosedAt(line: string, i: nat, n: nat, three: seq<Item>, address: seq<Item>)
    requires i < |line| && i + 1 + n <= |line|
    requires address == Text("(http") + ([Maybe('s')] + Text("://"))
    requires three != [] && three[0] == One(']') && three[1..] == address
    ensures Without(line[i + 1..], n, ']') && Matches(three, line[i + 1..][n..]) <==> Closes(line, i, n)
  {
    var u := line[i + 1..][n..];
    assert u == line[i + 1 + n..];
    if u != "" {
      assert u[1..] == line[i + 1 + n + 1..];
      AddressMatches(u[1..]);
      hide Text, Markdown.StartsWith;
    }
  }

  /** A line has a link exactly when the pattern matches somewhere in it. */
  lemma LinkIs(line: string)
    ensures Markdown.HasLink(line) <==> Search(LINK, line)
  {
    hide Matches, Markdown.ClosesLink;
    if Markdown.HasLink(line) {
      var i: nat, j: nat :|
        i < j < |line| && line[i] == '[' && Markdown.ClosesLink(line, j) && Markdown.NoneCloses(line, i, j);
      assert Closes(line, i, j - i - 1);
      LinkAt(line, i);
    }
    if i: nat :| i <= |line| && Matches(LINK, line[i..]) {
      LinkAt(line, i);
      var n: nat :| Closes(line, i, n);
      assert Markdown.NoneCloses(line, i, i + 1 + n);
    }
  }

  // ---- Fenced code ----

  /** How many of these lines open or close fenced code. */
  ghost function Fences(lines: seq<string>): nat {
    if lines == [] then 0 else Fences(lines[1..]) + (if Matches(FENCE, lines[0]) then 1 else 0)
  }

  lemma {:induction false} FencesPush(lines: seq<string>, line: string)
    ensures Fences(lines + [line]) == Fences(lines) + (if Matches(FENCE, line) then 1 else 0)
  {
    hide Matches;
    if lines == [] {
      assert lines + [line] == [line] && [line][1..] == [];
    } else {
      FencesPush(lines[1..], line);
      assert (lines + [line])[1..] == lines[1..] + [line];
    }
  }

  lemma {:induction false} FencedIs(lines: seq<string>)
    ensures Markdown.Fenced(lines) <==> Fences(lines) % 2 == 1
  {
    hide Matches, Markdown.IsFence;
    if lines != [] {
      var front, last := lines[..|lines| - 1], lines[|lines| - 1];
      assert front + [last] == lines;
      FencedIs(front);
      FencesPush(front, last);
      FenceIs(last);
    }
  }

  /** A line warns when an even number of fences is before it, it is none itself, and it has a link. */
  lemma WarnsIs(lines: seq<string>, n: nat)
    requires n < |lines|
    ensures Markdown.Warns(lines, n) <==>
              !Matches(FENCE, lines[n]) && Fences(lines[..n]) % 2 == 0 && Search(LINK, lines[n])
  {
    hide Matches, Search, Markdown.IsFence, Markdown.HasLink, Markdown.Fenced;
    FenceIs(lines[n]);
    FencedIs(lines[..n]);
    LinkIs(lines[n]);
  }
}
