/** Headings and the heading path in force at each line. */
module Headings {
  import opened Options
  import opened PyText

  datatype Heading = Heading(level: nat, text: string)

  function Hashes(line: string): (n: nat)
    ensures n <= |line|
  {
    if line != "" && line[0] == '#' then 1 + Hashes(line[1..]) else 0
  }

  /** One to six hashes, white space, and something after it. */
  function HeadingOf(line: string): Option<Heading> {
    var level := Hashes(line);
    if 1 <= level <= 6 && |line| >= level + 2 && IsSpace(line[level]) then
      Some(Heading(level, Strip(line[level..])))
    else None
  }

  /** `heading_path[: level - 1] + [heading_text]` */
  function Enter(path: seq<string>, h: Heading): seq<string>
    requires h.level >= 1
  {
    (if h.level - 1 < |path| then path[..h.level - 1] else path) + [h.text]
  }

  /** The heading path in force after these lines. */
  function PathAt(lines: seq<string>): seq<string> {
    if lines == [] then []
    else
      var before := PathAt(lines[..|lines| - 1]);
      match HeadingOf(lines[|lines| - 1])
      case None => before
      case Some(h) => Enter(before, h)
  }

  lemma HeadingLevel(line: string)
    ensures HeadingOf(line).Some? ==> 1 <= HeadingOf(line).value.level <= 6
  {
  }

  lemma {:induction false} PathBounded(lines: seq<string>)
    ensures |PathAt(lines)| <= 6
  {
    hide HeadingOf;
    if lines != [] {
      PathBounded(lines[..|lines| - 1]);
      HeadingLevel(lines[|lines| - 1]);
    }
  }

  // ---- A heading, told by its characters ----

  /** What is left of a text when the white space at its ends goes. */
  ghost predicate Stripped(s: string, a: nat, b: nat, text: string) {
    && a <= b <= |s| && text == s[a..b]
    && (forall i | 0 <= i < a || b <= i < |s| :: IsSpace(s[i]))
    && (text != "" ==> !IsSpace(text[0]) && !IsSpace(text[|text| - 1]))
  }

  /** One to six hashes and no more, white space, something after it, and the text of what follows the hashes. */
  ghost predicate IsHeading(line: string, level: nat, text: string) {
    && 1 <= level <= 6 && level + 1 < |line|
    && (forall i | 0 <= i < level :: line[i] == '#') && IsSpace(line[level])
    && exists a: nat, b: nat :: Stripped(line[level..], a, b, text)
  }

  ghost predicate Heads(line: string) {
    exists level: nat, text :: IsHeading(line, level, text)
  }

  ghost predicate HeadsWith(line: string, text: string) {
    exists level: nat :: IsHeading(line, level, text)
  }

  lemma SliceOfSlice(s: string, a: nat, b: nat)
    requires a <= b <= |s|
    ensures s[..b][a..] == s[a..b]
    ensures forall i | 0 <= i < a :: s[..b][i] == s[i]
  {
  }

  lemma StripStrips(s: string) returns (a: nat, b: nat)
    ensures Stripped(s, a, b, Strip(s))
  {
    hide IsSpace, LStrip, RStrip;
    var r := RStrip(s);
    var t := LStrip(r);
    a, b := |r| - |t|, |r|;
    SliceOfSlice(s, a, b);
    assert t == s[a..b];
    EndsAlike(r, a, t);
  }

  lemma EndsAlike(r: string, a: nat, t: string)
    requires a <= |r| && t == r[a..]
    ensures t != "" ==> r != "" && t[|t| - 1] == r[|r| - 1]
  {
  }

  lemma StrippedOnce(s: string, a: nat, b: nat, t: string, c: nat, d: nat, u: string)
    requires Stripped(s, a, b, t) && Stripped(s, c, d, u)
    ensures t == u
  {
    hide IsSpace;
    if t != "" {
      assert t[0] == s[a] && t[|t| - 1] == s[b - 1];
    }
    if u != "" {
      assert u[0] == s[c] && u[|u| - 1] == s[d - 1];
    }
  }

  lemma {:induction false} HashesLead(line: string, level: nat)
    ensures Hashes(line) == level <==>
            level <= |line| && (forall i | 0 <= i < level :: line[i] == '#') && (level < |line| ==> line[level] != '#')
  {
    if line != "" && line[0] == '#' {
      if level > 0 {
        HashesLead(line[1..], level - 1);
        assert level <= |line| ==> forall i | 0 < i < level :: line[i] == line[1..][i - 1];
      }
    }
  }

  lemma HashesAre(line: string)
    ensures var level := Hashes(line);
            (forall i | 0 <= i < level :: line[i] == '#') && (level < |line| ==> line[level] != '#')
  {
    HashesLead(line, Hashes(line));
  }

  lemma HeadingRead(line: string)
    requires HeadingOf(line).Some?
    ensures IsHeading(line, HeadingOf(line).value.level, HeadingOf(line).value.text)
  {
    var level := Hashes(line);
    HashesAre(line);
    hide Hashes, IsSpace, Strip, Stripped;
    var a, b := StripStrips(line[level..]);
  }

  /** A line is read as a heading exactly when it is one, with its level and its text. */
  lemma HeadingIs(line: string)
    ensures HeadingOf(line).Some? ==>
              && IsHeading(line, HeadingOf(line).value.level, HeadingOf(line).value.text)
              && HeadsWith(line, HeadingOf(line).value.text)
    ensures forall level: nat, text | IsHeading(line, level, text) :: HeadingOf(line) == Some(Heading(level, text))
    ensures HeadingOf(line).Some? <==> Heads(line)
  {
    hide HeadingOf, IsHeading;
    if HeadingOf(line).Some? { HeadingRead(line); }
    forall level: nat, text | IsHeading(line, level, text) ensures HeadingOf(line) == Some(Heading(level, text)) {
      HeadingFound(line, level, text);
    }
  }

  lemma HeadingFound(line: string, level: nat, text: string)
    requires IsHeading(line, level, text)
    ensures HeadingOf(line) == Some(Heading(level, text))
  {
    HashesLead(line, level);
    hide Strip, Stripped, Hashes;
    var a: nat, b: nat :| Stripped(line[level..], a, b, text);
    var c, d := StripStrips(line[level..]);
    StrippedOnce(line[level..], a, b, text, c, d, Strip(line[level..]));
    SpaceIsNoHash(line[level]);
  }

  lemma SpaceIsNoHash(c: char)
    requires IsSpace(c)
    ensures c != '#'
  {
  }

  // ---- The path, told by the headings ----

  /** What a line makes of the path: nothing, unless it is a heading, which keeps the entries above its level and adds
      its own. */
  ghost predicate Follows(line: string, before: seq<string>, after: seq<string>) {
    && (!Heads(line) ==> after == before)
    && forall level: nat, text | IsHeading(line, level, text) ::
         && |after| == (if level <= |before| then level else |before| + 1)
         && after[..|after| - 1] == before[..|after| - 1] && after[|after| - 1] == text
  }

  /** The path before each line and after the last. */
  ghost predicate Traced(lines: seq<string>, paths: seq<seq<string>>) {
    && |paths| == |lines| + 1 && paths[0] == []
    && forall n | 0 <= n < |lines| :: Follows(lines[n], paths[n], paths[n + 1])
  }

  /** Line `n` is the nearest heading at the depth of the path's entry `k`: it has the entry's text, and no heading
      since has come as high up. */
  ghost predicate Nearest(lines: seq<string>, paths: seq<seq<string>>, n: nat, path: seq<string>, k: nat)
    requires |paths| == |lines| + 1 && k < |path|
  {
    && n < |lines| && |paths[n + 1]| == k + 1
    && HeadsWith(lines[n], path[k])
    && forall m | n < m < |lines| && Heads(lines[m]) :: |paths[m + 1]| > k + 1
  }

  ghost predicate HasNearest(lines: seq<string>, paths: seq<seq<string>>, path: seq<string>, k: nat)
    requires |paths| == |lines| + 1 && k < |path|
  {
    exists n: nat :: Nearest(lines, paths, n, path, k)
  }

  /** Line `n` is the last heading, and its text ends the path. */
  ghost predicate LastHeading(lines: seq<string>, n: nat, path: seq<string>) {
    && path != [] && n < |lines| && HeadsWith(lines[n], path[|path| - 1])
    && forall m | n < m < |lines| :: !Heads(lines[m])
  }

  /** The heading path after these lines, told by the lines: it is empty exactly when no heading was met, its last
      entry is the text of the last heading, and each entry is the text of the nearest heading at its depth. */
  ghost predicate HeadedBy(lines: seq<string>, path: seq<string>) {
    && (path == [] <==> forall n | 0 <= n < |lines| :: !Heads(lines[n]))
    && (path != [] ==> exists n: nat :: LastHeading(lines, n, path))
    && exists paths ::
         && Traced(lines, paths) && paths[|lines|] == path
         && forall k: nat | k < |path| :: HasNearest(lines, paths, path, k)
  }

  lemma PathStep(lines: seq<string>, n: nat)
    requires n < |lines|
    ensures HeadingOf(lines[n]).None? ==> PathAt(lines[..n + 1]) == PathAt(lines[..n])
    ensures HeadingOf(lines[n]).Some? ==>
              && HeadingOf(lines[n]).value.level >= 1
              && PathAt(lines[..n + 1]) == Enter(PathAt(lines[..n]), HeadingOf(lines[n]).value)
  {
    assert lines[..n + 1][..n] == lines[..n];
    HeadingLevel(lines[n]);
    hide HeadingOf, Enter;
  }

  ghost function Paths(lines: seq<string>): (r: seq<seq<string>>)
    ensures |r| == |lines| + 1
    ensures forall n | 0 <= n <= |lines| :: r[n] == PathAt(lines[..n])
  {
    seq(|lines| + 1, n requires 0 <= n <= |lines| => PathAt(lines[..n]))
  }

  lemma EnterFollows(line: string, path: seq<string>, h: Heading)
    requires h.level >= 1 && Heads(line)
    requires forall level: nat, text | IsHeading(line, level, text) :: level == h.level && text == h.text
    ensures Follows(line, path, Enter(path, h))
  {
    hide IsHeading, Heads;
    assert Enter(path, h)[..|Enter(path, h)| - 1] == if h.level - 1 < |path| then path[..h.level - 1] else path;
  }

  lemma StepFollows(lines: seq<string>, n: nat)
    requires n < |lines|
    ensures Follows(lines[n], PathAt(lines[..n]), PathAt(lines[..n + 1]))
  {
    hide HeadingOf, PathAt, IsHeading, Heads, Enter, Follows;
    HeadingIs(lines[n]);
    PathStep(lines, n);
    if HeadingOf(lines[n]).Some? {
      EnterFollows(lines[n], PathAt(lines[..n]), HeadingOf(lines[n]).value);
    } else {
      NothingFollows(lines[n], PathAt(lines[..n]));
    }
  }

  lemma NothingFollows(line: string, path: seq<string>)
    requires !Heads(line)
    ensures Follows(line, path, path)
  {
    hide IsHeading;
  }

  lemma PathsTraced(lines: seq<string>)
    ensures Traced(lines, Paths(lines))
  {
    hide PathAt, Follows;
    assert lines[..0] == [];
    NoPath();
    forall n | 0 <= n < |lines| ensures Follows(lines[n], Paths(lines)[n], Paths(lines)[n + 1]) {
      StepFollows(lines, n);
    }
  }

  lemma NoPath()
    ensures PathAt([]) == []
  {
  }

  ghost predicate Sets(lines: seq<string>, n: nat, upto: nat, k: nat)
    requires upto <= |lines| && k < |PathAt(lines[..upto])|
  {
    && n < upto && |PathAt(lines[..n + 1])| == k + 1
    && HeadingOf(lines[n]).Some? && HeadingOf(lines[n]).value.text == PathAt(lines[..upto])[k]
    && forall m | n < m < upto && HeadingOf(lines[m]).Some? :: |PathAt(lines[..m + 1])| > k + 1
  }

  lemma NoneYet(lines: seq<string>)
    ensures PathAt(lines[..0]) == []
  {
    assert lines[..0] == [];
  }

  lemma EnterKeeps(path: seq<string>, h: Heading, k: nat)
    requires h.level >= 1 && k + 1 < |Enter(path, h)|
    ensures k < |path| && Enter(path, h)[k] == path[k]
  {
  }

  lemma EntryKept(lines: seq<string>, n: nat, k: nat)
    requires n < |lines| && k < |PathAt(lines[..n + 1])|
    requires HeadingOf(lines[n]).None? || k + 1 < |PathAt(lines[..n + 1])|
    ensures k < |PathAt(lines[..n])| && PathAt(lines[..n])[k] == PathAt(lines[..n + 1])[k]
  {
    hide PathAt, HeadingOf, Enter;
    PathStep(lines, n);
    if HeadingOf(lines[n]).Some? { EnterKeeps(PathAt(lines[..n]), HeadingOf(lines[n]).value, k); }
  }

  lemma EntrySet(lines: seq<string>, n: nat)
    requires n < |lines| && HeadingOf(lines[n]).Some?
    ensures var path := PathAt(lines[..n + 1]); path != [] && path[|path| - 1] == HeadingOf(lines[n]).value.text
  {
    PathStep(lines, n);
    hide PathAt, HeadingOf;
  }

  /** Every entry of the path was set by a heading, and none since came as high up. */
  lemma {:induction false} EntryOf(lines: seq<string>, upto: nat, k: nat) returns (n: nat)
    requires upto <= |lines| && k < |PathAt(lines[..upto])|
    ensures Sets(lines, n, upto, k)
    decreases upto
  {
    hide PathAt, HeadingOf;
    NoneYet(lines);
    var last := upto - 1;
    if HeadingOf(lines[last]).Some? && k + 1 == |PathAt(lines[..upto])| {
      EntrySet(lines, last);
      n := last;
    } else {
      EntryKept(lines, last, k);
      n := EntryOf(lines, last, k);
    }
  }

  lemma {:induction false} EmptyIffNone(lines: seq<string>, upto: nat)
    requires upto <= |lines|
    ensures PathAt(lines[..upto]) == [] <==> forall n | 0 <= n < upto :: HeadingOf(lines[n]).None?
    decreases upto
  {
    hide PathAt, HeadingOf, Enter;
    if upto == 0 {
      NoneYet(lines);
    } else {
      PathStep(lines, upto - 1);
      EmptyIffNone(lines, upto - 1);
      if HeadingOf(lines[upto - 1]).Some? { EntrySet(lines, upto - 1); }
    }
  }

  lemma SetsNearest(lines: seq<string>, n: nat, k: nat)
    requires k < |PathAt(lines)| && PathAt(lines[..|lines|]) == PathAt(lines) && Sets(lines, n, |lines|, k)
    ensures Nearest(lines, Paths(lines), n, PathAt(lines), k)
  {
    hide HeadingOf, PathAt, IsHeading, Heads;
    HeadingIs(lines[n]);
    forall m | n < m < |lines| && Heads(lines[m]) ensures |Paths(lines)[m + 1]| > k + 1 {
      HeadingIs(lines[m]);
    }
  }

  /** After the last heading the path stays as it is. */
  lemma {:induction false} PathStays(lines: seq<string>, n: nat, upto: nat)
    requires n <= upto <= |lines| && forall m | n <= m < upto :: HeadingOf(lines[m]).None?
    ensures PathAt(lines[..upto]) == PathAt(lines[..n])
    decreases upto
  {
    hide PathAt, HeadingOf;
    if n < upto {
      PathStep(lines, upto - 1);
      PathStays(lines, n, upto - 1);
    }
  }

  lemma {:induction false} LastOf(lines: seq<string>, m: nat, upto: nat) returns (n: nat)
    requires m < upto <= |lines| && HeadingOf(lines[m]).Some?
    ensures m <= n < upto && HeadingOf(lines[n]).Some? && forall l | n < l < upto :: HeadingOf(lines[l]).None?
    decreases upto
  {
    hide HeadingOf;
    if HeadingOf(lines[upto - 1]).Some? { n := upto - 1; } else { n := LastOf(lines, m, upto - 1); }
  }

  lemma SomeLast(lines: seq<string>) returns (n: nat)
    requires PathAt(lines) != []
    ensures LastHeading(lines, n, PathAt(lines))
  {
    hide HeadingOf, PathAt, IsHeading, Heads, HeadsWith;
    assert lines[..|lines|] == lines;
    EmptyIffNone(lines, |lines|);
    var m: nat :| m < |lines| && HeadingOf(lines[m]).Some?;
    n := LastOf(lines, m, |lines|);
    EntrySet(lines, n);
    PathStays(lines, n + 1, |lines|);
    HeadingIs(lines[n]);
    forall l | n < l < |lines| ensures !Heads(lines[l]) { HeadingIs(lines[l]); }
  }

  /** The path in force is the one the headings make. */
  lemma PathIs(lines: seq<string>)
    ensures HeadedBy(lines, PathAt(lines))
  {
    hide PathAt, HeadingOf, Heads, Traced, Nearest, LastHeading, Sets;
    var path, paths := PathAt(lines), Paths(lines);
    assert lines[..|lines|] == lines;
    PathsTraced(lines);
    EmptyIffNone(lines, |lines|);
    forall n | 0 <= n < |lines| ensures HeadingOf(lines[n]).Some? <==> Heads(lines[n]) { HeadingIs(lines[n]); }
    forall k: nat | k < |path| ensures HasNearest(lines, paths, path, k) {
      var n := EntryOf(lines, |lines|, k);
      SetsNearest(lines, n, k);
    }
    if path != [] {
      var n := SomeLast(lines);
    }
  }
}
