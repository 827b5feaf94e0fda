/** Text normalization: line endings, trailing white space, and blank lines at both ends. */
module Normalizer {
  import opened Options
  import opened PyText
  import Utf8

  // ---- Lines ----

  /** The lines `_iter_lines` yields from `start` on; nothing follows a final newline. */
  function LinesFrom(text: string, start: nat): seq<string>
    requires start <= |text|
    decreases |text| - start
  {
    if start == |text| then []
    else
      var end := FindNewline(text, start);
      [text[start..end]] + (if end == |text| then [] else LinesFrom(text, end + 1))
  }

  function Lines(text: string): seq<string> {
    LinesFrom(text, 0)
  }

  /** Each line, ended by a newline. */
  function Document(lines: seq<string>): string {
    if lines == [] then "" else Document(lines[..|lines| - 1]) + lines[|lines| - 1] + "\n"
  }

  /** `"\n".join(lines)` */
  function Join(lines: seq<string>): string {
    if lines == [] then "" else Document(lines[..|lines| - 1]) + lines[|lines| - 1]
  }

  ghost predicate OneLine(line: string) {
    forall i | 0 <= i < |line| :: line[i] != '\n'
  }

  ghost predicate AllOneLine(lines: seq<string>) {
    forall i | 0 <= i < |lines| :: OneLine(lines[i])
  }

  // ---- What normalization computes ----

  /** `replace("\r\n", "\n")` */
  function ReplaceCRLF(text: string): string {
    if text == "" then ""
    else if |text| >= 2 && text[0] == '\r' && text[1] == '\n' then "\n" + ReplaceCRLF(text[2..])
    else [text[0]] + ReplaceCRLF(text[1..])
  }

  /** `replace("\r", "\n")` */
  function ReplaceCR(text: string): string {
    if text == "" then "" else [if text[0] == '\r' then '\n' else text[0]] + ReplaceCR(text[1..])
  }

  const BOM := '\U{FEFF}'

  /** `replace("\ufeff", "")` */
  function RemoveBOM(text: string): string {
    if text == "" then "" else (if text[0] == BOM then "" else [text[0]]) + RemoveBOM(text[1..])
  }

  function Decoded(text: string): string {
    RemoveBOM(ReplaceCR(ReplaceCRLF(text)))
  }

  function RStripAll(lines: seq<string>): (r: seq<string>)
    ensures |r| == |lines|
  {
    if lines == [] then [] else RStripAll(lines[..|lines| - 1]) + [RStrip(lines[|lines| - 1])]
  }

  /** Without the empty lines at the start. */
  function DropLeading(lines: seq<string>): seq<string> {
    if lines != [] && lines[0] == "" then DropLeading(lines[1..]) else lines
  }

  /** Without the empty lines at the end. */
  function DropTrailing(lines: seq<string>): seq<string> {
    if lines != [] && lines[|lines| - 1] == "" then DropTrailing(lines[..|lines| - 1]) else lines
  }

  function NormalLines(text: string): seq<string> {
    DropTrailing(DropLeading(RStripAll(Lines(Decoded(text)))))
  }

  function Normalized(text: string): string {
    Document(NormalLines(text))
  }

  datatype LimitError = TextTooLong | TooManyLines

  /** The loop over `_iter_lines`, which raises at the line after the last one allowed. */
  method StripLines(decoded: string, maxLines: nat) returns (lines: seq<string>, tooMany: bool)
    ensures tooMany <==> |Lines(decoded)| > maxLines
    ensures !tooMany ==> lines == RStripAll(Lines(decoded))
  {
    hide RStrip, LinesFrom, RStripAll, Lines;
    ghost var all := Lines(decoded);
    NoLineTaken(decoded);
    lines := [];
    var start := 0;
    while start < |decoded|
      invariant start <= |decoded| && |lines| <= maxLines && |lines| <= |all|
      invariant lines == RStripAll(all[..|lines|])
      invariant LinesFrom(decoded, start) == all[|lines|..]
      decreases |decoded| - start
    {
      var end := FindNewline(decoded, start);
      LineTaken(decoded, start, all, |lines|);
      if |lines| + 1 > maxLines {
        return [], true;
      }
      lines := lines + [RStrip(decoded[start..end])];
      start := if end == |decoded| then end else end + 1;
    }
    AllTaken(decoded, all, |lines|);
    tooMany := false;
  }

  lemma NoLineTaken(text: string)
    ensures RStripAll(Lines(text)[..0]) == [] && LinesFrom(text, 0) == Lines(text)[0..]
  {
    assert Lines(text)[0..] == Lines(text);
  }

  /** Reading one more line of a text's lines. */
  lemma LineTaken(text: string, start: nat, all: seq<string>, count: nat)
    requires start < |text| && count <= |all| && LinesFrom(text, start) == all[count..]
    ensures var end := FindNewline(text, start);
            && count < |all| && all[count] == text[start..end]
            && LinesFrom(text, if end == |text| then end else end + 1) == all[count + 1..]
    ensures RStripAll(all[..count + 1]) == RStripAll(all[..count]) + [RStrip(all[count])]
  {
    hide RStrip, LinesFrom, FindNewline;
    LinesFromStep(text, start);
    EndOfLines(text);
    assert all[count] == all[count..][0];
    assert all[count + 1..] == all[count..][1..];
    assert all[..count + 1][..count] == all[..count];
  }

  lemma AllTaken(text: string, all: seq<string>, count: nat)
    requires count <= |all| && LinesFrom(text, |text|) == all[count..]
    ensures count == |all| && all[..count] == all
  {
    hide LinesFrom;
    EndOfLines(text);
  }

  method TrimEnds(all: seq<string>) returns (lines: seq<string>)
    ensures lines == DropTrailing(DropLeading(all))
  {
    var start := 0;
    assert all[0..] == all;
    while start < |all| && all[start] == ""
      invariant start <= |all|
      invariant DropLeading(all[start..]) == DropLeading(all)
    {
      assert all[start..][1..] == all[start + 1..];
      start := start + 1;
    }
    lines := all[start..];
    while lines != [] && lines[|lines| - 1] == ""
      invariant DropTrailing(lines) == DropTrailing(DropLeading(all))
    {
      lines := lines[..|lines| - 1];
    }
  }

  /** `normalize_text` */
  method NormalizeText(text: string, maxBytes: nat, maxLines: nat)
    returns (normalized: string, error: Option<LimitError>)
    ensures error.None? ==> normalized == Normalized(text)
    ensures error == if |Utf8.Encode(text)| > maxBytes then Some(TextTooLong)
                     else if |Lines(Decoded(text))| > maxLines then Some(TooManyLines)
                     else None
  {
    hide Utf8.Encode, Decoded, Lines;
    if |Utf8.Encode(text)| > maxBytes {
      return "", Some(TextTooLong);
    }
    var lines, tooMany := StripLines(Decoded(text), maxLines);
    if tooMany {
      return "", Some(TooManyLines);
    }
    lines := TrimEnds(lines);
    normalized := Join(lines) + (if lines != [] then "\n" else "");
    error := None;
  }

  lemma LinesFromStep(text: string, start: nat)
    requires start < |text|
    ensures var end := FindNewline(text, start);
            LinesFrom(text, start) == [text[start..end]] + (if end == |text| then [] else LinesFrom(text, end + 1))
  {
  }

  lemma EndOfLines(text: string)
    ensures LinesFrom(text, |text|) == []
  {
  }

  // ---- Lines and documents are inverse ----

  lemma {:induction false} LinesFromAppend(s: string, line: string, i: nat)
    requires i <= |s| && OneLine(line)
    requires i < |s| ==> s[|s| - 1] == '\n'
    ensures LinesFrom(s + line + "\n", i) == LinesFrom(s, i) + [line]
    decreases |s| - i
  {
    hide LinesFrom;
    var whole := s + line + "\n";
    LinesFromStep(whole, i);
    EndOfLines(whole);
    EndOfLines(s);
    var end := FindNewline(whole, i);
    if i == |s| {
      assert whole[|s| + |line|] == '\n';
      assert forall j | |s| <= j < |s| + |line| :: whole[j] == line[j - |s|];
      assert end == |s| + |line|;
      assert whole[i..end] == line;
    } else {
      LinesFromStep(s, i);
      SameNewline(s, whole, i);
      assert whole[i..end] == s[i..end];
      LinesFromAppend(s, line, end + 1);
    }
  }

  lemma SameNewline(s: string, whole: string, i: nat)
    requires i < |s| <= |whole| && s == whole[..|s|] && s[|s| - 1] == '\n'
    ensures FindNewline(whole, i) == FindNewline(s, i) < |s|
  {
    var a, b := FindNewline(s, i), FindNewline(whole, i);
    assert a < |s|;
    assert whole[a] == s[a];
  }

  lemma {:induction false} LinesOfDocument(lines: seq<string>)
    requires AllOneLine(lines)
    ensures Lines(Document(lines)) == lines
    ensures lines != [] ==> Document(lines) != "" && Document(lines)[|Document(lines)| - 1] == '\n'
  {
    if lines != [] {
      hide LinesFrom;
      var front, last := lines[..|lines| - 1], lines[|lines| - 1];
      LinesOfDocument(front);
      LinesFromAppend(Document(front), last, 0);
      assert front + [last] == lines;
    } else {
      EndOfLines("");
    }
  }

  /** Joining without the final newline loses nothing as long as the last line is not empty. */
  lemma {:induction false} LinesOfJoin(lines: seq<string>)
    requires AllOneLine(lines) && (lines != [] ==> lines[|lines| - 1] != "")
    ensures Lines(Join(lines)) == lines
  {
    hide LinesFrom;
    if lines == [] {
      EndOfLines("");
    } else {
      var front, last := lines[..|lines| - 1], lines[|lines| - 1];
      LinesOfDocument(front);
      LinesFromUnfinished(Document(front), last, 0);
      assert front + [last] == lines;
    }
  }

  lemma {:induction false} LinesFromUnfinished(s: string, line: string, i: nat)
    requires i <= |s| && OneLine(line) && line != ""
    requires i < |s| ==> s[|s| - 1] == '\n'
    ensures LinesFrom(s + line, i) == LinesFrom(s, i) + [line]
    decreases |s| - i
  {
    hide LinesFrom;
    var whole := s + line;
    LinesFromStep(whole, i);
    EndOfLines(s);
    var end := FindNewline(whole, i);
    if i == |s| {
      assert forall j | |s| <= j < |whole| :: whole[j] == line[j - |s|];
      assert end == |whole|;
      assert whole[i..end] == line;
    } else {
      LinesFromStep(s, i);
      SameNewline(s, whole, i);
      assert whole[i..end] == s[i..end];
      LinesFromUnfinished(s, line, end + 1);
    }
  }

  // ---- Normalizing twice ----

  /** Text that decoding leaves alone. */
  ghost predicate Plain(text: string) {
    forall i | 0 <= i < |text| :: text[i] != '\r' && text[i] != BOM
  }

  lemma {:induction false} DecodedPlain(text: string)
    ensures Plain(Decoded(text))
  {
    CRReplaced(ReplaceCRLF(text));
    BOMRemoved(ReplaceCR(ReplaceCRLF(text)));
  }

  lemma {:induction false} CRReplaced(text: string)
    ensures forall i | 0 <= i < |ReplaceCR(text)| :: ReplaceCR(text)[i] != '\r'
  {
    if text != "" { CRReplaced(text[1..]); }
  }

  lemma {:induction false} BOMRemoved(text: string)
    requires forall i | 0 <= i < |text| :: text[i] != '\r'
    ensures Plain(RemoveBOM(text))
  {
    if text != "" { BOMRemoved(text[1..]); }
  }

  lemma {:induction false} PlainUnchanged(text: string)
    requires Plain(text)
    ensures ReplaceCRLF(text) == text && ReplaceCR(text) == text && RemoveBOM(text) == text
  {
    if text != "" {
      PlainUnchanged(text[1..]);
      assert [text[0]] + text[1..] == text;
    }
  }

  ghost predicate PlainLines(lines: seq<string>) {
    forall i | 0 <= i < |lines| :: OneLine(lines[i]) && Plain(lines[i])
  }

  lemma {:induction false} LinesPlain(text: string, start: nat)
    requires start <= |text| && Plain(text)
    ensures PlainLines(LinesFrom(text, start))
    decreases |text| - start
  {
    hide LinesFrom;
    EndOfLines(text);
    if start < |text| {
      LinesFromStep(text, start);
      var end := FindNewline(text, start);
      PlainLine(text, start, end);
      if end < |text| { LinesPlain(text, end + 1); }
    }
  }

  lemma PlainLine(text: string, start: nat, end: nat)
    requires start <= end <= |text| && Plain(text)
    requires forall i | start <= i < end :: text[i] != '\n'
    ensures OneLine(text[start..end]) && Plain(text[start..end])
  {
    assert forall i | 0 <= i < end - start :: text[start..end][i] == text[start + i];
  }

  ghost predicate Stripped(lines: seq<string>) {
    forall i | 0 <= i < |lines| :: RStrip(lines[i]) == lines[i]
  }

  lemma RStripTwice(line: string)
    ensures RStrip(RStrip(line)) == RStrip(line)
  {
  }

  lemma {:induction false} StripAll(lines: seq<string>)
    requires PlainLines(lines)
    ensures PlainLines(RStripAll(lines)) && Stripped(RStripAll(lines))
  {
    hide RStrip, RStripAll;
    RStripAllStep(lines);
    if lines != [] {
      StripAll(lines[..|lines| - 1]);
      RStripTwice(lines[|lines| - 1]);
    }
  }

  lemma RStripAllStep(lines: seq<string>)
    ensures RStripAll(lines) ==
            if lines == [] then [] else RStripAll(lines[..|lines| - 1]) + [RStrip(lines[|lines| - 1])]
  {
  }

  lemma {:induction false} StrippedUnchanged(lines: seq<string>)
    requires Stripped(lines)
    ensures RStripAll(lines) == lines
  {
    hide RStrip;
    if lines != [] {
      StrippedUnchanged(lines[..|lines| - 1]);
      assert lines[..|lines| - 1] + [lines[|lines| - 1]] == lines;
    }
  }

  ghost predicate Trimmed(lines: seq<string>) {
    lines != [] ==> lines[0] != "" && lines[|lines| - 1] != ""
  }

  lemma {:induction false} LeadingDropped(lines: seq<string>)
    requires PlainLines(lines) && Stripped(lines)
    ensures var r := DropLeading(lines);
            PlainLines(r) && Stripped(r) && (r != [] ==> r[0] != "") && |r| <= |lines|
  {
    hide RStrip;
    if lines != [] && lines[0] == "" { LeadingDropped(lines[1..]); }
  }

  lemma {:induction false} TrailingDropped(lines: seq<string>)
    requires PlainLines(lines) && Stripped(lines) && (lines != [] ==> lines[0] != "")
    ensures var r := DropTrailing(lines);
            PlainLines(r) && Stripped(r) && Trimmed(r) && |r| <= |lines|
  {
    hide RStrip;
    if lines != [] && lines[|lines| - 1] == "" { TrailingDropped(lines[..|lines| - 1]); }
  }

  /** What every normalized text consists of. */
  lemma NormalLinesAreNormal(text: string)
    ensures var lines := NormalLines(text);
            PlainLines(lines) && Stripped(lines) && Trimmed(lines) && |lines| <= |Lines(Decoded(text))|
  {
    hide RStripAll, DropLeading, DropTrailing, LinesFrom, Decoded;
    DecodedPlain(text);
    LinesPlain(Decoded(text), 0);
    StripAll(Lines(Decoded(text)));
    LeadingDropped(RStripAll(Lines(Decoded(text))));
    TrailingDropped(DropLeading(RStripAll(Lines(Decoded(text)))));
  }

  lemma {:induction false} DocumentPlain(lines: seq<string>)
    requires PlainLines(lines)
    ensures Plain(Document(lines))
  {
    if lines != [] { DocumentPlain(lines[..|lines| - 1]); }
  }

  lemma NormalLinesStay(lines: seq<string>)
    requires PlainLines(lines) && Stripped(lines) && Trimmed(lines)
    ensures Lines(Decoded(Document(lines))) == lines
    ensures NormalLines(Document(lines)) == lines
  {
    hide Document, LinesFrom, RStrip, RStripAll, ReplaceCR, ReplaceCRLF, RemoveBOM;
    DocumentPlain(lines);
    PlainUnchanged(Document(lines));
    LinesOfDocument(lines);
    StrippedUnchanged(lines);
  }

  lemma NormalizeIdempotent(text: string)
    ensures Normalized(Normalized(text)) == Normalized(text)
  {
    NormalLinesAreNormal(text);
    hide NormalLines, Document;
    NormalLinesStay(NormalLines(text));
  }

  /** The second call's line count never exceeds the first one's. */
  lemma NoMoreLines(text: string)
    ensures |Lines(Decoded(Normalized(text)))| <= |Lines(Decoded(text))|
  {
    NormalLinesAreNormal(text);
    hide NormalLines, Document, Decoded, LinesFrom;
    NormalLinesStay(NormalLines(text));
  }

  // ---- How much normalizing can add ----

  function Bytes(s: string): nat {
    |Utf8.Encode(s)|
  }

  lemma BytesOfAppend(s: string, t: string)
    ensures Bytes(s + t) == Bytes(s) + Bytes(t)
  {
    Utf8.EncodeAppend(s, t);
    hide Utf8.Encode;
  }

  lemma BytesPositive(s: string)
    requires s != ""
    ensures Bytes(s) >= 1
  {
  }

  lemma BytesOfFirst(s: string)
    requires s != ""
    ensures Bytes(s) == Bytes([s[0]]) + Bytes(s[1..])
    ensures |s| >= 2 ==> Bytes(s) >= Bytes([s[1]]) + Bytes(s[2..])
    ensures Bytes("\n") == Bytes("\r") == 1
  {
    assert s == [s[0]] + s[1..];
    BytesOfAppend([s[0]], s[1..]);
    if |s| >= 2 {
      assert s[1..] == [s[1]] + s[2..];
      BytesOfAppend([s[1]], s[2..]);
    }
    assert "\n"[1..] == "" && "\r"[1..] == "";
  }

  predicate HasCRLF(text: string) {
    exists i | 0 <= i < |text| - 1 :: text[i] == '\r' && text[i + 1] == '\n'
  }

  predicate HasBOM(text: string) {
    exists i | 0 <= i < |text| :: text[i] == BOM
  }

  lemma CRLFFirst(text: string)
    requires text != ""
    ensures HasCRLF(text) <==> (|text| >= 2 && text[0] == '\r' && text[1] == '\n') || HasCRLF(text[1..])
  {
    if HasCRLF(text[1..]) {
      var i :| 0 <= i < |text[1..]| - 1 && text[1..][i] == '\r' && text[1..][i + 1] == '\n';
      assert text[i + 1] == '\r' && text[i + 2] == '\n';
    }
    if i: nat :| i < |text| - 1 && text[i] == '\r' && text[i + 1] == '\n' && i > 0 {
      assert text[1..][i - 1] == '\r' && text[1..][i] == '\n';
    }
  }

  lemma BOMFirst(text: string)
    requires text != ""
    ensures HasBOM(text) <==> text[0] == BOM || HasBOM(text[1..])
  {
    if HasBOM(text[1..]) {
      var i :| 0 <= i < |text[1..]| && text[1..][i] == BOM;
      assert text[i + 1] == BOM;
    }
    if i: nat :| i < |text| && text[i] == BOM && i > 0 { assert text[1..][i - 1] == BOM; }
  }

  lemma {:induction false} CRLFShrinks(text: string)
    ensures Bytes(ReplaceCRLF(text)) <= Bytes(text)
    ensures if HasCRLF(text) then Bytes(ReplaceCRLF(text)) < Bytes(text) else ReplaceCRLF(text) == text
  {
    hide Bytes, HasCRLF;
    if text == "" {
      NoPair();
    } else {
      BytesOfFirst(text);
      CRLFFirst(text);
      if |text| >= 2 && text[0] == '\r' && text[1] == '\n' {
        CRLFShrinks(text[2..]);
        BytesOfAppend("\n", ReplaceCRLF(text[2..]));
        assert text[1..] == [text[1]] + text[2..];
        BytesOfAppend([text[1]], text[2..]);
      } else {
        CRLFShrinks(text[1..]);
        BytesOfAppend([text[0]], ReplaceCRLF(text[1..]));
        assert [text[0]] + text[1..] == text;
      }
    }
  }

  lemma NoPair()
    ensures !HasCRLF("") && !HasBOM("")
  {
  }

  lemma {:induction false} CRKeeps(text: string)
    ensures Bytes(ReplaceCR(text)) == Bytes(text)
  {
    hide Bytes;
    if text != "" {
      BytesOfFirst(text);
      CRKeeps(text[1..]);
      BytesOfAppend([if text[0] == '\r' then '\n' else text[0]], ReplaceCR(text[1..]));
    }
  }

  lemma {:induction false} BOMShrinks(text: string)
    ensures Bytes(RemoveBOM(text)) <= Bytes(text)
    ensures if HasBOM(text) then Bytes(RemoveBOM(text)) < Bytes(text) else RemoveBOM(text) == text
  {
    hide Bytes, HasBOM;
    if text == "" {
      NoPair();
    } else {
      BytesOfFirst(text);
      BOMFirst(text);
      BOMShrinks(text[1..]);
      if text[0] == BOM {
        assert "" + RemoveBOM(text[1..]) == RemoveBOM(text[1..]);
        BytesPositive([text[0]]);
      } else {
        BytesOfAppend([text[0]], RemoveBOM(text[1..]));
        assert [text[0]] + text[1..] == text;
      }
    }
  }

  /** A document made of a text's lines is the text, with a final newline if it had none. */
  lemma {:induction false} LinesKeepText(text: string, start: nat)
    requires start <= |text|
    ensures Document(LinesFrom(text, start)) ==
            if start == |text| || text[|text| - 1] == '\n' then text[start..] else text[start..] + "\n"
    decreases |text| - start
  {
    hide LinesFrom, Document;
    EndOfLines(text);
    NoDocument();
    if start < |text| {
      LinesFromStep(text, start);
      var end := FindNewline(text, start);
      var line := text[start..end];
      if end == |text| {
        assert [line] + [] == [line];
        DocumentOne(line);
        assert text[start..] == line;
      } else {
        LinesKeepText(text, end + 1);
        DocumentFirst(line, LinesFrom(text, end + 1));
        assert text[start..] == line + "\n" + text[end + 1..];
      }
    }
  }

  lemma NoDocument()
    ensures Document([]) == ""
  {
  }

  lemma DocumentOne(line: string)
    ensures Document([line]) == line + "\n"
  {
    assert [line][..0] == [];
  }

  lemma {:induction false} DocumentFirst(line: string, rest: seq<string>)
    ensures Document([line] + rest) == line + "\n" + Document(rest)
  {
    if rest == [] {
      assert [line] + rest == [line];
      DocumentOne(line);
    } else {
      var front, last := rest[..|rest| - 1], rest[|rest| - 1];
      DocumentFirst(line, front);
      assert ([line] + rest)[..|rest|] == [line] + front;
    }
  }

  lemma DocumentBytes(lines: seq<string>)
    requires lines != []
    ensures Bytes(Document(lines)) == Bytes(Document(lines[..|lines| - 1])) + Bytes(lines[|lines| - 1]) + 1
    ensures Bytes(Document(lines)) == Bytes(lines[0]) + 1 + Bytes(Document(lines[1..]))
  {
    hide Bytes;
    BytesOfFirst("\n");
    DocumentEnds(lines);
    hide Document;
    var front, last := Document(lines[..|lines| - 1]), lines[|lines| - 1];
    BytesOfAppend(front + last, "\n");
    BytesOfAppend(front, last);
    assert [lines[0]] + lines[1..] == lines;
    DocumentFirst(lines[0], lines[1..]);
    BytesOfAppend(lines[0] + "\n", Document(lines[1..]));
    BytesOfAppend(lines[0], "\n");
  }

  lemma DocumentEnds(lines: seq<string>)
    requires lines != []
    ensures Document(lines) == Document(lines[..|lines| - 1]) + lines[|lines| - 1] + "\n"
  {
  }

  lemma RStripShrinks(line: string)
    ensures Bytes(RStrip(line)) <= Bytes(line)
    ensures RStrip(line) != line ==> Bytes(RStrip(line)) < Bytes(line)
  {
    var kept := RStrip(line);
    assert line == kept + line[|kept|..];
    hide RStrip, Bytes;
    BytesOfAppend(kept, line[|kept|..]);
    if |kept| < |line| { BytesPositive(line[|kept|..]); }
  }

  lemma {:induction false} StrippingShrinks(lines: seq<string>)
    ensures Bytes(Document(RStripAll(lines))) <= Bytes(Document(lines))
    ensures !Stripped(lines) ==> Bytes(Document(RStripAll(lines))) < Bytes(Document(lines))
  {
    hide Bytes, Document, RStrip;
    if lines != [] {
      var front, last := lines[..|lines| - 1], lines[|lines| - 1];
      StrippingShrinks(front);
      RStripShrinks(last);
      DocumentBytes(lines);
      DocumentBytes(RStripAll(lines));
      assert RStripAll(lines)[..|lines| - 1] == RStripAll(front);
      StrippedFront(lines);
      hide Stripped;
    }
  }

  lemma StrippedFront(lines: seq<string>)
    requires lines != []
    ensures Stripped(lines) <==>
              Stripped(lines[..|lines| - 1]) && RStrip(lines[|lines| - 1]) == lines[|lines| - 1]
  {
    hide RStrip;
    if Stripped(lines[..|lines| - 1]) {
      assert forall i | 0 <= i < |lines| - 1 :: lines[..|lines| - 1][i] == lines[i];
    }
  }

  lemma {:induction false} DroppingShrinks(lines: seq<string>)
    ensures Bytes(Document(DropLeading(lines))) <= Bytes(Document(lines))
    ensures lines != [] && lines[0] == "" ==> Bytes(Document(DropLeading(lines))) < Bytes(Document(lines))
    ensures Bytes(Document(DropTrailing(lines))) <= Bytes(Document(lines))
  {
    hide Bytes, Document;
    if lines != [] {
      DocumentBytes(lines);
      DroppingShrinks(lines[1..]);
      DroppingShrinks(lines[..|lines| - 1]);
    }
  }

  predicate NewlineChar(c: char) {
    c == '\n' || c == '\r'
  }

  /** Texts that normalizing leaves as they are but for line endings and a final newline: there is nothing else to
      drop. Only these become longer. */
  predicate Tight(text: string) {
    && text != "" && !NewlineChar(text[0]) && !NewlineChar(text[|text| - 1])
    && !HasCRLF(text) && !HasBOM(text)
    && forall i | 0 <= i < |Lines(ReplaceCR(text))| :: EndsClean(Lines(ReplaceCR(text))[i])
  }

  predicate EndsClean(line: string) {
    line == "" || !IsSpace(line[|line| - 1])
  }

  lemma CleanIsStripped(line: string)
    ensures EndsClean(line) <==> RStrip(line) == line
  {
  }

  lemma AllClean(lines: seq<string>)
    ensures (forall i | 0 <= i < |lines| :: EndsClean(lines[i])) <==> Stripped(lines)
  {
    forall i | 0 <= i < |lines| ensures EndsClean(lines[i]) <==> RStrip(lines[i]) == lines[i] {
      CleanIsStripped(lines[i]);
    }
    hide RStrip, EndsClean;
  }

  /** Replacing carriage returns changes no other character. */
  lemma {:induction false} CRPointwise(text: string)
    ensures |ReplaceCR(text)| == |text|
    ensures forall i | 0 <= i < |text| :: ReplaceCR(text)[i] == if text[i] == '\r' then '\n' else text[i]
    ensures HasBOM(ReplaceCR(text)) <==> HasBOM(text)
  {
    hide HasBOM;
    if text == "" {
    } else {
      CRPointwise(text[1..]);
      BOMFirst(text);
      BOMFirst(ReplaceCR(text));
      assert ReplaceCR(text)[1..] == ReplaceCR(text[1..]);
    }
  }

  /** Normalizing adds at most the one byte of a final newline. */
  lemma AddsAtMostOneByte(text: string)
    ensures Bytes(Normalized(text)) <= Bytes(text) + 1
  {
    hide Bytes, Document, RStripAll, DropLeading, DropTrailing, LinesFrom, ReplaceCRLF, ReplaceCR, RemoveBOM, HasCRLF,
         HasBOM, Stripped;
    CRLFShrinks(text);
    CRKeeps(ReplaceCRLF(text));
    BOMShrinks(ReplaceCR(ReplaceCRLF(text)));
    DocumentShrinks(Decoded(text));
  }

  /** From decoded text to normal form: what can make up for the final newline. */
  lemma DocumentShrinks(d: string)
    ensures var n := Bytes(Document(DropTrailing(DropLeading(RStripAll(Lines(d))))));
            && n <= Bytes(d) + 1
            && (d == "" || d[0] == '\n' || d[|d| - 1] == '\n' || !Stripped(Lines(d)) ==> n <= Bytes(d))
  {
    hide Bytes, Document, RStripAll, DropLeading, DropTrailing, LinesFrom, Stripped;
    var lines := Lines(d);
    LinesKeepText(d, 0);
    assert d[0..] == d;
    BytesOfAppend(d, "\n");
    BytesOfFirst("\n");
    StrippingShrinks(lines);
    DroppingShrinks(RStripAll(lines));
    DroppingShrinks(DropLeading(RStripAll(lines)));
    if d != "" && d[0] == '\n' { EmptyFirstLine(d); }
  }

  lemma EmptyFirstLine(d: string)
    requires d != ""
    ensures Lines(d) != [] && |RStripAll(Lines(d))| == |Lines(d)|
    ensures d[0] == '\n' ==> RStripAll(Lines(d))[0] == ""
    ensures d[0] != '\n' ==> Lines(d)[0] != ""
  {
    LinesFromStep(d, 0);
    hide LinesFrom;
    var end := FindNewline(d, 0);
    assert Lines(d)[0] == d[0..end];
    FirstStripped(Lines(d));
  }

  lemma {:induction false} FirstStripped(lines: seq<string>)
    requires lines != []
    ensures RStripAll(lines)[0] == RStrip(lines[0])
  {
    hide RStrip;
    if |lines| > 1 { FirstStripped(lines[..|lines| - 1]); }
  }

  lemma {:induction false} LastLineNotEmpty(d: string, start: nat)
    requires start < |d| && d[|d| - 1] != '\n'
    ensures var lines := LinesFrom(d, start); lines != [] && lines[|lines| - 1] != ""
    decreases |d| - start
  {
    hide LinesFrom;
    LinesFromStep(d, start);
    var end := FindNewline(d, start);
    if end < |d| { LastLineNotEmpty(d, end + 1); }
  }

  /** A text with nothing to drop: its normal form is itself, newlines replaced, with a final newline. */
  lemma TightGrows(text: string)
    requires Tight(text)
    ensures Normalized(text) == ReplaceCR(text) + "\n"
  {
    hide Bytes, Document, RStripAll, LinesFrom, ReplaceCRLF, ReplaceCR, RemoveBOM, HasCRLF, HasBOM, Stripped,
         EndsClean;
    CRLFShrinks(text);
    CRPointwise(text);
    BOMShrinks(ReplaceCR(text));
    var d := ReplaceCR(text);
    AllClean(Lines(d));
    StrippedUnchanged(Lines(d));
    EmptyFirstLine(d);
    LastLineNotEmpty(d, 0);
    assert DropTrailing(DropLeading(Lines(d))) == Lines(d);
    LinesKeepText(d, 0);
    assert d[0..] == d;
  }

  lemma SlackDoesNotGrow(text: string)
    requires !Tight(text)
    ensures Bytes(Normalized(text)) <= Bytes(text)
  {
    hide Bytes, Document, RStripAll, LinesFrom, ReplaceCRLF, ReplaceCR, RemoveBOM, HasCRLF, HasBOM, Stripped,
         EndsClean, DropLeading, DropTrailing;
    CRLFShrinks(text);
    CRKeeps(ReplaceCRLF(text));
    BOMShrinks(ReplaceCR(ReplaceCRLF(text)));
    DocumentShrinks(Decoded(text));
    CRPointwise(text);
    AllClean(Lines(ReplaceCR(text)));
  }

  /** Normalizing makes a text longer exactly when it is tight, and then by one byte. */
  lemma AddsAByteIffTight(text: string)
    ensures Bytes(Normalized(text)) == Bytes(text) + 1 <==> Tight(text)
    ensures !Tight(text) ==> Bytes(Normalized(text)) <= Bytes(text)
  {
    hide Bytes, Normalized, ReplaceCR, Tight;
    if Tight(text) {
      TightGrows(text);
      CRKeeps(text);
      BytesOfAppend(ReplaceCR(text), "\n");
      BytesOfFirst("\n");
    } else {
      SlackDoesNotGrow(text);
    }
  }

  /** The texts `normalize_text` does not refuse. */
  predicate Accepted(text: string, maxBytes: nat, maxLines: nat) {
    Bytes(text) <= maxBytes && |Lines(Decoded(text))| <= maxLines
  }

  /** A second call on the result of a successful one fails exactly when the text just met the byte cap and is tight. */
  lemma SecondCallFailsIffTight(text: string, maxBytes: nat, maxLines: nat)
    requires Accepted(text, maxBytes, maxLines)
    ensures !Accepted(Normalized(text), maxBytes, maxLines) <==> Bytes(text) == maxBytes && Tight(text)
  {
    hide Bytes, Normalized, Tight, Lines, Decoded;
    AddsAByteIffTight(text);
    NoMoreLines(text);
  }

  /** The text "a" just meets a cap of one byte; its normal form does not. */
  lemma SecondCallCanFail()
    ensures Bytes("a") == 1 && Bytes(Normalized("a")) == 2
  {
    assert "a"[1..] == "";
    PlainUnchanged("a");
    LinesOfA();
    hide LinesFrom;
    assert RStripAll(["a"]) == RStripAll([]) + [RStrip("a")] == ["a"];
    assert NormalLines("a") == ["a"];
    DocumentOne("a");
    BytesOfAppend("a", "\n");
    BytesOfFirst("\n");
  }

  lemma LinesOfA()
    ensures Lines("a") == ["a"]
  {
    assert FindNewline("a", 0) == 1 && "a"[0..1] == "a";
    assert LinesFrom("a", 0) == ["a"] + [];
  }

  // ---- Line endings ----

  function WithEnding(text: string, ending: string): string {
    if text == "" then ""
    else (if text[0] == '\n' then ending else [text[0]]) + WithEnding(text[1..], ending)
  }

  lemma {:induction false} CRLFUndone(text: string)
    requires forall i | 0 <= i < |text| :: text[i] != '\r'
    ensures ReplaceCRLF(WithEnding(text, "\r\n")) == text
    ensures WithEnding(text, "\r\n") != "" && text[0] != '\n' ==> WithEnding(text, "\r\n")[0] == text[0]
  {
    if text != "" {
      CRLFUndone(text[1..]);
      var rest := WithEnding(text[1..], "\r\n");
      if text[0] == '\n' {
        assert ("\r\n" + rest)[2..] == rest;
      } else {
        assert ([text[0]] + rest)[1..] == rest;
      }
      assert [text[0]] + text[1..] == text;
    }
  }

  lemma {:induction false} CRUndone(text: string)
    requires forall i | 0 <= i < |text| :: text[i] != '\r'
    ensures ReplaceCRLF(WithEnding(text, "\r")) == WithEnding(text, "\r")
    ensures ReplaceCR(WithEnding(text, "\r")) == text
    ensures forall i | 0 <= i < |WithEnding(text, "\r")| :: WithEnding(text, "\r")[i] != '\n'
  {
    if text != "" {
      CRUndone(text[1..]);
      var rest := WithEnding(text[1..], "\r");
      var head := if text[0] == '\n' then "\r" else [text[0]];
      assert WithEnding(text, "\r") == head + rest;
      assert (head + rest)[1..] == rest;
      assert [text[0]] + text[1..] == text;
    }
  }

  lemma {:induction false} NoCRUnchanged(text: string)
    requires forall i | 0 <= i < |text| :: text[i] != '\r'
    ensures ReplaceCRLF(text) == text && ReplaceCR(text) == text
  {
    if text != "" {
      NoCRUnchanged(text[1..]);
      assert [text[0]] + text[1..] == text;
    }
  }

  /** The LF, CRLF and CR forms of a text normalize alike. */
  lemma EndingsNormalizeAlike(text: string)
    requires forall i | 0 <= i < |text| :: text[i] != '\r'
    ensures Decoded(WithEnding(text, "\r\n")) == Decoded(text) == Decoded(WithEnding(text, "\r"))
    ensures Normalized(WithEnding(text, "\r\n")) == Normalized(text) == Normalized(WithEnding(text, "\r"))
  {
    hide Lines, RStripAll, Document, WithEnding, RemoveBOM;
    CRLFUndone(text);
    CRUndone(text);
    NoCRUnchanged(text);
  }
}
