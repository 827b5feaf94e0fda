/** The string operations of the source language that the knowledge pipeline uses. */
module PyText {

  /** `str.isspace` on one character, which is also the class the regular expressions call white space. */
  predicate IsSpace(c: char) {
    var n := c as int;
    || 0x09 <= n <= 0x0D || 0x1C <= n <= 0x20 || n == 0x85 || n == 0xA0 || n == 0x1680
    || 0x2000 <= n <= 0x200A || n == 0x2028 || n == 0x2029 || n == 0x202F || n == 0x205F || n == 0x3000
  }

  /** All twenty-nine of them. */
  lemma SpacesAre(c: char)
    ensures IsSpace(c) <==>
              || c == '\t' || c == '\n' || c == '\U{B}' || c == '\U{C}' || c == '\r' || c == ' '
              || c == '\U{1C}' || c == '\U{1D}' || c == '\U{1E}' || c == '\U{1F}' || c == '\U{85}' || c == '\U{A0}'
              || c == '\U{1680}' || '\U{2000}' <= c <= '\U{200A}' || c == '\U{2028}' || c == '\U{2029}'
              || c == '\U{202F}' || c == '\U{205F}' || c == '\U{3000}'
  {
  }

  /** `not s.strip()` */
  predicate Blank(s: string) {
    forall i | 0 <= i < |s| :: IsSpace(s[i])
  }

  function LStrip(s: string): (r: string)
    ensures |r| <= |s| && r == s[|s| - |r|..]
    ensures r != "" ==> !IsSpace(r[0])
    ensures forall i | 0 <= i < |s| - |r| :: IsSpace(s[i])
  {
    if s != "" && IsSpace(s[0]) then LStrip(s[1..]) else s
  }

  function RStrip(s: string): (r: string)
    ensures |r| <= |s| && r == s[..|r|]
    ensures r != "" ==> !IsSpace(r[|r| - 1])
    ensures forall i | |r| <= i < |s| :: IsSpace(s[i])
  {
    if s != "" && IsSpace(s[|s| - 1]) then RStrip(s[..|s| - 1]) else s
  }

  function Strip(s: string): string {
    LStrip(RStrip(s))
  }

  /** `text.find("\n", start)`, with the length for "not found". */
  function FindNewline(text: string, start: nat): (end: nat)
    requires start <= |text|
    ensures start <= end <= |text|
    ensures forall i | start <= i < end :: text[i] != '\n'
    ensures end < |text| ==> text[end] == '\n'
    decreases |text| - start
  {
    if start == |text| || text[start] == '\n' then start else FindNewline(text, start + 1)
  }
}
