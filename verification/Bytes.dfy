/** Byte strings, and the few operations on them that the source takes from Python's `bytes`. */
module Bytes {

  type Byte = b: int | 0 <= b < 256

  const LF: Byte := 10
  const CR: Byte := 13

  /** The ASCII whitespace that `bytes.strip` removes. */
  predicate IsSpace(b: Byte) {
    9 <= b <= 13 || b == 32
  }

  lemma SpacesAre(b: Byte)
    ensures IsSpace(b) <==> b == 9 || b == LF || b == 11 || b == 12 || b == CR || b == 32
  {
  }

  /** `not raw.strip()` */
  predicate Blank(s: seq<Byte>) {
    forall i | 0 <= i < |s| :: IsSpace(s[i])
  }

  predicate EndsWith(s: seq<Byte>, b: Byte) {
    s != [] && s[|s| - 1] == b
  }

  /** `chunk.find(b, start)`, with the length standing for "not found". */
  function IndexOf(s: seq<Byte>, b: Byte, start: nat): (i: nat)
    requires start <= |s|
    ensures start <= i <= |s|
    ensures forall k | start <= k < i :: s[k] != b
    ensures i < |s| ==> s[i] == b
    decreases |s| - start
  {
    if start == |s| || s[start] == b then start else IndexOf(s, b, start + 1)
  }

  function Concat(chunks: seq<seq<Byte>>): seq<Byte> {
    if chunks == [] then [] else Concat(chunks[..|chunks| - 1]) + chunks[|chunks| - 1]
  }
}
