/** UTF-8 (section 3 of RFC 3629) and the three text truncations built on it: the two that pop bytes
    until the prefix decodes, and the forward scan over characters. */
module Utf8 {
  import opened Bytes
  import opened Options

  function EncodeChar(c: char): (bytes: seq<Byte>)
    ensures 1 <= |bytes| <= 4
  {
    var n := c as int;
    if n < 0x80 then [n]
    else if n < 0x800 then [0xC0 + n / 64, 0x80 + n % 64]
    else if n < 0x10000 then [0xE0 + n / 4096, 0x80 + n / 64 % 64, 0x80 + n % 64]
    else [0xF0 + n / 262144, 0x80 + n / 4096 % 64, 0x80 + n / 64 % 64, 0x80 + n % 64]
  }

  ghost predicate Carries(b: Byte) {
    0x80 <= b <= 0xBF
  }

  ghost function Low(b: Byte): int {
    b as int % 64
  }

  lemma LowOf(x: int)
    requires 0 <= x < 64
    ensures (0x80 + x) % 64 == x
  {
  }

  lemma TwoByteForm(c: char)
    requires 0x80 <= c as int <= 0x7FF
    ensures var n, b := c as int, EncodeChar(c);
            && |b| == 2 && 0xC2 <= b[0] <= 0xDF && Carries(b[1]) && n == (b[0] as int - 0xC0) * 64 + Low(b[1])
  {
    LowOf(c as int % 64);
  }

  lemma ThreeByteForm(c: char)
    requires 0x800 <= c as int <= 0xFFFF
    ensures var n, b := c as int, EncodeChar(c);
            && |b| == 3 && 0xE0 <= b[0] <= 0xEF && Carries(b[1]) && Carries(b[2])
            && n == (b[0] as int - 0xE0) * 4096 + Low(b[1]) * 64 + Low(b[2])
  {
    var n := c as int;
    assert n / 64 == n / 4096 * 64 + n / 64 % 64;
    LowOf(n % 64);
    LowOf(n / 64 % 64);
  }

  lemma FourByteForm(c: char)
    requires 0x1_0000 <= c as int
    ensures var n, b := c as int, EncodeChar(c);
            && |b| == 4 && 0xF0 <= b[0] <= 0xF4 && Carries(b[1]) && Carries(b[2]) && Carries(b[3])
            && n == (b[0] as int - 0xF0) * 262144 + Low(b[1]) * 4096 + Low(b[2]) * 64 + Low(b[3])
  {
    var n := c as int;
    assert n / 64 == n / 4096 * 64 + n / 64 % 64;
    assert n / 4096 == n / 262144 * 64 + n / 4096 % 64;
    LowOf(n % 64);
    LowOf(n / 64 % 64);
    LowOf(n / 4096 % 64);
  }

  /** The table of section 3 of RFC 3629: how many bytes, and which bits of the character each of them carries. */
  lemma EncodedForm(c: char)
    ensures var n, b := c as int, EncodeChar(c);
            && (n <= 0x7F ==> |b| == 1 && b[0] == n)
            && (0x80 <= n <= 0x7FF ==>
                  |b| == 2 && 0xC2 <= b[0] <= 0xDF && Carries(b[1]) && n == (b[0] as int - 0xC0) * 64 + Low(b[1]))
            && (0x800 <= n <= 0xFFFF ==>
                  && |b| == 3 && 0xE0 <= b[0] <= 0xEF && Carries(b[1]) && Carries(b[2])
                  && n == (b[0] as int - 0xE0) * 4096 + Low(b[1]) * 64 + Low(b[2]))
            && (0x1_0000 <= n ==>
                  && |b| == 4 && 0xF0 <= b[0] <= 0xF4 && Carries(b[1]) && Carries(b[2]) && Carries(b[3])
                  && n == (b[0] as int - 0xF0) * 262144 + Low(b[1]) * 4096 + Low(b[2]) * 64 + Low(b[3]))
  {
    var n := c as int;
    if n > 0x7F {
      hide EncodeChar, Low, Carries;
      if n <= 0x7FF { TwoByteForm(c); } else if n <= 0xFFFF { ThreeByteForm(c); } else { FourByteForm(c); }
    }
  }

  function Encode(s: string): seq<Byte> {
    if s == "" then [] else EncodeChar(s[0]) + Encode(s[1..])
  }

  predicate Continuation(b: Byte) {
    0x80 <= b < 0xC0
  }

  datatype Decoded = Char(c: char, width: nat) | Invalid

  /** How many bytes a sequence with this lead byte takes; 0 for a byte that leads nothing. */
  function Width(lead: Byte): nat {
    if lead < 0x80 then 1 else if 0xC2 <= lead < 0xE0 then 2
    else if 0xE0 <= lead < 0xF0 then 3 else if 0xF0 <= lead < 0xF5 then 4 else 0
  }

  /** The six bits a continuation byte carries. */
  function Bits(b: Byte): int {
    b as int - 0x80
  }

  function CodePoint(b: seq<Byte>): int
    requires b != [] && Width(b[0]) <= |b|
  {
    var lead := b[0] as int;
    match Width(b[0])
    case 2 => (lead - 0xC0) * 64 + Bits(b[1])
    case 3 => (lead - 0xE0) * 4096 + Bits(b[1]) * 64 + Bits(b[2])
    case 4 => (lead - 0xF0) * 262144 + Bits(b[1]) * 4096 + Bits(b[2]) * 64 + Bits(b[3])
    case _ => lead
  }

  /** The strict decoder on the first character: no truncated, overlong, surrogate or too large forms. */
  function DecodeChar(b: seq<Byte>): (d: Decoded)
    requires b != []
    ensures d.Char? ==> 1 <= d.width <= |b|
  {
    var width := Width(b[0]);
    if width == 0 || |b| < width then Invalid
    else if width == 1 then Char(b[0] as char, 1)
    else if !Continuation(b[1]) || (width >= 3 && !Continuation(b[2])) || (width == 4
        && !Continuation(b[3])) then Invalid
    else
      var n: int := CodePoint(b);
      var least: int := if width == 2 then 0x80 else if width == 3 then 0x800 else 0x10000;
      if n < least || 0xD800 <= n < 0xE000 || n >= 0x11_0000 then Invalid
      else Char(n as char, width)
  }

  /** `bytes.decode("utf-8")`, with None for UnicodeDecodeError. */
  function Decode(b: seq<Byte>): Option<string>
    decreases |b|
  {
    if b == [] then Some("")
    else
      match DecodeChar(b)
      case Invalid => None
      case Char(c, width) =>
        match Decode(b[width..])
        case None => None
        case Some(rest) => Some([c] + rest)
  }

  // ---- Encoding and decoding are inverse ----

  lemma DecodeThreeBytes(c: char, rest: seq<Byte>)
    requires 0x800 <= c as int < 0x10000
    ensures DecodeChar(EncodeChar(c) + rest) == Char(c, 3)
  {
    var n := c as int;
    assert n / 64 == n / 4096 * 64 + n / 64 % 64;
  }

  lemma DecodeFourBytes(c: char, rest: seq<Byte>)
    requires c as int >= 0x10000
    ensures DecodeChar(EncodeChar(c) + rest) == Char(c, 4)
  {
    var n := c as int;
    assert n / 64 == n / 4096 * 64 + n / 64 % 64;
    assert n / 4096 == n / 262144 * 64 + n / 4096 % 64;
  }

  lemma DecodeEncodedChar(c: char, rest: seq<Byte>)
    ensures DecodeChar(EncodeChar(c) + rest) == Char(c, |EncodeChar(c)|)
  {
    if c as int >= 0x10000 {
      DecodeFourBytes(c, rest);
      hide DecodeChar;
    } else if c as int >= 0x800 {
      DecodeThreeBytes(c, rest);
      hide DecodeChar;
    }
  }

  lemma CutCharInvalid(c: char, k: nat)
    requires 0 < k < |EncodeChar(c)|
    ensures DecodeChar(EncodeChar(c)[..k]) == Invalid
  {
  }

  lemma Digits(q: int, r: int)
    requires 0 <= r < 64
    ensures (q * 64 + r) / 64 == q && (q * 64 + r) % 64 == r
  {
  }

  /** Two base-64 digits below `top`, and how division recovers them. */
  lemma TwoDigits(top: int, x: int, y: int)
    requires 0 <= x < 64 && 0 <= y < 64
    ensures var n := top * 4096 + x * 64 + y;
            n / 4096 == top && n / 64 % 64 == x && n % 64 == y && n / 64 == top * 64 + x
  {
    Digits(top * 64 + x, y);
    Digits(top, x);
  }

  lemma EncodeDecodedChar(b: seq<Byte>)
    requires b != [] && DecodeChar(b).Char?
    ensures EncodeChar(DecodeChar(b).c) == b[..DecodeChar(b).width]
  {
    var width, lead := Width(b[0]), b[0] as int;
    if width == 2 {
      Digits(lead - 0xC0, Bits(b[1]));
    } else if width == 3 {
      TwoDigits(lead - 0xE0, Bits(b[1]), Bits(b[2]));
    } else if width == 4 {
      var top := (lead - 0xF0) * 64 + Bits(b[1]);
      Digits(lead - 0xF0, Bits(b[1]));
      TwoDigits(top, Bits(b[2]), Bits(b[3]));
      assert CodePoint(b) / 262144 == top / 64;
    }
  }

  lemma {:induction false} DecodeInvertsEncode(s: string)
    ensures Decode(Encode(s)) == Some(s)
  {
    if s != "" {
      hide EncodeChar, DecodeChar;
      DecodeEncodedChar(s[0], Encode(s[1..]));
      var whole := Encode(s);
      assert whole[|EncodeChar(s[0])|..] == Encode(s[1..]);
      DecodeInvertsEncode(s[1..]);
      assert [s[0]] + s[1..] == s;
    }
  }

  lemma EncodeCons(c: char, rest: string)
    ensures Encode([c] + rest) == EncodeChar(c) + Encode(rest)
  {
    assert ([c] + rest)[1..] == rest;
  }

  lemma DecodeStep(b: seq<Byte>)
    requires b != [] && Decode(b).Some?
    ensures DecodeChar(b).Char?
    ensures var rest := Decode(b[DecodeChar(b).width..]);
            rest.Some? && Decode(b).value == [DecodeChar(b).c] + rest.value
  {
    hide DecodeChar;
  }

  lemma {:induction false} EncodeInvertsDecode(b: seq<Byte>)
    requires Decode(b).Some?
    ensures Encode(Decode(b).value) == b
    decreases |b|
  {
    hide EncodeChar, DecodeChar;
    if b != [] {
      DecodeStep(b);
      var d := DecodeChar(b);
      var tail := b[d.width..];
      var rest := Decode(tail).value;
      calc {
        Encode([d.c] + rest);
        { EncodeCons(d.c, rest); }
        EncodeChar(d.c) + Encode(rest);
        { EncodeInvertsDecode(tail); }
        EncodeChar(d.c) + tail;
        { EncodeDecodedChar(b); }
        b[..d.width] + tail;
        b;
      }
    }
  }

  // ---- The longest whole-character prefix ----

  /** How many leading characters of `s` fit in `n` bytes. */
  function Fitting(s: string, n: nat): (k: nat)
    ensures k <= |s|
  {
    if s == "" || |EncodeChar(s[0])| > n then 0
    else 1 + Fitting(s[1..], n - |EncodeChar(s[0])|)
  }

  lemma {:induction false} EncodeSplit(s: string, k: nat)
    requires k <= |s|
    ensures Encode(s) == Encode(s[..k]) + Encode(s[k..])
  {
    if k > 0 {
      EncodeSplit(s[1..], k - 1);
      assert s[..k][1..] == s[1..][..k - 1];
      assert s[k..] == s[1..][k - 1..];
    } else {
      assert s[..0] == "" && s[0..] == s;
    }
  }

  /** `Fitting` is the longest prefix: it fits, and one more character would not. */
  lemma {:induction false} FittingLongest(s: string, n: nat)
    ensures |Encode(s[..Fitting(s, n)])| <= n
    ensures forall k | Fitting(s, n) < k <= |s| :: |Encode(s[..k])| > n
  {
    var best := Fitting(s, n);
    if s != "" {
      if best > 0 {
        FittingLongest(s[1..], n - |EncodeChar(s[0])|);
        assert s[..best][1..] == s[1..][..best - 1];
      }
      forall k | best < k <= |s| ensures |Encode(s[..k])| > n {
        assert s[..k][1..] == s[1..][..k - 1];
      }
    }
  }

  /** A prefix of encoded text decodes exactly at a character boundary; the one nearest below `n` is at
      most three bytes away. */
  lemma {:induction false} PrefixDecodes(s: string, n: nat)
    requires n <= |Encode(s)|
    ensures |Encode(s[..Fitting(s, n)])| <= n <= |Encode(s[..Fitting(s, n)])| + 3
    ensures Decode(Encode(s)[..n]) ==
            if n == |Encode(s[..Fitting(s, n)])| then Some(s[..Fitting(s, n)]) else None
  {
    hide DecodeChar, EncodeChar;
    var best := Fitting(s, n);
    if s == "" {
    } else if best == 0 {
      assert s[..0] == "";
      assert n < |EncodeChar(s[0])|;
      if n > 0 {
        CutCharInvalid(s[0], n);
        assert Encode(s)[..n] == EncodeChar(s[0])[..n];
      }
    } else {
      var width := |EncodeChar(s[0])|;
      PrefixDecodes(s[1..], n - width);
      assert s[..best][1..] == s[1..][..best - 1];
      var b := Encode(s)[..n];
      var rest := Encode(s[1..])[..n - width];
      assert b == EncodeChar(s[0]) + rest;
      DecodeEncodedChar(s[0], rest);
      assert b[width..] == rest;
      assert [s[0]] + s[1..][..best - 1] == s[..best];
    }
  }

  /** Below the nearest boundary nothing shorter is reached: between it and `n` no prefix decodes. */
  lemma FittingBelow(s: string, m: nat, n: nat)
    requires |Encode(s[..Fitting(s, n)])| <= m <= n
    ensures Fitting(s, m) == Fitting(s, n)
  {
    FittingLongest(s, n);
    FittingLongest(s, m);
  }

  lemma FourBytesFitOne(s: string, n: nat)
    requires s != "" && n >= 4
    ensures Fitting(s, n) > 0
  {
  }

  // ---- Popping bytes ----

  /** The loop shared by both truncations: drop trailing bytes until the rest decodes. */
  method PopUntilDecodes(s: string, maxBytes: nat) returns (text: Option<string>, pops: nat)
    requires maxBytes < |Encode(s)|
    ensures text == if Fitting(s, maxBytes) == 0 then None else Some(s[..Fitting(s, maxBytes)])
    ensures pops == maxBytes - |Encode(s[..Fitting(s, maxBytes)])| <= 3
    ensures maxBytes >= 4 ==> text.Some?
  {
    var encoded := Encode(s);
    var truncated := encoded[..maxBytes];
    pops := 0;
    PrefixDecodes(s, maxBytes);
    ghost var floor := |Encode(s[..Fitting(s, maxBytes)])|;
    while truncated != []
      invariant floor <= |truncated| <= maxBytes
      invariant truncated == encoded[..|truncated|]
      invariant pops == maxBytes - |truncated|
    {
      PrefixDecodes(s, |truncated|);
      FittingBelow(s, |truncated|, maxBytes);
      var decoded := Decode(truncated);
      if decoded.Some? {
        assert |truncated| > 0;
        return decoded, pops;
      }
      truncated := truncated[..|truncated| - 1];
      pops := pops + 1;
    }
    if maxBytes >= 4 { FourBytesFitOne(s, maxBytes); }
    return None, pops;
  }

  const MAX_TEXT_CHARS := 512
  const MAX_TEXT_BYTES := 1024

  function Head(s: string, maxChars: nat): string {
    if |s| > maxChars then s[..maxChars] else s
  }

  /** The longest prefix of `s` within both caps. */
  function Bounded(s: string, maxChars: nat, maxBytes: nat): string {
    var head := Head(s, maxChars);
    head[..Fitting(head, maxBytes)]
  }

  lemma FittingWhole(s: string, n: nat)
    ensures |Encode(s)| <= n <==> Fitting(s, n) == |s|
  {
    FittingLongest(s, n);
    assert s[..|s|] == s;
  }

  /** `_bounded_text` of the pull adapter: None for an empty value, otherwise always text. */
  method BoundedText(value: string, maxChars: nat, maxBytes: nat) returns (text: Option<string>)
    ensures value == "" ==> text == None
    ensures value != "" ==>
              text == if Bounded(value, maxChars, maxBytes) == ""
                  && |Encode(Head(value, maxChars))| > maxBytes then None
                      else Some(Bounded(value, maxChars, maxBytes))
    ensures value != "" && maxChars >= 1 && maxBytes >= 4 ==> text.Some? && text.value != ""
  {
    if value == "" {
      return None;
    }
    var head := value;
    if |head| > maxChars {
      head := head[..maxChars];
    }
    FittingWhole(head, maxBytes);
    if |Encode(head)| <= maxBytes {
      assert head[..|head|] == head;
      return Some(head);
    }
    var pops;
    text, pops := PopUntilDecodes(head, maxBytes);
  }

  /** What `Bounded` means: a prefix within both caps that no longer prefix meets. */
  lemma BoundedLongest(s: string, maxChars: nat, maxBytes: nat)
    ensures var t := Bounded(s, maxChars, maxBytes);
            && |t| <= |s| && t == s[..|t|] && |t| <= maxChars && |Encode(t)| <= maxBytes
            && forall k | |t| < k <= |s| :: k > maxChars || |Encode(s[..k])| > maxBytes
  {
    var head := Head(s, maxChars);
    FittingLongest(head, maxBytes);
    forall k | Fitting(head, maxBytes) < k <= |s| && k <= maxChars ensures |Encode(s[..k])| > maxBytes {
      assert s[..k] == head[..k];
    }
  }

  /** A text of an event: it begins the original, within both caps, and is the longest that does. */
  ghost predicate IsBounded(t: string, s: string) {
    && |t| <= |s| && t == s[..|t|] && |t| <= MAX_TEXT_CHARS && |Encode(t)| <= MAX_TEXT_BYTES
    && forall k | |t| < k <= |s| :: k > MAX_TEXT_CHARS || |Encode(s[..k])| > MAX_TEXT_BYTES
  }

  lemma BoundedIs(s: string)
    requires s != ""
    ensures IsBounded(Bounded(s, MAX_TEXT_CHARS, MAX_TEXT_BYTES), s) && Bounded(s, MAX_TEXT_CHARS, MAX_TEXT_BYTES) != ""
  {
    BoundedLongest(s, MAX_TEXT_CHARS, MAX_TEXT_BYTES);
  }

  /** A short text is what a longer text is cut to only if it is that text. */
  lemma ShortIsKept(s: string, t: string, short: string)
    requires IsBounded(t, s) && |short| < 128
    ensures t == short <==> s == short
  {
    hide Encode;
    if s == short || t == short {
      var k := if |s| <= |short| + 1 then |s| else |short| + 1;
      EncodeAtMost(s[..k]);
      assert s[..|s|] == s;
    }
  }

  lemma {:induction false} EncodeAtMost(s: string)
    ensures |Encode(s)| <= 4 * |s|
  {
    if s != "" { EncodeAtMost(s[1..]); }
  }

  const INVALID := "...[invalid-text]"

  predicate Control(c: char) {
    c as int < 32 || c as int == 127
  }

  /** The first thirty-two characters, and delete. */
  lemma ControlIs(c: char)
    ensures Control(c) <==> c <= '\U{1F}' || c == '\U{7F}'
  {
  }

  /** `bounded_text` of the redaction layer, with its own character cap and the same byte cap. */
  method RedactedText(value: string, maxChars: nat) returns (text: string)
    ensures text == if exists i | 0 <= i < |value| :: Control(value[i]) then INVALID
                    else Bounded(value, maxChars, MAX_TEXT_BYTES)
  {
    if exists i | 0 <= i < |value| :: Control(value[i]) {
      return INVALID;
    }
    var head := value;
    if |head| > maxChars {
      head := head[..maxChars];
    }
    FittingWhole(head, MAX_TEXT_BYTES);
    if |Encode(head)| <= MAX_TEXT_BYTES {
      assert head[..|head|] == head;
      return head;
    }
    var decoded, pops := PopUntilDecodes(head, MAX_TEXT_BYTES);
    text := match decoded case Some(t) => t case None => INVALID;
  }

  // ---- The forward scan ----

  const MARKER := "...[truncated]"

  lemma {:induction false} FittingStep(s: string, n: nat, k: nat)
    requires k < |s| && |Encode(s[..k])| <= n
    ensures k <= Fitting(s, n)
    ensures |Encode(s[..k])| + |EncodeChar(s[k])| == |Encode(s[..k + 1])|
    ensures |Encode(s[..k + 1])| > n ==> Fitting(s, n) == k
  {
    hide EncodeChar, Fitting;
    FittingLongest(s, n);
    EncodeSplit(s[..k + 1], k);
    assert s[..k + 1][..k] == s[..k];
    assert s[..k + 1][k..] == [s[k]];
    assert Encode([s[k]]) == EncodeChar(s[k]) + Encode("");
    var best := Fitting(s, n);
    if best > k {
      EncodeSplit(s[..best], k + 1);
      assert s[..best][..k + 1] == s[..k + 1];
    }
  }

  function Budget(maxBytes: nat, marker: string): nat {
    if maxBytes > |Encode(marker)| then maxBytes - |Encode(marker)| else 0
  }

  function Truncated(value: string, maxBytes: nat, marker: string): string {
    var kept := value[..Fitting(value, Budget(maxBytes, marker))];
    if kept == value then value else kept + marker
  }

  /** The first `k` characters fit the room, and one more would not. */
  ghost predicate CutAt(value: string, room: nat, k: nat) {
    k < |value| && |Encode(value[..k])| <= room < |Encode(value[..k + 1])|
  }

  /** A text that fits the room the marker leaves comes back whole, and any other as the longest prefix that does, with
      the marker. */
  lemma TruncatedIs(value: string, maxBytes: nat, marker: string)
    requires marker != ""
    ensures var room := if maxBytes <= |Encode(marker)| then 0 else maxBytes - |Encode(marker)|;
            && (|Encode(value)| <= room ==> Truncated(value, maxBytes, marker) == value)
            && (|Encode(value)| > room ==>
                  exists k: nat :: CutAt(value, room, k) && Truncated(value, maxBytes, marker) == value[..k] + marker)
  {
    hide EncodeChar, Fitting;
    var room := Budget(maxBytes, marker);
    var k := Fitting(value, room);
    FittingLongest(value, room);
    FittingWhole(value, room);
    assert value[..|value|] == value;
    if k < |value| { assert CutAt(value, room, k); }
  }

  /** `_bounded_text` of the jobs API: one pass over the characters, then a marker if any was dropped. */
  method ForwardScan(value: string, maxBytes: int) returns (text: string)
    ensures maxBytes <= 0 ==> text == INVALID
    ensures maxBytes > 0 ==> text == Truncated(value, maxBytes, MARKER)
    ensures |Encode(text)| <= maxBytes <==> maxBytes > 0 && (value == "" || maxBytes >= |Encode(MARKER)|)
  {
    ForwardScanWithinCap(value, maxBytes);
    hide EncodeChar, Fitting, MARKER, Encode;
    if maxBytes <= 0 {
      return INVALID;
    }
    var budget := Budget(maxBytes, MARKER);
    var retained := "";
    var total := 0;
    var i := 0;
    ScanStart(value, budget);
    while i < |value|
      invariant i <= |value| && retained == value[..i]
      invariant total == |Encode(value[..i])| <= budget
      invariant i <= Fitting(value, budget)
    {
      FittingStep(value, budget, i);
      var encodedChar := EncodeChar(value[i]);
      if total + |encodedChar| > budget {
        break;
      }
      retained := retained + [value[i]];
      total := total + |encodedChar|;
      i := i + 1;
      if i < |value| {
        FittingStep(value, budget, i);
      } else {
        assert value[..i] == value;
        FittingWhole(value, budget);
      }
    }
    assert i == Fitting(value, budget);
    if retained == value {
      return value;
    }
    return retained + MARKER;
  }

  lemma ScanStart(value: string, budget: nat)
    ensures value[..0] == "" && |Encode(value[..0])| == 0
    ensures value == "" ==> Fitting(value, budget) == 0
  {
  }

  lemma {:induction false} EncodeAppend(s: string, t: string)
    ensures Encode(s + t) == Encode(s) + Encode(t)
  {
    EncodeSplit(s + t, |s|);
    assert (s + t)[..|s|] == s && (s + t)[|s|..] == t;
  }

  /** A truncation is within its cap exactly when the cap has room for the marker, or there is nothing to truncate. */
  lemma TruncatedWithinCap(value: string, maxBytes: nat, marker: string)
    requires marker != ""
    ensures |Encode(Truncated(value, maxBytes, marker))| <= maxBytes <==> value == "" || maxBytes >= |Encode(marker)|
  {
    hide EncodeChar;
    var budget := Budget(maxBytes, marker);
    FittingLongest(value, budget);
    if maxBytes <= |Encode(marker)| { assert Fitting(value, 0) == 0; }
    EncodeAppend(value[..Fitting(value, budget)], marker);
  }

  /** What the forward scan returns, for every cap. */
  function Scanned(value: string, maxBytes: int): string {
    if maxBytes <= 0 then INVALID else Truncated(value, maxBytes, MARKER)
  }

  /** The forward scan keeps its promise of `maxBytes` exactly when the cap is positive and has room for the marker, or
      is positive and there is nothing to truncate. */
  lemma ForwardScanWithinCap(value: string, maxBytes: int)
    ensures |Encode(Scanned(value, maxBytes))| <= maxBytes <==>
            maxBytes > 0 && (value == "" || maxBytes >= |Encode(MARKER)|)
  {
    hide Truncated, Encode;
    if maxBytes > 0 { TruncatedWithinCap(value, maxBytes, MARKER); }
    MarkerBytes();
  }

  lemma {:induction false} AsciiBytes(s: string)
    requires forall i | 0 <= i < |s| :: s[i] as int < 128
    ensures |Encode(s)| == |s|
  {
    if s != "" { AsciiBytes(s[1..]); }
  }

  lemma MarkerBytes()
    ensures |Encode(MARKER)| == 14 && |Encode(INVALID)| == 17
  {
    hide Encode;
    AsciiBytes(MARKER);
    AsciiBytes(INVALID);
  }

  /** A cap without room for the marker is exceeded by every text: what comes back is the marker alone. */
  lemma ShortCapGivesMarker(value: string, maxBytes: nat)
    requires value != "" && 0 < maxBytes < 14
    ensures Scanned(value, maxBytes) == MARKER && |Encode(Scanned(value, maxBytes))| == 14 > maxBytes
  {
    MarkerBytes();
    hide Encode, Truncated, MARKER, INVALID;
    MarkerAlone(value, maxBytes, MARKER);
  }

  lemma MarkerAlone(value: string, maxBytes: nat, marker: string)
    requires value != "" && maxBytes <= |Encode(marker)|
    ensures Truncated(value, maxBytes, marker) == marker
  {
    hide Encode, Fitting;
    NothingFits(value);
    assert value[..0] == "" && "" + marker == marker;
  }

  lemma NothingFits(value: string)
    requires value != ""
    ensures Fitting(value, 0) == 0
  {
    hide EncodeChar;
    FittingLongest(value, 0);
  }

  /** For example the text "a" at a cap of one byte. */
  lemma ShortCapExceeded()
    ensures |Encode(Scanned("a", 1))| == 14
  {
    hide *;
    ShortCapGivesMarker("a", 1);
  }

  const MAX_PHASE_BYTES := 96
  const MAX_MESSAGE_BYTES := 1024
  const MAX_BUDGET_MESSAGE_BYTES := 160
  const MAX_TIMESTAMP_BYTES := 64

  /** Every cap the service passes is kept, whatever the text. */
  lemma ServiceCapsKept(value: string, maxBytes: nat)
    requires maxBytes in {MAX_PHASE_BYTES, MAX_MESSAGE_BYTES, MAX_BUDGET_MESSAGE_BYTES, MAX_TIMESTAMP_BYTES}
    ensures |Encode(Scanned(value, maxBytes))| <= maxBytes
  {
    ForwardScanWithinCap(value, maxBytes);
    MarkerBytes();
    hide Encode, Truncated;
  }

  /** Given the same byte budget, the text the forward scan retains is the text popping bytes returns. */
  lemma ScanAgreesWithPopping(value: string, maxBytes: nat, marker: string, maxChars: nat)
    requires |value| <= maxChars
    ensures var kept := Bounded(value, maxChars, Budget(maxBytes, marker));
            Truncated(value, maxBytes, marker) == if kept == value then value else kept + marker
  {
  }
}
