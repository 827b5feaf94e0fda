/** Names of archive members and the paths they stand for. */
module Members {
  import opened Options

  type Path = seq<string>

  // ---- Splitting and joining ----

  function FindSlash(name: string): (i: nat)
    ensures i <= |name| && (i < |name| ==> name[i] == '/')
    ensures forall j | 0 <= j < i :: name[j] != '/'
  {
    if name == "" || name[0] == '/' then 0 else 1 + FindSlash(name[1..])
  }

  /** `name.split("/")` */
  function Split(name: string): (parts: Path)
    ensures parts != []
  {
    var i := FindSlash(name);
    if i == |name| then [name] else [name[..i]] + Split(name[i + 1..])
  }

  /** `"/".join(parts)` */
  function Joined(parts: Path): string {
    if parts == [] then "" else if |parts| == 1 then parts[0] else parts[0] + "/" + Joined(parts[1..])
  }

  predicate NoSlash(part: string) {
    forall i | 0 <= i < |part| :: part[i] != '/'
  }

  lemma {:induction false} JoinedSplit(name: string)
    ensures Joined(Split(name)) == name
    ensures forall i | 0 <= i < |Split(name)| :: NoSlash(Split(name)[i])
  {
    var i := FindSlash(name);
    if i < |name| {
      JoinedSplit(name[i + 1..]);
      assert name[..i] + "/" + name[i + 1..] == name;
    }
  }

  lemma {:induction false} SplitJoined(parts: Path)
    requires parts != [] && forall i | 0 <= i < |parts| :: NoSlash(parts[i])
    ensures Split(Joined(parts)) == parts
  {
    JoinedStep(parts);
    hide Split, Joined, FindSlash;
    if |parts| == 1 {
      SplitOne(parts[0]);
    } else {
      SplitJoined(parts[1..]);
      SplitCons(parts[0], Joined(parts[1..]));
    }
  }

  lemma JoinedStep(parts: Path)
    requires parts != []
    ensures Joined(parts) == if |parts| == 1 then parts[0] else parts[0] + ("/" + Joined(parts[1..]))
  {
  }

  lemma SplitOne(part: string)
    requires NoSlash(part)
    ensures Split(part) == [part]
  {
    assert FindSlash(part) == |part|;
  }

  lemma SplitCons(part: string, rest: string)
    requires NoSlash(part)
    ensures Split(part + ("/" + rest)) == [part] + Split(rest)
  {
    var name, k := part + ("/" + rest), |part|;
    assert name[k] == '/' && forall j | 0 <= j < k :: name[j] == part[j];
    assert FindSlash(name) == k;
    assert name[..k] == part && name[k + 1..] == rest;
  }

  // ---- Safe names ----

  predicate ControlFree(part: string) {
    forall i | 0 <= i < |part| :: part[i] as int >= 0x20 && part[i] as int != 0x7F
  }

  /** A segment that names an entry of its directory and nothing else. */
  predicate SafeSegment(part: string) {
    part != "" && part != "." && part != ".." && ControlFree(part) && forall i | 0 <= i < |part| :: part[i] != '\\'
  }

  predicate AllSafe(parts: Path) {
    forall i | 0 <= i < |parts| :: SafeSegment(parts[i])
  }

  /** A segment that is neither empty, nor a dot or two, and has no backslash and no control character. */
  ghost predicate SegmentFine(part: string) {
    && part != "" && part != "." && part != ".."
    && forall i | 0 <= i < |part| :: part[i] != '\\' && part[i] as int >= 0x20 && part[i] as int != 0x7F
  }

  ghost predicate AllFine(parts: Path) {
    forall i | 0 <= i < |parts| :: SegmentFine(parts[i])
  }

  lemma SegmentsFine(parts: Path)
    ensures AllSafe(parts) <==> AllFine(parts)
  {
  }

  /** The parts of `PurePosixPath(name)` for a relative name: empty and `.` segments disappear. */
  function PosixParts(parts: Path): Path {
    if parts == [] then []
    else (if parts[0] == "" || parts[0] == "." then [] else [parts[0]]) + PosixParts(parts[1..])
  }

  lemma {:induction false} SafeKeptWhole(parts: Path)
    requires AllSafe(parts)
    ensures PosixParts(parts) == parts
  {
    if parts != [] { SafeKeptWhole(parts[1..]); }
  }

  /** `_safe_relative_name` */
  method SafeRelativeName(name: string) returns (parts: Option<Path>)
    ensures parts == if AllSafe(Split(name)) then Some(Split(name)) else None
    ensures parts.Some? <==> AllFine(Split(name))
  {
    SegmentsFine(Split(name));
    hide Split, FindSlash, AllFine;
    FirstSegment(name);
    if name == "" || name[0] == '/' || name[0] == '\\' || HasNul(name) { return None; }
    LastSegment(name);
    if name[|name| - 1] == '/' || (|name| >= 2 && name[..2] == "./") { return None; }
    var raw := Split(name);
    for k := 0 to |raw|
      invariant AllSafe(raw[..k])
    {
      var part := raw[k];
      if part == "" || part == "." || part == ".." { return None; }
      for j := 0 to |part|
        invariant forall i | 0 <= i < j :: part[i] != '\\' && part[i] as int >= 0x20 && part[i] as int != 0x7F
      {
        if part[j] == '\\' || part[j] as int < 0x20 || part[j] as int == 0x7F { return None; }
      }
      assert SafeSegment(part);
      assert raw[..k + 1] == raw[..k] + [part];
    }
    assert raw[..|raw|] == raw;
    SafeKeptWhole(raw);
    return Some(PosixParts(raw));
  }

  predicate HasNul(name: string) {
    exists i | 0 <= i < |name| :: name[i] == '\0'
  }

  /** What the tests on the whole name reject, the tests on its segments reject too. */
  lemma FirstSegment(name: string)
    ensures name == "" || name[0] == '/' || name[0] == '\\' || HasNul(name) || (|name| >= 2 && name[..2] == "./") ==>
              !AllSafe(Split(name))
  {
    hide Split, SafeSegment, FindSlash;
    FirstIs(name);
    if HasNul(name) { NulInSegment(name); }
    UnsafeFirst(name);
  }

  lemma FirstIs(name: string)
    ensures Split(name)[0] == name[..FindSlash(name)]
  {
    assert name[..|name|] == name;
  }

  /** A first segment that is empty, a dot, or starts with a backslash is not safe. */
  lemma UnsafeFirst(name: string)
    ensures var first := name[..FindSlash(name)];
            (name == "" || name[0] == '/' || name[0] == '\\' || (|name| >= 2 && name[..2] == "./")) ==>
              !SafeSegment(first)
  {
    hide FindSlash;
    var cut, first := FindSlash(name), name[..FindSlash(name)];
    if |name| >= 2 && name[..2] == "./" {
      assert name[0] == '.' && name[1] == '/';
      assert cut == 1;
      assert first == ".";
    } else if name != "" && name[0] == '\\' {
      assert cut > 0 && first[0] == '\\';
    }
  }

  lemma NulInSegment(name: string)
    requires HasNul(name)
    ensures !AllSafe(Split(name))
  {
    hide Split;
    var i :| 0 <= i < |name| && name[i] == '\0';
    InSegment(name, i);
  }

  /** Every character that is not a slash is in some segment. */
  lemma {:induction false} InSegment(name: string, i: nat)
    requires i < |name| && name[i] != '/'
    ensures exists k, j :: 0 <= k < |Split(name)| && 0 <= j < |Split(name)[k]| && Split(name)[k][j] == name[i]
  {
    var cut := FindSlash(name);
    if i < cut {
      assert Split(name)[0][i] == name[i];
    } else {
      InSegment(name[cut + 1..], i - cut - 1);
      var k, j :| 0 <= k < |Split(name[cut + 1..])| && 0 <= j < |Split(name[cut + 1..])[k]|
                  && Split(name[cut + 1..])[k][j] == name[i];
      assert Split(name)[k + 1] == Split(name[cut + 1..])[k];
    }
  }

  lemma {:induction false} LastSegment(name: string)
    requires name != ""
    ensures name[|name| - 1] == '/' ==> Split(name)[|Split(name)| - 1] == ""
  {
    if name[|name| - 1] == '/' {
      var cut := FindSlash(name);
      if cut + 1 < |name| { LastSegment(name[cut + 1..]); }
    }
  }

  /** Accepted names and their paths stand for each other, so comparing paths is comparing names. */
  lemma SamePathSameName(a: string, b: string)
    ensures Split(a) == Split(b) <==> a == b
  {
    JoinedSplit(a);
    JoinedSplit(b);
  }
}
