/** Packing a layout into archive members, and getting the same layout back. */
module Packing {
  import opened Options
  import opened Bytes
  import opened Members
  import opened Ordering
  import opened Tree
  import Utf8

  const OCI_LAYOUT := ["oci-layout"]
  const INDEX := ["index.json"]
  const MANIFEST := ["manifest.json"]
  const BLOBS := ["blobs"]
  const BLOB_DIR := ["blobs", "sha256"]

  function BlobPath(name: string): Path {
    ["blobs", "sha256", name]
  }

  function BlobName(name: string): string {
    "blobs/sha256/" + name
  }

  predicate IsFile(fs: Fs, p: Path) {
    p in fs && fs[p].File?
  }

  function Content(fs: Fs, p: Path): seq<Byte> {
    if IsFile(fs, p) then fs[p].content else []
  }

  function MemberOf(name: string, content: seq<Byte>): Member {
    Member(name, Regular, |content|, content)
  }

  // ---- Listing a directory ----

  /** What `os.scandir` may yield for the blob directory: its entries, once each, in any order. */
  ghost predicate Lists(fs: Fs, listing: seq<string>) {
    && (forall i | 0 <= i < |listing| :: BlobPath(listing[i]) in fs)
    && (forall p | p in fs && |p| == 3 && p[..2] == BLOB_DIR :: exists i | 0 <= i < |listing| :: listing[i] == p[2])
    && NoRepeats(listing)
  }

  ghost predicate NoRepeats(names: seq<string>) {
    forall i, j | 0 <= i < j < |names| :: names[i] != names[j]
  }

  predicate AllFiles(fs: Fs, names: seq<string>) {
    forall i | 0 <= i < |names| :: IsFile(fs, BlobPath(names[i]))
  }

  /** `collect_bounded_layout_entries` */
  method CollectEntries(fs: Fs, listing: seq<string>, budget: nat) returns (names: Option<seq<string>>)
    ensures names == if |listing| <= budget && AllFiles(fs, listing) then Some(Sorted(listing)) else None
    ensures names.Some? <==>
              && |listing| <= budget
              && forall i | 0 <= i < |listing| ::
                   BlobPath(listing[i]) in fs && fs[["blobs", "sha256", listing[i]]].File?
  {
    var regular: seq<string> := [];
    for i := 0 to |listing|
      invariant regular == listing[..i] && i <= budget
      invariant AllFiles(fs, listing[..i])
    {
      if i + 1 > budget { return None; }
      if !IsFile(fs, BlobPath(listing[i])) {
        assert !AllFiles(fs, listing);
        return None;
      }
      regular := regular + [listing[i]];
      if |regular| > budget {
        assert false;
      }
    }
    assert listing[..|listing|] == listing;
    return Some(Sorted(regular));
  }

  // ---- Packing ----

  function RequiredMembers(fs: Fs): seq<Member> {
    [MemberOf("oci-layout", Content(fs, OCI_LAYOUT)), MemberOf("index.json", Content(fs, INDEX)),
     MemberOf("manifest.json", Content(fs, MANIFEST))]
  }

  function BlobMembers(fs: Fs, names: seq<string>): seq<Member> {
    if names == [] then []
    else
      var last := names[|names| - 1];
      BlobMembers(fs, names[..|names| - 1]) + [MemberOf(BlobName(last), Content(fs, BlobPath(last)))]
  }

  function LayoutMembers(fs: Fs, names: seq<string>): seq<Member> {
    RequiredMembers(fs) + BlobMembers(fs, names)
  }

  function Size(members: seq<Member>): nat {
    if members == [] then 0 else Size(members[..|members| - 1]) + |members[|members| - 1].content|
  }

  predicate AllFit(members: seq<Member>, max: nat) {
    forall i | 0 <= i < |members| :: |members[i].content| <= max
  }

  predicate HasLayout(fs: Fs) {
    IsFile(fs, OCI_LAYOUT) && IsFile(fs, INDEX) && IsFile(fs, MANIFEST) && BLOB_DIR in fs && fs[BLOB_DIR].Dir?
  }

  const MAX_TAR_NAME_BYTES := 100

  /** The names the archive format can hold: section "ustar Interchange Format" of POSIX pax splits a longer member name
      at a slash, so what counts is the blob's own name. */
  predicate AllNamed(names: seq<string>) {
    forall i | 0 <= i < |names| :: |Utf8.Encode(names[i])| <= MAX_TAR_NAME_BYTES
  }

  /** The archive's members, if the layout can be packed. */
  function Packed(fs: Fs, listing: seq<string>, limits: Limits): Option<seq<Member>> {
    var budget := if limits.maxMembers >= 3 then limits.maxMembers - 3 else 0;
    if !HasLayout(fs) || |listing| > budget || !AllFiles(fs, listing) then None
    else
      var members := LayoutMembers(fs, Sorted(listing));
      if Size(members) > limits.maxTotalBytes || !AllFit(members, limits.maxMemberBytes) || !AllNamed(listing) then None
      else Some(members)
  }

  /** The archive does not depend on the order in which the directory was listed. */
  lemma ListingOrderIrrelevant(fs: Fs, a: seq<string>, b: seq<string>, limits: Limits)
    requires multiset(a) == multiset(b)
    ensures Packed(fs, a, limits) == Packed(fs, b, limits)
  {
    hide LayoutMembers, Size, Sorted, IsFile, AllNamed;
    OrderIrrelevant(a, b);
    SameLength(a, b);
    if AllNamed(a) { SameNamed(a, b); }
    if AllNamed(b) { SameNamed(b, a); }
    if AllFiles(fs, a) { SameFiles(fs, a, b); }
    if AllFiles(fs, b) { SameFiles(fs, b, a); }
  }

  lemma SameNamed(a: seq<string>, b: seq<string>)
    requires multiset(a) == multiset(b) && AllNamed(a)
    ensures AllNamed(b)
  {
    hide Utf8.Encode;
    forall i | 0 <= i < |b| ensures |Utf8.Encode(b[i])| <= MAX_TAR_NAME_BYTES {
      assert b[i] in multiset(a);
      var j :| 0 <= j < |a| && a[j] == b[i];
    }
  }

  lemma SameFiles(fs: Fs, a: seq<string>, b: seq<string>)
    requires multiset(a) == multiset(b) && AllFiles(fs, a)
    ensures AllFiles(fs, b)
  {
    hide IsFile;
    forall i | 0 <= i < |b| ensures IsFile(fs, BlobPath(b[i])) {
      assert b[i] in multiset(a);
      var j :| 0 <= j < |a| && a[j] == b[i];
    }
  }

  /** A member with this name and a file's content. */
  ghost predicate Carries(m: Member, name: string, fs: Fs, p: Path) {
    m.name == name && m.kind == Regular && p in fs && fs[p].File? && m.content == fs[p].content && m.size == |m.content|
  }

  /** The three required documents, and then the blobs in the order of their names. */
  ghost predicate Carried(fs: Fs, names: seq<string>, members: seq<Member>) {
    && |members| == 3 + |names|
    && Carries(members[0], "oci-layout", fs, ["oci-layout"])
    && Carries(members[1], "index.json", fs, ["index.json"])
    && Carries(members[2], "manifest.json", fs, ["manifest.json"])
    && forall i | 0 <= i < |names| ::
         Carries(members[3 + i], "blobs/sha256/" + names[i], fs, ["blobs", "sha256", names[i]])
  }

  lemma {:induction false} BlobsCarried(fs: Fs, names: seq<string>)
    requires AllFiles(fs, names)
    ensures |BlobMembers(fs, names)| == |names|
    ensures forall i | 0 <= i < |names| ::
              Carries(BlobMembers(fs, names)[i], "blobs/sha256/" + names[i], fs, ["blobs", "sha256", names[i]])
  {
    if names != [] { BlobsCarried(fs, names[..|names| - 1]); }
  }

  lemma PackedCarries(fs: Fs, listing: seq<string>, limits: Limits)
    requires Packed(fs, listing, limits).Some?
    ensures Carried(fs, Sorted(listing), Packed(fs, listing, limits).value)
  {
    hide Sorted, Size, AllFit, AllNamed, AllFiles, BlobMembers, Carries;
    SortedSame(listing);
    SameLength(Sorted(listing), listing);
    SameFiles(fs, listing, Sorted(listing));
    BlobsCarried(fs, Sorted(listing));
    TopsCarried(fs);
    var members := Packed(fs, listing, limits).value;
    assert forall i | 0 <= i < |listing| :: members[3 + i] == BlobMembers(fs, Sorted(listing))[i];
  }

  lemma TopsCarried(fs: Fs)
    requires HasLayout(fs)
    ensures var tops := RequiredMembers(fs);
            && Carries(tops[0], "oci-layout", fs, ["oci-layout"])
            && Carries(tops[1], "index.json", fs, ["index.json"])
            && Carries(tops[2], "manifest.json", fs, ["manifest.json"])
  {
  }

  /** Just the layouts with their documents and blob directory, only regular files in it, few enough of them, within
      the limits of bytes, and with names the format can hold, are packed. */
  lemma PackedIff(fs: Fs, listing: seq<string>, limits: Limits)
    ensures Packed(fs, listing, limits).Some? <==>
              && ["oci-layout"] in fs && fs[["oci-layout"]].File? && ["index.json"] in fs && fs[["index.json"]].File?
              && ["manifest.json"] in fs && fs[["manifest.json"]].File?
              && ["blobs", "sha256"] in fs && fs[["blobs", "sha256"]].Dir?
              && (3 + |listing| <= limits.maxMembers || listing == [])
              && (forall i | 0 <= i < |listing| ::
                    && ["blobs", "sha256", listing[i]] in fs && fs[["blobs", "sha256", listing[i]]].File?
                    && |Utf8.Encode(listing[i])| <= 100)
              && Size(LayoutMembers(fs, Sorted(listing))) <= limits.maxTotalBytes
              && (forall i | 0 <= i < |LayoutMembers(fs, Sorted(listing))| ::
                    |LayoutMembers(fs, Sorted(listing))[i].content| <= limits.maxMemberBytes)
  {
    hide Sorted, Size, LayoutMembers, Utf8.Encode;
    FilesNamed(fs, listing);
  }

  lemma FilesNamed(fs: Fs, listing: seq<string>)
    ensures AllFiles(fs, listing) && AllNamed(listing) <==>
              forall i | 0 <= i < |listing| ::
                && ["blobs", "sha256", listing[i]] in fs && fs[["blobs", "sha256", listing[i]]].File?
                && |Utf8.Encode(listing[i])| <= 100
  {
    hide Utf8.Encode;
    if AllFiles(fs, listing) && AllNamed(listing) {
      forall i | 0 <= i < |listing| ensures IsFile(fs, BlobPath(listing[i])) {
      }
    }
  }

  /** `_write_deterministic_tar`, up to the bytes of the tar format. */
  method Pack(fs: Fs, listing: seq<string>, limits: Limits) returns (members: Option<seq<Member>>)
    ensures members == Packed(fs, listing, limits)
  {
    hide LayoutMembers, Size, Sorted, AllFiles, IsFile, Utf8.Encode;
    if !IsFile(fs, OCI_LAYOUT) || !IsFile(fs, INDEX) || !IsFile(fs, MANIFEST) { return None; }
    if BLOB_DIR !in fs || !fs[BLOB_DIR].Dir? { return None; }
    var remaining := if limits.maxMembers >= 3 then limits.maxMembers - 3 else 0;
    var blobs := CollectEntries(fs, listing, remaining);
    if blobs.None? { return None; }
    var files := LayoutMembers(fs, blobs.value);
    if Size(files) > limits.maxTotalBytes { return None; }
    var written: seq<Member> := [];
    ghost var names := Sorted(listing);
    SortedSame(listing);
    if AllNamed(listing) { SameNamed(listing, names); }
    if AllNamed(names) { SameNamed(names, listing); }
    CountMembers(fs, names);
    for i := 0 to |files|
      invariant written == files[..i] && AllFit(files[..i], limits.maxMemberBytes)
      invariant i > 3 ==> AllNamed(names[..i - 3])
    {
      if i >= 3 && |Utf8.Encode(blobs.value[i - 3])| > MAX_TAR_NAME_BYTES {
        assert !AllNamed(names);
        return None;
      }
      if files[i].size > limits.maxMemberBytes {
        SizesAreLengths(fs, blobs.value, i);
        assert !AllFit(files, limits.maxMemberBytes);
        return None;
      }
      SizesAreLengths(fs, blobs.value, i);
      written := written + [files[i]];
    }
    assert files[..|files|] == files;
    return Some(written);
  }

  lemma SortedSame(names: seq<string>)
    ensures multiset(Sorted(names)) == multiset(names)
  {
    SortedSorts(names);
  }

  lemma {:induction false} SizesAreLengths(fs: Fs, names: seq<string>, i: nat)
    requires i < |LayoutMembers(fs, names)|
    ensures LayoutMembers(fs, names)[i].size == |LayoutMembers(fs, names)[i].content|
    decreases |names|
  {
    if names != [] && i < |LayoutMembers(fs, names)| - 1 {
      var front := names[..|names| - 1];
      assert LayoutMembers(fs, names) ==
             LayoutMembers(fs, front) + [MemberOf(BlobName(names[|names| - 1]), Content(fs,
                 BlobPath(names[|names| - 1])))];
      SizesAreLengths(fs, front, i);
    }
  }

  // ---- Unpacking what was packed ----

  const EMPTY: Fs := map[[] := Dir]

  /** These files with the layout's content, and above them the directories they need. */
  function Laid(fs: Fs, files: set<Path>, withBlobs: bool): Fs {
    map p | p in {[]} + (if withBlobs then {BLOBS, BLOB_DIR} else {}) + files ::
      if p in files then File(Content(fs, p)) else Dir
  }

  /** The tree that unpacking gives: the required files, and the blobs with their directories. */
  function Unpacked(fs: Fs, names: seq<string>): Fs {
    Laid(fs, Seen(names), names != [])
  }

  function Seen(names: seq<string>): set<Path> {
    if names == [] then {OCI_LAYOUT, INDEX, MANIFEST}
    else Seen(names[..|names| - 1]) + {BlobPath(names[|names| - 1])}
  }

  predicate RequiredReadable(limits: Limits) {
    limits.maxPathChars >= 13 && limits.maxDepth >= 1
  }

  /** A blob name that unpacking accepts. */
  predicate Readable(name: string, limits: Limits) {
    SafeSegment(name) && 13 + |name| <= limits.maxPathChars && limits.maxDepth >= 3
  }

  predicate AllReadable(names: seq<string>, limits: Limits) {
    forall i | 0 <= i < |names| :: Readable(names[i], limits)
  }

  // ---- Placing the members one by one ----

  lemma SplitRequired()
    ensures Split("oci-layout") == OCI_LAYOUT && Split("index.json") == INDEX && Split("manifest.json") == MANIFEST
  {
    hide Split;
    SplitOne("oci-layout");
    SplitOne("index.json");
    SplitOne("manifest.json");
  }

  lemma RequiredSafe()
    ensures AllSafe(OCI_LAYOUT) && AllSafe(INDEX) && AllSafe(MANIFEST)
    ensures SafeSegment("blobs") && SafeSegment("sha256")
  {
  }

  lemma SplitBlobName(name: string)
    requires NoSlash(name)
    ensures Split(BlobName(name)) == BlobPath(name)
    ensures AllSafe(BlobPath(name)) <==> SafeSegment(name)
  {
    RequiredSafe();
    hide SafeSegment, Split;
    SplitCons("blobs", "sha256/" + name);
    SplitCons("sha256", name);
    SplitOne(name);
    assert BlobName(name) == "blobs" + ("/" + ("sha256" + ("/" + name)));
    assert "sha256" + ("/" + name) == "sha256/" + name;
    var p := BlobPath(name);
    assert p[0] == "blobs" && p[1] == "sha256" && p[2] == name;
  }

  /** Only files' paths: neither the root nor the blob directories. */
  ghost predicate FilesOnly(files: set<Path>) {
    [] !in files && BLOBS !in files && BLOB_DIR !in files
  }

  lemma LaidDirs(fs: Fs, files: set<Path>, withBlobs: bool)
    requires FilesOnly(files)
    ensures WithDirs(Laid(fs, files, withBlobs), BLOB_DIR) == Some(Laid(fs, files, true))
  {
    var t := Laid(fs, files, withBlobs);
    assert Parent(BLOBS) == [] && Parent(BLOB_DIR) == BLOBS;
    assert WithDirs(t, []) == Some(t);
    if withBlobs {
      assert WithDirs(t, BLOBS) == Some(t);
    } else {
      assert WithDirs(t, BLOBS) == Some(t[BLOBS := Dir]);
      assert t[BLOBS := Dir][BLOB_DIR := Dir] == Laid(fs, files, true);
    }
  }

  lemma LaidFile(fs: Fs, files: set<Path>, withBlobs: bool, name: string)
    requires FilesOnly(files) && BlobPath(name) !in files
    ensures WithFile(Laid(fs, files, withBlobs), BlobPath(name), Content(fs, BlobPath(name))) ==
            Some(Laid(fs, files + {BlobPath(name)}, true))
    ensures FilesOnly(files + {BlobPath(name)})
  {
    hide WithDirs, Content;
    LaidDirs(fs, files, withBlobs);
    assert Parent(BlobPath(name)) == BLOB_DIR;
    assert Laid(fs, files, true)[BlobPath(name) := File(Content(fs, BlobPath(name)))]
        == Laid(fs, files + {BlobPath(name)}, true);
  }

  /** Where unpacking stands after the required members and these blobs. */
  ghost function Reached(fs: Fs, names: seq<string>): Progress {
    Progress(Unpacked(fs, names), Seen(names), Size(LayoutMembers(fs, names)), 3 + |names|)
  }

  lemma PlacePush(p: Progress, members: seq<Member>, m: Member, limits: Limits)
    ensures PlaceAll(p, members + [m], limits) ==
            match PlaceAll(p, members, limits) case None => None case Some(q) => Place(q, m, limits)
  {
    hide Place;
    assert (members + [m])[..|members|] == members;
  }

  lemma SizePush(members: seq<Member>, m: Member)
    ensures Size(members + [m]) == Size(members) + |m.content|
  {
    assert (members + [m])[..|members|] == members;
  }

  lemma BlobMembersPush(fs: Fs, names: seq<string>, name: string)
    ensures LayoutMembers(fs, names + [name]) ==
            LayoutMembers(fs, names) + [MemberOf(BlobName(name), Content(fs, BlobPath(name)))]
    ensures Seen(names + [name]) == Seen(names) + {BlobPath(name)}
  {
    hide Content;
    assert (names + [name])[..|names|] == names;
    var m := MemberOf(BlobName(name), Content(fs, BlobPath(name)));
    assert RequiredMembers(fs) + (BlobMembers(fs, names) + [m]) == RequiredMembers(fs) + BlobMembers(fs, names) + [m];
  }

  lemma {:induction false} SeenIsFiles(names: seq<string>)
    ensures FilesOnly(Seen(names))
  {
    if names != [] { SeenIsFiles(names[..|names| - 1]); }
  }

  /** A member at the top of the layout. */
  lemma PlaceTop(fs: Fs, files: set<Path>, name: string, total: nat, count: nat, limits: Limits)
    requires FilesOnly(files) && Split(name) == [name] && SafeSegment(name) && [name] !in files
    requires name in EXPECTED_LAYOUT_MEMBERS && name != "blobs"
    requires |Content(fs, [name])| <= limits.maxMemberBytes && total + |Content(fs, [name])| <= limits.maxTotalBytes
    ensures FilesOnly(files + {[name]})
    ensures Place(Progress(Laid(fs, files, false), files, total, count), MemberOf(name, Content(fs, [name])), limits) ==
            if |name| <= limits.maxPathChars && limits.maxDepth >= 1 then
              Some(Progress(Laid(fs, files + {[name]}, false), files + {[name]}, total + |Content(fs, [name])|,
                            count + 1))
            else None
  {
    hide Split, SafeSegment, Place, Content;
    var p, t := [name], Laid(fs, files, false);
    assert Parent(p) == [] && WithDirs(t, []) == Some(t);
    assert t[p := File(Content(fs, p))] == Laid(fs, files + {p}, false);
    PlaceIs(Progress(t, files, total, count), MemberOf(name, Content(fs, p)), limits);
  }

  /** One more member at the top, after others with names no longer than its own. */
  lemma PlaceTopNext(fs: Fs, members: seq<Member>, files: set<Path>, name: string, longest: nat, total: nat, count: nat,
                     limits: Limits)
    requires FilesOnly(files) && Split(name) == [name] && SafeSegment(name) && [name] !in files
    requires name in EXPECTED_LAYOUT_MEMBERS && name != "blobs" && longest <= |name|
    requires |Content(fs, [name])| <= limits.maxMemberBytes && total + |Content(fs, [name])| <= limits.maxTotalBytes
    requires PlaceAll(Progress(EMPTY, {}, 0, 0), members, limits) ==
             if longest <= limits.maxPathChars && (limits.maxDepth >= 1 || members == []) then
               Some(Progress(Laid(fs, files, false), files, total, count))
             else None
    ensures FilesOnly(files + {[name]})
    ensures PlaceAll(Progress(EMPTY, {}, 0, 0), members + [MemberOf(name, Content(fs, [name]))], limits) ==
            if |name| <= limits.maxPathChars && limits.maxDepth >= 1 then
              Some(Progress(Laid(fs, files + {[name]}, false), files + {[name]}, total + |Content(fs, [name])|,
                            count + 1))
            else None
  {
    hide Split, SafeSegment, Place, PlaceAll, Laid, Content, FilesOnly;
    PlaceTop(fs, files, name, total, count, limits);
    PlacePush(Progress(EMPTY, {}, 0, 0), members, MemberOf(name, Content(fs, [name])), limits);
  }

  lemma PlaceRequired(fs: Fs, limits: Limits)
    requires Size(RequiredMembers(fs)) <= limits.maxTotalBytes && AllFit(RequiredMembers(fs), limits.maxMemberBytes)
    ensures PlaceAll(Progress(EMPTY, {}, 0, 0), RequiredMembers(fs), limits) ==
            if RequiredReadable(limits) then Some(Reached(fs, [])) else None
  {
    hide Split, SafeSegment, Place, PlaceAll, Laid, Content, Size, Seen, FilesOnly;
    SplitRequired();
    RequiredSafe();
    RequiredSizes(fs);
    NothingPlaced(fs, limits);
    assert OCI_LAYOUT[0][0] != INDEX[0][0] && |OCI_LAYOUT[0]| != |MANIFEST[0]| && |INDEX[0]| != |MANIFEST[0]|;
    var a, b, c := RequiredMembers(fs)[0], RequiredMembers(fs)[1], RequiredMembers(fs)[2];
    PlaceTopNext(fs, [], {}, "oci-layout", 0, 0, 0, limits);
    PlaceTopNext(fs, [] + [a], {} + {OCI_LAYOUT}, "index.json", 10, |a.content|, 1, limits);
    PlaceTopNext(fs, [] + [a] + [b], {} + {OCI_LAYOUT} + {INDEX}, "manifest.json", 10, |a.content| + |b.content|,
                 2, limits);
    assert RequiredMembers(fs) == [] + [a] + [b] + [c];
    OnlyRequired(fs);
  }

  lemma NothingPlaced(fs: Fs, limits: Limits)
    ensures PlaceAll(Progress(EMPTY, {}, 0, 0), [], limits) == Some(Progress(Laid(fs, {}, false), {}, 0, 0))
    ensures FilesOnly({}) && Seen([]) == {} + {OCI_LAYOUT} + {INDEX} + {MANIFEST}
  {
    assert EMPTY == Laid(fs, {}, false);
  }

  lemma RequiredSizes(fs: Fs)
    ensures Size(RequiredMembers(fs)) ==
            |Content(fs, OCI_LAYOUT)| + |Content(fs, INDEX)| + |Content(fs, MANIFEST)|
    ensures |RequiredMembers(fs)| == 3
  {
    hide Content, Size;
    var a, b, c := RequiredMembers(fs)[0], RequiredMembers(fs)[1], RequiredMembers(fs)[2];
    SizePush([], a);
    SizePush([] + [a], b);
    SizePush([] + [a] + [b], c);
    assert RequiredMembers(fs) == [] + [a] + [b] + [c];
    NoSize();
  }

  lemma NoSize()
    ensures Size([]) == 0
  {
  }

  lemma PlaceBlob(fs: Fs, names: seq<string>, name: string, limits: Limits)
    requires NoSlash(name) && BlobPath(name) !in Seen(names)
    requires |Content(fs, BlobPath(name))| <= limits.maxMemberBytes
    requires Size(LayoutMembers(fs, names + [name])) <= limits.maxTotalBytes
    ensures Place(Reached(fs, names), MemberOf(BlobName(name), Content(fs, BlobPath(name))), limits) ==
            if Readable(name, limits) then Some(Reached(fs, names + [name])) else None
  {
    hide Split, SafeSegment, Place, Laid, Content, Size, Seen, LayoutMembers, AllSafe, WithFile;
    var m := MemberOf(BlobName(name), Content(fs, BlobPath(name)));
    SplitBlobName(name);
    BlobMembersPush(fs, names, name);
    SizePush(LayoutMembers(fs, names), m);
    SeenIsFiles(names);
    LaidFile(fs, Seen(names), names != [], name);
    PlaceIs(Reached(fs, names), m, limits);
    assert BlobPath(name)[0] == "blobs";
  }

  /** Blob names as a file system has them, listed once each. */
  ghost predicate Listed(names: seq<string>) {
    NoRepeats(names) && forall i | 0 <= i < |names| :: NoSlash(names[i])
  }

  lemma {:induction false} PlaceBlobs(fs: Fs, names: seq<string>, limits: Limits)
    requires Listed(names)
    requires Size(LayoutMembers(fs, names)) <= limits.maxTotalBytes
    requires AllFit(LayoutMembers(fs, names), limits.maxMemberBytes)
    ensures PlaceAll(Progress(EMPTY, {}, 0, 0), LayoutMembers(fs, names), limits) ==
            if RequiredReadable(limits) && AllReadable(names, limits) then Some(Reached(fs, names)) else None
  {
    hide SafeSegment, Place, PlaceAll, Laid, Content, Size, Seen, LayoutMembers, RequiredMembers, Readable, Reached;
    if names == [] {
      OnlyRequired(fs);
      PlaceRequired(fs, limits);
    } else {
      var front, last := names[..|names| - 1], names[|names| - 1];
      var m := MemberOf(BlobName(last), Content(fs, BlobPath(last)));
      assert front + [last] == names;
      BlobMembersPush(fs, front, last);
      FitPush(LayoutMembers(fs, front), m, limits.maxMemberBytes);
      SizePush(LayoutMembers(fs, front), m);
      PlaceBlobs(fs, front, limits);
      NotSeen(front, last);
      PlacePush(Progress(EMPTY, {}, 0, 0), LayoutMembers(fs, front), m, limits);
      PlaceBlob(fs, front, last, limits);
      ReadablePush(front, last, limits);
    }
  }

  lemma OnlyRequired(fs: Fs)
    ensures LayoutMembers(fs, []) == RequiredMembers(fs)
  {
  }

  lemma FitPush(members: seq<Member>, m: Member, max: nat)
    requires AllFit(members + [m], max)
    ensures AllFit(members, max) && |m.content| <= max
  {
    assert (members + [m])[|members|] == m;
    assert forall i | 0 <= i < |members| :: (members + [m])[i] == members[i];
  }

  lemma ReadablePush(names: seq<string>, name: string, limits: Limits)
    ensures AllReadable(names + [name], limits) <==> AllReadable(names, limits) && Readable(name, limits)
  {
    hide Readable;
    assert (names + [name])[|names|] == name;
    assert forall i | 0 <= i < |names| :: (names + [name])[i] == names[i];
  }

  lemma NotSeen(names: seq<string>, name: string)
    requires NoRepeats(names + [name])
    ensures BlobPath(name) !in Seen(names)
  {
    var longer := names + [name];
    forall i | 0 <= i < |names| ensures names[i] != name {
      assert longer[i] != longer[|names|];
    }
    NotAmongSeen(names, name);
  }

  lemma {:induction false} NotAmongSeen(names: seq<string>, name: string)
    requires forall i | 0 <= i < |names| :: names[i] != name
    ensures BlobPath(name) !in Seen(names)
  {
    if names == [] {
      assert |BlobPath(name)| == 3;
    } else {
      NotAmongSeen(names[..|names| - 1], name);
      assert BlobPath(names[|names| - 1])[2] == names[|names| - 1];
    }
  }

  // ---- The round trip ----

  /** Entry names as every file system has them. */
  ghost predicate RealNames(fs: Fs) {
    forall p, i | p in fs && 0 <= i < |p| :: NoSlash(p[i])
  }

  /** What of a tree is its layout. */
  ghost predicate OfLayout(p: Path) {
    p == OCI_LAYOUT || p == INDEX || p == MANIFEST || (|p| == 3 && p[..2] == BLOB_DIR)
  }

  /** What of an unpacking's limits a layout has to be within: members, sizes, and the names' lengths and depths. */
  predicate Unpackable(fs: Fs, listing: seq<string>, limits: Limits) {
    && 3 + |listing| <= limits.maxMembers
    && Size(LayoutMembers(fs, Sorted(listing))) <= limits.maxTotalBytes
    && AllFit(LayoutMembers(fs, Sorted(listing)), limits.maxMemberBytes)
    && RequiredReadable(limits) && AllReadable(listing, limits)
  }

  /** Unpacking what was packed, into an empty directory and under limits of its own, succeeds exactly when the layout
      is within those limits and its blobs' names are safe, and then gives the layout's files, all of them and nothing
      else, with the same contents. */
  lemma PackThenUnpack(fs: Fs, listing: seq<string>, packing: Limits, limits: Limits)
    requires RealNames(fs) && Lists(fs, listing) && Packed(fs, listing, packing).Some?
    ensures var back := Extracted(EMPTY, Packed(fs, listing, packing).value, limits);
            && (back.Some? <==> Unpackable(fs, listing, limits))
            && (back.Some? ==>
                  && (forall p :: IsFile(back.value.fs, p) <==> IsFile(fs, p) && OfLayout(p))
                  && (forall p | IsFile(back.value.fs, p) :: back.value.fs[p] == fs[p])
                  && (forall p | p in back.value.fs && back.value.fs[p].Dir? :: p == [] || p == BLOBS || p == BLOB_DIR)
                  && back.value.extracted == 3 + |listing|)
  {
    hide Place, PlaceAll, Content, Size, Seen, LayoutMembers, Readable, Laid, Sorted, Lists, IsFile, AllFit;
    var names, members := Sorted(listing), Packed(fs, listing, packing).value;
    SortedSorts(listing);
    SameLength(names, listing);
    SortedListed(fs, listing);
    CountMembers(fs, names);
    if Extracted(EMPTY, members, limits).Some? { PlacedFits(fs, names, limits); }
    if Size(members) <= limits.maxTotalBytes && AllFit(members, limits.maxMemberBytes) {
      PlaceBlobs(fs, names, limits);
    }
    if AllReadable(listing, limits) { SameReadable(listing, names, limits); }
    if AllReadable(names, limits) { SameReadable(names, listing, limits); }
    if Extracted(EMPTY, members, limits).Some? { LaidIsLayout(fs, listing, names); }
  }

  /** With one set of limits, as the codec is used, what packing has tested need not be tested again. */
  lemma PackThenUnpackAlike(fs: Fs, listing: seq<string>, limits: Limits)
    requires RealNames(fs) && Lists(fs, listing) && Packed(fs, listing, limits).Some?
    ensures Extracted(EMPTY, Packed(fs, listing, limits).value, limits).Some? <==>
            limits.maxMembers >= 3 && RequiredReadable(limits) && AllReadable(listing, limits)
  {
    PackThenUnpack(fs, listing, limits, limits);
    hide Extracted, Size, LayoutMembers, AllFit, Sorted, RealNames, Lists, IsFile, AllReadable;
  }

  /** Members that could all be placed are within the size limits. */
  lemma {:induction false} PlacedWithin(p: Progress, members: seq<Member>, limits: Limits)
    requires PlaceAll(p, members, limits).Some?
    requires forall i | 0 <= i < |members| :: members[i].kind.Regular? && members[i].size == |members[i].content|
    ensures PlaceAll(p, members, limits).value.total == p.total + Size(members)
    ensures members != [] ==> p.total + Size(members) <= limits.maxTotalBytes
    ensures AllFit(members, limits.maxMemberBytes)
  {
    hide Place;
    if members != [] {
      var front, last := members[..|members| - 1], members[|members| - 1];
      PlacedWithin(p, front, limits);
      PlacedOne(PlaceAll(p, front, limits).value, last, limits);
    }
  }

  lemma PlacedOne(p: Progress, m: Member, limits: Limits)
    requires m.kind.Regular? && Place(p, m, limits).Some?
    ensures |m.content| == m.size <= limits.maxMemberBytes && p.total + |m.content| <= limits.maxTotalBytes
    ensures Place(p, m, limits).value.total == p.total + |m.content|
  {
    PlaceIs(p, m, limits);
    hide Place, Admitted;
  }

  lemma PlacedFits(fs: Fs, names: seq<string>, limits: Limits)
    requires PlaceAll(Progress(EMPTY, {}, 0, 0), LayoutMembers(fs, names), limits).Some?
    ensures Size(LayoutMembers(fs, names)) <= limits.maxTotalBytes
    ensures AllFit(LayoutMembers(fs, names), limits.maxMemberBytes)
  {
    AllRegular(fs, names);
    CountMembers(fs, names);
    hide PlaceAll, Size, AllFit, LayoutMembers;
    PlacedWithin(Progress(EMPTY, {}, 0, 0), LayoutMembers(fs, names), limits);
  }

  lemma {:induction false} AllRegular(fs: Fs, names: seq<string>)
    ensures forall i | 0 <= i < |LayoutMembers(fs, names)| ::
              var m := LayoutMembers(fs, names)[i]; m.kind.Regular? && m.size == |m.content|
  {
    hide Content;
    if names != [] {
      var front, last := names[..|names| - 1], names[|names| - 1];
      assert front + [last] == names;
      AllRegular(fs, front);
      BlobMembersPush(fs, front, last);
    }
  }

  lemma SortedListed(fs: Fs, listing: seq<string>)
    requires RealNames(fs) && Lists(fs, listing)
    ensures Listed(Sorted(listing))
  {
    var names := Sorted(listing);
    SortedSorts(listing);
    hide Sorted, Ascending, NoSlash;
    forall i | 0 <= i < |names| ensures NoSlash(names[i]) {
      assert names[i] in multiset(listing);
      var j :| 0 <= j < |listing| && listing[j] == names[i];
      assert BlobPath(listing[j])[2] == names[i];
    }
    RepeatsByCount(listing, names);
  }

  lemma RepeatsByCount(a: seq<string>, b: seq<string>)
    requires multiset(a) == multiset(b) && NoRepeats(a)
    ensures NoRepeats(b)
  {
    forall i, j | 0 <= i < j < |b| ensures b[i] != b[j] {
      if b[i] == b[j] {
        TwiceCounts(b, i, j);
        OnceCounts(a, b[i]);
        assert false;
      }
    }
  }

  lemma TwiceCounts(s: seq<string>, i: nat, j: nat)
    requires i < j < |s| && s[i] == s[j]
    ensures multiset(s)[s[i]] >= 2
  {
    assert s == s[..j] + [s[j]] + s[j + 1..];
    assert s[..j][i] == s[i];
    assert s[i] in multiset(s[..j]);
  }

  lemma {:induction false} OnceCounts(s: seq<string>, name: string)
    requires NoRepeats(s)
    ensures multiset(s)[name] <= 1
  {
    if s != [] {
      var front, last := s[..|s| - 1], s[|s| - 1];
      assert s == front + [last];
      assert forall i | 0 <= i < |front| :: front[i] == s[i];
      OnceCounts(front, name);
      forall i | 0 <= i < |front| ensures front[i] != last {
        assert s[i] != s[|s| - 1];
      }
      assert last !in front;
    }
  }

  lemma {:induction false} CountMembers(fs: Fs, names: seq<string>)
    ensures |LayoutMembers(fs, names)| == 3 + |names|
  {
    if names != [] { CountMembers(fs, names[..|names| - 1]); }
  }

  lemma SameReadable(a: seq<string>, b: seq<string>, limits: Limits)
    requires multiset(a) == multiset(b) && AllReadable(a, limits)
    ensures AllReadable(b, limits)
  {
    hide Readable;
    forall i | 0 <= i < |b| ensures Readable(b[i], limits) {
      assert b[i] in multiset(a);
      var j :| 0 <= j < |a| && a[j] == b[i];
    }
  }

  ghost predicate BlobOf(names: seq<string>, p: Path) {
    exists i :: 0 <= i < |names| && p == BlobPath(names[i])
  }

  predicate IsRequired(p: Path) {
    p == OCI_LAYOUT || p == INDEX || p == MANIFEST
  }

  lemma BlobOfPush(names: seq<string>, name: string, p: Path)
    ensures BlobOf(names + [name], p) <==> BlobOf(names, p) || p == BlobPath(name)
  {
    var longer := names + [name];
    assert longer[|names|] == name && forall i | 0 <= i < |names| :: longer[i] == names[i];
  }

  lemma {:induction false} SeenIs(names: seq<string>, p: Path)
    ensures p in Seen(names) <==> IsRequired(p) || BlobOf(names, p)
  {
    if names != [] {
      var front := names[..|names| - 1];
      SeenIs(front, p);
      BlobOfPush(front, names[|names| - 1], p);
      assert front + [names[|names| - 1]] == names;
      hide BlobOf, IsRequired;
    }
  }

  lemma LaidIsLayout(fs: Fs, listing: seq<string>, names: seq<string>)
    requires Lists(fs, listing) && multiset(names) == multiset(listing)
    requires HasLayout(fs) && AllFiles(fs, listing)
    ensures var t := Unpacked(fs, names);
            && (forall p :: IsFile(t, p) <==> IsFile(fs, p) && OfLayout(p))
            && (forall p | IsFile(t, p) :: t[p] == fs[p])
            && (forall p | p in t && t[p].Dir? :: p == [] || p == BLOBS || p == BLOB_DIR)
  {
    hide Lists, HasLayout, AllFiles, Seen, OfLayout;
    forall p: Path ensures p in Seen(names) <==> IsFile(fs, p) && OfLayout(p) {
      SeenIs(names, p);
      SeenIsLayout(fs, listing, names, p);
    }
    LaidFiles(fs, Seen(names), names != []);
  }

  lemma LaidFiles(fs: Fs, files: set<Path>, withBlobs: bool)
    requires forall p | p in files :: IsFile(fs, p)
    ensures var t := Laid(fs, files, withBlobs);
            && (forall p :: IsFile(t, p) <==> p in files)
            && (forall p | IsFile(t, p) :: t[p] == fs[p])
            && (forall p | p in t && t[p].Dir? :: p == [] || p == BLOBS || p == BLOB_DIR)
  {
  }

  lemma SeenIsLayout(fs: Fs, listing: seq<string>, names: seq<string>, p: Path)
    requires Lists(fs, listing) && multiset(names) == multiset(listing)
    requires HasLayout(fs) && AllFiles(fs, listing)
    ensures IsRequired(p) || BlobOf(names, p) <==> IsFile(fs, p) && OfLayout(p)
  {
    hide Lists, AllFiles, IsFile, BlobOf;
    LayoutFiles(fs);
    if BlobOf(names, p) { BlobIsLayout(fs, listing, names, p); }
    if IsFile(fs, p) && OfLayout(p) && !IsRequired(p) { LayoutIsBlob(fs, listing, names, p); }
  }

  lemma BlobIsLayout(fs: Fs, listing: seq<string>, names: seq<string>, p: Path)
    requires multiset(names) == multiset(listing) && AllFiles(fs, listing) && BlobOf(names, p)
    ensures IsFile(fs, p) && OfLayout(p)
  {
    hide IsFile;
    var i :| 0 <= i < |names| && p == BlobPath(names[i]);
    Relisted(names, listing, i);
    var j :| 0 <= j < |listing| && listing[j] == names[i];
    assert IsFile(fs, BlobPath(listing[j])) && p[..2] == BLOB_DIR;
  }

  lemma LayoutIsBlob(fs: Fs, listing: seq<string>, names: seq<string>, p: Path)
    requires Lists(fs, listing) && multiset(names) == multiset(listing)
    requires IsFile(fs, p) && |p| == 3 && p[..2] == BLOB_DIR
    ensures BlobOf(names, p)
  {
    ListedHas(fs, listing, p);
    hide Lists;
    var j :| 0 <= j < |listing| && listing[j] == p[2];
    Relisted(listing, names, j);
    var i :| 0 <= i < |names| && names[i] == listing[j];
    assert p == BLOB_DIR + [p[2]] == BlobPath(names[i]);
  }

  lemma LayoutFiles(fs: Fs)
    requires HasLayout(fs)
    ensures IsFile(fs, OCI_LAYOUT) && IsFile(fs, INDEX) && IsFile(fs, MANIFEST)
  {
  }

  lemma ListedHas(fs: Fs, listing: seq<string>, p: Path)
    requires Lists(fs, listing) && IsFile(fs, p) && |p| == 3 && p[..2] == BLOB_DIR
    ensures exists j :: 0 <= j < |listing| && listing[j] == p[2]
  {
  }

  lemma Relisted(a: seq<string>, b: seq<string>, i: nat)
    requires multiset(a) == multiset(b) && i < |a|
    ensures exists j :: 0 <= j < |b| && b[j] == a[i]
  {
    assert a[i] in multiset(b);
  }

  // ---- Layouts that are packed and not unpacked ----

  function BarePaths(names: set<string>): set<Path> {
    {[], OCI_LAYOUT, INDEX, MANIFEST, BLOBS, BLOB_DIR} + (set n | n in names :: BlobPath(n))
  }

  /** A layout of empty files, with these blobs. */
  function Bare(names: set<string>): Fs {
    map p | p in BarePaths(names) :: if p in {[], BLOBS, BLOB_DIR} then Dir else File([])
  }

  lemma BarePacks(listing: seq<string>, limits: Limits)
    requires (forall i | 0 <= i < |listing| :: NoSlash(listing[i])) && NoRepeats(listing)
    requires |listing| <= (if limits.maxMembers >= 3 then limits.maxMembers - 3 else 0) && AllNamed(listing)
    ensures var fs := Bare(set n | n in listing);
            RealNames(fs) && Lists(fs, listing) && Packed(fs, listing, limits).Some?
  {
    var fs := Bare(set n | n in listing);
    BareFiles(listing);
    BareLists(listing);
    BareReal(listing);
    hide Bare, NoSlash, Sorted, LayoutMembers, Size, AllFit, AllFiles, HasLayout, Lists, RealNames, NoRepeats, IsFile;
    EmptyMembers(fs, Sorted(listing), limits.maxMemberBytes);
  }

  lemma BareFiles(listing: seq<string>)
    ensures var fs := Bare(set n | n in listing);
            && HasLayout(fs) && AllFiles(fs, listing)
            && forall p | IsFile(fs, p) :: fs[p].content == []
  {
    var names := set n | n in listing;
    assert OCI_LAYOUT[0][0] != INDEX[0][0] && OCI_LAYOUT in BarePaths(names) && BLOB_DIR in BarePaths(names);
    forall i | 0 <= i < |listing| ensures IsFile(Bare(names), BlobPath(listing[i])) {
      assert listing[i] in names;
      assert |BlobPath(listing[i])| == 3;
    }
  }

  lemma BareLists(listing: seq<string>)
    requires NoRepeats(listing)
    ensures Lists(Bare(set n | n in listing), listing)
  {
    var names := set n | n in listing;
    forall i | 0 <= i < |listing| ensures BlobPath(listing[i]) in Bare(names) {
      assert listing[i] in names;
    }
    forall p | p in Bare(names) && |p| == 3 ensures exists i | 0 <= i < |listing| :: listing[i] == p[2] {
      assert p in (set n | n in names :: BlobPath(n));
    }
  }

  lemma BareReal(listing: seq<string>)
    requires forall i | 0 <= i < |listing| :: NoSlash(listing[i])
    ensures RealNames(Bare(set n | n in listing))
  {
  }

  lemma {:induction false} EmptyMembers(fs: Fs, names: seq<string>, max: nat)
    requires forall p | IsFile(fs, p) :: fs[p].content == []
    ensures Size(LayoutMembers(fs, names)) == 0 && AllFit(LayoutMembers(fs, names), max)
  {
    if names == [] {
      RequiredSizes(fs);
      OnlyRequired(fs);
      hide Size;
    } else {
      var front, last := names[..|names| - 1], names[|names| - 1];
      assert front + [last] == names;
      hide Size, LayoutMembers;
      EmptyMembers(fs, front, max);
      BlobMembersPush(fs, front, last);
      SizePush(LayoutMembers(fs, front), MemberOf(BlobName(last), Content(fs, BlobPath(last))));
    }
  }

  /** Within any limits that leave room for a blob: its name may be one that unpacking refuses. */
  lemma BackslashDoesNotUnpack(limits: Limits)
    requires limits.maxMembers >= 4
    ensures var fs, listing := Bare({"a\\b"}), ["a\\b"];
            && RealNames(fs) && Lists(fs, listing) && Packed(fs, listing, limits).Some?
            && Extracted(EMPTY, Packed(fs, listing, limits).value, limits).None?
  {
    var listing := ["a\\b"];
    assert (set n | n in listing) == {"a\\b"};
    BarePacks(listing, limits);
    assert "a\\b"[1] == '\\';
    assert !Readable(listing[0], limits);
    hide Packed, Extracted, RealNames, Lists, Readable;
    PackThenUnpackAlike(Bare({"a\\b"}), listing, limits);
  }

  /** A limit below the three required members is not met when packing, only when unpacking. */
  lemma TooFewMembersDoNotUnpack(limits: Limits)
    requires limits.maxMembers < 3
    ensures var fs := Bare({});
            && RealNames(fs) && Lists(fs, []) && Packed(fs, [], limits).Some?
            && Extracted(EMPTY, Packed(fs, [], limits).value, limits).None?
  {
    var listing: seq<string> := [];
    assert (set n | n in listing) == {};
    BarePacks(listing, limits);
    hide Packed, Extracted, RealNames, Lists, Readable;
    PackThenUnpackAlike(Bare({}), listing, limits);
  }
}
