/** Which archives are extracted and what they leave, told member by member. */
module Placing {
  import opened Options
  import opened Bytes
  import opened Members
  import opened Tree

  // ---- One member ----

  /** What is asked of a member by itself. */
  ghost predicate Proper(m: Member, limits: Limits) {
    && (m.kind == Regular || m.kind == Directory)
    && AllFine(Split(m.name))
    && |m.name| <= limits.maxPathChars && |Split(m.name)| <= limits.maxDepth
    && (var top := Split(m.name)[0];
        top == "oci-layout" || top == "index.json" || top == "manifest.json" || top == "blobs")
    && (m.kind == Regular ==> 0 <= m.size <= limits.maxMemberBytes && |m.content| == m.size)
  }

  lemma ProperIs(m: Member, seen: set<Path>, limits: Limits)
    ensures Admitted(seen, m, limits) && (m.kind.Regular? ==> |m.content| == m.size) <==>
              Proper(m, limits) && Split(m.name) !in seen
  {
    SegmentsFine(Split(m.name));
    hide Split, AllSafe, AllFine;
  }

  // ---- Directories and files ----

  /** The path itself or a directory on the way to it. */
  predicate Above(r: Path, p: Path) {
    r != [] && r <= p
  }

  /** Nothing but directories is in the way of a path: at its own end nothing at all, if a file goes there. */
  ghost predicate Clear(fs: Fs, p: Path, file: bool) {
    forall r: Path | Above(r, p) && r in fs :: fs[r].Dir? && !(file && r == p)
  }

  /** The tree with this path, and the directories above it that were missing. */
  ghost predicate Adds(fs: Fs, p: Path, node: Node, g: Fs) {
    && (forall q: Path :: q in g <==> q in fs || Above(q, p))
    && (forall q: Path | q in fs :: g[q] == fs[q])
    && (forall q: Path | Above(q, p) && q !in fs :: g[q] == if q == p then node else Dir)
  }

  lemma PrefixStep(p: Path, r: Path)
    requires p != []
    ensures Above(r, p) <==> r == p || Above(r, Parent(p))
  {
    if r <= p && r != p {
      assert |r| <= |p| - 1;
      assert Parent(p)[..|r|] == p[..|r|];
    }
    if r <= Parent(p) {
      assert p[..|r|] == Parent(p)[..|r|];
    }
  }

  lemma {:induction false} WithDirsIs(fs: Fs, p: Path)
    ensures WithDirs(fs, p).Some? <==> Clear(fs, p, false)
    ensures WithDirs(fs, p).Some? ==> Adds(fs, p, Dir, WithDirs(fs, p).value)
    decreases |p|
  {
    if p == [] {
      NothingBelow(fs);
    } else {
      WithDirsIs(fs, Parent(p));
      forall r: Path ensures Above(r, p) <==> r == p || Above(r, Parent(p)) { PrefixStep(p, r); }
      ParentShorter(p);
      hide WithDirs, Parent, Above;
      DirsUnfold(fs, p);
    }
  }

  lemma ParentShorter(p: Path)
    requires p != []
    ensures Parent(p) != p && !Above(p, Parent(p)) && Above(p, p)
  {
  }

  lemma DirsUnfold(fs: Fs, p: Path)
    requires p != []
    ensures WithDirs(fs, p) ==
            match WithDirs(fs, Parent(p))
            case None => None
            case Some(g) => if p !in g then Some(g[p := Dir]) else if g[p].Dir? then Some(g) else None
  {
  }

  lemma NothingBelow(fs: Fs)
    ensures Clear(fs, [], false) && Adds(fs, [], Dir, fs)
  {
  }

  lemma WithFileIs(fs: Fs, p: Path, content: seq<Byte>)
    requires p != []
    ensures WithFile(fs, p, content).Some? <==> Clear(fs, p, true)
    ensures WithFile(fs, p, content).Some? ==> Adds(fs, p, File(content), WithFile(fs, p, content).value)
  {
    WithDirsIs(fs, Parent(p));
    forall r: Path ensures Above(r, p) <==> r == p || Above(r, Parent(p)) { PrefixStep(p, r); }
    ParentShorter(p);
    hide WithDirs, Parent, Above;
  }

  // ---- All members ----

  ghost function BytesOf(members: seq<Member>): nat {
    if members == [] then 0
    else
      var last := members[|members| - 1];
      BytesOf(members[..|members| - 1]) + (if last.kind == Regular then |last.content| else 0)
  }

  ghost function Regulars(members: seq<Member>): nat {
    if members == [] then 0
    else Regulars(members[..|members| - 1]) + (if members[|members| - 1].kind == Regular then 1 else 0)
  }

  /** A member's path fits what is there already. */
  ghost predicate FitsIn(fs: Fs, m: Member) {
    Clear(fs, Split(m.name), m.kind == Regular)
  }

  /** No two members have one name, and none is below a file of another. */
  ghost predicate Apart(members: seq<Member>) {
    && (forall i, j | 0 <= i < j < |members| :: members[i].name != members[j].name)
    && (forall i, j | 0 <= i < |members| && 0 <= j < |members| && members[j].kind == Regular ::
          !(Split(members[j].name) < Split(members[i].name)))
  }

  /** The archives that are extracted. */
  ghost predicate Extractable(fs: Fs, members: seq<Member>, limits: Limits) {
    |members| <= limits.maxMembers && Placeable(fs, members, limits)
  }

  ghost predicate Placeable(fs: Fs, members: seq<Member>, limits: Limits) {
    && (forall i | 0 <= i < |members| :: Proper(members[i], limits) && FitsIn(fs, members[i]))
    && Apart(members)
    && BytesOf(members) <= limits.maxTotalBytes
  }

  ghost predicate Leads(members: seq<Member>, q: Path) {
    exists i | 0 <= i < |members| :: Above(q, Split(members[i].name))
  }

  ghost predicate IsFile(members: seq<Member>, q: Path, content: seq<Byte>) {
    exists i | 0 <= i < |members| ::
      members[i].kind == Regular && Split(members[i].name) == q && members[i].content == content
  }

  ghost predicate SomeFile(members: seq<Member>, q: Path) {
    exists i | 0 <= i < |members| :: members[i].kind == Regular && Split(members[i].name) == q
  }

  /** What an extraction leaves: the tree that was there, the members' files, and directories above them. */
  ghost predicate Left(fs: Fs, members: seq<Member>, g: Fs) {
    && (forall q: Path :: q in g <==> q in fs || Leads(members, q))
    && (forall q: Path | q in fs :: g[q] == fs[q])
    && (forall q: Path | q in g && q !in fs ::
          && (SomeFile(members, q) ==> g[q].File? && IsFile(members, q, g[q].content))
          && (!SomeFile(members, q) ==> g[q].Dir?))
  }

  // ---- One member more ----

  lemma Push(members: seq<Member>, m: Member)
    ensures BytesOf(members + [m]) == BytesOf(members) + (if m.kind == Regular then |m.content| else 0)
    ensures Regulars(members + [m]) == Regulars(members) + (if m.kind == Regular then 1 else 0)
  {
    assert (members + [m])[..|members|] == members;
  }

  lemma LeadsPush(members: seq<Member>, m: Member, q: Path)
    ensures Leads(members + [m], q) <==> Leads(members, q) || Above(q, Split(m.name))
    ensures SomeFile(members + [m], q) <==> SomeFile(members, q) || (m.kind == Regular && Split(m.name) == q)
    ensures forall content ::
              IsFile(members + [m], q, content) <==>
                IsFile(members, q, content) || (m.kind == Regular && Split(m.name) == q && m.content == content)
  {
    hide Split, Above;
    var longer := members + [m];
    assert longer[|members|] == m && forall i | 0 <= i < |members| :: longer[i] == members[i];
  }

  /** Two members do not stand in each other's way. */
  ghost predicate PairApart(a: Member, b: Member) {
    && a.name != b.name
    && (b.kind == Regular ==> !(Split(b.name) < Split(a.name)))
    && (a.kind == Regular ==> !(Split(a.name) < Split(b.name)))
  }

  lemma ApartPush(members: seq<Member>, m: Member)
    ensures Apart(members + [m]) <==> Apart(members) && forall i | 0 <= i < |members| :: PairApart(members[i], m)
  {
    hide Split;
    var longer, n := members + [m], |members|;
    assert longer[n] == m && forall i | 0 <= i < n :: longer[i] == members[i];
    if Apart(longer) {
      forall i | 0 <= i < n ensures PairApart(members[i], m) {
        assert longer[i].name != longer[n].name;
      }
    }
    if Apart(members) && forall i | 0 <= i < n :: PairApart(members[i], m) {
      forall i, j | 0 <= i <= n && 0 <= j <= n && longer[j].kind == Regular
        ensures !(Split(longer[j].name) < Split(longer[i].name))
      {
        if i < n { assert PairApart(members[i], m); }
        if j < n { assert PairApart(members[j], m); }
      }
      forall i, j | 0 <= i < j <= n ensures longer[i].name != longer[j].name {
        if j == n { assert PairApart(members[i], m); }
      }
    }
  }

  /** Where the members so far leave room for one more, and where they do not. */
  lemma RoomFor(fs: Fs, members: seq<Member>, g: Fs, m: Member)
    requires Left(fs, members, g) && forall i | 0 <= i < |members| :: FitsIn(fs, members[i])
    requires forall i | 0 <= i < |members| :: members[i].name != m.name
    ensures FitsIn(g, m) <==> FitsIn(fs, m) && forall i | 0 <= i < |members| :: PairApart(members[i], m)
  {
    if FitsIn(fs, m) && forall i | 0 <= i < |members| :: PairApart(members[i], m) {
      StillFits(fs, members, g, m);
    }
    if FitsIn(g, m) {
      assert FitsIn(fs, m);
      forall i | 0 <= i < |members| ensures PairApart(members[i], m) { NotInTheWay(fs, members, g, m, i); }
    }
  }

  lemma StillFits(fs: Fs, members: seq<Member>, g: Fs, m: Member)
    requires Left(fs, members, g) && FitsIn(fs, m)
    requires forall i | 0 <= i < |members| :: PairApart(members[i], m)
    ensures FitsIn(g, m)
  {
    var p := Split(m.name);
    forall r: Path | Above(r, p) && r in g ensures g[r].Dir? && !(m.kind == Regular && r == p) {
      if r !in fs {
        var i :| 0 <= i < |members| && Above(r, Split(members[i].name));
        assert PairApart(members[i], m);
        SamePathSameName(members[i].name, m.name);
        hide Split, Parent;
        if SomeFile(members, r) {
          var j :| 0 <= j < |members| && members[j].kind == Regular && Split(members[j].name) == r;
          assert PairApart(members[j], m);
          SamePathSameName(members[j].name, m.name);
        }
      }
    }
  }

  lemma NotInTheWay(fs: Fs, members: seq<Member>, g: Fs, m: Member, i: nat)
    requires Left(fs, members, g) && i < |members| && FitsIn(fs, members[i]) && FitsIn(g, m)
    requires members[i].name != m.name
    ensures PairApart(members[i], m)
  {
    NeverEmpty(members[i].name);
    NeverEmpty(m.name);
    if members[i].kind == Regular { FileThere(fs, members, g, i); }
    hide Split;
    var a, b := Split(members[i].name), Split(m.name);
    assert Above(a, b) == (a <= b);
    assert Above(b, a) == (b <= a) && Above(b, b);
    assert b <= a ==> Leads(members, b);
  }

  lemma FileThere(fs: Fs, members: seq<Member>, g: Fs, i: nat)
    requires Left(fs, members, g) && i < |members| && FitsIn(fs, members[i]) && members[i].kind == Regular
    ensures Split(members[i].name) in g && g[Split(members[i].name)].File?
  {
    NeverEmpty(members[i].name);
    hide Split;
    var a := Split(members[i].name);
    assert Above(a, a);
    assert Leads(members, a) && SomeFile(members, a);
  }

  lemma NeverEmpty(name: string)
    ensures Split(name) != []
  {
  }

  lemma LeftPush(fs: Fs, members: seq<Member>, g: Fs, m: Member, h: Fs)
    requires Left(fs, members, g) && FitsIn(g, m) && (m.kind == Regular || m.kind == Directory)
    requires Adds(g, Split(m.name), if m.kind == Regular then File(m.content) else Dir, h)
    ensures Left(fs, members + [m], h)
  {
    NeverEmpty(m.name);
    hide Split, Leads, SomeFile, IsFile;
    forall q: Path { LeadsPush(members, m, q); }
    var p := Split(m.name);
    assert Above(p, p);
    forall q: Path | SomeFile(members, q) ensures Leads(members, q) { FileLeads(members, q); }
  }

  lemma FileLeads(members: seq<Member>, q: Path)
    requires SomeFile(members, q)
    ensures Leads(members, q)
  {
    var i :| 0 <= i < |members| && members[i].kind == Regular && Split(members[i].name) == q;
    NeverEmpty(members[i].name);
    hide Split;
    assert Above(q, Split(members[i].name));
  }

  ghost predicate SeenAre(members: seq<Member>, seen: set<Path>) {
    && (forall i | 0 <= i < |members| :: Split(members[i].name) in seen)
    && forall p | p in seen :: exists i :: 0 <= i < |members| && Split(members[i].name) == p
  }

  /** Where the loop over the members stands. */
  ghost predicate Stands(fs: Fs, members: seq<Member>, p: Progress) {
    && Left(fs, members, p.fs) && SeenAre(members, p.seen)
    && p.total == BytesOf(members) && p.extracted == Regulars(members)
  }

  /** One member more can be placed exactly if it is proper, fits what was there, is apart from those before it, and
      there are bytes left for it. */
  ghost predicate Addable(fs: Fs, members: seq<Member>, m: Member, limits: Limits) {
    && Proper(m, limits) && FitsIn(fs, m) && (forall i | 0 <= i < |members| :: PairApart(members[i], m))
    && (m.kind == Regular ==> BytesOf(members) + |m.content| <= limits.maxTotalBytes)
  }

  lemma NotSeen(members: seq<Member>, seen: set<Path>, m: Member)
    requires SeenAre(members, seen)
    ensures Split(m.name) !in seen <==> forall i | 0 <= i < |members| :: members[i].name != m.name
    ensures SeenAre(members + [m], seen + {Split(m.name)})
  {
    forall i | 0 <= i < |members| ensures Split(members[i].name) == Split(m.name) <==> members[i].name == m.name {
      SamePathSameName(members[i].name, m.name);
    }
    hide Split;
    var longer := members + [m];
    assert longer[|members|] == m && forall i | 0 <= i < |members| :: longer[i] == members[i];
    assert 0 <= |members| < |longer| && Split(longer[|members|].name) == Split(m.name);
  }

  lemma PlaceOne(fs: Fs, members: seq<Member>, p: Progress, m: Member, limits: Limits)
    requires Stands(fs, members, p) && forall i | 0 <= i < |members| :: FitsIn(fs, members[i])
    ensures Place(p, m, limits).Some? <==> Addable(fs, members, m, limits)
    ensures Place(p, m, limits).Some? ==> Stands(fs, members + [m], Place(p, m, limits).value)
  {
    hide Split, Place, Admitted, WithDirs, WithFile, Left, SeenAre, FitsIn, PairApart, Proper, Adds;
    PlaceIs(p, m, limits);
    ProperIs(m, p.seen, limits);
    NotSeen(members, p.seen, m);
    NeverEmpty(m.name);
    ProperKind(m, limits);
    WithFileIs(p.fs, Split(m.name), m.content);
    WithDirsIs(p.fs, Split(m.name));
    FitsIs(p.fs, m);
    ApartNames(members, m);
    Push(members, m);
    if Proper(m, limits) && Split(m.name) !in p.seen {
      RoomFor(fs, members, p.fs, m);
      if Place(p, m, limits).Some? {
        LeftPush(fs, members, p.fs, m, Place(p, m, limits).value.fs);
      }
    }
  }

  lemma ProperKind(m: Member, limits: Limits)
    ensures Proper(m, limits) ==>
              (m.kind == Regular || m.kind == Directory) && (m.kind == Regular ==> |m.content| == m.size)
  {
  }

  lemma FitsIs(fs: Fs, m: Member)
    ensures FitsIn(fs, m) <==> Clear(fs, Split(m.name), m.kind == Regular)
  {
  }

  lemma ApartNames(members: seq<Member>, m: Member)
    ensures (forall i | 0 <= i < |members| :: PairApart(members[i], m)) ==>
              forall i | 0 <= i < |members| :: members[i].name != m.name
  {
  }

  lemma PlaceablePush(fs: Fs, members: seq<Member>, m: Member, limits: Limits)
    ensures Placeable(fs, members + [m], limits) <==>
              Placeable(fs, members, limits) && Addable(fs, members, m, limits)
  {
    hide Apart, Proper, FitsIn, PairApart, BytesOf;
    ApartPush(members, m);
    Push(members, m);
    var longer := members + [m];
    assert longer[|members|] == m && forall i | 0 <= i < |members| :: longer[i] == members[i];
  }

  lemma NonePlaced(fs: Fs, limits: Limits)
    ensures Placeable(fs, [], limits) && Stands(fs, [], Progress(fs, {}, 0, 0))
  {
  }

  /** The loop over the members places them all exactly when they are proper, fit the tree and are apart, within the
      limit of their bytes together; the tree then holds their files and the directories above them, and nothing that
      was there has changed. */
  lemma {:induction false} PlacedIs(fs: Fs, members: seq<Member>, limits: Limits)
    ensures var r := PlaceAll(Progress(fs, {}, 0, 0), members, limits);
            && (r.Some? <==> Placeable(fs, members, limits))
            && (r.Some? ==> Stands(fs, members, r.value))
  {
    if members == [] {
      NonePlaced(fs, limits);
    } else {
      var front, last := members[..|members| - 1], members[|members| - 1];
      assert front + [last] == members;
      PlacedIs(fs, front, limits);
      PlaceablePush(fs, front, last, limits);
      if Placeable(fs, front, limits) {
        PlaceOne(fs, front, PlaceAll(Progress(fs, {}, 0, 0), front, limits).value, last, limits);
      }
      hide Placeable, Place, Stands, Addable;
    }
  }

  lemma ExtractedIs(fs: Fs, members: seq<Member>, limits: Limits)
    ensures Extracted(fs, members, limits).Some? <==> Extractable(fs, members, limits)
    ensures Extracted(fs, members, limits).Some? ==>
              && Left(fs, members, Extracted(fs, members, limits).value.fs)
              && Extracted(fs, members, limits).value.extracted == Regulars(members)
  {
    PlacedIs(fs, members, limits);
    hide Placeable, PlaceAll, Left, Regulars;
  }
}
