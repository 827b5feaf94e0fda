/** A directory tree below one root, and what extraction adds to it. */
module Tree {
  import opened Options
  import opened Bytes
  import opened Members

  /** `Irregular` is an entry of any other kind: a symbolic link, a device, a socket. */
  datatype Node = Dir | File(content: seq<Byte>) | Irregular

  type Fs = map<Path, Node>

  function Parent(p: Path): Path
    requires p != []
  {
    p[..|p| - 1]
  }

  /** The root is a directory, and so is the parent of every entry. */
  ghost predicate WellFormed(fs: Fs) {
    && [] in fs && fs[[]].Dir?
    && forall p | p in fs && p != [] :: Parent(p) in fs && fs[Parent(p)].Dir?
  }

  ghost predicate Childless(fs: Fs, p: Path) {
    forall q | q in fs && q != [] :: Parent(q) != p
  }

  // ---- What a member adds ----

  /** The tree with this directory and those above it; none if something else is in the way. */
  function WithDirs(fs: Fs, p: Path): Option<Fs>
    decreases |p|
  {
    if p == [] then Some(fs)
    else
      match WithDirs(fs, Parent(p))
      case None => None
      case Some(g) => if p !in g then Some(g[p := Dir]) else if g[p].Dir? then Some(g) else None
  }

  function WithFile(fs: Fs, p: Path, content: seq<Byte>): Option<Fs>
    requires p != []
  {
    match WithDirs(fs, Parent(p))
    case None => None
    case Some(g) => if p in g then None else Some(g[p := File(content)])
  }

  lemma {:induction false} DirsAlready(fs: Fs, p: Path)
    requires WellFormed(fs) && p in fs && fs[p].Dir?
    ensures WithDirs(fs, p) == Some(fs)
    decreases |p|
  {
    if p != [] { DirsAlready(fs, Parent(p)); }
  }

  datatype EntryKind = Regular | Directory | Link | Special

  /** A member as the archive presents it: its header's size, and the bytes its reader yields. */
  datatype Member = Member(name: string, kind: EntryKind, size: int, content: seq<Byte>)

  datatype Limits = Limits(maxMembers: nat, maxMemberBytes: nat, maxTotalBytes: nat, maxDepth: nat, maxPathChars: nat,
                           chunkSize: nat)

  const EXPECTED_LAYOUT_MEMBERS := {"oci-layout", "index.json", "manifest.json", "blobs"}

  datatype Progress = Progress(fs: Fs, seen: set<Path>, total: nat, extracted: nat)

  /** The tests on a member's header. */
  predicate Admitted(seen: set<Path>, m: Member, limits: Limits) {
    && (m.kind.Regular? || m.kind.Directory?)
    && AllSafe(Split(m.name))
    && |m.name| <= limits.maxPathChars && |Split(m.name)| <= limits.maxDepth
    && Split(m.name) !in seen
    && Split(m.name)[0] in EXPECTED_LAYOUT_MEMBERS
    && (m.kind.Regular? ==> 0 <= m.size <= limits.maxMemberBytes)
  }

  function Place(p: Progress, m: Member, limits: Limits): Option<Progress> {
    if !Admitted(p.seen, m, limits) then None
    else
      var parts := Split(m.name);
      var seen := p.seen + {parts};
      if m.kind.Directory? then
        match WithDirs(p.fs, parts)
        case None => None
        case Some(g) => Some(p.(fs := g, seen := seen))
      else if |m.content| != m.size || p.total + |m.content| > limits.maxTotalBytes then None
      else
        match WithFile(p.fs, parts, m.content)
        case None => None
        case Some(g) => Some(Progress(g, seen, p.total + |m.content|, p.extracted + 1))
  }

  function PlaceAll(p: Progress, members: seq<Member>, limits: Limits): Option<Progress> {
    if members == [] then Some(p)
    else
      match PlaceAll(p, members[..|members| - 1], limits)
      case None => None
      case Some(q) => Place(q, members[|members| - 1], limits)
  }

  /** The tree after a successful extraction. */
  function Extracted(fs: Fs, members: seq<Member>, limits: Limits): Option<Progress> {
    if |members| > limits.maxMembers then None else PlaceAll(Progress(fs, {}, 0, 0), members, limits)
  }

  lemma PlaceIs(p: Progress, m: Member, limits: Limits)
    ensures !Admitted(p.seen, m, limits) ==> Place(p, m, limits) == None
    ensures Admitted(p.seen, m, limits) && m.kind.Directory? ==>
              Place(p, m, limits) == match WithDirs(p.fs, Split(m.name))
                                     case None => None
                                     case Some(g) => Some(Progress(g, p.seen + {Split(m.name)}, p.total, p.extracted))
    ensures Admitted(p.seen, m, limits) && !m.kind.Directory? ==>
              && m.kind.Regular? && 0 <= m.size <= limits.maxMemberBytes
              && Place(p, m, limits) ==
                 if |m.content| != m.size || p.total + |m.content| > limits.maxTotalBytes then None
                 else match WithFile(p.fs, Split(m.name), m.content)
                      case None => None
                      case Some(g) =>
                        Some(Progress(g, p.seen + {Split(m.name)}, p.total + |m.content|, p.extracted + 1))
  {
    hide Split, AllSafe, WithDirs, WithFile;
  }

  lemma PlaceStep(p: Progress, members: seq<Member>, limits: Limits, i: nat)
    requires i < |members|
    ensures PlaceAll(p, members[..i + 1], limits) ==
            match PlaceAll(p, members[..i], limits) case None => None case Some(q) => Place(q, members[i], limits)
  {
    hide Place;
    assert members[..i + 1][..i] == members[..i];
  }

  lemma {:induction false} RefusedStaysRefused(p: Progress, members: seq<Member>, limits: Limits, i: nat)
    requires i <= |members| && PlaceAll(p, members[..i], limits).None?
    ensures PlaceAll(p, members, limits).None?
    decreases |members| - i
  {
    hide PlaceAll;
    if i < |members| {
      PlaceStep(p, members, limits, i);
      RefusedStaysRefused(p, members, limits, i + 1);
    } else {
      assert members[..i] == members;
    }
  }

  // ---- What has been created ----

  ghost predicate Has(paths: seq<Path>, p: Path) {
    exists i | 0 <= i < |paths| :: paths[i] == p
  }

  ghost predicate Different(paths: seq<Path>) {
    forall i, j | 0 <= i < j < |paths| :: paths[i] != paths[j]
  }

  /** `fs` is `base` with just these files and directories added, a directory never before its parent. */
  ghost predicate Made(base: Fs, fs: Fs, files: seq<Path>, dirs: seq<Path>) {
    && WellFormed(base) && WellFormed(fs)
    && (forall p | p in base :: p in fs && fs[p] == base[p])
    && (forall p | p in fs && p !in base :: if fs[p].File? then Has(files, p) else Has(dirs, p))
    && (forall i | 0 <= i < |files| :: files[i] !in base && files[i] in fs && fs[files[i]].File?)
    && (forall i | 0 <= i < |dirs| :: dirs[i] !in base && dirs[i] in fs && fs[dirs[i]].Dir?)
    && Different(files) && Different(dirs)
    && ParentsFirst(dirs)
  }

  ghost predicate ParentsFirst(dirs: seq<Path>) {
    forall i, j | 0 <= i < |dirs| && 0 <= j < |dirs| && dirs[i] != [] && Parent(dirs[i]) == dirs[j] :: j < i
  }

  lemma HasPushed(paths: seq<Path>, p: Path)
    ensures forall q :: Has(paths + [p], q) <==> Has(paths, q) || q == p
    ensures Different(paths) && !Has(paths, p) ==> Different(paths + [p])
  {
    var longer := paths + [p];
    assert longer[|paths|] == p;
    assert forall i | 0 <= i < |paths| :: longer[i] == paths[i];
  }

  lemma MadeNothing(base: Fs)
    requires WellFormed(base)
    ensures Made(base, base, [], [])
  {
  }

  lemma MadeFile(base: Fs, fs: Fs, files: seq<Path>, dirs: seq<Path>, p: Path, content: seq<Byte>)
    requires Made(base, fs, files, dirs)
    requires p != [] && p !in fs && Parent(p) in fs && fs[Parent(p)].Dir?
    ensures Made(base, fs[p := File(content)], files + [p], dirs)
  {
    HasPushed(files, p);
    hide Has, Different, ParentsFirst;
    NotAmong(base, fs, files, dirs, p);
    FileAdded(fs, p, content);
  }

  lemma NotAmong(base: Fs, fs: Fs, files: seq<Path>, dirs: seq<Path>, p: Path)
    requires Made(base, fs, files, dirs) && p !in fs
    ensures !Has(files, p) && !Has(dirs, p)
  {
  }

  lemma FileAdded(fs: Fs, p: Path, content: seq<Byte>)
    requires WellFormed(fs) && p != [] && p !in fs && Parent(p) in fs && fs[Parent(p)].Dir?
    ensures WellFormed(fs[p := File(content)])
  {
  }

  /** Writing to a file that was created changes nothing else. */
  lemma MadeRewritten(base: Fs, fs: Fs, files: seq<Path>, dirs: seq<Path>, p: Path, content: seq<Byte>)
    requires Made(base, fs, files, dirs) && Has(files, p)
    ensures p in fs && fs[p].File? && Made(base, fs[p := File(content)], files, dirs)
  {
    hide Different, ParentsFirst;
  }

  lemma MadeDir(base: Fs, fs: Fs, files: seq<Path>, dirs: seq<Path>, p: Path)
    requires Made(base, fs, files, dirs)
    requires p != [] && p !in fs && Parent(p) in fs && fs[Parent(p)].Dir?
    ensures Made(base, fs[p := Dir], files, dirs + [p])
  {
    NoneBelow(base, fs, files, dirs, p);
    HasPushed(dirs, p);
    hide Has, Different, ParentsFirst;
    NotAmong(base, fs, files, dirs, p);
    DirAdded(fs, p);
  }

  lemma DirAdded(fs: Fs, p: Path)
    requires WellFormed(fs) && p != [] && p !in fs && Parent(p) in fs && fs[Parent(p)].Dir?
    ensures WellFormed(fs[p := Dir])
  {
  }

  lemma NoneBelow(base: Fs, fs: Fs, files: seq<Path>, dirs: seq<Path>, p: Path)
    requires Made(base, fs, files, dirs) && p !in fs && p != []
    ensures ParentsFirst(dirs + [p])
  {
    var longer := dirs + [p];
    assert forall i | 0 <= i < |dirs| :: longer[i] == dirs[i];
    assert forall i | 0 <= i < |dirs| && dirs[i] != [] :: Parent(dirs[i]) in fs;
  }

  // ---- Taking it back ----

  lemma Unlinked(base: Fs, fs: Fs, files: seq<Path>, dirs: seq<Path>)
    requires Made(base, fs, files, dirs) && files != []
    ensures var p := files[|files| - 1];
            p in fs && fs[p].File? && Made(base, fs - {p}, files[..|files| - 1], dirs)
  {
    hide Has, Different, ParentsFirst, WellFormed;
    Popped(files);
    NoChildrenOfFile(fs, files[|files| - 1]);
    Removed(fs, files[|files| - 1]);
  }

  lemma Popped(paths: seq<Path>)
    requires paths != [] && Different(paths)
    ensures var front, p := paths[..|paths| - 1], paths[|paths| - 1];
            && Different(front)
            && (forall q | q != p :: Has(paths, q) <==> Has(front, q))
            && forall i | 0 <= i < |front| :: front[i] == paths[i] && front[i] != p
  {
    var front, p := paths[..|paths| - 1], paths[|paths| - 1];
    assert front + [p] == paths;
    HasPushed(front, p);
  }

  lemma NoChildrenOfFile(fs: Fs, p: Path)
    requires WellFormed(fs) && p in fs && fs[p].File?
    ensures Childless(fs, p) && p != []
  {
  }

  lemma Removed(fs: Fs, p: Path)
    requires WellFormed(fs) && Childless(fs, p) && p != []
    ensures WellFormed(fs - {p})
  {
  }

  /** With the files gone, the directory created last is empty, so removing it is legal. */
  lemma RemovedDir(base: Fs, fs: Fs, dirs: seq<Path>)
    requires Made(base, fs, [], dirs) && dirs != []
    ensures var p := dirs[|dirs| - 1];
            && p in fs && fs[p].Dir? && p != [] && Childless(fs, p)
            && Made(base, fs - {p}, [], dirs[..|dirs| - 1])
  {
    hide Has, Different, ParentsFirst, WellFormed;
    Popped(dirs);
    LastIsEmpty(base, fs, dirs);
    Removed(fs, dirs[|dirs| - 1]);
    FrontFirst(dirs);
  }

  lemma FrontFirst(dirs: seq<Path>)
    requires ParentsFirst(dirs) && dirs != []
    ensures ParentsFirst(dirs[..|dirs| - 1])
  {
    assert forall i | 0 <= i < |dirs| - 1 :: dirs[..|dirs| - 1][i] == dirs[i];
  }

  lemma LastIsEmpty(base: Fs, fs: Fs, dirs: seq<Path>)
    requires Made(base, fs, [], dirs) && dirs != []
    ensures dirs[|dirs| - 1] != [] && Childless(fs, dirs[|dirs| - 1])
  {
    var p := dirs[|dirs| - 1];
    forall q | q in fs && q != [] ensures Parent(q) != p {
      if q !in base {
        assert Has(dirs, q);
      }
    }
  }

  lemma AllTakenBack(base: Fs, fs: Fs)
    requires Made(base, fs, [], [])
    ensures fs == base
  {
  }
}
