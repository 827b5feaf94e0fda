/** The bounded walk over a directory tree with an explicit stack. */
module TreeWalk {
  import opened Options
  import opened Members
  import opened Ordering
  import opened Sets
  import opened Tree

  type Listing = Path -> seq<string>

  /** What scanning each directory yields: its entries, once each, in any order. */
  ghost predicate Lists(fs: Fs, listing: Listing) {
    forall p | p in fs && fs[p].Dir? ::
      && Different(Below(p, listing(p)))
      && forall q :: (q in fs && q != [] && Parent(q) == p) <==> Has(Below(p, listing(p)), q)
  }

  /** These entries of a directory as paths. */
  function Below(dir: Path, names: seq<string>): (r: seq<Path>)
    ensures |r| == |names|
    ensures forall i | 0 <= i < |names| :: r[i] == dir + [names[i]]
  {
    if names == [] then [] else Below(dir, names[..|names| - 1]) + [dir + [names[|names| - 1]]]
  }

  /** An entry that is not refused: a directory or regular file with a safe name, not too long and not too deep. */
  predicate Allowed(fs: Fs, p: Path, maxDepth: nat, maxPathChars: nat) {
    p in fs && !fs[p].Irregular? && AllSafe(Split(Joined(p))) && |Joined(p)| <= maxPathChars && |p| <= maxDepth
  }

  lemma WalkableIs(fs: Fs, budget: nat, maxDepth: nat, maxPathChars: nat)
    ensures Walkable(fs, budget, maxDepth, maxPathChars) <==>
              && |fs| - 1 <= budget
              && forall p | p in fs && p != [] ::
                   && fs[p] != Irregular && |p| <= maxDepth && |Joined(p)| <= maxPathChars
                   && AllFine(Split(Joined(p)))
  {
    hide Split, Joined, AllSafe, AllFine;
    forall p | p in fs && p != []
      ensures Allowed(fs, p, maxDepth, maxPathChars) <==>
                && fs[p] != Irregular && |p| <= maxDepth && |Joined(p)| <= maxPathChars
                && AllFine(Split(Joined(p)))
    {
      SegmentsFine(Split(Joined(p)));
    }
    hide Allowed;
  }

  /** The trees that can be walked. */
  ghost predicate Walkable(fs: Fs, budget: nat, maxDepth: nat, maxPathChars: nat) {
    |fs| - 1 <= budget && forall p | p in fs && p != [] :: Allowed(fs, p, maxDepth, maxPathChars)
  }

  // ---- What the walk has done ----

  /** The entries counted so far are those below the directories scanned; every other directory met is on the stack. */
  ghost predicate Progressed(fs: Fs, scanned: set<Path>, counted: set<Path>, stack: seq<Path>) {
    && scanned <= fs.Keys && counted <= fs.Keys
    && (forall p | p in counted :: p != [] && Parent(p) in scanned)
    && (forall p | p in scanned :: p == [] || p in counted)
    && (forall p | p in fs && p != [] && Parent(p) in scanned :: p in counted)
    && Different(stack)
    && (forall i | 0 <= i < |stack| ::
          stack[i] in fs && fs[stack[i]].Dir? && stack[i] !in scanned && (stack[i] == [] || stack[i] in counted))
    && (forall p | p in counted && fs[p].Dir? :: p in scanned || Has(stack, p))
    && ([] in scanned || Has(stack, []))
  }

  lemma {:induction false} EverythingCounted(fs: Fs, scanned: set<Path>, counted: set<Path>, p: Path)
    requires WellFormed(fs) && Progressed(fs, scanned, counted, []) && p in fs
    ensures p == [] || p in counted
    decreases |p|
  {
    if p != [] {
      EverythingCounted(fs, scanned, counted, Parent(p));
      assert Parent(p) in scanned;
    }
  }

  ghost function NonRoot(fs: Fs): set<Path> {
    fs.Keys - {[]}
  }

  lemma NonRootSize(fs: Fs)
    requires [] in fs
    ensures |NonRoot(fs)| == |fs| - 1
  {
    assert fs.Keys == NonRoot(fs) + {[]};
  }

  /** Just the regular files among the entries counted. */
  ghost predicate Found(fs: Fs, counted: set<Path>, files: seq<Path>) {
    && Different(files)
    && forall p :: Has(files, p) <==> p in counted && p in fs && fs[p].File?
  }

  function DirsOf(fs: Fs, paths: seq<Path>): seq<Path> {
    if paths == [] then []
    else
      var last := paths[|paths| - 1];
      DirsOf(fs, paths[..|paths| - 1]) + (if last in fs && fs[last].Dir? then [last] else [])
  }

  function FilesOf(fs: Fs, paths: seq<Path>): seq<Path> {
    if paths == [] then []
    else
      var last := paths[|paths| - 1];
      FilesOf(fs, paths[..|paths| - 1]) + (if last in fs && fs[last].File? then [last] else [])
  }

  function Names(paths: seq<Path>): (r: seq<string>)
    ensures |r| == |paths|
    ensures forall i | 0 <= i < |paths| :: r[i] == Joined(paths[i])
  {
    if paths == [] then [] else Names(paths[..|paths| - 1]) + [Joined(paths[|paths| - 1])]
  }

  lemma {:induction false} KindsOf(fs: Fs, paths: seq<Path>)
    requires Different(paths)
    ensures Different(DirsOf(fs, paths)) && Different(FilesOf(fs, paths))
    ensures forall p :: Has(DirsOf(fs, paths), p) <==> Has(paths, p) && p in fs && fs[p].Dir?
    ensures forall p :: Has(FilesOf(fs, paths), p) <==> Has(paths, p) && p in fs && fs[p].File?
    ensures |FilesOf(fs, paths)| <= |paths|
  {
    NoneHas();
    NoKinds(fs);
    hide Has, Different, DirsOf, FilesOf;
    if paths != [] {
      var front, last := paths[..|paths| - 1], paths[|paths| - 1];
      assert front + [last] == paths;
      Popped(paths);
      KindsOf(fs, front);
      KindPush(fs, front, last);
      HasPushed(front, last);
      HasPushed(DirsOf(fs, front), last);
      HasPushed(FilesOf(fs, front), last);
      NotInFront(paths);
    }
  }

  lemma KindPush(fs: Fs, paths: seq<Path>, p: Path)
    ensures DirsOf(fs, paths + [p]) == if p in fs && fs[p].Dir? then DirsOf(fs, paths) + [p] else DirsOf(fs, paths)
    ensures FilesOf(fs, paths + [p]) == if p in fs && fs[p].File? then FilesOf(fs, paths) + [p] else FilesOf(fs, paths)
  {
    assert (paths + [p])[..|paths|] == paths;
  }

  lemma NoneHas()
    ensures Different([]) && forall p :: !Has([], p)
  {
  }

  lemma NotInFront(paths: seq<Path>)
    requires paths != [] && Different(paths)
    ensures !Has(paths[..|paths| - 1], paths[|paths| - 1])
  {
  }

  lemma {:induction false} Together(a: seq<Path>, b: seq<Path>)
    requires Different(a) && Different(b) && forall p | Has(a, p) :: !Has(b, p)
    ensures Different(a + b)
    ensures forall p :: Has(a + b, p) <==> Has(a, p) || Has(b, p)
  {
    if b == [] {
      assert a + b == a;
    } else {
      var front, last := b[..|b| - 1], b[|b| - 1];
      assert front + [last] == b && a + front + [last] == a + b;
      Popped(b);
      HasPushed(front, last);
      NotInFront(b);
      Together(a, front);
      HasPushed(a + front, last);
      hide Has, Different;
    }
  }

  ghost function SetOf(paths: seq<Path>): set<Path> {
    set i | 0 <= i < |paths| :: paths[i]
  }

  lemma InSetOf(paths: seq<Path>, p: Path)
    ensures p in SetOf(paths) <==> Has(paths, p)
  {
  }

  lemma {:induction false} SetOfSize(paths: seq<Path>)
    requires Different(paths)
    ensures |SetOf(paths)| == |paths|
  {
    if paths != [] {
      var front, last := paths[..|paths| - 1], paths[|paths| - 1];
      assert front + [last] == paths;
      Popped(paths);
      SetOfSize(front);
      NotInFront(paths);
      InSetOf(front, last);
      assert SetOf(paths) == SetOf(front) + {last};
    } else {
      assert SetOf(paths) == {};
    }
  }

  // ---- The walk ----

  /** The loop over one directory's entries. */
  method ScanDir(fs: Fs, children: seq<Path>, total: nat, budget: nat, maxDepth: nat, maxPathChars: nat)
    returns (pushed: seq<Path>, ghost files: seq<Path>, names: seq<string>, ok: bool)
    requires forall i | 0 <= i < |children| :: children[i] in fs
    ensures ok <==>
              && total + |children| <= budget
              && forall i | 0 <= i < |children| :: Allowed(fs, children[i], maxDepth, maxPathChars)
    ensures ok ==> pushed == DirsOf(fs, children) && files == FilesOf(fs, children) && names == Names(files)
  {
    hide Split, Joined, AllSafe, DirsOf, FilesOf, Names, Allowed;
    NoKinds(fs);
    pushed, files, names := [], [], [];
    assert children[..0] == [];
    for k := 0 to |children|
      invariant pushed == DirsOf(fs, children[..k]) && files == FilesOf(fs, children[..k]) && names == Names(files)
      invariant total + k <= budget || k == 0
      invariant forall i | 0 <= i < k :: Allowed(fs, children[i], maxDepth, maxPathChars)
    {
      KindStep(fs, children, k);
      AllowedIs(fs, children[k], maxDepth, maxPathChars);
      if total + k + 1 > budget { return pushed, files, names, false; }
      var child := children[k];
      if fs[child].Irregular? { return pushed, files, names, false; }
      var name := Joined(child);
      var safe := SafeRelativeName(name);
      if safe.None? || |name| > maxPathChars { return pushed, files, names, false; }
      if |child| > maxDepth { return pushed, files, names, false; }
      if fs[child].Dir? {
        pushed := pushed + [child];
      } else {
        NamesPush(files, child);
        files := files + [child];
        names := names + [name];
      }
    }
    assert children[..|children|] == children;
    ok := total + |children| <= budget;
  }

  lemma NoKinds(fs: Fs)
    ensures DirsOf(fs, []) == [] && FilesOf(fs, []) == [] && Names([]) == []
  {
  }

  lemma KindStep(fs: Fs, paths: seq<Path>, k: nat)
    requires k < |paths| && paths[k] in fs
    ensures DirsOf(fs, paths[..k + 1]) == DirsOf(fs, paths[..k]) + (if fs[paths[k]].Dir? then [paths[k]] else [])
    ensures FilesOf(fs, paths[..k + 1]) == FilesOf(fs, paths[..k]) + (if fs[paths[k]].File? then [paths[k]] else [])
  {
    assert paths[..k + 1][..k] == paths[..k];
  }

  lemma AllowedIs(fs: Fs, p: Path, maxDepth: nat, maxPathChars: nat)
    ensures Allowed(fs, p, maxDepth, maxPathChars) <==>
            p in fs && !fs[p].Irregular? && AllSafe(Split(Joined(p))) && |Joined(p)| <= maxPathChars && |p| <= maxDepth
  {
    hide AllSafe, Split, Joined;
  }

  lemma NamesPush(paths: seq<Path>, p: Path)
    ensures Names(paths + [p]) == Names(paths) + [Joined(p)]
  {
    hide Joined;
    assert (paths + [p])[..|paths|] == paths;
  }

  ghost predicate ChildrenOf(fs: Fs, dir: Path, children: seq<Path>) {
    && Different(children)
    && forall q :: Has(children, q) <==> q in fs && q != [] && Parent(q) == dir
  }

  lemma ListedChildren(fs: Fs, listing: Listing, dir: Path)
    requires Lists(fs, listing) && dir in fs && fs[dir].Dir?
    ensures ChildrenOf(fs, dir, Below(dir, listing(dir)))
    ensures forall i | 0 <= i < |Below(dir, listing(dir))| ::
              Below(dir, listing(dir))[i] in fs && Below(dir, listing(dir))[i] != []
  {
    var children := Below(dir, listing(dir));
    hide Below, Different;
    forall i | 0 <= i < |children| ensures children[i] in fs && children[i] != [] {
      assert Has(children, children[i]);
    }
  }

  /** A directory's entries are counted once: when it is scanned, and it is scanned once. */
  lemma ChildrenAreNew(fs: Fs, scanned: set<Path>, counted: set<Path>, rest: seq<Path>, dir: Path, children: seq<Path>)
    requires Progressed(fs, scanned, counted, rest + [dir]) && ChildrenOf(fs, dir, children)
    ensures dir in fs && fs[dir].Dir? && dir !in scanned && !Has(rest, dir) && Different(rest)
    ensures forall p | Has(children, p) :: p !in counted && !Has(rest, p) && p != dir
    ensures counted !! SetOf(children) && SetOf(children) <= NonRoot(fs)
  {
    var stack := rest + [dir];
    assert stack[|rest|] == dir;
    assert forall i | 0 <= i < |rest| :: stack[i] == rest[i];
    forall p | p in SetOf(children) ensures p in NonRoot(fs) && p !in counted { InSetOf(children, p); }
  }

  lemma StepProgressed(fs: Fs, scanned: set<Path>, counted: set<Path>, rest: seq<Path>, dir: Path, children: seq<Path>)
    requires Progressed(fs, scanned, counted, rest + [dir]) && ChildrenOf(fs, dir, children)
    ensures Progressed(fs, scanned + {dir}, counted + SetOf(children), rest + DirsOf(fs, children))
  {
    ChildrenAreNew(fs, scanned, counted, rest, dir, children);
    KindsOf(fs, children);
    Together(rest, DirsOf(fs, children));
    RestInPlace(fs, scanned, counted, rest, dir);
    forall p ensures p in SetOf(children) <==> Has(children, p) { InSetOf(children, p); }
    var stack := rest + DirsOf(fs, children);
    forall i | 0 <= i < |stack|
      ensures stack[i] in fs && fs[stack[i]].Dir? && stack[i] !in scanned + {dir}
      ensures stack[i] == [] || stack[i] in counted + SetOf(children)
    {
      assert Has(stack, stack[i]);
      assert Has(rest, stack[i]) || Has(DirsOf(fs, children), stack[i]);
      if !Has(rest, stack[i]) { ChildNotScanned(fs, scanned, counted, rest + [dir], stack[i], dir); }
    }
    hide Has, Different, SetOf, DirsOf;
  }

  lemma ChildNotScanned(fs: Fs, scanned: set<Path>, counted: set<Path>, stack: seq<Path>, p: Path, dir: Path)
    requires Progressed(fs, scanned, counted, stack) && p in fs && p != [] && Parent(p) == dir && dir !in scanned
    ensures p !in scanned
  {
  }

  lemma RestInPlace(fs: Fs, scanned: set<Path>, counted: set<Path>, rest: seq<Path>, dir: Path)
    requires Progressed(fs, scanned, counted, rest + [dir])
    ensures forall p | Has(rest, p) :: p in fs && fs[p].Dir? && p !in scanned && (p == [] || p in counted)
    ensures forall p :: Has(rest + [dir], p) <==> Has(rest, p) || p == dir
  {
    var stack := rest + [dir];
    HasPushed(rest, dir);
    forall p | Has(rest, p) ensures p in fs && fs[p].Dir? && p !in scanned && (p == [] || p in counted) {
      var i :| 0 <= i < |rest| && rest[i] == p;
      assert stack[i] == p;
    }
  }

  lemma StepFound(fs: Fs, counted: set<Path>, files: seq<Path>, children: seq<Path>)
    requires Found(fs, counted, files) && Different(children)
    requires forall p | Has(children, p) :: p !in counted
    ensures Found(fs, counted + SetOf(children), files + FilesOf(fs, children))
  {
    KindsOf(fs, children);
    Together(files, FilesOf(fs, children));
    forall p ensures p in SetOf(children) <==> Has(children, p) { InSetOf(children, p); }
    hide Has, Different, SetOf, FilesOf;
  }

  lemma {:induction false} NamesTogether(a: seq<Path>, b: seq<Path>)
    ensures Names(a + b) == Names(a) + Names(b)
  {
    assert forall i | 0 <= i < |a + b| :: Names(a + b)[i] == (Names(a) + Names(b))[i];
  }

  lemma StartProgressed(fs: Fs)
    requires WellFormed(fs)
    ensures Progressed(fs, {}, {}, [[]]) && Found(fs, {}, []) && Names([]) == []
  {
    var start: seq<Path> := [[]];
    assert start[0] == [];
    NoneHas();
  }

  lemma TooMany(fs: Fs, counted: set<Path>, more: set<Path>, budget: nat)
    requires WellFormed(fs) && counted <= NonRoot(fs) && more <= NonRoot(fs) && counted !! more
    ensures |counted| + |more| <= |fs| - 1
  {
    assert |counted + more| == |counted| + |more|;
    SubsetSize(counted + more, NonRoot(fs));
    NonRootSize(fs);
  }

  lemma CountedBelow(fs: Fs, scanned: set<Path>, counted: set<Path>, stack: seq<Path>)
    requires Progressed(fs, scanned, counted, stack)
    ensures counted <= NonRoot(fs)
  {
  }

  /** `walk_bounded_tree`: it succeeds exactly on the trees within its limits, whatever order directories are listed in,
      and returns the names of all regular files, sorted. */
  method Walk(fs: Fs, listing: Listing, budget: nat, maxDepth: nat, maxPathChars: nat)
    returns (names: Option<seq<string>>, ghost files: seq<Path>)
    requires WellFormed(fs) && Lists(fs, listing)
    ensures names.Some? <==> Walkable(fs, budget, maxDepth, maxPathChars)
    ensures names.Some? <==>
              && |fs| - 1 <= budget
              && forall p | p in fs && p != [] ::
                   && fs[p] != Irregular && |p| <= maxDepth && |Joined(p)| <= maxPathChars
                   && AllFine(Split(Joined(p)))
    ensures names.Some? ==>
              && Ascending(names.value) && multiset(names.value) == multiset(Names(files))
              && Different(files) && forall p :: Has(files, p) <==> p in fs && fs[p].File?
  {
    hide Progressed, Found, Lists, WellFormed, Allowed, Names, DirsOf, FilesOf, SetOf, Has, Different, Sorted, Below,
         NonRoot, Ascending, AllFine, Split, Joined, Walkable;
    WalkableIs(fs, budget, maxDepth, maxPathChars);
    StartProgressed(fs);
    var stack: seq<Path>, total: nat, regular: seq<string> := [[]], 0, [];
    ghost var scanned: set<Path>, counted: set<Path> := {}, {};
    files := [];
    while stack != []
      invariant Progressed(fs, scanned, counted, stack) && Found(fs, counted, files)
      invariant regular == Names(files)
      invariant total == |counted| <= budget || (total == |counted| && counted == {})
      invariant forall p | p in counted :: Allowed(fs, p, maxDepth, maxPathChars)
      invariant scanned <= fs.Keys
      decreases |fs.Keys - scanned|
    {
      var rest, dir := stack[..|stack| - 1], stack[|stack| - 1];
      assert rest + [dir] == stack;
      TopIsDir(fs, scanned, counted, rest, dir);
      var children := Below(dir, listing(dir));
      ListedChildren(fs, listing, dir);
      ChildrenAreNew(fs, scanned, counted, rest, dir, children);
      CountedBelow(fs, scanned, counted, stack);
      TooMany(fs, counted, SetOf(children), budget);
      ChildrenSize(fs, dir, children);
      var pushed, found, foundNames, ok := ScanDir(fs, children, total, budget, maxDepth, maxPathChars);
      if !ok {
        RefusedTree(fs, children, total, budget, maxDepth, maxPathChars);
        return None, files;
      }
      AllChildren(fs, children, maxDepth, maxPathChars);
      StepProgressed(fs, scanned, counted, rest, dir, children);
      StepChildrenFound(fs, counted, files, dir, children);
      NamesTogether(files, found);
      stack := rest + pushed;
      total := total + |children|;
      regular := regular + foundNames;
      files := files + found;
      SmallerRest(fs, scanned, dir);
      counted := counted + SetOf(children);
      scanned := scanned + {dir};
    }
    WholeTree(fs, scanned, counted, files, budget, maxDepth, maxPathChars);
    SortedSorts(regular);
    return Some(Sorted(regular)), files;
  }

  lemma TopIsDir(fs: Fs, scanned: set<Path>, counted: set<Path>, rest: seq<Path>, dir: Path)
    requires Progressed(fs, scanned, counted, rest + [dir])
    ensures dir in fs && fs[dir].Dir? && dir !in scanned && scanned + {dir} <= fs.Keys
  {
    assert (rest + [dir])[|rest|] == dir;
  }

  lemma ChildrenSize(fs: Fs, dir: Path, children: seq<Path>)
    requires ChildrenOf(fs, dir, children)
    ensures |SetOf(children)| == |children|
  {
    SetOfSize(children);
  }

  lemma RefusedTree(fs: Fs, children: seq<Path>, total: nat, budget: nat, maxDepth: nat, maxPathChars: nat)
    requires forall i | 0 <= i < |children| :: children[i] in fs && children[i] != []
    requires total + |children| <= |fs| - 1
    requires total + |children| > budget
        || exists i | 0 <= i < |children| :: !Allowed(fs, children[i], maxDepth, maxPathChars)
    ensures !Walkable(fs, budget, maxDepth, maxPathChars)
  {
    hide Allowed;
  }

  lemma AllChildren(fs: Fs, children: seq<Path>, maxDepth: nat, maxPathChars: nat)
    requires forall i | 0 <= i < |children| :: Allowed(fs, children[i], maxDepth, maxPathChars)
    ensures forall p | p in SetOf(children) :: Allowed(fs, p, maxDepth, maxPathChars)
  {
    hide Allowed;
  }

  lemma StepChildrenFound(fs: Fs, counted: set<Path>, files: seq<Path>, dir: Path, children: seq<Path>)
    requires Found(fs, counted, files) && ChildrenOf(fs, dir, children)
    requires forall p | Has(children, p) :: p !in counted
    ensures Found(fs, counted + SetOf(children), files + FilesOf(fs, children))
  {
    hide Found, Has, Different, SetOf;
    StepFound(fs, counted, files, children);
  }

  lemma SmallerRest(fs: Fs, scanned: set<Path>, dir: Path)
    requires dir in fs && dir !in scanned
    ensures |fs.Keys - (scanned + {dir})| < |fs.Keys - scanned|
  {
    assert fs.Keys - scanned == (fs.Keys - (scanned + {dir})) + {dir};
  }

  lemma WholeTree(fs: Fs, scanned: set<Path>, counted: set<Path>, files: seq<Path>, budget: nat, maxDepth: nat,
                  maxPathChars: nat)
    requires WellFormed(fs) && Progressed(fs, scanned, counted, []) && Found(fs, counted, files)
    requires |counted| <= budget || counted == {}
    requires forall p | p in counted :: Allowed(fs, p, maxDepth, maxPathChars)
    ensures Walkable(fs, budget, maxDepth, maxPathChars)
    ensures Different(files) && forall p :: Has(files, p) <==> p in fs && fs[p].File?
  {
    hide Allowed;
    forall p | p in fs ensures p == [] || p in counted { EverythingCounted(fs, scanned, counted, p); }
    CountedBelow(fs, scanned, counted, []);
    assert counted == NonRoot(fs);
    NonRootSize(fs);
  }
}
