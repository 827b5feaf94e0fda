/** Extracting an archive's members under one directory, with every system call allowed to fail. */
module Extraction {
  import opened Options
  import opened Bytes
  import opened Members
  import opened Tree
  import opened Placing

  ghost predicate AnyRaises(fault: nat -> bool, n: nat) {
    exists t | 0 <= t < n :: fault(t)
  }

  /** `fault(t)` says whether the t-th system call, read or deadline test raises. */
  class Extractor {
    const limits: Limits
    const fault: nat -> bool
    var fs: Fs
    var files: seq<Path>
    var dirs: seq<Path>
    var handles: set<Path>
    var tick: nat
    ghost var base: Fs

    constructor (fs: Fs, limits: Limits, fault: nat -> bool)
      requires WellFormed(fs) && limits.chunkSize >= 1
      ensures Valid() && this.fs == fs == base && this.limits == limits && this.fault == fault
      ensures tick == 0 && files == [] && dirs == []
    {
      this.fs, this.base, this.limits, this.fault := fs, fs, limits, fault;
      files, dirs, handles, tick := [], [], {[]}, 0;
      new;
      MadeNothing(fs);
    }

    /** What is open is a directory, and every parent that undoing needs is open. */
    ghost predicate Valid()
      reads this
    {
      && limits.chunkSize >= 1
      && Made(base, fs, files, dirs)
      && Open(fs, handles)
      && ParentsOpen(files, handles) && ParentsOpen(dirs, handles)
    }

    /** A call made so far has raised. */
    ghost predicate Faulted()
      reads `tick
    {
      AnyRaises(fault, tick)
    }

    method Call() returns (failed: bool)
      modifies `tick
      ensures tick == old(tick) + 1 && failed == fault(old(tick))
      ensures Faulted() == (old(Faulted()) || failed)
    {
      failed := fault(tick);
      tick := tick + 1;
    }

    /** `_ensure_extract_dir` */
    method EnsureDir(parts: Path) returns (ok: bool)
      requires Valid()
      modifies `fs, `dirs, `handles, `tick
      decreases |parts|
      ensures Valid() && (old(Faulted()) ==> Faulted())
      ensures ok ==> parts in handles && WithDirs(old(fs), parts) == Some(fs)
      ensures !ok ==> Faulted() || WithDirs(old(fs), parts).None?
    {
      hide AnyRaises, Made, Open, ParentsOpen, WithDirs;
      if parts in handles {
        OpenIsDir(base, fs, files, dirs, handles, parts);
        return true;
      }
      RootOpen(fs, handles);
      DirsStep(fs, parts);
      ok := EnsureDir(Parent(parts));
      if !ok { return; }
      OpenIsDir(base, fs, files, dirs, handles, Parent(parts));
      var failed := Call();
      if failed { return false; }
      if parts !in fs {
        failed := Call();
        if failed { return false; }
        MadeDir(base, fs, files, dirs, parts);
        StillOpen(fs, handles, parts, Dir);
        ParentsOpenPush(dirs, handles, parts);
        fs := fs[parts := Dir];
        dirs := dirs + [parts];
      } else if !fs[parts].Dir? {
        return false;
      }
      failed := Call();
      if failed { return false; }
      OpenOneMore(fs, handles, parts);
      ParentsOpenMore(files, handles, parts);
      ParentsOpenMore(dirs, handles, parts);
      handles := handles + {parts};
      return true;
    }

    /** Copy the member's bytes into the file just created, in bounded chunks. */
    method Fill(parts: Path, content: seq<Byte>, total: nat) returns (ok: bool)
      requires Valid() && Has(files, parts) && parts in fs && fs[parts] == File([]) && total <= limits.maxTotalBytes
      modifies `fs, `tick
      ensures Valid() && (old(Faulted()) ==> Faulted())
      ensures ok ==> fs == old(fs)[parts := File(content)]
      ensures ok ==> |content| <= limits.maxMemberBytes && total + |content| <= limits.maxTotalBytes
      ensures !ok ==> Faulted() || |content| > limits.maxMemberBytes || total + |content| > limits.maxTotalBytes
    {
      hide AnyRaises, Made, Open, ParentsOpen, Has;
      var copied := 0;
      assert fs == fs[parts := File(content[..0])];
      while true
        invariant copied <= |content| && Valid() && (old(Faulted()) ==> Faulted())
        invariant fs == old(fs)[parts := File(content[..copied])]
        invariant copied == 0 || (copied <= limits.maxMemberBytes && total + copied <= limits.maxTotalBytes)
        decreases |content| - copied
      {
        var failed := Call();
        if failed { return false; }
        var size := if |content| - copied < limits.chunkSize then |content| - copied else limits.chunkSize;
        if size == 0 { break; }
        copied := copied + size;
        if copied > limits.maxMemberBytes { return false; }
        if total + copied > limits.maxTotalBytes { return false; }
        failed := Call();
        MadeRewritten(base, fs, files, dirs, parts, content[..copied]);
        StillOpenRewritten(fs, handles, parts, File(content[..copied]));
        fs := fs[parts := File(content[..copied])];
        if failed { return false; }
      }
      assert content[..copied] == content;
      var failed := Call();
      return !failed;
    }

    /** Create one regular member. */
    method AddFile(parts: Path, m: Member, total: nat) returns (ok: bool)
      requires Valid() && parts != [] && total <= limits.maxTotalBytes && 0 <= m.size <= limits.maxMemberBytes
      modifies `fs, `files, `dirs, `handles, `tick
      ensures Valid() && (old(Faulted()) ==> Faulted())
      ensures ok ==> |m.content| == m.size && total + |m.content| <= limits.maxTotalBytes
                     && WithFile(old(fs), parts, m.content) == Some(fs)
      ensures !ok ==> Faulted() || |m.content| != m.size || total + |m.content| > limits.maxTotalBytes
                      || WithFile(old(fs), parts, m.content).None?
    {
      hide AnyRaises, Made, Open, ParentsOpen, WithDirs, Has;
      ok := EnsureDir(Parent(parts));
      if !ok { return; }
      ghost var made := fs;
      OpenIsDir(base, fs, files, dirs, handles, Parent(parts));
      var failed := Call();
      if failed { return false; }
      if parts in fs { return false; }
      MadeFile(base, fs, files, dirs, parts, []);
      HasPushed(files, parts);
      StillOpen(fs, handles, parts, File([]));
      ParentsOpenPush(files, handles, parts);
      fs := fs[parts := File([])];
      files := files + [parts];
      ok := Fill(parts, m.content, total);
      if !ok { return; }
      assert fs == made[parts := File(m.content)];
      if |m.content| != m.size { return false; }
    }

    /** The tests a member's header must pass, in the source's order. */
    method Admit(m: Member, seen: set<Path>) returns (parts: Option<Path>)
      ensures parts == if Admitted(seen, m, limits) then Some(Split(m.name)) else None
    {
      if m.kind.Link? { return None; }
      if !(m.kind.Regular? || m.kind.Directory?) { return None; }
      hide Split, SafeSegment;
      var relative := SafeRelativeName(m.name);
      if relative.None? { return None; }
      if |m.name| > limits.maxPathChars { return None; }
      if |relative.value| > limits.maxDepth { return None; }
      if relative.value in seen { return None; }
      if relative.value[0] != "blobs" && relative.value[0] !in EXPECTED_LAYOUT_MEMBERS { return None; }
      if m.kind.Regular? && (m.size < 0 || m.size > limits.maxMemberBytes) { return None; }
      return relative;
    }

    /** One turn of the loop over the members. */
    method AddMember(m: Member, seen: set<Path>, total: nat, count: nat)
      returns (ok: bool, seen': set<Path>, total': nat, count': nat)
      requires Valid() && total <= limits.maxTotalBytes
      modifies `fs, `files, `dirs, `handles, `tick
      ensures Valid() && (old(Faulted()) ==> Faulted())
      ensures ok ==>
                Place(Progress(old(fs), seen, total, count), m, limits) == Some(Progress(fs, seen', total', count'))
      ensures ok ==> total' <= limits.maxTotalBytes
      ensures !ok ==> Faulted() || Place(Progress(old(fs), seen, total, count), m, limits).None?
    {
      hide AnyRaises, Made, Open, ParentsOpen, WithDirs, WithFile, Split, Place, Admitted;
      PlaceIs(Progress(fs, seen, total, count), m, limits);
      ok, seen', total', count' := false, seen, total, count;
      var failed := Call();
      if failed { return; }
      var parts := Admit(m, seen);
      if parts.None? { return; }
      seen' := seen + {parts.value};
      if m.kind.Directory? {
        ok := EnsureDir(parts.value);
        return;
      }
      ok := AddFile(parts.value, m, total);
      if !ok { return; }
      total' := total + |m.content|;
      count' := count + 1;
    }

    /** The `except` branch: files first, then the directories from the last created to the first. */
    method Undo()
      requires Valid()
      modifies `fs
      ensures fs == base
    {
      hide AnyRaises, Made, Open, ParentsOpen, Different;
      assert files[..|files|] == files && dirs[..|dirs|] == dirs;
      for i := |files| downto 0
        invariant Made(base, fs, files[..i], dirs)
      {
        Unlinked(base, fs, files[..i + 1], dirs);
        assert files[..i + 1][..i] == files[..i];
        HandleOf(files, handles, i);
        fs := fs - {files[i]};
      }
      assert files[..0] == [];
      for i := |dirs| downto 0
        invariant Made(base, fs, [], dirs[..i])
      {
        RemovedDir(base, fs, dirs[..i + 1]);
        assert dirs[..i + 1][..i] == dirs[..i];
        HandleOf(dirs, handles, i);
        fs := fs - {dirs[i]};
      }
      assert dirs[..0] == [];
      AllTakenBack(base, fs);
    }

    /** `_extract_members`: everything, or nothing at all. */
    method Extract(members: seq<Member>) returns (extracted: Option<nat>)
      requires Valid() && fs == base && files == [] && dirs == [] && !Faulted()
      modifies `fs, `files, `dirs, `handles, `tick
      ensures extracted.None? ==> fs == old(fs)
      ensures extracted.Some? ==>
                && Extracted(old(fs), members, limits).Some?
                && fs == Extracted(old(fs), members, limits).value.fs
                && extracted.value == Extracted(old(fs), members, limits).value.extracted
      ensures !Faulted() ==> (extracted.Some? <==> Extracted(old(fs), members, limits).Some?)
      ensures (forall t: nat :: !fault(t)) ==> (extracted.Some? <==> Extractable(old(fs), members, limits))
      ensures extracted.Some? ==>
                && Extractable(old(fs), members, limits)
                && Left(old(fs), members, fs) && extracted.value == Regulars(members)
    {
      ghost var start := Progress(fs, {}, 0, 0);
      assert PlaceAll(start, members[..0], limits) == Some(start);
      hide AnyRaises, Made, Open, ParentsOpen, Place, PlaceAll, WithDirs, WithFile, Extractable, Left, Regulars;
      ExtractedIs(fs, members, limits);
      var seen: set<Path>, total: nat, count: nat := {}, 0, 0;
      for k := 0 to |members|
        invariant Valid() && total <= limits.maxTotalBytes && k <= limits.maxMembers
        invariant PlaceAll(start, members[..k], limits) == Some(Progress(fs, seen, total, count))
      {
        PlaceStep(start, members, limits, k);
        if k + 1 > limits.maxMembers {
          Undo();
          return None;
        }
        var ok;
        ok, seen, total, count := AddMember(members[k], seen, total, count);
        if !ok {
          if !Faulted() { RefusedStaysRefused(start, members, limits, k + 1); }
          Undo();
          return None;
        }
      }
      assert members[..|members|] == members;
      var failed := Call();
      if failed {
        Undo();
        return None;
      }
      return Some(count);
    }
  }

  /** Undoing always finds the handle of the directory it needs. */
  lemma HandleOf(paths: seq<Path>, handles: set<Path>, i: nat)
    requires ParentsOpen(paths, handles) && i < |paths|
    ensures paths[i] != [] && Parent(paths[i]) in handles
  {
  }

  // ---- Handles ----

  ghost predicate Open(fs: Fs, handles: set<Path>) {
    [] in handles && forall p | p in handles :: p in fs && fs[p].Dir?
  }

  ghost predicate ParentsOpen(paths: seq<Path>, handles: set<Path>) {
    forall i | 0 <= i < |paths| :: paths[i] != [] && Parent(paths[i]) in handles
  }

  lemma RootOpen(fs: Fs, handles: set<Path>)
    requires Open(fs, handles)
    ensures [] in handles
  {
  }

  lemma OpenIsDir(base: Fs, fs: Fs, files: seq<Path>, dirs: seq<Path>, handles: set<Path>, p: Path)
    requires Made(base, fs, files, dirs) && Open(fs, handles) && p in handles
    ensures p in fs && fs[p].Dir? && WithDirs(fs, p) == Some(fs)
  {
    DirsAlready(fs, p);
  }

  lemma DirsStep(fs: Fs, p: Path)
    requires p != []
    ensures WithDirs(fs, p) ==
            match WithDirs(fs, Parent(p))
            case None => None
            case Some(g) => if p !in g then Some(g[p := Dir]) else if g[p].Dir? then Some(g) else None
  {
  }

  lemma StillOpen(fs: Fs, handles: set<Path>, p: Path, node: Node)
    requires Open(fs, handles) && p !in fs
    ensures Open(fs[p := node], handles)
  {
  }

  lemma StillOpenRewritten(fs: Fs, handles: set<Path>, p: Path, node: Node)
    requires Open(fs, handles) && p in fs && fs[p].File?
    ensures Open(fs[p := node], handles)
  {
  }

  lemma OpenOneMore(fs: Fs, handles: set<Path>, p: Path)
    requires Open(fs, handles) && p in fs && fs[p].Dir?
    ensures Open(fs, handles + {p})
  {
  }

  lemma ParentsOpenPush(paths: seq<Path>, handles: set<Path>, p: Path)
    requires ParentsOpen(paths, handles) && p != [] && Parent(p) in handles
    ensures ParentsOpen(paths + [p], handles)
  {
  }

  lemma ParentsOpenMore(paths: seq<Path>, handles: set<Path>, p: Path)
    requires ParentsOpen(paths, handles)
    ensures ParentsOpen(paths, handles + {p})
  {
  }
}
