/** Publishing capability drafts: files on disk and rows in the database, with every step able to fail. */
module Authoring {
  import opened Options
  import opened Bytes
  import opened Manifests

  // ---- Files and rows ----

  /** `zana.yaml` as read back: a mapping, or something that does not parse to one. */
  datatype ManifestFile = Parsed(manifest: Manifest) | Unreadable

  /** What a workspace publishes; hidden temporary files are not part of it. */
  datatype Workspace = Workspace(manifest: Option<ManifestFile>, files: map<string, seq<Byte>>)

  type Disk = map<int, Workspace>

  datatype Row = Row(path: string, hash: int)

  datatype Capability = Capability(name: string, version: string, manifest: Manifest, rows: seq<Row>)

  type Rows = map<int, Capability>

  const NOTHING := Workspace(None, map[])

  /** A missing workspace publishes nothing. */
  function At(disk: Disk, id: int): Workspace {
    if id in disk then disk[id] else NOTHING
  }

  /** The two disks publish the same. */
  ghost predicate SameFiles(a: Disk, b: Disk) {
    forall id :: At(a, id) == At(b, id)
  }

  ghost predicate OthersSame(a: Disk, b: Disk, id: int) {
    forall other | other != id :: At(a, other) == At(b, other)
  }

  ghost predicate OnePerPath(rows: seq<Row>) {
    forall i, j | 0 <= i < j < |rows| :: rows[i].path != rows[j].path
  }

  /** Every row has its file, with the recorded hash. */
  ghost predicate Recorded(rows: seq<Row>, files: map<string, seq<Byte>>, hash: seq<Byte> -> int) {
    forall i | 0 <= i < |rows| :: rows[i].path in files && hash(files[rows[i].path]) == rows[i].hash
  }

  /** The database and the workspace of one capability agree. */
  ghost predicate Coherent(c: Capability, w: Workspace, hash: seq<Byte> -> int) {
    && (c.manifest != map[] ==> w.manifest == Some(Parsed(c.manifest)))
    && OnePerPath(c.rows)
    && Recorded(c.rows, w.files, hash)
  }

  /** `delete_for_capability_and_path` */
  function Without(rows: seq<Row>, path: string): seq<Row> {
    if rows == [] then []
    else Without(rows[..|rows| - 1], path) + (if rows[|rows| - 1].path == path then [] else [rows[|rows| - 1]])
  }

  lemma {:induction false} WithoutHas(rows: seq<Row>, path: string, r: Row)
    ensures r in Without(rows, path) <==> r in rows && r.path != path
  {
    if rows != [] {
      var front, last := rows[..|rows| - 1], rows[|rows| - 1];
      assert rows == front + [last];
      WithoutHas(front, path, r);
    }
  }

  /** Just the rows of the path are deleted, and one row a path stays one row a path. */
  lemma {:induction false} WithoutPath(rows: seq<Row>, path: string)
    requires OnePerPath(rows)
    ensures OnePerPath(Without(rows, path))
    ensures forall i | 0 <= i < |Without(rows, path)| ::
              Without(rows, path)[i] in rows && Without(rows, path)[i].path != path
    ensures forall r | r in rows && r.path != path :: r in Without(rows, path)
  {
    forall r: Row ensures r in Without(rows, path) <==> r in rows && r.path != path { WithoutHas(rows, path, r); }
    if rows != [] {
      var front, last := rows[..|rows| - 1], rows[|rows| - 1];
      WithoutPath(front, path);
      WithoutLast(rows, path);
      hide Without;
      NewRow(Without(front, path), front, last);
    }
  }

  lemma WithoutLast(rows: seq<Row>, path: string)
    requires rows != []
    ensures var front, last := rows[..|rows| - 1], rows[|rows| - 1];
            Without(rows, path) == if last.path == path then Without(front, path) else Without(front, path) + [last]
  {
  }

  lemma NewRow(kept: seq<Row>, front: seq<Row>, last: Row)
    requires OnePerPath(kept) && OnePerPath(front + [last]) && forall i | 0 <= i < |kept| :: kept[i] in front
    ensures OnePerPath(kept + [last])
  {
    forall i | 0 <= i < |kept| ensures kept[i].path != last.path {
      var k :| 0 <= k < |front| && front[k] == kept[i];
      assert (front + [last])[k] == kept[i] && (front + [last])[|front|] == last;
    }
  }

  /** The other rows are kept, each as often as before, and the source's own row is the last one. */
  ghost predicate RowReplaced(rows: seq<Row>, after: seq<Row>, own: Row) {
    && after != [] && after[|after| - 1] == own
    && forall r: Row :: multiset(after[..|after| - 1])[r] == if r.path == own.path then 0 else multiset(rows)[r]
  }

  lemma {:induction false} WithoutCounts(rows: seq<Row>, path: string, r: Row)
    ensures multiset(Without(rows, path))[r] == if r.path == path then 0 else multiset(rows)[r]
  {
    if rows != [] {
      var front, last := rows[..|rows| - 1], rows[|rows| - 1];
      assert rows == front + [last];
      WithoutCounts(front, path, r);
      WithoutLast(rows, path);
    }
  }

  lemma WithoutReplaces(rows: seq<Row>, own: Row)
    ensures RowReplaced(rows, Without(rows, own.path) + [own], own)
  {
    forall r: Row
      ensures multiset(Without(rows, own.path))[r] == if r.path == own.path then 0 else multiset(rows)[r]
    {
      WithoutCounts(rows, own.path, r);
    }
    assert (Without(rows, own.path) + [own])[..|Without(rows, own.path)|] == Without(rows, own.path);
  }

  lemma {:induction false} OnceEach(rows: seq<Row>, r: Row)
    requires OnePerPath(rows)
    ensures multiset(rows)[r] <= 1
  {
    if rows != [] {
      var front, last := rows[..|rows| - 1], rows[|rows| - 1];
      assert rows == front + [last];
      OnceEach(front, r);
      forall k | 0 <= k < |front| ensures front[k] != last {
        assert rows[k].path != rows[|front|].path;
      }
    }
  }

  lemma TwiceIn(rows: seq<Row>, i: nat, j: nat)
    requires i < j < |rows| && rows[i] == rows[j]
    ensures multiset(rows)[rows[i]] >= 2
  {
    assert rows == rows[..j] + rows[j..];
    assert rows[i] == rows[..j][i] && rows[j] == rows[j..][0];
    assert multiset(rows) == multiset(rows[..j]) + multiset(rows[j..]);
  }

  lemma FewerOnePerPath(rows: seq<Row>, kept: seq<Row>)
    requires OnePerPath(rows) && forall r: Row :: multiset(kept)[r] <= multiset(rows)[r]
    ensures OnePerPath(kept)
  {
    forall i, j | 0 <= i < j < |kept| ensures kept[i].path != kept[j].path {
      assert kept[i] in multiset(kept) && kept[j] in multiset(kept);
      assert kept[i] in rows && kept[j] in rows;
      if kept[i] == kept[j] {
        TwiceIn(kept, i, j);
        OnceEach(rows, kept[i]);
      }
    }
  }

  lemma KeptRows(rows: seq<Row>, after: seq<Row>, own: Row, r: Row)
    requires RowReplaced(rows, after, own) && r in after[..|after| - 1]
    ensures r.path != own.path && r in rows
  {
    assert r in multiset(after[..|after| - 1]);
    assert r in multiset(rows);
  }

  lemma ReplacedOnePerPath(rows: seq<Row>, after: seq<Row>, own: Row)
    requires OnePerPath(rows) && RowReplaced(rows, after, own)
    ensures OnePerPath(after)
  {
    var kept := after[..|after| - 1];
    FewerOnePerPath(rows, kept);
    forall i, j | 0 <= i < j < |after| ensures after[i].path != after[j].path {
      assert after[i] == kept[i];
      KeptRows(rows, after, own, after[i]);
      assert j < |kept| ==> after[j] == kept[j];
    }
  }

  /** Replacing a file together with its row keeps both sides in agreement. */
  lemma ReplacedCoherent(c: Capability, w: Workspace, path: string, content: seq<Byte>, d: Capability, v: Workspace,
                         hash: seq<Byte> -> int)
    requires Coherent(c, w, hash) && v == Workspace(Some(Parsed(d.manifest)), w.files[path := content])
    requires RowReplaced(c.rows, d.rows, Row(path, hash(content)))
    ensures Coherent(d, v, hash)
  {
    var own := Row(path, hash(content));
    ReplacedOnePerPath(c.rows, d.rows, own);
    forall i | 0 <= i < |d.rows|
      ensures d.rows[i].path in v.files && hash(v.files[d.rows[i].path]) == d.rows[i].hash
    {
      if i < |d.rows| - 1 {
        KeptRows(c.rows, d.rows, own, d.rows[..|d.rows| - 1][i]);
        hide RowReplaced, OnePerPath;
        var k :| 0 <= k < |c.rows| && c.rows[k] == d.rows[i];
      }
    }
  }

  // ---- The requests and what comes of them ----

  datatype Result = Done | Failed | Unconfirmed

  datatype Request =
    | Create(name: string, version: string, initial: Manifest)
    | Update(id: int, rename: Option<string>, revise: Option<string>, manifest: Option<Manifest>)
    | AddSource(id: int, kind: Kind, content: seq<Byte>)

  /** What the service runs with; `fault(t)` says whether its t-th call of the system, the serializer or the database
      raises. */
  datatype Setting = Setting(
    hash: seq<Byte> -> int,
    fault: nat -> bool,
    defaultManifest: (string, string, int) -> Manifest)

  datatype World = World(disk: Disk, db: Rows, nextId: nat, tick: nat)

  /** How many of the first `n` calls raise. */
  function Count(fault: nat -> bool, n: nat): nat {
    if n == 0 then 0 else Count(fault, n - 1) + (if fault(n - 1) then 1 else 0)
  }

  /** How many calls between the two worlds raised. */
  function Raised(e: Setting, s: World, t: World): int {
    Count(e.fault, t.tick) - Count(e.fault, s.tick)
  }

  /** Two calls between the two worlds raised, and they are different ones. */
  lemma {:induction false} TwoRaised(fault: nat -> bool, m: nat, n: nat)
    requires m <= n
    ensures Count(fault, m) <= Count(fault, n)
    ensures Count(fault, n) >= Count(fault, m) + 1 <==> exists a | m <= a < n :: fault(a)
    ensures Count(fault, n) >= Count(fault, m) + 2 <==> exists a, b | m <= a < b < n :: fault(a) && fault(b)
    decreases n
  {
    if m < n {
      TwoRaised(fault, m, n - 1);
    }
  }

  // ---- What a request comes to ----

  /** `load_manifest_dict`, when no call raises. */
  function Read(w: Workspace): Option<Manifest> {
    if w.manifest.Some? && w.manifest.value.Parsed? then Some(w.manifest.value.manifest) else None
  }

  /** The manifest after adding a source; none when the one on disk has diverged or a section has the wrong shape. */
  function Prepared(e: Setting, c: Capability, w: Workspace, id: int, kind: Kind): Option<Manifest> {
    if c.manifest != map[] && Read(w) != Some(c.manifest) then None
    else if c.manifest != map[] then Declared(c.manifest, kind)
    else if Read(w).Some? then Declared(Read(w).value, kind)
    else Declared(e.defaultManifest(c.name, c.version, id), kind)
  }

  /** A manifest a source can be declared in: the stored one if the workspace has it too; without a stored one the
      workspace's, or the default when that cannot be read. */
  ghost predicate Current(e: Setting, c: Capability, w: Workspace, id: int, base: Manifest, quiet: bool) {
    if c.manifest != map[] then base == c.manifest && w.manifest == Some(Parsed(base))
    else
      || w.manifest == Some(Parsed(base))
      || (base == e.defaultManifest(c.name, c.version, id)
          && (quiet ==> w.manifest.None? || w.manifest == Some(Unreadable)))
  }

  /** The source is accepted when no call raises: the two manifests agree and no section has the wrong shape. */
  ghost predicate Acceptable(e: Setting, c: Capability, w: Workspace, id: int, kind: Kind) {
    exists base :: Current(e, c, w, id, base, true) && !Misshapen(base, kind)
  }

  lemma PreparedIs(e: Setting, c: Capability, w: Workspace, id: int, kind: Kind)
    ensures Prepared(e, c, w, id, kind).Some? <==> Acceptable(e, c, w, id, kind)
  {
    hide Declared, Misshapen;
    forall base ensures Declared(base, kind).None? <==> Misshapen(base, kind) { DeclaredIs(base, kind); }
    if Prepared(e, c, w, id, kind).Some? {
      var base := if c.manifest != map[] then c.manifest
                  else if Read(w).Some? then Read(w).value
                  else e.defaultManifest(c.name, c.version, id);
      assert Current(e, c, w, id, base, true);
    }
  }

  /** The capability a request is about. */
  function Target(s: World, r: Request): int {
    if r.Create? then s.nextId else r.id
  }

  /** The requests that succeed when no call raises. */
  ghost predicate Admissible(e: Setting, s: World, r: Request) {
    match r
    case Create(_, _, _) => s.nextId !in s.disk
    case Update(id, _, _, _) => id in s.db
    case AddSource(id, kind, _) => id in s.db && Acceptable(e, s.db[id], At(s.disk, id), id, kind)
  }

  /** An update changes what it is given and nothing else; an empty manifest takes the file away. */
  ghost predicate Revised(c: Capability, w: Workspace, rename: Option<string>, revise: Option<string>,
                          manifest: Option<Manifest>, d: Capability, v: Workspace) {
    && (rename.Some? ==> d.name == rename.value) && (rename.None? ==> d.name == c.name)
    && (revise.Some? ==> d.version == revise.value) && (revise.None? ==> d.version == c.version)
    && (manifest.Some? ==> d.manifest == manifest.value) && (manifest.None? ==> d.manifest == c.manifest)
    && d.rows == c.rows && v.files == w.files
    && (manifest.None? ==> v.manifest == w.manifest)
    && (manifest.Some? && manifest.value != map[] ==> v.manifest == Some(Parsed(manifest.value)))
    && (manifest == Some(map[]) ==> v.manifest == None)
  }

  /** A new capability has the manifest asked for, or the default when that is empty, and no sources. */
  ghost predicate Drafted(e: Setting, id: int, name: string, version: string, initial: Manifest, d: Capability,
                          v: Workspace) {
    && d.name == name && d.version == version && d.rows == []
    && (initial != map[] ==> d.manifest == initial)
    && (initial == map[] ==> d.manifest == e.defaultManifest(name, version, id))
    && v.manifest == Some(Parsed(d.manifest)) && v.files == map[]
  }

  /** A source is published with its row, and its section is declared in the manifest. */
  ghost predicate Added(e: Setting, id: int, c: Capability, w: Workspace, kind: Kind, content: seq<Byte>, quiet: bool,
                        d: Capability, v: Workspace) {
    && d.name == c.name && d.version == c.version
    && (exists base :: Current(e, c, w, id, base, quiet) && Grown(base, d.manifest, kind))
    && v.manifest == Some(Parsed(d.manifest))
    && exists path :: Place(kind, path)
         && v.files == w.files[path := content] && RowReplaced(c.rows, d.rows, Row(path, e.hash(content)))
  }

  /** What a request that succeeds has done. */
  ghost predicate Effect(e: Setting, s: World, r: Request, t: World) {
    var id := Target(s, r);
    && id in t.db && t.db == s.db[id := t.db[id]]
    && match r
       case Create(name, version, initial) =>
         && id !in s.db && t.nextId == s.nextId + 1
         && Drafted(e, id, name, version, initial, t.db[id], At(t.disk, id))
       case Update(_, rename, revise, manifest) =>
         && id in s.db && t.nextId == s.nextId
         && Revised(s.db[id], At(s.disk, id), rename, revise, manifest, t.db[id], At(t.disk, id))
       case AddSource(_, kind, content) =>
         && id in s.db && t.nextId == s.nextId
         && Added(e, id, s.db[id], At(s.disk, id), kind, content, Raised(e, s, t) == 0, t.db[id], At(t.disk, id))
  }

  /** How many calls must raise before a rollback can be unconfirmed: one to fail the request, if it is not refused
      anyway, and one to fail the rollback. A request that is refused rolls back only the workspace it created. */
  ghost function Tears(e: Setting, s: World, r: Request): nat {
    if r.AddSource? && r.id !in s.disk && !Admissible(e, s, r) then 1 else 2
  }

  /** One request: done, failed without a trace, or torn because the rollback failed too. */
  ghost predicate Outcome(e: Setting, s: World, r: Request, result: Result, t: World) {
    && s.tick <= t.tick && Raised(e, s, t) >= 0
    && OthersSame(s.disk, t.disk, Target(s, r))
    && (result.Done? ==> Effect(e, s, r, t))
    && (!result.Done? ==> t.db == s.db && t.nextId == s.nextId)
    && (result.Failed? ==> SameFiles(s.disk, t.disk))
    && (result.Unconfirmed? ==> Raised(e, s, t) >= Tears(e, s, r))
    && (Raised(e, s, t) == 0 ==> (result.Done? <==> Admissible(e, s, r)))
  }

  // ---- Agreement over runs ----

  /** Every capability agrees with its workspace, but for these. */
  ghost predicate Agrees(e: Setting, s: World, torn: set<int>) {
    forall id | id in s.db && id !in torn :: Coherent(s.db[id], At(s.disk, id), e.hash)
  }

  /** The capabilities whose rollback was reported unconfirmed. */
  function Torn(results: seq<Result>, ids: seq<int>): set<int>
    requires |results| == |ids|
  {
    if ids == [] then {}
    else
      var n := |ids| - 1;
      Torn(results[..n], ids[..n]) + (if results[n].Unconfirmed? then {ids[n]} else {})
  }

  function Unconfirmeds(results: seq<Result>): nat {
    if results == [] then 0
    else Unconfirmeds(results[..|results| - 1]) + (if results[|results| - 1].Unconfirmed? then 1 else 0)
  }

  lemma OutcomeAgrees(e: Setting, s: World, r: Request, result: Result, t: World, torn: set<int>)
    requires Outcome(e, s, r, result, t) && Agrees(e, s, torn)
    ensures Agrees(e, t, if result.Unconfirmed? then torn + {Target(s, r)} else torn)
  {
    hide Coherent, Admissible, Raised, Drafted, Revised, Added;
    var id := Target(s, r);
    if result.Done? {
      match r {
        case Create(name, version, initial) => NewCoherent(e, id, name, version, initial, t.db[id], At(t.disk, id));
        case Update(_, rename, revise, manifest) =>
          if id !in torn {
            RevisedCoherent(s.db[id], At(s.disk, id), rename, revise, manifest, t.db[id], At(t.disk, id), e.hash);
          }
        case AddSource(_, kind, content) =>
          if id !in torn {
            AddedCoherent(e, id, s.db[id], At(s.disk, id), kind, content, Raised(e, s, t) == 0, t.db[id],
                          At(t.disk, id));
          }
      }
    }
  }

  /** A run of the service: each world comes from the one before by one request. */
  ghost predicate Run(e: Setting, worlds: seq<World>, requests: seq<Request>, results: seq<Result>, ids: seq<int>) {
    && |worlds| == |requests| + 1 && |results| == |ids| == |requests|
    && forall k | 0 <= k < |requests| ::
         Outcome(e, worlds[k], requests[k], results[k], worlds[k + 1]) && ids[k] == Target(worlds[k], requests[k])
  }

  lemma RunLengths(e: Setting, worlds: seq<World>, requests: seq<Request>, results: seq<Result>, ids: seq<int>)
    requires Run(e, worlds, requests, results, ids)
    ensures |worlds| == |requests| + 1 && |results| == |ids| == |requests|
  {
    hide Outcome;
  }

  lemma RunFront(e: Setting, worlds: seq<World>, requests: seq<Request>, results: seq<Result>, ids: seq<int>)
    requires Run(e, worlds, requests, results, ids) && requests != []
    ensures var n := |requests| - 1;
            && Run(e, worlds[..n + 1], requests[..n], results[..n], ids[..n])
            && Outcome(e, worlds[n], requests[n], results[n], worlds[n + 1]) && ids[n] == Target(worlds[n], requests[n])
  {
    hide Outcome;
  }

  /** After any run every capability whose rollback was not reported unconfirmed agrees with its workspace, and no more
      rollbacks were than calls raised. */
  lemma {:induction false} RunAgrees(e: Setting, worlds: seq<World>, requests: seq<Request>, results: seq<Result>,
                                     ids: seq<int>)
    requires Run(e, worlds, requests, results, ids) && Agrees(e, worlds[0], {})
    ensures Agrees(e, worlds[|requests|], Torn(results, ids))
    ensures Unconfirmeds(results) <= Raised(e, worlds[0], worlds[|requests|])
    decreases |requests|
  {
    hide Outcome, Agrees, Run, Raised;
    RunLengths(e, worlds, requests, results, ids);
    if requests == [] {
      assert Torn(results, ids) == {};
      NoneRaised(e, worlds[0]);
    } else {
      var n := |requests| - 1;
      RunFront(e, worlds, requests, results, ids);
      RunAgrees(e, worlds[..n + 1], requests[..n], results[..n], ids[..n]);
      OutcomeAgrees(e, worlds[n], requests[n], results[n], worlds[n + 1], Torn(results[..n], ids[..n]));
      TornStep(results, ids);
      OutcomeRaised(e, worlds[n], requests[n], results[n], worlds[n + 1]);
      RaisedAdds(e, worlds[0], worlds[n], worlds[n + 1]);
    }
  }

  lemma TornStep(results: seq<Result>, ids: seq<int>)
    requires |results| == |ids| && ids != []
    ensures var n := |ids| - 1;
            Torn(results, ids) ==
            if results[n].Unconfirmed? then Torn(results[..n], ids[..n]) + {ids[n]} else Torn(results[..n], ids[..n])
  {
  }

  lemma NoneRaised(e: Setting, s: World)
    ensures Raised(e, s, s) == 0
  {
  }

  lemma RaisedAdds(e: Setting, a: World, b: World, c: World)
    ensures Raised(e, a, c) == Raised(e, a, b) + Raised(e, b, c)
  {
  }

  lemma OutcomeRaised(e: Setting, s: World, r: Request, result: Result, t: World)
    requires Outcome(e, s, r, result, t)
    ensures Raised(e, s, t) >= if result.Unconfirmed? then 1 else 0
  {
    hide Effect, Admissible, Raised;
  }

  lemma {:induction false} NoneTorn(results: seq<Result>, ids: seq<int>)
    requires |results| == |ids|
    ensures (forall k | 0 <= k < |results| :: !results[k].Unconfirmed?) ==> Torn(results, ids) == {}
    ensures Unconfirmeds(results) == 0 <==> forall k | 0 <= k < |results| :: !results[k].Unconfirmed?
  {
    if ids != [] {
      var n := |ids| - 1;
      NoneTorn(results[..n], ids[..n]);
    }
  }

  /** The torn ones are just the targets of the requests whose rollback was reported unconfirmed. */
  lemma {:induction false} TornAre(results: seq<Result>, ids: seq<int>, id: int)
    requires |results| == |ids|
    ensures id in Torn(results, ids) <==> exists k | 0 <= k < |ids| :: ids[k] == id && results[k].Unconfirmed?
  {
    if ids != [] {
      var n := |ids| - 1;
      TornAre(results[..n], ids[..n], id);
      if results[n].Unconfirmed? && ids[n] == id { assert ids[n] == id; }
    }
  }

  // ---- The service ----

  class Service {
    const setting: Setting
    var disk: Disk
    var db: Rows
    var nextId: nat
    var tick: nat

    ghost predicate Valid()
      reads this
    {
      (forall id | id in db :: 0 < id < nextId) && nextId >= 1
    }

    ghost function View(): World
      reads this
    {
      World(disk, db, nextId, tick)
    }

    /** How many calls have raised so far. */
    ghost function Failures(): nat
      reads `tick
    {
      Count(setting.fault, tick)
    }

    constructor (setting: Setting)
      ensures Valid() && View() == World(map[], map[], 1, 0) && this.setting == setting
    {
      this.setting := setting;
      disk, db, nextId, tick := map[], map[], 1, 0;
    }

    method Call() returns (failed: bool)
      modifies `tick
      ensures tick == old(tick) + 1 && failed == setting.fault(old(tick))
      ensures Failures() == old(Failures()) + (if failed then 1 else 0)
    {
      failed := setting.fault(tick);
      tick := tick + 1;
    }

    /** `ensure_workspace`: it may fail before or after the directory exists. */
    method EnsureWorkspace(id: int) returns (ok: bool)
      modifies `disk, `tick
      ensures disk == old(disk) || (id !in old(disk) && disk == old(disk)[id := NOTHING])
      ensures ok ==> id in disk
      ensures tick >= old(tick) && Failures() >= old(Failures()) + (if ok then 0 else 1)
    {
      hide Count;
      var failed := Call();
      if failed { return false; }
      if id !in disk {
        disk := disk[id := NOTHING];
      }
      failed := Call();
      return !failed;
    }

    /** `remove_workspace`; a failing `rmtree` may have removed some of it. */
    method RemoveWorkspace(id: int) returns (removed: bool)
      modifies `disk, `tick
      ensures removed ==> disk == old(disk) - {id}
      ensures OthersSame(old(disk), disk, id)
      ensures tick >= old(tick) && Failures() >= old(Failures()) + (if removed then 0 else 1)
    {
      hide Count;
      var failed := Call();
      if failed { return false; }
      if id !in disk { return true; }
      failed := Call();
      if failed {
        disk := disk[id := Workspace(disk[id].manifest, map[])];
        return false;
      }
      disk := disk - {id};
      return true;
    }

    /** `publish_staged` on the manifest: an error can come before or after the replacement. */
    method PublishManifest(id: int, m: Manifest) returns (ok: bool)
      requires id in disk
      modifies `disk, `tick
      ensures disk == old(disk) || disk == old(disk)[id := old(disk)[id].(manifest := Some(Parsed(m)))]
      ensures ok ==> disk == old(disk)[id := old(disk)[id].(manifest := Some(Parsed(m)))]
      ensures tick >= old(tick) && Failures() >= old(Failures()) + (if ok then 0 else 1)
    {
      hide Count;
      var failed := Call();
      if failed { return false; }
      disk := disk[id := disk[id].(manifest := Some(Parsed(m)))];
      failed := Call();
      return !failed;
    }

    method PublishFile(id: int, path: string, content: seq<Byte>) returns (ok: bool)
      requires id in disk
      modifies `disk, `tick
      ensures || disk == old(disk)
              || disk == old(disk)[id := old(disk)[id].(files := old(disk)[id].files[path := content])]
      ensures ok ==> disk == old(disk)[id := old(disk)[id].(files := old(disk)[id].files[path := content])]
      ensures tick >= old(tick) && Failures() >= old(Failures()) + (if ok then 0 else 1)
    {
      hide Count;
      var failed := Call();
      if failed { return false; }
      disk := disk[id := disk[id].(files := disk[id].files[path := content])];
      failed := Call();
      return !failed;
    }

    /** `restore_backup` or `remove_file_target` on the manifest: back to what was there. Only a restoration can fail
        after it has taken effect. */
    method RestoreManifest(id: int, backup: Option<ManifestFile>) returns (ok: bool)
      requires id in disk
      modifies `disk, `tick
      ensures disk == old(disk) || disk == old(disk)[id := old(disk)[id].(manifest := backup)]
      ensures ok ==> disk == old(disk)[id := old(disk)[id].(manifest := backup)]
      ensures tick >= old(tick) && Failures() >= old(Failures()) + (if ok then 0 else 1)
    {
      hide Count;
      var failed := Call();
      if failed { return false; }
      disk := disk[id := disk[id].(manifest := backup)];
      if backup.None? { return true; }
      failed := Call();
      return !failed;
    }

    method RestoreFile(id: int, path: string, backup: Option<seq<Byte>>) returns (ok: bool)
      requires id in disk
      modifies `disk, `tick
      ensures || disk == old(disk)
              || disk == old(disk)[id := old(disk)[id].(files := Restored(old(disk)[id].files, path, backup))]
      ensures ok ==> disk == old(disk)[id := old(disk)[id].(files := Restored(old(disk)[id].files, path, backup))]
      ensures tick >= old(tick) && Failures() >= old(Failures()) + (if ok then 0 else 1)
    {
      hide Count;
      var failed := Call();
      if failed { return false; }
      var files := disk[id].files;
      disk := disk[id := disk[id].(files := if backup.Some? then files[path := backup.value] else files - {path})];
      if backup.None? { return true; }
      failed := Call();
      return !failed;
    }

    /** `_discard_new_workspace`; it gives up silently when it cannot look at the workspace. */
    method DiscardNew(id: int, existed: bool) returns (confirmed: bool)
      modifies `disk, `tick
      ensures existed ==> disk == old(disk) && confirmed
      ensures confirmed ==> disk == old(disk) || disk == old(disk) - {id}
      ensures OthersSame(old(disk), disk, id)
      ensures tick >= old(tick) && Failures() >= old(Failures()) + (if confirmed then 0 else 1)
    {
      hide Count;
      if existed { return true; }
      var failed := Call();
      if failed || id !in disk { return true; }
      confirmed := RemoveWorkspace(id);
    }

    // ---- Creating ----

    /** The new workspace with its manifest, and the commit. */
    method Draft(id: int, m: Manifest) returns (ok: bool)
      requires id !in disk
      modifies `disk, `tick
      ensures OthersSame(old(disk), disk, id)
      ensures ok ==> disk == old(disk)[id := Workspace(Some(Parsed(m)), map[])]
      ensures tick >= old(tick) && Failures() >= old(Failures()) + (if ok then 0 else 1)
    {
      hide Count;
      ok := EnsureWorkspace(id);
      if !ok { return; }
      var failed := Call();
      if failed { return false; }
      ok := PublishManifest(id, m);
      if !ok { return; }
      failed := Call();
      return !failed;
    }

    /** `create_capability` */
    method CreateCapability(name: string, version: string, initial: Manifest) returns (result: Result, id: int)
      requires Valid()
      modifies this
      ensures Valid() && id == old(nextId)
      ensures Outcome(setting, old(View()), Create(name, version, initial), result, View())
    {
      hide Count;
      id := nextId;
      var failed := Call();
      if failed || id in disk { return Failed, id; }
      var m := if initial != map[] then initial else setting.defaultManifest(name, version, id);
      var ok := Draft(id, m);
      if !ok {
        var removed := RemoveWorkspace(id);
        return if removed then Failed else Unconfirmed, id;
      }
      db := db[id := Capability(name, version, m, [])];
      nextId := nextId + 1;
      return Done, id;
    }

    // ---- Updating ----

    /** `remove_manifest` */
    method RemoveManifest(id: int) returns (ok: bool)
      requires id in disk
      modifies `disk, `tick
      ensures disk == if ok then old(disk)[id := old(disk)[id].(manifest := None)] else old(disk)
      ensures tick >= old(tick) && Failures() >= old(Failures()) + (if ok then 0 else 1)
    {
      hide Count;
      var failed := Call();
      if failed { return false; }
      disk := disk[id := disk[id].(manifest := None)];
      return true;
    }

    /** The body of the update: the new manifest on disk, then the commit. */
    method PublishUpdate(id: int, m: Manifest) returns (ok: bool)
      requires id in disk
      modifies `disk, `tick
      ensures exists f :: disk == old(disk)[id := old(disk)[id].(manifest := f)]
      ensures ok ==> disk == old(disk)[id := old(disk)[id].(manifest := if m != map[] then Some(Parsed(m)) else None)]
      ensures tick >= old(tick) && Failures() >= old(Failures()) + (if ok then 0 else 1)
    {
      hide Count;
      assert old(disk) == old(disk)[id := old(disk)[id].(manifest := old(disk)[id].manifest)];
      if m != map[] {
        var failed := Call();
        if failed { return false; }
        ok := PublishManifest(id, m);
      } else {
        ok := RemoveManifest(id);
      }
      if !ok { return; }
      var failed := Call();
      return !failed;
    }

    /** Up to where the backup of the manifest is staged. */
    method BackUp(id: int) returns (ok: bool)
      modifies `disk, `tick
      ensures disk == old(disk) || (id !in old(disk) && disk == old(disk)[id := NOTHING])
      ensures ok ==> id in disk
      ensures tick >= old(tick) && Failures() >= old(Failures()) + (if ok then 0 else 1)
    {
      hide Count;
      if id !in disk {
        ok := EnsureWorkspace(id);
        if !ok { return; }
      }
      var failed := Call();
      return !failed;
    }

    /** `_compensate_update_manifest` */
    method PutManifestBack(id: int, backup: Option<ManifestFile>, existed: bool) returns (restored: bool)
      requires id in disk
      modifies `disk, `tick
      ensures OthersSame(old(disk), disk, id)
      ensures restored ==>
                disk == if existed then old(disk)[id := old(disk)[id].(manifest := backup)] else old(disk) - {id}
      ensures tick >= old(tick) && Failures() >= old(Failures()) + (if restored then 0 else 1)
    {
      hide Count;
      if existed { restored := RestoreManifest(id, backup); } else { restored := RemoveWorkspace(id); }
    }

    /** The part of the update that changes the workspace. */
    method RewriteManifest(id: int, m: Manifest) returns (result: Result)
      modifies `disk, `tick
      ensures OthersSame(old(disk), disk, id)
      ensures result.Done? ==> At(disk, id) == At(old(disk), id).(manifest := OnDisk(m))
      ensures result.Failed? ==> SameFiles(old(disk), disk)
      ensures tick >= old(tick)
      ensures Failures() >= old(Failures()) + (match result case Done => 0 case Failed => 1 case Unconfirmed => 2)
    {
      hide Count;
      var existed := id in disk;
      var ok := BackUp(id);
      if !ok {
        if existed { return Failed; }
        var removed := RemoveWorkspace(id);
        return if removed then Failed else Unconfirmed;
      }
      var backup := disk[id].manifest;
      ok := PublishUpdate(id, m);
      if !ok {
        var restored := PutManifestBack(id, backup, existed);
        return if restored then Failed else Unconfirmed;
      }
      return Done;
    }

    /** `update_capability` */
    method UpdateCapability(id: int, rename: Option<string>, revise: Option<string>, manifest: Option<Manifest>)
      returns (result: Result)
      requires Valid()
      modifies this
      ensures Valid() && Outcome(setting, old(View()), Update(id, rename, revise, manifest), result, View())
    {
      hide Count, Updated, Revised, OnDisk;
      if id !in db { return Failed; }
      if manifest.None? {
        var failed := Call();
        if failed { return Failed; }
        UpdatedRevises(db[id], At(disk, id), rename, revise, manifest, At(disk, id));
        db := db[id := Updated(db[id], rename, revise, manifest)];
        return Done;
      }
      result := RewriteManifest(id, manifest.value);
      if !result.Done? { return; }
      UpdatedRevises(db[id], At(old(disk), id), rename, revise, manifest, At(disk, id));
      db := db[id := Updated(db[id], rename, revise, manifest)];
      return Done;
    }

    // ---- Adding a source ----

    /** `load_manifest_dict`: it raises, or finds nothing when the read fails or nothing parses. */
    method LoadManifest(id: int) returns (found: Option<Manifest>, raised: bool)
      requires id in disk
      modifies `tick
      ensures found.Some? ==> disk[id].manifest == Some(Parsed(found.value))
      ensures tick >= old(tick) && Failures() >= old(Failures()) + (if raised then 1 else 0)
      ensures Failures() == old(Failures()) ==> found == Read(disk[id])
    {
      hide Count;
      raised := Call();
      if raised || disk[id].manifest.None? { return None, raised; }
      var failed := Call();
      if failed || disk[id].manifest.value.Unreadable? { return None, false; }
      return Some(disk[id].manifest.value.manifest), false;
    }

    /** `_compensate_source_publish`, and the removal of a workspace this request created. */
    method Compensate(id: int, path: string, file: Option<seq<Byte>>, manifest: Option<ManifestFile>, existed: bool)
      returns (confirmed: bool)
      requires id in disk
      modifies `disk, `tick
      ensures OthersSame(old(disk), disk, id)
      ensures confirmed ==>
                disk == if existed then old(disk)[id := Workspace(manifest, Restored(old(disk)[id].files, path, file))]
                        else old(disk) - {id}
      ensures tick >= old(tick) && Failures() >= old(Failures()) + (if confirmed then 0 else 1)
    {
      hide Count;
      confirmed := RestoreFile(id, path, file);
      if !confirmed { return; }
      confirmed := RestoreManifest(id, manifest);
      if !confirmed || existed { return; }
      confirmed := RemoveWorkspace(id);
    }

    /** Ingestion up to the point where the publication can begin: the new manifest, or none. */
    method Prepare(id: int, kind: Kind) returns (manifest: Option<Manifest>)
      requires id in disk && id in db
      modifies `tick
      ensures manifest.Some? ==>
                exists base :: Declared(base, kind) == manifest
                  && Current(setting, db[id], disk[id], id, base, Failures() == old(Failures()))
      ensures tick >= old(tick) && Failures() >= old(Failures())
      ensures Failures() == old(Failures()) ==> manifest == Prepared(setting, db[id], disk[id], id, kind)
    {
      hide Count, Declared;
      var found, raised := LoadManifest(id);
      if raised { return None; }
      var stored := db[id].manifest;
      if stored != map[] && (found.None? || stored != found.value) { return None; }
      var base := if stored != map[] then stored
                  else if found.Some? then found.value
                  else setting.defaultManifest(db[id].name, db[id].version, id);
      manifest := Declared(base, kind);
      if manifest.None? { return; }
      var failed := Call();
      if failed { return None; }
    }

    /** Publish the file and the manifest, then commit; whatever fails, put back what was there. */
    method Publish(id: int, path: string, content: seq<Byte>, manifest: Manifest, existed: bool)
      returns (result: Result)
      requires id in disk && (!existed ==> disk[id] == NOTHING)
      modifies `disk, `tick
      ensures OthersSame(old(disk), disk, id)
      ensures result.Done? ==>
                disk == old(disk)[id := Workspace(Some(Parsed(manifest)), old(disk)[id].files[path := content])]
      ensures result.Failed? ==> SameFiles(old(disk), disk)
      ensures tick >= old(tick)
      ensures Failures() >= old(Failures()) + (match result case Done => 0 case Failed => 1 case Unconfirmed => 2)
    {
      hide Count;
      ghost var before := disk[id];
      var file := if path in disk[id].files then Some(disk[id].files[path]) else None;
      var backup := disk[id].manifest;
      var ok := PublishFile(id, path, content);
      if ok { ok := PublishManifest(id, manifest); }
      if ok {
        var failed := Call();
        ok := !failed;
      }
      if !ok {
        PutBack(before.files, disk[id].files, path, content, file);
        var confirmed := Compensate(id, path, file, backup, existed);
        return if confirmed then Failed else Unconfirmed;
      }
      return Done;
    }

    /** Everything before the publication: the workspace, the staged source, the new manifest, the row and the
        backups. */
    method Begin(id: int, kind: Kind) returns (manifest: Option<Manifest>)
      requires id in db
      modifies `disk, `tick
      ensures disk == old(disk) || (id !in old(disk) && disk == old(disk)[id := NOTHING])
      ensures manifest.Some? ==>
                && id in disk
                && exists base :: Declared(base, kind) == manifest
                     && Current(setting, db[id], At(old(disk), id), id, base, Failures() == old(Failures()))
      ensures tick >= old(tick) && Failures() >= old(Failures())
      ensures Failures() == old(Failures()) ==>
                manifest == Prepared(setting, db[id], At(old(disk), id), id, kind)
    {
      hide Declared, Count, Prepared;
      var ready := EnsureWorkspace(id);
      if !ready { return None; }
      var failed := Call();
      if failed { return None; }
      manifest := Prepare(id, kind);
      if manifest.None? { return; }
      failed := Call();
      if !failed { failed := Call(); }
      if failed { return None; }
    }

    /** The part of the ingestion that changes the workspace. */
    method Ingest(id: int, kind: Kind, content: seq<Byte>) returns (result: Result, manifest: Manifest)
      requires id in db
      modifies `disk, `tick
      ensures OthersSame(old(disk), disk, id)
      ensures result.Done? ==>
                && (exists base :: Declared(base, kind) == Some(manifest)
                      && Current(setting, db[id], At(old(disk), id), id, base, Failures() == old(Failures())))
                && At(disk, id) == Workspace(Some(Parsed(manifest)), At(old(disk), id).files[PathOf(kind) := content])
      ensures result.Failed? ==> SameFiles(old(disk), disk)
      ensures tick >= old(tick) && Failures() >= old(Failures())
      ensures Failures() == old(Failures()) ==>
                var prepared := Prepared(setting, db[id], At(old(disk), id), id, kind);
                (result.Done? <==> prepared.Some?) && (result.Done? ==> prepared == Some(manifest))
      ensures result.Unconfirmed? ==>
                var admissible := Prepared(setting, db[id], At(old(disk), id), id, kind).Some?;
                Failures() >= old(Failures()) + (if id !in old(disk) && !admissible then 1 else 2)
    {
      hide Declared, PathOf, Count, Prepared;
      manifest := map[];
      var existed := id in disk;
      var begun := Begin(id, kind);
      if begun.None? {
        var confirmed := DiscardNew(id, existed);
        return if confirmed then Failed else Unconfirmed, manifest;
      }
      manifest := begun.value;
      result := Publish(id, PathOf(kind), content, manifest, existed);
    }

    /** `add_capability_source` */
    method AddCapabilitySource(id: int, kind: Kind, content: seq<Byte>) returns (result: Result)
      requires Valid()
      modifies this
      ensures Valid() && Outcome(setting, old(View()), AddSource(id, kind, content), result, View())
    {
      hide Declared, PathOf, Without, Count, Prepared, Acceptable, Current, Added;
      if id !in db { return Failed; }
      PreparedIs(setting, db[id], At(disk, id), id, kind);
      var manifest;
      result, manifest := Ingest(id, kind, content);
      if !result.Done? { return; }
      var c := db[id];
      var d := c.(manifest := manifest,
                  rows := Without(c.rows, PathOf(kind)) + [Row(PathOf(kind), setting.hash(content))]);
      AddedIs(setting, id, c, At(old(disk), id), kind, content, Failures() == old(Failures()), d, At(disk, id));
      db := db[id := d];
    }

    // ---- Whole runs ----

    /** Every capability agrees with its workspace, but for these. */
    ghost predicate AllCoherent(torn: set<int>)
      reads this
    {
      Agrees(setting, View(), torn)
    }

    /** One request. A failed one changes nothing at all; only an unconfirmed one may leave its capability torn, and
        then its rollback has met a failing call. */
    method Handle(r: Request, ghost torn: set<int>) returns (result: Result, id: int)
      requires Valid() && AllCoherent(torn)
      modifies this
      ensures Valid() && AllCoherent(if result.Unconfirmed? then torn + {id} else torn)
      ensures Outcome(setting, old(View()), r, result, View()) && id == Target(old(View()), r)
      ensures result.Failed? ==> db == old(db) && SameFiles(old(disk), disk)
      ensures result.Unconfirmed? ==> db == old(db) && OthersSame(old(disk), disk, id)
      ensures forall other | other in old(db) && other != id :: other in db && db[other] == old(db)[other]
    {
      hide Declared, PathOf, Without, Coherent, Updated, Count, Prepared, Agrees, Admissible;
      match r {
        case Create(name, version, initial) => result, id := CreateCapability(name, version, initial);
        case Update(target, rename, revise, manifest) =>
          id := target;
          result := UpdateCapability(id, rename, revise, manifest);
        case AddSource(target, kind, content) =>
          id := target;
          result := AddCapabilitySource(id, kind, content);
      }
      OutcomeAgrees(setting, old(View()), r, result, View(), torn);
    }

    /** Any sequence of requests, with any of their steps failing: each is handled in turn, from the world the one
        before it left, and the capabilities that agree with their workspaces at the end are all but those whose
        rollback was reported unconfirmed. */
    method Serve(requests: seq<Request>) returns (results: seq<Result>, ids: seq<int>, ghost worlds: seq<World>)
      requires Valid() && AllCoherent({})
      modifies this
      ensures Valid() && Run(setting, worlds, requests, results, ids)
      ensures worlds[0] == old(View()) && worlds[|requests|] == View()
      ensures AllCoherent(Torn(results, ids))
      ensures (forall k | 0 <= k < |results| :: !results[k].Unconfirmed?) ==> AllCoherent({})
      ensures Unconfirmeds(results) <= Failures() - old(Failures())
      ensures Failures() == old(Failures()) ==> AllCoherent({})
    {
      hide Agrees, Valid, Outcome, Count, Torn, Unconfirmeds;
      results, ids, worlds := [], [], [View()];
      ghost var torn: set<int> := {};
      for i := 0 to |requests|
        invariant Valid() && AllCoherent(torn)
        invariant |worlds| == i + 1 && worlds[0] == old(View()) && worlds[i] == View()
        invariant Run(setting, worlds, requests[..i], results, ids)
      {
        var result, id := Handle(requests[i], torn);
        torn := if result.Unconfirmed? then torn + {id} else torn;
        RunOneMore(setting, worlds, requests[..i], results, ids, requests[i], result, id, View());
        assert requests[..i] + [requests[i]] == requests[..i + 1];
        results, ids, worlds := results + [result], ids + [id], worlds + [View()];
      }
      assert requests[..|requests|] == requests;
      RunAgrees(setting, worlds, requests, results, ids);
      NoneTorn(results, ids);
    }
  }

  lemma RunOneMore(e: Setting, worlds: seq<World>, requests: seq<Request>, results: seq<Result>, ids: seq<int>,
                   r: Request, result: Result, id: int, t: World)
    requires Run(e, worlds, requests, results, ids)
    requires Outcome(e, worlds[|requests|], r, result, t) && id == Target(worlds[|requests|], r)
    ensures Run(e, worlds + [t], requests + [r], results + [result], ids + [id])
  {
    hide Outcome;
  }

  function Restored(files: map<string, seq<Byte>>, path: string, backup: Option<seq<Byte>>): map<string, seq<Byte>> {
    if backup.Some? then files[path := backup.value] else files - {path}
  }

  function OnDisk(m: Manifest): Option<ManifestFile> {
    if m != map[] then Some(Parsed(m)) else None
  }

  function Updated(c: Capability, rename: Option<string>, revise: Option<string>,
                   manifest: Option<Manifest>): Capability {
    Capability(if rename.Some? then rename.value else c.name, if revise.Some? then revise.value else c.version,
               if manifest.Some? then manifest.value else c.manifest, c.rows)
  }

  /** Whether or not the file was replaced, putting its backup back undoes it. */
  lemma PutBack(before: map<string, seq<Byte>>, now: map<string, seq<Byte>>, path: string, content: seq<Byte>,
                file: Option<seq<Byte>>)
    requires now == before || now == before[path := content]
    requires file == if path in before then Some(before[path]) else None
    ensures Restored(now, path, file) == before
  {
  }

  lemma UpdatedRevises(c: Capability, w: Workspace, rename: Option<string>, revise: Option<string>,
                       manifest: Option<Manifest>, v: Workspace)
    requires v == if manifest.None? then w else w.(manifest := OnDisk(manifest.value))
    ensures Revised(c, w, rename, revise, manifest, Updated(c, rename, revise, manifest), v)
  {
  }

  lemma AddedIs(e: Setting, id: int, c: Capability, w: Workspace, kind: Kind, content: seq<Byte>, quiet: bool,
                d: Capability, v: Workspace)
    requires exists base :: Declared(base, kind) == Some(d.manifest) && Current(e, c, w, id, base, quiet)
    requires v == Workspace(Some(Parsed(d.manifest)), w.files[PathOf(kind) := content])
    requires d == c.(manifest := d.manifest,
                     rows := Without(c.rows, PathOf(kind)) + [Row(PathOf(kind), e.hash(content))])
    ensures Added(e, id, c, w, kind, content, quiet, d, v)
  {
    hide Declared, Current, Grown, Place, PathOf, RowReplaced, Without;
    var base :| Declared(base, kind) == Some(d.manifest) && Current(e, c, w, id, base, quiet);
    DeclaredIs(base, kind);
    PublishedAt(kind);
    WithoutReplaces(c.rows, Row(PathOf(kind), e.hash(content)));
  }

  lemma NewCoherent(e: Setting, id: int, name: string, version: string, initial: Manifest, d: Capability, v: Workspace)
    requires Drafted(e, id, name, version, initial, d, v)
    ensures Coherent(d, v, e.hash)
  {
  }

  lemma RevisedCoherent(c: Capability, w: Workspace, rename: Option<string>, revise: Option<string>,
                        manifest: Option<Manifest>, d: Capability, v: Workspace, hash: seq<Byte> -> int)
    requires Coherent(c, w, hash) && Revised(c, w, rename, revise, manifest, d, v)
    ensures Coherent(d, v, hash)
  {
  }

  lemma AddedCoherent(e: Setting, id: int, c: Capability, w: Workspace, kind: Kind, content: seq<Byte>, quiet: bool,
                      d: Capability, v: Workspace)
    requires Coherent(c, w, e.hash) && Added(e, id, c, w, kind, content, quiet, d, v)
    ensures Coherent(d, v, e.hash)
  {
    hide Coherent, Current, Grown, RowReplaced, Place;
    var path :| Place(kind, path) && v.files == w.files[path := content]
                && RowReplaced(c.rows, d.rows, Row(path, e.hash(content)));
    ReplacedCoherent(c, w, path, content, d, v, e.hash);
  }
}
