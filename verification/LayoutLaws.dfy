/** What assembling an image layout and validating it owe each other. */
module LayoutLaws {
  import opened Options
  import opened Bytes
  import opened Ordering
  import opened Layout

  // ---- The layers, one by one ----

  lemma {:induction false} LayerAt(c: Codec, roles: seq<string>, sources: Sources, i: nat)
    requires Known(roles, sources) && i < |roles|
    ensures Layers(c, roles, sources)[i] == LayerOf(c, roles[i], sources)
  {
    if i < |roles| - 1 { LayerAt(c, roles[..|roles| - 1], sources, i); }
  }

  lemma {:induction false} DigestAt(layers: seq<Descriptor>)
    ensures |Digests(layers)| == |layers|
    ensures forall i | 0 <= i < |layers| :: Digests(layers)[i] == layers[i].digest
  {
    if layers != [] { DigestAt(layers[..|layers| - 1]); }
  }

  // ---- What storing keeps ----

  ghost predicate Keeps(a: map<Digest, seq<Byte>>, b: map<Digest, seq<Byte>>) {
    forall d | d in a :: d in b && b[d] == a[d]
  }

  /** The blob is there under its digest, and not too long. */
  predicate Held(c: Codec, blobs: map<Digest, seq<Byte>>, digest: Digest, maxBlob: nat) {
    digest in blobs && c.hash(blobs[digest]) == digest && |blobs[digest]| <= maxBlob
  }

  lemma {:induction false} StoringKeeps(c: Codec, blobs: map<Digest, seq<Byte>>, roles: seq<string>, sources: Sources,
                                        maxBlob: nat)
    requires Known(roles, sources) && AllWithin(roles, sources, maxBlob)
    requires StoredAll(c, blobs, roles, sources, maxBlob).Some?
    ensures Keeps(blobs, StoredAll(c, blobs, roles, sources, maxBlob).value)
    ensures forall i | 0 <= i < |roles| ::
              Held(c, StoredAll(c, blobs, roles, sources, maxBlob).value, c.hash(sources[roles[i]]), maxBlob)
  {
    if roles != [] {
      StoringKeeps(c, blobs, roles[..|roles| - 1], sources, maxBlob);
    }
  }

  lemma {:induction false} NothingToStore(c: Codec, blobs: map<Digest, seq<Byte>>, roles: seq<string>, sources: Sources,
                                          maxBlob: nat)
    requires Known(roles, sources)
    requires forall i | 0 <= i < |roles| :: Held(c, blobs, c.hash(sources[roles[i]]), maxBlob)
    ensures StoredAll(c, blobs, roles, sources, maxBlob) == Some(blobs)
  {
    if roles != [] { NothingToStore(c, blobs, roles[..|roles| - 1], sources, maxBlob); }
  }

  /** Assembling the same image again succeeds and changes nothing. */
  lemma AssembleAgain(c: Codec, root: Root, config: Config, roles: seq<string>, sources: Sources, maxBlob: nat,
                      maxTotal: nat)
    requires Built(c, root, config, roles, sources, maxBlob, maxTotal).Some?
    ensures var again := Built(c, root, config, roles, sources, maxBlob, maxTotal).value;
            Built(c, again, config, roles, sources, maxBlob, maxTotal) == Some(again)
  {
    hide StoredAll, Ready, WrittenFiles, ManifestOf, Keeps, Held, Known, AllWithin;
    ReadyKnown(c, config, roles, sources, maxBlob, maxTotal);
    var again := Built(c, root, config, roles, sources, maxBlob, maxTotal).value;
    var stored := StoredAll(c, root.blobs, roles, sources, maxBlob).value;
    StoringKeeps(c, root.blobs, roles, sources, maxBlob);
    InstallingKeeps(stored, c.hash(c.printConfig(config)), c.printConfig(config));
    forall i | 0 <= i < |roles| ensures Held(c, again.blobs, c.hash(sources[roles[i]]), maxBlob) {
      StillHeld(c, stored, again.blobs, c.hash(sources[roles[i]]), maxBlob);
    }
    NothingToStore(c, again.blobs, roles, sources, maxBlob);
    FilesAgain(c, root.files, ManifestOf(c, config, roles, sources));
  }

  lemma ReadyKnown(c: Codec, config: Config, roles: seq<string>, sources: Sources, maxBlob: nat, maxTotal: nat)
    requires Ready(c, config, roles, sources, maxBlob, maxTotal)
    ensures Known(roles, sources) && AllWithin(roles, sources, maxBlob) && c.digestsValid(config)
    ensures forall i | 0 <= i < |roles| :: roles[i] in sources
  {
  }

  lemma StillHeld(c: Codec, a: map<Digest, seq<Byte>>, b: map<Digest, seq<Byte>>, digest: Digest, maxBlob: nat)
    requires Held(c, a, digest, maxBlob) && Keeps(a, b)
    ensures Held(c, b, digest, maxBlob)
  {
  }

  lemma InstallingKeeps(blobs: map<Digest, seq<Byte>>, name: Digest, data: seq<Byte>)
    requires Installed(blobs, name, data).Some?
    ensures var after := Installed(blobs, name, data).value;
            Keeps(blobs, after) && name in after && after[name] == data
  {
  }

  /** The three documents end up in place. */
  lemma FilesAgain(c: Codec, files: map<string, seq<Byte>>, m: Manifest)
    requires WrittenFiles(c, files, m).Some?
    ensures var f := WrittenFiles(c, files, m).value;
            && "index.json" in f && f["index.json"] == c.printIndex(ImageIndex(c, m))
            && "oci-layout" in f && f["oci-layout"] == c.printVersion(OCI_LAYOUT_VERSION)
            && "manifest.json" in f && f["manifest.json"] == c.printManifest(m)
            && WrittenFiles(c, f, m) == Some(f)
  {
    assert "index.json"[0] != "oci-layout"[0] && "index.json"[0] != "manifest.json"[0]
        && "oci-layout"[0] != "manifest.json"[0];
    hide ImageIndex;
  }

  // ---- The same image, however it was asked for ----

  /** The order of the mapping's keys does not matter. */
  lemma OrderOfKeysIrrelevant(c: Codec, root: Root, config: Config, a: seq<string>, b: seq<string>, sources: Sources,
                              maxBlob: nat, maxTotal: nat)
    requires multiset(a) == multiset(b)
    ensures Built(c, root, config, Sorted(a), sources, maxBlob, maxTotal) ==
            Built(c, root, config, Sorted(b), sources, maxBlob, maxTotal)
    ensures Known(Sorted(a), sources) ==>
              && Known(Sorted(b), sources)
              && ResultOf(c, config, Sorted(a), sources) == ResultOf(c, config, Sorted(b), sources)
  {
    hide Built, ResultOf, Known, Sorted;
    OrderIrrelevant(a, b);
  }

  /** No two contents share a digest. */
  ghost predicate CollisionFree(c: Codec) {
    forall x, y :: c.hash(x) == c.hash(y) ==> x == y
  }

  ghost predicate SameImage(config: Config, roles: seq<string>, sources: Sources, config': Config, roles': seq<string>,
                            sources': Sources)
    requires Known(roles, sources) && Known(roles', sources')
  {
    config == config' && roles == roles' && forall i | 0 <= i < |roles| :: sources[roles[i]] == sources'[roles'[i]]
  }

  /** The image digest names the configuration, the roles and their contents, and nothing else. */
  lemma ImageDigestIdentifies(c: Codec, config: Config, roles: seq<string>, sources: Sources, config': Config,
                              roles': seq<string>, sources': Sources)
    requires ReadsBack(c) && CollisionFree(c)
    requires Known(roles, sources) && Known(roles', sources')
    ensures ResultOf(c, config, roles, sources).imageDigest == ResultOf(c, config', roles', sources').imageDigest <==>
            SameImage(config, roles, sources, config', roles', sources')
  {
    hide Layers, Digests, Known;
    var m, m' := ManifestOf(c, config, roles, sources), ManifestOf(c, config', roles', sources');
    if ResultOf(c, config, roles, sources).imageDigest == ResultOf(c, config', roles', sources').imageDigest {
      SamePrinted(c, m, m');
      assert c.printConfig(config) == c.printConfig(config');
      assert Some(config) == Some(config');
      SameLayers(c, roles, sources, roles', sources');
    }
    if SameImage(config, roles, sources, config', roles', sources') {
      EqualLayers(c, roles, sources, roles', sources');
    }
  }

  lemma SamePrinted(c: Codec, m: Manifest, m': Manifest)
    requires ReadsBack(c) && CollisionFree(c)
    requires c.hash(c.printIndex(ImageIndex(c, m))) == c.hash(c.printIndex(ImageIndex(c, m')))
    ensures m == m'
  {
    var i, i' := ImageIndex(c, m), ImageIndex(c, m');
    assert c.printIndex(i) == c.printIndex(i');
    assert Some(i) == Some(i');
    assert i.manifests[0].digest == i'.manifests[0].digest;
    assert c.printManifest(m) == c.printManifest(m');
    assert Some(m) == Some(m');
  }

  lemma SameLayers(c: Codec, roles: seq<string>, sources: Sources, roles': seq<string>, sources': Sources)
    requires CollisionFree(c) && Known(roles, sources) && Known(roles', sources')
    requires Layers(c, roles, sources) == Layers(c, roles', sources')
    ensures roles == roles' && forall i | 0 <= i < |roles| :: sources[roles[i]] == sources'[roles'[i]]
  {
    hide Layers;
    forall i | 0 <= i < |roles| ensures roles[i] == roles'[i] && sources[roles[i]] == sources'[roles'[i]] {
      LayerAt(c, roles, sources, i);
      LayerAt(c, roles', sources', i);
    }
  }

  lemma {:induction false} EqualLayers(c: Codec, roles: seq<string>, sources: Sources, roles': seq<string>,
                                       sources': Sources)
    requires Known(roles, sources) && Known(roles', sources')
    requires roles == roles' && forall i | 0 <= i < |roles| :: sources[roles[i]] == sources'[roles'[i]]
    ensures Layers(c, roles, sources) == Layers(c, roles', sources')
  {
    if roles != [] { EqualLayers(c, roles[..|roles| - 1], sources, roles'[..|roles| - 1], sources'); }
  }

  // ---- Validating what was assembled ----

  ghost predicate DigestsDiffer(c: Codec, roles: seq<string>, sources: Sources)
    requires Known(roles, sources)
  {
    forall i, j | 0 <= i < j < |roles| :: c.hash(sources[roles[i]]) != c.hash(sources[roles[j]])
  }

  /** A blob that was already in the root under a source's digest is that source. */
  ghost predicate NoClash(c: Codec, root: Root, roles: seq<string>, sources: Sources)
    requires Known(roles, sources)
  {
    forall i | 0 <= i < |roles| && c.hash(sources[roles[i]]) in root.blobs ::
      root.blobs[c.hash(sources[roles[i]])] == sources[roles[i]]
  }

  lemma {:induction false} StoredContent(c: Codec, root: Root, roles: seq<string>, sources: Sources, maxBlob: nat,
                                         i: nat)
    requires Known(roles, sources) && AllWithin(roles, sources, maxBlob) && NoClash(c, root, roles, sources)
    requires i < |roles| && forall j | 0 <= j < i :: c.hash(sources[roles[j]]) != c.hash(sources[roles[i]])
    requires StoredAll(c, root.blobs, roles, sources, maxBlob).Some?
    ensures var b, d := StoredAll(c, root.blobs, roles, sources, maxBlob).value, c.hash(sources[roles[i]]);
            d in b && b[d] == sources[roles[i]]
    decreases |roles|
  {
    var front := roles[..|roles| - 1];
    if i < |roles| - 1 {
      StoredContent(c, root, front, sources, maxBlob, i);
    } else {
      OnlyOwnDigests(c, root.blobs, front, sources, maxBlob, c.hash(sources[roles[i]]));
    }
  }

  /** Storing adds no other digests than the sources' own. */
  lemma {:induction false} OnlyOwnDigests(c: Codec, blobs: map<Digest, seq<Byte>>, roles: seq<string>, sources: Sources,
                                          maxBlob: nat, d: Digest)
    requires Known(roles, sources) && StoredAll(c, blobs, roles, sources, maxBlob).Some?
    requires forall j | 0 <= j < |roles| :: c.hash(sources[roles[j]]) != d
    ensures var b := StoredAll(c, blobs, roles, sources, maxBlob).value;
            (d in b <==> d in blobs) && (d in b ==> b[d] == blobs[d])
  {
    if roles != [] { OnlyOwnDigests(c, blobs, roles[..|roles| - 1], sources, maxBlob, d); }
  }

  ghost predicate FirstOf(c: Codec, roles: seq<string>, sources: Sources, i: nat)
    requires Known(roles, sources) && i < |roles|
  {
    forall j | 0 <= j < i :: c.hash(sources[roles[j]]) != c.hash(sources[roles[i]])
  }

  /** Each blob that is the first with its digest is in place. */
  ghost predicate InPlace(c: Codec, blobs: map<Digest, seq<Byte>>, roles: seq<string>, sources: Sources)
    requires Known(roles, sources)
  {
    forall i | 0 <= i < |roles| && FirstOf(c, roles, sources, i) ::
      c.hash(sources[roles[i]]) in blobs && blobs[c.hash(sources[roles[i]])] == sources[roles[i]]
  }

  /** What validation asks of the layers. */
  ghost predicate LayersAcceptable(c: Codec, roles: seq<string>, sources: Sources, before: nat, limits: Limits)
    requires Known(roles, sources)
  {
    && DigestsDiffer(c, roles, sources)
    && AllWithin(roles, sources, limits.maxBlob)
    && (roles != [] ==> before + SourceBytes(roles, sources) <= limits.maxTotal)
  }

  lemma {:induction false} LayersVerified(c: Codec, blobs: map<Digest, seq<Byte>>, roles: seq<string>, sources: Sources,
                                          before: nat, limits: Limits)
    requires Known(roles, sources) && InPlace(c, blobs, roles, sources)
    ensures LayersChecked(c, blobs, Layers(c, roles, sources), before, limits) ==
            if LayersAcceptable(c, roles, sources, before, limits) then Some(before + SourceBytes(roles, sources))
            else None
  {
    hide Layers, LayersChecked, LayerOk, Digests, InPlace, LayersAcceptable, SourceBytes, FirstOf;
    if roles == [] {
      NoLayersToVerify(c, blobs, sources, before, limits);
    } else {
      var front, last := roles[..|roles| - 1], roles[|roles| - 1];
      FrontInPlace(c, blobs, roles, sources);
      LayersVerified(c, blobs, front, sources, before, limits);
      LayersStep(c, blobs, roles, sources, before, limits);
      SeenBefore(c, roles, sources);
      AcceptableStep(c, roles, sources, before, limits);
      if FirstOf(c, roles, sources, |roles| - 1) {
        LastOk(c, blobs, roles, sources, before + SourceBytes(front, sources), limits);
      }
    }
  }

  lemma NoLayersToVerify(c: Codec, blobs: map<Digest, seq<Byte>>, sources: Sources, before: nat, limits: Limits)
    ensures LayersChecked(c, blobs, Layers(c, [], sources), before, limits) == Some(before)
    ensures LayersAcceptable(c, [], sources, before, limits) && SourceBytes([], sources) == 0
  {
  }

  lemma FrontInPlace(c: Codec, blobs: map<Digest, seq<Byte>>, roles: seq<string>, sources: Sources)
    requires Known(roles, sources) && InPlace(c, blobs, roles, sources) && roles != []
    ensures Known(roles[..|roles| - 1], sources) && InPlace(c, blobs, roles[..|roles| - 1], sources)
  {
    var front := roles[..|roles| - 1];
    forall i | 0 <= i < |front| && FirstOf(c, front, sources, i) ensures FirstOf(c, roles, sources, i) {
      assert forall j | 0 <= j < i :: front[j] == roles[j];
    }
  }

  lemma LayersStep(c: Codec, blobs: map<Digest, seq<Byte>>, roles: seq<string>, sources: Sources, before: nat,
                   limits: Limits)
    requires Known(roles, sources) && roles != []
    ensures Known(roles[..|roles| - 1], sources)
    ensures var front, d := Layers(c, roles[..|roles| - 1], sources), LayerOf(c, roles[|roles| - 1], sources);
            LayersChecked(c, blobs, Layers(c, roles, sources), before, limits) ==
            match LayersChecked(c, blobs, front, before, limits)
            case None => None
            case Some(total) =>
              if d.digest in Digests(front) || !LayerOk(c, blobs, d, total, limits) then None else Some(total + d.size)
    ensures SourceBytes(roles, sources) ==
            SourceBytes(roles[..|roles| - 1], sources) + |sources[roles[|roles| - 1]]|
  {
    hide LayerOk;
    var front, d := Layers(c, roles[..|roles| - 1], sources), LayerOf(c, roles[|roles| - 1], sources);
    assert Layers(c, roles, sources) == front + [d];
    assert (front + [d])[..|front|] == front;
  }

  lemma SeenBefore(c: Codec, roles: seq<string>, sources: Sources)
    requires Known(roles, sources) && roles != []
    ensures Known(roles[..|roles| - 1], sources)
    ensures c.hash(sources[roles[|roles| - 1]]) in Digests(Layers(c, roles[..|roles| - 1], sources)) <==>
            !FirstOf(c, roles, sources, |roles| - 1)
  {
    var front, d := roles[..|roles| - 1], c.hash(sources[roles[|roles| - 1]]);
    var layers := Layers(c, front, sources);
    DigestAt(layers);
    forall j | 0 <= j < |front| ensures Digests(layers)[j] == c.hash(sources[roles[j]]) {
      LayerAt(c, front, sources, j);
    }
    hide Layers, Digests;
  }

  lemma AcceptableStep(c: Codec, roles: seq<string>, sources: Sources, before: nat, limits: Limits)
    requires Known(roles, sources) && roles != []
    ensures Known(roles[..|roles| - 1], sources)
    ensures LayersAcceptable(c, roles, sources, before, limits) <==>
              && LayersAcceptable(c, roles[..|roles| - 1], sources, before, limits)
              && FirstOf(c, roles, sources, |roles| - 1)
              && |sources[roles[|roles| - 1]]| <= limits.maxBlob
              && before + SourceBytes(roles, sources) <= limits.maxTotal
  {
    hide DigestsDiffer, AllWithin, SourceBytes, FirstOf;
    DifferStep(c, roles, sources);
    WithinStep(roles, sources, limits.maxBlob);
    BytesStep(roles, sources);
  }

  lemma DifferStep(c: Codec, roles: seq<string>, sources: Sources)
    requires Known(roles, sources) && roles != []
    ensures Known(roles[..|roles| - 1], sources)
    ensures DigestsDiffer(c, roles, sources) <==>
            DigestsDiffer(c, roles[..|roles| - 1], sources) && FirstOf(c, roles, sources, |roles| - 1)
  {
    var front := roles[..|roles| - 1];
    assert forall i | 0 <= i < |front| :: front[i] == roles[i];
    if DigestsDiffer(c, front, sources) && FirstOf(c, roles, sources, |roles| - 1) {
      forall i, j | 0 <= i < j < |roles| ensures c.hash(sources[roles[i]]) != c.hash(sources[roles[j]]) {
        if j < |front| { assert c.hash(sources[front[i]]) != c.hash(sources[front[j]]); }
      }
    }
  }

  lemma WithinStep(roles: seq<string>, sources: Sources, maxBlob: nat)
    requires Known(roles, sources) && roles != []
    ensures Known(roles[..|roles| - 1], sources)
    ensures AllWithin(roles, sources, maxBlob) <==>
            AllWithin(roles[..|roles| - 1], sources, maxBlob) && |sources[roles[|roles| - 1]]| <= maxBlob
  {
    assert forall i | 0 <= i < |roles| - 1 :: roles[..|roles| - 1][i] == roles[i];
  }

  lemma BytesStep(roles: seq<string>, sources: Sources)
    requires Known(roles, sources) && roles != []
    ensures Known(roles[..|roles| - 1], sources)
    ensures SourceBytes(roles, sources) == SourceBytes(roles[..|roles| - 1], sources) + |sources[roles[|roles| - 1]]|
  {
  }

  lemma LastOk(c: Codec, blobs: map<Digest, seq<Byte>>, roles: seq<string>, sources: Sources, total: nat,
               limits: Limits)
    requires Known(roles, sources) && InPlace(c, blobs, roles, sources) && roles != []
    requires FirstOf(c, roles, sources, |roles| - 1)
    ensures var role := roles[|roles| - 1];
            LayerOk(c, blobs, LayerOf(c, role, sources), total, limits) <==>
            |sources[role]| <= limits.maxBlob && total + |sources[role]| <= limits.maxTotal
  {
  }

  // ---- The round trip ----

  ghost predicate JsonFits(c: Codec, config: Config, m: Manifest, limits: Limits) {
    && |c.printVersion(OCI_LAYOUT_VERSION)| <= limits.maxJson && |c.printVersion(OCI_LAYOUT_VERSION)| <= limits.maxBlob
    && |c.printIndex(ImageIndex(c, m))| <= limits.maxJson && |c.printIndex(ImageIndex(c, m))| <= limits.maxBlob
    && |c.printManifest(m)| <= limits.maxJson && |c.printManifest(m)| <= limits.maxBlob
    && |c.printConfig(config)| <= limits.maxJson && |c.printConfig(config)| <= limits.maxBlob
  }

  ghost function JsonBytes(c: Codec, config: Config, m: Manifest): nat {
    |c.printVersion(OCI_LAYOUT_VERSION)| + |c.printIndex(ImageIndex(c, m))| + |c.printManifest(m)|
        + |c.printConfig(config)|
  }

  /** The root after a successful assembly, as validation will read it. */
  lemma BuiltHolds(c: Codec, root: Root, config: Config, roles: seq<string>, sources: Sources, maxBlob: nat,
                   maxTotal: nat)
    requires Built(c, root, config, roles, sources, maxBlob, maxTotal).Some?
    requires Known(roles, sources) ==> NoClash(c, root, roles, sources)
    ensures Known(roles, sources) && c.digestsValid(config)
    ensures var r := Built(c, root, config, roles, sources, maxBlob, maxTotal).value;
            var m := ManifestOf(c, config, roles, sources);
            && InPlace(c, r.blobs, roles, sources)
            && m.config.digest in r.blobs && r.blobs[m.config.digest] == c.printConfig(config)
            && "index.json" in r.files && r.files["index.json"] == c.printIndex(ImageIndex(c, m))
            && "oci-layout" in r.files && r.files["oci-layout"] == c.printVersion(OCI_LAYOUT_VERSION)
            && "manifest.json" in r.files && r.files["manifest.json"] == c.printManifest(m)
  {
    hide StoredAll, Ready, WrittenFiles, Known, AllWithin, Installed, Keeps, FirstOf, Layers;
    ReadyKnown(c, config, roles, sources, maxBlob, maxTotal);
    var m := ManifestOf(c, config, roles, sources);
    var stored := StoredAll(c, root.blobs, roles, sources, maxBlob).value;
    InstallingKeeps(stored, c.hash(c.printConfig(config)), c.printConfig(config));
    FilesAgain(c, root.files, m);
    var r := Built(c, root, config, roles, sources, maxBlob, maxTotal).value;
    forall i | 0 <= i < |roles| && FirstOf(c, roles, sources, i)
      ensures c.hash(sources[roles[i]]) in r.blobs && r.blobs[c.hash(sources[roles[i]])] == sources[roles[i]]
    {
      FirstStored(c, root, roles, sources, maxBlob, i);
      KeptValue(stored, r.blobs, c.hash(sources[roles[i]]));
    }
  }

  lemma FirstStored(c: Codec, root: Root, roles: seq<string>, sources: Sources, maxBlob: nat, i: nat)
    requires Known(roles, sources) && AllWithin(roles, sources, maxBlob) && NoClash(c, root, roles, sources)
    requires i < |roles| && FirstOf(c, roles, sources, i)
    requires StoredAll(c, root.blobs, roles, sources, maxBlob).Some?
    ensures var b, d := StoredAll(c, root.blobs, roles, sources, maxBlob).value, c.hash(sources[roles[i]]);
            d in b && b[d] == sources[roles[i]]
  {
    hide StoredAll;
    StoredContent(c, root, roles, sources, maxBlob, i);
  }

  lemma KeptValue(a: map<Digest, seq<Byte>>, b: map<Digest, seq<Byte>>, d: Digest)
    requires Keeps(a, b) && d in a
    ensures d in b && b[d] == a[d]
  {
  }

  /** Validating a layout just assembled succeeds exactly when the documents fit, the configuration holds no secrets
      and the layers are within the limits with digests that all differ; it then gives back the same configuration,
      digests and layer order. */
  lemma AssembleThenValidate(c: Codec, root: Root, config: Config, roles: seq<string>, sources: Sources, maxBlob: nat,
                             maxTotal: nat, limits: Limits)
    requires ReadsBack(c) && Built(c, root, config, roles, sources, maxBlob, maxTotal).Some?
    requires Known(roles, sources) ==> NoClash(c, root, roles, sources)
    ensures Known(roles, sources)
    ensures var m, result := ManifestOf(c, config, roles, sources), ResultOf(c, config, roles, sources);
            var before := JsonBytes(c, config, m);
            Checked(c, Built(c, root, config, roles, sources, maxBlob, maxTotal).value, limits) ==
            if JsonFits(c, config, m, limits) && !c.hasSecrets(config)
               && LayersAcceptable(c, roles, sources, before, limits) then
              Some(Validated(config, result.configDigest, result.manifestDigest, result.imageDigest,
                             result.layerDigests, before + SourceBytes(roles, sources)))
            else None
  {
    hide Built, LayersChecked, LayersAcceptable, Layers, Digests, InPlace, SourceBytes;
    BuiltHolds(c, root, config, roles, sources, maxBlob, maxTotal);
    var r := Built(c, root, config, roles, sources, maxBlob, maxTotal).value;
    var m := ManifestOf(c, config, roles, sources);
    assert c.readIndex(r.files["index.json"]) == Some(ImageIndex(c, m));
    assert c.readManifest(r.files["manifest.json"]) == Some(m);
    LayersVerified(c, r.blobs, roles, sources, JsonBytes(c, config, m), limits);
  }

  // ---- What an accepted root is, however it came about ----

  /** The blob a descriptor names is there, whole and unaltered. */
  ghost predicate Intact(c: Codec, blobs: map<Digest, seq<Byte>>, d: Descriptor) {
    d.digest in blobs && c.hash(blobs[d.digest]) == d.digest && |blobs[d.digest]| == d.size && LayerMedia(d.mediaType)
  }

  ghost function Sizes(layers: seq<Descriptor>): nat {
    if layers == [] then 0 else Sizes(layers[..|layers| - 1]) + layers[|layers| - 1].size
  }

  /** Layers that pass are intact, and their sizes are what was counted. */
  lemma {:induction false} LayersIntact(c: Codec, blobs: map<Digest, seq<Byte>>, layers: seq<Descriptor>, before: nat,
                                        limits: Limits)
    requires LayersChecked(c, blobs, layers, before, limits).Some?
    ensures forall i | 0 <= i < |layers| :: Intact(c, blobs, layers[i])
    ensures LayersChecked(c, blobs, layers, before, limits).value == before + Sizes(layers)
  {
    if layers != [] {
      LayersIntact(c, blobs, layers[..|layers| - 1], before, limits);
    }
  }

  /** The documents an accepted root was accepted for. */
  ghost predicate Accounts(c: Codec, root: Root, v: Validated, index: Index, m: Manifest) {
    && "index.json" in root.files && "manifest.json" in root.files
    && c.hash(root.files["index.json"]) == v.indexDigest && c.readIndex(root.files["index.json"]) == Some(index)
    && |index.manifests| == 1 && index.manifests[0].digest == v.manifestDigest
    && c.hash(root.files["manifest.json"]) == v.manifestDigest && c.readManifest(root.files["manifest.json"]) == Some(m)
    && v.configDigest == m.config.digest && v.configDigest in root.blobs
    && c.hash(root.blobs[v.configDigest]) == v.configDigest
    && c.readConfig(root.blobs[v.configDigest]) == Some(v.config)
    && v.layerDigests == Digests(m.layers)
    && forall i | 0 <= i < |m.layers| :: Intact(c, root.blobs, m.layers[i])
  }

  lemma CheckedAccounts(c: Codec, root: Root, limits: Limits) returns (index: Index, m: Manifest)
    requires Checked(c, root, limits).Some?
    ensures Accounts(c, root, Checked(c, root, limits).value, index, m)
  {
    hide LayersChecked, Intact, Digests;
    var before := |root.files["oci-layout"]| + |root.files["index.json"]| + |root.files["manifest.json"]|;
    index := c.readIndex(root.files["index.json"]).value;
    m := c.readManifest(root.files["manifest.json"]).value;
    LayersIntact(c, root.blobs, m.layers, before + |root.blobs[m.config.digest]|, limits);
  }

  /** Both roots hold these blobs, with the same contents. */
  ghost predicate SameBlobs(root: Root, root': Root, digests: seq<Digest>) {
    forall i | 0 <= i < |digests| ::
      digests[i] in root.blobs && digests[i] in root'.blobs && root.blobs[digests[i]] == root'.blobs[digests[i]]
  }

  /** Two accepted roots with one index digest hold one image: the same configuration, layer order and contents. */
  lemma IndexDigestIdentifies(c: Codec, root: Root, limits: Limits, root': Root, limits': Limits)
    requires CollisionFree(c) && Checked(c, root, limits).Some? && Checked(c, root', limits').Some?
    ensures var v, v' := Checked(c, root, limits).value, Checked(c, root', limits').value;
            v.indexDigest == v'.indexDigest ==>
              && v.config == v'.config && v.configDigest == v'.configDigest && v.manifestDigest == v'.manifestDigest
              && v.layerDigests == v'.layerDigests && SameBlobs(root, root', v.layerDigests)
  {
    hide Checked, Digests;
    var v, v' := Checked(c, root, limits).value, Checked(c, root', limits').value;
    var index, m := CheckedAccounts(c, root, limits);
    var index', m' := CheckedAccounts(c, root', limits');
    if v.indexDigest == v'.indexDigest {
      assert root.files["index.json"] == root'.files["index.json"];
      assert root.files["manifest.json"] == root'.files["manifest.json"];
      assert root.blobs[v.configDigest] == root'.blobs[v.configDigest];
      DigestAt(m.layers);
      forall i | 0 <= i < |v.layerDigests|
        ensures var d := v.layerDigests[i]; d in root.blobs && d in root'.blobs && root.blobs[d] == root'.blobs[d]
      {
        assert Intact(c, root.blobs, m.layers[i]) && Intact(c, root'.blobs, m'.layers[i]);
      }
    }
  }

  /** A root that is accepted with an image's digest holds that image, wherever it came from. */
  lemma ImageDigestProves(c: Codec, root: Root, limits: Limits, config: Config, roles: seq<string>, sources: Sources)
    requires ReadsBack(c) && CollisionFree(c) && Known(roles, sources) && Checked(c, root, limits).Some?
    requires Checked(c, root, limits).value.indexDigest == ResultOf(c, config, roles, sources).imageDigest
    ensures var v, result := Checked(c, root, limits).value, ResultOf(c, config, roles, sources);
            && v.config == config && v.configDigest == result.configDigest
            && v.manifestDigest == result.manifestDigest && v.layerDigests == result.layerDigests
            && forall i | 0 <= i < |roles| ::
                 c.hash(sources[roles[i]]) in root.blobs && root.blobs[c.hash(sources[roles[i]])] == sources[roles[i]]
  {
    hide Checked, Digests, Layers, ManifestOf, Intact;
    var v := Checked(c, root, limits).value;
    var index, m := CheckedAccounts(c, root, limits);
    var original := ManifestOf(c, config, roles, sources);
    assert root.files["index.json"] == c.printIndex(ImageIndex(c, original));
    assert Some(index) == Some(ImageIndex(c, original));
    assert root.files["manifest.json"] == c.printManifest(original);
    assert Some(m) == Some(original);
    ManifestOfConfig(c, config, roles, sources);
    assert root.blobs[v.configDigest] == c.printConfig(config);
    assert Some(v.config) == Some(config);
    hide ReadsBack, CollisionFree;
    forall i | 0 <= i < |roles|
      ensures c.hash(sources[roles[i]]) in root.blobs && root.blobs[c.hash(sources[roles[i]])] == sources[roles[i]]
    {
      LayerIsSource(c, root.blobs, roles, sources, i);
    }
  }

  lemma ManifestOfConfig(c: Codec, config: Config, roles: seq<string>, sources: Sources)
    requires Known(roles, sources)
    ensures ManifestOf(c, config, roles, sources).config.digest == c.hash(c.printConfig(config))
    ensures ManifestOf(c, config, roles, sources).layers == Layers(c, roles, sources)
  {
  }

  lemma LayerIsSource(c: Codec, blobs: map<Digest, seq<Byte>>, roles: seq<string>, sources: Sources, i: nat)
    requires CollisionFree(c) && Known(roles, sources) && i < |roles|
    requires Intact(c, blobs, Layers(c, roles, sources)[i])
    ensures c.hash(sources[roles[i]]) in blobs && blobs[c.hash(sources[roles[i]])] == sources[roles[i]]
  {
    hide Layers;
    LayerAt(c, roles, sources, i);
  }

  // ---- A layout that is assembled and not accepted ----

  const TWIN_ROLES := ["behavior", "tools"]

  function Twins(x: seq<Byte>): Sources {
    map["behavior" := x, "tools" := x]
  }

  lemma TwinsKnown(x: seq<Byte>)
    ensures Known(TWIN_ROLES, Twins(x)) && |TWIN_ROLES| == 2
    ensures SourceBytes(TWIN_ROLES, Twins(x)) == 2 * |x|
  {
    var roles := TWIN_ROLES;
    assert roles[..1] == ["behavior"] && roles[..1][..0] == [];
    assert SourceBytes(roles[..1], Twins(x)) == |x|;
  }

  lemma TwinsBuilt(c: Codec, config: Config, x: seq<Byte>, maxBlob: nat, maxTotal: nat)
    requires c.digestsValid(config) && |x| <= maxBlob && 2 * |x| <= maxTotal
    requires Known(TWIN_ROLES, Twins(x)) && Printable(c, config, ManifestOf(c, config, TWIN_ROLES, Twins(x)))
    requires c.hash(c.printConfig(config)) != c.hash(x)
    ensures Built(c, Root(map[], map[]), config, TWIN_ROLES, Twins(x), maxBlob, maxTotal).Some?
    ensures |TWIN_ROLES| == 2
  {
    TwinsKnown(x);
    TwinsStored(c, x, maxBlob);
    FreshFiles(c, ManifestOf(c, config, TWIN_ROLES, Twins(x)));
    hide StoredAll, WrittenFiles, Printable, ManifestOf, SourceBytes;
    SevenRoles();
  }

  lemma SevenRoles()
    ensures |ROLE_MEDIA_TYPES| >= 2
  {
    assert {"behavior", "tools"} <= ROLE_MEDIA_TYPES.Keys;
    assert "behavior"[0] != "tools"[0];
    CountTwo(ROLE_MEDIA_TYPES.Keys, "behavior", "tools");
  }

  lemma CountTwo(s: set<string>, a: string, b: string)
    requires a in s && b in s && a != b
    ensures |s| >= 2
  {
    assert |s - {a}| == |s| - 1;
    assert b in s - {a};
  }

  /** Two roles with the same content are assembled into a layout that validation refuses, whatever its limits. */
  lemma EqualContentsDoNotValidate(c: Codec, config: Config, x: seq<Byte>, maxBlob: nat, maxTotal: nat, limits: Limits)
    requires ReadsBack(c) && c.digestsValid(config) && |x| <= maxBlob && 2 * |x| <= maxTotal
    requires Known(TWIN_ROLES, Twins(x)) && Printable(c, config, ManifestOf(c, config, TWIN_ROLES, Twins(x)))
    requires c.hash(c.printConfig(config)) != c.hash(x)
    ensures var built := Built(c, Root(map[], map[]), config, TWIN_ROLES, Twins(x), maxBlob, maxTotal);
            built.Some? && Checked(c, built.value, limits).None?
  {
    TwinsBuilt(c, config, x, maxBlob, maxTotal);
    hide Checked, Built, ManifestOf, Known, ReadsBack, Printable, JsonFits, AllWithin, SourceBytes, ResultOf;
    AssembleThenValidate(c, Root(map[], map[]), config, TWIN_ROLES, Twins(x), maxBlob, maxTotal, limits);
    assert !DigestsDiffer(c, TWIN_ROLES, Twins(x)) by {
      assert c.hash(Twins(x)[TWIN_ROLES[0]]) == c.hash(Twins(x)[TWIN_ROLES[1]]);
    }
  }

  lemma TwinsStored(c: Codec, x: seq<Byte>, maxBlob: nat)
    requires |x| <= maxBlob && Known(TWIN_ROLES, Twins(x))
    ensures StoredAll(c, map[], TWIN_ROLES, Twins(x), maxBlob) == Some(map[c.hash(x) := x])
  {
    var roles := TWIN_ROLES;
    assert roles[..1] == ["behavior"] && roles[..1][..0] == [];
    assert StoredAll(c, map[], roles[..1], Twins(x), maxBlob) == Some(map[c.hash(x) := x]);
  }

  lemma FreshFiles(c: Codec, m: Manifest)
    ensures WrittenFiles(c, map[], m).Some?
  {
    assert "index.json"[0] != "oci-layout"[0] && "index.json"[0] != "manifest.json"[0]
        && "oci-layout"[0] != "manifest.json"[0];
    hide ImageIndex;
  }
}
