/** Exactly which roots are accepted, which images can be assembled, and what assembling leaves alone. */
module LayoutChecks {
  import opened Options
  import opened Bytes
  import opened Layout
  import opened LayoutLaws

  // ---- Accepted roots ----

  /** A layer that is known, present, whole and not too long. */
  ghost predicate LayerFine(c: Codec, blobs: map<Digest, seq<Byte>>, d: Descriptor, limits: Limits) {
    && d.mediaType in ROLE_MEDIA_TYPES.Values && d.digest in blobs
    && c.hash(blobs[d.digest]) == d.digest && |blobs[d.digest]| == d.size <= limits.maxBlob
  }

  /** Layers that are all fine, with different digests, and not too long together with the documents. */
  ghost predicate LayersFine(c: Codec, blobs: map<Digest, seq<Byte>>, layers: seq<Descriptor>, before: nat,
                             limits: Limits) {
    && (forall i, j | 0 <= i < j < |layers| :: layers[i].digest != layers[j].digest)
    && (forall i | 0 <= i < |layers| :: LayerFine(c, blobs, layers[i], limits))
    && (layers != [] ==> before + Sizes(layers) <= limits.maxTotal)
  }

  lemma OkIsFine(c: Codec, blobs: map<Digest, seq<Byte>>, d: Descriptor, before: nat, limits: Limits)
    ensures LayerOk(c, blobs, d, before, limits) <==>
              LayerFine(c, blobs, d, limits) && before + d.size <= limits.maxTotal
  {
  }

  lemma InDigests(layers: seq<Descriptor>, digest: Digest)
    ensures digest in Digests(layers) <==> exists i :: 0 <= i < |layers| && layers[i].digest == digest
  {
    DigestAt(layers);
    hide Digests;
    if digest in Digests(layers) {
      var i :| 0 <= i < |layers| && Digests(layers)[i] == digest;
      assert layers[i].digest == digest;
    }
    if i :| 0 <= i < |layers| && layers[i].digest == digest { assert Digests(layers)[i] == digest; }
  }

  lemma FineStep(c: Codec, blobs: map<Digest, seq<Byte>>, layers: seq<Descriptor>, before: nat, limits: Limits)
    requires layers != []
    ensures var front, d := layers[..|layers| - 1], layers[|layers| - 1];
            LayersFine(c, blobs, layers, before, limits) <==>
              && LayersFine(c, blobs, front, before, limits) && d.digest !in Digests(front)
              && LayerOk(c, blobs, d, before + Sizes(front), limits)
  {
    var front, d := layers[..|layers| - 1], layers[|layers| - 1];
    InDigests(front, d.digest);
    OkIsFine(c, blobs, d, before + Sizes(front), limits);
    assert Sizes(layers) == Sizes(front) + d.size;
    hide Sizes, Digests, LayerFine, LayerOk;
    assert forall i | 0 <= i < |front| :: layers[i] == front[i];
    if LayersFine(c, blobs, layers, before, limits) {
      assert LayerFine(c, blobs, layers[|front|], limits);
      forall i | 0 <= i < |front| ensures front[i].digest != d.digest && LayerFine(c, blobs, front[i], limits) {
        assert layers[i].digest != layers[|front|].digest && LayerFine(c, blobs, layers[i], limits);
      }
    }
  }

  lemma {:induction false} LayersCheckedIff(c: Codec, blobs: map<Digest, seq<Byte>>, layers: seq<Descriptor>,
                                            before: nat, limits: Limits)
    ensures LayersChecked(c, blobs, layers, before, limits).Some? <==> LayersFine(c, blobs, layers, before, limits)
    ensures LayersFine(c, blobs, layers, before, limits) ==>
              LayersChecked(c, blobs, layers, before, limits) == Some(before + Sizes(layers))
  {
    if layers != [] {
      FineStep(c, blobs, layers, before, limits);
      hide LayersFine, LayerOk, Digests;
      LayersCheckedIff(c, blobs, layers[..|layers| - 1], before, limits);
    }
  }

  /** A document that is there and within both limits. */
  ghost predicate Document(files: map<string, seq<Byte>>, name: string, limits: Limits) {
    name in files && |files[name]| <= limits.maxJson && |files[name]| <= limits.maxBlob
  }

  /** The index names one manifest, by its digest and size. */
  ghost predicate IndexFine(c: Codec, root: Root, limits: Limits, index: Index) {
    && Document(root.files, "manifest.json", limits)
    && index.schema == 2 && index.mediaType == "application/vnd.oci.image.index.v1+json"
    && |index.manifests| == 1
    && var d, bytes := index.manifests[0], root.files["manifest.json"];
       && d.mediaType == "application/vnd.oci.image.manifest.v1+json" && d.digest == c.hash(bytes) && d.size == |bytes|
  }

  /** The manifest names a configuration, by its digest and size, that holds no secrets and has valid digests. */
  ghost predicate ManifestFine(c: Codec, root: Root, limits: Limits, m: Manifest, config: Config) {
    && m.schema == 2 && m.mediaType == "application/vnd.oci.image.manifest.v1+json"
    && m.config.mediaType == "application/vnd.zana.image.config.v1+json"
    && Document(root.blobs, m.config.digest, limits)
    && var bytes := root.blobs[m.config.digest];
       && c.hash(bytes) == m.config.digest && |bytes| == m.config.size && c.readConfig(bytes) == Some(config)
       && !c.hasSecrets(config) && c.digestsValid(config)
  }

  ghost function DocumentBytes(root: Root, m: Manifest): nat
    requires "oci-layout" in root.files && "index.json" in root.files && "manifest.json" in root.files
    requires m.config.digest in root.blobs
  {
    |root.files["oci-layout"]| + |root.files["index.json"]| + |root.files["manifest.json"]|
        + |root.blobs[m.config.digest]|
  }

  /** Everything an accepted root is accepted for. */
  ghost predicate Meets(c: Codec, root: Root, limits: Limits, index: Index, m: Manifest, config: Config) {
    && Document(root.files, "oci-layout", limits) && c.readVersion(root.files["oci-layout"]) == Some("1.0.0")
    && Document(root.files, "index.json", limits) && c.readIndex(root.files["index.json"]) == Some(index)
    && IndexFine(c, root, limits, index) && c.readManifest(root.files["manifest.json"]) == Some(m)
    && ManifestFine(c, root, limits, m, config)
    && LayersFine(c, root.blobs, m.layers, DocumentBytes(root, m), limits)
  }

  ghost function Outcome(c: Codec, root: Root, m: Manifest, config: Config): Validated
    requires "oci-layout" in root.files && "index.json" in root.files && "manifest.json" in root.files
    requires m.config.digest in root.blobs
  {
    Validated(config, m.config.digest, c.hash(root.files["manifest.json"]), c.hash(root.files["index.json"]),
              Digests(m.layers), DocumentBytes(root, m) + Sizes(m.layers))
  }

  /** A root that meets all of it is accepted, and what validation reports is what it read and counted. */
  lemma Accepts(c: Codec, root: Root, limits: Limits, index: Index, m: Manifest, config: Config)
    requires Meets(c, root, limits, index, m, config)
    ensures Checked(c, root, limits) == Some(Outcome(c, root, m, config))
  {
    LayersCheckedIff(c, root.blobs, m.layers, DocumentBytes(root, m), limits);
    hide LayersChecked, LayersFine, Digests, Sizes;
  }

  /** And only such a root is. */
  lemma AcceptsOnly(c: Codec, root: Root, limits: Limits) returns (index: Index, m: Manifest, config: Config)
    requires Checked(c, root, limits).Some?
    ensures Meets(c, root, limits, index, m, config)
    ensures Checked(c, root, limits) == Some(Outcome(c, root, m, config))
  {
    hide LayersChecked, LayersFine, Digests, Sizes;
    index := c.readIndex(root.files["index.json"]).value;
    m := c.readManifest(root.files["manifest.json"]).value;
    config := c.readConfig(root.blobs[m.config.digest]).value;
    LayersCheckedIff(c, root.blobs, m.layers, DocumentBytes(root, m), limits);
  }

  /** Validation accepts a root if and only if it meets everything asked of it. */
  lemma AcceptedIff(c: Codec, root: Root, limits: Limits)
    ensures Checked(c, root, limits).Some? <==>
              exists index, m, config :: Meets(c, root, limits, index, m, config)
  {
    hide Checked, Meets;
    if Checked(c, root, limits).Some? {
      var index, m, config := AcceptsOnly(c, root, limits);
    }
    if index, m, config :| Meets(c, root, limits, index, m, config) {
      Accepts(c, root, limits, index, m, config);
    }
  }

  // ---- Assembled images ----

  /** The manifest of an image, told field by field. */
  ghost predicate Describes(c: Codec, config: Config, roles: seq<string>, sources: Sources, m: Manifest)
    requires Known(roles, sources)
  {
    var bytes := c.printConfig(config);
    && m.schema == 2 && m.mediaType == "application/vnd.oci.image.manifest.v1+json"
    && m.config == Descriptor("application/vnd.zana.image.config.v1+json", c.hash(bytes), |bytes|, None)
    && |m.layers| == |roles|
    && forall i | 0 <= i < |roles| ::
         m.layers[i] == Descriptor(ROLE_MEDIA_TYPES[roles[i]], c.hash(sources[roles[i]]), |sources[roles[i]]|,
                                   Some(roles[i]))
  }

  lemma ManifestDescribes(c: Codec, config: Config, roles: seq<string>, sources: Sources)
    requires Known(roles, sources)
    ensures Describes(c, config, roles, sources, ManifestOf(c, config, roles, sources))
  {
    hide Layers;
    forall i | 0 <= i < |roles| ensures Layers(c, roles, sources)[i] == LayerOf(c, roles[i], sources) {
      LayerAt(c, roles, sources, i);
    }
  }

  /** What is already there stays, and under one name there is never anything else. */
  ghost predicate Fits(files: map<string, seq<Byte>>, name: string, data: seq<Byte>) {
    name in files ==> files[name] == data
  }

  /** A blob already there under a source's digest has that digest and is not too long. */
  ghost predicate SourcesFit(c: Codec, blobs: map<Digest, seq<Byte>>, roles: seq<string>, sources: Sources,
                             maxBlob: nat)
    requires Known(roles, sources)
  {
    forall i | 0 <= i < |roles| && c.hash(sources[roles[i]]) in blobs ::
      Held(c, blobs, c.hash(sources[roles[i]]), maxBlob)
  }

  lemma FitsFront(c: Codec, blobs: map<Digest, seq<Byte>>, roles: seq<string>, sources: Sources, maxBlob: nat)
    requires Known(roles, sources) && roles != []
    ensures var front, d := roles[..|roles| - 1], c.hash(sources[roles[|roles| - 1]]);
            SourcesFit(c, blobs, roles, sources, maxBlob) <==>
              SourcesFit(c, blobs, front, sources, maxBlob) && (d in blobs ==> Held(c, blobs, d, maxBlob))
  {
    hide Held;
    var front, last := roles[..|roles| - 1], roles[|roles| - 1];
    assert roles == front + [last];
  }

  /** Where a digest comes from once blobs are stored: from before, or from a source. */
  lemma StoredFrom(c: Codec, blobs: map<Digest, seq<Byte>>, roles: seq<string>, sources: Sources, maxBlob: nat,
                   d: Digest)
    requires Known(roles, sources) && AllWithin(roles, sources, maxBlob)
    requires StoredAll(c, blobs, roles, sources, maxBlob).Some?
    ensures var b := StoredAll(c, blobs, roles, sources, maxBlob).value;
            && (d in blobs ==> d in b && b[d] == blobs[d])
            && (d in b && d !in blobs ==> Held(c, b, d, maxBlob))
  {
    StoringKeeps(c, blobs, roles, sources, maxBlob);
    hide StoredAll, Held;
    var b := StoredAll(c, blobs, roles, sources, maxBlob).value;
    if d in b && d !in blobs {
      if forall j | 0 <= j < |roles| :: c.hash(sources[roles[j]]) != d {
        OnlyOwnDigests(c, blobs, roles, sources, maxBlob, d);
      }
    }
  }

  /** Storing the sources succeeds exactly when nothing else is under their digests. */
  lemma {:induction false} StoredIff(c: Codec, blobs: map<Digest, seq<Byte>>, roles: seq<string>, sources: Sources,
                                     maxBlob: nat)
    requires Known(roles, sources) && AllWithin(roles, sources, maxBlob)
    ensures StoredAll(c, blobs, roles, sources, maxBlob).Some? <==> SourcesFit(c, blobs, roles, sources, maxBlob)
  {
    if roles != [] {
      var front, d := roles[..|roles| - 1], c.hash(sources[roles[|roles| - 1]]);
      StoredIff(c, blobs, front, sources, maxBlob);
      FitsFront(c, blobs, roles, sources, maxBlob);
      hide SourcesFit;
      if StoredAll(c, blobs, front, sources, maxBlob).Some? {
        StoredFrom(c, blobs, front, sources, maxBlob, d);
      }
    }
  }

  /** The configuration is not stored over another blob: neither one from before, nor the first source with its
      digest. */
  ghost predicate ConfigFits(c: Codec, blobs: map<Digest, seq<Byte>>, bytes: seq<Byte>, roles: seq<string>,
                             sources: Sources)
    requires Known(roles, sources)
  {
    && Fits(blobs, c.hash(bytes), bytes)
    && (c.hash(bytes) !in blobs ==>
          forall i: nat | i < |roles| && FirstOf(c, roles, sources, i) && c.hash(sources[roles[i]]) == c.hash(bytes) ::
            sources[roles[i]] == bytes)
  }

  /** A new digest comes with the first source that has it. */
  lemma {:induction false} NewContent(c: Codec, blobs: map<Digest, seq<Byte>>, roles: seq<string>, sources: Sources,
                                      maxBlob: nat, i: nat)
    requires Known(roles, sources) && i < |roles| && FirstOf(c, roles, sources, i)
    requires c.hash(sources[roles[i]]) !in blobs && StoredAll(c, blobs, roles, sources, maxBlob).Some?
    ensures var b, d := StoredAll(c, blobs, roles, sources, maxBlob).value, c.hash(sources[roles[i]]);
            d in b && b[d] == sources[roles[i]]
    decreases |roles|
  {
    var front := roles[..|roles| - 1];
    if i < |roles| - 1 {
      NewContent(c, blobs, front, sources, maxBlob, i);
    } else {
      OnlyOwnDigests(c, blobs, front, sources, maxBlob, c.hash(sources[roles[i]]));
    }
  }

  lemma {:induction false} SomeFirst(c: Codec, roles: seq<string>, sources: Sources, j: nat) returns (i: nat)
    requires Known(roles, sources) && j < |roles|
    ensures i <= j && FirstOf(c, roles, sources, i) && c.hash(sources[roles[i]]) == c.hash(sources[roles[j]])
    decreases j
  {
    if k: nat :| k < j && c.hash(sources[roles[k]]) == c.hash(sources[roles[j]]) {
      i := SomeFirst(c, roles, sources, k);
    } else {
      i := j;
    }
  }

  lemma ConfigFitsIff(c: Codec, blobs: map<Digest, seq<Byte>>, bytes: seq<Byte>, roles: seq<string>,
                      sources: Sources, maxBlob: nat)
    requires Known(roles, sources) && AllWithin(roles, sources, maxBlob)
    requires StoredAll(c, blobs, roles, sources, maxBlob).Some?
    ensures ConfigFits(c, blobs, bytes, roles, sources) <==>
              Fits(StoredAll(c, blobs, roles, sources, maxBlob).value, c.hash(bytes), bytes)
  {
    var d := c.hash(bytes);
    StoredFrom(c, blobs, roles, sources, maxBlob, d);
    hide StoredAll, FirstOf, Held;
    if d !in blobs {
      if j: nat :| j < |roles| && c.hash(sources[roles[j]]) == d {
        var i := SomeFirst(c, roles, sources, j);
        NewContent(c, blobs, roles, sources, maxBlob, i);
        forall k: nat | k < |roles| && FirstOf(c, roles, sources, k) && c.hash(sources[roles[k]]) == d
          ensures sources[roles[k]] == sources[roles[i]]
        {
          NewContent(c, blobs, roles, sources, maxBlob, k);
        }
      } else {
        OnlyOwnDigests(c, blobs, roles, sources, maxBlob, d);
      }
    }
  }

  ghost predicate FilesFit(c: Codec, files: map<string, seq<Byte>>, m: Manifest) {
    && Fits(files, "index.json", c.printIndex(ImageIndex(c, m)))
    && Fits(files, "oci-layout", c.printVersion("1.0.0"))
    && Fits(files, "manifest.json", c.printManifest(m))
  }

  lemma FilesIff(c: Codec, files: map<string, seq<Byte>>, m: Manifest)
    ensures WrittenFiles(c, files, m).Some? <==> FilesFit(c, files, m)
    ensures FilesFit(c, files, m) ==>
              WrittenFiles(c, files, m).value ==
              files["index.json" := c.printIndex(ImageIndex(c, m))]["oci-layout" := c.printVersion("1.0.0")]
                  ["manifest.json" := c.printManifest(m)]
  {
    assert "index.json"[0] != "oci-layout"[0] && "index.json"[0] != "manifest.json"[0]
        && "oci-layout"[0] != "manifest.json"[0];
    hide ImageIndex;
  }

  /** What the preflight asks: valid digests, known roles, few and small enough sources, and documents within the
      canonical limit. */
  ghost predicate Passes(c: Codec, config: Config, roles: seq<string>, sources: Sources, maxBlob: nat, maxTotal: nat) {
    && c.digestsValid(config) && |roles| <= |ROLE_MEDIA_TYPES|
    && (forall i | 0 <= i < |roles| ::
          roles[i] in sources && roles[i] in ROLE_MEDIA_TYPES && |sources[roles[i]]| <= maxBlob)
    && Known(roles, sources) && SourceBytes(roles, sources) <= maxTotal
    && var m := ManifestOf(c, config, roles, sources);
       && |c.printConfig(config)| <= 1048576 && |c.printManifest(m)| <= 1048576
       && |c.printIndex(ImageIndex(c, m))| <= 1048576 && |c.printVersion("1.0.0")| <= 1048576
  }

  /** An image is assembled if and only if the preflight passes and nothing else is under a name it needs. */
  lemma AssembledIff(c: Codec, root: Root, config: Config, roles: seq<string>, sources: Sources, maxBlob: nat,
                     maxTotal: nat)
    ensures Built(c, root, config, roles, sources, maxBlob, maxTotal).Some? <==>
              && Passes(c, config, roles, sources, maxBlob, maxTotal)
              && SourcesFit(c, root.blobs, roles, sources, maxBlob)
              && ConfigFits(c, root.blobs, c.printConfig(config), roles, sources)
              && FilesFit(c, root.files, ManifestOf(c, config, roles, sources))
  {
    hide StoredAll, WrittenFiles, ManifestOf, ImageIndex, SourceBytes, SourcesFit, ConfigFits, FilesFit;
    assert Ready(c, config, roles, sources, maxBlob, maxTotal) <==>
           Passes(c, config, roles, sources, maxBlob, maxTotal);
    if Ready(c, config, roles, sources, maxBlob, maxTotal) {
      hide Ready, Passes;
      ReadyKnown(c, config, roles, sources, maxBlob, maxTotal);
      StoredIff(c, root.blobs, roles, sources, maxBlob);
      FilesIff(c, root.files, ManifestOf(c, config, roles, sources));
      if StoredAll(c, root.blobs, roles, sources, maxBlob).Some? {
        ConfigFitsIff(c, root.blobs, c.printConfig(config), roles, sources, maxBlob);
      }
    }
  }

  /** Assembling adds its three documents, its configuration and its sources' digests, and leaves the rest of the root
      as it was. */
  lemma AssemblyAdds(c: Codec, root: Root, config: Config, roles: seq<string>, sources: Sources, maxBlob: nat,
                     maxTotal: nat)
    requires Built(c, root, config, roles, sources, maxBlob, maxTotal).Some?
    ensures Known(roles, sources)
    ensures var r, m := Built(c, root, config, roles, sources, maxBlob, maxTotal).value,
                        ManifestOf(c, config, roles, sources);
            && Describes(c, config, roles, sources, m)
            && r.files == root.files["index.json" := c.printIndex(ImageIndex(c, m))]
                              ["oci-layout" := c.printVersion("1.0.0")]["manifest.json" := c.printManifest(m)]
            && Keeps(root.files, r.files) && Keeps(root.blobs, r.blobs)
            && (forall i | 0 <= i < |roles| :: Held(c, r.blobs, c.hash(sources[roles[i]]), maxBlob))
            && (forall i: nat | i < |roles| && FirstOf(c, roles, sources, i) ::
                  c.hash(sources[roles[i]]) in root.blobs || r.blobs[c.hash(sources[roles[i]])] == sources[roles[i]])
            && c.hash(c.printConfig(config)) in r.blobs
            && r.blobs[c.hash(c.printConfig(config))] == c.printConfig(config)
            && forall d | d in r.blobs && d !in root.blobs ::
                 d == c.hash(c.printConfig(config)) || exists i :: 0 <= i < |roles| && d == c.hash(sources[roles[i]])
  {
    hide StoredAll, Ready, WrittenFiles, ManifestOf, Keeps, Held, Known, AllWithin, Describes, ImageIndex,
         FirstOf;
    ReadyKnown(c, config, roles, sources, maxBlob, maxTotal);
    var m := ManifestOf(c, config, roles, sources);
    var r := Built(c, root, config, roles, sources, maxBlob, maxTotal).value;
    var stored := StoredAll(c, root.blobs, roles, sources, maxBlob).value;
    ManifestDescribes(c, config, roles, sources);
    FilesIff(c, root.files, m);
    FilesKept(c, root.files, m);
    StoringKeeps(c, root.blobs, roles, sources, maxBlob);
    InstallingKeeps(stored, c.hash(c.printConfig(config)), c.printConfig(config));
    KeepsOnward(root.blobs, stored, r.blobs);
    forall i | 0 <= i < |roles| ensures Held(c, r.blobs, c.hash(sources[roles[i]]), maxBlob) {
      StillHeld(c, stored, r.blobs, c.hash(sources[roles[i]]), maxBlob);
    }
    forall i: nat | i < |roles| && FirstOf(c, roles, sources, i) && c.hash(sources[roles[i]]) !in root.blobs
      ensures c.hash(sources[roles[i]]) in r.blobs && r.blobs[c.hash(sources[roles[i]])] == sources[roles[i]]
    {
      NewContent(c, root.blobs, roles, sources, maxBlob, i);
      KeptValue(stored, r.blobs, c.hash(sources[roles[i]]));
    }
    forall d | d in r.blobs && d !in root.blobs && d != c.hash(c.printConfig(config))
      ensures exists i :: 0 <= i < |roles| && d == c.hash(sources[roles[i]])
    {
      if forall j | 0 <= j < |roles| :: c.hash(sources[roles[j]]) != d {
        OnlyOwnDigests(c, root.blobs, roles, sources, maxBlob, d);
      }
    }
  }

  lemma KeepsOnward(a: map<Digest, seq<Byte>>, b: map<Digest, seq<Byte>>, d: map<Digest, seq<Byte>>)
    requires Keeps(a, b) && Keeps(b, d)
    ensures Keeps(a, d)
  {
  }

  lemma FilesKept(c: Codec, files: map<string, seq<Byte>>, m: Manifest)
    requires WrittenFiles(c, files, m).Some?
    ensures Keeps(files, WrittenFiles(c, files, m).value)
  {
    hide ImageIndex;
  }
}
