/** Assembling and validating layouts in place, and what the two owe each other. */
module ImageLayout {
  import opened Options
  import opened Bytes
  import opened Ordering
  import opened Layout

  // ---- The two operations ----

  class LayoutDir {
    var files: map<string, seq<Byte>>
    var blobs: map<Digest, seq<Byte>>

    constructor (root: Root)
      ensures files == root.files && blobs == root.blobs
    {
      files, blobs := root.files, root.blobs;
    }

    function Contents(): Root
      reads this
    {
      Root(files, blobs)
    }

    method Install(name: string, data: seq<Byte>) returns (ok: bool)
      modifies `files
      ensures ok <==> Installed(old(files), name, data).Some?
      ensures files == if ok then Installed(old(files), name, data).value else old(files)
    {
      if name in files { return files[name] == data; }
      files := files[name := data];
      return true;
    }

    method InstallBlob(name: Digest, data: seq<Byte>) returns (ok: bool)
      modifies `blobs
      ensures ok <==> Installed(old(blobs), name, data).Some?
      ensures blobs == if ok then Installed(old(blobs), name, data).value else old(blobs)
    {
      if name in blobs { return blobs[name] == data; }
      blobs := blobs[name := data];
      return true;
    }

    method StreamBlob(c: Codec, content: seq<Byte>, maxBlob: nat) returns (digest: Option<Digest>)
      modifies `blobs
      ensures digest.Some? <==> Stored(c, old(blobs), content, maxBlob).Some?
      ensures digest.Some? ==> digest.value == c.hash(content) && blobs == Stored(c, old(blobs), content, maxBlob).value
      ensures digest.None? ==> blobs == old(blobs)
    {
      var d := c.hash(content);
      if d in blobs {
        if c.hash(blobs[d]) != d || |blobs[d]| > maxBlob { return None; }
      } else {
        blobs := blobs[d := content];
      }
      return Some(d);
    }

    /** `assemble_oci_layout` for a mapping whose keys come in this order. */
    method Assemble(c: Codec, config: Config, keys: seq<string>, sources: Sources, maxBlob: nat, maxTotal: nat)
      returns (result: Option<Result>)
      requires forall i | 0 <= i < |keys| :: keys[i] in sources
      modifies this
      ensures result.Some? <==> Built(c, old(Contents()), config, Sorted(keys), sources, maxBlob, maxTotal).Some?
      ensures result.Some? ==>
                && Contents() == Built(c, old(Contents()), config, Sorted(keys), sources, maxBlob, maxTotal).value
                && Known(Sorted(keys), sources) && result.value == ResultOf(c, config, Sorted(keys), sources)
    {
      hide Sorted, Written, Known, AllWithin, SourceBytes, Printable, ManifestOf, ImageIndex, Digests, Layers;
      if !c.digestsValid(config) { return None; }
      SortedKnown(keys, sources);
      var known := KnownRoles(keys, sources);
      if !known || |keys| > |ROLE_MEDIA_TYPES| { return None; }
      var roles := Sorted(keys);
      var fits := Preflight(roles, sources, maxBlob, maxTotal);
      if !fits || !Printable(c, config, ManifestOf(c, config, roles, sources)) { return None; }
      result := Write(c, config, roles, sources, maxBlob);
    }

    /** Everything after the preflight. */
    method Write(c: Codec, config: Config, roles: seq<string>, sources: Sources, maxBlob: nat)
      returns (result: Option<Result>)
      requires Known(roles, sources)
      modifies this
      ensures result.Some? <==> Written(c, old(Contents()), config, roles, sources, maxBlob).Some?
      ensures result.Some? ==>
                && Contents() == Written(c, old(Contents()), config, roles, sources, maxBlob).value
                && result.value == ResultOf(c, config, roles, sources)
    {
      hide StoredAll, Installed, WrittenFiles, Digests, Layers, Known;
      var m := ManifestOf(c, config, roles, sources);
      var digests := StreamAll(c, roles, sources, maxBlob);
      if digests.None? { return None; }
      var configBytes := c.printConfig(config);
      var ok := InstallBlob(c.hash(configBytes), configBytes);
      if !ok { return None; }
      ok := WriteFiles(c, m);
      if !ok { return None; }
      return Some(Result(c.hash(configBytes), c.hash(c.printManifest(m)), c.hash(c.printIndex(ImageIndex(c, m))),
                         digests.value));
    }

    method WriteFiles(c: Codec, m: Manifest) returns (ok: bool)
      modifies `files
      ensures ok <==> WrittenFiles(c, old(files), m).Some?
      ensures ok ==> files == WrittenFiles(c, old(files), m).value
    {
      hide Installed, ImageIndex;
      ok := Install("index.json", c.printIndex(ImageIndex(c, m)));
      if !ok { return; }
      ok := Install("oci-layout", c.printVersion(OCI_LAYOUT_VERSION));
      if !ok { return; }
      ok := Install("manifest.json", c.printManifest(m));
    }

    /** The loop that streams every source, in role order. */
    method StreamAll(c: Codec, roles: seq<string>, sources: Sources, maxBlob: nat)
      returns (digests: Option<seq<Digest>>)
      requires Known(roles, sources)
      modifies `blobs
      ensures digests.Some? <==> StoredAll(c, old(blobs), roles, sources, maxBlob).Some?
      ensures digests.Some? ==>
                && blobs == StoredAll(c, old(blobs), roles, sources, maxBlob).value
                && digests.value == Digests(Layers(c, roles, sources))
    {
      NoRoles(c, blobs, sources, maxBlob);
      hide Stored, StoredAll, Layers, Digests;
      var collected: seq<Digest> := [];
      assert roles[..0] == [];
      for i := 0 to |roles|
        invariant Known(roles[..i], sources)
        invariant StoredAll(c, old(blobs), roles[..i], sources, maxBlob) == Some(blobs)
        invariant collected == Digests(Layers(c, roles[..i], sources))
      {
        NextRole(c, old(blobs), roles, i, sources, maxBlob);
        var digest := StreamBlob(c, sources[roles[i]], maxBlob);
        if digest.None? {
          RefusedRole(c, old(blobs), roles, i + 1, sources, maxBlob);
          return None;
        }
        collected := collected + [digest.value];
      }
      assert roles[..|roles|] == roles;
      return Some(collected);
    }

    /** `validate_oci_layout` */
    method Validate(c: Codec, limits: Limits) returns (valid: Option<Validated>)
      ensures valid == Checked(c, Contents(), limits)
    {
      hide LayerOk, Digests, LayersChecked;
      var layoutBytes := ReadBytes(files, "oci-layout", limits);
      if layoutBytes.None? || c.readVersion(layoutBytes.value) != Some(OCI_LAYOUT_VERSION) { return None; }
      var indexBytes := ReadBytes(files, "index.json", limits);
      if indexBytes.None? { return None; }
      var index := c.readIndex(indexBytes.value);
      if index.None? || index.value.schema != 2 || index.value.mediaType != MEDIA_TYPE_OCI_INDEX { return None; }
      if |index.value.manifests| != 1 || index.value.manifests[0].mediaType != MEDIA_TYPE_OCI_MANIFEST { return None; }
      var manifestBytes := ReadBytes(files, "manifest.json", limits);
      if manifestBytes.None? { return None; }
      var d := index.value.manifests[0];
      if c.hash(manifestBytes.value) != d.digest || |manifestBytes.value| != d.size { return None; }
      var manifest := c.readManifest(manifestBytes.value);
      if manifest.None? { return None; }
      var m := manifest.value;
      if m.schema != 2 || m.mediaType != MEDIA_TYPE_OCI_MANIFEST || m.config.mediaType != MEDIA_TYPE_ZANA_CONFIG {
        return None;
      }
      var configBytes := ReadBytes(blobs, m.config.digest, limits);
      if configBytes.None? { return None; }
      if c.hash(configBytes.value) != m.config.digest || |configBytes.value| != m.config.size { return None; }
      var config := c.readConfig(configBytes.value);
      if config.None? || c.hasSecrets(config.value) || !c.digestsValid(config.value) { return None; }
      var before := |indexBytes.value| + |layoutBytes.value| + |manifestBytes.value| + |configBytes.value|;
      var total := VerifyLayers(c, m.layers, before, limits);
      if total.None? { return None; }
      return Some(Validated(config.value, m.config.digest, d.digest, c.hash(indexBytes.value), Digests(m.layers),
                            total.value));
    }

    /** The loop over the layers, refusing a digest it has seen. */
    method VerifyLayers(c: Codec, layers: seq<Descriptor>, before: nat, limits: Limits) returns (total: Option<nat>)
      ensures total == LayersChecked(c, blobs, layers, before, limits)
    {
      NoLayers(c, blobs, before, limits);
      hide LayersChecked, Digests, LayerOk;
      var seen: set<Digest> := {};
      var sum := before;
      assert layers[..0] == [];
      for i := 0 to |layers|
        invariant LayersChecked(c, blobs, layers[..i], before, limits) == Some(sum)
        invariant forall d :: d in seen <==> d in Digests(layers[..i])
      {
        NextLayer(c, blobs, layers, i, before, limits);
        var d := layers[i];
        if d.digest in seen || !LayerOk(c, blobs, d, sum, limits) {
          RefusedLayer(c, blobs, layers, i + 1, before, limits);
          return None;
        }
        seen := seen + {d.digest};
        sum := sum + d.size;
      }
      assert layers[..|layers|] == layers;
      return Some(sum);
    }
  }

  method KnownRoles(keys: seq<string>, sources: Sources) returns (known: bool)
    requires forall i | 0 <= i < |keys| :: keys[i] in sources
    ensures known <==> Known(keys, sources)
  {
    for i := 0 to |keys|
      invariant Known(keys[..i], sources)
    {
      if keys[i] !in ROLE_MEDIA_TYPES {
        assert !Known(keys, sources);
        return false;
      }
    }
    assert keys[..|keys|] == keys;
    return true;
  }

  /** The preflight over the sorted roles: every size, and their running total. */
  method Preflight(roles: seq<string>, sources: Sources, maxBlob: nat, maxTotal: nat) returns (fits: bool)
    requires Known(roles, sources)
    ensures fits <==> AllWithin(roles, sources, maxBlob) && SourceBytes(roles, sources) <= maxTotal
  {
    var total := 0;
    assert roles[..0] == [];
    for i := 0 to |roles|
      invariant total == SourceBytes(roles[..i], sources) <= maxTotal
      invariant AllWithin(roles[..i], sources, maxBlob)
    {
      TotalStep(roles, i, sources);
      if |sources[roles[i]]| > maxBlob {
        assert !AllWithin(roles, sources, maxBlob);
        return false;
      }
      total := total + |sources[roles[i]]|;
      if total > maxTotal {
        TotalGrows(roles, i + 1, sources);
        return false;
      }
    }
    assert roles[..|roles|] == roles;
    return true;
  }

  lemma TotalStep(roles: seq<string>, i: nat, sources: Sources)
    requires Known(roles, sources) && i < |roles|
    ensures Known(roles[..i], sources) && Known(roles[..i + 1], sources)
    ensures SourceBytes(roles[..i + 1], sources) == SourceBytes(roles[..i], sources) + |sources[roles[i]]|
  {
    assert roles[..i + 1][..i] == roles[..i];
  }

  lemma {:induction false} TotalGrows(roles: seq<string>, i: nat, sources: Sources)
    requires Known(roles, sources) && i <= |roles|
    ensures Known(roles[..i], sources) && SourceBytes(roles[..i], sources) <= SourceBytes(roles, sources)
    decreases |roles| - i
  {
    if i < |roles| {
      TotalStep(roles, i, sources);
      TotalGrows(roles, i + 1, sources);
    } else {
      assert roles[..i] == roles;
    }
  }

  lemma SortedKnown(keys: seq<string>, sources: Sources)
    ensures Known(keys, sources) <==> Known(Sorted(keys), sources)
    ensures |Sorted(keys)| == |keys|
  {
    SortedSorts(keys);
    SameLength(Sorted(keys), keys);
    hide Sorted, Ascending;
    if Known(keys, sources) { SameKnown(keys, Sorted(keys), sources); }
    if Known(Sorted(keys), sources) { SameKnown(Sorted(keys), keys, sources); }
  }

  lemma SameKnown(a: seq<string>, b: seq<string>, sources: Sources)
    requires multiset(a) == multiset(b) && Known(a, sources)
    ensures Known(b, sources)
  {
    forall i | 0 <= i < |b| ensures b[i] in sources && b[i] in ROLE_MEDIA_TYPES {
      assert b[i] in multiset(a);
      var j :| 0 <= j < |a| && a[j] == b[i];
    }
  }

  // ---- Steps of the folds ----

  lemma NoRoles(c: Codec, blobs: map<Digest, seq<Byte>>, sources: Sources, maxBlob: nat)
    ensures StoredAll(c, blobs, [], sources, maxBlob) == Some(blobs)
    ensures Digests(Layers(c, [], sources)) == []
  {
  }

  lemma NextRole(c: Codec, blobs: map<Digest, seq<Byte>>, roles: seq<string>, i: nat, sources: Sources, maxBlob: nat)
    requires Known(roles, sources) && i < |roles|
    ensures Known(roles[..i], sources) && Known(roles[..i + 1], sources)
    ensures StoredAll(c, blobs, roles[..i + 1], sources, maxBlob) ==
            match StoredAll(c, blobs, roles[..i], sources, maxBlob)
            case None => None
            case Some(b) => Stored(c, b, sources[roles[i]], maxBlob)
    ensures Layers(c, roles[..i + 1], sources) == Layers(c, roles[..i], sources) + [LayerOf(c, roles[i], sources)]
    ensures Digests(Layers(c, roles[..i + 1], sources)) ==
            Digests(Layers(c, roles[..i], sources)) + [c.hash(sources[roles[i]])]
  {
    hide Stored, StoredAll, Layers, Digests;
    NextStored(c, blobs, roles, i, sources, maxBlob);
    NextLayers(c, roles, i, sources);
    DigestsPush(Layers(c, roles[..i], sources), LayerOf(c, roles[i], sources));
  }

  lemma NextStored(c: Codec, blobs: map<Digest, seq<Byte>>, roles: seq<string>, i: nat, sources: Sources, maxBlob: nat)
    requires Known(roles, sources) && i < |roles|
    ensures Known(roles[..i], sources) && Known(roles[..i + 1], sources)
    ensures StoredAll(c, blobs, roles[..i + 1], sources, maxBlob) ==
            match StoredAll(c, blobs, roles[..i], sources, maxBlob)
            case None => None
            case Some(b) => Stored(c, b, sources[roles[i]], maxBlob)
  {
    hide Stored;
    assert roles[..i + 1][..i] == roles[..i];
  }

  lemma NextLayers(c: Codec, roles: seq<string>, i: nat, sources: Sources)
    requires Known(roles, sources) && i < |roles|
    ensures Known(roles[..i], sources) && Known(roles[..i + 1], sources)
    ensures Layers(c, roles[..i + 1], sources) == Layers(c, roles[..i], sources) + [LayerOf(c, roles[i], sources)]
  {
    hide LayerOf;
    assert roles[..i + 1][..i] == roles[..i];
  }

  lemma DigestsPush(layers: seq<Descriptor>, d: Descriptor)
    ensures Digests(layers + [d]) == Digests(layers) + [d.digest]
  {
    assert (layers + [d])[..|layers|] == layers;
  }

  lemma {:induction false} RefusedRole(c: Codec, blobs: map<Digest, seq<Byte>>, roles: seq<string>, i: nat,
                                       sources: Sources, maxBlob: nat)
    requires Known(roles, sources) && i <= |roles| && Known(roles[..i], sources)
    requires StoredAll(c, blobs, roles[..i], sources, maxBlob).None?
    ensures StoredAll(c, blobs, roles, sources, maxBlob).None?
    decreases |roles| - i
  {
    hide StoredAll;
    if i < |roles| {
      NextRole(c, blobs, roles, i, sources, maxBlob);
      RefusedRole(c, blobs, roles, i + 1, sources, maxBlob);
    } else {
      assert roles[..i] == roles;
    }
  }

  lemma NoLayers(c: Codec, blobs: map<Digest, seq<Byte>>, before: nat, limits: Limits)
    ensures LayersChecked(c, blobs, [], before, limits) == Some(before) && Digests([]) == []
  {
  }

  lemma NextLayer(c: Codec, blobs: map<Digest, seq<Byte>>, layers: seq<Descriptor>, i: nat, before: nat, limits: Limits)
    requires i < |layers|
    ensures LayersChecked(c, blobs, layers[..i + 1], before, limits) ==
            match LayersChecked(c, blobs, layers[..i], before, limits)
            case None => None
            case Some(total) =>
              if layers[i].digest in Digests(layers[..i]) || !LayerOk(c, blobs, layers[i], total, limits) then None
              else Some(total + layers[i].size)
    ensures Digests(layers[..i + 1]) == Digests(layers[..i]) + [layers[i].digest]
  {
    hide LayerOk;
    assert layers[..i + 1][..i] == layers[..i];
  }

  lemma {:induction false} RefusedLayer(c: Codec, blobs: map<Digest, seq<Byte>>, layers: seq<Descriptor>, i: nat,
                                        before: nat, limits: Limits)
    requires i <= |layers| && LayersChecked(c, blobs, layers[..i], before, limits).None?
    ensures LayersChecked(c, blobs, layers, before, limits).None?
    decreases |layers| - i
  {
    hide LayersChecked;
    if i < |layers| {
      NextLayer(c, blobs, layers, i, before, limits);
      RefusedLayer(c, blobs, layers, i + 1, before, limits);
    } else {
      assert layers[..i] == layers;
    }
  }
}
