/** Assembling an image layout from a configuration and its blobs, and validating one. */
module Layout {
  import opened Options
  import opened Bytes

  const OCI_LAYOUT_VERSION := "1.0.0"
  const MEDIA_TYPE_OCI_MANIFEST := "application/vnd.oci.image.manifest.v1+json"
  const MEDIA_TYPE_OCI_INDEX := "application/vnd.oci.image.index.v1+json"
  const MEDIA_TYPE_ZANA_CONFIG := "application/vnd.zana.image.config.v1+json"
  const MAX_CANONICAL_JSON_BYTES := 1048576

  const ROLE_MEDIA_TYPES: map<string, string> := map[
    "behavior" := "application/vnd.zana.behavior.v1+json",
    "knowledge" := "application/vnd.zana.knowledge.v1.tar+zstd",
    "adapter" := "application/vnd.zana.adapter.v1.tar+zstd",
    "tools" := "application/vnd.zana.tools.v1+json",
    "permissions" := "application/vnd.zana.permissions.v1+json",
    "evaluation" := "application/vnd.zana.evaluation.v1+json",
    "report" := "application/vnd.zana.report.v1+json"
  ]

  type Digest = string

  /** A content descriptor; `role` is its one annotation. */
  datatype Descriptor = Descriptor(mediaType: string, digest: Digest, size: nat, role: Option<string>)

  datatype Manifest = Manifest(schema: nat, mediaType: string, config: Descriptor, layers: seq<Descriptor>)

  datatype Index = Index(schema: nat, mediaType: string, manifests: seq<Descriptor>)

  /** The image configuration, as far as layouts are concerned. */
  datatype Config = Config(document: string)

  /** The hash, the canonical printers and the parsers, and the two tests of a configuration. */
  datatype Codec = Codec(
    hash: seq<Byte> -> Digest,
    printConfig: Config -> seq<Byte>,
    readConfig: seq<Byte> -> Option<Config>,
    printManifest: Manifest -> seq<Byte>,
    readManifest: seq<Byte> -> Option<Manifest>,
    printIndex: Index -> seq<Byte>,
    readIndex: seq<Byte> -> Option<Index>,
    printVersion: string -> seq<Byte>,
    readVersion: seq<Byte> -> Option<string>,
    digestsValid: Config -> bool,
    hasSecrets: Config -> bool)

  /** Every parser reads back what its printer wrote. */
  ghost predicate ReadsBack(c: Codec) {
    && (forall x :: c.readConfig(c.printConfig(x)) == Some(x))
    && (forall x :: c.readManifest(c.printManifest(x)) == Some(x))
    && (forall x :: c.readIndex(c.printIndex(x)) == Some(x))
    && (forall x :: c.readVersion(c.printVersion(x)) == Some(x))
  }

  /** The files at the root, and the blobs by digest. */
  datatype Root = Root(files: map<string, seq<Byte>>, blobs: map<Digest, seq<Byte>>)

  type Sources = map<string, seq<Byte>>

  // ---- What is assembled ----

  function LayerOf(c: Codec, role: string, sources: Sources): Descriptor
    requires role in sources && role in ROLE_MEDIA_TYPES
  {
    Descriptor(ROLE_MEDIA_TYPES[role], c.hash(sources[role]), |sources[role]|, Some(role))
  }

  predicate Known(roles: seq<string>, sources: Sources) {
    forall i | 0 <= i < |roles| :: roles[i] in sources && roles[i] in ROLE_MEDIA_TYPES
  }

  function Layers(c: Codec, roles: seq<string>, sources: Sources): (r: seq<Descriptor>)
    requires Known(roles, sources)
    ensures |r| == |roles|
  {
    if roles == [] then []
    else Layers(c, roles[..|roles| - 1], sources) + [LayerOf(c, roles[|roles| - 1], sources)]
  }

  function SourceBytes(roles: seq<string>, sources: Sources): nat
    requires Known(roles, sources)
  {
    if roles == [] then 0 else SourceBytes(roles[..|roles| - 1], sources) + |sources[roles[|roles| - 1]]|
  }

  function ManifestOf(c: Codec, config: Config, roles: seq<string>, sources: Sources): Manifest
    requires Known(roles, sources)
  {
    var bytes := c.printConfig(config);
    Manifest(2, MEDIA_TYPE_OCI_MANIFEST, Descriptor(MEDIA_TYPE_ZANA_CONFIG, c.hash(bytes), |bytes|, None),
             Layers(c, roles, sources))
  }

  function ImageIndex(c: Codec, m: Manifest): Index {
    var bytes := c.printManifest(m);
    Index(2, MEDIA_TYPE_OCI_INDEX, [Descriptor(MEDIA_TYPE_OCI_MANIFEST, c.hash(bytes), |bytes|, None)])
  }

  /** `_install_bytes_private`: never over anything else. */
  function Installed(files: map<string, seq<Byte>>, name: string, data: seq<Byte>): Option<map<string, seq<Byte>>> {
    if name !in files then Some(files[name := data]) else if files[name] == data then Some(files) else None
  }

  /** `_stream_blob_to_layout`: a blob already there is hashed again instead. */
  function Stored(c: Codec, blobs: map<Digest, seq<Byte>>, content: seq<Byte>, maxBlob: nat)
    : Option<map<Digest, seq<Byte>>>
  {
    var digest := c.hash(content);
    if digest !in blobs then Some(blobs[digest := content])
    else if c.hash(blobs[digest]) == digest && |blobs[digest]| <= maxBlob then Some(blobs) else None
  }

  function StoredAll(c: Codec, blobs: map<Digest, seq<Byte>>, roles: seq<string>, sources: Sources, maxBlob: nat)
    : Option<map<Digest, seq<Byte>>>
    requires Known(roles, sources)
  {
    if roles == [] then Some(blobs)
    else
      match StoredAll(c, blobs, roles[..|roles| - 1], sources, maxBlob)
      case None => None
      case Some(b) => Stored(c, b, sources[roles[|roles| - 1]], maxBlob)
  }

  predicate AllWithin(roles: seq<string>, sources: Sources, maxBlob: nat)
    requires Known(roles, sources)
  {
    forall i | 0 <= i < |roles| :: |sources[roles[i]]| <= maxBlob
  }

  /** Every JSON document fits the canonical limit. */
  predicate Printable(c: Codec, config: Config, m: Manifest) {
    && |c.printConfig(config)| <= MAX_CANONICAL_JSON_BYTES
    && |c.printManifest(m)| <= MAX_CANONICAL_JSON_BYTES
    && |c.printIndex(ImageIndex(c, m))| <= MAX_CANONICAL_JSON_BYTES
    && |c.printVersion(OCI_LAYOUT_VERSION)| <= MAX_CANONICAL_JSON_BYTES
  }

  /** The three documents at the root, in the order they are installed. */
  function WrittenFiles(c: Codec, files: map<string, seq<Byte>>, m: Manifest): Option<map<string, seq<Byte>>> {
    match Installed(files, "index.json", c.printIndex(ImageIndex(c, m)))
    case None => None
    case Some(f1) =>
      match Installed(f1, "oci-layout", c.printVersion(OCI_LAYOUT_VERSION))
      case None => None
      case Some(f2) => Installed(f2, "manifest.json", c.printManifest(m))
  }

  /** The blobs and documents of an image whose preflight has passed. */
  function Written(c: Codec, root: Root, config: Config, roles: seq<string>, sources: Sources,
                   maxBlob: nat): Option<Root>
    requires Known(roles, sources)
  {
    match StoredAll(c, root.blobs, roles, sources, maxBlob)
    case None => None
    case Some(layers) =>
      match Installed(layers, c.hash(c.printConfig(config)), c.printConfig(config))
      case None => None
      case Some(blobs) =>
        match WrittenFiles(c, root.files, ManifestOf(c, config, roles, sources))
        case None => None
        case Some(files) => Some(Root(files, blobs))
  }

  /** What is tested before anything is written. */
  predicate Ready(c: Codec, config: Config, roles: seq<string>, sources: Sources, maxBlob: nat, maxTotal: nat) {
    && c.digestsValid(config) && |roles| <= |ROLE_MEDIA_TYPES| && Known(roles, sources)
    && AllWithin(roles, sources, maxBlob) && SourceBytes(roles, sources) <= maxTotal
    && Printable(c, config, ManifestOf(c, config, roles, sources))
  }

  /** The root after assembling these roles, in this order; none when something is refused. */
  function Built(c: Codec, root: Root, config: Config, roles: seq<string>, sources: Sources, maxBlob: nat,
                 maxTotal: nat): Option<Root>
  {
    if Ready(c, config, roles, sources, maxBlob, maxTotal) then Written(c, root, config, roles, sources, maxBlob)
    else None
  }

  datatype Result = Result(configDigest: Digest, manifestDigest: Digest, imageDigest: Digest, layerDigests: seq<Digest>)

  function Digests(layers: seq<Descriptor>): seq<Digest> {
    if layers == [] then [] else Digests(layers[..|layers| - 1]) + [layers[|layers| - 1].digest]
  }

  function ResultOf(c: Codec, config: Config, roles: seq<string>, sources: Sources): Result
    requires Known(roles, sources)
  {
    var m := ManifestOf(c, config, roles, sources);
    Result(m.config.digest, c.hash(c.printManifest(m)), c.hash(c.printIndex(ImageIndex(c, m))), Digests(m.layers))
  }

  // ---- What is validated ----

  datatype Limits = Limits(maxJson: nat, maxBlob: nat, maxTotal: nat)

  datatype Validated = Validated(config: Config, configDigest: Digest, manifestDigest: Digest, indexDigest: Digest,
                                 layerDigests: seq<Digest>, totalSize: nat)

  /** `_read_layout_json_blob`, up to the parsing. */
  function ReadBytes(files: map<string, seq<Byte>>, name: string, limits: Limits): Option<seq<Byte>> {
    if name in files && |files[name]| <= limits.maxJson
        && |files[name]| <= limits.maxBlob then Some(files[name]) else None
  }

  predicate LayerMedia(mediaType: string) {
    mediaType in ROLE_MEDIA_TYPES.Values
  }

  /** The checks on one layer, with the bytes counted before it. */
  predicate LayerOk(c: Codec, blobs: map<Digest, seq<Byte>>, d: Descriptor, before: nat, limits: Limits) {
    && LayerMedia(d.mediaType)
    && d.digest in blobs
    && |blobs[d.digest]| <= limits.maxBlob && before + |blobs[d.digest]| <= limits.maxTotal
    && c.hash(blobs[d.digest]) == d.digest
    && |blobs[d.digest]| == d.size
  }

  /** The bytes counted after these layers, if all of them pass and none repeats a digest. */
  function LayersChecked(c: Codec, blobs: map<Digest, seq<Byte>>, layers: seq<Descriptor>, before: nat, limits: Limits)
    : Option<nat>
  {
    if layers == [] then Some(before)
    else
      var front, d := layers[..|layers| - 1], layers[|layers| - 1];
      match LayersChecked(c, blobs, front, before, limits)
      case None => None
      case Some(total) =>
        if d.digest in Digests(front) || !LayerOk(c, blobs, d, total, limits) then None else Some(total + d.size)
  }

  /** `validate_oci_layout` */
  function Checked(c: Codec, root: Root, limits: Limits): Option<Validated> {
    match ReadBytes(root.files, "oci-layout", limits)
    case None => None
    case Some(layoutBytes) =>
      match ReadBytes(root.files, "index.json", limits)
      case None => None
      case Some(indexBytes) =>
        if c.readVersion(layoutBytes) != Some(OCI_LAYOUT_VERSION) then None
        else
          match c.readIndex(indexBytes)
          case None => None
          case Some(index) => CheckedIndex(c, root, limits, |layoutBytes| + |indexBytes|, c.hash(indexBytes), index)
  }

  function CheckedIndex(c: Codec, root: Root, limits: Limits, before: nat, indexDigest: Digest, index: Index)
    : Option<Validated>
  {
    if index.schema != 2 || index.mediaType != MEDIA_TYPE_OCI_INDEX || |index.manifests| != 1 then None
    else if index.manifests[0].mediaType != MEDIA_TYPE_OCI_MANIFEST then None
    else
      match ReadBytes(root.files, "manifest.json", limits)
      case None => None
      case Some(manifestBytes) =>
        var d := index.manifests[0];
        if c.hash(manifestBytes) != d.digest || |manifestBytes| != d.size then None
        else
          match c.readManifest(manifestBytes)
          case None => None
          case Some(m) => CheckedManifest(c, root, limits, before + |manifestBytes|, indexDigest, d.digest, m)
  }

  function CheckedManifest(c: Codec, root: Root, limits: Limits, before: nat, indexDigest: Digest,
                           manifestDigest: Digest, m: Manifest): Option<Validated>
  {
    if m.schema != 2 || m.mediaType != MEDIA_TYPE_OCI_MANIFEST || m.config.mediaType != MEDIA_TYPE_ZANA_CONFIG then None
    else
      match ReadBytes(root.blobs, m.config.digest, limits)
      case None => None
      case Some(configBytes) =>
        if c.hash(configBytes) != m.config.digest || |configBytes| != m.config.size then None
        else
          match c.readConfig(configBytes)
          case None => None
          case Some(config) =>
            if c.hasSecrets(config) || !c.digestsValid(config) then None
            else
              match LayersChecked(c, root.blobs, m.layers, before + |configBytes|, limits)
              case None => None
              case Some(total) =>
                Some(Validated(config, m.config.digest, manifestDigest, indexDigest, Digests(m.layers), total))
  }
}
