/** Capability manifests as documents, and the section each kind of source declares in them. */
module Manifests {
  import opened Options

  datatype Json = Null | Text(text: string) | Other(n: int) | List(items: seq<Json>) | Object(fields: map<string, Json>)

  /** The top-level mapping; an empty one counts as no manifest. */
  type Manifest = map<string, Json>

  datatype Kind = Behavior | Document(filename: string) | Evaluation(regression: bool)

  const BEHAVIOR_PATH := "behavior/system.md"
  const KNOWLEDGE_DIR := "knowledge/sources"

  function EvalName(regression: bool): string {
    if regression then "regression" else "domain"
  }

  /** Where in the workspace a source of this kind is published. */
  function PathOf(kind: Kind): string {
    match kind
    case Behavior => BEHAVIOR_PATH
    case Document(filename) => KNOWLEDGE_DIR + "/" + filename
    case Evaluation(regression) => "evals/" + EvalName(regression) + ".jsonl"
  }

  function Section(kind: Kind): string {
    match kind
    case Behavior => "behavior"
    case Document(_) => "knowledge"
    case Evaluation(_) => "evaluation"
  }

  /** `mapping.get(key)`: a missing key reads as null. */
  function Get(fields: map<string, Json>, key: string): Json {
    if key in fields then fields[key] else Null
  }

  predicate PointsAtKnowledge(item: Json) {
    item.Object? && Get(item.fields, "path") == Text(KNOWLEDGE_DIR)
  }

  predicate AnyPoints(items: seq<Json>) {
    exists i | 0 <= i < |items| :: PointsAtKnowledge(items[i])
  }

  /** `update_manifest_for_source`; none when a section has the wrong shape. */
  function Declared(m: Manifest, kind: Kind): Option<Manifest> {
    match kind
    case Behavior => Some(m["behavior" := Object(map["system" := Text(BEHAVIOR_PATH)])])
    case Document(_) =>
      var knowledge := if Get(m, "knowledge").Null? then Object(map[]) else m["knowledge"];
      if !knowledge.Object? then None
      else
        var sources := if Get(knowledge.fields, "sources").Null? then List([]) else knowledge.fields["sources"];
        if !sources.List? then None
        else
          var items := if AnyPoints(sources.items) then sources.items
                       else sources.items + [Object(map["path" := Text(KNOWLEDGE_DIR)])];
          Some(m["knowledge" := Object(knowledge.fields["sources" := List(items)])])
    case Evaluation(regression) =>
      var evaluation := if Get(m, "evaluation").Null? then Object(map[]) else m["evaluation"];
      if !evaluation.Object? then None
      else Some(m["evaluation" := Object(evaluation.fields[EvalName(regression) := Text(PathOf(kind))])])
  }

  /** The manifest names the place where a source of this kind is published. */
  predicate Declares(m: Manifest, kind: Kind) {
    var section := Get(m, Section(kind));
    section.Object? &&
    match kind
    case Behavior => Get(section.fields, "system") == Text(BEHAVIOR_PATH)
    case Document(_) =>
      Get(section.fields, "sources").List? && AnyPoints(Get(section.fields, "sources").items)
    case Evaluation(regression) => Get(section.fields, EvalName(regression)) == Text(PathOf(kind))
  }

  lemma EntryPoints(items: seq<Json>)
    ensures AnyPoints(items + [Object(map["path" := Text(KNOWLEDGE_DIR)])])
  {
    var longer := items + [Object(map["path" := Text(KNOWLEDGE_DIR)])];
    assert PointsAtKnowledge(longer[|items|]);
  }

  // ---- What declaring changes, told by the two manifests alone ----

  /** The fields of a section; a missing or null one has none. */
  ghost function FieldsOf(m: map<string, Json>, key: string): map<string, Json> {
    if key in m && m[key].Object? then m[key].fields else map[]
  }

  ghost function ItemsOf(m: map<string, Json>, key: string): seq<Json> {
    if key in m && m[key].List? then m[key].items else []
  }

  /** Nothing but this key is touched. */
  ghost predicate OthersKept(m: map<string, Json>, after: map<string, Json>, key: string) {
    forall other | other != key ::
      (other in after <==> other in m) && (other in m ==> after[other] == m[other])
  }

  /** An entry whose path is the knowledge directory. */
  ghost predicate Pointing(item: Json) {
    item.Object? && "path" in item.fields && item.fields["path"] == Text("knowledge/sources")
  }

  /** The document's section: every other field kept, and one more item if and only if none pointed there. */
  ghost predicate KnowledgeGrown(fields: map<string, Json>, after: map<string, Json>) {
    && OthersKept(fields, after, "sources") && "sources" in after && after["sources"].List?
    && ((exists i | 0 <= i < |ItemsOf(fields, "sources")| :: Pointing(ItemsOf(fields, "sources")[i])) ==>
          after["sources"].items == ItemsOf(fields, "sources"))
    && (!(exists i | 0 <= i < |ItemsOf(fields, "sources")| :: Pointing(ItemsOf(fields, "sources")[i])) ==>
          after["sources"].items ==
          ItemsOf(fields, "sources") + [Object(map["path" := Text("knowledge/sources")])])
  }

  /** What adding a source makes of a manifest. */
  ghost predicate Grown(m: Manifest, after: Manifest, kind: Kind) {
    match kind
    case Behavior =>
      && OthersKept(m, after, "behavior")
      && "behavior" in after && after["behavior"] == Object(map["system" := Text("behavior/system.md")])
    case Document(_) =>
      && OthersKept(m, after, "knowledge") && "knowledge" in after && after["knowledge"].Object?
      && KnowledgeGrown(FieldsOf(m, "knowledge"), after["knowledge"].fields)
    case Evaluation(regression) =>
      var name, path := if regression then "regression" else "domain",
                        if regression then "evals/regression.jsonl" else "evals/domain.jsonl";
      && OthersKept(m, after, "evaluation") && "evaluation" in after && after["evaluation"].Object?
      && OthersKept(FieldsOf(m, "evaluation"), after["evaluation"].fields, name)
      && name in after["evaluation"].fields && after["evaluation"].fields[name] == Text(path)
  }

  /** A section, or the sources in it, is there, not null, and of the wrong shape. */
  ghost predicate Misshapen(m: Manifest, kind: Kind) {
    match kind
    case Behavior => false
    case Document(_) =>
      && "knowledge" in m && !m["knowledge"].Null?
      && (m["knowledge"].Object? ==>
            var fields := m["knowledge"].fields;
            "sources" in fields && !fields["sources"].Null? && !fields["sources"].List?)
    case Evaluation(_) => "evaluation" in m && !m["evaluation"].Null? && !m["evaluation"].Object?
  }

  lemma PointingSame(items: seq<Json>)
    ensures AnyPoints(items) <==> exists i | 0 <= i < |items| :: Pointing(items[i])
  {
    if AnyPoints(items) {
      var i :| 0 <= i < |items| && PointsAtKnowledge(items[i]);
      assert Pointing(items[i]);
    }
    if i :| 0 <= i < |items| && Pointing(items[i]) {
      assert PointsAtKnowledge(items[i]);
    }
  }

  lemma DocumentGrown(m: Manifest, kind: Kind)
    requires kind.Document? && Declared(m, kind).Some?
    ensures Grown(m, Declared(m, kind).value, kind)
  {
    hide AnyPoints, Pointing;
    PointingSame(ItemsOf(FieldsOf(m, "knowledge"), "sources"));
  }

  lemma EvaluationPath(regression: bool)
    ensures EvalName(regression) == if regression then "regression" else "domain"
    ensures PathOf(Evaluation(regression)) == if regression then "evals/regression.jsonl" else "evals/domain.jsonl"
  {
  }

  /** Where each kind of source is published. */
  ghost predicate Place(kind: Kind, path: string) {
    match kind
    case Behavior => path == "behavior/system.md"
    case Document(filename) => path == "knowledge/sources/" + filename
    case Evaluation(regression) => path == if regression then "evals/regression.jsonl" else "evals/domain.jsonl"
  }

  lemma PublishedAt(kind: Kind)
    ensures Place(kind, PathOf(kind))
  {
    match kind
    case Behavior =>
    case Document(filename) =>
      assert KNOWLEDGE_DIR + "/" == "knowledge/sources/";
    case Evaluation(regression) =>
      EvaluationPath(regression);
      hide PathOf;
  }

  lemma EvaluationGrown(m: Manifest, kind: Kind)
    requires kind.Evaluation? && Declared(m, kind).Some?
    ensures Grown(m, Declared(m, kind).value, kind)
  {
    hide PathOf, EvalName;
    EvaluationPath(kind.regression);
  }

  /** A source is refused exactly when its section has the wrong shape; an accepted one changes its own section only,
      and in it only what it adds. */
  lemma DeclaredIs(m: Manifest, kind: Kind)
    ensures Declared(m, kind).None? <==> Misshapen(m, kind)
    ensures Declared(m, kind).Some? ==> Grown(m, Declared(m, kind).value, kind)
  {
    match kind
    case Behavior =>
    case Document(_) =>
      if Declared(m, kind).Some? { DocumentGrown(m, kind); }
      hide Grown, AnyPoints;
    case Evaluation(_) =>
      if Declared(m, kind).Some? { EvaluationGrown(m, kind); }
      hide Grown, PathOf, EvalName;
  }

  /** Declaring a source makes the manifest declare it, leaves the other sections alone, and is done once and for
      all. */
  ghost predicate DoneOnce(m: Manifest, after: Manifest, kind: Kind) {
    && Declares(after, kind)
    && (forall key | key != Section(kind) :: Get(after, key) == Get(m, key))
    && Declared(after, kind) == Some(after)
    && after != map[]
  }

  lemma BehaviorOnce(m: Manifest)
    ensures Declared(m, Behavior).Some? && DoneOnce(m, Declared(m, Behavior).value, Behavior)
  {
    var after := Declared(m, Behavior).value;
    assert "behavior" in after;
    assert Declared(after, Behavior).value == after;
  }

  lemma DocumentOnce(m: Manifest, kind: Kind)
    requires kind.Document? && Declared(m, kind).Some?
    ensures DoneOnce(m, Declared(m, kind).value, kind)
  {
    var after := Declared(m, kind).value;
    var knowledge := Get(m, "knowledge");
    if knowledge.Object? && Get(knowledge.fields, "sources").List? {
      EntryPoints(Get(knowledge.fields, "sources").items);
    }
    EntryPoints([]);
    assert "knowledge" in after;
    hide AnyPoints;
    var items := after["knowledge"].fields["sources"].items;
    assert after["knowledge"].fields["sources" := List(items)] == after["knowledge"].fields;
    assert after["knowledge" := after["knowledge"]] == after;
  }

  lemma EvaluationOnce(m: Manifest, kind: Kind)
    requires kind.Evaluation? && Declared(m, kind).Some?
    ensures DoneOnce(m, Declared(m, kind).value, kind)
  {
    var after := Declared(m, kind).value;
    assert "evaluation" in after;
    var fields := after["evaluation"].fields;
    assert fields[EvalName(kind.regression) := Text(PathOf(kind))] == fields;
    assert after["evaluation" := after["evaluation"]] == after;
  }

  lemma DeclaredOnce(m: Manifest, kind: Kind)
    requires Declared(m, kind).Some?
    ensures DoneOnce(m, Declared(m, kind).value, kind)
  {
    hide Declared, DoneOnce;
    match kind
    case Behavior => BehaviorOnce(m);
    case Document(_) => DocumentOnce(m, kind);
    case Evaluation(_) => EvaluationOnce(m, kind);
  }

  /** Declaring one kind does not undeclare another. */
  lemma StillDeclares(m: Manifest, kind: Kind, other: Kind)
    requires Declared(m, kind).Some? && Declares(m, other)
    ensures Declares(Declared(m, kind).value, other)
  {
    DeclaredOnce(m, kind);
  }
}
