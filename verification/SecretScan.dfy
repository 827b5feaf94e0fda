/** The budgeted scan of a JSON graph for secrets, and the recursive scan it stands for. */
module SecretScan {
  import opened Options

  // ---- The graph ----

  /** A value; `Foreign` is of a type JSON does not have. */
  datatype Value = Null | Text(text: string) | Scalar | Ref(id: nat) | Foreign

  datatype Key = Name(name: string) | OtherKey

  datatype Entry = Entry(key: Key, value: Value)

  /** A mapping or a list object, known by its identity. */
  datatype Container = Dict(entries: seq<Entry>) | List(values: seq<Value>)

  datatype Limits = Limits(maxItems: nat, maxDepth: nat, maxHits: nat, maxKeyChars: nat, maxPathChars: nat,
                           maxValueChars: nat)

  /** What is scanned, how far, and which keys count as sensitive. */
  datatype Input = Input(heap: map<nat, Container>, limits: Limits, sensitive: string -> bool)

  datatype Node = Node(value: Value, path: string)

  datatype Error =
    | CyclicOrAliased | ItemBudget | DepthBudget | OversizedKey | PathBudget | OversizedValue | HitBudget
    | NonStringSensitive | Unsupported | NotAMapping

  predicate IsContainer(i: Input, v: Value) {
    v.Ref? && v.id in i.heap
  }

  // ---- One entry ----

  predicate PermissionPath(path: string, key: string) {
    path == "permissions" && key in {"filesystem_read", "filesystem_write", "tools_allow", "secrets_allow"}
  }

  function ChildPath(path: string, key: string): string {
    if path != "" then path + "." + key else key
  }

  function Decimal(n: nat): string {
    var digit := [(n % 10 + 48) as char];
    if n < 10 then digit else Decimal(n / 10) + digit
  }

  function IndexPath(path: string, index: nat): string {
    path + "[" + Decimal(index) + "]"
  }

  /** The number that digits read as. */
  function Reads(digits: string): int {
    if digits == "" then 0 else Reads(digits[..|digits| - 1]) * 10 + (digits[|digits| - 1] as int - 48)
  }

  /** Digits without a leading zero that read as the number. */
  lemma {:induction false} DecimalReads(n: nat)
    ensures Decimal(n) != "" && forall k | 0 <= k < |Decimal(n)| :: '0' <= Decimal(n)[k] <= '9'
    ensures Reads(Decimal(n)) == n && (Decimal(n)[0] == '0' ==> |Decimal(n)| == 1)
  {
    if n >= 10 {
      DecimalReads(n / 10);
      assert Decimal(n)[..|Decimal(n)| - 1] == Decimal(n / 10);
    } else {
      assert Decimal(n)[..0] == "";
    }
  }

  /** What an entry of a mapping leads to. */
  datatype Verdict = Skip | Visit(child: Node) | Report(child: Node) | Bad(error: Error)

  function Judge(i: Input, path: string, e: Entry): Verdict {
    if e.key.OtherKey? || |e.key.name| > i.limits.maxKeyChars then Bad(OversizedKey)
    else
      var child := ChildPath(path, e.key.name);
      if |child| > i.limits.maxPathChars then Bad(PathBudget)
      else if !i.sensitive(e.key.name) then Visit(Node(e.value, child))
      else if e.value.Text? then
        if e.value.text == "" then Skip
        else if |e.value.text| > i.limits.maxValueChars then Bad(OversizedValue)
        else Report(Node(e.value, child))
      else if IsContainer(i, e.value) && PermissionPath(path, e.key.name) then Visit(Node(e.value, child))
      else if e.value.Null? then Skip
      else Bad(NonStringSensitive)
  }

  function JudgeItem(i: Input, path: string, index: nat, v: Value): Verdict {
    if |IndexPath(path, index)| > i.limits.maxPathChars then Bad(PathBudget) else Visit(Node(v, IndexPath(path, index)))
  }

  // ---- One node ----

  function Width(i: Input, n: Node): nat {
    if !IsContainer(i, n.value) then 0
    else match i.heap[n.value.id] case Dict(entries) => |entries| case List(values) => |values|
  }

  function VerdictAt(i: Input, n: Node, k: nat): Verdict
    requires k < Width(i, n)
  {
    match i.heap[n.value.id]
    case Dict(entries) => Judge(i, n.path, entries[k])
    case List(values) => JudgeItem(i, n.path, k, values[k])
  }

  function Children(i: Input, n: Node, k: nat): (r: seq<Node>)
    requires k <= Width(i, n)
    ensures |r| <= k
  {
    if k == 0 then []
    else
      var v := VerdictAt(i, n, k - 1);
      Children(i, n, k - 1) + (if v.Visit? || v.Report? then [v.child] else [])
  }

  function Own(i: Input, n: Node, k: nat): seq<string>
    requires k <= Width(i, n)
  {
    if k == 0 then []
    else
      var v := VerdictAt(i, n, k - 1);
      Own(i, n, k - 1) + (if v.Report? then [v.child.path] else [])
  }

  predicate Good(i: Input, n: Node) {
    !n.value.Foreign? && forall k | 0 <= k < Width(i, n) :: !VerdictAt(i, n, k).Bad?
  }

  // ---- The recursive scan ----

  /** What a scan collects: hits, nodes visited, those and the entries skipped, containers met, and whether nothing was
      wrong. */
  datatype Sum = Sum(hits: multiset<string>, nodes: nat, total: nat, ids: multiset<nat>, clean: bool)

  const ZERO := Sum(multiset{}, 0, 0, multiset{}, true)

  function Plus(a: Sum, b: Sum): Sum {
    Sum(a.hits + b.hits, a.nodes + b.nodes, a.total + b.total, a.ids + b.ids, a.clean && b.clean)
  }

  function Local(i: Input, n: Node): Sum {
    var w := Width(i, n);
    Sum(multiset(Own(i, n, w)), 1, 1 + w - |Children(i, n, w)|,
        if IsContainer(i, n.value) then multiset{n.value.id} else multiset{}, Good(i, n))
  }

  function Room(i: Input, depth: nat): nat {
    if depth > i.limits.maxDepth then 0 else i.limits.maxDepth + 1 - depth
  }

  /** The scan by recursion; a node deeper than the limit makes it unclean. */
  function Scanned(i: Input, n: Node, depth: nat): Sum
    decreases Room(i, depth), 0
  {
    if depth > i.limits.maxDepth then Sum(multiset{}, 1, 1, multiset{}, false)
    else Plus(Local(i, n), ScannedAll(i, Children(i, n, Width(i, n)), depth + 1))
  }

  function ScannedAll(i: Input, nodes: seq<Node>, depth: nat): Sum
    decreases Room(i, depth), |nodes|
  {
    if nodes == [] then ZERO
    else Plus(ScannedAll(i, nodes[..|nodes| - 1], depth), Scanned(i, nodes[|nodes| - 1], depth))
  }

  lemma PlusRegroups(a: Sum, b: Sum, c: Sum)
    ensures Plus(Plus(a, b), c) == Plus(a, Plus(b, c))
    ensures Plus(a, b) == Plus(b, a)
    ensures Plus(a, ZERO) == a
  {
  }

  // ---- What is reached, told by the entries alone ----

  /** A value met from the payload, its path, and whether it is a secret: a text, not empty, under a sensitive key. */
  datatype Place = Place(node: Node, secret: bool)

  function Start(payload: Value): Place {
    Place(Node(payload, ""), false)
  }

  /** A container under one of the four allow-list keys of `permissions`. */
  ghost predicate AllowList(i: Input, path: string, e: Entry) {
    && e.key.Name? && e.value.Ref? && e.value.id in i.heap && path == "permissions"
    && (|| e.key.name == "filesystem_read" || e.key.name == "filesystem_write"
        || e.key.name == "tools_allow" || e.key.name == "secrets_allow")
  }

  ghost predicate Secret(i: Input, e: Entry) {
    e.key.Name? && i.sensitive(e.key.name) && e.value.Text? && e.value.text != ""
  }

  /** A sensitive key leads on to a text or to an allow-list only. */
  ghost predicate Entered(i: Input, path: string, e: Entry) {
    e.key.Name? && (!i.sensitive(e.key.name) || Secret(i, e) || AllowList(i, path, e))
  }

  ghost function Step(i: Input, n: Node, k: nat): Option<Place> {
    if !(n.value.Ref? && n.value.id in i.heap) then None
    else
      match i.heap[n.value.id]
      case List(values) =>
        if k < |values| then Some(Place(Node(values[k], n.path + "[" + Decimal(k) + "]"), false)) else None
      case Dict(entries) =>
        if k < |entries| && Entered(i, n.path, entries[k]) then
          var name := entries[k].key.name;
          Some(Place(Node(entries[k].value, if n.path == "" then name else n.path + "." + name),
                     Secret(i, entries[k])))
        else None
  }

  /** Where a trail of positions leads. */
  ghost function Reached(i: Input, p: Place, trail: seq<nat>): Option<Place>
    decreases |trail|
  {
    if trail == [] then Some(p)
    else
      match Step(i, p.node, trail[0])
      case None => None
      case Some(q) => Reached(i, q, trail[1..])
  }

  /** The entries that make a graph unclean: a key that is no string or too long, a path too long, and under a sensitive
      key a text too long or what is neither a text, nor null, nor an allow-list. */
  ghost predicate Fine(i: Input, path: string, e: Entry) {
    && e.key.Name? && |e.key.name| <= i.limits.maxKeyChars
    && |e.key.name| + (if path == "" then 0 else |path| + 1) <= i.limits.maxPathChars
    && (i.sensitive(e.key.name) ==>
          || e.value.Null?
          || (e.value.Text? && |e.value.text| <= i.limits.maxValueChars)
          || AllowList(i, path, e))
  }

  ghost predicate FineAt(i: Input, n: Node, k: nat)
    requires k < Width(i, n)
  {
    match i.heap[n.value.id]
    case Dict(entries) => Fine(i, n.path, entries[k])
    case List(_) => |n.path + "[" + Decimal(k) + "]"| <= i.limits.maxPathChars
  }

  ghost predicate Sound(i: Input, n: Node, depth: nat) {
    && depth <= i.limits.maxDepth && !n.value.Foreign?
    && forall k: nat | k < Width(i, n) :: FineAt(i, n, k)
  }

  /** Nothing wrong is reached. */
  ghost predicate Clear(i: Input, p: Place, depth: nat) {
    forall trail :: Reached(i, p, trail).Some? ==> Sound(i, Reached(i, p, trail).value.node, depth + |trail|)
  }

  /** No two trails lead to the same container. */
  ghost predicate Unshared(i: Input, p: Place) {
    forall s, t | LeadsToContainer(i, p, s) && LeadsToContainer(i, p, t) ::
      Reached(i, p, s).value.node.value == Reached(i, p, t).value.node.value ==> s == t
  }

  ghost predicate LeadsToContainer(i: Input, p: Place, trail: seq<nat>) {
    Reached(i, p, trail).Some? && IsContainer(i, Reached(i, p, trail).value.node.value)
  }

  /** The trails that lead anywhere, each once. */
  ghost predicate Lists(i: Input, p: Place, trails: seq<seq<nat>>) {
    forall t :: multiset(trails)[t] == if Reached(i, p, t).Some? then 1 else 0
  }

  /** The entries of a node among the first `k` that lead nowhere. */
  ghost function Skipped(i: Input, n: Node, k: nat): nat {
    if k == 0 then 0 else Skipped(i, n, k - 1) + (if Step(i, n, k - 1).None? then 1 else 0)
  }

  /** What one trail adds: its path if it leads to a secret, itself, the entries it skips, and its container. */
  ghost function Share(i: Input, at: Option<Place>): Sum {
    match at
    case None => ZERO
    case Some(q) =>
      Sum(if q.secret then multiset{q.node.path} else multiset{}, 1, 1 + Skipped(i, q.node, Width(i, q.node)),
          if IsContainer(i, q.node.value) then multiset{q.node.value.id} else multiset{}, true)
  }

  ghost function Shares(i: Input, p: Place, trails: seq<seq<nat>>): Sum {
    if trails == [] then ZERO
    else Plus(Shares(i, p, trails[..|trails| - 1]), Share(i, Reached(i, p, trails[|trails| - 1])))
  }

  // ---- The trails of a clean graph ----

  function Prefixed(k: nat, trails: seq<seq<nat>>): (r: seq<seq<nat>>)
    ensures |r| == |trails|
  {
    if trails == [] then [] else Prefixed(k, trails[..|trails| - 1]) + [[k] + trails[|trails| - 1]]
  }

  ghost function Trails(i: Input, p: Place, depth: nat): seq<seq<nat>>
    decreases Room(i, depth), Width(i, p.node) + 1
  {
    if depth > i.limits.maxDepth then [[]] else [[]] + TrailsBelow(i, p, depth, Width(i, p.node))
  }

  ghost function TrailsBelow(i: Input, p: Place, depth: nat, k: nat): seq<seq<nat>>
    requires depth <= i.limits.maxDepth && k <= Width(i, p.node)
    decreases Room(i, depth), k
  {
    if k == 0 then []
    else
      TrailsBelow(i, p, depth, k - 1) +
      (match Step(i, p.node, k - 1)
       case None => []
       case Some(q) => Prefixed(k - 1, Trails(i, q, depth + 1)))
  }

  lemma {:induction false} PrefixedCounts(k: nat, trails: seq<seq<nat>>, t: seq<nat>)
    ensures multiset(Prefixed(k, trails))[t] == if t != [] && t[0] == k then multiset(trails)[t[1..]] else 0
  {
    if trails != [] {
      var front, last := trails[..|trails| - 1], trails[|trails| - 1];
      PrefixedCounts(k, front, t);
      assert trails == front + [last];
      assert ([k] + last)[1..] == last;
      assert t != [] ==> t == [t[0]] + t[1..];
    }
  }

  lemma {:induction false} SharesJoin(i: Input, p: Place, a: seq<seq<nat>>, b: seq<seq<nat>>)
    ensures Shares(i, p, a + b) == Plus(Shares(i, p, a), Shares(i, p, b))
  {
    hide Plus, Share, Reached;
    if b == [] {
      assert a + b == a;
      PlusRegroups(Shares(i, p, a), ZERO, ZERO);
    } else {
      var front, last := b[..|b| - 1], b[|b| - 1];
      SharesJoin(i, p, a, front);
      assert (a + b)[..|a + b| - 1] == a + front;
      PlusRegroups(Shares(i, p, a), Shares(i, p, front), Share(i, Reached(i, p, last)));
    }
  }

  lemma {:induction false} SharesPrefixed(i: Input, p: Place, k: nat, q: Place, trails: seq<seq<nat>>)
    requires Step(i, p.node, k) == Some(q)
    ensures Shares(i, p, Prefixed(k, trails)) == Shares(i, q, trails)
  {
    hide Plus, Share, Step;
    if trails != [] {
      var front, last := trails[..|trails| - 1], trails[|trails| - 1];
      SharesPrefixed(i, p, k, q, front);
      assert ([k] + last)[1..] == last;
      assert Prefixed(k, trails)[..|trails| - 1] == Prefixed(k, front);
    }
  }

  lemma StepIs(i: Input, n: Node, k: nat)
    requires k < Width(i, n) && !VerdictAt(i, n, k).Bad?
    ensures var v := VerdictAt(i, n, k);
            Step(i, n, k) == if v.Skip? then None else Some(Place(v.child, v.Report?))
  {
  }

  lemma StepWithin(i: Input, n: Node, k: nat)
    ensures Step(i, n, k).Some? ==> k < Width(i, n)
  {
  }

  lemma EntryFine(i: Input, n: Node, k: nat)
    requires k < Width(i, n)
    ensures !VerdictAt(i, n, k).Bad? <==> FineAt(i, n, k)
  {
    hide Decimal;
  }

  lemma SoundIffGood(i: Input, n: Node, depth: nat)
    ensures Sound(i, n, depth) <==> depth <= i.limits.maxDepth && Good(i, n)
  {
    hide VerdictAt, FineAt;
    forall k: nat | k < Width(i, n)
      ensures !VerdictAt(i, n, k).Bad? <==> FineAt(i, n, k)
    {
      EntryFine(i, n, k);
    }
  }

  lemma SkippedCounts(i: Input, n: Node, k: nat)
    requires k <= Width(i, n) && Good(i, n)
    ensures |Children(i, n, k)| + Skipped(i, n, k) == k
  {
    if k > 0 {
      SkippedCounts(i, n, k - 1);
      StepIs(i, n, k - 1);
      hide VerdictAt, Step, Width;
    }
  }

  function Hits(paths: multiset<string>): Sum {
    Sum(paths, 0, 0, multiset{}, true)
  }

  function HitOf(p: Place): Sum {
    Hits(if p.secret then multiset{p.node.path} else multiset{})
  }

  lemma ShareIs(i: Input, p: Place)
    requires Good(i, p.node)
    ensures var w := Width(i, p.node);
            Plus(Share(i, Some(p)), Hits(multiset(Own(i, p.node, w)))) == Plus(HitOf(p), Local(i, p.node))
  {
    SkippedCounts(i, p.node, Width(i, p.node));
    hide Skipped, Children, Own, Width, Good;
  }

  lemma CleanIs(i: Input, n: Node, depth: nat)
    ensures Scanned(i, n, depth).clean <==>
            && depth <= i.limits.maxDepth && Good(i, n)
            && ScannedAll(i, Children(i, n, Width(i, n)), depth + 1).clean
  {
    hide Good, Own, Children, Width, ScannedAll;
  }

  lemma Alone(i: Input, p: Place)
    ensures Shares(i, p, [[]]) == Share(i, Some(p))
  {
    hide Share;
    var none: seq<nat> := [];
    assert [none][..0] == [];
    PlusRegroups(Share(i, Some(p)), ZERO, ZERO);
  }

  /** Of a clean graph the recursive scan is the sum over the trails, each taken once. */
  lemma {:induction false} TrailsAre(i: Input, p: Place, depth: nat)
    requires Scanned(i, p.node, depth).clean
    ensures Lists(i, p, Trails(i, p, depth))
    ensures Shares(i, p, Trails(i, p, depth)) == Plus(HitOf(p), Scanned(i, p.node, depth))
    decreases Room(i, depth), Width(i, p.node) + 1
  {
    hide *;
    var w := Width(i, p.node);
    CleanIs(i, p.node, depth);
    var below := TrailsBelow(i, p, depth, w);
    TrailsBelowAre(i, p, depth, w);
    TrailsUnfold(i, p, depth);
    var none: seq<nat> := [];
    ListsWhole(i, p, below);
    SharesJoin(i, p, [none], below);
    Alone(i, p);
    ShareIs(i, p);
    ScannedStep(i, p.node, depth);
    var own, children := Hits(multiset(Own(i, p.node, w))), ScannedAll(i, Children(i, p.node, w), depth + 1);
    PlusRegroups(Share(i, Some(p)), own, children);
    PlusRegroups(HitOf(p), Local(i, p.node), children);
  }

  lemma TrailsUnfold(i: Input, p: Place, depth: nat)
    requires depth <= i.limits.maxDepth
    ensures Trails(i, p, depth) == [[]] + TrailsBelow(i, p, depth, Width(i, p.node))
  {
    hide TrailsBelow, Width;
  }

  ghost predicate ListsTo(i: Input, p: Place, k: nat, trails: seq<seq<nat>>) {
    forall t :: multiset(trails)[t] == if t != [] && t[0] < k && Reached(i, p, t).Some? then 1 else 0
  }

  lemma ListsWhole(i: Input, p: Place, below: seq<seq<nat>>)
    requires ListsTo(i, p, Width(i, p.node), below)
    ensures Lists(i, p, [[]] + below)
  {
    hide Width, Step;
    var none: seq<nat> := [];
    forall t ensures multiset([none] + below)[t] == if Reached(i, p, t).Some? then 1 else 0 {
      assert multiset([none] + below) == multiset([none]) + multiset(below);
      if t != [] {
        StepWithin(i, p.node, t[0]);
      }
    }
  }

  lemma ListsMore(i: Input, p: Place, k: nat, front: seq<seq<nat>>, q: Place, trails: seq<seq<nat>>)
    requires ListsTo(i, p, k, front) && Step(i, p.node, k) == Some(q) && Lists(i, q, trails)
    ensures ListsTo(i, p, k + 1, front + Prefixed(k, trails))
  {
    hide Step, Prefixed;
    forall t
      ensures multiset(front + Prefixed(k, trails))[t] ==
              if t != [] && t[0] < k + 1 && Reached(i, p, t).Some? then 1 else 0
    {
      PrefixedCounts(k, trails, t);
    }
  }

  lemma ListsNoMore(i: Input, p: Place, k: nat, front: seq<seq<nat>>)
    requires ListsTo(i, p, k, front) && Step(i, p.node, k).None?
    ensures ListsTo(i, p, k + 1, front + [])
  {
    hide Step;
    assert front + [] == front;
  }

  lemma {:induction false} TrailsBelowAre(i: Input, p: Place, depth: nat, k: nat)
    requires depth <= i.limits.maxDepth && k <= Width(i, p.node) && Good(i, p.node)
    requires ScannedAll(i, Children(i, p.node, k), depth + 1).clean
    ensures ListsTo(i, p, k, TrailsBelow(i, p, depth, k))
    ensures Shares(i, p, TrailsBelow(i, p, depth, k)) ==
            Plus(Hits(multiset(Own(i, p.node, k))), ScannedAll(i, Children(i, p.node, k), depth + 1))
    decreases Room(i, depth), k
  {
    hide *;
    if k == 0 {
      NoneBelow(i, p, depth);
      return;
    }
    var n, d := p.node, depth + 1;
    var front := TrailsBelow(i, p, depth, k - 1);
    TrailsStep(i, p, depth, k - 1);
    BelowStep(i, p, depth, k - 1);
    RoomBelow(i, depth);
    StepWithin(i, n, k - 1);
    match Step(i, n, k - 1)
    case None =>
      TrailsBelowAre(i, p, depth, k - 1);
      ListsNoMore(i, p, k - 1, front);
      assert front + [] == front;
    case Some(q) =>
      TrailsBelowAre(i, p, depth, k - 1);
      TrailsAre(i, q, d);
      ListsMore(i, p, k - 1, front, q, Trails(i, q, d));
      SharesJoin(i, p, front, Prefixed(k - 1, Trails(i, q, d)));
      SharesPrefixed(i, p, k - 1, q, Trails(i, q, d));
      HitsShuffle(multiset(Own(i, n, k - 1)), ScannedAll(i, Children(i, n, k - 1), d), q, Scanned(i, q.node, d));
  }

  lemma RoomBelow(i: Input, depth: nat)
    requires depth <= i.limits.maxDepth
    ensures Room(i, depth + 1) < Room(i, depth)
  {
  }

  lemma TrailsStep(i: Input, p: Place, depth: nat, k: nat)
    requires depth <= i.limits.maxDepth && k < Width(i, p.node)
    ensures TrailsBelow(i, p, depth, k + 1) ==
            TrailsBelow(i, p, depth, k) +
            (match Step(i, p.node, k)
             case None => []
             case Some(q) => Prefixed(k, Trails(i, q, depth + 1)))
  {
    hide Trails, Prefixed, Step, Width;
  }

  lemma NoneBelow(i: Input, p: Place, depth: nat)
    requires depth <= i.limits.maxDepth
    ensures ListsTo(i, p, 0, TrailsBelow(i, p, depth, 0))
    ensures Shares(i, p, TrailsBelow(i, p, depth, 0)) ==
            Plus(Hits(multiset(Own(i, p.node, 0))), ScannedAll(i, Children(i, p.node, 0), depth + 1))
  {
    hide *;
    NothingYet(i, p.node, depth);
    NoTrails(i, p, depth);
    NoneScanned(i, p, depth + 1);
  }

  lemma NoTrails(i: Input, p: Place, depth: nat)
    requires depth <= i.limits.maxDepth
    ensures TrailsBelow(i, p, depth, 0) == [] && ListsTo(i, p, 0, []) && Shares(i, p, []) == ZERO
  {
    hide Trails, Step, Width, Reached, Prefixed, Share;
  }

  lemma NoneScanned(i: Input, p: Place, depth: nat)
    ensures Children(i, p.node, 0) == []
    ensures Plus(Hits(multiset([])), ScannedAll(i, [], depth)) == ZERO
  {
    NoneBut(i, p.node);
    NoneInAll(i, depth);
    PlusRegroups(ZERO, ZERO, ZERO);
    NoHits();
    hide *;
  }

  lemma NoneBut(i: Input, n: Node)
    ensures Children(i, n, 0) == []
  {
  }

  lemma NoneInAll(i: Input, depth: nat)
    ensures ScannedAll(i, [], depth) == ZERO && ZERO.clean
  {
  }

  lemma NoHits()
    ensures Hits(multiset([])) == ZERO
  {
  }

  /** One entry more of a node. */
  lemma BelowStep(i: Input, p: Place, depth: nat, k: nat)
    requires depth <= i.limits.maxDepth && k < Width(i, p.node) && Good(i, p.node)
    ensures var n, d := p.node, depth + 1;
            var own, all := Own(i, n, k), ScannedAll(i, Children(i, n, k), d);
            match Step(i, n, k)
            case None => Own(i, n, k + 1) == own && Children(i, n, k + 1) == Children(i, n, k)
            case Some(q) =>
              && multiset(Own(i, n, k + 1)) == multiset(own) + HitOf(q).hits
              && ScannedAll(i, Children(i, n, k + 1), d) == Plus(all, Scanned(i, q.node, d))
              && (ScannedAll(i, Children(i, n, k + 1), d).clean <==> all.clean && Scanned(i, q.node, d).clean)
  {
    StepIs(i, p.node, k);
    hide VerdictAt, Step, Width, Scanned;
    var v := VerdictAt(i, p.node, k);
    if v.Visit? || v.Report? {
      var children := Children(i, p.node, k + 1);
      assert children[..|children| - 1] == Children(i, p.node, k);
    }
  }

  lemma HitsShuffle(own: multiset<string>, all: Sum, q: Place, below: Sum)
    ensures Plus(Plus(Hits(own), all), Plus(HitOf(q), below)) == Plus(Hits(own + HitOf(q).hits), Plus(all, below))
  {
  }

  // ---- Clean is nothing wrong reached, once is nothing shared ----

  lemma {:induction false} ChildClean(i: Input, p: Place, depth: nat, k: nat, w: nat)
    requires depth <= i.limits.maxDepth && k < w <= Width(i, p.node) && Good(i, p.node)
    requires ScannedAll(i, Children(i, p.node, w), depth + 1).clean
    ensures Step(i, p.node, k).Some? ==> Scanned(i, Step(i, p.node, k).value.node, depth + 1).clean
    decreases w
  {
    hide *;
    BelowStep(i, p, depth, w - 1);
    if k < w - 1 {
      ChildClean(i, p, depth, k, w - 1);
    }
  }

  lemma {:induction false} CleanThenSound(i: Input, p: Place, depth: nat, trail: seq<nat>)
    requires Scanned(i, p.node, depth).clean && Reached(i, p, trail).Some?
    ensures Sound(i, Reached(i, p, trail).value.node, depth + |trail|)
    decreases |trail|
  {
    hide Scanned, Step, Sound, Good, Width, Children, ScannedAll;
    CleanIs(i, p.node, depth);
    SoundIffGood(i, p.node, depth);
    if trail != [] {
      StepWithin(i, p.node, trail[0]);
      ChildClean(i, p, depth, trail[0], Width(i, p.node));
      CleanThenSound(i, Step(i, p.node, trail[0]).value, depth + 1, trail[1..]);
    }
  }

  lemma ClearBelow(i: Input, p: Place, depth: nat, k: nat)
    requires Clear(i, p, depth)
    ensures Sound(i, p.node, depth)
    ensures Step(i, p.node, k).Some? ==> Clear(i, Step(i, p.node, k).value, depth + 1)
  {
    hide Sound, Step;
    var none: seq<nat> := [];
    assert Reached(i, p, none).Some?;
    if Step(i, p.node, k).Some? {
      var q := Step(i, p.node, k).value;
      forall trail | Reached(i, q, trail).Some?
        ensures Sound(i, Reached(i, q, trail).value.node, depth + 1 + |trail|)
      {
        var longer := [k] + trail;
        assert longer[1..] == trail;
        assert Reached(i, p, longer) == Reached(i, q, trail);
        assert depth + |longer| == depth + 1 + |trail|;
      }
    }
  }

  lemma {:induction false} ClearThenClean(i: Input, p: Place, depth: nat)
    requires Clear(i, p, depth)
    ensures Scanned(i, p.node, depth).clean
    decreases Room(i, depth), Width(i, p.node) + 1
  {
    ClearBelow(i, p, depth, 0);
    SoundIffGood(i, p.node, depth);
    CleanIs(i, p.node, depth);
    hide *;
    ClearThenCleanBelow(i, p, depth, Width(i, p.node));
  }

  lemma {:induction false} ClearThenCleanBelow(i: Input, p: Place, depth: nat, k: nat)
    requires Clear(i, p, depth) && Good(i, p.node) && depth <= i.limits.maxDepth && k <= Width(i, p.node)
    ensures ScannedAll(i, Children(i, p.node, k), depth + 1).clean
    decreases Room(i, depth), k
  {
    hide *;
    if k == 0 {
      NoneBut(i, p.node);
      NoneInAll(i, depth + 1);
    } else {
      BelowStep(i, p, depth, k - 1);
      ClearThenCleanBelow(i, p, depth, k - 1);
      ClearBelow(i, p, depth, k - 1);
      RoomBelow(i, depth);
      if Step(i, p.node, k - 1).Some? {
        ClearThenClean(i, Step(i, p.node, k - 1).value, depth + 1);
      }
    }
  }

  /** The recursive scan finds nothing wrong exactly when nothing wrong is reached. */
  lemma CleanIffClear(i: Input, p: Place, depth: nat)
    ensures Scanned(i, p.node, depth).clean <==> Clear(i, p, depth)
  {
    hide Scanned, Sound, Reached;
    if Scanned(i, p.node, depth).clean {
      forall trail | Reached(i, p, trail).Some?
        ensures Sound(i, Reached(i, p, trail).value.node, depth + |trail|)
      {
        CleanThenSound(i, p, depth, trail);
      }
    }
    if Clear(i, p, depth) {
      ClearThenClean(i, p, depth);
    }
  }

  ghost predicate Once(ids: multiset<nat>) {
    forall id | id in ids :: ids[id] == 1
  }

  ghost predicate LeadsTo(i: Input, p: Place, trail: seq<nat>, id: nat) {
    LeadsToContainer(i, p, trail) && Reached(i, p, trail).value.node.value.id == id
  }

  ghost predicate LeadsToSecret(i: Input, p: Place, trail: seq<nat>, path: string) {
    && Reached(i, p, trail).Some? && Reached(i, p, trail).value.secret
    && Reached(i, p, trail).value.node.path == path
  }

  lemma SharesStep(i: Input, p: Place, trails: seq<seq<nat>>, id: nat, path: string)
    requires trails != []
    ensures var front, last := Shares(i, p, trails[..|trails| - 1]), trails[|trails| - 1];
            && Shares(i, p, trails).ids[id] == front.ids[id] + (if LeadsTo(i, p, last, id) then 1 else 0)
            && Shares(i, p, trails).hits[path] == front.hits[path] + (if LeadsToSecret(i, p, last, path) then 1 else 0)
            && Shares(i, p, trails).nodes == front.nodes + (if Reached(i, p, last).Some? then 1 else 0)
  {
    hide Reached, Skipped, Width;
  }

  ghost predicate Met(i: Input, p: Place, trails: seq<seq<nat>>, id: nat) {
    exists a: nat :: a < |trails| && LeadsTo(i, p, trails[a], id)
  }

  ghost predicate MetTwice(i: Input, p: Place, trails: seq<seq<nat>>, id: nat) {
    exists a: nat, b: nat :: a < b < |trails| && LeadsTo(i, p, trails[a], id) && LeadsTo(i, p, trails[b], id)
  }

  lemma MetStep(i: Input, p: Place, trails: seq<seq<nat>>, id: nat)
    requires trails != []
    ensures var front, last := trails[..|trails| - 1], trails[|trails| - 1];
            Met(i, p, trails, id) <==> Met(i, p, front, id) || LeadsTo(i, p, last, id)
  {
    hide LeadsTo;
    var front, last := trails[..|trails| - 1], trails[|trails| - 1];
    if Met(i, p, front, id) {
      var a: nat :| a < |front| && LeadsTo(i, p, front[a], id);
      assert LeadsTo(i, p, trails[a], id);
    }
    if Met(i, p, trails, id) && !LeadsTo(i, p, last, id) {
      var a: nat :| a < |trails| && LeadsTo(i, p, trails[a], id);
      assert LeadsTo(i, p, front[a], id);
    }
  }

  lemma MetTwiceStep(i: Input, p: Place, trails: seq<seq<nat>>, id: nat)
    requires trails != []
    ensures var front, last := trails[..|trails| - 1], trails[|trails| - 1];
            MetTwice(i, p, trails, id) <==>
              || MetTwice(i, p, front, id)
              || (Met(i, p, front, id) && LeadsTo(i, p, last, id))
  {
    hide LeadsTo;
    var front, last := trails[..|trails| - 1], trails[|trails| - 1];
    if MetTwice(i, p, front, id) {
      var a: nat, b: nat :| a < b < |front| && LeadsTo(i, p, front[a], id) && LeadsTo(i, p, front[b], id);
      assert LeadsTo(i, p, trails[a], id) && LeadsTo(i, p, trails[b], id);
    }
    if Met(i, p, front, id) && LeadsTo(i, p, last, id) {
      var a: nat :| a < |front| && LeadsTo(i, p, front[a], id);
      assert LeadsTo(i, p, trails[a], id) && LeadsTo(i, p, trails[|front|], id);
    }
    if MetTwice(i, p, trails, id) {
      var a: nat, b: nat :| a < b < |trails| && LeadsTo(i, p, trails[a], id) && LeadsTo(i, p, trails[b], id);
      assert LeadsTo(i, p, front[a], id);
      assert b < |front| ==> LeadsTo(i, p, front[b], id);
    }
  }

  lemma {:induction false} IdMet(i: Input, p: Place, trails: seq<seq<nat>>, id: nat)
    ensures Shares(i, p, trails).ids[id] > 0 <==> Met(i, p, trails, id)
    ensures Shares(i, p, trails).ids[id] > 1 <==> MetTwice(i, p, trails, id)
  {
    hide LeadsTo;
    if trails == [] {
      assert Shares(i, p, trails) == ZERO;
    } else {
      hide Shares, Met, MetTwice;
      SharesStep(i, p, trails, id, "");
      MetStep(i, p, trails, id);
      MetTwiceStep(i, p, trails, id);
      IdMet(i, p, trails[..|trails| - 1], id);
    }
  }

  /** Listed trails are pairwise different, and every trail that leads somewhere is among them. */
  lemma Listed(i: Input, p: Place, trails: seq<seq<nat>>)
    requires Lists(i, p, trails)
    ensures forall a, b | 0 <= a < b < |trails| :: trails[a] != trails[b]
    ensures forall t | Reached(i, p, t).Some? :: exists a: nat :: a < |trails| && trails[a] == t
    ensures forall a | 0 <= a < |trails| :: Reached(i, p, trails[a]).Some?
  {
    hide Reached;
    forall a, b | 0 <= a < b < |trails| ensures trails[a] != trails[b] {
      assert trails == trails[..b] + trails[b..];
      assert trails[a] == trails[..b][a] && trails[b] == trails[b..][0];
      assert multiset(trails) == multiset(trails[..b]) + multiset(trails[b..]);
      assert multiset(trails)[trails[b]] <= 1;
    }
    forall t | Reached(i, p, t).Some? ensures exists a: nat :: a < |trails| && trails[a] == t {
      assert t in multiset(trails);
      assert t in trails;
    }
    forall a | 0 <= a < |trails| ensures Reached(i, p, trails[a]).Some? {
      assert trails[a] in multiset(trails);
    }
  }

  /** Among different trails a container is met twice exactly when it is shared. */
  lemma OnceIffUnshared(i: Input, p: Place, trails: seq<seq<nat>>)
    requires Lists(i, p, trails)
    ensures Once(Shares(i, p, trails).ids) <==> Unshared(i, p)
  {
    hide Shares, Lists, Met, MetTwice, LeadsTo;
    var ids := Shares(i, p, trails).ids;
    forall id ensures MetTwice(i, p, trails, id) <==> ids[id] > 1 {
      IdMet(i, p, trails, id);
    }
    if Unshared(i, p) {
      UnsharedNotTwice(i, p, trails);
    }
    if forall id :: !MetTwice(i, p, trails, id) {
      NotTwiceUnshared(i, p, trails);
    }
  }

  lemma UnsharedNotTwice(i: Input, p: Place, trails: seq<seq<nat>>)
    requires Lists(i, p, trails) && Unshared(i, p)
    ensures forall id :: !MetTwice(i, p, trails, id)
  {
    Listed(i, p, trails);
    hide Reached, Lists;
    forall id, a: nat, b: nat | a < b < |trails|
      ensures !(LeadsTo(i, p, trails[a], id) && LeadsTo(i, p, trails[b], id))
    {
      assert trails[a] != trails[b];
    }
  }

  lemma NotTwiceUnshared(i: Input, p: Place, trails: seq<seq<nat>>)
    requires Lists(i, p, trails) && forall id :: !MetTwice(i, p, trails, id)
    ensures Unshared(i, p)
  {
    Listed(i, p, trails);
    hide Reached, Lists;
    forall s, t | LeadsToContainer(i, p, s) && LeadsToContainer(i, p, t)
      && Reached(i, p, s).value.node.value == Reached(i, p, t).value.node.value
      ensures s == t
    {
      var id := Reached(i, p, s).value.node.value.id;
      var a: nat :| a < |trails| && trails[a] == s;
      var b: nat :| b < |trails| && trails[b] == t;
      assert LeadsTo(i, p, trails[a], id) && LeadsTo(i, p, trails[b], id);
      assert !MetTwice(i, p, trails, id);
    }
  }

  ghost predicate SecretMet(i: Input, p: Place, trails: seq<seq<nat>>, path: string) {
    exists a: nat :: a < |trails| && LeadsToSecret(i, p, trails[a], path)
  }

  lemma SecretMetStep(i: Input, p: Place, trails: seq<seq<nat>>, path: string)
    requires trails != []
    ensures var front, last := trails[..|trails| - 1], trails[|trails| - 1];
            SecretMet(i, p, trails, path) <==> SecretMet(i, p, front, path) || LeadsToSecret(i, p, last, path)
  {
    hide LeadsToSecret;
    var front, last := trails[..|trails| - 1], trails[|trails| - 1];
    if SecretMet(i, p, front, path) {
      var a: nat :| a < |front| && LeadsToSecret(i, p, front[a], path);
      assert LeadsToSecret(i, p, trails[a], path);
    }
    if SecretMet(i, p, trails, path) && !LeadsToSecret(i, p, last, path) {
      var a: nat :| a < |trails| && LeadsToSecret(i, p, trails[a], path);
      assert LeadsToSecret(i, p, front[a], path);
    }
  }

  lemma {:induction false} HitMet(i: Input, p: Place, trails: seq<seq<nat>>, path: string)
    ensures path in Shares(i, p, trails).hits <==> SecretMet(i, p, trails, path)
  {
    hide LeadsToSecret;
    if trails == [] {
      assert Shares(i, p, trails) == ZERO;
    } else {
      hide Shares, SecretMet;
      SharesStep(i, p, trails, 0, path);
      SecretMetStep(i, p, trails, path);
      HitMet(i, p, trails[..|trails| - 1], path);
    }
  }

  lemma {:induction false} SharesCount(i: Input, p: Place, trails: seq<seq<nat>>)
    requires forall a | 0 <= a < |trails| :: Reached(i, p, trails[a]).Some?
    ensures Shares(i, p, trails).nodes == |trails|
  {
    hide Reached;
    if trails != [] {
      SharesStep(i, p, trails, 0, "");
      hide Shares;
      SharesCount(i, p, trails[..|trails| - 1]);
    }
  }

  /** What a scan finds: with every trail that leads anywhere taken once, the paths of those that lead to a secret, and
      their number. */
  ghost predicate Found(i: Input, payload: Value, hits: multiset<string>, items: nat) {
    && (exists trails ::
          Lists(i, Start(payload), trails) && |trails| == items && Shares(i, Start(payload), trails).hits == hits)
    && (forall path :: path in hits <==> exists trail :: LeadsToSecret(i, Start(payload), trail, path))
  }

  /** The recursive scan told by reachability: when it is clean, when it meets nothing twice, and what it finds. */
  lemma RecursiveIs(i: Input, payload: Value)
    ensures var all := Scanned(i, Node(payload, ""), 0);
            && (all.clean <==> Clear(i, Start(payload), 0))
            && (all.clean ==> (Once(all.ids) <==> Unshared(i, Start(payload))))
            && (all.clean ==> Found(i, payload, all.hits, all.nodes))
  {
    hide Clear, Unshared, Once, LeadsToSecret, Scanned, Trails, Reached, Lists, Shares, Found;
    var p := Start(payload);
    CleanIffClear(i, p, 0);
    if Scanned(i, p.node, 0).clean {
      var trails := Trails(i, p, 0);
      TrailsAre(i, p, 0);
      NotSecretItself(i, payload, Scanned(i, p.node, 0));
      OnceIffUnshared(i, p, trails);
      FoundBy(i, payload, trails);
    }
  }

  lemma FoundBy(i: Input, payload: Value, trails: seq<seq<nat>>)
    requires Lists(i, Start(payload), trails)
    ensures Found(i, payload, Shares(i, Start(payload), trails).hits, Shares(i, Start(payload), trails).nodes)
  {
    hide *;
    var p := Start(payload);
    Listed(i, p, trails);
    SharesCount(i, p, trails);
    SecretsAre(i, p, trails);
    FoundFrom(i, payload, trails, Shares(i, p, trails));
  }

  lemma FoundFrom(i: Input, payload: Value, trails: seq<seq<nat>>, all: Sum)
    requires Lists(i, Start(payload), trails) && Shares(i, Start(payload), trails) == all && all.nodes == |trails|
    requires forall path :: path in all.hits <==> exists trail :: LeadsToSecret(i, Start(payload), trail, path)
    ensures Found(i, payload, all.hits, all.nodes)
  {
    hide Lists, Shares, Start, LeadsToSecret;
  }

  lemma NotSecretItself(i: Input, payload: Value, all: Sum)
    ensures Plus(HitOf(Start(payload)), all) == all
  {
  }

  lemma SecretsAre(i: Input, p: Place, trails: seq<seq<nat>>)
    requires Lists(i, p, trails)
    ensures forall path ::
              path in Shares(i, p, trails).hits <==> exists trail :: LeadsToSecret(i, p, trail, path)
  {
    Listed(i, p, trails);
    hide Shares, Reached, Lists;
    forall path
      ensures path in Shares(i, p, trails).hits <==> exists trail :: LeadsToSecret(i, p, trail, path)
    {
      HitMet(i, p, trails, path);
    }
  }

  // ---- The explicit stack ----

  datatype Frame = Frame(node: Node, depth: nat)

  function Pending(i: Input, stack: seq<Frame>): Sum {
    if stack == [] then ZERO
    else Plus(Pending(i, stack[..|stack| - 1]), Scanned(i, stack[|stack| - 1].node, stack[|stack| - 1].depth))
  }

  function Frames(nodes: seq<Node>, depth: nat): (r: seq<Frame>)
    ensures |r| == |nodes|
  {
    if nodes == [] then [] else Frames(nodes[..|nodes| - 1], depth) + [Frame(nodes[|nodes| - 1], depth)]
  }

  lemma PendingPush(i: Input, stack: seq<Frame>, f: Frame)
    ensures Pending(i, stack + [f]) == Plus(Pending(i, stack), Scanned(i, f.node, f.depth))
  {
    hide Scanned, Plus;
    assert (stack + [f])[..|stack|] == stack;
  }

  lemma {:induction false} PendingExtend(i: Input, stack: seq<Frame>, nodes: seq<Node>, depth: nat)
    ensures Pending(i, stack + Frames(nodes, depth)) == Plus(Pending(i, stack), ScannedAll(i, nodes, depth))
  {
    hide Scanned, Plus, Pending;
    if nodes == [] {
      assert stack + Frames(nodes, depth) == stack;
      PlusRegroups(Pending(i, stack), ZERO, ZERO);
    } else {
      var front, last := nodes[..|nodes| - 1], nodes[|nodes| - 1];
      PendingExtend(i, stack, front, depth);
      PendingPush(i, stack + Frames(front, depth), Frame(last, depth));
      assert stack + Frames(front, depth) + [Frame(last, depth)] == stack + Frames(nodes, depth);
      PlusRegroups(Pending(i, stack), ScannedAll(i, front, depth), Scanned(i, last, depth));
    }
  }

  lemma {:induction false} TotalsCount(i: Input, nodes: seq<Node>, depth: nat)
    ensures ScannedAll(i, nodes, depth).total >= |nodes|
  {
    if nodes != [] {
      TotalsCount(i, nodes[..|nodes| - 1], depth);
      TotalPositive(i, nodes[|nodes| - 1], depth);
      hide Scanned;
    }
  }

  lemma TotalPositive(i: Input, n: Node, depth: nat)
    ensures Scanned(i, n, depth).total >= 1
  {
    hide Own, Children, Width, ScannedAll;
  }

  lemma {:induction false} PendingCounts(i: Input, stack: seq<Frame>)
    ensures Pending(i, stack).total >= |stack|
  {
    if stack != [] {
      PendingCounts(i, stack[..|stack| - 1]);
      TotalPositive(i, stack[|stack| - 1].node, stack[|stack| - 1].depth);
      hide Scanned;
    }
  }

  /** A node within the depth limit stands for itself, its entries and all below them. */
  lemma WidthCounts(i: Input, n: Node, depth: nat)
    requires depth <= i.limits.maxDepth
    ensures Scanned(i, n, depth).total >= 1 + Width(i, n)
  {
    TotalsCount(i, Children(i, n, Width(i, n)), depth + 1);
    hide Own, Children, Width, ScannedAll;
  }

  // ---- One turn of the loop ----

  lemma {:induction false} OwnGrows(i: Input, n: Node, k: nat, w: nat)
    requires k <= w <= Width(i, n)
    ensures |Own(i, n, k)| <= |Own(i, n, w)|
    decreases w
  {
    if k < w { OwnGrows(i, n, k, w - 1); }
  }

  /** The loops over a container's entries: the children to visit and the hits found, or the first thing wrong. */
  method Expand(i: Input, n: Node, depth: nat, remaining: nat, before: seq<string>)
    returns (children: seq<Frame>, hits: seq<string>, error: Option<Error>)
    ensures error.None? ==>
              && Good(i, n) && Width(i, n) <= remaining
              && children == Frames(Children(i, n, Width(i, n)), depth + 1)
              && hits == before + Own(i, n, Width(i, n))
              && (|hits| == |before| || |hits| <= i.limits.maxHits)
    ensures error.Some? ==>
              || !Good(i, n)
              || Width(i, n) > remaining
              || |before| + |Own(i, n, Width(i, n))| > i.limits.maxHits
    ensures error.Some? && error.value.ItemBudget? ==> Width(i, n) > remaining
    ensures error.Some? && error.value.HitBudget? ==> |before| + |Own(i, n, Width(i, n))| > i.limits.maxHits
    ensures error.Some? ==> !error.value.CyclicOrAliased? && !error.value.DepthBudget?
  {
    hide Width, VerdictAt, Children, Own, Frames, Good;
    children, hits, error := [], before, None;
    if n.value.Foreign? {
      ForeignIsNotGood(i, n);
      return children, hits, Some(Unsupported);
    }
    var width := Width(i, n);
    NothingYet(i, n, depth);
    for k := 0 to width
      invariant k <= remaining
      invariant children == Frames(Children(i, n, k), depth + 1)
      invariant hits == before + Own(i, n, k)
      invariant |hits| == |before| || |hits| <= i.limits.maxHits
      invariant forall m | 0 <= m < k :: !VerdictAt(i, n, m).Bad?
    {
      if k >= remaining {
        return children, hits, Some(ItemBudget);
      }
      OwnGrows(i, n, k + 1, width);
      var verdict := VerdictAt(i, n, k);
      FramesStep(i, n, k, depth + 1);
      match verdict {
        case Bad(wrong) =>
          BadIsNotGood(i, n, k);
          return children, hits, Some(Wrongly(wrong));
        case Skip =>
        case Visit(child) => children := children + [Frame(child, depth + 1)];
        case Report(child) =>
          hits := hits + [child.path];
          if |hits| > i.limits.maxHits {
            return children, hits, Some(HitBudget);
          }
          children := children + [Frame(child, depth + 1)];
      }
    }
    AllGood(i, n);
  }

  lemma NothingYet(i: Input, n: Node, depth: nat)
    ensures Frames(Children(i, n, 0), depth + 1) == [] && Own(i, n, 0) == []
  {
  }

  lemma ForeignIsNotGood(i: Input, n: Node)
    requires n.value.Foreign?
    ensures !Good(i, n)
  {
    hide VerdictAt, Width;
  }

  lemma BadIsNotGood(i: Input, n: Node, k: nat)
    requires k < Width(i, n) && VerdictAt(i, n, k).Bad?
    ensures !Good(i, n)
  {
    hide VerdictAt, Width;
  }

  lemma AllGood(i: Input, n: Node)
    requires !n.value.Foreign? && forall k | 0 <= k < Width(i, n) :: !VerdictAt(i, n, k).Bad?
    ensures Good(i, n)
  {
    hide VerdictAt, Width;
  }

  /** The errors one entry can cause. */
  function Wrongly(e: Error): (r: Error)
    ensures !r.CyclicOrAliased? && !r.DepthBudget? && !r.ItemBudget? && !r.HitBudget?
  {
    if e.OversizedKey? || e.PathBudget? || e.OversizedValue? || e.NonStringSensitive? then e else Unsupported
  }

  lemma FramesStep(i: Input, n: Node, k: nat, depth: nat)
    requires k < Width(i, n)
    ensures var v := VerdictAt(i, n, k);
            && Frames(Children(i, n, k + 1), depth) ==
               Frames(Children(i, n, k), depth) + (if v.Visit? || v.Report? then [Frame(v.child, depth)] else [])
            && Own(i, n, k + 1) == Own(i, n, k) + (if v.Report? then [v.child.path] else [])
  {
    var v := VerdictAt(i, n, k);
    if v.Visit? || v.Report? {
      assert Children(i, n, k + 1)[..|Children(i, n, k)|] == Children(i, n, k);
    } else {
      assert Children(i, n, k + 1) == Children(i, n, k);
    }
  }

  /** Popping a node moves its own share to what is done and leaves its children's on the stack. */
  lemma PopSum(i: Input, done: Sum, rest: seq<Frame>, f: Frame)
    requires f.depth <= i.limits.maxDepth
    ensures var children := Frames(Children(i, f.node, Width(i, f.node)), f.depth + 1);
            Plus(done, Pending(i, rest + [f])) ==
            Plus(Plus(done, Local(i, f.node)), Pending(i, rest + children))
  {
    hide Plus, Pending, Scanned, ScannedAll, Local, Children, Width, Frames;
    var nodes := Children(i, f.node, Width(i, f.node));
    ScannedStep(i, f.node, f.depth);
    var own, below, later := Local(i, f.node), ScannedAll(i, nodes, f.depth + 1), Pending(i, rest);
    calc {
      Plus(done, Pending(i, rest + [f]));
      { PendingPush(i, rest, f); }
      Plus(done, Plus(later, Plus(own, below)));
      { PlusShuffle(done, later, own, below); }
      Plus(Plus(done, own), Plus(later, below));
      { PendingExtend(i, rest, nodes, f.depth + 1); }
      Plus(Plus(done, own), Pending(i, rest + Frames(nodes, f.depth + 1)));
    }
  }

  lemma PlusShuffle(a: Sum, b: Sum, c: Sum, d: Sum)
    ensures Plus(a, Plus(b, Plus(c, d))) == Plus(Plus(a, c), Plus(b, d))
  {
  }

  lemma ScannedStep(i: Input, n: Node, depth: nat)
    requires depth <= i.limits.maxDepth
    ensures Scanned(i, n, depth) == Plus(Local(i, n), ScannedAll(i, Children(i, n, Width(i, n)), depth + 1))
  {
  }

  // ---- How full the stack and the count of visited nodes get ----

  function Max(a: nat, b: nat): nat {
    if a < b then b else a
  }

  /** What visiting a node asks of the item budget: the nodes visited with this one, those waiting below it on the
      stack, and its entries, or one more where it has none. */
  function Demand(i: Input, n: Node, done: nat, waiting: nat): nat {
    done + 1 + waiting + Max(1, Width(i, n))
  }

  /** The most that is asked of the item budget from a node down, when `done` nodes were visited before it and
      `waiting` are below it on the stack: the children are visited from the last to the first, and a node that is
      too deep is only counted. */
  function Peak(i: Input, n: Node, depth: nat, done: nat, waiting: nat): nat
    decreases Room(i, depth), 0
  {
    if depth > i.limits.maxDepth then done + 1 + waiting
    else Max(Demand(i, n, done, waiting), PeakAll(i, Children(i, n, Width(i, n)), depth + 1, done + 1, waiting))
  }

  function PeakAll(i: Input, nodes: seq<Node>, depth: nat, done: nat, waiting: nat): nat
    decreases Room(i, depth), |nodes|
  {
    if nodes == [] then 0
    else
      var front, last := nodes[..|nodes| - 1], nodes[|nodes| - 1];
      Max(Peak(i, last, depth, done, waiting + |front|),
          PeakAll(i, front, depth, done + Scanned(i, last, depth).nodes, waiting))
  }

  function PeakStack(i: Input, stack: seq<Frame>, done: nat): nat {
    if stack == [] then 0
    else
      var rest, f := stack[..|stack| - 1], stack[|stack| - 1];
      Max(Peak(i, f.node, f.depth, done, |rest|), PeakStack(i, rest, done + Scanned(i, f.node, f.depth).nodes))
  }

  lemma PeakPush(i: Input, rest: seq<Frame>, f: Frame, done: nat)
    ensures PeakStack(i, rest + [f], done) ==
            Max(Peak(i, f.node, f.depth, done, |rest|),
                PeakStack(i, rest, done + Scanned(i, f.node, f.depth).nodes))
  {
    hide Peak, Scanned, Max;
    assert (rest + [f])[..|rest|] == rest;
  }

  lemma PeakAllStep(i: Input, nodes: seq<Node>, depth: nat, done: nat, waiting: nat)
    requires nodes != []
    ensures var front, last := nodes[..|nodes| - 1], nodes[|nodes| - 1];
            var below, top := ScannedAll(i, front, depth), Scanned(i, last, depth);
            && PeakAll(i, nodes, depth, done, waiting) ==
               Max(Peak(i, last, depth, done, waiting + |front|), PeakAll(i, front, depth, done + top.nodes, waiting))
            && ScannedAll(i, nodes, depth).nodes == below.nodes + top.nodes
            && ScannedAll(i, nodes, depth).total == below.total + top.total
  {
    hide Scanned, Peak;
  }

  lemma MaxRegroups(a: nat, b: nat, c: nat)
    ensures Max(Max(a, b), c) == Max(a, Max(b, c))
  {
  }

  lemma AtLeastNothing(a: nat)
    ensures Max(0, a) == a
  {
  }

  lemma {:induction false} PeakExtend(i: Input, rest: seq<Frame>, nodes: seq<Node>, depth: nat, done: nat)
    ensures PeakStack(i, rest + Frames(nodes, depth), done) ==
            Max(PeakAll(i, nodes, depth, done, |rest|),
                PeakStack(i, rest, done + ScannedAll(i, nodes, depth).nodes))
  {
    hide Peak, PeakStack, Scanned, Max;
    if nodes == [] {
      AtLeastNothing(PeakStack(i, rest, done));
      assert rest + Frames(nodes, depth) == rest;
    } else {
      var front, last := nodes[..|nodes| - 1], nodes[|nodes| - 1];
      var later := done + Scanned(i, last, depth).nodes;
      PeakExtend(i, rest, front, depth, later);
      PeakAllStep(i, nodes, depth, done, |rest|);
      MaxRegroups(Peak(i, last, depth, done, |rest| + |front|), PeakAll(i, front, depth, later, |rest|),
                  PeakStack(i, rest, later + ScannedAll(i, front, depth).nodes));
      PeakPush(i, rest + Frames(front, depth), Frame(last, depth), done);
      assert rest + Frames(front, depth) + [Frame(last, depth)] == rest + Frames(nodes, depth);
    }
  }

  lemma PeakStep(i: Input, n: Node, depth: nat, done: nat, waiting: nat)
    ensures Peak(i, n, depth, done, waiting) >= done + 1 + waiting
    ensures depth <= i.limits.maxDepth ==>
              Peak(i, n, depth, done, waiting) ==
              Max(Demand(i, n, done, waiting),
                  PeakAll(i, Children(i, n, Width(i, n)), depth + 1, done + 1, waiting))
  {
    hide PeakAll, Children, Width;
  }

  /** Popping a node asks for its demand now and leaves the peak of what is on the stack then. */
  lemma PeakPop(i: Input, rest: seq<Frame>, f: Frame, done: nat)
    ensures PeakStack(i, rest + [f], done) >= done + 1 + |rest|
    ensures f.depth <= i.limits.maxDepth ==>
              var children := Frames(Children(i, f.node, Width(i, f.node)), f.depth + 1);
              PeakStack(i, rest + [f], done) ==
              Max(Demand(i, f.node, done, |rest|), PeakStack(i, rest + children, done + 1))
  {
    hide Peak, PeakStack, Scanned, ScannedAll, PeakAll, Children, Width, Frames, Demand;
    PeakPush(i, rest, f, done);
    PeakStep(i, f.node, f.depth, done, |rest|);
    if f.depth <= i.limits.maxDepth {
      ScannedStep(i, f.node, f.depth);
      PeakExtend(i, rest, Children(i, f.node, Width(i, f.node)), f.depth + 1, done + 1);
    }
  }

  lemma PeakAlone(i: Input, f: Frame)
    ensures PeakStack(i, [f], 0) == Peak(i, f.node, f.depth, 0, 0)
  {
    hide Peak, Scanned;
    assert [f][..0] == [];
    assert [f] == [] + [f];
    PeakPush(i, [], f, 0);
  }

  /** The demand never exceeds one more than the nodes visited and the entries skipped. */
  lemma {:induction false} PeakAtMostTotal(i: Input, n: Node, depth: nat, done: nat, waiting: nat)
    ensures Peak(i, n, depth, done, waiting) <= done + waiting + Scanned(i, n, depth).total + 1
    ensures Scanned(i, n, depth).nodes <= Scanned(i, n, depth).total
    decreases Room(i, depth), 0
  {
    hide Children, Own, Good, ScannedAll, PeakAll;
    if depth <= i.limits.maxDepth {
      var children := Children(i, n, Width(i, n));
      WidthCounts(i, n, depth);
      PeakAllAtMostTotal(i, children, depth + 1, done + 1, waiting);
    }
  }

  lemma {:induction false} PeakAllAtMostTotal(i: Input, nodes: seq<Node>, depth: nat, done: nat, waiting: nat)
    ensures PeakAll(i, nodes, depth, done, waiting) <= done + waiting + ScannedAll(i, nodes, depth).total + 1
    ensures ScannedAll(i, nodes, depth).nodes <= ScannedAll(i, nodes, depth).total
    decreases Room(i, depth), |nodes|
  {
    hide Scanned, Peak;
    if nodes != [] {
      var front, last := nodes[..|nodes| - 1], nodes[|nodes| - 1];
      PeakAllStep(i, nodes, depth, done, waiting);
      hide ScannedAll, PeakAll, Plus;
      PeakAtMostTotal(i, last, depth, done, waiting + |front|);
      PeakAllAtMostTotal(i, front, depth, done + Scanned(i, last, depth).nodes, waiting);
      TotalsCount(i, front, depth);
    }
  }

  lemma NoPeak(i: Input, done: nat)
    ensures PeakStack(i, [], done) == 0
  {
  }

  // ---- The loop ----

  /** What the node on top of the stack contributes to the whole. */
  lemma TopCounts(i: Input, done: Sum, rest: seq<Frame>, f: Frame)
    ensures var whole := Plus(done, Pending(i, rest + [f]));
            && whole.total >= done.total + |rest| + 1
            && (f.depth > i.limits.maxDepth ==> !whole.clean)
            && (f.depth <= i.limits.maxDepth ==>
                  && whole.total >= done.total + |rest| + 1 + Width(i, f.node)
                  && (!Good(i, f.node) ==> !whole.clean)
                  && |whole.hits| >= |done.hits| + |Own(i, f.node, Width(i, f.node))|
                  && (IsContainer(i, f.node.value) ==> whole.ids[f.node.value.id] >= done.ids[f.node.value.id] + 1))
  {
    hide Pending, ScannedAll, Children, Own, Width, Good;
    PendingPush(i, rest, f);
    PendingCounts(i, rest);
    TotalPositive(i, f.node, f.depth);
    if f.depth <= i.limits.maxDepth {
      WidthCounts(i, f.node, f.depth);
      ScannedStep(i, f.node, f.depth);
    }
  }

  /** Nothing is left: what was done is everything. */
  lemma NothingPending(i: Input, done: Sum)
    ensures Plus(done, Pending(i, [])) == done
  {
  }

  lemma Started(i: Input, f: Frame)
    ensures Plus(ZERO, Pending(i, [f])) == Scanned(i, f.node, f.depth)
  {
    hide Scanned;
    assert [f][..0] == [];
  }

  /** The whole scan, by recursion. */
  function Recursive(i: Input, payload: Value): Sum {
    Scanned(i, Node(payload, ""), 0)
  }

  /** The most the whole scan asks of the item budget at once. */
  function Needed(i: Input, payload: Value): nat {
    Peak(i, Node(payload, ""), 0, 0, 0)
  }

  predicate IsMapping(i: Input, v: Value) {
    IsContainer(i, v) && i.heap[v.id].Dict?
  }

  /** `scan_payload_for_secrets`; `items` counts the nodes it visited. */
  method Scan(i: Input, payload: Value) returns (hits: seq<string>, items: nat, error: Option<Error>)
    ensures error.None? ==>
              && multiset(hits) == Recursive(i, payload).hits && |hits| <= i.limits.maxHits
              && Recursive(i, payload).clean && Once(Recursive(i, payload).ids)
              && items == Recursive(i, payload).nodes < i.limits.maxItems
    ensures error.None? <==>
              && IsMapping(i, payload) && Recursive(i, payload).clean && Once(Recursive(i, payload).ids)
              && |Recursive(i, payload).hits| <= i.limits.maxHits && Needed(i, payload) <= i.limits.maxItems
    ensures error.None? ==> Found(i, payload, multiset(hits), items)
    ensures error.None? <==>
              && IsMapping(i, payload) && Clear(i, Start(payload), 0) && Unshared(i, Start(payload))
              && |Recursive(i, payload).hits| <= i.limits.maxHits && Needed(i, payload) <= i.limits.maxItems
    ensures error == Some(ItemBudget) ==> Needed(i, payload) > i.limits.maxItems
    ensures Recursive(i, payload).total < i.limits.maxItems ==>
              (error.None? <==>
                && IsMapping(i, payload) && Recursive(i, payload).clean && Once(Recursive(i, payload).ids)
                && |Recursive(i, payload).hits| <= i.limits.maxHits)
    ensures Recursive(i, payload).total < i.limits.maxItems ==> error != Some(ItemBudget)
  {
    hide Pending, ScannedAll, Scanned, Children, Own, Width, Good, Plus, Local, Frames, Peak, PeakStack, Clear,
         Unshared, Found;
    RecursiveIs(i, payload);
    hits, items, error := [], 0, None;
    if !IsMapping(i, payload) {
      return hits, items, Some(NotAMapping);
    }
    ghost var whole := Recursive(i, payload);
    ghost var done := ZERO;
    var visited: set<nat> := {};
    var stack := [Frame(Node(payload, ""), 0)];
    Started(i, stack[0]);
    PeakAtMostTotal(i, stack[0].node, 0, 0, 0);
    PeakAlone(i, stack[0]);
    ghost var asked: nat := 0;
    while stack != []
      invariant Plus(done, Pending(i, stack)) == whole
      invariant multiset(hits) == done.hits && |hits| <= i.limits.maxHits
      invariant items == done.nodes && done.clean && items <= i.limits.maxItems
      invariant multiset(visited) == done.ids
      invariant Max(asked, PeakStack(i, stack, items)) == Needed(i, payload) && asked <= i.limits.maxItems
      invariant error.None? && (items < i.limits.maxItems || stack != [])
      decreases i.limits.maxItems - items
    {
      var rest, f := stack[..|stack| - 1], stack[|stack| - 1];
      assert rest + [f] == stack;
      TopCounts(i, done, rest, f);
      PeakPop(i, rest, f, items);
      if IsContainer(i, f.node.value) {
        var identity := f.node.value.id;
        if identity in visited {
          return hits, items, Some(CyclicOrAliased);
        }
        visited := visited + {identity};
      }
      items := items + 1;
      if items > i.limits.maxItems {
        return hits, items, Some(ItemBudget);
      }
      if f.depth > i.limits.maxDepth {
        return hits, items, Some(DepthBudget);
      }
      if i.limits.maxItems - items <= |rest| {
        return hits, items, Some(ItemBudget);
      }
      var children;
      children, hits, error := Expand(i, f.node, f.depth, i.limits.maxItems - items - |rest|, hits);
      if error.Some? {
        return;
      }
      asked := Max(asked, Demand(i, f.node, items - 1, |rest|));
      PopSum(i, done, rest, f);
      AddLocal(i, done, f.node);
      done := Plus(done, Local(i, f.node));
      stack := rest + children;
    }
    NothingPending(i, done);
    NoPeak(i, items);
    assert |multiset(hits)| == |hits|;
  }

  lemma AddLocal(i: Input, done: Sum, n: Node)
    ensures var next := Plus(done, Local(i, n));
            && next.hits == done.hits + multiset(Own(i, n, Width(i, n)))
            && next.nodes == done.nodes + 1 && next.total >= done.total + 1
            && next.ids == done.ids + (if IsContainer(i, n.value) then multiset{n.value.id} else multiset{})
            && next.clean == (done.clean && Good(i, n))
  {
    hide Children, Own, Width, Good;
  }

  // ---- The depth limit cuts nothing off a clean scan ----

  ghost predicate Deeper(i: Input, j: Input) {
    j.limits.maxDepth >= i.limits.maxDepth && j == i.(limits := i.limits.(maxDepth := j.limits.maxDepth))
  }

  lemma {:induction false} SameChildren(i: Input, j: Input, n: Node, k: nat)
    requires Deeper(i, j) && k <= Width(i, n)
    ensures Width(j, n) == Width(i, n)
    ensures Children(j, n, k) == Children(i, n, k) && Own(j, n, k) == Own(i, n, k)
  {
    if k > 0 {
      SameVerdict(i, j, n, k - 1);
      hide VerdictAt, Width;
      SameChildren(i, j, n, k - 1);
    }
  }

  lemma SameVerdict(i: Input, j: Input, n: Node, k: nat)
    requires Deeper(i, j) && k < Width(i, n)
    ensures Width(j, n) == Width(i, n) && VerdictAt(j, n, k) == VerdictAt(i, n, k)
  {
  }

  lemma SameGood(i: Input, j: Input, n: Node)
    requires Deeper(i, j) && Width(j, n) == Width(i, n)
    ensures Good(j, n) == Good(i, n)
  {
    hide VerdictAt, Width;
    forall k | 0 <= k < Width(i, n) ensures VerdictAt(j, n, k) == VerdictAt(i, n, k) { SameVerdict(i, j, n, k); }
  }

  lemma SameLocal(i: Input, j: Input, n: Node)
    requires Deeper(i, j)
    ensures Local(j, n) == Local(i, n) && Children(j, n, Width(j, n)) == Children(i, n, Width(i, n))
  {
    hide Width, Children, Own, Good;
    SameChildren(i, j, n, Width(i, n));
    SameGood(i, j, n);
  }

  /** When nothing was wrong, the recursive scan is the unlimited one: no deeper limit changes it. */
  lemma {:induction false} LimitCutsNothing(i: Input, j: Input, n: Node, depth: nat)
    requires Deeper(i, j) && Scanned(i, n, depth).clean
    ensures Scanned(j, n, depth) == Scanned(i, n, depth)
    decreases Room(i, depth), 0
  {
    assert depth <= i.limits.maxDepth;
    SameLocal(i, j, n);
    ScannedStep(i, n, depth);
    ScannedStep(j, n, depth);
    hide Local, Children, Width, Scanned, ScannedAll;
    LimitCutsNothingBelow(i, j, Children(i, n, Width(i, n)), depth + 1);
  }

  lemma {:induction false} LimitCutsNothingBelow(i: Input, j: Input, nodes: seq<Node>, depth: nat)
    requires Deeper(i, j) && ScannedAll(i, nodes, depth).clean
    ensures ScannedAll(j, nodes, depth) == ScannedAll(i, nodes, depth)
    decreases Room(i, depth), |nodes|
  {
    hide Scanned;
    if nodes != [] {
      LimitCutsNothingBelow(i, j, nodes[..|nodes| - 1], depth);
      LimitCutsNothing(i, j, nodes[|nodes| - 1], depth);
    }
  }
}
