/** `resolve_ref` and `schema_def` (tools/gen_command_tree.rs): local `#/…` pointers of
    the API document, and the collapse of a schema to a kind and an element schema. */
module Resolver {
  import opened Wrappers
  import opened Text
  import opened JsonValue
  import opened CommandTreeDefs

  /** `str::trim_start_matches("#/")`: every leading `#/` removed. */
  function TrimRootMarkers(s: string): (r: string)
    ensures !StartsWith(r, "#/")
    ensures EndsWith(s, r)
    decreases |s|
  {
    if StartsWith(s, "#/") then TrimRootMarkers(s[2..]) else s
  }

  /** The pointer segments of a node's `$ref`, when it is a string starting with `#/`. */
  function RefParts(schema: Json): Option<seq<string>> {
    match StrAt(schema, "$ref")
    case None => None
    case Some(reference) =>
      if StartsWith(reference, "#/") then Some(Split(TrimRootMarkers(reference), '/')) else None
  }

  /** The node reached from `node` by following each segment as an object member. */
  function Walk(node: Json, parts: seq<string>): Option<Json> {
    if parts == [] then Some(node)
    else
      match Get(node, parts[0])
      case None => None
      case Some(next) => Walk(next, parts[1..])
  }

  /** What `resolve_ref` returns: the node the pointer reaches, or the input itself when
      there is no pointer or it leads nowhere. */
  function Resolve(doc: Json, schema: Json): Json {
    match RefParts(schema)
    case None => schema
    case Some(parts) => Walk(doc, parts).GetOr(schema)
  }

  /** `resolve_ref`, with its loop over the pointer's segments. */
  method ResolveRef(doc: Json, schema: Json) returns (r: Json)
    ensures r == Resolve(doc, schema)
  {
    var reference := StrAt(schema, "$ref");
    if reference.None? {
      return schema;
    }
    if !StartsWith(reference.value, "#/") {
      return schema;
    }
    var parts := Split(TrimRootMarkers(reference.value), '/');
    var current := doc;
    var i := 0;
    while i < |parts|
      invariant 0 <= i <= |parts|
      invariant Walk(doc, parts) == Walk(current, parts[i..])
    {
      assert parts[i..][1..] == parts[i + 1..];
      var next := Get(current, parts[i]);
      if next.None? {
        return schema;
      }
      current := next.value;
      i := i + 1;
    }
    return current;
  }

  /** Walking a path in two legs is walking it in one. */
  lemma {:induction false} WalkAppend(node: Json, a: seq<string>, b: seq<string>)
    ensures Walk(node, a + b) == if Walk(node, a).Some? then Walk(Walk(node, a).value, b) else None
  {
    if a == [] {
      assert a + b == b;
    } else {
      assert (a + b)[0] == a[0] && (a + b)[1..] == a[1..] + b;
      match Get(node, a[0])
      case None =>
      case Some(next) => WalkAppend(next, a[1..], b);
    }
  }

  /** The text of a pointer to the node at `parts`. */
  function Pointer(parts: seq<string>): string
    requires |parts| >= 1
  {
    "#/" + Join(parts, '/')
  }

  lemma {:induction false} JoinHead(parts: seq<string>, sep: char)
    requires |parts| >= 1
    ensures parts[0] != [] ==> Join(parts, sep) != [] && Join(parts, sep)[0] == parts[0][0]
    ensures parts[0] == [] && |parts| > 1 ==> Join(parts, sep) != [] && Join(parts, sep)[0] == sep
    ensures parts[0] == [] && |parts| == 1 ==> Join(parts, sep) == []
  {
  }

  /** A `$ref` that points at a node, written as segments free of `/` whose first
      segment does not start with `#`, resolves to exactly that node, in one hop: if
      the node holds a `$ref` of its own, that one is not followed. */
  lemma TrimPointer(parts: seq<string>)
    requires |parts| >= 1
    requires parts[0] == [] || parts[0][0] != '#'
    ensures TrimRootMarkers(Pointer(parts)) == Join(parts, '/')
  {
    var j := Join(parts, '/');
    var p := Pointer(parts);
    assert p[..2] == "#/" && p[2..] == j;
    JoinHead(parts, '/');
    assert !StartsWith(j, "#/");
  }

  lemma ResolvePointer(doc: Json, parts: seq<string>, target: Json, rest: seq<(string, Json)>)
    requires |parts| >= 1 && forall i :: 0 <= i < |parts| ==> '/' !in parts[i]
    requires parts[0] == [] || parts[0][0] != '#'
    requires Walk(doc, parts) == Some(target)
    ensures Resolve(doc, Obj([("$ref", Str(Pointer(parts)))] + rest)) == target
  {
    var p := Pointer(parts);
    var schema := Obj([("$ref", Str(p))] + rest);
    assert StrAt(schema, "$ref") == Some(p);
    assert StartsWith(p, "#/");
    TrimPointer(parts);
    SplitJoin(parts, '/');
    assert RefParts(schema) == Some(parts);
  }

  /** The three ways `resolve_ref` gives the node back unchanged: no string `$ref`, a
      `$ref` that does not start with `#/`, and a pointer whose walk reaches, after its
      first `i` segments, a node without the next one. */
  lemma ResolveMissing(doc: Json, schema: Json, i: nat)
    ensures StrAt(schema, "$ref").None? ==> Resolve(doc, schema) == schema
    ensures StrAt(schema, "$ref").Some? && !StartsWith(StrAt(schema, "$ref").value, "#/") ==> Resolve(doc, schema) == schema
    ensures StrAt(schema, "$ref").Some? && StartsWith(StrAt(schema, "$ref").value, "#/") ==>
      var parts := Split(TrimRootMarkers(StrAt(schema, "$ref").value), '/');
      i < |parts| && Walk(doc, parts[..i]).Some? && Get(Walk(doc, parts[..i]).value, parts[i]).None? ==>
        Resolve(doc, schema) == schema
  {
    var reference := StrAt(schema, "$ref");
    if reference.Some? && StartsWith(reference.value, "#/") {
      var parts := Split(TrimRootMarkers(reference.value), '/');
      if i < |parts| && Walk(doc, parts[..i]).Some? && Get(Walk(doc, parts[..i]).value, parts[i]).None? {
        WalkAppend(doc, parts[..i], parts[i..]);
        assert parts[..i] + parts[i..] == parts;
        assert Walk(doc, parts) == None;
      }
    }
  }

  // schema_def

  /** The first element of an array member, when the member is a non-empty array. */
  function FirstOf(schema: Json, key: string): Option<Json> {
    match ArrAt(schema, key)
    case Some(xs) => if xs == [] then None else Some(xs[0])
    case None => None
  }

  /** The branch a composite schema collapses to: the first of a non-empty `allOf`,
      otherwise the first of a non-empty `oneOf`. */
  function Collapse(schema: Json): Option<Json> {
    if FirstOf(schema, "allOf").Some? then FirstOf(schema, "allOf") else FirstOf(schema, "oneOf")
  }

  /** Which rule of `schema_def` applies to a resolved schema. */
  datatype Rule =
    | Branch(first: Json)          // collapse to the first branch of a composite
    | Scalar(kind: string)         // a kind without element schema
    | ArrayOf(items: Option<Json>) // an array, with its `items` when present

  /** The rules in the source's order: a composite first, then an explicit `type`
      (`array` looks at `items`), then `properties`, then `items`, then `unknown`. */
  function RuleOf(schema: Json): Rule {
    match Collapse(schema)
    case Some(first) => Branch(first)
    case None =>
      match StrAt(schema, "type")
      case Some(t) => if t == KindArray then ArrayOf(Get(schema, "items")) else Scalar(t)
      case None =>
        if Get(schema, "properties").Some? then Scalar(KindObject)
        else if Get(schema, "items").Some? then ArrayOf(Get(schema, "items"))
        else Scalar(KindUnknown)
  }

  /** The rule each node follows once its `$ref` is resolved against `doc`. */
  function RulesOf(doc: Json): Json -> Rule {
    node => RuleOf(Resolve(doc, node))
  }

  /** `schema_def`, given `fuel` nested calls, with `rules` the rule each node follows;
      `None` when the fuel runs out. */
  function SchemaDefAt(rules: Json -> Rule, node: Json, fuel: nat): (r: Option<SchemaDef>)
    ensures r.Some? ==> WellShaped(r.value)
    decreases fuel, 1
  {
    if fuel == 0 then None else ApplyRule(rules, rules(node), fuel - 1)
  }

  /** The schema a rule gives, its nested calls given `fuel`. */
  function ApplyRule(rules: Json -> Rule, rule: Rule, fuel: nat): (r: Option<SchemaDef>)
    ensures r.Some? ==> WellShaped(r.value)
    decreases fuel, 2
  {
    match rule
    case Branch(first) => SchemaDefAt(rules, first, fuel)
    case Scalar(k) => Some(SchemaDef(k, None))
    case ArrayOf(None) => Some(SchemaDef(KindArray, None))
    case ArrayOf(Some(items)) =>
      match SchemaDefAt(rules, items, fuel)
      case None => None
      case Some(e) => Some(SchemaDef(KindArray, Some(e)))
  }

  /** How deep `schema_def` may recurse before the model gives up. */
  const SchemaDepthLimit: nat := 64

  /** `schema_def`: the collapsed schema, `unknown` past the depth limit. */
  function SchemaDefOf(doc: Json, node: Json): (d: SchemaDef)
    ensures WellShaped(d)
  {
    SchemaDefAt(RulesOf(doc), node, SchemaDepthLimit).GetOr(SchemaDef(KindUnknown, None))
  }

  /** More fuel never changes a result that was reached. */
  lemma {:induction false} FuelMonotone(rules: Json -> Rule, node: Json, f: nat, g: nat)
    requires f <= g && SchemaDefAt(rules, node, f).Some?
    ensures SchemaDefAt(rules, node, g) == SchemaDefAt(rules, node, f)
    decreases f, 1
  {
    RuleFuelMonotone(rules, rules(node), f - 1, g - 1);
  }

  lemma {:induction false} RuleFuelMonotone(rules: Json -> Rule, rule: Rule, f: nat, g: nat)
    requires f <= g && ApplyRule(rules, rule, f).Some?
    ensures ApplyRule(rules, rule, g) == ApplyRule(rules, rule, f)
    decreases f, 2
  {
    match rule
    case Branch(first) => FuelMonotone(rules, first, f, g);
    case Scalar(_) =>
    case ArrayOf(None) =>
    case ArrayOf(Some(items)) => FuelMonotone(rules, items, f, g);
  }

  /** The array `schema_def` builds from an optional `items`, its element collapsed with
      `fuel` nested calls left. */
  function ArrayWith(rules: Json -> Rule, items: Option<Json>, fuel: nat): Option<SchemaDef> {
    if items.None? then Some(SchemaDef(KindArray, None))
    else if SchemaDefAt(rules, items.value, fuel).Some? then Some(SchemaDef(KindArray, Some(SchemaDefAt(rules, items.value, fuel).value)))
    else None
  }

  /** What `schema_def` returns for a node, in the source's order of precedence, judged on
      the schema its `$ref` resolves to: the first branch of a non-empty `allOf`, else of a
      non-empty `oneOf` (an empty list falls through); else the explicit `type`, where only
      `array` looks at `items`; else `object` for `properties`, an array for `items`, and
      `unknown` when there is none of these. */
  lemma SchemaDefRules(doc: Json, node: Json, fuel: nat)
    ensures var s := Resolve(doc, node); var r := SchemaDefAt(RulesOf(doc), node, fuel + 1);
      (FirstOf(s, "allOf").Some? ==> r == SchemaDefAt(RulesOf(doc), FirstOf(s, "allOf").value, fuel))
      && (FirstOf(s, "allOf").None? && FirstOf(s, "oneOf").Some? ==>
            r == SchemaDefAt(RulesOf(doc), FirstOf(s, "oneOf").value, fuel))
    ensures var s := Resolve(doc, node); var r := SchemaDefAt(RulesOf(doc), node, fuel + 1);
      FirstOf(s, "allOf").None? && FirstOf(s, "oneOf").None? ==>
        (StrAt(s, "type") == Some(KindArray) ==> r == ArrayWith(RulesOf(doc), Get(s, "items"), fuel))
        && (StrAt(s, "type").Some? && StrAt(s, "type") != Some(KindArray) ==> r == Some(SchemaDef(StrAt(s, "type").value, None)))
        && (StrAt(s, "type").None? && Get(s, "properties").Some? ==> r == Some(SchemaDef(KindObject, None)))
        && (StrAt(s, "type").None? && Get(s, "properties").None? && Get(s, "items").Some? ==>
              r == ArrayWith(RulesOf(doc), Get(s, "items"), fuel))
        && (StrAt(s, "type").None? && Get(s, "properties").None? && Get(s, "items").None? ==> r == Some(SchemaDef(KindUnknown, None)))
  {
    assert RulesOf(doc)(node) == RuleOf(Resolve(doc, node));
  }

  /** A schema whose `allOf` points back at itself: `schema_def` follows the pointer and
      the branch forever, so no amount of fuel reaches a result. */
  function CyclicDoc(): Json {
    Obj([("A", CyclicNode())])
  }

  function CyclicNode(): Json {
    Obj([("allOf", Arr([CyclicRef()]))])
  }

  function CyclicRef(): Json {
    Obj([("$ref", Str("#/A"))])
  }

  lemma CyclicResolves()
    ensures Resolve(CyclicDoc(), CyclicRef()) == CyclicNode()
  {
    assert Walk(CyclicDoc(), ["A"]) == Some(CyclicNode());
    assert Pointer(["A"]) == "#/A";
    assert CyclicRef() == Obj([("$ref", Str(Pointer(["A"])))] + []);
    ResolvePointer(CyclicDoc(), ["A"], CyclicNode(), []);
  }

  lemma CyclicCollapses()
    ensures RuleOf(CyclicNode()) == Branch(CyclicRef())
  {
    var ms := CyclicNode().members;
    assert ms[0].0 == "allOf" && ms[0].1 == Arr([CyclicRef()]);
    assert Lookup(ms, "allOf") == Some(Arr([CyclicRef()]));
    assert ArrAt(CyclicNode(), "allOf") == Some([CyclicRef()]);
  }

  /** A node whose resolved schema collapses to the node itself yields nothing. */
  lemma {:induction false} SelfBranchExhaustsFuel(rules: Json -> Rule, node: Json, fuel: nat)
    requires rules(node) == Branch(node)
    ensures SchemaDefAt(rules, node, fuel) == None
  {
    if fuel > 0 {
      SelfBranchExhaustsFuel(rules, node, fuel - 1);
    }
  }

  /** So the model's `schema_def` falls back to `unknown` on it. */
  lemma CyclicAllOfFallsBack()
    ensures SchemaDefOf(CyclicDoc(), CyclicRef()) == SchemaDef(KindUnknown, None)
  {
    CyclicResolves();
    CyclicCollapses();
    assert RulesOf(CyclicDoc())(CyclicRef()) == Branch(CyclicRef());
    SelfBranchExhaustsFuel(RulesOf(CyclicDoc()), CyclicRef(), SchemaDepthLimit);
  }
}
