/** The command-line side of the runtime (src/main.rs): the parsed arguments, the lookup of
    the operation a command names, and the argument ids and labels derived from schemas. */
module Cli {
  import opened Wrappers
  import opened Text
  import opened Ordering
  import opened CommandTreeDefs

  /** The parsed arguments: each argument id present maps to the values given for it, in
      command-line order. */
  type Args = map<string, seq<string>>

  /** `matches.get_one::<String>(id)` */
  function GetOne(args: Args, id: string): Option<string> {
    if id in args && args[id] != [] then Some(args[id][0]) else None
  }

  /** `matches.get_many::<String>(id)` */
  function GetMany(args: Args, id: string): Option<seq<string>> {
    if id in args && args[id] != [] then Some(args[id]) else None
  }

  /** The first resource called `name`. */
  function FindResource(rs: seq<Resource>, name: string): (r: Option<Resource>)
    ensures r.Some? ==> exists i :: 0 <= i < |rs| && rs[i] == r.value && rs[i].name == name
    ensures r.None? <==> forall i :: 0 <= i < |rs| ==> rs[i].name != name
  {
    if rs == [] then None
    else if rs[0].name == name then Some(rs[0])
    else FindResource(rs[1..], name)
  }

  /** The first operation called `name`. */
  function FindOperation(ops: seq<Operation>, name: string): (r: Option<Operation>)
    ensures r.Some? ==> r.value in ops && r.value.name == name
    ensures r.None? <==> forall i :: 0 <= i < |ops| ==> ops[i].name != name
  {
    if ops == [] then None
    else if ops[0].name == name then Some(ops[0])
    else FindOperation(ops[1..], name)
  }

  /** `find_op`: the operation `op` of the resource `res`, if the tree has it. */
  function FindOp(tree: CommandTree, res: string, op: string): (r: Option<Operation>)
    ensures r.Some? ==>
      r.value.name == op
      && exists i :: 0 <= i < |tree.resources| && tree.resources[i].name == res && r.value in tree.resources[i].ops
  {
    match FindResource(tree.resources, res)
    case Some(resource) => FindOperation(resource.ops, op)
    case None => None
  }

  /** Resource names ascend strictly, as the compiler emits them. */
  predicate NamesAscend(tree: CommandTree) {
    forall i, j :: 0 <= i < j < |tree.resources| ==> Below(tree.resources[i].name, tree.resources[j].name)
  }

  /** In a compiled tree the lookup misses nothing: whenever resource `res` lists an
      operation called `op`, one is found. */
  lemma FindOpComplete(tree: CommandTree, res: string, op: string, i: nat)
    requires NamesAscend(tree)
    requires i < |tree.resources| && tree.resources[i].name == res
    ensures FindOp(tree, res, op).Some? <==> exists k :: 0 <= k < |tree.resources[i].ops| && tree.resources[i].ops[k].name == op
  {
    var found := FindResource(tree.resources, res);
    var j :| 0 <= j < |tree.resources| && tree.resources[j] == found.value && tree.resources[j].name == res;
    if j != i {
      var lo, hi := if i < j then i else j, if i < j then j else i;
      assert Below(tree.resources[lo].name, tree.resources[hi].name);
      BelowIrreflexive(res);
    }
  }

  const InputKeyPrefix := "body__"

  /** `input_field_key`: the argument id of a body input field. */
  function InputFieldKey(field: InputField): string {
    InputKeyPrefix + field.name
  }

  /** Input fields share an argument id exactly when they share a name, and every such id
      carries the prefix that keeps it apart from the other arguments. */
  lemma InputFieldKeyInjective(f: InputField, g: InputField)
    ensures InputFieldKey(f) == InputFieldKey(g) <==> f.name == g.name
    ensures StartsWith(InputFieldKey(f), InputKeyPrefix)
  {
    if InputFieldKey(f) == InputFieldKey(g) {
      assert f.name == InputFieldKey(f)[|InputKeyPrefix|..];
      assert g.name == InputFieldKey(g)[|InputKeyPrefix|..];
    }
  }

  /** `schema_label`: `array<item>` for arrays, with `unknown` when there is no item
      schema, and the kind itself otherwise. */
  function SchemaLabel(schema: SchemaDef): string {
    if schema.kind == KindArray then
      "array<" + (match schema.item case Some(item) => item.kind case None => KindUnknown) + ">"
    else schema.kind
  }

  /** Any other kind is its own label, and an array's label names its item kind between
      angle brackets; so, for every kind that does not itself begin with `array<` (none
      of the kinds the runtime knows does), a label reads as an array label exactly for an
      array. */
  lemma SchemaLabelShape(schema: SchemaDef)
    ensures !StartsWith(schema.kind, "array<") ==> (StartsWith(SchemaLabel(schema), "array<") <==> schema.kind == KindArray)
    ensures schema.kind == KindArray ==>
      var shown := SchemaLabel(schema);
      EndsWith(shown, ">")
      && shown[6..|shown| - 1] == (if schema.item.Some? then schema.item.value.kind else KindUnknown)
    ensures schema.kind != KindArray ==> SchemaLabel(schema) == schema.kind
  {
    var shown := SchemaLabel(schema);
    if schema.kind == KindArray {
      assert shown[..6] == "array<";
    }
  }
}
