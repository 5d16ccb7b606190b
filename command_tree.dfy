/** The compiled command tree: the structs of src/command_tree.rs, which repeat those
    of tools/gen_command_tree.rs field for field. */
module CommandTreeDefs {
  import opened Wrappers

  const KindObject := "object"
  const KindArray := "array"
  const KindString := "string"
  const KindInteger := "integer"
  const KindNumber := "number"
  const KindBoolean := "boolean"
  const KindUnknown := "unknown"

  /** The kinds the runtime reads in a dedicated way; `schema_def` copies any other
      `type` string through unchanged. */
  const Kinds: set<string> := {KindObject, KindArray, KindString, KindInteger, KindNumber, KindBoolean, KindUnknown}

  /** A normalised schema: a kind and, for arrays, the element schema. */
  datatype SchemaDef = SchemaDef(kind: string, item: Option<SchemaDef>)

  /** The shape `schema_def` promises: an element schema only on arrays, all the way down. */
  predicate WellShaped(d: SchemaDef) {
    match d.item
    case None => true
    case Some(e) => d.kind == KindArray && WellShaped(e)
  }

  datatype ParamDef = ParamDef(name: string, flag: string, location: string, required: bool, schema: SchemaDef)

  datatype InputField = InputField(name: string, flag: string, required: bool, schema: SchemaDef)

  datatype BodyDef = BodyDef(required: bool, contentType: string, schema: SchemaDef, inputFields: seq<InputField>)

  datatype Operation = Operation(
    name: string,
    httpMethod: string,
    path: string,
    summary: Option<string>,
    description: Option<string>,
    params: seq<ParamDef>,
    body: Option<BodyDef>)

  datatype Resource = Resource(name: string, ops: seq<Operation>)

  datatype CommandTree = CommandTree(version: string, basePath: string, resources: seq<Resource>)
}
