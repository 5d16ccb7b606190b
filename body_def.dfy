/** `parse_request_body` and `input_fields_from_schema` (tools/gen_command_tree.rs): the
    body descriptor of an operation and the per-property input fields of an object body. */
module BodyDefs {
  import opened Wrappers
  import opened Ordering
  import opened JsonValue
  import opened CommandTreeDefs
  import opened Naming
  import opened Resolver

  /** The strings listed in a schema's `required` array; other items are skipped. */
  function RequiredNames(schema: Json): (names: set<string>)
    ensures forall n :: n in names <==> ArrAt(schema, "required").Some? && Str(n) in ArrAt(schema, "required").value
  {
    match ArrAt(schema, "required")
    case None => {}
    case Some(xs) => set i | 0 <= i < |xs| && xs[i].Str? :: xs[i].s
  }

  const InputPrefix := "input-"

  /** The input field of one property. */
  function FieldOf(doc: Json, required: set<string>, name: string, prop: Json): InputField {
    InputField(name, InputPrefix + Kebab(name), name in required, SchemaDefOf(doc, prop))
  }

  /** The fields pushed by a loop that makes one field of each property with `mk`. */
  function FieldsBy(mk: (string, Json) -> InputField, props: seq<(string, Json)>): (fields: seq<InputField>)
    ensures |fields| == |props|
  {
    if props == [] then []
    else
      var n := |props| - 1;
      FieldsBy(mk, props[..n]) + [mk(props[n].0, props[n].1)]
  }

  /** The fields pushed by the loop over the properties, in property order. */
  function FieldsOf(doc: Json, required: set<string>, props: seq<(string, Json)>): (fields: seq<InputField>)
  {
    FieldsBy((name, prop) => FieldOf(doc, required, name, prop), props)
  }

  /** The `i`-th field is the field of the `i`-th property. */
  lemma {:induction false} FieldsByAt(mk: (string, Json) -> InputField, props: seq<(string, Json)>, i: nat)
    requires i < |props|
    ensures FieldsBy(mk, props)[i] == mk(props[i].0, props[i].1)
  {
    var n := |props| - 1;
    if i < n {
      FieldsByAt(mk, props[..n], i);
      assert props[..n][i] == props[i];
    }
  }

  lemma FieldsOfAt(doc: Json, required: set<string>, props: seq<(string, Json)>, i: nat)
    requires i < |props|
    ensures FieldsOf(doc, required, props)[i] == FieldOf(doc, required, props[i].0, props[i].1)
  {
    FieldsByAt((name, prop) => FieldOf(doc, required, name, prop), props, i);
  }

  lemma FieldsOfSnoc(doc: Json, required: set<string>, props: seq<(string, Json)>, i: nat)
    requires i < |props|
    ensures FieldsOf(doc, required, props[..i + 1])
         == FieldsOf(doc, required, props[..i]) + [FieldOf(doc, required, props[i].0, props[i].1)]
  {
    assert props[..i + 1][..i] == props[..i];
  }

  function FieldName(f: InputField): string {
    f.name
  }

  /** What `input_fields_from_schema` returns: the resolved schema's properties as
      fields, sorted by name; none when there is no `properties` object. */
  function InputFields(doc: Json, schema: Json): seq<InputField> {
    var s := Resolve(doc, schema);
    match ObjAt(s, "properties")
    case None => []
    case Some(props) => SortBy(FieldsOf(doc, RequiredNames(s), props), FieldName)
  }

  /** `input_fields_from_schema`, with its push loop and the sort that follows it. */
  method InputFieldsFromSchema(doc: Json, schema: Json) returns (fields: seq<InputField>)
    ensures fields == InputFields(doc, schema)
  {
    var s := ResolveRef(doc, schema);
    var properties := ObjAt(s, "properties");
    if properties.None? {
      return [];
    }
    var props := properties.value;
    var required := RequiredNames(s);
    fields := [];
    var i := 0;
    assert props[..0] == [];
    while i < |props|
      invariant 0 <= i <= |props|
      invariant fields == FieldsOf(doc, required, props[..i])
    {
      FieldsOfSnoc(doc, required, props, i);
      var (name, prop) := props[i];
      fields := fields + [FieldOf(doc, required, name, prop)];
      i := i + 1;
    }
    assert props[..i] == props;
    fields := SortBy(fields, FieldName);
  }

  /** The fields are sorted by name; there are as many as properties, each property's field among them and each field some property's, by
      membership; and each field's flag is `input-` followed by the kebab-cased name, it
      is required exactly when its name is listed in `required`, and its schema is the
      collapse of the property's schema. */
  lemma InputFieldsCorrect(doc: Json, schema: Json)
    ensures var s := Resolve(doc, schema); var fields := InputFields(doc, schema);
      SortedBy(fields, FieldName)
      && (ObjAt(s, "properties").None? ==> fields == [])
      && (ObjAt(s, "properties").Some? ==>
            var props := ObjAt(s, "properties").value;
            |fields| == |props|
            && (forall i :: 0 <= i < |props| ==> FieldOf(doc, RequiredNames(s), props[i].0, props[i].1) in fields)
            && (forall f :: f in fields ==>
                  exists i :: 0 <= i < |props| && f.name == props[i].0 && f.schema == SchemaDefOf(doc, props[i].1)))
      && (forall f :: f in fields ==>
            f.flag == InputPrefix + Kebab(f.name)
            && (f.required <==> f.name in RequiredNames(s))
            && WellShaped(f.schema))
  {
    var s := Resolve(doc, schema);
    match ObjAt(s, "properties")
    case None =>
    case Some(props) => SortedFieldsCorrect(doc, RequiredNames(s), props);
  }

  /** The sorted fields of `props`, as `InputFieldsCorrect` describes them. */
  lemma SortedFieldsCorrect(doc: Json, required: set<string>, props: seq<(string, Json)>)
    ensures var fields := SortBy(FieldsOf(doc, required, props), FieldName);
      SortedBy(fields, FieldName)
      && |fields| == |props|
      && (forall i :: 0 <= i < |props| ==> FieldOf(doc, required, props[i].0, props[i].1) in fields)
      && (forall f :: f in fields ==>
            (exists i :: 0 <= i < |props| && f.name == props[i].0 && f.schema == SchemaDefOf(doc, props[i].1))
            && f.flag == InputPrefix + Kebab(f.name)
            && (f.required <==> f.name in required)
            && WellShaped(f.schema))
  {
    var unsorted := FieldsOf(doc, required, props);
    SortByCorrect(unsorted, FieldName);
    SortByMembers(unsorted, FieldName);
    forall i | 0 <= i < |props| ensures FieldOf(doc, required, props[i].0, props[i].1) in unsorted {
      FieldsOfAt(doc, required, props, i);
    }
    forall f | f in unsorted
      ensures exists i :: 0 <= i < |props| && f.name == props[i].0 && f.schema == SchemaDefOf(doc, props[i].1)
      ensures f.flag == InputPrefix + Kebab(f.name) && (f.required <==> f.name in required)
    {
      FieldsOfMember(doc, required, props, f);
    }
  }

  lemma FieldsOfMember(doc: Json, required: set<string>, props: seq<(string, Json)>, f: InputField)
    requires f in FieldsOf(doc, required, props)
    ensures exists i :: 0 <= i < |props| && f == FieldOf(doc, required, props[i].0, props[i].1)
  {
    var fields := FieldsOf(doc, required, props);
    var i :| 0 <= i < |fields| && fields[i] == f;
    FieldsOfAt(doc, required, props, i);
  }

  // parse_request_body

  const JsonContentType := "application/json"

  /** The content type chosen and its `schema` member: `application/json` when the
      content map has it, otherwise its first entry; nothing for an empty map. */
  function ChooseContent(content: seq<(string, Json)>): (r: Option<(string, Option<Json>)>)
    ensures r.None? <==> content == []
  {
    match Lookup(content, JsonContentType)
    case Some(json) => Some((JsonContentType, Get(json, "schema")))
    case None => if content == [] then None else Some((content[0].0, Get(content[0].1, "schema")))
  }

  /** `parse_request_body`: no descriptor without a request body, without a `content`
      object or with an empty one; otherwise the chosen content type, the collapsed
      schema, and input fields only when that schema is an object. */
  function ParseRequestBody(doc: Json, requestBody: Option<Json>): (r: Option<BodyDef>)
    ensures r.Some? ==> WellShaped(r.value.schema)
  {
    match requestBody
    case None => None
    case Some(b) =>
      var body := Resolve(doc, b);
      var required := BoolAt(body, "required").GetOr(false);
      match ObjAt(body, "content")
      case None => None
      case Some(content) =>
        match ChooseContent(content)
        case None => None
        case Some((contentType, schemaMember)) =>
          var schema := schemaMember.GetOr(Null);
          var def := SchemaDefOf(doc, schema);
          var fields := if def.kind == KindObject then InputFields(doc, schema) else [];
          Some(BodyDef(required, contentType, def, fields))
  }

  /** JSON content is preferred: whenever the content map lists `application/json`, the
      descriptor uses it, whatever else the map lists and in whatever order. */
  lemma JsonContentPreferred(doc: Json, b: Json)
    requires var body := Resolve(doc, b);
      ObjAt(body, "content").Some? && exists i :: 0 <= i < |ObjAt(body, "content").value| && ObjAt(body, "content").value[i].0 == JsonContentType
    ensures ParseRequestBody(doc, Some(b)).Some?
    ensures ParseRequestBody(doc, Some(b)).value.contentType == JsonContentType
  {
  }

  /** Without JSON content, the first content type listed is used. */
  lemma FirstContentOtherwise(doc: Json, b: Json)
    requires var body := Resolve(doc, b);
      ObjAt(body, "content").Some? && ObjAt(body, "content").value != []
      && forall i :: 0 <= i < |ObjAt(body, "content").value| ==> ObjAt(body, "content").value[i].0 != JsonContentType
    ensures ParseRequestBody(doc, Some(b)).Some?
    ensures ParseRequestBody(doc, Some(b)).value.contentType == ObjAt(Resolve(doc, b), "content").value[0].0
  {
  }

  /** Input fields exist only for object bodies, and they are the schema's properties
      as `InputFieldsCorrect` describes them; `required` defaults to `false`. */
  lemma BodyDefFields(doc: Json, requestBody: Option<Json>)
    ensures var r := ParseRequestBody(doc, requestBody);
      r.Some? ==>
        (r.value.inputFields != [] ==> r.value.schema.kind == KindObject)
        && (forall f :: f in r.value.inputFields ==>
              f.flag == InputPrefix + Kebab(f.name) && WellShaped(f.schema))
        && SortedBy(r.value.inputFields, FieldName)
        && r.value.required == BoolAt(Resolve(doc, requestBody.value), "required").GetOr(false)
  {
    var r := ParseRequestBody(doc, requestBody);
    if r.Some? {
      var body := Resolve(doc, requestBody.value);
      var chosen := ChooseContent(ObjAt(body, "content").value).value;
      InputFieldsCorrect(doc, chosen.1.GetOr(Null));
    }
  }
}
