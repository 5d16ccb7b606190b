/** `build_body` and `build_body_from_inputs` (src/main.rs): the JSON body of a request,
    from `--body`, from `--body-file`, or assembled from the per-field input flags. */
module RequestBody {
  import opened Wrappers
  import opened JsonValue
  import opened CommandTreeDefs
  import opened Coerce
  import opened Cli

  const BodyArg := "body"
  const BodyFileArg := "body-file"
  const NoBodyAccepted := "request does not accept a body"
  const OnlyOneBody := "use only one of --body or --body-file"
  const InvalidJsonBody := "invalid JSON body"
  const FailedToRead := "failed to read body file "
  const InvalidJsonBodyFile := "invalid JSON body file"
  const BodyRequired := "request body required"

  /** `Map::insert`: the value of an existing key is replaced where it stands, a new key
      goes last. */
  function Put(members: seq<(string, Json)>, key: string, v: Json): seq<(string, Json)> {
    if members == [] then [(key, v)]
    else if members[0].0 == key then [(key, v)] + members[1..]
    else [members[0]] + Put(members[1..], key, v)
  }

  lemma {:induction false} PutLookup(members: seq<(string, Json)>, key: string, v: Json, k: string)
    ensures Lookup(Put(members, key, v), k) == if k == key then Some(v) else Lookup(members, k)
  {
    if members != [] && members[0].0 != key {
      PutLookup(members[1..], key, v, k);
      assert Put(members, key, v)[1..] == Put(members[1..], key, v);
    }
  }

  /** The value one input field contributes: an array field's tokens read as a list, any
      other field's value read by its kind; nothing when its flag is absent. */
  function FieldValue(lib: JsonLib, field: InputField, args: Args): Result<Option<Json>, string> {
    var key := InputFieldKey(field);
    if field.schema.kind == KindArray then
      match GetMany(args, key)
      case None => Ok(None)
      case Some(vs) =>
        var v :- ListValue(lib, field.schema, vs);
        Ok(Some(v))
    else
      match GetOne(args, key)
      case None => Ok(None)
      case Some(text) =>
        var v :- ParseScalar(lib, field.schema, text);
        Ok(Some(v))
  }

  /** The members inserted by a loop over `fields` that reads each field's value with
      `value`, or the first error. */
  function Members(value: InputField -> Result<Option<Json>, string>, fields: seq<InputField>): Result<seq<(string, Json)>, string> {
    if fields == [] then Ok([])
    else
      var n := |fields| - 1;
      var init :- Members(value, fields[..n]);
      var fv :- value(fields[n]);
      Ok(match fv case Some(v) => Put(init, fields[n].name, v) case None => init)
  }

  function FieldStep(lib: JsonLib, args: Args): InputField -> Result<Option<Json>, string> {
    field => FieldValue(lib, field, args)
  }

  /** The members inserted by the loop over the input fields. */
  function InputMembers(lib: JsonLib, fields: seq<InputField>, args: Args): Result<seq<(string, Json)>, string> {
    Members(FieldStep(lib, args), fields)
  }

  /** What `build_body_from_inputs` returns: no body when no field was given. */
  function InputsBody(lib: JsonLib, fields: seq<InputField>, args: Args): Result<Option<Json>, string> {
    var members :- InputMembers(lib, fields, args);
    Ok(if members == [] then None else Some(Obj(members)))
  }

  lemma MembersSnoc(value: InputField -> Result<Option<Json>, string>, fields: seq<InputField>, i: nat)
    requires i < |fields|
    ensures Members(value, fields[..i + 1]) ==
      match Members(value, fields[..i])
      case Err(msg) => Err(msg)
      case Ok(init) =>
        match value(fields[i])
        case Err(msg) => Err(msg)
        case Ok(fv) => Ok(match fv case Some(v) => Put(init, fields[i].name, v) case None => init)
  {
    assert fields[..i + 1][..i] == fields[..i];
  }

  lemma {:induction false} MembersAbort(value: InputField -> Result<Option<Json>, string>, fields: seq<InputField>, i: nat)
    requires i <= |fields| && Members(value, fields[..i]).Err?
    ensures Members(value, fields) == Members(value, fields[..i])
    decreases |fields| - i
  {
    if i < |fields| {
      MembersSnoc(value, fields, i);
      MembersAbort(value, fields, i + 1);
    } else {
      assert fields[..i] == fields;
    }
  }

  /** The value of one field, as the loop body computes it. */
  method ReadField(lib: JsonLib, field: InputField, args: Args) returns (r: Result<Option<Json>, string>)
    ensures r == FieldValue(lib, field, args)
  {
    var key := InputFieldKey(field);
    if field.schema.kind == KindArray {
      var values := GetMany(args, key);
      if values.None? {
        return Ok(None);
      }
      var parsed := ParseListValue(lib, field.schema, values.value);
      if parsed.Err? {
        return Err(parsed.error);
      }
      return Ok(Some(parsed.value));
    }
    var value := GetOne(args, key);
    if value.None? {
      return Ok(None);
    }
    var parsed := ParseScalar(lib, field.schema, value.value);
    if parsed.Err? {
      return Err(parsed.error);
    }
    return Ok(Some(parsed.value));
  }

  /** `build_body_from_inputs`, with its loop over the input fields. */
  method BuildBodyFromInputs(lib: JsonLib, body: BodyDef, args: Args) returns (r: Result<Option<Json>, string>)
    ensures r == InputsBody(lib, body.inputFields, args)
  {
    var fields := body.inputFields;
    ghost var step := FieldStep(lib, args);
    var members: seq<(string, Json)> := [];
    var i := 0;
    assert fields[..0] == [];
    while i < |fields|
      invariant 0 <= i <= |fields|
      invariant Members(step, fields[..i]) == Ok(members)
    {
      MembersSnoc(step, fields, i);
      var fv := ReadField(lib, fields[i], args);
      if fv.Err? {
        MembersAbort(step, fields, i + 1);
        return Err(fv.error);
      }
      if fv.value.Some? {
        members := Put(members, fields[i].name, fv.value.value);
      }
      i := i + 1;
    }
    assert fields[..i] == fields;
    if members == [] {
      return Ok(None);
    }
    return Ok(Some(Obj(members)));
  }

  predicate DistinctNames(fields: seq<InputField>) {
    forall i, j :: 0 <= i < j < |fields| ==> fields[i].name != fields[j].name
  }

  /** For fields with distinct names: the members are built exactly when every field
      reads; then each field's name holds its value, a field without one is absent, and
      no other key appears. */
  lemma MembersCorrect(value: InputField -> Result<Option<Json>, string>, fields: seq<InputField>)
    requires DistinctNames(fields)
    ensures var r := Members(value, fields);
      (r.Ok? <==> forall i :: 0 <= i < |fields| ==> value(fields[i]).Ok?)
      && (r.Ok? ==> forall i :: 0 <= i < |fields| ==> Lookup(r.value, fields[i].name) == value(fields[i]).value)
      && (r.Ok? ==> forall k :: Lookup(r.value, k).Some? ==> exists i :: 0 <= i < |fields| && fields[i].name == k)
  {
    MembersOk(value, fields);
    if Members(value, fields).Ok? {
      MembersLookup(value, fields);
      MembersKeys(value, fields);
    }
  }

  lemma {:induction false} MembersOk(value: InputField -> Result<Option<Json>, string>, fields: seq<InputField>)
    ensures Members(value, fields).Ok? <==> forall i :: 0 <= i < |fields| ==> value(fields[i]).Ok?
  {
    if fields != [] {
      var n := |fields| - 1;
      var init := fields[..n];
      assert forall i :: 0 <= i < n ==> init[i] == fields[i];
      MembersOk(value, init);
    }
  }

  lemma {:induction false} MembersLookup(value: InputField -> Result<Option<Json>, string>, fields: seq<InputField>)
    requires DistinctNames(fields) && Members(value, fields).Ok?
    ensures forall i :: 0 <= i < |fields| ==> value(fields[i]).Ok?
    ensures forall i :: 0 <= i < |fields| ==> Lookup(Members(value, fields).value, fields[i].name) == value(fields[i]).value
  {
    if fields != [] {
      var n := |fields| - 1;
      var init := fields[..n];
      assert forall i :: 0 <= i < n ==> init[i] == fields[i];
      MembersLookup(value, init);
      MembersKeys(value, init);
      var r := Members(value, fields).value;
      var prev := Members(value, init).value;
      var fv := value(fields[n]).value;
      forall i | 0 <= i < |fields|
        ensures Lookup(r, fields[i].name) == value(fields[i]).value
      {
        if fv.Some? {
          PutLookup(prev, fields[n].name, fv.value, fields[i].name);
        }
        if i < n {
          assert fields[i].name != fields[n].name;
        } else {
          assert forall j :: 0 <= j < n ==> init[j].name != fields[n].name;
        }
      }
    }
  }

  lemma {:induction false} MembersKeys(value: InputField -> Result<Option<Json>, string>, fields: seq<InputField>)
    requires Members(value, fields).Ok?
    ensures forall k :: Lookup(Members(value, fields).value, k).Some? ==> exists i :: 0 <= i < |fields| && fields[i].name == k
  {
    if fields != [] {
      var n := |fields| - 1;
      var init := fields[..n];
      MembersKeys(value, init);
      var r := Members(value, fields).value;
      var prev := Members(value, init).value;
      var fv := value(fields[n]).value;
      forall k | Lookup(r, k).Some? ensures exists i :: 0 <= i < |fields| && fields[i].name == k {
        if fv.Some? {
          PutLookup(prev, fields[n].name, fv.value, k);
        }
        if k != fields[n].name {
          var j :| 0 <= j < n && init[j].name == k;
          assert fields[j].name == k;
        }
      }
    }
  }

  /** For fields with distinct names (the properties of one schema): the members are built
      exactly when every given field reads; then each field's name holds its value, a
      field not given is absent, and no other key appears. */
  lemma InputMembersCorrect(lib: JsonLib, fields: seq<InputField>, args: Args)
    requires DistinctNames(fields)
    ensures var r := InputMembers(lib, fields, args);
      (r.Ok? <==> forall i :: 0 <= i < |fields| ==> FieldValue(lib, fields[i], args).Ok?)
      && (r.Ok? ==> forall i :: 0 <= i < |fields| ==> Lookup(r.value, fields[i].name) == FieldValue(lib, fields[i], args).value)
      && (r.Ok? ==> forall k :: Lookup(r.value, k).Some? ==> exists i :: 0 <= i < |fields| && fields[i].name == k)
  {
    MembersCorrect(FieldStep(lib, args), fields);
  }

  /** The body from the input flags: absent exactly when no field was given, otherwise an
      object holding each given field's value under its name. */
  lemma InputsBodyCorrect(lib: JsonLib, fields: seq<InputField>, args: Args)
    requires DistinctNames(fields)
    ensures var r := InputsBody(lib, fields, args);
      (r.Ok? <==> forall i :: 0 <= i < |fields| ==> FieldValue(lib, fields[i], args).Ok?)
      && (r.Ok? ==> (r.value.None? <==> forall i :: 0 <= i < |fields| ==> FieldValue(lib, fields[i], args).value.None?))
      && (r.Ok? && r.value.Some? ==>
            r.value.value.Obj?
            && forall i :: 0 <= i < |fields| ==> Lookup(r.value.value.members, fields[i].name) == FieldValue(lib, fields[i], args).value)
  {
    InputMembersCorrect(lib, fields, args);
    var r := InputMembers(lib, fields, args);
    if r.Ok? && r.value != [] {
      var k := r.value[0].0;
      assert Lookup(r.value, k).Some?;
    }
  }

  /** `build_body`. `readFile` stands for reading a file to a string. */
  function BodyOf(lib: JsonLib, readFile: string -> Option<string>, op: Operation, args: Args): Result<Option<Json>, string> {
    var raw := GetOne(args, BodyArg);
    var file := GetOne(args, BodyFileArg);
    match op.body
    case None => if raw.Some? || file.Some? then Err(NoBodyAccepted) else Ok(None)
    case Some(body) =>
      if raw.Some? && file.Some? then Err(OnlyOneBody)
      else if raw.Some? then
        match lib.fromStr(raw.value)
        case Some(v) => Ok(Some(v))
        case None => Err(InvalidJsonBody)
      else if file.Some? then
        match readFile(file.value)
        case None => Err(FailedToRead + file.value)
        case Some(contents) =>
          match lib.fromStr(contents)
          case Some(v) => Ok(Some(v))
          case None => Err(InvalidJsonBodyFile)
      else
        var fromInputs :- if body.schema.kind == KindObject && body.inputFields != [] then InputsBody(lib, body.inputFields, args) else Ok(None);
        if fromInputs.Some? then Ok(fromInputs)
        else if body.required then Err(BodyRequired)
        else Ok(None)
  }

  /** The three body channels and their order: an operation without a body refuses
      `--body` and `--body-file`; the two exclude each other; `--body` wins over the
      field flags, `--body-file` too, and the field flags are read only for an object
      body that has fields, the object they build taking effect only when some field was
      given; a required body is never left out. */
  lemma BodyChannels(lib: JsonLib, readFile: string -> Option<string>, op: Operation, args: Args)
    ensures var r := BodyOf(lib, readFile, op, args);
      var raw := GetOne(args, BodyArg); var file := GetOne(args, BodyFileArg);
      (op.body.None? ==> (r.Err? <==> raw.Some? || file.Some?) && (r.Ok? ==> r.value.None?))
      && (op.body.Some? && raw.Some? && file.Some? ==> r == Err(OnlyOneBody))
      && (op.body.Some? && raw.Some? && file.None? ==>
            r == if lib.fromStr(raw.value).Some? then Ok(Some(lib.fromStr(raw.value).value)) else Err(InvalidJsonBody))
      && (op.body.Some? && raw.None? && file.Some? && readFile(file.value).None? ==> r == Err(FailedToRead + file.value))
      && (op.body.Some? && raw.None? && file.Some? && readFile(file.value).Some? ==>
            var parsed := lib.fromStr(readFile(file.value).value);
            r == if parsed.Some? then Ok(Some(parsed.value)) else Err(InvalidJsonBodyFile))
      && (op.body.Some? && raw.None? && file.None? && op.body.value.schema.kind == KindObject && op.body.value.inputFields != [] ==>
            var fromInputs := InputsBody(lib, op.body.value.inputFields, args);
            (fromInputs.Err? ==> r == Err(fromInputs.error))
            && (fromInputs.Ok? && fromInputs.value.Some? ==> r == Ok(fromInputs.value))
            && (fromInputs.Ok? && fromInputs.value.None? ==> r == if op.body.value.required then Err(BodyRequired) else Ok(None)))
      && (op.body.Some? && raw.None? && file.None? && !(op.body.value.schema.kind == KindObject && op.body.value.inputFields != []) ==>
            r == if op.body.value.required then Err(BodyRequired) else Ok(None))
      && (op.body.Some? && op.body.value.required && r.Ok? ==> r.value.Some?)
  {
  }
}
