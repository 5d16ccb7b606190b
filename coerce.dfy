/** The coercion of command-line text into JSON values by schema kind, and of JSON values
    back into query-string text (src/main.rs). */
module Coerce {
  import opened Wrappers
  import opened Text
  import opened JsonValue
  import opened CommandTreeDefs
  import opened Numbers

  const InvalidJsonValue := "invalid JSON value"
  const InvalidJsonList := "invalid JSON list"
  const ExpectedJsonArray := "expected JSON array"
  // The messages of `core::num::ParseFloatError`
  const EmptyFloat := "cannot parse float from empty string"
  const InvalidFloat := "invalid float literal"

  const TrueWords: set<string> := {"true", "1", "yes"}
  const FalseWords: set<string> := {"false", "0", "no"}

  /** `parse_bool`: the value, lower-cased in ASCII, must be one of three words for each
      truth value; the error quotes the value as given. */
  function ParseBool(value: string): (r: Result<bool, string>)
    ensures r == Ok(true) <==> AsciiLowerStr(value) in TrueWords
    ensures r == Ok(false) <==> AsciiLowerStr(value) in FalseWords
    ensures r.Err? ==> r.error == "invalid boolean: " + value
  {
    var lower := AsciiLowerStr(value);
    if lower == "true" || lower == "1" || lower == "yes" then Ok(true)
    else if lower == "false" || lower == "0" || lower == "no" then Ok(false)
    else Err("invalid boolean: " + value)
  }

  /** `bool::to_string` */
  function ShowBool(b: bool): string {
    if b then "true" else "false"
  }

  lemma ParseShowBool(b: bool)
    ensures ParseBool(ShowBool(b)) == Ok(b)
  {
    if b {
      assert AsciiLowerStr("true") == "true";
    } else {
      assert AsciiLowerStr("false") == "false";
    }
  }

  lemma LowerUpper(s: string)
    ensures AsciiLowerStr(AsciiUpperStr(s)) == AsciiLowerStr(s)
  {
    forall i | 0 <= i < |s| ensures AsciiLowerStr(AsciiUpperStr(s))[i] == AsciiLowerStr(s)[i] {
    }
  }

  /** Whatever case a value is written in, it reads as the same truth value. */
  lemma ParseBoolIgnoresCase(value: string)
    requires ParseBool(value).Ok?
    ensures ParseBool(AsciiUpperStr(value)) == ParseBool(value)
  {
    LowerUpper(value);
  }

  /** `parse_scalar_value`: the kind of the schema decides how the text is read; any
      other kind (`schema_def` copies whatever `type` says) is read as a string. */
  function ParseScalar(lib: JsonLib, schema: SchemaDef, value: string): Result<Json, string> {
    if schema.kind == KindInteger then
      var n :- ParseI64(value);
      Ok(Int(n))
    else if schema.kind == KindNumber then
      match lib.parseF64(value)
      case Some(v) => Ok(v)
      case None => Err(if value == [] then EmptyFloat else InvalidFloat)
    else if schema.kind == KindBoolean then
      var b :- ParseBool(value);
      Ok(Bool(b))
    else if schema.kind == KindString then Ok(Str(value))
    else if schema.kind == KindObject || schema.kind == KindArray || schema.kind == KindUnknown then
      match lib.fromStr(value)
      case Some(v) => Ok(v)
      case None => Err(InvalidJsonValue)
    else Ok(Str(value))
  }

  /** What each kind accepts and produces: integers exactly the decimal `i64` literals,
      booleans exactly the six words, strings anything, verbatim; JSON kinds whatever
      the JSON reader accepts, and the error names the failure; a kind the runtime does
      not know is read as a string. */
  lemma ScalarKinds(lib: JsonLib, schema: SchemaDef, value: string)
    ensures schema.kind == KindInteger ==>
      (ParseScalar(lib, schema, value).Ok? <==> IsDecimal(value) && InI64(DecimalValue(value)))
      && (ParseScalar(lib, schema, value).Ok? ==> ParseScalar(lib, schema, value) == Ok(Int(DecimalValue(value))))
    ensures schema.kind == KindBoolean ==>
      (ParseScalar(lib, schema, value) == Ok(Bool(true)) <==> AsciiLowerStr(value) in TrueWords)
      && (ParseScalar(lib, schema, value) == Ok(Bool(false)) <==> AsciiLowerStr(value) in FalseWords)
    ensures schema.kind == KindString ==> ParseScalar(lib, schema, value) == Ok(Str(value))
    ensures schema.kind in {KindObject, KindArray, KindUnknown} ==>
      (ParseScalar(lib, schema, value).Ok? <==> lib.fromStr(value).Some?)
      && (ParseScalar(lib, schema, value).Err? ==> ParseScalar(lib, schema, value).error == InvalidJsonValue)
    ensures schema.kind == KindNumber && value == [] && lib.parseF64(value).None? ==>
      ParseScalar(lib, schema, value) == Err(EmptyFloat)
    ensures schema.kind !in Kinds ==> ParseScalar(lib, schema, value) == Ok(Str(value))
  {
    if schema.kind == KindInteger {
      ParseI64Exact(value);
    }
  }

  /** `value_to_query_string`: strings as they are, numbers and booleans in their display
      form, `null` as the word, arrays and objects as compact JSON. */
  function ToQueryString(lib: JsonLib, v: Json): string {
    match v
    case Str(s) => s
    case Int(n) => ShowInt(n)
    case Float(text) => text
    case Bool(b) => ShowBool(b)
    case Null => "null"
    case _ => lib.toStr(v)
  }

  /** A scalar query value read by its schema and written back is the text given, for
      strings, and for integers and booleans in their canonical spelling. */
  lemma QueryRoundTrip(lib: JsonLib, schema: SchemaDef, n: int, b: bool, s: string)
    requires InI64(n)
    ensures schema.kind == KindInteger ==>
      ParseScalar(lib, schema, ShowInt(n)).Ok?
      && ToQueryString(lib, ParseScalar(lib, schema, ShowInt(n)).value) == ShowInt(n)
    ensures schema.kind == KindBoolean ==>
      ParseScalar(lib, schema, ShowBool(b)).Ok?
      && ToQueryString(lib, ParseScalar(lib, schema, ShowBool(b)).value) == ShowBool(b)
    ensures schema.kind == KindString ==> ToQueryString(lib, ParseScalar(lib, schema, s).value) == s
  {
    ParseShowInt(n);
    ParseShowBool(b);
  }

  /** A single token that starts, after leading whitespace, with `[` is a JSON list. */
  predicate JsonListForm(values: seq<string>) {
    |values| == 1 && StartsWith(TrimStart(values[0]), "[")
  }

  /** The kind the list's tokens are read with: the item schema, else the list's own. */
  function ItemSchema(schema: SchemaDef): SchemaDef {
    match schema.item
    case Some(item) => item
    case None => schema
  }

  /** Each token read by the schema, stopping at the first that fails. */
  function ParseEach(lib: JsonLib, schema: SchemaDef, values: seq<string>): Result<seq<Json>, string> {
    if values == [] then Ok([])
    else
      var init :- ParseEach(lib, schema, values[..|values| - 1]);
      var last :- ParseScalar(lib, schema, values[|values| - 1]);
      Ok(init + [last])
  }

  /** The `i`-th value is the `i`-th token read; the error, if any, is the first failing
      token's, and every token before it reads. */
  lemma {:induction false} ParseEachCorrect(lib: JsonLib, schema: SchemaDef, values: seq<string>)
    ensures var r := ParseEach(lib, schema, values);
      (r.Ok? ==> |r.value| == |values| && forall i :: 0 <= i < |values| ==> ParseScalar(lib, schema, values[i]) == Ok(r.value[i]))
      && (r.Err? <==> exists i :: 0 <= i < |values| && ParseScalar(lib, schema, values[i]).Err?)
      && (r.Err? ==> exists i :: (0 <= i < |values| && ParseScalar(lib, schema, values[i]) == Err(r.error)
            && forall j :: 0 <= j < i ==> ParseScalar(lib, schema, values[j]).Ok?))
  {
    if values != [] {
      var n := |values| - 1;
      var init := values[..n];
      ParseEachCorrect(lib, schema, init);
      assert forall i :: 0 <= i < n ==> init[i] == values[i];
      var r := ParseEach(lib, schema, values);
      if ParseEach(lib, schema, init).Err? {
        var i :| 0 <= i < n && ParseScalar(lib, schema, init[i]) == Err(ParseEach(lib, schema, init).error)
          && forall j :: 0 <= j < i ==> ParseScalar(lib, schema, init[j]).Ok?;
        assert ParseScalar(lib, schema, values[i]) == Err(r.error);
      } else if r.Err? {
        assert ParseScalar(lib, schema, values[n]) == Err(r.error);
      }
    }
  }

  lemma ParseEachSnoc(lib: JsonLib, schema: SchemaDef, values: seq<string>, i: nat)
    requires i < |values|
    ensures ParseEach(lib, schema, values[..i + 1]) ==
      match ParseEach(lib, schema, values[..i])
      case Err(msg) => Err(msg)
      case Ok(init) =>
        match ParseScalar(lib, schema, values[i])
        case Err(msg) => Err(msg)
        case Ok(last) => Ok(init + [last])
  {
    assert values[..i + 1][..i] == values[..i];
  }

  lemma {:induction false} ParseEachAbort(lib: JsonLib, schema: SchemaDef, values: seq<string>, i: nat)
    requires i <= |values| && ParseEach(lib, schema, values[..i]).Err?
    ensures ParseEach(lib, schema, values) == ParseEach(lib, schema, values[..i])
    decreases |values| - i
  {
    if i < |values| {
      ParseEachSnoc(lib, schema, values, i);
      ParseEachAbort(lib, schema, values, i + 1);
    } else {
      assert values[..i] == values;
    }
  }

  /** What `parse_list_value` returns for the values of an array-typed input field. */
  function ListValue(lib: JsonLib, schema: SchemaDef, values: seq<string>): Result<Json, string> {
    if JsonListForm(values) then
      match lib.fromStr(values[0])
      case Some(v) => Ok(v)
      case None => Err(InvalidJsonList)
    else
      var items :- ParseEach(lib, ItemSchema(schema), values);
      Ok(Arr(items))
  }

  /** `parse_list_value`, with its push loop over the tokens. */
  method ParseListValue(lib: JsonLib, schema: SchemaDef, values: seq<string>) returns (r: Result<Json, string>)
    ensures r == ListValue(lib, schema, values)
  {
    if |values| == 1 && StartsWith(TrimStart(values[0]), "[") {
      var parsed := lib.fromStr(values[0]);
      if parsed.None? {
        return Err(InvalidJsonList);
      }
      return Ok(parsed.value);
    }
    var out: seq<Json> := [];
    var itemSchema := ItemSchema(schema);
    var i := 0;
    assert values[..0] == [];
    while i < |values|
      invariant 0 <= i <= |values|
      invariant ParseEach(lib, itemSchema, values[..i]) == Ok(out)
    {
      ParseEachSnoc(lib, itemSchema, values, i);
      var parsed := ParseScalar(lib, itemSchema, values[i]);
      if parsed.Err? {
        ParseEachAbort(lib, itemSchema, values, i + 1);
        return Err(parsed.error);
      }
      out := out + [parsed.value];
      i := i + 1;
    }
    assert values[..i] == values;
    return Ok(Arr(out));
  }

  /** Outside the JSON-list form the list holds one value per token, each read with the
      item schema; a single token that looks like a JSON list is read as JSON whatever
      the item kind, so a string item cannot begin with `[` when it is alone. */
  lemma ListValueCorrect(lib: JsonLib, schema: SchemaDef, values: seq<string>)
    ensures !JsonListForm(values) && ListValue(lib, schema, values).Ok? ==>
      ListValue(lib, schema, values).value.Arr?
      && |ListValue(lib, schema, values).value.items| == |values|
      && forall i :: 0 <= i < |values| ==>
           ParseScalar(lib, ItemSchema(schema), values[i]) == Ok(ListValue(lib, schema, values).value.items[i])
    ensures !JsonListForm(values) ==>
      (ListValue(lib, schema, values).Err? <==> exists i :: 0 <= i < |values| && ParseScalar(lib, ItemSchema(schema), values[i]).Err?)
    ensures JsonListForm(values) ==>
      ListValue(lib, schema, values) == if lib.fromStr(values[0]).Some? then Ok(lib.fromStr(values[0]).value) else Err(InvalidJsonList)
  {
    ParseEachCorrect(lib, ItemSchema(schema), values);
  }

  function QueryStrings(lib: JsonLib, items: seq<Json>): (r: seq<string>)
    ensures |r| == |items| && forall i :: 0 <= i < |items| ==> r[i] == ToQueryString(lib, items[i])
  {
    if items == [] then [] else [ToQueryString(lib, items[0])] + QueryStrings(lib, items[1..])
  }

  /** `parse_list_for_query`: the query texts of an array-typed query parameter. */
  function ListForQuery(lib: JsonLib, schema: SchemaDef, values: seq<string>): Result<seq<string>, string> {
    if JsonListForm(values) then
      match lib.fromStr(values[0])
      case None => Err(InvalidJsonList)
      case Some(v) => if v.Arr? then Ok(QueryStrings(lib, v.items)) else Err(ExpectedJsonArray)
    else
      // `value_to_query_string` never fails, so the first error is the first token's
      // that does not read
      var items :- ParseEach(lib, ItemSchema(schema), values);
      Ok(QueryStrings(lib, items))
  }

  /** The query texts of a list: one per token, each the token read and written back; in
      the JSON-list form one per array element, and the list must be an array. */
  lemma ListForQueryCorrect(lib: JsonLib, schema: SchemaDef, values: seq<string>)
    ensures !JsonListForm(values) ==>
      (ListForQuery(lib, schema, values).Ok? <==> forall i :: 0 <= i < |values| ==> ParseScalar(lib, ItemSchema(schema), values[i]).Ok?)
    ensures !JsonListForm(values) && ListForQuery(lib, schema, values).Ok? ==>
      |ListForQuery(lib, schema, values).value| == |values|
      && forall i :: 0 <= i < |values| ==>
           ListForQuery(lib, schema, values).value[i] == ToQueryString(lib, ParseScalar(lib, ItemSchema(schema), values[i]).value)
    ensures JsonListForm(values) ==>
      (lib.fromStr(values[0]).None? ==> ListForQuery(lib, schema, values) == Err(InvalidJsonList))
      && (lib.fromStr(values[0]).Some? && !lib.fromStr(values[0]).value.Arr? ==> ListForQuery(lib, schema, values) == Err(ExpectedJsonArray))
    ensures JsonListForm(values) && lib.fromStr(values[0]).Some? && lib.fromStr(values[0]).value.Arr? ==>
      ListForQuery(lib, schema, values) == Ok(QueryStrings(lib, lib.fromStr(values[0]).value.items))
  {
    ParseEachCorrect(lib, ItemSchema(schema), values);
  }
}
