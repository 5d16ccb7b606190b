# n8n-cli: the command-tree compiler and request synthesis, in Dafny

n8n-cli is a command-line client for the n8n REST API. Its surface has two halves.

**The compiler (`tools/gen_command_tree.rs`).** This offline half reads the API document and writes a normalised command tree.
- Operations are grouped into resources named after their first tag, in kebab case.
- Each operation carries its merged parameters (`merge_params`, `parse_param`) and its body descriptor (`parse_request_body`, `input_fields_from_schema`).
- Every schema is collapsed to a kind plus an element schema (`schema_def`), after following local `$ref` pointers (`resolve_ref`).

**The runtime (`src/main.rs`).** This half looks up the operation a command names (`find_op`) and builds its request from the parsed arguments:
- the URL (`build_url`, `append_query_param`);
- the body (`build_body`, `build_body_from_inputs`);
- typed values coerced from the command-line text (`parse_scalar_value`, `parse_bool`, `parse_list_value`, `parse_list_for_query`, `value_to_query_string`).

It also decides how the response text is shown (`send_request`).

This project models both halves in Dafny, one module per concern:

| file | module | what it holds |
|---|---|---|
| `json.dfy` | `JsonValue` | the JSON tree, with objects as member lists in iteration order |
| `command_tree.dfy` | `CommandTreeDefs` | the structs of the tree |
| `text.dfy` | `Text` | trimming and splitting |
| `ordering.dfy` | `Ordering` | Rust's string order, and a stable sort |
| `naming.dfy` | `Naming` | `to_kebab` |
| `resolver.dfy` | `Resolver` | `resolve_ref` and `schema_def` |
| `params.dfy` | `Params` | `parse_param`, and `merge_params` over a sorted map |
| `body_def.dfy` | `BodyDefs` | `parse_request_body` and `input_fields_from_schema` |
| `tree_builder.dfy` | `TreeBuilder` | the assembly loop of the compiler's `main` |
| `cli.dfy` | `Cli` | parsed arguments, `find_op`, `input_field_key`, `schema_label` |
| `numbers.dfy` | `Numbers` | `parse::<i64>` and integer display |
| `coerce.dfy` | `Coerce` | the value coercions |
| `percent.dfy` | `PercentEncoding` | `urlencoding::encode` |
| `template.dfy` | `PathTemplate` | operation paths and `str::replace` |
| `url.dfy` | `RequestUrl` | `build_url` and `append_query_param` |
| `request_body.dfy` | `RequestBody` | `build_body` and `build_body_from_inputs` |
| `response.dfy` | `Response` | the response triage |

**How the code maps to Dafny.**
- Code that updates variables in a loop is a `method` with the same loop. The loop is proved equal to a specification function, and the properties are lemmas about that function. Examples: `to_kebab`, `resolve_ref`, the insertion loops of `merge_params`, the push and sort of `input_fields_from_schema`, the loops of `main`, the substitution and query loops of `build_url`, `append_query_param`, `parse_list_value` and `build_body_from_inputs`.
- Expression-only code is a `function`. Examples: `schema_def`, `parse_param`, `parse_scalar_value`, `parse_bool`, `find_op`, `schema_label`, and the decision chain of `build_body`.

**How the libraries are represented.**
- A `JsonLib` value stands for the JSON library. It is passed as a parameter and carries three functions:
  - `serde_json::from_str`, a partial function;
  - `serde_json::to_string`;
  - the `f64` parse.
- The parsed arguments are a map from argument id to the values given, in command-line order.
- `build_body` takes `readFile`, which stands for reading a file.
- `build_url` takes `parses`, which stands for `Url::parse` accepting the text.

## Model

| member | source | states |
|---|---|---|
| Naming.ToKebab | tools/gen_command_tree.rs:394-421 | the character loop, with its two state variables, computes the specification `Kebab`: the scanned text with `-` trimmed at both ends |
| Naming.ScanChars | tools/gen_command_tree.rs:398-418 | the loop never writes an upper-case ASCII letter, `_` or space |
| Naming.ScanPrevLower | tools/gen_command_tree.rs:403-417 | `prev_lower` is set only right after a lower-case letter or digit was written |
| Naming.ScanNoDoubleHyphen | tools/gen_command_tree.rs:399-405 | for input without `-`, the loop never writes two hyphens in a row, because a separator checks `out.ends_with('-')` |
| Naming.KebabIsToken | tools/gen_command_tree.rs:394-421 | every output has no upper-case ASCII letter, no `_` or space, and no `-` at either end |
| Naming.KebabNoDoubleHyphen | tools/gen_command_tree.rs:399-405 | an identifier without `-` never yields `--` |
| Naming.ScanOfToken | tools/gen_command_tree.rs:398-418 | text without upper-case letters and separators passes through the loop unchanged |
| Naming.KebabIdempotent | tools/gen_command_tree.rs:394-421 | `to_kebab(to_kebab(s)) == to_kebab(s)` for every `s` |
| Naming.ScanIsHyphenate | tools/gen_command_tree.rs:407-417 | without separators, the loop output is the position-wise camel-case split, and `prev_lower` reflects the last character |
| Naming.KebabIsWords | tools/gen_command_tree.rs:394-420 | for an identifier without `-`, the result splits it into words at every run of `_` and spaces, however long. It camel-splits each word and joins the words with exactly one `-`, leaving no trace of separators at either end |
| Naming.KebabIsCamelSplit | tools/gen_command_tree.rs:407-417 | for an identifier without `-`, `_` or space, the result lowers each letter and puts `-` exactly before each upper-case letter that follows a lower-case letter or digit |
| Naming.HyphenateEnds | tools/gen_command_tree.rs:407-417 | the camel-case split starts and ends with the lowered first and last characters |
| Resolver.TrimRootMarkers | tools/gen_command_tree.rs:383 | `trim_start_matches("#/")` leaves no leading `#/` and keeps a suffix of the text |
| Resolver.ResolveRef | tools/gen_command_tree.rs:373-392 | the segment loop equals `Resolve`: the node the pointer reaches, else the input |
| Resolver.WalkAppend | tools/gen_command_tree.rs:383-389 | walking two runs of segments in turn is walking them together |
| Resolver.TrimPointer | tools/gen_command_tree.rs:378-383 | the pointer text of a segment list loses exactly its `#/` prefix |
| Resolver.ResolvePointer | tools/gen_command_tree.rs:373-392 | a `$ref` naming an existing node resolves to that node, in one hop, without following that node's own `$ref` |
| Resolver.ResolveMissing | tools/gen_command_tree.rs:374-388 | the schema comes back unchanged in three cases. It has no string `$ref`, or its ref does not start with `#/`, or the walk from the document root succeeds up to some segment that the node reached has no member for |
| Resolver.SchemaDefAt | tools/gen_command_tree.rs:313-371 | a collapsed schema carries an element schema only on arrays, all the way down |
| Resolver.ApplyRule | tools/gen_command_tree.rs:328-370 | each rule's result is well shaped in the same sense |
| Resolver.SchemaDefOf | tools/gen_command_tree.rs:313-371 | `schema_def` at the depth bound is well shaped |
| Resolver.SchemaDefRules | tools/gen_command_tree.rs:313-371 | on the ref-resolved schema, a non-empty `allOf` is read as its first member, else a non-empty `oneOf` as its first member. Otherwise an explicit `type` wins (an array with its `items` collapsed, any other type with no item kind). Then `properties` means object, then `items` means array, else `unknown` |
| Resolver.FuelMonotone | tools/gen_command_tree.rs:313-371 | more recursion depth never changes a result already reached |
| Resolver.SelfBranchExhaustsFuel | tools/gen_command_tree.rs:316-320 | a schema whose first branch leads back to itself never yields a result |
| Resolver.CyclicAllOfFallsBack | tools/gen_command_tree.rs:313-320 | so the self-referencing `allOf` document collapses to `unknown` in the model |
| Params.ParseParam | tools/gen_command_tree.rs:205-236 | nothing exactly when the resolved name is absent or empty; otherwise the name, `flag == to_kebab(name)` (a kebab token), location defaulting to `query`, required defaulting to `false`, and a well-shaped schema |
| Params.KeyBelowTotal | tools/gen_command_tree.rs:186 | the order on `(location, name)` keys is total |
| Params.InsertSorted | tools/gen_command_tree.rs:190-198 | `BTreeMap::insert` keeps the entries strictly ascending by key |
| Params.InsertFind | tools/gen_command_tree.rs:190-198 | after an insert the key finds the new descriptor, and every other key finds what it found before |
| Params.FindMember | tools/gen_command_tree.rs:202 | in the map, every entry is what its key finds |
| Params.InsertParsed | tools/gen_command_tree.rs:188-200 | one insertion loop inserts, in order, each descriptor `parse_param` keeps |
| Params.MergeParams | tools/gen_command_tree.rs:185-203 | the two loops give the path-level descriptors inserted first and the operation-level ones after |
| Params.InsertAllProps | tools/gen_command_tree.rs:188-200 | after a run of inserts, each key holds the last descriptor inserted with it, else what it held before |
| Params.MergeParamsCorrect | tools/gen_command_tree.rs:185-203 | each key appears at most once, in ascending order; an operation-level descriptor replaces the path-level one whole |
| Params.MergedEntries | tools/gen_command_tree.rs:185-203 | every merged entry is a descriptor of one of the two parameter lists |
| BodyDefs.RequiredNames | tools/gen_command_tree.rs:287-296 | the required set is exactly the strings listed in `required` |
| BodyDefs.FieldsByAt | tools/gen_command_tree.rs:298-307 | the push loop's `i`-th field is made from the `i`-th property |
| BodyDefs.InputFieldsFromSchema | tools/gen_command_tree.rs:280-311 | the push loop and the sort compute `InputFields` |
| BodyDefs.InputFieldsCorrect | tools/gen_command_tree.rs:280-311 | fields are sorted by name, one per property and each from some property; each field's flag is `input-` plus the kebab name; a field is required iff its name is listed; the schema is the property's collapsed schema; no `properties` gives no fields |
| BodyDefs.SortedFieldsCorrect | tools/gen_command_tree.rs:298-310 | the same facts for the sorted fields of any property list |
| BodyDefs.ChooseContent | tools/gen_command_tree.rs:254-262 | a content type is chosen exactly when the content map is non-empty |
| BodyDefs.ParseRequestBody | tools/gen_command_tree.rs:238-278 | a descriptor's schema is well shaped |
| BodyDefs.JsonContentPreferred | tools/gen_command_tree.rs:254-255 | whenever `application/json` is listed, the descriptor uses it, wherever it stands |
| BodyDefs.FirstContentOtherwise | tools/gen_command_tree.rs:256-261 | without JSON content, the first content type listed is used |
| BodyDefs.BodyDefFields | tools/gen_command_tree.rs:244-277 | input fields exist only for an object schema, are sorted and well formed, and `required` defaults to `false` |
| TreeBuilder.BuildEntry | tools/gen_command_tree.rs:114-161 | the entry of one verb equals `OpEntry`: none without a member, an error for a non-object member |
| TreeBuilder.OpEntryFields | tools/gen_command_tree.rs:120-161 | an entry's resource is the kebab first tag (default `default`), its name the kebab operation id (`operationId`, then `x-eov-operation-id`, then `call`), its method the upper-cased verb, and its path the item's |
| TreeBuilder.UpperVerbs | tools/gen_command_tree.rs:155 | the five verbs upper-case to `GET` … `DELETE` |
| TreeBuilder.OpEntryShaped | tools/gen_command_tree.rs:113-161 | every entry has kebab-token names, one of the five upper-case verbs, and its item's path |
| TreeBuilder.PushVerb | tools/gen_command_tree.rs:114-163 | one turn of the verb loop pushes that verb's entries into the resource map or returns its error |
| TreeBuilder.CollectItem | tools/gen_command_tree.rs:107-164 | the verb loop pushes the item's entries, in verb order, or stops at the first error |
| TreeBuilder.SortResources | tools/gen_command_tree.rs:167-171 | the final loop equals `Finalize`: one resource per map entry, its operations sorted by name |
| TreeBuilder.BuildTree | tools/gen_command_tree.rs:83-177 | the assembly equals `CompileTree`: version, base path, and the finalised resource map, or the first error |
| TreeBuilder.PushSorted | tools/gen_command_tree.rs:163 | `entry(..).or_default().push(..)` keeps resource names strictly ascending |
| TreeBuilder.PushFind | tools/gen_command_tree.rs:163 | a push appends the operation to its resource's list and leaves other resources alone |
| TreeBuilder.GroupAllCorrect | tools/gen_command_tree.rs:104-165 | the map is sorted, and each name holds exactly its entries' operations in order |
| TreeBuilder.TreeCorrect | tools/gen_command_tree.rs:83-177 | version and base path are the document's; resources strictly ascend; each resource holds exactly its operations, non-empty and stably sorted by name; every operation found lies in its tag's resource |
| TreeBuilder.ResourcesCorrect | tools/gen_command_tree.rs:163-171 | the same resource facts for the grouping of any list of entries |
| TreeBuilder.CollectErrors | tools/gen_command_tree.rs:106-119 | the loops fail exactly when some step fails, with the error of the first failing step |
| TreeBuilder.TreeErrors | tools/gen_command_tree.rs:99-119 | errors: `paths missing` without a `paths` object; otherwise `operation not object` exactly when some item has a non-object verb member |
| TreeBuilder.EntriesWellFormed | tools/gen_command_tree.rs:106-161 | every operation found is well formed and has the path of some item |
| Ordering.BelowTotal | tools/gen_command_tree.rs:169 | string order is total |
| Ordering.SortByCorrect | tools/gen_command_tree.rs:169 | `sort_by` on names is sorted, a permutation, and stable (each name's elements keep their order) |
| Cli.FindResource | src/main.rs:267-269 | finds a resource of that name, or none exactly when no resource has it |
| Cli.FindOperation | src/main.rs:270 | finds an operation of that name, or none exactly when no operation has it |
| Cli.FindOp | src/main.rs:266-271 | a found operation has the name asked for and lies in a resource of the name asked for |
| Cli.FindOpComplete | src/main.rs:266-271 | in a tree with ascending resource names, the lookup succeeds exactly when that resource lists such an operation |
| Cli.InputFieldKeyInjective | src/main.rs:472-474 | argument ids of fields are equal iff the names are, and all start with `body__` |
| Cli.SchemaLabelShape | src/main.rs:476-486 | for every kind that does not itself start with `array<`, a label starts with `array<` exactly for arrays. An array's label names its item kind, or `unknown`, between angle brackets. Any other kind is its own label |
| Coerce.ParseBool | src/main.rs:464-470 | true iff the lower-cased value is `true`, `1` or `yes`; false iff it is `false`, `0` or `no`; otherwise the error quotes the value |
| Coerce.ParseShowBool | src/main.rs:464-470 | a displayed boolean reads back |
| Coerce.ParseBoolIgnoresCase | src/main.rs:465 | upper-casing a valid value does not change its reading |
| Coerce.ScalarKinds | src/main.rs:450-462 | integers: exactly the decimal `i64` literals, with their value; booleans as `parse_bool`; strings verbatim; object, array and unknown: whatever JSON parses, else `invalid JSON value`; an empty number is the empty-float error; a kind the runtime does not know is read as a string |
| Coerce.QueryRoundTrip | src/main.rs:359-367 | a string, an `i64` display or a boolean display, read by its kind and turned back into query text, is unchanged |
| Coerce.ParseEachCorrect | src/main.rs:442-446 | token `i` reads to value `i`; failure happens exactly when some token fails, with the first failing token's error |
| Coerce.ParseListValue | src/main.rs:436-448 | the push loop computes `ListValue` |
| Coerce.ListValueCorrect | src/main.rs:436-448 | one `[`-token is parsed as JSON and returned unchecked; otherwise one value per token, read with the item schema or the list's own |
| Coerce.QueryStrings | src/main.rs:346 | one query text per element, in order |
| Coerce.ListForQueryCorrect | src/main.rs:340-357 | one text per token, each read and written back. A single `[`-token must parse (`invalid JSON list`) and must be an array (`expected JSON array`). When it is an array, the result is one text per array element, each written back as a query value |
| Numbers.ParseI64 | src/main.rs:452 | a parsed integer fits in 64 bits |
| Numbers.AccumulateValue | src/main.rs:452 | the digit loop gives the decimal value, or the overflow error of its sign |
| Numbers.ParseI64Exact | src/main.rs:452 | `parse::<i64>` accepts exactly the decimal literals in range and returns their value |
| Numbers.ParseShowInt | src/main.rs:452 | the display of any `i64` parses back to it |
| Numbers.Examples | src/main.rs:452 | `-17` parses; the empty text, a lone `-` and `4x` give the standard messages |
| PercentEncoding.Utf8 | src/main.rs:296 | UTF-8 uses one byte exactly below 0x80, up to four otherwise, with every byte of a long sequence at least 0x80 |
| PercentEncoding.DecodeEncodeBytes | src/main.rs:296 | decoding the encoding of a byte string gives the bytes back |
| PercentEncoding.DecodeEncode | src/main.rs:296 | decoding an encoded value gives its UTF-8 bytes |
| PercentEncoding.EncodeHasNoBrace | src/main.rs:296-297 | an encoded value has no `{`, `}` or `/` |
| PercentEncoding.EncodeUnreserved | src/main.rs:296 | a value of unreserved characters is unchanged |
| PercentEncoding.SpaceExample | src/main.rs:296 | `a b` is encoded as `a%20b` |
| PathTemplate.ReplaceAllPrefix | src/main.rs:297 | text without the pattern's first character is copied through by `replace` |
| PathTemplate.ReplaceFills | src/main.rs:297 | on a well-formed path, replacing `{name}` fills that placeholder: the path stays well formed and loses exactly that placeholder |
| PathTemplate.NestedBracesLeaveAPlaceholder | src/main.rs:297 | without well-formedness, `/x/{{id}}` with value `id` keeps a `{id}` |
| PathTemplate.RenderNoHoles | src/main.rs:291-298 | a well-formed path without placeholders has no braces |
| RequestUrl.NormalBasePath | src/main.rs:280-283 | the normalised base path starts with `/` |
| RequestUrl.ApiBaseCorrect | src/main.rs:279-289 | the API base starts with the slash-trimmed base URL and ends with the base path; the base path is added exactly when the base URL does not already end with it |
| RequestUrl.ApiBaseIdempotent | src/main.rs:279-289 | using the API base as the base URL gives the same API base again (base path not ending in `/`) |
| RequestUrl.SubstLoop | src/main.rs:291-298 | the substitution loop computes `SubstPath` |
| RequestUrl.SubstOutcome | src/main.rs:292-295 | substitution succeeds iff every path parameter has a value; otherwise the error is `missing required param --` with a missing parameter's flag |
| RequestUrl.SubstFills | src/main.rs:291-298 | on a well-formed path, substitution fills the placeholders of the path parameters and leaves the others |
| RequestUrl.SubstCorrect | src/main.rs:291-298 | when every placeholder names a path parameter, the result has no braces; a missing value is the missing-parameter error |
| RequestUrl.PushPairs | src/main.rs:326-328 | the push loop appends one `(name, text)` pair per text, in order |
| RequestUrl.AppendQueryParam | src/main.rs:317-338 | appends that parameter's pairs to `out`, or returns the list's error |
| RequestUrl.QueryParamCorrect | src/main.rs:317-338 | every pair carries the parameter's name, and a scalar gives its raw value. An unbound array gives no pair. An array given as tokens gives one pair per token, read and written back, and succeeds exactly when every token reads as the item kind. An array given as one JSON list fails on an unparsable list or a non-array, and otherwise gives one pair per element |
| RequestUrl.GatherCorrect | src/main.rs:303-306 | the query loop fails iff some query parameter fails; then every pair comes from a query parameter and every such parameter's pairs are present |
| RequestUrl.QueryPairsCorrect | src/main.rs:303-306 | the same for `append_query_param` |
| RequestUrl.QueryLoop | src/main.rs:303-306 | the query loop computes `QueryPairs` |
| RequestUrl.BuildUrl | src/main.rs:273-315 | `build_url` computes `UrlOf`: substitution, then the parse check, then the query pairs |
| RequestUrl.UrlCorrect | src/main.rs:273-315 | for a well-formed path whose placeholders are all path parameters, the address is the API base plus the filled, brace-free path; a missing path parameter is reported first |
| RequestBody.PutLookup | src/main.rs:418-425 | after `insert`, the key finds the new value and other keys are unchanged |
| RequestBody.ReadField | src/main.rs:413-426 | one turn of the loop reads the field as `FieldValue`: arrays via `parse_list_value`, others via `parse_scalar_value`, under `body__<name>` |
| RequestBody.BuildBodyFromInputs | src/main.rs:410-434 | the loop computes `InputsBody` |
| RequestBody.MembersCorrect | src/main.rs:412-427 | for distinct names, the object is built iff every field reads; each name holds its value, an absent field is missing, and no other key appears |
| RequestBody.InputMembersCorrect | src/main.rs:410-428 | the same for the fields read from the arguments |
| RequestBody.InputsBodyCorrect | src/main.rs:410-434 | no body exactly when no field was given, otherwise an object with each given field's value under its name |
| RequestBody.BodyChannels | src/main.rs:369-408 | without a body definition, `--body` or `--body-file` is an error; both together is an error; the raw body wins; a file that cannot be read is an error; a readable file is its parsed JSON, else `invalid JSON body file`. For an object body with input fields, a field error is the result, and a built object is the body. When no field was given, the result is `request body required` or no body. Without fields the result is also `request body required` or none. A required body is never left out |
| Response.ResponseBody | src/main.rs:515-519 | blank text gives `null`, and text that is not JSON gives the text as a string |
| Response.TrimEmpty | src/main.rs:515 | trimming leaves nothing exactly for whitespace-only text |
| Response.ResponseBodyTotal | src/main.rs:515-519 | the body is `null` exactly for blank text or the JSON text `null`; non-JSON text reaches the output verbatim |
| Response.Triage | src/main.rs:533-536 | `ok` exactly for statuses 200 to 299, and the status is kept |
| Text.TrimEndChar | src/main.rs:279 | `trim_end_matches('/')` leaves no trailing `/` and keeps a prefix |
| Text.JoinSplit | tools/gen_command_tree.rs:383 | splitting on `/` and joining back gives the text |

## Left out

- Resolver.SchemaDefOf: `schema_def` recurses through `resolve_ref` with no visited set. The Rust code overflows its stack on a cyclic `$ref`, and on any chain deeper than the stack allows. The model gives the recursion a depth bound of 64 and returns `unknown` past it (see `CyclicAllOfFallsBack`).
- Params.ParseParam: `parse_param` returns a `Result` that never holds an error. The model returns `Option`, and `merge_params` cannot fail.
- Coerce.ToQueryString: the `serde_json::to_string` error of `value_to_query_string` cannot happen for a `Value`, so the function is total.
- Coerce.ScalarKinds: the `number` kind reads through the abstract `parseF64`, since floating point is not modelled. Only the empty-text error message is fixed.
- Response.Triage: the status is a natural number, not a `u16`. The `raw` envelope with its copied headers is not built.
- RequestBody.BodyChannels: the body map is modelled as replace-or-append. That matches a sorted map here, because input fields are sorted by name and have distinct names. The message of an unparsable body or file is the context text, without the underlying serde error chain.
- RequestUrl.UrlOf: `Url::parse` is the abstract predicate `parses`. The URL is kept as its address text plus the ordered query pairs; its normalisation and form-encoding are not modelled.
- The sorts (`sort_by` of fields and operations) are modelled on sequence values as a stable insertion sort, not in place.
- `to_uppercase` of the verbs is modelled as ASCII upper-casing, which is exact for the five verb names.
- YAML and file reading and writing in the compiler's `main` are not modelled: the model starts from the parsed document. The same holds for `serde_yaml`, pretty-printing and `load_command_tree`.
- clap is not modelled (`build_cli` and the argument builders). The parsed arguments are a map from id to values.
- Not modelled because they are output and I/O: `handle_list`, `handle_describe`, `handle_tree`, `write_stdout_line`, environment variables, the reqwest client (timeout, method parsing, headers), and reading `--body-file` (the `readFile` parameter).
- `serde_json::from_str` and `to_string` are the abstract functions of `JsonLib`. JSON objects keep their members in the map's iteration order.
