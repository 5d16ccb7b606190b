/** `build_url` and `append_query_param` (src/main.rs): the request URL of an operation,
    from the configured base URL, the tree's base path, the path parameters substituted
    into the operation's path, and the query parameters. */
module RequestUrl {
  import opened Wrappers
  import opened Text
  import opened JsonValue
  import opened CommandTreeDefs
  import opened PercentEncoding
  import opened PathTemplate
  import opened Coerce
  import opened Cli

  const LocationPath := "path"
  const LocationQuery := "query"
  const MissingParam := "missing required param --"
  const InvalidBaseUrl := "invalid N8N_BASE_URL"

  /** The base path trimmed, with a leading `/` added when it has none. */
  function NormalBasePath(basePath: string): (p: string)
    ensures StartsWith(p, "/")
  {
    var t := Trim(basePath);
    if StartsWith(t, "/") then t else "/" + t
  }

  /** The API base: the base URL without trailing slashes, followed by the base path
      unless it already ends with it. */
  function ApiBase(baseUrl: string, basePath: string): string {
    var base := TrimEndChar(baseUrl, '/');
    var bp := NormalBasePath(basePath);
    if EndsWith(base, bp) then base else base + bp
  }

  /** The base path appears once at the end of the API base, after the base URL, and is
      added exactly when the base URL does not already end with it. */
  lemma ApiBaseCorrect(baseUrl: string, basePath: string)
    ensures var base := TrimEndChar(baseUrl, '/'); var r := ApiBase(baseUrl, basePath);
      StartsWith(r, base) && EndsWith(r, NormalBasePath(basePath))
      && (r == base <==> EndsWith(base, NormalBasePath(basePath)))
  {
    var base := TrimEndChar(baseUrl, '/');
    var bp := NormalBasePath(basePath);
    if !EndsWith(base, bp) {
      var r := base + bp;
      assert r[..|base|] == base && r[|r| - |bp|..] == bp;
    }
  }

  /** Configuring the API base itself as the base URL gives the same API base, unless the
      base path ends with `/` (which the slash trimming then strips and re-adds). */
  lemma ApiBaseIdempotent(baseUrl: string, basePath: string)
    requires var bp := NormalBasePath(basePath); bp[|bp| - 1] != '/'
    ensures ApiBase(ApiBase(baseUrl, basePath), basePath) == ApiBase(baseUrl, basePath)
  {
    var r := ApiBase(baseUrl, basePath);
    var bp := NormalBasePath(basePath);
    ApiBaseCorrect(baseUrl, basePath);
    assert r[|r| - 1] == bp[|bp| - 1];
    assert TrimEndChar(r, '/') == r;
  }

  // Path parameters

  /** One round of the substitution loop: a path parameter's value, percent-encoded,
      replaces every `{name}`; a missing value is an error naming the flag. */
  function SubstStep(path: string, p: ParamDef, args: Args): Result<string, string> {
    if p.location != LocationPath then Ok(path)
    else match GetOne(args, p.name)
      case None => Err(MissingParam + p.flag)
      case Some(v) => Ok(ReplaceAll(path, Placeholder(p.name), Encode(v)))
  }

  /** The operation's path after the substitution loop over `params`. */
  function SubstPath(path: string, params: seq<ParamDef>, args: Args): Result<string, string> {
    if params == [] then Ok(path)
    else
      var init :- SubstPath(path, params[..|params| - 1], args);
      SubstStep(init, params[|params| - 1], args)
  }

  /** The names of the path parameters. */
  function PathNames(params: seq<ParamDef>): set<string> {
    set i | 0 <= i < |params| && params[i].location == LocationPath :: params[i].name
  }

  /** The placeholders of a path, each filled with its parameter's encoded value. */
  function FillAll(ps: seq<Piece>, params: seq<ParamDef>, args: Args): seq<Piece> {
    if params == [] then ps
    else
      var init := FillAll(ps, params[..|params| - 1], args);
      var p := params[|params| - 1];
      if p.location == LocationPath && GetOne(args, p.name).Some? then Fill(init, p.name, Encode(GetOne(args, p.name).value))
      else init
  }

  predicate NamesBraceFree(params: seq<ParamDef>) {
    forall i :: 0 <= i < |params| && params[i].location == LocationPath ==> BraceFree(params[i].name)
  }

  lemma PathNamesSnoc(params: seq<ParamDef>)
    requires params != []
    ensures var n := |params| - 1;
      PathNames(params) == PathNames(params[..n]) + (if params[n].location == LocationPath then {params[n].name} else {})
  {
    var n := |params| - 1;
    forall x | x in PathNames(params) ensures x in PathNames(params[..n]) + (if params[n].location == LocationPath then {params[n].name} else {}) {
      var i :| 0 <= i < |params| && params[i].location == LocationPath && params[i].name == x;
      if i < n { assert params[..n][i] == params[i]; }
    }
    forall x | x in PathNames(params[..n]) ensures x in PathNames(params) {
      var i :| 0 <= i < n && params[..n][i].location == LocationPath && params[..n][i].name == x;
      assert params[i] == params[..n][i];
    }
  }

  /** The substitution succeeds exactly when every path parameter has a value;
      otherwise the error names the flag of a path parameter without one. */
  lemma {:induction false} SubstOutcome(path: string, params: seq<ParamDef>, args: Args)
    ensures var r := SubstPath(path, params, args);
      (r.Ok? <==> forall i :: 0 <= i < |params| && params[i].location == LocationPath ==> GetOne(args, params[i].name).Some?)
      && (r.Err? ==> exists i :: (0 <= i < |params| && params[i].location == LocationPath
                                  && GetOne(args, params[i].name).None? && r.error == MissingParam + params[i].flag))
  {
    if params != [] {
      var n := |params| - 1;
      var init := params[..n];
      assert forall i :: 0 <= i < n ==> init[i] == params[i];
      SubstOutcome(path, init, args);
      var prev := SubstPath(path, init, args);
      if prev.Err? {
        var i :| 0 <= i < n && init[i].location == LocationPath && GetOne(args, init[i].name).None? && prev.error == MissingParam + init[i].flag;
        assert params[i] == init[i];
      }
    }
  }

  /** Substitution on the text of a well-formed path is filling its placeholders: the
      result is again well formed, and the placeholders left are those no path
      parameter names. */
  lemma {:induction false} SubstFills(ps: seq<Piece>, params: seq<ParamDef>, args: Args)
    requires PiecesOk(ps) && NamesBraceFree(params)
    ensures var r := SubstPath(Render(ps), params, args);
      r.Ok? ==>
        r.value == Render(FillAll(ps, params, args))
        && PiecesOk(FillAll(ps, params, args))
        && Holes(FillAll(ps, params, args)) == Holes(ps) - PathNames(params)
  {
    if params != [] && SubstPath(Render(ps), params, args).Ok? {
      var n := |params| - 1;
      var init := params[..n];
      var p := params[n];
      assert forall i :: 0 <= i < n ==> init[i] == params[i];
      SubstFills(ps, init, args);
      PathNamesSnoc(params);
      if p.location == LocationPath {
        var v := Encode(GetOne(args, p.name).value);
        EncodeHasNoBrace(GetOne(args, p.name).value);
        ReplaceFills(FillAll(ps, init, args), p.name, v);
      }
    }
  }

  /** When every placeholder of the path is named by a path parameter, the substituted
      path has no braces left. */
  lemma SubstComplete(ps: seq<Piece>, params: seq<ParamDef>, args: Args)
    requires PiecesOk(ps) && NamesBraceFree(params) && Holes(ps) <= PathNames(params)
    requires SubstPath(Render(ps), params, args).Ok?
    ensures BraceFree(SubstPath(Render(ps), params, args).value)
  {
    SubstFills(ps, params, args);
    RenderNoHoles(FillAll(ps, params, args));
  }

  lemma SubstPathSnoc(path: string, params: seq<ParamDef>, args: Args, i: nat)
    requires i < |params|
    ensures SubstPath(path, params[..i + 1], args) ==
      match SubstPath(path, params[..i], args)
      case Err(msg) => Err(msg)
      case Ok(init) => SubstStep(init, params[i], args)
  {
    assert params[..i + 1][..i] == params[..i];
  }

  lemma {:induction false} SubstPathAbort(path: string, params: seq<ParamDef>, args: Args, i: nat)
    requires i <= |params| && SubstPath(path, params[..i], args).Err?
    ensures SubstPath(path, params, args) == SubstPath(path, params[..i], args)
    decreases |params| - i
  {
    if i < |params| {
      SubstPathSnoc(path, params, args, i);
      SubstPathAbort(path, params, args, i + 1);
    } else {
      assert params[..i] == params;
    }
  }

  // Query parameters

  /** The pairs of one parameter name with each of its texts. */
  function Pairs(name: string, texts: seq<string>): (r: seq<(string, string)>)
    ensures |r| == |texts| && forall i :: 0 <= i < |texts| ==> r[i] == (name, texts[i])
  {
    if texts == [] then [] else [(name, texts[0])] + Pairs(name, texts[1..])
  }

  /** What `append_query_param` pushes: for an array parameter one pair per list value,
      for any other the value as given; nothing when the argument is absent. */
  function QueryParam(lib: JsonLib, p: ParamDef, args: Args): Result<seq<(string, string)>, string> {
    if p.schema.kind == KindArray then
      match GetMany(args, p.name)
      case None => Ok([])
      case Some(vs) =>
        var texts :- ListForQuery(lib, p.schema, vs);
        Ok(Pairs(p.name, texts))
    else
      match GetOne(args, p.name)
      case Some(v) => Ok([(p.name, v)])
      case None => Ok([])
  }

  /** The push loop of `append_query_param`: one pair per text, after `out`. */
  method PushPairs(out: seq<(string, string)>, name: string, texts: seq<string>) returns (acc: seq<(string, string)>)
    ensures acc == out + Pairs(name, texts)
  {
    acc := out;
    var i := 0;
    while i < |texts|
      invariant 0 <= i <= |texts|
      invariant |acc| == |out| + i && acc[..|out|] == out
      invariant forall j :: 0 <= j < i ==> acc[|out| + j] == (name, texts[j])
    {
      acc := acc + [(name, texts[i])];
      i := i + 1;
    }
    assert acc == out + Pairs(name, texts);
  }

  /** `append_query_param`, with its push loop; `out` is the vector it appends to. */
  method AppendQueryParam(lib: JsonLib, out: seq<(string, string)>, p: ParamDef, args: Args)
    returns (r: Result<seq<(string, string)>, string>)
    ensures QueryParam(lib, p, args).Err? ==> r == Err(QueryParam(lib, p, args).error)
    ensures QueryParam(lib, p, args).Ok? ==> r == Ok(out + QueryParam(lib, p, args).value)
  {
    if p.schema.kind == KindArray {
      var values := GetMany(args, p.name);
      if values.Some? {
        var parsed := ListForQuery(lib, p.schema, values.value);
        if parsed.Err? {
          return Err(parsed.error);
        }
        var acc := PushPairs(out, p.name, parsed.value);
        return Ok(acc);
      }
      assert out + [] == out;
      return Ok(out);
    }
    var value := GetOne(args, p.name);
    if value.Some? {
      return Ok(out + [(p.name, value.value)]);
    }
    assert out + [] == out;
    return Ok(out);
  }

  /** The pairs that `param` gives for each query parameter of `params`, in order, or the
      first error; the parameters of other locations are skipped. */
  function Gather(param: ParamDef -> Result<seq<(string, string)>, string>, params: seq<ParamDef>): Result<seq<(string, string)>, string> {
    if params == [] then Ok([])
    else
      var init :- Gather(param, params[..|params| - 1]);
      var p := params[|params| - 1];
      if p.location != LocationQuery then Ok(init)
      else
        var more :- param(p);
        Ok(init + more)
  }

  function QueryStep(lib: JsonLib, args: Args): ParamDef -> Result<seq<(string, string)>, string> {
    p => QueryParam(lib, p, args)
  }

  /** The query pairs of the query parameters, in parameter order. */
  function QueryPairs(lib: JsonLib, params: seq<ParamDef>, args: Args): Result<seq<(string, string)>, string> {
    Gather(QueryStep(lib, args), params)
  }

  lemma GatherSnoc(param: ParamDef -> Result<seq<(string, string)>, string>, params: seq<ParamDef>, i: nat)
    requires i < |params|
    ensures Gather(param, params[..i + 1]) ==
      match Gather(param, params[..i])
      case Err(msg) => Err(msg)
      case Ok(init) =>
        if params[i].location != LocationQuery then Ok(init)
        else match param(params[i])
          case Err(msg) => Err(msg)
          case Ok(more) => Ok(init + more)
  {
    assert params[..i + 1][..i] == params[..i];
  }

  lemma {:induction false} GatherAbort(param: ParamDef -> Result<seq<(string, string)>, string>, params: seq<ParamDef>, i: nat)
    requires i <= |params| && Gather(param, params[..i]).Err?
    ensures Gather(param, params) == Gather(param, params[..i])
    decreases |params| - i
  {
    if i < |params| {
      GatherSnoc(param, params, i);
      GatherAbort(param, params, i + 1);
    } else {
      assert params[..i] == params;
    }
  }

  /** A scalar query parameter contributes its value verbatim, an array parameter one pair
      per token read by the item schema, and every pair carries the parameter's name. */
  lemma QueryParamCorrect(lib: JsonLib, p: ParamDef, args: Args)
    ensures QueryParam(lib, p, args).Ok? ==> forall q :: q in QueryParam(lib, p, args).value ==> q.0 == p.name
    ensures p.schema.kind != KindArray ==>
      QueryParam(lib, p, args) == Ok(if GetOne(args, p.name).Some? then [(p.name, GetOne(args, p.name).value)] else [])
    ensures (p.schema.kind == KindArray && GetMany(args, p.name).Some? && !JsonListForm(GetMany(args, p.name).value)
             && QueryParam(lib, p, args).Ok?) ==>
        var vs := GetMany(args, p.name).value;
        var pairs := QueryParam(lib, p, args).value;
        |pairs| == |vs|
        && forall i :: 0 <= i < |vs| ==>
             ParseScalar(lib, ItemSchema(p.schema), vs[i]).Ok?
             && pairs[i] == (p.name, ToQueryString(lib, ParseScalar(lib, ItemSchema(p.schema), vs[i]).value))
    ensures (p.schema.kind == KindArray && GetMany(args, p.name).Some? && !JsonListForm(GetMany(args, p.name).value)) ==>
      (QueryParam(lib, p, args).Ok? <==>
         forall i :: 0 <= i < |GetMany(args, p.name).value| ==> ParseScalar(lib, ItemSchema(p.schema), GetMany(args, p.name).value[i]).Ok?)
    ensures p.schema.kind == KindArray && GetMany(args, p.name).None? ==> QueryParam(lib, p, args) == Ok([])
    ensures p.schema.kind == KindArray && GetMany(args, p.name).Some? && JsonListForm(GetMany(args, p.name).value) ==>
      var parsed := lib.fromStr(GetMany(args, p.name).value[0]);
      (parsed.None? ==> QueryParam(lib, p, args) == Err(InvalidJsonList))
      && (parsed.Some? && !parsed.value.Arr? ==> QueryParam(lib, p, args) == Err(ExpectedJsonArray))
      && (parsed.Some? && parsed.value.Arr? ==>
            QueryParam(lib, p, args).Ok?
            && |QueryParam(lib, p, args).value| == |parsed.value.items|
            && forall i :: 0 <= i < |parsed.value.items| ==>
                 QueryParam(lib, p, args).value[i] == (p.name, ToQueryString(lib, parsed.value.items[i])))
  {
    if p.schema.kind == KindArray && GetMany(args, p.name).Some? {
      ListForQueryCorrect(lib, p.schema, GetMany(args, p.name).value);
    }
  }

  /** Every pair of a parameter carries that parameter's name. */
  ghost predicate Named(param: ParamDef -> Result<seq<(string, string)>, string>) {
    forall p :: param(p).Ok? ==> forall q :: q in param(p).value ==> q.0 == p.name
  }

  /** For pairs named after their parameters: every pair gathered comes from a query
      parameter; the gathering succeeds exactly when each query parameter's pairs do, and
      then holds each of them. */
  lemma {:induction false} GatherCorrect(param: ParamDef -> Result<seq<(string, string)>, string>, params: seq<ParamDef>)
    requires Named(param)
    ensures var r := Gather(param, params);
      (r.Ok? <==> forall i :: 0 <= i < |params| && params[i].location == LocationQuery ==> param(params[i]).Ok?)
      && (r.Ok? ==> forall q :: q in r.value ==>
            exists i :: 0 <= i < |params| && params[i].location == LocationQuery && params[i].name == q.0)
      && (r.Ok? ==> forall i, q :: 0 <= i < |params| && params[i].location == LocationQuery && q in param(params[i]).value ==> q in r.value)
  {
    if params != [] {
      var n := |params| - 1;
      var init := params[..n];
      assert forall i :: 0 <= i < n ==> init[i] == params[i];
      GatherCorrect(param, init);
      var r := Gather(param, params);
      if r.Ok? {
        forall q | q in r.value
          ensures exists i :: 0 <= i < |params| && params[i].location == LocationQuery && params[i].name == q.0
        {
          if q !in Gather(param, init).value {
            assert params[n].name == q.0;
          } else {
            var i :| 0 <= i < n && init[i].location == LocationQuery && init[i].name == q.0;
            assert params[i] == init[i];
          }
        }
      }
    }
  }

  /** Every pair comes from a query parameter; the list succeeds exactly when each query
      parameter's pairs do, and then holds each of them. */
  lemma QueryPairsCorrect(lib: JsonLib, params: seq<ParamDef>, args: Args)
    ensures var r := QueryPairs(lib, params, args);
      (r.Ok? <==> forall i :: 0 <= i < |params| && params[i].location == LocationQuery ==> QueryParam(lib, params[i], args).Ok?)
      && (r.Ok? ==> forall q :: q in r.value ==>
            exists i :: 0 <= i < |params| && params[i].location == LocationQuery && params[i].name == q.0)
      && (r.Ok? ==> forall i, q :: 0 <= i < |params| && params[i].location == LocationQuery && q in QueryParam(lib, params[i], args).value ==> q in r.value)
  {
    var step := QueryStep(lib, args);
    forall p ensures step(p).Ok? ==> forall q :: q in step(p).value ==> q.0 == p.name {
      QueryParamCorrect(lib, p, args);
    }
    GatherCorrect(step, params);
  }

  /** The query loop of `build_url`. */
  method QueryLoop(lib: JsonLib, params: seq<ParamDef>, args: Args) returns (r: Result<seq<(string, string)>, string>)
    ensures r == QueryPairs(lib, params, args)
  {
    ghost var step := QueryStep(lib, args);
    var pairs: seq<(string, string)> := [];
    var i := 0;
    assert params[..0] == [];
    while i < |params|
      invariant 0 <= i <= |params|
      invariant Gather(step, params[..i]) == Ok(pairs)
    {
      GatherSnoc(step, params, i);
      var p := params[i];
      if p.location == LocationQuery {
        var appended := AppendQueryParam(lib, pairs, p, args);
        if appended.Err? {
          GatherAbort(step, params, i + 1);
          return Err(appended.error);
        }
        pairs := appended.value;
      }
      i := i + 1;
    }
    assert params[..i] == params;
    return Ok(pairs);
  }

  /** The substitution loop of `build_url`. */
  method SubstLoop(path: string, params: seq<ParamDef>, args: Args) returns (r: Result<string, string>)
    ensures r == SubstPath(path, params, args)
  {
    var filled := path;
    var i := 0;
    assert params[..0] == [];
    while i < |params|
      invariant 0 <= i <= |params|
      invariant SubstPath(path, params[..i], args) == Ok(filled)
    {
      SubstPathSnoc(path, params, args, i);
      var p := params[i];
      if p.location == LocationPath {
        var value := GetOne(args, p.name);
        if value.None? {
          SubstPathAbort(path, params, args, i + 1);
          return Err(MissingParam + p.flag);
        }
        filled := ReplaceAll(filled, Placeholder(p.name), Encode(value.value));
      }
      i := i + 1;
    }
    assert params[..i] == params;
    return Ok(filled);
  }

  // The URL

  /** The URL: its text before the query, as given to `Url::parse`, and the query pairs
      appended to it, in order. */
  datatype Url = Url(address: string, query: seq<(string, string)>)

  /** `build_url`. `parses` stands for `Url::parse` accepting the text. */
  function UrlOf(lib: JsonLib, parses: string -> bool, baseUrl: string, basePath: string, op: Operation, args: Args): Result<Url, string> {
    var path :- SubstPath(op.path, op.params, args);
    var address := ApiBase(baseUrl, basePath) + path;
    if !parses(address) then Err(InvalidBaseUrl)
    else
      var pairs :- QueryPairs(lib, op.params, args);
      Ok(Url(address, pairs))
  }

  /** `build_url`, with its substitution loop and its query loop. */
  method BuildUrl(lib: JsonLib, parses: string -> bool, baseUrl: string, basePath: string, op: Operation, args: Args)
    returns (r: Result<Url, string>)
    ensures r == UrlOf(lib, parses, baseUrl, basePath, op, args)
  {
    var apiBase := ApiBase(baseUrl, basePath);
    var path := SubstLoop(op.path, op.params, args);
    if path.Err? {
      return Err(path.error);
    }
    var address := apiBase + path.value;
    if !parses(address) {
      return Err(InvalidBaseUrl);
    }
    var pairs := QueryLoop(lib, op.params, args);
    if pairs.Err? {
      return Err(pairs.error);
    }
    return Ok(Url(address, pairs.value));
  }

  /** For an operation path made of literal characters and placeholders, each named by a
      path parameter: the URL is the API base followed by the filled path, which has no
      braces left; a missing path parameter is reported before anything about the base
      URL or the query. */
  lemma UrlCorrect(lib: JsonLib, parses: string -> bool, baseUrl: string, basePath: string, op: Operation, args: Args, ps: seq<Piece>)
    requires op.path == Render(ps) && PiecesOk(ps) && NamesBraceFree(op.params) && Holes(ps) <= PathNames(op.params)
    ensures var r := UrlOf(lib, parses, baseUrl, basePath, op, args);
      (r.Ok? ==>
        r.value.address == ApiBase(baseUrl, basePath) + Render(FillAll(ps, op.params, args))
        && BraceFree(Render(FillAll(ps, op.params, args))))
      && ((exists i :: 0 <= i < |op.params| && op.params[i].location == LocationPath && GetOne(args, op.params[i].name).None?) ==>
            r.Err? && StartsWith(r.error, MissingParam))
  {
    SubstCorrect(ps, op.params, args);
  }

  /** The substitution part of `UrlCorrect`. */
  lemma SubstCorrect(ps: seq<Piece>, params: seq<ParamDef>, args: Args)
    requires PiecesOk(ps) && NamesBraceFree(params) && Holes(ps) <= PathNames(params)
    ensures var s := SubstPath(Render(ps), params, args);
      (s.Ok? ==> s.value == Render(FillAll(ps, params, args)) && BraceFree(s.value))
      && ((exists i :: 0 <= i < |params| && params[i].location == LocationPath && GetOne(args, params[i].name).None?) ==>
            s.Err? && StartsWith(s.error, MissingParam))
  {
    SubstFills(ps, params, args);
    SubstOutcome(Render(ps), params, args);
    var s := SubstPath(Render(ps), params, args);
    if s.Ok? {
      SubstComplete(ps, params, args);
    } else {
      var i :| 0 <= i < |params| && params[i].location == LocationPath
        && GetOne(args, params[i].name).None? && s.error == MissingParam + params[i].flag;
      assert s.error[..|MissingParam|] == MissingParam;
    }
  }
}
