/** The tree assembly of the compiler's `main` (tools/gen_command_tree.rs): every
    operation of every path becomes an entry of the resource named by its first tag;
    resources come out in name order, each with its operations sorted by name. */
module TreeBuilder {
  import opened Wrappers
  import opened Text
  import opened Ordering
  import opened JsonValue
  import opened CommandTreeDefs
  import opened Naming
  import opened Resolver
  import opened Params
  import opened BodyDefs

  /** The HTTP verbs looked up on each path item, in the order they are visited. */
  const Methods: seq<string> := ["get", "post", "put", "patch", "delete"]

  const DefaultVersion := "0"
  const DefaultBasePath := "/api/v1"
  const DefaultTag := "default"
  const DefaultOpId := "call"
  const PathsMissing := "paths missing"
  const OperationNotObject := "operation not object"

  /** `info.version`, or `0`. */
  function Version(doc: Json): string {
    match Get(doc, "info")
    case None => DefaultVersion
    case Some(info) => StrAt(info, "version").GetOr(DefaultVersion)
  }

  /** The `url` of the first server, or `/api/v1`. */
  function BasePath(doc: Json): string {
    match ArrAt(doc, "servers")
    case Some(servers) => if servers == [] then DefaultBasePath else StrAt(servers[0], "url").GetOr(DefaultBasePath)
    case None => DefaultBasePath
  }

  /** The first tag, when the first element of `tags` is a string. */
  function FirstTag(op: Json): Option<string> {
    match ArrAt(op, "tags")
    case Some(tags) => if tags != [] && tags[0].Str? then Some(tags[0].s) else None
    case None => None
  }

  /** `operationId`, else `x-eov-operation-id`, else `call`. */
  function OperationId(op: Json): string {
    match StrAt(op, "operationId")
    case Some(id) => id
    case None => StrAt(op, "x-eov-operation-id").GetOr(DefaultOpId)
  }

  /** An operation and the resource it is filed under. */
  datatype Entry = Entry(resource: string, op: Operation)

  /** The entry of one verb of one path item: none when the item has no such member,
      an error when the member is not an object. */
  function OpEntry(doc: Json, path: string, item: Json, pathParams: seq<Json>, verb: string): Result<Option<Entry>, string> {
    match Get(item, verb)
    case None => Ok(None)
    case Some(op) =>
      if !op.Obj? then Err(OperationNotObject)
      else
        var operation := Operation(
          Kebab(OperationId(op)),
          AsciiUpperStr(verb),
          path,
          StrAt(op, "summary"),
          StrAt(op, "description"),
          MergedParams(doc, pathParams, ArrAt(op, "parameters").GetOr([])),
          ParseRequestBody(doc, Get(op, "requestBody")));
        Ok(Some(Entry(Kebab(FirstTag(op).GetOr(DefaultTag)), operation)))
  }

  /** The entries that `step` gives for each of `xs`, in order, or the first error. */
  function Collect<X>(step: X -> Result<seq<Entry>, string>, xs: seq<X>): Result<seq<Entry>, string> {
    if xs == [] then Ok([])
    else
      var init :- Collect(step, xs[..|xs| - 1]);
      var more :- step(xs[|xs| - 1]);
      Ok(init + more)
  }

  /** The entries of one verb of a path item: none or one. */
  function VerbEntries(doc: Json, path: string, item: Json, verb: string): Result<seq<Entry>, string> {
    var found :- OpEntry(doc, path, item, ArrAt(item, "parameters").GetOr([]), verb);
    Ok(match found case Some(e) => [e] case None => [])
  }

  function VerbStep(doc: Json, path: string, item: Json): string -> Result<seq<Entry>, string> {
    verb => VerbEntries(doc, path, item, verb)
  }

  /** The entries of a path item, verb by verb in the order of `Methods`. */
  function ItemEntries(doc: Json, path: string, item: Json): Result<seq<Entry>, string> {
    Collect(VerbStep(doc, path, item), Methods)
  }

  function ItemStep(doc: Json): ((string, Json)) -> Result<seq<Entry>, string> {
    (p: (string, Json)) => ItemEntries(doc, p.0, p.1)
  }

  /** The entries of the paths, path by path. */
  function PathsEntries(doc: Json, paths: seq<(string, Json)>): Result<seq<Entry>, string> {
    Collect(ItemStep(doc), paths)
  }

  // The BTreeMap<String, Vec<Operation>> of resources

  type Groups = seq<(string, seq<Operation>)>

  /** Names strictly ascending: the iteration order of the map. */
  predicate NamesSorted(m: Groups) {
    forall i, j :: 0 <= i < j < |m| ==> Below(m[i].0, m[j].0)
  }

  function FindGroup(m: Groups, k: string): Option<seq<Operation>> {
    if m == [] then None
    else if m[0].0 == k then Some(m[0].1)
    else FindGroup(m[1..], k)
  }

  /** `resources.entry(resource).or_default().push(op)` */
  function Push(m: Groups, e: Entry): Groups {
    if m == [] then [(e.resource, [e.op])]
    else if m[0].0 == e.resource then [(m[0].0, m[0].1 + [e.op])] + m[1..]
    else if Below(e.resource, m[0].0) then [(e.resource, [e.op])] + m
    else [m[0]] + Push(m[1..], e)
  }

  function GroupAll(es: seq<Entry>): Groups {
    if es == [] then [] else Push(GroupAll(es[..|es| - 1]), es[|es| - 1])
  }

  function OpName(op: Operation): string {
    op.name
  }

  /** The resources: the map's entries in order, each with its operations sorted by name. */
  function Finalize(m: Groups): (rs: seq<Resource>)
    ensures |rs| == |m|
  {
    if m == [] then []
    else Finalize(m[..|m| - 1]) + [Resource(m[|m| - 1].0, SortBy(m[|m| - 1].1, OpName))]
  }

  /** What lines 83-177 compute from the document. */
  function CompileTree(doc: Json): Result<CommandTree, string> {
    var paths :- match ObjAt(doc, "paths") case None => Err(PathsMissing) case Some(p) => Ok(p);
    var es :- PathsEntries(doc, paths);
    Ok(CommandTree(Version(doc), BasePath(doc), Finalize(GroupAll(es))))
  }

  lemma CollectStep<X>(step: X -> Result<seq<Entry>, string>, xs: seq<X>, i: nat)
    requires i < |xs|
    ensures Collect(step, xs[..i + 1]) ==
      match Collect(step, xs[..i])
      case Err(msg) => Err(msg)
      case Ok(init) =>
        match step(xs[i])
        case Err(msg) => Err(msg)
        case Ok(more) => Ok(init + more)
  {
    assert xs[..i + 1][..i] == xs[..i];
  }

  /** An error in the first `i` steps is the error of all of them. */
  lemma {:induction false} CollectAbort<X>(step: X -> Result<seq<Entry>, string>, xs: seq<X>, i: nat)
    requires i <= |xs| && Collect(step, xs[..i]).Err?
    ensures Collect(step, xs) == Collect(step, xs[..i])
    decreases |xs| - i
  {
    if i < |xs| {
      CollectStep(step, xs, i);
      CollectAbort(step, xs, i + 1);
    } else {
      assert xs[..i] == xs;
    }
  }

  lemma AppendAssoc<T>(a: seq<T>, b: seq<T>, c: seq<T>)
    ensures (a + b) + c == a + (b + c)
  {
  }

  lemma GroupAllPush(es: seq<Entry>, e: Entry)
    ensures GroupAll(es + [e]) == Push(GroupAll(es), e)
  {
    assert (es + [e])[..|es|] == es;
  }

  lemma FinalizeSnoc(m: Groups, k: nat)
    requires k < |m|
    ensures Finalize(m[..k + 1]) == Finalize(m[..k]) + [Resource(m[k].0, SortBy(m[k].1, OpName))]
  {
    assert m[..k + 1][..k] == m[..k];
  }

  /** The entry the loop body builds for one verb of one path item. */
  method BuildEntry(doc: Json, path: string, item: Json, pathParams: seq<Json>, verb: string)
    returns (r: Result<Option<Entry>, string>)
    ensures r == OpEntry(doc, path, item, pathParams, verb)
  {
    var found := Get(item, verb);
    if found.None? {
      return Ok(None);
    }
    var op := found.value;
    if !op.Obj? {
      return Err(OperationNotObject);
    }
    var resource := ToKebab(FirstTag(op).GetOr(DefaultTag));
    var name := ToKebab(OperationId(op));
    var params := MergeParams(doc, pathParams, ArrAt(op, "parameters").GetOr([]));
    var body := ParseRequestBody(doc, Get(op, "requestBody"));
    var operation := Operation(name, AsciiUpperStr(verb), path, StrAt(op, "summary"), StrAt(op, "description"), params, body);
    return Ok(Some(Entry(resource, operation)));
  }

  /** One turn of the inner loop: the entry of one verb pushed into the resource map. */
  method PushVerb(doc: Json, path: string, item: Json, pathParams: seq<Json>, verb: string,
                  groups: Groups, ghost es: seq<Entry>)
    returns (r: Result<Groups, string>)
    requires pathParams == ArrAt(item, "parameters").GetOr([]) && groups == GroupAll(es)
    ensures VerbEntries(doc, path, item, verb).Err? ==> r == Err(VerbEntries(doc, path, item, verb).error)
    ensures VerbEntries(doc, path, item, verb).Ok? ==> r == Ok(GroupAll(es + VerbEntries(doc, path, item, verb).value))
  {
    var entry := BuildEntry(doc, path, item, pathParams, verb);
    if entry.Err? {
      return Err(entry.error);
    }
    if entry.value.Some? {
      GroupAllPush(es, entry.value.value);
      return Ok(Push(groups, entry.value.value));
    }
    assert es + [] == es;
    return Ok(groups);
  }

  /** The inner loop of the assembly: the entries of one path item pushed into the
      resource map, or the first error. */
  method CollectItem(doc: Json, path: string, item: Json, resources: Groups, ghost done: seq<Entry>)
    returns (r: Result<Groups, string>)
    requires resources == GroupAll(done)
    ensures ItemEntries(doc, path, item).Err? ==> r == Err(ItemEntries(doc, path, item).error)
    ensures ItemEntries(doc, path, item).Ok? ==> r == Ok(GroupAll(done + ItemEntries(doc, path, item).value))
  {
    var pathParams := ArrAt(item, "parameters").GetOr([]);
    ghost var step := VerbStep(doc, path, item);
    var groups := resources;
    ghost var here: seq<Entry> := [];
    var j := 0;
    assert Methods[..0] == [];
    assert done + [] == done;
    while j < |Methods|
      invariant 0 <= j <= |Methods|
      invariant Collect(step, Methods[..j]) == Ok(here)
      invariant groups == GroupAll(done + here)
    {
      CollectStep(step, Methods, j);
      var pushed := PushVerb(doc, path, item, pathParams, Methods[j], groups, done + here);
      if pushed.Err? {
        CollectAbort(step, Methods, j + 1);
        return Err(pushed.error);
      }
      ghost var more := step(Methods[j]).value;
      AppendAssoc(done, here, more);
      groups := pushed.value;
      here := here + more;
      j := j + 1;
    }
    assert Methods[..j] == Methods;
    return Ok(groups);
  }

  /** The last loop of the assembly: each resource with its operations sorted by name. */
  method SortResources(resources: Groups) returns (out: seq<Resource>)
    ensures out == Finalize(resources)
  {
    out := [];
    var k := 0;
    assert resources[..0] == [];
    while k < |resources|
      invariant 0 <= k <= |resources|
      invariant out == Finalize(resources[..k])
    {
      FinalizeSnoc(resources, k);
      var (name, ops) := resources[k];
      ops := SortBy(ops, OpName);
      out := out + [Resource(name, ops)];
      k := k + 1;
    }
    assert resources[..k] == resources;
  }

  /** The tree-assembly part of `main`: the loop over the paths that fills the resource
      map, then the sorting of each resource's operations. */
  method BuildTree(doc: Json) returns (r: Result<CommandTree, string>)
    ensures r == CompileTree(doc)
  {
    var version := Version(doc);
    var basePath := BasePath(doc);
    var found := ObjAt(doc, "paths");
    if found.None? {
      return Err(PathsMissing);
    }
    var paths := found.value;
    ghost var step := ItemStep(doc);
    var resources: Groups := [];
    ghost var done: seq<Entry> := [];
    var i := 0;
    assert paths[..0] == [];
    while i < |paths|
      invariant 0 <= i <= |paths|
      invariant Collect(step, paths[..i]) == Ok(done)
      invariant resources == GroupAll(done)
    {
      CollectStep(step, paths, i);
      var collected := CollectItem(doc, paths[i].0, paths[i].1, resources, done);
      if collected.Err? {
        CollectAbort(step, paths, i + 1);
        return Err(collected.error);
      }
      resources := collected.value;
      done := done + ItemEntries(doc, paths[i].0, paths[i].1).value;
      i := i + 1;
    }
    assert paths[..i] == paths;
    var out := SortResources(resources);
    return Ok(CommandTree(version, basePath, out));
  }

  // Properties of the grouping

  /** The operations of the entries filed under `k`, in entry order. */
  function OpsFor(es: seq<Entry>, k: string): seq<Operation> {
    if es == [] then []
    else OpsFor(es[..|es| - 1], k) + if es[|es| - 1].resource == k then [es[|es| - 1].op] else []
  }

  lemma {:induction false} PushHead(m: Groups, e: Entry)
    ensures Push(m, e) != [] && (Push(m, e)[0].0 == e.resource || (m != [] && Push(m, e)[0].0 == m[0].0))
  {
  }

  lemma NamesSortedTail(m: Groups)
    requires NamesSorted(m) && m != []
    ensures NamesSorted(m[1..])
  {
    forall i, j | 0 <= i < j < |m| - 1 ensures Below(m[1..][i].0, m[1..][j].0) {
      assert m[1..][i] == m[i + 1] && m[1..][j] == m[j + 1];
    }
  }

  lemma {:induction false} PushSorted(m: Groups, e: Entry)
    requires NamesSorted(m)
    ensures NamesSorted(Push(m, e))
  {
    if m == [] {
    } else if m[0].0 == e.resource {
      var r := Push(m, e);
      forall i, j | 0 <= i < j < |r| ensures Below(r[i].0, r[j].0) {
        assert r[j] == m[j];
        if i > 0 { assert r[i] == m[i]; }
      }
    } else if Below(e.resource, m[0].0) {
      var r := [(e.resource, [e.op])] + m;
      forall i, j | 0 <= i < j < |r| ensures Below(r[i].0, r[j].0) {
        if i == 0 && j > 1 {
          BelowTransitive(e.resource, m[0].0, m[j - 1].0);
        }
      }
    } else {
      var tail := Push(m[1..], e);
      NamesSortedTail(m);
      PushSorted(m[1..], e);
      BelowTotal(e.resource, m[0].0);
      PushHead(m[1..], e);
      var r := [m[0]] + tail;
      forall i, j | 0 <= i < j < |r| ensures Below(r[i].0, r[j].0) {
        if i == 0 {
          if j > 1 {
            BelowTransitive(m[0].0, tail[0].0, tail[j - 1].0);
          }
        } else {
          assert r[i] == tail[i - 1] && r[j] == tail[j - 1];
        }
      }
    }
  }

  lemma {:induction false} PushFind(m: Groups, e: Entry, k: string)
    requires NamesSorted(m)
    ensures FindGroup(Push(m, e), k) ==
      if k == e.resource then Some(FindGroup(m, k).GetOr([]) + [e.op]) else FindGroup(m, k)
  {
    if m == [] {
    } else if m[0].0 == e.resource {
      assert Push(m, e)[1..] == m[1..];
    } else if Below(e.resource, m[0].0) {
      assert Push(m, e)[1..] == m;
      if k == e.resource {
        NotFoundBelowHead(m, k);
        assert [] + [e.op] == [e.op];
      }
    } else {
      NamesSortedTail(m);
      PushFind(m[1..], e, k);
      assert Push(m, e)[1..] == Push(m[1..], e);
    }
  }

  /** No name below the first one is in a sorted map. */
  lemma {:induction false} NotFoundBelowHead(m: Groups, k: string)
    requires NamesSorted(m) && m != [] && Below(k, m[0].0)
    ensures FindGroup(m, k) == None
  {
    BelowIrreflexive(k);
    if |m| > 1 {
      NamesSortedTail(m);
      BelowTransitive(k, m[0].0, m[1].0);
      NotFoundBelowHead(m[1..], k);
    }
  }

  lemma {:induction false} NamesDistinct(m: Groups, i: nat)
    requires NamesSorted(m) && i < |m|
    ensures FindGroup(m, m[i].0) == Some(m[i].1)
  {
    if i > 0 {
      assert Below(m[0].0, m[i].0);
      BelowIrreflexive(m[i].0);
      NamesSortedTail(m);
      NamesDistinct(m[1..], i - 1);
      assert m[1..][i - 1] == m[i];
    }
  }

  lemma {:induction false} FindGroupIn(m: Groups, k: string)
    requires FindGroup(m, k).Some?
    ensures exists i :: 0 <= i < |m| && m[i].0 == k && m[i].1 == FindGroup(m, k).value
  {
    if m[0].0 != k {
      FindGroupIn(m[1..], k);
      var i :| 0 <= i < |m| - 1 && m[1..][i].0 == k && m[1..][i].1 == FindGroup(m[1..], k).value;
      assert m[i + 1] == m[1..][i];
    }
  }

  /** The `i`-th resource is the `i`-th map entry with its operations sorted. */
  lemma {:induction false} FinalizeAt(m: Groups, i: nat)
    requires i < |m|
    ensures Finalize(m)[i] == Resource(m[i].0, SortBy(m[i].1, OpName))
  {
    var n := |m| - 1;
    if i < n {
      FinalizeAt(m[..n], i);
      assert m[..n][i] == m[i];
    }
  }

  lemma {:induction false} OpsForMember(es: seq<Entry>, n: nat)
    requires n < |es|
    ensures es[n].op in OpsFor(es, es[n].resource)
  {
    var last := |es| - 1;
    if n < last {
      OpsForMember(es[..last], n);
      assert es[..last][n] == es[n];
    }
  }

  /** The resource map holds under each name the operations of the entries filed under
      it, in entry order, and names with no entry are absent; its names ascend. */
  lemma {:induction false} GroupAllCorrect(es: seq<Entry>)
    ensures NamesSorted(GroupAll(es))
    ensures forall k :: FindGroup(GroupAll(es), k) == if OpsFor(es, k) == [] then None else Some(OpsFor(es, k))
  {
    if es != [] {
      var init := es[..|es| - 1];
      var e := es[|es| - 1];
      GroupAllCorrect(init);
      PushSorted(GroupAll(init), e);
      assert es == init + [e];
      forall k ensures FindGroup(GroupAll(es), k) == if OpsFor(es, k) == [] then None else Some(OpsFor(es, k)) {
        PushFind(GroupAll(init), e, k);
        assert GroupAll(es) == Push(GroupAll(init), e);
        assert FindGroup(GroupAll(init), k) == if OpsFor(init, k) == [] then None else Some(OpsFor(init, k));
        assert FindGroup(GroupAll(init), k).GetOr([]) == OpsFor(init, k);
        if k == e.resource {
          assert OpsFor(es, k) == OpsFor(init, k) + [e.op];
          assert OpsFor(es, k) != [];
        } else {
          assert OpsFor(es, k) == OpsFor(init, k) + [];
          assert OpsFor(es, k) == OpsFor(init, k);
        }
      }
    }
  }

  /** Resource names ascend strictly, so each name appears once. */
  predicate Ascending(rs: seq<Resource>) {
    forall i, j :: 0 <= i < j < |rs| ==> Below(rs[i].name, rs[j].name)
  }

  /** Every resource has at least one operation and holds exactly the operations filed
      under its name, sorted by name with operations of equal name kept in entry order. */
  ghost predicate HoldsOps(rs: seq<Resource>, es: seq<Entry>) {
    forall i :: 0 <= i < |rs| ==>
      rs[i].ops != []
      && multiset(rs[i].ops) == multiset(OpsFor(es, rs[i].name))
      && SortedBy(rs[i].ops, OpName)
      && (forall k :: KeyFilter(rs[i].ops, OpName, k) == KeyFilter(OpsFor(es, rs[i].name), OpName, k))
  }

  /** Some resource is named after the entry and holds its operation. */
  ghost predicate Covered(rs: seq<Resource>, e: Entry) {
    exists i :: 0 <= i < |rs| && rs[i].name == e.resource && e.op in rs[i].ops
  }

  /** The assembled tree: the version and base path of the document; resources in strictly
      ascending name order, each holding exactly its operations, sorted stably by name;
      and every operation found lies in the resource of its first tag. */
  lemma TreeCorrect(doc: Json)
    requires CompileTree(doc).Ok?
    ensures var es := PathsEntries(doc, ObjAt(doc, "paths").value).value;
      var t := CompileTree(doc).value;
      t.version == Version(doc) && t.basePath == BasePath(doc)
      && Ascending(t.resources) && HoldsOps(t.resources, es)
      && forall e :: e in es ==> Covered(t.resources, e)
  {
    var es := PathsEntries(doc, ObjAt(doc, "paths").value).value;
    ResourcesCorrect(es);
  }

  /** The resources of a list of entries, as `TreeCorrect` describes them. */
  lemma ResourcesCorrect(es: seq<Entry>)
    ensures var rs := Finalize(GroupAll(es));
      Ascending(rs) && HoldsOps(rs, es) && forall e :: e in es ==> Covered(rs, e)
  {
    ResourcesAscend(es);
    ResourcesHoldTheirOps(es);
    ResourcesCoverEntries(es);
  }

  lemma ResourcesAscend(es: seq<Entry>)
    ensures var rs := Finalize(GroupAll(es));
      forall i, j :: 0 <= i < j < |rs| ==> Below(rs[i].name, rs[j].name)
  {
    var m := GroupAll(es);
    var rs := Finalize(m);
    GroupAllCorrect(es);
    forall i, j | 0 <= i < j < |rs| ensures Below(rs[i].name, rs[j].name) {
      FinalizeAt(m, i);
      FinalizeAt(m, j);
    }
  }

  lemma ResourcesHoldTheirOps(es: seq<Entry>)
    ensures var rs := Finalize(GroupAll(es));
      forall i :: 0 <= i < |rs| ==>
        rs[i].ops != []
        && multiset(rs[i].ops) == multiset(OpsFor(es, rs[i].name))
        && SortedBy(rs[i].ops, OpName)
        && (forall k :: KeyFilter(rs[i].ops, OpName, k) == KeyFilter(OpsFor(es, rs[i].name), OpName, k))
  {
    var m := GroupAll(es);
    var rs := Finalize(m);
    GroupAllCorrect(es);
    forall i | 0 <= i < |rs|
      ensures rs[i].ops != []
      ensures multiset(rs[i].ops) == multiset(OpsFor(es, rs[i].name))
      ensures SortedBy(rs[i].ops, OpName)
      ensures forall k :: KeyFilter(rs[i].ops, OpName, k) == KeyFilter(OpsFor(es, rs[i].name), OpName, k)
    {
      FinalizeAt(m, i);
      NamesDistinct(m, i);
      SortByCorrect(m[i].1, OpName);
      assert OpsFor(es, m[i].0) == m[i].1;
      assert |multiset(rs[i].ops)| > 0;
    }
  }

  lemma ResourcesCoverEntries(es: seq<Entry>)
    ensures forall e :: e in es ==> Covered(Finalize(GroupAll(es)), e)
  {
    var m := GroupAll(es);
    var rs := Finalize(m);
    GroupAllCorrect(es);
    forall e | e in es
      ensures Covered(rs, e)
    {
      var n :| 0 <= n < |es| && es[n] == e;
      OpsForMember(es, n);
      var ops := OpsFor(es, e.resource);
      assert FindGroup(m, e.resource) == Some(ops);
      FindGroupIn(m, e.resource);
      var i :| 0 <= i < |m| && m[i].0 == e.resource && m[i].1 == ops;
      FinalizeAt(m, i);
      SortByCorrect(ops, OpName);
      assert e.op in multiset(ops);
      assert e.op in multiset(rs[i].ops);
      assert 0 <= i < |rs| && rs[i].name == e.resource && e.op in rs[i].ops;
    }
  }

  // The errors of the assembly

  /** The member for `verb` exists but is not an object. */
  predicate BadOperation(item: Json, verb: string) {
    Get(item, verb).Some? && !Get(item, verb).value.Obj?
  }

  /** The collection fails exactly when some step fails, and then with the error of
      the first step that fails. */
  lemma {:induction false} CollectErrors<X>(step: X -> Result<seq<Entry>, string>, xs: seq<X>)
    ensures Collect(step, xs).Err? <==> exists i :: 0 <= i < |xs| && step(xs[i]).Err?
    ensures Collect(step, xs).Err? ==>
      exists i :: 0 <= i < |xs| && step(xs[i]) == Err(Collect(step, xs).error)
        && forall j :: 0 <= j < i ==> step(xs[j]).Ok?
  {
    if xs != [] {
      var n := |xs| - 1;
      var init := xs[..n];
      CollectErrors(step, init);
      assert forall i :: 0 <= i < n ==> init[i] == xs[i];
      if Collect(step, init).Err? {
        var i :| 0 <= i < n && step(init[i]) == Err(Collect(step, init).error)
          && forall j :: 0 <= j < i ==> step(init[j]).Ok?;
        assert step(xs[i]) == Err(Collect(step, xs).error);
      } else if step(xs[n]).Err? {
        assert forall j :: 0 <= j < n ==> step(xs[j]).Ok?;
      }
    }
  }

  /** A verb fails exactly when its member is there and is not an object. */
  lemma VerbEntriesErr(doc: Json, path: string, item: Json, verb: string)
    ensures VerbEntries(doc, path, item, verb).Err? <==> BadOperation(item, verb)
    ensures VerbEntries(doc, path, item, verb).Err? ==> VerbEntries(doc, path, item, verb).error == OperationNotObject
  {
  }

  lemma ItemEntriesErrors(doc: Json, path: string, item: Json)
    ensures ItemEntries(doc, path, item).Err? <==> exists v :: v in Methods && BadOperation(item, v)
    ensures ItemEntries(doc, path, item).Err? ==> ItemEntries(doc, path, item).error == OperationNotObject
  {
    var step := VerbStep(doc, path, item);
    CollectErrors(step, Methods);
    forall i | 0 <= i < |Methods|
      ensures step(Methods[i]).Err? <==> BadOperation(item, Methods[i])
      ensures step(Methods[i]).Err? ==> step(Methods[i]).error == OperationNotObject
    {
      VerbEntriesErr(doc, path, item, Methods[i]);
    }
  }

  lemma PathsEntriesErrors(doc: Json, paths: seq<(string, Json)>)
    ensures PathsEntries(doc, paths).Err? <==>
      exists i, v :: 0 <= i < |paths| && v in Methods && BadOperation(paths[i].1, v)
    ensures PathsEntries(doc, paths).Err? ==> PathsEntries(doc, paths).error == OperationNotObject
  {
    var step := ItemStep(doc);
    CollectErrors(step, paths);
    forall i | 0 <= i < |paths|
      ensures step(paths[i]).Err? <==> exists v :: v in Methods && BadOperation(paths[i].1, v)
      ensures step(paths[i]).Err? ==> step(paths[i]).error == OperationNotObject
    {
      ItemEntriesErrors(doc, paths[i].0, paths[i].1);
    }
  }

  /** The assembly fails exactly when there is no `paths` object, or when some path item
      has a member for one of the five verbs that is not an object; the message says which. */
  lemma TreeErrors(doc: Json)
    ensures ObjAt(doc, "paths").None? ==> CompileTree(doc) == Err(PathsMissing)
    ensures ObjAt(doc, "paths").Some? ==>
      (CompileTree(doc).Err? <==>
        exists i, v :: 0 <= i < |ObjAt(doc, "paths").value| && v in Methods && BadOperation(ObjAt(doc, "paths").value[i].1, v))
    ensures ObjAt(doc, "paths").Some? && CompileTree(doc).Err? ==> CompileTree(doc).error == OperationNotObject
  {
    if ObjAt(doc, "paths").Some? {
      PathsEntriesErrors(doc, ObjAt(doc, "paths").value);
    }
  }

  // The shape of the entries

  const HttpVerbs: seq<string> := ["GET", "POST", "PUT", "PATCH", "DELETE"]

  lemma UpperVerbs()
    ensures forall j :: 0 <= j < |Methods| ==> AsciiUpperStr(Methods[j]) == HttpVerbs[j]
  {
    assert AsciiUpperStr("get") == "GET";
    assert AsciiUpperStr("post") == "POST";
    assert AsciiUpperStr("put") == "PUT";
    assert AsciiUpperStr("patch") == "PATCH";
    assert AsciiUpperStr("delete") == "DELETE";
  }

  /** Every entry of a path item: its resource and operation names are kebab tokens, its
      method is one of the five upper-case verbs, and its path is the item's path. */
  predicate EntryShaped(e: Entry, path: string) {
    IsToken(e.resource) && IsToken(e.op.name) && e.op.httpMethod in HttpVerbs && e.op.path == path
  }

  /** The names, method and path of the entry of an operation object. */
  lemma OpEntryFields(doc: Json, path: string, item: Json, pathParams: seq<Json>, verb: string)
    requires OpEntry(doc, path, item, pathParams, verb).Ok? && OpEntry(doc, path, item, pathParams, verb).value.Some?
    ensures var e := OpEntry(doc, path, item, pathParams, verb).value.value; var op := Get(item, verb).value;
      e.resource == Kebab(FirstTag(op).GetOr(DefaultTag)) && e.op.name == Kebab(OperationId(op))
      && e.op.httpMethod == AsciiUpperStr(verb) && e.op.path == path
  {
  }

  lemma OpEntryShaped(doc: Json, path: string, item: Json, pathParams: seq<Json>, verb: string)
    requires verb in Methods
    requires OpEntry(doc, path, item, pathParams, verb).Ok? && OpEntry(doc, path, item, pathParams, verb).value.Some?
    ensures EntryShaped(OpEntry(doc, path, item, pathParams, verb).value.value, path)
  {
    var op := Get(item, verb).value;
    OpEntryFields(doc, path, item, pathParams, verb);
    KebabIsToken(FirstTag(op).GetOr(DefaultTag));
    KebabIsToken(OperationId(op));
    UpperVerbs();
    var j :| 0 <= j < |Methods| && Methods[j] == verb;
    assert AsciiUpperStr(verb) == HttpVerbs[j];
  }

  /** Every collected entry comes from one of the steps. */
  lemma {:induction false} CollectFrom<X>(step: X -> Result<seq<Entry>, string>, xs: seq<X>)
    requires Collect(step, xs).Ok?
    ensures forall e :: e in Collect(step, xs).value ==>
      exists i :: 0 <= i < |xs| && step(xs[i]).Ok? && e in step(xs[i]).value
  {
    if xs != [] {
      var n := |xs| - 1;
      var init := xs[..n];
      CollectFrom(step, init);
      forall e | e in Collect(step, xs).value
        ensures exists i :: 0 <= i < |xs| && step(xs[i]).Ok? && e in step(xs[i]).value
      {
        if e in Collect(step, init).value {
          var i :| 0 <= i < n && step(init[i]).Ok? && e in step(init[i]).value;
          assert init[i] == xs[i];
        }
      }
    }
  }

  lemma ItemEntriesShaped(doc: Json, path: string, item: Json)
    requires ItemEntries(doc, path, item).Ok?
    ensures forall e :: e in ItemEntries(doc, path, item).value ==> EntryShaped(e, path)
  {
    var step := VerbStep(doc, path, item);
    CollectFrom(step, Methods);
    forall i | 0 <= i < |Methods| && step(Methods[i]).Ok?
      ensures forall e :: e in step(Methods[i]).value ==> EntryShaped(e, path)
    {
      var params := ArrAt(item, "parameters").GetOr([]);
      if OpEntry(doc, path, item, params, Methods[i]).value.Some? {
        OpEntryShaped(doc, path, item, params, Methods[i]);
      }
    }
  }

  /** Every operation found has a kebab-case resource and name, an upper-case verb, and
      the path of the item it came from. */
  lemma EntriesWellFormed(doc: Json, paths: seq<(string, Json)>)
    requires PathsEntries(doc, paths).Ok?
    ensures forall e :: e in PathsEntries(doc, paths).value ==>
      EntryShaped(e, e.op.path) && exists i :: 0 <= i < |paths| && paths[i].0 == e.op.path
  {
    var step := ItemStep(doc);
    CollectFrom(step, paths);
    forall i | 0 <= i < |paths| && step(paths[i]).Ok?
      ensures forall e :: e in step(paths[i]).value ==> EntryShaped(e, paths[i].0)
    {
      ItemEntriesShaped(doc, paths[i].0, paths[i].1);
    }
  }
}
