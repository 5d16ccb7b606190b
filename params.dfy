/** `parse_param` and `merge_params` (tools/gen_command_tree.rs): parameter descriptors
    and their merge, keyed by `(location, name)`, into a `BTreeMap`. */
module Params {
  import opened Wrappers
  import opened Ordering
  import opened JsonValue
  import opened CommandTreeDefs
  import opened Naming
  import opened Resolver

  /** `parse_param`: the resolved parameter's name, location (default `query`),
      requiredness (default `false`) and collapsed schema; a parameter without a
      non-empty string name is dropped. */
  function ParseParam(doc: Json, param: Json): (r: Option<ParamDef>)
    ensures var p := Resolve(doc, param);
      (r.None? <==> StrAt(p, "name").GetOr("") == "")
      && (r.Some? ==>
            r.value.name == StrAt(p, "name").value
            && r.value.flag == Kebab(r.value.name) && IsToken(r.value.flag)
            && r.value.location == StrAt(p, "in").GetOr("query")
            && r.value.required == BoolAt(p, "required").GetOr(false)
            && WellShaped(r.value.schema))
  {
    var p := Resolve(doc, param);
    var name := StrAt(p, "name").GetOr("");
    if name == "" then None
    else
      KebabIsToken(name);
      Some(ParamDef(
        name,
        Kebab(name),
        StrAt(p, "in").GetOr("query"),
        BoolAt(p, "required").GetOr(false),
        SchemaDefOf(doc, Get(p, "schema").GetOr(Null))))
  }

  // The map key and its order

  type Key = (string, string)

  function KeyOf(d: ParamDef): Key {
    (d.location, d.name)
  }

  /** Rust's order on `(String, String)`: by location, then by name. */
  predicate KeyBelow(a: Key, b: Key) {
    Below(a.0, b.0) || (a.0 == b.0 && Below(a.1, b.1))
  }

  lemma KeyBelowIrreflexive(a: Key)
    ensures !KeyBelow(a, a)
  {
    BelowIrreflexive(a.0);
    BelowIrreflexive(a.1);
  }

  lemma KeyBelowTransitive(a: Key, b: Key, c: Key)
    requires KeyBelow(a, b) && KeyBelow(b, c)
    ensures KeyBelow(a, c)
  {
    if Below(a.0, b.0) && Below(b.0, c.0) {
      BelowTransitive(a.0, b.0, c.0);
    } else if a.0 == b.0 == c.0 {
      BelowTransitive(a.1, b.1, c.1);
    }
  }

  lemma KeyBelowTotal(a: Key, b: Key)
    ensures a == b || KeyBelow(a, b) || KeyBelow(b, a)
  {
    BelowTotal(a.0, b.0);
    BelowTotal(a.1, b.1);
  }

  /** The entries of a `BTreeMap<(String, String), ParamDef>`, in ascending key order. */
  predicate StrictlySorted(m: seq<ParamDef>) {
    forall i, j :: 0 <= i < j < |m| ==> KeyBelow(KeyOf(m[i]), KeyOf(m[j]))
  }

  /** The entry stored under `k`. */
  function Find(m: seq<ParamDef>, k: Key): Option<ParamDef> {
    if m == [] then None
    else if KeyOf(m[0]) == k then Some(m[0])
    else Find(m[1..], k)
  }

  /** `BTreeMap::insert`: replaces the entry with the same key, or adds one in order. */
  function Insert(m: seq<ParamDef>, d: ParamDef): seq<ParamDef> {
    if m == [] then [d]
    else if KeyOf(m[0]) == KeyOf(d) then [d] + m[1..]
    else if KeyBelow(KeyOf(d), KeyOf(m[0])) then [d] + m
    else [m[0]] + Insert(m[1..], d)
  }

  /** The first element of `Insert(m, d)` is `d` or the first element of `m`. */
  lemma {:induction false} InsertHead(m: seq<ParamDef>, d: ParamDef)
    ensures Insert(m, d) != [] && (Insert(m, d)[0] == d || (m != [] && Insert(m, d)[0] == m[0]))
  {
  }

  lemma {:induction false} InsertSorted(m: seq<ParamDef>, d: ParamDef)
    requires StrictlySorted(m)
    ensures StrictlySorted(Insert(m, d))
  {
    if m == [] {
    } else if KeyOf(m[0]) == KeyOf(d) {
      var r := [d] + m[1..];
      forall i, j | 0 <= i < j < |r| ensures KeyBelow(KeyOf(r[i]), KeyOf(r[j])) {
        assert r[j] == m[j];
        if i > 0 { assert r[i] == m[i]; }
      }
    } else if KeyBelow(KeyOf(d), KeyOf(m[0])) {
      var r := [d] + m;
      forall i, j | 0 <= i < j < |r| ensures KeyBelow(KeyOf(r[i]), KeyOf(r[j])) {
        if i == 0 && j > 1 {
          KeyBelowTransitive(KeyOf(d), KeyOf(m[0]), KeyOf(m[j - 1]));
        }
      }
    } else {
      var tail := Insert(m[1..], d);
      assert StrictlySorted(m[1..]) by {
        forall i, j | 0 <= i < j < |m| - 1 ensures KeyBelow(KeyOf(m[1..][i]), KeyOf(m[1..][j])) {
          assert m[1..][i] == m[i + 1] && m[1..][j] == m[j + 1];
        }
      }
      InsertSorted(m[1..], d);
      KeyBelowTotal(KeyOf(d), KeyOf(m[0]));
      InsertHead(m[1..], d);
      var r := [m[0]] + tail;
      forall i, j | 0 <= i < j < |r| ensures KeyBelow(KeyOf(r[i]), KeyOf(r[j])) {
        if i == 0 {
          if j > 1 {
            KeyBelowTransitive(KeyOf(m[0]), KeyOf(tail[0]), KeyOf(tail[j - 1]));
          }
        } else {
          assert r[i] == tail[i - 1] && r[j] == tail[j - 1];
        }
      }
    }
  }

  /** After the insertion, `k` finds `d` if it is `d`'s key and what it found before otherwise. */
  lemma {:induction false} InsertFind(m: seq<ParamDef>, d: ParamDef, k: Key)
    ensures Find(Insert(m, d), k) == if k == KeyOf(d) then Some(d) else Find(m, k)
  {
    if m == [] {
    } else if KeyOf(m[0]) == KeyOf(d) {
      assert ([d] + m[1..])[1..] == m[1..];
    } else if KeyBelow(KeyOf(d), KeyOf(m[0])) {
      assert ([d] + m)[1..] == m;
    } else {
      InsertFind(m[1..], d, k);
      assert ([m[0]] + Insert(m[1..], d))[1..] == Insert(m[1..], d);
    }
  }

  /** In a strictly sorted map, each entry is what its key finds. */
  lemma {:induction false} FindMember(m: seq<ParamDef>, i: nat)
    requires StrictlySorted(m) && i < |m|
    ensures Find(m, KeyOf(m[i])) == Some(m[i])
  {
    if i > 0 {
      if KeyOf(m[0]) == KeyOf(m[i]) {
        KeyBelowIrreflexive(KeyOf(m[0]));
      }
      assert StrictlySorted(m[1..]) by {
        forall a, b | 0 <= a < b < |m| - 1 ensures KeyBelow(KeyOf(m[1..][a]), KeyOf(m[1..][b])) {
          assert m[1..][a] == m[a + 1] && m[1..][b] == m[b + 1];
        }
      }
      FindMember(m[1..], i - 1);
    }
  }

  // merge_params

  /** The descriptors that `parse` keeps of a parameter list, in order. */
  function DefsBy(parse: Json -> Option<ParamDef>, params: seq<Json>): seq<ParamDef> {
    if params == [] then []
    else
      var last := match parse(params[|params| - 1]) case Some(d) => [d] case None => [];
      DefsBy(parse, params[..|params| - 1]) + last
  }

  /** The descriptors of a parameter list that `parse_param` keeps, in order. */
  function Defs(doc: Json, params: seq<Json>): seq<ParamDef> {
    DefsBy(p => ParseParam(doc, p), params)
  }

  /** The map after inserting `ds` in order. */
  function InsertAll(m: seq<ParamDef>, ds: seq<ParamDef>): seq<ParamDef> {
    if ds == [] then m else Insert(InsertAll(m, ds[..|ds| - 1]), ds[|ds| - 1])
  }

  /** What `merge_params` returns: the path-level descriptors inserted first, the
      operation-level ones after, and the map's values in key order. */
  function MergedParams(doc: Json, pathParams: seq<Json>, opParams: seq<Json>): seq<ParamDef> {
    InsertAll(InsertAll([], Defs(doc, pathParams)), Defs(doc, opParams))
  }

  /** `merge_params`, with its two insertion loops. */
  method MergeParams(doc: Json, pathParams: seq<Json>, opParams: seq<Json>) returns (r: seq<ParamDef>)
    ensures r == MergedParams(doc, pathParams, opParams)
  {
    var entries := InsertParsed([], p => ParseParam(doc, p), pathParams);
    r := InsertParsed(entries, p => ParseParam(doc, p), opParams);
  }

  /** One insertion loop: each parameter that `parse` keeps is inserted, in order. */
  method InsertParsed(m: seq<ParamDef>, parse: Json -> Option<ParamDef>, ps: seq<Json>) returns (entries: seq<ParamDef>)
    ensures entries == InsertAll(m, DefsBy(parse, ps))
  {
    entries := m;
    var i := 0;
    assert ps[..0] == [];
    while i < |ps|
      invariant 0 <= i <= |ps|
      invariant entries == InsertAll(m, DefsBy(parse, ps[..i]))
    {
      InsertStep(m, parse, ps, i);
      var def := parse(ps[i]);
      if def.Some? {
        entries := Insert(entries, def.value);
      }
      i := i + 1;
    }
    assert ps[..i] == ps;
  }

  /** One more parameter: its descriptor, if any, is inserted last. */
  lemma InsertStep(m: seq<ParamDef>, parse: Json -> Option<ParamDef>, ps: seq<Json>, i: nat)
    requires i < |ps|
    ensures InsertAll(m, DefsBy(parse, ps[..i + 1])) ==
      match parse(ps[i])
      case Some(d) => Insert(InsertAll(m, DefsBy(parse, ps[..i])), d)
      case None => InsertAll(m, DefsBy(parse, ps[..i]))
  {
    assert ps[..i + 1][..i] == ps[..i];
    var ds := DefsBy(parse, ps[..i]);
    match parse(ps[i])
    case Some(d) =>
      assert (ds + [d])[..|ds|] == ds;
    case None =>
      assert ds + [] == ds;
  }

  /** The last descriptor in `ds` with key `k`: the one a sequence of inserts leaves. */
  function LastWithKey(ds: seq<ParamDef>, k: Key): Option<ParamDef> {
    if ds == [] then None
    else if KeyOf(ds[|ds| - 1]) == k then Some(ds[|ds| - 1])
    else LastWithKey(ds[..|ds| - 1], k)
  }

  lemma {:induction false} InsertAllProps(m: seq<ParamDef>, ds: seq<ParamDef>)
    requires StrictlySorted(m)
    ensures StrictlySorted(InsertAll(m, ds))
    ensures forall k :: Find(InsertAll(m, ds), k) == if LastWithKey(ds, k).Some? then LastWithKey(ds, k) else Find(m, k)
  {
    if ds != [] {
      var init := ds[..|ds| - 1];
      InsertAllProps(m, init);
      InsertSorted(InsertAll(m, init), ds[|ds| - 1]);
      forall k ensures Find(InsertAll(m, ds), k) == if LastWithKey(ds, k).Some? then LastWithKey(ds, k) else Find(m, k) {
        InsertFind(InsertAll(m, init), ds[|ds| - 1], k);
      }
    }
  }

  /** Every key appears at most once, in ascending order, and the entry under each key
      is the operation-level descriptor with that key when there is one, otherwise the
      path-level one: the later descriptor replaces the earlier one whole. */
  lemma MergeParamsCorrect(doc: Json, pathParams: seq<Json>, opParams: seq<Json>)
    ensures var r := MergedParams(doc, pathParams, opParams);
      StrictlySorted(r)
      && (forall k :: Find(r, k) ==
            if LastWithKey(Defs(doc, opParams), k).Some? then LastWithKey(Defs(doc, opParams), k)
            else LastWithKey(Defs(doc, pathParams), k))
  {
    InsertAllProps([], Defs(doc, pathParams));
    var base := InsertAll([], Defs(doc, pathParams));
    InsertAllProps(base, Defs(doc, opParams));
    forall k ensures Find(base, k) == LastWithKey(Defs(doc, pathParams), k) {
      assert Find([], k) == None;
    }
  }

  /** Every entry of the merge is a descriptor some parameter list produced. */
  lemma MergedEntries(doc: Json, pathParams: seq<Json>, opParams: seq<Json>, i: nat)
    requires i < |MergedParams(doc, pathParams, opParams)|
    ensures var d := MergedParams(doc, pathParams, opParams)[i];
      d in Defs(doc, opParams) || d in Defs(doc, pathParams)
  {
    var r := MergedParams(doc, pathParams, opParams);
    MergeParamsCorrect(doc, pathParams, opParams);
    FindMember(r, i);
    LastWithKeyIn(Defs(doc, opParams), KeyOf(r[i]));
    LastWithKeyIn(Defs(doc, pathParams), KeyOf(r[i]));
  }

  lemma {:induction false} LastWithKeyIn(ds: seq<ParamDef>, k: Key)
    ensures LastWithKey(ds, k).Some? ==> LastWithKey(ds, k).value in ds && KeyOf(LastWithKey(ds, k).value) == k
  {
    if ds != [] && KeyOf(ds[|ds| - 1]) != k {
      LastWithKeyIn(ds[..|ds| - 1], k);
    }
  }
}
