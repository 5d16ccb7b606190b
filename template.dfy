/** Operation paths such as `/workflows/{id}` and the `str::replace` that fills their
    placeholders. */
module PathTemplate {

  /** A path read as literal characters and `{name}` placeholders. */
  datatype Piece = Lit(c: char) | Hole(name: string)

  predicate BraceFree(s: string) {
    '{' !in s && '}' !in s
  }

  /** Literal characters are not braces and placeholder names hold none. */
  predicate PiecesOk(ps: seq<Piece>) {
    forall i :: 0 <= i < |ps| ==>
      match ps[i]
      case Lit(c) => c != '{' && c != '}'
      case Hole(n) => BraceFree(n)
  }

  function Placeholder(name: string): string {
    "{" + name + "}"
  }

  function Text(p: Piece): string {
    match p
    case Lit(c) => [c]
    case Hole(n) => Placeholder(n)
  }

  function Render(ps: seq<Piece>): string {
    if ps == [] then "" else Text(ps[0]) + Render(ps[1..])
  }

  /** The placeholder names of a path. */
  function Holes(ps: seq<Piece>): set<string> {
    set i | 0 <= i < |ps| && ps[i].Hole? :: ps[i].name
  }

  function Lits(s: string): (ps: seq<Piece>)
    ensures |ps| == |s| && forall i :: 0 <= i < |s| ==> ps[i] == Lit(s[i])
  {
    if s == [] then [] else [Lit(s[0])] + Lits(s[1..])
  }

  /** The pieces with every `{name}` replaced by the characters of `rep`. */
  function Fill(ps: seq<Piece>, name: string, rep: string): seq<Piece> {
    if ps == [] then []
    else (if ps[0] == Hole(name) then Lits(rep) else [ps[0]]) + Fill(ps[1..], name, rep)
  }

  /** `str::replace(pat, rep)`: every non-overlapping occurrence, left to right. */
  function ReplaceAll(s: string, pat: string, rep: string): string
    requires pat != []
  {
    if |s| < |pat| then s
    else if s[..|pat|] == pat then rep + ReplaceAll(s[|pat|..], pat, rep)
    else [s[0]] + ReplaceAll(s[1..], pat, rep)
  }

  /** A character that cannot start the pattern is copied through. */
  lemma ReplaceAllCons(c: char, x: string, pat: string, rep: string)
    requires pat != [] && c != pat[0]
    ensures ReplaceAll([c] + x, pat, rep) == [c] + ReplaceAll(x, pat, rep)
  {
    var s := [c] + x;
    assert s[1..] == x;
    if |s| >= |pat| {
      assert s[..|pat|][0] != pat[0];
    }
  }

  lemma {:induction false} ReplaceAllPrefix(p: string, x: string, pat: string, rep: string)
    requires pat != [] && pat[0] !in p
    ensures ReplaceAll(p + x, pat, rep) == p + ReplaceAll(x, pat, rep)
  {
    if p == [] {
      assert p + x == x;
    } else {
      ReplaceAllPrefix(p[1..], x, pat, rep);
      ReplaceAllCons(p[0], p[1..] + x, pat, rep);
      assert p + x == [p[0]] + (p[1..] + x);
    }
  }

  lemma {:induction false} RenderLits(s: string)
    ensures Render(Lits(s)) == s
    ensures Holes(Lits(s)) == {}
    ensures BraceFree(s) ==> PiecesOk(Lits(s))
  {
    if s != [] {
      RenderLits(s[1..]);
      assert Lits(s)[1..] == Lits(s[1..]);
      assert [s[0]] + s[1..] == s;
    }
  }

  /** A placeholder other than `{name}` does not match the pattern `{name}`. */
  lemma OtherPlaceholder(m: string, n: string, x: string)
    requires BraceFree(m) && BraceFree(n) && m != n
    ensures var s := Placeholder(m) + x; var pat := Placeholder(n);
      |s| < |pat| || s[..|pat|] != pat
  {
    var s := Placeholder(m) + x;
    var pat := Placeholder(n);
    if |s| >= |pat| {
      if |n| < |m| {
        assert s[..|pat|][|n| + 1] == m[|n|] != '}' == pat[|n| + 1];
      } else if |n| > |m| {
        assert s[..|pat|][|m| + 1] == '}' != n[|m|] == pat[|m| + 1];
      } else {
        var j :| 0 <= j < |m| && m[j] != n[j];
        assert s[..|pat|][j + 1] == m[j] != n[j] == pat[j + 1];
      }
    }
  }

  lemma {:induction false} RenderAppend(a: seq<Piece>, b: seq<Piece>)
    ensures Render(a + b) == Render(a) + Render(b)
  {
    if a == [] {
      assert a + b == b;
    } else {
      var ab := a + b;
      assert ab[0] == a[0] && ab[1..] == a[1..] + b;
      RenderAppend(a[1..], b);
      var t, ra, rb := Text(a[0]), Render(a[1..]), Render(b);
      assert Render(ab) == t + (ra + rb);
      assert t + (ra + rb) == (t + ra) + rb;
    }
  }

  lemma PiecesOkTail(ps: seq<Piece>)
    requires PiecesOk(ps) && ps != []
    ensures PiecesOk(ps[1..])
  {
    forall i | 0 <= i < |ps| - 1 ensures ps[1..][i] == ps[i + 1] {}
  }

  lemma {:induction false} FillPiecesOk(ps: seq<Piece>, name: string, rep: string)
    requires PiecesOk(ps) && BraceFree(rep)
    ensures PiecesOk(Fill(ps, name, rep))
  {
    if ps != [] {
      PiecesOkTail(ps);
      FillPiecesOk(ps[1..], name, rep);
      RenderLits(rep);
      var head := if ps[0] == Hole(name) then Lits(rep) else [ps[0]];
      PiecesOkAppend(head, Fill(ps[1..], name, rep));
    }
  }

  lemma {:induction false} FillHoles(ps: seq<Piece>, name: string, rep: string)
    ensures Holes(Fill(ps, name, rep)) == Holes(ps) - {name}
  {
    if ps != [] {
      FillHoles(ps[1..], name, rep);
      RenderLits(rep);
      var head := if ps[0] == Hole(name) then Lits(rep) else [ps[0]];
      HolesAppend(head, Fill(ps[1..], name, rep));
      HolesCons(ps[0], ps[1..]);
      HolesCons(ps[0], []);
      assert [ps[0]] + [] == [ps[0]];
      assert ps == [ps[0]] + ps[1..];
    }
  }

  /** One piece of the path: its text is replaced, or copied, and the rest follows. */
  lemma ReplaceStep(p: Piece, x: string, name: string, rep: string)
    requires PiecesOk([p]) && BraceFree(name) && BraceFree(rep)
    ensures var head := if p == Hole(name) then Lits(rep) else [p];
      ReplaceAll(Text(p) + x, Placeholder(name), rep) == Render(head) + ReplaceAll(x, Placeholder(name), rep)
  {
    assert [p][0] == p;
    if p.Lit? {
      ReplaceAllCons(p.c, x, Placeholder(name), rep);
      assert Render([p]) == [p.c] by { assert [p][1..] == []; }
    } else if p.name == name {
      ReplaceSameHole(x, name, rep);
    } else {
      ReplaceOtherHole(p.name, x, name, rep);
      assert Render([p]) == Placeholder(p.name) by { assert [p][1..] == []; }
    }
  }

  /** The placeholder being filled gives way to the value, as literal pieces. */
  lemma ReplaceSameHole(x: string, name: string, rep: string)
    ensures ReplaceAll(Placeholder(name) + x, Placeholder(name), rep) == Render(Lits(rep)) + ReplaceAll(x, Placeholder(name), rep)
  {
    RenderLits(rep);
    var pat := Placeholder(name);
    var s := pat + x;
    assert s[..|pat|] == pat && s[|pat|..] == x;
  }

  /** Another well-formed placeholder is copied through. */
  lemma ReplaceOtherHole(m: string, x: string, name: string, rep: string)
    requires m != name && BraceFree(m) && BraceFree(name)
    ensures ReplaceAll(Placeholder(m) + x, Placeholder(name), rep) == Placeholder(m) + ReplaceAll(x, Placeholder(name), rep)
  {
    var pat := Placeholder(name);
    OtherPlaceholder(m, name, x);
    var rest := (m + "}") + x;
    var s := Placeholder(m) + x;
    assert s == ['{'] + rest;
    if |s| < |pat| {
      assert ReplaceAll(x, pat, rep) == x;
    } else {
      assert s[1..] == rest;
      assert ReplaceAll(s, pat, rep) == ['{'] + ReplaceAll(rest, pat, rep);
      ReplaceAllPrefix(m + "}", x, pat, rep);
      assert ['{'] + ((m + "}") + ReplaceAll(x, pat, rep)) == Placeholder(m) + ReplaceAll(x, pat, rep);
    }
  }

  /** Replacing the text `{name}` in a rendered path is filling the placeholder `name`:
      the result is again a well-formed path, and its placeholders are the old ones
      without `name`. This needs `rep` to be brace-free, which every percent-encoded
      value is. */
  lemma {:induction false} ReplaceFills(ps: seq<Piece>, name: string, rep: string)
    requires PiecesOk(ps) && BraceFree(name) && BraceFree(rep)
    ensures ReplaceAll(Render(ps), Placeholder(name), rep) == Render(Fill(ps, name, rep))
    ensures PiecesOk(Fill(ps, name, rep))
    ensures Holes(Fill(ps, name, rep)) == Holes(ps) - {name}
  {
    FillPiecesOk(ps, name, rep);
    FillHoles(ps, name, rep);
    if ps != [] {
      var rest := ps[1..];
      PiecesOkTail(ps);
      ReplaceFills(rest, name, rep);
      var head := if ps[0] == Hole(name) then Lits(rep) else [ps[0]];
      assert Fill(ps, name, rep) == head + Fill(rest, name, rep);
      RenderAppend(head, Fill(rest, name, rep));
      assert PiecesOk([ps[0]]) by { assert [ps[0]][0] == ps[0]; }
      ReplaceStep(ps[0], Render(rest), name, rep);
    }
  }

  lemma PiecesOkAppend(a: seq<Piece>, b: seq<Piece>)
    requires PiecesOk(a) && PiecesOk(b)
    ensures PiecesOk(a + b)
  {
    forall i | 0 <= i < |a + b| ensures (a + b)[i] == (if i < |a| then a[i] else b[i - |a|]) {}
  }

  lemma HolesAppend(a: seq<Piece>, b: seq<Piece>)
    ensures Holes(a + b) == Holes(a) + Holes(b)
  {
    forall n | n in Holes(a + b) ensures n in Holes(a) + Holes(b) {
      var i :| 0 <= i < |a + b| && (a + b)[i].Hole? && (a + b)[i].name == n;
      if i >= |a| { assert b[i - |a|] == (a + b)[i]; }
    }
    forall n | n in Holes(a) ensures n in Holes(a + b) {
      var i :| 0 <= i < |a| && a[i].Hole? && a[i].name == n;
      assert (a + b)[i] == a[i];
    }
    forall n | n in Holes(b) ensures n in Holes(a + b) {
      var i :| 0 <= i < |b| && b[i].Hole? && b[i].name == n;
      assert (a + b)[i + |a|] == b[i];
    }
  }

  lemma HolesCons(p: Piece, ps: seq<Piece>)
    ensures Holes([p] + ps) == (if p.Hole? then {p.name} else {}) + Holes(ps)
  {
    HolesAppend([p], ps);
    assert Holes([p]) == if p.Hole? then {p.name} else {} by {
      if p.Hole? { assert [p][0] == p; }
    }
  }

  /** Without the well-formedness premise the replacement can leave a placeholder behind:
      in `/x/{{id}}` the text `{id}` is replaced by `id`, and `{id}` is what remains. */
  lemma NestedBracesLeaveAPlaceholder()
    ensures ReplaceAll("/x/{{id}}", Placeholder("id"), "id") == "/x/{id}"
  {
    var pat := Placeholder("id");
    assert pat == "{id}";
    ReplaceAllPrefix("/x/", "{{id}}", pat, "id");
    var t := "{{id}}";
    assert t[..4][1] != pat[1];
    assert t[1..][..4] == pat && t[1..][4..] == "}";
    assert "/x/{{id}}" == "/x/" + t;
    assert "/x/" + ([t[0]] + ("id" + "}")) == "/x/{id}";
  }

  /** A well-formed path without placeholders renders without braces. */
  lemma {:induction false} RenderNoHoles(ps: seq<Piece>)
    requires PiecesOk(ps) && Holes(ps) == {}
    ensures BraceFree(Render(ps))
  {
    if ps != [] {
      PiecesOkTail(ps);
      HolesCons(ps[0], ps[1..]);
      assert ps == [ps[0]] + ps[1..];
      RenderNoHoles(ps[1..]);
      assert ps[0].Lit?;
    }
  }
}
