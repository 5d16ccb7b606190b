/** `to_kebab` (tools/gen_command_tree.rs): identifiers of the API document become
    command and flag tokens. */
module Naming {
  import opened Text

  /** The two variables the source's character loop updates. */
  datatype KebabState = KebabState(out: string, prevLower: bool)

  predicate IsSeparator(ch: char) { ch == '_' || ch == ' ' }

  /** One turn of the loop: a separator adds one `-` unless `out` already ends with one;
      an upper-case ASCII letter is lowered, preceded by `-` after a lower-case letter or
      digit; anything else is copied. */
  function Step(st: KebabState, ch: char): KebabState {
    if IsSeparator(ch) then
      KebabState(if st.out != [] && st.out[|st.out| - 1] == '-' then st.out else st.out + "-", false)
    else if IsAsciiUpper(ch) then
      KebabState((if st.prevLower then st.out + "-" else st.out) + [AsciiLower(ch)], false)
    else
      KebabState(st.out + [ch], IsAsciiLower(ch) || IsAsciiDigit(ch))
  }

  /** The state after the loop has consumed all of `s`. */
  function Scan(s: string): KebabState {
    if s == [] then KebabState("", false) else Step(Scan(s[..|s| - 1]), s[|s| - 1])
  }

  /** The specification of `to_kebab`: the scanned text with leading and trailing `-` trimmed. */
  function Kebab(s: string): string {
    TrimChar(Scan(s).out, '-')
  }

  /** `to_kebab`, with its loop over the characters of `value`. */
  method ToKebab(value: string) returns (r: string)
    ensures r == Kebab(value)
  {
    var out := "";
    var prevLower := false;
    var i := 0;
    while i < |value|
      invariant 0 <= i <= |value|
      invariant KebabState(out, prevLower) == Scan(value[..i])
    {
      var ch := value[i];
      assert value[..i + 1][..i] == value[..i];
      if ch == '_' || ch == ' ' {
        if !(out != [] && out[|out| - 1] == '-') {
          out := out + "-";
        }
        prevLower := false;
      } else if IsAsciiUpper(ch) {
        if prevLower {
          out := out + "-";
        }
        out := out + [AsciiLower(ch)];
        prevLower := false;
      } else {
        out := out + [ch];
        prevLower := IsAsciiLower(ch) || IsAsciiDigit(ch);
      }
      i := i + 1;
    }
    assert value[..i] == value;
    r := TrimChar(out, '-');
  }

  /** No upper-case ASCII letter, no `_` or space. */
  predicate TokenChars(t: string) {
    forall i :: 0 <= i < |t| ==> !IsAsciiUpper(t[i]) && !IsSeparator(t[i])
  }

  /** A flag token: no upper-case ASCII letter, no `_` or space, no `-` at either end. */
  predicate IsToken(t: string) {
    TokenChars(t) && (t == [] || (t[0] != '-' && t[|t| - 1] != '-'))
  }

  predicate NoDoubleHyphen(t: string) {
    forall i :: 0 <= i < |t| - 1 ==> !(t[i] == '-' && t[i + 1] == '-')
  }

  /** The loop writes no upper-case ASCII letter and no separator into `out`. */
  lemma {:induction false} ScanChars(s: string)
    ensures TokenChars(Scan(s).out)
  {
    if s != [] {
      ScanChars(s[..|s| - 1]);
    }
  }

  /** `prevLower` is set only right after a lower-case letter or a digit was written. */
  lemma {:induction false} ScanPrevLower(s: string)
    ensures var st := Scan(s);
      st.prevLower ==> st.out != [] && (IsAsciiLower(st.out[|st.out| - 1]) || IsAsciiDigit(st.out[|st.out| - 1]))
  {
    if s != [] {
      ScanPrevLower(s[..|s| - 1]);
    }
  }

  /** Without a `-` in the input, the loop never writes two hyphens in a row. */
  lemma {:induction false} ScanNoDoubleHyphen(s: string)
    requires '-' !in s
    ensures NoDoubleHyphen(Scan(s).out)
  {
    if s != [] {
      var init := s[..|s| - 1];
      assert forall k :: 0 <= k < |init| ==> init[k] == s[k];
      ScanNoDoubleHyphen(init);
      ScanPrevLower(init);
    }
  }

  /** Trimming keeps a contiguous slice. */
  lemma TrimCharSlice(s: string, c: char) returns (a: nat, b: nat)
    ensures a <= b <= |s| && TrimChar(s, c) == s[a..b]
  {
    var t := TrimStartChar(s, c);
    a := |s| - |t|;
    var r := TrimEndChar(t, c);
    b := a + |r|;
    assert r == t[..|r|] && t == s[a..];
  }

  lemma TokenCharsSlice(t: string, a: nat, b: nat)
    requires a <= b <= |t| && TokenChars(t)
    ensures TokenChars(t[a..b])
  {
    forall i | 0 <= i < b - a ensures !IsAsciiUpper(t[a..b][i]) && !IsSeparator(t[a..b][i]) {
      assert t[a..b][i] == t[a + i];
    }
  }

  /** Every output of `to_kebab` is a flag token. */
  lemma KebabIsToken(s: string)
    ensures IsToken(Kebab(s))
  {
    var out := Scan(s).out;
    ScanChars(s);
    var a, b := TrimCharSlice(out, '-');
    TokenCharsSlice(out, a, b);
  }

  lemma NoDoubleHyphenSlice(t: string, a: nat, b: nat)
    requires a <= b <= |t| && NoDoubleHyphen(t)
    ensures NoDoubleHyphen(t[a..b])
  {
    forall i | 0 <= i < b - a - 1 ensures !(t[a..b][i] == '-' && t[a..b][i + 1] == '-') {
      assert t[a..b][i] == t[a + i] && t[a..b][i + 1] == t[a + i + 1];
    }
  }

  /** A separator never produces `--`: the only way to get two adjacent hyphens is a `-`
      already present in the identifier. */
  lemma KebabNoDoubleHyphen(s: string)
    requires '-' !in s
    ensures NoDoubleHyphen(Kebab(s))
  {
    var out := Scan(s).out;
    ScanNoDoubleHyphen(s);
    var a, b := TrimCharSlice(out, '-');
    NoDoubleHyphenSlice(out, a, b);
  }

  /** Text with nothing for the loop to change goes through unchanged. */
  lemma {:induction false} ScanOfToken(t: string)
    requires forall i :: 0 <= i < |t| ==> !IsAsciiUpper(t[i]) && !IsSeparator(t[i])
    ensures Scan(t).out == t
  {
    if t != [] {
      ScanOfToken(t[..|t| - 1]);
      assert t[..|t| - 1] + [t[|t| - 1]] == t;
    }
  }

  /** Normalisation is idempotent: a token is its own normal form. */
  lemma KebabIdempotent(s: string)
    ensures Kebab(Kebab(s)) == Kebab(s)
  {
    var t := Kebab(s);
    KebabIsToken(s);
    ScanOfToken(t);
  }

  /** Hyphens inserted at camel-case boundaries: before an upper-case ASCII letter whose
      predecessor is a lower-case ASCII letter or a digit, and nowhere else. Stated by
      position, without the loop's state. */
  predicate IsBoundary(prev: char, ch: char) {
    IsAsciiUpper(ch) && (IsAsciiLower(prev) || IsAsciiDigit(prev))
  }

  function Hyphenate(s: string): string {
    if s == [] then ""
    else
      var n := |s|;
      Hyphenate(s[..n - 1]) + (if n > 1 && IsBoundary(s[n - 2], s[n - 1]) then "-" else "") + [AsciiLower(s[n - 1])]
  }

  lemma {:induction false} ScanIsHyphenate(s: string)
    requires forall i :: 0 <= i < |s| ==> !IsSeparator(s[i])
    ensures Scan(s).out == Hyphenate(s)
    ensures Scan(s).prevLower <==> s != [] && (IsAsciiLower(s[|s| - 1]) || IsAsciiDigit(s[|s| - 1]))
  {
    if s != [] {
      var init := s[..|s| - 1];
      ScanIsHyphenate(init);
      if |s| > 1 { assert init[|init| - 1] == s[|s| - 2]; }
    }
  }

  /** For an identifier without `-`, `_` or space, `to_kebab` is exactly the camel-case split. */
  lemma KebabIsCamelSplit(s: string)
    requires forall i :: 0 <= i < |s| ==> s[i] != '-' && !IsSeparator(s[i])
    ensures Kebab(s) == Hyphenate(s)
  {
    ScanIsHyphenate(s);
    var h := Hyphenate(s);
    assert h == [] || (h[0] != '-' && h[|h| - 1] != '-') by {
      if s != [] {
        HyphenateEnds(s);
      }
    }
    TrimCharNone(h, '-');
  }

  /** The camel-case split starts and ends with the lowered first and last characters. */
  lemma {:induction false} HyphenateEnds(s: string)
    requires s != []
    ensures var h := Hyphenate(s);
      h != [] && h[0] == AsciiLower(s[0]) && h[|h| - 1] == AsciiLower(s[|s| - 1])
  {
    if |s| > 1 {
      HyphenateEnds(s[..|s| - 1]);
    }
  }

  // Separators

  /** The words of an identifier: its maximal runs of characters other than `_` and
      space, in order. */
  function Words(s: string): seq<string> {
    if s == [] then []
    else
      var n := |s|;
      var ws := Words(s[..n - 1]);
      if IsSeparator(s[n - 1]) then ws
      else if n > 1 && !IsSeparator(s[n - 2]) then ws[..|ws| - 1] + [ws[|ws| - 1] + [s[n - 1]]]
      else ws + [[s[n - 1]]]
  }

  /** A word as `Words` yields it for an identifier without `-`. */
  predicate Plain(w: string) {
    w != [] && '-' !in w
  }

  function Last(w: string): char
    requires w != []
  {
    w[|w| - 1]
  }

  /** Each word split at its camel-case boundaries, and the words joined by one `-`. */
  function Dashed(ws: seq<string>): string {
    if ws == [] then ""
    else if |ws| == 1 then Hyphenate(ws[0])
    else Dashed(ws[..|ws| - 1]) + "-" + Hyphenate(ws[|ws| - 1])
  }

  function Lead(s: string): string {
    if s != [] && IsSeparator(s[0]) then "-" else ""
  }

  /** The loop's text by words: one `-` for a leading and one for a trailing run of
      separators, the dashed words in between, and a lone `-` when there is no word. */
  function Framed(s: string): string {
    var ws := Words(s);
    if ws == [] then (if s == [] then "" else "-")
    else Lead(s) + Dashed(ws) + (if IsSeparator(s[|s| - 1]) then "-" else "")
  }

  /** For an identifier without `-`, every word is non-empty and free of `-`. */
  lemma {:induction false} WordsPlain(s: string)
    requires '-' !in s
    ensures forall i :: 0 <= i < |Words(s)| ==> Plain(Words(s)[i])
  {
    if s != [] {
      var init := s[..|s| - 1];
      assert '-' !in init by {
        forall k | 0 <= k < |init| ensures init[k] != '-' { assert init[k] == s[k]; }
      }
      WordsPlain(init);
    }
  }

  /** There is no word exactly when the identifier is all separators. */
  lemma {:induction false} WordsEmpty(s: string)
    ensures Words(s) == [] <==> forall i :: 0 <= i < |s| ==> IsSeparator(s[i])
  {
    if s != [] {
      var init := s[..|s| - 1];
      WordsEmpty(init);
      assert forall i :: 0 <= i < |init| ==> init[i] == s[i];
    }
  }

  /** The last word ends with the identifier's last character when that is no separator. */
  lemma WordsLast(s: string)
    requires s != [] && !IsSeparator(Last(s))
    ensures Words(s) != [] && Words(s)[|Words(s)| - 1] != [] && Last(Words(s)[|Words(s)| - 1]) == Last(s)
  {
    var n := |s|;
    if n > 1 && !IsSeparator(s[n - 2]) {
      WordsLast(s[..n - 1]);
    }
  }

  /** For an identifier without `-`, `to_kebab` splits it into words at every run of `_`
      and spaces, however long, splits each word at its camel-case boundaries, and joins
      the words with exactly one `-`; separators at either end leave no trace. */
  lemma KebabIsWords(s: string)
    requires '-' !in s
    ensures Kebab(s) == Dashed(Words(s))
  {
    ScanWords(s);
    var ws := Words(s);
    if ws == [] {
      assert TrimStartChar(Framed(s), '-') == [];
    } else {
      var d := Dashed(ws);
      WordsPlain(s);
      DashedEnds(ws);
      var trail := if IsSeparator(Last(s)) then "-" else "";
      calc {
        Kebab(s);
        TrimEndChar(TrimStartChar(Framed(s), '-'), '-');
      == { FramedCases(s); SeqAssoc(Lead(s), d, trail); }
        TrimEndChar(TrimStartChar(Lead(s) + (d + trail), '-'), '-');
      == { TrimStartDash(Lead(s), d + trail); }
        TrimEndChar(d + trail, '-');
      == { TrimEndDash(d, trail); }
        d;
      }
    }
  }

  lemma TrimStartDash(lead: string, x: string)
    requires lead == "" || lead == "-"
    requires x != [] && x[0] != '-'
    ensures TrimStartChar(lead + x, '-') == x
  {
    if lead == "-" {
      assert (lead + x)[1..] == x;
    }
  }

  lemma TrimEndDash(x: string, trail: string)
    requires trail == "" || trail == "-"
    requires x != [] && Last(x) != '-'
    ensures TrimEndChar(x + trail, '-') == x
  {
    if trail == "-" {
      assert (x + trail)[..|x|] == x;
    }
  }

  /** Words free of `-` give a dashed text that neither starts nor ends with `-`. */
  lemma {:induction false} DashedEnds(ws: seq<string>)
    requires ws != [] && forall i :: 0 <= i < |ws| ==> Plain(ws[i])
    ensures var d := Dashed(ws); d != [] && d[0] != '-' && Last(d) != '-'
  {
    var w := ws[|ws| - 1];
    HyphenateEnds(w);
    assert w[|w| - 1] in w;
    if |ws| > 1 {
      DashedEnds(ws[..|ws| - 1]);
    } else {
      assert w[0] in w;
    }
  }

  /** The loop's text is the framed words. */
  lemma {:induction false} ScanWords(s: string)
    requires '-' !in s
    ensures Scan(s).out == Framed(s)
  {
    if s != [] {
      var n := |s|;
      var init := s[..n - 1];
      assert '-' !in init by {
        forall k | 0 <= k < |init| ensures init[k] != '-' { assert init[k] == s[k]; }
      }
      ScanWords(init);
      assert init + [s[n - 1]] == s;
      if IsSeparator(s[n - 1]) {
        SeparatorStep(init, s[n - 1]);
      } else if n > 1 && !IsSeparator(s[n - 2]) {
        assert Last(init) == s[n - 2];
        ExtendLastWord(init, s[n - 1]);
      } else {
        assert n > 1 ==> Last(init) == s[n - 2];
        StartWord(init, s[n - 1]);
      }
    }
  }

  /** Framing, spelled out by whether there is a word. */
  lemma FramedCases(s: string)
    ensures Words(s) != [] ==> Framed(s) == Lead(s) + Dashed(Words(s)) + (if IsSeparator(Last(s)) then "-" else "")
    ensures Words(s) == [] ==> Framed(s) == if s == [] then "" else "-"
  {
  }

  // A separator

  lemma ScanSeparator(init: string, c: char)
    requires IsSeparator(c)
    ensures var o := Scan(init).out;
      Scan(init + [c]).out == if o != [] && Last(o) == '-' then o else o + "-"
  {
    assert (init + [c])[..|init|] == init;
  }

  lemma WordsSeparator(init: string, c: char)
    requires IsSeparator(c)
    ensures Words(init + [c]) == Words(init)
  {
    assert (init + [c])[..|init|] == init;
  }

  lemma FramedSeparator(init: string, c: char)
    requires IsSeparator(c)
    ensures var ws := Words(init);
      Framed(init + [c]) == if ws == [] then "-" else Lead(init) + Dashed(ws) + "-"
  {
    WordsSeparator(init, c);
    if init != [] {
      assert (init + [c])[0] == init[0];
    }
  }

  /** A separator adds the trailing `-`, once. */
  lemma SeparatorStep(init: string, c: char)
    requires '-' !in init && IsSeparator(c) && Scan(init).out == Framed(init)
    ensures Scan(init + [c]).out == Framed(init + [c])
  {
    ScanSeparator(init, c);
    FramedSeparator(init, c);
    var ws := Words(init);
    if ws != [] {
      WordsPlain(init);
      DashedEnds(ws);
      var d := Dashed(ws);
      FramedCases(init);
      if IsSeparator(Last(init)) {
        assert Framed(init) == Lead(init) + d + "-";
      } else {
        assert Framed(init) == Lead(init) + d;
        assert Last(Lead(init) + d) == Last(d);
      }
    }
  }

  // A character of a word

  /** What the loop writes for a character `c` other than a separator after `init`: `c`
      lowered, after a `-` at a camel-case boundary. */
  function LetterText(init: string, c: char): string {
    (if init != [] && IsBoundary(Last(init), c) then "-" else "") + [AsciiLower(c)]
  }

  /** `prevLower` holds exactly when the last character was a lower-case letter or a digit. */
  lemma ScanPrevLowerIff(s: string)
    ensures Scan(s).prevLower <==> s != [] && (IsAsciiLower(s[|s| - 1]) || IsAsciiDigit(s[|s| - 1]))
  {
  }

  lemma ScanLetter(init: string, c: char)
    requires !IsSeparator(c)
    ensures Scan(init + [c]).out == Scan(init).out + LetterText(init, c)
  {
    assert (init + [c])[..|init|] == init;
    ScanPrevLowerIff(init);
  }

  lemma HyphenateSnoc(w: string, c: char)
    requires w != []
    ensures Hyphenate(w + [c]) == Hyphenate(w) + LetterText(w, c)
  {
    assert (w + [c])[..|w|] == w;
  }

  lemma DashedSnoc(prev: seq<string>, x: string)
    ensures Dashed(prev + [x]) == (if prev == [] then "" else Dashed(prev) + "-") + Hyphenate(x)
  {
    assert (prev + [x])[..|prev|] == prev;
  }

  lemma DashedNewWord(ws: seq<string>, c: char)
    ensures Dashed(ws + [[c]]) == (if ws == [] then "" else Dashed(ws) + "-") + [AsciiLower(c)]
  {
    DashedSnoc(ws, [c]);
    assert Hyphenate([c]) == [AsciiLower(c)];
  }

  lemma DashedExtend(prev: seq<string>, w: string, init: string, c: char)
    requires init != [] && w != [] && Last(w) == Last(init)
    ensures Dashed(prev + [w + [c]]) == Dashed(prev + [w]) + LetterText(init, c)
  {
    var pre := if prev == [] then "" else Dashed(prev) + "-";
    var x := LetterText(init, c);
    calc {
      Dashed(prev + [w + [c]]);
    == { DashedSnoc(prev, w + [c]); }
      pre + Hyphenate(w + [c]);
    == { HyphenateSnoc(w, c); assert LetterText(w, c) == x; }
      pre + (Hyphenate(w) + x);
    == { SeqAssoc(pre, Hyphenate(w), x); }
      pre + Hyphenate(w) + x;
    == { DashedSnoc(prev, w); }
      Dashed(prev + [w]) + x;
    }
  }

  lemma WordsStart(init: string, c: char)
    requires !IsSeparator(c) && (init == [] || IsSeparator(Last(init)))
    ensures Words(init + [c]) == Words(init) + [[c]]
  {
    assert (init + [c])[..|init|] == init;
  }

  lemma WordsExtend(init: string, c: char)
    requires !IsSeparator(c) && init != [] && !IsSeparator(Last(init))
    ensures var ws := Words(init);
      ws != [] && Words(init + [c]) == ws[..|ws| - 1] + [ws[|ws| - 1] + [c]]
  {
    assert (init + [c])[..|init|] == init;
    WordsLast(init);
  }

  lemma FramedLetter(init: string, c: char)
    requires !IsSeparator(c) && Words(init + [c]) != []
    ensures Framed(init + [c]) == Lead(init) + Dashed(Words(init + [c]))
  {
    var s := init + [c];
    assert s[|s| - 1] == c;
    if init != [] {
      assert s[0] == init[0];
    }
  }

  lemma FramedStart(init: string, c: char)
    requires !IsSeparator(c) && (init == [] || IsSeparator(Last(init)))
    ensures var ws := Words(init);
      Framed(init + [c]) == Lead(init) + ((if ws == [] then "" else Dashed(ws) + "-") + [AsciiLower(c)])
  {
    WordsStart(init, c);
    FramedLetter(init, c);
    DashedNewWord(Words(init), c);
  }

  lemma FramedBeforeWord(init: string, c: char)
    requires init == [] || IsSeparator(Last(init))
    ensures var ws := Words(init);
      Framed(init) + [AsciiLower(c)] == Lead(init) + ((if ws == [] then "" else Dashed(ws) + "-") + [AsciiLower(c)])
  {
    FramedCases(init);
    if Words(init) == [] {
      WordsEmpty(init);
      if init != [] {
        assert IsSeparator(init[0]);
      }
    }
  }

  /** A character after a separator, or first, starts a new word. */
  lemma StartWord(init: string, c: char)
    requires '-' !in init && c != '-' && !IsSeparator(c) && Scan(init).out == Framed(init)
    requires init == [] || IsSeparator(Last(init))
    ensures Scan(init + [c]).out == Framed(init + [c])
  {
    ScanLetter(init, c);
    FramedStart(init, c);
    FramedBeforeWord(init, c);
  }

  lemma FramedAtWord(init: string)
    requires init != [] && !IsSeparator(Last(init))
    ensures Framed(init) == Lead(init) + Dashed(Words(init))
  {
    WordsLast(init);
    FramedCases(init);
  }

  lemma FramedExtendWords(init: string, c: char)
    requires !IsSeparator(c) && init != [] && !IsSeparator(Last(init))
    ensures Framed(init + [c]) == Lead(init) + (Dashed(Words(init)) + LetterText(init, c))
  {
    var ws := Words(init);
    WordsExtend(init, c);
    FramedLetter(init, c);
    WordsLast(init);
    var w := ws[|ws| - 1];
    var prev := ws[..|ws| - 1];
    assert prev + [w] == ws;
    DashedExtend(prev, w, init, c);
  }

  lemma FramedExtend(init: string, c: char)
    requires !IsSeparator(c) && init != [] && !IsSeparator(Last(init))
    ensures Framed(init + [c]) == Framed(init) + LetterText(init, c)
  {
    var lead, d, x := Lead(init), Dashed(Words(init)), LetterText(init, c);
    calc {
      Framed(init + [c]);
    == { FramedExtendWords(init, c); }
      lead + (d + x);
    == { SeqAssoc(lead, d, x); }
      lead + d + x;
    == { FramedAtWord(init); }
      Framed(init) + x;
    }
  }

  lemma SeqAssoc(a: string, b: string, c: string)
    ensures a + (b + c) == a + b + c
  {
  }

  /** A character that continues the last word extends its camel-case split. */
  lemma ExtendLastWord(init: string, c: char)
    requires '-' !in init && c != '-' && !IsSeparator(c) && Scan(init).out == Framed(init)
    requires init != [] && !IsSeparator(Last(init))
    ensures Scan(init + [c]).out == Framed(init + [c])
  {
    ScanLetter(init, c);
    FramedExtend(init, c);
  }
}
