/** Rust's `Ord` on `String` (lexicographic by code point) and the stable sort
    `Vec::sort_by` that the compiler applies to body fields and operations. */
module Ordering {

  /** `a < b` for Rust strings: the first differing character decides, and a proper
      prefix comes first. UTF-8 byte order and code point order agree. */
  predicate Below(a: string, b: string) {
    if a == [] then b != []
    else if b == [] then false
    else if a[0] != b[0] then a[0] < b[0]
    else Below(a[1..], b[1..])
  }

  lemma {:induction false} BelowIrreflexive(a: string)
    ensures !Below(a, a)
  {
    if a != [] { BelowIrreflexive(a[1..]); }
  }

  lemma {:induction false} BelowTransitive(a: string, b: string, c: string)
    requires Below(a, b) && Below(b, c)
    ensures Below(a, c)
  {
    if a != [] && b != [] && c != [] && a[0] == b[0] == c[0] {
      BelowTransitive(a[1..], b[1..], c[1..]);
    }
  }

  lemma {:induction false} BelowTotal(a: string, b: string)
    ensures a == b || Below(a, b) || Below(b, a)
  {
    if a != [] && b != [] && a[0] == b[0] {
      BelowTotal(a[1..], b[1..]);
      if a[1..] == b[1..] {
        assert a == [a[0]] + a[1..] && b == [b[0]] + b[1..];
      }
    }
  }

  lemma BelowAsymmetric(a: string, b: string)
    requires Below(a, b)
    ensures !Below(b, a)
  {
    if Below(b, a) {
      BelowTransitive(a, b, a);
      BelowIrreflexive(a);
    }
  }

  /** Non-decreasing by `key`, in Rust's string order. */
  ghost predicate SortedBy<T>(s: seq<T>, key: T -> string) {
    forall i, j :: 0 <= i < j < |s| ==> !Below(key(s[j]), key(s[i]))
  }

  /** The elements whose key is `k`, in their order in `s`. */
  function KeyFilter<T>(s: seq<T>, key: T -> string, k: string): seq<T> {
    if s == [] then []
    else (if key(s[0]) == k then [s[0]] else []) + KeyFilter(s[1..], key, k)
  }

  /** Insertion after every element whose key is not above `key(x)`: this keeps equal
      keys in arrival order, which is what makes the sort stable. */
  function InsertBy<T>(s: seq<T>, x: T, key: T -> string): seq<T> {
    if s == [] then [x]
    else if Below(key(x), key(s[0])) then [x] + s
    else [s[0]] + InsertBy(s[1..], x, key)
  }

  /** `Vec::sort_by(|a, b| key(a).cmp(&key(b)))`, a stable sort. */
  function SortBy<T>(s: seq<T>, key: T -> string): seq<T> {
    if s == [] then [] else InsertBy(SortBy(s[..|s| - 1], key), s[|s| - 1], key)
  }

  lemma {:induction false} InsertByElements<T>(s: seq<T>, x: T, key: T -> string)
    ensures multiset(InsertBy(s, x, key)) == multiset(s) + multiset{x}
  {
    if s != [] && !Below(key(x), key(s[0])) {
      InsertByElements(s[1..], x, key);
      assert s == [s[0]] + s[1..];
    }
  }

  lemma {:induction false} InsertBySorted<T>(s: seq<T>, x: T, key: T -> string)
    requires SortedBy(s, key)
    ensures SortedBy(InsertBy(s, x, key), key)
  {
    if s == [] {
    } else if Below(key(x), key(s[0])) {
      var r := [x] + s;
      forall i, j | 0 <= i < j < |r| ensures !Below(key(r[j]), key(r[i])) {
        if i == 0 {
          if Below(key(r[j]), key(x)) {
            BelowTransitive(key(r[j]), key(x), key(s[0]));
            if j == 1 { BelowIrreflexive(key(s[0])); }
          }
        }
      }
    } else {
      var tail := InsertBy(s[1..], x, key);
      InsertBySorted(s[1..], x, key);
      InsertByElements(s[1..], x, key);
      var r := [s[0]] + tail;
      forall i, j | 0 <= i < j < |r| ensures !Below(key(r[j]), key(r[i])) {
        if i == 0 {
          assert r[j] in multiset(tail);
          if r[j] != x {
            assert r[j] in multiset(s[1..]);
            var m :| 0 <= m < |s[1..]| && s[1..][m] == r[j];
            assert s[m + 1] == r[j];
          }
        } else {
          assert r[i] == tail[i - 1] && r[j] == tail[j - 1];
        }
      }
    }
  }

  lemma {:induction false} KeyFilterAppend<T>(a: seq<T>, b: seq<T>, key: T -> string, k: string)
    ensures KeyFilter(a + b, key, k) == KeyFilter(a, key, k) + KeyFilter(b, key, k)
  {
    if a == [] {
      assert a + b == b;
    } else {
      var ab := a + b;
      assert ab[0] == a[0] && ab[1..] == a[1..] + b;
      KeyFilterAppend(a[1..], b, key, k);
      var h := if key(a[0]) == k then [a[0]] else [];
      var fa, fb := KeyFilter(a[1..], key, k), KeyFilter(b, key, k);
      assert KeyFilter(ab, key, k) == h + (fa + fb);
      assert h + (fa + fb) == (h + fa) + fb;
    }
  }

  /** No element of a sorted sequence has a key below its first element's. */
  lemma KeyFilterBelowHead<T>(s: seq<T>, key: T -> string, k: string)
    requires SortedBy(s, key) && s != [] && Below(k, key(s[0]))
    ensures KeyFilter(s, key, k) == []
  {
    var i := 0;
    while i < |s|
      invariant 0 <= i <= |s|
      invariant KeyFilter(s, key, k) == KeyFilter(s[i..], key, k)
    {
      if i == 0 { BelowIrreflexive(k); } else { assert !Below(key(s[i]), key(s[0])); }
      assert key(s[i]) != k;
      assert s[i..][1..] == s[i + 1..];
      i := i + 1;
    }
  }

  lemma SortedByTail<T>(s: seq<T>, key: T -> string)
    requires SortedBy(s, key) && s != []
    ensures SortedBy(s[1..], key)
  {
    forall i, j | 0 <= i < j < |s| - 1 ensures !Below(key(s[1..][j]), key(s[1..][i])) {
      assert s[1..][i] == s[i + 1] && s[1..][j] == s[j + 1];
    }
  }

  lemma {:induction false} InsertByKeyFilter<T>(s: seq<T>, x: T, key: T -> string, k: string)
    requires SortedBy(s, key)
    ensures KeyFilter(InsertBy(s, x, key), key, k)
         == KeyFilter(s, key, k) + (if key(x) == k then [x] else [])
  {
    if s == [] {
    } else if Below(key(x), key(s[0])) {
      var r := [x] + s;
      assert r[1..] == s;
      if key(x) == k {
        KeyFilterBelowHead(s, key, k);
        assert KeyFilter(r, key, k) == [x] + KeyFilter(s, key, k);
      } else {
        assert KeyFilter(r, key, k) == KeyFilter(s, key, k);
      }
    } else {
      var tail := InsertBy(s[1..], x, key);
      SortedByTail(s, key);
      InsertByKeyFilter(s[1..], x, key, k);
      var r := [s[0]] + tail;
      assert r[1..] == tail;
      assert KeyFilter(r, key, k) == (if key(s[0]) == k then [s[0]] else []) + KeyFilter(tail, key, k);
    }
  }

  /** The sort's contract: ordered by key, a permutation of its input, and stable
      (the elements sharing any one key keep their relative order). */
  lemma {:induction false} SortByCorrect<T>(s: seq<T>, key: T -> string)
    ensures SortedBy(SortBy(s, key), key)
    ensures multiset(SortBy(s, key)) == multiset(s)
    ensures forall k :: KeyFilter(SortBy(s, key), key, k) == KeyFilter(s, key, k)
  {
    if s != [] {
      var init, last := s[..|s| - 1], s[|s| - 1];
      SortByCorrect(init, key);
      InsertBySorted(SortBy(init, key), last, key);
      InsertByElements(SortBy(init, key), last, key);
      assert s == init + [last];
      forall k ensures KeyFilter(SortBy(s, key), key, k) == KeyFilter(s, key, k) {
        InsertByKeyFilter(SortBy(init, key), last, key, k);
        KeyFilterAppend(init, [last], key, k);
      }
    }
  }

  /** The sort keeps the length and the set of elements. */
  lemma SortByMembers<T>(s: seq<T>, key: T -> string)
    ensures |SortBy(s, key)| == |s|
    ensures forall x :: x in SortBy(s, key) <==> x in s
  {
    SortByCorrect(s, key);
    var r := SortBy(s, key);
    assert |multiset(r)| == |multiset(s)|;
    forall x ensures x in r <==> x in s {
      assert x in r <==> x in multiset(r);
      assert x in s <==> x in multiset(s);
    }
  }
}
