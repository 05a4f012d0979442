/** Ordering operations used by the pages: `sorted(..., key=...)` (stable),
    `sort_values(...)` followed by `head(n)` or `iloc[0]`, and Python's
    ordering of strings by code point. */
module Sorting {
  import opened Results
  import opened Seqs

  ghost predicate SortedBy<T>(s: seq<T>, key: T -> real) {
    forall i, j :: 0 <= i < j < |s| ==> key(s[i]) <= key(s[j])
  }

  /** Puts `x` in front of the first element whose key is not below its own,
      so that `x` stays ahead of the elements with an equal key. */
  function InsertBy<T(!new)>(x: T, s: seq<T>, key: T -> real): (r: seq<T>)
    ensures multiset(r) == multiset(s) + multiset{x}
  {
    if s == [] then [x]
    else if key(x) <= key(s[0]) then [x] + s
    else
      assert s == [s[0]] + s[1..];
      [s[0]] + InsertBy(x, s[1..], key)
  }

  lemma {:induction false} InsertBySorted<T(!new)>(x: T, s: seq<T>, key: T -> real)
    requires SortedBy(s, key)
    ensures SortedBy(InsertBy(x, s, key), key)
  {
    if s != [] && key(x) > key(s[0]) {
      var r' := InsertBy(x, s[1..], key);
      InsertBySorted(x, s[1..], key);
      assert s == [s[0]] + s[1..];
      forall j | 0 <= j < |r'| ensures key(s[0]) <= key(r'[j]) {
        assert r'[j] in multiset(r');
        if r'[j] != x {
          assert r'[j] in multiset(s[1..]);
          var k :| 0 <= k < |s[1..]| && s[1..][k] == r'[j];
          assert s[k + 1] == r'[j];
        }
      }
    }
  }

  /** Stable insertion sort by ascending key. */
  function SortBy<T(!new)>(s: seq<T>, key: T -> real): (r: seq<T>)
    ensures multiset(r) == multiset(s)
    ensures |r| == |s|
    ensures SortedBy(r, key)
  {
    if s == [] then []
    else
      assert s == [s[0]] + s[1..];
      var r' := SortBy(s[1..], key);
      InsertBySorted(s[0], r', key);
      var r := InsertBy(s[0], r', key);
      assert |r| == |multiset(r)|;
      r
  }

  /** The elements of `s` whose key equals `v`, in their order in `s`. */
  function KeyedAs<T>(s: seq<T>, key: T -> real, v: real): seq<T> {
    if s == [] then []
    else (if key(s[0]) == v then [s[0]] else []) + KeyedAs(s[1..], key, v)
  }

  lemma {:induction false} InsertByStable<T(!new)>(x: T, s: seq<T>, key: T -> real, v: real)
    ensures KeyedAs(InsertBy(x, s, key), key, v)
         == (if key(x) == v then [x] else []) + KeyedAs(s, key, v)
  {
    if s == [] {
      assert [x][1..] == [];
    } else if key(x) <= key(s[0]) {
      var r := [x] + s;
      assert InsertBy(x, s, key) == r;
      assert r[0] == x && r[1..] == s;
    } else {
      var r' := InsertBy(x, s[1..], key);
      var r := [s[0]] + r';
      assert InsertBy(x, s, key) == r;
      assert r[0] == s[0] && r[1..] == r';
      InsertByStable(x, s[1..], key, v);
      // `x` and `s[0]` have different keys, so at most one of them is kept.
      assert key(x) == v ==> key(s[0]) != v;
    }
  }

  /** `SortBy` is stable: the elements that share a key keep their input
      order. */
  lemma {:induction false} SortByStable<T(!new)>(s: seq<T>, key: T -> real, v: real)
    ensures KeyedAs(SortBy(s, key), key, v) == KeyedAs(s, key, v)
  {
    if s != [] {
      SortByStable(s[1..], key, v);
      InsertByStable(s[0], SortBy(s[1..], key), key, v);
    }
  }

  /** The first `n` elements after an ascending sort by `key`
      (`sort_values(key).head(n)`): as many rows as asked for or as there
      are, in order, taken from the input, and no row left out has a smaller
      key than a row kept. */
  function SmallestBy<T(!new)>(s: seq<T>, n: nat, key: T -> real): (r: seq<T>)
    ensures |r| == if n < |s| then n else |s|
    ensures SortedBy(r, key)
    ensures multiset(r) <= multiset(s)
    ensures forall i, x :: 0 <= i < |r| && x in multiset(s) - multiset(r) ==> key(r[i]) <= key(x)
  {
    var t := SortBy(s, key);
    var m := if n < |s| then n else |s|;
    SortedPrefix(s, t, m, key);
    t[..m]
  }

  lemma SortedPrefix<T(!new)>(s: seq<T>, t: seq<T>, m: nat, key: T -> real)
    requires SortedBy(t, key) && multiset(t) == multiset(s) && m <= |t|
    ensures SortedBy(t[..m], key)
    ensures multiset(t[..m]) <= multiset(s)
    ensures forall i, x :: 0 <= i < |t[..m]| && x in multiset(s) - multiset(t[..m]) ==> key(t[..m][i]) <= key(x)
  {
    assert t == t[..m] + t[m..];
    assert multiset(t) == multiset(t[..m]) + multiset(t[m..]);
    forall i, x | 0 <= i < m && x in multiset(s) - multiset(t[..m])
      ensures key(t[..m][i]) <= key(x)
    {
      assert x in multiset(t[m..]);
      var j :| 0 <= j < |t[m..]| && t[m..][j] == x;
      assert t[m + j] == x;
    }
  }

  /** An element with the largest key (`sort_values(key, ascending=False)`
      then `iloc[0]`). Which of several tied elements is returned is not
      promised. */
  function MaxBy<T(!new)>(s: seq<T>, key: T -> real): (r: T)
    requires |s| > 0
    ensures r in s
    ensures forall x :: x in s ==> key(x) <= key(r)
  {
    var t := SortBy(s, y => -key(y));
    assert t[0] in multiset(s);
    forall x | x in s ensures key(x) <= key(t[0]) {
      assert x in multiset(t);
      var j :| 0 <= j < |t| && t[j] == x;
      if j > 0 { assert -key(t[0]) <= -key(t[j]); }
    }
    t[0]
  }

  // ---------------------------------------------------------------------
  // Strings, compared as Python does: by code point, a proper prefix first.

  predicate StrLess(a: string, b: string) {
    if a == [] then b != []
    else if b == [] then false
    else if a[0] == b[0] then StrLess(a[1..], b[1..])
    else a[0] < b[0]
  }

  lemma {:induction false} StrLessIrreflexive(a: string)
    ensures !StrLess(a, a)
  {
    if a != [] { StrLessIrreflexive(a[1..]); }
  }

  lemma {:induction false} StrLessTransitive(a: string, b: string, c: string)
    requires StrLess(a, b) && StrLess(b, c)
    ensures StrLess(a, c)
  {
    if a != [] && b != [] && c != [] && a[0] == b[0] && b[0] == c[0] {
      StrLessTransitive(a[1..], b[1..], c[1..]);
    }
  }

  lemma {:induction false} StrLessTotal(a: string, b: string)
    requires a != b
    ensures StrLess(a, b) || StrLess(b, a)
  {
    if a != [] && b != [] && a[0] == b[0] {
      assert a == [a[0]] + a[1..] && b == [b[0]] + b[1..];
      StrLessTotal(a[1..], b[1..]);
    }
  }

  ghost predicate StrSorted(s: seq<string>) {
    forall i, j :: 0 <= i < j < |s| ==> !StrLess(s[j], s[i])
  }

  ghost predicate StrStrictlySorted(s: seq<string>) {
    forall i, j :: 0 <= i < j < |s| ==> StrLess(s[i], s[j])
  }

  function InsertStr(x: string, s: seq<string>): (r: seq<string>)
    ensures multiset(r) == multiset(s) + multiset{x}
    ensures StrSorted(s) ==> StrSorted(r)
  {
    if s == [] then [x]
    else if !StrLess(s[0], x) then
      assert StrSorted(s) ==> StrSorted([x] + s) by {
        if StrSorted(s) { PrependSorted(x, s); }
      }
      [x] + s
    else
      var r' := InsertStr(x, s[1..]);
      assert s == [s[0]] + s[1..];
      assert StrSorted(s) ==> StrSorted([s[0]] + r') by {
        if StrSorted(s) {
          assert StrSorted(s[1..]);
          ConsSorted(x, s, r');
        }
      }
      [s[0]] + r'
  }

  /** `x` goes in front of a sorted list whose head is not below it. */
  lemma PrependSorted(x: string, s: seq<string>)
    requires StrSorted(s) && s != [] && !StrLess(s[0], x)
    ensures StrSorted([x] + s)
  {
    var r := [x] + s;
    forall i, j | 0 <= i < j < |r| ensures !StrLess(r[j], r[i]) {
      if i == 0 && j > 1 && StrLess(r[j], x) {
        assert !StrLess(s[j - 1], s[0]);
        if s[0] != x {
          StrLessTotal(s[0], x);
          StrLessTransitive(r[j], x, s[0]);
        }
      }
    }
  }

  /** The head of a sorted list stays in front when `x`, which is above it,
      is inserted into the rest. */
  lemma ConsSorted(x: string, s: seq<string>, r': seq<string>)
    requires StrSorted(s) && s != [] && StrLess(s[0], x)
    requires StrSorted(r') && multiset(r') == multiset(s[1..]) + multiset{x}
    ensures StrSorted([s[0]] + r')
  {
    var r := [s[0]] + r';
    forall j | 0 < j < |r| ensures !StrLess(r[j], s[0]) {
      assert r[j] == r'[j - 1] && r'[j - 1] in multiset(r');
      if r[j] == x {
        if StrLess(x, s[0]) { StrLessTransitive(x, s[0], x); StrLessIrreflexive(x); }
      } else {
        assert r[j] in multiset(s[1..]);
        var k :| 0 <= k < |s[1..]| && s[1..][k] == r[j];
        assert s[k + 1] == r[j];
      }
    }
    forall i, j | 0 <= i < j < |r| ensures !StrLess(r[j], r[i]) {
      if i > 0 {
        assert r[i] == r'[i - 1] && r[j] == r'[j - 1];
      }
    }
  }

  /** `sorted()` on a list of strings. */
  function SortStrings(s: seq<string>): (r: seq<string>)
    ensures multiset(r) == multiset(s)
    ensures |r| == |s|
    ensures StrSorted(r)
  {
    if s == [] then []
    else
      assert s == [s[0]] + s[1..];
      var r := InsertStr(s[0], SortStrings(s[1..]));
      assert |r| == |multiset(r)|;
      r
  }

  /** A sorted list without duplicates is strictly increasing. */
  lemma SortedNoDupStrict(s: seq<string>)
    requires StrSorted(s) && NoDup(s)
    ensures StrStrictlySorted(s)
  {
    forall i, j | 0 <= i < j < |s| ensures StrLess(s[i], s[j]) {
      StrLessTotal(s[i], s[j]);
    }
  }

  /** `sorted(set_of_strings)`: each string of `s` once, in increasing
      order. */
  function SortedUnique(s: seq<string>): (r: seq<string>)
    ensures forall c :: c in r <==> c in s
    ensures StrStrictlySorted(r)
    ensures NoDup(r)
    ensures |r| == |Distinct(s)|
  {
    var names := Distinct(s);
    var sorted := SortStrings(names);
    NoDupPermutation(names, sorted);
    SortedNoDupStrict(sorted);
    assert forall c :: c in sorted <==> c in multiset(names);
    sorted
  }

  /** `sort_values(key, ascending=False).iloc[0]`: a row with the largest
      key, and `IndexError` on an empty frame. */
  function TopRow<T(!new)>(s: seq<T>, key: T -> real): (r: Result<T>)
    ensures r.Err? <==> s == []
    ensures r.Err? ==> r.error == IndexError
    ensures r.Ok? ==> r.value in s && forall x :: x in s ==> key(x) <= key(r.value)
  {
    if s == [] then Err(IndexError) else Ok(MaxBy(s, key))
  }
}
