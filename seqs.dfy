/** Counting, de-duplication and sums over sequences: the operations behind
    `groupby(...).size()`, `Series.unique()`, `nunique()`, Python dict
    insertion order and column `sum()`. Recursive definitions peel off the
    LAST element, so that they line up with loops that append. */
module Seqs {

  /** Number of occurrences of `x` in `s`. */
  function Count<T(==,!new)>(s: seq<T>, x: T): (n: nat)
    ensures n <= |s|
    ensures n > 0 <==> x in s
  {
    if s == [] then 0
    else Count(s[..|s| - 1], x) + (if s[|s| - 1] == x then 1 else 0)
  }

  ghost predicate NoDup<T>(s: seq<T>) {
    forall i, j :: 0 <= i < j < |s| ==> s[i] != s[j]
  }

  /** The distinct elements of `s` in order of first occurrence (the order of
      `Series.unique()` and of the keys of a dict filled by `setdefault`). */
  function Distinct<T(==,!new)>(s: seq<T>): (r: seq<T>)
    ensures forall x :: x in r <==> x in s
    ensures NoDup(r)
    ensures |r| <= |s|
  {
    if s == [] then []
    else
      var r := Distinct(s[..|s| - 1]);
      assert forall x :: x in s <==> x in s[..|s| - 1] || x == s[|s| - 1];
      if s[|s| - 1] in r then r else r + [s[|s| - 1]]
  }

  /** Position of the first occurrence of `x` in `s`. */
  function FirstIndex<T(==,!new)>(s: seq<T>, x: T): (i: nat)
    requires x in s
    ensures i < |s| && s[i] == x && x !in s[..i]
  {
    if s[0] == x then 0
    else
      var i := FirstIndex(s[1..], x);
      assert s[..i + 1] == [s[0]] + s[1..][..i];
      i + 1
  }

  lemma FirstIndexUnique<T(!new)>(s: seq<T>, x: T, k: nat)
    requires k < |s| && s[k] == x && x !in s[..k]
    ensures FirstIndex(s, x) == k
  {
    var i := FirstIndex(s, x);
  }

  lemma FirstIndexPrefix<T(!new)>(s: seq<T>, m: nat, x: T)
    requires m <= |s| && x in s[..m]
    ensures FirstIndex(s, x) == FirstIndex(s[..m], x)
  {
    var k := FirstIndex(s[..m], x);
    assert s[..m][..k] == s[..k];
    FirstIndexUnique(s, x, k);
  }

  /** `Distinct` keeps the order of first occurrence: an element listed
      earlier first occurs earlier in the input. */
  lemma {:induction false} DistinctFirstOccurrence<T(!new)>(s: seq<T>, i: nat, j: nat)
    requires i < j < |Distinct(s)|
    ensures FirstIndex(s, Distinct(s)[i]) < FirstIndex(s, Distinct(s)[j])
  {
    var n := |s| - 1;
    var s', last := s[..n], s[n];
    var r' := Distinct(s');
    var r := Distinct(s);
    assert s == s' + [last];
    assert r[i] in s' && r[j] in s' ==> FirstIndex(s, r[i]) == FirstIndex(s', r[i]) && FirstIndex(s, r[j]) == FirstIndex(s', r[j]) by {
      if r[i] in s' { FirstIndexPrefix(s, n, r[i]); }
      if r[j] in s' { FirstIndexPrefix(s, n, r[j]); }
    }
    if last in r' {
      DistinctFirstOccurrence(s', i, j);
    } else if j < |r'| {
      DistinctFirstOccurrence(s', i, j);
    } else {
      assert r[j] == last && last !in s';
      assert s[..n] == s';
      FirstIndexUnique(s, last, n);
      assert r[i] == r'[i] && r[i] in s';
      FirstIndexPrefix(s, n, r[i]);
    }
  }

  /** The sum of `f` over the elements of `s`. */
  function SumOf<T>(s: seq<T>, f: T -> int): int {
    if s == [] then 0 else SumOf(s[..|s| - 1], f) + f(s[|s| - 1])
  }

  lemma {:induction false} SumOfAppend<T(!new)>(a: seq<T>, b: seq<T>, f: T -> int)
    ensures SumOf(a + b, f) == SumOf(a, f) + SumOf(b, f)
  {
    if b != [] {
      var b' := b[..|b| - 1];
      assert (a + b)[..|a + b| - 1] == a + b';
      SumOfAppend(a, b', f);
    } else {
      assert a + b == a;
    }
  }

  lemma {:induction false} SumOfNonNegative<T(!new)>(s: seq<T>, f: T -> int)
    requires forall x :: x in s ==> f(x) >= 0
    ensures SumOf(s, f) >= 0
  {
    if s != [] {
      SumOfNonNegative(s[..|s| - 1], f);
    }
  }

  /** A sum does not depend on the order of the summands. */
  lemma {:induction false} SumOfPermutation<T(!new)>(a: seq<T>, b: seq<T>, f: T -> int)
    requires multiset(a) == multiset(b)
    ensures SumOf(a, f) == SumOf(b, f)
    decreases |a|
  {
    if a == [] {
      assert |b| == |multiset(b)| == 0;
    } else {
      var n := |a| - 1;
      assert a[n] in multiset(b);
      var k :| 0 <= k < |b| && b[k] == a[n];
      PermutationWithout(a, b, k);
      SumOfPermutation(a[..n], b[..k] + b[k + 1..], f);
      SumOfWithout(b, k, f);
      SumOfWithout(a, n, f);
      assert a[..n] + a[n + 1..] == a[..n];
    }
  }

  /** Taking the last element of `a` and one equal element out of a
      permutation `b` of `a` leaves two permutations of each other. */
  lemma PermutationWithout<T>(a: seq<T>, b: seq<T>, k: nat)
    requires multiset(a) == multiset(b) && a != []
    requires k < |b| && b[k] == a[|a| - 1]
    ensures multiset(a[..|a| - 1]) == multiset(b[..k] + b[k + 1..])
  {
    var n := |a| - 1;
    var x, front, pre, post := a[n], a[..n], b[..k], b[k + 1..];
    assert a == front + [x];
    assert b == pre + [x] + post;
    assert multiset(a) == multiset(front) + multiset{x};
    assert multiset(b) == multiset(pre) + multiset{x} + multiset(post);
    assert multiset(pre + post) == multiset(pre) + multiset(post);
    forall y ensures multiset(front)[y] == multiset(pre + post)[y] {
      assert multiset(a)[y] == multiset(front)[y] + multiset{x}[y];
      assert multiset(b)[y] == multiset(pre)[y] + multiset{x}[y] + multiset(post)[y];
    }
  }

  /** The sum over `s` is the sum without its `k`-th element plus that
      element's term. */
  lemma SumOfWithout<T(!new)>(s: seq<T>, k: nat, f: T -> int)
    requires k < |s|
    ensures SumOf(s, f) == SumOf(s[..k] + s[k + 1..], f) + f(s[k])
  {
    var single, pre, post := [s[k]], s[..k], s[k + 1..];
    assert s == (pre + single) + post;
    SumOfAppend(pre + single, post, f);
    SumOfAppend(pre, single, f);
    SumOfAppend(pre, post, f);
    assert single[..0] == [];
    assert SumOf(single, f) == f(s[k]);
  }

  /** The elements of `s` that satisfy `p`, in their original order. */
  function Filter<T(!new)>(s: seq<T>, p: T -> bool): (r: seq<T>)
    ensures |r| <= |s|
    ensures forall x :: x in r <==> x in s && p(x)
  {
    if s == [] then []
    else
      var r := Filter(s[..|s| - 1], p);
      assert forall x :: x in s <==> x in s[..|s| - 1] || x == s[|s| - 1];
      if p(s[|s| - 1]) then r + [s[|s| - 1]] else r
  }

  lemma {:induction false} FilterAppend<T(!new)>(a: seq<T>, b: seq<T>, p: T -> bool)
    ensures Filter(a + b, p) == Filter(a, p) + Filter(b, p)
  {
    if b == [] {
      assert a + b == a;
    } else {
      var b' := b[..|b| - 1];
      assert (a + b)[..|a + b| - 1] == a + b';
      FilterAppend(a, b', p);
    }
  }

  /** Filtering with a predicate and with its negation splits the input. */
  lemma {:induction false} FilterPartition<T(!new)>(s: seq<T>, p: T -> bool, q: T -> bool)
    requires forall x :: q(x) == !p(x)
    ensures |Filter(s, p)| + |Filter(s, q)| == |s|
  {
    if s != [] {
      FilterPartition(s[..|s| - 1], p, q);
    }
  }

  /** The sum, over `keys`, of the number of occurrences of each key in `s`. */
  function SumCounts<T(==,!new)>(keys: seq<T>, s: seq<T>): nat {
    if keys == [] then 0 else SumCounts(keys[..|keys| - 1], s) + Count(s, keys[|keys| - 1])
  }

  /** Summing the occurrence counts of a duplicate-free list of keys that
      covers every element of `s` gives the length of `s`: group sizes add up
      to the number of rows. */
  lemma {:induction false} SumOfCounts<T(!new)>(keys: seq<T>, s: seq<T>)
    requires NoDup(keys)
    requires forall x :: x in s ==> x in keys
    ensures SumCounts(keys, s) == |s|
  {
    if s != [] {
      var s', x := s[..|s| - 1], s[|s| - 1];
      assert s == s' + [x];
      assert x in s;
      SumOfCounts(keys, s');
      CountsSnoc(keys, s', x);
      assert s' + [x] == s;
      CountOfNoDup(keys, x);
    } else {
      SumCountsNone(keys);
    }
  }

  lemma {:induction false} SumCountsNone<T(!new)>(keys: seq<T>)
    ensures SumCounts(keys, []) == 0
  {
    if keys != [] {
      SumCountsNone(keys[..|keys| - 1]);
    }
  }

  lemma {:induction false} CountsSnoc<T(!new)>(keys: seq<T>, s: seq<T>, x: T)
    ensures SumCounts(keys, s + [x]) == SumCounts(keys, s) + Count(keys, x)
  {
    assert (s + [x])[..|s|] == s;
    if keys != [] {
      CountsSnoc(keys[..|keys| - 1], s, x);
    }
  }

  lemma {:induction false} CountOfNoDup<T(!new)>(keys: seq<T>, x: T)
    requires NoDup(keys) && x in keys
    ensures Count(keys, x) == 1
  {
    var n := |keys| - 1;
    if keys[n] == x {
      assert x !in keys[..n];
    } else {
      CountOfNoDup(keys[..n], x);
    }
  }

  /** Each element of a duplicate-free sequence occurs once. */
  lemma {:induction false} NoDupOccursOnce<T>(s: seq<T>)
    requires NoDup(s)
    ensures forall x :: multiset(s)[x] <= 1
  {
    if s != [] {
      var s', last := s[..|s| - 1], s[|s| - 1];
      assert s == s' + [last];
      NoDupOccursOnce(s');
      assert last !in s';
    }
  }

  /** Reordering a duplicate-free sequence leaves it duplicate-free. */
  lemma NoDupPermutation<T>(a: seq<T>, b: seq<T>)
    requires NoDup(a) && multiset(a) == multiset(b)
    ensures NoDup(b)
  {
    NoDupOccursOnce(a);
    forall i, j | 0 <= i < j < |b| ensures b[i] != b[j] {
      assert b == b[..j] + [b[j]] + b[j + 1..];
      assert b[i] in b[..j];
      assert multiset(b)[b[j]] == multiset(b[..j])[b[j]] + 1 + multiset(b[j + 1..])[b[j]];
    }
  }

  /** A duplicate-free sequence whose elements all occur in another
      duplicate-free sequence is no longer than it. */
  lemma {:induction false} NoDupSubsetLength<T>(a: seq<T>, b: seq<T>)
    requires NoDup(a) && NoDup(b)
    requires forall x :: x in a ==> x in b
    ensures |a| <= |b|
  {
    if a != [] {
      var a', x := a[..|a| - 1], a[|a| - 1];
      assert x in a;
      var k :| 0 <= k < |b| && b[k] == x;
      var b' := b[..k] + b[k + 1..];
      assert b == b[..k] + [x] + b[k + 1..];
      forall y | y in a' ensures y in b' {
        assert y in a && y != x;
      }
      NoDupSubsetLength(a', b');
    }
  }

  lemma CountSnoc<T(!new)>(s: seq<T>, y: T, x: T)
    ensures Count(s + [y], x) == Count(s, x) + (if y == x then 1 else 0)
  {
    assert (s + [y])[..|s|] == s;
  }

  /** Summing over the rows that satisfy `p` and over the others gives the
      sum over all rows. */
  lemma {:induction false} SumOfFilterPartition<T(!new)>(s: seq<T>, p: T -> bool, q: T -> bool, f: T -> int)
    requires forall x :: q(x) == !p(x)
    ensures SumOf(Filter(s, p), f) + SumOf(Filter(s, q), f) == SumOf(s, f)
  {
    if s != [] {
      var s', x := s[..|s| - 1], s[|s| - 1];
      SumOfFilterPartition(s', p, q, f);
      if p(x) {
        assert (Filter(s', p) + [x])[..|Filter(s', p)|] == Filter(s', p);
      } else {
        assert (Filter(s', q) + [x])[..|Filter(s', q)|] == Filter(s', q);
      }
    }
  }

  /** A weaker filter keeps at least as many elements. */
  lemma {:induction false} FilterImplies<T(!new)>(s: seq<T>, p: T -> bool, q: T -> bool)
    requires forall x :: p(x) ==> q(x)
    ensures |Filter(s, p)| <= |Filter(s, q)|
  {
    if s != [] {
      FilterImplies(s[..|s| - 1], p, q);
    }
  }

  /** A filter that rejects every element keeps nothing. */
  lemma {:induction false} FilterNone<T(!new)>(s: seq<T>, p: T -> bool)
    requires forall x :: x in s ==> !p(x)
    ensures Filter(s, p) == []
  {
    if s != [] {
      var n := |s| - 1;
      assert forall x :: x in s[..n] ==> x in s;
      FilterNone(s[..n], p);
    }
  }

  /** The first element kept by a filter is the first element of the input
      that satisfies the predicate. */
  lemma {:induction false} FilterHeadAt<T(!new)>(s: seq<T>, p: T -> bool) returns (i: nat)
    requires Filter(s, p) != []
    ensures i < |s| && s[i] == Filter(s, p)[0] && p(s[i])
    ensures forall j :: 0 <= j < i ==> !p(s[j])
  {
    var n := |s| - 1;
    var s', x := s[..n], s[n];
    var f' := Filter(s', p);
    if f' != [] {
      i := FilterHeadAt(s', p);
      assert Filter(s, p)[0] == f'[0];
      assert forall j :: 0 <= j < i ==> s[j] == s'[j];
    } else {
      i := n;
      forall j | 0 <= j < n ensures !p(s[j]) {
        assert s[j] == s'[j] && s'[j] in s';
      }
    }
  }

  lemma FilterHead<T(!new)>(s: seq<T>, p: T -> bool)
    requires Filter(s, p) != []
    ensures exists i :: 0 <= i < |s| && s[i] == Filter(s, p)[0] && p(s[i])
                      && forall j :: 0 <= j < i ==> !p(s[j])
  {
    var i := FilterHeadAt(s, p);
  }

  /** `groupby(key).size()` for the given keys: each key with its number of
      occurrences. */
  function Tally<T(==,!new)>(s: seq<T>, keys: seq<T>): (t: seq<(T, nat)>)
    ensures |t| == |keys|
    ensures forall i :: 0 <= i < |keys| ==> t[i] == (keys[i], Count(s, keys[i]))
  {
    if keys == [] then []
    else
      var n := |keys| - 1;
      Tally(s, keys[..n]) + [(keys[n], Count(s, keys[n]))]
  }

  /** `x` labels some row of the size table `t`. */
  ghost predicate HasRow<T>(t: seq<(T, nat)>, x: T) {
    exists i :: 0 <= i < |t| && t[i].0 == x
  }

  /** Tallying over exactly the values of `s`: every value has a row, and
      every row holds a value of `s` with a positive count. */
  lemma TallyRows<T(!new)>(s: seq<T>, keys: seq<T>)
    requires forall x :: x in keys <==> x in s
    ensures forall x :: x in s ==> HasRow(Tally(s, keys), x)
    ensures forall i :: 0 <= i < |Tally(s, keys)| ==> Tally(s, keys)[i].0 in s && Tally(s, keys)[i].1 > 0
  {
    forall x | x in s ensures HasRow(Tally(s, keys), x) {
      var i :| 0 <= i < |keys| && keys[i] == x;
      assert Tally(s, keys)[i] == (keys[i], Count(s, keys[i]));
    }
    forall i | 0 <= i < |Tally(s, keys)| ensures Tally(s, keys)[i].0 in s && Tally(s, keys)[i].1 > 0 {
      assert keys[i] in keys && keys[i] in s;
      assert Tally(s, keys)[i] == (keys[i], Count(s, keys[i]));
    }
  }

  /** The sum of the sizes column. */
  function TallyTotal<T>(t: seq<(T, nat)>): nat {
    if t == [] then 0 else TallyTotal(t[..|t| - 1]) + t[|t| - 1].1
  }

  lemma {:induction false} TallyTotalIsSumCounts<T(!new)>(s: seq<T>, keys: seq<T>)
    ensures TallyTotal(Tally(s, keys)) == SumCounts(keys, s)
  {
    if keys != [] {
      var n := |keys| - 1;
      TallyTotalIsSumCounts(s, keys[..n]);
      var t := Tally(s, keys);
      assert t[..n] == Tally(s, keys[..n]);
    }
  }

  /** Group sizes over distinct keys that cover the input add up to the
      number of rows. */
  lemma TallyCoversRows<T(!new)>(s: seq<T>, keys: seq<T>)
    requires NoDup(keys)
    requires forall x :: x in s ==> x in keys
    ensures TallyTotal(Tally(s, keys)) == |s|
  {
    TallyTotalIsSumCounts(s, keys);
    SumOfCounts(keys, s);
  }
}
