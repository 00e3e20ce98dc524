/**
 * Stable sorting by a numeric key: what `Array.prototype.sort` does with a
 * comparator of the form `(a, b) => key(a) - key(b)` (the sort is stable
 * since ECMAScript 2019, section 23.1.3.30 of ECMA-262 2023). Both sorts of
 * the core use it: the ranking (key: minus the total) and the reordered tab
 * (key: the created_at timestamp).
 *
 * SortByKey is the reference order (a stable insertion sort on sequences);
 * SortInPlace sorts an array in place and is proved to produce it.
 */
module StableSort {

  /** s is in non-decreasing key order. */
  predicate SortedBy<T>(s: seq<T>, key: T -> real) {
    forall i, j :: 0 <= i < j < |s| ==> key(s[i]) <= key(s[j])
  }

  /** x placed after every leading element whose key is at most key(x). */
  function Insert<T>(x: T, s: seq<T>, key: T -> real): (r: seq<T>)
    ensures |r| == |s| + 1
  {
    if s == [] then [x]
    else if key(s[0]) <= key(x) then [s[0]] + Insert(x, s[1..], key)
    else [x] + s
  }

  /** The order a stable sort by key produces: each element goes after every earlier one with a key not larger than its own. */
  function SortByKey<T>(s: seq<T>, key: T -> real): (r: seq<T>)
    ensures |r| == |s|
  {
    if s == [] then [] else Insert(s[|s| - 1], SortByKey(s[..|s| - 1], key), key)
  }

  /** The elements of s whose key is t, in their order in s. */
  function WithKey<T>(s: seq<T>, key: T -> real, t: real): seq<T> {
    if s == [] then [] else (if key(s[0]) == t then [s[0]] else []) + WithKey(s[1..], key, t)
  }

  /** The elements of s that satisfy p, in order (`Array.prototype.filter`). */
  function Filter<T>(s: seq<T>, p: T -> bool): (r: seq<T>)
    ensures |r| <= |s|
    ensures forall i :: 0 <= i < |r| ==> p(r[i])
  {
    if s == [] then [] else (if p(s[0]) then [s[0]] else []) + Filter(s[1..], p)
  }

  // ---------------------------------------------------------------------
  // Insert
  // ---------------------------------------------------------------------

  lemma {:induction false} InsertMultiset<T>(x: T, s: seq<T>, key: T -> real)
    ensures multiset(Insert(x, s, key)) == multiset(s) + multiset{x}
  {
    if s != [] && key(s[0]) <= key(x) {
      InsertMultiset(x, s[1..], key);
      assert s == [s[0]] + s[1..];
    }
  }

  lemma {:induction false} InsertSorted<T>(x: T, s: seq<T>, key: T -> real)
    requires SortedBy(s, key)
    ensures SortedBy(Insert(x, s, key), key)
  {
    if s != [] && key(s[0]) <= key(x) {
      InsertSorted(x, s[1..], key);
      var r := Insert(x, s[1..], key);
      InsertMultiset(x, s[1..], key);
      forall k | 0 <= k < |r|
        ensures key(s[0]) <= key(r[k])
      {
        assert r[k] in multiset(s[1..]) + multiset{x};
      }
    }
  }

  /** On a sorted sequence, Insert puts x at the place where the keys pass key(x). */
  lemma {:induction false} InsertAt<T>(x: T, s: seq<T>, key: T -> real, j: nat)
    requires SortedBy(s, key) && j <= |s|
    requires j > 0 ==> key(s[j - 1]) <= key(x)
    requires forall m :: j <= m < |s| ==> key(s[m]) > key(x)
    ensures Insert(x, s, key) == s[..j] + [x] + s[j..]
  {
    if s == [] {
    } else if j == 0 {
      assert key(s[0]) > key(x);
    } else {
      assert key(s[0]) <= key(x);
      InsertAt(x, s[1..], key, j - 1);
      assert s[1..][..j - 1] == s[1..j];
      assert s[1..][j - 1..] == s[j..];
    }
  }

  lemma {:induction false} InsertAfterAll<T>(x: T, s: seq<T>, key: T -> real)
    requires forall m :: 0 <= m < |s| ==> key(s[m]) <= key(x)
    ensures Insert(x, s, key) == s + [x]
  {
    if s != [] {
      InsertAfterAll(x, s[1..], key);
    }
  }

  // ---------------------------------------------------------------------
  // SortByKey: sorted, a permutation, stable
  // ---------------------------------------------------------------------

  /** The sorted order is in non-decreasing key order. */
  lemma {:induction false} SortByKeySorted<T>(s: seq<T>, key: T -> real)
    ensures SortedBy(SortByKey(s, key), key)
  {
    if s != [] {
      SortByKeySorted(s[..|s| - 1], key);
      InsertSorted(s[|s| - 1], SortByKey(s[..|s| - 1], key), key);
    }
  }

  /** Sorting only rearranges: the result is a permutation of the input. */
  lemma {:induction false} SortByKeyPermutes<T>(s: seq<T>, key: T -> real)
    ensures multiset(SortByKey(s, key)) == multiset(s)
  {
    if s != [] {
      SortByKeyPermutes(s[..|s| - 1], key);
      InsertMultiset(s[|s| - 1], SortByKey(s[..|s| - 1], key), key);
      assert s == s[..|s| - 1] + [s[|s| - 1]];
    }
  }

  /** A sequence already in key order is left as it is. */
  lemma {:induction false} SortByKeyOfSorted<T>(s: seq<T>, key: T -> real)
    requires SortedBy(s, key)
    ensures SortByKey(s, key) == s
  {
    if s != [] {
      var p := s[..|s| - 1];
      SortByKeyOfSorted(p, key);
      InsertAfterAll(s[|s| - 1], p, key);
    }
  }

  lemma {:induction false} WithKeyAppend<T>(a: seq<T>, b: seq<T>, key: T -> real, t: real)
    ensures WithKey(a + b, key, t) == WithKey(a, key, t) + WithKey(b, key, t)
  {
    if a == [] {
      assert a + b == b;
    } else {
      assert (a + b)[1..] == a[1..] + b;
      WithKeyAppend(a[1..], b, key, t);
    }
  }

  lemma {:induction false} WithKeyNone<T>(s: seq<T>, key: T -> real, t: real)
    requires forall m :: 0 <= m < |s| ==> key(s[m]) != t
    ensures WithKey(s, key, t) == []
  {
    if s != [] {
      WithKeyNone(s[1..], key, t);
    }
  }

  lemma {:induction false} WithKeyInsert<T>(x: T, s: seq<T>, key: T -> real, t: real)
    requires SortedBy(s, key)
    ensures WithKey(Insert(x, s, key), key, t) == WithKey(s, key, t) + (if key(x) == t then [x] else [])
  {
    var tx: seq<T> := if key(x) == t then [x] else [];
    if s == [] {
      assert WithKey([x], key, t) == tx + WithKey([], key, t);
    } else {
      var head: seq<T> := if key(s[0]) == t then [s[0]] else [];
      assert WithKey(s, key, t) == head + WithKey(s[1..], key, t);
      if key(s[0]) <= key(x) {
        var r := Insert(x, s[1..], key);
        assert Insert(x, s, key) == [s[0]] + r;
        assert ([s[0]] + r)[1..] == r;
        assert WithKey([s[0]] + r, key, t) == head + WithKey(r, key, t);
        WithKeyInsert(x, s[1..], key, t);
      } else {
        assert Insert(x, s, key) == [x] + s;
        assert ([x] + s)[1..] == s;
        assert WithKey([x] + s, key, t) == tx + WithKey(s, key, t);
        if key(x) == t {
          WithKeyNone(s, key, t);
        }
      }
    }
  }

  /** Stability: for every key value, the elements with that key keep their relative order. */
  lemma {:induction false} SortByKeyStable<T>(s: seq<T>, key: T -> real, t: real)
    ensures WithKey(SortByKey(s, key), key, t) == WithKey(s, key, t)
  {
    if s != [] {
      var p, x := s[..|s| - 1], s[|s| - 1];
      SortByKeySorted(p, key);
      WithKeyInsert(x, SortByKey(p, key), key, t);
      SortByKeyStable(p, key, t);
      assert s == p + [x];
      WithKeyAppend(p, [x], key, t);
    }
  }

  /**
   * A sequence in key order is determined by its key classes: two sorted
   * sequences with the same elements of every key, in the same order, are
   * equal.
   */
  lemma {:induction false} SortedDeterminedByClasses<T>(p: seq<T>, q: seq<T>, key: T -> real)
    requires SortedBy(p, key) && SortedBy(q, key)
    requires forall t :: WithKey(p, key, t) == WithKey(q, key, t)
    ensures p == q
  {
    if p != [] {
      assert WithKey(p, key, key(p[0]))[0] == p[0];
      ClassMember(q, key, key(p[0]), p[0]);
    }
    if q != [] {
      assert WithKey(q, key, key(q[0]))[0] == q[0];
      ClassMember(p, key, key(q[0]), q[0]);
    }
    if p != [] {
      var k := key(p[0]);
      assert key(q[0]) == k;
      assert p[0] == q[0] by {
        assert WithKey(p, key, k)[0] == p[0];
        assert WithKey(q, key, k)[0] == q[0];
      }
      forall t
        ensures WithKey(p[1..], key, t) == WithKey(q[1..], key, t)
      {
        var h: seq<T> := if k == t then [p[0]] else [];
        assert WithKey(p, key, t) == h + WithKey(p[1..], key, t);
        assert WithKey(q, key, t) == h + WithKey(q[1..], key, t);
        assert (h + WithKey(p[1..], key, t))[|h|..] == WithKey(p[1..], key, t);
        assert (h + WithKey(q[1..], key, t))[|h|..] == WithKey(q[1..], key, t);
      }
      SortedDeterminedByClasses(p[1..], q[1..], key);
      assert p == [p[0]] + p[1..] && q == [q[0]] + q[1..];
    }
  }

  /** A sorted sequence holding an element of key t starts with a key at most t. */
  lemma ClassMember<T>(s: seq<T>, key: T -> real, t: real, y: T)
    requires SortedBy(s, key)
    requires y in WithKey(s, key, t)
    ensures s != [] && key(s[0]) <= t
  {
    WithKeyMembers(s, key, t, y);
  }

  lemma {:induction false} WithKeyMembers<T>(s: seq<T>, key: T -> real, t: real, y: T)
    requires y in WithKey(s, key, t)
    ensures exists m :: 0 <= m < |s| && s[m] == y && key(s[m]) == t
  {
    if s != [] {
      if key(s[0]) == t && y == s[0] {
      } else {
        WithKeyMembers(s[1..], key, t, y);
        var m :| 0 <= m < |s[1..]| && s[1..][m] == y && key(s[1..][m]) == t;
        assert s[m + 1] == y;
      }
    }
  }

  // ---------------------------------------------------------------------
  // Sorting and filtering commute
  // ---------------------------------------------------------------------

  lemma {:induction false} FilterMembers<T>(s: seq<T>, p: T -> bool, y: T)
    requires y in Filter(s, p)
    ensures y in s
  {
    if s != [] && !(p(s[0]) && y == s[0]) {
      FilterMembers(s[1..], p, y);
    }
  }

  lemma {:induction false} FilterInsert<T>(x: T, s: seq<T>, key: T -> real, p: T -> bool)
    requires SortedBy(s, key)
    ensures Filter(Insert(x, s, key), p) == if p(x) then Insert(x, Filter(s, p), key) else Filter(s, p)
  {
    if s == [] {
    } else if key(s[0]) <= key(x) {
      var r := Insert(x, s[1..], key);
      FilterInsert(x, s[1..], key, p);
      assert Insert(x, s, key) == [s[0]] + r;
      FilterAppend([s[0]], r, p);
      var f := Filter(s[1..], p);
      if p(s[0]) {
        assert Filter(s, p) == [s[0]] + f;
        if p(x) {
          assert ([s[0]] + f)[0] == s[0] && ([s[0]] + f)[1..] == f;
          assert Insert(x, [s[0]] + f, key) == [s[0]] + Insert(x, f, key);
        }
      } else {
        assert Filter(s, p) == f;
      }
    } else {
      assert Insert(x, s, key) == [x] + s;
      FilterAppend([x], s, p);
      var f := Filter(s, p);
      if p(x) && f != [] {
        FilterMembers(s, p, f[0]);
        assert key(f[0]) > key(x);
      }
    }
  }

  lemma {:induction false} FilterAppend<T>(a: seq<T>, b: seq<T>, p: T -> bool)
    ensures Filter(a + b, p) == Filter(a, p) + Filter(b, p)
  {
    if a == [] {
      assert a + b == b;
    } else {
      assert (a + b)[1..] == a[1..] + b;
      FilterAppend(a[1..], b, p);
    }
  }

  /** Filtering the sorted order gives the sorted order of the filtered sequence. */
  lemma {:induction false} FilterSortCommute<T>(s: seq<T>, key: T -> real, p: T -> bool)
    ensures Filter(SortByKey(s, key), p) == SortByKey(Filter(s, p), key)
  {
    if s != [] {
      var q, x := s[..|s| - 1], s[|s| - 1];
      SortByKeySorted(q, key);
      FilterInsert(x, SortByKey(q, key), key, p);
      FilterSortCommute(q, key, p);
      assert s == q + [x];
      FilterAppend(q, [x], p);
      var fq := Filter(q, p);
      if p(x) {
        assert Filter(s, p) == fq + [x];
        assert (fq + [x])[..|fq|] == fq;
      } else {
        assert Filter(s, p) == fq;
      }
    }
  }

  // ---------------------------------------------------------------------
  // In-place sort
  // ---------------------------------------------------------------------

  /** Sorts a fresh array holding s, as `.sort` does on the new list built by `map` or `Object.values`. */
  method SortedCopy<T>(s: seq<T>, key: T -> real) returns (r: seq<T>)
    ensures r == SortByKey(s, key)
  {
    if |s| == 0 {
      return [];
    }
    var a := new T[|s|](k requires 0 <= k < |s| => s[k]);
    assert a[..] == s;
    SortInPlace(a, key);
    r := a[..];
  }

  /** Stable insertion sort of an array in place: afterwards a holds SortByKey of its old contents. */
  method SortInPlace<T>(a: array<T>, key: T -> real)
    modifies a
    ensures a[..] == SortByKey(old(a[..]), key)
  {
    ghost var input := a[..];
    var i := 0;
    while i < a.Length
      invariant 0 <= i <= a.Length
      invariant a[..i] == SortByKey(input[..i], key)
      invariant a[i..] == input[i..]
    {
      SortByKeySorted(input[..i], key);
      InsertStep(a, i, key);
      assert input[..i + 1][..i] == input[..i];
      assert input[..i + 1][i] == input[i];
      i := i + 1;
    }
    assert input[..a.Length] == input;
  }

  /** One step of the insertion sort: a[i] moves left past the larger keys of the sorted prefix a[..i]. */
  method InsertStep<T>(a: array<T>, i: nat, key: T -> real)
    requires i < a.Length && SortedBy(a[..i], key)
    modifies a
    ensures a[..i + 1] == Insert(old(a[i]), old(a[..i]), key)
    ensures a[i + 1..] == old(a[i + 1..])
  {
    ghost var s := a[..i];
    ghost var rest := a[i + 1..];
    var x := a[i];
    var j := ShiftGreater(a, i, key);
    a[j] := x;
    InsertAt(x, s, key, j);
    Assembled(a[..], s, x, i, j);
    assert a[i + 1..] == rest;
  }

  /** Shifts right by one the run of elements before a[i] whose keys exceed key(a[i]); j is where a[i] belongs. */
  method ShiftGreater<T>(a: array<T>, i: nat, key: T -> real) returns (j: nat)
    requires i < a.Length
    modifies a
    ensures j <= i
    ensures forall m :: 0 <= m < j ==> a[m] == old(a[m])
    ensures forall m :: j < m <= i ==> a[m] == old(a[m - 1])
    ensures forall m :: i < m < a.Length ==> a[m] == old(a[m])
    ensures j > 0 ==> key(old(a[j - 1])) <= key(old(a[i]))
    ensures forall m :: j <= m < i ==> key(old(a[m])) > key(old(a[i]))
  {
    var x := a[i];
    j := i;
    while j > 0 && key(a[j - 1]) > key(x)
      invariant 0 <= j <= i
      invariant forall m :: 0 <= m < j ==> a[m] == old(a[m])
      invariant forall m :: j < m <= i ==> a[m] == old(a[m - 1])
      invariant forall m :: i < m < a.Length ==> a[m] == old(a[m])
      invariant forall m :: j <= m < i ==> key(old(a[m])) > key(x)
    {
      a[j] := a[j - 1];
      j := j - 1;
    }
  }

  /** The array after the shift and the write of x, read as a sequence. */
  lemma Assembled<T>(b: seq<T>, s: seq<T>, x: T, i: nat, j: nat)
    requires j <= i == |s| < |b|
    requires forall m :: 0 <= m < j ==> b[m] == s[m]
    requires b[j] == x
    requires forall m :: j < m <= i ==> b[m] == s[m - 1]
    ensures b[..i + 1] == s[..j] + [x] + s[j..]
  {
    forall m | 0 <= m <= i
      ensures b[..i + 1][m] == (s[..j] + [x] + s[j..])[m]
    {
      if m > j {
        assert (s[..j] + [x] + s[j..])[m] == s[m - 1];
      }
    }
  }
}
