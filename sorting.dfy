/**
 * Python's built-in `sorted`: a stable sort. Keys are lists of integers
 * compared the way Python compares lists; a key of one integer is written
 * `[k]`, and `reverse=True` on keys of equal length is an ascending sort on
 * the negated key (Python keeps equal elements in their original order in
 * both directions).
 */
module Sorting {

  /** Python's `<` on lists of integers: lexicographic, a proper prefix being smaller. */
  predicate LexLess(a: seq<int>, b: seq<int>)
  {
    if a == [] then b != []
    else if b == [] then false
    else a[0] < b[0] || (a[0] == b[0] && LexLess(a[1..], b[1..]))
  }

  lemma {:induction false} LexLessIrreflexive(a: seq<int>)
    ensures !LexLess(a, a)
  {
    if a != [] {
      LexLessIrreflexive(a[1..]);
    }
  }

  lemma {:induction false} LexLessTransitive(a: seq<int>, b: seq<int>, c: seq<int>)
    requires LexLess(a, b) && LexLess(b, c)
    ensures LexLess(a, c)
  {
    if a != [] && b != [] && c != [] && a[0] == b[0] == c[0] {
      LexLessTransitive(a[1..], b[1..], c[1..]);
    }
  }

  lemma {:induction false} LexLessTotal(a: seq<int>, b: seq<int>)
    ensures a == b || LexLess(a, b) || LexLess(b, a)
  {
    if a != [] && b != [] && a[0] == b[0] {
      LexLessTotal(a[1..], b[1..]);
      if a[1..] == b[1..] {
        assert a == [a[0]] + a[1..] && b == [b[0]] + b[1..];
      }
    }
  }

  lemma LexLessAsymmetric(a: seq<int>, b: seq<int>)
    requires LexLess(a, b)
    ensures !LexLess(b, a)
  {
    if LexLess(b, a) {
      LexLessTransitive(a, b, a);
      LexLessIrreflexive(a);
    }
  }

  /** "Not after" is transitive. */
  lemma NotLessTransitive(a: seq<int>, b: seq<int>, c: seq<int>)
    requires !LexLess(b, a) && !LexLess(c, b)
    ensures !LexLess(c, a)
  {
    if LexLess(c, a) {
      LexLessTotal(a, b);
      if LexLess(a, b) {
        LexLessTransitive(c, a, b);
      }
    }
  }

  /** Lists of one integer compare as the integers do. */
  lemma LexLessSingleton(x: int, y: int)
    ensures LexLess([x], [y]) <==> x < y
  {
    assert [x][1..] == [] && [y][1..] == [];
  }

  /** Inserts x after every element whose key is not greater than x's. */
  function Insert<T>(r: seq<T>, x: T, key: T -> seq<int>): (q: seq<T>)
    ensures |q| == |r| + 1 && multiset(q) == multiset(r) + multiset{x}
  {
    if r == [] then [x]
    else if LexLess(key(x), key(r[|r| - 1])) then
      assert r == r[..|r| - 1] + [r[|r| - 1]];
      Insert(r[..|r| - 1], x, key) + [r[|r| - 1]]
    else r + [x]
  }

  /** `sorted(s, key=key)`: insertion sort taking the elements in their original order. */
  function Sort<T>(s: seq<T>, key: T -> seq<int>): (r: seq<T>)
    ensures |r| == |s| && multiset(r) == multiset(s)
  {
    if s == [] then []
    else
      assert s == s[..|s| - 1] + [s[|s| - 1]];
      Insert(Sort(s[..|s| - 1], key), s[|s| - 1], key)
  }

  /** No element's key is smaller than the key of an element before it. */
  predicate SortedBy<T>(s: seq<T>, key: T -> seq<int>)
  {
    forall i, j :: 0 <= i < j < |s| ==> !LexLess(key(s[j]), key(s[i]))
  }

  /** Sorted by `outer`, and elements with equal `outer` keys sorted by `inner`. */
  predicate SortedThenBy<T>(s: seq<T>, outer: T -> seq<int>, inner: T -> seq<int>)
  {
    forall i, j :: 0 <= i < j < |s| ==>
      !LexLess(outer(s[j]), outer(s[i])) &&
      (outer(s[j]) == outer(s[i]) ==> !LexLess(inner(s[j]), inner(s[i])))
  }

  /** `[x for x in s if key(x) == k]` */
  function WithKey<T>(s: seq<T>, key: T -> seq<int>, k: seq<int>): seq<T>
  {
    if s == [] then []
    else WithKey(s[..|s| - 1], key, k) + (if key(s[|s| - 1]) == k then [s[|s| - 1]] else [])
  }

  /** Appending an element whose key is not below any key before it keeps a list sorted. */
  lemma SnocSorted<T>(q: seq<T>, y: T, key: T -> seq<int>)
    requires SortedBy(q, key)
    requires forall i :: 0 <= i < |q| ==> !LexLess(key(y), key(q[i]))
    ensures SortedBy(q + [y], key)
  {
    var s := q + [y];
    forall i, j | 0 <= i < j < |s|
      ensures !LexLess(key(s[j]), key(s[i]))
    {
      assert s[i] == q[i];
      if j < |q| {
        assert s[j] == q[j];
      }
    }
  }

  /** Appending an element that comes after every element before it keeps a list sorted by both keys. */
  lemma SnocThenBy<T>(q: seq<T>, y: T, outer: T -> seq<int>, inner: T -> seq<int>)
    requires SortedThenBy(q, outer, inner)
    requires forall i :: 0 <= i < |q| ==>
      !LexLess(outer(y), outer(q[i])) && (outer(y) == outer(q[i]) ==> !LexLess(inner(y), inner(q[i])))
    ensures SortedThenBy(q + [y], outer, inner)
  {
    var s := q + [y];
    forall i, j | 0 <= i < j < |s|
      ensures !LexLess(outer(s[j]), outer(s[i]))
      ensures outer(s[j]) == outer(s[i]) ==> !LexLess(inner(s[j]), inner(s[i]))
    {
      assert s[i] == q[i];
      if j < |q| {
        assert s[j] == q[j];
      }
    }
  }

  lemma {:induction false} InsertSorted<T>(r: seq<T>, x: T, key: T -> seq<int>)
    requires SortedBy(r, key)
    ensures SortedBy(Insert(r, x, key), key)
  {
    if r != [] && LexLess(key(x), key(r[|r| - 1])) {
      var last := r[|r| - 1];
      var front := r[..|r| - 1];
      assert SortedBy(front, key);
      InsertSorted(front, x, key);
      assert r == front + [last];
      LastAfterInserted(front, last, x, key);
      SnocSorted(Insert(front, x, key), last, key);
    } else if r != [] {
      forall i | 0 <= i < |r|
        ensures !LexLess(key(x), key(r[i]))
      {
        if i < |r| - 1 {
          NotLessTransitive(key(r[i]), key(r[|r| - 1]), key(x));
        }
      }
      SnocSorted(r, x, key);
    }
  }

  /** The last element of a sorted list still comes after everything once x, with a smaller key, is inserted before it. */
  lemma LastAfterInserted<T>(front: seq<T>, last: T, x: T, key: T -> seq<int>)
    requires SortedBy(front + [last], key) && LexLess(key(x), key(last))
    ensures forall i :: 0 <= i < |Insert(front, x, key)| ==> !LexLess(key(last), key(Insert(front, x, key)[i]))
  {
    var r := front + [last];
    var q := Insert(front, x, key);
    forall i | 0 <= i < |q|
      ensures !LexLess(key(last), key(q[i]))
    {
      assert q[i] in multiset(q);
      if q[i] == x {
        LexLessAsymmetric(key(x), key(last));
      } else {
        assert q[i] in multiset(front);
        var k :| 0 <= k < |front| && front[k] == q[i];
        assert r[k] == q[i] && r[|r| - 1] == last;
      }
    }
  }

  /** The result of `sorted` is in key order. */
  lemma {:induction false} SortSorted<T>(s: seq<T>, key: T -> seq<int>)
    ensures SortedBy(Sort(s, key), key)
  {
    if s != [] {
      SortSorted(s[..|s| - 1], key);
      InsertSorted(Sort(s[..|s| - 1], key), s[|s| - 1], key);
    }
  }

  lemma WithKeySnoc<T>(a: seq<T>, y: T, key: T -> seq<int>, k: seq<int>)
    ensures WithKey(a + [y], key, k) == WithKey(a, key, k) + (if key(y) == k then [y] else [])
  {
    assert (a + [y])[..|a|] == a;
  }

  lemma {:induction false} InsertWithKey<T>(r: seq<T>, x: T, key: T -> seq<int>, k: seq<int>)
    ensures WithKey(Insert(r, x, key), key, k) == WithKey(r, key, k) + (if key(x) == k then [x] else [])
  {
    if r == [] {
      WithKeySnoc([], x, key, k);
    } else if LexLess(key(x), key(r[|r| - 1])) {
      var front, last := r[..|r| - 1], r[|r| - 1];
      assert Insert(r, x, key) == Insert(front, x, key) + [last];
      assert r == front + [last];
      InsertWithKey(front, x, key, k);
      InsertBeforeLast(front, last, x, key, k);
    } else {
      WithKeySnoc(r, x, key, k);
    }
  }

  /** x goes before `last`, whose key differs from x's, so the two never share a key group. */
  lemma InsertBeforeLast<T>(front: seq<T>, last: T, x: T, key: T -> seq<int>, k: seq<int>)
    requires LexLess(key(x), key(last))
    requires WithKey(Insert(front, x, key), key, k) == WithKey(front, key, k) + (if key(x) == k then [x] else [])
    ensures WithKey(Insert(front, x, key) + [last], key, k) == WithKey(front + [last], key, k) + (if key(x) == k then [x] else [])
  {
    var q := Insert(front, x, key);
    WithKeySnoc(q, last, key, k);
    WithKeySnoc(front, last, key, k);
    var wx: seq<T> := if key(x) == k then [x] else [];
    var wl: seq<T> := if key(last) == k then [last] else [];
    if key(x) == k {
      LexLessIrreflexive(key(x));
      assert wl == [];
      assert WithKey(front, key, k) + wx + wl == WithKey(front, key, k) + wl + wx;
    } else {
      assert wx == [];
      assert WithKey(front, key, k) + wx + wl == WithKey(front, key, k) + wl + wx;
    }
  }

  /**
   * Stability: the elements sharing any one key come out in the order they
   * went in.
   */
  lemma {:induction false} SortStable<T>(s: seq<T>, key: T -> seq<int>, k: seq<int>)
    ensures WithKey(Sort(s, key), key, k) == WithKey(s, key, k)
  {
    if s != [] {
      SortStable(s[..|s| - 1], key, k);
      InsertWithKey(Sort(s[..|s| - 1], key), s[|s| - 1], key, k);
    }
  }

  lemma {:induction false} InsertThenBy<T>(r: seq<T>, x: T, outer: T -> seq<int>, inner: T -> seq<int>)
    requires SortedThenBy(r, outer, inner)
    requires forall y :: y in r ==> !LexLess(inner(x), inner(y))
    ensures SortedThenBy(Insert(r, x, outer), outer, inner)
  {
    if r != [] && LexLess(outer(x), outer(r[|r| - 1])) {
      var last := r[|r| - 1];
      var front := r[..|r| - 1];
      InsertThenBy(front, x, outer, inner);
      var q := Insert(front, x, outer);
      forall i | 0 <= i < |q|
        ensures !LexLess(outer(last), outer(q[i]))
        ensures outer(last) == outer(q[i]) ==> !LexLess(inner(last), inner(q[i]))
      {
        assert q[i] in multiset(q);
        if q[i] == x {
          LexLessAsymmetric(outer(x), outer(last));
          LexLessIrreflexive(outer(x));
        } else {
          assert q[i] in multiset(front);
          var k :| 0 <= k < |front| && front[k] == q[i];
          assert r[k] == q[i];
        }
      }
      SnocThenBy(q, last, outer, inner);
    } else if r != [] {
      forall i | 0 <= i < |r|
        ensures !LexLess(outer(x), outer(r[i]))
        ensures outer(x) == outer(r[i]) ==> !LexLess(inner(x), inner(r[i]))
      {
        assert r[i] in r;
        if i < |r| - 1 {
          NotLessTransitive(outer(r[i]), outer(r[|r| - 1]), outer(x));
        }
      }
      SnocThenBy(r, x, outer, inner);
    }
  }

  /**
   * `sorted(sorted(s, key=inner), key=outer)`: sorting a list already in
   * `inner` order by `outer` leaves it in `outer` order with ties in `inner`
   * order.
   */
  lemma {:induction false} SortThenBy<T>(s: seq<T>, inner: T -> seq<int>, outer: T -> seq<int>)
    requires SortedBy(s, inner)
    ensures SortedThenBy(Sort(s, outer), outer, inner)
  {
    if s != [] {
      var front, x := s[..|s| - 1], s[|s| - 1];
      assert SortedBy(front, inner);
      SortThenBy(front, inner, outer);
      var r := Sort(front, outer);
      forall y | y in r
        ensures !LexLess(inner(x), inner(y))
      {
        assert y in multiset(r);
        assert y in multiset(front);
        var k :| 0 <= k < |front| && front[k] == y;
        assert s[k] == y;
      }
      InsertThenBy(r, x, outer, inner);
    }
  }

  /** The two-pass sort in terms of the pair of keys, the inner pass included. */
  lemma SortTwice<T>(s: seq<T>, inner: T -> seq<int>, outer: T -> seq<int>)
    ensures var r := Sort(Sort(s, inner), outer);
      multiset(r) == multiset(s) && SortedThenBy(r, outer, inner)
  {
    SortSorted(s, inner);
    SortThenBy(Sort(s, inner), inner, outer);
  }
}
