/** Strict orders, sorting and the byte order of strings.
  * Every list the program promises to return "sorted for deterministic output" is
  * specified here by one fact: a strictly sorted list is determined by its elements.
  */
module Ordering {

  // ---------- strict orders and sorted sequences ----------

  ghost predicate StrictOrder<T(!new)>(less: (T, T) -> bool) {
    && (forall x :: !less(x, x))
    && (forall x, y, z :: less(x, y) && less(y, z) ==> less(x, z))
  }

  ghost predicate SortedBy<T>(less: (T, T) -> bool, s: seq<T>) {
    forall i, j :: 0 <= i < j < |s| ==> less(s[i], s[j])
  }

  ghost predicate SameElements<T(!new)>(a: seq<T>, b: seq<T>) {
    forall x :: x in a <==> x in b
  }

  /** A strictly sorted sequence is determined by the set of its elements. */
  lemma {:induction false} SortedUnique<T(!new)>(less: (T, T) -> bool, a: seq<T>, b: seq<T>)
    requires StrictOrder(less)
    requires SortedBy(less, a) && SortedBy(less, b)
    requires SameElements(a, b)
    ensures a == b
  {
    assert |b| > 0 ==> b[0] in a;
    if a != [] {
      assert a[0] in b;
      var j :| 0 <= j < |b| && b[j] == a[0];
      var i :| 0 <= i < |a| && a[i] == b[0];
      assert a[0] == b[0];
      forall x
        ensures x in a[1..] <==> x in b[1..]
      {
        if x in a[1..] {
          assert x in a && less(a[0], x);
          assert x in b;
        }
        if x in b[1..] {
          assert x in b && less(b[0], x);
          assert x in a;
        }
      }
      SortedUnique(less, a[1..], b[1..]);
    }
  }

  /** A list without repetitions is as long as the set of its elements is large. */
  lemma {:induction false} DistinctCount<T>(xs: seq<T>, s: set<T>)
    requires forall i, j :: 0 <= i < j < |xs| ==> xs[i] != xs[j]
    requires forall x :: x in s <==> x in xs
    ensures |xs| == |s|
  {
    if xs != [] {
      DistinctCount(xs[1..], s - {xs[0]});
    } else {
      assert s == {};
    }
  }

  /** Any two different elements are comparable. */
  ghost predicate Comparable<T>(less: (T, T) -> bool, s: seq<T>) {
    forall i, j :: 0 <= i < j < |s| ==> less(s[i], s[j]) || less(s[j], s[i])
  }

  /** Puts an element after the smaller ones. */
  method Insert<T(!new)>(less: (T, T) -> bool, s: seq<T>, x: T) returns (r: seq<T>)
    requires StrictOrder(less) && SortedBy(less, s)
    requires forall y :: y in s ==> less(x, y) || less(y, x)
    ensures SortedBy(less, r) && |r| == |s| + 1
    ensures forall y :: y in r <==> y in s || y == x
  {
    var k := 0;
    while k < |s| && less(s[k], x)
      invariant k <= |s|
      invariant forall i :: 0 <= i < k ==> less(s[i], x)
    {
      k := k + 1;
    }
    r := s[..k] + [x] + s[k..];
    forall i | k <= i < |s| ensures less(x, s[i]) {
      assert s[k] in s;
    }
    InsertedIsSorted(less, s, k, x);
    InsertedElements(s, k, x);
  }

  lemma InsertedIsSorted<T>(less: (T, T) -> bool, s: seq<T>, k: nat, x: T)
    requires k <= |s| && SortedBy(less, s)
    requires forall i :: 0 <= i < k ==> less(s[i], x)
    requires forall i :: k <= i < |s| ==> less(x, s[i])
    ensures SortedBy(less, s[..k] + [x] + s[k..])
  {
  }

  lemma InsertedElements<T>(s: seq<T>, k: nat, x: T)
    requires k <= |s|
    ensures forall y :: y in s[..k] + [x] + s[k..] <==> y in s || y == x
  {
    assert s == s[..k] + s[k..];
    assert forall y :: y in s[..k] + s[k..] <==> y in s[..k] || y in s[k..];
  }

  /** Stands for the library's sort: the elements of `s` in increasing order. */
  method Sort<T(!new)>(less: (T, T) -> bool, s: seq<T>) returns (r: seq<T>)
    requires StrictOrder(less) && Comparable(less, s)
    ensures SortedBy(less, r) && SameElements(r, s) && |r| == |s|
  {
    r := [];
    for n := 0 to |s|
      invariant SortedBy(less, r) && |r| == n
      invariant SameElements(r, s[..n])
    {
      assert s[..n + 1] == s[..n] + [s[n]];
      forall y | y in r ensures less(s[n], y) || less(y, s[n]) {
        assert y in s[..n];
      }
      r := Insert(less, r, s[n]);
    }
    assert s[..|s|] == s;
  }

  // ---------- the same elements in another order ----------

  /** One element taken out of each of two such lists. */
  lemma OneFewer<T>(a: seq<T>, b: seq<T>, k: nat)
    requires multiset(a) == multiset(b) && a != [] && k < |b| && b[k] == a[|a| - 1]
    ensures multiset(a[..|a| - 1]) == multiset(b[..k] + b[k + 1..])
  {
    var init, x := a[..|a| - 1], a[|a| - 1];
    assert a == init + [x] && b == b[..k] + [x] + b[k + 1..];
    assert multiset(a) == multiset(init) + multiset{x};
    assert multiset(b) == multiset(b[..k] + b[k + 1..]) + multiset{x};
    Cancel(multiset(init), multiset(b[..k] + b[k + 1..]), multiset{x});
  }

  lemma Cancel<T>(a: multiset<T>, b: multiset<T>, x: multiset<T>)
    requires a + x == b + x
    ensures a == b
  {
    assert a == a + x - x && b == b + x - x;
  }

  ghost predicate Distinct<T>(s: seq<T>) {
    forall i, j :: 0 <= i < j < |s| ==> s[i] != s[j]
  }

  lemma {:induction false} DistinctOnce<T>(s: seq<T>, x: T)
    requires Distinct(s)
    ensures multiset(s)[x] <= 1
  {
    if s != [] {
      var n := |s| - 1;
      assert s == s[..n] + [s[n]];
      DistinctOnce(s[..n], x);
    }
  }

  lemma TwiceCounts<T>(s: seq<T>, i: nat, j: nat)
    requires i < j < |s| && s[i] == s[j]
    ensures multiset(s)[s[i]] >= 2
  {
    assert s == s[..j] + s[j..];
    assert s[..j][i] in multiset(s[..j]) && s[j..][0] in multiset(s[j..]);
  }

  /** A list without repetitions has none in another order. */
  lemma DistinctStays<T>(a: seq<T>, b: seq<T>)
    requires Distinct(a) && multiset(a) == multiset(b)
    ensures Distinct(b)
  {
    forall i, j | 0 <= i < j < |b| ensures b[i] != b[j] {
      DistinctOnce(a, b[i]);
      if b[i] == b[j] {
        TwiceCounts(b, i, j);
      }
    }
  }

  // ---------- sorting with ties ----------

  ghost predicate WeakOrder<T(!new)>(less: (T, T) -> bool) {
    && (forall x :: !less(x, x))
    && (forall x, y, z :: less(x, y) && less(y, z) ==> less(x, z))
    && (forall x, y, z :: less(x, y) ==> less(x, z) || less(z, y))
  }

  ghost predicate WeaklySorted<T>(less: (T, T) -> bool, s: seq<T>) {
    forall i, j :: 0 <= i < j < |s| ==> !less(s[j], s[i])
  }

  /** Stands for the library's sort where elements may tie: their order is not told. */
  method Arrange<T(!new)>(less: (T, T) -> bool, s: seq<T>) returns (r: seq<T>)
    requires WeakOrder(less)
    ensures WeaklySorted(less, r) && multiset(r) == multiset(s)
  {
    r := [];
    for n := 0 to |s|
      invariant WeaklySorted(less, r) && multiset(r) == multiset(s[..n])
    {
      assert s[..n + 1] == s[..n] + [s[n]];
      r := InsertWeakly(less, r, s[n]);
    }
    assert s[..|s|] == s;
  }

  method InsertWeakly<T(!new)>(less: (T, T) -> bool, s: seq<T>, x: T) returns (r: seq<T>)
    requires WeakOrder(less) && WeaklySorted(less, s)
    ensures WeaklySorted(less, r) && multiset(r) == multiset(s) + multiset{x}
  {
    var k := 0;
    while k < |s| && !less(x, s[k])
      invariant k <= |s|
      invariant forall i :: 0 <= i < k ==> !less(x, s[i])
    {
      k := k + 1;
    }
    r := s[..k] + [x] + s[k..];
    assert s == s[..k] + s[k..];
    forall i | k <= i < |s| ensures !less(s[i], x) {
      assert i > k ==> !less(s[i], s[k]);
    }
    InsertedIsWeaklySorted(less, s, k, x);
  }

  lemma InsertedIsWeaklySorted<T>(less: (T, T) -> bool, s: seq<T>, k: nat, x: T)
    requires k <= |s| && WeaklySorted(less, s)
    requires forall i :: 0 <= i < k ==> !less(x, s[i])
    requires forall i :: k <= i < |s| ==> !less(s[i], x)
    ensures WeaklySorted(less, s[..k] + [x] + s[k..])
  {
  }

  // ---------- strings in byte order ----------

  /** The order of the host language's `<` on strings. */
  predicate StringLess(a: string, b: string) {
    b != "" && (a == "" || a[0] < b[0] || (a[0] == b[0] && StringLess(a[1..], b[1..])))
  }

  lemma {:induction false} StringLessTotal(a: string, b: string)
    ensures a == b || StringLess(a, b) || StringLess(b, a)
  {
    if a != "" && b != "" && a[0] == b[0] {
      StringLessTotal(a[1..], b[1..]);
      assert a == [a[0]] + a[1..] && b == [b[0]] + b[1..];
    }
  }

  lemma {:induction false} StringLessIrreflexive(a: string)
    ensures !StringLess(a, a)
  {
    if a != "" {
      StringLessIrreflexive(a[1..]);
    }
  }

  lemma {:induction false} StringLessTransitive(a: string, b: string, c: string)
    requires StringLess(a, b) && StringLess(b, c)
    ensures StringLess(a, c)
  {
    if a != "" && a[0] == b[0] == c[0] {
      StringLessTransitive(a[1..], b[1..], c[1..]);
    }
  }

  lemma StringOrder()
    ensures StrictOrder(StringLess)
    ensures forall a, b :: a == b || StringLess(a, b) || StringLess(b, a)
  {
    forall a { StringLessIrreflexive(a); }
    forall a, b, c | StringLess(a, b) && StringLess(b, c) ensures StringLess(a, c) {
      StringLessTransitive(a, b, c);
    }
    forall a, b ensures a == b || StringLess(a, b) || StringLess(b, a) { StringLessTotal(a, b); }
  }
}
