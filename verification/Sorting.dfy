/** Library sorts: a stable sort by a comparator, and why the choice of algorithm does not show. */
module Sorting {

  /** What a comparator owes the library: equivalence aside, it orders everything. */
  ghost predicate IsStrictWeakOrder<T(!new)>(less: (T, T) -> bool) {
    && (forall x, y :: less(x, y) ==> !less(y, x))
    && (forall x, y, z :: less(x, y) && !less(z, y) ==> less(x, z))
  }

  predicate Sorted<T>(less: (T, T) -> bool, s: seq<T>) {
    forall i, j | 0 <= i < j < |s| :: !less(s[j], s[i])
  }

  /** Elements the comparator cannot tell apart are equal. */
  ghost predicate Separates<T>(less: (T, T) -> bool, s: seq<T>) {
    forall i, j | 0 <= i < |s| && 0 <= j < |s| :: s[i] == s[j] || less(s[i], s[j]) || less(s[j], s[i])
  }

  function Insert<T>(less: (T, T) -> bool, x: T, s: seq<T>): seq<T> {
    if s == [] || !less(s[0], x) then [x] + s else [s[0]] + Insert(less, x, s[1..])
  }

  function Sort<T>(less: (T, T) -> bool, s: seq<T>): seq<T> {
    if s == [] then [] else Insert(less, s[0], Sort(less, s[1..]))
  }

  lemma {:induction false} InsertMembers<T>(less: (T, T) -> bool, x: T, s: seq<T>)
    ensures multiset(Insert(less, x, s)) == multiset{x} + multiset(s)
    ensures forall y :: y in Insert(less, x, s) <==> y == x || y in s
    decreases |s|
  {
    if s != [] && less(s[0], x) {
      InsertMembers(less, x, s[1..]);
      assert s == [s[0]] + s[1..];
    }
  }

  lemma {:induction false} SortMembers<T>(less: (T, T) -> bool, s: seq<T>)
    ensures multiset(Sort(less, s)) == multiset(s) && |Sort(less, s)| == |s|
    decreases |s|
  {
    if s != [] {
      SortMembers(less, s[1..]);
      InsertMembers(less, s[0], Sort(less, s[1..]));
      assert s == [s[0]] + s[1..];
      assert |multiset(Sort(less, s))| == |multiset(s)|;
    }
  }

  lemma {:induction false} InsertKeepsSorted<T(!new)>(less: (T, T) -> bool, x: T, s: seq<T>)
    requires IsStrictWeakOrder(less) && Sorted(less, s)
    ensures Sorted(less, Insert(less, x, s))
    decreases |s|
  {
    if s == [] || !less(s[0], x) {
      forall j | 0 <= j < |s| ensures !less(s[j], x) {
        assert j > 0 ==> !less(s[j], s[0]);
      }
    } else {
      var rest := Insert(less, x, s[1..]);
      InsertKeepsSorted(less, x, s[1..]);
      InsertMembers(less, x, s[1..]);
      forall j | 0 <= j < |rest| ensures !less(rest[j], s[0]) {
        assert rest[j] in rest;
        if rest[j] != x {
          var k :| 0 <= k < |s[1..]| && s[1..][k] == rest[j];
          assert s[k + 1] == rest[j];
        }
      }
    }
  }

  lemma {:induction false} SortIsSorted<T(!new)>(less: (T, T) -> bool, s: seq<T>)
    requires IsStrictWeakOrder(less)
    ensures Sorted(less, Sort(less, s))
    decreases |s|
  {
    if s != [] {
      SortIsSorted(less, s[1..]);
      InsertKeepsSorted(less, s[0], Sort(less, s[1..]));
    }
  }

  /** Sorting what is sorted changes nothing. */
  lemma {:induction false} SortOfSorted<T>(less: (T, T) -> bool, s: seq<T>)
    requires Sorted(less, s)
    ensures Sort(less, s) == s
    decreases |s|
  {
    if s != [] {
      var rest := s[1..];
      assert s == [s[0]] + rest;
      SortOfSorted(less, rest);
      assert rest != [] ==> rest[0] == s[1] && !less(s[1], s[0]);
    }
  }

  lemma MultisetEqualMembers<T>(a: seq<T>, b: seq<T>, x: T)
    requires multiset(a) == multiset(b)
    ensures x in a <==> x in b
  {
    assert x in a <==> x in multiset(a);
    assert x in b <==> x in multiset(b);
  }

  lemma SameHead<T>(less: (T, T) -> bool, a: seq<T>, b: seq<T>)
    requires Sorted(less, a) && Sorted(less, b) && multiset(a) == multiset(b) && Separates(less, a)
    requires a != [] && b != []
    ensures a[0] == b[0]
  {
    MultisetEqualMembers(a, b, a[0]);
    MultisetEqualMembers(a, b, b[0]);
    var i :| 0 <= i < |b| && b[i] == a[0];
    var j :| 0 <= j < |a| && a[j] == b[0];
    assert i > 0 ==> !less(b[i], b[0]);
    assert j > 0 ==> !less(a[j], a[0]);
  }

  lemma TailSorted<T>(less: (T, T) -> bool, a: seq<T>)
    requires a != []
    ensures Sorted(less, a) ==> Sorted(less, a[1..])
    ensures Separates(less, a) ==> Separates(less, a[1..])
  {
  }

  lemma TailMembers<T>(a: seq<T>)
    requires a != []
    ensures multiset(a[1..]) == multiset(a) - multiset{a[0]}
  {
    assert a == [a[0]] + a[1..];
  }

  /** Elements and comparator fix the sorted order, so every correct sort gives the same list. */
  lemma {:induction false} SortedIsUnique<T>(less: (T, T) -> bool, a: seq<T>, b: seq<T>)
    requires Sorted(less, a) && Sorted(less, b) && multiset(a) == multiset(b) && Separates(less, a)
    ensures a == b
    decreases |a|
  {
    hide Sorted, Separates;
    assert |multiset(a)| == |a| && |multiset(b)| == |b|;
    if a != [] {
      SameHead(less, a, b);
      TailSorted(less, a);
      TailSorted(less, b);
      TailMembers(a);
      TailMembers(b);
      SortedIsUnique(less, a[1..], b[1..]);
      assert a == [a[0]] + a[1..] && b == [b[0]] + b[1..];
    }
  }

  /** Hence sorting forgets the order of its input. */
  lemma SortIgnoresOrder<T(!new)>(less: (T, T) -> bool, a: seq<T>, b: seq<T>)
    requires IsStrictWeakOrder(less) && multiset(a) == multiset(b) && Separates(less, a)
    ensures Sort(less, a) == Sort(less, b)
  {
    hide Sort, IsStrictWeakOrder;
    SortIsSorted(less, a);
    SortIsSorted(less, b);
    SortMembers(less, a);
    SortMembers(less, b);
    var s := Sort(less, a);
    forall i, j | 0 <= i < |s| && 0 <= j < |s| ensures s[i] == s[j] || less(s[i], s[j]) || less(s[j], s[i]) {
      MultisetEqualMembers(s, a, s[i]);
      MultisetEqualMembers(s, a, s[j]);
      assert s[i] in s && s[j] in s;
      var k :| 0 <= k < |a| && a[k] == s[i];
      var l :| 0 <= l < |a| && a[l] == s[j];
      assert a[k] == a[l] || less(a[k], a[l]) || less(a[l], a[k]);
    }
    SortedIsUnique(less, s, Sort(less, b));
  }

  // ----- distinct keys ------------------------------------------------------

  predicate DistinctKeys<T, K(==)>(key: T -> K, s: seq<T>) {
    forall i, j | 0 <= i < j < |s| :: key(s[i]) != key(s[j])
  }

  lemma DistinctCons<T, K>(key: T -> K, x: T, s: seq<T>)
    ensures DistinctKeys(key, [x] + s) <==> DistinctKeys(key, s) && forall y | y in s :: key(y) != key(x)
  {
    var t := [x] + s;
    if DistinctKeys(key, t) {
      forall i, j | 0 <= i < j < |s| ensures key(s[i]) != key(s[j]) {
        assert key(t[i + 1]) != key(t[j + 1]);
      }
      forall i | 0 <= i < |s| ensures key(s[i]) != key(x) {
        assert key(t[0]) != key(t[i + 1]);
      }
    }
    if DistinctKeys(key, s) && forall y | y in s :: key(y) != key(x) {
      forall i, j | 0 <= i < j < |t| ensures key(t[i]) != key(t[j]) {
        if i > 0 {
          assert key(s[i - 1]) != key(s[j - 1]);
        } else {
          assert s[j - 1] in s;
        }
      }
    }
  }

  lemma {:induction false} InsertKeepsDistinct<T(!new), K>(less: (T, T) -> bool, key: T -> K, x: T, s: seq<T>)
    requires DistinctKeys(key, s) && forall y | y in s :: key(y) != key(x)
    ensures DistinctKeys(key, Insert(less, x, s))
    decreases |s|
  {
    hide DistinctKeys;
    if s == [] || !less(s[0], x) {
      DistinctCons(key, x, s);
    } else {
      assert s == [s[0]] + s[1..];
      DistinctCons(key, s[0], s[1..]);
      InsertKeepsDistinct(less, key, x, s[1..]);
      InsertMembers(less, x, s[1..]);
      var rest := Insert(less, x, s[1..]);
      forall y | y in rest ensures key(y) != key(s[0]) {
        assert s[0] in s && (y == x || y in s[1..]);
      }
      DistinctCons(key, s[0], rest);
      assert Insert(less, x, s) == [s[0]] + rest;
    }
  }

  lemma {:induction false} SortKeepsDistinct<T(!new), K>(less: (T, T) -> bool, key: T -> K, s: seq<T>)
    requires DistinctKeys(key, s)
    ensures DistinctKeys(key, Sort(less, s))
    decreases |s|
  {
    hide DistinctKeys;
    if s == [] {
      assert Sort(less, s) == s;
    } else {
      assert s == [s[0]] + s[1..];
      DistinctCons(key, s[0], s[1..]);
      SortKeepsDistinct(less, key, s[1..]);
      SortMembers(less, s[1..]);
      forall y | y in Sort(less, s[1..]) ensures key(y) != key(s[0]) {
        MultisetEqualMembers(Sort(less, s[1..]), s[1..], y);
      }
      InsertKeepsDistinct(less, key, s[0], Sort(less, s[1..]));
    }
  }
}
