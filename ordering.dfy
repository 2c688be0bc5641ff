/**
 * The orders the checker sorts by: Go's `sort.Strings` (byte-wise string
 * order) and `sort.Slice` with a caller-supplied order. The library sort is
 * stood in for by an insertion sort, which is all the model needs of it: a
 * permutation of its input that is sorted.
 */
module Ordering {

  /** Go's `<` on strings: the first differing character decides, and a proper
    * prefix is smaller. */
  predicate StrLess(a: string, b: string)
    decreases |a|
  {
    if |a| == 0 then |b| > 0
    else if |b| == 0 then false
    else a[0] < b[0] || (a[0] == b[0] && StrLess(a[1..], b[1..]))
  }

  /** The non-strict order `sort.Strings` leaves between neighbours. */
  predicate StrLe(a: string, b: string) {
    !StrLess(b, a)
  }

  lemma {:induction false} StrLessIrreflexive(a: string)
    ensures !StrLess(a, a)
  {
    if |a| > 0 {
      StrLessIrreflexive(a[1..]);
    }
  }

  /** Any two strings are equal or ordered one way, never both ways. */
  lemma {:induction false} StrLessTrichotomy(a: string, b: string)
    ensures a == b || StrLess(a, b) || StrLess(b, a)
    ensures !(StrLess(a, b) && StrLess(b, a))
  {
    if |a| > 0 && |b| > 0 {
      StrLessTrichotomy(a[1..], b[1..]);
      if a[0] == b[0] && a[1..] == b[1..] {
        assert a == [a[0]] + a[1..] && b == [b[0]] + b[1..];
      }
    }
  }

  lemma {:induction false} StrLessTransitive(a: string, b: string, c: string)
    requires StrLess(a, b) && StrLess(b, c)
    ensures StrLess(a, c)
  {
    if |a| > 0 && |b| > 0 && |c| > 0 && a[0] == b[0] && b[0] == c[0] {
      StrLessTransitive(a[1..], b[1..], c[1..]);
    }
  }

  /** Inserts `x` before the first element it is ordered before. */
  function Insert<T>(x: T, s: seq<T>, le: (T, T) -> bool): (r: seq<T>)
    ensures multiset(r) == multiset(s) + multiset{x}
    ensures |r| == |s| + 1
  {
    if |s| == 0 || le(x, s[0]) then [x] + s
    else
      assert s == [s[0]] + s[1..];
      [s[0]] + Insert(x, s[1..], le)
  }

  /** Insertion sort: a permutation of `s`. */
  function SortBy<T>(s: seq<T>, le: (T, T) -> bool): (r: seq<T>)
    ensures multiset(r) == multiset(s)
    ensures |r| == |s|
  {
    if |s| == 0 then []
    else
      assert s == s[..|s| - 1] + [s[|s| - 1]];
      Insert(s[|s| - 1], SortBy(s[..|s| - 1], le), le)
  }

  lemma InsertElems<T>(x: T, s: seq<T>, le: (T, T) -> bool)
    ensures forall y :: y in Insert(x, s, le) <==> y == x || y in s
  {
    var r := Insert(x, s, le);
    forall y ensures y in r <==> y == x || y in s {
      assert y in r <==> y in multiset(r);
      assert y in s <==> y in multiset(s);
    }
  }

  lemma SortByElems<T>(s: seq<T>, le: (T, T) -> bool)
    ensures forall y :: y in SortBy(s, le) <==> y in s
  {
    var r := SortBy(s, le);
    forall y ensures y in r <==> y in s {
      assert y in r <==> y in multiset(r);
      assert y in s <==> y in multiset(s);
    }
  }

  /** Every element is ordered before its successor. */
  predicate AdjSorted<T>(s: seq<T>, le: (T, T) -> bool) {
    forall i :: 0 < i < |s| ==> le(s[i - 1], s[i])
  }

  /** `le` orders every pair of elements of `s` one way or the other. */
  ghost predicate TotalOn<T>(s: seq<T>, le: (T, T) -> bool) {
    forall a, b :: a in s && b in s ==> le(a, b) || le(b, a)
  }

  ghost predicate Distinct<T>(s: seq<T>) {
    forall i, j :: 0 <= i < j < |s| ==> s[i] != s[j]
  }

  lemma {:induction false} InsertAdjSorted<T>(x: T, s: seq<T>, le: (T, T) -> bool)
    requires AdjSorted(s, le) && TotalOn([x] + s, le)
    ensures AdjSorted(Insert(x, s, le), le)
  {
    if |s| > 0 && !le(x, s[0]) {
      assert s[0] in [x] + s;
      assert le(s[0], x);
      assert TotalOn([x] + s[1..], le) by {
        forall a | a in [x] + s[1..] ensures a in [x] + s {
          if a != x { assert a in s[1..]; }
        }
      }
      InsertAdjSorted(x, s[1..], le);
      var r := Insert(x, s[1..], le);
      assert r[0] == x || r[0] == s[1];
    }
  }

  /** With an order that is total on its elements, the sort's output is sorted. */
  lemma {:induction false} SortByAdjSorted<T>(s: seq<T>, le: (T, T) -> bool)
    requires TotalOn(s, le)
    ensures AdjSorted(SortBy(s, le), le)
  {
    if |s| > 0 {
      var init, x := s[..|s| - 1], s[|s| - 1];
      assert forall a :: a in init ==> a in s;
      SortByAdjSorted(init, le);
      SortByElems(init, le);
      forall a | a in [x] + SortBy(init, le) ensures a in s {
        if a != x {
          assert a in multiset(SortBy(init, le));
          assert a in multiset(init);
        }
      }
      InsertAdjSorted(x, SortBy(init, le), le);
    }
  }

  lemma {:induction false} InsertDistinct<T>(x: T, s: seq<T>, le: (T, T) -> bool)
    requires Distinct(s) && x !in s
    ensures Distinct(Insert(x, s, le))
  {
    if |s| > 0 && !le(x, s[0]) {
      InsertDistinct(x, s[1..], le);
      InsertElems(x, s[1..], le);
      assert s[0] !in s[1..] by {
        forall k | 0 <= k < |s| - 1 ensures s[1..][k] != s[0] { assert s[k + 1] != s[0]; }
      }
    }
  }

  /** The sort keeps the elements of a duplicate-free sequence distinct. */
  lemma {:induction false} SortByDistinct<T>(s: seq<T>, le: (T, T) -> bool)
    requires Distinct(s)
    ensures Distinct(SortBy(s, le))
  {
    if |s| > 0 {
      var init, x := s[..|s| - 1], s[|s| - 1];
      SortByDistinct(init, le);
      assert x !in init by {
        forall k | 0 <= k < |init| ensures init[k] != x { assert s[k] != s[|s| - 1]; }
      }
      SortByElems(init, le);
      InsertDistinct(x, SortBy(init, le), le);
    }
  }

  /** Every element is strictly smaller than every later one. */
  predicate Increasing(s: seq<string>) {
    forall i, j :: 0 <= i < j < |s| ==> StrLess(s[i], s[j])
  }

  /** Neighbours in string order and no duplicates make a strictly increasing sequence. */
  lemma {:induction false} AdjSortedIncreasing(s: seq<string>)
    requires AdjSorted(s, StrLe) && Distinct(s)
    ensures Increasing(s)
  {
    if |s| > 1 {
      var init := s[..|s| - 1];
      AdjSortedIncreasing(init);
      var n := |s| - 1;
      StrLessTrichotomy(s[n - 1], s[n]);
      forall i, j | 0 <= i < j < |s| ensures StrLess(s[i], s[j]) {
        if j == n && i < n - 1 {
          assert StrLess(init[i], init[n - 1]);
          StrLessTransitive(s[i], s[n - 1], s[n]);
        } else if j < n {
          assert StrLess(init[i], init[j]);
        }
      }
    }
  }

  /** `m` is a member of `s` that no member sorts below. */
  predicate IsLeast(s: set<string>, m: string) {
    m in s && forall y :: y in s ==> !StrLess(y, m)
  }

  /** The smallest element of a non-empty set of strings. */
  lemma {:induction false} MinExists(s: set<string>)
    requires s != {}
    ensures exists m :: IsLeast(s, m)
    decreases |s|
  {
    var x :| x in s;
    if s == {x} {
      StrLessIrreflexive(x);
      assert IsLeast(s, x);
    } else {
      MinExists(s - {x});
      var m :| IsLeast(s - {x}, m);
      if StrLess(x, m) {
        forall y | y in s ensures !StrLess(y, x) {
          if y == x {
            StrLessIrreflexive(x);
          } else if StrLess(y, x) {
            StrLessTransitive(y, x, m);
          }
        }
        assert IsLeast(s, x);
      } else {
        assert IsLeast(s, m);
      }
    }
  }

  /** The elements of a set of strings in increasing order (the keys of a Go
    * map after `sort.Strings`). */
  ghost function SortedKeys(s: set<string>): (r: seq<string>)
    ensures Increasing(r)
    ensures forall x :: x in r <==> x in s
    decreases |s|
  {
    if s == {} then []
    else
      MinExists(s);
      var m :| IsLeast(s, m);
      var rest := SortedKeys(s - {m});
      assert forall j :: 0 <= j < |rest| ==> StrLess(m, rest[j]) by {
        forall j | 0 <= j < |rest| ensures StrLess(m, rest[j]) {
          assert rest[j] in rest;
          StrLessTrichotomy(m, rest[j]);
        }
      }
      [m] + rest
  }

  /** Two increasing sequences with the same elements are equal: sorting the
    * keys of a map gives one order whatever order they were collected in. */
  lemma {:induction false} IncreasingUnique(a: seq<string>, b: seq<string>)
    requires Increasing(a) && Increasing(b)
    requires forall x :: x in a <==> x in b
    ensures a == b
  {
    if |a| > 0 { assert a[0] in b; }
    if |b| > 0 { assert b[0] in a; }
    if |a| > 0 {
      FirstIsLeast(a, b[0]);
      FirstIsLeast(b, a[0]);
      StrLessTrichotomy(a[0], b[0]);
      assert a[0] == b[0];
      forall x ensures x in a[1..] <==> x in b[1..] {
        TailMembers(a, x);
        TailMembers(b, x);
      }
      IncreasingUnique(a[1..], b[1..]);
      assert a == [a[0]] + a[1..] && b == [b[0]] + b[1..];
    }
  }

  /** The first element of an increasing sequence is its least. */
  lemma FirstIsLeast(a: seq<string>, x: string)
    requires Increasing(a) && x in a
    ensures x == a[0] || StrLess(a[0], x)
  {
    var k :| 0 <= k < |a| && a[k] == x;
    if k > 0 {
      assert StrLess(a[0], a[k]);
    }
  }

  /** The tail of an increasing sequence holds every element but the first. */
  lemma TailMembers(a: seq<string>, x: string)
    requires Increasing(a) && |a| > 0
    ensures x in a[1..] <==> x in a && x != a[0]
  {
    if x in a[1..] {
      var k :| 0 <= k < |a| - 1 && a[1..][k] == x;
      assert StrLess(a[0], a[k + 1]);
      StrLessIrreflexive(x);
    }
    if x in a && x != a[0] {
      var k :| 0 <= k < |a| && a[k] == x;
      assert a[1..][k - 1] == x;
    }
  }

  /** Sorting the collected keys of a set gives its increasing enumeration. */
  lemma SortStringsIsSortedKeys(ks: seq<string>, s: set<string>)
    requires Distinct(ks) && forall x :: x in ks <==> x in s
    ensures SortBy(ks, StrLe) == SortedKeys(s)
  {
    assert TotalOn(ks, StrLe) by {
      forall a, b | a in ks && b in ks ensures StrLe(a, b) || StrLe(b, a) {
        StrLessTrichotomy(a, b);
      }
    }
    SortByAdjSorted(ks, StrLe);
    SortByDistinct(ks, StrLe);
    AdjSortedIncreasing(SortBy(ks, StrLe));
    SortByElems(ks, StrLe);
    IncreasingUnique(SortBy(ks, StrLe), SortedKeys(s));
  }
}
