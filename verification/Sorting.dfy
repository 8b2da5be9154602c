/** Sorting by a strict partial order, and when its result is determined. */
module Sorting {

  ghost predicate IsStrictOrder<T(!new)>(less: (T, T) -> bool) {
    && (forall x :: !less(x, x))
    && (forall x, y, z :: less(x, y) && less(y, z) ==> less(x, z))
  }

  /** No element comes after one that it is less than. */
  ghost predicate NoInversion<T(!new)>(s: seq<T>, less: (T, T) -> bool) {
    forall i, j | 0 <= i < j < |s| :: !less(s[j], s[i])
  }

  /** `r` is a way to sort the list `s`. */
  ghost predicate IsSorting<T(!new)>(r: seq<T>, s: seq<T>, less: (T, T) -> bool) {
    multiset(r) == multiset(s) && NoInversion(r, less)
  }

  ghost predicate AllComparable<T(!new)>(s: seq<T>, less: (T, T) -> bool) {
    forall x, y | x in s && y in s && x != y :: less(x, y) || less(y, x)
  }

  /** The place after the last element that is less than `x`. */
  function Place<T>(s: seq<T>, x: T, less: (T, T) -> bool): (k: nat)
    ensures k <= |s| && (k > 0 ==> less(s[k - 1], x))
    ensures forall j | k <= j < |s| :: !less(s[j], x)
  {
    if s == [] || less(s[|s| - 1], x) then |s| else Place(s[..|s| - 1], x, less)
  }

  function InsertInto<T>(s: seq<T>, x: T, less: (T, T) -> bool): seq<T> {
    var k := Place(s, x, less);
    s[..k] + [x] + s[k..]
  }

  lemma InsertElements<T>(s: seq<T>, x: T, k: nat)
    requires k <= |s|
    ensures multiset(s[..k] + [x] + s[k..]) == multiset(s) + multiset{x}
  {
    assert s == s[..k] + s[k..];
  }

  lemma InsertAt<T(!new)>(s: seq<T>, x: T, less: (T, T) -> bool, k: nat)
    requires IsStrictOrder(less) && NoInversion(s, less) && k <= |s|
    requires (k > 0 ==> less(s[k - 1], x)) && forall j | k <= j < |s| :: !less(s[j], x)
    ensures NoInversion(s[..k] + [x] + s[k..], less)
  {
    var r := s[..k] + [x] + s[k..];
    forall i | 0 <= i < k ensures !less(x, s[i]) {
      assert i == k - 1 || !less(s[k - 1], s[i]);
    }
    forall i, j | 0 <= i < j < |r| ensures !less(r[j], r[i]) {
      if i != k && j != k {
        assert r[i] == s[if i < k then i else i - 1] && r[j] == s[if j < k then j else j - 1];
      }
    }
  }

  lemma InsertKeepsSorted<T(!new)>(s: seq<T>, x: T, less: (T, T) -> bool)
    requires IsStrictOrder(less) && NoInversion(s, less)
    ensures NoInversion(InsertInto(s, x, less), less)
    ensures multiset(InsertInto(s, x, less)) == multiset(s) + multiset{x}
  {
    InsertElements(s, x, Place(s, x, less));
    InsertAt(s, x, less, Place(s, x, less));
  }

  function SortAll<T>(s: seq<T>, less: (T, T) -> bool): seq<T> {
    if s == [] then [] else InsertInto(SortAll(s[..|s| - 1], less), s[|s| - 1], less)
  }

  lemma {:induction false} SortAllSorts<T(!new)>(s: seq<T>, less: (T, T) -> bool)
    requires IsStrictOrder(less)
    ensures IsSorting(SortAll(s, less), s, less)
    decreases |s|
  {
    if s != [] {
      var front, x := s[..|s| - 1], s[|s| - 1];
      SortAllSorts(front, less);
      assert s == front + [x];
      InsertKeepsSorted(SortAll(front, less), x, less);
    }
  }

  /** `list.sort`, which only asks whether one element is less than another. */
  method Sort<T(!new)>(s: seq<T>, less: (T, T) -> bool) returns (r: seq<T>)
    requires IsStrictOrder(less)
    ensures IsSorting(r, s, less)
  {
    r := [];
    for i := 0 to |s|
      invariant r == SortAll(s[..i], less)
    {
      assert s[..i + 1][..i] == s[..i];
      r := InsertInto(r, s[i], less);
    }
    assert s[..|s|] == s;
    SortAllSorts(s, less);
  }

  // --- When the result is determined ---

  lemma SameMembers<T>(a: seq<T>, b: seq<T>, x: T)
    requires multiset(a) == multiset(b) && x in a
    ensures x in b
  {
    assert x in multiset(a);
  }

  lemma HeadIsLeast<T(!new)>(a: seq<T>, x: T, less: (T, T) -> bool)
    requires NoInversion(a, less) && x in a && x != a[0]
    ensures !less(x, a[0])
  {
    var j :| 0 <= j < |a| && a[j] == x;
  }

  lemma SameHead<T(!new)>(a: seq<T>, b: seq<T>, less: (T, T) -> bool)
    requires multiset(a) == multiset(b) && NoInversion(a, less) && NoInversion(b, less) && AllComparable(a, less)
    requires a != [] && b != []
    ensures a[0] == b[0]
  {
    SameMembers(a, b, a[0]);
    SameMembers(b, a, b[0]);
    if a[0] != b[0] {
      HeadIsLeast(b, a[0], less);
      HeadIsLeast(a, b[0], less);
      assert false;
    }
  }

  lemma SameTail<T>(a: seq<T>, b: seq<T>)
    requires a != [] && b != [] && a[0] == b[0] && multiset(a) == multiset(b)
    ensures multiset(a[1..]) == multiset(b[1..])
  {
    assert a == [a[0]] + a[1..] && b == [b[0]] + b[1..];
    assert multiset(a[1..]) == multiset(a) - multiset{a[0]};
  }

  lemma {:induction false} UniqueWhenComparable<T(!new)>(a: seq<T>, b: seq<T>, less: (T, T) -> bool)
    requires multiset(a) == multiset(b) && NoInversion(a, less) && NoInversion(b, less) && AllComparable(a, less)
    ensures a == b
    decreases |a|
  {
    assert |a| == |multiset(a)| == |multiset(b)| == |b|;
    if a != [] {
      SameHead(a, b, less);
      SameTail(a, b);
      assert forall x | x in a[1..] :: x in a;
      UniqueWhenComparable(a[1..], b[1..], less);
      assert a == [a[0]] + a[1..] && b == [b[0]] + b[1..];
    }
  }

  predicate AtMost<T(==)>(x: T, y: T, less: (T, T) -> bool) { x == y || less(x, y) }

  lemma {:induction false} ChainFrom<T(!new)>(r: seq<T>, less: (T, T) -> bool, i: nat, j: nat)
    requires IsStrictOrder(less) && i <= j < |r| && forall k | 0 <= k < |r| - 1 :: AtMost(r[k], r[k + 1], less)
    ensures AtMost(r[i], r[j], less)
    decreases j
  {
    if i < j {
      ChainFrom(r, less, i, j - 1);
      assert AtMost(r[j - 1], r[j - 1 + 1], less);
    }
  }

  lemma ComparableWhenChained<T(!new)>(r: seq<T>, s: seq<T>, less: (T, T) -> bool)
    requires IsStrictOrder(less) && multiset(r) == multiset(s)
    requires forall k | 0 <= k < |r| - 1 :: AtMost(r[k], r[k + 1], less)
    ensures AllComparable(s, less)
  {
    forall x, y | x in s && y in s && x != y ensures less(x, y) || less(y, x) {
      SameMembers(s, r, x);
      SameMembers(s, r, y);
      var i :| 0 <= i < |r| && r[i] == x;
      var j :| 0 <= j < |r| && r[j] == y;
      if i < j { ChainFrom(r, less, i, j); } else { ChainFrom(r, less, j, i); }
    }
  }

  lemma SwappedElements<T>(r: seq<T>, k: nat)
    requires k + 1 < |r|
    ensures multiset(r[..k] + [r[k + 1], r[k]] + r[k + 2..]) == multiset(r)
  {
    var a, b := r[..k], r[k + 2..];
    assert r == a + [r[k], r[k + 1]] + b;
    assert multiset(a + [r[k + 1], r[k]] + b) == multiset(a) + multiset{r[k + 1], r[k]} + multiset(b);
    assert multiset(a + [r[k], r[k + 1]] + b) == multiset(a) + multiset{r[k], r[k + 1]} + multiset(b);
  }

  lemma SwapNeighbours<T(!new)>(r: seq<T>, s: seq<T>, less: (T, T) -> bool, k: nat)
    requires IsSorting(r, s, less) && k + 1 < |r| && !less(r[k], r[k + 1])
    ensures IsSorting(r[..k] + [r[k + 1], r[k]] + r[k + 2..], s, less)
  {
    var t := r[..k] + [r[k + 1], r[k]] + r[k + 2..];
    SwappedElements(r, k);
    forall i, j | 0 <= i < j < |t| ensures !less(t[j], t[i]) {
      assert t[i] == r[if i == k then k + 1 else if i == k + 1 then k else i];
      assert t[j] == r[if j == k then k + 1 else if j == k + 1 then k else j];
    }
  }

  lemma TwoSortings<T(!new)>(s: seq<T>, less: (T, T) -> bool) returns (r1: seq<T>, r2: seq<T>)
    requires IsStrictOrder(less) && !AllComparable(s, less)
    ensures IsSorting(r1, s, less) && IsSorting(r2, s, less) && r1 != r2
  {
    r1 := SortAll(s, less);
    SortAllSorts(s, less);
    if forall k | 0 <= k < |r1| - 1 :: AtMost(r1[k], r1[k + 1], less) {
      ComparableWhenChained(r1, s, less);
      assert false;
    }
    var k :| 0 <= k < |r1| - 1 && !AtMost(r1[k], r1[k + 1], less);
    SwapNeighbours(r1, s, less, k);
    r2 := r1[..k] + [r1[k + 1], r1[k]] + r1[k + 2..];
    assert r2[k] == r1[k + 1];
  }

  /** A list has one way to be sorted exactly when its elements are comparable to each other. */
  lemma OneSortingExactly<T(!new)>(s: seq<T>, less: (T, T) -> bool)
    requires IsStrictOrder(less)
    ensures (forall r1, r2 | IsSorting(r1, s, less) && IsSorting(r2, s, less) :: r1 == r2) <==> AllComparable(s, less)
  {
    if AllComparable(s, less) {
      forall r1, r2 | IsSorting(r1, s, less) && IsSorting(r2, s, less) ensures r1 == r2 {
        forall x | x in r1 ensures x in s { SameMembers(r1, s, x); }
        UniqueWhenComparable(r1, r2, less);
      }
    } else {
      var r1, r2 := TwoSortings(s, less);
    }
  }
}
