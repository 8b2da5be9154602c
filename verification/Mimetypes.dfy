/** The order of mimetype entries in the cloudooo configuration. */
module Mimetypes {
  import opened Paths
  import opened Sorting

  /** `compareMimetypeEntryPair`: after the loop, `i` is the last index that was compared. */
  method CompareEntries(a: string, b: string) returns (r: int)
    ensures r == Compare(a, b)
  {
    var n := Min(|a|, |b|);
    var i := 0;
    for j := 0 to n
      invariant a[..j] == b[..j]
      invariant i == if j == 0 then 0 else j - 1
    {
      i := j;
      if a[i] != b[i] {
        CommonPrefixIs(a, b, i);
        if a[i] == '*' { return 1; }
        if b[i] == '*' { return -1; }
        if a[i] < b[i] { return -1; }
        if a[i] > b[i] { return 1; }
        return 0;
      }
      assert a[..j + 1] == b[..j + 1];
    }
    CommonPrefixIs(a, b, n);
    if i < |a| { return 1; }
    if i < |b| { return -1; }
    return 0;
  }

  /** What it computes, from the length of the common prefix. */
  function Compare(a: string, b: string): int {
    var n := CommonPrefix(a, b);
    if n < |a| && n < |b| then (if CharLess(a[n], b[n]) then -1 else 1)
    else if a == "" && b == "" then 0
    else if a == "" then -1
    else 1
  }

  /** Code point order, with the star after every other character. */
  predicate CharLess(x: char, y: char) { x != '*' && (y == '*' || x < y) }

  /** What sorting asks: `compare(a, b) < 0`. */
  predicate EntryLess(a: string, b: string) { Compare(a, b) < 0 }

  lemma EntryLessTransitive(a: string, b: string, c: string)
    requires EntryLess(a, b) && EntryLess(b, c)
    ensures EntryLess(a, c)
  {
    var n, m := CommonPrefix(a, b), CommonPrefix(b, c);
    if a != "" {
      var k := Min(n, m);
      assert a[..k] == a[..n][..k] && c[..k] == c[..m][..k] && b[..k] == b[..n][..k] == b[..m][..k];
      if n < m { assert b[n] == b[..m][n] == c[..m][n] == c[n]; }
      if m < n { assert b[m] == b[..n][m] == a[..n][m] == a[m]; }
      CommonPrefixIs(a, c, k);
    }
  }

  lemma EntryLessIsStrictOrder()
    ensures IsStrictOrder(EntryLess)
  {
    forall x ensures !EntryLess(x, x) { CommonPrefixIs(x, x, |x|); }
    forall x, y, z | EntryLess(x, y) && EntryLess(y, z) ensures EntryLess(x, z) {
      EntryLessTransitive(x, y, z);
    }
  }

  /** Neither is the start of the other. */
  predicate PrefixFree(a: string, b: string) { !(a <= b) && !(b <= a) }

  /** Two entries are ordered exactly when one is empty or neither starts with the other; an
      entry and its own beginning are each reported greater than the other. */
  lemma ComparableExactly(a: string, b: string)
    requires a != b
    ensures EntryLess(a, b) || EntryLess(b, a) <==> a == "" || b == "" || PrefixFree(a, b)
  {
    var n := CommonPrefix(a, b);
    CommonPrefixIs(b, a, n);
    assert n == |a| ==> a == a[..n] && a <= b;
    assert n == |b| ==> b == b[..n] && b <= a;
  }

  /** The sorted list does not depend on the order of entries in the input exactly when no
      entry is a proper start of another; the same entry may come several times. */
  lemma OneOrderExactly(entries: seq<string>)
    requires "" !in entries
    ensures (forall r1, r2 | IsSorting(r1, entries, EntryLess) && IsSorting(r2, entries, EntryLess) :: r1 == r2)
       <==> forall x, y | x in entries && y in entries && x != y :: PrefixFree(x, y)
  {
    EntryLessIsStrictOrder();
    OneSortingExactly(entries, EntryLess);
    forall x, y | x in entries && y in entries && x != y
      ensures EntryLess(x, y) || EntryLess(y, x) <==> PrefixFree(x, y)
    {
      ComparableExactly(x, y);
    }
  }

  /** In the sorted list an entry comes before every entry that first differs from it by having
      a star there: a more specific mimetype is tried first. */
  lemma StarsComeLater(entries: seq<string>, sorted: seq<string>, i: nat, j: nat, n: nat)
    requires IsSorting(sorted, entries, EntryLess) && i < |sorted| && j < |sorted|
    requires n < |sorted[i]| && n < |sorted[j]| && sorted[i][..n] == sorted[j][..n]
    requires sorted[i][n] != '*' && sorted[j][n] == '*'
    ensures i < j
  {
    CommonPrefixIs(sorted[i], sorted[j], n);
    assert EntryLess(sorted[i], sorted[j]);
  }

  /** The sort in `install`, where the order is total. */
  method SortEntries(entries: seq<string>) returns (sorted: seq<string>)
    requires forall x, y | x in entries && y in entries && x != y :: PrefixFree(x, y)
    ensures IsSorting(sorted, entries, EntryLess)
  {
    EntryLessIsStrictOrder();
    sorted := Sort(entries, EntryLess);
  }

  /** The first difference decides: an entry comes first there if its character is not a star and the
      other one is, or if neither is and it has the smaller code point. */
  lemma FirstDifferenceDecides(a: string, b: string, i: nat)
    requires i < |a| && i < |b| && a[..i] == b[..i] && a[i] != b[i]
    ensures Compare(a, b) == -1 || Compare(a, b) == 1
    ensures Compare(a, b) == -1 <==> a[i] != '*' && (b[i] == '*' || (a[i] as int) < (b[i] as int))
    ensures Compare(a, b) == -Compare(b, a)
  {
    CommonPrefixIs(a, b, i);
    CommonPrefixIs(b, a, i);
  }

  /** Of an entry and its own start, whichever comes first is reported greater, except that the
      empty entry comes before every other one. */
  lemma NestedEntries(a: string, b: string)
    requires a <= b || b <= a
    ensures Compare(a, b) == if a == "" && b == "" then 0 else if a == "" then -1 else 1
  {
    CommonPrefixIs(a, b, Min(|a|, |b|));
  }
}
