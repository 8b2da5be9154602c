/** Python's order on strings, and `sorted` on the distinct keys of a dictionary. */
module Ordering {

  /** Code point order, as Python compares strings. */
  predicate Less(a: string, b: string) {
    if b == "" then false
    else if a == "" then true
    else if a[0] != b[0] then a[0] < b[0]
    else Less(a[1..], b[1..])
  }

  lemma {:induction false} LessTransitive(a: string, b: string, c: string)
    requires Less(a, b) && Less(b, c)
    ensures Less(a, c)
  {
    if a != "" && a[0] == b[0] == c[0] {
      LessTransitive(a[1..], b[1..], c[1..]);
    }
  }

  lemma {:induction false} LessTotal(a: string, b: string)
    ensures Less(a, b) || Less(b, a) || a == b
    ensures !(Less(a, b) && Less(b, a))
    ensures a == b ==> !Less(a, b)
  {
    if a != "" && b != "" && a[0] == b[0] {
      LessTotal(a[1..], b[1..]);
      assert a == [a[0]] + a[1..] && b == [b[0]] + b[1..];
    }
  }

  ghost predicate Ascending(s: seq<string>) {
    forall i, j | 0 <= i < j < |s| :: Less(s[i], s[j])
  }

  lemma AscendingUniqueHead(s: seq<string>, t: seq<string>)
    requires s != [] && forall x :: x in s <==> x in t
    ensures s[0] in t && t != []
  {
    assert s[0] in s;
  }

  /** An ascending listing is determined by its elements. */
  lemma {:induction false} AscendingUnique(s: seq<string>, t: seq<string>)
    requires Ascending(s) && Ascending(t)
    requires forall x :: x in s <==> x in t
    ensures s == t
  {
    if s == [] {
      assert t == [] by {
        if t != [] { AscendingUniqueHead(t, s); }
      }
    } else {
      assert s[0] in s && s[0] in t;
      assert t[0] in t && t[0] in s;
      LessTotal(s[0], t[0]);
      assert s[0] == t[0];
      forall x ensures x in s[1..] <==> x in t[1..] {
        LessTotal(s[0], s[0]);
        if x in s[1..] { assert x in s && x != s[0]; }
        if x in t[1..] { assert x in t && x != t[0]; }
      }
      AscendingUnique(s[1..], t[1..]);
    }
  }

  ghost predicate IsListing(s: seq<string>, keys: set<string>) {
    Ascending(s) && forall x :: x in s <==> x in keys
  }

  /** The position at which `k` enters the ascending list `s`. */
  method Insert(s: seq<string>, k: string) returns (r: seq<string>)
    requires Ascending(s) && k !in s
    ensures Ascending(r)
    ensures forall x :: x in r <==> x in s || x == k
  {
    var i := 0;
    while i < |s| && Less(s[i], k)
      invariant 0 <= i <= |s|
      invariant forall j | 0 <= j < i :: Less(s[j], k)
    {
      i := i + 1;
    }
    forall j | i <= j < |s| ensures Less(k, s[j]) {
      LessTotal(s[i], k);
      assert s[i] in s;
      if i < j { LessTransitive(k, s[i], s[j]); }
    }
    r := s[..i] + [k] + s[i..];
    assert forall x :: x in s <==> x in s[..i] || x in s[i..] by {
      assert s == s[..i] + s[i..];
    }
  }

  /** `sorted(keys)`. */
  method SortedKeys(keys: set<string>) returns (r: seq<string>)
    ensures IsListing(r, keys)
  {
    r := [];
    var left := keys;
    while left != {}
      invariant left <= keys
      invariant Ascending(r)
      invariant forall x :: x in r <==> x in keys - left
      decreases left
    {
      var k :| k in left;
      r := Insert(r, k);
      left := left - {k};
    }
  }

  /** `sorted` on a list, which may have duplicates. */
  function Sorted(s: seq<string>): (r: seq<string>)
    ensures |r| == |s|
  {
    if s == [] then [] else InsertSorted(Sorted(s[..|s| - 1]), s[|s| - 1])
  }

  function InsertSorted(s: seq<string>, k: string): (r: seq<string>)
    ensures |r| == |s| + 1
  {
    if s == [] || !Less(k, s[|s| - 1]) then s + [k] else InsertSorted(s[..|s| - 1], k) + [s[|s| - 1]]
  }

  lemma {:induction false} InsertSortedHas(s: seq<string>, k: string)
    ensures forall x :: x in InsertSorted(s, k) <==> x in s || x == k
    decreases |s|
  {
    if s != [] && Less(k, s[|s| - 1]) {
      InsertSortedHas(s[..|s| - 1], k);
      assert s == s[..|s| - 1] + [s[|s| - 1]];
    }
  }

  lemma {:induction false} SortedHas(s: seq<string>)
    ensures forall x :: x in Sorted(s) <==> x in s
    decreases |s|
  {
    if s != [] {
      SortedHas(s[..|s| - 1]);
      InsertSortedHas(Sorted(s[..|s| - 1]), s[|s| - 1]);
      assert s == s[..|s| - 1] + [s[|s| - 1]];
    }
  }

  /** ... and as often. */
  lemma {:induction false} SortedIsPermutation(s: seq<string>)
    ensures multiset(Sorted(s)) == multiset(s)
    decreases |s|
  {
    if s != [] {
      var front, last := s[..|s| - 1], s[|s| - 1];
      SortedIsPermutation(front);
      InsertSortedAdds(Sorted(front), last);
      assert s == front + [last];
    }
  }

  lemma {:induction false} InsertSortedAdds(s: seq<string>, k: string)
    ensures multiset(InsertSorted(s, k)) == multiset(s) + multiset{k}
    decreases |s|
  {
    if s != [] && Less(k, s[|s| - 1]) {
      InsertSortedAdds(s[..|s| - 1], k);
      assert s == s[..|s| - 1] + [s[|s| - 1]];
    }
  }

  ghost predicate NonDecreasing(s: seq<string>) {
    forall i, j | 0 <= i < j < |s| :: !Less(s[j], s[i])
  }

  lemma {:induction false} InsertSortedKeepsOrder(s: seq<string>, k: string)
    requires NonDecreasing(s)
    ensures NonDecreasing(InsertSorted(s, k))
    decreases |s|
  {
    if s == [] || !Less(k, s[|s| - 1]) {
      forall i | 0 <= i < |s| ensures !Less(k, s[i]) {
        if Less(k, s[i]) {
          LessTotal(s[i], s[|s| - 1]);
          if s[i] != s[|s| - 1] { LessTransitive(k, s[i], s[|s| - 1]); }
        }
      }
    } else {
      var front, last := s[..|s| - 1], s[|s| - 1];
      InsertSortedKeepsOrder(front, k);
      InsertSortedHas(front, k);
      forall i | 0 <= i < |InsertSorted(front, k)| ensures !Less(last, InsertSorted(front, k)[i]) {
        assert InsertSorted(front, k)[i] in InsertSorted(front, k);
        LessTotal(k, last);
      }
    }
  }

  lemma {:induction false} SortedIsOrdered(s: seq<string>)
    ensures NonDecreasing(Sorted(s))
    decreases |s|
  {
    if s != [] {
      SortedIsOrdered(s[..|s| - 1]);
      InsertSortedKeepsOrder(Sorted(s[..|s| - 1]), s[|s| - 1]);
    }
  }

  /** The strings differ first at `i`, where `a` has the smaller code point. */
  ghost predicate SmallerAt(a: string, b: string, i: nat) {
    i < |a| && i < |b| && a[..i] == b[..i] && (a[i] as int) < (b[i] as int)
  }

  lemma SmallerAtNext(x: char, a: string, b: string, i: nat)
    ensures SmallerAt([x] + a, [x] + b, i + 1) <==> SmallerAt(a, b, i)
    ensures !SmallerAt([x] + a, [x] + b, 0)
  {
    if i < |a| && i < |b| {
      assert ([x] + a)[..i + 1] == [x] + a[..i] && ([x] + b)[..i + 1] == [x] + b[..i];
      assert ([x] + a[..i])[1..] == a[..i] && ([x] + b[..i])[1..] == b[..i];
    }
  }

  lemma SameStart(a: string, b: string, i: nat)
    requires i <= |a| && i <= |b| && a[..i] == b[..i]
    ensures i > 0 ==> a[0] == b[0]
  {
    if i > 0 { assert a[0] == a[..i][0] && b[0] == b[..i][0]; }
  }

  lemma SmallerAtFirst(a: string, b: string)
    requires a != "" && b != "" && a[0] != b[0]
    ensures (exists i: nat :: SmallerAt(a, b, i)) <==> (a[0] as int) < (b[0] as int)
  {
    forall i: nat | SmallerAt(a, b, i) ensures i == 0 { SameStart(a, b, i); }
    if (a[0] as int) < (b[0] as int) { assert SmallerAt(a, b, 0); }
  }

  /** The order of Python's strings: a proper start comes first, and otherwise the first difference
      decides, by code point. */
  lemma {:induction false} LessExactly(a: string, b: string)
    ensures Less(a, b) <==> (a <= b && a != b) || exists i: nat :: SmallerAt(a, b, i)
  {
    if a != "" && b != "" {
      var x, y := a[1..], b[1..];
      assert a == [a[0]] + x && b == [b[0]] + y;
      if a[0] == b[0] {
        LessExactly(x, y);
        if i: nat :| SmallerAt(x, y, i) {
          SmallerAtNext(a[0], x, y, i);
          assert SmallerAt(a, b, i + 1);
        }
        if i: nat :| SmallerAt(a, b, i) {
          SmallerAtNext(a[0], x, y, if i > 0 then i - 1 else 0);
        }
      } else {
        SmallerAtFirst(a, b);
      }
    }
  }
}
