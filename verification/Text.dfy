/** Python string operations shared by the models. */
module Text {

  /** `sep.join(parts)`. */
  function Join(parts: seq<string>, sep: string): string {
    if |parts| == 0 then ""
    else if |parts| == 1 then parts[0]
    else parts[0] + sep + Join(parts[1..], sep)
  }

  /** `s.split(c)` for a one-character separator: never empty. */
  function Split(s: string, c: char): (parts: seq<string>)
    ensures |parts| >= 1
  {
    if s == "" then [""]
    else
      var rest := Split(s[1..], c);
      if s[0] == c then [""] + rest else [[s[0]] + rest[0]] + rest[1..]
  }

  // `str.lower` on ASCII letters.
  function LowerChar(c: char): char {
    if 'A' <= c <= 'Z' then (c as int + 32) as char else c
  }

  function Lower(s: string): string {
    seq(|s|, i requires 0 <= i < |s| => LowerChar(s[i]))
  }

  /** What `str.strip` and `str.split` take for white space. */
  predicate IsSpace(c: char) {
    var n := c as int;
    9 <= n <= 13 || 28 <= n <= 32 || n == 0x85 || n == 0xA0 || n == 0x1680 || 0x2000 <= n <= 0x200A
    || n == 0x2028 || n == 0x2029 || n == 0x202F || n == 0x205F || n == 0x3000
  }

  function LStrip(s: string): string {
    if s != "" && IsSpace(s[0]) then LStrip(s[1..]) else s
  }

  function RStrip(s: string): string {
    if s != "" && IsSpace(s[|s| - 1]) then RStrip(s[..|s| - 1]) else s
  }

  function Strip(s: string): string { RStrip(LStrip(s)) }

  lemma {:induction false} JoinAppend(parts: seq<string>, last: string, sep: string)
    requires parts != []
    ensures Join(parts + [last], sep) == Join(parts, sep) + sep + last
  {
    if |parts| == 1 {
      assert (parts + [last])[1..] == [last];
    } else {
      assert (parts + [last])[1..] == parts[1..] + [last];
      JoinAppend(parts[1..], last, sep);
    }
  }

  lemma {:induction false} JoinExtendLast(parts: seq<string>, more: string, sep: string)
    requires parts != []
    ensures Join(parts[..|parts| - 1] + [parts[|parts| - 1] + more], sep) == Join(parts, sep) + more
  {
    var front, last := parts[..|parts| - 1], parts[|parts| - 1];
    if front != [] {
      JoinAppend(front, last, sep);
      JoinAppend(front, last + more, sep);
      assert parts == front + [last];
    }
  }

  /** Splitting a text that has no separator before its first one. */
  lemma {:induction false} SplitAtFirst(head: string, tail: string, c: char)
    requires c !in head
    ensures Split(head, c) == [head]
    ensures Split(head + [c] + tail, c) == [head] + Split(tail, c)
  {
    if head != "" {
      SplitAtFirst(head[1..], tail, c);
      assert head == [head[0]] + head[1..];
      assert (head + [c] + tail)[1..] == head[1..] + [c] + tail;
    } else {
      assert ("" + [c] + tail)[1..] == tail;
    }
  }

  /** `c.join(parts).split(c)` gives the parts back when none of them holds the separator. */
  lemma {:induction false} SplitJoin(parts: seq<string>, c: char)
    requires parts != [] && forall p | p in parts :: c !in p
    ensures Split(Join(parts, [c]), c) == parts
  {
    if |parts| == 1 {
      SplitAtFirst(parts[0], "", c);
    } else {
      var rest := parts[1..];
      assert forall p | p in rest :: p in parts;
      assert parts[0] in parts;
      SplitJoin(rest, c);
      SplitAtFirst(parts[0], Join(rest, [c]), c);
      assert parts == [parts[0]] + rest;
    }
  }

  /** One character in front of a text, as its pieces see it. */
  function InFront(x: char, pieces: seq<string>, c: char): seq<string>
    requires pieces != []
  {
    if x == c then [""] + pieces else [[x] + pieces[0]] + pieces[1..]
  }

  lemma SplitCons(x: char, s: string, c: char)
    ensures Split([x] + s, c) == InFront(x, Split(s, c), c)
  {
    assert ([x] + s)[1..] == s;
  }

  lemma ConsConcat<T>(x: T, tail: seq<T>, c: T, b: seq<T>)
    ensures [x] + tail + [c] + b == [x] + (tail + [c] + b)
  {
  }

  lemma InFrontConcat(x: char, pieces: seq<string>, others: seq<string>, c: char)
    requires pieces != []
    ensures InFront(x, pieces + others, c) == InFront(x, pieces, c) + others
  {
    assert (pieces + others)[1..] == pieces[1..] + others;
  }

  lemma {:induction false} SplitConcat(a: string, b: string, c: char)
    ensures Split(a + [c] + b, c) == Split(a, c) + Split(b, c)
  {
    if a == "" {
      SplitAtFirst("", b, c);
    } else {
      var x, tail := a[0], a[1..];
      assert a == [x] + tail;
      SplitConcat(tail, b, c);
      ConsConcat(x, tail, c, b);
      SplitCons(x, tail, c);
      SplitCons(x, tail + [c] + b, c);
      InFrontConcat(x, Split(tail, c), Split(b, c), c);
    }
  }

  lemma {:induction false} JoinSplit(s: string, c: char)
    ensures Join(Split(s, c), [c]) == s
  {
    if s != "" {
      JoinSplit(s[1..], c);
      assert s == [s[0]] + s[1..];
      var pieces := Split(s[1..], c);
      if s[0] == c {
        assert ([""] + pieces)[1..] == pieces;
      } else {
        assert InFront(s[0], pieces, c)[1..] == pieces[1..];
      }
    }
  }

  lemma {:induction false} SplitHasNoSeparator(s: string, c: char)
    ensures forall i | 0 <= i < |Split(s, c)| :: c !in Split(s, c)[i]
  {
    if s != "" { SplitHasNoSeparator(s[1..], c); }
  }

  lemma {:induction false} PiecesLack(s: string, sep: char, c: char)
    requires c !in s
    ensures forall i | 0 <= i < |Split(s, sep)| :: c !in Split(s, sep)[i]
  {
    if s != "" { PiecesLack(s[1..], sep, c); }
  }

  lemma {:induction false} JoinLacks(parts: seq<string>, sep: string, c: char)
    requires c !in sep && forall i | 0 <= i < |parts| :: c !in parts[i]
    ensures c !in Join(parts, sep)
  {
    if |parts| > 1 { JoinLacks(parts[1..], sep, c); }
  }

  lemma {:induction false} LStripIs(s: string)
    ensures LStrip(s) == "" || !IsSpace(LStrip(s)[0])
    ensures s != "" && !IsSpace(s[0]) ==> LStrip(s) == s
    ensures |LStrip(s)| <= |s| && LStrip(s) == s[|s| - |LStrip(s)|..]
    ensures s != "" && !IsSpace(s[|s| - 1]) ==> LStrip(s) != "" && LStrip(s)[|LStrip(s)| - 1] == s[|s| - 1]
  {
    if s != "" && IsSpace(s[0]) { LStripIs(s[1..]); }
  }

  lemma {:induction false} RStripIs(s: string)
    ensures |RStrip(s)| <= |s| && RStrip(s) == s[..|RStrip(s)|]
    ensures RStrip(s) == "" || !IsSpace(RStrip(s)[|RStrip(s)| - 1])
    ensures s != "" && !IsSpace(s[|s| - 1]) ==> RStrip(s) == s
    ensures forall i | |RStrip(s)| <= i < |s| :: IsSpace(s[i])
  {
    if s != "" && IsSpace(s[|s| - 1]) { RStripIs(s[..|s| - 1]); }
  }

  // --- Character tables ---

  const UPPER := "ABCDEFGHIJKLMNOPQRSTUVWXYZ"
  const LOWER := "abcdefghijklmnopqrstuvwxyz"

  lemma LettersAre(i: nat)
    requires i < 26
    ensures UPPER[i] as int == 65 + i && LOWER[i] as int == 97 + i
  {
  }

  lemma LetterExactly(c: char)
    ensures c in LOWER <==> 'a' <= c <= 'z'
    ensures c in UPPER <==> 'A' <= c <= 'Z'
  {
    if 'a' <= c <= 'z' {
      LettersAre(c as int - 97);
      assert LOWER[c as int - 97] == c;
    }
    if 'A' <= c <= 'Z' {
      LettersAre(c as int - 65);
      assert UPPER[c as int - 65] == c;
    }
    forall i | 0 <= i < 26 ensures 'a' <= LOWER[i] <= 'z' && 'A' <= UPPER[i] <= 'Z' { LettersAre(i); }
  }

  /** `lower` changes each letter to the one at the same place of the alphabet, and nothing else. */
  lemma LowerExactly(s: string, k: nat)
    requires k < |s|
    ensures |Lower(s)| == |s|
    ensures forall i | 0 <= i < 26 && s[k] == UPPER[i] :: Lower(s)[k] == LOWER[i]
    ensures s[k] !in UPPER ==> Lower(s)[k] == s[k]
  {
    forall i | 0 <= i < 26 && s[k] == UPPER[i] ensures Lower(s)[k] == LOWER[i] { LettersAre(i); }
    if 'A' <= s[k] <= 'Z' {
      LettersAre(s[k] as int - 65);
      assert UPPER[s[k] as int - 65] == s[k];
    }
  }

  /** The code points for which `str.isspace` is true. */
  const SPACES: seq<int> := [
    0x09, 0x0A, 0x0B, 0x0C, 0x0D, 0x1C, 0x1D, 0x1E, 0x1F, 0x20, 0x85, 0xA0, 0x1680,
    0x2000, 0x2001, 0x2002, 0x2003, 0x2004, 0x2005, 0x2006, 0x2007, 0x2008, 0x2009, 0x200A,
    0x2028, 0x2029, 0x202F, 0x205F, 0x3000]

  predicate IsListedSpace(c: char) { c as int in SPACES }

  lemma StripTakesSpaces(before: string, s: string, after: string)
    requires (forall i | 0 <= i < |before| :: IsSpace(before[i])) && forall i | 0 <= i < |after| :: IsSpace(after[i])
    requires s == "" || (!IsSpace(s[0]) && !IsSpace(s[|s| - 1]))
    ensures Strip(before + s + after) == s
  {
    assert before + s + after == before + (s + after);
    LStripSkips(before, s + after);
    if s == "" {
      assert s + after == after + "";
      LStripSkips(after, "");
    } else {
      assert (s + after)[0] == s[0];
      RStripSkips(s, after);
    }
  }

  /** `strip` takes off these and no others, at both ends. */
  lemma StripExactly(before: string, s: string, after: string)
    requires forall i | 0 <= i < |before| :: IsListedSpace(before[i])
    requires forall i | 0 <= i < |after| :: IsListedSpace(after[i])
    requires s == "" || (!IsListedSpace(s[0]) && !IsListedSpace(s[|s| - 1]))
    ensures Strip(before + s + after) == s
  {
    forall i | 0 <= i < |before| ensures IsSpace(before[i]) { SpaceIs(before[i]); }
    forall i | 0 <= i < |after| ensures IsSpace(after[i]) { SpaceIs(after[i]); }
    if s != "" {
      SpaceIs(s[0]);
      SpaceIs(s[|s| - 1]);
    }
    StripTakesSpaces(before, s, after);
  }

  lemma SpaceIs(c: char)
    ensures IsSpace(c) <==> IsListedSpace(c)
  {
    if IsSpace(c) { SpaceIsListed(c as int); }
    if i :| 0 <= i < |SPACES| && SPACES[i] == c as int { assert IsSpace(c); }
  }

  lemma SpaceIsListed(n: int)
    requires 9 <= n <= 13 || 28 <= n <= 32 || n == 0x85 || n == 0xA0 || n == 0x1680 || 0x2000 <= n <= 0x200A
             || n == 0x2028 || n == 0x2029 || n == 0x202F || n == 0x205F || n == 0x3000
    ensures n in SPACES
  {
    if n <= 13 {
      assert SPACES[n - 9] == n;
    } else if n <= 32 {
      assert SPACES[n - 28 + 5] == n;
    } else if 0x2000 <= n <= 0x200A {
      assert SPACES[n - 0x2000 + 13] == n;
    } else {
      assert SPACES[10] == 0x85 && SPACES[11] == 0xA0 && SPACES[12] == 0x1680 && SPACES[24] == 0x2028;
      assert SPACES[25] == 0x2029 && SPACES[26] == 0x202F && SPACES[27] == 0x205F && SPACES[28] == 0x3000;
    }
  }

  lemma {:induction false} LStripSkips(before: string, rest: string)
    requires forall i | 0 <= i < |before| :: IsSpace(before[i])
    ensures LStrip(before + rest) == LStrip(rest)
  {
    if before == "" {
      assert before + rest == rest;
    } else {
      assert (before + rest)[1..] == before[1..] + rest;
      LStripSkips(before[1..], rest);
    }
  }

  lemma {:induction false} RStripSkips(s: string, after: string)
    requires s != "" && !IsSpace(s[|s| - 1]) && forall i | 0 <= i < |after| :: IsSpace(after[i])
    ensures RStrip(s + after) == s
    decreases |after|
  {
    if after == "" {
      assert s + after == s;
    } else {
      assert (s + after)[..|s + after| - 1] == s + after[..|after| - 1];
      RStripSkips(s, after[..|after| - 1]);
    }
  }
}
