/** The lines of signature and proof files, character by character. */
module TheiaLines {
  import opened Common
  import opened Text
  import Paths
  import opened TheiaVerify

  const HEX := "0123456789abcdef"

  lemma DigestExactly(s: string)
    ensures IsDigest(s) <==> s != "" && forall i | 0 <= i < |s| :: s[i] in HEX
  {
    forall c: char ensures IsHexDigit(c) <==> c in HEX { HexDigitExactly(c); }
  }

  lemma HexDigitExactly(c: char)
    ensures IsHexDigit(c) <==> c in HEX
  {
    if '0' <= c <= '9' { assert HEX[c as int - 48] == c; }
    if 'a' <= c <= 'f' { assert HEX[c as int - 87] == c; }
    assert forall i | 0 <= i < 16 :: IsHexDigit(HEX[i]);
  }

  // --- Text to lines ---

  /** Universal newlines: a carriage return, with the newline that follows it if there is one,
      becomes a newline, and nothing else changes. */
  lemma UniversalExactly(a: string, b: string)
    requires '\r' !in a
    ensures Universal(a) == a
    ensures Universal(a + ("\r\n" + b)) == a + ("\n" + Universal(b))
    ensures b == "" || b[0] != '\n' ==> Universal(a + ("\r" + b)) == a + ("\n" + Universal(b))
  {
    UniversalSkips(a, "");
    assert a + "" == a;
    UniversalOfReturn(b);
    UniversalSkips(a, "\r\n" + b);
    UniversalSkips(a, "\r" + b);
  }

  lemma UniversalOfReturn(b: string)
    ensures Universal("\r\n" + b) == "\n" + Universal(b)
    ensures b == "" || b[0] != '\n' ==> Universal("\r" + b) == "\n" + Universal(b)
  {
    var crlf, cr := "\r\n" + b, "\r" + b;
    assert crlf[1..] == "\n" + b && ("\n" + b)[1..] == b && cr[1..] == b;
  }

  lemma {:induction false} UniversalSkips(a: string, rest: string)
    requires '\r' !in a
    ensures Universal(a + rest) == a + Universal(rest)
  {
    if a == "" {
      assert a + rest == rest;
    } else {
      assert (a + rest)[1..] == a[1..] + rest;
      UniversalSkips(a[1..], rest);
    }
  }

  /** Iteration over a file: each line keeps its newline, and no line is left out. */
  lemma LinesExactly(a: string, b: string)
    requires '\n' !in a
    ensures ReadLines(a) == if a == "" then [] else [a]
    ensures ReadLines(a + "\n" + b) == [a + "\n"] + ReadLines(b)
  {
    var text := a + "\n" + b;
    assert text == a + ['\n'] + b;
    SplitAtFirst(a, b, '\n');
    assert text[|a| + 1..] == b;
  }

  // --- Lines to text ---

  /** A file is its lines, each ended by a newline. */
  lemma {:induction false} FileTextExactly(lines: seq<string>)
    requires forall i | 0 <= i < |lines| :: '\n' !in lines[i]
    ensures Split(FileText(lines), '\n') == lines + [""]
  {
    if lines != [] {
      FileTextExactly(lines[1..]);
      assert FileText(lines) == lines[0] + ['\n'] + FileText(lines[1..]);
      SplitAtFirst(lines[0], FileText(lines[1..]), '\n');
      assert [lines[0]] + (lines[1..] + [""]) == lines + [""];
    } else {
      SplitAtFirst("", "", '\n');
    }
  }

  /** A signed line cut at its spaces: the digest, and then the name whatever it holds. */
  lemma LineExactly(s: Signed)
    requires IsDigest(s.digest)
    ensures Split(Line(s), ' ') == [s.digest] + Split(s.name, ' ')
  {
    DigestHasNoSpace(s.digest);
    assert Line(s) == s.digest + [' '] + s.name;
    SplitAtFirst(s.digest, s.name, ' ');
  }

  // --- The import's line for a line ---

  ghost predicate IsBlankText(s: string) { forall i | 0 <= i < |s| :: IsListedSpace(s[i]) }

  /** Nor does it hold white space. */
  ghost predicate IsWord(s: string) { s != "" && forall i | 0 <= i < |s| :: !IsListedSpace(s[i]) }

  lemma SpacesAre(s: string)
    ensures forall i | 0 <= i < |s| :: IsSpace(s[i]) <==> IsListedSpace(s[i])
  {
    forall i | 0 <= i < |s| ensures IsSpace(s[i]) <==> IsListedSpace(s[i]) { SpaceIs(s[i]); }
  }

  lemma ParseOfGap(word: string, gap: string, name: string, t: string)
    requires IsWord(word) && IsBlankText(gap) && gap != "" && IsTrimmed(name) && t == word + (gap + name)
    ensures WordLength(t) == |word| && t[..|word|] == word && LStrip(t[|word|..]) == name
  {
    SpacesAre(word);
    SpacesAre(gap);
    WordLengthIs(word, gap + name);
    assert t[|word|..] == gap + name;
    LStripSkips(gap, name);
  }

  /** White space around a line, or more of it between digest and name, makes no difference: the
      import writes the digest of the named file, or that it could not read it; a line without two
      words is reported whole. */
  lemma ReplayExactly(before: string, word: string, gap: string, name: string, after: string,
                      root: string, digests: map<string, string>)
    requires IsBlankText(before) && IsBlankText(gap) && gap != "" && IsBlankText(after)
    requires IsWord(word) && IsTrimmed(name)
    ensures var path := Paths.JoinPath(root, name);
            Replay(before + (word + (gap + name)) + after, root, digests)
            == if path in digests then digests[path] + " " + name else "Could not read: " + path
  {
    var t := word + (gap + name);
    SpacesAre(word);
    assert t[0] == word[0] && t[|t| - 1] == name[|name| - 1];
    SpaceIs(t[0]);
    SpaceIs(t[|t| - 1]);
    StripExactly(before, t, after);
    ParseOfGap(word, gap, name, t);
  }

  lemma ReplayOfOneWord(before: string, word: string, after: string, root: string, digests: map<string, string>)
    requires IsBlankText(before) && IsBlankText(after) && (word == "" || IsWord(word))
    ensures Replay(before + word + after, root, digests) == "Could not parse: " + (before + word + after)
  {
    SpacesAre(word);
    StripExactly(before, word, after);
    WordLengthIs(word, "");
    assert word + "" == word;
  }
}
