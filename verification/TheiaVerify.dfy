/** The signature file: written by the export, replayed and compared by the import. */
module TheiaVerify {
  import opened Common
  import opened Text
  import Paths

  /** One signed file: the hexadecimal digest of its content and its relative path. */
  datatype Signed = Signed(digest: string, name: string)

  // --- Parsing ---

  /** The length of the first word of a text that starts with one. */
  function WordLength(s: string): (n: nat)
    ensures n <= |s|
  {
    if s == "" || IsSpace(s[0]) then 0 else 1 + WordLength(s[1..])
  }

  /** `digest, relpath = line.strip().split(None, 1)`, or None for a ValueError. */
  function ParseLine(line: string): Option<Signed> {
    var t := Strip(line);
    var n := WordLength(t);
    if n == |t| then None else Some(Signed(t[..n], LStrip(t[n..])))
  }

  // --- Writing and replaying ---

  function Line(s: Signed): string { s.digest + " " + s.name }

  /** The text of a signature or proof file. */
  function FileText(lines: seq<string>): string {
    if lines == [] then "" else lines[0] + "\n" + FileText(lines[1..])
  }

  function Lines(signed: seq<Signed>): seq<string> {
    seq(|signed|, i requires 0 <= i < |signed| => Line(signed[i]))
  }

  /** The lines of a text, each with its newline. */
  function ReadLines(text: string): seq<string>
    decreases |text|
  {
    if text == "" then []
    else
      var line := Split(text, '\n')[0];
      FirstPieceFits(text, '\n');
      if |line| == |text| then [line] else [line + "\n"] + ReadLines(text[|line| + 1..])
  }

  /** What a file opened for reading as text gives: every line ends with a newline alone. */
  function Universal(text: string): string
    decreases |text|
  {
    if text == "" then ""
    else if text[0] != '\r' then [text[0]] + Universal(text[1..])
    else if |text| > 1 && text[1] == '\n' then Universal(text[1..])
    else "\n" + Universal(text[1..])
  }

  lemma {:induction false} FirstPieceFits(text: string, c: char)
    ensures |Split(text, c)[0]| <= |text|
  {
    if text != "" { FirstPieceFits(text[1..], c); }
  }

  /** What the import writes for one line. `digests` has the digest of every readable file. */
  function Replay(line: string, root: string, digests: map<string, string>): string {
    match ParseLine(line)
    case None => "Could not parse: " + line
    case Some(s) =>
      var path := Paths.JoinPath(root, s.name);
      if path in digests then digests[path] + " " + s.name else "Could not read: " + path
  }

  function ReplayAll(lines: seq<string>, root: string, digests: map<string, string>): seq<string> {
    seq(|lines|, i requires 0 <= i < |lines| => Replay(lines[i], root, digests))
  }

  lemma {:induction false} FileTextAppend(lines: seq<string>, line: string)
    ensures FileText(lines + [line]) == FileText(lines) + line + "\n"
  {
    if lines == [] {
      assert [line][1..] == [] && lines + [line] == [line];
    } else {
      assert (lines + [line])[1..] == lines[1..] + [line];
      FileTextAppend(lines[1..], line);
    }
  }

  /** `for s in signatures: f.write(s + '\n')`, in both scripts. */
  method WriteLines(lines: seq<string>) returns (text: string)
    ensures text == FileText(lines)
  {
    text := "";
    for i := 0 to |lines|
      invariant text == FileText(lines[..i])
    {
      assert lines[..i + 1] == lines[..i] + [lines[i]];
      FileTextAppend(lines[..i], lines[i]);
      text := text + lines[i] + "\n";
    }
    assert lines[..|lines|] == lines;
  }

  /** The text of the proof file for the text of a signature file. */
  function Proof(text: string, root: string, digests: map<string, string>): string {
    FileText(ReplayAll(ReadLines(Universal(text)), root, digests))
  }

  /** `sign` of the import. */
  method ReplaySignatures(text: string, root: string, digests: map<string, string>) returns (signatures: seq<string>)
    ensures signatures == ReplayAll(ReadLines(Universal(text)), root, digests)
  {
    signatures := [];
    var lines := ReadLines(Universal(text));
    for i := 0 to |lines|
      invariant signatures == ReplayAll(lines[..i], root, digests)
    {
      ReplayOneMore(lines, i, root, digests);
      signatures := signatures + [Replay(lines[i], root, digests)];
    }
    assert lines[..|lines|] == lines;
  }

  lemma ReplayOneMore(lines: seq<string>, i: nat, root: string, digests: map<string, string>)
    requires i < |lines|
    ensures ReplayAll(lines[..i + 1], root, digests)
         == ReplayAll(lines[..i], root, digests) + [Replay(lines[i], root, digests)]
  {
  }

  /** `verify` of the import without a custom script: the proof file, and whether `diff` finds
      it identical to the signature file. */
  method Verify(text: string, root: string, digests: map<string, string>) returns (proof: string, same: bool)
    ensures proof == Proof(text, root, digests)
    ensures same <==> proof == text
  {
    var signatures := ReplaySignatures(text, root, digests);
    proof := WriteLines(signatures);
    same := proof == text;
  }

  // --- When the files agree ---

  predicate IsHexDigit(c: char) { '0' <= c <= '9' || 'a' <= c <= 'f' }

  predicate IsDigest(s: string) { s != "" && forall i | 0 <= i < |s| :: IsHexDigit(s[i]) }

  /** Neither empty nor with white space at an end. */
  predicate IsTrimmed(s: string) { s != "" && !IsSpace(s[0]) && !IsSpace(s[|s| - 1]) }

  predicate IsLine(s: string) { '\n' !in s && '\r' !in s }

  lemma {:induction false} WordLengthIs(word: string, rest: string)
    requires (forall i | 0 <= i < |word| :: !IsSpace(word[i])) && (rest == "" || IsSpace(rest[0]))
    ensures WordLength(word + rest) == |word|
  {
    if word != "" {
      assert (word + rest)[1..] == word[1..] + rest;
      WordLengthIs(word[1..], rest);
    } else {
      assert word + rest == rest;
    }
  }

  lemma DigestHasNoSpace(digest: string)
    requires IsDigest(digest)
    ensures forall i | 0 <= i < |digest| :: !IsSpace(digest[i]) && digest[i] !in "\n\rC"
  {
    forall i | 0 <= i < |digest| ensures !IsSpace(digest[i]) && digest[i] !in "\n\rC" {
      assert IsHexDigit(digest[i]);
    }
  }

  lemma {:induction false} RStripConcat(a: string, b: string)
    ensures RStrip(a + b) == if RStrip(b) == "" then RStrip(a) else a + RStrip(b)
    decreases |b|
  {
    if b == "" {
      assert a + b == a;
    } else if IsSpace(b[|b| - 1]) {
      assert (a + b)[..|a + b| - 1] == a + b[..|b| - 1];
      RStripConcat(a, b[..|b| - 1]);
    }
  }

  lemma {:induction false} StripCommutes(s: string)
    ensures Strip(s) == LStrip(RStrip(s))
  {
    RStripIs(s);
    if s != "" && IsSpace(s[0]) {
      StripCommutes(s[1..]);
      assert s == [s[0]] + s[1..];
      RStripConcat([s[0]], s[1..]);
      var r := RStrip(s[1..]);
      if r == "" {
        assert [s[0]][..0] == "";
      } else {
        assert ([s[0]] + r)[1..] == r;
      }
    }
  }

  lemma StripIsTrimmed(s: string)
    ensures Strip(s) == "" || IsTrimmed(Strip(s))
    ensures IsTrimmed(s) <==> Strip(s) == s && s != ""
  {
    LStripIs(s);
    RStripIs(LStrip(s));
    RStripIs(s);
  }

  lemma RStripOne(c: char)
    requires IsSpace(c)
    ensures RStrip([c]) == ""
  {
    assert [c][..0] == "";
  }

  lemma RStripOfLine(digest: string, name: string)
    requires RStrip(digest) == digest
    ensures var end := RStrip(name);
            RStrip(digest + (" " + (name + "\n"))) == digest + if end == "" then "" else " " + end
  {
    RStripOne('\n');
    RStripOne(' ');
    RStripConcat(name, "\n");
    assert RStrip(name + "\n") == RStrip(name);
    RStripConcat(" ", name + "\n");
    RStripConcat(digest, " " + (name + "\n"));
    assert digest + "" == digest;
  }

  lemma StripOfLine(s: Signed)
    requires IsDigest(s.digest)
    ensures var end := RStrip(s.name);
            Strip(Line(s) + "\n") == s.digest + if end == "" then "" else " " + end
  {
    var digest, text := s.digest, Line(s) + "\n";
    assert text == digest + (" " + (s.name + "\n"));
    assert !IsSpace(digest[0]) && !IsSpace(digest[|digest| - 1]) by { DigestHasNoSpace(digest); }
    assert RStrip(digest) == digest by { RStripIs(digest); }
    assert LStrip(text) == text;
    RStripOfLine(digest, s.name);
  }

  /** A line with its newline is parsed as its digest and its name without white space at the
      ends; with nothing left of the name it is not parsed. */
  lemma ParseOfLine(s: Signed)
    requires IsDigest(s.digest)
    ensures var name := Strip(s.name);
            ParseLine(Line(s) + "\n") == if name == "" then None else Some(Signed(s.digest, name))
  {
    var end := RStrip(s.name);
    var rest := if end == "" then "" else " " + end;
    var t := s.digest + rest;
    StripOfLine(s);
    StripCommutes(s.name);
    DigestHasNoSpace(s.digest);
    WordLengthIs(s.digest, rest);
    assert t[..|s.digest|] == s.digest && t[|s.digest|..] == rest;
    if end == "" {
      assert Strip(s.name) == LStrip("") == "";
    } else {
      NonBlankStrip(s.name);
      assert (" " + end)[1..] == end;
      assert LStrip(rest) == LStrip(end);
    }
  }

  lemma NonBlankStrip(s: string)
    requires RStrip(s) != ""
    ensures LStrip(RStrip(s)) != ""
  {
    RStripIs(s);
    LStripIs(RStrip(s));
  }

  /** The file is still readable with the same digest, under a name that survives parsing. */
  predicate StillSigned(s: Signed, root: string, digests: map<string, string>) {
    var path := Paths.JoinPath(root, s.name);
    IsTrimmed(s.name) && path in digests && digests[path] == s.digest
  }

  /** The first line of two equal files is the same, unless one holds a newline itself. */
  lemma FirstLine(a: string, x: string, b: string, y: string)
    requires '\n' !in a && '\n' !in b && a + "\n" + x == b + "\n" + y
    ensures a == b && x == y
  {
    assert a + "\n" + x == a + ['\n'] + x && b + "\n" + y == b + ['\n'] + y;
    SplitAtFirst(a, x, '\n');
    SplitAtFirst(b, y, '\n');
    assert a == Split(a + ['\n'] + x, '\n')[0] == b;
    assert x == (a + "\n" + x)[|a| + 1..] == (b + "\n" + y)[|b| + 1..] == y;
  }

  /** Two lines with digests are the same only with the same digest and name. */
  lemma LineInjective(s: Signed, t: Signed)
    requires IsDigest(s.digest) && IsDigest(t.digest) && Line(s) == Line(t)
    ensures s == t
  {
    DigestHasNoSpace(s.digest);
    DigestHasNoSpace(t.digest);
    WordLengthIs(s.digest, " " + s.name);
    WordLengthIs(t.digest, " " + t.name);
    assert Line(s) == s.digest + (" " + s.name) && Line(t) == t.digest + (" " + t.name);
    assert s.digest == Line(s)[..|s.digest|] && t.digest == Line(t)[..|t.digest|];
    assert s.name == Line(s)[|s.digest| + 1..] && t.name == Line(t)[|t.digest| + 1..];
  }

  /** The replayed line is the signed line exactly when the file is still signed. */
  lemma ReplayOfLine(s: Signed, root: string, digests: map<string, string>)
    requires IsDigest(s.digest) && forall p | p in digests :: IsDigest(digests[p])
    ensures Replay(Line(s) + "\n", root, digests) == Line(s) <==> StillSigned(s, root, digests)
  {
    var name := Strip(s.name);
    ParseOfLine(s);
    StripIsTrimmed(s.name);
    DigestHasNoSpace(s.digest);
    assert Line(s)[0] == s.digest[0] != 'C';
    var path := Paths.JoinPath(root, name);
    if name != "" && path in digests && Replay(Line(s) + "\n", root, digests) == Line(s) {
      LineInjective(Signed(digests[path], name), s);
    }
  }

  lemma {:induction false} FileTextLacks(lines: seq<string>, c: char)
    requires c != '\n' && forall i | 0 <= i < |lines| :: c !in lines[i]
    ensures c !in FileText(lines)
  {
    if lines != [] { FileTextLacks(lines[1..], c); }
  }

  lemma {:induction false} UniversalKeeps(text: string)
    ensures '\r' !in text ==> Universal(text) == text
  {
    if text != "" {
      UniversalKeeps(text[1..]);
      assert text == [text[0]] + text[1..];
    }
  }
}
