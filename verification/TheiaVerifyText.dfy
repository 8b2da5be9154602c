/** Verification of any text in the place of a signature file: names may hold line breaks, which
    the export writes as they are, and the file may have been damaged. */
module TheiaVerifyText {
  import opened Common
  import opened Text
  import Paths
  import opened TheiaVerify

  /** The line of a file that is readable with this digest. */
  ghost predicate GoodLine(line: string, root: string, digests: map<string, string>) {
    exists s: Signed :: line == Line(s) && IsDigest(s.digest) && StillSigned(s, root, digests)
  }

  ghost predicate AllGood(lines: seq<string>, root: string, digests: map<string, string>) {
    forall i | 0 <= i < |lines| :: GoodLine(lines[i], root, digests)
  }

  /** Every line of the text is good, and the last one ends with a newline. */
  ghost predicate GoodLines(text: string, root: string, digests: map<string, string>) {
    GoodPieces(Split(text, '\n'), root, digests)
  }

  ghost predicate GoodPieces(pieces: seq<string>, root: string, digests: map<string, string>)
    requires pieces != []
  {
    var last := |pieces| - 1;
    pieces[last] == "" && AllGood(pieces[..last], root, digests)
  }

  // --- One line ---

  lemma StripOfNewline(line: string)
    ensures Strip(line + "\n") == Strip(line)
  {
    StripCommutes(line + "\n");
    StripCommutes(line);
    RStripOne('\n');
    RStripConcat(line, "\n");
  }

  /** What follows the first word of a trimmed text, without the white space between. */
  lemma RestIsTrimmed(t: string, n: nat)
    requires IsTrimmed(t) && n < |t|
    ensures IsTrimmed(LStrip(t[n..]))
  {
    LStripIs(t[n..]);
  }

  lemma ParseIs(line: string)
    ensures var parsed := ParseLine(line + "\n"); parsed.Some? ==> IsTrimmed(parsed.value.name)
  {
    StripIsTrimmed(line + "\n");
    var t := Strip(line + "\n");
    if WordLength(t) < |t| { RestIsTrimmed(t, WordLength(t)); }
  }

  /** A name is at the end of its path, and not empty. */
  lemma PathEndsInName(root: string, name: string)
    requires IsTrimmed(name)
    ensures var path := Paths.JoinPath(root, name);
            |path| >= |name| && !IsSpace(path[|path| - 1])
  {
  }

  lemma TrimmedStrip(line: string)
    requires IsTrimmed(line)
    ensures Strip(line) == line
  {
    RStripIs(line);
  }

  /** A first word, one blank and a trimmed rest. */
  lemma ParseOfWords(word: string, rest: string)
    requires IsTrimmed(rest) && word != "" && forall i | 0 <= i < |word| :: !IsSpace(word[i])
    ensures ParseLine(word + (" " + rest) + "\n") == Some(Signed(word, rest))
  {
    var line := word + (" " + rest);
    assert line[0] == word[0] && line[|line| - 1] == rest[|rest| - 1];
    StripOfNewline(line);
    TrimmedStrip(line);
    WordLengthIs(word, " " + rest);
    assert line[..|word|] == word && line[|word|..] == " " + rest;
    assert (" " + rest)[1..] == rest;
    assert LStrip(" " + rest) == LStrip(rest) == rest;
  }

  const UNREADABLE := "Could not read: "

  lemma MessageIsWords(path: string)
    ensures UNREADABLE + path + "\n" == "Could" + (" " + ("not read: " + path)) + "\n"
  {
    assert UNREADABLE == "Could" + (" " + "not read: ");
    assert UNREADABLE + path == "Could" + (" " + ("not read: " + path));
  }

  /** How the message for a file that cannot be read would be parsed. */
  lemma ParseOfMessage(path: string)
    requires path != "" && !IsSpace(path[|path| - 1])
    ensures ParseLine(UNREADABLE + path + "\n") == Some(Signed("Could", "not read: " + path))
  {
    var rest := "not read: " + path;
    assert rest[0] == 'n' && rest[|rest| - 1] == path[|path| - 1];
    MessageIsWords(path);
    ParseOfWords("Could", rest);
  }

  lemma UnreadableDiffers(line: string, root: string)
    requires ParseLine(line + "\n").Some?
    ensures UNREADABLE + Paths.JoinPath(root, ParseLine(line + "\n").value.name) != line
  {
    var name := ParseLine(line + "\n").value.name;
    var path := Paths.JoinPath(root, name);
    ParseIs(line);
    PathEndsInName(root, name);
    if UNREADABLE + path == line {
      ParseOfMessage(path);
      assert false;
    }
  }

  /** What the import writes for a line is the line itself exactly when it is good. */
  lemma ReplayOfAnyLine(line: string, root: string, digests: map<string, string>)
    requires forall p | p in digests :: IsDigest(digests[p])
    ensures Replay(line + "\n", root, digests) == line <==> GoodLine(line, root, digests)
  {
    GoodIsReplayed(line, root, digests);
    ParseIs(line);
    match ParseLine(line + "\n")
    case None =>
    case Some(s) =>
      var path := Paths.JoinPath(root, s.name);
      UnreadableDiffers(line, root);
      if path in digests {
        var t := Signed(digests[path], s.name);
        assert StillSigned(t, root, digests);
        assert Replay(line + "\n", root, digests) == Line(t);
      }
  }

  lemma GoodIsReplayed(line: string, root: string, digests: map<string, string>)
    requires forall p | p in digests :: IsDigest(digests[p])
    ensures GoodLine(line, root, digests) ==> Replay(line + "\n", root, digests) == line
  {
    if s: Signed :| line == Line(s) && IsDigest(s.digest) && StillSigned(s, root, digests) {
      ReplayOfLine(s, root, digests);
    }
  }

  // --- All lines ---

  /** Of two files the one with at least as many entries is the same only if its entries are,
      although these may hold newlines. */
  lemma {:induction false} SameLines(outs: seq<string>, lines: seq<string>)
    requires |outs| >= |lines| && forall i | 0 <= i < |lines| :: '\n' !in lines[i]
    requires FileText(outs) == FileText(lines)
    ensures outs == lines
    decreases |lines|
  {
    if lines != [] {
      var out, rest := outs[0], FileText(outs[1..]);
      var pieces := Split(out, '\n');
      var first := pieces[0];
      SplitHasNoSeparator(out, '\n');
      JoinSplit(out, '\n');
      if |pieces| == 1 {
        FirstLine(out, rest, lines[0], FileText(lines[1..]));
        SameLines(outs[1..], lines[1..]);
        assert outs == [outs[0]] + outs[1..] && lines == [lines[0]] + lines[1..];
      } else {
        var more := Join(pieces[1..], "\n");
        assert out + "\n" + rest == first + "\n" + (more + "\n" + rest);
        FirstLine(first, more + "\n" + rest, lines[0], FileText(lines[1..]));
        assert ([more] + outs[1..])[1..] == outs[1..];
        SameLines([more] + outs[1..], lines[1..]);
        assert false;
      }
    }
  }

  function Newlined(lines: seq<string>): seq<string> {
    seq(|lines|, i requires 0 <= i < |lines| => lines[i] + "\n")
  }

  lemma {:induction false} LinesReadBack(lines: seq<string>)
    requires forall i | 0 <= i < |lines| :: '\n' !in lines[i]
    ensures ReadLines(FileText(lines)) == Newlined(lines)
  {
    if lines != [] {
      var rest := FileText(lines[1..]);
      var text := lines[0] + "\n" + rest;
      assert text == lines[0] + ['\n'] + rest;
      SplitAtFirst(lines[0], rest, '\n');
      assert text[|lines[0]| + 1..] == rest;
      LinesReadBack(lines[1..]);
      assert Newlined(lines) == [lines[0] + "\n"] + Newlined(lines[1..]);
    }
  }

  /** A text is its finished lines and what follows the last newline. */
  lemma {:induction false} TextIsPieces(pieces: seq<string>)
    requires pieces != []
    ensures Join(pieces, "\n") == FileText(pieces[..|pieces| - 1]) + pieces[|pieces| - 1]
  {
    var front := pieces[..|pieces| - 1];
    if |pieces| > 1 {
      TextIsPieces(pieces[1..]);
      assert front[1..] == pieces[1..][..|pieces| - 2];
    }
  }

  lemma {:induction false} FileTextEnds(lines: seq<string>)
    requires lines != []
    ensures var text := FileText(lines); text != "" && text[|text| - 1] == '\n'
  {
    if |lines| > 1 { FileTextEnds(lines[1..]); }
  }

  lemma FinishedExactly(lines: seq<string>, root: string, digests: map<string, string>)
    requires (forall i | 0 <= i < |lines| :: IsLine(lines[i])) && forall p | p in digests :: IsDigest(digests[p])
    ensures FileText(ReplayAll(Newlined(lines), root, digests)) == FileText(lines) <==> AllGood(lines, root, digests)
  {
    var outs := ReplayAll(Newlined(lines), root, digests);
    if FileText(outs) == FileText(lines) { SameLines(outs, lines); }
    forall i | 0 <= i < |lines| ensures outs[i] == lines[i] <==> GoodLine(lines[i], root, digests) {
      ReplayOfAnyLine(lines[i], root, digests);
    }
    if AllGood(lines, root, digests) { assert outs == lines; }
  }

  lemma UnfinishedDiffers(text: string, last: string, root: string, digests: map<string, string>)
    requires last != "" && '\n' !in last
    ensures FileText(ReplayAll(ReadLines(text + last), root, digests)) != text + last
  {
    assert text + last != "" && (text + last)[|text + last| - 1] == last[|last| - 1] != '\n';
    FileTextEnds(ReplayAll(ReadLines(text + last), root, digests));
  }

  lemma PiecesAgree(pieces: seq<string>, root: string, digests: map<string, string>)
    requires pieces != [] && forall i | 0 <= i < |pieces| :: IsLine(pieces[i])
    requires forall p | p in digests :: IsDigest(digests[p])
    ensures var text := Join(pieces, "\n");
      FileText(ReplayAll(ReadLines(text), root, digests)) == text <==> GoodPieces(pieces, root, digests)
  {
    var lines, last := pieces[..|pieces| - 1], pieces[|pieces| - 1];
    TextIsPieces(pieces);
    if last == "" {
      assert FileText(lines) + last == FileText(lines);
      LinesReadBack(lines);
      FinishedExactly(lines, root, digests);
    } else {
      UnfinishedDiffers(FileText(lines), last, root, digests);
    }
  }

  /** A text without carriage returns agrees with its proof if and only if all its lines are good. */
  lemma PlainTextExactly(text: string, root: string, digests: map<string, string>)
    requires '\r' !in text && forall p | p in digests :: IsDigest(digests[p])
    ensures Proof(text, root, digests) == text <==> GoodLines(text, root, digests)
  {
    UniversalKeeps(text);
    SplitHasNoSeparator(text, '\n');
    PiecesLack(text, '\n', '\r');
    JoinSplit(text, '\n');
    PiecesAgree(Split(text, '\n'), root, digests);
  }

  // --- Carriage returns ---

  lemma {:induction false} UniversalLacksReturns(text: string)
    ensures '\r' !in Universal(text)
    decreases |text|
  {
    if text != "" { UniversalLacksReturns(text[1..]); }
  }

  lemma {:induction false} ReadLinesLacks(text: string, c: char)
    requires c !in text && c != '\n'
    ensures forall i | 0 <= i < |ReadLines(text)| :: c !in ReadLines(text)[i]
    decreases |text|
  {
    if text != "" {
      var line := Split(text, '\n')[0];
      FirstPieceFits(text, '\n');
      PiecesLack(text, '\n', c);
      if |line| < |text| { ReadLinesLacks(text[|line| + 1..], c); }
    }
  }

  /** The name is a part of its line. */
  lemma NameInLine(line: string, c: char)
    requires c !in line && ParseLine(line).Some?
    ensures c !in ParseLine(line).value.name
  {
    LStripIs(line);
    RStripIs(LStrip(line));
    var t := Strip(line);
    assert forall x | x in t :: x in line;
    LStripIs(t[WordLength(t)..]);
  }

  lemma JoinPathLacks(root: string, name: string, c: char)
    requires c !in root && c !in name && c != '/'
    ensures c !in Paths.JoinPath(root, name)
  {
  }

  lemma ReplayLacksReturns(line: string, root: string, digests: map<string, string>)
    requires '\r' !in line && '\r' !in root && forall p | p in digests :: IsDigest(digests[p])
    ensures '\r' !in Replay(line, root, digests)
  {
    if ParseLine(line).Some? {
      var name := ParseLine(line).value.name;
      var path := Paths.JoinPath(root, name);
      NameInLine(line, '\r');
      JoinPathLacks(root, name, '\r');
      if path in digests { DigestHasNoSpace(digests[path]); }
    }
  }

  lemma ProofLacksReturns(text: string, root: string, digests: map<string, string>)
    requires '\r' !in root && forall p | p in digests :: IsDigest(digests[p])
    ensures '\r' !in Proof(text, root, digests)
  {
    UniversalLacksReturns(text);
    var lines := ReadLines(Universal(text));
    ReadLinesLacks(Universal(text), '\r');
    forall i | 0 <= i < |lines| ensures '\r' !in Replay(lines[i], root, digests) {
      ReplayLacksReturns(lines[i], root, digests);
    }
    FileTextLacks(ReplayAll(lines, root, digests), '\r');
  }

  /** `verify` accepts a text, whatever it is, if and only if it has no carriage return and every
      line of it is that of a readable file with the digest it gives. */
  lemma VerifyTextExactly(text: string, root: string, digests: map<string, string>)
    requires '\r' !in root && forall p | p in digests :: IsDigest(digests[p])
    ensures Proof(text, root, digests) == text <==> '\r' !in text && GoodLines(text, root, digests)
  {
    ProofLacksReturns(text, root, digests);
    if '\r' !in text { PlainTextExactly(text, root, digests); }
  }

  // --- Files of the export ---

  lemma AllGoodConcat(lines: seq<string>, others: seq<string>, root: string, digests: map<string, string>)
    ensures AllGood(lines + others, root, digests) <==> AllGood(lines, root, digests) && AllGood(others, root, digests)
  {
    var all := lines + others;
    assert forall i | 0 <= i < |lines| :: all[i] == lines[i];
    assert forall i | 0 <= i < |others| :: all[|lines| + i] == others[i];
  }

  lemma GoodPiecesConcat(lines: seq<string>, others: seq<string>, root: string, digests: map<string, string>)
    requires others != []
    ensures GoodPieces(lines + others, root, digests)
       <==> AllGood(lines, root, digests) && GoodPieces(others, root, digests)
  {
    var front := others[..|others| - 1];
    AllGoodConcat(lines, front, root, digests);
    assert (lines + others)[..|lines + others| - 1] == lines + front;
  }

  lemma GoodLinesConcat(first: string, rest: string, root: string, digests: map<string, string>)
    ensures GoodLines(first + "\n" + rest, root, digests)
       <==> AllGood(Split(first, '\n'), root, digests) && GoodLines(rest, root, digests)
  {
    assert Split(first + "\n" + rest, '\n') == Split(first, '\n') + Split(rest, '\n') by {
      SplitConcat(first, rest, '\n');
      assert first + "\n" + rest == first + ['\n'] + rest;
    }
    GoodPiecesConcat(Split(first, '\n'), Split(rest, '\n'), root, digests);
  }

  lemma {:induction false} GoodLinesOfFile(lines: seq<string>, root: string, digests: map<string, string>)
    ensures GoodLines(FileText(lines), root, digests)
       <==> forall i | 0 <= i < |lines| :: AllGood(Split(lines[i], '\n'), root, digests)
  {
    if lines == [] {
      assert Split("", '\n')[..0] == [];
    } else {
      var rest := lines[1..];
      GoodLinesOfFile(rest, root, digests);
      GoodLinesConcat(lines[0], FileText(rest), root, digests);
      assert forall i | 0 <= i < |rest| :: rest[i] == lines[i + 1];
      assert forall i | 1 <= i < |lines| :: lines[i] == rest[i - 1];
    }
  }

  lemma GoodLinesOfSigned(signed: seq<Signed>, root: string, digests: map<string, string>)
    ensures GoodLines(FileText(Lines(signed)), root, digests)
       <==> forall i | 0 <= i < |signed| :: AllGood(Split(Line(signed[i]), '\n'), root, digests)
  {
    GoodLinesOfFile(Lines(signed), root, digests);
    assert forall i | 0 <= i < |signed| :: Lines(signed)[i] == Line(signed[i]);
  }

  lemma {:induction false} FileTextHas(lines: seq<string>, k: nat, c: char)
    requires k < |lines| && c in lines[k]
    ensures c in FileText(lines)
  {
    if k > 0 { FileTextHas(lines[1..], k - 1, c); }
  }

  lemma ReturnsInNames(signed: seq<Signed>)
    requires forall i | 0 <= i < |signed| :: IsDigest(signed[i].digest)
    ensures '\r' !in FileText(Lines(signed)) <==> forall i | 0 <= i < |signed| :: '\r' !in signed[i].name
  {
    var lines := Lines(signed);
    forall i | 0 <= i < |signed| ensures '\r' in lines[i] <==> '\r' in signed[i].name {
      DigestHasNoSpace(signed[i].digest);
      assert IsSpace('\r');
      assert forall k | 0 <= k < |signed[i].name| :: lines[i][|signed[i].digest| + 1 + k] == signed[i].name[k];
    }
    if i :| 0 <= i < |lines| && '\r' in lines[i] {
      FileTextHas(lines, i, '\r');
    } else {
      FileTextLacks(lines, '\r');
    }
  }

  /** `verify` accepts a signature file of the export, whatever the names, if and only if no name
      has a carriage return and each line that a signed line is broken into is good. */
  lemma VerifyNamesExactly(signed: seq<Signed>, root: string, digests: map<string, string>)
    requires forall i | 0 <= i < |signed| :: IsDigest(signed[i].digest)
    requires '\r' !in root && forall p | p in digests :: IsDigest(digests[p])
    ensures Proof(FileText(Lines(signed)), root, digests) == FileText(Lines(signed))
      <==> (forall i | 0 <= i < |signed| :: '\r' !in signed[i].name)
           && forall i | 0 <= i < |signed| :: AllGood(Split(Line(signed[i]), '\n'), root, digests)
  {
    VerifyTextExactly(FileText(Lines(signed)), root, digests);
    GoodLinesOfSigned(signed, root, digests);
    ReturnsInNames(signed);
  }

  lemma WholeLineIsGood(s: Signed, root: string, digests: map<string, string>)
    requires IsDigest(s.digest) && IsLine(s.name)
    ensures AllGood(Split(Line(s), '\n'), root, digests) <==> StillSigned(s, root, digests)
  {
    DigestHasNoSpace(s.digest);
    SplitAtFirst(Line(s), "", '\n');
    assert Split(Line(s), '\n')[0] == Line(s);
    if t: Signed :| Line(s) == Line(t) && IsDigest(t.digest) && StillSigned(t, root, digests) {
      LineInjective(s, t);
    }
  }

  /** For names without line breaks, it accepts if and only if every signed file is still readable
      with the same digest and no signed name has white space at an end. */
  lemma VerifyExactly(signed: seq<Signed>, root: string, digests: map<string, string>)
    requires forall i | 0 <= i < |signed| :: IsDigest(signed[i].digest) && IsLine(signed[i].name)
    requires forall p | p in digests :: IsDigest(digests[p])
    ensures Proof(FileText(Lines(signed)), root, digests) == FileText(Lines(signed))
      <==> forall i | 0 <= i < |signed| :: StillSigned(signed[i], root, digests)
  {
    ReturnsInNames(signed);
    PlainTextExactly(FileText(Lines(signed)), root, digests);
    GoodLinesOfSigned(signed, root, digests);
    forall i | 0 <= i < |signed|
      ensures AllGood(Split(Line(signed[i]), '\n'), root, digests) <==> StillSigned(signed[i], root, digests)
    {
      WholeLineIsGood(signed[i], root, digests);
    }
  }
}
