/** The stream that `generateHashFromFiles` feeds to its hasher. A byte is a character here. */
module HashStream {
  import opened Common
  import opened Decimal
  import opened Text

  function Frame(content: string): string { Digits(|content|) + "\n" + content }

  function Stream(files: seq<string>): string {
    if files == [] then "" else Frame(files[0]) + Stream(files[1..])
  }

  /** The contents that a stream was made of, or None if it was made of none. */
  function ParseStream(s: string): Option<seq<string>>
    decreases |s|
  {
    if s == "" then Some([])
    else
      var header := Split(s, '\n')[0];
      if |header| >= |s| || !IsNumber(header) || |header| + 1 + Value(header) > |s| then None
      else
        var end := |header| + 1 + Value(header);
        match ParseStream(s[end..])
        case None => None
        case Some(rest) => Some([s[|header| + 1..end]] + rest)
  }

  /** The loop over files; `md5` stands for the digest of everything the hasher was given. */
  method GenerateHash(files: seq<string>, md5: string -> string) returns (digest: string)
    ensures digest == md5(Stream(files))
  {
    var fed := "";
    for i := 0 to |files|
      invariant fed == Stream(files[..i])
    {
      assert files[..i + 1] == files[..i] + [files[i]];
      StreamAppend(files[..i], files[i]);
      fed := fed + (Digits(|files[i]|) + "\n");
      fed := fed + files[i];
    }
    assert files[..|files|] == files;
    digest := md5(fed);
  }

  lemma {:induction false} StreamAppend(files: seq<string>, content: string)
    ensures Stream(files + [content]) == Stream(files) + Frame(content)
  {
    if files == [] {
      assert [] + [content] == [content] && [content][1..] == [];
    } else {
      assert (files + [content])[1..] == files[1..] + [content];
      StreamAppend(files[1..], content);
    }
  }

  lemma HeaderIs(n: nat)
    ensures IsPlain(Digits(n)) && Value(Digits(n)) == n && '\n' !in Digits(n)
  {
    DigitsExactly(n, Digits(n));
    assert forall i | 0 <= i < |Digits(n)| :: IsDigit(Digits(n)[i]);
  }

  /** One content is read off the front. */
  lemma ParseOfFrame(content: string, rest: string)
    ensures ParseStream(Frame(content) + rest) ==
      match ParseStream(rest) case None => None case Some(others) => Some([content] + others)
  {
    var header, s := Digits(|content|), Frame(content) + rest;
    HeaderIs(|content|);
    assert s == header + ['\n'] + (content + rest);
    SplitAtFirst(header, content + rest, '\n');
    var end := |header| + 1 + |content|;
    assert s[|header| + 1..end] == content && s[end..] == rest;
  }

  /** A stream is uniquely parsed into the contents it was made of. */
  lemma {:induction false} ParseOfStream(files: seq<string>)
    ensures ParseStream(Stream(files)) == Some(files)
  {
    if files != [] {
      ParseOfStream(files[1..]);
      ParseOfFrame(files[0], Stream(files[1..]));
      assert files == [files[0]] + files[1..];
    }
  }

  /** Lists of contents, of any lengths, that give the same stream are equal. */
  lemma StreamInjective(a: seq<string>, b: seq<string>)
    requires Stream(a) == Stream(b)
    ensures a == b
  {
    ParseOfStream(a);
    ParseOfStream(b);
  }

  /** The first line of a stream is the length of the first content, without leading zeros, and that
      content comes next. */
  lemma StreamExactly(content: string, files: seq<string>)
    ensures var s := Stream([content] + files);
      var header := Split(s, '\n')[0];
      && IsPlain(header) && Value(header) == |content|
      && s == header + ['\n'] + (content + Stream(files))
  {
    var header, rest := Digits(|content|), content + Stream(files);
    assert ([content] + files)[1..] == files;
    assert Stream([content] + files) == header + ['\n'] + rest;
    HeaderIs(|content|);
    SplitAtFirst(header, rest, '\n');
  }
}
