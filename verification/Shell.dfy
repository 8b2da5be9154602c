/**
 The fragment of the POSIX.1-2017 Shell Command Language that a wrapper script uses:
 quoting (section 2.2) and token recognition (section 2.3), as a machine that reads one
 character at a time. A construct outside the fragment (operators, expansions other than
 `$@` inside double quotes, a NUL, an unterminated quote) makes the machine reject, so a
 script that parses has exactly the meaning given here.
 */
module Shell {
  import opened Common

  /** A piece of a word after quote removal. `Special` is an unquoted character that the
      shell would still expand (pathname or tilde expansion); `AllArgs` is `"$@"`. */
  datatype Piece = Lit(c: char) | Special(c: char) | AllArgs

  type Word = seq<Piece>
  type Command = seq<Word>

  datatype Mode = Blank | InWord | Backslash(inWord: bool)
                | SingleQuote | DoubleQuote | DoubleBackslash | DoubleDollar | Comment

  /** `word` is the word being read, `words` the finished words of the current line, and
      `commands` the finished lines. */
  datatype Lexer = Rejected
                 | Lexer(mode: Mode, word: Word, words: seq<Word>, commands: seq<Command>)

  const START := Lexer(Blank, [], [], [])

  predicate IsBlank(c: char) { c == ' ' || c == '\t' }

  predicate StartsOperatorOrExpansion(c: char) {
    c in {'&', '|', ';', '<', '>', '(', ')', '$', '`'}
  }

  predicate IsPattern(c: char) { c in {'*', '?', '[', '~'} }

  function EndWord(st: Lexer): Lexer
    requires st.Lexer?
  {
    if st.mode == InWord then Lexer(Blank, [], st.words + [st.word], st.commands)
    else st.(mode := Blank)
  }

  function EndLine(st: Lexer): Lexer
    requires st.Lexer?
  {
    var ended := EndWord(st);
    if ended.words == [] then ended
    else Lexer(Blank, [], [], ended.commands + [ended.words])
  }

  function Put(st: Lexer, mode: Mode, pieces: Word): Lexer
    requires st.Lexer?
  {
    st.(mode := mode, word := st.word + pieces)
  }

  /** Sections 2.2.1 to 2.2.3 and the rules of section 2.3, one character at a time. */
  function Step(st: Lexer, c: char): Lexer {
    if st.Rejected? || c == '\0' then Rejected
    else match st.mode
      case Blank => if c == '#' then st.(mode := Comment) else Unquoted(st, c)
      case InWord => Unquoted(st, c)
      case Backslash(inWord) =>
        if c == '\n' then st.(mode := if inWord then InWord else Blank)
        else Put(st, InWord, [Lit(c)])
      case SingleQuote =>
        if c == '\'' then st.(mode := InWord) else Put(st, SingleQuote, [Lit(c)])
      case DoubleQuote =>
        if c == '"' then st.(mode := InWord)
        else if c == '\\' then st.(mode := DoubleBackslash)
        else if c == '$' then st.(mode := DoubleDollar)
        else if c == '`' then Rejected
        else Put(st, DoubleQuote, [Lit(c)])
      case DoubleBackslash =>
        if c == '\n' then st.(mode := DoubleQuote)
        else if c in {'$', '`', '"', '\\'} then Put(st, DoubleQuote, [Lit(c)])
        else Put(st, DoubleQuote, [Lit('\\'), Lit(c)])
      case DoubleDollar =>
        if c == '@' then Put(st, DoubleQuote, [AllArgs]) else Rejected
      case Comment =>
        if c == '\n' then EndLine(st) else st
  }

  function Unquoted(st: Lexer, c: char): Lexer
    requires st.Lexer?
  {
    if IsBlank(c) then EndWord(st)
    else if c == '\n' then EndLine(st)
    else if c == '\'' then st.(mode := SingleQuote)
    else if c == '"' then st.(mode := DoubleQuote)
    else if c == '\\' then st.(mode := Backslash(st.mode == InWord))
    else if StartsOperatorOrExpansion(c) then Rejected
    else Put(st, InWord, [if IsPattern(c) then Special(c) else Lit(c)])
  }

  function Run(st: Lexer, text: string): Lexer
    decreases |text|
  {
    if text == "" then st else Run(Step(st, text[0]), text[1..])
  }

  /** The command lines of a whole script, or None when it is outside the fragment. */
  function Parse(text: string): Option<seq<Command>> {
    var st := Run(START, text);
    if st.Lexer? && st.mode in {Blank, InWord, Comment} then Some(EndLine(st).commands) else None
  }

  lemma {:induction false} RunConcat(st: Lexer, a: string, b: string)
    ensures Run(st, a + b) == Run(Run(st, a), b)
    decreases |a|
  {
    if a == "" {
      assert a + b == b;
    } else {
      assert (a + b)[1..] == a[1..] + b;
      RunConcat(Step(st, a[0]), a[1..], b);
    }
  }

  lemma {:induction false} RunRejected(text: string)
    ensures Run(Rejected, text) == Rejected
  {
    if text != "" { RunRejected(text[1..]); }
  }

  lemma {:induction false} RunNul(st: Lexer, text: string)
    requires '\0' in text
    ensures Run(st, text) == Rejected
    decreases |text|
  {
    if text[0] == '\0' {
      RunRejected(text[1..]);
    } else {
      RunNul(Step(st, text[0]), text[1..]);
    }
  }

  /** The word made of the characters of `s` and nothing the shell would expand. */
  function LiteralWord(s: string): (w: Word)
    ensures |w| == |s|
    ensures forall i | 0 <= i < |s| :: w[i] == Lit(s[i])
  {
    seq(|s|, i requires 0 <= i < |s| => Lit(s[i]))
  }

  lemma LiteralWordInjective(s: string, t: string)
    requires LiteralWord(s) == LiteralWord(t)
    ensures s == t
  {
    forall i | 0 <= i < |s| ensures s[i] == t[i] {
      assert LiteralWord(s)[i] == LiteralWord(t)[i];
    }
  }
}
