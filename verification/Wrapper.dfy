/**
 `shlex.quote` and the shell script printed by `GenericBaseRecipe.createWrapper`, proved to
 read back in a POSIX shell as the words it was printed from.
 */
module Wrapper {
  import opened Common
  import opened Shell
  import opened Ordering
  import opened Text
  import Shebang

  // --- shlex.quote ---

  /** What `[\w@%+=:,./-]` matches in ASCII mode. */
  predicate IsSafe(c: char) {
    'a' <= c <= 'z' || 'A' <= c <= 'Z' || '0' <= c <= '9'
    || c in {'_', '@', '%', '+', '=', ':', ',', '.', '/', '-'}
  }

  predicate AllSafe(s: string) { forall i | 0 <= i < |s| :: IsSafe(s[i]) }

  const SPLICE := "'\"'\"'"

  function EscapeOne(c: char): string { if c == '\'' then SPLICE else [c] }

  function Escape(s: string): string { if s == "" then "" else EscapeOne(s[0]) + Escape(s[1..]) }

  function Quote(s: string): string {
    if s == "" then "''"
    else if AllSafe(s) then s
    else "'" + Escape(s) + "'"
  }

  lemma LiteralConcat(s: string, t: string)
    ensures LiteralWord(s + t) == LiteralWord(s) + LiteralWord(t)
    ensures s != "" ==> LiteralWord(s) == [Lit(s[0])] + LiteralWord(s[1..])
  {
  }

  lemma PutTwice(st: Lexer, mode1: Mode, a: Word, mode2: Mode, b: Word)
    requires st.Lexer?
    ensures Put(Put(st, mode1, a), mode2, b) == Put(st, mode2, a + b)
  {
    assert st.word + a + b == st.word + (a + b);
  }

  lemma StepSafe(st: Lexer, c: char)
    requires st.Lexer? && st.mode in {Blank, InWord} && IsSafe(c)
    ensures Step(st, c) == Put(st, InWord, [Lit(c)])
  {
  }

  /** Words of safe characters need no quotes. */
  lemma {:induction false} RunSafe(st: Lexer, s: string)
    requires st.Lexer? && st.mode in {Blank, InWord} && s != "" && AllSafe(s)
    ensures Run(st, s) == Put(st, InWord, LiteralWord(s))
    decreases |s|
  {
    var next, tail := Put(st, InWord, [Lit(s[0])]), s[1..];
    assert IsSafe(s[0]);
    StepSafe(st, s[0]);
    assert Run(st, s) == Run(next, tail);
    LiteralConcat(s, "");
    if tail == "" {
      assert LiteralWord(s) == [Lit(s[0])];
    } else {
      RunSafe(next, tail);
      PutTwice(st, InWord, [Lit(s[0])], InWord, LiteralWord(tail));
    }
  }

  lemma RunSplice(st: Lexer)
    requires st.Lexer? && st.mode == SingleQuote
    ensures Run(st, SPLICE) == Put(st, SingleQuote, [Lit('\'')])
  {
    var s1 := Step(st, '\'');
    var s2 := Step(s1, '"');
    var s3 := Step(s2, '\'');
    var s4 := Step(s3, '"');
    var s5 := Step(s4, '\'');
    assert SPLICE[1..] == "\"'\"'" && SPLICE[1..][1..] == "'\"'" && SPLICE[1..][1..][1..] == "\"'";
    assert SPLICE[1..][1..][1..][1..] == "'" && SPLICE[1..][1..][1..][1..][1..] == "";
    assert Run(st, SPLICE) == Run(s1, SPLICE[1..]) == Run(s2, SPLICE[1..][1..]);
    assert Run(s2, "'\"'") == Run(s3, "\"'") == Run(s4, "'") == s5;
  }

  lemma {:induction false} RunEscape(st: Lexer, s: string)
    requires st.Lexer? && st.mode == SingleQuote && '\0' !in s
    ensures Run(st, Escape(s)) == Put(st, SingleQuote, LiteralWord(s))
    decreases |s|
  {
    if s == "" {
      assert st.word + LiteralWord(s) == st.word;
    } else {
      var next, tail := Put(st, SingleQuote, [Lit(s[0])]), s[1..];
      RunEscapeOne(st, s[0]);
      RunConcat(st, EscapeOne(s[0]), Escape(tail));
      RunEscape(next, tail);
      LiteralConcat(s, "");
      PutTwice(st, SingleQuote, [Lit(s[0])], SingleQuote, LiteralWord(tail));
    }
  }

  lemma RunEscapeOne(st: Lexer, c: char)
    requires st.Lexer? && st.mode == SingleQuote && c != '\0'
    ensures Run(st, EscapeOne(c)) == Put(st, SingleQuote, [Lit(c)])
  {
    if c == '\'' { RunSplice(st); } else { assert Run(st, [c]) == Run(Step(st, c), ""); }
  }

  lemma {:induction false} EscapeKeepsNul(s: string)
    requires '\0' in s
    ensures '\0' in Escape(s)
  {
    if s[0] != '\0' { EscapeKeepsNul(s[1..]); }
  }

  /** Between or inside words, a quoted string is read as its own characters, for every
      string a POSIX script can hold, and a string with a NUL is rejected. */
  lemma QuoteReadsBack(st: Lexer, s: string)
    requires st.Lexer? && st.mode in {Blank, InWord}
    ensures Run(st, Quote(s)) == if '\0' in s then Rejected else Put(st, InWord, LiteralWord(s))
  {
    if s == "" {
      QuoteOfEmpty(st);
    } else if AllSafe(s) {
      SafeHasNoNul(s);
      RunSafe(st, s);
    } else {
      QuotedReads(st, s);
    }
  }

  lemma QuoteOfEmpty(st: Lexer)
    requires st.Lexer? && st.mode in {Blank, InWord}
    ensures Run(st, "''") == Put(st, InWord, LiteralWord(""))
  {
    var open := st.(mode := SingleQuote);
    assert Run(st, "''") == Run(open, "'") == Step(open, '\'');
    assert LiteralWord("") == [];
  }

  lemma QuotedReads(st: Lexer, s: string)
    requires st.Lexer? && st.mode in {Blank, InWord}
    ensures Run(st, "'" + Escape(s) + "'") == if '\0' in s then Rejected else Put(st, InWord, LiteralWord(s))
  {
    var open := st.(mode := SingleQuote);
    assert "'" + Escape(s) + "'" == ['\''] + (Escape(s) + "'");
    RunCons(st, '\'', Escape(s) + "'");
    RunConcat(open, Escape(s), "'");
    if '\0' in s {
      EscapeKeepsNul(s);
      RunNul(open, Escape(s));
      RunRejected("'");
    } else {
      RunEscape(open, s);
      CloseQuote(Put(open, SingleQuote, LiteralWord(s)));
    }
  }

  lemma RunCons(st: Lexer, c: char, text: string)
    ensures Run(st, [c] + text) == Run(Step(st, c), text)
  {
    assert ([c] + text)[1..] == text;
  }

  lemma CloseQuote(st: Lexer)
    requires st.Lexer? && st.mode == SingleQuote
    ensures Run(st, "'") == st.(mode := InWord)
  {
    assert Run(st, "'") == Run(Step(st, '\''), "");
  }

  lemma SafeHasNoNul(s: string)
    requires AllSafe(s)
    ensures '\0' !in s
  {
    forall i | 0 <= i < |s| ensures s[i] != '\0' { assert IsSafe(s[i]); }
  }

  // --- createWrapper ---

  const SHEBANG := "#!/bin/sh -e"
  const ALL_ARGS := "\"$@\""

  function ExportLine(k: string, v: string): string {
    "export " + k + "=" + Quote(v)
  }

  /** One pass of the loop over arguments: extend the last line, or fold it. */
  function Fold(lines: seq<string>, arg: string): (r: seq<string>)
    requires lines != []
    ensures r != []
  {
    var front, last := lines[..|lines| - 1], lines[|lines| - 1];
    if |last| < 40 then front + [last + " " + arg]
    else front + [last + " \\", "\t" + arg]
  }

  function FoldAll(lines: seq<string>, args: seq<string>): (r: seq<string>)
    requires lines != []
    ensures r != []
    decreases |args|
  {
    if args == [] then lines
    else Fold(FoldAll(lines, args[..|args| - 1]), Quote(args[|args| - 1]))
  }

  function Exports(keys: seq<string>, env: map<string, string>): seq<string>
    requires forall k | k in keys :: k in env
  {
    if keys == [] then []
    else Exports(keys[..|keys| - 1], env) + [ExportLine(keys[|keys| - 1], env[keys[|keys| - 1]])]
  }

  function Header(keys: seq<string>, env: map<string, string>, sigIgn: string): seq<string>
    requires forall k | k in keys :: k in env
  {
    [SHEBANG] + (if sigIgn == "" then [] else ["trap '' " + sigIgn]) + Exports(keys, env)
  }

  /** The text of the script; `keys` lists the keys of `env` in order. */
  function Script(args: seq<string>, keys: seq<string>, env: map<string, string>, sigIgn: string): string
    requires forall k | k in keys :: k in env
  {
    Join(Fold(FoldAll(Header(keys, env, sigIgn) + ["exec"], args), ALL_ARGS) + [""], "\n")
  }

  /** The loop over the sorted environment. */
  method AddExports(start: seq<string>, keys: seq<string>, env: map<string, string>)
    returns (lines: seq<string>)
    requires forall k | k in keys :: k in env
    ensures lines == start + Exports(keys, env)
  {
    lines := start;
    for i := 0 to |keys|
      invariant lines == start + Exports(keys[..i], env)
    {
      assert keys[..i + 1][..i] == keys[..i];
      lines := lines + [ExportLine(keys[i], env[keys[i]])];
    }
    assert keys[..|keys|] == keys;
  }

  /** The loop over the quoted arguments. */
  method AddArguments(start: seq<string>, args: seq<string>) returns (lines: seq<string>)
    requires start != []
    ensures lines == FoldAll(start, args)
  {
    lines := start;
    for i := 0 to |args|
      invariant lines == FoldAll(start, args[..i])
    {
      assert args[..i + 1][..i] == args[..i];
      lines := Fold(lines, Quote(args[i]));
    }
    assert args[..|args|] == args;
  }

  // --- What the shell reads ---

  function ExportCommand(k: string, v: string): Command {
    [LiteralWord("export"), LiteralWord(k + "=" + v)]
  }

  function ExportCommands(keys: seq<string>, env: map<string, string>): seq<Command>
    requires forall k | k in keys :: k in env
  {
    if keys == [] then []
    else ExportCommands(keys[..|keys| - 1], env)
         + [ExportCommand(keys[|keys| - 1], env[keys[|keys| - 1]])]
  }

  function LiteralWords(args: seq<string>): (ws: seq<Word>)
    ensures |ws| == |args|
    ensures forall i | 0 <= i < |args| :: ws[i] == LiteralWord(args[i])
  {
    seq(|args|, i requires 0 <= i < |args| => LiteralWord(args[i]))
  }

  function TrapCommands(sigIgn: string): seq<Command> {
    if sigIgn == "" then [] else [[LiteralWord("trap"), LiteralWord(""), LiteralWord(sigIgn)]]
  }

  /** The trap, one export per entry, and an exec of the arguments followed by `"$@"`. */
  function Commands(args: seq<string>, keys: seq<string>, env: map<string, string>, sigIgn: string): seq<Command>
    requires forall k | k in keys :: k in env
  {
    TrapCommands(sigIgn) + ExportCommands(keys, env)
    + [[LiteralWord("exec")] + LiteralWords(args) + [[AllArgs]]]
  }

  ghost predicate NulFree(args: seq<string>, env: map<string, string>) {
    (forall a | a in args :: '\0' !in a) && (forall k | k in env :: '\0' !in env[k])
  }

  /** The state between two lines, after `commands`. */
  function LineStart(commands: seq<Command>): Lexer { Lexer(Blank, [], [], commands) }

  /** The state inside the last of the words `ws` of a line. */
  function InLine(ws: seq<Word>, commands: seq<Command>): Lexer
    requires ws != []
  {
    Lexer(InWord, ws[|ws| - 1], ws[..|ws| - 1], commands)
  }

  lemma RunChar(st: Lexer, c: char)
    ensures Run(st, [c]) == Step(st, c)
  {
    assert Run(st, [c]) == Run(Step(st, c), [c][1..]);
  }

  lemma NewLine(ws: seq<Word>, commands: seq<Command>)
    requires ws != []
    ensures Run(InLine(ws, commands), "\n") == LineStart(commands + [ws])
  {
    RunChar(InLine(ws, commands), '\n');
    assert ws == ws[..|ws| - 1] + [ws[|ws| - 1]];
  }

  /** A separating blank, folded or not, and the text of the next word. */
  lemma NextWord(ws: seq<Word>, commands: seq<Command>, glue: string, text: string, w: Word)
    requires ws != [] && glue in {" ", " \\\n\t"}
    requires Run(Lexer(Blank, [], ws, commands), text) == Lexer(InWord, w, ws, commands)
    ensures Run(InLine(ws, commands), glue + text) == InLine(ws + [w], commands)
  {
    var st, blank := InLine(ws, commands), Lexer(Blank, [], ws, commands);
    assert ws == ws[..|ws| - 1] + [ws[|ws| - 1]];
    assert Run(st, glue) == blank by {
      RunChar(st, ' ');
      if glue != " " {
        RunConcat(st, " ", "\\\n\t");
        var esc := Step(blank, '\\');
        assert "\\\n\t"[1..] == "\n\t" && "\n\t"[1..] == "\t";
        assert Run(blank, "\\\n\t") == Run(esc, "\n\t") == Run(blank, "\t");
        RunChar(blank, '\t');
      }
    }
    RunConcat(st, glue, text);
    assert (ws + [w])[..|ws|] == ws;
  }

  lemma NextQuoted(ws: seq<Word>, commands: seq<Command>, glue: string, s: string)
    requires ws != [] && glue in {" ", " \\\n\t"} && '\0' !in s
    ensures Run(InLine(ws, commands), glue + Quote(s)) == InLine(ws + [LiteralWord(s)], commands)
  {
    var blank := Lexer(Blank, [], ws, commands);
    QuoteReadsBack(blank, s);
    assert [] + LiteralWord(s) == LiteralWord(s);
    NextWord(ws, commands, glue, Quote(s), LiteralWord(s));
  }

  lemma FirstWord(commands: seq<Command>, s: string)
    requires s != "" && AllSafe(s)
    ensures Run(LineStart(commands), s) == InLine([LiteralWord(s)], commands)
  {
    RunSafe(LineStart(commands), s);
    assert [] + LiteralWord(s) == LiteralWord(s);
  }

  lemma ExportPieces(k: string, v: string)
    ensures ExportLine(k, v) == "export" + ((" " + (k + "=")) + Quote(v))
    ensures ExportCommand(k, v) == [LiteralWord("export")] + [LiteralWord((k + "=") + v)]
  {
    assert "export " == "export" + " ";
    assert (k + "=") + v == k + "=" + v;
  }

  lemma ExportReads(commands: seq<Command>, k: string, v: string)
    requires AllSafe(k) && '\0' !in v
    ensures Run(LineStart(commands), ExportLine(k, v)) == InLine(ExportCommand(k, v), commands)
  {
    var name, ke := "export", k + "=";
    assert forall i | 0 <= i < |ke| :: IsSafe(ke[i]);
    var ws := [LiteralWord(name)];
    FirstWord(commands, name);
    ExportKeyReads(ws, commands, ke);
    ExportValueReads(ws, commands, ke, v);
    ExportPieces(k, v);
    assert AllSafe(name);
    RunConcat(LineStart(commands), name, (" " + ke) + Quote(v));
    RunConcat(InLine(ws, commands), " " + ke, Quote(v));
  }

  lemma ExportKeyReads(ws: seq<Word>, commands: seq<Command>, ke: string)
    requires ws != [] && ke != "" && AllSafe(ke)
    ensures Run(InLine(ws, commands), " " + ke) == InLine(ws + [LiteralWord(ke)], commands)
  {
    RunSafe(Lexer(Blank, [], ws, commands), ke);
    assert [] + LiteralWord(ke) == LiteralWord(ke);
    NextWord(ws, commands, " ", ke, LiteralWord(ke));
  }

  lemma ExportValueReads(ws: seq<Word>, commands: seq<Command>, ke: string, v: string)
    requires '\0' !in v
    ensures Run(InLine(ws + [LiteralWord(ke)], commands), Quote(v)) == InLine(ws + [LiteralWord(ke + v)], commands)
  {
    QuoteReadsBack(InLine(ws + [LiteralWord(ke)], commands), v);
    LiteralConcat(ke, v);
    GrowLastWord(ws, commands, LiteralWord(ke), LiteralWord(v));
  }

  lemma GrowLastWord(ws: seq<Word>, commands: seq<Command>, w: Word, more: Word)
    ensures Put(InLine(ws + [w], commands), InWord, more) == InLine(ws + [w + more], commands)
  {
    assert (ws + [w])[..|ws|] == ws == (ws + [w + more])[..|ws|];
  }

  lemma TrapReads(commands: seq<Command>, sig: string)
    requires sig != "" && AllSafe(sig)
    ensures Run(LineStart(commands), "trap '' " + sig)
         == InLine([LiteralWord("trap"), LiteralWord(""), LiteralWord(sig)], commands)
  {
    var name := "trap";
    var w1 := [LiteralWord(name)];
    assert AllSafe(name);
    FirstWord(commands, name);
    SafeHasNoNul(sig);
    TrapWordsRead(w1, commands, sig);
    RunConcat(LineStart(commands), name, " ''" + (" " + sig));
    assert "trap '' " + sig == name + (" ''" + (" " + sig));
    assert w1 + [LiteralWord(""), LiteralWord(sig)] == [LiteralWord("trap"), LiteralWord(""), LiteralWord(sig)];
  }

  lemma TrapWordsRead(ws: seq<Word>, commands: seq<Command>, sig: string)
    requires ws != [] && '\0' !in sig && sig != "" && AllSafe(sig)
    ensures Run(InLine(ws, commands), " ''" + (" " + sig)) == InLine(ws + [LiteralWord(""), LiteralWord(sig)], commands)
  {
    NextQuoted(ws, commands, " ", "");
    NextQuoted(ws + [LiteralWord("")], commands, " ", sig);
    RunConcat(InLine(ws, commands), " ''", " " + sig);
    assert " " + Quote("") == " ''";
    assert ws + [LiteralWord("")] + [LiteralWord(sig)] == ws + [LiteralWord(""), LiteralWord(sig)];
  }

  lemma {:induction false} CommentReads(st: Lexer, text: string)
    requires st.Lexer? && st.mode == Comment && '\n' !in text && '\0' !in text
    ensures Run(st, text) == st
    decreases |text|
  {
    if text != "" { CommentReads(st, text[1..]); }
  }

  /** A complete line after complete lines. */
  lemma AddLine(lines: seq<string>, line: string, ws: seq<Word>, commands: seq<Command>)
    requires lines != [] && ws != []
    requires Run(START, Join(lines, "\n") + "\n") == LineStart(commands)
    requires Run(LineStart(commands), line) == InLine(ws, commands)
    ensures Run(START, Join(lines + [line], "\n")) == InLine(ws, commands)
    ensures Run(START, Join(lines + [line], "\n") + "\n") == LineStart(commands + [ws])
  {
    JoinAppend(lines, line, "\n");
    RunConcat(START, Join(lines, "\n") + "\n", line);
    RunConcat(START, Join(lines + [line], "\n"), "\n");
    NewLine(ws, commands);
  }

  lemma CommentLineReads(text: string)
    requires '\n' !in text && '\0' !in text
    ensures Run(START, Join(["#" + text], "\n") + "\n") == LineStart([])
  {
    var st := START.(mode := Comment);
    RunConcat(START, "#", text);
    RunChar(START, '#');
    CommentReads(st, text);
    RunConcat(START, "#" + text, "\n");
    RunChar(st, '\n');
  }

  lemma {:induction false} ExportsRead(lines: seq<string>, commands: seq<Command>, keys: seq<string>,
                                       env: map<string, string>)
    requires lines != [] && Run(START, Join(lines, "\n") + "\n") == LineStart(commands)
    requires forall k | k in keys :: k in env && AllSafe(k) && '\0' !in env[k]
    ensures Run(START, Join(lines + Exports(keys, env), "\n") + "\n")
         == LineStart(commands + ExportCommands(keys, env))
  {
    if keys == [] {
      assert lines + [] == lines && commands + [] == commands;
    } else {
      var front, k := keys[..|keys| - 1], keys[|keys| - 1];
      ExportsRead(lines, commands, front, env);
      var before, done := lines + Exports(front, env), commands + ExportCommands(front, env);
      ExportReads(done, k, env[k]);
      AddLine(before, ExportLine(k, env[k]), ExportCommand(k, env[k]), done);
      assert lines + Exports(keys, env) == before + [ExportLine(k, env[k])];
      assert commands + ExportCommands(keys, env) == done + [ExportCommand(k, env[k])];
    }
  }

  lemma HeaderReads(keys: seq<string>, env: map<string, string>, sigIgn: string)
    requires forall k | k in keys :: k in env && AllSafe(k) && '\0' !in env[k]
    requires AllSafe(sigIgn)
    ensures Run(START, Join(Header(keys, env, sigIgn), "\n") + "\n")
         == LineStart(TrapCommands(sigIgn) + ExportCommands(keys, env))
  {
    CommentLineReads("!/bin/sh -e");
    assert SHEBANG == "#" + "!/bin/sh -e";
    var top := [SHEBANG];
    if sigIgn != "" {
      var line, trap := "trap '' " + sigIgn, TrapCommands(sigIgn)[0];
      TrapReads([], sigIgn);
      AddLine(top, line, trap, []);
      top := top + [line];
      assert [] + [trap] == TrapCommands(sigIgn);
    }
    ExportsRead(top, TrapCommands(sigIgn), keys, env);
    assert Header(keys, env, sigIgn) == top + Exports(keys, env);
  }

  lemma FoldShort(lines: seq<string>, arg: string)
    requires lines != [] && |lines[|lines| - 1]| < 40
    ensures Join(Fold(lines, arg), "\n") == Join(lines, "\n") + (" " + arg)
  {
    var last := lines[|lines| - 1];
    assert last + " " + arg == last + (" " + arg);
    JoinExtendLast(lines, " " + arg, "\n");
  }

  lemma FoldLong(lines: seq<string>, arg: string)
    requires lines != [] && |lines[|lines| - 1]| >= 40
    ensures Join(Fold(lines, arg), "\n") == Join(lines, "\n") + (" \\\n\t" + arg)
  {
    var longer := lines[..|lines| - 1] + [lines[|lines| - 1] + " \\"];
    assert Fold(lines, arg) == longer + ["\t" + arg];
    JoinExtendLast(lines, " \\", "\n");
    JoinAppend(longer, "\t" + arg, "\n");
    FoldGlue(Join(lines, "\n"), arg);
  }

  lemma FoldGlue(text: string, arg: string)
    ensures text + " \\" + "\n" + ("\t" + arg) == text + (" \\\n\t" + arg)
  {
  }

  /** Folding only inserts a blank, or once the last line has 40 characters an escaped newline and a
      tab, before the next word. */
  lemma FoldText(lines: seq<string>, arg: string) returns (glue: string)
    requires lines != []
    ensures glue == if |lines[|lines| - 1]| < 40 then " " else " \\\n\t"
    ensures Join(Fold(lines, arg), "\n") == Join(lines, "\n") + (glue + arg)
  {
    if |lines[|lines| - 1]| < 40 {
      glue := " ";
      FoldShort(lines, arg);
    } else {
      glue := " \\\n\t";
      FoldLong(lines, arg);
    }
  }

  lemma ArgumentReads(lines: seq<string>, ws: seq<Word>, commands: seq<Command>, a: string)
    requires lines != [] && ws != [] && '\0' !in a
    requires Run(START, Join(lines, "\n")) == InLine(ws, commands)
    ensures Run(START, Join(Fold(lines, Quote(a)), "\n")) == InLine(ws + [LiteralWord(a)], commands)
  {
    var glue := FoldText(lines, Quote(a));
    NextQuoted(ws, commands, glue, a);
    RunConcat(START, Join(lines, "\n"), glue + Quote(a));
  }

  /** The words of the exec line, wherever it is folded. */
  lemma {:induction false} ArgumentsRead(start: seq<string>, ws: seq<Word>, commands: seq<Command>, args: seq<string>)
    requires start != [] && ws != []
    requires Run(START, Join(start, "\n")) == InLine(ws, commands)
    requires forall a | a in args :: '\0' !in a
    ensures Run(START, Join(FoldAll(start, args), "\n")) == InLine(ws + LiteralWords(args), commands)
    decreases |args|
  {
    if args == [] {
      assert ws + LiteralWords(args) == ws;
    } else {
      var front, a := args[..|args| - 1], args[|args| - 1];
      ArgumentsRead(start, ws, commands, front);
      ArgumentReads(FoldAll(start, front), ws + LiteralWords(front), commands, a);
      LiteralWordsGrow(ws, args);
    }
  }

  lemma LiteralWordsGrow(ws: seq<Word>, args: seq<string>)
    requires args != []
    ensures ws + LiteralWords(args)
         == ws + LiteralWords(args[..|args| - 1]) + [LiteralWord(args[|args| - 1])]
  {
    assert LiteralWords(args) == LiteralWords(args[..|args| - 1]) + [LiteralWord(args[|args| - 1])];
  }

  lemma AllArgsReads(st: Lexer)
    requires st.Lexer? && st.mode == Blank
    ensures Run(st, ALL_ARGS) == Put(st, InWord, [AllArgs])
  {
    var open := st.(mode := DoubleQuote);
    var done := Put(open, DoubleQuote, [AllArgs]);
    assert ALL_ARGS[1..] == "$@\"" && "$@\""[1..] == "@\"" && "@\""[1..] == "\"";
    assert Run(st, ALL_ARGS) == Run(open, "$@\"") == Run(open.(mode := DoubleDollar), "@\"") == Run(done, "\"");
    RunChar(done, '"');
  }

  lemma ScriptReads(args: seq<string>, keys: seq<string>, env: map<string, string>, sigIgn: string)
    requires forall k | k in keys :: k in env && AllSafe(k) && '\0' !in env[k]
    requires AllSafe(sigIgn) && forall a | a in args :: '\0' !in a
    ensures Run(START, Script(args, keys, env, sigIgn)) == LineStart(Commands(args, keys, env, sigIgn))
  {
    var header := Header(keys, env, sigIgn);
    var commands := TrapCommands(sigIgn) + ExportCommands(keys, env);
    var ws := [LiteralWord("exec")];
    HeaderReads(keys, env, sigIgn);
    assert AllSafe("exec");
    FirstWord(commands, "exec");
    AddLine(header, "exec", ws, commands);
    ArgumentsRead(header + ["exec"], ws, commands, args);
    var lines, words := FoldAll(header + ["exec"], args), ws + LiteralWords(args);
    var glue := FoldText(lines, ALL_ARGS);
    AllArgsReads(Lexer(Blank, [], words, commands));
    assert [] + [AllArgs] == [AllArgs];
    NextWord(words, commands, glue, ALL_ARGS, [AllArgs]);
    RunConcat(START, Join(lines, "\n"), glue + ALL_ARGS);
    var folded := Fold(lines, ALL_ARGS);
    JoinAppend(folded, "", "\n");
    assert Join(folded, "\n") + "\n" + "" == Join(folded, "\n") + "\n";
    RunConcat(START, Join(folded, "\n"), "\n");
    NewLine(words + [[AllArgs]], commands);
  }

  // --- Scripts that cannot be printed ---

  lemma QuoteKeepsNul(s: string)
    requires '\0' in s
    ensures '\0' in Quote(s)
  {
    if AllSafe(s) { SafeHasNoNul(s); } else { EscapeKeepsNul(s); }
  }

  lemma {:induction false} JoinHolds(lines: seq<string>, line: string, c: char)
    requires line in lines && c in line
    ensures c in Join(lines, "\n")
  {
    if |lines| > 1 && lines[0] != line { JoinHolds(lines[1..], line, c); }
  }

  lemma {:induction false} ExportsKeepNul(keys: seq<string>, env: map<string, string>, k: string)
    requires (forall j | j in keys :: j in env) && k in keys && '\0' in env[k]
    ensures ExportLine(k, env[k]) in Exports(keys, env) && '\0' in ExportLine(k, env[k])
  {
    QuoteKeepsNul(env[k]);
    if k != keys[|keys| - 1] {
      ExportsKeepNul(keys[..|keys| - 1], env, k);
    }
  }

  lemma {:induction false} FoldAllKeepsNul(start: seq<string>, args: seq<string>)
    requires start != [] && ('\0' in Join(start, "\n") || exists a :: a in args && '\0' in a)
    ensures '\0' in Join(FoldAll(start, args), "\n")
    decreases |args|
  {
    if args != [] {
      var front, a := args[..|args| - 1], args[|args| - 1];
      var glue := FoldText(FoldAll(start, front), Quote(a));
      if '\0' in a { QuoteKeepsNul(a); } else { FoldAllKeepsNul(start, front); }
    }
  }

  lemma ScriptKeepsNul(args: seq<string>, keys: seq<string>, env: map<string, string>, sigIgn: string)
    requires IsListing(keys, env.Keys) && !NulFree(args, env)
    ensures '\0' in Script(args, keys, env, sigIgn)
  {
    var start := Header(keys, env, sigIgn) + ["exec"];
    if k :| k in env && '\0' in env[k] {
      ExportsKeepNul(keys, env, k);
      assert ExportLine(k, env[k]) in start;
      JoinHolds(start, ExportLine(k, env[k]), '\0');
    }
    FoldAllKeepsNul(start, args);
    var lines := FoldAll(start, args);
    var glue := FoldText(lines, ALL_ARGS);
    JoinAppend(Fold(lines, ALL_ARGS), "", "\n");
  }

  /** The printed script is a POSIX shell script for exactly the given environment and
      arguments, whatever they contain and wherever it is folded, and it is one if and only
      if no string holds a NUL. */
  lemma ScriptReadsBack(args: seq<string>, keys: seq<string>, env: map<string, string>, sigIgn: string)
    requires IsListing(keys, env.Keys)
    requires AllSafe(sigIgn) && forall k | k in env :: AllSafe(k)
    ensures Parse(Script(args, keys, env, sigIgn))
         == if NulFree(args, env) then Some(Commands(args, keys, env, sigIgn)) else None
  {
    if NulFree(args, env) {
      ScriptReads(args, keys, env, sigIgn);
    } else {
      ScriptKeepsNul(args, keys, env, sigIgn);
      RunNul(START, Script(args, keys, env, sigIgn));
    }
  }

  /** The statements of `createWrapper`, with the keys of the environment in order. */
  method PrintScript(args: seq<string>, keys: seq<string>, env: map<string, string>, sigIgn: string)
    returns (content: string)
    requires forall k | k in keys :: k in env
    ensures content == Script(args, keys, env, sigIgn)
  {
    var lines := [SHEBANG];
    if sigIgn != "" {
      lines := lines + ["trap '' " + sigIgn];
    }
    lines := AddExports(lines, keys, env);
    lines := lines + ["exec"];
    assert lines == Header(keys, env, sigIgn) + ["exec"];
    lines := AddArguments(lines, args);
    lines := Fold(lines, ALL_ARGS);
    lines := lines + [""];
    content := Join(lines, "\n");
  }

  /** `createWrapper` without `kw`: the content of the shell script, with the keys of the
      environment in order, who reads it, and what a shell reads in it. */
  method CreateWrapper(args: seq<string>, env: map<string, string>, sigIgn: string) returns (content: string)
    requires args != []
    ensures exists keys ::
      && IsListing(keys, env.Keys) && content == Script(args, keys, env, sigIgn)
      && (AllSafe(sigIgn) && (forall k | k in env :: AllSafe(k)) ==>
            Parse(content) == if NulFree(args, env) then Some(Commands(args, keys, env, sigIgn)) else None)
    ensures Shebang.Interpreter(content) == Some(("/bin/sh", "-e"))
  {
    var keys := SortedKeys(env.Keys);
    content := PrintScript(args, keys, env, sigIgn);
    ScriptRuns(args, keys, env, sigIgn);
  }

  /** What the kernel and the shell make of the script. */
  lemma ScriptRuns(args: seq<string>, keys: seq<string>, env: map<string, string>, sigIgn: string)
    requires IsListing(keys, env.Keys)
    ensures Shebang.Interpreter(Script(args, keys, env, sigIgn)) == Some(("/bin/sh", "-e"))
    ensures AllSafe(sigIgn) && (forall k | k in env :: AllSafe(k)) ==>
      Parse(Script(args, keys, env, sigIgn)) ==
      if NulFree(args, env) then Some(Commands(args, keys, env, sigIgn)) else None
  {
    ScriptNamesShell(args, keys, env, sigIgn);
    if AllSafe(sigIgn) && forall k | k in env :: AllSafe(k) {
      ScriptReadsBack(args, keys, env, sigIgn);
    }
  }

  // --- Who reads the script ---

  lemma {:induction false} FoldAllKeepsFirst(lines: seq<string>, args: seq<string>)
    requires |lines| >= 2
    ensures |FoldAll(lines, args)| >= 2 && FoldAll(lines, args)[0] == lines[0]
    decreases |args|
  {
    if args != [] { FoldAllKeepsFirst(lines, args[..|args| - 1]); }
  }

  lemma JoinStarts(lines: seq<string>, sep: string)
    requires |lines| >= 2
    ensures Join(lines, sep) == lines[0] + sep + Join(lines[1..], sep)
  {
  }

  /** The kernel runs the script with `/bin/sh -e`, whatever it is printed from. */
  lemma ScriptNamesShell(args: seq<string>, keys: seq<string>, env: map<string, string>, sigIgn: string)
    requires forall k | k in keys :: k in env
    ensures Shebang.Interpreter(Script(args, keys, env, sigIgn)) == Some(("/bin/sh", "-e"))
  {
    var start := Header(keys, env, sigIgn) + ["exec"];
    FoldAllKeepsFirst(start, args);
    var lines := Fold(FoldAll(start, args), ALL_ARGS) + [""];
    assert lines[0] == start[0] == "#!/bin/sh -e";
    JoinStarts(lines, "\n");
    assert "#!/bin/sh -e" == "#!" + ("/bin/sh" + " " + "-e");
    Shebang.InterpreterIs("/bin/sh", "-e", Join(lines[1..], "\n"));
  }

  // --- How a word is quoted ---

  /** A string is printed as it is exactly when it is not empty and has only these characters. */
  lemma QuotesOnlyWhenNeeded(s: string)
    ensures Quote(s) == s <==> s != "" && forall i | 0 <= i < |s| ::
              s[i] in LOWER || s[i] in UPPER || s[i] in OTHERS
  {
    forall i | 0 <= i < |s| ensures IsSafe(s[i]) <==> s[i] in LOWER || s[i] in UPPER || s[i] in OTHERS {
      SafeExactly(s[i]);
    }
    if s != "" && !AllSafe(s) { assert Quote(s)[0] == '\''; EscapeGrows(s); }
  }

  lemma {:induction false} EscapeGrows(s: string)
    ensures |Escape(s)| >= |s|
  {
    if s != "" { EscapeGrows(s[1..]); }
  }

  const OTHERS := "0123456789_@%+=:,./-"

  lemma OtherExactly(c: char)
    ensures c in OTHERS <==> '0' <= c <= '9' || c in {'_', '@', '%', '+', '=', ':', ',', '.', '/', '-'}
  {
    if '0' <= c <= '9' { assert OTHERS[c as int - 48] == c; }
    assert OTHERS[10] == '_' && OTHERS[11] == '@' && OTHERS[12] == '%' && OTHERS[13] == '+' && OTHERS[14] == '=';
    assert OTHERS[15] == ':' && OTHERS[16] == ',' && OTHERS[17] == '.' && OTHERS[18] == '/' && OTHERS[19] == '-';
  }

  lemma SafeExactly(c: char)
    ensures IsSafe(c) <==> c in LOWER || c in UPPER || c in OTHERS
  {
    LetterExactly(c);
    OtherExactly(c);
  }

  lemma {:induction false} EscapeOfBoth(s: string, t: string)
    ensures Escape(s + t) == Escape(s) + Escape(t)
  {
    if s == "" {
      assert s + t == t;
    } else {
      assert (s + t)[1..] == s[1..] + t;
      EscapeOfBoth(s[1..], t);
    }
  }

  lemma {:induction false} EscapeOfPlain(s: string)
    requires '\'' !in s
    ensures Escape(s) == s
  {
    if s != "" {
      EscapeOfPlain(s[1..]);
      assert s == [s[0]] + s[1..];
    }
  }

  /** Between single quotes, each single quote is a double-quoted one, and all else is itself. */
  lemma EscapeExactly(s: string, t: string)
    ensures Escape(s + "'" + t) == Escape(s) + "'\"'\"'" + Escape(t)
    ensures '\'' !in s ==> Escape(s) == s
  {
    EscapeOfBoth(s + "'", t);
    EscapeOfBoth(s, "'");
    assert "'"[1..] == "" && Escape("'") == "'\"'\"'";
    if '\'' !in s { EscapeOfPlain(s); }
  }

  // --- Different calls print different scripts ---

  lemma {:induction false} ExportCommandsAre(keys: seq<string>, env: map<string, string>)
    requires forall k | k in keys :: k in env
    ensures |ExportCommands(keys, env)| == |keys|
    ensures forall i | 0 <= i < |keys| :: ExportCommands(keys, env)[i] == ExportCommand(keys[i], env[keys[i]])
    decreases |keys|
  {
    if keys != [] { ExportCommandsAre(keys[..|keys| - 1], env); }
  }

  /** An identifier ends where the first equals sign is. */
  lemma SameExport(k1: string, v1: string, k2: string, v2: string)
    requires '=' !in k1 && '=' !in k2 && ExportCommand(k1, v1) == ExportCommand(k2, v2)
    ensures k1 == k2 && v1 == v2
  {
    var t1, t2 := k1 + "=" + v1, k2 + "=" + v2;
    assert ExportCommand(k1, v1)[1] == ExportCommand(k2, v2)[1];
    LiteralWordInjective(t1, t2);
    SplitAtFirst(k1, v1, '=');
    SplitAtFirst(k2, v2, '=');
    assert k1 == Split(t1, '=')[0] == Split(t2, '=')[0] == k2;
    assert v1 == t1[|k1| + 1..] == t2[|k2| + 1..] == v2;
  }

  lemma SameExports(keys1: seq<string>, env1: map<string, string>, keys2: seq<string>, env2: map<string, string>)
    requires IsListing(keys1, env1.Keys) && IsListing(keys2, env2.Keys)
    requires (forall k | k in env1 :: '=' !in k) && (forall k | k in env2 :: '=' !in k)
    requires ExportCommands(keys1, env1) == ExportCommands(keys2, env2)
    ensures env1 == env2
  {
    ExportCommandsAre(keys1, env1);
    ExportCommandsAre(keys2, env2);
    forall i | 0 <= i < |keys1| ensures keys1[i] == keys2[i] && env1[keys1[i]] == env2[keys2[i]] {
      assert keys1[i] in env1 && keys2[i] in env2;
      SameExport(keys1[i], env1[keys1[i]], keys2[i], env2[keys2[i]]);
    }
    assert keys1 == keys2;
    forall k | k in env1 ensures k in env2 && env1[k] == env2[k] {
      var i :| 0 <= i < |keys1| && keys1[i] == k;
    }
    assert forall k | k in env2 :: k in keys2;
  }

  /** The first word tells a trap from an export and from the exec. */
  lemma FirstWordIs(args: seq<string>, keys: seq<string>, env: map<string, string>, sigIgn: string)
    requires forall k | k in keys :: k in env
    ensures var c := Commands(args, keys, env, sigIgn);
      c != [] && c[0] != [] && (c[0][0] == LiteralWord("trap") <==> sigIgn != "")
  {
    ExportCommandsAre(keys, env);
    assert LiteralWord("exec")[0] == Lit('e') && LiteralWord("export")[0] == Lit('e')
        && LiteralWord("trap")[0] == Lit('t');
  }

  lemma SameArguments(args1: seq<string>, args2: seq<string>)
    requires [LiteralWord("exec")] + LiteralWords(args1) + [[AllArgs]]
             == [LiteralWord("exec")] + LiteralWords(args2) + [[AllArgs]]
    ensures args1 == args2
  {
    var e1, e2 := [LiteralWord("exec")] + LiteralWords(args1) + [[AllArgs]],
        [LiteralWord("exec")] + LiteralWords(args2) + [[AllArgs]];
    assert |args1| == |e1| - 2 == |e2| - 2 == |args2|;
    forall i | 0 <= i < |args1| ensures args1[i] == args2[i] {
      assert e1[i + 1] == LiteralWord(args1[i]) && e2[i + 1] == LiteralWord(args2[i]);
      LiteralWordInjective(args1[i], args2[i]);
    }
  }

  lemma SameTrap(sig1: string, sig2: string)
    requires sig1 != "" && sig2 != "" && TrapCommands(sig1)[0] == TrapCommands(sig2)[0]
    ensures sig1 == sig2
  {
    assert TrapCommands(sig1)[0][2] == TrapCommands(sig2)[0][2];
    LiteralWordInjective(sig1, sig2);
  }

  lemma SameCommands(args1: seq<string>, keys1: seq<string>, env1: map<string, string>, sig1: string,
                     args2: seq<string>, keys2: seq<string>, env2: map<string, string>, sig2: string)
    requires (forall k | k in keys1 :: k in env1) && (forall k | k in keys2 :: k in env2)
    requires Commands(args1, keys1, env1, sig1) == Commands(args2, keys2, env2, sig2)
    ensures args1 == args2 && sig1 == sig2 && ExportCommands(keys1, env1) == ExportCommands(keys2, env2)
  {
    var c1, c2 := Commands(args1, keys1, env1, sig1), Commands(args2, keys2, env2, sig2);
    FirstWordIs(args1, keys1, env1, sig1);
    FirstWordIs(args2, keys2, env2, sig2);
    assert c1[|c1| - 1] == c2[|c2| - 1];
    SameArguments(args1, args2);
    var n := |TrapCommands(sig1)|;
    if sig1 != "" {
      assert c1[0] == TrapCommands(sig1)[0] && c2[0] == TrapCommands(sig2)[0];
      SameTrap(sig1, sig2);
    }
    assert ExportCommands(keys1, env1) == c1[n..|c1| - 1] == c2[n..|c2| - 1] == ExportCommands(keys2, env2);
  }

  /** Two wrappers with the same text have the same arguments, the same ignored signal and,
      when keys are identifiers, the same environment. */
  lemma SameScriptSameArguments(args1: seq<string>, keys1: seq<string>, env1: map<string, string>, sig1: string,
                                args2: seq<string>, keys2: seq<string>, env2: map<string, string>, sig2: string)
    requires IsListing(keys1, env1.Keys) && IsListing(keys2, env2.Keys)
    requires AllSafe(sig1) && AllSafe(sig2)
    requires (forall k | k in env1 :: AllSafe(k)) && (forall k | k in env2 :: AllSafe(k))
    requires NulFree(args1, env1) && NulFree(args2, env2)
    requires Script(args1, keys1, env1, sig1) == Script(args2, keys2, env2, sig2)
    ensures args1 == args2 && sig1 == sig2
    ensures (forall k | k in env1 :: '=' !in k) && (forall k | k in env2 :: '=' !in k) ==> env1 == env2
  {
    ScriptReadsBack(args1, keys1, env1, sig1);
    ScriptReadsBack(args2, keys2, env2, sig2);
    SameCommands(args1, keys1, env1, sig1, args2, keys2, env2, sig2);
    if (forall k | k in env1 :: '=' !in k) && (forall k | k in env2 :: '=' !in k) {
      SameExports(keys1, env1, keys2, env2);
    }
  }
}
