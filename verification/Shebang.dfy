/** How `execve` on Linux reads the first line of a script. */
module Shebang {
  import opened Common
  import opened Text

  predicate IsGap(c: char) { c == ' ' || c == '\t' }

  function SkipGaps(s: string): string { if s != "" && IsGap(s[0]) then SkipGaps(s[1..]) else s }

  function DropGaps(s: string): string { if s != "" && IsGap(s[|s| - 1]) then DropGaps(s[..|s| - 1]) else s }

  /** The length of what precedes the first gap. */
  function NameLength(s: string): (n: nat)
    ensures n <= |s|
  {
    if s == "" || IsGap(s[0]) then 0 else 1 + NameLength(s[1..])
  }

  /** The interpreter and its one argument, which is all that is left of the line; None for a file
      that does not start with `#!`. */
  function Interpreter(content: string): Option<(string, string)> {
    if !("#!" <= content) then None
    else
      var line := SkipGaps(DropGaps(Split(content[2..], '\n')[0]));
      var n := NameLength(line);
      Some((line[..n], SkipGaps(line[n..])))
  }

  predicate IsName(s: string) { s != "" && forall i | 0 <= i < |s| :: !IsGap(s[i]) && s[i] != '\n' }

  lemma NothingSkipped(line: string)
    requires line != "" && !IsGap(line[0]) && !IsGap(line[|line| - 1])
    ensures SkipGaps(DropGaps(line)) == line
  {
  }

  lemma OneSkipped(argument: string)
    requires IsName(argument)
    ensures SkipGaps(" " + argument) == argument
  {
    assert (" " + argument)[1..] == argument;
    assert SkipGaps(argument) == argument;
  }

  lemma LineParts(name: string, argument: string)
    requires IsName(name) && IsName(argument)
    ensures var line := name + " " + argument;
      && '\n' !in line && SkipGaps(DropGaps(line)) == line && NameLength(line) == |name|
      && line[..|name|] == name && SkipGaps(line[|name|..]) == argument
  {
    var line := name + " " + argument;
    assert line == name + (" " + argument);
    assert line[0] == name[0] && line[|line| - 1] == argument[|argument| - 1];
    NothingSkipped(line);
    NameEnds(name, " " + argument);
    assert line[|name|..] == " " + argument;
    OneSkipped(argument);
  }

  lemma FirstLineOf(line: string, rest: string)
    requires '\n' !in line
    ensures var content := "#!" + line + "\n" + rest; "#!" <= content && Split(content[2..], '\n')[0] == line
  {
    var content := "#!" + line + "\n" + rest;
    assert content[..2] == "#!" && content[2..] == line + ['\n'] + rest;
    SplitAtFirst(line, rest, '\n');
  }

  lemma InterpreterIs(name: string, argument: string, rest: string)
    requires IsName(name) && IsName(argument)
    ensures Interpreter("#!" + (name + " " + argument) + "\n" + rest) == Some((name, argument))
  {
    LineParts(name, argument);
    FirstLineOf(name + " " + argument, rest);
  }

  lemma {:induction false} NameEnds(name: string, rest: string)
    requires (forall i | 0 <= i < |name| :: !IsGap(name[i])) && rest != "" && IsGap(rest[0])
    ensures NameLength(name + rest) == |name|
  {
    if name == "" {
      assert name + rest == rest;
    } else {
      assert (name + rest)[1..] == name[1..] + rest;
      NameEnds(name[1..], rest);
    }
  }
}
