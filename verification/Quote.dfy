/** Quoting of arguments for the device's shell, and the part of the shell that takes it off again. */
module Quote {

  import opened Options
  import opened Text

  function Escaped(arg: string): string {
    if arg == [] then []
    else if arg[0] == '\'' then "'\\''" + Escaped(arg[1..])
    else [arg[0]] + Escaped(arg[1..])
  }

  function Quoted(arg: string): string {
    ['\''] + Escaped(arg) + ['\'']
  }

  method ShellQuote(arg: string) returns (out: string)
    ensures out == Quoted(arg)
  {
    out := ['\''];
    assert arg[0..] == arg;
    for i := 0 to |arg|
      invariant ['\''] + Escaped(arg) == out + Escaped(arg[i..])
    {
      assert arg[i..][1..] == arg[i + 1..];
      if arg[i] == '\'' {
        assert out + ("'\\''" + Escaped(arg[i + 1..])) == out + "'\\''" + Escaped(arg[i + 1..]);
        out := out + "'\\''";
      } else {
        out := out + [arg[i]];
      }
    }
    assert out + Escaped([]) == out;
    out := out + ['\''];
  }

  // ---------- the shell's side ----------

  /** Characters that mean something to the shell outside quotes, by section 2.2 of the POSIX.1-2017
      Shell Command Language. */
  predicate IsSpecial(c: char) {
    c in "|&;<>()$`\"\n*?[#~=%"
  }

  predicate IsBlank(c: char) {
    c == ' ' || c == '\t'
  }

  function Grown(word: Option<string>, c: char): Option<string> {
    if word.Some? then Some(word.value + [c]) else Some([c])
  }

  /** Words by sections 2.2.1 and 2.2.2: a backslash keeps the next character, single quotes keep
      everything up to the next one. There are no words if a quote stays open, if a text holds a
      character no shell text can hold, or if a character reaches the shell with a meaning. */
  function ShellWords(s: string, quoted: bool, word: Option<string>): Option<seq<string>>
    decreases |s|
  {
    if s == [] then
      if quoted then None else Some(if word.Some? then [word.value] else [])
    else if s[0] == '\0' then None
    else if quoted then
      if s[0] == '\'' then ShellWords(s[1..], false, word) else ShellWords(s[1..], true, Grown(word, s[0]))
    else if s[0] == '\'' then ShellWords(s[1..], true, if word.Some? then word else Some([]))
    else if s[0] == '\\' then
      if |s| == 1 || s[1] == '\0' then None
      else if s[1] == '\n' then ShellWords(s[2..], false, word)
      else ShellWords(s[2..], false, Grown(word, s[1]))
    else if IsBlank(s[0]) then
      match ShellWords(s[1..], false, None)
      case None => None
      case Some(rest) => Some(if word.Some? then [word.value] + rest else rest)
    else if IsSpecial(s[0]) then None
    else ShellWords(s[1..], false, Grown(word, s[0]))
  }

  /** The shell's side outside quotes: words end at spaces and tabs, and a character with a meaning makes it
      something else than words. */
  lemma OutsideQuotes(word: string, rest: string, c: char)
    ensures c == ' ' || c == '\t' ==>
      ShellWords([c] + rest, false, Some(word)) ==
        match ShellWords(rest, false, None) case None => None case Some(words) => Some([word] + words)
    ensures c == '|' || c == '&' || c == ';' || c == '<' || c == '>' || c == '(' || c == ')' || c == '$' || c == '`' || c == '"' ==>
      ShellWords([c] + rest, false, Some(word)).None?
    ensures c == '\n' || c == '*' || c == '?' || c == '[' || c == '#' || c == '~' || c == '=' || c == '%' ==>
      ShellWords([c] + rest, false, Some(word)).None?
  {
    assert ([c] + rest)[1..] == rest;
    assert forall i :: 0 <= i < |"|&;<>()$`\"\n*?[#~=%"| ==> IsSpecial("|&;<>()$`\"\n*?[#~=%"[i]);
    assert "|&;<>()$`\"\n*?[#~=%"[..10] == "|&;<>()$`\"" && "|&;<>()$`\"\n*?[#~=%"[10..] == "\n*?[#~=%";
  }

  function QuotedAll(args: seq<string>): seq<string> {
    seq(|args|, i requires 0 <= i < |args| => Quoted(args[i]))
  }

  function CommandLine(args: seq<string>): string {
    Join(QuotedAll(args), ' ')
  }

  lemma EscapeIsRead(word: string, rest: string)
    ensures ShellWords("'\\''" + rest, true, Some(word)) == ShellWords(rest, true, Some(word + ['\'']))
  {
    var s1, s2 := "\\''" + rest, "'" + rest;
    var s := "'\\''" + rest;
    assert s[1..] == s1 && s1[2..] == s2 && s2[1..] == rest;
    assert ShellWords(s, true, Some(word)) == ShellWords(s1, false, Some(word));
    assert ShellWords(s1, false, Some(word)) == ShellWords(s2, false, Some(word + ['\'']));
  }

  lemma PlainIsRead(c: char, word: string, more: string)
    requires c != '\0' && c != '\''
    ensures ShellWords([c] + more, true, Some(word)) == ShellWords(more, true, Some(word + [c]))
  {
    assert ([c] + more)[1..] == more;
  }

  /** One character of the argument. */
  lemma {:induction false} OneEscapedIsRead(arg: string, word: string, rest: string)
    requires arg != [] && arg[0] != '\0'
    ensures ShellWords(Escaped(arg) + rest, true, Some(word))
         == ShellWords(Escaped(arg[1..]) + rest, true, Some(word + [arg[0]]))
  {
    var more := Escaped(arg[1..]) + rest;
    if arg[0] == '\'' {
      assert Escaped(arg) + rest == "'\\''" + more;
      EscapeIsRead(word, more);
    } else {
      assert Escaped(arg) + rest == [arg[0]] + more;
      PlainIsRead(arg[0], word, more);
    }
  }

  lemma {:induction false} EscapedIsRead(arg: string, word: string, rest: string)
    requires '\0' !in arg
    ensures ShellWords(Escaped(arg) + rest, true, Some(word)) == ShellWords(rest, true, Some(word + arg))
    decreases |arg|
  {
    if arg == [] {
      assert Escaped(arg) + rest == rest && word + arg == word;
    } else {
      OneEscapedIsRead(arg, word, rest);
      EscapedIsRead(arg[1..], word + [arg[0]], rest);
      assert word + [arg[0]] + arg[1..] == word + arg;
    }
  }

  lemma QuotedIsOneWord(arg: string, rest: string)
    requires '\0' !in arg
    ensures ShellWords(Quoted(arg) + rest, false, None) == ShellWords(rest, false, Some(arg))
  {
    var s := Quoted(arg) + rest;
    assert s[1..] == Escaped(arg) + (['\''] + rest);
    EscapedIsRead(arg, [], ['\''] + rest);
    assert [] + arg == arg && (['\''] + rest)[1..] == rest;
  }

  lemma {:induction false} ArgumentsAreRead(args: seq<string>)
    requires forall arg :: arg in args ==> '\0' !in arg
    ensures ShellWords(CommandLine(args), false, None) == Some(args)
  {
    if args != [] {
      var line, first := CommandLine(args), args[0];
      assert QuotedAll(args)[1..] == QuotedAll(args[1..]);
      if |args| == 1 {
        QuotedIsOneWord(first, []);
        assert line == Quoted(first) + [];
        assert args == [first];
      } else {
        var tail := CommandLine(args[1..]);
        assert line == Quoted(first) + ([' '] + tail);
        QuotedIsOneWord(first, [' '] + tail);
        assert ([' '] + tail)[1..] == tail;
        ArgumentsAreRead(args[1..]);
        assert args == [first] + args[1..];
      }
    }
  }

  lemma {:induction false} NulIsRefused(s: string, quoted: bool, word: Option<string>)
    requires '\0' in s
    ensures ShellWords(s, quoted, word) == None
    decreases |s|
  {
    if s[0] != '\0' {
      assert s == [s[0]] + s[1..];
      if !quoted && s[0] == '\\' && s[1] != '\0' {
        assert s[1..] == [s[1]] + s[2..];
        NulIsRefused(s[2..], false, word);
        NulIsRefused(s[2..], false, Grown(word, s[1]));
      } else {
        NulIsRefused(s[1..], false, word);
        NulIsRefused(s[1..], false, None);
        NulIsRefused(s[1..], false, Grown(word, s[0]));
        NulIsRefused(s[1..], true, Grown(word, s[0]));
        NulIsRefused(s[1..], true, if word.Some? then word else Some([]));
      }
    }
  }

  lemma {:induction false} NulStays(args: seq<string>, arg: string)
    requires arg in args && '\0' in arg
    ensures '\0' in CommandLine(args)
  {
    assert QuotedAll(args)[1..] == QuotedAll(args[1..]);
    if arg == args[0] {
      NulStaysEscaped(arg);
    } else {
      NulStays(args[1..], arg);
    }
  }

  lemma {:induction false} NulStaysEscaped(arg: string)
    requires '\0' in arg
    ensures '\0' in Escaped(arg)
  {
    if arg[0] != '\0' {
      NulStaysEscaped(arg[1..]);
    }
  }

  /** Quoted arguments joined by spaces come out of the shell as exactly those arguments, one word
      each, if and only if no argument holds a NUL. */
  lemma QuotingRoundTrip(args: seq<string>)
    ensures ShellWords(CommandLine(args), false, None) == Some(args) <==> forall arg :: arg in args ==> '\0' !in arg
  {
    if arg :| arg in args && '\0' in arg {
      NulStays(args, arg);
      NulIsRefused(CommandLine(args), false, None);
    } else {
      ArgumentsAreRead(args);
    }
  }
}
