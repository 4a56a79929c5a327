/**
 Quoting of words for the shell.

 The splitting of a command line into words (sections 2.2 and 2.3 of the POSIX Shell Command Language)
 undoes the quoting, except that empty words vanish; nothing that the shell would treat specially while
 splitting is left outside of quotes.
 */
module Bash {
  import opened Sequences
  import opened Wrappers

  const CHARS_NOT_NEEDING_QUOTING := "_:.-+,/=@[]^"

  predicate IsSafe(c: char) {
    'a' <= c <= 'z' || 'A' <= c <= 'Z' || '0' <= c <= '9' || c in CHARS_NOT_NEEDING_QUOTING
  }

  predicate AllSafe(s: string) {
    forall i :: 0 <= i < |s| ==> IsSafe(s[i])
  }

  /** Between single quotes; a single quote itself is put after a closing quote with a backslash. */
  function Escaped(s: string): string {
    if s == [] then "" else Escaped(s[..|s| - 1]) + EscapedChar(s[|s| - 1])
  }

  function EscapedChar(c: char): string {
    if c == '\'' then "'\\''" else [c]
  }

  function Literal(s: string): string {
    if AllSafe(s) then s else "'" + Escaped(s) + "'"
  }

  predicate IsPlain(c: char) {
    || 'a' <= c <= 'z' || 'A' <= c <= 'Z' || '0' <= c <= '9'
    || c in {'_', ':', '.', '-', '+', ',', '/', '=', '@', '[', ']', '^'}
  }

  lemma SafeIsPlain(c: char)
    ensures IsSafe(c) <==> IsPlain(c)
  {
    var s := CHARS_NOT_NEEDING_QUOTING;
    assert s[0] == '_' && s[1] == ':' && s[2] == '.' && s[3] == '-' && s[4] == '+' && s[5] == ',';
    assert s[6] == '/' && s[7] == '=' && s[8] == '@' && s[9] == '[' && s[10] == ']' && s[11] == '^';
  }

  /** Letters, digits and these signs are written as they are; any other character brings at least the quotes. */
  lemma QuotedOnlyIfNeeded(s: string)
    ensures |Literal(s)| == |s| <==> forall i :: 0 <= i < |s| ==> IsPlain(s[i])
  {
    EscapedIsNotShorter(s);
    forall i | 0 <= i < |s| { SafeIsPlain(s[i]); }
  }

  lemma {:induction false} EscapedIsNotShorter(s: string)
    ensures |Escaped(s)| >= |s|
  {
    if s != [] {
      EscapedIsNotShorter(s[..|s| - 1]);
    }
  }

  method BashStringLiteral(s: string) returns (r: string)
    ensures r == Literal(s)
  {
    if AllSafe(s) {
      return s;
    }
    var ss, i := "'", 0;
    while i < |s|
      invariant i <= |s| && ss == "'" + Escaped(s[..i])
    {
      assert s[..i + 1][..i] == s[..i];
      Associate("'", Escaped(s[..i]), EscapedChar(s[i]));
      if s[i] == '\'' {
        ss := ss + "'";
        ss := ss + "\\";
        ss := ss + "'";
        ss := ss + "'";
        assert ss == "'" + Escaped(s[..i]) + "'\\''";
      } else {
        ss := ss + [s[i]];
      }
      i := i + 1;
    }
    assert s[..i] == s;
    r := ss + "'";
  }

  /** The literals of the words with a space between them. */
  function FromCmd(words: seq<string>): string {
    if words == [] then ""
    else if |words| == 1 then Literal(words[0])
    else FromCmd(words[..|words| - 1]) + " " + Literal(words[|words| - 1])
  }

  method FromProgramAndArgs(program: string, args: seq<string>) returns (cmd: string)
    ensures cmd == FromCmd([program] + args)
  {
    cmd := BashStringLiteral(program);
    FromCmdOfOne(program, args);
    var i := 0;
    while i < |args|
      invariant i <= |args| && cmd == FromCmd([program] + args[..i])
    {
      NextArg(program, args, i);
      cmd := cmd + " ";
      var literal := BashStringLiteral(args[i]);
      cmd := cmd + literal;
      i := i + 1;
    }
    assert args[..i] == args;
  }

  lemma FromCmdOfOne(program: string, args: seq<string>)
    ensures FromCmd([program] + args[..0]) == Literal(program)
  {
    assert [program] + args[..0] == [program];
  }

  lemma NextArg(program: string, args: seq<string>, i: nat)
    requires i < |args|
    ensures FromCmd([program] + args[..i + 1]) == FromCmd([program] + args[..i]) + " " + Literal(args[i])
  {
    assert [program] + args[..i + 1] == ([program] + args[..i]) + [args[i]];
    FromCmdSnoc([program] + args[..i], args[i]);
  }

  lemma FromCmdSnoc(words: seq<string>, word: string)
    requires words != []
    ensures FromCmd(words + [word]) == FromCmd(words) + " " + Literal(word)
  {
    assert (words + [word])[..|words|] == words;
  }

  function ExportVariable(name: string, val: string): string {
    "export" + " " + Literal(name) + "=" + Literal(val)
  }

  // ---- The shell

  datatype Mode = Between | InWord | InQuotes | AfterBackslash(inWord: bool)

  /** Operators, expansions and double quotes, which this splitter does not accept outside of quotes. */
  predicate IsSpecial(c: char) {
    c in "|&;<>()$`\"\n"
  }

  /** What a character does: it belongs to the word, it does not, or it ends the word. */
  datatype Effect = Add | Skip | EndWord | Refuse

  function Next(mode: Mode, c: char): (Mode, Effect) {
    if mode.InQuotes? then
      if c == '\'' then (InWord, Skip) else (InQuotes, Add)
    else if mode.AfterBackslash? then
      if c == '\n' then (if mode.inWord then InWord else Between, Skip) else (InWord, Add)
    else if c == '\'' then (InQuotes, Skip)
    else if c == '\\' then (AfterBackslash(mode.InWord?), Skip)
    else if c == ' ' || c == '\t' then (Between, if mode.InWord? then EndWord else Skip)
    else if IsSpecial(c) || (mode.Between? && c == '#') then (mode, Refuse)
    else (InWord, Add)
  }

  /** The words before what follows them. */
  function Prepend(words: seq<string>, rest: Option<seq<string>>): Option<seq<string>> {
    if rest.None? then None else Some(words + rest.value)
  }

  /** The words of the rest of a command line, with `word` already read of the current one. */
  function Scan(s: string, mode: Mode, word: string): Option<seq<string>> {
    if s == [] then
      match mode
      case Between => Some([])
      case InWord => Some([word])
      case _ => None
    else
      var (next, effect) := Next(mode, s[0]);
      match effect
      case Add => Scan(s[1..], next, word + [s[0]])
      case Skip => Scan(s[1..], next, word)
      case EndWord => Prepend([word], Scan(s[1..], next, ""))
      case Refuse => None
  }

  function Words(line: string): Option<seq<string>> {
    Scan(line, Between, "")
  }

  // ---- Splitting undoes quoting

  lemma ScanChar(c: char, rest: string, mode: Mode, word: string)
    ensures var (next, effect) := Next(mode, c);
      Scan([c] + rest, mode, word)
      == match effect
         case Add => Scan(rest, next, word + [c])
         case Skip => Scan(rest, next, word)
         case EndWord => Prepend([word], Scan(rest, next, ""))
         case Refuse => None
  {
    assert ([c] + rest)[1..] == rest;
  }

  lemma SafeIsAdded(c: char, mode: Mode)
    requires IsSafe(c) && (mode.Between? || mode.InWord?)
    ensures Next(mode, c) == (InWord, Add)
  {
  }

  lemma ScanSafeChar(c: char, rest: string, mode: Mode, word: string)
    requires IsSafe(c) && (mode.Between? || mode.InWord?)
    ensures Scan([c] + rest, mode, word) == Scan(rest, InWord, word + [c])
  {
    SafeIsAdded(c, mode);
    ScanChar(c, rest, mode, word);
  }

  lemma SafeTail(s: string)
    requires AllSafe(s) && s != []
    ensures IsSafe(s[0]) && AllSafe(s[1..])
  {
  }

  lemma Regrouped(word: string, s: string, rest: string)
    requires s != []
    ensures s + rest == [s[0]] + (s[1..] + rest) && (word + [s[0]]) + s[1..] == word + s
  {
  }

  lemma {:induction false} ScanSafe(s: string, rest: string, mode: Mode, word: string)
    requires AllSafe(s) && s != [] && (mode.Between? || mode.InWord?)
    ensures Scan(s + rest, mode, word) == Scan(rest, InWord, word + s)
    decreases |s|
  {
    SafeTail(s);
    Regrouped(word, s, rest);
    ScanSafeChar(s[0], s[1..] + rest, mode, word);
    if |s| == 1 {
      assert s[1..] == [];
      AppendNothing(rest);
      AppendNothing(word + [s[0]]);
    } else {
      ScanSafe(s[1..], rest, InWord, word + [s[0]]);
    }
  }

  lemma ScanEscapedChar(c: char, rest: string, word: string)
    ensures Scan(EscapedChar(c) + rest, InQuotes, word) == Scan(rest, InQuotes, word + [c])
  {
    if c == '\'' {
      ScanChar('\'', rest, InWord, word + [c]);
      ScanChar('\'', "'" + rest, AfterBackslash(true), word);
      ScanChar('\\', "'" + ("'" + rest), InWord, word);
      ScanChar('\'', "\\" + ("'" + ("'" + rest)), InQuotes, word);
      assert EscapedChar(c) + rest == "'" + ("\\" + ("'" + ("'" + rest)));
    } else {
      ScanChar(c, rest, InQuotes, word);
    }
  }

  lemma {:induction false} ScanEscaped(s: string, rest: string, word: string)
    ensures Scan(Escaped(s) + rest, InQuotes, word) == Scan(rest, InQuotes, word + s)
    decreases |s|
  {
    if s == [] {
      assert Escaped(s) + rest == rest;
      assert word + s == word;
    } else {
      var front, c := s[..|s| - 1], s[|s| - 1];
      assert Escaped(s) + rest == Escaped(front) + (EscapedChar(c) + rest);
      ScanEscaped(front, EscapedChar(c) + rest, word);
      ScanEscapedChar(c, rest, word + front);
      assert word + front + [c] == word + s;
    }
  }

  /** A literal adds its word to the current one; the literal of an empty word leaves no trace. */
  lemma ScanLiteral(s: string, rest: string, mode: Mode, word: string)
    requires mode.Between? || mode.InWord?
    ensures Scan(Literal(s) + rest, mode, word) == Scan(rest, if s == [] then mode else InWord, word + s)
  {
    if s == [] {
      assert Literal(s) + rest == rest;
      assert word + s == word;
    } else if AllSafe(s) {
      ScanSafe(s, rest, mode, word);
    } else {
      assert Literal(s) + rest == "'" + (Escaped(s) + ("'" + rest));
      ScanChar('\'', Escaped(s) + ("'" + rest), mode, word);
      ScanEscaped(s, "'" + rest, word);
      ScanChar('\'', rest, InQuotes, word + s);
    }
  }

  function NonEmpty(words: seq<string>): seq<string> {
    if words == [] then []
    else NonEmpty(words[..|words| - 1]) + Single(words[|words| - 1])
  }

  lemma ScanSpace(rest: string, word: string)
    ensures Scan(" " + rest, InWord, word) == Prepend([word], Scan(rest, Between, ""))
    ensures Scan(" " + rest, Between, word) == Scan(rest, Between, word)
  {
    ScanChar(' ', rest, InWord, word);
    ScanChar(' ', rest, Between, word);
  }

  /** The word of a literal that a space follows, unless it is empty. */
  function Single(word: string): seq<string> {
    if word == "" then [] else [word]
  }

  lemma ScanWord(word: string, rest: string)
    ensures Scan(Literal(word) + (" " + rest), Between, "") == Prepend(Single(word), Scan(rest, Between, ""))
  {
    ScanLiteral(word, " " + rest, Between, "");
    ScanSpace(rest, word);
    assert "" + word == word;
    if word == "" && Scan(rest, Between, "").Some? {
      assert [] + Scan(rest, Between, "").value == Scan(rest, Between, "").value;
    }
  }

  lemma {:induction false} ScanCmd(words: seq<string>, rest: string)
    requires words != []
    ensures Scan(FromCmd(words) + (" " + rest), Between, "") == Prepend(NonEmpty(words), Scan(rest, Between, ""))
    decreases |words|
  {
    var front, last := words[..|words| - 1], words[|words| - 1];
    ScanWord(last, rest);
    if front == [] {
      assert NonEmpty(words) == Single(last);
    } else {
      var tail := Literal(last) + (" " + rest);
      ScanCmd(front, tail);
      CmdWithTail(words, " " + rest);
      PrependTwice(NonEmpty(front), Single(last), Scan(rest, Between, ""));
    }
  }

  lemma CmdWithTail(words: seq<string>, tail: string)
    requires |words| > 1
    ensures FromCmd(words) + tail == FromCmd(words[..|words| - 1]) + (" " + (Literal(words[|words| - 1]) + tail))
  {
    var a, b := FromCmd(words[..|words| - 1]), Literal(words[|words| - 1]);
    Associate(a + " ", b, tail);
    Associate(a, " ", b + tail);
  }

  lemma PrependTwice(a: seq<string>, b: seq<string>, rest: Option<seq<string>>)
    ensures Prepend(a, Prepend(b, rest)) == Prepend(a + b, rest)
  {
    if rest.Some? {
      assert a + (b + rest.value) == a + b + rest.value;
    }
  }

  lemma WordsOfLiteral(word: string)
    ensures Words(Literal(word)) == Some(Single(word))
  {
    ScanLiteral(word, "", Between, "");
    assert Literal(word) + "" == Literal(word);
    assert "" + word == word;
  }

  /** The shell reads back the words of a command, except for the empty ones. */
  lemma WordsOfCmd(words: seq<string>)
    ensures Words(FromCmd(words)) == Some(NonEmpty(words))
  {
    if words != [] {
      var front, last := words[..|words| - 1], words[|words| - 1];
      WordsOfLiteral(last);
      if front == [] {
        assert NonEmpty(words) == Single(last);
      } else {
        ScanCmd(front, Literal(last));
        assert FromCmd(words) == FromCmd(front) + (" " + Literal(last));
      }
    }
  }

  lemma {:induction false} NonEmptyKeeps(words: seq<string>)
    ensures |NonEmpty(words)| <= |words|
    ensures NonEmpty(words) == words <==> "" !in words
  {
    if words != [] {
      var front, last := words[..|words| - 1], words[|words| - 1];
      NonEmptyKeeps(front);
      assert words == front + [last];
      if last == "" {
        assert |NonEmpty(words)| < |words|;
      }
    }
  }

  /** Quoting is undone exactly for commands without an empty word. */
  lemma RoundTripExactly(words: seq<string>)
    ensures Words(FromCmd(words)) == Some(words) <==> "" !in words
  {
    WordsOfCmd(words);
    NonEmptyKeeps(words);
  }

  /** Exporting a variable is one argument, for every name and value, also an empty value. */
  lemma ExportIsOneArgument(name: string, val: string)
    ensures Words(ExportVariable(name, val)) == Some(["export", name + "=" + val])
  {
    var assignment := Literal(name) + ("=" + Literal(val));
    ExportText(name, val);
    ScanWord("export", assignment);
    ScanAssignment(name, val);
    assert ["export"] + [name + "=" + val] == ["export", name + "=" + val];
  }

  lemma ExportText(name: string, val: string)
    ensures Literal("export") == "export"
    ensures ExportVariable(name, val) == Literal("export") + (" " + (Literal(name) + ("=" + Literal(val))))
  {
    LettersAreSafe("export");
    Regroup("export", Literal(name), Literal(val));
  }

  lemma LettersAreSafe(s: string)
    requires forall i :: 0 <= i < |s| ==> 'a' <= s[i] <= 'z'
    ensures AllSafe(s)
  {
  }

  lemma Regroup(a: string, b: string, c: string)
    ensures a + " " + b + "=" + c == a + (" " + (b + ("=" + c)))
  {
    assert a + " " + b + "=" + c == a + (" " + (b + ("=" + c)));
  }

  lemma ScanAssignment(name: string, val: string)
    ensures Scan(Literal(name) + ("=" + Literal(val)), Between, "") == Some([name + "=" + val])
  {
    ScanLiteral(name, "=" + Literal(val), Between, "");
    assert "" + name == name;
    ScanValue(if name == [] then Between else InWord, name, val);
  }

  lemma ScanValue(mode: Mode, word: string, val: string)
    requires mode.Between? || mode.InWord?
    ensures Scan("=" + Literal(val), mode, word) == Some([word + "=" + val])
  {
    ScanChar('=', Literal(val), mode, word);
    ScanLiteral(val, "", InWord, word + "=");
    assert Literal(val) + "" == Literal(val);
  }
}
