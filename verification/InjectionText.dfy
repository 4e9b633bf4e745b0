/**
 The text of the injection script as a shell reads it: the commands and arguments that come
 out of its quotes and substitutions.
 */
module InjectionText {
  import opened Options
  import opened ShellQuote
  import opened DoubleQuotes
  import opened FileInjection
  import Paths

  // ----- The intended commands -------------------------------------------------------

  function Argvs(line: Line): seq<seq<string>> {
    match line
    case EnterWorkspace => [["set", "-eu"], ["cd", Paths.Workspace]]
    case MakeParent(path) => [["mkdir", "-p", Parental(path)]]
    case Copy(dir, key, path) => [["cp", dir + "/" + key, path]]
    case Stage(paths) => [["git", "add", "--force", "--"] + paths]
  }

  function AllArgvs(lines: seq<Line>): seq<seq<string>> {
    if lines == [] then [] else AllArgvs(lines[..|lines| - 1]) + Argvs(lines[|lines| - 1])
  }

  // ----- Reading one line ----------------------------------------------------------------

  predicate AllInert(texts: seq<string>) {
    forall i :: 0 <= i < |texts| ==> Inert(texts[i])
  }

  /** Everything a line puts between double quotes means itself. */
  predicate Readable(line: Line) {
    match line
    case EnterWorkspace => true
    case MakeParent(path) => Inert(path)
    case Copy(dir, key, path) => Inert(dir + "/" + key) && Inert(path)
    case Stage(paths) => AllInert(paths)
  }

  /** Commands, each with the end of its line. */
  function LineTokens(commands: seq<seq<string>>): seq<Token> {
    if commands == [] then [] else Words(commands[0]) + [Newline] + LineTokens(commands[1..])
  }

  lemma AfterAfter(a: seq<Token>, b: seq<Token>, rest: Option<seq<Token>>)
    ensures After(a, After(b, rest)) == After(a + b, rest)
  {
    if rest.Some? { assert a + (b + rest.value) == a + b + rest.value; }
  }

  lemma EndLex(rest: string, word: Option<string>)
    ensures Lex("\n" + rest, word) == After(Delimit(word) + [Newline], Lex(rest, None))
  {
    assert ("\n" + rest)[1..] == rest;
  }

  /** Plain words, the last one at the end of the line. */
  lemma PlainLine(words: seq<string>, last: string, rest: string)
    requires PlainWord(last) && forall i :: 0 <= i < |words| ==> PlainWord(words[i])
    ensures Lex(Spaced(words) + (last + ("\n" + rest)), None) == After(Words(words + [last]) + [Newline], Lex(rest, None))
  {
    hide Lex;
    var tail := "\n" + rest;
    SpacedLex(words, last + tail);
    assert last[0] in last && forall c :: c in last[1..] ==> c in last;
    assert last + tail == [last[0]] + (last[1..] + tail);
    PlainHead(last[0], last[1..] + tail);
    PlainTail(last[1..], tail, [last[0]]);
    assert [last[0]] + last[1..] == last;
    EndLex(rest, Some(last));
    AfterAfter(Words(words), [Word(last)] + [Newline], Lex(rest, None));
    assert Words(words) + ([Word(last)] + [Newline]) == Words(words + [last]) + [Newline];
  }

  lemma TwoWords(a: string, b: string, rest: string)
    requires PlainWord(a) && PlainWord(b)
    ensures Lex(a + " " + (b + ("\n" + rest)), None) == After(Words([a, b]) + [Newline], Lex(rest, None))
  {
    hide Lex, PlainWord;
    PlainLine([a], b, rest);
    OneSpaced(a);
    assert [a] + [b] == [a, b];
  }

  lemma EnterReads(rest: string)
    ensures Lex("set -eu\ncd /workspace\n" + rest, None) == After(LineTokens(Argvs(EnterWorkspace)), Lex(rest, None))
  {
    var second := "cd" + " " + ("/workspace" + ("\n" + rest));
    assert PlainWord("set") && PlainWord("-eu") && PlainWord("cd") && PlainWord("/workspace");
    hide Lex, Words, PlainWord;
    TwoWords("set", "-eu", second);
    TwoWords("cd", "/workspace", rest);
    EnterText(rest, second);
    AfterAfter(Words(["set", "-eu"]) + [Newline], Words(["cd", "/workspace"]) + [Newline], Lex(rest, None));
    TwoLines(["set", "-eu"], ["cd", "/workspace"]);
  }

  lemma EnterText(rest: string, second: string)
    requires second == "cd" + " " + ("/workspace" + ("\n" + rest))
    ensures "set -eu\ncd /workspace\n" + rest == "set" + " " + ("-eu" + ("\n" + second))
  {
  }

  lemma OneSpaced(w: string)
    ensures Spaced([w]) == w + " "
  {
    assert [w][1..] == [];
  }

  lemma OneLine(command: seq<string>)
    ensures LineTokens([command]) == Words(command) + [Newline]
  {
    assert [command][1..] == [];
  }

  lemma TwoLines(a: seq<string>, b: seq<string>)
    ensures LineTokens([a, b]) == Words(a) + [Newline] + (Words(b) + [Newline])
  {
    OneLine(b);
    assert [a, b][1..] == [b];
  }

  lemma MakeParentReads(path: string, rest: string)
    requires Inert(path)
    ensures Lex(FileInjection.Text(MakeParent(path)) + rest, None) == After(LineTokens(Argvs(MakeParent(path))), Lex(rest, None))
  {
    var quoted := "\"$(dirname \"" + path + "\")\"" + ("\n" + rest);
    assert PlainWord("mkdir") && PlainWord("-p");
    hide Lex, PlainWord, Inert, FileInjection.Text, Words, LineTokens, Argvs;
    PlainLex("mkdir", "-p" + " " + quoted);
    PlainLex("-p", quoted);
    DirnameLex(path, "\n" + rest);
    EndLex(rest, Some(Parental(path)));
    MakeParentText(path, rest);
    ThreeWords("mkdir", "-p", Parental(path), rest);
  }

  lemma MakeParentText(path: string, rest: string)
    ensures
      FileInjection.Text(MakeParent(path)) + rest
      == "mkdir" + " " + ("-p" + " " + ("\"$(dirname \"" + path + "\")\"" + ("\n" + rest)))
  {
  }

  lemma ThreeWords(a: string, b: string, c: string, rest: string)
    ensures
      After([Word(a)], After([Word(b)], After([Word(c)] + [Newline], Lex(rest, None))))
      == After(LineTokens([[a, b, c]]), Lex(rest, None))
  {
    hide Lex;
    AfterAfter([Word(b)], [Word(c)] + [Newline], Lex(rest, None));
    AfterAfter([Word(a)], [Word(b)] + ([Word(c)] + [Newline]), Lex(rest, None));
    OneLine([a, b, c]);
    assert [Word(a)] + ([Word(b)] + ([Word(c)] + [Newline])) == Words([a, b, c]) + [Newline];
  }

  /** An inert word in quotes and the blank or end of line behind it. */
  lemma QuotedBlank(t: string, rest: string)
    requires Inert(t)
    ensures Lex("\"" + t + "\"" + (" " + rest), None) == After([Word(t)], Lex(rest, None))
    ensures Lex("\"" + t + "\"" + ("\n" + rest), None) == After([Word(t)] + [Newline], Lex(rest, None))
  {
    hide Lex, Inert;
    assert ShellQuote.Text(None) + t == t;
    InertLex(t, " " + rest, None);
    BlankLex(rest, t);
    InertLex(t, "\n" + rest, None);
    EndLex(rest, Some(t));
  }

  lemma CopyReads(dir: string, key: string, path: string, rest: string)
    requires Inert(dir + "/" + key) && Inert(path)
    ensures Lex(FileInjection.Text(Copy(dir, key, path)) + rest, None) == After(LineTokens(Argvs(Copy(dir, key, path))), Lex(rest, None))
  {
    var from := dir + "/" + key;
    var second := "\"" + path + "\"" + ("\n" + rest);
    var first := "\"" + from + "\"" + (" " + second);
    assert PlainWord("cp");
    hide Lex, PlainWord, Inert, FileInjection.Text, Words, LineTokens, Argvs;
    PlainLex("cp", first);
    QuotedBlank(from, second);
    QuotedBlank(path, rest);
    CopyText(dir, key, path, rest);
    ThreeWords("cp", from, path, rest);
  }

  lemma CopyText(dir: string, key: string, path: string, rest: string)
    ensures
      FileInjection.Text(Copy(dir, key, path)) + rest
      == "cp" + " " + ("\"" + (dir + "/" + key) + "\"" + (" " + ("\"" + path + "\"" + ("\n" + rest))))
  {
  }

  lemma PathsRead(paths: seq<string>, rest: string)
    requires AllInert(paths)
    ensures Lex(QuotedPaths(paths) + ("\n" + rest), Some("--")) == After(Words(["--"] + paths) + [Newline], Lex(rest, None))
    decreases |paths|
  {
    PathsThen(paths, "\n" + rest);
    hide Lex;
    EndLex(rest, Some(LastOf(paths)));
    AfterAfter(Words((["--"] + paths)[..|paths|]), [Word(LastOf(paths))] + [Newline], Lex(rest, None));
    assert Words((["--"] + paths)[..|paths|]) + ([Word(LastOf(paths))] + [Newline]) == Words(["--"] + paths) + [Newline];
  }

  function LastOf(paths: seq<string>): string {
    (["--"] + paths)[|paths|]
  }

  /** The quoted paths of the last line; the last of them is still being read. */
  lemma {:induction false} PathsThen(paths: seq<string>, rest: string)
    requires AllInert(paths)
    ensures Lex(QuotedPaths(paths) + rest, Some("--")) == After(Words((["--"] + paths)[..|paths|]), Lex(rest, Some(LastOf(paths))))
    decreases |paths|
  {
    hide Lex, Inert;
    if paths == [] {
      assert QuotedPaths(paths) + rest == rest;
      assert (["--"] + paths)[..0] == [] && Words([]) == [];
      if Lex(rest, Some("--")).Some? { assert [] + Lex(rest, Some("--")).value == Lex(rest, Some("--")).value; }
    } else {
      var front, last := paths[..|paths| - 1], paths[|paths| - 1];
      var quoted := "\"" + last + "\"" + rest;
      assert QuotedPaths(paths) + rest == QuotedPaths(front) + (" " + quoted);
      assert AllInert(front);
      PathsThen(front, " " + quoted);
      BlankLex(quoted, LastOf(front));
      assert ShellQuote.Text(None) + last == last;
      InertLex(last, rest, None);
      AfterAfter(Words((["--"] + front)[..|front|]), [Word(LastOf(front))], Lex(rest, Some(last)));
      assert Words((["--"] + front)[..|front|]) + [Word(LastOf(front))] == Words((["--"] + paths)[..|paths|]);
    }
  }

  lemma StageReads(paths: seq<string>, rest: string)
    requires AllInert(paths)
    ensures Lex(FileInjection.Text(Stage(paths)) + rest, None) == After(LineTokens(Argvs(Stage(paths))), Lex(rest, None))
  {
    var words := ["git", "add", "--force"];
    var tail := QuotedPaths(paths) + ("\n" + rest);
    assert PlainWord("git") && PlainWord("add") && PlainWord("--force");
    hide Lex, PlainWord, Inert, QuotedPaths, FileInjection.Text, Words, LineTokens, Spaced;
    StageText(paths, rest);
    DashesLex(tail);
    SpacedLex(words, "--" + tail);
    PathsRead(paths, rest);
    AfterAfter(Words(words), Words(["--"] + paths) + [Newline], Lex(rest, None));
    StageTokens(words, paths);
  }

  lemma StageTokens(words: seq<string>, paths: seq<string>)
    requires words == ["git", "add", "--force"]
    ensures Words(words) + (Words(["--"] + paths) + [Newline]) == LineTokens(Argvs(Stage(paths)))
  {
    OneLine(words + ["--"] + paths);
    assert words + ["--"] + paths == ["git", "add", "--force", "--"] + paths;
    assert Words(words) + Words(["--"] + paths) == Words(words + ["--"] + paths);
  }

  lemma StageText(paths: seq<string>, rest: string)
    ensures
      FileInjection.Text(Stage(paths)) + rest
      == Spaced(["git", "add", "--force"]) + ("--" + (QuotedPaths(paths) + ("\n" + rest)))
  {
    hide QuotedPaths, Spaced;
    OneSpaced("--force");
    SpacedTwo("add", "--force");
    SpacedThree();
    assert "git add --force --" == "git " + "add " + "--force " + "--";
  }

  lemma SpacedTwo(a: string, b: string)
    ensures Spaced([a, b]) == a + " " + Spaced([b])
  {
    assert [a, b][1..] == [b];
  }

  lemma SpacedThree()
    ensures Spaced(["git", "add", "--force"]) == "git" + " " + Spaced(["add", "--force"])
  {
    assert ["git", "add", "--force"][1..] == ["add", "--force"];
  }

  lemma DashesLex(tail: string)
    ensures Lex("--" + tail, None) == Lex(tail, Some("--"))
  {
    hide Lex;
    PlainHead('-', "-" + tail);
    PlainTail("-", tail, "-");
    assert "--" + tail == ['-'] + ("-" + tail) && "-" + "-" == "--";
  }

  lemma LineReads(line: Line, rest: string)
    requires Readable(line)
    ensures Lex(FileInjection.Text(line) + rest, None) == After(LineTokens(Argvs(line)), Lex(rest, None))
  {
    hide Lex, LineTokens, Inert;
    match line
    case EnterWorkspace =>
      hide FileInjection.Text;
      EnterReads(rest);
    case MakeParent(path) => MakeParentReads(path, rest);
    case Copy(dir, key, path) => CopyReads(dir, key, path, rest);
    case Stage(paths) => StageReads(paths, rest);
  }

  // ----- Reading the script ------------------------------------------------------------------

  predicate AllReadable(lines: seq<Line>) {
    forall i :: 0 <= i < |lines| ==> Readable(lines[i])
  }

  lemma {:induction false} LineTokensConcat(a: seq<seq<string>>, b: seq<seq<string>>)
    ensures LineTokens(a + b) == LineTokens(a) + LineTokens(b)
  {
    if a == [] {
      assert a + b == b;
    } else {
      assert (a + b)[1..] == a[1..] + b;
      LineTokensConcat(a[1..], b);
    }
  }

  lemma {:induction false} LinesRead(lines: seq<Line>, rest: string)
    requires AllReadable(lines)
    ensures Lex(ScriptText(lines) + rest, None) == After(LineTokens(AllArgvs(lines)), Lex(rest, None))
    decreases |lines|
  {
    hide Lex, LineTokens, FileInjection.Text, Readable, Argvs;
    if lines == [] {
      assert ScriptText(lines) + rest == rest;
      NoTokens(Lex(rest, None));
    } else {
      var front, last := lines[..|lines| - 1], lines[|lines| - 1];
      var more := FileInjection.Text(last) + rest;
      assert ScriptText(lines) + rest == ScriptText(front) + more;
      LinesRead(front, more);
      LineReads(last, rest);
      AfterAfter(LineTokens(AllArgvs(front)), LineTokens(Argvs(last)), Lex(rest, None));
      LineTokensConcat(AllArgvs(front), Argvs(last));
    }
  }

  lemma NoTokens(rest: Option<seq<Token>>)
    ensures After(LineTokens([]), rest) == rest
  {
    if rest.Some? { assert [] + rest.value == rest.value; }
  }

  lemma {:induction false} LinesAreCommands(commands: seq<seq<string>>)
    ensures CommandList(LineTokens(commands), Newline) == Some(commands + [[]])
  {
    if commands == [] {
      assert CommandList([], Newline) == Some([[]]) && commands + [[]] == [[]];
    } else {
      LinesAreCommands(commands[1..]);
      CommandThen(commands[0], LineTokens(commands[1..]), Newline);
      assert [commands[0]] + (commands[1..] + [[]]) == commands + [[]];
    }
  }

  /** Where everything quoted means itself, the script is read as exactly the intended commands. */
  lemma ScriptReads(lines: seq<Line>)
    requires AllReadable(lines)
    ensures SimpleCommands(ScriptText(lines), Newline) == Some(AllArgvs(lines) + [[]])
  {
    hide Lex, LineTokens, CommandList, Readable;
    LinesRead(lines, "");
    assert ScriptText(lines) + "" == ScriptText(lines);
    EmptyLex();
    assert LineTokens(AllArgvs(lines)) + [] == LineTokens(AllArgvs(lines));
    LinesAreCommands(AllArgvs(lines));
  }

  lemma EmptyLex()
    ensures Lex("", None) == Some([])
  {
  }
}
