/**
 The commands stamped into a pod, and what a shell makes of them: through every level
 of `sh -c` the intended argument lists come out unchanged.
 */
module Commands {
  import opened Options
  import opened Texts
  import opened ShellQuote

  // ----- What is stamped ---------------------------------------------------------

  function RunCommand(run: string, args: seq<string>, flags: seq<string>): seq<string> {
    ["nix", "run"] + flags + [run] + (if |args| > 0 then ["--"] + args else [])
  }

  function BuildCommand(run: string, prebuild: seq<string>, flags: seq<string>): seq<string> {
    ["nix", "build"] + flags + [run] + prebuild
  }

  function PushCommand(run: string, prebuild: seq<string>, url: string): seq<string> {
    ["nix", "copy", "--to", url] + ([run] + prebuild)
  }

  const WithSSH := "exec nix shell nixpkgs#openssh --command "
  const WithSSHScript := "exec nix shell nixpkgs#openssh --command sh -c "

  function WrapSSH(cmd: seq<string>, needsSSH: bool): seq<string> {
    if needsSSH then ["sh", "-c", WithSSH + ShellJoin(cmd)] else cmd
  }

  /** `pushURL` is empty when the store has none; `ssh` tells that a store-owned key is used. */
  function InstantiateCommand(run: string, prebuild: seq<string>, flags: seq<string>, ssh: bool, pushURL: string): seq<string> {
    if ssh && pushURL != "" then
      var build := ShellJoin(BuildCommand(run, prebuild, flags));
      var push := ShellJoin(PushCommand(run, prebuild, pushURL));
      ["sh", "-c", WithSSHScript + Quote(build + " && " + push)]
    else WrapSSH(BuildCommand(run, prebuild, flags), ssh)
  }

  // ----- What it does -----------------------------------------------------------------

  /** `exec`, and a `nix shell` that only puts a package on the search path, run the rest of their arguments. */
  function Unwrapped(argv: seq<string>): seq<string> {
    if |argv| > 5 && argv[..5] == ["exec", "nix", "shell", "nixpkgs#openssh", "--command"] then argv[5..] else argv
  }

  /**
   The commands that end up being executed, in order, each only if those before succeeded;
   `levels` bounds the nesting of shells followed.
   */
  function Executed(argv: seq<string>, levels: nat): Option<seq<seq<string>>>
    decreases levels, 0
  {
    if |argv| == 3 && argv[..2] == ["sh", "-c"] then
      if levels == 0 then None
      else
        match SimpleCommands(argv[2], AndIf)
        case None => None
        case Some(commands) => ExecutedAll(commands, levels - 1)
    else Some([argv])
  }

  function ExecutedAll(commands: seq<seq<string>>, levels: nat): Option<seq<seq<string>>>
    decreases levels, 1, |commands|
  {
    if commands == [] then Some([])
    else
      match (Executed(Unwrapped(commands[0]), levels), ExecutedAll(commands[1..], levels))
      case (Some(first), Some(rest)) => Some(first + rest)
      case _ => None
  }

  // ----- How nix reads its arguments -----------------------------------------------------

  function Separator(words: seq<string>): (k: nat)
    ensures k <= |words| && "--" !in words[..k] && (k < |words| ==> words[k] == "--")
  {
    if words == [] || words[0] == "--" then 0
    else
      var k := 1 + Separator(words[1..]);
      assert words[..k] == [words[0]] + words[1..][..k - 1];
      k
  }

  /** The words behind the subcommand that nix takes for itself: those before the first `--`. */
  function OwnWords(argv: seq<string>): seq<string> {
    if |argv| < 2 then [] else argv[2..][..Separator(argv[2..])]
  }

  /** The words the program is given: those behind it. */
  function ProgramWords(argv: seq<string>): seq<string> {
    if |argv| < 2 then []
    else
      var k := Separator(argv[2..]);
      if k == |argv[2..]| then [] else argv[2..][k + 1..]
  }

  predicate Calls(argv: seq<string>, command: string) {
    |argv| >= 2 && argv[0] == "nix" && argv[1] == command
  }

  /** `nix` is given a command, its options, and what to work on. */
  predicate CallsOn(argv: seq<string>, command: string, options: seq<string>, installables: seq<string>) {
    Calls(argv, command) && argv[2..] == options + installables
  }

  lemma {:induction false} SeparatorAt(before: seq<string>, after: seq<string>)
    requires "--" !in before && (after == [] || after[0] == "--")
    ensures Separator(before + after) == |before|
  {
    if before == [] {
      assert before + after == after;
    } else {
      assert (before + after)[1..] == before[1..] + after;
      SeparatorAt(before[1..], after);
    }
  }

  lemma {:induction false} SeparatorWithin(before: seq<string>, after: seq<string>)
    requires "--" in before
    ensures Separator(before + after) < |before|
  {
    if before[0] != "--" {
      assert (before + after)[1..] == before[1..] + after;
      assert "--" in before[1..];
      SeparatorWithin(before[1..], after);
    }
  }

  /**
   nix takes the flags and the installable for itself and hands the program exactly its
   arguments, whatever these look like, exactly if neither flags nor installable are `--`.
   */
  lemma RunIsReadIff(run: string, args: seq<string>, flags: seq<string>)
    ensures
      var argv := RunCommand(run, args, flags);
      Calls(argv, "run") && (OwnWords(argv) == flags + [run] && ProgramWords(argv) == args <==> "--" !in flags + [run])
  {
    var own, rest, argv := flags + [run], if |args| > 0 then ["--"] + args else [], RunCommand(run, args, flags);
    assert argv[2..] == own + rest;
    if "--" in own {
      SeparatorWithin(own, rest);
      assert |OwnWords(argv)| < |own|;
    } else {
      SeparatorAt(own, rest);
      assert (own + rest)[..|own|] == own;
      if |args| > 0 { assert (own + rest)[|own| + 1..] == args; }
    }
  }

  // ----- The wrapping text --------------------------------------------------------------

  lemma SpacedCons(w: string, words: seq<string>)
    ensures Spaced([w] + words) == w + " " + Spaced(words)
  {
    assert ([w] + words)[1..] == words;
  }

  lemma {:induction false} SpacedConcat(a: seq<string>, b: seq<string>)
    ensures Spaced(a + b) == Spaced(a) + Spaced(b)
  {
    if a == [] {
      assert a + b == b;
    } else {
      assert (a + b)[1..] == a[1..] + b;
      SpacedConcat(a[1..], b);
    }
  }

  const Prefix := ["exec", "nix", "shell", "nixpkgs#openssh", "--command"]
  const ShellPrefix := ["sh", "-c"]

  lemma PackageText()
    ensures Spaced(["nixpkgs#openssh", "--command"]) == "nixpkgs#openssh --command "
  {
    SpacedCons("--command", []);
    SpacedCons("nixpkgs#openssh", ["--command"]);
    assert ["--command"] + [] == ["--command"];
    assert ["nixpkgs#openssh"] + ["--command"] == ["nixpkgs#openssh", "--command"];
  }

  lemma NixShellText()
    ensures Spaced(["nix", "shell"]) == "nix shell "
  {
    SpacedCons("shell", []);
    SpacedCons("nix", ["shell"]);
    assert ["shell"] + [] == ["shell"];
    assert ["nix"] + ["shell"] == ["nix", "shell"];
  }

  lemma ExecText()
    ensures Spaced(["exec"]) == "exec "
  {
    SpacedCons("exec", []);
    assert ["exec"] + [] == ["exec"];
  }

  lemma PrefixText()
    ensures WithSSH == Spaced(Prefix)
  {
    hide Spaced;
    ExecText();
    NixShellText();
    PackageText();
    SpacedConcat(["exec"], ["nix", "shell"]);
    SpacedConcat(["exec"] + ["nix", "shell"], ["nixpkgs#openssh", "--command"]);
    assert ["exec"] + ["nix", "shell"] + ["nixpkgs#openssh", "--command"] == Prefix;
    PrefixParts();
  }

  lemma PrefixParts()
    ensures WithSSH == "exec " + "nix shell " + "nixpkgs#openssh --command "
  {
  }

  lemma ScriptPrefixText()
    ensures WithSSHScript == Spaced(Prefix) + Spaced(ShellPrefix)
  {
    PrefixText();
    SpacedCons("-c", []);
    SpacedCons("sh", ["-c"]);
    assert ["-c"] + [] == ["-c"] && ["sh"] + ["-c"] == ShellPrefix;
    assert WithSSHScript == WithSSH + ("sh" + " " + ("-c" + " " + ""));
  }

  lemma PrefixPlain(i: nat)
    ensures i < |Prefix| ==> PlainWord(Prefix[i])
    ensures i < |ShellPrefix| ==> PlainWord(ShellPrefix[i])
  {
  }

  // ----- What the shells execute -------------------------------------------------------

  lemma AndListSplits(first: seq<string>, second: seq<string>)
    ensures CommandList(Words(first) + [AndIf] + Words(second), AndIf) == Some([first, second])
  {
    WordsAreOneCommand(second, AndIf);
    CommandThen(first, Words(second), AndIf);
    assert [first] + [second] == [first, second];
  }

  /** Behind the wrapping words comes exactly what was quoted. */
  lemma WrappedTokens(cmd: seq<string>)
    requires AllNulFree(cmd)
    ensures Tokens(WithSSH + ShellJoin(cmd)) == Some(Words(Prefix + cmd))
  {
    hide Lex, ShellJoin, Spaced;
    PrefixText();
    forall i | 0 <= i < |Prefix|
      ensures PlainWord(Prefix[i])
    {
      PrefixPlain(i);
    }
    SpacedLex(Prefix, ShellJoin(cmd));
    JoinRoundTrip(cmd);
    assert Words(Prefix) + Words(cmd) == Words(Prefix + cmd);
  }

  predicate IsLeaf(cmd: seq<string>) {
    |cmd| >= 2 && cmd[0] == "nix" && cmd[1] != "shell"
  }

  lemma LeafExecutes(cmd: seq<string>, levels: nat)
    requires IsLeaf(cmd)
    ensures Executed(Unwrapped(cmd), levels) == Some([cmd])
  {
    assert cmd[0] != "exec" && cmd[0] != "sh";
    if |cmd| > 5 { assert cmd[..5][0] == cmd[0]; }
    if |cmd| == 3 { assert cmd[..2][0] == cmd[0]; }
  }

  lemma {:induction false} OneExecutes(cmd: seq<string>, levels: nat, result: seq<seq<string>>)
    requires Executed(Unwrapped(cmd), levels) == Some(result)
    ensures ExecutedAll([cmd], levels) == Some(result)
  {
    assert [cmd][1..] == [];
    assert ExecutedAll([], levels) == Some([]);
    assert result + [] == result;
  }

  /** Wrapping a command in openssh does not change what is executed. */
  lemma WrapExecutes(cmd: seq<string>, needsSSH: bool, levels: nat)
    requires AllNulFree(cmd) && IsLeaf(cmd) && levels > 0
    ensures Executed(WrapSSH(cmd, needsSSH), levels) == Some([cmd])
  {
    if needsSSH {
      hide Lex, ShellJoin;
      var script := WithSSH + ShellJoin(cmd);
      WrappedTokens(cmd);
      WordsAreOneCommand(Prefix + cmd, AndIf);
      UnwrapPrefix(cmd);
      LeafRuns(cmd, levels - 1);
      OneExecutes(Prefix + cmd, levels - 1, [cmd]);
      ShellExecutes(script, Words(Prefix + cmd), levels);
    } else {
      LeafRuns(cmd, levels);
    }
  }

  lemma LeafRuns(cmd: seq<string>, levels: nat)
    requires IsLeaf(cmd)
    ensures Executed(cmd, levels) == Some([cmd])
  {
    if |cmd| == 3 { assert cmd[..2][0] == cmd[0]; }
  }

  lemma UnwrapPrefix(cmd: seq<string>)
    requires cmd != []
    ensures Unwrapped(Prefix + cmd) == cmd
  {
    assert (Prefix + cmd)[..5] == Prefix;
  }

  lemma ShellExecutes(script: string, tokens: seq<Token>, levels: nat)
    requires levels > 0 && Tokens(script) == Some(tokens) && CommandList(tokens, AndIf).Some?
    ensures Executed(["sh", "-c", script], levels) == ExecutedAll(CommandList(tokens, AndIf).value, levels - 1)
  {
    assert ["sh", "-c", script][..2] == ["sh", "-c"];
  }

  lemma AndTokens(first: seq<string>, second: seq<string>)
    requires first != [] && AllNulFree(first) && AllNulFree(second)
    ensures Tokens(ShellJoin(first) + " && " + ShellJoin(second)) == Some(Words(first) + [AndIf] + Words(second))
  {
    hide ShellJoin;
    var n := |first| - 1;
    var b := ShellJoin(second);
    assert ShellJoin(first) + " && " + b == ShellJoin(first) + (" && " + b);
    JoinLex(first, " && " + b);
    JoinRoundTrip(second);
    AndLex(first[n], b);
    assert Words(first[..n]) + ([Word(first[n])] + [AndIf] + Words(second)) == Words(first) + [AndIf] + Words(second);
  }

  lemma SignLex(rest: string)
    ensures Lex("&&" + rest, None) == After([AndIf], Lex(rest, None))
  {
    assert ("&&" + rest)[2..] == rest;
    assert [] + [AndIf] == [AndIf];
  }

  lemma LeadingBlank(rest: string)
    ensures Lex(" " + rest, None) == Lex(rest, None)
  {
    assert (" " + rest)[1..] == rest;
    if Lex(rest, None).Some? { assert [] + Lex(rest, None).value == Lex(rest, None).value; }
  }

  lemma AndLex(word: string, rest: string)
    ensures Lex(" && " + rest, Some(word)) == After([Word(word)] + [AndIf], Lex(rest, None))
  {
    hide Lex;
    assert " && " + rest == " " + ("&&" + (" " + rest));
    BlankLex("&&" + (" " + rest), word);
    SignLex(" " + rest);
    LeadingBlank(rest);
    if Lex(rest, None).Some? {
      var v := Lex(rest, None).value;
      assert [Word(word)] + ([AndIf] + v) == [Word(word)] + [AndIf] + v;
    }
  }

  /** The outer script of a build with push: one argument, the inner script. */
  lemma ScriptTokens(inner: string)
    requires NulFree(inner)
    ensures Tokens(WithSSHScript + Quote(inner)) == Some(Words(Prefix + ["sh", "-c", inner]))
  {
    hide Lex, Quote, Spaced;
    ScriptPrefixText();
    forall i | 0 <= i < |Prefix|
      ensures PlainWord(Prefix[i])
    {
      PrefixPlain(i);
    }
    forall i | 0 <= i < |ShellPrefix|
      ensures PlainWord(ShellPrefix[i])
    {
      PrefixPlain(i);
    }
    assert WithSSHScript + Quote(inner) == Spaced(Prefix) + (Spaced(ShellPrefix) + Quote(inner));
    SpacedLex(Prefix, Spaced(ShellPrefix) + Quote(inner));
    SpacedLex(ShellPrefix, Quote(inner));
    LastWord(inner);
    assert Words(Prefix) + (Words(ShellPrefix) + [Word(inner)]) == Words(Prefix + ["sh", "-c", inner]);
  }

  lemma LastWord(inner: string)
    requires NulFree(inner)
    ensures Lex(Quote(inner), None) == Some([Word(inner)])
  {
    QuoteLex(inner, "", None);
    assert Quote(inner) + "" == Quote(inner);
    assert Text(None) + inner == inner;
  }

  lemma {:induction false} EscapedNulFree(s: string)
    requires NulFree(s)
    ensures NulFree(Escaped(s))
  {
    if s != "" {
      EscapedHead(s);
      assert s[0] in s && forall c :: c in s[1..] ==> c in s;
      EscapedNulFree(s[1..]);
    }
  }

  lemma {:induction false} JoinNulFree(args: seq<string>)
    requires AllNulFree(args)
    ensures NulFree(ShellJoin(args))
    decreases |args|
  {
    if args != [] {
      EscapedNulFree(args[0]);
      if |args| > 1 {
        JoinHead(args);
        JoinNulFree(args[1..]);
      }
    }
  }

  /** Both quoting levels of build-and-push are undone: the build runs, then the push, with their exact arguments. */
  lemma BuildAndPushExecutes(build: seq<string>, push: seq<string>)
    requires AllNulFree(build) && AllNulFree(push) && IsLeaf(build) && IsLeaf(push)
    ensures
      var inner := ShellJoin(build) + " && " + ShellJoin(push);
      Executed(["sh", "-c", WithSSHScript + Quote(inner)], 2) == Some([build, push])
  {
    hide Lex, ShellJoin, Quote;
    var inner := ShellJoin(build) + " && " + ShellJoin(push);
    JoinNulFree(build);
    JoinNulFree(push);
    AndTokens(build, push);
    AndListSplits(build, push);
    TwoLeaves(build, push);
    ShellExecutes(inner, Words(build) + [AndIf] + Words(push), 1);
    var script := ["sh", "-c", inner];
    assert Executed(script, 1) == Some([build, push]);
    ScriptTokens(inner);
    WordsAreOneCommand(Prefix + script, AndIf);
    UnwrapPrefix(script);
    OneExecutes(Prefix + script, 1, [build, push]);
    ShellExecutes(WithSSHScript + Quote(inner), Words(Prefix + script), 2);
  }

  lemma TwoLeaves(first: seq<string>, second: seq<string>)
    requires IsLeaf(first) && IsLeaf(second)
    ensures ExecutedAll([first, second], 0) == Some([first, second])
  {
    LeafExecutes(first, 0);
    LeafExecutes(second, 0);
    OneExecutes(second, 0, [second]);
    assert [first, second][1..] == [second];
    assert [first] + [second] == [first, second];
  }

  predicate Clean(run: string, args: seq<string>, flags: seq<string>) {
    NulFree(run) && AllNulFree(args) && AllNulFree(flags)
  }

  /** What the instantiate container executes: the build, and with a key and a push URL the push. */
  predicate Instantiates(commands: seq<seq<string>>, run: string, prebuild: seq<string>, flags: seq<string>, ssh: bool, pushURL: string) {
    && |commands| == (if ssh && pushURL != "" then 2 else 1)
    && CallsOn(commands[0], "build", flags, [run] + prebuild)
    && (|commands| == 2 ==> CallsOn(commands[1], "copy", ["--to", pushURL], [run] + prebuild))
  }

  /**
   The instantiate container builds exactly what was asked, with the flags, and with a
   push URL then pushes exactly what it built to that URL.
   */
  lemma InstantiateRuns(run: string, prebuild: seq<string>, flags: seq<string>, ssh: bool, pushURL: string)
    requires Clean(run, prebuild, flags) && NulFree(pushURL)
    ensures
      var done := Executed(InstantiateCommand(run, prebuild, flags, ssh, pushURL), 2);
      done.Some? && Instantiates(done.value, run, prebuild, flags, ssh, pushURL)
  {
    var build := BuildCommand(run, prebuild, flags);
    assert build[0] == "nix" && build[1] == "build" && build[2..] == flags + ([run] + prebuild);
    if ssh && pushURL != "" {
      var push := PushCommand(run, prebuild, pushURL);
      assert push[0] == "nix" && push[1] == "copy" && push[2..] == ["--to", pushURL] + ([run] + prebuild);
      BuildAndPushExecutes(build, push);
    } else {
      WrapExecutes(build, ssh, 2);
    }
  }

  /** What the application container executes: the program, with exactly its arguments. */
  predicate RunsProgram(commands: seq<seq<string>>, run: string, args: seq<string>, flags: seq<string>) {
    && |commands| == 1 && Calls(commands[0], "run")
    && (OwnWords(commands[0]) == flags + [run] && ProgramWords(commands[0]) == args <==> "--" !in flags + [run])
  }

  lemma AppRuns(run: string, args: seq<string>, flags: seq<string>, needsSSH: bool)
    requires Clean(run, args, flags)
    ensures
      var done := Executed(WrapSSH(RunCommand(run, args, flags), needsSSH), 1);
      done.Some? && RunsProgram(done.value, run, args, flags)
  {
    hide OwnWords, ProgramWords;
    var cmd := RunCommand(run, args, flags);
    assert cmd[0] == "nix" && cmd[1] == "run";
    WrapExecutes(cmd, needsSSH, 1);
    RunIsReadIff(run, args, flags);
  }

  /** The shell runs its first command with openssh on the search path. */
  predicate HasOpenssh(argv: seq<string>) {
    && |argv| == 3 && argv[..2] == ["sh", "-c"]
    && var commands := SimpleCommands(argv[2], AndIf);
       commands.Some? && |commands.value[0]| >= 5
       && commands.value[0][..5] == ["exec", "nix", "shell", "nixpkgs#openssh", "--command"]
  }

  /** openssh is in reach exactly where it is asked for. */
  lemma WrapReachesIff(cmd: seq<string>, needsSSH: bool)
    requires AllNulFree(cmd) && IsLeaf(cmd)
    ensures HasOpenssh(WrapSSH(cmd, needsSSH)) <==> needsSSH
  {
    if needsSSH {
      hide Lex, ShellJoin;
      WrappedTokens(cmd);
      WordsAreOneCommand(Prefix + cmd, AndIf);
      assert (Prefix + cmd)[..5] == Prefix;
    } else {
      if |cmd| == 3 { assert cmd[..2][0] == cmd[0]; }
    }
  }
}
