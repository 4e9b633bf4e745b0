/**
 Argument lists quoted into `sh -c` strings, and the token recognition of the POSIX
 shell (Shell Command Language, sections 2.2.1 to 2.2.3, 2.3 and 2.6.3) that takes them
 apart.
 */
module ShellQuote {
  import opened Options
  import opened Texts
  import Paths

  // ----- Quoting ---------------------------------------------------------------

  function Quote(s: string): string {
    "'" + ReplaceAll(s, "'", "'\\''") + "'"
  }

  function QuoteEach(args: seq<string>): seq<string> {
    seq(|args|, i requires 0 <= i < |args| => Quote(args[i]))
  }

  function ShellJoin(args: seq<string>): string {
    Join(QuoteEach(args), " ")
  }

  // ----- The shell's tokens --------------------------------------------------------

  datatype Token = Word(text: string) | AndIf | Newline

  const Nul: char := '\0'

  /** Characters that stand for themselves outside quotes wherever they appear in a word. */
  predicate Plain(c: char) {
    'a' <= c <= 'z' || 'A' <= c <= 'Z' || '0' <= c <= '9' || c in "-_./:@,+#"
  }

  function Text(word: Option<string>): string {
    if word.Some? then word.value else ""
  }

  function Delimit(word: Option<string>): seq<Token> {
    if word.Some? then [Word(word.value)] else []
  }

  function After(tokens: seq<Token>, rest: Option<seq<Token>>): Option<seq<Token>> {
    if rest.Some? then Some(tokens + rest.value) else None
  }

  // A text read inside double quotes, and what follows the closing quote.
  datatype Quoted = Quoted(text: string, rest: string)

  // The arguments of a command inside `$(...)`, and what follows the parenthesis.
  datatype Inner = Inner(argv: seq<string>, rest: string)

  function Prefixed(text: string, more: Option<Quoted>): Option<Quoted> {
    if more.Some? then Some(Quoted(text + more.value.text, more.value.rest)) else None
  }

  /** Read up to the closing quote. Only a command substitution is expanded. */
  function DoubleQuoted(s: string): (q: Option<Quoted>)
    ensures q.Some? ==> |q.value.rest| < |s|
    decreases |s|
  {
    if s == "" || s[0] == '`' || s[0] == Nul then None
    else if s[0] == '"' then Some(Quoted("", s[1..]))
    else if s[0] == '\\' && |s| > 1 && s[1] == '\n' then DoubleQuoted(s[2..])
    else if s[0] == '\\' && |s| > 1 && s[1] in "$`\"\\" then Prefixed([s[1]], DoubleQuoted(s[2..]))
    else if s[0] == '$' then Substituted(s[1..])
    else Prefixed([s[0]], DoubleQuoted(s[1..]))
  }

  /** Behind a dollar sign: the output of the command takes the place of the substitution. */
  function Substituted(s: string): (q: Option<Quoted>)
    ensures q.Some? ==> |q.value.rest| < |s|
    decreases |s|
  {
    if s == "" || s[0] != '(' then None
    else
      var inner := Inside(s[1..], [], None);
      if inner.None? || Output(inner.value.argv).None? then None
      else Prefixed(Output(inner.value.argv).value, DoubleQuoted(inner.value.rest))
  }

  /** The arguments up to the closing parenthesis. */
  function Inside(s: string, argv: seq<string>, word: Option<string>): (r: Option<Inner>)
    ensures r.Some? ==> |r.value.rest| < |s|
    decreases |s|
  {
    if s == "" then None
    else if s[0] == ')' then Some(Inner(argv + Ended(word), s[1..]))
    else if s[0] == ' ' then Inside(s[1..], argv + Ended(word), None)
    else if s[0] == '"' then
      var q := DoubleQuoted(s[1..]);
      if q.None? then None else Inside(q.value.rest, argv, Some(Text(word) + q.value.text))
    else if Plain(s[0]) && (s[0] == '#' ==> word.Some?) then Inside(s[1..], argv, Some(Text(word) + [s[0]]))
    else None
  }

  function Ended(word: Option<string>): seq<string> {
    if word.Some? then [word.value] else []
  }

  /** A utility reads such an argument as options (Utility Conventions, section 12.2). */
  predicate OptionLike(arg: string) {
    |arg| >= 2 && arg[0] == '-'
  }

  function Stripped(output: string): string {
    if output != "" && output[|output| - 1] == '\n' then Stripped(output[..|output| - 1]) else output
  }

  /** What a command prints, for the two that are known here; a call that fails prints nothing. */
  function Output(argv: seq<string>): Option<string> {
    if |argv| == 2 && argv[0] == "dirname" then Some(if OptionLike(argv[1]) then "" else Stripped(Paths.Dirname(argv[1])))
    else if |argv| == 2 && argv[0] == "echo" && !OptionLike(argv[1]) && '\\' !in argv[1] then Some(Stripped(argv[1]))
    else None
  }

  /**
   The tokens of `s` when `word` has been read so far. Everything that would start another
   expansion, a redirection, a comment or another operator yields no tokens here.
   */
  function Lex(s: string, word: Option<string>): Option<seq<Token>>
    decreases |s|
  {
    if s == "" then Some(Delimit(word))
    else if s[0] == ' ' || s[0] == '\t' then After(Delimit(word), Lex(s[1..], None))
    else if s[0] == '\n' then After(Delimit(word) + [Newline], Lex(s[1..], None))
    else if s[0] == '\'' then
      var k := IndexOf(s[1..], '\'');
      if k == |s| - 1 || Nul in s[1..][..k] then None
      else Lex(s[1..][k + 1..], Some(Text(word) + s[1..][..k]))
    else if s[0] == '"' then
      var q := DoubleQuoted(s[1..]);
      if q.None? then None else Lex(q.value.rest, Some(Text(word) + q.value.text))
    else if s[0] == '\\' then
      if |s| == 1 || s[1] == '\n' || s[1] == Nul then None else Lex(s[2..], Some(Text(word) + [s[1]]))
    else if s[0] == '&' then
      if |s| == 1 || s[1] != '&' then None else After(Delimit(word) + [AndIf], Lex(s[2..], None))
    else if Plain(s[0]) && (s[0] == '#' ==> word.Some?) then Lex(s[1..], Some(Text(word) + [s[0]]))
    else None
  }

  function Tokens(script: string): Option<seq<Token>> {
    Lex(script, None)
  }

  /** The simple commands of a list with this one separator. */
  function CommandList(tokens: seq<Token>, separator: Token): (r: Option<seq<seq<string>>>)
    requires !separator.Word?
    ensures r.Some? ==> |r.value| >= 1
  {
    if tokens == [] then Some([[]])
    else
      match (tokens[0], CommandList(tokens[1..], separator))
      case (Word(w), Some(rest)) => Some([[w] + rest[0]] + rest[1..])
      case (t, Some(rest)) => if t == separator then Some([[]] + rest) else None
      case _ => None
  }

  /** The commands of a script that has only this separator. */
  function SimpleCommands(script: string, separator: Token): Option<seq<seq<string>>>
    requires !separator.Word?
  {
    match Tokens(script)
    case None => None
    case Some(tokens) => CommandList(tokens, separator)
  }

  function Words(args: seq<string>): seq<Token> {
    seq(|args|, i requires 0 <= i < |args| => Word(args[i]))
  }

  predicate NulFree(s: string) {
    Nul !in s
  }

  predicate AllNulFree(args: seq<string>) {
    forall i :: 0 <= i < |args| ==> NulFree(args[i])
  }

  // ----- One argument -----------------------------------------------------------------

  function Escaped(s: string): string {
    ReplaceAll(s, "'", "'\\''")
  }

  lemma EscapedHead(s: string)
    requires s != ""
    ensures Escaped(s) == (if s[0] == '\'' then "'\\''" else [s[0]]) + Escaped(s[1..])
  {
    assert s[..1] == "'" <==> s[0] == '\'';
  }

  lemma EscapedQuoteLex(tail: string, word: Option<string>)
    ensures Lex("\\'" + tail, word) == Lex(tail, Some(Text(word) + ['\'']))
  {
    assert ("\\'" + tail)[2..] == tail;
  }

  lemma QuoteSplit(read: string, esc: string, rest: string)
    ensures ("'" + read + ("'\\''" + esc) + "'" + rest)[1..] == read + ['\''] + ("\\'" + ("'" + "" + esc + "'" + rest))
  {
    assert "'\\''" == ['\''] + "\\'" + "'";
  }

  /** Reading on inside quotes, with `read` already behind the opening quote. */
  lemma {:induction false} QuotedLex(read: string, s: string, rest: string, word: Option<string>)
    requires '\'' !in read && NulFree(read) && NulFree(s)
    ensures Lex("'" + read + Escaped(s) + "'" + rest, word) == Lex(rest, Some(Text(word) + read + s))
    decreases |s|
  {
    hide Lex, ReplaceAll, Escaped;
    if s == "" {
      LastQuote(read, rest, word);
    } else {
      EscapedHead(s);
      assert s[0] in s && forall c :: c in s[1..] ==> c in s;
      if s[0] == '\'' {
        var w := Some(Text(word) + read + ['\'']);
        QuoteInside(read, Escaped(s[1..]), rest, word);
        QuotedLex("", s[1..], rest, w);
        assert Text(w) + "" + s[1..] == Text(word) + read + s;
      } else {
        var longer := read + [s[0]];
        OneMore(read, s[0], Escaped(s[1..]), rest);
        QuotedLex(longer, s[1..], rest, word);
        assert Text(word) + longer + s[1..] == Text(word) + read + s;
      }
    }
  }

  lemma OneMore(read: string, c: char, esc: string, rest: string)
    ensures "'" + read + ([c] + esc) + "'" + rest == "'" + (read + [c]) + esc + "'" + rest
  {
  }

  /** A quote among the characters: closed, escaped, and opened again. */
  lemma QuoteInside(read: string, esc: string, rest: string, word: Option<string>)
    requires '\'' !in read && NulFree(read)
    ensures
      Lex("'" + read + ("'\\''" + esc) + "'" + rest, word)
      == Lex("'" + "" + esc + "'" + rest, Some(Text(word) + read + ['\'']))
  {
    hide Lex;
    var tail := "'" + "" + esc + "'" + rest;
    QuoteSplit(read, esc, rest);
    CloseLex("'" + read + ("'\\''" + esc) + "'" + rest, read, "\\'" + tail, word);
    EscapedQuoteLex(tail, Some(Text(word) + read));
  }

  lemma LastQuote(read: string, rest: string, word: Option<string>)
    requires '\'' !in read && NulFree(read)
    ensures Lex("'" + read + Escaped("") + "'" + rest, word) == Lex(rest, Some(Text(word) + read + ""))
  {
    var all := "'" + read + Escaped("") + "'" + rest;
    assert all[1..] == read + ['\''] + rest;
    CloseLex(all, read, rest, word);
    assert Text(word) + read + "" == Text(word) + read;
  }

  lemma CloseLex(all: string, read: string, rest: string, word: Option<string>)
    requires '\'' !in read && NulFree(read)
    requires |all| > 0 && all[0] == '\'' && all[1..] == read + ['\''] + rest
    ensures Lex(all, word) == Lex(rest, Some(Text(word) + read))
  {
    IndexAfter(read, '\'', rest);
    assert all[1..][..|read|] == read && all[1..][|read| + 1..] == rest;
  }

  /** A quoted argument adds exactly its own characters to the word being read. */
  lemma QuoteLex(arg: string, rest: string, word: Option<string>)
    requires NulFree(arg)
    ensures Lex(Quote(arg) + rest, word) == Lex(rest, Some(Text(word) + arg))
  {
    hide Lex, ReplaceAll;
    QuotedLex("", arg, rest, word);
    assert Quote(arg) + rest == "'" + "" + Escaped(arg) + "'" + rest;
    assert Text(word) + "" + arg == Text(word) + arg;
  }

  // ----- Argument lists ------------------------------------------------------------------

  lemma BlankLex(text: string, w: string)
    ensures Lex(" " + text, Some(w)) == After([Word(w)], Lex(text, None))
  {
    assert (" " + text)[1..] == text;
  }

  lemma JoinHead(args: seq<string>)
    requires |args| > 1
    ensures ShellJoin(args) == Quote(args[0]) + " " + ShellJoin(args[1..])
  {
    assert QuoteEach(args)[1..] == QuoteEach(args[1..]);
  }

  lemma {:induction false} JoinLex(args: seq<string>, rest: string)
    requires args != [] && AllNulFree(args)
    ensures
      var n := |args| - 1;
      Lex(ShellJoin(args) + rest, None) == After(Words(args[..n]), Lex(rest, Some(args[n])))
    decreases |args|
  {
    hide Lex, Quote;
    var tail := Lex(rest, Some(args[|args| - 1]));
    assert Text(None) + args[0] == args[0];
    if |args| == 1 {
      assert ShellJoin(args) == Quote(args[0]);
      QuoteLex(args[0], rest, None);
      assert Words(args[..0]) == [];
      if tail.Some? { assert [] + tail.value == tail.value; }
    } else {
      var others := args[1..];
      JoinHead(args);
      var text := ShellJoin(others) + rest;
      assert ShellJoin(args) + rest == Quote(args[0]) + (" " + text);
      QuoteLex(args[0], " " + text, None);
      BlankLex(text, args[0]);
      JoinLex(others, rest);
      var n := |others| - 1;
      assert others[n] == args[n + 1];
      assert [Word(args[0])] + Words(others[..n]) == Words(args[..n + 1]);
      if tail.Some? {
        assert [Word(args[0])] + (Words(others[..n]) + tail.value) == Words(args[..n + 1]) + tail.value;
      }
    }
  }

  /** The shell takes a joined argument list apart into exactly the original arguments. */
  lemma JoinRoundTrip(args: seq<string>)
    requires AllNulFree(args)
    ensures Tokens(ShellJoin(args)) == Some(Words(args))
  {
    if args == [] {
      assert Words(args) == [];
    } else {
      JoinLex(args, "");
      assert ShellJoin(args) + "" == ShellJoin(args);
      assert Words(args[..|args| - 1]) + [Word(args[|args| - 1])] == Words(args);
    }
  }

  // ----- Plain words ---------------------------------------------------------------

  predicate PlainWord(w: string) {
    && w != "" && w[0] != '#'
    && forall c :: c in w ==> Plain(c)
  }

  lemma {:induction false} PlainTail(w: string, rest: string, read: string)
    requires forall c :: c in w ==> Plain(c)
    ensures Lex(w + rest, Some(read)) == Lex(rest, Some(read + w))
    decreases |w|
  {
    if w == "" {
      assert w + rest == rest && read + w == read;
    } else {
      assert (w + rest)[1..] == w[1..] + rest;
      assert w[0] in w && forall c :: c in w[1..] ==> c in w;
      PlainTail(w[1..], rest, read + [w[0]]);
      assert read + [w[0]] + w[1..] == read + w;
      SpecialsNotPlain(w[0]);
    }
  }

  lemma SpecialsNotPlain(c: char)
    requires Plain(c)
    ensures c != ' ' && c != '\t' && c != '\'' && c != '\\' && c != '&'
  {
  }

  lemma PlainHead(c: char, rest: string)
    requires Plain(c) && c != '#'
    ensures Lex([c] + rest, None) == Lex(rest, Some([c]))
  {
    SpecialsNotPlain(c);
    assert ([c] + rest)[1..] == rest && Text(None) + [c] == [c];
  }

  lemma PlainLex(w: string, rest: string)
    requires PlainWord(w)
    ensures Lex(w + " " + rest, None) == After([Word(w)], Lex(rest, None))
  {
    hide Lex;
    var tail := " " + rest;
    assert w[0] in w && forall c :: c in w[1..] ==> c in w;
    assert w + " " + rest == [w[0]] + (w[1..] + tail);
    PlainHead(w[0], w[1..] + tail);
    PlainTail(w[1..], tail, [w[0]]);
    assert [w[0]] + w[1..] == w;
    BlankLex(rest, w);
  }

  /** Plain words, each followed by a blank. */
  function Spaced(words: seq<string>): string {
    if words == [] then "" else words[0] + " " + Spaced(words[1..])
  }

  lemma {:induction false} SpacedLex(words: seq<string>, rest: string)
    requires forall i :: 0 <= i < |words| ==> PlainWord(words[i])
    ensures Lex(Spaced(words) + rest, None) == After(Words(words), Lex(rest, None))
    decreases |words|
  {
    hide Lex;
    if words == [] {
      assert Spaced(words) + rest == rest;
      if Lex(rest, None).Some? { assert Words(words) + Lex(rest, None).value == Lex(rest, None).value; }
    } else {
      var more := Spaced(words[1..]) + rest;
      assert Spaced(words) + rest == words[0] + " " + more;
      PlainLex(words[0], more);
      SpacedLex(words[1..], rest);
      assert Words(words) == [Word(words[0])] + Words(words[1..]);
      if Lex(rest, None).Some? {
        var t := Lex(rest, None).value;
        assert [Word(words[0])] + (Words(words[1..]) + t) == Words(words) + t;
      }
    }
  }

  // ----- Lists of commands -------------------------------------------------------------

  lemma {:induction false} WordsAreOneCommand(args: seq<string>, separator: Token)
    requires !separator.Word?
    ensures CommandList(Words(args), separator) == Some([args])
  {
    if args == [] {
      assert Words(args) == [];
    } else {
      assert Words(args)[0] == Word(args[0]) && Words(args)[1..] == Words(args[1..]);
      WordsAreOneCommand(args[1..], separator);
      assert [args[1..]][1..] == [];
      assert [args[0]] + args[1..] == args && [args] + [] == [args];
      assert CommandList(Words(args)[1..], separator) == Some([args[1..]]);
    }
  }

  /** A command and its separator in front of a list. */
  lemma {:induction false} CommandThen(args: seq<string>, tokens: seq<Token>, separator: Token)
    requires !separator.Word?
    ensures
      var rest := CommandList(tokens, separator);
      CommandList(Words(args) + [separator] + tokens, separator) == if rest.Some? then Some([args] + rest.value) else None
  {
    var all := Words(args) + [separator] + tokens;
    if args == [] {
      assert all[0] == separator && all[1..] == tokens;
    } else {
      assert all[0] == Word(args[0]) && all[1..] == Words(args[1..]) + [separator] + tokens;
      CommandThen(args[1..], tokens, separator);
      assert [args[0]] + args[1..] == args;
      var rest := CommandList(tokens, separator);
      if rest.Some? {
        assert ([args[1..]] + rest.value)[0] == args[1..] && ([args[1..]] + rest.value)[1..] == rest.value;
      }
    }
  }
}
