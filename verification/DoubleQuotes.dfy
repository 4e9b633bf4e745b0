/**
 What stands for itself between double quotes, and what the shell makes of the parent of a
 path, the one substitution the operator writes.
 */
module DoubleQuotes {
  import opened Options
  import opened ShellQuote
  import Paths

  // ----- Double quotes ---------------------------------------------------------------

  /** The character means itself inside double quotes; a backslash escapes neither what follows nor the quote. */
  predicate Stays(t: string, i: nat)
    requires i < |t|
  {
    && t[i] != '"' && t[i] != '$' && t[i] != '`' && t[i] != Nul
    && (t[i] == '\\' ==> i + 1 < |t| && t[i + 1] != '\\' && t[i + 1] != '\n')
  }

  predicate Inert(t: string) {
    forall i :: 0 <= i < |t| ==> Stays(t, i)
  }

  lemma {:induction false} InertRead(t: string, rest: string)
    requires Inert(t)
    ensures DoubleQuoted(t + "\"" + rest) == Some(Quoted(t, rest))
    decreases |t|
  {
    var s := t + "\"" + rest;
    if t != "" {
      assert s[1..] == t[1..] + "\"" + rest && s[0] == t[0];
      assert Stays(t, 0);
      forall i | 0 <= i < |t[1..]|
        ensures Stays(t[1..], i)
      {
        assert Stays(t, i + 1);
      }
      InertRead(t[1..], rest);
      if t[0] == '\\' { assert Stays(t, 1) && s[1] == t[1]; }
      assert [t[0]] + t[1..] == t;
    }
  }

  function Size(argv: seq<string>): nat {
    if argv == [] then 0 else Size(argv[..|argv| - 1]) + |argv[|argv| - 1]| + 1
  }

  /** Reading never adds characters, and a substitution or an escape loses some. */
  lemma {:induction false} ReadShrinks(s: string)
    requires DoubleQuoted(s).Some?
    ensures |DoubleQuoted(s).value.text| + |DoubleQuoted(s).value.rest| < |s|
    decreases |s|
  {
    if s[0] == '"' {
    } else if s[0] == '\\' && |s| > 1 && s[1] in "\n$`\"\\" {
      ReadShrinks(s[2..]);
    } else if s[0] == '$' {
      SubstitutionShrinks(s[1..]);
    } else {
      ReadShrinks(s[1..]);
    }
  }

  lemma {:induction false} SubstitutionShrinks(s: string)
    requires Substituted(s).Some?
    ensures |Substituted(s).value.text| + |Substituted(s).value.rest| < |s|
    decreases |s|
  {
    var inner := Inside(s[1..], [], None).value;
    InsideShrinks(s[1..], [], None);
    OutputShrinks(inner.argv);
    ReadShrinks(inner.rest);
  }

  lemma {:induction false} InsideShrinks(s: string, argv: seq<string>, word: Option<string>)
    requires Inside(s, argv, word).Some?
    ensures
      var r := Inside(s, argv, word).value;
      Size(r.argv) + |r.rest| <= |s| + Size(argv) + |Text(word)|
    decreases |s|
  {
    assert word.Some? ==> (argv + Ended(word))[..|argv|] == argv;
    assert word.None? ==> argv + Ended(word) == argv;
    if s[0] == ')' {
    } else if s[0] == ' ' {
      InsideShrinks(s[1..], argv + Ended(word), None);
    } else if s[0] == '"' {
      ReadShrinks(s[1..]);
      var q := DoubleQuoted(s[1..]).value;
      InsideShrinks(q.rest, argv, Some(Text(word) + q.text));
    } else {
      InsideShrinks(s[1..], argv, Some(Text(word) + [s[0]]));
    }
  }

  lemma OutputShrinks(argv: seq<string>)
    requires Output(argv).Some?
    ensures |Output(argv).value| <= Size(argv)
  {
    assert argv[..1][..0] == [] && argv[..1][0] == argv[0];
    assert Size(argv) == Size(argv[..1]) + |argv[1]| + 1;
    assert Size(argv[..1]) == Size([]) + |argv[0]| + 1;
    DirnameShrinks(argv[1]);
    StrippedShrinks(argv[1]);
    StrippedShrinks(Paths.Dirname(argv[1]));
  }

  lemma {:induction false} StrippedShrinks(output: string)
    ensures |Stripped(output)| <= |output|
  {
    if output != "" { StrippedShrinks(output[..|output| - 1]); }
  }

  lemma DirnameShrinks(p: string)
    ensures |Paths.Dirname(p)| <= |p| + 1
  {
    var all := Paths.TrimSlashes(p);
    Paths.CutIsPrefix(p);
    Paths.CutIsPrefix(all);
    Paths.CutIsPrefix(Paths.DropName(all));
  }

  /** Between double quotes a text is read as itself exactly if it is inert. */
  lemma {:induction false} ReadLiterallyIff(t: string, rest: string)
    ensures DoubleQuoted(t + "\"" + rest) == Some(Quoted(t, rest)) <==> Inert(t)
  {
    if Inert(t) {
      InertRead(t, rest);
    } else if DoubleQuoted(t + "\"" + rest) == Some(Quoted(t, rest)) {
      ReadIsInert(t, rest);
    }
  }

  lemma {:induction false} ReadIsInert(t: string, rest: string)
    requires DoubleQuoted(t + "\"" + rest) == Some(Quoted(t, rest))
    ensures Inert(t)
    decreases |t|
  {
    if t == "" {
      assert Inert("");
    } else {
      var s := t + "\"" + rest;
      assert s[1..] == t[1..] + "\"" + rest && s[0] == t[0];
      if t[0] == '\\' && s[1] in "\n$`\"\\" {
        ReadShrinks(s[2..]);
        assert false;
      } else if t[0] == '$' {
        SubstitutionShrinks(s[1..]);
        assert false;
      } else {
        assert DoubleQuoted(s) == Prefixed([s[0]], DoubleQuoted(s[1..]));
        var more := DoubleQuoted(s[1..]).value;
        assert t[1..] == more.text;
        ReadIsInert(t[1..], rest);
        if t[0] == '\\' { assert s[1] == if |t| > 1 then t[1] else '"'; }
        InertCons(t);
      }
    }
  }

  lemma InertCons(t: string)
    requires t != "" && Inert(t[1..])
    requires t[0] != '"' && t[0] != '$' && t[0] != '`' && t[0] != Nul
    requires t[0] == '\\' ==> |t| > 1 && t[1] != '\\' && t[1] != '\n'
    ensures Inert(t)
  {
    forall i | 0 <= i < |t|
      ensures Stays(t, i)
    {
      if i > 0 { assert Stays(t[1..], i - 1); }
    }
  }

  /** An inert text in double quotes adds exactly its own characters to the word being read. */
  lemma InertLex(t: string, rest: string, word: Option<string>)
    requires Inert(t)
    ensures Lex("\"" + t + "\"" + rest, word) == Lex(rest, Some(Text(word) + t))
  {
    InertRead(t, rest);
    var s := "\"" + t + "\"" + rest;
    assert s[1..] == t + "\"" + rest;
  }

  // ----- The one substitution the operator writes ------------------------------------------

  lemma InsideStep(c: char, rest: string, argv: seq<string>, word: Option<string>)
    requires Plain(c) && (c == '#' ==> word.Some?)
    ensures Inside([c] + rest, argv, word) == Inside(rest, argv, Some(Text(word) + [c]))
  {
    hide DoubleQuoted;
    SpecialsNotPlain(c);
    assert ([c] + rest)[1..] == rest;
  }

  lemma {:induction false} InsidePlain(w: string, rest: string, argv: seq<string>, read: string)
    requires forall c :: c in w ==> Plain(c)
    ensures Inside(w + rest, argv, Some(read)) == Inside(rest, argv, Some(read + w))
    decreases |w|
  {
    hide Inside, Plain;
    if w == "" {
      assert w + rest == rest && read + w == read;
    } else {
      assert w + rest == [w[0]] + (w[1..] + rest);
      assert w[0] in w && forall c :: c in w[1..] ==> c in w;
      InsideStep(w[0], w[1..] + rest, argv, Some(read));
      InsidePlain(w[1..], rest, argv, read + [w[0]]);
      assert read + [w[0]] + w[1..] == read + w;
    }
  }

  lemma InsideWord(w: string, rest: string)
    requires PlainWord(w)
    ensures Inside(w + " " + rest, [], None) == Inside(rest, [w], None)
  {
    hide Inside, Plain;
    var tail := " " + rest;
    assert w[0] in w && forall c :: c in w[1..] ==> c in w;
    assert w + " " + rest == [w[0]] + (w[1..] + tail);
    InsideStep(w[0], w[1..] + tail, [], None);
    assert Text(None) + [w[0]] == [w[0]];
    InsidePlain(w[1..], tail, [], [w[0]]);
    assert [w[0]] + w[1..] == w;
    InsideBlank(w, rest);
  }

  lemma InsideBlank(w: string, rest: string)
    ensures Inside(" " + rest, [], Some(w)) == Inside(rest, [w], None)
  {
    hide DoubleQuoted;
    assert (" " + rest)[1..] == rest && [] + [w] == [w];
  }

  lemma InsideInert(t: string, rest: string, argv: seq<string>)
    requires Inert(t)
    ensures Inside("\"" + t + "\"" + (")" + rest), argv, None) == Some(Inner(argv + [t], rest))
  {
    var close := ")" + rest;
    InertRead(t, close);
    var s := "\"" + t + "\"" + close;
    hide DoubleQuoted, Inert;
    assert s[1..] == t + "\"" + close;
    assert Text(None) + t == t;
    assert close[1..] == rest;
  }

  /** What `"$(dirname "...")"` reads as. */
  function Parental(path: string): string {
    if OptionLike(path) then "" else Stripped(Paths.Dirname(path))
  }

  lemma SubstitutedOnce(s: string, argv: seq<string>, out: string, rest: string)
    requires Inside(s, [], None) == Some(Inner(argv, "\"" + rest)) && Output(argv) == Some(out)
    ensures DoubleQuoted("$" + ("(" + s)) == Some(Quoted(out, rest))
  {
    hide Inside, Output;
    var paren := "(" + s;
    assert ("\"" + rest)[1..] == rest;
    assert DoubleQuoted("\"" + rest) == Some(Quoted("", rest));
    assert paren[1..] == s && out + "" == out;
    assert Substituted(paren) == Some(Quoted(out, rest));
    assert ("$" + paren)[1..] == paren;
  }

  lemma QuotedWord(s: string, out: string, rest: string)
    requires DoubleQuoted(s) == Some(Quoted(out, rest))
    ensures Lex("\"" + s, None) == Lex(rest, Some(out))
  {
    hide DoubleQuoted;
    assert ("\"" + s)[1..] == s && Text(None) + out == out;
  }

  lemma DirnameLex(path: string, rest: string)
    requires Inert(path)
    ensures Lex("\"$(dirname \"" + path + "\")\"" + rest, None) == Lex(rest, Some(Parental(path)))
  {
    hide Lex, Inside, DoubleQuoted, Inert;
    var operand := "\"" + path + "\"" + (")" + ("\"" + rest));
    var inner := "dirname" + " " + operand;
    assert PlainWord("dirname");
    InsideWord("dirname", operand);
    InsideInert(path, "\"" + rest, ["dirname"]);
    assert ["dirname"] + [path] == ["dirname", path];
    SubstitutedOnce(inner, ["dirname", path], Parental(path), rest);
    QuotedWord("$" + ("(" + inner), Parental(path), rest);
    assert "\"$(dirname \"" + path + "\")\"" + rest == "\"" + ("$" + ("(" + inner));
  }

  /** A substitution between double quotes is not read as itself: the output of its command is. */
  lemma SubstitutionIsRun(w: string, rest: string)
    requires w != "" && !OptionLike(w) && forall c :: c in w ==> Plain(c) && c != '#'
    ensures DoubleQuoted("$(echo " + w + ")" + "\"" + rest) == Some(Quoted(w, rest))
  {
    var close := ")" + ("\"" + rest);
    var inner := "echo" + " " + (w + close);
    assert PlainWord("echo");
    StrippedWord(w);
    assert '\\' !in w;
    hide Inside, DoubleQuoted, PlainWord, Stripped;
    InsideWord("echo", w + close);
    InsideOperand(w, close);
    InsideEnd(w, "\"" + rest);
    assert Output(["echo", w]) == Some(w);
    SubstitutedOnce(inner, ["echo", w], w, rest);
    EchoText(w, rest);
  }

  lemma InsideOperand(w: string, close: string)
    requires w != "" && forall c :: c in w ==> Plain(c) && c != '#'
    ensures Inside(w + close, ["echo"], None) == Inside(close, ["echo"], Some(w))
  {
    hide Inside, Plain;
    assert w[0] in w && forall c :: c in w[1..] ==> c in w;
    assert w + close == [w[0]] + (w[1..] + close);
    InsideStep(w[0], w[1..] + close, ["echo"], None);
    assert Text(None) + [w[0]] == [w[0]] && [w[0]] + w[1..] == w;
    InsidePlain(w[1..], close, ["echo"], [w[0]]);
  }

  lemma EchoText(w: string, rest: string)
    ensures "$(echo " + w + ")" + "\"" + rest == "$" + ("(" + ("echo" + " " + (w + (")" + ("\"" + rest)))))
  {
  }

  lemma InsideEnd(w: string, rest: string)
    ensures Inside(")" + rest, ["echo"], Some(w)) == Some(Inner(["echo", w], rest))
  {
    hide DoubleQuoted;
    assert (")" + rest)[1..] == rest && ["echo"] + [w] == ["echo", w];
  }

  lemma StrippedWord(w: string)
    requires forall c :: c in w ==> Plain(c)
    ensures Stripped(w) == w
  {
    if w != "" { assert w[|w| - 1] in w; }
  }
}
