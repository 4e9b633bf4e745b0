/**
 Text interpolated into double-quoted Nix strings: the escaper, the lexer of the Nix
 language for such strings (Nix Reference Manual, section "String literal"), and what
 comes back.
 */
module NixString {
  import opened Texts

  // ----- Escaping ----------------------------------------------------------------

  /** Three replacements one after the other, the backslash first. */
  function Escape(s: string): string {
    ReplaceAll(ReplaceAll(ReplaceAll(s, "\\", "\\\\"), "\"", "\\\""), "${", "\\${")
  }

  /** What they amount to in one pass. */
  function EscapeOnce(s: string): string {
    if s == "" then ""
    else if s[0] == '\\' || s[0] == '"' then ['\\', s[0]] + EscapeOnce(s[1..])
    else if |s| >= 2 && s[0] == '$' && s[1] == '{' then "\\${" + EscapeOnce(s[2..])
    else [s[0]] + EscapeOnce(s[1..])
  }

  /** The first two replacements. */
  function Slashed(s: string): string {
    ReplaceAll(ReplaceAll(s, "\\", "\\\\"), "\"", "\\\"")
  }

  lemma ReplaceChar(s: string, c: char, with: string)
    ensures ReplaceAll("", [c], with) == ""
    ensures s != "" ==> ReplaceAll(s, [c], with) == (if s[0] == c then with else [s[0]]) + ReplaceAll(s[1..], [c], with)
  {
    if s != "" { assert s[..1] == [c] <==> s[0] == c; }
  }

  lemma SlashedHead(s: string)
    requires s != ""
    ensures Slashed(s) == (if s[0] == '\\' || s[0] == '"' then ['\\', s[0]] else [s[0]]) + Slashed(s[1..])
  {
    hide ReplaceAll;
    ReplaceChar(s, '\\', "\\\\");
    var rest := ReplaceAll(s[1..], "\\", "\\\\");
    if s[0] == '\\' {
      var once := "\\\\" + rest;
      ReplaceChar(once, '"', "\\\"");
      assert once[1..] == "\\" + rest;
      ReplaceChar("\\" + rest, '"', "\\\"");
      assert ("\\" + rest)[1..] == rest;
    } else {
      var once := [s[0]] + rest;
      assert once[1..] == rest;
      ReplaceChar(once, '"', "\\\"");
    }
  }

  lemma SlashedEmpty()
    ensures Slashed("") == ""
  {
  }

  lemma SkipChar(c: char, rest: string)
    requires !(c == '$' && rest != "" && rest[0] == '{')
    ensures ReplaceAll([c] + rest, "${", "\\${") == [c] + ReplaceAll(rest, "${", "\\${")
  {
    var s := [c] + rest;
    assert s[1..] == rest;
    if |s| >= 2 { assert s[..2] == [c, rest[0]]; }
  }

  lemma SkipPair(c: char, rest: string)
    requires c != '$'
    ensures ReplaceAll(['\\', c] + rest, "${", "\\${") == ['\\', c] + ReplaceAll(rest, "${", "\\${")
  {
    hide ReplaceAll;
    Prepend('\\', c, rest);
    Prepend('\\', c, ReplaceAll(rest, "${", "\\${"));
    SkipChar('\\', [c] + rest);
    SkipChar(c, rest);
  }

  lemma SlashedBrace(s: string)
    requires |s| >= 2 && s[0] == '$' && s[1] == '{'
    ensures Slashed(s) == "${" + Slashed(s[2..])
  {
    hide Slashed;
    SlashedHead(s);
    SlashedHead(s[1..]);
    assert s[1..][1..] == s[2..];
    Prepend('$', '{', Slashed(s[2..]));
  }

  lemma HitBrace(rest: string)
    ensures ReplaceAll("${" + rest, "${", "\\${") == "\\${" + ReplaceAll(rest, "${", "\\${")
  {
    var s := "${" + rest;
    assert s[..2] == "${" && s[2..] == rest;
  }

  /** The order of the replacements is right: together they are the single pass. */
  lemma {:induction false} EscapeIsOnePass(s: string)
    ensures Escape(s) == EscapeOnce(s)
    decreases |s|
  {
    hide ReplaceAll, Slashed;
    assert Escape(s) == ReplaceAll(Slashed(s), "${", "\\${") by { EscapeLast(s); }
    if s == "" {
      EmptyReplace();
    } else {
      SlashedHead(s);
      var rest := Slashed(s[1..]);
      EscapeLast(s[1..]);
      EscapeIsOnePass(s[1..]);
      if s[0] == '\\' || s[0] == '"' {
        SkipPair(s[0], rest);
      } else if |s| >= 2 && s[0] == '$' && s[1] == '{' {
        SlashedBrace(s);
        HitBrace(Slashed(s[2..]));
        EscapeLast(s[2..]);
        EscapeIsOnePass(s[2..]);
      } else {
        FirstKept(s[1..]);
        SkipChar(s[0], rest);
      }
    }
  }

  lemma EscapeLast(s: string)
    ensures Escape(s) == ReplaceAll(Slashed(s), "${", "\\${")
  {
    hide ReplaceAll;
  }

  lemma EmptyReplace()
    ensures Slashed("") == "" && ReplaceAll("", "${", "\\${") == ""
  {
  }

  /** A brace comes first only if it came first before. */
  lemma FirstKept(s: string)
    ensures Slashed(s) != "" && Slashed(s)[0] == '{' ==> s != "" && s[0] == '{'
  {
    if s == "" { SlashedEmpty(); } else { SlashedHead(s); }
  }

  // ----- The lexer -------------------------------------------------------------------

  /** Behind an opening quote: the value of the literal and the text after it, or what went wrong. */
  datatype Literal = Closed(value: string, rest: string) | Antiquotation | Unterminated

  function Cons(c: char, l: Literal): Literal {
    if l.Closed? then Closed([c] + l.value, l.rest) else l
  }

  function Unescape(c: char): char {
    if c == 'n' then '\n' else if c == 'r' then '\r' else if c == 't' then '\t' else c
  }

  /** A carriage return, alone or before a line feed, reads as a line feed. */
  function LineEnd(s: string): nat
    requires s != ""
    ensures 1 <= LineEnd(s) <= |s|
  {
    if |s| >= 2 && s[1] == '\n' then 2 else 1
  }

  /**
   A dollar sign and the character after it are read together, so a second dollar sign
   does not start an antiquotation.
   */
  function Read(s: string): Literal
    decreases |s|
  {
    if s == "" then Unterminated
    else if s[0] == '"' then Closed("", s[1..])
    else if s[0] == '\\' then
      if |s| == 1 then Unterminated else Cons(Unescape(s[1]), Read(s[2..]))
    else if s[0] == '$' && |s| >= 2 then
      if s[1] == '{' then Antiquotation
      else if s[1] == '$' then Cons('$', Cons('$', Read(s[2..])))
      else Cons('$', Read(s[1..]))
    else if s[0] == '\r' then Cons('\n', Read(s[LineEnd(s)..]))
    else Cons(s[0], Read(s[1..]))
  }

  function NormalizeCR(s: string): string {
    if s == "" then ""
    else if s[0] == '\r' then ['\n'] + NormalizeCR(s[LineEnd(s)..])
    else [s[0]] + NormalizeCR(s[1..])
  }

  /** The text an escaped string leaves behind the opening quote. */
  function Quoted(s: string, rest: string): string {
    EscapeOnce(s) + "\"" + rest
  }

  lemma QuotedHead(s: string, rest: string)
    requires s != "" && s[0] != '\\' && s[0] != '"' && !(|s| >= 2 && s[0] == '$' && s[1] == '{')
    ensures Quoted(s, rest) == [s[0]] + Quoted(s[1..], rest)
  {
    assert [s[0]] + EscapeOnce(s[1..]) + "\"" + rest == [s[0]] + (EscapeOnce(s[1..]) + "\"" + rest);
  }

  /** The first character of the escaped text. */
  lemma QuotedFirst(s: string, rest: string)
    ensures |Quoted(s, rest)| > 0
    ensures Quoted(s, rest)[0] ==
            (if s == "" then '"'
             else if s[0] == '"' || (|s| >= 2 && s[0] == '$' && s[1] == '{') then '\\'
             else s[0])
  {
  }

  /** Escaped text is read back with its line ends normalized, and the literal ends where it should. */
  lemma {:induction false} ReadEscaped(s: string, rest: string)
    ensures Read(Quoted(s, rest)) == Closed(NormalizeCR(s), rest)
    decreases |s|
  {
    var text := Quoted(s, rest);
    if s == "" {
      assert text == "\"" + rest && text[1..] == rest;
    } else if s[0] == '\\' || s[0] == '"' {
      ReadPair(s, rest);
      ReadEscaped(s[1..], rest);
    } else if |s| >= 2 && s[0] == '$' && s[1] == '{' {
      ReadBrace(s, rest);
      ReadEscaped(s[2..], rest);
    } else if |s| >= 2 && s[0] == '$' && s[1] == '$' && !(|s| >= 3 && s[2] == '{') {
      ReadDollars(s, rest);
      ReadEscaped(s[2..], rest);
    } else if s[0] == '$' {
      ReadDollar(s, rest);
      ReadEscaped(s[1..], rest);
    } else if s[0] == '\r' {
      ReadLineEnd(s, rest);
      ReadEscaped(s[LineEnd(s)..], rest);
    } else {
      QuotedHead(s, rest);
      assert text[1..] == Quoted(s[1..], rest);
      ReadEscaped(s[1..], rest);
    }
  }

  lemma QuotedPair(s: string, rest: string)
    requires s != "" && (s[0] == '\\' || s[0] == '"')
    ensures Quoted(s, rest) == ['\\', s[0]] + Quoted(s[1..], rest)
  {
    var pair, tail := ['\\', s[0]], EscapeOnce(s[1..]);
    assert EscapeOnce(s) == pair + tail;
    Regroup(pair, tail, "\"", rest);
  }

  lemma Regroup(a: string, b: string, c: string, d: string)
    ensures a + b + c + d == a + (b + c + d)
  {
  }

  lemma ReadEscapedChar(c: char, more: string)
    ensures Read(['\\', c] + more) == Cons(Unescape(c), Read(more))
  {
    assert (['\\', c] + more)[2..] == more;
  }

  lemma ReadPair(s: string, rest: string)
    requires s != "" && (s[0] == '\\' || s[0] == '"')
    ensures Read(Quoted(s, rest)) == Cons(s[0], Read(Quoted(s[1..], rest)))
    ensures NormalizeCR(s) == [s[0]] + NormalizeCR(s[1..])
  {
    hide Read, Quoted, EscapeOnce;
    QuotedPair(s, rest);
    ReadEscapedChar(s[0], Quoted(s[1..], rest));
  }

  lemma ReadBrace(s: string, rest: string)
    requires |s| >= 2 && s[0] == '$' && s[1] == '{'
    ensures Read(Quoted(s, rest)) == Cons('$', Cons('{', Read(Quoted(s[2..], rest))))
    ensures NormalizeCR(s) == ['$'] + (['{'] + NormalizeCR(s[2..]))
  {
    var more := Quoted(s[2..], rest);
    assert Quoted(s, rest) == "\\${" + more by { Regroup("\\${", EscapeOnce(s[2..]), "\"", rest); }
    ReadEscapedBrace(more);
    NormalizeTwo(s);
  }

  lemma ReadEscapedBrace(more: string)
    ensures Read("\\${" + more) == Cons('$', Cons('{', Read(more)))
  {
    var text := "\\${" + more;
    assert text[2..] == "{" + more && ("{" + more)[1..] == more;
  }

  lemma NormalizePlain(s: string)
    requires s != "" && s[0] != '\r'
    ensures NormalizeCR(s) == [s[0]] + NormalizeCR(s[1..])
  {
  }

  lemma ReadDollars(s: string, rest: string)
    requires |s| >= 2 && s[0] == '$' && s[1] == '$' && !(|s| >= 3 && s[2] == '{')
    ensures Read(Quoted(s, rest)) == Cons('$', Cons('$', Read(Quoted(s[2..], rest))))
    ensures NormalizeCR(s) == ['$'] + (['$'] + NormalizeCR(s[2..]))
  {
    TwoQuoted(s, rest);
    ReadTwoDollars(Quoted(s[2..], rest));
    NormalizeTwo(s);
  }

  lemma TwoQuoted(s: string, rest: string)
    requires |s| >= 2 && s[0] == '$' && s[1] == '$' && !(|s| >= 3 && s[2] == '{')
    ensures Quoted(s, rest) == "$$" + Quoted(s[2..], rest)
  {
    hide Quoted;
    QuotedHead(s, rest);
    QuotedHead(s[1..], rest);
    assert s[1..][1..] == s[2..];
    Prepend('$', '$', Quoted(s[2..], rest));
  }

  lemma Prepend(a: char, b: char, t: string)
    ensures [a] + ([b] + t) == [a, b] + t
  {
  }

  lemma NormalizeTwo(s: string)
    requires |s| >= 2 && s[0] != '\r' && s[1] != '\r'
    ensures NormalizeCR(s) == [s[0]] + ([s[1]] + NormalizeCR(s[2..]))
  {
    NormalizePlain(s);
    NormalizePlain(s[1..]);
    assert s[1..][1..] == s[2..];
  }

  lemma ReadTwoDollars(more: string)
    ensures Read("$$" + more) == Cons('$', Cons('$', Read(more)))
  {
    assert ("$$" + more)[2..] == more;
  }

  lemma ReadDollar(s: string, rest: string)
    requires s != "" && s[0] == '$' && !(|s| >= 2 && s[1] == '{')
    requires |s| >= 2 && s[1] == '$' ==> |s| >= 3 && s[2] == '{'
    ensures Read(Quoted(s, rest)) == Cons('$', Read(Quoted(s[1..], rest)))
    ensures NormalizeCR(s) == ['$'] + NormalizeCR(s[1..])
  {
    hide Quoted;
    QuotedHead(s, rest);
    QuotedFirst(s[1..], rest);
    ReadLoneDollar(Quoted(s[1..], rest));
    NormalizePlain(s);
  }

  lemma ReadLoneDollar(more: string)
    requires more != "" && more[0] != '{' && more[0] != '$'
    ensures Read("$" + more) == Cons('$', Read(more))
  {
    assert ("$" + more)[1..] == more;
  }

  lemma ReadLineEnd(s: string, rest: string)
    requires s != "" && s[0] == '\r'
    ensures Read(Quoted(s, rest)) == Cons('\n', Read(Quoted(s[LineEnd(s)..], rest)))
    ensures NormalizeCR(s) == ['\n'] + NormalizeCR(s[LineEnd(s)..])
  {
    var text := Quoted(s, rest);
    QuotedHead(s, rest);
    QuotedFirst(s[1..], rest);
    assert text[1..] == Quoted(s[1..], rest);
    if LineEnd(s) == 2 {
      QuotedHead(s[1..], rest);
      assert s[1..][1..] == s[2..];
      assert text[2..] == Quoted(s[2..], rest);
    } else {
      assert text[1] != '\n';
    }
  }

  lemma {:induction false} NormalizeKeepsIff(s: string)
    ensures NormalizeCR(s) == s <==> '\r' !in s
    ensures |NormalizeCR(s)| <= |s|
    decreases |s|
  {
    if s != "" {
      assert s == [s[0]] + s[1..];
      if s[0] == '\r' {
        NormalizeKeepsIff(s[LineEnd(s)..]);
        assert NormalizeCR(s)[0] != s[0];
      } else {
        NormalizeKeepsIff(s[1..]);
        assert NormalizeCR(s)[1..] == NormalizeCR(s[1..]);
      }
    }
  }

  /**
   Embedded in a double-quoted literal an escaped text closes nowhere but at its own end
   and starts no antiquotation; it is read back unchanged exactly if it has no carriage
   return.
   */
  lemma EscapeRoundTrip(s: string, rest: string)
    ensures Read(Escape(s) + "\"" + rest) == Closed(NormalizeCR(s), rest)
    ensures Read(Escape(s) + "\"" + rest) == Closed(s, rest) <==> '\r' !in s
  {
    EscapeIsOnePass(s);
    ReadEscaped(s, rest);
    NormalizeKeepsIff(s);
  }

  // ----- A node file -----------------------------------------------------------------

  /** A name that is the same with and without quoting, as object names are. */
  predicate PlainName(s: string) {
    forall c :: c in s ==> 'a' <= c <= 'z' || 'A' <= c <= 'Z' || '0' <= c <= '9' || c == '-' || c == '.' || c == '_'
  }

  const Head := "{ lib, ... }:\n{\n  nixcluster.\""
  const Members := ".members.\""
  const Update := " =\n    lib.recursiveUpdate (builtins.fromJSON \""
  const Between := ") {\n      install.ip = \""
  const Closing := ";\n    };\n}\n"

  /** The file, for names that need no escapes of their own. */
  function NodeFileContent(cluster: string, machine: string, host: string, valuesJSON: string): string {
    Head + cluster + "\"" + Members + machine + "\"" + Update + Escape(valuesJSON) + "\"" + Between + Escape(host) + "\""
    + Closing
  }

  /** The text is these pieces of plain text with string literals of these values between them, and nothing else. */
  predicate Carries(text: string, plain: seq<string>, values: seq<string>)
    decreases |values|
  {
    && |plain| == |values| + 1
    && if values == [] then text == plain[0]
       else
         && |plain[0]| <= |text| && text[..|plain[0]|] == plain[0]
         && var l := Read(text[|plain[0]|..]);
            l.Closed? && l.value == values[0] && Carries(l.rest, plain[1..], values[1..])
  }

  lemma CarriesOne(piece: string, literal: string, value: string, rest: string, plain: seq<string>, values: seq<string>)
    requires Read(literal + "\"" + rest) == Closed(value, rest) && Carries(rest, plain, values)
    ensures Carries(piece + literal + "\"" + rest, [piece] + plain, [value] + values)
  {
    var text := piece + literal + "\"" + rest;
    assert text == piece + (literal + "\"" + rest);
    assert text[..|piece|] == piece && text[|piece|..] == literal + "\"" + rest;
    assert ([piece] + plain)[1..] == plain && ([value] + values)[1..] == values;
  }

  lemma {:induction false} PlainEscapes(s: string)
    requires PlainName(s)
    ensures EscapeOnce(s) == s && NormalizeCR(s) == s
  {
    if s != "" {
      assert s[0] in s && forall c :: c in s[1..] ==> c in s;
      PlainEscapes(s[1..]);
      assert s == [s[0]] + s[1..];
    }
  }

  /** A plain name is read back without having been escaped. */
  lemma PlainReads(s: string, rest: string)
    requires PlainName(s)
    ensures Read(s + "\"" + rest) == Closed(s, rest)
  {
    PlainEscapes(s);
    ReadEscaped(s, rest);
  }

  /**
   A node file consists of the fixed text and four string literals, which evaluate to the
   cluster, the Machine, the values and the host.
   */
  lemma NodeFileCarries(cluster: string, machine: string, host: string, valuesJSON: string)
    requires PlainName(cluster) && PlainName(machine)
    ensures Carries(NodeFileContent(cluster, machine, host, valuesJSON), [Head, Members, Update, Between, Closing],
                    [cluster, machine, NormalizeCR(valuesJSON), NormalizeCR(host)])
  {
    hide Escape, Read, Carries, PlainName, NormalizeCR;
    var t4 := Closing;
    assert Carries(t4, [Closing], []) by { NothingCarried(t4); }
    var t3 := Between + Escape(host) + "\"" + t4;
    EscapeRoundTrip(host, t4);
    CarriesOne(Between, Escape(host), NormalizeCR(host), t4, [Closing], []);
    var t2 := Update + Escape(valuesJSON) + "\"" + t3;
    EscapeRoundTrip(valuesJSON, t3);
    CarriesOne(Update, Escape(valuesJSON), NormalizeCR(valuesJSON), t3, [Between] + [Closing], [NormalizeCR(host)] + []);
    var t1 := Members + machine + "\"" + t2;
    PlainReads(machine, t2);
    CarriesOne(Members, machine, machine, t2, [Update] + ([Between] + [Closing]),
               [NormalizeCR(valuesJSON)] + ([NormalizeCR(host)] + []));
    PlainReads(cluster, t1);
    CarriesOne(Head, cluster, cluster, t1, [Members] + ([Update] + ([Between] + [Closing])),
               [machine] + ([NormalizeCR(valuesJSON)] + ([NormalizeCR(host)] + [])));
    SameText(cluster, machine, Escape(host), Escape(valuesJSON));
    assert [Head] + ([Members] + ([Update] + ([Between] + [Closing]))) == [Head, Members, Update, Between, Closing];
    assert [cluster] + ([machine] + ([NormalizeCR(valuesJSON)] + ([NormalizeCR(host)] + [])))
        == [cluster, machine, NormalizeCR(valuesJSON), NormalizeCR(host)];
  }

  lemma NothingCarried(text: string)
    ensures Carries(text, [text], [])
  {
  }

  lemma SameText(cluster: string, machine: string, host: string, values: string)
    ensures
      Head + cluster + "\"" + (Members + machine + "\"" + (Update + values + "\"" + (Between + host + "\"" + Closing)))
      == Head + cluster + "\"" + Members + machine + "\"" + Update + values + "\"" + Between + host + "\"" + Closing
  {
    Nested(Head + cluster + "\"", Members + machine + "\"", Update + values + "\"", Between + host + "\"" + Closing);
    Flat(Head + cluster + "\"", Members, machine, "\"");
    Flat(Head + cluster + "\"" + Members + machine + "\"", Update, values, "\"");
    Flat4(Head + cluster + "\"" + Members + machine + "\"" + Update + values + "\"", Between, host, "\"", Closing);
  }

  lemma Nested(a: string, b: string, c: string, d: string)
    ensures a + (b + (c + d)) == a + b + c + d
  {
  }

  lemma Flat(a: string, b: string, c: string, d: string)
    ensures a + (b + c + d) == a + b + c + d
  {
  }

  lemma Flat4(a: string, b: string, c: string, d: string, e: string)
    ensures a + (b + c + d + e) == a + b + c + d + e
  {
  }

  /** Whatever the names are, the two escaped literals evaluate to the values and the host. */
  lemma EscapedLiteralsCarried(before: string, host: string, valuesJSON: string)
    ensures
      var text := before + Escape(valuesJSON) + "\"" + Between + Escape(host) + "\"" + Closing;
      var first := Read(text[|before|..]);
      && first == Closed(NormalizeCR(valuesJSON), Between + Escape(host) + "\"" + Closing)
      && Read(first.rest[|Between|..]) == Closed(NormalizeCR(host), Closing)
  {
    hide Escape;
    var text := before + Escape(valuesJSON) + "\"" + Between + Escape(host) + "\"" + Closing;
    var tail := Between + Escape(host) + "\"" + Closing;
    assert text[|before|..] == Escape(valuesJSON) + "\"" + tail;
    EscapeRoundTrip(valuesJSON, tail);
    assert tail[|Between|..] == Escape(host) + "\"" + Closing;
    EscapeRoundTrip(host, Closing);
  }
}
