/** Destination paths of injected files: which are accepted, and where they end up. */
module Paths {

  const Workspace := "/workspace"

  // ----- Lexical cleaning ------------------------------------------------------

  /** The segments between slashes; a path has one more segment than slashes. */
  function Split(p: string): (segs: seq<string>)
    ensures |segs| >= 1 && forall s :: s in segs ==> '/' !in s
  {
    if p == "" then [""]
    else
      var rest := Split(p[1..]);
      if p[0] == '/' then [""] + rest else [[p[0]] + rest[0]] + rest[1..]
  }

  function JoinSegments(segs: seq<string>): string {
    if segs == [] then ""
    else if |segs| == 1 then segs[0]
    else segs[0] + "/" + JoinSegments(segs[1..])
  }

  /** One segment on top of a cleaned path: `..` takes back a name if there is one. */
  function Push(stack: seq<string>, seg: string, rooted: bool): seq<string> {
    if seg == "" || seg == "." then stack
    else if seg == ".." then
      if stack != [] && stack[|stack| - 1] != ".." then stack[..|stack| - 1]
      else if rooted then stack
      else stack + [".."]
    else stack + [seg]
  }

  function Walk(stack: seq<string>, segs: seq<string>, rooted: bool): seq<string>
    decreases |segs|
  {
    if segs == [] then stack else Walk(Push(stack, segs[0], rooted), segs[1..], rooted)
  }

  function Clean(p: string): string {
    var rooted := IsAbs(p);
    Render(Walk([], Split(p), rooted), rooted)
  }

  function Render(stack: seq<string>, rooted: bool): string {
    if rooted then "/" + JoinSegments(stack)
    else if stack == [] then "."
    else JoinSegments(stack)
  }

  predicate IsAbs(p: string) {
    p != "" && p[0] == '/'
  }

  function Join(dir: string, p: string): string {
    Clean(dir + "/" + p)
  }

  // ----- The parent, as text ----------------------------------------------------

  function TrimSlashes(p: string): string {
    if p != "" && p[|p| - 1] == '/' then TrimSlashes(p[..|p| - 1]) else p
  }

  function DropName(p: string): string {
    if p != "" && p[|p| - 1] != '/' then DropName(p[..|p| - 1]) else p
  }

  /** What the utility of this name prints, without the final newline. */
  function Dirname(p: string): string {
    var all := TrimSlashes(p);
    var up := DropName(all);
    if p == "" || (all != "" && up == "") then "."
    else if TrimSlashes(up) == "" then "/"
    else TrimSlashes(up)
  }

  lemma {:induction false} CutIsPrefix(p: string)
    ensures |TrimSlashes(p)| <= |p| && TrimSlashes(p) == p[..|TrimSlashes(p)|]
    ensures |DropName(p)| <= |p| && DropName(p) == p[..|DropName(p)|]
  {
    if p != "" { CutIsPrefix(p[..|p| - 1]); }
  }

  // ----- The check --------------------------------------------------------------

  predicate IsSafeChar(c: char) {
    'a' <= c <= 'z' || 'A' <= c <= 'Z' || '0' <= c <= '9' || c == '.' || c == '_' || c == '-' || c == '/'
  }

  predicate HasPrefix(p: string, prefix: string) {
    |prefix| <= |p| && p[..|prefix|] == prefix
  }

  predicate ValidateFilePath(p: string) {
    && p != "" && !IsAbs(p)
    && (forall c :: c in p ==> IsSafeChar(c))
    && !(Clean(p) == ".." || HasPrefix(Clean(p), "../"))
  }

  // ----- What it accepts ----------------------------------------------------------

  /** How far a sequence of segments leads down, each `..` leading up by one. */
  function Depth(segs: seq<string>): int {
    if segs == [] then 0
    else Depth(segs[..|segs| - 1]) + Level(segs[|segs| - 1])
  }

  function Level(seg: string): int {
    if seg == "" || seg == "." then 0 else if seg == ".." then -1 else 1
  }

  /** No prefix of the segments leads above the start. */
  predicate StaysBelow(segs: seq<string>) {
    forall k :: 0 <= k <= |segs| ==> Depth(segs[..k]) >= 0
  }

  lemma {:induction false} WalkSnoc(stack: seq<string>, segs: seq<string>, seg: string, rooted: bool)
    ensures Walk(stack, segs + [seg], rooted) == Push(Walk(stack, segs, rooted), seg, rooted)
    decreases |segs|
  {
    if segs == [] {
      assert [seg][1..] == [];
      assert [] + [seg] == [seg];
    } else {
      assert (segs + [seg])[1..] == segs[1..] + [seg];
      WalkSnoc(Push(stack, segs[0], rooted), segs[1..], seg, rooted);
    }
  }

  /** A cleaned relative path: some `..` first, names after them. */
  predicate Shaped(stack: seq<string>, ups: nat) {
    && ups <= |stack|
    && (forall i :: 0 <= i < ups ==> stack[i] == "..")
    && (forall i :: ups <= i < |stack| ==> stack[i] != ".." && stack[i] != "" && stack[i] != ".")
  }

  lemma PushShape(stack: seq<string>, before: nat, seg: string) returns (ups: nat)
    requires Shaped(stack, before)
    ensures ups == (if seg == ".." && |stack| == before then before + 1 else before)
    ensures
      var next := Push(stack, seg, false);
      Shaped(next, ups) && |next| - 2 * ups == |stack| - 2 * before + Level(seg)
  {
    ups := if seg == ".." && |stack| == before then before + 1 else before;
  }

  /** The leading `..` of the walked path. */
  lemma {:induction false} WalkShape(segs: seq<string>) returns (ups: nat)
    ensures var stack := Walk([], segs, false);
            Shaped(stack, ups) && |stack| - 2 * ups == Depth(segs)
    ensures ups == 0 <==> StaysBelow(segs)
    decreases |segs|
  {
    if segs == [] {
      ups := 0;
    } else {
      var front, last := segs[..|segs| - 1], segs[|segs| - 1];
      var before := WalkShape(front);
      ups := PushShape(Walk([], front, false), before, last);
      assert segs == front + [last];
      WalkSnoc([], front, last, false);
      BelowIff(segs);
    }
  }

  lemma BelowIff(segs: seq<string>)
    requires segs != []
    ensures StaysBelow(segs) <==> StaysBelow(segs[..|segs| - 1]) && Depth(segs) >= 0
  {
    hide Depth;
    PrefixesOf(segs);
    var front := segs[..|segs| - 1];
    if StaysBelow(segs) {
      assert Depth(segs[..|segs|]) >= 0;
      assert forall k :: 0 <= k <= |front| ==> Depth(segs[..k]) >= 0;
    } else {
      var k :| 0 <= k <= |segs| && Depth(segs[..k]) < 0;
      assert k < |segs| ==> Depth(front[..k]) < 0;
    }
  }

  lemma PrefixesOf(segs: seq<string>)
    requires segs != []
    ensures var front := segs[..|segs| - 1];
            (forall k :: 0 <= k <= |front| ==> segs[..k] == front[..k]) && segs[..|segs|] == segs
  {
  }

  lemma {:induction false} SegmentsKeepSlashFree(stack: seq<string>, segs: seq<string>, rooted: bool)
    requires forall s :: s in stack || s in segs ==> '/' !in s
    ensures forall s :: s in Walk(stack, segs, rooted) ==> '/' !in s
    decreases |segs|
  {
    if segs != [] {
      assert segs[0] in segs && forall s :: s in segs[1..] ==> s in segs;
      SegmentsKeepSlashFree(Push(stack, segs[0], rooted), segs[1..], rooted);
    }
  }

  /** The text of a cleaned path leads up exactly if its first segment does. */
  lemma TextLeadsUp(stack: seq<string>)
    requires forall s :: s in stack ==> '/' !in s
    ensures
      var text := Render(stack, false);
      (text == ".." || HasPrefix(text, "../")) <==> (stack != [] && stack[0] == "..")
  {
    if stack != [] {
      assert stack[0] in stack;
      var text := JoinSegments(stack);
      if |stack| > 1 {
        var rest := JoinSegments(stack[1..]);
        assert text == stack[0] + "/" + rest;
        assert text[|stack[0]|] == '/';
        if HasPrefix(text, "../") {
          assert text[0] == '.' && text[1] == '.' && text[2] == '/';
          FirstSlash(stack[0], rest, text);
        }
        if stack[0] == ".." {
          assert text[..3] == "../";
        }
      } else {
        assert text == stack[0] && '/' !in text;
        NoSlashNoPrefix(text);
      }
    }
  }

  lemma NoSlashNoPrefix(text: string)
    requires '/' !in text
    ensures !HasPrefix(text, "../")
  {
    if |text| >= 3 { assert text[2] in text && text[..3][2] == text[2]; }
  }

  lemma FirstSlash(seg: string, rest: string, text: string)
    requires '/' !in seg && text == seg + "/" + rest
    requires |text| >= 3 && text[0] == '.' && text[1] == '.' && text[2] == '/'
    ensures seg == ".."
  {
    assert text[|seg|] == '/';
    assert |seg| >= 2;
    assert forall i :: 0 <= i < |seg| ==> text[i] in seg;
    assert seg[0] == text[0] && seg[1] == text[1];
  }

  /** Accepted are exactly the safe relative paths no prefix of which leads out of the tree. */
  lemma AcceptedIffStaysBelow(p: string)
    ensures ValidateFilePath(p) <==>
            p != "" && p[0] != '/' && (forall c :: c in p ==> IsSafeChar(c)) && StaysBelow(Split(p))
  {
    if p != "" && p[0] != '/' {
      var segs := Split(p);
      var stack := Walk([], segs, false);
      SegmentsKeepSlashFree([], segs, false);
      TextLeadsUp(stack);
      var ups := WalkShape(segs);
      assert (stack != [] && stack[0] == "..") <==> ups > 0;
    }
  }

  // ----- Where accepted paths end up -----------------------------------------------

  lemma SplitHead(c: char, rest: string)
    ensures Split([c] + rest)
         == if c == '/' then [""] + Split(rest) else [[c] + Split(rest)[0]] + Split(rest)[1..]
  {
    assert ([c] + rest)[1..] == rest;
  }

  lemma {:induction false} SplitConcat(a: string, b: string)
    ensures Split(a + "/" + b) == Split(a) + Split(b)
  {
    hide Split;
    if a == "" {
      assert a + "/" + b == ['/'] + b;
      SplitHead('/', b);
      assert Split("") == [""] by { PlainSplit(""); }
    } else {
      var rest := a[1..] + "/" + b;
      assert a + "/" + b == [a[0]] + rest && a == [a[0]] + a[1..];
      SplitHead(a[0], rest);
      SplitHead(a[0], a[1..]);
      SplitConcat(a[1..], b);
      var s, t := Split(a[1..]), Split(b);
      assert (s + t)[0] == s[0] && (s + t)[1..] == s[1..] + t;
    }
  }

  lemma {:induction false} WalkConcat(stack: seq<string>, a: seq<string>, b: seq<string>, rooted: bool)
    ensures Walk(stack, a + b, rooted) == Walk(Walk(stack, a, rooted), b, rooted)
    decreases |a|
  {
    if a == [] {
      assert a + b == b;
    } else {
      assert (a + b)[1..] == a[1..] + b;
      WalkConcat(Push(stack, a[0], rooted), a[1..], b, rooted);
    }
  }

  /** Below a base directory a path that never leads up is walked as it is on its own. */
  lemma {:induction false} WalkBelow(base: seq<string>, segs: seq<string>)
    requires StaysBelow(segs)
    ensures Walk(base, segs, true) == base + Walk([], segs, false)
    decreases |segs|
  {
    if segs == [] {
    } else {
      var front, last := segs[..|segs| - 1], segs[|segs| - 1];
      assert segs == front + [last];
      assert forall k :: 0 <= k <= |front| ==> segs[..k] == front[..k];
      WalkBelow(base, front);
      WalkSnoc(base, front, last, true);
      WalkSnoc([], front, last, false);
      var ups := WalkShape(front);
      assert Depth(segs[..|segs|]) >= 0 && segs[..|segs|] == segs;
      PushBelow(base, Walk([], front, false), last);
    }
  }

  lemma PushBelow(base: seq<string>, stack: seq<string>, seg: string)
    requires Shaped(stack, 0) && (seg == ".." ==> stack != [])
    ensures Push(base + stack, seg, true) == base + Push(stack, seg, false)
  {
    if seg == ".." {
      assert (base + stack)[|base + stack| - 1] == stack[|stack| - 1];
      assert (base + stack)[..|base + stack| - 1] == base + stack[..|stack| - 1];
    } else if seg != "" && seg != "." {
      assert base + stack + [seg] == base + (stack + [seg]);
    }
  }

  lemma {:induction false} JoinSegmentsConcat(a: string, segs: seq<string>)
    requires segs != []
    ensures JoinSegments([a] + segs) == a + "/" + JoinSegments(segs)
  {
    assert ([a] + segs)[1..] == segs;
  }

  predicate Inside(p: string, dir: string) {
    p == dir || HasPrefix(p, dir + "/")
  }

  /**
   Joined under the workspace and cleaned, an accepted path stays there: it is the
   workspace itself or the cleaned path below it.
   */
  lemma AcceptedStaysInWorkspace(p: string)
    requires ValidateFilePath(p)
    ensures Inside(Join(Workspace, p), Workspace)
    ensures Join(Workspace, p) == if Clean(p) == "." then Workspace else Workspace + "/" + Clean(p)
  {
    AcceptedIffStaysBelow(p);
    var segs := Split(p);
    var stack := Walk([], segs, false);
    WalkFromWorkspace(p);
    var ups := WalkShape(segs);
    UnderWorkspace(stack);
  }

  lemma UnderWorkspace(stack: seq<string>)
    requires Shaped(stack, 0)
    ensures
      var whole, own := "/" + JoinSegments(["workspace"] + stack), Render(stack, false);
      whole == (if own == "." then Workspace else Workspace + "/" + own) && Inside(whole, Workspace)
  {
    if stack == [] {
      assert ["workspace"] + stack == ["workspace"];
    } else {
      var own := JoinSegments(stack);
      JoinSegmentsConcat("workspace", stack);
      NotDot(stack);
      var whole := "/" + ("workspace" + "/" + own);
      assert whole == Workspace + "/" + own;
      assert whole[..|Workspace| + 1] == Workspace + "/";
    }
  }

  lemma WalkFromWorkspace(p: string)
    requires StaysBelow(Split(p))
    ensures Join(Workspace, p) == "/" + JoinSegments(["workspace"] + Walk([], Split(p), false))
  {
    var segs := Split(p);
    WorkspaceSegments();
    SplitConcat(Workspace, p);
    WalkConcat([], ["", "workspace"], segs, true);
    WorkspaceWalk();
    WalkBelow(["workspace"], segs);
    assert IsAbs(Workspace + "/" + p);
  }

  lemma NotDot(stack: seq<string>)
    requires stack != [] && Shaped(stack, 0)
    ensures JoinSegments(stack) != "."
  {
    if |stack| > 1 {
      var rest := JoinSegments(stack[1..]);
      assert JoinSegments(stack) == stack[0] + "/" + rest;
      assert |stack[0]| > 0;
    }
  }

  lemma WorkspaceSegments()
    ensures Split(Workspace) == ["", "workspace"]
  {
    PlainSplit("workspace");
    assert Workspace[1..] == "workspace";
  }

  lemma {:induction false} PlainSplit(s: string)
    requires '/' !in s
    ensures Split(s) == [s]
  {
    if s != "" {
      PlainSplit(s[1..]);
      assert [s[0]] + s[1..] == s;
    }
  }

  lemma WorkspaceWalk()
    ensures Walk([], ["", "workspace"], true) == ["workspace"]
  {
    assert ["", "workspace"][1..] == ["workspace"];
    assert ["workspace"][1..] == [];
    assert Push([], "", true) == [];
    assert Push([], "workspace", true) == ["workspace"];
  }
}
