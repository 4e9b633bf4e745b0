/**
 What a run of the injection script does to the checkout: from the text the shell is given
 to the files that are written and staged.
 */
module InjectedFiles {
  import opened Options
  import opened Pods
  import opened Texts
  import opened ShellQuote
  import opened DoubleQuotes
  import opened FileInjection
  import opened InjectionText
  import opened Checkouts
  import opened Sources
  import Paths

  // ----- What it should do ------------------------------------------------------------------

  /** The first `n` files written in order, so that the last one for a path wins. */
  function Written(files: seq<NixFile>, n: nat, tree: Tree, contents: seq<Option<string>>): Option<Tree>
    requires n <= |files| && n <= |contents|
  {
    if n == 0 then Some(tree)
    else
      match (Written(files, n - 1, tree, contents), contents[n - 1])
      case (Some(t), Some(content)) =>
        var path := files[n - 1].path;
        Some(t.(files := t.files[Target(path) := content], dirs := t.dirs + Visited(path)))
      case _ => None
  }

  function Targets(files: seq<NixFile>): set<seq<string>> {
    TargetsOf(PathsOf(files))
  }

  /** No command takes the path for options, and git does not keep it out of its index. */
  predicate Fits(path: string) {
    !OptionLike(path) && Trackable(Target(path))
  }

  predicate AllFit(files: seq<NixFile>) {
    forall i :: 0 <= i < |files| ==> Fits(files[i].path)
  }

  /** All contents written and exactly the destinations staged, or a failure. */
  function Outcome(files: seq<NixFile>, tree: Tree, contents: seq<Option<string>>): Option<Tree>
    requires |contents| == |files|
  {
    var written := Written(files, |files|, tree, contents);
    if AllFit(files) && written.Some? then Some(written.value.(staged := tree.staged + Targets(files))) else None
  }

  /**
   No destination is a directory, of the checkout or on the way to another destination,
   and no way leads through a file.
   */
  predicate Unobstructed(files: seq<NixFile>, tree: Tree) {
    && (forall i :: 0 <= i < |files| ==> EndsInName(files[i].path) && Target(files[i].path) !in tree.dirs)
    && (forall i :: 0 <= i < |files| ==> Visited(files[i].path) !! tree.files.Keys)
    && (forall i, j :: 0 <= i < |files| && 0 <= j < |files| ==> Target(files[i].path) !in Visited(files[j].path))
  }

  /** The path is accepted, there is one source, and the shell takes its key as it stands. */
  predicate Sound(f: NixFile) {
    && Paths.ValidateFilePath(f.path) && OneSource(f)
    && (f.configMap.Some? ==> Inert(f.configMap.value.key)) && (f.secret.Some? ==> Inert(f.secret.value.key))
  }

  predicate AllSound(files: seq<NixFile>) {
    forall i :: 0 <= i < |files| ==> Sound(files[i])
  }

  predicate SlashFreeKeys(files: seq<NixFile>) {
    forall i :: 0 <= i < |files| ==> '/' !in Origin(files[i], i, "").1
  }

  function InjectionScript(files: seq<NixFile>, inlineName: string): string {
    ScriptText(Script(files, inlineName))
  }

  // ----- The text is read as the intended commands ------------------------------------------------

  lemma SafeIsInert(t: string)
    requires forall c :: c in t ==> Paths.IsSafeChar(c)
    ensures Inert(t)
  {
    forall i | 0 <= i < |t|
      ensures Stays(t, i)
    {
      assert Paths.IsSafeChar(t[i]);
    }
  }

  lemma InertConcat(a: string, b: string)
    requires Inert(a) && Inert(b)
    ensures Inert(a + b)
  {
    forall i | 0 <= i < |a + b|
      ensures Stays(a + b, i)
    {
      if i < |a| { assert Stays(a, i); } else { assert Stays(b, i - |a|); }
    }
  }

  lemma MountDirInert(k: nat)
    ensures Inert(MountDir(k) + "/")
  {
    DecimalValue(k);
    var t := MountDir(k) + "/";
    forall i | 0 <= i < |t|
      ensures Stays(t, i)
    {
      if |FilesBase| < i < |t| - 1 { assert t[i] == Decimal(k)[i - |FilesBase| - 1]; }
    }
  }

  lemma FileReadable(f: NixFile, i: nat, inlineName: string, objects: seq<Object>)
    requires Sound(f)
    ensures AllReadable(FileLines(f, i, inlineName, objects))
  {
    hide Inert;
    var (o, key) := Origin(f, i, inlineName);
    var dir := MountDir(IndexIn(objects, o));
    SafeIsInert(f.path);
    InlineKeyAdmitted(i);
    assert Inert(InlineKey(i)) by { SafeIsInert(InlineKey(i)); }
    MountDirInert(IndexIn(objects, o));
    InertConcat(dir + "/", key);
  }

  lemma {:induction false} CopiesReadable(files: seq<NixFile>, n: nat, inlineName: string, objects: seq<Object>)
    requires n <= |files| && AllSound(files)
    ensures AllReadable(CopyLines(files, n, inlineName, objects))
    decreases n
  {
    hide Readable, Sound, FileLines;
    if n > 0 {
      CopiesReadable(files, n - 1, inlineName, objects);
      FileReadable(files[n - 1], n - 1, inlineName, objects);
    }
  }

  lemma SoundIsInert(f: NixFile)
    requires Sound(f)
    ensures Inert(f.path)
  {
    SafeIsInert(f.path);
  }

  lemma ScriptReadable(files: seq<NixFile>, inlineName: string)
    requires AllSound(files)
    ensures AllReadable(Script(files, inlineName))
  {
    hide Inert, Paths.ValidateFilePath, OneSource, CopyLines, Objects;
    CopiesReadable(files, |files|, inlineName, Objects(files, inlineName));
    var paths := PathsOf(files);
    forall i | 0 <= i < |paths|
      ensures Inert(paths[i])
    {
      assert Sound(files[i]);
      SoundIsInert(files[i]);
    }
    assert Readable(EnterWorkspace) && Readable(Stage(paths));
  }

  lemma {:induction false} AllArgvsConcat(a: seq<Line>, b: seq<Line>)
    ensures AllArgvs(a + b) == AllArgvs(a) + AllArgvs(b)
    decreases |b|
  {
    hide Argvs;
    if b == [] {
      assert a + b == a;
    } else {
      assert (a + b)[..|a + b| - 1] == a + b[..|b| - 1];
      AllArgvsConcat(a, b[..|b| - 1]);
    }
  }

  lemma OneLineArgvs(line: Line)
    ensures AllArgvs([line]) == Argvs(line)
  {
    assert [line][..0] == [];
  }

  function CopyArgvs(files: seq<NixFile>, n: nat, inlineName: string): seq<seq<string>>
    requires n <= |files|
  {
    AllArgvs(CopyLines(files, n, inlineName, Objects(files, inlineName)))
  }

  lemma ScriptArgvs(files: seq<NixFile>, inlineName: string)
    ensures
      AllArgvs(Script(files, inlineName))
      == Preamble + (CopyArgvs(files, |files|, inlineName) + [AddForced + PathsOf(files)])
  {
    hide Argvs, AllArgvs;
    var lines := CopyLines(files, |files|, inlineName, Objects(files, inlineName));
    var stage := Stage(PathsOf(files));
    AllArgvsConcat([EnterWorkspace] + lines, [stage]);
    AllArgvsConcat([EnterWorkspace], lines);
    OneLineArgvs(EnterWorkspace);
    OneLineArgvs(stage);
    EnterAndStage(PathsOf(files));
  }

  lemma EnterAndStage(paths: seq<string>)
    ensures Argvs(EnterWorkspace) == Preamble && Argvs(Stage(paths)) == [AddForced + paths]
  {
  }

  lemma NothingDone(tree: Tree, pod: Pod)
    ensures DoAll([[]], tree, pod) == Some(tree)
  {
    DoOne([], tree, pod);
  }

  /** Behind the preamble, and before the empty line that ends a script. */
  lemma RunOfArgvs(script: string, argvs: seq<seq<string>>, tree: Tree, pod: Pod)
    requires SimpleCommands(script, Newline) == Some(Preamble + argvs + [[]])
    ensures Run(script, tree, pod) == DoAll(argvs, tree, pod)
  {
    hide SimpleCommands, DoAll, Do;
    var all := Preamble + argvs + [[]];
    assert all[..2] == Preamble && all[2..] == argvs + [[]];
    DoAllConcat(argvs, [[]], tree, pod);
    var done := DoAll(argvs, tree, pod);
    if done.Some? { NothingDone(done.value, pod); }
  }

  /** A run of the text is a run of the copies followed by the staging. */
  lemma RunOfText(files: seq<NixFile>, inlineName: string, tree: Tree, pod: Pod)
    requires AllSound(files)
    ensures
      var copied := DoAll(CopyArgvs(files, |files|, inlineName), tree, pod);
      Run(InjectionScript(files, inlineName), tree, pod)
      == if copied.None? then None else Do(AddForced + PathsOf(files), copied.value, pod)
  {
    hide Do, DoAll, Run, AllReadable, Sound, Argvs, AllArgvs, Script, CopyArgvs, SimpleCommands;
    var copies, last := CopyArgvs(files, |files|, inlineName), AddForced + PathsOf(files);
    ScriptReadable(files, inlineName);
    ScriptReads(Script(files, inlineName));
    ScriptArgvs(files, inlineName);
    RunOfArgvs(InjectionScript(files, inlineName), copies + [last], tree, pod);
    DoAllConcat(copies, [last], tree, pod);
    var copied := DoAll(copies, tree, pod);
    if copied.Some? { DoOne(last, copied.value, pod); }
  }

  // ----- One file ---------------------------------------------------------------------------

  lemma StrippedPlain(t: string)
    requires '\n' !in t
    ensures Stripped(t) == t
  {
    if t != "" { assert t[|t| - 1] in t; }
  }

  lemma DirnameIsPrefix(path: string)
    requires Relative(path)
    ensures
      var d := Paths.Dirname(path);
      d == "." || (|d| <= |path| && d == path[..|d|])
  {
    hide Ways, Visited;
    var all := Paths.TrimSlashes(path);
    Paths.CutIsPrefix(path);
    Paths.CutIsPrefix(all);
    Paths.CutIsPrefix(Paths.DropName(all));
    DirnameWays(path);
    hide Paths.TrimSlashes, Paths.DropName;
    var d := Paths.Dirname(path);
    if d != "." { assert d == Paths.TrimSlashes(Paths.DropName(all)); }
  }

  /** The parent of an accepted path is printed as it is, unless the path is taken for options. */
  lemma ParentalIsDirname(path: string)
    requires Paths.ValidateFilePath(path) && !OptionLike(path)
    ensures Parental(path) == Paths.Dirname(path) && !OptionLike(Paths.Dirname(path))
  {
    DirnameIsPrefix(path);
    hide Paths.Dirname, Paths.Clean;
    var d := Paths.Dirname(path);
    assert '\n' !in d by {
      assert d == "." || forall c :: c in d ==> c in path;
      assert !Paths.IsSafeChar('\n');
    }
    StrippedPlain(d);
    assert d == "" || d == "." || path[0] == d[0];
  }

  lemma MkdirDoes(path: string, tree: Tree, pod: Pod)
    requires Paths.ValidateFilePath(path)
    ensures
      Do(["mkdir", "-p", Parental(path)], tree, pod)
      == if OptionLike(path) || !(Visited(path) !! tree.files.Keys) then None else Some(tree.(dirs := tree.dirs + Visited(path)))
  {
    hide Visited, Ways, Paths.Dirname, Stripped;
    var argv := ["mkdir", "-p", Parental(path)];
    assert argv[..2] == ["mkdir", "-p"];
    assert Do(argv, tree, pod) == MakeWay(Parental(path), tree);
    if !OptionLike(path) {
      ParentalIsDirname(path);
      DirnameWays(path);
    }
  }

  lemma CpDoes(from: string, to: string, tree: Tree, pod: Pod)
    ensures Do(["cp", from, to], tree, pod) == CopyFile(from, to, tree, pod)
  {
    assert ["cp", from, to][..2][0] == "cp";
  }

  lemma FileArgvs(files: seq<NixFile>, i: nat, inlineName: string)
    requires i < |files|
    ensures
      var argvs := AllArgvs(FileLines(files[i], i, inlineName, Objects(files, inlineName)));
      argvs == [["mkdir", "-p", Parental(files[i].path)], ["cp", SourceOperand(files, i, inlineName), files[i].path]]
  {
    var lines := FileLines(files[i], i, inlineName, Objects(files, inlineName));
    assert lines[..1] == [lines[0]];
    OneLineArgvs(lines[0]);
    assert AllArgvs(lines) == Argvs(lines[0]) + Argvs(lines[1]);
  }

  /** What has been written so far touches only destinations and the ways to them. */
  lemma {:induction false} WrittenBounds(files: seq<NixFile>, n: nat, tree: Tree, contents: seq<Option<string>>)
    requires n <= |files| && n <= |contents| && Written(files, n, tree, contents).Some?
    ensures
      var t := Written(files, n, tree, contents).value;
      && t.staged == tree.staged
      && (forall p :: p in t.files ==> p in tree.files || exists i :: 0 <= i < n && p == Target(files[i].path))
      && (forall p :: p in t.dirs ==> p in tree.dirs || exists i :: 0 <= i < n && p in Visited(files[i].path))
      && (forall i :: 0 <= i < n ==> Target(files[i].path) in t.files)
    decreases n
  {
    hide Target, Visited;
    if n > 0 { WrittenBounds(files, n - 1, tree, contents); }
  }

  /** Nothing written so far is in the way of the next file. */
  lemma FreshWay(files: seq<NixFile>, n: nat, tree: Tree, t: Tree)
    requires n < |files| && Unobstructed(files, tree)
    requires forall p :: p in t.files ==> p in tree.files || exists i :: 0 <= i < n && p == Target(files[i].path)
    requires forall p :: p in t.dirs ==> p in tree.dirs || exists i :: 0 <= i < n && p in Visited(files[i].path)
    ensures Visited(files[n].path) !! t.files.Keys
    ensures EndsInName(files[n].path) && Target(files[n].path) !in t.dirs + Visited(files[n].path)
  {
  }

  lemma OneFile(files: seq<NixFile>, n: nat, inlineName: string, tree: Tree, pod: Pod, t: Tree)
    requires n < |files| && Unobstructed(files, tree) && Sound(files[n])
    requires Written(files, n, tree, Opened(files, inlineName, pod)) == Some(t)
    ensures
      DoAll(AllArgvs(FileLines(files[n], n, inlineName, Objects(files, inlineName))), t, pod)
      == if OptionLike(files[n].path) then None else Written(files, n + 1, tree, Opened(files, inlineName, pod))
  {
    hide Do, DoAll, Open, SourceOperand, Visited, Target, EndsInName, Unobstructed, Inert, Objects, FileLines;
    var path, from, contents := files[n].path, SourceOperand(files, n, inlineName), Opened(files, inlineName, pod);
    FileArgvs(files, n, inlineName);
    WrittenBounds(files, n, tree, contents);
    FreshWay(files, n, tree, t);
    DoTwo(["mkdir", "-p", Parental(path)], ["cp", from, path], t, pod);
    MkdirDoes(path, t, pod);
    if !OptionLike(path) {
      var u := t.(dirs := t.dirs + Visited(path));
      CpDoes(from, path, u, pod);
      assert contents[n] == Open(pod, from);
      assert Target(path) !in u.dirs;
    }
  }

  predicate NoOptions(files: seq<NixFile>, n: nat)
    requires n <= |files|
  {
    forall i :: 0 <= i < n ==> !OptionLike(files[i].path)
  }

  lemma {:induction false} CopiesWrite(files: seq<NixFile>, n: nat, inlineName: string, tree: Tree, pod: Pod)
    requires n <= |files| && Unobstructed(files, tree) && AllSound(files)
    ensures
      DoAll(CopyArgvs(files, n, inlineName), tree, pod)
      == if NoOptions(files, n) then Written(files, n, tree, Opened(files, inlineName, pod)) else None
    decreases n
  {
    hide Do, Unobstructed, Sound, FileLines, Visited, Target, OptionLike, Opened, Argvs;
    var objects, contents := Objects(files, inlineName), Opened(files, inlineName, pod);
    if n > 0 {
      CopiesWrite(files, n - 1, inlineName, tree, pod);
      var front, lines := CopyLines(files, n - 1, inlineName, objects), FileLines(files[n - 1], n - 1, inlineName, objects);
      AllArgvsConcat(front, lines);
      DoAllConcat(AllArgvs(front), AllArgvs(lines), tree, pod);
      var so := Written(files, n - 1, tree, contents);
      if NoOptions(files, n - 1) && so.Some? { OneFile(files, n - 1, inlineName, tree, pod, so.value); }
    }
  }

  // ----- The run -------------------------------------------------------------------------------

  lemma StageDoes(paths: seq<string>, t: Tree, pod: Pod)
    ensures Do(AddForced + paths, t, pod) == StageAll(paths, t)
  {
    var argv := AddForced + paths;
    assert argv[0] == "git" && argv[..4] == AddForced && argv[4..] == paths;
    if |argv| == 3 {} else { assert argv != []; }
  }

  lemma TargetsAreFiles(files: seq<NixFile>, tree: Tree, t: Tree)
    requires Unobstructed(files, tree)
    requires forall p :: p in t.dirs ==> p in tree.dirs || exists i :: 0 <= i < |files| && p in Visited(files[i].path)
    ensures forall i :: 0 <= i < |files| ==> Target(files[i].path) !in t.dirs
  {
  }

  /** Staging files: exactly these, and none if git refuses one of them. */
  lemma StageFiles(files: seq<NixFile>, t: Tree)
    requires AllSound(files)
    requires forall i :: 0 <= i < |files| ==> Target(files[i].path) in t.files && Target(files[i].path) !in t.dirs
    ensures
      StageAll(PathsOf(files), t)
      == if forall i :: 0 <= i < |files| ==> Trackable(Target(files[i].path)) then Some(t.(staged := t.staged + Targets(files)))
         else None
  {
    hide Target, Trackable, Inert;
    var paths := PathsOf(files);
    forall i | 0 <= i < |paths|
      ensures Relative(paths[i]) && Target(paths[i]) in t.files && Target(paths[i]) !in t.dirs
    {
      assert Sound(files[i]) && paths[i] == files[i].path;
    }
    if forall i :: 0 <= i < |files| ==> Trackable(Target(files[i].path)) {
      forall i | 0 <= i < |paths|
        ensures Trackable(Target(paths[i]))
      {
        assert paths[i] == files[i].path;
      }
      forall p | p in TargetsOf(paths)
        ensures p in t.files && Trackable(p) && Selects(paths, t, p)
      {
        var i :| 0 <= i < |paths| && Target(paths[i]) == p;
      }
      assert (set p | p in t.files && Trackable(p) && Selects(paths, t, p)) == Targets(files);
    } else {
      var i :| 0 <= i < |files| && !Trackable(Target(files[i].path));
      assert !Trackable(Target(paths[i]));
    }
  }

  /**
   A run of the script's text comes to the outcome for the contents the source operands
   open, whatever the pod holds.
   */
  lemma ScriptRuns(files: seq<NixFile>, inlineName: string, tree: Tree, pod: Pod)
    requires AllSound(files) && Unobstructed(files, tree)
    ensures Run(InjectionScript(files, inlineName), tree, pod) == Outcome(files, tree, Opened(files, inlineName, pod))
  {
    hide Do, Sound, Opened, Target, Trackable, Unobstructed, StageAll, OptionLike, Run, InjectionScript;
    var contents := Opened(files, inlineName, pod);
    RunOfText(files, inlineName, tree, pod);
    CopiesWrite(files, |files|, inlineName, tree, pod);
    var written := Written(files, |files|, tree, contents);
    assert AllFit(files) ==> NoOptions(files, |files|) by {
      if AllFit(files) {
        forall i | 0 <= i < |files|
          ensures !OptionLike(files[i].path)
        {
          assert Fits(files[i].path);
        }
      }
    }
    if NoOptions(files, |files|) && written.Some? {
      WrittenBounds(files, |files|, tree, contents);
      TargetsAreFiles(files, tree, written.value);
      StageDoes(PathsOf(files), written.value, pod);
      StageFiles(files, written.value);
      assert AllFit(files) <==> forall i :: 0 <= i < |files| ==> Trackable(Target(files[i].path));
    }
  }

  /**
   Run in a pod with the generated mounts and volumes and the operator's ConfigMap, the
   script's text writes every file's declared content at its path, the last one for a path
   winning, changes no other file and stages exactly the destinations; it fails if and only
   if some declared content does not exist or some path does not fit.
   */
  lemma ScriptWritesDeclared(files: seq<NixFile>, inlineName: string, before: Cluster, tree: Tree, pod: Pod)
    requires AllSound(files) && SlashFreeKeys(files) && Unobstructed(files, tree)
    requires Prepared(pod, files, inlineName, before)
    ensures Run(InjectionScript(files, inlineName), tree, pod) == Outcome(files, tree, AllDeclared(files, pod.cluster))
  {
    hide Open, Run, InjectionScript, Outcome, Prepared, SourceOperand;
    ScriptRuns(files, inlineName, tree, pod);
    forall i | 0 <= i < |files|
      ensures Open(pod, SourceOperand(files, i, inlineName)) == Declared(files[i], pod.cluster)
    {
      assert Sound(files[i]);
      assert Origin(files[i], i, "").1 == Origin(files[i], i, inlineName).1;
      SourceIsDeclared(files, i, inlineName, before, pod);
    }
    assert Opened(files, inlineName, pod) == AllDeclared(files, pod.cluster);
  }

  predicate AllExist(contents: seq<Option<string>>) {
    forall i :: 0 <= i < |contents| ==> contents[i].Some?
  }

  lemma {:induction false} WrittenIff(files: seq<NixFile>, n: nat, tree: Tree, contents: seq<Option<string>>)
    requires n <= |files| && n <= |contents|
    ensures Written(files, n, tree, contents).Some? <==> AllExist(contents[..n])
    decreases n
  {
    hide Target, Visited;
    if n > 0 {
      WrittenIff(files, n - 1, tree, contents);
      assert contents[..n] == contents[..n - 1] + [contents[n - 1]];
    }
  }

  /** Which runs succeed: those of files whose contents all exist and whose paths all fit. */
  lemma SucceedsIff(files: seq<NixFile>, inlineName: string, before: Cluster, tree: Tree, pod: Pod)
    requires AllSound(files) && SlashFreeKeys(files) && Unobstructed(files, tree)
    requires Prepared(pod, files, inlineName, before)
    ensures
      Run(InjectionScript(files, inlineName), tree, pod).Some?
      <==> AllFit(files) && AllExist(AllDeclared(files, pod.cluster))
  {
    hide Run, InjectionScript, Prepared, AllFit, Unobstructed;
    ScriptWritesDeclared(files, inlineName, before, tree, pod);
    var contents := AllDeclared(files, pod.cluster);
    WrittenIff(files, |files|, tree, contents);
    assert contents[..|files|] == contents;
  }

  /**
   For any keys: the script does as declared, except exactly when all paths fit and every
   source operand opens some file although a declared content does not exist. Then it
   succeeds with a content nobody declared.
   */
  lemma AsDeclaredIff(files: seq<NixFile>, inlineName: string, before: Cluster, tree: Tree, pod: Pod)
    requires AllSound(files) && Unobstructed(files, tree) && Prepared(pod, files, inlineName, before)
    ensures
      var found, declared := Opened(files, inlineName, pod), AllDeclared(files, pod.cluster);
      Run(InjectionScript(files, inlineName), tree, pod) == Outcome(files, tree, declared)
      <==> !(AllFit(files) && AllExist(found) && !AllExist(declared))
  {
    hide Open, Run, InjectionScript, Prepared, SourceOperand, Declared, AllFit;
    var found, declared := Opened(files, inlineName, pod), AllDeclared(files, pod.cluster);
    ScriptRuns(files, inlineName, tree, pod);
    assert found[..|files|] == found && declared[..|files|] == declared;
    WrittenIff(files, |files|, tree, found);
    WrittenIff(files, |files|, tree, declared);
    if AllExist(declared) {
      forall i | 0 <= i < |files|
        ensures found[i] == declared[i]
      {
        assert Sound(files[i]) && declared[i].Some?;
        DeclaredIsOpened(files, i, inlineName, before, pod);
      }
      assert found == declared;
    }
  }

  /** The content at a destination is the one declared by the last file for it. */
  lemma {:induction false} LastDeclarationWins(files: seq<NixFile>, n: nat, i: nat, tree: Tree, contents: seq<Option<string>>)
    requires i < n <= |files| && n <= |contents| && Written(files, n, tree, contents).Some?
    requires forall j :: i < j < n ==> Target(files[j].path) != Target(files[i].path)
    ensures
      var t := Written(files, n, tree, contents).value;
      Target(files[i].path) in t.files && Some(t.files[Target(files[i].path)]) == contents[i]
    decreases n
  {
    hide Visited, Target;
    if i < n - 1 { LastDeclarationWins(files, n - 1, i, tree, contents); }
  }

  /** Files that are nobody's destination stay as they were. */
  lemma {:induction false} OtherFilesStay(files: seq<NixFile>, n: nat, p: seq<string>, tree: Tree, contents: seq<Option<string>>)
    requires n <= |files| && n <= |contents| && Written(files, n, tree, contents).Some?
    requires forall j :: 0 <= j < n ==> Target(files[j].path) != p
    ensures
      var t := Written(files, n, tree, contents).value;
      (p in t.files <==> p in tree.files) && (p in tree.files ==> t.files[p] == tree.files[p])
    decreases n
  {
    hide Visited, Target;
    if n > 0 { OtherFilesStay(files, n - 1, p, tree, contents); }
  }

  // ----- Exactly when destinations become files ------------------------------------------------

  /** Nothing is both a file and a directory. */
  predicate Proper(tree: Tree) {
    tree.files.Keys !! tree.dirs
  }

  predicate Grows(t: Tree, u: Tree) {
    t.files.Keys <= u.files.Keys && t.dirs <= u.dirs
  }

  lemma {:induction false} RunGrows(argvs: seq<seq<string>>, t: Tree, pod: Pod)
    requires Proper(t) && DoAll(argvs, t, pod).Some?
    ensures Proper(DoAll(argvs, t, pod).value) && Grows(t, DoAll(argvs, t, pod).value)
  {
    hide Do;
    if argvs != [] {
      RunGrows(argvs[..|argvs| - 1], t, pod);
      CommandGrows(argvs[|argvs| - 1], DoAll(argvs[..|argvs| - 1], t, pod).value, pod);
    }
  }

  lemma CommandGrows(argv: seq<string>, t: Tree, pod: Pod)
    requires Proper(t) && Do(argv, t, pod).Some?
    ensures Proper(Do(argv, t, pod).value) && Grows(t, Do(argv, t, pod).value)
  {
    hide Open, Ways, Visited, Target, Trackable, Selects;
  }

  /** What a file that got through leaves: its way, and a directory where its path does not end in a name. */
  predicate Passed(path: string, t: Tree) {
    Visited(path) <= t.dirs && (EndsInName(path) || Target(path) in t.dirs)
  }

  lemma {:induction false} WaysAreDirectories(files: seq<NixFile>, n: nat, inlineName: string, tree: Tree, pod: Pod)
    requires n <= |files| && Proper(tree) && DoAll(CopyArgvs(files, n, inlineName), tree, pod).Some?
    ensures forall i :: 0 <= i < n ==> Passed(files[i].path, DoAll(CopyArgvs(files, n, inlineName), tree, pod).value)
    decreases n
  {
    hide Do, Visited, Proper, Target, EndsInName, FileLines, AllArgvs;
    if n > 0 {
      var objects := Objects(files, inlineName);
      var lines, front := FileLines(files[n - 1], n - 1, inlineName, objects), CopyLines(files, n - 1, inlineName, objects);
      AllArgvsConcat(front, lines);
      DoAllConcat(AllArgvs(front), AllArgvs(lines), tree, pod);
      WaysAreDirectories(files, n - 1, inlineName, tree, pod);
      RunGrows(AllArgvs(front), tree, pod);
      var t := DoAll(AllArgvs(front), tree, pod).value;
      RunGrows(AllArgvs(lines), t, pod);
      FileArgvs(files, n - 1, inlineName);
      WayIsMade(Parental(files[n - 1].path), SourceOperand(files, n - 1, inlineName), files[n - 1].path, t, pod);
    }
  }

  /** A copy that succeeds has found its way made. */
  lemma WayIsMade(dir: string, from: string, path: string, t: Tree, pod: Pod)
    requires DoAll([["mkdir", "-p", dir], ["cp", from, path]], t, pod).Some?
    ensures Passed(path, DoAll([["mkdir", "-p", dir], ["cp", from, path]], t, pod).value)
  {
    var mkdir, cp := ["mkdir", "-p", dir], ["cp", from, path];
    DoTwo(mkdir, cp, t, pod);
    hide Do, Open, Visited, Target;
    CpDoes(from, path, Do(mkdir, t, pod).value, pod);
  }

  lemma ScriptMakesWays(files: seq<NixFile>, inlineName: string, tree: Tree, pod: Pod)
    requires AllSound(files) && Proper(tree) && Run(InjectionScript(files, inlineName), tree, pod).Some?
    ensures
      var t := Run(InjectionScript(files, inlineName), tree, pod).value;
      Proper(t) && Grows(tree, t) && forall i :: 0 <= i < |files| ==> Passed(files[i].path, t)
  {
    hide Do, DoAll, Run, InjectionScript, CopyArgvs, Sound, Target, Visited, EndsInName;
    RunOfText(files, inlineName, tree, pod);
    WaysAreDirectories(files, |files|, inlineName, tree, pod);
    RunGrows(CopyArgvs(files, |files|, inlineName), tree, pod);
    CommandGrows(AddForced + PathsOf(files), DoAll(CopyArgvs(files, |files|, inlineName), tree, pod).value, pod);
  }

  lemma AllInKeys(files: seq<NixFile>, t: Tree)
    ensures Targets(files) <= t.files.Keys <==> forall i :: 0 <= i < |files| ==> Target(files[i].path) in t.files
  {
    hide Target;
    forall i | 0 <= i < |files|
      ensures PathsOf(files)[i] == files[i].path && Target(files[i].path) in Targets(files)
    {
      assert Target(PathsOf(files)[i]) in Targets(files);
    }
    forall p | p in Targets(files)
      ensures exists i :: 0 <= i < |files| && Target(files[i].path) == p
    {
      var i :| 0 <= i < |PathsOf(files)| && Target(PathsOf(files)[i]) == p;
    }
  }

  lemma DisjointMeansUnobstructed(files: seq<NixFile>, tree: Tree, t: Tree)
    requires Proper(t) && Grows(tree, t) && forall i :: 0 <= i < |files| ==> Passed(files[i].path, t)
    requires forall i :: 0 <= i < |files| ==> Target(files[i].path) in t.files
    ensures Unobstructed(files, tree)
  {
    hide Target, Visited, EndsInName;
    forall i, j | 0 <= i < |files| && 0 <= j < |files|
      ensures Target(files[i].path) !in Visited(files[j].path)
    {
      assert Passed(files[j].path, t);
    }
    forall i | 0 <= i < |files|
      ensures EndsInName(files[i].path) && Target(files[i].path) !in tree.dirs && Visited(files[i].path) !! tree.files.Keys
    {
      assert Passed(files[i].path, t);
    }
  }

  /**
   A run of the text that gets through makes every destination a file exactly if nothing
   obstructs the files; otherwise some content has silently gone elsewhere.
   */
  lemma DeliveredIffUnobstructed(files: seq<NixFile>, inlineName: string, tree: Tree, pod: Pod)
    requires AllSound(files) && Proper(tree) && Run(InjectionScript(files, inlineName), tree, pod).Some?
    ensures Targets(files) <= Run(InjectionScript(files, inlineName), tree, pod).value.files.Keys <==> Unobstructed(files, tree)
  {
    hide Run, InjectionScript, Sound, Target, Visited, Unobstructed, Opened, EndsInName;
    var t := Run(InjectionScript(files, inlineName), tree, pod).value;
    AllInKeys(files, t);
    if Unobstructed(files, tree) {
      ScriptRuns(files, inlineName, tree, pod);
      WrittenBounds(files, |files|, tree, Opened(files, inlineName, pod));
    } else if Targets(files) <= t.files.Keys {
      ScriptMakesWays(files, inlineName, tree, pod);
      DisjointMeansUnobstructed(files, tree, t);
    }
  }
}
