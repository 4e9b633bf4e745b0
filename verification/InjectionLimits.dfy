/**
 Files the API and the controller accept, and which the injection does not deliver as
 declared: each with its run.
 */
module InjectionLimits {
  import opened Options
  import opened Pods
  import opened Texts
  import opened ShellQuote
  import opened DoubleQuotes
  import opened FileInjection
  import opened InjectionText
  import opened Checkouts
  import opened Sources
  import opened InjectedFiles
  import Paths

  const EmptyCheckout := Tree(map[], {[]}, {})

  function Inline(path: string): NixFile {
    NixFile(path, Some("content"), None, None)
  }

  // ----- Short paths ------------------------------------------------------------------------

  predicate Name(seg: string) {
    seg != "" && seg != "." && seg != ".."
  }

  lemma WalkNames(names: seq<string>)
    requires |names| <= 2 && forall i :: 0 <= i < |names| ==> Name(names[i])
    ensures Paths.Walk([], names, false) == names
  {
    var none: seq<string> := [];
    if |names| == 1 {
      assert names == none + [names[0]];
      Paths.WalkSnoc(none, none, names[0], false);
    } else if |names| == 2 {
      assert names == [names[0]] + [names[1]] && [names[0]] == none + [names[0]];
      Paths.WalkSnoc(none, none, names[0], false);
      Paths.WalkSnoc(none, [names[0]], names[1], false);
    }
  }

  lemma ShortWays(names: seq<string>)
    requires |names| <= 1 && forall i :: 0 <= i < |names| ==> Name(names[i])
    ensures Ways(names) == if names == [] then {[]} else {[], names}
  {
    hide Paths.Walk;
    var none: seq<string> := [];
    WalkNames(none);
    WalkNames(names);
    assert names[..0] == none && names[..|names|] == names;
    forall p
      ensures p in Ways(names) <==> p == none || p == names
    {
      if p in Ways(names) {
        var k :| 0 <= k <= |names| && p == Paths.Walk([], names[..k], false);
        assert k == 0 || k == |names|;
      }
      if p == none { assert p == Paths.Walk([], names[..0], false); }
      if p == names { assert p == Paths.Walk([], names[..|names|], false); }
    }
  }

  /** A path of one or two names. */
  lemma ShortPath(path: string, dir: seq<string>, name: string)
    requires Paths.Split(path) == dir + [name] && |dir| <= 1 && Name(name) && forall i :: 0 <= i < |dir| ==> Name(dir[i])
    ensures Target(path) == dir + [name] && EndsInName(path)
    ensures Visited(path) == if dir == [] then {[]} else {[], dir}
  {
    hide Paths.Split, Ways, Paths.Walk;
    WalkNames(dir + [name]);
    ShortWays(dir);
    assert Parent(path) == dir;
  }

  // ----- Paths that do not fit -----------------------------------------------------------

  /** A path that starts with a hyphen, and one in git's own directory. */
  predicate Misfit(path: string) {
    path == "-x" || path == ".git/config"
  }

  lemma MisfitPaths(path: string)
    requires Misfit(path)
    ensures !Fits(path) && Unobstructed([Inline(path)], EmptyCheckout)
  {
    hide Target, Visited, EndsInName, Unobstructed, Paths.Split;
    if path == "-x" {
      Paths.PlainSplit("-x");
      assert [] + ["-x"] == ["-x"];
      ShortPath(path, [], "-x");
      InTheClear(Inline(path), [], "-x");
    } else {
      GitSplit();
      ShortPath(path, [".git"], "config");
      InTheClear(Inline(path), [".git"], "config");
      assert Target(path)[0] == ".git";
    }
  }

  lemma InTheClear(f: NixFile, dir: seq<string>, name: string)
    requires Target(f.path) == dir + [name] && EndsInName(f.path) && Visited(f.path) <= {[], dir}
    ensures Unobstructed([f], EmptyCheckout)
  {
    hide Target, Visited, EndsInName;
    assert |dir + [name]| != 0 && dir + [name] != dir;
    assert [f][0] == f;
  }

  lemma GitSplit()
    ensures Paths.Split(".git/config") == [".git"] + ["config"]
  {
    hide Paths.Split;
    Paths.PlainSplit(".git");
    Paths.PlainSplit("config");
    Paths.SplitConcat(".git", "config");
    assert ".git" + "/" + "config" == ".git/config";
  }

  lemma MisfitsAccepted(path: string)
    requires Misfit(path)
    ensures Paths.ValidateFilePath(path)
  {
    hide Paths.Split;
    Paths.AcceptedIffStaysBelow(path);
    if path == "-x" {
      Paths.PlainSplit("-x");
    } else {
      GitSplit();
    }
    forall k | 0 <= k <= |Paths.Split(path)|
      ensures Paths.Depth(Paths.Split(path)[..k]) >= 0
    {
      NamesLeadDown(Paths.Split(path)[..k]);
    }
  }

  lemma {:induction false} NamesLeadDown(segs: seq<string>)
    requires forall i :: 0 <= i < |segs| ==> segs[i] != ".."
    ensures Paths.Depth(segs) >= 0
    decreases |segs|
  {
    if segs != [] { NamesLeadDown(segs[..|segs| - 1]); }
  }

  /**
   Both are accepted and nothing is in their way; the content exists, and the script fails
   all the same.
   */
  lemma AcceptedMayNotFit(path: string)
    requires Misfit(path)
    ensures
      var files := [Inline(path)];
      var pod := PreparedPod(files, "c", map[]);
      && AllSound(files) && SlashFreeKeys(files) && Unobstructed(files, EmptyCheckout)
      && AllExist(AllDeclared(files, pod.cluster))
      && Run(InjectionScript(files, "c"), EmptyCheckout, pod) == None
  {
    hide Run, InjectionScript, Paths.ValidateFilePath, Unobstructed, Fits;
    var files := [Inline(path)];
    MisfitsAccepted(path);
    MisfitPaths(path);
    InlineKeySlashFree(0);
    EmptyAdmitted();
    PodIsPrepared(files, "c", map[]);
    ScriptWritesDeclared(files, "c", map[], EmptyCheckout, PreparedPod(files, "c", map[]));
    assert !Fits(files[0].path);
  }

  lemma EmptyAdmitted()
    ensures Admitted(map[])
  {
  }

  // ----- A key that leads to another object --------------------------------------------------

  const Stray := NixFile("a", None, Some(KeyRef("first", "../1/k")), None)
  const Plainly := NixFile("b", None, Some(KeyRef("second", "k")), None)
  const TwoFiles := [Stray, Plainly]
  const OneKey: Cluster := map[ConfigMap("second") := map["k" := "content"]]

  lemma TwoObjects()
    ensures Objects(TwoFiles, "c") == [ConfigMap("first"), ConfigMap("second")]
    ensures WithInline(OneKey, "c", TwoFiles) == OneKey
  {
    assert TwoFiles[..1] == [Stray] && [Stray][..0] == [] && Objects([], "c") == [];
    assert Objects([Stray], "c") == [] + [ConfigMap("first")] == [ConfigMap("first")];
    assert [ConfigMap("first")] + [ConfigMap("second")] == [ConfigMap("first"), ConfigMap("second")];
    assert InlineData([]) == map[] && InlineData([Stray]) == map[];
    assert OneKey - {ConfigMap("c")} == OneKey;
  }

  lemma BothOpen(pod: Pod)
    requires pod == PreparedPod(TwoFiles, "c", OneKey)
    ensures Opened(TwoFiles, "c", pod) == [Some("content"), Some("content")]
  {
    hide Open, Paths.Split;
    var objects := [ConfigMap("first"), ConfigMap("second")];
    TwoObjects();
    GeneratedVolumesProvide(objects);
    OneKeyAdmitted();
    hide Provides, Mounts, Volumes, Objects;
    assert Decimal(1) == "1" && "../" + "1" + "/" + "k" == "../1/k";
    SlashKeyOpensOther(pod, objects, 0, 1, "k");
    KeyOpens(pod, objects, 1, "k");
    assert IndexIn(objects, ConfigMap("first")) == 0 && IndexIn(objects, ConfigMap("second")) == 1;
    assert SourceOperand(TwoFiles, 0, "c") == MountDir(0) + "/" + "../1/k";
    assert SourceOperand(TwoFiles, 1, "c") == MountDir(1) + "/" + "k";
  }

  lemma OneKeyAdmitted()
    ensures AdmittedKey("k") && Admitted(OneKey)
  {
  }

  /** A letter as a path. */
  lemma Letter(name: string)
    requires |name| == 1 && 'a' <= name[0] <= 'z'
    ensures Paths.ValidateFilePath(name) && Fits(name)
    ensures Target(name) == [name] && EndsInName(name) && Visited(name) == {[]}
  {
    hide Paths.Split, Paths.ValidateFilePath, Target, Visited, EndsInName;
    Paths.PlainSplit(name);
    var none: seq<string> := [];
    assert none + [name] == [name];
    ShortPath(name, none, name);
    LetterAccepted(name);
    assert Trackable([name]);
  }

  lemma LetterAccepted(name: string)
    requires |name| == 1 && 'a' <= name[0] <= 'z' && Paths.Split(name) == [name]
    ensures Paths.ValidateFilePath(name)
  {
    hide Paths.Split, Paths.ValidateFilePath;
    assert [name][..0] == [] && [name][..1] == [name];
    NamesLeadDown([name]);
    NamesLeadDown([]);
    Paths.AcceptedIffStaysBelow(name);
  }

  lemma TwoSound()
    ensures AllSound(TwoFiles) && AllFit(TwoFiles)
  {
    Letter("a");
    Letter("b");
    SafeIsInert("../1/k");
    SafeIsInert("k");
    hide Paths.ValidateFilePath, Inert, Fits;
    assert Sound(Stray) && Sound(Plainly);
  }

  lemma TwoClear()
    ensures Unobstructed(TwoFiles, EmptyCheckout)
  {
    Letter("a");
    Letter("b");
    hide Target, Visited, EndsInName;
    assert ["a"] != [] && ["b"] != [];
  }

  /**
   The first file names a key that does not exist, with a slash in it. The operand leads
   into the volume of the second object: the script succeeds, with that object's content
   at the first file's path.
   */
  lemma SlashKeyReadsElsewhere()
    ensures
      var pod := PreparedPod(TwoFiles, "c", OneKey);
      && AllSound(TwoFiles) && AllFit(TwoFiles) && Unobstructed(TwoFiles, EmptyCheckout) && Admitted(OneKey)
      && Declared(Stray, pod.cluster) == None
      && Run(InjectionScript(TwoFiles, "c"), EmptyCheckout, pod).Some?
      && var t := Run(InjectionScript(TwoFiles, "c"), EmptyCheckout, pod).value;
         ["a"] in t.files && t.files[["a"]] == "content"
  {
    hide Run, InjectionScript, Unobstructed, Sound, Target, Visited, Opened, Fits;
    var pod := PreparedPod(TwoFiles, "c", OneKey);
    OneKeyAdmitted();
    TwoObjects();
    TwoSound();
    TwoClear();
    Letter("a");
    Letter("b");
    BothOpen(pod);
    var contents := [Some("content"), Some("content")];
    ScriptRuns(TwoFiles, "c", EmptyCheckout, pod);
    WrittenIff(TwoFiles, 2, EmptyCheckout, contents);
    assert contents[..2] == contents;
    assert ["a"][0] != ["b"][0];
    LastDeclarationWins(TwoFiles, 2, 0, EmptyCheckout, contents);
  }

  // ----- A path that names a directory ---------------------------------------------------------

  const Dot := Inline(".")
  const Misplaced := EmptyCheckout.(files := map[[InlineKey(0)] := "content"])

  lemma DotIsRoot()
    ensures Target(".") == [] && !EndsInName(".") && Visited(".") == {[]} && Paths.Split(".") == ["."]
  {
    Paths.PlainSplit(".");
    var segs, none: seq<string> := ["."], [];
    Paths.WalkSnoc(none, none, ".", false);
    assert none + ["."] == segs && Trimmed(segs) == segs && segs[..0] == none;
    assert Parent(".") == none;
    ShortWays(none);
  }

  lemma DotAccepted()
    ensures Paths.ValidateFilePath(".")
  {
    DotIsRoot();
    Paths.AcceptedIffStaysBelow(".");
    assert ["."][..0] == [] && ["."][..1] == ["."];
    NamesLeadDown(["."]);
    NamesLeadDown([]);
  }

  /** The copy goes into the directory, under the key's name. */
  lemma DotIsCopied(from: string, key: string, pod: Pod)
    requires Open(pod, from) == Some("content") && Basename(from) == key
    ensures
      CopyFile(from, ".", EmptyCheckout, pod) == Some(EmptyCheckout.(files := map[[key] := "content"]))
  {
    DotIsRoot();
    hide Open, Basename, Target, Visited, EndsInName;
    assert Target(".") + [key] == [key] && [key] != [];
  }

  lemma DotIsStaged()
    ensures StageAll(["."], Misplaced) == Some(Misplaced.(staged := {[InlineKey(0)]}))
  {
    DotIsRoot();
    var paths, at := ["."], [InlineKey(0)];
    assert TargetsOf(paths) == {[]} by { assert Target(paths[0]) == []; }
    assert Trackable([]) && Trackable(at);
    assert Selects(paths, Misplaced, at) by { assert Target(paths[0]) <= at; }
    var chosen := set p | p in Misplaced.files && Trackable(p) && Selects(paths, Misplaced, p);
    assert forall p :: p in Misplaced.files <==> p == at;
    assert chosen == {at};
    assert Misplaced.staged + chosen == {at};
  }

  lemma DotSource(pod: Pod)
    requires pod == PreparedPod([Dot], "c", map[])
    ensures
      var from := SourceOperand([Dot], 0, "c");
      Open(pod, from) == Some("content") && Basename(from) == InlineKey(0)
  {
    hide Paths.Split, Open;
    EmptyAdmitted();
    PodIsPrepared([Dot], "c", map[]);
    InlineKeySlashFree(0);
    SourceIsDeclared([Dot], 0, "c", map[], pod);
    var k, key := IndexIn(Objects([Dot], "c"), ConfigMap("c")), InlineKey(0);
    var segs := Paths.Split(SourceOperand([Dot], 0, "c"));
    SourceSplit(k, key);
    Paths.PlainSplit(key);
    assert |segs| >= 2 && segs[1..][|segs| - 2] == key && segs[|segs| - 1] == key && key != "";
  }

  /**
   A path may be accepted and still name a directory. The whole script then succeeds, but
   the content lies elsewhere, under the key it was read from, and that file is staged.
   */
  lemma AcceptedMayNameDirectory()
    ensures Sound(Dot) && !Unobstructed([Dot], EmptyCheckout)
    ensures
      Run(InjectionScript([Dot], "c"), EmptyCheckout, PreparedPod([Dot], "c", map[]))
      == Some(Misplaced.(staged := {[InlineKey(0)]}))
    ensures Target(Dot.path) !in Misplaced.files
  {
    hide Run, InjectionScript, Paths.ValidateFilePath, Open, SourceOperand, Visited, EndsInName, Do, Parental, CopyFile, StageAll;
    var files, pod := [Dot], PreparedPod([Dot], "c", map[]);
    var from := SourceOperand(files, 0, "c");
    DotIsRoot();
    DotAccepted();
    DotSource(pod);
    assert files[0] == Dot && !EndsInName(files[0].path);
    RunOfText(files, "c", EmptyCheckout, pod);
    OneCopy();
    DoTwo(["mkdir", "-p", Parental(".")], ["cp", from, "."], EmptyCheckout, pod);
    MkdirDoes(".", EmptyCheckout, pod);
    assert EmptyCheckout.dirs + {[]} == EmptyCheckout.dirs;
    CpDoes(from, ".", EmptyCheckout, pod);
    DotIsCopied(from, InlineKey(0), pod);
    assert PathsOf(files) == ["."];
    StageDoes(["."], Misplaced, pod);
    DotIsStaged();
    assert [InlineKey(0)] != [];
  }

  lemma OneCopy()
    ensures CopyArgvs([Dot], 1, "c") == [["mkdir", "-p", Parental(".")], ["cp", SourceOperand([Dot], 0, "c"), "."]]
  {
    hide FileLines, SourceOperand, Parental, Objects;
    var objects := Objects([Dot], "c");
    FileArgvs([Dot], 0, "c");
    assert CopyLines([Dot], 0, "c", objects) == [];
    assert CopyLines([Dot], 1, "c", objects) == [] + FileLines(Dot, 0, "c", objects) == FileLines(Dot, 0, "c", objects);
  }
}
