/**
 The checkout and the container an injection runs in: which content a path opens, what the
 commands of the script do, and what a run of its text comes to.
 */
module Checkouts {
  import opened Options
  import opened Pods
  import opened ShellQuote
  import opened DoubleQuotes
  import opened Upserts
  import opened FileInjection
  import Paths

  type Cluster = map<Object, map<string, string>>

  /** The checkout: files and directories by their cleaned segments, and what has been staged. */
  datatype Tree = Tree(files: map<seq<string>, string>, dirs: set<seq<string>>, staged: set<seq<string>>)

  /** The container; `image` holds its files outside the volumes, by their cleaned segments. */
  datatype Pod = Pod(mounts: seq<Mount>, volumes: seq<Volume>, cluster: Cluster, image: map<seq<string>, string>)

  // ----- Opening a source ------------------------------------------------------------

  function Lookup(cluster: Cluster, o: Object, key: string): Option<string> {
    if o in cluster && key in cluster[o] then Some(cluster[o][key]) else None
  }

  /** The content behind a key of the volume mounted at `dir`. */
  function ReadKey(pod: Pod, dir: string, key: string): Option<string> {
    var mount := Find(pod.mounts, MountKey, dir);
    if mount.None? then None
    else
      var volume := Find(pod.volumes, VolumeKey, mount.value.volume);
      if volume.None? then None
      else
        match volume.value.source
        case FromConfigMap(name) => Lookup(pod.cluster, ConfigMap(name), key)
        case FromSecret(name) => Lookup(pod.cluster, Secret(name), key)
        case _ => None
  }

  function Absolute(at: seq<string>): string {
    "/" + Paths.JoinSegments(at)
  }

  predicate Mounted(pod: Pod, at: seq<string>) {
    Find(pod.mounts, MountKey, Absolute(at)).Some?
  }

  predicate InVolume(pod: Pod, at: seq<string>) {
    exists k :: 0 <= k < |at| && Mounted(pod, at[..k])
  }

  /** A mounted ConfigMap or Secret keeps its keys in this directory, and links to them beside it. */
  const DataDir := "..data"

  predicate IsDirectory(pod: Pod, at: seq<string>) {
    || (exists m :: m in pod.mounts && at <= Paths.Split(m.path)[1..])
    || (at != [] && at[|at| - 1] == DataDir && Mounted(pod, at[..|at| - 1]))
    || (!InVolume(pod, at) && exists p :: p in pod.image && at < p)
  }

  function FileAt(pod: Pod, at: seq<string>): Option<string> {
    if at == [] || IsDirectory(pod, at) then None
    else
      var dir, name := at[..|at| - 1], at[|at| - 1];
      if Mounted(pod, dir) then ReadKey(pod, Absolute(dir), name)
      else if dir != [] && dir[|dir| - 1] == DataDir && Mounted(pod, dir[..|dir| - 1])
      then ReadKey(pod, Absolute(dir[..|dir| - 1]), name)
      else if InVolume(pod, at) || at !in pod.image then None
      else Some(pod.image[at])
  }

  /** Segment by segment; each but the last must be a directory. */
  function Resolve(pod: Pod, at: seq<string>, segs: seq<string>): Option<seq<string>>
    decreases |segs|
  {
    if segs == [] then Some(at)
    else if !IsDirectory(pod, at) then None
    else Resolve(pod, Paths.Push(at, segs[0], true), segs[1..])
  }

  /** The content of the file an absolute path names. */
  function Open(pod: Pod, path: string): Option<string> {
    if !Paths.IsAbs(path) then None
    else
      match Resolve(pod, [], Paths.Split(path)[1..])
      case None => None
      case Some(at) => FileAt(pod, at)
  }

  // ----- Paths of the checkout ------------------------------------------------------------

  function Target(path: string): seq<string> {
    Paths.Walk([], Paths.Split(path), false)
  }

  function Trimmed(segs: seq<string>): seq<string> {
    if segs != [] && segs[|segs| - 1] == "" then Trimmed(segs[..|segs| - 1]) else segs
  }

  /** The segments of the parent: trailing slashes do not count. */
  function Parent(path: string): seq<string> {
    var segs := Trimmed(Paths.Split(path));
    if segs == [] then [] else segs[..|segs| - 1]
  }

  function Basename(path: string): string {
    var segs := Trimmed(Paths.Split(path));
    if segs == [] then "" else segs[|segs| - 1]
  }

  /** The directories on a way, the checkout itself included. */
  function Ways(segs: seq<string>): set<seq<string>> {
    set k | 0 <= k <= |segs| :: Paths.Walk([], segs[..k], false)
  }

  function Visited(path: string): set<seq<string>> {
    Ways(Parent(path))
  }

  predicate EndsInName(path: string) {
    var last := Paths.Split(path)[|Paths.Split(path)| - 1];
    last != "" && last != "." && last != ".."
  }

  function TargetsOf(paths: seq<string>): set<seq<string>> {
    set i | 0 <= i < |paths| :: Target(paths[i])
  }

  /** A name that git keeps out of its index: its own directory, in any case, dots behind it ignored. */
  predicate GitOwn(seg: string) {
    && |seg| >= 4 && seg[0] == '.' && seg[1] in "gG" && seg[2] in "iI" && seg[3] in "tT"
    && forall i :: 4 <= i < |seg| ==> seg[i] == '.'
  }

  predicate Trackable(p: seq<string>) {
    forall i :: 0 <= i < |p| ==> !GitOwn(p[i])
  }

  // ----- The commands ---------------------------------------------------------------------

  /** An argument that names a file of the checkout. */
  predicate Relative(arg: string) {
    arg != "" && !Paths.IsAbs(arg)
  }

  function MakeWay(dir: string, tree: Tree): Option<Tree> {
    if !Relative(dir) || OptionLike(dir) then None
    else
      var ways := Ways(Paths.Split(dir));
      if ways !! tree.files.Keys then Some(tree.(dirs := tree.dirs + ways)) else None
  }

  /** Copying onto a directory copies into it. */
  function CopyFile(from: string, to: string, tree: Tree, pod: Pod): Option<Tree> {
    if !Relative(to) || OptionLike(to) || Open(pod, from).None? || !(Visited(to) <= tree.dirs) then None
    else
      var target := if Target(to) in tree.dirs then Target(to) + [Basename(from)] else Target(to);
      if target in tree.dirs || (target == Target(to) && !EndsInName(to)) then None
      else Some(tree.(files := tree.files[target := Open(pod, from).value]))
  }

  predicate Selects(paths: seq<string>, tree: Tree, p: seq<string>) {
    exists i :: 0 <= i < |paths| && (Target(paths[i]) == p || (Target(paths[i]) in tree.dirs && Target(paths[i]) <= p))
  }

  /** Behind the dashes nothing is an option. Staging a directory stages the files below it. */
  function StageAll(paths: seq<string>, tree: Tree): Option<Tree> {
    if (forall i :: 0 <= i < |paths| ==> Relative(paths[i]) && Trackable(Target(paths[i])))
       && TargetsOf(paths) <= tree.files.Keys + tree.dirs
    then Some(tree.(staged := tree.staged + (set p | p in tree.files && Trackable(p) && Selects(paths, tree, p))))
    else None
  }

  const AddForced := ["git", "add", "--force", "--"]

  /** One command, run in the checkout. */
  function Do(argv: seq<string>, tree: Tree, pod: Pod): Option<Tree> {
    if argv == [] then Some(tree)
    else if |argv| == 3 && argv[..2] == ["mkdir", "-p"] then MakeWay(argv[2], tree)
    else if |argv| == 3 && argv[0] == "cp" then CopyFile(argv[1], argv[2], tree, pod)
    else if |argv| >= 4 && argv[..4] == AddForced then StageAll(argv[4..], tree)
    else None
  }

  /** A command that fails ends the script. */
  function DoAll(argvs: seq<seq<string>>, tree: Tree, pod: Pod): Option<Tree> {
    if argvs == [] then Some(tree)
    else
      match DoAll(argvs[..|argvs| - 1], tree, pod)
      case None => None
      case Some(t) => Do(argvs[|argvs| - 1], t, pod)
  }

  const Preamble := [["set", "-eu"], ["cd", Paths.Workspace]]

  /** What the checkout is after `sh -c` has run the text, if the run succeeds. */
  function Run(script: string, tree: Tree, pod: Pod): Option<Tree> {
    match SimpleCommands(script, Newline)
    case None => None
    case Some(argvs) => if |argvs| >= 2 && argvs[..2] == Preamble then DoAll(argvs[2..], tree, pod) else None
  }

  // ----- Sequences of commands --------------------------------------------------------------

  lemma {:induction false} DoAllConcat(a: seq<seq<string>>, b: seq<seq<string>>, tree: Tree, pod: Pod)
    ensures DoAll(a + b, tree, pod)
         == (if DoAll(a, tree, pod).None? then None else DoAll(b, DoAll(a, tree, pod).value, pod))
    decreases |b|
  {
    if b == [] {
      assert a + b == a;
    } else {
      assert (a + b)[..|a + b| - 1] == a + b[..|b| - 1];
      DoAllConcat(a, b[..|b| - 1], tree, pod);
    }
  }

  lemma DoOne(a: seq<string>, t: Tree, pod: Pod)
    ensures DoAll([a], t, pod) == Do(a, t, pod)
  {
    assert [a][..0] == [];
    assert DoAll([], t, pod) == Some(t);
  }

  lemma DoTwo(a: seq<string>, b: seq<string>, t: Tree, pod: Pod)
    ensures DoAll([a, b], t, pod) == if Do(a, t, pod).None? then None else Do(b, Do(a, t, pod).value, pod)
  {
    assert [a, b][..1] == [a];
    DoOne(a, t, pod);
  }

  // ----- The parent that is made is the way that is walked ---------------------------------------

  lemma SplitSnoc(front: string)
    ensures Paths.Split(front + "/") == Paths.Split(front) + [""]
  {
    Paths.SplitConcat(front, "");
    assert front + "/" + "" == front + "/" && Paths.Split("") == [""];
  }

  lemma WaysSnoc(segs: seq<string>)
    ensures Ways(segs + [""]) == Ways(segs)
  {
    var more := segs + [""];
    Paths.WalkSnoc([], segs, "", false);
    assert more[..|more|] == more && segs[..|segs|] == segs;
    forall k | 0 <= k <= |segs|
      ensures more[..k] == segs[..k]
    {
    }
    forall p
      ensures p in Ways(more) <==> p in Ways(segs)
    {
      if p in Ways(more) {
        var k :| 0 <= k <= |more| && p == Paths.Walk([], more[..k], false);
        if k == |more| { assert p == Paths.Walk([], segs[..|segs|], false); }
      }
      if p in Ways(segs) {
        var k :| 0 <= k <= |segs| && p == Paths.Walk([], segs[..k], false);
        assert p == Paths.Walk([], more[..k], false);
      }
    }
  }

  /** Trailing slashes change neither the name nor the way. */
  lemma {:induction false} SlashesTrimmed(p: string)
    requires Relative(p)
    ensures Relative(Paths.TrimSlashes(p))
    ensures Trimmed(Paths.Split(Paths.TrimSlashes(p))) == Trimmed(Paths.Split(p))
    ensures Ways(Paths.Split(Paths.TrimSlashes(p))) == Ways(Paths.Split(p))
  {
    hide Paths.Split, Ways;
    if p[|p| - 1] == '/' {
      var front := p[..|p| - 1];
      assert p == front + "/";
      SplitSnoc(front);
      WaysSnoc(Paths.Split(front));
      assert (Paths.Split(front) + [""])[..|Paths.Split(front)|] == Paths.Split(front);
      SlashesTrimmed(front);
    }
  }

  lemma {:induction false} NameDropped(p: string)
    ensures
      var up := Paths.DropName(p);
      |up| <= |p| && p[..|up|] == up && '/' !in p[|up|..] && (up != "" ==> up[|up| - 1] == '/')
  {
    if p != "" && p[|p| - 1] != '/' {
      NameDropped(p[..|p| - 1]);
      var up := Paths.DropName(p);
      assert p[|up|..] == p[..|p| - 1][|up|..] + [p[|p| - 1]];
    }
  }

  lemma {:induction false} TrimmedEnd(p: string)
    ensures Paths.TrimSlashes(p) == "" || Paths.TrimSlashes(p)[|Paths.TrimSlashes(p)| - 1] != '/'
  {
    if p != "" { TrimmedEnd(p[..|p| - 1]); }
  }

  /** The directories of the printed parent are those on the way to the path. */
  lemma DirnameWays(p: string)
    requires Relative(p)
    ensures Relative(Paths.Dirname(p)) && Ways(Paths.Split(Paths.Dirname(p))) == Visited(p)
  {
    hide Paths.Split, Ways, Paths.TrimSlashes, Paths.DropName;
    var all := Paths.TrimSlashes(p);
    SlashesTrimmed(p);
    TrimmedEnd(p);
    NameDropped(all);
    var up := Paths.DropName(all);
    var name := all[|up|..];
    Paths.PlainSplit(name);
    if up == "" {
      assert all == name;
      OwnWay();
      assert Parent(p) == [];
    } else {
      var dir := up[..|up| - 1];
      assert up == dir + "/" && all == dir + "/" + name && all[0] == up[0];
      Paths.SplitConcat(dir, name);
      assert Parent(p) == Paths.Split(dir);
      SlashesTrimmed(up);
      SplitSnoc(dir);
      WaysSnoc(Paths.Split(dir));
    }
  }

  lemma OwnWay()
    ensures Ways(Paths.Split(".")) == Ways([])
  {
    Paths.PlainSplit(".");
    var here, none: seq<string> := ["."], [];
    assert here[1..] == none && Paths.Walk([], here, false) == [];
    assert forall k :: 0 <= k <= 1 ==> Paths.Walk([], here[..k], false) == [] by {
      assert here[..0] == none && here[..1] == here;
    }
    assert none[..0] == none;
    forall p
      ensures p in Ways(here) <==> p in Ways(none)
    {
      if p in Ways(none) { assert p == Paths.Walk([], here[..0], false); }
      if p in Ways(here) { assert p == Paths.Walk([], none[..0], false); }
    }
  }
}
