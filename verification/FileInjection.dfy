/**
 Additional files of a workload: the volumes, mounts and script that copy them into the
 checkout, the ConfigMap that carries inline contents, and what running the script does.
 */
module FileInjection {
  import opened Options
  import opened Pods
  import opened Texts
  import Paths

  datatype KeyRef = KeyRef(name: string, key: string)

  /** One injected file; the API admits it only with exactly one of the three sources. */
  datatype NixFile = NixFile(path: string, inline: Option<string>, configMap: Option<KeyRef>, secret: Option<KeyRef>)

  predicate OneSource(f: NixFile) {
    || (f.inline.Some? && f.configMap.None? && f.secret.None?)
    || (f.inline.None? && f.configMap.Some? && f.secret.None?)
    || (f.inline.None? && f.configMap.None? && f.secret.Some?)
  }

  // ----- The generated parts ------------------------------------------------------

  /** An object whose keys are mounted as files. */
  datatype Object = ConfigMap(name: string) | Secret(name: string)

  function IndexKey(o: Object): string {
    (if o.ConfigMap? then "cm" else "sec") + "/" + o.name
  }

  function SourceOf(o: Object): VolumeSource {
    if o.ConfigMap? then FromConfigMap(o.name) else FromSecret(o.name)
  }

  function InlineKey(i: nat): string {
    "file-" + Decimal(i)
  }

  /** The object and key the i-th file is copied from. */
  function Origin(f: NixFile, i: nat, inlineName: string): (Object, string) {
    if f.configMap.Some? then (ConfigMap(f.configMap.value.name), f.configMap.value.key)
    else if f.secret.Some? then (Secret(f.secret.value.name), f.secret.value.key)
    else (ConfigMap(inlineName), InlineKey(i))
  }

  function VolumeName(k: nat): string {
    "nio-file-" + Decimal(k)
  }

  function MountDir(k: nat): string {
    FilesBase + "/" + Decimal(k)
  }

  function VolumeAt(k: nat, o: Object): Volume {
    Volume(VolumeName(k), SourceOf(o))
  }

  function MountAt(k: nat): Mount {
    Mount(VolumeName(k), MountDir(k), true)
  }

  /** Lines of the script, in a readable form. */
  datatype Line =
    | EnterWorkspace
    | MakeParent(path: string)
    | Copy(dir: string, key: string, path: string)
    | Stage(paths: seq<string>)

  function QuotedPaths(paths: seq<string>): string {
    if paths == [] then "" else QuotedPaths(paths[..|paths| - 1]) + " \"" + paths[|paths| - 1] + "\""
  }

  function Text(line: Line): string {
    match line
    case EnterWorkspace => "set -eu\ncd /workspace\n"
    case MakeParent(path) => "mkdir -p \"$(dirname \"" + path + "\")\"\n"
    case Copy(dir, key, path) => "cp \"" + dir + "/" + key + "\" \"" + path + "\"\n"
    case Stage(paths) => "git add --force --" + QuotedPaths(paths) + "\n"
  }

  function ScriptText(lines: seq<Line>): string {
    if lines == [] then "" else ScriptText(lines[..|lines| - 1]) + Text(lines[|lines| - 1])
  }

  // ----- Their specification --------------------------------------------------------

  /** The distinct objects the first files refer to, in order of first use. */
  function Objects(files: seq<NixFile>, inlineName: string): seq<Object> {
    if files == [] then []
    else
      var before := Objects(files[..|files| - 1], inlineName);
      var o := Origin(files[|files| - 1], |files| - 1, inlineName).0;
      if o in before then before else before + [o]
  }

  function IndexIn(objects: seq<Object>, o: Object): (k: nat)
    ensures o in objects ==> k < |objects| && objects[k] == o
  {
    if objects == [] || objects[0] == o then 0 else 1 + IndexIn(objects[1..], o)
  }

  function Volumes(objects: seq<Object>): seq<Volume> {
    seq(|objects|, k requires 0 <= k < |objects| => VolumeAt(k, objects[k]))
  }

  const BaseMounts := [Mount(NixVolume, NixPath, false), Mount(WorkspaceVolume, Paths.Workspace, false)]

  function Mounts(objects: seq<Object>): seq<Mount> {
    BaseMounts + seq(|objects|, k requires 0 <= k < |objects| => MountAt(k))
  }

  function FileLines(f: NixFile, i: nat, inlineName: string, objects: seq<Object>): seq<Line> {
    var (o, key) := Origin(f, i, inlineName);
    [MakeParent(f.path), Copy(MountDir(IndexIn(objects, o)), key, f.path)]
  }

  /** The copy lines of the first `n` files. */
  function CopyLines(files: seq<NixFile>, n: nat, inlineName: string, objects: seq<Object>): seq<Line>
    requires n <= |files|
  {
    if n == 0 then [] else CopyLines(files, n - 1, inlineName, objects) + FileLines(files[n - 1], n - 1, inlineName, objects)
  }

  function PathsOf(files: seq<NixFile>): seq<string> {
    seq(|files|, i requires 0 <= i < |files| => files[i].path)
  }

  function Script(files: seq<NixFile>, inlineName: string): seq<Line> {
    [EnterWorkspace] + CopyLines(files, |files|, inlineName, Objects(files, inlineName)) + [Stage(PathsOf(files))]
  }

  // ----- The generator ----------------------------------------------------------------

  /** `index` holds a number for every key of an object met so far. */
  ghost predicate Indexed(index: map<string, nat>, objects: seq<Object>) {
    && |index| == |objects|
    && (forall i, j :: 0 <= i < j < |objects| ==> objects[i] != objects[j])
    && (forall o :: IndexKey(o) in index <==> o in objects)
    && (forall k :: 0 <= k < |objects| ==> IndexKey(objects[k]) in index && index[IndexKey(objects[k])] == k)
  }

  lemma IndexKeyInjective(a: Object, b: Object)
    ensures IndexKey(a) == IndexKey(b) ==> a == b
  {
    if IndexKey(a) == IndexKey(b) {
      assert IndexKey(a)[0] == (if a.ConfigMap? then 'c' else 's');
      assert IndexKey(b)[0] == (if b.ConfigMap? then 'c' else 's');
      var n := if a.ConfigMap? then 3 else 4;
      assert IndexKey(a)[n..] == a.name && IndexKey(b)[n..] == b.name;
    }
  }

  lemma {:induction false} IndexInUnique(objects: seq<Object>, k: nat)
    requires k < |objects| && forall i, j :: 0 <= i < j < |objects| ==> objects[i] != objects[j]
    ensures IndexIn(objects, objects[k]) == k
  {
    if k > 0 { IndexInUnique(objects[1..], k - 1); }
  }

  /** A number for the object: the known one, or the next. */
  method RefDir(index: map<string, nat>, o: Object, ghost objects: seq<Object>)
    returns (next: map<string, nat>, isNew: bool, k: nat)
    requires Indexed(index, objects)
    ensures isNew <==> o !in objects
    ensures Indexed(next, if isNew then objects + [o] else objects)
    ensures k == IndexIn(if isNew then objects + [o] else objects, o)
    ensures isNew ==> k == |objects|
  {
    var key := IndexKey(o);
    if key !in index {
      next, isNew, k := index[key := |index|], true, |index|;
      forall p
        ensures IndexKey(p) in next <==> p in objects + [o]
      {
        IndexKeyInjective(p, o);
      }
      forall j | 0 <= j < |objects|
        ensures next[IndexKey(objects[j])] == j
      {
        IndexKeyInjective(objects[j], o);
      }
      assert |next| == |index| + 1;
      IndexInUnique(objects + [o], |objects|);
    } else {
      next, isNew, k := index, false, index[key];
      var j := IndexIn(objects, o);
      IndexInUnique(objects, j);
    }
  }

  method AdditionalFilesInjection(files: seq<NixFile>, inlineName: string)
    returns (volumes: seq<Volume>, mounts: seq<Mount>, script: string)
    ensures var objects := Objects(files, inlineName);
            volumes == Volumes(objects) && mounts == Mounts(objects) && script == ScriptText(Script(files, inlineName))
  {
    hide Text, Origin, Objects, Indexed, Volumes, Mounts, QuotedPaths, PathsOf, FileLines;
    ghost var objects, lines := Objects(files[..0], inlineName), [EnterWorkspace];
    var index: map<string, nat> := map[];
    volumes, mounts := [], BaseMounts;
    script := Text(EnterWorkspace);
    var staged := "";
    NothingYet(files, inlineName);
    var i := 0;
    while i < |files|
      invariant 0 <= i <= |files|
      invariant objects == Objects(files[..i], inlineName) && Indexed(index, objects)
      invariant volumes == Volumes(objects) && mounts == Mounts(objects)
      invariant lines == [EnterWorkspace] + CopyLines(files, i, inlineName, objects) && script == ScriptText(lines)
      invariant staged == QuotedPaths(PathsOf(files[..i]))
    {
      var f := files[i];
      var (o, key) := Origin(f, i, inlineName);
      var isNew, k;
      index, isNew, k := RefDir(index, o, objects);
      StepObjects(files, i, inlineName);
      objects := if isNew then objects + [o] else objects;
      if isNew {
        VolumesSnoc(Objects(files[..i], inlineName), o);
        volumes := volumes + [VolumeAt(k, o)];
        mounts := mounts + [MountAt(k)];
      }
      script := script + Text(MakeParent(f.path)) + Text(Copy(MountDir(k), key, f.path));
      ScriptSnoc(lines, MakeParent(f.path), Copy(MountDir(k), key, f.path));
      lines := lines + [MakeParent(f.path), Copy(MountDir(k), key, f.path)];
      LinesGrow(files, i, inlineName);
      staged := staged + " \"" + f.path + "\"";
      StagedSnoc(files, i);
      i := i + 1;
    }
    assert files[..i] == files;
    script := script + ("git add --force --" + staged + "\n");
    StageText(PathsOf(files));
    ScriptEnd(lines, Stage(PathsOf(files)));
  }

  lemma NothingYet(files: seq<NixFile>, inlineName: string)
    ensures
      var none := Objects(files[..0], inlineName);
      && none == [] && Indexed(map[], none) && Volumes(none) == [] && Mounts(none) == BaseMounts
      && ScriptText([EnterWorkspace]) == Text(EnterWorkspace) && QuotedPaths(PathsOf(files[..0])) == ""
  {
    assert [EnterWorkspace][..0] == [] && ScriptText([]) == "";
  }

  lemma StageText(paths: seq<string>)
    ensures Text(Stage(paths)) == "git add --force --" + QuotedPaths(paths) + "\n"
  {
  }

  lemma ScriptEnd(lines: seq<Line>, last: Line)
    ensures ScriptText(lines + [last]) == ScriptText(lines) + Text(last)
  {
    assert (lines + [last])[..|lines|] == lines;
  }

  /** The lines of one more file, numbered among the objects known by then. */
  lemma LinesGrow(files: seq<NixFile>, i: nat, inlineName: string)
    requires i < |files|
    ensures
      var before, after := Objects(files[..i], inlineName), Objects(files[..i + 1], inlineName);
      var (o, key) := Origin(files[i], i, inlineName);
      CopyLines(files, i + 1, inlineName, after)
      == CopyLines(files, i, inlineName, before) + [MakeParent(files[i].path), Copy(MountDir(IndexIn(after, o)), key, files[i].path)]
  {
    var before, after := Objects(files[..i], inlineName), Objects(files[..i + 1], inlineName);
    StepObjects(files, i, inlineName);
    forall j | 0 <= j < i
      ensures Origin(files[j], j, inlineName).0 in before
    {
      OriginsKnown(files[..i], inlineName, j);
    }
    CopyLinesStable(files, i, inlineName, before, after);
  }

  lemma StepObjects(files: seq<NixFile>, i: nat, inlineName: string)
    requires i < |files|
    ensures
      var before, o := Objects(files[..i], inlineName), Origin(files[i], i, inlineName).0;
      Objects(files[..i + 1], inlineName) == if o in before then before else before + [o]
  {
    assert files[..i + 1][..i] == files[..i];
  }

  lemma VolumesSnoc(objects: seq<Object>, o: Object)
    ensures Volumes(objects + [o]) == Volumes(objects) + [VolumeAt(|objects|, o)]
    ensures Mounts(objects + [o]) == Mounts(objects) + [MountAt(|objects|)]
  {
  }

  lemma ScriptSnoc(lines: seq<Line>, a: Line, b: Line)
    ensures ScriptText(lines + [a, b]) == ScriptText(lines) + Text(a) + Text(b)
  {
    hide Text;
    assert (lines + [a, b])[..|lines| + 1] == lines + [a];
    assert (lines + [a])[..|lines|] == lines;
  }

  lemma StagedSnoc(files: seq<NixFile>, i: nat)
    requires i < |files|
    ensures QuotedPaths(PathsOf(files[..i + 1])) == QuotedPaths(PathsOf(files[..i])) + " \"" + files[i].path + "\""
  {
    assert PathsOf(files[..i + 1])[..i] == PathsOf(files[..i]);
  }

  lemma {:induction false} OriginsKnown(files: seq<NixFile>, inlineName: string, j: nat)
    requires j < |files|
    ensures Origin(files[j], j, inlineName).0 in Objects(files, inlineName)
    decreases |files|
  {
    var front := files[..|files| - 1];
    if j < |front| { OriginsKnown(front, inlineName, j); }
  }

  lemma {:induction false} IndexInPrefix(objects: seq<Object>, more: seq<Object>, o: Object)
    requires objects <= more && o in objects
    ensures IndexIn(more, o) == IndexIn(objects, o)
  {
    if objects[0] != o {
      assert o in objects[1..];
      IndexInPrefix(objects[1..], more[1..], o);
    }
  }

  /** Numbers given once are kept. */
  lemma {:induction false} CopyLinesStable(
    files: seq<NixFile>, n: nat, inlineName: string, objects: seq<Object>, more: seq<Object>)
    requires n <= |files| && objects <= more
    requires forall j :: 0 <= j < n ==> Origin(files[j], j, inlineName).0 in objects
    ensures CopyLines(files, n, inlineName, objects) == CopyLines(files, n, inlineName, more)
    decreases n
  {
    if n > 0 {
      CopyLinesStable(files, n - 1, inlineName, objects, more);
      IndexInPrefix(objects, more, Origin(files[n - 1], n - 1, inlineName).0);
    }
  }
}
