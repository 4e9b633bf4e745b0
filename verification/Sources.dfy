/**
 Where the contents of injected files come from: the ConfigMap the operator keeps for the
 inline ones, the volumes of the pod, and the file a source operand opens.
 */
module Sources {
  import opened Options
  import opened Pods
  import opened Texts
  import opened Upserts
  import opened FileInjection
  import opened Checkouts
  import Paths

  // ----- Inline contents ------------------------------------------------------------

  /** One entry per inline file, keyed by the file's index. */
  function InlineData(files: seq<NixFile>): map<string, string> {
    if files == [] then map[]
    else
      var k := |files| - 1;
      var before := InlineData(files[..k]);
      if files[k].inline.Some? then before[InlineKey(k) := files[k].inline.value] else before
  }

  /** The ConfigMap holds the inline contents, or is gone if there are none. */
  function WithInline(cluster: Cluster, name: string, files: seq<NixFile>): Cluster {
    var data := InlineData(files);
    if |data| == 0 then cluster - {ConfigMap(name)} else cluster[ConfigMap(name) := data]
  }

  /** Who controls the ConfigMap that is read. */
  datatype Controlled = ByOwner | ByNobody | ByOther

  /**
   How the server takes a write. `Unanswered`: it acts, but the caller sees an error;
   `Gone`: the object has been deleted since it was read.
   */
  datatype Response = Accepted | Refused | Unanswered | Gone

  /** The ConfigMap is as it should be. */
  predicate UpToDate(cluster: Cluster, name: string, files: seq<NixFile>, owner: Controlled) {
    var o, data := ConfigMap(name), InlineData(files);
    if |data| == 0 then o !in cluster else o in cluster && cluster[o] == data && owner.ByOwner?
  }

  /** Another controller's ConfigMap is deleted when nothing is to be held, but never overwritten. */
  predicate MayWrite(cluster: Cluster, name: string, files: seq<NixFile>, owner: Controlled) {
    |InlineData(files)| == 0 || ConfigMap(name) !in cluster || !owner.ByOther?
  }

  /**
   Reads the ConfigMap first and writes only if something is to be changed. On success the
   ConfigMap is as it should be, and a deletion that finds it gone is a success.
   */
  method EnsureAdditionalFilesConfigMap(
    cluster: Cluster, name: string, files: seq<NixFile>, owner: Controlled, answered: bool, write: Response)
    returns (after: Cluster, ok: bool)
    ensures ok ==> after == WithInline(cluster, name, files)
    ensures
      ok <==>
        && answered
        && (|| UpToDate(cluster, name, files, owner)
            || (MayWrite(cluster, name, files, owner) && (write.Accepted? || (write.Gone? && |InlineData(files)| == 0))))
    ensures
      !ok ==>
        var tried := answered && MayWrite(cluster, name, files, owner);
        after == if tried && write.Unanswered? then WithInline(cluster, name, files)
                 else if tried && write.Gone? then cluster - {ConfigMap(name)}
                 else cluster
  {
    var data: map<string, string> := map[];
    var i := 0;
    while i < |files|
      invariant 0 <= i <= |files|
      invariant data == InlineData(files[..i])
    {
      assert files[..i + 1][..i] == files[..i];
      if files[i].inline.Some? {
        data := data[InlineKey(i) := files[i].inline.value];
      }
      i := i + 1;
    }
    assert files[..i] == files;
    var o := ConfigMap(name);
    if !answered {
      return cluster, false;
    }
    if |data| == 0 {
      if o !in cluster {
        assert cluster - {o} == cluster;
        return cluster, true;
      }
      after := if write.Refused? then cluster else cluster - {o};
      ok := write.Accepted? || write.Gone?;
    } else {
      if o in cluster {
        if owner.ByOther? {
          return cluster, false;
        }
        if cluster[o] == data && owner.ByOwner? {
          assert cluster[o := data] == cluster;
          return cluster, true;
        }
      }
      after := if write.Refused? then cluster else if write.Gone? then cluster - {o} else cluster[o := data];
      ok := write.Accepted?;
    }
  }

  lemma InlineKeyInjective(i: nat, j: nat)
    ensures InlineKey(i) == InlineKey(j) ==> i == j
  {
    if InlineKey(i) == InlineKey(j) {
      assert InlineKey(i)[5..] == Decimal(i) && InlineKey(j)[5..] == Decimal(j);
      DecimalInjective(i, j);
    }
  }

  /** The i-th inline content is found under the i-th key. */
  lemma {:induction false} InlineDataAt(files: seq<NixFile>, i: nat)
    requires i < |files| && files[i].inline.Some?
    ensures InlineKey(i) in InlineData(files) && InlineData(files)[InlineKey(i)] == files[i].inline.value
    decreases |files|
  {
    var k := |files| - 1;
    if i < k {
      InlineDataAt(files[..k], i);
      InlineKeyInjective(i, k);
    }
  }

  /** The content a file declares. */
  function Declared(f: NixFile, cluster: Cluster): Option<string> {
    if f.inline.Some? then f.inline
    else if f.configMap.Some? then Lookup(cluster, ConfigMap(f.configMap.value.name), f.configMap.value.key)
    else if f.secret.Some? then Lookup(cluster, Secret(f.secret.value.name), f.secret.value.key)
    else None
  }

  /** The operator's ConfigMap has a key for every inline file, and no other. */
  lemma {:induction false} InlineDataKeys(files: seq<NixFile>, key: string)
    ensures key in InlineData(files) <==> exists i :: 0 <= i < |files| && files[i].inline.Some? && key == InlineKey(i)
  {
    if files != [] {
      var front := files[..|files| - 1];
      InlineDataKeys(front, key);
      assert forall i :: 0 <= i < |front| ==> front[i] == files[i];
      if i: nat :| i < |files| && files[i].inline.Some? && key == InlineKey(i) && i < |front| {
        assert front[i].inline.Some? && key == InlineKey(i);
      }
    }
  }

  // ----- Reading through the volumes --------------------------------------------------------

  lemma MountDirInjective(j: nat, k: nat)
    ensures MountDir(j) == MountDir(k) ==> j == k
    ensures VolumeName(j) == VolumeName(k) ==> j == k
  {
    var n := |FilesBase| + 1;
    if MountDir(j) == MountDir(k) {
      assert MountDir(j)[n..] == Decimal(j) && MountDir(k)[n..] == Decimal(k);
      DecimalInjective(j, k);
    }
    if VolumeName(j) == VolumeName(k) {
      assert VolumeName(j)[9..] == Decimal(j) && VolumeName(k)[9..] == Decimal(k);
      DecimalInjective(j, k);
    }
  }

  lemma MountFound(objects: seq<Object>, k: nat)
    requires k < |objects|
    ensures Find(Mounts(objects), MountKey, MountDir(k)) == Some(MountAt(k))
  {
    var mounts := Mounts(objects);
    var at := |BaseMounts| + k;
    forall i | 0 <= i < at
      ensures MountKey(mounts[i]) != MountDir(k)
    {
      if i < |BaseMounts| {
        BaseMountsElsewhere(i, k);
      } else {
        assert mounts[i] == MountAt(i - |BaseMounts|);
        MountDirInjective(i - |BaseMounts|, k);
      }
    }
    assert mounts[at] == MountAt(k);
    FindAt(mounts, MountKey, MountDir(k), at);
  }

  lemma BaseMountsElsewhere(i: nat, k: nat)
    requires i < |BaseMounts|
    ensures BaseMounts[i].path != MountDir(k)
  {
    assert MountDir(k)[1] == 'e';
    assert BaseMounts[0].path[1] == 'n' && BaseMounts[1].path[1] == 'w';
  }

  /** The volumes of the pod include one per object, under its number. */
  predicate Provides(volumes: seq<Volume>, objects: seq<Object>) {
    forall k :: 0 <= k < |objects| ==> Find(volumes, VolumeKey, VolumeName(k)) == Some(VolumeAt(k, objects[k]))
  }

  /** The generated volumes do: one volume per distinct object, all with different names. */
  lemma GeneratedVolumesProvide(objects: seq<Object>)
    ensures Provides(Volumes(objects), objects)
    ensures forall j, k :: 0 <= j < k < |objects| ==> Volumes(objects)[j].name != Volumes(objects)[k].name
  {
    var volumes := Volumes(objects);
    forall j, k | 0 <= j < k < |objects|
      ensures volumes[j].name != volumes[k].name
    {
      MountDirInjective(j, k);
    }
    forall k | 0 <= k < |objects|
      ensures Find(volumes, VolumeKey, VolumeName(k)) == Some(VolumeAt(k, objects[k]))
    {
      forall j | 0 <= j < k
        ensures VolumeKey(volumes[j]) != VolumeName(k)
      {
        MountDirInjective(j, k);
      }
      FindAt(volumes, VolumeKey, VolumeName(k), k);
    }
  }

  /** No object is given two volumes. */
  lemma {:induction false} ObjectsDistinct(files: seq<NixFile>, inlineName: string)
    ensures forall i, j :: 0 <= i < j < |Objects(files, inlineName)| ==> Objects(files, inlineName)[i] != Objects(files, inlineName)[j]
  {
    if files != [] { ObjectsDistinct(files[..|files| - 1], inlineName); }
  }

  lemma ReadObject(pod: Pod, objects: seq<Object>, k: nat, key: string)
    requires k < |objects| && pod.mounts == Mounts(objects) && Provides(pod.volumes, objects)
    ensures ReadKey(pod, MountDir(k), key) == Lookup(pod.cluster, objects[k], key)
  {
    MountFound(objects, k);
  }

  // ----- What a source operand opens --------------------------------------------------------

  /** A key the API admits in a ConfigMap or Secret. */
  predicate AdmittedKey(key: string) {
    && key != "" && key != "." && !Paths.HasPrefix(key, "..")
    && forall c :: c in key ==> Paths.IsSafeChar(c) && c != '/'
  }

  predicate Admitted(cluster: Cluster) {
    forall o, key :: o in cluster && key in cluster[o] ==> AdmittedKey(key)
  }

  lemma InlineKeyAdmitted(i: nat)
    ensures AdmittedKey(InlineKey(i))
  {
    DecimalValue(i);
    var key := InlineKey(i);
    assert key[0] == 'f';
    forall c | c in key
      ensures Paths.IsSafeChar(c) && c != '/'
    {
      var k :| 0 <= k < |key| && key[k] == c;
      if k >= 5 { assert c == Decimal(i)[k - 5]; }
    }
  }

  lemma {:induction false} InlineDataAdmitted(files: seq<NixFile>)
    ensures forall key :: key in InlineData(files) ==> AdmittedKey(key)
  {
    hide AdmittedKey;
    if files != [] {
      InlineDataAdmitted(files[..|files| - 1]);
      InlineKeyAdmitted(|files| - 1);
    }
  }

  lemma WithInlineAdmitted(cluster: Cluster, name: string, files: seq<NixFile>)
    requires Admitted(cluster)
    ensures Admitted(WithInline(cluster, name, files))
  {
    hide AdmittedKey;
    InlineDataAdmitted(files);
  }

  /** The segments of a mount directory. */
  function DirSegments(k: nat): seq<string> {
    ["etc", "nio", "files", Decimal(k)]
  }

  lemma FilesBaseSplit()
    ensures Paths.Split("/etc/nio/files") == ["", "etc", "nio", "files"]
  {
    hide Paths.Split;
    Paths.PlainSplit("");
    Paths.PlainSplit("etc");
    Paths.PlainSplit("nio");
    Paths.PlainSplit("files");
    Paths.SplitConcat("", "etc");
    Paths.SplitConcat("/etc", "nio");
    Paths.SplitConcat("/etc/nio", "files");
    assert "" + "/" + "etc" == "/etc" && "/etc" + "/" + "nio" == "/etc/nio" && "/etc/nio" + "/" + "files" == "/etc/nio/files";
  }

  lemma MountDirSplit(k: nat)
    ensures Paths.Split(MountDir(k)) == [""] + DirSegments(k)
    ensures Absolute(DirSegments(k)) == MountDir(k)
  {
    hide Paths.Split;
    FilesBaseSplit();
    NumeralHasNo(k, '/');
    Paths.PlainSplit(Decimal(k));
    Paths.SplitConcat(FilesBase, Decimal(k));
    var d := Decimal(k);
    Paths.JoinSegmentsConcat("files", [d]);
    Paths.JoinSegmentsConcat("nio", ["files", d]);
    Paths.JoinSegmentsConcat("etc", ["nio", "files", d]);
    assert ["files"] + [d] == ["files", d] && ["nio"] + ["files", d] == ["nio", "files", d];
    assert ["etc"] + ["nio", "files", d] == DirSegments(k);
    assert "/" + ("etc" + "/" + ("nio" + "/" + ("files" + "/" + d))) == "/etc/nio/files" + "/" + d;
  }

  lemma SourceSplit(k: nat, key: string)
    ensures Paths.Split(MountDir(k) + "/" + key)[1..] == DirSegments(k) + Paths.Split(key)
    ensures Paths.IsAbs(MountDir(k) + "/" + key)
  {
    hide Paths.Split;
    MountDirSplit(k);
    Paths.SplitConcat(MountDir(k), key);
  }

  lemma {:induction false} ResolveNames(pod: Pod, at: seq<string>, names: seq<string>, rest: seq<string>)
    requires forall i :: 0 <= i < |names| ==> names[i] != "" && names[i] != "." && names[i] != ".."
    requires forall k :: 0 <= k < |names| ==> IsDirectory(pod, at + names[..k])
    ensures Resolve(pod, at, names + rest) == Resolve(pod, at + names, rest)
    decreases |names|
  {
    hide IsDirectory;
    if names == [] {
      assert names + rest == rest && at + names == at;
    } else {
      assert at + names[..0] == at;
      var next := at + [names[0]];
      forall k | 0 <= k < |names[1..]|
        ensures IsDirectory(pod, next + names[1..][..k])
      {
        assert next + names[1..][..k] == at + names[..k + 1];
      }
      ResolveNames(pod, next, names[1..], rest);
      assert (names + rest)[1..] == names[1..] + rest && next + names[1..] == at + names;
    }
  }

  /** The way to a mounted volume. */
  lemma DirReached(pod: Pod, objects: seq<Object>, k: nat, rest: seq<string>)
    requires k < |objects| && pod.mounts == Mounts(objects)
    ensures Resolve(pod, [], DirSegments(k) + rest) == Resolve(pod, DirSegments(k), rest)
    ensures IsDirectory(pod, DirSegments(k)) && IsDirectory(pod, DirSegments(k)[..3])
  {
    hide Paths.Split;
    MountDirSplit(k);
    assert Mounts(objects)[|BaseMounts| + k] == MountAt(k);
    assert MountAt(k) in pod.mounts;
    DecimalValue(k);
    var d := Decimal(k);
    assert IsDigit(d[0]);
    forall j | 0 <= j <= 4
      ensures IsDirectory(pod, [] + DirSegments(k)[..j])
    {
      assert [] + DirSegments(k)[..j] <= Paths.Split(MountAt(k).path)[1..];
    }
    assert [] + DirSegments(k)[..4] == DirSegments(k) && [] + DirSegments(k)[..3] == DirSegments(k)[..3];
    ResolveNames(pod, [], DirSegments(k), rest);
    assert [] + DirSegments(k) == DirSegments(k);
  }

  lemma VolumeMounted(pod: Pod, objects: seq<Object>, k: nat)
    requires k < |objects| && pod.mounts == Mounts(objects)
    ensures Mounted(pod, DirSegments(k))
  {
    MountDirSplit(k);
    MountFound(objects, k);
  }

  /** Nothing in a volume but the data directory is a directory. */
  lemma InnerIsNoDirectory(pod: Pod, objects: seq<Object>, k: nat, name: string)
    requires k < |objects| && pod.mounts == Mounts(objects) && name != DataDir
    ensures !IsDirectory(pod, DirSegments(k) + [name])
  {
    hide Paths.Split;
    var at := DirSegments(k) + [name];
    VolumeMounted(pod, objects, k);
    assert at[..4] == DirSegments(k);
    assert InVolume(pod, at);
    forall m | m in pod.mounts
      ensures |Paths.Split(m.path)[1..]| <= 4
    {
      var i :| 0 <= i < |Mounts(objects)| && Mounts(objects)[i] == m;
      BaseSplit();
      if i >= |BaseMounts| { MountDirSplit(i - |BaseMounts|); }
    }
  }

  lemma BaseSplit()
    ensures forall i :: 0 <= i < |BaseMounts| ==> |Paths.Split(BaseMounts[i].path)| == 2
  {
    Paths.WorkspaceSegments();
    NixSplit();
    hide Paths.Split;
    assert BaseMounts[0].path == NixPath && BaseMounts[1].path == Paths.Workspace;
  }

  lemma NixSplit()
    ensures Paths.Split(NixPath) == ["", "nix"]
  {
    hide Paths.Split;
    Paths.PlainSplit("");
    Paths.PlainSplit("nix");
    Paths.SplitConcat("", "nix");
    assert "" + "/" + "nix" == NixPath;
  }

  lemma FileInVolume(pod: Pod, objects: seq<Object>, k: nat, key: string)
    requires k < |objects| && pod.mounts == Mounts(objects) && Provides(pod.volumes, objects) && key != DataDir
    ensures FileAt(pod, DirSegments(k) + [key]) == Lookup(pod.cluster, objects[k], key)
  {
    hide IsDirectory, InVolume;
    var at := DirSegments(k) + [key];
    assert at[..|at| - 1] == DirSegments(k) && at[|at| - 1] == key;
    InnerIsNoDirectory(pod, objects, k, key);
    VolumeMounted(pod, objects, k);
    MountDirSplit(k);
    ReadObject(pod, objects, k, key);
  }

  /** A key without a slash opens what the object holds under it, and nothing if it holds nothing. */
  lemma KeyOpens(pod: Pod, objects: seq<Object>, k: nat, key: string)
    requires k < |objects| && pod.mounts == Mounts(objects) && Provides(pod.volumes, objects)
    requires Admitted(pod.cluster) && '/' !in key
    ensures Open(pod, MountDir(k) + "/" + key) == Lookup(pod.cluster, objects[k], key)
  {
    hide Paths.Split, IsDirectory, InVolume;
    SourceSplit(k, key);
    Paths.PlainSplit(key);
    DirReached(pod, objects, k, [key]);
    var dir := DirSegments(k);
    assert [key][1..] == [];
    assert Resolve(pod, dir, [key]) == Some(Paths.Push(dir, key, true));
    if key == "" || key == "." || key == ".." || key == DataDir {
      if key == DataDir { DataIsDirectory(pod, objects, k); }
      assert !AdmittedKey(key);
    } else {
      FileInVolume(pod, objects, k, key);
    }
  }

  /** A key with a slash may lead into the volume of another object and open one of its keys. */
  lemma SlashKeyOpensOther(pod: Pod, objects: seq<Object>, k: nat, other: nat, key: string)
    requires k < |objects| && other < |objects| && pod.mounts == Mounts(objects) && Provides(pod.volumes, objects)
    requires AdmittedKey(key)
    ensures
      Open(pod, MountDir(k) + "/" + ("../" + Decimal(other) + "/" + key)) == Lookup(pod.cluster, objects[other], key)
  {
    hide Paths.Split, IsDirectory, FileAt;
    var d, up := Decimal(other), "../" + Decimal(other) + "/" + key;
    UpAndDown(d, key, other);
    SourceSplit(k, up);
    var rest := ["..", d, key];
    DirReached(pod, objects, k, rest);
    DirReached(pod, objects, other, [key]);
    var dir, base := DirSegments(k), DirSegments(k)[..3];
    assert base == DirSegments(other)[..3] && base + [d] == DirSegments(other);
    DecimalValue(other);
    DecimalValue(k);
    assert IsDigit(Decimal(k)[0]) && dir[3] == Decimal(k);
    assert rest[1..] == [d, key] && [d, key][1..] == [key] && [key][1..] == [];
    assert Paths.Push(dir, "..", true) == base && IsDigit(d[0]);
    assert Paths.Push(base, d, true) == DirSegments(other);
    assert Resolve(pod, dir, rest) == Resolve(pod, base, [d, key]);
    assert Resolve(pod, base, [d, key]) == Resolve(pod, DirSegments(other), [key]);
    assert key != ".." && key != DataDir;
    assert Resolve(pod, DirSegments(other), [key]) == Some(DirSegments(other) + [key]);
    FileInVolume(pod, objects, other, key);
  }

  lemma UpAndDown(d: string, key: string, other: nat)
    requires d == Decimal(other) && AdmittedKey(key)
    ensures Paths.Split("../" + d + "/" + key) == ["..", d, key]
  {
    hide Paths.Split;
    NumeralHasNo(other, '/');
    Paths.PlainSplit("..");
    Paths.PlainSplit(d);
    Paths.PlainSplit(key);
    Paths.SplitConcat(".." + "/" + d, key);
    Paths.SplitConcat("..", d);
    assert "../" + d + "/" + key == ".." + "/" + d + "/" + key;
  }

  lemma DataIsDirectory(pod: Pod, objects: seq<Object>, k: nat)
    requires k < |objects| && pod.mounts == Mounts(objects)
    ensures IsDirectory(pod, DirSegments(k) + [DataDir])
  {
    VolumeMounted(pod, objects, k);
    var at := DirSegments(k) + [DataDir];
    assert at[..|at| - 1] == DirSegments(k);
  }

  // ----- What the files' sources open ---------------------------------------------------------

  /** The operand the i-th file is copied from. */
  function SourceOperand(files: seq<NixFile>, i: nat, inlineName: string): string
    requires i < |files|
  {
    var (o, key) := Origin(files[i], i, inlineName);
    MountDir(IndexIn(Objects(files, inlineName), o)) + "/" + key
  }

  function Opened(files: seq<NixFile>, inlineName: string, pod: Pod): (contents: seq<Option<string>>)
    ensures |contents| == |files|
  {
    seq(|files|, i requires 0 <= i < |files| => Open(pod, SourceOperand(files, i, inlineName)))
  }

  function AllDeclared(files: seq<NixFile>, cluster: Cluster): (contents: seq<Option<string>>)
    ensures |contents| == |files|
  {
    seq(|files|, i requires 0 <= i < |files| => Declared(files[i], cluster))
  }

  /** The pod has the generated mounts and volumes, and the operator's ConfigMap. */
  predicate Prepared(pod: Pod, files: seq<NixFile>, inlineName: string, before: Cluster) {
    && pod.mounts == Mounts(Objects(files, inlineName)) && Provides(pod.volumes, Objects(files, inlineName))
    && Admitted(before) && pod.cluster == WithInline(before, inlineName, files)
  }

  function PreparedPod(files: seq<NixFile>, inlineName: string, before: Cluster): Pod {
    var objects := Objects(files, inlineName);
    Pod(Mounts(objects), Volumes(objects), WithInline(before, inlineName, files), map[])
  }

  lemma PodIsPrepared(files: seq<NixFile>, inlineName: string, before: Cluster)
    requires Admitted(before)
    ensures Prepared(PreparedPod(files, inlineName, before), files, inlineName, before)
  {
    GeneratedVolumesProvide(Objects(files, inlineName));
  }

  lemma InlineKeySlashFree(i: nat)
    ensures '/' !in InlineKey(i)
  {
    InlineKeyAdmitted(i);
  }

  /** Where its key has no slash, a file's source opens exactly the declared content. */
  lemma SourceIsDeclared(files: seq<NixFile>, i: nat, inlineName: string, before: Cluster, pod: Pod)
    requires i < |files| && OneSource(files[i]) && Prepared(pod, files, inlineName, before)
    requires '/' !in Origin(files[i], i, inlineName).1
    ensures Open(pod, SourceOperand(files, i, inlineName)) == Declared(files[i], pod.cluster)
  {
    hide Open, Admitted, Provides, Mounts, Objects;
    var objects := Objects(files, inlineName);
    var (o, key) := Origin(files[i], i, inlineName);
    OriginsKnown(files, inlineName, i);
    WithInlineAdmitted(before, inlineName, files);
    KeyOpens(pod, objects, IndexIn(objects, o), key);
    if files[i].inline.Some? {
      InlineDataAt(files, i);
      assert InlineKey(i) in InlineData(files);
      assert |InlineData(files)| > 0;
    }
  }

  /** A content that exists is the one the source opens; the API admits no key with a slash. */
  lemma DeclaredIsOpened(files: seq<NixFile>, i: nat, inlineName: string, before: Cluster, pod: Pod)
    requires i < |files| && OneSource(files[i]) && Prepared(pod, files, inlineName, before)
    requires Declared(files[i], pod.cluster).Some?
    ensures Open(pod, SourceOperand(files, i, inlineName)) == Declared(files[i], pod.cluster)
  {
    hide Open, Provides, Mounts, Objects, SourceOperand;
    var key := Origin(files[i], i, inlineName).1;
    WithInlineAdmitted(before, inlineName, files);
    InlineKeySlashFree(i);
    assert '/' !in key by {
      if files[i].inline.None? { assert AdmittedKey(key); }
    }
    SourceIsDeclared(files, i, inlineName, before, pod);
  }
}
