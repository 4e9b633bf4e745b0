/**
 Rendering is idempotent for every template, keeps everything the operator does not own,
 and what it adds does its job: commands keep their arguments and files their contents.
 */
module PodTemplateLaws {
  import opened Options
  import opened Pods
  import opened Upserts
  import opened MountLists
  import opened FileInjection
  import opened Checkouts
  import opened Sources
  import opened InjectedFiles
  import opened PodTemplate
  import Commands
  import Paths

  // ----- Owned names differ ---------------------------------------------------------

  lemma FixedVolumeName(name: string, k: nat)
    requires name in {NixVolume, WorkspaceVolume, SSHVolume, CredsVolume}
    ensures name != VolumeName(k)
  {
    assert VolumeName(k)[4] == 'f';
    assert NixVolume[0] == 'n' && NixVolume[1] == 'i' && NixVolume[2] == 'x';
    assert VolumeName(k)[2] == 'o';
    assert WorkspaceVolume[0] == 'w' && VolumeName(k)[0] == 'n';
    assert SSHVolume[4] == 's' && CredsVolume[4] == 'g';
  }

  lemma BaseVolumeNames(input: Input)
    ensures DistinctKeys(BaseVolumes(input), VolumeKey)
    ensures forall i :: 0 <= i < |BaseVolumes(input)| ==>
              VolumeKey(BaseVolumes(input)[i]) in {NixVolume, WorkspaceVolume, SSHVolume, CredsVolume}
  {
    assert NixVolume[0] == 'n' && NixVolume[1] == 'i' && NixVolume[2] == 'x';
    assert WorkspaceVolume[0] == 'w';
    assert SSHVolume[0] == 'n' && SSHVolume[2] == 'o' && SSHVolume[4] == 's';
    assert CredsVolume[0] == 'n' && CredsVolume[2] == 'o' && CredsVolume[4] == 'g';
  }

  lemma OwnVolumesDistinct(input: Input)
    ensures DistinctKeys(OwnVolumes(input), VolumeKey)
  {
    BaseVolumeNames(input);
    var base := BaseVolumes(input);
    var own := OwnVolumes(input);
    forall i, j | 0 <= i < j < |own|
      ensures VolumeKey(own[i]) != VolumeKey(own[j])
    {
      if j >= |base| {
        if i < |base| { FixedVolumeName(VolumeKey(base[i]), j - |base|); } else { MountDirInjective(i - |base|, j - |base|); }
      }
    }
  }

  lemma BuildMountsDistinct(input: Input)
    ensures DistinctPaths(BuildMounts(input))
  {
    var mounts := BuildMounts(input);
    assert mounts[0].path[1] == 'n' && mounts[1].path[1] == 'w';
    assert SSHPath[1] == 'e';
  }

  // ----- Idempotence ------------------------------------------------------------------

  lemma AppEnvIdempotent(input: Input, env: seq<EnvVar>)
    ensures AppEnv(input, AppEnv(input, env)) == AppEnv(input, env)
    ensures Find(AppEnv(input, env), EnvKey, SSHOptsVar).Some? <==>
            UsesSSH(input) || Find(env, EnvKey, SSHOptsVar).Some?
  {
    var config, opts := EnvVar(NixConfigVar, input.nixConfig), EnvVar(SSHOptsVar, SSHOptions);
    assert NixConfigVar[4] == 'C' && SSHOptsVar[4] == 'S';
    var once := Upsert(env, EnvKey, config);
    FindUpsert(env, EnvKey, config, NixConfigVar);
    FindUpsert(env, EnvKey, config, SSHOptsVar);
    FindUpsert(once, EnvKey, opts, NixConfigVar);
    FindUpsert(once, EnvKey, opts, SSHOptsVar);
    UpsertPresent(AppEnv(input, env), EnvKey, config);
  }

  lemma AppIdempotent(input: Input, app: Container)
    ensures App(input, App(input, app)) == App(input, app)
    ensures App(input, app).name == app.name
  {
    AppEnvIdempotent(input, app.env);
    BuildMountsDistinct(input);
    MergeIdempotent(app.mounts, BuildMounts(input));
  }

  lemma FoundName(containers: seq<Container>, name: string)
    ensures FoundOrNew(containers, name).name == name
  {
    FindHasName(containers, ContainerKey, name);
  }

  lemma {:induction false} FindHasName<T>(s: seq<T>, key: T -> string, name: string)
    ensures Find(s, key, name).Some? ==> key(Find(s, key, name).value) == name
  {
    if s != [] && key(s[0]) != name { FindHasName(s[1..], key, name); }
  }

  lemma ContainersIdempotent(input: Input, containers: seq<Container>)
    ensures
      var name := AppName(input);
      var once := Upsert(containers, ContainerKey, App(input, FoundOrNew(containers, name)));
      Upsert(once, ContainerKey, App(input, FoundOrNew(once, name))) == once
  {
    var name := AppName(input);
    var app := App(input, FoundOrNew(containers, name));
    FoundName(containers, name);
    AppIdempotent(input, FoundOrNew(containers, name));
    FindUpsert(containers, ContainerKey, app, name);
    UpsertPresent(Upsert(containers, ContainerKey, app), ContainerKey, app);
  }

  lemma OwnInitsDropped(input: Input)
    ensures Without(OwnInits(input), ContainerKey, InitNames) == []
  {
    var own := OwnInits(input);
    forall i | 0 <= i < |own|
      ensures ContainerKey(own[i]) in InitNames
    {
    }
    AllDropped(own, InitNames);
  }

  lemma {:induction false} AllDropped(containers: seq<Container>, names: set<string>)
    requires forall i :: 0 <= i < |containers| ==> ContainerKey(containers[i]) in names
    ensures Without(containers, ContainerKey, names) == []
  {
    if containers != [] { AllDropped(containers[1..], names); }
  }

  lemma {:induction false} WithoutConcat<T>(a: seq<T>, b: seq<T>, key: T -> string, names: set<string>)
    ensures Without(a + b, key, names) == Without(a, key, names) + Without(b, key, names)
  {
    if a == [] {
      assert a + b == b;
    } else {
      assert (a + b)[1..] == a[1..] + b;
      WithoutConcat(a[1..], b, key, names);
    }
  }

  lemma {:induction false} WithoutTwice<T>(s: seq<T>, key: T -> string, names: set<string>)
    ensures Without(Without(s, key, names), key, names) == Without(s, key, names)
  {
    if s != [] {
      WithoutTwice(s[1..], key, names);
      var rest := Without(s[1..], key, names);
      if key(s[0]) !in names {
        assert Without(s, key, names)[1..] == rest;
      } else {
        assert [] + rest == rest;
      }
    }
  }

  lemma InitsIdempotent(input: Input, inits: seq<Container>)
    ensures
      var once := OwnInits(input) + Without(inits, ContainerKey, InitNames);
      OwnInits(input) + Without(once, ContainerKey, InitNames) == once
  {
    OwnInitsDropped(input);
    var kept := Without(inits, ContainerKey, InitNames);
    WithoutConcat(OwnInits(input), kept, ContainerKey, InitNames);
    WithoutTwice(inits, ContainerKey, InitNames);
    assert [] + kept == kept;
  }

  /** Rendered again, a rendered template does not change, whatever the user's template repeats. */
  lemma RenderIdempotent(input: Input, base: Template)
    ensures Render(input, Render(input, base)) == Render(input, base)
  {
    hide OwnInits, App, OwnVolumes, AppName, Without, Upsert, UpsertAll, ManagedLabels, FoundOrNew;
    var once := Render(input, base);
    OwnVolumesDistinct(input);
    UpsertAllIdempotent(base.volumes, VolumeKey, OwnVolumes(input));
    InitsIdempotent(input, base.inits);
    ContainersIdempotent(input, base.containers);
    var labels := base.labels + ManagedLabels(input);
    assert labels + ManagedLabels(input) == labels;
    var notes := base.annotations[RevisionLabel := input.key];
    assert notes[RevisionLabel := input.key] == notes;
  }

  // ----- What the user provided survives -------------------------------------------------

  /**
   Volumes, init containers, containers, labels, annotations and all other fields that
   are not the operator's come out as they went in and in their order.
   */
  lemma RenderKeepsOthers(input: Input, base: Template)
    ensures
      var out := Render(input, base);
      && out.others == base.others
      && Without(out.volumes, VolumeKey, Keys(OwnVolumes(input), VolumeKey))
         == Without(base.volumes, VolumeKey, Keys(OwnVolumes(input), VolumeKey))
      && Without(out.inits, ContainerKey, InitNames) == Without(base.inits, ContainerKey, InitNames)
      && Without(out.containers, ContainerKey, {AppName(input)}) == Without(base.containers, ContainerKey, {AppName(input)})
      && (forall k :: k in base.labels && k !in ManagedLabels(input) ==> k in out.labels && out.labels[k] == base.labels[k])
      && (forall k :: k in base.annotations && k != RevisionLabel ==> k in out.annotations && out.annotations[k] == base.annotations[k])
  {
    hide OwnInits, OwnVolumes, AppName, Without, Upsert, UpsertAll, App, FoundOrNew;
    AllLeaveOthers(base.volumes, VolumeKey, OwnVolumes(input), Keys(OwnVolumes(input), VolumeKey));
    OwnInitsDropped(input);
    var kept := Without(base.inits, ContainerKey, InitNames);
    WithoutConcat(OwnInits(input), kept, ContainerKey, InitNames);
    WithoutTwice(base.inits, ContainerKey, InitNames);
    assert [] + kept == kept;
    var app := App(input, FoundOrNew(base.containers, AppName(input)));
    FoundName(base.containers, AppName(input));
    AppIdempotent(input, FoundOrNew(base.containers, AppName(input)));
    UpsertLeavesOthers(base.containers, ContainerKey, app, {AppName(input)});
  }

  /** The application container of a rendered template. */
  function AppOf(input: Input, tmpl: Template): Container {
    FoundOrNew(tmpl.containers, AppName(input))
  }

  lemma AppIsComposed(input: Input, base: Template)
    ensures AppOf(input, Render(input, base)) == App(input, AppOf(input, base))
  {
    var app := App(input, FoundOrNew(base.containers, AppName(input)));
    FoundName(base.containers, AppName(input));
    AppIdempotent(input, FoundOrNew(base.containers, AppName(input)));
    FindUpsert(base.containers, ContainerKey, app, AppName(input));
  }

  /**
   In the application container the user's other fields, environment and mounts survive,
   and ssh options the user set are never overridden.
   */
  lemma AppKeepsUserParts(input: Input, base: Template, path: string)
    ensures
      var before, after := AppOf(input, base), AppOf(input, Render(input, base));
      && after.others == before.others && after.name == before.name
      && Without(after.env, EnvKey, {NixConfigVar, SSHOptsVar}) == Without(before.env, EnvKey, {NixConfigVar, SSHOptsVar})
      && (Find(before.env, EnvKey, SSHOptsVar).Some? ==>
            Without(after.env, EnvKey, {NixConfigVar}) == Without(before.env, EnvKey, {NixConfigVar})
            && Find(after.env, EnvKey, SSHOptsVar) == Find(before.env, EnvKey, SSHOptsVar))
      && ((forall i :: 0 <= i < |BuildMounts(input)| ==> BuildMounts(input)[i].path != path) ==>
            At(after.mounts, path) == At(before.mounts, path))
  {
    AppIsComposed(input, base);
    var before := AppOf(input, base);
    EnvKeepsOthers(input, before.env);
    if forall i :: 0 <= i < |BuildMounts(input)| ==> BuildMounts(input)[i].path != path {
      MergeKeepsOthers(before.mounts, BuildMounts(input), path);
    }
  }

  lemma EnvKeepsOthers(input: Input, env: seq<EnvVar>)
    ensures Without(AppEnv(input, env), EnvKey, {NixConfigVar, SSHOptsVar}) == Without(env, EnvKey, {NixConfigVar, SSHOptsVar})
    ensures Find(env, EnvKey, SSHOptsVar).Some? ==>
              Without(AppEnv(input, env), EnvKey, {NixConfigVar}) == Without(env, EnvKey, {NixConfigVar})
              && Find(AppEnv(input, env), EnvKey, SSHOptsVar) == Find(env, EnvKey, SSHOptsVar)
  {
    var config, opts := EnvVar(NixConfigVar, input.nixConfig), EnvVar(SSHOptsVar, SSHOptions);
    assert NixConfigVar[4] == 'C' && SSHOptsVar[4] == 'S';
    var once := Upsert(env, EnvKey, config);
    FindUpsert(env, EnvKey, config, SSHOptsVar);
    UpsertLeavesOthers(env, EnvKey, config, {NixConfigVar, SSHOptsVar});
    UpsertLeavesOthers(once, EnvKey, opts, {NixConfigVar, SSHOptsVar});
    UpsertLeavesOthers(env, EnvKey, config, {NixConfigVar});
  }

  // ----- What the operator adds works ------------------------------------------------------

  /** The rendered pod provides the volumes the injection mounts, whatever volumes the user brought. */
  lemma RenderProvidesFiles(input: Input, base: Template)
    requires input.files != []
    ensures Provides(Render(input, base).volumes, InjectedObjects(input))
    ensures InjectFiles(input) in Render(input, base).inits
  {
    hide App, FoundOrNew, Bootstrap, FetchSource, Instantiate, UpsertAll, BaseVolumes, Upsert, Without, ManagedLabels;
    var objects := InjectedObjects(input);
    OwnVolumesDistinct(input);
    AllPresent(base.volumes, VolumeKey, OwnVolumes(input));
    var volumes := UpsertAll(base.volumes, VolumeKey, OwnVolumes(input));
    forall k | 0 <= k < |objects|
      ensures Find(volumes, VolumeKey, VolumeName(k)) == Some(VolumeAt(k, objects[k]))
    {
      assert OwnVolumes(input)[|BaseVolumes(input)| + k] == VolumeAt(k, objects[k]);
    }
    var inits := OwnInits(input);
    assert inits[2] == InjectFiles(input);
    assert Render(input, base).inits[2] == inits[2];
  }

  /** The mount names an owned volume, and that is the one the rendered pod has under the name. */
  predicate Resolves(m: Mount, input: Input, base: Template) {
    exists v :: v in OwnVolumes(input) && v.name == m.volume && Find(Render(input, base).volumes, VolumeKey, m.volume) == Some(v)
  }

  lemma OwnVolumeResolves(m: Mount, v: Volume, input: Input, base: Template)
    requires v in OwnVolumes(input) && v.name == m.volume
    ensures Resolves(m, input, base)
  {
    hide OwnVolumes, App, OwnInits;
    OwnVolumesDistinct(input);
    AllPresent(base.volumes, VolumeKey, OwnVolumes(input));
    var i :| 0 <= i < |OwnVolumes(input)| && OwnVolumes(input)[i] == v;
  }

  /** The fixed volumes, each under the condition that makes the operator mount it. */
  lemma FixedVolumesOwned(input: Input)
    ensures NixStoreVolume(input.localStore) in OwnVolumes(input)
    ensures Volume(WorkspaceVolume, EmptyDir("", "")) in OwnVolumes(input)
    ensures UsesSSH(input) ==> Volume(SSHVolume, FromSecret(input.sshSecret)) in OwnVolumes(input)
    ensures CredsSecret(input) != "" ==> Volume(CredsVolume, FromSecret(CredsSecret(input))) in OwnVolumes(input)
  {
    hide NixStoreVolume;
    var base := BaseVolumes(input);
    assert base[0] == NixStoreVolume(input.localStore) && base[1] == Volume(WorkspaceVolume, EmptyDir("", ""));
    assert forall v :: v in base ==> v in OwnVolumes(input);
    if UsesSSH(input) { assert base[2] == Volume(SSHVolume, FromSecret(input.sshSecret)); }
    if CredsSecret(input) != "" { assert base[|base| - 1] == Volume(CredsVolume, FromSecret(CredsSecret(input))); }
  }

  lemma BaseMountsResolve(m: Mount, input: Input, base: Template)
    requires m.volume == NixVolume || m.volume == WorkspaceVolume
          || (m.volume == SSHVolume && UsesSSH(input)) || (m.volume == CredsVolume && CredsSecret(input) != "")
    ensures Resolves(m, input, base)
  {
    hide Resolves;
    FixedVolumesOwned(input);
    if m.volume == NixVolume {
      OwnVolumeResolves(m, NixStoreVolume(input.localStore), input, base);
    } else if m.volume == WorkspaceVolume {
      OwnVolumeResolves(m, Volume(WorkspaceVolume, EmptyDir("", "")), input, base);
    } else if m.volume == SSHVolume {
      OwnVolumeResolves(m, Volume(SSHVolume, FromSecret(input.sshSecret)), input, base);
    } else {
      OwnVolumeResolves(m, Volume(CredsVolume, FromSecret(CredsSecret(input))), input, base);
    }
  }

  lemma FileMountResolves(k: nat, input: Input, base: Template)
    requires input.files != [] && k < |InjectedObjects(input)|
    ensures Resolves(MountAt(k), input, base)
  {
    hide Resolves, BaseVolumes;
    var v := VolumeAt(k, InjectedObjects(input)[k]);
    assert OwnVolumes(input)[|BaseVolumes(input)| + k] == v;
    OwnVolumeResolves(MountAt(k), v, input, base);
  }

  /**
   Every mount of the operator's init containers, and every mount it adds to the
   application, resolves to the operator's own volume, even where the user's template
   has volumes of the same names.
   */
  lemma OwnMountsResolve(input: Input, base: Template, c: Container, m: Mount)
    requires (c in OwnInits(input) && m in c.mounts) || m in BuildMounts(input)
    ensures Resolves(m, input, base)
  {
    hide Resolves, Render, OwnVolumes;
    if m in BuildMounts(input) || m in FetchMounts(input) || m in Bootstrap(input).mounts || m in BaseMounts {
      BaseMountsResolve(m, input, base);
    } else {
      assert c == InjectFiles(input) && input.files != [];
      var at :| 0 <= at < |c.mounts| && c.mounts[at] == m;
      assert m == MountAt(at - |BaseMounts|);
      FileMountResolves(at - |BaseMounts|, input, base);
    }
  }

  /**
   Rendered into any template, the injection writes the declared files: the script in the
   container's command, its mounts, the pod's volumes and the inline ConfigMap agree.
   `image` holds whatever else is in the container.
   */
  lemma RenderedInjectionWrites(input: Input, base: Template, before: Cluster, tree: Tree, image: map<seq<string>, string>)
    requires input.files != [] && AllSound(input.files) && SlashFreeKeys(input.files) && Unobstructed(input.files, tree)
    requires Admitted(before)
    ensures
      var inject, cluster := InjectFiles(input), WithInline(before, input.name + "-nixfiles", input.files);
      var pod := Pod(inject.mounts, Render(input, base).volumes, cluster, image);
      && inject in Render(input, base).inits
      && inject.command[..6] == ["nix", "shell", "nixpkgs#gitMinimal", "--command", "sh", "-c"]
      && Run(inject.command[6], tree, pod) == Outcome(input.files, tree, AllDeclared(input.files, cluster))
  {
    hide Run, Outcome, Unobstructed, Sound, Provides, Admitted, Render;
    RenderProvidesFiles(input, base);
    var inject, cluster := InjectFiles(input), WithInline(before, InlineName(input), input.files);
    var pod := Pod(inject.mounts, Render(input, base).volumes, cluster, image);
    ScriptWritesDeclared(input.files, InlineName(input), before, tree, pod);
  }

  /**
   The application container runs the workload's program: nix gets the flags and the
   installable, the program exactly its arguments.
   */
  lemma RenderedAppRuns(input: Input, base: Template)
    requires Commands.Clean(input.run, input.args, input.flags)
    ensures
      var done := Commands.Executed(AppOf(input, Render(input, base)).command, 1);
      done.Some? && Commands.RunsProgram(done.value, input.run, input.args, input.flags)
  {
    AppIsComposed(input, base);
    Commands.AppRuns(input.run, input.args, input.flags, AppNeedsSSH(input, AppOf(input, base)));
  }

  /** What a container sees of a variable. */
  function ValueOf(c: Container, name: string): Option<string> {
    var e := Find(c.env, EnvKey, name);
    if e.Some? then Some(e.value.value) else None
  }

  /** The list holds the mount, and what is at its path last is that mount. */
  predicate Reaches(c: Container, volume: string, path: string) {
    At(c.mounts, path) != [] && At(c.mounts, path)[|At(c.mounts, path)| - 1].volume == volume
  }

  /**
   The application container is stamped: image and directory are the workload's, the
   arguments are gone, nix is configured, and the ssh options are the user's if there are
   any, else those for the store's builder, and they name no identity.
   */
  lemma AppIsStamped(input: Input, base: Template)
    ensures
      var before, app := AppOf(input, base), AppOf(input, Render(input, base));
      && app.image == (if input.image == "" then "nixos/nix:latest" else input.image) && app.args == []
      && app.workingDir == (if input.dir == "" then "/workspace" else Paths.Join("/workspace", input.dir))
      && ValueOf(app, "NIX_CONFIG") == Some(input.nixConfig)
      && ValueOf(app, "NIX_SSHOPTS")
         == (if ValueOf(before, "NIX_SSHOPTS").Some? then ValueOf(before, "NIX_SSHOPTS")
             else if input.sshSecret == "" then None
             else Some("-o StrictHostKeyChecking=no -o UserKnownHostsFile=/dev/null"))
      && Reaches(app, "nix-store", "/nix") && Reaches(app, "workspace", "/workspace")
      && (input.sshSecret != "" ==> Reaches(app, "nio-ssh", "/etc/nio/ssh"))
  {
    AppIsComposed(input, base);
    hide Render, Merged;
    var before := AppOf(input, base);
    var config, opts := EnvVar(NixConfigVar, input.nixConfig), EnvVar(SSHOptsVar, SSHOptions);
    var set0 := Upsert(before.env, EnvKey, config);
    assert NixConfigVar[4] == 'C' && SSHOptsVar[4] == 'S';
    FindUpsert(before.env, EnvKey, config, NixConfigVar);
    FindUpsert(before.env, EnvKey, config, SSHOptsVar);
    FindUpsert(set0, EnvKey, opts, NixConfigVar);
    FindUpsert(set0, EnvKey, opts, SSHOptsVar);
    BuildMountsDistinct(input);
    MergeShowsAll(before.mounts, BuildMounts(input));
    BuildMountsListed(input);
    assert Shows(Merged(before.mounts, BuildMounts(input)), BuildMounts(input)[0]);
    assert Shows(Merged(before.mounts, BuildMounts(input)), BuildMounts(input)[1]);
    if UsesSSH(input) { assert Shows(Merged(before.mounts, BuildMounts(input)), BuildMounts(input)[2]); }
  }

  lemma BuildMountsListed(input: Input)
    ensures |BuildMounts(input)| == if UsesSSH(input) then 3 else 2
    ensures BuildMounts(input)[0] == Mount("nix-store", "/nix", false)
    ensures BuildMounts(input)[1] == Mount("workspace", "/workspace", false)
    ensures UsesSSH(input) ==> BuildMounts(input)[2] == Mount("nio-ssh", "/etc/nio/ssh", true)
  {
  }

  predicate Labelled(out: Template, key: string, value: string) {
    key in out.labels && out.labels[key] == value
  }

  /** The template is stamped with who manages it and with the composite revision. */
  lemma TemplateIsStamped(input: Input, base: Template)
    ensures
      var out := Render(input, base);
      && RevisionLabel in out.annotations && out.annotations[RevisionLabel] == input.key
      && Labelled(out, "nio.homystack.com/revision", input.key) && Labelled(out, "nio.homystack.com/workload-kind", input.kind)
      && Labelled(out, "nio.homystack.com/workload-name", input.name) && Labelled(out, "app.kubernetes.io/managed-by", "nio")
  {
    hide OwnInits, App, OwnVolumes;
    var kind, name, manager := "nio.homystack.com/workload-kind", "nio.homystack.com/workload-name", "app.kubernetes.io/managed-by";
    assert kind[27] == 'k' && name[27] == 'n' && manager[0] == 'a' && RevisionLabel[18] == 'r' && kind[18] == 'w' && name[18] == 'w';
  }

  /** The pod-local store is in memory, on a claim of its own, or on the node's disk, as asked for. */
  lemma StoreVolumeRendered(input: Input, base: Template)
    ensures
      var v, ls := Find(Render(input, base).volumes, VolumeKey, "nix-store"), input.localStore;
      && v.Some?
      && (ls.None? || ls.value.medium !in ["Memory", "PodPVC"] ==>
            v.value.source == EmptyDir("", if ls.Some? then ls.value.sizeLimit else ""))
      && (ls.Some? && ls.value.medium == "Memory" ==> v.value.source == EmptyDir("Memory", ls.value.sizeLimit))
      && (ls.Some? && ls.value.medium == "PodPVC" ==> v.value.source == Ephemeral(ls.value.storageClass, ls.value.sizeLimit))
  {
    FixedVolumesOwned(input);
    OwnVolumesDistinct(input);
    hide OwnInits, App, OwnVolumes, NixStoreVolume, UpsertAll;
    AllPresent(base.volumes, VolumeKey, OwnVolumes(input));
    StoreVolumeSource(input.localStore);
    var i :| 0 <= i < |OwnVolumes(input)| && OwnVolumes(input)[i] == NixStoreVolume(input.localStore);
  }

  lemma StoreVolumeSource(ls: Option<LocalStore>)
    ensures
      var v := NixStoreVolume(ls);
      && v.name == "nix-store"
      && (ls.None? || ls.value.medium !in ["Memory", "PodPVC"] ==>
            v.source == EmptyDir("", if ls.Some? then ls.value.sizeLimit else ""))
      && (ls.Some? && ls.value.medium == "Memory" ==> v.source == EmptyDir("Memory", ls.value.sizeLimit))
      && (ls.Some? && ls.value.medium == "PodPVC" ==> v.source == Ephemeral(ls.value.storageClass, ls.value.sizeLimit))
  {
  }

  /** The application container is the one of the given name, and of no name given that of "app". */
  lemma AppHasItsName(input: Input, base: Template)
    ensures
      var name := if input.containerName == "" then "app" else input.containerName;
      Find(Render(input, base).containers, ContainerKey, name) == Some(AppOf(input, Render(input, base)))
      && AppOf(input, Render(input, base)).name == name
  {
    var app := App(input, FoundOrNew(base.containers, AppName(input)));
    FoundName(base.containers, AppName(input));
    AppIdempotent(input, FoundOrNew(base.containers, AppName(input)));
    FindUpsert(base.containers, ContainerKey, app, AppName(input));
  }

  /** The program has openssh in reach exactly if there are ssh options for it, its own or the builder's. */
  lemma AppHasOpenssh(input: Input, base: Template)
    requires Commands.Clean(input.run, input.args, input.flags)
    ensures
      var app := AppOf(input, Render(input, base));
      Commands.HasOpenssh(app.command) <==> ValueOf(app, "NIX_SSHOPTS").Some?
  {
    AppIsComposed(input, base);
    AppIsStamped(input, base);
    hide Render, Commands.WrapSSH, Commands.HasOpenssh;
    var before := AppOf(input, base);
    var cmd := Commands.RunCommand(input.run, input.args, input.flags);
    assert cmd[0] == "nix" && cmd[1] == "run";
    Commands.WrapReachesIff(cmd, AppNeedsSSH(input, before));
  }
}
