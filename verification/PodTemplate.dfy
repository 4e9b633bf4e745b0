/**
 Rendering a workload: the operator's init containers, volumes, labels and application
 command are stamped into the user's pod template.
 */
module PodTemplate {
  import opened Options
  import opened Pods
  import opened Upserts
  import opened MountLists
  import opened FileInjection
  import Commands
  import Paths

  // ----- Input ------------------------------------------------------------------

  /** Empty texts are unset fields. */
  datatype LocalStore = LocalStore(medium: string, sizeLimit: string, storageClass: string)

  datatype Source = Git(repo: string, credentials: Option<string>) | Flux(artifactURL: string)

  /**
   `key` is the composite revision, `nixConfig` the assembled NIX_CONFIG text and
   `fetchScript` the text of the fetch script; `sshSecret` and `pushURL` are empty when
   there is no builder key or no store to push to.
   */
  datatype Input = Input(
    kind: string, name: string, image: string, containerName: string,
    run: string, args: seq<string>, prebuild: seq<string>, flags: seq<string>, dir: string,
    source: Source, localStore: Option<LocalStore>, files: seq<NixFile>,
    revision: string, key: string, nixConfig: string, fetchScript: string,
    sshSecret: string, pushURL: string)

  const DefaultImage := "nixos/nix:latest"
  const DefaultContainer := "app"
  const SSHVolume := "nio-ssh"
  const SSHPath := "/etc/nio/ssh"
  const CredsVolume := "nio-git-creds"
  const CredsPath := "/etc/nio/git-creds"
  const BootstrapPath := "/nix-vol"
  const SSHOptions := "-o StrictHostKeyChecking=no -o UserKnownHostsFile=/dev/null"
  const RevisionLabel := "nio.homystack.com/revision"
  const InitNames := {"bootstrap", "fetch-source", "inject-files", "instantiate"}
  const NixConfigVar := "NIX_CONFIG"
  const SSHOptsVar := "NIX_SSHOPTS"

  // ----- List helpers ---------------------------------------------------------------

  method UpsertVolume(volumes: seq<Volume>, v: Volume) returns (out: seq<Volume>)
    ensures out == Upsert(volumes, VolumeKey, v)
  {
    var i := 0;
    while i < |volumes|
      invariant 0 <= i <= |volumes| && forall j :: 0 <= j < i ==> VolumeKey(volumes[j]) != VolumeKey(v)
    {
      if volumes[i].name == v.name {
        UpsertAt(volumes, VolumeKey, v, i);
        return volumes[i := v];
      }
      i := i + 1;
    }
    UpsertAt(volumes, VolumeKey, v, i);
    out := volumes + [v];
  }

  method UpsertEnv(env: seq<EnvVar>, e: EnvVar) returns (out: seq<EnvVar>)
    ensures out == Upsert(env, EnvKey, e)
  {
    var i := 0;
    while i < |env|
      invariant 0 <= i <= |env| && forall j :: 0 <= j < i ==> EnvKey(env[j]) != EnvKey(e)
    {
      if env[i].name == e.name {
        UpsertAt(env, EnvKey, e, i);
        return env[i := e];
      }
      i := i + 1;
    }
    UpsertAt(env, EnvKey, e, i);
    out := env + [e];
  }

  method HasEnvVar(env: seq<EnvVar>, name: string) returns (has: bool)
    ensures has <==> Find(env, EnvKey, name).Some?
  {
    var i := 0;
    while i < |env|
      invariant 0 <= i <= |env| && forall j :: 0 <= j < i ==> EnvKey(env[j]) != name
    {
      if env[i].name == name {
        FindAt(env, EnvKey, name, i);
        return true;
      }
      i := i + 1;
    }
    FindAt(env, EnvKey, name, i);
    has := false;
  }

  method SetContainer(containers: seq<Container>, c: Container) returns (out: seq<Container>)
    ensures out == Upsert(containers, ContainerKey, c)
  {
    var i := 0;
    while i < |containers|
      invariant 0 <= i <= |containers| && forall j :: 0 <= j < i ==> ContainerKey(containers[j]) != ContainerKey(c)
    {
      if containers[i].name == c.name {
        UpsertAt(containers, ContainerKey, c, i);
        return containers[i := c];
      }
      i := i + 1;
    }
    UpsertAt(containers, ContainerKey, c, i);
    out := containers + [c];
  }

  function NewContainer(name: string): Container {
    Container(name, "", "", [], [], [], [], "")
  }

  function FoundOrNew(containers: seq<Container>, name: string): Container {
    var found := Find(containers, ContainerKey, name);
    if found.Some? then found.value else NewContainer(name)
  }

  method FindOrNewContainer(containers: seq<Container>, name: string) returns (c: Container)
    ensures c == FoundOrNew(containers, name)
  {
    var i := 0;
    while i < |containers|
      invariant 0 <= i <= |containers| && forall j :: 0 <= j < i ==> ContainerKey(containers[j]) != name
    {
      if containers[i].name == name {
        FindAt(containers, ContainerKey, name, i);
        return containers[i];
      }
      i := i + 1;
    }
    FindAt(containers, ContainerKey, name, i);
    c := NewContainer(name);
  }

  method FilterOutContainers(containers: seq<Container>, names: set<string>) returns (out: seq<Container>)
    ensures out == Without(containers, ContainerKey, names)
  {
    out := [];
    var i := 0;
    while i < |containers|
      invariant 0 <= i <= |containers|
      invariant Without(containers, ContainerKey, names) == out + Without(containers[i..], ContainerKey, names)
    {
      assert containers[i..][0] == containers[i] && containers[i..][1..] == containers[i + 1..];
      if containers[i].name !in names {
        out := out + [containers[i]];
      }
      i := i + 1;
    }
  }

  // ----- What the operator owns --------------------------------------------------------

  function Image(input: Input): string {
    if input.image == "" then DefaultImage else input.image
  }

  function AppName(input: Input): string {
    if input.containerName == "" then DefaultContainer else input.containerName
  }

  function WorkDir(input: Input): string {
    if input.dir == "" then Paths.Workspace else Paths.Join(Paths.Workspace, input.dir)
  }

  function ManagedLabels(input: Input): map<string, string> {
    map["nio.homystack.com/workload-kind" := input.kind,
        "nio.homystack.com/workload-name" := input.name,
        "app.kubernetes.io/managed-by" := "nio",
        RevisionLabel := input.key]
  }

  function NixStoreVolume(ls: Option<LocalStore>): Volume {
    var medium := if ls.Some? && ls.value.medium != "" then ls.value.medium else "Disk";
    var size := if ls.Some? then ls.value.sizeLimit else "";
    var source :=
      if medium == "Memory" then EmptyDir("Memory", size)
      else if medium == "PodPVC" then Ephemeral(if ls.Some? then ls.value.storageClass else "", size)
      else EmptyDir("", size);
    Volume(NixVolume, source)
  }

  predicate UsesSSH(input: Input) {
    input.sshSecret != ""
  }

  /** The credentials Secret mounted into fetch-source; empty for none. */
  function CredsSecret(input: Input): string {
    if input.source.Git? && input.source.credentials.Some? then input.source.credentials.value else ""
  }

  function InlineName(input: Input): string {
    input.name + "-nixfiles"
  }

  function InjectedObjects(input: Input): seq<Object> {
    Objects(input.files, InlineName(input))
  }

  function BaseVolumes(input: Input): seq<Volume> {
    [NixStoreVolume(input.localStore), Volume(WorkspaceVolume, EmptyDir("", ""))]
    + (if UsesSSH(input) then [Volume(SSHVolume, FromSecret(input.sshSecret))] else [])
    + (if CredsSecret(input) != "" then [Volume(CredsVolume, FromSecret(CredsSecret(input)))] else [])
  }

  function OwnVolumes(input: Input): seq<Volume> {
    BaseVolumes(input) + (if input.files == [] then [] else Volumes(InjectedObjects(input)))
  }

  function BuildMounts(input: Input): seq<Mount> {
    BaseMounts + (if UsesSSH(input) then [Mount(SSHVolume, SSHPath, true)] else [])
  }

  function FetchMounts(input: Input): seq<Mount> {
    BaseMounts + (if CredsSecret(input) != "" then [Mount(CredsVolume, CredsPath, true)] else [])
  }

  function FetchEnv(input: Input): seq<EnvVar> {
    [EnvVar(NixConfigVar, input.nixConfig), EnvVar("NIO_REVISION", input.revision)]
    + (match input.source
       case Flux(url) => [EnvVar("NIO_ARTIFACT_URL", url)]
       case Git(repo, _) => [EnvVar("NIO_GIT_REPO", repo)])
    + (if CredsSecret(input) != "" then [EnvVar("NIO_GIT_CREDENTIALS_PATH", CredsPath)] else [])
  }

  function InstantiateEnv(input: Input): seq<EnvVar> {
    [EnvVar(NixConfigVar, input.nixConfig)]
    + (if UsesSSH(input) then [EnvVar(SSHOptsVar, "-i " + SSHPath + "/ssh-privatekey " + SSHOptions)] else [])
  }

  function Bootstrap(input: Input): Container {
    Container("bootstrap", Image(input), "",
              ["sh", "-c", "[ -e " + BootstrapPath + "/store ] || cp --archive /nix/. " + BootstrapPath + "/"],
              [], [], [Mount(NixVolume, BootstrapPath, false)], "")
  }

  function FetchSource(input: Input): Container {
    Container("fetch-source", Image(input), "", ["sh", "-c", input.fetchScript], [],
              FetchEnv(input), FetchMounts(input), "")
  }

  function InjectFiles(input: Input): Container {
    Container("inject-files", Image(input), "",
              ["nix", "shell", "nixpkgs#gitMinimal", "--command", "sh", "-c",
               ScriptText(Script(input.files, InlineName(input)))], [],
              [EnvVar(NixConfigVar, input.nixConfig)], Mounts(InjectedObjects(input)), "")
  }

  function Instantiate(input: Input): Container {
    Container("instantiate", Image(input), WorkDir(input),
              Commands.InstantiateCommand(input.run, input.prebuild, input.flags, UsesSSH(input), input.pushURL), [],
              InstantiateEnv(input), BuildMounts(input), "")
  }

  function OwnInits(input: Input): seq<Container> {
    [Bootstrap(input), FetchSource(input)]
    + (if input.files == [] then [] else [InjectFiles(input)])
    + [Instantiate(input)]
  }

  /** Whoever needs ssh in the application container: the builder dispatch or the user's own options. */
  predicate AppNeedsSSH(input: Input, app: Container) {
    UsesSSH(input) || Find(app.env, EnvKey, SSHOptsVar).Some?
  }

  function AppEnv(input: Input, env: seq<EnvVar>): seq<EnvVar> {
    var set0 := Upsert(env, EnvKey, EnvVar(NixConfigVar, input.nixConfig));
    if Find(set0, EnvKey, SSHOptsVar).None? && UsesSSH(input)
    then Upsert(set0, EnvKey, EnvVar(SSHOptsVar, SSHOptions))
    else set0
  }

  function App(input: Input, app: Container): Container {
    app.(image := Image(input), workingDir := WorkDir(input),
         command := Commands.WrapSSH(Commands.RunCommand(input.run, input.args, input.flags), AppNeedsSSH(input, app)),
         args := [], env := AppEnv(input, app.env), mounts := Merged(app.mounts, BuildMounts(input)))
  }

  function Render(input: Input, base: Template): Template {
    base.(labels := base.labels + ManagedLabels(input),
          annotations := base.annotations[RevisionLabel := input.key],
          volumes := UpsertAll(base.volumes, VolumeKey, OwnVolumes(input)),
          inits := OwnInits(input) + Without(base.inits, ContainerKey, InitNames),
          containers := Upsert(base.containers, ContainerKey, App(input, FoundOrNew(base.containers, AppName(input)))))
  }

  // ----- The renderer ------------------------------------------------------------------

  lemma UpsertAllSnoc<T>(s: seq<T>, key: T -> string, xs: seq<T>, x: T)
    ensures UpsertAll(s, key, xs + [x]) == Upsert(UpsertAll(s, key, xs), key, x)
  {
    assert (xs + [x])[..|xs|] == xs;
  }

  lemma {:induction false} UpsertAllConcat<T>(s: seq<T>, key: T -> string, xs: seq<T>, ys: seq<T>)
    ensures UpsertAll(s, key, xs + ys) == UpsertAll(UpsertAll(s, key, xs), key, ys)
  {
    if ys == [] {
      assert xs + ys == xs;
    } else {
      assert (xs + ys)[..|xs + ys| - 1] == xs + ys[..|ys| - 1];
      UpsertAllConcat(s, key, xs, ys[..|ys| - 1]);
    }
  }

  method UpsertVolumes(volumes: seq<Volume>, own: seq<Volume>) returns (out: seq<Volume>)
    ensures out == UpsertAll(volumes, VolumeKey, own)
  {
    out := volumes;
    var i := 0;
    while i < |own|
      invariant 0 <= i <= |own| && out == UpsertAll(volumes, VolumeKey, own[..i])
    {
      assert own[..i + 1] == own[..i] + [own[i]];
      UpsertAllSnoc(volumes, VolumeKey, own[..i], own[i]);
      out := UpsertVolume(out, own[i]);
      i := i + 1;
    }
    assert own[..i] == own;
  }

  lemma StampedNone(volumes: seq<Volume>)
    ensures UpsertAll(volumes, VolumeKey, []) == volumes
  {
  }

  /** The volumes every workload gets, one after the other. */
  method StampVolumes(input: Input, volumes: seq<Volume>) returns (out: seq<Volume>)
    ensures out == UpsertAll(volumes, VolumeKey, BaseVolumes(input))
  {
    hide UpsertAll, Upsert, NixStoreVolume, CredsSecret;
    StampedNone(volumes);
    ghost var own := [NixStoreVolume(input.localStore)];
    assert own == [] + own;
    UpsertAllSnoc(volumes, VolumeKey, [], own[0]);
    out := UpsertVolume(volumes, NixStoreVolume(input.localStore));
    var workspace := Volume(WorkspaceVolume, EmptyDir("", ""));
    UpsertAllSnoc(volumes, VolumeKey, own, workspace);
    out := UpsertVolume(out, workspace);
    own := own + [workspace];
    if UsesSSH(input) {
      var ssh := Volume(SSHVolume, FromSecret(input.sshSecret));
      UpsertAllSnoc(volumes, VolumeKey, own, ssh);
      out := UpsertVolume(out, ssh);
      own := own + [ssh];
    }
    if CredsSecret(input) != "" {
      var creds := Volume(CredsVolume, FromSecret(CredsSecret(input)));
      UpsertAllSnoc(volumes, VolumeKey, own, creds);
      out := UpsertVolume(out, creds);
      own := own + [creds];
    }
    assert own == BaseVolumes(input);
  }

  /** The application container, composed from the user's. */
  method ComposeApp(input: Input, containers: seq<Container>) returns (app: Container)
    ensures app == App(input, FoundOrNew(containers, AppName(input)))
  {
    app := FindOrNewContainer(containers, AppName(input));
    var has := HasEnvVar(app.env, SSHOptsVar);
    var needsSSH := UsesSSH(input) || has;
    var env := UpsertEnv(app.env, EnvVar(NixConfigVar, input.nixConfig));
    has := HasEnvVar(env, SSHOptsVar);
    if !has && UsesSSH(input) {
      env := UpsertEnv(env, EnvVar(SSHOptsVar, SSHOptions));
    }
    var mounts := UpsertMounts(app.mounts, BuildMounts(input));
    var command := Commands.WrapSSH(Commands.RunCommand(input.run, input.args, input.flags), needsSSH);
    app := app.(image := Image(input), workingDir := WorkDir(input), command := command, args := [],
                env := env, mounts := mounts);
  }

  method RenderPodTemplate(input: Input, base: Template) returns (tmpl: Template)
    ensures tmpl == Render(input, base)
  {
    tmpl := base;
    tmpl := tmpl.(labels := tmpl.labels + ManagedLabels(input));
    tmpl := tmpl.(annotations := tmpl.annotations[RevisionLabel := input.key]);
    var volumes := StampVolumes(input, tmpl.volumes);
    var inits := [Bootstrap(input), FetchSource(input)];
    if |input.files| > 0 {
      var own, mounts, script := AdditionalFilesInjection(input.files, InlineName(input));
      UpsertAllConcat(tmpl.volumes, VolumeKey, BaseVolumes(input), own);
      volumes := UpsertVolumes(volumes, own);
      var inject := Container("inject-files", Image(input), "",
        ["nix", "shell", "nixpkgs#gitMinimal", "--command", "sh", "-c", script], [],
        [EnvVar(NixConfigVar, input.nixConfig)], mounts, "");
      inits := inits + [inject];
    } else {
      assert OwnVolumes(input) == BaseVolumes(input);
    }
    inits := inits + [Instantiate(input)];
    assert inits == OwnInits(input);
    var kept := FilterOutContainers(tmpl.inits, InitNames);
    var app := ComposeApp(input, tmpl.containers);
    var containers := SetContainer(tmpl.containers, app);
    tmpl := tmpl.(volumes := volumes, inits := inits + kept, containers := containers);
  }
}
