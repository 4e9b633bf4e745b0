/**
 A rendered pod starting up: its init containers run one after the other, each seeing what
 those before have left in the shared volumes.
 */
module PodRun {
  import opened Options
  import opened Pods
  import opened Upserts
  import opened FileInjection
  import opened Checkouts
  import opened Sources
  import opened InjectedFiles
  import opened PodTemplate
  import opened PodTemplateLaws
  import Commands
  import MountLists
  import Paths
  import ShellQuote

  // ----- What a container does -----------------------------------------------------------

  /** Where a checkout is fetched from; `credentials` is the Secret that is mounted for it. */
  datatype Origin = Origin(location: string, revision: string, credentials: Option<string>)

  /** A build that was run: the commands, the directory and the checkout they ran in, the ssh options and key in reach. */
  datatype Build = Build(commands: seq<seq<string>>, dir: string, tree: Tree, sshOptions: Option<string>, sshKey: Option<string>)

  /** The shared volumes: whether the store is filled, the checkout if there is one, and the builds run so far. */
  datatype World = World(store: bool, checkout: Option<Tree>, builds: seq<Build>)

  const Empty := World(false, None, [])

  /** What the pod runs in: the volumes, the cluster's objects, the image's files, and what can be fetched. */
  datatype Site = Site(
    volumes: seq<Volume>, cluster: Cluster, image: map<seq<string>, string>, fetchScript: string, nixConfig: string,
    remote: map<Origin, Tree>)

  /** The Secret mounted at a path. */
  function SecretAt(c: Container, path: string, volumes: seq<Volume>): Option<string> {
    var m := Find(c.mounts, MountKey, path);
    if m.None? then None
    else
      var v := Find(volumes, VolumeKey, m.value.volume);
      if v.Some? && v.value.source.FromSecret? then Some(v.value.source.secret) else None
  }

  predicate MountedAt(c: Container, volume: string, path: string) {
    var m := Find(c.mounts, MountKey, path);
    m.Some? && m.value.volume == volume
  }

  /** Copies the image's store into the empty volume it has mounted elsewhere. */
  predicate FillsStore(c: Container) {
    |c.mounts| == 1 && c.mounts[0].volume == NixVolume
    && c.command == ["sh", "-c", "[ -e " + c.mounts[0].path + "/store ] || cp --archive /nix/. " + c.mounts[0].path + "/"]
  }

  /** Without a filled store there is no nix, and without its configuration it refuses the commands used here. */
  predicate HasNix(c: Container, w: World, site: Site) {
    && w.store && MountedAt(c, NixVolume, "/nix") && MountedAt(c, WorkspaceVolume, "/workspace")
    && ValueOf(c, "NIX_CONFIG") == Some(site.nixConfig)
  }

  function OriginOf(c: Container, volumes: seq<Volume>): Option<Origin> {
    var location := if ValueOf(c, "NIO_ARTIFACT_URL").Some? then ValueOf(c, "NIO_ARTIFACT_URL") else ValueOf(c, "NIO_GIT_REPO");
    var path := ValueOf(c, "NIO_GIT_CREDENTIALS_PATH");
    if location.None? || ValueOf(c, "NIO_REVISION").None? then None
    else
      Some(Origin(location.value, ValueOf(c, "NIO_REVISION").value, if path.Some? then SecretAt(c, path.value, volumes) else None))
  }

  const GitShell := ["nix", "shell", "nixpkgs#gitMinimal", "--command", "sh", "-c"]

  /** One init container; a container that fails keeps the pod from starting. */
  function RunInit(c: Container, w: World, site: Site): Option<World> {
    if FillsStore(c) then Some(w.(store := true))
    else if !HasNix(c, w, site) then None
    else if c.command == ["sh", "-c", site.fetchScript] then
      var from := OriginOf(c, site.volumes);
      if from.None? || from.value !in site.remote then None else Some(w.(checkout := Some(site.remote[from.value])))
    else if w.checkout.None? then None
    else if |c.command| == 7 && c.command[..6] == GitShell then
      var after := Run(c.command[6], w.checkout.value, Pod(c.mounts, site.volumes, site.cluster, site.image));
      if after.None? then None else Some(w.(checkout := after))
    else
      var done := Commands.Executed(c.command, 2);
      if done.None? then None
      else
        var build := Build(done.value, c.workingDir, w.checkout.value, ValueOf(c, "NIX_SSHOPTS"), SecretAt(c, "/etc/nio/ssh", site.volumes));
        Some(w.(builds := w.builds + [build]))
  }

  function RunInits(cs: seq<Container>, w: World, site: Site): Option<World> {
    if cs == [] then Some(w)
    else
      match RunInits(cs[..|cs| - 1], w, site)
      case None => None
      case Some(v) => RunInit(cs[|cs| - 1], v, site)
  }

  // ----- The order -------------------------------------------------------------------------

  function NamesOf(cs: seq<Container>): seq<string> {
    seq(|cs|, i requires 0 <= i < |cs| => cs[i].name)
  }

  function OwnCount(input: Input): nat {
    if input.files == [] then 3 else 4
  }

  /**
   The operator's init containers come first and in this order; the user's own follow in
   theirs.
   */
  lemma InitsInOrder(input: Input, base: Template)
    ensures
      var inits, n := Render(input, base).inits, OwnCount(input);
      && |inits| >= n
      && NamesOf(inits[..n])
         == ["bootstrap", "fetch-source"] + (if input.files == [] then [] else ["inject-files"]) + ["instantiate"]
      && inits[n..] == Without(base.inits, ContainerKey, {"bootstrap", "fetch-source", "inject-files", "instantiate"})
      && forall i :: 0 <= i < n ==> inits[i].image == if input.image == "" then "nixos/nix:latest" else input.image
  {
    OwnNames(input);
    OwnPrefix(input, base);
    hide Render, Without, Bootstrap, FetchSource, InjectFiles, Instantiate;
    var own := Render(input, base).inits[..OwnCount(input)];
    assert forall i :: 0 <= i < |own| ==> own[i] == Render(input, base).inits[i];
  }

  lemma OwnPrefix(input: Input, base: Template)
    ensures
      var inits, n := Render(input, base).inits, OwnCount(input);
      && |inits| >= n
      && inits[..n] == (if input.files == [] then [Bootstrap(input), FetchSource(input), Instantiate(input)]
                        else [Bootstrap(input), FetchSource(input), InjectFiles(input), Instantiate(input)])
      && inits[n..] == Without(base.inits, ContainerKey, InitNames)
  {
    hide Without, Bootstrap, FetchSource, InjectFiles, Instantiate;
    var own := OwnInits(input);
    assert Render(input, base).inits[..|own|] == own;
  }

  lemma OwnNames(input: Input)
    ensures Bootstrap(input).name == "bootstrap" && FetchSource(input).name == "fetch-source"
    ensures InjectFiles(input).name == "inject-files" && Instantiate(input).name == "instantiate"
    ensures
      forall c :: c in {Bootstrap(input), FetchSource(input), InjectFiles(input), Instantiate(input)} ==>
        c.image == if input.image == "" then "nixos/nix:latest" else input.image
  {
  }

  // ----- What the sequence comes to -------------------------------------------------------------

  function SiteOf(input: Input, base: Template, before: Cluster, image: map<seq<string>, string>, remote: map<Origin, Tree>): Site {
    Site(Render(input, base).volumes, WithInline(before, input.name + "-nixfiles", input.files), image,
         input.fetchScript, input.nixConfig, remote)
  }

  /** What the workload asks to be fetched. */
  function Wanted(input: Input): Origin {
    match input.source
    case Flux(url) => Origin(url, input.revision, None)
    case Git(repo, credentials) =>
      Origin(repo, input.revision, if credentials.Some? && credentials.value != "" then credentials else None)
  }

  /** The ssh options that name the key in a directory and accept any host. */
  function WithIdentity(dir: string): string {
    "-i " + dir + "/ssh-privatekey " + "-o StrictHostKeyChecking=no -o UserKnownHostsFile=/dev/null"
  }

  /** The build sees this checkout, in the flake's directory, with the key of the store if there is one. */
  predicate Builds(b: Build, input: Input, tree: Tree) {
    && Commands.Instantiates(b.commands, input.run, input.prebuild, input.flags, input.sshSecret != "", input.pushURL)
    && b.tree == tree
    && b.dir == (if input.dir == "" then "/workspace" else Paths.Join("/workspace", input.dir))
    && b.sshKey == (if input.sshSecret == "" then None else Some(input.sshSecret))
    && b.sshOptions == (if input.sshSecret == "" then None
                        else Some(WithIdentity("/etc/nio/ssh")))
  }

  lemma StoreIsFilled(input: Input, site: Site)
    ensures RunInit(Bootstrap(input), Empty, site) == Some(World(true, None, []))
  {
    assert FillsStore(Bootstrap(input));
  }

  lemma BaseMounted(c: Container, more: seq<Mount>)
    requires c.mounts == BaseMounts + more
    ensures MountedAt(c, NixVolume, "/nix") && MountedAt(c, WorkspaceVolume, "/workspace")
  {
    assert c.mounts[0] == Mount(NixVolume, "/nix", false) && c.mounts[1] == Mount(WorkspaceVolume, "/workspace", false);
    assert "/nix"[1] == 'n' && "/workspace"[1] == 'w';
    FindAt(c.mounts, MountKey, "/nix", 0);
    FindAt(c.mounts, MountKey, "/workspace", 1);
  }

  /** A Secret of the operator's, mounted behind the base mounts. */
  lemma SecretMounted(c: Container, volume: string, path: string, secret: string, volumes: seq<Volume>)
    requires c.mounts == BaseMounts + [Mount(volume, path, true)] && path != "/nix" && path != "/workspace"
    requires Find(volumes, VolumeKey, volume) == Some(Volume(volume, FromSecret(secret)))
    ensures SecretAt(c, path, volumes) == Some(secret)
  {
    FindAt(c.mounts, MountKey, path, 2);
  }

  lemma NoSecretMounted(c: Container, path: string, volumes: seq<Volume>)
    requires c.mounts == BaseMounts && path != "/nix" && path != "/workspace"
    ensures SecretAt(c, path, volumes) == None
  {
    FindAt(c.mounts, MountKey, path, 2);
  }

  lemma OwnVolumeFound(input: Input, base: Template, v: Volume)
    requires v in OwnVolumes(input)
    ensures Find(Render(input, base).volumes, VolumeKey, v.name) == Some(v)
  {
    OwnVolumesDistinct(input);
    AllPresent(base.volumes, VolumeKey, OwnVolumes(input));
  }

  lemma CredentialsFound(input: Input, base: Template)
    requires CredsSecret(input) != ""
    ensures SecretAt(FetchSource(input), CredsPath, Render(input, base).volumes) == Some(CredsSecret(input))
  {
    FixedVolumesOwned(input);
    hide Render, OwnVolumes, SecretAt;
    OwnVolumeFound(input, base, Volume(CredsVolume, FromSecret(CredsSecret(input))));
    assert CredsPath[1] == 'e';
    SecretMounted(FetchSource(input), CredsVolume, CredsPath, CredsSecret(input), Render(input, base).volumes);
  }

  lemma OriginIsWanted(input: Input, base: Template)
    ensures OriginOf(FetchSource(input), Render(input, base).volumes) == Some(Wanted(input))
  {
    FetchVars(input, FetchSource(input));
    hide Render, FetchSource, ValueOf, SecretAt;
    if CredsSecret(input) != "" { CredentialsFound(input, base); }
  }

  lemma FetchVars(input: Input, c: Container)
    requires c == FetchSource(input)
    ensures ValueOf(c, "NIX_CONFIG") == Some(input.nixConfig) && ValueOf(c, "NIO_REVISION") == Some(input.revision)
    ensures ValueOf(c, "NIO_ARTIFACT_URL") == if input.source.Flux? then Some(input.source.artifactURL) else None
    ensures input.source.Git? ==> ValueOf(c, "NIO_GIT_REPO") == Some(input.source.repo)
    ensures ValueOf(c, "NIO_GIT_CREDENTIALS_PATH") == if CredsSecret(input) != "" then Some(CredsPath) else None
  {
    var env := c.env;
    FindAt(env, EnvKey, "NIX_CONFIG", 0);
    FindAt(env, EnvKey, "NIO_REVISION", 1);
    FindAt(env, EnvKey, if input.source.Flux? then "NIO_ARTIFACT_URL" else "NIO_GIT_REPO", 2);
    if input.source.Git? { FindAt(env, EnvKey, "NIO_ARTIFACT_URL", |env|); }
    FindAt(env, EnvKey, "NIO_GIT_CREDENTIALS_PATH", 3);
  }

  /** The script of the fetch begins with the shell's options, which no other command here does. */
  predicate IsFetchScript(script: string) {
    |script| > 0 && script[0] == 's'
  }

  lemma FetchRuns(input: Input, base: Template, site: Site, w: World)
    requires w.store && site.volumes == Render(input, base).volumes && site.nixConfig == input.nixConfig && site.fetchScript == input.fetchScript
    requires Wanted(input) in site.remote
    ensures RunInit(FetchSource(input), w, site) == Some(w.(checkout := Some(site.remote[Wanted(input)])))
  {
    hide Render;
    var c := FetchSource(input);
    OriginIsWanted(input, base);
    FetchVars(input, c);
    BaseMounted(c, c.mounts[2..]);
    assert |c.mounts| >= 2 && !FillsStore(c);
  }

  lemma InjectionRuns(input: Input, site: Site, w: World)
    requires w.store && w.checkout.Some? && site.nixConfig == input.nixConfig && input.files != []
    ensures
      var c := InjectFiles(input);
      var after := Run(InjectionScript(input.files, InlineName(input)), w.checkout.value, Pod(c.mounts, site.volumes, site.cluster, site.image));
      RunInit(c, w, site) == if after.None? then None else Some(w.(checkout := after))
  {
    hide Run;
    var c := InjectFiles(input);
    BaseMounted(c, c.mounts[2..]);
    assert |c.mounts| >= 2 && !FillsStore(c);
    FindAt(c.env, EnvKey, "NIX_CONFIG", 0);
    assert c.command[..6] == GitShell;
  }

  lemma BuildVars(input: Input)
    ensures
      var c := Instantiate(input);
      && ValueOf(c, "NIX_CONFIG") == Some(input.nixConfig)
      && ValueOf(c, "NIX_SSHOPTS")
         == if input.sshSecret == "" then None
            else Some(WithIdentity("/etc/nio/ssh"))
  {
    var env := InstantiateEnv(input);
    FindAt(env, EnvKey, "NIX_CONFIG", 0);
    FindAt(env, EnvKey, "NIX_SSHOPTS", 1);
  }

  /** The store's key is mounted exactly if there is one. */
  lemma KeyInReach(input: Input, base: Template)
    ensures
      SecretAt(Instantiate(input), "/etc/nio/ssh", Render(input, base).volumes)
      == if input.sshSecret == "" then None else Some(input.sshSecret)
  {
    FixedVolumesOwned(input);
    hide Render, Commands.InstantiateCommand, InstantiateEnv, OwnVolumes, SecretAt;
    var c, volumes := Instantiate(input), Render(input, base).volumes;
    assert SSHPath[1] == 'e';
    if UsesSSH(input) {
      OwnVolumeFound(input, base, Volume(SSHVolume, FromSecret(input.sshSecret)));
      SecretMounted(c, SSHVolume, SSHPath, input.sshSecret, volumes);
    } else {
      NoSecretMounted(c, SSHPath, volumes);
    }
  }

  lemma BuildRuns(input: Input, base: Template, site: Site, w: World)
    requires w.store && w.checkout.Some? && site.volumes == Render(input, base).volumes && site.nixConfig == input.nixConfig
    requires IsFetchScript(site.fetchScript)
    requires Commands.Clean(input.run, input.prebuild, input.flags) && ShellQuote.NulFree(input.pushURL)
    ensures
      var v := RunInit(Instantiate(input), w, site);
      && v.Some? && |v.value.builds| == |w.builds| + 1 && v.value == w.(builds := w.builds + [v.value.builds[|w.builds|]])
      && Builds(v.value.builds[|w.builds|], input, w.checkout.value)
  {
    hide Render, Commands.Executed, Commands.InstantiateCommand, SecretAt, ValueOf, InstantiateEnv;
    var c := Instantiate(input);
    BaseMounted(c, c.mounts[2..]);
    assert |c.mounts| >= 2 && !FillsStore(c);
    BuildVars(input);
    KeyInReach(input, base);
    InstantiateIsOther(input, site.fetchScript);
    Commands.InstantiateRuns(input.run, input.prebuild, input.flags, UsesSSH(input), input.pushURL);
  }

  lemma InstantiateIsOther(input: Input, script: string)
    requires IsFetchScript(script)
    ensures
      var command := Instantiate(input).command;
      command != ["sh", "-c", script] && !(|command| == 7 && command[..6] == GitShell)
  {
    hide ShellQuote.ShellJoin, ShellQuote.Quote;
    var command := Instantiate(input).command;
    if UsesSSH(input) {
      assert Commands.WithSSH[0] == 'e' && Commands.WithSSHScript[0] == 'e';
      assert |command| == 3;
      assert command[2] == Commands.WithSSH + command[2][|Commands.WithSSH|..]
          || command[2] == Commands.WithSSHScript + command[2][|Commands.WithSSHScript|..];
      assert command[2][0] == 'e';
    } else {
      assert command[1] == "build";
      if |command| == 7 { assert command[..6][1] == "build" && GitShell[1] == "shell"; }
    }
  }

  /**
   The rendered pod starts up as intended: the store is filled, exactly the wanted revision
   is fetched with its credentials, the files are injected into it, and then the build runs
   once, in that checkout. It fails exactly if the injection does.
   */
  lemma RenderedPodBuilds(
    input: Input, base: Template, before: Cluster, image: map<seq<string>, string>, remote: map<Origin, Tree>)
    requires Wanted(input) in remote && IsFetchScript(input.fetchScript)
    requires Commands.Clean(input.run, input.prebuild, input.flags) && ShellQuote.NulFree(input.pushURL)
    requires AllSound(input.files) && SlashFreeKeys(input.files) && Unobstructed(input.files, remote[Wanted(input)]) && Admitted(before)
    ensures
      var site := SiteOf(input, base, before, image, remote);
      var w := RunInits(Render(input, base).inits[..OwnCount(input)], Empty, site);
      var fetched := remote[Wanted(input)];
      var injected := if input.files == [] then Some(fetched) else Outcome(input.files, fetched, AllDeclared(input.files, site.cluster));
      && (w.None? <==> injected.None?)
      && (w.Some? ==> w.value.store && w.value.checkout == injected && |w.value.builds| == 1
                      && Builds(w.value.builds[0], input, injected.value))
  {
    hide Render, Run, Outcome, RunInit, Builds, Sound, Unobstructed, SlashFreeKeys, Admitted;
    var site := SiteOf(input, base, before, image, remote);
    var fetched := World(true, Some(remote[Wanted(input)]), []);
    StoreIsFilled(input, site);
    FetchRuns(input, base, site, World(true, None, []));
    OwnPrefix(input, base);
    if input.files == [] {
      RunsThree(Bootstrap(input), FetchSource(input), Instantiate(input), site);
      BuildRuns(input, base, site, fetched);
    } else {
      RunsFour(Bootstrap(input), FetchSource(input), InjectFiles(input), Instantiate(input), site);
      InjectionRuns(input, site, fetched);
      RenderedInjectionWrites(input, base, before, remote[Wanted(input)], image);
      var injected := RunInit(InjectFiles(input), fetched, site);
      if injected.Some? { BuildRuns(input, base, site, injected.value); }
    }
  }

  function Then(w: Option<World>, c: Container, site: Site): Option<World> {
    if w.None? then None else RunInit(c, w.value, site)
  }

  lemma RunsThree(a: Container, b: Container, c: Container, site: Site)
    ensures RunInits([a, b, c], Empty, site) == Then(Then(Then(Some(Empty), a, site), b, site), c, site)
  {
    hide RunInit;
    assert [a, b, c][..2] == [a, b] && [a, b][..1] == [a] && [a][..0] == [];
    assert RunInits([], Empty, site) == Some(Empty);
    assert RunInits([a], Empty, site) == Then(Some(Empty), a, site);
    assert RunInits([a, b], Empty, site) == Then(RunInits([a], Empty, site), b, site);
  }

  lemma RunsFour(a: Container, b: Container, c: Container, d: Container, site: Site)
    ensures RunInits([a, b, c, d], Empty, site) == Then(Then(Then(Then(Some(Empty), a, site), b, site), c, site), d, site)
  {
    hide RunInit;
    RunsThree(a, b, c, site);
    assert [a, b, c, d][..3] == [a, b, c];
  }
}
