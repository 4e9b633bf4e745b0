/** The parts of a pod template the operator touches. */
module Pods {

  datatype EnvVar = EnvVar(name: string, value: string)

  datatype Mount = Mount(volume: string, path: string, readOnly: bool)

  /** `others` stands for every field the operator never looks at. */
  datatype Container = Container(
    name: string, image: string, workingDir: string, command: seq<string>, args: seq<string>,
    env: seq<EnvVar>, mounts: seq<Mount>, others: string)

  datatype VolumeSource =
    | EmptyDir(medium: string, sizeLimit: string)
    | Ephemeral(storageClass: string, size: string)
    | FromConfigMap(configMap: string)
    | FromSecret(secret: string)
    | OtherSource(text: string)

  datatype Volume = Volume(name: string, source: VolumeSource)

  datatype Template = Template(
    labels: map<string, string>, annotations: map<string, string>, volumes: seq<Volume>,
    inits: seq<Container>, containers: seq<Container>, others: string)

  function VolumeKey(v: Volume): string { v.name }
  function MountKey(m: Mount): string { m.path }
  function EnvKey(e: EnvVar): string { e.name }
  function ContainerKey(c: Container): string { c.name }

  const NixVolume := "nix-store"
  const WorkspaceVolume := "workspace"
  const NixPath := "/nix"
  const FilesBase := "/etc/nio/files"
}
