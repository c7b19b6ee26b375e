// The fields of a tazuna.yaml manifest that scheduling, naming and state tracking read.
module Manifests {

  datatype Manifest = Manifest(
    name: string,
    includes: seq<string>,
    path: string,
    mtype: string,
    tags: seq<string>,
    dependsOn: seq<string>)
}
