/** What the host knows of a service, and its place in the dependency graph. */
module HostedServices {
  import opened DependencyGraph

  datatype Service = Service(id: string, dependsOn: seq<string>)

  function AsNode(s: Service): Descriptor {
    Descriptor(s.id, s.dependsOn, [])
  }
}
