/** The records the pipeline reads: cloud servers as the inventory returns them and
    the monitoring configuration. */
module Inventory {

  /** A network interface. `userIPAddress` is the address configured by the user
      (typically on a private switch), `ipAddress` the one assigned by the provider
      (typically a shared global address). The empty string means absent. */
  datatype Interface = Interface(ipAddress: string, userIPAddress: string)

  datatype Zone = Zone(name: string)

  /** A server record. Interface 0 is the primary interface. */
  datatype Server = Server(
    id: int,
    name: string,
    hostName: string,
    zone: Zone,
    interfaces: seq<Interface>,
    tags: seq<string>)

  /** One scrape rule of the configuration. */
  datatype Target = Target(
    service: string,
    tags: seq<string>,
    ignoreTags: seq<string>,
    ports: seq<int>,
    interfaceIndex: int)

  /** The configuration fields the pipeline reads; credentials are not modelled. */
  datatype Config = Config(
    zone: string,
    baseTags: seq<string>,
    targets: seq<Target>,
    hostNameType: string)

  /** The `host_name_type` value that selects the server's host name for the `hostname` label. */
  const ModifyDisk: string := "modify_disk"

  /** `server.HasTag`: exact, case-sensitive membership. */
  predicate HasTag(server: Server, tag: string)
  {
    tag in server.tags
  }
}
