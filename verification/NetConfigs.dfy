/** The network configuration of a machine: one entry per interface number. */
module NetConfigs {
  import opened IpAddresses

  /** A static route: destination and next hop. */
  datatype Route = Route(net: Subnet, hop: Address)

  datatype InterfaceConfig =
    | Unconfigured                                                     // None
    | Dhcp                                                             // 'dhcp'
    | Static(addresses: seq<Interface>, routes: seq<Route>)

  type MachineConfig = seq<InterfaceConfig>
}
