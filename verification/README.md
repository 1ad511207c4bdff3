# Verified model of the lab library

The library builds network labs and grades what students do in them. Its algorithms decide how
machines are numbered, addressed and routed, what a capture shows, how a traffic-control tree is
rebuilt on a clone, and how small protocol messages and configuration files are written and read.
This project models those algorithms in Dafny and proves what they are for. Loops, dictionaries
filled in place and objects that collect commands are methods and classes proved against
specification functions; the main theorems are lemmas about these functions.

`dafny verify dfyconfig.toml` checks everything.

## How to read it

Shared: `Wrappers` (optional values, computations that may raise), `Dicts` (ordered dictionaries),
`Bytes`, `Texts`, `Sorting` (the stable sort of Python).

**Routing over a topology.** `Topologies` numbers the interfaces. `RoutingGraph` joins networks by
the machines between them. `FirstHops` is the queue-based search, `ShortestPaths` says that its
answer starts a shortest path, for every order in which a Python set may yield the start networks.
`TopologyConfig` and `TopologyConfigLoops` are `get_net_config_from_topology`; `RoutePruning` is its
last step. `ConfigMeaning` says for any data, of one family or both, which configuration that is, from the
lab alone, and `ConfigErrors` when there is none. `Forwarding` defines what kernels do with the produced
configurations: longest prefix first, connected networks before routes of the same length, next hops found
on the network of the route's interface. `MachineTables` and `MachineLookup` study one machine,
`GatewayOutside` the way out of the lab, `Delivery` all machines: packets are forwarded along every choice
the tables leave, one network closer each time.
`Delivered(.., k)` speaks of all choices, demands that one exists at each hop, and ends after exactly
`k` hops, so that it excludes loops.

**Hidden mirror.** `MirrorTopology` and `MirrorFacts` expand a topology, `MirrorSpecs` the specifications of
its machines, `MirrorAddressing` copies the entries (class `AddressBook`), `MirrorSearch` and `MirrorRouting`
carry the search and the routes along a renaming, `Mirrors` and `MirrorTheorem` put both halves of the
expanded lab together, and `MirrorSettings` shows that labs with suitable names have such an expansion.

**Random allocation.** `NetworkAllocation` and `AddressAllocation` are the allocators of `lib/ips.py`,
the random choices being arbitrary; `AddressAssignment` fills the addresses of a topology. `Labs` joins
the chapters: networks drawn, addresses assigned, configurations computed, packets delivered. `SmallLabs`
is a lab that meets all their assumptions, `NestedLabs` one with nested networks, which they exclude.

**Captures.** `Captures` reads pcap files, `TcpFrames` holds the frames and the sequence arithmetic,
`Retransmissions`, `ZeroWindowProbes` and `Handshakes` the detectors, each against a definition.

**Traffic control.** `TrafficControl` renders a device (class `RenderResult`) at the level of words.
`TcCommands` reads the words back and executes them on a model of the kernel that refuses a command
whose parent does not exist. `TcReplay`, `TcRebuild` and `TcTheorem` replay a whole script. `TcOutcome` says
when a script can be replayed and what is in the kernel then, in terms of the parsed device alone, for trees of
classes under an htb, `TcClassless` for the other roots.

**Codecs.** Each format is pinned twice: by its layout, and by what reading what was written gives back.
`Checksums`, `DhcpRequests`, `ClasslessRoutes` and `RouteTexts` (option 121, RFC 3442), `DnsNames`, `Dhcp6`,
`Dhcp6Replies`, `Dhcp6Messages`, `Utf8`, `Base64`, `Ldif`, `LdifText`, `LdifRoundTrip`. For `stubby.yml`,
`SimpleYaml` parses indented text, `YamlLines` and `YamlRoundTrip` say what from any document, `Stubby` and
`StubbyRoundTrip` are its configuration. For `/etc/network/interfaces`, `InterfacesFile` holds renderer and
parser, `InterfacesText` what is written, `InterfacesMeaning`, `InterfacesParsed` and `InterfacesResult` what any
file says and that the parser tells it, `InterfacesParse`, `InterfacesStanza`, `InterfacesRoundTrip` and
`InterfacesTheorem` what of a rendered file comes back.

## What the code does not keep

Some promises fail for some inputs. Each of these is stated with its condition:

- Pruning asks whether some wider route has the same next hop. Longest-prefix lookup is kept exactly when
  the closest kept routes around each route that some address uses have its next hop
  (`RoutePruning.PruningExact`, for any list of routes). For distinct destinations that are all in use,
  this says that the closest route around each dropped one has its next hop (`RoutePruning.ParentsExact`;
  a route that no address uses may break that rule, `RoutePruning.ShadowedRouteIsIdle`). With
  disjoint networks the two agree (`RoutePruning.PruningKeepsLookup`); `NestedLabs.LetterLabLosesLookup`
  is a topology with three nested networks whose routes lose an address.
- Interface numbers are distinct exactly when no declared number is the number of an earlier network
  (`Topologies.NumbersDistinct`, fails for `Topologies.DeclaredAfterCounter`).
- The two sides that name addresses list the same networks for every machine exactly when no network
  lists a machine twice (`MirrorAddressing.ListsAgree`). The names they give to a machine's addresses
  differ exactly when its single network lists it more than once (`MirrorAddressing.NamesAgree`,
  `MirrorAddressing.DuplicateMemberDisagrees`, `MirrorAddressing.DuplicateMemberAgrees`).
- Assigned addresses are complete exactly when no two of them have the same name
  (`AddressAssignment.AddressedExactly`); `a_b_c` may name an address of `a` on `b_c` and one of `a_b` on
  `c` (`AddressAssignment.AmbiguousNames`).
- A range gap of 0 repeats an address (`AddressAllocation.DistinctWhenNoZeroGap`,
  `AddressAllocation.ZeroGapRepeats`).
- The documentation of `find_keepalives` promises empty segments and no zero window probes. A frame that
  is found keeps the promise exactly when it is empty and its peer advertised no zero window before, a SYN
  not counted (`ZeroWindowProbes.KeepaliveExactly`); a zero window before makes it a probe that is found
  (`ZeroWindowProbes.ProbeAmongKeepalives`; for a whole capture `ZeroWindowProbes.KeepalivesApart`).
  Captures with such frames: `ZeroWindowProbes.ProbeIsKeepalive`, `ZeroWindowProbes.ByteIsKeepalive`.
- The probe detector and the definition of a probe differ in the ways listed by
  `ZeroWindowProbes.FoundExactly`: an empty segment at the acknowledged position itself
  (`ZeroWindowProbes.OwnPositionIsMissed`) and one after a zero window in a SYN-ACK alone
  (`ZeroWindowProbes.SynWindowIsMissed`) are probes that it misses.
- `find_handshake` goes on to the ACK of a handshake exactly when the first answer to its SYN has the
  number that the client acknowledges (`Handshakes.MissedExactly`, for a whole capture
  `Handshakes.FoundExactly`; missed in `Handshakes.RestartedIsMissed`), and it may return one that
  `handshake_frames_ok` refuses, exactly when the ACK carries data (`Handshakes.FoundIsAccepted`,
  `Handshakes.DataAckIsRefused`).
- Qdiscs that hang from another qdisc are sorted before it although the comment promises the
  contrary: under an htb, the script replays exactly when there is none (`TcTheorem.RebuildsExactly`; for a
  small device with and without one `TcTheorem.SmallRebuilds`). Under another root it replays exactly when each
  is listed after the one that it hangs from (`TcClassless.ScriptLeaves`, `TcClassless.ShapedIsReplayed`).
- The documentation of `expand_topology` calls clones hidden, without connections and never bridged; they are
  exactly when what is given for them does not say otherwise (`MirrorSpecs.ClonesAreClosed`,
  `MirrorSpecs.GivenBridgeStays`).
- Option 121 with host bits in a destination is decoded by the probe and refused by the parser
  (`ClasslessRoutes.DecoderAgrees`, `ClasslessRoutes.HostBitsAreDecoded`).
- A name with an empty label does not survive the wire (`DnsNames.ReadBackExactly`, `DnsNames.EmptyLabelIsLost`).
- A second default route of a family is lost in the interfaces file (`InterfacesTheorem.ViewKeeps`,
  `InterfacesTheorem.SecondDefaultIsLost`).

## Model

| member | source | states |
|---|---|---|
| `Topologies.AssignInterfaces` | lib/net_config.py:940-953 | the counter loop builds the numbering that the theorems speak of |
| `Topologies.AssignRow` | lib/net_config.py:944-953 | a machine is numbered on exactly the networks that list it, in topology order |
| `Topologies.AssignNumbers` | lib/net_config.py:946-951 | what is declared for a machine determines its numbers: a declared number is taken, any other network gets the count of the networks before, pushed ahead by the declared numbers among them |
| `Topologies.NumbersDistinct` | lib/net_config.py:946-951 | the numbers of a machine are distinct if and only if no declared number is the number of an earlier network; a number from the counter never collides |
| `Topologies.DeclaredAfterCounter` | lib/net_config.py:946-951 | a topology that declares a number the counter has given |
| `RoutingGraph.BuildGraph` | lib/net_config.py:972-979 | the pair loops build the graph |
| `RoutingGraph.GraphEdges` | lib/net_config.py:974-979 | a step from one network to another through a machine is in the graph if and only if that machine is attached to both and they differ |
| `FirstHops.Bfs` | lib/net_config.py:982-998 | the search with a queue and a visited set terminates with the specified first hop |
| `ShortestPaths.FirstHopExact` | lib/net_config.py:982-998 | the search fails if and only if no target is reachable outside the start set; otherwise its answer begins a shortest path, for every order of the start networks |
| `ShortestPaths.ExactHopStep` | lib/net_config.py:982-998 | the first hop toward targets `k + 1` steps away enters a network that is `k` steps away from them |
| `ShortestPaths.OneStepCloser` | lib/net_config.py:982-1004 | the networks of the router so entered are exactly `k` steps away |
| `TopologyConfig.HopUsable` | lib/net_config.py:982-1013 | a hop leaves by a network of the machine and names another machine attached to it |
| `TopologyConfig.CandidateNumbers` | lib/net_config.py:1030-1076 | every candidate route leaves by an interface of its machine |
| `TopologyConfig.EnvIsValid` | lib/net_config.py:940-979 | any topology with unique network names, and any order of its sets, gives a consistent setting |
| `TopologyConfig.ChoicesExist` | lib/net_config.py:982-1004 | every topology with unique network names has orders of its sets and shared networks as the setting demands |
| `TopologyConfigLoops.CollectCandidates` | lib/net_config.py:1027-1076 | the loops over families and networks collect the candidate routes, or raise where a lookup fails |
| `TopologyConfigLoops.BuildMachine` | lib/net_config.py:1024-1099 | one machine's routes and addresses, grouped by interface |
| `TopologyConfigLoops.GetNetConfigFromTopology` | lib/net_config.py:931-1100 | the whole computation, machine by machine, with its exceptions |
| `ConfigMeaning.CandidatesAreMeant` | lib/net_config.py:1024-1076 | the candidates of a machine are, for any data and both families, exactly: a route to each prefix elsewhere through the first hop, if that has an address; a default route through the first hop toward the gateway; and on the gateway itself one through its external hop, on the interface of the first own network in their order that holds it, else on the lowest one |
| `ConfigMeaning.ConfigMeans` | lib/net_config.py:1024-1099 | entry by entry: a configuration has one place for each number up to the highest, the addresses of its network in each, and of these routes the ones without a wider route through the same hop |
| `ConfigMeaning.ConfigsMean` | lib/net_config.py:931-1100 | so has every machine of a lab, and no others are configured |
| `ConfigErrors.RaisesExactly` | lib/net_config.py:955-1076 | no lookup raises if and only if, in each mandatory family, every network that a machine reaches has a prefix and every address that is looked up is there |
| `ConfigErrors.ReturnsExactly` | lib/net_config.py:931-1100 | the function returns if and only if a family is requested and the mandatory one, IPv4 or else IPv6, is complete in that sense |
| `RoutePruning.DroppedIsCovered` | lib/net_config.py:1078-1090 | however routes overlap, a dropped route is covered by a kept one with the same next hop |
| `RoutePruning.PruningKeepsLookup` | lib/net_config.py:1078-1090 | with disjoint destinations and an optional default route, the longest-prefix next hop of every address is the same before and after pruning |
| `RoutePruning.PruningKeepsMatches` | lib/net_config.py:1081-1090 | an address has a route after pruning if and only if it had one before, however routes overlap |
| `RoutePruning.PruningExact` | lib/net_config.py:1078-1090 | for every list of routes, pruning keeps every lookup if and only if the closest kept routes around each route that some address uses have its next hop |
| `RoutePruning.ParentsExact` | lib/net_config.py:1081-1085 | for distinct destinations: the lookups are kept if the closest route around each dropped one has its next hop, and only if, when all routes are in use |
| `RoutePruning.ShadowedRouteIsIdle` | lib/net_config.py:1081-1085 | routes of which one is not in use: the closest ones disagree, and no lookup changes |
| `RoutePruning.NestedRoutesLoseLookup` | lib/net_config.py:1081-1085 | three nested routes, the best one of an address before pruning and the one after it, with another hop |
| `NestedLabs.NestedLabLosesLookup` | lib/net_config.py:1035-1090 | a machine of a lab with nested networks whose candidates are such routes, so that pruning changes a lookup |
| `NestedLabs.NestedLabExists` | lib/net_config.py:1035-1090 | for every prefix length from 2 to 32 there is such a lab |
| `NestedLabs.LetterLabLosesLookup` | lib/net_config.py:1035-1090 | such a lab with names of one letter, its candidates and the lost lookup |
| `MachineTables.KernelRoutes` | lib/net_config.py:1087-1099 | the static routes in a machine's kernel table are the kept candidates, on their interfaces |
| `MachineTables.RouteToIs` | lib/net_config.py:1035-1051 | under complete addressing the route to a network is the one through the first hop |
| `MachineTables.RouteToGatewayIs` | lib/net_config.py:1066-1076 | so is the default route toward the gateway |
| `MachineTables.ConfigsSucceed` | lib/net_config.py:955-970 | complete addressing of the mandatory family raises nothing, however partial IPv6 is next to IPv4 |
| `MachineLookup.RemoteLookup` | lib/net_config.py:1035-1090 | for an address of a network elsewhere the kernel chooses the hop that the search found |
| `MachineLookup.LocalLookup` | lib/net_config.py:1092-1099 | for an address of an own network the kernel puts the packet there |
| `MachineLookup.OutsideLookup` | lib/net_config.py:1053-1090 | for an address outside the lab the kernel chooses the default route |
| `GatewayOutside.LeavesByGateway` | lib/net_config.py:1053-1066 | on the gateway with an external hop, the kernel sends an address outside the lab to that hop, on the own network whose prefix holds it, or on the lowest interface number if none does |
| `GatewayOutside.OutsideIsUnreachable` | lib/net_config.py:1053-1076 | a machine without such a hop, and without one toward the gateway, has no entry at all for an address outside the lab |
| `Forwarding.HopIsCloser` | lib/net_config.py:982-1004 | the router named by the search is one step closer |
| `Delivery.DeliveredAt` | lib/net_config.py:972-1051 | a packet for an address of a network `k` steps away is forwarded exactly `k` times, one step closer each time, by tables that machines computed alone, and is then put on that network |
| `Delivery.ReachableIsDelivered` | lib/net_config.py:972-1051 | every address of every reachable network is delivered to without a loop |
| `Delivery.ArrivesAtGateway` | lib/net_config.py:1006-1076 | a packet for the outside reaches the gateway after exactly one hop more than the distance of its networks, wherever it starts |
| `Delivery.LabIsReady` | lib/net_config.py:931-1100 | the setting of these theorems follows from checks on the topology and its addresses |
| `MirrorTopology.NormalizeTopology` | lib/hidden_mirror.py:44-61 | the second copy of the counter loop gives the numbers of the first |
| `MirrorTopology.NormIsExplicit` | lib/hidden_mirror.py:44-61 | the normalised dictionary is the topology with every number declared |
| `MirrorFacts.ExpandTopology` | lib/hidden_mirror.py:102-107 | the networks of the numbered lab and a clone of each, entered in turn; with fresh names the result is the numbered lab followed by its clone |
| `MirrorFacts.CloneIsThere` | lib/hidden_mirror.py:106-107 | whatever the names, the entry under a suffixed name is the clone of its network at the end |
| `MirrorFacts.OthersAreKept` | lib/hidden_mirror.py:105-107 | and every entry under another name is as it was |
| `MirrorSpecs.ExpandSpecs` | lib/hidden_mirror.py:109-122 | what is given stays, and every other clone has a specification of its own, whatever the names |
| `MirrorSpecs.ClonesAreClosed` | lib/hidden_mirror.py:110-122 | a clone is hidden, without connections and not bridged if and only if what is given for it, under its name or to override, does not say otherwise |
| `MirrorSpecs.ClonesAre` | lib/hidden_mirror.py:110-122 | key by key, the specification made for a clone: what is given to override has exactly the given value; otherwise it is hidden, without connections, neither bridged nor colored, and in everything else like its original |
| `MirrorSpecs.OverrideIsUsed` | lib/hidden_mirror.py:119-120 | a clone that must not get what its original has |
| `MirrorSpecs.OriginalsAreKept` | lib/hidden_mirror.py:109-122 | machines without a specification stay without if and only if none of them has the name of a clone; with fresh names all machines of the lab keep what they have |
| `MirrorSpecs.GivenBridgeStays` | lib/hidden_mirror.py:120-121 | an override that leaves a clone bridged |
| `MirrorFacts.NetsOfExpanded` | lib/hidden_mirror.py:105-107 | machines of the lab keep their networks, clones have the cloned ones |
| `MirrorFacts.NumbersExpanded` | lib/hidden_mirror.py:105-107 | machine and clone keep the interface numbers of the lab |
| `MirrorSearch.FirstHopSame` | lib/net_config.py:982-998 | the search commutes with an injective renaming of networks and machines |
| `MirrorRouting.SameConfig` | lib/net_config.py:1024-1099 | a machine whose surroundings are a renamed copy has the configuration of its original |
| `MirrorAddressing.ListMachines` | lib/hidden_mirror.py:64-71 | the dictionary of networks by machine |
| `MirrorAddressing.MachinesByNetIs` | lib/hidden_mirror.py:64-71 | without duplicate members it lists the machines and networks of the interface numbering, in the same order |
| `MirrorAddressing.ListsAgree` | lib/hidden_mirror.py:64-71 | for every topology: it lists the networks of the interface numbering for all machines if and only if no network lists a machine twice |
| `MirrorAddressing.NamesAgree` | lib/hidden_mirror.py:138-144 | for every topology and machine: both give its addresses the same names if and only if it is not the case that its only network lists it more than once |
| `MirrorAddressing.DuplicateMemberDisagrees` | lib/hidden_mirror.py:69-70 | a topology on which the names differ |
| `MirrorAddressing.DuplicateMemberAgrees` | lib/hidden_mirror.py:69-70 | a topology on which the lists differ and the names do not |
| `MirrorAddressing.AddressBook.CopyAddressing` | lib/hidden_mirror.py:126-144 | the attributes set, one by one and each read from the container as it then is; a missing one is reported, and what was copied before it stays |
| `MirrorAddressing.CopyIs` | lib/hidden_mirror.py:135-144 | pairs with fresh targets copy every entry and change no other |
| `MirrorAddressing.CopySucceeds` | lib/hidden_mirror.py:135-144 | such pairs are copied if and only if all their sources are there |
| `MirrorTheorem.MachineUnchanged` | lib/hidden_mirror.py:83-144 | in the expanded lab every original machine is configured as in the lab alone |
| `MirrorTheorem.CloneMirrors` | lib/hidden_mirror.py:83-144 | every clone is configured as its original in the lab without gateway |
| `MirrorTheorem.MirrorIsFaithful` | lib/hidden_mirror.py:83-144 | when the lab is configured, with its gateway and without, so is its expansion, and both of the above hold for all machines |
| `MirrorSettings.MirroringExists` | lib/hidden_mirror.py:83-144 | a lab with fresh names and complete entries has an expansion, with copied entries and matching choices, that meets the assumptions of these theorems |
| `MirrorSettings.SmallMirror` | lib/hidden_mirror.py:83-144 | a network with two machines is such a lab |
| `NetworkAllocation.IndicesExact` | lib/ips.py:128-131 | the indices are exactly the aligned blocks inside the box |
| `NetworkAllocation.IndexIsAllowed` | lib/ips.py:133-146 | the indices of all spans number exactly the blocks of the search space |
| `NetworkAllocation.CountIs` | lib/ips.py:140-146 | the total of the spans is the number of blocks of the search space |
| `NetworkAllocation.PrivateMeans` | lib/ips.py:97-104 | a block is in a private range if and only if it lies in 10.0.0.0/8, 172.16.0.0/12 or 192.168.0.0/16, for IPv6 in fd00::/8 |
| `NetworkAllocation.PickIndex` | lib/ips.py:152-162 | every random draw gives an index of a span; the last return is never reached |
| `NetworkAllocation.CandidatesAre` | lib/ips.py:165-167 | the candidates are exactly the free blocks |
| `NetworkAllocation.PickEnumerated` | lib/ips.py:164-170 | the enumerating case fails if and only if no block is free |
| `NetworkAllocation.PickProbing` | lib/ips.py:172-177 | the probing case returns only free blocks; it gives up only after a block that is taken |
| `NetworkAllocation.PickOne` | lib/ips.py:109-177 | each outcome of a request, errors included |
| `NetworkAllocation.RandomNetworks` | lib/ips.py:180-190 | blocks of the requested lengths, in the search space, pairwise disjoint and disjoint from the exclusions; or the failure of the first mask that cannot be served |
| `NetworkAllocation.AllocatedMeans` | lib/ips.py:180-190 | address by address: the blocks have the requested lengths and aligned bases inside the given network, in private ranges if asked for, and share no address with each other or with an exclusion |
| `AddressAllocation.RandomAddresses` | lib/ips.py:259-298 | different usable hosts outside the exclusions; in a network of up to 65536 addresses it fails if and only if there are too few, in a larger one only after an address that is taken |
| `AddressAllocation.HostsAre` | lib/ips.py:242-252 | the usable hosts: without network and broadcast address up to /30, without the first address up to /126 |
| `AddressAllocation.PickedMeans` | lib/ips.py:259-298 | address by address, the ones returned are different, inside the network with its prefix length, usable, not among the excluded ones and in no excluded network |
| `AddressAllocation.NextRoom` | lib/ips.py:375-377 | a start within its bound leaves room for the next range |
| `AddressAllocation.TryPlaceRanges` | lib/ips.py:381-411 | a placement from left to right never runs out of room; what it returns has the exact gaps, is ordered, and its ends avoid the exclusions; it fails only for a last range that does not fit or an end that is excluded |
| `AddressAllocation.SuffixSums` | lib/ips.py:370-373 | the sums filled in place from the right are those of the remaining gaps |
| `AddressAllocation.RandomAddressesWithRange` | lib/ips.py:329-463 | ranges with their exact gaps, strictly ordered inside the network, then different extras outside every range |
| `AddressAllocation.RangesMean` | lib/ips.py:329-342 | the guarantees of its documentation, place by place in the returned list: each pair of ends is apart by its gap, ranges follow each other without overlap, extras are outside all of them |
| `AddressAllocation.DistinctWhenNoZeroGap` | lib/ips.py:329-342 | the addresses are all different if and only if no gap is 0 |
| `AddressAllocation.ZeroGapRepeats` | lib/ips.py:329-342 | a range of gap 0 that lists an address twice |
| `AddressAssignment.AssignAddresses` | lib/ips.py:500-513 | every machine gets on each of its networks a host that no machine before it has there, under the documented name; it stops only at a network that is missing, a small one that has no host left, or a large one in which an address was assigned before |
| `AddressAssignment.AssignedIsAddressed` | lib/ips.py:516-544 | when names are unambiguous the result is a complete addressing, for every outcome of the choices |
| `AddressAssignment.AddressedExactly` | lib/ips.py:500-544 | on disjoint networks the assigned addresses are a complete addressing if and only if no two of them have the same name |
| `AddressAssignment.AmbiguousNames` | lib/ips.py:512-513 | a lab whose machines and networks differ while two of its addresses have the same name |
| `Labs.DrawnLabIsReady` | lib/net_config.py:899-1100 | a lab with drawn networks and assigned addresses is configured without an exception |
| `Labs.DrawnLabDelivers` | lib/net_config.py:972-1051 | and every reachable network is delivered to, in at most the number of steps that reach it |
| `SmallLabs.SmallLabIsReady` | lib/net_config.py:899-1100 | three machines on two networks meet all these assumptions |
| `SmallLabs.LetterLabIsReady` | lib/net_config.py:899-1100 | such a lab with names of one letter |
| `Captures.IterPcap` | lib/pcap_gen.py:54-70 | the packets are those whose records make up the file after its header, in the byte order of its magic number, up to the first truncated one, numbered from one |
| `Captures.ByteOrderIs` | lib/pcap_gen.py:33-56 | a file is a pcap file, of either byte order, exactly when it starts with the four bytes of the microsecond or nanosecond magic number in that order |
| `Captures.Read32Is` | lib/pcap_gen.py:63 | the numbers of a record in both byte orders, byte by byte |
| `Captures.WrittenIsUnique` | lib/pcap_gen.py:61-70 | only one list of packets makes up a file, so that reading inverts writing |
| `Captures.ParseAllTcpFrames` | lib/pcap_gen.py:538-596 | frames keep the numbers of their packets |
| `Captures.ReaderNumbers` | lib/pcap_gen.py:54-70 | the numbers of the frames strictly increase |
| `TcpFrames.SeqLtIsLess` | lib/pcap_gen.py:916-918 | two positions less than the number space apart compare alike wrapped and unwrapped if and only if they are at most half of it apart |
| `TcpFrames.FrameByNumber` | lib/pcap_gen.py:941-948 | the first frame with a number, if there is one |
| `Retransmissions.FindRetransmissions` | lib/pcap_gen.py:1076-1093 | the pass with one number by stream returns the frames of its specification |
| `Retransmissions.HighestTracks` | lib/pcap_gen.py:1081-1092 | the wrapped number kept for a stream is the furthest position reached, at every moment |
| `Retransmissions.FoundIsRetransmitted` | lib/pcap_gen.py:1076-1093 | within the window, a frame is reported if and only if it is a data segment that starts below a position already reached, for any number of wraps |
| `Retransmissions.RetransmissionsAreFound` | lib/pcap_gen.py:1076-1093 | the same for the returned numbers |
| `Retransmissions.InOrderIsNotFound` | lib/pcap_gen.py:1086-1092 | a segment that starts exactly where the furthest one of its stream ended is never reported |
| `Retransmissions.LastByteAgain` | lib/pcap_gen.py:1086-1092 | of two segments of a stream, the second is reported if it starts at the last byte of the first, and not if it starts after it, a SYN counting for one |
| `Retransmissions.SourceFilters` | lib/pcap_gen.py:1083-1090 | asking for a source gives exactly the frames of that source |
| `ZeroWindowProbes.ClosedExact` | lib/pcap_gen.py:643-665 | what "advertised a zero window before" means |
| `ZeroWindowProbes.LastAckExact` | lib/pcap_gen.py:643-657 | what "last acknowledged" means |
| `ZeroWindowProbes.IsZeroWindowProbe` | lib/pcap_gen.py:625-671 | the scan up to the first larger number decides the definition for the first frame of that number |
| `ZeroWindowProbes.ProbeSegments` | lib/pcap_gen.py:1031-1054 | the pass with two dictionaries returns the frames that its conditions select |
| `ZeroWindowProbes.FoundExactly` | lib/pcap_gen.py:1031-1061 | a frame is found if and only if it is a probe by the definition and four listed restrictions hold |
| `ZeroWindowProbes.SourceFilters` | lib/pcap_gen.py:1045 | asking for a source gives exactly the frames of that source, probes and keepalives alike |
| `ZeroWindowProbes.OwnPositionIsMissed` | lib/pcap_gen.py:1045-1052 | a capture with a probe by the definition, an empty segment at the acknowledged position, that is not found |
| `ZeroWindowProbes.SynWindowIsMissed` | lib/pcap_gen.py:1045-1054 | a capture with a probe after a zero window in a SYN-ACK alone, that is not found |
| `ZeroWindowProbes.EachIsProbe` | lib/pcap_gen.py:1057-1061 | each returned number satisfies the definition on the same capture |
| `ZeroWindowProbes.OrderMatters` | lib/pcap_gen.py:645-646 | without increasing numbers it need not |
| `ZeroWindowProbes.ProbeAmongKeepalives` | lib/pcap_gen.py:1031-1067 | a keepalive found is also found as a zero window probe if and only if its peer advertised a zero window before, in a segment other than a SYN |
| `ZeroWindowProbes.KeepaliveExactly` | lib/pcap_gen.py:1064-1067 | a keepalive found is what the documentation describes if and only if it is empty and its peer advertised no zero window before |
| `ZeroWindowProbes.KeepalivesApart` | lib/pcap_gen.py:1057-1067 | the two detectors return no common frame if and only if no keepalive found follows a zero window of its peer |
| `ZeroWindowProbes.ProbeIsKeepalive` | lib/pcap_gen.py:1064-1067 | a capture whose keepalive is a probe |
| `ZeroWindowProbes.ByteIsKeepalive` | lib/pcap_gen.py:1031-1067 | a capture whose keepalive carries a byte |
| `Handshakes.FindHandshake` | lib/pcap_gen.py:961-986 | the first handshake that goes on from the first answer to its SYN, or none if there is none |
| `Handshakes.HandshakeIs` | lib/pcap_gen.py:966-985 | a handshake field by field: flags, both ends of the three frames, client and server asked for, and each number the one after that of the frame before, wrapped |
| `Handshakes.AnswersAre` | lib/pcap_gen.py:973-1008 | so are the answers that the search and the check accept |
| `Handshakes.HandshakeFramesOk` | lib/pcap_gen.py:989-1011 | each of the four answers is true if and only if the numbered frames satisfy its condition |
| `Handshakes.FoundIsAccepted` | lib/pcap_gen.py:961-1011 | a handshake found is accepted if and only if its ACK is empty |
| `Handshakes.DataAckIsRefused` | lib/pcap_gen.py:961-1011 | a capture with a handshake that is found and refused |
| `Handshakes.MissedExactly` | lib/pcap_gen.py:970-985 | the search goes on to the ACK of a handshake if and only if the first answer to its SYN has the number of the answer that the client acknowledges |
| `Handshakes.FoundExactly` | lib/pcap_gen.py:961-986 | it finds a handshake in a capture if and only if there is one of that kind |
| `Handshakes.RestartedIsMissed` | lib/pcap_gen.py:970-985 | a capture with a handshake, in which none is found |
| `Sorting.SortByIs` | lib/tc.py:717-724 | sorting keeps the elements, orders the keys and keeps the order of equal keys |
| `TrafficControl.KeepSafe` | lib/tc.py:591-598 | the filter of words |
| `TrafficControl.SafeTokensKeep` | lib/tc.py:591-598 | exactly the safe words are kept |
| `TrafficControl.MeasureDepth` | lib/tc.py:631-637 | the bounded climb to the root |
| `TrafficControl.RenderResult.RenderDevice` | lib/tc.py:686-747 | the commands of a device are appended in the documented order, earlier commands stay |
| `TcOutcome.ScriptLeaves` | lib/tc.py:686-747 | for a device with an htb at its root: the script replays if and only if every inner qdisc hangs from a class, and then the kernel has, entry by entry, its classes, qdiscs and hook, each filter whose parent is `ingress` or begins with `ffff:` on the hook, each other one under its own parent or else under the root, and nothing else |
| `TcOutcome.HookedIsReplayed` | lib/tc.py:728-745 | a device with a hook of either kind, a filter of the hook and one without a parent: its script is replayed, and where both filters are afterwards |
| `TcClassless.ScriptLeaves` | lib/tc.py:686-747 | the same for a root without classes, such as a netem: the script replays if and only if each inner qdisc hangs from the root or from one listed before it that is no htb |
| `TcClassless.ShapedIsReplayed` | lib/tc.py:722-726 | three qdiscs one below the other whose script replays in one order of the list and not in the other |
| `TcCommands.ReadsQdisc` | lib/tc.py:705-707 | the words of a qdisc command say what the model holds |
| `TcCommands.ReadsHook` | lib/tc.py:699-704 | the one command of a clsact or ingress hook adds that hook |
| `TcCommands.ReadsClass` | lib/tc.py:718-721 | so do those of a class command |
| `TcCommands.ReadsFilter` | lib/tc.py:640-683 | and where a filter command hangs |
| `TcReplay.ParentIsShallower` | lib/tc.py:631-637 | a class is deeper than its parent |
| `TcReplay.SortedOrdered` | lib/tc.py:717 | in the emitted order every class comes after its parent |
| `TcReplay.ReplayClasses` | lib/tc.py:717-721 | replaying classes in such an order rebuilds exactly them |
| `TcRebuild.ReplayQdiscs` | lib/tc.py:725-726 | replaying qdiscs one after the other succeeds if and only if each hangs from a class, or from a qdisc there before it that brings its own, and leaves exactly them |
| `TcTheorem.SortedAttachedLast` | lib/tc.py:722-724 | qdiscs that hang from a class come after all others |
| `TcTheorem.RebuildsAttached` | lib/tc.py:686-747 | replaying a device whose rendered qdiscs hang from htb classes is refused nowhere, and leaves exactly its htb classes, rendered qdiscs, hook and filters |
| `TcTheorem.RebuildsExactly` | lib/tc.py:686-747 | the replay succeeds if and only if every rendered inner qdisc hangs from an htb class |
| `TcTheorem.SmallRebuilds` | lib/tc.py:686-747 | a device that meets the assumptions, with a qdisc under its inner one and without: the script replays only without |
| `Checksums.Checksum` | lib/dhcp_probe.py:56-62 | the sum of the padded words, folded until it fits; the loop terminates |
| `Checksums.Accepted` | lib/dhcp_probe.py:56-62 | data has checksum zero if and only if its words sum to a positive multiple of 65535 |
| `Checksums.FilledIsAccepted` | lib/dhcp_probe.py:90-98 | data of any length whose aligned zero field is filled with the checksum has checksum zero, also when UDP replaces 0 by 0xffff |
| `Checksums.OnlyTheChecksum` | lib/dhcp_probe.py:56-62 | no other value of the field would do |
| `DhcpRequests.OptionsAreRead` | lib/dhcp_probe.py:72-81 | read by the loop of the probe, the options of a request are its type, its host name cut to 63 bytes, its address, its lease and the parameter list, whatever follows the end marker |
| `DhcpRequests.IterateOptions` | lib/dhcp_probe.py:155-171 | that loop, with its padding, its end marker and values cut at the end of the bytes |
| `DhcpRequests.AnyOptionsAreRead` | lib/dhcp_probe.py:155-171 | any options are read in order, whatever zero bytes are between them and whatever follows |
| `DhcpRequests.EndIsRead` | lib/dhcp_probe.py:157-167 | after the end marker nothing is read; of an option that is cut short, what is there of its value |
| `DhcpRequests.BuildRequest` | lib/dhcp_probe.py:65-100 | the frame, byte by byte: a broadcast from the source address, an IP header without source and with time to live, protocol and lengths, the UDP ports 68 and 67, checksums that a receiver accepts with the pseudo header of that IP header, the UDP one never zero, the BOOTP fields, the magic number, and options that are read as those of the query |
| `RouteTexts.RenderClasslessRoutes` | lib/dhcp.py:761-774 | the text of length, significant bytes and router of every route |
| `RouteTexts.TextIsLaid` | lib/dhcp.py:766-774 | the text of a route, byte by byte: length, as many bytes of the destination as the length needs, and router |
| `RouteTexts.TextsAreJoined` | lib/dhcp.py:774 | routes are separated by a comma and a space |
| `RouteTexts.ParseClasslessRoutes` | lib/dhcp.py:777-798 | the routes of a well-formed text, none of a malformed one |
| `RouteTexts.IntIs` | lib/dhcp.py:782 | numbers may have a sign and single underscores, as `int` allows |
| `ClasslessRoutes.ParseNumbers` | lib/dhcp.py:785-798 | the loop over its numbers |
| `ClasslessRoutes.RouteIsLaid` | lib/dhcp.py:766-773 | the numbers of a route, byte by byte |
| `RouteTexts.ParseRendered` | lib/dhcp.py:761-798 | parsing the rendered text of any list of routes returns it, whatever spaces and commas surround it |
| `RouteTexts.AcceptedIsRendered` | lib/dhcp.py:777-798 | a text is accepted if and only if its numbers are those of the rendered routes that are returned |
| `ClasslessRoutes.ParseRendered` | lib/dhcp.py:761-798 | the same for the numbers of a rendered list |
| `ClasslessRoutes.AcceptedIsRendered` | lib/dhcp.py:785-798 | numbers are accepted if and only if they are the rendering of the routes returned |
| `ClasslessRoutes.DecodeClasslessRoutes` | lib/dhcp_probe.py:107-121 | the decoder of the probe |
| `ClasslessRoutes.DecoderAgrees` | lib/dhcp_probe.py:107-121 | the parser accepts exactly the bytes that the probe decodes to the end into networks without host bits, and then both yield the same routes |
| `ClasslessRoutes.HostBitsAreDecoded` | lib/dhcp_probe.py:107-121 | bytes that only the probe accepts |
| `DnsNames.ReadNames` | lib/ipv6_probe.py:87-104 | the loop over labels and names |
| `DnsNames.OwnerKeyIs` | lib/dns.py:51-53 | every name is its comparison form in some case, then dots, between white space, and the form is that part in lower case |
| `DnsNames.SplitIs` | lib/dns.py:420 | labels hold no dots and make up the name |
| `DnsNames.LabelsWireIs` | lib/dns.py:420 | the wire form is each label after its length |
| `DnsNames.CutName` | lib/ipv6_probe.py:96-104 | the labels before one that is cut short are still a name |
| `DnsNames.FirstError` | lib/dns.py:420 | the error of the first label that cannot be written, its length before its characters, or none if all can |
| `DnsNames.DecodeWires` | lib/dns.py:415-420 | decoding the wire forms of any names without empty labels gives their comparison forms, the root excepted |
| `DnsNames.ReadBackExactly` | lib/dns.py:415-420 | one name survives if and only if it has no empty label |
| `DnsNames.EmptyLabelIsLost` | lib/dns.py:415-420 | `a..b` comes back as two names |
| `Dhcp6.IterOptions` | lib/ipv6_probe.py:167-175 | the iteration terminates with the whole options at the start of the bytes |
| `Dhcp6.OptionIs` | lib/ipv6_probe.py:152-153 | code, length and value of an option, byte by byte |
| `Dhcp6.IterEncoded` | lib/ipv6_probe.py:152-175 | encoded options are iterated as they were, whatever follows |
| `Dhcp6.EncodeIterated` | lib/ipv6_probe.py:167-175 | any bytes are the encoding of the options found and a rest without a whole one |
| `Dhcp6Replies.ParseDhcp6` | lib/ipv6_probe.py:178-219 | the fields of a reply; its addresses are those of its IA_NAs in order |
| `Dhcp6Replies.BuildDhcp6` | lib/ipv6_probe.py:156-164 | the message of a query |
| `Dhcp6Messages.BuiltIs` | lib/ipv6_probe.py:156-164 | its bytes: header, client identifier, elapsed time zero, a request for DNS servers and domain lists, and an IA_NA without timers if asked for |
| `Dhcp6Messages.HeaderIs` | lib/ipv6_probe.py:159 | type and transaction, byte by byte |
| `Dhcp6Messages.MessageIsParsed` | lib/ipv6_probe.py:178-219 | a message with any options is parsed into the last identifiers, status and preference, and all IA_NAs, addresses, servers, names and codes in order, whatever bytes follow |
| `Dhcp6Messages.BuiltIsParsed` | lib/ipv6_probe.py:156-219 | parsing a built message returns its fields |
| `Dhcp6Messages.NestedOptions` | lib/ipv6_probe.py:193-206 | an IA_NA with any timers and options is read with these timers, the addresses of its options in order, and its last status |
| `Utf8.DecodeEncoded` | lib/openldap.py:148-149 | text survives UTF-8 |
| `Utf8.EncodeDecoded` | lib/openldap.py:148-149 | only the encoding of a text is decoded into it |
| `Base64.B64Decode` | lib/openldap.py:148-151 | the decoder of the standard library, foreign characters skipped |
| `Base64.EncodeIs` | lib/openldap.py:801 | groups of three bytes as a number of 24 bits, written with four symbols of the alphabet, the last one padded |
| `Base64.NoiseIsSkipped` | lib/openldap.py:149 | ASCII characters outside the alphabet make no difference, wherever they stand |
| `Base64.UnpaddedExactly` | lib/openldap.py:149-151 | symbols without padding are decoded if and only if they come in groups of four |
| `Base64.DecodeEncoded` | lib/openldap.py:801 | bytes survive base64 |
| `Texts.SplitJoined` | lib/openldap.py:116 | lines without breaks are split as they were joined |
| `Texts.LineEnds` | lib/openldap.py:116 | a line ends at each of the ten breaks, at a carriage return together with the line feed after it, and at the end |
| `Texts.StripIs` | lib/openldap.py:146 | a stripped text is the text without the white space around it |
| `Texts.DigitsAre` | lib/dns.py:684 | numbers are written in decimal, the most significant digit first |
| `Ldif.UnfoldLines` | lib/openldap.py:113-123 | the last line is extended in place, comments dropped |
| `LdifText.UnfoldIs` | lib/openldap.py:113-123 | folding a line anywhere and putting comments between lines makes no difference |
| `Ldif.ParseLdif` | lib/openldap.py:126-172 | blocks are flushed at blank lines and at the end |
| `Ldif.RenderEntryLdif` | lib/openldap.py:804-811 | the text of an entry, blank line included |
| `LdifText.LineIs` | lib/openldap.py:796-801 | a value is written as it is if and only if its characters are printable ASCII, the first no space, colon or less-than sign, the last no space |
| `LdifText.EntryIs` | lib/openldap.py:804-811 | the DN, then one line for each value in order |
| `LdifRoundTrip.LineIsRead` | lib/openldap.py:796-801 | a value of any Unicode text is read back from its line, plain or in base64 |
| `LdifRoundTrip.ParseRendered` | lib/openldap.py:113-172 | parsing concatenated renderings returns the entries, values grouped by name in order |
| `LdifText.FoldedIsParsed` | lib/openldap.py:113-172 | the same for a text that folds and comments these lines in any way and goes on with lines that are no entry, as `ldapsearch` does |
| `LdifText.OtherLines` | lib/openldap.py:142-164 | lines without a colon and `version` lines say nothing, and only the first DN of a block is one |
| `LdifRoundTrip.GroupedIs` | lib/openldap.py:161 | each name has exactly the values given for it |
| `SimpleYaml.ParseSimpleYaml` | lib/dns.py:1121-1190 | five functions that call each other terminate, by the lines left and then their order, with the value of the text |
| `SimpleYaml.ParseSequence` | lib/dns.py:1145-1154 | the loop over the items of one indentation, some of them mappings of their own |
| `SimpleYaml.ParseMapping` | lib/dns.py:1171-1186 | the loop over the keys of one indentation; other lines are skipped or end it |
| `Stubby.RenderStubbyYml` | lib/dns.py:670-691 | the text of a configuration |
| `Stubby.ParseStubbyYml` | lib/dns.py:1194-1213 | the settings found in a value, or the error that reading them raises |
| `YamlLines.TextIsRead` | lib/dns.py:1101-1130 | the lines of any text are read as what they say, without comments, spaces at their ends and lines that say nothing |
| `YamlRoundTrip.NodesAreParsed` | lib/dns.py:1145-1169 | a sequence of any scalars and mappings, nested to any depth and indented by any steps, is parsed up to where it ends |
| `YamlRoundTrip.PairsAreParsed` | lib/dns.py:1132-1187 | so is a mapping of any scalars, empty values, sequences and mappings, the last value of a key counting |
| `YamlRoundTrip.DocumentIsParsed` | lib/dns.py:1121-1190 | a text that says such a mapping, with comments anywhere, is parsed into it |
| `YamlRoundTrip.ListIsParsed` | lib/dns.py:1121-1190 | so is one that says a sequence |
| `YamlRoundTrip.MalformedIsSkipped` | lib/dns.py:1171-1179 | lines of a mapping that are deeper than it or no keys are skipped |
| `YamlLines.ScalarIs` | lib/dns.py:1083-1095 | words for truth values in any case, integers and other texts |
| `YamlLines.TextInQuotes` | lib/dns.py:1087-1088 | a text in quotes is that text |
| `YamlLines.NegativeIs` | lib/dns.py:1089-1090 | negative integers |
| `StubbyRoundTrip.ParseRendered` | lib/dns.py:670-691 | parsing a rendered text gives the server with its port, name and pins, and the addresses to listen on, for lists of any length |
| `StubbyRoundTrip.ValueIsParsed` | lib/dns.py:670-691 | option by option, the value of a rendered text: stub resolution over TLS only, authentication required if strict, padding, privacy, round robin, timeout, CA file if given, and the lists |
| `StubbyRoundTrip.DefaultsAre` | lib/dns.py:1203-1208 | a server without a port is asked on 853, without anything else it has no address and no pins |
| `StubbyRoundTrip.RaisesFor` | lib/dns.py:1203-1208 | a port that is no integer and pins that are no list raise |
| `StubbyRoundTrip.BeforeAtIs` | lib/dns.py:1212 | the port after an `@` sign is dropped |
| `InterfacesFile.RenderInterfaces` | lib/net_config.py:743-779 | the lines of all entries, or the error of an entry without address |
| `InterfacesText.RenderedIs` | lib/net_config.py:707-779 | it raises if and only if an entry has no address; else the lines are, in order: loopback; for each entry `auto`, and for each family with an address a stanza with the first address, the others, a gateway for each default route, the other routes, with the device for a link-local next hop, and the routes of the other family if that has no address |
| `InterfacesFile.ParseInterfaces` | lib/net_config.py:402-600 | the line loop and the assembly by interface number, for every order of the set of names |
| `InterfacesParsed.RunMeans` | lib/net_config.py:402-540 | for any lines: what the parser holds is, for each name and family, what the lines of its static stanzas say, the last address, netmask and gateway and all commands in order; its errors are the wrong lines |
| `InterfacesResult.FileMeans` | lib/net_config.py:402-600 | for any file: one entry for each interface it mentions, by number, static with the addresses and routes of the families that are not dynamic, else dynamic or unconfigured; and as errors the wrong lines and the netmasks that are not understood |
| `InterfacesMeaning.NetworkIs` | lib/net_config.py:507-523 | the network of a route is the aligned block that holds the address written |
| `InterfacesStanza.RunStanza` | lib/net_config.py:718-740 | a rendered stanza fills one bucket and nothing else |
| `InterfacesStanza.RunHidden` | lib/net_config.py:432-434 | an IPv6 stanza is skipped without an error when only IPv4 is parsed |
| `InterfacesRoundTrip.AfterAt` | lib/net_config.py:402-540 | after any number of entries each is recorded under its own name, without errors |
| `InterfacesTheorem.SortedNames` | lib/net_config.py:542-550 | the sorted names are the configured interfaces in order, whatever the order of the set |
| `InterfacesTheorem.ParseRendered` | lib/net_config.py:332-600 | parsing a rendered file gives no error and the entries without the unconfigured ones, seen from the parsed families |
| `InterfacesTheorem.ViewKeeps` | lib/net_config.py:552-600 | the addresses are all kept; the routes are all kept if and only if no family with an address has two default routes |
| `InterfacesTheorem.SecondDefaultIsLost` | lib/net_config.py:552-600 | an entry with two default routes that loses one |
| `InterfacesTheorem.ViewOfIpv4` | lib/net_config.py:552-600 | for IPv4 entries both parsers agree: default route first, the others in order |

## Left out

- Python sets have no order: the orders of `start_nets`, of the shared networks and of the known
  interface names are parameters, and results hold for all of them.
- Random choices are arbitrary; probability and uniformity are not modelled. Loops of 1000 attempts may
  give up.
- Delivery.DeliveredAt: speaks of one family that is addressed completely; partial IPv6 next to IPv4 is
  modelled in the configuration, but reachability is not promised for it.
- MirrorTheorem.MirrorIsFaithful: is about the IPv4 entries that `copy_addressing` copies, and about
  topologies.
- AddressAllocation.RandomAddressesWithRange: takes gaps that are not negative; with a negative one the ends of
  a range change places, and the documentation speaks of none.
- Labs.DrawnLabDelivers: is stated for IPv4 labs.
- Retransmissions.FoundIsRetransmitted: positions are within half the number space of the furthest one;
  `TcpFrames.SeqLtIsLess` says why.
- Captures.IterPcap: is about pcap files; pcapng files, timestamps and link types are left out.
- Captures.ParseAllTcpFrames: decoding a packet into a frame is a parameter.
- TrafficControl.RenderResult.RenderDevice: the parameter words of a qdisc and the words of a filter after its
  place are given; the report of skipped entries is left out, and so is `render_mirror_script`, which
  concatenates devices.
- TcTheorem.RebuildsExactly: the kernel model refuses a missing parent, a taken handle, identifier or place,
  and a second hook; it does not check the parameters of a qdisc.
- RouteTexts.ParseClasslessRoutes: digits are the ASCII ones.
- DhcpRequests.BuildRequest: takes numbers that fit their fields, which `struct.pack` demands.
- DnsNames.DecodeWires: names are ASCII text given by its bytes; how bytes that are not UTF-8 are replaced
  is left out.
- Dhcp6Replies.ParseDhcp6: keeps texts and addresses as bytes.
- Dhcp6Messages.MessageIsParsed: domain lists hold names without empty labels.
- LdifRoundTrip.ParseRendered: what Python puts in place of invalid UTF-8 is a parameter.
- InterfacesFile.ParseInterfaces: works on the words of the joined files; the search for the `source` line and
  the spelling of addresses and netmasks, which belongs to `ipaddress`, are left out.
- SimpleYaml.ParseSimpleYaml: letters, digits and integers are the ASCII ones.
- Stubby.ParseStubbyYml: how Python prints a list or a dictionary, and the spellings of integers with
  underscores or a plus sign, are left out.
- StubbyRoundTrip.ParseRendered: names without `#` and line breaks, pins and addresses that the parser does not
  take for numbers, truth values or keys.
- YamlRoundTrip.DocumentIsParsed: the texts of a document hold no `#`; comments may follow any line.
- `random_mac_address`, the parsers of tool output, and everything that
  sends, executes or hashes are not part of this model.
