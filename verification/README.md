# Lasitan-Cluster: a verified model

Lasitan-Cluster is a user-space WireGuard stack with a mesh control plane on top. This project models the
parts of it whose correctness is not visible in any single function and proves what they promise, in Dafny.

| files | part of the system |
|---|---|
| `Prefixes`, `TrieModel`, `AllowedIPs` | the cryptokey routing table: a path-compressed trie changed in place refines a map with longest-prefix match |
| `MeshEnrol`, `MeshSpec`, `MeshPlanner`, `MeshRouting`, `MeshNeighbours`, `MeshExamples` | the mesh planner: address conflicts, the passes that fill peers and allowed prefixes, and the routing theorems about what they fill in |
| `Noise`, `Transcript`, `Handshake`, `NonceCounter` | handshake messages and what they bind, keypair slots and the index table of a device; two devices in an honest exchange; nonces under interleaved senders |
| `Checksum`, `GsoSplit`, `Gro`, `GroAccounting`, `Division`, `UdpBatch` | segmentation offload: Internet checksums, splitting and merging of packets, what is written for a merged packet and how it splits again, and UDP batches |
| `HotApply`, `PlanConfig`, `TunnelRoutes`, `ConfigPush`, `RetryLoop` | applying a configuration as a script of differences, when the mesh plan's configuration can be applied exactly, the routes that go with it, pushing configurations to agents, and retrying one that failed |
| `PathSelection`, `PortSpans`, `PortForwards` | gateway selection with hysteresis, and port forwards from submission to sockets |
| `Common` | shared vocabulary |

How the models are built:

- Code that changes things step by step is imperative Dafny: the trie is made of heap nodes with parent pointers,
  the planner, the device, the batch and the applier are objects whose methods update their fields, segments are
  written into arrays. Each method is proved against a function or relation on values, and the theorems are about those.
- Concurrent code (the nonce counter, the configuration push, the retry loops) is a state machine whose steps are the individual
  atomic operations; the theorems hold in every state of every interleaving.
- A Go map is walked in an arbitrary order: the loops pick any remaining key, so the results hold for every order.
- Wrap-around is written out where the source relies on machine integers: 16-bit lengths and products, 32-bit
  sequence numbers, the 64-bit accumulator with its carry, the 64-bit nonce counter.
- Cryptography is a record of unspecified functions with two laws: Diffie-Hellman commutes, and opening undoes sealing.
  `Transcript.StateBindsInputs` also takes hashing and key derivation to be free of collisions.
- Randomness, clocks, round-trip times, liveness and the outcome of system calls are parameters.

Findings where a promise needs a condition:

- `NonceCounter.NoncesAreUnique`: no nonce below the limit is assigned twice if and only if at most 2^13 senders are
  between the atomic add and the store; `OneMoreSenderRepeatsANonce` gives the run with one more.
- `Handshake.Device.CreateMessageInitiation` and `CreateMessageResponse`: the index table stays consistent exactly when
  the index drawn is non-zero (or a failed draw leaves nothing behind); `AZeroDraw` and `AZeroAnswer` are runs where it is zero.
- `HotApply.ApplyDesired`: the apply succeeds if and only if no keepalive exceeds 65535, no peer that is live is wanted with a
  negative one, and no endpoint that is written is one the bind does not understand. A negative keepalive is not written for a
  new peer, so the first apply passes and leaves 0; a second one is then refused if and only if a keepalive is negative
  (`ApplyTwice`, `ANegativeKeepalive`). A plan leads there exactly where a link's negative keepalive sticks on a pair that is
  dialed at an endpoint (`PlanConfig.NegativeIffStuck`); `ANegativeLink` is a mesh with one.
- `HotApply.ExactIffDisjoint`: a successful apply leaves exactly what was wanted if and only if no prefix is wanted for two
  peers and no keepalive is negative.
- `PlanConfig.MotherConfigIsDisjoint`: a child's configuration never wants a prefix for two peers; a mother's does not if and only if
  no mother connected to her has her host carried by another peer. `AContestedMother` is a mesh of three mothers where one is, and
  `ContestedHostMoves` shows that each apply then moves that host between two peers.
- `Gro.PrependKeepsPshIff`: a merged packet's header has the last packet's PSH after prepending if and only if that packet
  had none; `APshIsLost` gives two packets, `PshSurvivesIff` the condition for whatever a batch writes out, and
  `GroAccounting.SplitRestoresPshIff` what the segments of the written packet then carry.
- `PortForwards.AcceptedConflictIffHidden`: the store compares host texts, so rules it accepts open conflicting sockets if
  and only if they share a port and their addresses meet under texts that are unequal and not 0.0.0.0; `AHiddenConflict`
  is two spellings of one IPv6 address, and a wildcard in its mapped spelling beside it.
- `UdpBatch.PiecesAreDatagrams`: a received message is split into what was sent if and only if the reported segment
  size does not exceed the bytes received, because the first piece is not clamped; `APieceTooLong` is one that is not.
- `RetryLoop.RetriesGoOn`: the source's comment promises that a revision that failed is retried until it sticks or is
  superseded. In a run that holds in all states if and only if no step breaks it (`StepBreaksPromise`): with the newest
  revision failed, being retried and no loop of it still to enter, the entry of a loop of an older revision, or a loop of the
  newest one leaving and resetting the field. Both happen, in `LostByEntering` and `LostByLeaving`; neither does while loops
  enter in the order of their revisions (`InOrderIsSafe`).
- `MeshRouting.TwoWayDelivery`: a pair of children in different subnets is served in both directions by one node if and only
  if both are connected to the carrier that their gateways name; `CrossSubnetDelivery` gives the case the design promises,
  over whatever routing tables the plan's prefixes make, and `AnUnservedPair` one that is not served.
- `MeshNeighbours.NeighbourDelivery`: two children of one subnet exchange packets in both directions through one mother if and
  only if both have a gateway of their own there and these are the same, or exactly one of them is a home of the other child.
  Each way alone always works (`ReachesNeighbour`). `ADroppedNeighbour` is a mesh where neither gateway is a home of the
  other child: each sends through the other's home, and the receiver refuses a sender whose prefix it has on another peer.

## Model

| member | source | states |
|---|---|---|
| Prefixes.LongestMatchUnique | src/wireguard/device/allowedips.go:191-205 | at most one prefix of a map is the longest match of an address |
| TrieModel.CommonBits | src/wireguard/device/allowedips.go:35-56 | the number of equal leading bits: equal before it, different at it |
| TrieModel.Mask | src/wireguard/device/allowedips.go:73-78 | masking keeps the first cidr bits and clears the rest |
| TrieModel.AddLeafKeepsTree | src/wireguard/device/allowedips.go:137-144 | hanging a new node on a free child slot keeps the trie a trie: links agree both ways and every descent still finds every node below it |
| TrieModel.SpliceKeepsTree | src/wireguard/device/allowedips.go:152-188 | putting a node between a node and its parent keeps the trie a trie |
| TrieModel.UnspliceKeepsTree | src/wireguard/device/allowedips.go:229-256 | taking a node with at most one child out keeps the trie a trie |
| TrieModel.UnspliceRepresents | src/wireguard/device/allowedips.go:229-256 | taking out a node without a peer changes nothing the trie represents |
| TrieModel.UnspliceCompact | src/wireguard/device/allowedips.go:241-256 | after a removal every node without a peer has two children again |
| TrieModel.GrowRepresents | src/wireguard/device/allowedips.go:101-189 | a trie grown by one peered node represents the map with that prefix added |
| TrieModel.SetPeerRepresents | src/wireguard/device/allowedips.go:117-121 | giving an existing node to another peer represents the map with that prefix reassigned |
| AllowedIPsTable.AllowedIPs.constructor | src/wireguard/device/allowedips.go:207-211 | an empty table is valid and means the empty map |
| AllowedIPsTable.AllowedIPs.CoversIffCommon | src/wireguard/device/allowedips.go:88-94 | the loop's test on lengths and common bits is coverage of prefixes |
| AllowedIPsTable.AllowedIPs.NodePlacement | src/wireguard/device/allowedips.go:88-99 | exact: the node of that very prefix; otherwise no node has it and the parent is the deepest one that covers it |
| AllowedIPsTable.AllowedIPs.LookupNode | src/wireguard/device/allowedips.go:191-205 | the descent ends with the deepest peered node that covers the address |
| AllowedIPsTable.AllowedIPs.Lookup | src/wireguard/device/allowedips.go:306-317 | the peer of the longest prefix in the table that covers the address, nil exactly when none covers it |
| AllowedIPsTable.AllowedIPs.AddToPeerEntries | src/wireguard/device/allowedips.go:58-60 | the node joins its peer's list at the end |
| AllowedIPsTable.AllowedIPs.RemoveFromPeerEntries | src/wireguard/device/allowedips.go:62-67 | the node leaves its peer's list, if it is on one, and nothing else does |
| AllowedIPsTable.AllowedIPs.HangFork | src/wireguard/device/allowedips.go:167-188 | a peer-less fork is put above both the existing and the new node, at their first difference |
| AllowedIPsTable.AllowedIPs.Hang | src/wireguard/device/allowedips.go:134-188 | the new node is placed by exactly one of the four cases, each a step that keeps the trie |
| AllowedIPsTable.AllowedIPs.InsertExact | src/wireguard/device/allowedips.go:116-122 | a prefix already there is reassigned and moves between the peers' lists |
| AllowedIPsTable.AllowedIPs.InsertNew | src/wireguard/device/allowedips.go:101-189 | a prefix not there is added for the peer |
| AllowedIPsTable.AllowedIPs.Insert | src/wireguard/device/allowedips.go:291-304 | the table means the old map with the masked prefix given to the peer, whoever had it |
| AllowedIPsTable.AllowedIPs.Prune | src/wireguard/device/allowedips.go:229-257 | the node, and a parent left useless, are taken out as the value-level removal says |
| AllowedIPsTable.AllowedIPs.RemoveNode | src/wireguard/device/allowedips.go:226-257 | the table means the old map without the node's prefix, and is compact |
| AllowedIPsTable.AllowedIPs.Remove | src/wireguard/device/allowedips.go:259-278 | the masked prefix is deleted exactly if that peer owns it |
| AllowedIPsTable.AllowedIPs.RemoveByPeer | src/wireguard/device/allowedips.go:280-289 | exactly the prefixes of that peer are deleted; every other stays, with its peer |
| AllowedIPsTable.AllowedIPs.EntriesForPeer | src/wireguard/device/allowedips.go:213-224 | lists exactly that peer's prefixes, each once |
| AllowedIPsTable.AllowedIPs.Execute | src/wireguard/device/allowedips.go:259-304 | after any sequence of insert, remove and remove-by-peer the table means what replaying the sequence on a plain map gives, and is valid |
| MeshEnrol.BetterIsTotalOrder | src/core/compile.go:31-44 | the comparison of address holders is a strict total order |
| MeshEnrol.WinnerIsUnique | src/core/compile.go:45-62 | one host has one winner |
| MeshEnrol.WinnerIsEarliest | src/core/compile.go:31-44 | the holder that keeps a host has no recorded change if any holder has none, else the earliest, and the least index among equals |
| MeshEnrol.ConflictLosers | src/core/compile.go:24-64 | exactly the holders that are not the least under (no time, time, index) lose their address, and every host keeps a holder |
| MeshEnrol.NormalizeRoutes | src/core/routes.go:22-46 | exactly the distinct routes of a list; a default or unreadable route, and nothing else, rejects the list |
| MeshEnrol.Enrol | src/core/plan.go:157-189 | the active nodes in mesh order: enabled, not a conflict loser, addressable; hosts are unique among them |
| MeshEnrol.PlanNodeIs | src/core/plan.go:157-189 | a plan node is a mother just when it listens; exposure, mode, cluster, host and subnet length are the node's own, and its routes are routes it was given |
| MeshEnrol.FindNode | src/core/models.go:186-193 | a node of that id, and none exactly if the mesh has none |
| MeshEnrol.BindUdpIs | src/core/transport.go:9-41 | a child runs native UDP just when the first of its links that leads to a mother leads to one that does |
| MeshSpec.AttachedByLink | src/core/plan.go:206-219 | a child is attached only to a mother it links to or to a mother of that one's cluster |
| MeshSpec.AttachedIff | src/core/plan.go:206-219 | a child is attached to exactly the mothers it links to and the mothers of their clusters |
| MeshSpec.CandsAre | src/core/plan.go:240-261 | the candidates are exactly the attached mothers that serve the subnet, or all that do if none is attached, and the relay just when it is on, the subnet is foreign and the node does not run native UDP; mothers in mesh order, the relay last |
| MeshSpec.GatewayIsFirst | src/core/plan.go:265-270 | a stored path that is a candidate is the gateway; otherwise the candidate that comes first in the mesh is, the relay only if no mother serves |
| MeshSpec.GwIs | src/core/plan.go:240-270 | a gateway is an exposed mother of the subnet other than the node, or the relay into a foreign subnet |
| MeshSpec.HomeVia | src/core/plan.go:541-567 | the mother through which a child reaches a neighbour is one of the neighbour's homes and a peer; there is none only if no home is a peer |
| MeshSpec.MeshDialIs | src/core/plan.go:304-316 | of two meshing mothers exactly one dials, always an exposed one, the lower id if both are exposed |
| MeshSpec.LanGoesToFirst | src/core/plan.go:507-517 | the child that gets a LAN claims it and comes before every other claimant in the mesh; no other gets it |
| MeshSpec.CarrierIs | src/core/plan.go:579-594 | the carrier of a pair is one of the two gateways, the relay only when no mother is one, and the lower id's when both are mothers; there is none just when both ends have no gateway |
| MeshPlanner.FoldIsFirstNegativeOrLeast | src/core/plan.go:298-303 | the intents for one pair leave a negative keepalive just when it came first; otherwise the least positive one, and zero only if none is positive |
| MeshPlanner.IntentIsFold | src/core/plan.go:295-303 | after any sequence of intents each pair has what its own, in their order, leave, whatever comes between |
| MeshPlanner.IntentsAreFixed | src/core/plan.go:298-303 | what was asked for and which negative keepalives stuck fix the intents map, whatever else of the order the intents came in |
| MeshPlanner.Planner.Attach | src/core/plan.go:206-219 | the attachment lists are exactly those of the links, in order |
| MeshPlanner.Planner.CandidatesFor | src/core/plan.go:240-261 | the list of `MeshSpec.CandsAre`: attached serving mothers, else all serving ones, in mesh order, then the relay where it may serve |
| MeshPlanner.Planner.GatewayFor | src/core/plan.go:235-271 | candidates and choice are recorded for a route just when there are candidates; the stored path counts if it is one |
| MeshPlanner.Planner.Gateways | src/core/plan.go:229-272 | candidates and gateways of all nodes and routes are the defined ones |
| MeshPlanner.Planner.AddIntent | src/core/plan.go:298-303 | the intents map is the one with this intent booked: new, or its keepalive lowered to a smaller positive one; other pairs as before |
| MeshPlanner.Planner.AskAttachments | src/core/plan.go:317-321 | every attached child means to dial its mothers |
| MeshPlanner.Planner.AskCandidates | src/core/plan.go:322-334 | every node means to dial its candidates, the relay only when chosen |
| MeshPlanner.Planner.AskHomes | src/core/plan.go:335-343 | a child that routes its own subnet means to dial every exposed mother there |
| MeshPlanner.Planner.MeshDial | src/core/plan.go:304-316 | of two meshing mothers the one intent goes from the lower id to the higher if that one is exposed, else back |
| MeshPlanner.Planner.AskMesh | src/core/plan.go:345-360 | all meshing pairs are asked for, once each |
| MeshPlanner.Planner.AskGeneric | src/core/plan.go:361-367 | every other link is asked for, a child's with the default keepalive; a negative keepalive sticks just when the pair was not asked for before |
| MeshPlanner.Planner.AskRelay | src/core/plan.go:368-383 | every node of a subnet that someone reaches through the relay means to dial the relay |
| MeshPlanner.Planner.AskAllPasses | src/core/plan.go:295-383 | the intents are exactly the defined asks and the negative ones among them exactly those that come first for their pair, for every map order |
| MeshPlanner.Planner.Connect | src/core/plan.go:396-411 | a pair gets a peer entry on both sides and one dialer, with that direction's keepalive |
| MeshPlanner.Planner.Resolve | src/core/plan.go:384-411 | every intended pair is connected once, with the dialer the exposure rule names |
| MeshPlanner.Planner.PlanLinks | src/core/plan.go:384-411 | peers, dialer and keepalive of every ordered pair are the defined ones, negative keepalives included |
| MeshPlanner.Planner.AllowOwned | src/core/plan.go:494-506 | on a mother exactly the owned hosts are allowed on the owner's peer |
| MeshPlanner.Planner.AllowLans | src/core/plan.go:507-517 | a LAN goes to the first child of the mother that claims it |
| MeshPlanner.Planner.AllowGateways | src/core/plan.go:520-526 | each routed subnet is allowed on its gateway's peer |
| MeshPlanner.Planner.AllowNeighbours | src/core/plan.go:527-568 | hosts of the own subnet are allowed on the mother herself or on the home the definition names |
| MeshPlanner.Planner.AllowPairs | src/core/plan.go:595-620 | a child pins the hosts whose pair rides another gateway than its own |
| MeshPlanner.Planner.AllowRelay | src/core/plan.go:621-623 | the relay allows exactly each of its peers' hosts |
| MeshPlanner.Planner.AllowGeneric | src/core/plan.go:624-640 | generic links allow the routes given for them, none if those are void, or the other end's host if none were given |
| MeshPlanner.Planner.AllowMothers | src/core/plan.go:641-654 | every mother's host is allowed on her own peer |
| MeshPlanner.Planner.AllowEverything | src/core/plan.go:492-654 | a prefix is allowed on a peer if and only if some rule grants it |
| MeshPlanner.Planner.PlanMesh | src/core/plan.go:157-656 | the finished plan has exactly the defined peers, dialers, keepalives of every sign and allowed prefixes, for every map order |
| MeshPlanner.DialingIsDetermined | src/core/plan.go:384-411 | of a connected pair exactly one side dials: the one that meant to, if only one did; when both meant to, an exposed side is dialed, and the lower id dials if they are equally exposed; the keepalive is unique, whatever its sign |
| MeshPlanner.KeptAlive | src/core/plan.go:304-383 | a connection that a pass asks for is kept alive at least every 5 seconds from a child and every 25 from a mother |
| MeshPlanner.DefaultKeepalive | src/core/plan.go:361-367 | a child's link without a keepalive of its own is kept alive, at least every 5 seconds |
| MeshRouting.PeersSymmetric | src/core/plan.go:396-411 | the peer relation is symmetric |
| MeshRouting.GatewayIsPeer | src/core/plan.go:322-334 | a node is connected to its gateway |
| MeshRouting.ChildPrefixHasOnePeer | src/core/plan.go:492-654 | without generic links and LAN routes no prefix is planned on two peers of a child |
| MeshRouting.MotherHostHasOnePeer | src/core/plan.go:413-442 | without generic links and LAN routes no child's host is planned on two peers of a mother |
| MeshRouting.RouteIsLookup | src/wireguard/device/allowedips.go:191-205 | routing over the plan is lookup in every table that maps each prefix planned on a node to one of the peers it is planned on |
| MeshRouting.TableExists | src/core/plan.go:492-654 | without generic links and LAN routes every node has such a table |
| MeshRouting.ChildRoutes | src/core/plan.go:579-620 | a child's traffic to a child of another subnet goes to the carrier of the pair |
| MeshRouting.MotherDelivers | src/core/plan.go:413-442 | a carrier mother routes each end's host to that end |
| MeshRouting.RelayDelivers | src/core/plan.go:621-623 | the relay routes each of its peers' hosts to that peer |
| MeshRouting.DeliveryIsLookup | src/wireguard/device/allowedips.go:191-205 | a node carries both directions of a pair, source checks included, if and only if all tables of the three nodes say so |
| MeshRouting.TwoWayDelivery | src/core/plan.go:579-620 | some node carries both directions past every source check if and only if both children are connected to their carrier; and that is so of the plan just when it is so of all tables made from it |
| MeshRouting.OwnSubnetConnects | src/core/plan.go:335-343 | a child that routes its own subnet is connected to every gateway into it |
| MeshRouting.CrossSubnetDelivery | src/core/plan.go:579-623 | children that route their own subnets, one with a gateway to the other, are served in both directions by one node, in every table made from the plan of the two and of that node |
| MeshExamples.AnUnservedPair | src/core/plan.go:335-343 | a pair whose one end does not route its own subnet: the carrier is named and nothing delivers |
| MeshNeighbours.HomeIs | src/core/plan.go:443-461 | a home of a child is an exposed mother of its subnet, connected to it, that sends its host to it |
| MeshNeighbours.WayIsRoute | src/core/plan.go:527-568 | a child sends what is for a neighbour through exactly one mother, its own gateway or the home that stands in for it |
| MeshNeighbours.ReachesNeighbour | src/core/plan.go:527-568 | a child with a gateway of its own reaches every neighbour that has a home: that mother takes the packet and hands it over |
| MeshNeighbours.NeighbourDelivery | src/core/plan.go:527-568 | two neighbours are served in both directions by one mother if and only if their gateways are the same, or exactly one is a home of the other child; for whatever routing tables the prefixes make |
| MeshExamples.ADroppedNeighbour | src/core/plan.go:527-568 | two children whose gateways are not homes of each other: each sends through the other's home and nothing is delivered |
| Noise.InitiationAgrees | src/wireguard/device/noise-protocol.go:270-442 | reading an honest initiation gives the initiator's static key, timestamp and transcript (section 5.4.2 of the WireGuard whitepaper) |
| Noise.ResponseAgrees | src/wireguard/device/noise-protocol.go:444-610 | both ends derive the same transcript and key for the response (section 5.4.3); what they are is `Transcript.ResponseFollows` |
| Transcript.InitiationFollows | src/wireguard/device/noise-protocol.go:270-338 | the initiator's hash and chain key absorb, in this order, the responder's static key, the ephemeral key, the two shared secrets and the two sealed fields, whose keys and hashes are those of section 5.4.2 |
| Transcript.ResponseFollows | src/wireguard/device/noise-protocol.go:444-510 | the response's absorb after them its ephemeral key, the two shared secrets, the pre-shared key and the sealed empty field (section 5.4.3) |
| Transcript.StateBindsInputs | src/wireguard/device/noise-protocol.go:270-610 | if hash and key derivation do not collide, two runs that end with one hash and chain key had the same static, ephemeral and pre-shared keys, shared secrets, sealed fields and timestamp |
| Handshake.RotateKeeps | src/wireguard/device/noise-protocol.go:668-696 | moving a new keypair into the slots and dropping the ones pushed out keeps the table exact |
| Handshake.PromoteKeeps | src/wireguard/device/noise-protocol.go:701-718 | promoting the next keypair and dropping the previous one keeps the table exact (which slot becomes which is stated by `Handshake.Device.ReceivedWithKeypair`) |
| Handshake.FlushKeeps | src/wireguard/device/peer.go:236-260 | dropping all slots and the pending index leaves no entry of the peer behind |
| Handshake.AtMostFourEntries | src/wireguard/device/keypair.go:35-52 | a peer whose slots the table mirrors has at most four entries in it |
| Handshake.IndicesUnshared | src/wireguard/device/indextable.go:58-92 | two peers, or two slots of one, never hold the same index |
| Handshake.Device.EntryIsHolder | src/wireguard/device/indextable.go:94-98 | what is looked up under an index is the entry of the one peer that holds it, and nothing exactly if none does |
| Handshake.IndexTable.NewIndexForHandshake | src/wireguard/device/indextable.go:58-92 | the first drawn index that is free is entered for the peer's handshake; nothing else changes |
| Handshake.FirstFreeIs | src/wireguard/device/indextable.go:58-92 | the index taken is a draw that is not in use, and every draw before it is in use |
| Handshake.IndexTable.SwapIndexForKeypair | src/wireguard/device/indextable.go:44-56 | an index in use is handed from handshake to keypair of the same peer; an unused one is left alone |
| Handshake.IndexTable.Delete | src/wireguard/device/indextable.go:38-42 | exactly that index is freed |
| Handshake.Device.NewPeer | src/wireguard/device/peer.go:62-115 | a known key is refused, and any key at 65536 peers; a new peer holds no index and the table stays consistent |
| Handshake.Device.AssignIndex | src/wireguard/device/noise-protocol.go:328-333 | the pending index is given up and a new one drawn; consistent exactly when the draw is non-zero |
| Handshake.Device.CreateMessageInitiation | src/wireguard/device/noise-protocol.go:270-338 | the message and transcript of section 5.4.2, when it fails, and exactly when the invariant survives |
| Handshake.Device.ConsumeMessageInitiation | src/wireguard/device/noise-protocol.go:340-442 | accepted exactly when key, peer, timestamp and flood test allow, so only by a running peer and with a timestamp after its last one; then the transcripts agree |
| Handshake.Device.CreateMessageResponse | src/wireguard/device/noise-protocol.go:444-510 | the response of section 5.4.3, when it fails, and exactly when the invariant survives; `Handshake.HonestRun` and `Transcript.StateBindsInputs` say what its transcript binds |
| Handshake.Device.ConsumeMessageResponse | src/wireguard/device/noise-protocol.go:512-609 | accepted exactly when the index names a handshake in the right state and the seal opens: one created here under that index and not yet answered |
| Handshake.Device.BeginSymmetricSession | src/wireguard/device/noise-protocol.go:612-699 | keys of section 5.4.5 by role; an initiator's keypair becomes current and the one it displaces previous, a responder's becomes next and previous is dropped; the index is handed to the keypair, table exact |
| Handshake.Device.ReceivedWithKeypair | src/wireguard/device/noise-protocol.go:701-718 | only the next keypair is promoted: it becomes current, the current one previous, next empty, and the table stays exact |
| Handshake.ReplayIsRefused | src/wireguard/device/noise-protocol.go:405-417 | an initiation that was accepted is not accepted again |
| Handshake.SecondResponseIsRefused | src/wireguard/device/noise-protocol.go:512-538 | nor is a response |
| Handshake.Device.ZeroAndFlushAll | src/wireguard/device/peer.go:236-260 | the peer holds nothing afterwards and the table stays exact |
| Handshake.Device.ExpireCurrentKeypairs | src/wireguard/device/peer.go:262-279 | the handshake is cleared and its index freed, and the counters of current and next are at the limit |
| Handshake.Device.Stop | src/wireguard/device/peer.go:281-299 | a running peer holds nothing afterwards; one that does not run is left as it is |
| Handshake.Device.RemovePeer | src/wireguard/device/device.go:219-226 | exactly that key is forgotten, each peer keeps its slots or holds nothing, and the table stays exact |
| Handshake.Device.SetPrivateKey | src/wireguard/device/device.go:319-372 | a peer with the own new key is removed, every secret fits the new key, no peer gains a keypair, all handshakes are given up, and the table stays exact |
| Handshake.Perform | src/wireguard/device/noise-protocol.go:270-718 | every step (adding, removing, starting and stopping peers and changing the private key included) keeps every table entry the pending or keypair index of its peer, and conversely, if and only if its draw is usable or leaves nothing |
| Handshake.RunDevice | src/wireguard/device/noise-protocol.go:270-718 | from a new device, after any sequence of such steps with usable draws: the table is exact, no peer has more than four entries, no index is held twice, and private key and peers are those the steps name |
| Handshake.ExchangeResponse | src/wireguard/device/noise-protocol.go:444-609 | after an honest response the two peers are in their final states with the same hash and chain key, and know each other's index |
| Handshake.HonestRun | src/wireguard/device/noise-protocol.go:270-643 | in an honest exchange every message is accepted, both ends have the same hash and chain key, which bind the static, ephemeral and pre-shared keys of the two devices, transport keys come from that chain key, and each sends with the key the other receives with |
| Handshake.HonestSession | src/wireguard/device/noise-protocol.go:612-718 | after the first packet of the initiator the current keypairs of the two ends hold each other's keys and indices, and each previous slot holds the keypair that was displaced |
| Handshake.AZeroDraw | src/wireguard/device/noise-protocol.go:328-333 | an initiation with a draw of zero breaks the table |
| Handshake.AZeroAnswer | src/wireguard/device/noise-protocol.go:455-460 | so does the answer to an honest initiation |
| NonceCounter.RunKeeps | src/wireguard/device/send.go:347-377 | with at most 2^13 senders between add and store, in every state the counter exceeds the limit by no more than those senders, and the assigned nonces are distinct and below both |
| NonceCounter.LimitIsSticky | src/wireguard/device/peer.go:270-278 | once at the limit the counter never falls below it again |
| NonceCounter.OneMoreSenderRepeatsANonce | src/wireguard/device/send.go:364-377 | with one sender more than 2^13 a run wraps the counter and repeats a nonce |
| NonceCounter.NoncesAreUnique | src/wireguard/device/constants.go:16 | no nonce is assigned twice in any run, if and only if at most 2^13 senders are between add and store |
| ConfigPush.StepKeepsNewest | src/master/hub/hub.go:216-232 | after every atomic step the pending configuration is a newest one queued |
| ConfigPush.StepKeepsOrder | src/master/hub/hub.go:448-459 | after every atomic step written revisions ascend, up to the pending one |
| ConfigPush.StepKeepsAwake | src/master/hub/hub.go:228-231 | a pending configuration not picked up has a bell, a caller about to ring it or a writer about to load |
| ConfigPush.PushIsOrderedAndAwake | src/master/hub/hub.go:216-232 | all three in every state of every interleaving; once all is quiet the last written configuration is the newest queued, unless that one could not be encoded |
| ConfigPush.Applier.ResetSession | src/agent/apply.go:46-52 | only the floor of stale revisions is forgotten |
| ConfigPush.Applier.Apply | src/agent/apply.go:104-139 | stale, current, failed and applied revisions, with the exact new state of each |
| ConfigPush.Session | src/agent/wsclient.go:185-212 | between resets the applied revisions strictly increase, whatever pushes and retries come in whatever order |
| RetryLoop.RetriesGoOn | src/agent/wsclient.go:181-212 | in every run, a newest revision that failed has a loop that will try it again in all states if and only if no step is a breaking one |
| RetryLoop.StepBreaksPromise | src/agent/wsclient.go:186-211 | from any reachable state in which the promise holds, a step breaks it if and only if it is one of the two kinds named |
| RetryLoop.LostStaysLost | src/agent/wsclient.go:186-211 | once broken it stays so until a new push, or an attempt already under way, succeeds |
| RetryLoop.InOrderIsSafe | src/agent/wsclient.go:186-190 | runs in which no loop enters behind a newer one keep the promise |
| RetryLoop.LostByEntering | src/agent/wsclient.go:186-198 | a run lost by the entry of an older loop |
| RetryLoop.LostByLeaving | src/agent/wsclient.go:186-211 | a run lost by a loop that resets the field on its way out |
| Checksum.OnesSumIsCanon | src/wireguard/tun/checksum.go:86-93 | adding 16-bit words one by one with end-around carry (section 1 of RFC 1071) gives the one representative of their sum |
| Checksum.SumConcat | src/wireguard/tun/checksum.go:95-102 | sums of even-length parts add up |
| Checksum.NativeSame | src/wireguard/tun/checksum.go:15-34 | a native-endian word is congruent to its 16-bit sum, byte-swapped sums being 256 times the sum (section 2 of RFC 1071), and is zero only with it |
| Checksum.AddHolds | src/wireguard/tun/checksum.go:16-32 | adding a word keeps accumulator plus carry in 64 bits and congruent: no end-around carry is lost |
| Checksum.AddWords | src/wireguard/tun/checksum.go:16-33 | a run of words and the last carry are added without loss |
| Checksum.AddBulk | src/wireguard/tun/checksum.go:15-65 | the whole 64-bit words of the input are added without loss |
| Checksum.AddTail | src/wireguard/tun/checksum.go:66-80 | the remaining bytes, the odd one included, are added without loss |
| Checksum.ChecksumNoFold | src/wireguard/tun/checksum.go:9-84 | for every byte string and machine the result stands for the initial value plus the big-endian 16-bit sum, and is zero only with it |
| Checksum.FourFoldsFit | src/wireguard/tun/checksum.go:88-91 | four folds bring every 64-bit value into 16 bits |
| Checksum.ChecksumOf | src/wireguard/tun/checksum.go:86-93 | the result is the one's-complement sum of RFC 1071 |
| Checksum.PseudoHeaderChecksumNoFold | src/wireguard/tun/checksum.go:95-102 | chaining the parts is summing the pseudo-header they make up |
| GsoSplit.Ipv4HeaderIsValid | src/wireguard/tun/offload_linux.go:928-939 | every IPv4 segment's header checksum is complete, with its own length and identification |
| GsoSplit.Ipv6LengthIsOwn | src/wireguard/tun/offload_linux.go:940-943 | every IPv6 segment carries its own payload length |
| GsoSplit.SegmentChecksumIsValid | src/wireguard/tun/offload_linux.go:388-398 | with the protocol's own offset the addresses, the protocol number 6 or 17, the 16-bit length and the transport bytes of every segment sum to all ones |
| GsoSplit.ProductIsExact | src/wireguard/tun/offload_linux.go:950 | inside a packet of at most 65535 bytes the 16-bit product of segment size and index never wraps |
| GsoSplit.Product16IsProduct | src/wireguard/tun/offload_linux.go:950 | the product in the model is the product modulo 2^16 |
| GsoSplit.SequencesAreContiguous | src/wireguard/tun/offload_linux.go:948-951 | segment i carries the original packet's sequence number advanced by the payload before it, modulo 2^32 |
| GsoSplit.OtherHeaderBytesKept | src/wireguard/tun/offload_linux.go:945-960 | outside the rewritten fields headers are kept, FIN and PSH on the last segment only |
| GsoSplit.UdpLengthIsOwn | src/wireguard/tun/offload_linux.go:957-960 | every UDP segment carries its own length |
| GsoSplit.SegmentPayload | src/wireguard/tun/offload_linux.go:962-963 | behind its headers a segment holds its share of the payload |
| GsoSplit.PayloadsConcatenate | src/wireguard/tun/offload_linux.go:914-973 | the payloads of all segments are the packet's payload, all but the last full |
| GsoSplit.CheckChecksum | src/wireguard/tun/offload_linux.go:388-398 | true exactly when the address bytes of the header, the protocol, the 16-bit length and the body sum to all ones |
| GsoSplit.PseudoSumIs | src/wireguard/tun/checksum.go:95-102 | the pseudo-header sum is that of bytes 8 to 40 of an IPv6 packet, 12 to 20 of an IPv4 one, the protocol and the 16-bit length |
| GsoSplit.WriteSegment | src/wireguard/tun/offload_linux.go:918-970 | the buffer holds exactly the segment behind its offset, and keeps what is in front |
| GsoSplit.Split | src/wireguard/tun/offload_linux.go:893-975 | every buffer holds its segment and size, or the buffers are too few and one less than their number is returned |
| GsoSplit.CompletePartial | src/wireguard/tun/offload_linux.go:977-985 | a partial checksum at an even offset becomes complete in place; nothing else changes |
| Gro.LeftLengthIsTrue | src/wireguard/tun/offload_linux.go:350-351 | for a group that may still be appended to, the 16-bit length is the true one |
| Gro.AppendFollows | src/wireguard/tun/offload_linux.go:352-367 | a packet admitted behind a group follows it in sequence, and the group ends full and without PSH |
| Gro.PrependLeads | src/wireguard/tun/offload_linux.go:368-384 | a packet admitted in front of a group leads it in sequence and may be larger only before a single packet |
| Gro.AppendIff | src/wireguard/tun/offload_linux.go:350-384 | a packet goes behind a group if and only if their headers agree, it follows the last packet in sequence, that one is full-sized and has no PSH, and it is no larger |
| Gro.PrependIff | src/wireguard/tun/offload_linux.go:368-384 | in front of it if and only if headers agree, the first packet follows it, it has no PSH, and it has the group's size or is larger before a single packet |
| Gro.UdpAppendIff | src/wireguard/tun/offload_linux.go:350-367 | a UDP packet if and only if IP headers agree, the last packet is full-sized and it is no larger |
| Gro.AppendGroup | src/wireguard/tun/offload_linux.go:474-497 | appending keeps a group: payload the concatenation, sequence contiguous from the header's, all but the last full, PSH last |
| Gro.PrependGroup | src/wireguard/tun/offload_linux.go:450-473 | so does prepending, whose header has the new packet's sequence number |
| Gro.AppendKeepsPsh | src/wireguard/tun/offload_linux.go:474-497 | after appending the header has the last packet's PSH |
| Gro.PrependKeepsPshIff | src/wireguard/tun/offload_linux.go:450-473 | after prepending the header has the last packet's PSH if and only if that packet has none |
| Gro.APshIsLost | src/wireguard/tun/offload_linux.go:450-473 | two packets whose merge loses PSH |
| Gro.MergeKeeps | src/wireguard/tun/offload_linux.go:444-506 | a merge, with its buffer swap, keeps every packet in exactly one buffer, every group in order and every merged buffer tracked |
| Gro.InsertKeeps | src/wireguard/tun/offload_linux.go:112-129 | so does a new item |
| Gro.ForgetKeeps | src/wireguard/tun/offload_linux.go:136-140 | so does forgetting an item that merged nothing |
| Gro.Batch.CoalesceTcp | src/wireguard/tun/offload_linux.go:444-506 | the outcomes in the source's order: merged if and only if a side admits it, the buffer has room and the checksums hold; then buffers and item are the merged ones, otherwise buffers are untouched |
| Gro.Batch.TcpGro | src/wireguard/tun/offload_linux.go:531-625 | the packet is merged if and only if an item of its flow takes it, else entered or left alone, and the batch invariant holds after each |
| Gro.Batch.CoalesceUdp | src/wireguard/tun/offload_linux.go:414-438 | the same for UDP; only appending |
| Gro.Batch.UdpGro | src/wireguard/tun/offload_linux.go:782-854 | merged if and only if the last item of its flow takes it, so packets of a flow keep their order within and across buffers |
| Gro.Batch.Evaluate | src/wireguard/tun/offload_linux.go:861-888 | a packet gets no buffer of its own to be written if and only if it is of a kind that is merged and joins another |
| Gro.Batch.HandleGro | src/wireguard/tun/offload_linux.go:861-888 | the buffers to write, in ascending order, hold every packet handled exactly once, each as the concatenation of its packets; an offset error is reported exactly when there is one |
| Gro.EveryPacketOnce | src/wireguard/tun/offload_linux.go:861-888 | every packet is in exactly one buffer to be written, once |
| Gro.PshSurvivesIff | src/wireguard/tun/offload_linux.go:444-506 | a merged buffer that is written out has its last packet's PSH if and only if that packet has none or did not arrive before the first one |
| Gro.SplitUndoesMerge | src/wireguard/tun/offload_linux.go:914-973 | segmenting a merged packet by its recorded size gives back the payloads of the packets it was made of |
| Gro.SegmentSent | src/wireguard/tun/offload_linux.go:948-951 | packet k of a merged one has the header's sequence number advanced by the offset of segment k |
| GroAccounting.Account | src/wireguard/tun/offload_linux.go:627-736 | lengths, the IPv4 header checksum and the pseudo-header sum are written over the old fields, and nothing else |
| GroAccounting.HeaderIsValid | src/wireguard/tun/offload_linux.go:643-654 | the IP header then has the merged length, and for IPv4 a complete checksum |
| GroAccounting.SumIsPartial | src/wireguard/tun/offload_linux.go:659-673 | the checksum field holds the sum of the address bytes, the protocol number 6 or 17 and the length behind the IP header |
| GroAccounting.AccountAndComplete | src/wireguard/tun/offload_linux.go:977-985 | completing that sum makes the merged packet pass checksumValid; no other byte changes |
| GroAccounting.SplitRestoresPackets | src/wireguard/tun/offload_linux.go:914-973 | the segments of a merged packet as written are as many as its packets and pass checksumValid; segment k has the payload and the sequence number of packet k, and PSH just when it is last and the header has it |
| GroAccounting.SplitRestoresPshIff | src/wireguard/tun/offload_linux.go:945-960 | so all segments have their packets' PSH bits if and only if the header kept the last packet's |
| UdpBatch.ChunksOfJoin | src/wireguard/conn/bind_std.go:518-535 | cutting the concatenation of datagrams of one size (the last may be smaller) gives them back |
| UdpBatch.CarriesDatagrams | src/wireguard/conn/bind_std.go:450-498 | splitting a message by its recorded size gives the datagrams coalesced into it |
| UdpBatch.MaxPayload | src/wireguard/conn/bind_std.go:439-443 | with the UDP header, and the IPv4 header where the length counts it, the largest payload fills 16 bits |
| UdpBatch.CoalesceMessages | src/wireguard/conn/bind_std.go:450-498 | all datagrams in order, at most 64 and the family's maximum payload per merged message, within capacity, with the size recorded; each message is in its first datagram's buffer, and a new one is started only for a datagram that could not join the last |
| UdpBatch.PackedIsGreedy | src/wireguard/conn/bind_std.go:450-498 | seen from the receivers: the first datagram of a message exceeds the payload limit, the buffer, the size or the count of the message before, or that one ended in a shorter datagram |
| UdpBatch.PiecesAreDatagrams | src/wireguard/conn/bind_std.go:508-521 | the pieces are the datagrams if and only if the reported size does not exceed the bytes received |
| UdpBatch.APieceTooLong | src/wireguard/conn/bind_std.go:508-521 | a message of one byte with a reported size of two gives a piece of two |
| UdpBatch.ChunkCount | src/wireguard/conn/bind_std.go:518-521 | the rounded-up quotient counts the pieces |
| UdpBatch.SplitOne | src/wireguard/conn/bind_std.go:522-535 | the pieces go out in order; overflow exactly when they outrun the message being read; messages behind untouched |
| UdpBatch.SplitCoalescedMessages | src/wireguard/conn/bind_std.go:502-544 | without failure all pieces are out in order; overflow exactly when pieces outrun messages; no unread message is ever overwritten unless overflow is reported |
| HotApply.Device.IpcSetOperation | src/wireguard/device/uapi.go:140-195 | the device goes through the lines one by one and stops at the first error; `HotApply.ApplyDesired` says what an applied script leaves |
| HotApply.RunIsPlay | src/wireguard/device/uapi.go:349-355 | a script stops exactly at a line whose value does not parse, or where it would stop if all parsed |
| HotApply.AddLines | src/tunnel/config/desired.go:76-95 | the lines give the peer exactly the missing prefixes; none when nothing is missing |
| HotApply.RemoveLines | src/tunnel/config/desired.go:96-102 | the lines take exactly the surplus prefixes the peer still owns, in any order |
| HotApply.Section | src/tunnel/config/desired.go:58-120 | the lines for one peer leave its prefixes and endpoint as wanted and, where they parse, its keepalive, and other peers' alone; which endpoint and keepalive lines they are; none when nothing differs |
| HotApply.OwnStep | src/tunnel/config/desired.go:76-102 | a prefix that moves between peers ends with the wanted one whichever peer is written first |
| HotApply.ProgressStep | src/tunnel/config/desired.go:55-120 | after each peer all peers so far are as wanted and the rest untouched except for prefixes taken over |
| HotApply.RoomLeft | src/wireguard/device/peer.go:74-77 | the peer limit is never hit while live and wanted peers together are within it |
| HotApply.TrimLines | src/tunnel/config/desired.go:121-126 | all live peers that are not wanted are removed, in any order |
| HotApply.TrimmedPoints | src/tunnel/config/desired.go:60-75 | a wanted peer ends at the endpoint wanted, unless none is wanted or a live peer roamed from an unchanged one: then where it was; a new peer without one has none |
| HotApply.PrevEndpoints | src/tunnel/config/desired_diff.go:65-74 | what the previous configuration said of each key |
| HotApply.WriteScript | src/tunnel/config/desired.go:20-126 | from any live state the script plays through, with exactly the endpoint and keepalive lines that differ; it reaches the wanted peers, endpoints and prefixes, and the keepalives unless a live peer is wanted with a negative one, and is the private key alone when nothing differs |
| HotApply.ExactIffDisjoint | src/tunnel/config/desired.go:55-126 | what is reached is exactly what was asked for if and only if no prefix is wanted for two peers and no keepalive is negative |
| HotApply.ApplyDesired | src/tunnel/config/desired.go:20-150 | from any live device the apply succeeds if and only if no wanted peer is refused; then every peer has the endpoint of `HotApply.TrimmedPoints`, it is exact just when possible, each prefix with the owner that the order of peers and its owner before decide; the same configuration applied again where it is exact writes no peer line |
| HotApply.SecondApplyIsSettled | src/tunnel/config/desired.go:66-68 | peers that roamed count as unchanged when the Master's endpoint did not change |
| HotApply.TakenIffNoneRefused | src/wireguard/device/uapi.go:349-355 | a line of the script is refused if and only if a peer is: a keepalive above 65535, a negative one on a live peer, or an endpoint written and not understood |
| HotApply.AgainRefusedIffNegative | src/tunnel/config/desired.go:106-108 | where a configuration was applied, the same one is refused if and only if it has a negative keepalive |
| HotApply.ApplyTwice | src/tunnel/config/desired.go:106-108 | after a first apply that succeeds, the second succeeds if and only if no keepalive is negative |
| HotApply.ANegativeKeepalive | src/tunnel/config/desired.go:106-108 | a new peer wanted with keepalive -5 ends at 0, and the next script stops at it |
| HotApply.ContestedPrefixMoves | src/tunnel/config/desired.go:55-120 | a prefix wanted for two peers changes hands at every apply |
| PlanConfig.DisjointIsOnePeerEach | src/core/compile.go:133-151 | a node's configuration wants no prefix twice if and only if the plan has none on two of its peers |
| PlanConfig.ChildConfigIsDisjoint | src/core/plan.go:492-654 | without generic links and LAN routes it never does for a child |
| PlanConfig.MotherConfigIsDisjoint | src/core/plan.go:641-654 | for a mother it does not if and only if no mother connected to her has her host carried by another peer |
| PlanConfig.ForeignMotherIsContested | src/core/plan.go:413-442 | it does for each of two exposed meshing mothers of a subnet that a foreign mother routes into through the other one |
| PlanConfig.ContestedHostMoves | src/core/plan.go:641-654 | then every apply moves that host between its two peers |
| MeshExamples.AContestedMother | src/core/plan.go:413-442 | a mesh of three mothers where this happens |
| PlanConfig.NegativeIffStuck | src/core/compile.go:146-149 | a configuration wants a negative keepalive if and only if some pair dialed at an endpoint has one that sticks |
| PlanConfig.StuckPlanIsRefused | src/core/compile.go:146-149 | once in place, such a configuration is refused at every further apply, and no other is |
| MeshExamples.ANegativeLink | src/core/plan.go:361-367 | two children and a link of keepalive -5: it sticks and the first dials |
| TunnelRoutes.Collect | src/tunnel/config/desired_routes.go:22-37 | exactly the allowed prefixes that the interface subnet does not cover, each once |
| TunnelRoutes.Reduce | src/tunnel/config/desired_routes.go:38-52 | no kept prefix covers another and every prefix is covered by a kept one |
| TunnelRoutes.Routes | src/tunnel/config/desired_routes.go:14-55 | no route is redundant, and an address is covered if and only if some allowed prefix outside the interface subnet covers it |
| TunnelRoutes.Diff | src/tunnel/config/desired_routes.go:62-80 | removing the one list and adding the other turns the old routes into the new ones, touching no more than needed |
| PathSelection.Best | src/master/pathsel/pathsel.go:58-63 | the first candidate of least score |
| PathSelection.ChooseOne | src/master/pathsel/pathsel.go:58-70 | the best candidate, or the previous one unless the best is clearly better |
| PathSelection.Choose | src/master/pathsel/pathsel.go:36-78 | a choice for every route with candidates and no other, whatever the map order |
| PathSelection.ChoiceIsStable | src/master/pathsel/pathsel.go:64-70 | choosing again with the same measurements keeps the choice |
| PathSelection.LiveMotherIsChosen | src/master/pathsel/pathsel.go:43-57 | a live mother is chosen whenever a candidate is one |
| PathSelection.RelayIsLast | src/master/pathsel/pathsel.go:26-28 | the relay is chosen if and only if it is a candidate and every mother among them is dead |
| PathSelection.LeastTimeIsChosen | src/master/pathsel/pathsel.go:43-63 | without a candidate held before, the chosen one is a live mother of least round-trip time, the node's own measurement counting before the mother's |
| PathSelection.FasterTakesOver | src/master/pathsel/pathsel.go:43-70 | a live measured mother held before is given up if and only if another is faster by over 20% and 3 ms |
| PathSelection.SwitchIsClear | src/master/pathsel/pathsel.go:64-70 | a candidate is given up if and only if another is better by over 20% and 3 ms, and then for one that is |
| PathSelection.CandidatesIgnorePaths | src/core/plan.go:229-272 | candidates do not depend on stored paths |
| PathSelection.Selector.Tick | src/master/pathsel/pathsel.go:114-148 | the choices become the stored paths; a change is reported exactly when there is one |
| PathSelection.TickTwice | src/master/pathsel/pathsel.go:114-148 | after two ticks with the same measurements the stored paths are those the first tick chooses, nothing else changed, and the second reports no change |
| PathSelection.PlanFollowsChoice | src/core/plan.go:265-270 | the plan made from the stored paths uses exactly the chosen gateways |
| PortSpans.ParsePortSpan | src/core/ports.go:32-53 | what parses is a range of existing ports |
| PortSpans.AtoiIs | src/core/ports.go:55-62 | a decimal text means its number with or without a plus sign, and its negative behind a minus |
| PortSpans.CanonParses | src/core/ports.go:21-53 | parsing undoes the canonical text of every range |
| PortSpans.ResolvedFits | src/core/ports.go:94-126 | a destination has as many ports as the listen range, all of them existing |
| PortSpans.ResolvedStarts | src/core/ports.go:94-126 | a star is the listen range itself; otherwise the destination starts at the port or range given |
| PortSpans.ResolvesIff | src/core/ports.go:94-126 | anything but a star resolves if and only if it parses, is one port or as many as the listen range, and ends at an existing port |
| PortSpans.StoredResolves | src/master/store/store_nodes.go:327-333 | resolving the stored form of a destination gives the same ports |
| PortForwards.ConflictIffMeets | src/tunnel/portfwd/portfwd.go:114-124 | two rules open conflicting listeners if and only if they share a protocol and port and their addresses meet: equal, or one unspecified |
| PortForwards.AcceptedConflictIffHidden | src/master/store/store_nodes.go:337-352 | rules that pass the test on ports and host texts open conflicting listeners if and only if they share a port and their addresses meet under texts that are unequal and not 0.0.0.0 |
| PortForwards.AHiddenConflict | src/master/store/store_nodes.go:343-352 | two spellings of one IPv6 address pass the test and are one socket; so does a wildcard in its mapped spelling beside an IPv6 address |
| PortForwards.MergeForwardPairs | src/master/store/store_nodes.go:245-294 | per listen and destination the same protocols are served; rules that differ in protocol only become one |
| PortForwards.Claim | src/master/store/store_nodes.go:343-352 | a protocol's ports are claimed exactly if none is taken |
| PortForwards.NormalOpensSame | src/master/store/store_nodes.go:323-333 | normalising a rule changes no listener |
| PortForwards.PutNodeForwards | src/master/store/store_nodes.go:297-373 | rules are kept if and only if each is acceptable and all pass the test on ports and host texts; what is stored is again so and opens exactly the listeners asked for |
| PortForwards.SplitProtocols | src/core/compile.go:171-187 | one rule per protocol opens the same listeners |
| PortForwards.ExpandForward | src/tunnel/config/desired.go:182-213 | one listener per port, port start+i to destination start+i |
| PortForwards.Deploy | src/tunnel/config/desired.go:128-145 | the agent opens exactly the listeners of the stored rules, no two of them in conflict if and only if no conflict was hidden from the test on texts |

## Left out

- HTTP, WebSocket, SQLite, services, updates, the web interface and statistics: input and output around the modelled logic; the store is an in-memory mesh.
- Camouflage profiles, cover encryption, sockets, timers, netlink and TUN control: foreign calls and real time.
- Concrete cryptography, the replay filter and timestamps' encoding: unspecified functions and an abstract order.
- Parsing of addresses, keys, prefixes, listen hosts and JSON: the models start from parsed values; port ranges are parsed from text.
- Packet parsing before a packet becomes a merge candidate (lengths, fragments, flags): packets are records that say whether they are candidates.
- The encoding of virtio headers, and walking the flow tables for the accounting that follows merging: one merged packet is accounted for.
- `handleVirtioRead`: its tests on header lengths; gsoSplit's preconditions are what it and the kernel guarantee.
- Cluster standby, cluster synchronisation, revision bookkeeping and the interface name, MTU and listen port of a configuration: only easy members.
- AllowedIPsTable.AllowedIPs.EntriesForPeer: returns the list; the callback that may stop the walk early is not modelled.
- TrieModel.CommonBits: works on bit sequences; packing into bytes and counting leading zeros of an xor are not modelled.
- MeshPlanner.Planner.PlanMesh: node ids are integers in the order of the id strings; the index lists by subnet and cluster are filters of the mesh order; the order of a node's peer list is not modelled.
- MeshRouting.MotherHostHasOnePeer: speaks of children's hosts; mothers' hosts as seen from other mothers may be planned on two peers by the last pass.
- MeshRouting.TwoWayDelivery: for meshes without generic links and LAN routes; these add prefixes as configured.
- MeshNeighbours.NeighbourDelivery: for the same meshes.
- Handshake.Device.ConsumeMessageInitiation: message type tags and marshalling are not modelled; a device's step is atomic.
- Handshake.RunDevice: stops at the first step whose draw is not usable (index 0, or none free with an index given up); what such a draw leaves is stated for the single steps. Closing the device is not modelled.
- GroAccounting.AccountAndComplete: for the checksum offsets 16 (TCP) and 6 (UDP), the ones that are written.
- PlanConfig.MotherConfigIsDisjoint: for meshes without generic links and LAN routes; these may want a prefix twice as configured.
- ConfigPush.Session: says nothing about when a failed revision is retried; the hand-over between retry loops is in `RetryLoop`.
- RetryLoop.RetriesGoOn: one session; the growing delay and the end of a session are not modelled.
- ConfigPush.PushIsOrderedAndAwake: a connection that closes ends the run; other messages of the writer do not touch the modelled state.
- Checksum.AddWords: the source's unrolled additions of 16, 8, 4, 2 and 1 words are one loop over that many words.
- GsoSplit.Split: requires the headers to lie in the packet, the checksum field in the transport header, and buffers large enough and apart from each other and from the packet.
- GsoSplit.SegmentChecksumIsValid: for the checksum offsets 16 (TCP) and 6 (UDP) only.
- Gro.Batch.HandleGro: buffers are values with a capacity of at most 65535 behind the offset; the bytes in front of the offset are not modelled.
- UdpBatch.CoalesceMessages: for non-empty datagrams within their buffers' capacity; control data other than the segment size is not modelled.
- UdpBatch.SplitCoalescedMessages: all buffers have the same length, as the receive path allocates them, and the reported size fits them (a larger one makes the source's slice expression fail).
- HotApply.ApplyDesired: requires distinct keys, none the device's own, and no more than 65536 peers live and wanted together; the live state is read as values rather than from text; what an interrupted script leaves behind is not stated.
- TunnelRoutes.Routes: the last sort, by text, is not modelled; it changes the order only.
- PathSelection.Choose: scores are reals with an infinity; round-trip times are below 2^32 microseconds.
- PortSpans.ParsePortSpan: spaces are the ASCII ones, U+0085 and U+00A0.
- PortForwards.PutNodeForwards: the listen text comes parsed, with the address its host text means, and forwards of other nodes and cluster synchronisation are not modelled.
- PortForwards.Deploy: destinations are node ids; the address of the node, a standby in its place and skipping of disabled nodes are not modelled.
