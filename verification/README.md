# Liberator node: a verified model of its control plane and firewall

The repository is one node of a mesh VPN. This project models, in Dafny, the parts of it that hold state and
have to agree with something: with the other end of a connection, with the other nodes of the mesh, with the
rules in force, with the database, or with the subnet. Each component is a value state with step functions;
the code that changes things in place is a class or a method with loops proved against those functions; and the
main results are about every input, every run or every interleaving.

| file | models |
|---|---|
| `Registry.dfy` | the session registry and the engine that owns a connection's lifetime |
| `DialCollision.dfy` | two nodes dialling each other, with delayed close notices |
| `Topology.dfy`, `Gossip.dfy` | the peer store, its events, its invariants and its convergence |
| `Refresh.dfy` | the periodic refresh, expiry and dialling pass |
| `FlowKey.dfy` | the textual key of a flow |
| `Firewall.dfy`, `RuleMeaning.dfy` | the firewall engine with its compressed index, and what its rules allow |
| `Slots.dfy`, `RuleIndex.dfy` | the engine as its callers see it: a map by slots, and a plain map while numbers fit |
| `FlowRuns.dfy` | packets, rule changes and time over the firewall |
| `Events.dfy` | the bounded event channels of the router |
| `Reconcile.dfy`, `Replication.dfy` | reconciliation with owner authority, and the replication protocol of rules |
| `RouteReplication.dfy` | the replication protocol of clients, where addresses are shared by all nodes |
| `IpAlloc.dfy` | the address pool of a subnet |
| `Sharding.dfy` | header parsing, worker selection and per-flow order |
| `Manager.dfy` | the rule service between database and engine |
| `Quota.dfy`, `Batch.dfy` | the traffic budget, and the batching writer |
| `Common.dfy` | shared vocabulary |

Conventions. A mutex-protected method and the handling of one packet or message are one atomic step. Time is an
integer count of nanoseconds. The outcome of a foreign call (a query, the rate limiter, the remote end of a
connection) is an input of the step that makes it. A connection, a session or a channel is named by a number.

## What the model shows beyond the code's own description

- The collision window matters only at the node with the higher identifier. The surviving connection is lost
  exactly when that node meets its second connection late and the first one is still alive; then both
  connections can be lost (`HigherDialSurvives`, `LateDialLosesBoth`).
- Gossip with one address per identifier converges although inbound connections report peers without their
  address, exactly when no such peer has a rival at its address fresher than every update that gives it the
  address (`GossipConvergesIff`).
- The refresh pass keeps every live peer, whatever the order of the sessions, exactly when no stale live peer
  shares an address with a record from the future or with a fresh live peer; the store's own invariant rules
  that out (`RefreshKeepsTheLiving`, `GroupedNeverClashes`).
- A hole remembers the last direction only, so removing an unrelated rule refuses the replies of a flow whose
  last packet was a reply, although a test promises that unrelated removals leave flows alone
  (`RepliesSurviveRemovalIff`, `UnrelatedRemovalStopsReplies`).
- A full dump restores agreement exactly when the events still waiting in the channel agree with the table it
  was built from. Agreement without loss does not depend on when dumps are interleaved with events
  (`DumpRestoresIff`, `SubscriberAgrees`).
- The allocator accepts 0.0.0.0/32 and 255.255.255.255/32 through 32-bit wrap-around (`RangeExistsIff`), and the
  first of them is the only pool that hands out an address twice by itself (`NeverIssuedTwiceIff`). Freeing an
  address leads to a double issue exactly when it lies beyond the pointer (`FreeIsHarmlessIff`); reserving a freed
  address loses it, which costs an address but never safety (`ReserveIsSafe`, `AllocationIsSafe`).
- The quota holds until a client is 2^63 bytes over it, and exactly until then (`OnlyFittingPassIff`).
- The engine files a rule under the low 48 bits of its number, and callers do not check the rest. Removing
  number 2^48 + 5 removes rule 5 from the engine and not from the database (`SharedSlotSplits`), and a dump that
  lists it makes a subscriber lose rule 5 (`SharedSlotLosesBoth`).
- Database and engine are pulled apart by exactly these events: the look-up of an existing peer failing after
  the insert, the bulk delete failing after the engine was cleared, an operation on a number whose slot another
  rule in force has, and a peer appearing or disappearing while rows refer to it. The last needs foreign keys to
  be off, which is the database driver's default (`StepAgreesIff`).
- A REMOVED client event is obeyed whoever owns the route, so another node's withdrawal is the one message that
  takes a local client's route away (`RemovalSparesLocalsIff`, `LocalRouteSurvivesIff`); an ADDED one is refused
  while another node holds the address, until the next dump (`HeldAddressWaitsForDump`).

## Model

| member | source | states |
|---|---|---|
| `Common.LessIsAsymmetric` | pkg/mesh/session/registry.go:53-53 | two nodes never both find themselves the higher one |
| `Registry.SessionRegistry.Add` | pkg/mesh/session/registry.go:32-84 | refuses invalid, self, post-shutdown, tie-break-losing and duplicate outbound sessions, else makes the session current, closes the displaced one and offers it to every subscriber, a full channel missing it |
| `Registry.CollisionDecides` | pkg/mesh/session/registry.go:46-66 | a second connection while the first is alive: within ten seconds only one the higher side dialled is admitted, and only in place of one it did not; later only one that comes in |
| `Registry.RefusalReasons` | pkg/mesh/session/registry.go:33-44 | exactly when a session is invalid, to ourselves or too late for a registry that is shut |
| `Registry.SessionRegistry.SubscribeNewSessions` | pkg/mesh/session/registry.go:86-98 | a new subscriber finds every current session in its channel, once, with room for a hundred more; after shutdown there is no subscription |
| `Registry.ChannelKeepsFirst` | pkg/mesh/session/registry.go:70-75 | a channel keeps the first sessions it has room for, in order, and misses the rest |
| `Registry.SessionRegistry.Unsubscribe` | pkg/mesh/session/registry.go:100-108 | a subscriber whose context ends is dropped, the others stay |
| `Registry.SessionRegistry.Remove` | pkg/mesh/session/registry.go:113-130 | removes and closes a session only while it is the current one |
| `Registry.SessionRegistry.Close` | pkg/mesh/session/registry.go:132-155 | empties the table, closes every current connection, drops every subscriber and shuts the registry |
| `Registry.SessionRegistry.HandleConnection` | pkg/mesh/session/engine.go:41-88 | the peer is noted in the store, with its address only if we dialled; the connection is registered, or closed when refused or without a client |
| `Registry.SightingSetsAddress` | pkg/mesh/session/engine.go:48-59 | a connection we dialled sets the address of its peer in the store, one that came in leaves it as it was |
| `Registry.StepKeepsSound` | pkg/mesh/session/registry.go:32-155 | every step keeps: each connection handed over is current or closed, sessions are filed under their own peer, never under the local or the empty identifier |
| `Registry.NoConnectionLeaks` | pkg/mesh/session/engine.go:41-93 | that invariant over every run; closed connections stay closed and a shut registry stays empty |
| `Registry.FreshNodeNeverLeaks` | pkg/mesh/session/registry.go:24-30 | from a node that has just started, every connection handed over and not closed is the current session of its peer, in every run |
| `Registry.EvictionCauses` | pkg/mesh/session/registry.go:113-130 | a current session is displaced only by its own end, an admitted newcomer or shutdown, and is then closed; the late end of a displaced session evicts nothing |
| `Registry.EndedSessionLeaves` | pkg/mesh/session/registry.go:113-130 | a session that ends is no longer current and is closed; the late end of a displaced one changes nothing at all |
| `Registry.NewPeerIsAdmitted` | pkg/mesh/session/registry.go:45-69 | a valid connection of a peer without a live session is admitted, stamped with the time, whichever side dialled |
| `Registry.ShutdownIsFinal` | pkg/mesh/session/registry.go:132-155 | after a shutdown every connection ever handed over is closed, whatever still comes |
| `DialCollision.HandleKeepsNodeInv` | pkg/mesh/session/registry.go:46-66 | one node's decision on a new connection keeps the higher node's connection current, or the decision is late and closes it |
| `DialCollision.StepKeepsInv` | pkg/mesh/session/registry.go:46-82 | every step of the pair keeps the joint invariant unless it is late at the higher node, and then closes the higher node's connection |
| `DialCollision.LateByTheClock` | pkg/mesh/session/registry.go:47-48 | what the registry takes for late is what the times of the run say |
| `DialCollision.HigherDialSurvives` | pkg/mesh/session/registry.go:48-57 | in every interleaving the connection dialled by the higher node is closed if and only if that node meets a connection ten seconds or more after another one still alive there, by the times of the run |
| `DialCollision.PunctualNodesAgree` | pkg/mesh/session/registry.go:48-84 | the same agreement in every run in which the higher node is never late |
| `DialCollision.BothNodesAgree` | pkg/mesh/session/registry.go:48-84 | in every interleaving in which the higher node meets its connections within ten seconds of each other, once both nodes have handled both connections, both hold the higher node's and the other is closed at both ends |
| `DialCollision.LateDialLosesBoth` | pkg/mesh/session/registry.go:58-62 | a concrete run outside the window in which both connections end up closed |
| `Topology.Scan` | pkg/mesh/topology/memory.go:116-127 | the conflict loop finds whether a fresher record holds the address and lists each staler one once |
| `Topology.Store.ResolveAddressConflict` | pkg/mesh/topology/memory.go:111-135 | the kept record loses to a fresher one at its address, else all staler ones are deleted |
| `Topology.Store.InsertMerge` | pkg/mesh/topology/memory.go:53-106 | the table becomes the merged table, exactly the promised events are sent, and the result says whether any were |
| `Gossip.MergeSetsAddress` | pkg/mesh/topology/memory.go:69-72 | a peer still present after an update with an address is at that address, wherever it was before |
| `Topology.Store.Remove` | pkg/mesh/topology/memory.go:145-164 | a known peer is deleted with one LEFT event |
| `Topology.EmittedEvents` | pkg/mesh/topology/memory.go:79-106 | the events of a merge (JOINED, UPDATED or LEFT for the record, then LEFT for each evicted one) replay to the merged table |
| `Gossip.MergeKeepsGroups` | pkg/mesh/topology/memory.go:111-135 | a merge keeps: records sharing a non-empty address have equal last-seen times |
| `Gossip.ReachableIsGrouped` | pkg/mesh/topology/memory.go:53-164 | every table reachable by merges and removals from a table with that property, such as the empty one, has it |
| `Gossip.LastSeenNeverDecreases` | pkg/mesh/topology/memory.go:65-68 | a peer that stays present through a run never loses freshness |
| `Gossip.RecordIsLastHeard` | pkg/mesh/topology/memory.go:59-77 | while a peer stays present its record is the last address and the latest time heard, over every run |
| `Gossip.LogReplaysToTable` | pkg/mesh/topology/memory.go:79-164 | replaying the event log of any run over the starting table gives the final table |
| `Gossip.SilentIffUnchanged` | pkg/mesh/topology/memory.go:73-96 | events are sent if and only if the table changes |
| `Gossip.OwnEventComesFirst` | pkg/mesh/topology/memory.go:83-105 | the first event of a merge is about its peer as it is now known, the others are the evicted records as they were |
| `Gossip.LogIsTruthful` | pkg/mesh/topology/memory.go:79-106 | in the log of every run each event is of the right kind: JOINED for a peer not in the table, UPDATED for one that differs, LEFT for one that is there |
| `Gossip.MergeKeepsBooks` | pkg/mesh/topology/memory.go:53-135 | a merge keeps the books of what was heard: every update is in the table or a fresher record holds its address, and every record was made from updates heard |
| `Gossip.GossipReachesClosedForm` | pkg/mesh/topology/memory.go:53-135 | after any sequence of merges with one address at most per identifier and no contested address, the table holds exactly the records that own their address |
| `Gossip.GossipConvergesIff` | pkg/mesh/topology/memory.go:53-135 | with one address at most per identifier, address-less updates allowed, all orders and repetitions of a set of updates give one table if and only if no identifier that is also heard of without its address has a rival there fresher than every update that gives it the address |
| `Gossip.GossipConverges` | pkg/mesh/topology/memory.go:53-135 | in particular, with a fixed address per identifier, equal sets of updates give equal tables |
| `Gossip.MissingAddressBreaksConvergence` | pkg/mesh/session/engine.go:51-59 | three updates, one of them without the address, whose order matters |
| `Refresh.RefreshPeers` | pkg/mesh/discovery/syncer.go:74-110 | the pass leaves the refreshed and swept table, with the exact effect below over a table with the address invariant, and dials exactly the addresses that a sessionless peer other than us has and no connection goes to |
| `Refresh.SweepStore` | pkg/mesh/discovery/syncer.go:88-109 | the second loop removes exactly the expired, sessionless, foreign peers |
| `Refresh.GroupedNeverClashes` | pkg/mesh/discovery/syncer.go:80-85 | the store's address invariant is enough for the refresh to be safe |
| `Refresh.RefreshOneKeeps` | pkg/mesh/discovery/syncer.go:80-85 | refreshing one live peer makes it fresh, evicts no fresh live peer and creates no clash |
| `Refresh.RefreshKeepsTheLiving` | pkg/mesh/discovery/syncer.go:74-86 | for every session order all live peers end up present and fresh, if and only if nothing clashes |
| `Refresh.RefreshIsExact` | pkg/mesh/discovery/syncer.go:74-86 | the first loop exactly: who is refreshed, and who is displaced at a refreshed address |
| `Refresh.RefreshKeepsAddress` | pkg/mesh/discovery/syncer.go:84-85 | a live peer that shares its address with no other live peer still has that address after the pass |
| `Refresh.PassKeepsLivingDropsStale` | pkg/mesh/discovery/syncer.go:66-110 | over any table reached from one with the address invariant, empty or loaded: live peers are present, as recent as before if under 30 s, else seen now; any other stays unchanged if and only if no stale live peer has its address and it is ours or was seen within 30 min |
| `Refresh.UngroupedTableLosesALivePeer` | pkg/mesh/topology/repository.go:22-26 | a table loaded without the invariant can clash |
| `FlowKey.DecimalIsInjective` | pkg/firewall/firewall.go:264-281 | the decimal form of a number determines it |
| `FlowKey.FieldsAreReadable` | pkg/firewall/firewall.go:276-280 | the five fields of a tcp or udp key can be read back from the text |
| `FlowKey.IcmpKeyIsDistinct` | pkg/firewall/firewall.go:266-273 | an icmp key is never the key of another protocol |
| `FlowKey.KeyIdentifiesFlow` | pkg/firewall/firewall.go:264-281 | two packets have equal key strings if and only if they share protocol and unordered endpoint pair (for icmp, address pair) |
| `Firewall.GlobalKeyReadsBack` | pkg/firewall/firewall.go:304-306 | packed keys are equal exactly when short identifier and low 48 bits are |
| `Firewall.Engine.GetOrCreateShortId` | pkg/firewall/firewall.go:291-303 | a known node keeps its short identifier, a new one gets the next value of the wrapping counter |
| `Firewall.Engine.AddRule` | pkg/firewall/firewall.go:77-95 | adds exactly when the node is named and no stored rule occupies the slot; both maps stay consistent and holes are untouched |
| `Firewall.Engine.ExistsRule` | pkg/firewall/firewall.go:97-109 | true exactly when a stored rule occupies the slot |
| `Firewall.Engine.DumpRules` | pkg/firewall/firewall.go:111-136 | every rule once, with its index |
| `Firewall.Engine.RemoveRule` | pkg/firewall/firewall.go:138-169 | removes the rule in the slot from both maps and keeps exactly the holes whose stored direction is still allowed |
| `Firewall.Engine.DropUnauthorizedHoles` | pkg/firewall/firewall.go:175-183 | a hole survives if and only if some rule allows its stored direction |
| `Firewall.Engine.CheckRules` | pkg/firewall/firewall.go:204-250 | true exactly when some rule of the abstract map matches the packet |
| `RuleMeaning.PlainRuleIsExact` | pkg/firewall/firewall.go:204-250 | a rule for one source, protocol and port allows exactly that, and icmp between the two addresses |
| `RuleMeaning.RangeIsItsPorts` | pkg/firewall/firewall.go:238-247 | a range of ports allows exactly what its ports allow, both ends included |
| `RuleMeaning.BothIsTcpAndUdp` | pkg/firewall/firewall.go:234-237 | a rule for both protocols allows what its tcp and its udp version allow |
| `RuleMeaning.AnySourceIsEverySource` | pkg/firewall/firewall.go:230-233 | a rule without a source allows what its versions with a source allow together |
| `RuleMeaning.IcmpNeedsAddressesOnly` | pkg/firewall/firewall.go:214-223 | for icmp the protocol and ports of rule and packet do not matter |
| `RuleMeaning.CheckSweepsOwnFlow` | pkg/firewall/firewall.go:189-201 | a check leaves no expired hole of its flow and touches no other |
| `Firewall.Engine.RuleCheck` | pkg/firewall/firewall.go:189-201 | allowed exactly by an unexpired hole of the flow or by a rule; an expired hole is removed |
| `Firewall.Engine.Holepunch` | pkg/firewall/firewall.go:254-260 | the hole of the flow is set to this direction and expiry |
| `RuleIndex.StepRefines` | pkg/firewall/firewall.go:77-169 | with room in the key, one operation has the result and effect of the plain map |
| `Slots.SlotIsLowBits` | pkg/firewall/firewall.go:304-306 | two numbers of a node share a slot if and only if they differ by a multiple of 2^48 |
| `RuleIndex.StepBySlot` | pkg/firewall/firewall.go:77-169 | one operation adds, refuses and removes by node and low 48 bits of the number |
| `RuleIndex.IndexRefinesSlots` | pkg/firewall/firewall.go:77-169 | over every sequence by at most 65536 nodes, whatever the rule numbers, the index is the map by slots: result for result, with one rule per slot |
| `RuleIndex.IndexRefinesPlainMap` | pkg/firewall/firewall.go:77-169 | over every sequence with at most 65536 nodes and 48-bit rule numbers the index is the plain map, result for result |
| `RuleIndex.ShortIdsDifferIff` | pkg/firewall/firewall.go:291-303 | short identifiers of successive nodes are pairwise different if and only if there are at most 65536 |
| `FlowRuns.Router.HandleTransportPacket` | pkg/router/router.go:167-218 | the outcome and the holes after a client packet, for every branch; a packet that passed is sent if and only if it has a route |
| `FlowRuns.OutcomeDecides` | pkg/router/router.go:167-218 | which client packets leave by the interface and which pass to another client |
| `FlowRuns.MeshIsPrefix` | internal/utils/netutils/ip.go:57-60 | an address is in the mesh network exactly when clearing its host part gives the base |
| `FlowRuns.ForbiddenRanges` | pkg/router/router.go:220-244 | the ranges a client must not reach outside the mesh, by their dotted addresses |
| `FlowRuns.Router.HandleMeshPacket` | pkg/router/router.go:141-165 | a mesh packet opens its flow for a minute, and is handed to its route if and only if it has one |
| `FlowRuns.Router.AddRule` | pkg/firewall/firewall.go:77-95 | with a short identifier for the node, the addition by the real engine is the addition of the runs, for every rule number |
| `FlowRuns.Router.RemoveRule` | pkg/firewall/firewall.go:138-183 | the removal by the real engine is the removal of the runs, for every rule number, and closes every flow it leaves without a rule |
| `FlowRuns.AddedRuleAllows` | pkg/firewall/firewall.go:77-95 | an added rule allows its packets at once and changes nothing else |
| `FlowRuns.OpenedFlowPasses` | pkg/router/router.go:141-145 | a mesh packet, or a client packet that passed, opens its flow: for less than a minute every packet of it passes, both ways, through every run without a removal |
| `FlowRuns.OpenedFlowExpires` | pkg/router/router.go:206-206 | a minute after the last packet that opened it, whatever else happened, only the rules decide about a flow |
| `FlowRuns.FlowShareRules` | pkg/firewall/firewall.go:204-250 | the rules allow one packet of a flow in some direction exactly when they allow every packet of it in some direction |
| `FlowRuns.StepKeepsJustified` | pkg/router/router.go:141-218 | every step keeps: each hole belongs to a flow the current rules allow one way, or the mesh has opened |
| `FlowRuns.PassedMeansAllowed` | pkg/router/router.go:167-218 | in every run a packet passes only if the rules of that moment allow its flow one way, or a mesh packet of the flow came before |
| `FlowRuns.RemovalCloses` | pkg/firewall/firewall.go:138-183 | after a removal a flow is closed or still has a rule for one direction |
| `FlowRuns.StepKeepsClosed` | pkg/router/router.go:141-218 | a step that neither adds an allowing rule nor brings a mesh packet of the flow keeps it closed and drops its packets |
| `FlowRuns.ClosedFlowStaysClosed` | pkg/router/router.go:141-218 | the same over every run, for every packet of the flow in it |
| `FlowRuns.RemovedFlowIsRefused` | pkg/firewall/firewall.go:171-183 | once a removal leaves a flow without a rule it is refused in both directions until reopened |
| `FlowRuns.PassesAfterRemovalIff` | pkg/firewall/firewall.go:171-201 | after a removal a packet passes if and only if the rules left allow it, or its flow is open and they allow the stored direction |
| `FlowRuns.RepliesSurviveRemovalIff` | pkg/firewall/firewall.go:175-183 | an open one-way flow, icmp included, keeps its replies through a removal exactly when the allowed direction was punched last |
| `FlowRuns.UnrelatedRemovalStopsReplies` | pkg/firewall/firewall_test.go:36-52 | a concrete run in which removing an unrelated rule refuses the replies of an open flow |
| `Reconcile.WireRoundTrip` | pkg/mesh/peerssync/server.go:59-82 | a rule survives the trip through its wire form |
| `Reconcile.PortsKeepLowBits` | pkg/mesh/peerssync/syncer.go:133-148 | of a wider port the low sixteen bits count |
| `Reconcile.Syncer.AddRemoteRule` | pkg/mesh/peerssync/syncer.go:126-153 | a reported rule is added unless it is ours or its slot is taken |
| `Reconcile.Syncer.DeleteRemoteRule` | pkg/mesh/peerssync/syncer.go:154-161 | a reported removal empties the slot of its number |
| `Reconcile.Syncer.SyncRules` | pkg/mesh/peerssync/syncer.go:95-115 | every rule after reconciling with a dump, in closed form and slot by slot, for every number |
| `Reconcile.Syncer.AddRemoteRoute` | pkg/mesh/peerssync/syncer.go:241-251 | a reported client is added unless it is ours or the address is taken |
| `Reconcile.Syncer.DeleteRemoteRoute` | pkg/mesh/peerssync/syncer.go:252-256 | the route of a reported address is deleted |
| `Reconcile.Syncer.SyncPeerObject` | pkg/mesh/peerssync/syncer.go:224-240 | one report replaces a foreign route, never ours, and never creates one of ours |
| `Reconcile.Syncer.SyncClients` | pkg/mesh/peerssync/syncer.go:202-222 | every route after reconciling with a dump, in closed form, repeated addresses included |
| `Reconcile.DumpDecidesPeerRules` | pkg/mesh/peerssync/syncer.go:92-115 | ours are untouched, third nodes' only grow, by reported rules, and each reported one has its slot filled; the peer's rule numbers are exactly the reported ones if and only if each of these has its slot to itself |
| `Reconcile.NarrowDumpDecides` | pkg/mesh/peerssync/syncer.go:95-125 | numbers below 2^48, in the dump and in the copy, have their slots to themselves |
| `Reconcile.SharedSlotLosesBoth` | pkg/mesh/peerssync/syncer.go:95-125 | a reported number that shares the slot of one held is refused, and the one held is swept away |
| `Reconcile.DumpDecidesPeerRoutes` | pkg/mesh/peerssync/syncer.go:200-222 | the peer's routes are exactly the addresses last reported for it and not ours, a foreign address goes to the last node reported, or to none if that is us, and our routes are untouched |
| `Reconcile.DistinctReports` | pkg/mesh/peerssync/syncer.go:204-209 | with one entry per address the last report is that entry |
| `Reconcile.RemovalSparesLocalsIff` | pkg/mesh/peerssync/syncer.go:252-256 | a removal event spares every local route exactly when it names an address that is not local |
| `Replication.RuleSource.Open` | pkg/router/events.go:77-83 | a subscriber gets a new empty channel |
| `Replication.RuleSource.Cancel` | pkg/router/events.go:84-91 | a cancelled channel is dropped |
| `Replication.RuleSource.NotifyAll` | pkg/router/events.go:101-111 | every channel with room gets the event, a full one misses it |
| `Replication.RuleSource.AddRule` | pkg/router/firewall_inherited.go:7-25 | a successful local addition, and only that, is announced with the whole rule; it succeeds when the slot is free |
| `Replication.RuleSource.RemoveRule` | pkg/router/firewall_inherited.go:29-41 | a successful local removal, and only that, is announced, under the number it was called with; it empties that number's slot |
| `Replication.RuleSource.AddRemoteRule` | pkg/router/firewall_inherited.go:47-50 | a remote addition announces nothing |
| `Replication.RuleSource.ChangeOwn` | pkg/router/firewall_inherited.go:7-41 | to each of any number of subscribers the owner's change is one step of the protocol |
| `Replication.RuleSource.BuildSync` | pkg/mesh/peerssync/server.go:84-110 | a dump lists every rule of the table |
| `Replication.Dispatch` | pkg/mesh/peerssync/syncer.go:61-90 | handling one message off the stream is the protocol's delivery |
| `Replication.DumpRestoresIff` | pkg/mesh/peerssync/server.go:31-57 | a dump puts the copy on the way to agreement if and only if the waiting events agree with the table it was built from |
| `Replication.StepKeeps` | pkg/mesh/peerssync/server.go:38-57 | every step that loses nothing keeps the copy on its way to agreement |
| `Replication.StepKeepsFaithful` | pkg/mesh/peerssync/syncer.go:95-153 | wherever one of the owner's rules is, it has the content of its number |
| `Replication.DrainedMeansAgreed` | pkg/mesh/peerssync/syncer.go:69-90 | with nothing under way, being on the way is the same as agreeing |
| `Replication.SubscriberAgrees` | pkg/mesh/peerssync/server.go:25-57 | after any past, losses included: from a channel in agreement, a run without loss that sends a dump ends with the subscriber holding exactly the owner's rules once drained |
| `Replication.FreshSubscriptionAgrees` | pkg/mesh/peerssync/server.go:25-33 | in particular from a new subscription, with changes between subscribing and the snapshot |
| `Replication.StaleEventOutlivesDump` | pkg/mesh/peerssync/server.go:43-54 | a dump sent past a stale waiting event does not restore agreement |
| `Replication.DrainedAgreesIff` | pkg/mesh/peerssync/server.go:84-110 | when everything has arrived after a dump, the tables agree if and only if the waiting events agreed with the table when it was sent |
| `Replication.LossOutlivesDump` | pkg/router/events.go:101-111 | a run from nothing in which a removal finds the channel full and, after a later dump, the drained tables disagree |
| `Replication.ReusedNumberKeepsOldRule` | pkg/mesh/peerssync/syncer.go:117-125 | a dump never replaces a rule already held under the same number |
| `Events.OfferAll` | pkg/router/events.go:45-55 | a non-blocking send to every channel: each with room gets the event, a full one misses it |
| `Events.ChannelKeepsFirst` | pkg/router/events.go:77-111 | a channel nobody reads keeps the first two hundred events, in order |
| `RouteReplication.RouteSource.AddRoutingObject` | pkg/router/routingtable_inherited.go:13-24 | a client is refused when its address is taken and announced otherwise; one protocol step to each subscriber |
| `RouteReplication.RouteSource.DeleteRoutingObject` | pkg/router/routingtable_inherited.go:30-48 | whatever route the address has is deleted and withdrawn; one protocol step to each of any number of subscribers |
| `RouteReplication.RouteSource.BuildSync` | pkg/mesh/peerssync/server.go:164-179 | a dump lists every route of the table |
| `RouteReplication.Dispatch` | pkg/mesh/peerssync/syncer.go:178-197 | handling one client message off the stream is the protocol's delivery |
| `RouteReplication.EventsDecide` | pkg/mesh/peerssync/syncer.go:241-256 | the last event about an address decides, unless someone else holds it and nothing is withdrawn |
| `RouteReplication.DumpRestoresIff` | pkg/mesh/peerssync/server.go:164-179 | a dump puts an address on its way if and only if the waiting events agree with the table and, where someone else keeps the address through the dump, one of them withdraws it |
| `RouteReplication.StepKeeps` | pkg/mesh/peerssync/server.go:126-144 | every step that loses nothing about an address and is no claim of others keeps it on its way |
| `RouteReplication.RunKeeps` | pkg/mesh/peerssync/server.go:113-145 | an address on its way to agreement, or unclaimed by others and with a dump to come, is on its way after every quiet run |
| `RouteReplication.SubscriberRoutes` | pkg/mesh/peerssync/server.go:113-145 | once drained, the subscriber routes an address as the owner does, after any past, if from here on nothing about it is lost and nobody else claims it |
| `RouteReplication.HeldAddressWaitsForDump` | pkg/mesh/peerssync/syncer.go:202-251 | an announcement is refused while another node holds the address, and the next dump gives it to the owner unless it is a local one |
| `RouteReplication.LocalRouteSurvivesIff` | pkg/mesh/peerssync/syncer.go:224-256 | a local client keeps its route through any messages, dumps included, if and only if none of them withdraws its address |
| `IpAlloc.RangeOfSubnet` | internal/utils/ipalloc/apalloc.go:39-48 | a prefix of at most 30 yields all addresses but network and broadcast |
| `IpAlloc.RangeExistsIff` | internal/utils/ipalloc/apalloc.go:39-48 | a longer prefix is refused, except for the two extreme host addresses |
| `IpAlloc.Allocator.IsReserved` | internal/utils/ipalloc/apalloc.go:74-81 | membership in the reserved list |
| `IpAlloc.Allocator.RemoveFromFreed` | internal/utils/ipalloc/apalloc.go:84-91 | removes the first occurrence |
| `IpAlloc.Allocator.Reserve` | internal/utils/ipalloc/apalloc.go:95-145 | state and error of every case |
| `IpAlloc.Allocator.Get` | internal/utils/ipalloc/apalloc.go:148-176 | takes from the freed stack, else the first unreserved address in 32-bit arithmetic, and terminates for every range that is accepted |
| `IpAlloc.Allocator.Free` | internal/utils/ipalloc/apalloc.go:180-203 | state and error of every case |
| `IpAlloc.GetIsSafe` | internal/utils/ipalloc/apalloc.go:148-176 | an address handed out was neither issued nor reserved and lies in the range; safety and ledger are kept |
| `IpAlloc.ReserveIsSafe` | internal/utils/ipalloc/apalloc.go:95-145 | reserving keeps safety always, and the ledger exactly when the address is not freed |
| `IpAlloc.FreeKeepsLedgerIff` | internal/utils/ipalloc/apalloc.go:180-203 | giving back an issued address always succeeds; a successful call keeps the invariant exactly when the address is below the pointer, and the ledger exactly when it was issued |
| `IpAlloc.FreeThenGet` | internal/utils/ipalloc/apalloc.go:148-202 | the address freed last is handed out next, and the pool is then as before |
| `IpAlloc.LowestComesFirst` | internal/utils/ipalloc/apalloc.go:165-173 | with nothing freed, the lowest address neither issued nor reserved is handed out |
| `IpAlloc.ReserveSucceedsIff` | internal/utils/ipalloc/apalloc.go:95-145 | which addresses can be reserved, and the error of each of the others |
| `IpAlloc.FreeSucceedsIff` | internal/utils/ipalloc/apalloc.go:180-203 | which addresses can be freed, and the error of each of the others |
| `IpAlloc.AddressesAreConserved` | internal/utils/ipalloc/apalloc.go:11-18 | issued, freed and passed-over reserved addresses add up to the range below the pointer |
| `IpAlloc.GetFailsIff` | internal/utils/ipalloc/apalloc.go:165-175 | the pool is exhausted if and only if issued plus reserved addresses fill the range |
| `IpAlloc.AllocationIsSafe` | internal/utils/ipalloc/apalloc.go:23-203 | over every run that gives back only issued addresses, reservations of freed ones included, in a subnet of prefix at most 30: an address handed out is not issued, reserved, network or broadcast, and no freed address is listed twice |
| `IpAlloc.SubnetAllocation` | internal/utils/ipalloc/apalloc.go:95-176 | if no freed address is reserved either, there is no address left exactly at 2^(32-p) - 2 issued plus reserved |
| `IpAlloc.FreeIsHarmlessIff` | internal/utils/ipalloc/apalloc.go:180-203 | after a successful Free no later run hands out an address that is still held if and only if the freed one was below the pointer; with nothing lost to reservations, if and only if it was issued |
| `IpAlloc.NeverIssuedTwiceIff` | internal/utils/ipalloc/apalloc.go:39-57 | of all subnets accepted, an address still issued is handed out in some run exactly for 0.0.0.0/32 |
| `IpAlloc.WrapReissues` | internal/utils/ipalloc/apalloc.go:166-173 | in the pool of 0.0.0.0/32 the pointer wraps: 0.0.0.0 is handed out, then the first address again |
| `IpAlloc.FreeingUnissuedIssuesTwice` | internal/utils/ipalloc/apalloc.go:194-202 | a concrete double issue after freeing an unissued address |
| `Sharding.ParserOutput` | internal/utils/dgmessage/dgmessage.go:67-86 | the parser yields tcp, udp or icmp, and no ports for icmp |
| `Sharding.ParserReadsBack` | internal/utils/dgmessage/dgmessage.go:51-105 | a datagram parses to given addresses, protocol and ports if and only if it carries them as in section 3.1 of RFC 791, with or without options, and is long enough for its protocol |
| `Sharding.ParserRefusals` | internal/utils/dgmessage/dgmessage.go:51-86 | why a datagram is refused: exactly the first test it fails |
| `Sharding.SameKeySameWorker` | pkg/router/sharded.go:39-70 | packets with equal flow keys go to one worker, in range |
| `Sharding.WorkerIsHash` | pkg/router/sharded.go:39-70 | the worker is the hash of the two ends, lower address first, reduced to the number of workers |
| `Sharding.KnownTcpHash` | pkg/router/sharded.go:48-64 | the hash of the tcp flow from 10.0.0.1:5000 to 10.0.0.2:443 |
| `Sharding.KnownIcmpHash` | pkg/router/sharded.go:48-64 | the hash of icmp between 10.0.0.1 and 10.0.0.2 |
| `Sharding.ArriveKeepsOrder` | pkg/router/sharded.go:20-37 | enqueuing keeps handled plus waiting packets of a flow equal to the arrived ones |
| `Sharding.WorkKeepsOrder` | pkg/router/router.go:96-114 | a worker's step keeps the same |
| `Sharding.FlowsKeepArrivalOrder` | pkg/router/sharded.go:20-70 | in every interleaving of the workers the packets of a flow, both ways, are handled in arrival order |
| `Sharding.ThousandCanWait` | pkg/router/router.go:66-68 | a thousand packets of any flows can wait without anyone being held up |
| `Manager.RuleManager.Run` | pkg/services/firewallmanager/service.go:38-58 | start-up keeps what the engine has, adds joined rules only, and fills the slot of every joined rule |
| `Manager.RuleManager.AddRule` | pkg/services/firewallmanager/service.go:60-90 | database and engine after every combination of query outcomes, for every number the database gives out |
| `Manager.RuleManager.RemoveRule` | pkg/services/firewallmanager/service.go:92-101 | the row of the number goes, and whatever rule has its slot; or neither |
| `Manager.RuleManager.RemoveAllPeerRules` | pkg/services/firewallmanager/service.go:103-120 | the peer's rules leave the engine first, its rows afterwards if the delete succeeds |
| `Manager.RuleKeepsTheRow` | pkg/services/firewallmanager/service.go:45-55 | the address and every field of a row can be read back from the rule it becomes |
| `Manager.AddedRuleIsInForce` | pkg/services/firewallmanager/service.go:60-90 | an addition that succeeds with its slot free is in the engine and in the join, with the peer's address |
| `Manager.RemovedRuleIsGone` | pkg/services/firewallmanager/service.go:92-101 | a removal takes the row and the rule, and no other row |
| `Manager.ClearedPeerIsGone` | pkg/services/firewallmanager/service.go:103-120 | clearing a peer takes all its rows and rules, and no row of another peer |
| `Manager.AddKeepsAgreementIff` | pkg/services/firewallmanager/service.go:60-90 | agreement survives unless the peer look-up fails after the insert or the slot of the new number is taken |
| `Manager.RemoveKeepsAgreementIff` | pkg/services/firewallmanager/service.go:92-101 | removing a number keeps agreement if and only if no other rule in force has its slot |
| `Manager.SharedSlotSplits` | pkg/api/controllers/grpc/firewall_handler.go:76-88 | removing number 2^48 + 5 takes rule 5 out of the engine and leaves it in the database |
| `Manager.ClearKeepsAgreementIff` | pkg/services/firewallmanager/service.go:103-120 | agreement survives unless the delete fails after the engine was cleared, or another peer's rule had the slot of a row cleared |
| `Manager.CreateKeepsAgreementIff` | internal/infra/repos/rules.sql.go:58-69 | a new peer keeps agreement exactly when no row refers to it yet |
| `Manager.DropKeepsAgreementIff` | pkg/services/peersmanager/service.go:234-246 | deleting a peer keeps agreement exactly when its rows are gone |
| `Manager.StepAgreesIff` | pkg/services/firewallmanager/service.go:60-120 | one operation keeps agreement if and only if it is not one of the splitting events |
| `Manager.EngineAgreesWithDatabase` | pkg/services/firewallmanager/service.go:38-120 | over every run without such an event the engine's own rules are the join of the database |
| `Manager.Restart` | pkg/services/firewallmanager/service.go:38-58 | after any run without such an event, start-up over the database in an engine without own rules rebuilds exactly the own rules there were, and leaves the others alone |
| `Quota.BudgetIsExactIff` | pkg/transport/awg/transport.go:179-182 | the unsigned subtraction read as signed is the true difference exactly when that fits 64 signed bits |
| `Quota.ShapedRoute.PushLimited` | pkg/routingtable/shaped.go:58-64 | counts the packet and passes it while the counter is not negative |
| `Quota.ShapedRoute.IsAllowed` | pkg/routingtable/shaped.go:83-95 | the same, and asks the rate limiter |
| `Quota.PassesIffFits` | pkg/routingtable/shaped.go:59-64 | a packet passes if and only if it and all before it fit the budget |
| `Quota.RefusalIsFinal` | pkg/routingtable/shaped.go:84-89 | after one refusal every later packet is refused |
| `Quota.PassedBytesFitBudget` | pkg/routingtable/shaped.go:58-95 | the bytes that pass are at most the budget, and all of them while they fit |
| `Quota.ClientStaysWithinLimit` | pkg/transport/awg/transport.go:179-183 | from limit and usage to the bytes a client can still pass |
| `Quota.Drive` | pkg/routingtable/shaped.go:58-95 | a route in use, in both directions: each packet passes the traffic check exactly when it and all before it fit what is left of the limit |
| `Quota.OnlyFittingPassIff` | pkg/routingtable/shaped.go:58-95 | only packets that fit the budget pass if and only if the packets never take the counter below -2^63 |
| `Quota.NegativeIsFinalIff` | pkg/routingtable/shaped.go:59-64 | a negative counter refuses for good if and only if the packets never take it below -2^63 |
| `Quota.UnderflowReopens` | pkg/routingtable/shaped.go:84-89 | a concrete client whose counter wraps and who passes again |
| `Batch.Writer.CopyToSlot` | pkg/iface/iface.go:451-452 | a payload lands whole in its slot, in bounds, and every other byte of the buffer is untouched |
| `Batch.Writer.Take` | pkg/iface/iface.go:445-456 | an empty or oversized message is freed at once, any other takes the next slot |
| `Batch.AcceptedExactly` | pkg/iface/iface.go:446-449 | accepted are exactly the messages of one byte to the limit of the interface, in order |
| `Batch.Writer.Project` | pkg/iface/iface.go:482-486 | the projections given to the interface hold the waiting payloads byte for byte |
| `Batch.Writer.Send` | pkg/iface/iface.go:481-499 | one batch is written and its messages freed |
| `Batch.Writer.WriteLoop` | pkg/iface/iface.go:441-500 | the loop keeps the books and leaves nothing waiting |
| `Batch.WriteAll` | pkg/iface/iface.go:418-501 | what is written is exactly the accepted payloads in order, in batches of one to batchSize, all but the last full while messages are at hand, and every received message is freed once |

## Left out

- QUIC, TLS, gRPC, HTTP, JWT, the TUN and AmneziaWG devices, netlink and iptables: foreign calls.
- Node shutdown and network failure inside the two-node dial protocol: connections end there only because a node closes them.
- More than one connection per direction between two nodes: it would add states but no new decision.
- The dialling set of discovery (`startDial`, `finishDial`) and the dispatch of discovery streams: settled by reading them.
- Peer files whose keys differ from the identifiers inside them (pkg/mesh/topology/disk.go does not check this): the store is assumed to file records under their own identifier.
- Gossip.GossipConvergesIff: for update sets with one non-empty address at most per identifier; identifiers with several addresses, some of which converge because they always lose, are not characterised.
- Rules and clients relayed through third nodes, whose stale dumps can bring entries back: replication is between an owner and its direct subscriber.
- Interleavings inside one packet or one control operation: each is one atomic step.
- Reading loop, slot arithmetic of `readLoop`, statistics and logging.
- Engines that have met more than 65536 nodes, whose short identifiers repeat: outside `RuleIndex`, rules of different nodes never share a slot.
- Replication.SubscriberAgrees: the owner's rules have numbers below 2^48, here and at the subscriber, and no number is used for two rules; what happens otherwise is in `SharedSlotLosesBoth` and `ReusedNumberKeepsOldRule`. Removals of any number are covered.
- Manager.RuleManager.AddRule: constraint violations of the insert, and the end of the database's row numbers at 2^63, are among its failures.
- Quota.ShapedRoute.PushLimited: what happens to a packet past the traffic check (sending, queueing, freeing) is not modelled; neither is the rate limiter.
- Batch.WriteAll: for datagrams of at most 65535 bytes, which the message pool guarantees, and a batch size of at least one.
