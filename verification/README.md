# cocoon-net, verified

A Dafny model of the parts of cocoon-net that decide who owns an address, a route, a firewall rule or a cloud
interface, with proofs about every run of them.

- `dhcp/` is the embedded DHCP server. `LeaseMachine` describes each handler (DISCOVER, REQUEST, RELEASE, control
  delete, sweep, start-up) as a function from the memory it finds under the lifecycle lock, and from the answers of
  the outside world, to the memory it leaves and the ordered list of effects others can see: routes added and deleted,
  a REQUEST entering the table, the lease file replaced, an ACK sent. Every save, route call, reply and send may fail.
  A process may die between any two effects; it then loses its memory, its unserved packets, and nothing else. A run
  is any sequence of clock ticks, arrivals, handlers in any order, crashes (also inside a handler or a start-up) and
  restarts. `LeaseDecisions` says what each handler answers and leaves, and when; `LeaseSafety`, `LeaseAccounting`,
  `LeaseHandshake`, `LeaseFencing` and `LeaseOrder` prove what all runs keep; `LeaseLimits` proves when a start-up
  breaks the promises, and holds runs on which it does. `Pool`, `LeaseStore` and `Server` are the source's objects,
  changed in place; each method is proved to do what the function of `LeaseMachine` says, memory and effects alike.
  `LeaseFile` and `AtomicFile` are the lease file as lines, and the file replaced by rename.
- `platform/` is CIDR arithmetic. `Bits` defines shifts, and, or, exclusive-or on numbers digit by digit; `Cidr`
  proves the mask expressions equal to intervals of integers; `AdoptPool` is the pool of an adopted node.
- `node/` is the FORWARD chain, changed command by command, each of which may fail.
- `volcengine/` and `cmd/` are the create, attach and delete loop, provisioning, teardown, and the `init` and
  `teardown` commands over the state file. `Commands` follows the interfaces over any sequence of commands; an `init`
  killed on the way leaves what one leaves whose last save failed.

Check the whole project with `dafny verify dfyconfig.toml`.

## Main results

- Over every run, an ACK never gives an address that another MAC was ACKed and may still use
  (`LeaseSafety.ExclusiveAcks`), and an ACKed binding stays in the lease file, also across crashes and failed saves
  (`LeaseSafety.DurableAcks`). A claim ends with the owner's committed REQUEST for another address, its persisted
  release, or the second its lease expires in. RFC 2131 asks for this in sections 3.1, 4.3.2 and 4.3.4.
- The pool's books add up after every handler, on every failure path (`LeaseAccounting.RunsKeepBooks`); unexpired
  offers are honoured (`LeaseAccounting.OfferIsHonoured`), and the exchange from DISCOVER to ACK completes under any
  interleaving (`LeaseHandshake.HandshakeCompletes`).
- Late packets cannot disturb a newer grant (`LeaseFencing.ActiveLeaseFenced`); addresses are freed after they are
  forgotten on disk (`LeaseOrder.PersistBeforeFree`); routes follow leases (`LeaseOrder.RoutesFromStart`).
- A setup of the firewall leaves no moment without a DROP for what is covered before and after
  (`Firewall.Tables.SetupIptables` and `Firewall.NeverOpen`).
- No cloud interface is lost over sequences of `init` and `teardown`, under conditions that can be checked before each
  (`Commands.NoEniIsLost`).
- `SubnetIPs` and `CIDRContainsCIDR` are exact for every prefix length from 0 to 32.

## Promises the code does not keep

For each the exact condition is proved, and the code is kept as it is.

- A lease file that exists but cannot be read starts an empty table. The documentation says a restart does not
  double-assign leases (docs/dhcp.md:28-34). After any run without such an accident, the life that a start-up begins
  can double-assign if and only if it cannot read the file and some claim is still alive
  (`LeaseLimits.UnreadableStart`), and then it does so for any live claim and any other MAC that asks
  (`LeaseLimits.GivenAway`). Exclusion and durability are proved for all runs without such a start-up;
  `LeaseLimits.UnreadableFileAcksTwice` is a run with one.
- `load` keeps a lease that expires at the instant it reads, and `restoreLeases` skips it. The books of a start-up are
  in order if and only if no loaded expiry falls between its two clock readings (`LeaseAccounting.StartBooks`);
  `LeaseLimits.GapFreesAnOffer` is a run in which an unexpired offer is then refused. Exclusion needs no such
  condition.
- A rebind frees the old address before it saves. The file still names the freed address if and only if that save
  fails and the file named it before (`LeaseOrder.RebindFreesFirst`). Exclusion survives this, since every ACK follows
  a save of the whole table.
- A DROP for 0.0.0.0/0 is listed without a destination, so the prune that follows the insert removes it again,
  although docs/dhcp.md:92-97 promises a rule for every `--drop-cidr`. After a setup an address is dropped by a tagged
  rule if and only if a configured CIDR other than a /0 covers it (`Firewall.DroppedIffConfigured`,
  `Firewall.EverythingIsNotDropped`).
- An `init` that cannot read an existing state file writes an empty one over it. On every exit it strands exactly the
  recorded interfaces that still exist and that it does not reuse from the listing (`Commands.UnreadableStateStrands`,
  with an input in `Commands.UnreadableStateLosesOne`).
- docs/configuration.md:78 says teardown deletes exactly the recorded interfaces. One that removes the record strands
  exactly the outstanding interfaces it did not delete: those a full listing page left out, and all of them when the
  record was claimed by another platform (`Commands.TeardownStrandsUnlisted`, with inputs in
  `Commands.FullPageLosesOne` and `Commands.PlatformSwitchLosesOne`).

## Assumptions

The clock does not go back. Addresses, lease time and pool are the same in every life of the server. The lease file is
written only by the server. The cloud gives no interface id twice, and for the run theorem of `Commands` it answers
listings that do not fill their page honestly. Packets may be stamped at any moment of the process, also while a
handler is under way. iptables commands either do what they say or fail and change nothing, and nobody else edits the
chain meanwhile.

## Model

| member | source | states |
|---|---|---|
| `LeaseSafety.ExclusiveAcks` | dhcp/request.go:14-92 | over every run with crashes, restarts and any failures, whose start-ups read the lease file or meet no claim alive: when an address is ACKed to one MAC, every earlier ACK of it to another has ended or is past the second it expires in |
| `LeaseSafety.DurableAcks` | dhcp/request.go:80-84 | in every state of every such run, alive or dead, an ACKed binding that has not ended or expired is in the lease file with its MAC, address and at least its second-truncated expiry, and is a live lease of a live process |
| `LeaseSafety.RunsKeepInv` | dhcp/server.go:66-134 | the invariant behind both: each save lists every live claim, each ACK is on disk first, each live claim has its row |
| `LeaseSafety.StepKeepsInv` | dhcp/server.go:160-175 | one event keeps it: a tick, an arrival, a handler, a crash anywhere, a start-up that reads the file or meets no claim alive |
| `LeaseSafety.HandlerStep` | dhcp/request.go:58-91 | any first part of a handler's effects leaves a dead process in order, all of them a live one |
| `LeaseSafety.RequestSafe` | dhcp/request.go:14-92 | REQUEST, on every exit, keeps every other live claim backed, persists before the ACK, and ACKs only an address no other live claim names |
| `LeaseSafety.GrantBacks` | dhcp/request.go:36-78 | the row written by a grant backs the client's claim and displaces no row that backs another live claim |
| `LeaseSafety.AckExclusive` | dhcp/request.go:80-84 | right after the save, no other unexpired claim names the ACKed address |
| `LeaseSafety.RenewalIsGranted` | dhcp/request.go:27-66 | in every such run the owner renews: its REQUEST that asks for, or else reports as its own, its ACKed, un-ended, unexpired address, no earlier than its grant, is granted unless the reply cannot be built or the route not added, writes the row anew, and is ACKed unless save or send fails |
| `LeaseDecisions.RequestDecides` | dhcp/request.go:19-91 | when a REQUEST is granted and how it fails otherwise, in the order of the checks, said of the packet, the rows, the offers and the pool |
| `LeaseDecisions.RefusalChangesNothing` | dhcp/request.go:42-66 | a REQUEST that is not granted leaves everything as it was, the claim given back |
| `LeaseDecisions.GrantLeaves` | dhcp/request.go:68-79 | what a grant leaves: its row for the full lease time, no other row of the address, every other row and offer as it was, the rebound address free |
| `LeaseDecisions.GrantShows` | dhcp/request.go:58-91 | what others see of a grant: route first, rebound route deleted, the whole table saved, the ACK last and right after the save, each exactly when it succeeds |
| `LeaseDecisions.ReleaseDecides` | dhcp/release.go:46-66 | a RELEASE takes the row exactly when the lease is active, the packet comes from and names the leased address, is no older than the grant, and the save succeeds; then the address is free; otherwise nothing happens |
| `LeaseDecisions.ControlDeletes` | dhcp/release.go:14-35 | a control delete takes the row, expired or not, exactly when there is one and the save succeeds |
| `LeaseDecisions.SweepDecides` | dhcp/cleanup.go:41-60 | exactly which offers and rows a sweep takes, that their addresses are free, and when it saves |
| `LeaseDecisions.StartDecides` | dhcp/lease.go:188-216 | from any file, exactly which lines a start-up keeps, those outside the pool dropped |
| `LeaseDecisions.StartRoutesDecide` | dhcp/cleanup.go:13-25 | from any file, exactly which routes a start-up adds and deletes |
| `LeaseSafety.ReleaseSafe` | dhcp/release.go:20-35 | a release or control delete drops only its own MAC's claim, and only once the file without it is saved |
| `LeaseSafety.SweepSafe` | dhcp/cleanup.go:41-60 | a sweep drops no unexpired claim, from memory or from the file |
| `LeaseSafety.DiscoverSafe` | dhcp/discover.go:11-50 | DISCOVER disturbs no claim and has no effect on routes or file |
| `LeaseSafety.StartSafe` | dhcp/cleanup.go:10-30 | a start-up drops no row it loads and changes only routes outside; when it reads the file or meets no claim alive, every live claim has its row |
| `LeaseLimits.UnreadableStart` | dhcp/server.go:76-83 | after any run whose earlier start-ups read the file or met no claim alive: the life a start-up begins can ACK an address that another MAC may still use if and only if that start-up cannot read the file while some claim is alive |
| `LeaseLimits.GivenAway` | dhcp/server.go:79-80 | after such a start-up the address of any live claim is ACKed to whichever other MAC asks for it, if nothing fails |
| `LeaseSafety.ClaimIsAck` | dhcp/request.go:84-91 | every claim goes back to an ACK that has not been ended and promised that second |
| `LeaseSafety.SavedFileLists` | dhcp/lease.go:166-186 | a saved table lists every live claim although expiries are cut to the second |
| `LeaseLimits.UnreadableFileAcksTwice` | dhcp/server.go:79-80 | a run in which one unreadable start-up is followed by two live ACKs of one address |
| `LeaseLimits.GapFreesAnOffer` | dhcp/lease.go:210-213 | a run from the first start in which a start-up falls in the clock gap, the sweep frees an address on offer, a third MAC is granted it, and the unexpired offer's owner is refused |
| `LeaseAccounting.RunsKeepBooks` | dhcp/pool.go:29-75 | in every state of every gap-free run: free and used partition the pool, used is the disjoint union of lease and offer addresses, free + leases + offers is the pool size, no release hit an address not in use, no MAC has both a lease and an offer |
| `LeaseAccounting.BooksAddUp` | dhcp/pool.go:77-81 | free count plus rows plus offers is the size of the pool |
| `LeaseAccounting.HandlerBooks` | dhcp/server.go:160-175 | every handler keeps the books on every success and failure path |
| `LeaseAccounting.DiscoverBooks` | dhcp/discover.go:38-50 | DISCOVER keeps the books, with a live, a stale or no offer, and with the pool exhausted |
| `LeaseAccounting.GrantBooks` | dhcp/request.go:42-79 | a grant keeps the books through claim, dropped offer, rebind and eviction |
| `LeaseAccounting.NoEviction` | dhcp/lease.go:59-64 | with the books in order a grant evicts no other MAC's row, so that branch is never taken |
| `LeaseAccounting.ReleaseBooks` | dhcp/release.go:20-44 | release and rollback keep the books |
| `LeaseAccounting.SweepBooks` | dhcp/cleanup.go:41-60 | the sweep keeps the books, also when its save fails after the offers were reclaimed |
| `LeaseAccounting.SweepFreesTheRest` | dhcp/cleanup.go:41-59 | after a sweep whose save succeeds, or that needs none, exactly the addresses are free that no unexpired row or offer holds |
| `LeaseAccounting.HandlerNoDouble` | dhcp/request.go:68-71 | no handler leaves a MAC with both an active lease and a pending offer |
| `LeaseAccounting.StartBooks` | dhcp/cleanup.go:10-30 | a start-up opens with its books in order if and only if no loaded expiry falls between its two clock readings |
| `LeaseAccounting.StartShape` | dhcp/cleanup.go:13-25 | after a start-up exactly the addresses of active leases are used, and every loaded row is kept |
| `LeaseAccounting.OfferIsReserved` | dhcp/offer.go:51-72 | an address on offer is not free, not offered to another MAC, and not leased to anyone |
| `LeaseAccounting.OfferIsHonoured` | dhcp/request.go:27-91 | in every gap-free run the owner's REQUEST for its unexpired offer is granted unless the reply cannot be built or the route not added, and ACKed unless save or send fails |
| `LeaseHandshake.HandshakeCompletes` | dhcp/request.go:42-91 | in every gap-free run: a client without a lease, with an offer or an address free, is offered one when the reply can be built and sent; whatever other clients, sweeps and releases do between, its REQUEST for that address, handled within 60 seconds, is granted and ACKed unless reply, route, save or send fails |
| `LeaseHandshake.OfferedIsHeld` | dhcp/discover.go:16-50 | DISCOVER is answered exactly when the client has a lease or an offer or an address is free, and reply and send succeed; the answer is the active lease or an address then on offer to it for 60 seconds, the same while an offer lasts and otherwise one the pool picked |
| `LeaseHandshake.OfferStands` | dhcp/offer.go:74-86 | within one life of the process an unexpired offer stays as it is under any events but its client's DISCOVER and REQUEST |
| `LeaseFencing.ExclusionKept` | dhcp/lease.go:48-73 | from any pool and offers contents, however wrong, every handler keeps at most one row per address |
| `LeaseFencing.TableAfter` | dhcp/lease.go:48-105 | exactly the rows each handler leaves, on success and failure |
| `LeaseFencing.ActiveLeaseFenced` | dhcp/request.go:27-30 | from any pool contents, an active lease is replaced or ended only by a control delete of its MAC, by its own MAC's REQUEST that arrived no earlier than the REQUEST that granted it, or by such a RELEASE from the leased address |
| `LeaseFencing.StampNeverGoesBack` | dhcp/release.go:59-62 | under any schedule, while a MAC's lease stays active its grant stamp never decreases |
| `LeaseOrder.PersistBeforeFree` | dhcp/release.go:22-34 | release, control delete and sweep touch rows and routes only after a save that no longer names the address; a failed save leaves the table as it was and has no effect |
| `LeaseOrder.FreedIsForgotten` | dhcp/cleanup.go:47-59 | after such a handler a leased address is free only if the file written first does not name it |
| `LeaseOrder.RebindFreesFirst` | dhcp/request.go:71-83 | after a rebind, from any lease file, the file still names the freed address if and only if the save failed and the file named it before |
| `LeaseOrder.RoutesFollow` | dhcp/release.go:38-44 | a handler that finds every row routed leaves every row routed, and adds no stray route but those whose deletion it tried and saw fail |
| `LeaseOrder.RoutesOverALife` | dhcp/request.go:58-79 | the same over any stretch of one life of the process |
| `LeaseOrder.RoutesFromStart` | dhcp/cleanup.go:13-25 | it is enough that the start-up fell in no gap and its route adds succeeded |
| `LeaseFile.SaveLoad` | dhcp/lease.go:166-216 | saving in any order and loading at an instant gives exactly the leases whose truncated expiry is not before it, same MAC and address, expiry less than a second lower, no grant stamp |
| `LeaseFile.SaveLoadAgain` | dhcp/lease.go:188-216 | a second save and load at the same instant loses nothing |
| `LeaseFile.LoadDecodes` | dhcp/lease.go:200-214 | loading line by line is loading what the lines say |
| `LeaseFile.DecodePrinted` | dhcp/lease.go:169-176 | the lines of a table say the table, in whatever order it was walked |
| `AtomicFile.ReplacedFile.Write` | utils/file.go:10-24 | at every one of its steps a crash finds the old file, until the last leaves the whole new one with the asked mode, which it does exactly when no step failed; a failed rename leaves no temporary |
| `Pool.IpPool.Allocate` | dhcp/pool.go:29-38 | moves some free address to used, or reports an empty pool |
| `Pool.IpPool.Release` | dhcp/pool.go:40-47 | the address is free and not used, whatever it was |
| `Pool.IpPool.MarkUsed` | dhcp/pool.go:50-62 | true exactly for an address the pool knows, which is then used |
| `Pool.IpPool.TryClaim` | dhcp/pool.go:64-75 | claims exactly the free addresses |
| `Pool.PendingOffers.Add` | dhcp/offer.go:28-35 | the offer of a MAC is replaced and runs 60 seconds |
| `Pool.PendingOffers.Remove` | dhcp/offer.go:38-48 | drops and returns the offer of a MAC |
| `Pool.PendingOffers.IpForMac` | dhcp/offer.go:51-65 | returns a live offer, drops an expired one and returns it apart |
| `Pool.PendingOffers.ExpireOld` | dhcp/offer.go:74-86 | drops exactly the offers past their time and returns each once |
| `LeaseStore.LeaseStore.Add` | dhcp/lease.go:48-73 | writes the row, removes other MACs' rows for the address, reports the own old address first and each removed row |
| `LeaseStore.LeaseStore.Active` | dhcp/lease.go:75-83 | the row of a MAC while it has not run out |
| `LeaseStore.LeaseStore.Take` | dhcp/lease.go:86-97 | removes and returns the row, expired or not |
| `LeaseStore.LeaseStore.RestoreAll` | dhcp/lease.go:99-105 | puts rows back |
| `LeaseStore.PutBackUndoes` | dhcp/cleanup.go:47-54 | rows taken out of the table and put back give exactly the table before |
| `LeaseStore.LeaseStore.IsLeasedToOther` | dhcp/lease.go:123-133 | true exactly when another MAC has an unexpired row for the address |
| `LeaseStore.LeaseStore.ActiveLeases` | dhcp/lease.go:135-146 | each unexpired row once, in some order |
| `LeaseStore.LeaseStore.ExpireOld` | dhcp/lease.go:152-164 | takes out exactly the expired rows and returns each once |
| `LeaseStore.LeaseStore.Save` | dhcp/lease.go:166-186 | the file has one line for each row, expiry cut to the second, exactly when no step failed; else it is untouched |
| `LeaseStore.LeaseStore.Load` | dhcp/lease.go:188-216 | the table holds the lines that are not past, or is empty when the file is missing or unreadable |
| `LeaseStore.LeaseStore.IpForMac` | dhcp/lease.go:107-114 | the address of a MAC's unexpired row |
| `Server.Server.constructor` | dhcp/server.go:56-64 | a new process has the whole pool free and empty tables, over the file and routes an earlier life left |
| `Server.Server.HandleDiscover` | dhcp/discover.go:11-35 | does to pool and offers what the machine's DISCOVER does, with the address the pool picked |
| `Server.Server.OfferIp` | dhcp/discover.go:38-50 | refreshes a live offer, frees a stale one, allocates otherwise |
| `Server.Server.HandleRequest` | dhcp/request.go:14-92 | on every exit memory, effects in order and verdict are those of the machine's REQUEST |
| `Server.Server.CommitGrant` | dhcp/request.go:68-78 | the old offer goes, the row is written, the rebound address is freed after its route |
| `Server.Server.ReleaseLeaseLocked` | dhcp/release.go:20-35 | take, save, then free, or put back when the save fails |
| `Server.Server.HandleRelease` | dhcp/release.go:46-66 | releases only an active lease, from its own address, and not a later grant's |
| `Server.Server.FreeIp` | dhcp/release.go:38-44 | the route is deleted before the slot is free, and the slot is freed even when that fails |
| `Server.Server.SweepExpired` | dhcp/cleanup.go:41-60 | offers first, then leases with save and rollback, as the machine's sweep |
| `Server.Server.ReclaimLeases` | dhcp/cleanup.go:47-59 | expired leases are persisted and freed, or the table is exactly the one before |
| `Server.Server.RestoreLeases` | dhcp/cleanup.go:10-30 | each active lease takes its address and route back, or is dropped when the pool never had it |
| `Server.Server.Start` | dhcp/server.go:76-83 | load, then restore unless the load failed, as the machine's start-up |
| `Cidr.ContainsIsInterval` | platform/ip.go:80 | the mask test is membership in an interval of integers |
| `Cidr.BroadcastIsLast` | platform/ip.go:70-77 | network or host mask is the last address for every length, also /0 where the 32-bit shift overflows |
| `Cidr.MaskedIsBase` | platform/ip.go:70-78 | masking gives the first address of the interval |
| `Cidr.HostPrefixAccepts` | platform/ip.go:54-87 | exactly the gateways strictly inside the interval are accepted; outside and collision are told apart |
| `Cidr.ShortPrefixesRejected` | platform/ip.go:80-85 | a /31 or /32 accepts no gateway |
| `Cidr.DefaultGatewayAccepted` | platform/ip.go:29-51 | the default first-host gateway is accepted exactly when the length is at most 30 |
| `Cidr.GatewayValues` | platform/ip.go:29-51 | a given gateway is taken as it is; the default is the address after the first, which only the last address of all does not have |
| `Cidr.BadTexts` | platform/ip.go:54-68 | which text is at fault, the prefix before the gateway |
| `Cidr.SubnetIps` | platform/ip.go:90-108 | rejects a bad prefix, gateway or negative count, and else returns the first min(count, size - 3) hosts; terminates also at 255.255.255.255 |
| `Cidr.HostsAreTheRest` | platform/ip.go:101-106 | those hosts ascend strictly and are the interval without network, gateway and broadcast |
| `Cidr.ContainsIsInclusion` | platform/ip.go:111-124 | true exactly when every address of inner lies in outer, masked or not |
| `Cidr.ContainsIsPreorder` | platform/ip.go:111-124 | hence reflexive and transitive |
| `AdoptPool.AdoptPool` | cmd/adopt.go:156-190 | on Volcengine the pool ascends strictly and is exactly the listed addresses inside the subnet but gateway and broadcast, an error exactly when there are none or an input is bad; elsewhere it is the subnet's hosts, an error exactly when an input is bad or the count negative |
| `AdoptPool.Collected` | cmd/adopt.go:170-185 | filter and dedupe: each qualifying address once, and the contributing interfaces |
| `AdoptPool.QualifiesMeans` | cmd/adopt.go:175-178 | an address qualifies when it is an IPv4 one in the interval but not gateway or broadcast |
| `AdoptPool.ContributorsCover` | cmd/adopt.go:172-184 | every pool address is held by a returned interface |
| `AdoptPool.ContributorsInOrder` | cmd/adopt.go:172-184 | the returned interfaces are exactly those that hold a qualifying address none before them holds, in listing order |
| `AdoptPool.SortIps` | platform/ip.go:22-26 | sorted, and a permutation |
| `Firewall.DestOfDrop` | node/iptables_linux.go:67-72 | the destination of a tagged rule is read back, except of the one for 0.0.0.0/0 |
| `Firewall.OrderlyMeans` | node/iptables_linux.go:106-113 | the invariant of the chain means that the tagged rules are a prefix of it, once each |
| `Firewall.RemoveFirstTakes` | node/iptables_linux.go:51-54 | deleting a tagged rule takes that rule only and keeps the tagged rules first |
| `Firewall.OthersUndisturbed` | node/iptables_linux.go:42-56 | deleting a tagged rule moves and removes no other rule |
| `Firewall.CoveredIsDropped` | node/iptables_linux.go:106-113 | with the tagged rules first, a packet to a covered address meets a DROP before any other rule |
| `Firewall.NoGap` | node/iptables_linux.go:106-118 | an address covered by an old rule and by a new target is dropped in every guarded chain with the tagged rules first |
| `Firewall.NeverOpen` | node/iptables_linux.go:106-118 | of a setup that guards: an address covered by an old tagged rule and by a configured CIDR other than a /0 meets a DROP first in the present chain and in every chain since the setup began |
| `Firewall.DroppedIffTargeted` | node/iptables_linux.go:106-118 | after a completed setup an address is dropped exactly when a target other than 0.0.0.0/0 covers it |
| `Firewall.DroppedIffConfigured` | node/iptables_linux.go:124-144 | the same of the CIDRs as configured, masked or not |
| `Firewall.TargetsOfMeans` | node/iptables_linux.go:124-144 | a configuration is good exactly when every CIDR it names is IPv4, the subnet only if it is to be dropped; its targets cover what those cover |
| `Firewall.EverythingIsNotDropped` | node/iptables_linux.go:48-54 | a setup asked for a /0 alone covers every address and drops none |
| `Firewall.CanonicalCovers` | node/iptables_linux.go:134-141 | the canonical form of a target covers the same addresses |
| `Firewall.ResolveDropTargets` | node/iptables_linux.go:125-144 | the canonical targets in order, or an error when one is malformed or not IPv4 |
| `Firewall.Tables.EnsureForward` | node/iptables_linux.go:146-158 | adds a missing rule, tagged ones at the head, others at the tail, changes nothing on failure, and records the new chain exactly when it changed |
| `Firewall.Tables.EnsureNat` | node/iptables_linux.go:102-104 | appends the rule only when it is missing |
| `Firewall.Tables.ReconcileDropRules` | node/iptables_linux.go:33-65 | no wanted rule is deleted at any moment, no other rule touched, and without error no unwanted one remains |
| `Firewall.Tables.InsertDrops` | node/iptables_linux.go:106-113 | every target is there on success and every old rule at every moment |
| `Firewall.Tables.SetupIptables` | node/iptables_linux.go:75-122 | succeeds exactly when the configuration is good and no command it issued failed; then exactly the targets but 0.0.0.0/0 have tagged rules and ACCEPTs and MASQUERADE are there; on every exit and in every chain in between, none of which goes unrecorded, tagged rules come first, once each, all old or all new ones are there, and no others; a second setup changes neither FORWARD nor POSTROUTING; a bad target changes nothing |
| `Firewall.Tables.ClearDropRules` | node/iptables_linux.go:24-30 | without error no tagged rule remains; no other is touched |
| `Firewall.RunAll` | node/iptables_linux.go:75-122 | over any sequence of setups and clears, failing or not, the tagged rules stay a prefix without duplicates |
| `Eni.EnsureEnis` | platform/volcengine/eni.go:34-110 | the loop, on every exit, ends in the cloud and with the result that the rounds describe |
| `Eni.EniLedger` | platform/volcengine/eni.go:34-110 | each id a parsed create reply named is in the result or was deleted, never both; reused interfaces are kept and not primary; the result never exceeds count; there is no error exactly when the listing came and every missing round went on, and when all could be attached the result has count interfaces |
| `Eni.EveryIdAccounted` | platform/volcengine/eni.go:46-95 | for any answers and any cancellation point, the learned ids are those kept and those deleted |
| `Eni.KeptOrGone` | platform/volcengine/eni.go:66-93 | what is kept exists, what was deleted does not, nobody else's interface is touched, and a loop without error kept exactly what it could attach |
| `Eni.LoopSucceeds` | platform/volcengine/eni.go:46-95 | the loop ends without error exactly when every round creates an interface and either attaches it and waits, or deletes it again with the context not done; when all are attached it keeps one a round, in order |
| `Eni.EachRoundDecides` | platform/volcengine/eni.go:66-93 | what becomes of the interface of every round up to the one that ends the loop |
| `Eni.ReuseKeepsSecondaries` | platform/volcengine/eni.go:107-110 | reuse takes listed non-primary interfaces in order, count of them or all |
| `Eni.NonPrimaryInOrder` | platform/volcengine/eni.go:107-110 | the filter keeps listing order and multiplicity |
| `Eni.MergeAdds` | cmd/utils.go:108-115 | recorded ids keep their place, missing ones are added, none is repeated |
| `Eni.MergeEniIds` | cmd/utils.go:108-115 | the loop computes that merge |
| `Eni.TeardownDeletes` | platform/volcengine/teardown.go:21-53 | only listed non-primary interfaces are deleted, and all of them when no error is reported |
| `Eni.TornDownExactly` | platform/volcengine/teardown.go:21-53 | exactly which interfaces are deleted, whatever fails, and that no error is reported exactly when the cloud lets all go that are not primary |
| `Eni.Teardown` | platform/volcengine/teardown.go:13-54 | the loop with its error count and early exit does that |
| `Provision.ProvisionNetwork` | platform/volcengine/provision.go:13-93 | ids on every exit after the interface loop; an error when no address was found, though one failed top-up is passed over |
| `Provision.ProvisionDecides` | platform/volcengine/provision.go:18-92 | when provisioning succeeds, fails with ids, and fails without, and which ids it returns |
| `Provision.ToppedUp` | platform/volcengine/provision.go:50-69 | interfaces short of 20 addresses are topped up, to 20 each when the calls add what is missing; full ones and failed calls count with what they hold |
| `Provision.LearnedIsReturned` | platform/volcengine/provision.go:40-92 | an id learned during provisioning whose interface still exists is among the returned ids on every exit |
| `Provision.NoAddresses` | platform/volcengine/provision.go:50-72 | provisioning fails for want of addresses exactly when no interface held one and no top-up that was tried added one |
| `Commands.Machine.RunInit` | cmd/init.go:28-125 | seed, provision, merge and save in order, with the state file and cloud the machine says on every exit |
| `Commands.Machine.RunTeardown` | cmd/teardown.go:31-80 | cloud first, state file last and only without error |
| `Commands.InitLeaves` | cmd/init.go:28-115 | when an init acts at all, and the record and cloud it leaves on every exit |
| `Commands.TeardownLeaves` | cmd/teardown.go:31-72 | a teardown without a readable record, dry, refused for the daemon or without a platform changes neither file nor cloud; any other deletes what the cloud lets go, and the file goes exactly when that was all |
| `Commands.InitStrandsOnlyUnsaved` | cmd/init.go:78-115 | an init that does not overwrite an unreadable state file never forgets a recorded id, and strands only interfaces it created itself, only when its save failed |
| `Commands.UnreadableStateStrands` | cmd/init.go:78-84 | an init that overwrites an unreadable state file strands, on every exit, exactly the recorded interfaces that still exist and that it does not take over again from the listing, and those it created when it could not save |
| `Commands.InitStrandsIff` | cmd/init.go:78-115 | any init strands only what it created and could not save, if and only if it does not overwrite an unreadable state file or takes over every recorded interface that still exists |
| `Provision.ReturnsReused` | platform/volcengine/provision.go:40-92 | of the interfaces there were before, provisioning returns exactly those it reuses |
| `Commands.TeardownKeepsLedger` | cmd/teardown.go:61-72 | a teardown, however it ends and on either platform, strands nothing if and only if it leaves the state file or deletes every recorded interface of ours that still exists; the file goes only once every listed non-primary interface was deleted |
| `Commands.HonestListingSpares` | platform/volcengine/teardown.go:56-65 | a Volcengine record and an honest reply that did not fill its page are enough, and then no recorded interface but primary ones outlives the state file |
| `Commands.TeardownStrandsUnlisted` | platform/volcengine/eni.go:137-161 | a teardown that removes the record strands exactly the outstanding interfaces it did not delete: those not listed or listed as primary, and on another platform all |
| `Commands.PlatformSwitchStrands` | cmd/init.go:68-112 | an init on the other platform claims the record, and the next teardown drops it without deleting an interface |
| `Commands.UnreadableStateLosesOne` | cmd/init.go:78-84 | a node and an init that overwrites its unreadable state file, after which an interface is lost |
| `Commands.PlatformSwitchLosesOne` | cmd/init.go:68-112 | a node, an init on the other platform and a teardown that lose an interface |
| `Commands.FullPageLosesOne` | platform/volcengine/eni.go:145-147 | a record of 101 interfaces, an honest page of 100, and the one that is lost |
| `Commands.NoEniIsLost` | cmd/init.go:78-115 | over any sequence of inits and teardowns, however each ends, as long as inits can read the state file and teardowns find a Volcengine record and a listing that does not fill its page: an interface created, learned and still there is recorded, unless the init that created it could not save |
| `Commands.CheckedRunsSpare` | cmd/teardown.go:35-72 | what can be checked before each command implies the exact condition of every command of the run |
| `Commands.SavedRunsLoseNothing` | cmd/teardown.go:61-72 | with every save successful such a sequence loses nothing at all |
| `Commands.StepStrandsIff` | cmd/init.go:78-115 | a command strands nothing it should not if and only if it meets its condition |
| `Commands.SparingIsNeeded` | cmd/teardown.go:61-72 | after any sequence of commands that meet their exact conditions, one that does not loses an interface at once |

## Left out

- Packet parsing and encoding, sockets, reply options and the choice of reply peer: kept are the kind, MAC, requested
  address, client address, source address and arrival time of a packet.
- Netlink, sysctl, bridge, CNI conflist, subprocess and metadata calls: each is an answer that may be success or failure.
- The text of JSON, MACs, addresses and times: printing and parsing are taken as inverse on valid values, apart from the
  cut to the second. Lines of a hand-edited lease file that do not parse are not modelled.
- A MAC that is not 6 bytes long, and times before the epoch.
- Logging, metrics, command flags, dry-run output, and the HTTP layer of the control socket.
- The inner locks of pool, leases and offers: every change of more than one of them holds the lifecycle lock, so
  handlers are atomic apart from crashes. Metric readers that take only an inner lock are not modelled.
- The PID file, from which no mutual exclusion is claimed.
- Agreement of routes and leases across restarts: a crash between a save and a route deletion leaves a stale route.
- Loss of power: a rename is taken as durable, though the source does not sync.
- Alias editing on GKE, and the way `adopt` overwrites recorded interface ids.
- Prefixes that are not IPv4 beyond their rejection, and a pool that changes between restarts.
- `CIDRContainsCIDR` for two IPv6 prefixes, which the source accepts.
- The panic of allocating a slice for an enormous count in `SubnetIPs`.
- The library sort: an insertion sort stands in for it, with the library's contract.
- A create call that takes effect although it reports failure: its interface is one of those nobody can name. A delete
  call that does so is an interface that vanishes later.
- Which addresses provisioning found: only how many, which is all that its branches look at.
- LeaseSafety.ExclusiveAcks: stated for runs without a start-up that cannot read the lease file while a claim is alive; LeaseLimits.UnreadableStart shows that condition is exact.
- LeaseSafety.DurableAcks: stated for the same runs.
- LeaseSafety.RenewalIsGranted: stated for the same runs.
- LeaseAccounting.RunsKeepBooks: stated for runs whose start-ups fall in no clock gap; StartBooks shows that condition is exact.
- LeaseAccounting.OfferIsHonoured: stated for the same runs.
- LeaseHandshake.HandshakeCompletes: stated for the same runs.
- Commands.NoEniIsLost: stated for readable state files, Volcengine records and listings that do not fill a page; InitStrandsIff and TeardownKeepsLedger give the exact condition of each command.
- Commands.SavedRunsLoseNothing: stated for the same runs.
- Commands.HonestListingSpares: a listing that fills its page of 100 may be cut off by the cloud, and then the condition of TeardownKeepsLedger has to be met otherwise.
- Eni.EniLedger: an interface whose create reply could not be parsed exists without a known id, and no one can account for it.
