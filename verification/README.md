# Verification of the VPN rotator

This project models the state-keeping cores of the VPN rotator in Dafny and proves what they
keep. The service gives every VPN node a block of a base network and every client an address
of its node's block, stores both in three SQL tables, configures nodes over SSH, and rebuilds
nodes while clients stay connected. Its difficulty is that an address is chosen in one
statement and stored in a later one with no reservation in between, that every remote call may
fail half way through a hand-written compensation, and that addresses exist as bytes, as
32-bit numbers and as text.

## Modules

| file | what it models |
|---|---|
| `Text.dfy`, `Ipv4.dfy` | the string operations and the byte, bit and text forms of addresses, with their inverse laws |
| `Network.dfy`, `Allocator.dfy`, `Placement.dfy` | the base network, its blocks, subnets, and the two searches, over bytes and texts and as functions of numbers |
| `Tables.dfy`, `Registry.dfy` | the tables with their constraints, and the step system: any number of connection workers, migrations, removals, provisionings, destructions, cleanup steps and restarts, interleaved one statement at a time, each free to fail |
| `NodeTables.dfy` | the nodes' peer tables beside that step system, changed by commands that workers send between their statements |
| `Services.dfy`, `Agreement.dfy`, `Refinement.dfy`, `Witnesses.dfy` | the allocation and peer operations run alone, what one of them assumes of another, that they are runs of the step system, and three runs that lead astray |
| `Connections.dfy`, `Disconnection.dfy`, `Migration.dfy`, `Provisioning.dfy`, `Cleanup.dfy` | the five coordinated operations over tables, node tables and cloud servers |
| `WireGuard.dfy`, `WireGuardNode.dfy`, `DumpFormat.dfy`, `Keys.dfy` | a node's peer table, its reconciliation, the dump parser, and which texts are keys |
| `Breaker.dfy`, `Retry.dfy` | the circuit breaker as a timed state machine, and the retry loop through it |
| `Tracker.dfy` | the connection tracker fed by interleaved workers |
| `Rotation.dfy`, `ClientConfig.dfy` | the rotation decision, and the client's configuration text |

Objects that update fields are classes (`Store`, `Node`, `CircuitBreaker`, `Interactor`,
`ProvisioningService`, `Rollback`, `ConnectionWorker`, `DisconnectionService`, `RotationService`,
`CleanupService`, `ConnectionTracker`); each method is proved equal to a function of the old state, and the main
results are lemmas about those functions. A failing statement or call is a flag the caller of
the model chooses, so every result holds for every pattern of failures.

## What the code does not do

These stronger claims are false of the code. For each, one lemma gives the exact condition
under which it holds and another a concrete input or run on which it fails.

- `NetworkConfig.Validate` accepts a base address with host bits. The blocks tile the base exactly
  when it has none (`BlocksTileBase`, `HostBitsAreAccepted`), and a second node can be served
  exactly when the base is aligned at least to a block and the next block lies in it
  (`SecondNodeServedExactlyWhen`, `UnalignedBaseServesOneNode`).
- The gateway in cloud-init is the stored one exactly when the network's last byte is 0
  (`GatewayAgreement`, `HalfBlockGatewayDiffers`).
- After the subnet of a node that still has peers was released, the next node's search can return
  an address that is taken (`SearchMeetsConflictExactlyWhen`, `ConflictIsPredictable`,
  `ReleasedSubnetConflicts`).
- `SyncPeers` loses a peer when its address is still held by a later one
  (`SyncConvergesExactlyWhen`, `SwapLosesAPeer`).
- A failed connection attempt leaves a trace on the node when the report of its add command is
  lost, or when its listing fails and somebody held the key or the address
  (`FailureLeavesNothing`, `UnguardedFailureLosesEntry`).
- Not every entry of a node was once a peer row: a migration whose peer is deleted while it is being
  moved asks for an entry all the same (`EveryEntryIsAccountedFor`, `MigrationAsks`,
  `VanishedPeerIsAskedFor`).
- A disconnection may succeed, and a cleanup of inactive peers always does, without removing the
  node's entry; if its address is the lowest free one nobody can connect to that node any more
  (`LeftEntryBlocksExactlyWhen`, `NewKeyConnectsExactlyWhen`, `BlockedStaysBlocked`,
  `DroppedClientBlocksNode`).
- A migration that reports an error may leave a peer whose row is on the target and whose entry is
  not (`TurnStrandsExactlyWhen`, `StrandedAtTheEnd`).
- A breaker with threshold 1 lets more commands through than its threshold and the timeout
  suggest: an expired open breaker admits one command while open and one half open
  (`ThresholdBoundsExactlyWhen`, `ThresholdOneExceeded`).
- An open breaker is not closed by successes, not even after its timeout: a command must fail
  again first (`RecoveryNeedsAFailure`, `SuccessClosesExactlyWhen`, `RecoversAfterTimeout`).
- Updating a peer to an address that another peer holds removes it (`UpdatesExactlyWhen`).
- A provisioning that a restart interrupts keeps its block, and no cleanup takes it
  (`CleanupLeavesPeersBehind`, `RestartStrandsBlock`).
- Texts of 31 and 33 bytes are taken for keys, which have 32 (`KeyHas32BytesExactlyWhen`,
  `KeysAreEncodings`, `LongKey`).
- The dump parser gives back what was printed exactly when no peer is without addresses
  (`ParsingUndoesPrinting`), and always takes the interface line for a peer
  (`InterfaceParsedAsPeer`).
- A destruction that failed can be repeated exactly when it did not get as far as a failing record
  deletion (`DestructionGetsStuckExactlyWhen`, `StuckNode`).

## Model

| member | source | states |
|---|---|---|
| Ipv4.DottedTextInjective | internal/rotator/ip/allocation.go:45-55 | Address texts identify addresses, so the lookup tables keyed by text are keyed by address. |
| Ipv4.DottedTextReadsBack | internal/rotator/ip/allocation.go:45-55 | An address text is four decimal numbers between dots, without leading zeros: the bytes from first to last. |
| Ipv4.DottedTextIsUnique | internal/rotator/ip/allocation.go:45-55 | No other text reads so. |
| Ipv4.CidrTextInjective | internal/rotator/ip/config.go:111-118 | CIDR texts are equal exactly when address and mask are. |
| Ipv4.CidrTextReadsBack | internal/rotator/ip/config.go:111-118 | A CIDR text is an address text, a slash and the decimal prefix length, and reads back as just these. |
| Ipv4.ValueOfMasked | internal/rotator/ip/models.go:193-205 | The bytes and-ed with the mask are the number rounded down to a multiple of the block size. |
| Ipv4.ContainsIsInterval | internal/rotator/ip/models.go:207-218 | Byte-wise containment in an aligned prefix is membership in its address interval (section 3.1 of RFC 4632). |
| Ipv4.Increment | internal/rotator/ip/allocation.go:112-118 | The byte-wise carry loop, in place on the array, is 32-bit increment. |
| Ipv4.IpGreaterThan | internal/rotator/ip/models.go:221-232 | The byte-wise comparison is the order of the 32-bit numbers, both directions. |
| Network.GenerateSubnetCIDR | internal/rotator/ip/config.go:88-119 | Shifts, or-ing, wrap-around and byte writes give a text that reads back as the address so many blocks above the base, modulo 2^32, and the mask; an index out of range is an error. |
| Network.GeneratedReadsBack | internal/rotator/ip/config.go:88-119 | The text of an index reads back as that address and mask, and as no other. |
| Network.SearchKeyIsStoredKey | internal/rotator/ip/config.go:88-119 | The text searched for an index is the text stored for its subnet exactly when the base address is aligned to the block size. |
| Network.BlocksTileBase | internal/rotator/ip/config.go:80-119 | The generated blocks are aligned, inside the base, pairwise disjoint and cover it exactly when the base address is aligned, which the configuration check leaves open; with a /0 base block alignment is enough. |
| Network.HostBitsAreAccepted | internal/rotator/ip/config.go:37-65 | 10.8.0.7/16 with /24 blocks passes the configuration check, and its blocks do not tile it. |
| Network.AcceptedExactlyWhen | internal/rotator/ip/config.go:37-65 | A configuration is accepted exactly when the base parses, its length is below the mask, the mask is at most 30 and the threshold in (0, 1]; otherwise the error is the first that applies. |
| Allocator.NoCarry | internal/rotator/ip/models.go:55-72 | For every aligned network up to /30 neither the increments nor the decrement of the last byte carries, and or-ing the inverted mask gives the broadcast address (section 3.2.1.3 of RFC 1122). |
| Allocator.NewSubnet | internal/rotator/ip/models.go:42-81 | The subnet built byte by byte is well formed: gateway network+1, range network+2 to broadcast-1; a bad node identifier is refused. |
| Allocator.GatewayAgreement | internal/rotator/infrastructure/provisioner/hetzner.go:224-230 | The gateway written to cloud-init is the subnet's exactly when the network's last byte is 0, as it is up to /24; the gateway is never in the client range; the range has 2^(32-mask)-3 addresses. |
| Allocator.HalfBlockGatewayDiffers | internal/rotator/infrastructure/provisioner/hetzner.go:224-230 | The upper half of a /24: cloud-init gets another gateway than the subnet row. |
| Allocator.FindNextAvailableSubnet | internal/rotator/ip/allocation.go:22-58 | Returns the subnet of the lowest index whose text is unused, well formed; fails exactly when every index is used. |
| Allocator.FindNextAvailableIP | internal/rotator/ip/allocation.go:89-127 | Returns the numerically smallest free address from range start to range end; fails exactly when all are taken; terminates. |
| Allocator.RangeCount | internal/rotator/ip/allocation.go:191-216 | Used plus available is the range size, and some are available exactly when the search succeeds. |
| Placement.AlignedBasePicks | internal/rotator/ip/allocation.go:22-58 | With an aligned base the pick is the lowest unused block, never a used one, and there is none exactly when all blocks are used. |
| Placement.UnalignedBaseServesOneNode | internal/rotator/ip/allocation.go:36-55 | With a base not aligned to the block size every pick is the same block whatever is stored, so no second node can get a subnet. |
| Placement.SecondNodeServedExactlyWhen | internal/rotator/ip/allocation.go:36-78 | Once a first node has its block, a second one can be served exactly when the base is aligned to the block size and the next block lies in the base. |
| Placement.NetworksDisjoint | internal/rotator/ip/config.go:87-119 | Two different networks of block size share no address. |
| Registry.InsertSubnetKeeps | db/schema.sql:70-80 | Storing the one subnet of a new node keeps the tables consistent with every network given before. |
| Registry.InsertPeerKeeps | db/schema.sql:47-67 | Storing a peer row, under the UNIQUE and FOREIGN KEY rules, keeps addresses and identifiers unique and in the range of their node's network. |
| Registry.MovePeerKeeps | internal/rotator/infrastructure/store/peer_repository.go:252-269 | So does moving one. |
| Registry.DeletionsKeep | db/schema.sql:65-79 | So do deleting a subnet row and deleting a node row with its cascade. |
| Registry.NodeStatementsKeep | internal/rotator/infrastructure/store/node_repository.go:74-114 | So do inserting and updating node rows. |
| Registry.ConnectKeeps | internal/rotator/services/peer_connection_async.go:79-194 | Every statement of a connection worker, on values read any time earlier, keeps the invariant. |
| Registry.MigrateKeeps | internal/rotator/services/node_rotation_service.go:122-227 | Every statement of a migration does. |
| Registry.PlacingKeeps | internal/rotator/services/provisioning_service.go:243-365 | Every statement of a provisioning up to its subnet row does. |
| Registry.FinishingKeeps | internal/rotator/services/provisioning_service.go:536-645 | Every later statement of a provisioning does. |
| Registry.DestroyKeeps | internal/rotator/services/provisioning_service.go:368-424 | Every statement of a destruction, a subnet release or a rollback does. |
| Registry.RemoveKeeps | internal/rotator/peer/service.go:193-226 | Every statement of a peer removal does. |
| Registry.StepKeeps | internal/rotator/services/resource_cleanup_service.go:163-293 | Any event of the system keeps the invariant: a new worker, a migration, a removal, a provisioning, a destruction or a cleanup step, or a restart. |
| Registry.EveryRunIsSafe | db/schema.sql:47-80 | In every run of any interleaving with any failures: no two peers share an address or identifier, no two nodes a key, every peer and subnet row has its node row, subnets are disjoint ranges, and a peer whose node holds a subnet has an address in that subnet's client range. |
| NodeTables.EveryEntryIsAccountedFor | internal/rotator/services/node_rotation_service.go:174-227 | In every run, with commands delivered late, repeatedly or never and entries lost at any time: a node's entry holds no address but one of its node's network, no address belongs to two entries, and a peer row once said just this, unless the peer's row has gone for good. |
| NodeTables.NoAddressOnTwoNodes | internal/rotator/services/peer_connection_async.go:117-173 | In every run the peer tables of nodes that hold subnets share no address. |
| NodeTables.ConnectAsks | internal/rotator/services/peer_connection_async.go:132-165 | A worker asks the node exactly when it has just stored its row, and for exactly what the row says. |
| NodeTables.StoredClientIsAdded | internal/rotator/services/peer_connection_async.go:132-173 | After a worker has stored its row, its next command asks the chosen node for exactly that key and address, and delivered makes that entry and touches no other node. |
| NodeTables.MovedClientIsAdded | internal/rotator/services/node_rotation_service.go:180-205 | So does a migration after it has moved a row. |
| NodeTables.LostIsGone | internal/rotator/services/node_rotation_service.go:207-219 | An entry that is taken away leaves all others. |
| NodeTables.MigrationAsks | internal/rotator/infrastructure/store/peer_repository.go:252-269 | A migration asks the target for what a row says exactly unless the peer's row has been deleted since it was read and no other row says the same; the statement then changes nothing and reports no error. |
| Witnesses.VanishedPeerIsAskedFor | internal/rotator/services/node_rotation_service.go:174-205 | A run that gets there: the migration is about to ask an active node for an entry although there is no peer row at all. |
| Witnesses.RestartStrandsBlock | internal/rotator/services/resource_cleanup_service.go:256-260 | A run in which a restart interrupts a provisioning: no task is left, the node still holds its block, and neither cleanup ever takes it. |
| Services.KeyInUse | internal/rotator/ip/allocation.go:36-48 | An index's text is among the stored texts exactly when its address is among the stored networks. |
| Services.Store.FindSubnet | internal/rotator/ip/allocation.go:22-78 | The text search with its validation finds exactly the network the number search picks. |
| Services.Store.AllocateNodeSubnet | internal/rotator/ip/service.go:36-91 | A node's own subnet again, or the picked block stored, or an error and no change, for every pattern of failing statements. |
| Services.Store.ReleaseNodeSubnet | internal/rotator/ip/service.go:94-124 | Removes the row if it exists; no row is no error. |
| Services.Store.AllocateClientIP | internal/rotator/ip/service.go:145-181 | The lowest free client address of the node's network, read-only. |
| Services.Store.GetAvailableIPCount | internal/rotator/ip/service.go:223-249 | Range size minus the node's peers, not below 0. |
| Services.Store.CreatePeer | internal/rotator/peer/service.go:29-99 | A row only after validation and both conflict checks, else no change. |
| Services.Store.RemovePeer | internal/rotator/peer/service.go:193-226 | Best-effort marking, then deletion. |
| Services.Store.MigratePeer | internal/rotator/peer/service.go:264-315 | New node and address, or no change. |
| Services.TablesArePlaced | internal/rotator/ip/service.go:36-181 | In reachable tables every network is aligned and every stored address is an IPv4 address. |
| Services.AllocatesExactlyWhen | internal/rotator/ip/service.go:36-91 | A subnet is allocated exactly when the node's own is found, or the node has none, the lowest unused block is free and no statement fails; only its row is added, and asking again gives the same one. |
| Services.ReleasesExactlyWhen | internal/rotator/ip/service.go:94-124 | A release succeeds exactly when the look-up works and there is no row or its deletion works; the row goes exactly then. |
| Services.FindsExactlyWhen | internal/rotator/ip/service.go:145-181 | The search finds an address exactly if it is a client address of the node's network that none of the node's peers holds and they hold all lower ones, and no read fails. |
| Services.RemovalLeaves | internal/rotator/peer/service.go:193-226 | Removal succeeds exactly when the peer exists and reading and deletion work; a peer read but not deleted stays, marked exactly if the marking worked. |
| Services.MovesExactlyWhen | internal/rotator/peer/service.go:264-315 | A row is moved exactly when reading, conflict check and update work, the target has a record and no other peer holds the address, whether or not a conflict could be read again. |
| Agreement.SearchMeetsConflictExactlyWhen | internal/rotator/peer/service.go:55-68 | In any reachable state, an address found by the search on one node is rejected by the global conflict check exactly when a peer of a node without subnet row still holds it; never when every peer's node holds a subnet. |
| Agreement.ConflictIsPredictable | internal/rotator/ip/service.go:145-181 | Seen before the search: it will find a taken address exactly when the lowest client address not held by the node's own peers has been left behind. |
| Witnesses.ReleasedSubnetConflicts | internal/rotator/services/resource_cleanup_service.go:248-293 | A run of the code's own operations that gets there: a node is provisioned, a client with a valid key connects, a health check marks the node unhealthy, the cleanup takes its subnet row, the next node is provisioned with the same block and active, and the search on it finds the client's address. |
| Agreement.CountMeetsSearch | internal/rotator/ip/service.go:223-249 | In any reachable state peers plus available count is the range size, and the count is positive exactly when an address is found. |
| Refinement.ConnectionIsARun | internal/rotator/services/peer_connection_async.go:79-194 | A connection attempt run alone, however it ends, is a run of the step system. |
| Refinement.DisconnectionIsARun | internal/rotator/services/peer_connection_service.go:54-92 | So is a disconnection. |
| Refinement.MigrationIsARun | internal/rotator/services/node_rotation_service.go:122-161 | So is a migration, whatever fails. |
| Refinement.ProvisioningIsARun | internal/rotator/services/provisioning_service.go:243-365 | So is a provisioning, with or without rollback. |
| Refinement.DestructionIsARun | internal/rotator/services/provisioning_service.go:368-424 | So is a destruction, whatever fails. |
| Refinement.UnusedSubnetCleanupIsARun | internal/rotator/services/resource_cleanup_service.go:248-293 | So is a cleanup of unused subnets. |
| Refinement.InactivePeerCleanupIsARun | internal/rotator/services/resource_cleanup_service.go:163-190 | So is a cleanup of inactive peers. |
| Refinement.OrphanCleanupIsARun | internal/rotator/services/resource_cleanup_service.go:193-245 | So is a cleanup of orphaned nodes. |
| Refinement.ReachedIsSafe | db/schema.sql:47-80 | What is reached is safe and satisfies what the lone operations assume. |
| Connections.SuccessAddsOne | internal/rotator/services/peer_connection_async.go:117-193 | A successful attempt adds exactly one peer row, with an unused identifier and an unused address of the node's client range, and one node entry with the same key and that address as /32. |
| Connections.FailureLeavesNothing | internal/rotator/services/peer_connection_async.go:132-173 | A failed attempt with successful compensations leaves rows and table as they were, exactly unless the add command's report was lost, or it went out after a failed listing while somebody on the node held the key or the address; with a working listing and no lost report, always. |
| Connections.UnguardedFailureLosesEntry | internal/rotator/infrastructure/remote/wireguard.go:58-82 | A site in order, on which a failed attempt with all compensations succeeding loses somebody's entry. |
| Connections.FailureIsContained | internal/rotator/services/peer_connection_async.go:132-173 | Whatever fails, compensations included, only this peer's row and this node's table can differ, and other entries lose at most this address. |
| Connections.AddedEntry | internal/rotator/infrastructure/remote/wireguard.go:51-110 | What adding a /32 client leaves in the table, for every way its commands can end; when the table is as before, both directions; a lost report leaves the entry. |
| Connections.AddsExactlyWhen | internal/rotator/infrastructure/remote/wireguard.go:51-110 | A client is added exactly when nobody on the node has its key or address, as far as the check can see, and command and verification work; checked, it is the only change. |
| Connections.HostRouteReadsBack | internal/rotator/services/peer_connection_async.go:152-156 | The allowed address of a client reads back as its address with a prefix of 32. |
| Connections.ConnectsExactlyWhen | internal/rotator/services/peer_connection_async.go:79-173 | An attempt succeeds exactly when the node is active with room and a free address, key, address and identifier are new, the node has neither key nor address as far as the check can see, and no statement or command fails. |
| Connections.EntryThereExactlyWhen | internal/rotator/infrastructure/remote/wireguard.go:51-110 | The table has the client's entry afterwards exactly when the addition was refused or had no effect and it was there before, or the command took effect and was not rolled back. |
| Connections.ConnectionWorker.ProcessConnectionRequest | internal/rotator/services/peer_connection_async.go:79-194 | The worker's statements give that result. |
| Disconnection.DisconnectUndoesConnectExactlyWhen | internal/rotator/services/peer_connection_service.go:54-92 | Disconnecting a client that has just connected restores rows and node table exactly when the row is deleted and the entry is removed (if it had taken nothing from anybody; a guarded one never has); success says only that the row is deleted. |
| Disconnection.NewKeyConnectsExactlyWhen | internal/rotator/services/peer_connection_async.go:117-173 | With nothing failing, a new key connects to an active node exactly when the node is not blocked: it has a free client address, and the lowest is held by no peer row elsewhere and by no entry on the node. |
| Disconnection.BlockedStaysBlocked | internal/rotator/infrastructure/remote/wireguard.go:58-65 | Every guarded and compensated attempt on a blocked node fails and changes nothing. |
| Disconnection.LeftEntryBlocksExactlyWhen | internal/rotator/services/resource_cleanup_service.go:180-189 | Deleting a peer row and not its entry blocks the node exactly when the address lies below every other free one or the node was blocked before. |
| Disconnection.DroppedClientBlocksNode | internal/rotator/services/peer_connection_service.go:66-88 | So a client that has just connected and is disconnected while its node does not answer always blocks the node, though the disconnection succeeds. |
| Disconnection.DisconnectionService.DisconnectPeer | internal/rotator/services/peer_connection_service.go:54-92 | The statements of a disconnection give that result. |
| Migration.MigrationConserves | internal/rotator/services/node_rotation_service.go:122-161 | Under any failures no peer or identifier is lost, each source peer is unchanged or on the target with an address of its range, all addresses are unique, and no error means no active peer left on the source. |
| Migration.MigratedPeersAreReachable | internal/rotator/services/node_rotation_service.go:174-227 | No error also means the target's table has each moved key with exactly its new address. |
| Migration.TurnSucceedsExactlyWhen | internal/rotator/services/node_rotation_service.go:174-227 | One peer's turn succeeds exactly when there is an address, the row can take it, the target has neither key nor address where it is asked, and no call that matters fails; row, target entry and source entry are then as they should be. |
| Migration.MigrationSucceedsExactlyWhen | internal/rotator/services/node_rotation_service.go:122-161 | With nothing failing, a migration succeeds exactly when, seen before it starts, every listed peer fits: enough free addresses, the one at its place held only by peers that will have moved, and neither it nor the key in the target's table. All are then on the target's lowest free addresses in order, with just their entries added there and removed from the source. |
| Migration.TurnStrandsExactlyWhen | internal/rotator/services/node_rotation_service.go:174-205 | A peer's turn ends with its row on the target and no entry there exactly when the row moves and the target cannot be read or the addition does not end with the entry; it is then never reported as moved. |
| Migration.StrandedAtTheEnd | internal/rotator/services/node_rotation_service.go:145-151 | At the end of a migration a listed peer is stranded only if its own turn did it, and exactly then when the checks before later additions work. |
| Migration.SourceLosesMoved | internal/rotator/services/node_rotation_service.go:201-222 | The source's table loses at most the listed peers' keys, and all of them when nothing fails; other entries stay as they were. |
| Migration.OthersKeepEntries | internal/rotator/services/node_rotation_service.go:201-205 | Adding one peer takes nothing from one that has arrived before. |
| Migration.RotationService.MigrateSinglePeer | internal/rotator/services/node_rotation_service.go:174-227 | Address, row, target entry, source entry, in that order, with the result stated. |
| Migration.RotationService.MigratePeersFromNode | internal/rotator/services/node_rotation_service.go:122-161 | Without a listing or without capacity nothing happens and it is an error; with nothing to move it is none; otherwise the loop collects errors and goes on. |
| Provisioning.ProvisioningIsAllOrNothing | internal/rotator/services/provisioning_service.go:243-365 | Completed: node row, lowest unused block and server are added. Failed: nothing else is touched, a server is left exactly if its creation took effect unreported or its destruction failed or was switched off, a deleted node row leaves the tables as before even if the subnet release failed; and all is as before exactly when no record was made or rollback ran and the record was removed, and no server is left. |
| Provisioning.ProvisioningCompletesExactlyWhen | internal/rotator/services/provisioning_service.go:243-365 | It completes exactly when every step succeeds, the identifier is valid, neither key is taken and the picked block is free. |
| Provisioning.FailsAtTheFirst | internal/rotator/services/provisioning_service.go:243-365 | The step it fails at is the first that has to fail, for each of the six. |
| Provisioning.FailureLeavesRows | internal/rotator/services/provisioning_service.go:599-645 | For each step it can fail at and every outcome of the rollback, exactly the rows that are left: all restored if the record is deleted, else the node row as last saved, and the subnet row unless it was released. |
| Provisioning.RollbackOfRows | internal/rotator/services/provisioning_service.go:619-645 | Deleting the node row restores the tables, released subnet or not. |
| Provisioning.DestroyRemoves | internal/rotator/services/provisioning_service.go:368-424 | It succeeds exactly if it proceeds past validation and mark and the record is deleted; success removes the node with its subnet and peers and nothing else; if only the record is not deleted, the node is marked and its subnet gone unless that failed; without proceeding nothing changes; the server is gone exactly if it proceeded and destroying it succeeded. |
| Provisioning.DestructionCanSucceedExactlyWhen | internal/rotator/node/models.go:160-173 | A destruction can succeed exactly when the node exists, has no clients, is not already marked and its key can be written back. |
| Provisioning.DestructionGetsStuckExactlyWhen | internal/rotator/services/provisioning_service.go:394-420 | A failed destruction can be repeated exactly when it did not get as far as a failing record deletion; if it did, the node stays marked and every later destruction is refused without change. |
| Provisioning.StuckNode | internal/rotator/services/provisioning_service.go:394-420 | One node ends so, its server and subnet gone. |
| Provisioning.ProvisioningService.ProvisionNode | internal/rotator/services/provisioning_service.go:243-365 | The phases in order with the rollback record give that result. |
| Provisioning.ProvisioningService.FinishProvisioning | internal/rotator/services/provisioning_service.go:306-350 | The phases after the server exists. |
| Provisioning.ProvisioningService.ProvisionCloud | internal/rotator/infrastructure/provisioner/hetzner.go:69-148 | A server found unhealthy is destroyed by the provisioner itself, if that succeeds, and never noted for rollback; nor is one whose creation took effect without a report. |
| Provisioning.ProvisioningService.PerformRollback | internal/rotator/services/provisioning_service.go:599-645 | Server, subnet, record, as noted, each best effort, only if enabled. |
| Provisioning.ProvisioningService.DestroyNode | internal/rotator/services/provisioning_service.go:368-424 | The statements of a destruction give that result. |
| Provisioning.Rollback.constructor | internal/rotator/services/provisioning_service.go:264-269 | A new rollback record has noted nothing. |
| Cleanup.CleanupService.CleanupUnusedSubnets | internal/rotator/services/resource_cleanup_service.go:248-293 | Takes exactly the rows of nodes neither active nor provisioning whose statements succeed, and counts them; a failed listing is an error and changes nothing; a dry run changes nothing and counts the nodes listed. |
| Cleanup.CleanupService.CleanupInactivePeers | internal/rotator/services/resource_cleanup_service.go:163-190 | The loop removes and counts as stated by the next row; a failed listing is an error and changes nothing; a dry run changes nothing and counts the list. |
| Cleanup.InactiveAreRemoved | internal/rotator/services/resource_cleanup_service.go:180-189 | Exactly the listed peers that nothing stops are removed and counted; the others stay, marked exactly if they were read and the marking worked. |
| Cleanup.CleanupService.CleanupOrphanedNodes | internal/rotator/services/resource_cleanup_service.go:193-245 | A failed listing is an error and changes nothing; nothing happens if at most one active node serves active peers; otherwise the listed orphans are destroyed and counted as stated by the next row; a dry run changes nothing and counts them. |
| Cleanup.OrphansAreDestroyed | internal/rotator/services/resource_cleanup_service.go:231-244 | Of the active, counted, old nodes without active peers, exactly those that nothing stops are destroyed with their subnets and peers, and counted; one whose record is not deleted stays marked; a server goes exactly if it was such a node's and destroying it worked; all other rows stay, and no active peer is lost. |
| Cleanup.ServesAtMostOneExactlyWhen | internal/rotator/services/resource_cleanup_service.go:205-224 | The guard of the orphan cleanup: all active peers of active, counted nodes are on one node. |
| Cleanup.DryRunListsSubnets | internal/rotator/services/resource_cleanup_service.go:275-290 | A dry run of the subnet cleanup lists what a run takes in which nothing fails. |
| Cleanup.DryRunCountsOrphans | internal/rotator/services/resource_cleanup_service.go:231-244 | A dry run of the orphan cleanup counts as many nodes as a run destroys in which nothing fails. |
| Cleanup.CleanupLeavesPeersBehind | internal/rotator/services/resource_cleanup_service.go:256-290 | The subnets taken are exactly those of unhealthy nodes and nodes being destroyed that are found and can be deleted, and an address is left behind exactly if it was before or a peer of such a node holds it. |
| WireGuard.SyncConvergesExactlyWhen | internal/rotator/infrastructure/remote/wireguard.go:203-251 | With all commands succeeding, sync ends with exactly the desired keys, addresses and endpoints exactly when no desired address is held by a later desired peer at the start. |
| WireGuard.SyncIsIdempotent | internal/rotator/infrastructure/remote/wireguard.go:203-251 | A second sync then leaves the table unchanged. |
| WireGuard.SwapLosesAPeer | internal/rotator/infrastructure/remote/wireguard.go:219-248 | Two peers trading addresses: sync loses the first. |
| WireGuard.SyncWhateverFails | internal/rotator/infrastructure/remote/wireguard.go:219-248 | However its commands end, sync leaves a table without shared addresses and without keys that were neither there nor desired; an undesired peer stays exactly if its removal failed; a desired key has only addresses it had or was to have. |
| WireGuard.NoUpdateMeansEqual | internal/rotator/infrastructure/remote/wireguard.go:409-434 | When no update is needed the entry already is the desired one. |
| Keys.KeysAreEncodings | pkg/crypto/wireguard.go:69-84 | A text is taken for a key exactly when it is the base64 text (section 4 of RFC 4648) of 31, 32 or 33 bytes, whatever the unused bits of its last symbol. |
| Keys.KeyHas32BytesExactlyWhen | pkg/crypto/wireguard.go:69-84 | What is taken for a key has the 32 bytes of a key exactly when the text ends in just one equals sign. |
| Keys.LongKey | pkg/crypto/wireguard.go:69-84 | A text of 33 bytes that is taken for a key. |
| WireGuard.RemovesExactlyWhen | internal/rotator/infrastructure/remote/wireguard.go:113-163 | A removal succeeds exactly when the peer is seen to be absent or the command is reported done; the key is then gone, and nothing else ever is. |
| WireGuard.UpdatesExactlyWhen | internal/rotator/infrastructure/remote/wireguard.go:166-185 | With no command failing, an update succeeds exactly when the configuration is valid and nobody else has key or address; an invalid one changes nothing, but one that meets another peer's address has removed its own peer. |
| WireGuardNode.Node.ListPeers | internal/rotator/infrastructure/remote/wireguard.go:188-200 | The listing shows the interface line first and then every peer. |
| WireGuardNode.PeerNeedsUpdate | internal/rotator/infrastructure/remote/wireguard.go:409-434 | The comparison of lists decides whether the sets or endpoints differ. |
| WireGuardNode.FindConflict | internal/rotator/infrastructure/remote/wireguard.go:377-392 | The scan finds a conflict exactly when there is one. |
| WireGuardNode.Node.AddPeer | internal/rotator/infrastructure/remote/wireguard.go:51-110 | Validation, check, command, verification and rollback give the stated table, for every way the commands can end; no table on the way holds an address twice; guarded, every command changes one key. |
| WireGuardNode.Node.RemovePeer | internal/rotator/infrastructure/remote/wireguard.go:113-163 | An absent peer is no error; only that key changes. |
| WireGuardNode.Node.UpdatePeer | internal/rotator/infrastructure/remote/wireguard.go:166-185 | Remove, then add, with an invalid configuration refused first. |
| WireGuardNode.Node.SyncPeers | internal/rotator/infrastructure/remote/wireguard.go:203-251 | The two loops compute the synced table for every way their commands can end; an error only if the first listing fails; no table on the way holds an address twice, and guarded, every command changes one key. |
| DumpFormat.ParseWireGuardPeers | internal/rotator/infrastructure/remote/wireguard.go:462-527 | The loop over lines collects what each line parses to. |
| DumpFormat.ParsingUndoesPrinting | internal/rotator/infrastructure/remote/wireguard.go:462-527 | For any peers with printable fields, parsing their dump rows gives back keys, endpoints, address lists, handshake times, counters and keepalives in order, exactly when no address list is empty; an empty one comes back as a placeholder address. |
| DumpFormat.InterfaceParsedAsPeer | internal/rotator/infrastructure/remote/wireguard.go:466-475 | With the interface line in front, the result has one bogus peer under the interface's private key. |
| DumpFormat.ShortRows | internal/rotator/infrastructure/remote/wireguard.go:473-500 | A line of fewer than three fields makes no peer; one of three makes a peer without addresses. |
| DumpFormat.FullRow | internal/rotator/infrastructure/remote/wireguard.go:477-522 | Which column of a full line is what, and that a keepalive that is no number is 0. |
| Text.TrimMeans | internal/rotator/infrastructure/remote/wireguard.go:466-467 | Trimming takes away white space at the two ends and nothing else, and leaves none there. |
| Text.FieldsAtSpace | internal/rotator/infrastructure/remote/wireguard.go:472-475 | White space separates fields, wherever and however much of it there is. |
| Text.ParseOfSigned | internal/rotator/infrastructure/remote/wireguard.go:496-522 | Which signed decimal texts are 64-bit numbers, and which. |
| Breaker.CircuitBreaker.constructor | internal/rotator/infrastructure/remote/circuit_breaker.go:31-36 | A new breaker is closed. |
| Breaker.CircuitBreaker.Admits | internal/rotator/infrastructure/remote/circuit_breaker.go:58-72 | Admission by state and clock. |
| Breaker.CircuitBreaker.RecordResult | internal/rotator/infrastructure/remote/circuit_breaker.go:75-119 | The field updates, with both clock readings, are the transition function. |
| Breaker.CircuitBreaker.Reset | internal/rotator/infrastructure/remote/circuit_breaker.go:150-158 | Back to the initial value. |
| Breaker.ClosedIffBelowThreshold | internal/rotator/infrastructure/remote/circuit_breaker.go:87-119 | In every interleaving of in-flight operations, closed exactly when the failure count is below the threshold. |
| Breaker.QuietAfterOpening | internal/rotator/infrastructure/remote/circuit_breaker.go:58-119 | After a move to open at t nothing is admitted up to and including t plus the reset timeout, whatever results arrive, unless reset. |
| Breaker.ClosedCountsFailures | internal/rotator/infrastructure/remote/circuit_breaker.go:87-119 | In every interleaving the count of a closed breaker is the number of failures reported since the last success or reset. |
| Breaker.OpensExactlyWhen | internal/rotator/infrastructure/remote/circuit_breaker.go:100-119 | So a closed breaker opens exactly at the threshold of failures with no success between them, and then admits exactly after the timeout. |
| Breaker.SuccessClosesExactlyWhen | internal/rotator/infrastructure/remote/circuit_breaker.go:87-97 | A reported success closes a breaker that is not open and clears its count; an open one it does not change. |
| Breaker.RecoveryNeedsAFailure | internal/rotator/infrastructure/remote/circuit_breaker.go:87-119 | In every interleaving without a reset an open breaker leaves that state only by a failure reported after its timeout. |
| Breaker.RecoversAfterTimeout | internal/rotator/infrastructure/remote/circuit_breaker.go:58-119 | After the timeout a command is admitted; when it fails the next is admitted at once, and its success closes the breaker with nothing counted. |
| Breaker.CommandsInAnySpan | internal/rotator/infrastructure/remote/circuit_breaker.go:39-119 | When all commands fail and calls do not overlap, a span of length T holds at most max(threshold, 2) + 2*floor(T/reset timeout) commands. |
| Breaker.CommandsFromClosed | internal/rotator/infrastructure/remote/circuit_breaker.go:39-119 | From a closed breaker: what is left of the threshold, plus the same term. |
| Breaker.ThresholdBoundsExactlyWhen | internal/rotator/infrastructure/remote/circuit_breaker.go:100-119 | The bound with the threshold alone holds for all runs and spans exactly when the threshold is at least 2. |
| Breaker.ThresholdOneExceeded | internal/rotator/infrastructure/remote/circuit_breaker.go:100-119 | The run that exceeds it, for commands of any duration shorter than the timeout: after one failure, two commands one after the other once the timeout has passed. |
| Retry.Execute | internal/rotator/infrastructure/remote/circuit_breaker.go:39-55 | An operation runs only if admitted and then counts. |
| Retry.RetryThrough | internal/rotator/infrastructure/remote/ssh_node_interactor.go:79-118 | The retry loop makes the attempts up to the first success or cancellation, at most the configured number. |
| Retry.CallSucceedsExactlyWhen | internal/rotator/infrastructure/remote/ssh_node_interactor.go:79-118 | The attempts of a call stop after the first that was admitted and succeeded, or at a cancellation, and only then before the configured number; it succeeds exactly when one was admitted and succeeded. |
| Retry.Interactor.constructor | internal/rotator/infrastructure/remote/ssh_node_interactor.go:29-55 | No breaker at first. |
| Retry.Interactor.GetCircuitBreaker | internal/rotator/infrastructure/remote/ssh_node_interactor.go:58-76 | One breaker per host, created closed on demand, others untouched. |
| Retry.Interactor.ExecuteWithRetry | internal/rotator/infrastructure/remote/ssh_node_interactor.go:79-118 | A host's breaker is what all attempts on that host made of a new one; other hosts are unaffected. |
| Retry.PacedIsChronological | internal/rotator/infrastructure/remote/ssh_node_interactor.go:103-112 | The pauses keep the attempts of one call in order. |
| Retry.Interactor.CommandsAreBounded | internal/rotator/infrastructure/remote/ssh_node_interactor.go:79-118 | The bound for a host's whole history. |
| Retry.RetriesAreBounded | internal/rotator/infrastructure/remote/ssh_node_interactor.go:79-118 | The bound through the retry loop, for every list of calls that do not overlap. |
| Tracker.ConnectionTracker.HandleConnectRequested | internal/rotator/peer/connection_tracker.go:109-127 | A fresh record, whatever was there. |
| Tracker.ConnectionTracker.HandleConnectProgress | internal/rotator/peer/connection_tracker.go:129-173 | Phase, progress and message replaced, active again. |
| Tracker.ConnectionTracker.HandleConnected | internal/rotator/peer/connection_tracker.go:175-222 | Completed with the event's details. |
| Tracker.ConnectionTracker.HandleConnectFailed | internal/rotator/peer/connection_tracker.go:224-253 | Inactive with the error. |
| Tracker.ConnectionTracker.GetActiveConnections | internal/rotator/peer/connection_tracker.go:273-286 | Copies of exactly the pending records. |
| Tracker.RecordsAreIndependent | internal/rotator/peer/connection_tracker.go:109-253 | For any interleaving, a request's record is what its own events make of it. |
| Tracker.RecordShowsLastEvents | internal/rotator/peer/connection_tracker.go:109-253 | For any interleaving, each field of a record shows what the last of the request's own events that says something about it has said. |
| Tracker.PublishedIsOrderly | internal/rotator/services/peer_connection_async.go:89-194 | What a worker publishes never goes back, stays in 0..1 and ends with at most one final event, whichever reports get lost. |
| Tracker.PublishesAllPhases | internal/rotator/services/peer_connection_async.go:89-194 | A worker reports every phase up to the one it fails in, all seven if none, and all that gets through is published, in order. |
| Tracker.ActiveShowsLastReport | internal/rotator/peer/connection_tracker.go:129-173 | For any interleaving, an active record shows phase, progress and message of its worker's last delivered report, with the peer as soon as it exists, or that there was none yet. |
| Tracker.ListedExactlyWhen | internal/rotator/peer/connection_tracker.go:273-286 | A request is listed as active exactly until its last phase is reported or its final event is delivered. |
| Tracker.ProgressIsMonotone | internal/rotator/peer/connection_tracker.go:129-253 | In any interleaving progress never decreases, stays in 0..1, and an inactive record never changes again. |
| Tracker.RequestsConclude | internal/rotator/peer/connection_tracker.go:175-253 | A finished request is inactive exactly when its final event got through: completed with the published details, or with a non-empty error. |
| Tracker.LateRequestLosesProgress | internal/rotator/peer/connection_tracker.go:109-127 | Handled after a report, the request event throws progress away. |
| Rotation.AnalyzeNode | internal/rotator/services/node_rotation_service.go:285-347 | Listed exactly with a trigger, priority 1 or 2, 1 exactly with a critical trigger. |
| Rotation.ReasonsAreTriggers | internal/rotator/services/node_rotation_service.go:285-334 | A reason is given exactly when a trigger holds. |
| Rotation.ReasonsMean | internal/rotator/services/node_rotation_service.go:285-334 | Each reason is given exactly when its measurement lies between its thresholds. |
| Rotation.SortByPriority | internal/rotator/services/node_rotation_service.go:260-267 | The in-place exchange sort gives a permutation ordered by priority. |
| Rotation.MakeRotationDecision | internal/rotator/services/node_rotation_service.go:230-282 | A permutation of one entry per checked node with a trigger, ordered by priority. |
| ClientConfig.IsValidEndpoint | internal/connector/wireguard/config.go:198-222 | The scan decides that predicate. |
| ClientConfig.EndpointMeans | internal/connector/wireguard/config.go:198-222 | With one colon: 7 to 15 characters before it, digits of a number in 1..65535 after it, both directions. |
| ClientConfig.EndpointHasOneColon | internal/connector/wireguard/config.go:198-203 | Nothing else is accepted. |
| ClientConfig.ValidateConfig | internal/connector/wireguard/config.go:140-195 | The loop over lines gives the verdict, the panic on a key line without equals sign included. |
| ClientConfig.ValidateMeans | internal/connector/wireguard/config.go:140-195 | The verdict on any text: it panics exactly on a key line without an equals sign; otherwise both sections must be there and the last line of each kind must have a good value after its first equals sign, checked in that order. |
| ClientConfig.GeneratedVerdict | internal/connector/wireguard/config.go:33-63 | The generated text of any one-line settings gets exactly the verdict its keys and endpoint deserve. |
| ClientConfig.GeneratedIsValid | internal/connector/wireguard/config.go:33-63 | Every generated text from valid keys, an address text, a port and one-line values passes validation. |
| ClientConfig.GeneratedSettings | internal/connector/wireguard/config.go:33-63 | The generated text has every setting under its name and below the header of its section. |
| ClientConfig.DottedTextIsAddress | internal/connector/wireguard/config.go:198-210 | The text of every IPv4 address is such an address text. |
| ClientConfig.UpdateConfigField | internal/connector/wireguard/config.go:232-241 | The first matching line is replaced, in place. |
| ClientConfig.FirstLineIsRewritten | internal/connector/wireguard/config.go:232-241 | A line of the text becomes the field with its new value exactly if it is the first whose trimmed form starts with the field; every other line stays, none is added or lost, and without such a line the text does. |
| ClientConfig.OtherLinesStay | internal/connector/wireguard/config.go:232-241 | Every other line is preserved, none is added or lost. |
| ClientConfig.RewritingKeepsVerdict | internal/connector/wireguard/config.go:140-195 | Rewriting Address, DNS or AllowedIPs with a one-line value keeps the verdict of any text. |
| ClientConfig.RewritesCommute | internal/connector/wireguard/config.go:232-241 | Rewrites of different fields commute; of the same field the last counts. |

## Left out

- HTTP handlers, the command line, polling, logging, metrics, configuration loading and the event bus: input, output and wrappers over libraries.
- The Hetzner API, SSH and `wg` themselves: only success, failure and effect are kept. A `wg set` and the creation of a server may succeed, fail, or succeed with the report lost; any other remote command or statement that reports failure is taken to have had no effect.
- SQL text and generated query code: replaced by tables with the PRIMARY KEY, UNIQUE, FOREIGN KEY and CASCADE rules. Timestamps, versions, ports and preshared keys of rows are not kept.
- Key generation, and the bytes of a key beyond the texts that `Keys` says are taken for one.
- Parsing of addresses and prefixes from text: an address is its four bytes, and a stored subnet is rebuilt from its network. IPv6 bases and CIDR texts that do not parse are one error case.
- `RotateNodes` and the creation of replacement nodes: the latter always returns an error.
- Node selection and capacity: `ConnectedClients` is not tied to the peers table by the code, so both are free choices, and no bound on peers per node is claimed.
- Statistics, fragmentation, usage percentages, duration estimates and batch operations: only easy members.
- `Registry` starts from empty tables, lets cleanup remove, release or destroy at any time whatever it would have listed, and takes node identifiers, which come from a nanosecond clock, as never drawn twice; `NodeTables` takes peer identifiers so too.
- `NodeTables` lets any entry be lost at any time, so it says what a table may hold and never what it must hold; when an entry is there is stated for the lone operations.
- `Services`, `Connections`, `Disconnection`, `Migration`, `Provisioning` and `Cleanup` describe operations without interference; interference is the subject of `Registry`.
- A connection request without a public key: the worker dereferences it and panics.
- WireGuardNode.Node.AddPeer: like every operation on a key, expects keys of at least 8 characters, since logging slices them first.
- WireGuard.SyncConvergesExactlyWhen: takes desired addresses in the form the dump prints them, with a prefix length and no host bits, as the callers write them; another spelling never matches the dump. Desired keys differ from the interface's private key.
- Migration.RotationService.MigratePeersFromNode: source and target are different nodes.
- Tracker.ConnectionTracker.HandleConnectProgress: keeps no timestamps and no estimated end.
- Retry.RetryThrough: has no branch for errors that are not retryable, because no command error and no open-circuit error is one.
- Tracker.PublishedIsOrderly: assumes that the request event is delivered to all listeners before the worker's first report; `LateRequestLosesProgress` shows why.
- ClientConfig.ValidateConfig: counts characters, where the code counts bytes; they agree on ASCII.
- Rotation.MakeRotationDecision: measurements are reals, and the decision's free text beyond the reasons is not kept.
