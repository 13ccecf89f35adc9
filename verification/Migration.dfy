/** internal/rotator/services/node_rotation_service.go: moving all active peers of one node to
    another, over the tables and both nodes' peer tables. */
module Migration {
  import opened Ipv4
  import opened Network
  import opened Allocator
  import opened Placement
  import opened Tables
  import opened Text
  import opened WireGuard
  import opened WireGuardNode
  import opened Services
  import opened Connections
  import Registry

  datatype Sites = Sites(db: Db, source: Table, target: Table)

  /** The node at each end. */
  datatype Ends = Ends(source: NodeId, target: NodeId, sourceIf: Interface, targetIf: Interface)

  datatype PeerFaults = PeerFaults(
    read: ReadFaults, move: MoveFaults, targetOk: bool, add: AddFaults, sourceOk: bool, remove: RemoveFaults)

  datatype Moved = Moved(sites: Sites, ok: bool)

  /** `migrateSinglePeer`: an address on the target, the row, the target's table, then, as far
      as it goes, the source's table. */
  function MigrateOne(c: Config, e: Ends, s: Sites, peer: PeerId, key: string, f: PeerFaults): Moved
    requires Placed(c, s.db)
  {
    var ip := ClientIp(c, s.db, e.target, f.read);
    if ip.None? then Moved(s, false)
    else
      var moved := MovePeer(s.db, peer, e.target, ip.value, f.move);
      if !moved.ok || !f.targetOk then Moved(s.(db := moved.db), false)
      else
        ClientIpIsAddress(c, s.db, e.target, f.read);
        var added := AddResult(e.targetIf, s.target, ClientConfig(key, ip.value), f.add);
        if !added.ok then Moved(s.(db := moved.db, target := added.table), false)
        else
          var source := if f.sourceOk then RemoveResult(e.sourceIf, s.source, key, f.remove).table else s.source;
          Moved(Sites(moved.db, source, added.table), true)
  }

  lemma MoveKeepsPlaced(c: Config, e: Ends, s: Sites, peer: PeerId, key: string, f: PeerFaults)
    requires Placed(c, s.db)
    ensures Placed(c, MigrateOne(c, e, s, peer, key, f).sites.db)
  {
    hide PickIp;
    hide IsNetwork;
    hide UniqueNodeKeys;
    hide UniqueSubnets;
    hide AddResult;
    hide RemoveResult;
    hide HostRoute;
    hide TrimSpace;
    ClientIpIsAddress(c, s.db, e.target, f.read);
  }

  /** The loop over the listed peers; errors are collected, not raised. */
  function MigrateAll(c: Config, e: Ends, s: Sites, queue: seq<PeerId>, faults: seq<PeerFaults>, n: nat): (r: Moved)
    requires Placed(c, s.db) && n <= |queue| == |faults| && forall p :: p in queue ==> p in s.db.peers
    ensures Placed(c, r.sites.db)
  {
    if n == 0 then Moved(s, true)
    else
      var before := MigrateAll(c, e, s, queue, faults, n - 1);
      var peer := queue[n - 1];
      var r := MigrateOne(c, e, before.sites, peer, s.db.peers[peer].identifier, faults[n - 1]);
      MoveKeepsPlaced(c, e, before.sites, peer, s.db.peers[peer].identifier, faults[n - 1]);
      Moved(r.sites, before.ok && r.ok)
  }

  // ---- what a migration keeps ----

  /** The peers that `GetActiveByNode` lists, in some order. */
  ghost predicate ListsActive(db: Db, node: NodeId, queue: seq<PeerId>) {
    && (set p | p in queue) == Registry.ActiveOn(db, node)
    && (forall j, k :: 0 <= j < k < |queue| ==> queue[j] != queue[k])
  }

  /** A row after the migration: untouched, or on the target with an address of its range;
      identifier and status never change. */
  predicate StaysOrMoves(c: Config, e: Ends, before: Db, after: Db, p: PeerId)
    requires p in before.peers && p in after.peers
  {
    after.peers[p] == before.peers[p]
    || (e.target in before.subnets && InClientRange(c, before.subnets[e.target], after.peers[p].ip)
        && after.peers[p] == before.peers[p].(node := e.target, ip := after.peers[p].ip))
  }

  /** Nothing but the listed peers' node and address has changed. */
  predicate Conserves(c: Config, e: Ends, before: Db, after: Db, listed: seq<PeerId>) {
    && after.nodes == before.nodes && after.subnets == before.subnets && after.peers.Keys == before.peers.Keys
    && (forall p :: p in before.peers && p !in listed ==> after.peers[p] == before.peers[p])
    && (forall p :: p in listed && p in before.peers ==> StaysOrMoves(c, e, before, after, p))
  }

  /** The peer's row and the target's table agree. */
  predicate Arrived(e: Ends, s: Sites, p: PeerId) {
    && p in s.db.peers && s.db.peers[p].node == e.target && s.db.peers[p].ip < ADDRESSES
    && s.db.peers[p].identifier in s.target
    && s.target[s.db.peers[p].identifier].ips == {HostRoute(s.db.peers[p].ip)}
  }

  /** The start of a migration. */
  ghost predicate CanMigrate(c: Config, e: Ends, s: Sites, h: map<NodeId, nat>, drawn: set<NodeId>, queue: seq<PeerId>) {
    && Registry.TablesOk(c, s.db, h, drawn) && Placed(c, s.db) && e.source != e.target
    && ListsActive(s.db, e.source, queue)
    && (forall p :: p in s.db.peers ==> IsValidKey(s.db.peers[p].identifier))
  }

  /** One peer's turn, on the tables. */
  lemma OneRow(c: Config, e: Ends, s: Sites, h: map<NodeId, nat>, drawn: set<NodeId>, peer: PeerId, key: string, f: PeerFaults)
    requires Registry.TablesOk(c, s.db, h, drawn) && Placed(c, s.db) && peer in s.db.peers
    ensures var r := MigrateOne(c, e, s, peer, key, f);
            && Registry.TablesOk(c, r.sites.db, h, drawn)
            && Conserves(c, e, s.db, r.sites.db, [peer])
            && (r.ok ==> r.sites.db.peers[peer].node == e.target && r.sites.db.peers[peer].ip < ADDRESSES)
  {
    hide Registry.TablesOk;
    hide Placed;
    hide PickIp;
    hide InClientRange;
    hide AddResult;
    hide RemoveResult;
    hide HostRoute;
    hide TrimSpace;
    hide IpInUse;
    var ip := ClientIp(c, s.db, e.target, f.read);
    if ip.Some? {
      ClientIpIsAddress(c, s.db, e.target, f.read);
      AllocatedHolds(c, s.db, h, drawn, e.target, ip.value);
      Registry.MovePeerKeeps(c, s.db, h, drawn, peer, e.target, ip.value);
    }
  }

  /** One peer's turn, on the target's table: its entry is made, nobody else's touched unless
      somebody there holds its new address. */
  lemma OneEntry(c: Config, e: Ends, s: Sites, peer: PeerId, f: PeerFaults)
    requires Placed(c, s.db) && IsTable(s.target) && peer in s.db.peers
    requires IsValidKey(s.db.peers[peer].identifier)
    ensures var r := MigrateOne(c, e, s, peer, s.db.peers[peer].identifier, f);
            && IsTable(r.sites.target)
            && (r.ok ==> Arrived(e, r.sites, peer))
            && (forall q :: q != peer && Arrived(e, s, q) ==> Arrived(e, r.sites, q))
  {
    hide Placed;
    hide PickIp;
    hide InClientRange;
    hide AddResult;
    hide RemoveResult;
    hide HostRoute;
    hide TrimSpace;
    hide IpInUse;
    hide IsTable;
    hide IsValidKey;
    var key := s.db.peers[peer].identifier;
    var ip := ClientIp(c, s.db, e.target, f.read);
    if ip.Some? {
      ClientIpIsAddress(c, s.db, e.target, f.read);
      var moved := MovePeer(s.db, peer, e.target, ip.value, f.move);
      if moved.ok && f.targetOk {
        AddedEntry(e.targetIf, s.target, key, ip.value, f.add);
        AddedTable(e.targetIf, s.target, key, ip.value, f.add);
        forall q | q != peer && Arrived(e, s, q)
          ensures Arrived(e, MigrateOne(c, e, s, peer, key, f).sites, q)
        {
          OthersKeepEntries(c, e, s, peer, q, ip.value, f);
        }
      }
    }
  }

  lemma AddedTable(i: Interface, t: Table, key: string, ip: nat, f: AddFaults)
    requires ip < ADDRESSES && IsTable(t) && IsValidKey(key)
    ensures IsTable(AddResult(i, t, ClientConfig(key, ip), f).table)
  {
    hide IsTable;
    hide WgSet;
    hide Conflicts;
    hide IsValidKey;
    ClientConfigIsValid(key, ip);
    SetKeepsTable(t, ClientConfig(key, ip));
    RemovalIsClean(i, WgSet(t, ClientConfig(key, ip)), key);
  }

  /** Another peer that has arrived keeps its entry: its key and its address are its own. */
  lemma OthersKeepEntries(c: Config, e: Ends, s: Sites, peer: PeerId, q: PeerId, ip: nat, f: PeerFaults)
    requires Placed(c, s.db) && IsTable(s.target) && peer in s.db.peers && ip < ADDRESSES
    requires IsValidKey(s.db.peers[peer].identifier)
    requires ClientIp(c, s.db, e.target, f.read) == Some(ip) && MovePeer(s.db, peer, e.target, ip, f.move).ok && f.targetOk
    requires q != peer && Arrived(e, s, q)
    ensures Arrived(e, MigrateOne(c, e, s, peer, s.db.peers[peer].identifier, f).sites, q)
  {
    hide PickIp;
    hide InClientRange;
    hide IsNetwork;
    hide AddResult;
    hide RemoveResult;
    hide HostRoute;
    hide TrimSpace;
    hide IpInUse;
    hide IsTable;
    hide IsValidKey;
    AddedEntry(e.targetIf, s.target, s.db.peers[peer].identifier, ip, f.add);
    HostRouteInjective(s.db.peers[q].ip, ip);
    assert s.db.peers[q].ip != ip;
  }

  lemma ConservesTwice(c: Config, e: Ends, a: Db, b: Db, d: Db, queue: seq<PeerId>, n: nat)
    requires n < |queue| && queue[n] !in queue[..n] && (forall p :: p in queue ==> p in a.peers)
    requires Conserves(c, e, a, b, queue[..n]) && Conserves(c, e, b, d, [queue[n]])
    ensures Conserves(c, e, a, d, queue[..n + 1])
  {
    hide InClientRange;
    assert queue[..n + 1] == queue[..n] + [queue[n]];
    forall p | p in queue[..n + 1] ensures StaysOrMoves(c, e, a, d, p) {
      if p != queue[n] {
        assert d.peers[p] == b.peers[p];
      }
    }
  }

  lemma SameIdentifier(c: Config, e: Ends, a: Db, b: Db, listed: seq<PeerId>, p: PeerId)
    requires Conserves(c, e, a, b, listed) && p in a.peers
    ensures a.peers.Keys == b.peers.Keys && b.peers[p].identifier == a.peers[p].identifier
  {
    hide InClientRange;
  }

  lemma StayPut(c: Config, e: Ends, a: Db, b: Db, queue: seq<PeerId>, n: nat)
    requires n < |queue| && queue[n] !in queue[..n] && Conserves(c, e, a, b, [queue[n]])
    ensures forall p :: p in queue[..n] && p in a.peers ==> p in b.peers && b.peers[p] == a.peers[p]
  {
  }

  lemma NothingMoved(c: Config, e: Ends, db: Db)
    ensures Conserves(c, e, db, db, [])
  {
  }

  lemma {:induction false} AllRows(c: Config, e: Ends, s: Sites, h: map<NodeId, nat>, drawn: set<NodeId>,
                                   queue: seq<PeerId>, faults: seq<PeerFaults>, n: nat)
    requires CanMigrate(c, e, s, h, drawn, queue) && n <= |queue| == |faults|
    requires forall p :: p in queue ==> p in s.db.peers
    ensures var r := MigrateAll(c, e, s, queue, faults, n);
            && Registry.TablesOk(c, r.sites.db, h, drawn)
            && Conserves(c, e, s.db, r.sites.db, queue[..n])
            && (r.ok ==> forall p :: p in queue[..n] ==> r.sites.db.peers[p].node == e.target)
  {
    hide Registry.TablesOk;
    hide Placed;
    hide MigrateOne;
    hide IsValidKey;
    hide StaysOrMoves;
    hide Registry.ActiveOn;
    hide Conserves;
    if n == 0 {
      NothingMoved(c, e, s.db);
    } else {
      AllRows(c, e, s, h, drawn, queue, faults, n - 1);
      var before := MigrateAll(c, e, s, queue, faults, n - 1);
      SameIdentifier(c, e, s.db, before.sites.db, queue[..n - 1], queue[n - 1]);
      OneRow(c, e, before.sites, h, drawn, queue[n - 1], s.db.peers[queue[n - 1]].identifier, faults[n - 1]);
      var r := MigrateAll(c, e, s, queue, faults, n);
      ConservesTwice(c, e, s.db, before.sites.db, r.sites.db, queue, n - 1);
      StayPut(c, e, before.sites.db, r.sites.db, queue, n - 1);
      assert queue[..n] == queue[..n - 1] + [queue[n - 1]];
    }
  }

  lemma ListedArePeers(db: Db, node: NodeId, queue: seq<PeerId>)
    requires ListsActive(db, node, queue)
    ensures forall p :: p in queue ==> p in db.peers && db.peers[p].node == node && db.peers[p].status == PeerActive
    ensures forall p :: p in db.peers && db.peers[p].node == node && db.peers[p].status == PeerActive ==> p in queue
  {
    forall p | p in queue ensures p in Registry.ActiveOn(db, node) {
      assert p in set q | q in queue;
    }
    forall p | p in Registry.ActiveOn(db, node) ensures p in queue {
      assert p in set q | q in queue;
    }
  }

  /** Whatever fails along the way, no peer and no identifier is lost, every source peer is
      where it was or on the target with an address of the target's range, all addresses are
      still unique, and a result without errors means the source has no active peer left. */
  lemma MigrationConserves(c: Config, e: Ends, s: Sites, h: map<NodeId, nat>, drawn: set<NodeId>,
                           queue: seq<PeerId>, faults: seq<PeerFaults>)
    requires CanMigrate(c, e, s, h, drawn, queue) && |queue| == |faults|
    ensures forall p :: p in queue ==> p in s.db.peers
    ensures var r := MigrateAll(c, e, s, queue, faults, |queue|);
            && Conserves(c, e, s.db, r.sites.db, queue)
            && Registry.TablesOk(c, r.sites.db, h, drawn) && UniquePeers(r.sites.db.peers)
            && (r.ok ==> Registry.ActiveOn(r.sites.db, e.source) == {})
  {
    ListedArePeers(s.db, e.source, queue);
    AllRows(c, e, s, h, drawn, queue, faults, |queue|);
    assert queue[..|queue|] == queue;
    var r := MigrateAll(c, e, s, queue, faults, |queue|);
    hide MigrateAll;
    hide Placed;
    hide InClientRange;
    hide ListsActive;
    hide Registry.Holds;
    hide IsNetwork;
    if r.ok {
      forall p | p in r.sites.db.peers && r.sites.db.peers[p].status == PeerActive
        ensures r.sites.db.peers[p].node != e.source
      {
        if p !in queue {
          assert r.sites.db.peers[p] == s.db.peers[p];
        }
      }
    }
  }

  lemma {:induction false} AllEntries(c: Config, e: Ends, s: Sites, h: map<NodeId, nat>, drawn: set<NodeId>,
                                      queue: seq<PeerId>, faults: seq<PeerFaults>, n: nat)
    requires CanMigrate(c, e, s, h, drawn, queue) && n <= |queue| == |faults| && IsTable(s.target)
    requires forall p :: p in queue ==> p in s.db.peers
    ensures var r := MigrateAll(c, e, s, queue, faults, n);
            && IsTable(r.sites.target)
            && (r.ok ==> forall p :: p in queue[..n] ==> Arrived(e, r.sites, p))
  {
    hide Registry.TablesOk;
    hide Placed;
    hide MigrateOne;
    hide IsValidKey;
    hide StaysOrMoves;
    hide InClientRange;
    hide Registry.ActiveOn;
    hide IsTable;
    hide Arrived;
    hide Conserves;
    if n > 0 {
      AllEntries(c, e, s, h, drawn, queue, faults, n - 1);
      AllRows(c, e, s, h, drawn, queue, faults, n - 1);
      var before, peer := MigrateAll(c, e, s, queue, faults, n - 1), queue[n - 1];
      SameIdentifier(c, e, s.db, before.sites.db, queue[..n - 1], peer);
      OneEntry(c, e, before.sites, peer, faults[n - 1]);
      assert queue[..n] == queue[..n - 1] + [peer];
    }
  }

  /** A result without errors also means that the target's table has, for every moved peer,
      its key with exactly its new address. */
  lemma MigratedPeersAreReachable(c: Config, e: Ends, s: Sites, h: map<NodeId, nat>, drawn: set<NodeId>,
                                  queue: seq<PeerId>, faults: seq<PeerFaults>)
    requires CanMigrate(c, e, s, h, drawn, queue) && |queue| == |faults| && IsTable(s.target)
    ensures forall p :: p in queue ==> p in s.db.peers
    ensures var r := MigrateAll(c, e, s, queue, faults, |queue|);
            r.ok ==> forall p :: p in queue ==> Arrived(e, r.sites, p)
  {
    ListedArePeers(s.db, e.source, queue);
    AllEntries(c, e, s, h, drawn, queue, faults, |queue|);
    assert queue[..|queue|] == queue;
  }

  // ---- when a migration succeeds ----

  /** The conditions outside the node tables and the network under which a turn works. */
  predicate RowMoves(db: Db, e: Ends, peer: PeerId, ip: nat) {
    && peer != "" && peer in db.peers && TrimSpace(e.target) != "" && e.target in db.nodes
    && (forall q :: q in db.peers && q != peer ==> db.peers[q].ip != ip)
  }

  predicate CallsWork(f: PeerFaults) {
    f.move.getOk && f.move.conflictOk && f.move.updateOk && f.targetOk && f.add.command.Done? && f.add.verifyOk
  }

  /** One turn succeeds exactly when there is an address, the row can take it, the target has
      neither key nor address where it is asked, and no call that matters fails; removing the
      peer from the source does not matter. The row is then on the target with that address, the
      target has the entry, and the source has lost the key if its removal took effect. */
  lemma TurnSucceedsExactlyWhen(c: Config, e: Ends, s: Sites, peer: PeerId, f: PeerFaults)
    requires Placed(c, s.db) && peer in s.db.peers && IsValidKey(s.db.peers[peer].identifier)
    ensures var key, ip := s.db.peers[peer].identifier, ClientIp(c, s.db, e.target, f.read);
            var r := MigrateOne(c, e, s, peer, key, f);
            && (r.ok <==>
                  && ip.Some? && RowMoves(s.db, e, peer, ip.value) && CallsWork(f)
                  && (ClientIpIsAddress(c, s.db, e.target, f.read);
                      f.add.listOk ==> IsFree(e.targetIf, s.target, key, ip.value)))
            && (r.ok ==>
                  && ip.value < ADDRESSES
                  && r.sites.db == s.db.(peers := s.db.peers[peer := s.db.peers[peer].(node := e.target, ip := ip.value)])
                  && HasEntry(r.sites.target, key, ip.value)
                  && (f.add.listOk ==> r.sites.target == s.target[key := Entry({HostRoute(ip.value)}, None)])
                  && r.sites.source.Keys == s.source.Keys - (if RemovalsSucceed(f) then {key} else {})
                  && forall k :: k in r.sites.source ==> r.sites.source[k] == s.source[k])
  {
    hide PickIp;
    hide IsNetwork;
    hide UniqueNodeKeys;
    hide UniqueSubnets;
    hide UniquePeers;
    hide AddResult;
    hide RemoveResult;
    hide MovePeer;
    hide HostRoute;
    hide IsFree;
    hide TrimSpace;
    hide IsValidKey;
    var key, ip := s.db.peers[peer].identifier, ClientIp(c, s.db, e.target, f.read);
    if ip.Some? {
      ClientIpIsAddress(c, s.db, e.target, f.read);
      MovesExactlyWhen(s.db, peer, e.target, ip.value, f.move);
      AddsExactlyWhen(e.targetIf, s.target, key, ip.value, f.add);
      RemovesExactlyWhen(e.sourceIf, s.source, key, f.remove);
    }
  }

  /** The target's client addresses that none of its own peers holds, from the lowest on. */
  function FreeAddresses(c: Config, db: Db, node: NodeId): seq<nat>
    requires node in db.subnets
  {
    FreeFrom(RangeStart(db.subnets[node]), RangeEnd(db.subnets[node], c.subnetMask), IpsOn(db, node))
  }

  /** Seen before a migration: the target can take clients, it has more than k free addresses, the
      one at place k is held by nobody but peers that will have moved, and neither it nor the key
      of the peer at place k is in the target's table. */
  predicate Fits(c: Config, e: Ends, s: Sites, queue: seq<PeerId>, k: nat)
    requires k < |queue| && queue[k] in s.db.peers
  {
    && e.target in s.db.subnets && e.target in s.db.nodes && ValidNodeId(e.target) && TrimSpace(e.target) != ""
    && queue[k] != ""
    && var free := FreeAddresses(c, s.db, e.target);
       && k < |free| && free[k] < ADDRESSES
       && (forall p :: p in s.db.peers && s.db.peers[p].ip == free[k] ==> p in queue[..k + 1])
       && IsFree(e.targetIf, s.target, s.db.peers[queue[k]].identifier, free[k])
  }

  predicate NothingFails(f: PeerFaults) {
    CallsWork(f) && f.read == ALL_READS && f.add.listOk && RemovalsSucceed(f)
  }

  /** The first n listed peers have the first n free addresses, in their order. */
  predicate RowsMoved(c: Config, e: Ends, s: Sites, queue: seq<PeerId>, n: nat, db: Db)
    requires n <= |queue| && forall p :: p in queue ==> p in s.db.peers
  {
    && db.nodes == s.db.nodes && db.subnets == s.db.subnets && db.peers.Keys == s.db.peers.Keys
    && (forall p :: p in s.db.peers && p !in queue[..n] ==> db.peers[p] == s.db.peers[p])
    && (n > 0 ==> e.target in s.db.subnets && n <= |FreeAddresses(c, s.db, e.target)|)
    && (forall j :: 0 <= j < n ==>
          db.peers[queue[j]] == s.db.peers[queue[j]].(node := e.target, ip := FreeAddresses(c, s.db, e.target)[j]))
  }

  /** The target's table has just their entries more. */
  predicate EntriesMade(c: Config, e: Ends, s: Sites, queue: seq<PeerId>, n: nat, target: Table)
    requires n <= |queue| && forall p :: p in queue ==> p in s.db.peers
  {
    && (n > 0 ==> e.target in s.db.subnets && n <= |FreeAddresses(c, s.db, e.target)|)
    && target.Keys == s.target.Keys + KeysOf(s.db, queue[..n])
    && (forall k :: k in s.target && k !in KeysOf(s.db, queue[..n]) ==> target[k] == s.target[k])
    && (forall j :: 0 <= j < n ==> HasOnly(target, s.db.peers[queue[j]].identifier, FreeAddresses(c, s.db, e.target)[j]))
  }

  predicate HasOnly(t: Table, key: string, ip: nat) {
    ip < ADDRESSES && key in t && t[key] == Entry({HostRoute(ip)}, None)
  }

  predicate HaveMoved(c: Config, e: Ends, s: Sites, queue: seq<PeerId>, n: nat, r: Sites)
    requires n <= |queue| && forall p :: p in queue ==> p in s.db.peers
  {
    && RowsMoved(c, e, s, queue, n, r.db) && EntriesMade(c, e, s, queue, n, r.target)
    && r.source.Keys == s.source.Keys - KeysOf(s.db, queue[..n])
    && (forall k :: k in r.source ==> r.source[k] == s.source[k])
  }

  lemma NobodyMoved(c: Config, e: Ends, s: Sites, queue: seq<PeerId>)
    requires forall p :: p in queue ==> p in s.db.peers
    ensures HaveMoved(c, e, s, queue, 0, s)
  {
  }

  /** The addresses taken on the target after n moves. */
  lemma TakenAfter(c: Config, e: Ends, s: Sites, queue: seq<PeerId>, n: nat, r: Sites)
    requires n <= |queue| && (forall p :: p in queue ==> p in s.db.peers && s.db.peers[p].node != e.target)
    requires HaveMoved(c, e, s, queue, n, r) && e.target in s.db.subnets
    ensures IpsOn(r.db, e.target) == IpsOn(s.db, e.target) + set x | x in FreeAddresses(c, s.db, e.target)[..n]
  {
    hide FreeAddresses;
    hide HostRoute;
    hide KeysOf;
    var free := FreeAddresses(c, s.db, e.target);
    forall ip | ip in IpsOn(r.db, e.target) ensures ip in IpsOn(s.db, e.target) || ip in free[..n] {
      var p :| p in r.db.peers && r.db.peers[p].node == e.target && r.db.peers[p].ip == ip;
      if p in queue[..n] {
        var j :| 0 <= j < n && queue[..n][j] == p;
        assert free[..n][j] == ip;
      }
    }
    forall ip | ip in IpsOn(s.db, e.target) ensures ip in IpsOn(r.db, e.target) {
      var p :| p in s.db.peers && s.db.peers[p].node == e.target && s.db.peers[p].ip == ip;
      assert p !in queue[..n];
    }
    forall ip | ip in free[..n] ensures ip in IpsOn(r.db, e.target) {
      var j :| 0 <= j < n && free[..n][j] == ip;
      assert r.db.peers[queue[j]].node == e.target;
    }
  }

  /** So the next search finds the next free address. */
  lemma NextAddress(c: Config, e: Ends, s: Sites, queue: seq<PeerId>, n: nat, r: Sites)
    requires n <= |queue| && (forall p :: p in queue ==> p in s.db.peers && s.db.peers[p].node != e.target)
    requires HaveMoved(c, e, s, queue, n, r)
    ensures ClientIp(c, r.db, e.target, ALL_READS)
            == if e.target in s.db.subnets && ValidNodeId(e.target) && n < |FreeAddresses(c, s.db, e.target)|
               then Some(FreeAddresses(c, s.db, e.target)[n]) else None
  {
    hide HaveMoved;
    hide FirstFree;
    hide FreeFrom;
    hide IpsOn;
    SubnetsAfter(c, e, s, queue, n, r);
    if e.target in s.db.subnets {
      TakenAfter(c, e, s, queue, n, r);
      var network := s.db.subnets[e.target];
      NextFree(RangeStart(network), RangeEnd(network, c.subnetMask), IpsOn(s.db, e.target), n);
    }
  }

  lemma SubnetsAfter(c: Config, e: Ends, s: Sites, queue: seq<PeerId>, n: nat, r: Sites)
    requires n <= |queue| && (forall p :: p in queue ==> p in s.db.peers) && HaveMoved(c, e, s, queue, n, r)
    ensures r.db.subnets == s.db.subnets
    ensures n > 0 ==> e.target in s.db.subnets && n <= |FreeAddresses(c, s.db, e.target)|
  {
    hide EntriesMade;
    hide FreeAddresses;
  }

  /** Who holds an address after n moves. */
  lemma HoldersAfter(c: Config, e: Ends, s: Sites, queue: seq<PeerId>, n: nat, r: Sites)
    requires n < |queue| && (forall p :: p in queue ==> p in s.db.peers && s.db.peers[p].node != e.target)
    requires HaveMoved(c, e, s, queue, n, r) && e.target in s.db.subnets && n < |FreeAddresses(c, s.db, e.target)|
    requires queue[n] !in queue[..n]
    ensures var ip := FreeAddresses(c, s.db, e.target)[n];
            (forall q :: q in r.db.peers && q != queue[n] ==> r.db.peers[q].ip != ip)
            <==> (forall p :: p in s.db.peers && s.db.peers[p].ip == ip ==> p in queue[..n + 1])
  {
    hide HostRoute;
    hide KeysOf;
    hide FreeFrom;
    var free := FreeAddresses(c, s.db, e.target);
    assert queue[..n + 1] == queue[..n] + [queue[n]];
    forall p | p in queue[..n] ensures r.db.peers[p].ip != free[n] {
      var j :| 0 <= j < n && queue[..n][j] == p;
      assert r.db.peers[queue[j]].ip == free[j] < free[n];
    }
    forall p | p in s.db.peers && p !in queue[..n] ensures r.db.peers[p] == s.db.peers[p] {
    }
  }

  lemma EntryAfter(c: Config, e: Ends, s: Sites, queue: seq<PeerId>, n: nat, r: Sites, j: nat)
    requires j < n <= |queue| && (forall p :: p in queue ==> p in s.db.peers)
    requires HaveMoved(c, e, s, queue, n, r)
    ensures e.target in s.db.subnets && n <= |FreeAddresses(c, s.db, e.target)|
    ensures var key, ip := s.db.peers[queue[j]].identifier, FreeAddresses(c, s.db, e.target)[j];
            ip < ADDRESSES && key in r.target && r.target[key].ips == {HostRoute(ip)}
  {
    hide FreeAddresses;
    hide HostRoute;
    assert queue[..n][j] == queue[j];
    assert s.db.peers[queue[j]].identifier in KeysOf(s.db, queue[..n]);
  }

  lemma KeyOfListed(db: Db, queue: seq<PeerId>, n: nat, k: string) returns (j: nat)
    requires n <= |queue| && (forall p :: p in queue ==> p in db.peers) && k in KeysOf(db, queue[..n])
    ensures j < n && k == db.peers[queue[j]].identifier
  {
    var p :| p in queue[..n] && db.peers[p].identifier == k;
    j :| 0 <= j < n && queue[..n][j] == p;
  }

  /** The entries made so far are under other keys and have other addresses. */
  lemma NewEntriesApart(c: Config, e: Ends, s: Sites, queue: seq<PeerId>, n: nat, r: Sites, k: string)
    requires n < |queue| && (forall p :: p in queue ==> p in s.db.peers)
    requires HaveMoved(c, e, s, queue, n, r) && e.target in s.db.subnets && n < |FreeAddresses(c, s.db, e.target)|
    requires FreeAddresses(c, s.db, e.target)[n] < ADDRESSES && k in KeysOf(s.db, queue[..n])
    ensures exists j :: 0 <= j < n && k == s.db.peers[queue[j]].identifier
    ensures k in r.target && HostRoute(FreeAddresses(c, s.db, e.target)[n]) !in r.target[k].ips
  {
    hide HostRoute;
    hide FreeFrom;
    hide HaveMoved;
    hide KeysOf;
    var free := FreeAddresses(c, s.db, e.target);
    var j := KeyOfListed(s.db, queue, n, k);
    EntryAfter(c, e, s, queue, n, r, j);
    assert free[j] < free[n];
    HostRouteInjective(free[j], free[n]);
  }

  lemma TargetAfter(c: Config, e: Ends, s: Sites, queue: seq<PeerId>, n: nat, r: Sites)
    requires n <= |queue| && (forall p :: p in queue ==> p in s.db.peers)
    requires HaveMoved(c, e, s, queue, n, r)
    ensures r.target.Keys == s.target.Keys + KeysOf(s.db, queue[..n])
    ensures forall k :: k in s.target && k !in KeysOf(s.db, queue[..n]) ==> r.target[k] == s.target[k]
  {
  }

  /** The earlier moves put nothing in the way of the next one. */
  lemma FreeAfter(c: Config, e: Ends, s: Sites, queue: seq<PeerId>, n: nat, r: Sites)
    requires n < |queue| && (forall p :: p in queue ==> p in s.db.peers)
    requires HaveMoved(c, e, s, queue, n, r) && e.target in s.db.subnets && n < |FreeAddresses(c, s.db, e.target)|
    requires FreeAddresses(c, s.db, e.target)[n] < ADDRESSES
    requires forall j :: 0 <= j < n ==>
               s.db.peers[queue[j]].identifier != s.db.peers[queue[n]].identifier
               && s.db.peers[queue[j]].identifier !in s.target
    ensures var key, ip := s.db.peers[queue[n]].identifier, FreeAddresses(c, s.db, e.target)[n];
            IsFree(e.targetIf, r.target, key, ip) <==> IsFree(e.targetIf, s.target, key, ip)
  {
    var key, ip := s.db.peers[queue[n]].identifier, FreeAddresses(c, s.db, e.target)[n];
    TargetAfter(c, e, s, queue, n, r);
    forall k | k in KeysOf(s.db, queue[..n]) ensures k != key && k !in s.target && k in r.target && HostRoute(ip) !in r.target[k].ips {
      NewEntriesApart(c, e, s, queue, n, r, k);
    }
    hide HaveMoved;
    hide FreeAddresses;
    hide HostRoute;
    hide KeysOf;
  }

  lemma RowAfter(c: Config, e: Ends, s: Sites, queue: seq<PeerId>, n: nat, r: Sites)
    requires n < |queue| && (forall p :: p in queue ==> p in s.db.peers) && queue[n] !in queue[..n]
    requires HaveMoved(c, e, s, queue, n, r)
    ensures r.db.nodes == s.db.nodes && r.db.subnets == s.db.subnets
    ensures queue[n] in r.db.peers && r.db.peers[queue[n]] == s.db.peers[queue[n]]
  {
  }

  lemma FittingKeys(c: Config, e: Ends, s: Sites, queue: seq<PeerId>, n: nat)
    requires n < |queue| && (forall p :: p in queue ==> p in s.db.peers) && UniquePeers(s.db.peers)
    requires forall j :: 0 <= j < n ==> queue[j] != queue[n] && Fits(c, e, s, queue, j)
    ensures forall j :: 0 <= j < n ==>
              s.db.peers[queue[j]].identifier != s.db.peers[queue[n]].identifier
              && s.db.peers[queue[j]].identifier !in s.target
  {
    hide FreeAddresses;
    hide HostRoute;
  }

  /** One more turn in which nothing fails: whether it succeeds ... */
  lemma OneMoreFits(c: Config, e: Ends, s: Sites, queue: seq<PeerId>, n: nat, r: Sites, f: PeerFaults)
    requires n < |queue| && (forall p :: p in queue ==> p in s.db.peers && s.db.peers[p].node != e.target)
    requires queue[n] !in queue[..n] && UniquePeers(s.db.peers) && IsValidKey(s.db.peers[queue[n]].identifier)
    requires forall j :: 0 <= j < n ==> queue[j] != queue[n]
    requires HaveMoved(c, e, s, queue, n, r) && Placed(c, r.db) && NothingFails(f)
    requires forall j :: 0 <= j < n ==> Fits(c, e, s, queue, j)
    ensures var u := MigrateOne(c, e, r, queue[n], s.db.peers[queue[n]].identifier, f);
            && (u.ok <==> Fits(c, e, s, queue, n))
            && (u.ok ==>
                  && e.target in s.db.subnets && n < |FreeAddresses(c, s.db, e.target)|
                  && var key, ip := s.db.peers[queue[n]].identifier, FreeAddresses(c, s.db, e.target)[n];
                     && ip < ADDRESSES
                     && u.sites.db == r.db.(peers := r.db.peers[queue[n] := r.db.peers[queue[n]].(node := e.target, ip := ip)])
                     && u.sites.target == r.target[key := Entry({HostRoute(ip)}, None)]
                     && u.sites.source.Keys == r.source.Keys - {key}
                     && forall k :: k in u.sites.source ==> u.sites.source[k] == r.source[k])
  {
    hide HaveMoved;
    hide Placed;
    hide FreeAddresses;
    hide HostRoute;
    hide IsFree;
    hide MigrateOne;
    hide IsValidKey;
    hide TrimSpace;
    hide ClientIp;
    RowAfter(c, e, s, queue, n, r);
    NextAddress(c, e, s, queue, n, r);
    TurnSucceedsExactlyWhen(c, e, r, queue[n], f);
    if e.target in s.db.subnets && ValidNodeId(e.target) && n < |FreeAddresses(c, s.db, e.target)| {
      ClientIpIsAddress(c, r.db, e.target, ALL_READS);
      HoldersAfter(c, e, s, queue, n, r);
      FittingKeys(c, e, s, queue, n);
      FreeAfter(c, e, s, queue, n, r);
    }
  }

  lemma KeysOfMore(db: Db, queue: seq<PeerId>, n: nat)
    requires n < |queue| && forall p :: p in queue ==> p in db.peers
    ensures KeysOf(db, queue[..n + 1]) == KeysOf(db, queue[..n]) + {db.peers[queue[n]].identifier}
  {
    assert queue[..n + 1] == queue[..n] + [queue[n]];
  }

  /** ... and what it makes of everything moved so far. */
  lemma OneMoreRow(c: Config, e: Ends, s: Sites, queue: seq<PeerId>, n: nat, before: Db, db: Db)
    requires n < |queue| && (forall p :: p in queue ==> p in s.db.peers)
    requires forall j, k :: 0 <= j < k < |queue| ==> queue[j] != queue[k]
    requires RowsMoved(c, e, s, queue, n, before)
    requires e.target in s.db.subnets && n < |FreeAddresses(c, s.db, e.target)|
    requires var ip := FreeAddresses(c, s.db, e.target)[n];
             db == before.(peers := before.peers[queue[n] := s.db.peers[queue[n]].(node := e.target, ip := ip)])
    ensures RowsMoved(c, e, s, queue, n + 1, db)
  {
    hide FreeAddresses;
    assert queue[..n + 1] == queue[..n] + [queue[n]];
    assert forall j :: 0 <= j < n ==> queue[j] != queue[n];
  }

  lemma OtherKeys(db: Db, queue: seq<PeerId>, n: nat)
    requires n < |queue| && (forall p :: p in queue ==> p in db.peers) && UniquePeers(db.peers)
    requires forall j, k :: 0 <= j < k < |queue| ==> queue[j] != queue[k]
    ensures forall j :: 0 <= j < n ==> db.peers[queue[j]].identifier != db.peers[queue[n]].identifier
  {
    forall j | 0 <= j < n ensures db.peers[queue[j]].identifier != db.peers[queue[n]].identifier {
      assert queue[j] != queue[n];
    }
  }

  lemma OneMoreKey(start: Table, before: Table, keys: set<string>, key: string, entry: Entry)
    requires before.Keys == start.Keys + keys && forall k :: k in start && k !in keys ==> before[k] == start[k]
    ensures var t := before[key := entry];
            t.Keys == start.Keys + (keys + {key}) && forall k :: k in start && k !in keys + {key} ==> t[k] == start[k]
  {
  }

  lemma EarlierEntriesStay(c: Config, e: Ends, s: Sites, queue: seq<PeerId>, n: nat, before: Table, key: string, entry: Entry, j: nat)
    requires j < n <= |queue| && (forall p :: p in queue ==> p in s.db.peers)
    requires EntriesMade(c, e, s, queue, n, before) && key != s.db.peers[queue[j]].identifier
    ensures e.target in s.db.subnets && n <= |FreeAddresses(c, s.db, e.target)|
    ensures HasOnly(before[key := entry], s.db.peers[queue[j]].identifier, FreeAddresses(c, s.db, e.target)[j])
  {
    hide FreeAddresses;
    hide HostRoute;
    hide KeysOf;
    assert HasOnly(before, s.db.peers[queue[j]].identifier, FreeAddresses(c, s.db, e.target)[j]);
  }

  lemma OneMoreEntry(c: Config, e: Ends, s: Sites, queue: seq<PeerId>, n: nat, before: Table, target: Table)
    requires n < |queue| && (forall p :: p in queue ==> p in s.db.peers) && UniquePeers(s.db.peers)
    requires forall j, k :: 0 <= j < k < |queue| ==> queue[j] != queue[k]
    requires EntriesMade(c, e, s, queue, n, before)
    requires e.target in s.db.subnets && n < |FreeAddresses(c, s.db, e.target)|
    requires var key, ip := s.db.peers[queue[n]].identifier, FreeAddresses(c, s.db, e.target)[n];
             ip < ADDRESSES && target == before[key := Entry({HostRoute(ip)}, None)]
    ensures EntriesMade(c, e, s, queue, n + 1, target)
  {
    hide FreeAddresses;
    hide HostRoute;
    hide UniquePeers;
    hide KeysOf;
    var key, free := s.db.peers[queue[n]].identifier, FreeAddresses(c, s.db, e.target);
    KeysOfMore(s.db, queue, n);
    OneMoreKey(s.target, before, KeysOf(s.db, queue[..n]), key, Entry({HostRoute(free[n])}, None));
    OtherKeys(s.db, queue, n);
    forall j | 0 <= j < n ensures HasOnly(target, s.db.peers[queue[j]].identifier, free[j]) {
      EarlierEntriesStay(c, e, s, queue, n, before, key, Entry({HostRoute(free[n])}, None), j);
    }
    assert HasOnly(target, key, free[n]);
    hide HasOnly;
  }

  lemma OneMoreMoved(c: Config, e: Ends, s: Sites, queue: seq<PeerId>, n: nat, r: Sites, u: Sites)
    requires n < |queue| && (forall p :: p in queue ==> p in s.db.peers) && UniquePeers(s.db.peers)
    requires forall j, k :: 0 <= j < k < |queue| ==> queue[j] != queue[k]
    requires HaveMoved(c, e, s, queue, n, r)
    requires e.target in s.db.subnets && n < |FreeAddresses(c, s.db, e.target)|
    requires var key, ip := s.db.peers[queue[n]].identifier, FreeAddresses(c, s.db, e.target)[n];
             && ip < ADDRESSES
             && u.db == r.db.(peers := r.db.peers[queue[n] := s.db.peers[queue[n]].(node := e.target, ip := ip)])
             && u.target == r.target[key := Entry({HostRoute(ip)}, None)]
             && u.source.Keys == r.source.Keys - {key}
             && forall k :: k in u.source ==> u.source[k] == r.source[k]
    ensures HaveMoved(c, e, s, queue, n + 1, u)
  {
    hide FreeAddresses;
    hide HostRoute;
    hide RowsMoved;
    hide EntriesMade;
    OneMoreRow(c, e, s, queue, n, r.db, u.db);
    OneMoreEntry(c, e, s, queue, n, r.target, u.target);
    KeysOfMore(s.db, queue, n);
    hide KeysOf;
  }

  lemma OneMoreTurn(c: Config, e: Ends, s: Sites, queue: seq<PeerId>, n: nat, r: Sites, f: PeerFaults)
    requires n < |queue| && (forall p :: p in queue ==> p in s.db.peers && s.db.peers[p].node != e.target)
    requires forall j, k :: 0 <= j < k < |queue| ==> queue[j] != queue[k]
    requires UniquePeers(s.db.peers) && IsValidKey(s.db.peers[queue[n]].identifier)
    requires HaveMoved(c, e, s, queue, n, r) && Placed(c, r.db) && NothingFails(f)
    requires forall j :: 0 <= j < n ==> Fits(c, e, s, queue, j)
    ensures var u := MigrateOne(c, e, r, queue[n], s.db.peers[queue[n]].identifier, f);
            (u.ok <==> Fits(c, e, s, queue, n)) && (u.ok ==> HaveMoved(c, e, s, queue, n + 1, u.sites))
  {
    hide Placed;
    hide UniquePeers;
    hide IsValidKey;
    hide NothingFails;
    hide HaveMoved;
    hide Fits;
    hide MigrateOne;
    hide FreeAddresses;
    hide HostRoute;
    assert queue[n] !in queue[..n];
    RowAfter(c, e, s, queue, n, r);
    OneMoreFits(c, e, s, queue, n, r, f);
    var u := MigrateOne(c, e, r, queue[n], s.db.peers[queue[n]].identifier, f);
    if u.ok {
      OneMoreMoved(c, e, s, queue, n, r, u.sites);
    }
  }

  lemma {:induction false} CleanTurns(c: Config, e: Ends, s: Sites, h: map<NodeId, nat>, drawn: set<NodeId>,
                                      queue: seq<PeerId>, faults: seq<PeerFaults>, n: nat)
    requires CanMigrate(c, e, s, h, drawn, queue) && n <= |queue| == |faults|
    requires forall p :: p in queue ==> p in s.db.peers && s.db.peers[p].node == e.source
    requires forall k :: 0 <= k < n ==> NothingFails(faults[k])
    ensures var r := MigrateAll(c, e, s, queue, faults, n);
            && (r.ok <==> forall k :: 0 <= k < n ==> Fits(c, e, s, queue, k))
            && (r.ok ==> HaveMoved(c, e, s, queue, n, r.sites))
  {
    hide Registry.TablesOk;
    hide UniquePeers;
    hide MigrateOne;
    hide IsValidKey;
    hide HaveMoved;
    hide Fits;
    hide NothingFails;
    hide Placed;
    if n == 0 {
      NobodyMoved(c, e, s, queue);
    } else {
      CleanTurns(c, e, s, h, drawn, queue, faults, n - 1);
      var before := MigrateAll(c, e, s, queue, faults, n - 1);
      if before.ok {
        KeysAreUnique(c, s.db, h, drawn);
        OneMoreTurn(c, e, s, queue, n - 1, before.sites, faults[n - 1]);
      }
    }
  }

  lemma KeysAreUnique(c: Config, db: Db, h: map<NodeId, nat>, drawn: set<NodeId>)
    requires Registry.TablesOk(c, db, h, drawn)
    ensures UniquePeers(db.peers)
  {
  }

  /** A migration in which no statement and no command fails succeeds exactly when every listed
      peer fits, as seen before it starts. All of them are then on the target, in their order on
      its lowest free addresses; the target's table has got just their entries, and the source's
      has lost just theirs. */
  lemma MigrationSucceedsExactlyWhen(c: Config, e: Ends, s: Sites, h: map<NodeId, nat>, drawn: set<NodeId>,
                                     queue: seq<PeerId>, faults: seq<PeerFaults>)
    requires CanMigrate(c, e, s, h, drawn, queue) && |queue| == |faults|
    requires forall k :: 0 <= k < |faults| ==> NothingFails(faults[k])
    ensures forall p :: p in queue ==> p in s.db.peers
    ensures var r := MigrateAll(c, e, s, queue, faults, |queue|);
            && (r.ok <==> forall k :: 0 <= k < |queue| ==> Fits(c, e, s, queue, k))
            && (r.ok ==> HaveMoved(c, e, s, queue, |queue|, r.sites))
  {
    ListedArePeers(s.db, e.source, queue);
    CleanTurns(c, e, s, h, drawn, queue, faults, |queue|);
  }

  // ---- stranded peers ----

  /** The row says target, the target's table does not have it. */
  predicate Stranded(e: Ends, s: Sites, p: PeerId) {
    p in s.db.peers && s.db.peers[p].node == e.target && !Arrived(e, s, p)
  }

  /** What decides, before a peer's turn, that the turn will strand it: its row moves, and the
      target cannot be read or the addition does not end with the entry. */
  predicate TurnStrands(c: Config, e: Ends, s: Sites, peer: PeerId, f: PeerFaults)
    requires Placed(c, s.db) && peer in s.db.peers
  {
    var ip := ClientIp(c, s.db, e.target, f.read);
    && ip.Some? && MovePeer(s.db, peer, e.target, ip.value, f.move).ok
    && (ClientIpIsAddress(c, s.db, e.target, f.read);
        var key := s.db.peers[peer].identifier;
        if f.targetOk then !EntryThere(e.targetIf, s.target, key, ip.value, f.add) else !HasEntry(s.target, key, ip.value))
  }

  /** A turn strands a peer that was elsewhere exactly then; and it is never reported as moved. */
  lemma TurnStrandsExactlyWhen(c: Config, e: Ends, s: Sites, peer: PeerId, f: PeerFaults)
    requires Placed(c, s.db) && IsTable(s.target) && peer in s.db.peers && s.db.peers[peer].node != e.target
    requires IsValidKey(s.db.peers[peer].identifier)
    ensures var r := MigrateOne(c, e, s, peer, s.db.peers[peer].identifier, f);
            && (Stranded(e, r.sites, peer) <==> TurnStrands(c, e, s, peer, f))
            && (r.ok ==> !Stranded(e, r.sites, peer))
  {
    hide Placed;
    hide PickIp;
    hide AddResult;
    hide RemoveResult;
    hide HostRoute;
    hide TrimSpace;
    hide IpInUse;
    hide IsTable;
    hide EntryThere;
    var key := s.db.peers[peer].identifier;
    var ip := ClientIp(c, s.db, e.target, f.read);
    if ip.Some? {
      ClientIpIsAddress(c, s.db, e.target, f.read);
      EntryThereExactlyWhen(e.targetIf, s.target, key, ip.value, f.add);
      AddedEntry(e.targetIf, s.target, key, ip.value, f.add);
    }
    hide IsValidKey;
  }

  /** Another peer's guarded turn changes nothing about a peer. */
  lemma GuardedTurnSpares(c: Config, e: Ends, s: Sites, peer: PeerId, q: PeerId, f: PeerFaults)
    requires Placed(c, s.db) && IsTable(s.target) && peer in s.db.peers && q in s.db.peers && q != peer
    requires f.add.listOk
    ensures var r := MigrateOne(c, e, s, peer, s.db.peers[peer].identifier, f);
            && r.sites.db.peers.Keys == s.db.peers.Keys && r.sites.db.peers[q] == s.db.peers[q]
            && (Arrived(e, r.sites, q) <==> Arrived(e, s, q))
  {
    hide PickIp;
    hide IsNetwork;
    hide AddResult;
    hide RemoveResult;
    hide HostRoute;
    hide TrimSpace;
    hide IpInUse;
    hide IsTable;
    hide UniqueNodeKeys;
    hide UniqueSubnets;
    var key := s.db.peers[peer].identifier;
    var ip := ClientIp(c, s.db, e.target, f.read);
    if ip.Some? {
      ClientIpIsAddress(c, s.db, e.target, f.read);
      AdditionSpares(e.targetIf, s.target, ClientConfig(key, ip.value), f.add);
    }
  }

  /** Another peer's turn strands nobody, and a guarded one saves nobody. */
  lemma StrandedBefore(c: Config, e: Ends, s: Sites, h: map<NodeId, nat>, drawn: set<NodeId>, peer: PeerId, q: PeerId,
                       f: PeerFaults)
    requires Registry.TablesOk(c, s.db, h, drawn) && Placed(c, s.db) && IsTable(s.target)
    requires peer in s.db.peers && q in s.db.peers && q != peer && IsValidKey(s.db.peers[peer].identifier)
    ensures var r := MigrateOne(c, e, s, peer, s.db.peers[peer].identifier, f).sites;
            && (Stranded(e, r, q) ==> Stranded(e, s, q))
            && (f.add.listOk ==> (Stranded(e, r, q) <==> Stranded(e, s, q)))
  {
    hide Registry.TablesOk;
    hide Placed;
    hide MigrateOne;
    hide IsValidKey;
    hide StaysOrMoves;
    hide IsTable;
    hide Arrived;
    OneRow(c, e, s, h, drawn, peer, s.db.peers[peer].identifier, f);
    OneEntry(c, e, s, peer, f);
    if f.add.listOk {
      GuardedTurnSpares(c, e, s, peer, q, f);
    }
  }

  /** Before its turn a listed peer is where it was. */
  lemma NotYetMoved(c: Config, e: Ends, s: Sites, h: map<NodeId, nat>, drawn: set<NodeId>,
                    queue: seq<PeerId>, faults: seq<PeerFaults>, n: nat, p: PeerId)
    requires CanMigrate(c, e, s, h, drawn, queue) && n <= |queue| == |faults| && p in s.db.peers
    requires forall q :: q in queue ==> q in s.db.peers
    ensures var r := MigrateAll(c, e, s, queue, faults, n).sites.db;
            && p in r.peers && r.peers[p].identifier == s.db.peers[p].identifier
            && (p !in queue[..n] ==> r.peers[p] == s.db.peers[p])
  {
    AllRows(c, e, s, h, drawn, queue, faults, n);
    hide MigrateAll;
    hide StaysOrMoves;
    hide CanMigrate;
    hide Registry.TablesOk;
    SameIdentifier(c, e, s.db, MigrateAll(c, e, s, queue, faults, n).sites.db, queue[..n], p);
  }

  /** How a listed peer's turn finds the tables, and what it makes of them. */
  lemma TurnStarts(c: Config, e: Ends, s: Sites, h: map<NodeId, nat>, drawn: set<NodeId>,
                   queue: seq<PeerId>, faults: seq<PeerFaults>, n: nat)
    requires CanMigrate(c, e, s, h, drawn, queue) && n < |queue| == |faults| && IsTable(s.target)
    requires forall p :: p in queue ==> p in s.db.peers && s.db.peers[p].node == e.source
    ensures var before, peer := MigrateAll(c, e, s, queue, faults, n).sites, queue[n];
            && Registry.TablesOk(c, before.db, h, drawn) && Placed(c, before.db) && IsTable(before.target)
            && peer in before.db.peers && before.db.peers[peer].node != e.target
            && before.db.peers.Keys == s.db.peers.Keys
            && IsValidKey(before.db.peers[peer].identifier)
            && MigrateAll(c, e, s, queue, faults, n + 1).sites
               == MigrateOne(c, e, before, peer, before.db.peers[peer].identifier, faults[n]).sites
  {
    hide Registry.TablesOk;
    hide Placed;
    hide MigrateOne;
    hide IsValidKey;
    hide Conserves;
    hide IsTable;
    hide ListsActive;
    hide Arrived;
    AllRows(c, e, s, h, drawn, queue, faults, n);
    AllEntries(c, e, s, h, drawn, queue, faults, n);
    NotYetMoved(c, e, s, h, drawn, queue, faults, n, queue[n]);
    SameIdentifier(c, e, s.db, MigrateAll(c, e, s, queue, faults, n).sites.db, queue[..n], queue[n]);
    DistinctPeers(s.db, e.source, queue, n, n);
  }

  /** A listed peer that is stranded at the end was stranded by its own turn; and if the checks
      of the later turns work, whom its turn strands stays stranded. */
  lemma {:induction false} StrandedAtTheEnd(c: Config, e: Ends, s: Sites, h: map<NodeId, nat>, drawn: set<NodeId>,
                                            queue: seq<PeerId>, faults: seq<PeerFaults>, k: nat, n: nat)
    requires CanMigrate(c, e, s, h, drawn, queue) && k < n <= |queue| == |faults| && IsTable(s.target)
    requires forall p :: p in queue ==> p in s.db.peers && s.db.peers[p].node == e.source
    ensures var turn := MigrateAll(c, e, s, queue, faults, k).sites;
            var end := MigrateAll(c, e, s, queue, faults, n).sites;
            && queue[k] in turn.db.peers
            && (Stranded(e, end, queue[k]) ==> TurnStrands(c, e, turn, queue[k], faults[k]))
            && ((forall m :: k < m < n ==> faults[m].add.listOk) ==>
                  (Stranded(e, end, queue[k]) <==> TurnStrands(c, e, turn, queue[k], faults[k])))
  {
    hide Registry.TablesOk;
    hide Placed;
    hide MigrateOne;
    hide MigrateAll;
    hide IsValidKey;
    hide IsTable;
    hide Stranded;
    hide TurnStrands;
    hide ListsActive;
    TurnStarts(c, e, s, h, drawn, queue, faults, n - 1);
    var before, peer := MigrateAll(c, e, s, queue, faults, n - 1).sites, queue[n - 1];
    if k == n - 1 {
      TurnStrandsExactlyWhen(c, e, before, peer, faults[n - 1]);
    } else {
      StrandedAtTheEnd(c, e, s, h, drawn, queue, faults, k, n - 1);
      DistinctPeers(s.db, e.source, queue, k, n - 1);
      StrandedBefore(c, e, before, h, drawn, peer, queue[k], faults[n - 1]);
    }
  }

  lemma DistinctPeers(db: Db, node: NodeId, queue: seq<PeerId>, k: nat, n: nat)
    requires ListsActive(db, node, queue) && k <= n < |queue|
    ensures k < n ==> queue[k] != queue[n]
    ensures queue[n] !in queue[..n]
  {
  }

  // ---- the source's table ----

  /** Entries of the source's table: kept as they were, or removed with their moved peer. */
  predicate OnlyLoses(before: Table, after: Table, keys: set<string>) {
    && after.Keys <= before.Keys
    && (forall k :: k in before && k !in keys ==> k in after)
    && (forall k :: k in after ==> after[k] == before[k])
  }

  predicate RemovalsSucceed(f: PeerFaults) {
    f.sourceOk && !f.remove.command.Failed?
  }

  function KeysOf(db: Db, queue: seq<PeerId>): set<string>
    requires forall p :: p in queue ==> p in db.peers
  {
    set p | p in queue :: db.peers[p].identifier
  }

  lemma OneRemoved(c: Config, e: Ends, s: Sites, peer: PeerId, key: string, f: PeerFaults)
    requires Placed(c, s.db) && IsValidKey(key)
    ensures var r := MigrateOne(c, e, s, peer, key, f);
            && OnlyLoses(s.source, r.sites.source, {key})
            && (!r.ok ==> r.sites.source == s.source)
            && (r.ok && RemovalsSucceed(f) ==> key !in r.sites.source)
  {
    hide Placed;
    hide PickIp;
    hide IsValidKey;
    hide AddResult;
    hide MovePeer;
    hide HostRoute;
  }

  lemma LosesTwice(a: Table, b: Table, d: Table, xs: set<string>, ys: set<string>)
    requires OnlyLoses(a, b, xs) && OnlyLoses(b, d, ys)
    ensures OnlyLoses(a, d, xs + ys)
  {
  }

  /** The source's table loses at most the keys of listed peers, and all of them when no peer
      fails and every removal succeeds. */
  lemma {:induction false} SourceLosesMoved(c: Config, e: Ends, s: Sites, queue: seq<PeerId>, faults: seq<PeerFaults>, n: nat)
    requires Placed(c, s.db) && n <= |queue| == |faults| && forall p :: p in queue ==> p in s.db.peers
    requires forall p :: p in queue ==> IsValidKey(s.db.peers[p].identifier)
    ensures var r := MigrateAll(c, e, s, queue, faults, n);
            && OnlyLoses(s.source, r.sites.source, KeysOf(s.db, queue[..n]))
            && (r.ok && (forall k :: 0 <= k < n ==> RemovalsSucceed(faults[k])) ==>
                  KeysOf(s.db, queue[..n]) !! r.sites.source.Keys)
  {
    hide Placed;
    hide MigrateOne;
    hide IsValidKey;
    if n > 0 {
      SourceLosesMoved(c, e, s, queue, faults, n - 1);
      var before, peer := MigrateAll(c, e, s, queue, faults, n - 1), queue[n - 1];
      var key := s.db.peers[peer].identifier;
      OneRemoved(c, e, before.sites, peer, key, faults[n - 1]);
      var r := MigrateAll(c, e, s, queue, faults, n);
      assert queue[..n] == queue[..n - 1] + [peer];
      assert KeysOf(s.db, queue[..n]) == KeysOf(s.db, queue[..n - 1]) + {key};
      LosesTwice(s.source, before.sites.source, r.sites.source, KeysOf(s.db, queue[..n - 1]), {key});
    }
  }

  // ---- the loop ----

  /** The faults of the first n turns. */
  function FirstFaults(n: nat, faults: nat -> PeerFaults): (fs: seq<PeerFaults>)
    ensures |fs| == n && forall k :: 0 <= k < n ==> fs[k] == faults(k)
  {
    seq(n, k requires 0 <= k < n => faults(k))
  }

  class RotationService {
    const store: Store
    const source: Node
    const target: Node

    constructor (store: Store, source: Node, target: Node)
      requires source != target
      ensures this.store == store && this.source == source && this.target == target
    {
      this.store := store;
      this.source := source;
      this.target := target;
    }

    function Between(from: NodeId, to: NodeId): Ends {
      Ends(from, to, source.iface, target.iface)
    }

    function State(): Sites
      reads store, source, target
    {
      Sites(store.db, source.table, target.table)
    }

    /** `migrateSinglePeer`. */
    method MigrateSinglePeer(peer: PeerId, key: string, from: NodeId, to: NodeId, f: PeerFaults) returns (ok: bool)
      requires source != target && source.Valid() && target.Valid() && Placed(store.config, store.db)
      requires |key| >= 8
      modifies store, source, target
      ensures source.Valid() && target.Valid()
      ensures Moved(State(), ok) == MigrateOne(store.config, Between(from, to), old(State()), peer, key, f)
    {
      hide Placed;
      hide PickIp;
      hide IsValidKey;
      hide AddResult;
      hide RemoveResult;
      hide HostRoute;
      hide MovePeer;
      var ip := store.AllocateClientIP(to, f.read);
      if ip.None? {
        return false;
      }
      ClientIpIsAddress(store.config, store.db, to, f.read);
      var moved := store.MigratePeer(peer, to, ip.value, f.move);
      if !moved {
        return false;
      }
      if !f.targetOk {
        return false;
      }
      var added := target.AddPeer(ClientConfig(key, ip.value), f.add);
      if !added {
        return false;
      }
      if f.sourceOk {
        var removed := source.RemovePeer(key, f.remove);
      }
      ok := true;
    }

    /** `GetActiveByNode`, in no particular order. */
    method ListActive(node: NodeId) returns (queue: seq<PeerId>)
      ensures ListsActive(store.db, node, queue)
    {
      queue := [];
      var rest := Registry.ActiveOn(store.db, node);
      while rest != {}
        invariant (set p | p in queue) + rest == Registry.ActiveOn(store.db, node)
        invariant forall p :: p in queue ==> p !in rest
        invariant forall j, k :: 0 <= j < k < |queue| ==> queue[j] != queue[k]
        decreases rest
      {
        var p :| p in rest;
        ghost var before := queue;
        queue, rest := queue + [p], rest - {p};
        assert (set q | q in queue) == (set q | q in before) + {p};
      }
    }

    /** `MigratePeersFromNode`: no listing, no migration; nothing to move, no error; no capacity
        on the target, no migration; otherwise the loop, which collects errors and goes on. */
    method MigratePeersFromNode(from: NodeId, to: NodeId, listOk: bool, capacityOk: bool, faults: nat -> PeerFaults)
      returns (ok: bool, ghost queue: seq<PeerId>)
      requires source != target && source.Valid() && target.Valid() && Placed(store.config, store.db)
      requires forall p :: p in Registry.ActiveOn(store.db, from) ==> |store.db.peers[p].identifier| >= 8
      modifies store, source, target
      ensures source.Valid() && target.Valid()
      ensures ListsActive(old(store.db), from, queue) && forall p :: p in queue ==> p in old(store.db.peers)
      ensures !listOk ==> !ok && State() == old(State())
      ensures listOk && queue == [] ==> ok && State() == old(State())
      ensures listOk && queue != [] && !(CanAccept(old(store.db), to) && capacityOk) ==> !ok && State() == old(State())
      ensures listOk && queue != [] && CanAccept(old(store.db), to) && capacityOk ==>
                Moved(State(), ok) == MigrateAll(store.config, Between(from, to), old(State()), queue,
                                                 FirstFaults(|queue|, faults), |queue|)
    {
      hide Placed;
      hide IsValidKey;
      hide MigrateOne;
      hide IsTable;
      hide ListsActive;
      var active := ListActive(from);
      queue := active;
      ListedArePeers(store.db, from, active);
      if !listOk {
        return false, queue;
      }
      if |active| == 0 {
        return true, queue;
      }
      if !CanAccept(store.db, to) || !capacityOk {
        return false, queue;
      }
      var listed := store.db.peers;
      var errors := 0;
      ghost var oneEach := FirstFaults(|active|, faults);
      for n := 0 to |active|
        invariant source.Valid() && target.Valid() && errors >= 0
        invariant Moved(State(), errors == 0)
                  == MigrateAll(store.config, Between(from, to), old(State()), active, oneEach, n)
      {
        var migrated := MigrateSinglePeer(active[n], listed[active[n]].identifier, from, to, faults(n));
        if !migrated {
          errors := errors + 1;
        }
      }
      ok := errors == 0;
    }
  }
}
