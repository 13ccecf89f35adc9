/** internal/rotator/services/peer_connection_service.go: one disconnection run alone, and what
    an entry does that stays on a node after its peer row is gone. */
module Disconnection {
  import opened Network
  import opened Allocator
  import opened Placement
  import opened Tables
  import opened Text
  import opened WireGuard
  import opened WireGuardNode
  import opened Services
  import opened Connections
  import Agreement
  import Registry

  datatype DisconnectFaults = DisconnectFaults(getOk: bool, nodeOk: bool, entry: RemoveFaults, row: RemovalFaults)

  /** `DisconnectPeer`, over the table of the peer's node: the entry is removed as far as it
      goes, then the row. */
  function Disconnect(i: Interface, s: Site, peer: PeerId, f: DisconnectFaults): Connection {
    if peer == "" || !f.getOk || peer !in s.db.peers then Connection(s, false)
    else
      var table := if f.nodeOk then RemoveResult(i, s.table, s.db.peers[peer].identifier, f.entry).table else s.table;
      var removed := RemovePeerRow(s.db, peer, f.row);
      Connection(Site(removed.db, table), removed.ok)
  }

  predicate RowGoes(f: DisconnectFaults) {
    f.getOk && f.row.getOk && f.row.deleteOk
  }

  predicate EntryGoes(f: DisconnectFaults) {
    f.getOk && f.nodeOk && !f.entry.command.Failed?
  }

  // ---- connecting and disconnecting ----

  /** Disconnecting a peer that has just connected restores tables and node exactly when the row
      is deleted and either the entry is removed and had taken nothing from anybody, or it was
      there before; success only says that the row is deleted. */
  lemma DisconnectUndoesConnectExactlyWhen(c: Config, i: Interface, s: Site, h: map<NodeId, nat>, drawn: set<NodeId>,
                                           node: NodeId, key: string, peer: PeerId, f: ConnectFaults, g: DisconnectFaults)
    requires CanConnect(c, s, h, drawn, peer) && Connect(c, i, s, node, key, peer, f).ok
    ensures var ip := AddressFor(c, s.db, node, f);
            var d := Disconnect(i, Connect(c, i, s, node, key, peer, f).site, peer, g);
            && (d.ok <==> RowGoes(g))
            && (d.site == s <==> RowGoes(g) && (if EntryGoes(g) then !Held(s.table, key, ip) else HasEntry(s.table, key, ip)))
            && (f.add.listOk ==> !Held(s.table, key, ip) && !HasEntry(s.table, key, ip))
  {
    hide Registry.TablesOk;
    hide Placed;
    hide IsTable;
    hide IsValidKey;
    hide HostRoute;
    hide PickIp;
    hide IpInUse;
    hide IdentifierInUse;
    hide Conflicts;
    hide Held;
    hide WgSet;
    var ip := AddressFor(c, s.db, node, f);
    ClientConfigIsValid(key, ip);
    ConflictWhenHeld(i, s.table, key, ip);
    SetAgain(s.table, key, ip);
    SetAndRemoved(s.table, key, ip);
    SetTakesOneAddress(s.table, key, ip);
    RowTakenBack(s.db, peer, PeerRow(node, key, ip, PeerActive), f.create, g.row);
  }

  // ---- an entry without a row ----

  /** No address for the node's next client: its range is full, or the lowest free address is
      held by a peer row elsewhere or by an entry on the node. */
  predicate Blocked(c: Config, i: Interface, s: Site, node: NodeId)
    requires Placed(c, s.db)
  {
    var ip := ClientIp(c, s.db, node, ALL_READS);
    ip.None? || IpInUse(s.db, ip.value)
    || (ClientIpIsAddress(c, s.db, node, ALL_READS);
        HostRoute(ip.value) == i.fwmark || exists k :: k in s.table && HostRoute(ip.value) in s.table[k].ips)
  }

  /** How an attempt goes in which nothing fails. */
  const ALL_WELL := ConnectFaults(true, true, ALL_READS, CreateFaults(true, true, true), NO_FAULTS,
                                  RemovalFaults(true, true, true))

  /** A new key connects to an active node, when nothing fails, exactly if the node is not
      blocked. */
  lemma NewKeyConnectsExactlyWhen(c: Config, i: Interface, s: Site, node: NodeId, key: string, peer: PeerId)
    requires Placed(c, s.db) && CanAccept(s.db, node) && TrimSpace(node) != ""
    requires IsValidKey(key) && !IdentifierInUse(s.db, key) && key !in s.table && key != i.key && peer !in s.db.peers
    ensures Connect(c, i, s, node, key, peer, ALL_WELL).ok <==> !Blocked(c, i, s, node)
  {
    hide Placed;
    hide IsValidKey;
    hide HostRoute;
    hide PickIp;
    hide TrimSpace;
    hide Connect;
    ConnectsExactlyWhen(c, i, s, node, key, peer, ALL_WELL);
  }

  /** A guarded attempt on a blocked node fails and, once compensated, changes nothing: the node
      is as blocked as before, for whoever tries next. */
  lemma BlockedStaysBlocked(c: Config, i: Interface, s: Site, h: map<NodeId, nat>, drawn: set<NodeId>,
                            node: NodeId, key: string, peer: PeerId, f: ConnectFaults)
    requires CanConnect(c, s, h, drawn, peer) && Blocked(c, i, s, node) && f.add.listOk && Compensated(f)
    ensures var r := Connect(c, i, s, node, key, peer, f); !r.ok && r.site == s
  {
    hide Registry.TablesOk;
    hide Placed;
    hide IsTable;
    hide IsValidKey;
    hide HostRoute;
    hide PickIp;
    hide IpInUse;
    hide IdentifierInUse;
    hide Conflicts;
    hide TrimSpace;
    hide WgSet;
    if ReachesNode(c, s.db, node, key, peer, f) {
      var ip := AddressFor(c, s.db, node, f);
      ConflictsExactlyWhen(i, s.table, key, ip);
      RowTakenBack(s.db, peer, PeerRow(node, key, ip, PeerActive), f.create, f.remove);
    }
  }

  /** The peer's address lies below every other free one. */
  predicate FreesLowest(c: Config, db: Db, peer: PeerId)
    requires peer in db.peers
  {
    var ip := ClientIp(c, db, db.peers[peer].node, ALL_READS);
    ip.None? || db.peers[peer].ip < ip.value
  }

  lemma {:induction false} FirstFreeWithout(lo: nat, hi: int, taken: set<nat>, a: nat)
    requires lo <= a <= hi && a in taken
    ensures var r := FirstFree(lo, hi, taken);
            FirstFree(lo, hi, taken - {a}) == if r.None? || a < r.value then Some(a) else r
    decreases hi - lo
  {
    if lo < a && lo in taken {
      FirstFreeWithout(lo + 1, hi, taken, a);
    }
  }

  lemma IpsAfterDeletion(db: Db, peer: PeerId)
    requires UniquePeers(db.peers) && peer in db.peers
    ensures var row := db.peers[peer];
            row.ip in IpsOn(db, row.node) && IpsOn(DeletePeer(db, peer), row.node) == IpsOn(db, row.node) - {row.ip}
  {
    var row, after := db.peers[peer], DeletePeer(db, peer);
    forall ip | ip in IpsOn(db, row.node) && ip != row.ip ensures ip in IpsOn(after, row.node) {
      var p :| p in db.peers && db.peers[p].node == row.node && db.peers[p].ip == ip;
      assert p in after.peers;
    }
    forall ip | ip in IpsOn(after, row.node) ensures ip in IpsOn(db, row.node) && ip != row.ip {
      var p :| p in after.peers && after.peers[p].node == row.node && after.peers[p].ip == ip;
      assert db.peers[p].ip != row.ip;
    }
  }

  lemma PickAfterDeletion(c: Config, db: Db, h: map<NodeId, nat>, drawn: set<NodeId>, peer: PeerId)
    requires Registry.TablesOk(c, db, h, drawn) && peer in db.peers
    requires db.peers[peer].node in db.subnets && ValidNodeId(db.peers[peer].node)
    ensures var row := db.peers[peer];
            ClientIp(c, DeletePeer(db, peer), row.node, ALL_READS)
            == if FreesLowest(c, db, peer) then Some(row.ip) else ClientIp(c, db, row.node, ALL_READS)
  {
    var row := db.peers[peer];
    Agreement.HeldInRange(c, db, h, drawn, peer);
    IpsAfterDeletion(db, peer);
    hide Registry.TablesOk;
    hide IpsOn;
    hide ValidNodeId;
    hide FirstFree;
    FirstFreeWithout(RangeStart(db.subnets[row.node]), RangeEnd(db.subnets[row.node], c.subnetMask),
                     IpsOn(db, row.node), row.ip);
  }

  lemma DeletionFrees(c: Config, db: Db, peer: PeerId)
    requires Placed(c, db) && peer in db.peers
    ensures Placed(c, DeletePeer(db, peer)) && !IpInUse(DeletePeer(db, peer), db.peers[peer].ip)
    ensures forall ip :: ip != db.peers[peer].ip ==> (IpInUse(DeletePeer(db, peer), ip) <==> IpInUse(db, ip))
  {
    hide IsNetwork;
    var after := DeletePeer(db, peer);
    forall ip | ip != db.peers[peer].ip && IpInUse(db, ip) ensures IpInUse(after, ip) {
      var q :| q in db.peers && db.peers[q].ip == ip;
      assert q in after.peers;
    }
  }

  /** A row deleted while the entry stays, as a cleanup of inactive peers always does it and a
      disconnection does it when the node does not answer, blocks the node exactly when the
      address is the lowest free one then, or the node was blocked already. */
  lemma LeftEntryBlocksExactlyWhen(c: Config, i: Interface, s: Site, h: map<NodeId, nat>, drawn: set<NodeId>, peer: PeerId)
    requires Registry.TablesOk(c, s.db, h, drawn) && Placed(c, s.db) && peer in s.db.peers
    requires var row := s.db.peers[peer];
             row.node in s.db.subnets && ValidNodeId(row.node) && HasEntry(s.table, row.identifier, row.ip)
    ensures var after := Site(DeletePeer(s.db, peer), s.table);
            && Placed(c, after.db)
            && (Blocked(c, i, after, s.db.peers[peer].node)
                <==> FreesLowest(c, s.db, peer) || Blocked(c, i, s, s.db.peers[peer].node))
  {
    PickAfterDeletion(c, s.db, h, drawn, peer);
    DeletionFrees(c, s.db, peer);
    hide Registry.TablesOk;
    hide Placed;
    hide ClientIp;
    hide IpInUse;
    hide DeletePeer;
    hide HostRoute;
    hide ValidNodeId;
    PickIsNotHeld(c, s.db, peer);
    var row := s.db.peers[peer];
    assert row.identifier in s.table && HostRoute(row.ip) in s.table[row.identifier].ips;
  }

  /** The search never finds an address of the node's own peers. */
  lemma PickIsNotHeld(c: Config, db: Db, peer: PeerId)
    requires peer in db.peers
    ensures ClientIp(c, db, db.peers[peer].node, ALL_READS) != Some(db.peers[peer].ip)
  {
    assert db.peers[peer].ip in IpsOn(db, db.peers[peer].node);
  }

  /** Reported as disconnected, and nobody can connect: when a client that has just connected
      loses its row and not its entry, its node is blocked, whatever the client's address. */
  lemma DroppedClientBlocksNode(c: Config, i: Interface, s: Site, h: map<NodeId, nat>, drawn: set<NodeId>,
                                node: NodeId, key: string, peer: PeerId, f: ConnectFaults, g: DisconnectFaults)
    requires CanConnect(c, s, h, drawn, peer) && Connect(c, i, s, node, key, peer, f).ok
    requires RowGoes(g) && !EntryGoes(g)
    ensures var d := Disconnect(i, Connect(c, i, s, node, key, peer, f).site, peer, g);
            d.ok && d.site.db == s.db && Blocked(c, i, d.site, node)
  {
    hide Registry.TablesOk;
    hide Placed;
    hide IsTable;
    hide IsValidKey;
    hide HostRoute;
    hide PickIp;
    hide IpInUse;
    hide IdentifierInUse;
    hide Conflicts;
    hide WgSet;
    var ip := AddressFor(c, s.db, node, f);
    ClientConfigIsValid(key, ip);
    SetTakesOneAddress(s.table, key, ip);
    RowTakenBack(s.db, peer, PeerRow(node, key, ip, PeerActive), f.create, g.row);
    var d := Disconnect(i, Connect(c, i, s, node, key, peer, f).site, peer, g);
    assert key in d.site.table && HostRoute(ip) in d.site.table[key].ips;
  }

  class DisconnectionService {
    const store: Store
    /** The peer's node. */
    const node: Node

    constructor (store: Store, node: Node)
      ensures this.store == store && this.node == node
    {
      this.store := store;
      this.node := node;
    }

    method DisconnectPeer(peer: PeerId, f: DisconnectFaults) returns (ok: bool)
      requires node.Valid() && (peer in store.db.peers ==> |store.db.peers[peer].identifier| >= 8)
      modifies store, node
      ensures node.Valid() && CleanExtension(old(node.trace), node.trace)
      ensures Connection(Site(store.db, node.table), ok)
              == Disconnect(node.iface, old(Site(store.db, node.table)), peer, f)
    {
      hide IsValidKey;
      hide RemoveResult;
      hide CleanExtension;
      node.Untouched();
      if peer == "" || !f.getOk || peer !in store.db.peers {
        return false;
      }
      if f.nodeOk {
        var removed := node.RemovePeer(store.db.peers[peer].identifier, f.entry);
      }
      ok := store.RemovePeer(peer, f.row);
    }
  }
}
