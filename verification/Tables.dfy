/** db/schema.sql: the three tables and the statements that change them. A statement that
    would break a PRIMARY KEY, UNIQUE or FOREIGN KEY rule fails and changes nothing. */
module Tables {
  import opened Text

  type NodeId = string
  type PeerId = string

  datatype NodeStatus = Provisioning | Active | Unhealthy | Destroying

  datatype PeerStatus = PeerActive | PeerDisconnected | PeerRemoving

  datatype NodeRow = NodeRow(status: NodeStatus, serverId: string, publicKey: string)

  /** `ip` is the 32-bit value of the stored address text. All peers are WireGuard peers, so
      UNIQUE (protocol, identifier) is uniqueness of the identifier. */
  datatype PeerRow = PeerRow(node: NodeId, identifier: string, ip: nat, status: PeerStatus)

  /** `subnets` holds, for a node, the network address of its CIDR. */
  datatype Db = Db(nodes: map<NodeId, NodeRow>, subnets: map<NodeId, nat>, peers: map<PeerId, PeerRow>)

  // ---- queries ----

  predicate IpInUse(db: Db, ip: nat) {
    exists p :: p in db.peers && db.peers[p].ip == ip
  }

  predicate IdentifierInUse(db: Db, identifier: string) {
    exists p :: p in db.peers && db.peers[p].identifier == identifier
  }

  function PeersOn(db: Db, node: NodeId): set<PeerId> {
    set p | p in db.peers && db.peers[p].node == node
  }

  /** GetAllocatedIPsByNode. */
  function IpsOn(db: Db, node: NodeId): set<nat> {
    set p | p in db.peers && db.peers[p].node == node :: db.peers[p].ip
  }

  /** GetUsedSubnetCIDRs. */
  function UsedNetworks(db: Db): set<nat> {
    set n | n in db.subnets :: db.subnets[n]
  }

  // ---- statements ----

  predicate KeyTaken(db: Db, id: NodeId, publicKey: string) {
    exists n :: n in db.nodes && n != id && db.nodes[n].publicKey == publicKey
  }

  function InsertNode(db: Db, id: NodeId, row: NodeRow): Option<Db> {
    if id in db.nodes || KeyTaken(db, id, row.publicKey) then None
    else Some(db.(nodes := db.nodes[id := row]))
  }

  /** UPDATE ... WHERE id = ?: no row, no change, no error. */
  function UpdateNode(db: Db, id: NodeId, row: NodeRow): Option<Db> {
    if id !in db.nodes then Some(db)
    else if KeyTaken(db, id, row.publicKey) then None
    else Some(db.(nodes := db.nodes[id := row]))
  }

  /** ON DELETE CASCADE removes the node's subnet and peers. */
  function DeleteNode(db: Db, id: NodeId): Db {
    Db(db.nodes - {id}, db.subnets - {id}, db.peers - PeersOn(db, id))
  }

  function InsertSubnet(db: Db, id: NodeId, network: nat): Option<Db> {
    if id in db.subnets || network in UsedNetworks(db) || id !in db.nodes then None
    else Some(db.(subnets := db.subnets[id := network]))
  }

  function DeleteSubnet(db: Db, id: NodeId): Db {
    db.(subnets := db.subnets - {id})
  }

  function InsertPeer(db: Db, id: PeerId, row: PeerRow): Option<Db> {
    if id in db.peers || IpInUse(db, row.ip) || IdentifierInUse(db, row.identifier) || row.node !in db.nodes
    then None
    else Some(db.(peers := db.peers[id := row]))
  }

  function UpdatePeerNode(db: Db, id: PeerId, node: NodeId, ip: nat): Option<Db> {
    if id !in db.peers then Some(db)
    else if node !in db.nodes || (exists q :: q in db.peers && q != id && db.peers[q].ip == ip) then None
    else Some(db.(peers := db.peers[id := db.peers[id].(node := node, ip := ip)]))
  }

  function UpdatePeerStatus(db: Db, id: PeerId, status: PeerStatus): Db {
    if id !in db.peers then db
    else db.(peers := db.peers[id := db.peers[id].(status := status)])
  }

  function DeletePeer(db: Db, id: PeerId): Db {
    db.(peers := db.peers - {id})
  }

  // ---- what the constraints keep ----

  predicate UniquePeers(peers: map<PeerId, PeerRow>) {
    forall p, q :: p in peers && q in peers && p != q ==>
      peers[p].ip != peers[q].ip && peers[p].identifier != peers[q].identifier
  }

  predicate UniqueSubnets(subnets: map<NodeId, nat>) {
    forall m, n :: m in subnets && n in subnets && m != n ==> subnets[m] != subnets[n]
  }

  predicate UniqueNodeKeys(nodes: map<NodeId, NodeRow>) {
    forall m, n :: m in nodes && n in nodes && m != n ==> nodes[m].publicKey != nodes[n].publicKey
  }

  /** Every peer and every subnet row belongs to a node row. */
  predicate Owned(db: Db) {
    && (forall p :: p in db.peers ==> db.peers[p].node in db.nodes)
    && (forall n :: n in db.subnets ==> n in db.nodes)
  }

  predicate Consistent(db: Db) {
    UniquePeers(db.peers) && UniqueSubnets(db.subnets) && UniqueNodeKeys(db.nodes) && Owned(db)
  }

  const EMPTY := Db(map[], map[], map[])
}
