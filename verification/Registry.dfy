/** The registry as a step system: any number of connection workers, migrations, removals,
    provisionings, destructions and subnet releases, interleaved one database statement at a
    time. What a task read earlier may be stale when it writes. */
module Registry {
  import opened Bits
  import opened Network
  import opened Placement
  import opened Tables
  import opened Text

  // ---- tasks ----

  /** A peer as a migration has listed it. */
  datatype Listed = Listed(peer: PeerId, key: string)

  /** A task between two statements, with the local variables it still needs. */
  datatype Task =
    // processConnectionRequest
    | ConnectSelect(key: string)
    | ConnectSubnet(key: string, node: NodeId)
    | ConnectPick(key: string, node: NodeId, network: nat)
    | ConnectCheckKey(key: string, node: NodeId, ip: nat)
    | ConnectCheckIp(key: string, node: NodeId, ip: nat)
    | ConnectInsert(key: string, node: NodeId, ip: nat)
    | ConnectConfigure(peer: PeerId, node: NodeId, key: string, ip: nat)
    // peer Remove, also the compensation of a failed configuration
    | RemoveGet(peer: PeerId)
    | RemoveMark(peer: PeerId)
    | RemoveDelete(peer: PeerId)
    // MigratePeersFromNode: `queue` are the source peers still to move
    | MigrateList(source: NodeId, target: NodeId)
    | MigrateSubnet(queue: seq<Listed>, target: NodeId)
    | MigratePick(queue: seq<Listed>, target: NodeId, network: nat)
    | MigrateGet(queue: seq<Listed>, target: NodeId, ip: nat)
    | MigrateCheckIp(queue: seq<Listed>, target: NodeId, ip: nat)
    | MigrateRecheck(queue: seq<Listed>, target: NodeId, ip: nat)
    | MigrateUpdate(queue: seq<Listed>, target: NodeId, ip: nat)
    | MigrateConfigure(queue: seq<Listed>, target: NodeId, ip: nat)
    // provisionNode
    | ProvisionCreate(id: NodeId)
    | ProvisionLookup(id: NodeId)
    | ProvisionUsed(id: NodeId)
    | ProvisionInsert(id: NodeId, network: nat)
    | ProvisionCloud(id: NodeId)
    | ProvisionDetails(id: NodeId)
    | ProvisionReady(id: NodeId)
    | ProvisionActivate(id: NodeId)
    // a health check or a status change writing a node row it read earlier
    | WriteNode(id: NodeId)
    // destroyNode
    | DestroyGet(id: NodeId)
    | DestroyMark(id: NodeId)
    // ReleaseNodeSubnet, alone or on the way to deleting the row (destroy and rollback)
    | ReleaseExists(id: NodeId, thenRow: bool)
    | ReleaseDelete(id: NodeId, thenRow: bool)
    | DeleteRow(id: NodeId)

  /** `history` remembers the network each node was given, `drawn` the node identifiers
      handed out; both only grow and no step reads `history`. */
  datatype System = System(db: Db, tasks: map<nat, Task>, history: map<NodeId, nat>, drawn: set<NodeId>)

  const START := System(EMPTY, map[], map[], {})

  /** Everything a step cannot decide itself. `ok` is false when its statement or remote call
      fails; `name` is the node selected or the identifier generated, `order` the order in
      which a query lists peers, `row` the node row written. */
  datatype Choice = Choice(ok: bool, name: string, order: seq<PeerId>, row: NodeRow)

  /** A restart loses every running task and keeps the tables. */
  datatype Event =
    | Spawn(slot: nat, task: Task)
    | Advance(slot: nat, choice: Choice)
    | Restart

  /** Requests and schedulers may start a task at any time. Node identifiers come from a
      nanosecond clock and are never drawn twice. */
  predicate CanSpawn(s: System, t: Task) {
    match t
    case ConnectSelect(_) => true
    case RemoveGet(_) => true
    case MigrateList(_, _) => true
    case ProvisionCreate(id) => id !in s.drawn
    case WriteNode(_) => true
    case DestroyGet(_) => true
    case ReleaseExists(_, thenRow) => !thenRow
    case _ => false
  }

  /** What a step does: the new tables, and what remains to be done. */
  datatype Outcome = Outcome(db: Db, next: Option<Task>)

  function Done(db: Db): Outcome {
    Outcome(db, None)
  }

  function Continue(db: Db, t: Task): Outcome {
    Outcome(db, Some(t))
  }

  /** `processConnectionRequest`, `AllocateClientIP` and `Create`, statement by statement. */
  function ConnectStep(c: Config, db: Db, t: Task, ch: Choice): Outcome {
    match t
    case ConnectSelect(key) =>
      if ch.ok && ch.name in db.nodes && db.nodes[ch.name].status == Active
      then Continue(db, ConnectSubnet(key, ch.name)) else Done(db)
    case ConnectSubnet(key, node) =>
      if ch.ok && node in db.subnets then Continue(db, ConnectPick(key, node, db.subnets[node])) else Done(db)
    case ConnectPick(key, node, network) =>
      var ip := PickIp(c, network, IpsOn(db, node));
      if ch.ok && ip.Some? then Continue(db, ConnectCheckKey(key, node, ip.value)) else Done(db)
    case ConnectCheckKey(key, node, ip) =>
      if ch.ok && !IdentifierInUse(db, key) then Continue(db, ConnectCheckIp(key, node, ip)) else Done(db)
    case ConnectCheckIp(key, node, ip) =>
      if ch.ok && !IpInUse(db, ip) then Continue(db, ConnectInsert(key, node, ip)) else Done(db)
    case ConnectInsert(key, node, ip) =>
      var r := InsertPeer(db, ch.name, PeerRow(node, key, ip, PeerActive));
      if ch.ok && r.Some? then Continue(r.value, ConnectConfigure(ch.name, node, key, ip)) else Done(db)
    case ConnectConfigure(peer, _, _, _) =>
      if ch.ok then Done(db) else Continue(db, RemoveGet(peer))
    case _ => Done(db)
  }

  /** `Remove`: marking is best effort, deleting a missing row is no error. */
  function RemoveStep(db: Db, t: Task, ch: Choice): Outcome {
    match t
    case RemoveGet(peer) =>
      if ch.ok && peer in db.peers then Continue(db, RemoveMark(peer)) else Done(db)
    case RemoveMark(peer) =>
      Continue(if ch.ok then UpdatePeerStatus(db, peer, PeerRemoving) else db, RemoveDelete(peer))
    case RemoveDelete(peer) =>
      Done(if ch.ok then DeletePeer(db, peer) else db)
    case _ => Done(db)
  }

  function ActiveOn(db: Db, node: NodeId): set<PeerId> {
    set p | p in db.peers && db.peers[p].node == node && db.peers[p].status == PeerActive
  }

  lemma ListedExist(db: Db, node: NodeId, order: seq<PeerId>)
    requires (set p | p in order) == ActiveOn(db, node)
    ensures forall p :: p in order ==> p in db.peers
  {
    forall p | p in order ensures p in ActiveOn(db, node) {
      assert p in set q | q in order;
    }
  }

  /** The listed rows, of which the identifiers are kept. */
  function Listing(db: Db, order: seq<PeerId>): (queue: seq<Listed>)
    requires forall p :: p in order ==> p in db.peers
    ensures |queue| == |order| && forall i :: 0 <= i < |order| ==> queue[i] == Listed(order[i], db.peers[order[i]].identifier)
  {
    seq(|order|, i requires 0 <= i < |order| => Listed(order[i], db.peers[order[i]].identifier))
  }

  /** `MigratePeersFromNode`, `AllocateClientIP` and `Migrate`; a failure goes on with the
      next peer. */
  function MigrateStep(c: Config, db: Db, t: Task, ch: Choice): Outcome {
    match t
    case MigrateList(source, target) =>
      if ch.ok && (set p | p in ch.order) == ActiveOn(db, source) then
        ListedExist(db, source, ch.order);
        Continue(db, MigrateSubnet(Listing(db, ch.order), target))
      else Done(db)
    case MigrateSubnet(queue, target) =>
      if queue == [] then Done(db)
      else if ch.ok && target in db.subnets then Continue(db, MigratePick(queue, target, db.subnets[target]))
      else Continue(db, MigrateSubnet(queue[1..], target))
    case MigratePick(queue, target, network) =>
      var ip := PickIp(c, network, IpsOn(db, target));
      if ch.ok && ip.Some? then Continue(db, MigrateGet(queue, target, ip.value))
      else NextPeer(db, queue, target)
    case MigrateGet(queue, target, ip) =>
      if queue != [] && ch.ok && queue[0].peer in db.peers then Continue(db, MigrateCheckIp(queue, target, ip))
      else NextPeer(db, queue, target)
    case MigrateCheckIp(queue, target, ip) =>
      if !ch.ok then NextPeer(db, queue, target)
      else if IpInUse(db, ip) then Continue(db, MigrateRecheck(queue, target, ip))
      else Continue(db, MigrateUpdate(queue, target, ip))
    case MigrateRecheck(queue, target, ip) =>
      // rejected only when the peer can be read and holds another address
      if queue != [] && ch.ok && queue[0].peer in db.peers && db.peers[queue[0].peer].ip != ip then NextPeer(db, queue, target)
      else Continue(db, MigrateUpdate(queue, target, ip))
    case MigrateUpdate(queue, target, ip) =>
      var r := if queue == [] then None else UpdatePeerNode(db, queue[0].peer, target, ip);
      if ch.ok && r.Some? then Continue(r.value, MigrateConfigure(queue, target, ip))
      else NextPeer(db, queue, target)
    case MigrateConfigure(queue, target, _) => NextPeer(db, queue, target)
    case _ => Done(db)
  }

  function NextPeer(db: Db, queue: seq<Listed>, target: NodeId): Outcome {
    if queue == [] then Done(db) else Continue(db, MigrateSubnet(queue[1..], target))
  }

  /** `provisionNode` with `AllocateNodeSubnet`, and the entry into its rollback. */
  function ProvisionStep(c: Config, db: Db, t: Task, ch: Choice): Outcome {
    match t
    case ProvisionCreate(id) =>
      var r := InsertNode(db, id, NodeRow(Provisioning, "", id));
      if ch.ok && r.Some? then Continue(r.value, ProvisionLookup(id)) else Done(db)
    case ProvisionLookup(id) =>
      if ch.ok && id in db.subnets then Continue(db, ProvisionCloud(id)) else Continue(db, ProvisionUsed(id))
    case ProvisionUsed(id) =>
      var network := PickNetwork(c, UsedNetworks(db));
      if ch.ok && network.Some? then Continue(db, ProvisionInsert(id, network.value)) else Continue(db, DeleteRow(id))
    case ProvisionInsert(id, network) =>
      var r := InsertSubnet(db, id, network);
      if ch.ok && r.Some? then Continue(r.value, ProvisionCloud(id)) else Continue(db, DeleteRow(id))
    case ProvisionCloud(id) =>
      Continue(db, if ch.ok then ProvisionDetails(id) else ReleaseExists(id, true))
    case ProvisionDetails(id) =>
      var r := UpdateNode(db, id, ch.row.(status := Provisioning));
      if ch.ok && r.Some? then Continue(r.value, ProvisionReady(id)) else Continue(db, ReleaseExists(id, true))
    case ProvisionReady(id) =>
      Continue(db, if ch.ok then ProvisionActivate(id) else ReleaseExists(id, true))
    case ProvisionActivate(id) =>
      var r := UpdateNode(db, id, ch.row.(status := Active));
      if ch.ok && r.Some? then Done(r.value) else Continue(db, ReleaseExists(id, true))
    case _ => Done(db)
  }

  /** Status writes, `destroyNode`, `ReleaseNodeSubnet` and the end of a rollback. */
  function DestroyStep(db: Db, t: Task, ch: Choice): Outcome {
    match t
    case WriteNode(id) =>
      var r := UpdateNode(db, id, ch.row);
      if ch.ok && r.Some? then Done(r.value) else Done(db)
    case DestroyGet(id) =>
      if ch.ok && id in db.nodes then Continue(db, DestroyMark(id)) else Done(db)
    case DestroyMark(id) =>
      var r := UpdateNode(db, id, ch.row.(status := Destroying));
      if ch.ok && r.Some? then Continue(r.value, ReleaseExists(id, true)) else Done(db)
    case ReleaseExists(id, thenRow) =>
      if ch.ok && id in db.subnets then Continue(db, ReleaseDelete(id, thenRow)) else AfterRelease(db, id, thenRow)
    case ReleaseDelete(id, thenRow) =>
      AfterRelease(if ch.ok then DeleteSubnet(db, id) else db, id, thenRow)
    case DeleteRow(id) =>
      Done(if ch.ok then DeleteNode(db, id) else db)
    case _ => Done(db)
  }

  function AfterRelease(db: Db, id: NodeId, thenRow: bool): Outcome {
    if thenRow then Continue(db, DeleteRow(id)) else Done(db)
  }

  function TaskStep(c: Config, db: Db, t: Task, ch: Choice): Outcome {
    if IsConnect(t) then ConnectStep(c, db, t, ch)
    else if t.RemoveGet? || t.RemoveMark? || t.RemoveDelete? then RemoveStep(db, t, ch)
    else if IsMigrate(t) then MigrateStep(c, db, t, ch)
    else if IsProvision(t) then ProvisionStep(c, db, t, ch)
    else DestroyStep(db, t, ch)
  }

  predicate IsConnect(t: Task) {
    || t.ConnectSelect? || t.ConnectSubnet? || t.ConnectPick? || t.ConnectCheckKey?
    || t.ConnectCheckIp? || t.ConnectInsert? || t.ConnectConfigure?
  }

  predicate IsMigrate(t: Task) {
    || t.MigrateList? || t.MigrateSubnet? || t.MigratePick? || t.MigrateGet?
    || t.MigrateCheckIp? || t.MigrateRecheck? || t.MigrateUpdate? || t.MigrateConfigure?
  }

  predicate IsProvision(t: Task) {
    || t.ProvisionCreate? || t.ProvisionLookup? || t.ProvisionUsed? || t.ProvisionInsert?
    || t.ProvisionCloud? || t.ProvisionDetails? || t.ProvisionReady? || t.ProvisionActivate?
  }

  /** The networks given so far, after a step. */
  function Remember(s: System, t: Task, o: Outcome): map<NodeId, nat> {
    if t.ProvisionInsert? && o.next == Some(ProvisionCloud(t.id)) then s.history[t.id := t.network] else s.history
  }

  function Step(c: Config, s: System, e: Event): System {
    match e
    case Spawn(slot, t) =>
      if slot in s.tasks || !CanSpawn(s, t) then s
      else s.(tasks := s.tasks[slot := t], drawn := if t.ProvisionCreate? then s.drawn + {t.id} else s.drawn)
    case Advance(slot, ch) =>
      if slot !in s.tasks then s
      else
        var t := s.tasks[slot];
        var o := TaskStep(c, s.db, t, ch);
        var rest := s.tasks - {slot};
        s.(db := o.db, history := Remember(s, t, o),
           tasks := if o.next.Some? then rest[slot := o.next.value] else rest)
    case Restart => s.(tasks := map[])
  }

  function Run(c: Config, s: System, events: seq<Event>): System
    decreases |events|
  {
    if events == [] then s else Step(c, Run(c, s, events[..|events| - 1]), events[|events| - 1])
  }

  // ---- the safety property ----

  predicate InNetwork(c: Config, network: nat, v: int) {
    network <= v < network + BlockSize(c)
  }

  ghost predicate DisjointRanges(c: Config, db: Db) {
    forall m, n, v :: m in db.subnets && n in db.subnets && m != n && InNetwork(c, db.subnets[m], v)
                      ==> !InNetwork(c, db.subnets[n], v)
  }

  predicate PeersInRange(c: Config, db: Db) {
    forall p :: p in db.peers && db.peers[p].node in db.subnets ==>
      InClientRange(c, db.subnets[db.peers[p].node], db.peers[p].ip)
  }

  ghost predicate Safe(c: Config, db: Db) {
    UniquePeers(db.peers) && UniqueNodeKeys(db.nodes) && Owned(db) && DisjointRanges(c, db) && PeersInRange(c, db)
  }

  // ---- the invariant ----

  /** Tables against the history: a subnet row is the one network its node ever had, and
      every peer has an address of its node's network, even when the row is gone. */
  predicate TablesOk(c: Config, db: Db, history: map<NodeId, nat>, drawn: set<NodeId>) {
    && Consistent(db)
    && (forall n :: n in db.nodes ==> n in drawn)
    && (forall n :: n in history ==> n in drawn && IsNetwork(c, history[n]))
    && (forall n :: n in db.subnets ==> n in history && history[n] == db.subnets[n])
    && (forall p :: p in db.peers ==> Holds(c, history, db.peers[p].node, db.peers[p].ip))
  }

  /** `ip` is a client address of the network `node` was given. */
  predicate Holds(c: Config, history: map<NodeId, nat>, node: NodeId, ip: nat) {
    node in history && InClientRange(c, history[node], ip)
  }

  /** Local variables against the history. */
  predicate TaskOk(c: Config, history: map<NodeId, nat>, drawn: set<NodeId>, t: Task) {
    match t
    case ConnectPick(_, node, network) => node in history && history[node] == network
    case ConnectCheckKey(_, node, ip) => Holds(c, history, node, ip)
    case ConnectCheckIp(_, node, ip) => Holds(c, history, node, ip)
    case ConnectInsert(_, node, ip) => Holds(c, history, node, ip)
    case MigratePick(_, target, network) => target in history && history[target] == network
    case MigrateGet(_, target, ip) => Holds(c, history, target, ip)
    case MigrateCheckIp(_, target, ip) => Holds(c, history, target, ip)
    case MigrateRecheck(_, target, ip) => Holds(c, history, target, ip)
    case MigrateUpdate(_, target, ip) => Holds(c, history, target, ip)
    case ProvisionInsert(id, network) => IsNetwork(c, network) && id in drawn && id !in history
    case _ => Unplaced(t) ==> t.id in drawn && t.id !in history
  }

  /** A provisioning that may still give its node a network. */
  predicate Unplaced(t: Task) {
    t.ProvisionCreate? || t.ProvisionLookup? || t.ProvisionUsed? || t.ProvisionInsert?
  }

  predicate TasksOk(c: Config, s: System) {
    && (forall k :: k in s.tasks ==> TaskOk(c, s.history, s.drawn, s.tasks[k]))
    && (forall j, k :: j in s.tasks && k in s.tasks && j != k && Unplaced(s.tasks[j]) && Unplaced(s.tasks[k])
          ==> s.tasks[j].id != s.tasks[k].id)
  }

  predicate Inv(c: Config, s: System) {
    TablesOk(c, s.db, s.history, s.drawn) && TasksOk(c, s)
  }

  // ---- every statement keeps the tables in order ----

  lemma InsertPeerKeeps(c: Config, db: Db, h: map<NodeId, nat>, drawn: set<NodeId>, id: PeerId, row: PeerRow)
    requires TablesOk(c, db, h, drawn) && Holds(c, h, row.node, row.ip)
    ensures var r := InsertPeer(db, id, row); r.Some? ==> TablesOk(c, r.value, h, drawn)
  {
    hide UniqueNodeKeys;
    hide UniqueSubnets;
    hide IsNetwork;
    hide InClientRange;
  }

  lemma MovePeerKeeps(c: Config, db: Db, h: map<NodeId, nat>, drawn: set<NodeId>, id: PeerId, node: NodeId, ip: nat)
    requires TablesOk(c, db, h, drawn) && Holds(c, h, node, ip)
    ensures var r := UpdatePeerNode(db, id, node, ip); r.Some? ==> TablesOk(c, r.value, h, drawn)
  {
    hide UniqueNodeKeys;
    hide UniqueSubnets;
    hide IsNetwork;
    hide InClientRange;
  }

  lemma PeerStatementsKeep(c: Config, db: Db, h: map<NodeId, nat>, drawn: set<NodeId>, id: PeerId, status: PeerStatus)
    requires TablesOk(c, db, h, drawn)
    ensures TablesOk(c, UpdatePeerStatus(db, id, status), h, drawn)
    ensures TablesOk(c, DeletePeer(db, id), h, drawn)
  {
    hide UniqueNodeKeys;
    hide UniqueSubnets;
    hide IsNetwork;
    hide InClientRange;
  }

  lemma NodeStatementsKeep(c: Config, db: Db, h: map<NodeId, nat>, drawn: set<NodeId>, id: NodeId, row: NodeRow)
    requires TablesOk(c, db, h, drawn)
    ensures var r := InsertNode(db, id, row); r.Some? && id in drawn ==> TablesOk(c, r.value, h, drawn)
    ensures var r := UpdateNode(db, id, row); r.Some? ==> TablesOk(c, r.value, h, drawn)
  {
    hide UniqueSubnets;
    hide UniquePeers;
    hide IsNetwork;
    hide Holds;
  }

  lemma DeletionsKeep(c: Config, db: Db, h: map<NodeId, nat>, drawn: set<NodeId>, id: NodeId)
    requires TablesOk(c, db, h, drawn)
    ensures TablesOk(c, DeleteNode(db, id), h, drawn)
    ensures TablesOk(c, DeleteSubnet(db, id), h, drawn)
  {
    hide IsNetwork;
    hide Holds;
  }

  lemma InsertSubnetKeeps(c: Config, db: Db, h: map<NodeId, nat>, drawn: set<NodeId>, id: NodeId, network: nat)
    requires TablesOk(c, db, h, drawn) && id in drawn && id !in h && IsNetwork(c, network)
    ensures var r := InsertSubnet(db, id, network); r.Some? ==> TablesOk(c, r.value, h[id := network], drawn)
  {
    hide UniqueNodeKeys;
    hide UniquePeers;
    hide IsNetwork;
    hide InClientRange;
  }

  // ---- every step keeps the invariant ----

  lemma SubnetIsRemembered(c: Config, db: Db, h: map<NodeId, nat>, drawn: set<NodeId>, node: NodeId)
    requires TablesOk(c, db, h, drawn)
    ensures node in db.subnets ==> node in h && h[node] == db.subnets[node]
  {
  }

  lemma PickedHolds(c: Config, h: map<NodeId, nat>, node: NodeId, network: nat, taken: set<nat>)
    requires node in h && h[node] == network
    ensures PickIp(c, network, taken).Some? ==> Holds(c, h, node, PickIp(c, network, taken).value)
  {
  }

  /** All a connection worker relies on: the node's network, then an address of it. */
  predicate ConnectGrounded(c: Config, h: map<NodeId, nat>, t: Task) {
    && (t.ConnectPick? ==> t.node in h && h[t.node] == t.network)
    && (t.ConnectCheckKey? || t.ConnectCheckIp? || t.ConnectInsert? ==> Holds(c, h, t.node, t.ip))
  }

  lemma ConnectionGrounds(c: Config, s: System, t: Task)
    requires IsConnect(t) || t.RemoveGet?
    ensures TaskOk(c, s.history, s.drawn, t) <==> ConnectGrounded(c, s.history, t)
    ensures !Unplaced(t)
  {
    hide Holds;
  }

  lemma ConnectKeeps(c: Config, s: System, t: Task, ch: Choice)
    requires TablesOk(c, s.db, s.history, s.drawn) && TaskOk(c, s.history, s.drawn, t) && IsConnect(t)
    ensures var o := ConnectStep(c, s.db, t, ch);
            && TablesOk(c, o.db, s.history, s.drawn)
            && (o.next.Some? ==> TaskOk(c, s.history, s.drawn, o.next.value) && !Unplaced(o.next.value))
  {
    hide TablesOk;
    hide TaskOk;
    hide Unplaced;
    hide Holds;
    hide PickIp;
    hide InsertPeer;
    ConnectionGrounds(c, s, t);
    var o := ConnectStep(c, s.db, t, ch);
    if o.next.Some? {
      ConnectionGrounds(c, s, o.next.value);
    }
    match t {
      case ConnectSubnet(_, node) => SubnetIsRemembered(c, s.db, s.history, s.drawn, node);
      case ConnectPick(_, node, network) => PickedHolds(c, s.history, node, network, IpsOn(s.db, node));
      case ConnectInsert(key, node, ip) =>
        InsertPeerKeeps(c, s.db, s.history, s.drawn, ch.name, PeerRow(node, key, ip, PeerActive));
      case _ =>
    }
  }

  lemma RemoveKeeps(c: Config, s: System, t: Task, ch: Choice)
    requires TablesOk(c, s.db, s.history, s.drawn)
    ensures var o := RemoveStep(s.db, t, ch);
            && TablesOk(c, o.db, s.history, s.drawn)
            && (o.next.Some? ==> TaskOk(c, s.history, s.drawn, o.next.value) && !Unplaced(o.next.value))
  {
    hide TablesOk;
    hide UpdatePeerStatus;
    hide DeletePeer;
    if t.RemoveMark? || t.RemoveDelete? {
      PeerStatementsKeep(c, s.db, s.history, s.drawn, t.peer, PeerRemoving);
    }
  }

  /** All a migration relies on: the target's network, then an address of it. */
  predicate Grounded(c: Config, h: map<NodeId, nat>, t: Task) {
    && (t.MigratePick? ==> t.target in h && h[t.target] == t.network)
    && (t.MigrateGet? || t.MigrateCheckIp? || t.MigrateRecheck? || t.MigrateUpdate? ==> Holds(c, h, t.target, t.ip))
  }

  lemma MigrationGrounds(c: Config, s: System, t: Task)
    requires IsMigrate(t)
    ensures TaskOk(c, s.history, s.drawn, t) <==> Grounded(c, s.history, t)
    ensures !Unplaced(t)
  {
    hide Holds;
  }

  lemma MigrateKeeps(c: Config, s: System, t: Task, ch: Choice)
    requires TablesOk(c, s.db, s.history, s.drawn) && TaskOk(c, s.history, s.drawn, t) && IsMigrate(t)
    ensures var o := MigrateStep(c, s.db, t, ch);
            && TablesOk(c, o.db, s.history, s.drawn)
            && (o.next.Some? ==> TaskOk(c, s.history, s.drawn, o.next.value) && !Unplaced(o.next.value))
  {
    hide TablesOk;
    hide TaskOk;
    hide Unplaced;
    hide Holds;
    hide PickIp;
    hide UpdatePeerNode;
    hide ActiveOn;
    MigrationGrounds(c, s, t);
    var o := MigrateStep(c, s.db, t, ch);
    if o.next.Some? {
      MigrationGrounds(c, s, o.next.value);
    }
    match t {
      case MigrateSubnet(_, target) => SubnetIsRemembered(c, s.db, s.history, s.drawn, target);
      case MigratePick(_, target, network) => PickedHolds(c, s.history, target, network, IpsOn(s.db, target));
      case MigrateUpdate(queue, target, ip) =>
        if queue != [] {
          MovePeerKeeps(c, s.db, s.history, s.drawn, queue[0].peer, target, ip);
        }
      case _ =>
    }
  }

  /** What a step keeps. The history grows only when a provisioning stores its subnet row, by
      the network of its own node. */
  predicate StepKept(c: Config, s: System, t: Task, o: Outcome) {
    var h := Remember(s, t, o);
    && TablesOk(c, o.db, h, s.drawn)
    && (h == s.history || (t.ProvisionInsert? && h == s.history[t.id := t.network]))
    && (o.next.Some? ==> TaskOk(c, h, s.drawn, o.next.value)
                         && (Unplaced(o.next.value) ==> Unplaced(t) && o.next.value.id == t.id))
  }

  lemma PlacingKeeps(c: Config, s: System, t: Task, ch: Choice)
    requires TablesOk(c, s.db, s.history, s.drawn) && TaskOk(c, s.history, s.drawn, t) && Unplaced(t)
    ensures StepKept(c, s, t, ProvisionStep(c, s.db, t, ch))
  {
    hide TablesOk;
    hide IsNetwork;
    hide PickNetwork;
    hide InsertNode;
    hide InsertSubnet;
    if t.ProvisionCreate? {
      NodeStatementsKeep(c, s.db, s.history, s.drawn, t.id, NodeRow(Provisioning, "", t.id));
    } else if t.ProvisionUsed? {
      PickedNetwork(c, UsedNetworks(s.db));
    } else if t.ProvisionInsert? {
      InsertSubnetKeeps(c, s.db, s.history, s.drawn, t.id, t.network);
    }
  }

  lemma FinishingKeeps(c: Config, s: System, t: Task, ch: Choice)
    requires TablesOk(c, s.db, s.history, s.drawn) && IsProvision(t) && !Unplaced(t)
    ensures StepKept(c, s, t, ProvisionStep(c, s.db, t, ch))
  {
    hide TablesOk;
    hide UpdateNode;
    if t.ProvisionDetails? {
      NodeStatementsKeep(c, s.db, s.history, s.drawn, t.id, ch.row.(status := Provisioning));
    } else if t.ProvisionActivate? {
      NodeStatementsKeep(c, s.db, s.history, s.drawn, t.id, ch.row.(status := Active));
    }
  }

  predicate IsDestruction(t: Task) {
    t.DestroyMark? || t.ReleaseExists? || t.ReleaseDelete? || t.DeleteRow?
  }

  /** A destruction relies on nothing it has read. */
  lemma DestructionIsFree(c: Config, s: System, t: Task)
    requires IsDestruction(t)
    ensures TaskOk(c, s.history, s.drawn, t) && !Unplaced(t)
  {
  }

  lemma DestroyKeeps(c: Config, s: System, t: Task, ch: Choice)
    requires TablesOk(c, s.db, s.history, s.drawn)
    ensures var o := DestroyStep(s.db, t, ch);
            && TablesOk(c, o.db, s.history, s.drawn)
            && (o.next.Some? ==> TaskOk(c, s.history, s.drawn, o.next.value) && !Unplaced(o.next.value))
  {
    hide TablesOk;
    hide TaskOk;
    hide Unplaced;
    hide UpdateNode;
    hide DeleteNode;
    hide DeleteSubnet;
    var o := DestroyStep(s.db, t, ch);
    if o.next.Some? {
      DestructionIsFree(c, s, o.next.value);
    }
    match t {
      case WriteNode(id) => NodeStatementsKeep(c, s.db, s.history, s.drawn, id, ch.row);
      case DestroyMark(id) => NodeStatementsKeep(c, s.db, s.history, s.drawn, id, ch.row.(status := Destroying));
      case ReleaseDelete(id, _) => DeletionsKeep(c, s.db, s.history, s.drawn, id);
      case DeleteRow(id) => DeletionsKeep(c, s.db, s.history, s.drawn, id);
      case _ =>
    }
  }

  lemma TaskKeeps(c: Config, s: System, t: Task, ch: Choice)
    requires TablesOk(c, s.db, s.history, s.drawn) && TaskOk(c, s.history, s.drawn, t)
    ensures StepKept(c, s, t, TaskStep(c, s.db, t, ch))
  {
    hide TablesOk;
    hide TaskOk;
    hide ConnectStep;
    hide RemoveStep;
    hide MigrateStep;
    hide ProvisionStep;
    hide DestroyStep;
    if IsConnect(t) {
      ConnectKeeps(c, s, t, ch);
    } else if t.RemoveGet? || t.RemoveMark? || t.RemoveDelete? {
      RemoveKeeps(c, s, t, ch);
    } else if IsMigrate(t) {
      MigrateKeeps(c, s, t, ch);
    } else if IsProvision(t) {
      if Unplaced(t) {
        PlacingKeeps(c, s, t, ch);
      } else {
        FinishingKeeps(c, s, t, ch);
      }
    } else {
      DestroyKeeps(c, s, t, ch);
    }
  }

  /** A network given to another node does not disturb a task. */
  lemma OtherTask(c: Config, h: map<NodeId, nat>, drawn: set<NodeId>, u: Task, id: NodeId, network: nat)
    requires TaskOk(c, h, drawn, u) && id !in h
    requires Unplaced(u) ==> u.id != id
    ensures TaskOk(c, h[id := network], drawn, u)
  {
    hide InClientRange;
  }

  lemma StepKeeps(c: Config, s: System, e: Event)
    requires Inv(c, s)
    ensures Inv(c, Step(c, s, e))
  {
    hide TablesOk;
    hide TaskStep;
    hide TaskOk;
    match e
    case Spawn(slot, t) =>
      SpawnKeeps(c, s, slot, t);
    case Advance(slot, ch) =>
      if slot in s.tasks {
        var t := s.tasks[slot];
        TaskKeeps(c, s, t, ch);
        var o := TaskStep(c, s.db, t, ch);
        var h := Remember(s, t, o);
        forall k | k in s.tasks && k != slot ensures TaskOk(c, h, s.drawn, s.tasks[k]) {
          if t.ProvisionInsert? {
            UnplacedIsNew(c, s.history, s.drawn, t);
            OtherTask(c, s.history, s.drawn, s.tasks[k], t.id, t.network);
          }
        }
      }
    case Restart =>
  }

  lemma UnplacedIsNew(c: Config, h: map<NodeId, nat>, drawn: set<NodeId>, t: Task)
    requires TaskOk(c, h, drawn, t) && Unplaced(t)
    ensures t.id in drawn && t.id !in h
  {
  }

  lemma SpawnKeeps(c: Config, s: System, slot: nat, t: Task)
    requires Inv(c, s)
    ensures Inv(c, Step(c, s, Spawn(slot, t)))
  {
    hide Consistent;
    hide Holds;
    hide IsNetwork;
    hide BlockSize;
  }

  lemma {:induction false} RunKeeps(c: Config, s: System, events: seq<Event>)
    requires Inv(c, s)
    ensures Inv(c, Run(c, s, events))
    decreases |events|
  {
    if events != [] {
      RunKeeps(c, s, events[..|events| - 1]);
      StepKeeps(c, Run(c, s, events[..|events| - 1]), events[|events| - 1]);
    }
  }

  lemma TablesAreSafe(c: Config, db: Db, h: map<NodeId, nat>, drawn: set<NodeId>)
    requires TablesOk(c, db, h, drawn)
    ensures Safe(c, db)
  {
    hide InClientRange;
    hide Pow2;
    forall m, n, v | m in db.subnets && n in db.subnets && m != n && InNetwork(c, db.subnets[m], v)
      ensures !InNetwork(c, db.subnets[n], v)
    {
      NetworksDisjoint(db.subnets[m], db.subnets[n], BlockSize(c), v);
    }
  }

  /** In every run, whatever is interleaved and whatever fails: addresses, identifiers and
      node keys are unique, no row is orphaned, subnets of different nodes are disjoint address
      ranges, and a peer whose node holds a subnet has an address of that subnet's client
      range. */
  lemma EveryRunIsSafe(c: Config, events: seq<Event>)
    ensures Safe(c, Run(c, START, events).db)
  {
    RunKeeps(c, START, events);
    var s := Run(c, START, events);
    TablesAreSafe(c, s.db, s.history, s.drawn);
  }
}
