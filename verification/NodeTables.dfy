/** The nodes' peer tables beside the step system of the registry: workers send commands to
    nodes between their statements, and commands take effect whenever the network lets them. */
module NodeTables {
  import opened Ipv4
  import opened Network
  import opened Placement
  import opened Tables
  import opened Text
  import opened WireGuard
  import opened Connections
  import Registry
  import Agreement

  /** A key with an address on a node: what a peer row says, and what `AddPeer` is asked for. */
  datatype Client = Client(node: NodeId, key: string, ip: nat)

  /** `names` remembers the identifier that every stored peer came with, `once` what peer rows
      have ever said; both only grow and no task reads them. */
  datatype Cluster = Cluster(
    system: Registry.System, tables: map<NodeId, Table>, sent: set<Client>, names: map<PeerId, string>, once: set<Client>)

  const START := Cluster(Registry.START, map[], {}, map[], {})

  /** A sent command may take effect at any later time, again, or never, its report arriving or
      not, whatever has become of its sender. An entry may be lost at any time: to a
      migration, a disconnection, a rollback, a restart of the node or an administrator. */
  datatype Change =
    | Statement(event: Registry.Event)
    | Send(slot: nat)
    | Deliver(client: Client)
    | Lose(node: NodeId, key: string)

  function TableOf(tables: map<NodeId, Table>, node: NodeId): Table {
    if node in tables then tables[node] else map[]
  }

  /** What the peer rows say. */
  function Clients(db: Db): set<Client> {
    set p | p in db.peers :: Client(db.peers[p].node, db.peers[p].identifier, db.peers[p].ip)
  }

  /** What a task at its remote step asks a node for. */
  function Wants(t: Registry.Task): Option<Client> {
    match t
    case ConnectConfigure(_, node, key, ip) => Some(Client(node, key, ip))
    case MigrateConfigure(queue, target, ip) => if queue == [] then None else Some(Client(target, queue[0].key, ip))
    case _ => None
  }

  /** Peer identifiers come from a nanosecond clock and are never drawn twice. */
  predicate DrawsAgain(s: Cluster, e: Registry.Event) {
    e.Advance? && e.slot in s.system.tasks && s.system.tasks[e.slot].ConnectInsert? && e.choice.name in s.names
  }

  function Named(names: map<PeerId, string>, db: Db): map<PeerId, string> {
    map p | p in names.Keys + db.peers.Keys :: if p in names then names[p] else db.peers[p].identifier
  }

  function Apply(c: Config, s: Cluster, change: Change): Cluster {
    match change
    case Statement(e) =>
      if DrawsAgain(s, e) then s
      else
        var system := Registry.Step(c, s.system, e);
        s.(system := system, names := Named(s.names, system.db), once := s.once + Clients(system.db))
    case Send(slot) =>
      if slot in s.system.tasks && Wants(s.system.tasks[slot]).Some?
      then s.(sent := s.sent + {Wants(s.system.tasks[slot]).value}) else s
    case Deliver(client) =>
      if client in s.sent && client.ip < ADDRESSES
      then s.(tables := s.tables[client.node := WgSet(TableOf(s.tables, client.node), ClientConfig(client.key, client.ip))])
      else s
    case Lose(node, key) =>
      s.(tables := s.tables[node := WgRemove(TableOf(s.tables, node), key)])
  }

  function ApplyAll(c: Config, changes: seq<Change>): Cluster
    decreases |changes|
  {
    if changes == [] then START else Apply(c, ApplyAll(c, changes[..|changes| - 1]), changes[|changes| - 1])
  }

  // ---- where entries come from ----

  /** A peer row once said so; or the key belongs to a peer whose row is gone. */
  predicate Accounted(s: Cluster, k: Client) {
    k in s.once || exists p :: p in s.names && s.names[p] == k.key && p !in s.system.db.peers
  }

  /** The entry of a key holds at most one address, of its node's own network. */
  ghost predicate EntryOk(c: Config, s: Cluster, node: NodeId, key: string, e: Entry) {
    exists ip: nat :: IsEntry(c, s, Client(node, key, ip), e)
  }

  predicate IsEntry(c: Config, s: Cluster, k: Client, e: Entry) {
    k.ip < ADDRESSES && e.ips <= {HostRoute(k.ip)} && Granted(c, s, k)
  }

  predicate Granted(c: Config, s: Cluster, k: Client) {
    Accounted(s, k) && Registry.Holds(c, s.system.history, k.node, k.ip)
  }

  predicate NamesOk(s: Cluster) {
    forall p :: p in s.system.db.peers ==> p in s.names && s.names[p] == s.system.db.peers[p].identifier
  }

  function QueueOf(t: Registry.Task): seq<Registry.Listed> {
    match t
    case MigrateSubnet(queue, _) => queue
    case MigratePick(queue, _, _) => queue
    case MigrateGet(queue, _, _) => queue
    case MigrateCheckIp(queue, _, _) => queue
    case MigrateRecheck(queue, _, _) => queue
    case MigrateUpdate(queue, _, _) => queue
    case MigrateConfigure(queue, _, _) => queue
    case _ => []
  }

  predicate Listed(names: map<PeerId, string>, queue: seq<Registry.Listed>) {
    forall q :: q in queue ==> q.peer in names && names[q.peer] == q.key
  }

  predicate TaskOk(c: Config, s: Cluster, t: Registry.Task) {
    Listed(s.names, QueueOf(t)) && (Wants(t).Some? ==> Granted(c, s, Wants(t).value))
  }

  ghost predicate Inv(c: Config, s: Cluster) {
    && Registry.Inv(c, s.system) && NamesOk(s) && Clients(s.system.db) <= s.once
    && (forall slot :: slot in s.system.tasks ==> TaskOk(c, s, s.system.tasks[slot]))
    && (forall k :: k in s.sent ==> Granted(c, s, k))
    && (forall n, k :: n in s.tables && k in s.tables[n] ==> EntryOk(c, s, n, k, s.tables[n][k]))
    && (forall n :: n in s.tables ==> DisjointIps(s.tables[n]))
  }

  // ---- statements ----

  /** Identifiers never change, and only a connection makes a row. */
  predicate RowsFrom(before: Db, after: Db, made: Option<PeerId>) {
    forall p :: p in after.peers ==>
      if p in before.peers then after.peers[p].identifier == before.peers[p].identifier else made == Some(p)
  }

  function Made(t: Registry.Task, ch: Registry.Choice): Option<PeerId> {
    if t.ConnectInsert? then Some(ch.name) else None
  }

  lemma PeerStatementsKeepRows(db: Db, p: PeerId, row: PeerRow, node: NodeId, ip: nat, status: PeerStatus)
    ensures RowsFrom(db, db, None)
    ensures var r := InsertPeer(db, p, row); r.Some? ==> RowsFrom(db, r.value, Some(p))
    ensures var r := UpdatePeerNode(db, p, node, ip); r.Some? ==> RowsFrom(db, r.value, None)
    ensures RowsFrom(db, UpdatePeerStatus(db, p, status), None) && RowsFrom(db, DeletePeer(db, p), None)
  {
    hide IpInUse;
    hide IdentifierInUse;
  }

  lemma ConnectKeepsRows(c: Config, db: Db, t: Registry.Task, ch: Registry.Choice)
    requires Registry.IsConnect(t)
    ensures RowsFrom(db, Registry.ConnectStep(c, db, t, ch).db, Made(t, ch))
  {
    hide PickIp;
    hide InsertPeer;
    if t.ConnectInsert? {
      PeerStatementsKeepRows(db, ch.name, PeerRow(t.node, t.key, t.ip, PeerActive), t.node, t.ip, PeerActive);
    }
  }

  lemma MigrationKeepsRows(c: Config, db: Db, t: Registry.Task, ch: Registry.Choice)
    requires Registry.IsMigrate(t)
    ensures RowsFrom(db, Registry.MigrateStep(c, db, t, ch).db, None)
  {
    hide PickIp;
    hide IpInUse;
    hide UpdatePeerNode;
    hide RowsFrom;
    hide Registry.ActiveOn;
    PeerStatementsKeepRows(db, "", PeerRow("", "", 0, PeerActive), "", 0, PeerActive);
    if t.MigrateUpdate? && t.queue != [] {
      PeerStatementsKeepRows(db, t.queue[0].peer, PeerRow("", "", 0, PeerActive), t.target, t.ip, PeerActive);
    }
  }

  lemma RemovalKeepsRows(db: Db, t: Registry.Task, ch: Registry.Choice)
    ensures RowsFrom(db, Registry.RemoveStep(db, t, ch).db, None)
  {
  }

  lemma NodeTasksKeepRows(c: Config, db: Db, t: Registry.Task, ch: Registry.Choice)
    ensures RowsFrom(db, Registry.ProvisionStep(c, db, t, ch).db, None)
    ensures RowsFrom(db, Registry.DestroyStep(db, t, ch).db, None)
  {
    hide PickNetwork;
    hide KeyTaken;
  }

  /** What was granted stays granted: peers that are gone do not come back. */
  predicate Later(s: Cluster, u: Cluster) {
    && s.once <= u.once
    && (forall p :: p in s.names ==> p in u.names && u.names[p] == s.names[p])
    && (forall p :: p in s.names && p !in s.system.db.peers ==> p !in u.system.db.peers)
    && (forall n :: n in s.system.history ==> n in u.system.history && u.system.history[n] == s.system.history[n])
  }

  lemma GrantedLater(c: Config, s: Cluster, u: Cluster, k: Client)
    requires Later(s, u) && Granted(c, s, k)
    ensures Granted(c, u, k)
  {
    hide InClientRange;
  }

  lemma EntryLater(c: Config, s: Cluster, u: Cluster, node: NodeId, key: string, e: Entry)
    requires Later(s, u) && EntryOk(c, s, node, key, e)
    ensures EntryOk(c, u, node, key, e)
  {
    hide Granted;
    hide HostRoute;
    var ip: nat :| IsEntry(c, s, Client(node, key, ip), e);
    GrantedLater(c, s, u, Client(node, key, ip));
    assert IsEntry(c, u, Client(node, key, ip), e);
  }

  lemma TaskLater(c: Config, s: Cluster, u: Cluster, t: Registry.Task)
    requires Later(s, u) && TaskOk(c, s, t)
    ensures TaskOk(c, u, t)
  {
    hide Granted;
    hide QueueOf;
    hide Wants;
    if Wants(t).Some? {
      GrantedLater(c, s, u, Wants(t).value);
    }
  }

  /** The history only grows, by networks of new nodes. */
  lemma HistoryStays(c: Config, s: Registry.System, e: Registry.Event)
    requires Registry.Inv(c, s)
    ensures var h := Registry.Step(c, s, e).history;
            forall n :: n in s.history ==> n in h && h[n] == s.history[n]
  {
    hide Registry.TablesOk;
    hide Registry.TaskStep;
    hide IsNetwork;
    if e.Advance? && e.slot in s.tasks && s.tasks[e.slot].ProvisionInsert? {
      assert Registry.TaskOk(c, s.history, s.drawn, s.tasks[e.slot]);
    }
  }

  lemma RowsStay(c: Config, s: Registry.System, e: Registry.Event)
    ensures var made := if e.Advance? && e.slot in s.tasks then Made(s.tasks[e.slot], e.choice) else None;
            RowsFrom(s.db, Registry.Step(c, s, e).db, made)
  {
    hide Registry.ConnectStep;
    hide Registry.RemoveStep;
    hide Registry.MigrateStep;
    hide Registry.ProvisionStep;
    hide Registry.DestroyStep;
    if e.Advance? && e.slot in s.tasks {
      var t := s.tasks[e.slot];
      if Registry.IsConnect(t) {
        ConnectKeepsRows(c, s.db, t, e.choice);
      } else if Registry.IsMigrate(t) {
        MigrationKeepsRows(c, s.db, t, e.choice);
      } else {
        RemovalKeepsRows(s.db, t, e.choice);
        NodeTasksKeepRows(c, s.db, t, e.choice);
      }
    }
  }

  lemma StatementIsLater(c: Config, s: Cluster, e: Registry.Event)
    requires Inv(c, s) && !DrawsAgain(s, e)
    ensures var u := Apply(c, s, Statement(e));
            Later(s, u) && NamesOk(u) && Clients(u.system.db) <= u.once && Registry.Inv(c, u.system)
  {
    hide Registry.Inv;
    hide Registry.Step;
    hide TaskOk;
    hide Granted;
    hide EntryOk;
    hide Clients;
    hide DisjointIps;
    Registry.StepKeeps(c, s.system, e);
    HistoryStays(c, s.system, e);
    RowsStay(c, s.system, e);
  }

  lemma RowIsClient(db: Db, p: PeerId)
    requires p in db.peers
    ensures Client(db.peers[p].node, db.peers[p].identifier, db.peers[p].ip) in Clients(db)
  {
  }

  /** A worker asks for what the row it has just stored says. */
  lemma ConnectAsks(c: Config, db: Db, t: Registry.Task, ch: Registry.Choice)
    requires Registry.IsConnect(t)
    ensures var o := Registry.ConnectStep(c, db, t, ch);
            o.next.Some? ==> QueueOf(o.next.value) == []
                             && (Wants(o.next.value).Some? <==> t.ConnectInsert?)
                             && (Wants(o.next.value).Some? ==> Wants(o.next.value).value in Clients(o.db))
  {
    hide PickIp;
    hide IpInUse;
    hide IdentifierInUse;
    var o := Registry.ConnectStep(c, db, t, ch);
    if t.ConnectInsert? && o.next.Some? {
      RowIsClient(o.db, ch.name);
    }
  }

  lemma ListedNow(c: Config, db: Db, names: map<PeerId, string>, t: Registry.Task, ch: Registry.Choice)
    requires t.MigrateList? && forall p :: p in db.peers ==> p in names && names[p] == db.peers[p].identifier
    ensures var o := Registry.MigrateStep(c, db, t, ch);
            o.next.Some? ==> Listed(names, QueueOf(o.next.value)) && Wants(o.next.value).None?
  {
    if ch.ok && (set p | p in ch.order) == Registry.ActiveOn(db, t.source) {
      Registry.ListedExist(db, t.source, ch.order);
      hide Registry.ActiveOn;
    }
  }

  /** A migration works through its list from the front. */
  lemma QueueShrinks(c: Config, db: Db, t: Registry.Task, ch: Registry.Choice)
    requires Registry.IsMigrate(t) && !t.MigrateList?
    ensures var o := Registry.MigrateStep(c, db, t, ch);
            o.next.Some? ==> QueueOf(o.next.value) == QueueOf(t)
                             || (QueueOf(t) != [] && QueueOf(o.next.value) == QueueOf(t)[1..])
    ensures var o := Registry.MigrateStep(c, db, t, ch);
            o.next.Some? && Wants(o.next.value).Some? ==>
              t.MigrateUpdate? && t.queue != [] && o.next.value == Registry.MigrateConfigure(t.queue, t.target, t.ip)
  {
    hide PickIp;
    hide IpInUse;
    hide UpdatePeerNode;
  }

  /** A migration asks for what a row says exactly unless the peer's row has vanished since it
      was read (and no other says the same): the statement then changes nothing, without error. */
  lemma MigrationAsks(c: Config, db: Db, t: Registry.Task, ch: Registry.Choice)
    requires t.MigrateUpdate? && t.queue != []
    requires t.queue[0].peer in db.peers ==> db.peers[t.queue[0].peer].identifier == t.queue[0].key
    ensures var o := Registry.MigrateStep(c, db, t, ch);
            o.next.Some? && o.next.value.MigrateConfigure? ==>
              && Wants(o.next.value) == Some(Client(t.target, t.queue[0].key, t.ip))
              && (Wants(o.next.value).value in Clients(o.db)
                  <==> t.queue[0].peer in db.peers || Wants(o.next.value).value in Clients(db))
              && (t.queue[0].peer !in db.peers ==> o.db == db)
  {
    var o := Registry.MigrateStep(c, db, t, ch);
    if t.queue[0].peer in o.db.peers {
      RowIsClient(o.db, t.queue[0].peer);
    }
  }

  /** Every other task asks for nothing. */
  lemma OthersAskNothing(c: Config, db: Db, t: Registry.Task, ch: Registry.Choice)
    requires !Registry.IsConnect(t) && !Registry.IsMigrate(t)
    ensures var o := Registry.TaskStep(c, db, t, ch);
            o.next.Some? ==> QueueOf(o.next.value) == [] && Wants(o.next.value).None?
  {
    hide InsertNode;
    hide InsertSubnet;
    hide PickNetwork;
    hide UpdateNode;
  }

  lemma RowsAreGranted(c: Config, s: Cluster, k: Client)
    requires Registry.Inv(c, s.system) && k in Clients(s.system.db) && Clients(s.system.db) <= s.once
    ensures Granted(c, s, k)
  {
    hide Registry.TasksOk;
    hide Consistent;
    hide InClientRange;
  }

  lemma MigrationIsGranted(c: Config, s: Cluster, e: Registry.Event, t: Registry.Task)
    requires Inv(c, s) && e.Advance? && e.slot in s.system.tasks && s.system.tasks[e.slot] == t
    requires t.MigrateUpdate? && t.queue != []
    requires Registry.MigrateStep(c, s.system.db, t, e.choice).next == Some(Registry.MigrateConfigure(t.queue, t.target, t.ip))
    ensures Granted(c, Apply(c, s, Statement(e)), Client(t.target, t.queue[0].key, t.ip))
  {
    var u := Apply(c, s, Statement(e));
    StatementIsLater(c, s, e);
    MigrationAsks(c, s.system.db, t, e.choice);
    assert TaskOk(c, s, t) && t.queue[0] in QueueOf(t);
    assert Registry.TaskOk(c, s.system.history, s.system.drawn, t);
    hide Registry.MigrateStep;
    hide Registry.Inv;
    hide InClientRange;
    hide EntryOk;
    hide DisjointIps;
    hide Clients;
    var k := Client(t.target, t.queue[0].key, t.ip);
    if t.queue[0].peer in s.system.db.peers {
      RowsAreGranted(c, u, k);
    }
  }

  lemma WantsOfMigration(queue: seq<Registry.Listed>, target: NodeId, ip: nat)
    requires queue != []
    ensures Wants(Registry.MigrateConfigure(queue, target, ip)) == Some(Client(target, queue[0].key, ip))
  {
  }

  /** What a task goes on with is in order again. */
  lemma NextIsOk(c: Config, s: Cluster, e: Registry.Event, t: Registry.Task, o: Registry.Outcome)
    requires Inv(c, s) && e.Advance? && e.slot in s.system.tasks && !DrawsAgain(s, e)
    requires t == s.system.tasks[e.slot] && o == Registry.TaskStep(c, s.system.db, t, e.choice) && o.next.Some?
    ensures TaskOk(c, Apply(c, s, Statement(e)), o.next.value)
  {
    hide Registry.ConnectStep;
    hide Registry.MigrateStep;
    hide Registry.RemoveStep;
    hide Registry.ProvisionStep;
    hide Registry.DestroyStep;
    hide Registry.Inv;
    hide Granted;
    hide QueueOf;
    hide Wants;
    hide Clients;
    hide EntryOk;
    hide DisjointIps;
    var u := Apply(c, s, Statement(e));
    StatementIsLater(c, s, e);
    if Registry.IsConnect(t) {
      ConnectAsks(c, s.system.db, t, e.choice);
      if Wants(o.next.value).Some? {
        RowsAreGranted(c, u, Wants(o.next.value).value);
      }
    } else if t.MigrateList? {
      ListedNow(c, s.system.db, s.names, t, e.choice);
    } else if Registry.IsMigrate(t) {
      QueueShrinks(c, s.system.db, t, e.choice);
      if Wants(o.next.value).Some? {
        WantsOfMigration(t.queue, t.target, t.ip);
        MigrationIsGranted(c, s, e, t);
      }
    } else {
      OthersAskNothing(c, s.system.db, t, e.choice);
    }
  }

  // ---- every change keeps the invariant ----

  lemma StatementKeeps(c: Config, s: Cluster, e: Registry.Event)
    requires Inv(c, s)
    ensures Inv(c, Apply(c, s, Statement(e)))
  {
    hide Registry.TaskStep;
    hide Registry.Inv;
    hide Registry.CanSpawn;
    hide TaskOk;
    hide Granted;
    hide EntryOk;
    hide Clients;
    hide NamesOk;
    hide DisjointIps;
    hide Later;
    if !DrawsAgain(s, e) {
      var u := Apply(c, s, Statement(e));
      StatementIsLater(c, s, e);
      forall slot | slot in u.system.tasks ensures TaskOk(c, u, u.system.tasks[slot]) {
        TaskOfSlot(c, s, e, slot);
      }
      forall k | k in s.sent ensures Granted(c, u, k) {
        GrantedLater(c, s, u, k);
      }
      forall n, k | n in s.tables && k in s.tables[n] ensures EntryOk(c, u, n, k, s.tables[n][k]) {
        EntryLater(c, s, u, n, k, s.tables[n][k]);
      }
    }
  }

  /** A task is as it was, or has gone on, or has just been started and has read nothing. */
  lemma TaskOfSlot(c: Config, s: Cluster, e: Registry.Event, slot: nat)
    requires Inv(c, s) && !DrawsAgain(s, e) && slot in Apply(c, s, Statement(e)).system.tasks
    ensures TaskOk(c, Apply(c, s, Statement(e)), Apply(c, s, Statement(e)).system.tasks[slot])
  {
    hide Registry.TaskStep;
    hide Registry.Inv;
    hide Granted;
    hide EntryOk;
    hide Clients;
    hide NamesOk;
    hide DisjointIps;
    hide Later;
    var u := Apply(c, s, Statement(e));
    StatementIsLater(c, s, e);
    if slot in s.system.tasks && u.system.tasks[slot] == s.system.tasks[slot] {
      TaskLater(c, s, u, s.system.tasks[slot]);
    } else if e.Advance? {
      NextIsOk(c, s, e, s.system.tasks[slot], Registry.TaskStep(c, s.system.db, s.system.tasks[slot], e.choice));
    }
  }

  lemma Shrunk(c: Config, s: Cluster, node: NodeId, key: string, e: Entry, f: Entry)
    requires EntryOk(c, s, node, key, e) && f.ips <= e.ips
    ensures EntryOk(c, s, node, key, f)
  {
    hide Granted;
    hide HostRoute;
    var ip: nat :| IsEntry(c, s, Client(node, key, ip), e);
    assert IsEntry(c, s, Client(node, key, ip), f);
  }

  /** Sending and delivering leave the registry alone. */
  lemma RestStays(c: Config, s: Cluster, u: Cluster)
    requires Inv(c, s) && u.system == s.system && u.names == s.names && u.once == s.once
    ensures Registry.Inv(c, u.system) && NamesOk(u) && Clients(u.system.db) <= u.once
    ensures forall slot :: slot in u.system.tasks ==> TaskOk(c, u, u.system.tasks[slot])
    ensures forall k :: k in s.sent ==> Granted(c, u, k)
    ensures forall n, k :: n in s.tables && k in s.tables[n] ==> EntryOk(c, u, n, k, s.tables[n][k])
  {
    hide Registry.Inv;
    hide Granted;
    hide EntryOk;
    hide TaskOk;
    hide Clients;
    forall slot | slot in u.system.tasks ensures TaskOk(c, u, u.system.tasks[slot]) {
      TaskLater(c, s, u, u.system.tasks[slot]);
    }
    forall k | k in s.sent ensures Granted(c, u, k) {
      GrantedLater(c, s, u, k);
    }
    forall n, k | n in s.tables && k in s.tables[n] ensures EntryOk(c, u, n, k, s.tables[n][k]) {
      EntryLater(c, s, u, n, k, s.tables[n][k]);
    }
  }

  lemma OwnEntry(c: Config, s: Cluster, k: Client, e: Entry)
    requires IsEntry(c, s, k, e)
    ensures EntryOk(c, s, k.node, k.key, e)
  {
    assert k == Client(k.node, k.key, k.ip);
  }

  lemma SetKeepsDisjoint(t: Table, key: string, ip: nat)
    requires ip < ADDRESSES && DisjointIps(t)
    ensures DisjointIps(WgSet(t, ClientConfig(key, ip)))
  {
    hide WgSet;
    hide HostRoute;
    SetTakesOneAddress(t, key, ip);
  }

  /** A command takes effect: its own entry, and its address gone from every other. */
  lemma DeliveryKeeps(c: Config, s: Cluster, k: Client)
    requires Inv(c, s)
    ensures Inv(c, Apply(c, s, Deliver(k)))
  {
    hide Registry.Inv;
    hide HostRoute;
    hide Granted;
    hide EntryOk;
    hide WgSet;
    hide ClientConfig;
    hide TaskOk;
    hide Clients;
    hide DisjointIps;
    if k in s.sent && k.ip < ADDRESSES {
      var before := TableOf(s.tables, k.node);
      var u := Apply(c, s, Deliver(k));
      RestStays(c, s, u);
      EmptyIsDisjoint();
      SetKeepsDisjoint(before, k.key, k.ip);
      forall n, j | n in u.tables && j in u.tables[n] ensures EntryOk(c, u, n, j, u.tables[n][j]) {
        if n == k.node {
          DeliveredEntry(c, u, before, k, j);
        }
      }
    }
  }

  lemma EmptyIsDisjoint()
    ensures DisjointIps(map[])
  {
  }

  lemma DeliveredEntry(c: Config, s: Cluster, before: Table, k: Client, key: string)
    requires k.ip < ADDRESSES && Granted(c, s, k) && key in WgSet(before, ClientConfig(k.key, k.ip))
    requires key in before ==> EntryOk(c, s, k.node, key, before[key])
    ensures EntryOk(c, s, k.node, key, WgSet(before, ClientConfig(k.key, k.ip))[key])
  {
    hide HostRoute;
    hide EntryOk;
    hide Granted;
    hide WgSet;
    hide ClientConfig;
    var after := WgSet(before, ClientConfig(k.key, k.ip));
    SetTakesOneAddress(before, k.key, k.ip);
    if key == k.key {
      OwnEntry(c, s, k, after[key]);
    } else {
      Shrunk(c, s, k.node, key, before[key], after[key]);
    }
  }

  lemma LossKeeps(c: Config, s: Cluster, node: NodeId, key: string)
    requires Inv(c, s)
    ensures Inv(c, Apply(c, s, Lose(node, key)))
  {
    hide Registry.Inv;
    hide Granted;
    hide EntryOk;
    hide TaskOk;
    hide Clients;
    hide NamesOk;
    var u := Apply(c, s, Lose(node, key));
    RestStays(c, s, u);
    hide Inv;
    forall n, j | n in u.tables && j in u.tables[n] ensures EntryOk(c, u, n, j, u.tables[n][j]) {
      assert n in s.tables && u.tables[n][j] == s.tables[n][j];
    }
  }

  lemma SendingKeeps(c: Config, s: Cluster, slot: nat)
    requires Inv(c, s)
    ensures Inv(c, Apply(c, s, Send(slot)))
  {
    hide Registry.Inv;
    hide Granted;
    hide EntryOk;
    hide Clients;
    hide NamesOk;
    hide DisjointIps;
    RestStays(c, s, Apply(c, s, Send(slot)));
  }

  lemma ChangeKeeps(c: Config, s: Cluster, change: Change)
    requires Inv(c, s)
    ensures Inv(c, Apply(c, s, change))
  {
    hide Inv;
    hide Apply;
    match change
    case Statement(e) => StatementKeeps(c, s, e);
    case Send(slot) => SendingKeeps(c, s, slot);
    case Deliver(k) => DeliveryKeeps(c, s, k);
    case Lose(node, key) => LossKeeps(c, s, node, key);
  }

  lemma {:induction false} RunKeeps(c: Config, changes: seq<Change>)
    ensures Inv(c, ApplyAll(c, changes))
    decreases |changes|
  {
    if changes == [] {
    } else {
      RunKeeps(c, changes[..|changes| - 1]);
      ChangeKeeps(c, ApplyAll(c, changes[..|changes| - 1]), changes[|changes| - 1]);
    }
  }

  // ---- what a row leads to ----

  /** A command sent for a client and delivered: the client's entry on its node, that address in
      no other entry there, all other nodes as they were. */
  ghost predicate Added(before: map<NodeId, Table>, after: map<NodeId, Table>, k: Client)
    requires k.ip < ADDRESSES
  {
    && k.node in after && k.key in after[k.node] && after[k.node][k.key].ips == {HostRoute(k.ip)}
    && (forall j :: j in after[k.node] && j != k.key ==> HostRoute(k.ip) !in after[k.node][j].ips)
    && (forall n :: n != k.node ==> TableOf(after, n) == TableOf(before, n))
  }

  lemma DeliveredIsAdded(c: Config, s: Cluster, k: Client)
    requires k in s.sent && k.ip < ADDRESSES
    ensures Added(s.tables, Apply(c, s, Deliver(k)).tables, k)
  {
    hide HostRoute;
    hide WgSet;
    hide ClientConfig;
    SetTakesOneAddress(TableOf(s.tables, k.node), k.key, k.ip);
  }

  /** A lost entry is the only thing lost. */
  lemma LostIsGone(c: Config, s: Cluster, node: NodeId, key: string)
    ensures var after := Apply(c, s, Lose(node, key));
            && TableOf(after.tables, node) == TableOf(s.tables, node) - {key}
            && (forall n :: n != node ==> TableOf(after.tables, n) == TableOf(s.tables, n))
            && after == s.(tables := after.tables)
  {
  }

  /** When a worker has stored its row, its next command asks the chosen node for exactly the
      row's key and address, and the command's delivery makes that entry. */
  lemma StoredClientIsAdded(c: Config, s: Cluster, slot: nat, key: string, node: NodeId, ip: nat, peer: PeerId)
    requires slot in s.system.tasks && s.system.tasks[slot] == Registry.ConnectInsert(key, node, ip)
    requires peer !in s.names && ip < ADDRESSES
    requires InsertPeer(s.system.db, peer, PeerRow(node, key, ip, PeerActive)).Some?
    ensures var ch := Registry.Choice(true, peer, [], NodeRow(Active, "", ""));
            var stored := Apply(c, s, Statement(Registry.Advance(slot, ch)));
            var asked := Apply(c, stored, Send(slot));
            var added := Apply(c, asked, Deliver(Client(node, key, ip)));
            && peer in stored.system.db.peers && stored.system.db.peers[peer] == PeerRow(node, key, ip, PeerActive)
            && asked.sent == s.sent + {Client(node, key, ip)}
            && Added(s.tables, added.tables, Client(node, key, ip))
  {
    hide HostRoute;
    hide WgSet;
    hide ClientConfig;
    hide IpInUse;
    hide IdentifierInUse;
    var ch := Registry.Choice(true, peer, [], NodeRow(Active, "", ""));
    var stored := Apply(c, s, Statement(Registry.Advance(slot, ch)));
    DeliveredIsAdded(c, Apply(c, stored, Send(slot)), Client(node, key, ip));
  }

  /** So does a migration when it has moved a row. */
  lemma MovedClientIsAdded(c: Config, s: Cluster, slot: nat, queue: seq<Registry.Listed>, target: NodeId, ip: nat)
    requires slot in s.system.tasks && s.system.tasks[slot] == Registry.MigrateUpdate(queue, target, ip)
    requires queue != [] && queue[0].peer in s.system.db.peers && ip < ADDRESSES
    requires UpdatePeerNode(s.system.db, queue[0].peer, target, ip).Some?
    ensures var ch := Registry.Choice(true, "", [], NodeRow(Active, "", ""));
            var moved := Apply(c, s, Statement(Registry.Advance(slot, ch)));
            var asked := Apply(c, moved, Send(slot));
            var added := Apply(c, asked, Deliver(Client(target, queue[0].key, ip)));
            && moved.system.db.peers[queue[0].peer] == s.system.db.peers[queue[0].peer].(node := target, ip := ip)
            && asked.sent == s.sent + {Client(target, queue[0].key, ip)}
            && Added(s.tables, added.tables, Client(target, queue[0].key, ip))
  {
    hide HostRoute;
    hide WgSet;
    hide ClientConfig;
    var ch := Registry.Choice(true, "", [], NodeRow(Active, "", ""));
    var moved := Apply(c, s, Statement(Registry.Advance(slot, ch)));
    DeliveredIsAdded(c, Apply(c, moved, Send(slot)), Client(target, queue[0].key, ip));
  }

  // ---- the node tables in every run ----

  /** All addresses a node routes to clients. */
  function Routed(t: Table): set<string> {
    set k, ip | k in t && ip in t[k].ips :: ip
  }

  /** In every run, whatever is interleaved, fails, is lost or arrives late: an entry of a node
      holds no address but one of the network its node was given, no address belongs to two
      entries, and for the entry's key there once was just this peer row, unless the key's peer
      row has gone for good. */
  lemma EveryEntryIsAccountedFor(c: Config, changes: seq<Change>, node: NodeId, key: string)
    requires key in TableOf(ApplyAll(c, changes).tables, node)
    ensures var s := ApplyAll(c, changes);
            && DisjointIps(s.tables[node])
            && exists ip: nat :: ip < ADDRESSES && s.tables[node][key].ips <= {HostRoute(ip)}
                 && Registry.Holds(c, s.system.history, node, ip) && Accounted(s, Client(node, key, ip))
  {
    RunKeeps(c, changes);
    var s := ApplyAll(c, changes);
    assert EntryOk(c, s, node, key, s.tables[node][key]);
    var ip: nat :| IsEntry(c, s, Client(node, key, ip), s.tables[node][key]);
    assert ip < ADDRESSES;
  }

  /** In every run, nodes that hold subnets never route the same address. */
  lemma NoAddressOnTwoNodes(c: Config, changes: seq<Change>, m: NodeId, n: NodeId)
    requires var s := ApplyAll(c, changes); m in s.system.db.subnets && n in s.system.db.subnets && m != n
    ensures var s := ApplyAll(c, changes); Routed(TableOf(s.tables, m)) !! Routed(TableOf(s.tables, n))
  {
    RunKeeps(c, changes);
    var s := ApplyAll(c, changes);
    if text :| text in Routed(TableOf(s.tables, m)) && text in Routed(TableOf(s.tables, n)) {
      var a := RoutedAddress(c, s, m, text);
      var b := RoutedAddress(c, s, n, text);
      HostRouteInjective(a, b);
      Agreement.RangesApart(c, s.system.db, s.system.history, s.system.drawn, m, n, a);
    }
  }

  lemma RoutedAddress(c: Config, s: Cluster, node: NodeId, text: string) returns (ip: nat)
    requires Inv(c, s) && text in Routed(TableOf(s.tables, node)) && node in s.system.db.subnets
    ensures ip < ADDRESSES && text == HostRoute(ip) && InClientRange(c, s.system.db.subnets[node], ip)
  {
    var key :| key in s.tables[node] && text in s.tables[node][key].ips;
    assert EntryOk(c, s, node, key, s.tables[node][key]);
    ip :| IsEntry(c, s, Client(node, key, ip), s.tables[node][key]);
  }
}
