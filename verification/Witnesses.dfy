/** Runs of the code's own operations that lead where one would not expect them: a search that
    finds an address that is taken, after a cleanup has released the subnet of a node with a
    client; a migration that asks a node for an entry that no peer row stands for; and a block
    that an interrupted provisioning keeps. */
module Witnesses {
  import opened Network
  import opened Allocator
  import opened Placement
  import opened Tables
  import opened Registry
  import opened Agreement
  import opened Text
  import Ipv4
  import Migration
  import NodeTables
  import Cleanup
  import Connections
  import Disconnection
  import Refinement
  import Services
  import WireGuard

  const LOOKUP_OK: NodeId -> bool := _ => true
  const RELEASE_OK: NodeId -> Services.ReleaseFaults := _ => Services.ReleaseFaults(true, true)

  const FIRST := "node-1"
  const SECOND := "node-2"
  const CLIENT := "peer-1"

  const FIRST_KEY := "BBBBBBBBBBBBBBBBBBBBBBBBBBBBBBBBBBBBBBBBBBB="
  const SECOND_KEY := "CCCCCCCCCCCCCCCCCCCCCCCCCCCCCCCCCCCCCCCCCCC="

  /** The row of a node with its server and its WireGuard key. */
  function Row(id: NodeId, status: NodeStatus): NodeRow {
    if id == FIRST then NodeRow(status, "1", FIRST_KEY) else NodeRow(status, "2", SECOND_KEY)
  }

  function ClientRow(ip: nat): PeerRow {
    PeerRow(FIRST, Connections.KEY, ip, PeerActive)
  }

  /** A node's row written, as by a health check. */
  lemma Writing(c: Config, db: Db, h: map<NodeId, nat>, drawn: set<NodeId>, id: NodeId, row: NodeRow)
    requires Reachable(c, Quiet(db, h, drawn)) && id in db.nodes && !KeyTaken(db, id, row.publicKey)
    ensures Reachable(c, Quiet(db.(nodes := db.nodes[id := row]), h, drawn))
  {
    hide Reachable;
    hide ConnectStep;
    hide RemoveStep;
    hide MigrateStep;
    hide ProvisionStep;
    Spawned(c, db, WriteNode(id), h, drawn);
    Advanced(c, db, WriteNode(id), h, drawn, Yes(id).(row := row));
  }

  /** The end of a provisioning: server details and activation. */
  lemma Activating(c: Config, db: Db, h: map<NodeId, nat>, drawn: set<NodeId>, id: NodeId)
    requires Reachable(c, Busy(db, ProvisionCloud(id), h, drawn)) && id in db.nodes
    requires !KeyTaken(db, id, Row(id, Active).publicKey)
    ensures Reachable(c, Quiet(db.(nodes := db.nodes[id := Row(id, Active)]), h, drawn))
  {
    hide Reachable;
    hide ConnectStep;
    hide RemoveStep;
    hide MigrateStep;
    hide DestroyStep;
    hide Row;
    var row := Row(id, Active);
    var detailed := db.(nodes := db.nodes[id := row.(status := Provisioning)]);
    RowStatus(id);
    Advanced(c, db, ProvisionCloud(id), h, drawn, Yes(id));
    Advanced(c, db, ProvisionDetails(id), h, drawn, Yes(id).(row := row));
    Advanced(c, detailed, ProvisionReady(id), h, drawn, Yes(id));
    SameTaken(db, detailed, id, row.publicKey);
    Advanced(c, detailed, ProvisionActivate(id), h, drawn, Yes(id).(row := row));
    assert detailed.nodes[id := row] == db.nodes[id := row];
  }

  lemma RowStatus(id: NodeId)
    ensures Row(id, Active).status == Active
  {
  }

  lemma SameTaken(a: Db, b: Db, id: NodeId, key: string)
    requires forall n :: n != id ==> (n in a.nodes <==> n in b.nodes) && (n in a.nodes ==> a.nodes[n] == b.nodes[n])
    ensures KeyTaken(a, id, key) == KeyTaken(b, id, key)
  {
  }

  /** The first client of a node. */
  lemma Connecting(c: Config, db: Db, h: map<NodeId, nat>, drawn: set<NodeId>)
    requires Reachable(c, Quiet(db, h, drawn)) && FIRST in db.nodes && db.nodes[FIRST].status == Active
    requires FIRST in db.subnets && db.peers == map[] && Services.Placed(c, db)
    ensures Reachable(c, Quiet(db.(peers := map[CLIENT := ClientRow(RangeStart(db.subnets[FIRST]))]), h, drawn))
  {
    hide Reachable;
    hide WireGuard.IsValidKey;
    hide WireGuard.AddResult;
    hide PickIp;
    hide TrimSpace;
    hide Services.Placed;
    var ip := RangeStart(db.subnets[FIRST]);
    assert IpsOn(db, FIRST) == {};
    FirstAddress(c, db.subnets[FIRST]);
    Connections.KeyIsValid();
    NotBlank();
    var i := WireGuard.Interface("", "", "");
    var site := Connections.Site(db, map[]);
    Refinement.ConnectionIsARun(c, i, site, h, drawn, FIRST, Connections.KEY, CLIENT, Disconnection.ALL_WELL);
    Connections.ClientIpIsAddress(c, db, FIRST, Connections.ALL_READS);
    Connections.AddedEntry(i, map[], Connections.KEY, ip, WireGuard.NO_FAULTS);
    EmptyTableTakes(i, ip);
    assert map[][CLIENT := ClientRow(ip)] == map[CLIENT := ClientRow(ip)];
    assert Connections.Connect(c, i, site, FIRST, Connections.KEY, CLIENT, Disconnection.ALL_WELL).site.db
        == db.(peers := map[CLIENT := ClientRow(ip)]);
  }

  lemma NotBlank()
    ensures TrimSpace(FIRST) != ""
  {
  }

  lemma EmptyTableTakes(i: WireGuard.Interface, ip: nat)
    requires ip < Ipv4.ADDRESSES && i == WireGuard.Interface("", "", "")
    ensures WireGuard.AddResult(i, map[], Connections.ClientConfig(Connections.KEY, ip), WireGuard.NO_FAULTS).ok
  {
    Connections.KeyIsValid();
    Connections.ClientConfigIsValid(Connections.KEY, ip);
    hide WireGuard.IsValidKey;
    hide Connections.HostRoute;
  }

  /** The first node alone, with its block. */
  function One(row: NodeRow, n: nat, peers: map<PeerId, PeerRow>): Db {
    Db(map[FIRST := row], map[FIRST := n], peers)
  }

  lemma FirstNode(c: Config, n: nat)
    requires PickNetwork(c, {}) == Some(n)
    ensures Reachable(c, Quiet(One(Row(FIRST, Active), n, map[]), map[FIRST := n], {FIRST}))
  {
    hide Reachable;
    hide PickNetwork;
    StartIsReachable(c);
    Recording(c, EMPTY, map[], {}, FIRST);
    var recorded := EMPTY.(nodes := EMPTY.nodes[FIRST := NodeRow(Provisioning, "", FIRST)]);
    assert UsedNetworks(recorded) == {};
    Placing(c, recorded, map[], {} + {FIRST}, FIRST);
    var placed := recorded.(subnets := recorded.subnets[FIRST := n]);
    assert {} + {FIRST} == {FIRST} && map[][FIRST := n] == map[FIRST := n];
    Activating(c, placed, map[FIRST := n], {FIRST}, FIRST);
    assert placed.(nodes := placed.nodes[FIRST := Row(FIRST, Active)]) == One(Row(FIRST, Active), n, map[]);
  }

  lemma StartIsReachable(c: Config)
    ensures Reachable(c, Quiet(EMPTY, map[], {}))
  {
    assert Run(c, START, []) == START;
  }

  /** A client connects, then a health check finds the node unhealthy. */
  lemma Unhealthy(c: Config, n: nat)
    requires Reachable(c, Quiet(One(Row(FIRST, Active), n, map[]), map[FIRST := n], {FIRST}))
    ensures Reachable(c, Quiet(One(Row(FIRST, Tables.Unhealthy), n, map[CLIENT := ClientRow(RangeStart(n))]),
                               map[FIRST := n], {FIRST}))
  {
    hide Reachable;
    var db := One(Row(FIRST, Active), n, map[]);
    Refinement.ReachedIsSafe(c, Quiet(db, map[FIRST := n], {FIRST}));
    hide TablesOk;
    hide Services.Placed;
    hide Safe;
    Connecting(c, db, map[FIRST := n], {FIRST});
    var peers := map[CLIENT := ClientRow(RangeStart(n))];
    Writing(c, One(Row(FIRST, Active), n, peers), map[FIRST := n], {FIRST}, FIRST, Row(FIRST, Tables.Unhealthy));
    assert map[FIRST := Row(FIRST, Active)][FIRST := Row(FIRST, Tables.Unhealthy)] == map[FIRST := Row(FIRST, Tables.Unhealthy)];
  }

  /** A cleanup of unused subnets takes the node's block; its client stays. */
  lemma Cleaning(c: Config, n: nat, peers: map<PeerId, PeerRow>)
    requires Reachable(c, Quiet(One(Row(FIRST, Tables.Unhealthy), n, peers), map[FIRST := n], {FIRST}))
    ensures var db := One(Row(FIRST, Tables.Unhealthy), n, peers);
            var after := db.(subnets := db.subnets - Cleanup.Released(db, LOOKUP_OK, RELEASE_OK));
            && after == Db(map[FIRST := Row(FIRST, Tables.Unhealthy)], map[], peers)
            && Reachable(c, Quiet(after, map[FIRST := n], {FIRST}))
  {
    hide Reachable;
    var db := One(Row(FIRST, Tables.Unhealthy), n, peers);
    Refinement.UnusedSubnetCleanupIsARun(c, db, map[FIRST := n], {FIRST}, LOOKUP_OK, RELEASE_OK);
    assert Cleanup.Releases(db, FIRST, LOOKUP_OK, RELEASE_OK);
    assert Cleanup.Released(db, LOOKUP_OK, RELEASE_OK) == {FIRST};
  }

  /** Both nodes, the second one with the block the first one had. */
  function Both(n: nat, peers: map<PeerId, PeerRow>): Db {
    Db(map[FIRST := Row(FIRST, Tables.Unhealthy)][SECOND := Row(SECOND, Active)], map[SECOND := n], peers)
  }

  lemma SecondNode(c: Config, n: nat, peers: map<PeerId, PeerRow>)
    requires PickNetwork(c, {}) == Some(n)
    requires Reachable(c, Quiet(Db(map[FIRST := Row(FIRST, Tables.Unhealthy)], map[], peers), map[FIRST := n], {FIRST}))
    ensures Reachable(c, Quiet(Both(n, peers), map[FIRST := n][SECOND := n], {FIRST} + {SECOND}))
  {
    hide Reachable;
    hide PickNetwork;
    var db, h := Db(map[FIRST := Row(FIRST, Tables.Unhealthy)], map[], peers), map[FIRST := n];
    assert FIRST != SECOND by {
      assert FIRST[5] != SECOND[5];
    }
    KeysDiffer();
    Recording(c, db, h, {FIRST}, SECOND);
    var recorded := db.(nodes := db.nodes[SECOND := NodeRow(Provisioning, "", SECOND)]);
    assert UsedNetworks(recorded) == {};
    Placing(c, recorded, h, {FIRST} + {SECOND}, SECOND);
    var placed := recorded.(subnets := recorded.subnets[SECOND := n]);
    Activating(c, placed, h[SECOND := n], {FIRST} + {SECOND}, SECOND);
    assert placed.nodes[SECOND := Row(SECOND, Active)] == Both(n, peers).nodes;
    assert map[][SECOND := n] == map[SECOND := n];
  }

  lemma KeysDiffer()
    ensures Row(FIRST, Tables.Unhealthy).publicKey != Row(SECOND, Active).publicKey
    ensures Row(FIRST, Tables.Unhealthy).publicKey != SECOND
  {
    assert FIRST[5] != SECOND[5];
    assert FIRST_KEY[0] == 'B' && SECOND_KEY[0] == 'C' && SECOND[0] == 'n';
  }

  lemma FirstBlock(c: Config) returns (n: nat)
    requires BaseAligned(c)
    ensures PickNetwork(c, {}) == Some(n)
  {
    BlocksTileBase(c);
    BlockCounts(c);
    assert BlockFits(c, 0);
    n := BlockAddress(c, 0);
    assert FirstUnused(c, {}, 0) == Some(0);
  }

  lemma SameBlock(c: Config, n: nat)
    ensures var db := Both(n, map[CLIENT := ClientRow(RangeStart(n))]);
            && Services.ClientIp(c, db, SECOND, Connections.ALL_READS) == Some(RangeStart(n)) && IpInUse(db, RangeStart(n))
  {
    hide PickIp;
    var db := Both(n, map[CLIENT := ClientRow(RangeStart(n))]);
    assert FIRST[5] != SECOND[5];
    assert IpsOn(db, SECOND) == {};
    FirstAddress(c, n);
    assert db.peers[CLIENT].ip == RangeStart(n);
  }

  /** The three states of the run. */
  function Before(n: nat): System {
    Quiet(One(Row(FIRST, Tables.Unhealthy), n, map[CLIENT := ClientRow(RangeStart(n))]), map[FIRST := n], {FIRST})
  }

  function Cleaned(n: nat): System {
    Quiet(Db(map[FIRST := Row(FIRST, Tables.Unhealthy)], map[], map[CLIENT := ClientRow(RangeStart(n))]),
          map[FIRST := n], {FIRST})
  }

  function After(n: nat): System {
    Quiet(Both(n, map[CLIENT := ClientRow(RangeStart(n))]), map[FIRST := n][SECOND := n], {FIRST} + {SECOND})
  }

  lemma Sequel(c: Config, n: nat)
    requires PickNetwork(c, {}) == Some(n)
    ensures Reachable(c, Before(n)) && Reachable(c, Cleaned(n)) && Reachable(c, After(n))
    ensures var db := Before(n).db;
            Cleaned(n).db == db.(subnets := db.subnets - Cleanup.Released(db, LOOKUP_OK, RELEASE_OK))
  {
    hide Reachable;
    hide PickNetwork;
    var peers := map[CLIENT := ClientRow(RangeStart(n))];
    FirstNode(c, n);
    Unhealthy(c, n);
    Cleaning(c, n, peers);
    SecondNode(c, n, peers);
  }

  /** With every aligned base: a node is provisioned, a client with a valid key connects, a
      health check marks the node unhealthy, the cleanup of unused subnets takes its block, a
      second node is provisioned and gets the same block; now the search on that active node
      finds the address the client still holds. */
  lemma ReleasedSubnetConflicts(c: Config) returns (before: System, cleaned: System, s: System)
    requires BaseAligned(c)
    ensures Reachable(c, before) && Reachable(c, cleaned) && Reachable(c, s)
    ensures Cleanup.IsInactive(before.db, FIRST) && FIRST in before.db.subnets
    ensures cleaned.db == before.db.(subnets := before.db.subnets - Cleanup.Released(before.db, LOOKUP_OK, RELEASE_OK))
    ensures s.tasks == map[] && SECOND in s.db.nodes && s.db.nodes[SECOND].status == Active
    ensures forall p :: p in s.db.peers ==> WireGuard.IsValidKey(s.db.peers[p].identifier)
    ensures Services.ClientIp(c, s.db, SECOND, Connections.ALL_READS).Some?
    ensures IpInUse(s.db, Services.ClientIp(c, s.db, SECOND, Connections.ALL_READS).value)
  {
    hide Reachable;
    var n := FirstBlock(c);
    Sequel(c, n);
    before, cleaned, s := Before(n), Cleaned(n), After(n);
    SameBlock(c, n);
    Connections.KeyIsValid();
    hide WireGuard.IsValidKey;
  }

  // ---- a peer that vanishes while it is moved ----

  /** Another task deletes a peer row between two statements of this one. */
  lemma Vanishing(c: Config, db: Db, t: Task, h: map<NodeId, nat>, drawn: set<NodeId>, peer: PeerId)
    requires Reachable(c, Busy(db, t, h, drawn)) && peer in db.peers
    ensures Reachable(c, Busy(DeletePeer(db, peer), t, h, drawn))
  {
    hide Reachable;
    hide UpdatePeerStatus;
    hide DeletePeer;
    var s := Busy(db, t, h, drawn);
    var marking := s.(tasks := s.tasks[1 := RemoveMark(peer)]);
    var deleting := s.(tasks := s.tasks[1 := RemoveDelete(peer)]);
    StepReaches(c, s, Spawn(1, RemoveGet(peer)));
    Removing(c, s, RemoveGet(peer), RemoveMark(peer), Yes(""));
    Removing(c, s, RemoveMark(peer), RemoveDelete(peer), Refinement.No());
    StepReaches(c, deleting, Advance(1, Yes("")));
    assert deleting.tasks - {1} == s.tasks;
    assert Step(c, deleting, Advance(1, Yes(""))) == Busy(DeletePeer(db, peer), t, h, drawn);
  }

  lemma Removing(c: Config, s: System, t: Task, u: Task, ch: Choice)
    requires Reachable(c, s.(tasks := s.tasks[1 := t])) && (t.RemoveGet? || t.RemoveMark?)
    requires RemoveStep(s.db, t, ch) == Continue(s.db, u)
    ensures Reachable(c, s.(tasks := s.tasks[1 := u]))
  {
    hide Reachable;
    hide RemoveStep;
    var at := s.(tasks := s.tasks[1 := t]);
    StepReaches(c, at, Advance(1, ch));
    assert (at.tasks - {1})[1 := u] == s.tasks[1 := u];
  }

  /** The row statement of a migration changes nothing for a vanished peer, without an error. */
  lemma MovingNobody(c: Config, db: Db, h: map<NodeId, nat>, drawn: set<NodeId>, queue: seq<Listed>, target: NodeId, ip: nat)
    requires Reachable(c, Busy(db, MigrateUpdate(queue, target, ip), h, drawn))
    requires queue != [] && queue[0].peer !in db.peers
    ensures Reachable(c, Busy(db, MigrateConfigure(queue, target, ip), h, drawn))
  {
    hide Reachable;
    hide ConnectStep;
    hide RemoveStep;
    hide ProvisionStep;
    hide DestroyStep;
    Advanced(c, db, MigrateUpdate(queue, target, ip), h, drawn, Yes(""));
  }

  /** With every aligned base there is a run in which a migration is about to ask a node for the
      entry of a peer that no row knows any more: its row was deleted after the migration had
      read it, and the statement that should have moved it reported no error. */
  lemma VanishedPeerIsAskedFor(c: Config) returns (s: System, client: NodeTables.Client)
    requires BaseAligned(c)
    ensures Reachable(c, s) && s.tasks.Keys == {0} && NodeTables.Wants(s.tasks[0]) == Some(client)
    ensures s.db.peers == map[] && client.node in s.db.subnets && InClientRange(c, s.db.subnets[client.node], client.ip)
    ensures WireGuard.IsValidKey(client.key) && client.node in s.db.nodes && s.db.nodes[client.node].status == Active
  {
    hide Reachable;
    hide Services.MovePeer;
    hide PickIp;
    hide TaskStep;
    var n := FirstBlock(c);
    Sequel(c, n);
    var db, h, drawn := After(n).db, After(n).history, After(n).drawn;
    var queue, ip := [Listed(CLIENT, Connections.KEY)], RangeStart(n);
    assert FIRST[5] != SECOND[5];
    ListingTheClient(c, n);
    SameBlock(c, n);
    ClientCanMove(n);
    Refinement.ChoosingIsARun(c, db, h, drawn, queue, SECOND, ip, ALL_MOVES);
    Vanishing(c, db, MigrateUpdate(queue, SECOND, ip), h, drawn, CLIENT);
    var gone := DeletePeer(db, CLIENT);
    assert gone.peers == map[];
    MovingNobody(c, gone, h, drawn, queue, SECOND, ip);
    s, client := Busy(gone, MigrateConfigure(queue, SECOND, ip), h, drawn), NodeTables.Client(SECOND, Connections.KEY, ip);
    FirstAddress(c, n);
    FirstInRange(c, n);
    Connections.KeyIsValid();
    hide WireGuard.IsValidKey;
    hide InClientRange;
  }

  lemma FirstInRange(c: Config, n: nat)
    requires PickIp(c, n, {}) == Some(RangeStart(n))
    ensures InClientRange(c, n, RangeStart(n))
  {
    PickedInRange(c, n, {});
  }

  const ALL_MOVES := Migration.PeerFaults(
    Connections.ALL_READS, Services.MoveFaults(true, true, true, true), true, WireGuard.NO_FAULTS, true, WireGuard.NO_REMOVE_FAULTS)

  lemma ListingTheClient(c: Config, n: nat)
    requires Reachable(c, After(n))
    ensures Reachable(c, Busy(After(n).db, MigrateSubnet([Listed(CLIENT, Connections.KEY)], SECOND), After(n).history, After(n).drawn))
  {
    hide Reachable;
    assert (set p | p in [CLIENT]) == ActiveOn(After(n).db, FIRST);
    Refinement.ListingIsARun(c, After(n).db, After(n).history, After(n).drawn, FIRST, SECOND, [CLIENT]);
    assert Listing(After(n).db, [CLIENT]) == [Listed(CLIENT, Connections.KEY)];
  }

  lemma ClientCanMove(n: nat)
    ensures Services.MovePeer(After(n).db, CLIENT, SECOND, RangeStart(n), ALL_MOVES.move).ok
  {
    assert FIRST[5] != SECOND[5];
    assert SECOND[0] == 'n' && TrimSpace(SECOND) != "";
  }

  // ---- a provisioning that is interrupted ----

  /** With every aligned base there is a run in which a restart stops a provisioning between its
      subnet row and its server: no task knows of it any more, it still holds the block, and no
      cleanup ever takes it. */
  lemma RestartStrandsBlock(c: Config) returns (s: System)
    requires BaseAligned(c)
    ensures Reachable(c, s) && s.tasks == map[]
    ensures FIRST in s.db.nodes && s.db.nodes[FIRST].status == Tables.Provisioning && FIRST in s.db.subnets
    ensures forall lookupOk, faults :: FIRST !in Cleanup.Released(s.db, lookupOk, faults)
    ensures forall countOk, isOld :: FIRST !in Cleanup.Orphans(s.db, countOk, isOld)
  {
    hide Reachable;
    hide PickNetwork;
    var n := FirstBlock(c);
    StartIsReachable(c);
    Recording(c, EMPTY, map[], {}, FIRST);
    var recorded := EMPTY.(nodes := EMPTY.nodes[FIRST := NodeRow(Tables.Provisioning, "", FIRST)]);
    assert UsedNetworks(recorded) == {};
    Placing(c, recorded, map[], {} + {FIRST}, FIRST);
    var placed := recorded.(subnets := recorded.subnets[FIRST := n]);
    s := Quiet(placed, map[][FIRST := n], {} + {FIRST});
    Interrupted(c, placed, ProvisionCloud(FIRST), map[][FIRST := n], {} + {FIRST});
  }

  lemma Interrupted(c: Config, db: Db, t: Task, h: map<NodeId, nat>, drawn: set<NodeId>)
    requires Reachable(c, Busy(db, t, h, drawn))
    ensures Reachable(c, Quiet(db, h, drawn))
  {
    StepReaches(c, Busy(db, t, h, drawn), Restart);
  }
}
