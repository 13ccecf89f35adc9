/** internal/rotator/services/provisioning_service.go: provisioning a node with its rollback,
    and destroying one, over the tables and the set of cloud servers that exist. */
module Provisioning {
  import opened Network
  import opened Allocator
  import opened Placement
  import opened Tables
  import opened Text
  import opened Services
  import WireGuard

  datatype World = World(db: Db, servers: set<string>)

  /** What a provisioning draws: its node identifier from the clock, the server identifier from
      the cloud and the public key of a new key pair. */
  datatype Draw = Draw(id: NodeId, server: string, publicKey: string)

  /** The cloud provisioner creates, waits, checks, and cleans up a server it finds unhealthy. A
      creation whose report is lost has made a server that nobody knows of. */
  datatype CloudFaults = CloudFaults(create: WireGuard.Command, healthOk: bool, cleanupOk: bool)

  datatype ProvisionFaults = ProvisionFaults(
    recordOk: bool, allocate: AllocateFaults, cloud: CloudFaults, detailsOk: bool, readyOk: bool, activateOk: bool,
    destroyOk: bool, release: ReleaseFaults, deleteOk: bool)

  datatype Phase = RecordFailed | SubnetFailed | CloudFailed | DetailsFailed | ReadinessFailed | ActivationFailed | Completed

  datatype Provisioned = Provisioned(world: World, phase: Phase)

  /** What the rollback record has noted so far. */
  datatype Noted = Noted(server: string, subnet: bool)

  const NOTHING := Noted("", false)

  function Launch(servers: set<string>, server: string, f: CloudFaults): set<string> {
    if f.create.Failed? then servers
    else if f.create.Lost? || f.healthOk || !f.cleanupOk then servers + {server}
    else servers - {server}
  }

  /** `provisioningRollback.execute`: server, subnet, record, each best effort. */
  function RolledBack(w: World, id: NodeId, n: Noted, f: ProvisionFaults): World {
    var servers := if n.server != "" && f.destroyOk then w.servers - {n.server} else w.servers;
    var released := if n.subnet then ReleaseSubnet(w.db, id, f.release).db else w.db;
    World(if f.deleteOk then DeleteNode(released, id) else released, servers)
  }

  function Failed(cleanup: bool, w: World, id: NodeId, n: Noted, f: ProvisionFaults, phase: Phase): (r: Provisioned)
    ensures r.phase == phase
  {
    Provisioned(if cleanup then RolledBack(w, id, n, f) else w, phase)
  }

  /** `provisionNode`: record, subnet, server, details, readiness, activation. */
  function Provision(c: Config, cleanup: bool, w: World, d: Draw, f: ProvisionFaults): Provisioned {
    var record := InsertNode(w.db, d.id, NodeRow(Provisioning, "", d.id));
    if !f.recordOk || record.None? then Provisioned(w, RecordFailed)
    else
      var a := AllocateSubnet(c, record.value, d.id, f.allocate);
      if a.network.None? then Failed(cleanup, w.(db := a.db), d.id, NOTHING, f, SubnetFailed)
      else
        var launched := World(a.db, Launch(w.servers, d.server, f.cloud));
        if !f.cloud.create.Done? || !f.cloud.healthOk then Failed(cleanup, launched, d.id, Noted("", true), f, CloudFailed)
        else Finish(cleanup, launched, d, f)
  }

  /** The phases after the server has been created. */
  function Finish(cleanup: bool, w: World, d: Draw, f: ProvisionFaults): Provisioned {
    var n := Noted(d.server, true);
    var details := UpdateNode(w.db, d.id, NodeRow(Provisioning, d.server, d.publicKey));
    if !f.detailsOk || details.None? then Failed(cleanup, w, d.id, n, f, DetailsFailed)
    else if !f.readyOk then Failed(cleanup, w.(db := details.value), d.id, n, f, ReadinessFailed)
    else
      var active := UpdateNode(details.value, d.id, NodeRow(Active, d.server, d.publicKey));
      if !f.activateOk || active.None? then Failed(cleanup, w.(db := details.value), d.id, n, f, ActivationFailed)
      else Provisioned(w.(db := active.value), Completed)
  }

  // ---- what provisioning leaves ----

  /** Identifiers are new: node identifiers and server identifiers are never used twice. */
  predicate IsFresh(w: World, d: Draw) {
    d.id !in w.db.nodes && d.server !in w.servers && d.server != "" && Owned(w.db)
  }

  /** Nothing of the tables differs but this node's rows, and of the servers but this one. */
  predicate OnlyThisNode(before: World, after: World, d: Draw) {
    && after.db.peers == before.db.peers
    && after.db.nodes - {d.id} == before.db.nodes
    && after.db.subnets - {d.id} == before.db.subnets
    && after.servers - {d.server} == before.servers
  }

  /** A server is left that the service does not use: its creation was not reported, it was found
      unhealthy and not destroyed, or the rollback did not run or could not destroy it. */
  predicate Leaks(cleanup: bool, phase: Phase, f: ProvisionFaults) {
    match phase
    case RecordFailed => false
    case SubnetFailed => false
    case CloudFailed => f.cloud.create.Lost? || (f.cloud.create.Done? && !f.cloud.cleanupOk)
    case _ => !cleanup || !f.destroyOk
  }

  /** Releasing touches no row but this node's subnet, and deleting the node row restores the
      tables, released or not. */
  lemma RollbackOfRows(before: Db, after: Db, id: NodeId, n: Noted, f: ProvisionFaults)
    requires Owned(before) && id !in before.nodes
    requires after.peers == before.peers && after.nodes - {id} == before.nodes && after.subnets - {id} == before.subnets
    requires id in after.nodes
    ensures var released := if n.subnet then ReleaseSubnet(after, id, f.release).db else after;
            && released.peers == before.peers && released.nodes == after.nodes
            && released.subnets - {id} == before.subnets && DeleteNode(released, id) == before
  {
    var released := if n.subnet then ReleaseSubnet(after, id, f.release).db else after;
    assert after.subnets - {id} - {id} == after.subnets - {id};
    assert PeersOn(released, id) == {};
    assert before.peers - {} == before.peers;
  }

  lemma RollbackRestores(before: World, w: World, d: Draw, n: Noted, f: ProvisionFaults)
    requires IsFresh(before, d) && OnlyThisNode(before, w, d) && d.id in w.db.nodes
    requires n.server in {"", d.server}
    ensures var r := RolledBack(w, d.id, n, f);
            && OnlyThisNode(before, r, d)
            && (d.id in r.db.nodes <==> !f.deleteOk) && (f.deleteOk ==> r.db == before.db)
            && (d.server in r.servers <==> d.server in w.servers && !(n.server != "" && f.destroyOk))
  {
    RollbackOfRows(before.db, w.db, d.id, n, f);
    var r := RolledBack(w, d.id, n, f);
    assert before.db.nodes - {d.id} == before.db.nodes;
    assert before.db.subnets - {d.id} == before.db.subnets by {
      assert d.id !in before.db.subnets;
    }
  }

  lemma RestoredWhen(before: World, r: World, d: Draw)
    requires IsFresh(before, d) && OnlyThisNode(before, r, d)
    requires d.id !in r.db.nodes ==> r.db == before.db
    ensures r == before <==> d.id !in r.db.nodes && d.server !in r.servers
  {
    if d.server !in r.servers {
      assert r.servers - {d.server} == r.servers;
    }
  }

  /** The rows a provisioning adds. */
  lemma RowsAdded(c: Config, w: World, d: Draw, f: ProvisionFaults)
    requires IsFresh(w, d) && f.recordOk && !KeyTaken(w.db, d.id, d.id)
    ensures var recorded := w.db.(nodes := w.db.nodes[d.id := NodeRow(Provisioning, "", d.id)]);
            var a := AllocateSubnet(c, recorded, d.id, f.allocate);
            && InsertNode(w.db, d.id, NodeRow(Provisioning, "", d.id)) == Some(recorded)
            && a.db.nodes == recorded.nodes && a.db.peers == w.db.peers && d.id !in w.db.subnets
            && a.db.subnets == (if a.network.Some? then w.db.subnets[d.id := a.network.value] else w.db.subnets)
            && (a.network.Some? ==> a.network == PickNetwork(c, UsedNetworks(w.db)))
            && OnlyThisNode(w, w.(db := a.db), d)
  {
    hide PickNetwork;
    hide KeyTaken;
    var recorded := w.db.(nodes := w.db.nodes[d.id := NodeRow(Provisioning, "", d.id)]);
    var a := AllocateSubnet(c, recorded, d.id, f.allocate);
    assert UsedNetworks(recorded) == UsedNetworks(w.db);
    assert w.db.nodes[d.id := NodeRow(Provisioning, "", d.id)] - {d.id} == w.db.nodes;
    assert a.network.Some? ==> w.db.subnets[d.id := a.network.value] - {d.id} == w.db.subnets;
    assert w.db.subnets - {d.id} == w.db.subnets && w.servers - {d.server} == w.servers;
  }

  lemma FailureOutcome(cleanup: bool, before: World, w: World, d: Draw, n: Noted, f: ProvisionFaults, phase: Phase)
    requires IsFresh(before, d) && OnlyThisNode(before, w, d) && d.id in w.db.nodes
    requires n.server in {"", d.server} && phase != RecordFailed && phase != Completed
    requires n.server != "" ==> d.server in w.servers
    requires d.server in w.servers && n.server == "" <==> phase.CloudFailed? && Leaks(cleanup, phase, f)
    requires n.server == "" <==> phase.SubnetFailed? || phase.CloudFailed?
    ensures EndsFailed(cleanup, before, Failed(cleanup, w, d.id, n, f, phase), d, f)
  {
    var r := Failed(cleanup, w, d.id, n, f, phase).world;
    if cleanup {
      RollbackRestores(before, w, d, n, f);
    }
    RestoredWhen(before, r, d);
  }

  /** How a failed provisioning ends. */
  predicate EndsFailed(cleanup: bool, before: World, r: Provisioned, d: Draw, f: ProvisionFaults) {
    && OnlyThisNode(before, r.world, d)
    && (d.server in r.world.servers <==> Leaks(cleanup, r.phase, f))
    && (cleanup && f.deleteOk ==> r.world.db == before.db)
    && (r.world == before <==> r.phase.RecordFailed? || (cleanup && f.deleteOk && !Leaks(cleanup, r.phase, f)))
  }

  lemma FinishingFails(cleanup: bool, before: World, w: World, d: Draw, f: ProvisionFaults)
    requires IsFresh(before, d) && OnlyThisNode(before, w, d) && d.id in w.db.nodes && d.server in w.servers
    ensures var r := Finish(cleanup, w, d, f);
            if r.phase.Completed?
            then r.world == w.(db := w.db.(nodes := w.db.nodes[d.id := NodeRow(Active, d.server, d.publicKey)]))
            else EndsFailed(cleanup, before, r, d, f)
  {
    hide KeyTaken;
    hide EndsFailed;
    hide RolledBack;
    hide IsFresh;
    var n := Noted(d.server, true);
    var row := NodeRow(Provisioning, d.server, d.publicKey);
    var detailed := w.(db := w.db.(nodes := w.db.nodes[d.id := row]));
    assert w.db.nodes[d.id := row] - {d.id} == w.db.nodes - {d.id};
    assert w.db.nodes[d.id := row][d.id := row.(status := Active)] == w.db.nodes[d.id := row.(status := Active)];
    ServerIsNamed(before, d);
    FailureOutcome(cleanup, before, w, d, n, f, DetailsFailed);
    FailureOutcome(cleanup, before, detailed, d, n, f, ReadinessFailed);
    FailureOutcome(cleanup, before, detailed, d, n, f, ActivationFailed);
  }

  lemma ServerIsNamed(w: World, d: Draw)
    requires IsFresh(w, d)
    ensures d.server != "" && d.server !in w.servers
  {
  }

  lemma LaunchAdds(w: World, d: Draw, f: CloudFaults)
    requires IsFresh(w, d)
    ensures var s := Launch(w.servers, d.server, f);
            && s - {d.server} == w.servers
            && (d.server in s <==> f.create.Lost? || (f.create.Done? && (f.healthOk || !f.cleanupOk)))
  {
  }

  /** Provisioning is all or nothing. A completed one has added the node row, the lowest unused
      block and the server. A failed one touches nothing else; a server is left exactly when it
      leaks, and with rollback enabled a deleted node row takes the subnet row with it, released
      or not. All is as before exactly when the record was never made, or the
      rollback ran and both the record's and the server's removal succeeded. */
  lemma ProvisioningIsAllOrNothing(c: Config, cleanup: bool, w: World, d: Draw, f: ProvisionFaults)
    requires IsFresh(w, d)
    ensures var r := Provision(c, cleanup, w, d, f);
            if r.phase.Completed?
            then exists network :: PickNetwork(c, UsedNetworks(w.db)) == Some(network)
                   && r.world == World(Db(w.db.nodes[d.id := NodeRow(Active, d.server, d.publicKey)],
                                          w.db.subnets[d.id := network], w.db.peers), w.servers + {d.server})
            else EndsFailed(cleanup, w, r, d, f)
  {
    hide PickNetwork;
    hide KeyTaken;
    hide EndsFailed;
    hide Finish;
    hide RolledBack;
    hide AllocateSubnet;
    hide Launch;
    if !f.recordOk || KeyTaken(w.db, d.id, d.id) {
      NothingDone(cleanup, w, d, f);
    } else {
      RowsAdded(c, w, d, f);
      LaunchAdds(w, d, f.cloud);
      var recorded := w.db.(nodes := w.db.nodes[d.id := NodeRow(Provisioning, "", d.id)]);
      var a := AllocateSubnet(c, recorded, d.id, f.allocate);
      var launched := World(a.db, Launch(w.servers, d.server, f.cloud));
      if a.network.None? {
        FailureOutcome(cleanup, w, w.(db := a.db), d, NOTHING, f, SubnetFailed);
      } else if !f.cloud.create.Done? || !f.cloud.healthOk {
        FailureOutcome(cleanup, w, launched, d, Noted("", true), f, CloudFailed);
      } else {
        FinishingFails(cleanup, w, launched, d, f);
        assert recorded.nodes[d.id := NodeRow(Active, d.server, d.publicKey)]
            == w.db.nodes[d.id := NodeRow(Active, d.server, d.publicKey)];
        assert launched.servers == w.servers + {d.server};
      }
    }
  }

  lemma NothingDone(cleanup: bool, w: World, d: Draw, f: ProvisionFaults)
    requires IsFresh(w, d)
    ensures EndsFailed(cleanup, w, Provisioned(w, RecordFailed), d, f)
  {
    assert w.db.nodes - {d.id} == w.db.nodes && w.servers - {d.server} == w.servers;
    assert d.id !in w.db.subnets;
    assert w.db.subnets - {d.id} == w.db.subnets;
  }

  predicate AllSucceed(f: ProvisionFaults) {
    && f.recordOk && f.allocate.usedOk && f.allocate.insertOk && f.cloud.create.Done? && f.cloud.healthOk
    && f.detailsOk && f.readyOk && f.activateOk
  }

  /** It completes exactly when every step succeeds, the identifier is well formed, neither the
      placeholder key nor the new key is another node's, and the block picked is not taken. */
  lemma ProvisioningCompletesExactlyWhen(c: Config, cleanup: bool, w: World, d: Draw, f: ProvisionFaults)
    requires IsFresh(w, d)
    ensures Provision(c, cleanup, w, d, f).phase.Completed? <==>
              && AllSucceed(f) && ValidNodeId(d.id)
              && !KeyTaken(w.db, d.id, d.id) && !KeyTaken(w.db, d.id, d.publicKey)
              && PickNetwork(c, UsedNetworks(w.db)).Some?
              && PickNetwork(c, UsedNetworks(w.db)).value !in UsedNetworks(w.db)
  {
    hide PickNetwork;
    hide RolledBack;
    if f.recordOk && !KeyTaken(w.db, d.id, d.id) {
      RowsAdded(c, w, d, f);
      var recorded := w.db.(nodes := w.db.nodes[d.id := NodeRow(Provisioning, "", d.id)]);
      var a := AllocateSubnet(c, recorded, d.id, f.allocate);
      assert UsedNetworks(recorded) == UsedNetworks(w.db);
      if a.network.Some? {
        SameKeys(w.db, a.db, d.id, NodeRow(Provisioning, "", d.id), d.publicKey);
        SameKeys(w.db, a.db.(nodes := a.db.nodes[d.id := NodeRow(Provisioning, d.server, d.publicKey)]), d.id,
                 NodeRow(Provisioning, d.server, d.publicKey), d.publicKey);
      }
    }
  }

  /** A node's own row does not take its key. */
  lemma SameKeys(a: Db, b: Db, id: NodeId, row: NodeRow, key: string)
    requires b.nodes == a.nodes[id := row]
    ensures KeyTaken(b, id, key) == KeyTaken(a, id, key)
  {
    if KeyTaken(a, id, key) {
      var n :| n in a.nodes && n != id && a.nodes[n].publicKey == key;
      assert b.nodes[n] == a.nodes[n];
    }
  }

  /** The step of a provisioning that fails is the first that has to: the record, the subnet, the
      server, its details, the readiness check or the activation. */
  lemma FailsAtTheFirst(c: Config, cleanup: bool, w: World, d: Draw, f: ProvisionFaults)
    requires IsFresh(w, d)
    ensures var pick := PickNetwork(c, UsedNetworks(w.db));
            Provision(c, cleanup, w, d, f).phase ==
            if !f.recordOk || KeyTaken(w.db, d.id, d.id) then RecordFailed
            else if !(ValidNodeId(d.id) && f.allocate.usedOk && f.allocate.insertOk
                      && pick.Some? && pick.value !in UsedNetworks(w.db)) then SubnetFailed
            else if !f.cloud.create.Done? || !f.cloud.healthOk then CloudFailed
            else if !f.detailsOk || KeyTaken(w.db, d.id, d.publicKey) then DetailsFailed
            else if !f.readyOk then ReadinessFailed
            else if !f.activateOk then ActivationFailed
            else Completed
  {
    hide PickNetwork;
    hide RolledBack;
    hide ValidNodeId;
    if f.recordOk && !KeyTaken(w.db, d.id, d.id) {
      RowsAdded(c, w, d, f);
      var recorded := w.db.(nodes := w.db.nodes[d.id := NodeRow(Provisioning, "", d.id)]);
      var a := AllocateSubnet(c, recorded, d.id, f.allocate);
      assert UsedNetworks(recorded) == UsedNetworks(w.db);
      if a.network.Some? {
        SameKeys(w.db, a.db, d.id, NodeRow(Provisioning, "", d.id), d.publicKey);
        SameKeys(w.db, a.db.(nodes := a.db.nodes[d.id := NodeRow(Provisioning, d.server, d.publicKey)]), d.id,
                 NodeRow(Provisioning, d.server, d.publicKey), d.publicKey);
      }
    }
  }

  /** The tables with the rows a provisioning had stored, as far as its rollback has not removed
      them: all if the record is deleted, the subnet row if only that is released. */
  function RowsLeft(cleanup: bool, before: Db, id: NodeId, row: NodeRow, network: Option<nat>, f: ProvisionFaults): Db {
    if cleanup && f.deleteOk then before
    else Db(before.nodes[id := row],
            if network.Some? && !(cleanup && f.release == ReleaseFaults(true, true))
            then before.subnets[id := network.value] else before.subnets,
            before.peers)
  }

  lemma FailedLeaves(cleanup: bool, before: Db, w: World, id: NodeId, n: Noted, f: ProvisionFaults, phase: Phase,
                     row: NodeRow, network: Option<nat>)
    requires Owned(before) && id !in before.nodes && (n.subnet <==> network.Some?) && (n.subnet ==> ValidNodeId(id))
    requires w.db == Db(before.nodes[id := row],
                        if network.Some? then before.subnets[id := network.value] else before.subnets, before.peers)
    ensures Failed(cleanup, w, id, n, f, phase).world.db == RowsLeft(cleanup, before, id, row, network, f)
  {
    hide ValidNodeId;
    assert id !in before.subnets;
    assert PeersOn(w.db, id) == {};
    assert before.nodes[id := row] - {id} == before.nodes && before.subnets - {id} == before.subnets;
    assert before.subnets - {id} - {id} == before.subnets && before.peers - {} == before.peers;
    assert network.Some? ==> before.subnets[id := network.value] - {id} == before.subnets;
  }

  /** What a failed provisioning leaves in the tables, for each step it can fail at. */
  lemma FailureLeavesRows(c: Config, cleanup: bool, w: World, d: Draw, f: ProvisionFaults)
    requires IsFresh(w, d)
    ensures var r, pick := Provision(c, cleanup, w, d, f), PickNetwork(c, UsedNetworks(w.db));
            var recorded, detailed := NodeRow(Provisioning, "", d.id), NodeRow(Provisioning, d.server, d.publicKey);
            match r.phase
            case RecordFailed => r.world.db == w.db
            case SubnetFailed => r.world.db == RowsLeft(cleanup, w.db, d.id, recorded, None, f)
            case CloudFailed => r.world.db == RowsLeft(cleanup, w.db, d.id, recorded, pick, f)
            case DetailsFailed => r.world.db == RowsLeft(cleanup, w.db, d.id, recorded, pick, f)
            case ReadinessFailed => r.world.db == RowsLeft(cleanup, w.db, d.id, detailed, pick, f)
            case ActivationFailed => r.world.db == RowsLeft(cleanup, w.db, d.id, detailed, pick, f)
            case Completed => true
  {
    hide PickNetwork;
    hide KeyTaken;
    hide Failed;
    hide RowsLeft;
    hide AllocateSubnet;
    hide Launch;
    hide ValidNodeId;
    if f.recordOk && !KeyTaken(w.db, d.id, d.id) {
      RowsAdded(c, w, d, f);
      var row, detailed := NodeRow(Provisioning, "", d.id), NodeRow(Provisioning, d.server, d.publicKey);
      var recorded := w.db.(nodes := w.db.nodes[d.id := row]);
      var a := AllocateSubnet(c, recorded, d.id, f.allocate);
      AllocatesExactlyWhen(c, recorded, d.id, f.allocate);
      if a.network.None? {
        FailedLeaves(cleanup, w.db, w.(db := a.db), d.id, NOTHING, f, SubnetFailed, row, None);
      } else {
        var launched := World(a.db, Launch(w.servers, d.server, f.cloud));
        var saved := launched.(db := a.db.(nodes := a.db.nodes[d.id := detailed]));
        assert w.db.nodes[d.id := row][d.id := detailed] == w.db.nodes[d.id := detailed];
        FailedLeaves(cleanup, w.db, launched, d.id, Noted("", true), f, CloudFailed, row, a.network);
        FailedLeaves(cleanup, w.db, launched, d.id, Noted(d.server, true), f, DetailsFailed, row, a.network);
        FailedLeaves(cleanup, w.db, saved, d.id, Noted(d.server, true), f, ReadinessFailed, detailed, a.network);
        FailedLeaves(cleanup, w.db, saved, d.id, Noted(d.server, true), f, ActivationFailed, detailed, a.network);
      }
    }
  }

  // ---- destroying ----

  datatype DestroyFaults = DestroyFaults(getOk: bool, saveOk: bool, release: ReleaseFaults, serverOk: bool, deleteOk: bool)

  datatype Destroyed = Destroyed(world: World, ok: bool)

  /** `destroyNode`; `clients` is the connected-clients count of the row. */
  function Destroy(w: World, id: NodeId, clients: nat, f: DestroyFaults): Destroyed {
    if !f.getOk || id !in w.db.nodes then Destroyed(w, false)
    else
      var row := w.db.nodes[id];
      var marked := UpdateNode(w.db, id, row.(status := Destroying));
      if clients > 0 || row.status == Destroying || !f.saveOk || marked.None? then Destroyed(w, false)
      else
        var released := ReleaseSubnet(marked.value, id, f.release).db;
        var servers := if row.serverId != "" && f.serverOk then w.servers - {row.serverId} else w.servers;
        if f.deleteOk then Destroyed(World(DeleteNode(released, id), servers), true)
        else Destroyed(World(released, servers), false)
  }

  /** What a caller can check before a destruction: `ValidateForDestruction`, and that the row
      can be written back. */
  predicate CanBeDestroyed(db: Db, id: NodeId, clients: nat) {
    && id in db.nodes && clients == 0 && db.nodes[id].status != Destroying
    && !KeyTaken(db, id, db.nodes[id].publicKey)
  }

  /** The destruction is not refused and its mark is saved. */
  predicate Proceeds(db: Db, id: NodeId, clients: nat, f: DestroyFaults) {
    f.getOk && f.saveOk && CanBeDestroyed(db, id, clients)
  }

  /** A destruction succeeds exactly when it proceeds and the record is deleted. It has then
      removed the node with its subnet and its peers and nothing else; if only the record is not
      deleted, the node is marked, its subnet released unless that failed, and all other rows
      stay; if it does not proceed, everything does. Its server is gone exactly when it proceeds
      and destroying the server succeeds. */
  lemma DestroyRemoves(w: World, id: NodeId, clients: nat, f: DestroyFaults)
    ensures var r := Destroy(w, id, clients, f);
            && (r.ok <==> Proceeds(w.db, id, clients, f) && f.deleteOk)
            && (r.ok ==> r.world.db == DeleteNode(w.db, id))
            && (!Proceeds(w.db, id, clients, f) ==> r.world == w)
            && (!r.ok && Proceeds(w.db, id, clients, f) ==>
                  r.world.db == Db(w.db.nodes[id := w.db.nodes[id].(status := Destroying)],
                                   if ValidNodeId(id) && f.release == ReleaseFaults(true, true)
                                   then w.db.subnets - {id} else w.db.subnets,
                                   w.db.peers))
            && (forall s :: s in r.world.servers <==>
                  s in w.servers && !(Proceeds(w.db, id, clients, f) && s == w.db.nodes[id].serverId && s != "" && f.serverOk))
  {
    hide KeyTaken;
    if id in w.db.nodes {
      var row := w.db.nodes[id].(status := Destroying);
      assert w.db.nodes[id := row] - {id} == w.db.nodes - {id};
      assert w.db.subnets - {id} - {id} == w.db.subnets - {id};
      assert w.db.nodes[id := row][id] == row;
      assert id !in w.db.subnets ==> w.db.subnets - {id} == w.db.subnets;
    }
  }

  const NOTHING_FAILS := DestroyFaults(true, true, ReleaseFaults(true, true), true, true)

  /** A destruction can succeed exactly when that holds. */
  lemma DestructionCanSucceedExactlyWhen(w: World, id: NodeId, clients: nat)
    ensures (exists g :: Destroy(w, id, clients, g).ok) <==> CanBeDestroyed(w.db, id, clients)
  {
    hide KeyTaken;
    if CanBeDestroyed(w.db, id, clients) {
      assert Destroy(w, id, clients, NOTHING_FAILS).ok;
    }
  }

  /** A destruction that fails can be repeated exactly when it did not get as far as a failing
      record deletion. If it did, the node keeps its mark, and every later destruction is refused
      and changes nothing, whatever its client count and whatever succeeds then. */
  lemma DestructionGetsStuckExactlyWhen(w: World, id: NodeId, f: DestroyFaults)
    requires CanBeDestroyed(w.db, id, 0)
    ensures var r := Destroy(w, id, 0, f);
            && (!r.ok && !(exists g :: Destroy(r.world, id, 0, g).ok) <==> f.getOk && f.saveOk && !f.deleteOk)
            && (f.getOk && f.saveOk && !f.deleteOk ==>
                  && id in r.world.db.nodes && r.world.db.nodes[id] == w.db.nodes[id].(status := Destroying)
                  && forall later: nat, g :: Destroy(r.world, id, later, g) == Destroyed(r.world, false))
  {
    hide KeyTaken;
    var r := Destroy(w, id, 0, f);
    DestructionCanSucceedExactlyWhen(r.world, id, 0);
    if !f.getOk || !f.saveOk {
      assert r.world == w;
    }
  }

  /** One node ends stuck: its server and its subnet are gone, its record cannot be. */
  lemma StuckNode()
    ensures var w := World(Db(map["n" := NodeRow(Active, "s", "k")], map["n" := 0], map[]), {"s"});
            var f := NOTHING_FAILS.(deleteOk := false);
            && Destroy(w, "n", 0, f)
               == Destroyed(World(Db(map["n" := NodeRow(Destroying, "s", "k")], map[], map[]), {}), false)
            && !(exists g :: Destroy(Destroy(w, "n", 0, f).world, "n", 0, g).ok)
  {
    var w := World(Db(map["n" := NodeRow(Active, "s", "k")], map["n" := 0], map[]), {"s"});
    assert w.db.nodes["n" := NodeRow(Destroying, "s", "k")] == map["n" := NodeRow(Destroying, "s", "k")];
    assert w.db.subnets - {"n"} == map[] && w.servers - {"s"} == {};
    assert CanBeDestroyed(w.db, "n", 0);
    DestructionGetsStuckExactlyWhen(w, "n", NOTHING_FAILS.(deleteOk := false));
  }

  // ---- the service ----

  /** `provisioningRollback`. */
  class Rollback {
    const nodeId: NodeId
    var serverId: string
    var acquired: map<string, bool>

    constructor (nodeId: NodeId)
      ensures this.nodeId == nodeId && Value() == NOTHING
    {
      this.nodeId := nodeId;
      serverId := "";
      acquired := map[];
    }

    predicate Has(what: string)
      reads this
    {
      what in acquired && acquired[what]
    }

    function Value(): Noted
      reads this
    {
      Noted(if Has("cloud") then serverId else "", Has("subnet"))
    }
  }

  class ProvisioningService {
    const store: Store
    const cleanupOnFailure: bool
    var servers: set<string>

    constructor (store: Store, cleanupOnFailure: bool, servers: set<string>)
      ensures this.store == store && this.cleanupOnFailure == cleanupOnFailure && this.servers == servers
    {
      this.store := store;
      this.cleanupOnFailure := cleanupOnFailure;
      this.servers := servers;
    }

    function State(): World
      reads this, store
    {
      World(store.db, servers)
    }

    /** `repository.Update`. */
    method SaveNode(id: NodeId, row: NodeRow, saveOk: bool) returns (ok: bool)
      modifies store
      ensures var r := UpdateNode(old(store.db), id, row);
              && ok == (saveOk && r.Some?) && store.db == if ok then r.value else old(store.db)
    {
      var saved := UpdateNode(store.db, id, row);
      if !saveOk || saved.None? {
        return false;
      }
      store.db := saved.value;
      ok := true;
    }

    /** `provisionCloudInfrastructure` with the cloud provisioner's own cleanup. */
    method ProvisionCloud(server: string, rollback: Rollback, f: CloudFaults) returns (ok: bool)
      modifies this, rollback
      ensures servers == Launch(old(servers), server, f) && ok == (f.create.Done? && f.healthOk)
      ensures rollback.Value() == if ok then old(rollback.Value()).(server := server) else old(rollback.Value())
    {
      if f.create.Failed? {
        return false;
      }
      servers := servers + {server};
      if f.create.Lost? {
        return false;
      }
      if !f.healthOk {
        if f.cleanupOk {
          servers := servers - {server};
        }
        return false;
      }
      rollback.acquired := rollback.acquired["cloud" := true];
      rollback.serverId := server;
      ok := true;
    }

    /** `performRollback` and `execute`. */
    method PerformRollback(rollback: Rollback, f: ProvisionFaults)
      modifies this, store
      ensures State() == if cleanupOnFailure then RolledBack(old(State()), rollback.nodeId, rollback.Value(), f)
                         else old(State())
    {
      if !cleanupOnFailure {
        return;
      }
      if rollback.Has("cloud") && rollback.serverId != "" {
        if f.destroyOk {
          servers := servers - {rollback.serverId};
        }
      }
      if rollback.Has("subnet") {
        var released := store.ReleaseNodeSubnet(rollback.nodeId, f.release);
      }
      if f.deleteOk {
        store.db := DeleteNode(store.db, rollback.nodeId);
      }
    }

    method ProvisionNode(d: Draw, f: ProvisionFaults) returns (phase: Phase)
      requires Placed(store.config, store.db)
      modifies this, store
      ensures Provisioned(State(), phase) == Provision(store.config, cleanupOnFailure, old(State()), d, f)
    {
      hide PickNetwork;
      hide KeyTaken;
      hide AllocateSubnet;
      hide RolledBack;
      hide UpdateNode;
      hide Launch;
      var record := InsertNode(store.db, d.id, NodeRow(Provisioning, "", d.id));
      if !f.recordOk || record.None? {
        return RecordFailed;
      }
      NewNodeIsPlaced(store.config, store.db, d.id, NodeRow(Provisioning, "", d.id));
      store.db := record.value;
      var rollback := new Rollback(d.id);
      var network := store.AllocateNodeSubnet(d.id, f.allocate);
      if network.None? {
        PerformRollback(rollback, f);
        return SubnetFailed;
      }
      rollback.acquired := rollback.acquired["subnet" := true];
      assert rollback.Value() == Noted("", true);
      var launched := ProvisionCloud(d.server, rollback, f.cloud);
      if !launched {
        PerformRollback(rollback, f);
        return CloudFailed;
      }
      phase := FinishProvisioning(d, rollback, f);
    }

    method FinishProvisioning(d: Draw, rollback: Rollback, f: ProvisionFaults) returns (phase: Phase)
      requires rollback.nodeId == d.id && rollback.Value() == Noted(d.server, true)
      modifies this, store, rollback
      ensures Provisioned(State(), phase) == Finish(cleanupOnFailure, old(State()), d, f)
    {
      hide KeyTaken;
      hide RolledBack;
      hide UpdateNode;
      var n := NodeRow(Provisioning, d.server, d.publicKey);
      var detailed := SaveNode(d.id, n, f.detailsOk);
      if !detailed {
        PerformRollback(rollback, f);
        return DetailsFailed;
      }
      rollback.acquired := rollback.acquired["details" := true];
      assert rollback.Value() == Noted(d.server, true);
      if !f.readyOk {
        PerformRollback(rollback, f);
        return ReadinessFailed;
      }
      n := n.(status := Active);
      var activated := SaveNode(d.id, n, f.activateOk);
      if !activated {
        PerformRollback(rollback, f);
        return ActivationFailed;
      }
      rollback.acquired := rollback.acquired["active" := true];
      phase := Completed;
    }

    method DestroyNode(id: NodeId, clients: nat, f: DestroyFaults) returns (ok: bool)
      modifies this, store
      ensures Destroyed(State(), ok) == Destroy(old(State()), id, clients, f)
    {
      hide KeyTaken;
      if !f.getOk || id !in store.db.nodes {
        return false;
      }
      var n := store.db.nodes[id];
      if clients > 0 || n.status == Destroying {
        return false;
      }
      n := n.(status := Destroying);
      var saved := SaveNode(id, n, f.saveOk);
      if !saved {
        return false;
      }
      var released := store.ReleaseNodeSubnet(id, f.release);
      if n.serverId != "" && f.serverOk {
        servers := servers - {n.serverId};
      }
      if !f.deleteOk {
        return false;
      }
      store.db := DeleteNode(store.db, id);
      ok := true;
    }
  }

  lemma NewNodeIsPlaced(c: Config, db: Db, id: NodeId, row: NodeRow)
    requires Placed(c, db)
    ensures InsertNode(db, id, row).Some? ==> Placed(c, InsertNode(db, id, row).value)
  {
    hide IsNetwork;
    hide UniquePeers;
    hide UniqueSubnets;
  }
}
