/** The operations that run alone are runs of the step system: their statements one after the
    other, with nothing in between. So whatever they leave is a reachable state, and safe. */
module Refinement {
  import opened Network
  import opened Allocator
  import opened Placement
  import opened Tables
  import opened Text
  import opened Registry
  import opened Agreement
  import Services
  import Connections
  import Disconnection
  import Migration
  import Provisioning
  import Cleanup
  import WireGuard

  function No(): Choice {
    Yes("").(ok := false)
  }

  function If(ok: bool): Choice {
    if ok then Yes("") else No()
  }

  // ---- connecting ----

  /** From the chosen node to the stored peer row. */
  lemma StoringIsARun(c: Config, db: Db, h: map<NodeId, nat>, drawn: set<NodeId>, node: NodeId, key: string, peer: PeerId,
                      f: Connections.ConnectFaults)
    requires Reachable(c, Quiet(db, h, drawn)) && Connections.ReachesNode(c, db, node, key, peer, f)
    ensures var ip := Services.ClientIp(c, db, node, f.read).value;
            Reachable(c, Busy(Services.CreatePeerRow(db, peer, PeerRow(node, key, ip, PeerActive), f.create).db,
                              ConnectConfigure(peer, node, key, ip), h, drawn))
  {
    hide Reachable;
    hide RemoveStep;
    hide MigrateStep;
    hide ProvisionStep;
    hide DestroyStep;
    hide PickIp;
    hide IpInUse;
    hide IdentifierInUse;
    hide WireGuard.IsValidKey;
    hide TrimSpace;
    hide ValidNodeId;
    var n := db.subnets[node];
    var ip := Services.ClientIp(c, db, node, f.read).value;
    Spawned(c, db, ConnectSelect(key), h, drawn);
    Advanced(c, db, ConnectSelect(key), h, drawn, Yes(node));
    Advanced(c, db, ConnectSubnet(key, node), h, drawn, Yes(node));
    Advanced(c, db, ConnectPick(key, node, n), h, drawn, Yes(node));
    Advanced(c, db, ConnectCheckKey(key, node, ip), h, drawn, Yes(node));
    Advanced(c, db, ConnectCheckIp(key, node, ip), h, drawn, Yes(node));
    Advanced(c, db, ConnectInsert(key, node, ip), h, drawn, Yes(peer));
  }

  lemma RemovingIsARun(c: Config, db: Db, h: map<NodeId, nat>, drawn: set<NodeId>, peer: PeerId, f: Services.RemovalFaults)
    requires Reachable(c, Busy(db, RemoveGet(peer), h, drawn))
    ensures Reachable(c, Quiet(Services.RemovePeerRow(db, peer, f).db, h, drawn))
  {
    hide Reachable;
    hide ConnectStep;
    hide MigrateStep;
    hide ProvisionStep;
    hide DestroyStep;
    hide UpdatePeerStatus;
    hide DeletePeer;
    Advanced(c, db, RemoveGet(peer), h, drawn, If(f.getOk && peer != ""));
    if f.getOk && peer != "" && peer in db.peers {
      var marked := if f.markOk then UpdatePeerStatus(db, peer, PeerRemoving) else db;
      Advanced(c, db, RemoveMark(peer), h, drawn, If(f.markOk));
      Advanced(c, marked, RemoveDelete(peer), h, drawn, If(f.deleteOk));
    }
  }

  /** A lone connection attempt, however it ends, is a run. */
  lemma ConnectionIsARun(c: Config, i: WireGuard.Interface, s: Connections.Site, h: map<NodeId, nat>, drawn: set<NodeId>,
                         node: NodeId, key: string, peer: PeerId, f: Connections.ConnectFaults)
    requires Reachable(c, Quiet(s.db, h, drawn)) && Services.Placed(c, s.db)
    ensures Reachable(c, Quiet(Connections.Connect(c, i, s, node, key, peer, f).site.db, h, drawn))
  {
    hide Reachable;
    hide TaskStep;
    hide Services.Placed;
    hide Services.CreatePeerRow;
    hide Services.RemovePeerRow;
    hide WireGuard.AddResult;
    if Connections.ReachesNode(c, s.db, node, key, peer, f) {
      StoringIsARun(c, s.db, h, drawn, node, key, peer, f);
      var ip := Services.ClientIp(c, s.db, node, f.read).value;
      var db := Services.CreatePeerRow(s.db, peer, PeerRow(node, key, ip, PeerActive), f.create).db;
      Connections.ClientIpIsAddress(c, s.db, node, f.read);
      var added := WireGuard.AddResult(i, s.table, Connections.ClientConfig(key, ip), f.add);
      ConfiguringSteps(c, db, h, drawn, ConnectConfigure(peer, node, key, ip), added.ok);
      if !added.ok {
        RemovingIsARun(c, db, h, drawn, peer, f.remove);
      }
    } else {
      CreationFails(c, s.db, node, key, peer, f);
    }
  }

  lemma ConfiguringSteps(c: Config, db: Db, h: map<NodeId, nat>, drawn: set<NodeId>, t: Task, ok: bool)
    requires t.ConnectConfigure? && Reachable(c, Busy(db, t, h, drawn))
    ensures Reachable(c, if ok then Quiet(db, h, drawn) else Busy(db, RemoveGet(t.peer), h, drawn))
  {
    hide Reachable;
    Advanced(c, db, t, h, drawn, If(ok));
  }

  lemma CreationFails(c: Config, db: Db, node: NodeId, key: string, peer: PeerId, f: Connections.ConnectFaults)
    ensures var ip := Services.ClientIp(c, db, node, f.read);
            ip.Some? ==> var r := Services.CreatePeerRow(db, peer, PeerRow(node, key, ip.value, PeerActive), f.create);
                         !r.ok ==> r.db == db
  {
  }

  /** A lone disconnection, however it ends, is a run. */
  lemma DisconnectionIsARun(c: Config, i: WireGuard.Interface, s: Connections.Site, h: map<NodeId, nat>, drawn: set<NodeId>,
                            peer: PeerId, f: Disconnection.DisconnectFaults)
    requires Reachable(c, Quiet(s.db, h, drawn))
    ensures Reachable(c, Quiet(Disconnection.Disconnect(i, s, peer, f).site.db, h, drawn))
  {
    hide Reachable;
    hide Services.RemovePeerRow;
    hide WireGuard.RemoveResult;
    Spawned(c, s.db, RemoveGet(peer), h, drawn);
    RemovingIsARun(c, s.db, h, drawn, peer, f.row);
  }

  // ---- migrating ----

  lemma MigrationTurnIsARun(c: Config, e: Migration.Ends, s: Migration.Sites, h: map<NodeId, nat>, drawn: set<NodeId>,
                            queue: seq<Listed>, f: Migration.PeerFaults)
    requires queue != [] && Services.Placed(c, s.db)
    requires Reachable(c, Busy(s.db, MigrateSubnet(queue, e.target), h, drawn))
    ensures Reachable(c, Busy(Migration.MigrateOne(c, e, s, queue[0].peer, queue[0].key, f).sites.db,
                              MigrateSubnet(queue[1..], e.target), h, drawn))
  {
    hide Reachable;
    hide ConnectStep;
    hide RemoveStep;
    hide ProvisionStep;
    hide DestroyStep;
    hide PickIp;
    hide IpInUse;
    hide UpdatePeerNode;
    hide TrimSpace;
    hide ValidNodeId;
    hide Services.Placed;
    hide WireGuard.AddResult;
    hide WireGuard.RemoveResult;
    hide TaskStep;
    var picked := Services.ClientIp(c, s.db, e.target, f.read);
    if picked.Some? && Services.MovePeer(s.db, queue[0].peer, e.target, picked.value, f.move).ok {
      ChoosingIsARun(c, s.db, h, drawn, queue, e.target, picked.value, f);
      MovingIsARun(c, s.db, h, drawn, queue, e.target, picked.value, f);
    } else {
      SkippingIsARun(c, s.db, h, drawn, queue, e.target);
    }
  }

  lemma SkippingIsARun(c: Config, db: Db, h: map<NodeId, nat>, drawn: set<NodeId>, queue: seq<Listed>, target: NodeId)
    requires queue != [] && Reachable(c, Busy(db, MigrateSubnet(queue, target), h, drawn))
    ensures Reachable(c, Busy(db, MigrateSubnet(queue[1..], target), h, drawn))
  {
    hide Reachable;
    Advanced(c, db, MigrateSubnet(queue, target), h, drawn, No());
  }

  /** Up to an address that `Migrate` will take ... */
  lemma ChoosingIsARun(c: Config, db: Db, h: map<NodeId, nat>, drawn: set<NodeId>, queue: seq<Listed>, target: NodeId,
                       ip: nat, f: Migration.PeerFaults)
    requires queue != [] && Reachable(c, Busy(db, MigrateSubnet(queue, target), h, drawn))
    requires Services.ClientIp(c, db, target, f.read) == Some(ip)
    requires Services.MovePeer(db, queue[0].peer, target, ip, f.move).ok
    ensures Reachable(c, Busy(db, MigrateUpdate(queue, target, ip), h, drawn))
  {
    hide Reachable;
    hide ConnectStep;
    hide RemoveStep;
    hide ProvisionStep;
    hide DestroyStep;
    hide PickIp;
    hide IpInUse;
    hide UpdatePeerNode;
    hide TrimSpace;
    hide ValidNodeId;
    Advanced(c, db, MigrateSubnet(queue, target), h, drawn, Yes(""));
    Advanced(c, db, MigratePick(queue, target, db.subnets[target]), h, drawn, Yes(""));
    CheckingIsARun(c, db, h, drawn, queue, target, ip, f);
  }

  lemma CheckingIsARun(c: Config, db: Db, h: map<NodeId, nat>, drawn: set<NodeId>, queue: seq<Listed>, target: NodeId,
                       ip: nat, f: Migration.PeerFaults)
    requires queue != [] && Reachable(c, Busy(db, MigrateGet(queue, target, ip), h, drawn))
    requires Services.MovePeer(db, queue[0].peer, target, ip, f.move).ok
    ensures Reachable(c, Busy(db, MigrateUpdate(queue, target, ip), h, drawn))
  {
    hide Reachable;
    hide ConnectStep;
    hide RemoveStep;
    hide ProvisionStep;
    hide DestroyStep;
    hide IpInUse;
    hide UpdatePeerNode;
    hide TrimSpace;
    Advanced(c, db, MigrateGet(queue, target, ip), h, drawn, Yes(""));
    Advanced(c, db, MigrateCheckIp(queue, target, ip), h, drawn, Yes(""));
    if IpInUse(db, ip) {
      Advanced(c, db, MigrateRecheck(queue, target, ip), h, drawn, If(f.move.recheckOk));
    }
  }

  /** ... and on to the next peer. */
  lemma MovingIsARun(c: Config, db: Db, h: map<NodeId, nat>, drawn: set<NodeId>, queue: seq<Listed>, target: NodeId,
                     ip: nat, f: Migration.PeerFaults)
    requires queue != [] && Reachable(c, Busy(db, MigrateUpdate(queue, target, ip), h, drawn))
    requires Services.MovePeer(db, queue[0].peer, target, ip, f.move).ok
    ensures Reachable(c, Busy(Services.MovePeer(db, queue[0].peer, target, ip, f.move).db, MigrateSubnet(queue[1..], target), h, drawn))
  {
    hide Reachable;
    hide ConnectStep;
    hide RemoveStep;
    hide ProvisionStep;
    hide DestroyStep;
    hide IpInUse;
    hide UpdatePeerNode;
    hide TrimSpace;
    Advanced(c, db, MigrateUpdate(queue, target, ip), h, drawn, Yes(""));
    Advanced(c, Services.MovePeer(db, queue[0].peer, target, ip, f.move).db, MigrateConfigure(queue, target, ip), h, drawn, Yes(""));
  }

  lemma {:induction false} MigrationTurnsAreARun(c: Config, e: Migration.Ends, s: Migration.Sites, h: map<NodeId, nat>,
                                                 drawn: set<NodeId>, queue: seq<PeerId>, faults: seq<Migration.PeerFaults>, n: nat)
    requires n <= |queue| == |faults| && Services.Placed(c, s.db) && forall p :: p in queue ==> p in s.db.peers
    requires Reachable(c, Busy(s.db, MigrateSubnet(Listing(s.db, queue), e.target), h, drawn))
    ensures Reachable(c, Busy(Migration.MigrateAll(c, e, s, queue, faults, n).sites.db,
                              MigrateSubnet(Listing(s.db, queue)[n..], e.target), h, drawn))
  {
    hide Reachable;
    hide Services.Placed;
    hide Migration.MigrateOne;
    var listed := Listing(s.db, queue);
    if n == 0 {
      assert listed[0..] == listed;
    } else {
      MigrationTurnsAreARun(c, e, s, h, drawn, queue, faults, n - 1);
      var before := Migration.MigrateAll(c, e, s, queue, faults, n - 1);
      assert listed[n - 1..][0] == listed[n - 1] && listed[n - 1..][1..] == listed[n..];
      MigrationTurnIsARun(c, e, before.sites, h, drawn, listed[n - 1..], faults[n - 1]);
    }
  }

  lemma ListingIsARun(c: Config, db: Db, h: map<NodeId, nat>, drawn: set<NodeId>, source: NodeId, target: NodeId,
                      queue: seq<PeerId>)
    requires Reachable(c, Quiet(db, h, drawn)) && (set p | p in queue) == ActiveOn(db, source)
    ensures forall p :: p in queue ==> p in db.peers
    ensures Reachable(c, Busy(db, MigrateSubnet(Listing(db, queue), target), h, drawn))
  {
    hide Reachable;
    hide ActiveOn;
    ListedExist(db, source, queue);
    Spawned(c, db, MigrateList(source, target), h, drawn);
    Advanced(c, db, MigrateList(source, target), h, drawn, Yes("").(order := queue));
  }

  /** A migration, whatever fails, is a run. */
  lemma MigrationIsARun(c: Config, e: Migration.Ends, s: Migration.Sites, h: map<NodeId, nat>, drawn: set<NodeId>,
                        queue: seq<PeerId>, faults: seq<Migration.PeerFaults>)
    requires Reachable(c, Quiet(s.db, h, drawn)) && Services.Placed(c, s.db) && |queue| == |faults|
    requires Migration.ListsActive(s.db, e.source, queue)
    ensures forall p :: p in queue ==> p in s.db.peers
    ensures Reachable(c, Quiet(Migration.MigrateAll(c, e, s, queue, faults, |queue|).sites.db, h, drawn))
  {
    hide Reachable;
    hide Services.Placed;
    hide Migration.MigrateAll;
    hide TaskStep;
    ListingIsARun(c, s.db, h, drawn, e.source, e.target, queue);
    MigrationTurnsAreARun(c, e, s, h, drawn, queue, faults, |queue|);
    assert Listing(s.db, queue)[|queue|..] == [];
    EndingIsARun(c, Migration.MigrateAll(c, e, s, queue, faults, |queue|).sites.db, h, drawn, e.target);
  }

  lemma EndingIsARun(c: Config, db: Db, h: map<NodeId, nat>, drawn: set<NodeId>, target: NodeId)
    requires Reachable(c, Busy(db, MigrateSubnet([], target), h, drawn))
    ensures Reachable(c, Quiet(db, h, drawn))
  {
    hide Reachable;
    Advanced(c, db, MigrateSubnet([], target), h, drawn, No());
  }

  // ---- provisioning ----

  /** Some quiet state of the step system has these tables. */
  ghost predicate IsReached(c: Config, db: Db) {
    exists h: map<NodeId, nat>, drawn: set<NodeId> :: Reachable(c, Quiet(db, h, drawn))
  }

  lemma RollbackIsARun(c: Config, w: Provisioning.World, h: map<NodeId, nat>, drawn: set<NodeId>, id: NodeId,
                       server: string, f: Provisioning.ProvisionFaults, cleanup: bool)
    requires Reachable(c, Busy(w.db, ReleaseExists(id, true), h, drawn))
    ensures IsReached(c, if cleanup then Provisioning.RolledBack(w, id, Provisioning.Noted(server, true), f).db else w.db)
  {
    hide Reachable;
    hide TaskStep;
    hide DeleteNode;
    hide Services.ReleaseSubnet;
    var release := if cleanup then f.release else Services.ReleaseFaults(false, false);
    ReleasingSteps(c, w.db, h, drawn, id, release);
    NothingReleased(w.db, id);
    RowDeletion(c, Services.ReleaseSubnet(w.db, id, release).db, h, drawn, id, cleanup && f.deleteOk);
  }

  lemma NothingReleased(db: Db, id: NodeId)
    ensures Services.ReleaseSubnet(db, id, Services.ReleaseFaults(false, false)).db == db
  {
  }

  lemma ReleasingSteps(c: Config, db: Db, h: map<NodeId, nat>, drawn: set<NodeId>, id: NodeId, f: Services.ReleaseFaults)
    requires Reachable(c, Busy(db, ReleaseExists(id, true), h, drawn))
    ensures Reachable(c, Busy(Services.ReleaseSubnet(db, id, f).db, DeleteRow(id), h, drawn))
  {
    hide Reachable;
    hide ConnectStep;
    hide RemoveStep;
    hide MigrateStep;
    hide ProvisionStep;
    hide DeleteSubnet;
    hide ValidNodeId;
    Advanced(c, db, ReleaseExists(id, true), h, drawn, If(ValidNodeId(id) && f.existsOk));
    if ValidNodeId(id) && f.existsOk && id in db.subnets {
      Advanced(c, db, ReleaseDelete(id, true), h, drawn, If(f.deleteOk));
    }
  }

  lemma RowDeletion(c: Config, db: Db, h: map<NodeId, nat>, drawn: set<NodeId>, id: NodeId, ok: bool)
    requires Reachable(c, Busy(db, DeleteRow(id), h, drawn))
    ensures Reachable(c, Quiet(if ok then DeleteNode(db, id) else db, h, drawn))
  {
    hide Reachable;
    hide ConnectStep;
    hide RemoveStep;
    hide MigrateStep;
    hide ProvisionStep;
    hide DeleteNode;
    Advanced(c, db, DeleteRow(id), h, drawn, If(ok));
  }

  lemma RowRollbackIsARun(c: Config, w: Provisioning.World, h: map<NodeId, nat>, drawn: set<NodeId>, id: NodeId,
                          f: Provisioning.ProvisionFaults, cleanup: bool)
    requires Reachable(c, Busy(w.db, DeleteRow(id), h, drawn))
    ensures IsReached(c, if cleanup then Provisioning.RolledBack(w, id, Provisioning.NOTHING, f).db else w.db)
  {
    hide DeleteNode;
    RowDeletion(c, w.db, h, drawn, id, cleanup && f.deleteOk);
  }

  /** From the created server on. */
  lemma FinishingIsARun(c: Config, w: Provisioning.World, h: map<NodeId, nat>, drawn: set<NodeId>, d: Provisioning.Draw,
                        f: Provisioning.ProvisionFaults, cleanup: bool)
    requires Reachable(c, Busy(w.db, ProvisionDetails(d.id), h, drawn))
    ensures IsReached(c, Provisioning.Finish(cleanup, w, d, f).world.db)
  {
    hide Reachable;
    hide IsReached;
    hide ConnectStep;
    hide RemoveStep;
    hide MigrateStep;
    hide DestroyStep;
    hide UpdateNode;
    hide Provisioning.RolledBack;
    var row := NodeRow(Tables.Provisioning, d.server, d.publicKey);
    var details := UpdateNode(w.db, d.id, row);
    Advanced(c, w.db, ProvisionDetails(d.id), h, drawn, If(f.detailsOk).(row := row));
    if !f.detailsOk || details.None? {
      RollbackIsARun(c, w, h, drawn, d.id, d.server, f, cleanup);
    } else {
      var w1 := w.(db := details.value);
      Advanced(c, w1.db, ProvisionReady(d.id), h, drawn, If(f.readyOk));
      if !f.readyOk {
        RollbackIsARun(c, w1, h, drawn, d.id, d.server, f, cleanup);
      } else {
        var active := UpdateNode(w1.db, d.id, row.(status := Active));
        Advanced(c, w1.db, ProvisionActivate(d.id), h, drawn, If(f.activateOk).(row := row));
        if !f.activateOk || active.None? {
          RollbackIsARun(c, w1, h, drawn, d.id, d.server, f, cleanup);
        } else {
          ReachedBy(c, active.value, h, drawn);
        }
      }
    }
  }

  lemma ReachedBy(c: Config, db: Db, h: map<NodeId, nat>, drawn: set<NodeId>)
    requires Reachable(c, Quiet(db, h, drawn))
    ensures IsReached(c, db)
  {
  }

  /** A provisioning of a new node, however it ends, is a run. */
  lemma ProvisioningIsARun(c: Config, cleanup: bool, w: Provisioning.World, h: map<NodeId, nat>, drawn: set<NodeId>,
                           d: Provisioning.Draw, f: Provisioning.ProvisionFaults)
    requires Reachable(c, Quiet(w.db, h, drawn)) && d.id !in drawn && Provisioning.IsFresh(w, d)
    ensures IsReached(c, Provisioning.Provision(c, cleanup, w, d, f).world.db)
  {
    hide Reachable;
    hide IsReached;
    hide Services.AllocateSubnet;
    hide Provisioning.Finish;
    hide Provisioning.RolledBack;
    hide TaskStep;
    hide KeyTaken;
    var record := InsertNode(w.db, d.id, NodeRow(Tables.Provisioning, "", d.id));
    if !f.recordOk || record.None? {
      ReachedBy(c, w.db, h, drawn);
    } else {
      var db := record.value;
      RecordingSteps(c, w.db, h, drawn, d);
      var a := Services.AllocateSubnet(c, db, d.id, f.allocate);
      SubnetSteps(c, db, h, drawn + {d.id}, d.id, f.allocate);
      if a.network.None? {
        RowRollbackIsARun(c, w.(db := a.db), h, drawn + {d.id}, d.id, f, cleanup);
      } else {
        var h1 := h[d.id := a.network.value];
        var launched := Provisioning.World(a.db, Provisioning.Launch(w.servers, d.server, f.cloud));
        CloudStep(c, a.db, h1, drawn + {d.id}, d.id, f.cloud.create.Done? && f.cloud.healthOk);
        if f.cloud.create.Done? && f.cloud.healthOk {
          FinishingIsARun(c, launched, h1, drawn + {d.id}, d, f, cleanup);
        } else {
          RollbackIsARun(c, launched, h1, drawn + {d.id}, d.id, "", f, cleanup);
        }
      }
    }
  }

  lemma RecordingSteps(c: Config, db: Db, h: map<NodeId, nat>, drawn: set<NodeId>, d: Provisioning.Draw)
    requires Reachable(c, Quiet(db, h, drawn)) && d.id !in drawn && d.id !in db.subnets
    requires InsertNode(db, d.id, NodeRow(Tables.Provisioning, "", d.id)).Some?
    ensures Reachable(c, Busy(InsertNode(db, d.id, NodeRow(Tables.Provisioning, "", d.id)).value, ProvisionUsed(d.id), h,
                              drawn + {d.id}))
  {
    hide KeyTaken;
    Recording(c, db, h, drawn, d.id);
  }

  lemma SubnetSteps(c: Config, db: Db, h: map<NodeId, nat>, drawn: set<NodeId>, id: NodeId, f: Services.AllocateFaults)
    requires Reachable(c, Busy(db, ProvisionUsed(id), h, drawn)) && id !in db.subnets
    ensures var a := Services.AllocateSubnet(c, db, id, f);
            if a.network.None? then a.db == db && Reachable(c, Busy(db, DeleteRow(id), h, drawn))
            else Reachable(c, Busy(a.db, ProvisionCloud(id), h[id := a.network.value], drawn))
  {
    hide Reachable;
    hide ConnectStep;
    hide RemoveStep;
    hide MigrateStep;
    hide DestroyStep;
    hide PickNetwork;
    hide InsertSubnet;
    hide ValidNodeId;
    var network := PickNetwork(c, UsedNetworks(db));
    Advanced(c, db, ProvisionUsed(id), h, drawn, If(f.usedOk && ValidNodeId(id)));
    if f.usedOk && ValidNodeId(id) && network.Some? {
      Advanced(c, db, ProvisionInsert(id, network.value), h, drawn, If(f.insertOk));
    }
  }

  lemma CloudStep(c: Config, db: Db, h: map<NodeId, nat>, drawn: set<NodeId>, id: NodeId, ok: bool)
    requires Reachable(c, Busy(db, ProvisionCloud(id), h, drawn))
    ensures Reachable(c, Busy(db, if ok then ProvisionDetails(id) else ReleaseExists(id, true), h, drawn))
  {
    hide Reachable;
    Advanced(c, db, ProvisionCloud(id), h, drawn, If(ok));
  }

  // ---- destroying and cleaning up ----

  /** A destruction, whatever fails, is a run. */
  lemma DestructionIsARun(c: Config, w: Provisioning.World, h: map<NodeId, nat>, drawn: set<NodeId>, id: NodeId,
                          clients: nat, f: Provisioning.DestroyFaults)
    requires Reachable(c, Quiet(w.db, h, drawn))
    ensures Reachable(c, Quiet(Provisioning.Destroy(w, id, clients, f).world.db, h, drawn))
  {
    hide Reachable;
    hide TaskStep;
    hide UpdateNode;
    hide DeleteNode;
    hide Services.ReleaseSubnet;
    if f.getOk && id in w.db.nodes && clients == 0 && w.db.nodes[id].status != Destroying && f.saveOk {
      var row := w.db.nodes[id].(status := Destroying);
      var marked := UpdateNode(w.db, id, row);
      if marked.Some? {
        MarkingSteps(c, w.db, h, drawn, id, row);
        ReleasingSteps(c, marked.value, h, drawn, id, f.release);
        RowDeletion(c, Services.ReleaseSubnet(marked.value, id, f.release).db, h, drawn, id, f.deleteOk);
      }
    }
  }

  lemma MarkingSteps(c: Config, db: Db, h: map<NodeId, nat>, drawn: set<NodeId>, id: NodeId, row: NodeRow)
    requires Reachable(c, Quiet(db, h, drawn)) && id in db.nodes && row.status == Destroying
    requires UpdateNode(db, id, row).Some?
    ensures Reachable(c, Busy(UpdateNode(db, id, row).value, ReleaseExists(id, true), h, drawn))
  {
    hide Reachable;
    hide ConnectStep;
    hide RemoveStep;
    hide MigrateStep;
    hide ProvisionStep;
    hide UpdateNode;
    Spawned(c, db, DestroyGet(id), h, drawn);
    Advanced(c, db, DestroyGet(id), h, drawn, Yes(""));
    Advanced(c, db, DestroyMark(id), h, drawn, Yes("").(row := row));
  }

  /** Taking the subnet rows of any set of nodes is a run. */
  lemma {:induction false} ReleasesAreARun(c: Config, db: Db, h: map<NodeId, nat>, drawn: set<NodeId>, taken: set<NodeId>)
    requires Reachable(c, Quiet(db, h, drawn)) && taken <= db.subnets.Keys
    ensures Reachable(c, Quiet(db.(subnets := db.subnets - taken), h, drawn))
  {
    hide Reachable;
    if n :| n in taken {
      ReleasesAreARun(c, db, h, drawn, taken - {n});
      var before := db.(subnets := db.subnets - (taken - {n}));
      Releasing(c, before, h, drawn, n);
      assert DeleteSubnet(before, n) == db.(subnets := db.subnets - taken);
    } else {
      assert db.subnets - taken == db.subnets;
    }
  }

  /** So is a cleanup of unused subnets, ... */
  lemma UnusedSubnetCleanupIsARun(c: Config, db: Db, h: map<NodeId, nat>, drawn: set<NodeId>, lookupOk: NodeId -> bool,
                                  faults: NodeId -> Services.ReleaseFaults)
    requires Reachable(c, Quiet(db, h, drawn))
    ensures Reachable(c, Quiet(db.(subnets := db.subnets - Cleanup.Released(db, lookupOk, faults)), h, drawn))
  {
    ReleasesAreARun(c, db, h, drawn, Cleanup.Released(db, lookupOk, faults));
  }

  /** ... a cleanup of inactive peers, ... */
  lemma {:induction false} InactivePeerCleanupIsARun(c: Config, db: Db, h: map<NodeId, nat>, drawn: set<NodeId>,
                                                     inactive: seq<PeerId>, faults: PeerId -> Services.RemovalFaults, n: nat)
    requires Reachable(c, Quiet(db, h, drawn)) && n <= |inactive|
    ensures Reachable(c, Quiet(Cleanup.RemovedAll(db, inactive, faults, n).db, h, drawn))
  {
    hide Reachable;
    hide Services.RemovePeerRow;
    if n > 0 {
      InactivePeerCleanupIsARun(c, db, h, drawn, inactive, faults, n - 1);
      var before := Cleanup.RemovedAll(db, inactive, faults, n - 1).db;
      Spawned(c, before, RemoveGet(inactive[n - 1]), h, drawn);
      RemovingIsARun(c, before, h, drawn, inactive[n - 1], faults(inactive[n - 1]));
    }
  }

  /** ... and a cleanup of orphaned nodes. */
  lemma {:induction false} OrphanCleanupIsARun(c: Config, w: Provisioning.World, h: map<NodeId, nat>, drawn: set<NodeId>,
                                               listed: seq<NodeId>, clients: NodeId -> nat,
                                               faults: NodeId -> Provisioning.DestroyFaults, n: nat)
    requires Reachable(c, Quiet(w.db, h, drawn)) && n <= |listed|
    ensures Reachable(c, Quiet(Cleanup.DestroyedAll(w, listed, clients, faults, n).world.db, h, drawn))
  {
    hide Reachable;
    hide Provisioning.Destroy;
    if n > 0 {
      OrphanCleanupIsARun(c, w, h, drawn, listed, clients, faults, n - 1);
      var before, id := Cleanup.DestroyedAll(w, listed, clients, faults, n - 1).world, listed[n - 1];
      DestructionIsARun(c, before, h, drawn, id, clients(id), faults(id).(release := Cleanup.NO_RELEASE));
    }
  }

  /** What is reached is safe. */
  lemma ReachedIsSafe(c: Config, s: System)
    requires Reachable(c, s)
    ensures Safe(c, s.db) && TablesOk(c, s.db, s.history, s.drawn) && Services.Placed(c, s.db)
  {
    var run :| s == Run(c, START, run);
    RunKeeps(c, START, run);
    TablesAreSafe(c, s.db, s.history, s.drawn);
    Services.TablesArePlaced(c, s.db, s.history, s.drawn);
  }
}
