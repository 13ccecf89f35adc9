/** What one part of the allocator assumes of another: the search on one node against the
    conflict check on all nodes, and counting against searching. */
module Agreement {
  import opened Bits
  import opened Network
  import opened Allocator
  import opened Placement
  import opened Tables
  import opened Text
  import opened Registry
  import Services

  /** A peer left behind when its node's subnet was released, still holding `ip`. */
  predicate LeftBehind(db: Db, ip: nat) {
    exists p :: p in db.peers && db.peers[p].node !in db.subnets && db.peers[p].ip == ip
  }

  lemma HeldInRange(c: Config, db: Db, h: map<NodeId, nat>, drawn: set<NodeId>, p: PeerId)
    requires TablesOk(c, db, h, drawn) && p in db.peers && db.peers[p].node in db.subnets
    ensures InClientRange(c, db.subnets[db.peers[p].node], db.peers[p].ip)
  {
    hide InClientRange;
    hide IsNetwork;
    hide Consistent;
  }

  lemma RangesApart(c: Config, db: Db, h: map<NodeId, nat>, drawn: set<NodeId>, m: NodeId, n: NodeId, ip: nat)
    requires TablesOk(c, db, h, drawn) && m in db.subnets && n in db.subnets && m != n
    requires InClientRange(c, db.subnets[m], ip)
    ensures !InClientRange(c, db.subnets[n], ip)
  {
    hide Pow2;
    hide UniquePeers;
    hide Owned;
    NetworksDisjoint(db.subnets[m], db.subnets[n], BlockSize(c), ip);
  }

  /** An address that the search on a node finds, with nothing in between, is in use exactly
      when a peer of a node without a subnet row still holds it. In particular there is no
      conflict when every peer's node holds a subnet. */
  lemma SearchMeetsConflictExactlyWhen(c: Config, db: Db, h: map<NodeId, nat>, drawn: set<NodeId>, id: NodeId,
                                       f: Services.ReadFaults)
    requires TablesOk(c, db, h, drawn) && Services.ClientIp(c, db, id, f).Some?
    ensures var ip := Services.ClientIp(c, db, id, f).value;
            && (IpInUse(db, ip) <==> LeftBehind(db, ip))
            && ((forall p :: p in db.peers ==> db.peers[p].node in db.subnets) ==> !IpInUse(db, ip))
  {
    hide TablesOk;
    hide InClientRange;
    var ip := Services.ClientIp(c, db, id, f).value;
    assert ip !in IpsOn(db, id);
    assert InClientRange(c, db.subnets[id], ip) by {
      PickedInRange(c, db.subnets[id], IpsOn(db, id));
    }
    if IpInUse(db, ip) && !LeftBehind(db, ip) {
      var p :| p in db.peers && db.peers[p].ip == ip;
      HeldInRange(c, db, h, drawn, p);
      RangesApart(c, db, h, drawn, db.peers[p].node, id, ip);
    }
  }

  /** The lowest client address that none of the node's own peers holds. */
  ghost predicate IsLowestFree(c: Config, db: Db, id: NodeId, ip: nat) {
    && id in db.subnets && InClientRange(c, db.subnets[id], ip) && ip !in IpsOn(db, id)
    && forall lower: nat :: RangeStart(db.subnets[id]) <= lower < ip ==> lower in IpsOn(db, id)
  }

  /** Seen before the search: it will find an address that is taken exactly when the lowest
      client address not held by the node's own peers has been left behind. */
  lemma ConflictIsPredictable(c: Config, db: Db, h: map<NodeId, nat>, drawn: set<NodeId>, id: NodeId, f: Services.ReadFaults)
    requires TablesOk(c, db, h, drawn) && ValidNodeId(id) && f.subnetOk && f.peersOk
    ensures (exists ip: nat :: IsLowestFree(c, db, id, ip) && LeftBehind(db, ip))
            <==> Services.ClientIp(c, db, id, f).Some? && IpInUse(db, Services.ClientIp(c, db, id, f).value)
  {
    hide TablesOk;
    hide LeftBehind;
    hide IpInUse;
    hide Pow2;
    var found := Services.ClientIp(c, db, id, f);
    if found.Some? {
      SearchMeetsConflictExactlyWhen(c, db, h, drawn, id, f);
      assert IsLowestFree(c, db, id, found.value);
    }
    forall ip: nat | IsLowestFree(c, db, id, ip) ensures found == Some(ip) {
      FirstFreeIs(RangeStart(db.subnets[id]), RangeEnd(db.subnets[id], c.subnetMask), IpsOn(db, id), ip);
    }
  }

  lemma PickedInRange(c: Config, network: nat, taken: set<nat>)
    ensures PickIp(c, network, taken).Some? ==> InClientRange(c, network, PickIp(c, network, taken).value)
  {
  }

  // ---- counting ----

  lemma {:induction false} DistinctIps(db: Db, ps: set<PeerId>)
    requires UniquePeers(db.peers) && forall p :: p in ps ==> p in db.peers
    ensures |set p | p in ps :: db.peers[p].ip| == |ps|
  {
    var ips := set p | p in ps :: db.peers[p].ip;
    if ps != {} {
      var p :| p in ps;
      DistinctIps(db, ps - {p});
      var rest := set q | q in ps - {p} :: db.peers[q].ip;
      assert ips == rest + {db.peers[p].ip};
      assert db.peers[p].ip !in rest;
    }
  }

  lemma OneIpEach(db: Db, id: NodeId)
    requires UniquePeers(db.peers)
    ensures |PeersOn(db, id)| == |IpsOn(db, id)|
  {
    DistinctIps(db, PeersOn(db, id));
    assert IpsOn(db, id) == set p | p in PeersOn(db, id) :: db.peers[p].ip;
  }

  /** In any reachable state, the peers of a node and the count it reports add up to the
      addresses of its range, and the count is positive exactly when an address can be found. */
  lemma CountMeetsSearch(c: Config, db: Db, h: map<NodeId, nat>, drawn: set<NodeId>, id: NodeId, f: Services.ReadFaults)
    requires TablesOk(c, db, h, drawn) && ValidNodeId(id) && id in db.subnets && f.subnetOk && f.peersOk
    ensures var count := AvailableIps(c.subnetMask, |PeersOn(db, id)|);
            && |PeersOn(db, id)| + count == TotalIps(c.subnetMask)
            && (count > 0 <==> Services.ClientIp(c, db, id, f).Some?)
  {
    OneIpEach(db, id);
    forall ip | ip in IpsOn(db, id) ensures InClientRange(c, db.subnets[id], ip) {
      var p :| p in db.peers && db.peers[p].node == id && db.peers[p].ip == ip;
      HeldInRange(c, db, h, drawn, p);
    }
    Sizes(c);
    RangeCount(c.subnetMask, db.subnets[id], IpsOn(db, id));
  }

  // ---- reachable states ----

  function Yes(name: string): Choice {
    Choice(true, name, [], NodeRow(Active, name, name))
  }

  /** A run extended by one event. */
  lemma Extend(c: Config, run: seq<Event>, s: System, e: Event) returns (run': seq<Event>, s': System)
    requires s == Run(c, START, run)
    ensures s' == Step(c, s, e) && s' == Run(c, START, run')
  {
    run' := run + [e];
    assert run'[..|run|] == run;
    s' := Step(c, s, e);
  }

  ghost predicate Reachable(c: Config, s: System) {
    exists run :: s == Run(c, START, run)
  }

  lemma StepReaches(c: Config, s: System, e: Event)
    requires Reachable(c, s)
    ensures Reachable(c, Step(c, s, e))
  {
    var run :| s == Run(c, START, run);
    var run', s' := Extend(c, run, s, e);
  }

  /** No task running. */
  function Quiet(db: Db, h: map<NodeId, nat>, drawn: set<NodeId>): System {
    System(db, map[], h, drawn)
  }

  function Busy(db: Db, t: Task, h: map<NodeId, nat>, drawn: set<NodeId>): System {
    System(db, map[0 := t], h, drawn)
  }

  lemma Spawned(c: Config, db: Db, t: Task, h: map<NodeId, nat>, drawn: set<NodeId>)
    requires Reachable(c, Quiet(db, h, drawn)) && CanSpawn(Quiet(db, h, drawn), t)
    ensures Reachable(c, Busy(db, t, h, if t.ProvisionCreate? then drawn + {t.id} else drawn))
  {
    StepReaches(c, Quiet(db, h, drawn), Spawn(0, t));
  }

  lemma Advanced(c: Config, db: Db, t: Task, h: map<NodeId, nat>, drawn: set<NodeId>, ch: Choice)
    requires Reachable(c, Busy(db, t, h, drawn))
    ensures var s := Busy(db, t, h, drawn);
            var o := TaskStep(c, db, t, ch);
            Reachable(c, if o.next.Some? then Busy(o.db, o.next.value, Remember(s, t, o), drawn)
                         else Quiet(o.db, Remember(s, t, o), drawn))
  {
    hide TaskStep;
    var s := Busy(db, t, h, drawn);
    StepReaches(c, s, Advance(0, ch));
    var o := TaskStep(c, db, t, ch);
    assert s.tasks - {0} == map[];
    assert Step(c, s, Advance(0, ch)) == if o.next.Some? then Busy(o.db, o.next.value, Remember(s, t, o), drawn)
                                         else Quiet(o.db, Remember(s, t, o), drawn);
  }

  /** Provisioning of a new node: its record, ... */
  lemma Recording(c: Config, db: Db, h: map<NodeId, nat>, drawn: set<NodeId>, id: NodeId)
    requires Reachable(c, Quiet(db, h, drawn)) && id !in drawn && id !in db.nodes && id !in db.subnets
    requires !KeyTaken(db, id, id)
    ensures Reachable(c, Busy(db.(nodes := db.nodes[id := NodeRow(Provisioning, "", id)]), ProvisionUsed(id), h, drawn + {id}))
  {
    hide Reachable;
    hide ConnectStep;
    hide RemoveStep;
    hide MigrateStep;
    hide DestroyStep;
    var db1 := db.(nodes := db.nodes[id := NodeRow(Provisioning, "", id)]);
    Spawned(c, db, ProvisionCreate(id), h, drawn);
    Advanced(c, db, ProvisionCreate(id), h, drawn + {id}, Yes(id));
    Advanced(c, db1, ProvisionLookup(id), h, drawn + {id}, Yes(id));
  }

  /** ... its subnet row, ... */
  lemma Placing(c: Config, db: Db, h: map<NodeId, nat>, drawn: set<NodeId>, id: NodeId)
    requires Reachable(c, Busy(db, ProvisionUsed(id), h, drawn)) && id in db.nodes && id !in db.subnets
    requires UsedNetworks(db) == {} && PickNetwork(c, {}).Some?
    ensures var n := PickNetwork(c, {}).value;
            Reachable(c, Busy(db.(subnets := db.subnets[id := n]), ProvisionCloud(id), h[id := n], drawn))
  {
    hide PickNetwork;
    hide Reachable;
    hide ConnectStep;
    hide RemoveStep;
    hide MigrateStep;
    hide DestroyStep;
    var n := PickNetwork(c, {}).value;
    Advanced(c, db, ProvisionUsed(id), h, drawn, Yes(id));
    Advanced(c, db, ProvisionInsert(id, n), h, drawn, Yes(id));
  }

  /** The subnet of a node released while its peers stay. */
  lemma Releasing(c: Config, db: Db, h: map<NodeId, nat>, drawn: set<NodeId>, id: NodeId)
    requires Reachable(c, Quiet(db, h, drawn)) && id in db.subnets
    ensures Reachable(c, Quiet(DeleteSubnet(db, id), h, drawn))
  {
    hide Reachable;
    Spawned(c, db, ReleaseExists(id, false), h, drawn);
    Advanced(c, db, ReleaseExists(id, false), h, drawn, Yes(id));
    Advanced(c, db, ReleaseDelete(id, false), h, drawn, Yes(id));
  }
}
