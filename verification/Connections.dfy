/** internal/rotator/services/peer_connection_async.go: one connection attempt run alone, over
    the tables and the chosen node's peer table. */
module Connections {
  import opened Bits
  import opened Ipv4
  import opened Network
  import opened Placement
  import opened Tables
  import opened Text
  import opened WireGuard
  import opened WireGuardNode
  import opened Services
  import Registry
  import Agreement

  /** The allowed address of a client: a /32 route. */
  function HostRoute(ip: nat): (text: string)
    requires ip < ADDRESSES
    ensures text != ""
  {
    DottedText(FromValue(ip)) + "/32"
  }

  /** It reads back as the one address, as a prefix of all 32 bits. */
  lemma HostRouteReadsBack(ip: nat)
    requires ip < ADDRESSES
    ensures IsCidrText(HostRoute(ip), FromValue(ip), 32) && Value(FromValue(ip)) == ip
  {
    hide DottedText;
    hide FromValue;
    hide IsDottedText;
    ValueOfFromValue(ip);
    CidrTextReadsBack(FromValue(ip), 32);
    assert Digits(32) == "32";
    var parts := [DottedText(FromValue(ip)), "32"];
    assert parts[1..] == ["32"] && Join(["32"], '/') == "32";
    assert CidrText(FromValue(ip), 32) == parts[0] + ['/'] + "32";
    assert parts[0] + ['/'] + "32" == HostRoute(ip);
  }

  lemma HostRouteInjective(a: nat, b: nat)
    requires a < ADDRESSES && b < ADDRESSES
    ensures HostRoute(a) == HostRoute(b) <==> a == b
  {
    hide DottedText;
    hide FromValue;
    if HostRoute(a) == HostRoute(b) {
      var s, t := DottedText(FromValue(a)), DottedText(FromValue(b));
      assert (s + "/32")[..|s|] == s && (t + "/32")[..|t|] == t;
      DottedTextInjective(FromValue(a), FromValue(b));
      ValueOfFromValue(a);
      ValueOfFromValue(b);
    }
  }

  /** What the worker and the migration ask a node to add; there is never an endpoint. */
  function ClientConfig(key: string, ip: nat): PeerConfig
    requires ip < ADDRESSES
  {
    PeerConfig(key, [HostRoute(ip)], None, None)
  }

  lemma ClientIpIsAddress(c: Config, db: Db, id: NodeId, f: ReadFaults)
    requires Placed(c, db)
    ensures ClientIp(c, db, id, f).Some? ==>
              ClientIp(c, db, id, f).value < ADDRESSES
              && InClientRange(c, db.subnets[id], ClientIp(c, db, id, f).value)
  {
    hide Pow2;
    if ClientIp(c, db, id, f).Some? {
      NetworkEnd(c, db.subnets[id]);
      Agreement.PickedInRange(c, db.subnets[id], IpsOn(db, id));
    }
  }

  // ---- the attempt ----

  datatype Site = Site(db: Db, table: Table)

  datatype Connection = Connection(site: Site, ok: bool)

  datatype ConnectFaults = ConnectFaults(
    selectOk: bool, capacityOk: bool, read: ReadFaults, create: CreateFaults, add: AddFaults, remove: RemovalFaults)

  predicate CanAccept(db: Db, node: NodeId) {
    node in db.nodes && db.nodes[node].status == Active
  }

  /** `processConnectionRequest`: a node, its capacity, an address, a peer row, an entry in the
      node's table; a failed entry takes the row back. Releasing the address does nothing. */
  function Connect(c: Config, i: Interface, s: Site, node: NodeId, key: string, peer: PeerId, f: ConnectFaults): Connection
    requires Placed(c, s.db)
  {
    var ip := ClientIp(c, s.db, node, f.read);
    if !f.selectOk || !CanAccept(s.db, node) || !f.capacityOk || ip.None? then Connection(s, false)
    else
      var created := CreatePeerRow(s.db, peer, PeerRow(node, key, ip.value, PeerActive), f.create);
      if !created.ok then Connection(s, false)
      else
        ClientIpIsAddress(c, s.db, node, f.read);
        var added := AddResult(i, s.table, ClientConfig(key, ip.value), f.add);
        if added.ok then Connection(Site(created.db, added.table), true)
        else Connection(Site(RemovePeerRow(created.db, peer, f.remove).db, added.table), false)
  }

  /** Somebody on the node already has this key or this address. */
  predicate Held(t: Table, key: string, ip: nat)
    requires ip < ADDRESSES
  {
    key in t || exists k :: k in t && HostRoute(ip) in t[k].ips
  }

  /** Both compensations of a failed configuration succeed. */
  predicate Compensated(f: ConnectFaults) {
    f.remove.getOk && f.remove.deleteOk && !f.add.rollback.command.Failed?
  }

  /** A failed addition, rolled back where the code rolls back, leaves something on the node: the
      report of its command was lost, or it went out unguarded over somebody's entry. */
  predicate LeavesTrace(i: Interface, t: Table, key: string, ip: nat, f: AddFaults)
    requires ip < ADDRESSES
  {
    && !(f.listOk && Conflicts(i, t, ClientConfig(key, ip)))
    && match f.command
       case Failed => false
       case Lost => !(key in t && t[key].ips == {HostRoute(ip)})
       case Done => Held(t, key, ip)
  }

  lemma ConflictWhenHeld(i: Interface, t: Table, key: string, ip: nat)
    requires ip < ADDRESSES && IsTable(t)
    ensures Held(t, key, ip) ==> Conflicts(i, t, ClientConfig(key, ip))
  {
    hide IsValidKey;
    hide HostRoute;
    hide DisjointIps;
    if key !in t && Held(t, key, ip) {
      var k :| k in t && HostRoute(ip) in t[k].ips;
      assert HostRoute(ip) in ClientConfig(key, ip).ips && HostRoute(ip) in Printed(t[k]);
    }
  }

  lemma HostRouteIsNotNone(ip: nat)
    requires ip < ADDRESSES
    ensures HostRoute(ip) != NONE
  {
    hide DottedText;
    hide FromValue;
    var t := HostRoute(ip);
    assert t[|t| - 1] == '2' && NONE[5] == ')' && |NONE| == 6;
  }

  lemma ConflictsExactlyWhen(i: Interface, t: Table, key: string, ip: nat)
    requires ip < ADDRESSES
    ensures Conflicts(i, t, ClientConfig(key, ip))
            <==> key == i.key || key in t || HostRoute(ip) == i.fwmark
                 || exists k :: k in t && HostRoute(ip) in t[k].ips
  {
    hide HostRoute;
    HostRouteIsNotNone(ip);
    var cfg := ClientConfig(key, ip);
    assert cfg.ips[0] == HostRoute(ip) && forall text :: text in cfg.ips <==> text == HostRoute(ip);
    assert forall k :: k in t ==> (HostRoute(ip) in Printed(t[k]) <==> HostRoute(ip) in t[k].ips);
    if k, text :| k in t && text in cfg.ips && text in Printed(t[k]) {
      assert HostRoute(ip) in t[k].ips;
    }
    if k :| k in t && HostRoute(ip) in t[k].ips {
      assert HostRoute(ip) in cfg.ips;
    }
  }

  lemma ClientConfigIsValid(key: string, ip: nat)
    requires ip < ADDRESSES && IsValidKey(key)
    ensures IsValidConfig(ClientConfig(key, ip)) && Ips(ClientConfig(key, ip)) == {HostRoute(ip)}
  {
    hide IsValidKey;
    hide HostRoute;
    assert HostRoute(ip) in ClientConfig(key, ip).ips;
  }

  /** The node's side: what an addition leaves. */
  lemma AddedEntry(i: Interface, t: Table, key: string, ip: nat, f: AddFaults)
    requires ip < ADDRESSES && IsValidKey(key) && IsTable(t)
    ensures var r := AddResult(i, t, ClientConfig(key, ip), f);
            && (r.ok ==> key in r.table && r.table[key].ips == {HostRoute(ip)} && r.table.Keys == t.Keys + {key})
            && (r.ok && f.listOk ==> r.table == t[key := Entry({HostRoute(ip)}, None)] && key !in t)
            && (!r.ok && !f.rollback.command.Failed? ==> (r.table == t <==> !LeavesTrace(i, t, key, ip, f)))
            && (f.command.Lost? && !(f.listOk && Conflicts(i, t, ClientConfig(key, ip))) ==>
                  !r.ok && key in r.table && r.table[key].ips == {HostRoute(ip)})
            && (f.listOk && !f.command.Lost? ==> !LeavesTrace(i, t, key, ip, f))
            && (forall k :: k in t && k != key ==>
                  k in r.table && r.table[k].endpoint == t[k].endpoint
                  && (r.table[k].ips == t[k].ips || r.table[k].ips == t[k].ips - {HostRoute(ip)}))
            && r.table.Keys <= t.Keys + {key}
  {
    hide IsValidKey;
    hide HostRoute;
    hide DisjointIps;
    hide Conflicts;
    var cfg := ClientConfig(key, ip);
    ClientConfigIsValid(key, ip);
    ConflictWhenHeld(i, t, key, ip);
    hide WgSet;
    hide Held;
    SetAgain(t, key, ip);
    SetAndRemoved(t, key, ip);
    if f.listOk && !Conflicts(i, t, cfg) {
      NewEntry(t, key, ip);
    }
    SetTakesOneAddress(t, key, ip);
  }

  /** Nobody on the node has the key or the address. */
  predicate IsFree(i: Interface, t: Table, key: string, ip: nat)
    requires ip < ADDRESSES
  {
    key != i.key && key !in t && HostRoute(ip) != i.fwmark && forall k :: k in t ==> HostRoute(ip) !in t[k].ips
  }

  /** A client is added exactly when nobody has its key or address, as far as the check can see,
      and the command and its verification work; it is then the only change, if checked. */
  lemma AddsExactlyWhen(i: Interface, t: Table, key: string, ip: nat, f: AddFaults)
    requires ip < ADDRESSES && IsValidKey(key)
    ensures var r := AddResult(i, t, ClientConfig(key, ip), f);
            && (r.ok <==> (f.listOk ==> IsFree(i, t, key, ip)) && f.command.Done? && f.verifyOk)
            && (r.ok ==> HasEntry(r.table, key, ip))
            && (r.ok && f.listOk ==> r.table == t[key := Entry({HostRoute(ip)}, None)])
  {
    hide HostRoute;
    hide Conflicts;
    hide IsValidKey;
    ClientConfigIsValid(key, ip);
    ConflictsExactlyWhen(i, t, key, ip);
    SetTakesOneAddress(t, key, ip);
    if IsFree(i, t, key, ip) {
      NewEntry(t, key, ip);
    }
    hide WgSet;
  }

  /** Setting an entry changes nothing exactly when it is there already. */
  lemma SetAgain(t: Table, key: string, ip: nat)
    requires ip < ADDRESSES && IsTable(t)
    ensures WgSet(t, ClientConfig(key, ip)) == t <==> key in t && t[key].ips == {HostRoute(ip)}
  {
    hide IsValidKey;
    hide HostRoute;
    var cfg := ClientConfig(key, ip);
    assert cfg.ips[0] in cfg.ips;
    assert Ips(cfg) == {HostRoute(ip)};
    var u := WgSet(t, cfg);
    if key in t && t[key].ips == {HostRoute(ip)} {
      forall k | k in t && k != key ensures t[k].ips - {HostRoute(ip)} == t[k].ips {
        assert t[k].ips !! t[key].ips;
      }
    } else if key in t {
      assert u[key].ips == {HostRoute(ip)};
    } else {
      assert key in u;
    }
  }

  /** Setting and removing an entry changes nothing exactly when nobody held key or address. */
  lemma SetAndRemoved(t: Table, key: string, ip: nat)
    requires ip < ADDRESSES
    ensures WgRemove(WgSet(t, ClientConfig(key, ip)), key) == t <==> !Held(t, key, ip)
  {
    hide HostRoute;
    var cfg := ClientConfig(key, ip);
    assert cfg.ips[0] in cfg.ips;
    assert Ips(cfg) == {HostRoute(ip)};
    var u := WgRemove(WgSet(t, cfg), key);
    if !Held(t, key, ip) {
      assert forall k :: k in t ==> t[k].ips - {HostRoute(ip)} == t[k].ips;
    } else if key !in t {
      var k :| k in t && HostRoute(ip) in t[k].ips;
      assert HostRoute(ip) !in u[k].ips;
    }
  }

  lemma NewEntry(t: Table, key: string, ip: nat)
    requires ip < ADDRESSES && !Held(t, key, ip)
    ensures key !in t && WgSet(t, ClientConfig(key, ip)) == t[key := Entry({HostRoute(ip)}, None)]
  {
    hide HostRoute;
    var cfg := ClientConfig(key, ip);
    assert cfg.ips[0] in cfg.ips;
    assert Ips(cfg) == {HostRoute(ip)};
    assert forall k :: k in t ==> t[k].ips - {HostRoute(ip)} == t[k].ips;
  }

  lemma SetTakesOneAddress(t: Table, key: string, ip: nat)
    requires ip < ADDRESSES
    ensures var u := WgSet(t, ClientConfig(key, ip));
            && u.Keys == t.Keys + {key} && u[key].ips == {HostRoute(ip)}
            && (forall k :: k in t && k != key ==> u[k] == t[k].(ips := t[k].ips - {HostRoute(ip)}))
  {
    hide HostRoute;
    var cfg := ClientConfig(key, ip);
    assert cfg.ips[0] in cfg.ips;
    assert Ips(cfg) == {HostRoute(ip)};
  }

  predicate HasEntry(t: Table, key: string, ip: nat)
    requires ip < ADDRESSES
  {
    key in t && t[key].ips == {HostRoute(ip)}
  }

  /** Whether an addition, reported or not, ends with the client's entry on the node. */
  predicate EntryThere(i: Interface, t: Table, key: string, ip: nat, f: AddFaults)
    requires ip < ADDRESSES
  {
    if (f.listOk && Conflicts(i, t, ClientConfig(key, ip))) || f.command.Failed?
    then HasEntry(t, key, ip)
    else f.command.Lost? || f.verifyOk || f.rollback.command.Failed?
  }

  lemma EntryThereExactlyWhen(i: Interface, t: Table, key: string, ip: nat, f: AddFaults)
    requires ip < ADDRESSES && IsValidKey(key)
    ensures HasEntry(AddResult(i, t, ClientConfig(key, ip), f).table, key, ip) <==> EntryThere(i, t, key, ip, f)
  {
    hide HostRoute;
    hide Conflicts;
    ClientConfigIsValid(key, ip);
    hide IsValidKey;
    SetTakesOneAddress(t, key, ip);
    hide WgSet;
  }

  /** The tables' side: a created row taken back. */
  lemma RowTakenBack(db: Db, peer: PeerId, row: PeerRow, g: CreateFaults, f: RemovalFaults)
    requires peer !in db.peers && peer != "" && CreatePeerRow(db, peer, row, g).ok
    ensures CreatePeerRow(db, peer, row, g).db == db.(peers := db.peers[peer := row])
    ensures var r := RemovePeerRow(CreatePeerRow(db, peer, row, g).db, peer, f).db;
            && r.nodes == db.nodes && r.subnets == db.subnets && r.peers - {peer} == db.peers
            && (r == db <==> f.getOk && f.deleteOk)
  {
    hide IpInUse;
    hide IdentifierInUse;
    hide IsValidKey;
    hide TrimSpace;
    assert db.peers[peer := row] - {peer} == db.peers;
    assert db.peers[peer := row][peer := row.(status := PeerRemoving)] - {peer} == db.peers;
  }

  /** An attempt succeeds exactly when the node is active with room and an address, key, address
      and identifier are new to the tables, the node has neither key nor address, as far as the
      check can see, and no statement and no command fails. */
  lemma ConnectsExactlyWhen(c: Config, i: Interface, s: Site, node: NodeId, key: string, peer: PeerId, f: ConnectFaults)
    requires Placed(c, s.db)
    ensures var ip := ClientIp(c, s.db, node, f.read);
            Connect(c, i, s, node, key, peer, f).ok <==>
              && f.selectOk && f.capacityOk && f.create == CreateFaults(true, true, true)
              && f.add.command.Done? && f.add.verifyOk
              && node in s.db.nodes && s.db.nodes[node].status == Active && TrimSpace(node) != ""
              && IsValidKey(key) && (forall p :: p in s.db.peers ==> s.db.peers[p].identifier != key) && peer !in s.db.peers
              && ip.Some? && (forall p :: p in s.db.peers ==> s.db.peers[p].ip != ip.value)
              && (ClientIpIsAddress(c, s.db, node, f.read); f.add.listOk ==> IsFree(i, s.table, key, ip.value))
  {
    hide Placed;
    hide IsValidKey;
    hide HostRoute;
    hide PickIp;
    hide TrimSpace;
    hide AddResult;
    hide IsFree;
    var ip := ClientIp(c, s.db, node, f.read);
    if ip.Some? && IsValidKey(key) {
      ClientIpIsAddress(c, s.db, node, f.read);
      AddsExactlyWhen(i, s.table, key, ip.value, f.add);
    }
  }

  /** The state a lone attempt starts from. */
  ghost predicate CanConnect(c: Config, s: Site, h: map<NodeId, nat>, drawn: set<NodeId>, peer: PeerId) {
    && Registry.TablesOk(c, s.db, h, drawn) && Placed(c, s.db) && IsTable(s.table)
    && peer != "" && peer !in s.db.peers
  }

  /** Success adds one peer row, with an address of the node's client range that nobody had,
      and one node entry with the same key and address. */
  lemma SuccessAddsOne(c: Config, i: Interface, s: Site, h: map<NodeId, nat>, drawn: set<NodeId>,
                       node: NodeId, key: string, peer: PeerId, f: ConnectFaults)
    requires CanConnect(c, s, h, drawn, peer) && Connect(c, i, s, node, key, peer, f).ok
    ensures var r := Connect(c, i, s, node, key, peer, f).site;
            exists ip: nat :: ip < ADDRESSES
              && node in s.db.subnets && InClientRange(c, s.db.subnets[node], ip)
              && !IpInUse(s.db, ip) && !IdentifierInUse(s.db, key)
              && r.db == s.db.(peers := s.db.peers[peer := PeerRow(node, key, ip, PeerActive)])
              && key in r.table && r.table[key].ips == {HostRoute(ip)} && r.table.Keys == s.table.Keys + {key}
              && (f.add.listOk ==> key !in s.table && r.table == s.table[key := Entry({HostRoute(ip)}, None)])
    ensures Registry.TablesOk(c, Connect(c, i, s, node, key, peer, f).site.db, h, drawn)
  {
    hide Registry.TablesOk;
    hide Placed;
    hide IsTable;
    hide IsValidKey;
    hide HostRoute;
    hide PickIp;
    hide AddResult;
    hide InClientRange;
    hide IpInUse;
    hide IdentifierInUse;
    var ip := ClientIp(c, s.db, node, f.read).value;
    ClientIpIsAddress(c, s.db, node, f.read);
    AddedEntry(i, s.table, key, ip, f.add);
    var row := PeerRow(node, key, ip, PeerActive);
    RowTakenBack(s.db, peer, row, f.create, f.remove);
    AllocatedHolds(c, s.db, h, drawn, node, ip);
    Registry.InsertPeerKeeps(c, s.db, h, drawn, peer, row);
    var r := Connect(c, i, s, node, key, peer, f).site;
    assert r.db == s.db.(peers := s.db.peers[peer := PeerRow(node, key, ip, PeerActive)]);
  }

  lemma AllocatedHolds(c: Config, db: Db, h: map<NodeId, nat>, drawn: set<NodeId>, node: NodeId, ip: nat)
    requires Registry.TablesOk(c, db, h, drawn) && node in db.subnets && InClientRange(c, db.subnets[node], ip)
    ensures Registry.Holds(c, h, node, ip)
  {
  }

  /** A failed attempt whose compensations succeed leaves everything as it was, except that the
      node keeps a trace of an addition whose report was lost, which nobody rolls back, or that
      went out unguarded while somebody on the node held the key or the address. With a working
      listing and no lost report it leaves nothing. */
  lemma FailureLeavesNothing(c: Config, i: Interface, s: Site, h: map<NodeId, nat>, drawn: set<NodeId>,
                             node: NodeId, key: string, peer: PeerId, f: ConnectFaults)
    requires CanConnect(c, s, h, drawn, peer) && !Connect(c, i, s, node, key, peer, f).ok && Compensated(f)
    ensures var r := Connect(c, i, s, node, key, peer, f).site;
            && r.db == s.db
            && (r == s <==> !(ReachesNode(c, s.db, node, key, peer, f)
                              && LeavesTrace(i, s.table, key, AddressFor(c, s.db, node, f), f.add)))
            && (f.add.listOk && !f.add.command.Lost? ==> r == s)
  {
    hide Registry.TablesOk;
    hide Placed;
    hide IsTable;
    hide IsValidKey;
    hide HostRoute;
    hide PickIp;
    hide AddResult;
    hide IpInUse;
    hide IdentifierInUse;
    hide LeavesTrace;
    if ReachesNode(c, s.db, node, key, peer, f) {
      var ip := AddressFor(c, s.db, node, f);
      AddedEntry(i, s.table, key, ip, f.add);
      RowTakenBack(s.db, peer, PeerRow(node, key, ip, PeerActive), f.create, f.remove);
    }
  }

  const KEY := "AAAAAAAAAAAAAAAAAAAAAAAAAAAAAAAAAAAAAAAAAAA="

  const SMALL: Config := NetworkConfig(Some(Prefix([10, 8, 0, 0], 16)), 24, 0.8)

  /** One active node with a block and no peer row, on which somebody already has the key. */
  const OCCUPIED := Site(Db(map["n" := NodeRow(Active, "s", "k")], map["n" := 0xA08_0000], map[]),
                         map[KEY := Entry({"10.9.9.9/32"}, None)])

  const ALL_READS := ReadFaults(true, true)

  /** Listing fails, the command is done, its verification fails; all compensations succeed. */
  const UNGUARDED := ConnectFaults(true, true, ALL_READS, CreateFaults(true, true, true),
                            AddFaults(false, Done, false, NO_REMOVE_FAULTS), RemovalFaults(true, true, true))

  /** The node was in order before, every compensation succeeds, and still an entry is lost. */
  lemma UnguardedFailureLosesEntry(i: Interface)
    ensures CanConnect(SMALL, OCCUPIED, map["n" := 0xA08_0000], {"n"}, "p") && Compensated(UNGUARDED)
    ensures var r := Connect(SMALL, i, OCCUPIED, "n", KEY, "p", UNGUARDED);
            !r.ok && KEY in OCCUPIED.table && KEY !in r.site.table && r.site.db == OCCUPIED.db
  {
    OccupiedIsReady();
    OccupiedIsReached();
    hide HostRoute;
    hide IsValidKey;
    hide ClientIp;
    hide CreatePeerRow;
    hide RemovePeerRow;
    hide CanConnect;
    var row := PeerRow("n", KEY, 0xA08_0002, PeerActive);
    RowTakenBack(OCCUPIED.db, "p", row, UNGUARDED.create, UNGUARDED.remove);
    KeyIsValid();
    ClientConfigIsValid(KEY, 0xA08_0002);
  }

  lemma OccupiedIsReached()
    ensures ClientIp(SMALL, OCCUPIED.db, "n", ALL_READS) == Some(0xA08_0002)
    ensures CreatePeerRow(OCCUPIED.db, "p", PeerRow("n", KEY, 0xA08_0002, PeerActive), UNGUARDED.create).ok
  {
    hide IsValidKey;
    hide PickIp;
    hide TrimSpace;
    KeyIsValid();
    assert IpsOn(OCCUPIED.db, "n") == {};
    FirstAddress(SMALL, 0xA08_0000);
    WordIsNotBlank();
  }

  lemma WordIsNotBlank()
    ensures TrimSpace("n") != ""
  {
  }

  lemma KeyIsValid()
    ensures IsValidKey(KEY)
  {
  }

  lemma OccupiedIsReady()
    ensures CanConnect(SMALL, OCCUPIED, map["n" := 0xA08_0000], {"n"}, "p")
  {
    KeyIsValid();
    Pow2Of8();
    assert BlockSize(SMALL) == 256;
    hide IsValidKey;
  }

  /** Whatever fails, compensations included, only this peer's row and this node's table can
      differ, and of the other entries only this address can be missing. */
  lemma FailureIsContained(c: Config, i: Interface, s: Site, h: map<NodeId, nat>, drawn: set<NodeId>,
                           node: NodeId, key: string, peer: PeerId, f: ConnectFaults)
    requires CanConnect(c, s, h, drawn, peer)
    ensures var r := Connect(c, i, s, node, key, peer, f).site;
            && r.db.nodes == s.db.nodes && r.db.subnets == s.db.subnets && r.db.peers - {peer} == s.db.peers
            && r.table.Keys <= s.table.Keys + {key}
            && (forall k :: k in s.table && k != key ==> k in r.table && r.table[k].ips <= s.table[k].ips)
  {
    hide Registry.TablesOk;
    hide Placed;
    hide IsTable;
    hide IsValidKey;
    hide HostRoute;
    hide PickIp;
    hide AddResult;
    hide IpInUse;
    hide IdentifierInUse;
    assert s.db.peers - {peer} == s.db.peers;
    if ReachesNode(c, s.db, node, key, peer, f) {
      var ip := AddressFor(c, s.db, node, f);
      AddedEntry(i, s.table, key, ip, f.add);
      var row := PeerRow(node, key, ip, PeerActive);
      RowTakenBack(s.db, peer, row, f.create, f.remove);
      assert s.db.peers[peer := row] - {peer} == s.db.peers;
    }
  }

  /** Everything before the node's table was changed went well. */
  predicate ReachesNode(c: Config, db: Db, node: NodeId, key: string, peer: PeerId, f: ConnectFaults) {
    var ip := ClientIp(c, db, node, f.read);
    && f.selectOk && CanAccept(db, node) && f.capacityOk && ip.Some?
    && CreatePeerRow(db, peer, PeerRow(node, key, ip.value, PeerActive), f.create).ok
  }

  function AddressFor(c: Config, db: Db, node: NodeId, f: ConnectFaults): (ip: nat)
    requires Placed(c, db) && ClientIp(c, db, node, f.read).Some?
    ensures ip < ADDRESSES
  {
    ClientIpIsAddress(c, db, node, f.read);
    ClientIp(c, db, node, f.read).value
  }

  class ConnectionWorker {
    const store: Store
    const node: Node

    constructor (store: Store, node: Node)
      ensures this.store == store && this.node == node
    {
      this.store := store;
      this.node := node;
    }

    method ProcessConnectionRequest(id: NodeId, key: string, peer: PeerId, f: ConnectFaults) returns (ok: bool)
      requires Placed(store.config, store.db) && node.Valid()
      modifies store, node
      ensures node.Valid()
      ensures Connection(Site(store.db, node.table), ok)
              == Connect(store.config, node.iface, old(Site(store.db, node.table)), id, key, peer, f)
      ensures f.add.listOk ==> CleanExtension(old(node.trace), node.trace)
    {
      hide Placed;
      hide PickIp;
      hide IsValidKey;
      hide AddResult;
      hide HostRoute;
      hide InsertPeer;
      hide IdentifierInUse;
      hide IpInUse;
      hide Conflicts;
      hide CleanExtension;
      node.Untouched();
      if !f.selectOk || !CanAccept(store.db, id) || !f.capacityOk {
        return false;
      }
      var ip := store.AllocateClientIP(id, f.read);
      if ip.None? {
        return false;
      }
      ClientIpIsAddress(store.config, store.db, id, f.read);
      var created := store.CreatePeer(peer, PeerRow(id, key, ip.value, PeerActive), f.create);
      if !created {
        return false;
      }
      ValidKeyLength(key);
      var added := node.AddPeer(ClientConfig(key, ip.value), f.add);
      if !added {
        var removed := store.RemovePeer(peer, f.remove);
        return false;
      }
      ok := true;
    }
  }

  lemma ValidKeyLength(key: string)
    requires IsValidKey(key)
    ensures |key| >= 8
  {
  }
}
