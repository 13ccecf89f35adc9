/** internal/rotator/ip/service.go and internal/rotator/peer/service.go: operations that run
    alone, each a sequence of statements any of which may fail. */
module Services {
  import opened Bits
  import opened Ipv4
  import opened Network
  import opened Allocator
  import opened Placement
  import opened Tables
  import opened Text
  import opened WireGuard
  import Registry

  // ---- what each operation does to the tables ----

  datatype AllocateFaults = AllocateFaults(lookupOk: bool, usedOk: bool, insertOk: bool)

  datatype Allocation = Allocation(db: Db, network: Option<nat>)

  /** `AllocateNodeSubnet`: a subnet the node already has is returned again; an error while
      looking for one counts as none. */
  function AllocateSubnet(c: Config, db: Db, id: NodeId, f: AllocateFaults): Allocation {
    if !ValidNodeId(id) then Allocation(db, None)
    else if f.lookupOk && id in db.subnets then Allocation(db, Some(db.subnets[id]))
    else if !f.usedOk then Allocation(db, None)
    else
      var network := PickNetwork(c, UsedNetworks(db));
      if network.None? || !f.insertOk then Allocation(db, None)
      else
        var r := InsertSubnet(db, id, network.value);
        if r.Some? then Allocation(r.value, network) else Allocation(db, None)
  }

  datatype ReleaseFaults = ReleaseFaults(existsOk: bool, deleteOk: bool)

  datatype Stored = Stored(db: Db, ok: bool)

  /** `ReleaseNodeSubnet`. */
  function ReleaseSubnet(db: Db, id: NodeId, f: ReleaseFaults): Stored {
    if !ValidNodeId(id) || !f.existsOk then Stored(db, false)
    else if id !in db.subnets then Stored(db, true)
    else if !f.deleteOk then Stored(db, false)
    else Stored(DeleteSubnet(db, id), true)
  }

  datatype ReadFaults = ReadFaults(subnetOk: bool, peersOk: bool)

  /** `AllocateClientIP`; it reserves nothing. */
  function ClientIp(c: Config, db: Db, id: NodeId, f: ReadFaults): Option<nat> {
    if !ValidNodeId(id) || !f.subnetOk || id !in db.subnets || !f.peersOk then None
    else PickIp(c, db.subnets[id], IpsOn(db, id))
  }

  datatype CreateFaults = CreateFaults(keyOk: bool, ipOk: bool, insertOk: bool)

  /** `Create` of a WireGuard peer under the generated identifier `id`. */
  function CreatePeerRow(db: Db, id: PeerId, row: PeerRow, f: CreateFaults): Stored {
    if TrimSpace(row.node) == "" || !IsValidKey(row.identifier) then Stored(db, false)
    else if !f.keyOk || IdentifierInUse(db, row.identifier) then Stored(db, false)
    else if !f.ipOk || IpInUse(db, row.ip) || !f.insertOk then Stored(db, false)
    else
      var r := InsertPeer(db, id, row);
      if r.Some? then Stored(r.value, true) else Stored(db, false)
  }

  datatype RemovalFaults = RemovalFaults(getOk: bool, markOk: bool, deleteOk: bool)

  /** `Remove`; a failed marking is passed over. */
  function RemovePeerRow(db: Db, id: PeerId, f: RemovalFaults): Stored {
    if id == "" || !f.getOk || id !in db.peers then Stored(db, false)
    else
      var marked := if f.markOk then UpdatePeerStatus(db, id, PeerRemoving) else db;
      if f.deleteOk then Stored(DeletePeer(marked, id), true) else Stored(marked, false)
  }

  datatype MoveFaults = MoveFaults(getOk: bool, conflictOk: bool, recheckOk: bool, updateOk: bool)

  /** `Migrate`: a conflict stops it only if the peer can be read again and holds another
      address. */
  function MovePeer(db: Db, id: PeerId, node: NodeId, ip: nat, f: MoveFaults): Stored {
    if id == "" || !f.getOk || id !in db.peers || TrimSpace(node) == "" || !f.conflictOk then Stored(db, false)
    else if IpInUse(db, ip) && f.recheckOk && db.peers[id].ip != ip then Stored(db, false)
    else if !f.updateOk then Stored(db, false)
    else
      var r := UpdatePeerNode(db, id, node, ip);
      if r.Some? then Stored(r.value, true) else Stored(db, false)
  }

  // ---- when they succeed and what they leave ----

  /** A subnet is allocated exactly when the node has one and it is found, or the lowest unused
      block is free for a node without one; the node then holds it and nothing else has changed.
      Asking again gives the same one. */
  lemma AllocatesExactlyWhen(c: Config, db: Db, id: NodeId, f: AllocateFaults)
    ensures var r := AllocateSubnet(c, db, id, f);
            && (r.network.Some? <==>
                  ValidNodeId(id)
                  && ((f.lookupOk && id in db.subnets)
                      || (f.usedOk && f.insertOk && id in db.nodes && id !in db.subnets
                          && PickNetwork(c, UsedNetworks(db)).Some?
                          && PickNetwork(c, UsedNetworks(db)).value !in UsedNetworks(db))))
            && (r.network.Some? && id in db.subnets ==> r.db == db && r.network.value == db.subnets[id])
            && (r.network.Some? && id !in db.subnets ==>
                  r.network == PickNetwork(c, UsedNetworks(db)) && r.db == db.(subnets := db.subnets[id := r.network.value]))
            && (r.network.None? ==> r.db == db)
            && (r.network.Some? ==> forall g: AllocateFaults :: g.lookupOk ==> AllocateSubnet(c, r.db, id, g) == r)
  {
    hide PickNetwork;
    hide UsedNetworks;
  }

  /** A release succeeds exactly when the look-up works and there is either no row or a deletion
      that works; a row goes exactly then. */
  lemma ReleasesExactlyWhen(db: Db, id: NodeId, f: ReleaseFaults)
    ensures var r := ReleaseSubnet(db, id, f);
            && (r.ok <==> ValidNodeId(id) && f.existsOk && (id in db.subnets ==> f.deleteOk))
            && r.db == if r.ok then db.(subnets := db.subnets - {id}) else db
  {
    assert id !in db.subnets ==> db.subnets - {id} == db.subnets;
  }

  /** A peer of the node has the address. */
  predicate HeldOn(db: Db, id: NodeId, ip: nat) {
    exists p :: p in db.peers && db.peers[p].node == id && db.peers[p].ip == ip
  }

  /** The search finds an address exactly if it is a client address of the node's network, none of
      the node's peers holds it and they hold all lower ones. */
  lemma FindsExactlyWhen(c: Config, db: Db, id: NodeId, f: ReadFaults, ip: nat)
    ensures ClientIp(c, db, id, f) == Some(ip) <==>
              && ValidNodeId(id) && f.subnetOk && f.peersOk && id in db.subnets
              && db.subnets[id] + 2 <= ip <= db.subnets[id] + BlockSize(c) - 2
              && !HeldOn(db, id, ip) && forall x: nat :: db.subnets[id] + 2 <= x < ip ==> HeldOn(db, id, x)
  {
    if ValidNodeId(id) && f.subnetOk && id in db.subnets && f.peersOk {
      var lo, hi := RangeStart(db.subnets[id]), RangeEnd(db.subnets[id], c.subnetMask);
      var taken := IpsOn(db, id);
      assert forall x: nat :: x in taken <==> HeldOn(db, id, x);
      hide HeldOn;
      if lo <= ip <= hi && ip !in taken && forall x: nat :: lo <= x < ip ==> HeldOn(db, id, x) {
        FirstFreeIs(lo, hi, taken, ip);
      }
      hide FirstFree;
      assert PickIp(c, db.subnets[id], taken) == FirstFree(lo, hi, taken);
    }
  }

  /** A peer is removed exactly when it exists and neither its reading nor its deletion fails;
      one that is read but not deleted stays, marked unless the marking failed too. */
  lemma RemovalLeaves(db: Db, id: PeerId, f: RemovalFaults)
    ensures var r := RemovePeerRow(db, id, f);
            && (r.ok <==> id != "" && id in db.peers && f.getOk && f.deleteOk)
            && r.db.nodes == db.nodes && r.db.subnets == db.subnets
            && r.db.peers.Keys == (if r.ok then db.peers.Keys - {id} else db.peers.Keys)
            && (forall q :: q in r.db.peers && q != id ==> r.db.peers[q] == db.peers[q])
            && (!r.ok && id in db.peers ==>
                  r.db.peers[id].status == (if id != "" && f.getOk && f.markOk then PeerRemoving else db.peers[id].status)
                  && r.db.peers[id] == db.peers[id].(status := r.db.peers[id].status))
  {
  }

  /** A peer row is moved exactly when it can be read, the conflict check and the update work,
      the target has a record and no other peer holds the address; whether a conflict can be
      read again does not matter. */
  lemma MovesExactlyWhen(db: Db, id: PeerId, node: NodeId, ip: nat, f: MoveFaults)
    ensures var r := MovePeer(db, id, node, ip, f);
            && (r.ok <==>
                  && id != "" && id in db.peers && f.getOk && f.conflictOk && f.updateOk
                  && TrimSpace(node) != "" && node in db.nodes
                  && (forall q :: q in db.peers && q != id ==> db.peers[q].ip != ip))
            && r.db == if r.ok then db.(peers := db.peers[id := db.peers[id].(node := node, ip := ip)]) else db
  {
    hide TrimSpace;
  }

  // ---- the texts in the rows ----

  predicate ListsTexts(c: Config, texts: seq<string>, used: set<nat>) {
    && (forall n :: n in used && n < ADDRESSES ==> CidrText(FromValue(n), c.subnetMask) in texts)
    && (forall t :: t in texts ==> exists n :: n in used && n < ADDRESSES && t == CidrText(FromValue(n), c.subnetMask))
  }

  /** An index is unused as text exactly when its address is unused as a number. */
  lemma KeyInUse(c: Config, texts: seq<string>, used: set<nat>, i: nat)
    requires ListsTexts(c, texts, used)
    ensures SearchKey(c, i) in texts <==> BlockAddress(c, i) in used
  {
    hide CidrText;
    hide FromValue;
    if SearchKey(c, i) in texts {
      var n :| n in used && n < ADDRESSES && SearchKey(c, i) == CidrText(FromValue(n), c.subnetMask);
      CidrTextInjective(BlockIp(c, i), c.subnetMask, FromValue(n), c.subnetMask);
      ValueOfFromValue(n);
      ValueOfFromValue(BlockAddress(c, i));
    }
  }

  lemma {:induction false} FirstUnusedIs(c: Config, used: set<nat>, from: nat, i: nat)
    requires from <= i < MaxSubnets(c) && BlockAddress(c, i) !in used
    requires forall j :: from <= j < i ==> BlockAddress(c, j) in used
    ensures FirstUnused(c, used, from) == Some(i)
    decreases i - from
  {
    if from < i {
      FirstUnusedIs(c, used, from + 1, i);
    }
  }

  /** The text search finds what the number search finds. */
  lemma LowestUnusedIsPicked(c: Config, texts: seq<string>, used: set<nat>, i: nat)
    requires ListsTexts(c, texts, used) && IsLowestUnused(c, texts, i)
    ensures FirstUnused(c, used, 0) == Some(i)
    ensures Value(Masked(BlockIp(c, i), c.subnetMask)) == BlockNetwork(c, i)
  {
    hide SearchKey;
    hide BlockAddress;
    forall j | 0 <= j <= i ensures BlockAddress(c, j) in used <==> SearchKey(c, j) in texts {
      KeyInUse(c, texts, used, j);
    }
    FirstUnusedIs(c, used, 0, i);
    ValueOfMasked(BlockIp(c, i), c.subnetMask);
    ValueOfFromValue(BlockAddress(c, i));
  }

  lemma MaskedTwice(ip: Ip, ones: nat)
    requires ones <= 32
    ensures Masked(Masked(ip, ones), ones) == Masked(ip, ones)
  {
    hide Value;
    hide Masked;
    ValueOfMasked(Masked(ip, ones), ones);
    MaskedIsAligned(ip, ones);
    ValueInjective(Masked(Masked(ip, ones), ones), Masked(ip, ones));
  }

  /** The subnet the search builds is aligned, and is the picked one if it lies in the base. */
  lemma FoundIsPicked(c: Config, texts: seq<string>, used: set<nat>, network: Ip)
    requires ListsTexts(c, texts, used)
    requires exists i :: IsLowestUnused(c, texts, i) && network == Masked(BlockIp(c, i), c.subnetMask)
    ensures Masked(network, c.subnetMask) == network
    ensures PickNetwork(c, used) == if InBase(c, Value(network)) then Some(Value(network)) else None
  {
    hide SearchKey;
    hide Masked;
    hide Value;
    hide InBase;
    hide BlockNetwork;
    hide FirstUnused;
    hide ListsTexts;
    hide BlockIp;
    hide MaxSubnets;
    var i :| IsLowestUnused(c, texts, i) && network == Masked(BlockIp(c, i), c.subnetMask);
    LowestUnusedIsPicked(c, texts, used, i);
    MaskedTwice(BlockIp(c, i), c.subnetMask);
  }

  lemma NoneUnused(c: Config, texts: seq<string>, used: set<nat>)
    requires ListsTexts(c, texts, used)
    requires forall i :: 0 <= i < MaxSubnets(c) ==> SearchKey(c, i) in texts
    ensures PickNetwork(c, used).None?
  {
    hide SearchKey;
    var i := FirstUnused(c, used, 0);
    if i.Some? {
      KeyInUse(c, texts, used, i.value);
    }
  }

  /** `Contains` of the parsed base network is membership in the base range. */
  lemma BaseContains(c: Config, ip: Ip)
    ensures Contains(Masked(c.base.value.ip, c.base.value.ones), c.base.value.ones, ip) <==> InBase(c, Value(ip))
  {
    hide Contains;
    ValueOfMasked(c.base.value.ip, c.base.value.ones);
    MaskedIsAligned(c.base.value.ip, c.base.value.ones);
    ContainsIsInterval(Masked(c.base.value.ip, c.base.value.ones), c.base.value.ones, ip);
  }

  /** What the rows hold in any reachable state. */
  predicate Placed(c: Config, db: Db) {
    && Consistent(db)
    && (forall n :: n in db.subnets ==> IsNetwork(c, db.subnets[n]))
    && (forall p :: p in db.peers ==> db.peers[p].ip < ADDRESSES)
  }

  /** A network leaves room for its whole block below the end of the address space. */
  lemma NetworkEnd(c: Config, network: nat)
    requires IsNetwork(c, network)
    ensures network + BlockSize(c) <= ADDRESSES
  {
    hide Pow2;
    Sizes(c);
    DivMod(network, BlockSize(c));
    if network + BlockSize(c) > ADDRESSES {
      var q, s := network / BlockSize(c), BlockSize(c);
      Distribute(q, 1, s);
      if q + 1 <= AllBlocks(c) {
        MulMonotone(q + 1, AllBlocks(c), s);
      } else {
        MulMonotone(AllBlocks(c), q, s);
      }
    }
  }

  lemma TablesArePlaced(c: Config, db: Db, h: map<NodeId, nat>, drawn: set<NodeId>)
    requires Registry.TablesOk(c, db, h, drawn)
    ensures Placed(c, db)
  {
    hide Pow2;
    hide Consistent;
    forall p | p in db.peers ensures db.peers[p].ip < ADDRESSES {
      NetworkEnd(c, h[db.peers[p].node]);
    }
  }

  // ---- the operations ----

  /** The service over its repository. */
  class Store {
    const config: Config
    var db: Db

    constructor (config: Config, db: Db)
      ensures this.config == config && this.db == db
    {
      this.config := config;
      this.db := db;
    }

    /** GetUsedSubnetCIDRs, in no particular order. */
    method UsedCidrs() returns (texts: seq<string>)
      requires Placed(config, db)
      ensures ListsTexts(config, texts, UsedNetworks(db))
    {
      hide CidrText;
      hide FromValue;
      hide Consistent;
      texts := [];
      var rest, done: set<NodeId> := db.subnets.Keys, {};
      while rest != {}
        invariant rest + done == db.subnets.Keys
        invariant forall n :: n in done ==> CidrText(FromValue(db.subnets[n]), config.subnetMask) in texts
        invariant forall t :: t in texts ==>
          exists n :: n in done && t == CidrText(FromValue(db.subnets[n]), config.subnetMask)
        decreases rest
      {
        var n :| n in rest;
        texts := texts + [CidrText(FromValue(db.subnets[n]), config.subnetMask)];
        rest, done := rest - {n}, done + {n};
      }
      assert done == db.subnets.Keys;
    }

    /** `FindNextAvailableSubnet` and `ValidateSubnetAllocation`. */
    method FindSubnet() returns (r: Option<nat>)
      requires Placed(config, db)
      ensures r == PickNetwork(config, UsedNetworks(db))
    {
      hide Placed;
      hide ListsTexts;
      hide IsLowestUnused;
      hide SearchKey;
      hide StoredKey;
      hide BlockIp;
      hide MaxSubnets;
      hide Masked;
      hide Contains;
      hide InBase;
      hide PickNetwork;
      hide WellFormed;
      hide Value;
      var texts := UsedCidrs();
      var subnet := FindNextAvailableSubnet(config, texts);
      if subnet.None? {
        NoneUnused(config, texts, UsedNetworks(db));
        return None;
      }
      var network, base := subnet.value.network, config.base.value;
      FoundIsPicked(config, texts, UsedNetworks(db), network);
      BaseContains(config, network);
      if network != Masked(network, config.subnetMask)
         || !Contains(Masked(base.ip, base.ones), base.ones, network) {
        return None;
      }
      r := Some(Value(network));
    }

    method AllocateNodeSubnet(id: NodeId, f: AllocateFaults) returns (r: Option<nat>)
      requires Placed(config, db)
      modifies this
      ensures Allocation(db, r) == AllocateSubnet(config, old(db), id, f)
    {
      if id == "" || |id| > 255 {
        return None;
      }
      if f.lookupOk && id in db.subnets {
        return Some(db.subnets[id]);
      }
      if !f.usedOk {
        return None;
      }
      var network := FindSubnet();
      if network.None? || !f.insertOk {
        return None;
      }
      var inserted := InsertSubnet(db, id, network.value);
      if inserted.None? {
        return None;
      }
      db := inserted.value;
      r := network;
    }

    method ReleaseNodeSubnet(id: NodeId, f: ReleaseFaults) returns (ok: bool)
      modifies this
      ensures Stored(db, ok) == ReleaseSubnet(old(db), id, f)
    {
      if id == "" || |id| > 255 || !f.existsOk {
        return false;
      }
      if id !in db.subnets {
        return true;
      }
      if !f.deleteOk {
        return false;
      }
      db := DeleteSubnet(db, id);
      ok := true;
    }

    /** GetAllocatedIPsByNode. */
    method AllocatedIps(id: NodeId) returns (ips: seq<Ip>)
      requires Placed(config, db)
      ensures Values(ips) == IpsOn(db, id)
    {
      hide Value;
      hide FromValue;
      hide Consistent;
      hide IsNetwork;
      ips := [];
      var rest, done: set<PeerId> := PeersOn(db, id), {};
      while rest != {}
        invariant rest + done == PeersOn(db, id)
        invariant forall v :: v in Values(ips) <==> exists p :: p in done && db.peers[p].ip == v
        decreases rest
      {
        var p :| p in rest;
        ValueOfFromValue(db.peers[p].ip);
        ValuesAppend(ips, FromValue(db.peers[p].ip));
        ips := ips + [FromValue(db.peers[p].ip)];
        rest, done := rest - {p}, done + {p};
      }
      assert done == PeersOn(db, id);
    }

    method AllocateClientIP(id: NodeId, f: ReadFaults) returns (r: Option<nat>)
      requires Placed(config, db)
      ensures r == ClientIp(config, db, id, f)
    {
      hide Value;
      hide Values;
      hide FromValue;
      hide Consistent;
      if id == "" || |id| > 255 || !f.subnetOk || id !in db.subnets {
        return None;
      }
      var network := db.subnets[id];
      ValueOfFromValue(network);
      var subnet := NewSubnet(id, FromValue(network), config.subnetMask);
      if !f.peersOk {
        return None;
      }
      var ips := AllocatedIps(id);
      var ip := FindNextAvailableIP(subnet.value, ips);
      r := if ip.Some? then Some(Value(ip.value)) else None;
    }

    method GetAvailableIPCount(id: NodeId, f: ReadFaults) returns (r: Option<nat>)
      ensures r == if ValidNodeId(id) && f.subnetOk && f.peersOk && id in db.subnets
                   then Some(AvailableIps(config.subnetMask, |PeersOn(db, id)|)) else None
    {
      if id == "" || |id| > 255 || !f.subnetOk || id !in db.subnets || !f.peersOk {
        return None;
      }
      r := Some(AvailableIps(config.subnetMask, |PeersOn(db, id)|));
    }

    method CreatePeer(id: PeerId, row: PeerRow, f: CreateFaults) returns (ok: bool)
      modifies this
      ensures Stored(db, ok) == CreatePeerRow(old(db), id, row, f)
    {
      if TrimSpace(row.node) == "" || !IsValidKey(row.identifier) {
        return false;
      }
      if !f.keyOk || IdentifierInUse(db, row.identifier) {
        return false;
      }
      if !f.ipOk || IpInUse(db, row.ip) {
        return false;
      }
      var inserted := InsertPeer(db, id, row);
      if !f.insertOk || inserted.None? {
        return false;
      }
      db := inserted.value;
      ok := true;
    }

    method RemovePeer(id: PeerId, f: RemovalFaults) returns (ok: bool)
      modifies this
      ensures Stored(db, ok) == RemovePeerRow(old(db), id, f)
    {
      if id == "" || !f.getOk || id !in db.peers {
        return false;
      }
      if f.markOk {
        db := UpdatePeerStatus(db, id, PeerRemoving);
      }
      if !f.deleteOk {
        return false;
      }
      db := DeletePeer(db, id);
      ok := true;
    }

    method MigratePeer(id: PeerId, node: NodeId, ip: nat, f: MoveFaults) returns (ok: bool)
      modifies this
      ensures Stored(db, ok) == MovePeer(old(db), id, node, ip, f)
    {
      if id == "" || !f.getOk || id !in db.peers || TrimSpace(node) == "" || !f.conflictOk {
        return false;
      }
      if IpInUse(db, ip) && f.recheckOk && db.peers[id].ip != ip {
        return false;
      }
      var moved := UpdatePeerNode(db, id, node, ip);
      if !f.updateOk || moved.None? {
        return false;
      }
      db := moved.value;
      ok := true;
    }
  }

  lemma ValuesAppend(ips: seq<Ip>, ip: Ip)
    ensures Values(ips + [ip]) == Values(ips) + {Value(ip)}
  {
    hide Value;
    var all := ips + [ip];
    forall v | v in Values(ips) + {Value(ip)} ensures v in Values(all) {
      if v == Value(ip) {
        assert all[|ips|] == ip;
      } else {
        var k :| 0 <= k < |ips| && v == Value(ips[k]);
        assert all[k] == ips[k];
      }
    }
  }
}
