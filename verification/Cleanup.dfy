/** internal/rotator/services/resource_cleanup_service.go: the three cleanup passes, run alone.
    Each lists first and acts afterwards; single failures are passed over. */
module Cleanup {
  import opened Tables
  import opened Allocator
  import opened Services
  import opened Provisioning
  import Agreement
  import WireGuard
  import Registry

  /** All nodes in the order of a listing. */
  ghost predicate ListsNodes(db: Db, order: seq<NodeId>) {
    && (forall n :: n in order <==> n in db.nodes)
    && (forall j, k :: 0 <= j < k < |order| ==> order[j] != order[k])
  }

  // ---- unused subnets ----

  predicate IsInactive(db: Db, n: NodeId) {
    n in db.nodes && db.nodes[n].status != Active && db.nodes[n].status != Tables.Provisioning
  }

  /** `GetNodeSubnet` finds a row. */
  predicate HasSubnet(db: Db, n: NodeId, lookupOk: NodeId -> bool) {
    ValidNodeId(n) && lookupOk(n) && n in db.subnets
  }

  predicate Releases(db: Db, n: NodeId, lookupOk: NodeId -> bool, faults: NodeId -> ReleaseFaults) {
    IsInactive(db, n) && HasSubnet(db, n, lookupOk) && faults(n).existsOk && faults(n).deleteOk
  }

  /** The nodes an unused-subnet cleanup lists. */
  function Unused(db: Db, lookupOk: NodeId -> bool): set<NodeId> {
    set n | n in db.nodes && IsInactive(db, n) && HasSubnet(db, n, lookupOk)
  }

  /** A list without repetitions has as many elements as their set. */
  lemma ListSize(list: seq<NodeId>, members: set<NodeId>)
    requires (forall i, j :: 0 <= i < j < |list| ==> list[i] != list[j]) && forall n :: n in list <==> n in members
    ensures |list| == |members|
  {
    WireGuard.DistinctCount(list);
    assert (set n | n in list) == members;
  }

  lemma UnusedCount(db: Db, unused: seq<NodeId>, lookupOk: NodeId -> bool)
    requires IsUnusedList(db, unused, lookupOk)
    ensures |unused| == |Unused(db, lookupOk)|
  {
    hide HasSubnet;
    ListSize(unused, Unused(db, lookupOk));
  }

  /** The nodes whose row an unused-subnet cleanup takes. */
  function Released(db: Db, lookupOk: NodeId -> bool, faults: NodeId -> ReleaseFaults): set<NodeId> {
    set n | n in db.subnets && Releases(db, n, lookupOk, faults)
  }

  predicate IsUnusedList(db: Db, unused: seq<NodeId>, lookupOk: NodeId -> bool) {
    && (forall n :: n in unused ==> IsInactive(db, n) && HasSubnet(db, n, lookupOk))
    && (forall n :: n in db.nodes && IsInactive(db, n) && HasSubnet(db, n, lookupOk) ==> n in unused)
    && (forall i, j :: 0 <= i < j < |unused| ==> unused[i] != unused[j])
  }

  /** The rows taken after the first k listed nodes. */
  function Taken(unused: seq<NodeId>, faults: NodeId -> ReleaseFaults, k: nat): set<NodeId>
    requires k <= |unused|
  {
    set n | n in unused[..k] && faults(n).existsOk && faults(n).deleteOk
  }

  /** One more release takes at most one more row. */
  lemma ReleaseTakes(db: Db, unused: seq<NodeId>, lookupOk: NodeId -> bool, faults: NodeId -> ReleaseFaults, k: nat)
    requires IsUnusedList(db, unused, lookupOk) && k < |unused|
    ensures var taken, more := Taken(unused, faults, k), Taken(unused, faults, k + 1);
            var r := ReleaseSubnet(db.(subnets := db.subnets - taken), unused[k], faults(unused[k]));
            r.db == db.(subnets := db.subnets - more) && |more| == |taken| + (if r.ok then 1 else 0)
  {
    hide ValidNodeId;
    hide IsInactive;
    var n := unused[k];
    var taken, more := Taken(unused, faults, k), Taken(unused, faults, k + 1);
    assert HasSubnet(db, n, lookupOk);
    TakenGrows(unused, faults, k);
    if faults(n).existsOk && faults(n).deleteOk {
      hide Taken;
      assert db.subnets - taken - {n} == db.subnets - more;
    }
  }

  lemma TakenGrows(unused: seq<NodeId>, faults: NodeId -> ReleaseFaults, k: nat)
    requires k < |unused| && forall i, j :: 0 <= i < j < |unused| ==> unused[i] != unused[j]
    ensures unused[k] !in Taken(unused, faults, k)
    ensures Taken(unused, faults, k + 1)
            == if faults(unused[k]).existsOk && faults(unused[k]).deleteOk then Taken(unused, faults, k) + {unused[k]}
               else Taken(unused, faults, k)
  {
    assert unused[..k + 1] == unused[..k] + [unused[k]];
    assert unused[k] !in unused[..k];
  }

  lemma NothingTaken(db: Db, unused: seq<NodeId>, faults: NodeId -> ReleaseFaults)
    ensures Taken(unused, faults, 0) == {} && db.subnets - Taken(unused, faults, 0) == db.subnets
  {
  }

  lemma AllTaken(db: Db, unused: seq<NodeId>, lookupOk: NodeId -> bool, faults: NodeId -> ReleaseFaults)
    requires IsUnusedList(db, unused, lookupOk) && Owned(db)
    ensures Taken(unused, faults, |unused|) == Released(db, lookupOk, faults)
  {
    hide ValidNodeId;
    assert unused[..|unused|] == unused;
  }

  datatype Removals = Removals(db: Db, count: nat)

  /** The first n listed peers removed one after the other, as far as that succeeds. */
  function RemovedAll(db: Db, inactive: seq<PeerId>, faults: PeerId -> RemovalFaults, n: nat): Removals
    requires n <= |inactive|
  {
    if n == 0 then Removals(db, 0)
    else
      var before, p := RemovedAll(db, inactive, faults, n - 1), inactive[n - 1];
      var r := RemovePeerRow(before.db, p, faults(p));
      Removals(r.db, before.count + if r.ok then 1 else 0)
  }

  predicate RemovalWorks(p: PeerId, f: RemovalFaults) {
    p != "" && f.getOk && f.deleteOk
  }

  lemma OneKeyLess(db: Db, p: PeerId, f: RemovalFaults)
    ensures var r := RemovePeerRow(db, p, f);
            && r.db.peers.Keys == (if RemovalWorks(p, f) then db.peers.Keys - {p} else db.peers.Keys)
            && (if r.ok then 1 else 0) == |db.peers.Keys| - |r.db.peers.Keys|
  {
    RemovesOne(db, p, f);
    hide RemovePeerRow;
    hide RemovalWorks;
  }

  /** The peers the first n listed removals take. */
  function Removable(inactive: seq<PeerId>, faults: PeerId -> RemovalFaults, n: nat): set<PeerId>
    requires n <= |inactive|
  {
    set p | p in inactive[..n] && RemovalWorks(p, faults(p))
  }

  lemma RemovableGrows(inactive: seq<PeerId>, faults: PeerId -> RemovalFaults, n: nat)
    requires n < |inactive|
    ensures Removable(inactive, faults, n + 1)
            == if RemovalWorks(inactive[n], faults(inactive[n])) then Removable(inactive, faults, n) + {inactive[n]}
               else Removable(inactive, faults, n)
  {
    hide RemovalWorks;
    assert inactive[..n + 1] == inactive[..n] + [inactive[n]];
  }

  lemma MinusOneMore(keys: set<PeerId>, taken: set<PeerId>, p: PeerId)
    ensures keys - (taken + {p}) == (keys - taken) - {p}
  {
  }

  /** The last of n removals. */
  lemma LastRemoval(db: Db, inactive: seq<PeerId>, faults: PeerId -> RemovalFaults, n: nat)
    requires 0 < n <= |inactive|
    ensures var before, p := RemovedAll(db, inactive, faults, n - 1), inactive[n - 1];
            var r := RemovePeerRow(before.db, p, faults(p));
            && RemovedAll(db, inactive, faults, n) == Removals(r.db, before.count + if r.ok then 1 else 0)
            && r.db.nodes == before.db.nodes && r.db.subnets == before.db.subnets
  {
    var before, p := RemovedAll(db, inactive, faults, n - 1), inactive[n - 1];
    RemovesOne(before.db, p, faults(p));
    hide RemovePeerRow;
    hide RemovalWorks;
  }

  lemma {:induction false} RemovedKeys(db: Db, inactive: seq<PeerId>, faults: PeerId -> RemovalFaults, n: nat)
    requires n <= |inactive|
    ensures RemovedAll(db, inactive, faults, n).db.peers.Keys == db.peers.Keys - Removable(inactive, faults, n)
  {
    hide RemovePeerRow;
    hide RemovalWorks;
    if n == 0 {
      assert Removable(inactive, faults, 0) == {};
    } else {
      hide Removable;
      hide RemovedAll;
      var p := inactive[n - 1];
      var keys := RemovedAll(db, inactive, faults, n - 1).db.peers.Keys;
      RemovedKeys(db, inactive, faults, n - 1);
      LastRemoval(db, inactive, faults, n);
      OneKeyLess(RemovedAll(db, inactive, faults, n - 1).db, p, faults(p));
      RemovableGrows(inactive, faults, n - 1);
      MinusOneMore(db.peers.Keys, Removable(inactive, faults, n - 1), p);
    }
  }

  lemma {:induction false} RemovedCount(db: Db, inactive: seq<PeerId>, faults: PeerId -> RemovalFaults, n: nat)
    requires n <= |inactive|
    ensures var r := RemovedAll(db, inactive, faults, n);
            r.count == |db.peers.Keys| - |r.db.peers.Keys| && r.db.nodes == db.nodes && r.db.subnets == db.subnets
  {
    hide RemovePeerRow;
    hide RemovalWorks;
    if n > 0 {
      hide RemovedAll;
      RemovedCount(db, inactive, faults, n - 1);
      LastRemoval(db, inactive, faults, n);
      OneKeyLess(RemovedAll(db, inactive, faults, n - 1).db, inactive[n - 1], faults(inactive[n - 1]));
    }
  }

  lemma {:induction false} RemainingRows(db: Db, inactive: seq<PeerId>, faults: PeerId -> RemovalFaults, n: nat)
    requires n <= |inactive|
    ensures var r := RemovedAll(db, inactive, faults, n).db;
            forall p :: p in r.peers ==>
              p in db.peers && r.peers[p] == if p in inactive[..n] && IsMarked(p, faults(p))
                                             then db.peers[p].(status := PeerRemoving) else db.peers[p]
  {
    hide RemovePeerRow;
    hide RemovalWorks;
    if n > 0 {
      RemainingRows(db, inactive, faults, n - 1);
      RemovesOne(RemovedAll(db, inactive, faults, n - 1).db, inactive[n - 1], faults(inactive[n - 1]));
      assert inactive[..n] == inactive[..n - 1] + [inactive[n - 1]];
    }
  }

  /** A peer cleanup removes and counts exactly the listed peers that nothing stops; the others
      stay, and those that were read and marked are marked as being removed. */
  lemma InactiveAreRemoved(db: Db, inactive: seq<PeerId>, faults: PeerId -> RemovalFaults)
    ensures var r := RemovedAll(db, inactive, faults, |inactive|);
            && r.db.nodes == db.nodes && r.db.subnets == db.subnets && r.db.peers.Keys <= db.peers.Keys
            && (forall p :: p in db.peers ==>
                  (p in r.db.peers <==> !(p in inactive && p != "" && faults(p).getOk && faults(p).deleteOk)))
            && (forall p :: p in r.db.peers ==>
                  r.db.peers[p] == if p in inactive && p != "" && faults(p).getOk && faults(p).markOk
                                   then db.peers[p].(status := PeerRemoving) else db.peers[p])
            && r.count == |db.peers.Keys| - |r.db.peers.Keys|
  {
    hide RemovedAll;
    RemovedKeys(db, inactive, faults, |inactive|);
    RemovedCount(db, inactive, faults, |inactive|);
    RemainingRows(db, inactive, faults, |inactive|);
    assert inactive[..|inactive|] == inactive;
  }

  /** What one removal changes. */
  lemma RemovesOne(db: Db, p: PeerId, f: RemovalFaults)
    ensures var r := RemovePeerRow(db, p, f);
            && r.db.nodes == db.nodes && r.db.subnets == db.subnets
            && (r.ok <==> p in db.peers && RemovalWorks(p, f))
            && r.db.peers.Keys == db.peers.Keys - (if r.ok then {p} else {})
            && (forall q :: q in r.db.peers && q != p ==> r.db.peers[q] == db.peers[q])
            && (p in r.db.peers ==>
                  r.db.peers[p] == if IsMarked(p, f) then db.peers[p].(status := PeerRemoving) else db.peers[p])
  {
  }

  /** The peer is read and its marking works. */
  predicate IsMarked(p: PeerId, f: RemovalFaults) {
    p != "" && f.getOk && f.markOk
  }

  class CleanupService {
    const provisioning: ProvisioningService

    constructor (provisioning: ProvisioningService)
      ensures this.provisioning == provisioning
    {
      this.provisioning := provisioning;
    }

    /** The inactive nodes that have a subnet row. */
    method ListUnused(order: seq<NodeId>, lookupOk: NodeId -> bool) returns (unused: seq<NodeId>)
      requires ListsNodes(provisioning.store.db, order)
      ensures IsUnusedList(provisioning.store.db, unused, lookupOk)
    {
      hide ValidNodeId;
      ghost var db := provisioning.store.db;
      unused := [];
      for k := 0 to |order|
        invariant forall n :: n in unused <==> n in order[..k] && IsInactive(db, n) && HasSubnet(db, n, lookupOk)
        invariant forall i, j :: 0 <= i < j < |unused| ==> unused[i] != unused[j]
      {
        assert order[..k + 1] == order[..k] + [order[k]];
        var status := provisioning.store.db.nodes[order[k]].status;
        if status != Active && status != Tables.Provisioning && HasSubnet(provisioning.store.db, order[k], lookupOk) {
          unused := unused + [order[k]];
        }
      }
      assert order[..|order|] == order;
    }

    /** `cleanupUnusedSubnets`: takes the subnet row of every node that is neither active nor
        provisioning, whatever peers it still has, and counts the rows taken. */
    method CleanupUnusedSubnets(listOk: bool, order: seq<NodeId>, lookupOk: NodeId -> bool,
                                faults: NodeId -> ReleaseFaults, dryRun: bool)
      returns (ok: bool, released: nat)
      requires ListsNodes(provisioning.store.db, order) && Owned(provisioning.store.db)
      modifies provisioning.store
      ensures ok == listOk && (!listOk ==> provisioning.store.db == old(provisioning.store.db) && released == 0)
      ensures var before := old(provisioning.store.db);
              && (listOk && dryRun ==> provisioning.store.db == before && released == |Unused(before, lookupOk)|)
              && (listOk && !dryRun ==>
                    var taken := Released(before, lookupOk, faults);
                    provisioning.store.db == before.(subnets := before.subnets - taken) && released == |taken|)
    {
      hide ReleaseSubnet;
      hide IsUnusedList;
      hide Taken;
      hide Released;
      ok, released := listOk, 0;
      if !listOk {
        return;
      }
      var store := provisioning.store;
      ghost var before := store.db;
      var unused := ListUnused(order, lookupOk);
      NothingTaken(before, unused, faults);
      for k := 0 to |unused|
        invariant store.db == if dryRun then before else before.(subnets := before.subnets - Taken(unused, faults, k))
        invariant !dryRun ==> released == |Taken(unused, faults, k)|
        invariant dryRun ==> released == k
      {
        ReleaseTakes(before, unused, lookupOk, faults, k);
        if !dryRun {
          var done := store.ReleaseNodeSubnet(unused[k], faults(unused[k]));
          if !done {
            continue;
          }
        }
        released := released + 1;
      }
      AllTaken(before, unused, lookupOk, faults);
      UnusedCount(before, unused, lookupOk);
    }

    /** `cleanupInactivePeers`: removes the listed peers it can; the others stay. */
    method CleanupInactivePeers(listOk: bool, inactive: seq<PeerId>, faults: PeerId -> RemovalFaults, dryRun: bool)
      returns (ok: bool, removed: nat)
      modifies provisioning.store
      ensures ok == listOk && (!listOk ==> provisioning.store.db == old(provisioning.store.db) && removed == 0)
      ensures listOk && dryRun ==> provisioning.store.db == old(provisioning.store.db) && removed == |inactive|
      ensures listOk && !dryRun ==>
                Removals(provisioning.store.db, removed)
                == RemovedAll(old(provisioning.store.db), inactive, faults, |inactive|)
    {
      hide RemovePeerRow;
      ok, removed := listOk, 0;
      if !listOk {
        return;
      }
      for k := 0 to |inactive|
        invariant dryRun ==> provisioning.store.db == old(provisioning.store.db) && removed == k
        invariant !dryRun ==> Removals(provisioning.store.db, removed)
                              == RemovedAll(old(provisioning.store.db), inactive, faults, k)
      {
        if !dryRun {
          var done := provisioning.store.RemovePeer(inactive[k], faults(inactive[k]));
          if !done {
            continue;
          }
        }
        removed := removed + 1;
      }
    }

    /** `cleanupOrphanedNodes`: destroys active nodes that no active peer uses and that have not
        changed for an hour, unless at most one active node has active peers. */
    method CleanupOrphanedNodes(listOk: bool, order: seq<NodeId>, countOk: NodeId -> bool,
                                isOld: NodeId -> bool, clients: NodeId -> nat, faults: NodeId -> DestroyFaults, dryRun: bool)
      returns (ok: bool, destroyed: nat, ghost listed: seq<NodeId>)
      requires ListsNodes(provisioning.store.db, order)
      modifies provisioning, provisioning.store
      ensures IsOrphanList(old(provisioning.store.db), listed, countOk, isOld)
      ensures ok == listOk && (!listOk ==> provisioning.State() == old(provisioning.State()) && destroyed == 0)
      ensures |Serving(old(provisioning.store.db), countOk)| <= 1 ==>
                provisioning.State() == old(provisioning.State()) && destroyed == 0
      ensures listOk && |Serving(old(provisioning.store.db), countOk)| > 1 && dryRun ==>
                provisioning.State() == old(provisioning.State())
                && destroyed == |Orphans(old(provisioning.store.db), countOk, isOld)|
      ensures listOk && |Serving(old(provisioning.store.db), countOk)| > 1 && !dryRun ==>
                Destructions(provisioning.State(), destroyed)
                == DestroyedAll(old(provisioning.State()), listed, clients, faults, |listed|)
    {
      hide Destroy;
      hide IsOrphan;
      hide Serving;
      hide ListsNodes;
      ghost var before := provisioning.store.db;
      var orphans, serving := ListOrphans(order, countOk, isOld);
      listed := orphans;
      OrphanCount(before, orphans, countOk, isOld);
      ok, destroyed := listOk, 0;
      if !listOk {
        return;
      }
      if serving <= 1 && |orphans| > 0 {
        return;
      }
      for k := 0 to |orphans|
        invariant dryRun ==> provisioning.State() == old(provisioning.State()) && destroyed == k
        invariant !dryRun ==> Destructions(provisioning.State(), destroyed)
                              == DestroyedAll(old(provisioning.State()), orphans, clients, faults, k)
      {
        if !dryRun {
          var n := orphans[k];
          var done := provisioning.DestroyNode(n, clients(n), faults(n).(release := NO_RELEASE));
          if !done {
            continue;
          }
        }
        destroyed := destroyed + 1;
      }
    }

    /** The orphaned nodes, and how many active nodes serve active peers. */
    method ListOrphans(order: seq<NodeId>, countOk: NodeId -> bool, isOld: NodeId -> bool)
      returns (orphans: seq<NodeId>, serving: nat)
      requires ListsNodes(provisioning.store.db, order)
      ensures IsOrphanList(provisioning.store.db, orphans, countOk, isOld)
      ensures serving == |Serving(provisioning.store.db, countOk)|
    {
      ghost var db := provisioning.store.db;
      orphans, serving := [], 0;
      ghost var seen: set<NodeId> := {};
      for k := 0 to |order|
        invariant forall n :: n in orphans <==> n in order[..k] && IsOrphan(db, n, countOk, isOld)
        invariant forall i, j :: 0 <= i < j < |orphans| ==> orphans[i] != orphans[j]
        invariant forall n :: n in seen <==> n in order[..k] && n in Serving(db, countOk)
        invariant serving == |seen|
      {
        var n := order[k];
        assert order[..k + 1] == order[..k] + [n];
        assert n !in order[..k];
        if provisioning.store.db.nodes[n].status != Active || !countOk(n) {
          continue;
        }
        var active := Registry.ActiveOn(provisioning.store.db, n);
        if |active| == 0 {
          if isOld(n) {
            orphans := orphans + [n];
          }
        } else {
          serving := serving + 1;
          seen := seen + {n};
        }
      }
      assert order[..|order|] == order;
      assert seen == Serving(db, countOk);
    }
  }

  /** `node.Service.DestroyNode` is a destruction that does not release the subnet first; the
      row goes with the node's. */
  const NO_RELEASE := ReleaseFaults(false, false)

  predicate IsOrphan(db: Db, n: NodeId, countOk: NodeId -> bool, isOld: NodeId -> bool) {
    n in db.nodes && db.nodes[n].status == Active && countOk(n) && Registry.ActiveOn(db, n) == {} && isOld(n)
  }

  /** Active nodes with active peers, as counted. */
  function Serving(db: Db, countOk: NodeId -> bool): set<NodeId> {
    set n | n in db.nodes && db.nodes[n].status == Active && countOk(n) && Registry.ActiveOn(db, n) != {}
  }

  predicate IsOrphanList(db: Db, listed: seq<NodeId>, countOk: NodeId -> bool, isOld: NodeId -> bool) {
    && (forall i, j :: 0 <= i < j < |listed| ==> listed[i] != listed[j])
    && (forall n :: n in listed ==> IsOrphan(db, n, countOk, isOld))
    && (forall n :: n in db.nodes && IsOrphan(db, n, countOk, isOld) ==> n in listed)
  }

  function Orphans(db: Db, countOk: NodeId -> bool, isOld: NodeId -> bool): set<NodeId> {
    set n | n in db.nodes && IsOrphan(db, n, countOk, isOld)
  }

  lemma OrphanCount(db: Db, orphans: seq<NodeId>, countOk: NodeId -> bool, isOld: NodeId -> bool)
    requires IsOrphanList(db, orphans, countOk, isOld)
    ensures |orphans| == |Orphans(db, countOk, isOld)|
  {
    ListSize(orphans, Orphans(db, countOk, isOld));
  }

  datatype Destructions = Destructions(world: World, count: nat)

  /** The first n listed nodes destroyed one after the other, as far as that succeeds. */
  function DestroyedAll(w: World, listed: seq<NodeId>, clients: NodeId -> nat, faults: NodeId -> DestroyFaults,
                        n: nat): Destructions
    requires n <= |listed|
  {
    if n == 0 then Destructions(w, 0)
    else
      var before, id := DestroyedAll(w, listed, clients, faults, n - 1), listed[n - 1];
      var r := Destroy(before.world, id, clients(id), faults(id).(release := NO_RELEASE));
      Destructions(r.world, before.count + if r.ok then 1 else 0)
  }

  /** The destruction of an active node gets past its mark. */
  predicate Marks(f: DestroyFaults, clients: nat) {
    f.getOk && clients == 0 && f.saveOk
  }

  /** What destroying some active nodes leaves: those whose record is deleted are gone with their
      subnets and peers, the others that were marked stay marked, and every server whose own
      destruction worked is gone. */
  predicate Left(w: World, done: seq<NodeId>, clients: NodeId -> nat, faults: NodeId -> DestroyFaults, r: World) {
    && RowsLeft(w.db, done, clients, faults, r.db)
    && r.servers <= w.servers
    && (forall s :: s in w.servers ==> (s !in r.servers <==> ServerGoes(w.db, done, clients, faults, s)))
  }

  predicate ServerGoes(db: Db, done: seq<NodeId>, clients: NodeId -> nat, faults: NodeId -> DestroyFaults, s: string) {
    s != "" && exists n :: n in done && n in db.nodes && db.nodes[n].serverId == s
                           && Marks(faults(n), clients(n)) && faults(n).serverOk
  }

  predicate RowsLeft(before: Db, done: seq<NodeId>, clients: NodeId -> nat, faults: NodeId -> DestroyFaults, after: Db) {
    NodesLeft(before.nodes, done, clients, faults, after.nodes) && FollowNodes(before, after)
  }

  predicate NodesLeft(before: map<NodeId, NodeRow>, done: seq<NodeId>, clients: NodeId -> nat,
                      faults: NodeId -> DestroyFaults, after: map<NodeId, NodeRow>) {
    && after.Keys <= before.Keys
    && (forall n :: n in before ==>
          var marked := n in done && Marks(faults(n), clients(n));
          if marked && faults(n).deleteOk then n !in after
          else n in after && after[n] == if marked then before[n].(status := Destroying) else before[n])
  }

  /** Subnets and peers stay with their nodes, unchanged. */
  predicate FollowNodes(before: Db, after: Db) {
    && after.subnets.Keys <= before.subnets.Keys && after.peers.Keys <= before.peers.Keys
    && (forall n :: n in before.subnets ==>
          (n in after.subnets <==> n in after.nodes) && (n in after.subnets ==> after.subnets[n] == before.subnets[n]))
    && (forall p :: p in before.peers ==>
          (p in after.peers <==> before.peers[p].node in after.nodes)
          && (p in after.peers ==> after.peers[p] == before.peers[p]))
  }

  lemma NothingLeft(w: World, clients: NodeId -> nat, faults: NodeId -> DestroyFaults)
    requires Owned(w.db)
    ensures Left(w, [], clients, faults, w)
  {
  }

  /** A destruction of an active node does what it does to a world with this node in it. */
  lemma DestroysActive(w: World, n: NodeId, clients: nat, f: DestroyFaults)
    requires n in w.db.nodes && w.db.nodes[n].status == Active && UniqueNodeKeys(w.db.nodes) && f.release == NO_RELEASE
    ensures var r := Destroy(w, n, clients, f);
            && (r.ok <==> Marks(f, clients) && f.deleteOk)
            && (!Marks(f, clients) ==> r.world == w)
            && (Marks(f, clients) && !f.deleteOk ==>
                  r.world.db == w.db.(nodes := w.db.nodes[n := w.db.nodes[n].(status := Destroying)]))
            && (r.ok ==> r.world.db == DeleteNode(w.db, n))
            && (forall s :: s in r.world.servers <==>
                  s in w.servers && !(Marks(f, clients) && s == w.db.nodes[n].serverId && s != "" && f.serverOk))
  {
    assert !KeyTaken(w.db, n, w.db.nodes[n].publicKey);
    DestroyRemoves(w, n, clients, f);
    hide Destroy;
    hide ValidNodeId;
  }

  lemma NodesAfterOne(before: map<NodeId, NodeRow>, done: seq<NodeId>, clients: NodeId -> nat,
                      faults: NodeId -> DestroyFaults, nodes: map<NodeId, NodeRow>, n: NodeId)
    requires NodesLeft(before, done, clients, faults, nodes) && n in before && n !in done
    ensures n in nodes && nodes[n] == before[n]
    ensures var marks := Marks(faults(n), clients(n));
            NodesLeft(before, done + [n], clients, faults,
                      if !marks then nodes
                      else if faults(n).deleteOk then nodes - {n}
                      else nodes[n := nodes[n].(status := Destroying)])
  {
    hide Marks;
  }

  lemma FollowAfterOne(before: Db, db: Db, n: NodeId)
    requires FollowNodes(before, db) && n in db.nodes
    ensures FollowNodes(before, DeleteNode(db, n))
    ensures FollowNodes(before, db.(nodes := db.nodes[n := db.nodes[n].(status := Destroying)]))
  {
  }

  lemma RowsAfterOne(before: Db, done: seq<NodeId>, clients: NodeId -> nat, faults: NodeId -> DestroyFaults, db: Db, n: NodeId)
    requires RowsLeft(before, done, clients, faults, db) && n in before.nodes && n !in done
    ensures n in db.nodes && db.nodes[n] == before.nodes[n]
    ensures var marks := Marks(faults(n), clients(n));
            RowsLeft(before, done + [n], clients, faults,
                     if !marks then db
                     else if faults(n).deleteOk then DeleteNode(db, n)
                     else db.(nodes := db.nodes[n := db.nodes[n].(status := Destroying)]))
  {
    hide Marks;
    hide NodesLeft;
    hide FollowNodes;
    NodesAfterOne(before.nodes, done, clients, faults, db.nodes, n);
    FollowAfterOne(before, db, n);
  }

  lemma ServersAfterOne(before: Db, done: seq<NodeId>, clients: NodeId -> nat, faults: NodeId -> DestroyFaults, n: NodeId, s: string)
    requires n in before.nodes
    ensures ServerGoes(before, done + [n], clients, faults, s) <==>
              ServerGoes(before, done, clients, faults, s)
              || (s != "" && before.nodes[n].serverId == s && Marks(faults(n), clients(n)) && faults(n).serverOk)
  {
    hide Marks;
    assert n in done + [n];
  }

  lemma KeysStayUnique(before: Db, done: seq<NodeId>, clients: NodeId -> nat, faults: NodeId -> DestroyFaults, after: Db)
    requires RowsLeft(before, done, clients, faults, after) && UniqueNodeKeys(before.nodes)
    ensures UniqueNodeKeys(after.nodes)
  {
    hide Marks;
    assert forall n :: n in after.nodes ==> n in before.nodes && after.nodes[n].publicKey == before.nodes[n].publicKey;
  }

  lemma LeftAfterOne(w: World, done: seq<NodeId>, clients: NodeId -> nat, faults: NodeId -> DestroyFaults, r: World, n: NodeId)
    requires Left(w, done, clients, faults, r) && n in w.db.nodes && n !in done && Owned(w.db)
    requires w.db.nodes[n].status == Active && UniqueNodeKeys(w.db.nodes)
    ensures var d := Destroy(r, n, clients(n), faults(n).(release := NO_RELEASE));
            && Left(w, done + [n], clients, faults, d.world)
            && (if d.ok then 1 else 0) == |r.db.nodes.Keys| - |d.world.db.nodes.Keys|
  {
    hide RowsLeft;
    hide ServerGoes;
    hide Destroy;
    hide UniqueNodeKeys;
    RowsAfterOne(w.db, done, clients, faults, r.db, n);
    KeysStayUnique(w.db, done, clients, faults, r.db);
    DestroysActive(r, n, clients(n), faults(n).(release := NO_RELEASE));
    var d := Destroy(r, n, clients(n), faults(n).(release := NO_RELEASE));
    forall s | s in w.servers ensures s !in d.world.servers <==> ServerGoes(w.db, done + [n], clients, faults, s) {
      ServersAfterOne(w.db, done, clients, faults, n, s);
    }
    assert d.ok ==> d.world.db.nodes.Keys == r.db.nodes.Keys - {n};
    assert !d.ok ==> d.world.db.nodes.Keys == r.db.nodes.Keys;
  }

  lemma {:induction false} DestroyedSoFar(w: World, listed: seq<NodeId>, clients: NodeId -> nat,
                                          faults: NodeId -> DestroyFaults, n: nat)
    requires n <= |listed| && UniqueNodeKeys(w.db.nodes) && Owned(w.db)
    requires forall i, j :: 0 <= i < j < |listed| ==> listed[i] != listed[j]
    requires forall m :: m in listed ==> m in w.db.nodes && w.db.nodes[m].status == Active
    ensures var r := DestroyedAll(w, listed, clients, faults, n);
            && Left(w, listed[..n], clients, faults, r.world)
            && r.count == |w.db.nodes.Keys| - |r.world.db.nodes.Keys|
  {
    hide Destroy;
    hide Left;
    hide UniqueNodeKeys;
    hide Owned;
    if n == 0 {
      NothingLeft(w, clients, faults);
    } else {
      DestroyedSoFar(w, listed, clients, faults, n - 1);
      var before := DestroyedAll(w, listed, clients, faults, n - 1).world;
      assert listed[..n] == listed[..n - 1] + [listed[n - 1]];
      LeftAfterOne(w, listed[..n - 1], clients, faults, before, listed[n - 1]);
    }
  }

  /** An active node, counted, unchanged for long enough, and with no active peer. */
  predicate IsIdle(db: Db, n: NodeId, countOk: NodeId -> bool, isOld: NodeId -> bool) {
    && n in db.nodes && db.nodes[n].status == Active && countOk(n) && isOld(n)
    && forall p :: p in db.peers && db.peers[p].node == n ==> db.peers[p].status != PeerActive
  }

  /** What an orphan cleanup leaves: of the idle nodes those whose destruction nothing stops are
      gone with their subnets and peers, and counted; one whose record is not deleted stays
      marked; a server is gone exactly if it was such a node's and destroying it worked. All
      other rows are as they were; in particular no active peer is lost. */
  lemma OrphansAreDestroyed(w: World, listed: seq<NodeId>, countOk: NodeId -> bool, isOld: NodeId -> bool,
                            clients: NodeId -> nat, faults: NodeId -> DestroyFaults)
    requires IsOrphanList(w.db, listed, countOk, isOld) && UniqueNodeKeys(w.db.nodes) && Owned(w.db)
    ensures var r := DestroyedAll(w, listed, clients, faults, |listed|);
            var after := r.world.db;
            && after.nodes.Keys <= w.db.nodes.Keys && r.count == |w.db.nodes.Keys| - |after.nodes.Keys|
            && (forall n :: n in w.db.nodes ==>
                  var marked := IsIdle(w.db, n, countOk, isOld) && faults(n).getOk && clients(n) == 0 && faults(n).saveOk;
                  if marked && faults(n).deleteOk then n !in after.nodes
                  else n in after.nodes
                       && after.nodes[n] == if marked then w.db.nodes[n].(status := Destroying) else w.db.nodes[n])
            && (forall n :: n in w.db.subnets ==>
                  (n in after.subnets <==> n in after.nodes) && (n in after.subnets ==> after.subnets[n] == w.db.subnets[n]))
            && (forall p :: p in w.db.peers ==>
                  (p in after.peers <==> w.db.peers[p].node in after.nodes)
                  && (w.db.peers[p].status == PeerActive ==> p in after.peers)
                  && (p in after.peers ==> after.peers[p] == w.db.peers[p]))
            && r.world.servers <= w.servers
            && (forall s :: s in w.servers ==>
                  (s !in r.world.servers <==>
                    s != "" && exists n :: IsIdle(w.db, n, countOk, isOld) && w.db.nodes[n].serverId == s
                                 && faults(n).getOk && clients(n) == 0 && faults(n).saveOk && faults(n).serverOk))
  {
    ListedAreIdle(w.db, listed, countOk, isOld);
    DestroyedSoFar(w, listed, clients, faults, |listed|);
    assert listed[..|listed|] == listed;
    hide DestroyedAll;
    hide IsOrphanList;
    var after := DestroyedAll(w, listed, clients, faults, |listed|).world.db;
    forall p | p in w.db.peers && w.db.peers[p].status == PeerActive ensures p in after.peers {
      assert w.db.peers[p].node in w.db.nodes;
    }
    forall s | s in w.servers
      ensures ServerGoes(w.db, listed, clients, faults, s) <==>
                s != "" && exists n :: IsIdle(w.db, n, countOk, isOld) && w.db.nodes[n].serverId == s
                             && faults(n).getOk && clients(n) == 0 && faults(n).saveOk && faults(n).serverOk
    {
    }
  }

  lemma ListedAreIdle(db: Db, listed: seq<NodeId>, countOk: NodeId -> bool, isOld: NodeId -> bool)
    requires IsOrphanList(db, listed, countOk, isOld)
    ensures forall n :: n in listed <==> IsIdle(db, n, countOk, isOld)
  {
    forall n ensures IsOrphan(db, n, countOk, isOld) <==> IsIdle(db, n, countOk, isOld) {
      var active := Registry.ActiveOn(db, n);
      if active == {} {
        assert forall p :: p in db.peers ==> p !in active;
      } else {
        var p :| p in active;
      }
    }
  }

  /** The node is neither active nor provisioning, its subnet is found, and its release works. */
  predicate LosesSubnet(db: Db, n: NodeId, lookupOk: NodeId -> bool, faults: NodeId -> ReleaseFaults) {
    && n in db.nodes && db.nodes[n].status in {Unhealthy, Destroying} && n in db.subnets && ValidNodeId(n)
    && lookupOk(n) && faults(n).existsOk && faults(n).deleteOk
  }

  /** An unused-subnet cleanup takes exactly the subnets of such nodes, whatever peers they have,
      and an address is left behind afterwards exactly if it was before or a peer of such a node
      holds it. */
  lemma CleanupLeavesPeersBehind(before: Db, lookupOk: NodeId -> bool, faults: NodeId -> ReleaseFaults, ip: nat)
    requires Owned(before)
    ensures var after := before.(subnets := before.subnets - Released(before, lookupOk, faults));
            && (forall n :: n in after.subnets <==> n in before.subnets && !LosesSubnet(before, n, lookupOk, faults))
            && (Agreement.LeftBehind(after, ip) <==>
                  Agreement.LeftBehind(before, ip)
                  || exists p :: p in before.peers && before.peers[p].ip == ip
                                 && LosesSubnet(before, before.peers[p].node, lookupOk, faults))
  {
    hide ValidNodeId;
    var after := before.(subnets := before.subnets - Released(before, lookupOk, faults));
    forall n ensures n in Released(before, lookupOk, faults) <==> LosesSubnet(before, n, lookupOk, faults) {
      if LosesSubnet(before, n, lookupOk, faults) {
        assert HasSubnet(before, n, lookupOk);
      }
    }
    if Agreement.LeftBehind(after, ip) {
      var p :| p in after.peers && after.peers[p].node !in after.subnets && after.peers[p].ip == ip;
      assert p in before.peers && before.peers[p].ip == ip;
    }
    if p :| p in before.peers && before.peers[p].ip == ip
            && (before.peers[p].node !in before.subnets || LosesSubnet(before, before.peers[p].node, lookupOk, faults)) {
      assert after.peers[p].node !in after.subnets;
    }
  }

  /** An active peer of an active, counted node. */
  predicate Serves(db: Db, p: PeerId, countOk: NodeId -> bool)
    requires p in db.peers
  {
    var n := db.peers[p].node;
    db.peers[p].status == PeerActive && n in db.nodes && db.nodes[n].status == Active && countOk(n)
  }

  lemma ServingMeans(db: Db, countOk: NodeId -> bool, n: NodeId)
    ensures n in Serving(db, countOk) <==> exists p :: p in db.peers && db.peers[p].node == n && Serves(db, p, countOk)
  {
    var active := Registry.ActiveOn(db, n);
    if n in Serving(db, countOk) {
      var p :| p in active;
      assert Serves(db, p, countOk);
    }
    if p :| p in db.peers && db.peers[p].node == n && Serves(db, p, countOk) {
      assert p in active;
    }
  }

  lemma AtMostOne(s: set<NodeId>)
    ensures |s| <= 1 <==> forall m, n :: m in s && n in s ==> m == n
  {
    if m, n :| m in s && n in s && m != n {
      WireGuard.SetSize({m, n}, s);
      assert |{m, n}| == 2;
    } else if m :| m in s {
      assert s == {m};
    }
  }

  /** The guard of an orphan cleanup: at most one active node, as counted, has an active peer. */
  lemma ServesAtMostOneExactlyWhen(db: Db, countOk: NodeId -> bool)
    ensures |Serving(db, countOk)| <= 1 <==>
              forall p, q :: p in db.peers && q in db.peers && Serves(db, p, countOk) && Serves(db, q, countOk)
                             ==> db.peers[p].node == db.peers[q].node
  {
    var serving := Serving(db, countOk);
    AtMostOne(serving);
    forall n ensures n in serving <==> exists p :: p in db.peers && db.peers[p].node == n && Serves(db, p, countOk) {
      ServingMeans(db, countOk, n);
    }
    hide Serving;
    if m, n :| m in serving && n in serving && m != n {
      var p :| p in db.peers && db.peers[p].node == m && Serves(db, p, countOk);
      var q :| q in db.peers && db.peers[q].node == n && Serves(db, q, countOk);
      assert db.peers[p].node != db.peers[q].node;
    }
    hide Serves;
    forall p | p in db.peers && Serves(db, p, countOk) ensures db.peers[p].node in serving {
    }
  }

  /** A dry run of the subnet cleanup lists what a run takes in which nothing fails ... */
  lemma DryRunListsSubnets(db: Db, lookupOk: NodeId -> bool, faults: NodeId -> ReleaseFaults)
    requires Owned(db) && forall n :: faults(n).existsOk && faults(n).deleteOk
    ensures Unused(db, lookupOk) == Released(db, lookupOk, faults)
  {
    hide ValidNodeId;
  }

  /** ... and a dry run of the orphan cleanup counts as many nodes as such a run destroys. */
  lemma DryRunCountsOrphans(w: World, listed: seq<NodeId>, countOk: NodeId -> bool, isOld: NodeId -> bool,
                            clients: NodeId -> nat, faults: NodeId -> DestroyFaults)
    requires Owned(w.db) && UniqueNodeKeys(w.db.nodes) && IsOrphanList(w.db, listed, countOk, isOld)
    requires forall n :: Marks(faults(n), clients(n)) && faults(n).deleteOk
    ensures |Orphans(w.db, countOk, isOld)| == DestroyedAll(w, listed, clients, faults, |listed|).count
  {
    hide UniqueNodeKeys;
    hide Owned;
    OrphanCount(w.db, listed, countOk, isOld);
    NothingStops(w, listed, countOk, isOld, clients, faults, |listed|);
  }

  lemma {:induction false} NothingStops(w: World, listed: seq<NodeId>, countOk: NodeId -> bool, isOld: NodeId -> bool,
                                        clients: NodeId -> nat, faults: NodeId -> DestroyFaults, n: nat)
    requires Owned(w.db) && UniqueNodeKeys(w.db.nodes) && IsOrphanList(w.db, listed, countOk, isOld) && n <= |listed|
    requires forall n :: Marks(faults(n), clients(n)) && faults(n).deleteOk
    ensures DestroyedAll(w, listed, clients, faults, n).count == n
  {
    hide Destroy;
    hide UniqueNodeKeys;
    hide Owned;
    hide RowsLeft;
    hide NodesLeft;
    if n > 0 {
      NothingStops(w, listed, countOk, isOld, clients, faults, n - 1);
      var before, id := DestroyedAll(w, listed, clients, faults, n - 1).world, listed[n - 1];
      assert IsOrphan(w.db, id, countOk, isOld);
      DestroyedSoFar(w, listed, clients, faults, n - 1);
      assert id !in listed[..n - 1];
      StillActive(w.db, listed[..n - 1], clients, faults, before.db, id);
      DestroysActive(before, id, clients(id), faults(id).(release := NO_RELEASE));
    }
  }

  lemma StillActive(before: Db, done: seq<NodeId>, clients: NodeId -> nat, faults: NodeId -> DestroyFaults, after: Db, n: NodeId)
    requires RowsLeft(before, done, clients, faults, after) && UniqueNodeKeys(before.nodes)
    requires n in before.nodes && n !in done && before.nodes[n].status == Active
    ensures n in after.nodes && after.nodes[n].status == Active && UniqueNodeKeys(after.nodes)
  {
    hide Marks;
    KeysStayUnique(before, done, clients, faults, after);
  }
}
