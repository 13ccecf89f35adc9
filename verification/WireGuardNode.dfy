/** The node operations as they run: listings, checks and commands, one after the other,
    proved against the result functions of `WireGuard`. */
module WireGuardNode {
  import opened Text
  import opened WireGuard

  // ---- intermediate tables ----

  ghost predicate AgreeExcept(a: Table, b: Table, key: string) {
    forall k :: k != key ==> (k in a <==> k in b) && (k in a && k in b ==> a[k] == b[k])
  }

  ghost predicate OneKeyStep(a: Table, b: Table) {
    exists key :: AgreeExcept(a, b, key)
  }

  /** Nothing forgotten, and from the last table of `before` on, every command changed the
      entry of one key only and no table held an address twice. */
  ghost predicate CleanExtension(before: seq<Table>, after: seq<Table>) {
    && before != [] && before <= after
    && (forall k :: |before| - 1 <= k < |after| - 1 ==> OneKeyStep(after[k], after[k + 1]))
    && (forall k :: |before| - 1 <= k < |after| ==> DisjointIps(after[k]))
  }

  /** Nothing forgotten, and no table held an address twice. */
  ghost predicate SoundExtension(before: seq<Table>, after: seq<Table>) {
    && before != [] && before <= after
    && (forall k :: |before| - 1 <= k < |after| ==> DisjointIps(after[k]))
  }

  lemma SoundTwice(a: seq<Table>, b: seq<Table>, c: seq<Table>)
    requires SoundExtension(a, b) && SoundExtension(b, c)
    ensures SoundExtension(a, c)
  {
    forall k | |a| - 1 <= k < |c| ensures DisjointIps(c[k]) {
      if k < |b| {
        assert c[k] == b[k];
      }
    }
  }

  lemma SoundOnce(a: seq<Table>, t: Table)
    requires a != [] && DisjointIps(a[|a| - 1]) && DisjointIps(t)
    ensures SoundExtension(a, a + [t])
  {
  }

  lemma CleanIsSound(a: seq<Table>, b: seq<Table>)
    requires CleanExtension(a, b)
    ensures SoundExtension(a, b)
  {
  }

  lemma CleanTwice(a: seq<Table>, b: seq<Table>, c: seq<Table>)
    requires CleanExtension(a, b) && CleanExtension(b, c)
    ensures CleanExtension(a, c)
  {
    forall k | |a| - 1 <= k < |c| - 1 ensures OneKeyStep(c[k], c[k + 1]) {
      if k < |b| - 1 {
        assert c[k] == b[k] && c[k + 1] == b[k + 1];
      }
    }
    forall k | |a| - 1 <= k < |c| ensures DisjointIps(c[k]) {
      if k < |b| {
        assert c[k] == b[k];
      }
    }
  }

  lemma CleanOnce(a: seq<Table>, t: Table, key: string)
    requires a != [] && DisjointIps(a[|a| - 1]) && DisjointIps(t) && AgreeExcept(a[|a| - 1], t, key)
    ensures CleanExtension(a, a + [t])
  {
    assert OneKeyStep(a[|a| - 1], t);
  }

  lemma RemovalIsClean(i: Interface, t: Table, key: string)
    requires IsTable(t)
    ensures IsTable(WgRemove(t, key)) && AgreeExcept(t, WgRemove(t, key), key)
  {
    hide IsValidKey;
  }

  /** With the uniqueness check passed, the command takes no address from anybody. */
  lemma AdditionIsClean(i: Interface, t: Table, cfg: PeerConfig)
    requires IsTable(t) && IsValidConfig(cfg) && !Conflicts(i, t, cfg)
    ensures DisjointIps(t) && DisjointIps(WgSet(t, cfg)) && AgreeExcept(t, WgSet(t, cfg), cfg.key)
  {
    hide IsValidKey;
    PutTouchesOne(i, t, cfg);
    SetKeepsTable(t, cfg);
  }

  /** A line of the listing that shows entry `e` under `key`. */
  predicate Shows(r: Row, key: string, e: Entry) {
    && r.key == key && r.endpoint == e.endpoint
    && (set ip | ip in r.ips) == Printed(e) && |r.ips| == |Printed(e)|
  }

  /** The listing: the interface line, then one line for each peer in some order. */
  predicate Lists(i: Interface, rows: seq<Row>, t: Table) {
    && rows != [] && rows[0] == InterfaceRow(i)
    && (forall k :: 1 <= k < |rows| ==> rows[k].key in t && Shows(rows[k], rows[k].key, t[rows[k].key]))
    && (forall key :: key in t ==> exists k :: 1 <= k < |rows| && rows[k].key == key)
  }

  function InterfaceRow(i: Interface): Row {
    Row(i.key, [i.fwmark], Some(i.port))
  }

  method Enumerate(s: set<string>) returns (q: seq<string>)
    ensures (set x | x in q) == s && |q| == |s|
  {
    q := [];
    var rest := s;
    while rest != {}
      invariant rest <= s && (set x | x in q) == s - rest && |q| + |rest| == |s|
      decreases rest
    {
      var x :| x in rest;
      ghost var before := q;
      q, rest := q + [x], rest - {x};
      assert (set y | y in q) == (set y | y in before) + {x};
    }
  }

  /** `peerNeedsUpdate`. */
  method PeerNeedsUpdate(current: Row, desired: PeerConfig, ghost e: Entry) returns (needed: bool)
    requires Shows(current, current.key, e)
    ensures needed == NeedsUpdate(e, desired)
  {
    if |current.ips| != |desired.ips| {
      return true;
    }
    for k := 0 to |desired.ips|
      invariant forall j :: 0 <= j < k ==> desired.ips[j] in Printed(e)
    {
      assert desired.ips[k] in current.ips <==> desired.ips[k] in Printed(e);
      if desired.ips[k] !in current.ips {
        return true;
      }
    }
    if desired.endpoint.Some? {
      return current.endpoint.None? || current.endpoint.value != desired.endpoint.value;
    }
    return current.endpoint.Some?;
  }

  /** The uniqueness check at the start of `AddPeer`. */
  method FindConflict(i: Interface, rows: seq<Row>, cfg: PeerConfig, ghost t: Table) returns (found: bool)
    requires Lists(i, rows, t)
    ensures found == Conflicts(i, t, cfg)
  {
    for k := 0 to |rows|
      invariant forall j :: 0 <= j < k ==> rows[j].key != cfg.key
      invariant forall j, ip :: 0 <= j < k && ip in cfg.ips ==> ip !in rows[j].ips
    {
      if rows[k].key == cfg.key {
        return true;
      }
      for a := 0 to |cfg.ips|
        invariant forall j :: 0 <= j < a ==> cfg.ips[j] !in rows[k].ips
      {
        if cfg.ips[a] in rows[k].ips {
          RowConflict(i, rows, cfg, t, k, cfg.ips[a]);
          return true;
        }
      }
    }
    NoRowConflict(i, rows, cfg, t);
    return false;
  }

  lemma RowConflict(i: Interface, rows: seq<Row>, cfg: PeerConfig, t: Table, k: nat, ip: string)
    requires Lists(i, rows, t) && k < |rows| && ip in cfg.ips && ip in rows[k].ips
    ensures Conflicts(i, t, cfg)
  {
    if k > 0 {
      assert ip in Printed(t[rows[k].key]);
    }
  }

  lemma NoRowConflict(i: Interface, rows: seq<Row>, cfg: PeerConfig, t: Table)
    requires Lists(i, rows, t)
    requires forall j :: 0 <= j < |rows| ==> rows[j].key != cfg.key
    requires forall j, ip :: 0 <= j < |rows| && ip in cfg.ips ==> ip !in rows[j].ips
    ensures !Conflicts(i, t, cfg)
  {
    assert i.fwmark in rows[0].ips;
    forall key, ip | key in t && ip in cfg.ips ensures ip !in Printed(t[key]) {
      var k :| 1 <= k < |rows| && rows[k].key == key;
      assert ip !in rows[k].ips;
    }
  }

  /** The listed rows by key; the interface line is one of them. */
  predicate Indexed(i: Interface, current: map<string, Row>, t: Table) {
    && current.Keys == t.Keys + {i.key}
    && forall k :: k in current ==> Shows(current[k], k, Seen(i, t, k).value)
  }

  method IndexRows(i: Interface, rows: seq<Row>, ghost t: Table) returns (current: map<string, Row>)
    requires Lists(i, rows, t)
    ensures Indexed(i, current, t)
  {
    hide Shows;
    hide Seen;
    current := map[];
    for k := 0 to |rows|
      invariant current.Keys == set j | 0 <= j < k :: rows[j].key
      invariant forall j :: 1 <= j < k ==> Shows(current[rows[j].key], rows[j].key, t[rows[j].key])
      invariant k > 0 && (forall j :: 1 <= j < k ==> rows[j].key != i.key) ==> current[i.key] == InterfaceRow(i)
    {
      current := current[rows[k].key := rows[k]];
    }
    assert rows[0].key in current;
    forall key | key in t ensures key in current && Shows(current[key], key, t[key]) {
      var k :| 1 <= k < |rows| && rows[k].key == key;
    }
    InterfaceIsSeen(i, t);
    SeenInTable(i, t);
  }

  lemma InterfaceIsSeen(i: Interface, t: Table)
    ensures i.key !in t ==> Shows(InterfaceRow(i), i.key, Seen(i, t, i.key).value)
  {
  }

  lemma SeenInTable(i: Interface, t: Table)
    ensures forall k :: k in t ==> Seen(i, t, k) == Some(t[k])
    ensures Seen(i, t, i.key).Some?
  {
  }

  class Node {
    const iface: Interface
    var table: Table
    /** Every table the kernel has held, oldest first. */
    ghost var trace: seq<Table>

    ghost predicate Valid()
      reads this
    {
      IsTable(table) && IsValidKey(iface.key) && trace != [] && trace[|trace| - 1] == table
    }

    constructor (i: Interface)
      requires IsValidKey(i.key)
      ensures Valid() && iface == i && table == map[] && trace == [map[]]
    {
      iface := i;
      table := map[];
      trace := [map[]];
    }

    method ListPeers() returns (rows: seq<Row>)
      ensures Lists(iface, rows, table)
    {
      rows := [InterfaceRow(iface)];
      var rest := table.Keys;
      while rest != {}
        invariant rest <= table.Keys && rows != [] && rows[0] == InterfaceRow(iface)
        invariant forall k :: 1 <= k < |rows| ==>
                    rows[k].key in table && Shows(rows[k], rows[k].key, table[rows[k].key])
        invariant forall key :: key in table && key !in rest ==> exists k :: 1 <= k < |rows| && rows[k].key == key
        decreases rest
      {
        var key :| key in rest;
        var ips := Enumerate(Printed(table[key]));
        ghost var before := rows;
        rows, rest := rows + [Row(key, ips, table[key].endpoint)], rest - {key};
        assert rows[|before|].key == key;
        assert forall k :: 0 <= k < |before| ==> rows[k] == before[k];
      }
    }

    /** `RemovePeer`; logging slices the key, so shorter keys never get this far. */
    method RemovePeer(key: string, f: RemoveFaults) returns (ok: bool)
      requires Valid() && |key| >= 8
      modifies this
      ensures Valid() && CleanExtension(old(trace), trace)
      ensures Result(table, ok) == RemoveResult(iface, old(table), key, f)
    {
      hide IsValidKey;
      hide Shows;
      hide DisjointIps;
      if !IsValidKey(key) {
        return false;
      }
      if f.listOk {
        var rows := ListPeers();
        var found := false;
        for k := 0 to |rows|
          invariant !found ==> forall j :: 0 <= j < k ==> rows[j].key != key
          invariant found ==> key == iface.key || key in table
        {
          if rows[k].key == key {
            found := true;
            break;
          }
        }
        if !found {
          return true;
        }
      }
      if f.command.Failed? {
        return false;
      }
      RemovalIsClean(iface, table, key);
      CleanOnce(trace, WgRemove(table, key), key);
      table := WgRemove(table, key);
      trace := trace + [table];
      return f.command.Done?;
    }

    /** `AddPeer` with its check before and its verification and rollback after the command.
        Without the check, the command may take addresses from other peers. */
    method AddPeer(cfg: PeerConfig, f: AddFaults) returns (ok: bool)
      requires Valid() && |cfg.key| >= 8
      modifies this
      ensures Valid() && SoundExtension(old(trace), trace)
      ensures f.listOk || !Conflicts(iface, old(table), cfg) ==> CleanExtension(old(trace), trace)
      ensures Result(table, ok) == AddResult(iface, old(table), cfg, f)
    {
      hide IsValidConfig;
      hide Conflicts;
      hide WgSet;
      hide IsValidKey;
      hide DisjointIps;
      hide RemoveResult;
      hide CleanExtension;
      hide SoundExtension;
      Untouched();
      CleanIsSound(trace, trace);
      if !IsValidConfig(cfg) {
        return false;
      }
      if f.listOk {
        var rows := ListPeers();
        var found := FindConflict(iface, rows, cfg, table);
        if found {
          return false;
        }
      }
      if f.command.Failed? {
        return false;
      }
      SetKeepsTable(table, cfg);
      if !Conflicts(iface, table, cfg) {
        AdditionIsClean(iface, table, cfg);
        CleanOnce(trace, WgSet(table, cfg), cfg.key);
      }
      SoundOnce(trace, WgSet(table, cfg));
      table := WgSet(table, cfg);
      trace := trace + [table];
      if f.command.Lost? {
        return false;
      }
      if f.verifyOk {
        return true;
      }
      ghost var added := trace;
      var undone := RemovePeer(cfg.key, f.rollback);
      CleanIsSound(added, trace);
      SoundTwice(old(trace), added, trace);
      if CleanExtension(old(trace), added) {
        CleanTwice(old(trace), added, trace);
      }
      return false;
    }

    /** Doing nothing is a clean extension. */
    lemma Untouched()
      requires Valid()
      ensures CleanExtension(trace, trace)
    {
    }

    /** `UpdatePeer`: remove, then add; a failed removal is only logged. */
    method UpdatePeer(cfg: PeerConfig, r: RemoveFaults, f: AddFaults) returns (ok: bool)
      requires Valid() && |cfg.key| >= 8
      modifies this
      ensures Valid() && SoundExtension(old(trace), trace)
      ensures f.listOk ==> CleanExtension(old(trace), trace)
      ensures Result(table, ok) == UpdateResult(iface, old(table), cfg, r, f)
    {
      hide IsValidConfig;
      hide IsValidKey;
      hide RemoveResult;
      hide AddResult;
      hide DisjointIps;
      hide CleanExtension;
      hide SoundExtension;
      Untouched();
      CleanIsSound(trace, trace);
      if !IsValidConfig(cfg) {
        return false;
      }
      var removed := RemovePeer(cfg.key, r);
      ghost var middle := trace;
      CleanIsSound(old(trace), middle);
      ok := AddPeer(cfg, f);
      SoundTwice(old(trace), middle, trace);
      if f.listOk {
        CleanTwice(old(trace), middle, trace);
      }
    }

    /** `SyncPeers`: an error only if the first listing fails; failures of single peers are
        logged and passed over. No table on the way holds an address twice, and if every
        addition's own listing succeeds, every command changes one key. */
    method SyncPeers(cfgs: seq<PeerConfig>, listOk: bool, removals: string -> RemoveFaults, turns: nat -> TurnFaults)
      returns (ok: bool)
      requires Valid() && forall j :: 0 <= j < |cfgs| ==> |cfgs[j].key| >= 8
      modifies this
      ensures ok == listOk && Valid() && SoundExtension(old(trace), trace)
      ensures (forall n :: 0 <= n < |cfgs| ==> turns(n).add.listOk) ==> CleanExtension(old(trace), trace)
      ensures table == if listOk then SettledWith(iface, old(table), cfgs, removals, turns, |cfgs|) else old(table)
    {
      hide IsValidKey;
      hide IsValidConfig;
      hide DisjointIps;
      hide CleanExtension;
      hide SoundExtension;
      hide Shows;
      hide Lists;
      hide SettleWith;
      ghost var listed, start := table, trace;
      Untouched();
      CleanIsSound(trace, trace);
      if !listOk {
        return false;
      }
      var rows := ListPeers();
      var current := IndexRows(iface, rows, listed);
      var desired: set<string> := {};
      for k := 0 to |cfgs|
        invariant desired == set j | 0 <= j < k :: cfgs[j].key
      {
        desired := desired + {cfgs[k].key};
      }
      assert desired == Keys(cfgs);
      UnwantedKeys(current, cfgs, removals);
      RemoveUnwanted(current.Keys - desired, removals);
      hide PrunedWith;
      hide Indexed;
      CleanIsSound(start, trace);
      ghost var pruned := trace;
      SettleAll(current, cfgs, removals, turns, listed);
      SoundTwice(start, pruned, trace);
      if forall n :: 0 <= n < |cfgs| ==> turns(n).add.listOk {
        CleanTwice(start, pruned, trace);
      }
      return true;
    }

    /** The second loop of `SyncPeers`. */
    method SettleAll(current: map<string, Row>, cfgs: seq<PeerConfig>, ghost removals: string -> RemoveFaults,
                     turns: nat -> TurnFaults, ghost listed: Table)
      requires Valid() && Indexed(iface, current, listed) && table == PrunedWith(listed, cfgs, removals)
      requires forall j :: 0 <= j < |cfgs| ==> |cfgs[j].key| >= 8
      modifies this
      ensures Valid() && SoundExtension(old(trace), trace)
      ensures (forall n :: 0 <= n < |cfgs| ==> turns(n).add.listOk) ==> CleanExtension(old(trace), trace)
      ensures table == SettledWith(iface, listed, cfgs, removals, turns, |cfgs|)
    {
      hide IsValidKey;
      hide DisjointIps;
      hide CleanExtension;
      hide SoundExtension;
      hide Indexed;
      hide SettleWith;
      hide PrunedWith;
      Untouched();
      CleanIsSound(trace, trace);
      for n := 0 to |cfgs|
        invariant Valid() && SoundExtension(old(trace), trace)
        invariant (forall m :: 0 <= m < n ==> turns(m).add.listOk) ==> CleanExtension(old(trace), trace)
        invariant table == SettledWith(iface, listed, cfgs, removals, turns, n)
      {
        ghost var before := trace;
        TakeTurn(current, cfgs[n], turns(n), listed);
        SoundTwice(old(trace), before, trace);
        if forall m :: 0 <= m < n + 1 ==> turns(m).add.listOk {
          assert turns(n).add.listOk;
          CleanTwice(old(trace), before, trace);
        }
      }
    }

    lemma UnwantedKeys(current: map<string, Row>, cfgs: seq<PeerConfig>, removals: string -> RemoveFaults)
      requires Valid() && Indexed(iface, current, table)
      ensures forall k :: k in current.Keys - Keys(cfgs) ==> |k| >= 8
      ensures forall k :: k in current.Keys - Keys(cfgs) ==> k in table || k == iface.key
      ensures table - (set k | k in current.Keys - Keys(cfgs) && !removals(k).command.Failed?)
              == PrunedWith(table, cfgs, removals)
    {
    }

    /** One turn of the second loop of `SyncPeers`. */
    method TakeTurn(current: map<string, Row>, cfg: PeerConfig, f: TurnFaults, ghost listed: Table)
      requires Valid() && |cfg.key| >= 8 && Indexed(iface, current, listed)
      modifies this
      ensures Valid() && SoundExtension(old(trace), trace)
      ensures f.add.listOk ==> CleanExtension(old(trace), trace)
      ensures table == SettleWith(iface, listed, old(table), cfg, f)
    {
      hide IsValidKey;
      hide DisjointIps;
      hide NeedsUpdate;
      hide RemoveResult;
      hide AddResult;
      hide CleanExtension;
      hide SoundExtension;
      Untouched();
      CleanIsSound(trace, trace);
      if cfg.key in current {
        var needed := PeerNeedsUpdate(current[cfg.key], cfg, Seen(iface, listed, cfg.key).value);
        if needed {
          var ok := UpdatePeer(cfg, f.remove, f.add);
        }
      } else {
        var ok := AddPeer(cfg, f.add);
      }
    }

    /** The first loop of `SyncPeers`, in any order; keys outside the table change nothing. */
    method RemoveUnwanted(unwanted: set<string>, removals: string -> RemoveFaults)
      requires Valid()
      requires forall k :: k in unwanted ==> k in table || k == iface.key
      requires forall k :: k in unwanted ==> |k| >= 8
      modifies this
      ensures Valid() && CleanExtension(old(trace), trace)
      ensures table == old(table) - (set k | k in unwanted && !removals(k).command.Failed?)
    {
      hide IsValidKey;
      hide DisjointIps;
      hide CleanExtension;
      Untouched();
      var rest := unwanted;
      ghost var gone: set<string> := {};
      while rest != {}
        invariant rest <= unwanted && Valid() && CleanExtension(old(trace), trace)
        invariant gone == set k | k in unwanted - rest && !removals(k).command.Failed?
        invariant table == old(table) - gone
        decreases rest
      {
        var key :| key in rest;
        ghost var before, was := trace, table;
        RemovalTakes(iface, table, key, removals(key));
        var ok := RemovePeer(key, removals(key));
        if !removals(key).command.Failed? {
          gone := gone + {key};
          assert table == was - {key};
        }
        CleanTwice(old(trace), before, trace);
        rest := rest - {key};
      }
      assert gone == set k | k in unwanted && !removals(k).command.Failed?;
    }
  }

  /** A removal takes the entry unless its command has failed. */
  lemma RemovalTakes(i: Interface, t: Table, key: string, f: RemoveFaults)
    requires IsTable(t) && IsValidKey(i.key) && (key in t || key == i.key)
    ensures RemoveResult(i, t, key, f).table == if f.command.Failed? then t else t - {key}
  {
  }
}
