/** internal/rotator/infrastructure/remote/wireguard.go: a node's peer table and the
    operations that change it over SSH. */
module WireGuard {
  import opened Text

  /** What the kernel keeps for a peer. */
  datatype Entry = Entry(ips: set<string>, endpoint: Option<string>)

  type Table = map<string, Entry>

  datatype PeerConfig = PeerConfig(key: string, ips: seq<string>, endpoint: Option<string>, psk: Option<string>)

  /** One parsed line of the dump. */
  datatype Row = Row(key: string, ips: seq<string>, endpoint: Option<string>)

  // ---- keys and configurations ----

  predicate IsBase64(c: char) {
    'A' <= c <= 'Z' || 'a' <= c <= 'z' || '0' <= c <= '9' || c == '+' || c == '/'
  }

  /** `crypto.IsValidWireGuardKey`: 44 characters that decode as base64. */
  predicate IsValidKey(key: string) {
    && |key| == 44
    && (forall i :: 0 <= i < 42 ==> IsBase64(key[i]))
    && ((IsBase64(key[42]) && (IsBase64(key[43]) || key[43] == '=')) || (key[42] == '=' && key[43] == '='))
  }

  /** `validatePeerConfig`. */
  predicate IsValidConfig(cfg: PeerConfig) {
    && IsValidKey(cfg.key)
    && cfg.ips != []
    && "" !in cfg.ips
    && (cfg.psk.Some? && cfg.psk.value != "" ==> IsValidKey(cfg.psk.value))
  }

  function Ips(cfg: PeerConfig): set<string> {
    set ip | ip in cfg.ips
  }

  // ---- the kernel ----

  /** `wg set <if> peer <key> allowed-ips ... [endpoint ...]`: an allowed address belongs to
      one peer only, so it is taken from whoever held it. */
  function WgSet(t: Table, cfg: PeerConfig): Table {
    map k | k in t.Keys + {cfg.key} ::
      if k == cfg.key then
        Entry(Ips(cfg), if cfg.endpoint.Some? && cfg.endpoint.value != "" then cfg.endpoint
                        else if k in t then t[k].endpoint else None)
      else t[k].(ips := t[k].ips - Ips(cfg))
  }

  /** `wg set <if> peer <key> remove`; removing an absent peer is no error. */
  function WgRemove(t: Table, key: string): Table {
    t - {key}
  }

  const NONE := "(none)"

  /** The allowed-ips column as the parser splits it. */
  function Printed(e: Entry): set<string> {
    if e.ips == {} then {NONE} else e.ips
  }

  // ---- AddPeer, RemovePeer, UpdatePeer ----

  /** The first dump line describes the interface; the parser takes it for a peer whose key is
      the interface's private key and whose only address is its firewall mark. */
  datatype Interface = Interface(key: string, fwmark: string, port: string)

  predicate Conflicts(i: Interface, t: Table, cfg: PeerConfig) {
    || cfg.key == i.key || cfg.key in t
    || i.fwmark in cfg.ips
    || exists k, ip :: k in t && ip in cfg.ips && ip in Printed(t[k])
  }

  /** How a `wg set` ends: reported done, failed without effect, or done with its report lost,
      which looks like a failure. */
  datatype Command = Done | Failed | Lost

  /** How the remote commands of an operation end. */
  datatype RemoveFaults = RemoveFaults(listOk: bool, command: Command)
  datatype AddFaults = AddFaults(listOk: bool, command: Command, verifyOk: bool, rollback: RemoveFaults)

  const NO_REMOVE_FAULTS := RemoveFaults(true, Done)
  const NO_FAULTS := AddFaults(true, Done, true, NO_REMOVE_FAULTS)

  datatype Result = Result(table: Table, ok: bool)

  function RemoveResult(i: Interface, t: Table, key: string, f: RemoveFaults): Result {
    if !IsValidKey(key) then Result(t, false)
    else if f.listOk && key != i.key && key !in t then Result(t, true)
    else Result(if f.command.Failed? then t else WgRemove(t, key), f.command.Done?)
  }

  /** A failed listing is ignored before the command, but undoes the command after it. Only a
      command reported done is ever undone. */
  function AddResult(i: Interface, t: Table, cfg: PeerConfig, f: AddFaults): Result {
    if !IsValidConfig(cfg) then Result(t, false)
    else if f.listOk && Conflicts(i, t, cfg) then Result(t, false)
    else if f.command.Failed? then Result(t, false)
    else if f.command.Lost? then Result(WgSet(t, cfg), false)
    else if f.verifyOk then Result(WgSet(t, cfg), true)
    else Result(RemoveResult(i, WgSet(t, cfg), cfg.key, f.rollback).table, false)
  }

  /** `UpdatePeer`: an invalid configuration is rejected before anything is removed; a failed
      removal is only logged. */
  function UpdateResult(i: Interface, t: Table, cfg: PeerConfig, r: RemoveFaults, f: AddFaults): Result {
    if IsValidConfig(cfg) then AddResult(i, RemoveResult(i, t, cfg.key, r).table, cfg, f) else Result(t, false)
  }

  // ---- SyncPeers ----

  /** `peerNeedsUpdate`. */
  predicate NeedsUpdate(e: Entry, cfg: PeerConfig) {
    || |Printed(e)| != |cfg.ips|
    || (exists ip :: ip in cfg.ips && ip !in Printed(e))
    || e.endpoint != cfg.endpoint
  }

  function Keys(cfgs: seq<PeerConfig>): set<string> {
    set j | 0 <= j < |cfgs| :: cfgs[j].key
  }

  /** What the listing has under a key; the interface line is read as one more peer. */
  function Seen(i: Interface, listed: Table, key: string): Option<Entry> {
    if key in listed then Some(listed[key])
    else if key == i.key then Some(Entry({i.fwmark}, Some(i.port)))
    else None
  }

  /** How the commands of one turn of the second loop end. */
  datatype TurnFaults = TurnFaults(remove: RemoveFaults, add: AddFaults)

  const NO_TURN_FAULTS := TurnFaults(NO_REMOVE_FAULTS, NO_FAULTS)
  const NO_REMOVALS_FAIL: string -> RemoveFaults := _ => NO_REMOVE_FAULTS
  const NO_TURNS_FAIL: nat -> TurnFaults := _ => NO_TURN_FAULTS

  /** Removing what is not desired, as far as the removals take effect. */
  function PrunedWith(t: Table, cfgs: seq<PeerConfig>, removals: string -> RemoveFaults): Table {
    map k | k in t && (k in Keys(cfgs) || removals(k).command.Failed?) :: t[k]
  }

  /** One turn of the second loop; `listed` is the table as listed at the start. */
  function SettleWith(i: Interface, listed: Table, t: Table, cfg: PeerConfig, f: TurnFaults): Table {
    var seen := Seen(i, listed, cfg.key);
    if seen.None? then AddResult(i, t, cfg, f.add).table
    else if NeedsUpdate(seen.value, cfg) then UpdateResult(i, t, cfg, f.remove, f.add).table
    else t
  }

  function SettledWith(i: Interface, listed: Table, cfgs: seq<PeerConfig>, removals: string -> RemoveFaults,
                       turns: nat -> TurnFaults, n: nat): Table
    requires n <= |cfgs|
  {
    if n == 0 then PrunedWith(listed, cfgs, removals)
    else SettleWith(i, listed, SettledWith(i, listed, cfgs, removals, turns, n - 1), cfgs[n - 1], turns(n - 1))
  }

  // ---- SyncPeers when every command succeeds ----

  function Put(i: Interface, t: Table, cfg: PeerConfig): Table {
    AddResult(i, t, cfg, NO_FAULTS).table
  }

  function Drop(i: Interface, t: Table, key: string): Table {
    RemoveResult(i, t, key, NO_REMOVE_FAULTS).table
  }

  function Pruned(t: Table, cfgs: seq<PeerConfig>): Table {
    PrunedWith(t, cfgs, NO_REMOVALS_FAIL)
  }

  function Settle(i: Interface, listed: Table, t: Table, cfg: PeerConfig): Table {
    SettleWith(i, listed, t, cfg, NO_TURN_FAULTS)
  }

  function Settled(i: Interface, listed: Table, cfgs: seq<PeerConfig>, n: nat): Table
    requires n <= |cfgs|
  {
    SettledWith(i, listed, cfgs, NO_REMOVALS_FAIL, NO_TURNS_FAIL, n)
  }

  function Synced(i: Interface, t: Table, cfgs: seq<PeerConfig>): Table {
    Settled(i, t, cfgs, |cfgs|)
  }

  /** A removal succeeds exactly when the peer is seen to be absent or the command is reported
      done; the key is then gone. It takes nothing else, and the key exactly if its command had
      an effect. */
  lemma RemovesExactlyWhen(i: Interface, t: Table, key: string, f: RemoveFaults)
    ensures var r := RemoveResult(i, t, key, f);
            && (r.ok <==> IsValidKey(key) && ((f.listOk && key != i.key && key !in t) || f.command.Done?))
            && r.table.Keys == t.Keys - (if IsValidKey(key) && !f.command.Failed? then {key} else {})
            && (forall k :: k in r.table ==> r.table[k] == t[k])
            && (r.ok && key in t ==> key !in r.table)
  {
    hide IsValidKey;
  }

  /** An update in which no command fails succeeds exactly when the configuration is valid and no
      other peer, nor the interface line, has the key or one of the addresses; the peer's entry
      is then the only one changed. An invalid configuration changes nothing, but an update that
      meets another peer's address has removed its own peer. */
  lemma UpdatesExactlyWhen(i: Interface, t: Table, cfg: PeerConfig)
    ensures var r := UpdateResult(i, t, cfg, NO_REMOVE_FAULTS, NO_FAULTS);
            && (r.ok <==> IsValidConfig(cfg) && !Conflicts(i, t - {cfg.key}, cfg))
            && (!IsValidConfig(cfg) ==> r.table == t)
            && (IsValidConfig(cfg) && !r.ok ==> r.table == t - {cfg.key})
            && (r.ok ==> r.table.Keys == t.Keys + {cfg.key} && r.table[cfg.key].ips == Ips(cfg)
                         && (cfg.endpoint.Some? && cfg.endpoint.value != "" ==> r.table[cfg.key].endpoint == cfg.endpoint)
                         && forall k :: k in t && k != cfg.key ==> r.table[k] == t[k])
  {
    hide IsValidKey;
    if IsValidConfig(cfg) {
      var rest := t - {cfg.key};
      assert RemoveResult(i, t, cfg.key, NO_REMOVE_FAULTS).table == rest;
      hide RemoveResult;
      if !Conflicts(i, rest, cfg) {
        PutTouchesOne(i, rest, cfg);
      }
    }
  }

  // ---- what is assumed of tables and of desired states ----

  predicate DisjointIps(t: Table) {
    forall j, k :: j in t && k in t && j != k ==> t[j].ips !! t[k].ips
  }

  /** A kernel table: valid keys, no address in two entries. */
  predicate IsTable(t: Table) {
    (forall k :: k in t ==> IsValidKey(k)) && DisjointIps(t)
  }

  predicate NoDuplicates(s: seq<string>) {
    forall j, k :: 0 <= j < k < |s| ==> s[j] != s[k]
  }

  /** A desired state that can be reached at all: distinct valid keys, duplicate-free and
      pairwise disjoint address lists, no text the dump uses for something else. */
  predicate IsDesired(i: Interface, cfgs: seq<PeerConfig>) {
    && (forall j :: 0 <= j < |cfgs| ==> IsDesiredPeer(i, cfgs[j]))
    && (forall j, k :: 0 <= j < k < |cfgs| ==> cfgs[j].key != cfgs[k].key && Ips(cfgs[j]) !! Ips(cfgs[k]))
  }

  predicate IsDesiredPeer(i: Interface, cfg: PeerConfig) {
    && IsValidConfig(cfg) && cfg.key != i.key && NoDuplicates(cfg.ips)
    && i.fwmark !in cfg.ips && NONE !in cfg.ips && cfg.endpoint != Some("")
  }

  function Wanted(cfg: PeerConfig): Entry {
    Entry(Ips(cfg), cfg.endpoint)
  }

  predicate Converged(t: Table, cfgs: seq<PeerConfig>) {
    && t.Keys == Keys(cfgs)
    && forall j :: 0 <= j < |cfgs| ==> t[cfgs[j].key] == Wanted(cfgs[j])
  }

  /** No desired peer wants an address that a later desired peer still holds. A caller can
      check this before the call. */
  predicate NoLaterHolder(t: Table, cfgs: seq<PeerConfig>) {
    forall j :: 0 <= j < |cfgs| ==> FreeOfLater(t, cfgs, j)
  }

  predicate FreeOfLater(t: Table, cfgs: seq<PeerConfig>, j: nat)
    requires j < |cfgs|
  {
    forall k :: j < k < |cfgs| && cfgs[k].key in t ==> Ips(cfgs[j]) !! t[cfgs[k].key].ips
  }

  // ---- proofs about sync ----

  lemma {:induction false} DistinctCount(s: seq<string>)
    requires NoDuplicates(s)
    ensures |set x | x in s| == |s|
  {
    if s != [] {
      var n := |s| - 1;
      DistinctCount(s[..n]);
      assert (set x | x in s) == (set x | x in s[..n]) + {s[n]};
    }
  }

  lemma SubsetOfSameSize(a: set<string>, b: set<string>)
    requires a <= b && |a| == |b|
    ensures a == b
  {
    if x :| x in b && x !in a {
      SetSize(a, b - {x});
    }
  }

  lemma {:induction false} SetSize(a: set<string>, b: set<string>)
    requires a <= b
    ensures |a| <= |b|
  {
    if x :| x in a {
      SetSize(a - {x}, b - {x});
    }
  }

  /** A peer that needs no update already has the desired entry, and the other way round. */
  lemma NoUpdateMeansEqual(i: Interface, e: Entry, cfg: PeerConfig)
    requires IsDesiredPeer(i, cfg)
    ensures !NeedsUpdate(e, cfg) <==> e == Wanted(cfg)
  {
    DistinctCount(cfg.ips);
    assert cfg.ips[0] in Ips(cfg);
    if !NeedsUpdate(e, cfg) {
      SubsetOfSameSize(Ips(cfg), Printed(e));
    }
  }

  /** Without a conflict the command adds the entry and touches no other. */
  lemma PutFree(i: Interface, t: Table, cfg: PeerConfig)
    requires IsDesiredPeer(i, cfg) && cfg.key !in t
    requires forall k :: k in t ==> Ips(cfg) !! t[k].ips
    ensures Put(i, t, cfg) == t[cfg.key := Wanted(cfg)]
  {
    assert !Conflicts(i, t, cfg) by {
      forall k, ip | k in t && ip in cfg.ips ensures ip !in Printed(t[k]) {
        assert ip in Ips(cfg);
      }
    }
    forall k | k in t ensures t[k].(ips := t[k].ips - Ips(cfg)) == t[k] {
      assert t[k].ips - Ips(cfg) == t[k].ips;
    }
  }

  /** Whatever is put, no other entry changes. */
  lemma PutTouchesOne(i: Interface, t: Table, cfg: PeerConfig)
    ensures forall k :: k != cfg.key ==>
              (k in Put(i, t, cfg) <==> k in t) && (k in t ==> Put(i, t, cfg)[k] == t[k])
  {
    if IsValidConfig(cfg) && !Conflicts(i, t, cfg) {
      forall k | k in t ensures t[k].ips - Ips(cfg) == t[k].ips {
        forall ip | ip in t[k].ips ensures ip !in Ips(cfg) {
          assert ip in Printed(t[k]);
        }
      }
    }
  }

  /** Where the second loop stands after n turns. */
  predicate Progress(listed: Table, cfgs: seq<PeerConfig>, n: nat, t: Table)
    requires n <= |cfgs|
  {
    && t.Keys <= Keys(cfgs)
    && (forall j :: 0 <= j < n ==> cfgs[j].key in t && t[cfgs[j].key] == Wanted(cfgs[j]))
    && (forall j :: n <= j < |cfgs| ==> (cfgs[j].key in t <==> cfgs[j].key in listed))
    && (forall j :: n <= j < |cfgs| && cfgs[j].key in t ==> t[cfgs[j].key] == listed[cfgs[j].key])
  }

  lemma DropRemoves(i: Interface, t: Table, cfg: PeerConfig)
    requires IsDesiredPeer(i, cfg)
    ensures Drop(i, t, cfg.key) == t - {cfg.key}
  {
    hide IsValidKey;
  }

  lemma DesiredIsValid(i: Interface, cfg: PeerConfig)
    requires IsDesiredPeer(i, cfg)
    ensures IsValidConfig(cfg)
  {
  }

  /** A turn without faults, for a key that is not the interface's. */
  lemma CleanTurn(i: Interface, listed: Table, t: Table, cfg: PeerConfig)
    requires IsDesiredPeer(i, cfg)
    ensures Settle(i, listed, t, cfg)
            == if cfg.key !in listed then Put(i, t, cfg)
               else if NeedsUpdate(listed[cfg.key], cfg) then Put(i, Drop(i, t, cfg.key), cfg)
               else t
  {
    hide WgSet;
    hide IsValidKey;
    hide Conflicts;
    hide NeedsUpdate;
    DesiredIsValid(i, cfg);
  }

  lemma TurnSets(i: Interface, listed: Table, cfgs: seq<PeerConfig>, n: nat, t: Table)
    requires IsTable(listed) && IsDesired(i, cfgs) && n < |cfgs|
    requires Progress(listed, cfgs, n, t) && FreeOfLater(listed, cfgs, n)
    ensures Settle(i, listed, t, cfgs[n]) == t[cfgs[n].key := Wanted(cfgs[n])]
  {
    hide IsDesiredPeer;
    hide IsValidKey;
    hide Put;
    hide Drop;
    hide Settle;
    hide NeedsUpdate;
    var cfg := cfgs[n];
    CleanTurn(i, listed, t, cfg);
    DropRemoves(i, t, cfg);
    forall k | k in t && k != cfg.key ensures Ips(cfg) !! t[k].ips {
      var j :| 0 <= j < |cfgs| && cfgs[j].key == k;
    }
    PutFree(i, t - {cfg.key}, cfg);
    if cfg.key in listed {
      NoUpdateMeansEqual(i, listed[cfg.key], cfg);
    } else {
      assert t - {cfg.key} == t;
    }
  }

  lemma SettingProgresses(listed: Table, cfgs: seq<PeerConfig>, n: nat, t: Table)
    requires n < |cfgs| && Progress(listed, cfgs, n, t)
    requires forall j, k :: 0 <= j < k < |cfgs| ==> cfgs[j].key != cfgs[k].key
    ensures Progress(listed, cfgs, n + 1, t[cfgs[n].key := Wanted(cfgs[n])])
  {
    hide Ips;
    assert cfgs[n].key in Keys(cfgs);
  }

  lemma PruningProgresses(listed: Table, cfgs: seq<PeerConfig>)
    ensures Progress(listed, cfgs, 0, Pruned(listed, cfgs))
  {
    assert forall j :: 0 <= j < |cfgs| ==> cfgs[j].key in Keys(cfgs);
  }

  lemma {:induction false} SettledProgresses(i: Interface, listed: Table, cfgs: seq<PeerConfig>, n: nat)
    requires IsTable(listed) && IsDesired(i, cfgs) && n <= |cfgs|
    requires forall j :: 0 <= j < n ==> FreeOfLater(listed, cfgs, j)
    ensures Progress(listed, cfgs, n, Settled(i, listed, cfgs, n))
  {
    hide IsDesiredPeer;
    hide SettleWith;
    hide FreeOfLater;
    hide Progress;
    if n == 0 {
      PruningProgresses(listed, cfgs);
    } else {
      SettledProgresses(i, listed, cfgs, n - 1);
      TurnSets(i, listed, cfgs, n - 1, Settled(i, listed, cfgs, n - 1));
      SettingProgresses(listed, cfgs, n - 1, Settled(i, listed, cfgs, n - 1));
    }
  }

  /** A peer whose wanted address is still held by a later one is lost: it has been removed
      and cannot be added. */
  lemma TurnLoses(i: Interface, listed: Table, cfgs: seq<PeerConfig>, n: nat, t: Table)
    requires IsTable(listed) && IsDesired(i, cfgs) && n < |cfgs|
    requires Progress(listed, cfgs, n, t) && !FreeOfLater(listed, cfgs, n)
    ensures cfgs[n].key !in Settle(i, listed, t, cfgs[n])
  {
    hide IsDesiredPeer;
    hide IsValidKey;
    hide IsValidConfig;
    hide NeedsUpdate;
    hide Drop;
    var cfg := cfgs[n];
    DropRemoves(i, t, cfg);
    DesiredIsValid(i, cfg);
    var k :| n < k < |cfgs| && cfgs[k].key in listed && !(Ips(cfg) !! listed[cfgs[k].key].ips);
    var ip :| ip in Ips(cfg) && ip in listed[cfgs[k].key].ips;
    if cfg.key in listed {
      NoUpdateMeansEqual(i, listed[cfg.key], cfg);
      assert NeedsUpdate(listed[cfg.key], cfg);
    }
    var u := if cfg.key in listed then Drop(i, t, cfg.key) else t;
    assert u == t - {cfg.key};
    assert cfgs[k].key in u && ip in Printed(u[cfgs[k].key]);
    assert Conflicts(i, u, cfg);
  }

  lemma {:induction false} LostStaysLost(i: Interface, listed: Table, cfgs: seq<PeerConfig>, m: nat, n: nat)
    requires IsDesired(i, cfgs) && m < n <= |cfgs|
    requires cfgs[m].key !in Settled(i, listed, cfgs, m + 1)
    ensures cfgs[m].key !in Settled(i, listed, cfgs, n)
  {
    hide IsDesiredPeer;
    hide Put;
    if m + 1 < n {
      LostStaysLost(i, listed, cfgs, m, n - 1);
      var t, cfg := Settled(i, listed, cfgs, n - 1), cfgs[n - 1];
      assert cfg.key != cfgs[m].key;
      PutTouchesOne(i, t, cfg);
      PutTouchesOne(i, Drop(i, t, cfg.key), cfg);
    }
  }

  lemma FirstBlocked(t: Table, cfgs: seq<PeerConfig>) returns (n: nat)
    requires !NoLaterHolder(t, cfgs)
    ensures n < |cfgs| && !FreeOfLater(t, cfgs, n)
    ensures forall j :: 0 <= j < n ==> FreeOfLater(t, cfgs, j)
  {
    n := 0;
    while FreeOfLater(t, cfgs, n)
      invariant n < |cfgs|
      invariant forall j :: 0 <= j < n ==> FreeOfLater(t, cfgs, j)
      invariant exists j :: n <= j < |cfgs| && !FreeOfLater(t, cfgs, j)
      decreases |cfgs| - n
    {
      n := n + 1;
    }
  }

  /** With every command succeeding, sync ends with exactly the desired peers, each with its
      desired addresses and endpoint, if and only if no desired address is held by a later
      desired peer when sync starts. */
  lemma SyncConvergesExactlyWhen(i: Interface, t: Table, cfgs: seq<PeerConfig>)
    requires IsTable(t) && IsDesired(i, cfgs)
    ensures Converged(Synced(i, t, cfgs), cfgs) <==> NoLaterHolder(t, cfgs)
  {
    if NoLaterHolder(t, cfgs) {
      SettledProgresses(i, t, cfgs, |cfgs|);
      assert Synced(i, t, cfgs).Keys == Keys(cfgs);
    } else {
      var n := FirstBlocked(t, cfgs);
      SettledProgresses(i, t, cfgs, n);
      TurnLoses(i, t, cfgs, n, Settled(i, t, cfgs, n));
      LostStaysLost(i, t, cfgs, n, |cfgs|);
      assert cfgs[n].key in Keys(cfgs);
    }
  }

  /** A converged table is left alone by the next sync. */
  lemma {:induction false} SecondSyncIsIdle(i: Interface, t: Table, cfgs: seq<PeerConfig>, n: nat)
    requires IsDesired(i, cfgs) && Converged(t, cfgs) && n <= |cfgs|
    ensures Settled(i, t, cfgs, n) == t
  {
    hide IsDesiredPeer;
    hide NeedsUpdate;
    hide Put;
    if n == 0 {
      assert Pruned(t, cfgs) == t;
    } else {
      SecondSyncIsIdle(i, t, cfgs, n - 1);
      assert cfgs[n - 1].key in Keys(cfgs);
      NoUpdateMeansEqual(i, t[cfgs[n - 1].key], cfgs[n - 1]);
    }
  }

  lemma SyncIsIdempotent(i: Interface, t: Table, cfgs: seq<PeerConfig>)
    requires IsTable(t) && IsDesired(i, cfgs) && NoLaterHolder(t, cfgs)
    ensures Synced(i, Synced(i, t, cfgs), cfgs) == Synced(i, t, cfgs)
  {
    SyncConvergesExactlyWhen(i, t, cfgs);
    SecondSyncIsIdle(i, Synced(i, t, cfgs), cfgs, |cfgs|);
  }

  /** Two peers trading addresses: sync loses the first of them. */
  lemma SwapLosesAPeer(i: Interface, a: string, b: string, x: string, y: string)
    requires IsValidKey(a) && IsValidKey(b) && a != b && i.key != a && i.key != b
    requires x != y && x != "" && y != "" && x != NONE && y != NONE && i.fwmark != x && i.fwmark != y
    ensures var t := map[a := Entry({x}, None), b := Entry({y}, None)];
            var cfgs := [PeerConfig(a, [y], None, None), PeerConfig(b, [x], None, None)];
            IsTable(t) && IsDesired(i, cfgs) && !Converged(Synced(i, t, cfgs), cfgs)
  {
    var t := map[a := Entry({x}, None), b := Entry({y}, None)];
    var cfgs := [PeerConfig(a, [y], None, None), PeerConfig(b, [x], None, None)];
    assert y in Ips(cfgs[0]) && y in t[cfgs[1].key].ips;
    assert IsDesiredPeer(i, cfgs[0]) && IsDesiredPeer(i, cfgs[1]);
    assert Ips(cfgs[0]) == {y} && Ips(cfgs[1]) == {x};
    assert !FreeOfLater(t, cfgs, 0);
    SyncConvergesExactlyWhen(i, t, cfgs);
  }

  // ---- sync whatever fails ----

  lemma SetKeepsTable(t: Table, cfg: PeerConfig)
    requires IsTable(t) && IsValidConfig(cfg)
    ensures IsTable(WgSet(t, cfg))
  {
    hide IsValidKey;
    var u := WgSet(t, cfg);
    assert IsValidKey(cfg.key);
    assert forall j, k :: j in u && k in u && j != k ==> u[j].ips !! u[k].ips;
  }

  /** From one table to another, everything outside one key is kept: entries may only lose
      addresses, and lose none if the step is guarded by its check. */
  ghost predicate TouchesOnly(before: Table, after: Table, key: string, guarded: bool) {
    && (forall k :: k != key ==> (k in after <==> k in before))
    && (forall k :: k != key && k in before && k in after ==>
          after[k].endpoint == before[k].endpoint && after[k].ips <= before[k].ips
          && (guarded ==> after[k] == before[k]))
  }

  /** The key's own entry is gone, what it was, or part of what was asked for. */
  predicate Explained(before: Table, after: Table, cfg: PeerConfig) {
    cfg.key in after ==>
      (cfg.key in before && after[cfg.key].ips <= before[cfg.key].ips) || after[cfg.key].ips <= Ips(cfg)
  }

  lemma RemovalSpares(i: Interface, t: Table, cfg: PeerConfig, f: RemoveFaults)
    requires IsTable(t)
    ensures var u := RemoveResult(i, t, cfg.key, f).table;
            IsTable(u) && TouchesOnly(t, u, cfg.key, true) && Explained(t, u, cfg)
  {
    hide IsValidKey;
  }

  lemma SettingSpares(t: Table, cfg: PeerConfig, guarded: bool)
    requires IsTable(t) && IsValidConfig(cfg)
    requires guarded ==> forall k :: k in t && k != cfg.key ==> Ips(cfg) !! t[k].ips
    ensures var u := WgSet(t, cfg);
            IsTable(u) && TouchesOnly(t, u, cfg.key, guarded) && Explained(t, u, cfg)
  {
    hide IsValidKey;
    SetKeepsTable(t, cfg);
    if guarded {
      forall k | k in t && k != cfg.key ensures t[k].ips - Ips(cfg) == t[k].ips {
      }
    }
  }

  lemma NoConflictMeansFree(i: Interface, t: Table, cfg: PeerConfig)
    requires !Conflicts(i, t, cfg)
    ensures forall k :: k in t ==> Ips(cfg) !! t[k].ips
  {
    forall k, ip | k in t && ip in t[k].ips ensures ip !in Ips(cfg) {
      assert ip in Printed(t[k]);
    }
  }

  lemma AdditionSpares(i: Interface, t: Table, cfg: PeerConfig, f: AddFaults)
    requires IsTable(t)
    ensures var u := AddResult(i, t, cfg, f).table;
            IsTable(u) && TouchesOnly(t, u, cfg.key, f.listOk) && Explained(t, u, cfg)
  {
    hide IsValidConfig;
    hide WgSet;
    hide Conflicts;
    hide RemoveResult;
    hide IsTable;
    hide Ips;
    if IsValidConfig(cfg) && !(f.listOk && Conflicts(i, t, cfg)) && !f.command.Failed? {
      if f.listOk {
        NoConflictMeansFree(i, t, cfg);
      }
      SettingSpares(t, cfg, f.listOk);
      RemovalSpares(i, WgSet(t, cfg), cfg, f.rollback);
    }
  }

  lemma TurnSpares(i: Interface, listed: Table, t: Table, cfg: PeerConfig, f: TurnFaults)
    requires IsTable(t)
    ensures var u := SettleWith(i, listed, t, cfg, f);
            IsTable(u) && TouchesOnly(t, u, cfg.key, f.add.listOk) && Explained(t, u, cfg)
  {
    hide IsTable;
    hide AddResult;
    hide RemoveResult;
    hide NeedsUpdate;
    hide Ips;
    RemovalSpares(i, t, cfg, f.remove);
    AdditionSpares(i, t, cfg, f.add);
    AdditionSpares(i, RemoveResult(i, t, cfg.key, f.remove).table, cfg, f.add);
  }

  /** An entry that sync may leave under a key: its old one, or one somebody asked for, either
      possibly without some addresses. */
  ghost predicate MayHold(t: Table, cfgs: seq<PeerConfig>, n: nat, key: string, e: Entry)
    requires n <= |cfgs|
  {
    || (key in t && e.ips <= t[key].ips)
    || (exists j :: 0 <= j < n && cfgs[j].key == key && e.ips <= Ips(cfgs[j]))
  }

  /** Whatever fails, sync leaves a sound table. A key outside the old table and the desired
      ones never appears. An undesired peer stays exactly if its removal failed, as it was,
      except for addresses taken by an addition whose check failed. A desired key holds only
      addresses it had or was to have. */
  lemma {:induction false} SyncWhateverFails(i: Interface, t: Table, cfgs: seq<PeerConfig>,
                                             removals: string -> RemoveFaults, turns: nat -> TurnFaults, n: nat)
    requires IsTable(t) && n <= |cfgs|
    ensures var r := SettledWith(i, t, cfgs, removals, turns, n);
            && IsTable(r)
            && r.Keys <= t.Keys + Keys(cfgs)
            && (forall k :: k in t && k !in Keys(cfgs) ==>
                  (k in r <==> removals(k).command.Failed?)
                  && (k in r ==> r[k].endpoint == t[k].endpoint && r[k].ips <= t[k].ips)
                  && (k in r && (forall m: nat :: m < n ==> turns(m).add.listOk) ==> r[k] == t[k]))
            && (forall k :: k in r ==> MayHold(t, cfgs, n, k, r[k]))
  {
    hide SettleWith;
    hide IsTable;
    if n == 0 {
      PruningIsSound(t, cfgs, removals);
    } else {
      SyncWhateverFails(i, t, cfgs, removals, turns, n - 1);
      var before, cfg := SettledWith(i, t, cfgs, removals, turns, n - 1), cfgs[n - 1];
      TurnSpares(i, t, before, cfg, turns(n - 1));
      var r := SettledWith(i, t, cfgs, removals, turns, n);
      assert cfg.key in Keys(cfgs);
      forall k | k in r ensures MayHold(t, cfgs, n, k, r[k]) {
        HoldingShrinks(t, cfgs, n - 1, before, r, k);
      }
    }
  }

  lemma PruningIsSound(t: Table, cfgs: seq<PeerConfig>, removals: string -> RemoveFaults)
    requires IsTable(t)
    ensures IsTable(PrunedWith(t, cfgs, removals))
  {
    hide IsValidKey;
  }

  lemma HoldingShrinks(t: Table, cfgs: seq<PeerConfig>, n: nat, before: Table, after: Table, k: string)
    requires n < |cfgs| && k in after
    requires k in before ==> MayHold(t, cfgs, n, k, before[k])
    requires k != cfgs[n].key ==> k in before && after[k].ips <= before[k].ips
    requires k == cfgs[n].key ==> Explained(before, after, cfgs[n])
    ensures MayHold(t, cfgs, n + 1, k, after[k])
  {
    hide Ips;
    if k in before && after[k].ips <= before[k].ips {
      if !(k in t && before[k].ips <= t[k].ips) {
        var j :| 0 <= j < n && cfgs[j].key == k && before[k].ips <= Ips(cfgs[j]);
        assert 0 <= j < n + 1 && cfgs[j].key == k && after[k].ips <= Ips(cfgs[j]);
      }
    } else {
      assert cfgs[n].key == k && after[k].ips <= Ips(cfgs[n]);
    }
  }
}
