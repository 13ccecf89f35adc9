/** internal/rotator/peer/connection_tracker.go, fed by the connection workers of
    internal/rotator/services/peer_connection_async.go. Progress is a real in 0..1. */
module Tracker {
  import opened Text

  datatype Details = Details(
    nodeId: string, publicKey: string, allocatedIp: string, serverPublicKey: string, serverIp: string, serverPort: int,
    clientPrivateKey: Option<string>)

  const NO_DETAILS := Details("", "", "", "", "", 0, None)

  datatype Event =
    | Requested
    | Progress(peerId: string, phase: string, progress: real, message: string)
    | Connected(peerId: string, details: Details)
    | Failed(phase: string, error: string)

  /** `metadata` is the payload of the last event. */
  datatype State = State(
    peerId: string, phase: string, progress: real, isActive: bool, error: string, message: string, details: Details,
    metadata: Option<Event>)

  const BLANK := State("", "", 0.0, false, "", "", NO_DETAILS, None)

  /** The record of one request after one more event. */
  function Handle(s: Option<State>, e: Event): State {
    var known := if s.Some? then s.value else BLANK;
    match e
    case Requested => State("", "requested", 0.0, true, "", "", NO_DETAILS, Some(e))
    case Progress(peerId, phase, progress, message) =>
      known.(peerId := if peerId != "" then peerId else known.peerId, phase := phase, progress := progress,
             message := message, isActive := true, metadata := Some(e))
    case Connected(peerId, details) =>
      known.(peerId := peerId, phase := "completed", progress := 1.0, isActive := false, details := details,
             metadata := Some(e))
    case Failed(phase, error) =>
      known.(phase := phase, isActive := false, error := error, metadata := Some(e))
  }

  function HandleAll(events: seq<Event>): Option<State>
    decreases |events|
  {
    if events == [] then None
    else Some(Handle(HandleAll(events[..|events| - 1]), events[|events| - 1]))
  }

  // ---- the tracker ----

  type States = map<string, State>

  datatype Delivery = Delivery(id: string, event: Event)

  function Lookup(states: States, id: string): Option<State> {
    if id in states then Some(states[id]) else None
  }

  function Track(states: States, d: Delivery): States {
    states[d.id := Handle(Lookup(states, d.id), d.event)]
  }

  function TrackAll(log: seq<Delivery>): States
    decreases |log|
  {
    if log == [] then map[] else Track(TrackAll(log[..|log| - 1]), log[|log| - 1])
  }

  class ConnectionTracker {
    var states: States

    constructor ()
      ensures states == TrackAll([])
    {
      states := map[];
    }

    method HandleConnectRequested(id: string)
      modifies this
      ensures states == Track(old(states), Delivery(id, Requested))
    {
      states := states[id := State("", "requested", 0.0, true, "", "", NO_DETAILS, Some(Requested))];
    }

    method HandleConnectProgress(id: string, peerId: string, phase: string, progress: real, message: string)
      modifies this
      ensures states == Track(old(states), Delivery(id, Progress(peerId, phase, progress, message)))
    {
      var state := GetOrCreate(id);
      if peerId != "" {
        state := state.(peerId := peerId);
      }
      state := state.(phase := phase, progress := progress, message := message);
      state := state.(metadata := Some(Progress(peerId, phase, progress, message)), isActive := true);
      states := states[id := state];
    }

    method HandleConnected(id: string, peerId: string, details: Details)
      modifies this
      ensures states == Track(old(states), Delivery(id, Connected(peerId, details)))
    {
      var state := GetOrCreate(id);
      state := state.(phase := "completed", progress := 1.0, isActive := false);
      state := state.(peerId := peerId, details := details, metadata := Some(Connected(peerId, details)));
      states := states[id := state];
    }

    method HandleConnectFailed(id: string, phase: string, error: string)
      modifies this
      ensures states == Track(old(states), Delivery(id, Failed(phase, error)))
    {
      var state := GetOrCreate(id);
      state := state.(phase := phase, isActive := false, error := error, metadata := Some(Failed(phase, error)));
      states := states[id := state];
    }

    method GetOrCreate(id: string) returns (state: State)
      ensures state == if id in states then states[id] else BLANK
    {
      state := if id in states then states[id] else BLANK;
    }

    /** `GetActiveConnections`: copies of the pending records. */
    method GetActiveConnections() returns (active: States)
      ensures active == map id | id in states && IsPending(states[id]) :: states[id]
    {
      active := map[];
      var rest := states.Keys;
      while rest != {}
        invariant rest <= states.Keys
        invariant active == map id | id in states && id !in rest && IsPending(states[id]) :: states[id]
        decreases rest
      {
        var id :| id in rest;
        if states[id].isActive && states[id].phase != "completed" && states[id].error == "" {
          active := active[id := states[id]];
        }
        rest := rest - {id};
      }
    }
  }

  predicate IsPending(s: State) {
    s.isActive && s.phase != "completed" && s.error == ""
  }

  // ---- one request among others ----

  function Projection(log: seq<Delivery>, id: string): seq<Event>
    decreases |log|
  {
    if log == [] then []
    else
      var rest, d := Projection(log[..|log| - 1], id), log[|log| - 1];
      if d.id == id then rest + [d.event] else rest
  }

  /** Requests do not disturb each other: whatever the interleaving, a request's record is
      what its own events make of it. */
  lemma {:induction false} RecordsAreIndependent(log: seq<Delivery>, id: string)
    ensures Lookup(TrackAll(log), id) == HandleAll(Projection(log, id))
    decreases |log|
  {
    if log != [] {
      var front, d := log[..|log| - 1], log[|log| - 1];
      RecordsAreIndependent(front, id);
      if d.id == id {
        assert Projection(log, id)[..|Projection(log, id)| - 1] == Projection(front, id);
      }
    }
  }

  // ---- what a record shows ----

  predicate SetsProgress(e: Event) {
    e.Requested? || e.Progress? || e.Connected?
  }

  predicate SetsMessage(e: Event) {
    e.Requested? || e.Progress?
  }

  predicate SetsPeer(e: Event) {
    e.Requested? || e.Connected? || (e.Progress? && e.peerId != "")
  }

  predicate SetsError(e: Event) {
    e.Requested? || e.Failed?
  }

  predicate SetsDetails(e: Event) {
    e.Requested? || e.Connected?
  }

  /** Nothing after event j satisfies `sets`. */
  predicate LastOf(events: seq<Event>, j: nat, sets: Event -> bool) {
    j < |events| && sets(events[j]) && forall k :: j < k < |events| ==> !sets(events[k])
  }

  /** What an event writes into the record. */
  predicate Wrote(s: State, events: seq<Event>, j: nat)
    requires j < |events|
  {
    var e := events[j];
    && (j == |events| - 1 ==>
          && s.phase == (match e case Requested => "requested" case Progress(_, phase, _, _) => phase
                                 case Connected(_, _) => "completed" case Failed(phase, _) => phase)
          && (s.isActive <==> e.Requested? || e.Progress?)
          && s.metadata == Some(e))
    && (LastOf(events, j, SetsProgress) ==>
          s.progress == if e.Progress? then e.progress else if e.Connected? then 1.0 else 0.0)
    && (LastOf(events, j, SetsMessage) ==> s.message == if e.Progress? then e.message else "")
    && (LastOf(events, j, SetsPeer) ==> s.peerId == if e.Progress? || e.Connected? then e.peerId else "")
    && (LastOf(events, j, SetsError) ==> s.error == if e.Failed? then e.error else "")
    && (LastOf(events, j, SetsDetails) ==> s.details == if e.Connected? then e.details else NO_DETAILS)
  }

  lemma LastBefore(events: seq<Event>, j: nat, sets: Event -> bool)
    requires j < |events| - 1 && LastOf(events, j, sets)
    ensures LastOf(events[..|events| - 1], j, sets) && !sets(events[|events| - 1])
  {
  }

  lemma {:induction false} LastSetterShows(events: seq<Event>, j: nat)
    requires j < |events|
    ensures Wrote(HandleAll(events).value, events, j)
    decreases |events|
  {
    var n := |events| - 1;
    if j < n {
      hide LastOf;
      LastSetterShows(events[..n], j);
      if LastOf(events, j, SetsProgress) {
        LastBefore(events, j, SetsProgress);
      }
      if LastOf(events, j, SetsMessage) {
        LastBefore(events, j, SetsMessage);
      }
      if LastOf(events, j, SetsPeer) {
        LastBefore(events, j, SetsPeer);
      }
      if LastOf(events, j, SetsError) {
        LastBefore(events, j, SetsError);
      }
      if LastOf(events, j, SetsDetails) {
        LastBefore(events, j, SetsDetails);
      }
    }
  }

  /** In any interleaving every field of a request's record shows what the last of the request's
      own events that says something about it has said: phase, state and payload the last event,
      progress the last report or conclusion, message the last report, peer identifier the last
      event that names one, error the last failure, details the last success; a request event
      clears them all. */
  lemma RecordShowsLastEvents(log: seq<Delivery>, id: string, j: nat)
    requires j < |Projection(log, id)|
    ensures id in TrackAll(log) && Wrote(TrackAll(log)[id], Projection(log, id), j)
  {
    hide Wrote;
    RecordsAreIndependent(log, id);
    LastSetterShows(Projection(log, id), j);
  }

  lemma {:induction false} ProjectionGrows(log: seq<Delivery>, k: nat, id: string)
    requires k <= |log|
    ensures Projection(log[..k], id) <= Projection(log, id)
    decreases |log|
  {
    if k == |log| {
      assert log[..k] == log;
    } else {
      assert log[..|log| - 1][..k] == log[..k];
      ProjectionGrows(log[..|log| - 1], k, id);
    }
  }

  // ---- what a worker publishes ----

  datatype Phase = Phase(name: string, progress: real, message: string)

  const PHASES := [
    Phase("initializing", 0.0, "Starting connection"), Phase("selecting_node", 0.1, "Selecting optimal node"),
    Phase("validating_capacity", 0.2, "Validating node capacity"), Phase("allocating_ip", 0.4, "Allocating IP address"),
    Phase("creating_peer", 0.6, "Creating peer record"), Phase("configuring_peer", 0.8, "Configuring peer on node"),
    Phase("completed", 1.0, "Connection complete")]

  /** The phase named in the failure, by the stage that failed. */
  const FAILURES := ["node_selection", "capacity_validation", "ip_allocation", "peer_creation", "peer_config"]

  /** `failedStage` is `None` for a success. Publishing may fail and is not retried: `reported`
      are the progress reports that get through, `concluded` says whether the final event does. */
  datatype Worker = Worker(
    failedStage: Option<nat>, cause: string, peerId: string, details: Details, reported: set<nat>, concluded: bool)

  predicate IsWorker(w: Worker) {
    w.failedStage.Some? ==> w.failedStage.value < |FAILURES|
  }

  /** An error's text starts with its domain and code in brackets, so it is never empty. */
  function ErrorText(cause: string): string {
    "[" + cause
  }

  /** Number of progress reports the worker makes. */
  function Reports(w: Worker): nat {
    if w.failedStage.Some? then w.failedStage.value + 2 else |PHASES|
  }

  function Report(w: Worker, k: nat): Event
    requires k < |PHASES|
  {
    Progress(if k >= 5 then w.peerId else "", PHASES[k].name, PHASES[k].progress, PHASES[k].message)
  }

  /** The reports that get through, from number k on. */
  function ReportsFrom(w: Worker, k: nat): seq<Event>
    requires IsWorker(w) && k <= Reports(w)
    decreases Reports(w) - k
  {
    if k == Reports(w) then []
    else (if k in w.reported then [Report(w, k)] else []) + ReportsFrom(w, k + 1)
  }

  function Conclusion(w: Worker): Event
    requires IsWorker(w)
  {
    if w.failedStage.Some? then Failed(FAILURES[w.failedStage.value], ErrorText(w.cause))
    else Connected(w.peerId, w.details)
  }

  /** All events of one request, in order. The worker starts only after the request event has
      been delivered. */
  function Published(w: Worker): seq<Event>
    requires IsWorker(w)
  {
    [Requested] + ReportsFrom(w, 0) + (if w.concluded then [Conclusion(w)] else [])
  }

  predicate IsFinal(e: Event) {
    e.Connected? || e.Failed?
  }

  /** A request, then reports that never go back, then at most one final event. */
  predicate Orderly(events: seq<Event>) {
    && (forall k :: 0 <= k < |events| ==> (events[k].Requested? <==> k == 0))
    && (forall k :: 0 <= k < |events| - 1 ==> !IsFinal(events[k]))
    && (forall k :: 0 <= k < |events| && events[k].Progress? ==> 0.0 <= events[k].progress <= 1.0)
    && (forall j, k :: 0 <= j < k < |events| && events[j].Progress? && events[k].Progress?
                       ==> events[j].progress <= events[k].progress)
    && (forall k :: 0 <= k < |events| && events[k].Failed? ==> events[k].error != "")
  }

  /** Reports only, going forward from `lo` to at most 1. */
  predicate Rising(events: seq<Event>, lo: real) {
    && (forall k :: 0 <= k < |events| ==> events[k].Progress? && lo <= events[k].progress <= 1.0)
    && (forall j, k :: 0 <= j < k < |events| ==> events[j].progress <= events[k].progress)
  }

  lemma RisingPrepend(e: Event, events: seq<Event>, lo: real, hi: real)
    requires e.Progress? && lo <= e.progress <= hi && e.progress <= 1.0 && Rising(events, hi)
    ensures Rising([e] + events, lo)
  {
  }

  /** The level of report number k; past the last report, the end of the scale. */
  function Level(k: nat): real {
    if k < |PHASES| then PHASES[k].progress else 1.0
  }

  lemma {:induction false} ReportsRise(w: Worker, k: nat)
    requires IsWorker(w) && k <= Reports(w)
    ensures Rising(ReportsFrom(w, k), Level(k))
    decreases Reports(w) - k
  {
    if k < Reports(w) {
      ReportsRise(w, k + 1);
      LevelsRise(k);
      var rest := ReportsFrom(w, k + 1);
      if k in w.reported {
        RisingPrepend(Report(w, k), rest, Level(k), Level(k + 1));
        assert ReportsFrom(w, k) == [Report(w, k)] + rest;
      } else {
        assert ReportsFrom(w, k) == rest;
      }
    }
  }

  lemma LevelsRise(k: nat)
    requires k < |PHASES|
    ensures 0.0 <= Level(k) <= Level(k + 1) <= 1.0
  {
  }

  lemma PublishedIsOrderly(w: Worker)
    requires IsWorker(w)
    ensures Orderly(Published(w))
  {
    ReportsRise(w, 0);
    LevelsRise(0);
    var reports := ReportsFrom(w, 0);
    var events := Published(w);
    hide ReportsFrom;
    hide Level;
    assert |events| == 1 + |reports| + (if w.concluded then 1 else 0);
    forall k | 1 <= k <= |reports| ensures events[k] == reports[k - 1] {
    }
  }

  lemma {:induction false} ReportedFrom(w: Worker, k: nat, m: nat)
    requires IsWorker(w) && k <= m < Reports(w) && m in w.reported
    ensures Report(w, m) in ReportsFrom(w, k)
    decreases Reports(w) - k
  {
    hide Report;
    if k < m {
      ReportedFrom(w, k + 1, m);
    }
  }

  lemma {:induction false} AllReportsFrom(w: Worker, k: nat)
    requires IsWorker(w) && k <= Reports(w) && forall m :: k <= m < Reports(w) ==> m in w.reported
    ensures |ReportsFrom(w, k)| == Reports(w) - k
    ensures forall m :: k <= m < Reports(w) ==> ReportsFrom(w, k)[m - k] == Report(w, m)
    decreases Reports(w) - k
  {
    hide Report;
    if k < Reports(w) {
      AllReportsFrom(w, k + 1);
      assert ReportsFrom(w, k) == [Report(w, k)] + ReportsFrom(w, k + 1);
    }
  }

  /** A worker reports every phase up to the one it fails in, and one that does not fail all seven;
      every report that gets through is published, and when all events do, they are exactly the
      request, the reports in order and the conclusion. */
  lemma PublishesAllPhases(w: Worker)
    requires IsWorker(w)
    ensures Reports(w) == if w.failedStage.None? then 7 else w.failedStage.value + 2
    ensures forall m :: 0 <= m < Reports(w) && m in w.reported ==> Report(w, m) in Published(w)
    ensures w.concluded && (forall m :: 0 <= m < Reports(w) ==> m in w.reported) ==>
              && |Published(w)| == Reports(w) + 2
              && Published(w)[0] == Requested && Published(w)[Reports(w) + 1] == Conclusion(w)
              && forall m :: 0 <= m < Reports(w) ==> Published(w)[m + 1] == Report(w, m)
  {
    forall m | 0 <= m < Reports(w) && m in w.reported ensures Report(w, m) in ReportsFrom(w, 0) {
      ReportedFrom(w, 0, m);
    }
    if forall m :: 0 <= m < Reports(w) ==> m in w.reported {
      AllReportsFrom(w, 0);
    }
    hide ReportsFrom;
    hide Report;
  }

  // ---- what the tracker shows ----

  /** The record after the first n events of an orderly request. */
  lemma {:induction false} Shown(events: seq<Event>, n: nat)
    requires Orderly(events) && 1 <= n <= |events|
    ensures var s := HandleAll(events[..n]).value;
            && 0.0 <= s.progress <= 1.0
            && (forall k :: n <= k < |events| && events[k].Progress? ==> s.progress <= events[k].progress)
            && (s.isActive <==> !IsFinal(events[n - 1]))
            && (events[n - 1].Failed? ==> s.error == events[n - 1].error)
            && (!events[n - 1].Failed? ==> s.error == "")
            && (events[n - 1].Connected? ==>
                  s.phase == "completed" && s.progress == 1.0 && s.peerId == events[n - 1].peerId
                  && s.details == events[n - 1].details)
    decreases n
  {
    assert events[..n][..n - 1] == events[..n - 1];
    if n > 1 {
      Shown(events, n - 1);
    } else {
      assert HandleAll(events[..0]) == None;
    }
  }

  lemma ProgressGoesForward(events: seq<Event>, n: nat)
    requires Orderly(events) && 1 <= n < |events|
    ensures HandleAll(events[..n]).value.progress <= HandleAll(events[..n + 1]).value.progress
  {
    Shown(events, n);
    assert events[..n + 1][..n] == events[..n];
  }

  lemma {:induction false} NeverBack(events: seq<Event>, m: nat, n: nat)
    requires Orderly(events) && 1 <= m <= n <= |events|
    ensures HandleAll(events[..m]).value.progress <= HandleAll(events[..n]).value.progress
    decreases n
  {
    if m < n {
      NeverBack(events, m, n - 1);
      ProgressGoesForward(events, n - 1);
    }
  }

  /** The log delivers, for every request, its worker's events in order; requests interleave
      in any way, and any of them may still be under way. */
  ghost predicate Delivers(log: seq<Delivery>, workers: map<string, Worker>) {
    && (forall id :: id in workers ==> IsWorker(workers[id]) && Projection(log, id) <= Published(workers[id]))
    && (forall k :: 0 <= k < |log| ==> log[k].id in workers)
  }

  lemma PrefixState(log: seq<Delivery>, workers: map<string, Worker>, id: string, k: nat) returns (n: nat)
    requires Delivers(log, workers) && id in workers && k <= |log|
    ensures n <= |Published(workers[id])| && Projection(log[..k], id) == Published(workers[id])[..n]
    ensures n == |Projection(log[..k], id)|
    ensures Lookup(TrackAll(log[..k]), id) == HandleAll(Published(workers[id])[..n])
  {
    RecordsAreIndependent(log[..k], id);
    ProjectionGrows(log, k, id);
    n := |Projection(log[..k], id)|;
  }

  /** For any interleaving: a request's progress never decreases and stays in 0..1, and its
      record is final, unchanged by anything that follows, once it is inactive. */
  lemma ProgressIsMonotone(log: seq<Delivery>, workers: map<string, Worker>, id: string, j: nat, k: nat)
    requires Delivers(log, workers) && id in workers && j <= k <= |log|
    requires id in TrackAll(log[..j])
    ensures id in TrackAll(log[..k])
    ensures 0.0 <= TrackAll(log[..j])[id].progress <= TrackAll(log[..k])[id].progress <= 1.0
    ensures !TrackAll(log[..j])[id].isActive ==> TrackAll(log[..k])[id] == TrackAll(log[..j])[id]
  {
    hide Track;
    hide Handle;
    hide Orderly;
    hide Published;
    var events := Published(workers[id]);
    PublishedIsOrderly(workers[id]);
    var m := PrefixState(log, workers, id, j);
    var n := PrefixState(log, workers, id, k);
    assert log[..k][..j] == log[..j];
    ProjectionGrows(log[..k], j, id);
    assert m >= 1;
    NeverBack(events, m, n);
    Shown(events, m);
    Shown(events, n);
    if !TrackAll(log[..j])[id].isActive {
      FinalIsLast(events, m);
    }
  }

  /** Every report published is one of the worker's own that got through. */
  lemma {:induction false} ReportsAreOwn(w: Worker, k: nat, e: Event)
    requires IsWorker(w) && k <= Reports(w) && e in ReportsFrom(w, k)
    ensures exists m :: m in w.reported && m < |PHASES| && e == Report(w, m)
    decreases Reports(w) - k
  {
    if k in w.reported && e == Report(w, k) {
    } else {
      ReportsAreOwn(w, k + 1, e);
    }
  }

  lemma PublishedReport(w: Worker, e: Event)
    requires IsWorker(w) && e in Published(w) && e.Progress?
    ensures exists m :: m in w.reported && m < |PHASES| && e == Report(w, m)
  {
    ReportsAreOwn(w, 0, e);
  }

  /** A report from before the peer exists comes after none that names the peer. */
  lemma NoPeerYet(w: Worker, n: nat, m: nat)
    requires IsWorker(w) && n < |Published(w)| && m < 5 && Published(w)[n] == Report(w, m)
    ensures forall k :: 0 <= k < n ==> SetsPeer(Published(w)[k]) ==> Published(w)[k].Requested?
  {
    var events := Published(w);
    PublishedIsOrderly(w);
    hide Published;
    forall k | 0 <= k < n && events[k].Progress? ensures events[k].peerId == "" {
      PublishedReport(w, events[k]);
      var i :| i in w.reported && i < |PHASES| && events[k] == Report(w, i);
      assert events[k].progress <= events[n].progress;
    }
  }

  lemma WroteLast(s: State, own: seq<Event>)
    requires own != [] && Wrote(s, own, |own| - 1) && s.isActive
    ensures var e := own[|own| - 1];
            && (e.Requested? || e.Progress?)
            && (e.Requested? ==> s.phase == "requested" && s.progress == 0.0 && s.message == "" && s.peerId == "")
            && (e.Progress? ==> s.phase == e.phase && s.progress == e.progress && s.message == e.message
                                && (e.peerId != "" ==> s.peerId == e.peerId))
  {
  }

  lemma WroteFirst(s: State, own: seq<Event>)
    requires own != [] && Wrote(s, own, 0) && own[0].Requested?
    requires forall k :: 0 < k < |own| ==> !SetsPeer(own[k])
    ensures s.peerId == ""
  {
  }

  lemma OwnStarts(w: Worker, own: seq<Event>, n: nat)
    requires IsWorker(w) && 0 < n <= |Published(w)| && own == Published(w)[..n]
    ensures own[0].Requested? && forall k :: 0 < k < n ==> !own[k].Requested?
  {
    PublishedIsOrderly(w);
    hide Published;
  }

  /** Before the peer exists the record names none. */
  lemma NoPeerShown(w: Worker, s: State, own: seq<Event>, n: nat, m: nat)
    requires IsWorker(w) && 0 < n <= |Published(w)| && own == Published(w)[..n]
    requires m < 5 && own[n - 1] == Report(w, m) && Wrote(s, own, 0)
    ensures s.peerId == ""
  {
    hide Published;
    hide Wrote;
    OwnStarts(w, own, n);
    assert Published(w)[n - 1] == own[n - 1];
    NoPeerYet(w, n - 1, m);
    forall k | 0 < k < n ensures !SetsPeer(own[k]) {
      assert own[k] == Published(w)[k];
    }
    WroteFirst(s, own);
  }

  /** In any interleaving: an active record shows the last report of its worker that has been
      delivered, with the peer as soon as it exists, or that there was none yet. */
  lemma ActiveShowsLastReport(log: seq<Delivery>, workers: map<string, Worker>, id: string, k: nat)
    requires Delivers(log, workers) && id in workers && k <= |log|
    requires id in TrackAll(log[..k]) && TrackAll(log[..k])[id].isActive
    ensures var s, w, own := TrackAll(log[..k])[id], workers[id], Projection(log[..k], id);
            || (own == [Requested] && s.phase == "requested" && s.progress == 0.0 && s.message == "" && s.peerId == "")
            || exists m :: m in w.reported && m < |PHASES| && own != [] && own[|own| - 1] == Report(w, m)
                 && s.phase == PHASES[m].name && s.progress == PHASES[m].progress && s.message == PHASES[m].message
                 && (if m >= 5 then w.peerId != "" ==> s.peerId == w.peerId else s.peerId == "")
  {
    hide Published;
    hide Track;
    hide Handle;
    hide Wrote;
    var w, own, s := workers[id], Projection(log[..k], id), TrackAll(log[..k])[id];
    assert IsWorker(w);
    hide Delivers;
    var n := PrefixState(log, workers, id, k);
    hide Projection;
    hide TrackAll;
    RecordShowsLastEvents(log[..k], id, 0);
    RecordShowsLastEvents(log[..k], id, n - 1);
    WroteLast(s, own);
    OwnStarts(w, own, n);
    var e := own[n - 1];
    if e.Requested? {
      assert own == [Requested];
    } else {
      assert Published(w)[n - 1] == e;
      PublishedReport(w, e);
      var m :| m in w.reported && m < |PHASES| && e == Report(w, m);
      if m < 5 {
        NoPeerShown(w, s, own, n, m);
      }
    }
  }

  /** A request is listed as active exactly between its first event and the report, or else the
      event, that ends it: the report of the last phase takes it off the list, although its
      record stays active until the final event. */
  lemma ListedExactlyWhen(log: seq<Delivery>, workers: map<string, Worker>, id: string, k: nat)
    requires Delivers(log, workers) && id in workers && k <= |log| && Projection(log[..k], id) != []
    ensures id in TrackAll(log[..k])
    ensures var last := Projection(log[..k], id)[|Projection(log[..k], id)| - 1];
            IsPending(TrackAll(log[..k])[id]) <==> !IsFinal(last) && last != Report(workers[id], 6)
  {
    hide Published;
    hide Track;
    hide Handle;
    var w, own := workers[id], Projection(log[..k], id);
    var n := PrefixState(log, workers, id, k);
    PublishedIsOrderly(w);
    Shown(Published(w), n);
    RecordShowsLastEvents(log[..k], id, n - 1);
    hide Orderly;
    assert own[n - 1] == Published(w)[n - 1];
    if TrackAll(log[..k])[id].isActive {
      ActiveShowsLastReport(log, workers, id, k);
      assert forall m :: 0 <= m < 7 ==> (PHASES[m].name == "completed" <==> m == 6) by {
        PhaseNames();
      }
    }
  }

  lemma PhaseNames()
    ensures forall m :: 0 <= m < 7 ==> (PHASES[m].name == "completed" <==> m == 6)
    ensures "requested" != "completed"
  {
    assert "selecting_node"[0] == 's' && "creating_peer"[1] == 'r' && "configuring_peer"[2] == 'n';
  }

  lemma FinalIsLast(events: seq<Event>, m: nat)
    requires Orderly(events) && 1 <= m <= |events| && IsFinal(events[m - 1])
    ensures m == |events|
  {
  }

  lemma LastPublished(w: Worker)
    requires IsWorker(w)
    ensures Published(w) != []
    ensures w.concluded ==> Published(w)[|Published(w)| - 1] == Conclusion(w)
    ensures !w.concluded ==> !IsFinal(Published(w)[|Published(w)| - 1])
  {
    ReportsRise(w, 0);
  }

  /** When all events of a request have been delivered, it is inactive exactly when its final
      event got through, and then it is completed with the published details and no error, or
      has a non-empty error. */
  lemma RequestsConclude(log: seq<Delivery>, workers: map<string, Worker>, id: string)
    requires Delivers(log, workers) && id in workers && Projection(log, id) == Published(workers[id])
    ensures id in TrackAll(log)
    ensures var s, w := TrackAll(log)[id], workers[id];
            && (!s.isActive <==> w.concluded)
            && (w.concluded && w.failedStage.None? ==>
                  s.phase == "completed" && s.progress == 1.0 && s.details == w.details && s.peerId == w.peerId && s.error == "")
            && (w.concluded && w.failedStage.Some? ==>
                  s.error == ErrorText(w.cause) != "" && s.phase == FAILURES[w.failedStage.value])
  {
    var w := workers[id];
    hide Orderly;
    hide Published;
    hide Track;
    var events := Published(w);
    RecordsAreIndependent(log, id);
    PublishedIsOrderly(w);
    Shown(events, |events|);
    assert events[..|events|] == events;
    LastPublished(w);
  }

  /** The order matters: a request event handled after a report throws the progress away. */
  lemma LateRequestLosesProgress(report: Event)
    requires report.Progress? && report.progress > 0.0
    ensures HandleAll([report, Requested]).value.progress < HandleAll([report]).value.progress
  {
    assert [report, Requested][..1] == [report];
  }
}
