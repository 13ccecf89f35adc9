/** internal/rotator/infrastructure/remote/circuit_breaker.go and the retry loop that runs
    commands through it. Times are clock readings in nanoseconds. */
module Breaker {
  import opened Bits

  datatype State = Closed | Open | HalfOpen

  datatype Config = Config(failureThreshold: int, resetTimeout: int)

  /** The part of `ValidateConfig` that concerns the breaker. */
  predicate IsValid(cfg: Config) {
    cfg.failureThreshold >= 1 && cfg.resetTimeout >= 1
  }

  datatype Breaker = Breaker(state: State, failureCount: nat, lastFailure: int, nextAttempt: int)

  const NEW := Breaker(Closed, 0, 0, 0)

  function CanExecute(b: Breaker, now: int): bool {
    match b.state
    case Closed => true
    case Open => now > b.nextAttempt
    case HalfOpen => true
  }

  function OnSuccess(b: Breaker): Breaker {
    match b.state
    case HalfOpen => b.(state := Closed, failureCount := 0)
    case Closed => b.(failureCount := 0)
    case Open => b
  }

  /** Two clock readings: `noted` for the last failure, `now` for everything else. */
  function OnFailure(cfg: Config, b: Breaker, noted: int, now: int): Breaker {
    var c := b.(failureCount := b.failureCount + 1, lastFailure := noted);
    match b.state
    case Closed =>
      if c.failureCount >= cfg.failureThreshold
      then c.(state := Open, nextAttempt := now + cfg.resetTimeout) else c
    case HalfOpen => c.(state := Open, nextAttempt := now + cfg.resetTimeout)
    case Open => if now > b.nextAttempt then c.(state := HalfOpen) else c
  }

  function Record(cfg: Config, b: Breaker, ok: bool, noted: int, now: int): Breaker {
    if ok then OnSuccess(b) else OnFailure(cfg, b, noted, now)
  }

  /** The breaker as it is kept: fields updated under a mutex, so each method is one step. */
  class CircuitBreaker {
    const config: Config
    /** The host it protects, so that breakers of different hosts are different objects. */
    ghost const host: string
    var state: State
    var failureCount: nat
    var lastFailure: int
    var nextAttempt: int

    function Value(): Breaker
      reads this
    {
      Breaker(state, failureCount, lastFailure, nextAttempt)
    }

    constructor (config: Config, ghost host: string)
      ensures this.config == config && this.host == host && Value() == NEW
    {
      this.config := config;
      this.host := host;
      state, failureCount, lastFailure, nextAttempt := Closed, 0, 0, 0;
    }

    method Admits(now: int) returns (admitted: bool)
      ensures admitted == CanExecute(Value(), now)
    {
      match state {
        case Closed => admitted := true;
        case Open => admitted := now > nextAttempt;
        case HalfOpen => admitted := true;
      }
    }

    method RecordResult(ok: bool, noted: int, now: int)
      modifies this
      ensures Value() == Record(config, old(Value()), ok, noted, now)
    {
      if ok {
        match state {
          case HalfOpen => state := Closed; failureCount := 0;
          case Closed => failureCount := 0;
          case Open =>
        }
      } else {
        failureCount := failureCount + 1;
        lastFailure := noted;
        match state {
          case Closed =>
            if failureCount >= config.failureThreshold {
              state := Open;
              nextAttempt := now + config.resetTimeout;
            }
          case HalfOpen =>
            state := Open;
            nextAttempt := now + config.resetTimeout;
          case Open =>
            if now > nextAttempt {
              state := HalfOpen;
            }
        }
      }
    }

    method Reset()
      modifies this
      ensures Value() == NEW
    {
      state := Closed;
      failureCount := 0;
      lastFailure := 0;
      nextAttempt := 0;
    }
  }

  // ---- any interleaving of operations ----

  /** `Begin` asks for admission; `End` reports an admitted operation still in flight. */
  datatype Event = Begin(now: int) | End(ok: bool, noted: int, now: int) | Reset(now: int)

  datatype Run = Run(breaker: Breaker, inFlight: nat)

  function Step(cfg: Config, r: Run, e: Event): Run {
    match e
    case Begin(now) => if CanExecute(r.breaker, now) then r.(inFlight := r.inFlight + 1) else r
    case End(ok, noted, now) =>
      if r.inFlight == 0 then r else Run(Record(cfg, r.breaker, ok, noted, now), r.inFlight - 1)
    case Reset(_) => r.(breaker := NEW)
  }

  function After(cfg: Config, r: Run, events: seq<Event>): Run
    decreases |events|
  {
    if events == [] then r else Step(cfg, After(cfg, r, events[..|events| - 1]), events[|events| - 1])
  }

  const IDLE := Run(NEW, 0)

  predicate CountMatchesState(cfg: Config, b: Breaker) {
    b.state == Closed <==> b.failureCount < cfg.failureThreshold
  }

  /** Whatever is in flight and in whatever order results arrive, the breaker is closed
      exactly when its failure count is below the threshold. */
  lemma {:induction false} ClosedIffBelowThreshold(cfg: Config, events: seq<Event>)
    requires IsValid(cfg)
    ensures CountMatchesState(cfg, After(cfg, IDLE, events).breaker)
    decreases |events|
  {
    if events != [] {
      ClosedIffBelowThreshold(cfg, events[..|events| - 1]);
    }
  }

  predicate NoReset(events: seq<Event>) {
    forall k :: 0 <= k < |events| ==> !events[k].Reset?
  }

  predicate UpTo(events: seq<Event>, t: int) {
    forall k :: 0 <= k < |events| ==> events[k].now <= t
  }

  lemma {:induction false} StaysOpen(cfg: Config, r: Run, events: seq<Event>)
    requires r.breaker.state == Open && NoReset(events) && UpTo(events, r.breaker.nextAttempt)
    ensures After(cfg, r, events).breaker.state == Open
    ensures After(cfg, r, events).breaker.nextAttempt == r.breaker.nextAttempt
    decreases |events|
  {
    if events != [] {
      StaysOpen(cfg, r, events[..|events| - 1]);
    }
  }

  /** After a move to Open at clock reading t, nothing is admitted up to and including
      t + resetTimeout, whatever results of earlier operations still arrive. */
  lemma QuietAfterOpening(cfg: Config, r: Run, opening: Event, later: seq<Event>)
    requires IsValid(cfg)
    requires r.breaker.state != Open && Step(cfg, r, opening).breaker.state == Open
    requires NoReset(later) && UpTo(later, opening.now + cfg.resetTimeout)
    ensures forall k :: 0 <= k < |later| && later[k].Begin? ==>
              !CanExecute(After(cfg, Step(cfg, r, opening), later[..k]).breaker, later[k].now)
  {
    var s := Step(cfg, r, opening);
    forall k | 0 <= k < |later| && later[k].Begin?
      ensures !CanExecute(After(cfg, s, later[..k]).breaker, later[k].now)
    {
      StaysOpen(cfg, s, later[..k]);
    }
  }

  // ---- opening and recovering ----

  /** The event reports a result that is still awaited. */
  predicate Reports(r: Run, e: Event) {
    e.End? && r.inFlight > 0
  }

  /** Failures reported since the last success or reset. */
  function FailuresInARow(cfg: Config, events: seq<Event>): nat
    decreases |events|
  {
    if events == [] then 0
    else
      var front, e := events[..|events| - 1], events[|events| - 1];
      if e.Reset? || (Reports(After(cfg, IDLE, front), e) && e.ok) then 0
      else FailuresInARow(cfg, front) + if Reports(After(cfg, IDLE, front), e) then 1 else 0
  }

  lemma AfterOneMore(cfg: Config, r: Run, events: seq<Event>, e: Event)
    ensures After(cfg, r, events + [e]) == Step(cfg, After(cfg, r, events), e)
  {
    assert (events + [e])[..|events|] == events;
  }

  /** A closed breaker counts exactly the failures since the last success or reset. */
  lemma {:induction false} ClosedCountsFailures(cfg: Config, events: seq<Event>)
    ensures var b := After(cfg, IDLE, events).breaker;
            b.state == Closed ==> b.failureCount == FailuresInARow(cfg, events)
    decreases |events|
  {
    if events != [] {
      ClosedCountsFailures(cfg, events[..|events| - 1]);
    }
  }

  /** It opens exactly at the threshold of failures with no success in between, and at nothing
      but a failure; then no command is admitted for the reset timeout. */
  lemma OpensExactlyWhen(cfg: Config, events: seq<Event>, e: Event)
    requires IsValid(cfg) && After(cfg, IDLE, events).breaker.state == Closed
    ensures var r, b := After(cfg, IDLE, events), After(cfg, IDLE, events + [e]).breaker;
            && (b.state != Closed <==>
                  Reports(r, e) && !e.ok && FailuresInARow(cfg, events) + 1 >= cfg.failureThreshold)
            && (b.state != Closed ==>
                  b.state == Open && b.lastFailure == e.noted
                  && forall t :: CanExecute(b, t) <==> t > e.now + cfg.resetTimeout)
  {
    ClosedCountsFailures(cfg, events);
    AfterOneMore(cfg, IDLE, events, e);
  }

  /** A reported success closes a breaker that is not open and clears its count; an open one it
      does not change, even after the timeout. */
  lemma SuccessClosesExactlyWhen(cfg: Config, events: seq<Event>, noted: int, now: int)
    requires IsValid(cfg) && After(cfg, IDLE, events).inFlight > 0
    ensures var b, c := After(cfg, IDLE, events).breaker, After(cfg, IDLE, events + [End(true, noted, now)]).breaker;
            && (c.state == Closed <==> b.state != Open) && (c.state == Closed ==> c.failureCount == 0)
            && (b.state == Open ==> c == b)
  {
    AfterOneMore(cfg, IDLE, events, End(true, noted, now));
  }

  /** So an open breaker never closes, without a reset, before a failure is reported after its
      timeout: a host that answers again must fail once more. */
  lemma {:induction false} RecoveryNeedsAFailure(cfg: Config, r: Run, events: seq<Event>)
    requires r.breaker.state == Open && NoReset(events)
    ensures After(cfg, r, events).breaker.state != Open ==>
              exists k :: 0 <= k < |events| && events[k].End? && !events[k].ok && events[k].now > r.breaker.nextAttempt
    ensures After(cfg, r, events).breaker.state == Open ==>
              After(cfg, r, events).breaker.nextAttempt == r.breaker.nextAttempt
              || exists k :: 0 <= k < |events| && events[k].End? && !events[k].ok && events[k].now > r.breaker.nextAttempt
    decreases |events|
  {
    if events != [] {
      var n := |events| - 1;
      RecoveryNeedsAFailure(cfg, r, events[..n]);
      if k :| 0 <= k < n && events[..n][k].End? && !events[..n][k].ok && events[..n][k].now > r.breaker.nextAttempt {
        assert events[k].End?;
      } else {
        assert After(cfg, r, events[..n]).breaker.nextAttempt == r.breaker.nextAttempt;
      }
    }
  }

  /** And this way it does close: once the timeout has passed, a command is admitted; it fails,
      the next one is admitted at once, and its success closes the breaker with nothing counted. */
  lemma RecoversAfterTimeout(cfg: Config, r: Run, fail: Event, succeed: Event)
    requires r.breaker.state == Open
    requires fail.End? && !fail.ok && fail.now > r.breaker.nextAttempt && succeed.End? && succeed.ok
    ensures CanExecute(r.breaker, fail.now)
    ensures var failed := Step(cfg, Step(cfg, r, Begin(fail.now)), fail);
            var s := Step(cfg, Step(cfg, failed, Begin(fail.now)), succeed);
            && CanExecute(failed.breaker, fail.now) && failed.breaker.state == HalfOpen
            && s.breaker.state == Closed && s.breaker.failureCount == 0 && s.inFlight == r.inFlight
  {
  }

  // ---- how many commands run when every command fails ----

  /** One pass through `Execute`: asked at `start`; if admitted, noted and finished at `end`. */
  datatype Attempt = Attempt(start: int, noted: int, end: int, ok: bool)

  function Try(cfg: Config, b: Breaker, a: Attempt): Breaker {
    if CanExecute(b, a.start) then Record(cfg, b, a.ok, a.noted, a.end) else b
  }

  function TryAll(cfg: Config, b: Breaker, attempts: seq<Attempt>): Breaker
    decreases |attempts|
  {
    if attempts == [] then b else TryAll(cfg, Try(cfg, b, attempts[0]), attempts[1..])
  }

  /** The number of admitted attempts that start in lo..hi. */
  function Commands(cfg: Config, b: Breaker, attempts: seq<Attempt>, lo: int, hi: int): nat
    decreases |attempts|
  {
    if attempts == [] then 0
    else
      var a := attempts[0];
      (if CanExecute(b, a.start) && lo <= a.start <= hi then 1 else 0)
      + Commands(cfg, Try(cfg, b, a), attempts[1..], lo, hi)
  }

  /** Calls that do not overlap, from time t on. */
  predicate Chronological(t: int, attempts: seq<Attempt>)
    decreases |attempts|
  {
    attempts == [] ||
    (t <= attempts[0].start <= attempts[0].noted <= attempts[0].end && Chronological(attempts[0].end, attempts[1..]))
  }

  predicate AllFail(attempts: seq<Attempt>) {
    forall k :: 0 <= k < |attempts| ==> !attempts[k].ok
  }

  /** Full reset periods between t and hi. */
  function Periods(cfg: Config, t: int, hi: int): int
    requires IsValid(cfg)
  {
    if hi < t then 0 else (hi - t) / cfg.resetTimeout
  }

  /** What may still run up to hi: the rest of the closed phase, then two per period. */
  function Credit(cfg: Config, b: Breaker, t: int, hi: int): int
    requires IsValid(cfg)
  {
    if hi < t then 0
    else match b.state
      case Closed => cfg.failureThreshold - b.failureCount + 2 * Periods(cfg, t, hi)
      case HalfOpen => 1 + 2 * Periods(cfg, t, hi)
      case Open =>
        if hi <= b.nextAttempt then 0
        else 2 + 2 * Periods(cfg, if t <= b.nextAttempt then b.nextAttempt else t, hi)
  }

  lemma DivMonotone(x: int, y: int, d: int)
    requires 0 <= x <= y && d > 0
    ensures 0 <= x / d <= y / d
  {
    if x / d > y / d {
      assert x / d >= y / d + 1;
      MulMonotone(y / d + 1, x / d, d);
    }
  }

  lemma DivStep(x: int, d: int)
    requires d > 0 && x >= d
    ensures (x - d) / d == x / d - 1
  {
    var q, r := x / d, x % d;
    assert x - d == (q - 1) * d + r;
    var q', r' := (x - d) / d, (x - d) % d;
    if q' > q - 1 {
      MulMonotone(q, q', d);
    } else if q' < q - 1 {
      MulMonotone(q' + 1, q - 1, d);
    }
  }

  lemma PeriodsShrink(cfg: Config, t: int, u: int, hi: int)
    requires IsValid(cfg) && t <= u
    ensures 0 <= Periods(cfg, u, hi) <= Periods(cfg, t, hi)
    ensures u + cfg.resetTimeout <= hi ==> Periods(cfg, u + cfg.resetTimeout, hi) == Periods(cfg, u, hi) - 1
  {
    if u <= hi {
      DivMonotone(hi - u, hi - t, cfg.resetTimeout);
      if u + cfg.resetTimeout <= hi {
        DivStep(hi - u, cfg.resetTimeout);
      }
    } else if t <= hi {
      DivMonotone(0, hi - t, cfg.resetTimeout);
    }
  }

  /** A failing attempt pays for itself. */
  lemma CreditPays(cfg: Config, b: Breaker, t: int, a: Attempt, hi: int)
    requires IsValid(cfg) && CountMatchesState(cfg, b) && !a.ok && t <= a.start <= a.noted <= a.end
    ensures CountMatchesState(cfg, Try(cfg, b, a))
    ensures 0 <= Credit(cfg, Try(cfg, b, a), a.end, hi)
    ensures (if CanExecute(b, a.start) && a.start <= hi then 1 else 0)
            + Credit(cfg, Try(cfg, b, a), a.end, hi) <= Credit(cfg, b, t, hi)
  {
    PeriodsShrink(cfg, t, a.end, hi);
    PeriodsShrink(cfg, a.end, a.end, hi);
    PeriodsShrink(cfg, t, t, hi);
    if b.state == Open {
      var m := if t <= b.nextAttempt then b.nextAttempt else t;
      PeriodsShrink(cfg, m, if a.end <= m then m else a.end, hi);
      PeriodsShrink(cfg, m, m, hi);
    }
  }

  lemma {:induction false} CommandsWithinCredit(cfg: Config, b: Breaker, t: int, attempts: seq<Attempt>, lo: int, hi: int)
    requires IsValid(cfg) && CountMatchesState(cfg, b)
    requires Chronological(t, attempts) && AllFail(attempts) && lo <= t
    ensures Commands(cfg, b, attempts, lo, hi) <= Credit(cfg, b, t, hi)
    decreases |attempts|
  {
    hide Credit;
    if attempts == [] {
      CreditPays(cfg, b, t, Attempt(t, t, t, false), hi);
      NoCreditBelowZero(cfg, b, t, hi);
    } else {
      CreditPays(cfg, b, t, attempts[0], hi);
      CommandsWithinCredit(cfg, Try(cfg, b, attempts[0]), attempts[0].end, attempts[1..], lo, hi);
    }
  }

  lemma NoCreditBelowZero(cfg: Config, b: Breaker, t: int, hi: int)
    requires IsValid(cfg) && CountMatchesState(cfg, b)
    ensures 0 <= Credit(cfg, b, t, hi)
  {
    PeriodsShrink(cfg, t, t, hi);
    if b.state == Open {
      PeriodsShrink(cfg, b.nextAttempt, b.nextAttempt, hi);
    }
  }

  function Max(a: int, b: int): int {
    if a >= b then a else b
  }

  /** In any state, the credit at the start of a span is at most max(threshold, 2) and two
      for each full reset period of the span. */
  lemma CreditOfAnyState(cfg: Config, b: Breaker, lo: int, t: int, hi: int)
    requires IsValid(cfg) && lo <= hi && lo <= t
    ensures Credit(cfg, b, t, hi) <= Max(cfg.failureThreshold, 2) + 2 * Periods(cfg, lo, hi)
  {
    PeriodsShrink(cfg, lo, t, hi);
    PeriodsShrink(cfg, lo, lo, hi);
    if b.state == Open && t <= b.nextAttempt {
      PeriodsShrink(cfg, lo, b.nextAttempt, hi);
    }
  }

  /** Every span of every run: at most max(threshold, 2) commands and two more for each full
      reset period in it. */
  lemma {:induction false} CommandsInAnySpan(cfg: Config, b: Breaker, t: int, attempts: seq<Attempt>, lo: int, hi: int)
    requires IsValid(cfg) && CountMatchesState(cfg, b)
    requires Chronological(t, attempts) && AllFail(attempts) && lo <= hi
    ensures Commands(cfg, b, attempts, lo, hi)
            <= Max(cfg.failureThreshold, 2) + 2 * ((hi - lo) / cfg.resetTimeout)
    decreases |attempts|
  {
    hide Credit;
    if lo <= t {
      CommandsWithinCredit(cfg, b, t, attempts, lo, hi);
      CreditOfAnyState(cfg, b, lo, t, hi);
    } else if attempts == [] {
      PeriodsShrink(cfg, lo, lo, hi);
    } else if attempts[0].start < lo {
      CreditPays(cfg, b, t, attempts[0], hi);
      CommandsInAnySpan(cfg, Try(cfg, b, attempts[0]), attempts[0].end, attempts[1..], lo, hi);
    } else {
      CommandsWithinCredit(cfg, b, lo, attempts, lo, hi);
      CreditOfAnyState(cfg, b, lo, lo, hi);
    }
  }

  /** A span that begins with the breaker closed: the rest of the threshold and two more for
      each full reset period. */
  lemma CommandsFromClosed(cfg: Config, b: Breaker, t: int, attempts: seq<Attempt>, hi: int)
    requires IsValid(cfg) && CountMatchesState(cfg, b) && b.state == Closed
    requires Chronological(t, attempts) && AllFail(attempts) && t <= hi
    ensures Commands(cfg, b, attempts, t, hi)
            <= cfg.failureThreshold - b.failureCount + 2 * ((hi - t) / cfg.resetTimeout)
  {
    CommandsWithinCredit(cfg, b, t, attempts, t, hi);
  }

  /** The bound with the threshold alone, for every run of a new breaker and every span. */
  ghost predicate ThresholdBounds(cfg: Config)
    requires IsValid(cfg)
  {
    forall t, attempts, lo, hi :: Chronological(t, attempts) && AllFail(attempts) && lo <= hi ==>
      Commands(cfg, NEW, attempts, lo, hi) <= cfg.failureThreshold + 2 * ((hi - lo) / cfg.resetTimeout)
  }

  /** It holds exactly for thresholds of two and more: an expired open breaker lets a command
      through twice, once still open and once half open. */
  lemma ThresholdBoundsExactlyWhen(cfg: Config)
    requires IsValid(cfg)
    ensures ThresholdBounds(cfg) <==> cfg.failureThreshold >= 2
  {
    if cfg.failureThreshold >= 2 {
      forall t, attempts, lo, hi | Chronological(t, attempts) && AllFail(attempts) && lo <= hi
        ensures Commands(cfg, NEW, attempts, lo, hi) <= cfg.failureThreshold + 2 * ((hi - lo) / cfg.resetTimeout)
      {
        CommandsInAnySpan(cfg, NEW, t, attempts, lo, hi);
      }
    } else {
      var attempts := ThresholdOneExceeded(cfg, 0);
      var late := cfg.resetTimeout + 1;
      assert (late - late) / cfg.resetTimeout == 0;
    }
  }

  /** The run that shows it, with commands of any duration d shorter than the timeout: one
      failure opens the breaker, and right after the timeout two commands start within d. */
  lemma ThresholdOneExceeded(cfg: Config, d: nat) returns (attempts: seq<Attempt>)
    requires IsValid(cfg) && cfg.failureThreshold == 1 && d < cfg.resetTimeout
    ensures Chronological(0, attempts) && AllFail(attempts)
    ensures forall k :: 0 <= k < |attempts| ==> attempts[k].end - attempts[k].start == d
    ensures var late := d + cfg.resetTimeout + 1;
            && d / cfg.resetTimeout == 0 && Commands(cfg, NEW, attempts, late, late + d) == 2
  {
    var late := d + cfg.resetTimeout + 1;
    var first := Attempt(0, d, d, false);
    var second, third := Attempt(late, late + d, late + d, false), Attempt(late + d, late + 2 * d, late + 2 * d, false);
    attempts := [first, second, third];
    assert attempts[1..] == [second, third] && [second, third][1..] == [third] && [third][1..] == [];
    assert Chronological(late + 2 * d, []);
    assert Chronological(late + d, [third]);
    assert Chronological(d, [second, third]);
    assert Chronological(0, attempts);
    var tripped := Try(cfg, NEW, first);
    assert tripped == Breaker(Open, 1, d, d + cfg.resetTimeout);
    var half := Try(cfg, tripped, second);
    assert half.state == HalfOpen;
    assert Commands(cfg, half, [third], late, late + d) == 1;
    assert Commands(cfg, tripped, [second, third], late, late + d) == 2;
  }
}
