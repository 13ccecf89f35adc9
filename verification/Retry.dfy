/** internal/rotator/infrastructure/remote/ssh_node_interactor.go: one breaker per host and
    the retry loop that runs every command through it. */
module Retry {
  import opened Breaker

  /** What the environment decides about one pass of the loop: when the breaker is asked and
      the command ends, whether the command would succeed, and whether the caller's context
      is cancelled during the pause after it. */
  datatype Pass = Pass(attempt: Attempt, cancelled: bool)

  predicate Succeeds(b: Breaker, a: Attempt) {
    CanExecute(b, a.start) && a.ok
  }

  /** The attempts one call makes: up to its first success or its cancellation. */
  function Made(cfg: Config, b: Breaker, passes: seq<Pass>): (made: seq<Attempt>)
    ensures |made| <= |passes|
    ensures forall k :: 0 <= k < |made| ==> made[k] == passes[k].attempt
    decreases |passes|
  {
    if passes == [] then []
    else
      var p := passes[0];
      if Succeeds(b, p.attempt) || p.cancelled then [p.attempt]
      else [p.attempt] + Made(cfg, Try(cfg, b, p.attempt), passes[1..])
  }

  /** Pass number k of a call starts no sooner than k - 1 pauses' worth of backoff after the
      pass before it ended. */
  predicate Paced(backoff: int, k: nat, t: int, passes: seq<Pass>)
    decreases |passes|
  {
    passes == [] ||
    (t <= passes[0].attempt.start <= passes[0].attempt.noted <= passes[0].attempt.end
     && Paced(backoff, k + 1, passes[0].attempt.end + k * backoff, passes[1..]))
  }

  // ---- attempts of successive calls ----

  lemma {:induction false} TryAllAppend(cfg: Config, b: Breaker, xs: seq<Attempt>, ys: seq<Attempt>)
    ensures TryAll(cfg, b, xs + ys) == TryAll(cfg, TryAll(cfg, b, xs), ys)
    decreases |xs|
  {
    if xs == [] {
      assert xs + ys == ys;
    } else {
      assert (xs + ys)[1..] == xs[1..] + ys;
      TryAllAppend(cfg, Try(cfg, b, xs[0]), xs[1..], ys);
    }
  }

  /** When the last attempt of a history ended. */
  function EndOf(t: int, attempts: seq<Attempt>): int {
    if attempts == [] then t else attempts[|attempts| - 1].end
  }

  lemma {:induction false} ChronologicalAppend(t: int, xs: seq<Attempt>, ys: seq<Attempt>)
    requires Chronological(t, xs) && Chronological(EndOf(t, xs), ys)
    ensures Chronological(t, xs + ys)
    decreases |xs|
  {
    if xs == [] {
      assert xs + ys == ys;
    } else {
      assert (xs + ys)[1..] == xs[1..] + ys;
      ChronologicalAppend(xs[0].end, xs[1..], ys);
    }
  }

  lemma {:induction false} PacedIsChronological(cfg: Config, b: Breaker, backoff: int, k: nat, t: int, u: int, passes: seq<Pass>)
    requires backoff >= 0 && u <= t && Paced(backoff, k, t, passes)
    ensures Chronological(u, Made(cfg, b, passes))
    decreases |passes|
  {
    if passes != [] {
      var p := passes[0];
      if !Succeeds(b, p.attempt) && !p.cancelled {
        var rest := Made(cfg, Try(cfg, b, p.attempt), passes[1..]);
        assert Made(cfg, b, passes)[1..] == rest;
        assert k * backoff >= 0;
        PacedIsChronological(cfg, Try(cfg, b, p.attempt), backoff, k + 1, p.attempt.end + k * backoff,
                             p.attempt.end, passes[1..]);
      } else {
        assert Made(cfg, b, passes)[1..] == [];
      }
    }
  }

  lemma TryNone(cfg: Config, b: Breaker)
    ensures TryAll(cfg, b, []) == b
  {
  }

  lemma TryOne(cfg: Config, b: Breaker, a: Attempt)
    ensures TryAll(cfg, b, [a]) == Try(cfg, b, a)
  {
    assert [a][1..] == [];
    assert TryAll(cfg, Try(cfg, b, a), []) == Try(cfg, b, a);
  }

  /** The first n passes were made and `done` records them. */
  predicate MadeSoFar(cfg: Config, b: Breaker, passes: seq<Pass>, done: seq<Attempt>, n: nat)
    requires n <= |passes|
  {
    Made(cfg, b, passes) == done + Made(cfg, TryAll(cfg, b, done), passes[n..])
  }

  lemma MadeStep(cfg: Config, b: Breaker, passes: seq<Pass>, done: seq<Attempt>, n: nat)
    requires n < |passes| && MadeSoFar(cfg, b, passes, done, n)
    ensures var p, c, now := passes[n], TryAll(cfg, b, done), done + [passes[n].attempt];
            && TryAll(cfg, b, now) == Try(cfg, c, p.attempt)
            && LastSucceeds(cfg, b, now) == Succeeds(c, p.attempt)
            && (if Succeeds(c, p.attempt) || p.cancelled then Made(cfg, b, passes) == now
                else MadeSoFar(cfg, b, passes, now, n + 1))
  {
    hide Succeeds;
    hide Try;
    var p, c := passes[n], TryAll(cfg, b, done);
    assert passes[n..][1..] == passes[n + 1..];
    TryAllAppend(cfg, b, done, [p.attempt]);
    TryOne(cfg, c, p.attempt);
    Regroup(done, p.attempt, Made(cfg, Try(cfg, c, p.attempt), passes[n + 1..]));
    assert (done + [p.attempt])[..|done|] == done;
  }

  lemma Regroup(xs: seq<Attempt>, a: Attempt, ys: seq<Attempt>)
    ensures xs + ([a] + ys) == (xs + [a]) + ys
  {
  }

  lemma MadeStart(cfg: Config, b: Breaker, passes: seq<Pass>)
    ensures TryAll(cfg, b, []) == b && MadeSoFar(cfg, b, passes, [], 0)
    ensures !LastSucceeds(cfg, b, [])
  {
    assert passes[0..] == passes;
  }

  lemma MadeEnd(cfg: Config, b: Breaker, passes: seq<Pass>, done: seq<Attempt>)
    requires MadeSoFar(cfg, b, passes, done, |passes|)
    ensures Made(cfg, b, passes) == done
  {
  }

  predicate LastSucceeds(cfg: Config, b: Breaker, made: seq<Attempt>) {
    made != [] && Succeeds(TryAll(cfg, b, made[..|made| - 1]), made[|made| - 1])
  }

  lemma LastPass(cfg: Config, b: Breaker, passes: seq<Pass>, done: seq<Attempt>)
    requires Made(cfg, b, passes) == done
    ensures MadeSoFar(cfg, b, passes, done, |passes|)
  {
  }

  /** Attempt number k of a history was admitted and its command succeeded. */
  predicate Worked(cfg: Config, b: Breaker, made: seq<Attempt>, k: nat)
    requires k < |made|
  {
    CanExecute(TryAll(cfg, b, made[..k]), made[k].start) && made[k].ok
  }

  lemma FirstWorks(cfg: Config, b: Breaker, made: seq<Attempt>)
    requires made != []
    ensures Worked(cfg, b, made, 0) <==> Succeeds(b, made[0])
  {
    assert made[..0] == [];
    TryNone(cfg, b);
  }

  /** One more attempt in front. */
  lemma StopsLater(cfg: Config, b: Breaker, passes: seq<Pass>, rest: seq<Attempt>)
    requires passes != [] && |rest| < |passes|
    requires var p := passes[0]; !Succeeds(b, p.attempt) && !p.cancelled
    requires Stops(cfg, Try(cfg, b, passes[0].attempt), passes[1..], rest)
    ensures Stops(cfg, b, passes, [passes[0].attempt] + rest)
  {
    hide Worked;
    hide Succeeds;
    hide Try;
    var a, c := passes[0].attempt, Try(cfg, b, passes[0].attempt);
    var made := [a] + rest;
    FirstWorks(cfg, b, made);
    forall k | 0 <= k < |rest| ensures Worked(cfg, b, made, k + 1) <==> Worked(cfg, c, rest, k) {
      WorkedLater(cfg, b, a, rest, k);
    }
    forall k | 0 <= k < |made| - 1 ensures !Worked(cfg, b, made, k) && !passes[k].cancelled {
      if k > 0 {
        assert !Worked(cfg, c, rest, k - 1) && passes[k] == passes[1..][k - 1];
      }
    }
    if 0 < |rest| < |passes| - 1 {
      assert passes[|rest|] == passes[1..][|rest| - 1];
    }
  }

  /** Before the last attempt none worked and no pause was cancelled; the last one did or was,
      unless the configured number is reached. */
  predicate Stops(cfg: Config, b: Breaker, passes: seq<Pass>, made: seq<Attempt>) {
    && |made| <= |passes| && (passes != [] ==> made != [])
    && (forall k :: 0 <= k < |made| - 1 ==> !Worked(cfg, b, made, k) && !passes[k].cancelled)
    && (0 < |made| < |passes| ==> Worked(cfg, b, made, |made| - 1) || passes[|made| - 1].cancelled)
  }

  lemma {:induction false} CallStops(cfg: Config, b: Breaker, passes: seq<Pass>)
    ensures Stops(cfg, b, passes, Made(cfg, b, passes))
    decreases |passes|
  {
    hide Worked;
    hide Try;
    hide Succeeds;
    if passes != [] {
      var p := passes[0];
      if Succeeds(b, p.attempt) || p.cancelled {
        FirstWorks(cfg, b, [p.attempt]);
      } else {
        CallStops(cfg, Try(cfg, b, p.attempt), passes[1..]);
        hide Stops;
        StopsLater(cfg, b, passes, Made(cfg, Try(cfg, b, p.attempt), passes[1..]));
      }
    }
  }

  /** A call makes its attempts in order, the first at once, and stops after the first that worked
      or the first pause in which it is cancelled, and only then before the configured number. It
      succeeds exactly when one of them was admitted and its command succeeded. */
  lemma CallSucceedsExactlyWhen(cfg: Config, b: Breaker, passes: seq<Pass>)
    ensures var made := Made(cfg, b, passes);
            && Stops(cfg, b, passes, made)
            && (LastSucceeds(cfg, b, made) <==> exists k :: 0 <= k < |made| && Worked(cfg, b, made, k))
  {
    CallStops(cfg, b, passes);
    var made := Made(cfg, b, passes);
    hide Made;
    if made != [] {
      assert LastSucceeds(cfg, b, made) <==> Worked(cfg, b, made, |made| - 1);
      hide Worked;
    }
  }

  lemma WorkedLater(cfg: Config, b: Breaker, a: Attempt, rest: seq<Attempt>, k: nat)
    requires k < |rest|
    ensures Worked(cfg, b, [a] + rest, k + 1) <==> Worked(cfg, Try(cfg, b, a), rest, k)
  {
    assert ([a] + rest)[..k + 1] == [a] + rest[..k];
    assert ([a] + rest[..k])[1..] == rest[..k];
  }

  /** `Execute`: an operation runs only if the breaker admits it, and its result counts. */
  method Execute(cb: CircuitBreaker, a: Attempt) returns (succeeded: bool)
    modifies cb
    ensures cb.Value() == Try(cb.config, old(cb.Value()), a)
    ensures succeeded == Succeeds(old(cb.Value()), a)
  {
    var admitted := cb.Admits(a.start);
    if admitted {
      cb.RecordResult(a.ok, a.noted, a.end);
    }
    succeeded := admitted && a.ok;
  }

  /** The retry loop: stops at a success, or when cancelled in a pause between two passes. */
  method RetryThrough(cb: CircuitBreaker, passes: seq<Pass>) returns (ok: bool)
    modifies cb
    ensures var made := Made(cb.config, old(cb.Value()), passes);
            && cb.Value() == TryAll(cb.config, old(cb.Value()), made)
            && ok == LastSucceeds(cb.config, old(cb.Value()), made)
  {
    hide *;
    ghost var cfg, b := cb.config, cb.Value();
    ghost var done: seq<Attempt> := [];
    MadeStart(cfg, b, passes);
    for n := 0 to |passes|
      invariant cb.Value() == TryAll(cfg, b, done)
      invariant !LastSucceeds(cfg, b, done)
      invariant MadeSoFar(cfg, b, passes, done, n)
    {
      var p := passes[n];
      MadeStep(cfg, b, passes, done, n);
      var succeeded := Execute(cb, p.attempt);
      done := done + [p.attempt];
      if succeeded {
        return true;
      }
      if n + 1 < |passes| && p.cancelled {
        return false;
      }
      if p.cancelled {
        // cancelled in the last pass: nothing left to cancel
        LastPass(cfg, b, passes, done);
      }
    }
    MadeEnd(cfg, b, passes, done);
    ok := false;
  }

  // ---- the interactor ----

  class Interactor {
    const config: Config
    const retryAttempts: nat
    const retryBackoff: nat
    var breakers: map<string, CircuitBreaker>
    /** Every attempt made on a host so far. */
    ghost var made: map<string, seq<Attempt>>

    /** The state of a host's breaker is what the attempts on that host made of a new one. */
    ghost predicate Valid()
      reads this, breakers.Values
    {
      && IsValid(config)
      && (forall h :: h in breakers <==> h in made)
      && (forall h :: h in breakers ==> breakers[h].config == config && breakers[h].host == h)
      && (forall h :: h in breakers ==> breakers[h].Value() == TryAll(config, NEW, made[h]))
    }

    /** What happened on a host; nothing yet if it has no breaker. */
    ghost function History(host: string): seq<Attempt>
      reads this
    {
      if host in made then made[host] else []
    }

    constructor (config: Config, retryAttempts: nat, retryBackoff: nat)
      requires IsValid(config) && retryAttempts >= 1 && retryBackoff >= 1
      ensures Valid() && this.config == config && made == map[]
      ensures this.retryAttempts == retryAttempts && this.retryBackoff == retryBackoff
    {
      this.config := config;
      this.retryAttempts := retryAttempts;
      this.retryBackoff := retryBackoff;
      breakers := map[];
      made := map[];
    }

    /** The host's breaker, created closed on first use. */
    method GetCircuitBreaker(host: string) returns (cb: CircuitBreaker)
      requires Valid()
      modifies this
      ensures Valid()
      ensures host in breakers && cb == breakers[host]
      ensures forall h :: h in old(breakers) ==> h in breakers && breakers[h] == old(breakers)[h]
      ensures forall h :: h in breakers && h !in old(breakers) ==> h == host && fresh(breakers[h])
      ensures forall h :: History(h) == old(History(h))
    {
      hide CircuitBreaker.Value;
      hide IsValid;
      if host in breakers {
        return breakers[host];
      }
      TryNone(config, NEW);
      hide TryAll;
      cb := new CircuitBreaker(config, host);
      breakers := breakers[host := cb];
      made := made[host := []];
    }

    /** One command on a host, at most `retryAttempts` times through its breaker. */
    method ExecuteWithRetry(host: string, passes: seq<Pass>) returns (ok: bool)
      requires Valid() && |passes| == retryAttempts
      modifies this, breakers.Values
      ensures Valid()
      ensures var b := TryAll(config, NEW, old(History(host)));
              && History(host) == old(History(host)) + Made(config, b, passes)
              && ok == LastSucceeds(config, b, Made(config, b, passes))
      ensures forall h :: h != host ==> History(h) == old(History(h))
      ensures forall h :: h in breakers && h !in old(breakers) ==> h == host && fresh(breakers[h])
      ensures forall h :: h in old(breakers) ==> h in breakers && breakers[h] == old(breakers)[h]
    {
      hide TryAll;
      hide Made;
      hide LastSucceeds;
      hide CircuitBreaker.Value;
      hide IsValid;
      ghost var before := History(host);
      var cb := GetCircuitBreaker(host);
      ghost var b := cb.Value();
      ghost var now := Made(config, b, passes);
      ok := RetryThrough(cb, passes);
      TryAllAppend(config, NEW, before, now);
      made := made[host := before + now];
    }

    /** When all commands on a host fail and calls do not overlap, any span holds at most
        max(threshold, 2) commands and two more for each full reset period. */
    lemma CommandsAreBounded(host: string, t: int, lo: int, hi: int)
      requires Valid() && Chronological(t, History(host)) && AllFail(History(host)) && lo <= hi
      ensures Commands(config, NEW, History(host), lo, hi)
              <= Max(config.failureThreshold, 2) + 2 * ((hi - lo) / config.resetTimeout)
    {
      CommandsInAnySpan(config, NEW, t, History(host), lo, hi);
    }
  }

  /** Calls that start after the one before has ended. */
  ghost predicate NotOverlapping(cfg: Config, b: Breaker, backoff: int, t: int, calls: seq<seq<Pass>>)
    decreases |calls|
  {
    calls == [] ||
    var now := Made(cfg, b, calls[0]);
    Paced(backoff, 1, t, calls[0]) && NotOverlapping(cfg, TryAll(cfg, b, now), backoff, EndOf(t, now), calls[1..])
  }

  /** The attempts of a list of calls, one after the other. */
  function MadeByAll(cfg: Config, b: Breaker, calls: seq<seq<Pass>>): seq<Attempt>
    decreases |calls|
  {
    if calls == [] then []
    else var now := Made(cfg, b, calls[0]); now + MadeByAll(cfg, TryAll(cfg, b, now), calls[1..])
  }

  predicate AllCommandsFail(calls: seq<seq<Pass>>) {
    forall i, k :: 0 <= i < |calls| && 0 <= k < |calls[i]| ==> !calls[i][k].attempt.ok
  }

  lemma {:induction false} CallsAreChronological(cfg: Config, b: Breaker, backoff: nat, t: int, calls: seq<seq<Pass>>)
    requires NotOverlapping(cfg, b, backoff, t, calls) && AllCommandsFail(calls)
    ensures Chronological(t, MadeByAll(cfg, b, calls)) && AllFail(MadeByAll(cfg, b, calls))
    decreases |calls|
  {
    if calls != [] {
      var now := Made(cfg, b, calls[0]);
      PacedIsChronological(cfg, b, backoff, 1, t, t, calls[0]);
      assert AllFail(now) by {
        forall k | 0 <= k < |now| ensures !now[k].ok {
          assert now[k] == calls[0][k].attempt;
        }
      }
      CallsAreChronological(cfg, TryAll(cfg, b, now), backoff, EndOf(t, now), calls[1..]);
      ChronologicalAppend(t, now, MadeByAll(cfg, TryAll(cfg, b, now), calls[1..]));
    }
  }

  /** The bound through the retry loop, for every list of calls that do not overlap. */
  lemma RetriesAreBounded(cfg: Config, backoff: nat, t: int, calls: seq<seq<Pass>>, lo: int, hi: int)
    requires IsValid(cfg) && NotOverlapping(cfg, NEW, backoff, t, calls) && AllCommandsFail(calls) && lo <= hi
    ensures Commands(cfg, NEW, MadeByAll(cfg, NEW, calls), lo, hi)
            <= Max(cfg.failureThreshold, 2) + 2 * ((hi - lo) / cfg.resetTimeout)
  {
    CallsAreChronological(cfg, NEW, backoff, t, calls);
    CommandsInAnySpan(cfg, NEW, t, MadeByAll(cfg, NEW, calls), lo, hi);
  }
}
