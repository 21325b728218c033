/**
 The provider circuit breaker of internal/provider/health.go, related to the history of
 its calls: when it opens, and what it takes to close it again.
 */
module ProviderBreaker {

  datatype State = Closed | Open | HalfOpen
  datatype Config = Config(failureThreshold: int, successThreshold: int, timeout: int)
  datatype Breaker = Breaker(state: State, failures: int, successes: int, lastFailure: int)

  // ----- The operations

  predicate MayTry(c: Config, b: Breaker, now: int) {
    b.state == Open && now - b.lastFailure > c.timeout
  }

  function Asked(c: Config, b: Breaker, now: int): Breaker {
    if MayTry(c, b, now) then b.(state := HalfOpen, successes := 0, failures := 0) else b
  }

  function Succeeded(c: Config, b: Breaker): Breaker {
    match b.state
    case Closed => b.(failures := 0)
    case HalfOpen =>
      if b.successes + 1 >= c.successThreshold then b.(state := Closed, failures := 0, successes := 0)
      else b.(successes := b.successes + 1)
    case Open => b
  }

  function FailedAt(c: Config, b: Breaker, now: int): Breaker {
    match b.state
    case Closed =>
      b.(lastFailure := now, failures := b.failures + 1,
         state := if b.failures + 1 >= c.failureThreshold then Open else Closed)
    case HalfOpen => b.(lastFailure := now, state := Open, failures := 1)
    case Open => b.(lastFailure := now)
  }

  class CircuitBreaker {
    var state: State
    var failureCount: int
    var successCount: int
    var lastFailureTime: int
    const config: Config

    function View(): Breaker
      reads this
    {
      Breaker(state, failureCount, successCount, lastFailureTime)
    }

    constructor (config: Config)
      ensures this.config == config && View() == Breaker(Closed, 0, 0, 0)
    {
      this.config := config;
      state, failureCount, successCount, lastFailureTime := Closed, 0, 0, 0;
    }

    method Allow(now: int) returns (allowed: bool)
      modifies this
      ensures View() == Asked(config, old(View()), now)
      ensures allowed <==> View().state != Open
    {
      if state == Open {
        if now - lastFailureTime > config.timeout {
          state, successCount, failureCount := HalfOpen, 0, 0;
          return true;
        }
        return false;
      }
      allowed := true;
    }

    method RecordSuccess()
      modifies this
      ensures View() == Succeeded(config, old(View()))
    {
      if state == Closed {
        failureCount := 0;
      } else if state == HalfOpen {
        successCount := successCount + 1;
        if successCount >= config.successThreshold {
          state, failureCount, successCount := Closed, 0, 0;
        }
      }
    }

    method RecordFailure(now: int)
      modifies this
      ensures View() == FailedAt(config, old(View()), now)
    {
      lastFailureTime := now;
      if state == Closed {
        failureCount := failureCount + 1;
        if failureCount >= config.failureThreshold {
          state := Open;
        }
      } else if state == HalfOpen {
        state, failureCount := Open, 1;
      }
    }
  }

  // ----- Histories

  datatype Event = Allow(now: int) | Success | Failure(now: int)

  ghost function After(c: Config, h: seq<Event>): Breaker {
    if h == [] then Breaker(Closed, 0, 0, 0)
    else
      var b := After(c, h[..|h| - 1]);
      match h[|h| - 1]
      case Allow(now) => Asked(c, b, now)
      case Success => Succeeded(c, b)
      case Failure(now) => FailedAt(c, b, now)
  }

  ghost function FailuresSinceSuccess(h: seq<Event>): nat {
    if h == [] then 0
    else match h[|h| - 1]
      case Allow(_) => FailuresSinceSuccess(h[..|h| - 1])
      case Success => 0
      case Failure(_) => FailuresSinceSuccess(h[..|h| - 1]) + 1
  }

  ghost function Successes(h: seq<Event>): nat {
    if h == [] then 0 else Successes(h[..|h| - 1]) + if h[|h| - 1].Success? then 1 else 0
  }

  ghost function LatestFailure(h: seq<Event>): int {
    if h == [] then 0 else if h[|h| - 1].Failure? then h[|h| - 1].now else LatestFailure(h[..|h| - 1])
  }

  lemma {:induction false} LastFailureIsLatest(c: Config, h: seq<Event>)
    ensures After(c, h).lastFailure == LatestFailure(h)
  {
    if h != [] {
      LastFailureIsLatest(c, h[..|h| - 1]);
    }
  }

  /** While closed, the count is the number of failures since the last success, and below the threshold. */
  lemma {:induction false} ClosedCount(c: Config, h: seq<Event>)
    requires c.failureThreshold >= 1
    ensures After(c, h).state == Closed ==>
      After(c, h).failures == FailuresSinceSuccess(h) < c.failureThreshold
  {
    if h != [] {
      ClosedCount(c, h[..|h| - 1]);
    }
  }

  /** The counters outside their own state: none left over when a trial starts or the breaker closes. */
  lemma {:induction false} CountersByState(c: Config, h: seq<Event>)
    requires c.failureThreshold >= 1
    ensures var b := After(c, h);
      match b.state
      case Closed => b.successes == 0
      case HalfOpen => b.failures == 0
      case Open => b.failures == c.failureThreshold || b.failures == 1
  {
    if h != [] {
      CountersByState(c, h[..|h| - 1]);
      ClosedCount(c, h[..|h| - 1]);
      ClosedCount(c, h);
    }
  }

  /** From closed, the next event opens the breaker exactly if it completes `failureThreshold` failures in a row. */
  lemma OpensExactlyAtThreshold(c: Config, h: seq<Event>, e: Event)
    requires c.failureThreshold >= 1 && After(c, h).state == Closed
    ensures After(c, h + [e]).state == if FailuresSinceSuccess(h + [e]) == c.failureThreshold then Open else Closed
  {
    ClosedCount(c, h);
    assert (h + [e])[..|h|] == h;
  }

  // ----- Recovery

  /** Event `a` is an `Allow` that finds the breaker open, more than the timeout after the latest failure. */
  ghost predicate TrialStarts(c: Config, h: seq<Event>, a: nat)
    requires a < |h|
  {
    && h[a].Allow? && After(c, h[..a]).state == Open
    && h[a].now - LatestFailure(h[..a]) > c.timeout
  }

  /** From `a` on the breaker is on trial: half-open, without a failure, counting successes. */
  ghost predicate OnTrial(c: Config, h: seq<Event>, a: nat)
    requires a < |h|
  {
    && TrialStarts(c, h, a)
    && (forall j :: a < j < |h| ==> !h[j].Failure?)
    && (forall j :: a < j <= |h| ==> After(c, h[..j]).state == HalfOpen)
    && After(c, h).successes == Successes(h[a + 1..])
  }

  lemma {:induction false} HalfOpenIsTrial(c: Config, h: seq<Event>) returns (a: nat)
    requires After(c, h).state == HalfOpen
    ensures a < |h| && OnTrial(c, h, a)
  {
    var n := |h| - 1;
    var front := h[..n];
    assert h[..|h|] == h;
    if After(c, front).state == HalfOpen {
      a := HalfOpenIsTrial(c, front);
      TrialContinues(c, h, a);
    } else {
      a := n;
      LastFailureIsLatest(c, front);
      assert h[n + 1..] == [];
    }
  }

  lemma TrialContinues(c: Config, h: seq<Event>, a: nat)
    requires |h| > 0 && a < |h| - 1 && OnTrial(c, h[..|h| - 1], a)
    requires After(c, h).state == HalfOpen
    ensures OnTrial(c, h, a)
  {
    var n := |h| - 1;
    var front := h[..n];
    TrialHistory(c, h, a);
    TrialStep(c, h);
    var tail := h[a + 1..];
    assert Successes(tail) == Successes(front[a + 1..]) + if h[n].Success? then 1 else 0 by {
      assert tail[..|tail| - 1] == front[a + 1..] && tail[|tail| - 1] == h[n];
    }
  }

  lemma TrialHistory(c: Config, h: seq<Event>, a: nat)
    requires |h| > 0 && a < |h| - 1 && OnTrial(c, h[..|h| - 1], a)
    requires After(c, h).state == HalfOpen
    ensures TrialStarts(c, h, a) && After(c, h[..|h| - 1]).state == HalfOpen
    ensures forall j :: a < j < |h| - 1 ==> !h[j].Failure?
    ensures forall j :: a < j <= |h| ==> After(c, h[..j]).state == HalfOpen
  {
    var n := |h| - 1;
    var front := h[..n];
    assert front[..n] == front && front[..a] == h[..a] && h[..|h|] == h;
    assert forall j :: a < j < n ==> front[j] == h[j];
    forall j | a < j <= |h|
      ensures After(c, h[..j]).state == HalfOpen
    {
      if j <= n {
        assert front[..j] == h[..j];
      }
    }
  }

  lemma TrialStep(c: Config, h: seq<Event>)
    requires h != [] && After(c, h[..|h| - 1]).state == HalfOpen && After(c, h).state == HalfOpen
    ensures !h[|h| - 1].Failure?
    ensures After(c, h).successes == After(c, h[..|h| - 1]).successes + if h[|h| - 1].Success? then 1 else 0
  {
  }

  /**
   A trial that starts at `a` succeeds at `s`: no failure in between, and `s` is the
   `successThreshold`-th success.
   */
  ghost predicate Recovers(c: Config, h: seq<Event>, a: nat, s: nat)
    requires a < s < |h|
  {
    && TrialStarts(c, h, a)
    && (forall j :: a < j <= s ==> !h[j].Failure?)
    && h[s].Success? && Successes(h[a + 1..s + 1]) == c.successThreshold
  }

  lemma RecoversInLonger(c: Config, h: seq<Event>, n: nat, a: nat, s: nat)
    requires a < s < n <= |h| && Recovers(c, h[..n], a, s)
    ensures Recovers(c, h, a, s)
  {
    hide After, Successes;
    var p := h[..n];
    assert p[..a] == h[..a] && p[a + 1..s + 1] == h[a + 1..s + 1];
    assert forall j :: 0 <= j < n ==> p[j] == h[j];
  }

  lemma ClosingSuccess(c: Config, h: seq<Event>) returns (a: nat)
    requires c.successThreshold >= 1 && h != []
    requires After(c, h[..|h| - 1]).state == HalfOpen && After(c, h).state == Closed
    ensures a < |h| - 1 && Recovers(c, h, a, |h| - 1)
    ensures forall j :: a < j < |h| ==> After(c, h[..j]).state == HalfOpen
  {
    var n := |h| - 1;
    var front := h[..n];
    ClosingStep(c, h);
    hide After;
    a := HalfOpenIsTrial(c, front);
    TrialBelowThreshold(c, front);
    assert front[..a] == h[..a];
    assert forall j :: 0 <= j < n ==> front[j] == h[j];
    SuccessesNext(h, a, n);
    assert h[a + 1..n] == front[a + 1..];
    forall j | a < j < |h|
      ensures After(c, h[..j]).state == HalfOpen
    {
      assert front[..j] == h[..j];
    }
  }

  lemma ClosingStep(c: Config, h: seq<Event>)
    requires h != [] && After(c, h[..|h| - 1]).state == HalfOpen && After(c, h).state == Closed
    ensures h[|h| - 1].Success? && After(c, h[..|h| - 1]).successes + 1 >= c.successThreshold
  {
  }

  lemma SuccessesNext(h: seq<Event>, a: nat, n: nat)
    requires a < n < |h|
    ensures Successes(h[a + 1..n + 1]) == Successes(h[a + 1..n]) + if h[n].Success? then 1 else 0
  {
    var tail := h[a + 1..n + 1];
    assert tail[..|tail| - 1] == h[a + 1..n] && tail[|tail| - 1] == h[n];
  }

  lemma {:induction false} TrialBelowThreshold(c: Config, h: seq<Event>)
    requires c.successThreshold >= 1
    ensures After(c, h).state == HalfOpen ==> 0 <= After(c, h).successes < c.successThreshold
  {
    if h != [] {
      TrialBelowThreshold(c, h[..|h| - 1]);
    }
  }

  lemma ClosedComesFrom(c: Config, h: seq<Event>)
    requires h != [] && After(c, h).state == Closed
    ensures After(c, h[..|h| - 1]).state != Open
  {
  }

  /**
   A breaker that is open after `m` events and closed after `n` has recovered in between:
   an `Allow` more than the timeout after the latest failure, then `successThreshold`
   successes with no failure among them.
   */
  lemma {:induction false} RecoveryNeedsTrial(c: Config, h: seq<Event>, m: nat, n: nat) returns (a: nat, s: nat)
    requires c.successThreshold >= 1 && m < n <= |h|
    requires After(c, h[..m]).state == Open && After(c, h[..n]).state == Closed
    ensures m <= a < s < n && Recovers(c, h, a, s)
    decreases n
  {
    hide After, Recovers;
    var p := h[..n];
    assert p[..n - 1] == h[..n - 1];
    ClosedComesFrom(c, p);
    if After(c, h[..n - 1]).state == Closed {
      a, s := RecoveryNeedsTrial(c, h, m, n - 1);
    } else {
      a := ClosingSuccess(c, p);
      s := n - 1;
      RecoversInLonger(c, h, n, a, s);
      if a < m {
        assert p[..m] == h[..m];
      }
    }
  }

  /** While a trial goes on without failures, the breaker counts the successes since its start. */
  lemma {:induction false} TrialCounts(c: Config, h: seq<Event>, a: nat, n: nat)
    requires a < n <= |h| && TrialStarts(c, h, a)
    requires (forall j :: a < j < n ==> !h[j].Failure?) && Successes(h[a + 1..n]) < c.successThreshold
    ensures After(c, h[..n]).state == HalfOpen && After(c, h[..n]).successes == Successes(h[a + 1..n])
    decreases n
  {
    var p := h[..n];
    assert p[..n - 1] == h[..n - 1] && p[n - 1] == h[n - 1];
    if n == a + 1 {
      LastFailureIsLatest(c, h[..a]);
      assert h[a + 1..n] == [];
    } else {
      SuccessesNext(h, a, n - 1);
      TrialCounts(c, h, a, n - 1);
    }
  }

  /** Such a trial closes the breaker. */
  lemma TrialCloses(c: Config, h: seq<Event>, a: nat, s: nat)
    requires a < s < |h| && Recovers(c, h, a, s)
    ensures After(c, h[..s + 1]).state == Closed
  {
    var p := h[..s + 1];
    assert p[..s] == h[..s] && p[s] == h[s];
    SuccessesNext(h, a, s);
    TrialCounts(c, h, a, s);
  }

  /** An open breaker closes again if and only if such a trial takes place. */
  lemma ClosesIffTrial(c: Config, h: seq<Event>, m: nat)
    requires c.successThreshold >= 1 && m <= |h| && After(c, h[..m]).state == Open
    ensures (exists n :: m < n <= |h| && After(c, h[..n]).state == Closed)
       <==> (exists a, s :: m <= a < s < |h| && Recovers(c, h, a, s))
  {
    hide After, Recovers;
    if n :| m < n <= |h| && After(c, h[..n]).state == Closed {
      var a, s := RecoveryNeedsTrial(c, h, m, n);
    }
    if a, s :| m <= a < s < |h| && Recovers(c, h, a, s) {
      TrialCloses(c, h, a, s);
    }
  }
}
