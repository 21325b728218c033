/**
 The channel circuit breaker of internal/channel/router.go: per-channel state, failure
 count and time of the last failure. Selecting a channel reads the state under a read
 lock, gives it up, and switches the channel to half-open under a write lock, so other
 operations can come in between.
 */
module ChannelBreaker {
  import opened Text
  import opened WeightedPick

  const FAILURE_THRESHOLD: int := 5
  const OPEN_DURATION: int := 30_000_000_000

  datatype CircuitState = Closed | Open | HalfOpen
  datatype Breaker = Breaker(states: map<int, CircuitState>, counts: map<int, int>, lastFailure: map<int, int>) {
    function State(ch: int): CircuitState { if ch in states then states[ch] else Closed }
    function Count(ch: int): int { if ch in counts then counts[ch] else 0 }
  }

  // ----- The operations

  function Succeeded(b: Breaker, ch: int): Breaker {
    b.(counts := b.counts - {ch},
       states := if b.State(ch) == HalfOpen then b.states[ch := Closed] else b.states)
  }

  function FailedAt(b: Breaker, ch: int, now: int): Breaker {
    var count := b.Count(ch) + 1;
    Breaker(if count >= FAILURE_THRESHOLD then b.states[ch := Open] else b.states,
            b.counts[ch := count], b.lastFailure[ch := now])
  }

  function ResetTo(b: Breaker, ch: int): Breaker {
    Breaker(b.states - {ch}, b.counts - {ch}, b.lastFailure - {ch})
  }

  function Switched(b: Breaker, ch: int): Breaker {
    b.(states := b.states[ch := HalfOpen], counts := b.counts[ch := 0])
  }

  /** The channel is open and its last failure, as read, is more than 30 seconds old; none recorded counts as old. */
  predicate CooledDown(b: Breaker, ch: int, now: int) {
    b.State(ch) == Open && (ch in b.lastFailure ==> now - b.lastFailure[ch] > OPEN_DURATION)
  }

  predicate Supports(ch: Channel, model: string) {
    ch.models == [] || model in ch.models || "*" in ch.models
  }

  predicate Eligible(b: Breaker, ch: Channel, model: string, now: int) {
    Supports(ch, model) && (b.State(ch.id) != Open || CooledDown(b, ch.id, now))
  }

  function EligibleOf(b: Breaker, channels: seq<Channel>, model: string, now: int): seq<Channel> {
    if channels == [] then []
    else
      EligibleOf(b, channels[..|channels| - 1], model, now)
      + if Eligible(b, channels[|channels| - 1], model, now) then [channels[|channels| - 1]] else []
  }

  lemma {:induction false} EligibleOfMeans(b: Breaker, channels: seq<Channel>, model: string, now: int, ch: Channel)
    ensures ch in EligibleOf(b, channels, model, now) <==> ch in channels && Eligible(b, ch, model, now)
  {
    if channels != [] {
      var front, last := channels[..|channels| - 1], channels[|channels| - 1];
      EligibleOfMeans(b, front, model, now, ch);
      assert channels == front + [last];
    }
  }

  /** Filtering goes channel by channel and keeps their order. */
  lemma {:induction false} EligibleAppend(b: Breaker, a: seq<Channel>, c: seq<Channel>, model: string, now: int)
    ensures EligibleOf(b, a + c, model, now) == EligibleOf(b, a, model, now) + EligibleOf(b, c, model, now)
  {
    hide Eligible;
    if c == [] {
      assert a + c == a;
    } else {
      var all, front, last := a + c, c[..|c| - 1], c[|c| - 1];
      EligibleAppend(b, a, front, model, now);
      assert all[..|all| - 1] == a + front && all[|all| - 1] == last;
    }
  }

  lemma EligibleSingle(b: Breaker, ch: Channel, model: string, now: int)
    ensures EligibleOf(b, [ch], model, now) == if Serves(ch, model) && !ShutOff(b, ch.id, now) then [ch] else []
  {
    EligibleIff(b, ch, model, now);
    assert [ch][..0] == [];
    assert EligibleOf(b, [], model, now) == [];
  }

  datatype Selection = Selected(channel: Channel) | ChannelNotFound | ChannelInactive

  /** What selection answers when the channels that may be used are `eligible`. */
  ghost predicate Answers(channels: seq<Channel>, eligible: seq<Channel>, draw: int, r: Selection) {
    if channels == [] then r == ChannelNotFound
    else if eligible == [] then r == ChannelInactive
    else exists i :: 0 <= i < |eligible| && PicksChannel(eligible, draw, i) && r == Selected(eligible[i])
  }

  /** The channel serves the model: it names no model at all, or this one or the wildcard at some place. */
  ghost predicate Serves(ch: Channel, model: string) {
    |ch.models| == 0 || exists i :: 0 <= i < |ch.models| && (ch.models[i] == model || ch.models[i] == "*")
  }

  /** The channel is shut off: it is open, and its last failure is recorded and at most 30 seconds old. */
  ghost predicate ShutOff(b: Breaker, id: int, now: int) {
    && id in b.states && b.states[id] == Open
    && id in b.lastFailure && now - b.lastFailure[id] <= 30_000_000_000
  }

  lemma EligibleIff(b: Breaker, ch: Channel, model: string, now: int)
    ensures Eligible(b, ch, model, now) <==> Serves(ch, model) && !ShutOff(b, ch.id, now)
  {
  }

  /**
   A channel is selected exactly if one is offered that serves the model and is not shut off,
   and the selected one is such a channel. Otherwise the answer tells whether any was offered.
   */
  lemma SelectedIsEligible(b: Breaker, channels: seq<Channel>, model: string, now: int, draw: int, r: Selection)
    requires Answers(channels, EligibleOf(b, channels, model, now), draw, r)
    ensures r.Selected? ==>
      r.channel in channels && Serves(r.channel, model) && !ShutOff(b, r.channel.id, now)
    ensures r.Selected? <==> exists ch :: ch in channels && Serves(ch, model) && !ShutOff(b, ch.id, now)
    ensures r.ChannelNotFound? <==> channels == []
  {
    var eligible := EligibleOf(b, channels, model, now);
    forall ch
      ensures ch in eligible <==> ch in channels && Serves(ch, model) && !ShutOff(b, ch.id, now)
    {
      EligibleOfMeans(b, channels, model, now, ch);
      EligibleIff(b, ch, model, now);
    }
    hide Serves, ShutOff, EligibleOf;
    if eligible != [] {
      assert eligible[0] in eligible;
    }
  }

  /** Among several eligible channels, each is selected by exactly as many of the draws as it weighs. */
  lemma SelectionIsProportional(b: Breaker, channels: seq<Channel>, model: string, now: int, i: nat)
    requires var eligible := EligibleOf(b, channels, model, now);
      && i < |eligible| && |eligible| > 1
      && NonNegative(ChannelWeights(eligible)) && Total(ChannelWeights(eligible)) > 0
    ensures var eligible := EligibleOf(b, channels, model, now);
      var total := Total(ChannelWeights(eligible));
      |set draw | 0 <= draw < total && PicksChannel(eligible, draw, i)|
        == eligible[i].priority * eligible[i].ratio
  {
    var eligible := EligibleOf(b, channels, model, now);
    var ws := ChannelWeights(eligible);
    ExactlyProportional(ws, |eligible| - 1, i);
    assert DrawsPicking(ws, |eligible| - 1, i)
        == set draw | 0 <= draw < Total(ws) && PicksChannel(eligible, draw, i);
  }

  /** Selection switches the open channels among the eligible ones. */
  ghost predicate Switches(b: Breaker, eligible: seq<Channel>, id: int) {
    b.State(id) == Open && exists k :: 0 <= k < |eligible| && eligible[k].id == id
  }

  /** The breaker after selection: the switched channels are half-open with no failures, the others as before. */
  ghost predicate AfterSelection(b: Breaker, eligible: seq<Channel>, b': Breaker) {
    && b'.lastFailure == b.lastFailure
    && (forall id :: b'.State(id) == if Switches(b, eligible, id) then HalfOpen else b.State(id))
    && (forall id :: b'.Count(id) == if Switches(b, eligible, id) then 0 else b.Count(id))
  }

  lemma SwitchesAppend(b: Breaker, eligible: seq<Channel>, ch: Channel, id: int)
    ensures Switches(b, eligible + [ch], id) <==> Switches(b, eligible, id) || (b.State(id) == Open && id == ch.id)
  {
    var all := eligible + [ch];
    assert all[|eligible|] == ch;
    assert forall k :: 0 <= k < |eligible| ==> all[k] == eligible[k];
  }

  lemma SelectSwitched(b: Breaker, eligible: seq<Channel>, b': Breaker, ch: Channel)
    requires AfterSelection(b, eligible, b') && b.State(ch.id) == Open
    ensures AfterSelection(b, eligible + [ch], Switched(b', ch.id))
  {
    forall id
      ensures Switches(b, eligible + [ch], id) <==> Switches(b, eligible, id) || id == ch.id
    {
      SwitchesAppend(b, eligible, ch, id);
    }
  }

  lemma SelectKept(b: Breaker, eligible: seq<Channel>, b': Breaker, ch: Channel)
    requires AfterSelection(b, eligible, b') && b'.State(ch.id) != Open
    ensures AfterSelection(b, eligible + [ch], b')
  {
    forall id
      ensures Switches(b, eligible + [ch], id) <==> Switches(b, eligible, id)
    {
      SwitchesAppend(b, eligible, ch, id);
    }
  }

  /** `IsModelSupported`: no listed model means every model. */
  method IsModelSupported(ch: Channel, model: string) returns (supported: bool)
    ensures supported <==> Supports(ch, model)
    ensures supported <==> Serves(ch, model)
  {
    if |ch.models| == 0 {
      return true;
    }
    var i := 0;
    while i < |ch.models|
      invariant 0 <= i <= |ch.models|
      invariant forall k :: 0 <= k < i ==> ch.models[k] != model && ch.models[k] != "*"
    {
      if ch.models[i] == model || ch.models[i] == "*" {
        return true;
      }
      i := i + 1;
    }
    supported := false;
  }

  const INITIAL_BREAKER := Breaker(map[], map[], map[])

  class Router {
    var states: map<int, CircuitState>
    var failureCounts: map<int, int>
    var lastFailure: map<int, int>

    function View(): Breaker
      reads this
    {
      Breaker(states, failureCounts, lastFailure)
    }

    constructor ()
      ensures View() == INITIAL_BREAKER
    {
      states, failureCounts, lastFailure := map[], map[], map[];
    }

    method RecordSuccess(ch: int)
      modifies this
      ensures View() == Succeeded(old(View()), ch)
    {
      failureCounts := failureCounts - {ch};
      if ch in states && states[ch] == HalfOpen {
        states := states[ch := Closed];
      }
    }

    method RecordFailure(ch: int, now: int)
      modifies this
      ensures View() == FailedAt(old(View()), ch, now)
    {
      failureCounts := failureCounts[ch := (if ch in failureCounts then failureCounts[ch] else 0) + 1];
      lastFailure := lastFailure[ch := now];
      if failureCounts[ch] >= FAILURE_THRESHOLD {
        states := states[ch := Open];
      }
    }

    method ResetCircuit(ch: int)
      modifies this
      ensures View() == ResetTo(old(View()), ch)
    {
      states := states - {ch};
      failureCounts := failureCounts - {ch};
      lastFailure := lastFailure - {ch};
    }

    /**
     `SelectChannel` on the channels the repository lists, when nothing comes in between.
     Among several eligible channels the draw is below their total weight.
     */
    method SelectChannel(channels: seq<Channel>, model: string, now: int, draw: int) returns (r: Selection)
      requires var eligible := EligibleOf(View(), channels, model, now);
        |eligible| > 1 && Total(ChannelWeights(eligible)) != 0 ==> 0 <= draw < Total(ChannelWeights(eligible))
      modifies this
      ensures var eligible := EligibleOf(old(View()), channels, model, now);
        Answers(channels, eligible, draw, r) && AfterSelection(old(View()), eligible, View())
    {
      if |channels| == 0 {
        return ChannelNotFound;
      }
      var eligible := FilterEligible(channels, model, now);
      if |eligible| == 0 {
        return ChannelInactive;
      }
      var i := WeightedRandomSelect(eligible, draw);
      r := Selected(eligible[i]);
    }

    /** The filter loop of `SelectChannel`. */
    method FilterEligible(channels: seq<Channel>, model: string, now: int) returns (eligible: seq<Channel>)
      modifies this
      ensures eligible == EligibleOf(old(View()), channels, model, now)
      ensures AfterSelection(old(View()), eligible, View())
    {
      eligible := [];
      ghost var b := View();
      var i := 0;
      while i < |channels|
        invariant 0 <= i <= |channels|
        invariant eligible == EligibleOf(b, channels[..i], model, now)
        invariant AfterSelection(b, eligible, View())
        invariant forall id :: Switches(b, eligible, id) ==> CooledDown(b, id, now)
      {
        var ch := channels[i];
        assert channels[..i + 1][..i] == channels[..i];
        SwitchesAppend(b, eligible, ch, ch.id);
        var supported := IsModelSupported(ch, model);
        if supported {
          if ch.id in states && states[ch.id] == Open {
            if ch.id !in lastFailure || now - lastFailure[ch.id] > OPEN_DURATION {
              SelectSwitched(b, eligible, View(), ch);
              states := states[ch.id := HalfOpen];
              failureCounts := failureCounts[ch.id := 0];
              SwitchedAreCooled(b, eligible, ch, now);
              eligible := eligible + [ch];
            }
          } else {
            SelectKept(b, eligible, View(), ch);
            SwitchedAreCooled(b, eligible, ch, now);
            eligible := eligible + [ch];
          }
        }
        i := i + 1;
      }
      assert channels[..i] == channels;
    }
  }

  lemma SwitchedAreCooled(b: Breaker, eligible: seq<Channel>, ch: Channel, now: int)
    requires forall id :: Switches(b, eligible, id) ==> CooledDown(b, id, now)
    requires b.State(ch.id) == Open ==> CooledDown(b, ch.id, now)
    ensures forall id :: Switches(b, eligible + [ch], id) ==> CooledDown(b, id, now)
  {
  }

  // ----- Interleaved runs

  /** `Observe` is the read under the read lock, `Switch` the later write it decided on. */
  datatype Step =
    | Success(ch: int)
    | Failure(ch: int, now: int)
    | Reset(ch: int)
    | Observe(ch: int, now: int)
    | Switch(ch: int)

  datatype World = World(breaker: Breaker, pending: multiset<int>)

  ghost predicate Enabled(w: World, s: Step) {
    match s
    case Observe(ch, now) => CooledDown(w.breaker, ch, now)
    case Switch(ch) => ch in w.pending
    case _ => true
  }

  ghost function Next(w: World, s: Step): World {
    match s
    case Success(ch) => w.(breaker := Succeeded(w.breaker, ch))
    case Failure(ch, now) => w.(breaker := FailedAt(w.breaker, ch, now))
    case Reset(ch) => w.(breaker := ResetTo(w.breaker, ch))
    case Observe(ch, _) => w.(pending := w.pending + multiset{ch})
    case Switch(ch) => World(Switched(w.breaker, ch), w.pending - multiset{ch})
  }

  ghost function After(steps: seq<Step>): World {
    if steps == [] then World(INITIAL_BREAKER, multiset{}) else Next(After(steps[..|steps| - 1]), steps[|steps| - 1])
  }

  /** Every step is enabled in the state it is taken in. */
  ghost predicate Run(steps: seq<Step>) {
    forall i :: 0 <= i < |steps| ==> Enabled(After(steps[..i]), steps[i])
  }

  /** The failures of a channel since its last success, reset or switch. */
  ghost function FailuresSince(steps: seq<Step>, ch: int): nat {
    if steps == [] then 0
    else
      var s := steps[|steps| - 1];
      if s.ch != ch || s.Observe? then FailuresSince(steps[..|steps| - 1], ch)
      else if s.Failure? then FailuresSince(steps[..|steps| - 1], ch) + 1
      else 0
  }

  /** For every interleaving, the failure count is the number of failures since the last success, reset or switch. */
  lemma {:induction false} CountIsFailuresSince(steps: seq<Step>, ch: int)
    ensures After(steps).breaker.Count(ch) == FailuresSince(steps, ch)
  {
    if steps != [] {
      CountIsFailuresSince(steps[..|steps| - 1], ch);
    }
  }

  /** Step `i` is the failure that opens the channel, or one more failure of the same unbroken series. */
  ghost predicate OpensAt(steps: seq<Step>, ch: int, i: nat)
    requires i < |steps|
  {
    steps[i].Failure? && steps[i].ch == ch && FailuresSince(steps[..i + 1], ch) >= 5
  }

  /** The channel opens at `i`, with no reset and no switch since. */
  ghost predicate OpenFrom(steps: seq<Step>, ch: int, i: nat)
    requires i < |steps|
  {
    OpensAt(steps, ch, i) && forall j :: i < j < |steps| && steps[j].ch == ch ==> !steps[j].Reset? && !steps[j].Switch?
  }

  /** The channel is switched at `i`, with no reset, no success and no opening failure since. */
  ghost predicate HalfOpenFrom(steps: seq<Step>, ch: int, i: nat)
    requires i < |steps|
  {
    && steps[i] == Switch(ch)
    && (forall j :: i < j < |steps| && steps[j].ch == ch ==> !steps[j].Reset? && !steps[j].Success?)
    && (forall j :: i < j < |steps| ==> !OpensAt(steps, ch, j))
  }

  ghost predicate OpenByHistory(steps: seq<Step>, ch: int) {
    exists i :: 0 <= i < |steps| && OpenFrom(steps, ch, i)
  }

  ghost predicate HalfOpenByHistory(steps: seq<Step>, ch: int) {
    exists i :: 0 <= i < |steps| && HalfOpenFrom(steps, ch, i)
  }

  lemma OpensAtPrefix(steps: seq<Step>, ch: int, i: nat)
    requires i < |steps| - 1
    ensures OpensAt(steps[..|steps| - 1], ch, i) == OpensAt(steps, ch, i)
  {
    assert steps[..|steps| - 1][..i + 1] == steps[..i + 1];
  }

  lemma OpenFromPrefix(steps: seq<Step>, ch: int)
    requires steps != []
    ensures var s, front := steps[|steps| - 1], steps[..|steps| - 1];
      OpenByHistory(steps, ch) <==>
        OpensAt(steps, ch, |steps| - 1)
        || (OpenByHistory(front, ch) && !(s.ch == ch && (s.Reset? || s.Switch?)))
  {
    var n := |steps| - 1;
    var front := steps[..n];
    if OpenByHistory(steps, ch) && !OpensAt(steps, ch, n) {
      var i :| 0 <= i < |steps| && OpenFrom(steps, ch, i);
      OpensAtPrefix(steps, ch, i);
      assert OpenFrom(front, ch, i);
    }
    if OpensAt(steps, ch, n) {
      assert OpenFrom(steps, ch, n);
    } else if OpenByHistory(front, ch) && !(steps[n].ch == ch && (steps[n].Reset? || steps[n].Switch?)) {
      var i :| 0 <= i < |front| && OpenFrom(front, ch, i);
      OpensAtPrefix(steps, ch, i);
      assert forall j :: i < j < n ==> steps[j] == front[j];
      assert OpenFrom(steps, ch, i);
    }
  }

  lemma HalfOpenFromPrefix(steps: seq<Step>, ch: int)
    requires steps != []
    ensures var s, front := steps[|steps| - 1], steps[..|steps| - 1];
      HalfOpenByHistory(steps, ch) <==>
        s == Switch(ch)
        || (HalfOpenByHistory(front, ch) && !(s.ch == ch && (s.Reset? || s.Success?))
            && !OpensAt(steps, ch, |steps| - 1))
  {
    var n := |steps| - 1;
    var front := steps[..n];
    forall j | 0 <= j < n
      ensures steps[j] == front[j] && OpensAt(front, ch, j) == OpensAt(steps, ch, j)
    {
      OpensAtPrefix(steps, ch, j);
    }
    if HalfOpenByHistory(steps, ch) && steps[n] != Switch(ch) {
      var i :| 0 <= i < |steps| && HalfOpenFrom(steps, ch, i);
      assert HalfOpenFrom(front, ch, i);
    }
    if steps[n] == Switch(ch) {
      assert HalfOpenFrom(steps, ch, n);
    } else if HalfOpenByHistory(front, ch) && !(steps[n].ch == ch && (steps[n].Reset? || steps[n].Success?))
              && !OpensAt(steps, ch, n) {
      var i :| 0 <= i < |front| && HalfOpenFrom(front, ch, i);
      assert HalfOpenFrom(steps, ch, i);
    }
  }

  /** For every interleaving, the state of a channel is determined by its history. */
  lemma {:induction false} StateIsHistory(steps: seq<Step>, ch: int)
    ensures After(steps).breaker.State(ch) == Open <==> OpenByHistory(steps, ch)
    ensures After(steps).breaker.State(ch) == HalfOpen <==> HalfOpenByHistory(steps, ch)
  {
    if steps != [] {
      var front := steps[..|steps| - 1];
      StateIsHistory(front, ch);
      CountIsFailuresSince(steps, ch);
      OpenFromPrefix(steps, ch);
      HalfOpenFromPrefix(steps, ch);
      assert steps[..|steps|] == steps;
    }
  }

  /** A channel that is not open has fewer than five counted failures; an open one has a recorded last failure. */
  ghost predicate Sound(b: Breaker, ch: int) {
    && 0 <= b.Count(ch)
    && (b.State(ch) != Open ==> b.Count(ch) < 5)
    && (b.State(ch) == Open ==> ch in b.lastFailure)
  }

  lemma StepKeepsFacts(w: World, s: Step, ch: int)
    requires Sound(w.breaker, ch)
    ensures Sound(Next(w, s).breaker, ch)
  {
  }

  /** Both facts hold after every interleaving. */
  lemma {:induction false} StateFacts(steps: seq<Step>, ch: int)
    ensures Sound(After(steps).breaker, ch)
  {
    if steps != [] {
      StateFacts(steps[..|steps| - 1], ch);
      StepKeepsFacts(After(steps[..|steps| - 1]), steps[|steps| - 1], ch);
    }
  }

  // ----- When an open channel is let through

  /** The time of the last failure of a channel since its last reset. */
  ghost function LastFailureTime(steps: seq<Step>, ch: int): Option<int> {
    if steps == [] then None
    else
      var s := steps[|steps| - 1];
      if s.Failure? && s.ch == ch then Some(s.now)
      else if s.Reset? && s.ch == ch then None
      else LastFailureTime(steps[..|steps| - 1], ch)
  }

  lemma {:induction false} LastFailureIsLatest(steps: seq<Step>, ch: int)
    ensures var b := After(steps).breaker;
      LastFailureTime(steps, ch) == if ch in b.lastFailure then Some(b.lastFailure[ch]) else None
  {
    if steps != [] {
      LastFailureIsLatest(steps[..|steps| - 1], ch);
    }
  }

  /** The read that decided on a switch: the channel was open and its last failure more than 30 seconds old. */
  ghost predicate CooledDownAt(steps: seq<Step>, ch: int, i: nat)
    requires i < |steps|
  {
    && steps[i].Observe? && steps[i].ch == ch
    && OpenByHistory(steps[..i], ch)
    && LastFailureTime(steps[..i], ch).Some?
    && steps[i].now - LastFailureTime(steps[..i], ch).value > 30_000_000_000
  }

  lemma {:induction false} PendingWasObserved(steps: seq<Step>, ch: int) returns (i: nat)
    requires Run(steps) && ch in After(steps).pending
    ensures i < |steps| && CooledDownAt(steps, ch, i)
  {
    var n := |steps| - 1;
    var front, s := steps[..n], steps[n];
    assert Enabled(After(front), s);
    if s.Observe? && s.ch == ch {
      i := n;
      StateIsHistory(front, ch);
      StateFacts(front, ch);
      LastFailureIsLatest(front, ch);
    } else {
      forall k | 0 <= k < |front|
        ensures Enabled(After(front[..k]), front[k])
      {
        assert front[..k] == steps[..k];
        assert Enabled(After(steps[..k]), steps[k]);
      }
      i := PendingWasObserved(front, ch);
      assert front[..i] == steps[..i];
    }
  }

  /** A channel is switched only after a read that saw it open with its last failure over 30 seconds old. */
  lemma SwitchWasObserved(steps: seq<Step>, n: nat) returns (i: nat)
    requires Run(steps) && n < |steps| && steps[n].Switch?
    ensures i < n && CooledDownAt(steps, steps[n].ch, i)
  {
    var front := steps[..n];
    assert Enabled(After(front), steps[n]);
    forall k | 0 <= k < |front|
      ensures Enabled(After(front[..k]), front[k])
    {
      assert front[..k] == steps[..k];
      assert Enabled(After(steps[..k]), steps[k]);
    }
    i := PendingWasObserved(front, steps[n].ch);
    assert front[..i] == steps[..i];
  }
}
