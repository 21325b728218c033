/**
 The budget gate over whole runs: how far concurrent requests that were all admitted
 within budget can overshoot a limit, and when an alert is sent.
 */
module BudgetGate {
  import opened Calendar
  import opened Budget
  import opened BudgetRuns

  // ----- Overshoot

  /** A budget and the number of requests that were admitted but have not been recorded yet. */
  datatype Gate = Gate(book: Book, inFlight: nat)

  datatype GateStep = Admit | Finish(now: int, record: Record) | ManualReset(now: int, period: Period)

  /** At most `k` requests are in flight, each admitted by the gate and bounded in tokens and cost. */
  ghost predicate Enabled(g: Gate, s: GateStep, k: nat, maxTokens: nat, maxCost: real) {
    match s
    case Admit => WithinBudget(g.book) && g.inFlight < k
    case Finish(_, r) => g.inFlight > 0 && r.input + r.output <= maxTokens && r.cost <= maxCost
    case ManualReset(_, _) => true
  }

  function Next(months: Months, g: Gate, s: GateStep): Gate {
    match s
    case Admit => g.(inFlight := g.inFlight + 1)
    case Finish(now, r) =>
      Gate(UsageRecorded(months, g.book, now, r), if g.inFlight > 0 then g.inFlight - 1 else 0)
    case ManualReset(now, p) => g.(book := UsageReset(months, g.book, now, p))
  }

  function After(months: Months, g: Gate, steps: seq<GateStep>): Gate {
    if steps == [] then g else Next(months, After(months, g, steps[..|steps| - 1]), steps[|steps| - 1])
  }

  ghost predicate Admissible(months: Months, g: Gate, steps: seq<GateStep>, k: nat, maxTokens: nat, maxCost: real) {
    forall i :: 0 <= i < |steps| ==> Enabled(After(months, g, steps[..i]), steps[i], k, maxTokens, maxCost)
  }

  /** The tokens of `n` requests of the same size. */
  function TokensOf(n: nat, each: nat): nat {
    if n == 0 then 0 else TokensOf(n - 1, each) + each
  }

  /** The cost of `n` requests of the same cost. */
  function CostOf(n: nat, each: real): real {
    if n == 0 then 0.0 else CostOf(n - 1, each) + each
  }

  lemma {:induction false} OfIsProduct(n: nat, tokens: nat, cost: real)
    ensures TokensOf(n, tokens) == n * tokens && CostOf(n, cost) == n as real * cost
  {
    if n > 0 {
      OfIsProduct(n - 1, tokens, cost);
      assert n as real * cost == (n - 1) as real * cost + cost;
    }
  }

  /** Usage plus what is still in flight stays below the limit plus `k` maximal requests. */
  ghost predicate Bounded(g: Gate, k: nat, maxTokens: nat, maxCost: real) {
    && g.inFlight <= k
    && (forall p :: TokenLimited(g.book, p) ==>
          g.book.usage[p].tally.total + TokensOf(g.inFlight, maxTokens)
          < g.book.limits[p].tokenLimit + TokensOf(k, maxTokens))
    && (forall p :: UsdLimited(g.book, p) ==>
          g.book.usage[p].tally.spent + CostOf(g.inFlight, maxCost)
          < g.book.limits[p].amountUsd + CostOf(k, maxCost))
  }

  lemma {:induction false} OfMonotone(a: nat, b: nat, tokens: nat, cost: real)
    requires a <= b && cost >= 0.0
    ensures TokensOf(a, tokens) <= TokensOf(b, tokens) && CostOf(a, cost) <= CostOf(b, cost)
  {
    if a < b {
      OfMonotone(a, b - 1, tokens, cost);
    }
  }

  lemma AdmitBounded(g: Gate, k: nat, maxTokens: nat, maxCost: real)
    requires WithinBudget(g.book) && g.inFlight <= k && maxCost >= 0.0
    ensures Bounded(g, k, maxTokens, maxCost)
  {
    OfMonotone(g.inFlight, k, maxTokens, maxCost);
    assert forall p :: UsdLimited(g.book, p) ==> UsdLeft(g.book, p) > 0.0;
    assert forall p :: TokenLimited(g.book, p) ==> TokensLeft(g.book, p) > 0;
  }

  /** What a recorded request does to one period: it adds to the old total, or to a new window. */
  lemma FinishEffect(months: Months, b: Book, now: int, r: Record, p: Period)
    requires p in b.limits && p in UsageRecorded(months, b, now, r).usage
    ensures var b' := UsageRecorded(months, b, now, r);
      && b'.limits == b.limits
      && ((p in b.usage && b'.usage[p].tally == b.usage[p].tally)
          || (p in b.usage && b'.usage[p].tally == Add(b.usage[p].tally, r))
          || b'.usage[p].tally == Add(ZERO, r))
  {
    RecordEffect(months, b, now, r);
  }

  lemma FinishTokens(months: Months, g: Gate, now: int, r: Record, k: nat, maxTokens: nat, maxCost: real, p: Period)
    requires Bounded(g, k, maxTokens, maxCost) && g.inFlight > 0 && r.input + r.output <= maxTokens
    requires TokenLimited(UsageRecorded(months, g.book, now, r), p) && p in g.book.limits
    ensures UsageRecorded(months, g.book, now, r).usage[p].tally.total + TokensOf(g.inFlight - 1, maxTokens)
          < g.book.limits[p].tokenLimit + TokensOf(k, maxTokens)
  {
    FinishEffect(months, g.book, now, r, p);
    OfMonotone(g.inFlight, k, maxTokens, 0.0);
    if p in g.book.usage {
      assert TokenLimited(g.book, p);
    }
  }

  lemma FinishCost(months: Months, g: Gate, now: int, r: Record, k: nat, maxTokens: nat, maxCost: real, p: Period)
    requires Bounded(g, k, maxTokens, maxCost) && g.inFlight > 0 && r.cost <= maxCost && maxCost >= 0.0
    requires UsdLimited(UsageRecorded(months, g.book, now, r), p) && p in g.book.limits
    ensures UsageRecorded(months, g.book, now, r).usage[p].tally.spent + CostOf(g.inFlight - 1, maxCost)
          < g.book.limits[p].amountUsd + CostOf(k, maxCost)
  {
    FinishEffect(months, g.book, now, r, p);
    OfMonotone(g.inFlight, k, 0, maxCost);
    if p in g.book.usage {
      assert UsdLimited(g.book, p);
    }
  }

  lemma FinishBounded(months: Months, g: Gate, now: int, r: Record, k: nat, maxTokens: nat, maxCost: real)
    requires Bounded(g, k, maxTokens, maxCost) && maxCost >= 0.0
    requires g.inFlight > 0 && r.input + r.output <= maxTokens && r.cost <= maxCost
    ensures Bounded(Next(months, g, Finish(now, r)), k, maxTokens, maxCost)
  {
    var g' := Next(months, g, Finish(now, r));
    assert g'.book.limits == g.book.limits by { RecordEffect(months, g.book, now, r); }
    forall p | TokenLimited(g'.book, p)
      ensures g'.book.usage[p].tally.total + TokensOf(g'.inFlight, maxTokens)
           < g'.book.limits[p].tokenLimit + TokensOf(k, maxTokens)
    {
      FinishTokens(months, g, now, r, k, maxTokens, maxCost, p);
    }
    forall p | UsdLimited(g'.book, p)
      ensures g'.book.usage[p].tally.spent + CostOf(g'.inFlight, maxCost)
           < g'.book.limits[p].amountUsd + CostOf(k, maxCost)
    {
      FinishCost(months, g, now, r, k, maxTokens, maxCost, p);
    }
  }

  lemma ResetBounded(months: Months, g: Gate, now: int, q: Period, k: nat, maxTokens: nat, maxCost: real)
    requires Bounded(g, k, maxTokens, maxCost) && maxCost >= 0.0
    ensures Bounded(Next(months, g, ManualReset(now, q)), k, maxTokens, maxCost)
  {
    var b' := UsageReset(months, g.book, now, q);
    var tokens, tokenBound := TokensOf(g.inFlight, maxTokens), TokensOf(k, maxTokens);
    var cost, costBound := CostOf(g.inFlight, maxCost), CostOf(k, maxCost);
    assert tokens <= tokenBound && cost <= costBound by { OfMonotone(g.inFlight, k, maxTokens, maxCost); }
    forall p | TokenLimited(b', p)
      ensures b'.usage[p].tally.total + tokens < b'.limits[p].tokenLimit + tokenBound
    {
      assert p != q ==> TokenLimited(g.book, p);
    }
    forall p | UsdLimited(b', p)
      ensures b'.usage[p].tally.spent + cost < b'.limits[p].amountUsd + costBound
    {
      assert p != q ==> UsdLimited(g.book, p);
    }
  }

  lemma {:induction false} AlwaysBounded(
    months: Months, b: Book, steps: seq<GateStep>, k: nat, maxTokens: nat, maxCost: real)
    requires WithinBudget(b) && maxCost >= 0.0
    requires Admissible(months, Gate(b, 0), steps, k, maxTokens, maxCost)
    ensures Bounded(After(months, Gate(b, 0), steps), k, maxTokens, maxCost)
  {
    if steps == [] {
      AdmitBounded(Gate(b, 0), k, maxTokens, maxCost);
    } else {
      var front, s := steps[..|steps| - 1], steps[|steps| - 1];
      assert forall i :: 0 <= i < |front| ==> front[i] == steps[i] && front[..i] == steps[..i];
      AlwaysBounded(months, b, front, k, maxTokens, maxCost);
      var g := After(months, Gate(b, 0), front);
      assert Enabled(g, s, k, maxTokens, maxCost);
      match s
      case Admit => AdmitBounded(Next(months, g, s), k, maxTokens, maxCost);
      case Finish(now, r) => FinishBounded(months, g, now, r, k, maxTokens, maxCost);
      case ManualReset(now, p) => ResetBounded(months, g, now, p, k, maxTokens, maxCost);
    }
  }

  /**
   Start within budget and let at most `k` admitted requests be in flight at any time.
   Then no run of admissions, recordings, window rollovers and manual resets brings a limited
   period to its limit plus `k` maximal requests; with one request at a time that is one request.
   */
  lemma OvershootIsBounded(
    months: Months, b: Book, steps: seq<GateStep>, k: nat, maxTokens: nat, maxCost: real, p: Period)
    requires WithinBudget(b) && maxCost >= 0.0
    requires Admissible(months, Gate(b, 0), steps, k, maxTokens, maxCost)
    ensures var b' := After(months, Gate(b, 0), steps).book;
      && (TokenLimited(b', p) ==> b'.usage[p].tally.total < b'.limits[p].tokenLimit + k * maxTokens)
      && (UsdLimited(b', p) ==> b'.usage[p].tally.spent < b'.limits[p].amountUsd + k as real * maxCost)
  {
    AlwaysBounded(months, b, steps, k, maxTokens, maxCost);
    OfIsProduct(k, maxTokens, maxCost);
    OfMonotone(0, After(months, Gate(b, 0), steps).inFlight, maxTokens, maxCost);
  }

  // ----- Alerts

  /** The alert is due when usage has reached the threshold share of the dollar limit, or else of the token limit. */
  lemma AlertDueMeans(limit: Limit, t: Tally)
    ensures AlertDue(limit, t) <==>
      if limit.amountUsd > 0.0 then t.spent >= limit.alertThreshold * limit.amountUsd
      else if limit.tokenLimit > 0 then t.total as real >= limit.alertThreshold * limit.tokenLimit as real
      else limit.alertThreshold <= 0.0
  {
  }

  /** The period has a limit and has reached its threshold. */
  predicate Due(b: Book, p: Period) {
    p in b.limits && p in b.usage && AlertDue(b.limits[p], b.usage[p].tally)
  }

  /** Event `i` is a record that leaves the period at its threshold. */
  ghost predicate Raises(months: Months, es: seq<Event>, p: Period, i: nat)
    requires i < |es|
  {
    es[i].Use? && Calendrical(p) && Due(Run(months, es[..i + 1]), p)
  }

  /** Event `j` resets the period, or is a record that finds its window passed. */
  ghost predicate Clears(months: Months, es: seq<Event>, p: Period, j: nat)
    requires j < |es|
  {
    match es[j]
    case Reset(_, q) => q == p
    case Use(now, _) => Calendrical(p) && Expired(Run(months, es[..j]), p, now)
    case SetLimit(_, _, _) => false
  }

  ghost predicate RaisedSince(months: Months, es: seq<Event>, p: Period, i: nat)
    requires i < |es|
  {
    Raises(months, es, p, i) && forall j :: i < j < |es| ==> !Clears(months, es, p, j)
  }

  ghost predicate AlertStands(months: Months, es: seq<Event>, p: Period) {
    exists i :: 0 <= i < |es| && RaisedSince(months, es, p, i)
  }

  lemma StandsNext(months: Months, es: seq<Event>, p: Period)
    requires es != []
    ensures var n := |es| - 1;
      AlertStands(months, es, p) <==>
        Raises(months, es, p, n) || (AlertStands(months, es[..n], p) && !Clears(months, es, p, n))
  {
    hide Run, Due;
    var n := |es| - 1;
    var front := es[..n];
    forall i | 0 <= i < n
      ensures Raises(months, front, p, i) == Raises(months, es, p, i)
      ensures Clears(months, front, p, i) == Clears(months, es, p, i)
    {
      assert front[..i + 1] == es[..i + 1] && front[..i] == es[..i];
    }
    hide Raises, Clears;
    if i :| 0 <= i < |es| && RaisedSince(months, es, p, i) && i != n {
      assert RaisedSince(months, front, p, i);
    }
    if Raises(months, es, p, n) {
      assert RaisedSince(months, es, p, n);
    }
    if i :| 0 <= i < n && RaisedSince(months, front, p, i) && !Clears(months, es, p, n) {
      assert RaisedSince(months, es, p, i);
    }
  }

  /**
   In every reachable state, whatever the clock, the limits, the resets and the signs: an alert is
   marked as sent exactly if some record left the period at the threshold of the limit then in force,
   and the period has neither been reset nor rolled over since.
   */
  lemma {:induction false} AlertIsHistory(months: Months, es: seq<Event>, p: Period)
    ensures p in Run(months, es).alerts <==> AlertStands(months, es, p)
  {
    if es != [] {
      hide Run, AlertStands;
      AlertIsHistory(months, es[..|es| - 1], p);
      StandsNext(months, es, p);
      AlertNext(months, es, p);
    } else {
      assert !AlertStands(months, es, p);
    }
  }

  lemma AlertNext(months: Months, es: seq<Event>, p: Period)
    requires es != []
    ensures var n := |es| - 1;
      p in Run(months, es).alerts <==>
        Raises(months, es, p, n) || (p in Run(months, es[..n]).alerts && !Clears(months, es, p, n))
  {
    hide UsageRecorded, AlertDue;
    var n := |es| - 1;
    var b, e := Run(months, es[..n]), es[n];
    assert es[..n + 1] == es;
    if e.Use? {
      RecordEffect(months, b, e.now, e.record);
      AlertEffect(months, b, e.now, e.record, p);
    }
  }

  // ----- When the alerts are up to date

  ghost predicate Charged(b: Book, p: Period) {
    p in b.usage && b.usage[p].tally.requests > 0
  }

  /** Every limited period with records has sent its alert exactly if its usage has reached the threshold. */
  ghost predicate AlertsExact(b: Book) {
    forall p :: p in b.limits && Charged(b, p) ==> (p in b.alerts <==> Due(b, p))
  }

  /** Alerts are sent for limited periods with records only. */
  ghost predicate AlertsGrounded(b: Book) {
    && (forall p :: p in b.alerts ==> p in b.limits && Charged(b, p))
    && (forall p :: p in b.usage ==> b.usage[p].tally.requests >= 0)
  }

  lemma StepGrounded(months: Months, b: Book, e: Event)
    requires AlertsGrounded(b)
    ensures AlertsGrounded(Step(months, b, e))
  {
    hide UsageRecorded;
    if e.Use? {
      RecordEffect(months, b, e.now, e.record);
      forall p
        ensures p in Step(months, b, e).alerts ==> p in b.limits && Charged(Step(months, b, e), p)
        ensures p in Step(months, b, e).usage ==> Step(months, b, e).usage[p].tally.requests >= 0
      {
        RecordGrounded(months, b, e.now, e.record, p);
      }
    }
  }

  lemma RecordGrounded(months: Months, b: Book, now: int, r: Record, p: Period)
    requires AlertsGrounded(b)
    ensures var b' := UsageRecorded(months, b, now, r);
      && (p in b'.alerts ==> p in b'.limits && Charged(b', p))
      && (p in b'.usage ==> b'.usage[p].tally.requests >= 0)
  {
    hide UsageRecorded, AlertDue;
    RecordEffect(months, b, now, r);
    AlertEffect(months, b, now, r, p);
    if Calendrical(p) {
      CurrentCounts(months, b, p, now);
    }
  }

  lemma CurrentCounts(months: Months, b: Book, p: Period, now: int)
    requires p in b.usage ==> b.usage[p].tally.requests >= 0
    ensures Current(months, b, p, now).tally.requests >= 0
  {
  }

  lemma {:induction false} AlwaysGrounded(months: Months, es: seq<Event>)
    ensures AlertsGrounded(Run(months, es))
  {
    if es != [] {
      hide Step, AlertsGrounded;
      AlwaysGrounded(months, es[..|es| - 1]);
      StepGrounded(months, Run(months, es[..|es| - 1]), es[|es| - 1]);
    } else {
      assert Run(months, es) == EMPTY;
    }
  }

  /**
   A new limit for a period with records does not change whether the threshold is reached, and a
   record does not bring a period that has reached it back below.
   */
  ghost predicate KeepsDue(b: Book, e: Event) {
    match e
    case SetLimit(_, p, limit) => Charged(b, p) ==> (AlertDue(limit, b.usage[p].tally) <==> Due(b, p))
    case Use(now, r) =>
      forall p :: Calendrical(p) && Charged(b, p) && Due(b, p) && !Expired(b, p, now) ==>
        AlertDue(b.limits[p], Add(b.usage[p].tally, r))
    case Reset(_, _) => true
  }

  lemma RecordKeepsExactIff(months: Months, b: Book, now: int, r: Record)
    requires AlertsGrounded(b) && AlertsExact(b)
    ensures AlertsExact(UsageRecorded(months, b, now, r)) <==> KeepsDue(b, Use(now, r))
  {
    hide UsageRecorded, AlertDue, Add;
    var b' := UsageRecorded(months, b, now, r);
    RecordEffect(months, b, now, r);
    forall p
      ensures p in b'.alerts <==>
        if Calendrical(p) then (p in b.alerts && !Expired(b, p, now)) || Due(b', p) else p in b.alerts
    {
      AlertEffect(months, b, now, r, p);
    }
    if AlertsExact(b') {
      forall p | Calendrical(p) && Charged(b, p) && Due(b, p) && !Expired(b, p, now)
        ensures AlertDue(b.limits[p], Add(b.usage[p].tally, r))
      {
        assert p in b.alerts && p in b'.alerts;
        ChargedAgain(b, b', p, r);
      }
    }
    if KeepsDue(b, Use(now, r)) {
      forall p | p in b'.limits && Charged(b', p)
        ensures p in b'.alerts <==> Due(b', p)
      {
        if Calendrical(p) && p in b.alerts && !Expired(b, p, now) {
          assert Charged(b, p) && Due(b, p);
        }
      }
    }
  }

  lemma ChargedAgain(b: Book, b': Book, p: Period, r: Record)
    requires Charged(b, p) && p in b'.usage && b'.usage[p] == Charge(b.usage[p], r)
    ensures Charged(b', p) && b'.usage[p].tally == Add(b.usage[p].tally, r)
  {
  }

  lemma StepKeepsExactIff(months: Months, b: Book, e: Event)
    requires AlertsGrounded(b) && AlertsExact(b)
    ensures AlertsExact(Step(months, b, e)) <==> KeepsDue(b, e)
  {
    hide UsageRecorded, AlertDue;
    match e
    case Use(now, r) => RecordKeepsExactIff(months, b, now, r);
    case Reset(_, _) =>
    case SetLimit(_, p, limit) =>
      var b' := Step(months, b, e);
      if Charged(b, p) {
        assert Charged(b', p) && (Due(b', p) <==> AlertDue(limit, b.usage[p].tally));
      }
      assert forall q :: q != p ==> (Charged(b', q) <==> Charged(b, q)) && (Due(b', q) <==> Due(b, q));
  }

  /** Alerts are up to date after every event of the run. */
  ghost predicate AlwaysExact(months: Months, es: seq<Event>) {
    forall n :: 0 <= n <= |es| ==> AlertsExact(Run(months, es[..n]))
  }

  ghost predicate AlwaysKeepsDue(months: Months, es: seq<Event>) {
    forall i :: 0 <= i < |es| ==> KeepsDue(Run(months, es[..i]), es[i])
  }

  lemma ExactNext(months: Months, es: seq<Event>, i: nat)
    requires i < |es| && AlertsExact(Run(months, es[..i]))
    ensures AlertsExact(Run(months, es[..i + 1])) <==> KeepsDue(Run(months, es[..i]), es[i])
  {
    hide Step, AlertsExact, KeepsDue;
    assert es[..i + 1][..i] == es[..i];
    AlwaysGrounded(months, es[..i]);
    StepKeepsExactIff(months, Run(months, es[..i]), es[i]);
  }

  lemma {:induction false} ExactUpTo(months: Months, es: seq<Event>, n: nat)
    requires AlwaysKeepsDue(months, es) && n <= |es|
    ensures AlertsExact(Run(months, es[..n]))
  {
    if n > 0 {
      ExactUpTo(months, es, n - 1);
      ExactNext(months, es, n - 1);
    } else {
      assert Run(months, es[..0]) == EMPTY;
    }
  }

  /**
   Throughout a run, across rollovers and manual resets, the used periods that have sent their alert
   are those that have reached their threshold, exactly when no change of a limit and no record with
   negative amounts moves a used period over its threshold by itself.
   */
  lemma AlertsExactIff(months: Months, es: seq<Event>)
    ensures AlwaysExact(months, es) <==> AlwaysKeepsDue(months, es)
  {
    hide Run, AlertsExact, KeepsDue;
    if AlwaysKeepsDue(months, es) {
      forall n | 0 <= n <= |es|
        ensures AlertsExact(Run(months, es[..n]))
      {
        ExactUpTo(months, es, n);
      }
    }
    if AlwaysExact(months, es) {
      forall i | 0 <= i < |es|
        ensures KeepsDue(Run(months, es[..i]), es[i])
      {
        ExactNext(months, es, i);
      }
    }
  }

  lemma ShareMonotone(a: real, b: real, whole: real)
    requires a <= b && whole > 0.0
    ensures a / whole * 100.0 <= b / whole * 100.0
  {
  }

  lemma AlertStaysDue(limit: Limit, t: Tally, r: Record)
    requires AlertDue(limit, t) && NonNegative(r)
    ensures AlertDue(limit, Add(t, r))
  {
    if limit.amountUsd > 0.0 {
      ShareMonotone(t.spent, t.spent + r.cost, limit.amountUsd);
    } else if limit.tokenLimit > 0 {
      ShareMonotone(t.total as real, Add(t, r).total as real, limit.tokenLimit as real);
    }
  }

  /** A limit is only set while its period has no records. */
  ghost predicate LimitsBeforeUse(months: Months, es: seq<Event>) {
    forall i :: 0 <= i < |es| && es[i].SetLimit? ==> !Charged(Run(months, es[..i]), es[i].period)
  }

  /** In particular when limits are set before use and records are not negative. */
  lemma AlertsAreExact(months: Months, es: seq<Event>)
    requires LimitsBeforeUse(months, es)
    requires forall i :: 0 <= i < |es| && es[i].Use? ==> NonNegative(es[i].record)
    ensures AlwaysExact(months, es)
  {
    hide Run, AlertDue, NonNegative, Add;
    forall i | 0 <= i < |es|
      ensures KeepsDue(Run(months, es[..i]), es[i])
    {
      var b := Run(months, es[..i]);
      if es[i].Use? {
        forall p | Calendrical(p) && Charged(b, p) && Due(b, p)
          ensures AlertDue(b.limits[p], Add(b.usage[p].tally, es[i].record))
        {
          AlertStaysDue(b.limits[p], b.usage[p].tally, es[i].record);
        }
      }
    }
    AlertsExactIff(months, es);
  }

  /** One dollar spent, then a daily limit of one dollar: the threshold is reached, and no alert is sent. */
  lemma LateLimitExample(months: Months, now: int)
    ensures var es := [Use(now, Record("m", "k", 0, 0, 1.0)), SetLimit(now, Daily, Limit(1.0, 0, 0.8))];
      Due(Run(months, es), Daily) && Daily !in Run(months, es).alerts
  {
    var r, limit := Record("m", "k", 0, 0, 1.0), Limit(1.0, 0, 0.8);
    var es := [Use(now, r), SetLimit(now, Daily, limit)];
    var b := UsageRecorded(months, EMPTY, now, r);
    assert Run(months, es) == LimitSet(months, b, now, Daily, limit) by {
      hide UsageRecorded;
      assert es[..1] == [Use(now, r)] && [Use(now, r)][..0] == [];
      assert Run(months, [Use(now, r)]) == Step(months, Run(months, []), Use(now, r));
    }
    hide UsageRecorded;
    RecordEffect(months, EMPTY, now, r);
    AlertEffect(months, EMPTY, now, r, Daily);
    AlertDueMeans(limit, b.usage[Daily].tally);
  }
}
