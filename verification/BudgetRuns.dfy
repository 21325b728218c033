/**
 Properties of whole runs of the budget tracker: conservation between totals and
 breakdowns, what a period's usage means in terms of the records made, and nesting of the
 daily window in the longer ones.
 */
module BudgetRuns {
  import opened Calendar
  import opened Budget
  import opened Text

  datatype Event =
    | SetLimit(now: int, period: Period, limit: Limit)
    | Use(now: int, record: Record)
    | Reset(now: int, period: Period)

  function Step(months: Months, b: Book, e: Event): Book {
    match e
    case SetLimit(now, p, limit) => LimitSet(months, b, now, p, limit)
    case Use(now, r) => UsageRecorded(months, b, now, r)
    case Reset(now, p) => UsageReset(months, b, now, p)
  }

  function Run(months: Months, es: seq<Event>): Book {
    if es == [] then EMPTY else Step(months, Run(months, es[..|es| - 1]), es[|es| - 1])
  }

  /** A record charges the three calendar periods independently, and leaves limits and other periods alone. */
  lemma RecordEffect(months: Months, b: Book, now: int, r: Record)
    ensures var b' := UsageRecorded(months, b, now, r);
      && b'.limits == b.limits
      && b'.usage.Keys == b.usage.Keys + {Daily, Weekly, Monthly}
      && (forall p :: Calendrical(p) ==> b'.usage[p] == Charge(Current(months, b, p, now), r))
      && (forall p :: p in b.usage && !Calendrical(p) ==> b'.usage[p] == b.usage[p])
  {
    var b1 := RecordIn(months, b, now, r, Daily);
    var b2 := RecordIn(months, b1, now, r, Weekly);
    RecordInEffect(months, b, now, r, Daily);
    RecordInEffect(months, b1, now, r, Weekly);
    RecordInEffect(months, b2, now, r, Monthly);
  }

  lemma RecordInEffect(months: Months, b: Book, now: int, r: Record, p: Period)
    ensures var b' := RecordIn(months, b, now, r, p);
      b'.limits == b.limits && b'.usage == b.usage[p := Charge(Current(months, b, p, now), r)]
  {
  }

  /** An alert stays sent unless the window was passed, and is sent when a charged period has reached its threshold. */
  lemma AlertEffect(months: Months, b: Book, now: int, r: Record, p: Period)
    ensures var b' := UsageRecorded(months, b, now, r);
      p in b'.alerts <==>
        if Calendrical(p)
        then (p in b.alerts && !Expired(b, p, now))
             || (p in b.limits && p in b'.usage && AlertDue(b.limits[p], b'.usage[p].tally))
        else p in b.alerts
  {
    hide AlertDue;
    var b1 := RecordIn(months, b, now, r, Daily);
    var b2 := RecordIn(months, b1, now, r, Weekly);
    RecordInEffect(months, b, now, r, Daily);
    RecordInEffect(months, b1, now, r, Weekly);
    RecordInEffect(months, b2, now, r, Monthly);
  }

  // ----- Conservation

  function Plus(a: Tally, b: Tally): Tally {
    Tally(a.spent + b.spent, a.input + b.input, a.output + b.output, a.total + b.total, a.requests + b.requests)
  }

  lemma PlusSwap(a: Tally, b: Tally, c: Tally)
    ensures Plus(a, Plus(b, c)) == Plus(b, Plus(a, c))
  {
  }

  ghost function SumOf(m: map<string, Tally>): Tally {
    if m == map[] then ZERO
    else
      var k :| k in m;
      Plus(m[k], SumOf(m - {k}))
  }

  lemma {:induction false} SumWithout(m: map<string, Tally>, k: string)
    requires k in m
    ensures SumOf(m) == Plus(m[k], SumOf(m - {k}))
    decreases |m|
  {
    var c :| c in m && SumOf(m) == Plus(m[c], SumOf(m - {c}));
    if c != k {
      var rest := m - {c} - {k};
      assert rest == m - {k} - {c};
      SumWithout(m - {c}, k);
      SumWithout(m - {k}, c);
      assert SumOf(m - {c}) == Plus(m[k], SumOf(rest));
      assert SumOf(m - {k}) == Plus(m[c], SumOf(rest));
      PlusSwap(m[c], m[k], SumOf(rest));
    }
  }

  lemma SumAfterBump(m: map<string, Tally>, k: string, r: Record)
    ensures SumOf(Bump(m, k, r)) == Add(SumOf(m), r)
  {
    var m' := Bump(m, k, r);
    SumWithout(m', k);
    assert m' - {k} == m - {k};
    if k in m {
      SumWithout(m, k);
    } else {
      assert m - {k} == m;
    }
  }

  /** The totals are the sums of both breakdowns, and total tokens are input plus output. */
  ghost predicate Balanced(u: Usage) {
    && u.tally == SumOf(u.byModel)
    && u.tally == SumOf(u.byKey)
    && u.tally.total == u.tally.input + u.tally.output
  }

  lemma ChargeBalanced(u: Usage, r: Record)
    requires Balanced(u)
    ensures Balanced(Charge(u, r))
  {
    SumAfterBump(u.byModel, r.model, r);
    SumAfterBump(u.byKey, r.apiKey, r);
  }

  lemma StepBalanced(months: Months, b: Book, e: Event, p: Period)
    requires p in b.usage ==> Balanced(b.usage[p])
    requires p in Step(months, b, e).usage
    ensures Balanced(Step(months, b, e).usage[p])
  {
    hide UsageRecorded;
    match e
    case SetLimit(_, _, _) =>
    case Reset(_, _) =>
    case Use(now, r) =>
      RecordEffect(months, b, now, r);
      if Calendrical(p) {
        ChargeBalanced(Current(months, b, p, now), r);
      }
  }

  /** In every reachable state every period is balanced, whatever the clock does. */
  lemma {:induction false} AlwaysBalanced(months: Months, es: seq<Event>, p: Period)
    requires p in Run(months, es).usage
    ensures Balanced(Run(months, es).usage[p])
  {
    var before := Run(months, es[..|es| - 1]);
    if p in before.usage {
      AlwaysBalanced(months, es[..|es| - 1], p);
    }
    StepBalanced(months, before, es[|es| - 1], p);
  }

  // ----- Limits

  /** The limit a period was last given. */
  function LatestLimit(es: seq<Event>, p: Period): Option<Limit> {
    if es == [] then None
    else if es[|es| - 1].SetLimit? && es[|es| - 1].period == p then Some(es[|es| - 1].limit)
    else LatestLimit(es[..|es| - 1], p)
  }

  /** In every reachable state the limits are the latest ones set, and each has a usage the gate can check. */
  lemma {:induction false} LimitsAreGated(months: Months, es: seq<Event>, p: Period)
    ensures var b := Run(months, es);
      LatestLimit(es, p) == if p in b.limits then Some(b.limits[p]) else None
    ensures p in Run(months, es).limits ==> p in Run(months, es).usage
  {
    if es != [] {
      var front, e := es[..|es| - 1], es[|es| - 1];
      LimitsAreGated(months, front, p);
      if e.Use? {
        RecordEffect(months, Run(months, front), e.now, e.record);
      }
    }
  }

  // ----- What a usage record means

  function TotalCost(rs: seq<Record>): real {
    if rs == [] then 0.0 else TotalCost(rs[..|rs| - 1]) + rs[|rs| - 1].cost
  }

  function TotalInput(rs: seq<Record>): int {
    if rs == [] then 0 else TotalInput(rs[..|rs| - 1]) + rs[|rs| - 1].input
  }

  function TotalOutput(rs: seq<Record>): int {
    if rs == [] then 0 else TotalOutput(rs[..|rs| - 1]) + rs[|rs| - 1].output
  }

  /** The tally of some records, each figure summed up on its own. */
  function Total(rs: seq<Record>): Tally {
    Tally(TotalCost(rs), TotalInput(rs), TotalOutput(rs), TotalInput(rs) + TotalOutput(rs), |rs|)
  }

  lemma TotalOneMore(rs: seq<Record>, r: Record)
    ensures Total(rs + [r]) == Add(Total(rs), r)
  {
  }

  function ModelOf(r: Record): string { r.model }
  function KeyOf(r: Record): string { r.apiKey }

  function Select(rs: seq<Record>, key: Record -> string, k: string): seq<Record> {
    if rs == [] then []
    else Select(rs[..|rs| - 1], key, k) + if key(rs[|rs| - 1]) == k then [rs[|rs| - 1]] else []
  }

  /** `m` has an entry for exactly the keys that occur, each the total of that key's records. */
  ghost predicate Breakdown(m: map<string, Tally>, rs: seq<Record>, key: Record -> string) {
    && (forall k :: k in m <==> Select(rs, key, k) != [])
    && (forall k :: k in m ==> m[k] == Total(Select(rs, key, k)))
  }

  ghost predicate Accounts(u: Usage, rs: seq<Record>) {
    u.tally == Total(rs) && Breakdown(u.byModel, rs, ModelOf) && Breakdown(u.byKey, rs, KeyOf)
  }

  lemma BumpBreakdown(m: map<string, Tally>, rs: seq<Record>, key: Record -> string, r: Record)
    requires Breakdown(m, rs, key)
    ensures Breakdown(Bump(m, key(r), r), rs + [r], key)
  {
    var all := rs + [r];
    assert all[..|all| - 1] == rs;
    var m' := Bump(m, key(r), r);
    forall k
      ensures k in m' <==> Select(all, key, k) != []
      ensures k in m' ==> m'[k] == Total(Select(all, key, k))
    {
      var before := Select(rs, key, k);
      if k == key(r) {
        assert Select(all, key, k) == before + [r];
        TotalOneMore(before, r);
      } else {
        assert Select(all, key, k) == before;
      }
    }
  }

  lemma ChargeAccounts(u: Usage, rs: seq<Record>, r: Record)
    requires Accounts(u, rs)
    ensures Accounts(Charge(u, r), rs + [r])
  {
    TotalOneMore(rs, r);
    BumpBreakdown(u.byModel, rs, ModelOf, r);
    BumpBreakdown(u.byKey, rs, KeyOf, r);
  }

  /** The records made in the window of period `p` that contains time `t`. */
  function RecordsInWindow(months: Months, es: seq<Event>, p: Period, t: int): seq<Record> {
    if es == [] then []
    else
      var e := es[|es| - 1];
      RecordsInWindow(months, es[..|es| - 1], p, t)
      + if e.Use? && WindowStart(months, p, e.now) == WindowStart(months, p, t) then [e.record] else []
  }

  /** The clock never goes back. */
  ghost predicate Chronological(es: seq<Event>) {
    forall i, j :: 0 <= i < j < |es| ==> es[i].now <= es[j].now
  }

  /** No manual reset, and no record at the very instant a day ends. */
  ghost predicate Ordinary(es: seq<Event>) {
    forall i :: 0 <= i < |es| ==> !es[i].Reset? && (es[i].Use? ==> !Midnight(es[i].now))
  }

  ghost predicate Used(es: seq<Event>) {
    exists i :: 0 <= i < |es| && es[i].Use?
  }

  /** The time of the latest record. */
  ghost function LastUse(es: seq<Event>): int
    requires Used(es)
  {
    if es[|es| - 1].Use? then es[|es| - 1].now else LastUse(es[..|es| - 1])
  }

  lemma {:induction false} LastUseIsLatest(es: seq<Event>, i: nat)
    requires Chronological(es) && Used(es) && i < |es|
    ensures es[i].Use? ==> es[i].now <= LastUse(es)
    ensures LastUse(es) <= es[|es| - 1].now
  {
    if !es[|es| - 1].Use? {
      var front := es[..|es| - 1];
      var j :| 0 <= j < |es| && es[j].Use?;
      assert front[j].Use?;
      LastUseIsLatest(front, if i < |front| then i else 0);
    }
  }

  /** Records all made before a window starts are not in it. */
  lemma {:induction false} EarlierRecordsOutside(months: Months, es: seq<Event>, p: Period, t: int)
    requires months.Valid() && Calendrical(p)
    requires forall i :: 0 <= i < |es| && es[i].Use? ==> es[i].now < WindowStart(months, p, t)
    ensures RecordsInWindow(months, es, p, t) == []
  {
    if es != [] {
      EarlierRecordsOutside(months, es[..|es| - 1], p, t);
      if es[|es| - 1].Use? {
        WindowContains(months, p, es[|es| - 1].now);
      }
    }
  }

  lemma {:induction false} SameWindowSameRecords(months: Months, es: seq<Event>, p: Period, t: int, u: int)
    requires WindowStart(months, p, t) == WindowStart(months, p, u)
    ensures RecordsInWindow(months, es, p, t) == RecordsInWindow(months, es, p, u)
  {
    if es != [] {
      SameWindowSameRecords(months, es[..|es| - 1], p, t, u);
    }
  }

  ghost predicate WindowOf(months: Months, u: Usage, p: Period, t: int) {
    u.start == WindowStart(months, p, t) && u.end == WindowEnd(months, p, t)
  }

  /** Before the first record a period is absent or empty, with the window of an earlier `SetLimit`. */
  ghost predicate Unused(months: Months, b: Book, p: Period, es: seq<Event>) {
    p in b.usage ==>
      && Accounts(b.usage[p], [])
      && exists i :: 0 <= i < |es| && WindowOf(months, b.usage[p], p, es[i].now)
  }

  ghost predicate UsageMeaning(months: Months, b: Book, p: Period, es: seq<Event>) {
    if Used(es)
    then p in b.usage && WindowOf(months, b.usage[p], p, LastUse(es))
         && Accounts(b.usage[p], RecordsInWindow(months, es, p, LastUse(es)))
    else Unused(months, b, p, es)
  }

  /** Charging a record to the current window, when that window is the one of an earlier time `t`. */
  lemma ChargeInWindow(months: Months, b: Book, p: Period, es: seq<Event>, t: int, now: int, r: Record)
    requires months.Valid() && Calendrical(p) && t <= now
    requires p in b.usage && WindowOf(months, b.usage[p], p, t) && now != b.usage[p].end
    requires Accounts(b.usage[p], RecordsInWindow(months, es, p, t))
    requires forall i :: 0 <= i < |es| && es[i].Use? ==> es[i].now <= t
    ensures WindowOf(months, Current(months, b, p, now), p, now)
    ensures Accounts(Current(months, b, p, now), RecordsInWindow(months, es, p, now))
  {
    var end := WindowEnd(months, p, t);
    if now > end {
      LaterWindow(months, p, t, now);
      EarlierRecordsOutside(months, es, p, now);
    } else {
      StillInWindow(months, p, t, now);
      SameWindowSameRecords(months, es, p, t, now);
    }
  }

  lemma LaterWindow(months: Months, p: Period, t: int, now: int)
    requires months.Valid() && Calendrical(p) && now > WindowEnd(months, p, t)
    ensures t < WindowStart(months, p, now)
  {
    WindowContains(months, p, t);
    WindowContains(months, p, now);
    WindowPartition(months, p, t, now);
    WindowPartition(months, p, now, t);
  }

  lemma StillInWindow(months: Months, p: Period, t: int, now: int)
    requires months.Valid() && Calendrical(p) && t <= now < WindowEnd(months, p, t)
    ensures WindowStart(months, p, now) == WindowStart(months, p, t)
    ensures WindowEnd(months, p, now) == WindowEnd(months, p, t)
  {
    WindowContains(months, p, t);
    WindowPartition(months, p, t, now);
  }

  lemma NoRecords(months: Months, es: seq<Event>, p: Period, t: int)
    requires !Used(es)
    ensures RecordsInWindow(months, es, p, t) == []
  {
  }

  /** The record arrives exactly when the stored window ends: the window is over, but not passed. */
  predicate AtWindowEnd(b: Book, p: Period, now: int) {
    p in b.usage && now == b.usage[p].end
  }

  /** The usage a new record is charged to holds exactly the earlier records of the record's window. */
  lemma CurrentMeaning(months: Months, b: Book, p: Period, es: seq<Event>, now: int, r: Record)
    requires months.Valid() && Calendrical(p) && !AtWindowEnd(b, p, now)
    requires Chronological(es) && (forall i :: 0 <= i < |es| ==> es[i].now <= now)
    requires UsageMeaning(months, b, p, es)
    ensures WindowOf(months, Current(months, b, p, now), p, now)
    ensures Accounts(Current(months, b, p, now), RecordsInWindow(months, es, p, now))
  {
    if Used(es) {
      forall i | 0 <= i < |es| && es[i].Use?
        ensures es[i].now <= LastUse(es)
      {
        LastUseIsLatest(es, i);
      }
      LastUseIsLatest(es, 0);
      ChargeInWindow(months, b, p, es, LastUse(es), now, r);
    } else {
      NoRecords(months, es, p, now);
      if p in b.usage {
        var i :| 0 <= i < |es| && WindowOf(months, b.usage[p], p, es[i].now);
        NoRecords(months, es, p, es[i].now);
        ChargeInWindow(months, b, p, es, es[i].now, now, r);
      }
    }
  }

  /** A record keeps the meaning of a period exactly when it does not arrive at the end of its window. */
  lemma UseKeepsMeaningIff(months: Months, b: Book, p: Period, es: seq<Event>)
    requires months.Valid() && Calendrical(p) && Chronological(es)
    requires es != [] && es[|es| - 1].Use?
    requires UsageMeaning(months, b, p, es[..|es| - 1])
    ensures UsageMeaning(months, Step(months, b, es[|es| - 1]), p, es) <==> !AtWindowEnd(b, p, es[|es| - 1].now)
  {
    hide UsageRecorded, Accounts;
    var front, e := es[..|es| - 1], es[|es| - 1];
    assert Used(es) && LastUse(es) == e.now;
    RecordEffect(months, b, e.now, e.record);
    if AtWindowEnd(b, p, e.now) {
      WindowContains(months, p, e.now);
    } else {
      assert forall i :: 0 <= i < |front| ==> front[i] == es[i];
      CurrentMeaning(months, b, p, front, e.now, e.record);
      var rs := RecordsInWindow(months, front, p, e.now);
      ChargeAccounts(Current(months, b, p, e.now), rs, e.record);
      assert RecordsInWindow(months, es, p, e.now) == rs + [e.record];
    }
  }

  ghost predicate NoResets(es: seq<Event>) {
    forall i :: 0 <= i < |es| ==> !es[i].Reset?
  }

  ghost predicate NoneAtWindowEnd(months: Months, es: seq<Event>, p: Period) {
    forall i :: 0 <= i < |es| && es[i].Use? ==> !AtWindowEnd(Run(months, es[..i]), p, es[i].now)
  }

  /** The period means what it should after every event of the run. */
  ghost predicate AlwaysMeans(months: Months, es: seq<Event>, p: Period) {
    forall n :: 0 <= n <= |es| ==> UsageMeaning(months, Run(months, es[..n]), p, es[..n])
  }

  lemma {:induction false} MeansUpTo(months: Months, es: seq<Event>, p: Period, n: nat)
    requires months.Valid() && Calendrical(p) && Chronological(es) && NoResets(es)
    requires NoneAtWindowEnd(months, es, p) && n <= |es|
    ensures UsageMeaning(months, Run(months, es[..n]), p, es[..n])
  {
    if n > 0 {
      MeansUpTo(months, es, p, n - 1);
      MeansNext(months, es, p, n - 1);
    }
  }

  lemma MeansNext(months: Months, es: seq<Event>, p: Period, i: nat)
    requires months.Valid() && Calendrical(p) && Chronological(es) && NoResets(es) && i < |es|
    requires UsageMeaning(months, Run(months, es[..i]), p, es[..i])
    ensures UsageMeaning(months, Run(months, es[..i + 1]), p, es[..i + 1])
       <==> !(es[i].Use? && AtWindowEnd(Run(months, es[..i]), p, es[i].now))
  {
    hide UsageMeaning, UsageRecorded;
    var upTo := es[..i + 1];
    assert upTo[..i] == es[..i] && upTo[i] == es[i];
    if es[i].Use? {
      UseKeepsMeaningIff(months, Run(months, es[..i]), p, upTo);
    } else {
      LimitKeepsMeaning(months, Run(months, es[..i]), p, upTo);
    }
  }

  /**
   With a clock that never goes back and no manual reset, throughout a run: after the latest
   record a calendar period's window is the one that contains it, and the period's totals and
   breakdowns are those of exactly the records made in that window. This holds exactly when no
   record arrives at the very end of the period's stored window.
   */
  lemma UsageIsWindowTotalIff(months: Months, es: seq<Event>, p: Period)
    requires months.Valid() && Calendrical(p) && Chronological(es) && NoResets(es)
    ensures AlwaysMeans(months, es, p) <==> NoneAtWindowEnd(months, es, p)
  {
    hide Run, UsageMeaning, AtWindowEnd;
    if NoneAtWindowEnd(months, es, p) {
      forall n | 0 <= n <= |es|
        ensures UsageMeaning(months, Run(months, es[..n]), p, es[..n])
      {
        MeansUpTo(months, es, p, n);
      }
    } else {
      var i :| 0 <= i < |es| && es[i].Use? && AtWindowEnd(Run(months, es[..i]), p, es[i].now);
      if UsageMeaning(months, Run(months, es[..i]), p, es[..i]) {
        MeansNext(months, es, p, i);
      }
    }
  }

  /** In particular when no record is made exactly at midnight. */
  lemma UsageIsWindowTotal(months: Months, es: seq<Event>, p: Period)
    requires months.Valid() && Calendrical(p) && Chronological(es) && Ordinary(es)
    ensures UsageMeaning(months, Run(months, es), p, es)
  {
    hide Run, UsageMeaning;
    forall i | 0 <= i < |es| && es[i].Use?
      ensures !AtWindowEnd(Run(months, es[..i]), p, es[i].now)
    {
      if p in Run(months, es[..i]).usage {
        EndsAtMidnight(months, es[..i], p);
      }
    }
    assert es[..|es|] == es;
    MeansUpTo(months, es, p, |es|);
  }

  lemma LimitKeepsMeaning(months: Months, b: Book, p: Period, es: seq<Event>)
    requires es != [] && es[|es| - 1].SetLimit? && UsageMeaning(months, b, p, es[..|es| - 1])
    ensures UsageMeaning(months, Step(months, b, es[|es| - 1]), p, es)
  {
    hide Accounts, WindowOf;
    var front, e := es[..|es| - 1], es[|es| - 1];
    FreshMeans(months, p, e.now);
    assert forall i :: 0 <= i < |front| ==> front[i] == es[i];
    if Used(es) {
      var i :| 0 <= i < |es| && es[i].Use?;
      assert front[i].Use?;
      assert RecordsInWindow(months, es, p, LastUse(es)) == RecordsInWindow(months, front, p, LastUse(es));
    } else {
      assert !Used(front);
      if p in b.usage {
        var i :| 0 <= i < |front| && WindowOf(months, b.usage[p], p, front[i].now);
        assert WindowOf(months, b.usage[p], p, es[i].now);
      }
    }
  }

  lemma FreshMeans(months: Months, p: Period, now: int)
    ensures Accounts(Fresh(months, p, now), []) && WindowOf(months, Fresh(months, p, now), p, now)
  {
  }

  // ----- The day inside the week and the month

  ghost predicate AtMost(a: Tally, b: Tally) {
    a.spent <= b.spent && a.input <= b.input && a.output <= b.output && a.total <= b.total && a.requests <= b.requests
  }

  ghost predicate NonNegative(r: Record) {
    r.cost >= 0.0 && r.input >= 0 && r.output >= 0
  }

  /** The daily window is still open for a record at `now`. */
  predicate DayGoesOn(b: Book, now: int) {
    Daily in b.usage && now <= b.usage[Daily].end
  }

  /**
   A record at `now` starts a day exactly when the longer window ends, and the day is then
   counted in the old window; or it goes on with a day that outlasts the longer window,
   which takes a `SetLimit` before the first record or an earlier seam record.
   */
  predicate SeamRecord(months: Months, b: Book, p: Period, now: int) {
    if DayGoesOn(b, now) then b.usage[Daily].end > Current(months, b, p, now).end
    else p in b.usage && now == b.usage[p].end
  }

  ghost predicate Nested(b: Book, p: Period) {
    Daily in b.usage && p in b.usage && b.usage[Daily].end <= b.usage[p].end
  }

  /** One record leaves the day inside the longer window exactly when it is no seam record, whatever the clock. */
  lemma NestingBreaksOnlyAtSeam(months: Months, b: Book, p: Period, now: int, r: Record)
    requires months.Valid() && Calendrical(p)
    requires p in b.usage ==> Midnight(b.usage[p].end)
    ensures Nested(UsageRecorded(months, b, now, r), p) <==> !SeamRecord(months, b, p, now)
    ensures Nested(b, p) ==>
      (SeamRecord(months, b, p, now) <==> now == b.usage[p].end && now > b.usage[Daily].end)
  {
    hide UsageRecorded;
    RecordEffect(months, b, now, r);
    WindowContains(months, p, now);
    WindowContains(months, Daily, now);
    DayInsideWindow(months, p, now);
    if p in b.usage {
      DayBounds(now, DayOf(b.usage[p].end));
      DayBounds(b.usage[p].end, DayOf(now) + 1);
    }
  }

  lemma {:induction false} EndsAtMidnight(months: Months, es: seq<Event>, p: Period)
    requires months.Valid() && Calendrical(p) && p in Run(months, es).usage
    ensures Midnight(Run(months, es).usage[p].end)
  {
    var front, e := es[..|es| - 1], es[|es| - 1];
    var b := Run(months, front);
    if p in b.usage {
      EndsAtMidnight(months, front, p);
    }
    WindowContains(months, p, e.now);
    if e.Use? {
      RecordEffect(months, b, e.now, e.record);
    }
  }

  /** No manual reset and no negative record. */
  ghost predicate Growing(es: seq<Event>) {
    forall i :: 0 <= i < |es| ==> !es[i].Reset? && (es[i].Use? ==> NonNegative(es[i].record))
  }

  ghost predicate Counted(b: Book, p: Period) {
    p in b.usage && AtMost(ZERO, b.usage[p].tally) && b.usage[p].tally.requests >= 1
  }

  ghost predicate Untouched(b: Book, p: Period) {
    p in b.usage ==> b.usage[p].tally == ZERO
  }

  /** Before the first record a period counts nothing, afterwards at least one record. */
  lemma {:induction false} CountsGrow(months: Months, es: seq<Event>, p: Period)
    requires Calendrical(p) && Growing(es)
    ensures var b := Run(months, es); if Used(es) then Counted(b, p) else Untouched(b, p)
  {
    hide UsageRecorded, AtMost, NonNegative;
    if es != [] {
      var front, e := es[..|es| - 1], es[|es| - 1];
      assert Growing(front) by {
        assert forall i :: 0 <= i < |front| ==> front[i] == es[i];
      }
      CountsGrow(months, front, p);
      if e.Use? {
        assert Used(es);
        UseCounts(months, Run(months, front), p, e.now, e.record);
      } else {
        UsedBefore(es);
      }
    }
  }

  lemma UseCounts(months: Months, b: Book, p: Period, now: int, r: Record)
    requires Calendrical(p) && NonNegative(r) && (Counted(b, p) || Untouched(b, p))
    ensures Counted(UsageRecorded(months, b, now, r), p)
  {
    hide UsageRecorded;
    RecordEffect(months, b, now, r);
  }

  lemma UsedBefore(es: seq<Event>)
    requires es != [] && !es[|es| - 1].Use?
    ensures Used(es) <==> Used(es[..|es| - 1])
  {
    if Used(es) {
      var i :| 0 <= i < |es| && es[i].Use?;
      assert es[..|es| - 1][i].Use?;
    }
  }

  ghost predicate DayAtMost(b: Book, p: Period) {
    Daily in b.usage && p in b.usage && AtMost(b.usage[Daily].tally, b.usage[p].tally)
  }

  /** A record at `now` starts a new longer window while a day with records goes on. */
  predicate CutsDay(b: Book, p: Period, now: int) {
    DayGoesOn(b, now) && b.usage[Daily].tally.requests > 0 && Expired(b, p, now)
  }

  /** One record keeps the day within the longer period exactly when it does not cut the day. */
  lemma RecordKeepsDayIff(months: Months, b: Book, p: Period, now: int, r: Record)
    requires Calendrical(p) && NonNegative(r)
    requires if Untouched(b, Daily) then Untouched(b, p)
             else Counted(b, Daily) && Counted(b, p) && DayAtMost(b, p)
    ensures DayAtMost(UsageRecorded(months, b, now, r), p) <==> !CutsDay(b, p, now)
  {
    hide UsageRecorded;
    RecordEffect(months, b, now, r);
  }

  /** Once the day outlasts the longer window, a record between the two ends brings the day above the longer period. */
  lemma RecordBetweenEnds(months: Months, b: Book, p: Period, r: Record)
    requires Calendrical(p) && Counted(b, Daily) && p in b.usage && b.usage[Daily].end > b.usage[p].end
    ensures !DayAtMost(UsageRecorded(months, b, b.usage[Daily].end, r), p)
  {
    RecordEffect(months, b, b.usage[Daily].end, r);
  }

  ghost predicate NoSeams(months: Months, es: seq<Event>, p: Period) {
    forall i :: 0 <= i < |es| && es[i].Use? ==> !SeamRecord(months, Run(months, es[..i]), p, es[i].now)
  }

  lemma FrontHasNoSeams(months: Months, es: seq<Event>, p: Period, n: nat)
    requires NoSeams(months, es, p) && n <= |es|
    ensures NoSeams(months, es[..n], p)
  {
    forall i | 0 <= i < n && es[..n][i].Use?
      ensures !SeamRecord(months, Run(months, es[..n][..i]), p, es[..n][i].now)
    {
      assert es[..n][..i] == es[..i];
    }
  }

  /**
   Without manual resets and seam records, for any clock: from the first record on the day lies
   inside the longer window and the daily totals never exceed the longer period's.
   */
  lemma {:induction false} DailyNeverExceedsLonger(months: Months, es: seq<Event>, p: Period)
    requires months.Valid() && Calendrical(p) && Growing(es) && NoSeams(months, es, p) && Used(es)
    ensures Nested(Run(months, es), p) && DayAtMost(Run(months, es), p)
  {
    hide UsageRecorded;
    var n := |es| - 1;
    var front, e := es[..n], es[n];
    var b := Run(months, front);
    FrontHasNoSeams(months, es, p, n);
    if Used(front) {
      DailyNeverExceedsLonger(months, front, p);
    }
    if e.Use? {
      CountsGrow(months, front, Daily);
      CountsGrow(months, front, p);
      if p in b.usage {
        EndsAtMidnight(months, front, p);
      }
      NestingBreaksOnlyAtSeam(months, b, p, e.now, e.record);
      RecordKeepsDayIff(months, b, p, e.now, e.record);
    } else {
      UsedBefore(es);
    }
  }

  // ----- Exactly when the day exceeds the longer period

  ghost predicate NoCuts(months: Months, es: seq<Event>, p: Period) {
    forall i :: 0 <= i < |es| && es[i].Use? ==> !CutsDay(Run(months, es[..i]), p, es[i].now)
  }

  /** After every record of the run so far the daily totals are at most the longer period's. */
  ghost predicate DayStaysAtMost(months: Months, es: seq<Event>, p: Period) {
    forall n :: 0 <= n <= |es| && Used(es[..n]) ==> DayAtMost(Run(months, es[..n]), p)
  }

  lemma {:induction false} UncutDayAtMost(months: Months, es: seq<Event>, p: Period, n: nat)
    requires Calendrical(p) && Growing(es) && NoCuts(months, es, p) && n <= |es| && Used(es[..n])
    ensures DayAtMost(Run(months, es[..n]), p)
    decreases n
  {
    hide UsageRecorded, CutsDay, DayAtMost, AtMost, NonNegative;
    var upTo, front, e := es[..n], es[..n - 1], es[n - 1];
    assert upTo[..n - 1] == front && upTo[n - 1] == e;
    if Used(front) {
      UncutDayAtMost(months, es, p, n - 1);
    }
    if e.Use? {
      CountsGrow(months, front, Daily);
      CountsGrow(months, front, p);
      RecordKeepsDayIff(months, Run(months, front), p, e.now, e.record);
    } else {
      UsedBefore(upTo);
      LimitKeepsDay(months, Run(months, front), p, e);
    }
  }

  lemma LimitKeepsDay(months: Months, b: Book, p: Period, e: Event)
    requires e.SetLimit? && DayAtMost(b, p)
    ensures DayAtMost(Step(months, b, e), p)
  {
  }

  /**
   For any clock and without manual resets: the daily totals never exceed the longer period's
   throughout a run, exactly when no record starts a new longer window within a day.
   */
  lemma DayStaysAtMostIff(months: Months, es: seq<Event>, p: Period)
    requires Calendrical(p) && Growing(es)
    ensures DayStaysAtMost(months, es, p) <==> NoCuts(months, es, p)
  {
    hide Run, CutsDay, DayAtMost;
    if NoCuts(months, es, p) {
      forall n | 0 <= n <= |es| && Used(es[..n])
        ensures DayAtMost(Run(months, es[..n]), p)
      {
        UncutDayAtMost(months, es, p, n);
      }
    } else {
      var i :| 0 <= i < |es| && es[i].Use? && CutsDay(Run(months, es[..i]), p, es[i].now);
      assert es[..i + 1][i].Use?;
      CutExceeds(months, es, p, i);
    }
  }

  lemma CutExceeds(months: Months, es: seq<Event>, p: Period, i: nat)
    requires Calendrical(p) && Growing(es) && i < |es| && es[i].Use?
    requires CutsDay(Run(months, es[..i]), p, es[i].now)
    ensures !DayAtMost(Run(months, es[..i + 1]), p)
  {
    hide UsageRecorded;
    assert es[..i + 1][..i] == es[..i];
    RecordEffect(months, Run(months, es[..i]), es[i].now, es[i].record);
  }

  /** The cause: a day is cut only after a seam record. */
  lemma CutsComeFromSeams(months: Months, es: seq<Event>, p: Period)
    requires months.Valid() && Calendrical(p) && Growing(es) && NoSeams(months, es, p)
    ensures NoCuts(months, es, p)
  {
    forall i | 0 <= i < |es| && es[i].Use?
      ensures !CutsDay(Run(months, es[..i]), p, es[i].now)
    {
      FrontHasNoSeams(months, es, p, i);
      CountsGrow(months, es[..i], Daily);
      if Used(es[..i]) {
        DailyNeverExceedsLonger(months, es[..i], p);
      }
    }
  }

  /** At no point of a run could one more record bring the day above the longer period. */
  ghost predicate TotalsSafe(months: Months, es: seq<Event>, p: Period) {
    forall n, now, r :: 0 <= n <= |es| && NonNegative(r) ==>
      DayAtMost(UsageRecorded(months, Run(months, es[..n]), now, r), p)
  }

  /** Seam records are exactly what makes daily totals unsafe, for any clock. */
  lemma TotalsSafeIffNoSeams(months: Months, es: seq<Event>, p: Period)
    requires months.Valid() && Calendrical(p) && Growing(es)
    ensures TotalsSafe(months, es, p) <==> NoSeams(months, es, p)
  {
    if NoSeams(months, es, p) {
      forall n, now, r | 0 <= n <= |es| && NonNegative(r)
        ensures DayAtMost(UsageRecorded(months, Run(months, es[..n]), now, r), p)
      {
        SafeAfter(months, es[..n], p, now, r) by {
          FrontHasNoSeams(months, es, p, n);
        }
      }
    } else {
      var i :| 0 <= i < |es| && es[i].Use? && SeamRecord(months, Run(months, es[..i]), p, es[i].now);
      SeamIsUnsafe(months, es, p, i);
    }
  }

  lemma SafeAfter(months: Months, es: seq<Event>, p: Period, now: int, r: Record)
    requires months.Valid() && Calendrical(p) && Growing(es) && NoSeams(months, es, p) && NonNegative(r)
    ensures DayAtMost(UsageRecorded(months, Run(months, es), now, r), p)
  {
    CountsGrow(months, es, Daily);
    CountsGrow(months, es, p);
    if Used(es) {
      DailyNeverExceedsLonger(months, es, p);
    }
    RecordKeepsDayIff(months, Run(months, es), p, now, r);
  }

  lemma SeamIsUnsafe(months: Months, es: seq<Event>, p: Period, i: nat)
    requires months.Valid() && Calendrical(p) && Growing(es)
    requires i < |es| && es[i].Use? && SeamRecord(months, Run(months, es[..i]), p, es[i].now)
    ensures !TotalsSafe(months, es, p)
  {
    var b, upTo, r := Run(months, es[..i]), es[..i + 1], es[i].record;
    hide UsageRecorded;
    assert upTo[..i] == es[..i] && upTo[i].Use?;
    if p in b.usage {
      EndsAtMidnight(months, es[..i], p);
    }
    NestingBreaksOnlyAtSeam(months, b, p, es[i].now, r);
    CountsGrow(months, upTo, Daily);
    CountsGrow(months, upTo, p);
    RecordBetweenEnds(months, Run(months, upTo), p, r);
  }

  /**
   With a clock that never goes back and no record at midnight there are no seam records, so the
   daily totals never exceed the longer ones, and every window contains the latest record.
   */
  lemma OrdinaryRunsNest(months: Months, es: seq<Event>, p: Period)
    requires months.Valid() && Calendrical(p) && Chronological(es) && Ordinary(es) && Growing(es)
    ensures NoSeams(months, es, p)
    ensures Used(es) ==>
      var b := Run(months, es);
      Nested(b, p) && DayAtMost(b, p) && b.usage[p].start <= LastUse(es) < b.usage[p].end
  {
    forall i | 0 <= i < |es| && es[i].Use?
      ensures !SeamRecord(months, Run(months, es[..i]), p, es[i].now)
    {
      OrdinaryIsNoSeam(months, es[..i], p, es[i].now, es[i].record);
    }
    if Used(es) {
      DailyNeverExceedsLonger(months, es, p);
      UsageIsWindowTotal(months, es, p);
      WindowContains(months, p, LastUse(es));
    }
  }

  lemma OrdinaryIsNoSeam(months: Months, es: seq<Event>, p: Period, now: int, r: Record)
    requires months.Valid() && Calendrical(p) && Chronological(es) && Ordinary(es)
    requires !Midnight(now) && forall i :: 0 <= i < |es| ==> es[i].now <= now
    ensures !SeamRecord(months, Run(months, es), p, now)
  {
    hide Run, UsageMeaning, Accounts, WindowStart, WindowEnd;
    var b := Run(months, es);
    OrdinaryCurrent(months, es, Daily, now, r);
    OrdinaryCurrent(months, es, p, now, r);
    DayInsideWindow(months, p, now);
  }

  lemma OrdinaryCurrent(months: Months, es: seq<Event>, p: Period, now: int, r: Record)
    requires months.Valid() && Calendrical(p) && Chronological(es) && Ordinary(es)
    requires !Midnight(now) && forall i :: 0 <= i < |es| ==> es[i].now <= now
    ensures !AtWindowEnd(Run(months, es), p, now)
    ensures WindowOf(months, Current(months, Run(months, es), p, now), p, now)
  {
    hide Run, UsageMeaning, Accounts;
    if p in Run(months, es).usage {
      EndsAtMidnight(months, es, p);
    }
    UsageIsWindowTotal(months, es, p);
    CurrentMeaning(months, Run(months, es), p, es, now, r);
  }

  // ----- What a seam record does

  /** After a day began at a seam, its next record leaves the longer period short of exactly the seam record. */
  lemma SeamRecordIsLost(months: Months, b: Book, p: Period, seam: int, r: Record, later: int, s: Record)
    requires months.Valid() && Calendrical(p) && p != Daily
    requires !DayGoesOn(b, seam) && SeamRecord(months, b, p, seam) && Midnight(seam)
    requires seam < later <= seam + DAY
    ensures var b' := UsageRecorded(months, UsageRecorded(months, b, seam, r), later, s);
      && Daily in b'.usage && p in b'.usage
      && Accounts(b'.usage[Daily], [r, s]) && Accounts(b'.usage[p], [s])
  {
    hide UsageRecorded, Accounts;
    var b1 := UsageRecorded(months, b, seam, r);
    assert b1.usage[Daily] == Charge(Fresh(months, Daily, seam), r) && b1.usage[p].end == seam by {
      RecordEffect(months, b, seam, r);
    }
    assert b1.usage[Daily].end == seam + DAY;
    var b2 := UsageRecorded(months, b1, later, s);
    assert b2.usage[Daily] == Charge(b1.usage[Daily], s) && b2.usage[p] == Charge(Fresh(months, p, later), s) by {
      RecordEffect(months, b1, later, s);
    }
    FreshAccounts(months, Daily, seam, r);
    FreshAccounts(months, p, later, s);
    ChargeAccounts(b1.usage[Daily], [r], s);
    assert [r] + [s] == [r, s];
  }

  lemma FreshAccounts(months: Months, p: Period, now: int, r: Record)
    ensures Accounts(Charge(Fresh(months, p, now), r), [r])
  {
    ChargeAccounts(Fresh(months, p, now), [], r);
    assert [] + [r] == [r];
  }

  const FRIDAY_NOON: int := 129_600_000_000_000
  const SUNDAY: int := 259_200_000_000_000
  const SUNDAY_NOON: int := 302_400_000_000_000

  lemma FridayWindows(months: Months)
    ensures WindowEnd(months, Daily, FRIDAY_NOON) < SUNDAY == WindowEnd(months, Weekly, FRIDAY_NOON)
  {
  }

  lemma CountsOfTotals(r: Record, s: Record)
    ensures Total([s]).requests == 1 && Total([r, s]).requests == 2
  {
  }

  lemma FirstUse(months: Months, now: int, r: Record, p: Period)
    requires Calendrical(p)
    ensures p in UsageRecorded(months, EMPTY, now, r).usage
    ensures UsageRecorded(months, EMPTY, now, r).usage[p].end == WindowEnd(months, p, now)
  {
  }

  /** A first record, a seam record and one more that day: the day counts two records, the longer period one. */
  lemma SeamRun(months: Months, p: Period, first: int, seam: int, later: int, r: Record)
    requires months.Valid() && Calendrical(p)
    requires WindowEnd(months, Daily, first) < seam == WindowEnd(months, p, first) && seam < later <= seam + DAY
    ensures var b := Run(months, [Use(first, r), Use(seam, r), Use(later, r)]);
      && Daily in b.usage && p in b.usage
      && b.usage[Daily].tally.requests == 2 && b.usage[p].tally.requests == 1
  {
    RunOfThree(months, Use(first, r), Use(seam, r), Use(later, r));
    FirstUse(months, first, r, Daily);
    FirstUse(months, first, r, p);
    WindowContains(months, p, first);
    SeamRecordIsLost(months, UsageRecorded(months, EMPTY, first, r), p, seam, r, later, r);
    CountsOfTotals(r, r);
  }

  /** Friday noon, Sunday 00:00:00 and Sunday noon: afterwards the day counts two records and the week one. */
  lemma SeamExample(months: Months, r: Record)
    requires months.Valid()
    ensures var b := Run(months, [Use(FRIDAY_NOON, r), Use(SUNDAY, r), Use(SUNDAY_NOON, r)]);
      && Daily in b.usage && Weekly in b.usage
      && b.usage[Daily].tally.requests == 2 && b.usage[Weekly].tally.requests == 1
  {
    FridayWindows(months);
    SeamRun(months, Weekly, FRIDAY_NOON, SUNDAY, SUNDAY_NOON, r);
  }

  lemma RunOfThree(months: Months, e0: Event, e1: Event, e2: Event)
    ensures Run(months, [e0, e1, e2]) == Step(months, Step(months, Step(months, EMPTY, e0), e1), e2)
  {
    assert [e0, e1, e2][..2] == [e0, e1] && [e0, e1][..1] == [e0] && [e0][..0] == [];
    assert Run(months, [e0]) == Step(months, Run(months, []), e0);
    assert Run(months, [e0, e1]) == Step(months, Run(months, [e0]), e1);
  }
}
