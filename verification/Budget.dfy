/**
 Budget accounting of internal/billing/budget.go: usage per period with per-model and
 per-key breakdowns, windows that roll over when the next record arrives, the budget
 gate, and the alert flags. The clock is a parameter of every call.
 */
module Budget {
  import opened Calendar

  datatype Limit = Limit(amountUsd: real, tokenLimit: int, alertThreshold: real)
  datatype Record = Record(model: string, apiKey: string, input: int, output: int, cost: real)
  datatype Tally = Tally(spent: real, input: int, output: int, total: int, requests: int)
  datatype Usage = Usage(tally: Tally, byModel: map<string, Tally>, byKey: map<string, Tally>, start: int, end: int)

  /** The state of one organization's budget; `alerts` holds the periods whose alert was sent. */
  datatype Book = Book(limits: map<Period, Limit>, usage: map<Period, Usage>, alerts: set<Period>)

  const ZERO := Tally(0.0, 0, 0, 0, 0)

  // ----- One record

  function Add(t: Tally, r: Record): Tally {
    Tally(t.spent + r.cost, t.input + r.input, t.output + r.output,
          t.total + (r.input + r.output), t.requests + 1)
  }

  function Bump(m: map<string, Tally>, k: string, r: Record): map<string, Tally> {
    if k in m then m[k := Add(m[k], r)] else m[k := Add(ZERO, r)]
  }

  function Charge(u: Usage, r: Record): Usage {
    u.(tally := Add(u.tally, r), byModel := Bump(u.byModel, r.model, r), byKey := Bump(u.byKey, r.apiKey, r))
  }

  function Fresh(months: Months, p: Period, now: int): Usage {
    Usage(ZERO, map[], map[], WindowStart(months, p, now), WindowEnd(months, p, now))
  }

  predicate Expired(b: Book, p: Period, now: int) {
    p in b.usage && now > b.usage[p].end
  }

  /** The usage a record at `now` is charged to: a new window if there is none or it has passed. */
  function Current(months: Months, b: Book, p: Period, now: int): Usage {
    if p !in b.usage || Expired(b, p, now) then Fresh(months, p, now) else b.usage[p]
  }

  // ----- Alerts

  function Percentage(limit: Limit, t: Tally): real {
    if limit.amountUsd > 0.0 then t.spent / limit.amountUsd * 100.0
    else if limit.tokenLimit > 0 then t.total as real / limit.tokenLimit as real * 100.0
    else 0.0
  }

  predicate AlertDue(limit: Limit, t: Tally) {
    Percentage(limit, t) >= limit.alertThreshold * 100.0
  }

  function AlertsChecked(b: Book, p: Period): Book {
    if p in b.limits && p in b.usage && p !in b.alerts && AlertDue(b.limits[p], b.usage[p].tally)
    then b.(alerts := b.alerts + {p}) else b
  }

  // ----- The operations

  const EMPTY := Book(map[], map[], {})

  function LimitSet(months: Months, b: Book, now: int, p: Period, limit: Limit): Book {
    var b1 := b.(limits := b.limits[p := limit]);
    if p in b.usage then b1 else b1.(usage := b.usage[p := Fresh(months, p, now)])
  }

  function UsageReset(months: Months, b: Book, now: int, p: Period): Book {
    b.(usage := b.usage[p := Fresh(months, p, now)], alerts := b.alerts - {p})
  }

  function RecordIn(months: Months, b: Book, now: int, r: Record, p: Period): Book {
    var u := Charge(Current(months, b, p, now), r);
    var b1 := if Expired(b, p, now) then b.(alerts := b.alerts - {p}) else b;
    AlertsChecked(b1.(usage := b.usage[p := u]), p)
  }

  function UsageRecorded(months: Months, b: Book, now: int, r: Record): Book {
    RecordIn(months, RecordIn(months, RecordIn(months, b, now, r, Daily), now, r, Weekly), now, r, Monthly)
  }

  datatype CheckResult = CheckResult(
    allowed: bool, reason: string, limitType: string, limitPeriod: Period,
    estimatedCost: real, remainingUsd: real, remainingTokens: int)

  ghost predicate UsdLimited(b: Book, p: Period) {
    p in b.limits && p in b.usage && b.limits[p].amountUsd > 0.0
  }

  ghost function UsdLeft(b: Book, p: Period): real
    requires UsdLimited(b, p)
  {
    b.limits[p].amountUsd - b.usage[p].tally.spent
  }

  ghost predicate TokenLimited(b: Book, p: Period) {
    p in b.limits && p in b.usage && b.limits[p].tokenLimit > 0
  }

  ghost function TokensLeft(b: Book, p: Period): int
    requires TokenLimited(b, p)
  {
    b.limits[p].tokenLimit - b.usage[p].tally.total
  }

  /** No limited period is used up. */
  ghost predicate WithinBudget(b: Book) {
    && (forall p :: UsdLimited(b, p) ==> UsdLeft(b, p) > 0.0)
    && (forall p :: TokenLimited(b, p) ==> TokensLeft(b, p) > 0)
  }

  /** `x` is the least amount left in any limited period, or 0 when nothing is limited. */
  ghost predicate LeastUsdLeft(b: Book, ps: set<Period>, x: real) {
    if exists p :: p in ps && UsdLimited(b, p)
    then (exists p :: p in ps && UsdLimited(b, p) && UsdLeft(b, p) == x)
         && (forall p :: p in ps && UsdLimited(b, p) ==> x <= UsdLeft(b, p))
    else x == 0.0
  }

  ghost predicate LeastTokensLeft(b: Book, ps: set<Period>, x: int) {
    if exists p :: p in ps && TokenLimited(b, p)
    then (exists p :: p in ps && TokenLimited(b, p) && TokensLeft(b, p) == x)
         && (forall p :: p in ps && TokenLimited(b, p) ==> x <= TokensLeft(b, p))
    else x == 0
  }

  ghost predicate CheckMeans(b: Book, result: CheckResult) {
    && (result.allowed <==> WithinBudget(b))
    && (result.allowed ==> LeastUsdLeft(b, b.limits.Keys, result.remainingUsd)
                           && LeastTokensLeft(b, b.limits.Keys, result.remainingTokens))
    && (!result.allowed ==>
          if result.limitType == "usd"
          then result.reason == "budget_exceeded"
               && UsdLimited(b, result.limitPeriod) && UsdLeft(b, result.limitPeriod) <= 0.0
          else result.limitType == "tokens" && result.reason == "token_limit_exceeded"
               && TokenLimited(b, result.limitPeriod) && TokensLeft(b, result.limitPeriod) <= 0)
  }

  /** Verdict and, when allowed, the remaining amounts do not depend on the order of the periods. */
  lemma CheckIsOrderIndependent(b: Book, x: CheckResult, y: CheckResult)
    requires CheckMeans(b, x) && CheckMeans(b, y)
    ensures x.allowed == y.allowed
    ensures x.allowed ==> x.remainingUsd == y.remainingUsd && x.remainingTokens == y.remainingTokens
  {
  }

  /** The periods `ps` are within budget in dollars, with `x` the least amount left. */
  ghost predicate UsdPassed(b: Book, ps: set<Period>, x: real) {
    (forall p :: p in ps && UsdLimited(b, p) ==> UsdLeft(b, p) > 0.0) && LeastUsdLeft(b, ps, x)
  }

  ghost predicate TokensPassed(b: Book, ps: set<Period>, x: int) {
    (forall p :: p in ps && TokenLimited(b, p) ==> TokensLeft(b, p) > 0) && LeastTokensLeft(b, ps, x)
  }

  lemma UsdPassesNext(b: Book, ps: set<Period>, x: real, p: Period)
    requires UsdPassed(b, ps, x) && (UsdLimited(b, p) ==> UsdLeft(b, p) > 0.0)
    ensures UsdPassed(b, ps + {p},
                      if UsdLimited(b, p) && (UsdLeft(b, p) < x || x == 0.0) then UsdLeft(b, p) else x)
  {
    if q :| q in ps && UsdLimited(b, q) && UsdLeft(b, q) == x {
      assert q in ps + {p};
    }
  }

  lemma TokensPassNext(b: Book, ps: set<Period>, x: int, p: Period)
    requires TokensPassed(b, ps, x) && (TokenLimited(b, p) ==> TokensLeft(b, p) > 0)
    ensures TokensPassed(b, ps + {p},
                         if TokenLimited(b, p) && (TokensLeft(b, p) < x || x == 0) then TokensLeft(b, p) else x)
  {
    if q :| q in ps && TokenLimited(b, q) && TokensLeft(b, q) == x {
      assert q in ps + {p};
    }
  }

  lemma NonePassed(b: Book)
    ensures UsdPassed(b, {}, 0.0) && TokensPassed(b, {}, 0)
  {
  }

  lemma AllPassed(b: Book, result: CheckResult)
    requires UsdPassed(b, b.limits.Keys, result.remainingUsd) && TokensPassed(b, b.limits.Keys, result.remainingTokens)
    requires result.allowed
    ensures CheckMeans(b, result)
  {
  }

  lemma Refused(b: Book, result: CheckResult, p: Period)
    requires !result.allowed && result.limitPeriod == p
    requires if result.limitType == "usd" then UsdLimited(b, p) && UsdLeft(b, p) <= 0.0
             else TokenLimited(b, p) && TokensLeft(b, p) <= 0
    requires result.limitType in {"usd", "tokens"}
    requires result.reason == if result.limitType == "usd" then "budget_exceeded" else "token_limit_exceeded"
    ensures CheckMeans(b, result)
  {
  }

  // ----- The object

  class OrganizationBudget {
    var limits: map<Period, Limit>
    var usage: map<Period, Usage>
    var alertsSent: set<Period>

    function View(): Book
      reads this
    {
      Book(limits, usage, alertsSent)
    }

    constructor ()
      ensures View() == EMPTY
    {
      limits, usage, alertsSent := map[], map[], {};
    }

    method SetLimit(months: Months, now: int, p: Period, limit: Limit)
      modifies this
      ensures View() == LimitSet(months, old(View()), now, p, limit)
    {
      limits := limits[p := limit];
      if p !in usage {
        usage := usage[p := Fresh(months, p, now)];
      }
    }

    method ResetUsage(months: Months, now: int, p: Period)
      modifies this
      ensures View() == UsageReset(months, old(View()), now, p)
    {
      usage := usage[p := Fresh(months, p, now)];
      alertsSent := alertsSent - {p};
    }

    method CheckAlerts(p: Period)
      modifies this`alertsSent
      ensures View() == AlertsChecked(old(View()), p)
    {
      if p !in limits || p !in usage { return; }
      if p in alertsSent { return; }
      var limit, tally := limits[p], usage[p].tally;
      var percentage := 0.0;
      if limit.amountUsd > 0.0 {
        percentage := tally.spent / limit.amountUsd * 100.0;
      } else if limit.tokenLimit > 0 {
        percentage := tally.total as real / limit.tokenLimit as real * 100.0;
      }
      if percentage >= limit.alertThreshold * 100.0 {
        alertsSent := alertsSent + {p};
      }
    }

    method RecordUsage(months: Months, now: int, r: Record)
      requires months.Valid()
      modifies this
      ensures View() == UsageRecorded(months, old(View()), now, r)
    {
      var periods := [Daily, Weekly, Monthly];
      var i := 0;
      while i < |periods|
        invariant 0 <= i <= 3
        invariant i == 0 ==> View() == old(View())
        invariant i == 1 ==> View() == RecordIn(months, old(View()), now, r, Daily)
        invariant i == 2 ==> View() == RecordIn(months, RecordIn(months, old(View()), now, r, Daily), now, r, Weekly)
        invariant i == 3 ==> View() == UsageRecorded(months, old(View()), now, r)
      {
        RecordOne(months, now, r, periods[i]);
        i := i + 1;
      }
    }

    /** The body of the loop over the three periods. */
    method RecordOne(months: Months, now: int, r: Record, p: Period)
      requires months.Valid() && Calendrical(p)
      modifies this
      ensures View() == RecordIn(months, old(View()), now, r, p)
    {
      hide AlertDue, Charge, Expired, WindowStart, WindowEnd;
      RollOver(months, now, p);
      AddRecord(r, p);
      CheckAlerts(p);
    }

    /** Adds a record to the totals of an open window and to both breakdowns. */
    method AddRecord(r: Record, p: Period)
      requires p in usage
      modifies this`usage
      ensures usage == old(usage)[p := Charge(old(usage)[p], r)]
    {
      hide Add;
      var u := usage[p];
      var model, key := u.byModel, u.byKey;
      model := if r.model in model then model[r.model := Add(model[r.model], r)] else model[r.model := Add(ZERO, r)];
      key := if r.apiKey in key then key[r.apiKey := Add(key[r.apiKey], r)] else key[r.apiKey := Add(ZERO, r)];
      usage := usage[p := u.(tally := Add(u.tally, r), byModel := model, byKey := key)];
    }

    /** Opens the window a record at `now` belongs to, if it is not open. */
    method RollOver(months: Months, now: int, p: Period)
      requires months.Valid() && Calendrical(p)
      modifies this
      ensures limits == old(limits) && usage == old(usage)[p := Current(months, old(View()), p, now)]
      ensures alertsSent == if Expired(old(View()), p, now) then old(alertsSent) - {p} else old(alertsSent)
    {
      if p !in usage {
        usage := usage[p := Fresh(months, p, now)];
        WindowContains(months, p, now);
      }
      if now > usage[p].end {
        ResetUsage(months, now, p);
      }
    }

    /** The budget gate, for any order in which the map of limits is iterated. */
    method CheckBudget(order: seq<Period>, estimatedTokens: int) returns (result: CheckResult)
      requires forall p :: p in order <==> p in limits
      ensures CheckMeans(View(), result)
      ensures result.estimatedCost == estimatedTokens as real * 0.00001
    {
      hide CheckMeans, UsdPassed, TokensPassed;
      result := CheckResult(true, "", "", Daily, estimatedTokens as real * 0.00001, 0.0, 0);
      ghost var b := View();
      ghost var seen: set<Period> := {};
      NonePassed(b);
      var i := 0;
      while i < |order|
        invariant 0 <= i <= |order|
        invariant result.allowed && result.estimatedCost == estimatedTokens as real * 0.00001
        invariant UsdPassed(b, seen, result.remainingUsd) && TokensPassed(b, seen, result.remainingTokens)
        invariant seen == set k | 0 <= k < i :: order[k]
      {
        var p := order[i];
        ghost var x, y := result.remainingUsd, result.remainingTokens;
        if p in usage {
          var limit := limits[p];
          if limit.amountUsd > 0.0 {
            var remaining := limit.amountUsd - usage[p].tally.spent;
            if remaining <= 0.0 {
              result := result.(allowed := false, reason := "budget_exceeded", limitType := "usd", limitPeriod := p);
              Refused(b, result, p);
              return;
            }
            if remaining < result.remainingUsd || result.remainingUsd == 0.0 {
              result := result.(remainingUsd := remaining);
            }
          }
          if limit.tokenLimit > 0 {
            var remaining := limit.tokenLimit - usage[p].tally.total;
            if remaining <= 0 {
              result := result.(allowed := false, reason := "token_limit_exceeded",
                                limitType := "tokens", limitPeriod := p);
              assert "tokens"[0] != "usd"[0];
              Refused(b, result, p);
              return;
            }
            if remaining < result.remainingTokens || result.remainingTokens == 0 {
              result := result.(remainingTokens := remaining);
            }
          }
        }
        UsdPassesNext(b, seen, x, p);
        TokensPassNext(b, seen, y, p);
        seen := seen + {p};
        i := i + 1;
      }
      assert seen == b.limits.Keys;
      AllPassed(b, result);
    }
  }
}
