/**
 The dead letter queue of internal/eventbus/nats_bus.go with the entries of
 internal/eventbus/types.go: entries are queued, retried a bounded number of times with
 growing backoff, and leave the queue by being republished or purged. Whether an event
 can be serialized and published is a parameter.
 */
module DeadLetterQueue {
  import opened Int64

  datatype Status = Pending | Retrying | Dead | Processed
  datatype Entry = Entry(retryCount: int, maxRetries: int, status: Status, nextRetryAt: int)
  datatype Outcome = Republished | NotFound | ExceededRetries | PublishFailed

  const SECOND: int := 1_000_000_000

  function Pow2(k: nat): int {
    if k == 0 then 1 else 2 * Pow2(k - 1)
  }

  /** `1 << k` on a 64-bit `int`. */
  function ShiftedOne(k: nat): int {
    if k < 63 then Pow2(k) else if k == 63 then -TWO63 else 0
  }

  function BackoffSeconds(k: nat): int {
    if ShiftedOne(k) > 300 then 300 else ShiftedOne(k)
  }

  predicate ShouldRetry(e: Entry) {
    e.retryCount < e.maxRetries && e.status != Dead
  }

  function RetryRecorded(e: Entry, now: int): Entry
    requires e.retryCount >= 0
  {
    Entry(e.retryCount + 1, e.maxRetries, Retrying, now + Wrap64(BackoffSeconds(e.retryCount + 1) * SECOND))
  }

  function NewEntry(maxRetries: int): Entry {
    Entry(0, maxRetries, Pending, 0)
  }

  // ----- Backoff

  lemma {:induction false} Pow2Facts(k: nat)
    ensures k < Pow2(k)
    ensures k <= 8 ==> Pow2(k) <= 256
    ensures k >= 9 ==> Pow2(k) >= 512
  {
    if k > 0 {
      Pow2Facts(k - 1);
      assert k <= 8 ==> Pow2(k) <= Pow2(8) by { if k <= 8 { Pow2Monotone(k, 8); } }
    }
  }

  lemma {:induction false} Pow2Monotone(j: nat, k: nat)
    requires j <= k
    ensures 0 < Pow2(j) <= Pow2(k)
  {
    if j < k {
      Pow2Monotone(j, k - 1);
    } else if k > 0 {
      Pow2Monotone(j - 1, k - 1);
    }
  }

  function Min(a: int, b: int): int { if a < b then a else b }

  /** The wait after the k-th retry is min(2^k, 300) seconds exactly for k up to 62; from 63 on there is no wait. */
  lemma BackoffIff(e: Entry, now: int)
    requires e.retryCount >= 0
    ensures var k := e.retryCount + 1;
      var wait := RetryRecorded(e, now).nextRetryAt - now;
      && (wait == Min(Pow2(k), 300) * SECOND <==> k <= 62)
      && (k > 62 ==> wait == 0)
  {
    var k := e.retryCount + 1;
    Pow2Facts(k);
    Pow2Monotone(0, k);
    if k <= 62 {
      WrapExact(BackoffSeconds(k) * SECOND);
    } else {
      assert Wrap64(-TWO63 * SECOND) == 0 && Wrap64(0) == 0;
    }
  }

  /** Up to 62 retries each wait is at least as long as the one before. */
  lemma BackoffNeverDecreases(j: nat, k: nat)
    requires j <= k <= 62
    ensures BackoffSeconds(j) <= BackoffSeconds(k)
  {
    Pow2Monotone(j, k);
  }

  // ----- The queue

  /** The queued entries, and the ids that left the queue either way. */
  datatype Queue = Queue(entries: map<string, Entry>, republished: set<string>, purged: set<string>)

  datatype Step =
    | Send(id: string)
    | Retry(id: string, now: int, published: bool)
    | Purge(id: string)

  function Next(q: Queue, s: Step, maxRetries: int): Queue
  {
    match s
    case Send(id) => q.(entries := q.entries[id := NewEntry(maxRetries)])
    case Retry(id, now, published) =>
      if !Attempts(q, s) then q
      else if published then q.(entries := q.entries - {id}, republished := q.republished + {id})
      else q.(entries := q.entries[id := RetryRecorded(q.entries[id], now)])
    case Purge(id) =>
      if id in q.entries then q.(entries := q.entries - {id}, purged := q.purged + {id}) else q
  }

  /** The step tries to republish the event: it serializes the event and hands it to the broker. */
  predicate Attempts(q: Queue, s: Step) {
    s.Retry? && s.id in q.entries && q.entries[s.id].retryCount >= 0 && ShouldRetry(q.entries[s.id])
  }

  class NatsQueue {
    var dlq: map<string, Entry>
    ghost var republished: set<string>
    ghost var purged: set<string>
    const maxRetries: int

    ghost predicate Valid()
      reads this
    {
      forall id :: id in dlq ==> dlq[id].retryCount >= 0
    }

    ghost function View(): Queue
      reads this
    {
      Queue(dlq, republished, purged)
    }

    constructor (maxRetries: int)
      ensures Valid() && this.maxRetries == maxRetries && View() == Queue(map[], {}, {})
    {
      this.maxRetries := maxRetries;
      dlq, republished, purged := map[], {}, {};
    }

    method SendToDLQ(id: string)
      requires Valid()
      modifies this
      ensures Valid() && View() == Next(old(View()), Send(id), maxRetries)
      ensures dlq == old(dlq)[id := Entry(0, maxRetries, Pending, 0)]
    {
      dlq := dlq[id := NewEntry(maxRetries)];
    }

    /** The entry is taken out before publishing and put back, with its retry counted, if that fails. */
    method RetryDLQEntry(id: string, now: int, serialized: bool, published: bool) returns (r: Outcome)
      requires Valid()
      modifies this
      ensures Valid() && View() == Next(old(View()), Retry(id, now, serialized && published), maxRetries)
      ensures r == (if id !in old(dlq) then NotFound
                    else if old(dlq)[id].retryCount >= old(dlq)[id].maxRetries || old(dlq)[id].status == Dead
                    then ExceededRetries
                    else if serialized && published then Republished else PublishFailed)
      ensures r == Republished ==> dlq == old(dlq) - {id} && republished == old(republished) + {id}
      ensures r == PublishFailed ==>
        && dlq.Keys == old(dlq).Keys && dlq[id].retryCount == old(dlq)[id].retryCount + 1
        && republished == old(republished)
      ensures r in {NotFound, ExceededRetries} ==> View() == old(View())
    {
      if id !in dlq { return NotFound; }
      var entry := dlq[id];
      if !ShouldRetry(entry) { return ExceededRetries; }
      entry := RetryRecorded(entry, now);
      dlq := dlq - {id};
      if !serialized || !published {
        dlq := dlq[id := entry];
        assert dlq == old(dlq)[id := entry];
        return PublishFailed;
      }
      republished := republished + {id};
      r := Republished;
    }

    method PurgeDLQEntry(id: string)
      requires Valid()
      modifies this
      ensures Valid() && View() == Next(old(View()), Purge(id), maxRetries)
      ensures dlq == old(dlq) - {id} && republished == old(republished)
    {
      if id in dlq {
        purged := purged + {id};
      }
      dlq := dlq - {id};
    }
  }

  // ----- Runs

  function After(steps: seq<Step>, maxRetries: int): Queue {
    if steps == [] then Queue(map[], {}, {})
    else Next(After(steps[..|steps| - 1], maxRetries), steps[|steps| - 1], maxRetries)
  }

  ghost predicate Sent(steps: seq<Step>, id: string) {
    exists i :: 0 <= i < |steps| && steps[i] == Send(id)
  }

  /** Generated ids are not used twice. */
  ghost predicate FreshIds(steps: seq<Step>) {
    forall i, j :: 0 <= i < j < |steps| && steps[i].Send? && steps[j].Send? ==> steps[i].id != steps[j].id
  }

  ghost predicate InExactlyOne(q: Queue, id: string) {
    var queued, republished, purged := id in q.entries, id in q.republished, id in q.purged;
    (queued && !republished && !purged) || (!queued && republished && !purged) || (!queued && !republished && purged)
  }

  ghost predicate Nowhere(q: Queue, id: string) {
    id !in q.entries && id !in q.republished && id !in q.purged
  }

  lemma SentAppend(steps: seq<Step>, id: string)
    requires steps != []
    ensures Sent(steps, id) <==> Sent(steps[..|steps| - 1], id) || steps[|steps| - 1] == Send(id)
  {
  }

  lemma NewIdIsUnused(steps: seq<Step>)
    requires steps != [] && FreshIds(steps)
    ensures steps[|steps| - 1].Send? ==> !Sent(steps[..|steps| - 1], steps[|steps| - 1].id)
  {
  }

  /** Every entry ever sent is at all times in exactly one of queued, republished or purged; no other id is anywhere. */
  lemma {:induction false} EntriesConserved(steps: seq<Step>, maxRetries: int, id: string)
    requires FreshIds(steps)
    ensures var q := After(steps, maxRetries); if Sent(steps, id) then InExactlyOne(q, id) else Nowhere(q, id)
  {
    if steps != [] {
      var front := steps[..|steps| - 1];
      assert forall i :: 0 <= i < |front| ==> front[i] == steps[i];
      EntriesConserved(front, maxRetries, id);
      SentAppend(steps, id);
      NewIdIsUnused(steps);
    }
  }

  /** How often the event of an entry was handed to the broker. */
  ghost function AttemptCount(steps: seq<Step>, maxRetries: int, id: string): nat {
    if steps == [] then 0
    else
      var front, s := steps[..|steps| - 1], steps[|steps| - 1];
      AttemptCount(front, maxRetries, id)
      + if s.id == id && Attempts(After(front, maxRetries), s) then 1 else 0
  }

  /** An entry is attempted at most `maxRetries` times, and while it is queued its counter says how often. */
  lemma {:induction false} AttemptsBounded(steps: seq<Step>, maxRetries: int, id: string)
    requires FreshIds(steps) && maxRetries >= 0
    ensures AttemptCount(steps, maxRetries, id) <= maxRetries
    ensures var q := After(steps, maxRetries);
      id in q.entries ==>
        && q.entries[id].maxRetries == maxRetries && q.entries[id].status != Dead
        && q.entries[id].retryCount == AttemptCount(steps, maxRetries, id)
    ensures !Sent(steps, id) ==> AttemptCount(steps, maxRetries, id) == 0
  {
    if steps != [] {
      var front := steps[..|steps| - 1];
      assert forall i :: 0 <= i < |front| ==> front[i] == steps[i];
      AttemptsBounded(front, maxRetries, id);
      EntriesConserved(front, maxRetries, id);
      SentAppend(steps, id);
      NewIdIsUnused(steps);
    }
  }

  /** A retry of a queued entry reaches the broker exactly as long as fewer than `maxRetries` attempts were made. */
  lemma RefusedExactlyAtLimit(steps: seq<Step>, maxRetries: int, id: string, now: int, published: bool)
    requires FreshIds(steps) && maxRetries >= 0 && id in After(steps, maxRetries).entries
    ensures Attempts(After(steps, maxRetries), Retry(id, now, published))
       <==> AttemptCount(steps, maxRetries, id) < maxRetries
  {
    AttemptsBounded(steps, maxRetries, id);
  }

  // ----- Where an entry is, and what is recorded in it

  /** Step `i` republishes the entry: an attempt whose publish succeeded. */
  ghost predicate RepublishedAt(steps: seq<Step>, maxRetries: int, id: string, i: nat)
    requires i < |steps|
  {
    steps[i].Retry? && steps[i].id == id && steps[i].published && Attempts(After(steps[..i], maxRetries), steps[i])
  }

  /** Step `i` purges the entry, which is queued. */
  ghost predicate PurgedAt(steps: seq<Step>, maxRetries: int, id: string, i: nat)
    requires i < |steps|
  {
    steps[i] == Purge(id) && id in After(steps[..i], maxRetries).entries
  }

  ghost predicate WasRepublished(steps: seq<Step>, maxRetries: int, id: string) {
    exists i :: 0 <= i < |steps| && RepublishedAt(steps, maxRetries, id, i)
  }

  ghost predicate WasPurged(steps: seq<Step>, maxRetries: int, id: string) {
    exists i :: 0 <= i < |steps| && PurgedAt(steps, maxRetries, id, i)
  }

  lemma LeftAppend(steps: seq<Step>, maxRetries: int, id: string)
    requires steps != []
    ensures var n := |steps| - 1;
      && (WasRepublished(steps, maxRetries, id) <==>
            WasRepublished(steps[..n], maxRetries, id) || RepublishedAt(steps, maxRetries, id, n))
      && (WasPurged(steps, maxRetries, id) <==>
            WasPurged(steps[..n], maxRetries, id) || PurgedAt(steps, maxRetries, id, n))
  {
    hide After, Attempts;
    var n := |steps| - 1;
    var front := steps[..n];
    forall i | 0 <= i < n
      ensures RepublishedAt(front, maxRetries, id, i) == RepublishedAt(steps, maxRetries, id, i)
      ensures PurgedAt(front, maxRetries, id, i) == PurgedAt(steps, maxRetries, id, i)
    {
      assert front[..i] == steps[..i];
    }
    hide RepublishedAt, PurgedAt;
    if i :| 0 <= i < |front| && RepublishedAt(front, maxRetries, id, i) {
      assert RepublishedAt(steps, maxRetries, id, i);
    }
    if i :| 0 <= i < |front| && PurgedAt(front, maxRetries, id, i) {
      assert PurgedAt(steps, maxRetries, id, i);
    }
  }

  /** An entry left the queue by an attempt that was published, or by a purge that found it; nothing else removes it. */
  lemma {:induction false} LeftByHistory(steps: seq<Step>, maxRetries: int, id: string)
    ensures var q := After(steps, maxRetries);
      && (id in q.republished <==> WasRepublished(steps, maxRetries, id))
      && (id in q.purged <==> WasPurged(steps, maxRetries, id))
  {
    if steps != [] {
      hide WasRepublished, WasPurged;
      LeftByHistory(steps[..|steps| - 1], maxRetries, id);
      LeftAppend(steps, maxRetries, id);
    }
  }

  /** An entry is queued exactly if it was sent and neither republished nor purged; a failed attempt loses nothing. */
  lemma QueuedIff(steps: seq<Step>, maxRetries: int, id: string)
    requires FreshIds(steps)
    ensures id in After(steps, maxRetries).entries <==>
      Sent(steps, id) && !WasRepublished(steps, maxRetries, id) && !WasPurged(steps, maxRetries, id)
  {
    EntriesConserved(steps, maxRetries, id);
    LeftByHistory(steps, maxRetries, id);
  }

  /** The time of the latest attempt, 0 if there was none. */
  ghost function LatestAttempt(steps: seq<Step>, maxRetries: int, id: string): int {
    if steps == [] then 0
    else
      var front, s := steps[..|steps| - 1], steps[|steps| - 1];
      if s.id == id && Attempts(After(front, maxRetries), s) then s.now else LatestAttempt(front, maxRetries, id)
  }

  /** The wait after the k-th attempt, in nanoseconds. */
  function Wait(k: nat): int {
    if k <= 62 then Min(Pow2(k), 300) * 1_000_000_000 else 0
  }

  /** A queued entry records its attempts: their number, and when the latest one allows the next. */
  lemma {:induction false} EntryIsHistory(steps: seq<Step>, maxRetries: int, id: string)
    requires FreshIds(steps) && id in After(steps, maxRetries).entries
    ensures var k := AttemptCount(steps, maxRetries, id);
      After(steps, maxRetries).entries[id] ==
        if k == 0 then Entry(0, maxRetries, Pending, 0)
        else Entry(k, maxRetries, Retrying, LatestAttempt(steps, maxRetries, id) + Wait(k))
  {
    var n := |steps| - 1;
    var front, s := steps[..n], steps[n];
    assert forall i :: 0 <= i < n ==> front[i] == steps[i];
    var q := After(front, maxRetries);
    if id in q.entries {
      EntryIsHistory(front, maxRetries, id);
      NewIdIsUnused(steps);
      EntriesConserved(front, maxRetries, id);
      if s.id == id && Attempts(q, s) {
        BackoffIff(q.entries[id], s.now);
      }
    } else {
      NeverQueued(front, maxRetries, id) by {
        EntriesConserved(front, maxRetries, id);
        NewIdIsUnused(steps);
      }
    }
  }

  lemma {:induction false} NeverQueued(steps: seq<Step>, maxRetries: int, id: string)
    requires FreshIds(steps) && !Sent(steps, id)
    ensures AttemptCount(steps, maxRetries, id) == 0
  {
    if steps != [] {
      var front := steps[..|steps| - 1];
      assert forall i :: 0 <= i < |front| ==> front[i] == steps[i];
      SentAppend(steps, id);
      NeverQueued(front, maxRetries, id);
      EntriesConserved(front, maxRetries, id);
    }
  }

  /** Sent and retried once without success: the entry is still queued, to be retried after two seconds. */
  lemma FailedRetryExample(now: int)
    ensures var q := After([Send("a"), Retry("a", now, false)], 3);
      q == Queue(map["a" := Entry(1, 3, Retrying, now + 2_000_000_000)], {}, {})
  {
    var send, retry := Send("a"), Retry("a", now, false);
    assert [send, retry][..1] == [send] && [send][..0] == [];
    assert After([send], 3) == Next(After([], 3), send, 3);
    BackoffIff(NewEntry(3), now);
    assert Pow2(1) == 2;
  }
}
