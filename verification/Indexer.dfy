/**
 The background indexer of internal/memory/fts5.go as a protocol of steps: producers put
 memories into a bounded queue, one consumer collects them into batches that it processes
 when full, on a timer tick, or when the closed queue has run empty.
 */
module Indexer {

  const QUEUE_CAPACITY: nat := 1000

  /** `processed` is the order in which memories were handed to the store. */
  datatype State<T> = State(
    queue: seq<T>, batch: seq<T>, processed: seq<T>, closed: bool, exited: bool)

  datatype Step<T> = Enqueue(memory: T) | Receive | Tick | Stop

  function NormalizedBatchSize(size: int): (n: nat)
    ensures n > 0
  {
    if size <= 0 then 100 else size
  }

  /** Sending on or closing a closed channel panics; receiving from an empty open one blocks. */
  predicate Enabled<T>(s: State<T>, step: Step<T>) {
    match step
    case Enqueue(_) => !s.closed
    case Receive => !s.exited && (s.queue != [] || s.closed)
    case Tick => !s.exited
    case Stop => !s.closed
  }

  function Flushed<T>(s: State<T>): State<T> {
    s.(processed := s.processed + s.batch, batch := [])
  }

  function Next<T>(s: State<T>, step: Step<T>, batchSize: nat): State<T> {
    match step
    case Enqueue(m) => if |s.queue| < QUEUE_CAPACITY then s.(queue := s.queue + [m]) else s
    case Receive =>
      if s.queue == [] then Flushed(s).(exited := true)
      else
        var taken := s.(queue := s.queue[1..], batch := s.batch + [s.queue[0]]);
        if |taken.batch| >= batchSize then Flushed(taken) else taken
    case Tick => Flushed(s)
    case Stop => s.(closed := true)
  }

  class BackgroundIndexer<T> {
    var queue: seq<T>
    var batch: seq<T>
    var processed: seq<T>
    var closed: bool
    var exited: bool
    const batchSize: nat

    function View(): State<T>
      reads this
    {
      State(queue, batch, processed, closed, exited)
    }

    constructor (size: int)
      ensures View() == State([], [], [], false, false)
      ensures batchSize == if size <= 0 then 100 else size
    {
      queue, batch, processed, closed, exited := [], [], [], false, false;
      batchSize := NormalizedBatchSize(size);
    }

    method Add(m: T)
      requires Enabled(View(), Enqueue(m))
      modifies this
      ensures View() == Next(old(View()), Enqueue(m), batchSize)
    {
      if |queue| < QUEUE_CAPACITY {
        queue := queue + [m];
      }
    }

    method Close()
      requires Enabled(View(), Stop)
      modifies this
      ensures View() == Next(old(View()), Stop, batchSize)
    {
      closed := true;
    }

    /** Every memory of the batch is handed to the store, whether or not the store accepts it. */
    method ProcessBatch()
      modifies this`processed
      ensures processed == old(processed) + batch
    {
      var i := 0;
      while i < |batch|
        invariant 0 <= i <= |batch|
        invariant processed == old(processed) + batch[..i]
      {
        processed := processed + [batch[i]];
        i := i + 1;
      }
    }

    /** The branch of the select loop that receives from the queue. */
    method OnReceive()
      requires Enabled(View(), Receive)
      modifies this
      ensures View() == Next(old(View()), Receive, batchSize)
    {
      if queue == [] {
        if |batch| > 0 {
          ProcessBatch();
        }
        batch, exited := [], true;
        return;
      }
      batch, queue := batch + [queue[0]], queue[1..];
      if |batch| >= batchSize {
        ProcessBatch();
        batch := [];
      }
    }

    /** The branch of the select loop for the ticker. */
    method OnTick()
      requires Enabled(View(), Tick)
      modifies this
      ensures View() == Next(old(View()), Tick, batchSize)
    {
      if |batch| > 0 {
        ProcessBatch();
        batch := [];
      }
    }
  }

  // ----- Runs

  function After<T>(steps: seq<Step<T>>, batchSize: nat): State<T> {
    if steps == [] then State([], [], [], false, false)
    else Next(After(steps[..|steps| - 1], batchSize), steps[|steps| - 1], batchSize)
  }

  ghost predicate Run<T>(steps: seq<Step<T>>, batchSize: nat) {
    forall i :: 0 <= i < |steps| ==> Enabled(After(steps[..i], batchSize), steps[i])
  }

  /** The memories that found room in the queue, in order. */
  function Accepted<T>(steps: seq<Step<T>>, batchSize: nat): seq<T> {
    if steps == [] then []
    else
      var front, s := steps[..|steps| - 1], steps[|steps| - 1];
      Accepted(front, batchSize)
      + if s.Enqueue? && |After(front, batchSize).queue| < 1000 then [s.memory] else []
  }

  lemma RunPrefix<T>(steps: seq<Step<T>>, batchSize: nat)
    requires Run(steps, batchSize) && steps != []
    ensures Run(steps[..|steps| - 1], batchSize)
    ensures Enabled(After(steps[..|steps| - 1], batchSize), steps[|steps| - 1])
  {
    var front := steps[..|steps| - 1];
    forall i | 0 <= i < |front|
      ensures Enabled(After(front[..i], batchSize), front[i])
    {
      assert front[..i] == steps[..i];
    }
  }

  /**
   For every interleaving: what was processed, the current batch and the queue are together
   exactly the accepted memories, in order, and the batch stays below its size. Once the
   consumer has exited, every accepted memory has been processed exactly once.
   */
  lemma {:induction false} NothingLostOrRepeated<T>(steps: seq<Step<T>>, batchSize: nat)
    requires Run(steps, batchSize) && batchSize > 0
    ensures var s := After(steps, batchSize);
      && s.processed + s.batch + s.queue == Accepted(steps, batchSize)
      && |s.batch| < batchSize && |s.queue| <= QUEUE_CAPACITY
      && (s.exited ==> s.closed && s.processed == Accepted(steps, batchSize))
  {
    if steps != [] {
      RunPrefix(steps, batchSize);
      NothingLostOrRepeated(steps[..|steps| - 1], batchSize);
      KeepsTogether(After(steps[..|steps| - 1], batchSize), steps[|steps| - 1], batchSize);
    }
  }

  lemma KeepsTogether<T>(s: State<T>, step: Step<T>, batchSize: nat)
    requires Enabled(s, step) && batchSize > 0 && |s.batch| < batchSize && |s.queue| <= QUEUE_CAPACITY
    requires s.exited ==> s.closed && s.batch == [] && s.queue == []
    ensures var t := Next(s, step, batchSize);
      && t.processed + t.batch + t.queue
         == s.processed + s.batch + s.queue
            + (if step.Enqueue? && |s.queue| < QUEUE_CAPACITY then [step.memory] else [])
      && |t.batch| < batchSize && |t.queue| <= QUEUE_CAPACITY
      && (t.exited ==> t.closed && t.batch == [] && t.queue == [])
  {
  }

  // ----- The batch and the stop, as history

  /** The memories taken from the queue, in order. */
  function Received<T>(steps: seq<Step<T>>, batchSize: nat): seq<T> {
    if steps == [] then []
    else
      var front := steps[..|steps| - 1];
      var queue := After(front, batchSize).queue;
      Received(front, batchSize) + if steps[|steps| - 1].Receive? && queue != [] then [queue[0]] else []
  }

  /** How many memories were received since the latest tick, full batch or end of the loop. */
  function Unflushed<T>(steps: seq<Step<T>>, batchSize: nat): nat {
    if steps == [] then 0
    else
      var front := steps[..|steps| - 1];
      match steps[|steps| - 1]
      case Tick => 0
      case Receive =>
        if After(front, batchSize).queue == [] || Unflushed(front, batchSize) + 1 == batchSize then 0
        else Unflushed(front, batchSize) + 1
      case _ => Unflushed(front, batchSize)
  }

  ghost predicate Stopped<T>(steps: seq<Step<T>>) {
    exists i :: 0 <= i < |steps| && steps[i].Stop?
  }

  lemma StoppedAppend<T>(steps: seq<Step<T>>)
    requires steps != []
    ensures Stopped(steps) <==> Stopped(steps[..|steps| - 1]) || steps[|steps| - 1].Stop?
  {
    var front := steps[..|steps| - 1];
    if i :| 0 <= i < |front| && front[i].Stop? {
      assert steps[i].Stop?;
    }
  }

  /**
   For every interleaving: what was processed and the batch are together what was received, in
   order, and the batch is what was received since the latest tick or full batch. So right after
   a tick everything received has been processed. The queue is closed exactly if there was a stop.
   */
  lemma {:induction false} BatchIsHistory<T>(steps: seq<Step<T>>, batchSize: nat)
    requires Run(steps, batchSize) && batchSize > 0
    ensures var s := After(steps, batchSize);
      && s.processed + s.batch == Received(steps, batchSize)
      && |s.batch| == Unflushed(steps, batchSize) < batchSize
      && (s.closed <==> Stopped(steps))
      && (steps != [] && steps[|steps| - 1].Tick? ==> s.processed == Received(steps, batchSize))
  {
    if steps != [] {
      var front, step := steps[..|steps| - 1], steps[|steps| - 1];
      RunPrefix(steps, batchSize);
      BatchIsHistory(front, batchSize);
      StoppedAppend(steps);
      hide Run, Stopped;
      BatchStep(After(front, batchSize), step, batchSize);
    }
  }

  lemma BatchStep<T>(s: State<T>, step: Step<T>, batchSize: nat)
    requires |s.batch| < batchSize
    ensures var t := Next(s, step, batchSize);
      && t.processed + t.batch
         == s.processed + s.batch + (if step.Receive? && s.queue != [] then [s.queue[0]] else [])
      && (t.closed <==> s.closed || step.Stop?)
      && |t.batch| == (match step
                       case Tick => 0
                       case Receive => if s.queue == [] || |s.batch| + 1 == batchSize then 0 else |s.batch| + 1
                       case _ => |s.batch|)
  {
  }

  /** One memory, received and ticked: it is processed although the batch is not full. */
  lemma TickExample<T>(m: T)
    ensures After([Enqueue(m), Receive, Tick], 100) == State([], [], [m], false, false)
  {
    assert [Enqueue(m), Receive, Tick][..2] == [Enqueue(m), Receive];
    assert [Enqueue(m), Receive][..1] == [Enqueue(m)];
    assert After([Enqueue(m)], 100) == State([m], [], [], false, false);
    assert After([Enqueue(m), Receive], 100) == State([], [m], [], false, false);
  }

  // ----- Draining

  function ReceivesIn<T>(steps: seq<Step<T>>): nat {
    if steps == [] then 0 else (if steps[0].Receive? then 1 else 0) + ReceivesIn(steps[1..])
  }

  /** The state after some more steps. */
  function Resume<T>(s: State<T>, steps: seq<Step<T>>, batchSize: nat): State<T>
    decreases |steps|
  {
    if steps == [] then s else Resume(Next(s, steps[0], batchSize), steps[1..], batchSize)
  }

  /** Each of the further steps is enabled when it is taken. */
  predicate Resumable<T>(s: State<T>, steps: seq<Step<T>>, batchSize: nat)
    decreases |steps|
  {
    steps == [] || (Enabled(s, steps[0]) && Resumable(Next(s, steps[0], batchSize), steps[1..], batchSize))
  }

  /**
   Whatever comes after a stop: the consumer has exited exactly when it has received once more
   than there were memories in the queue, and until then it can always receive.
   */
  lemma {:induction false} DrainsToExit<T>(s: State<T>, steps: seq<Step<T>>, batchSize: nat)
    requires s.closed && !s.exited && Resumable(s, steps, batchSize)
    ensures var t := Resume(s, steps, batchSize);
      && ReceivesIn(steps) <= |s.queue| + 1
      && (t.exited <==> ReceivesIn(steps) == |s.queue| + 1)
      && (!t.exited ==> Enabled(t, Receive))
    decreases |steps|
  {
    if steps != [] {
      var next := Next(s, steps[0], batchSize);
      if next.exited {
        assert steps[1..] == [];
      } else {
        DrainsToExit(next, steps[1..], batchSize);
      }
    }
  }
}
