/** The rate-limiting queue `ApiQueue` of src/lib/gemini.ts. Every call to
    the text-generation provider is wrapped and pushed onto `queue`; a single
    drain chain pops the head, runs it to completion and, after `interval`
    milliseconds, pops the next. The model keeps the order of calls and the
    `processing` flag; elapsed time is not modelled. */
module GeminiQueue {
  import opened Wrappers

  /** The spacing the application uses between two provider calls, in milliseconds. */
  const GeminiInterval: nat := 2000

  /** How a provider call ended: the value it returned or the message of the error it threw. */
  datatype Outcome<V> = Resolved(value: V) | Rejected(error: string)

  /** A queued call: the promise of the caller that enqueued it, and the outcome
      `apiCall()` produces when the drain runs it. */
  datatype Call<V> = Call(caller: nat, outcome: Outcome<V>)

  /** The promise `caller` settling with `outcome`. */
  datatype Settlement<V> = Settlement(caller: nat, outcome: Outcome<V>)

  /** The thunk `enqueue` pushes: it awaits `apiCall()` and resolves or rejects the
      caller's promise with the same outcome, catching the error, so the drain never
      sees a failure and a rejection reaches only the caller that enqueued the call. */
  function RunWrapped<V>(call: Call<V>): (s: Settlement<V>)
    ensures s.caller == call.caller
    ensures s.outcome.Rejected? <==> call.outcome.Rejected?
    ensures call.outcome.Resolved? ==> s.outcome.value == call.outcome.value
    ensures call.outcome.Rejected? ==> s.outcome.error == call.outcome.error
  {
    Settlement(call.caller, call.outcome)
  }

  class ApiQueue<V> {
    var queue: seq<Call<V>>
    var processing: bool
    const interval: nat

    /** Every call ever enqueued, in enqueue order. */
    ghost var enqueued: seq<Call<V>>
    /** Every call the drain has started, in the order it started them. */
    ghost var dispatched: seq<Call<V>>
    /** Number of drain chains alive (a running `processQueue` or its pending timer). */
    ghost var drains: nat

    /** Calls start in the order they were enqueued: what has started and what waits
        together make up, in order, everything enqueued. */
    ghost predicate Fifo()
      reads this
    {
      enqueued == dispatched + queue
    }

    /** FIFO order; an idle queue is empty; a drain chain exists exactly while
        `processing` holds, so there is never more than one. */
    ghost predicate Valid()
      reads this
    {
      Fifo() && (!processing ==> queue == []) && drains == (if processing then 1 else 0)
    }

    constructor (interval: nat)
      ensures Valid()
      ensures queue == [] && !processing && this.interval == interval
      ensures enqueued == [] && dispatched == []
    {
      queue := [];
      processing := false;
      this.interval := interval;
      enqueued := [];
      dispatched := [];
      drains := 0;
    }

    /** `enqueue`: pushes the wrapped call at the tail; starts a drain only when none
        is running, and that drain immediately starts the head, which is then this call. */
    method Enqueue(call: Call<V>) returns (settled: Option<Settlement<V>>)
      requires Valid()
      modifies this
      ensures Valid() && processing
      ensures enqueued == old(enqueued) + [call]
      ensures old(processing) ==> queue == old(queue) + [call] && dispatched == old(dispatched) && settled == None
      ensures !old(processing) ==> queue == [] && dispatched == old(dispatched) + [call]
                                   && settled == Some(RunWrapped(call))
    {
      queue := queue + [call];
      enqueued := enqueued + [call];
      if !processing {
        drains := drains + 1;
        settled := ProcessQueue();
      } else {
        settled := None;
      }
    }

    /** `processQueue`, run by the one drain chain (started by `Enqueue` or by its own
        timer): an empty queue ends the chain and clears `processing`; otherwise the head
        is shifted off and run to completion, and the next step is scheduled whatever
        the call's outcome was. */
    method ProcessQueue() returns (settled: Option<Settlement<V>>)
      requires Fifo() && drains == 1
      modifies this
      ensures Valid()
      ensures enqueued == old(enqueued)
      ensures old(queue) == [] ==> !processing && queue == [] && dispatched == old(dispatched) && settled == None
      ensures old(queue) != [] ==> processing && queue == old(queue)[1..]
                                   && dispatched == old(dispatched) + [old(queue)[0]]
                                   && settled == Some(RunWrapped(old(queue)[0]))
    {
      if |queue| == 0 {
        processing := false;
        drains := 0;
        settled := None;
        return;
      }
      processing := true;
      var call := queue[0];
      queue := queue[1..];
      dispatched := dispatched + [call];
      settled := Some(RunWrapped(call));
    }

    /** The drain chain followed timer after timer until it stops: every waiting call
        runs, in enqueue order, each caller's promise settles with that call's own
        outcome, a rejected call does not stop the ones behind it, and the queue ends idle. */
    method Drain() returns (settlements: seq<Settlement<V>>)
      requires Valid()
      modifies this
      ensures Valid() && !processing && queue == []
      ensures enqueued == old(enqueued)
      ensures dispatched == old(dispatched) + old(queue)
      ensures |settlements| == |old(queue)|
      ensures forall i :: 0 <= i < |settlements| ==> settlements[i] == RunWrapped(old(queue)[i])
    {
      settlements := [];
      ghost var waiting := queue;
      while processing
        invariant Valid() && enqueued == old(enqueued)
        invariant |settlements| <= |waiting|
        invariant queue == waiting[|settlements|..]
        invariant dispatched == old(dispatched) + waiting[..|settlements|]
        invariant forall i :: 0 <= i < |settlements| ==> settlements[i] == RunWrapped(waiting[i])
        decreases |queue| + (if processing then 1 else 0)
      {
        var settled := ProcessQueue();
        if settled.Some? {
          assert waiting[..|settlements| + 1] == waiting[..|settlements|] + [waiting[|settlements|]];
          settlements := settlements + [settled.value];
        }
      }
      assert waiting[..|settlements|] == waiting;
    }
  }
}
