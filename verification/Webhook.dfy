/**
 * Webhook delivery with retries (`linux_net/services/rpc.py`).  A first delivery is made while the
 * job ends; a failure puts one redelivery on the FIFO queue, and each failed redelivery the next.
 */
module Webhook {
  import opened Types

  // `max_retries` is validated to be between 0 and 10, `retry_intervals` may be empty.
  datatype Hook = Hook(maxRetries: nat, intervals: seq<int>)

  datatype Redelivery = Redelivery(delay: int, attempt: nat)

  class Fifo {
    var pending: seq<Redelivery>

    constructor ()
      ensures pending == []
    {
      pending := [];
    }
  }

  // The wait before the k-th retry, k from 1.
  function DelayBefore(hook: Hook, k: nat): int
    requires k >= 1
  {
    if hook.intervals == [] then 10 else hook.intervals[Min(k - 1, |hook.intervals| - 1)]
  }

  // `_dispatch_webhook_with_retry`: the delivery that belongs to the job.  `canRetry` says that the
  // payload can be built and that the job has a connection.
  method FirstDelivery(q: Fifo, hook: Hook, delivered: bool, canRetry: bool)
    modifies q
    ensures q.pending == old(q.pending) +
              if !delivered && canRetry && hook.maxRetries > 0
              then [Redelivery(if hook.intervals == [] then 10 else hook.intervals[0], 1)] else []
  {
    if !delivered {
      if hook.maxRetries == 0 || !canRetry {
        assert old(q.pending) + [] == old(q.pending);
        return;
      }
      var delay := if hook.intervals != [] then hook.intervals[0] else 10;
      q.pending := q.pending + [Redelivery(delay, 1)];
    }
    assert old(q.pending) + [] == old(q.pending);
  }

  // `dispatch_webhook`; `raised` is the IndexError of an empty interval list, which ends the job.
  method Redeliver(q: Fifo, hook: Hook, attempt: nat, delivered: bool, connected: bool) returns (raised: bool)
    modifies q
    ensures raised <==> !delivered && attempt < hook.maxRetries && hook.intervals == []
    ensures q.pending == old(q.pending) +
              if !delivered && attempt < hook.maxRetries && hook.intervals != [] && connected
              then [Redelivery(if attempt < |hook.intervals| then hook.intervals[attempt]
                               else hook.intervals[|hook.intervals| - 1], attempt + 1)] else []
  {
    raised := false;
    assert old(q.pending) + [] == old(q.pending);
    if !delivered {
      var nextAttempt := attempt + 1;
      if nextAttempt <= hook.maxRetries {
        var intervals := hook.intervals;
        if attempt >= |intervals| && intervals == [] {
          return true;
        }
        var delay := if attempt < |intervals| then intervals[attempt] else intervals[|intervals| - 1];
        if connected {
          q.pending := q.pending + [Redelivery(delay, nextAttempt)];
        }
      }
    }
  }

  // How often a webhook that never gets through is tried.
  function Limit(hook: Hook): (n: nat)
    ensures hook.maxRetries == 0 ==> n == 1
    ensures hook.maxRetries > 0 && hook.intervals == [] ==> n == 2
    ensures hook.intervals != [] ==> n == hook.maxRetries + 1
  {
    if hook.intervals == [] then Min(hook.maxRetries, 1) + 1 else hook.maxRetries + 1
  }

  /**
   * The chain, over a queue that runs each redelivery once: `outcome(k)` says whether the k-th try
   * gets through, counting from zero.  It stops at the first success and otherwise makes exactly
   * `Limit` tries, with the promised waits between them.  `peak` is the largest number of
   * redeliveries that were pending at once.
   */
  method Chain(hook: Hook, outcome: nat -> bool) returns (tries: nat, waits: seq<int>, peak: nat)
    ensures peak <= 1
    ensures 1 <= tries <= Limit(hook)
    ensures forall k :: 0 <= k < tries - 1 ==> !outcome(k)
    ensures outcome(tries - 1) || tries == Limit(hook)
    ensures |waits| == tries - 1
    // the interval at the same place, or the last one; ten seconds before the one retry without intervals
    ensures forall k :: 0 <= k < |waits| ==>
              waits[k] == if hook.intervals == [] then 10
                          else if k < |hook.intervals| then hook.intervals[k] else hook.intervals[|hook.intervals| - 1]
  {
    var q := new Fifo();
    FirstDelivery(q, hook, outcome(0), true);
    tries, waits, peak := 1, [], |q.pending|;
    assert [] + [Redelivery(DelayBefore(hook, 1), 1)] == [Redelivery(DelayBefore(hook, 1), 1)];
    while q.pending != []
      invariant fresh(q) && peak <= 1
      invariant 1 <= tries <= Limit(hook)
      invariant |waits| == tries - 1
      invariant forall k :: 0 <= k < tries - 1 ==> !outcome(k)
      invariant forall k :: 0 <= k < |waits| ==> waits[k] == DelayBefore(hook, k + 1)
      invariant q.pending == [] || (q.pending == [Redelivery(DelayBefore(hook, tries), tries)]
                                    && tries < Limit(hook) && !outcome(tries - 1))
      invariant q.pending == [] ==> outcome(tries - 1) || tries == Limit(hook)
      decreases Limit(hook) - tries, |q.pending|
    {
      var job := q.pending[0];
      q.pending := q.pending[1..];
      waits := waits + [job.delay];
      var raised := Redeliver(q, hook, job.attempt, outcome(job.attempt), true);
      tries := tries + 1;
      peak := Max(peak, |q.pending|);
    }
  }

  /** A failing webhook gets all its retries exactly when it has an interval or needs at most one. */
  lemma LimitExactly(hook: Hook)
    ensures Limit(hook) == hook.maxRetries + 1 <==> hook.intervals != [] || hook.maxRetries <= 1
  {
  }
}
