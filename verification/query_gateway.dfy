/** `enqueueQuery`: every relay query of the hook goes through one module-wide
    promise chain, and a query starts at least `RateLimitDelay` ms after the
    previous one started. The clock and the relay's answer are inputs. */
module QueryGateway {

  const RateLimitDelay := 2000

  /** The queue's turn for one query: `now` is `Date.now()` when the turn
      begins, `oversleep` how late the throttling timer fires, `rejects`
      whether the query's promise rejects (an abort from `cancelQueries` or a
      relay error). */
  datatype Turn = Turn(now: int, oversleep: nat, rejects: bool)

  /** What the caller's promise does: the query ran, starting at `start`, and
      resolved (`ok`) or rejected; or it rejected without running. */
  datatype Outcome = Ran(start: int, ok: bool) | StaleRejection

  /** The module-level `lastQueryTime` and whether `queryQueue` is a
      rejected promise. */
  datatype Queue = Queue(lastQueryTime: int, rejected: bool)

  /** The throttling wait. */
  function Wait(lastQueryTime: int, now: int): (w: nat)
    ensures now - lastQueryTime >= RateLimitDelay ==> w == 0
    ensures now - lastQueryTime < RateLimitDelay ==> now + w == lastQueryTime + RateLimitDelay
  {
    if RateLimitDelay - (now - lastQueryTime) > 0 then RateLimitDelay - (now - lastQueryTime) else 0
  }

  /** The `Date.now()` recorded as `lastQueryTime` just before the query
      function is called. */
  function StartTime(lastQueryTime: int, t: Turn): (start: int)
    ensures start >= t.now
    ensures start >= lastQueryTime + RateLimitDelay
    ensures t.now - lastQueryTime >= RateLimitDelay ==> start == t.now
  {
    var w := Wait(lastQueryTime, t.now);
    if w > 0 then t.now + w + t.oversleep else t.now
  }

  /** One turn of the chain as written: `queryQueue.then(callback)` with no
      rejection handler, so a rejected queue skips the callback and stays
      rejected. */
  function TurnAsWritten(q: Queue, t: Turn): (r: (Queue, Outcome))
    ensures q.rejected ==> r == (q, StaleRejection)
    ensures !q.rejected ==> r.1 == Ran(StartTime(q.lastQueryTime, t), !t.rejects)
    ensures !q.rejected ==> r.0 == Queue(StartTime(q.lastQueryTime, t), t.rejects)
  {
    if q.rejected then (q, StaleRejection)
    else
      var start := StartTime(q.lastQueryTime, t);
      (Queue(start, t.rejects), Ran(start, !t.rejects))
  }

  function RunAsWritten(q: Queue, turns: seq<Turn>): (outs: seq<Outcome>)
    ensures |outs| == |turns|
    decreases |turns|
  {
    if |turns| == 0 then []
    else
      var (next, o) := TurnAsWritten(q, turns[0]);
      [o] + RunAsWritten(next, turns[1..])
  }

  /** Once the queue is rejected, no later query runs. */
  lemma {:induction false} RejectedQueueRunsNothing(q: Queue, turns: seq<Turn>)
    requires q.rejected
    ensures forall j :: 0 <= j < |turns| ==> RunAsWritten(q, turns)[j].StaleRejection?
    decreases |turns|
  {
    if |turns| > 0 {
      RejectedQueueRunsNothing(q, turns[1..]);
    }
  }

  /** As written, one rejected query makes every query enqueued after it
      reject without running, for the lifetime of the page. */
  lemma {:induction false} OneRejectionPoisonsQueue(q: Queue, turns: seq<Turn>, i: nat)
    requires i < |turns| && turns[i].rejects
    ensures forall j :: i < j < |turns| ==> RunAsWritten(q, turns)[j].StaleRejection?
    decreases |turns|
  {
    var (next, o) := TurnAsWritten(q, turns[0]);
    assert RunAsWritten(q, turns) == [o] + RunAsWritten(next, turns[1..]);
    if i == 0 {
      assert next.rejected;
      RejectedQueueRunsNothing(next, turns[1..]);
    } else {
      OneRejectionPoisonsQueue(next, turns[1..], i - 1);
    }
  }

  /** An aborted load followed five seconds later by a fresh one: the fresh
      query never runs. */
  lemma PoisonedQueueExample()
    ensures RunAsWritten(Queue(0, false), [Turn(0, 0, true), Turn(5000, 0, false)])
      == [Ran(2000, false), StaleRejection]
  {
    var turns := [Turn(0, 0, true), Turn(5000, 0, false)];
    assert turns[1..] == [Turn(5000, 0, false)];
  }

  /** One turn with the failure handled: the callback runs whatever became
      of the previous query. */
  function TurnCorrected(lastQueryTime: int, t: Turn): (r: (int, Outcome))
    ensures r.1.Ran? && r.1.ok == !t.rejects
    ensures r.0 == r.1.start
    ensures r.1.start >= lastQueryTime + RateLimitDelay && r.1.start >= t.now
  {
    var start := StartTime(lastQueryTime, t);
    (start, Ran(start, !t.rejects))
  }

  function RunCorrected(lastQueryTime: int, turns: seq<Turn>): (outs: seq<Outcome>)
    ensures |outs| == |turns|
    ensures forall j :: 0 <= j < |outs| ==> outs[j].Ran? && outs[j].ok == !turns[j].rejects
    ensures |outs| > 0 ==> outs[0].start >= lastQueryTime + RateLimitDelay
    decreases |turns|
  {
    if |turns| == 0 then []
    else
      var (next, o) := TurnCorrected(lastQueryTime, turns[0]);
      [o] + RunCorrected(next, turns[1..])
  }

  /** Every query starts at least `RateLimitDelay` ms after each earlier one. */
  predicate Spaced(outs: seq<Outcome>) {
    forall i, j :: 0 <= i < j < |outs| ==>
      outs[i].Ran? && outs[j].Ran? && outs[j].start >= outs[i].start + RateLimitDelay
  }

  /** With the failure handled, the queries start at least `RateLimitDelay` ms
      apart, whatever failed before. */
  lemma {:induction false} CorrectedQueueThrottles(lastQueryTime: int, turns: seq<Turn>)
    ensures Spaced(RunCorrected(lastQueryTime, turns))
    decreases |turns|
  {
    if |turns| > 0 {
      var (next, o) := TurnCorrected(lastQueryTime, turns[0]);
      var rest := RunCorrected(next, turns[1..]);
      CorrectedQueueThrottles(next, turns[1..]);
      var outs := [o] + rest;
      assert RunCorrected(lastQueryTime, turns) == outs;
      forall i, j | 0 <= i < j < |outs|
        ensures outs[i].Ran? && outs[j].Ran? && outs[j].start >= outs[i].start + RateLimitDelay
      {
        assert outs[j] == rest[j - 1];
        if i == 0 {
          assert outs[0] == o;
          if j > 1 {
            assert rest[j - 1].start >= rest[0].start + RateLimitDelay;
          }
        } else {
          assert outs[i] == rest[i - 1];
        }
      }
    }
  }

  /** Until a query rejects, the chain as written and the corrected one do
      the same thing. */
  lemma {:induction false} AgreeWithoutRejections(lastQueryTime: int, turns: seq<Turn>)
    requires forall j :: 0 <= j < |turns| ==> !turns[j].rejects
    ensures RunAsWritten(Queue(lastQueryTime, false), turns) == RunCorrected(lastQueryTime, turns)
    decreases |turns|
  {
    if |turns| > 0 {
      var start := StartTime(lastQueryTime, turns[0]);
      AgreeWithoutRejections(start, turns[1..]);
    }
  }

  /** The same two queries with the failure handled: the fresh one runs. */
  lemma CorrectedQueueExample()
    ensures RunCorrected(0, [Turn(0, 0, true), Turn(5000, 0, false)])
      == [Ran(2000, false), Ran(5000, true)]
  {
    var turns := [Turn(0, 0, true), Turn(5000, 0, false)];
    assert turns[1..] == [Turn(5000, 0, false)];
  }
}
