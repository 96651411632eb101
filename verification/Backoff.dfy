/** Retrying a failing head: how long the queue waits, what it reports, and what stays queued. */
module Backoff {
  import opened Basics
  import opened QueueState

  ghost predicate CanDispatch(c: Client) {
    Valid(c) && c.phase.Idle? && !c.dormant && c.pending != []
  }

  /** The timer fires, the POST of the head fails, and the failure is saved. */
  function FailedRound(c: Client): Client
    requires CanDispatch(c)
  {
    FailureSaved(DispatchFailed(TryDrainOnce(c.(timer := None))))
  }

  predicate IsErrorReport(n: Notice) {
    n.SyncErrored?
  }

  function Errors(c: Client): nat {
    Count(IsErrorReport, c.notices)
  }

  lemma RoundEffect(c: Client)
    requires CanDispatch(c)
    ensures var d, tries := FailedRound(c), c.attempts[0];
            && CanDispatch(d)
            && d.pending == c.pending && d.attempts == c.attempts[0 := tries + 1]
            && d.timer == Some(BACKOFF[Min(tries, |BACKOFF| - 1)])
            && Errors(d) == Errors(c) + if tries >= |BACKOFF| - 1 then 1 else 0
  {
    var tries, slot := c.attempts[0], if c.pending[0].Snapshot? then Some(c.pending[0].slot) else None;
    var failed := c.notices + [SyncFailed(tries + 1)];
    assert (failed)[..|c.notices|] == c.notices && Count(IsErrorReport, failed) == Errors(c);
    assert (failed + [SyncErrored(slot)])[..|failed|] == failed;
    assert FailedRound(c).notices == if tries >= |BACKOFF| - 1 then failed + [SyncErrored(slot)] else failed;
  }

  ghost function FailedRounds(c: Client, n: nat): Client
    requires CanDispatch(c)
    decreases n
  {
    if n == 0 then c else
      RoundEffect(c);
      FailedRounds(FailedRound(c), n - 1)
  }

  /** `d` is `c` after n > 0 failures of its head: the same queue in the same order, the failures booked
      on the head alone, the delay taken from the schedule, an error reported from the fifth on. */
  ghost predicate HasFailed(c: Client, n: nat, d: Client)
    requires CanDispatch(c)
  {
    var tries, last := c.attempts[0], |BACKOFF| - 1;
    && d.pending == c.pending && d.attempts == c.attempts[0 := tries + n]
    && d.timer == Some(BACKOFF[Min(Max(tries + n - 1, 0), last)])
    && Errors(d) == Errors(c) + Max(0, tries + n - Max(tries, last))
  }

  lemma FailuresAdd(c: Client, b: Client, n: nat, d: Client)
    requires CanDispatch(c) && CanDispatch(b) && n > 0 && HasFailed(c, 1, b) && HasFailed(b, n, d)
    ensures HasFailed(c, n + 1, d)
  {
  }

  /** After any number of failures in a row the queue holds what it held, in the same order, with the
      failures booked on the head alone; it waits 5, 10, 20, 40, then always 60 seconds, and has
      reported an error to the page for the fifth failure of the head and every one after it. */
  lemma {:induction false} BackoffAfterFailures(c: Client, n: nat)
    requires CanDispatch(c) && n > 0
    ensures CanDispatch(FailedRounds(c, n)) && HasFailed(c, n, FailedRounds(c, n))
    decreases n
  {
    RoundEffect(c);
    if n > 1 {
      BackoffAfterFailures(FailedRound(c), n - 1);
      FailuresAdd(c, FailedRound(c), n - 1, FailedRounds(c, n));
    } else {
      assert FailedRounds(FailedRound(c), 0) == FailedRound(c);
    }
  }
}
