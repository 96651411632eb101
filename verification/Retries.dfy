/** Retrying while the page goes on queueing: how long the queue waits, what it reports and what it keeps,
    over every run in which no dispatch succeeds. */
module Retries {
  import opened Basics
  import opened Actions
  import opened QueueState
  import opened Replication

  /** Queueing this action replaces no queued snapshot. */
  predicate IsNew(c: Client, e: Event) {
    e.EnqueueSnap? ==> !HasSnapshot(c.pending, e.slot)
  }

  /** Every dispatch that ends fails, with the cookie still accepted, and nothing queued collapses. */
  ghost predicate OnlyFailures(w: World, es: seq<Event>)
    requires Valid(w.client)
    decreases |es|
  {
    es == [] ||
    (NextKeepsValid(w, es[0]);
     && !es[0].Acked? && !es[0].Unauthorized? && IsNew(w.client, es[0])
     && OnlyFailures(Next(w, es[0]), es[1..]))
  }

  /** An awake queue with something to send; a failure under way is that of its head. */
  ghost predicate Trying(c: Client) {
    && Valid(c) && !c.dormant && c.pending != []
    && (c.phase.Dispatching? ==> c.phase.action == c.pending[0] && c.phase.tries == c.attempts[0])
    && (c.phase.FailureSaving? ==> c.phase.action == c.pending[0] && c.phase.tries + 1 == c.attempts[0])
  }

  /** The number of the next failure of the head to be saved. */
  function NextFailure(c: Client): nat
    requires c.attempts != []
  {
    if c.phase.FailureSaving? then c.attempts[0] else c.attempts[0] + 1
  }

  predicate SavesFailure(c: Client, e: Event) {
    e.FailureIsSaved? && c.phase.FailureSaving?
  }

  /** The delays a run schedules after failures, in order. */
  ghost function Delays(w: World, es: seq<Event>): seq<Option<nat>>
    requires Valid(w.client)
    decreases |es|
  {
    if es == [] then []
    else
      NextKeepsValid(w, es[0]);
      (if SavesFailure(w.client, es[0]) then [Next(w, es[0]).client.timer] else []) + Delays(Next(w, es[0]), es[1..])
  }

  predicate IsFailureReport(n: Notice) {
    n.SyncFailed? || n.SyncErrored?
  }

  /** What the page is told about failures, in order. */
  function FailureReports(notices: seq<Notice>): seq<Notice>
    decreases |notices|
  {
    if notices == [] then []
    else
      var last := notices[|notices| - 1];
      FailureReports(notices[..|notices| - 1]) + if IsFailureReport(last) then [last] else []
  }

  /** The schedule: 5, 10, 20 and 40 seconds, then always a minute. */
  function DelayAfter(failure: nat): nat {
    if failure <= 1 then 5000
    else if failure == 2 then 10000
    else if failure == 3 then 20000
    else if failure == 4 then 40000
    else 60000
  }

  function DelaysFrom(failure: nat, n: nat): seq<Option<nat>> {
    seq(n, i requires 0 <= i < n => Some(DelayAfter(failure + i)))
  }

  /** Each failure is reported with its number, from the fifth on as an error of the head's slot too. */
  function ReportsFrom(head: Action, failure: nat, n: nat): seq<Notice>
    decreases n
  {
    if n == 0 then []
    else
      [SyncFailed(failure)]
      + (if failure >= 5 then [SyncErrored(if head.Snapshot? then Some(head.slot) else None)] else [])
      + ReportsFrom(head, failure + 1, n - 1)
  }

  /** `d` is `c` later: the head and everything queued behind it unmoved, new actions behind them. */
  ghost predicate KeepsQueue(c: Client, d: Client)
    requires Trying(c) && Trying(d)
  {
    && c.pending <= d.pending && c.attempts[0] <= d.attempts[0]
    && (forall i :: 1 <= i < |c.pending| ==> d.attempts[i] == c.attempts[i])
    && (forall i :: |c.pending| <= i < |d.pending| ==> d.attempts[i] == 0)
  }

  lemma EnqueueWhileTrying(c: Client, a: Action)
    requires Trying(c) && a.actionSeq == c.counter + 1 && (a.Snapshot? ==> !HasSnapshot(c.pending, a.slot))
    ensures var d := Append(c.(counter := c.counter + 1), a);
            && Trying(d) && KeepsQueue(c, d)
            && d.attempts[0] == c.attempts[0] && d.notices == c.notices && d.phase == c.phase
  {
    AppendKeepsValid(c, a);
    AppendResetsCountsIff(c.(counter := c.counter + 1), a);
  }

  lemma FailureReported(notices: seq<Notice>, head: Action, failure: nat)
    ensures FailureReports(notices + ReportsFrom(head, failure, 1))
            == FailureReports(notices) + ReportsFrom(head, failure, 1)
  {
    var one := notices + [SyncFailed(failure)];
    assert one[..|notices|] == notices;
    assert FailureReports(one) == FailureReports(notices) + [SyncFailed(failure)];
    assert ReportsFrom(head, failure + 1, 0) == [];
    if failure >= 5 {
      var error := SyncErrored(if head.Snapshot? then Some(head.slot) else None);
      assert (one + [error])[..|one|] == one;
      assert notices + ReportsFrom(head, failure, 1) == one + [error];
    } else {
      assert notices + ReportsFrom(head, failure, 1) == one;
    }
  }

  lemma DepthIsNoFailure(notices: seq<Notice>, n: nat)
    ensures FailureReports(notices + [Depth(n)]) == FailureReports(notices)
    ensures FailureReports(notices + [Depth(n), Synced]) == FailureReports(notices)
  {
    assert (notices + [Depth(n)])[..|notices|] == notices;
    assert (notices + [Depth(n), Synced])[..|notices| + 1] == notices + [Depth(n)];
  }

  /** `d` is `c` after a step that saves no failure: at most one more is booked on the head. */
  ghost predicate Retried(c: Client, d: Client)
    requires Trying(c)
  {
    && Trying(d) && KeepsQueue(c, d) && NextFailure(d) == NextFailure(c)
    && FailureReports(d.notices) == FailureReports(c.notices)
  }

  lemma DrainWhileTrying(c: Client)
    requires Trying(c)
    ensures Retried(c, TryDrainOnce(c)) && Retried(c, TryDrainOnce(c.(timer := None))) && Retried(c, Resume(c))
    ensures c.saving > 0 ==> Retried(c, FinishAppend(c))
    ensures c.phase.ShiftSaving? ==> Retried(c, ShiftSaved(c))
  {
    DepthIsNoFailure(c.notices, |c.pending|);
  }

  lemma FailWhileTrying(c: Client)
    requires Trying(c) && c.phase.Dispatching?
    ensures Retried(c, DispatchFailed(c))
  {
  }

  lemma ReportWhileTrying(c: Client)
    requires Trying(c) && c.phase.FailureSaving?
    ensures var d := FailureSaved(c);
            && Trying(d) && KeepsQueue(c, d) && NextFailure(d) == NextFailure(c) + 1
            && d.timer == Some(DelayAfter(NextFailure(c)))
            && d.notices == c.notices + ReportsFrom(c.pending[0], NextFailure(c), 1)
  {
    assert ReportsFrom(c.pending[0], NextFailure(c) + 1, 0) == [];
  }

  lemma EnqueueStep(w: World, e: Event)
    requires Trying(w.client) && IsNew(w.client, e) && (e.EnqueueSnap? || e.EnqueueViol?)
    ensures Retried(w.client, Next(w, e).client)
  {
    var c := w.client;
    if e.EnqueueSnap? {
      EnqueueWhileTrying(c, Snapshot(e.slot, c.counter + 1, e.body));
    } else {
      EnqueueWhileTrying(c, Violation(c.counter + 1, e.kind, e.active));
    }
  }

  /** One step while retrying: only the save of a failure schedules and reports. */
  lemma StepWhileTrying(w: World, e: Event)
    requires Trying(w.client) && !e.Acked? && !e.Unauthorized? && IsNew(w.client, e)
    ensures !SavesFailure(w.client, e) ==> Retried(w.client, Next(w, e).client)
    ensures SavesFailure(w.client, e) ==> Next(w, e).client == FailureSaved(w.client)
  {
    var c := w.client;
    if Enabled(w, e) {
      if e.EnqueueSnap? || e.EnqueueViol? {
        EnqueueStep(w, e);
      } else if e.NetworkError? {
        FailWhileTrying(c);
      } else if e.Arrive? || e.HintRevealed? {
        assert Next(w, e).client == c;
      } else if !e.FailureIsSaved? {
        DrainWhileTrying(c);
      }
    }
  }

  /** `d` is `c` after as many more failures of its head as there are delays: nothing queued moved, the
      delays came from the schedule, and each failure was reported. */
  ghost predicate Climbed(c: Client, d: Client, delays: seq<Option<nat>>)
    requires Trying(c)
  {
    var n := |delays|;
    && Trying(d) && KeepsQueue(c, d) && NextFailure(d) == NextFailure(c) + n
    && delays == DelaysFrom(NextFailure(c), n)
    && FailureReports(d.notices) == FailureReports(c.notices) + ReportsFrom(c.pending[0], NextFailure(c), n)
  }

  lemma KeepsQueueFurther(b: Client, c: Client, d: Client)
    requires Trying(b) && Trying(c) && Trying(d) && KeepsQueue(b, c) && KeepsQueue(c, d)
    ensures KeepsQueue(b, d) && c.pending[0] == b.pending[0]
  {
  }

  lemma ClimbsAfterQuietStep(b: Client, c: Client, d: Client, delays: seq<Option<nat>>)
    requires Trying(b) && Retried(b, c) && Climbed(c, d, delays)
    ensures Climbed(b, d, delays)
  {
    KeepsQueueFurther(b, c, d);
  }

  lemma DelaysAdd(failure: nat, delays: seq<Option<nat>>)
    requires delays == DelaysFrom(failure + 1, |delays|)
    ensures [Some(DelayAfter(failure))] + delays == DelaysFrom(failure, |delays| + 1)
  {
  }

  lemma ReportsAdd(first: seq<Notice>, last: seq<Notice>, head: Action, failure: nat, n: nat)
    requires FailureReports(last)
             == FailureReports(first + ReportsFrom(head, failure, 1)) + ReportsFrom(head, failure + 1, n)
    ensures FailureReports(last) == FailureReports(first) + ReportsFrom(head, failure, n + 1)
  {
    FailureReported(first, head, failure);
    assert ReportsFrom(head, failure + 1, 0) == [];
    assert ReportsFrom(head, failure, n + 1) == ReportsFrom(head, failure, 1) + ReportsFrom(head, failure + 1, n);
  }

  lemma ClimbsAfterFailure(b: Client, d: Client, delays: seq<Option<nat>>)
    requires Trying(b) && b.phase.FailureSaving? && Trying(FailureSaved(b)) && Climbed(FailureSaved(b), d, delays)
    ensures Climbed(b, d, [FailureSaved(b).timer] + delays)
  {
    var c := FailureSaved(b);
    ReportWhileTrying(b);
    KeepsQueueFurther(b, c, d);
    DelaysAdd(NextFailure(b), delays);
    ReportsAdd(b.notices, d.notices, b.pending[0], NextFailure(b), |delays|);
  }

  /** Over every run in which dispatches fail and nothing queued collapses, whatever is queued meanwhile
      and however often a drain is triggered early: nothing queued moves, the failures are booked on the
      head alone, the n-th failure of the head waits 5, 10, 20, 40, then always 60 seconds, and is
      reported by its number, as an error of its slot from the fifth on. */
  lemma {:induction false} DelaysKeepClimbing(w: World, es: seq<Event>)
    requires Trying(w.client) && OnlyFailures(w, es)
    ensures Climbed(w.client, Run(w, es).client, Delays(w, es))
    decreases |es|
  {
    if es != [] {
      var c, w' := w.client, Next(w, es[0]);
      StepWhileTrying(w, es[0]);
      NextKeepsValid(w, es[0]);
      var delays := Delays(w', es[1..]);
      if SavesFailure(c, es[0]) {
        ReportWhileTrying(c);
        DelaysKeepClimbing(w', es[1..]);
        ClimbsAfterFailure(c, Run(w, es).client, delays);
      } else {
        DelaysKeepClimbing(w', es[1..]);
        assert [] + delays == delays;
        ClimbsAfterQuietStep(c, w'.client, Run(w, es).client, delays);
      }
    }
  }

  /** A failure is booked with the count its dispatch started from, whatever was queued meanwhile: a
      collapse during a dispatch forgets every other count, and when it was the action in flight that was
      replaced, its failure is charged to the action behind it. */
  lemma FailureChargesWhoeverIsHead(c: Client, a: Action)
    requires Trying(c) && c.phase.Dispatching? && a.actionSeq == c.counter + 1
    ensures var queued := Append(c.(counter := c.counter + 1), a);
            && Valid(queued)
            && var d := DispatchFailed(queued);
               && d.attempts[0] == c.attempts[0] + 1
               && (a.Snapshot? && HasSnapshot(c.pending, a.slot) ==>
                     forall i :: 1 <= i < |d.attempts| ==> d.attempts[i] == 0)
               && (d.pending[0] == c.pending[0] <==>
                     !(a.Snapshot? && c.pending[0].Snapshot? && a.slot == c.pending[0].slot))
  {
    AppendKeepsValid(c, a);
    AppendResetsCountsIff(c.(counter := c.counter + 1), a);
    assert c.pending[0] in c.pending;
    if a.Snapshot? && HasSnapshot(c.pending, a.slot) {
      var i := CollapseReplaces(c.pending, a);
      if i == 0 {
        assert RemoveAt(c.pending, 0) == c.pending[1..];
        assert |c.pending| > 1 ==> c.pending[1] in c.pending && c.pending[0].actionSeq < c.pending[1].actionSeq;
      } else {
        assert (RemoveAt(c.pending, i) + [a])[0] == c.pending[0];
        assert c.pending[0].Snapshot? ==> c.pending[0].slot != c.pending[i].slot;
      }
    }
  }
}
