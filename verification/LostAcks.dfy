/** Violations are counted by arrival: the server does not look at their sequence numbers. */
module LostAcks {
  import opened Actions
  import opened QueueState
  import opened Replication

  ghost predicate ViolationArrives(w: World, e: Event, seqNo: int) {
    e.Arrive? && Enabled(w, e) && e.action.Violation? && e.action.actionSeq == seqNo
  }

  /** How many copies of the violation `seqNo` a run delivers. */
  ghost function ViolationArrivals(w: World, es: seq<Event>, seqNo: int): nat
    requires Valid(w.client)
    decreases |es|
  {
    if es == [] then 0
    else
      NextKeepsValid(w, es[0]);
      (if ViolationArrives(w, es[0], seqNo) then 1 else 0) + ViolationArrivals(Next(w, es[0]), es[1..], seqNo)
  }

  lemma StepCountsArrival(w: World, e: Event, seqNo: int)
    requires Valid(w.client)
    ensures Next(w, e).heard[seqNo] == w.heard[seqNo] + if ViolationArrives(w, e, seqNo) then 1 else 0
  {
  }

  /** Over every run each violation is counted once per copy that arrives, not once per violation. */
  lemma {:induction false} ViolationsCountPerArrival(w: World, es: seq<Event>, seqNo: int)
    requires Valid(w.client)
    ensures Run(w, es).heard[seqNo] == w.heard[seqNo] + ViolationArrivals(w, es, seqNo)
    decreases |es|
  {
    if es != [] {
      NextKeepsValid(w, es[0]);
      StepCountsArrival(w, es[0], seqNo);
      ViolationsCountPerArrival(Next(w, es[0]), es[1..], seqNo);
    }
  }

  // ---- a violation whose acknowledgements are lost ----

  /** The action being dispatched is processed, its acknowledgement is lost, and the queue retries. */
  function LostAckRound(a: Action, at: int): seq<Event> {
    [Arrive(a, at), NetworkError, FailureIsSaved, TimerFires]
  }

  function LostAckRounds(a: Action, at: int, n: nat): seq<Event> {
    if n == 0 then [] else LostAckRound(a, at) + LostAckRounds(a, at, n - 1)
  }

  ghost predicate IsDispatching(w: World, a: Action) {
    && Valid(w.client) && a in w.sent
    && w.client.phase.Dispatching? && w.client.phase.action == a && w.client.pending[0] == a
  }

  lemma FailureIsBooked(w: World, a: Action)
    requires IsDispatching(w, a)
    ensures var w1 := Next(w, NetworkError);
            && Valid(w1.client) && w1 == w.(client := w1.client)
            && w1.client.phase == FailureSaving(a, w.client.phase.tries) && w1.client.pending == w.client.pending
            && !w1.client.dormant
  {
    NextKeepsValid(w, NetworkError);
  }

  lemma RetryIsArmed(w: World, a: Action, tries: nat)
    requires Valid(w.client) && w.client.phase == FailureSaving(a, tries) && !w.client.dormant
    ensures var w2 := Next(w, FailureIsSaved);
            && Valid(w2.client) && w2 == w.(client := w2.client)
            && w2.client.phase.Idle? && !w2.client.dormant && w2.client.timer.Some?
            && w2.client.pending == w.client.pending
  {
    NextKeepsValid(w, FailureIsSaved);
  }

  /** The queue after the failure of the dispatch, back on the wire. */
  lemma RetryRedispatches(w: World, a: Action)
    requires IsDispatching(w, a)
    ensures var w1 := Next(w, NetworkError);
            && Valid(w1.client)
            && var w2 := Next(w1, FailureIsSaved);
               && Valid(w2.client)
               && var w3 := Next(w2, TimerFires);
                  && IsDispatching(w3, a)
                  && w3.client.pending == w.client.pending && w3.heard == w.heard
                  && w3.rows == w.rows && w3.codes == w.codes && w3.history == w.history
  {
    FailureIsBooked(w, a);
    RetryIsArmed(Next(w, NetworkError), a, w.client.phase.tries);
    NextKeepsValid(Next(Next(w, NetworkError), FailureIsSaved), TimerFires);
  }

  lemma RunOne(w: World, e: Event, rest: seq<Event>)
    requires Valid(w.client)
    ensures Valid(Next(w, e).client) && Run(w, [e] + rest) == Run(Next(w, e), rest)
  {
    NextKeepsValid(w, e);
    assert ([e] + rest)[1..] == rest;
  }

  lemma RunFour(w: World, e1: Event, e2: Event, e3: Event, e4: Event, rest: seq<Event>)
    requires Valid(w.client)
    ensures Valid(Next(w, e1).client) && Valid(Next(Next(w, e1), e2).client)
            && Valid(Next(Next(Next(w, e1), e2), e3).client)
    ensures Valid(Next(Next(Next(Next(w, e1), e2), e3), e4).client)
    ensures Run(w, [e1, e2, e3, e4] + rest) == Run(Next(Next(Next(Next(w, e1), e2), e3), e4), rest)
  {
    var r3, r2 := [e4] + rest, [e3] + ([e4] + rest);
    RunOne(w, e1, [e2] + r2);
    RunOne(Next(w, e1), e2, r2);
    RunOne(Next(Next(w, e1), e2), e3, r3);
    RunOne(Next(Next(Next(w, e1), e2), e3), e4, rest);
    assert [e1, e2, e3, e4] + rest == [e1] + ([e2] + ([e3] + ([e4] + rest)));
  }

  lemma RoundRecounts(w: World, a: Action, at: int, rest: seq<Event>) returns (w': World)
    requires IsDispatching(w, a) && a.Violation?
    ensures IsDispatching(w', a) && w'.client.pending == w.client.pending && w'.history == w.history
    ensures w'.heard == w.heard + multiset{a.actionSeq}
    ensures Run(w, LostAckRound(a, at) + rest) == Run(w', rest)
  {
    var w1 := Next(w, Arrive(a, at));
    RunFour(w, Arrive(a, at), NetworkError, FailureIsSaved, TimerFires, rest);
    assert w1 == ServerApply(w, a, at) && IsDispatching(w1, a);
    RetryRedispatches(w1, a);
    w' := Next(Next(Next(w1, NetworkError), FailureIsSaved), TimerFires);
  }

  /** One violation, reported once: n lost acknowledgements make the server count it n times, with the
      report still under way. */
  lemma {:induction false} LostAcksRecount(w: World, a: Action, at: int, n: nat)
    requires IsDispatching(w, a) && a.Violation?
    ensures var end := Run(w, LostAckRounds(a, at, n));
            && IsDispatching(end, a) && end.client.pending == w.client.pending && end.history == w.history
            && end.heard[a.actionSeq] == w.heard[a.actionSeq] + n
    decreases n
  {
    if n > 0 {
      var w' := RoundRecounts(w, a, at, LostAckRounds(a, at, n - 1));
      LostAcksRecount(w', a, at, n - 1);
    }
  }
}
