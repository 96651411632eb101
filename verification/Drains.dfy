/** How the queue gets going and what the page sees of it: waking and resuming, a drain that succeeds, and
    the depth and success reports over every run. */
module Drains {
  import opened Basics
  import opened Actions
  import opened QueueState
  import opened Replication
  import opened LostAcks

  // ---- getting going ----

  /** `d` is `c` with its timer armed to fire at once; when it does, the head is dispatched as it was
      queued, with the attempts it had. */
  ghost predicate IsUnderWay(c: Client, d: Client) {
    && Valid(d) && d.pending == c.pending && d.attempts == c.attempts && d.counter == c.counter
    && (c.pending != [] ==>
          && d.timer == Some(0)
          && TryDrainOnce(d.(timer := None))
             == d.(timer := None, phase := Dispatching(c.pending[0], c.attempts[0])))
  }

  /** Waking a dormant queue changes nothing queued and sends what is queued, from the head. */
  lemma WakingSends(c: Client)
    requires Valid(c) && c.dormant
    ensures IsUnderWay(c, Resume(c)) && !Resume(c).dormant && Resume(c).notices == c.notices
  {
    DrainKeepsValid(c);
  }

  lemma {:induction false} HighestSeqIsMax(xs: seq<Action>)
    requires forall a :: a in xs ==> a.actionSeq >= 0
    ensures forall a :: a in xs ==> a.actionSeq <= HighestSeq(xs)
    ensures xs == [] ==> HighestSeq(xs) == 0
    ensures xs != [] ==> exists a :: a in xs && a.actionSeq == HighestSeq(xs)
    decreases |xs|
  {
    if xs != [] {
      var init, last := xs[..|xs| - 1], xs[|xs| - 1];
      assert xs == init + [last];
      HighestSeqIsMax(init);
      assert last in xs;
      if init != [] && HighestSeq(init) >= last.actionSeq {
        var a :| a in init && a.actionSeq == HighestSeq(init);
        assert a in xs;
      }
    }
  }

  /** A hydrated queue goes on where the stored one stopped: same actions, same attempts, its counter the
      highest number among them, and the head about to be sent. */
  lemma HydrationResumes(pending: seq<Action>, attempts: seq<nat>)
    requires GoodStore(pending, attempts)
    ensures var c := Hydrated(pending, attempts);
            && c.pending == pending && c.attempts == attempts && IsUnderWay(c, c)
            && (forall a :: a in pending ==> a.actionSeq <= c.counter)
            && (if pending == [] then c.counter == 0 else exists a :: a in pending && a.actionSeq == c.counter)
  {
    HydratedIsValid(pending, attempts);
    HighestSeqIsMax(pending);
  }

  /** Whenever an awake queue is not draining, its timer and the polling before a submit both put the head
      on the wire, with the attempts it had. */
  lemma TimerAndPollSend(w: World)
    requires Valid(w.client) && w.client.phase.Idle? && !w.client.dormant && w.client.pending != []
    ensures forall e :: e == DrainPoll || (e == TimerFires && w.client.timer.Some?) ==>
              var v := Next(w, e);
              && v.client.phase == Dispatching(w.client.pending[0], w.client.attempts[0])
              && v.client.pending == w.client.pending && v.client.attempts == w.client.attempts
              && w.client.pending[0] in v.sent && v.dispatches == w.dispatches + 1 && !v.landed
  {
  }

  // ---- a drain that succeeds ----

  /** Every POST arrives and is acknowledged, from the one in flight to the last one queued. */
  function DrainAll(pending: seq<Action>, at: int): seq<Event>
    decreases |pending|
  {
    if pending == [] then []
    else [Arrive(pending[0], at), Acked, ShiftIsSaved] + DrainAll(pending[1..], at)
  }

  /** The head is on the wire, and every queued snapshot is for a slot of the session. */
  ghost predicate Sending(w: World) {
    && Valid(w.client) && w.client.pending != []
    && w.client.phase == Dispatching(w.client.pending[0], w.client.attempts[0]) && w.client.pending[0] in w.sent
    && forall a :: a in w.client.pending && a.Snapshot? ==> 0 <= a.slot < |w.codes|
  }

  lemma ArrivalLands(w: World, at: int)
    requires Sending(w)
    ensures var w1 := Next(w, Arrive(w.client.pending[0], at));
            w1.client == w.client && w1.codes == w.codes && w1.sent == w.sent && w1.landed
  {
    assert w.client.pending[0] in w.client.pending;
  }

  lemma ShiftGoesOn(c: Client)
    requires Valid(c) && c.phase.Dispatching?
    ensures var d := DispatchSucceeded(c);
            && Valid(d) && Valid(ShiftSaved(d))
            && ShiftSaved(d).pending == c.pending[1..] && ShiftSaved(d).timer == c.timer
            && if |c.pending| > 1 then
                 ShiftSaved(d).phase == Dispatching(c.pending[1], c.attempts[1])
                 && ShiftSaved(d).attempts[0] == c.attempts[1]
               else ShiftSaved(d).phase.Idle?
  {
    ShiftKeepsValid(c);
    DrainKeepsValid(DispatchSucceeded(c));
  }

  /** After one of them the next is on the wire at once, without waiting for the timer. */
  lemma OneSendsTheNext(w: World)
    requires Sending(w) && w.landed
    ensures var w1 := Next(w, Acked);
            && Valid(w1.client)
            && var end := Next(w1, ShiftIsSaved);
               && end.client.pending == w.client.pending[1..] && end.client.timer == w.client.timer
               && w.sent <= end.sent && end.codes == w.codes
               && (if |w.client.pending| > 1 then Sending(end) else Valid(end.client) && end.client.phase.Idle?)
  {
    var w1 := Next(w, Acked);
    assert w1 == w.(client := DispatchSucceeded(w.client));
    ShiftGoesOn(w.client);
    assert Next(w1, ShiftIsSaved) == Drained(w1, ShiftSaved(w1.client));
    assert forall b :: b in w.client.pending[1..] ==> b in w.client.pending;
  }

  lemma RunThree(w: World, e1: Event, e2: Event, e3: Event, rest: seq<Event>)
    requires Valid(w.client)
    ensures Valid(Next(w, e1).client) && Valid(Next(Next(w, e1), e2).client)
            && Valid(Next(Next(Next(w, e1), e2), e3).client)
    ensures Run(w, [e1, e2, e3] + rest) == Run(Next(Next(Next(w, e1), e2), e3), rest)
  {
    RunOne(w, e1, [e2] + ([e3] + rest));
    RunOne(Next(w, e1), e2, [e3] + rest);
    RunOne(Next(Next(w, e1), e2), e3, rest);
    assert [e1, e2, e3] + rest == [e1] + ([e2] + ([e3] + rest));
  }

  /** One round empties a queue of any length: everything queued is sent, in order, nothing waits for the
      timer, and the loop ends idle. */
  lemma {:induction false} RoundEmptiesTheQueue(w: World, at: int)
    requires Sending(w)
    ensures var end := Run(w, DrainAll(w.client.pending, at));
            && end.client.pending == [] && end.client.phase.Idle? && end.client.timer == w.client.timer
            && w.sent <= end.sent && forall a :: a in w.client.pending ==> a in end.sent
    decreases |w.client.pending|
  {
    var pending := w.client.pending;
    var rest := DrainAll(pending[1..], at);
    RunThree(w, Arrive(pending[0], at), Acked, ShiftIsSaved, rest);
    ArrivalLands(w, at);
    OneSendsTheNext(Next(w, Arrive(pending[0], at)));
    assert forall a :: a in pending ==> a == pending[0] || a in pending[1..];
    if |pending| > 1 {
      RoundEmptiesTheQueue(Next(Next(Next(w, Arrive(pending[0], at)), Acked), ShiftIsSaved), at);
    } else {
      assert rest == [];
    }
  }

  // ---- what the page is shown ----

  /** The depth reported last. */
  function ShownDepth(notices: seq<Notice>): Option<nat>
    decreases |notices|
  {
    if notices == [] then None
    else if notices[|notices| - 1].Depth? then Some(notices[|notices| - 1].n)
    else ShownDepth(notices[..|notices| - 1])
  }

  predicate IsSynced(n: Notice) {
    n.Synced?
  }

  function Syncs(c: Client): nat {
    Count(IsSynced, c.notices)
  }

  lemma OneMoreNotice(notices: seq<Notice>, n: Notice)
    ensures ShownDepth(notices + [n]) == if n.Depth? then Some(n.n) else ShownDepth(notices)
    ensures Count(IsSynced, notices + [n]) == Count(IsSynced, notices) + if n.Synced? then 1 else 0
  {
    assert (notices + [n])[..|notices|] == notices;
  }

  /** Unless a save is under way, the page shows how many actions are queued. */
  ghost predicate DepthIsShown(c: Client) {
    c.saving == 0 && !c.phase.ShiftSaving? ==> ShownDepth(c.notices) == Some(|c.pending|)
  }

  /** An acknowledgement whose save is still under way has yet to be reported; it counts as a success. */
  function Unreported(c: Client): nat {
    if c.phase.ShiftSaving? then 1 else 0
  }

  function Successes(c: Client): nat {
    Syncs(c) + Unreported(c)
  }

  lemma DrainShows(c: Client)
    requires Valid(c) && DepthIsShown(c)
    ensures c.saving > 0 ==> DepthIsShown(FinishAppend(c)) && Successes(FinishAppend(c)) == Successes(c)
    ensures c.phase.ShiftSaving? ==> DepthIsShown(ShiftSaved(c)) && Successes(ShiftSaved(c)) == Successes(c)
  {
    var depth := Depth(|c.pending|);
    OneMoreNotice(c.notices, depth);
    OneMoreNotice(c.notices + [depth], Synced);
    assert c.notices + [depth, Synced] == c.notices + [depth] + [Synced];
  }

  lemma FailureShows(c: Client)
    requires Valid(c) && DepthIsShown(c)
    ensures c.phase.Dispatching? ==>
              DepthIsShown(DispatchRejected(c)) && Syncs(DispatchRejected(c)) == Syncs(c)
    ensures c.phase.FailureSaving? ==> DepthIsShown(FailureSaved(c)) && Syncs(FailureSaved(c)) == Syncs(c)
  {
    OneMoreNotice(c.notices, AuthRejected);
    if c.phase.FailureSaving? {
      var failed := SyncFailed(c.phase.tries + 1);
      var errored := SyncErrored(if c.phase.action.Snapshot? then Some(c.phase.action.slot) else None);
      OneMoreNotice(c.notices, failed);
      OneMoreNotice(c.notices + [failed], errored);
      var after := FailureSaved(c).notices;
      assert after == c.notices + [failed] || after == c.notices + [failed] + [errored];
    }
  }

  predicate Acknowledges(w: World, e: Event) {
    e.Acked? && w.client.phase.Dispatching? && w.landed
  }

  lemma ShiftShows(c: Client)
    requires Valid(c) && c.phase.Dispatching?
    ensures DepthIsShown(DispatchSucceeded(c)) && Successes(DispatchSucceeded(c)) == Successes(c) + 1
    ensures DepthIsShown(c) ==> DepthIsShown(DispatchFailed(c)) && Successes(DispatchFailed(c)) == Successes(c)
  {
  }

  lemma QuietShows(c: Client)
    requires Valid(c) && DepthIsShown(c)
    ensures DepthIsShown(TryDrainOnce(c)) && Successes(TryDrainOnce(c)) == Successes(c)
    ensures DepthIsShown(Resume(c)) && Successes(Resume(c)) == Successes(c)
    ensures forall a :: DepthIsShown(Append(c, a)) && Successes(Append(c, a)) == Successes(c)
  {
  }

  /** `d` is `c` with so many more successes, and the page still shows the depth. */
  ghost predicate ShowsMore(c: Client, d: Client, successes: nat) {
    DepthIsShown(d) && Successes(d) == Successes(c) + successes
  }

  lemma EnqueueShows(w: World, e: Event)
    requires Valid(w.client) && DepthIsShown(w.client) && (e.EnqueueSnap? || e.EnqueueViol?)
    ensures ShowsMore(w.client, Next(w, e).client, 0)
  {
    QuietShows(w.client.(counter := w.client.counter + 1));
  }

  lemma SavedShows(w: World, e: Event)
    requires Valid(w.client) && DepthIsShown(w.client) && Enabled(w, e)
    requires e.AppendSaved? || e.ShiftIsSaved? || e.FailureIsSaved?
    ensures ShowsMore(w.client, Next(w, e).client, 0)
  {
    if e.FailureIsSaved? {
      FailureShows(w.client);
    } else {
      DrainShows(w.client);
    }
  }

  lemma DispatchShows(w: World, e: Event)
    requires Valid(w.client) && DepthIsShown(w.client) && Enabled(w, e)
    requires e.Acked? || e.NetworkError? || e.Unauthorized?
    ensures ShowsMore(w.client, Next(w, e).client, if e.Acked? then 1 else 0)
  {
    ShiftShows(w.client);
    FailureShows(w.client);
  }

  lemma WakeShows(w: World, e: Event)
    requires Valid(w.client) && DepthIsShown(w.client) && Enabled(w, e)
    requires e.TimerFires? || e.DrainPoll? || e.Resumed? || e.Arrive? || e.HintRevealed?
    ensures ShowsMore(w.client, Next(w, e).client, 0)
  {
    QuietShows(w.client);
    QuietShows(w.client.(timer := None));
  }

  lemma StepShows(w: World, e: Event)
    requires Valid(w.client) && DepthIsShown(w.client)
    ensures Valid(Next(w, e).client)
    ensures ShowsMore(w.client, Next(w, e).client, if Acknowledges(w, e) then 1 else 0)
  {
    NextKeepsValid(w, e);
    if !Enabled(w, e) {
      assert Next(w, e) == w;
    } else if e.EnqueueSnap? || e.EnqueueViol? {
      EnqueueShows(w, e);
    } else if e.AppendSaved? || e.ShiftIsSaved? || e.FailureIsSaved? {
      SavedShows(w, e);
    } else if e.Acked? || e.NetworkError? || e.Unauthorized? {
      DispatchShows(w, e);
    } else {
      WakeShows(w, e);
    }
  }

  ghost function Acknowledgements(w: World, es: seq<Event>): nat
    requires Valid(w.client)
    decreases |es|
  {
    if es == [] then 0
    else
      NextKeepsValid(w, es[0]);
      (if Acknowledges(w, es[0]) then 1 else 0) + Acknowledgements(Next(w, es[0]), es[1..])
  }

  /** Over every run the page shows the true depth of the queue whenever no save is under way, and is told
      of exactly one success for every acknowledgement whose save has completed. */
  lemma {:induction false} PageSeesTheQueue(w: World, es: seq<Event>)
    requires Valid(w.client) && DepthIsShown(w.client)
    ensures var c, d := w.client, Run(w, es).client;
            DepthIsShown(d) && Successes(d) == Successes(c) + Acknowledgements(w, es)
    decreases |es|
  {
    if es != [] {
      StepShows(w, es[0]);
      PageSeesTheQueue(Next(w, es[0]), es[1..]);
    }
  }

  /** It does from hydration on. */
  lemma HydrationShowsDepth(pending: seq<Action>, attempts: seq<nat>)
    ensures DepthIsShown(Hydrated(pending, attempts)) && Syncs(Hydrated(pending, attempts)) == 0
  {
    OneMoreNotice([], Depth(|pending|));
    assert [] + [Depth(|pending|)] == [Depth(|pending|)];
  }
}
