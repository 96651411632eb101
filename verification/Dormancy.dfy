/** A rejected cookie freezes the queue; a restarted counter and a shared counter mislead it; a lost
    acknowledgement repeats what it acknowledged. */
module Dormancy {
  import opened Basics
  import opened Snapshots
  import opened Actions
  import opened QueueState
  import opened Replication
  import opened Convergence
  import opened Limits

  predicate IsRejection(n: Notice) {
    n.AuthRejected?
  }

  function Rejections(c: Client): nat {
    Count(IsRejection, c.notices)
  }

  lemma NoticesAdd(ns: seq<Notice>, n: Notice)
    ensures Count(IsRejection, ns + [n]) == Count(IsRejection, ns) + if n.AuthRejected? then 1 else 0
  {
    assert (ns + [n])[..|ns|] == ns;
  }

  /** `v` still has what `w` had queued and everything queued since, has sent nothing since,
      and has told nobody of a rejection since. */
  ghost predicate Frozen(w: World, v: World) {
    && v.client.dormant
    && v.dispatches == w.dispatches && v.sent == w.sent
    && Rejections(v.client) == Rejections(w.client)
    && w.history <= v.history
    && (forall a :: Covered(w.client.pending, a) ==> Covered(v.client.pending, a))
    && (forall k :: |w.history| <= k < |v.history| ==> Covered(v.client.pending, v.history[k]))
  }

  lemma DormantEnqueue(w: World, e: Event)
    requires Valid(w.client) && w.client.dormant && (e.EnqueueSnap? || e.EnqueueViol?)
    ensures Frozen(w, Next(w, e))
  {
    EnqueueEffect(w, e);
  }

  lemma DormantStep(w: World, e: Event)
    requires Valid(w.client) && w.client.dormant && !e.Resumed?
    ensures Valid(Next(w, e).client) && Frozen(w, Next(w, e))
  {
    NextKeepsValid(w, e);
    match e
    case EnqueueSnap(_, _) => DormantEnqueue(w, e);
    case EnqueueViol(_, _) => DormantEnqueue(w, e);
    case AppendSaved => NoticesAdd(w.client.notices, Depth(|w.client.pending|));
    case _ =>
  }

  lemma FrozenTransitive(u: World, v: World, w: World)
    requires Frozen(u, v) && Frozen(v, w)
    ensures Frozen(u, w)
  {
    forall k | |u.history| <= k < |w.history|
      ensures Covered(w.client.pending, w.history[k])
    {
      if k < |v.history| {
        assert w.history[k] == v.history[k];
      }
    }
  }

  lemma {:induction false} DormantRun(w: World, es: seq<Event>)
    requires Valid(w.client) && w.client.dormant && forall e :: e in es ==> !e.Resumed?
    ensures Frozen(w, Run(w, es))
    decreases |es|
  {
    if es != [] {
      assert es[0] in es;
      DormantStep(w, es[0]);
      DormantRun(Next(w, es[0]), es[1..]);
      FrozenTransitive(w, Next(w, es[0]), Run(w, es));
    }
  }

  /** From a 401 until resume(), over every run: nothing is dispatched, the auth callback fires
      exactly once, and each action queued before or since is still queued, or its slot's newer
      snapshot is; violations are never replaced. */
  lemma UnauthorizedFreezesQueue(w: World, es: seq<Event>)
    requires Valid(w.client) && w.client.phase.Dispatching? && forall e :: e in es ==> !e.Resumed?
    ensures Valid(Next(w, Unauthorized).client)
    ensures var v := Run(Next(w, Unauthorized), es);
            && v.client.dormant && v.dispatches == w.dispatches && v.sent == w.sent
            && Rejections(v.client) == Rejections(w.client) + 1
            && (forall a :: a in w.client.pending ==> Covered(v.client.pending, a))
            && w.history <= v.history
            && (forall k :: |w.history| <= k < |v.history| ==> Covered(v.client.pending, v.history[k]))
            && (forall a :: Covered(v.client.pending, a) && a.Violation? ==> a in v.client.pending)
  {
    var w1 := Next(w, Unauthorized);
    ShiftKeepsValid(w.client);
    NoticesAdd(w.client.notices, AuthRejected);
    DormantRun(w1, es);
    assert forall a :: a in w.client.pending ==> Covered(w1.client.pending, a);
  }

  // ---- the sequence number handed back to the caller ----

  function Enqueues(es: seq<Event>): nat
    decreases |es|
  {
    if es == [] then 0 else (if es[0].EnqueueSnap? || es[0].EnqueueViol? then 1 else 0) + Enqueues(es[1..])
  }

  lemma CounterStep(w: World, e: Event)
    requires Valid(w.client)
    ensures Valid(Next(w, e).client)
    ensures Next(w, e).client.counter == w.client.counter + if e.EnqueueSnap? || e.EnqueueViol? then 1 else 0
  {
    NextKeepsValid(w, e);
    if e.EnqueueSnap? || e.EnqueueViol? {
      EnqueueEffect(w, e);
    }
  }

  lemma {:induction false} CounterCountsEnqueues(w: World, es: seq<Event>)
    requires Valid(w.client)
    ensures Run(w, es).client.counter == w.client.counter + Enqueues(es)
    decreases |es|
  {
    if es != [] {
      CounterStep(w, es[0]);
      CounterCountsEnqueues(Next(w, es[0]), es[1..]);
    }
  }

  /** enqueueSnapshot answers with the counter as it stands after the save. That is the number
      of the caller's own snapshot if and only if nothing else was queued meanwhile. */
  lemma ReportedSeqIsOwnIff(w: World, slot: int, body: Body, es: seq<Event>)
    requires Valid(w.client)
    ensures Valid(Next(w, EnqueueSnap(slot, body)).client)
    ensures var own := Snapshot(slot, w.client.counter + 1, body);
            var reported := Run(Next(w, EnqueueSnap(slot, body)), es).client.counter;
            own in Next(w, EnqueueSnap(slot, body)).client.pending
            && (reported == own.actionSeq <==> forall e :: e in es ==> !e.EnqueueSnap? && !e.EnqueueViol?)
  {
    var e := EnqueueSnap(slot, body);
    NextKeepsValid(w, e);
    AppendKeepsValid(w.client, Snapshot(slot, w.client.counter + 1, body));
    CounterCountsEnqueues(Next(w, e), es);
    NoEnqueues(es);
  }

  lemma {:induction false} NoEnqueues(es: seq<Event>)
    ensures Enqueues(es) == 0 <==> forall e :: e in es ==> !e.EnqueueSnap? && !e.EnqueueViol?
    decreases |es|
  {
    if es != [] {
      NoEnqueues(es[1..]);
      assert forall e :: e in es <==> e == es[0] || e in es[1..];
    }
  }

  // ---- concrete runs ----

  function EmptyStart(rows: map<int, Row>, codes: seq<string>): World {
    World(Hydrated([], []), rows, codes, [], {}, multiset{}, false, 0)
  }

  lemma OneActionCollapses(a: Action)
    ensures Collapse([a]) == [a]
  {
    assert [a][1..] == [];
  }

  lemma HydratedEmpty()
    ensures Hydrated([], []) == Client([], [], 0, false, None, Idle, 0, [Depth(0)])
    ensures Valid(Hydrated([], []))
  {
  }

  lemma AppendToEmpty(c: Client, a: Action)
    requires c.pending == [] && c.attempts == []
    ensures Append(c, a) == c.(pending := [a], attempts := [0], saving := c.saving + 1)
  {
    OneActionCollapses(a);
    assert c.pending + [a] == [a];
    assert c.attempts + [0] == [0];
  }

  lemma FirstEnqueue(w: World, slot: int, body: Body)
    requires w.client == Hydrated([], [])
    ensures Valid(w.client)
    ensures var a, w' := Snapshot(slot, 1, body), Next(w, EnqueueSnap(slot, body));
            && w' == w.(client := w'.client, history := w.history + [a])
            && w'.client == Client([a], [0], 1, false, None, Idle, 1, [Depth(0)])
  {
    HydratedEmpty();
    AppendToEmpty(w.client.(counter := 1), Snapshot(slot, 1, body));
  }

  lemma SaveAndSend(w: World, a: Action)
    requires Valid(w.client) && w.client == Client([a], [0], 1, false, None, Idle, 1, [Depth(0)])
    ensures var v := Next(w, AppendSaved);
            && Valid(v.client)
            && var u := Next(v, TimerFires);
               && Valid(u.client) && u.client.pending == [a] && u.client.attempts == [0] && u.client.counter == 1
               && u.client.phase == Dispatching(a, 0) && u.sent == w.sent + {a} && !u.landed
               && u.rows == w.rows && u.codes == w.codes && u.history == w.history
  {
    NextKeepsValid(w, AppendSaved);
    var v := Next(w, AppendSaved);
    assert v.client.timer == Some(0) && v == w.(client := v.client);
    NextKeepsValid(v, TimerFires);
  }

  /** Queue one snapshot on an empty queue and start sending it. */
  lemma FirstDispatch(w: World, slot: int, body: Body)
    requires w.client == Hydrated([], [])
    ensures Valid(w.client)
    ensures var a := Snapshot(slot, 1, body);
            var v := Run(w, [EnqueueSnap(slot, body), AppendSaved, TimerFires]);
            && Valid(v.client) && v.client.pending == [a] && v.client.attempts == [0] && v.client.counter == 1
            && v.client.phase == Dispatching(a, 0) && v.sent == w.sent + {a} && !v.landed
            && v.rows == w.rows && v.codes == w.codes && v.history == w.history + [a]
  {
    var e := EnqueueSnap(slot, body);
    FirstEnqueue(w, slot, body);
    NextKeepsValid(w, e);
    SaveAndSend(Next(w, e), Snapshot(slot, 1, body));
    RunThree(w, e, AppendSaved, TimerFires);
  }

  /** After hydrating an empty store the counter restarts at 0. The first snapshot then queued,
      sent and acknowledged ends up in its row if and only if the row's sequence number is
      below 1 (or the row already was that snapshot); otherwise it vanishes without an error. */
  lemma RestartedCounterTakesEffectIff(rows: map<int, Row>, codes: seq<string>, slot: int, body: Body, at: int)
    requires 0 <= slot < |codes|
    ensures var w := EmptyStart(rows, codes);
            Valid(w.client)
            && (var mid := Run(w, [EnqueueSnap(slot, body), AppendSaved, TimerFires]);
                Valid(mid.client)
                && (var end := Run(mid, [Arrive(Snapshot(slot, 1, body), at), Acked, ShiftIsSaved]);
                    && end.client.pending == [] && slot in end.rows
                    && (CarriedBy(end.rows, Snapshot(slot, 1, body))
                        <==> Behind(rows, Snapshot(slot, 1, body)) || CarriedBy(rows, Snapshot(slot, 1, body)))))
  {
    var w := EmptyStart(rows, codes);
    FirstDispatch(w, slot, body);
    DeliverOnly(Run(w, [EnqueueSnap(slot, body), AppendSaved, TimerFires]), slot, body, at);
  }

  /** The only pending action arrives and is acknowledged. */
  lemma DeliverOnly(w: World, slot: int, body: Body, at: int)
    requires Valid(w.client) && 0 <= slot < |w.codes|
    requires var a := Snapshot(slot, 1, body);
             w.client.pending == [a] && w.client.phase.Dispatching? && w.client.phase.action == a && w.sent == {a}
    ensures var a := Snapshot(slot, 1, body);
            var end := Run(w, [Arrive(a, at), Acked, ShiftIsSaved]);
            && end.client.pending == []
            && end.rows == w.rows[slot := Upsert(Lookup(w.rows, slot), w.codes[slot], ToPatch(a, at))]
  {
    var a := Snapshot(slot, 1, body);
    RunThree(w, Arrive(a, at), Acked, ShiftIsSaved);
    var w1 := Next(w, Arrive(a, at));
    assert w1 == ServerApply(w, a, at) && w1.landed;
    var w2 := Next(w1, Acked);
    assert w2.client.pending == [] && w2.rows == w1.rows && w2.client.phase == ShiftSaving;
  }

  /** The lost answer, in full: slot 0 is answered, the answer is changed while the first version
      is in flight, the POST succeeds. The queue is empty and the server keeps the first version. */
  lemma LostAnswer(first: Body, second: Body, at: int)
    ensures var w := EmptyStart(map[], ["Q"]);
            Valid(w.client)
            && (var mid := Run(w, [EnqueueSnap(0, first), AppendSaved, TimerFires]);
                Valid(mid.client)
                && (var end := Run(mid, [EnqueueSnap(0, second), Arrive(Snapshot(0, 1, first), at), Acked]);
                    && end.client.pending == [] && IsNewest(end.history, Snapshot(0, 2, second))
                    && CarriedBy(end.rows, Snapshot(0, 1, first))))
  {
    var w := EmptyStart(map[], ["Q"]);
    FirstDispatch(w, 0, first);
    OverwriteInFlight(Run(w, [EnqueueSnap(0, first), AppendSaved, TimerFires]), first, second, at);
  }

  /** Queueing the second version drops the first from the queue, not from the wire. */
  lemma OverwriteQueued(w: World, first: Body, second: Body)
    requires var a := Snapshot(0, 1, first);
             && Valid(w.client) && w.client.pending == [a] && w.client.counter == 1 && w.history == [a]
    ensures var b, w1 := Snapshot(0, 2, second), Next(w, EnqueueSnap(0, second));
            && Valid(w1.client) && w1.client.pending == [b] && w1.client.phase == w.client.phase
            && w1 == w.(client := w1.client, history := [Snapshot(0, 1, first), b])
  {
    var a, b, e := Snapshot(0, 1, first), Snapshot(0, 2, second), EnqueueSnap(0, second);
    ClobberingAppendDropsHead(w.client, b);
    EnqueueEffect(w, e);
    assert [a][1..] + [b] == [b] && [a] + [b] == [a, b];
  }

  lemma OverwriteInFlight(w: World, first: Body, second: Body, at: int)
    requires var a := Snapshot(0, 1, first);
             && Valid(w.client) && w.client.pending == [a] && w.client.counter == 1
             && w.client.phase == Dispatching(a, 0)
             && w.sent == {a} && w.rows == map[] && w.codes == ["Q"] && w.history == [a]
    ensures var end := Run(w, [EnqueueSnap(0, second), Arrive(Snapshot(0, 1, first), at), Acked]);
            && end.client.pending == [] && IsNewest(end.history, Snapshot(0, 2, second))
            && CarriedBy(end.rows, Snapshot(0, 1, first))
  {
    var a, b := Snapshot(0, 1, first), Snapshot(0, 2, second);
    OverwriteQueued(w, first, second);
    RunThree(w, EnqueueSnap(0, second), Arrive(a, at), Acked);
    StaleAck(Next(w, EnqueueSnap(0, second)), a, b, at);
  }

  /** The queue holds only `b`, yet it is `a` that arrives and is acknowledged. */
  lemma StaleAck(w: World, a: Action, b: Action, at: int)
    requires Valid(w.client) && w.client.pending == [b] && w.client.phase == Dispatching(a, 0) && a in w.sent
    requires a.Snapshot? && a.slot == 0 && w.codes == ["Q"] && w.rows == map[]
    requires b.Snapshot? && b.slot == 0 && b.actionSeq > a.actionSeq && w.history == [a, b]
    ensures Valid(Next(w, Arrive(a, at)).client)
    ensures var end := Next(Next(w, Arrive(a, at)), Acked);
            && end.client.pending == [] && IsNewest(end.history, b)
            && CarriedBy(end.rows, a)
  {
    var w2 := Next(w, Arrive(a, at));
    assert w2 == ServerApply(w, a, at) && w2.landed;
    assert forall x :: x in [a, b] <==> x == a || x == b;
  }
}
