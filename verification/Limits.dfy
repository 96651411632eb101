/** Where convergence ends, exactly: a snapshot queued while its slot's older one is in flight meets a
    positional shift, and an action is dropped that was never sent. */
module Limits {
  import opened Actions
  import opened QueueState
  import opened Replication
  import opened Convergence

  // ---- which actions are ever sent ----

  /** An acknowledgement shifts `a` out of the queue although it was another action that was dispatched. */
  ghost predicate ShiftsUnsent(w: World, e: Event, a: Action) {
    && e.Acked? && Enabled(w, e)
    && w.client.pending != [] && w.client.pending[0] == a && w.client.phase.action != a
  }

  ghost predicate EverShiftedUnsent(w: World, es: seq<Event>, a: Action)
    requires Valid(w.client)
    decreases |es|
  {
    es != [] && (ShiftsUnsent(w, es[0], a) || (NextKeepsValid(w, es[0]); EverShiftedUnsent(Next(w, es[0]), es[1..], a)))
  }

  lemma GoneStaysUnsentStep(w: World, e: Event, a: Action)
    requires Recorded(w) && a in w.history && a !in w.client.pending && a !in w.sent
    ensures Recorded(Next(w, e)) && a in Next(w, e).history
    ensures a !in Next(w, e).client.pending && a !in Next(w, e).sent
  {
    NextKeepsRecorded(w, e);
    if IsQueueing(e) {
      EnqueueEffect(w, e);
    } else if Enabled(w, e) {
      if e.Acked? {
        AckEffect(w);
      } else if IsSending(e) {
        SendingStep(w, e);
      }
    }
  }

  lemma {:induction false} GoneStaysUnsent(w: World, es: seq<Event>, a: Action)
    requires Recorded(w) && a in w.history && a !in w.client.pending && a !in w.sent
    ensures a !in Run(w, es).sent
    decreases |es|
  {
    if es != [] {
      GoneStaysUnsentStep(w, es[0], a);
      GoneStaysUnsent(Next(w, es[0]), es[1..], a);
    }
  }

  /** Not queued yet, still queued, sent, or overtaken: the ways not to have been dropped. */
  ghost predicate OnItsWay(w: World, a: Action) {
    a !in w.history || a in w.client.pending || a in w.sent || Overtaken(w.history, a)
  }

  lemma OvertakenStays(w: World, e: Event, a: Action)
    requires Recorded(w) && Overtaken(w.history, a)
    ensures Overtaken(Next(w, e).history, a)
  {
    NextKeepsRecorded(w, e);
    var b :| b in w.history && b.Snapshot? && b.slot == a.slot && b.actionSeq > a.actionSeq;
    assert b in Next(w, e).history;
  }

  lemma EnqueueKeepsOnItsWay(w: World, e: Event, a: Action)
    requires Recorded(w) && IsQueueing(e) && OnItsWay(w, a)
    ensures OnItsWay(Next(w, e), a)
  {
    var w' := Next(w, e);
    EnqueueEffect(w, e);
    if Overtaken(w.history, a) {
      OvertakenStays(w, e, a);
    } else if a in w.client.pending && a !in w'.client.pending {
      assert Covered(w'.client.pending, a);
      var c :| c in w'.client.pending && a.Snapshot? && c.Snapshot? && c.slot == a.slot && c.actionSeq > a.actionSeq;
      assert c in w'.history;
    }
  }

  lemma StepKeepsOnItsWay(w: World, e: Event, a: Action)
    requires Recorded(w) && Handed(w) && OnItsWay(w, a) && !ShiftsUnsent(w, e, a)
    ensures OnItsWay(Next(w, e), a)
  {
    if IsQueueing(e) {
      EnqueueKeepsOnItsWay(w, e, a);
    } else if Enabled(w, e) {
      if Overtaken(w.history, a) {
        OvertakenStays(w, e, a);
      } else if e.Acked? {
        AckEffect(w);
      } else if IsSending(e) {
        SendingStep(w, e);
      }
    }
  }

  lemma {:induction false} UnshiftedIsOnItsWay(w: World, es: seq<Event>, a: Action)
    requires Recorded(w) && Handed(w) && OnItsWay(w, a) && !EverShiftedUnsent(w, es, a)
    ensures OnItsWay(Run(w, es), a)
    decreases |es|
  {
    if es != [] {
      StepKeepsOnItsWay(w, es[0], a);
      NextKeepsRecorded(w, es[0]);
      NextKeepsHanded(w, es[0]);
      UnshiftedIsOnItsWay(Next(w, es[0]), es[1..], a);
    }
  }

  lemma ShiftedIsGone(w: World, a: Action)
    requires Recorded(w) && Handed(w) && ShiftsUnsent(w, Acked, a)
    ensures Recorded(Next(w, Acked)) && a in Next(w, Acked).history
    ensures a !in Next(w, Acked).client.pending && a !in Next(w, Acked).sent
  {
    NextKeepsRecorded(w, Acked);
    AckEffect(w);
    assert a in w.client.pending;
  }

  lemma {:induction false} ShiftedIsNeverSent(w: World, es: seq<Event>, a: Action)
    requires Recorded(w) && Handed(w) && EverShiftedUnsent(w, es, a)
    ensures a !in Run(w, es).sent
    decreases |es|
  {
    NextKeepsRecorded(w, es[0]);
    NextKeepsHanded(w, es[0]);
    if ShiftsUnsent(w, es[0], a) {
      ShiftedIsGone(w, a);
      GoneStaysUnsent(Next(w, es[0]), es[1..], a);
    } else {
      ShiftedIsNeverSent(Next(w, es[0]), es[1..], a);
    }
  }

  /** The exact cause of a lost action, over every run whatever: a violation, or the newest snapshot
      of a slot, that has left the queue was never handed to the network if and only if some
      acknowledgement of another action shifted it out. */
  lemma NeverSentIff(w: World, es: seq<Event>, a: Action)
    requires Hydration(w)
    ensures Valid(w.client)
    ensures var end := Run(w, es);
            a in end.history && a !in end.client.pending && !Overtaken(end.history, a) ==>
              (a !in end.sent <==> EverShiftedUnsent(w, es, a))
  {
    HydrationIsSound(w);
    if EverShiftedUnsent(w, es, a) {
      ShiftedIsNeverSent(w, es, a);
    } else {
      UnshiftedIsOnItsWay(w, es, a);
    }
  }

  /** Put together: when a run, disturbed or not, has emptied the queue, a slot's row carries its newest
      snapshot if and only if it did before, or it was behind that snapshot and no acknowledgement of
      another action shifted the snapshot out. */
  lemma ConvergedIffNeverShifted(w: World, es: seq<Event>, a: Action)
    requires Hydration(w)
    ensures Valid(w.client)
    ensures var end := Run(w, es);
            IsNewest(end.history, a) && a !in end.client.pending ==>
              (CarriedBy(end.rows, a) <==>
                 CarriedBy(w.rows, a) || (Behind(w.rows, a) && !EverShiftedUnsent(w, es, a)))
  {
    NewestIsCarriedIff(w, es, a);
    NeverSentIff(w, es, a);
  }

  // ---- the append that causes it ----

  lemma ClobberingAppendDropsHead(c: Client, a: Action)
    requires Valid(c) && c.pending != [] && a.Snapshot? && c.pending[0].Snapshot? && a.slot == c.pending[0].slot
    ensures Append(c, a).pending == c.pending[1..] + [a]
  {
    var pushed := c.pending + [a];
    assert pushed[|c.pending|] == a && !Kept(pushed, 0);
    CollapseStep(pushed, 0);
    assert pushed[0..] == pushed && pushed[1..] == c.pending[1..] + [a];
    OnePerSlotIsCollapsed(pushed[1..]);
  }

  /** What is at the front of the queue when a clobbered dispatch is acknowledged is shifted out
      although it was never sent. */
  lemma ShiftDropsUnsentHead(w: World)
    requires Recorded(w) && Handed(w) && Enabled(w, Acked) && w.client.pending[0] != w.client.phase.action
    ensures Dropped(Next(w, Acked), w.client.pending[0])
  {
    var x := w.client.pending[0];
    assert x in w.client.pending && x !in w.sent;
    ShiftedIsGone(w, x);
  }

  lemma ClobberingAppend(w: World, slot: int, body: Body)
    requires Recorded(w) && Handed(w) && HeadInFlight(w) && Clobbers(w, EnqueueSnap(slot, body))
    ensures var w1 := Next(w, EnqueueSnap(slot, body));
            && Recorded(w1) && Handed(w1) && w1.codes == w.codes && w1.sent == w.sent
            && w1.client.phase == w.client.phase && w1.client.pending != []
            && w1.client.pending[0] != w.client.phase.action
  {
    var e := EnqueueSnap(slot, body);
    NextKeepsRecorded(w, e);
    NextKeepsHanded(w, e);
    EnqueueEffect(w, e);
    ClobberingAppendDropsHead(w.client, Queued(w, e));
    if |w.client.pending| > 1 {
      assert Next(w, e).client.pending[0] == w.client.pending[1];
      assert w.client.pending[0].actionSeq < w.client.pending[1].actionSeq;
    } else {
      assert Next(w, e).client.pending[0] == Queued(w, e);
      assert w.client.pending[0] in w.client.pending;
    }
  }

  lemma ClobberedAckDrops(w: World, slot: int, body: Body, at: int)
    requires Recorded(w) && Handed(w) && HeadInFlight(w) && Clobbers(w, EnqueueSnap(slot, body))
             && 0 <= slot < |w.codes|
    ensures !NothingDropped(Run(w, [EnqueueSnap(slot, body), Arrive(w.client.phase.action, at), Acked]))
  {
    var e1, e2 := EnqueueSnap(slot, body), Arrive(w.client.phase.action, at);
    ClobberingAppend(w, slot, body);
    RunThree(w, e1, e2, Acked);
    var w1 := Next(w, e1);
    var w2 := Next(w1, e2);
    assert w2 == ServerApply(w1, w.client.phase.action, at);
    NextKeepsRecorded(w1, e2);
    NextKeepsHanded(w1, e2);
    ShiftDropsUnsentHead(w2);
  }

  lemma RunThree(w: World, e1: Event, e2: Event, e3: Event)
    requires Valid(w.client)
    ensures Valid(Next(w, e1).client) && Valid(Next(Next(w, e1), e2).client)
    ensures Run(w, [e1, e2, e3]) == Next(Next(Next(w, e1), e2), e3)
  {
    NextKeepsValid(w, e1);
    NextKeepsValid(Next(w, e1), e2);
    NextKeepsValid(Next(Next(w, e1), e2), e3);
    assert [e1, e2, e3][1..] == [e2, e3] && [e2, e3][1..] == [e3] && [e3][1..] == [];
    assert Run(w, [e1, e2, e3]) == Run(Next(w, e1), [e2, e3]);
    assert Run(Next(w, e1), [e2, e3]) == Run(Next(Next(w, e1), e2), [e3]);
  }

  /** Seen from the append. In any state an undisturbed run can reach, from any store and next to any
      rows, queue a snapshot while an action is being dispatched and let that dispatch succeed: nothing
      is dropped unsent if and only if the new snapshot is not for the slot in flight. */
  lemma AppendDuringDispatchIsSafeIff(w: World, es: seq<Event>, slot: int, body: Body, at: int)
    requires Hydration(w) && Undisturbed(w, es)
    requires var now := Run(w, es); now.client.phase.Dispatching? && 0 <= slot < |now.codes|
    requires var a := Run(w, es).client.phase.action; a.Snapshot? ==> 0 <= a.slot < |Run(w, es).codes|
    ensures var now := Run(w, es);
            Valid(now.client)
            && (NothingDropped(Run(now, [EnqueueSnap(slot, body), Arrive(now.client.phase.action, at), Acked]))
                <==> !(now.client.phase.action.Snapshot? && now.client.phase.action.slot == slot))
  {
    HydrationIsSound(w);
    HydrationDropsNothing(w);
    UndisturbedRun(w, es);
    RunIsSound(w.rows, w, es);
    var now := Run(w, es);
    var e1, e2 := EnqueueSnap(slot, body), Arrive(now.client.phase.action, at);
    if Clobbers(now, e1) {
      ClobberedAckDrops(now, slot, body, at);
    } else {
      RunThree(now, e1, e2, Acked);
      UndisturbedStep(now, e1);
      UndisturbedStep(Next(now, e1), e2);
      UndisturbedStep(Next(Next(now, e1), e2), Acked);
    }
  }
}
