/** What a run of the replication protocol guarantees, whatever the rows held before it: which
    snapshots reach the server, and what each row carries once the queue is empty. */
module Convergence {
  import opened Snapshots
  import opened Actions
  import opened QueueState
  import opened Replication

  ghost predicate Overtaken(history: seq<Action>, a: Action) {
    a.Snapshot? && exists b :: b in history && b.Snapshot? && b.slot == a.slot && b.actionSeq > a.actionSeq
  }

  /** The newest snapshot a slot was ever given in this incarnation. */
  ghost predicate IsNewest(history: seq<Action>, a: Action) {
    a in history && a.Snapshot? && !Overtaken(history, a)
  }

  predicate Carries(row: Row, a: Action)
    requires a.Snapshot?
  {
    row.actionSeq == a.actionSeq && row.answer == a.body.answer && row.marked == a.body.marked
  }

  ghost predicate Processed(w: World, a: Action) {
    match a
    case Snapshot(slot, seqNo, _) => slot in w.rows && w.rows[slot].actionSeq >= seqNo
    case Violation(seqNo, _, _) => seqNo in w.heard
  }

  ghost predicate Recorded(w: World) {
    && Valid(w.client)
    && Increasing(w.history)
    && (forall a :: a in w.history ==> 1 <= a.actionSeq <= w.client.counter)
    && (forall a :: a in w.client.pending ==> a in w.history && !Overtaken(w.history, a))
    && (forall a :: a in w.sent ==> a in w.history)
  }

  /** What was handed to the network is still at the head of the queue, overtaken, or processed; and an
      acknowledged dispatch is one the server has processed. */
  ghost predicate Handed(w: World) {
    && (forall a :: a in w.sent ==> a in w.client.pending || Overtaken(w.history, a) || Processed(w, a))
    && (forall a :: a in w.client.pending && a in w.sent ==> a == w.client.pending[0])
    && (w.client.phase.Dispatching? ==>
          && w.client.phase.action in w.sent && w.client.pending != []
          && (w.client.pending[0] in w.sent ==> w.client.pending[0] == w.client.phase.action)
          && (w.landed ==> Processed(w, w.client.phase.action)))
  }

  /** A row is what it was before the run, up to visits, time and hints, or carries a sent snapshot of
      its slot that is newer than that. */
  ghost predicate RowFollows(rows0: map<int, Row>, sent: set<Action>, slot: int, row: Row) {
    || (slot in rows0 && row.actionSeq == rows0[slot].actionSeq
        && row.answer == rows0[slot].answer && row.marked == rows0[slot].marked)
    || (slot !in rows0 && row.actionSeq == 0)
    || (exists b :: b in sent && b.Snapshot? && b.slot == slot && Carries(row, b)
                    && (slot in rows0 ==> b.actionSeq > rows0[slot].actionSeq))
  }

  ghost predicate RowsFollow(rows0: map<int, Row>, w: World) {
    && (forall s :: s in rows0 ==> s in w.rows && w.rows[s].actionSeq >= rows0[s].actionSeq)
    && (forall s :: s in w.rows ==> RowFollows(rows0, w.sent, s, w.rows[s]))
  }

  ghost predicate Sound(rows0: map<int, Row>, w: World) {
    Recorded(w) && Handed(w) && RowsFollow(rows0, w)
  }

  /** A queue hydrated from its store, next to rows about which nothing is known: an earlier
      incarnation may have left them ahead of the store or behind it. */
  ghost predicate Hydration(w: World) {
    && GoodStore(w.client.pending, w.client.attempts)
    && w.client == Hydrated(w.client.pending, w.client.attempts)
    && w.history == w.client.pending && w.sent == {} && w.heard == multiset{} && !w.landed
  }

  lemma HydrationIsSound(w: World)
    requires Hydration(w)
    ensures Sound(w.rows, w) && NoStall(w.client)
  {
    HydratedIsValid(w.client.pending, w.client.attempts);
    forall a | a in w.client.pending
      ensures !Overtaken(w.history, a)
    {
      var i :| 0 <= i < |w.history| && w.history[i] == a;
    }
  }

  lemma SameSeqSameAction(xs: seq<Action>, a: Action, b: Action)
    requires Increasing(xs) && a in xs && b in xs && a.actionSeq == b.actionSeq
    ensures a == b
  {
    var i :| 0 <= i < |xs| && xs[i] == a;
    var j :| 0 <= j < |xs| && xs[j] == b;
    assert i == j;
  }

  lemma HeadIsOldest(c: Client, a: Action)
    requires Valid(c) && a in c.pending
    ensures c.pending[0].actionSeq <= a.actionSeq && (a.actionSeq == c.pending[0].actionSeq ==> a == c.pending[0])
  {
    var i :| 0 <= i < |c.pending| && c.pending[i] == a;
  }

  // ---- the effect of each kind of step ----

  predicate IsQueueing(e: Event) {
    e.EnqueueSnap? || e.EnqueueViol?
  }

  function Queued(w: World, e: Event): Action
    requires IsQueueing(e)
  {
    var n := w.client.counter + 1;
    if e.EnqueueSnap? then Snapshot(e.slot, n, e.body) else Violation(n, e.kind, e.active)
  }

  /** The effect of an enqueue event on the queue, in the terms the invariants speak of. */
  lemma EnqueueEffect(w: World, e: Event)
    requires Valid(w.client) && IsQueueing(e)
    ensures var a, w' := Queued(w, e), Next(w, e);
            && w'.client == Append(w.client, a).(counter := w.client.counter + 1)
            && w' == w.(client := w'.client, history := w.history + [a])
            && Valid(w'.client)
            && (forall b :: b in w'.client.pending ==> b in w.client.pending || b == a)
            && (forall b :: Covered(w.client.pending, b) || b == a ==> Covered(w'.client.pending, b))
            && a in w'.client.pending
  {
    AppendKeepsValid(w.client, Queued(w, e));
  }

  /** A step of the drain loop and its awaits: it leaves what is pending alone and sends at most the head. */
  ghost predicate OnlySends(w: World, w': World) {
    && w'.client.pending == w.client.pending && w'.client.counter == w.client.counter
    && w'.rows == w.rows && w'.history == w.history && w'.heard == w.heard && w'.codes == w.codes
    && (|| (w'.sent == w.sent
            && (w'.client.phase.Dispatching? ==> w'.client.phase == w.client.phase && w'.landed == w.landed))
        || (w.client.pending != [] && w'.sent == w.sent + {w.client.pending[0]} && !w'.landed
            && w'.client.phase.Dispatching? && w'.client.phase.action == w.client.pending[0]))
  }

  predicate IsSending(e: Event) {
    !IsQueueing(e) && !e.Arrive? && !e.HintRevealed? && !e.Acked?
  }

  lemma DrainSends(w: World, e: Event)
    requires Valid(w.client) && Enabled(w, e) && (e.TimerFires? || e.DrainPoll? || e.ShiftIsSaved?)
    ensures OnlySends(w, Next(w, e))
  {
  }

  lemma QuietStepSends(w: World, e: Event)
    requires Valid(w.client) && Enabled(w, e)
    requires e.AppendSaved? || e.NetworkError? || e.Unauthorized? || e.FailureIsSaved? || e.Resumed?
    ensures OnlySends(w, Next(w, e))
  {
  }

  lemma SendingStep(w: World, e: Event)
    requires Valid(w.client) && Enabled(w, e) && IsSending(e)
    ensures Valid(Next(w, e).client) && OnlySends(w, Next(w, e))
  {
    NextKeepsValid(w, e);
    if e.TimerFires? || e.DrainPoll? || e.ShiftIsSaved? {
      DrainSends(w, e);
    } else {
      QuietStepSends(w, e);
    }
  }

  /** The effect of an acknowledged dispatch: the first pending action is gone, whichever it is. */
  lemma AckEffect(w: World)
    requires Valid(w.client) && Enabled(w, Acked)
    ensures var w' := Next(w, Acked);
            && w.client.pending != [] && w' == w.(client := w'.client) && Valid(w'.client)
            && w'.client.pending == w.client.pending[1..] && w'.client.counter == w.client.counter
            && !w'.client.phase.Dispatching?
            && (forall a :: a in w.client.pending ==> a == w.client.pending[0] || a in w'.client.pending)
            && (forall a :: a in w'.client.pending ==>
                  && a in w.client.pending
                  && a.actionSeq > w.client.pending[0].actionSeq)
  {
    ShiftKeepsValid(w.client);
    forall a | a in w.client.pending && a != w.client.pending[0]
      ensures a in w.client.pending[1..]
    {
      var i :| 0 <= i < |w.client.pending| && w.client.pending[i] == a;
      assert w.client.pending[1..][i - 1] == a;
    }
  }

  /** The effect of an UPSERT on the part of a row the invariants speak of. */
  lemma RowAdvances(rows: map<int, Row>, slot: int, d: Delivery, code: string)
    requires !d.Late? && (d.Patch? ==> d.actionSeq >= 1)
    ensures var row := Upsert(Lookup(rows, slot), code, d);
            && (slot in rows ==> row.actionSeq >= rows[slot].actionSeq)
            && (d.Patch? ==> row.actionSeq >= d.actionSeq)
            && (|| (d.Patch? && row.actionSeq == d.actionSeq && row.answer == d.answer && row.marked == d.marked
                    && (slot in rows ==> d.actionSeq > rows[slot].actionSeq))
                || (slot in rows && row.actionSeq == rows[slot].actionSeq
                    && row.answer == rows[slot].answer && row.marked == rows[slot].marked)
                || (slot !in rows && row.actionSeq == 0))
  {
  }

  // ---- Recorded ----

  lemma EnqueueKeepsRecorded(w: World, e: Event)
    requires Recorded(w) && IsQueueing(e)
    ensures Recorded(Next(w, e))
  {
    var a, w' := Queued(w, e), Next(w, e);
    EnqueueEffect(w, e);
    assert forall b :: b in w'.history <==> b in w.history || b == a;
    forall b | b in w'.client.pending
      ensures !Overtaken(w'.history, b)
    {
      if b != a && b.Snapshot? && a.Snapshot? {
        var i :| 0 <= i < |w'.client.pending| && w'.client.pending[i] == a;
        var j :| 0 <= j < |w'.client.pending| && w'.client.pending[j] == b;
        assert b.slot != a.slot;
      }
    }
  }

  lemma NextKeepsRecorded(w: World, e: Event)
    requires Recorded(w)
    ensures Valid(w.client) && Recorded(Next(w, e))
    ensures Next(w, e).history == w.history + if IsQueueing(e) then [Queued(w, e)] else []
  {
    if IsQueueing(e) {
      EnqueueEffect(w, e);
      EnqueueKeepsRecorded(w, e);
    } else if Enabled(w, e) {
      if e.Acked? {
        AckEffect(w);
      } else if IsSending(e) {
        SendingStep(w, e);
      }
    }
  }

  // ---- Handed ----

  lemma EnqueueKeepsHanded(w: World, e: Event)
    requires Recorded(w) && Handed(w) && IsQueueing(e)
    ensures Handed(Next(w, e))
  {
    var a, w' := Queued(w, e), Next(w, e);
    EnqueueEffect(w, e);
    assert a !in w.sent;
    assert forall b :: b in w'.history <==> b in w.history || b == a;
    assert forall b :: Overtaken(w.history, b) ==> Overtaken(w'.history, b);
    assert forall b :: Processed(w, b) <==> Processed(w', b);
    forall b | b in w'.client.pending && b in w.sent
      ensures b == w'.client.pending[0]
    {
      HeadIsOldest(w'.client, b);
      var first := w'.client.pending[0];
      assert first in w'.client.pending;
      if first in w.client.pending {
        HeadIsOldest(w.client, first);
      }
    }
    forall b | b in w.sent && b !in w'.client.pending
      ensures Overtaken(w'.history, b) || Processed(w', b)
    {
      if b in w.client.pending {
        assert Covered(w'.client.pending, b);
        var c :| c in w'.client.pending && b.Snapshot? && c.Snapshot? && c.slot == b.slot && c.actionSeq > b.actionSeq;
        assert c in w'.history;
      }
    }
  }

  lemma SendKeepsHanded(w: World, w': World)
    requires Handed(w) && Valid(w'.client) && OnlySends(w, w')
    ensures Handed(w')
  {
    assert forall b :: Processed(w, b) <==> Processed(w', b);
    if w.client.pending != [] {
      assert w.client.pending[0] in w.client.pending;
    }
  }

  lemma AckKeepsHanded(w: World)
    requires Recorded(w) && Handed(w) && Enabled(w, Acked)
    ensures Handed(Next(w, Acked))
  {
    var w' := Next(w, Acked);
    AckEffect(w);
    assert forall b :: Processed(w, b) <==> Processed(w', b);
  }

  lemma ServerKeepsHanded(w: World, w': World)
    requires Handed(w) && w'.client == w.client && w'.history == w.history && w'.sent == w.sent
    requires forall b :: Processed(w, b) ==> Processed(w', b)
    requires w'.landed && !w.landed && w.client.phase.Dispatching? ==> Processed(w', w.client.phase.action)
    ensures Handed(w')
  {
  }

  lemma ArriveProcesses(w: World, a: Action, at: int)
    requires Recorded(w) && a in w.sent && (a.Snapshot? ==> 0 <= a.slot < |w.codes|)
    ensures var w' := ServerApply(w, a, at);
            Processed(w', a) && forall b :: Processed(w, b) ==> Processed(w', b)
  {
    if a.Snapshot? {
      RowAdvances(w.rows, a.slot, ToPatch(a, at), w.codes[a.slot]);
    }
  }

  lemma HintProcesses(w: World, slot: int, level: int, at: int)
    requires Valid(w.client) && 0 <= slot < |w.codes|
    ensures var w' := Next(w, HintRevealed(slot, level, at));
            && w' == w.(rows := w'.rows) && forall b :: Processed(w, b) ==> Processed(w', b)
  {
    RowAdvances(w.rows, slot, Hint(level, at), w.codes[slot]);
  }

  lemma NextKeepsHanded(w: World, e: Event)
    requires Recorded(w) && Handed(w)
    ensures Handed(Next(w, e))
  {
    if IsQueueing(e) {
      EnqueueKeepsHanded(w, e);
    } else if Enabled(w, e) {
      if e.Arrive? {
        ArriveProcesses(w, e.action, e.at);
        ServerKeepsHanded(w, ServerApply(w, e.action, e.at));
      } else if e.HintRevealed? {
        HintProcesses(w, e.slot, e.level, e.at);
        ServerKeepsHanded(w, Next(w, e));
      } else if e.Acked? {
        AckKeepsHanded(w);
      } else {
        SendingStep(w, e);
        SendKeepsHanded(w, Next(w, e));
      }
    }
  }

  // ---- RowsFollow ----

  lemma WriteKeepsRowsFollow(rows0: map<int, Row>, w: World, w': World, slot: int, d: Delivery)
    requires RowsFollow(rows0, w) && w'.sent == w.sent && !d.Late? && 0 <= slot < |w.codes|
    requires d.Patch? ==> d.actionSeq >= 1
                          && Snapshot(slot, d.actionSeq, Body(d.answer, d.marked, d.delta, d.visits)) in w.sent
    requires w'.rows == w.rows[slot := Upsert(Lookup(w.rows, slot), w.codes[slot], d)]
    ensures RowsFollow(rows0, w')
  {
    RowAdvances(w.rows, slot, d, w.codes[slot]);
    assert slot in w.rows ==> RowFollows(rows0, w.sent, slot, w.rows[slot]);
    forall s | s in w'.rows
      ensures RowFollows(rows0, w'.sent, s, w'.rows[s])
    {
      if s != slot {
        assert RowFollows(rows0, w.sent, s, w.rows[s]);
      } else if d.Patch? && w'.rows[slot].actionSeq == d.actionSeq && w'.rows[slot].answer == d.answer
                && w'.rows[slot].marked == d.marked && (slot in w.rows ==> d.actionSeq > w.rows[slot].actionSeq) {
        var b := Snapshot(slot, d.actionSeq, Body(d.answer, d.marked, d.delta, d.visits));
        assert b in w.sent && Carries(w'.rows[slot], b);
      }
    }
  }

  lemma ArriveKeepsRowsFollow(rows0: map<int, Row>, w: World, a: Action, at: int)
    requires Recorded(w) && RowsFollow(rows0, w) && a in w.sent && (a.Snapshot? ==> 0 <= a.slot < |w.codes|)
    ensures RowsFollow(rows0, ServerApply(w, a, at))
  {
    if a.Snapshot? {
      assert a == Snapshot(a.slot, a.actionSeq, Body(a.body.answer, a.body.marked, a.body.delta, a.body.visits));
      WriteKeepsRowsFollow(rows0, w, ServerApply(w, a, at), a.slot, ToPatch(a, at));
    } else {
      SendKeepsRowsFollow(rows0, w, ServerApply(w, a, at));
    }
  }

  lemma SendKeepsRowsFollow(rows0: map<int, Row>, w: World, w': World)
    requires RowsFollow(rows0, w) && w'.rows == w.rows && forall b :: b in w.sent ==> b in w'.sent
    ensures RowsFollow(rows0, w')
  {
    forall s | s in w'.rows
      ensures RowFollows(rows0, w'.sent, s, w'.rows[s])
    {
      assert RowFollows(rows0, w.sent, s, w.rows[s]);
    }
  }

  lemma NextKeepsRowsFollow(rows0: map<int, Row>, w: World, e: Event)
    requires Recorded(w) && RowsFollow(rows0, w)
    ensures RowsFollow(rows0, Next(w, e))
  {
    if IsQueueing(e) {
      EnqueueEffect(w, e);
      SendKeepsRowsFollow(rows0, w, Next(w, e));
    } else if Enabled(w, e) {
      if e.Arrive? {
        ArriveKeepsRowsFollow(rows0, w, e.action, e.at);
      } else if e.HintRevealed? {
        WriteKeepsRowsFollow(rows0, w, Next(w, e), e.slot, Hint(e.level, e.at));
      } else if e.Acked? {
        AckEffect(w);
        SendKeepsRowsFollow(rows0, w, Next(w, e));
      } else {
        SendingStep(w, e);
        SendKeepsRowsFollow(rows0, w, Next(w, e));
      }
    }
  }

  // ---- every run ----

  lemma NextIsSound(rows0: map<int, Row>, w: World, e: Event)
    requires Sound(rows0, w)
    ensures Valid(w.client) && Sound(rows0, Next(w, e))
  {
    NextKeepsRecorded(w, e);
    NextKeepsHanded(w, e);
    NextKeepsRowsFollow(rows0, w, e);
  }

  lemma {:induction false} RunIsSound(rows0: map<int, Row>, w: World, es: seq<Event>)
    requires Sound(rows0, w)
    ensures Valid(w.client) && Sound(rows0, Run(w, es))
    decreases |es|
  {
    if es != [] {
      NextIsSound(rows0, w, es[0]);
      RunIsSound(rows0, Next(w, es[0]), es[1..]);
    }
  }

  /** No row stood at `a` or beyond it before the run. */
  predicate Behind(rows0: map<int, Row>, a: Action)
    requires a.Snapshot?
  {
    a.slot in rows0 ==> rows0[a.slot].actionSeq < a.actionSeq
  }

  predicate CarriedBy(rows: map<int, Row>, a: Action)
    requires a.Snapshot?
  {
    a.slot in rows && Carries(rows[a.slot], a)
  }

  lemma RowOfNewestIff(rows0: map<int, Row>, w: World, a: Action)
    requires Sound(rows0, w) && IsNewest(w.history, a) && a !in w.client.pending
    ensures CarriedBy(w.rows, a) <==> CarriedBy(rows0, a) || (a in w.sent && Behind(rows0, a))
  {
    if a.slot in w.rows {
      var row := w.rows[a.slot];
      assert RowFollows(rows0, w.sent, a.slot, row);
      if exists b :: b in w.sent && b.Snapshot? && b.slot == a.slot && Carries(row, b)
                     && (a.slot in rows0 ==> b.actionSeq > rows0[a.slot].actionSeq) {
        var b :| b in w.sent && b.Snapshot? && b.slot == a.slot && Carries(row, b)
                 && (a.slot in rows0 ==> b.actionSeq > rows0[a.slot].actionSeq);
        assert b in w.history && b.actionSeq <= a.actionSeq;
        if b.actionSeq == a.actionSeq {
          SameSeqSameAction(w.history, a, b);
        }
      }
    }
  }

  /** The exact outcome for a slot, over every run whatever: start a queue from any store next to any
      rows. Once the slot's newest snapshot is no longer queued, the slot's row carries it if and only
      if the row already did, or the snapshot was handed to the network and the row was behind it. */
  lemma NewestIsCarriedIff(w: World, es: seq<Event>, a: Action)
    requires Hydration(w)
    ensures Valid(w.client)
    ensures var end := Run(w, es);
            IsNewest(end.history, a) && a !in end.client.pending ==>
              (CarriedBy(end.rows, a) <==> CarriedBy(w.rows, a) || (a in end.sent && Behind(w.rows, a)))
  {
    HydrationIsSound(w);
    RunIsSound(w.rows, w, es);
    var end := Run(w, es);
    if IsNewest(end.history, a) && a !in end.client.pending {
      RowOfNewestIff(w.rows, end, a);
    }
  }

  // ---- undisturbed runs ----

  /** The one schedule the queue does not survive: a snapshot of a slot is queued while that
      slot's snapshot is being dispatched. */
  ghost predicate Clobbers(w: World, e: Event) {
    e.EnqueueSnap? && w.client.phase.Dispatching? && w.client.phase.action.Snapshot?
        && w.client.phase.action.slot == e.slot
  }

  ghost predicate Undisturbed(w: World, es: seq<Event>)
    requires Valid(w.client)
    decreases |es|
  {
    es == [] || (!Clobbers(w, es[0]) && (NextKeepsValid(w, es[0]); Undisturbed(Next(w, es[0]), es[1..])))
  }

  ghost predicate HeadInFlight(w: World)
    requires Valid(w.client)
  {
    w.client.phase.Dispatching? ==> w.client.pending[0] == w.client.phase.action && w.client.phase.action in w.sent
  }

  /** Queued once, and since then neither queued nor handed to the network nor overtaken. */
  ghost predicate Dropped(w: World, a: Action) {
    a in w.history && a !in w.client.pending && a !in w.sent && !Overtaken(w.history, a)
  }

  ghost predicate NothingDropped(w: World) {
    forall a :: !Dropped(w, a)
  }

  lemma HeadSurvivesAppend(c: Client, a: Action)
    requires Valid(c) && c.pending != [] && a.actionSeq == c.counter + 1
    requires a.Snapshot? && c.pending[0].Snapshot? ==> a.slot != c.pending[0].slot
    ensures Append(c, a).pending != [] && Append(c, a).pending[0] == c.pending[0]
  {
    var pushed := c.pending + [a];
    assert Kept(pushed, 0);
    CollapseStep(pushed, 0);
    assert pushed[0..] == pushed;
  }

  lemma EnqueueDropsNothing(w: World, e: Event)
    requires Recorded(w) && NothingDropped(w) && IsQueueing(e)
    ensures NothingDropped(Next(w, e))
  {
    var a, w' := Queued(w, e), Next(w, e);
    EnqueueEffect(w, e);
    forall b | b in w'.history
      ensures !Dropped(w', b)
    {
      if b != a {
        assert b in w.history && !Dropped(w, b);
        if b in w.client.pending && b !in w'.client.pending {
          assert Covered(w'.client.pending, b);
          var c :| c in w'.client.pending && b.Snapshot? && c.Snapshot? && c.slot == b.slot
              && c.actionSeq > b.actionSeq;
          assert c in w'.history;
        } else if Overtaken(w.history, b) {
          var c :| c in w.history && b.Snapshot? && c.Snapshot? && c.slot == b.slot && c.actionSeq > b.actionSeq;
          assert c in w'.history;
        }
      }
    }
  }

  lemma EnqueueKeepsFlight(w: World, e: Event)
    requires Valid(w.client) && HeadInFlight(w) && IsQueueing(e) && !Clobbers(w, e)
    ensures Valid(Next(w, e).client) && HeadInFlight(Next(w, e))
  {
    EnqueueEffect(w, e);
    if w.client.phase.Dispatching? {
      HeadSurvivesAppend(w.client, Queued(w, e));
    }
  }

  lemma AckDropsNothing(w: World)
    requires Recorded(w) && HeadInFlight(w) && NothingDropped(w) && Enabled(w, Acked)
    ensures NothingDropped(Next(w, Acked))
  {
    AckEffect(w);
    forall b
      ensures !Dropped(Next(w, Acked), b)
    {
      assert !Dropped(w, b);
    }
  }

  lemma SendDropsNothing(w: World, w': World)
    requires NothingDropped(w) && OnlySends(w, w')
    ensures NothingDropped(w')
  {
    forall b
      ensures !Dropped(w', b)
    {
      assert !Dropped(w, b);
    }
  }

  lemma UndisturbedStep(w: World, e: Event)
    requires Recorded(w) && HeadInFlight(w) && NothingDropped(w) && !Clobbers(w, e)
    ensures Recorded(Next(w, e)) && HeadInFlight(Next(w, e)) && NothingDropped(Next(w, e))
  {
    NextKeepsRecorded(w, e);
    if IsQueueing(e) {
      EnqueueDropsNothing(w, e);
      EnqueueKeepsFlight(w, e);
    } else if Enabled(w, e) {
      if e.Acked? {
        AckEffect(w);
        AckDropsNothing(w);
      } else if IsSending(e) {
        SendingStep(w, e);
        SendDropsNothing(w, Next(w, e));
      } else {
        ServerStepKeepsClient(w, e);
      }
    }
  }

  lemma ServerStepKeepsClient(w: World, e: Event)
    requires Valid(w.client) && (e.Arrive? || e.HintRevealed?) && NothingDropped(w)
    ensures var w' := Next(w, e);
            w'.client == w.client && w'.history == w.history && w'.sent == w.sent && NothingDropped(w')
  {
    forall b
      ensures !Dropped(Next(w, e), b)
    {
      assert !Dropped(w, b);
    }
  }

  lemma {:induction false} UndisturbedRun(w: World, es: seq<Event>)
    requires Recorded(w) && HeadInFlight(w) && NothingDropped(w) && Undisturbed(w, es)
    ensures Recorded(Run(w, es)) && HeadInFlight(Run(w, es)) && NothingDropped(Run(w, es))
    decreases |es|
  {
    if es != [] {
      UndisturbedStep(w, es[0]);
      UndisturbedRun(Next(w, es[0]), es[1..]);
    }
  }

  lemma HydrationDropsNothing(w: World)
    requires Hydration(w)
    ensures Recorded(w) && HeadInFlight(w) && NothingDropped(w)
  {
    HydrationIsSound(w);
  }

  /** End-to-end convergence. Whatever the network does and whatever the rows held before, once an
      undisturbed run has emptied the queue, a slot's row carries the newest snapshot ever queued for
      it if and only if the row was behind that snapshot or already carried it; and every violation
      has been counted at least once. */
  lemma EmptyQueueMeansConverged(w: World, es: seq<Event>)
    requires Hydration(w) && Undisturbed(w, es)
    ensures Valid(w.client)
    ensures var end := Run(w, es);
            end.client.pending == [] ==>
              && (forall a :: IsNewest(end.history, a) ==>
                    (CarriedBy(end.rows, a) <==> Behind(w.rows, a) || CarriedBy(w.rows, a)))
              && (forall a :: a in end.history && a.Violation? ==> a.actionSeq in end.heard)
  {
    HydrationDropsNothing(w);
    UndisturbedRun(w, es);
    HydrationIsSound(w);
    RunIsSound(w.rows, w, es);
    var end := Run(w, es);
    if end.client.pending == [] {
      forall a | IsNewest(end.history, a)
        ensures CarriedBy(end.rows, a) <==> Behind(w.rows, a) || CarriedBy(w.rows, a)
      {
        assert !Dropped(end, a);
        RowOfNewestIff(w.rows, end, a);
      }
      forall a | a in end.history && a.Violation?
        ensures a.actionSeq in end.heard
      {
        assert !Dropped(end, a) && !Overtaken(end.history, a);
        assert Processed(end, a);
      }
    }
  }
}
