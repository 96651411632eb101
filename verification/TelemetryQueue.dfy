/** The telemetry queue of the test runtime. Each method is one synchronous stretch of the
    client's code, from an entry point or an await to the next await. */
module TelemetryQueue {
  import opened Basics
  import opened Actions
  import opened QueueState

  method ReduceToHighestSeq(actions: seq<Action>) returns (highest: nat)
    ensures highest == HighestSeq(actions)
    ensures forall a :: a in actions ==> a.actionSeq <= highest
    ensures highest == 0 || exists a :: a in actions && a.actionSeq == highest
  {
    highest := 0;
    for i := 0 to |actions|
      invariant highest == HighestSeq(actions[..i])
      invariant forall a :: a in actions[..i] ==> a.actionSeq <= highest
      invariant highest == 0 || exists a :: a in actions[..i] && a.actionSeq == highest
    {
      assert actions[..i + 1][..i] == actions[..i] && actions[..i + 1] == actions[..i] + [actions[i]];
      if actions[i].actionSeq > highest {
        highest := actions[i].actionSeq;
      }
    }
    assert actions[..|actions|] == actions;
  }

  class TelemetryQueue {
    var pending: seq<Action>
    var attempts: seq<nat>
    var localCounter: nat
    var draining: bool
    var dormant: bool
    var timer: Option<nat>
    var phase: Phase
    var saving: nat
    var notices: seq<Notice>

    ghost function State(): Client
      reads this
    {
      Client(pending, attempts, localCounter, dormant, timer, phase, saving, notices)
    }

    ghost predicate Consistent()
      reads this
    {
      Valid(State()) && (draining <==> !phase.Idle?)
    }

    constructor ()
      ensures Consistent() && State() == Client([], [], 0, false, None, Idle, 0, [])
    {
      pending, attempts, localCounter := [], [], 0;
      draining, dormant, timer, phase, saving, notices := false, false, None, Idle, 0, [];
    }

    /** Load the stored queue; the counter resumes at the highest stored sequence number. */
    method Hydrate(storedPending: seq<Action>, storedAttempts: seq<nat>)
      requires Consistent() && GoodStore(storedPending, storedAttempts)
      requires State() == Client([], [], 0, false, None, Idle, 0, [])
      modifies this
      ensures Consistent() && State() == Hydrated(storedPending, storedAttempts)
    {
      HydratedIsValid(storedPending, storedAttempts);
      pending, attempts := storedPending, storedAttempts;
      localCounter := ReduceToHighestSeq(pending);
      notices := notices + [Depth(|pending|)];
      if |pending| > 0 {
        ScheduleDrainAfter(0);
      }
    }

    method ScheduleDrainAfter(delay: nat)
      modifies this`timer
      ensures State() == ScheduleDrain(old(State()), delay)
    {
      if !dormant {
        timer := Some(delay);
      }
    }

    method AppendAction(action: Action)
      modifies this`pending, this`attempts, this`saving
      ensures State() == Append(old(State()), action)
    {
      pending := pending + [action];
      attempts := attempts + [0];
      var before := |pending|;
      pending := CollapseSnapshots(pending);
      if |pending| != before {
        attempts := Zeros(|pending|);
      }
      saving := saving + 1;
    }

    method EnqueueSnapshot(slot: int, body: Body)
      requires Consistent()
      modifies this
      ensures Consistent() && State() == QueueState.EnqueueSnapshot(old(State()), slot, body)
    {
      EnqueueKeepsValid(State(), slot, body, "", false);
      localCounter := localCounter + 1;
      AppendAction(Snapshot(slot, localCounter, body));
    }

    method EnqueueViolation(kind: string, active: bool)
      requires Consistent()
      modifies this
      ensures Consistent() && State() == QueueState.EnqueueViolation(old(State()), kind, active)
    {
      AppendKeepsValid(State(), Violation(localCounter + 1, kind, active));
      localCounter := localCounter + 1;
      AppendAction(Violation(localCounter, kind, active));
    }

    /** The save inside append has completed: report the depth, arm the drain, answer the caller. */
    method FinishAppend() returns (reported: nat)
      requires Consistent() && saving > 0
      modifies this
      ensures Consistent() && State() == QueueState.FinishAppend(old(State()))
      ensures reported == localCounter
    {
      saving := saving - 1;
      notices := notices + [Depth(|pending|)];
      ScheduleDrainAfter(0);
      reported := localCounter;
    }

    /** The armed timer fires. */
    method TimerFires()
      requires Consistent() && timer.Some?
      modifies this
      ensures Consistent() && State() == QueueState.TryDrainOnce(old(State()).(timer := None))
    {
      timer := None;
      TryDrainOnce();
    }

    /** One round of draining, up to the POST of the first pending action. */
    method TryDrainOnce()
      requires Consistent()
      modifies this
      ensures Consistent() && State() == QueueState.TryDrainOnce(old(State()))
    {
      if draining || dormant {
        return;
      }
      draining := true;
      ContinueDrain();
    }

    method ContinueDrain()
      requires Valid(State()) && draining
      modifies this`draining, this`phase
      ensures Consistent() && State() == LoopHead(old(State()))
    {
      if |pending| == 0 || dormant {
        draining := false;
        phase := Idle;
      } else {
        phase := Dispatching(pending[0], attempts[0]);
      }
    }

    method OnDispatchSuccess()
      requires Consistent() && phase.Dispatching?
      modifies this
      ensures Consistent() && State() == DispatchSucceeded(old(State()))
    {
      ShiftKeepsValid(State());
      pending := pending[1..];
      attempts := attempts[1..];
      phase := ShiftSaving;
    }

    method OnShiftSaved()
      requires Consistent() && phase.ShiftSaving?
      modifies this
      ensures Consistent() && State() == ShiftSaved(old(State()))
    {
      notices := notices + [Depth(|pending|)];
      notices := notices + [Synced];
      assert notices == old(notices) + [Depth(|pending|), Synced];
      ContinueDrain();
    }

    method OnDispatchUnauthorized()
      requires Consistent() && phase.Dispatching?
      modifies this
      ensures Consistent() && State() == DispatchRejected(old(State()))
    {
      dormant := true;
      timer := None;
      notices := notices + [AuthRejected];
      draining := false;
      phase := Idle;
    }

    method OnDispatchFailure()
      requires Consistent() && phase.Dispatching?
      modifies this
      ensures Consistent() && State() == DispatchFailed(old(State()))
    {
      attempts := attempts[0 := phase.tries + 1];
      phase := FailureSaving(phase.action, phase.tries);
    }

    method OnFailureSaved()
      requires Consistent() && phase.FailureSaving?
      modifies this
      ensures Consistent() && State() == FailureSaved(old(State()))
    {
      var tries, action := phase.tries, phase.action;
      var idx := Min(tries, |BACKOFF| - 1);
      ScheduleDrainAfter(BACKOFF[idx]);
      notices := notices + [SyncFailed(tries + 1)];
      if tries >= |BACKOFF| - 1 {
        notices := notices + [SyncErrored(if action.Snapshot? then Some(action.slot) else None)];
      }
      draining := false;
      phase := Idle;
    }

    method Resume()
      requires Consistent()
      modifies this
      ensures Consistent() && State() == QueueState.Resume(old(State()))
    {
      if !dormant {
        return;
      }
      dormant := false;
      if |pending| > 0 {
        ScheduleDrainAfter(0);
      }
    }
  }
}
