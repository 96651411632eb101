/** The client telemetry queue as a value: its state between two await points and the effect
    of each synchronous stretch of code. The class in TelemetryQueue.dfy is proved against it. */
module QueueState {
  import opened Basics
  import opened Actions

  const BACKOFF: seq<nat> := [5000, 10000, 20000, 40000, 60000]

  /** Where the drain loop is suspended: not running, awaiting the POST of an action, awaiting
      the save after a successful shift, or awaiting the save after a failure. */
  datatype Phase =
    | Idle
    | Dispatching(action: Action, tries: nat)
    | ShiftSaving
    | FailureSaving(action: Action, tries: nat)

  /** The callbacks of the queue's owner, in the order they fire. */
  datatype Notice =
    | Depth(n: nat)
    | Synced
    | SyncFailed(attempts: nat)
    | SyncErrored(slot: Option<int>)
    | AuthRejected

  /** `timer` is the delay of the armed drain timer; `saving` counts appends awaiting their save. */
  datatype Client = Client(
    pending: seq<Action>,
    attempts: seq<nat>,
    counter: nat,
    dormant: bool,
    timer: Option<nat>,
    phase: Phase,
    saving: nat,
    notices: seq<Notice>)

  function Zeros(n: nat): seq<nat> {
    seq(n, _ => 0)
  }

  function HighestSeq(xs: seq<Action>): nat
    decreases |xs|
  {
    if xs == [] then 0 else Max(HighestSeq(xs[..|xs| - 1]), xs[|xs| - 1].actionSeq)
  }

  function ScheduleDrain(c: Client, delay: nat): Client {
    if c.dormant then c else c.(timer := Some(delay))
  }

  function Hydrated(pending: seq<Action>, attempts: seq<nat>): Client {
    var c := Client(pending, attempts, HighestSeq(pending), false, None, Idle, 0, [Depth(|pending|)]);
    if pending != [] then ScheduleDrain(c, 0) else c
  }

  /** append up to its save: push, collapse, and forget the attempt counts if anything collapsed. */
  function Append(c: Client, a: Action): Client {
    var pushed := c.pending + [a];
    var kept := Collapse(pushed);
    c.(pending := kept,
       attempts := if |kept| != |pushed| then Zeros(|kept|) else c.attempts + [0],
       saving := c.saving + 1)
  }

  function EnqueueSnapshot(c: Client, slot: int, body: Body): Client {
    Append(c.(counter := c.counter + 1), Snapshot(slot, c.counter + 1, body))
  }

  function EnqueueViolation(c: Client, kind: string, active: bool): Client {
    Append(c.(counter := c.counter + 1), Violation(c.counter + 1, kind, active))
  }

  /** append after its save; the caller is handed the counter as it is now. */
  function FinishAppend(c: Client): Client
    requires c.saving > 0
  {
    ScheduleDrain(c.(saving := c.saving - 1, notices := c.notices + [Depth(|c.pending|)]), 0)
  }

  /** The head of the drain loop: leave it, or start dispatching the first pending action. */
  function LoopHead(c: Client): Client
    requires |c.attempts| == |c.pending|
  {
    if c.pending == [] || c.dormant then c.(phase := Idle)
    else c.(phase := Dispatching(c.pending[0], c.attempts[0]))
  }

  function TryDrainOnce(c: Client): Client
    requires |c.attempts| == |c.pending|
  {
    if !c.phase.Idle? || c.dormant then c else LoopHead(c)
  }

  /** The POST succeeded: a positional shift of both arrays, whatever their heads are by now. */
  function DispatchSucceeded(c: Client): Client
    requires c.phase.Dispatching? && c.pending != [] && |c.attempts| == |c.pending|
  {
    c.(pending := c.pending[1..], attempts := c.attempts[1..], phase := ShiftSaving)
  }

  function ShiftSaved(c: Client): Client
    requires c.phase.ShiftSaving? && |c.attempts| == |c.pending|
  {
    LoopHead(c.(notices := c.notices + [Depth(|c.pending|), Synced]))
  }

  function DispatchRejected(c: Client): Client
    requires c.phase.Dispatching?
  {
    c.(dormant := true, timer := None, notices := c.notices + [AuthRejected], phase := Idle)
  }

  function DispatchFailed(c: Client): Client
    requires c.phase.Dispatching? && c.attempts != []
  {
    c.(attempts := c.attempts[0 := c.phase.tries + 1], phase := FailureSaving(c.phase.action, c.phase.tries))
  }

  function FailureSaved(c: Client): Client
    requires c.phase.FailureSaving?
  {
    var tries, action := c.phase.tries, c.phase.action;
    var last := |BACKOFF| - 1;
    var errored := if tries >= last then [SyncErrored(if action.Snapshot? then Some(action.slot) else None)] else [];
    ScheduleDrain(c, BACKOFF[Min(tries, last)])
      .(phase := Idle, notices := c.notices + [SyncFailed(tries + 1)] + errored)
  }

  function Resume(c: Client): Client {
    if !c.dormant then c
    else if c.pending != [] then ScheduleDrain(c.(dormant := false), 0)
    else c.(dormant := false)
  }

  // ---- what every stretch of code keeps ----

  ghost predicate GoodStore(pending: seq<Action>, attempts: seq<nat>) {
    && |attempts| == |pending|
    && Increasing(pending)
    && OnePerSlot(pending)
    && forall a :: a in pending ==> a.actionSeq >= 1
  }

  ghost predicate Valid(c: Client) {
    && GoodStore(c.pending, c.attempts)
    && (forall a :: a in c.pending ==> a.actionSeq <= c.counter)
    && (c.phase.Dispatching? || c.phase.FailureSaving? ==> c.pending != [])
    && (c.dormant ==> c.phase.Idle? && c.timer == None)
  }

  /** Nothing waits without a wake-up call: a queue that is awake, not draining and not empty
      has its timer armed, or an append about to arm it. */
  predicate NoStall(c: Client) {
    !c.dormant && c.phase.Idle? && c.pending != [] ==> c.timer.Some? || c.saving > 0
  }

  lemma {:induction false} HighestSeqBounds(xs: seq<Action>)
    ensures forall a :: a in xs ==> a.actionSeq <= HighestSeq(xs)
    decreases |xs|
  {
    if xs != [] {
      HighestSeqBounds(xs[..|xs| - 1]);
      assert xs == xs[..|xs| - 1] + [xs[|xs| - 1]];
    }
  }

  lemma HydratedIsValid(pending: seq<Action>, attempts: seq<nat>)
    requires GoodStore(pending, attempts)
    ensures Valid(Hydrated(pending, attempts)) && NoStall(Hydrated(pending, attempts))
  {
    HighestSeqBounds(pending);
  }

  /** A list is covered in another when each action is there or overtaken by its slot's newer snapshot. */
  ghost predicate Covered(xs: seq<Action>, a: Action) {
    || a in xs
    || (a.Snapshot? && exists b :: b in xs && b.Snapshot? && b.slot == a.slot && b.actionSeq > a.actionSeq)
  }

  lemma {:induction false} Survivor(xs: seq<Action>, i: nat) returns (k: nat)
    requires i < |xs| && xs[i].Snapshot?
    ensures i <= k < |xs| && Kept(xs, k) && xs[k].Snapshot? && xs[k].slot == xs[i].slot
    decreases |xs| - i
  {
    if Kept(xs, i) {
      k := i;
    } else {
      var j :| i < j < |xs| && xs[j].Snapshot? && xs[j].slot == xs[i].slot;
      k := Survivor(xs, j);
    }
  }

  lemma CollapseCovers(xs: seq<Action>, a: Action)
    requires Increasing(xs) && a in xs
    ensures Covered(Collapse(xs), a)
  {
    var at := CollapseSelects(xs);
    var i :| 0 <= i < |xs| && xs[i] == a;
    var k := i;
    if a.Snapshot? {
      k := Survivor(xs, i);
    }
    assert Kept(xs, k) && k in at;
    var m :| 0 <= m < |at| && at[m] == k;
    assert Collapse(xs)[m] == xs[k];
  }

  lemma AppendKeepsValid(c: Client, a: Action)
    requires Valid(c) && a.actionSeq == c.counter + 1
    ensures Valid(Append(c.(counter := c.counter + 1), a)) && NoStall(Append(c, a))
    ensures forall b :: Covered(c.pending, b) || b == a ==> Covered(Append(c, a).pending, b)
    ensures forall b :: b in Append(c, a).pending ==> b in c.pending || b == a
    ensures a in Append(c, a).pending
  {
    var pushed := c.pending + [a];
    var kept := Collapse(pushed);
    assert forall b :: b in pushed <==> b in c.pending || b == a;
    assert Increasing(pushed);
    CollapseKeepsIncreasing(pushed);
    CollapseLeavesOnePerSlot(pushed);
    CollapseCovers(pushed, a);
    forall b | Covered(c.pending, b) || b == a
      ensures Covered(kept, b)
    {
      var w :| w in pushed && (w == b || (b.Snapshot? && w.Snapshot? && w.slot == b.slot && w.actionSeq > b.actionSeq));
      CollapseCovers(pushed, w);
    }
    if |kept| == |pushed| {
      assert Covered(kept, a);
    }
  }

  /** Collapsing a list whose slots are queued once each, and one more snapshot of a queued slot, drops
      the queued one and nothing else. */
  lemma {:induction false} CollapseReplaces(xs: seq<Action>, a: Action) returns (i: nat)
    requires OnePerSlot(xs) && a.Snapshot? && HasSnapshot(xs, a.slot)
    ensures i < |xs| && xs[i].Snapshot? && xs[i].slot == a.slot && Collapse(xs + [a]) == RemoveAt(xs, i) + [a]
    decreases |xs|
  {
    var rest := xs[1..];
    assert (xs + [a])[1..] == rest + [a];
    assert forall k :: 0 <= k < |rest| ==> rest[k] == xs[k + 1];
    if xs[0].Snapshot? && xs[0].slot == a.slot {
      assert (rest + [a])[|rest|] == a;
      OnePerSlotIsCollapsed(rest + [a]);
      i := 0;
    } else {
      var j := CollapseReplaces(rest, a);
      assert RemoveAt(xs, j + 1) == [xs[0]] + RemoveAt(rest, j);
      i := j + 1;
      assert forall k :: 0 <= k <= |rest| && xs[0].Snapshot? && (rest + [a])[k].Snapshot? ==>
               (rest + [a])[k].slot != xs[0].slot;
    }
  }

  /** An append keeps every attempt count and starts the new action at none, unless a snapshot of the
      same slot is queued already: that one is replaced, and all counts are forgotten. */
  lemma AppendResetsCountsIff(c: Client, a: Action)
    requires |c.attempts| == |c.pending| && OnePerSlot(c.pending)
    ensures var d := Append(c, a);
            |d.attempts| == |d.pending|
            && if a.Snapshot? && HasSnapshot(c.pending, a.slot) then
                 && |d.pending| == |c.pending| && d.pending[|d.pending| - 1] == a
                 && forall i :: 0 <= i < |d.attempts| ==> d.attempts[i] == 0
               else
                 && d.pending == c.pending + [a]
                 && (forall i :: 0 <= i < |c.attempts| ==> d.attempts[i] == c.attempts[i])
                 && d.attempts[|c.attempts|] == 0
  {
    if a.Snapshot? && HasSnapshot(c.pending, a.slot) {
      var i := CollapseReplaces(c.pending, a);
    } else {
      OnePerSlotIsCollapsed(c.pending + [a]);
    }
  }

  lemma EnqueueKeepsValid(c: Client, slot: int, body: Body, kind: string, active: bool)
    requires Valid(c)
    ensures Valid(EnqueueSnapshot(c, slot, body)) && NoStall(EnqueueSnapshot(c, slot, body))
    ensures Valid(EnqueueViolation(c, kind, active)) && NoStall(EnqueueViolation(c, kind, active))
  {
    AppendKeepsValid(c, Snapshot(slot, c.counter + 1, body));
    AppendKeepsValid(c, Violation(c.counter + 1, kind, active));
  }

  lemma ShiftKeepsValid(c: Client)
    requires Valid(c) && c.phase.Dispatching?
    ensures Valid(DispatchSucceeded(c)) && Valid(DispatchRejected(c)) && Valid(DispatchFailed(c))
    ensures NoStall(DispatchSucceeded(c)) && NoStall(DispatchRejected(c)) && NoStall(DispatchFailed(c))
  {
    assert forall i :: 0 <= i < |c.pending[1..]| ==> c.pending[1..][i] == c.pending[i + 1];
  }

  lemma DrainKeepsValid(c: Client)
    requires Valid(c)
    ensures Valid(TryDrainOnce(c)) && Valid(Resume(c))
    ensures c.saving > 0 ==> Valid(FinishAppend(c)) && NoStall(FinishAppend(c))
    ensures c.phase.ShiftSaving? ==> Valid(ShiftSaved(c)) && NoStall(ShiftSaved(c))
    ensures c.phase.FailureSaving? ==> Valid(FailureSaved(c)) && NoStall(FailureSaved(c))
    ensures NoStall(TryDrainOnce(c.(timer := None))) && Valid(TryDrainOnce(c.(timer := None)))
    ensures NoStall(c) ==> NoStall(TryDrainOnce(c)) && NoStall(Resume(c))
  {
  }
}
