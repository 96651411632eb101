/** Answer replication: one hydrated client queue, a network that may lose acknowledgements,
    delay and duplicate requests, and the snapshot rows of a live session. */
module Replication {
  import opened Basics
  import opened Snapshots
  import opened Actions
  import opened QueueState

  /** `history` holds every action of this incarnation of the queue, `sent` those handed to the
      network at least once, `heard` how often the server has counted the violation of each sequence
      number; `landed` tells whether the server has processed the action being dispatched. */
  datatype World = World(
    client: Client,
    rows: map<int, Row>,
    codes: seq<string>,
    history: seq<Action>,
    sent: set<Action>,
    heard: multiset<int>,
    landed: bool,
    dispatches: nat)

  datatype Event =
    | EnqueueSnap(slot: int, body: Body)
    | EnqueueViol(kind: string, active: bool)
    | AppendSaved
    | TimerFires
    | DrainPoll
    | Arrive(action: Action, at: int)
    | HintRevealed(slot: int, level: int, at: int)
    | Acked
    | NetworkError
    | Unauthorized
    | ShiftIsSaved
    | FailureIsSaved
    | Resumed

  ghost predicate Enabled(w: World, e: Event) {
    match e
    case AppendSaved => w.client.saving > 0
    case TimerFires => w.client.timer.Some?
    case Arrive(action, _) => action in w.sent && (action.Snapshot? ==> 0 <= action.slot < |w.codes|)
    case HintRevealed(slot, _, _) => 0 <= slot < |w.codes|
    case Acked => w.client.phase.Dispatching? && w.landed
    case NetworkError => w.client.phase.Dispatching?
    case Unauthorized => w.client.phase.Dispatching?
    case ShiftIsSaved => w.client.phase.ShiftSaving?
    case FailureIsSaved => w.client.phase.FailureSaving?
    case _ => true
  }

  /** The drain loop may have just handed its head to the network. */
  function Drained(w: World, c: Client): World {
    if c.phase.Dispatching? && !w.client.phase.Dispatching? then
      w.(client := c, sent := w.sent + {c.phase.action}, landed := false, dispatches := w.dispatches + 1)
    else w.(client := c)
  }

  function Lookup(rows: map<int, Row>, slot: int): Option<Row> {
    if slot in rows then Some(rows[slot]) else None
  }

  /** The server processes a copy of a sent action. */
  function ServerApply(w: World, a: Action, at: int): World
    requires a.Snapshot? ==> 0 <= a.slot < |w.codes|
  {
    var landed := w.landed || (w.client.phase.Dispatching? && w.client.phase.action == a);
    match a
    case Snapshot(slot, _, _) =>
      w.(rows := w.rows[slot := Upsert(Lookup(w.rows, slot), w.codes[slot], ToPatch(a, at))], landed := landed)
    case Violation(seqNo, _, _) => w.(heard := w.heard + multiset{seqNo}, landed := landed)
  }

  /** One step; an event that is not enabled changes nothing. */
  ghost function Next(w: World, e: Event): World
    requires Valid(w.client)
  {
    if !Enabled(w, e) then w else
    match e
    case EnqueueSnap(slot, body) =>
      w.(client := EnqueueSnapshot(w.client, slot, body),
         history := w.history + [Snapshot(slot, w.client.counter + 1, body)])
    case EnqueueViol(kind, active) =>
      w.(client := EnqueueViolation(w.client, kind, active),
         history := w.history + [Violation(w.client.counter + 1, kind, active)])
    case AppendSaved => w.(client := FinishAppend(w.client))
    case TimerFires => Drained(w, TryDrainOnce(w.client.(timer := None)))
    case DrainPoll => Drained(w, TryDrainOnce(w.client))
    case Arrive(action, at) => ServerApply(w, action, at)
    case HintRevealed(slot, level, at) =>
      w.(rows := w.rows[slot := Upsert(Lookup(w.rows, slot), w.codes[slot], Hint(level, at))])
    case Acked => w.(client := DispatchSucceeded(w.client))
    case NetworkError => w.(client := DispatchFailed(w.client))
    case Unauthorized => w.(client := DispatchRejected(w.client))
    case ShiftIsSaved => Drained(w, ShiftSaved(w.client))
    case FailureIsSaved => w.(client := FailureSaved(w.client))
    case Resumed => w.(client := Resume(w.client))
  }

  lemma NextKeepsValid(w: World, e: Event)
    requires Valid(w.client)
    ensures Valid(Next(w, e).client)
    ensures NoStall(w.client) ==> NoStall(Next(w, e).client)
  {
    if Enabled(w, e) {
      match e
      case EnqueueSnap(slot, body) => EnqueueKeepsValid(w.client, slot, body, "", false);
      case EnqueueViol(kind, active) => EnqueueKeepsValid(w.client, 0, Body(None, false, 0, 0), kind, active);
      case Arrive(_, _) =>
      case HintRevealed(_, _, _) =>
      case Acked => ShiftKeepsValid(w.client);
      case NetworkError => ShiftKeepsValid(w.client);
      case Unauthorized => ShiftKeepsValid(w.client);
      case _ => DrainKeepsValid(w.client);
    }
  }

  ghost function Run(w: World, es: seq<Event>): World
    requires Valid(w.client)
    decreases |es|
  {
    if es == [] then w
    else
      NextKeepsValid(w, es[0]);
      Run(Next(w, es[0]), es[1..])
  }

  /** Over every run whatsoever: the attempt counts stay parallel to the pending actions, sequence
      numbers rise strictly, no slot is queued twice, and a waiting queue has a wake-up call. */
  lemma {:induction false} RunsKeepQueueValid(w: World, es: seq<Event>)
    requires Valid(w.client) && NoStall(w.client)
    ensures Valid(Run(w, es).client) && NoStall(Run(w, es).client)
    decreases |es|
  {
    if es != [] {
      NextKeepsValid(w, es[0]);
      RunsKeepQueueValid(Next(w, es[0]), es[1..]);
    }
  }
}
