/** The test runtime, the only producer of snapshots: its local copy of the answers, the clock of the
    current visit and the visit counts. A save is cut where it awaits the queue; its continuation
    writes the saved copy back. */
module VisitAccounting {
  import opened Basics
  import opened Snapshots
  import opened Actions
  import opened QueueState
  import opened Replication
  import opened Convergence

  /** The local snapshot of a slot. */
  datatype Local = Local(answer: Option<Payload>, marked: bool, visits: int)

  const UNTOUCHED := Local(None, false, 0)

  /** What the buttons and answer fields do to it. */
  datatype Edit = Answer(value: Option<Payload>) | Keep | Mark | ToggleMark

  function Edited(prev: Local, edit: Edit): Local {
    match edit
    case Answer(value) => prev.(answer := value)
    case Keep => prev
    case Mark => prev.(marked := true)
    case ToggleMark => prev.(marked := !prev.marked)
  }

  /** A save that awaits the queue, with the copy it will write back. */
  datatype Saving = Saving(slot: int, next: Local)

  /** When the current visit began (milliseconds), which slots were touched since mount, the local
      snapshots, and the saves under way. */
  datatype Clock = Clock(visitStart: int, visited: set<int>, local: map<int, Local>, saving: seq<Saving>)

  function TimeDelta(visitStart: int, now: int): int {
    Max(0, Min(MAX_DELTA, (now - visitStart) / 1000))
  }

  function LocalOf(c: Clock, slot: int): Local {
    if slot in c.local then c.local[slot] else UNTOUCHED
  }

  function SlotVisits(c: Clock, slot: int): int {
    LocalOf(c, slot).visits
  }

  function Jumped(c: Clock, slot: int, now: int): Clock {
    var bumps := slot !in c.visited || slot in c.local;
    var prev := LocalOf(c, slot);
    c.(visitStart := now, visited := c.visited + {slot},
       local := if bumps then c.local[slot := prev.(visits := prev.visits + 1)] else c.local)
  }

  function NextVisits(c: Clock, slot: int): int {
    if slot !in c.visited then Max(1, SlotVisits(c, slot) + 1) else Max(1, SlotVisits(c, slot))
  }

  /** A save up to its await, and the body it queues. */
  function Saved(c: Clock, slot: int, edit: Edit, now: int): (Clock, Body) {
    var next := Edited(LocalOf(c, slot), edit).(visits := NextVisits(c, slot));
    (Clock(now, c.visited + {slot}, c.local[slot := next], c.saving + [Saving(slot, next)]),
     Body(next.answer, next.marked, TimeDelta(c.visitStart, now), next.visits))
  }

  /** The continuation of save k: its copy replaces whatever the slot shows by then. */
  function Continued(c: Clock, k: nat): Clock {
    if k >= |c.saving| then c
    else c.(local := c.local[c.saving[k].slot := c.saving[k].next], saving := RemoveAt(c.saving, k))
  }

  class RuntimeClock {
    var visitStart: int
    var visited: set<int>
    var local: map<int, Local>
    var saving: seq<Saving>

    function State(): Clock
      reads this
    {
      Clock(visitStart, visited, local, saving)
    }

    /** Nothing counts as visited at mount. */
    constructor (now: int, local: map<int, Local>)
      ensures State() == Clock(now, {}, local, [])
    {
      visitStart, visited, this.local, saving := now, {}, local, [];
    }

    /** The seconds of the visit so far, whole and at most a minute; the next visit starts now. */
    method ComputeTimeDelta(now: int) returns (delta: int)
      modifies this`visitStart
      ensures delta == TimeDelta(old(visitStart), now) && visitStart == now
      ensures 0 <= delta <= 60 && (now <= old(visitStart) ==> delta == 0)
      ensures old(visitStart) <= now ==> 1000 * delta <= visitStart - old(visitStart)
      ensures old(visitStart) <= now && delta < 60 ==> visitStart - old(visitStart) < 1000 * (delta + 1)
    {
      delta := Max(0, Min(MAX_DELTA, (now - visitStart) / 1000));
      visitStart := now;
    }

    method JumpTo(slot: int, now: int)
      modifies this
      ensures State() == Jumped(old(State()), slot, now)
    {
      if slot !in visited {
        visited := visited + {slot};
        var prev := if slot in local then local[slot] else UNTOUCHED;
        local := local[slot := prev.(visits := prev.visits + 1)];
      } else if slot in local {
        local := local[slot := local[slot].(visits := local[slot].visits + 1)];
      }
      assert visited == old(visited) + {slot};
      visitStart := now;
    }

    method SaveSnapshot(slot: int, edit: Edit, now: int) returns (body: Body)
      modifies this
      ensures (State(), body) == Saved(old(State()), slot, edit, now)
    {
      var prev := if slot in local then local[slot] else UNTOUCHED;
      var isFirstTouch := slot !in visited;
      if isFirstTouch {
        visited := visited + {slot};
      }
      assert visited == old(visited) + {slot};
      var nextVisitCount := if isFirstTouch then Max(1, prev.visits + 1) else Max(1, prev.visits);
      var next := Edited(prev, edit).(visits := nextVisitCount);
      local := local[slot := next];
      var delta := ComputeTimeDelta(now);
      body := Body(next.answer, next.marked, delta, next.visits);
      saving := saving + [Saving(slot, next)];
    }

    /** The queue has stored the action of save k. */
    method FinishSave(k: nat)
      requires k < |saving|
      modifies this`local, this`saving
      ensures State() == Continued(old(State()), k)
    {
      local := local[saving[k].slot := saving[k].next];
      saving := saving[..k] + saving[k + 1..];
    }
  }

  // ---- what happens on the page ----

  datatype Input =
    | Save(slot: int, edit: Edit, now: int)
    | GoTo(slot: int, now: int)
    | Finish(k: nat)
    | Net(event: Event)

  function Ticked(c: Clock, x: Input): Clock {
    match x
    case Save(slot, edit, now) => Saved(c, slot, edit, now).0
    case GoTo(slot, now) => Jumped(c, slot, now)
    case Finish(k) => Continued(c, k)
    case Net(_) => c
  }

  function ClockAfter(c: Clock, xs: seq<Input>): Clock
    decreases |xs|
  {
    if xs == [] then c else ClockAfter(Ticked(c, xs[0]), xs[1..])
  }

  /** The visit counts a run queues for a slot, in order. */
  function QueuedVisits(c: Clock, xs: seq<Input>, slot: int): seq<int>
    decreases |xs|
  {
    if xs == [] then []
    else
      (if xs[0].Save? && xs[0].slot == slot then [NextVisits(c, slot)] else [])
      + QueuedVisits(Ticked(c, xs[0]), xs[1..], slot)
  }

  /** How often a run visits a slot: every jump to it, and a first touch by an answer. */
  function VisitsMade(c: Clock, xs: seq<Input>, slot: int): nat
    decreases |xs|
  {
    if xs == [] then 0
    else
      (if !xs[0].GoTo? && !xs[0].Save? then 0
       else if xs[0].slot == slot && (xs[0].GoTo? || slot !in c.visited) then 1 else 0)
      + VisitsMade(Ticked(c, xs[0]), xs[1..], slot)
  }

  ghost predicate NeverFalls(counts: seq<int>) {
    forall i, j :: 0 <= i <= j < |counts| ==> counts[i] <= counts[j]
  }

  predicate Awaits(c: Clock, slot: int) {
    exists k :: 0 <= k < |c.saving| && c.saving[k].slot == slot
  }

  /** Navigating to a slot while one of its saves is under way. */
  predicate Interferes(c: Clock, x: Input) {
    x.GoTo? && Awaits(c, x.slot)
  }

  ghost predicate Settled(c: Clock, xs: seq<Input>)
    decreases |xs|
  {
    xs == [] || (!Interferes(c, xs[0]) && Settled(Ticked(c, xs[0]), xs[1..]))
  }

  /** Every save under way would write back the count its slot shows; a touched slot shows a visit. */
  ghost predicate InStep(c: Clock) {
    && (forall slot :: SlotVisits(c, slot) >= 0)
    && (forall slot :: slot in c.visited ==> slot in c.local && SlotVisits(c, slot) >= 1)
    && (forall k :: 0 <= k < |c.saving| ==>
          c.saving[k].slot in c.visited && c.saving[k].next.visits == SlotVisits(c, c.saving[k].slot))
  }

  lemma MountIsInStep(now: int, local: map<int, Local>)
    requires forall slot :: slot in local ==> local[slot].visits >= 0
    ensures InStep(Clock(now, {}, local, []))
  {
  }

  lemma ContinuedSaves(c: Clock, k: nat)
    requires k < |c.saving|
    ensures forall s :: s in Continued(c, k).saving ==> s in c.saving
  {
  }

  /** What an input that does not interfere does to the count of a slot. */
  lemma StepCounts(c: Clock, x: Input, slot: int)
    requires InStep(c) && !Interferes(c, x)
    ensures SlotVisits(Ticked(c, x), slot) == SlotVisits(c, slot) + VisitsMade(c, [x], slot)
    ensures x.Save? && x.slot == slot ==> NextVisits(c, slot) == SlotVisits(Ticked(c, x), slot)
  {
    assert [x][1..] == [];
  }

  lemma StepStaysInStep(c: Clock, x: Input)
    requires InStep(c) && !Interferes(c, x)
    ensures InStep(Ticked(c, x))
  {
    var c' := Ticked(c, x);
    forall slot
      ensures SlotVisits(c', slot) >= SlotVisits(c, slot)
    {
      StepCounts(c, x, slot);
    }
    if x.Finish? && x.k < |c.saving| {
      ContinuedSaves(c, x.k);
    }
    forall k | 0 <= k < |c'.saving|
      ensures c'.saving[k].slot in c'.visited && c'.saving[k].next.visits == SlotVisits(c', c'.saving[k].slot)
    {
      SavingStaysInStep(c, x, c'.saving[k]);
    }
  }

  lemma SavingStaysInStep(c: Clock, x: Input, s: Saving)
    requires InStep(c) && !Interferes(c, x) && s in Ticked(c, x).saving
    ensures s.slot in Ticked(c, x).visited && s.next.visits == SlotVisits(Ticked(c, x), s.slot)
  {
    StepCounts(c, x, s.slot);
    if s in c.saving {
      var k :| 0 <= k < |c.saving| && c.saving[k] == s;
      assert Awaits(c, s.slot);
    } else if x.Finish? && x.k < |c.saving| {
      ContinuedSaves(c, x.k);
    }
  }

  /** Conservation of visits: as long as no slot is navigated to while one of its saves is under way,
      each slot shows exactly the visits made, whatever the order in which saves complete. */
  lemma {:induction false} SettledVisitsAreCounted(c: Clock, xs: seq<Input>, slot: int)
    requires InStep(c) && Settled(c, xs)
    ensures InStep(ClockAfter(c, xs))
    ensures SlotVisits(ClockAfter(c, xs), slot) == SlotVisits(c, slot) + VisitsMade(c, xs, slot)
    decreases |xs|
  {
    if xs != [] {
      StepStaysInStep(c, xs[0]);
      StepCounts(c, xs[0], slot);
      assert [xs[0]][1..] == [];
      SettledVisitsAreCounted(Ticked(c, xs[0]), xs[1..], slot);
    }
  }

  predicate Touches(x: Input, slot: int) {
    (x.Save? || x.GoTo?) && x.slot == slot
  }

  function Jumps(xs: seq<Input>, slot: int): nat
    decreases |xs|
  {
    if xs == [] then 0 else (if xs[0].GoTo? && xs[0].slot == slot then 1 else 0) + Jumps(xs[1..], slot)
  }

  /** The first input to touch the slot, if any does, is an answer and not a jump. */
  predicate EntersByAnswer(xs: seq<Input>, slot: int)
    decreases |xs|
  {
    xs != [] && if Touches(xs[0], slot) then xs[0].Save? else EntersByAnswer(xs[1..], slot)
  }

  /** What counts as a visit, by the inputs alone: every jump to the slot, and one more if it was not
      touched before and is first touched by an answer. A slot is touched from its first input on. */
  lemma {:induction false} VisitsByInputs(c: Clock, xs: seq<Input>, slot: int)
    ensures VisitsMade(c, xs, slot)
            == Jumps(xs, slot) + if slot !in c.visited && EntersByAnswer(xs, slot) then 1 else 0
    ensures slot in ClockAfter(c, xs).visited <==>
            slot in c.visited || exists i :: 0 <= i < |xs| && Touches(xs[i], slot)
    decreases |xs|
  {
    if xs != [] {
      VisitsByInputs(Ticked(c, xs[0]), xs[1..], slot);
      assert slot in Ticked(c, xs[0]).visited <==> slot in c.visited || Touches(xs[0], slot);
      if i :| 0 <= i < |xs| && Touches(xs[i], slot) {
        assert i > 0 ==> xs[1..][i - 1] == xs[i];
      }
    }
  }

  /** ... and the counts it queues for a slot never fall. */
  lemma {:induction false} SettledCountsNeverFall(c: Clock, xs: seq<Input>, slot: int)
    requires InStep(c) && Settled(c, xs)
    ensures NeverFalls(QueuedVisits(c, xs, slot))
    ensures forall n :: n in QueuedVisits(c, xs, slot) ==> n >= SlotVisits(c, slot)
    decreases |xs|
  {
    if xs != [] {
      var c', rest := Ticked(c, xs[0]), QueuedVisits(Ticked(c, xs[0]), xs[1..], slot);
      StepStaysInStep(c, xs[0]);
      StepCounts(c, xs[0], slot);
      SettledCountsNeverFall(c', xs[1..], slot);
      if xs[0].Save? && xs[0].slot == slot {
        PrependKeepsRising(NextVisits(c, slot), rest);
      } else {
        assert QueuedVisits(c, xs, slot) == rest;
      }
    }
  }

  lemma PrependKeepsRising(n: int, rest: seq<int>)
    requires NeverFalls(rest) && forall m :: m in rest ==> n <= m
    ensures NeverFalls([n] + rest)
  {
    forall i, j | 0 <= i <= j < |[n] + rest|
      ensures ([n] + rest)[i] <= ([n] + rest)[j]
    {
      if i == 0 && j > 0 {
        assert rest[j - 1] in rest;
      }
    }
  }

  // ---- exactly when visits get lost ----

  /** The counts queued for the slot never fall, and it ends up showing exactly the visits made. */
  ghost predicate CountsVisits(c: Clock, xs: seq<Input>, slot: int) {
    && NeverFalls(QueuedVisits(c, xs, slot))
    && SlotVisits(ClockAfter(c, xs), slot) == SlotVisits(c, slot) + VisitsMade(c, xs, slot)
  }

  /** After input `x`, no settled continuation lets a slot's queued counts fall or a visit go missing. */
  ghost predicate SafeFrom(c: Clock, x: Input) {
    forall ys, slot :: Settled(Ticked(c, x), ys) ==> CountsVisits(c, [x] + ys, slot)
  }

  /** A return to a slot while its save k is under way, another save, the continuation of k, a save. */
  function ReturnDuringSave(slot: int, k: nat, now: int): seq<Input> {
    [Save(slot, Keep, now), Finish(k), Save(slot, Keep, now)]
  }

  lemma ReturnDuringSaveFalls(c: Clock, slot: int, k: nat, at: int, now: int)
    requires InStep(c) && k < |c.saving| && c.saving[k].slot == slot
    ensures var x, ys := GoTo(slot, at), ReturnDuringSave(slot, k, now);
            && Settled(Ticked(c, x), ys)
            && QueuedVisits(c, [x] + ys, slot) == [SlotVisits(c, slot) + 1, SlotVisits(c, slot)]
  {
    var x, ys := GoTo(slot, at), ReturnDuringSave(slot, k, now);
    var c1 := Ticked(c, x);
    var c2 := Ticked(c1, ys[0]);
    var c3 := Ticked(c2, ys[1]);
    var all := [x] + ys;
    assert all[1..] == ys && ys[1..] == [ys[1], ys[2]] && ys[1..][1..] == [ys[2]] && ys[1..][1..][1..] == [];
    assert Settled(c3, [ys[2]]) && Settled(c2, ys[1..]) && Settled(c1, ys);
    assert SlotVisits(c1, slot) == SlotVisits(c, slot) + 1;
    assert c2.saving[k] == c.saving[k];
    assert SlotVisits(c3, slot) == SlotVisits(c, slot);
    assert QueuedVisits(c3, [ys[2]], slot) == [SlotVisits(c, slot)] + QueuedVisits(Ticked(c3, ys[2]), [], slot);
    assert QueuedVisits(c2, ys[1..], slot) == QueuedVisits(c3, [ys[2]], slot);
    assert QueuedVisits(c1, ys, slot) == [SlotVisits(c, slot) + 1] + QueuedVisits(c2, ys[1..], slot);
    assert QueuedVisits(c, all, slot) == QueuedVisits(c1, ys, slot);
  }

  /** The exact condition, at every point of a settled run: the next input lets counts fall or visits go
      missing, at once or in some settled continuation, if and only if it navigates to a slot while one
      of its saves is under way. */
  lemma NavigationIsSafeIff(c: Clock, x: Input)
    requires InStep(c)
    ensures SafeFrom(c, x) <==> !Interferes(c, x)
  {
    if Interferes(c, x) {
      var k :| 0 <= k < |c.saving| && c.saving[k].slot == x.slot;
      ReturnDuringSaveFalls(c, x.slot, k, x.now, x.now);
      var ys := ReturnDuringSave(x.slot, k, x.now);
      var counts := QueuedVisits(c, [x] + ys, x.slot);
      assert counts[0] > counts[1];
      assert Settled(Ticked(c, x), ys) && !CountsVisits(c, [x] + ys, x.slot);
    } else {
      forall ys, slot | Settled(Ticked(c, x), ys)
        ensures CountsVisits(c, [x] + ys, slot)
      {
        assert ([x] + ys)[1..] == ys;
        assert Settled(c, [x] + ys);
        SettledCountsNeverFall(c, [x] + ys, slot);
        SettledVisitsAreCounted(c, [x] + ys, slot);
      }
    }
  }

  /** The shortest lost visit: answer a slot, leave it and come back before that save has completed. */
  lemma LostReturnVisit(edit: Edit, now: int)
    ensures var c, xs := Clock(now, {}, map[], []), [Save(0, edit, now), GoTo(1, now), GoTo(0, now), Finish(0)];
            && InStep(c) && VisitsMade(c, xs, 0) == 2 && SlotVisits(ClockAfter(c, xs), 0) == 1
  {
    var c, xs := Clock(now, {}, map[], []), [Save(0, edit, now), GoTo(1, now), GoTo(0, now), Finish(0)];
    MountIsInStep(now, map[]);
    assert xs[1..] == [GoTo(1, now), GoTo(0, now), Finish(0)] && xs[1..][1..] == [GoTo(0, now), Finish(0)];
    assert xs[1..][1..][1..] == [Finish(0)] && xs[1..][1..][1..][1..] == [];
    var c1 := Ticked(c, xs[0]);
    var c2 := Ticked(c1, xs[1]);
    var c3 := Ticked(c2, xs[2]);
    assert c3.saving == c1.saving && |c1.saving| == 1 && c1.saving[0].slot == 0 && c1.saving[0].next.visits == 1;
    var c4 := Ticked(c3, xs[3]);
    assert SlotVisits(c4, 0) == 1;
    assert ClockAfter(c3, [Finish(0)]) == ClockAfter(c4, [])
           && ClockAfter(c2, xs[1..][1..]) == ClockAfter(c3, [Finish(0)]);
    assert ClockAfter(c1, xs[1..]) == ClockAfter(c2, xs[1..][1..]) && ClockAfter(c, xs) == ClockAfter(c1, xs[1..]);
    assert VisitsMade(c3, [Finish(0)], 0) == 0 && VisitsMade(c2, xs[1..][1..], 0) == 1;
    assert VisitsMade(c1, xs[1..], 0) == 1;
  }

  // ---- the runtime driving its queue ----

  /** The event an input is to the queue, if it is one. */
  function AsEvents(c: Clock, x: Input): seq<Event> {
    match x
    case Save(slot, edit, now) => [EnqueueSnap(slot, Saved(c, slot, edit, now).1)]
    case GoTo(_, _) => []
    case Finish(_) => []
    case Net(event) => [event]
  }

  function ToEvents(c: Clock, xs: seq<Input>): seq<Event>
    decreases |xs|
  {
    if xs == [] then [] else AsEvents(c, xs[0]) + ToEvents(Ticked(c, xs[0]), xs[1..])
  }

  /** Snapshots are queued by saves only. */
  ghost predicate OnlySavesQueue(xs: seq<Input>) {
    forall x :: x in xs && x.Net? ==> !x.event.EnqueueSnap?
  }

  /** Newer snapshots of a slot carry no smaller visit count. */
  ghost predicate VisitsFollowSeq(history: seq<Action>) {
    forall a, b ::
      a in history && b in history && a.Snapshot? && b.Snapshot? && a.slot == b.slot && a.actionSeq < b.actionSeq ==>
      a.body.visits <= b.body.visits
  }

  /** A slot's snapshots carry natural visit counts that never fall, and the clock shows at least
      the last of them. */
  ghost predicate VisitsFit(history: seq<Action>, c: Clock) {
    && InStep(c)
    && (forall a :: a in history && a.Snapshot? ==> 0 <= a.body.visits <= SlotVisits(c, a.slot))
    && VisitsFollowSeq(history)
  }

  lemma QueueingKeepsVisitsFit(history: seq<Action>, c: Clock, a: Action)
    requires VisitsFit(history, c) && forall b :: b in history ==> b.actionSeq < a.actionSeq
    requires a.Snapshot? ==> a.body.visits == SlotVisits(c, a.slot)
    ensures VisitsFit(history + [a], c)
  {
    assert forall b :: b in history + [a] <==> b in history || b == a;
  }

  lemma TickingKeepsVisitsFit(history: seq<Action>, c: Clock, x: Input)
    requires VisitsFit(history, c) && !Interferes(c, x)
    ensures VisitsFit(history, Ticked(c, x))
  {
    StepStaysInStep(c, x);
    forall s
      ensures SlotVisits(Ticked(c, x), s) >= SlotVisits(c, s)
    {
      StepCounts(c, x, s);
    }
  }

  lemma NextKeepsVisitsFit(w: World, c: Clock, e: Event)
    requires Recorded(w) && VisitsFit(w.history, c)
    requires e.EnqueueSnap? ==> e.body.visits == SlotVisits(c, e.slot)
    ensures Valid(w.client) && Recorded(Next(w, e)) && VisitsFit(Next(w, e).history, c)
  {
    NextKeepsRecorded(w, e);
    if IsQueueing(e) {
      QueueingKeepsVisitsFit(w.history, c, Queued(w, e));
    } else {
      assert w.history + [] == w.history;
    }
  }

  lemma {:induction false} RunKeepsVisitsFit(w: World, c: Clock, xs: seq<Input>)
    requires Recorded(w) && OnlySavesQueue(xs) && Settled(c, xs) && VisitsFit(w.history, c)
    ensures Valid(w.client)
    ensures Recorded(Run(w, ToEvents(c, xs))) && VisitsFit(Run(w, ToEvents(c, xs)).history, ClockAfter(c, xs))
    decreases |xs|
  {
    if xs != [] {
      var c', first, rest := Ticked(c, xs[0]), AsEvents(c, xs[0]), ToEvents(Ticked(c, xs[0]), xs[1..]);
      assert xs[0] in xs;
      TickingKeepsVisitsFit(w.history, c, xs[0]);
      if first == [] {
        assert first + rest == rest;
        RunKeepsVisitsFit(w, c', xs[1..]);
      } else {
        assert (first + rest)[1..] == rest;
        if xs[0].Save? {
          StepCounts(c, xs[0], xs[0].slot);
        }
        NextKeepsVisitsFit(w, c', first[0]);
        RunKeepsVisitsFit(Next(w, first[0]), c', xs[1..]);
      }
    }
  }

  lemma SlotVisitsRise(history: seq<Action>, c: Clock, slot: int)
    requires Increasing(history) && VisitsFit(history, c)
    ensures VisitsRise(OfSlot(history, slot))
  {
    var s := OfSlot(history, slot);
    OfSlotMembers(history, slot);
    forall i, j | 0 <= i <= j < |s| && s[i].Snapshot? && s[j].Snapshot?
      ensures 0 <= s[i].body.visits <= s[j].body.visits
    {
      assert s[i] in s && s[j] in s;
      assert i < j ==> s[i].actionSeq < s[j].actionSeq;
    }
  }

  /** In a settled run collapsing the queue loses no visit: replaying everything it queued and replaying
      the collapse leave the same visit count in each slot. */
  lemma CollapseLosesNoVisits(
      w: World, c: Clock, xs: seq<Input>, prev: Option<Row>, code: string, slot: int,
      full: Action -> int, collapsed: Action -> int)
    requires Recorded(w) && OnlySavesQueue(xs) && Settled(c, xs) && VisitsFit(w.history, c) && ViewOf(prev).visits >= 0
    ensures Valid(w.client)
    ensures var history := Run(w, ToEvents(c, xs)).history;
            ViewOf(Replay(prev, code, slot, full, history)).visits
            == ViewOf(Replay(prev, code, slot, collapsed, Collapse(history))).visits
  {
    RunKeepsVisitsFit(w, c, xs);
    var history := Run(w, ToEvents(c, xs)).history;
    SlotVisitsRise(history, ClockAfter(c, xs), slot);
    CollapsePreservesMeaning(prev, code, slot, full, collapsed, history);
  }

  /** When counts do fall, collapsing does lose a visit: the two snapshots such a return queues, ... */
  lemma FallingCountsLoseAVisit(
      code: string, slot: int, n: nat, older: Body, newer: Body, seqNo: nat, clock: Action -> int)
    requires older.visits > newer.visits >= 0
    ensures var history := [Snapshot(slot, seqNo + 1, older), Snapshot(slot, seqNo + 2, newer)];
            && ViewOf(Replay(None, code, slot, clock, history)).visits == older.visits
            && ViewOf(Replay(None, code, slot, clock, Collapse(history))).visits == newer.visits
  {
    var a, b := Snapshot(slot, seqNo + 1, older), Snapshot(slot, seqNo + 2, newer);
    assert [a, b][1..] == [b] && [b][1..] == [];
    assert HasSnapshot([b], slot) by {
      assert [b][0].slot == slot;
    }
    assert Collapse([a, b]) == Collapse([b]) && Collapse([b]) == [b];
    var row := Some(Upsert(None, code, ToPatch(a, clock(a))));
    assert Replay(None, code, slot, clock, [a, b]) == Replay(row, code, slot, clock, [b]);
    assert Replay(row, code, slot, clock, [b]) == Some(Upsert(row, code, ToPatch(b, clock(b))));
    assert Replay(None, code, slot, clock, [b]) == Some(Upsert(None, code, ToPatch(b, clock(b))));
  }
}
