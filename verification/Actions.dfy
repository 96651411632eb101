/** Queued client actions and the collapse of pending snapshots to the newest one per slot. */
module Actions {
  import opened Basics
  import opened Snapshots

  datatype Body = Body(answer: Option<Payload>, marked: bool, delta: int, visits: int)

  datatype Action =
    | Snapshot(slot: int, actionSeq: int, body: Body)
    | Violation(actionSeq: int, kind: string, active: bool)

  predicate HasSnapshot(xs: seq<Action>, slot: int) {
    exists i :: 0 <= i < |xs| && xs[i].Snapshot? && xs[i].slot == slot
  }

  /** The meaning of collapsing: drop every snapshot that a later one of its slot replaces. */
  function Collapse(xs: seq<Action>): seq<Action>
    decreases |xs|
  {
    if xs == [] then []
    else if xs[0].Snapshot? && HasSnapshot(xs[1..], xs[0].slot) then Collapse(xs[1..])
    else [xs[0]] + Collapse(xs[1..])
  }

  /** Index i survives: it is no snapshot, or no later index holds a snapshot of its slot. */
  ghost predicate Kept(xs: seq<Action>, i: nat)
    requires i < |xs|
  {
    xs[i].Snapshot? ==> forall j :: i < j < |xs| && xs[j].Snapshot? ==> xs[j].slot != xs[i].slot
  }

  lemma CollapseStep(xs: seq<Action>, i: nat)
    requires i < |xs|
    ensures Collapse(xs[i..]) == (if Kept(xs, i) then [xs[i]] else []) + Collapse(xs[i + 1..])
  {
    var tail := xs[i + 1..];
    assert xs[i..][0] == xs[i] && xs[i..][1..] == tail;
    if xs[i].Snapshot? {
      if HasSnapshot(tail, xs[i].slot) {
        var j :| 0 <= j < |tail| && tail[j].Snapshot? && tail[j].slot == xs[i].slot;
        assert xs[i + 1 + j] == tail[j];
      } else {
        forall j | i < j < |xs| && xs[j].Snapshot?
          ensures xs[j].slot != xs[i].slot
        {
          assert tail[j - i - 1] == xs[j];
        }
      }
    }
  }

  /** `last` maps each slot to the index of its last snapshot among the first n actions. */
  ghost predicate LastIndices(xs: seq<Action>, n: nat, last: map<int, int>)
    requires n <= |xs|
  {
    && (forall s :: s in last ==> 0 <= last[s] < n && xs[last[s]].Snapshot? && xs[last[s]].slot == s)
    && (forall j :: 0 <= j < n && xs[j].Snapshot? ==> xs[j].slot in last && j <= last[xs[j].slot])
  }

  lemma LastIndexTellsKept(xs: seq<Action>, last: map<int, int>, i: nat)
    requires LastIndices(xs, |xs|, last) && i < |xs|
    ensures xs[i].Snapshot? ==> xs[i].slot in last
    ensures Kept(xs, i) <==> !xs[i].Snapshot? || last[xs[i].slot] == i
  {
  }

  /** The two passes of the client: remember the last index per slot, then filter. */
  method CollapseSnapshots(actions: seq<Action>) returns (kept: seq<Action>)
    ensures kept == Collapse(actions)
  {
    var last: map<int, int> := map[];
    for i := 0 to |actions|
      invariant LastIndices(actions, i, last)
    {
      if actions[i].Snapshot? {
        last := last[actions[i].slot := i];
      }
    }
    kept := [];
    for i := 0 to |actions|
      invariant Collapse(actions) == kept + Collapse(actions[i..])
    {
      CollapseStep(actions, i);
      LastIndexTellsKept(actions, last, i);
      if !actions[i].Snapshot? || last[actions[i].slot] == i {
        kept := kept + [actions[i]];
      }
    }
    assert actions[|actions|..] == [];
  }

  lemma {:induction false} CollapseSelectsFrom(xs: seq<Action>, i: nat) returns (at: seq<nat>)
    requires i <= |xs|
    ensures |at| == |Collapse(xs[i..])|
    ensures forall k :: 0 <= k < |at| ==> i <= at[k] < |xs| && Collapse(xs[i..])[k] == xs[at[k]] && Kept(xs, at[k])
    ensures forall j, k :: 0 <= j < k < |at| ==> at[j] < at[k]
    ensures forall j :: i <= j < |xs| && Kept(xs, j) ==> j in at
    decreases |xs| - i
  {
    if i == |xs| {
      at := [];
    } else {
      var below := CollapseSelectsFrom(xs, i + 1);
      CollapseStep(xs, i);
      at := (if Kept(xs, i) then [i] else []) + below;
    }
  }

  /** The result is the subsequence of exactly the surviving indices, in their old order. */
  lemma CollapseSelects(xs: seq<Action>) returns (at: seq<nat>)
    ensures |at| == |Collapse(xs)|
    ensures forall k :: 0 <= k < |at| ==> at[k] < |xs| && Collapse(xs)[k] == xs[at[k]]
    ensures forall j, k :: 0 <= j < k < |at| ==> at[j] < at[k]
    ensures forall i :: 0 <= i < |xs| ==> (i in at <==> Kept(xs, i))
  {
    at := CollapseSelectsFrom(xs, 0);
    assert xs[0..] == xs;
  }

  function Violations(xs: seq<Action>): seq<Action>
    decreases |xs|
  {
    if xs == [] then [] else (if xs[0].Violation? then [xs[0]] else []) + Violations(xs[1..])
  }

  /** Every violation survives, in order. */
  lemma {:induction false} CollapseKeepsViolations(xs: seq<Action>)
    ensures Violations(Collapse(xs)) == Violations(xs)
    decreases |xs|
  {
    if xs != [] {
      CollapseKeepsViolations(xs[1..]);
      assert ([xs[0]] + Collapse(xs[1..]))[1..] == Collapse(xs[1..]);
    }
  }

  ghost predicate OnePerSlot(xs: seq<Action>) {
    forall i, j :: 0 <= i < j < |xs| && xs[i].Snapshot? && xs[j].Snapshot? ==> xs[i].slot != xs[j].slot
  }

  lemma CollapseLeavesOnePerSlot(xs: seq<Action>)
    ensures OnePerSlot(Collapse(xs))
  {
    var at := CollapseSelects(xs);
  }

  lemma {:induction false} OnePerSlotIsCollapsed(xs: seq<Action>)
    requires OnePerSlot(xs)
    ensures Collapse(xs) == xs
    decreases |xs|
  {
    if xs != [] {
      assert forall k :: 0 <= k < |xs[1..]| ==> xs[1..][k] == xs[k + 1];
      OnePerSlotIsCollapsed(xs[1..]);
    }
  }

  lemma CollapseIdempotent(xs: seq<Action>)
    ensures Collapse(Collapse(xs)) == Collapse(xs)
  {
    CollapseLeavesOnePerSlot(xs);
    OnePerSlotIsCollapsed(Collapse(xs));
  }

  /** Sequence numbers rise strictly along the list. */
  ghost predicate Increasing(xs: seq<Action>) {
    forall i, j :: 0 <= i < j < |xs| ==> xs[i].actionSeq < xs[j].actionSeq
  }

  lemma CollapseKeepsIncreasing(xs: seq<Action>)
    requires Increasing(xs)
    ensures Increasing(Collapse(xs))
    ensures forall a :: a in Collapse(xs) ==> a in xs
  {
    var at := CollapseSelects(xs);
  }

  /** The snapshots of one slot, oldest first. */
  function OfSlot(xs: seq<Action>, slot: int): seq<Action>
    decreases |xs|
  {
    if xs == [] then []
    else (if xs[0].Snapshot? && xs[0].slot == slot then [xs[0]] else []) + OfSlot(xs[1..], slot)
  }

  lemma {:induction false} OfSlotSelects(xs: seq<Action>, slot: int)
    ensures forall a :: a in OfSlot(xs, slot) <==> a in xs && a.Snapshot? && a.slot == slot
    decreases |xs|
  {
    if xs != [] {
      OfSlotSelects(xs[1..], slot);
      assert forall a :: a in xs <==> a == xs[0] || a in xs[1..];
    }
  }

  lemma {:induction false} OfSlotIncreasing(xs: seq<Action>, slot: int)
    requires Increasing(xs)
    ensures Increasing(OfSlot(xs, slot))
    decreases |xs|
  {
    if xs != [] {
      var tail := xs[1..];
      assert forall k :: 0 <= k < |tail| ==> tail[k] == xs[k + 1];
      OfSlotIncreasing(tail, slot);
      OfSlotSelects(tail, slot);
      assert forall a :: a in OfSlot(tail, slot) ==> a in tail && xs[0].actionSeq < a.actionSeq;
    }
  }

  lemma OfSlotMembers(xs: seq<Action>, slot: int)
    ensures forall a :: a in OfSlot(xs, slot) <==> a in xs && a.Snapshot? && a.slot == slot
    ensures HasSnapshot(xs, slot) <==> OfSlot(xs, slot) != []
    ensures Increasing(xs) ==> Increasing(OfSlot(xs, slot))
  {
    OfSlotSelects(xs, slot);
    if OfSlot(xs, slot) != [] {
      assert OfSlot(xs, slot)[0] in xs;
    }
    if Increasing(xs) {
      OfSlotIncreasing(xs, slot);
    }
  }

  /** Per slot, collapsing keeps exactly the last snapshot. */
  lemma {:induction false} CollapseKeepsNewest(xs: seq<Action>, slot: int)
    ensures var s := OfSlot(xs, slot);
            OfSlot(Collapse(xs), slot) == if s == [] then [] else [s[|s| - 1]]
    decreases |xs|
  {
    if xs != [] {
      CollapseKeepsNewest(xs[1..], slot);
      OfSlotMembers(xs[1..], slot);
      assert ([xs[0]] + Collapse(xs[1..]))[1..] == Collapse(xs[1..]);
    }
  }

  /** What the server makes of a snapshot action processed at time `at`. */
  function ToPatch(a: Action, at: int): Delivery
    requires a.Snapshot?
  {
    Patch(a.body.answer, a.body.marked, a.body.delta, a.body.visits, a.actionSeq, at)
  }

  /** The UPSERTs a list of actions performs on one slot's row; `clock` tells when each lands. */
  function Replay(prev: Option<Row>, code: string, slot: int, clock: Action -> int, xs: seq<Action>): Option<Row>
    decreases |xs|
  {
    if xs == [] then prev
    else if xs[0].Snapshot? && xs[0].slot == slot then
      Replay(Some(Upsert(prev, code, ToPatch(xs[0], clock(xs[0])))), code, slot, clock, xs[1..])
    else Replay(prev, code, slot, clock, xs[1..])
  }

  lemma {:induction false} ReplaySeesOnlyItsSlot(
      prev: Option<Row>, code: string, slot: int, clock: Action -> int, xs: seq<Action>)
    ensures Replay(prev, code, slot, clock, xs) == Replay(prev, code, slot, clock, OfSlot(xs, slot))
    decreases |xs|
  {
    if xs != [] {
      var rest := OfSlot(xs[1..], slot);
      if xs[0].Snapshot? && xs[0].slot == slot {
        assert OfSlot(xs, slot) == [xs[0]] + rest && ([xs[0]] + rest)[1..] == rest;
        ReplaySeesOnlyItsSlot(Some(Upsert(prev, code, ToPatch(xs[0], clock(xs[0])))), code, slot, clock, xs[1..]);
      } else {
        assert OfSlot(xs, slot) == rest;
        ReplaySeesOnlyItsSlot(prev, code, slot, clock, xs[1..]);
      }
    }
  }

  ghost predicate Replayable(xs: seq<Action>, slot: int) {
    && Increasing(xs)
    && forall a :: a in xs ==> a.Snapshot? && a.slot == slot && a.actionSeq >= 1
  }

  /** The client's visit counts are natural numbers that never fall. */
  ghost predicate VisitsRise(xs: seq<Action>) {
    forall i, j :: 0 <= i <= j < |xs| && xs[i].Snapshot? && xs[j].Snapshot? ==>
      0 <= xs[i].body.visits <= xs[j].body.visits
  }

  /** Replaying a rising list of one slot's snapshots: its last one decides, and no time is lost
      beyond what the last one alone would add. */
  lemma {:induction false} LastSnapshotDecides(
      prev: Option<Row>, code: string, slot: int, clock: Action -> int, xs: seq<Action>)
    requires Replayable(xs, slot) && xs != []
    ensures var last := xs[|xs| - 1];
            var v, w := ViewOf(prev), ViewOf(Replay(prev, code, slot, clock, xs));
            && w.actionSeq == Max(v.actionSeq, last.actionSeq)
            && w.answer == (if last.actionSeq > v.actionSeq then last.body.answer else v.answer)
            && w.marked == (if last.actionSeq > v.actionSeq then last.body.marked else v.marked)
            && w.hints == v.hints
            && w.time >= v.time + Clamp(last.body.delta)
            && (v.visits >= 0 && VisitsRise(xs) ==> w.visits == Max(v.visits, last.body.visits))
            && (|xs| == 1 ==> w.time == v.time + Clamp(last.body.delta))
    decreases |xs|
  {
    var next := Some(Upsert(prev, code, ToPatch(xs[0], clock(xs[0]))));
    assert xs[0] in xs;
    if |xs| == 1 {
      assert xs[1..] == [];
      assert Replay(prev, code, slot, clock, xs) == next;
    } else {
      assert forall k :: 0 <= k < |xs[1..]| ==> xs[1..][k] == xs[k + 1];
      assert Replayable(xs[1..], slot);
      LastSnapshotDecides(next, code, slot, clock, xs[1..]);
    }
  }

  /** The two rows agree wherever latest-wins and GREATEST decide, and the second has no more time. */
  ghost predicate SameOutcome(v: View, w: View) {
    v.answer == w.answer && v.marked == w.marked && v.actionSeq == w.actionSeq && v.hints == w.hints && w.time <= v.time
  }

  lemma NewestAloneHasSameOutcome(
      prev: Option<Row>, code: string, slot: int, full: Action -> int, alone: Action -> int, s: seq<Action>)
    requires Replayable(s, slot) && s != []
    ensures var v := ViewOf(Replay(prev, code, slot, full, s));
            var w := ViewOf(Replay(prev, code, slot, alone, [s[|s| - 1]]));
            SameOutcome(v, w) && (ViewOf(prev).visits >= 0 && VisitsRise(s) ==> v.visits == w.visits)
  {
    var last := s[|s| - 1];
    assert last in s;
    LastSnapshotDecides(prev, code, slot, full, s);
    LastSnapshotDecides(prev, code, slot, alone, [last]);
  }

  /** Sending the collapsed queue instead of everything, at whatever times: the server ends with
      the same answer, mark and sequence number in every slot, the same visit count when the
      client's counts never fall, and never more time. */
  lemma CollapsePreservesMeaning(
      prev: Option<Row>, code: string, slot: int, full: Action -> int, collapsed: Action -> int, xs: seq<Action>)
    requires Increasing(xs) && forall a :: a in xs ==> a.actionSeq >= 1
    ensures var v := ViewOf(Replay(prev, code, slot, full, xs));
            var w := ViewOf(Replay(prev, code, slot, collapsed, Collapse(xs)));
            SameOutcome(v, w) && (ViewOf(prev).visits >= 0 && VisitsRise(OfSlot(xs, slot)) ==> v.visits == w.visits)
  {
    OfSlotMembers(xs, slot);
    CollapseKeepsNewest(xs, slot);
    ReplaySeesOnlyItsSlot(prev, code, slot, full, xs);
    ReplaySeesOnlyItsSlot(prev, code, slot, collapsed, Collapse(xs));
    if OfSlot(xs, slot) != [] {
      NewestAloneHasSameOutcome(prev, code, slot, full, collapsed, OfSlot(xs, slot));
    }
  }
}
