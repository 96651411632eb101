/** What the student entered, and what the page makes of it: a save's continuation writes the whole
    saved copy back, answer and mark included. */
module Entries {
  import opened Basics
  import opened Snapshots
  import opened Actions
  import opened QueueState
  import opened Replication
  import opened Convergence
  import opened VisitAccounting

  /** The part of a local snapshot the student decides. */
  datatype Entry = Entry(answer: Option<Payload>, marked: bool)

  function EntryOf(c: Clock, slot: int): Entry {
    Entry(LocalOf(c, slot).answer, LocalOf(c, slot).marked)
  }

  function Revised(e: Entry, edit: Edit): Entry {
    match edit
    case Answer(value) => e.(answer := value)
    case Keep => e
    case Mark => e.(marked := true)
    case ToggleMark => e.(marked := !e.marked)
  }

  /** What the student has entered for a slot: the edits of the slot one after the other, and nothing else. */
  function Entered(e: Entry, xs: seq<Input>, slot: int): Entry
    decreases |xs|
  {
    if xs == [] then e
    else Entered(if xs[0].Save? && xs[0].slot == slot then Revised(e, xs[0].edit) else e, xs[1..], slot)
  }

  /** Every save under way would write back the entry its slot shows. */
  ghost predicate InAgreement(c: Clock) {
    forall k :: 0 <= k < |c.saving| ==>
      Entry(c.saving[k].next.answer, c.saving[k].next.marked) == EntryOf(c, c.saving[k].slot)
  }

  /** Changing the entry of a slot while one of its saves is under way. */
  predicate Revises(c: Clock, x: Input) {
    x.Save? && Awaits(c, x.slot) && Revised(EntryOf(c, x.slot), x.edit) != EntryOf(c, x.slot)
  }

  ghost predicate Unrevised(c: Clock, xs: seq<Input>)
    decreases |xs|
  {
    xs == [] || (!Revises(c, xs[0]) && Unrevised(Ticked(c, xs[0]), xs[1..]))
  }

  /** The slot shows what was entered for it. */
  ghost predicate ShowsEntered(c: Clock, xs: seq<Input>, slot: int) {
    EntryOf(ClockAfter(c, xs), slot) == Entered(EntryOf(c, slot), xs, slot)
  }

  lemma StepShowsEntered(c: Clock, x: Input, slot: int)
    requires InAgreement(c)
    ensures EntryOf(Ticked(c, x), slot)
            == if x.Save? && x.slot == slot then Revised(EntryOf(c, slot), x.edit) else EntryOf(c, slot)
  {
  }

  lemma StepKeepsAgreement(c: Clock, x: Input)
    requires InAgreement(c) && !Revises(c, x)
    ensures InAgreement(Ticked(c, x))
  {
    var c' := Ticked(c, x);
    forall k | 0 <= k < |c'.saving|
      ensures Entry(c'.saving[k].next.answer, c'.saving[k].next.marked) == EntryOf(c', c'.saving[k].slot)
    {
      var s := c'.saving[k];
      StepShowsEntered(c, x, s.slot);
      if x.Finish? && x.k < |c.saving| {
        ContinuedSaves(c, x.k);
      }
      if s in c.saving {
        var i :| 0 <= i < |c.saving| && c.saving[i] == s;
        assert Awaits(c, s.slot);
      }
    }
  }

  /** As long as no entry is changed while a save of its slot is under way, every slot shows what was
      entered for it, in whatever order saves complete. */
  lemma {:induction false} UnrevisedShowsEntered(c: Clock, xs: seq<Input>, slot: int)
    requires InAgreement(c) && Unrevised(c, xs)
    ensures InAgreement(ClockAfter(c, xs)) && ShowsEntered(c, xs, slot)
    decreases |xs|
  {
    if xs != [] {
      StepKeepsAgreement(c, xs[0]);
      StepShowsEntered(c, xs[0], slot);
      UnrevisedShowsEntered(Ticked(c, xs[0]), xs[1..], slot);
    }
  }

  // ---- exactly when an entry is lost ----

  /** After input `x`, every slot keeps showing what is entered, in all unrevised continuations. */
  ghost predicate KeepsEntriesFrom(c: Clock, x: Input) {
    forall ys, slot :: Unrevised(Ticked(c, x), ys) ==> ShowsEntered(c, [x] + ys, slot)
  }

  lemma RevisionReverts(c: Clock, x: Input, k: nat)
    requires InAgreement(c) && Revises(c, x) && k < |c.saving| && c.saving[k].slot == x.slot
    ensures Unrevised(Ticked(c, x), [Finish(k)]) && !ShowsEntered(c, [x] + [Finish(k)], x.slot)
  {
    var xs := [x] + [Finish(k)];
    assert xs[1..] == [Finish(k)] && [Finish(k)][1..] == [];
    var c1 := Ticked(c, x);
    assert c1.saving[k] == c.saving[k];
    var c2 := Ticked(c1, Finish(k));
    assert EntryOf(c2, x.slot) == EntryOf(c, x.slot);
    assert ClockAfter(c1, [Finish(k)]) == ClockAfter(c2, []) && ClockAfter(c, xs) == ClockAfter(c1, [Finish(k)]);
    var entered := Revised(EntryOf(c, x.slot), x.edit);
    assert Entered(entered, [Finish(k)], x.slot) == Entered(entered, [], x.slot);
    assert Entered(EntryOf(c, x.slot), xs, x.slot) == Entered(entered, [Finish(k)], x.slot);
  }

  /** The exact condition, at every point at which the saves under way agree with their slots: the next
      input lets an entry get lost, in some unrevised continuation, if and only if it changes the entry
      of a slot while one of its saves is under way. */
  lemma EntriesAreKeptIff(c: Clock, x: Input)
    requires InAgreement(c)
    ensures KeepsEntriesFrom(c, x) <==> !Revises(c, x)
  {
    if Revises(c, x) {
      var k :| 0 <= k < |c.saving| && c.saving[k].slot == x.slot;
      RevisionReverts(c, x, k);
    } else {
      forall ys, slot | Unrevised(Ticked(c, x), ys)
        ensures ShowsEntered(c, [x] + ys, slot)
      {
        assert ([x] + ys)[1..] == ys;
        assert Unrevised(c, [x] + ys);
        UnrevisedShowsEntered(c, [x] + ys, slot);
      }
    }
  }

  // ---- what is queued ----

  function BodyEntry(b: Body): Entry {
    Entry(b.answer, b.marked)
  }

  predicate SavesSlot(xs: seq<Input>, slot: int) {
    exists i :: 0 <= i < |xs| && xs[i].Save? && xs[i].slot == slot
  }

  /** A slot's newest snapshot is what the slot shows. */
  ghost predicate NewestShows(history: seq<Action>, c: Clock, slot: int) {
    forall a :: IsNewest(history, a) && a.slot == slot ==> BodyEntry(a.body) == EntryOf(c, slot)
  }

  lemma NewestOfAppended(history: seq<Action>, a: Action, b: Action)
    requires forall h :: h in history ==> h.actionSeq < a.actionSeq
    requires IsNewest(history + [a], b)
    ensures b == a || (IsNewest(history, b) && (a.Snapshot? ==> a.slot != b.slot))
  {
    assert forall h :: h in history + [a] <==> h in history || h == a;
  }

  /** One input that does not revise: the newest snapshot of a slot keeps matching, and does from the
      slot's first save on. */
  lemma StepKeepsNewestShows(w: World, c: Clock, x: Input, slot: int)
    requires Recorded(w) && InAgreement(c) && (x.Net? ==> !x.event.EnqueueSnap?)
    requires NewestShows(w.history, c, slot) || (x.Save? && x.slot == slot)
    ensures var w' := Run(w, AsEvents(c, x));
            Valid(w.client) && Recorded(w') && NewestShows(w'.history, Ticked(c, x), slot)
  {
    var es, c' := AsEvents(c, x), Ticked(c, x);
    StepShowsEntered(c, x, slot);
    if es == [] {
      assert Run(w, es) == w;
    } else {
      assert es[1..] == [] && Run(w, es) == Next(w, es[0]);
      NextKeepsRecorded(w, es[0]);
      if IsQueueing(es[0]) {
        forall b | IsNewest(Next(w, es[0]).history, b) && b.slot == slot
          ensures BodyEntry(b.body) == EntryOf(c', slot)
        {
          NewestOfAppended(w.history, Queued(w, es[0]), b);
        }
      } else {
        assert w.history + [] == w.history;
      }
    }
  }

  lemma RunAppended(w: World, first: seq<Event>, rest: seq<Event>)
    requires Valid(w.client) && |first| <= 1
    ensures Valid(Run(w, first).client) && Run(w, first + rest) == Run(Run(w, first), rest)
  {
    if first == [] {
      assert first + rest == rest;
    } else {
      NextKeepsValid(w, first[0]);
      assert (first + rest)[1..] == rest && first[1..] == [];
      assert Run(w, first) == Next(w, first[0]);
    }
  }

  lemma StepKeepsRecorded(w: World, c: Clock, x: Input)
    requires Recorded(w)
    ensures Valid(w.client) && Recorded(Run(w, AsEvents(c, x))) && w.history <= Run(w, AsEvents(c, x)).history
    ensures x.Save? ==> exists a :: a in Run(w, AsEvents(c, x)).history && a.Snapshot? && a.slot == x.slot
                                    && a.actionSeq > w.client.counter
    ensures Run(w, AsEvents(c, x)).client.counter >= w.client.counter
  {
    var es := AsEvents(c, x);
    if es != [] {
      assert es[1..] == [] && Run(w, es) == Next(w, es[0]);
      NextKeepsRecorded(w, es[0]);
      if IsQueueing(es[0]) {
        EnqueueEffect(w, es[0]);
        assert Queued(w, es[0]) in Next(w, es[0]).history;
      } else if Enabled(w, es[0]) {
        CounterStays(w, es[0]);
      }
    }
  }

  lemma CounterStays(w: World, e: Event)
    requires Valid(w.client) && Enabled(w, e) && !IsQueueing(e)
    ensures Next(w, e).client.counter == w.client.counter
  {
    if e.Acked? {
      AckEffect(w);
    } else if IsSending(e) {
      SendingStep(w, e);
    }
  }

  lemma {:induction false} RunKeepsNewestShows(w: World, c: Clock, xs: seq<Input>, slot: int)
    requires Recorded(w) && InAgreement(c) && Unrevised(c, xs) && OnlySavesQueue(xs)
    requires NewestShows(w.history, c, slot) || SavesSlot(xs, slot)
    ensures Valid(w.client)
    ensures NewestShows(Run(w, ToEvents(c, xs)).history, ClockAfter(c, xs), slot)
    decreases |xs|
  {
    if xs != [] {
      var x, c', first := xs[0], Ticked(c, xs[0]), AsEvents(c, xs[0]);
      assert x in xs;
      StepKeepsRecorded(w, c, x);
      StepKeepsAgreement(c, x);
      RunAppended(w, first, ToEvents(c', xs[1..]));
      if NewestShows(w.history, c, slot) || (x.Save? && x.slot == slot) {
        StepKeepsNewestShows(w, c, x, slot);
      } else {
        var i :| 0 <= i < |xs| && xs[i].Save? && xs[i].slot == slot;
        assert xs[1..][i - 1] == xs[i];
      }
      RunKeepsNewestShows(Run(w, first), c', xs[1..], slot);
    }
  }

  /** A saved slot has a snapshot numbered behind everything that was there before. */
  lemma {:induction false} SavedSlotHasSnapshot(w: World, c: Clock, xs: seq<Input>, slot: int) returns (a: Action)
    requires Recorded(w) && SavesSlot(xs, slot)
    ensures Valid(w.client)
    ensures a in Run(w, ToEvents(c, xs)).history && a.Snapshot? && a.slot == slot && a.actionSeq > w.client.counter
    decreases |xs|
  {
    var x, c', first := xs[0], Ticked(c, xs[0]), AsEvents(c, xs[0]);
    StepKeepsRecorded(w, c, x);
    RunAppended(w, first, ToEvents(c', xs[1..]));
    if x.Save? && x.slot == slot {
      a :| a in Run(w, first).history && a.Snapshot? && a.slot == slot && a.actionSeq > w.client.counter;
      HistoryGrows(Run(w, first), c', xs[1..]);
    } else {
      var i :| 0 <= i < |xs| && xs[i].Save? && xs[i].slot == slot;
      assert xs[1..][i - 1] == xs[i];
      a := SavedSlotHasSnapshot(Run(w, first), c', xs[1..], slot);
    }
  }

  lemma {:induction false} HistoryGrows(w: World, c: Clock, xs: seq<Input>)
    requires Recorded(w)
    ensures Valid(w.client) && w.history <= Run(w, ToEvents(c, xs)).history
    decreases |xs|
  {
    if xs != [] {
      StepKeepsRecorded(w, c, xs[0]);
      RunAppended(w, AsEvents(c, xs[0]), ToEvents(Ticked(c, xs[0]), xs[1..]));
      HistoryGrows(Run(w, AsEvents(c, xs[0])), Ticked(c, xs[0]), xs[1..]);
    }
  }

  lemma {:induction false} NewestAbove(history: seq<Action>, a: Action) returns (top: Action)
    requires a in history && a.Snapshot?
    ensures IsNewest(history, top) && top.slot == a.slot && top.actionSeq >= a.actionSeq
    decreases |history|
  {
    var rest := history[1..];
    assert forall h :: h in history <==> h == history[0] || h in rest;
    if a in rest {
      top := NewestAbove(rest, a);
      if history[0].Snapshot? && history[0].slot == a.slot && history[0].actionSeq > top.actionSeq {
        top := history[0];
      }
    } else if exists b :: b in rest && b.Snapshot? && b.slot == a.slot && b.actionSeq > a.actionSeq {
      var b :| b in rest && b.Snapshot? && b.slot == a.slot && b.actionSeq > a.actionSeq;
      top := NewestAbove(rest, b);
    } else {
      top := a;
    }
  }

  /** What is queued is what was entered: after an unrevised run the newest snapshot of every slot saved
      in it carries the last entered answer and mark, under a number above everything stored before. */
  lemma LastEnteredIsNewest(w: World, c: Clock, xs: seq<Input>, slot: int) returns (a: Action)
    requires Recorded(w) && InAgreement(c) && Unrevised(c, xs) && OnlySavesQueue(xs) && SavesSlot(xs, slot)
    ensures Valid(w.client)
    ensures IsNewest(Run(w, ToEvents(c, xs)).history, a) && a.slot == slot && a.actionSeq > w.client.counter
    ensures BodyEntry(a.body) == Entered(EntryOf(c, slot), xs, slot)
  {
    var b := SavedSlotHasSnapshot(w, c, xs, slot);
    a := NewestAbove(Run(w, ToEvents(c, xs)).history, b);
    RunKeepsNewestShows(w, c, xs, slot);
    UnrevisedShowsEntered(c, xs, slot);
  }

  // ---- the lost answer ----

  /** Answer a slot, answer it again before the first save has completed, and mark it after that: the
      third save shows, and queues under the highest number, the first answer. */
  lemma OldAnswerComesBack(first: Option<Payload>, second: Option<Payload>, now: int)
    ensures var c := Clock(now, {}, map[], []);
            var c1 := Ticked(c, Save(0, Answer(first), now));
            var c2 := Ticked(c1, Save(0, Answer(second), now));
            var c3 := Ticked(c2, Finish(0));
            var xs := [Save(0, Answer(first), now), Save(0, Answer(second), now), Finish(0), Save(0, ToggleMark, now)];
            && (Revises(c1, Save(0, Answer(second), now)) <==> first != second)
            && Entered(EntryOf(c, 0), xs, 0) == Entry(second, true)
            && Saved(c1, 0, Answer(second), now).1.answer == second
            && BodyEntry(Saved(c3, 0, ToggleMark, now).1) == Entry(first, true)
  {
    var c := Clock(now, {}, map[], []);
    var c1 := Ticked(c, Save(0, Answer(first), now));
    var c2 := Ticked(c1, Save(0, Answer(second), now));
    assert c1.saving[0].slot == 0 && Awaits(c1, 0);
    assert c2.saving[0] == c1.saving[0];
    var toggle := [Save(0, ToggleMark, now)];
    var xs := [Save(0, Answer(first), now), Save(0, Answer(second), now), Finish(0)] + toggle;
    var e0, e1, e2 := EntryOf(c, 0), Entry(first, false), Entry(second, false);
    assert xs[1..] == [Save(0, Answer(second), now), Finish(0)] + toggle && xs[1..][1..] == [Finish(0)] + toggle;
    assert xs[1..][1..][1..] == toggle && toggle[1..] == [];
    assert Entered(e2, toggle, 0) == Entry(second, true);
    assert Entered(e2, xs[1..][1..], 0) == Entered(e2, toggle, 0);
    assert Entered(e1, xs[1..], 0) == Entered(e2, xs[1..][1..], 0);
    assert Entered(e0, xs, 0) == Entered(e1, xs[1..], 0);
    assert xs == [Save(0, Answer(first), now), Save(0, Answer(second), now), Finish(0), Save(0, ToggleMark, now)];
  }
}
