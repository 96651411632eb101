/** The order in which late snapshots meet other traffic: exactly when it shows in the mark and in
    the visit count of a row. */
module LateOrder {
  import opened Basics
  import opened Snapshots

  ghost predicate AllWellFormed(ds: seq<Delivery>) {
    forall d :: d in ds ==> WellFormed(d)
  }

  lemma PermutedIsAlike(xs: seq<Delivery>, ds: seq<Delivery>)
    requires multiset(xs) == multiset(ds) && DistinctSeqs(ds)
    ensures |xs| == |ds| && (forall d :: d in xs <==> d in ds)
    ensures forall d, e :: d in ds && e in ds && !d.Hint? && !e.Hint? && d.actionSeq == e.actionSeq ==> d == e
  {
    SameMembers(xs, ds);
  }

  // ---- the mark ----

  /** Mark and sequence number develop on their own; an absent row is unmarked at 0. */
  datatype Mark = Mark(marked: bool, actionSeq: int)

  function MarkOf(r: Option<Row>): Mark {
    match r
    case None => Mark(false, 0)
    case Some(r) => Mark(r.marked, r.actionSeq)
  }

  function MarkStep(m: Mark, d: Delivery): Mark {
    if d.Hint? || d.actionSeq <= m.actionSeq then m
    else Mark(if d.Patch? then d.marked else m.marked, d.actionSeq)
  }

  lemma {:induction false} DeliverSimulatesMarks(prev: Option<Row>, code: string, ds: seq<Delivery>)
    requires AllWellFormed(ds)
    ensures MarkOf(Deliver(prev, code, ds)) == Fold(MarkStep, MarkOf(prev), ds)
    decreases |ds|
  {
    if ds != [] {
      assert WellFormed(ds[0]);
      DeliverSimulatesMarks(Some(Upsert(prev, code, ds[0])), code, ds[1..]);
    }
  }

  predicate Above(m: Mark, d: Delivery) {
    !d.Hint? && d.actionSeq > m.actionSeq
  }

  ghost predicate IsTop(m: Mark, ds: seq<Delivery>, d: Delivery) {
    d in ds && Above(m, d) && forall e :: e in ds && Above(m, e) ==> e.actionSeq <= d.actionSeq
  }

  /** The newest numbered delivery above the stored number is a patch. */
  ghost predicate PatchOnTop(m: Mark, ds: seq<Delivery>) {
    exists d :: IsTop(m, ds, d) && d.Patch?
  }

  /** No patch above the stored number would change the mark. */
  ghost predicate PatchesAgree(m: Mark, ds: seq<Delivery>) {
    forall d :: d in ds && d.Patch? && Above(m, d) ==> d.marked == m.marked
  }

  lemma {:induction false} NothingAboveKeepsMark(m: Mark, ds: seq<Delivery>)
    requires forall d :: d in ds ==> !Above(m, d)
    ensures Fold(MarkStep, m, ds) == m
    decreases |ds|
  {
    if ds != [] {
      assert !Above(m, ds[0]);
      NothingAboveKeepsMark(m, ds[1..]);
    }
  }

  lemma {:induction false} TopPatchDecides(m: Mark, ds: seq<Delivery>, top: Delivery)
    requires IsTop(m, ds, top) && top.Patch?
    requires forall d :: d in ds && Above(m, d) && d.actionSeq == top.actionSeq ==> d == top
    ensures Fold(MarkStep, m, ds) == Mark(top.marked, top.actionSeq)
    decreases |ds|
  {
    assert ds[0] in ds;
    var next := MarkStep(m, ds[0]);
    if ds[0] == top {
      NothingAboveKeepsMark(next, ds[1..]);
    } else {
      assert top in ds[1..];
      TopPatchDecides(next, ds[1..], top);
    }
  }

  lemma {:induction false} AgreeingPatchesKeepMark(m: Mark, ds: seq<Delivery>)
    requires PatchesAgree(m, ds)
    ensures Fold(MarkStep, m, ds).marked == m.marked
    decreases |ds|
  {
    if ds != [] {
      assert ds[0] in ds;
      var next := MarkStep(m, ds[0]);
      assert next.actionSeq >= m.actionSeq && next.marked == m.marked;
      AgreeingPatchesKeepMark(next, ds[1..]);
    }
  }

  lemma {:induction false} TopOf(m: Mark, ds: seq<Delivery>, d: Delivery) returns (top: Delivery)
    requires d in ds && Above(m, d)
    ensures IsTop(m, ds, top)
    decreases |ds|
  {
    if exists e :: e in ds[1..] && Above(m, e) {
      var e :| e in ds[1..] && Above(m, e);
      top := TopOf(m, ds[1..], e);
      if Above(m, ds[0]) && ds[0].actionSeq > top.actionSeq {
        top := ds[0];
      }
    } else {
      top := ds[0];
    }
    assert forall e :: e in ds <==> e == ds[0] || e in ds[1..];
  }

  lemma OneInFront(ds: seq<Delivery>, a: Delivery) returns (rest: seq<Delivery>)
    requires a in ds
    ensures multiset([a] + rest) == multiset(ds)
  {
    var i :| 0 <= i < |ds| && ds[i] == a;
    rest := RemoveAt(ds, i);
    RemoveAtMultiset(ds, i);
    assert multiset([a] + rest) == multiset{a} + multiset(rest);
  }

  lemma SwapInFront(a: Delivery, b: Delivery, rest: seq<Delivery>)
    ensures multiset([a, b] + rest) == multiset([b, a] + rest)
  {
    assert multiset([a, b]) == multiset([b, a]);
  }

  lemma KeepInFront(a: Delivery, xs: seq<Delivery>, ys: seq<Delivery>)
    requires multiset(xs) == multiset(ys)
    ensures multiset([a] + xs) == multiset([a] + ys)
  {
  }

  /** Bring two members of a list to its front. */
  lemma TwoInFront(ds: seq<Delivery>, a: Delivery, b: Delivery) returns (rest: seq<Delivery>)
    requires a in ds && b in ds && a != b
    ensures multiset([a, b] + rest) == multiset(ds) && multiset([b, a] + rest) == multiset(ds)
  {
    var most := OneInFront(ds, a);
    SameMembers([a] + most, ds);
    assert b in [a] + most;
    rest := OneInFront(most, b);
    KeepInFront(a, [b] + rest, most);
    assert [a] + ([b] + rest) == [a, b] + rest;
    SwapInFront(a, b, rest);
  }

  lemma FrontTwo(m: Mark, a: Delivery, b: Delivery, rest: seq<Delivery>)
    requires forall d :: d in rest ==> !Above(MarkStep(MarkStep(m, a), b), d)
    ensures Fold(MarkStep, m, [a, b] + rest) == MarkStep(MarkStep(m, a), b)
  {
    var ds := [a, b] + rest;
    assert ds[1..] == [b] + rest && ds[1..][1..] == rest;
    assert Fold(MarkStep, m, ds) == Fold(MarkStep, MarkStep(m, a), ds[1..]);
    NothingAboveKeepsMark(MarkStep(MarkStep(m, a), b), rest);
  }

  /** A late snapshot on top and a patch that would change the mark: two orders that end apart. */
  lemma OrdersThatDisagree(m: Mark, ds: seq<Delivery>, late: Delivery, patch: Delivery)
      returns (xs: seq<Delivery>, ys: seq<Delivery>)
    requires IsTop(m, ds, late) && late.Late? && patch in ds && patch.Patch? && Above(m, patch)
             && patch.marked != m.marked
    requires patch.actionSeq != late.actionSeq
    ensures multiset(xs) == multiset(ds) && multiset(ys) == multiset(ds)
    ensures Fold(MarkStep, m, xs).marked == m.marked && Fold(MarkStep, m, ys).marked == patch.marked
  {
    var rest := TwoInFront(ds, late, patch);
    xs, ys := [late, patch] + rest, [patch, late] + rest;
    SameMembers(xs, ds);
    assert forall d :: d in rest ==> d in xs;
    FrontTwo(m, late, patch, rest);
    FrontTwo(m, patch, late, rest);
  }

  ghost predicate SameMarks(prev: Option<Row>, code: string, ds: seq<Delivery>) {
    forall xs :: multiset(xs) == multiset(ds) ==>
      MarkOf(Deliver(prev, code, xs)).marked == MarkOf(Deliver(prev, code, ds)).marked
  }

  lemma MarksConverge(prev: Option<Row>, code: string, ds: seq<Delivery>, xs: seq<Delivery>)
    requires AllWellFormed(ds) && DistinctSeqs(ds) && multiset(xs) == multiset(ds)
    requires PatchOnTop(MarkOf(prev), ds) || PatchesAgree(MarkOf(prev), ds)
    ensures MarkOf(Deliver(prev, code, xs)).marked == MarkOf(Deliver(prev, code, ds)).marked
  {
    var m := MarkOf(prev);
    PermutedIsAlike(xs, ds);
    DeliverSimulatesMarks(prev, code, xs);
    DeliverSimulatesMarks(prev, code, ds);
    if PatchesAgree(m, ds) {
      AgreeingPatchesKeepMark(m, ds);
      AgreeingPatchesKeepMark(m, xs);
    } else {
      var top :| IsTop(m, ds, top) && top.Patch?;
      TopPatchDecides(m, ds, top);
      TopPatchDecides(m, xs, top);
    }
  }

  /** Every arrival order leaves the same mark if and only if the newest delivery above the stored
      number is a patch, or no patch above it carries another mark than the stored one. */
  lemma MarksConvergeIff(prev: Option<Row>, code: string, ds: seq<Delivery>)
    requires AllWellFormed(ds) && DistinctSeqs(ds)
    ensures SameMarks(prev, code, ds) <==> PatchOnTop(MarkOf(prev), ds) || PatchesAgree(MarkOf(prev), ds)
  {
    var m := MarkOf(prev);
    if PatchOnTop(m, ds) || PatchesAgree(m, ds) {
      forall xs | multiset(xs) == multiset(ds)
        ensures MarkOf(Deliver(prev, code, xs)).marked == MarkOf(Deliver(prev, code, ds)).marked
      {
        MarksConverge(prev, code, ds, xs);
      }
    } else {
      var patch :| patch in ds && patch.Patch? && Above(m, patch) && patch.marked != m.marked;
      var late := TopOf(m, ds, patch);
      PermutedIsAlike(ds, ds);
      var xs, ys := OrdersThatDisagree(m, ds, late, patch);
      PermutedIsAlike(xs, ds);
      PermutedIsAlike(ys, ds);
      DeliverSimulatesMarks(prev, code, xs);
      DeliverSimulatesMarks(prev, code, ys);
      assert MarkOf(Deliver(prev, code, xs)).marked != MarkOf(Deliver(prev, code, ys)).marked;
    }
  }

  // ---- the visit count ----

  function PatchedVisits(floor: int, ds: seq<Delivery>): int
    decreases |ds|
  {
    if ds == [] then floor else PatchedVisits(if ds[0].Patch? then Max(floor, ds[0].visits) else floor, ds[1..])
  }

  /** The greatest visit count of the patches, or `floor`. */
  lemma {:induction false} PatchedVisitsIsGreatest(floor: int, ds: seq<Delivery>)
    ensures PatchedVisits(floor, ds) >= floor
    ensures forall d :: d in ds && d.Patch? ==> d.visits <= PatchedVisits(floor, ds)
    ensures PatchedVisits(floor, ds) == floor || exists d :: d in ds && d.Patch? && d.visits == PatchedVisits(floor, ds)
    decreases |ds|
  {
    if ds != [] {
      PatchedVisitsIsGreatest(if ds[0].Patch? then Max(floor, ds[0].visits) else floor, ds[1..]);
      assert forall d :: d in ds <==> d == ds[0] || d in ds[1..];
    }
  }

  lemma {:induction false} DeliverCollectsVisits(r: Row, code: string, ds: seq<Delivery>)
    ensures Deliver(Some(r), code, ds).value.visits == PatchedVisits(r.visits, ds)
    decreases |ds|
  {
    if ds != [] {
      DeliverCollectsVisits(Upsert(Some(r), code, ds[0]), code, ds[1..]);
    }
  }

  /** What visits start from: the stored count, or on an absent row one for a late snapshot in front. */
  function VisitFloor(prev: Option<Row>, ds: seq<Delivery>): int {
    if prev.Some? then prev.value.visits else if ds != [] && ds[0].Late? then 1 else 0
  }

  lemma VisitsFromFloor(prev: Option<Row>, code: string, ds: seq<Delivery>)
    requires AllWellFormed(ds)
    ensures ViewOf(Deliver(prev, code, ds)).visits == PatchedVisits(VisitFloor(prev, ds), ds)
  {
    if ds != [] {
      assert WellFormed(ds[0]);
      DeliverCollectsVisits(Upsert(prev, code, ds[0]), code, ds[1..]);
      if prev.Some? {
        DeliverCollectsVisits(prev.value, code, ds);
      }
    }
  }

  /** Nothing for the order to decide: a row is there, no late snapshot or nothing else arrives, or a
      patch brings a visit. */
  ghost predicate VisitsDecided(prev: Option<Row>, ds: seq<Delivery>) {
    || prev.Some?
    || (forall d :: d in ds ==> !d.Late?)
    || (forall d :: d in ds ==> d.Late?)
    || (exists d :: d in ds && d.Patch? && d.visits >= 1)
  }

  ghost predicate SameVisits(prev: Option<Row>, code: string, ds: seq<Delivery>) {
    forall xs :: multiset(xs) == multiset(ds) ==>
      ViewOf(Deliver(prev, code, xs)).visits == ViewOf(Deliver(prev, code, ds)).visits
  }

  lemma VisitsConverge(prev: Option<Row>, code: string, ds: seq<Delivery>, xs: seq<Delivery>)
    requires AllWellFormed(ds) && multiset(xs) == multiset(ds) && VisitsDecided(prev, ds)
    ensures ViewOf(Deliver(prev, code, xs)).visits == ViewOf(Deliver(prev, code, ds)).visits
  {
    SameMembers(xs, ds);
    VisitsFromFloor(prev, code, xs);
    VisitsFromFloor(prev, code, ds);
    PatchedVisitsIsGreatest(VisitFloor(prev, xs), xs);
    PatchedVisitsIsGreatest(VisitFloor(prev, ds), ds);
    if ds != [] {
      assert xs[0] in ds && ds[0] in ds;
    }
  }

  /** Every arrival order leaves the same visit count if and only if one of those cases holds. */
  lemma VisitsConvergeIff(prev: Option<Row>, code: string, ds: seq<Delivery>)
    requires AllWellFormed(ds)
    ensures SameVisits(prev, code, ds) <==> VisitsDecided(prev, ds)
  {
    if VisitsDecided(prev, ds) {
      forall xs | multiset(xs) == multiset(ds)
        ensures ViewOf(Deliver(prev, code, xs)).visits == ViewOf(Deliver(prev, code, ds)).visits
      {
        VisitsConverge(prev, code, ds, xs);
      }
    } else {
      var late :| late in ds && late.Late?;
      var other :| other in ds && !other.Late?;
      var rest := TwoInFront(ds, late, other);
      VisitsApart(code, ds, [late, other] + rest, [other, late] + rest);
    }
  }

  lemma VisitsApart(code: string, ds: seq<Delivery>, xs: seq<Delivery>, ys: seq<Delivery>)
    requires AllWellFormed(ds) && multiset(xs) == multiset(ds) && multiset(ys) == multiset(ds)
    requires xs != [] && ys != [] && xs[0].Late? && !ys[0].Late?
    requires forall d :: d in ds && d.Patch? ==> d.visits < 1
    ensures ViewOf(Deliver(None, code, xs)).visits == 1 && ViewOf(Deliver(None, code, ys)).visits == 0
  {
    SameMembers(xs, ds);
    SameMembers(ys, ds);
    VisitsFromFloor(None, code, xs);
    VisitsFromFloor(None, code, ys);
    PatchedVisitsIsGreatest(1, xs);
    PatchedVisitsIsGreatest(0, ys);
  }

  // ---- the two failures at one input each ----

  /** A late snapshot raises the sequence number without carrying a mark, so a patch arriving behind
      it loses its own. */
  lemma LateSnapshotsMakeMarkOrderDependent(code: string)
    ensures var patch, late := Patch(None, true, 0, 1, 1, 0), Late(None, 2, 0);
            ViewOf(Deliver(None, code, [patch, late])).marked != ViewOf(Deliver(None, code, [late, patch])).marked
  {
    var patch, late := Patch(None, true, 0, 1, 1, 0), Late(None, 2, 0);
    FrontTwo(Mark(false, 0), patch, late, []);
    FrontTwo(Mark(false, 0), late, patch, []);
    assert [patch, late] + [] == [patch, late] && [late, patch] + [] == [late, patch];
    DeliverSimulatesMarks(None, code, [patch, late]);
    DeliverSimulatesMarks(None, code, [late, patch]);
  }

  /** Whether the row was created by a hint reveal or by a late snapshot shows in its visits. */
  lemma LateSnapshotsMakeVisitsOrderDependent(code: string, level: int)
    ensures var hint, late := Hint(level, 0), Late(None, 1, 0);
            ViewOf(Deliver(None, code, [late, hint])).visits == 1
                && ViewOf(Deliver(None, code, [hint, late])).visits == 0
  {
    var hint, late := Hint(level, 0), Late(None, 1, 0);
    assert multiset([hint, late]) == multiset([late, hint]);
    VisitsApart(code, [late, hint], [late, hint], [hint, late]);
  }
}
