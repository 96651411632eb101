/** Visit order of the answered slots: by last action, rows never acted on last. */
module VisitRanking {
  import opened Basics
  import opened Snapshots

  datatype Snap = Snap(slot: int, row: Row)

  /** The comparator of the submit pipeline: negative, zero or positive. */
  function Compare(a: Snap, b: Snap): int {
    match (a.row.lastAction, b.row.lastAction)
    case (Some(s), Some(t)) => s - t
    case (Some(_), None) => -1
    case (None, Some(_)) => 1
    case (None, None) => a.slot - b.slot
  }

  /** Earlier visit: by time, nulls last, ties by slot. */
  predicate Precedes(a: Snap, b: Snap) {
    match (a.row.lastAction, b.row.lastAction)
    case (Some(s), Some(t)) => s < t || (s == t && a.slot < b.slot)
    case (Some(_), None) => true
    case (None, Some(_)) => false
    case (None, None) => a.slot < b.slot
  }

  /** The comparator is a total preorder, so sorting by it is well defined; its ties are exactly
      the pairs of equal time, and equal slots among the nulls. */
  lemma CompareIsTotalPreorder(a: Snap, b: Snap, c: Snap)
    ensures Compare(a, a) == 0
    ensures (Compare(a, b) < 0 <==> Compare(b, a) > 0) && (Compare(a, b) == 0 <==> Compare(b, a) == 0)
    ensures Compare(a, b) <= 0 && Compare(b, c) <= 0 ==> Compare(a, c) <= 0
    ensures Compare(a, b) <= 0 && Compare(b, c) < 0 ==> Compare(a, c) < 0
    ensures Precedes(a, b) <==> Compare(a, b) < 0 || (Compare(a, b) == 0 && a.slot < b.slot)
  {
  }

  ghost predicate BySlot(xs: seq<Snap>) {
    forall i, j :: 0 <= i < j < |xs| ==> xs[i].slot < xs[j].slot
  }

  ghost predicate ByVisit(xs: seq<Snap>) {
    forall i, j :: 0 <= i < j < |xs| ==> Precedes(xs[i], xs[j])
  }

  function Insert(sorted: seq<Snap>, x: Snap): seq<Snap>
    decreases |sorted|
  {
    if sorted == [] then [x]
    else
      var last := sorted[|sorted| - 1];
      if Compare(x, last) < 0 then Insert(sorted[..|sorted| - 1], x) + [last] else sorted + [x]
  }

  /** A stable sort by the comparator. */
  function SortByAction(xs: seq<Snap>): seq<Snap>
    decreases |xs|
  {
    if xs == [] then [] else Insert(SortByAction(xs[..|xs| - 1]), xs[|xs| - 1])
  }

  lemma {:induction false} InsertAdds(sorted: seq<Snap>, x: Snap)
    ensures multiset(Insert(sorted, x)) == multiset(sorted) + multiset{x}
    decreases |sorted|
  {
    if sorted != [] {
      InsertAdds(sorted[..|sorted| - 1], x);
      assert sorted == sorted[..|sorted| - 1] + [sorted[|sorted| - 1]];
    }
  }

  lemma AppendKeepsOrder(ys: seq<Snap>, z: Snap)
    requires ByVisit(ys) && forall y :: y in ys ==> Precedes(y, z)
    ensures ByVisit(ys + [z])
  {
    assert forall i :: 0 <= i < |ys| ==> ys[i] in ys;
  }

  lemma {:induction false} InsertKeepsOrder(sorted: seq<Snap>, x: Snap)
    requires ByVisit(sorted) && forall y :: y in sorted ==> y.slot < x.slot
    ensures ByVisit(Insert(sorted, x))
    ensures forall y :: y in Insert(sorted, x) <==> y in sorted || y == x
    decreases |sorted|
  {
    if sorted != [] {
      var init, last := sorted[..|sorted| - 1], sorted[|sorted| - 1];
      assert sorted == init + [last] && last in sorted;
      assert forall y :: y in init ==> y in sorted && Precedes(y, last);
      if Compare(x, last) < 0 {
        InsertKeepsOrder(init, x);
        AppendKeepsOrder(Insert(init, x), last);
      } else {
        AppendKeepsOrder(sorted, x);
      }
    }
  }

  /** Rows come in slot order, so sorting them stably yields the strict visit order. */
  lemma {:induction false} SortOrders(xs: seq<Snap>)
    requires BySlot(xs)
    ensures ByVisit(SortByAction(xs)) && multiset(SortByAction(xs)) == multiset(xs)
    decreases |xs|
  {
    if xs != [] {
      var init, last := xs[..|xs| - 1], xs[|xs| - 1];
      assert xs == init + [last];
      SortOrders(init);
      SameMembers(SortByAction(init), init);
      InsertKeepsOrder(SortByAction(init), last);
      InsertAdds(SortByAction(init), last);
    }
  }

  function Before(s: Snap): Snap -> bool {
    (t: Snap) => Precedes(t, s)
  }

  /** The visit index: one more than the number of slots visited before. */
  function VisitRank(xs: seq<Snap>, s: Snap): nat {
    1 + Count(Before(s), xs)
  }

  lemma PositionIsCount(sorted: seq<Snap>, k: nat)
    requires ByVisit(sorted) && k < |sorted|
    ensures Count(Before(sorted[k]), sorted) == k
  {
    var s := sorted[k];
    CountAll(Before(s), sorted[..k]);
    CountNone(Before(s), sorted[k..]);
    CountConcat(Before(s), sorted[..k], sorted[k..]);
    assert sorted == sorted[..k] + sorted[k..];
  }

  /** The position in the sorted list is the rank among the unsorted rows. */
  lemma SortedPositionIsRank(xs: seq<Snap>, k: nat)
    requires BySlot(xs) && k < |SortByAction(xs)|
    ensures VisitRank(xs, SortByAction(xs)[k]) == k + 1
  {
    SortOrders(xs);
    PositionIsCount(SortByAction(xs), k);
    CountPermutation(Before(SortByAction(xs)[k]), SortByAction(xs), xs);
  }

  lemma RankedAt(xs: seq<Snap>, s: Snap) returns (k: nat)
    requires BySlot(xs) && s in xs
    ensures |SortByAction(xs)| == |xs| && ByVisit(SortByAction(xs))
    ensures k < |xs| && SortByAction(xs)[k] == s && VisitRank(xs, s) == k + 1
  {
    SortOrders(xs);
    SameMembers(SortByAction(xs), xs);
    assert s in SortByAction(xs);
    k :| 0 <= k < |SortByAction(xs)| && SortByAction(xs)[k] == s;
    SortedPositionIsRank(xs, k);
  }

  ghost predicate IsTaken(xs: seq<Snap>, rank: int) {
    exists s :: s in xs && VisitRank(xs, s) == rank
  }

  lemma RanksOrderVisits(xs: seq<Snap>, s: Snap, t: Snap)
    requires BySlot(xs) && s in xs && t in xs
    ensures 1 <= VisitRank(xs, s) <= |xs|
    ensures VisitRank(xs, s) < VisitRank(xs, t) <==> Precedes(s, t)
    ensures VisitRank(xs, s) == VisitRank(xs, t) ==> s == t
  {
    var i := RankedAt(xs, s);
    var j := RankedAt(xs, t);
  }

  /** Visit indexes are a bijection from the rows to 1..n, increasing along the visit order. */
  lemma RanksAreABijection(xs: seq<Snap>)
    requires BySlot(xs)
    ensures forall s, t :: s in xs && t in xs ==>
              && 1 <= VisitRank(xs, s) <= |xs|
              && (VisitRank(xs, s) < VisitRank(xs, t) <==> Precedes(s, t))
              && (VisitRank(xs, s) == VisitRank(xs, t) ==> s == t)
    ensures forall rank :: 1 <= rank <= |xs| ==> IsTaken(xs, rank)
  {
    forall s, t | s in xs && t in xs
      ensures 1 <= VisitRank(xs, s) <= |xs|
      ensures VisitRank(xs, s) < VisitRank(xs, t) <==> Precedes(s, t)
      ensures VisitRank(xs, s) == VisitRank(xs, t) ==> s == t
    {
      RanksOrderVisits(xs, s, t);
    }
    SortOrders(xs);
    SameMembers(SortByAction(xs), xs);
    forall rank | 1 <= rank <= |xs|
      ensures IsTaken(xs, rank)
    {
      SortedPositionIsRank(xs, rank - 1);
      assert SortByAction(xs)[rank - 1] in SortByAction(xs);
    }
  }
}
