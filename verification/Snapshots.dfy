/** The server's per-slot snapshot row and the three UPSERT statements that write it:
    PATCH of a telemetry snapshot, reveal of a hint, and a late snapshot. */
module Snapshots {
  import opened Basics

  /** One entry of `selected_options`: the answer bank uses letters, the client numbers. */
  datatype Choice = Letter(text: string) | Index(n: int)

  /** The two fields of a stored answer payload that grading reads. */
  datatype Payload = Payload(selected: Option<seq<Choice>>, value: Option<string>)

  datatype Row = Row(
    code: string,
    answer: Option<Payload>,
    time: int,
    visits: int,
    marked: bool,
    hints: int,
    levels: seq<int>,
    actionSeq: int,
    lastAction: Option<int>)

  /** A write reaching the row; `at` is the server clock of the statement. */
  datatype Delivery =
    | Patch(answer: Option<Payload>, marked: bool, delta: int, visits: int, actionSeq: int, at: int)
    | Hint(level: int, at: int)
    | Late(answer: Option<Payload>, actionSeq: int, at: int)

  const MAX_DELTA := 60

  function Clamp(delta: int): int {
    Max(0, Min(MAX_DELTA, delta))
  }

  /** The INSERT ... ON CONFLICT DO UPDATE statement of each endpoint. */
  function Upsert(prev: Option<Row>, code: string, d: Delivery): Row {
    match d
    case Patch(answer, marked, delta, visits, actionSeq, at) => (
      match prev
      case None => Row(code, answer, Clamp(delta), visits, marked, 0, [], actionSeq, Some(at))
      case Some(r) =>
        r.(answer := if actionSeq > r.actionSeq then answer else r.answer,
           time := r.time + Clamp(delta),
           visits := Max(r.visits, visits),
           marked := if actionSeq > r.actionSeq then marked else r.marked,
           actionSeq := Max(r.actionSeq, actionSeq),
           lastAction := Some(at)))
    case Hint(level, at) => (
      match prev
      case None => Row(code, None, 0, 0, false, 1, [level], 0, Some(at))
      case Some(r) => r.(hints := r.hints + 1, levels := r.levels + [level], lastAction := Some(at)))
    case Late(answer, actionSeq, at) => (
      match prev
      case None => Row(code, answer, 0, 1, false, 0, [], actionSeq, Some(at))
      case Some(r) =>
        r.(answer := if actionSeq > r.actionSeq then answer else r.answer,
           actionSeq := Max(r.actionSeq, actionSeq),
           lastAction := Some(at)))
  }

  /** The row after a list of deliveries, in arrival order. */
  function Deliver(prev: Option<Row>, code: string, ds: seq<Delivery>): (r: Option<Row>)
    ensures ds != [] ==> r.Some?
    decreases |ds|
  {
    if ds == [] then prev else Deliver(Some(Upsert(prev, code, ds[0])), code, ds[1..])
  }

  /** What the deliveries are meant to agree on; an absent row counts as an untouched one.
      The order of revealed levels and the time of the last write are not part of it. */
  datatype View = View(answer: Option<Payload>, marked: bool, visits: int, time: int, hints: int, actionSeq: int)

  function ViewOf(r: Option<Row>): View {
    match r
    case None => View(None, false, 0, 0, 0, 0)
    case Some(r) => View(r.answer, r.marked, r.visits, r.time, r.hints, r.actionSeq)
  }

  /** A delivery the client can produce: sequence numbers start at 1, counts are not negative. */
  predicate WellFormed(d: Delivery) {
    match d
    case Patch(_, _, _, visits, actionSeq, _) => visits >= 0 && actionSeq >= 1
    case Hint(_, _) => true
    case Late(_, actionSeq, _) => actionSeq >= 1
  }

  function ViewStep(v: View, d: Delivery): View {
    match d
    case Patch(answer, marked, delta, visits, actionSeq, _) =>
      View(if actionSeq > v.actionSeq then answer else v.answer,
           if actionSeq > v.actionSeq then marked else v.marked,
           Max(v.visits, visits), v.time + Clamp(delta), v.hints, Max(v.actionSeq, actionSeq))
    case Hint(_, _) => v.(hints := v.hints + 1)
    case Late(answer, actionSeq, _) =>
      v.(answer := if actionSeq > v.actionSeq then answer else v.answer, actionSeq := Max(v.actionSeq, actionSeq))
  }

  /** Without late snapshots the UPSERTs act on views alone: inserting is updating an untouched row. */
  lemma {:induction false} DeliverSimulatesViews(prev: Option<Row>, code: string, ds: seq<Delivery>)
    requires forall d :: d in ds ==> WellFormed(d) && !d.Late?
    requires ViewOf(prev).visits >= 0
    ensures ViewOf(Deliver(prev, code, ds)) == Fold(ViewStep, ViewOf(prev), ds)
    decreases |ds|
  {
    if ds != [] {
      assert ViewOf(Some(Upsert(prev, code, ds[0]))) == ViewStep(ViewOf(prev), ds[0]) by {
        assert ds[0] in ds;
      }
      DeliverSimulatesViews(Some(Upsert(prev, code, ds[0])), code, ds[1..]);
    }
  }

  /** Seconds a list of deliveries is worth: every patch counts, clamped to [0, 60]. */
  function PatchedTime(ds: seq<Delivery>): int
    decreases |ds|
  {
    if ds == [] then 0 else (if ds[0].Patch? then Max(0, Min(60, ds[0].delta)) else 0) + PatchedTime(ds[1..])
  }

  function Hints(ds: seq<Delivery>): nat
    decreases |ds|
  {
    if ds == [] then 0 else (if ds[0].Hint? then 1 else 0) + Hints(ds[1..])
  }

  /** `v` is the meaning of the deliveries on top of `base`: latest-wins for answer and mark,
      GREATEST for visits, sums for time and hints. */
  ghost predicate Means(base: View, ds: seq<Delivery>, v: View) {
    && v.time == base.time + PatchedTime(ds)
    && v.hints == base.hints + Hints(ds)
    && (forall d :: d in ds && d.Patch? ==> d.actionSeq <= v.actionSeq && d.visits <= v.visits)
    && (|| (v.actionSeq == base.actionSeq && v.answer == base.answer && v.marked == base.marked)
        || (v.actionSeq > base.actionSeq
            && exists d :: d in ds && d.Patch?
                           && d.actionSeq == v.actionSeq && d.answer == v.answer && d.marked == v.marked))
    && (v.visits == base.visits || (v.visits > base.visits && exists d :: d in ds && d.Patch? && d.visits == v.visits))
  }

  lemma {:induction false} FoldMeans(base: View, ds: seq<Delivery>)
    requires forall d :: d in ds ==> !d.Late?
    ensures Means(base, ds, Fold(ViewStep, base, ds))
    decreases |ds|
  {
    if ds != [] {
      assert ds[0] in ds;
      FoldMeans(ViewStep(base, ds[0]), ds[1..]);
      assert forall d :: d in ds <==> d == ds[0] || d in ds[1..];
    }
  }

  /** The stored row means exactly what was delivered to it. */
  lemma RowMeansItsDeliveries(prev: Option<Row>, code: string, ds: seq<Delivery>)
    requires forall d :: d in ds ==> WellFormed(d) && !d.Late?
    requires ViewOf(prev).visits >= 0
    ensures Means(ViewOf(prev), ds, ViewOf(Deliver(prev, code, ds)))
  {
    DeliverSimulatesViews(prev, code, ds);
    FoldMeans(ViewOf(prev), ds);
  }

  /** The part of the row on which late snapshots agree as well: all but mark and visits. */
  datatype Content = Content(answer: Option<Payload>, time: int, hints: int, actionSeq: int)

  function ContentOf(r: Option<Row>): Content {
    match r
    case None => Content(None, 0, 0, 0)
    case Some(r) => Content(r.answer, r.time, r.hints, r.actionSeq)
  }

  function ContentStep(c: Content, d: Delivery): Content {
    match d
    case Patch(answer, _, delta, _, actionSeq, _) =>
      Content(if actionSeq > c.actionSeq then answer else c.answer,
              c.time + Clamp(delta), c.hints, Max(c.actionSeq, actionSeq))
    case Hint(_, _) => c.(hints := c.hints + 1)
    case Late(answer, actionSeq, _) =>
      c.(answer := if actionSeq > c.actionSeq then answer else c.answer, actionSeq := Max(c.actionSeq, actionSeq))
  }

  lemma {:induction false} DeliverSimulatesContent(prev: Option<Row>, code: string, ds: seq<Delivery>)
    requires forall d :: d in ds ==> WellFormed(d)
    ensures ContentOf(Deliver(prev, code, ds)) == Fold(ContentStep, ContentOf(prev), ds)
    decreases |ds|
  {
    if ds != [] {
      assert WellFormed(ds[0]);
      DeliverSimulatesContent(Some(Upsert(prev, code, ds[0])), code, ds[1..]);
    }
  }

  /** No two numbered deliveries carry the same sequence number. */
  ghost predicate DistinctSeqs(ds: seq<Delivery>) {
    forall i, j :: 0 <= i < j < |ds| && !ds[i].Hint? && !ds[j].Hint? ==> ds[i].actionSeq != ds[j].actionSeq
  }

  lemma ViewStepsCommute(a: Delivery, b: Delivery)
    requires !a.Late? && !b.Late?
    requires a.Hint? || b.Hint? || a.actionSeq != b.actionSeq
    ensures Commute(ViewStep, a, b)
  {
    forall v: View
      ensures ViewStep(ViewStep(v, a), b) == ViewStep(ViewStep(v, b), a)
    {
      var ab, ba := ViewStep(ViewStep(v, a), b), ViewStep(ViewStep(v, b), a);
      assert ab.actionSeq == ba.actionSeq;
      assert ab.answer == ba.answer;
    }
  }

  /** Patches and hint reveals may arrive in any order: answer, mark, visits, time, hints
      and sequence number of the row come out the same. */
  lemma PatchesAndHintsConverge(prev: Option<Row>, code: string, xs: seq<Delivery>, ys: seq<Delivery>)
    requires multiset(xs) == multiset(ys) && DistinctSeqs(ys)
    requires forall d :: d in ys ==> WellFormed(d) && !d.Late?
    requires ViewOf(prev).visits >= 0
    ensures ViewOf(Deliver(prev, code, xs)) == ViewOf(Deliver(prev, code, ys))
  {
    SameMembers(xs, ys);
    DeliverSimulatesViews(prev, code, xs);
    DeliverSimulatesViews(prev, code, ys);
    forall i, j | 0 <= i < j < |ys|
      ensures Commute(ViewStep, ys[i], ys[j])
    {
      assert ys[i] in ys && ys[j] in ys;
      ViewStepsCommute(ys[i], ys[j]);
    }
    FoldPermutation(ViewStep, ViewOf(prev), xs, ys);
  }

  lemma ContentStepsCommute(a: Delivery, b: Delivery)
    requires a.Hint? || b.Hint? || a.actionSeq != b.actionSeq
    ensures Commute(ContentStep, a, b)
  {
    forall c: Content
      ensures ContentStep(ContentStep(c, a), b) == ContentStep(ContentStep(c, b), a)
    {
      var ab, ba := ContentStep(ContentStep(c, a), b), ContentStep(ContentStep(c, b), a);
      assert ab.actionSeq == ba.actionSeq && ab.answer == ba.answer;
    }
  }

  /** With late snapshots in the mix, answer, time, hints and sequence number still converge. */
  lemma AllDeliveriesConvergeOnContent(prev: Option<Row>, code: string, xs: seq<Delivery>, ys: seq<Delivery>)
    requires multiset(xs) == multiset(ys) && DistinctSeqs(ys)
    requires forall d :: d in ys ==> WellFormed(d)
    ensures ContentOf(Deliver(prev, code, xs)) == ContentOf(Deliver(prev, code, ys))
  {
    SameMembers(xs, ys);
    DeliverSimulatesContent(prev, code, xs);
    DeliverSimulatesContent(prev, code, ys);
    forall i, j | 0 <= i < j < |ys|
      ensures Commute(ContentStep, ys[i], ys[j])
    {
      ContentStepsCommute(ys[i], ys[j]);
    }
    FoldPermutation(ContentStep, ContentOf(prev), xs, ys);
  }

  /** What a processed patch leaves behind for good. */
  lemma {:induction false} DeliverIsMonotone(prev: Option<Row>, code: string, ds: seq<Delivery>)
    requires prev.Some?
    ensures Deliver(prev, code, ds).value.actionSeq >= prev.value.actionSeq
    ensures Deliver(prev, code, ds).value.visits >= prev.value.visits
    decreases |ds|
  {
    if ds != [] {
      DeliverIsMonotone(Some(Upsert(prev, code, ds[0])), code, ds[1..]);
    }
  }

  lemma {:induction false} DeliverConcat(prev: Option<Row>, code: string, xs: seq<Delivery>, ys: seq<Delivery>)
    ensures Deliver(prev, code, xs + ys) == Deliver(Deliver(prev, code, xs), code, ys)
    decreases |xs|
  {
    if xs == [] {
      assert xs + ys == ys;
    } else {
      assert (xs + ys)[1..] == xs[1..] + ys;
      DeliverConcat(Some(Upsert(prev, code, xs[0])), code, xs[1..], ys);
    }
  }

  /** The levels a list of deliveries reveals, in order. */
  function LevelsOf(ds: seq<Delivery>): seq<int>
    decreases |ds|
  {
    if ds == [] then [] else (if ds[0].Hint? then [ds[0].level] else []) + LevelsOf(ds[1..])
  }

  ghost predicate Records(prev: Option<Row>, code: string, ds: seq<Delivery>, row: Row)
    requires ds != []
  {
    && row.lastAction == Some(ds[|ds| - 1].at)
    && row.code == (if prev.Some? then prev.value.code else code)
    && row.levels == (if prev.Some? then prev.value.levels else []) + LevelsOf(ds)
  }

  lemma WriteRecords(prev: Option<Row>, code: string, d: Delivery)
    ensures Records(prev, code, [d], Upsert(prev, code, d))
  {
    assert LevelsOf([d]) == (if d.Hint? then [d.level] else []) + LevelsOf([d][1..]);
  }

  lemma RecordsFurther(prev: Option<Row>, next: Row, code: string, ds: seq<Delivery>, row: Row)
    requires |ds| > 1 && Records(prev, code, [ds[0]], next) && Records(Some(next), code, ds[1..], row)
    ensures Records(prev, code, ds, row)
  {
    assert LevelsOf([ds[0]]) == (if ds[0].Hint? then [ds[0].level] else []) + LevelsOf([ds[0]][1..]);
    assert LevelsOf(ds) == LevelsOf([ds[0]]) + LevelsOf(ds[1..]);
  }

  /** What the row records beside the view: the instant of the latest write, whatever it was, which is what
      visits are ranked by; the question it was created for; and every revealed level, in order. */
  lemma {:induction false} RowRecordsWrites(prev: Option<Row>, code: string, ds: seq<Delivery>)
    requires ds != []
    ensures Records(prev, code, ds, Deliver(prev, code, ds).value)
    decreases |ds|
  {
    var next := Upsert(prev, code, ds[0]);
    WriteRecords(prev, code, ds[0]);
    assert Deliver(prev, code, ds) == Deliver(Some(next), code, ds[1..]);
    if |ds| > 1 {
      RowRecordsWrites(Some(next), code, ds[1..]);
      RecordsFurther(prev, next, code, ds, Deliver(prev, code, ds).value);
    } else {
      assert ds[1..] == [] && ds == [ds[0]];
    }
  }

  /** Redelivering a patch, at any later time and after any other traffic, adds its
      clamped time again, stamps the row, and changes nothing else. */
  lemma RedeliveryOnlyAddsTime(
      prev: Option<Row>, code: string, ds: seq<Delivery>, i: nat,
      answer: Option<Payload>, marked: bool, delta: int, visits: int, actionSeq: int, first: int, again: int)
    requires i < |ds| && ds[i] == Patch(answer, marked, delta, visits, actionSeq, first)
    ensures var row := Deliver(prev, code, ds).value;
            Upsert(Some(row), code, Patch(answer, marked, delta, visits, actionSeq, again))
            == row.(time := row.time + Clamp(delta), lastAction := Some(again))
  {
    var before := Deliver(prev, code, ds[..i]);
    var hit := Upsert(before, code, ds[i]);
    assert ds == ds[..i] + ds[i..];
    DeliverConcat(prev, code, ds[..i], ds[i..]);
    assert Deliver(before, code, ds[i..]) == Deliver(Some(hit), code, ds[i + 1..]);
    DeliverIsMonotone(Some(hit), code, ds[i + 1..]);
  }
}
