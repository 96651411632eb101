/** The seconds the runtime puts into snapshots, and what they add up to on the server. */
module TimeAccounting {
  import opened Basics
  import opened Snapshots
  import opened Actions
  import opened QueueState
  import opened Replication
  import opened Convergence
  import opened Limits
  import opened Dormancy
  import opened VisitAccounting

  /** The wall clock never runs backwards. */
  ghost predicate Timely(c: Clock, xs: seq<Input>)
    decreases |xs|
  {
    xs == [] ||
    (&& (match xs[0]
         case Save(_, _, now) => c.visitStart <= now
         case GoTo(_, now) => c.visitStart <= now
         case Finish(_) => true
         case Net(_) => true)
     && Timely(Ticked(c, xs[0]), xs[1..]))
  }

  /** Seconds a list of actions is worth to the server. */
  function Worth(xs: seq<Action>): nat
    decreases |xs|
  {
    if xs == [] then 0
    else Worth(xs[..|xs| - 1]) + ActionWorth(xs[|xs| - 1])
  }

  function ActionWorth(a: Action): nat {
    if a.Snapshot? then Clamp(a.body.delta) else 0
  }

  function EventWorth(es: seq<Event>): nat
    decreases |es|
  {
    if es == [] then 0 else (if es[0].EnqueueSnap? then Clamp(es[0].body.delta) else 0) + EventWorth(es[1..])
  }

  lemma EventWorthOfFirst(c: Clock, x: Input, rest: seq<Event>)
    ensures EventWorth(AsEvents(c, x) + rest)
            == EventWorth(rest) + if x.Save? then Clamp(TimeDelta(c.visitStart, x.now))
                                  else if x.Net? then EventWorth([x.event]) else 0
  {
    var first := AsEvents(c, x);
    if first == [] {
      assert first + rest == rest;
    } else {
      assert (first + rest)[1..] == rest && first[1..] == [];
    }
  }

  /** The seconds put into snapshots never exceed the time since the clock was read first: the
      clamp only forgets time, and every read restarts the visit. */
  lemma {:induction false} DeltasFitTheWallClock(c: Clock, xs: seq<Input>)
    requires Timely(c, xs) && OnlySavesQueue(xs)
    ensures 1000 * EventWorth(ToEvents(c, xs)) <= ClockAfter(c, xs).visitStart - c.visitStart
    decreases |xs|
  {
    if xs != [] {
      assert xs[0] in xs;
      DeltasFitTheWallClock(Ticked(c, xs[0]), xs[1..]);
      EventWorthOfFirst(c, xs[0], ToEvents(Ticked(c, xs[0]), xs[1..]));
      if xs[0].Save? {
        DeltaFits(c.visitStart, xs[0].now);
      }
    }
  }

  /** The moment of the latest save or jump of a run, or the moment it starts from. */
  function LastMoment(start: int, xs: seq<Input>): int
    decreases |xs|
  {
    if xs == [] then start
    else
      var last := xs[|xs| - 1];
      if last.Save? || last.GoTo? then last.now else LastMoment(start, xs[..|xs| - 1])
  }

  lemma {:induction false} ClockAfterLast(c: Clock, xs: seq<Input>, x: Input)
    ensures ClockAfter(c, xs + [x]) == Ticked(ClockAfter(c, xs), x)
    decreases |xs|
  {
    if xs == [] {
      assert [] + [x] == [x] && [x][1..] == [];
    } else {
      assert (xs + [x])[1..] == xs[1..] + [x];
      ClockAfterLast(Ticked(c, xs[0]), xs[1..], x);
    }
  }

  /** Time is booked on the slot it was spent on: whatever was done before, what a save queues is the whole
      seconds since the latest save or jump, of whichever slot, none if the clock ran backwards and at
      most a minute. Time spent on a slot that was left without a save is booked nowhere. */
  lemma {:induction false} DeltaCountsFromLastMoment(
      c: Clock, xs: seq<Input>, slot: int, edit: Edit, now: int)
    ensures ClockAfter(c, xs).visitStart == LastMoment(c.visitStart, xs)
    ensures var delta := Saved(ClockAfter(c, xs), slot, edit, now).1.delta;
            var spent := now - LastMoment(c.visitStart, xs);
            delta == if spent < 0 then 0 else if spent >= 60000 then 60 else spent / 1000
    decreases |xs|
  {
    if xs != [] {
      var init, last := xs[..|xs| - 1], xs[|xs| - 1];
      assert xs == init + [last];
      ClockAfterLast(c, init, last);
      DeltaCountsFromLastMoment(c, init, slot, edit, now);
    }
  }

  /** A delta is the whole seconds of the visit, up to a minute: less than a second is ever dropped
      from a visit of up to 60 seconds, and a longer one is worth exactly 60. */
  lemma DeltaFits(visitStart: int, now: int)
    requires visitStart <= now
    ensures var delta := TimeDelta(visitStart, now);
            && 0 <= delta <= 60 && 1000 * delta <= now - visitStart
            && (delta < 60 ==> now - visitStart < 1000 * (delta + 1))
            && Clamp(delta) == delta
  {
  }

  // ---- the sums on the server ----

  function RowTime(r: Option<Row>): int {
    if r.Some? then r.value.time else 0
  }

  function TotalTime(rows: map<int, Row>, slots: nat): int {
    if slots == 0 then 0 else TotalTime(rows, slots - 1) + RowTime(Lookup(rows, slots - 1))
  }

  lemma {:induction false} TotalTimeUpdate(rows: map<int, Row>, slot: int, row: Row, slots: nat)
    ensures TotalTime(rows[slot := row], slots)
            == TotalTime(rows, slots) + if 0 <= slot < slots then row.time - RowTime(Lookup(rows, slot)) else 0
    decreases slots
  {
    if slots > 0 {
      TotalTimeUpdate(rows, slot, row, slots - 1);
    }
  }

  /** The actions whose arrival a run processes, repetitions included. */
  ghost function Arrivals(w: World, es: seq<Event>): seq<Action>
    requires Valid(w.client)
    decreases |es|
  {
    if es == [] then []
    else
      NextKeepsValid(w, es[0]);
      (if es[0].Arrive? && Enabled(w, es[0]) then [es[0].action] else []) + Arrivals(Next(w, es[0]), es[1..])
  }

  lemma {:induction false} WorthConcat(xs: seq<Action>, ys: seq<Action>)
    ensures Worth(xs + ys) == Worth(xs) + Worth(ys)
    decreases |ys|
  {
    if ys == [] {
      assert xs + ys == xs;
    } else {
      assert (xs + ys)[..|xs + ys| - 1] == xs + ys[..|ys| - 1];
      WorthConcat(xs, ys[..|ys| - 1]);
    }
  }

  lemma WorthOfOne(a: Action)
    ensures Worth([a]) == ActionWorth(a)
  {
    assert [a][..0] == [];
  }

  lemma StepAddsArrival(w: World, e: Event)
    requires Valid(w.client)
    ensures Next(w, e).codes == w.codes
    ensures TotalTime(Next(w, e).rows, |w.codes|)
            == TotalTime(w.rows, |w.codes|) + if e.Arrive? && Enabled(w, e) then ActionWorth(e.action) else 0
  {
    if e.Arrive? && Enabled(w, e) && e.action.Snapshot? {
      var a := e.action;
      TotalTimeUpdate(w.rows, a.slot, Upsert(Lookup(w.rows, a.slot), w.codes[a.slot], ToPatch(a, e.at)), |w.codes|);
    } else if e.HintRevealed? && Enabled(w, e) {
      TotalTimeUpdate(w.rows, e.slot, Upsert(Lookup(w.rows, e.slot), w.codes[e.slot], Hint(e.level, e.at)), |w.codes|);
    }
  }

  /** Conservation on the server: over any run the time of all rows together grows by exactly the
      clamped deltas of the arrivals, duplicates included. */
  lemma {:induction false} TotalGrowsByArrivals(w: World, es: seq<Event>)
    requires Valid(w.client)
    ensures TotalTime(Run(w, es).rows, |w.codes|) == TotalTime(w.rows, |w.codes|) + Worth(Arrivals(w, es))
    decreases |es|
  {
    if es != [] {
      NextKeepsValid(w, es[0]);
      StepAddsArrival(w, es[0]);
      var first := if es[0].Arrive? && Enabled(w, es[0]) then [es[0].action] else [];
      var rest := Arrivals(Next(w, es[0]), es[1..]);
      TotalGrowsByArrivals(Next(w, es[0]), es[1..]);
      WorthConcat(first, rest);
      if first != [] {
        WorthOfOne(es[0].action);
      }
    }
  }

  ghost predicate NoRepeats(xs: seq<Action>) {
    forall i, j :: 0 <= i < j < |xs| ==> xs[i] != xs[j]
  }

  lemma {:induction false} WorthRemoveAt(xs: seq<Action>, i: nat)
    requires i < |xs|
    ensures Worth(xs) == Worth(RemoveAt(xs, i)) + ActionWorth(xs[i])
    decreases |xs|
  {
    var n := |xs| - 1;
    if i == n {
      assert RemoveAt(xs, i) == xs[..n];
    } else {
      var less := RemoveAt(xs[..n], i);
      WorthRemoveAt(xs[..n], i);
      assert RemoveAt(xs, i) == less + [xs[n]] && (less + [xs[n]])[..|less|] == less;
    }
  }

  lemma OthersStay(ys: seq<Action>, i: nat, a: Action)
    requires i < |ys| && a in ys && a != ys[i]
    ensures a in RemoveAt(ys, i)
  {
    var j :| 0 <= j < |ys| && ys[j] == a;
    assert RemoveAt(ys, i)[if j < i then j else j - 1] == a;
  }

  lemma RestStays(xs: seq<Action>, ys: seq<Action>, i: nat)
    requires xs != [] && NoRepeats(xs) && (forall a :: a in xs ==> a in ys) && i < |ys| && ys[i] == xs[0]
    ensures NoRepeats(xs[1..]) && forall a :: a in xs[1..] ==> a in RemoveAt(ys, i)
  {
    forall a | a in xs[1..]
      ensures a in RemoveAt(ys, i)
    {
      OthersStay(ys, i, a);
    }
  }

  lemma {:induction false} WorthOfSome(xs: seq<Action>, ys: seq<Action>)
    requires NoRepeats(xs) && forall a :: a in xs ==> a in ys
    ensures Worth(xs) <= Worth(ys)
    decreases |xs|
  {
    if xs != [] {
      assert xs[0] in ys;
      var i :| 0 <= i < |ys| && ys[i] == xs[0];
      WorthRemoveAt(xs, 0);
      WorthRemoveAt(ys, i);
      assert RemoveAt(xs, 0) == xs[1..];
      RestStays(xs, ys, i);
      WorthOfSome(xs[1..], RemoveAt(ys, i));
    }
  }

  // ---- what a run records ----

  lemma NextAddsWorth(w: World, e: Event)
    requires Recorded(w)
    ensures Valid(w.client) && Recorded(Next(w, e))
    ensures Worth(Next(w, e).history) == Worth(w.history) + if e.EnqueueSnap? then Clamp(e.body.delta) else 0
  {
    NextKeepsRecorded(w, e);
    if IsQueueing(e) {
      WorthConcat(w.history, [Queued(w, e)]);
      WorthOfOne(Queued(w, e));
    } else {
      assert w.history + [] == w.history;
    }
  }

  lemma {:induction false} RunAddsWorth(w: World, es: seq<Event>)
    requires Recorded(w)
    ensures Valid(w.client) && Worth(Run(w, es).history) == Worth(w.history) + EventWorth(es)
    decreases |es|
  {
    if es != [] {
      NextAddsWorth(w, es[0]);
      RunAddsWorth(Next(w, es[0]), es[1..]);
    }
  }

  /** Whatever arrives was queued by the run or before it. */
  lemma {:induction false} ArrivalsAreRecorded(w: World, es: seq<Event>)
    requires Recorded(w)
    ensures Valid(w.client) && Recorded(Run(w, es)) && w.history <= Run(w, es).history
    ensures forall a :: a in Arrivals(w, es) ==> a in Run(w, es).history
    decreases |es|
  {
    if es != [] {
      NextKeepsRecorded(w, es[0]);
      ArrivalsAreRecorded(Next(w, es[0]), es[1..]);
    }
  }

  /** The time bound. Start from a hydrated queue and let saves, jumps, dispatches, failures and
      retries interleave in any way: as long as the wall clock does not run backwards and no action
      reaches the server twice, the seconds the server adds over all slots never exceed the seconds
      since mount, plus those of actions stored before it. */
  lemma ServerTimeFitsTheWallClock(w: World, c: Clock, xs: seq<Input>, now: int)
    requires Hydration(w) && Timely(c, xs) && OnlySavesQueue(xs) && ClockAfter(c, xs).visitStart <= now
    requires Valid(w.client) && NoRepeats(Arrivals(w, ToEvents(c, xs)))
    ensures 1000 * (TotalTime(Run(w, ToEvents(c, xs)).rows, |w.codes|) - TotalTime(w.rows, |w.codes|))
            <= (now - c.visitStart) + 1000 * Worth(w.client.pending)
  {
    var es := ToEvents(c, xs);
    HydrationIsSound(w);
    TotalGrowsByArrivals(w, es);
    RunAddsWorth(w, es);
    ArrivalsAreRecorded(w, es);
    WorthOfSome(Arrivals(w, es), Run(w, es).history);
    DeltasFitTheWallClock(c, xs);
  }

  /** The "at most once" is needed: a lost acknowledgement makes one minute count as two. */
  lemma LostAckCountsTwice(answer: Option<Payload>, at: int, again: int)
    ensures var c := Clock(0, {}, map[], []);
            var w, body := EmptyStart(map[], ["Q"]), Saved(c, 0, Answer(answer), 60000).1;
            var a := Snapshot(0, 1, body);
            Valid(w.client)
            && (var mid := Run(w, [EnqueueSnap(0, body), AppendSaved, TimerFires]);
                Valid(mid.client)
                && TotalTime(Run(mid, [Arrive(a, at), NetworkError, Arrive(a, again)]).rows, 1) == 120)
  {
    var w, body := EmptyStart(map[], ["Q"]), Saved(Clock(0, {}, map[], []), 0, Answer(answer), 60000).1;
    FirstDispatch(w, 0, body);
    ArriveTwice(Run(w, [EnqueueSnap(0, body), AppendSaved, TimerFires]), body, at, again);
  }

  lemma ArriveTwice(w: World, body: Body, at: int, again: int)
    requires Valid(w.client) && w.codes == ["Q"] && w.rows == map[] && body.delta == 60
    requires w.client.phase.Dispatching? && Snapshot(0, 1, body) in w.sent
    ensures TotalTime(Run(w, [Arrive(Snapshot(0, 1, body), at), NetworkError,
                  Arrive(Snapshot(0, 1, body), again)]).rows, 1) == 120
  {
    var a := Snapshot(0, 1, body);
    var e1, e2, e3 := Arrive(a, at), NetworkError, Arrive(a, again);
    RunThree(w, e1, e2, e3);
    NextKeepsValid(w, e1);
    StepAddsArrival(w, e1);
    StepAddsArrival(Next(w, e1), e2);
    StepAddsArrival(Next(Next(w, e1), e2), e3);
    assert TotalTime(w.rows, 1) == 0;
  }
}
