/** The start of the queue, cut where hydration awaits the store. What is queued before the load has
    returned goes into a queue that is then replaced by what the load has read. */
module Boot {
  import opened Basics
  import opened Actions
  import opened QueueState
  import opened Replication
  import opened Convergence
  import opened Dormancy

  /** A queue as it is kept in the store. */
  datatype Stored = Stored(pending: seq<Action>, attempts: seq<nat>)

  /** The queue's world before hydration has finished, the store, and what the load has read from it. */
  datatype Loading = Loading(w: World, store: Stored, read: Stored, hasRead: bool)

  /** Anything the queue and the network do; a save of the queue reaching the store; the load reading it. */
  datatype Early = Step(e: Event) | SaveReaches | LoadReads

  ghost function EarlyNext(l: Loading, x: Early): Loading
    requires Valid(l.w.client)
  {
    match x
    case Step(e) => l.(w := Next(l.w, e))
    case SaveReaches => l.(store := Stored(l.w.client.pending, l.w.client.attempts))
    case LoadReads => if l.hasRead then l else l.(read := l.store, hasRead := true)
  }

  ghost function EarlyRun(l: Loading, xs: seq<Early>): Loading
    requires Valid(l.w.client)
    decreases |xs|
  {
    if xs == [] then l
    else
      EarlyKeepsValid(l, xs[0]);
      EarlyRun(EarlyNext(l, xs[0]), xs[1..])
  }

  lemma EarlyKeepsValid(l: Loading, x: Early)
    requires Valid(l.w.client)
    ensures Valid(EarlyNext(l, x).w.client)
  {
    if x.Step? {
      NextKeepsValid(l.w, x.e);
    }
  }

  /** A page just opened: an empty queue, and a store left by an earlier one. */
  ghost predicate Opening(l: Loading) {
    && GoodStore(l.store.pending, l.store.attempts) && !l.hasRead
    && l.w.client == Client([], [], 0, false, None, Idle, 0, [])
    && l.w.history == [] && l.w.sent == {} && l.w.heard == multiset{} && !l.w.landed
  }

  /** Whether a save reaches the store before the load reads it. */
  predicate SavedBeforeRead(xs: seq<Early>)
    decreases |xs|
  {
    xs != [] && !xs[0].LoadReads? && (xs[0].SaveReaches? || SavedBeforeRead(xs[1..]))
  }

  /** The queue at the last save to reach the store before the load, if there is one. */
  ghost function LastSaved(l: Loading, xs: seq<Early>): seq<Action>
    requires Valid(l.w.client)
    decreases |xs|
  {
    if xs == [] || xs[0].LoadReads? then l.store.pending
    else
      EarlyKeepsValid(l, xs[0]);
      LastSaved(EarlyNext(l, xs[0]), xs[1..])
  }

  lemma {:induction false} ReadStays(l: Loading, xs: seq<Early>)
    requires Valid(l.w.client) && l.hasRead
    ensures EarlyRun(l, xs).read == l.read && EarlyRun(l, xs).hasRead
    decreases |xs|
  {
    if xs != [] {
      EarlyKeepsValid(l, xs[0]);
      ReadStays(EarlyNext(l, xs[0]), xs[1..]);
    }
  }

  lemma {:induction false} ReadsLastSaved(l: Loading, xs: seq<Early>)
    requires Valid(l.w.client) && !l.hasRead && EarlyRun(l, xs).hasRead
    ensures EarlyRun(l, xs).read.pending == LastSaved(l, xs)
    decreases |xs|
  {
    EarlyKeepsValid(l, xs[0]);
    if xs[0].LoadReads? {
      ReadStays(EarlyNext(l, xs[0]), xs[1..]);
    } else {
      ReadsLastSaved(EarlyNext(l, xs[0]), xs[1..]);
    }
  }

  /** Without a save in front of the read the store is what it was; with one it holds this page's actions. */
  lemma {:induction false} SavedActionsAreOwn(l: Loading, xs: seq<Early>)
    requires Recorded(l.w)
    ensures !SavedBeforeRead(xs) ==> LastSaved(l, xs) == l.store.pending
    ensures SavedBeforeRead(xs) || (forall a :: a in l.store.pending ==> a in l.w.history) ==>
              forall a :: a in LastSaved(l, xs) ==> a in EarlyRun(l, xs).w.history
    decreases |xs|
  {
    if xs != [] {
      EarlyKeepsValid(l, xs[0]);
      var l' := EarlyNext(l, xs[0]);
      if xs[0].Step? {
        NextKeepsRecorded(l.w, xs[0].e);
      }
      if xs[0].LoadReads? {
        HistoryOnlyGrows(l', xs[1..]);
      } else {
        SavedActionsAreOwn(l', xs[1..]);
      }
    }
  }

  lemma {:induction false} HistoryOnlyGrows(l: Loading, xs: seq<Early>)
    requires Recorded(l.w)
    ensures Valid(l.w.client) && Recorded(EarlyRun(l, xs).w) && l.w.history <= EarlyRun(l, xs).w.history
    decreases |xs|
  {
    if xs != [] {
      if xs[0].Step? {
        NextKeepsRecorded(l.w, xs[0].e);
      }
      HistoryOnlyGrows(EarlyNext(l, xs[0]), xs[1..]);
    }
  }

  /** What a page queues before its hydration has finished is still queued afterwards if and only if it was
      pending at a save that reached the store before the load read it, the last such save. */
  lemma EarlyActionSurvivesIff(l: Loading, xs: seq<Early>, a: Action)
    requires Opening(l)
    ensures Valid(l.w.client)
    ensures var end := EarlyRun(l, xs);
            end.hasRead && a in end.w.history && a !in l.store.pending ==>
              (a in end.read.pending <==> SavedBeforeRead(xs) && a in LastSaved(l, xs))
  {
    if EarlyRun(l, xs).hasRead {
      ReadsLastSaved(l, xs);
      SavedActionsAreOwn(l, xs);
    }
  }

  /** ... and what was stored by an earlier page is queued again if and only if no save of this page has
      reached the store before the load read it: one side is always lost. */
  lemma StoredActionSurvivesIff(l: Loading, xs: seq<Early>, b: Action)
    requires Opening(l)
    ensures Valid(l.w.client)
    ensures var end := EarlyRun(l, xs);
            end.hasRead && b in l.store.pending && b !in end.w.history ==>
              (b in end.read.pending <==> !SavedBeforeRead(xs))
  {
    if EarlyRun(l, xs).hasRead {
      ReadsLastSaved(l, xs);
      SavedActionsAreOwn(l, xs);
    }
  }

  /** The shortest case of each: a violation reported during the load is forgotten, or, if its save is
      faster than the load, replaces the stored queue. */
  lemma EarlyViolationRaces(l: Loading, kind: string, active: bool)
    requires Opening(l)
    ensures Valid(l.w.client)
    ensures var v, report := Violation(1, kind, active), Step(EnqueueViol(kind, active));
            var slow, fast := EarlyRun(l, [report, LoadReads]), EarlyRun(l, [report, SaveReaches, LoadReads]);
            && v in slow.w.history && slow.read.pending == l.store.pending
            && v in fast.w.history && fast.read.pending == [v]
  {
    var v, e := Violation(1, kind, active), EnqueueViol(kind, active);
    ReportQueues(l, kind, active);
    var l1 := EarlyNext(l, Step(e));
    assert [Step(e), LoadReads][1..] == [LoadReads] && [LoadReads][1..] == [];
    assert EarlyRun(l1, [LoadReads]) == EarlyNext(l1, LoadReads);
    var saved := EarlyNext(l1, SaveReaches);
    assert [Step(e), SaveReaches, LoadReads][1..] == [SaveReaches, LoadReads];
    assert [SaveReaches, LoadReads][1..] == [LoadReads];
    assert EarlyRun(saved, [LoadReads]) == EarlyNext(saved, LoadReads);
    assert EarlyRun(l1, [SaveReaches, LoadReads]) == EarlyRun(saved, [LoadReads]);
  }

  lemma ReportQueues(l: Loading, kind: string, active: bool)
    requires Opening(l)
    ensures Valid(l.w.client)
    ensures var v, l1 := Violation(1, kind, active), EarlyNext(l, Step(EnqueueViol(kind, active)));
            && l1 == l.(w := l1.w) && Valid(l1.w.client)
            && l1.w.client.pending == [v] && l1.w.history == [v]
  {
    EarlyKeepsValid(l, Step(EnqueueViol(kind, active)));
    AppendToEmpty(l.w.client.(counter := 1), Violation(1, kind, active));
  }
}
