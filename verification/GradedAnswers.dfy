/** From the keyboard to the grade, and from a violation to the submit: what a run of the whole system
    means for the attempts table. */
module GradedAnswers {
  import opened Basics
  import opened Base64Url
  import opened Actions
  import Replication
  import opened Convergence
  import opened Limits
  import opened LostAcks
  import opened VisitAccounting
  import opened Entries
  import opened VisitRanking
  import opened Grading
  import opened SessionTables
  import opened AttemptNumbering
  import opened SessionProtocol
  import opened SessionSafety
  import opened SessionRuns
  import opened JointSystem

  // ---- violations ----

  /** The step writes a violation of the page, while its session is open. */
  ghost predicate PageStrikes(s: System, p: Page, j: Joint) {
    && j.Serve? && j.id in s.mine && s.mine[j.id].Arrive? && s.mine[j.id].action.Violation?
    && IsOpen(s.st, p.sid)
  }

  ghost function PageStrikeCount(s: System, bank: Bank, p: Page, js: seq<Joint>): nat
    requires Fits(s, p) && Proper(s, bank, p, js)
    decreases |js|
  {
    if js == [] then 0
    else
      StepKeepsFit(s, bank, p, js[0]);
      (if PageStrikes(s, p, js[0]) then 1 else 0) + PageStrikeCount(Step(s, bank, p, js[0]), bank, p, js[1..])
  }

  /** Violations of the session that others commit, such as a second tab. */
  ghost function OtherStrikeCount(s: System, bank: Bank, p: Page, js: seq<Joint>): nat
    requires Fits(s, p) && Proper(s, bank, p, js)
    decreases |js|
  {
    if js == [] then 0
    else
      StepKeepsFit(s, bank, p, js[0]);
      (if js[0].Other? && Strikes(s.st, js[0].f, p.sid) then 1 else 0)
      + OtherStrikeCount(Step(s, bank, p, js[0]), bank, p, js[1..])
  }

  function ViolationsOf(st: St, sid: int): int
    requires sid in st.tables.sessions
  {
    st.tables.sessions[sid].violations
  }

  lemma StepCounts(s: System, bank: Bank, p: Page, j: Joint)
    requires Fits(s, p) && IsProper(s, bank, p, j)
    ensures var s' := Step(s, bank, p, j);
            && p.sid in s'.st.tables.sessions
            && ViolationsOf(s'.st, p.sid) == ViolationsOf(s.st, p.sid)
               + (if PageStrikes(s, p, j) then 1 else 0) + if j.Other? && Strikes(s.st, j.f, p.sid) then 1 else 0
  {
    match j
    case Do(_) =>
    case Ask(id, e) =>
      if IsRemote(e) && Replication.Enabled(s.w, e) && id !in s.st.reqs {
        AskedIsPending(s, bank, p, id, e);
      }
    case Serve(id) =>
      if id in s.mine {
        assert IsAsked(s.w.codes, p, s.mine[id], s.st.reqs[id]);
        StepCountsStrikes(s.st, bank, Commit(p, id, s.mine[id]), p.sid);
      }
    case Other(f) => StepCountsStrikes(s.st, bank, f, p.sid);
  }

  /** What the session counts is what arrived while it was open: over any run its counter grows by the
      copies of the page's violations written before it closed, the closing one included, and by what
      others reported. */
  lemma {:induction false} CounterGrowsByArrivals(s: System, bank: Bank, p: Page, js: seq<Joint>)
    requires Fits(s, p) && Proper(s, bank, p, js)
    ensures ViolationsOf(RunSystem(s, bank, p, js).st, p.sid)
            == ViolationsOf(s.st, p.sid) + PageStrikeCount(s, bank, p, js) + OtherStrikeCount(s, bank, p, js)
    decreases |js|
  {
    if js != [] {
      StepKeepsFit(s, bank, p, js[0]);
      StepCounts(s, bank, p, js[0]);
      CounterGrowsByArrivals(Step(s, bank, p, js[0]), bank, p, js[1..]);
    }
  }

  lemma StepHears(s: System, bank: Bank, p: Page, j: Joint)
    requires Fits(s, p) && IsProper(s, bank, p, j) && IsOpen(s.st, p.sid)
    ensures |Step(s, bank, p, j).w.heard| == |s.w.heard| + if PageStrikes(s, p, j) then 1 else 0
  {
    if j.Do? {
      DoKeepsFit(s, bank, p, j.x);
    } else if j.Serve? && j.id in s.mine {
      ServedRowsAgree(s, bank, p, j.id);
    }
  }

  lemma OpenWasOpen(s: System, bank: Bank, p: Page, j: Joint)
    requires Fits(s, p) && IsProper(s, bank, p, j) && IsOpen(Step(s, bank, p, j).st, p.sid)
    ensures IsOpen(s.st, p.sid)
  {
    if j.Ask? {
      if IsRemote(j.e) && Replication.Enabled(s.w, j.e) && j.id !in s.st.reqs {
        AskedIsPending(s, bank, p, j.id, j.e);
      }
    } else if j.Serve? && j.id in s.mine {
      SessionStays(s.st, bank, Commit(p, j.id, s.mine[j.id]), p.sid, p.student);
    } else if j.Other? {
      SessionStays(s.st, bank, j.f, p.sid, p.student);
    }
  }

  lemma {:induction false} OpenAllAlong(s: System, bank: Bank, p: Page, js: seq<Joint>)
    requires Fits(s, p) && Proper(s, bank, p, js) && IsOpen(RunSystem(s, bank, p, js).st, p.sid)
    ensures IsOpen(s.st, p.sid)
    ensures PageStrikeCount(s, bank, p, js) == |RunSystem(s, bank, p, js).w.heard| - |s.w.heard|
    decreases |js|
  {
    if js != [] {
      StepKeepsFit(s, bank, p, js[0]);
      OpenAllAlong(Step(s, bank, p, js[0]), bank, p, js[1..]);
      OpenWasOpen(s, bank, p, js[0]);
      StepHears(s, bank, p, js[0]);
    }
  }

  // ---- one violation ----

  /** A copy of the action being dispatched is checked and written. */
  function Delivered(a: Action, id: int): seq<Joint> {
    [Ask(id, Replication.Arrive(a, 0)), Serve(id)]
  }

  /** The failure is booked, the wait is over, the action is on the wire again. */
  function Retry(): seq<Joint> {
    [Do(Net(Replication.NetworkError)), Do(Net(Replication.FailureIsSaved)), Do(Net(Replication.TimerFires))]
  }

  /** A delivery whose acknowledgement is lost. */
  function RetriedRound(a: Action, id: int): seq<Joint> {
    Delivered(a, id) + Retry()
  }

  /** n copies of one report reach the service, the acknowledgements of all but the last are lost. */
  function Recounted(a: Action, id: int, n: nat): seq<Joint>
    requires n > 0
  {
    if n == 1 then Delivered(a, id) else RetriedRound(a, id) + Recounted(a, id, n - 1)
  }

  ghost predicate Reporting(s: System, p: Page, a: Action, id: int) {
    Fits(s, p) && IsDispatching(s.w, a) && a.Violation? && id !in s.st.reqs && IsOpen(s.st, p.sid)
  }

  lemma RunFirst(s: System, bank: Bank, p: Page, j: Joint, rest: seq<Joint>)
    requires Fits(s, p) && IsProper(s, bank, p, j) && Fits(Step(s, bank, p, j), p)
    ensures Proper(s, bank, p, [j] + rest) <==> Proper(Step(s, bank, p, j), bank, p, rest)
    ensures Proper(s, bank, p, [j] + rest) ==>
              RunSystem(s, bank, p, [j] + rest) == RunSystem(Step(s, bank, p, j), bank, p, rest)
  {
    assert ([j] + rest)[1..] == rest;
  }

  /** The two steps of one copy: counted once, whatever its number, and closing on the last. */
  lemma DeliveryStrikes(s: System, bank: Bank, p: Page, a: Action, id: int) returns (s1: System, s2: System)
    requires Reporting(s, p, a, id)
    ensures s1 == Step(s, bank, p, Ask(id, Replication.Arrive(a, 0))) && Fits(s1, p)
    ensures s2 == Step(s1, bank, p, Serve(id)) && Fits(s2, p)
    ensures id !in s2.st.reqs && s2.c == s.c
    ensures s2.w == s.w.(heard := s.w.heard + multiset{a.actionSeq}, landed := true)
    ensures Struck(s.st.tables, s2.st.tables, p.sid, p.student, s.st.now)
  {
    s1 := Step(s, bank, p, Ask(id, Replication.Arrive(a, 0)));
    AskKeepsFit(s, bank, p, id, Replication.Arrive(a, 0));
    AskedViolation(s, bank, p, a, id);
    s2 := Step(s1, bank, p, Serve(id));
    ServeKeepsFit(s1, bank, p, id);
    ServedRowsAgree(s1, bank, p, id);
    ServedViolation(s1, bank, p, a, id);
  }

  /** Running a delivery in front of a rest. */
  lemma RunDelivery(s: System, s1: System, s2: System, bank: Bank, p: Page, a: Action, id: int, rest: seq<Joint>)
    requires Fits(s, p) && Fits(s1, p) && Fits(s2, p)
    requires s1 == Step(s, bank, p, Ask(id, Replication.Arrive(a, 0))) && s2 == Step(s1, bank, p, Serve(id))
    ensures Proper(s, bank, p, Delivered(a, id) + rest) <==> Proper(s2, bank, p, rest)
    ensures Proper(s, bank, p, Delivered(a, id) + rest) ==>
              RunSystem(s, bank, p, Delivered(a, id) + rest) == RunSystem(s2, bank, p, rest)
  {
    var ask, serve := Ask(id, Replication.Arrive(a, 0)), Serve(id);
    assert Delivered(a, id) + rest == [ask] + ([serve] + rest);
    RunFirst(s, bank, p, ask, [serve] + rest);
    RunFirst(s1, bank, p, serve, rest);
  }

  lemma AskedViolation(s: System, bank: Bank, p: Page, a: Action, id: int)
    requires Reporting(s, p, a, id)
    ensures var s1 := Step(s, bank, p, Ask(id, Replication.Arrive(a, 0)));
            && s1 == s.(st := s1.st, mine := s.mine[id := Replication.Arrive(a, 0)])
            && s1.st == s.st.(reqs := s.st.reqs[id := Violate(p.sid, p.student, ViolationsOf(s.st, p.sid))])
  {
  }

  lemma ServedViolation(s: System, bank: Bank, p: Page, a: Action, id: int)
    requires Fits(s, p) && a.Violation? && IsDispatching(s.w, a) && IsOpen(s.st, p.sid)
    requires id in s.mine && s.mine[id] == Replication.Arrive(a, 0)
    requires id in s.st.reqs && s.st.reqs[id] == Violate(p.sid, p.student, ViolationsOf(s.st, p.sid))
    ensures var s' := Step(s, bank, p, Serve(id));
            && Struck(s.st.tables, s'.st.tables, p.sid, p.student, s.st.now)
            && s'.w == s.w.(heard := s.w.heard + multiset{a.actionSeq}, landed := true) && s'.c == s.c
  {
    RecordStrikes(s.st.tables, bank, p.sid, p.student, s.st.now, p.secret);
  }

  /** An event of the queue in front of a rest. */
  lemma DoNet(s: System, bank: Bank, p: Page, e: Replication.Event, rest: seq<Joint>) returns (s': System)
    requires Fits(s, p) && !IsRemote(e)
    ensures s' == s.(w := Replication.Next(s.w, e)) && Fits(s', p)
    ensures Proper(s, bank, p, [Do(Net(e))] + rest) <==> Proper(s', bank, p, rest)
    ensures Proper(s, bank, p, [Do(Net(e))] + rest) ==>
              RunSystem(s, bank, p, [Do(Net(e))] + rest) == RunSystem(s', bank, p, rest)
  {
    DoKeepsFit(s, bank, p, Net(e));
    RunOfOne(s.w, e);
    s' := Step(s, bank, p, Do(Net(e)));
    RunFirst(s, bank, p, Do(Net(e)), rest);
  }

  lemma RetryContinues(s: System, bank: Bank, p: Page, a: Action, rest: seq<Joint>) returns (s': System)
    requires Fits(s, p) && IsDispatching(s.w, a)
    ensures Fits(s', p) && s' == s.(w := s'.w) && IsDispatching(s'.w, a)
    ensures s'.w.heard == s.w.heard && s'.w.history == s.w.history
    ensures Proper(s, bank, p, Retry() + rest) <==> Proper(s', bank, p, rest)
    ensures Proper(s, bank, p, Retry() + rest) ==>
              RunSystem(s, bank, p, Retry() + rest) == RunSystem(s', bank, p, rest)
  {
    var e1, e2, e3 := Replication.NetworkError, Replication.FailureIsSaved, Replication.TimerFires;
    var j2, j3 := Do(Net(e2)), Do(Net(e3));
    RetryRedispatches(s.w, a);
    var s1 := DoNet(s, bank, p, e1, [j2] + ([j3] + rest));
    var s2 := DoNet(s1, bank, p, e2, [j3] + rest);
    s' := DoNet(s2, bank, p, e3, rest);
    assert Retry() + rest == [Do(Net(e1))] + ([j2] + ([j3] + rest));
  }

  /** A copy that does not close the session, and the retry after its lost acknowledgement. */
  lemma RoundContinues(s: System, bank: Bank, p: Page, a: Action, id: int, rest: seq<Joint>) returns (s': System)
    requires Reporting(s, p, a, id) && ViolationsOf(s.st, p.sid) + 1 < VIOLATION_THRESHOLD
    ensures Reporting(s', p, a, id) && ViolationsOf(s'.st, p.sid) == ViolationsOf(s.st, p.sid) + 1
    ensures s'.w.history == s.w.history && s'.w.heard == s.w.heard + multiset{a.actionSeq}
    ensures Proper(s, bank, p, RetriedRound(a, id) + rest) <==> Proper(s', bank, p, rest)
    ensures Proper(s, bank, p, RetriedRound(a, id) + rest) ==>
              RunSystem(s, bank, p, RetriedRound(a, id) + rest) == RunSystem(s', bank, p, rest)
  {
    var s1, s2 := DeliveryStrikes(s, bank, p, a, id);
    RunDelivery(s, s1, s2, bank, p, a, id, Retry() + rest);
    s' := RetryContinues(s2, bank, p, a, rest);
    assert RetriedRound(a, id) + rest == Delivered(a, id) + (Retry() + rest);
  }

  /** One reported violation can submit the test. While its report is under way, let as many copies of it
      reach the service as the session has violations left, each acknowledgement but the last one lost:
      the session ends up submitted by the threshold, with that one report still queued. */
  lemma {:induction false} OneViolationCanSubmit(s: System, bank: Bank, p: Page, a: Action, id: int, n: nat)
    requires Reporting(s, p, a, id) && n > 0 && ViolationsOf(s.st, p.sid) + n == VIOLATION_THRESHOLD
    ensures Proper(s, bank, p, Recounted(a, id, n))
    ensures var end := RunSystem(s, bank, p, Recounted(a, id, n));
            && IsSubmitted(end.st, p.sid) && end.st.tables.sessions[p.sid].source == Some(ViolationThreshold)
            && ViolationsOf(end.st, p.sid) == VIOLATION_THRESHOLD
            && end.w.history == s.w.history && a in end.w.client.pending
            && end.w.heard[a.actionSeq] == s.w.heard[a.actionSeq] + n
    decreases n
  {
    if n == 1 {
      var s1, s2 := DeliveryStrikes(s, bank, p, a, id);
      RunDelivery(s, s1, s2, bank, p, a, id, []);
      assert Delivered(a, id) + [] == Recounted(a, id, n);
      assert RunSystem(s2, bank, p, []) == s2;
    } else {
      var s' := RoundContinues(s, bank, p, a, id, Recounted(a, id, n - 1));
      OneViolationCanSubmit(s', bank, p, a, id, n - 1);
    }
  }

  /** An open session after one more violation: counted, and closed if that was the last one. */
  ghost predicate Struck(t: Tables, t': Tables, sid: int, student: int, now: int) {
    sid in t.sessions &&
    var s := t.sessions[sid];
    && Owned(t', sid, student) && t'.rows == t.rows
    && t'.sessions[sid].violations == s.violations + 1
    && (s.violations + 1 < VIOLATION_THRESHOLD ==> t'.sessions[sid] == s.(violations := s.violations + 1))
    && (s.violations + 1 == VIOLATION_THRESHOLD ==>
          t'.sessions[sid].submittedAt == Some(now) && t'.sessions[sid].source == Some(ViolationThreshold))
  }

  lemma RecordStrikes(t: Tables, bank: Bank, sid: int, student: int, now: int, newSecret: Bytes)
    requires TablesGood(t, now) && OwnedAndOpen(t, sid, student)
    ensures Struck(t, RecordViolation(t, bank, sid, student, t.sessions[sid].violations, now, newSecret).0,
                   sid, student, now)
  {
    assert SessionGood(t.sessions[sid], t.attempts, now, sid);
    ViolationEffect(t, bank, sid, student, t.sessions[sid].violations, now, newSecret);
  }

  // ---- answers ----

  /** Position of a row among those that become attempts. */
  lemma WrittenAt(bank: Bank, snaps: seq<Snap>, s: Snap) returns (k: nat)
    requires BySlot(snaps) && s in snaps && Writes(bank, s)
    ensures k < |Written(bank, snaps, |snaps|)| && Written(bank, snaps, |snaps|)[k] == s
  {
    WrittenSelects(bank, snaps, |snaps|);
    assert snaps[..|snaps|] == snaps;
    assert s in Written(bank, snaps, |snaps|);
    k :| 0 <= k < |Written(bank, snaps, |snaps|)| && Written(bank, snaps, |snaps|)[k] == s;
  }

  /** A stored answer to a known question is graded by the submit, at its place in the batch. */
  lemma StoredAnswerIsGraded(t: Tables, now: int, bank: Bank, sid: int, source: Source, slot: int) returns (k: nat)
    requires TablesGood(t, now) && sid in t.sessions && sid in t.rows && slot in t.rows[sid]
    requires t.rows[sid][slot].answer.Some? && t.rows[sid][slot].code in bank.problems
    ensures 0 <= slot < |t.sessions[sid].codes|
    ensures var row, batch := t.rows[sid][slot], SubmitBatch(t, bank, sid, source);
            && k < |batch| && batch[k].sid == sid && batch[k].code == t.sessions[sid].codes[slot]
            && batch[k].correct == GradeAnswer(bank.problems[row.code], row.answer)
            && batch[k].marked == row.marked && batch[k].time == row.time && batch[k].visits == row.visits
  {
    var row := t.rows[sid][slot];
    assert RowGood(t, sid, slot);
    RowsFromAreInRange(t.rows[sid], |t.sessions[sid].codes|);
    assert Snap(slot, row) in SelectRows(t, sid);
    k := WrittenAt(bank, SelectRows(t, sid), Snap(slot, row));
    SubmitGradesTouchedSlots(t, bank, sid, source);
  }

  /** The attempt grades the entered answer and records the entered mark. */
  predicate Grades(bank: Bank, code: string, x: Attempt, e: Entry) {
    && code in bank.problems && x.code == code
    && x.correct == GradeAnswer(bank.problems[code], e.answer) && x.marked == e.marked
  }

  lemma ClosingWritesBatch(st: St, bank: Bank, e: Event, sid: int)
    requires Good(st) && IsOpen(st, sid) && IsSubmitted(Next(st, bank, e), sid)
    ensures var closed := Next(st, bank, e);
            && Good(closed) && closed.tables.sessions[sid].source.Some?
            && AttemptsOf(closed.tables.attempts, sid)
               == SubmitBatch(st.tables, bank, sid, closed.tables.sessions[sid].source.value)
  {
    NextIsGood(st, bank, e);
    OnlySubmitCloses(st, bank, e, sid);
    BatchIsOwn(st.tables, bank, sid, Next(st, bank, e).tables.sessions[sid].source.value, sid);
    assert SessionGood(st.tables.sessions[sid], st.tables.attempts, st.now, sid);
  }

  lemma AttemptsStay(st: St, bank: Bank, es: seq<Event>, sid: int)
    requires Good(st) && IsSubmitted(st, sid)
    ensures IsSubmitted(Run(st, bank, es), sid)
    ensures AttemptsOf(Run(st, bank, es).tables.attempts, sid) == AttemptsOf(st.tables.attempts, sid)
  {
    SubmitIsFinal(st, bank, es, sid, Manual, st.now, []);
  }

  /** What a closed session leaves in the attempts table, whichever event closes it and whatever follows: an
      attempt for a row stored then if and only if the row was visited, answered or helped and its question
      is known, exactly one for each, under the slot's frozen question; a question looked at and left blank
      is among them, and not correct. */
  lemma ClosedSessionReportsTouchedSlots(st: St, bank: Bank, e: Event, later: seq<Event>, sid: int)
      returns (at: seq<int>)
    requires Good(st) && IsOpen(st, sid) && IsSubmitted(Next(st, bank, e), sid)
    ensures var attempts := AttemptsOf(Run(Next(st, bank, e), bank, later).tables.attempts, sid);
            var codes := st.tables.sessions[sid].codes;
            && OnePerTouchedSlot(bank, RowsOfSession(st.tables, sid), |codes|, attempts, at)
            && forall k :: 0 <= k < |at| ==> attempts[k].sid == sid && attempts[k].code == codes[at[k]]
  {
    var closed := Next(st, bank, e);
    ClosingWritesBatch(st, bank, e, sid);
    var source := closed.tables.sessions[sid].source.value;
    AttemptsStay(closed, bank, later, sid);
    at := TouchedSlotsLeaveAttempts(st.tables, bank, sid, source);
    SubmitGradesTouchedSlots(st.tables, bank, sid, source);
    forall k | 0 <= k < |at|
      ensures SubmitBatch(st.tables, bank, sid, source)[k].code == st.tables.sessions[sid].codes[at[k]]
    {
      assert at[k] in at && RowGood(st.tables, sid, at[k]);
    }
  }

  /** A carried answer is what closing the session writes, whichever event closes it, an explicit submit or
      the last violation; and nothing that follows changes that. */
  lemma CarriedAnswerIsGraded(st: St, bank: Bank, e: Event, later: seq<Event>, sid: int, a: Action) returns (k: nat)
    requires Good(st) && IsOpen(st, sid) && IsSubmitted(Next(st, bank, e), sid)
    requires a.Snapshot? && a.body.answer.Some? && CarriedBy(RowsOfSession(st.tables, sid), a)
    requires SlotInRange(st.tables.sessions[sid].codes, a.slot) ==>
             st.tables.sessions[sid].codes[a.slot] in bank.problems
    ensures SlotInRange(st.tables.sessions[sid].codes, a.slot)
    ensures var end := Run(Next(st, bank, e), bank, later);
            var attempts := AttemptsOf(end.tables.attempts, sid);
            && IsSubmitted(end, sid) && k < |attempts|
            && Grades(bank, st.tables.sessions[sid].codes[a.slot], attempts[k], BodyEntry(a.body))
  {
    var closed := Next(st, bank, e);
    assert RowGood(st.tables, sid, a.slot);
    ClosingWritesBatch(st, bank, e, sid);
    k := StoredAnswerIsGraded(st.tables, st.now, bank, sid, closed.tables.sessions[sid].source.value, a.slot);
    AttemptsStay(closed, bank, later, sid);
  }

  /** From the queue to the grade. Let the whole system run, from any store, and let any event then close
      the session: if the newest snapshot queued for a slot has left the queue without being shifted out
      by the acknowledgement of another action, and the row was not ahead of it from the start, then an
      attempt grades that snapshot's answer and records its mark, now and for good. */
  lemma NewestSnapshotIsGraded(
      s: System, bank: Bank, p: Page, js: seq<Joint>, a: Action, e: Event, later: seq<Event>) returns (k: nat)
    requires Fits(s, p) && Proper(s, bank, p, js) && Hydration(s.w)
    requires var end := RunSystem(s, bank, p, js);
             && IsNewest(end.w.history, a) && a !in end.w.client.pending && a.body.answer.Some?
             && IsOpen(end.st, p.sid) && IsSubmitted(Next(end.st, bank, e), p.sid)
             && (SlotInRange(end.w.codes, a.slot) ==> end.w.codes[a.slot] in bank.problems)
    requires || CarriedBy(s.w.rows, a)
             || (Behind(s.w.rows, a) && !EverShiftedUnsent(s.w, ToEvents(s.c, Inputs(s, bank, p, js)), a))
    ensures var end := RunSystem(s, bank, p, js);
            SlotInRange(end.w.codes, a.slot)
            && var attempts := AttemptsOf(Run(Next(end.st, bank, e), bank, later).tables.attempts, p.sid);
               k < |attempts| && Grades(bank, end.w.codes[a.slot], attempts[k], BodyEntry(a.body))
  {
    var end := RunSystem(s, bank, p, js);
    SystemReplicates(s, bank, p, js);
    ConvergedIffNeverShifted(s.w, ToEvents(s.c, Inputs(s, bank, p, js)), a);
    k := CarriedAnswerIsGraded(end.st, bank, e, later, p.sid, a);
  }

  /** From the keyboard to the grade. A page starts at mount, next to rows that are not ahead of its stored
      queue, and the whole system runs. If no entry was changed while a save of its slot was under way, and
      no snapshot was queued for a slot in flight, and the queue is empty when the session is closed, then
      for every slot saved an attempt grades what the student entered last and records that mark. */
  lemma LastEnteredIsGraded(
      s: System, bank: Bank, p: Page, js: seq<Joint>, slot: int, e: Event, later: seq<Event>) returns (k: nat)
    requires Fits(s, p) && Proper(s, bank, p, js) && Hydration(s.w) && InAgreement(s.c)
    requires slot in s.w.rows ==> s.w.rows[slot].actionSeq <= s.w.client.counter
    requires var xs := Inputs(s, bank, p, js);
             && OnlySavesQueue(xs) && Unrevised(s.c, xs) && Undisturbed(s.w, ToEvents(s.c, xs))
             && SavesSlot(xs, slot) && Entered(EntryOf(s.c, slot), xs, slot).answer.Some?
    requires var end := RunSystem(s, bank, p, js);
             && end.w.client.pending == []
             && IsOpen(end.st, p.sid) && IsSubmitted(Next(end.st, bank, e), p.sid)
             && (SlotInRange(end.w.codes, slot) ==> end.w.codes[slot] in bank.problems)
    ensures var end := RunSystem(s, bank, p, js);
            SlotInRange(end.w.codes, slot)
            && var attempts := AttemptsOf(Run(Next(end.st, bank, e), bank, later).tables.attempts, p.sid);
               && k < |attempts|
               && Grades(bank, end.w.codes[slot], attempts[k],
                         Entered(EntryOf(s.c, slot), Inputs(s, bank, p, js), slot))
  {
    var xs := Inputs(s, bank, p, js);
    SystemReplicates(s, bank, p, js);
    HydrationIsSound(s.w);
    var a := LastEnteredIsNewest(s.w, s.c, xs, slot);
    EmptyQueueMeansConverged(s.w, ToEvents(s.c, xs));
    ConvergedIffNeverShifted(s.w, ToEvents(s.c, xs), a);
    k := NewestSnapshotIsGraded(s, bank, p, js, a, e, later);
  }
}
