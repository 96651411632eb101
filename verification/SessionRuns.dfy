/** What any run of the session protocol guarantees: one batch of attempts, final submits, the
    violation threshold, late batches, gap-free numbering and the life of a figure token. */
module SessionRuns {
  import opened Basics
  import opened Base64Url
  import opened Snapshots
  import opened FigureToken
  import opened SessionTables
  import opened AttemptNumbering
  import opened SessionProtocol
  import opened SessionSafety

  predicate IsSubmitted(st: St, sid: int) {
    sid in st.tables.sessions && st.tables.sessions[sid].submittedAt.Some?
  }

  predicate IsOpen(st: St, sid: int) {
    sid in st.tables.sessions && st.tables.sessions[sid].submittedAt.None?
  }

  /** A request for a session of another student, or for none, changes nothing at all. */
  lemma ForeignRequestsChangeNothing(st: St, bank: Bank, e: Event)
    requires e.OpenPatch? || e.OpenHint? || e.OpenViolation? || e.OpenLate? || e.OpenStart? || e.SubmitSession?
    requires !Owned(st.tables, e.sid, e.student)
    ensures Next(st, bank, e) == st
  {
  }

  // ---- violations ----

  /** No reachable session counts more than three violations; one that is still open counts fewer,
      and three mean it was submitted by the threshold. */
  lemma ThresholdIsRespected(st: St, bank: Bank, es: seq<Event>, sid: int)
    requires Fresh(st) && sid in st.tables.sessions
    ensures sid in Run(st, bank, es).tables.sessions
    ensures var s := Run(st, bank, es).tables.sessions[sid];
            && 0 <= s.violations <= 3
            && (s.submittedAt.None? ==> s.violations < 3)
            && (s.violations == 3 ==> s.source == Some(ViolationThreshold))
  {
    FreshIsGood(st);
    RunIsGood(st, bank, es);
    var end := Run(st, bank, es);
    assert SessionGood(end.tables.sessions[sid], end.tables.attempts, end.now, sid);
  }

  /** A violation that finds its session submitted in the meantime reports the count it read before
      and leaves the tables alone: the fallback never submits. */
  lemma StaleViolationIsHarmless(st: St, bank: Bank, es: seq<Event>, id: int, newSecret: Bytes)
    requires Good(st)
    ensures var end := Run(st, bank, es);
            id in end.reqs && end.reqs[id].Violate? && IsSubmitted(end, end.reqs[id].sid) ==>
              var r := end.reqs[id];
              && RecordViolation(end.tables, bank, r.sid, r.student, r.staleCount, end.now, newSecret)
                 == (end.tables, Counted(r.staleCount))
              && r.staleCount < VIOLATION_THRESHOLD
  {
    RunIsGood(st, bank, es);
    var end := Run(st, bank, es);
    if id in end.reqs && end.reqs[id].Violate? {
      var r := end.reqs[id];
      assert RequestGood(end.tables, end.now, r);
      ViolationEffect(end.tables, bank, r.sid, r.student, r.staleCount, end.now, newSecret);
    }
  }

  /** The event commits a violation against the open session `sid`. */
  predicate Strikes(st: St, e: Event, sid: int) {
    && e.CommitViolation? && e.newSecret != [] && e.id in st.reqs && st.reqs[e.id].Violate? && st.reqs[e.id].sid == sid
    && IsOpen(st, sid)
  }

  function StrikeCount(st: St, bank: Bank, es: seq<Event>, sid: int): nat
    decreases |es|
  {
    if es == [] then 0
    else (if Strikes(st, es[0], sid) then 1 else 0) + StrikeCount(Next(st, bank, es[0]), bank, es[1..], sid)
  }

  lemma OtherStepsCountNothing(st: St, bank: Bank, e: Event, sid: int)
    requires Good(st) && sid in st.tables.sessions && !e.CommitViolation?
    ensures sid in Next(st, bank, e).tables.sessions
    ensures Next(st, bank, e).tables.sessions[sid].violations == st.tables.sessions[sid].violations
  {
    if IsOpening(e) {
      OpeningKeepsTables(st, bank, e);
    }
  }

  lemma CommitCountsStrike(st: St, bank: Bank, id: int, newSecret: Bytes, sid: int)
    requires Good(st) && sid in st.tables.sessions
    ensures var e := CommitViolation(id, newSecret);
            && sid in Next(st, bank, e).tables.sessions
            && Next(st, bank, e).tables.sessions[sid].violations
               == st.tables.sessions[sid].violations + if Strikes(st, e, sid) then 1 else 0
  {
    if id in st.reqs && st.reqs[id].Violate? {
      var r := st.reqs[id];
      assert RequestGood(st.tables, st.now, r);
      ViolationEffect(st.tables, bank, r.sid, r.student, r.staleCount, st.now, newSecret);
    }
  }

  lemma StepCountsStrikes(st: St, bank: Bank, e: Event, sid: int)
    requires Good(st) && sid in st.tables.sessions
    ensures sid in Next(st, bank, e).tables.sessions
    ensures Next(st, bank, e).tables.sessions[sid].violations
            == st.tables.sessions[sid].violations + if Strikes(st, e, sid) then 1 else 0
  {
    if e.CommitViolation? {
      CommitCountsStrike(st, bank, e.id, e.newSecret, sid);
    } else {
      OtherStepsCountNothing(st, bank, e, sid);
    }
  }

  /** The counter is exact: it is the number of violations committed while the session was open,
      however their reads and writes interleaved. */
  lemma {:induction false} CommittedViolationsAreCounted(st: St, bank: Bank, es: seq<Event>, sid: int)
    requires Good(st) && sid in st.tables.sessions
    ensures sid in Run(st, bank, es).tables.sessions
    ensures Run(st, bank, es).tables.sessions[sid].violations
            == st.tables.sessions[sid].violations + StrikeCount(st, bank, es, sid)
    decreases |es|
  {
    if es != [] {
      NextIsGood(st, bank, es[0]);
      StepCountsStrikes(st, bank, es[0], sid);
      CommittedViolationsAreCounted(Next(st, bank, es[0]), bank, es[1..], sid);
    }
  }

  // ---- submit ----

  /** `e` closes the session: the batch is the grading of the tables at that instant. */
  ghost predicate ClosedBy(st: St, bank: Bank, e: Event, sid: int) {
    && IsOpen(st, sid) && IsSubmitted(Next(st, bank, e), sid)
    && var s := Next(st, bank, e).tables.sessions[sid];
       && s.submittedAt == Some(st.now) && s.source.Some?
       && Next(st, bank, e).tables.attempts == st.tables.attempts + SubmitBatch(st.tables, bank, sid, s.source.value)
  }

  lemma OnlySubmitCloses(st: St, bank: Bank, e: Event, sid: int)
    requires Good(st) && IsOpen(st, sid) && IsSubmitted(Next(st, bank, e), sid)
    ensures ClosedBy(st, bank, e, sid)
  {
    var t := st.tables;
    match e
    case SubmitSession(sid', student, source, newSecret) =>
      if OwnedAndOpen(t, sid', student) {
        SubmitCloses(t, bank, sid', student, source, st.now, newSecret);
      }
    case CommitViolation(id, newSecret) =>
      if id in st.reqs && st.reqs[id].Violate? {
        var r := st.reqs[id];
        assert RequestGood(t, st.now, r);
        ViolationEffect(t, bank, r.sid, r.student, r.staleCount, st.now, newSecret);
      }
    case _ =>
  }

  /** Exactly-once submit. A session that some run closes was closed by one event k of it; its
      attempts are the grading of its rows at that very instant, and nothing else is ever added. */
  lemma {:induction false} ExactlyOneBatch(st: St, bank: Bank, es: seq<Event>, sid: int) returns (k: nat)
    requires Good(st) && IsOpen(st, sid) && IsSubmitted(Run(st, bank, es), sid)
    ensures k < |es| && ClosedBy(Run(st, bank, es[..k]), bank, es[k], sid)
    ensures var at, end := Run(st, bank, es[..k]), Run(st, bank, es);
            var s := end.tables.sessions[sid];
            && s.submittedAt == Some(at.now) && s.source.Some?
            && AttemptsOf(end.tables.attempts, sid) == SubmitBatch(at.tables, bank, sid, s.source.value)
    decreases |es|
  {
    var next := Next(st, bank, es[0]);
    NextIsGood(st, bank, es[0]);
    if IsOpen(next, sid) {
      var j := ExactlyOneBatch(next, bank, es[1..], sid);
      k := j + 1;
      assert es[..k][1..] == es[1..][..j];
    } else {
      k := 0;
      OnlySubmitCloses(st, bank, es[0], sid);
      RunIsGood(next, bank, es[1..]);
      var source := next.tables.sessions[sid].source.value;
      BatchIsOwn(st.tables, bank, sid, source, sid);
      assert SessionGood(st.tables.sessions[sid], st.tables.attempts, st.now, sid);
      assert SameAttempts(next.tables.attempts, Run(st, bank, es).tables.attempts, sid);
      assert SessionLater(next.tables.sessions[sid], next.now, Run(st, bank, es).tables.sessions[sid],
               Run(st, bank, es).now);
      assert es[..0] == [];
    }
  }

  /** A session nobody has closed has no attempts. */
  lemma OpenMeansUnwritten(st: St, bank: Bank, es: seq<Event>, sid: int)
    requires Good(st) && IsOpen(Run(st, bank, es), sid)
    ensures AttemptsOf(Run(st, bank, es).tables.attempts, sid) == []
  {
    RunIsGood(st, bank, es);
    var end := Run(st, bank, es);
    assert SessionGood(end.tables.sessions[sid], end.tables.attempts, end.now, sid);
  }

  /** A submitted session is final: its row, its attempts and their ids never change again, and every
      further submit of it answers the same and writes nothing. */
  lemma SubmitIsFinal(st: St, bank: Bank, es: seq<Event>, sid: int, source: Source, now: int, newSecret: Bytes)
    requires Good(st) && IsSubmitted(st, sid)
    ensures var end := Run(st, bank, es);
            var s := st.tables.sessions[sid];
            && sid in end.tables.sessions && end.tables.sessions[sid] == s
            && AttemptsOf(end.tables.attempts, sid) == AttemptsOf(st.tables.attempts, sid)
            && s.source.Some?
            && Submit(end.tables, bank, sid, s.student, source, now, newSecret)
               == (end.tables, Submitted(s.submittedAt.value, s.source.value, IdsOf(st.tables.attempts, sid)))
  {
    RunIsGood(st, bank, es);
    var end := Run(st, bank, es);
    assert SessionLater(st.tables.sessions[sid], st.now, end.tables.sessions[sid], end.now);
    assert SameAttempts(st.tables.attempts, end.tables.attempts, sid);
    assert SessionGood(st.tables.sessions[sid], st.tables.attempts, st.now, sid);
  }

  /** The ids in the reply of a closing submit are those of the attempts it wrote. */
  lemma ReplyNamesTheBatch(t: Tables, bank: Bank, sid: int, student: int, source: Source, now: int, newSecret: Bytes)
    requires OwnedAndOpen(t, sid, student) && AttemptsOf(t.attempts, sid) == []
    ensures var (t', reply) := Submit(t, bank, sid, student, source, now, newSecret);
            reply == Submitted(now, source, IdsOf(t'.attempts, sid))
  {
    SubmitCloses(t, bank, sid, student, source, now, newSecret);
    BatchIsOwn(t, bank, sid, source, sid);
    IdsNameAttempts(t.attempts, sid);
    assert IdsOf(t.attempts, sid) == [];
  }

  /** A client that repeats its submit, whatever happened in between, gets the reply of the first one. */
  lemma ResubmitAnswersTheSame(
      st: St, bank: Bank, sid: int, student: int, source: Source, newSecret: Bytes,
      es: seq<Event>, source': Source, now': int, newSecret': Bytes)
    requires Good(st) && OwnedAndOpen(st.tables, sid, student) && newSecret != []
    ensures var first := Submit(st.tables, bank, sid, student, source, st.now, newSecret).1;
            var end := Run(Next(st, bank, SubmitSession(sid, student, source, newSecret)), bank, es);
            Submit(end.tables, bank, sid, student, source', now', newSecret') == (end.tables, first)
  {
    var e := SubmitSession(sid, student, source, newSecret);
    NextIsGood(st, bank, e);
    assert SessionGood(st.tables.sessions[sid], st.tables.attempts, st.now, sid);
    ReplyNamesTheBatch(st.tables, bank, sid, student, source, st.now, newSecret);
    SubmitCloses(st.tables, bank, sid, student, source, st.now, newSecret);
    SubmitIsFinal(Next(st, bank, e), bank, es, sid, source', now', newSecret');
  }

  /** What a submit answers, on any tables: not found, not the owner's, the moment and source it was first
      submitted with, or now. Refused and repeated submits write nothing. */
  lemma SubmitAnswers(t: Tables, bank: Bank, sid: int, student: int, source: Source, now: int, newSecret: Bytes)
    ensures var (t', reply) := Submit(t, bank, sid, student, source, now, newSecret);
            && (reply == SessionNotFound <==> sid !in t.sessions)
            && (reply == NotOwner <==> sid in t.sessions && t.sessions[sid].student != student)
            && (reply.Submitted? <==> Owned(t, sid, student))
            && (!OwnedAndOpen(t, sid, student) ==> t' == t)
            && (Owned(t, sid, student) ==>
                  var s := t.sessions[sid];
                  && reply.at == (if s.submittedAt.Some? then s.submittedAt.value else now)
                  && reply.source == (if s.submittedAt.Some? && s.source.Some? then s.source.value else source))
  {
  }

  /** The violation transaction is atomic, on any tables: it submits an owned session from the third violation
      on, and if that submit is refused the count is undone with it. */
  lemma ViolationIsAtomic(
      t: Tables, bank: Bank, sid: int, student: int, staleCount: int, now: int, newSecret: Bytes)
    ensures var (t', reply) := RecordViolation(t, bank, sid, student, staleCount, now, newSecret);
            var open := sid in t.sessions && t.sessions[sid].submittedAt.None?;
            var count := if open then t.sessions[sid].violations + 1 else staleCount;
            && (reply.RolledBack? <==> count >= 3 && !Owned(t, sid, student))
            && (reply.RolledBack? ==> t' == t && !reply.error.Submitted?)
            && (reply.Counted? <==> count < 3) && (!reply.RolledBack? ==> reply.count == count)
            && (reply.AutoSubmitted? ==> sid in t'.sessions && t'.sessions[sid].submittedAt.Some?)
            && (open && !reply.RolledBack? ==> sid in t'.sessions && t'.sessions[sid].violations == count)
  {
  }

  // ---- rows after submit ----

  ghost predicate NoPendingWrite(st: St, sid: int) {
    forall id :: id in st.reqs && st.reqs[id].Write? ==> st.reqs[id].sid != sid
  }

  predicate SameRows(t: Tables, t': Tables, sid: int) {
    (sid in t'.rows <==> sid in t.rows) && (sid in t.rows ==> t'.rows[sid] == t.rows[sid])
  }

  lemma ViolationFreezesRows(st: St, bank: Bank, id: int, newSecret: Bytes, sid: int)
    requires Good(st) && IsSubmitted(st, sid) && NoPendingWrite(st, sid)
    ensures var st' := Next(st, bank, CommitViolation(id, newSecret));
            SameRows(st.tables, st'.tables, sid) && NoPendingWrite(st', sid)
  {
    if id in st.reqs && st.reqs[id].Violate? {
      var r := st.reqs[id];
      assert RequestGood(st.tables, st.now, r);
      ViolationEffect(st.tables, bank, r.sid, r.student, r.staleCount, st.now, newSecret);
    }
  }

  lemma CommitFreezesRows(st: St, bank: Bank, id: int, sid: int)
    requires Good(st) && IsSubmitted(st, sid) && NoPendingWrite(st, sid)
    ensures SameRows(st.tables, Next(st, bank, CommitWrite(id)).tables, sid)
            && NoPendingWrite(Next(st, bank, CommitWrite(id)), sid)
    ensures SameRows(st.tables, Next(st, bank, CommitStart(id)).tables, sid)
            && NoPendingWrite(Next(st, bank, CommitStart(id)), sid)
  {
  }

  lemma LateStepFreezesRows(st: St, bank: Bank, id: int, sid: int)
    requires Good(st) && IsSubmitted(st, sid) && NoPendingWrite(st, sid)
    ensures SameRows(st.tables, Next(st, bank, LateStep(id)).tables, sid)
            && NoPendingWrite(Next(st, bank, LateStep(id)), sid)
  {
  }

  lemma StepFreezesRows(st: St, bank: Bank, e: Event, sid: int)
    requires Good(st) && IsSubmitted(st, sid) && NoPendingWrite(st, sid)
    ensures SameRows(st.tables, Next(st, bank, e).tables, sid) && NoPendingWrite(Next(st, bank, e), sid)
  {
    if e.CommitViolation? {
      ViolationFreezesRows(st, bank, e.id, e.newSecret, sid);
    } else if e.CommitWrite? || e.CommitStart? {
      CommitFreezesRows(st, bank, e.id, sid);
    } else if e.LateStep? {
      LateStepFreezesRows(st, bank, e.id, sid);
    }
  }

  /** The rows of a submitted session can change only through a write whose liveness check came
      before the submit: without one pending they are frozen for good, late batches included. */
  lemma {:induction false} RowsFreezeWithoutStaleWrites(st: St, bank: Bank, es: seq<Event>, sid: int)
    requires Good(st) && IsSubmitted(st, sid) && NoPendingWrite(st, sid)
    ensures SameRows(st.tables, Run(st, bank, es).tables, sid)
    decreases |es|
  {
    if es != [] {
      var next := Next(st, bank, es[0]);
      StepFreezesRows(st, bank, es[0], sid);
      NextIsGood(st, bank, es[0]);
      assert SessionLater(st.tables.sessions[sid], st.now, next.tables.sessions[sid], next.now);
      RowsFreezeWithoutStaleWrites(next, bank, es[1..], sid);
    }
  }

  /** A pending write, committed at a time the row does not show yet, moves the row. */
  lemma PendingWriteMovesRow(st: St, bank: Bank, id: int) returns (es: seq<Event>)
    requires id in st.reqs && st.reqs[id].Write?
    ensures !SameRows(st.tables, Run(st, bank, es).tables, st.reqs[id].sid)
  {
    var r := st.reqs[id];
    var stored := StoredRow(st.tables, r.sid, r.slot);
    var dt: nat := if stored.Some? && stored.value.lastAction == Some(st.now) then 1 else 0;
    es := [Tick(dt), CommitWrite(id)];
    var ticked := Next(st, bank, Tick(dt));
    assert es[1..] == [CommitWrite(id)] && es[1..][1..] == [];
    assert Run(st, bank, es) == Run(ticked, bank, [CommitWrite(id)]);
    var end := Next(ticked, bank, CommitWrite(id));
    assert Run(ticked, bank, [CommitWrite(id)]) == end;
    assert StoredRow(end.tables, r.sid, r.slot).Some?;
    assert StoredRow(end.tables, r.sid, r.slot).value.lastAction == Some(st.now + dt);
  }

  /** The exact condition: the rows of a submitted session stay as they are in every continuation if
      and only if no write checked before the submit is still pending. */
  lemma RowsFreezeIff(st: St, bank: Bank, sid: int)
    requires Good(st) && IsSubmitted(st, sid)
    ensures (forall es :: SameRows(st.tables, Run(st, bank, es).tables, sid)) <==> NoPendingWrite(st, sid)
  {
    if NoPendingWrite(st, sid) {
      forall es
        ensures SameRows(st.tables, Run(st, bank, es).tables, sid)
      {
        RowsFreezeWithoutStaleWrites(st, bank, es, sid);
      }
    } else {
      var id :| id in st.reqs && st.reqs[id].Write? && st.reqs[id].sid == sid;
      var es := PendingWriteMovesRow(st, bank, id);
    }
  }

  lemma NewerPatchIsStored(t: Tables, sid: int, slot: int, code: string, patch: Delivery)
    requires patch.Patch?
    requires sid in t.rows && slot in t.rows[sid] ==> patch.actionSeq > t.rows[sid][slot].actionSeq
    ensures var t' := WriteRow(t, sid, slot, code, patch);
            && t'.sessions == t.sessions && t'.attempts == t.attempts
            && sid in t'.rows && slot in t'.rows[sid]
            && t'.rows[sid][slot].answer == patch.answer && t'.rows[sid][slot].actionSeq == patch.actionSeq
            && t'.rows[sid][slot].lastAction == Some(patch.at)
  {
  }

  /** With one pending they do change: an accepted answer that was never graded. In every open
      session, a newer patch checked before the submit and written after it replaces the stored
      answer, while the attempts keep the grading of the old one. */
  lemma StaleWriteMissesGrading(
      st: St, bank: Bank, id: int, sid: int, student: int, slot: int, patch: Delivery, source: Source, newSecret: Bytes)
    requires Good(st) && OwnedAndOpen(st.tables, sid, student) && SlotInRange(st.tables.sessions[sid].codes, slot)
    requires id !in st.reqs && newSecret != [] && patch.Patch?
    requires sid in st.tables.rows && slot in st.tables.rows[sid] ==>
             patch.actionSeq > st.tables.rows[sid][slot].actionSeq
    ensures var read := Next(st, bank, OpenPatch(id, sid, student, slot, patch));
            var closed := Next(read, bank, SubmitSession(sid, student, source, newSecret));
            var end := Next(closed, bank, CommitWrite(id));
            && IsSubmitted(end, sid)
            && AttemptsOf(end.tables.attempts, sid) == SubmitBatch(st.tables, bank, sid, source)
            && sid in end.tables.rows && slot in end.tables.rows[sid]
            && end.tables.rows[sid][slot].answer == patch.answer
            && end.tables.rows[sid][slot].actionSeq == patch.actionSeq
            && end.tables.rows[sid][slot].lastAction == Some(st.now)
  {
    var t, code := st.tables, st.tables.sessions[sid].codes[slot];
    var read := Next(st, bank, OpenPatch(id, sid, student, slot, patch));
    assert read == st.(reqs := st.reqs[id := Write(sid, slot, code, patch)]);
    var closed := Next(read, bank, SubmitSession(sid, student, source, newSecret));
    SubmitCloses(t, bank, sid, student, source, st.now, newSecret);
    assert closed == read.(tables := Submitting(t, bank, sid, source, t.sessions[sid].violations, st.now, newSecret));
    NewerPatchIsStored(closed.tables, sid, slot, code, Stamp(patch, st.now));
    BatchIsOwn(t, bank, sid, source, sid);
    assert SessionGood(t.sessions[sid], t.attempts, st.now, sid);
  }

  // ---- deadlines ----

  /** Whatever STARTs, stale or not, run in between: a session created with deadline `e` is live
      exactly while it is open and the clock is before `e`, and until then the deadline does not move. */
  lemma LiveUntilItsDeadline(st: St, bank: Bank, es: seq<Event>, sid: int, e: int)
    requires Good(st) && sid in st.tables.sessions && st.tables.sessions[sid].expiresAt == Some(e)
    ensures sid in Run(st, bank, es).tables.sessions
    ensures var end := Run(st, bank, es);
            var s := end.tables.sessions[sid];
            && (IsLive(s, end.now) <==> s.submittedAt.None? && end.now < e)
            && (end.now < e ==> s.expiresAt == Some(e))
  {
    RunIsGood(st, bank, es);
    var end := Run(st, bank, es);
    assert SessionLater(st.tables.sessions[sid], st.now, end.tables.sessions[sid], end.now);
  }

  /** The step writes a START of the session while it is open. */
  predicate Starts(st: St, e: Event, sid: int) {
    e.CommitStart? && e.id in st.reqs && st.reqs[e.id].Start? && st.reqs[e.id].sid == sid && IsOpen(st, sid)
  }

  predicate IsStarted(st: St, bank: Bank, es: seq<Event>, sid: int)
    decreases |es|
  {
    es != [] && (Starts(st, es[0], sid) || IsStarted(Next(st, bank, es[0]), bank, es[1..], sid))
  }

  lemma OtherStepsKeepDeadline(st: St, bank: Bank, e: Event, sid: int)
    requires Good(st) && sid in st.tables.sessions && !e.CommitStart?
    ensures sid in Next(st, bank, e).tables.sessions
    ensures Next(st, bank, e).tables.sessions[sid].expiresAt == st.tables.sessions[sid].expiresAt
  {
    if IsOpening(e) {
      OpeningKeepsTables(st, bank, e);
    } else if e.CommitViolation? && e.id in st.reqs && st.reqs[e.id].Violate? {
      var r := st.reqs[e.id];
      assert RequestGood(st.tables, st.now, r);
      ViolationEffect(st.tables, bank, r.sid, r.student, r.staleCount, st.now, e.newSecret);
    }
  }

  /** A START is the only step that moves a session without a deadline, and what it gives it as a deadline
      has passed already. */
  lemma StartEndsLife(st: St, bank: Bank, e: Event, sid: int)
    requires Good(st) && sid in st.tables.sessions && st.tables.sessions[sid].expiresAt.None?
    ensures var st' := Next(st, bank, e);
            && sid in st'.tables.sessions
            && (Starts(st, e, sid) ==> !IsLive(st'.tables.sessions[sid], st'.now))
            && (!Starts(st, e, sid) ==> st'.tables.sessions[sid].expiresAt.None?)
  {
    if e.CommitStart? {
      if e.id in st.reqs {
        assert RequestGood(st.tables, st.now, st.reqs[e.id]);
      }
    } else {
      OtherStepsKeepDeadline(st, bank, e, sid);
    }
  }

  lemma DeadStaysDead(st: St, bank: Bank, es: seq<Event>, sid: int)
    requires Good(st) && sid in st.tables.sessions && !IsLive(st.tables.sessions[sid], st.now)
    ensures sid in Run(st, bank, es).tables.sessions
    ensures !IsLive(Run(st, bank, es).tables.sessions[sid], Run(st, bank, es).now)
  {
    RunIsGood(st, bank, es);
    var end := Run(st, bank, es);
    assert SessionLater(st.tables.sessions[sid], st.now, end.tables.sessions[sid], end.now);
    if IsLive(end.tables.sessions[sid], end.now) {
      LivenessNeverReturns(st.tables.sessions[sid], st.now, end.tables.sessions[sid], end.now);
    }
  }

  /** A session created without a deadline is live exactly until it is submitted or started: START takes
      the moment it was read at as the deadline. */
  lemma {:induction false} WithoutDeadlineLiveUntilStart(st: St, bank: Bank, es: seq<Event>, sid: int)
    requires Good(st) && sid in st.tables.sessions && st.tables.sessions[sid].expiresAt.None?
    ensures sid in Run(st, bank, es).tables.sessions
    ensures var end := Run(st, bank, es);
            var s := end.tables.sessions[sid];
            IsLive(s, end.now) <==> s.submittedAt.None? && !IsStarted(st, bank, es, sid)
    decreases |es|
  {
    if es != [] {
      var next := Next(st, bank, es[0]);
      NextIsGood(st, bank, es[0]);
      StartEndsLife(st, bank, es[0], sid);
      if Starts(st, es[0], sid) {
        DeadStaysDead(next, bank, es[1..], sid);
      } else {
        WithoutDeadlineLiveUntilStart(next, bank, es[1..], sid);
      }
    }
  }

  // ---- hints ----

  /** The revealed levels are 1, 2, 3, ... */
  ghost predicate InSequence(levels: seq<int>) {
    forall i :: 0 <= i < |levels| ==> levels[i] == i + 1
  }

  function Levels(t: Tables, sid: int, slot: int): seq<int> {
    if sid in t.rows && slot in t.rows[sid] then t.rows[sid][slot].levels else []
  }

  lemma RevealAtWrite(st: St, bank: Bank, id: int)
    requires Good(st) && id in st.reqs && st.reqs[id].Write? && st.reqs[id].d.Hint?
    requires InSequence(Levels(st.tables, st.reqs[id].sid, st.reqs[id].slot))
    ensures var r, t, t' := st.reqs[id], st.tables, Next(st, bank, CommitWrite(id)).tables;
            && HintsUsed(t', r.sid, r.slot) == HintsUsed(t, r.sid, r.slot) + 1
            && Levels(t', r.sid, r.slot) == Levels(t, r.sid, r.slot) + [r.d.level]
            && (InSequence(Levels(t', r.sid, r.slot)) <==> r.d.level == HintsUsed(t, r.sid, r.slot) + 1)
  {
    var r, t, t' := st.reqs[id], st.tables, Next(st, bank, CommitWrite(id)).tables;
    var before, after := Levels(t, r.sid, r.slot), Levels(t', r.sid, r.slot);
    if r.sid in t.rows && r.slot in t.rows[r.sid] {
      assert RowGood(t, r.sid, r.slot);
    }
    assert after == before + [r.d.level];
    assert after[|before|] == r.d.level;
  }

  /** A reveal written before anything else intervenes, of whatever level, keeps the sequence: the check
      at its read lets only the next level through. */
  lemma SerialRevealKeepsSequence(st: St, bank: Bank, id: int, sid: int, student: int, slot: int, level: int)
    requires Good(st) && id !in st.reqs && InSequence(Levels(st.tables, sid, slot))
    ensures var end := Next(Next(st, bank, OpenHint(id, sid, student, slot, level)), bank, CommitWrite(id));
            && InSequence(Levels(end.tables, sid, slot))
            && (HintsUsed(end.tables, sid, slot) == HintsUsed(st.tables, sid, slot) + 1
                <==> OwnedAndOpen(st.tables, sid, student) && SlotInRange(st.tables.sessions[sid].codes, slot)
                     && NextHint(st.tables, bank, sid, slot, st.tables.sessions[sid].codes[slot], level))
  {
    var e := OpenHint(id, sid, student, slot, level);
    var read := Next(st, bank, e);
    if read != st {
      NextIsGood(st, bank, e);
      RevealAtWrite(read, bank, id);
    }
  }

  /** The event writes a reveal of the slot. */
  predicate Reveals(st: St, e: Event, sid: int, slot: int) {
    && e.CommitWrite? && e.id in st.reqs && st.reqs[e.id].Write? && st.reqs[e.id].d.Hint?
    && st.reqs[e.id].sid == sid && st.reqs[e.id].slot == slot
  }

  /** The levels a run reveals for a slot, in the order of writing. */
  function RevealedLevels(st: St, bank: Bank, es: seq<Event>, sid: int, slot: int): seq<int>
    decreases |es|
  {
    if es == [] then []
    else
      (if Reveals(st, es[0], sid, slot) then [st.reqs[es[0].id].d.level] else [])
      + RevealedLevels(Next(st, bank, es[0]), bank, es[1..], sid, slot)
  }

  lemma ViolationKeepsRows(t: Tables, bank: Bank, sid: int, student: int, staleCount: int, now: int, newSecret: Bytes)
    ensures RecordViolation(t, bank, sid, student, staleCount, now, newSecret).0.rows == t.rows
    ensures forall source :: Submit(t, bank, sid, student, source, now, newSecret).0.rows == t.rows
  {
  }

  lemma CommitRevealsLevels(st: St, bank: Bank, id: int, sid: int, slot: int)
    ensures var e := CommitWrite(id);
            Levels(Next(st, bank, e).tables, sid, slot)
            == Levels(st.tables, sid, slot) + if Reveals(st, e, sid, slot) then [st.reqs[id].d.level] else []
  {
    assert Levels(st.tables, sid, slot) + [] == Levels(st.tables, sid, slot);
  }

  lemma OtherStepsRevealNothing(st: St, bank: Bank, e: Event, sid: int, slot: int)
    requires !e.CommitWrite?
    ensures Levels(Next(st, bank, e).tables, sid, slot) == Levels(st.tables, sid, slot)
  {
    if IsOpening(e) {
      OpeningKeepsTables(st, bank, e);
    } else if e.CommitViolation? && e.id in st.reqs && st.reqs[e.id].Violate? {
      var r := st.reqs[e.id];
      ViolationKeepsRows(st.tables, bank, r.sid, r.student, r.staleCount, st.now, e.newSecret);
    } else if e.SubmitSession? {
      ViolationKeepsRows(st.tables, bank, e.sid, e.student, 0, st.now, e.newSecret);
    }
  }

  lemma StepRevealsLevels(st: St, bank: Bank, e: Event, sid: int, slot: int)
    ensures Levels(Next(st, bank, e).tables, sid, slot)
            == Levels(st.tables, sid, slot) + if Reveals(st, e, sid, slot) then [st.reqs[e.id].d.level] else []
  {
    if e.CommitWrite? {
      CommitRevealsLevels(st, bank, e.id, sid, slot);
    } else {
      OtherStepsRevealNothing(st, bank, e, sid, slot);
      assert Levels(st.tables, sid, slot) + [] == Levels(st.tables, sid, slot);
    }
  }

  /** Levels are only ever appended, by the reveals written. */
  lemma {:induction false} RunRevealsLevels(st: St, bank: Bank, es: seq<Event>, sid: int, slot: int)
    ensures Levels(Run(st, bank, es).tables, sid, slot)
            == Levels(st.tables, sid, slot) + RevealedLevels(st, bank, es, sid, slot)
    decreases |es|
  {
    if es != [] {
      StepRevealsLevels(st, bank, es[0], sid, slot);
      RunRevealsLevels(Next(st, bank, es[0]), bank, es[1..], sid, slot);
    }
  }

  /** A pending write waits for its own commit. */
  lemma {:induction false} PendingWriteStays(st: St, bank: Bank, es: seq<Event>, id: int)
    requires id in st.reqs && st.reqs[id].Write? && CommitWrite(id) !in es
    ensures id in Run(st, bank, es).reqs && Run(st, bank, es).reqs[id] == st.reqs[id]
    decreases |es|
  {
    if es != [] {
      assert es[0] in es;
      PendingWriteStays(Next(st, bank, es[0]), bank, es[1..], id);
    }
  }

  lemma AppendedInSequence(levels: seq<int>, between: seq<int>, level: int)
    requires InSequence(levels) && level == |levels| + 1
    ensures InSequence(levels + between + [level]) <==> between == []
  {
    var all := levels + between + [level];
    assert all[|levels| + |between|] == level;
    assert between == [] ==> levels + between == levels;
  }

  /** A reveal of the next level keeps the revealed levels in sequence if and only if no other reveal of
      its slot is written between its check and its own write, whatever else happens in between. */
  lemma RevealKeepsSequenceIff(
      st: St, bank: Bank, id: int, sid: int, student: int, slot: int, level: int, es: seq<Event>)
    requires Good(st) && id !in st.reqs && CommitWrite(id) !in es
    requires OwnedAndOpen(st.tables, sid, student) && SlotInRange(st.tables.sessions[sid].codes, slot)
    requires NextHint(st.tables, bank, sid, slot, st.tables.sessions[sid].codes[slot], level)
    requires InSequence(Levels(st.tables, sid, slot))
    ensures var read := Next(st, bank, OpenHint(id, sid, student, slot, level));
            var end := Next(Run(read, bank, es), bank, CommitWrite(id));
            InSequence(Levels(end.tables, sid, slot)) <==> RevealedLevels(read, bank, es, sid, slot) == []
  {
    var read := Next(st, bank, OpenHint(id, sid, student, slot, level));
    var before := Run(read, bank, es);
    PendingWriteStays(read, bank, es, id);
    RunRevealsLevels(read, bank, es, sid, slot);
    CommitRevealsLevels(before, bank, id, sid, slot);
    if sid in st.tables.rows && slot in st.tables.rows[sid] {
      assert RowGood(st.tables, sid, slot);
    }
    AppendedInSequence(Levels(st.tables, sid, slot), RevealedLevels(read, bank, es, sid, slot), level);
  }

  /** Two reveals of the same level that both read before either writes both count: the level is
      recorded twice, and the following one is skipped. */
  lemma ConcurrentRevealsRepeat(
      st: St, bank: Bank, a: int, b: int, sid: int, student: int, slot: int)
    requires Good(st) && OwnedAndOpen(st.tables, sid, student) && SlotInRange(st.tables.sessions[sid].codes, slot)
    requires a != b && a !in st.reqs && b !in st.reqs
    requires NextHint(st.tables, bank, sid, slot, st.tables.sessions[sid].codes[slot],
               HintsUsed(st.tables, sid, slot) + 1)
    ensures var level := HintsUsed(st.tables, sid, slot) + 1;
            var read := Next(Next(st, bank, OpenHint(a, sid, student, slot, level)), bank,
                  OpenHint(b, sid, student, slot, level));
            var end := Next(Next(read, bank, CommitWrite(a)), bank, CommitWrite(b));
            && Levels(end.tables, sid, slot) == Levels(st.tables, sid, slot) + [level, level]
            && HintsUsed(end.tables, sid, slot) == level + 1
  {
    var level, code := HintsUsed(st.tables, sid, slot) + 1, st.tables.sessions[sid].codes[slot];
    var r := Write(sid, slot, code, Hint(level, st.now));
    var first := Next(st, bank, OpenHint(a, sid, student, slot, level));
    assert first == st.(reqs := st.reqs[a := r]);
    var read := Next(first, bank, OpenHint(b, sid, student, slot, level));
    assert read == st.(reqs := st.reqs[a := r][b := r]);
    RevealIsAppended(read, bank, a, r);
    RevealIsAppended(Next(read, bank, CommitWrite(a)), bank, b, r);
  }

  lemma RevealIsAppended(st: St, bank: Bank, id: int, r: Request)
    requires id in st.reqs && st.reqs[id] == r && r.Write? && r.d.Hint?
    ensures var st' := Next(st, bank, CommitWrite(id));
            && HintsUsed(st'.tables, r.sid, r.slot) == HintsUsed(st.tables, r.sid, r.slot) + 1
            && Levels(st'.tables, r.sid, r.slot) == Levels(st.tables, r.sid, r.slot) + [r.d.level]
            && forall k :: k in st.reqs && k != id ==> k in st'.reqs && st'.reqs[k] == st.reqs[k]
  {
  }

  // ---- late batches ----

  /** Of a late batch exactly a prefix of the in-range entries is scored: the first k, whatever else
      runs in between. A finished batch has recorded all its entries, in range or not. */
  lemma LateBatchScoresPrefix(st: St, bank: Bank, es: seq<Event>, id: int) returns (k: nat)
    requires Good(st)
    ensures var end := Run(st, bank, es);
            id in end.reqs && end.reqs[id].LateEntries? ==>
              var r := end.reqs[id];
              && r.done <= |r.entries|
              && |r.wrote| == Count(InRangeEntry(r.codes), r.entries[..r.done])
              && k == Count(Scored, r.wrote) <= |r.wrote|
              && forall i :: 0 <= i < |r.wrote| ==> (r.wrote[i] <==> i < k)
  {
    RunIsGood(st, bank, es);
    var end := Run(st, bank, es);
    k := 0;
    if id in end.reqs && end.reqs[id].LateEntries? {
      var r := end.reqs[id];
      assert RequestGood(end.tables, end.now, r);
      k := PrefixLength(r.wrote);
    }
  }

  /** One in-range entry: it is scored if and only if the session is live at that instant, and then
      the row holds the newer of the stored and the late answer and is otherwise as it was, an absent
      row counting as one visit; otherwise nothing changes. */
  lemma LateEntryScoresIffLive(st: St, bank: Bank, id: int)
    requires Good(st) && id in st.reqs && st.reqs[id].LateEntries? && st.reqs[id].done < |st.reqs[id].entries|
    requires SlotInRange(st.reqs[id].codes, st.reqs[id].entries[st.reqs[id].done].slot)
    ensures var r, st' := st.reqs[id], Next(st, bank, LateStep(id));
            var entry, live := r.entries[r.done], r.sid in st.tables.sessions
                && IsLive(st.tables.sessions[r.sid], st.now);
            && id in st'.reqs && st'.reqs[id] == r.(done := r.done + 1, wrote := r.wrote + [live])
            && (!live ==> st'.tables == st.tables)
            && (live && entry.actionSeq >= 1 ==>
                  ContentOf(StoredRow(st'.tables, r.sid, entry.slot))
                  == ContentStep(ContentOf(StoredRow(st.tables, r.sid, entry.slot)),
                      Late(entry.answer, entry.actionSeq, st.now)))
            && (live ==>
                  var prev, next := StoredRow(st.tables, r.sid, entry.slot), StoredRow(st'.tables, r.sid, entry.slot);
                  && next.Some? && next.value.lastAction == Some(st.now)
                  && ViewOf(next).time == ViewOf(prev).time && ViewOf(next).marked == ViewOf(prev).marked
                  && ViewOf(next).hints == ViewOf(prev).hints
                  && ViewOf(next).visits == if prev.Some? then ViewOf(prev).visits else 1)
  {
  }

  predicate Scored(flag: bool) {
    flag
  }

  lemma {:induction false} PrefixLength(flags: seq<bool>) returns (k: nat)
    requires IsPrefix(flags)
    ensures k == Count(Scored, flags) <= |flags| && forall i :: 0 <= i < |flags| ==> (flags[i] <==> i < k)
    decreases |flags|
  {
    if flags == [] {
      k := 0;
    } else {
      var n := |flags| - 1;
      assert forall i :: 0 <= i < n ==> flags[..n][i] == flags[i];
      k := PrefixLength(flags[..n]);
      if flags[n] {
        assert forall i :: 0 <= i < n ==> flags[..n][i];
        k := n + 1;
      }
    }
  }

  /** The late snapshots of a batch that reach a slot of the session, in order. */
  function LateDeliveries(s: Session, entries: seq<LateEntry>, clock: seq<int>, slot: int): seq<Delivery>
    requires |clock| == |entries|
    decreases |entries|
  {
    if entries == [] then []
    else
      var n := |entries| - 1;
      LateDeliveries(s, entries[..n], clock[..n], slot)
      + if entries[n].slot == slot && IsLive(s, clock[n]) then [Late(entries[n].answer, entries[n].actionSeq, clock[n])]
        else []
  }

  /** Which entries of a batch count: in range, at an instant at which the session is live. */
  function CountedEntries(s: Session, codes: seq<string>, entries: seq<LateEntry>, clock: seq<int>): nat
    requires |clock| == |entries|
    decreases |entries|
  {
    if entries == [] then 0
    else
      var n := |entries| - 1;
      CountedEntries(s, codes, entries[..n], clock[..n])
      + if 0 <= entries[n].slot < |codes| && IsLive(s, clock[n]) then 1 else 0
  }

  lemma DeliverOneMore(prev: Option<Row>, code: string, ds: seq<Delivery>, d: Delivery)
    ensures Deliver(prev, code, ds + [d]) == Some(Upsert(Deliver(prev, code, ds), code, d))
    ensures Deliver(prev, code, ds + []) == Deliver(prev, code, ds)
  {
    DeliverConcat(prev, code, ds, [d]);
    assert [d][1..] == [] && ds + [] == ds;
  }

  /** A late batch without interference scores exactly the in-range entries whose instants find the session
      live, delivers those to the rows of their slots, in order, and touches nothing else. */
  lemma {:induction false} SerialLateBatchDelivers(
      t: Tables, sid: int, codes: seq<string>, entries: seq<LateEntry>, clock: seq<int>, slot: int)
    requires |clock| == |entries| && sid in t.sessions
    ensures var (t', scored) := LateBatch(t, sid, codes, entries, clock);
            && t'.sessions == t.sessions && t'.attempts == t.attempts
            && scored == CountedEntries(t.sessions[sid], codes, entries, clock)
            && StoredRow(t', sid, slot) ==
               (if 0 <= slot < |codes| then
                  Deliver(StoredRow(t, sid, slot), codes[slot],
                          LateDeliveries(t.sessions[sid], entries, clock, slot))
                else StoredRow(t, sid, slot))
            && forall other :: other != sid ==> StoredRow(t', other, slot) == StoredRow(t, other, slot)
    decreases |entries|
  {
    if entries != [] {
      var n := |entries| - 1;
      SerialLateBatchDelivers(t, sid, codes, entries[..n], clock[..n], slot);
      if 0 <= slot < |codes| {
        DeliverOneMore(StoredRow(t, sid, slot), codes[slot],
          LateDeliveries(t.sessions[sid], entries[..n], clock[..n], slot),
          Late(entries[n].answer, entries[n].actionSeq, clock[n]));
      }
    }
  }

  // ---- numbering ----

  /** Every run of serial submits, of any students and sessions, leaves the attempts of each student
      at each question numbered 1..n. */
  lemma RunsNumberWithoutGaps(st: St, bank: Bank, es: seq<Event>, student: int, code: string)
    requires Fresh(st)
    ensures var attempts := Run(st, bank, es).tables.attempts;
            && Numbered(attempts)
            && forall order :: HasOrder(attempts, student, code, order) <==>
               1 <= order <= CountFor(attempts, student, code)
  {
    FreshIsGood(st);
    RunIsGood(st, bank, es);
    OrdersAreGapFree(Run(st, bank, es).tables.attempts, student, code);
  }

  // ---- figure tokens ----

  function CheckInSession(crypto: Crypto, token: string, s: Session, now: int): Verified {
    CheckFigureToken(crypto, token, s.secret, s.previous, s.rotatedAt, now, |s.codes|)
  }

  /** Rotation and grace. A token issued while the session was open is accepted at every later time
      until five minutes after the submit, and from then on only if the new secret happens to give
      the same MAC. */
  lemma TokenLivesUntilGraceEnds(
      crypto: Crypto, st: St, bank: Bank, es: seq<Event>, sid: int, slot: nat, figure: nat)
    requires HasDigests(crypto) && Signable(crypto, slot, figure)
    requires Good(st) && IsOpen(st, sid) && slot < |st.tables.sessions[sid].codes|
    ensures sid in Run(st, bank, es).tables.sessions
    ensures SignFigureToken(crypto, st.tables.sessions[sid].secret, slot, figure).Ok?
    ensures var issued, end := st.tables.sessions[sid], Run(st, bank, es);
            var s := end.tables.sessions[sid];
            CheckInSession(crypto, SignFigureToken(crypto, issued.secret, slot, figure).value, s, end.now) ==
              if || s.submittedAt.None? || end.now <= s.submittedAt.value + 5 * 60 * 1000
                 || Mac(crypto, s.secret, TokenPayload(slot, figure))
                    == Mac(crypto, issued.secret, TokenPayload(slot, figure))
              then Accepted(slot, figure) else Rejected(MacMismatch)
  {
    RunIsGood(st, bank, es);
    var issued, end := st.tables.sessions[sid], Run(st, bank, es);
    var s := end.tables.sessions[sid];
    assert SessionGood(issued, st.tables.attempts, st.now, sid) && SessionGood(s, end.tables.attempts, end.now, sid);
    assert SessionLater(issued, st.now, s, end.now);
    CheckOnSigned(crypto, issued.secret, slot, figure, s.secret, s.previous, s.rotatedAt, end.now, |s.codes|);
  }

  /** A token issued under the secret a session has now is accepted in every later state in which the
      session has not been closed in between. */
  lemma CurrentTokensAreAccepted(
      crypto: Crypto, st: St, bank: Bank, es: seq<Event>, sid: int, slot: nat, figure: nat)
    requires HasDigests(crypto) && Signable(crypto, slot, figure)
    requires Good(st) && sid in st.tables.sessions && slot < |st.tables.sessions[sid].codes|
    requires IsSubmitted(Run(st, bank, es), sid) ==> IsSubmitted(st, sid)
    ensures sid in Run(st, bank, es).tables.sessions
    ensures SignFigureToken(crypto, st.tables.sessions[sid].secret, slot, figure).Ok?
    ensures CheckInSession(crypto, SignFigureToken(crypto, st.tables.sessions[sid].secret, slot, figure).value,
                           Run(st, bank, es).tables.sessions[sid], Run(st, bank, es).now) == Accepted(slot, figure)
  {
    RunIsGood(st, bank, es);
    var issued, end := st.tables.sessions[sid], Run(st, bank, es);
    var s := end.tables.sessions[sid];
    assert SessionLater(issued, st.now, s, end.now);
    CheckOnSigned(crypto, issued.secret, slot, figure, s.secret, s.previous, s.rotatedAt, end.now, |s.codes|);
  }

  /** The secret rotates once per session: any two moments of a run at which it is submitted share
      current and previous secret, and the previous one is the secret of every open moment. */
  lemma SecretRotatesOnce(st: St, bank: Bank, es: seq<Event>, i: nat, j: nat, sid: int)
    requires Good(st) && i <= j <= |es| && sid in st.tables.sessions
    ensures var a, b := Run(st, bank, es[..i]), Run(st, bank, es[..j]);
            && sid in a.tables.sessions && sid in b.tables.sessions
            && var s, s' := a.tables.sessions[sid], b.tables.sessions[sid];
               && (s'.submittedAt.None? ==> s.submittedAt.None? && s'.secret == s.secret)
               && (s.submittedAt.Some? ==>
                     && s'.secret == s.secret && s'.previous == s.previous && s'.rotatedAt == s.rotatedAt)
               && (s.submittedAt.None? && s'.submittedAt.Some? ==> s'.previous == Some(s.secret))
  {
    assert es[..j] == es[..i] + es[i..j];
    RunConcat(st, bank, es[..i], es[i..j]);
    RunIsGood(st, bank, es[..i]);
    RunIsGood(Run(st, bank, es[..i]), bank, es[i..j]);
    assert Later(Run(st, bank, es[..i]), Run(st, bank, es[..j]));
  }
}
