/** Every step of the session protocol keeps the invariant and develops sessions in one direction. */
module SessionSafety {
  import opened Basics
  import opened Base64Url
  import opened Snapshots
  import opened SessionTables
  import opened AttemptNumbering
  import opened SessionProtocol

  // ---- the four ways a step can change the tables ----

  lemma TimePasses(t: Tables, now: int, now': int)
    requires TablesGood(t, now) && now <= now'
    ensures TablesGood(t, now') && TablesLater(t, now, t, now')
  {
  }

  lemma RowIsWritten(t: Tables, now: int, sid: int, slot: int, code: string, d: Delivery)
    requires TablesGood(t, now) && sid in t.sessions
    requires SlotInRange(t.sessions[sid].codes, slot) && code == t.sessions[sid].codes[slot]
    ensures TablesGood(WriteRow(t, sid, slot, code, d), now)
            && TablesLater(t, now, WriteRow(t, sid, slot, code, d), now)
  {
    var t' := WriteRow(t, sid, slot, code, d);
    forall sid', slot' | sid' in t'.rows && slot' in t'.rows[sid']
      ensures RowGood(t', sid', slot')
    {
      if sid' in t.rows && slot' in t.rows[sid'] {
        assert RowGood(t, sid', slot');
      }
    }
  }

  /** An update of one session row that leaves it open. */
  lemma SessionIsUpdated(t: Tables, now: int, sid: int, s': Session)
    requires TablesGood(t, now) && sid in t.sessions && t.sessions[sid].submittedAt.None?
    requires s'.submittedAt.None? && SessionLater(t.sessions[sid], now, s', now)
             && SessionGood(s', t.attempts, now, sid)
    ensures var t' := t.(sessions := t.sessions[sid := s']);
            TablesGood(t', now) && TablesLater(t, now, t', now)
  {
    var t' := t.(sessions := t.sessions[sid := s']);
    forall sid', slot | sid' in t'.rows && slot in t'.rows[sid']
      ensures RowGood(t', sid', slot)
    {
      assert RowGood(t, sid', slot);
    }
  }

  /** The tables after the one submit that closes an open session. */
  function Submitting(
      t: Tables, bank: Bank, sid: int, source: Source, violations: int, now: int, newSecret: Bytes): Tables
    requires sid in t.sessions
  {
    var s := t.sessions[sid];
    var closed := s.(submittedAt := Some(now), source := Some(source), previous := Some(s.secret),
                     secret := newSecret, rotatedAt := Some(now), violations := violations);
    t.(sessions := t.sessions[sid := closed], attempts := t.attempts + SubmitBatch(t, bank, sid, source))
  }

  lemma SubmitCloses(t: Tables, bank: Bank, sid: int, student: int, source: Source, now: int, newSecret: Bytes)
    requires OwnedAndOpen(t, sid, student)
    ensures Submit(t, bank, sid, student, source, now, newSecret)
            == (Submitting(t, bank, sid, source, t.sessions[sid].violations, now, newSecret),
                Submitted(now, source, Consecutive(|t.attempts|, |SubmitBatch(t, bank, sid, source)|)))
  {
  }

  /** The batch extends only its own session's attempts. */
  lemma BatchIsOwn(t: Tables, bank: Bank, sid: int, source: Source, other: int)
    requires sid in t.sessions
    ensures var batch := SubmitBatch(t, bank, sid, source);
            && AttemptsOf(t.attempts + batch, other)
               == AttemptsOf(t.attempts, other) + (if other == sid then batch else [])
            && IdsOf(t.attempts + batch, other)
               == IdsOf(t.attempts, other) + if other == sid then Consecutive(|t.attempts|, |batch|) else []
  {
    var batch := SubmitBatch(t, bank, sid, source);
    SubmitGradesTouchedSlots(t, bank, sid, source);
    AttemptsOfConcat(t.attempts, batch, other);
    AttemptsOfOne(batch, other, sid);
    IdsOfAppend(t.attempts, batch, other, sid);
  }

  lemma SessionIsClosed(t: Tables, bank: Bank, sid: int, source: Source, violations: int, now: int, newSecret: Bytes)
    requires TablesGood(t, now) && sid in t.sessions && t.sessions[sid].submittedAt.None? && newSecret != []
    requires t.sessions[sid].violations <= violations <= VIOLATION_THRESHOLD
    requires violations == VIOLATION_THRESHOLD ==> source == ViolationThreshold
    ensures var t' := Submitting(t, bank, sid, source, violations, now, newSecret);
            TablesGood(t', now) && TablesLater(t, now, t', now)
  {
    var t' := Submitting(t, bank, sid, source, violations, now, newSecret);
    forall other | other in t.sessions
      ensures SessionGood(t'.sessions[other], t'.attempts, now, other)
      ensures SessionLater(t.sessions[other], now, t'.sessions[other], now)
      ensures t.sessions[other].submittedAt.Some? ==> SameAttempts(t.attempts, t'.attempts, other)
    {
      BatchIsOwn(t, bank, sid, source, other);
      assert SessionGood(t.sessions[other], t.attempts, now, other);
    }
    forall sid', slot | sid' in t'.rows && slot in t'.rows[sid']
      ensures RowGood(t', sid', slot)
    {
      assert RowGood(t, sid', slot);
    }
    SubmitGradesTouchedSlots(t, bank, sid, source);
    NumberedAppend(t.attempts, SubmitBatch(t, bank, sid, source));
  }

  // ---- the violation transaction ----

  /** The violation transaction under the conditions the endpoint guarantees: it counts, closes the
      session on the third violation, and does nothing at all on a session already submitted. */
  lemma ViolationEffect(t: Tables, bank: Bank, sid: int, student: int, staleCount: int, now: int, newSecret: Bytes)
    requires TablesGood(t, now) && Owned(t, sid, student) && staleCount < VIOLATION_THRESHOLD
    ensures var s := t.sessions[sid];
            var (t', reply) := RecordViolation(t, bank, sid, student, staleCount, now, newSecret);
            if s.submittedAt.Some? then t' == t && reply == Counted(staleCount)
            else if s.violations + 1 < VIOLATION_THRESHOLD then
              && t' == t.(sessions := t.sessions[sid := s.(violations := s.violations + 1)])
              && reply == Counted(s.violations + 1)
            else
              && s.violations + 1 == VIOLATION_THRESHOLD
              && t' == Submitting(t, bank, sid, ViolationThreshold, VIOLATION_THRESHOLD, now, newSecret)
              && reply == AutoSubmitted(VIOLATION_THRESHOLD, Submitted(
                   now, ViolationThreshold, Consecutive(|t.attempts|, |SubmitBatch(t, bank, sid, ViolationThreshold)|)))
  {
    var s := t.sessions[sid];
    assert SessionGood(s, t.attempts, now, sid);
    if s.submittedAt.None? && s.violations + 1 == VIOLATION_THRESHOLD {
      var counted := t.(sessions := t.sessions[sid := s.(violations := s.violations + 1)]);
      assert SelectRows(counted, sid) == SelectRows(t, sid);
      assert SubmitBatch(counted, bank, sid, ViolationThreshold) == SubmitBatch(t, bank, sid, ViolationThreshold);
      SubmitCloses(counted, bank, sid, student, ViolationThreshold, now, newSecret);
      assert Submitting(counted, bank, sid, ViolationThreshold, VIOLATION_THRESHOLD, now, newSecret).sessions
             == Submitting(t, bank, sid, ViolationThreshold, VIOLATION_THRESHOLD, now, newSecret).sessions;
    }
  }

  lemma ViolationIsGood(t: Tables, bank: Bank, sid: int, student: int, staleCount: int, now: int, newSecret: Bytes)
    requires TablesGood(t, now) && Owned(t, sid, student) && staleCount < VIOLATION_THRESHOLD && newSecret != []
    ensures var t' := RecordViolation(t, bank, sid, student, staleCount, now, newSecret).0;
            TablesGood(t', now) && TablesLater(t, now, t', now)
  {
    var s := t.sessions[sid];
    ViolationEffect(t, bank, sid, student, staleCount, now, newSecret);
    assert SessionGood(s, t.attempts, now, sid);
    if s.submittedAt.Some? {
      TimePasses(t, now, now);
    } else if s.violations + 1 < VIOLATION_THRESHOLD {
      SessionIsUpdated(t, now, sid, s.(violations := s.violations + 1));
    } else {
      SessionIsClosed(t, bank, sid, ViolationThreshold, VIOLATION_THRESHOLD, now, newSecret);
    }
  }

  // ---- the other writes ----

  lemma SubmitIsGood(t: Tables, bank: Bank, sid: int, student: int, source: Source, now: int, newSecret: Bytes)
    requires TablesGood(t, now) && newSecret != []
    ensures var t' := Submit(t, bank, sid, student, source, now, newSecret).0;
            TablesGood(t', now) && TablesLater(t, now, t', now)
  {
    if OwnedAndOpen(t, sid, student) {
      assert SessionGood(t.sessions[sid], t.attempts, now, sid);
      SubmitCloses(t, bank, sid, student, source, now, newSecret);
      SessionIsClosed(t, bank, sid, source, t.sessions[sid].violations, now, newSecret);
    } else {
      TimePasses(t, now, now);
    }
  }

  lemma StartIsGood(t: Tables, now: int, r: Request)
    requires TablesGood(t, now) && r.Start? && RequestGood(t, now, r)
    ensures var t' := WriteStart(t, r.sid, r.startedAt, r.expiresAt);
            TablesGood(t', now) && TablesLater(t, now, t', now)
  {
    var s := t.sessions[r.sid];
    assert SessionGood(s, t.attempts, now, r.sid);
    if s.submittedAt.None? {
      SessionIsUpdated(t, now, r.sid, s.(startedAt := Some(r.startedAt), expiresAt := Some(r.expiresAt)));
    } else {
      TimePasses(t, now, now);
    }
  }

  /** The book-keeping of one entry of a late batch: an in-range one notes whether it was written,
      which is whether its session is live. */
  lemma LateNoteIsGood(t: Tables, now: int, r: Request)
    requires r.LateEntries? && RequestGood(t, now, r) && r.done < |r.entries|
    ensures var entry := r.entries[r.done];
            RequestGood(t, now, r.(done := r.done + 1,
              wrote := if SlotInRange(r.codes, entry.slot) then r.wrote + [IsLive(t.sessions[r.sid], now)]
                  else r.wrote))
  {
    assert r.entries[..r.done + 1][..r.done] == r.entries[..r.done];
    assert r.entries[..r.done + 1][r.done] == r.entries[r.done];
    NoteKeepsPrefix(r.wrote, IsLive(t.sessions[r.sid], now));
  }

  lemma NoteKeepsPrefix(wrote: seq<bool>, live: bool)
    requires IsPrefix(wrote) && (false in wrote ==> !live)
    ensures IsPrefix(wrote + [live]) && (false in wrote + [live] ==> !live)
  {
    forall i, j | 0 <= i < j < |wrote + [live]| && (wrote + [live])[j]
      ensures (wrote + [live])[i]
    {
      if j == |wrote| {
        assert wrote[i] in wrote;
      }
    }
  }

  lemma LateWriteIsGood(t: Tables, now: int, sid: int, slot: int, answer: Option<Payload>, actionSeq: int)
    requires TablesGood(t, now) && sid in t.sessions && SlotInRange(t.sessions[sid].codes, slot)
    ensures var (t', wrote) := WriteLate(t, sid, slot, t.sessions[sid].codes[slot], answer, actionSeq, now);
            && TablesGood(t', now) && TablesLater(t, now, t', now) && t'.sessions == t.sessions
            && (wrote <==> IsLive(t.sessions[sid], now))
  {
    if IsLive(t.sessions[sid], now) {
      RowIsWritten(t, now, sid, slot, t.sessions[sid].codes[slot], Late(answer, actionSeq, now));
    } else {
      TimePasses(t, now, now);
    }
  }

  lemma LateIsGood(st: St, id: int)
    requires Good(st) && id in st.reqs && st.reqs[id].LateEntries? && st.reqs[id].done < |st.reqs[id].entries|
    ensures var st' := LateNext(st, id, st.reqs[id]);
            && TablesGood(st'.tables, st'.now) && Later(st, st') && RequestGood(st'.tables, st'.now, st'.reqs[id])
  {
    var t, now, r := st.tables, st.now, st.reqs[id];
    var entry := r.entries[r.done];
    assert RequestGood(t, now, r);
    LateNoteIsGood(t, now, r);
    if SlotInRange(r.codes, entry.slot) {
      LateWriteIsGood(t, now, r.sid, entry.slot, entry.answer, entry.actionSeq);
      LaterKeepsRequest(t, now, LateNext(st, id, r).tables, now, LateNext(st, id, r).reqs[id]);
    } else {
      TimePasses(t, now, now);
    }
  }

  // ---- every step ----

  predicate IsOpening(e: Event) {
    e.OpenPatch? || e.OpenHint? || e.OpenViolation? || e.OpenLate? || e.OpenStart?
  }

  /** Opening a request, if it happens at all, adds a well-formed one and touches no table. */
  lemma OpeningEffect(st: St, bank: Bank, e: Event)
    requires Good(st) && (e.OpenPatch? || e.OpenHint?)
    ensures var st' := Next(st, bank, e);
            st' == st || (e.id !in st.reqs && e.id in st'.reqs && st' == st.(reqs := st.reqs[e.id := st'.reqs[e.id]])
                          && RequestGood(st.tables, st.now, st'.reqs[e.id]))
  {
  }

  lemma OpeningOtherEffect(st: St, bank: Bank, e: Event)
    requires Good(st) && (e.OpenViolation? || e.OpenLate? || e.OpenStart?)
    ensures var st' := Next(st, bank, e);
            st' == st || (e.id !in st.reqs && e.id in st'.reqs && st' == st.(reqs := st.reqs[e.id := st'.reqs[e.id]])
                          && RequestGood(st.tables, st.now, st'.reqs[e.id]))
  {
    if Owned(st.tables, e.sid, e.student) {
      assert SessionGood(st.tables.sessions[e.sid], st.tables.attempts, st.now, e.sid);
    }
  }

  lemma OpeningKeepsTables(st: St, bank: Bank, e: Event)
    requires IsOpening(e)
    ensures Next(st, bank, e).tables == st.tables && Next(st, bank, e).now == st.now
  {
  }

  lemma OpeningIsGood(st: St, bank: Bank, e: Event)
    requires Good(st) && IsOpening(e)
    ensures Good(Next(st, bank, e)) && Later(st, Next(st, bank, e))
  {
    TimePasses(st.tables, st.now, st.now);
    if e.OpenPatch? || e.OpenHint? {
      OpeningEffect(st, bank, e);
    } else {
      OpeningOtherEffect(st, bank, e);
    }
    StepIsGood(st, Next(st, bank, e), e.id);
  }

  /** Closing request `id` over tables that are a good development of the current ones. */
  lemma ClosingIsGood(st: St, id: int, t': Tables)
    requires Good(st) && TablesGood(t', st.now) && TablesLater(st.tables, st.now, t', st.now)
    ensures Good(Closed(st, id, t')) && Later(st, Closed(st, id, t'))
  {
    StepIsGood(st, Closed(st, id, t'), id);
  }

  lemma CommitWriteIsGood(st: St, bank: Bank, id: int)
    requires Good(st)
    ensures Good(Next(st, bank, CommitWrite(id))) && Later(st, Next(st, bank, CommitWrite(id)))
  {
    if id in st.reqs && st.reqs[id].Write? {
      var r := st.reqs[id];
      assert RequestGood(st.tables, st.now, r);
      RowIsWritten(st.tables, st.now, r.sid, r.slot, r.code, Stamp(r.d, st.now));
      ClosingIsGood(st, id, WriteRow(st.tables, r.sid, r.slot, r.code, Stamp(r.d, st.now)));
    } else {
      TimePasses(st.tables, st.now, st.now);
    }
  }

  lemma CommitViolationIsGood(st: St, bank: Bank, id: int, newSecret: Bytes)
    requires Good(st)
    ensures Good(Next(st, bank, CommitViolation(id, newSecret)))
            && Later(st, Next(st, bank, CommitViolation(id, newSecret)))
  {
    if id in st.reqs && st.reqs[id].Violate? && newSecret != [] {
      var r := st.reqs[id];
      assert RequestGood(st.tables, st.now, r);
      ViolationIsGood(st.tables, bank, r.sid, r.student, r.staleCount, st.now, newSecret);
      ClosingIsGood(st, id, RecordViolation(st.tables, bank, r.sid, r.student, r.staleCount, st.now, newSecret).0);
    } else {
      TimePasses(st.tables, st.now, st.now);
    }
  }

  lemma CommitStartIsGood(st: St, bank: Bank, id: int)
    requires Good(st)
    ensures Good(Next(st, bank, CommitStart(id))) && Later(st, Next(st, bank, CommitStart(id)))
  {
    if id in st.reqs && st.reqs[id].Start? {
      var r := st.reqs[id];
      StartIsGood(st.tables, st.now, r);
      ClosingIsGood(st, id, WriteStart(st.tables, r.sid, r.startedAt, r.expiresAt));
    } else {
      TimePasses(st.tables, st.now, st.now);
    }
  }

  lemma LateStepIsGood(st: St, bank: Bank, id: int)
    requires Good(st)
    ensures Good(Next(st, bank, LateStep(id))) && Later(st, Next(st, bank, LateStep(id)))
  {
    if id in st.reqs && st.reqs[id].LateEntries? && st.reqs[id].done < |st.reqs[id].entries| {
      LateIsGood(st, id);
      StepIsGood(st, LateNext(st, id, st.reqs[id]), id);
    } else {
      TimePasses(st.tables, st.now, st.now);
    }
  }

  lemma TickIsGood(st: St, bank: Bank, dt: nat)
    requires Good(st)
    ensures Good(Next(st, bank, Tick(dt))) && Later(st, Next(st, bank, Tick(dt)))
  {
    TimePasses(st.tables, st.now, st.now + dt);
    TablesStepIsGood(st, Next(st, bank, Tick(dt)));
  }

  lemma SubmitSessionIsGood(st: St, bank: Bank, sid: int, student: int, source: Source, newSecret: Bytes)
    requires Good(st)
    ensures var st' := Next(st, bank, SubmitSession(sid, student, source, newSecret)); Good(st') && Later(st, st')
  {
    if newSecret != [] {
      SubmitIsGood(st.tables, bank, sid, student, source, st.now, newSecret);
      TablesStepIsGood(st, Next(st, bank, SubmitSession(sid, student, source, newSecret)));
    } else {
      TimePasses(st.tables, st.now, st.now);
    }
  }

  lemma NextIsGood(st: St, bank: Bank, e: Event)
    requires Good(st)
    ensures Good(Next(st, bank, e)) && Later(st, Next(st, bank, e))
  {
    match e
    case Tick(dt) => TickIsGood(st, bank, dt);
    case CommitWrite(id) => CommitWriteIsGood(st, bank, id);
    case CommitViolation(id, newSecret) => CommitViolationIsGood(st, bank, id, newSecret);
    case CommitStart(id) => CommitStartIsGood(st, bank, id);
    case LateStep(id) => LateStepIsGood(st, bank, id);
    case SubmitSession(sid, student, source, newSecret) =>
        SubmitSessionIsGood(st, bank, sid, student, source, newSecret);
    case _ => OpeningIsGood(st, bank, e);
  }

  lemma {:induction false} RunIsGood(st: St, bank: Bank, es: seq<Event>)
    requires Good(st)
    ensures Good(Run(st, bank, es)) && Later(st, Run(st, bank, es))
    decreases |es|
  {
    if es == [] {
      TimePasses(st.tables, st.now, st.now);
    } else {
      var next := Next(st, bank, es[0]);
      NextIsGood(st, bank, es[0]);
      RunIsGood(next, bank, es[1..]);
      LaterIsTransitive(st, next, Run(next, bank, es[1..]));
    }
  }
}
