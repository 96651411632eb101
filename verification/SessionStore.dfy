/** The session service run against its tables, one request at a time. The step-by-step code of
    each endpoint is proved to have the atomic effect given in SessionTables.dfy. */
module SessionStore {
  import opened Basics
  import opened Base64Url
  import opened Snapshots
  import opened Grading
  import opened VisitRanking
  import opened SessionTables
  import opened AttemptNumbering

  function GetOr<K, V>(m: map<K, V>, k: K, default: V): V {
    if k in m then m[k] else default
  }

  /** Sort a copy by last action and remember each slot's position. */
  method RankVisits(snapshots: seq<Snap>) returns (visitIndex: map<int, nat>)
    requires BySlot(snapshots)
    ensures forall s :: s in snapshots ==> s.slot in visitIndex && visitIndex[s.slot] == VisitRank(snapshots, s)
  {
    var sorted := SortByAction(snapshots);
    SortOrders(snapshots);
    SameMembers(sorted, snapshots);
    visitIndex := map[];
    for idx := 0 to |sorted|
      invariant forall j :: 0 <= j < idx ==> sorted[j].slot in visitIndex && visitIndex[sorted[j].slot] == j + 1
    {
      forall j | 0 <= j < idx
        ensures sorted[j].slot != sorted[idx].slot
      {
        SlotsAreDistinct(snapshots, sorted[j], sorted[idx]);
      }
      visitIndex := visitIndex[sorted[idx].slot := idx + 1];
    }
    forall s | s in snapshots
      ensures s.slot in visitIndex && visitIndex[s.slot] == VisitRank(snapshots, s)
    {
      var k := RankedAt(snapshots, s);
    }
  }

  lemma SlotsAreDistinct(snapshots: seq<Snap>, s: Snap, t: Snap)
    requires BySlot(snapshots) && s in snapshots && t in snapshots && Precedes(s, t)
    ensures s.slot != t.slot
  {
    var i :| 0 <= i < |snapshots| && snapshots[i] == s;
    var j :| 0 <= j < |snapshots| && snapshots[j] == t;
  }

  /** SELECT question_code, COUNT(*) ... GROUP BY question_code: codes without attempts are absent. */
  function PriorCounts(table: seq<Attempt>, student: int, snapshots: seq<Snap>): map<string, nat> {
    map s | s in snapshots && CountFor(table, student, s.row.code) > 0 ::
        s.row.code := CountFor(table, student, s.row.code)
  }

  /** `tally` counts the student's attempts per question within a batch. */
  ghost predicate Tallies(tally: map<string, nat>, batch: seq<Attempt>, student: int) {
    forall code :: GetOr(tally, code, 0) == CountFor(batch, student, code)
  }

  /** The loop of the pipeline after `i` rows: the table, the ids handed out and the running tally. */
  ghost predicate Inserted(
      bank: Bank, sub: Submission, snapshots: seq<Snap>, table: seq<Attempt>, i: nat,
      grown: seq<Attempt>, attemptIds: seq<nat>, tally: map<string, nat>)
    requires i <= |snapshots|
  {
    var batch := BatchUpTo(bank, sub, snapshots, table, i);
    grown == table + batch && attemptIds == Consecutive(|table|, |batch|) && Tallies(tally, batch, sub.student)
  }

  /** Grade and insert the written rows; repeated questions of one batch count up from each other. */
  method InsertAttempts(bank: Bank, sub: Submission, snapshots: seq<Snap>, table: seq<Attempt>)
      returns (grown: seq<Attempt>, attemptIds: seq<nat>)
    requires BySlot(snapshots)
    ensures grown == table + Batch(bank, sub, snapshots, table)
    ensures attemptIds == Consecutive(|table|, |Batch(bank, sub, snapshots, table)|)
  {
    var visitIndex := RankVisits(snapshots);
    var priorByCode := PriorCounts(table, sub.student, snapshots);
    var inBatchSeqByCode: map<string, nat> := map[];
    grown, attemptIds := table, [];
    NothingInserted(bank, sub, snapshots, table);
    for i := 0 to |snapshots|
      invariant Inserted(bank, sub, snapshots, table, i, grown, attemptIds, inBatchSeqByCode)
    {
      var snap := snapshots[i];
      if (snap.row.visits == 0 && snap.row.answer.None? && snap.row.hints == 0) || snap.row.code !in bank.problems {
        RowSkipped(bank, sub, snapshots, table, i, grown, attemptIds, inBatchSeqByCode);
        continue;
      }
      var code := snap.row.code;
      var prior := GetOr(priorByCode, code, 0);
      PriorCountIs(table, sub.student, snapshots, snap);
      grown, attemptIds, inBatchSeqByCode :=
        InsertRow(bank, sub, snapshots, table, i, grown, attemptIds, inBatchSeqByCode, prior, visitIndex[snap.slot]);
    }
  }

  /** One written row: number it behind the prior attempts and those of this batch, then insert it. */
  method InsertRow(
      bank: Bank, sub: Submission, snapshots: seq<Snap>, ghost table: seq<Attempt>, i: nat,
      before: seq<Attempt>, ids: seq<nat>, tally: map<string, nat>, prior: nat, visit: nat)
      returns (grown: seq<Attempt>, attemptIds: seq<nat>, inBatchSeqByCode: map<string, nat>)
    requires i < |snapshots| && Writes(bank, snapshots[i])
    requires Inserted(bank, sub, snapshots, table, i, before, ids, tally)
    requires prior == CountFor(table, sub.student, snapshots[i].row.code) && visit == VisitRank(snapshots, snapshots[i])
    ensures Inserted(bank, sub, snapshots, table, i + 1, grown, attemptIds, inBatchSeqByCode)
  {
    var snap := snapshots[i];
    var code := snap.row.code;
    var inBatchSeq := GetOr(tally, code, 0);
    inBatchSeqByCode := tally[code := inBatchSeq + 1];
    var attempt := AttemptFor(bank, sub, snap, prior + inBatchSeq + 1, visit);
    RowInserted(bank, sub, snapshots, table, i, before, ids, tally, attempt);
    grown := before + [attempt];
    attemptIds := ids + [|before|];
  }

  lemma NothingInserted(bank: Bank, sub: Submission, snapshots: seq<Snap>, table: seq<Attempt>)
    ensures Inserted(bank, sub, snapshots, table, 0, table, [], map[])
  {
    assert table + [] == table;
  }

  lemma RowSkipped(
      bank: Bank, sub: Submission, snapshots: seq<Snap>, table: seq<Attempt>, i: nat,
      grown: seq<Attempt>, attemptIds: seq<nat>, tally: map<string, nat>)
    requires i < |snapshots| && !Writes(bank, snapshots[i])
    requires Inserted(bank, sub, snapshots, table, i, grown, attemptIds, tally)
    ensures Inserted(bank, sub, snapshots, table, i + 1, grown, attemptIds, tally)
  {
    assert BatchUpTo(bank, sub, snapshots, table, i + 1) == BatchUpTo(bank, sub, snapshots, table, i);
  }

  lemma RowInserted(
      bank: Bank, sub: Submission, snapshots: seq<Snap>, table: seq<Attempt>, i: nat,
      grown: seq<Attempt>, attemptIds: seq<nat>, tally: map<string, nat>, attempt: Attempt)
    requires i < |snapshots| && Writes(bank, snapshots[i])
    requires Inserted(bank, sub, snapshots, table, i, grown, attemptIds, tally)
    requires var s := snapshots[i];
             var order := CountFor(table, sub.student, s.row.code) + GetOr(tally, s.row.code, 0) + 1;
             attempt == AttemptFor(bank, sub, s, order, VisitRank(snapshots, s))
    ensures Inserted(bank, sub, snapshots, table, i + 1, grown + [attempt], attemptIds + [|grown|],
                     tally[attempt.code := GetOr(tally, attempt.code, 0) + 1])
  {
    var batch := BatchUpTo(bank, sub, snapshots, table, i);
    BatchGrows(bank, sub, snapshots, table, i, CountFor(table, sub.student, attempt.code),
        GetOr(tally, attempt.code, 0), attempt);
    TallyGrows(tally, batch, sub.student, attempt);
    assert grown + [attempt] == table + (batch + [attempt]);
    assert attemptIds + [|grown|] == Consecutive(|table|, |batch| + 1);
  }

  lemma TallyGrows(tally: map<string, nat>, batch: seq<Attempt>, student: int, a: Attempt)
    requires Tallies(tally, batch, student) && a.student == student
    ensures Tallies(tally[a.code := GetOr(tally, a.code, 0) + 1], batch + [a], student)
  {
    assert (batch + [a])[..|batch|] == batch;
    forall code
      ensures CountFor(batch + [a], student, code) == CountFor(batch, student, code) + if a.code == code then 1 else 0
      ensures GetOr(tally, code, 0) == CountFor(batch, student, code)
    {
    }
  }

  lemma PriorCountIs(table: seq<Attempt>, student: int, snapshots: seq<Snap>, snap: Snap)
    requires snap in snapshots
    ensures GetOr(PriorCounts(table, student, snapshots), snap.row.code, 0) == CountFor(table, student, snap.row.code)
  {
  }

  lemma BatchGrows(
      bank: Bank, sub: Submission, snapshots: seq<Snap>, table: seq<Attempt>, i: nat, prior: nat, inBatchSeq: nat,
      attempt: Attempt)
    requires i < |snapshots| && Writes(bank, snapshots[i])
    requires var s, before := snapshots[i], BatchUpTo(bank, sub, snapshots, table, i);
             && prior == CountFor(table, sub.student, s.row.code)
             && inBatchSeq == CountFor(before, sub.student, s.row.code)
             && attempt == AttemptFor(bank, sub, s, prior + inBatchSeq + 1, VisitRank(snapshots, s))
    ensures BatchUpTo(bank, sub, snapshots, table, i + 1) == BatchUpTo(bank, sub, snapshots, table, i) + [attempt]
  {
    CountForConcat(table, BatchUpTo(bank, sub, snapshots, table, i), sub.student, snapshots[i].row.code);
  }

  class SessionStore {
    const bank: Bank
    var sessions: map<int, Session>
    var rows: map<int, map<int, Row>>
    var attempts: seq<Attempt>

    function State(): Tables
      reads this
    {
      Tables(sessions, rows, attempts)
    }

    constructor (bank: Bank, tables: Tables)
      ensures State() == tables && this.bank == bank
    {
      this.bank := bank;
      sessions, rows, attempts := tables.sessions, tables.rows, tables.attempts;
    }

    /** The inner submit pipeline, under the row lock of the session. */
    method RunSubmitInTransaction(sid: int, student: int, source: Source, now: int, newSecret: Bytes)
        returns (reply: SubmitReply)
      modifies this
      ensures (State(), reply) == Submit(old(State()), bank, sid, student, source, now, newSecret)
    {
      if sid !in sessions {
        return SessionNotFound;
      }
      var session := sessions[sid];
      if session.student != student {
        return NotOwner;
      }
      if session.submittedAt.Some? {
        return Submitted(session.submittedAt.value, OrElse(session.source, source), IdsOf(attempts, sid));
      }
      var snapshots := SelectRows(State(), sid);
      RowsFromAreInRange(RowsOf(rows, sid), |session.codes|);
      var ids: seq<nat>;
      attempts, ids := InsertAttempts(bank, Submission(sid, session.student, session.testId, source), snapshots,
          attempts);
      sessions := sessions[sid := session.(
        submittedAt := Some(now), source := Some(source), previous := Some(session.secret),
        secret := newSecret, rotatedAt := Some(now))];
      reply := Submitted(now, source, ids);
    }

    /** The violation transaction; `staleCount` was read before it started. */
    method LogViolation(sid: int, student: int, staleCount: int, now: int, newSecret: Bytes)
        returns (reply: ViolationReply)
      modifies this
      ensures (State(), reply) == RecordViolation(old(State()), bank, sid, student, staleCount, now, newSecret)
    {
      var count, before := staleCount, sessions;
      if sid in sessions && sessions[sid].submittedAt.None? {
        count := sessions[sid].violations + 1;
        sessions := sessions[sid := sessions[sid].(violations := count)];
      }
      if count < VIOLATION_THRESHOLD {
        return Counted(count);
      }
      var inner := RunSubmitInTransaction(sid, student, ViolationThreshold, now, newSecret);
      if inner.Submitted? {
        return AutoSubmitted(count, inner);
      }
      sessions := before;
      reply := RolledBack(inner);
    }

    /** The START update of a session, with times computed from an earlier read: it reaches no session
        but an open one, and of that one only the times. */
    method StartSession(sid: int, startedAt: int, expiresAt: int)
      modifies this`sessions
      ensures State() == WriteStart(old(State()), sid, startedAt, expiresAt)
      ensures sessions.Keys == old(sessions).Keys
      ensures forall other :: other in sessions && other != sid ==> sessions[other] == old(sessions)[other]
      ensures sid in sessions && old(sessions)[sid].submittedAt.Some? ==> sessions[sid] == old(sessions)[sid]
      ensures sid in sessions && old(sessions)[sid].submittedAt.None? ==>
                && sessions[sid].startedAt == Some(startedAt) && sessions[sid].expiresAt == Some(expiresAt)
                && sessions[sid].(startedAt := None, expiresAt := None)
                   == old(sessions)[sid].(startedAt := None, expiresAt := None)
    {
      if sid in sessions && sessions[sid].submittedAt.None? {
        sessions := sessions[sid := sessions[sid].(startedAt := Some(startedAt), expiresAt := Some(expiresAt))];
      }
    }

    /** The UPSERT of a telemetry snapshot or a hint reveal; nothing gates it any more. It touches one
        row of one session, and there it merges latest-wins: a patch or reveal acts on the row's view. */
    method PatchRow(sid: int, slot: int, code: string, d: Delivery)
      modifies this`rows
      ensures State() == WriteRow(old(State()), sid, slot, code, d)
      ensures rows.Keys == old(rows).Keys + {sid} && rows[sid].Keys == RowsOf(old(rows), sid).Keys + {slot}
      ensures forall other :: other in rows && other != sid ==> rows[other] == old(rows)[other]
      ensures forall other :: other in rows[sid] && other != slot ==> rows[sid][other] == RowsOf(old(rows), sid)[other]
      ensures !d.Late? && WellFormed(d) && ViewOf(RowAt(old(rows), sid, slot)).visits >= 0 ==>
                ViewOf(RowAt(rows, sid, slot)) == ViewStep(ViewOf(RowAt(old(rows), sid, slot)), d)
    {
      var table := if sid in rows then rows[sid] else map[];
      var stored := if slot in table then Some(table[slot]) else None;
      rows := rows[sid := table[slot := Upsert(stored, code, d)]];
    }

    /** A batch of late snapshots without interference, each entry at its own time; `codes` was read with
        the session. */
    method LateSnapshots(sid: int, codes: seq<string>, entries: seq<LateEntry>, clock: seq<int>)
        returns (recorded: nat, scored: nat)
      requires |clock| == |entries|
      modifies this`rows
      ensures recorded == |entries|
      ensures State() == LateBatch(old(State()), sid, codes, entries, clock).0
      ensures scored == LateBatch(old(State()), sid, codes, entries, clock).1
    {
      recorded, scored := 0, 0;
      for i := 0 to |entries|
        invariant recorded == i
        invariant (State(), scored) == LateBatch(old(State()), sid, codes, entries[..i], clock[..i])
        invariant sessions == old(sessions) && attempts == old(attempts)
      {
        var entry := entries[i];
        assert entries[..i + 1][..i] == entries[..i] && clock[..i + 1][..i] == clock[..i];
        recorded := recorded + 1;
        if SlotInRange(codes, entry.slot) {
          if sid in sessions && IsLive(sessions[sid], clock[i]) {
            PatchRow(sid, entry.slot, codes[entry.slot], Late(entry.answer, entry.actionSeq, clock[i]));
            scored := scored + 1;
          }
        }
      }
      assert entries[..|entries|] == entries && clock[..|entries|] == clock;
    }
  }
}
