/** What one submit writes, and why attempts stay numbered without gaps. */
module AttemptNumbering {
  import opened Basics
  import opened Base64Url
  import opened Grading
  import opened Snapshots
  import opened VisitRanking
  import opened SessionTables

  /** The rows that become attempts, in slot order. */
  function Written(bank: Bank, snaps: seq<Snap>, n: nat): seq<Snap>
    requires n <= |snaps|
  {
    if n == 0 then [] else Written(bank, snaps, n - 1) + if Writes(bank, snaps[n - 1]) then [snaps[n - 1]] else []
  }

  /** Attempt `a` reports row `s`: graded, copied, ranked, and in the student's current round of the
      question's fingerprint, "R1" when none is on record. */
  ghost predicate Reports(bank: Bank, sub: Submission, snaps: seq<Snap>, s: Snap, a: Attempt) {
    && s.row.code in bank.problems
    && a.sid == sub.sid && a.student == sub.student && a.testId == sub.testId && a.source == sub.source
    && a.code == s.row.code && a.correct == GradeAnswer(bank.problems[s.row.code], s.row.answer)
    && a.time == s.row.time && a.visits == s.row.visits && a.marked == s.row.marked && a.hints == s.row.hints
    && a.visitIndex == VisitRank(snaps, s)
    && var key := (sub.student, bank.problems[s.row.code].fingerprint);
       if key in bank.rounds then a.round == bank.rounds[key] else a.round == "R1"
  }

  /** Attempt k of a batch is numbered right behind what precedes it. */
  ghost predicate NumbersOn(base: seq<Attempt>, batch: seq<Attempt>, k: nat)
    requires k < |batch|
  {
    batch[k].order == CountFor(base + batch[..k], batch[k].student, batch[k].code) + 1
  }

  ghost predicate AllReport(bank: Bank, sub: Submission, snaps: seq<Snap>, written: seq<Snap>, batch: seq<Attempt>) {
    |batch| == |written| && forall k :: 0 <= k < |batch| ==> Reports(bank, sub, snaps, written[k], batch[k])
  }

  ghost predicate AllNumberOn(base: seq<Attempt>, batch: seq<Attempt>) {
    forall k :: 0 <= k < |batch| ==> NumbersOn(base, batch, k)
  }

  lemma OneMoreNumbersOn(base: seq<Attempt>, before: seq<Attempt>, a: Attempt)
    requires AllNumberOn(base, before) && a.order == CountFor(base + before, a.student, a.code) + 1
    ensures AllNumberOn(base, before + [a])
  {
    var batch := before + [a];
    forall k | 0 <= k < |batch|
      ensures NumbersOn(base, batch, k)
    {
      if k < |before| {
        assert NumbersOn(base, before, k) && batch[..k] == before[..k];
      } else {
        assert batch[..k] == before;
      }
    }
  }

  lemma {:induction false} BatchReportsWritten(
      bank: Bank, sub: Submission, snaps: seq<Snap>, base: seq<Attempt>, n: nat)
    requires n <= |snaps|
    ensures AllReport(bank, sub, snaps, Written(bank, snaps, n), BatchUpTo(bank, sub, snaps, base, n))
    ensures AllNumberOn(base, BatchUpTo(bank, sub, snaps, base, n))
    decreases n
  {
    if n > 0 {
      BatchReportsWritten(bank, sub, snaps, base, n - 1);
      var before, s := BatchUpTo(bank, sub, snaps, base, n - 1), snaps[n - 1];
      if Writes(bank, s) {
        OneMoreNumbersOn(base, before,
          AttemptFor(bank, sub, s, CountFor(base + before, sub.student, s.row.code) + 1, VisitRank(snaps, s)));
      }
    }
  }

  lemma {:induction false} WrittenSelects(bank: Bank, snaps: seq<Snap>, n: nat)
    requires n <= |snaps| && BySlot(snaps)
    ensures BySlot(Written(bank, snaps, n))
    ensures forall s :: s in Written(bank, snaps, n) <==> s in snaps[..n] && Writes(bank, s)
    decreases n
  {
    if n > 0 {
      WrittenSelects(bank, snaps, n - 1);
      assert snaps[..n] == snaps[..n - 1] + [snaps[n - 1]];
      var before := Written(bank, snaps, n - 1);
      forall i | 0 <= i < |before|
        ensures before[i].slot < snaps[n - 1].slot
      {
        assert before[i] in before && before[i] in snaps[..n - 1];
      }
    }
  }

  /** The batch of a submit: one attempt per touched slot with a known problem, in slot order,
      each reporting its row and numbered behind the student's earlier attempts. */
  lemma SubmitGradesTouchedSlots(t: Tables, bank: Bank, sid: int, source: Source)
    requires sid in t.sessions
    ensures var s := t.sessions[sid];
            var sub, snaps, batch := Submission(sid, s.student, s.testId, source), SelectRows(t, sid),
                SubmitBatch(t, bank, sid, source);
            var written := Written(bank, snaps, |snaps|);
            && BySlot(snaps) && BySlot(written)
            && (forall x :: x in written <==> x in snaps && Writes(bank, x))
            && |batch| == |written|
            && (forall k :: 0 <= k < |batch| ==> Reports(bank, sub, snaps, written[k], batch[k]))
            && (forall k :: 0 <= k < |batch| ==> NumbersOn(t.attempts, batch, k))
            && (forall a :: a in batch ==> a.sid == sid && a.student == s.student)
  {
    var s := t.sessions[sid];
    var snaps := SelectRows(t, sid);
    RowsFromAreInRange(RowsOfSession(t, sid), |s.codes|);
    BatchReportsWritten(bank, Submission(sid, s.student, s.testId, source), snaps, t.attempts, |snaps|);
    WrittenSelects(bank, snaps, |snaps|);
    assert snaps[..|snaps|] == snaps;
  }

  /** A slot of the session was visited, answered or helped, and its question is known. */
  ghost predicate Touched(bank: Bank, rows: map<int, Row>, slots: nat, slot: int) {
    && 0 <= slot < slots && slot in rows && rows[slot].code in bank.problems
    && (rows[slot].visits != 0 || rows[slot].answer.Some? || rows[slot].hints != 0)
  }

  /** The attempt carries over what the row holds; without an answer it is not correct. */
  ghost predicate CarriesOver(bank: Bank, row: Row, a: Attempt) {
    && row.code in bank.problems && a.code == row.code
    && a.correct == GradeAnswer(bank.problems[row.code], row.answer) && (row.answer.None? ==> !a.correct)
    && a.time == row.time && a.visits == row.visits && a.marked == row.marked && a.hints == row.hints
  }

  /** The attempts are those of the touched slots, one for each, in slot order. */
  ghost predicate OnePerTouchedSlot(
      bank: Bank, rows: map<int, Row>, slots: nat, attempts: seq<Attempt>, at: seq<int>)
  {
    && |at| == |attempts|
    && (forall slot :: slot in at <==> Touched(bank, rows, slots, slot))
    && (forall j, k :: 0 <= j < k < |at| ==> at[j] < at[k])
    && (forall k :: 0 <= k < |at| ==> at[k] in rows && CarriesOver(bank, rows[at[k]], attempts[k]))
  }

  /** A submit writes an attempt for a stored row of the session if and only if the row was visited,
      answered or helped and its question is known; exactly one for each. */
  lemma TouchedSlotsLeaveAttempts(t: Tables, bank: Bank, sid: int, source: Source) returns (at: seq<int>)
    requires sid in t.sessions
    ensures OnePerTouchedSlot(bank, RowsOfSession(t, sid), |t.sessions[sid].codes|,
                              SubmitBatch(t, bank, sid, source), at)
  {
    var rows, snaps, batch := RowsOfSession(t, sid), SelectRows(t, sid), SubmitBatch(t, bank, sid, source);
    var written := Written(bank, snaps, |snaps|);
    SubmitGradesTouchedSlots(t, bank, sid, source);
    RowsFromAreInRange(rows, |t.sessions[sid].codes|);
    at := seq(|written|, k requires 0 <= k < |written| => written[k].slot);
    forall slot
      ensures slot in at <==> Touched(bank, rows, |t.sessions[sid].codes|, slot)
    {
      if Touched(bank, rows, |t.sessions[sid].codes|, slot) {
        assert Snap(slot, rows[slot]) in written;
        var k :| 0 <= k < |written| && written[k] == Snap(slot, rows[slot]);
        assert at[k] == slot;
      }
      if slot in at {
        var k :| 0 <= k < |at| && at[k] == slot;
        assert written[k] in written;
      }
    }
    forall k | 0 <= k < |at|
      ensures at[k] in rows && CarriesOver(bank, rows[at[k]], batch[k])
    {
      assert written[k] in written && written[k] in snaps;
    }
  }

  // ---- numbering ----

  /** Every attempt is numbered by its place among its student's attempts at its question. */
  ghost predicate Numbered(attempts: seq<Attempt>) {
    forall i :: 0 <= i < |attempts| ==> NumbersOn([], attempts, i)
  }

  lemma CountForConcat(xs: seq<Attempt>, ys: seq<Attempt>, student: int, code: string)
    ensures CountFor(xs + ys, student, code) == CountFor(xs, student, code) + CountFor(ys, student, code)
  {
    CountConcat(IsAttemptOf(student, code), xs, ys);
  }

  lemma NumberedAppend(base: seq<Attempt>, batch: seq<Attempt>)
    requires Numbered(base)
    ensures Numbered(base + batch) <==> forall k :: 0 <= k < |batch| ==> NumbersOn(base, batch, k)
  {
    var all := base + batch;
    forall i | 0 <= i < |base|
      ensures NumbersOn([], all, i)
    {
      assert NumbersOn([], base, i) && [] + all[..i] == [] + base[..i];
    }
    forall k | 0 <= k < |batch|
      ensures NumbersOn([], all, |base| + k) <==> NumbersOn(base, batch, k)
    {
      assert [] + all[..|base| + k] == base + batch[..k];
    }
    if forall k :: 0 <= k < |batch| ==> NumbersOn(base, batch, k) {
      forall i | 0 <= i < |all|
        ensures NumbersOn([], all, i)
      {
        if i >= |base| {
          assert NumbersOn(base, batch, i - |base|);
        }
      }
    }
  }

  /** A submit keeps the table numbered: over any sequence of them, numbering never breaks. */
  lemma SubmitKeepsNumbering(
      t: Tables, bank: Bank, sid: int, student: int, source: Source, now: int, newSecret: Bytes)
    requires Numbered(t.attempts)
    ensures Numbered(Submit(t, bank, sid, student, source, now, newSecret).0.attempts)
  {
    if sid in t.sessions {
      SubmitGradesTouchedSlots(t, bank, sid, source);
      NumberedAppend(t.attempts, SubmitBatch(t, bank, sid, source));
    }
  }

  ghost predicate HasOrder(attempts: seq<Attempt>, student: int, code: string, order: int) {
    exists a :: a in attempts && a.student == student && a.code == code && a.order == order
  }

  lemma NumberedPrefix(attempts: seq<Attempt>, n: nat)
    requires Numbered(attempts) && n <= |attempts|
    ensures Numbered(attempts[..n])
  {
    forall i | 0 <= i < n
      ensures NumbersOn([], attempts[..n], i)
    {
      assert NumbersOn([], attempts, i) && attempts[..n][..i] == attempts[..i];
    }
  }

  lemma OrderIsPlace(attempts: seq<Attempt>, i: nat)
    requires Numbered(attempts) && i < |attempts|
    ensures attempts[i].order == CountFor(attempts[..i], attempts[i].student, attempts[i].code) + 1
  {
    assert NumbersOn([], attempts, i) && [] + attempts[..i] == attempts[..i];
  }

  /** In a numbered table the orders of one student's attempts at one question are exactly 1..n, ... */
  lemma {:induction false} OrdersAreGapFree(attempts: seq<Attempt>, student: int, code: string)
    requires Numbered(attempts)
    ensures forall order :: HasOrder(attempts, student, code, order) <==>
            1 <= order <= CountFor(attempts, student, code)
    decreases |attempts|
  {
    if attempts != [] {
      var n, last := |attempts| - 1, attempts[|attempts| - 1];
      var init := attempts[..n];
      NumberedPrefix(attempts, n);
      OrdersAreGapFree(init, student, code);
      OrderIsPlace(attempts, n);
      assert attempts == init + [last];
      forall order
        ensures HasOrder(attempts, student, code, order) <==>
                HasOrder(init, student, code, order)
                    || (last.student == student && last.code == code && last.order == order)
      {
        assert forall a :: a in attempts <==> a in init || a == last;
      }
    }
  }

  /** ... each used once, in the order of writing. */
  lemma OrdersNeverRepeat(attempts: seq<Attempt>, i: nat, j: nat)
    requires Numbered(attempts) && i < j < |attempts|
    requires attempts[i].student == attempts[j].student && attempts[i].code == attempts[j].code
    ensures attempts[i].order < attempts[j].order
  {
    var student, code := attempts[i].student, attempts[i].code;
    OrderIsPlace(attempts, i);
    OrderIsPlace(attempts, j);
    assert attempts[..j] == attempts[..i] + [attempts[i]] + attempts[i + 1..j];
    CountForConcat(attempts[..i] + [attempts[i]], attempts[i + 1..j], student, code);
    assert (attempts[..i] + [attempts[i]])[..i] == attempts[..i];
  }

  /** The lock of a submit covers its own session only. A batch numbered against `seen` and
      written behind attempts of the same student that came later keeps the numbering if and only
      if none of those was at one of its questions. */
  lemma StaleBatchNumberedIff(bank: Bank, sub: Submission, snaps: seq<Snap>, seen: seq<Attempt>, later: seq<Attempt>)
    requires Numbered(seen + later)
    ensures var batch := Batch(bank, sub, snaps, seen);
            Numbered(seen + later + batch) <==> forall a :: a in batch ==> CountFor(later, a.student, a.code) == 0
  {
    var batch := Batch(bank, sub, snaps, seen);
    BatchReportsWritten(bank, sub, snaps, seen, |snaps|);
    NumberedAppend(seen + later, batch);
    forall k | 0 <= k < |batch|
      ensures NumbersOn(seen + later, batch, k) <==> CountFor(later, batch[k].student, batch[k].code) == 0
    {
      assert NumbersOn(seen, batch, k);
      CountForConcat(seen, batch[..k], batch[k].student, batch[k].code);
      CountForConcat(seen, later, batch[k].student, batch[k].code);
      CountForConcat(seen + later, batch[..k], batch[k].student, batch[k].code);
    }
  }

  /** One failing input: two sessions of a student, each numbered against the same empty table, write
      the same question, and both attempts are number 1. */
  lemma ParallelSubmitsRepeatANumber(bank: Bank, first: Submission, second: Submission, s: Snap)
    requires Writes(bank, s) && first.student == second.student
    ensures var a, b := Batch(bank, first, [s], []), Batch(bank, second, [s], []);
            && |a| == 1 && |b| == 1 && a[0].order == 1 && b[0].order == 1 && a[0].code == b[0].code
            && !Numbered([] + a + b)
  {
    var a, b := Batch(bank, first, [s], []), Batch(bank, second, [s], []);
    assert BatchUpTo(bank, first, [s], [], 0) == [] && BatchUpTo(bank, second, [s], [], 0) == [];
    assert Numbered([] + a) by {
      assert [] + a == a && [] + a[..0] == [];
      assert NumbersOn([], a, 0);
    }
    StaleBatchNumberedIff(bank, second, [s], [], a);
    assert a[..0] == [];
    assert b[0] in b && CountFor(a, b[0].student, b[0].code) == 1;
  }
}
