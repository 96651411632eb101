/** The database tables of the session service and the effect of each statement or transaction
    that writes them, as one atomic step. */
module SessionTables {
  import opened Basics
  import opened Base64Url
  import opened Snapshots
  import opened Grading
  import opened VisitRanking

  datatype Source = TimerExpiry | ViolationThreshold | NetworkFailureFallback | Manual

  datatype Session = Session(
    student: int,
    testId: int,
    codes: seq<string>,
    secret: Bytes,
    previous: Option<Bytes>,
    rotatedAt: Option<int>,
    startedAt: Option<int>,
    expiresAt: Option<int>,
    submittedAt: Option<int>,
    source: Option<Source>,
    violations: int)

  datatype Attempt = Attempt(
    sid: int,
    student: int,
    code: string,
    testId: int,
    correct: bool,
    time: int,
    visits: int,
    marked: bool,
    order: int,
    visitIndex: int,
    round: string,
    hints: int,
    source: Source)

  /** An attempt's id is its position in the append-only table. */
  datatype Tables = Tables(sessions: map<int, Session>, rows: map<int, map<int, Row>>, attempts: seq<Attempt>)

  /** Reference data that no request writes. */
  datatype Bank = Bank(problems: map<string, Problem>, rounds: map<(int, string), string>)

  const VIOLATION_THRESHOLD := 3
  const FIRST_ROUND := "R1"

  // ---- reading ----

  function RowsFrom(rows: map<int, Row>, slots: nat): seq<Snap> {
    if slots == 0 then []
    else RowsFrom(rows, slots - 1) + if slots - 1 in rows then [Snap(slots - 1, rows[slots - 1])] else []
  }

  function RowsOf(rows: map<int, map<int, Row>>, sid: int): map<int, Row> {
    if sid in rows then rows[sid] else map[]
  }

  function RowsOfSession(t: Tables, sid: int): map<int, Row> {
    RowsOf(t.rows, sid)
  }

  function RowAt(rows: map<int, map<int, Row>>, sid: int, slot: int): Option<Row> {
    if slot in RowsOf(rows, sid) then Some(RowsOf(rows, sid)[slot]) else None
  }

  function StoredRow(t: Tables, sid: int, slot: int): Option<Row> {
    RowAt(t.rows, sid, slot)
  }

  /** The session's snapshot rows, in slot order. */
  function SelectRows(t: Tables, sid: int): seq<Snap>
    requires sid in t.sessions
  {
    RowsFrom(RowsOfSession(t, sid), |t.sessions[sid].codes|)
  }

  function IsAttemptOf(student: int, code: string): Attempt -> bool {
    (a: Attempt) => a.student == student && a.code == code
  }

  /** How often the student has attempted the question. */
  function CountFor(attempts: seq<Attempt>, student: int, code: string): nat {
    Count(IsAttemptOf(student, code), attempts)
  }

  function AttemptsOf(attempts: seq<Attempt>, sid: int): seq<Attempt>
    decreases |attempts|
  {
    if attempts == [] then []
    else
      var last := attempts[|attempts| - 1];
      AttemptsOf(attempts[..|attempts| - 1], sid) + if last.sid == sid then [last] else []
  }

  function IdsOf(attempts: seq<Attempt>, sid: int): seq<nat>
    decreases |attempts|
  {
    if attempts == [] then []
    else
      var last := attempts[|attempts| - 1];
      IdsOf(attempts[..|attempts| - 1], sid) + if last.sid == sid then [|attempts| - 1 as nat] else []
  }

  // ---- the submit transaction ----

  /** A slot without visits, answer or hints leaves no attempt; neither does an unknown problem. */
  predicate Writes(bank: Bank, s: Snap) {
    !(s.row.visits == 0 && s.row.answer.None? && s.row.hints == 0) && s.row.code in bank.problems
  }

  /** What every attempt of one submit shares. */
  datatype Submission = Submission(sid: int, student: int, testId: int, source: Source)

  function AttemptFor(bank: Bank, sub: Submission, s: Snap, order: int, visitIndex: int): Attempt
    requires s.row.code in bank.problems
  {
    var problem := bank.problems[s.row.code];
    var key := (sub.student, problem.fingerprint);
    Attempt(sub.sid, sub.student, s.row.code, sub.testId, GradeAnswer(problem, s.row.answer),
            s.row.time, s.row.visits, s.row.marked, order, visitIndex,
            if key in bank.rounds then bank.rounds[key] else FIRST_ROUND, s.row.hints, sub.source)
  }

  /** The attempts of the first n rows: each is numbered behind everything the student already has. */
  function BatchUpTo(bank: Bank, sub: Submission, snaps: seq<Snap>, base: seq<Attempt>, n: nat): seq<Attempt>
    requires n <= |snaps|
  {
    if n == 0 then []
    else
      var before, s := BatchUpTo(bank, sub, snaps, base, n - 1), snaps[n - 1];
      if !Writes(bank, s) then before
      else before + [AttemptFor(bank, sub, s, CountFor(base + before, sub.student, s.row.code) + 1,
              VisitRank(snaps, s))]
  }

  function Batch(bank: Bank, sub: Submission, snaps: seq<Snap>, base: seq<Attempt>): seq<Attempt> {
    BatchUpTo(bank, sub, snaps, base, |snaps|)
  }

  datatype SubmitReply = Submitted(at: int, source: Source, ids: seq<nat>) | SessionNotFound | NotOwner

  function Consecutive(from: nat, n: nat): (ids: seq<nat>)
    ensures |ids| == n && forall i :: 0 <= i < n ==> ids[i] == from + i
  {
    seq(n, i => from + i)
  }

  function SubmitBatch(t: Tables, bank: Bank, sid: int, source: Source): seq<Attempt>
    requires sid in t.sessions
  {
    var s := t.sessions[sid];
    Batch(bank, Submission(sid, s.student, s.testId, source), SelectRows(t, sid), t.attempts)
  }

  function Submit(
      t: Tables, bank: Bank, sid: int, student: int, source: Source, now: int, newSecret: Bytes)
      : (Tables, SubmitReply)
  {
    if sid !in t.sessions then (t, SessionNotFound)
    else
      var s := t.sessions[sid];
      if s.student != student then (t, NotOwner)
      else if s.submittedAt.Some? then
        (t, Submitted(s.submittedAt.value, OrElse(s.source, source), IdsOf(t.attempts, sid)))
      else
        var batch := SubmitBatch(t, bank, sid, source);
        var closed := s.(submittedAt := Some(now), source := Some(source), previous := Some(s.secret),
                         secret := newSecret, rotatedAt := Some(now));
        (t.(sessions := t.sessions[sid := closed], attempts := t.attempts + batch),
         Submitted(now, source, Consecutive(|t.attempts|, |batch|)))
  }

  // ---- the violation transaction ----

  datatype ViolationReply =
    | Counted(count: int)
    | AutoSubmitted(count: int, reply: SubmitReply)
    | RolledBack(error: SubmitReply)

  /** Count the violation if the session is still open, otherwise fall back to the count read
      before the transaction; submit when the threshold is reached. A failing submit undoes the count. */
  function RecordViolation(
      t: Tables, bank: Bank, sid: int, student: int, staleCount: int, now: int, newSecret: Bytes)
      : (Tables, ViolationReply)
  {
    var open := sid in t.sessions && t.sessions[sid].submittedAt.None?;
    var counted :=
      if open then t.(sessions := t.sessions[sid := t.sessions[sid].(violations := t.sessions[sid].violations + 1)])
      else t;
    var count := if open then counted.sessions[sid].violations else staleCount;
    if count < VIOLATION_THRESHOLD then (counted, Counted(count))
    else
      var (after, reply) := Submit(counted, bank, sid, student, ViolationThreshold, now, newSecret);
      if reply.Submitted? then (after, AutoSubmitted(count, reply)) else (t, RolledBack(reply))
  }

  // ---- row writes ----

  function WriteRow(t: Tables, sid: int, slot: int, code: string, d: Delivery): Tables {
    var rows := RowsOfSession(t, sid);
    var stored := if slot in rows then Some(rows[slot]) else None;
    t.(rows := t.rows[sid := rows[slot := Upsert(stored, code, d)]])
  }

  predicate IsLive(s: Session, now: int) {
    s.submittedAt.None? && (s.expiresAt.None? || s.expiresAt.value > now)
  }

  /** The gated INSERT of a late snapshot: it writes only while the session is live. */
  function WriteLate(
      t: Tables, sid: int, slot: int, code: string, answer: Option<Payload>, actionSeq: int, now: int): (Tables, bool)
  {
    if sid in t.sessions && IsLive(t.sessions[sid], now) then
      (WriteRow(t, sid, slot, code, Late(answer, actionSeq, now)), true)
    else (t, false)
  }

  datatype LateEntry = LateEntry(slot: int, answer: Option<Payload>, actionSeq: int)

  predicate SlotInRange(codes: seq<string>, slot: int) {
    0 <= slot < |codes|
  }

  /** A late batch without interference: the entries one after the other, each at its own time,
      out-of-range slots skipped. */
  function LateBatch(t: Tables, sid: int, codes: seq<string>, entries: seq<LateEntry>, clock: seq<int>): (Tables, nat)
    requires |clock| == |entries|
    decreases |entries|
  {
    if entries == [] then (t, 0)
    else
      var n := |entries| - 1;
      var (before, scored) := LateBatch(t, sid, codes, entries[..n], clock[..n]);
      var entry := entries[n];
      if !SlotInRange(codes, entry.slot) then (before, scored)
      else
        var code := codes[entry.slot];
        var (after, wrote) := WriteLate(before, sid, entry.slot, code, entry.answer, entry.actionSeq, clock[n]);
        (after, if wrote then scored + 1 else scored)
  }

  /** The START update, gated on the session being open. */
  function WriteStart(t: Tables, sid: int, startedAt: int, expiresAt: int): Tables {
    if sid in t.sessions && t.sessions[sid].submittedAt.None? then
      t.(sessions := t.sessions[sid := t.sessions[sid].(startedAt := Some(startedAt), expiresAt := Some(expiresAt))])
    else t
  }

  // ---- basic facts ----

  lemma {:induction false} RowsFromAreInRange(rows: map<int, Row>, slots: nat)
    ensures BySlot(RowsFrom(rows, slots))
    ensures forall s :: s in RowsFrom(rows, slots) <==> 0 <= s.slot < slots && s.slot in rows && rows[s.slot] == s.row
    decreases slots
  {
    if slots > 0 {
      RowsFromAreInRange(rows, slots - 1);
      var xs := RowsFrom(rows, slots - 1);
      assert forall i :: 0 <= i < |xs| ==> xs[i] in xs;
    }
  }

  lemma {:induction false} AttemptsOfConcat(xs: seq<Attempt>, ys: seq<Attempt>, sid: int)
    ensures AttemptsOf(xs + ys, sid) == AttemptsOf(xs, sid) + AttemptsOf(ys, sid)
    decreases |ys|
  {
    if ys == [] {
      assert xs + ys == xs;
    } else {
      var init := ys[..|ys| - 1];
      assert (xs + ys)[..|xs + ys| - 1] == xs + init;
      AttemptsOfConcat(xs, init, sid);
    }
  }

  lemma {:induction false} AttemptsOfOne(xs: seq<Attempt>, sid: int, owner: int)
    requires forall a :: a in xs ==> a.sid == owner
    ensures AttemptsOf(xs, sid) == if sid == owner then xs else []
    decreases |xs|
  {
    if xs != [] {
      var init, last := xs[..|xs| - 1], xs[|xs| - 1];
      assert xs == init + [last] && last in xs;
      AttemptsOfOne(init, sid, owner);
    }
  }

  lemma {:induction false} IdsOfAppend(xs: seq<Attempt>, ys: seq<Attempt>, sid: int, owner: int)
    requires forall a :: a in ys ==> a.sid == owner
    ensures IdsOf(xs + ys, sid) == IdsOf(xs, sid) + if sid == owner then Consecutive(|xs|, |ys|) else []
    decreases |ys|
  {
    if ys == [] {
      assert xs + ys == xs;
    } else {
      var init, last := ys[..|ys| - 1], ys[|ys| - 1];
      assert last in ys && (xs + ys)[..|xs + ys| - 1] == xs + init;
      IdsOfAppend(xs, init, sid, owner);
      assert Consecutive(|xs|, |ys|) == Consecutive(|xs|, |init|) + [|xs| + |init|];
    }
  }

  lemma {:induction false} IdsNameAttempts(xs: seq<Attempt>, sid: int)
    ensures |IdsOf(xs, sid)| == |AttemptsOf(xs, sid)|
    ensures forall k :: 0 <= k < |IdsOf(xs, sid)| ==>
              && IdsOf(xs, sid)[k] < |xs|
              && xs[IdsOf(xs, sid)[k]] == AttemptsOf(xs, sid)[k]
    decreases |xs|
  {
    if xs != [] {
      IdsNameAttempts(xs[..|xs| - 1], sid);
    }
  }
}
