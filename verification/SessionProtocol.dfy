/** The session service under concurrency. Every request reads first and writes later; each read and
    each SQL statement or transaction is one atomic step, and what a request has read stays with it,
    however stale it becomes. */
module SessionProtocol {
  import opened Basics
  import opened Base64Url
  import opened Snapshots
  import opened SessionTables
  import opened AttemptNumbering

  /** A request between its read and its last write. */
  datatype Request =
    | Write(sid: int, slot: int, code: string, d: Delivery)
    | Violate(sid: int, student: int, staleCount: int)
    | LateEntries(sid: int, codes: seq<string>, entries: seq<LateEntry>, done: nat, wrote: seq<bool>)
    | Start(sid: int, startedAt: int, expiresAt: int)

  datatype St = St(tables: Tables, now: int, reqs: map<int, Request>)

  datatype Event =
    | Tick(dt: nat)
    | OpenPatch(id: int, sid: int, student: int, slot: int, patch: Delivery)
    | OpenHint(id: int, sid: int, student: int, slot: int, level: int)
    | CommitWrite(id: int)
    | OpenViolation(id: int, sid: int, student: int)
    | CommitViolation(id: int, newSecret: Bytes)
    | OpenLate(id: int, sid: int, student: int, entries: seq<LateEntry>)
    | LateStep(id: int)
    | OpenStart(id: int, sid: int, student: int)
    | CommitStart(id: int)
    | SubmitSession(sid: int, student: int, source: Source, newSecret: Bytes)

  predicate Owned(t: Tables, sid: int, student: int) {
    sid in t.sessions && t.sessions[sid].student == student
  }

  predicate OwnedAndOpen(t: Tables, sid: int, student: int) {
    Owned(t, sid, student) && t.sessions[sid].submittedAt.None?
  }

  function HintsUsed(t: Tables, sid: int, slot: int): int {
    if sid in t.rows && slot in t.rows[sid] then t.rows[sid][slot].hints else 0
  }

  /** The checks of the hint endpoint behind the session read. */
  predicate NextHint(t: Tables, bank: Bank, sid: int, slot: int, code: string, level: int) {
    level == HintsUsed(t, sid, slot) + 1 && code in bank.problems && level in bank.problems[code].hintLevels
  }

  /** START keeps a running window and otherwise closes it at the moment of the read. */
  function StartExpiry(expiresAt: Option<int>, now: int): int {
    match expiresAt
    case None => now
    case Some(e) => now + Max(0, e - now)
  }

  function Stamp(d: Delivery, now: int): Delivery {
    d.(at := now)
  }

  function Opened(st: St, id: int, r: Request): St {
    if id in st.reqs then st else st.(reqs := st.reqs[id := r])
  }

  function Closed(st: St, id: int, t: Tables): St {
    st.(tables := t, reqs := map k | k in st.reqs && k != id :: st.reqs[k])
  }

  /** One late entry: skipped when out of range, otherwise written if the session is live now. */
  function LateNext(st: St, id: int, r: Request): St
    requires r.LateEntries? && r.done < |r.entries|
  {
    var entry := r.entries[r.done];
    if !SlotInRange(r.codes, entry.slot) then st.(reqs := st.reqs[id := r.(done := r.done + 1)])
    else
      var (after, wrote) := WriteLate(st.tables, r.sid, entry.slot, r.codes[entry.slot], entry.answer,
            entry.actionSeq, st.now);
      st.(tables := after, reqs := st.reqs[id := r.(done := r.done + 1, wrote := r.wrote + [wrote])])
  }

  /** A request that fails its checks, and a step of a request that is not pending, change nothing. */
  function Next(st: St, bank: Bank, e: Event): St {
    var t := st.tables;
    match e
    case Tick(dt) => st.(now := st.now + dt)
    case OpenPatch(id, sid, student, slot, patch) =>
      if OwnedAndOpen(t, sid, student) && SlotInRange(t.sessions[sid].codes, slot) && patch.Patch?
      then Opened(st, id, Write(sid, slot, t.sessions[sid].codes[slot], patch)) else st
    case OpenHint(id, sid, student, slot, level) =>
      if OwnedAndOpen(t, sid, student) && SlotInRange(t.sessions[sid].codes, slot)
         && NextHint(t, bank, sid, slot, t.sessions[sid].codes[slot], level)
      then Opened(st, id, Write(sid, slot, t.sessions[sid].codes[slot], Hint(level, st.now))) else st
    case CommitWrite(id) =>
      if id in st.reqs && st.reqs[id].Write?
      then var r := st.reqs[id]; Closed(st, id, WriteRow(t, r.sid, r.slot, r.code, Stamp(r.d, st.now))) else st
    case OpenViolation(id, sid, student) =>
      if OwnedAndOpen(t, sid, student) then Opened(st, id, Violate(sid, student, t.sessions[sid].violations)) else st
    case CommitViolation(id, newSecret) =>
      if id in st.reqs && st.reqs[id].Violate? && newSecret != []
      then
        var r := st.reqs[id];
        Closed(st, id, RecordViolation(t, bank, r.sid, r.student, r.staleCount, st.now, newSecret).0)
      else st
    case OpenLate(id, sid, student, entries) =>
      if Owned(t, sid, student) then Opened(st, id, LateEntries(sid, t.sessions[sid].codes, entries, 0, [])) else st
    case LateStep(id) =>
      if id in st.reqs && st.reqs[id].LateEntries? && st.reqs[id].done < |st.reqs[id].entries|
      then LateNext(st, id, st.reqs[id]) else st
    case OpenStart(id, sid, student) =>
      if Owned(t, sid, student) && t.sessions[sid].startedAt.None?
      then Opened(st, id, Start(sid, st.now, StartExpiry(t.sessions[sid].expiresAt, st.now))) else st
    case CommitStart(id) =>
      if id in st.reqs && st.reqs[id].Start?
      then var r := st.reqs[id]; Closed(st, id, WriteStart(t, r.sid, r.startedAt, r.expiresAt)) else st
    case SubmitSession(sid, student, source, newSecret) =>
      if newSecret != [] then st.(tables := Submit(t, bank, sid, student, source, st.now, newSecret).0) else st
  }

  function Run(st: St, bank: Bank, es: seq<Event>): St
    decreases |es|
  {
    if es == [] then st else Run(Next(st, bank, es[0]), bank, es[1..])
  }

  lemma {:induction false} RunConcat(st: St, bank: Bank, xs: seq<Event>, ys: seq<Event>)
    ensures Run(st, bank, xs + ys) == Run(Run(st, bank, xs), bank, ys)
    decreases |xs|
  {
    if xs == [] {
      assert xs + ys == ys;
    } else {
      assert (xs + ys)[1..] == xs[1..] + ys;
      RunConcat(Next(st, bank, xs[0]), bank, xs[1..], ys);
    }
  }

  // ---- what holds in every reachable state ----

  ghost predicate SessionGood(s: Session, attempts: seq<Attempt>, now: int, sid: int) {
    && s.secret != []
    && 0 <= s.violations
    && match s.submittedAt
       case None =>
         s.previous.None? && s.rotatedAt.None? && s.source.None?
         && s.violations < VIOLATION_THRESHOLD && AttemptsOf(attempts, sid) == []
       case Some(at) =>
         s.previous.Some? && s.previous.value != [] && s.rotatedAt == Some(at) && s.source.Some? && at <= now
         && s.violations <= VIOLATION_THRESHOLD
         && (s.violations == VIOLATION_THRESHOLD ==> s.source == Some(ViolationThreshold))
  }

  /** A row belongs to a slot of its session, carries that slot's frozen question, and has recorded
      as many revealed levels as hints used. */
  ghost predicate RowGood(t: Tables, sid: int, slot: int)
    requires sid in t.rows && slot in t.rows[sid]
  {
    && sid in t.sessions && SlotInRange(t.sessions[sid].codes, slot)
    && t.rows[sid][slot].code == t.sessions[sid].codes[slot]
    && t.rows[sid][slot].hints == |t.rows[sid][slot].levels|
  }

  function InRangeEntry(codes: seq<string>): LateEntry -> bool {
    (entry: LateEntry) => SlotInRange(codes, entry.slot)
  }

  /** Trues, then falses. */
  ghost predicate IsPrefix(flags: seq<bool>) {
    forall i, j :: 0 <= i < j < |flags| && flags[j] ==> flags[i]
  }

  ghost predicate RequestGood(t: Tables, now: int, r: Request) {
    && r.sid in t.sessions
    && var s := t.sessions[r.sid];
       match r
       case Write(_, slot, code, d) => SlotInRange(s.codes, slot) && code == s.codes[slot] && !d.Late?
       case Violate(_, student, staleCount) => student == s.student && staleCount < VIOLATION_THRESHOLD
       case LateEntries(_, codes, entries, done, wrote) =>
         && codes == s.codes && done <= |entries| && |wrote| == Count(InRangeEntry(codes), entries[..done])
         && IsPrefix(wrote) && (false in wrote ==> !IsLive(s, now))
       case Start(_, _, expiresAt) =>
         || s.submittedAt.Some? || s.expiresAt == Some(expiresAt)
         || (expiresAt <= now && (s.expiresAt.Some? ==> s.expiresAt.value <= now))
  }

  ghost predicate TablesGood(t: Tables, now: int) {
    && (forall sid :: sid in t.sessions ==> SessionGood(t.sessions[sid], t.attempts, now, sid))
    && (forall sid, slot :: sid in t.rows && slot in t.rows[sid] ==> RowGood(t, sid, slot))
    && Numbered(t.attempts)
  }

  ghost predicate Good(st: St) {
    && TablesGood(st.tables, st.now)
    && forall id :: id in st.reqs ==> RequestGood(st.tables, st.now, st.reqs[id])
  }

  /** Sessions as they are created: open, without violations or attempts. */
  ghost predicate Fresh(st: St) {
    && st.reqs == map[] && Numbered(st.tables.attempts) && st.tables.rows == map[]
    && forall sid :: sid in st.tables.sessions ==>
         var s := st.tables.sessions[sid];
         && s.submittedAt.None? && s.previous.None? && s.rotatedAt.None? && s.source.None?
         && s.violations == 0 && s.secret != [] && AttemptsOf(st.tables.attempts, sid) == []
  }

  lemma FreshIsGood(st: St)
    requires Fresh(st)
    ensures Good(st)
  {
  }

  // ---- how a session may develop ----

  ghost predicate SessionLater(s: Session, now: int, s': Session, now': int) {
    && s'.student == s.student && s'.testId == s.testId && s'.codes == s.codes
    && s.violations <= s'.violations
    && (s.submittedAt.Some? ==> s' == s)
    && (s'.submittedAt.None? ==> s'.secret == s.secret)
    && (s.submittedAt.None? && s'.submittedAt.Some? ==> s'.previous == Some(s.secret) && now <= s'.submittedAt.value)
    && (|| s'.expiresAt == s.expiresAt
        || ((s.expiresAt.Some? ==> s.expiresAt.value <= now') && s'.expiresAt.Some? && s'.expiresAt.value <= now'))
  }

  ghost predicate SameAttempts(xs: seq<Attempt>, ys: seq<Attempt>, sid: int) {
    AttemptsOf(ys, sid) == AttemptsOf(xs, sid) && IdsOf(ys, sid) == IdsOf(xs, sid)
  }

  ghost predicate TablesLater(t: Tables, now: int, t': Tables, now': int) {
    && now <= now'
    && t'.sessions.Keys == t.sessions.Keys
    && t.attempts <= t'.attempts
    && forall sid :: sid in t.sessions ==>
         && SessionLater(t.sessions[sid], now, t'.sessions[sid], now')
         && (t.sessions[sid].submittedAt.Some? ==> SameAttempts(t.attempts, t'.attempts, sid))
  }

  ghost predicate Later(st: St, st': St) {
    TablesLater(st.tables, st.now, st'.tables, st'.now)
  }

  lemma LaterIsTransitive(a: St, b: St, c: St)
    requires Later(a, b) && Later(b, c)
    ensures Later(a, c)
  {
    var s, t, u := a.tables, b.tables, c.tables;
    forall sid | sid in s.sessions
      ensures SessionLater(s.sessions[sid], a.now, u.sessions[sid], c.now)
    {
      assert SessionLater(s.sessions[sid], a.now, t.sessions[sid], b.now);
      assert SessionLater(t.sessions[sid], b.now, u.sessions[sid], c.now);
    }
    forall sid | sid in s.sessions && s.sessions[sid].submittedAt.Some?
      ensures SameAttempts(s.attempts, u.attempts, sid)
    {
      assert SessionLater(s.sessions[sid], a.now, t.sessions[sid], b.now);
      assert SameAttempts(s.attempts, t.attempts, sid) && SameAttempts(t.attempts, u.attempts, sid);
    }
  }

  /** Once a session is not live it never is again. */
  lemma LivenessNeverReturns(s: Session, now: int, s': Session, now': int)
    requires SessionLater(s, now, s', now') && now <= now' && IsLive(s', now')
    ensures IsLive(s, now)
  {
  }

  lemma LaterKeepsRequest(t: Tables, now: int, t': Tables, now': int, r: Request)
    requires TablesLater(t, now, t', now') && RequestGood(t, now, r)
    ensures RequestGood(t', now', r)
  {
    assert SessionLater(t.sessions[r.sid], now, t'.sessions[r.sid], now');
  }

  /** A step that leaves the pending requests alone. */
  lemma TablesStepIsGood(st: St, st': St)
    requires Good(st) && Later(st, st') && TablesGood(st'.tables, st'.now) && st'.reqs == st.reqs
    ensures Good(st')
  {
    forall k | k in st'.reqs
      ensures RequestGood(st'.tables, st'.now, st'.reqs[k])
    {
      LaterKeepsRequest(st.tables, st.now, st'.tables, st'.now, st.reqs[k]);
    }
  }

  /** A step to be judged by its tables and at most one new request. */
  lemma StepIsGood(st: St, st': St, id: int)
    requires Good(st) && Later(st, st') && TablesGood(st'.tables, st'.now)
    requires forall k :: k in st'.reqs && k != id ==> k in st.reqs && st'.reqs[k] == st.reqs[k]
    requires id in st'.reqs ==> RequestGood(st'.tables, st'.now, st'.reqs[id])
    ensures Good(st')
  {
    forall k | k in st'.reqs
      ensures RequestGood(st'.tables, st'.now, st'.reqs[k])
    {
      if k != id {
        LaterKeepsRequest(st.tables, st.now, st'.tables, st'.now, st.reqs[k]);
      }
    }
  }
}
