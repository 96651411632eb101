/** Each request on its own: what the service accepts, and what it writes when nothing comes between its
    read and its write. */
module SerialRequests {
  import opened Basics
  import opened Base64Url
  import opened Snapshots
  import opened SessionTables
  import opened SessionProtocol
  import opened SessionRuns

  /** The request came, and nothing of it is left: only the tables have changed. */
  ghost predicate LeavesOnly(st: St, end: St, t: Tables) {
    end == st.(tables := t)
  }

  lemma OpenedThenClosed(st: St, id: int, r: Request, t: Tables)
    requires id !in st.reqs
    ensures LeavesOnly(st, Closed(Opened(st, id, r), id, t), t)
  {
    assert Closed(Opened(st, id, r), id, t).reqs == st.reqs;
  }

  /** A patch is written if and only if the session is the student's, not submitted, and has the slot; then
      the slot's row has received it, stamped with the server's clock and kept under its frozen question, and
      nothing else has changed. */
  lemma SerialPatchIsWritten(
      st: St, bank: Bank, id: int, sid: int, student: int, slot: int,
      answer: Option<Payload>, marked: bool, delta: int, visits: int, actionSeq: int, at: int)
    requires id !in st.reqs
    ensures var patch := Patch(answer, marked, delta, visits, actionSeq, at);
            var stamped := Patch(answer, marked, delta, visits, actionSeq, st.now);
            var end := Next(Next(st, bank, OpenPatch(id, sid, student, slot, patch)), bank, CommitWrite(id));
            if OwnedAndOpen(st.tables, sid, student) && 0 <= slot < |st.tables.sessions[sid].codes| then
              var code := st.tables.sessions[sid].codes[slot];
              && LeavesOnly(st, end, WriteRow(st.tables, sid, slot, code, stamped))
              && StoredRow(end.tables, sid, slot) == Deliver(StoredRow(st.tables, sid, slot), code, [stamped])
            else end == st
  {
    var patch := Patch(answer, marked, delta, visits, actionSeq, at);
    var stamped := Patch(answer, marked, delta, visits, actionSeq, st.now);
    var read := Next(st, bank, OpenPatch(id, sid, student, slot, patch));
    if OwnedAndOpen(st.tables, sid, student) && 0 <= slot < |st.tables.sessions[sid].codes| {
      var code := st.tables.sessions[sid].codes[slot];
      assert read == Opened(st, id, Write(sid, slot, code, patch));
      OpenedThenClosed(st, id, Write(sid, slot, code, patch), WriteRow(st.tables, sid, slot, code, stamped));
      assert [stamped][1..] == [];
    } else {
      assert read == st;
    }
  }

  /** A hint is revealed if and only if besides that the level exists for the slot's question and is the one
      after those already counted; then it is counted and recorded. */
  lemma SerialHintIsWritten(st: St, bank: Bank, id: int, sid: int, student: int, slot: int, level: int)
    requires id !in st.reqs
    ensures var end := Next(Next(st, bank, OpenHint(id, sid, student, slot, level)), bank, CommitWrite(id));
            var stored := StoredRow(st.tables, sid, slot);
            if OwnedAndOpen(st.tables, sid, student) && 0 <= slot < |st.tables.sessions[sid].codes|
               && level == (if stored.Some? then stored.value.hints else 0) + 1
               && st.tables.sessions[sid].codes[slot] in bank.problems
               && level in bank.problems[st.tables.sessions[sid].codes[slot]].hintLevels then
              && LeavesOnly(st, end, end.tables) && StoredRow(end.tables, sid, slot).Some?
              && end.tables == WriteRow(st.tables, sid, slot, st.tables.sessions[sid].codes[slot], Hint(level, st.now))
              && var row := StoredRow(end.tables, sid, slot).value;
                 && row.hints == level && row.lastAction == Some(st.now)
                 && row.levels == (if stored.Some? then stored.value.levels else []) + [level]
            else end == st
  {
    var code := if sid in st.tables.sessions && 0 <= slot < |st.tables.sessions[sid].codes|
                then st.tables.sessions[sid].codes[slot] else "";
    var r := Write(sid, slot, code, Hint(level, st.now));
    var read := Next(st, bank, OpenHint(id, sid, student, slot, level));
    if read != st {
      assert read == Opened(st, id, r);
      OpenedThenClosed(st, id, r, WriteRow(st.tables, sid, slot, code, Hint(level, st.now)));
    }
  }

  /** A START takes effect if and only if the session is the student's, not submitted and not started yet:
      it is started now, keeps a deadline that is still ahead, and otherwise ends now. */
  lemma SerialStartIsWritten(st: St, bank: Bank, id: int, sid: int, student: int)
    requires id !in st.reqs
    ensures var end := Next(Next(st, bank, OpenStart(id, sid, student)), bank, CommitStart(id));
            if OwnedAndOpen(st.tables, sid, student)
               && st.tables.sessions[sid].startedAt.None? then
              var s := st.tables.sessions[sid];
              var deadline := if s.expiresAt.Some? && s.expiresAt.value >= st.now then s.expiresAt.value else st.now;
              LeavesOnly(st, end, st.tables.(sessions := st.tables.sessions[sid :=
                s.(startedAt := Some(st.now), expiresAt := Some(deadline))]))
            else end == st
  {
    var read := Next(st, bank, OpenStart(id, sid, student));
    if Owned(st.tables, sid, student) && st.tables.sessions[sid].startedAt.None? {
      var r := Start(sid, st.now, StartExpiry(st.tables.sessions[sid].expiresAt, st.now));
      assert read == Opened(st, id, r);
      OpenedThenClosed(st, id, r, WriteStart(st.tables, sid, r.startedAt, r.expiresAt));
    } else {
      assert read == st;
    }
  }

  /** A violation reaches its transaction if and only if the session is the student's and not submitted. */
  lemma SerialViolationIsCounted(st: St, bank: Bank, id: int, sid: int, student: int, newSecret: Bytes)
    requires id !in st.reqs && newSecret != []
    ensures var end := Next(Next(st, bank, OpenViolation(id, sid, student)), bank, CommitViolation(id, newSecret));
            if OwnedAndOpen(st.tables, sid, student) then
              LeavesOnly(st, end, RecordViolation(st.tables, bank, sid, student, st.tables.sessions[sid].violations,
                                                  st.now, newSecret).0)
            else end == st
  {
    var read := Next(st, bank, OpenViolation(id, sid, student));
    if OwnedAndOpen(st.tables, sid, student) {
      var r := Violate(sid, student, st.tables.sessions[sid].violations);
      assert read == Opened(st, id, r);
      OpenedThenClosed(st, id, r,
        RecordViolation(st.tables, bank, sid, student, r.staleCount, st.now, newSecret).0);
    } else {
      assert read == st;
    }
  }

  // ---- late batches ----

  /** The entries of a late batch one after the other, each some time after the one before. */
  function LateSteps(id: int, pauses: seq<nat>): seq<Event>
    decreases |pauses|
  {
    if pauses == [] then []
    else LateSteps(id, pauses[..|pauses| - 1]) + [Tick(pauses[|pauses| - 1]), LateStep(id)]
  }

  function Instants(now: int, pauses: seq<nat>): (clock: seq<int>)
    ensures |clock| == |pauses|
    decreases |pauses|
  {
    if pauses == [] then []
    else
      var before := Instants(now, pauses[..|pauses| - 1]);
      before + [(if before == [] then now else before[|before| - 1]) + pauses[|pauses| - 1]]
  }

  /** The request is k entries into the batch, and the tables are what a serial batch of those leaves. */
  ghost predicate IsAt(
      st: St, end: St, id: int, sid: int, codes: seq<string>, entries: seq<LateEntry>, clock: seq<int>)
  {
    && |clock| <= |entries| && id in end.reqs && end.reqs[id].LateEntries?
    && end.reqs[id].sid == sid && end.reqs[id].codes == codes && end.reqs[id].entries == entries
    && end.reqs[id].done == |clock|
    && end.now == (if clock == [] then st.now else clock[|clock| - 1])
    && LateBatch(st.tables, sid, codes, entries[..|clock|], clock)
       == (end.tables, Count(Scored, end.reqs[id].wrote))
  }

  /** What one entry does to the tables, and whether it is scored. */
  function Taken(t: Tables, sid: int, codes: seq<string>, entry: LateEntry, at: int): (Tables, bool) {
    if SlotInRange(codes, entry.slot)
    then WriteLate(t, sid, entry.slot, codes[entry.slot], entry.answer, entry.actionSeq, at)
    else (t, false)
  }

  lemma BatchStep(t: Tables, sid: int, codes: seq<string>, entries: seq<LateEntry>, clock: seq<int>, at: int)
    requires |clock| < |entries|
    ensures var n := |clock|;
            var (before, scored) := LateBatch(t, sid, codes, entries[..n], clock);
            var (after, wrote) := Taken(before, sid, codes, entries[n], at);
            LateBatch(t, sid, codes, entries[..n + 1], clock + [at]) == (after, if wrote then scored + 1 else scored)
  {
    var n := |clock|;
    assert entries[..n + 1][..n] == entries[..n] && (clock + [at])[..n] == clock;
    assert entries[..n + 1][n] == entries[n] && (clock + [at])[n] == at;
  }

  lemma OneMoreFlag(flags: seq<bool>, flag: bool)
    ensures Count(Scored, flags + [flag]) == Count(Scored, flags) + if flag then 1 else 0
  {
    assert (flags + [flag])[..|flags|] == flags;
  }

  lemma TickThenStep(end: St, bank: Bank, id: int, pause: nat)
    requires id in end.reqs && end.reqs[id].LateEntries? && end.reqs[id].done < |end.reqs[id].entries|
    ensures Next(Next(end, bank, Tick(pause)), bank, LateStep(id))
            == LateNext(end.(now := end.now + pause), id, end.reqs[id])
  {
  }

  lemma LateNextTakes(st: St, id: int, r: Request)
    requires r.LateEntries? && r.done < |r.entries|
    ensures var next := LateNext(st, id, r);
            var (after, wrote) := Taken(st.tables, r.sid, r.codes, r.entries[r.done], st.now);
            && next.now == st.now && next.tables == after && id in next.reqs
            && next.reqs[id] == r.(done := r.done + 1, wrote := next.reqs[id].wrote)
            && Count(Scored, next.reqs[id].wrote) == Count(Scored, r.wrote) + if wrote then 1 else 0
  {
    OneMoreFlag(r.wrote, Taken(st.tables, r.sid, r.codes, r.entries[r.done], st.now).1);
  }

  /** `next` has taken one more entry of request `id` than `end`, at its own instant. */
  ghost predicate TakesOne(end: St, next: St, id: int)
    requires id in end.reqs && end.reqs[id].LateEntries? && end.reqs[id].done < |end.reqs[id].entries|
  {
    var r := end.reqs[id];
    var (after, wrote) := Taken(end.tables, r.sid, r.codes, r.entries[r.done], next.now);
    && next.tables == after && id in next.reqs && next.reqs[id].LateEntries?
    && next.reqs[id] == r.(done := r.done + 1, wrote := next.reqs[id].wrote)
    && Count(Scored, next.reqs[id].wrote) == Count(Scored, r.wrote) + if wrote then 1 else 0
  }

  lemma TakenIsAt(
      st: St, end: St, next: St, id: int, sid: int, codes: seq<string>, entries: seq<LateEntry>, clock: seq<int>)
    requires IsAt(st, end, id, sid, codes, entries, clock) && |clock| < |entries| && TakesOne(end, next, id)
    ensures IsAt(st, next, id, sid, codes, entries, clock + [next.now])
  {
    BatchStep(st.tables, sid, codes, entries, clock, next.now);
  }

  lemma OneMoreEntry(
      st: St, end: St, bank: Bank, id: int, sid: int, codes: seq<string>, entries: seq<LateEntry>, clock: seq<int>,
      pause: nat)
    requires IsAt(st, end, id, sid, codes, entries, clock) && |clock| < |entries|
    ensures IsAt(st, Next(Next(end, bank, Tick(pause)), bank, LateStep(id)), id, sid, codes, entries,
                 clock + [end.now + pause])
  {
    var next := LateNext(end.(now := end.now + pause), id, end.reqs[id]);
    TickThenStep(end, bank, id, pause);
    LateNextTakes(end.(now := end.now + pause), id, end.reqs[id]);
    TakenIsAt(st, end, next, id, sid, codes, entries, clock);
  }

  lemma RunTwo(st: St, bank: Bank, a: Event, b: Event)
    ensures Run(st, bank, [a, b]) == Next(Next(st, bank, a), bank, b)
  {
    assert [a, b][1..] == [b] && [b][1..] == [];
    assert Run(Next(st, bank, a), bank, [b]) == Next(Next(st, bank, a), bank, b);
  }

  lemma {:induction false} StepsFollowBatch(
      st: St, read: St, bank: Bank, id: int, sid: int, codes: seq<string>, entries: seq<LateEntry>, pauses: seq<nat>)
    requires IsAt(st, read, id, sid, codes, entries, []) && |pauses| <= |entries|
    ensures IsAt(st, Run(read, bank, LateSteps(id, pauses)), id, sid, codes, entries, Instants(st.now, pauses))
    decreases |pauses|
  {
    if pauses != [] {
      var init, pause := pauses[..|pauses| - 1], pauses[|pauses| - 1];
      var before, clock := Run(read, bank, LateSteps(id, init)), Instants(st.now, init);
      StepsFollowBatch(st, read, bank, id, sid, codes, entries, init);
      assert Instants(st.now, pauses) == clock + [before.now + pause];
      RunConcat(read, bank, LateSteps(id, init), [Tick(pause), LateStep(id)]);
      RunTwo(before, bank, Tick(pause), LateStep(id));
      assert Run(read, bank, LateSteps(id, pauses))
             == Next(Next(before, bank, Tick(pause)), bank, LateStep(id));
      OneMoreEntry(st, before, bank, id, sid, codes, entries, clock, pause);
    }
  }

  /** A late batch is taken from the owner of the session, submitted or not, and from nobody else; run to its
      end among ticks of the clock only, it is the serial batch, entry by entry at those instants. */
  lemma SerialLateBatchIsRun(
      st: St, bank: Bank, id: int, sid: int, student: int, entries: seq<LateEntry>, pauses: seq<nat>)
    requires id !in st.reqs && |pauses| == |entries|
    ensures var read := Next(st, bank, OpenLate(id, sid, student, entries));
            var end := Run(read, bank, LateSteps(id, pauses));
            (id in read.reqs <==> Owned(st.tables, sid, student))
            && (id in read.reqs ==>
                  && id in end.reqs && end.reqs[id].LateEntries? && end.reqs[id].done == |entries|
                  && LateBatch(st.tables, sid, st.tables.sessions[sid].codes, entries, Instants(st.now, pauses))
                     == (end.tables, Count(Scored, end.reqs[id].wrote)))
  {
    if Owned(st.tables, sid, student) {
      var codes := st.tables.sessions[sid].codes;
      var read := Next(st, bank, OpenLate(id, sid, student, entries));
      assert read == Opened(st, id, LateEntries(sid, codes, entries, 0, []));
      assert entries[..0] == [] && IsAt(st, read, id, sid, codes, entries, []);
      StepsFollowBatch(st, read, bank, id, sid, codes, entries, pauses);
      assert entries[..|entries|] == entries;
    }
  }
}
