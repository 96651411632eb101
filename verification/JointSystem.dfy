/** Page, queue, network and session service as one system. The page's requests are read and written
    in separate steps, any number of them at a time, among other traffic of the service. */
module JointSystem {
  import opened Base64Url
  import opened Snapshots
  import opened Actions
  import opened QueueState
  import Replication
  import opened Convergence
  import opened VisitAccounting
  import opened Entries
  import opened SessionTables
  import opened SessionProtocol
  import opened SessionSafety
  import opened SessionRuns

  /** The session of the page and its student; `secret` is what a closing violation would rotate to. */
  datatype Page = Page(sid: int, student: int, secret: Bytes)

  /** The queue with its rows, the page's clock, the service, and the page's requests between check and
      write, each with the network event it serves. */
  datatype System = System(w: Replication.World, c: Clock, st: St, mine: map<int, Replication.Event>)

  /** An input at the page or an event of the queue; a copy of a sent action, or a hint request, reaching
      its endpoint's checks; the write of such a request; and a step of the service that is another's. */
  datatype Joint = Do(x: Input) | Ask(id: int, e: Replication.Event) | Serve(id: int) | Other(f: Event)

  predicate IsRemote(e: Replication.Event) {
    e.Arrive? || e.HintRevealed?
  }

  function At(e: Replication.Event, now: int): Replication.Event
    requires IsRemote(e)
  {
    e.(at := now)
  }

  function Check(p: Page, id: int, e: Replication.Event): Event
    requires IsRemote(e)
  {
    if e.HintRevealed? then OpenHint(id, p.sid, p.student, e.slot, e.level)
    else if e.action.Snapshot? then OpenPatch(id, p.sid, p.student, e.action.slot, ToPatch(e.action, 0))
    else OpenViolation(id, p.sid, p.student)
  }

  function Commit(p: Page, id: int, e: Replication.Event): Event {
    if e.Arrive? && e.action.Violation? then CommitViolation(id, p.secret) else CommitWrite(id)
  }

  ghost function Step(s: System, bank: Bank, p: Page, j: Joint): System
    requires Valid(s.w.client) && forall id :: id in s.mine ==> IsRemote(s.mine[id])
  {
    match j
    case Do(x) =>
      if x.Net? && IsRemote(x.event) then s
      else s.(w := Replication.Run(s.w, AsEvents(s.c, x)), c := Ticked(s.c, x))
    case Ask(id, e) =>
      if IsRemote(e) && Replication.Enabled(s.w, e) && id !in s.st.reqs then
        var st' := Next(s.st, bank, Check(p, id, e));
        s.(st := st', mine := if id in st'.reqs then s.mine[id := e] else s.mine)
      else s
    case Serve(id) =>
      if id in s.mine then
        System(Replication.Next(s.w, At(s.mine[id], s.st.now)), s.c, Next(s.st, bank, Commit(p, id, s.mine[id])),
               s.mine - {id})
      else s
    case Other(f) => s.(st := Next(s.st, bank, f))
  }

  // ---- the two sides agree ----

  /** The pending request is the one its network event opened. */
  predicate IsAsked(codes: seq<string>, p: Page, e: Replication.Event, r: Request) {
    && IsRemote(e)
    && if e.HintRevealed? then
         && SlotInRange(codes, e.slot) && r.Write? && r.d.Hint? && r.d.level == e.level
         && r.sid == p.sid && r.slot == e.slot && r.code == codes[e.slot]
       else if e.action.Snapshot? then
         && SlotInRange(codes, e.action.slot)
         && r == Write(p.sid, e.action.slot, codes[e.action.slot], ToPatch(e.action, 0))
       else
         r.Violate? && r.sid == p.sid && r.student == p.student
  }

  ghost predicate AllAsked(s: System, p: Page) {
    forall id :: id in s.mine ==>
      && id in s.st.reqs && IsAsked(s.w.codes, p, s.mine[id], s.st.reqs[id])
      && (s.mine[id].Arrive? ==> s.mine[id].action in s.w.sent)
  }

  /** Same questions, same rows, and every request of the page pending as it was asked. The session may
      be open or submitted. */
  ghost predicate Fits(s: System, p: Page) {
    && Valid(s.w.client) && Good(s.st) && Owned(s.st.tables, p.sid, p.student) && p.secret != []
    && s.st.tables.sessions[p.sid].codes == s.w.codes && RowsOfSession(s.st.tables, p.sid) == s.w.rows
    && AllAsked(s, p)
  }

  /** Other traffic leaves the session's rows and the page's own requests alone. It may do anything else:
      pass time, start, submit or report violations for this session, and serve all others. */
  ghost predicate IsForeign(s: System, bank: Bank, p: Page, f: Event) {
    && SameRows(s.st.tables, Next(s.st, bank, f).tables, p.sid)
    && (f.CommitWrite? || f.CommitViolation? || f.CommitStart? || f.LateStep? ==> f.id !in s.mine)
  }

  ghost predicate IsProper(s: System, bank: Bank, p: Page, j: Joint) {
    j.Other? ==> IsForeign(s, bank, p, j.f)
  }

  lemma QuietStep(w: Replication.World, e: Replication.Event)
    requires Valid(w.client) && !IsRemote(e)
    ensures var w' := Replication.Next(w, e);
            && Valid(w'.client) && w'.rows == w.rows && w'.codes == w.codes && w'.heard == w.heard
            && forall a :: a in w.sent ==> a in w'.sent
  {
    Replication.NextKeepsValid(w, e);
    if IsQueueing(e) {
      EnqueueEffect(w, e);
    } else if Replication.Enabled(w, e) {
      if e.Acked? {
        AckEffect(w);
      } else {
        SendingStep(w, e);
      }
    }
  }

  lemma RunOfOne(w: Replication.World, e: Replication.Event)
    requires Valid(w.client)
    ensures Valid(Replication.Next(w, e).client) && Replication.Run(w, [e]) == Replication.Next(w, e)
  {
    Replication.NextKeepsValid(w, e);
    assert [e][1..] == [];
  }

  lemma DoKeepsFit(s: System, bank: Bank, p: Page, x: Input)
    requires Fits(s, p)
    ensures Fits(Step(s, bank, p, Do(x)), p)
    ensures Step(s, bank, p, Do(x)).w.heard == s.w.heard
  {
    var es := AsEvents(s.c, x);
    if es != [] && !(x.Net? && IsRemote(x.event)) {
      RunOfOne(s.w, es[0]);
      QuietStep(s.w, es[0]);
      assert es == [es[0]];
    }
  }

  lemma AskedIsPending(s: System, bank: Bank, p: Page, id: int, e: Replication.Event)
    requires Fits(s, p) && IsRemote(e) && Replication.Enabled(s.w, e) && id !in s.st.reqs
    ensures var st' := Next(s.st, bank, Check(p, id, e));
            && st'.tables == s.st.tables && st'.now == s.st.now
            && (forall k :: k in s.st.reqs ==> k in st'.reqs && st'.reqs[k] == s.st.reqs[k])
            && (id in st'.reqs ==> IsAsked(s.w.codes, p, e, st'.reqs[id]))
  {
    OpeningKeepsTables(s.st, bank, Check(p, id, e));
  }

  lemma AskKeepsFit(s: System, bank: Bank, p: Page, id: int, e: Replication.Event)
    requires Fits(s, p)
    ensures Fits(Step(s, bank, p, Ask(id, e)), p)
  {
    if IsRemote(e) && Replication.Enabled(s.w, e) && id !in s.st.reqs {
      NextIsGood(s.st, bank, Check(p, id, e));
      AskedIsPending(s, bank, p, id, e);
    }
  }

  lemma WriteServedRowsAgree(s: System, bank: Bank, p: Page, id: int)
    requires Fits(s, p) && id in s.mine && (s.mine[id].HintRevealed? || s.mine[id].action.Snapshot?)
    ensures var w', st' := Replication.Next(s.w, At(s.mine[id], s.st.now)), Next(s.st, bank, CommitWrite(id));
            && RowsOfSession(st'.tables, p.sid) == w'.rows
            && w' == s.w.(rows := w'.rows, landed := w'.landed)
            && st'.now == s.st.now && id !in st'.reqs
            && forall k :: k in s.st.reqs && k != id ==> k in st'.reqs && st'.reqs[k] == s.st.reqs[k]
  {
    assert IsAsked(s.w.codes, p, s.mine[id], s.st.reqs[id]);
  }

  lemma ViolationServedRowsAgree(s: System, bank: Bank, p: Page, id: int)
    requires Fits(s, p) && id in s.mine && s.mine[id].Arrive? && s.mine[id].action.Violation?
    ensures var w' := Replication.Next(s.w, At(s.mine[id], s.st.now));
            var st' := Next(s.st, bank, CommitViolation(id, p.secret));
            && RowsOfSession(st'.tables, p.sid) == w'.rows
            && w' == s.w.(heard := s.w.heard + multiset{s.mine[id].action.actionSeq}, landed := w'.landed)
            && st'.now == s.st.now && id !in st'.reqs
            && forall k :: k in s.st.reqs && k != id ==> k in st'.reqs && st'.reqs[k] == s.st.reqs[k]
  {
    var r := s.st.reqs[id];
    assert IsAsked(s.w.codes, p, s.mine[id], r);
    ViolationKeepsRows(s.st.tables, bank, r.sid, r.student, r.staleCount, s.st.now, p.secret);
  }

  /** A request of the page is written: the service does to the session's rows what the arrival does to
      the rows of the replication protocol, whatever has happened since the check. */
  lemma ServedRowsAgree(s: System, bank: Bank, p: Page, id: int)
    requires Fits(s, p) && id in s.mine
    ensures var w', st' := Replication.Next(s.w, At(s.mine[id], s.st.now)), Next(s.st, bank, Commit(p, id, s.mine[id]));
            && RowsOfSession(st'.tables, p.sid) == w'.rows
            && w'.codes == s.w.codes && w'.sent == s.w.sent && w'.history == s.w.history && w'.client == s.w.client
            && |w'.heard| == |s.w.heard| + (if s.mine[id].Arrive? && s.mine[id].action.Violation? then 1 else 0)
            && st'.now == s.st.now && id !in st'.reqs
            && forall k :: k in s.st.reqs && k != id ==> k in st'.reqs && st'.reqs[k] == s.st.reqs[k]
  {
    assert IsAsked(s.w.codes, p, s.mine[id], s.st.reqs[id]);
    if s.mine[id].Arrive? && s.mine[id].action.Violation? {
      ViolationServedRowsAgree(s, bank, p, id);
    } else {
      WriteServedRowsAgree(s, bank, p, id);
    }
  }

  lemma SessionStays(st: St, bank: Bank, e: Event, sid: int, student: int)
    requires Good(st) && Owned(st.tables, sid, student)
    ensures var st' := Next(st, bank, e);
            && Good(st') && Owned(st'.tables, sid, student)
            && st'.tables.sessions[sid].codes == st.tables.sessions[sid].codes
            && (IsOpen(st', sid) ==> IsOpen(st, sid))
  {
    NextIsGood(st, bank, e);
    var st' := Next(st, bank, e);
    assert SessionLater(st.tables.sessions[sid], st.now, st'.tables.sessions[sid], st'.now);
  }

  lemma ServeKeepsFit(s: System, bank: Bank, p: Page, id: int)
    requires Fits(s, p) && id in s.mine
    ensures Fits(Step(s, bank, p, Serve(id)), p)
  {
    SessionStays(s.st, bank, Commit(p, id, s.mine[id]), p.sid, p.student);
    ServedRowsAgree(s, bank, p, id);
  }

  lemma ForeignKeepsRequests(st: St, bank: Bank, f: Event, id: int)
    requires id in st.reqs
    requires f.CommitWrite? || f.CommitViolation? || f.CommitStart? || f.LateStep? ==> f.id != id
    ensures id in Next(st, bank, f).reqs && Next(st, bank, f).reqs[id] == st.reqs[id]
  {
  }

  lemma ForeignKeepsAsked(s: System, bank: Bank, p: Page, f: Event)
    requires Fits(s, p) && IsForeign(s, bank, p, f)
    ensures AllAsked(s.(st := Next(s.st, bank, f)), p)
  {
    forall id | id in s.mine
      ensures id in Next(s.st, bank, f).reqs && Next(s.st, bank, f).reqs[id] == s.st.reqs[id]
    {
      ForeignKeepsRequests(s.st, bank, f, id);
    }
  }

  lemma OtherKeepsFit(s: System, bank: Bank, p: Page, f: Event)
    requires Fits(s, p) && IsForeign(s, bank, p, f)
    ensures Fits(Step(s, bank, p, Other(f)), p)
  {
    SessionStays(s.st, bank, f, p.sid, p.student);
    ForeignKeepsAsked(s, bank, p, f);
  }

  lemma StepKeepsFit(s: System, bank: Bank, p: Page, j: Joint)
    requires Fits(s, p) && IsProper(s, bank, p, j)
    ensures Fits(Step(s, bank, p, j), p)
  {
    match j
    case Do(x) => DoKeepsFit(s, bank, p, x);
    case Ask(id, e) => AskKeepsFit(s, bank, p, id, e);
    case Serve(id) =>
      if id in s.mine {
        ServeKeepsFit(s, bank, p, id);
      }
    case Other(f) => OtherKeepsFit(s, bank, p, f);
  }

  // ---- runs ----

  ghost predicate Proper(s: System, bank: Bank, p: Page, js: seq<Joint>)
    requires Fits(s, p)
    decreases |js|
  {
    js == [] ||
    (IsProper(s, bank, p, js[0])
     && (StepKeepsFit(s, bank, p, js[0]); Proper(Step(s, bank, p, js[0]), bank, p, js[1..])))
  }

  /** Where a proper run ends: the two sides agree there, too. */
  ghost function RunSystem(s: System, bank: Bank, p: Page, js: seq<Joint>): (end: System)
    requires Fits(s, p) && Proper(s, bank, p, js)
    ensures Fits(end, p)
    decreases |js|
  {
    if js == [] then s
    else
      StepKeepsFit(s, bank, p, js[0]);
      RunSystem(Step(s, bank, p, js[0]), bank, p, js[1..])
  }

  /** What the page and its queue see of a step. */
  function InputOf(s: System, j: Joint): seq<Input>
    requires forall id :: id in s.mine ==> IsRemote(s.mine[id])
  {
    match j
    case Do(x) => if x.Net? && IsRemote(x.event) then [] else [x]
    case Ask(_, _) => []
    case Serve(id) => if id in s.mine then [Net(At(s.mine[id], s.st.now))] else []
    case Other(_) => []
  }

  ghost function Inputs(s: System, bank: Bank, p: Page, js: seq<Joint>): seq<Input>
    requires Fits(s, p) && Proper(s, bank, p, js)
    decreases |js|
  {
    if js == [] then []
    else
      StepKeepsFit(s, bank, p, js[0]);
      InputOf(s, js[0]) + Inputs(Step(s, bank, p, js[0]), bank, p, js[1..])
  }

  lemma StepReplicates(s: System, bank: Bank, p: Page, j: Joint)
    requires Fits(s, p) && IsProper(s, bank, p, j)
    ensures var xs := InputOf(s, j);
            && |xs| <= 1
            && Step(s, bank, p, j).w == Replication.Run(s.w, if xs == [] then [] else AsEvents(s.c, xs[0]))
            && Step(s, bank, p, j).c == if xs == [] then s.c else Ticked(s.c, xs[0])
  {
    if j.Serve? && j.id in s.mine {
      RunOfOne(s.w, At(s.mine[j.id], s.st.now));
    }
  }

  lemma FirstInput(w: Replication.World, c: Clock, x: Input, rest: seq<Input>)
    requires Valid(w.client)
    ensures Valid(Replication.Run(w, AsEvents(c, x)).client)
    ensures Replication.Run(w, ToEvents(c, [x] + rest))
            == Replication.Run(Replication.Run(w, AsEvents(c, x)), ToEvents(Ticked(c, x), rest))
    ensures ClockAfter(c, [x] + rest) == ClockAfter(Ticked(c, x), rest)
  {
    assert ([x] + rest)[1..] == rest;
    RunAppended(w, AsEvents(c, x), ToEvents(Ticked(c, x), rest));
  }

  lemma FirstStepReplicates(s: System, bank: Bank, p: Page, j: Joint, rest: seq<Input>)
    requires Fits(s, p) && IsProper(s, bank, p, j)
    ensures var s', xs := Step(s, bank, p, j), InputOf(s, j) + rest;
            && Valid(s'.w.client)
            && Replication.Run(s.w, ToEvents(s.c, xs)) == Replication.Run(s'.w, ToEvents(s'.c, rest))
            && ClockAfter(s.c, xs) == ClockAfter(s'.c, rest)
  {
    var first := InputOf(s, j);
    StepKeepsFit(s, bank, p, j);
    StepReplicates(s, bank, p, j);
    if first == [] {
      assert first + rest == rest;
    } else {
      assert first == [first[0]];
      FirstInput(s.w, s.c, first[0], rest);
    }
  }

  /** The joint system refines page and replication protocol: whatever the service does in between, the
      queue's world and the page's clock run through exactly the inputs they see. */
  lemma {:induction false} SystemReplicates(s: System, bank: Bank, p: Page, js: seq<Joint>)
    requires Fits(s, p) && Proper(s, bank, p, js)
    ensures var xs, end := Inputs(s, bank, p, js), RunSystem(s, bank, p, js);
            && end.w == Replication.Run(s.w, ToEvents(s.c, xs))
            && end.c == ClockAfter(s.c, xs)
    decreases |js|
  {
    if js != [] {
      var s' := Step(s, bank, p, js[0]);
      StepKeepsFit(s, bank, p, js[0]);
      SystemReplicates(s', bank, p, js[1..]);
      FirstStepReplicates(s, bank, p, js[0], Inputs(s', bank, p, js[1..]));
    }
  }
}
