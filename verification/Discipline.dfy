/**
 * The protocol a client must follow on each request parameter block (RPB),
 * read off the requests alone, and what one exchange keeps of it.
 */
module Discipline {
  import opened Wrappers
  import opened Job
  import opened Session

  // ----- The protocol as an automaton over the log -----

  datatype Cursor = NoCursor | Open(more: bool)

  /** Where an RPB stands, from what the client asked and was told. */
  datatype Phase = Absent | Live(prepared: bool, described: bool, cursor: Cursor)

  /** The requests the protocol allows on an RPB; requests on handle 0 are about the connection. */
  predicate Allowed(p: Phase, q: Request) {
    match q.op
    case SetAttributes(_, _) => q.rpb == 0
    case RetrieveAttributes => q.rpb == 0
    case Commit => q.rpb == 0
    case Rollback => q.rpb == 0
    case CreateRPB => 1 <= q.rpb <= MAX_STATEMENTS && p.Absent?
    case PrepareDescribe(_) => p.Live? && !p.prepared
    case ChangeDescriptor(_) => p.Live? && p.prepared && !p.described && q.pm == q.rpb
    case Execute(hasData) => p.Live? && p.prepared && p.cursor.NoCursor? && (hasData ==> p.described && q.pm == q.rpb)
    case OpenDescribeFetch(_, hasData) =>
      p.Live? && p.prepared && p.cursor.NoCursor? && (hasData ==> p.described && q.pm == q.rpb)
    case Fetch(_) => p.Live? && p.cursor.Open? && p.cursor.more
    case CloseCursor(_) => p.Live? && p.cursor.Open?
    case DeleteDescriptor => p.Live? && p.described && p.cursor.NoCursor? && q.pm == q.rpb
    case DeleteRPB => p.Live? && !p.described && p.cursor.NoCursor?
  }

  function AfterBlock(r: Reply, more: bool): Cursor {
    if CursorClosedByServer(r) then NoCursor else Open(more && !EndOfData(r))
  }

  function Advance(p: Phase, e: Entry): Phase {
    var ok := e.seen.Some? && !Failed(e.seen.value);
    match e.req.op
    case CreateRPB => Live(false, false, NoCursor)
    case DeleteRPB => Absent
    case PrepareDescribe(_) => if p.Live? && ok then p.(prepared := true) else p
    case ChangeDescriptor(_) => if p.Live? then p.(described := true) else p
    case DeleteDescriptor => if p.Live? then p.(described := false) else p
    case OpenDescribeFetch(_, _) => if p.Live? && ok then p.(cursor := AfterBlock(e.seen.value, true)) else p
    case Fetch(_) => if p.Live? && ok then p.(cursor := AfterBlock(e.seen.value, HasRows(e.seen.value))) else p
    case CloseCursor(_) => if p.Live? then p.(cursor := NoCursor) else p
    case _ => p
  }

  function PhaseOf(log: seq<Entry>, id: nat): Phase {
    if log == [] then Absent
    else
      var p := PhaseOf(log[..|log| - 1], id);
      var e := log[|log| - 1];
      if e.req.rpb == id then Advance(p, e) else p
  }

  /** Every request written was allowed when it was written. */
  ghost predicate Disciplined(log: seq<Entry>) {
    forall i :: 0 <= i < |log| ==> Allowed(PhaseOf(log[..i], log[i].req.rpb), log[i].req)
  }

  /** Every reply the client took for an answer does answer the request it was taken for. */
  ghost predicate InStep(log: seq<Entry>) {
    forall i :: 0 <= i < |log| && log[i].seen.Some? ==>
      log[i].seen.value.answers == i && Failed(log[i].seen.value) == !log[i].accepted
  }

  /** A FETCH answered without rows although the end of data was not signalled. */
  predicate StalledFetch(e: Entry, id: nat) {
    e.req.op.Fetch? && e.req.rpb == id && e.seen.Some? && !Failed(e.seen.value)
    && !EndOfData(e.seen.value) && !HasRows(e.seen.value)
  }

  /** The current cursor of an RPB was answered a FETCH that way. */
  ghost predicate Stalled(log: seq<Entry>, id: nat) {
    exists i :: 0 <= i < |log| && StalledFetch(log[i], id)
      && forall j :: i < j < |log| && log[j].req.rpb == id ==> !log[j].req.op.OpenDescribeFetch?
  }

  // ----- Server and client resources -----

  /** Requests whose rejection the client never sees, or sees but ignores. */
  predicate Housekeeping(op: Op) {
    op.CreateRPB? || op.DeleteRPB? || op.ChangeDescriptor? || op.DeleteDescriptor? || op.CloseCursor?
  }

  ghost predicate HousekeepingAccepted(log: seq<Entry>) {
    forall i :: 0 <= i < |log| && Housekeeping(log[i].req.op) ==> log[i].accepted
  }

  ghost predicate MirrorsAt(s: Server, p: Phase, id: nat) {
    && (id in s.rpbs <==> p.Live?)
    && (id in s.descriptors <==> p.Live? && p.described)
    && (id in s.cursors <==> p.Live? && p.cursor.Open?)
  }

  /** The job holds exactly the blocks, descriptors and cursors the log says it should. */
  ghost predicate Mirrors(n: Net) {
    forall id: nat :: MirrorsAt(n.server, PhaseOf(n.log, id), id)
  }

  ghost predicate Mirrored(n: Net) {
    HousekeepingAccepted(n.log) ==> Mirrors(n)
  }

  // ----- What one exchange keeps -----

  /** What holds of a connection between operations, broken or not. */
  ghost predicate Good(c: ConnState) {
    && Disciplined(c.net.log)
    && InStep(c.net.log)
    && (!c.broken ==> c.net.owed == [] && Mirrored(c.net))
  }

  lemma PhaseAppend(log: seq<Entry>, e: Entry, id: nat)
    ensures PhaseOf(log + [e], id) == if e.req.rpb == id then Advance(PhaseOf(log, id), e) else PhaseOf(log, id)
  {
    assert (log + [e])[..|log|] == log;
  }

  lemma AppendKeeps(log: seq<Entry>, e: Entry)
    requires Disciplined(log) && Allowed(PhaseOf(log, e.req.rpb), e.req)
    requires InStep(log) && (e.seen.Some? ==> e.seen.value.answers == |log| && Failed(e.seen.value) == !e.accepted)
    ensures Disciplined(log + [e]) && InStep(log + [e])
  {
    var log' := log + [e];
    forall i | 0 <= i < |log'| ensures Allowed(PhaseOf(log'[..i], log'[i].req.rpb), log'[i].req) {
      assert log'[..i] == log[..i];
      if i == |log| {
        assert log[..i] == log;
      }
    }
  }

  /** The entry a wanted and intact, or an unwanted, exchange leaves in the log. */
  function EntryFor(n: Net, q: Request): Entry {
    var (s, r) := Serve(n.server, q, n.oracle(n.clock), |n.log|);
    Entry(q, !Failed(r), if q.ors != 0 then Some(r) else None)
  }

  /** An exchange that succeeds. */
  predicate Completed(n: Net, q: Request) {
    var f := n.oracle(n.clock);
    f.sending.Whole? && (q.ors != 0 ==> f.returning.Intact?)
  }

  /** The connection after a completed exchange. */
  function Settled(n: Net, q: Request): Net {
    var (s, r) := Serve(n.server, q, n.oracle(n.clock), |n.log|);
    n.(clock := n.clock + 1, server := s, log := n.log + [EntryFor(n, q)])
  }

  /** When nothing is owed, an exchange either completes in step, or it fails and logs at most its own request. */
  lemma ExchangeCases(n: Net, q: Request)
    requires n.owed == []
    ensures var want := q.ors != 0;
      var (n', r) := Exchange(n, q, want);
      if Completed(n, q) then
        && n' == Settled(n, q)
        && r.Success? && r.value.Some? == want
        && (want ==> r.value == Some(Raw(EntryFor(n, q).seen.value, false)))
      else
        && (r.Success? ==> r.value.Some? && r.value.value.garbled)
        && (n'.log == n.log || exists ok :: n'.log == n.log + [Entry(q, ok, None)])
  {
    var want := q.ors != 0;
    var f := n.oracle(n.clock);
    var n0 := n.(clock := n.clock + 1);
    var (s, r) := Serve(n.server, q, f, |n.log|);
    var d := Deliver(n0, q, f);
    assert d.log == n.log + [Entry(q, !Failed(r), None)];
    if f.sending.Torn? && !f.sending.arrived {
      assert Exchange(n, q, want).0.log == n.log + [Entry(q, false, None)];
    }
    if want {
      assert d.owed == [r] && d.owed[1..] == [];
      assert Noted(d.log, r) == n.log + [Entry(q, !Failed(r), Some(r))];
    }
  }

  lemma ServeAnswers(s: Server, q: Request, f: Fate, serial: nat)
    ensures Serve(s, q, f, serial).1.answers == serial
  {
  }

  /** Which requests ask for a reply. */
  predicate WellFormed(q: Request) {
    q.ors == 0 <==> (q.op.CreateRPB? || q.op.ChangeDescriptor? || q.op.DeleteDescriptor? || q.op.CloseCursor?)
  }

  lemma ServeMirrors(n: Net, q: Request, id: nat)
    requires Allowed(PhaseOf(n.log, q.rpb), q)
    requires WellFormed(q)
    requires Housekeeping(q.op) ==> EntryFor(n, q).accepted
    requires MirrorsAt(n.server, PhaseOf(n.log, id), id)
    ensures MirrorsAt(Settled(n, q).server, PhaseOf(Settled(n, q).log, id), id)
  {
    PhaseAppend(n.log, EntryFor(n, q), id);
  }

  lemma SettledKeeps(n: Net, q: Request)
    requires Disciplined(n.log) && InStep(n.log) && Mirrored(n)
    requires WellFormed(q) && Allowed(PhaseOf(n.log, q.rpb), q)
    ensures var n' := Settled(n, q); Disciplined(n'.log) && InStep(n'.log) && Mirrored(n')
  {
    var n' := Settled(n, q);
    ServeAnswers(n.server, q, n.oracle(n.clock), |n.log|);
    AppendKeeps(n.log, EntryFor(n, q));
    if HousekeepingAccepted(n'.log) {
      assert n'.log[|n.log|] == EntryFor(n, q);
      forall i | 0 <= i < |n.log| && Housekeeping(n.log[i].req.op) ensures n.log[i].accepted {
        assert n'.log[i] == n.log[i];
      }
      forall id: nat ensures MirrorsAt(n'.server, PhaseOf(n'.log, id), id) {
        assert MirrorsAt(n.server, PhaseOf(n.log, id), id);
        ServeMirrors(n, q, id);
      }
    }
  }

  /** Requests about a statement leave the commitment control of the job alone. */
  predicate JobKept(s: Server, s': Server) {
    s'.autoCommit == s.autoCommit && s'.level == s.level && (s'.pending ==> s.pending || s.level != 0)
  }

  /** Exchanges on RPB `id` leave every other RPB where it was. */
  ghost predicate OnlyTouches(c: ConnState, c': ConnState, id: nat) {
    && (forall j: nat :: j != id ==> PhaseOf(c'.net.log, j) == PhaseOf(c.net.log, j))
    && c.net.log <= c'.net.log
    && (forall i :: |c.net.log| <= i < |c'.net.log| ==> c'.net.log[i].req.rpb == id)
    && (id != 0 && !c'.broken ==> JobKept(c.net.server, c'.net.server))
    && (!c'.broken ==> forall j: nat :: j != id ==> Remainder(c'.net.server, j) == Remainder(c.net.server, j))
    && (c.broken ==> c'.broken)
    && c'.closed == c.closed
    && c'.opts == c.opts
  }

  lemma OnlyTouchesTransitive(a: ConnState, b: ConnState, c: ConnState, id: nat)
    requires OnlyTouches(a, b, id) && OnlyTouches(b, c, id)
    ensures OnlyTouches(a, c, id)
  {
  }

  /** Send on a usable connection. */
  lemma SendKeeps(c: ConnState, q: Request)
    requires Good(c) && Usable(c).None? && q.ors == 0 && WellFormed(q)
    requires Allowed(PhaseOf(c.net.log, q.rpb), q)
    ensures var (c', e) := Send(c, q);
      && Good(c') && OnlyTouches(c, c', q.rpb)
      && c' == c.(net := c'.net, broken := c'.broken)
      && (c'.broken <==> e.Some?)
      && (e.None? <==> Completed(c.net, q))
      && (e.None? ==> c'.net == Settled(c.net, q))
  {
    ExchangeCases(c.net, q);
    SettledKeeps(c.net, q);
    var (c', e) := Send(c, q);
    LoggedKeeps(c, c', q);
  }

  /** Call on a usable connection: the reply it returns answers the request it wrote. */
  lemma CallKeeps(c: ConnState, q: Request)
    requires Good(c) && Usable(c).None? && q.ors != 0 && WellFormed(q)
    requires Allowed(PhaseOf(c.net.log, q.rpb), q)
    ensures var (c', r) := Call(c, q);
      && Good(c') && OnlyTouches(c, c', q.rpb)
      && c' == c.(net := c'.net, broken := c'.broken)
      && (c'.broken <==> r.Failure?)
      && (r.Success? <==> Completed(c.net, q))
      && (r.Success? ==>
            && c'.net == Settled(c.net, q)
            && EntryFor(c.net, q).seen == Some(r.value)
            && r.value.answers == |c.net.log|)
  {
    ExchangeCases(c.net, q);
    SettledKeeps(c.net, q);
    ServeAnswers(c.net.server, q, c.net.oracle(c.net.clock), |c.net.log|);
    var (c', r) := Call(c, q);
    LoggedKeeps(c, c', q);
  }

  /** An allowed request about one statement leaves the job as it was. */
  lemma ServeKeepsJob(s: Server, q: Request, f: Fate, serial: nat, p: Phase)
    requires Allowed(p, q) && q.rpb != 0
    ensures JobKept(s, Serve(s, q, f, serial).0)
  {
  }

  /** A request about one statement leaves the other cursors as they were. */
  lemma ServeKeepsCursors(s: Server, q: Request, f: Fate, serial: nat, j: nat)
    requires j != q.rpb
    ensures Remainder(Serve(s, q, f, serial).0, j) == Remainder(s, j)
  {
  }

  /** The log grew by the request, or by nothing. */
  lemma LoggedKeeps(c: ConnState, c': ConnState, q: Request)
    requires Disciplined(c.net.log) && InStep(c.net.log)
    requires Allowed(PhaseOf(c.net.log, q.rpb), q)
    requires
      || c'.net.log == c.net.log
      || c'.net.log == c.net.log + [EntryFor(c.net, q)]
      || exists ok :: c'.net.log == c.net.log + [Entry(q, ok, None)]
    requires (c.broken ==> c'.broken) && c'.closed == c.closed && c'.opts == c.opts
    requires !c'.broken ==> c'.net == Settled(c.net, q)
    ensures OnlyTouches(c, c', q.rpb) && Disciplined(c'.net.log) && InStep(c'.net.log)
  {
    hide Disciplined, InStep, Allowed, Serve, JobKept;
    var f, n := c.net.oracle(c.net.clock), |c.net.log|;
    if q.rpb != 0 {
      ServeKeepsJob(c.net.server, q, f, n, PhaseOf(c.net.log, q.rpb));
    }
    forall j: nat | j != q.rpb ensures Remainder(Serve(c.net.server, q, f, n).0, j) == Remainder(c.net.server, j) {
      ServeKeepsCursors(c.net.server, q, f, n, j);
    }
    if c'.net.log != c.net.log {
      var e := c'.net.log[|c.net.log|];
      assert c'.net.log == c.net.log + [e];
      ServeAnswers(c.net.server, q, c.net.oracle(c.net.clock), |c.net.log|);
      AppendKeeps(c.net.log, e);
      forall j: nat ensures j != q.rpb ==> PhaseOf(c'.net.log, j) == PhaseOf(c.net.log, j) {
        PhaseAppend(c.net.log, e, j);
      }
    }
  }
}
