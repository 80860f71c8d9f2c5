/**
 * What each operation of a session says to its caller, and what it sent: the
 * requests of each operation are written out here field by field, and an
 * operation succeeds exactly if its own requests come off in order.
 */
module Outcomes {
  import opened Wrappers
  import opened Job
  import opened Session
  import opened Discipline
  import opened Statements
  import opened Transactions

  // ----- Requests in sequence -----

  /** The connection after these requests, all of them completed. */
  function Sent(n: Net, qs: seq<Request>): Net
    decreases |qs|
  {
    if qs == [] then n else Sent(Settled(n, qs[0]), qs[1..])
  }

  /** Every request is written whole; those with a reply are answered, and accepted. */
  predicate ComesOff(n: Net, qs: seq<Request>)
    decreases |qs|
  {
    || qs == []
    || (Completed(n, qs[0]) && (qs[0].ors != 0 ==> Accepts(n)) && ComesOff(Settled(n, qs[0]), qs[1..]))
  }

  /** The server accepts the next request. */
  predicate Accepts(n: Net) {
    var f := n.oracle(n.clock);
    f.errorClass == 0 || f.returnCode >= 0
  }

  lemma AcceptsIsAccepted(n: Net, q: Request)
    ensures EntryFor(n, q).accepted == Accepts(n)
    ensures q.ors != 0 && !Accepts(n) ==>
      ServerError(EntryFor(n, q).seen.value) == Refused(n.oracle(n.clock).errorClass, n.oracle(n.clock).returnCode)
  {
  }

  lemma {:induction false} InTwoParts(n: Net, a: seq<Request>, b: seq<Request>)
    ensures Sent(n, a + b) == Sent(Sent(n, a), b)
    ensures ComesOff(n, a + b) <==> ComesOff(n, a) && ComesOff(Sent(n, a), b)
    decreases |a|
  {
    hide Settled, Completed, Accepts;
    if a == [] {
      assert a + b == b;
    } else {
      assert (a + b)[1..] == a[1..] + b;
      InTwoParts(Settled(n, a[0]), a[1..], b);
    }
  }

  lemma Single(n: Net, q: Request)
    ensures Sent(n, [q]) == Settled(n, q)
    ensures ComesOff(n, [q]) <==> Completed(n, q) && (q.ors != 0 ==> Accepts(n))
  {
    assert [q][1..] == [];
  }

  // ----- The requests, field by field -----

  function Create(id: nat): Request {
    Request(CreateRPB, id, 0, 0)
  }

  function PrepareDescribing(id: nat, kind: nat): Request {
    Request(PrepareDescribe(kind), id, 0xEA80_0000, 0)
  }

  function Closing(st: StmtState, reuse: nat): seq<Request> {
    if st.rows.Some? && st.rows.value.cursorOpen then [Request(CloseCursor(reuse), st.id, 0, 0)] else []
  }

  function Describing(st: StmtState): seq<Request> {
    if st.params != [] && !st.descriptorSent then [Request(ChangeDescriptor(st.params), st.id, 0, st.id)] else []
  }

  function Executing(st: StmtState): Request {
    Request(Execute(st.params != []), st.id, 0xE200_0000, if st.params != [] then st.id else 0)
  }

  function Opening(st: StmtState, blockSize: nat): Request {
    Request(OpenDescribeFetch(BlockingFactor(blockSize, st.columns), st.params != []), st.id, 0xE600_0000,
            if st.params != [] then st.id else 0)
  }

  function Fetching(st: StmtState, blockSize: nat): Request {
    Request(Fetch(BlockingFactor(blockSize, st.columns)), st.id, 0xE400_0000, 0)
  }

  function Dropping(st: StmtState): seq<Request> {
    (if st.descriptorSent then [Request(DeleteDescriptor, st.id, 0, st.id)] else [])
    + [Request(DeleteRPB, st.id, 0xE000_0000, 0)]
  }

  function Setting(on: bool, level: nat): Request {
    Request(SetAttributes(on, if on then 0 else level), 0, 0xE100_0000, 0)
  }

  /** A failure of the network: the connection is broken by it. */
  predicate BrokeIt(c: ConnState, e: Error) {
    c.broken && (e == IO || e == Decode)
  }

  // ----- One request -----

  /** What a caller gets from one request with a reply. */
  ghost predicate CallSays(c: ConnState, q: Request, c': ConnState, r: Result<Reply, Error>)
    requires q.ors != 0
  {
    if !Completed(c.net, q) then r.Failure? && BrokeIt(c', r.error)
    else c' == c.(net := Settled(c.net, q)) && r == Success(EntryFor(c.net, q).seen.value)
  }

  lemma CallDecides(c: ConnState, q: Request)
    requires Good(c) && Usable(c).None? && q.ors != 0
    ensures CallSays(c, q, Call(c, q).0, Call(c, q).1)
  {
    hide Serve;
    ExchangeCases(c.net, q);
  }

  lemma SendDecides(c: ConnState, q: Request)
    requires Good(c) && Usable(c).None? && q.ors == 0
    ensures var (c', e) := Send(c, q);
      if Completed(c.net, q) then c' == c.(net := Settled(c.net, q)) && e.None?
      else e.Some? && BrokeIt(c', e.value)
  {
    hide Serve;
    ExchangeCases(c.net, q);
  }

  /** A command: nothing but success or failure comes of it. */
  lemma CommandDecides(c: ConnState, q: Request)
    requires Good(c) && Usable(c).None? && q.ors != 0
    ensures var (c', e) := Command(c, q);
      var f := c.net.oracle(c.net.clock);
      && (e.None? <==> ComesOff(c.net, [q]))
      && (e.Some? ==>
            if Completed(c.net, q) then e.value == Refused(f.errorClass, f.returnCode) else BrokeIt(c', e.value))
      && (Completed(c.net, q) ==> c' == c.(net := Settled(c.net, q)))
  {
    hide Settled, EntryFor;
    CallDecides(c, q);
    AcceptsIsAccepted(c.net, q);
    EntrySays(c.net, q);
    Single(c.net, q);
  }

  lemma EntrySays(n: Net, q: Request)
    requires q.ors != 0
    ensures var e := EntryFor(n, q);
      e.seen.Some? && e.accepted == !Failed(e.seen.value)
      && (q.op.Execute? ==> e.seen.value.rowCount == n.oracle(n.clock).rowCount)
      && (q.op.PrepareDescribe? && e.accepted ==>
            e.seen.value.columns == n.oracle(n.clock).columns && e.seen.value.params == n.oracle(n.clock).params)
  {
  }

  /** The requests that were sent, one entry each. */
  lemma {:induction false} SentLog(n: Net, qs: seq<Request>)
    ensures n.log <= Sent(n, qs).log && |Sent(n, qs).log| == |n.log| + |qs|
    ensures forall i :: 0 <= i < |qs| ==> Sent(n, qs).log[|n.log| + i].req == qs[i]
    ensures Sent(n, qs).clock == n.clock + |qs| && Sent(n, qs).oracle == n.oracle
    decreases |qs|
  {
    hide Serve;
    if qs != [] {
      var n1 := Settled(n, qs[0]);
      SentLog(n1, qs[1..]);
      assert n1.log[|n.log|].req == qs[0];
      forall i | 0 <= i < |qs| ensures Sent(n, qs).log[|n.log| + i].req == qs[i] {
        if i > 0 {
          assert Sent(n1, qs[1..]).log[|n1.log| + (i - 1)].req == qs[1..][i - 1];
        }
      }
    }
  }

  // ----- Running a statement -----

  lemma CloseRowsDecides(c: ConnState, st: StmtState, reuse: nat)
    requires Good(c) && StmtOk(c, st.(closed := false)) && Usable(c).None?
    ensures var (c', st', e) := CloseRows(c, st, reuse);
      var qs := Closing(st, reuse);
      && st' == st.(rows := None)
      && (e.None? <==> ComesOff(c.net, qs))
      && (if e.None? then c' == c.(net := Sent(c.net, qs)) else BrokeIt(c', e.value))
  {
    hide Send, Settled, Completed, Accepts, Disciplined, InStep, Mirrored, Stalled;
    if st.rows.Some? && st.rows.value.cursorOpen {
      var q := Request(CloseCursor(reuse), st.id, 0, 0);
      SendDecides(c, q);
      Single(c.net, q);
    }
  }

  /** Arguments that fit the statement's markers. */
  predicate Fit(st: StmtState, args: seq<Arg>) {
    |args| == |st.params| && forall i :: 0 <= i < |args| ==> args[i] != BadArg
  }

  function Misfit(st: StmtState, args: seq<Arg>): Error {
    Usage(if |args| != |st.params| then ArgumentCount else BadArgument)
  }

  lemma BindDecides(c: ConnState, st: StmtState, args: seq<Arg>)
    requires Good(c) && StmtOk(c, st) && !st.closed && Usable(c).None? && st.rows.None?
    ensures var (c', st', e) := Bind(c, st, args);
      var qs := Describing(st);
      if !Fit(st, args) then c' == c && st' == st && e == Some(Misfit(st, args))
      else
        && (e.None? <==> ComesOff(c.net, qs))
        && (if e.None? then
              c' == c.(net := Sent(c.net, qs)) && st' == st.(descriptorSent := st.descriptorSent || st.params != [])
            else
              BrokeIt(c', e.value))
  {
    hide Send, Settled, Completed, Accepts, Disciplined, InStep, Mirrored, Stalled;
    if Fit(st, args) && st.params != [] && !st.descriptorSent {
      var q := Request(ChangeDescriptor(st.params), st.id, 0, st.id);
      SendDecides(c, q);
      Single(c.net, q);
    }
  }

  /** What is due before a statement is run: its open cursor is closed, and its descriptor sent once. */
  function Due(st: StmtState): seq<Request> {
    Closing(st, 0xF1) + Describing(st)
  }

  /** The connection and the statement once what is due has come off. */
  lemma DueDecides(c: ConnState, st: StmtState, args: seq<Arg>)
    requires Good(c) && StmtOk(c, st) && StmtUsable(c, st).None? && Fit(st, args)
    ensures var (c1, st1, e1) := CloseRows(c, st, REUSE_YES);
      var (c2, st2, e2) := Bind(c1, st1, args);
      && (e1.None? && e2.None? <==> ComesOff(c.net, Due(st)))
      && (e1.Some? ==> BrokeIt(c1, e1.value))
      && (e1.None? && e2.Some? ==> BrokeIt(c2, e2.value))
      && (e1.None? && e2.None? ==>
            && c2 == c.(net := Sent(c.net, Due(st)))
            && st2 == st.(rows := None, descriptorSent := st.descriptorSent || st.params != [])
            && Good(c2) && StmtOk(c2, st2) && Usable(c2).None?)
  {
    hide Send, CloseRows, Bind, Settled, Completed, Accepts;
    hide Disciplined, InStep, Mirrored, Stalled, Sent, ComesOff, PhaseOf;
    CloseRowsDecides(c, st, REUSE_YES);
    CloseRowsKeeps(c, st, REUSE_YES);
    var (c1, st1, e1) := CloseRows(c, st, REUSE_YES);
    InTwoParts(c.net, Closing(st, 0xF1), Describing(st));
    if e1.None? {
      BindDecides(c1, st1, args);
      BindKeeps(c1, st1, args);
    }
  }

  /**
   * Exec, decided. It succeeds exactly if what is due and the EXECUTE itself
   * come off, and then returns the row count of the EXECUTE's answer. A
   * rejected EXECUTE is returned as the server's error, and any other failure
   * breaks the connection.
   */
  lemma ExecDecides(c: ConnState, st: StmtState, args: seq<Arg>)
    requires Good(c) && StmtOk(c, st) && StmtUsable(c, st).None? && st.columns == [] && Fit(st, args)
    ensures var (c', st', r) := Exec(c, st, args);
      var n := Sent(c.net, Due(st));
      var f := n.oracle(n.clock);
      && (r.Success? <==> ComesOff(c.net, Due(st) + [Executing(st)]))
      && (r.Success? ==> r.value == f.rowCount)
      && (r.Failure? ==>
            if ComesOff(c.net, Due(st)) && Completed(n, Executing(st)) then
              r.error == Refused(f.errorClass, f.returnCode)
            else BrokeIt(c', r.error))
      && (ComesOff(c.net, Due(st)) && Completed(n, Executing(st)) ==>
            && c' == c.(net := Sent(c.net, Due(st) + [Executing(st)]))
            && st' == st.(rows := None, descriptorSent := st.descriptorSent || st.params != []))
  {
    hide Call, CloseRows, Bind, Settled, Completed, Accepts, Disciplined;
    hide InStep, Mirrored, Stalled, Sent, ComesOff, Due, EntryFor;
    DueDecides(c, st, args);
    var n, q := Sent(c.net, Due(st)), Executing(st);
    InTwoParts(c.net, Due(st), [q]);
    Single(n, q);
    AcceptsIsAccepted(n, q);
    EntrySays(n, q);
    var (c1, st1, e1) := CloseRows(c, st, REUSE_YES);
    var (c2, st2, e2) := Bind(c1, st1, args);
    if e1.None? && e2.None? {
      CallDecides(c2, q);
    }
  }

  /** A statement that cannot be run so, or with these arguments: at most its open cursor is closed. */
  lemma ExecRefuses(c: ConnState, st: StmtState, args: seq<Arg>)
    requires Good(c) && StmtOk(c, st) && (StmtUsable(c, st).Some? || st.columns != [] || !Fit(st, args))
    ensures var (c', st', r) := Exec(c, st, args);
      && r.Failure?
      && (StmtUsable(c, st).Some? ==> r.error == StmtUsable(c, st).value && c' == c)
      && (StmtUsable(c, st).None? && st.columns != [] ==> r.error == Usage(ReturnsRows) && c' == c)
      && (StmtUsable(c, st).None? && st.columns == [] ==>
            if ComesOff(c.net, Closing(st, 0xF1)) then
              r.error == Misfit(st, args) && c' == c.(net := Sent(c.net, Closing(st, 0xF1)))
            else BrokeIt(c', r.error))
  {
    hide Call, CloseRows, Bind, Settled, Completed, Accepts, Disciplined, InStep, Mirrored, Stalled, Sent, ComesOff;
    if StmtUsable(c, st).None? && st.columns == [] {
      CloseRowsDecides(c, st, REUSE_YES);
      CloseRowsKeeps(c, st, REUSE_YES);
      var (c1, st1, e1) := CloseRows(c, st, REUSE_YES);
      if e1.None? {
        BindDecides(c1, st1, args);
      }
    }
  }

  /** Query, decided in the same way; the block and the flags of its rows are those of the OPEN's answer. */
  lemma OpenDecides(c: ConnState, st: StmtState, args: seq<Arg>)
    requires Good(c) && StmtOk(c, st) && StmtUsable(c, st).None? && st.columns != [] && Fit(st, args)
    ensures var (c', st', e) := OpenRows(c, st, args);
      var n := Sent(c.net, Due(st));
      var q := Opening(st, c.opts.blockSize);
      var f := n.oracle(n.clock);
      && (e.None? <==> ComesOff(c.net, Due(st) + [q]))
      && (e.None? ==>
            && c' == c.(net := Sent(c.net, Due(st) + [q]))
            && st'.rows.Some? && st'.rows.value.next == 0 && !st'.rows.value.closeStmt)
      && (e.Some? ==>
            if ComesOff(c.net, Due(st)) && Completed(n, q) then e.value == Refused(f.errorClass, f.returnCode)
            else BrokeIt(c', e.value))
  {
    hide Call, CloseRows, Bind, Settled, Completed, Accepts, Disciplined;
    hide InStep, Mirrored, Stalled, Sent, ComesOff, Due, EntryFor;
    DueDecides(c, st, args);
    var n, q := Sent(c.net, Due(st)), Opening(st, c.opts.blockSize);
    InTwoParts(c.net, Due(st), [q]);
    Single(n, q);
    AcceptsIsAccepted(n, q);
    EntrySays(n, q);
    var (c1, st1, e1) := CloseRows(c, st, REUSE_YES);
    var (c2, st2, e2) := Bind(c1, st1, args);
    if e1.None? && e2.None? {
      CallDecides(c2, q);
    }
  }

  /** And when it is refused: at most the open cursor is closed. */
  lemma OpenRefuses(c: ConnState, st: StmtState, args: seq<Arg>)
    requires Good(c) && StmtOk(c, st) && (StmtUsable(c, st).Some? || st.columns == [] || !Fit(st, args))
    ensures var (c', st', e) := OpenRows(c, st, args);
      && e.Some?
      && (StmtUsable(c, st).Some? ==> e == StmtUsable(c, st) && c' == c)
      && (StmtUsable(c, st).None? && st.columns == [] ==> e.value == Usage(ReturnsNoRows) && c' == c)
      && (StmtUsable(c, st).None? && st.columns != [] ==>
            if ComesOff(c.net, Closing(st, 0xF1)) then
              e.value == Misfit(st, args) && c' == c.(net := Sent(c.net, Closing(st, 0xF1)))
            else BrokeIt(c', e.value))
  {
    hide Call, CloseRows, Bind, Settled, Completed, Accepts, Disciplined, InStep, Mirrored, Stalled, Sent, ComesOff;
    if StmtUsable(c, st).None? && st.columns != [] {
      CloseRowsDecides(c, st, REUSE_YES);
      CloseRowsKeeps(c, st, REUSE_YES);
      var (c1, st1, e1) := CloseRows(c, st, REUSE_YES);
      if e1.None? {
        BindDecides(c1, st1, args);
      }
    }
  }

  /** A FETCH: no error exactly if it comes off, and then the block is the answer's, from its first row. */
  lemma FetchDecides(c: ConnState, st: StmtState)
    requires Good(c) && Usable(c).None? && st.rows.Some?
    ensures var (c', st', e) := FetchBlock(c, st);
      var q := Fetching(st, c.opts.blockSize);
      var f := c.net.oracle(c.net.clock);
      && (e.None? <==> ComesOff(c.net, [q]))
      && (e.None? ==> st'.rows.Some? && st'.rows.value.next == 0 && c'.net == Settled(c.net, q)
                      && EntryFor(c.net, q).seen.Some?
                      && st'.rows.value.block == EntryFor(c.net, q).seen.value.block)
      && (e.Some? ==> st' == st)
      && (e.Some? ==>
            if Completed(c.net, q) then e.value == Refused(f.errorClass, f.returnCode) else BrokeIt(c', e.value))
  {
    hide Call, Settled, Completed, Accepts, EntryFor, Disciplined, InStep, Mirrored;
    var q := Fetching(st, c.opts.blockSize);
    CallDecides(c, q);
    AcceptsIsAccepted(c.net, q);
    EntrySays(c.net, q);
    Single(c.net, q);
  }

  // ----- Making and releasing a statement -----

  lemma {:induction false} NoneFree(ids: Handles)
    ensures FirstFree(ids, 1).None? <==> forall id :: 1 <= id <= 9999 ==> ids[id]
  {
  }

  /** Whether the statement's text can be sent. */
  predicate TextFits(c: ConnState, q: Query) {
    q.encodable && (c.opts.longText || q.length <= 0xFFFF)
  }

  function Making(id: nat, q: Query): seq<Request> {
    [Create(id), PrepareDescribing(id, q.kind)]
  }

  /** No free handle names anything, as far as the protocol goes. */
  ghost predicate FreeIsAbsent(c: ConnState) {
    forall id :: 1 <= id <= MAX_STATEMENTS && !c.ids[id] ==> PhaseOf(c.net.log, id) == Absent
  }

  /**
   * Prepare, decided. It succeeds exactly if there is a free handle, the text
   * fits, and CREATE_RPB and PREPARE_DESCRIBE come off; the statement is then
   * what the answer to the second describes.
   */
  lemma PrepareDecides(c: ConnState, q: Query)
    requires Good(c) && Usable(c).None? && FreeIsAbsent(c) && FirstFree(c.ids, 1).Some?
    ensures var (c', r) := Prepare(c, q);
      var id := FirstFree(c.ids, 1).value;
      var n := Settled(c.net, Create(id));
      var f := n.oracle(n.clock);
      && (r.Success? <==> TextFits(c, q) && ComesOff(c.net, Making(id, q)))
      && (r.Success? ==>
            && r.value == StmtState(id, q.kind, f.columns, f.params, false, None, false)
            && c' == c.(net := Sent(c.net, Making(id, q)), ids := c.ids[id := true]))
      && (r.Failure? ==>
            if !Completed(c.net, Create(id)) then BrokeIt(c', r.error)
            else if !q.encodable then r.error == Usage(TextNotEncodable)
            else if !TextFits(c, q) then r.error == Usage(TextTooLong)
            else if Completed(n, PrepareDescribing(id, q.kind)) then r.error == Refused(f.errorClass, f.returnCode)
            else BrokeIt(c', r.error))
  {
    hide Send, Call, Release, Settled, Completed, Accepts, Disciplined, InStep, Mirrored, Stalled, EntryFor;
    var (c0, free) := AllocID(c);
    var id := free.value;
    SendDecides(c0, Create(id));
    SendSteps(c0, Create(id));
    var (c1, e) := Send(c0, Create(id));
    InTwoParts(c.net, [Create(id)], [PrepareDescribing(id, q.kind)]);
    assert [Create(id)] + [PrepareDescribing(id, q.kind)] == Making(id, q);
    Single(c.net, Create(id));
    if e.None? && TextFits(c, q) {
      var p := PrepareDescribing(id, q.kind);
      CallDecides(c1, p);
      Single(c1.net, p);
      AcceptsIsAccepted(c1.net, p);
      EntrySays(c1.net, p);
      var c2 := Call(c1, p).0;
      if Usable(c2).Some? {
        ReleaseKeepsBroken(c2, StmtState(id, q.kind, [], [], false, None, false));
      }
    }
  }

  lemma ReleaseKeepsBroken(c: ConnState, st: StmtState)
    requires Usable(c).Some?
    ensures Release(c, st).0.broken == c.broken
  {
  }

  lemma PrepareRefuses(c: ConnState, q: Query)
    requires Usable(c).Some? || forall id :: 1 <= id <= 9999 ==> c.ids[id]
    ensures Prepare(c, q) == (c, Failure(if Usable(c).Some? then Usable(c).value else Usage(TooManyStatements)))
  {
    NoneFree(c.ids);
  }

  /** Release, decided: no error exactly if everything it has to send comes off. */
  lemma ReleaseDecides(c: ConnState, st: StmtState)
    requires Good(c) && StmtOk(c, st) && !st.closed && Usable(c).None?
    ensures var (c', st', e) := Release(c, st);
      var qs := Closing(st, 0xF0) + Dropping(st);
      && (e.None? <==> ComesOff(c.net, qs))
      && (e.None? ==> c' == c.(net := Sent(c.net, qs), ids := c.ids[st.id := false]))
      && st' == st.(closed := true, rows := None)
  {
    hide Send, Command, CloseRows, Settled, Completed, Accepts;
    hide Disciplined, InStep, Mirrored, Stalled, Sent, ComesOff, PhaseOf;
    var st1 := st.(closed := true);
    CloseRowsDecides(c, st1, REUSE_NO);
    CloseRowsKeeps(c, st1, REUSE_NO);
    var (c1, st2, e1) := CloseRows(c, st1, REUSE_NO);
    InTwoParts(c.net, Closing(st, 0xF0), Dropping(st));
    if e1.None? {
      DropDecides(c1, st2);
    }
  }

  lemma DropDecides(c: ConnState, st: StmtState)
    requires Good(c) && StmtOk(c, st.(closed := false)) && st.closed && st.rows.None? && Usable(c).None?
    ensures var (c', e) := DropBoth(c, st);
      && (e.None? <==> ComesOff(c.net, Dropping(st)))
      && (e.None? ==> c' == c.(net := Sent(c.net, Dropping(st))))
  {
    hide Send, Command, Settled, Completed, Accepts, Disciplined, InStep, Mirrored, Stalled, PhaseOf;
    var q := Request(DeleteRPB, st.id, 0xE000_0000, 0);
    if st.descriptorSent {
      var d := Request(DeleteDescriptor, st.id, 0, st.id);
      SendDecides(c, d);
      SendSteps(c, d);
      Single(c.net, d);
      InTwoParts(c.net, [d], [q]);
      var c1 := Send(c, d).0;
      if Usable(c1).None? {
        CommandDecides(c1, q);
      }
    } else {
      CommandDecides(c, q);
      assert Dropping(st) == [q];
    }
  }

  /** The part of release after the cursor is closed. */
  function DropBoth(c: ConnState, st: StmtState): (ConnState, Option<Error>) {
    if st.descriptorSent then
      var (c, e) := Send(c, DropDescriptorRequest(st.id));
      if e.Some? then (c, e) else Command(c, DropRequest(st.id))
    else Command(c, DropRequest(st.id))
  }

  // ----- One-shot forms -----

  /** Everything Conn.Exec sends for a statement that turns out to be `st`, after the statement has been made. */
  function ExecAndDrop(st: StmtState): seq<Request> {
    Due(st) + [Executing(st)] + Dropping(st.(descriptorSent := st.params != []))
  }

  /**
   * Conn.Exec, decided. It succeeds exactly if the statement can be made,
   * returns no rows and takes these arguments, and everything down to the
   * DELETE_RPB comes off; and it returns the row count of the EXECUTE's
   * answer. Whatever happens, the handles are as they were.
   */
  lemma ConnExecDecides(c: ConnState, q: Query, args: seq<Arg>)
    requires Good(c) && Usable(c).None? && FreeIsAbsent(c) && FirstFree(c.ids, 1).Some?
    ensures var (c', made, r) := ConnExec(c, q, args);
      var id := FirstFree(c.ids, 1).value;
      var f := Settled(c.net, Create(id)).oracle(Settled(c.net, Create(id)).clock);
      var st := StmtState(id, q.kind, f.columns, f.params, false, None, false);
      var n := Sent(c.net, Making(id, q));
      && c'.ids == c.ids
      && (made.Some? ==> made.value.closed)
      && (r.Success? <==>
            && TextFits(c, q) && ComesOff(c.net, Making(id, q))
            && st.columns == [] && Fit(st, args) && ComesOff(n, ExecAndDrop(st)))
      && (r.Success? ==>
            && c'.net == Sent(n, ExecAndDrop(st))
            && r.value == Sent(n, Due(st)).oracle(Sent(n, Due(st)).clock).rowCount)
  {
    hide Send, Call, Prepare, Exec, CloseStmt, Settled, Completed, Accepts, Disciplined, InStep, Mirrored, Stalled;
    hide Sent, ComesOff, Due, Executing, Dropping, PhaseOf, OnlyTouches, Making;
    PrepareDecides(c, q);
    PrepareKeeps(c, q);
    var (c0, p) := Prepare(c, q);
    if p.Success? {
      var st := p.value;
      var (c1, st1, r1) := Exec(c0, st, args);
      ExecKeeps(c0, st, args);
      ClosesWell(c1, st1);
      RestoredHandles(c, c0, st.id);
      ExecThenClose(c0, st, args);
    }
  }

  lemma RestoredHandles(c: ConnState, c0: ConnState, id: nat)
    requires 1 <= id <= MAX_STATEMENTS && !c.ids[id] && c0.ids == c.ids[id := true]
    ensures c0.ids[id := false] == c.ids
  {
    assert c0.ids[id := false] == c.ids;
  }

  lemma ClosesWell(c: ConnState, st: StmtState)
    requires Good(c) && StmtOk(c, st) && !st.closed
    ensures var (c', st', e) := CloseStmt(c, st);
      c'.ids == c.ids[st.id := false] && st'.closed && (st.rows.None? ==> st'.rows.None?)
  {
    hide Release;
    ReleaseKeeps(c, st);
    if st.rows.None? {
      ReleaseOpensNothing(c, st);
    }
  }

  lemma ReleaseOpensNothing(c: ConnState, st: StmtState)
    requires st.rows.None?
    ensures Release(c, st).1.rows.None?
  {
    hide Send, Command;
  }

  lemma ExecThenClose(c: ConnState, st: StmtState, args: seq<Arg>)
    requires Good(c) && StmtOk(c, st) && StmtUsable(c, st).None? && st.rows.None? && !st.descriptorSent
    ensures var (c1, st1, r1) := Exec(c, st, args);
      var (c2, st2, e) := CloseStmt(c1, st1);
      && (r1.Success? && e.None? <==> st.columns == [] && Fit(st, args) && ComesOff(c.net, ExecAndDrop(st)))
      && (r1.Success? && e.None? ==>
            && c2.net == Sent(c.net, ExecAndDrop(st))
            && r1.value == Sent(c.net, Due(st)).oracle(Sent(c.net, Due(st)).clock).rowCount)
  {
    hide Send, Call, Exec, Release, Settled, Completed, Accepts, Disciplined, InStep, Mirrored, Stalled;
    hide Sent, ComesOff, Due, Executing, Dropping, PhaseOf, OnlyTouches;
    if st.columns == [] && Fit(st, args) {
      ExecDecides(c, st, args);
      ExecKeeps(c, st, args);
      var (c1, st1, r1) := Exec(c, st, args);
      var run, drop := Due(st) + [Executing(st)], Dropping(st.(descriptorSent := st.params != []));
      InTwoParts(c.net, run, drop);
      if r1.Success? {
        ExecLeavesUsable(c, st, args);
        ReleaseDecides(c1, st1);
        DroppingDependsOn(st1, st.(descriptorSent := st.params != []));
        assert Closing(st1, 0xF0) + Dropping(st1) == drop;
      }
    } else {
      ExecRefuses(c, st, args);
    }
  }

  lemma DroppingDependsOn(a: StmtState, b: StmtState)
    requires a.id == b.id && a.descriptorSent == b.descriptorSent
    ensures Dropping(a) == Dropping(b)
  {
  }

  lemma {:induction false} InThreeParts(n: Net, a: seq<Request>, q: Request)
    requires ComesOff(n, a + [q])
    ensures ComesOff(n, a) && Completed(Sent(n, a), q)
  {
    hide Settled, Completed, Accepts;
    InTwoParts(n, a, [q]);
    Single(Sent(n, a), q);
  }

  /** A successful Exec leaves the connection as usable as it was. */
  lemma ExecLeavesUsable(c: ConnState, st: StmtState, args: seq<Arg>)
    requires Good(c) && StmtOk(c, st) && StmtUsable(c, st).None? && st.columns == [] && Fit(st, args)
    requires Exec(c, st, args).2.Success?
    ensures var (c', st', r) := Exec(c, st, args);
      && c' == c.(net := Sent(c.net, Due(st) + [Executing(st)]))
      && st' == st.(rows := None, descriptorSent := st.descriptorSent || st.params != [])
      && Usable(c').None?
  {
    hide Exec, Sent, ComesOff, Due, Executing, Settled, Completed;
    ExecDecides(c, st, args);
    InThreeParts(c.net, Due(st), Executing(st));
  }

  /** Closing rows from Conn.Query closes their statement and frees its handle; closing others leaves both alone. */
  lemma OneShotRowsClose(c: ConnState, st: StmtState)
    requires Good(c) && StmtOk(c, st) && st.rows.Some? && !st.closed
    ensures var (c', st', e) := CloseRowsPublic(c, st);
      && st'.rows.None?
      && (if st.rows.value.closeStmt then st'.closed && c'.ids == c.ids[st.id := false]
          else !st'.closed && c'.ids == c.ids)
  {
    hide CloseRows, CloseStmt;
    CloseRowsKeeps(c, st, REUSE_YES);
    var (c1, st1, e1) := CloseRows(c, st, REUSE_YES);
    if st.rows.value.closeStmt {
      ClosesWell(c1, st1);
    }
  }

  /** Conn.Query that succeeds leaves one-shot rows open; one that fails leaves the handles as they were. */
  lemma ConnQueryDecides(c: ConnState, q: Query, args: seq<Arg>)
    requires Good(c) && Usable(c).None? && FreeIsAbsent(c)
    ensures var (c', made, e) := ConnQuery(c, q, args);
      if e.None? then
        && made.Some? && !made.value.closed && made.value.rows.Some? && made.value.rows.value.closeStmt
        && c'.ids == c.ids[made.value.id := true] && FirstFree(c.ids, 1) == Some(made.value.id)
      else
        c'.ids == c.ids && (made.Some? ==> made.value.closed)
  {
    hide Prepare, OpenRows, CloseStmt, Disciplined, InStep, Mirrored, Stalled, PhaseOf, OnlyTouches;
    PrepareKeeps(c, q);
    var (c0, p) := Prepare(c, q);
    if p.Success? {
      OpenRowsKeeps(c0, p.value, args);
      var (c1, st1, e) := OpenRows(c0, p.value, args);
      if e.Some? {
        ClosesWell(c1, st1);
        RestoredHandles(c, c0, p.value.id);
      }
    }
  }

  // ----- The connection's own operations -----

  /**
   * A closed connection refuses everything and writes nothing; a closed
   * statement likewise, but for closing it again.
   */
  lemma ClosedRefuses(c: ConnState, st: StmtState, q: Request, args: seq<Arg>)
    ensures var closed := CloseConn(c);
      && closed == c.(closed := true)
      && Call(closed, q) == (closed, Failure(Closed)) && Send(closed, q) == (closed, Some(Closed))
    ensures st.closed ==>
      && CloseStmt(c, st) == (c, st, None)
      && Exec(c, st, args) == (c, st, Failure(Closed)) && OpenRows(c, st, args) == (c, st, Some(Closed))
  {
  }

  /**
   * Connect, once logged on, hands out a connection exactly if its
   * SET_ATTRIBUTES comes off and the attributes parse.
   */
  lemma ConnectDecides(oracle: nat -> Fate, opts: Options, attributesParse: bool)
    ensures var n := Net(oracle, 0, FRESH_JOB, [], []);
      var r := Connect(oracle, opts, attributesParse);
      && (r.Success? <==> attributesParse && ComesOff(n, [Setting(true, 0)]))
      && (r.Success? ==> r.value.net == Sent(n, [Setting(true, 0)]) && r.value.opts == opts && !r.value.inTx)
  {
    hide Command, Disciplined, InStep, Mirrored, Settled;
    var c := ConnState(
      Net(oracle, 0, FRESH_JOB, [], []), opts, seq(MAX_STATEMENTS + 1, i => false), false, false, false);
    NewIsGood(c);
    CommandDecides(c, Setting(true, 0));
    Single(c.net, Setting(true, 0));
  }

  lemma NewIsGood(c: ConnState)
    requires c.net.log == [] && c.net.owed == [] && c.net.server == FRESH_JOB
    ensures Good(c)
  {
  }

  lemma PingDecides(c: ConnState)
    requires Good(c) && Usable(c).None?
    ensures var (c', e) := Ping(c);
      var f := c.net.oracle(c.net.clock);
      var q := Request(RetrieveAttributes, 0, 0xE100_0000, 0);
      && (e.None? <==> ComesOff(c.net, [q]))
      && (e.Some? ==>
            if Completed(c.net, q) then e.value == Refused(f.errorClass, f.returnCode) else BrokeIt(c', e.value))
  {
    hide Command;
    CommandDecides(c, Request(RetrieveAttributes, 0, 0xE100_0000, 0));
  }

  /** Begin starts a transaction at exactly the level asked for, or says why not and starts none. */
  lemma BeginDecides(c: ConnState, level: nat)
    requires Good(c) && Usable(c).None?
    ensures var (c', e) := Begin(c, level);
      var f := c.net.oracle(c.net.clock);
      var q := Setting(false, level);
      && (e.None? <==> !c.inTx && 1 <= level <= 4 && ComesOff(c.net, [q]))
      && (e.None? ==> c'.inTx && c'.net == Settled(c.net, q)
                      && !c'.net.server.autoCommit && c'.net.server.level == level)
      && (e.Some? ==>
            && c'.inTx == c.inTx
            && if c.inTx then e.value == Usage(InTransaction)
               else if !(1 <= level <= 4) then e.value == Usage(BadIsolation)
               else if Completed(c.net, q) then e.value == Refused(f.errorClass, f.returnCode)
               else BrokeIt(c', e.value))
  {
    hide Command, Settled, Completed, Accepts;
    CommandDecides(c, Setting(false, level));
    CommandKeepsFlag(c, Setting(false, level));
    Single(c.net, Setting(false, level));
    if Accepts(c.net) {
      SettingSets(c.net, level);
    }
  }

  lemma CommandKeepsFlag(c: ConnState, q: Request)
    ensures Command(c, q).0.inTx == c.inTx
  {
    hide Exchange;
  }

  lemma SettingSets(n: Net, level: nat)
    requires Accepts(n)
    ensures var s := Settled(n, Setting(false, level)).server; !s.autoCommit && s.level == level
  {
  }

  /**
   * What a caller learns from Commit or Rollback that leaves the connection
   * usable: nothing if the server did it, and if not, the server's own reason.
   */
  lemma EndSaysWhy(c: ConnState, commit: bool)
    requires Good(c) && Usable(c).None? && c.inTx && EndsWell(c.net, commit)
    ensures var (c', e) := EndTransaction(c, commit);
      var f := c.net.oracle(c.net.clock);
      e == if Accepts(c.net) then None else Some(Refused(f.errorClass, f.returnCode))
  {
    hide Command, Settled, Completed, Accepts, Disciplined, InStep, Mirrored, OnlyTouches;
    var q := Request(if commit then Commit else Rollback, 0, 0xE200_0000, 0);
    CommandDecides(c, q);
    CommandCases(c, q);
    AcceptsIsAccepted(c.net, q);
    Single(c.net, q);
    EndTransactionCases(c, commit);
    EndErrorIsFirst(c, commit);
  }

  lemma EndErrorIsFirst(c: ConnState, commit: bool)
    requires c.inTx && !EndTransaction(c, commit).0.broken
    ensures EndTransaction(c, commit).1 == CommitOrRollback(c, commit).1
  {
    hide Command;
  }

  /** Errors joined keep what each of them is. */
  lemma JoinKeepsBoth(a: Option<Error>, b: Option<Error>, target: Error)
    requires !target.Joined?
    ensures var e := Join(a, b);
      && (e.None? <==> a.None? && b.None?)
      && (e.Some? ==> (e.value.Is(target) <==> (a.Some? && a.value.Is(target)) || (b.Some? && b.value.Is(target))))
  {
  }
}
