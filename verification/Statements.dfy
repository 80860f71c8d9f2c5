/** What each statement and cursor operation keeps of the protocol and of its own state. */
module Statements {
  import opened Wrappers
  import opened Job
  import opened Session
  import opened Discipline

  function CursorOf(rows: Option<RowsState>): Cursor {
    if rows.Some? && rows.value.cursorOpen then Open(!rows.value.eof) else NoCursor
  }

  function PhaseFor(st: StmtState): Phase {
    Live(true, st.descriptorSent, CursorOf(st.rows))
  }

  /** A statement and the protocol agree on where its RPB stands, as long as the connection is usable. */
  ghost predicate StmtOk(c: ConnState, st: StmtState) {
    && 1 <= st.id <= MAX_STATEMENTS
    && (st.rows.Some? && !st.rows.value.cursorOpen ==> st.rows.value.eof)
    && (Usable(c).None? && st.rows.Some? && st.rows.value.eof ==>
          Remainder(c.net.server, st.id) == [] || Stalled(c.net.log, st.id))
    && (Usable(c).None? ==>
          if st.closed then st.rows.None? else PhaseOf(c.net.log, st.id) == PhaseFor(st))
  }

  /** An operation on RPB `id` that leaves the handle table and the transaction flag alone. */
  ghost predicate Steps(c: ConnState, c': ConnState, id: nat) {
    && Good(c') && OnlyTouches(c, c', id)
    && c'.ids == c.ids && c'.inTx == c.inTx
    && (Usable(c).Some? ==> c' == c)
  }

  /** What running a statement never changes of it. */
  predicate SameStmt(st: StmtState, st': StmtState) {
    st' == st.(descriptorSent := st'.descriptorSent, rows := st'.rows)
  }

  /** Steps on the same RPB compose. */
  lemma StepsTransitive(a: ConnState, b: ConnState, c: ConnState, id: nat)
    requires Steps(a, b, id) && Steps(b, c, id)
    ensures Steps(a, c, id)
  {
  }

  /** One request without a reply, seen from the RPB it is about. */
  lemma SendSteps(c: ConnState, q: Request)
    requires Good(c) && Usable(c).None? && q.ors == 0 && WellFormed(q)
    requires Allowed(PhaseOf(c.net.log, q.rpb), q)
    ensures var (c', e) := Send(c, q);
      && Steps(c, c', q.rpb)
      && (Usable(c').None? <==> e.None?)
      && (e.None? ==> PhaseOf(c'.net.log, q.rpb) == Advance(PhaseOf(c.net.log, q.rpb), Entry(q, true, None)))
  {
    SendKeeps(c, q);
    PhaseAppend(c.net.log, EntryFor(c.net, q), q.rpb);
  }

  function RowsOf(rep: Reply): seq<Row> {
    if rep.block.Some? then rep.block.value.rows else []
  }

  /** The rows a cursor has yet to hand out before an accepted request, from the server's side. */
  function Available(n: Net, q: Request): seq<Row> {
    if q.op.OpenDescribeFetch? then n.oracle(n.clock).result else Remainder(n.server, q.rpb)
  }

  /** OPEN and FETCH hand out the front of what the cursor holds, and end of data means nothing is left. */
  lemma HandedOut(n: Net, q: Request)
    requires q.op.OpenDescribeFetch? || q.op.Fetch?
    requires q.ors != 0
    ensures var rep := EntryFor(n, q).seen.value;
      var rest := Remainder(Settled(n, q).server, q.rpb);
      if Failed(rep) then rest == Remainder(n.server, q.rpb)
      else Available(n, q) == RowsOf(rep) + rest && (EndOfData(rep) ==> rest == [])
  {
  }

  /** What a reply to an OPEN or FETCH says about the cursor. */
  ghost predicate Handed(n: Net, n': Net, q: Request, rep: Reply) {
    var rest := Remainder(n'.server, q.rpb);
    if Failed(rep) then rest == Remainder(n.server, q.rpb)
    else
      && Available(n, q) == RowsOf(rep) + rest
      && (EndOfData(rep) ==> rest == [])
      && (q.op.Fetch? && !EndOfData(rep) && !HasRows(rep) ==> Stalled(n'.log, q.rpb))
  }

  /** The last entry is a stalled FETCH. */
  lemma JustStalled(n: Net, q: Request)
    requires StalledFetch(EntryFor(n, q), q.rpb)
    ensures Stalled(Settled(n, q).log, q.rpb)
  {
    assert Settled(n, q).log[|n.log|] == EntryFor(n, q);
  }

  /** One request and its reply, seen from the RPB it is about. */
  lemma CallSteps(c: ConnState, q: Request)
    requires Good(c) && Usable(c).None? && q.ors != 0 && WellFormed(q)
    requires Allowed(PhaseOf(c.net.log, q.rpb), q)
    ensures var (c', r) := Call(c, q);
      && Steps(c, c', q.rpb)
      && (Usable(c').None? <==> r.Success?)
      && (r.Success? ==>
            PhaseOf(c'.net.log, q.rpb) == Advance(PhaseOf(c.net.log, q.rpb), Entry(q, true, Some(r.value))))
      && (r.Success? && (q.op.OpenDescribeFetch? || q.op.Fetch?) ==> Handed(c.net, c'.net, q, r.value))
  {
    CallKeeps(c, q);
    if q.op.OpenDescribeFetch? || q.op.Fetch? {
      HandedOut(c.net, q);
      if StalledFetch(EntryFor(c.net, q), q.rpb) {
        JustStalled(c.net, q);
      }
    }
    PhaseAppend(c.net.log, EntryFor(c.net, q), q.rpb);
  }

  lemma CloseRowsKeeps(c: ConnState, st: StmtState, reuse: nat)
    requires Good(c) && StmtOk(c, st.(closed := false))
    ensures var (c', st', e) := CloseRows(c, st, reuse);
      && Steps(c, c', st.id) && StmtOk(c', st'.(closed := false))
      && st' == st.(rows := None)
      && (Usable(c).None? ==> (c'.broken <==> e.Some?))
      && (e.Some? ==> Usable(c).None?)
  {
    hide Exchange, Disciplined, InStep, Mirrored, PhaseOf, Stalled;
    if st.rows.Some? && st.rows.value.cursorOpen && Usable(c).None? {
      var q := CloseRequest(st.id, reuse);
      SendSteps(c, q);
    }
  }

  lemma BindKeeps(c: ConnState, st: StmtState, args: seq<Arg>)
    requires Good(c) && StmtOk(c, st) && !st.closed && Usable(c).None? && st.rows.None?
    ensures var (c', st', e) := Bind(c, st, args);
      && Steps(c, c', st.id) && StmtOk(c', st') && SameStmt(st, st') && st'.rows.None?
      && (e.None? ==> Usable(c').None? && (st.params != [] ==> st'.descriptorSent))
  {
    hide Exchange, Disciplined, InStep, Mirrored, PhaseOf, Stalled;
    if |args| == |st.params| && st.params != [] && BadArg !in args && !st.descriptorSent {
      var q := DescriptorRequest(st);
      SendSteps(c, q);
    }
  }

  lemma ExecKeeps(c: ConnState, st: StmtState, args: seq<Arg>)
    requires Good(c) && StmtOk(c, st)
    ensures var (c', st', r) := Exec(c, st, args);
      Steps(c, c', st.id) && StmtOk(c', st') && SameStmt(st, st')
  {
    hide Exchange, Disciplined, InStep, Mirrored, PhaseOf, Stalled;
    if StmtUsable(c, st).None? && st.columns == [] {
      CloseRowsKeeps(c, st, REUSE_YES);
      var (c1, st1, e1) := CloseRows(c, st, REUSE_YES);
      if e1.None? {
        BindKeeps(c1, st1, args);
        var (c2, st2, e2) := Bind(c1, st1, args);
        StepsTransitive(c, c1, c2, st.id);
        if e2.None? {
          var q := ExecuteRequest(st2);
          CallSteps(c2, q);
          StepsTransitive(c, c2, Call(c2, q).0, st.id);
        }
      }
    }
  }

  lemma OpenRowsKeeps(c: ConnState, st: StmtState, args: seq<Arg>)
    requires Good(c) && StmtOk(c, st)
    ensures var (c', st', e) := OpenRows(c, st, args);
      && Steps(c, c', st.id) && StmtOk(c', st') && SameStmt(st, st')
      && (e.None? ==> st'.rows.Some? && Usable(c').None? && !st.closed)
      && (e.Some? && Usable(c).None? && !st.closed && st.columns != [] ==> st'.rows.None?)
  {
    hide Exchange, Disciplined, InStep, Mirrored, PhaseOf, Stalled;
    if StmtUsable(c, st).None? && st.columns != [] {
      CloseRowsKeeps(c, st, REUSE_YES);
      var (c1, st1, e1) := CloseRows(c, st, REUSE_YES);
      if e1.None? {
        BindKeeps(c1, st1, args);
        var (c2, st2, e2) := Bind(c1, st1, args);
        StepsTransitive(c, c1, c2, st.id);
        if e2.None? {
          var q := OpenRequest(st2, c2.opts.blockSize);
          CallSteps(c2, q);
          StepsTransitive(c, c2, Call(c2, q).0, st.id);
        }
      }
    }
  }

  lemma FetchKeeps(c: ConnState, st: StmtState)
    requires Good(c) && StmtOk(c, st) && st.rows.Some? && !st.rows.value.eof
    ensures var (c', st', e) := FetchBlock(c, st);
      && Steps(c, c', st.id) && StmtOk(c', st') && SameStmt(st, st') && st'.rows.Some?
      && (e.None? ==> Usable(c).None? && Usable(c').None? && (st'.rows.value.eof || HasNext(st'.rows.value)))
  {
    hide Exchange, Disciplined, InStep, Mirrored, PhaseOf, Stalled;
    if Usable(c).None? {
      var q := FetchRequest(st, c.opts.blockSize);
      CallSteps(c, q);
    }
  }

  lemma NextKeeps(c: ConnState, st: StmtState, width: nat)
    requires Good(c) && StmtOk(c, st) && st.rows.Some?
    ensures var (c', st', v) := Next(c, st, width);
      Steps(c, c', st.id) && StmtOk(c', st') && SameStmt(st, st') && st'.rows.Some?
  {
    hide Exchange, Disciplined, InStep, Mirrored, PhaseOf, Stalled;
    if !HasNext(st.rows.value) && !st.rows.value.eof {
      FetchKeeps(c, st);
    }
  }

  /** An operation on RPB `id` that gives its handle back. */
  ghost predicate Frees(c: ConnState, c': ConnState, id: nat) {
    && id <= MAX_STATEMENTS && Good(c') && OnlyTouches(c, c', id)
    && c'.ids == c.ids[id := false] && c'.inTx == c.inTx
    && (Usable(c').None? ==> PhaseOf(c'.net.log, id) == Absent)
    && (Usable(c).Some? ==> c'.net == c.net)
  }

  lemma DropKeeps(c: ConnState, id: nat)
    requires Good(c) && 1 <= id <= MAX_STATEMENTS
    requires Usable(c).None? ==> exists p :: PhaseOf(c.net.log, id) == Live(p, false, NoCursor)
    ensures var (c', e) := Command(c, DropRequest(id));
      && Steps(c, c', id)
      && (Usable(c').None? ==> PhaseOf(c'.net.log, id) == Absent)
      && (c'.broken ==> e.Some?)
  {
    hide Exchange, Disciplined, InStep, Mirrored, PhaseOf, Stalled;
    if Usable(c).None? {
      CallSteps(c, DropRequest(id));
    }
  }

  /** Releasing a statement, prepared or not, ends the life of its RPB in the protocol. */
  lemma ReleaseKeeps(c: ConnState, st: StmtState)
    requires Good(c) && 1 <= st.id <= MAX_STATEMENTS && !st.closed
    requires
      || StmtOk(c, st)
      || (&& !st.descriptorSent && st.rows.None?
          && (Usable(c).None? ==> PhaseOf(c.net.log, st.id) == Live(false, false, NoCursor)))
    ensures var (c', st', e) := Release(c, st);
      && Frees(c, c', st.id) && StmtOk(c', st') && st'.closed
      && st' == st.(closed := true, rows := st'.rows)
  {
    hide Exchange, Disciplined, InStep, Mirrored, PhaseOf, Stalled;
    if Usable(c).None? {
      var st1 := st.(closed := true);
      var (c1, st2, e1) := CloseRows(c, st1, REUSE_NO);
      if st.rows.Some? {
        CloseRowsKeeps(c, st1, REUSE_NO);
      }
      if st2.descriptorSent {
        var q := DropDescriptorRequest(st.id);
        if Usable(c1).None? {
          SendSteps(c1, q);
        }
        var (c2, e2) := Send(c1, q);
        StepsTransitive(c, c1, c2, st.id);
        if e2.None? {
          DropKeeps(c2, st.id);
          StepsTransitive(c, c2, Command(c2, DropRequest(st.id)).0, st.id);
        }
      } else {
        DropKeeps(c1, st.id);
        StepsTransitive(c, c1, Command(c1, DropRequest(st.id)).0, st.id);
      }
    }
  }

  /** A Prepare that failed after taking the free handle `id`. */
  ghost predicate Attempted(c: ConnState, c': ConnState, id: nat) {
    && 1 <= id <= MAX_STATEMENTS && !c.ids[id] && OnlyTouches(c, c', id)
    && (Usable(c').None? ==> PhaseOf(c'.net.log, id) == Absent)
  }

  /** Prepare hands out the least free handle, or leaves every handle as it was. */
  lemma PrepareKeeps(c: ConnState, q: Query)
    requires Good(c)
    requires Usable(c).None? ==>
      forall id :: 1 <= id <= MAX_STATEMENTS && !c.ids[id] ==> PhaseOf(c.net.log, id) == Absent
    ensures var (c', r) := Prepare(c, q);
      && Good(c') && c'.inTx == c.inTx && (Usable(c).Some? ==> c' == c)
      && match r
         case Success(st) =>
           && StmtOk(c', st) && !st.closed && st.rows.None? && !st.descriptorSent
           && OnlyTouches(c, c', st.id) && Usable(c').None?
           && c'.ids == c.ids[st.id := true]
           && FirstFree(c.ids, 1) == Some(st.id)
         case Failure(_) =>
           && c'.ids == c.ids
           && (c' == c || exists id :: Attempted(c, c', id))
  {
    hide Exchange, Disciplined, InStep, Mirrored, PhaseOf, Stalled;
    if Usable(c).None? && FirstFree(c.ids, 1).Some? {
      var (c0, free) := AllocID(c);
      var id := free.value;
      assert c0.ids[id := false] == c.ids;
      var st := StmtState(id, q.kind, [], [], false, None, false);
      SendSteps(c0, CreateRequest(id));
      var (c1, e) := Send(c0, CreateRequest(id));
      assert OnlyTouches(c, c1, id);
      if e.Some? {
        assert Attempted(c, Prepare(c, q).0, id);
      } else {
        if !q.encodable || (!c1.opts.longText && q.length > MAX_SHORT_TEXT) {
          ReleaseKeeps(c1, st);
          OnlyTouchesTransitive(c, c1, Release(c1, st).0, id);
          assert Attempted(c, Prepare(c, q).0, id);
        } else {
          var p := PrepareRequest(id, q.kind);
          CallSteps(c1, p);
          var (c2, r) := Call(c1, p);
          OnlyTouchesTransitive(c, c1, c2, id);
          if r.Failure? || Failed(r.value) {
            ReleaseKeeps(c2, st);
            OnlyTouchesTransitive(c, c2, Release(c2, st).0, id);
            assert Attempted(c, Prepare(c, q).0, id);
          }
        }
      }
    }
  }
}
