/**
 * Cursors refine the rows they were opened over: whatever the blocks the
 * server cuts a result set into, and whatever else happens on the connection
 * in between, Next hands out those rows in order and once each.
 */
module Cursors {
  import opened Wrappers
  import opened Job
  import opened Session
  import opened Discipline
  import opened Statements
  import opened Runs
  import Transactions

  /** The rows of the current block that Next has not handed out. */
  function InBlock(r: RowsState): seq<Row> {
    if HasNext(r) then r.block.value.rows[r.next..] else []
  }

  /** Every row of the result set that Next has not handed out. */
  function Undelivered(c: ConnState, st: StmtState): seq<Row>
    requires st.rows.Some?
  {
    InBlock(st.rows.value) + Remainder(c.net.server, st.id)
  }

  /** A cursor starts out over the whole result set the server opened it on. */
  lemma OpenStarts(c: ConnState, st: StmtState, args: seq<Arg>)
    requires Good(c) && StmtOk(c, st)
    ensures var (c', st', e) := OpenRows(c, st, args);
      e.None? ==> st'.rows.Some? && c'.net.clock > 0
                  && Undelivered(c', st') == c'.net.oracle(c'.net.clock - 1).result
  {
    hide Disciplined, InStep, Mirrored, PhaseOf, Stalled;
    if StmtUsable(c, st).None? && st.columns != [] {
      CloseRowsKeeps(c, st, REUSE_YES);
      var (c1, st1, e1) := CloseRows(c, st, REUSE_YES);
      if e1.None? {
        BindKeeps(c1, st1, args);
        var (c2, st2, e2) := Bind(c1, st1, args);
        if e2.None? {
          OpenCallStarts(c2, st2);
        }
      }
    }
  }

  lemma OpenCallStarts(c: ConnState, st: StmtState)
    requires Good(c) && StmtOk(c, st) && !st.closed && Usable(c).None? && st.rows.None?
    requires st.params != [] ==> st.descriptorSent
    ensures var (c', r) := Call(c, OpenRequest(st, c.opts.blockSize));
      r.Success? && !Failed(r.value) ==>
        && c'.net.clock == c.net.clock + 1 && c'.net.oracle == c.net.oracle
        && InBlock(Opened(r.value)) + Remainder(c'.net.server, st.id) == c.net.oracle(c.net.clock).result
  {
    hide Disciplined, InStep, Mirrored, PhaseOf, Stalled, Exchange, Serve;
    var q := OpenRequest(st, c.opts.blockSize);
    CallKeeps(c, q);
    HandedOut(c.net, q);
  }

  /** A FETCH moves rows from the server into the block; none appear or get lost. */
  lemma FetchConserves(c: ConnState, st: StmtState)
    requires Good(c) && StmtOk(c, st) && st.rows.Some? && !st.rows.value.eof && !HasNext(st.rows.value)
    ensures var (c', st', e) := FetchBlock(c, st);
      && st'.rows.Some? && st'.id == st.id && st'.columns == st.columns
      && (e.Some? ==> st' == st)
      && (!c'.broken || c.broken ==> Undelivered(c', st') == Undelivered(c, st))
      && |c'.net.log| <= |c.net.log| + 1
  {
    hide Disciplined, InStep, Mirrored, PhaseOf, Stalled, Serve;
    if Usable(c).None? {
      var q := FetchRequest(st, c.opts.blockSize);
      CallSteps(c, q);
      ExchangeCases(c.net, q);
    }
  }

  /**
   * One Next. A row handed out is the first undelivered one; anything else
   * hands out nothing and loses nothing, unless it broke the connection. At
   * most one request is written.
   */
  lemma NextDelivers(c: ConnState, st: StmtState, width: nat)
    requires Good(c) && StmtOk(c, st) && st.rows.Some?
    ensures var (c', st', v) := Next(c, st, width);
      && st'.rows.Some? && st'.id == st.id && st'.columns == st.columns
      && |c'.net.log| <= |c.net.log| + 1
      && (v.Success? ==>
            && width == |st.columns|
            && (c'.broken ==> c.broken)
            && Undelivered(c, st) != []
            && RowReads(Undelivered(c, st)[0], |st.columns|, v.value)
            && InBlock(st'.rows.value) + Remainder(c'.net.server, st.id) == Undelivered(c, st)[1..])
      && (v.Failure? && (!c'.broken || c.broken) ==> Undelivered(c', st') == Undelivered(c, st))
      && (c'.broken && !c.broken ==> st' == st)
  {
    hide Disciplined, InStep, Mirrored, PhaseOf, Stalled, Call, TakeRow;
    if HasNext(st.rows.value) {
      TakeDelivers(st, width);
    } else if !st.rows.value.eof {
      FetchConserves(c, st);
      FetchKeeps(c, st);
      var st1 := FetchBlock(c, st).1;
      if HasNext(st1.rows.value) {
        TakeDelivers(st1, width);
      }
    }
  }

  /** One row off the block. */
  lemma TakeDelivers(st: StmtState, width: nat)
    requires st.rows.Some? && HasNext(st.rows.value)
    ensures var (st', v) := TakeRow(st, width);
      && st'.rows.Some? && st'.id == st.id && st'.columns == st.columns
      && (v.Success? ==>
            && width == |st.columns|
            && RowReads(InBlock(st.rows.value)[0], |st.columns|, v.value)
            && InBlock(st'.rows.value) == InBlock(st.rows.value)[1..])
      && (v.Failure? ==> st' == st)
  {
    var r := st.rows.value;
    DecodesExactly(r.block.value.rows[r.next], |st.columns|);
  }

  /**
   * Next on a block with a row left, decided. It hands out the row exactly if
   * the destination and the block have as many columns as the statement and
   * every cell stands for a value or for none; and if not, it says why and
   * the row is still the next.
   */
  lemma NextDecides(c: ConnState, st: StmtState, width: nat)
    requires st.rows.Some? && HasNext(st.rows.value)
    ensures var (c', st', v) := Next(c, st, width);
      var r := st.rows.value;
      var row, n := r.block.value.rows[r.next], |st.columns|;
      && c' == c
      && (v.Success? <==> width == n && r.block.value.columnCount == n && exists vs :: RowReads(row, n, vs))
      && (v.Success? ==> RowReads(row, n, v.value) && st' == st.(rows := Some(r.(next := r.next + 1))))
      && (v.Failure? ==>
            && st' == st
            && if width != n then v.error == Usage(WrongWidth)
               else if r.block.value.columnCount != n then v.error == Usage(ColumnMismatch)
               else exists i :: 0 <= i < n && FailsAt(row, i, v.error) && RowReads(row, i, Written(c, st, width)))
      && (width != n || r.block.value.columnCount != n ==> Written(c, st, width) == [])
  {
    hide DecodeRow, Decoded, RowReads, FailsAt;
    var r := st.rows.value;
    DecodesExactly(r.block.value.rows[r.next], |st.columns|);
  }

  /** Rows that have reached their end. */
  predicate Ended(st: StmtState) {
    st.rows.Some? && st.rows.value.eof && !HasNext(st.rows.value)
  }

  /**
   * The end of the rows. EOF is returned with every row delivered, unless the
   * server answered a FETCH with no rows and no end of data; EofIsEarly says
   * when rows are then left behind. From then on Next returns EOF and writes
   * nothing.
   */
  lemma EofIsTheEnd(c: ConnState, st: StmtState, width: nat, width': nat)
    requires Good(c) && StmtOk(c, st) && st.rows.Some?
    ensures var (c', st', v) := Next(c, st, width);
      v == Failure(EOF) ==>
        && Ended(st')
        && (Usable(c).None? ==> Undelivered(c, st) == [] || Stalled(c'.net.log, st.id))
        && Next(c', st', width') == (c', st', Failure(EOF))
  {
    hide Disciplined, InStep, Mirrored, PhaseOf, Stalled, Call;
    NextDelivers(c, st, width);
    NextKeeps(c, st, width);
    if HasNext(st.rows.value) {
      DecodeNeverEnds(st, width);
    } else if !st.rows.value.eof {
      FetchKeeps(c, st);
      var (c1, st1, e1) := FetchBlock(c, st);
      FetchNeverEnds(c, st);
      if e1.None? && HasNext(st1.rows.value) {
        DecodeNeverEnds(st1, width);
      }
    }
  }

  /**
   * Exactly when Next gives up rows: it has to FETCH, the server accepts, and
   * hands out none of the rows it still has. The code takes a block without
   * rows for the end.
   */
  lemma EofIsEarly(c: ConnState, st: StmtState, width: nat)
    requires Good(c) && StmtOk(c, st) && st.rows.Some? && Usable(c).None?
    requires !HasNext(st.rows.value) && !st.rows.value.eof
    ensures var (c', st', v) := Next(c, st, width);
      var q := FetchRequest(st, c.opts.blockSize);
      v == Failure(EOF) && Undelivered(c', st') != [] <==>
        && Completed(c.net, q) && EntryFor(c.net, q).accepted
        && c.net.oracle(c.net.clock).take == 0 && Remainder(c.net.server, st.id) != []
  {
    hide Disciplined, InStep, Mirrored, PhaseOf, Stalled, Exchange, Serve;
    var q := FetchRequest(st, c.opts.blockSize);
    CallKeeps(c, q);
    HandedOut(c.net, q);
    if EntryFor(c.net, q).accepted {
      BlockIsEmpty(c.net, q);
    }
    FetchNeverEnds(c, st);
    var (c1, st1, e1) := FetchBlock(c, st);
    if e1.None? && HasNext(st1.rows.value) {
      DecodeNeverEnds(st1, width);
    }
  }

  /** A FETCH brings no rows exactly if there are none or none are taken. */
  lemma BlockIsEmpty(n: Net, q: Request)
    requires q.op.Fetch? && q.ors != 0 && EntryFor(n, q).accepted
    ensures var rep := EntryFor(n, q).seen.value;
      HasRows(rep) <==> n.oracle(n.clock).take > 0 && Remainder(n.server, q.rpb) != []
  {
  }

  lemma {:induction false} DecodeRowNeverEnds(row: Row, n: nat)
    ensures DecodeRow(row, n) != Failure(EOF)
  {
    if n > 0 {
      DecodeRowNeverEnds(row, n - 1);
    }
  }

  lemma DecodeNeverEnds(st: StmtState, width: nat)
    requires st.rows.Some? && HasNext(st.rows.value)
    ensures TakeRow(st, width).1 != Failure(EOF)
  {
    DecodeRowNeverEnds(st.rows.value.block.value.rows[st.rows.value.next], |st.columns|);
  }

  lemma FetchNeverEnds(c: ConnState, st: StmtState)
    requires st.rows.Some?
    ensures FetchBlock(c, st).2 != Some(EOF)
  {
    hide Exchange;
  }

  // ----- Cursors within whole runs -----

  /** Calls that do not re-run or close statement k or its rows. */
  predicate LeavesCursor(a: Action, k: nat) {
    match a
    case DoExec(j, _) => j != k
    case DoOpen(j, _) => j != k
    case DoCloseRows(j) => j != k
    case DoCloseStmt(j) => j != k
    case _ => true
  }

  /** What a call that is not about statement k leaves of it. */
  ghost predicate Spares(sys: Sys, sys': Sys, k: nat) {
    && k < |sys.stmts| <= |sys'.stmts| && sys'.stmts[k] == sys.stmts[k]
    && (sys.conn.broken ==> sys'.conn.broken)
    && (!sys'.conn.broken ==>
          Remainder(sys'.conn.net.server, sys.stmts[k].id) == Remainder(sys.conn.net.server, sys.stmts[k].id))
  }

  lemma SparesOther(sys: Sys, j: nat, k: nat, c: ConnState, st: StmtState)
    requires Inv(sys) && j < |sys.stmts| && k < |sys.stmts| && j != k && sys.stmts[k].rows.Some?
    requires OnlyTouches(sys.conn, c, sys.stmts[j].id)
    requires sys.stmts[j].closed ==> c == sys.conn
    requires Usable(sys.conn).Some? ==> c.net == sys.conn.net
    ensures Spares(sys, Sys(c, sys.stmts[j := st]), k)
  {
    assert StmtOk(sys.conn, sys.stmts[k]);
  }

  lemma SparesPrepare(sys: Sys, q: Query, k: nat)
    requires Inv(sys) && k < |sys.stmts| && sys.stmts[k].rows.Some?
    ensures var (c, r) := Prepare(sys.conn, q);
      Spares(sys, Made(sys, c, if r.Success? then Some(r.value) else None), k)
  {
    hide Exchange, Disciplined, InStep, Mirrored, PhaseOf, Stalled, Prepare;
    assert StmtOk(sys.conn, sys.stmts[k]);
    PrepareKeeps(sys.conn, q);
    var (c, r) := Prepare(sys.conn, q);
    if r.Failure? && c != sys.conn {
      var id :| Attempted(sys.conn, c, id);
    }
  }

  lemma SparesCloseStmt(sys: Sys, j: nat, k: nat)
    requires Inv(sys) && j < |sys.stmts| && k < |sys.stmts| && j != k && sys.stmts[k].rows.Some?
    ensures var (c, st, _) := CloseStmt(sys.conn, sys.stmts[j]);
      Spares(sys, Sys(c, sys.stmts[j := st]), k)
  {
    hide Exchange, Disciplined, InStep, Mirrored, PhaseOf, Stalled, Release, OnlyTouches;
    assert StmtOk(sys.conn, sys.stmts[j]);
    var (c, st, _) := CloseStmt(sys.conn, sys.stmts[j]);
    if !sys.stmts[j].closed {
      ReleaseKeeps(sys.conn, sys.stmts[j]);
      SparesOther(sys, j, k, c, st);
    } else {
      TouchesItself(sys.conn, sys.stmts[j].id);
      SparesOther(sys, j, k, c, st);
    }
  }

  lemma TouchesItself(c: ConnState, id: nat)
    ensures OnlyTouches(c, c, id)
  {
  }

  lemma SparesUse(sys: Sys, a: Action, k: nat)
    requires Inv(sys) && k < |sys.stmts| && sys.stmts[k].rows.Some?
    requires (a.DoExec? || a.DoOpen? || a.DoNext?) && a.k != k
    ensures Spares(sys, Step(sys, a), k)
  {
    hide Exchange, Disciplined, InStep, Mirrored, PhaseOf, Stalled, Exec, OpenRows, Next;
    if a.k < |sys.stmts| {
      var st := sys.stmts[a.k];
      assert StmtOk(sys.conn, st);
      match a {
        case DoExec(j, args) =>
          ExecKeeps(sys.conn, st, args);
          ClosedRefuses(sys.conn, st, args);
          var (c, st', _) := Exec(sys.conn, st, args);
          SparesOther(sys, j, k, c, st');
        case DoOpen(j, args) =>
          OpenRowsKeeps(sys.conn, st, args);
          ClosedRefuses(sys.conn, st, args);
          var (c, st', _) := OpenRows(sys.conn, st, args);
          SparesOther(sys, j, k, c, st');
        case DoNext(j, width) =>
          if st.rows.Some? {
            NextKeeps(sys.conn, st, width);
            var (c, st', _) := Next(sys.conn, st, width);
            SparesOther(sys, j, k, c, st');
          }
      }
    }
  }

  lemma ClosedRefuses(c: ConnState, st: StmtState, args: seq<Arg>)
    ensures st.closed ==> Exec(c, st, args).0 == c && OpenRows(c, st, args).0 == c
  {
  }

  lemma SparesCloseRows(sys: Sys, j: nat, k: nat)
    requires Inv(sys) && j < |sys.stmts| && k < |sys.stmts| && j != k && sys.stmts[k].rows.Some?
    requires sys.stmts[j].rows.Some?
    ensures Spares(sys, Step(sys, DoCloseRows(j)), k)
  {
    hide Exchange, Disciplined, InStep, Mirrored, PhaseOf, Stalled, CloseStmt, CloseRows, OnlyTouches;
    var st := sys.stmts[j];
    assert StmtOk(sys.conn, st);
    CloseRowsKeeps(sys.conn, st, REUSE_YES);
    var (c, st1, _) := CloseRows(sys.conn, st, REUSE_YES);
    SparesOther(sys, j, k, c, st1);
    if st.rows.value.closeStmt {
      var sys1 := Sys(c, sys.stmts[j := st1]);
      StatementStep(sys, j, c, st1);
      SparesCloseStmt(sys1, j, k);
      var (c2, st2, _) := CloseStmt(c, st1);
      assert sys1.stmts[j := st2] == sys.stmts[j := st2];
    }
  }

  lemma SparesOneShot(sys: Sys, a: Action, k: nat)
    requires Inv(sys) && k < |sys.stmts| && sys.stmts[k].rows.Some? && (a.DoConnExec? || a.DoConnQuery?)
    ensures Spares(sys, Step(sys, a), k)
  {
    hide Exchange, Inv, Prepare, Exec, OpenRows, CloseStmt, Good, StmtsOk;
    PrepareStep(sys, a.query);
    SparesPrepare(sys, a.query, k);
    var (c, p) := Prepare(sys.conn, a.query);
    if p.Success? {
      var sys1 := Sys(c, sys.stmts + [p.value]);
      var j := |sys.stmts|;
      match a {
        case DoConnExec(_, args) =>
          ExecStep(sys1, j, args);
          SparesUse(sys1, DoExec(j, args), k);
          var (c1, st1, _) := Exec(c, p.value, args);
          var sys2 := Sys(c1, sys1.stmts[j := st1]);
          SparesCloseStmt(sys2, j, k);
        case DoConnQuery(_, args) =>
          OpenStep(sys1, j, args);
          SparesUse(sys1, DoOpen(j, args), k);
          var (c1, st1, e) := OpenRows(c, p.value, args);
          var sys2 := Sys(c1, sys1.stmts[j := st1]);
          if e.Some? {
            SparesCloseStmt(sys2, j, k);
          }
      }
    }
  }

  lemma SparesConnection(sys: Sys, a: Action, k: nat)
    requires Inv(sys) && k < |sys.stmts| && sys.stmts[k].rows.Some?
    requires a.DoPing? || a.DoBegin? || a.DoEnd? || a.DoCloseConn?
    ensures Spares(sys, Step(sys, a), k)
  {
    hide Exchange, Call, Command;
    assert StmtOk(sys.conn, sys.stmts[k]);
    match a
    case DoPing => Transactions.PingKeeps(sys.conn);
    case DoBegin(level) => Transactions.BeginKeeps(sys.conn, level);
    case DoEnd(commit) => Transactions.EndKeeps(sys.conn, commit);
    case DoCloseConn =>
  }

  lemma EveryOtherCallSpares(sys: Sys, a: Action, k: nat)
    requires Inv(sys) && k < |sys.stmts| && sys.stmts[k].rows.Some? && LeavesCursor(a, k) && !(a.DoNext? && a.k == k)
    ensures Spares(sys, Step(sys, a), k)
  {
    hide Exchange, Inv, Ping, Begin, EndTransaction, Prepare;
    hide Exec, OpenRows, Next, CloseStmt, ConnExec, ConnQuery, CloseRowsPublic;
    if a.DoPing? || a.DoBegin? || a.DoEnd? || a.DoCloseConn? {
      SparesConnection(sys, a, k);
    } else if a.DoExec? || a.DoOpen? || a.DoNext? {
      SparesUse(sys, a, k);
    } else if a.DoConnExec? || a.DoConnQuery? {
      SparesOneShot(sys, a, k);
    } else if a.DoPrepare? {
      SparesPrepare(sys, a.query, k);
    } else if a.DoCloseStmt? {
      if a.k < |sys.stmts| {
        SparesCloseStmt(sys, a.k, k);
      }
    } else if a.k < |sys.stmts| && sys.stmts[a.k].rows.Some? {
      SparesCloseRows(sys, a.k, k);
    }
  }

  /** The rows that the calls of Next on statement k handed out, over a whole run. */
  function Delivered(sys: Sys, actions: seq<Action>, k: nat): seq<seq<Option<int>>> {
    if actions == [] then []
    else
      var n := |actions| - 1;
      var sys' := Run(sys, actions[..n]);
      var d := Delivered(sys, actions[..n], k);
      match actions[n]
      case DoNext(j, width) =>
        if j != k || k >= |sys'.stmts| || sys'.stmts[k].rows.None? then d
        else
          var v := Next(sys'.conn, sys'.stmts[k], width).2;
          if v.Success? then d + [v.value] else d
      case _ => d
  }

  /**
   * `got` are the first rows of `all`, the block holds the next ones, and an
   * unbroken connection will deliver the rest.
   */
  ghost predicate Progress(c: ConnState, st: StmtState, all: seq<Row>, got: seq<seq<Option<int>>>) {
    && st.rows.Some?
    && |got| <= |all|
    && (forall i :: 0 <= i < |got| ==> RowReads(all[i], |st.columns|, got[i]))
    && InBlock(st.rows.value) <= all[|got|..]
    && (!c.broken ==> Undelivered(c, st) == all[|got|..])
  }

  lemma NextProgress(c: ConnState, st: StmtState, width: nat, all: seq<Row>, got: seq<seq<Option<int>>>)
    requires Good(c) && StmtOk(c, st) && Progress(c, st, all, got)
    ensures var (c', st', v) := Next(c, st, width);
      Progress(c', st', all, if v.Success? then got + [v.value] else got)
  {
    hide Good, StmtOk, Call, Exchange;
    NextDelivers(c, st, width);
    if c.broken {
      BrokenNext(c, st, width);
    }
    if Next(c, st, width).2.Success? {
      assert |got| < |all|;
      assert all[|got|..][1..] == all[|got| + 1..];
    }
  }

  /** On a broken connection Next serves the block it has and nothing else. */
  lemma BrokenNext(c: ConnState, st: StmtState, width: nat)
    requires st.rows.Some? && c.broken
    ensures var (c', st', v) := Next(c, st, width);
      && c' == c && st'.rows.Some?
      && (v.Success? ==>
            && HasNext(st.rows.value)
            && RowReads(InBlock(st.rows.value)[0], |st.columns|, v.value)
            && InBlock(st'.rows.value) == InBlock(st.rows.value)[1..])
      && (v.Failure? ==> st' == st)
  {
    if HasNext(st.rows.value) {
      TakeDelivers(st, width);
    }
  }

  /**
   * The refinement. Take any state of any run in which statement k has rows
   * open, and any further calls that do not re-run or close it, mixed with
   * any number of Next calls on it: the rows Next hands out are the first
   * undelivered rows, in order, each once, whatever else the connection did.
   */
  lemma {:induction false} CursorRefinesResultSet(sys: Sys, actions: seq<Action>, k: nat)
    requires Inv(sys) && k < |sys.stmts| && sys.stmts[k].rows.Some?
    requires forall i :: 0 <= i < |actions| ==> LeavesCursor(actions[i], k)
    ensures var sys' := Run(sys, actions);
      && k < |sys'.stmts| && sys'.stmts[k].rows.Some?
      && Progress(sys'.conn, sys'.stmts[k], Undelivered(sys.conn, sys.stmts[k]), Delivered(sys, actions, k))
  {
    hide Inv, Step, Next, Progress;
    var all := Undelivered(sys.conn, sys.stmts[k]);
    if actions == [] {
      NothingYet(sys.conn, sys.stmts[k]);
    } else {
      var n := |actions| - 1;
      var a := actions[n];
      CursorRefinesResultSet(sys, actions[..n], k);
      InvHolds(sys, actions[..n]);
      var before := Run(sys, actions[..n]);
      var got := Delivered(sys, actions[..n], k);
      assert Run(sys, actions) == Step(before, a);
      if a.DoNext? && a.k == k {
        NextInRun(before, a.width, k, all, got);
      } else {
        EveryOtherCallSpares(before, a, k);
        SparesProgress(before, Step(before, a), k, all, got);
      }
    }
  }

  lemma NothingYet(c: ConnState, st: StmtState)
    requires st.rows.Some?
    ensures Progress(c, st, Undelivered(c, st), [])
  {
    assert Undelivered(c, st)[0..] == Undelivered(c, st);
  }

  lemma NextInRun(sys: Sys, width: nat, k: nat, all: seq<Row>, got: seq<seq<Option<int>>>)
    requires Inv(sys) && k < |sys.stmts| && sys.stmts[k].rows.Some?
    requires Progress(sys.conn, sys.stmts[k], all, got)
    ensures var sys' := Step(sys, DoNext(k, width));
      var v := Next(sys.conn, sys.stmts[k], width).2;
      && k < |sys'.stmts| && sys'.stmts[k].rows.Some?
      && Progress(sys'.conn, sys'.stmts[k], all, if v.Success? then got + [v.value] else got)
  {
    hide Good, StmtOk, Next;
    assert StmtOk(sys.conn, sys.stmts[k]);
    NextProgress(sys.conn, sys.stmts[k], width, all, got);
  }

  lemma SparesProgress(sys: Sys, sys': Sys, k: nat, all: seq<Row>, got: seq<seq<Option<int>>>)
    requires Spares(sys, sys', k) && Progress(sys.conn, sys.stmts[k], all, got)
    ensures Progress(sys'.conn, sys'.stmts[k], all, got)
  {
  }

  /**
   * `got` reads the first rows of `all`; all of them if Next then says EOF on
   * a usable connection, unless a FETCH stalled.
   */
  ghost predicate InFull(sys: Sys, k: nat, width: nat, all: seq<Row>, got: seq<seq<Option<int>>>) {
    && k < |sys.stmts| && sys.stmts[k].rows.Some?
    && var (c, st, v) := Next(sys.conn, sys.stmts[k], width);
       && |got| <= |all|
       && (forall i :: 0 <= i < |got| ==> RowReads(all[i], |sys.stmts[k].columns|, got[i]))
       && (Usable(sys.conn).None? && v == Failure(EOF) ==> |got| == |all| || Stalled(c.net.log, st.id))
  }

  lemma RowsInFull(sys: Sys, actions: seq<Action>, k: nat, width: nat)
    requires Inv(sys) && k < |sys.stmts| && sys.stmts[k].rows.Some?
    requires forall i :: 0 <= i < |actions| ==> LeavesCursor(actions[i], k)
    ensures InFull(Run(sys, actions), k, width, Undelivered(sys.conn, sys.stmts[k]), Delivered(sys, actions, k))
  {
    hide Inv, Step, Next, Run, Delivered, Stalled;
    CursorRefinesResultSet(sys, actions, k);
    InvHolds(sys, actions);
    EndInRun(Run(sys, actions), k, width);
  }

  /**
   * The whole result set. Open a cursor in any state of any run, and go on
   * with any calls that do not re-run or close the statement, Next among
   * them: the rows handed out are the first of the result set, in order, and
   * when Next says EOF on a usable connection they are all of it, unless a
   * FETCH stalled.
   */
  lemma ResultSetIsDelivered(sys: Sys, args: seq<Arg>, actions: seq<Action>, k: nat, width: nat)
    requires Inv(sys) && k < |sys.stmts| && OpenRows(sys.conn, sys.stmts[k], args).2 == None
    requires forall i :: 0 <= i < |actions| ==> LeavesCursor(actions[i], k)
    ensures var s1 := Step(sys, DoOpen(k, args));
      && s1.conn.net.clock > 0
      && var result := s1.conn.net.oracle(s1.conn.net.clock - 1).result;
         InFull(Run(s1, actions), k, width, result, Delivered(s1, actions, k))
  {
    hide Inv, Step, Run, Delivered, InFull, OpenRows;
    OpenInRun(sys, args, k);
    RowsInFull(Step(sys, DoOpen(k, args)), actions, k, width);
  }

  lemma OpenInRun(sys: Sys, args: seq<Arg>, k: nat)
    requires Inv(sys) && k < |sys.stmts| && OpenRows(sys.conn, sys.stmts[k], args).2 == None
    ensures var s1 := Step(sys, DoOpen(k, args));
      && Inv(s1) && s1.conn.net.clock > 0 && k < |s1.stmts| && s1.stmts[k].rows.Some?
      && Undelivered(s1.conn, s1.stmts[k]) == s1.conn.net.oracle(s1.conn.net.clock - 1).result
  {
    hide OpenRows;
    assert StmtOk(sys.conn, sys.stmts[k]);
    OpenStarts(sys.conn, sys.stmts[k], args);
    EveryStep(sys, DoOpen(k, args));
  }

  lemma EndInRun(sys: Sys, k: nat, width: nat)
    requires Inv(sys) && k < |sys.stmts| && sys.stmts[k].rows.Some?
    ensures var (c, st, v) := Next(sys.conn, sys.stmts[k], width);
      && st.id == sys.stmts[k].id
      && (Usable(sys.conn).None? && v == Failure(EOF) ==>
            Undelivered(sys.conn, sys.stmts[k]) == [] || Stalled(c.net.log, st.id))
      && (v == Failure(EOF) ==> Ended(st))
  {
    hide Next;
    assert StmtOk(sys.conn, sys.stmts[k]);
    EofIsTheEnd(sys.conn, sys.stmts[k], width, width);
    NextDelivers(sys.conn, sys.stmts[k], width);
  }

  /**
   * EOF for ever. Once Next has said EOF, it says so again and hands out
   * nothing, without writing, after any calls that do not re-run or close the
   * statement, and whatever they do to the connection.
   */
  lemma EofForEver(sys: Sys, actions: seq<Action>, k: nat, width: nat, width': nat)
    requires Inv(sys) && k < |sys.stmts| && sys.stmts[k].rows.Some?
    requires Next(sys.conn, sys.stmts[k], width).2 == Failure(EOF)
    requires forall i :: 0 <= i < |actions| ==> LeavesCursor(actions[i], k)
    ensures var s1 := Step(sys, DoNext(k, width));
      var s2 := Run(s1, actions);
      && Delivered(s1, actions, k) == []
      && k < |s2.stmts| && s2.stmts[k].rows.Some?
      && Next(s2.conn, s2.stmts[k], width') == (s2.conn, s2.stmts[k], Failure(EOF))
  {
    hide Inv, Next;
    EndInRun(sys, k, width);
    EveryStep(sys, DoNext(k, width));
    EndedStays(Step(sys, DoNext(k, width)), actions, k);
    var s2 := Run(Step(sys, DoNext(k, width)), actions);
    EndedSaysEof(s2.conn, s2.stmts[k], width');
  }

  lemma EndedSaysEof(c: ConnState, st: StmtState, width: nat)
    requires Ended(st)
    ensures Next(c, st, width) == (c, st, Failure(EOF))
  {
  }

  lemma {:induction false} EndedStays(sys: Sys, actions: seq<Action>, k: nat)
    requires Inv(sys) && k < |sys.stmts| && Ended(sys.stmts[k])
    requires forall i :: 0 <= i < |actions| ==> LeavesCursor(actions[i], k)
    ensures var s := Run(sys, actions);
      k < |s.stmts| && s.stmts[k] == sys.stmts[k] && Delivered(sys, actions, k) == []
  {
    hide Inv, Step, Next;
    if actions != [] {
      var n := |actions| - 1;
      EndedStays(sys, actions[..n], k);
      InvHolds(sys, actions[..n]);
      var before, a := Run(sys, actions[..n]), actions[n];
      if a.DoNext? && a.k == k {
        EndedNext(before, k, a.width);
      } else {
        EveryOtherCallSpares(before, a, k);
      }
    }
  }

  lemma EndedNext(sys: Sys, k: nat, width: nat)
    requires k < |sys.stmts| && Ended(sys.stmts[k])
    ensures Step(sys, DoNext(k, width)) == sys
    ensures Next(sys.conn, sys.stmts[k], width).2 == Failure(EOF)
  {
    hide Next;
    EndedSaysEof(sys.conn, sys.stmts[k], width);
    assert sys.stmts[k := sys.stmts[k]] == sys.stmts;
  }
}
