/**
 * Whole runs: any sequence of calls on a connection and on the statements and
 * cursors made from it, against any behaviour of network and server.
 */
module Runs {
  import opened Wrappers
  import opened Job
  import opened Session
  import opened Discipline
  import opened Statements
  import opened Transactions

  /** A connection and every statement it ever made, in order of creation. */
  datatype Sys = Sys(conn: ConnState, stmts: seq<StmtState>)

  datatype Action =
    | DoPing
    | DoBegin(level: nat)
    | DoEnd(commit: bool)
    | DoCloseConn
    | DoPrepare(query: Query)
    | DoExec(k: nat, args: seq<Arg>)
    | DoOpen(k: nat, args: seq<Arg>)
    | DoNext(k: nat, width: nat)
    | DoCloseRows(k: nat)
    | DoCloseStmt(k: nat)
    | DoConnExec(query: Query, args: seq<Arg>)
    | DoConnQuery(query: Query, args: seq<Arg>)

  function Made(sys: Sys, c: ConnState, st: Option<StmtState>): Sys {
    if st.None? then sys.(conn := c) else Sys(c, sys.stmts + [st.value])
  }

  /** One call. Calls on a closed Rows do nothing but report it, and so change nothing here. */
  function Step(sys: Sys, a: Action): Sys
  {
    var c := sys.conn;
    match a
    case DoPing => sys.(conn := Ping(c).0)
    case DoBegin(level) => sys.(conn := Begin(c, level).0)
    case DoEnd(commit) => sys.(conn := EndTransaction(c, commit).0)
    case DoCloseConn => sys.(conn := CloseConn(c))
    case DoPrepare(q) =>
      var (c, r) := Prepare(c, q);
      Made(sys, c, if r.Success? then Some(r.value) else None)
    case DoConnExec(q, args) =>
      var (c, st, _) := ConnExec(c, q, args);
      Made(sys, c, st)
    case DoConnQuery(q, args) =>
      var (c, st, _) := ConnQuery(c, q, args);
      Made(sys, c, st)
    case DoExec(k, args) =>
      if k >= |sys.stmts| then sys else
      var (c, st, _) := Exec(c, sys.stmts[k], args);
      Sys(c, sys.stmts[k := st])
    case DoOpen(k, args) =>
      if k >= |sys.stmts| then sys else
      var (c, st, _) := OpenRows(c, sys.stmts[k], args);
      Sys(c, sys.stmts[k := st])
    case DoNext(k, width) =>
      if k >= |sys.stmts| || sys.stmts[k].rows.None? then sys else
      var (c, st, _) := Next(c, sys.stmts[k], width);
      Sys(c, sys.stmts[k := st])
    case DoCloseRows(k) =>
      if k >= |sys.stmts| || sys.stmts[k].rows.None? then sys else
      var (c, st, _) := CloseRowsPublic(c, sys.stmts[k]);
      Sys(c, sys.stmts[k := st])
    case DoCloseStmt(k) =>
      if k >= |sys.stmts| then sys else
      var (c, st, _) := CloseStmt(c, sys.stmts[k]);
      Sys(c, sys.stmts[k := st])
  }

  // ----- The invariant -----

  predicate Owns(sys: Sys, k: nat, id: nat) {
    k < |sys.stmts| && !sys.stmts[k].closed && sys.stmts[k].id == id
  }

  /** Handles and live statements correspond one to one. */
  ghost predicate Owned(sys: Sys) {
    && (forall k :: 0 <= k < |sys.stmts| && !sys.stmts[k].closed ==>
          1 <= sys.stmts[k].id <= MAX_STATEMENTS && sys.conn.ids[sys.stmts[k].id])
    && (forall id :: 1 <= id <= MAX_STATEMENTS && sys.conn.ids[id] ==> exists k: nat :: Owns(sys, k, id))
    && (forall j, k :: 0 <= j < k < |sys.stmts| && !sys.stmts[j].closed && !sys.stmts[k].closed ==>
          sys.stmts[j].id != sys.stmts[k].id)
  }

  /** Every handle no statement owns names nothing on the server, as far as the protocol goes. */
  ghost predicate Unowned(sys: Sys)
  {
    Usable(sys.conn).None? ==>
      forall id: nat ::
        (id == 0 || id > MAX_STATEMENTS || !sys.conn.ids[id]) ==> PhaseOf(sys.conn.net.log, id) == Absent
  }

  ghost predicate StmtsOk(sys: Sys) {
    forall k :: 0 <= k < |sys.stmts| ==> StmtOk(sys.conn, sys.stmts[k])
  }

  ghost predicate Inv(sys: Sys) {
    && Good(sys.conn) && TxOk(sys.conn)
    && Owned(sys) && Unowned(sys) && StmtsOk(sys)
  }

  // ----- How a call can change the system -----

  /** A call on the connection itself. */
  lemma ConnectionStep(sys: Sys, c: ConnState)
    requires Inv(sys) && Good(c) && TxOk(c) && c.ids == sys.conn.ids
    requires OnlyTouches(sys.conn, c, 0) || c == sys.conn.(closed := true)
    requires PhaseOf(c.net.log, 0) == PhaseOf(sys.conn.net.log, 0)
    ensures Inv(sys.(conn := c))
  {
    var sys' := sys.(conn := c);
    forall id: nat ensures PhaseOf(c.net.log, id) == PhaseOf(sys.conn.net.log, id) {
    }
    forall k | 0 <= k < |sys.stmts| ensures StmtOk(c, sys.stmts[k]) {
      assert StmtOk(sys.conn, sys.stmts[k]);
    }
    forall id | 1 <= id <= MAX_STATEMENTS && c.ids[id] ensures exists k: nat :: Owns(sys', k, id) {
      var k: nat :| Owns(sys, k, id);
      assert Owns(sys', k, id);
    }
  }

  /** A call on statement k that keeps its handle. */
  lemma StatementStep(sys: Sys, k: nat, c: ConnState, st: StmtState)
    requires Inv(sys) && k < |sys.stmts|
    requires Steps(sys.conn, c, sys.stmts[k].id) && StmtOk(c, st)
    requires st.id == sys.stmts[k].id && st.closed == sys.stmts[k].closed
    requires sys.stmts[k].closed ==> c == sys.conn
    ensures Inv(Sys(c, sys.stmts[k := st]))
  {
    var sys' := Sys(c, sys.stmts[k := st]);
    assert StmtOk(sys.conn, sys.stmts[k]);
    StatementKeepsTx(sys.conn, c, st.id);
    forall j | 0 <= j < |sys'.stmts| ensures StmtOk(c, sys'.stmts[j]) {
      if j != k {
        assert StmtOk(sys.conn, sys.stmts[j]);
      }
    }
    OwnersStay(sys, sys');
  }

  /** Owners survive any change that keeps every live statement's handle. */
  lemma OwnersStay(sys: Sys, sys': Sys)
    requires Owned(sys) && |sys'.stmts| == |sys.stmts| && sys'.conn.ids == sys.conn.ids
    requires forall j :: 0 <= j < |sys.stmts| ==>
      sys'.stmts[j].id == sys.stmts[j].id && sys'.stmts[j].closed == sys.stmts[j].closed
    ensures Owned(sys')
  {
    forall id | 1 <= id <= MAX_STATEMENTS && sys'.conn.ids[id] ensures exists j: nat :: Owns(sys', j, id) {
      var j: nat :| Owns(sys, j, id);
      assert Owns(sys', j, id);
    }
  }

  /** A call that closes live statement k. */
  lemma CloseStep(sys: Sys, k: nat, c: ConnState, st: StmtState)
    requires Inv(sys) && k < |sys.stmts| && !sys.stmts[k].closed
    requires Frees(sys.conn, c, sys.stmts[k].id) && StmtOk(c, st)
    requires st.id == sys.stmts[k].id && st.closed
    ensures Inv(Sys(c, sys.stmts[k := st]))
  {
    hide Disciplined, InStep, Mirrored, PhaseOf, TxOk;
    var sys' := Sys(c, sys.stmts[k := st]);
    assert StmtOk(sys.conn, sys.stmts[k]);
    StatementKeepsTx(sys.conn, c, st.id);
    forall j | 0 <= j < |sys'.stmts| ensures StmtOk(c, sys'.stmts[j]) {
      if j != k {
        assert StmtOk(sys.conn, sys.stmts[j]);
      }
    }
    forall id | 1 <= id <= MAX_STATEMENTS && c.ids[id] ensures exists j: nat :: Owns(sys', j, id) {
      var j: nat :| Owns(sys, j, id);
      assert Owns(sys', j, id);
    }
  }

  /** A call that makes a new statement. */
  lemma NewStep(sys: Sys, c: ConnState, st: StmtState)
    requires Inv(sys) && Good(c) && OnlyTouches(sys.conn, c, st.id) && StmtOk(c, st)
    requires c.inTx == sys.conn.inTx && c.ids == sys.conn.ids[st.id := true] && !sys.conn.ids[st.id] && !st.closed
    ensures Inv(Sys(c, sys.stmts + [st]))
  {
    hide Disciplined, InStep, Mirrored, PhaseOf, TxOk, Owned;
    StatementKeepsTx(sys.conn, c, st.id);
    NewStmtsOk(sys, c, st);
    NewOwned(sys, c, st);
  }

  lemma NewStmtsOk(sys: Sys, c: ConnState, st: StmtState)
    requires StmtsOk(sys) && Owned(sys) && OnlyTouches(sys.conn, c, st.id) && StmtOk(c, st) && !sys.conn.ids[st.id]
    ensures StmtsOk(Sys(c, sys.stmts + [st]))
  {
    hide Disciplined, InStep, Mirrored, PhaseOf;
    var sys' := Sys(c, sys.stmts + [st]);
    forall j | 0 <= j < |sys'.stmts| ensures StmtOk(c, sys'.stmts[j]) {
      if j < |sys.stmts| {
        assert sys'.stmts[j] == sys.stmts[j];
        assert StmtOk(sys.conn, sys.stmts[j]);
      }
    }
  }

  lemma NewOwned(sys: Sys, c: ConnState, st: StmtState)
    requires Owned(sys) && StmtOk(c, st)
    requires c.ids == sys.conn.ids[st.id := true] && !sys.conn.ids[st.id] && !st.closed
    ensures Owned(Sys(c, sys.stmts + [st]))
  {
    hide Disciplined, InStep, Mirrored, PhaseOf;
    var sys' := Sys(c, sys.stmts + [st]);
    forall id | 1 <= id <= MAX_STATEMENTS && c.ids[id] ensures exists j: nat :: Owns(sys', j, id) {
      if id == st.id {
        assert Owns(sys', |sys.stmts|, id);
      } else {
        var j: nat :| Owns(sys, j, id);
        assert Owns(sys', j, id);
      }
    }
  }

  /** A failed Prepare, whose handle is free again. */
  lemma AttemptStep(sys: Sys, c: ConnState, id: nat)
    requires Inv(sys) && Good(c) && Attempted(sys.conn, c, id) && c.ids == sys.conn.ids && c.inTx == sys.conn.inTx
    ensures Inv(sys.(conn := c))
  {
    var sys' := sys.(conn := c);
    StatementKeepsTx(sys.conn, c, id);
    forall j | 0 <= j < |sys.stmts| ensures StmtOk(c, sys.stmts[j]) {
      assert StmtOk(sys.conn, sys.stmts[j]);
    }
    OwnersStay(sys, sys');
  }

  lemma PrepareStep(sys: Sys, q: Query)
    requires Inv(sys)
    ensures var (c, r) := Prepare(sys.conn, q);
      var sys' := Made(sys, c, if r.Success? then Some(r.value) else None);
      && Inv(sys')
      && (r.Success? ==> !r.value.closed && r.value.rows.None? && Usable(c).None?)
  {
    hide Exchange;
    PrepareKeeps(sys.conn, q);
    var (c, r) := Prepare(sys.conn, q);
    if r.Success? {
      NewStep(sys, c, r.value);
    } else if c != sys.conn {
      var id :| Attempted(sys.conn, c, id);
      AttemptStep(sys, c, id);
    }
  }

  lemma CloseStmtStep(sys: Sys, k: nat)
    requires Inv(sys) && k < |sys.stmts|
    ensures var (c, st, _) := CloseStmt(sys.conn, sys.stmts[k]);
      Inv(Sys(c, sys.stmts[k := st]))
  {
    hide Exchange;
    var st := sys.stmts[k];
    assert StmtOk(sys.conn, st);
    if st.closed {
      assert sys.stmts[k := st] == sys.stmts;
    } else {
      ReleaseKeeps(sys.conn, st);
      var (c, st', _) := CloseStmt(sys.conn, st);
      CloseStep(sys, k, c, st');
    }
  }

  lemma ExecStep(sys: Sys, k: nat, args: seq<Arg>)
    requires Inv(sys) && k < |sys.stmts|
    ensures var (c, st, _) := Exec(sys.conn, sys.stmts[k], args);
      Inv(Sys(c, sys.stmts[k := st]))
  {
    hide Exchange;
    assert StmtOk(sys.conn, sys.stmts[k]);
    ExecKeeps(sys.conn, sys.stmts[k], args);
    var (c, st, _) := Exec(sys.conn, sys.stmts[k], args);
    StatementStep(sys, k, c, st);
  }

  lemma OpenStep(sys: Sys, k: nat, args: seq<Arg>)
    requires Inv(sys) && k < |sys.stmts|
    ensures var (c, st, _) := OpenRows(sys.conn, sys.stmts[k], args);
      Inv(Sys(c, sys.stmts[k := st]))
  {
    hide Exchange;
    assert StmtOk(sys.conn, sys.stmts[k]);
    OpenRowsKeeps(sys.conn, sys.stmts[k], args);
    var (c, st, _) := OpenRows(sys.conn, sys.stmts[k], args);
    StatementStep(sys, k, c, st);
  }

  lemma NextStep(sys: Sys, k: nat, width: nat)
    requires Inv(sys) && k < |sys.stmts| && sys.stmts[k].rows.Some?
    ensures var (c, st, _) := Next(sys.conn, sys.stmts[k], width);
      Inv(Sys(c, sys.stmts[k := st]))
  {
    hide Exchange;
    assert StmtOk(sys.conn, sys.stmts[k]);
    NextKeeps(sys.conn, sys.stmts[k], width);
    var (c, st, _) := Next(sys.conn, sys.stmts[k], width);
    StatementStep(sys, k, c, st);
  }

  lemma CloseRowsStep(sys: Sys, k: nat)
    requires Inv(sys) && k < |sys.stmts| && sys.stmts[k].rows.Some?
    ensures var (c, st, _) := CloseRowsPublic(sys.conn, sys.stmts[k]);
      Inv(Sys(c, sys.stmts[k := st]))
  {
    hide Exchange;
    var st := sys.stmts[k];
    assert StmtOk(sys.conn, st);
    CloseRowsKeeps(sys.conn, st, REUSE_YES);
    var (c, st1, _) := CloseRows(sys.conn, st, REUSE_YES);
    StatementStep(sys, k, c, st1);
    if st.rows.value.closeStmt {
      var sys1 := Sys(c, sys.stmts[k := st1]);
      CloseStmtStep(sys1, k);
      var (c2, st2, _) := CloseStmt(c, st1);
      assert sys1.stmts[k := st2] == sys.stmts[k := st2];
    }
  }

  lemma ConnExecStep(sys: Sys, q: Query, args: seq<Arg>)
    requires Inv(sys)
    ensures var (c, st, _) := ConnExec(sys.conn, q, args); Inv(Made(sys, c, st))
  {
    hide Exchange, Inv;
    PrepareStep(sys, q);
    var (c, p) := Prepare(sys.conn, q);
    if p.Success? {
      var sys1 := Sys(c, sys.stmts + [p.value]);
      var k := |sys.stmts|;
      ExecStep(sys1, k, args);
      var (c1, st1, _) := Exec(c, p.value, args);
      var sys2 := Sys(c1, sys1.stmts[k := st1]);
      CloseStmtStep(sys2, k);
      var (c2, st2, _) := CloseStmt(c1, st1);
      assert sys2.stmts[k := st2] == sys.stmts + [st2];
    }
  }

  lemma ConnQueryStep(sys: Sys, q: Query, args: seq<Arg>)
    requires Inv(sys)
    ensures var (c, st, _) := ConnQuery(sys.conn, q, args); Inv(Made(sys, c, st))
  {
    hide Exchange, Inv;
    PrepareStep(sys, q);
    var (c, p) := Prepare(sys.conn, q);
    if p.Success? {
      var sys1 := Sys(c, sys.stmts + [p.value]);
      var k := |sys.stmts|;
      OpenStep(sys1, k, args);
      var (c1, st1, e) := OpenRows(c, p.value, args);
      var sys2 := Sys(c1, sys1.stmts[k := st1]);
      if e.Some? {
        CloseStmtStep(sys2, k);
        var (c2, st2, _) := CloseStmt(c1, st1);
        assert sys2.stmts[k := st2] == sys.stmts + [st2];
      } else {
        OneShot(sys2, k);
        var st2 := st1.(rows := Some(st1.rows.value.(closeStmt := true)));
        assert sys2.stmts[k := st2] == sys.stmts + [st2];
      }
    }
  }

  /** Marking Rows as the last use of their statement. */
  lemma OneShot(sys: Sys, k: nat)
    requires Inv(sys) && k < |sys.stmts| && sys.stmts[k].rows.Some?
    ensures var st := sys.stmts[k];
      Inv(sys.(stmts := sys.stmts[k := st.(rows := Some(st.rows.value.(closeStmt := true)))]))
  {
    var st := sys.stmts[k];
    assert StmtOk(sys.conn, st);
    StatementStep(sys, k, sys.conn, st.(rows := Some(st.rows.value.(closeStmt := true))));
  }

  /** Requests about the connection leave handle 0 without an RPB. */
  lemma ConnectionPhase(c: ConnState, c': ConnState)
    requires Good(c) && Good(c') && OnlyTouches(c, c', 0)
    ensures PhaseOf(c'.net.log, 0) == PhaseOf(c.net.log, 0)
  {
    PhaseOfZero(c.net.log);
    PhaseOfZero(c'.net.log);
  }

  lemma {:induction false} PhaseOfZero(log: seq<Entry>)
    requires Disciplined(log)
    ensures PhaseOf(log, 0) == Absent
  {
    if log != [] {
      var n := |log| - 1;
      assert forall i :: 0 <= i < n ==> log[..n][..i] == log[..i];
      PhaseOfZero(log[..n]);
      assert Allowed(PhaseOf(log[..n], log[n].req.rpb), log[n].req);
    }
  }

  lemma EveryStep(sys: Sys, a: Action)
    requires Inv(sys)
    ensures Inv(Step(sys, a))
  {
    hide Exchange, Call, Send, Command, Inv, Begin, EndTransaction, Ping;
    var c := sys.conn;
    match a
    case DoPing =>
      ConnectionCall(sys, a);
    case DoBegin(level) =>
      ConnectionCall(sys, a);
    case DoEnd(commit) =>
      ConnectionCall(sys, a);
    case DoCloseConn =>
      CloseConnStep(sys);
    case DoPrepare(q) => PrepareStep(sys, q);
    case DoConnExec(q, args) => ConnExecStep(sys, q, args);
    case DoConnQuery(q, args) => ConnQueryStep(sys, q, args);
    case DoExec(k, args) => if k < |sys.stmts| { ExecStep(sys, k, args); }
    case DoOpen(k, args) => if k < |sys.stmts| { OpenStep(sys, k, args); }
    case DoNext(k, width) => if k < |sys.stmts| && sys.stmts[k].rows.Some? { NextStep(sys, k, width); }
    case DoCloseRows(k) => if k < |sys.stmts| && sys.stmts[k].rows.Some? { CloseRowsStep(sys, k); }
    case DoCloseStmt(k) => if k < |sys.stmts| { CloseStmtStep(sys, k); }
  }

  lemma CloseConnStep(sys: Sys)
    requires Inv(sys)
    ensures Inv(sys.(conn := CloseConn(sys.conn)))
  {
    ConnectionStep(sys, CloseConn(sys.conn));
  }

  lemma ConnectionCall(sys: Sys, a: Action)
    requires Inv(sys) && (a.DoPing? || a.DoBegin? || a.DoEnd?)
    ensures Inv(Step(sys, a))
  {
    hide Exchange, Call, Command;
    var c := sys.conn;
    match a {
      case DoPing => PingKeeps(c);
      case DoBegin(level) => BeginKeeps(c, level);
      case DoEnd(commit) => EndKeeps(c, commit);
    }
    var c' := Step(sys, a).conn;
    ConnectionPhase(c, c');
    ConnectionStep(sys, c');
  }

  // ----- Runs -----

  /** The system after the calls of `actions`, in order. */
  function Run(sys: Sys, actions: seq<Action>): Sys {
    if actions == [] then sys
    else Step(Run(sys, actions[..|actions| - 1]), actions[|actions| - 1])
  }

  lemma {:induction false} InvHolds(sys: Sys, actions: seq<Action>)
    requires Inv(sys)
    ensures Inv(Run(sys, actions))
  {
    hide Inv, Step;
    if actions != [] {
      var n := |actions| - 1;
      InvHolds(sys, actions[..n]);
      EveryStep(Run(sys, actions[..n]), actions[n]);
    }
  }

  /** The states a connection from Connect can get into. */
  ghost predicate Reachable(sys: Sys) {
    exists oracle, opts, parsed, actions ::
      var c := Connect(oracle, opts, parsed);
      c.Success? && sys == Run(Sys(c.value, []), actions)
  }

  lemma ReachableStart(oracle: nat -> Fate, opts: Options)
    requires Connect(oracle, opts, true).Success?
    ensures Reachable(Sys(Connect(oracle, opts, true).value, []))
  {
    hide Connect;
    var sys := Sys(Connect(oracle, opts, true).value, []);
    assert sys == Run(sys, []);
  }

  lemma ReachableStep(sys: Sys, a: Action)
    requires Reachable(sys)
    ensures Reachable(Step(sys, a))
  {
    hide Connect, Step;
    var oracle, opts, parsed, actions :|
      var c := Connect(oracle, opts, parsed);
      c.Success? && sys == Run(Sys(c.value, []), actions);
    var more := actions + [a];
    assert more[..|actions|] == actions;
    assert Step(sys, a) == Run(Sys(Connect(oracle, opts, parsed).value, []), more);
  }
}
