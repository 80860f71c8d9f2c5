/**
 * The database/sql layer: which errors become driver.ErrBadConn, the error
 * that makes a pool run the same operation again on another connection, and
 * why doing so never runs a statement twice.
 */
module Driver {
  import opened Wrappers
  import opened Job
  import opened Session
  import opened Discipline
  import Outcomes
  import Transactions

  datatype DriverError = BadConn | Plain(error: Error)

  /** badConn */
  function Mapped(e: Error): DriverError {
    if e.Is(ConnBroken) then BadConn else Plain(e)
  }

  function MappedOption(e: Option<Error>): Option<DriverError> {
    if e.None? then None else Some(Mapped(e.value))
  }

  function MappedResult<T>(r: Result<T, Error>): Result<T, DriverError> {
    match r
    case Success(v) => Success(v)
    case Failure(e) => Failure(Mapped(e))
  }

  function DriverPrepare(c: ConnState, q: Query): (ConnState, Result<StmtState, DriverError>) {
    var (c, r) := Prepare(c, q);
    (c, MappedResult(r))
  }

  function DriverPing(c: ConnState): (ConnState, Option<DriverError>) {
    var (c, e) := Ping(c);
    (c, MappedOption(e))
  }

  /** The commitment control level for one of database/sql's isolation levels. */
  function LevelFor(isolation: nat): Option<nat> {
    match isolation
    case 0 => Some(1)   // LevelDefault
    case 1 => Some(1)   // LevelReadUncommitted
    case 2 => Some(2)   // LevelReadCommitted
    case 4 => Some(3)   // LevelRepeatableRead
    case 6 => Some(4)   // LevelSerializable
    case _ => None
  }

  function DriverBegin(c: ConnState, readOnly: bool, isolation: nat): (ConnState, Option<DriverError>) {
    if readOnly then (c, Some(Plain(Usage(ReadOnlyUnsupported))))
    else if LevelFor(isolation).None? then (c, Some(Plain(Usage(LevelUnsupported))))
    else
      var (c, e) := Begin(c, LevelFor(isolation).value);
      (c, MappedOption(e))
  }

  /** Statement arguments as database/sql passes them; named ones are refused. */
  datatype NamedArg = NamedArg(named: bool, arg: Arg)

  function Positional(args: seq<NamedArg>): (r: Result<seq<Arg>, DriverError>)
    ensures r.Success? <==> forall a :: a in args ==> !a.named
    ensures r.Success? ==> |r.value| == |args| && forall i :: 0 <= i < |args| ==> r.value[i] == args[i].arg
    ensures r.Failure? ==> r.error == Plain(Usage(NamedArgument))
  {
    if args == [] then Success([])
    else
      var n := |args| - 1;
      assert args == args[..n] + [args[n]];
      match Positional(args[..n])
      case Failure(e) => Failure(e)
      case Success(rest) =>
        if args[n].named then Failure(Plain(Usage(NamedArgument))) else Success(rest + [args[n].arg])
  }

  function DriverExec(
    c: ConnState, st: StmtState, args: seq<NamedArg>
  ): (ConnState, StmtState, Result<int, DriverError>) {
    var p := Positional(args);
    if p.Failure? then (c, st, Failure(p.error))
    else
      var (c, st, r) := Exec(c, st, p.value);
      (c, st, MappedResult(r))
  }

  function DriverQuery(c: ConnState, st: StmtState, args: seq<NamedArg>): (ConnState, StmtState, Option<DriverError>) {
    var p := Positional(args);
    if p.Failure? then (c, st, Some(p.error))
    else
      var (c, st, e) := OpenRows(c, st, p.value);
      (c, st, MappedOption(e))
  }

  /** ResetSession, asked before a pool hands the connection out again. */
  function DriverReset(c: ConnState): Option<DriverError> {
    if c.broken || c.closed || c.inTx then Some(BadConn) else None
  }

  /** The pool gets a connection back exactly if it is valid, and loses it otherwise. */
  lemma ResetIsValidity(c: ConnState)
    ensures DriverReset(c).None? <==> Transactions.IsValid(c)
    ensures DriverReset(c).Some? ==> DriverReset(c) == Some(BadConn)
  {
  }

  /**
   * BeginTx, decided. database/sql's levels 0 and 1 (default and read
   * uncommitted), 2 (read committed), 4 (repeatable read) and 6
   * (serializable) start a transaction on the job at 1, 2, 3 and 4; no other
   * level, and no read-only transaction, is tried.
   */
  lemma BeginTxDecides(c: ConnState, readOnly: bool, isolation: nat)
    requires Good(c) && Usable(c).None? && !c.inTx
    ensures var (c', e) := DriverBegin(c, readOnly, isolation);
      var level := if isolation <= 1 then 1 else if isolation == 2 then 2 else if isolation == 4 then 3 else 4;
      var supported := isolation in {0, 1, 2, 4, 6};
      && (e.None? <==> !readOnly && supported && Outcomes.ComesOff(c.net, [Outcomes.Setting(false, level)]))
      && (e.None? ==> c'.inTx && !c'.net.server.autoCommit && c'.net.server.level == level)
      && (e.Some? ==> !c'.inTx)
      && (readOnly ==> c' == c && e == Some(Plain(Usage(ReadOnlyUnsupported))))
      && (!readOnly && !supported ==> c' == c && e == Some(Plain(Usage(LevelUnsupported))))
  {
    hide Begin, Outcomes.ComesOff;
    if LevelFor(isolation).Some? {
      Outcomes.BeginDecides(c, LevelFor(isolation).value);
      var (c', e) := Begin(c, LevelFor(isolation).value);
      assert e.Some? ==> c'.inTx == c.inTx;
    }
  }

  // ----- ErrBadConn means nothing was written -----

  /** The only way to get ErrConnBroken from one request is to have found the connection broken. */
  lemma RequestNeverSaysBroken(c: ConnState, q: Request)
    requires Usable(c).None?
    ensures Call(c, q).1.Failure? ==> !Call(c, q).1.error.Is(ConnBroken)
    ensures Send(c, q).1.Some? ==> !Send(c, q).1.value.Is(ConnBroken) && (q.ors == 0 ==> Send(c, q).0.broken)
    ensures Command(c, q).1.Some? ==> !Command(c, q).1.value.Is(ConnBroken)
    ensures Call(c, q).1.Success? ==> Usable(Call(c, q).0).None?
    ensures Send(c, q).1.None? ==> Usable(Send(c, q).0).None?
    ensures Call(c, q).0.closed == c.closed && Send(c, q).0.closed == c.closed
  {
    hide Exchange;
  }

  /** Closing rows says nothing about a broken connection, and leaves it usable unless it fails. */
  lemma CloseRowsNeverSaysBroken(c: ConnState, st: StmtState, reuse: nat)
    requires Usable(c).None?
    ensures var (c', st', e) := CloseRows(c, st, reuse);
      (e.Some? ==> !e.value.Is(ConnBroken)) && (e.None? ==> Usable(c').None?)
  {
    hide Exchange;
    RequestNeverSaysBroken(c, CloseRequest(st.id, reuse));
  }

  lemma BindNeverSaysBroken(c: ConnState, st: StmtState, args: seq<Arg>)
    requires Usable(c).None?
    ensures var (c', st', e) := Bind(c, st, args);
      (e.Some? ==> !e.value.Is(ConnBroken)) && (e.None? ==> Usable(c').None?)
  {
    hide Exchange;
    RequestNeverSaysBroken(c, DescriptorRequest(st));
  }

  /** Prepare returns ErrBadConn exactly on a connection that was broken before, and then writes nothing. */
  lemma PrepareBadConn(c: ConnState, q: Query)
    ensures var (c', r) := DriverPrepare(c, q);
      && (r == Failure(BadConn) <==> c.broken && !c.closed)
      && (r == Failure(BadConn) ==> c' == c)
  {
    hide Exchange, Release;
    var (c0, id) := AllocID(c);
    if Usable(c).None? && id.Some? {
      RequestNeverSaysBroken(c0, CreateRequest(id.value));
      var c1 := Send(c0, CreateRequest(id.value)).0;
      if Usable(c1).None? {
        RequestNeverSaysBroken(c1, PrepareRequest(id.value, q.kind));
      }
    }
  }

  lemma PingBadConn(c: ConnState)
    ensures var (c', e) := DriverPing(c);
      && (e == Some(BadConn) <==> c.broken && !c.closed)
      && (e == Some(BadConn) ==> c' == c)
  {
    hide Exchange;
    if Usable(c).None? {
      RequestNeverSaysBroken(c, PING_REQUEST);
    }
  }

  lemma BeginBadConn(c: ConnState, readOnly: bool, isolation: nat)
    ensures var (c', e) := DriverBegin(c, readOnly, isolation);
      && (e == Some(BadConn) <==> !readOnly && LevelFor(isolation).Some? && !c.inTx && c.broken && !c.closed)
      && (e == Some(BadConn) ==> c' == c)
  {
    hide Exchange;
    if Usable(c).None? && LevelFor(isolation).Some? {
      RequestNeverSaysBroken(c, SetAttributesRequest(false, LevelFor(isolation).value));
    }
  }

  lemma ExecBadConn(c: ConnState, st: StmtState, args: seq<NamedArg>)
    ensures var (c', st', r) := DriverExec(c, st, args);
      && (r == Failure(BadConn) <==> Positional(args).Success? && !st.closed && c.broken && !c.closed)
      && (r == Failure(BadConn) ==> c' == c && st' == st)
  {
    hide Exchange, CloseRows, Bind, Call;
    var p := Positional(args);
    if p.Success? && StmtUsable(c, st).None? && st.columns == [] {
      CloseRowsNeverSaysBroken(c, st, REUSE_YES);
      var (c1, st1, e1) := CloseRows(c, st, REUSE_YES);
      if e1.None? {
        BindNeverSaysBroken(c1, st1, p.value);
        var (c2, st2, e2) := Bind(c1, st1, p.value);
        if e2.None? {
          RequestNeverSaysBroken(c2, ExecuteRequest(st2));
        }
      }
    }
  }

  lemma QueryBadConn(c: ConnState, st: StmtState, args: seq<NamedArg>)
    ensures var (c', st', e) := DriverQuery(c, st, args);
      && (e == Some(BadConn) <==> Positional(args).Success? && !st.closed && c.broken && !c.closed)
      && (e == Some(BadConn) ==> c' == c && st' == st)
  {
    hide Exchange, CloseRows, Bind, Call;
    var p := Positional(args);
    if p.Success? && StmtUsable(c, st).None? && st.columns != [] {
      CloseRowsNeverSaysBroken(c, st, REUSE_YES);
      var (c1, st1, e1) := CloseRows(c, st, REUSE_YES);
      if e1.None? {
        BindNeverSaysBroken(c1, st1, p.value);
        var (c2, st2, e2) := Bind(c1, st1, p.value);
        if e2.None? {
          RequestNeverSaysBroken(c2, OpenRequest(st2, c2.opts.blockSize));
        }
      }
    }
  }

  // ----- Below the driver the error means less -----

  /** An error that a caller would take for a connection broken earlier. */
  predicate SaysBroken(e: Option<Error>) {
    e.Some? && e.value.Is(ConnBroken)
  }

  /** An exchange, in step or not, writes its request unless it is given up before. */
  lemma WritesUnlessUnsent(n: Net, q: Request, want: bool)
    ensures Exchange(n, q, want).0.log == n.log <==> n.oracle(n.clock).sending.Unsent?
  {
    hide Serve;
    var f := n.oracle(n.clock);
    var d := Deliver(n.(clock := n.clock + 1), q, f);
    assert |d.log| == |n.log| + 1;
  }

  /**
   * Commit and Rollback can return ErrConnBroken after writing. On a usable
   * connection they return it exactly when their own first request fails, and
   * then they have written something exactly when that request was not given
   * up before its first byte.
   */
  lemma EndTransactionCanSayBroken(c: ConnState, commit: bool)
    requires Good(c) && Usable(c).None? && c.inTx
    ensures var (c', e) := EndTransaction(c, commit);
      && (SaysBroken(e) <==> !Completed(c.net, EndRequest(commit)))
      && (SaysBroken(e) && c'.net.log != c.net.log <==>
            !Completed(c.net, EndRequest(commit)) && !c.net.oracle(c.net.clock).sending.Unsent?)
  {
    hide Exchange, Good;
    var q := EndRequest(commit);
    CallKeeps(c, q);
    RequestNeverSaysBroken(c, q);
    WritesUnlessUnsent(c.net, q, true);
    var (c1, e1) := CommitOrRollback(c, commit);
    if Usable(c1).None? {
      RequestNeverSaysBroken(c1, EndRequest(false));
      RequestNeverSaysBroken(c1, SetAttributesRequest(true, ISOLATION_NONE));
      var (c2, e2) := CommitOrRollback(c1, false);
      if Usable(c2).None? {
        RequestNeverSaysBroken(c2, SetAttributesRequest(true, ISOLATION_NONE));
      }
    }
  }

  /**
   * So can Stmt.Close: it returns it exactly when there is an open cursor and
   * the CLOSE is not written whole, and has written something exactly when
   * the CLOSE was torn.
   */
  lemma CloseStmtCanSayBroken(c: ConnState, st: StmtState)
    requires Usable(c).None? && !st.closed
    ensures var (c', st', e) := CloseStmt(c, st);
      var live := st.rows.Some? && st.rows.value.cursorOpen;
      var sending := c.net.oracle(c.net.clock).sending;
      && (SaysBroken(e) <==> live && !sending.Whole?)
      && (SaysBroken(e) && c'.net.log != c.net.log <==> live && sending.Torn?)
  {
    hide Exchange, Send, Command;
    SendFails(c, CloseRequest(st.id, REUSE_NO));
    var st0 := st.(closed := true);
    RequestNeverSaysBroken(c, CloseRequest(st.id, REUSE_NO));
    var (c1, st1, e1) := CloseRows(c, st0, REUSE_NO);
    if Usable(c1).None? {
      RequestNeverSaysBroken(c1, DropDescriptorRequest(st.id));
      RequestNeverSaysBroken(c1, DropRequest(st.id));
      var (c2, e2) := Send(c1, DropDescriptorRequest(st.id));
      if Usable(c2).None? {
        RequestNeverSaysBroken(c2, DropRequest(st.id));
      }
    } else {
      BrokenRefuses(c1, DropDescriptorRequest(st.id));
      BrokenRefuses(c1, DropRequest(st.id));
      assert CloseStmt(c, st).2 == Some(Joined(e1.value, ConnBroken));
      assert Joined(e1.value, ConnBroken).Is(ConnBroken);
    }
  }

  /** A request without a reply fails exactly if it is not written whole. */
  lemma SendFails(c: ConnState, q: Request)
    requires Usable(c).None? && q.ors == 0
    ensures Send(c, q).1.Some? <==> !c.net.oracle(c.net.clock).sending.Whole?
    ensures Send(c, q).0.net.log == c.net.log <==> c.net.oracle(c.net.clock).sending.Unsent?
  {
    hide Serve;
    WritesUnlessUnsent(c.net, q, false);
  }

  lemma BrokenRefuses(c: ConnState, q: Request)
    requires c.broken && !c.closed
    ensures Send(c, q) == (c, Some(ConnBroken)) && Command(c, q) == (c, Some(ConnBroken))
  {
  }

  /** But the one-shot Conn.Exec says so only if it wrote nothing. */
  lemma ConnExecNeverSaysBrokenLate(c: ConnState, q: Query, args: seq<Arg>)
    ensures var (c', st, r) := ConnExec(c, q, args);
      r.Failure? && r.error.Is(ConnBroken) ==> c' == c
  {
    hide Exchange, Prepare, Exec, CloseStmt;
    PrepareBadConn(c, q);
    var (c0, p) := Prepare(c, q);
    if p.Success? {
      FreshHasNoRows(c, q);
      var na := Unnamed(args);
      var (c1, st1, r1) := Exec(c0, p.value, args);
      ExecBadConn(c0, p.value, na);
      UnnamedRoundTrip(args);
      ExecKeepsNoRows(c0, p.value, args);
      if Usable(c1).None? {
        CloseStmtCanSayBroken(c1, st1);
        assert !SaysBroken(CloseStmt(c1, st1).2);
      } else {
        UnusableClose(c1, st1);
      }
    }
  }

  function Unnamed(args: seq<Arg>): (r: seq<NamedArg>)
    ensures |r| == |args| && forall i :: 0 <= i < |r| ==> r[i] == NamedArg(false, args[i])
  {
    seq(|args|, i requires 0 <= i < |args| => NamedArg(false, args[i]))
  }

  lemma {:induction false} UnnamedRoundTrip(args: seq<Arg>)
    ensures Positional(Unnamed(args)) == Success(args)
  {
    if args != [] {
      var n := |args| - 1;
      assert Unnamed(args)[..n] == Unnamed(args[..n]);
      UnnamedRoundTrip(args[..n]);
      assert args[..n] + [args[n]] == args;
    }
  }

  lemma UnusableClose(c: ConnState, st: StmtState)
    requires Usable(c).Some?
    ensures CloseStmt(c, st).2.None?
  {
  }

  lemma FreshHasNoRows(c: ConnState, q: Query)
    ensures var (c', p) := Prepare(c, q);
      p.Success? ==> Usable(c').None? && !p.value.closed && p.value.rows.None?
  {
    hide Exchange, Release;
  }

  lemma ExecKeepsNoRows(c: ConnState, st: StmtState, args: seq<Arg>)
    requires st.rows.None?
    ensures var st' := Exec(c, st, args).1; st'.rows.None? && st'.closed == st.closed
  {
    hide Exchange, Call;
  }

  // ----- At most once -----

  /** The requests that run a statement on the server: EXECUTE, and OPEN for one that returns rows. */
  function Cost(q: Request): nat {
    if q.op.Execute? || q.op.OpenDescribeFetch? then 1 else 0
  }

  /** How many of them a log holds. */
  function Executes(log: seq<Entry>): nat {
    if log == [] then 0 else Executes(log[..|log| - 1]) + Cost(log[|log| - 1].req)
  }

  lemma ExecutesAppend(log: seq<Entry>, e: Entry)
    ensures Executes(log + [e]) == Executes(log) + Cost(e.req)
  {
    assert (log + [e])[..|log|] == log;
  }

  /** An exchange, in step or not, writes its own request or none. */
  lemma ExchangeWritesOnce(n: Net, q: Request, want: bool)
    ensures Executes(Exchange(n, q, want).0.log) <= Executes(n.log) + Cost(q)
  {
    hide Serve, Executes;
    var f := n.oracle(n.clock);
    var (s, r) := Serve(n.server, q, f, |n.log|);
    var e := Entry(q, !Failed(r), None);
    ExecutesAppend(n.log, e);
    ExecutesAppend(n.log, Entry(q, false, None));
    var d := Deliver(n.(clock := n.clock + 1), q, f);
    if d.owed != [] {
      assert d.log == n.log + [e];
      ExecutesAppend(n.log, e.(seen := Some(d.owed[0])));
      assert Noted(d.log, d.owed[0]) == n.log + [e.(seen := Some(d.owed[0]))];
    }
  }

  lemma RequestWritesOnce(c: ConnState, q: Request)
    ensures Executes(Call(c, q).0.net.log) <= Executes(c.net.log) + Cost(q)
    ensures Executes(Send(c, q).0.net.log) <= Executes(c.net.log) + Cost(q)
    ensures Executes(Command(c, q).0.net.log) <= Executes(c.net.log) + Cost(q)
  {
    hide Exchange, Executes;
    ExchangeWritesOnce(c.net, q, true);
    ExchangeWritesOnce(c.net, q, false);
  }

  lemma CloseRowsWritesNoExecute(c: ConnState, st: StmtState, reuse: nat)
    ensures Executes(CloseRows(c, st, reuse).0.net.log) <= Executes(c.net.log)
  {
    hide Send, Executes;
    RequestWritesOnce(c, CloseRequest(st.id, reuse));
  }

  lemma ReleaseWritesNoExecute(c: ConnState, st: StmtState)
    ensures Executes(Release(c, st).0.net.log) <= Executes(c.net.log)
    ensures Executes(CloseStmt(c, st).0.net.log) <= Executes(c.net.log)
  {
    hide Send, Command, Executes, CloseRows, Usable;
    CloseRowsWritesNoExecute(c, st.(closed := true), REUSE_NO);
    var (c1, st1, e1) := CloseRows(c, st.(closed := true), REUSE_NO);
    RequestWritesOnce(c1, DropDescriptorRequest(st1.id));
    RequestWritesOnce(c1, DropRequest(st1.id));
    RequestWritesOnce(Send(c1, DropDescriptorRequest(st1.id)).0, DropRequest(st1.id));
  }

  lemma PrepareWritesNoExecute(c: ConnState, q: Query)
    ensures Executes(Prepare(c, q).0.net.log) <= Executes(c.net.log)
  {
    hide Send, Call, Executes, Release;
    var (c0, id) := AllocID(c);
    if id.Some? {
      var st := StmtState(id.value, q.kind, [], [], false, None, false);
      RequestWritesOnce(c0, CreateRequest(id.value));
      var c1 := Send(c0, CreateRequest(id.value)).0;
      ReleaseWritesNoExecute(c1, st);
      RequestWritesOnce(c1, PrepareRequest(id.value, q.kind));
      ReleaseWritesNoExecute(Call(c1, PrepareRequest(id.value, q.kind)).0, st);
    }
  }

  lemma ExecWritesOneExecute(c: ConnState, st: StmtState, args: seq<Arg>)
    ensures Executes(Exec(c, st, args).0.net.log) <= Executes(c.net.log) + 1
  {
    hide Send, Call, Executes, CloseRows;
    CloseRowsWritesNoExecute(c, st, REUSE_YES);
    var (c1, st1, e1) := CloseRows(c, st, REUSE_YES);
    RequestWritesOnce(c1, DescriptorRequest(st1));
    var (c2, st2, e2) := Bind(c1, st1, args);
    RequestWritesOnce(c2, ExecuteRequest(st2));
  }

  lemma OpenWritesOneExecute(c: ConnState, st: StmtState, args: seq<Arg>)
    ensures Executes(OpenRows(c, st, args).0.net.log) <= Executes(c.net.log) + 1
  {
    hide Send, Call, Executes, CloseRows;
    CloseRowsWritesNoExecute(c, st, REUSE_YES);
    var (c1, st1, e1) := CloseRows(c, st, REUSE_YES);
    RequestWritesOnce(c1, DescriptorRequest(st1));
    var (c2, st2, e2) := Bind(c1, st1, args);
    RequestWritesOnce(c2, OpenRequest(st2, c2.opts.blockSize));
  }

  /**
   * What database/sql does on one connection for one Exec: prepare, execute,
   * close; or for one Query: prepare, open, and close only if that fails.
   */
  function Attempt(c: ConnState, q: Query, args: seq<NamedArg>, rows: bool): (ConnState, Option<DriverError>) {
    var (c, p) := DriverPrepare(c, q);
    match p
    case Failure(e) => (c, Some(e))
    case Success(st) =>
      if rows then
        var (c, st, e) := DriverQuery(c, st, args);
        (if e.Some? then CloseStmt(c, st).0 else c, e)
      else
        var (c, st, r) := DriverExec(c, st, args);
        (CloseStmt(c, st).0, ErrorOf(r))
  }

  lemma AttemptWritesAtMostOnce(c: ConnState, q: Query, args: seq<NamedArg>, rows: bool)
    ensures var (c', e) := Attempt(c, q, args, rows);
      && Executes(c'.net.log) <= Executes(c.net.log) + 1
      && (e == Some(BadConn) ==> c' == c)
  {
    hide Exchange, Executes, Prepare, Exec, OpenRows, CloseStmt;
    PrepareBadConn(c, q);
    PrepareWritesNoExecute(c, q);
    FreshHasNoRows(c, q);
    var (c0, p) := Prepare(c, q);
    if p.Success? {
      ExecBadConn(c0, p.value, args);
      QueryBadConn(c0, p.value, args);
      if Positional(args).Success? {
        ExecWritesOneExecute(c0, p.value, Positional(args).value);
        OpenWritesOneExecute(c0, p.value, Positional(args).value);
      }
      var (c1, st1, r1) := DriverExec(c0, p.value, args);
      ReleaseWritesNoExecute(c1, st1);
      var (c2, st2, e2) := DriverQuery(c0, p.value, args);
      ReleaseWritesNoExecute(c2, st2);
    }
  }

  /** A pool that tries the connections in order for as long as they answer ErrBadConn, and whether one did not. */
  function Retry(conns: seq<ConnState>, q: Query, args: seq<NamedArg>, rows: bool): (r: (seq<ConnState>, bool))
    ensures |r.0| == |conns|
  {
    if conns == [] then ([], false)
    else
      var (c, e) := Attempt(conns[0], q, args, rows);
      if e != Some(BadConn) then ([c] + conns[1..], true)
      else
        var (rest, done) := Retry(conns[1..], q, args, rows);
        ([c] + rest, done)
  }

  function TotalExecutes(conns: seq<ConnState>): nat {
    if conns == [] then 0 else Executes(conns[0].net.log) + TotalExecutes(conns[1..])
  }

  /**
   * One logical Exec or Query runs its statement at most once, however many
   * connections the pool tries and in whatever state each of them is; and
   * only the connection that did not answer ErrBadConn is touched.
   */
  lemma {:induction false} AtMostOneExecute(conns: seq<ConnState>, q: Query, args: seq<NamedArg>, rows: bool)
    ensures var (conns', done) := Retry(conns, q, args, rows);
      && TotalExecutes(conns') <= TotalExecutes(conns) + 1
      && (!done ==> conns' == conns)
      && (forall i, j :: 0 <= i < j < |conns| ==> conns'[i] == conns[i] || conns'[j] == conns[j])
  {
    hide Attempt, Executes;
    if conns != [] {
      AttemptWritesAtMostOnce(conns[0], q, args, rows);
      var (c, e) := Attempt(conns[0], q, args, rows);
      if e == Some(BadConn) {
        AtMostOneExecute(conns[1..], q, args, rows);
        assert ([c] + Retry(conns[1..], q, args, rows).0)[1..] == Retry(conns[1..], q, args, rows).0;
      } else {
        assert ([c] + conns[1..])[1..] == conns[1..];
      }
    }
  }
}
