/**
 * Concrete runs in which a promise of the code's documentation fails. Each
 * starts with Connect and goes on with public calls, against a server and a
 * network that behave in one particular way.
 */
module Witnesses {
  import opened Wrappers
  import opened Job
  import opened Session
  import opened Statements
  import opened Transactions
  import opened Runs
  import opened Driver
  import Cursors

  /** An exchange that comes off, for a statement with one column over a result set of one row. */
  const FINE := Fate(Whole, Intact, 0, 0, 0, [1], [], [[Value(0)]], 1, 0, false, true)

  /** The same for a statement without columns. */
  const PLAIN := FINE.(columns := [])

  /** An exchange that the server answers with a rejection. */
  const REJECTED := FINE.(errorClass := 1, returnCode := -1)

  const OPTIONS := Options(1, true)
  const QUERY := Query(1, true, 0)

  /** A usable connection that has made `clock` exchanges with this oracle. */
  ghost predicate At(c: ConnState, oracle: nat -> Fate, clock: nat, inTx: bool) {
    && c.net.oracle == oracle && c.net.clock == clock && c.net.owed == []
    && !c.broken && !c.closed && c.inTx == inTx && c.opts == OPTIONS
    && (inTx ==> c.net.server.level == ISOLATION_READ_UNCOMMITTED)
  }

  predicate Served(f: Fate) {
    f == FINE || f == PLAIN
  }

  /** The statement that Prepare makes of QUERY. */
  function Prepared(columns: seq<nat>): StmtState {
    StmtState(1, 1, columns, [], false, None, false)
  }

  lemma Connects(oracle: nat -> Fate) returns (sys: Sys)
    requires Served(oracle(0))
    ensures Reachable(sys) && At(sys.conn, oracle, 1, false) && sys.stmts == [] && !sys.conn.ids[1]
  {
    sys := Sys(Connect(oracle, OPTIONS, true).value, []);
    ReachableStart(oracle, OPTIONS);
  }

  lemma Begins(sys: Sys, oracle: nat -> Fate) returns (sys': Sys)
    requires Reachable(sys) && At(sys.conn, oracle, 1, false) && Served(oracle(1))
    ensures Reachable(sys') && At(sys'.conn, oracle, 2, true)
    ensures sys'.stmts == sys.stmts && sys'.conn.ids == sys.conn.ids
  {
    hide Reachable, Begin;
    var a := DoBegin(ISOLATION_READ_UNCOMMITTED);
    sys' := Step(sys, a);
    BeginsWell(sys.conn, oracle);
    ReachableStep(sys, a);
  }

  lemma BeginsWell(c: ConnState, oracle: nat -> Fate)
    requires At(c, oracle, 1, false) && Served(oracle(1))
    ensures var c' := Begin(c, ISOLATION_READ_UNCOMMITTED).0; At(c', oracle, 2, true) && c'.ids == c.ids
  {
  }

  lemma Prepares(sys: Sys, oracle: nat -> Fate, clock: nat, inTx: bool) returns (sys': Sys)
    requires Reachable(sys) && At(sys.conn, oracle, clock, inTx) && sys.stmts == [] && !sys.conn.ids[1]
    requires Served(oracle(clock)) && Served(oracle(clock + 1))
    ensures Reachable(sys') && At(sys'.conn, oracle, clock + 2, inTx)
    ensures sys'.stmts == [Prepared(oracle(clock + 1).columns)]
    ensures 1 in sys'.conn.net.server.rpbs
  {
    hide Reachable, Prepare;
    PreparesWell(sys.conn, oracle, clock, inTx);
    sys' := Step(sys, DoPrepare(QUERY));
    ReachableStep(sys, DoPrepare(QUERY));
  }

  lemma PreparesWell(c: ConnState, oracle: nat -> Fate, clock: nat, inTx: bool)
    requires At(c, oracle, clock, inTx) && !c.ids[1] && Served(oracle(clock)) && Served(oracle(clock + 1))
    ensures var (c', r) := Prepare(c, QUERY);
      && At(c', oracle, clock + 2, inTx) && 1 in c'.net.server.rpbs
      && r == Success(Prepared(oracle(clock + 1).columns))
  {
    hide Release, Send, Call, At;
    UsableAt(c, oracle, clock, inTx);
    assert AllocID(c).1 == Some(1);
    Creates(AllocID(c).0, oracle, clock, inTx);
    var c1 := Send(AllocID(c).0, CreateRequest(1)).0;
    UsableAt(c1, oracle, clock + 1, inTx);
    Describes(c1, oracle, clock + 1, inTx);
  }

  lemma UsableAt(c: ConnState, oracle: nat -> Fate, clock: nat, inTx: bool)
    requires At(c, oracle, clock, inTx)
    ensures Usable(c).None? && c.opts == OPTIONS && At(c.(ids := c.ids[1 := true]), oracle, clock, inTx)
  {
  }

  lemma Creates(c: ConnState, oracle: nat -> Fate, clock: nat, inTx: bool)
    requires At(c, oracle, clock, inTx) && Served(oracle(clock))
    ensures var (c', e) := Send(c, CreateRequest(1));
      At(c', oracle, clock + 1, inTx) && 1 in c'.net.server.rpbs && e.None?
  {
  }

  lemma Describes(c: ConnState, oracle: nat -> Fate, clock: nat, inTx: bool)
    requires At(c, oracle, clock, inTx) && Served(oracle(clock))
    ensures var (c', r) := Call(c, PrepareRequest(1, 1));
      && At(c', oracle, clock + 1, inTx) && c'.net.server.rpbs == c.net.server.rpbs
      && r.Success? && !Failed(r.value) && r.value.columns == oracle(clock).columns && r.value.params == []
  {
  }

  // ----- Pool safety -----

  /** The server rejects exactly its sixth request, a ROLLBACK; the statement before it leaves work pending. */
  function RejectsRollback(n: nat): Fate {
    if n == 5 then REJECTED else PLAIN
  }

  lemma ExecutesInTransaction(c: ConnState, oracle: nat -> Fate)
    requires At(c, oracle, 4, true) && oracle(4) == PLAIN
    ensures var (c', st', r) := Exec(c, Prepared([]), []); At(c', oracle, 5, true) && c'.net.server.pending
  {
  }

  lemma RollsBackInVain(c: ConnState)
    requires At(c, RejectsRollback, 5, true) && c.net.server.pending
    ensures var c' := EndTransaction(c, false).0; IsValid(c') && c'.net.server.pending
  {
    var (c1, e1) := CommitOrRollback(c, false);
    assert At(c1, RejectsRollback, 6, true) && c1.net.server.pending && e1.Some?;
  }

  /**
   * The exception to pool safety is real: a reachable connection, valid for the
   * pool, with uncommitted work on its job.
   */
  lemma PoolSafetyHasAHole()
    ensures exists sys :: Reachable(sys) && IsValid(sys.conn) && sys.conn.net.server.pending
  {
    hide Reachable, Exec, EndTransaction;
    var sys := Connects(RejectsRollback);
    sys := Begins(sys, RejectsRollback);
    sys := Prepares(sys, RejectsRollback, 2, true);
    ExecutesInTransaction(sys.conn, RejectsRollback);
    ReachableStep(sys, DoExec(0, []));
    sys := Step(sys, DoExec(0, []));
    RollsBackInVain(sys.conn);
    ReachableStep(sys, DoEnd(false));
    sys := Step(sys, DoEnd(false));
  }

  // ----- ErrConnBroken after something was sent -----

  /** The third request is torn. */
  function TearsThird(n: nat): Fate {
    if n == 2 then FINE.(sending := Torn(true)) else FINE
  }

  lemma CommitTorn(c: ConnState)
    requires At(c, TearsThird, 2, true)
    ensures var (c', e) := EndTransaction(c, true); SaysBroken(e) && c'.net.log != c.net.log
  {
    hide Serve;
    WritesUnlessUnsent(c.net, EndRequest(true), true);
    var (c1, e1) := CommitOrRollback(c, true);
    assert c1.broken && e1 == Some(IO) && c1.net.log != c.net.log;
    assert EndTransaction(c, true) == (c1, Some(Joined(IO, ConnBroken)));
    assert Joined(IO, ConnBroken).Is(ConnBroken);
  }

  /** A Commit on this usable connection writes something and returns ErrConnBroken. */
  ghost predicate CommitsLate(c: ConnState) {
    && Usable(c).None? && c.inTx
    && var (c', e) := EndTransaction(c, true); SaysBroken(e) && c'.net.log != c.net.log
  }

  lemma CommitSaysBrokenLate()
    ensures exists sys :: Reachable(sys) && CommitsLate(sys.conn)
  {
    hide Reachable, EndTransaction;
    var sys := Connects(TearsThird);
    sys := Begins(sys, TearsThird);
    CommitTorn(sys.conn);
  }

  /** The fifth request is torn. */
  function TearsFifth(n: nat): Fate {
    if n == 4 then FINE.(sending := Torn(false)) else FINE
  }

  lemma Opens(sys: Sys, oracle: nat -> Fate) returns (sys': Sys)
    requires Reachable(sys) && At(sys.conn, oracle, 3, false) && sys.stmts == [Prepared([1])] && oracle(3) == FINE
    ensures Reachable(sys') && At(sys'.conn, oracle, 4, false)
    ensures sys'.stmts == [Prepared([1]).(rows := Some(RowsState(Some(Block([], 1)), 0, false, true, false)))]
    ensures Remainder(sys'.conn.net.server, 1) == [[Value(0)]]
  {
    hide Reachable;
    sys' := Step(sys, DoOpen(0, []));
    ReachableStep(sys, DoOpen(0, []));
  }

  /** Closing statement k on this usable connection writes something and returns ErrConnBroken. */
  ghost predicate ClosesLate(sys: Sys, k: nat) {
    && Usable(sys.conn).None? && k < |sys.stmts| && !sys.stmts[k].closed
    && var (c', st', e) := CloseStmt(sys.conn, sys.stmts[k]); SaysBroken(e) && c'.net.log != sys.conn.net.log
  }

  lemma CloseSaysBrokenLate()
    ensures exists sys, k: nat :: Reachable(sys) && ClosesLate(sys, k)
  {
    hide Reachable, CloseStmt, SaysBroken;
    var sys := Connects(TearsFifth);
    sys := Prepares(sys, TearsFifth, 1, false);
    sys := Opens(sys, TearsFifth);
    CloseStmtCanSayBroken(sys.conn, sys.stmts[0]);
    assert ClosesLate(sys, 0);
  }

  // ----- An RPB left behind -----

  /** The server rejects exactly its fourth request, a DELETE_RPB. */
  function RejectsDelete(n: nat): Fate {
    if n == 3 then REJECTED else PLAIN
  }

  lemma ClosesInVain(c: ConnState)
    requires At(c, RejectsDelete, 3, false) && 1 in c.net.server.rpbs
    ensures var (c', st', e) := CloseStmt(c, Prepared([]));
      Usable(c').None? && !c'.ids[1] && 1 in c'.net.server.rpbs && st'.closed
  {
  }

  /** A connection that stays usable, with a handle free whose RPB is still on the job. */
  lemma ReleaseLeaks()
    ensures exists sys :: Reachable(sys) && Usable(sys.conn).None? && !sys.conn.ids[1] && 1 in sys.conn.net.server.rpbs
  {
    hide Reachable, CloseStmt;
    var sys := Connects(RejectsDelete);
    sys := Prepares(sys, RejectsDelete, 1, false);
    ClosesInVain(sys.conn);
    ReachableStep(sys, DoCloseStmt(0));
    sys := Step(sys, DoCloseStmt(0));
  }

  // ----- Rows left behind -----

  function HandsOutNothing(n: nat): Fate {
    FINE
  }

  /** Next on statement k says EOF, on a usable connection, while the server still has rows of the result set. */
  ghost predicate LosesRows(sys: Sys, k: nat) {
    && Usable(sys.conn).None? && k < |sys.stmts| && sys.stmts[k].rows.Some?
    && var (c', st', v) := Next(sys.conn, sys.stmts[k], |sys.stmts[k].columns|);
       v == Failure(EOF) && Usable(c').None? && Cursors.Undelivered(c', st') != []
  }

  lemma EofLosesRows()
    ensures exists sys, k: nat :: Reachable(sys) && LosesRows(sys, k)
  {
    hide Reachable;
    var sys := Connects(HandsOutNothing);
    sys := Prepares(sys, HandsOutNothing, 1, false);
    sys := Opens(sys, HandsOutNothing);
    NextLoses(sys.conn, sys.stmts[0]);
    assert LosesRows(sys, 0);
  }

  lemma NextLoses(c: ConnState, st: StmtState)
    requires At(c, HandsOutNothing, 4, false) && Remainder(c.net.server, 1) == [[Value(0)]]
    requires st == Prepared([1]).(rows := Some(RowsState(Some(Block([], 1)), 0, false, true, false)))
    ensures var (c', st', v) := Next(c, st, 1);
      v == Failure(EOF) && Usable(c').None? && Cursors.Undelivered(c', st') != []
  {
    hide FetchBlock;
    FetchBringsNothing(c, st);
  }

  lemma FetchBringsNothing(c: ConnState, st: StmtState)
    requires At(c, HandsOutNothing, 4, false) && Remainder(c.net.server, 1) == [[Value(0)]]
    requires st.id == 1 && st.rows.Some?
    ensures var (c', st', e) := FetchBlock(c, st);
      && e.None? && Usable(c').None? && Remainder(c'.net.server, 1) == [[Value(0)]]
      && st'.rows.Some? && st'.id == 1 && st'.columns == st.columns && !HasNext(st'.rows.value)
  {
  }
}
