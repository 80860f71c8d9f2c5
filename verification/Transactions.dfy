/** The transaction state of the connection against the commitment control of the job. */
module Transactions {
  import opened Wrappers
  import opened Job
  import opened Session
  import opened Discipline

  /** driverConn.IsValid: whether a pool may hand the connection out again. */
  predicate IsValid(c: ConnState) {
    !c.broken && !c.closed && !c.inTx
  }

  predicate RejectedRollback(e: Entry) {
    e.req == EndRequest(false) && e.seen.Some? && !e.accepted
  }

  predicate AcceptedReset(e: Entry) {
    e.req == SetAttributesRequest(true, ISOLATION_NONE) && e.seen.Some? && e.accepted
  }

  predicate AcceptedEnd(e: Entry) {
    (e.req.op.Commit? || e.req.op.Rollback?) && e.accepted
  }

  /**
   * The one known hole: a rollback the server rejected, directly followed by an
   * accepted reset, at `i`, and nothing committed or rolled back since.
   */
  ghost predicate LeftAt(log: seq<Entry>, i: nat) {
    && i + 1 < |log|
    && RejectedRollback(log[i]) && AcceptedReset(log[i + 1])
    && forall j :: i < j < |log| ==> !AcceptedEnd(log[j])
  }

  ghost predicate Left(log: seq<Entry>) {
    exists i: nat :: LeftAt(log, i)
  }

  /** Client and job agree on the transaction; outside one nothing is pending, but for the known hole. */
  ghost predicate TxOk(c: ConnState) {
    !c.broken ==>
      var s := c.net.server;
      if c.inTx then !s.autoCommit && ISOLATION_READ_UNCOMMITTED <= s.level <= ISOLATION_SERIALIZABLE
      else s.autoCommit && s.level == ISOLATION_NONE && (s.pending ==> Left(c.net.log))
  }

  lemma LeftExtends(log: seq<Entry>, log': seq<Entry>)
    requires Left(log) && log <= log'
    requires forall j :: |log| <= j < |log'| ==> !AcceptedEnd(log'[j])
    ensures Left(log')
  {
    var i: nat :| LeftAt(log, i);
    assert LeftAt(log', i);
  }

  /** Statement and cursor operations keep the transaction state. */
  lemma StatementKeepsTx(c: ConnState, c': ConnState, id: nat)
    requires TxOk(c) && Disciplined(c'.net.log) && OnlyTouches(c, c', id) && c'.inTx == c.inTx && id != 0
    ensures TxOk(c')
  {
    var log, log' := c.net.log, c'.net.log;
    forall j | |log| <= j < |log'| ensures !AcceptedEnd(log'[j]) {
      assert Allowed(PhaseOf(log'[..j], log'[j].req.rpb), log'[j].req);
    }
    if !c'.broken && !c.inTx && c'.net.server.pending {
      LeftExtends(log, log');
    }
  }

  /** A command on the connection itself: refused locally, fatal, or carried out in step. */
  lemma CommandCases(c: ConnState, q: Request)
    requires Good(c) && q.rpb == 0 && q.ors != 0 && WellFormed(q) && Allowed(PhaseOf(c.net.log, 0), q)
    ensures var (c', e) := Command(c, q);
      && Good(c') && OnlyTouches(c, c', 0)
      && c' == c.(net := c'.net, broken := c'.broken)
      && (Usable(c).Some? ==> c' == c && e == Usable(c))
      && (Usable(c).None? ==>
            && (c'.broken <==> !Completed(c.net, q))
            && (c'.broken ==> e == Some(IO) || e == Some(Decode))
            && (!c'.broken ==> c'.net == Settled(c.net, q) && (e.None? <==> EntryFor(c.net, q).accepted))
            && (!c'.broken && e.Some? ==> e.value.Refused?))
  {
    if Usable(c).None? {
      CallKeeps(c, q);
    }
  }

  lemma PingKeeps(c: ConnState)
    requires Good(c) && TxOk(c)
    ensures var (c', e) := Ping(c);
      Good(c') && TxOk(c') && OnlyTouches(c, c', 0) && c' == c.(net := c'.net, broken := c'.broken)
  {
    hide Disciplined, InStep, Mirrored, Command;
    CommandCases(c, PING_REQUEST);
    var (c', e) := Ping(c);
    if !c'.broken && Left(c.net.log) {
      LeftExtends(c.net.log, c'.net.log);
    }
  }

  lemma BeginKeeps(c: ConnState, level: nat)
    requires Good(c) && TxOk(c)
    ensures var (c', e) := Begin(c, level);
      && Good(c') && TxOk(c') && OnlyTouches(c, c', 0)
      && c' == c.(net := c'.net, broken := c'.broken, inTx := c'.inTx)
      && (e.None? ==> c'.inTx && Usable(c').None? && c'.net.server.level == level)
      && (e.Some? ==> c'.inTx == c.inTx)
  {
    hide Exchange, OnlyTouches;
    if !c.inTx && ISOLATION_READ_UNCOMMITTED <= level <= ISOLATION_SERIALIZABLE {
      CommandCases(c, SetAttributesRequest(false, level));
      var (c', e) := SetAutoCommit(c, false, level);
      if !c'.broken && Left(c.net.log) {
        LeftExtends(c.net.log, c'.net.log);
      }
      assert OnlyTouches(c, c', 0);
      TouchesBookkeeping(c, c', 0, true);
    } else {
      TouchesNothing(c, 0);
    }
  }

  lemma TouchesNothing(c: ConnState, id: nat)
    ensures OnlyTouches(c, c, id)
  {
  }

  lemma TouchesBookkeeping(c: ConnState, c': ConnState, id: nat, inTx: bool)
    requires OnlyTouches(c, c', id)
    ensures OnlyTouches(c, c'.(inTx := inTx), id) && OnlyTouches(c, c'.(broken := true), id)
  {
  }

  // ----- Ending a transaction -----

  /** The server answers `q`, and accepts or rejects it. */
  predicate Answered(n: Net, q: Request, accepted: bool) {
    Completed(n, q) && EntryFor(n, q).accepted == accepted
  }

  const ROLLBACK_REQUEST := EndRequest(false)
  const RESET_REQUEST := SetAttributesRequest(true, ISOLATION_NONE)

  /** Resetting autocommit: the connection leaves the transaction exactly when the server accepts. */
  lemma RestoreCases(c: ConnState, endErr: Option<Error>)
    requires Good(c) && (Usable(c).Some? ==> c.broken)
    ensures var (c', e) := Restore(c, endErr);
      && Good(c') && OnlyTouches(c, c', 0)
      && c' == c.(net := c'.net, broken := c'.broken, inTx := c'.inTx)
      && (!c'.broken <==> Usable(c).None? && Answered(c.net, RESET_REQUEST, true))
      && (c'.broken ==> e.Some?)
      && (!c'.broken ==> !c'.inTx && c'.net == Settled(c.net, RESET_REQUEST) && e == endErr)
  {
    CommandCases(c, RESET_REQUEST);
    TouchesBookkeeping(c, SetAutoCommit(c, true, ISOLATION_NONE).0, 0, false);
  }

  /** After a rollback (or a commit) at `n`, whether the connection comes back from the reset. */
  predicate Recovers(n: Net) {
    Answered(n, RESET_REQUEST, true)
  }

  /** Exactly when a transaction that ends leaves its connection usable. */
  predicate EndsWell(n: Net, commit: bool) {
    if Answered(n, EndRequest(commit), true) then Recovers(Settled(n, EndRequest(commit)))
    else if Answered(n, EndRequest(commit), false) then
      var n1 := Settled(n, EndRequest(commit));
      if commit then Answered(n1, ROLLBACK_REQUEST, true) && Recovers(Settled(n1, ROLLBACK_REQUEST)) else Recovers(n1)
    else false
  }

  /** The exchanges that ended the transaction. */
  function Ended(n: Net, commit: bool): Net {
    var n1 := Settled(n, EndRequest(commit));
    var n2 := if commit && Answered(n, EndRequest(commit), false) then Settled(n1, ROLLBACK_REQUEST) else n1;
    Settled(n2, RESET_REQUEST)
  }

  /**
   * Commit and Rollback, decided. The connection survives exactly when
   * EndsWell, and then it is out of the transaction, and the error tells
   * whether the server did what was asked. Otherwise the connection is broken
   * and an error is returned.
   */
  lemma EndTransactionCases(c: ConnState, commit: bool)
    requires Good(c) && Usable(c).None? && c.inTx
    ensures var (c', e) := EndTransaction(c, commit);
      && Good(c') && OnlyTouches(c, c', 0)
      && c' == c.(net := c'.net, broken := c'.broken, inTx := c'.inTx)
      && (!c'.broken <==> EndsWell(c.net, commit))
      && (c'.broken ==> e.Some?)
      && (!c'.broken ==> !c'.inTx && c'.net == Ended(c.net, commit))
      && (!c'.broken ==> (e.None? <==> Answered(c.net, EndRequest(commit), true)))
  {
    hide Exchange, Serve, Good;
    CommandCases(c, EndRequest(commit));
    var (c1, e1) := CommitOrRollback(c, commit);
    if e1.Some? && commit {
      CommandCases(c1, ROLLBACK_REQUEST);
      var (c2, e2) := CommitOrRollback(c1, false);
      OnlyTouchesTransitive(c, c1, c2, 0);
      if e2.None? {
        RestoreCases(c2, e1);
        OnlyTouchesTransitive(c, c2, Restore(c2, e1).0, 0);
      } else {
        TouchesBookkeeping(c, c2, 0, true);
        BrokenStaysGood(c2);
      }
    } else {
      RestoreCases(c1, e1);
      OnlyTouchesTransitive(c, c1, Restore(c1, e1).0, 0);
    }
  }

  lemma BrokenStaysGood(c: ConnState)
    requires Good(c)
    ensures Good(c.(broken := true))
  {
  }

  /** A surviving connection is back in autocommit; work is pending only if a Rollback was rejected while it was. */
  lemma EndedServer(n: Net, commit: bool)
    requires EndsWell(n, commit)
    ensures var s := Ended(n, commit).server;
      && s.autoCommit && s.level == ISOLATION_NONE
      && (s.pending <==> n.server.pending && !commit && Answered(n, ROLLBACK_REQUEST, false))
  {
  }

  /**
   * Exactly when a connection that leaves a transaction valid still has work
   * pending: the caller asked for a Rollback, the server rejected it, and then
   * accepted the reset of autocommit. A Commit never ends so.
   */
  lemma PendingAfterEnd(c: ConnState, commit: bool)
    requires Good(c) && Usable(c).None? && c.inTx
    ensures var c' := EndTransaction(c, commit).0;
      IsValid(c') && c'.net.server.pending <==>
        && c.net.server.pending && !commit
        && Answered(c.net, ROLLBACK_REQUEST, false) && Recovers(Settled(c.net, ROLLBACK_REQUEST))
  {
    hide Exchange, Good, OnlyTouches, Settled;
    EndTransactionCases(c, commit);
    if EndsWell(c.net, commit) {
      EndedServer(c.net, commit);
    }
  }

  /** The log a surviving end of transaction leaves, in the one case where work can stay pending. */
  lemma RejectedRollbackIsLeft(n: Net)
    requires Answered(n, ROLLBACK_REQUEST, false) && Recovers(Settled(n, ROLLBACK_REQUEST))
    ensures Left(Ended(n, false).log)
  {
    var log := Ended(n, false).log;
    var n1 := Settled(n, ROLLBACK_REQUEST);
    assert log[|n.log|] == EntryFor(n, ROLLBACK_REQUEST);
    assert log[|n.log| + 1] == EntryFor(n1, RESET_REQUEST);
    assert LeftAt(log, |n.log|);
  }

  lemma EndKeeps(c: ConnState, commit: bool)
    requires Good(c) && TxOk(c)
    ensures var (c', e) := EndTransaction(c, commit);
      && Good(c') && TxOk(c') && OnlyTouches(c, c', 0)
      && c' == c.(net := c'.net, broken := c'.broken, inTx := c'.inTx)
  {
    hide Exchange, Serve, OnlyTouches;
    if c.inTx && Usable(c).None? {
      EndTransactionCases(c, commit);
      if EndsWell(c.net, commit) {
        EndedServer(c.net, commit);
        if Ended(c.net, commit).server.pending {
          RejectedRollbackIsLeft(c.net);
        }
      }
    } else {
      UnusableEnd(c, commit);
    }
  }

  lemma UnusableEnd(c: ConnState, commit: bool)
    requires Good(c) && (!c.inTx || Usable(c).Some?)
    ensures var (c', e) := EndTransaction(c, commit);
      && Good(c') && OnlyTouches(c, c', 0) && (c.inTx ==> c'.broken) && (!c.inTx ==> c' == c)
      && c' == c.(broken := c'.broken)
  {
  }

  /** A connection Connect hands out is in step, in autocommit, and has nothing pending. */
  lemma ConnectEstablishes(oracle: nat -> Fate, opts: Options, attributesParse: bool)
    ensures var r := Connect(oracle, opts, attributesParse);
      r.Success? ==>
        && Good(r.value) && TxOk(r.value) && IsValid(r.value) && !r.value.net.server.pending
        && r.value.ids == seq(MAX_STATEMENTS + 1, i => false)
        && forall id: nat :: PhaseOf(r.value.net.log, id) == Absent
  {
    var c := ConnState(Net(oracle, 0, FRESH_JOB, [], []), opts,
                       seq(MAX_STATEMENTS + 1, i => false), false, false, false);
    CommandCases(c, RESET_REQUEST);
    var c' := Command(c, RESET_REQUEST).0;
    forall id: nat ensures !c'.broken ==> PhaseOf(c'.net.log, id) == Absent {
      if !c'.broken {
        PhaseAppend([], EntryFor(c.net, RESET_REQUEST), id);
      }
    }
  }
}
