/** What holds in every state of every run of a connection: the main results about the session. */
module Safety {
  import opened Wrappers
  import opened Job
  import opened Session
  import opened Discipline
  import opened Statements
  import opened Transactions
  import opened Runs
  import Outcomes

  lemma StartsWell(oracle: nat -> Fate, opts: Options, parsed: bool)
    requires Connect(oracle, opts, parsed).Success?
    ensures Inv(Sys(Connect(oracle, opts, parsed).value, []))
  {
    hide Connect, Good, TxOk;
    ConnectEstablishes(oracle, opts, parsed);
  }

  lemma ReachableInv(sys: Sys)
    requires Reachable(sys)
    ensures Inv(sys)
  {
    var oracle, opts, parsed, actions :|
      var c := Connect(oracle, opts, parsed);
      c.Success? && sys == Run(Sys(c.value, []), actions);
    hide Connect, Inv, Step, Run;
    StartsWell(oracle, opts, parsed);
    InvHolds(Sys(Connect(oracle, opts, parsed).value, []), actions);
  }

  /** What module Outcomes asks of a connection and its statements holds in every reachable state. */
  lemma ReachableIsDecided(sys: Sys)
    requires Reachable(sys)
    ensures Good(sys.conn) && forall k :: 0 <= k < |sys.stmts| ==> StmtOk(sys.conn, sys.stmts[k])
    ensures Usable(sys.conn).None? ==> Outcomes.FreeIsAbsent(sys.conn)
  {
    ReachableInv(sys);
  }

  // ----- In step -----

  /**
   * Between operations a connection is broken or is owed no reply, and every
   * reply ever taken for the answer to a request was the answer to it.
   */
  lemma AlwaysInStep(sys: Sys)
    requires Reachable(sys)
    ensures !sys.conn.broken ==> sys.conn.net.owed == []
    ensures InStep(sys.conn.net.log)
  {
    ReachableInv(sys);
  }

  /**
   * The reply a call returns answers the request that call wrote, although
   * nothing compares them; and a call that fails on a usable connection breaks it.
   */
  lemma CallReturnsItsOwnAnswer(sys: Sys, q: Request)
    requires Reachable(sys) && q.ors != 0
    ensures var (c', r) := Call(sys.conn, q);
      && (r.Success? ==> r.value.answers == |sys.conn.net.log| && c'.net.owed == [])
      && (r.Failure? ==> Usable(c').Some?)
  {
    ReachableInv(sys);
    if Usable(sys.conn).None? {
      ExchangeCases(sys.conn.net, q);
      ServeAnswers(sys.conn.net.server, q, sys.conn.net.oracle(sys.conn.net.clock), |sys.conn.net.log|);
    }
  }

  /** Send leaves nothing owed behind a connection it does not break, whatever request it is given. */
  lemma SendOwesNothing(sys: Sys, q: Request)
    requires Reachable(sys)
    ensures var (c', e) := Send(sys.conn, q); !c'.broken ==> c'.net.owed == []
  {
    ReachableInv(sys);
  }

  /** Waiting for a reply to a request that asks for none never returns one. */
  lemma CallNeedsABitmap(sys: Sys, q: Request)
    requires Reachable(sys) && q.ors == 0
    ensures Call(sys.conn, q).1.Failure?
  {
    ReachableInv(sys);
  }

  // ----- Pool safety -----

  /**
   * A connection the pool may hand out again is in autocommit, without
   * commitment control, owes nothing, and has nothing pending, unless a
   * rollback was rejected just before an accepted reset and nothing has been
   * committed or rolled back since.
   */
  lemma PoolSafety(sys: Sys)
    requires Reachable(sys) && IsValid(sys.conn)
    ensures sys.conn.net.owed == []
    ensures sys.conn.net.server.autoCommit && sys.conn.net.server.level == ISOLATION_NONE
    ensures sys.conn.net.server.pending ==> Left(sys.conn.net.log)
  {
    ReachableInv(sys);
  }

  // ----- The protocol, and who owns what -----

  /**
   * Every request of every run is one the protocol allows on its RPB: see
   * Lifecycle for what that means for cursors and parameter data.
   */
  lemma AlwaysDisciplined(sys: Sys)
    requires Reachable(sys)
    ensures Disciplined(sys.conn.net.log)
  {
    ReachableInv(sys);
  }

  /** Live statements hold distinct handles, and a handle is taken exactly while one of them owns it. */
  lemma HandleOwnership(sys: Sys, id: nat)
    requires Reachable(sys) && 1 <= id <= MAX_STATEMENTS
    ensures sys.conn.ids[id] <==> exists k: nat :: Owns(sys, k, id)
    ensures forall j: nat, k: nat :: Owns(sys, j, id) && Owns(sys, k, id) ==> j == k
  {
    ReachableInv(sys);
  }

  /**
   * On a usable connection whose housekeeping requests the server accepted,
   * the job holds exactly the live statements' blocks, the descriptors they
   * sent and the cursors they hold open.
   */
  lemma ServerHoldsWhatTheClientThinks(sys: Sys, id: nat)
    requires Reachable(sys) && Usable(sys.conn).None? && HousekeepingAccepted(sys.conn.net.log)
    ensures var s := sys.conn.net.server;
      && (id in s.rpbs <==> exists k: nat :: Owns(sys, k, id))
      && (id in s.descriptors <==> exists k: nat :: Owns(sys, k, id) && sys.stmts[k].descriptorSent)
      && (id in s.cursors <==> exists k: nat :: Owns(sys, k, id) && HoldsCursor(sys.stmts[k]))
  {
    ReachableInv(sys);
    assert MirrorsAt(sys.conn.net.server, PhaseOf(sys.conn.net.log, id), id);
    if k: nat :| Owns(sys, k, id) {
      assert StmtOk(sys.conn, sys.stmts[k]);
    }
  }

  predicate HoldsCursor(st: StmtState) {
    st.rows.Some? && st.rows.value.cursorOpen
  }

  /** Closing a cursor or a descriptor leaves the RPBs of the job alone. */
  lemma SendSparesRpbs(c: ConnState, q: Request)
    requires Good(c) && Usable(c).None? && q.ors == 0 && (q.op.CloseCursor? || q.op.DeleteDescriptor?)
    requires Allowed(PhaseOf(c.net.log, q.rpb), q)
    ensures var c' := Send(c, q).0;
      Usable(c').None? ==> c'.net.server.rpbs == c.net.server.rpbs && |c'.net.log| > |c.net.log|
  {
    hide Send, Disciplined, InStep, Mirrored;
    SendKeeps(c, q);
  }

  lemma CloseRowsSparesRpbs(c: ConnState, st: StmtState)
    requires Good(c) && StmtOk(c, st.(closed := false)) && Usable(c).None?
    ensures var c' := CloseRows(c, st, REUSE_NO).0;
      Usable(c').None? ==> c'.net.server.rpbs == c.net.server.rpbs && |c'.net.log| >= |c.net.log|
  {
    hide Send, Disciplined, InStep, Mirrored, Stalled;
    if st.rows.Some? && st.rows.value.cursorOpen {
      SendSparesRpbs(c, CloseRequest(st.id, REUSE_NO));
    }
  }

  /** A DELETE_RPB, answered: the RPB is gone exactly if the server accepted. */
  ghost predicate Dropped(n: Net, n': Net, id: nat, e: Option<Error>) {
    && |n'.log| > |n.log|
    && var last := n'.log[|n'.log| - 1];
       && last.req == DropRequest(id)
       && (e.Some? <==> !last.accepted)
       && (id in n'.server.rpbs <==> id in n.server.rpbs && !last.accepted)
  }

  lemma DropDecides(c: ConnState, id: nat)
    requires Good(c) && Usable(c).None? && 1 <= id <= MAX_STATEMENTS
    requires Allowed(PhaseOf(c.net.log, id), DropRequest(id))
    ensures var (c', e) := Command(c, DropRequest(id)); !c'.broken ==> Dropped(c.net, c'.net, id, e)
  {
    hide Exchange, Disciplined, InStep, Mirrored;
    var q := DropRequest(id);
    CallKeeps(c, q);
    var (c', r) := Call(c, q);
    if r.Success? {
      assert c'.net.log[|c.net.log|] == EntryFor(c.net, q);
    }
  }

  lemma DropAfter(c: ConnState, c1: ConnState, id: nat)
    requires Good(c1) && Usable(c1).None? && 1 <= id <= MAX_STATEMENTS
    requires Allowed(PhaseOf(c1.net.log, id), DropRequest(id))
    requires c1.net.server.rpbs == c.net.server.rpbs && |c1.net.log| >= |c.net.log|
    ensures var (c', e) := Command(c1, DropRequest(id)); !c'.broken ==> Dropped(c.net, c'.net, id, e)
  {
    hide Command;
    DropDecides(c1, id);
  }

  /**
   * Releasing a statement frees its handle whatever happens. If the
   * connection stays usable, the last thing written was DELETE_RPB, and the
   * statement's RPB is left behind on the job exactly when the job had it and
   * rejected that request; then, and only then, release returns an error.
   */
  lemma ReleaseCanLeak(c: ConnState, st: StmtState)
    requires Good(c) && StmtOk(c, st) && !st.closed
    ensures var (c', st', e) := Release(c, st);
      !c'.ids[st.id] && (Usable(c).None? && !c'.broken ==> Dropped(c.net, c'.net, st.id, e))
  {
    hide Exchange, Disciplined, InStep, Mirrored, PhaseOf, Stalled, Dropped;
    if Usable(c).None? {
      var st1 := st.(closed := true);
      CloseRowsKeeps(c, st1, REUSE_NO);
      CloseRowsSparesRpbs(c, st1);
      var (c1, st2, e1) := CloseRows(c, st1, REUSE_NO);
      if st2.descriptorSent {
        var q := DropDescriptorRequest(st.id);
        if Usable(c1).None? {
          SendSteps(c1, q);
          SendSparesRpbs(c1, q);
          var c2 := Send(c1, q).0;
          if Usable(c2).None? {
            DropAfter(c, c2, st.id);
          }
        }
      } else if Usable(c1).None? {
        DropAfter(c, c1, st.id);
      }
    }
  }
}
