/**
 * The goroutines of Connection.exchange: any number of callers of one
 * connection, a watcher for each context that can be cancelled, and the
 * cancellations, interleaved in every way.
 */
module Exchange {
  import opened Wrappers

  /** The deadline set on the socket. `Past` is the instant a watcher sets. */
  datatype Deadline = Clear | At(time: int) | Past

  /** What a caller asks for: the instant its I/O timeout ends, and what its context is like. */
  datatype Plan = Plan(timeout: Option<int>, ctxDeadline: Option<int>, cancellable: bool, wantReply: bool)

  /** The deadline an exchange installs, if any: the earlier of the two. */
  function Chosen(p: Plan): Option<int> {
    if p.ctxDeadline.Some? && (p.timeout.None? || p.ctxDeadline.value < p.timeout.value) then p.ctxDeadline
    else p.timeout
  }

  /** Where the caller is: in the body, and then in the deferred calls, last deferred first. */
  datatype Pc =
    | Start | Locked | Arming | Spawning | Writing | Reading
    | Stopping | Awaiting | Resetting | Unlocking | Returned

  datatype Watcher = Absent | Waiting | Firing | Leaving | Exited

  datatype Outcome = Pending | Failed | Sent | Replied

  datatype Call = Call(
    plan: Plan,
    pc: Pc,
    cancelled: bool,
    installed: bool,
    watcher: Watcher,
    stopped: bool,
    fired: bool,
    cleared: bool,
    resetFailed: bool,
    outcome: Outcome,
    before: Deadline,
    after: Deadline)

  function NewCall(p: Plan): Call {
    Call(p, Start, false, false, Absent, false, false, false, false, Pending, Clear, Clear)
  }

  datatype Event = Wrote(caller: nat) | Read(caller: nat)

  datatype State = State(calls: seq<Call>, lock: Option<nat>, deadline: Deadline, wire: seq<Event>)

  /** One step of a caller or of its watcher, with the fate of the socket call it makes, or a cancellation. */
  datatype Act =
    | Main(i: nat, ok: bool)
    | Watch(i: nat, done: bool, ok: bool)
    | Cancel(i: nat)

  predicate Entering(pc: Pc) {
    pc == Start || pc == Locked || pc == Arming || pc == Spawning
  }

  function Enter(c: Call, d: Deadline, ok: bool): (r: (Call, Deadline))
    requires Entering(c.pc)
    ensures r.0.pc != Start && r.0.pc != Reading && r.0.pc != Returned
    ensures r.0.resetFailed == c.resetFailed
  {
    match c.pc
    case Start => (c.(pc := Locked, before := d), d)
    case Locked => (if c.cancelled then c.(pc := Unlocking, outcome := Failed) else c.(pc := Arming), d)
    case Arming =>
      var chosen := Chosen(c.plan);
      if chosen.None? then (c.(pc := Spawning), d)
      else if ok then (c.(pc := Spawning, installed := true), At(chosen.value))
      else (c.(pc := Unlocking, outcome := Failed), d)
    case Spawning => (c.(pc := Writing, watcher := if c.plan.cancellable then Waiting else Absent), d)
  }

  /** The write and the read, which fail under a past deadline. */
  function Perform(c: Call, d: Deadline, ok: bool): (r: Call)
    requires c.pc == Writing || c.pc == Reading
    ensures r.pc == Stopping || (c.pc == Writing && r.pc == Reading)
    ensures r.resetFailed == c.resetFailed
    ensures r.plan == c.plan && r.installed == c.installed
    ensures match r.outcome
      case Replied => c.outcome == Replied || c.pc == Reading
      case Sent => c.outcome == Sent || (c.pc == Writing && !c.plan.wantReply)
      case _ => true
    ensures r.pc == Reading ==> c.plan.wantReply && r.outcome == c.outcome
  {
    if !ok || d == Past then c.(pc := Stopping, outcome := Failed)
    else if c.pc == Reading then c.(pc := Stopping, outcome := Replied)
    else if c.plan.wantReply then c.(pc := Reading)
    else c.(pc := Stopping, outcome := Sent)
  }

  /** The deferred calls: the stop, if there is a watcher, the reset, if a deadline was installed, and the unlock. */
  function Leave(c: Call, d: Deadline, ok: bool): (r: (Call, Deadline))
    requires !Entering(c.pc) && c.pc != Writing && c.pc != Reading
    ensures !Entering(r.0.pc) && r.0.pc != Writing && r.0.pc != Reading
    ensures r.0.pc == Returned <==> c.pc == Unlocking || c.pc == Returned
    ensures c.resetFailed ==> r.0.resetFailed
    ensures r.0.plan == c.plan && r.0.installed == c.installed && r.0.outcome == c.outcome
    ensures c.pc == Returned ==> r.0 == c
  {
    match c.pc
    case Stopping => (if c.plan.cancellable then c.(pc := Awaiting, stopped := true) else c.(pc := Resetting), d)
    case Awaiting => (c.(pc := Resetting), d)
    case Resetting =>
      if !c.installed then (c.(pc := Unlocking), d)
      else if ok then (c.(pc := Unlocking, cleared := true), Clear)
      else (c.(pc := Unlocking, resetFailed := true), d)
    case Unlocking => (c.(pc := Returned, after := d), d)
    case Returned => (c, d)
  }

  function Advance(c: Call, d: Deadline, ok: bool): (Call, Deadline) {
    if Entering(c.pc) then Enter(c, d, ok)
    else if c.pc == Writing || c.pc == Reading then (Perform(c, d, ok), d)
    else Leave(c, d, ok)
  }

  /** The watcher: a select, in which either ready case may be taken, and what follows it. */
  function Observe(c: Call, d: Deadline, done: bool, ok: bool): (r: (Call, Deadline))
    ensures r.0.resetFailed == c.resetFailed
    ensures r.0.plan == c.plan && r.0.pc == c.pc && r.0.installed == c.installed && r.0.outcome == c.outcome
  {
    match c.watcher
    case Waiting => (c.(watcher := if done then Firing else Leaving), d)
    case Firing => if ok then (c.(watcher := Leaving, fired := true), Past) else (c.(watcher := Leaving), d)
    case Leaving => (c.(watcher := Exited), d)
    case _ => (c, d)
  }

  predicate Live(w: Watcher) {
    w == Waiting || w == Firing || w == Leaving
  }

  predicate Enabled(s: State, a: Act) {
    && a.i < |s.calls|
    && var c := s.calls[a.i];
       match a
       case Main(_, _) =>
         && c.pc != Returned
         && (c.pc == Start ==> s.lock == None)
         && (c.pc == Awaiting ==> c.watcher == Exited)
       case Watch(_, done, _) => Live(c.watcher) && (c.watcher == Waiting ==> if done then c.cancelled else c.stopped)
       case Cancel(_) => c.plan.cancellable
  }

  /** What one step of a caller adds to the wire. */
  function OnWire(i: nat, pc: Pc): seq<Event> {
    if pc == Writing then [Wrote(i)] else if pc == Reading then [Read(i)] else []
  }

  function Do(s: State, a: Act): State {
    if !Enabled(s, a) then s
    else
      var c := s.calls[a.i];
      match a
      case Main(i, ok) =>
        var (c', d) := Advance(c, s.deadline, ok);
        State(
          s.calls[i := c'],
          if c.pc == Start then Some(i) else if c.pc == Unlocking then None else s.lock,
          d,
          s.wire + OnWire(i, c.pc))
      case Watch(i, done, ok) =>
        var (c', d) := Observe(c, s.deadline, done, ok);
        s.(calls := s.calls[i := c'], deadline := d)
      case Cancel(i) => s.(calls := s.calls[i := c.(cancelled := true)])
  }

  /** The state after a run; an act that cannot happen does not. */
  function After(s: State, acts: seq<Act>): State {
    if acts == [] then s else Do(After(s, acts[..|acts| - 1]), acts[|acts| - 1])
  }

  predicate Initial(s: State) {
    && s.lock == None && s.wire == []
    && forall i :: 0 <= i < |s.calls| ==> s.calls[i] == NewCall(s.calls[i].plan)
  }

  // ----- The invariant -----

  predicate Active(c: Call) {
    c.pc != Start && c.pc != Returned
  }

  /** The deadline a call has brought the socket to. */
  function Reached(c: Call): Deadline {
    if c.cleared then Clear
    else if c.fired then Past
    else if c.installed && Chosen(c.plan).Some? then At(Chosen(c.plan).value)
    else c.before
  }

  predicate InIo(pc: Pc) {
    pc == Writing || pc == Reading || pc == Stopping || pc == Awaiting
  }

  predicate CallOk(c: Call) {
    && (c.pc == Start || c.pc == Locked || c.pc == Arming ==>
          c.watcher == Absent && !c.installed && !c.stopped && !c.cleared && !c.resetFailed)
    && (c.pc == Spawning ==> c.watcher == Absent && !c.stopped)
    && (Live(c.watcher) ==> InIo(c.pc))
    && (c.fired ==> c.cancelled && (c.watcher == Leaving || c.watcher == Exited))
    && (c.watcher == Firing ==> c.cancelled)
    && (c.watcher != Absent ==> c.plan.cancellable)
    && (InIo(c.pc) && c.plan.cancellable ==> c.watcher != Absent)
    && (c.pc == Awaiting ==> c.stopped && c.plan.cancellable)
    && (c.installed ==> Chosen(c.plan).Some?)
    && (c.cleared ==> c.installed && (c.pc == Unlocking || c.pc == Returned))
    && (c.installed && (c.pc == Unlocking || c.pc == Returned) ==> c.cleared || c.resetFailed)
    && (c.pc == Start || c.pc == Locked || c.pc == Arming || c.pc == Spawning || c.pc == Writing || c.pc == Reading ==>
          c.outcome == Pending)
    && (c.before == Past && !c.installed ==> c.outcome != Sent && c.outcome != Replied && c.pc != Reading)
    && (c.pc == Returned ==> c.outcome != Pending && c.after == Reached(c))
    && (c.pc == Stopping || c.pc == Awaiting || c.pc == Resetting || c.pc == Unlocking ==> c.outcome != Pending)
  }

  /** Whether the wire holds whole exchanges, the last of them perhaps still without its reply. */
  predicate Paired(wire: seq<Event>) {
    forall k :: 0 <= k < |wire| && wire[k].Read? ==> IsReplyAt(wire, k)
  }

  predicate IsReplyAt(wire: seq<Event>, k: nat)
    requires k < |wire| && wire[k].Read?
  {
    k > 0 && wire[k - 1] == Wrote(wire[k].caller)
  }

  predicate Inv(s: State) {
    && (forall i :: 0 <= i < |s.calls| ==> CallOk(s.calls[i]) && (Active(s.calls[i]) <==> s.lock == Some(i)))
    && (s.lock.Some? ==> s.lock.value < |s.calls| && s.deadline == Reached(s.calls[s.lock.value]))
    && Paired(s.wire)
    && (forall i :: 0 <= i < |s.calls| && s.calls[i].pc == Reading ==> s.wire != [] && s.wire[|s.wire| - 1] == Wrote(i))
  }

  lemma AdvanceOk(c: Call, d: Deadline, ok: bool)
    requires CallOk(c) && (c.pc == Awaiting ==> c.watcher == Exited) && (Active(c) ==> d == Reached(c))
    ensures var (c', d') := Advance(c, d, ok);
      CallOk(c') && (Active(c') ==> d' == Reached(c'))
  {
    hide Enter, Perform, Leave, CallOk, Reached;
    if Entering(c.pc) {
      EnterOk(c, d, ok);
    } else if c.pc == Writing || c.pc == Reading {
      PerformOk(c, d, ok);
    } else {
      LeaveOk(c, d, ok);
    }
  }

  lemma EnterOk(c: Call, d: Deadline, ok: bool)
    requires CallOk(c) && Entering(c.pc) && (Active(c) ==> d == Reached(c))
    ensures var (c', d') := Enter(c, d, ok);
      CallOk(c') && d' == Reached(c')
  {
  }

  lemma PerformOk(c: Call, d: Deadline, ok: bool)
    requires CallOk(c) && (c.pc == Writing || c.pc == Reading) && d == Reached(c)
    ensures var c' := Perform(c, d, ok);
      CallOk(c') && d == Reached(c')
  {
  }

  lemma LeaveOk(c: Call, d: Deadline, ok: bool)
    requires CallOk(c) && !Entering(c.pc) && c.pc != Writing && c.pc != Reading
    requires (c.pc == Awaiting ==> c.watcher == Exited) && (Active(c) ==> d == Reached(c))
    ensures var (c', d') := Leave(c, d, ok);
      CallOk(c') && (Active(c') ==> d' == Reached(c'))
  {
  }

  lemma ObserveOk(c: Call, d: Deadline, done: bool, ok: bool)
    requires CallOk(c) && Live(c.watcher) && d == Reached(c)
    requires c.watcher == Waiting ==> if done then c.cancelled else c.stopped
    ensures var (c', d') := Observe(c, d, done, ok);
      CallOk(c') && d' == Reached(c') && c'.pc == c.pc
  {
  }

  lemma DoKeeps(s: State, a: Act)
    requires Inv(s)
    ensures Inv(Do(s, a))
  {
    hide CallOk, Reached, Advance, Observe, Chosen;
    if Enabled(s, a) {
      var c := s.calls[a.i];
      match a
      case Main(i, ok) => MainKeeps(s, i, ok);
      case Watch(i, done, ok) => WatchKeeps(s, i, done, ok);
      case Cancel(i) => CancelKeeps(s, i);
    }
  }

  lemma MainKeeps(s: State, i: nat, ok: bool)
    requires Inv(s) && Enabled(s, Main(i, ok))
    ensures Inv(Do(s, Main(i, ok)))
  {
    hide CallOk, Reached, Chosen, Paired, Advance;
    var c := s.calls[i];
    var (c', d) := Advance(c, s.deadline, ok);
    AdvanceOk(c, s.deadline, ok);
    AdvanceMoves(c, s.deadline, ok);
    WireKeeps(s.wire, i, c.pc);
    var s' := Do(s, Main(i, ok));
    assert s' == State(s.calls[i := c'], s'.lock, d, s.wire + OnWire(i, c.pc));
  }

  lemma AdvanceMoves(c: Call, d: Deadline, ok: bool)
    requires c.pc != Returned
    ensures var c' := Advance(c, d, ok).0;
      && (Active(c') <==> c.pc != Unlocking)
      && (c'.pc == Reading ==> c.pc == Writing)
  {
    hide Enter, Perform, Leave;
  }

  lemma WireKeeps(wire: seq<Event>, i: nat, pc: Pc)
    requires Paired(wire) && (pc == Reading ==> wire != [] && wire[|wire| - 1] == Wrote(i))
    ensures Paired(wire + OnWire(i, pc))
  {
    var w := wire + OnWire(i, pc);
    forall k | 0 <= k < |w| && w[k].Read? ensures IsReplyAt(w, k) {
      if k < |wire| {
        assert IsReplyAt(wire, k);
      }
    }
  }

  lemma WatchKeeps(s: State, i: nat, done: bool, ok: bool)
    requires Inv(s) && Enabled(s, Watch(i, done, ok))
    ensures Inv(Do(s, Watch(i, done, ok)))
  {
    hide Reached, Chosen;
    assert Active(s.calls[i]);
    hide CallOk;
    var c := s.calls[i];
    ObserveOk(c, s.deadline, done, ok);
  }

  lemma CancelKeeps(s: State, i: nat)
    requires Inv(s) && Enabled(s, Cancel(i))
    ensures Inv(Do(s, Cancel(i)))
  {
  }

  lemma {:induction false} InvHolds(s: State, acts: seq<Act>)
    requires Initial(s)
    ensures Inv(After(s, acts))
  {
    hide Do, CallOk;
    if acts != [] {
      InvHolds(s, acts[..|acts| - 1]);
      DoKeeps(After(s, acts[..|acts| - 1]), acts[|acts| - 1]);
    } else {
      NewCallsOk(s);
    }
  }

  lemma NewCallsOk(s: State)
    requires Initial(s)
    ensures Inv(s)
  {
    forall i | 0 <= i < |s.calls| ensures CallOk(s.calls[i]) && !Active(s.calls[i]) {
      assert s.calls[i] == NewCall(s.calls[i].plan);
    }
  }

  // ----- What holds of every run -----

  /**
   * The deadline an exchange leaves behind. One that installed a deadline
   * leaves none, unless the socket refused the reset; one that did not leaves
   * the deadline it found, or a past one if its watcher fired, which it does
   * only after a cancellation.
   */
  lemma DeadlineLeftBehind(s: State, acts: seq<Act>, i: nat)
    requires Initial(s) && i < |After(s, acts).calls| && After(s, acts).calls[i].pc == Returned
    ensures var c := After(s, acts).calls[i];
      && (c.installed && !c.resetFailed ==> c.after == Clear)
      && (!c.installed ==> c.after == if c.fired then Past else c.before)
      && (c.fired ==> c.cancelled)
      && (c.installed ==> Chosen(c.plan).Some?)
  {
    hide Do, After;
    InvHolds(s, acts);
  }

  /** A watcher lives only while its own caller holds the lock: no watcher touches the deadline of another exchange. */
  lemma WatchersAreConfined(s: State, acts: seq<Act>, i: nat)
    requires Initial(s) && i < |After(s, acts).calls|
    ensures var t := After(s, acts); Live(t.calls[i].watcher) ==> t.lock == Some(i) && InIo(t.calls[i].pc)
  {
    hide Do, After;
    InvHolds(s, acts);
  }

  /** Requests and replies of different callers never interleave: every read follows the same caller's write. */
  lemma ExchangesAreWhole(s: State, acts: seq<Act>)
    requires Initial(s)
    ensures Paired(After(s, acts).wire)
  {
    hide Do, After;
    InvHolds(s, acts);
  }

  /** An exchange that finds a past deadline and installs none of its own cannot succeed. */
  lemma PastDeadlinePoisons(s: State, acts: seq<Act>, i: nat)
    requires Initial(s) && i < |After(s, acts).calls|
    ensures var c := After(s, acts).calls[i];
      c.before == Past && !c.installed ==> c.outcome != Sent && c.outcome != Replied
  {
    hide Do, After;
    InvHolds(s, acts);
  }

  // ----- What a call installs, sends and returns -----

  predicate Given(p: Plan) {
    p.timeout.Some? || p.ctxDeadline.Some?
  }

  /** The earliest of the instants a plan gives. */
  predicate Earliest(p: Plan, t: int) {
    && (p.timeout == Some(t) || p.ctxDeadline == Some(t))
    && (p.timeout.Some? ==> t <= p.timeout.value)
    && (p.ctxDeadline.Some? ==> t <= p.ctxDeadline.value)
  }

  lemma ChosenIsEarliest(p: Plan)
    ensures Chosen(p).Some? <==> Given(p)
    ensures Chosen(p).Some? ==> Earliest(p, Chosen(p).value)
  {
  }

  /** How far a call has come, by whether it has written and read. */
  predicate Told(c: Call, wrote: bool, read: bool) {
    Tells(c.plan, c.pc, c.installed, c.outcome, wrote, read)
  }

  predicate Tells(p: Plan, pc: Pc, installed: bool, outcome: Outcome, wrote: bool, read: bool) {
    && (read ==> wrote && p.wantReply)
    && (outcome == Replied ==> read)
    && (outcome == Sent ==> wrote && !p.wantReply)
    && match pc
       case Start => !wrote && !installed
       case Locked => !wrote && !installed
       case Arming => !wrote && !installed
       case Spawning => !wrote && (installed <==> Given(p))
       case Writing => !wrote && (installed <==> Given(p))
       case Reading => wrote && !read && p.wantReply && (installed <==> Given(p))
       case Unlocking => if wrote then installed <==> Given(p) else !installed && outcome == Failed
       case Returned => if wrote then installed <==> Given(p) else !installed && outcome == Failed
       case _ => wrote && (installed <==> Given(p))
  }

  ghost predicate AllTold(s: State) {
    forall i: nat :: i < |s.calls| ==> Told(s.calls[i], Wrote(i) in s.wire, Read(i) in s.wire)
  }

  lemma AdvanceTold(c: Call, d: Deadline, ok: bool, wrote: bool, read: bool)
    requires CallOk(c) && Told(c, wrote, read) && c.pc != Returned
    ensures Told(Advance(c, d, ok).0, wrote || c.pc == Writing, read || c.pc == Reading)
  {
    hide Enter, Perform, Leave, CallOk;
    if Entering(c.pc) {
      EnterTold(c, d, ok, wrote, read);
    } else if c.pc == Writing || c.pc == Reading {
      PerformTold(c, d, ok, wrote, read);
    } else {
      LeaveTold(c, d, ok, wrote, read);
    }
  }

  lemma EnterTold(c: Call, d: Deadline, ok: bool, wrote: bool, read: bool)
    requires CallOk(c) && Told(c, wrote, read) && Entering(c.pc)
    ensures Told(Enter(c, d, ok).0, wrote, read)
  {
    hide Chosen;
    ChosenIsEarliest(c.plan);
  }

  lemma PerformTold(c: Call, d: Deadline, ok: bool, wrote: bool, read: bool)
    requires CallOk(c) && Told(c, wrote, read) && (c.pc == Writing || c.pc == Reading)
    ensures Told(Perform(c, d, ok), true, read || c.pc == Reading)
  {
    hide Perform, Given;
  }

  lemma LeaveTold(c: Call, d: Deadline, ok: bool, wrote: bool, read: bool)
    requires Told(c, wrote, read) && !Entering(c.pc) && c.pc != Writing && c.pc != Reading
    ensures Told(Leave(c, d, ok).0, wrote, read)
  {
    hide Leave, Given;
  }

  lemma ObserveTold(c: Call, d: Deadline, done: bool, ok: bool, wrote: bool, read: bool)
    requires Told(c, wrote, read)
    ensures Told(Observe(c, d, done, ok).0, wrote, read)
  {
    hide Tells, Observe;
  }

  lemma CancelTold(c: Call, wrote: bool, read: bool)
    requires Told(c, wrote, read)
    ensures Told(c.(cancelled := true), wrote, read)
  {
    hide Tells;
  }

  lemma OnWireTells(wire: seq<Event>, i: nat, pc: Pc, j: nat)
    ensures Wrote(j) in wire + OnWire(i, pc) <==> Wrote(j) in wire || (j == i && pc == Writing)
    ensures Read(j) in wire + OnWire(i, pc) <==> Read(j) in wire || (j == i && pc == Reading)
  {
  }

  lemma DoTold(s: State, a: Act)
    requires Inv(s) && AllTold(s)
    ensures AllTold(Do(s, a))
  {
    hide CallOk, Told, Advance, Observe, OnWire;
    if Enabled(s, a) {
      var c, s' := s.calls[a.i], Do(s, a);
      var wrote, read := Wrote(a.i) in s.wire, Read(a.i) in s.wire;
      forall j: nat | j < |s'.calls| ensures Told(s'.calls[j], Wrote(j) in s'.wire, Read(j) in s'.wire) {
        OnWireTells(s.wire, a.i, c.pc, j);
        if j == a.i {
          match a
          case Main(i, ok) => {
            AdvanceTold(c, s.deadline, ok, wrote, read);
            assert s'.calls[i] == Advance(c, s.deadline, ok).0;
          }
          case Watch(i, done, ok) => {
            ObserveTold(c, s.deadline, done, ok, wrote, read);
            assert s'.calls[i] == Observe(c, s.deadline, done, ok).0;
          }
          case Cancel(i) => {
            CancelTold(c, wrote, read);
            assert s'.calls[i] == c.(cancelled := true);
          }
        } else {
          assert s'.calls[j] == s.calls[j];
        }
      }
    }
  }

  lemma {:induction false} AllToldHolds(s: State, acts: seq<Act>)
    requires Initial(s)
    ensures AllTold(After(s, acts))
  {
    hide Do, Inv, Told, AllTold;
    if acts != [] {
      var before := acts[..|acts| - 1];
      InvHolds(s, before);
      AllToldHolds(s, before);
      DoTold(After(s, before), acts[|acts| - 1]);
    } else {
      NewCallsTold(s);
    }
  }

  lemma NewCallsTold(s: State)
    requires Initial(s)
    ensures AllTold(s)
  {
    forall i: nat | i < |s.calls| ensures Told(s.calls[i], false, false) {
      assert s.calls[i] == NewCall(s.calls[i].plan);
    }
  }

  /**
   * Which deadline. A call that reads or writes under a deadline it installed,
   * its watcher not having fired, has the earliest of the instants its plan
   * gives on the socket; and a call that has written installed one exactly if
   * its plan gives one, and a call that returns without writing none.
   */
  lemma DeadlineInForce(s: State, acts: seq<Act>, i: nat)
    requires Initial(s) && i < |After(s, acts).calls|
    ensures var t := After(s, acts);
      var c := t.calls[i];
      && ((c.pc == Writing || c.pc == Reading) && c.installed && !c.fired ==>
            t.deadline.At? && Earliest(c.plan, t.deadline.time))
      && (c.pc == Writing || c.pc == Reading || Wrote(i) in t.wire ==> (c.installed <==> Given(c.plan)))
      && (c.pc == Returned && Wrote(i) !in t.wire ==> !c.installed)
  {
    hide Do, After, Given, Earliest;
    InvHolds(s, acts);
    AllToldHolds(s, acts);
    ChosenIsEarliest(After(s, acts).calls[i].plan);
  }

  /** What a call returns tells what it did: a reply was read, a request was written, or something failed. */
  lemma OutcomesTell(s: State, acts: seq<Act>, i: nat)
    requires Initial(s) && i < |After(s, acts).calls| && After(s, acts).calls[i].pc == Returned
    ensures var t := After(s, acts);
      match t.calls[i].outcome
      case Replied => Wrote(i) in t.wire && Read(i) in t.wire && t.calls[i].plan.wantReply
      case Sent => Wrote(i) in t.wire && Read(i) !in t.wire && !t.calls[i].plan.wantReply
      case Failed => true
      case Pending => false
  {
    hide Do, After, Given;
    InvHolds(s, acts);
    AllToldHolds(s, acts);
  }

  /** A call cancelled before it had looked at its context, and what comes of it. */
  predicate Doomed(s: State, i: nat) {
    && i < |s.calls| && Wrote(i) !in s.wire && s.calls[i].cancelled
    && var c := s.calls[i];
       c.pc == Start || c.pc == Locked || ((c.pc == Unlocking || c.pc == Returned) && c.outcome == Failed)
  }

  lemma DoomedStays(s: State, a: Act, i: nat)
    requires Doomed(s, i)
    ensures Doomed(Do(s, a), i)
  {
    hide OnWire, Chosen;
    if Enabled(s, a) {
      OnWireTells(s.wire, a.i, s.calls[a.i].pc, i);
      if a.i != i {
        assert Do(s, a).calls[i] == s.calls[i];
      } else if a.Main? {
        DoomedAdvances(s.calls[i], s.deadline, a.ok);
        assert Do(s, a).calls[i] == Advance(s.calls[i], s.deadline, a.ok).0;
      }
    }
  }

  lemma DoomedAdvances(c: Call, d: Deadline, ok: bool)
    requires c.cancelled && c.pc != Returned
    requires c.pc == Start || c.pc == Locked || (c.pc == Unlocking && c.outcome == Failed)
    ensures var c' := Advance(c, d, ok).0;
      c'.cancelled && (c'.pc == Locked || ((c'.pc == Unlocking || c'.pc == Returned) && c'.outcome == Failed))
  {
  }

  /** A context that is over before the call has looked at it keeps the call from writing anything, for ever. */
  lemma {:induction false} CancelledEarlyWritesNothing(s: State, acts: seq<Act>, more: seq<Act>, i: nat)
    requires Doomed(After(s, acts), i)
    ensures Doomed(After(After(s, acts), more), i)
  {
    hide Do, Doomed;
    if more != [] {
      CancelledEarlyWritesNothing(s, acts, more[..|more| - 1], i);
      DoomedStays(After(After(s, acts), more[..|more| - 1]), more[|more| - 1], i);
    }
  }

  // ----- From one exchange to the next -----

  /** A call with a deadline of its own that found none on the socket, and whose watcher came after that deadline. */
  predicate ClearOk(c: Call) {
    Chosen(c.plan).Some? && c.before == Clear && (c.watcher != Absent || c.pc == Spawning ==> c.installed)
  }

  ghost predicate AllClear(s: State) {
    && (forall i :: 0 <= i < |s.calls| ==> ClearOk(s.calls[i]))
    && (s.lock == None ==> s.deadline == Clear)
  }

  ghost predicate EveryResetWorked(s: State) {
    forall i :: 0 <= i < |s.calls| ==> !s.calls[i].resetFailed
  }

  lemma AdvanceClear(c: Call, d: Deadline, ok: bool)
    requires CallOk(c) && ClearOk(c) && (c.pc == Start ==> d == Clear) && (Active(c) ==> d == Reached(c))
    ensures var (c', d') := Advance(c, d, ok);
      && ClearOk(c') && (c.resetFailed ==> c'.resetFailed)
      && (c.pc == Unlocking && !c'.resetFailed ==> d' == Clear)
  {
    hide Enter, Perform, Leave, Reached;
    if Entering(c.pc) {
      EnterClear(c, d, ok);
    } else if c.pc == Writing || c.pc == Reading {
      PerformClear(c, d, ok);
    } else {
      LeaveClear(c, d, ok);
    }
  }

  lemma EnterClear(c: Call, d: Deadline, ok: bool)
    requires CallOk(c) && ClearOk(c) && Entering(c.pc) && (c.pc == Start ==> d == Clear)
    ensures ClearOk(Enter(c, d, ok).0) && Enter(c, d, ok).0.resetFailed == c.resetFailed
  {
    hide Chosen;
  }

  lemma PerformClear(c: Call, d: Deadline, ok: bool)
    requires ClearOk(c) && (c.pc == Writing || c.pc == Reading)
    ensures ClearOk(Perform(c, d, ok)) && Perform(c, d, ok).resetFailed == c.resetFailed
  {
    hide Chosen;
  }

  lemma LeaveClear(c: Call, d: Deadline, ok: bool)
    requires CallOk(c) && ClearOk(c) && !Entering(c.pc) && c.pc != Writing && c.pc != Reading
    requires Active(c) ==> d == Reached(c)
    ensures var (c', d') := Leave(c, d, ok);
      && ClearOk(c') && (c.resetFailed ==> c'.resetFailed)
      && (c.pc == Unlocking && !c'.resetFailed ==> d' == Clear)
  {
    hide Chosen;
  }

  lemma ObserveClear(c: Call, d: Deadline, done: bool, ok: bool)
    requires ClearOk(c)
    ensures var (c', d') := Observe(c, d, done, ok); ClearOk(c') && c'.resetFailed == c.resetFailed
  {
    hide Chosen;
  }

  lemma DoClear(s: State, a: Act)
    requires Inv(s) && AllClear(s) && EveryResetWorked(Do(s, a))
    ensures AllClear(Do(s, a)) && EveryResetWorked(s)
  {
    hide CallOk, ClearOk, Reached, Advance, Observe, Paired, Chosen;
    if Enabled(s, a) {
      var c := s.calls[a.i];
      var s' := Do(s, a);
      assert forall j :: 0 <= j < |s.calls| && j != a.i ==> s'.calls[j] == s.calls[j];
      match a
      case Main(i, ok) => {
        AdvanceClear(c, s.deadline, ok);
        assert s'.calls[i] == Advance(c, s.deadline, ok).0;
      }
      case Watch(i, done, ok) => {
        ObserveClear(c, s.deadline, done, ok);
        LiveIsActive(c);
        assert s'.calls[i] == Observe(c, s.deadline, done, ok).0;
      }
      case Cancel(i) => {
        CancelClear(c);
        assert s'.calls[i] == c.(cancelled := true);
      }
    }
  }

  lemma LiveIsActive(c: Call)
    requires CallOk(c) && Live(c.watcher)
    ensures Active(c)
  {
  }

  lemma CancelClear(c: Call)
    ensures ClearOk(c.(cancelled := true)) == ClearOk(c)
  {
  }

  lemma {:induction false} AllClearHolds(s: State, acts: seq<Act>)
    requires Initial(s) && s.deadline == Clear && EveryResetWorked(After(s, acts))
    requires forall i :: 0 <= i < |s.calls| ==> Chosen(s.calls[i].plan).Some?
    ensures AllClear(After(s, acts))
  {
    hide Do, Inv, Chosen, EveryResetWorked;
    if acts != [] {
      var before := acts[..|acts| - 1];
      InvHolds(s, before);
      ResetsWorkedBefore(After(s, before), acts[|acts| - 1]);
      AllClearHolds(s, before);
      DoClear(After(s, before), acts[|acts| - 1]);
    }
  }

  lemma FailureIsRemembered(s: State, a: Act)
    requires Enabled(s, a)
    ensures |Do(s, a).calls| == |s.calls| && (s.calls[a.i].resetFailed ==> Do(s, a).calls[a.i].resetFailed)
  {
    hide Enter, Perform, Leave, Observe;
    var c, s' := s.calls[a.i], Do(s, a);
    match a
    case Main(i, ok) => assert s'.calls[i] == Advance(c, s.deadline, ok).0;
    case Watch(i, done, ok) => assert s'.calls[i] == Observe(c, s.deadline, done, ok).0;
    case Cancel(i) => assert s'.calls[i] == c.(cancelled := true);
  }

  lemma ResetsWorkedBefore(s: State, a: Act)
    requires EveryResetWorked(Do(s, a))
    ensures EveryResetWorked(s)
  {
    hide Enter, Perform, Leave, Observe;
    if Enabled(s, a) {
      var c, s' := s.calls[a.i], Do(s, a);
      FailureIsRemembered(s, a);
      forall j | 0 <= j < |s.calls| ensures !s.calls[j].resetFailed {
        if j != a.i {
          assert s'.calls[j] == s.calls[j];
        }
      }
    }
  }

  /**
   * If every exchange has a deadline and no reset fails, whatever the
   * cancellations, every exchange finds the socket without a deadline, and
   * between exchanges there is none.
   */
  lemma EveryoneFindsItClear(s: State, acts: seq<Act>, i: nat)
    requires Initial(s) && s.deadline == Clear && EveryResetWorked(After(s, acts)) && i < |After(s, acts).calls|
    requires forall j :: 0 <= j < |s.calls| ==> Chosen(s.calls[j].plan).Some?
    ensures var t := After(s, acts); t.calls[i].before == Clear && (t.lock == None ==> t.deadline == Clear)
  {
    hide Do, After, Chosen;
    AllClearHolds(s, acts);
  }

  // ----- Progress -----

  function PcRank(pc: Pc): nat {
    match pc
    case Start => 10
    case Locked => 9
    case Arming => 8
    case Spawning => 7
    case Writing => 6
    case Reading => 5
    case Stopping => 4
    case Awaiting => 3
    case Resetting => 2
    case Unlocking => 1
    case Returned => 0
  }

  function WatcherRank(w: Watcher): nat {
    match w
    case Waiting => 3
    case Firing => 2
    case Leaving => 1
    case _ => 0
  }

  /** An upper bound on the steps a call and its watcher have left. */
  function Rank(c: Call): nat {
    4 * PcRank(c.pc) + WatcherRank(c.watcher)
  }

  /** Every step that happens brings its own call closer to its return, and no other call further from it. */
  lemma StepsDescend(s: State, a: Act, j: nat)
    requires Inv(s) && Enabled(s, a) && j < |s.calls|
    ensures |Do(s, a).calls| == |s.calls|
    ensures var c, c' := s.calls[j], Do(s, a).calls[j];
      if a.Cancel? || a.i != j then Rank(c') == Rank(c) else Rank(c') < Rank(c)
  {
    hide CallOk, Advance, Observe, Paired, Reached, Chosen;
    var c := s.calls[a.i];
    match a
    case Main(i, ok) => {
      SpawnsTheFirst(c);
      AdvanceDescends(c, s.deadline, ok);
    }
    case Watch(i, done, ok) => ObserveDescends(c, s.deadline, done, ok);
    case Cancel(i) =>
  }

  lemma SpawnsTheFirst(c: Call)
    requires CallOk(c)
    ensures c.pc == Spawning ==> c.watcher == Absent
  {
  }

  lemma AdvanceDescends(c: Call, d: Deadline, ok: bool)
    requires c.pc != Returned && (c.pc == Spawning ==> c.watcher == Absent)
    ensures Rank(Advance(c, d, ok).0) < Rank(c)
  {
    hide Enter, Perform, Leave, Rank;
    if Entering(c.pc) {
      EnterDescends(c, d, ok);
    } else if c.pc == Writing || c.pc == Reading {
      PerformDescends(c, d, ok);
    } else {
      LeaveDescends(c, d, ok);
    }
  }

  lemma EnterDescends(c: Call, d: Deadline, ok: bool)
    requires Entering(c.pc) && (c.pc == Spawning ==> c.watcher == Absent)
    ensures Rank(Enter(c, d, ok).0) < Rank(c)
  {
    hide Enter, PcRank, WatcherRank;
    EnterRises(c, d, ok);
    SpawnRank();
  }

  lemma SpawnRank()
    ensures PcRank(Spawning) == 7 && PcRank(Writing) == 6
    ensures WatcherRank(Absent) == 0 && WatcherRank(Waiting) == 3
  {
  }

  lemma EnterRises(c: Call, d: Deadline, ok: bool)
    requires Entering(c.pc)
    ensures var c' := Enter(c, d, ok).0;
      if c.pc == Spawning then c'.pc == Writing && (c'.watcher == Waiting || c'.watcher == Absent)
      else PcRank(c'.pc) < PcRank(c.pc) && c'.watcher == c.watcher
  {
    hide Chosen;
  }

  lemma PerformDescends(c: Call, d: Deadline, ok: bool)
    requires c.pc == Writing || c.pc == Reading
    ensures Rank(Perform(c, d, ok)) < Rank(c)
  {
  }

  lemma LeaveDescends(c: Call, d: Deadline, ok: bool)
    requires !Entering(c.pc) && c.pc != Writing && c.pc != Reading && c.pc != Returned
    ensures Rank(Leave(c, d, ok).0) < Rank(c)
  {
  }

  lemma ObserveDescends(c: Call, d: Deadline, done: bool, ok: bool)
    requires Live(c.watcher)
    ensures Rank(Observe(c, d, done, ok).0) < Rank(c)
  {
  }

  /**
   * No run gets stuck: whenever a call is under way, it or its watcher can
   * take a step, so a caller never waits for ever for its watcher's exit.
   */
  lemma NeverStuck(s: State, acts: seq<Act>, i: nat)
    requires Initial(s) && i < |After(s, acts).calls| && After(s, acts).calls[i].pc != Returned
    ensures var t := After(s, acts);
      exists a :: Enabled(t, a) && !a.Cancel? && (t.lock == None || t.lock == Some(i) ==> a.i == i)
  {
    hide Do, After, Reached, Chosen;
    InvHolds(s, acts);
    var t := After(s, acts);
    var h := if t.lock.Some? then t.lock.value else i;
    var c := t.calls[h];
    if c.pc == Awaiting && c.watcher != Exited {
      assert CallOk(c);
      assert Enabled(t, Watch(h, false, true));
    } else {
      assert Enabled(t, Main(h, true));
    }
  }

  function TotalRank(calls: seq<Call>): nat {
    if calls == [] then 0 else Rank(calls[0]) + TotalRank(calls[1..])
  }

  /** How many of these acts happen, cancellations aside. */
  function Taken(s: State, acts: seq<Act>): nat {
    if acts == [] then 0
    else
      var a := acts[|acts| - 1];
      var before := acts[..|acts| - 1];
      Taken(s, before) + if Enabled(After(s, before), a) && !a.Cancel? then 1 else 0
  }

  lemma {:induction false} TotalAfterUpdate(calls: seq<Call>, i: nat, c: Call)
    requires i < |calls|
    ensures TotalRank(calls[i := c]) + Rank(calls[i]) == TotalRank(calls) + Rank(c)
  {
    hide Rank;
    if i > 0 {
      assert calls[i := c][1..] == calls[1..][i - 1 := c];
      TotalAfterUpdate(calls[1..], i - 1, c);
    } else {
      assert calls[i := c][1..] == calls[1..];
    }
  }

  lemma DoDescends(s: State, a: Act)
    requires Inv(s)
    ensures TotalRank(Do(s, a).calls) + (if Enabled(s, a) && !a.Cancel? then 1 else 0) <= TotalRank(s.calls)
  {
    hide Inv, Rank, TotalRank, Advance, Observe;
    if Enabled(s, a) {
      StepsDescend(s, a, a.i);
      TotalAfterUpdate(s.calls, a.i, Do(s, a).calls[a.i]);
    }
  }

  lemma {:induction false} TakenDescends(s: State, acts: seq<Act>)
    requires Initial(s)
    ensures Taken(s, acts) + TotalRank(After(s, acts).calls) <= TotalRank(s.calls)
  {
    hide Do, Enabled, Inv, TotalRank, Initial;
    if acts != [] {
      var before := acts[..|acts| - 1];
      TakenDescends(s, before);
      InvHolds(s, before);
      DoDescends(After(s, before), acts[|acts| - 1]);
    }
  }

  lemma {:induction false} NewTotal(calls: seq<Call>)
    requires forall i :: 0 <= i < |calls| ==> calls[i] == NewCall(calls[i].plan)
    ensures TotalRank(calls) == 40 * |calls|
  {
    if calls != [] {
      NewTotal(calls[1..]);
    }
  }

  /**
   * However they interleave, n exchanges and their watchers are done after at
   * most 40 n steps: with NeverStuck, each of them returns.
   */
  lemma RunsAreBounded(s: State, acts: seq<Act>)
    requires Initial(s)
    ensures Taken(s, acts) <= 40 * |s.calls|
  {
    hide Taken, After;
    TakenDescends(s, acts);
    NewTotal(s.calls);
  }

  // ----- A past deadline left behind by a success -----

  lemma Then(s: State, acts: seq<Act>, a: Act) returns (more: seq<Act>)
    ensures more == acts + [a] && After(s, more) == Do(After(s, acts), a)
  {
    more := acts + [a];
    assert more[..|more| - 1] == acts;
  }

  const CANCELLABLE := Plan(None, None, true, true)
  const PLAIN := Plan(None, None, false, true)
  const TWO_CALLS := State([NewCall(CANCELLABLE), NewCall(PLAIN)], None, Clear, [])

  /** The state once the first call has gone this far. */
  function FirstAt(c: Call, lock: Option<nat>, d: Deadline, wire: seq<Event>): State {
    State([c, NewCall(PLAIN)], lock, d, wire)
  }

  lemma FirstMoves(acts: seq<Act>, c: Call, lock: Option<nat>, d: Deadline, wire: seq<Event>) returns (more: seq<Act>)
    requires After(TWO_CALLS, acts) == FirstAt(c, lock, d, wire)
    requires c.pc != Start && c.pc != Unlocking && c.pc != Returned && (c.pc == Awaiting ==> c.watcher == Exited)
    ensures var (c', d') := Advance(c, d, true); After(TWO_CALLS, more) == FirstAt(c', lock, d', wire + OnWire(0, c.pc))
  {
    hide Advance;
    more := Then(TWO_CALLS, acts, Main(0, true));
  }

  /** The first call reaches its write. */
  lemma Spawned() returns (acts: seq<Act>)
    ensures After(TWO_CALLS, acts)
         == FirstAt(NewCall(CANCELLABLE).(pc := Writing, watcher := Waiting), Some(0), Clear, [])
  {
    var c := NewCall(CANCELLABLE);
    acts := Then(TWO_CALLS, [], Main(0, true));
    assert After(TWO_CALLS, acts) == FirstAt(c.(pc := Locked), Some(0), Clear, []);
    acts := FirstMoves(acts, c.(pc := Locked), Some(0), Clear, []);
    acts := FirstMoves(acts, c.(pc := Arming), Some(0), Clear, []);
    acts := FirstMoves(acts, c.(pc := Spawning), Some(0), Clear, []);
  }

  /** It gets its reply. */
  lemma Replying() returns (acts: seq<Act>)
    ensures After(TWO_CALLS, acts)
         == FirstAt(
              NewCall(CANCELLABLE).(pc := Stopping, watcher := Waiting, outcome := Replied),
              Some(0), Clear, [Wrote(0), Read(0)])
  {
    acts := Spawned();
    var c := NewCall(CANCELLABLE).(watcher := Waiting);
    acts := FirstMoves(acts, c.(pc := Writing), Some(0), Clear, []);
    acts := FirstMoves(acts, c.(pc := Reading), Some(0), Clear, [Wrote(0)]);
    assert [] + [Wrote(0)] + [Read(0)] == [Wrote(0), Read(0)];
  }

  /** Its watcher sees a cancellation before it is stopped. */
  lemma Cancelling() returns (acts: seq<Act>)
    ensures After(TWO_CALLS, acts) == FirstAt(
      NewCall(CANCELLABLE).(pc := Stopping, cancelled := true, watcher := Exited, fired := true, outcome := Replied),
      Some(0), Past, [Wrote(0), Read(0)])
  {
    acts := Replying();
    acts := Then(TWO_CALLS, acts, Cancel(0));
    acts := Then(TWO_CALLS, acts, Watch(0, true, true));
    acts := Then(TWO_CALLS, acts, Watch(0, true, true));
    acts := Then(TWO_CALLS, acts, Watch(0, true, true));
  }

  lemma Returning() returns (acts: seq<Act>)
    ensures After(TWO_CALLS, acts) == FirstAt(
      NewCall(CANCELLABLE).(pc := Returned, cancelled := true, watcher := Exited, stopped := true, fired := true,
                            outcome := Replied,
                            after := Past),
      None, Past, [Wrote(0), Read(0)])
  {
    acts := Cancelling();
    var c, wire := After(TWO_CALLS, acts).calls[0], [Wrote(0), Read(0)];
    acts := FirstMoves(acts, c, Some(0), Past, wire);
    acts := FirstMoves(acts, c.(pc := Awaiting, stopped := true), Some(0), Past, wire);
    acts := FirstMoves(acts, c.(pc := Resetting, stopped := true), Some(0), Past, wire);
    assert After(TWO_CALLS, acts) == FirstAt(c.(pc := Unlocking, stopped := true), Some(0), Past, wire);
    acts := Then(TWO_CALLS, acts, Main(0, true));
  }

  /** The second call finds the past deadline. */
  lemma Finding() returns (acts: seq<Act>)
    ensures var t := After(TWO_CALLS, acts);
      && |t.calls| == 2 && t.calls[0].pc == Returned && t.calls[0].outcome == Replied && t.calls[0].after == Past
      && t.calls[1] == NewCall(PLAIN).(pc := Writing, before := Past)
      && t.lock == Some(1) && t.deadline == Past
  {
    acts := Returning();
    var s := TWO_CALLS;
    acts := Then(s, acts, Main(1, true));
    acts := Then(s, acts, Main(1, true));
    acts := Then(s, acts, Main(1, true));
    acts := Then(s, acts, Main(1, true));
  }

  /**
   * Without a deadline of its own, an exchange can return its reply and still
   * leave a past deadline: its context is cancelled after the reply has been
   * read, and the watcher sees that. Any exchange that then starts without a
   * deadline can only fail, though no exchange has found fault with the socket.
   */
  lemma ASuccessCanPoison()
    ensures Initial(TWO_CALLS)
    ensures exists acts ::
      var t := After(TWO_CALLS, acts);
      && |t.calls| == 2 && t.calls[0].outcome == Replied && t.calls[0].after == Past
      && t.calls[1].pc == Returned && t.calls[1].outcome == Failed
  {
    var acts := Finding();
    var s, first := TWO_CALLS, After(TWO_CALLS, acts).calls[0];
    acts := Then(s, acts, Main(1, true));
    assert After(s, acts).calls == [first, NewCall(PLAIN).(pc := Stopping, before := Past, outcome := Failed)];
    acts := Then(s, acts, Main(1, true));
    acts := Then(s, acts, Main(1, true));
    acts := Then(s, acts, Main(1, true));
    assert After(s, acts).calls
        == [first, NewCall(PLAIN).(pc := Returned, before := Past, after := Past, outcome := Failed)];
  }
}
