/**
 * The far end of an as-database connection: requests, replies, an abstract
 * server job, and the byte pipe between it and the client.
 *
 * Everything the client cannot control is drawn from an oracle, one Fate for
 * each exchange: whether the request is written at all, torn, or whole; what
 * the server answers; whether the reply comes back intact. A statement about
 * all oracles is a statement about every behaviour of network and server.
 */
module Job {
  import opened Wrappers

  // Operation-result bitmap bits. The bits are disjoint, so the source's
  // bitwise "or" of them is a sum.
  const ORS_REPLY: nat := 0x8000_0000 + 0x4000_0000 + 0x2000_0000
  const ORS_DATA_FORMAT: nat := 0x0800_0000
  const ORS_RESULT_DATA: nat := 0x0400_0000
  const ORS_SQLCA: nat := 0x0200_0000
  const ORS_SERVER_ATTRIBUTES: nat := 0x0100_0000
  const ORS_PARAMETER_MARKER_FORMAT: nat := 0x0080_0000

  // Cursor close reuse indicators.
  const REUSE_NO: nat := 0xF0
  const REUSE_YES: nat := 0xF1

  datatype Op =
    | SetAttributes(autoCommit: bool, level: nat)
    | RetrieveAttributes
    | CreateRPB
    | DeleteRPB
    | ChangeDescriptor(markers: seq<nat>)
    | DeleteDescriptor
    | PrepareDescribe(kind: nat)
    | Execute(hasData: bool)
    | OpenDescribeFetch(blocking: nat, hasData: bool)
    | Fetch(blocking: nat)
    | CloseCursor(reuse: nat)
    | Commit
    | Rollback

  datatype Request = Request(op: Op, rpb: nat, ors: nat, pm: nat)

  /** One field of a fetched row, as its indicator and bytes turn out to be. */
  datatype Cell = Null | MappingError(indicator: int) | Undecodable | Value(v: int)
  type Row = seq<Cell>

  /** The result data of one reply: its rows and the column count it declares. */
  datatype Block = Block(rows: seq<Row>, columnCount: nat)

  /** A reply; `answers` is the number of the request it answers, which the client never looks at. */
  datatype Reply = Reply(
    answers: nat, errorClass: nat, returnCode: int,
    columns: seq<nat>, params: seq<nat>, rowCount: int, block: Option<Block>)

  const ERROR_CLASS_SQL: nat := 1
  const ERROR_CLASS_HOST_SERVER: nat := 2

  predicate Failed(r: Reply) {
    r.errorClass != 0 && r.returnCode < 0
  }

  predicate EndOfData(r: Reply) {
    || (r.errorClass == ERROR_CLASS_SQL && r.returnCode == 100)
    || (r.errorClass == ERROR_CLASS_HOST_SERVER && (r.returnCode == 700 || r.returnCode == 701))
  }

  predicate CursorClosedByServer(r: Reply) {
    r.errorClass == ERROR_CLASS_HOST_SERVER && r.returnCode == 700
  }

  predicate HasRows(r: Reply) {
    r.block.Some? && r.block.value.rows != []
  }

  /** What becomes of the bytes of a request. */
  datatype Sending =
    | Unsent                // context already over, or the deadline could not be set
    | Torn(arrived: bool)   // Write failed; the request may have arrived all the same
    | Whole

  /** What becomes of the bytes of a reply. */
  datatype Returning = Intact | Garbled | Lost

  datatype Fate = Fate(
    sending: Sending, returning: Returning,
    errorClass: nat, returnCode: int, rowCount: int,
    columns: seq<nat>, params: seq<nat>,
    result: seq<Row>,   // the result set, should this request open a cursor
    width: nat,         // the column count its block declares
    take: nat,          // how many rows go into the block
    blank: bool,        // whether a block without rows is left out altogether
    dirties: bool)      // whether the statement leaves uncommitted work

  /** The job's state. A cursor is the rows it has yet to hand out. */
  datatype Server = Server(
    autoCommit: bool, level: nat, pending: bool,
    rpbs: set<nat>, descriptors: set<nat>, cursors: map<nat, seq<Row>>)

  const FRESH_JOB := Server(false, 0, false, {}, {}, map[])

  function Min(a: nat, b: nat): nat {
    if a <= b then a else b
  }

  function Remainder(s: Server, id: nat): seq<Row> {
    if id in s.cursors then s.cursors[id] else []
  }

  /**
   * Hands out the next block of `rows`. The end of data is only signalled once
   * no rows are left, and return code 700 means the server closed the cursor.
   */
  function HandOut(s: Server, id: nat, rows: seq<Row>, f: Fate, base: Reply): (Server, Reply) {
    var k := Min(f.take, |rows|);
    var rest := rows[k..];
    var said := if rest != [] && EndOfData(base) then base.(errorClass := 0, returnCode := 0) else base;
    var block := if k == 0 && f.blank then None else Some(Block(rows[..k], f.width));
    var cursors := if CursorClosedByServer(said) then s.cursors - {id} else s.cursors[id := rest];
    (s.(cursors := cursors), said.(block := block))
  }

  /** Running a statement under commitment control may leave work pending, even when it fails. */
  function Dirtied(s: Server, q: Request, f: Fate): Server {
    if (q.op.Execute? || q.op.OpenDescribeFetch?) && s.level != 0 && f.dirties then s.(pending := true) else s
  }

  /**
   * The job serves request number `serial`. A rejected request (Failed reply)
   * changes nothing but what Dirtied says.
   */
  function Serve(s: Server, q: Request, f: Fate, serial: nat): (Server, Reply) {
    var base := Reply(serial, f.errorClass, f.returnCode, [], [], f.rowCount, None);
    var s := Dirtied(s, q, f);
    if Failed(base) then (s, base) else
    match q.op
    case SetAttributes(on, level) => (s.(autoCommit := on, level := level), base)
    case RetrieveAttributes => (s, base)
    case CreateRPB => (s.(rpbs := s.rpbs + {q.rpb}), base)
    case DeleteRPB => (s.(rpbs := s.rpbs - {q.rpb}), base)
    case ChangeDescriptor(_) => (s.(descriptors := s.descriptors + {q.pm}), base)
    case DeleteDescriptor => (s.(descriptors := s.descriptors - {q.pm}), base)
    case PrepareDescribe(_) => (s, base.(columns := f.columns, params := f.params))
    case Execute(_) => (s, base)
    case OpenDescribeFetch(_, _) => HandOut(s, q.rpb, f.result, f, base)
    case Fetch(_) => HandOut(s, q.rpb, Remainder(s, q.rpb), f, base)
    case CloseCursor(_) => (s.(cursors := s.cursors - {q.rpb}), base)
    case Commit => (s.(pending := false), base)
    case Rollback => (s.(pending := false), base)
  }

  /** One written request: whether the job carried it out, and the reply the client took for its answer. */
  datatype Entry = Entry(req: Request, accepted: bool, seen: Option<Reply>)

  datatype Net = Net(
    oracle: nat -> Fate, clock: nat, server: Server,
    owed: seq<Reply>,   // replies the job owes, in the order they will arrive
    log: seq<Entry>)    // every request of which a byte was written

  function Deliver(n: Net, q: Request, f: Fate): Net {
    var (s, r) := Serve(n.server, q, f, |n.log|);
    n.(server := s,
       owed := if q.ors != 0 then n.owed + [r] else n.owed,
       log := n.log + [Entry(q, !Failed(r), None)])
  }

  /** A reply as read off the wire, before it is parsed. */
  datatype Raw = Raw(reply: Reply, garbled: bool)

  function Noted(log: seq<Entry>, r: Reply): seq<Entry>
    requires log != []
  {
    log[..|log| - 1] + [log[|log| - 1].(seen := Some(r))]
  }

  /**
   * Connection.exchange: write `q`, then, if `want`, read whatever reply comes
   * first. Nothing compares that reply with `q`. Failure stands for any I/O
   * error, including waiting for a reply that never comes.
   */
  function Exchange(n: Net, q: Request, want: bool): (Net, Result<Option<Raw>, ()>) {
    var f := n.oracle(n.clock);
    var n := n.(clock := n.clock + 1);
    match f.sending
    case Unsent => (n, Failure(()))
    case Torn(arrived) =>
      (if arrived then Deliver(n, q, f) else n.(log := n.log + [Entry(q, false, None)]), Failure(()))
    case Whole =>
      var n := Deliver(n, q, f);
      if !want then (n, Success(None))
      else if f.returning.Lost? || n.owed == [] then (n, Failure(()))
      else
        var r := n.owed[0];
        var n := n.(owed := n.owed[1..]);
        if f.returning.Garbled? then (n, Success(Some(Raw(r, true))))
        else (n.(log := Noted(n.log, r)), Success(Some(Raw(r, false))))
  }
}
