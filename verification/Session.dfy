/**
 * What each operation of a connection, a statement and a cursor does, as
 * functions of the state before it. The classes of module Client are proved
 * against these functions; modules Discipline and Runs prove what they keep.
 */
module Session {
  import opened Arithmetic
  import opened Wrappers
  import opened Job

  const MAX_STATEMENTS: nat := 9999
  const ISOLATION_NONE: nat := 0
  const ISOLATION_READ_UNCOMMITTED: nat := 1
  const ISOLATION_SERIALIZABLE: nat := 4
  const MAX_SHORT_TEXT: nat := 0xFFFF

  datatype Misuse =
    | InTransaction | NotInTransaction | BadIsolation | TooManyStatements
    | TextNotEncodable | TextTooLong | ReturnsRows | ReturnsNoRows
    | ArgumentCount | BadArgument | ReplyExpected
    | WrongWidth | ColumnMismatch | ShortRow | NotMapped | NotDecodable
    | ReadOnlyUnsupported | LevelUnsupported | NamedArgument

  datatype Error =
    | ConnBroken
    | Closed
    | IO
    | Decode
    | Refused(errorClass: nat, returnCode: int)
    | Usage(what: Misuse)
    | EOF
    | Joined(left: Error, right: Error)
  {
    /** errors.Is */
    predicate Is(target: Error) {
      this == target || (Joined? && (left.Is(target) || right.Is(target)))
    }
  }

  /** errors.Join of two errors, either of which may be nil. */
  function Join(a: Option<Error>, b: Option<Error>): Option<Error> {
    match (a, b)
    case (None, _) => b
    case (_, None) => a
    case (Some(x), Some(y)) => Some(Joined(x, y))
  }

  function ServerError(r: Reply): Error {
    Refused(r.errorClass, r.returnCode)
  }

  datatype Options = Options(blockSize: nat, longText: bool)

  /** Which RPB handles are taken; 0 is the connection's own and never handed out. */
  type Handles = ids: seq<bool> | |ids| == MAX_STATEMENTS + 1 witness seq(MAX_STATEMENTS + 1, i => false)

  datatype ConnState = ConnState(
    net: Net, opts: Options, ids: Handles, inTx: bool, broken: bool, closed: bool)

  datatype RowsState = RowsState(
    block: Option<Block>, next: nat, eof: bool, cursorOpen: bool, closeStmt: bool)

  datatype StmtState = StmtState(
    id: nat, kind: nat, columns: seq<nat>, params: seq<nat>,
    descriptorSent: bool, rows: Option<RowsState>, closed: bool)

  /** What matters of a statement's text: its type, and whether and how long it encodes. */
  datatype Query = Query(kind: nat, encodable: bool, length: nat)

  datatype Arg = NullArg | GoodArg | BadArg

  // ----- Conn -----

  function Usable(c: ConnState): Option<Error> {
    if c.closed then Some(Closed) else if c.broken then Some(ConnBroken) else None
  }

  function Call(c: ConnState, q: Request): (ConnState, Result<Reply, Error>) {
    match Usable(c)
    case Some(e) => (c, Failure(e))
    case None =>
      var (n, raw) := Exchange(c.net, q, true);
      var c := c.(net := n);
      match raw
      case Failure(_) => (c.(broken := true), Failure(IO))
      case Success(None) => (c.(broken := true), Failure(IO))
      case Success(Some(r)) =>
        if r.garbled then (c.(broken := true), Failure(Decode)) else (c, Success(r.reply))
  }

  function Send(c: ConnState, q: Request): (ConnState, Option<Error>) {
    match Usable(c)
    case Some(e) => (c, Some(e))
    case None =>
      if q.ors != 0 then (c, Some(Usage(ReplyExpected)))
      else
        var (n, sent) := Exchange(c.net, q, false);
        if sent.Failure? then (c.(net := n, broken := true), Some(IO)) else (c.(net := n), None)
  }

  /** A call whose reply carries nothing but success or failure. */
  function Command(c: ConnState, q: Request): (ConnState, Option<Error>) {
    var (c, r) := Call(c, q);
    match r
    case Failure(e) => (c, Some(e))
    case Success(rep) => (c, if Failed(rep) then Some(ServerError(rep)) else None)
  }

  const PING_REQUEST := Request(RetrieveAttributes, 0, ORS_REPLY + ORS_SERVER_ATTRIBUTES, 0)

  function SetAttributesRequest(on: bool, level: nat): Request {
    Request(SetAttributes(on, if on then ISOLATION_NONE else level), 0, ORS_REPLY + ORS_SERVER_ATTRIBUTES, 0)
  }

  function EndRequest(commit: bool): Request {
    Request(if commit then Commit else Rollback, 0, ORS_REPLY + ORS_SQLCA, 0)
  }

  function Ping(c: ConnState): (ConnState, Option<Error>) {
    Command(c, PING_REQUEST)
  }

  function SetAutoCommit(c: ConnState, on: bool, level: nat): (ConnState, Option<Error>) {
    Command(c, SetAttributesRequest(on, level))
  }

  function CommitOrRollback(c: ConnState, commit: bool): (ConnState, Option<Error>) {
    Command(c, EndRequest(commit))
  }

  function Begin(c: ConnState, level: nat): (ConnState, Option<Error>) {
    if c.inTx then (c, Some(Usage(InTransaction)))
    else if level < ISOLATION_READ_UNCOMMITTED || level > ISOLATION_SERIALIZABLE then (c, Some(Usage(BadIsolation)))
    else
      var (c, e) := SetAutoCommit(c, false, level);
      if e.Some? then (c, e) else (c.(inTx := true), None)
  }

  function EndTransaction(c: ConnState, commit: bool): (ConnState, Option<Error>) {
    if !c.inTx then (c, Some(Usage(NotInTransaction)))
    else
      var (c, endErr) := CommitOrRollback(c, commit);
      if endErr.Some? && commit then
        var (c, rbErr) := CommitOrRollback(c, false);
        if rbErr.Some? then (c.(broken := true), Join(endErr, rbErr)) else Restore(c, endErr)
      else Restore(c, endErr)
  }

  function Restore(c: ConnState, endErr: Option<Error>): (ConnState, Option<Error>) {
    var (c, e) := SetAutoCommit(c, true, ISOLATION_NONE);
    if e.Some? then (c.(broken := true), Join(endErr, e)) else (c.(inTx := false), endErr)
  }

  function CloseConn(c: ConnState): ConnState {
    c.(closed := true)
  }

  /**
   * Connect, once logged on: a connection is handed out only if the initial
   * SET_ATTRIBUTES is accepted and its reply holds the attributes.
   */
  function Connect(oracle: nat -> Fate, opts: Options, attributesParse: bool): Result<ConnState, Error> {
    var c := ConnState(Net(oracle, 0, FRESH_JOB, [], []), opts,
                       seq(MAX_STATEMENTS + 1, i => false), false, false, false);
    var (c, e) := Command(c, SetAttributesRequest(true, ISOLATION_NONE));
    match e
    case Some(e) => Failure(e)
    case None => if attributesParse then Success(c) else Failure(Decode)
  }

  /** The first free handle from `i` up. */
  function FirstFree(ids: seq<bool>, i: nat): (r: Option<nat>)
    requires i <= |ids|
    ensures r.Some? ==> i <= r.value < |ids| && !ids[r.value] && forall j :: i <= j < r.value ==> ids[j]
    ensures r.None? ==> forall j :: i <= j < |ids| ==> ids[j]
    decreases |ids| - i
  {
    if i == |ids| then None else if !ids[i] then Some(i) else FirstFree(ids, i + 1)
  }

  function AllocID(c: ConnState): (ConnState, Option<nat>)
  {
    var i := FirstFree(c.ids, 1);
    if i.None? then (c, None) else (c.(ids := c.ids[i.value := true]), i)
  }

  function FreeID(c: ConnState, id: nat): ConnState {
    if id < |c.ids| then c.(ids := c.ids[id := false]) else c
  }

  // ----- Stmt -----

  function CreateRequest(id: nat): Request {
    Request(CreateRPB, id, 0, 0)
  }

  function PrepareRequest(id: nat, kind: nat): Request {
    Request(PrepareDescribe(kind), id, ORS_REPLY + ORS_DATA_FORMAT + ORS_SQLCA + ORS_PARAMETER_MARKER_FORMAT, 0)
  }

  function DescriptorRequest(st: StmtState): Request {
    Request(ChangeDescriptor(st.params), st.id, 0, st.id)
  }

  function Marker(st: StmtState): nat {
    if st.params != [] then st.id else 0
  }

  function ExecuteRequest(st: StmtState): Request {
    Request(Execute(st.params != []), st.id, ORS_REPLY + ORS_SQLCA, Marker(st))
  }

  function OpenRequest(st: StmtState, blockSize: nat): Request {
    Request(OpenDescribeFetch(BlockingFactor(blockSize, st.columns), st.params != []), st.id,
            ORS_REPLY + ORS_SQLCA + ORS_RESULT_DATA, Marker(st))
  }

  function FetchRequest(st: StmtState, blockSize: nat): Request {
    Request(Fetch(BlockingFactor(blockSize, st.columns)), st.id, ORS_REPLY + ORS_RESULT_DATA, 0)
  }

  function CloseRequest(id: nat, reuse: nat): Request {
    Request(CloseCursor(reuse), id, 0, 0)
  }

  function DropDescriptorRequest(id: nat): Request {
    Request(DeleteDescriptor, id, 0, id)
  }

  function DropRequest(id: nat): Request {
    Request(DeleteRPB, id, ORS_REPLY, 0)
  }

  function Sum(lengths: seq<nat>): nat {
    if lengths == [] then 0 else Sum(lengths[..|lengths| - 1]) + lengths[|lengths| - 1]
  }

  /** As many rows as fit the block size, but between 1 and 32767. */
  function BlockingFactor(blockSize: nat, columns: seq<nat>): (n: nat)
    ensures 1 <= n <= 32767
    ensures n == 1 || n * Sum(columns) <= blockSize
    ensures n == 32767 || Sum(columns) == 0 || blockSize < (n + 1) * Sum(columns)
  {
    var rowLen := Sum(columns);
    if rowLen == 0 then 1
    else
      var n := blockSize / rowLen;
      FitsInto(blockSize, rowLen);
      if n < 1 then 1 else if n > 32767 then
        MulMonotone(32767, n, rowLen);
        32767
      else n
  }

  function Prepare(c: ConnState, q: Query): (ConnState, Result<StmtState, Error>)
  {
    if Usable(c).Some? then (c, Failure(Usable(c).value))
    else
      var (c, id) := AllocID(c);
      if id.None? then (c, Failure(Usage(TooManyStatements)))
      else
        var st := StmtState(id.value, q.kind, [], [], false, None, false);
        var (c, sendErr) := Send(c, CreateRequest(st.id));
        if sendErr.Some? then (FreeID(c, st.id), Failure(sendErr.value))
        else if !q.encodable then (Release(c, st).0, Failure(Usage(TextNotEncodable)))
        else if !c.opts.longText && q.length > MAX_SHORT_TEXT then (Release(c, st).0, Failure(Usage(TextTooLong)))
        else
          var (c, r) := Call(c, PrepareRequest(st.id, st.kind));
          match r
          case Failure(e) => (Release(c, st).0, Failure(e))
          case Success(rep) =>
            if Failed(rep) then (Release(c, st).0, Failure(ServerError(rep)))
            else (c, Success(st.(columns := rep.columns, params := rep.params)))
  }

  /** Rows.close on the statement's open rows. */
  function CloseRows(c: ConnState, st: StmtState, reuse: nat): (ConnState, StmtState, Option<Error>) {
    if st.rows.None? then (c, st, None)
    else
      var r := st.rows.value;
      var st := st.(rows := None);
      if !r.cursorOpen || Usable(c).Some? then (c, st, None)
      else
        var (c, e) := Send(c, CloseRequest(st.id, reuse));
        (c, st, e)
  }

  function Release(c: ConnState, st: StmtState): (ConnState, StmtState, Option<Error>) {
    var st := st.(closed := true);
    if Usable(c).Some? then (FreeID(c, st.id), st, None)
    else
      var (c, st, closeErr) := CloseRows(c, st, REUSE_NO);
      if st.descriptorSent then
        var (c, e) := Send(c, DropDescriptorRequest(st.id));
        if e.Some? then (FreeID(c, st.id), st, Join(closeErr, e))
        else
          var (c, e) := Command(c, DropRequest(st.id));
          (FreeID(c, st.id), st, Join(closeErr, e))
      else
        var (c, e) := Command(c, DropRequest(st.id));
        (FreeID(c, st.id), st, Join(closeErr, e))
  }

  function CloseStmt(c: ConnState, st: StmtState): (ConnState, StmtState, Option<Error>) {
    if st.closed then (c, st, None) else Release(c, st)
  }

  function StmtUsable(c: ConnState, st: StmtState): Option<Error> {
    if st.closed then Some(Closed) else Usable(c)
  }

  function Bind(c: ConnState, st: StmtState, args: seq<Arg>): (ConnState, StmtState, Option<Error>) {
    if |args| != |st.params| then (c, st, Some(Usage(ArgumentCount)))
    else if st.params == [] then (c, st, None)
    else if BadArg in args then (c, st, Some(Usage(BadArgument)))
    else if st.descriptorSent then (c, st, None)
    else
      var (c, e) := Send(c, DescriptorRequest(st));
      if e.Some? then (c, st, e) else (c, st.(descriptorSent := true), None)
  }

  function Exec(c: ConnState, st: StmtState, args: seq<Arg>): (ConnState, StmtState, Result<int, Error>) {
    if StmtUsable(c, st).Some? then (c, st, Failure(StmtUsable(c, st).value))
    else if st.columns != [] then (c, st, Failure(Usage(ReturnsRows)))
    else
      var (c, st, e) := CloseRows(c, st, REUSE_YES);
      if e.Some? then (c, st, Failure(e.value))
      else
        var (c, st, e) := Bind(c, st, args);
        if e.Some? then (c, st, Failure(e.value))
        else
          var (c, r) := Call(c, ExecuteRequest(st));
          match r
          case Failure(e) => (c, st, Failure(e))
          case Success(rep) => (c, st, if Failed(rep) then Failure(ServerError(rep)) else Success(rep.rowCount))
  }

  /** Rows.absorbEnd */
  function AbsorbEnd(r: RowsState, rep: Reply): (s: RowsState)
    ensures (r.eof ==> s.eof) && (s.cursorOpen ==> r.cursorOpen)
    ensures s.block == r.block && s.next == r.next && s.closeStmt == r.closeStmt
  {
    r.(eof := r.eof || EndOfData(rep), cursorOpen := r.cursorOpen && !CursorClosedByServer(rep))
  }

  function Opened(rep: Reply): RowsState {
    AbsorbEnd(RowsState(rep.block, 0, false, true, false), rep)
  }

  function OpenRows(c: ConnState, st: StmtState, args: seq<Arg>): (ConnState, StmtState, Option<Error>) {
    if StmtUsable(c, st).Some? then (c, st, StmtUsable(c, st))
    else if st.columns == [] then (c, st, Some(Usage(ReturnsNoRows)))
    else
      var (c, st, e) := CloseRows(c, st, REUSE_YES);
      if e.Some? then (c, st, e)
      else
        var (c, st, e) := Bind(c, st, args);
        if e.Some? then (c, st, e)
        else
          var (c, r) := Call(c, OpenRequest(st, c.opts.blockSize));
          match r
          case Failure(e) => (c, st, Some(e))
          case Success(rep) =>
            if Failed(rep) then (c, st, Some(ServerError(rep)))
            else (c, st.(rows := Some(Opened(rep))), None)
  }

  // ----- Rows -----

  /** Whether the current block has a row left. */
  predicate HasNext(r: RowsState) {
    r.block.Some? && r.next < |r.block.value.rows|
  }

  /** The row after a FETCH: a block without rows that is not the last counts as the end. */
  function Fetched(r: RowsState, rep: Reply): RowsState {
    var r := AbsorbEnd(r.(block := rep.block, next := 0), rep);
    r.(eof := r.eof || !HasRows(rep))
  }

  function FetchBlock(c: ConnState, st: StmtState): (ConnState, StmtState, Option<Error>)
    requires st.rows.Some?
  {
    var (c, r) := Call(c, FetchRequest(st, c.opts.blockSize));
    match r
    case Failure(e) => (c, st, Some(e))
    case Success(rep) =>
      if Failed(rep) then (c, st, Some(ServerError(rep)))
      else (c, st.(rows := Some(Fetched(st.rows.value, rep))), None)
  }

  /** One cell of a row: nil for NULL, an error for a mapping or decoding failure. */
  function DecodeCell(cell: Cell): Result<Option<int>, Error> {
    match cell
    case Null => Success(None)
    case MappingError(_) => Failure(Usage(NotMapped))
    case Undecodable => Failure(Usage(NotDecodable))
    case Value(v) => Success(Some(v))
  }

  /** The first n columns of a row, or the first error among them. */
  function DecodeRow(row: Row, n: nat): (r: Result<seq<Option<int>>, Error>)
    ensures r.Success? ==> |r.value| == n <= |row|
  {
    if n == 0 then Success([])
    else
      match DecodeRow(row, n - 1)
      case Failure(e) => Failure(e)
      case Success(vs) =>
        if |row| < n then Failure(Usage(ShortRow))
        else
          match DecodeCell(row[n - 1])
          case Failure(e) => Failure(e)
          case Success(v) => Success(vs + [v])
  }

  /** What a cell stands for: no value for NULL, and a value for itself; the other cells stand for nothing. */
  predicate Reads(cell: Cell, v: Option<int>) {
    (cell.Null? && v == None) || (cell.Value? && v == Some(cell.v))
  }

  /** The values of the first n cells of a row. */
  ghost predicate RowReads(row: Row, n: nat, vs: seq<Option<int>>) {
    |vs| == n <= |row| && forall i :: 0 <= i < n ==> Reads(row[i], vs[i])
  }

  /** Why column i of a row does not decode. */
  predicate FailsAt(row: Row, i: nat, e: Error) {
    if i >= |row| then e == Usage(ShortRow)
    else (row[i].MappingError? && e == Usage(NotMapped)) || (row[i].Undecodable? && e == Usage(NotDecodable))
  }

  /** A row decodes to exactly what its cells stand for, or to the error of the first that stands for nothing. */
  lemma {:induction false} DecodesExactly(row: Row, n: nat)
    ensures forall vs :: DecodeRow(row, n) == Success(vs) <==> RowReads(row, n, vs)
    ensures match DecodeRow(row, n)
      case Success(vs) => RowReads(row, n, vs)
      case Failure(e) => exists i :: 0 <= i < n && FailsAt(row, i, e) && RowReads(row, i, Decoded(row, n))
  {
    if n > 0 {
      DecodesExactly(row, n - 1);
      var before := DecodeRow(row, n - 1);
      if before.Failure? {
        var i :| 0 <= i < n - 1 && FailsAt(row, i, before.error) && RowReads(row, i, Decoded(row, n - 1));
        forall vs ensures !RowReads(row, n, vs) {
          if |vs| == n <= |row| {
            assert !Reads(row[i], vs[i]);
          }
        }
      } else {
        forall vs | RowReads(row, n, vs) ensures DecodeRow(row, n) == Success(vs) {
          assert RowReads(row, n - 1, vs[..n - 1]);
          assert vs == vs[..n - 1] + [vs[n - 1]];
        }
        if DecodeRow(row, n).Failure? {
          assert FailsAt(row, n - 1, DecodeRow(row, n).error);
        }
      }
    }
  }

  /** Decoding the next row of the current block into `width` destinations. */
  function TakeRow(st: StmtState, width: nat): (StmtState, Result<seq<Option<int>>, Error>)
    requires st.rows.Some? && HasNext(st.rows.value)
  {
    var r := st.rows.value;
    if width != |st.columns| then (st, Failure(Usage(WrongWidth)))
    else if r.block.value.columnCount != |st.columns| then (st, Failure(Usage(ColumnMismatch)))
    else
      var v := DecodeRow(r.block.value.rows[r.next], |st.columns|);
      if v.Failure? then (st, v) else (st.(rows := Some(r.(next := r.next + 1))), v)
  }

  /** Rows.Next on the statement's open rows. */
  function Next(c: ConnState, st: StmtState, width: nat): (ConnState, StmtState, Result<seq<Option<int>>, Error>)
    requires st.rows.Some?
  {
    if HasNext(st.rows.value) then
      var (st, v) := TakeRow(st, width);
      (c, st, v)
    else if st.rows.value.eof then (c, st, Failure(EOF))
    else
      var (c, st, e) := FetchBlock(c, st);
      if e.Some? then (c, st, Failure(e.value))
      else if HasNext(st.rows.value) then
        var (st, v) := TakeRow(st, width);
        (c, st, v)
      else (c, st, Failure(EOF))
  }

  /**
   * The columns of a row that decode before the first that does not: what a
   * failing Next has put into its destination.
   */
  function Decoded(row: Row, n: nat): (vs: seq<Option<int>>)
    ensures |vs| <= n
    ensures DecodeRow(row, n).Success? ==> vs == DecodeRow(row, n).value
  {
    if n == 0 then []
    else
      match DecodeRow(row, n)
      case Success(vs) => vs
      case Failure(_) => Decoded(row, n - 1)
  }

  function Taken(st: StmtState, width: nat): (vs: seq<Option<int>>)
    requires st.rows.Some? && HasNext(st.rows.value)
    ensures |vs| <= width
  {
    var r := st.rows.value;
    if width != |st.columns| || r.block.value.columnCount != |st.columns| then []
    else Decoded(r.block.value.rows[r.next], |st.columns|)
  }

  /** What Next writes into a destination of this width. */
  function Written(c: ConnState, st: StmtState, width: nat): (vs: seq<Option<int>>)
    requires st.rows.Some?
    ensures |vs| <= width
    ensures Next(c, st, width).2.Success? ==> vs == Next(c, st, width).2.value
  {
    if HasNext(st.rows.value) then Taken(st, width)
    else if st.rows.value.eof then []
    else
      var (c, st, e) := FetchBlock(c, st);
      if e.None? && HasNext(st.rows.value) then Taken(st, width) else []
  }

  /** Rows.Close on the statement's open rows. */
  function CloseRowsPublic(c: ConnState, st: StmtState): (ConnState, StmtState, Option<Error>)
    requires st.rows.Some?
  {
    var closeStmt := st.rows.value.closeStmt;
    var (c, st, e) := CloseRows(c, st, REUSE_YES);
    if closeStmt then
      var (c, st, e') := CloseStmt(c, st);
      (c, st, Join(e, e'))
    else (c, st, e)
  }

  // ----- One-shot forms -----

  function ConnExec(c: ConnState, q: Query, args: seq<Arg>): (ConnState, Option<StmtState>, Result<int, Error>)
  {
    var (c, p) := Prepare(c, q);
    if p.Failure? then (c, None, Failure(p.error))
    else
      var (c, st, res) := Exec(c, p.value, args);
      var (c, st, e) := CloseStmt(c, st);
      var err := Join(if res.Failure? then Some(res.error) else None, e);
      (c, Some(st), if err.Some? then Failure(err.value) else res)
  }

  function ConnQuery(c: ConnState, q: Query, args: seq<Arg>): (ConnState, Option<StmtState>, Option<Error>)
  {
    var (c, p) := Prepare(c, q);
    if p.Failure? then (c, None, Some(p.error))
    else
      var (c, st, e) := OpenRows(c, p.value, args);
      if e.Some? then
        var (c, st, e') := CloseStmt(c, st);
        (c, Some(st), Join(e, e'))
      else (c, Some(st.(rows := Some(st.rows.value.(closeStmt := true)))), None)
  }
}
