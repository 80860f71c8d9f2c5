/**
 * The connection, its statements and their cursors as objects that update
 * their fields step by step. Every method is proved to do what the function
 * of the same operation in module Session says.
 */
module Client {
  import opened Wrappers
  import opened Job
  import S = Session

  /** The socket: an as400.Connection with the server job at its far end. */
  class Link {
    var net: Net

    constructor (oracle: nat -> Fate)
      ensures net == Net(oracle, 0, FRESH_JOB, [], [])
    {
      net := Net(oracle, 0, FRESH_JOB, [], []);
    }

    method Transmit(q: Request, want: bool) returns (r: Result<Option<Raw>, ()>)
      modifies this
      ensures (net, r) == Exchange(old(net), q, want)
    {
      var (n, raw) := Exchange(net, q, want);
      net, r := n, raw;
    }
  }

  class Conn {
    const link: Link
    const opts: S.Options
    const ids: array<bool>
    var inTx: bool
    var broken: bool
    var closed: bool

    ghost predicate Valid() {
      ids.Length == S.MAX_STATEMENTS + 1
    }

    ghost function State(): S.ConnState
      reads this, ids, link
      requires Valid()
    {
      S.ConnState(link.net, opts, ids[..], inTx, broken, closed)
    }

    constructor (link: Link, opts: S.Options)
      ensures Valid() && fresh(ids) && this.link == link
      ensures State() == S.ConnState(link.net, opts, seq(S.MAX_STATEMENTS + 1, i => false), false, false, false)
    {
      this.link, this.opts := link, opts;
      ids := new bool[S.MAX_STATEMENTS + 1](i => false);
      inTx, broken, closed := false, false, false;
    }

    function Usable(): (e: Option<S.Error>)
      reads this
      ensures e.None? <==> !closed && !broken
      ensures e.Some? ==> e.value == if closed then S.Closed else S.ConnBroken
    {
      if closed then Some(S.Closed) else if broken then Some(S.ConnBroken) else None
    }

    method Call(q: Request) returns (r: Result<Reply, S.Error>)
      requires Valid()
      modifies this`broken, link
      ensures (State(), r) == S.Call(old(State()), q)
    {
      var e := Usable();
      if e.Some? {
        return Failure(e.value);
      }
      var raw := link.Transmit(q, true);
      if raw.Failure? || raw.value.None? {
        broken := true;
        return Failure(S.IO);
      }
      if raw.value.value.garbled {
        broken := true;
        return Failure(S.Decode);
      }
      return Success(raw.value.value.reply);
    }

    method Send(q: Request) returns (e: Option<S.Error>)
      requires Valid()
      modifies this`broken, link
      ensures (State(), e) == S.Send(old(State()), q)
    {
      e := Usable();
      if e.Some? {
        return;
      }
      if q.ors != 0 {
        return Some(S.Usage(S.ReplyExpected));
      }
      var sent := link.Transmit(q, false);
      if sent.Failure? {
        broken := true;
        return Some(S.IO);
      }
    }

    /** A call whose reply carries nothing but success or failure. */
    method Command(q: Request) returns (e: Option<S.Error>)
      requires Valid()
      modifies this`broken, link
      ensures (State(), e) == S.Command(old(State()), q)
    {
      var r := Call(q);
      match r
      case Failure(err) => e := Some(err);
      case Success(rep) => e := if Failed(rep) then Some(S.ServerError(rep)) else None;
    }

    method Ping() returns (e: Option<S.Error>)
      requires Valid()
      modifies this`broken, link
      ensures (State(), e) == S.Ping(old(State()))
    {
      e := Command(S.PING_REQUEST);
    }

    method SetAutoCommit(on: bool, level: nat) returns (e: Option<S.Error>)
      requires Valid()
      modifies this`broken, link
      ensures (State(), e) == S.SetAutoCommit(old(State()), on, level)
    {
      e := Command(S.SetAttributesRequest(on, level));
    }

    method CommitOrRollback(commit: bool) returns (e: Option<S.Error>)
      requires Valid()
      modifies this`broken, link
      ensures (State(), e) == S.CommitOrRollback(old(State()), commit)
    {
      e := Command(S.EndRequest(commit));
    }

    method Begin(level: nat) returns (e: Option<S.Error>)
      requires Valid()
      modifies this`broken, this`inTx, link
      ensures (State(), e) == S.Begin(old(State()), level)
    {
      if inTx {
        return Some(S.Usage(S.InTransaction));
      }
      if level < S.ISOLATION_READ_UNCOMMITTED || level > S.ISOLATION_SERIALIZABLE {
        return Some(S.Usage(S.BadIsolation));
      }
      e := SetAutoCommit(false, level);
      if e.None? {
        inTx := true;
      }
    }

    method EndTransaction(commit: bool) returns (e: Option<S.Error>)
      requires Valid()
      modifies this`broken, this`inTx, link
      ensures (State(), e) == S.EndTransaction(old(State()), commit)
    {
      hide Exchange;
      if !inTx {
        return Some(S.Usage(S.NotInTransaction));
      }
      var endErr := CommitOrRollback(commit);
      if endErr.Some? && commit {
        var rbErr := CommitOrRollback(false);
        if rbErr.Some? {
          broken := true;
          return S.Join(endErr, rbErr);
        }
      }
      var err := SetAutoCommit(true, S.ISOLATION_NONE);
      if err.Some? {
        broken := true;
        return S.Join(endErr, err);
      }
      inTx := false;
      return endErr;
    }

    method Commit() returns (e: Option<S.Error>)
      requires Valid()
      modifies this`broken, this`inTx, link
      ensures (State(), e) == S.EndTransaction(old(State()), true)
    {
      e := EndTransaction(true);
    }

    method Rollback() returns (e: Option<S.Error>)
      requires Valid()
      modifies this`broken, this`inTx, link
      ensures (State(), e) == S.EndTransaction(old(State()), false)
    {
      e := EndTransaction(false);
    }

    /** `socketErr` is what closing the socket returns, if it comes to that. */
    method Close(socketErr: Option<S.Error>) returns (e: Option<S.Error>)
      requires Valid()
      modifies this`closed
      ensures State() == S.CloseConn(old(State()))
      ensures e == if old(closed) then None else socketErr
    {
      if closed {
        return None;
      }
      closed := true;
      return socketErr;
    }

    method AllocID() returns (id: Option<nat>)
      requires Valid()
      modifies ids
      ensures (State(), id) == S.AllocID(old(State()))
      ensures id.Some? ==> 1 <= id.value <= S.MAX_STATEMENTS
    {
      ghost var was := ids[..];
      for i := 1 to S.MAX_STATEMENTS + 1
        invariant ids[..] == was
        invariant S.FirstFree(was, 1) == S.FirstFree(was, i)
      {
        if !ids[i] {
          ids[i] := true;
          assert ids[..] == was[i := true];
          return Some(i);
        }
      }
      return None;
    }

    method FreeID(id: nat)
      requires Valid() && id <= S.MAX_STATEMENTS
      modifies ids
      ensures State() == S.FreeID(old(State()), id)
    {
      ghost var was := ids[..];
      ids[id] := false;
      assert ids[..] == was[id := false];
    }

    method Prepare(q: S.Query) returns (st: Stmt?, e: Option<S.Error>)
      requires Valid()
      modifies this`broken, ids, link
      ensures var (c', r) := S.Prepare(old(State()), q);
        && State() == c'
        && (r.Failure? ==> st == null && e == Some(r.error))
        && (r.Success? ==>
              && st != null && e.None? && fresh(st) && st.c == this
              && st.Valid() && st.State() == r.value && st.rows == null)
    {
      hide Exchange;
      st, e := null, Usable();
      if e.Some? {
        return;
      }
      var id := AllocID();
      if id.None? {
        return null, Some(S.Usage(S.TooManyStatements));
      }
      var s := new Stmt(this, id.value, q.kind);
      e := Send(S.CreateRequest(s.id));
      if e.Some? {
        FreeID(s.id);
        return;
      }
      if !q.encodable {
        var _ := s.Release();
        return null, Some(S.Usage(S.TextNotEncodable));
      }
      if !opts.longText && q.length > S.MAX_SHORT_TEXT {
        var _ := s.Release();
        return null, Some(S.Usage(S.TextTooLong));
      }
      var r := Call(S.PrepareRequest(s.id, s.kind));
      if r.Failure? {
        var _ := s.Release();
        return null, Some(r.error);
      }
      if Failed(r.value) {
        var _ := s.Release();
        return null, Some(S.ServerError(r.value));
      }
      s.columns, s.params := r.value.columns, r.value.params;
      return s, None;
    }

    method Exec(q: S.Query, args: seq<S.Arg>) returns (res: Result<int, S.Error>)
      requires Valid()
      modifies this`broken, ids, link
      ensures var (c', s', r) := S.ConnExec(old(State()), q, args);
        State() == c' && res == r
    {
      hide Exchange, S.Exec, S.CloseStmt, S.Release, S.Send, S.Call;
      var s, e := Prepare(q);
      if s == null {
        return Failure(e.value);
      }
      res := s.Exec(args);
      var closeErr := s.Close();
      var err := S.Join(if res.Failure? then Some(res.error) else None, closeErr);
      if err.Some? {
        res := Failure(err.value);
      }
    }

    method Query(q: S.Query, args: seq<S.Arg>) returns (rows: Rows?, e: Option<S.Error>)
      requires Valid()
      modifies this`broken, ids, link
      ensures var (c', s', r) := S.ConnQuery(old(State()), q, args);
        && State() == c' && e == r
        && (r.None? ==> rows != null && fresh(rows) && rows.Valid() && !rows.closed && Some(rows.st.State()) == s')
    {
      hide Exchange, S.OpenRows, S.CloseStmt, S.Release, S.Send, S.Call;
      rows := null;
      var s, err := Prepare(q);
      if s == null {
        return null, err;
      }
      rows, e := s.Query(args);
      if e.Some? {
        var closeErr := s.Close();
        return null, S.Join(e, closeErr);
      }
      rows.closeStmt := true;
    }
  }

  class Stmt {
    const c: Conn
    const id: nat
    const kind: nat
    var columns: seq<nat>
    var params: seq<nat>
    var descriptorSent: bool
    var rows: Rows?
    var closed: bool

    ghost predicate Valid()
      reads this, rows
    {
      c.Valid() && id <= S.MAX_STATEMENTS && (rows != null ==> rows.st == this && !rows.closed)
    }

    ghost function State(): S.StmtState
      reads this, rows
    {
      S.StmtState(id, kind, columns, params, descriptorSent, if rows == null then None else Some(rows.State()), closed)
    }

    constructor (c: Conn, id: nat, kind: nat)
      requires c.Valid() && id <= S.MAX_STATEMENTS
      ensures Valid() && this.c == c && State() == S.StmtState(id, kind, [], [], false, None, false)
      ensures rows == null
    {
      this.c, this.id, this.kind := c, id, kind;
      columns, params, descriptorSent, rows, closed := [], [], false, null, false;
    }

    method CloseRows(reuse: nat) returns (e: Option<S.Error>)
      requires Valid()
      modifies this`rows, rows, c`broken, c.link
      ensures Valid() && rows == null
      ensures (c.State(), State(), e) == S.CloseRows(old(c.State()), old(State()), reuse)
    {
      if rows == null {
        return None;
      }
      e := rows.CloseWith(reuse);
    }

    method Release() returns (e: Option<S.Error>)
      requires Valid()
      modifies this`rows, this`closed, rows, c`broken, c.link, c.ids
      ensures Valid()
      ensures (c.State(), State(), e) == S.Release(old(c.State()), old(State()))
      ensures rows == null || rows == old(rows)
    {
      hide Exchange, S.Send, S.Command;
      closed := true;
      if c.Usable().Some? {
        c.FreeID(id);
        return None;
      }
      var closeErr := CloseRows(REUSE_NO);
      var err: Option<S.Error>;
      if descriptorSent {
        err := c.Send(S.DropDescriptorRequest(id));
        if err.Some? {
          c.FreeID(id);
          return S.Join(closeErr, err);
        }
      }
      err := c.Command(S.DropRequest(id));
      c.FreeID(id);
      return S.Join(closeErr, err);
    }

    method Close() returns (e: Option<S.Error>)
      requires Valid()
      modifies this`rows, this`closed, rows, c`broken, c.link, c.ids
      ensures Valid()
      ensures (c.State(), State(), e) == S.CloseStmt(old(c.State()), old(State()))
      ensures rows == null || rows == old(rows)
    {
      if closed {
        return None;
      }
      e := Release();
    }

    function Usable(): (e: Option<S.Error>)
      reads this, c
      ensures e.None? <==> !closed && !c.closed && !c.broken
      ensures e.Some? ==> e.value == if closed || c.closed then S.Closed else S.ConnBroken
    {
      if closed then Some(S.Closed) else c.Usable()
    }

    method Bind(args: seq<S.Arg>) returns (e: Option<S.Error>)
      requires Valid()
      modifies this`descriptorSent, c`broken, c.link
      ensures Valid()
      ensures (c.State(), State(), e) == S.Bind(old(c.State()), old(State()), args)
    {
      if |args| != |params| {
        return Some(S.Usage(S.ArgumentCount));
      }
      if params == [] {
        return None;
      }
      for i := 0 to |args|
        invariant S.BadArg !in args[..i]
      {
        if args[i] == S.BadArg {
          return Some(S.Usage(S.BadArgument));
        }
      }
      assert args[..|args|] == args;
      if !descriptorSent {
        e := c.Send(S.DescriptorRequest(S.StmtState(id, kind, columns, params, descriptorSent, None, closed)));
        if e.Some? {
          return;
        }
        descriptorSent := true;
      }
      return None;
    }

    method Exec(args: seq<S.Arg>) returns (r: Result<int, S.Error>)
      requires Valid()
      modifies this`rows, this`descriptorSent, rows, c`broken, c.link
      ensures Valid() && (rows == null || rows == old(rows))
      ensures (c.State(), State(), r) == S.Exec(old(c.State()), old(State()), args)
    {
      hide Exchange, S.CloseRows, S.Bind, S.Call;
      var e := Usable();
      if e.Some? {
        return Failure(e.value);
      }
      if columns != [] {
        return Failure(S.Usage(S.ReturnsRows));
      }
      e := CloseRows(REUSE_YES);
      if e.Some? {
        return Failure(e.value);
      }
      e := Bind(args);
      if e.Some? {
        return Failure(e.value);
      }
      var marker := if params != [] then id else 0;
      var rep := c.Call(Request(Execute(params != []), id, ORS_REPLY + ORS_SQLCA, marker));
      if rep.Failure? {
        return Failure(rep.error);
      }
      if Failed(rep.value) {
        return Failure(S.ServerError(rep.value));
      }
      return Success(rep.value.rowCount);
    }

    method Query(args: seq<S.Arg>) returns (r: Rows?, e: Option<S.Error>)
      requires Valid()
      modifies this`rows, this`descriptorSent, rows, c`broken, c.link
      ensures Valid() && (e.None? ==> r != null && fresh(r) && r == rows && r.Valid())
      ensures e.Some? ==> r == null && (rows == null || rows == old(rows))
      ensures (c.State(), State(), e) == S.OpenRows(old(c.State()), old(State()), args)
    {
      hide Exchange, S.CloseRows, S.Bind, S.Call;
      r, e := null, Usable();
      if e.Some? {
        return;
      }
      if columns == [] {
        return null, Some(S.Usage(S.ReturnsNoRows));
      }
      e := CloseRows(REUSE_YES);
      if e.Some? {
        return;
      }
      e := Bind(args);
      if e.Some? {
        return;
      }
      var marker := if params != [] then id else 0;
      var open := OpenDescribeFetch(S.BlockingFactor(c.opts.blockSize, columns), params != []);
      var rep := c.Call(Request(open, id, ORS_REPLY + ORS_SQLCA + ORS_RESULT_DATA, marker));
      if rep.Failure? {
        return null, Some(rep.error);
      }
      if Failed(rep.value) {
        return null, Some(S.ServerError(rep.value));
      }
      r := new Rows(this, rep.value.block);
      r.AbsorbEnd(rep.value);
      rows := r;
      return r, None;
    }
  }

  class Rows {
    const st: Stmt
    var block: Option<Block>
    var next: nat
    var eof: bool
    var cursorOpen: bool
    var closed: bool
    var closeStmt: bool

    /** Rows are open exactly while their statement points at them. */
    ghost predicate Valid()
      reads this, st, st.rows
    {
      st.Valid() && (closed <==> st.rows != this)
    }

    ghost function State(): S.RowsState
      reads this
    {
      S.RowsState(block, next, eof, cursorOpen, closeStmt)
    }

    constructor (st: Stmt, block: Option<Block>)
      ensures this.st == st && !closed && State() == S.RowsState(block, 0, false, true, false)
    {
      this.st, this.block := st, block;
      next, eof, cursorOpen, closed, closeStmt := 0, false, true, false, false;
    }

    method AbsorbEnd(rep: Reply)
      modifies this`eof, this`cursorOpen
      ensures State() == S.AbsorbEnd(old(State()), rep)
    {
      if EndOfData(rep) {
        eof := true;
      }
      if CursorClosedByServer(rep) {
        cursorOpen := false;
      }
    }

    method CloseWith(reuse: nat) returns (e: Option<S.Error>)
      requires st.Valid() && st.rows == this
      modifies this, st`rows, st.c`broken, st.c.link
      ensures st.Valid() && closed && st.rows == null && closeStmt == old(closeStmt)
      ensures (st.c.State(), st.State(), e) == S.CloseRows(old(st.c.State()), old(st.State()), reuse)
    {
      closed := true;
      if st.rows == this {
        st.rows := null;
      }
      if !cursorOpen || st.c.Usable().Some? {
        return None;
      }
      cursorOpen := false;
      e := st.c.Send(S.CloseRequest(st.id, reuse));
    }

    method Close() returns (e: Option<S.Error>)
      requires Valid()
      modifies this, st`rows, st`closed, st.rows, st.c`broken, st.c.link, st.c.ids
      ensures Valid() && closed
      ensures old(closed) ==> e.None? && st.c.State() == old(st.c.State()) && st.State() == old(st.State())
      ensures !old(closed) ==> (st.c.State(), st.State(), e) == S.CloseRowsPublic(old(st.c.State()), old(st.State()))
    {
      hide Exchange, S.CloseRows, S.CloseStmt;
      if closed {
        return None;
      }
      e := CloseWith(REUSE_YES);
      if closeStmt {
        var closeErr := st.Close();
        e := S.Join(e, closeErr);
      }
    }

    method FetchBlock() returns (e: Option<S.Error>)
      requires Valid() && !closed
      modifies this`block, this`next, this`eof, this`cursorOpen, st.c`broken, st.c.link
      ensures Valid()
      ensures (st.c.State(), st.State(), e) == S.FetchBlock(old(st.c.State()), old(st.State()))
    {
      hide Exchange, S.Call;
      var fetch := Fetch(S.BlockingFactor(st.c.opts.blockSize, st.columns));
      var r := st.c.Call(Request(fetch, st.id, ORS_REPLY + ORS_RESULT_DATA, 0));
      if r.Failure? {
        return Some(r.error);
      }
      if Failed(r.value) {
        return Some(S.ServerError(r.value));
      }
      block, next := r.value.block, 0;
      AbsorbEnd(r.value);
      if !eof && (block.None? || |block.value.rows| == 0) {
        eof := true;
      }
      return None;
    }

    /** The next row, into dest; a row that does not decode leaves the columns before the failing one there. */
    method Next(dest: array<Option<int>>) returns (e: Option<S.Error>)
      requires Valid()
      modifies this`block, this`next, this`eof, this`cursorOpen, st.c`broken, st.c.link, dest
      ensures Valid() && closed == old(closed)
      ensures closed ==>
        && e == Some(S.Closed) && dest[..] == old(dest[..])
        && st.c.State() == old(st.c.State()) && st.State() == old(st.State())
      ensures !closed ==>
        var (c, s, v) := S.Next(old(st.c.State()), old(st.State()), dest.Length);
        var written := S.Written(old(st.c.State()), old(st.State()), dest.Length);
        && st.c.State() == c && st.State() == s && e == ErrorOf(v)
        && dest[..] == written + old(dest[..])[|written|..]
    {
      hide Exchange, S.Call, S.DecodeRow, S.Decoded;
      if closed {
        return Some(S.Closed);
      }
      ghost var c0, s0 := st.c.State(), st.State();
      ghost var fetched := false;
      while block.None? || next >= |block.value.rows|
        invariant Valid() && !closed && dest[..] == old(dest[..])
        invariant !fetched ==> st.c.State() == c0 && st.State() == s0
        invariant fetched ==> !S.HasNext(s0.rows.value) && !s0.rows.value.eof
        invariant fetched ==> (st.c.State(), st.State(), None) == S.FetchBlock(c0, s0)
        invariant fetched ==> eof || S.HasNext(State())
        decreases if fetched then 0 else 1
      {
        if eof {
          return Some(S.EOF);
        }
        e := FetchBlock();
        if e.Some? {
          return;
        }
        fetched := true;
      }
      if dest.Length != |st.columns| {
        return Some(S.Usage(S.WrongWidth));
      }
      if block.value.columnCount != |st.columns| {
        return Some(S.Usage(S.ColumnMismatch));
      }
      e := DecodeRow(block.value.rows[next], dest);
      if e.Some? {
        return;
      }
      next := next + 1;
    }
  }

  lemma {:induction false} FailureStays(row: Row, i: nat, n: nat)
    requires 0 < i <= n && S.DecodeRow(row, i).Failure? && S.DecodeRow(row, i - 1).Success?
    ensures S.DecodeRow(row, n) == S.DecodeRow(row, i)
    ensures S.Decoded(row, n) == S.DecodeRow(row, i - 1).value
  {
    if i < n {
      FailureStays(row, i, n - 1);
    }
  }

  /** Decodes the columns of a row into dest from left to right, stopping at the first that will not decode. */
  method DecodeRow(row: Row, dest: array<Option<int>>) returns (e: Option<S.Error>)
    modifies dest
    ensures e == ErrorOf(S.DecodeRow(row, dest.Length))
    ensures var vs := S.Decoded(row, dest.Length); dest[..] == vs + old(dest[..])[|vs|..]
  {
    ghost var was := dest[..];
    for i := 0 to dest.Length
      invariant S.DecodeRow(row, i) == Success(dest[..i])
      invariant dest[i..] == was[i..]
    {
      if i >= |row| {
        FailureStays(row, i + 1, dest.Length);
        return Some(S.Usage(S.ShortRow));
      }
      var v := S.DecodeCell(row[i]);
      if v.Failure? {
        FailureStays(row, i + 1, dest.Length);
        return Some(v.error);
      }
      dest[i] := v.value;
      assert dest[..i + 1] == dest[..i] + [v.value];
    }
    assert dest[..] == dest[..dest.Length];
    return None;
  }
}
