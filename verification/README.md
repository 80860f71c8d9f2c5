# A model of jt400-go, verified

This project models the parts of the client library whose correctness is
hardest to see, and proves what they are for. `dafny verify dfyconfig.toml`
checks all of it.

**The as-database session** (`Job`, `Session`, `Client`, and the proofs in
`Discipline`, `Statements`, `Transactions`, `Runs`, `Cursors`, `Lifecycle`,
`Safety`, `Outcomes`, `Driver`, `Witnesses`). Module `Job` is the far end: a server job with RPBs,
descriptors, cursors, autocommit, commitment control and pending work, a
first-in-first-out queue of replies owed, and an oracle that decides the fate
of every exchange: unsent, torn, whole, reply lost or garbled, accepted or
rejected, and how rows are cut into blocks. Module `Session` gives each
operation of `Conn`, `Stmt` and `Rows` as a function of the state before it.
The classes of module `Client` have the source's fields, update them in place,
and are proved method by method to do what those functions say. The lemmas
then speak of every run of public calls against every oracle. Module `Outcomes`
writes out the requests of each operation field by field and says exactly when
it succeeds and what it returns.

**The datastreams** (`Bytes`, `Params`, `Datastream`, `DbRequest`, `DbReply`,
`DataFormat`, `SuperFormat`, `ResultData`): LL/CP parameters, the 20-byte
header, request and reply templates, both data formats, and the grid of
indicators and rows, as buffers filled by offset and parsed back.

**Column values** (`Arithmetic`, `Digits`, `Decimal`, `Packed`, `Varying`) and the
classification of a statement by its first word (`Keyword`). Decimal claims
are about numbers: which texts are accepted, which number the digits hold.

**Remote commands** (`Ebcdic`, `Rle`, `CallProgram`, `Messages`): run-length
compression, the layout of a program call, its output parameters, and the
parser of the three message formats.

**Two self-contained pieces**: `Exchange`, a state machine of the goroutines
of `Connection.exchange` with any number of callers, and `Pbkdf2`, whose loops
are proved against section 5.2 of RFC 2898 over an abstract pseudorandom
function.

## What the server is taken to do

A rejected request (error class non-zero, return code negative) changes nothing
on the job, except that a statement run under commitment control may leave
work pending even if it fails. Requests with a zero result bitmap are carried
out or not without an answer. The end of data is only signalled when no rows
are left, and return code 700 closes the cursor. A request torn in writing
may or may not have arrived. Replies come back in the order of the requests.

## Where the code and its promises differ

- `Rollback` rejected, reset of autocommit accepted: the connection is handed
  back to the pool with work pending (`Witnesses.PoolSafetyHasAHole`; exactly
  when: `Transactions.PendingAfterEnd`).
- `ErrConnBroken` is documented at database/driver.go:168-171 as returned only
  before anything was sent. `Commit`, `Rollback` and `Stmt.Close` can return it
  after writing (`Witnesses.CommitSaysBrokenLate`, `Witnesses.CloseSaysBrokenLate`;
  exactly when: `Driver.EndTransactionCanSayBroken`,
  `Driver.CloseStmtCanSayBroken`); the operations that the pool retries cannot.
- `release` frees a handle whose RPB the server refused to delete
  (`Witnesses.ReleaseLeaks`; exactly when: `Safety.ReleaseCanLeak`).
- An `exchange` without a deadline can succeed and leave a past deadline
  (`Exchange.ASuccessCanPoison`). A select may also take the cancellation after
  the stop, so the exact condition is that the watcher fired, not when. With a
  deadline for every exchange this cannot happen
  (`Exchange.EveryoneFindsItClear`).
- `parseResultData` multiplies in 64 bits, and a header can overflow it
  (`ResultData.AnOverflowPasses`).
- `indicator` reads two bytes whatever the indicator size. With a size of 1 it
  can read past the end of accepted data (`ResultData.AnIndicatorOverruns`;
  exactly when: `ResultData.IndicatorReadsInBounds`), and the reads of distinct
  cells overlap (`ResultData.TwoByteReads`).
- A FETCH answered with no rows and no end of data ends the rows early
  (`Witnesses.EofLosesRows`; exactly when: `Cursors.EofIsEarly`).
- Binary data of odd length loses its last byte in a double-byte field,
  without an error (`Varying.VaryingRoundTrip`).
- A comment that opens with a slash, an asterisk and a slash ends there for
  `firstKeyword` (`Keyword.AConfusingStatement`).
- The length limit of PBKDF2 keys is not checked (`Pbkdf2.IndexesRunOut`).
- A decoded packed field with a non-zero pad nibble decodes, but its text is
  then rejected for the same column (`Packed.PackedReverse`).

## Model

| member | source | states |
|---|---|---|
| `Safety.AlwaysInStep` | database/conn.go:340-370 | in every reachable state a connection is broken or owed no reply, and every reply ever accepted as an answer carries the number of the request it was taken for |
| `Safety.CallReturnsItsOwnAnswer` | database/conn.go:340-356 | a call on any reachable connection returns the answer to the request it wrote itself, and a call that fails leaves the connection unusable |
| `Safety.SendOwesNothing` | database/conn.go:358-370 | whatever request it is given, a send that leaves the connection unbroken leaves no reply owed |
| `Safety.CallNeedsABitmap` | database/wire.go:29-47 | waiting for the reply to a request with a zero result bitmap never yields one |
| `Safety.PoolSafety` | database/driver.go:222-229 | a valid connection, in every reachable state, is in autocommit with no commitment control and no reply owed, and has work pending only if a rejected ROLLBACK was directly followed by an accepted reset and nothing was committed or rolled back since |
| `Safety.AlwaysDisciplined` | database/stmt.go:135-302 | every request of every run is one the per-statement protocol allows at that point |
| `Safety.HandleOwnership` | database/conn.go:382-392 | in every reachable state a handle is marked used exactly while one live statement, and only one, owns it |
| `Safety.ServerHoldsWhatTheClientThinks` | database/stmt.go:53-117 | on a usable connection whose housekeeping requests were accepted the server holds exactly the RPBs of live statements, the descriptors they sent, and the cursors they hold open |
| `Safety.ReleaseCanLeak` | database/stmt.go:279-302 | releasing any statement in order frees its handle on every path; on a connection that stays usable the last request written is DELETE_RPB, an error is returned exactly if the server rejected it, and the RPB stays on the job exactly if the job had it and rejected that request |
| `Lifecycle.CloseAtMostOnce` | database/stmt.go:427-462 | between a CLOSE, or a block that says the server closed the cursor, and any later CLOSE or FETCH of that statement there is a new accepted OPEN |
| `Lifecycle.NoFetchPastTheEnd` | database/stmt.go:406-437 | between an end-of-data signal, or a FETCH that brought nothing, and any later FETCH there is a new accepted OPEN |
| `Lifecycle.ClosedBeforeReuse` | database/stmt.go:142-203 | between an accepted OPEN and the next EXECUTE, OPEN or DELETE_RPB of the statement its cursor has been closed by one side |
| `Lifecycle.DataAfterDescriptor` | database/stmt.go:217-244 | parameter data is only ever sent after that RPB's CHANGE_DESCRIPTOR, with no DELETE_DESCRIPTOR between, and names that descriptor |
| `Discipline.ExchangeCases` | as400/conn.go:107-162 | with nothing owed, an exchange either completes with the server's answer to this request and again owes nothing, or fails having logged at most this request |
| `Discipline.SendKeeps` | database/conn.go:358-370 | a send of an allowed request keeps discipline, step and mirroring, touches only its RPB, and breaks the connection exactly when it fails |
| `Discipline.CallKeeps` | database/conn.go:340-356 | the same for a call, with the exact condition for success and the reply identified |
| `Discipline.AppendKeeps` | database/wire.go:29-47 | adding an allowed request whose reply, if seen, answers it keeps a log disciplined and in step |
| `Statements.CloseRowsKeeps` | database/stmt.go:263-270 | closing rows keeps the statement invariant and ends without a client-side cursor |
| `Statements.BindKeeps` | database/stmt.go:217-244 | binding sends the descriptor at most once and only a successful bind may be followed by data |
| `Statements.ExecKeeps` | database/stmt.go:135-159 | exec keeps the statement and connection invariants on every path |
| `Statements.OpenRowsKeeps` | database/stmt.go:172-204 | opening rows keeps them on every path, including rejected and torn exchanges |
| `Statements.FetchKeeps` | database/stmt.go:406-425 | so does a FETCH |
| `Statements.NextKeeps` | database/stmt.go:364-404 | and a Next |
| `Statements.ReleaseKeeps` | database/stmt.go:279-302 | release leaves the RPB phase absent or the connection broken, and the handle free |
| `Statements.PrepareKeeps` | database/stmt.go:53-117 | prepare yields a statement in good order with a fresh handle, or an error with the handle free again, on every failing path |
| `Transactions.BeginKeeps` | database/conn.go:164-181 | begin keeps client and job in agreement about the transaction, through success, rejection and failure |
| `Transactions.EndTransactionCases` | database/conn.go:192-209 | decides commit and rollback: when the connection survives (iff), in which state, and when the error says the request was rejected (iff) |
| `Transactions.RestoreCases` | database/conn.go:227-248 | the connection leaves the transaction exactly when the reset of autocommit is accepted |
| `Transactions.EndedServer` | database/conn.go:192-225 | after a surviving end the job is in autocommit, and work is pending exactly if a rollback of pending work was rejected |
| `Transactions.PendingAfterEnd` | database/conn.go:192-209 | exactly when a transaction that ends leaves a valid connection with work pending; never for a commit |
| `Transactions.ConnectEstablishes` | database/conn.go:95-126 | a new connection is valid, clean, and owns no handle |
| `Runs.EveryStep` | database/conn.go:164-392 | each of the twelve public calls keeps the whole invariant |
| `Runs.InvHolds` | database/stmt.go:53-487 | so does every sequence of them, against every behaviour of network and server |
| `Safety.ReachableIsDecided` | database/stmt.go:53-302 | what the results below ask of a connection and its statements holds in every reachable state |
| `Outcomes.ExecDecides` | database/stmt.go:135-159 | Exec of a statement without columns, with fitting arguments, succeeds exactly if the CLOSE and the descriptor that are due and the EXECUTE come off, and returns the row count of that answer; a rejected EXECUTE is returned as the server's class and code, and any other failure breaks the connection |
| `Outcomes.ExecRefuses` | database/stmt.go:135-150 | in every other case Exec fails, with which error, and sends at most the CLOSE that is due |
| `Outcomes.OpenDecides` | database/stmt.go:172-204 | the same for Query, whose OPEN carries the blocking factor |
| `Outcomes.OpenRefuses` | database/stmt.go:172-188 | and for the cases Query refuses |
| `Outcomes.BindDecides` | database/stmt.go:217-244 | arguments are bound exactly if there is one good one for each marker and the descriptor, if due, is sent |
| `Outcomes.FetchDecides` | database/stmt.go:406-425 | a FETCH succeeds exactly if it comes off, and then the block is that of the answer, from its first row |
| `Outcomes.PrepareDecides` | database/stmt.go:53-117 | Prepare with a free handle succeeds exactly if the text fits and CREATE_RPB and PREPARE_DESCRIBE come off; the statement has the lowest free handle and the columns and markers of the answer; and the error of each other case |
| `Outcomes.PrepareRefuses` | database/conn.go:382-390 | it refuses an unusable connection, and one on which all of 1 to 9999 are taken |
| `Outcomes.ReleaseDecides` | database/stmt.go:279-302 | release reports no error exactly if CLOSE, DELETE_DESCRIPTOR and DELETE_RPB, as far as due, come off |
| `Outcomes.ConnExecDecides` | database/stmt.go:465-472 | Conn.Exec succeeds exactly if all of its requests come off in order, returns the EXECUTE's row count, and leaves the handles as they were whatever happens |
| `Outcomes.ConnQueryDecides` | database/stmt.go:476-487 | Conn.Query that succeeds holds one handle and one-shot rows; one that fails leaves the handles as they were |
| `Outcomes.OneShotRowsClose` | database/stmt.go:439-448 | closing one-shot rows closes their statement and frees its handle, closing others neither |
| `Outcomes.ConnectDecides` | database/conn.go:95-126 | once logged on, Connect succeeds exactly if its SET_ATTRIBUTES comes off and the attributes parse |
| `Outcomes.PingDecides` | database/conn.go:146-158 | Ping succeeds exactly if its request comes off |
| `Outcomes.BeginDecides` | database/conn.go:164-181 | Begin succeeds exactly outside a transaction, at a level of 1 to 4, if its request comes off; the job is then at exactly that level; and the error of each other case |
| `Outcomes.EndSaysWhy` | database/conn.go:192-225 | Commit and Rollback that leave the connection usable return nothing if the server accepted, and its own class and code if not |
| `Outcomes.JoinKeepsBoth` | database/conn.go:200-206 | joined errors are whatever each of them is |
| `Outcomes.ClosedRefuses` | database/conn.go:372-380 | a closed connection and a closed statement refuse everything, write nothing, and may be closed again |
| `Witnesses.PoolSafetyHasAHole` | database/conn.go:192-209 | the exception to pool safety is reachable: a run of connect, begin, prepare, execute, rollback ends valid with work pending |
| `Witnesses.CommitSaysBrokenLate` | database/driver.go:168-171 | a reachable usable connection whose Commit writes its COMMIT and returns ErrConnBroken |
| `Witnesses.CloseSaysBrokenLate` | database/driver.go:168-171 | a reachable usable connection with an open cursor whose Stmt.Close writes part of a CLOSE and returns ErrConnBroken |
| `Witnesses.ReleaseLeaks` | database/stmt.go:279-302 | a run of connect, prepare, close ends usable, with the handle free and its RPB still on the job |
| `Witnesses.EofLosesRows` | database/stmt.go:406-425 | a reachable usable connection on which Next says EOF while the server still has a row of the result set |
| `Cursors.OpenStarts` | database/stmt.go:172-204 | rows just opened have exactly the server's result set undelivered, the first block included |
| `Cursors.FetchConserves` | database/stmt.go:406-437 | a FETCH neither loses nor invents rows, and writes at most one request |
| `Cursors.NextDelivers` | database/stmt.go:364-404 | a successful Next hands out the first undelivered row, cell by cell the value it holds or none for NULL; a failing one leaves them all undelivered unless it broke the connection; at most one request is written |
| `Session.DecodesExactly` | database/stmt.go:382-402 | a row decodes to these values exactly if it is long enough and each cell is NULL with no value or holds that value; otherwise the error is that of the first cell that is neither, and the cells before it are what has been written |
| `Cursors.NextDecides` | database/stmt.go:374-404 | Next on a block with a row left succeeds exactly if destination, block and statement agree on the number of columns and every cell reads; the error of each other case, what was written, and that the row is still the next |
| `Cursors.EofIsTheEnd` | database/stmt.go:364-437 | EOF ends the rows: every row has been delivered, or a FETCH of this cursor brought nothing without an end of data; from then on Next returns EOF and writes nothing |
| `Cursors.EofIsEarly` | database/stmt.go:406-425 | exactly when a Next that has to fetch says EOF with rows left: the exchange completes, the server accepts, takes no row into the block, and had rows left |
| `Cursors.EveryOtherCallSpares` | database/stmt.go:263-310 | no call on the connection or on other statements changes what a cursor has left to deliver |
| `Cursors.CursorRefinesResultSet` | database/stmt.go:364-437 | over any run of other calls interleaved with Next calls, the rows handed out are the first of the result set, in order, once each, however the server cut the blocks |
| `Cursors.ResultSetIsDelivered` | database/stmt.go:172-437 | a cursor opened in any state of any run, with any calls after that do not re-run or close it: the rows handed out are the first of the result set in order, and all of it when Next says EOF on a usable connection, unless a FETCH stalled |
| `Cursors.EofForEver` | database/stmt.go:364-374 | after EOF, and any such calls whatever they do to the connection, Next hands out nothing more, says EOF again and writes nothing |
| `Driver.Positional` | database/driver.go:286-295 | arguments are accepted exactly if none is named, and then come back one by one in order |
| `Driver.PrepareBadConn` | database/driver.go:172-189 | a driver Prepare returns ErrBadConn exactly on a connection that was broken before, and then has changed and written nothing |
| `Driver.PingBadConn` | database/driver.go:220 | the same for Ping |
| `Driver.BeginBadConn` | database/driver.go:197-218 | the same for BeginTx, once its options are supported |
| `Driver.BeginTxDecides` | database/driver.go:197-218 | database/sql's levels 0 and 1, 2, 4 and 6 start a transaction on the job at 1, 2, 3 and 4, exactly if the request comes off; other levels and read-only transactions are refused unsent |
| `Driver.ResetIsValidity` | database/driver.go:222-229 | ResetSession says ErrBadConn exactly of the connections that IsValid rejects |
| `Driver.ExecBadConn` | database/driver.go:254-264 | the same for ExecContext |
| `Driver.QueryBadConn` | database/driver.go:274-284 | the same for QueryContext |
| `Driver.EndTransactionCanSayBroken` | database/conn.go:192-209 | on a usable connection Commit and Rollback return ErrConnBroken exactly when their first request does not complete, and return it after writing something, against database/driver.go:168-171, exactly when that request was not given up before its first byte |
| `Driver.CloseStmtCanSayBroken` | database/stmt.go:272-302 | on a usable connection Stmt.Close returns ErrConnBroken exactly when a cursor is open and its CLOSE is not written whole, and after writing something exactly when the CLOSE is torn |
| `Driver.ConnExecNeverSaysBrokenLate` | database/stmt.go:465-472 | Conn.Exec reports a broken connection only if it changed nothing |
| `Driver.AttemptWritesAtMostOnce` | database/driver.go:183-284 | one Exec or Query, with its prepare and close, writes at most one EXECUTE or OPEN, and nothing at all if it returns ErrBadConn |
| `Driver.AtMostOneExecute` | database/driver.go:172-177 | a pool that retries an Exec or a Query on ErrBadConn, over any list of connections in any state, sends at most one EXECUTE or OPEN in all and touches at most one connection |
| `Session.BlockingFactor` | database/stmt.go:248-261 | between 1 and 32767 rows; that many fit the block size unless one alone does not, and one more would not fit |
| `Client.Conn.Call` | database/conn.go:340-356 | changes the connection exactly as the specification function of call says |
| `Client.Conn.Send` | database/conn.go:358-370 | as specified, including the refusal of a request that would be answered |
| `Client.Conn.Ping` | database/conn.go:146-158 | as specified |
| `Client.Conn.SetAutoCommit` | database/conn.go:227-248 | as specified |
| `Client.Conn.CommitOrRollback` | database/conn.go:211-225 | as specified |
| `Client.Conn.Begin` | database/conn.go:164-181 | as specified |
| `Client.Conn.EndTransaction` | database/conn.go:192-209 | as specified, with the fallback rollback and the reset |
| `Client.Conn.Commit` | database/conn.go:183-186 | as specified |
| `Client.Conn.Rollback` | database/conn.go:188-190 | as specified |
| `Client.Conn.Close` | database/conn.go:128-138 | marks the connection closed and returns the error of closing the socket; a second Close does and returns nothing |
| `Client.Conn.AllocID` | database/conn.go:382-390 | scans for the lowest free handle and marks it, or reports there is none |
| `Client.Conn.FreeID` | database/conn.go:392 | marks one handle free |
| `Client.Conn.Prepare` | database/stmt.go:53-117 | as specified, with every early return |
| `Client.Conn.Exec` | database/stmt.go:465-472 | as specified |
| `Client.Conn.Query` | database/stmt.go:476-487 | as specified |
| `Client.Stmt.CloseRows` | database/stmt.go:263-270 | as specified |
| `Client.Stmt.Release` | database/stmt.go:279-302 | as specified, through to freeing the handle |
| `Client.Stmt.Close` | database/stmt.go:272-277 | as specified; a second Close does nothing |
| `Client.Stmt.Bind` | database/stmt.go:217-244 | as specified |
| `Client.Stmt.Exec` | database/stmt.go:135-159 | as specified |
| `Client.Stmt.Query` | database/stmt.go:172-204 | as specified |
| `Client.Rows.AbsorbEnd` | database/stmt.go:427-437 | as specified |
| `Client.Rows.CloseWith` | database/stmt.go:450-462 | as specified |
| `Client.Rows.Close` | database/stmt.go:439-448 | as specified; closes a one-shot statement too |
| `Client.Rows.FetchBlock` | database/stmt.go:406-425 | as specified |
| `Client.Rows.Next` | database/stmt.go:364-404 | the loop over blocks does what the specification function says in at most one FETCH, and the destination holds the row, or after a failure the columns before the failing one, and is otherwise as it was |
| `Client.DecodeRow` | database/stmt.go:382-402 | decodes field by field into the destination; the first field that fails decides, and the columns before it stay written |
| `Exchange.DeadlineLeftBehind` | as400/conn.go:111-148 | in every interleaving, an exchange that installed a deadline leaves none (unless the socket refused the reset); one that did not leaves the deadline it found, or a past one exactly if its watcher fired, and that only after a cancellation |
| `Exchange.DeadlineInForce` | as400/conn.go:115-127 | a call that writes or reads under a deadline it installed has the earliest of the instants its plan gives on the socket, unless its watcher fired; a call that has written installed one exactly if its plan gives one, and one that returns unwritten none |
| `Exchange.OutcomesTell` | as400/conn.go:150-161 | a call returns a reply only if it wanted one, wrote and read; and success without a reply only if it wanted none and wrote |
| `Exchange.CancelledEarlyWritesNothing` | as400/conn.go:108-113 | a call whose context is over before it has looked at it never writes anything |
| `Exchange.EveryoneFindsItClear` | as400/conn.go:111-148 | over any run in which every exchange has a deadline and no reset fails, every exchange finds the socket without a deadline, whatever the cancellations |
| `Exchange.WatchersAreConfined` | as400/conn.go:129-148 | a watcher is alive only while its own caller holds the lock and has not passed the stop |
| `Exchange.ExchangesAreWhole` | as400/conn.go:107-162 | writes and reads of concurrent callers never interleave: each read follows the same caller's write |
| `Exchange.NeverStuck` | as400/conn.go:133-148 | in every reachable state with a call under way it, or the lock's holder, or the watcher waited for, can step |
| `Exchange.RunsAreBounded` | as400/conn.go:107-162 | any interleaving of n exchanges takes at most 40 n steps; with NeverStuck, every exchange returns |
| `Exchange.StepsDescend` | as400/conn.go:107-162 | each step brings its own call nearer its return and no other further from it |
| `Exchange.PastDeadlinePoisons` | as400/conn.go:122-127 | an exchange that finds a past deadline and installs none cannot succeed |
| `Exchange.ASuccessCanPoison` | as400/conn.go:122-148 | a concrete interleaving in which an exchange without a deadline returns its reply and leaves a past deadline, so that the next one fails |
| `Params.EncodeParams` | as400/params.go:19-29 | writes the entries one after the other |
| `Params.DecodeParams` | as400/params.go:33-50 | reads entries to the end, or fails at the first incomplete or impossible one |
| `Params.Find` | as400/params.go:53-60 | returns the data of the first entry with the code point, and none exactly if there is none |
| `Params.EntryBytes` | as400/params.go:22-26 | the whole length in four bytes, the code point in two, most significant first, and the data |
| `Params.DecodeEncode` | as400/params.go:19-50 | a list survives the wire exactly if every length fits its field |
| `Params.EncodeDecode` | as400/params.go:33-50 | whatever decodes is the encoding of what it decodes to: LL/CP is a bijection |
| `Datastream.EncodeFrame` | as400/datastream.go:40-51 | writes the 20-byte header and the body |
| `Datastream.FrameBytes` | as400/datastream.go:40-51 | which number is spelt at which of the 20 bytes of the header |
| `Datastream.Reader.ReadReply` | as400/datastream.go:88-114 | consumes one datastream from the stream, or fails on a short or impossible one |
| `Datastream.ReadEncode` | as400/datastream.go:40-114 | a datastream followed by anything is read back exactly, and the rest left, exactly if its length fits the field |
| `Datastream.ReadAllEncodeAll` | as400/datastream.go:40-114 | any list of datastreams, concatenated, is read back with nothing left over |
| `DbRequest.EncodeTemplate` | database/wire.go:139-148 | writes the as-database template at its fixed offsets |
| `DbRequest.EncodeRequest` | database/wire.go:139-156 | builds the datastream of a request |
| `DbRequest.RequestBytes` | database/wire.go:139-156 | which number is spelt at which byte of a database request, header and template, down to server 0xE004 |
| `DbRequest.ParseToFrame` | database/wire.go:139-156 | function, handles, bitmap, descriptor and parameters are recovered exactly if the parameters fit and are fewer than 65536 |
| `DbRequest.NextCorrelation` | as400/conn.go:181-187 | the next correlation number differs from the last and is never zero |
| `DbRequest.CorrelationsCount` | as400/conn.go:181-187 | the k-th request of a connection has number (k - 1) mod (2^32 - 1) + 1 |
| `DbRequest.StreamRoundTrip` | database/wire.go:139-156 | any list of sendable requests, through all three layers and one byte stream, is recovered one by one with no byte left over |
| `DbReply.ParseReply` | database/wire.go:174-252 | template checks, then the parameters in order, each replacing what an earlier one said |
| `DbReply.DecodedIfNothingIsBad` | database/wire.go:174-252 | a reply decodes exactly if it is long enough, uncompressed, made of complete parameters, and none of them is bad |
| `DbReply.LatestWins` | database/wire.go:195-250 | every part of a decoded reply is what the last parameter carrying it says, and code and class are the template's |
| `DbReply.ReplyRoundTrip` | database/wire.go:174-252 | a reply rendered from a class, a code and parameters says exactly those, or is refused because one parameter is bad |
| `DbReply.VerdictsAreConsistent` | database/wire.go:257-273 | an end of data is never a failure, and a cursor closed by the server is at its end |
| `DbReply.VerdictsOfBytes` | database/wire.go:257-273 | what the session takes a rendered reply for (failure, end of data, cursor closed) is decided by the class and the signed code in its bytes, and exactly so |
| `DbReply.RowCountIsThere` | database/wire.go:285-290 | the row count is the signed number at bytes 104 to 107 of the SQLCA |
| `DataFormat.EncodeParameterFormat` | database/format.go:127-142 | writes the header and one 64-byte description per field |
| `DataFormat.HeaderBytes` | database/format.go:127-132 | the header says 1, the number of fields and the record size |
| `DataFormat.DescriptionBytes` | database/format.go:133-141 | which number is spelt at which byte of a description, the type with its lowest bit set |
| `DataFormat.ParseDataFormat` | database/format.go:35-64 | reads the declared fields exactly if they are all there |
| `DataFormat.FormatRoundTrip` | database/format.go:35-142 | parsing the format sent to the server recovers every field, made nullable and nameless, and so the lengths the data is laid out by |
| `DataFormat.LayoutReadsBack` | database/format.go:35-64 | parsing a format as a server lays it out gives back the record size and each field's type, length, scale, precision, CCSID and name |
| `SuperFormat.ScanForName` | database/format.go:101-119 | ends and stays in bounds whatever the lengths say, and finds the first name entry in reach |
| `SuperFormat.ParseSuperExtendedFormat` | database/format.go:78-123 | reads the declared fields exactly if they are all there |
| `SuperFormat.NameIsFound` | database/format.go:101-119 | of well-formed variable information, wherever it lies, exactly the first name is taken, or none if there is none |
| `SuperFormat.LayoutReadsBack` | database/format.go:78-123 | the same for a super-extended format, with the first name of each field's own variable information |
| `ResultData.AcceptedMeansPresent` | database/format.go:165-183 | accepted data has all its cells and rows exactly if the size it declares stays below 2^63 |
| `ResultData.PresentMeansAccepted` | database/format.go:165-183 | data with all its cells and rows is accepted |
| `ResultData.AnOverflowPasses` | database/format.go:176 | a concrete 20-byte header, declaring more than 2^63 bytes, that is accepted |
| `ResultData.RowInBounds` | database/format.go:193-196 | every row of complete data lies within it, behind the indicators |
| `ResultData.IndicatorReadsInBounds` | database/format.go:185-191 | the reads of all indicators, two bytes each, stay within complete data exactly if the indicator size is not 1, or there is no cell, or something follows the indicators |
| `ResultData.AnIndicatorOverruns` | database/format.go:185-191 | a concrete grid of 21 bytes that is accepted, is all there, and whose only indicator is read past its end |
| `ResultData.NoOverlap` | database/format.go:185-196 | distinct indicators and distinct rows never overlap |
| `ResultData.LayoutReadsBack` | database/format.go:157-196 | result data as a server lays it out, indicators row by row and then the rows, is accepted, and each indicator and row is found where it was put |
| `ResultData.TwoByteReads` | database/format.go:185-191 | the two-byte reads of distinct cells stay apart exactly if the indicator size is at least 2 or there is at most one cell |
| `ResultData.EncodeParameterData` | database/format.go:203-225 | fills header, indicators and fields at summed offsets |
| `ResultData.ParameterBytes` | database/format.go:203-211 | which number is spelt at which byte of the header |
| `ResultData.ParameterRoundTrip` | database/format.go:165-225 | the result parser accepts what the parameter encoder wrote, with the same dimensions |
| `ResultData.ParameterCell` | database/format.go:185-225 | the indicator of a parameter reads -1 exactly if it is NULL |
| `ResultData.ParameterField` | database/format.go:193-225 | each value is found at its column's offset |
| `Decimal.AcceptsExactlyTheRepresentable` | database/value.go:625-660 | a text is accepted exactly if the scale is within the precision and the text is an optionally signed decimal with a digit, no non-zero digit past the scale, and magnitude below 10^(precision-scale) |
| `Decimal.DigitsAreExact` | database/value.go:625-660 | what is returned is exactly `precision` digits whose number is the text times 10^scale, negative only for a negative non-zero value |
| `Decimal.RepresentableUnique` | database/value.go:625-660 | a text spells only one value |
| `Decimal.PadByLoop` | database/value.go:317-324 | the padding loop pads to one digit more than the scale |
| `Decimal.ScaleDigitsByLoop` | database/value.go:317-333 | takes a sign off, pads, places the point and trims, as its specification function says |
| `Decimal.ScaledIntegerIsCanonical` | database/value.go:173-189 | an integer read from a column with a scale comes back as the canonical text of its number, sign included |
| `Decimal.FormatIsCanonical` | database/value.go:307-333 | formatted digits are the canonical text of their number: `scale` fraction digits, no redundant leading zero, no negative zero |
| `Decimal.CanonicalUnique` | database/value.go:307-333 | a number has one canonical text |
| `Decimal.CanonicalSpells` | database/value.go:307-333 | the canonical text spells its number, so formatting and scaling are inverse |
| `Packed.EncodePacked` | database/value.go:665-688 | fills the field with the digits and the sign nibble, or refuses a buffer of the wrong length and leaves it alone |
| `Packed.DecodePacked` | database/value.go:264-284 | accepts exactly fields of the right length with decimal digit nibbles |
| `Packed.EncodeZoned` | database/value.go:690-701 | the same for zoned fields |
| `Packed.DecodeZoned` | database/value.go:288-303 | the same for zoned fields |
| `Packed.PackedBytes` | database/value.go:665-688 | half byte by half byte: a zero to fill up, the digits, and 13 for a negative number or 15 for any other |
| `Packed.PackedSays` | database/value.go:264-284 | which packed fields are accepted, which digits they hold, and that a last half byte of 11 or 13 makes them negative |
| `Packed.ZonedBytes` | database/value.go:690-701 | 0xF0 and the digit in each byte, but 0xD0 and the digit in the last of a negative number |
| `Packed.ZonedSays` | database/value.go:288-303 | which zoned fields are accepted, which digits they hold, and that a last zone of 11 or 13 makes them negative |
| `Packed.PackedHolds` | database/value.go:264-284 | an encoded packed field is valid, and holds the digits, the sign and a zero pad nibble |
| `Packed.PackedRoundTrip` | database/value.go:264-333 | text to packed field to text gives the canonical text of the number the text spells, for every precision and scale |
| `Packed.PackedReverse` | database/value.go:264-284 | packed field to text to field gives the same bytes up to the sign nibble exactly if the scale is within the precision and the pad nibble of an even precision is zero; otherwise the text is rejected |
| `Packed.ZonedRoundTrip` | database/value.go:288-333 | text to zoned field to text gives the canonical text |
| `Packed.ZonedReverse` | database/value.go:288-303 | zoned field to text to field gives the same bytes up to the zones exactly if the scale is within the precision |
| `Packed.DecodedIsAccepted` | database/value.go:625-660 | a decoded text is accepted for a column exactly if its number has at most `precision` digits |
| `Varying.Encode` | database/value.go:362-427 | fills a varying-length field, or refuses data it has no room for |
| `Varying.VaryingRoundTrip` | database/value.go:232-259 | accepted data comes back whole exactly if its length fits the prefix and, in a double-byte field, is even; an odd last byte is lost without an error, against database/value.go:337-339 |
| `Varying.FieldBytes` | database/value.go:382-427 | how many units, in two bytes or four, the data, and zeros to the end |
| `Varying.IntegerBytes` | database/value.go:173-185 | an integer field is the number its bytes spell, less 2^16, 2^32 or 2^64 if its first bit is set |
| `Varying.IntegerRoundTrip` | database/value.go:429-453 | an integer is accepted for a 2, 4 or 8-byte column exactly if it is in range, and then comes back |
| `Keyword.FirstKeyword` | database/stmt.go:506-531 | the loop over spaces, parentheses and comments ends and returns the first word of what follows |
| `Keyword.GapsAreSkipped` | database/stmt.go:506-531 | behind any spaces, parentheses and comments the word found is the run of letters that follows, in upper case |
| `Keyword.UnendedComments` | database/stmt.go:511-523 | a comment that does not end leaves no word |
| `Keyword.TypesOnTheWire` | database/stmt.go:489-502 | 2 for SELECT, WITH and VALUES, 3 for CALL, 0 for SET and 1 for any other word |
| `Keyword.OneCommentDiffers` | database/stmt.go:517-521 | the code and SQL disagree about where a block comment ends exactly if it opens with a slash, an asterisk and a slash |
| `Keyword.AgreesUnlessConfusing` | database/stmt.go:506-531 | if no comment before the first word opens so, what is skipped is what SQL skips |
| `Keyword.AConfusingStatement` | database/stmt.go:489-502 | a concrete DROP statement that is classified as a CALL |
| `Rle.Decompress` | rmtcmd/rle.go:20-48 | returns the expansion of the records, whatever length is stated |
| `Rle.LiteralBytes` | rmtcmd/rle.go:24-36 | any byte but 0x1B stands for itself, and 0x1B twice for one |
| `Rle.RepeaterBytes` | rmtcmd/rle.go:37-45 | 0x1B, two bytes and a two-byte count stand for the two bytes that many times |
| `Rle.CutOffBytes` | rmtcmd/rle.go:29-39 | a record that is cut off is refused |
| `Rle.ParseRender` | rmtcmd/rle.go:16-48 | well-formed records are recovered from their bytes |
| `Rle.DecompressesRecords` | rmtcmd/rle.go:16-48 | data decompresses to a result exactly if it is the rendering of complete records that expand to it, and the records are unique |
| `Rle.EverythingCompresses` | rmtcmd/rle.go:16-48 | every byte string is the decompression of something |
| `CallProgram.TrimTrailingZeros` | rmtcmd/wire.go:126-132 | trims by scanning from the end |
| `CallProgram.ZeroFillRestores` | rmtcmd/wire.go:115-132 | what is trimmed is zeros and all of them, so zero-filling restores the data |
| `CallProgram.OptionsStayApart` | rmtcmd/wire.go:22-48 | the three message options stay distinguishable on the wire exactly from level 7 on |
| `CallProgram.OptionsOnTheWire` | rmtcmd/wire.go:26-48 | the byte for each option at each level |
| `CallProgram.ResolveParam` | rmtcmd/wire.go:140-161 | picks usage and data by direction and server level |
| `CallProgram.UsageOnTheWire` | rmtcmd/wire.go:140-195 | the code point 0x1103, and the usage of each direction at each level |
| `CallProgram.UsageTellsDirection` | rmtcmd/wire.go:140-161 | at any level the usage determines the direction |
| `CallProgram.BuildCallProgramRequest` | rmtcmd/wire.go:167-203 | fills its body exactly, or names the name that does not encode |
| `CallProgram.RequestDecodes` | rmtcmd/wire.go:167-203 | the part from offset 23 decodes to one 0x1103 entry per parameter exactly if every length fits; the head holds both names and the count, cut to 16 bits |
| `CallProgram.EntryHolds` | rmtcmd/wire.go:190-200 | an entry gives back the signed maximum length, the usage and, zero-filled, the input data |
| `CallProgram.ParseCallProgramOutput` | rmtcmd/wire.go:205-241 | assigns outputs in order to the parameter objects, equal pointers included, and touches nothing else of them |
| `CallProgram.OutputsGoWhereTheyBelong` | rmtcmd/wire.go:210-241 | a reply is accepted exactly if it holds one well-formed entry for each parameter that wants one, and then each such parameter gets its own, decompressed for usages 22 and 23 |
| `CallProgram.DistinctKeepTheirOwn` | rmtcmd/wire.go:210-241 | distinct parameters end with what they were given, and every other one as it was |
| `CallProgram.OthersAreUntouched` | rmtcmd/wire.go:212-218 | a parameter that takes no output is never written, whatever the reply |
| `CallProgram.FinishCall` | rmtcmd/program.go:17-33 | messages accompany every reply of two bytes or more; outputs are only touched when the return code is zero |
| `CallProgram.WhoWants` | rmtcmd/wire.go:212-218 | output and in-out parameters of positive length take an output, and no others |
| `Ebcdic.TablesAreInverse` | as400/auth/ebcdic.go:20-43 | the two tables are inverse on the restricted set |
| `Ebcdic.CodePage37` | as400/auth/ebcdic.go:20-35 | the byte of every character there is |
| `Ebcdic.NothingElse` | as400/auth/ebcdic.go:20-43 | and that there are no others |
| `Ebcdic.PaddedOrNot` | as400/auth/ebcdic.go:51-79 | a name makes a field exactly if it is no longer than it and has no other characters |
| `Ebcdic.PaddedReadsBack` | as400/auth/ebcdic.go:65-116 | a padded name decodes to itself up to trailing blanks |
| `Messages.FieldReader.Bytes` | rmtcmd/messages.go:118-126 | takes n bytes, or nothing and moves to the end |
| `Messages.FieldReader.LenPrefixed` | rmtcmd/messages.go:128-134 | takes the next length-prefixed field |
| `Messages.ParseMessageClassic` | rmtcmd/messages.go:83-109 | reads the classic layout as far as it is there |
| `Messages.ParseMessage06` | rmtcmd/messages.go:138-156 | reads the seven fields of format 06 |
| `Messages.ParseMessage07` | rmtcmd/messages.go:163-198 | reads the twenty-six fields of format 07 |
| `Messages.KindReads` | rmtcmd/messages.go:88 | two zoned digits read as their number |
| `Messages.NameReads` | rmtcmd/messages.go:86 | a padded name reads without its trailing blanks |
| `Messages.ParseMessages` | rmtcmd/messages.go:41-72 | total on every byte string, with every index in bounds, so that its recover is never reached |
| `Messages.MessagesAreEntries` | rmtcmd/messages.go:50-71 | the parser visits strictly increasing offsets within the body, at most the declared number of them, stops early only where it must, and returns one message for each |
| `Messages.CutShortEndsIt` | rmtcmd/messages.go:118-134 | a field whose length, or what it announces, lies beyond the body is empty and sends the reader to the end |
| `Messages.TruncatedStaysEmpty` | rmtcmd/messages.go:118-134 | once a field is cut short, all that follow are empty and the reader stays at the end |
| `Messages.ListReadsBack` | rmtcmd/messages.go:41-198 | any list of well-formed entries in any mix of the three formats is recovered message by message, whatever follows it |
| `Pbkdf2.Block` | as400/auth/password.go:175-190 | the chain with its in-place exclusive or computes T_i, for any pseudorandom function; accumulator and chained value never alias |
| `Pbkdf2.ChainIsStandard` | as400/auth/password.go:176-186 | U_1 is the function of the salt and the four bytes that spell the index, and each U_j that of the one before |
| `Pbkdf2.XorInto` | as400/auth/password.go:187-189 | the innermost loop is the exclusive or of the whole arrays |
| `Pbkdf2.Derive` | as400/auth/password.go:169-194 | the first keyLen bytes of T_1, T_2, ... of section 5.2 of RFC 2898; fewer than one iteration counts as one |
| `Pbkdf2.BitsAreParities` | as400/auth/password.go:181-190 | a bit of T_i is set exactly if it is set in an odd number of U_1 to U_c |
| `Pbkdf2.KeyBytes` | as400/auth/password.go:191-193 | byte p of the key is byte p mod hLen of block p div hLen, whatever the key length |
| `Pbkdf2.IndexesRunOut` | as400/auth/password.go:178 | block indexes are distinct up to the limit of section 5.2 of RFC 2898, which the code does not check; beyond it the key repeats |

The classes' methods that change state have contracts over the old and the
new state; what those contracts are worth is shown by the lemmas about the
specification functions they name.

## Left out

- CCSID conversion: statement texts and character values appear as encodable or not. The Unicode tables are parameters of `Keyword` and of `CallProgram.Request`.
- Floating-point columns, dates, times and timestamps, and the conversion of Go values to column values.
- Sockets, TLS, dialling, real clocks and DSN parsing; an I/O error is any failure the oracle chooses.
- Logon, sign-on and data-queue handshakes, DES, SHA and HMAC; the pseudorandom function of `Pbkdf2` is a parameter.
- The bytes of each kind of request: the session model knows requests as operations, and `DbRequest` carries any parameters.
- `Client.Conn.Close`: what closing the socket makes the server do, such as rolling back, is not modelled.
- A width of 32 bits for Go's int: lengths are 64 bits wide, and only the product in `parseResultData` wraps.
- Error texts and the fields of an error beyond what decides between errors.
- `Client.Conn.Call`: a context that is cancelled is a fate of the exchange, not an argument; its interleaving with the exchange is what module `Exchange` models.
- `Packed.DecodeZoned`: a NUMERIC field of precision 0 is excluded, because the source reads the zone of a last byte that is not there.
- `Packed.EncodeZoned`: a negative field without digits is excluded; `scaleToDigits` never returns one.
- `Pbkdf2.Derive`: a negative key length, which the source cannot slice, is excluded.
- `RunCommand` and the exchange of attributes of the command server: fixed layouts that would add only easy members.
