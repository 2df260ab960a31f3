# h2go in Dafny

h2go is a Go driver for the H2 database. It speaks H2's native TCP protocol: one ordered byte stream per
session, requests answered one at a time. This project models the parts of the driver where that is hard to get right
and proves what they promise.

**The model.** A connection (`Network.Conn`) is the received bytes with a read position, an output buffer, a log of the
flushed requests, and a peer. The peer either answers with arbitrary scripted bytes or is the sequential server, which
serves one request at a time and sends rows by the rule the driver relies on: per promised row a flag 1 and the values,
or a flag 0, or a flag -1 and an error frame. A connection survives a given number of flushes (`life`), so it may be lost
after any request and every run ends. `RowStream` says as functions what opening a result, fetching a batch, resolving
its deferred LOBs and calling `Next` do to such a connection. The classes `Transfer.Tr`, `Decoder.LobCollector`,
`Driver.Session` and `ResultRows.Rows` are the driver's objects with the fields it updates; their methods, loops and
in-place buffers are proved equal to those functions, and the theorems are about the functions.

**Main results.**

* *Streaming refinement* (`Streaming.StreamingRefinement`, `Queries.WholeQuery`, `Queries.ExactlyTheRows`): for every row
  list, announced count, fetch size, chunking and set of deferred LOBs, call number n of `Next` delivers row n, then the
  end for ever; the row offset is the number of rows delivered; nothing is unread when a request is written.
* *Discard rule* (`Discard.DiscardRule`, `Discard.ResponseUnderstood`): on every byte stream, a session that survives a
  fetch has consumed exactly one complete response and reports what that response tells; and every complete response
  without deferred LOBs is so consumed. Statuses, errors, flags and LOB chunks are described by their bytes, apart from
  the parser; the extent of a single value is the one thing taken from the decoder.
* *The end of the rows* (`EndOfRows`): for every state and every peer, `Next` reports the end only for a closed result,
  for one whose end was announced, or after a successful fetch without rows, which has read a success status and an end
  flag and nothing else. A session that is gone, or dies in a fetch, is an error on this call and on every later one.
* *No placeholder escapes* (`NoPlaceholder.NoPlaceholderEscapes`, `GeneratedKeys.KeysResolved`): whatever bytes arrive.
* *Statement close and ownership* (`StatementClose`, `Ownership`): every interleaving of any number of goroutines,
  statements and result sets, each closed by anyone and any number of times. The connection has one holder at a time,
  every acquire is released exactly once, a command is not executed after its close, and a deferred close is carried out
  exactly under a stated condition.
* *Transactions* (`Transactions`): every run, with replies that succeed, fail, or break the session, and the exact
  condition under which durable work was committed by its own transaction; for each call the requests it sends, in
  order, and exactly when it succeeds.
* *Codecs*: decimals, UTF-16, values, parameters, type metadata, UUIDs and intervals read back as what was written, for
  all inputs, with exact conditions where that fails. What a server writes is given by type identifiers, type codes,
  layouts and limits written out as numbers, not by the decoder's own tables.

**Where the code does less than its documentation says, or than one would expect.**

* The fetch size is cut to 32 bits when a query is sent (rows.go:628), while the driver waits for the full number
  (rows.go:115-129). `Queries.OpenStarves` says for every size when that breaks the opening; where it does not, nothing is
  left to ask for (`Queries.NeverAsksAgain`), so the cut at rows.go:306 is never reached with such a size. In the model
  the missing bytes are a failure; the driver waits on the socket until a deadline or the end of the stream.
* Rows of a batch that ends in an error frame are never delivered: with a failing server all rows arrive exactly if they
  fill whole batches (`Queries.AllOfThemDelivered`, `Queries.OneRowLost`).
* A deferred empty BLOB of non-positive precision becomes a nil slice, an inline one does not (`Queries.DeferredBlob`).
* The generated-keys row cap is said to leave the stream aligned (generated_keys.go:61-68); the rest of the frame is in
  fact still unread (`GeneratedKeys.CapLeavesFrame`). After a negative count H2 sends no rows and no end marker, as the
  same function notes (generated_keys.go:83-85); its reader still waits for one (`GeneratedKeys.NegativeCount`). In the
  model that breaks the session; the driver waits on the socket until a deadline or the end of the stream.
  `GeneratedKeys.KeysExact` gives the counts for which the frame is read to its end.
* A statement closed while another operation owns the connection is never closed on the server
  (`StatementClose.LostDeferral`), and the close can be sent twice (`StatementClose.TwoClosesSendTwice`,
  `StatementClose.DeferredThenClosedAgain`): exactly when a Close that got the connection sends although the command was
  marked as closed meanwhile, which stmt.go:47-59 does not look at again (`StatementClose.AtMostOneCommand`).
* A transaction that outlives a ResetSession commits the work of the next one (`Transactions.StaleCommit`).
* A negative interval whose leading field is zero or the smallest integer loses its sign (`Interval.SignSurvives`);
  surrogate pairs in inline CLOBs are not recombined (`Unicode.ClobAgainstString`); `parseUUIDString` slices out of range
  on texts with more than twenty hyphens (`Uuid.PanicsExactly`); decimal exponents of more than ten digits are not read
  back (`DecFloat.RoundTrip`).

## Model

| member | source | states |
|---|---|---|
| Streaming.StreamingRefinement | rows.go:222-281 | In every run against the sequential server call n of Next has the expected outcome (row n in order, then the end or the server's error for ever) or the connection died for want of requests; nothing is unread when a request is written; the row offset is the number delivered |
| Streaming.NextStreams | rows.go:222-281 | One call keeps the streaming invariant: buffer and server together hold exactly the undelivered rows, in order |
| Streaming.RefillStreams | rows.go:287-322 | A fetch continues the delivered rows without gap or overlap, and brings nothing only when the list is exhausted |
| Streaming.RefillEnough | rows.go:287-322 | Each fetched row pays for the request that brought it, so a connection that lasts for the list lasts for every fetch |
| Streaming.FailMeans | rows.go:379-385 | A batch that ends in an error frame is the batch that starts at the last multiple of the fetch size |
| Streaming.ErrorSticks | rows.go:228-230 | After an error every later call repeats it, sends nothing and reads nothing |
| Streaming.RunReaches | rows.go:222-281 | Where any number of calls leads: still streaming, at the end for good, or stuck on its error |
| Queries.OpenStreams | rows.go:75-129 | For every fetch size: an opening that does not starve starts a run at row zero, passes on the server's error, or finds the connection gone |
| Queries.WholeQuery | rows.go:75-129 | From the answer of a query to its last row, on a connection that lasts, for every announced count and every fetch size, with the openings that starve told apart |
| Queries.ExactlyTheRows | rows.go:222-281 | With an exact or a negative (lazy) count and a server that does not fail, exactly the row list is delivered, then EOF, for every fetch size that does not starve |
| Queries.FetchField | rows.go:628-628 | The requested size is exact on the wire if and only if it fits 32 bits |
| Queries.OpenStarves | rows.go:115-129 | For every fetch size the opening breaks the session if and only if the size does not fit 32 bits, rows beyond the cut size are expected, and the server has at least as many as the cut size asks for |
| Queries.SmallestStarves | rows.go:628-628 | The smallest size that does not fit starves every lazy result |
| Queries.NeverAsksAgain | rows.go:222-281 | A result that opens with a size beyond 32 bits sends no request in any number of calls of Next |
| Queries.AllOfThemDelivered | rows.go:340-391 | With a server that fails after its last row, every row reaches the caller if and only if the rows fill whole batches |
| Queries.OneRowLost | rows.go:379-385 | One row and a fetch size of two: the row is sent and not delivered |
| Queries.DeferredBlob | value_read.go:655-727 | A deferred BLOB shows what an inline one shows if and only if it is not empty with non-positive precision |
| Queries.DeferredClob | value_read.go:655-727 | A deferred CLOB shows what an inline one shows if and only if the text has no surrogate pair |
| Lockstep.LobHonest | value_read.go:655-727 | For any chunking with non-empty chunks until the end, the LOB loop returns the whole content, one request at a time |
| Lockstep.ResolveHonest | rows.go:393-405 | Resolution brings every cell to the value an ideal decoder shows and stays in lockstep |
| Lockstep.SpliceOnCourse | rows.go:404-404 | Writing a fetched LOB into its recorded cell brings that cell, and no other, to its goal |
| BatchFetch.BatchHonest | rows.go:340-408 | A waiting batch is fetched as its rows with every LOB in place and the right end flag, or as the server's error |
| BatchFetch.FetchHonest | rows.go:287-322 | A request for some rows brings exactly the next ones the server has left, in lockstep |
| Batches.BatchDecodes | rows.go:340-391 | The bytes of the row-sending rule decode to the promised rows, the end flag or the error, and leave what follows |
| Batches.ErrorDecodes | errors.go:82-110 | An error frame decodes to its five fields and leaves what follows |
| Discard.DiscardRule | rows.go:287-408 | On every input and with every peer, a session alive after a fetch has consumed exactly one complete response (a rejection, or status, batch and one complete LOB answer per reference), and the outcome is the one that response tells: its error, or as many more rows as it has and whether its end flag came |
| Discard.BatchAccepted | rows.go:340-391 | A batch is accepted if and only if the stream starts with a complete batch |
| Discard.ResponseUnderstood | rows.go:287-408 | The converse for responses without deferred LOBs: whatever follows it, a complete response is consumed as a whole, the session stays alive, and the outcome is the one it tells |
| Discard.StatusUnderstood | errors.go:123-138 | Status 1 and status 3 are success, status 0 is followed by an error frame that is read in full |
| EndOfRows.EofExactly | rows.go:222-281 | For every state, destination and peer, Next reports the end if and only if the result is closed, or the destination fits and the end was announced with the buffer empty, or a successful fetch brought no row |
| EndOfRows.FirstChecks | rows.go:223-236 | A closed result has ended; otherwise an error comes before everything else; a wrong destination is refused exactly then and changes nothing |
| EndOfRows.EofHeard | rows.go:259-269 | When rows were still expected, the end was heard from the server: exactly a success status and an end flag were read |
| EndOfRows.NoSession | rows.go:287-290 | Rows still expected and no session: a bad connection on this call and on every later one, and nothing else changes |
| EndOfRows.DeadFetch | rows.go:259-263 | With every peer, a session lost or garbled in a fetch is that error for ever: never the end and never a row |
| EndOfRows.FailureSticks | rows.go:228-263 | Whatever error a fetch gave is the outcome of every later call, and the state does not change any more |
| EndOfRows.LiveFetch | rows.go:238-281 | A session that survives Next has read exactly one complete response, and the outcome is what it says: its error, its first row with the rest buffered, or the end when it has no row |
| EndOfRows.Asks | rows.go:247-311 | The request names operation 5, this result and the fetch size, or what the announced count leaves when that is less |
| EndOfRows.OpenRule | rows.go:75-129 | A connection that survives the opening has read row count, metadata and one complete batch; the result starts before the first row with that count; an error of the server is passed on |
| EndOfRows.OversizedLob | value_read.go:655-664 | A CLOB whose octets or a BLOB whose precision exceed 512 MiB is given up |
| NoPlaceholder.NoPlaceholderEscapes | rows.go:222-281 | For every peer and every byte stream, no row delivered by any call of Next holds a LOB placeholder |
| NoPlaceholder.FetchResolved | rows.go:340-408 | A successful fetch leaves no placeholder in the buffer |
| Values.Placeholders | value_read.go:555-612 | A decoded value holds a placeholder only on top, only at a cell, with that cell's position, and only for a LOB |
| GeneratedKeys.KeysResolved | generated_keys.go:46-131 | No placeholder escapes into a generated-keys result, whatever bytes arrive |
| GeneratedKeys.KeysHonest | generated_keys.go:46-131 | For every announced count, negative and oversized ones included: the keys come back in order with their LOBs in place under the labels of their columns, a failing server's error is passed on, an oversized count is refused, a negative one breaks the session |
| GeneratedKeys.KeysExact | generated_keys.go:46-131 | The keys frame is read to its end with the session alive if and only if the count is not negative and within the cap |
| GeneratedKeys.NegativeCount | generated_keys.go:103-116 | After a negative count the reader waits for an end marker the server does not send, and the session is broken |
| GeneratedKeys.CapLeavesFrame | generated_keys.go:61-68 | An oversized count is refused with the rest of the frame unread and the session alive |
| GeneratedKeys.ReadKeyRows | generated_keys.go:86-116 | The row loops: as many rows as announced, or until the end flag when the count is negative, with every LOB recorded |
| GeneratedKeys.ReadGeneratedKeys | generated_keys.go:46-131 | The reader against its function: on success the keys; every failure but a server error and the cap leaves the session dead without transport |
| GeneratedKeys.FillKeys | generated_keys.go:76-131 | Rows, then deferred LOBs; a failed LOB kills the session |
| Driver.ReadH2Error | errors.go:82-110 | Reads one whole error frame or fails |
| Driver.ReadStatus | errors.go:123-138 | Success for both OK codes, the parsed error for STATUS_ERROR, failure otherwise |
| Driver.ReadChunk | value_read.go:692-718 | One LOB_READ answer: status, length within the chunk size, data |
| Driver.RequestChunk | value_read.go:673-690 | Writes and flushes one LOB_READ for the given offset |
| Driver.FetchLob | value_read.go:655-727 | The chunk loop returns the content up to the first empty chunk, or the failure that stopped it |
| Driver.ReadRow | rows.go:352-370 | Column by column, every placeholder recorded in order with its row and column |
| Driver.ReadFlagged | generated_keys.go:134-163 | One flag and what it announces: a row, the end, an error frame, or nothing readable |
| Driver.ReadBatch | rows.go:340-391 | The flag loop reads exactly one batch and records exactly the placeholders of its rows |
| Driver.ResolveLobs | rows.go:393-405 | Fetches the recorded LOBs in order and writes each into its cell |
| Driver.Session.Abort | session.go:82-93 | The session is dead and has no transport |
| Driver.Session.MarkStreamBroken | session.go:102-107 | The session is dead and has no transport |
| Driver.Session.MarkUnlessAligned | session.go:114-122 | Kills the session exactly when the error is not a fully parsed server error |
| Driver.Session.FinalizeContext | session.go:173-210 | Under a finished context or past its deadline a failure aborts the session, unless the server itself reported the cancellation |
| ResultRows.NewRows | rows.go:75-112 | Opens a result as its function says, with the columns of the metadata frame; a decode failure leaves the session dead without transport, and without a session the connection is bad |
| ResultRows.Rows.FetchRows | rows.go:340-408 | One batch with its LOBs into the buffer; the session dies exactly when the fetch function says it is dead; what came before a failure stays in its fields |
| ResultRows.Rows.FetchMoreRows | rows.go:287-322 | Request, status and batch; a nil transport is a bad connection |
| ResultRows.Rows.Refill | rows.go:240-270 | Asks for the fetch size cut to what is announced; an error sticks; without a session, before or after the fetch, the outcome is an error and never the end |
| ResultRows.Rows.Deliver | rows.go:272-280 | Hands out the first buffered row in full and counts it |
| ResultRows.Rows.Next | rows.go:222-281 | New state, outcome and destination are those of the function the streaming theorems are about; the destination changes only when a row is delivered; an open result without an error ends only by its count, its end flag, or a successful fetch without rows; rows still expected and no session left is a sticky error |
| ResultRows.Rows.SendRequest | rows.go:192-217 | Writes an operation and an identifier and flushes |
| ResultRows.Rows.Close | rows.go:145-189 | Closes result and owned command on a live session only, drops the buffer, calls the callback exactly once; a second Close changes nothing; success is reported exactly when every request that had to be sent was sent |
| ResultRows.CloseHeard | rows.go:145-217 | A server that knows operation 7 as the close of a result and 4 as the close of a command closes exactly this result and this command, and answers nothing |
| ResultRows.FetchWide | rows.go:355-373 | Every buffered row has one value per column, before and after resolution |
| Sections.Connection.Acquire | conn.go:199-211 | Succeeds exactly on a live, idle session, and from then on for nobody else |
| Sections.Connection.Release | conn.go:214-218 | Afterwards the connection can be acquired exactly if its session is still usable |
| Sections.Connection.Close | conn.go:35-64 | The connection is unusable from then on; it rolls back and says goodbye only when idle |
| Sections.Statement.BeginOperation | stmt.go:168-180 | Acquires the connection exactly when the statement is open and the connection can be acquired |
| Sections.Statement.StartClose | stmt.go:29-45 | No operation begins from here on; nothing is left to do exactly if the command was closed before; a debt stays as it was |
| Sections.Statement.Defer | stmt.go:47-54 | Leaves a debt for the next owner that looks, exactly if the command is not closed yet |
| Sections.Statement.Owes | stmt.go:190-195 | Of the four fields the check looks at, the deferral alone decides |
| Sections.Statement.MarkClosed | stmt.go:206-215 | Afterwards nothing begins, is owed or is left to close; a second time changes nothing |
| Sections.Statement.FinishOperation | stmt.go:185-204 | A deferred close is sent, or written off without a usable session; a refused one stays owed; the connection is released in every case |
| Sections.Statement.Close | stmt.go:29-64 | Without interference: sent, found closed, refused, or owed to the operation that has the connection, each exactly when; nothing begins afterwards and the connection is as free as before |
| Ownership.AtMostOneOwner | conn.go:199-218 | In every interleaving at most one goroutine or open result set holds the connection, it is the latest one that acquired it, and it keeps it busy while there is a session |
| Ownership.ReleasedExactlyOnce | conn.go:225-274 | In every interleaving, with result sets closed by anyone and any number of times, each acquire is released exactly once, except for the one still held |
| Ownership.FirstCloseReleases | rows.go:145-189 | An open result set keeps everyone else out and is given back only after its first Close; a later Close changes nothing and frees nobody's connection |
| Ownership.NoAcquireAfterClose | conn.go:35-64 | In every interleaving no acquire succeeds after the connection was closed |
| StatementClose.NoExecuteAfterClose | stmt.go:168-215 | In every interleaving no execution of a command starts after its COMMAND_CLOSE was sent |
| StatementClose.AtMostOneCommand | stmt.go:29-64 | In every interleaving COMMAND_CLOSE is sent at most once if and only if no Close that got the connection sends after the command was marked as closed |
| StatementClose.OneCloseOneCommand | stmt.go:29-64 | What a caller can see to: with any number of Close calls, each of which starts with no other one under way and none deferred that somebody would still send, unless nothing is left to close, COMMAND_CLOSE is sent at most once |
| StatementClose.TwoClosesSendTwice | stmt.go:29-64 | Two overlapping Close calls that send it twice |
| StatementClose.DeferredThenClosedAgain | stmt.go:29-64 | A second Close after the first returned deferred, and the command is sent twice |
| StatementClose.DeferDecides | stmt.go:47-54 | The deferring section settles whether an owner will send the close or it is lost |
| StatementClose.OwnersDuty | stmt.go:185-204 | With any number of Close calls: a deferral found in place by an operation or result set that has yet to look is sent before that hold of the connection is released, while the session stays and the send gets out |
| StatementClose.DeferredCloseSent | stmt.go:29-64 | With any number of Close calls and any failing requests on a session that stays: a deferred close is sent by an owner if and only if, when it was deferred, an operation or open result set of the statement had yet to look for it or was sending it |
| StatementClose.LostDeferral | stmt.go:47-56 | A run in which a deferred close is never sent although nothing fails |
| Transactions.DurableOnlyByCommit | tx.go:92-153 | In every run driver and server agree on autocommit; throughout a run, work done with autocommit off is durable only after the COMMAND_COMMIT of its own transaction was sent after it, if and only if no commit takes effect on work whose own transaction has not sent its commit |
| Transactions.FinishKeeps | tx.go:92-153 | Finishing leaves nothing that enabling autocommit could commit unasked |
| Transactions.FinishDoes | tx.go:92-153 | A successful commit makes exactly the uncommitted work durable, a successful rollback none; autocommit is on again |
| Transactions.ResetLeavesNothing | conn.go:158-194 | A ResetSession without error leaves autocommit on and nothing pending; no ResetSession makes work durable |
| Transactions.CloseKeeps | conn.go:35-64 | Closing makes no work durable |
| Transactions.OneEnding | tx.go:92-126 | In every run a transaction sends at most one commit or rollback, and none before it is finished |
| Transactions.CommitIsOwn | tx.go:92-153 | A call of Commit that takes effect makes only its own transaction's work durable if and only if nothing is pending or it is the current transaction |
| Transactions.StaleCommit | tx.go:92-153 | A run in which a transaction that outlived a reset commits the work of the next one |
| Transactions.RefusedThenTaken | tx.go:92-153 | A run in which it takes that work after the work's own commit was sent and refused |
| Transactions.BeginDoes | tx.go:29-80 | Succeeds exactly when every request it needs does; a transaction that opens is the current one, with autocommit off on both sides and nothing uncommitted; one that does not leaves a live session with autocommit on at both ends unless the request that restores it failed; the requests are autocommit off, the level if one was asked for, autocommit on if that was refused |
| Transactions.FinishAnswers | tx.go:92-153 | Commit and rollback succeed exactly when every request they need does; the requests in order; a refused ending leaves autocommit, pending and durable work as they were |
| Transactions.ResetAnswers | conn.go:158-194 | ResetSession succeeds exactly when every request it needs does; the requests in order |
| Transactions.CloseAsks | conn.go:35-64 | Close sends one rollback exactly on a live session with autocommit off, and ends the session |
| Transactions.TxSession.Begin | tx.go:29-80 | Keeps driver and server in agreement; succeeds exactly when every request it needs does, and then the caller has the only open span of work; a failure on a live session leaves autocommit on at both ends unless the restoring request failed; sends exactly the listed requests; no call makes work durable |
| Transactions.TxSession.End | tx.go:92-153 | A successful commit makes exactly the uncommitted work durable, a rollback none whatever happens; on success autocommit is on again on both sides; a finished transaction refuses and changes nothing |
| Transactions.TxSession.Reset | conn.go:158-194 | The next user finds autocommit on and nothing uncommitted, or the session dead; nothing left uncommitted becomes durable |
| Transactions.TxSession.Shut | conn.go:35-64 | Nothing uncommitted becomes durable, and no call reaches the server any more |
| DecFloat.ParseDecFloat | decfloat.go:60-137 | The scanner computes the grammar's parse of every text |
| DecFloat.String | decfloat.go:142-197 | The builder computes the printed form of every value |
| DecFloat.ParseIsNumeral | decfloat.go:70-136 | Every accepted finite text is a numeral of the grammar, with its unscaled value and scale |
| DecFloat.ParseRendered | decfloat.go:60-137 | Every numeral of the grammar is accepted unless its exponent has more than ten digits or its scale leaves 32 bits |
| DecFloat.NoDigitAtAll | decfloat.go:60-137 | A text without a digit is refused for having none |
| DecFloat.RefusedTails | decfloat.go:60-137 | A number followed by anything but an exponent is refused for that character, and one with an exponent without digits for that |
| DecFloat.ParseMeaning | decfloat.go:70-136 | For every accepted finite text unscaled times ten to the minus scale is the number the text denotes |
| DecFloat.RoundTrip | decfloat.go:142-197 | Parsing the printed text gives the value back if and only if plain notation is used or the exponent has at most ten digits |
| DecFloat.RoundTripInt32 | decfloat.go:142-197 | With at most 2^31 digits every 32-bit scale round-trips |
| DecFloat.PrintInjective | decfloat.go:142-197 | Two values print alike exactly when they are equal |
| DecFloat.NoLeadingZero | decfloat.go:142-197 | No superfluous leading zero is printed: a zero leads only when it is the whole integer part |
| DecFloat.NotationOf | decfloat.go:142-197 | An exponent is printed exactly for a negative scale and when more than five zeros would follow the point, and then after a single digit |
| DecFloat.PrintAfterParse | decfloat.go:60-197 | Print-after-parse is idempotent exactly under the round-trip condition, and two accepted texts print alike exactly when they parse alike |
| Unicode.RunesOfUtf8 | transfer.go:197-208 | Ranging over the UTF-8 form of a text visits exactly its scalars |
| Unicode.DecodeRuneExact | transfer.go:197-208 | For every byte string the rune visited first is the one whose encoding stands there, or U+FFFD for one byte where no encoding does |
| Unicode.DecodeEncoded | transfer.go:431-488 | UTF-16 decode after encode is the identity on every sequence of Unicode scalar values |
| Unicode.EncodeDecoded | transfer.go:431-488 | UTF-16 encode after decode is the identity exactly when there is no unpaired surrogate |
| Unicode.LoneSurrogate | transfer.go:453-488 | Each half of a pair that stands alone is one U+FFFD |
| Unicode.UnitsFitBytes | transfer.go:194-197 | A string never has more UTF-16 units than bytes, so the pre-sized buffer suffices |
| Unicode.Examples | transfer.go:431-488 | The characters of the examples in RFC 3629 and RFC 2781 have the bytes and units given there |
| Unicode.StringRoundTrip | transfer.go:178-371 | A written string reads back with its invalid bytes replaced, leaving what follows |
| Unicode.ValidStringRoundTrip | transfer.go:178-371 | A valid string reads back unchanged |
| Unicode.GetClobCharsPut | value_read.go:779-803 | The 1/2/3-byte form of every unit sequence reads back as those units |
| Unicode.ClobCharIsUtf8 | value_read.go:779-803 | The form of a unit that is not half of a pair is its UTF-8 form |
| Unicode.ClobAgainstString | value_read.go:745-768 | Per-unit decoding equals the string decoder if and only if no high surrogate is directly followed by a low one |
| Transfer.Tr.ReadFull | transfer.go:419-425 | Fills the buffer with the next bytes, or fails when there are too few |
| Transfer.Tr.ReadInt32 | transfer.go:283-292 | Reads a big-endian 32-bit integer |
| Transfer.Tr.ReadInt64 | transfer.go:295-304 | Reads a big-endian 64-bit integer |
| Transfer.Tr.ReadBytes | transfer.go:387-410 | Reads a nullable byte frame within the wire cap |
| Transfer.Tr.WriteBytes | transfer.go:232-244 | Appends a nullable byte frame |
| Transfer.Tr.Flush | transfer.go:59-64 | Sends the buffer; the answer becomes readable |
| Transfer.IsAscii | transfer.go:216-223 | True exactly for bytes below 0x80 |
| Transfer.Utf16Encode | transfer.go:431-450 | The units of the string, never more than its bytes |
| Transfer.Utf16Decode | transfer.go:453-488 | The text of the units with a replacement for every unpaired surrogate |
| Strings.FillAscii | transfer.go:184-193 | The ASCII fast path fills the code units of the string |
| Strings.FillGeneral | transfer.go:194-211 | The general path fills the same code units within the pre-sized buffer |
| Strings.WriteString | transfer.go:178-212 | Both paths emit the frame of the plain encoder, for every string |
| Strings.Assemble | transfer.go:351-359 | The units of the received bytes, and whether all are ASCII |
| Strings.Compact | transfer.go:360-367 | In-place compaction leaves the low bytes at the front |
| Strings.LowBytesAreText | transfer.go:361-368 | On ASCII units the low bytes are the text of the full decoder |
| Strings.ReadString | transfer.go:327-371 | Reads exactly what the full decoder reads, with or without the shortcut |
| Wire.SignedRoundTrip | transfer.go:133-304 | Two's complement in big-endian bytes reads back for every value of the width |
| Wire.BytesRoundTrip | transfer.go:133-304 | Every byte string is the encoding of the integer it decodes to |
| Wire.MostSignificantFirst | transfer.go:133-304 | The first byte is the most significant one |
| Wire.GetBytesPut | transfer.go:232-410 | A byte frame within the cap reads back and leaves what follows |
| Decoder.ReadValue | value_read.go:43-141 | One value exactly as its frame says; terminates on every stream; at most one LOB is recorded, only outside ARRAY and ROW, and then it is the value |
| Decoder.ReadElems | value_read.go:475-481 | The element loop of ARRAY and ROW values |
| Decoder.ReadArray | value_read.go:446-483 | ARRAY with its legacy header and the element cap |
| Decoder.ReadRowValue | value_read.go:489-515 | ROW with the field cap |
| Decoder.ReadLobRef | value_read.go:564-612 | A fetch-on-demand reference is recorded with its position, or rejected when nested |
| Decoder.ReadLob | value_read.go:555-644 | Reference, inline BLOB or inline CLOB, by the length field |
| Decoder.ReadInlineClob | value_read.go:745-768 | Character by character into UTF-8, then the magic number |
| Decoder.ReadClobChar | value_read.go:779-803 | One character of one, two or three bytes |
| Decoder.ReadInterval | value_read.go:247-280 | Ordinal, leading field, and the remaining field of the qualifiers that have one, which `Encoding.IntervalBody` names by number |
| Decoder.ReadText | value_read.go:107-121 | A nullable string; a DECFLOAT text must also parse |
| Encoding.ValueRoundTrip | value_read.go:43-141 | Every value frame a server may send, given by numeric type code, layout and limits, followed by anything, decodes to the value it stands for and leaves what follows |
| Encoding.FramesRoundTrip | value_read.go:446-515 | The same for the elements of nested containers |
| Encoding.IntervalBody | value_read.go:247-307 | An interval payload has 17 bytes with the remaining field if the ordinal, or its complement, is 5 to 12, else 9 bytes without, and reads back |
| Encoding.KnownTypes | value_read.go:43-141 | Only type codes 0 to 31 without 18 and 23 are decoded |
| Encoding.LimitsHold | value_read.go:432-644 | Whatever is decoded declares lengths and counts within the limits, an inline LOB ends in its magic number, and no reference is nested |
| Encoding.DecfloatParses | value_read.go:107-121 | A decoded DECFLOAT is null or a text that is a decimal |
| Values.ValueLocal | value_read.go:43-141 | A stream that starts with the bytes of one decoded value decodes to that value, whatever follows |
| Values.DateRoundTrip | value_read.go:886-891 | Packed dates keep every year, negative ones included; the low five bits are the day, the next four the month |
| Values.DateFields | value_read.go:886-891 | Every packed number has the year, month and day it is the sum of |
| Values.ClockRoundTrip | value_read.go:901-909 | Nanoseconds of the day keep every wall-clock reading and are its hours, minutes and seconds in nanoseconds |
| Metadata.ReadTypeInfo | typeinfo.go:148-290 | One type frame exactly as its function says; terminates on every stream |
| Metadata.SkipEnum | typeinfo.go:295-307 | Enumerators are read and dropped |
| Metadata.SkipRowType | typeinfo.go:337-354 | Field names and types are read and dropped |
| Metadata.SkipGeometry | typeinfo.go:308-335 | Geometry details are read and dropped by their kind |
| Metadata.ReadResultMeta | metadata.go:58-149 | Column after column, within the cap |
| TypeInfos.TypeRoundTrip | typeinfo.go:50-290 | Every type a server can describe, with identifier, attributes and resulting value type, precision and scale written out per type, nested or not, followed by anything, reads back with ROW, ENUM and GEOMETRY details erased and leaves what follows |
| TypeInfos.FlatRoundTrip | typeinfo.go:50-290 | The same for each type without nested types, unknown identifiers included, which count as NULL |
| TypeInfos.MetaRoundTrip | metadata.go:58-149 | Column metadata (alias, schema, table, name, type, identity, nullability), followed by anything, reads back field by field and leaves what follows |
| Params.ParamsRoundTrip | value_write.go:31-262 | Every list of encodable arguments, written one after another and followed by anything, reads back as the values they stand for under their announced types and leaves exactly what follows |
| Params.ParamRight | value_write.go:31-104 | What is written for an argument is the frame of a sendable value of the announced type with the argument's meaning: a date at midnight, a clock, a clock with offset, all three, or date and clock |
| Params.CodeSent | value_write.go:31-217 | The first four bytes are the announced type where the argument can have it, else its natural one; only foreign values and texts that are no UUID for a UUID parameter are refused |
| Params.UuidParam | value_write.go:107-143 | Every 128-bit UUID, given as its text, is written as its two halves |
| Params.IntFits | value_write.go:45-48 | The decimal text of every 64-bit integer fits and parses as a DECFLOAT |
| Params.DecimalParam | value_write.go:107-143 | A decimal bound as its printed text reads back as that text, which parses to the decimal |
| ParamWriter.WriteValue | value_write.go:31-104 | Appends exactly the argument's frame, or nothing when it cannot be encoded |
| ParamWriter.WriteStringValue | value_write.go:107-143 | Appends the string under the code its parameter type selects |
| ParamWriter.WriteTimeValue | value_write.go:145-217 | Appends the temporal layout its parameter type selects; it reads back as the date at midnight for DATE, the clock for TIME, clock and offset for TIME WITH TIME ZONE, all three for TIMESTAMP WITH TIME ZONE, else date and clock |
| ParamWriter.WriteValues | rows.go:642-653 | Appends the arguments one after another as the list the round trip is about; when one is refused exactly those before it are in the buffer |
| Uuid.RoundTrip | value_read.go:541-548 | For all 128 bits, parsing the printed text gives both halves back |
| Uuid.FormatLower | value_read.go:541-548 | The printed text consists of lower-case hexadecimal digits and hyphens |
| Uuid.AcceptsExactly | value_write.go:239-262 | Which trimmed texts are accepted: 32 hexadecimal digits, or 36 bytes with the four hyphens in place that leave more than sixteen hexadecimal digits |
| Uuid.SpacesIgnored | value_write.go:239-262 | Unicode white space before and after a text, rune by rune as its UTF-8 bytes, makes no difference |
| Uuid.Compact | value_write.go:239-262 | The compact form of 32 hexadecimal digits parses to the halves it denotes |
| Uuid.HexRanges | value_write.go:239-262 | Which characters are hexadecimal digits, of either case, at the ends of their ranges |
| Uuid.PanicsExactly | value_write.go:239-262 | Slicing leaves the range exactly if the text, trimmed of Unicode white space, has 36 bytes with the four hyphens in place and more than twenty hyphens in all |
| Uuid.PanicExample | value_write.go:239-262 | Such a text |
| Interval.ReadFormat | value_read.go:337-375 | For every leading field, reading a printed normalized interval gives leading and remaining field back |
| Interval.ReadTextFormat | value_read.go:337-375 | The text alone gives back the qualifier and both fields |
| Interval.OrdinalNames | value_read.go:291-324 | The name of every wire ordinal |
| Interval.WireTextReads | value_read.go:247-280 | A wire interval prints its qualifier, its remaining field, and its leading field with the sign that the ordinal byte carries |
| Interval.FormatInjective | value_read.go:337-375 | Different normalized intervals, of the same or of different qualifiers, have different texts |
| Interval.FieldRanges | value_read.go:337-375 | For every qualifier the printed sub-fields lie in their ranges and sum back to the remaining field |
| Interval.FractionText | value_read.go:388-393 | Trimming trailing zeros keeps the fraction |
| Interval.SignSurvives | value_read.go:247-280 | For every leading field, the sign of a negative wire interval is lost exactly if that field is zero or the smallest integer |

## Left out

- GeneratedKeys.ReadGeneratedKeys: returns the keys without the single numeric key that the driver also derives from them.
- Decoder.ReadElems: ARRAY and ROW values are kept as their decoded elements; the text rendered from them with Go's `%v` is not modelled.
- Decoder.ReadArray: keeps the decoded elements; the text rendered from them is not modelled.
- Decoder.ReadRowValue: keeps the decoded fields; the text rendered from them is not modelled.
- ResultRows.Rows.Close: the callback is counted; the error it may return is that of the statement's own close, which `Sections.Statement.FinishOperation` models.
- Ownership.ReleasedExactlyOnce: testing and setting the closed flag of a result set is one step, because the field is not guarded and `database/sql` serializes the calls.
- Sockets, TLS, dialing, deadlines, the cancel side channel and goroutine timers; a finished context is an input of `Driver.Session.FinalizeContext`.
- Errors of buffered writes: in the model only a flush fails.
- `ReadValue` without a collector, which fetches a LOB in the middle of a batch.
- Prepare, execute and cancel requests, and a driver-wide claim that a live session is aligned, which does not hold for them.
- A nil session that a running operation meets after `conn.Close` was called on a busy connection, which `database/sql` rules out.
- The type-of-column hint of the value decoder, which has no effect on what is decoded.
- Floating-point values are bit patterns; their decimal text and their narrowing to 32 bits are given with the argument.
- Time zones and the normalization `time.Date` applies to fields out of range: a time is its wall-clock fields and an offset.
- The extraction of a single numeric key (`SingleInt64`), the isolation-level table, DSN parsing, logging, type-name and scan-type tables, and password hashing, which would only add easy members.
- Isolation-level restoration after a failed commit, which ResetSession does not attempt.
