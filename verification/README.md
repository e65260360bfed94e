# Verified model of the judge's server core

A Dafny model of the hand-written state machines this online judge runs on: its network library
(byte buffer, HTTP parser, connection, event loop, timer wheel), its MySQL connection pool, the
dispatcher that spreads judge jobs over remote workers, and the HTML escaping of server pages.
`dafny verify dfyconfig.toml` checks the whole project.

Objects whose methods update fields are classes (`Buffer`, `HttpContext`, `Connection`, `TimerWheel`,
`MySqlPool`, `JudgeWorkerBalancer`, `JudgeManager`); each method is proved equal to a function on the
object's value, and the properties are proved of those functions over all inputs and all runs. What
threads do to each other (the pool, the job queue, the event loop, the balancer under judge threads) is a
transition system whose steps are the lock-held sections, with arbitrary interleaving.

| file | content |
|---|---|
| Text.dfy, Arith.dfy, Multisets.dfy | substring search, line pieces; division facts; multiset facts |
| Buffer.dfy | the sliding byte buffer as a byte queue |
| UrlCodec.dfy | splitting, percent-coding, query strings |
| Multipart.dfy, MultipartRoundTrip.dfy | multipart/form-data parsing and its inverse |
| HttpContext.dfy | the incremental request parser |
| HttpFraming.dfy | chunking independence and message framing |
| HttpServer.dfy, Connection.dfy, ConnectionLife.dfy | message loop, re-entrant shutdown, life cycle |
| EventLoop.dfy | task hand-off through the eventfd |
| TimerModel.dfy, TimerWheel.dfy | deadline map and the wheel that refines it |
| MySqlPool.dfy, PoolProtocol.dfy | pool and handles; the pool under concurrent clients |
| Balancer.dfy, BalancerRuns.dfy | worker selection; hot-spot bound and fairness |
| JudgeManager.dfy, JudgeQueue.dfy | retries and failover; the job queue |
| HtmlEscape.dfy | HTML escaping |

Foreign calls are parameters with arbitrary answers: the request-line regular expression and `std::stol`
(`Grammar`), the request handlers and the error page (`App`), socket results (the events of
`ConnectionLife`), `mysql_ping` and connecting (the steps of `PoolProtocol`), the worker's reply, the clock and
the health check (arguments of `JudgeManager.ExecuteJob`). Bytes are modelled as characters.

## Findings of the model

- A wheel of 60 slots keeps a delay exactly if and only if it is between 1 and 60 ticks (`SpanExact`).
- Percent-coding is undone by decoding exactly for strings of ASCII bytes and 0xFF: a byte from 0x80 on is
  sign-extended before it is printed and becomes `%FF` (`PercentCodingRoundTrip`).
- A multipart part whose boundary follows the blank line of its headers directly gets the rest of the body
  as its content, because an unsigned size wraps round (`ContentIsDelimited`, `BoundaryBecomesContent`).
- Requests pipelined behind a reply that closes are answered only if they arrived in the same read
  (`SplitLosesReply`). Splitting the bytes into reads loses no reply exactly if no message is finished after
  a read that completed a request whose reply closes (`ReadsAnswerAll`), so a peer that asks to keep the
  connection alive loses nothing (`KeepAliveInReads`); what is sent is always a prefix of the replies to one
  read (`ReadsAreOneRead`).
- A `Shutdown` run after the release would revive a connection, which then closes a second time; the HTTP
  server never does this (`LateShutdownRevives`).
- The event loop never sleeps on a task unless the `EINTR` branch of `WeakUpEventFd` (src/net/muduo.hpp:630)
  is taken, and `WakeUpLostExactly` says of every run when that leaves a task unannounced. The eventfd is
  non-blocking (src/net/muduo.hpp:607), so its write does not wait and should not be interrupted: this is what
  that branch would do, not something the loop is expected to meet.
- A query piece without `=` makes the whole request a 400 (`LineRejected`), while empty pieces are skipped
  (`QueryAccepted`).
- Failover needs as many retries as there are workers online, and fewer are never enough for every outcome
  (`FailoverCompletes`, `FewerRetriesFail`). `DEPLOY.md` only says that other workers are retried.

## Model

| member | source | states |
|---|---|---|
| `ByteBuffer.FirstLine` | src/net/muduo.hpp:127-139 | a line is the prefix up to and including the first newline, and empty exactly while there is none |
| `ByteBuffer.Buffer.constructor` | src/net/muduo.hpp:35 | a new buffer is an empty queue with the default capacity of 1024 |
| `ByteBuffer.Buffer.MoveReadOffset` | src/net/muduo.hpp:48-53 | drops exactly the first len queued bytes |
| `ByteBuffer.Buffer.MoveWriteOffset` | src/net/muduo.hpp:55-59 | appends exactly the bytes behind the write offset |
| `ByteBuffer.Buffer.EnsureWriteSpace` | src/net/muduo.hpp:61-76 | makes room for len bytes by sliding or growing and leaves the queued bytes alone; capacity stays within max(1024, largest readable + 2 * len) |
| `ByteBuffer.Buffer.CopyDown` | src/net/muduo.hpp:68 | the compaction copy is right although source and target overlap |
| `ByteBuffer.Buffer.Write` | src/net/muduo.hpp:78-84 | puts the bytes behind the write offset without changing the queue |
| `ByteBuffer.Buffer.WriteAndPush` | src/net/muduo.hpp:85-88 | appends the bytes to the queue |
| `ByteBuffer.Buffer.WriteBufferAndPush` | src/net/muduo.hpp:96-102 | appends another buffer's queue and only reads that buffer |
| `ByteBuffer.Buffer.ReadAsStringAndPop` | src/net/muduo.hpp:113-126 | what is returned and what stays make up the old queue |
| `ByteBuffer.Buffer.GetLine` | src/net/muduo.hpp:132-139 | returns the first complete line, or the empty string without one |
| `ByteBuffer.Buffer.GetLineAndPop` | src/net/muduo.hpp:140-144 | takes exactly the first complete line off the queue |
| `ByteBuffer.Buffer.Clear` | src/net/muduo.hpp:146-150 | empties the queue |
| `ByteBuffer.Replay` | src/net/muduo.hpp:29-151 | every sequence of operations, writing and moving the offsets included, behaves as on a byte queue with the written bytes pending behind it, and the capacity never exceeds max(1024, largest readable + 2 * len over all demands for room) |
| `UrlCodec.UrlEncode` | src/net/http.hpp:229-247 | encodes byte by byte, sign extension of bytes from 0x80 on included |
| `UrlCodec.UrlDecode` | src/net/http.hpp:258-277 | decodes from left to right; an incomplete escape stays as it is |
| `UrlCodec.PercentCodingRoundTrip` | src/net/http.hpp:224-277 | decoding undoes encoding if and only if every byte is ASCII or 0xFF |
| `UrlCodec.EncodedAlphabet` | src/net/http.hpp:225-228 | encoded text holds only unreserved characters, percent signs and plus signs |
| `UrlCodec.EncodedForm` | src/net/http.hpp:229-247 | letters, digits and -._~ stay, a space becomes + in queries, every other ASCII byte becomes its upper-case escape |
| `UrlCodec.HexDigits` | src/net/http.hpp:248-257 | both cases of a digit have its value, the letters behind F count on, and anything else is -1 |
| `UrlCodec.EscapeDecodes` | src/net/http.hpp:258-277 | an escape decodes to its value whatever the case of its digits |
| `UrlCodec.PlainDecodes` | src/net/http.hpp:258-277 | + is a space in queries and itself in paths, and a % without two bytes behind it stays |
| `UrlCodec.Split` | src/net/http.hpp:167-186 | the loop yields the nonempty pieces between separators, for every separator that is not empty |
| `UrlCodec.SplitJoined` | src/net/http.hpp:167-186 | of any pieces joined by a one-byte separator the loop finds exactly the nonempty ones, in order |
| `UrlCodec.SplitPrinted` | src/net/http.hpp:642 | splitting a printed query at & finds exactly the printed bindings |
| `UrlCodec.ParseQuery` | src/net/http.hpp:639-654 | binds piece after piece, keeps earlier bindings, and stops at a piece without = |
| `UrlCodec.BindAllStops` | src/net/http.hpp:644-650 | a piece without = ends the loop in failure, with exactly the bindings in front of it made |
| `UrlCodec.QueryAccepted` | src/net/http.hpp:642-654 | a query is accepted if and only if each of its pieces is empty or has a = |
| `UrlCodec.QueryRoundTripBytes` | src/net/http.hpp:639-654 | any printed bindings parse back, first one winning, with bytes from 0x80 on turned into 0xFF |
| `UrlCodec.QueryRoundTrip` | src/net/http.hpp:639-654 | for codable keys and values the parsed map has exactly the keys printed, each with its first value |
| `Multipart.Trim` | src/net/http.hpp:525-533 | drops leading and trailing blanks and tabs |
| `Multipart.ParsePartHeaders` | src/net/http.hpp:570-606 | reads name, filename and type from the header lines, later lines overriding earlier ones |
| `Multipart.ParseDisposition` | src/net/http.hpp:588-602 | takes name= and filename= from the tokens between semicolons, unquoted |
| `Multipart.PartAt` | src/net/http.hpp:559-619 | the cursor strictly increases with every part, on every body |
| `Multipart.ParsePart` | src/net/http.hpp:559-615 | one turn of the part loop: where it stops, what headers and content it takes, where the next boundary is |
| `Multipart.ParseMultipartBody` | src/net/http.hpp:546-621 | the loop ends on every body and collects the files of all its parts, the last of a name winning |
| `MultipartRoundTrip.HeadersRoundTrip` | src/net/http.hpp:570-606 | a printed header block yields exactly the name, filename and trimmed type printed |
| `MultipartRoundTrip.BoundaryFound` | src/net/http.hpp:608-615 | behind content free of the boundary the next boundary found is the one printed |
| `MultipartRoundTrip.PartRoundTrip` | src/net/http.hpp:555-619 | a printed part parses back to its headers and content, ending at the following boundary |
| `MultipartRoundTrip.MultipartRoundTrip` | src/net/http.hpp:546-621 | printing any list of parts and parsing the body recovers every filename, content and trimmed type, the last file of a name winning; parts without a filename give no file, and preamble and epilogue do not matter |
| `MultipartRoundTrip.ContentIsDelimited` | src/net/http.hpp:607-617 | the content taken is free of the boundary if and only if the boundary does not occur right behind the blank line |
| `MultipartRoundTrip.BoundaryBecomesContent` | src/net/http.hpp:607-617 | a body on which it does: the closing boundary is taken as content |
| `MultipartRoundTrip.StopsExactly` | src/net/http.hpp:553-613 | behind ended headers the walk stops if and only if the delimiter was the closing one or no boundary follows |
| `MultipartRoundTrip.UnendedHeadersStop` | src/net/http.hpp:566-569 | headers without a blank line end the walk |
| `MultipartRoundTrip.NoBoundaryNoFiles` | src/net/http.hpp:547-551 | without a boundary parameter there are no files |
| `MultipartRoundTrip.TrimmedExact` | src/net/http.hpp:525-533 | exactly the blanks and tabs at both ends go |
| `MultipartRoundTrip.LoweredExact` | src/net/http.hpp:584-586 | header names are compared letter by letter in lower case |
| `MultipartRoundTrip.UnquotedExact` | src/net/http.hpp:594-600 | a value loses one quote at either end, if it is there |
| `MultipartRoundTrip.PlainLineIgnored` | src/net/http.hpp:578-581 | a header line without a colon changes nothing |
| `MultipartRoundTrip.OtherHeaderIgnored` | src/net/http.hpp:587-605 | neither does a header of another name |
| `HttpMessage.HttpContext.constructor` | src/net/http.hpp:761 | a new context waits for a request line with status 200 |
| `HttpMessage.HttpContext.ReSet` | src/net/http.hpp:762-766 | a reset context is a new context |
| `HttpMessage.HttpContext.ParseHttpLine` | src/net/http.hpp:622-656 | takes verb, decoded path, version and query over from the regex groups, or fails with 400 |
| `HttpMessage.HttpContext.RecvHttpLine` | src/net/http.hpp:657-684 | the line stage: wait, 414, 400, or go on to the headers, with the line taken off the buffer |
| `HttpMessage.HttpContext.ParseHttpHead` | src/net/http.hpp:718-732 | one header line becomes a binding unless its key is bound already, or fails with 400 |
| `HttpMessage.HttpContext.RecvHttpHead` | src/net/http.hpp:685-717 | the header loop consumes line after line until a blank line, an error, or missing bytes |
| `HttpMessage.HttpContext.RecvHttpBody` | src/net/http.hpp:733-759 | the body stage takes what is missing and no more, and parses multipart bodies once complete |
| `HttpMessage.HttpContext.RecvHttpRequest` | src/net/http.hpp:771-780 | enters at the current stage and falls through the following ones |
| `HttpFraming.LineResumes` | src/net/http.hpp:657-684 | the line stage stopped and resumed is the line stage on all bytes |
| `HttpFraming.HeadResumes` | src/net/http.hpp:685-717 | the header stage stopped and resumed is the header stage on all bytes |
| `HttpFraming.BodyResumes` | src/net/http.hpp:733-759 | the body stage stopped and resumed is the body stage on all bytes |
| `HttpFraming.RecvResumes` | src/net/http.hpp:771-780 | two calls on two pieces of a stream are one call on both, whatever stage the context is in |
| `HttpFraming.RecvIdempotent` | src/net/http.hpp:771-780 | a call without new bytes changes nothing |
| `HttpFraming.ChunkingIndependence` | src/net/http.hpp:657-780 | for every stream and every split, chunk by chunk ends in the same stage, status and request as one call, and with the same leftover bytes unless the message is erroneous |
| `HttpFraming.LineOutcome` | src/net/http.hpp:660-675 | the line stage waits exactly for streams without a newline of at most 8192 bytes, and answers 414 exactly when the first 8192 bytes of a longer one hold none |
| `HttpFraming.FieldRoundTrip` | src/net/http.hpp:718-732 | a printed header field is read back as one binding |
| `HttpFraming.FieldsRoundTrip` | src/net/http.hpp:685-717 | a printed header section is read back with the first binding of each key, up to its blank line |
| `HttpFraming.MessageRoundTrip` | src/net/http.hpp:657-780 | a well-formed message is read exactly, to a complete request with its fields and body, and the bytes behind it stay in the buffer |
| `HttpFraming.DeclaredByFields` | src/net/http.hpp:404-446 | length, body type and closing of a request are what the first Content-Length, Content-Type and Connection fields say |
| `HttpFraming.LineRejected` | src/net/http.hpp:622-656 | a request line fails, with 400, if and only if it does not match or a piece of its query has no = |
| `HttpFraming.LineRefused` | src/net/http.hpp:672-684 | a complete request line is answered 414 when longer than 8192 bytes and 400 when it fails |
| `HttpFraming.FieldRejected` | src/net/http.hpp:718-732 | a header line fails, with 400, if and only if it holds no colon with a space behind it |
| `HttpFraming.BareLineFeed` | src/net/http.hpp:705-724 | fields and the blank line may end in LF as well as in CRLF |
| `HttpFraming.HeaderWaits` | src/net/http.hpp:688-699 | behind good lines the parser waits for the next one, and answers 414 beyond 8192 bytes |
| `HttpFraming.HeaderRefused` | src/net/http.hpp:700-713 | a header line is answered 414 when longer than 8192 bytes and 400 when it is neither blank nor a field |
| `HttpFraming.RequestLineRoundTrip` | src/net/http.hpp:631-654 | from a percent-coded path and a printed query the parser recovers path and bindings, and the upper-case verb from any spelling |
| `HttpFraming.VerbIsUpper` | src/net/http.hpp:631-632 | every spelling of a verb gives the upper-case verb |
| `HttpServer.CompletionConsumes` | src/net/http.hpp:771-780 | every completed request consumes at least one byte |
| `HttpServer.ServeIdempotent` | src/net/http.hpp:941-986 | what the message loop leaves in the buffer cannot be answered yet: running it again does nothing |
| `HttpServer.ServeResumes` | src/net/http.hpp:941-986 | the answers to two batches of bytes add up to those to both at once, unless the first batch failed |
| `HttpServer.OneReplyPerRequest` | src/net/http.hpp:941-986 | on every byte stream the loop sends one reply per completed request, in order, then one error page exactly if the parser rejects a message, and closes exactly if it does or some reply asks for it |
| `HttpServer.PipelinedMessages` | src/net/http.hpp:941-986 | pipelined well-formed messages get exactly one reply each, the handler's, in order, and nothing is left over |
| `HttpServer.MessagesAreRequests` | src/net/http.hpp:941-986 | the requests completed on pipelined well-formed messages are, one by one, what the messages stand for |
| `HttpServer.CloseIsAsked` | src/net/http.hpp:438-444 | a request closes if and only if the first Connection field of its message is not keep-alive |
| `HttpServer.PipelinedThenError` | src/net/http.hpp:951-959 | behind them a rejected message gets exactly one error page, last, and the connection closes |
| `HttpConnection.Connection.constructor` | src/net/muduo.hpp:1013-1015 | a connection starts out CONNECTING, with empty buffers, nothing monitored for writing and no release queued |
| `HttpConnection.Connection.Established` | src/net/muduo.hpp:925-935 | asserts CONNECTING, goes to CONNECTED and installs a new parser context |
| `HttpConnection.Connection.Send` | src/net/muduo.hpp:1047-1053 | the bytes go to the output buffer and write interest goes on |
| `HttpConnection.Connection.SendInLoop` | src/net/muduo.hpp:958-964 | a disconnected connection accepts nothing; otherwise the bytes are appended and write interest is on |
| `HttpConnection.Connection.OnMessage` | src/net/http.hpp:941-986 | the re-entrant loop ends, and leaves exactly what the plain sequential loop leaves: context, bytes, replies and closing |
| `HttpConnection.Connection.HandleOne` | src/net/http.hpp:942-984 | one turn of the loop leaves the same outcome of the whole message, with fewer bytes to go unless it is the last |
| `HttpConnection.Connection.Shutdown` | src/net/muduo.hpp:966-983 | goes to DISCONNECTING, handles pending input, then waits for the output to drain or queues the release |
| `HttpConnection.Connection.HandleRead` | src/net/muduo.hpp:856-878 | an error queues the release; bytes are buffered and handled unless the connection is closing |
| `HttpConnection.Connection.HandleWrite` | src/net/muduo.hpp:880-902 | sent bytes leave the front of the output; a drained closing connection queues its release |
| `HttpConnection.Connection.HandleClose` | src/net/muduo.hpp:904-913 | pending input is handled once more, then the release is queued |
| `HttpConnection.Connection.ReleaseInLoop` | src/net/muduo.hpp:937-956 | the first release disconnects and calls the closed callback, later ones do nothing |
| `HttpConnection.MessageTurn` | src/net/http.hpp:964-984 | after a reply is sent the rest of the message loop is the same whether the shutdown re-enters it or not |
| `ConnectionLife.EveryLife` | src/net/muduo.hpp:856-983 | in every life bytes sent plus output are all bytes accepted, write interest is on exactly while output waits, the closed callback runs at most once, exactly when disconnected, and a closing connection drains or has its release queued |
| `ConnectionLife.LifeSound` | src/net/muduo.hpp:937-956 | every event keeps these facts, and DISCONNECTED is absorbing |
| `ConnectionLife.ReleasedOnlyDrained` | src/net/muduo.hpp:893-900 | without I/O error, peer close or inactivity a released connection has sent everything it accepted |
| `ConnectionLife.LostIsReleased` | src/net/muduo.hpp:856-913 | every life with an I/O error, a hang-up or a timeout in it ends released or with its release queued |
| `ConnectionLife.LossAnswersInput` | src/net/muduo.hpp:880-913 | a failed send or a hang-up answers the input still buffered and queues one release; a failed read or a timeout only queues it |
| `ConnectionLife.ShutdownAnswersInput` | src/net/muduo.hpp:966-983 | a shutdown answers the input still buffered and queues the release exactly if nothing is left to send |
| `ConnectionLife.LateShutdownRevives` | src/net/muduo.hpp:966-983 | a shutdown run after the release always leaves DISCONNECTED; a release queued behind it, as one is when there is nothing to answer or send, runs the closed callback again |
| `ConnectionLife.TwoReads` | src/net/muduo.hpp:856-878 | two reads leave the state of one read of both while the first does not close, and get the same replies if and only if no reply to the first closes or the second finishes no message |
| `ConnectionLife.ReadsAreOneRead` | src/net/muduo.hpp:856-878 | however the peer's bytes are split into reads, the replies are a prefix of those to one read, and the whole state is the same while the connection stays open |
| `ConnectionLife.AnsweredUntilClosing` | src/net/muduo.hpp:872-877 | the reads up to the first that closes are answered as one read of them, the later ones not at all |
| `ConnectionLife.ReadsAnswerAll` | src/net/muduo.hpp:856-878 | a split into reads gets every reply if and only if no message is finished after a read that completed a request whose reply closes |
| `ConnectionLife.SplitLosesReply` | src/net/muduo.hpp:872-877 | of two well-formed messages, the first answered by a reply that closes, both are answered in one read and only the first in two |
| `ConnectionLife.PipelinedInReads` | src/net/http.hpp:941-986 | well-formed messages whose replies do not close, cut into reads anywhere, get exactly their replies in order, and the connection waits for more |
| `ConnectionLife.KeepAliveInReads` | src/net/http.hpp:823-853 | with handlers that leave Connection alone this holds of all messages that ask to keep alive |
| `ConnectionLife.Live` | src/net/muduo.hpp:817-983 | the connection object goes through every possible life as the model does |
| `EventLoop.TasksRunInOrder` | src/net/muduo.hpp:595-605 | in every interleaving each queued task runs at most once, in queue order |
| `EventLoop.TurnRunsAll` | src/net/muduo.hpp:650-664 | a turn of the loop runs every waiting task, in order, and polls again |
| `EventLoop.NoLostTask` | src/net/muduo.hpp:650-686 | without an interrupted write: outside the window between read and swap a waiting task is announced by the eventfd or by a producer about to write; a loop that sleeps for good has run everything |
| `EventLoop.WakeUpLostExactly` | src/net/muduo.hpp:595-638 | in every run, interrupted reads and writes included: a waiting task is unannounced if and only if something was pushed since the last swap, nothing was written since the last read, and no push still has its write before it |
| `EventLoop.InterruptedWriteLoses` | src/net/muduo.hpp:627-638 | a run that takes the EINTR branch of the write and leaves a task with nobody to wake the loop |
| `TimerModel.SpanExact` | src/net/muduo.hpp:533 | the wheel keeps a delay exactly if and only if 1 <= delay <= 60 |
| `TimerModel.FiresExactlyOnce` | src/net/muduo.hpp:530-552 | after its last add or refresh an uncancelled timer is alive for exactly its span of ticks and fires exactly once, in the last one; the span is the delay if and only if it is 1 to 60 |
| `TimerModel.RefreshRestarts` | src/net/muduo.hpp:530-552 | a timer added with a delay and refreshed while alive fires exactly once, its span after the last refresh, however often it was refreshed before |
| `TimerModel.RefreshProlongs` | src/net/muduo.hpp:537-552 | a refresh prolongs every timer alive, and a cancelled one stays cancelled |
| `TimerModel.CancelStops` | src/net/muduo.hpp:553-560 | after a cancel the callback does not run, whatever follows short of a new add, and the timer lives on to its deadline |
| `TimerModel.OthersUnaffected` | src/net/muduo.hpp:530-560 | adding, refreshing or cancelling one timer changes the firing of no other |
| `TimerModel.CanceledNeverFires` | src/net/muduo.hpp:553-560 | a cancelled timer never fires, whatever refreshes follow |
| `TimerModel.AbsentNeverFires` | src/net/muduo.hpp:537-542 | an id without a timer does not fire and is not revived by a refresh |
| `TimerWheel.TimerWheel.constructor` | src/net/muduo.hpp:562-566 | an empty wheel is the empty deadline map |
| `TimerWheel.TimerWheel.TimerAddInLoop` | src/net/muduo.hpp:530-536 | adds the deadline to the map |
| `TimerWheel.TimerWheel.TimerRefreshInLoop` | src/net/muduo.hpp:537-552 | moves the deadline, and nothing else; the branch for a dead weak pointer is unreachable |
| `TimerWheel.TimerWheel.LockSucceeds` | src/net/muduo.hpp:543-548 | every task in the id map still has references |
| `TimerWheel.TimerWheel.TimerCancelInLoop` | src/net/muduo.hpp:553-560 | marks the timer cancelled and keeps its deadline |
| `TimerWheel.TimerWheel.DropRef` | src/net/muduo.hpp:464-467 | the last reference takes the task with it: callback unless cancelled, then removal from the id map |
| `TimerWheel.TimerWheel.ClearSlot` | src/net/muduo.hpp:521 | clearing the slot kills exactly the tasks whose deadline has come and runs each callback once |
| `TimerWheel.TimerWheel.RunTimerTask` | src/net/muduo.hpp:519-522 | one tick of the deadline map |
| `TimerWheel.TimerWheel.OnTime` | src/net/muduo.hpp:523-529 | as many ticks of the deadline map as the timer expired |
| `TimerWheel.TimerWheel.HasTimer` | src/net/muduo.hpp:574-580 | holds exactly while the timer is alive |
| `TimerWheel.Replay` | src/net/muduo.hpp:473-581 | in every run the wheel is the deadline map, and the callbacks of each tick are the model's, each id once |
| `MySqlPool.MySqlPool.constructor` | src/db/mysql_pool.cpp:39-43 | a maximum of zero counts as one |
| `MySqlPool.MySqlPool.TryAcquire` | src/db/mysql_pool.cpp:91-122 | what a client holding the lock gets: refusal, an idle connection, a place to create one, or waiting |
| `MySqlPool.MySqlPool.ForgetOne` | src/db/mysql_pool.cpp:111-113 | lowers the unsigned total, wrapping below zero |
| `MySqlPool.MySqlPool.Release` | src/db/mysql_pool.cpp:135-160 | a connection is closed when dead or after shutdown and becomes idle otherwise; null changes nothing |
| `MySqlPool.MySqlPool.Shutdown` | src/db/mysql_pool.cpp:47-58 | closes exactly the idle connections, once |
| `MySqlPool.PooledMySqlConnection.Move` | src/db/mysql_pool.cpp:12-17 | moving empties the source handle |
| `MySqlPool.PooledMySqlConnection.Release` | src/db/mysql_pool.cpp:29-37 | returns the connection of a full handle to its pool and empties the handle |
| `MySqlPool.PooledMySqlConnection.Assign` | src/db/mysql_pool.cpp:19-27 | returns the old connection first, takes over the new one; self-assignment keeps it |
| `PoolProtocol.Ownership` | src/db/mysql_pool.cpp:9-160 | in every interleaving each connection is in exactly one place and closed at most once, also across moves and shutdown; until shutdown the total is idle + pinging + creating + held and within the maximum |
| `PoolProtocol.NoLostWakeUp` | src/db/mysql_pool.cpp:91-160 | before shutdown a blocked client stands beside no more free capacity than others are coming for, and with none coming all max connections are in use; after shutdown nobody is blocked |
| `PoolProtocol.LateReturnCloses` | src/db/mysql_pool.cpp:137-142 | after shutdown a returned connection is closed and the pool stays empty |
| `PoolProtocol.LockOutcome` | src/db/mysql_pool.cpp:91-122 | a client with the lock is refused after shutdown, else pings the oldest idle connection, else creates one, else waits |
| `PoolProtocol.ReturnOutcome` | src/db/mysql_pool.cpp:135-160 | a returned connection is closed after shutdown or when its ping failed, and is the last of the idle ones otherwise |
| `PoolProtocol.ShutdownOutcome` | src/db/mysql_pool.cpp:47-58 | the first shutdown closes what is idle, zeroes the total and wakes everybody; another one does nothing |
| `PoolProtocol.PingDecides` | src/db/mysql_pool.cpp:105-155 | in every run before shutdown the connections closed are exactly those on which a ping failed, each once |
| `PoolProtocol.ClosedForGood` | src/db/mysql_pool.cpp:9-160 | in every run a closed connection is never idle, pinged or held again |
| `PoolProtocol.ReuseInOrder` | src/db/mysql_pool.cpp:101-159 | in every run before shutdown connections are reused in the order in which they were returned |
| `PoolProtocol.StepOwned` | src/db/mysql_pool.cpp:91-160 | every step keeps each connection in exactly one place |
| `PoolProtocol.StepCounted` | src/db/mysql_pool.cpp:91-160 | every step keeps the total equal to the connections it counts |
| `PoolProtocol.StepLive` | src/db/mysql_pool.cpp:91-160 | every step keeps blocked clients covered |
| `Balancer.JudgeWorkerBalancer.UpsertWorker` | src/judge/judge_worker_balancer.h:21-35 | a known endpoint starts over in its place, a new one is appended; endpoints stay distinct |
| `Balancer.JudgeWorkerBalancer.SelectWorker` | src/judge/judge_worker_balancer.h:37-58 | takes the first least loaded online worker in cyclic order from the cursor, or none exactly when none can be taken |
| `Balancer.JudgeWorkerBalancer.ReleaseWorkerLoad` | src/judge/judge_worker_balancer.h:60-66 | lowers one load, never below zero |
| `Balancer.JudgeWorkerBalancer.MarkOffline` | src/judge/judge_worker_balancer.h:68-73 | takes a worker offline and resets its load |
| `Balancer.JudgeWorkerBalancer.MarkOnline` | src/judge/judge_worker_balancer.h:75-79 | brings a worker online with its load as it is |
| `Balancer.ChoiceUnique` | src/judge/judge_worker_balancer.h:43-50 | the choice is determined by loads and cursor |
| `BalancerRuns.HotSpotBound` | src/judge/judge_worker_balancer.h:21-79 | in every interleaving of T threads a load is at most the unreleased dispatches, and never above (T - 1) / k + 1 if at least k workers are online at every selection |
| `BalancerRuns.BoundAttained` | src/judge/judge_worker_balancer.h:21-58 | the bound is exact: for every T and k there is a run of T threads, with k workers online at every selection, in which a load reaches (T - 1) / k + 1 |
| `BalancerRuns.LeadAfterSelections` | src/judge/judge_worker_balancer.h:37-58 | however T selections on k idle online workers go, they leave a load of (T - 1) / k + 1 |
| `BalancerRuns.SelectionBound` | src/judge/judge_worker_balancer.h:37-58 | the load selected is at most (T - 1) / k |
| `BalancerRuns.StepCovered` | src/judge/judge_worker_balancer.h:21-79 | resets, saturating releases and registrations keep every load covered by unreleased dispatches |
| `BalancerRuns.FairShares` | src/judge/judge_worker_balancer.h:37-58 | from equal loads on k online workers m selections give each floor(m / k) or ceil(m / k), exactly m % k of them the larger share |
| `BalancerRuns.PlainRoundRobin` | src/judge/judge_worker_balancer.h:37-58 | each of these selections takes the next online worker in cyclic order |
| `BalancerRuns.InTurn` | src/judge/judge_worker_balancer.h:37-58 | with everybody online and equal loads they go round the list from the cursor upwards |
| `JudgeManager.JudgeManager.constructor` | src/judge/judge_manager.cpp:24-51 | the registered workers are exactly the configured endpoints, each with its last configuration, online and without load; remote mode is on exactly if there are any |
| `JudgeManager.JudgeManager.RegisterWorker` | src/judge/judge_manager.cpp:78-84 | registers the worker and turns remote mode on |
| `JudgeManager.JudgeManager.ProbeWorkersIfNeeded` | src/judge/judge_manager.cpp:141-185 | the probe of `ProbeOutcome`: nothing before the interval has passed, then exactly the healthy workers are online |
| `JudgeManager.JudgeManager.ExecuteRemotely` | src/judge/judge_manager.cpp:314-335 | one attempt, behind the health probe if it is due: select, ask, release, and drop the worker unless it answered 200 |
| `JudgeManager.JudgeManager.ExecuteJob` | src/judge/judge_manager.cpp:187-202 | the retry loop is the sequence of attempts, with whatever the probes before them change; without remote mode it fails at once |
| `JudgeManager.NoProbes` | src/judge/judge_manager.cpp:141-150 | as long as no probe is due the retry loop is the plain one, whose distinct attempts and failover are proved below |
| `JudgeManager.ProbeOutcome` | src/judge/judge_manager.cpp:141-185 | behind a due probe exactly the healthy workers are online, with their load, and a worker taken offline has none; a probe not due changes nothing |
| `JudgeManager.RecoveredWorkerServes` | src/judge/judge_manager.cpp:141-202 | a worker the first probe finds healthy and that answers 200 makes the job succeed, given as many attempts as workers are healthy |
| `JudgeManager.ProbedJob` | src/judge/judge_manager.cpp:141-202 | whatever the probes change between the attempts, every selection is matched by one release, there are no more selections than retries, and success is a 200 answer of a worker asked |
| `JudgeManager.AttemptsAreDistinct` | src/judge/judge_manager.cpp:187-202 | with probing off the attempts of a job hit pairwise distinct online workers, every selection is matched by one release, and afterwards exactly the failed workers are offline with no load left over |
| `JudgeManager.FailoverCompletes` | src/judge/judge_manager.cpp:187-202 | with at least as many retries as workers online, one online worker that always answers 200 makes the job succeed |
| `JudgeManager.FewerRetriesFail` | src/judge/judge_manager.cpp:187-202 | with fewer retries there is always an online worker that would answer and is never asked |
| `JudgeManager.SuccessIsAnAnswer` | src/judge/judge_manager.cpp:314-335 | a job succeeds only with the body of a 200 answer from a worker that was online |
| `JudgeQueue.JobConservation` | src/judge/judge_manager.cpp:64-139 | in every interleaving accepted jobs are queued, in flight or finished and only one of these; they are dequeued in order, at most T are in flight, and no result is written twice |
| `JudgeQueue.NoLostJob` | src/judge/judge_manager.cpp:64-93 | while running, queued jobs beside a blocked thread are covered by notifications and wake-ups on their way |
| `JudgeQueue.EnterOutcome` | src/judge/judge_manager.cpp:88-93 | a thread with the lock takes the oldest job, shut down or not; without one it blocks while running and ends otherwise |
| `JudgeQueue.ThreadsStay` | src/judge/judge_manager.cpp:86-93 | while the manager runs no thread ends |
| `JudgeQueue.RefusedOnceStopped` | src/judge/judge_manager.cpp:64-76 | once stopped only submitters already past the check add jobs |
| `JudgeQueue.OneMoreAtMost` | src/judge/judge_manager.cpp:86-93 | once stopped a thread takes at most one more job |
| `JudgeQueue.NobodyWaitsAfterShutdown` | src/judge/judge_manager.cpp:57-93 | behind the notify_all of a shutdown no thread is blocked, then or later |
| `HtmlEscape.ReplaceAll` | src/server/server.cpp:36-42 | replaces every occurrence and ends although the replacement may contain the character replaced |
| `HtmlEscape.HtmlEscape` | src/server/server.cpp:35-48 | the four passes are one map from character to text |
| `HtmlEscape.PassesAreOneMap` | src/server/server.cpp:43-46 | in this order no pass touches what an earlier one wrote |
| `HtmlEscape.EscapedForm` | src/server/server.cpp:43-46 | the four markup characters become their entities and every other character stays |
| `HtmlEscape.EscapeRoundTrip` | src/server/server.cpp:35-48 | the matching unescape recovers every text |
| `HtmlEscape.EscapedIsInert` | src/server/server.cpp:35-48 | no <, > or double quote survives, and every & left starts one of the four entities |

## Left out

- Sockets, epoll, timerfd, DNS, the bytes of `SendHttpJson`: foreign calls with arbitrary results.
- The request-line regular expression and `std::stol` are arbitrary functions of their input; the Content-Length is taken to be a nonnegative number, so an exception of `stol` is not modelled.
- Routing, static files, `WriteReponse` and error pages are one function from request to reply bytes and closing flag; replies are nonempty because a status line is always written.
- `_matches` of a request, the body stage's size arithmetic beyond the declared length, and 64-bit overflow of buffer sizes.
- Bytes are characters; `isalnum` is that of the C locale, for bytes from 0x80 on too.
- The text wrappers of `Buffer` (`Read`, `WriteString`, `WriteBuffer`) that only combine the modelled operations.
- ByteBuffer.Buffer.WriteBufferAndPush: excludes a buffer written into itself, where the source takes its read position before the vector may grow; nothing does this.
- ByteBuffer.Replay: pushes no more bytes than the last write put behind the queue; the source's assert would also let stale memory be pushed.
- TimerWheel.TimerWheel.TimerAddInLoop: does not model adding an id whose timer still lives, because ids are unique (`_next_id`) and the connection checks `HasTimer` first; delays from 2^31 on overflow the int of a refresh and are excluded.
- Callbacks that re-enter the wheel: the inactivity callback only queues a release.
- HttpConnection.Connection.ReleaseInLoop: removing the channel shows only as no socket event being enabled any more; closing the descriptor and cancelling the inactivity timer are not in the state.
- The lifetime of a connection behind queued tasks, and `Upgrade`.
- The abort of a full eventfd counter, which needs 2^64 - 1 unread wake-ups.
- Shutdown of a connection from other threads: the HTTP server calls it from the message callback only.
- JudgeManager.JudgeManager.ExecuteJob: other threads using the balancer between its attempts are in `BalancerRuns`, not here.
- `JudgeManager::shutdown` and its joins: `running_` is cleared without the mutex, so a thread may test it, miss the notification and stay blocked; testing the wait predicate and blocking are one step here.
- JSON of results, the DAOs, and whether a result write succeeds: a finished job writes once or not at all.
- `total_` of the pool after shutdown, where it may wrap; the invariants about it stop at shutdown.
- A connection whose creation fails half-way is closed by `CreateConnection` itself and never enters the pool.
- Handlers, DAOs, models, configuration, logging, authentication, the judge worker and its sandbox.
