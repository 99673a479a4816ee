# Cancellation, shutdown and byte-stream protocols of asio-coro, in Dafny

This project models the protocols behind the coroutine programs of the asio-coro repository
and proves what holds in all of their runs: the echo server with its graceful, escalating
shutdown, the line logger, the SIGINT/SIGTERM/SIGKILL ladder and the child it drives, the byte
movers (chunked write, `cat`, the proxy between a client and an echo session), the Happy
Eyeballs race, `async_invoke`, the servers that own their sessions through promises or
sockets, and the `cancellation_type` formatter.

A coroutine is a state that moves from suspension point to suspension point. An event is one
atomic stretch of code between two suspensions, together with whatever result the completed
operation had. A step function gives the next state; `Run` follows a sequence of events, and the
main results are lemmas about every sequence that `CanRun` admits. Where the program updates
fields or buffers in place, a class or a method with loops does the same and is proved to move
the state as the step function says.

| file | content |
|---|---|
| `wrappers.dfy` | `Option` and `Min` |
| `cancellation.dfy` | cancellation types, filters, cancellation state |
| `session.dfy` | one echo session: echo loop, decision, goodbye |
| `server.dfy`, `server_properties.dfy`, `server_shutdown.dfy`, `server_graceful.dfy`, `server_coroutine.dfy` | the echo server composed with its sessions; its run-level properties; that its shutdown ends, and how an interrupt ends its sessions; the coroutine over mutable fields |
| `promise_sessions.dfy`, `echo_object.dfy`, `socket_map_server.dfy` | the sibling servers |
| `lines.dfy`, `logger.dfy`, `logger_coroutine.dfy` | splitting at LF, the logger, the logger over a mutable buffer |
| `escalation.dfy` | the signal ladder and `handle_signal` |
| `streams.dfy`, `chain.dfy`, `echo_callbacks.dfy`, `limits.dfy` | writing, copying, forwarding, echoing, write limits |
| `happy_eyeballs.dfy`, `async_invoke.dfy`, `formatter.dfy` | the race, the two-executor protocol, the printer |

## Assumptions about Asio

- Code between two suspension points is one atomic step: one thread, or a strand.
- `co_spawn` from inside the executor runs the new coroutine up to its first suspension
  (test/test_cancellation.cpp:122); its completion handler never runs inside the call, but as if
  posted (issues/asio_issue_promise.cpp:8-11).
- An operation that has completed keeps its result; a cancellation that comes later only shows in
  the cancellation state (test/test_cancellation.cpp:79-86).
- A cancellation state belongs to the coroutine that `co_spawn` started
  (test/test_process_cancellation.cpp:690-693). A coroutine that is awaited directly shares it, so
  `reset_cancellation_state` inside `sleep` (include/asio-coro.hpp:114) acts on the awaiting
  session. A reset installs a filter, forgets what was recorded and does not suspend.
- The echo loop is spawned (cancellation/echo_coro_signal_advanced.cpp:52) and has a cancellation
  state of its own, to which the session's state passes on what its filter lets pass, unless that
  is empty. So a request that the echo loop has accepted is not undone by an emit that makes the
  session forget it.
- How several emits within one suspension combine is the parameter `Policy`: they accumulate, or
  the last one wins, even if its filter left nothing of it. A result that depends on it says so;
  for last-wins it carries the hypothesis that no weaker emit follows.
- The channel has no buffer: `try_send` succeeds only if a receive is waiting.
- `operator||` waits for one success, cancels the other operation, and takes the first success
  in order of completion. Destroying a promise cancels its coroutine.
- An operation on a socket that was shut down fails unless it has completed before
  (cancellation/echo_coro_signal.cpp:30-40). Destroying a socket shuts it down: what is behind it
  sees the bytes sent before and then end of file, or an error.
- Numeric values of the flags: terminal 1, partial 2, total 4, all 0xffffffff.

## Where code and documentation disagree

The model follows the code.

- The graceful shutdown of a session is documented to accept terminal cancellation only
  (test/test_echo_cancellation.cpp:59-60). Its sleep re-enables all types, and the reset in
  `sleep` discards a request that lost the race against the completed goodbye
  (`EchoSession.ShutdownAcceptsExactlyWhen`, `EchoSession.TotalDuringSleepExample`,
  `EchoSession.TerminalIsLostExactlyWhen`, `EchoSession.TerminalLostExample`).
- The logger is documented to support terminal cancellation only and to print all buffered data
  (lib/log.cpp:21-22). It accepts partial too, and bytes of a read that had completed but was not
  committed when the request came are lost: `Logger.NothingIsLostExactlyWhen` says exactly when,
  `Logger.FetchedBytesAreLost` gives a run. What is buffered is handed out a second time if and only
  if another request is accepted in the same suspension or, under last-wins, anything is emitted
  in it (`Logger.HandedOutOnceExactlyWhen`, `Logger.LastWinsFlushesTwice`).
- The write limit of the Asio client is computed as `total - size` (bin/client.cpp:45), so every write
  is offered a whole buffer. If all of them take it, the limit is met only if it is a multiple of
  the buffer size (`WriteLimits.ExactOnlyOnMultiples`); with short writes every total up to a buffer
  beyond the limit is possible, and only a limit of zero or a buffer of one byte is always exact
  (`WriteLimits.TotalsWithShortWrites`, `WriteLimits.AlwaysExactExactlyWhen`). Without a limit the
  first chunk is one byte and doubles from there (`WriteLimits.UnlimitedDoubles`).
- In the socket-map server the drain covers the completion handlers but not the signal handler,
  which captures the same frame (`SocketMapServer.SignalHandlerIsLateExactlyWhen`).

## Model

| member | source | states |
|---|---|---|
| Cancellation.AccumulateRecordsTheUnion | cancellation/echo_coro_signal_advanced.cpp:85-117 | under accumulation a strength is recorded if and only if some emit since the reset carried it and the filter lets it pass |
| Cancellation.PoliciesAgree | cancellation/echo_coro_signal_advanced.cpp:85-137 | if no emit drops a strength an earlier one carried, last-wins records the same type as accumulation |
| EchoSession.StepKeepsInv | cancellation/echo_coro_signal_advanced.cpp:13-63 | every event keeps the session's invariant: filter by stage, recorded type determined by the emits, output so far |
| EchoSession.OutputShape | cancellation/echo_coro_signal_advanced.cpp:13-63 | in every run the client receives a prefix of what was read from it, then a prefix of "goodbye\n" and nothing else, as many bytes as were written; all of it if the session ended gracefully |
| EchoSession.NothingReadLaterIsEchoed | cancellation/echo_coro_signal_advanced.cpp:13-24 | under either policy, in every run after a request nothing that is read later is ever echoed, even if the read completes successfully |
| EchoSession.HowSessionsEnd | cancellation/echo_coro_signal_advanced.cpp:38-63 | in every run, from the events alone: whatever fails while echoing, the session goes on to its one decision; without a goodbye it has ended then, with one it ends gracefully if and only if its sleep ends by itself |
| EchoSession.SaysGoodbyeExactlyWhen | cancellation/echo_coro_signal_advanced.cpp:51-62 | under accumulation the goodbye is said if and only if the client had shut down or some request was made, and no request was terminal |
| EchoSession.GoodbyeStartsExactlyWhen | cancellation/echo_coro_signal_advanced.cpp:51-62 | the same for one step of any state that satisfies the invariant: no other step starts the goodbye |
| EchoSession.GoodbyeUnderLastWins | cancellation/echo_coro_signal_advanced.cpp:51-62 | under last-wins the same decision depends on the last request alone |
| EchoSession.NoGoodbyeWithoutReason | cancellation/echo_coro_signal_advanced.cpp:51-54 | in every run without request and without EOF no goodbye byte is ever sent, whatever fails |
| EchoSession.SilencedForever | cancellation/echo_coro_signal_advanced.cpp:56-62 | once terminal is recorded while echoing, no continuation starts the goodbye |
| EchoSession.ShutdownAcceptsExactlyWhen | test/test_echo_cancellation.cpp:59-60 | in every run, a request during the shutdown is accepted if and only if it is terminal, or not empty and the session sleeps already; "terminal only" is true of all requests if and only if the goodbye is still being written |
| EchoSession.TotalDuringSleepExample | include/asio-coro.hpp:110-116 | a run in which a total request is accepted during the sleep |
| EchoSession.TerminalIsLostExactlyWhen | cancellation/echo_coro_signal_advanced.cpp:26-36 | in every continuation after a terminal request during the goodbye, the request is lost, and the session gets past the goodbye, if and only if all of the goodbye was sent |
| EchoSession.TerminalLostExample | include/asio-coro.hpp:110-116 | a run in which the session ends gracefully in spite of a terminal request |
| EchoServer.StepKeepsInv | cancellation/echo_coro_signal_advanced.cpp:65-170 | every event of server and sessions keeps the invariant: map keys are the unfinished sessions, recorded requests have a resume pending, a waiting drain has a session left, no handler on a dead frame |
| EchoServer.RunKeepsInv | cancellation/echo_coro_signal_advanced.cpp:65-170 | the invariant holds in every reachable state |
| EchoServerProperties.SessionsOfRun | cancellation/echo_coro_signal_advanced.cpp:94-110 | after any run a session is in the map if and only if it was there or was accepted since, and its completion handler has not run |
| EchoServerProperties.HandlersRunOnce | cancellation/echo_coro_signal_advanced.cpp:98-105 | no completion handler runs twice |
| EchoServerProperties.StructuredConcurrency | cancellation/echo_coro_signal_advanced.cpp:76-110 | in every reachable state the map keys are exactly the ids handed out whose handler has not run, and no handler has run after the server returned |
| EchoServerProperties.NothingRunsAfterReturn | test/test_echo_cancellation.cpp:99-142 | once the server has returned all handlers have run and no event but a further, ineffective request is possible |
| EchoServerProperties.EveryConnectionGetsASession | cancellation/echo_coro_signal_advanced.cpp:88-110 | sessions spawned plus the connection in hand equal the connections accepted, whatever is requested meanwhile |
| EchoServerProperties.DrainMeasure | cancellation/echo_coro_signal_advanced.cpp:156-166 | in the drain the number of sessions falls by exactly one per completion handler and no session is added |
| EchoServerProperties.DrainFinishes | cancellation/echo_coro_signal_advanced.cpp:99-166 | no lost wakeup although notifications are dropped: a waiting server has a session left, and after as many completions as sessions were left it has returned or returns at its next resume |
| EchoServerProperties.DrainNeverStuck | cancellation/echo_coro_signal_advanced.cpp:156-166 | in every state of the drain some event other than a request is possible |
| EchoServerProperties.NoRequestIsLost | cancellation/echo_coro_signal_advanced.cpp:112-166 | the resume after accepted requests delivers one type containing all of them to every session, including one accepted in that resume |
| EchoServerProperties.AcceptedRequestIsForwarded | cancellation/echo_coro_signal_advanced.cpp:112-193 | in every run, after a request that the server accepts and any further events of the suspension, a resume is due and hands every session a type that contains the request |
| EchoServerProperties.LeavesLoopExactlyWhen | cancellation/echo_coro_signal_advanced.cpp:117-136 | a resume leaves the accept loop if and only if a request stronger than total was made, or the accept failed with nothing requested |
| EchoServerProperties.TotalKeepsAccepting | cancellation/echo_coro_signal_advanced.cpp:112-123 | in every run with total requests only and no failing accept the server keeps accepting |
| EchoServerProperties.TerminalRequestSilencesAll | cancellation/echo_coro_signal_advanced.cpp:117-193 | SIGTERM end to end: after it is forwarded, no session that was still echoing ever starts its goodbye, in any continuation |
| EchoServerProperties.LastWinsLosesTerminal | cancellation/echo_coro_signal_advanced.cpp:117-123 | under last-wins SIGTERM followed by SIGTSTP within one suspension leaves the server accepting |
| EchoServerProperties.LastWinsKeepsTerminalExactlyWhen | cancellation/echo_coro_signal_advanced.cpp:117-166 | under last-wins a resume emits terminal to a session if and only if the last request of the suspension is terminal, and stays in the accept loop if and only if that request is total, or empty with a successful accept |
| EchoServerShutdown.ShutdownEnds | cancellation/echo_coro_signal_advanced.cpp:124-166 | after a request has ended the accept loop, the events of any continuation other than requests are bounded by what the sessions have left to do; only requests are possible if and only if the server has returned |
| EchoServerShutdown.LeavingNotifiesAll | cancellation/echo_coro_signal_advanced.cpp:141-146 | after that resume every session still in its echo loop has a recorded request, under either policy |
| EchoServerShutdown.ReturnIsSureExactlyWhen | cancellation/echo_coro_signal_advanced.cpp:156-166 | in the drain, the runs without further requests are bounded if and only if every session in its echo loop knows of a request |
| EchoServerShutdown.FailedAcceptMayNeverReturn | cancellation/echo_coro_signal_advanced.cpp:124-166 | from the start of the server: after a failed accept and without any request there are runs of any length that have not returned |
| EchoServerGraceful.InterruptEndsGracefully | test/test_echo_cancellation.cpp:348-364 | SIGINT end to end: without SIGTERM, failing writes and aborted sleeps every session that was echoing echoes all it had read, says the whole goodbye and ends gracefully |
| ServerCoroutine.Server.constructor | cancellation/echo_coro_signal_advanced.cpp:65-88 | establishes the initial state and the invariant |
| ServerCoroutine.Server.Emit | cancellation/echo_coro_signal_advanced.cpp:145-146 | the loop over the map notifies every session in it and changes nothing else |
| ServerCoroutine.Server.OnSignal | cancellation/echo_coro_signal_advanced.cpp:172-193 | one emit moves the state as the transition system says and keeps the invariant |
| ServerCoroutine.Server.ResumeAfterAccept | cancellation/echo_coro_signal_advanced.cpp:85-159 | the accept loop from resume to next suspension is the step of the transition system |
| ServerCoroutine.Server.ResumeAfterReceive | cancellation/echo_coro_signal_advanced.cpp:156-166 | the drain loop from resume to next suspension is the step of the transition system |
| ServerCoroutine.Server.OnSessionCompleted | cancellation/echo_coro_signal_advanced.cpp:98-105 | the completion handler is the step of the transition system and never meets a dead frame |
| PromiseSessions.StepKeepsInv | cancellation/echo_coro_signal_cancellation.cpp:55-112 | every event of either design keeps: while the map lives its keys are the unfinished sessions, afterwards all of them are cancelled |
| PromiseSessions.EveryConnectionGetsASession | cancellation/echo_class.cpp:52-99 | in every run of either design, from the events alone: each accepted connection the loop was resumed with, unless the object was destroyed before, gets a session; it is unfinished until its task is resumed, and its promise is in the map until then or the end of the map |
| PromiseSessions.MapIsNeverTouchedAfterItsEnd | cancellation/echo_class.cpp:22-99 | in every run of either design nobody touches the map after its end, even if I/O had completed before |
| PromiseSessions.TasksOutliveTheMapHarmlessly | cancellation/echo_class.cpp:79-94 | a session left over after the end of the map finishes without changing it |
| EchoObject.Server.constructor | cancellation/echo_class.cpp:17-20 | establishes the initial state and the invariant |
| EchoObject.Server.DestroyMap | cancellation/echo_class.cpp:35-40 | destroying the map cancels every session whose promise it holds |
| EchoObject.Server.Destroy | cancellation/echo_class.cpp:22-40 | the destructor cancels the accept loop and all unfinished sessions |
| EchoObject.Server.ResumeRun | cancellation/echo_class.cpp:52-100 | the accept loop never touches the members once the object is gone |
| EchoObject.Server.ResumeSession | cancellation/echo_class.cpp:79-94 | a session erases its promise only while the map lives |
| SocketMapServer.CompletionHandlersAreInTime | cancellation/echo_coro_signal.cpp:50-80 | in every run the map holds exactly the sessions whose handler has not run, and no completion handler runs after the server returned |
| SocketMapServer.SessionsOfRun | cancellation/echo_coro_signal.cpp:50-68 | in every run, from the events alone: each accepted connection gets a session, which is in the map until its handler has run; no socket is shut down before the signal was handled |
| SocketMapServer.EchoesWhatItReads | cancellation/echo_coro_signal.cpp:5-13 | in every run a session that has not ended has written what it read, less the rest of the current chunk |
| SocketMapServer.ShutSessionEnds | cancellation/echo_coro_signal.cpp:29-43 | in every continuation a session whose socket was shut down is resumed with success once if its operation had completed already and never otherwise, and the events it has left are counted exactly |
| SocketMapServer.SignalEndsEverySession | cancellation/echo_coro_signal.cpp:17-44 | the signal handler reaches every session in the map: each has at most four events left and at most one success, and is erased after the last |
| SocketMapServer.PollingEnds | cancellation/echo_coro_signal.cpp:76-80 | once all sockets are shut down and the accept loop is left, at most four events per session are possible; one is possible until the map is empty, and then the next poll returns |
| SocketMapServer.SignalHandlerIsLateExactlyWhen | cancellation/echo_coro_signal.cpp:17-44 | the signal handler touches the frame after the server returned if and only if the signal was delivered but not handled at that time |
| SocketMapServer.LateSignalExample | cancellation/echo_coro_signal.cpp:17-57 | a run in which that happens |
| Lines.FirstLF | lib/log.cpp:95-96 | the position of the first LF: there is one there and none before |
| Lines.JoinPieces | lib/log.cpp:83-84 | joining the pieces of a split with LF gives the text back |
| Lines.SplitLinesOf | include/log.hpp:10-17 | complete lines and an unterminated tail split into exactly these, except for a single LF |
| Lines.JoinOf | lib/log.cpp:83-84 | stripped lines and the pieces of what follows, rejoined, are the text |
| Logger.LoggerRefinesSplitter | lib/log.cpp:91-134 | for every stream, cutting and schedule without accepted cancellation the lines handed out are `split_lines` of all that was read if and only if that is not a single LF; the pipe is closed if it ended by EOF and an error thrown otherwise |
| Logger.EmitFlushesExactlyWhen | lib/log.cpp:57-86 | in every run an emit hands out the buffer and ends a pending read if and only if it carries terminal or partial; total alone changes neither lines, buffer nor operation |
| Logger.CancellationFlushesExactly | lib/log.cpp:77-106 | with one accepted request, in any race, everything handed out rejoined with LF is exactly what was committed at the request, and nothing follows the flush |
| Logger.NothingIsLostExactlyWhen | lib/log.cpp:80-96 | what was handed out, rejoined, is everything taken from the pipe if and only if no completed read was still uncommitted at the request; otherwise just the bytes of that read are missing |
| Logger.FetchedBytesAreLost | lib/log.cpp:80-106 | a run in which a byte is lost |
| Logger.HandedOutOnceExactlyWhen | lib/log.cpp:77-120 | in every run with an accepted request, what is buffered then is handed out once, and nothing after it, if and only if no other request is accepted in the suspension and, under last-wins, nothing is emitted |
| Logger.LastWinsFlushesTwice | lib/log.cpp:80-120 | a run under last-wins in which an emit that is not accepted makes the logger hand out the same bytes twice |
| LoggerCoroutine.LineLogger.HandleRemaining | lib/log.cpp:119-120 | hands out exactly the pieces of the buffer, in order |
| LoggerCoroutine.LineLogger.OnCancellation | lib/log.cpp:80-86 | the cancellation handler is the step of the transition system |
| LoggerCoroutine.LineLogger.OnRead | lib/log.cpp:95-96 | committing a read is the step of the transition system |
| LoggerCoroutine.LineLogger.ResumeAfterRead | lib/log.cpp:98-134 | the loop body and the tail are the step of the transition system |
| LoggerCoroutine.LogUntilEof | lib/log.cpp:39-135 | the whole loop hands out the lines of the whole stream for every way of cutting it |
| LoggerCoroutine.HandleLines | lib/log.cpp:92-113 | the loop hands out lines until it has to read again, and loses nothing |
| Escalation.Execute | test/test_process_custom.cpp:80-186 | for every child behaviour the signals sent are a prefix of the plan of the mask, each after a wait that timed out, and the code returned is the child's |
| Escalation.EscalationIsSafe | test/test_process_custom.cpp:135-168 | for every child: signals are allowed by the mask, strictly stronger each time, 1000 ms apart; SIGKILL comes after at most two waits unless the child exits before |
| Escalation.EscalationOutcome | test/test_process_custom.cpp:125-178 | ladder and child together return the closed-form exit code, for every configuration, mask and time of cancellation |
| Escalation.PlanEndsWithExitCode | bin/handle_signal.cpp:144-169 | the child's reaction to the signals of a mask has the closed form: the code of the first signal it obeys, unless its timeout is earlier |
| Escalation.TestTableAll | test/test_process_custom.cpp:291-295 | every run of the ladder against the configurations of the rows with full escalation returns the exit codes of the table |
| Escalation.TestTableSome | test/test_process_custom.cpp:296-302 | the same for the other rows |
| Streams.WriteChunked | include/stream_utils.hpp:42-70 | for every stream and cancellation point the bytes that reach it are exactly a prefix of the range, and the writes made, their bytes and the result are the specified ones |
| Streams.ChunkedWriteStops | include/stream_utils.hpp:51-68 | the writes go on to the first that is cancelled, even if all of it was written, or cut short, or to the last chunk; their bytes are counted, and an error is raised if and only if that write failed without a cancellation |
| Streams.WriteContiguous | include/stream_utils.hpp:21-38 | the same for the single write, with its result |
| Streams.ChunkedEqualsContiguous | include/stream_utils.hpp:22-70 | on an uninterrupted stream both put everything through and return the same count |
| Streams.ChunkedStopsLikeContiguous | include/stream_utils.hpp:22-70 | on a stream that stops after any number of bytes both let these bytes through and report the same |
| Streams.Cat | include/stream_utils.hpp:128-149 | what is written is a prefix of the input, nothing is written after a cancellation is recorded; it returns if and only if all was written, nothing cancelled and the input ended by EOF, with its length |
| ForwardingChain.EndToEnd | net/proxy.cpp:10-46 | through any number of forwarders, in every interleaving with failures anywhere, bytes written by the client are those it received followed by all in flight, in order; when its reader ends, all have come back and all totals agree if and only if no error left bytes in a node or on the way to it |
| ForwardingChain.NodesOfRun | net/proxy.cpp:10-32 | in every run, from the events alone: what each node has read and written, and whether it ended by EOF or by an error |
| ForwardingChain.EverythingArrives | net/proxy.cpp:34-46 | once the client has shut down only finitely much can happen; a run that cannot go on has reached the end of the reader, and without failures everything has arrived and all totals agree |
| ForwardingChain.MissingMeansStranded | bin/corosio_client.cpp:66-81 | the condition of the end-to-end result for any part of the chain, and that without errors every forwarder was closed by EOF |
| ForwardingChain.EofAfterFailureExample | net/proxy.cpp:24-28 | a run in which the client sees EOF although a byte is missing |
| ForwardingChain.NodeConserves | net/proxy.cpp:10-32 | no event of a forwarder creates, drops, duplicates or reorders a byte, and its total counts what it read |
| ForwardingChain.HalfCloseIsLast | net/proxy.cpp:24-31 | in every run and for every forwarder closed by EOF: before the half-close went everything it read, a prefix of what the client wrote, and all of it if and only if no earlier node was left by an error with bytes in it or before it; nothing follows in any continuation |
| EchoCallbacks.WritesWhatItReads | echo/echo_coro_tuple.cpp:6-19 | the bytes handed to writes are the bytes read, once and in order |
| EchoCallbacks.IssuedOneByOne | echo/echo_coro_tuple.cpp:6-19 | the operations one by one: reads and writes in turn, each write just what the read before it delivered, one more than there are successes |
| EchoCallbacks.Session.Complete | echo/echo_async.cpp:14-37 | a completion starts the one next operation, and the buffer is not touched while a write from it is pending |
| EchoCallbacks.RunCallbacks | echo/echo_async.cpp:7-38 | for every sequence of results the callbacks issue the specified operations |
| EchoCallbacks.RunCoroutine | echo/echo_coro_tuple.cpp:6-19 | for every sequence of results the loop issues the specified operations |
| EchoCallbacks.CallbacksRefineCoroutine | echo/echo_async.cpp:14-37 | both issue the same operations and write what they have read |
| WriteLimits.WriteUpTo | bin/corosio_client.cpp:42-59 | the loop ends in the first round that finds the limit reached, the deadline passed or the write failing; the total is what the rounds before have written, and never exceeds the limit |
| WriteLimits.FullRounds | bin/corosio_client.cpp:55-58 | when every write takes all it is offered, `k` rounds write `k` buffers, or the limit if that is less |
| WriteLimits.ChunkIsUsable | bin/client.cpp:43-45 | in 64-bit arithmetic the chunk is at least one byte and at most one buffer, and exactly when it is a whole buffer |
| WriteLimits.WriteSomeUpTo | bin/client.cpp:34-47 | the loop ends on the specified total; barring wraparound it exceeds the limit by less than one buffer, and reaches it unless cancelled |
| WriteLimits.CancelledTotal | bin/client.cpp:41-55 | a loop that is cancelled below the limit has counted every byte its writes took |
| WriteLimits.TotalsWithShortWrites | bin/client.cpp:43-46 | for arbitrary writes the possible totals are exactly those from the limit to one byte less than a buffer beyond it |
| WriteLimits.AlwaysExactExactlyWhen | bin/client.cpp:43-46 | the limit is met however much each write takes if and only if it is zero or the buffer is one byte |
| WriteLimits.ExactOnlyOnMultiples | bin/client.cpp:43-46 | with full writes the limit is met exactly if and only if it is a multiple of the buffer size |
| WriteLimits.UnlimitedDoubles | bin/client.cpp:37-46 | without a limit the chunks are 1, 2, 4, ... bytes until they fill the buffer |
| HappyEyeballs.FilterSplits | net/happy_eyeballs.cpp:16-33 | the two filters split the endpoints into two disjoint sublists in their order that make up the whole |
| HappyEyeballs.RaceIsFair | net/happy_eyeballs.cpp:63-103 | IPv4 starts only after IPv6 ended or the timer fired and is not held back longer; the first success is returned; failure is reported if and only if both failed |
| HappyEyeballs.OutcomeOfRun | net/happy_eyeballs.cpp:82-103 | in every run, from the events alone: an attempt is returned if and only if it connected and the group was told of it first if both did; no connection if and only if none did |
| HappyEyeballs.IPv4GetsItsChance | net/happy_eyeballs.cpp:63-92 | in every run nobody cancels from outside: IPv4 leaves its wait if and only if the timer fired or IPv6 ended, connects unless IPv6 has connected, and failure means that both tried and failed |
| HappyEyeballs.OutsideCancelStopsIPv4 | net/happy_eyeballs.cpp:71-92 | after a cancellation from outside an IPv4 attempt that has not begun never connects |
| HappyEyeballs.NoLateIPv4 | net/happy_eyeballs.cpp:71-92 | once the group has seen IPv6 succeed, an IPv4 attempt that has not begun never connects |
| HappyEyeballs.RaceEnds | net/happy_eyeballs.cpp:82-103 | in every run at most seven things happen besides cancellations from outside, and a run that cannot go on is decided |
| AsyncInvoke.RunReturnsLast | include/async_invoke.hpp:33-58 | over all interleavings outstanding work is at least the number of unfinished jobs; handlers get their own job's result, at most once, and exactly once when `run` returns |
| AsyncInvoke.RunReturnsAtLast | include/async_invoke.hpp:33-58 | no run has more than four events per job and the return; `run` has returned if and only if all of them have happened, and if and only if nothing is possible any more |
| AsyncInvoke.WithoutGuardRunReturnsEarly | test/test_async_invoke.cpp:59-60 | without the work guard `run` may return at once, and then no handler ever runs |
| CancellationFormatter.FormatMask | include/formatters.hpp:88-123 | the left-to-right formatter prints the specified text |
| CancellationFormatter.FormatByParts | include/formatters.hpp:97-119 | the names of the flags in order, with bars between them, and the remainder last as its hexadecimal digits |
| CancellationFormatter.WholeMasks | include/formatters.hpp:91-95 | "none" is printed for 0 only, and "all" for 0xffffffff only |
| CancellationFormatter.RoundTrip | include/formatters.hpp:88-123 | a parser recovers every 32-bit mask from what it prints as |
| CancellationFormatter.FormatIsInjective | include/formatters.hpp:88-123 | distinct masks print differently |

## Left out

- Sockets, pipes, timers, signal delivery and process spawning: they are events with any result the assumptions above allow.
- The start of the server: runs begin at its first suspension; a request that comes before the first `reset_cancellation_state` is not modelled.
- In-place update of one session, of the forwarding chain, of the race, of `async_invoke` and of the frame-owned promise and socket maps: they are values moved by a step function, because their properties are about interleavings; aliasing is captured only by the flags that record a late access.
- Escalation.EscalationOutcome: one cancellation, a child that reacts within a second; a tie between the child's own timeout and a signal goes to the signal.
- Escalation.Handle: the loop counter is a number without a width; its `int` overflows for more than 2^31 ignored signals.
- WriteLimits.WriteUpTo: a buffer of zero bytes, with which the loop makes no progress until its deadline, is excluded.
- WriteLimits.WriteSomeUpTo: says nothing about the total after it has wrapped around 2^64.
- Streams.Cat: `count`, `read_all` and `write_and_close` repeat its read loop and are not modelled.
- ForwardingChain.EndToEnd: bytes that a reset connection drops stay in the link whose reading end failed; that a failing direction of a proxy session cancels the other one is not forced, but among the failures that may happen at any time.
- The void branch of `async_invoke`, handlers that are not bound to an executor, and `bind_all`.
- Whether the socket-map server stops accepting after an interrupt: cancelling the acceptor can miss an accept that has completed.
- The sliding-window client loop of the echo test, command lines, printing, colours, the `Bytes` formatter and address formatting: only easy properties.
- `http`, `cobalt`, `corosio`, `issues`, `threading`, `process`, the other echo variants, scripts and documentation.
