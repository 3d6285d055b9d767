# rest-pty: verified model

A Dafny model of the parts of rest-pty in which order, failure and concurrency matter, with proofs of
what they keep. `dafny verify dfyconfig.toml` checks everything. Functions and lemmas carry the pure
parts; the parts the program writes as objects and loops are classes and methods, each proved against
the function that specifies it.

## What is modelled

**Session lifecycle.** `SessionTable` is the `sessions` table with every define, update and delete
operation and every statement failing. `SessionDriver`, `SessionRunner` and `SessionManager` are the
three layers that load a session: the driver's core, working context and three daemons; the runner's
worker, IPC loop and notifications; the manager's map of active runners and its handlers. Each
collaborator call takes its failure as an argument, and a tear down works only where it can: a DOCKER
core's on a live working context, a PTY core's once. `SessionSystem` puts the layers together as one
step system: manager queue, runner queues, daemons ending by themselves, notifications, table edits
by the API, requests by clients, and restarts of the whole service at any moment, interleaved in any
order. `SessionSafety` and `SessionDrain` prove
safety and termination over every run, `SessionExposure` says exactly when a session can come to be
attached twice and what a restart does to it, and `SessionHandlers` proves that a handler of the manager does in one go what some
run of the step system does step by step. `StopRetries` and `PtyCore` are stops under retries,
`CapacityChange` the capacity change that spans two stores, `Lifecycle` the manager's lifecycle word
under any number of concurrent Start and Stop callers.

**Input path.** `Commands` encodes command batches, `QueueNames` builds the names, `IpcProtocol` is the
request and reply protocol between any number of clients and one runner at a time, beside which loops
of cancelled runners may still pop, `IpcSafety` its invariant and what a client may conclude, and
`IpcReplies` exactly which requests can be answered.

**Output path.** `AnsiStrip` is the escape filter on code points, `AnsiBytes` on UTF-8 bytes, `Paging`
the capped reads and the client that follows `actual_offset + read`, `Base64` and `Tail` the
server-sent event stream from the reader in Go to the printer in Python.

**Command line forms.** `Powers`, `Floats` and `MemorySize` are memory sizes with double rounding made
explicit; `Colons`, `HostMounts`, `WritableDirs` and `EnvVars` the other forms.

## What the code does differently from what it says

- `Manager.Stop` (session/manager.go:444-446) says that after it no Start can succeed. A Start that
  overtakes it between its two compare-and-swaps defeats this: `Lifecycle.LateStartExact` says exactly
  in which states, `Lifecycle.ExposedIsReachable` gives a run. `allowNewStarts` can be set again after
  the bulk stop cleared it, and stays set when the bulk stop is not taken up: `Lifecycle.ReopenedExact`.
- A session can be attached twice in three ways. One is a rename of a loaded session:
  `SessionSafety.RenameAttachesTwice`. One is a failed start whose tear down fails in the clean-up, since
  that failure is only logged (session/runner.go:369-374): `SessionSafety.FailedCleanUpAttachesTwice`. One
  is a restart of the service while a container of a session is up, since `Start` resets the row and
  knows nothing of the container (session/manager.go:403-437):
  `SessionExposure.BulkStopThenRestartAttachesTwice`. `NeverAttachedTwice` has the absence of these three
  as its only premises, besides the uniqueness of generated ids, and covers any number of restarts.
- `SessionExposure.AttachedTwiceExact` says exactly in which reached states a second attachment can
  still come about although none of the three happens again: starts are allowed, and some live driver's
  session has a row whose name, or whose id, is not held by that driver's own runner nor by one that can
  never be unloaded any more. `SessionExposure.RestartExact` says it of a restart: exactly when some
  container that outlives the process belongs to a session still in the table, so the third premise is
  as weak as it can be. Once starts are refused, `SessionExposure.ClosingNeverAttaches` promises that
  nothing is attached again, but only until the next restart; what holds after that is `RestartExact`.
- Stopping a runner cancels its context first (session/runner.go:365), and a DOCKER core is torn down by
  calls on that context (session/docker_driver.go:217-219). So a halt never brings a DOCKER core down
  (`SessionRunner.HaltLeavesUpExact`): a bulk stop leaves it up, and the clean-up of a failed start cannot
  work once the core came up (`SessionSafety.HaltStepExact`). Either leads to a second attachment, after
  a restart or at once, unless the container runtime, which is not part of this model, refuses a second
  container of the same name.
- A failed tear down cancels the working context too (session/driver.go:408-410). A DOCKER session is
  never stopped by a retry (`StopRetries.DockerGetsOneAttempt`); a PTY session may be, but then its core
  goes down on a dead context, against the order the driver's comment asks for:
  `SessionHandlers.UnloadedOutOfOrder`. Unloads release the three layers in order up to exactly that.
- A driver start that fails with a consistency error anywhere in its error chain commits READY over a
  runner with no core (session/runner.go:490-506): `SessionRunner.ReadyCommitExact`.
- The PTY tear down closes its handle again on every retry, and a second close is an error. A stop
  whose daemons merely outlived the wait can therefore never be retried to success:
  `PtyCore.PtyRetryExact`.
- The capacity change relies on nothing reading the buffer between its two halves
  (session/manager.go:1054-1056), but output reads do open buffers of idle sessions, by a record they
  fetched before. One read in the window breaks the agreement, and so does one that fetched before the
  window and opens after it: `CapacityChange.ReadInWindowBreaks`, `CapacityChange.StraddlingReadBreaks`.
  `CapacityChange.AgreementExact` says exactly which runs keep the stores in agreement.
- The escape filter's comment speaks of 8-bit controls, but the expression matches code points: of the
  bytes past ASCII exactly those are removed that encode an 8-bit control, as 0xC2 and its value, in a
  match; a raw byte 0x9B always passes (`AnsiBytes.HighByteRemovedExact`).
- The same comment says that only sequences split across chunks are missed. So is a control whose two
  bytes are split: `AnsiBytes.ChunkwiseBytesExact`.
- A client that submits an empty or invalid batch gets no answer and waits for its timeout, since the
  runner drops the message before it learns whom to answer. REST refuses such a batch
  (api/session_io_rest.go:86, 150), but the MCP tool passes its inputs on without a check of its own
  (api/session_io_mcp.go:31-35). `IpcReplies.QueuedReplyExact` says exactly which queued requests can be
  answered, `IpcReplies.ReplyExact` says it of every waiting client, and `IpcReplies.TwoLettersDropped`
  is a run with a CTRL command of two letters.
- `_format_bytes` says that its result always reads back as the same number. It does exactly for the
  numbers a double holds (`MemorySize.FormatRoundTripExact`).

## Model

| member | source | states |
|---|---|---|
| SessionTable.HistoryKeepsInv | db/sessions.go:33-516 | unique ids and names, valid names and fields, capacity at least 16384, workspace only on DOCKER and metadata matching the driver survive every sequence of operations and statement failures |
| SessionTable.ApplyKeepsInv | models/validate.go:75-86 | each single operation, failed or not, keeps all of these |
| SessionTable.RowFrame | db/sessions.go:186-516 | a failed operation changes nothing, rows not addressed are kept, a READY row survives and only its state, name or description can change |
| SessionTable.ConsistencyErrorExact | db/sessions.go:186-516 | a consistency error is returned exactly when an operation reserved for idle sessions finds its session READY |
| SessionTable.ApplyProvenance | db/sessions.go:33-516 | every row after an operation is a new one or an old one with the same id, renamed only by a rename of it |
| SessionTable.Database.DefineNewSession | db/sessions.go:33-87 | the new rows and the outcome are those of the reference semantics of Define |
| SessionTable.Database.GetEntryByName | db/sessions.go:90-104 | finds the row with the name, or reports that there is none |
| SessionTable.Database.UpdateSessionState | db/sessions.go:124-146 | reference semantics of a state change |
| SessionTable.Database.UpdateSessionOutputBufCapacity | db/sessions.go:186-213 | reference semantics of a capacity change |
| SessionTable.Database.UpdateSessionRunMode | db/sessions.go:227-254 | reference semantics of a run mode change |
| SessionTable.Database.UpdateSessionCommand | db/sessions.go:268-295 | reference semantics of a command change |
| SessionTable.Database.UpdateSessionDriver | db/sessions.go:310-372 | reference semantics of a driver change, which drops the workspace when it leaves DOCKER |
| SessionTable.Database.UpdateSessionName | db/sessions.go:383-402 | reference semantics of a rename, allowed in every state |
| SessionTable.Database.UpdateSessionDescription | db/sessions.go:413-432 | reference semantics of a description change |
| SessionTable.Database.UpdateSessionWorkspaceName | db/sessions.go:450-486 | reference semantics of a workspace change |
| SessionTable.Database.DeleteSession | db/sessions.go:496-516 | reference semantics of a deletion |
| SessionDriver.Driver.Start | session/driver.go:193-378 | refuses when a core is recorded; else goes through its calls in order up to the one that fails, and records core, daemons and a fresh handle when none does |
| SessionDriver.Driver.Stop | session/driver.go:387-433 | tears down, which needs a live context for DOCKER and an unused handle for PTY, cancels the working context either way, and clears the core only when every daemon has ended |
| StopRetries.RetryExact | session/driver.go:387-433 | after failed stops a failure-free retry works if and only if there was none, or the core is a PTY and all died at the kill |
| StopRetries.DockerGetsOneAttempt | session/docker_driver.go:217-219 | after one failed stop no later stop of a DOCKER core works, whatever its outcome would have been |
| PtyCore.PtyRetryExact | session/pty_driver.go:154-184 | after failed stops a failure-free retry succeeds if and only if every failed one died at the kill |
| PtyCore.ClosedStaysStuck | session/pty_driver.go:174-181 | once the handle has been closed without the stop succeeding, no retry succeeds |
| SessionRunner.ReadyCommitExact | session/runner.go:482-533 | a committed READY finds the core recorded unless the driver start failed with a consistency error in its chain |
| SessionRunner.IdleCommit | session/runner.go:613-673 | a committed IDLE finds the core cleared and every daemon ended, and sends one notice; a failed stop leaves the table alone |
| SessionRunner.MarkAndReadExact | session/runner.go:508-529 | the state change and read back move exactly one row or nothing |
| SessionRunner.RetryReachesIdle | session/runner.go:613-673 | after any sequence of stops a failure-free one reaches IDLE with the core cleared if and only if the core is down already or can still be torn down |
| SessionRunner.RetryReachesIdleExact | session/runner.go:613-673 | after stops that all failed at the driver it does if and only if there was none or the core is a PTY and each died at the kill |
| SessionRunner.HaltLeavesUpExact | session/runner.go:361-374 | a halt brings a core down if and only if it is a PTY whose handle has not been used and neither tear down nor wait fails |
| SessionRunner.HaltAfterStopInOrder | session/runner.go:361-389 | a runner halted after its driver was stopped cancelled its own context last; each tear down that cleared its core ran on a live context if and only if no stop of that run had failed before, and always for DOCKER |
| SessionRunner.RetriedStopClearsOnDeadContext | session/driver.go:408-417 | a PTY runner stopped again after a stop that died at the kill tears its core down on a dead context |
| SessionRunner.Runner.Start | session/runner.go:340-358 | the IPC loop is spawned even when the worker then fails to start |
| SessionRunner.Runner.HandleStartSession | session/runner.go:482-533 | the runner, the table and the outcome are those of the start task |
| SessionRunner.Runner.HandleStopSession | session/runner.go:613-673 | the runner, the table and the outcome are those of the stop task |
| SessionRunner.Runner.StopSession | session/runner.go:549-603 | a closed worker refuses the stop; an open one runs everything queued before it and then the stop |
| SessionRunner.Runner.Stop | session/runner.go:361-389 | context cancelled, driver stopped with its failure ignored, worker closed; success is the close and the join |
| SessionManager.Manager.ResetReadySessions | session/manager.go:403-424 | success leaves every session IDLE with all else unchanged, failure leaves the table exactly as it was |
| SessionManager.Manager.HandleStartSession | session/manager.go:573-738 | the table becomes that of loading the session, and a fresh runner is registered exactly on success |
| SessionManager.Manager.BringUp | session/manager.go:683-733 | runner start, driver start and the clean-up after either fails |
| SessionManager.Manager.HandleStopSession | session/manager.go:821-877 | the runner and table become those of unloading it, which a closed worker refuses; it is forgotten exactly on success and other runners are untouched |
| SessionManager.UnloadedIsDown | session/manager.go:838-872 | a successful unload leaves core cleared, no daemon or thread, the row IDLE, and the three layers released in order: each time the core went down, a tear down that worked, live if and only if no stop of that run had failed before, then its context, and the runner's last of all |
| SessionManager.Manager.HandleStopAllSessions | session/manager.go:1224-1251 | no runner stays registered, new starts are refused, every runner has been stopped, the table is untouched; success exactly if every worker closed and every runner joined |
| SessionManager.Manager.HandleChangeOutputBufferCapacity | session/manager.go:969-1093 | both stores become those of the two-store change, whatever fails |
| SessionSystem.RunKeepsShape | session/manager.go:379-877 | over every run, across restarts: table well formed, active map consistent, queues and contexts agree with where the manager stands |
| SessionSystem.NextKeepsShape | session/runner.go:361-680 | every single step keeps all of this, whatever fails |
| SessionSafety.NeverAttachedTwice | session/manager.go:573-740 | no run, restarts included, ever attaches two live drivers to one session id, unless it renames a loaded session, fails a clean-up, or restarts over a container whose session is in the table |
| SessionSafety.SecondStartRefused | session/manager.go:611-624 | over every run in which a runner stays registered, no runner is made under its name |
| SessionSafety.UnjoinedUnloadWedges | session/manager.go:849-868 | after an unload that could not be confirmed, in every run until a bulk stop or a restart the runner stays registered and closed and no other is made under its name |
| SessionSafety.ForgottenOnlyWhenDown | session/manager.go:838-877 | in every run a runner is forgotten only by a completed unload, core down and released in order with the tear downs live exactly when no stop of that run had failed, by a bulk stop after which no start is accepted, or by a restart, which only a container survives |
| SessionSafety.HaltStepExact | session/manager.go:1224-1251 | whichever handler halts a runner, its core stays up unless the halt works; a bulk stop forgets it all the same, and the clean-up of a failed start is safe if and only if there was no core or the halt works |
| SessionSafety.CommitAgreesWithDriver | session/runner.go:482-673 | in every run a task that succeeds commits, over whatever the row said, READY with the core recorded or IDLE with the core cleared; one that fails changes no row, and no other row is ever touched |
| SessionSafety.RenameAttachesTwice | db/sessions.go:383-402 | for every session and new name, a run whose one unsafe step is a rename of it while loaded attaches it twice |
| SessionSafety.FailedCleanUpAttachesTwice | session/manager.go:683-702 | for every session, a run whose one unsafe step is the failing clean-up of a failed start attaches it twice; for DOCKER the clean-up need not fail by itself |
| SessionExposure.AttachedTwiceExact | session/manager.go:573-740 | from a reached state between handlers with no bulk stop pending, some run without renames of loaded sessions, failed clean-ups and restarts over containers attaches a session twice if and only if the state is exposed |
| SessionExposure.UnexposedNeverAttaches | session/manager.go:573-877 | from a state between handlers that is not exposed no such run attaches a session twice, whatever is queued |
| SessionExposure.ClosingNeverAttaches | session/manager.go:1224-1251 | once starts are refused, or a bulk stop is queued with no start before it, no run attaches a session a second time until the service is restarted |
| SessionExposure.RestartExact | session/manager.go:403-437 | after a restart at any moment of any run, a session attached once can come to be attached twice if and only if some container outlived the process and its session is still in the table |
| SessionExposure.BulkStopThenRestartAttachesTwice | session/manager.go:441-462 | for every DOCKER session, loading it, a bulk stop, a restart and loading it again attaches it twice, with nothing unsafe but the restart |
| SessionHandlers.LoadIsARun | session/manager.go:573-740 | some run of the step system does exactly what the start handler does |
| SessionHandlers.UnloadIsARun | session/manager.go:821-877 | some safe run of the step system does exactly what the stop handler does, whatever is queued on the runner and whether or not its worker is open |
| SessionHandlers.UnloadedOutOfOrder | session/driver.go:401-417 | for every PTY session a run unloads it after a failed stop and its core was torn down on a dead context |
| SessionDrain.CascadeEnds | session/manager.go:1106-1139 | once clients stop asking, the number of further internal steps is bounded by the weight of the state, whatever fails and however often the service restarts |
| SessionDrain.InternalLighter | session/runner.go:243-257 | every internal step, including a command's exit and a notification, makes the state lighter |
| SessionDrain.NeverStuck | session/runner.go:613-673 | while anything is pending some internal step can be taken without waiting for a command or a loop to end |
| CapacityChange.BuffersAgree | session/manager.go:1046-1093 | over any failures, retries and restarts a buffer is absent or sized as its record says, and so is every fetched record, if no read in flight straddles a change |
| CapacityChange.RetryInstalls | session/manager.go:1046-1088 | a failure-free change goes through from any such state and whoever fetches the record next opens the buffer at the new capacity |
| CapacityChange.CommitAgreesExact | session/manager.go:1074-1088 | after the record half the stores agree if and only if the buffer is absent or already has the new size |
| CapacityChange.OpenAgreesExact | api/session_io_core.go:235-264 | after an opening the stores agree if and only if the buffer was there or what was fetched is what the record says |
| CapacityChange.AgreementExact | session/manager.go:1046-1088 | the stores agree all along a run if and only if no buffer is opened by an outdated record and no change is committed over a buffer of another size |
| CapacityChange.ReadInWindowBreaks | session/manager.go:1046-1088 | one output read in the window breaks the agreement |
| CapacityChange.StraddlingReadBreaks | api/session_io_core.go:235-264 | one read that fetched before the window and opens after it breaks the agreement |
| Lifecycle.StoppedIsForever | session/manager.go:379-401 | no call ever overwrites STOPPED, a failing Start included |
| Lifecycle.AtMostOneSuccess | session/manager.go:379-438 | at most one Start succeeds and the tear down runs at most once |
| Lifecycle.NoStartAfterStop | session/manager.go:441-450 | unless a Stop lost its race, a returned Stop means STOPPED and no later Start succeeds |
| Lifecycle.LateStartExact | session/manager.go:441-450 | after a returned Stop a later Start can come to succeed if and only if the state is exposed |
| Lifecycle.ExposedIsReachable | session/manager.go:447-450 | a run in which a Stop returns while the word is RUNNING |
| Lifecycle.ReopenedExact | session/manager.go:433-462 | once STOPPED, session starts can be allowed from some point on if and only if they are or some Start still runs, and refused if and only if they are or the tear down is still to come |
| Commands.BuildStdinInputFromCommands | models/command.go:126-164 | fails exactly when some command is invalid and names the first; otherwise yields the batch's encoding |
| Commands.EncodingAppend | models/command.go:126-164 | the encoding of two batches is the concatenation of theirs |
| Commands.CtrlFolds | models/command.go:141-144 | a letter and its other case give the same byte, between 1 and 26 |
| Commands.RawCarriesAnything | models/command.go:150-160 | every byte string is what a RAW command with its Base64 text feeds |
| QueueNames.NamesInjective | session/common.go:11-28 | each name builder is injective for arbitrary identifiers |
| QueueNames.NamesDisjoint | session/common.go:11-28 | no name of one kind is a name of another kind |
| IpcSafety.RunKeepsInv | session/runner.go:832-973 | over every run, loops of replaced runners included: requests, tasks, log, replies and verdicts match the clients they belong to, tickets stay in order, the input is the log's encoding |
| IpcSafety.SuccessMeansWrittenOnce | api/session_io_core.go:48-172 | a client told of success had exactly its own batch written once, while ready and commanded, in one piece of the current input |
| IpcSafety.InputIsAcceptedBatches | session/runner.go:749-820 | the input since the last driver start is the accepted batches' encodings in the order their requests were pushed |
| IpcSafety.RepliesAreOnesOwn | api/session_io_core.go:123-170 | the reply a client takes carries its own request id, though it is never checked |
| IpcSafety.MalformedBatchGetsNoReply | session/runner.go:832-845 | a client with an empty or invalid batch never has a reply to take |
| IpcReplies.ReplyExact | session/runner.go:832-915 | a waiting client can still come to take a reply if and only if one is in its queue, a loop that is not cancelled owes it one, or its request is queued with a non-empty, all valid batch |
| IpcReplies.QueuedReplyExact | session/runner.go:832-973 | a queued request can be answered if and only if its batch is non-empty and all valid, and then with nobody disturbing a loop that has neither ended nor been cancelled |
| IpcReplies.PoppedAnsweredExact | session/runner.go:879-914 | the loop comes to answer the message it popped if and only if that is a well-formed run or stop request; otherwise it answers nobody |
| IpcReplies.TwoLettersDropped | api/session_io_mcp.go:31-35 | a run in which a CTRL command with two letters is queued, popped and dropped, and its client can never be answered |
| IpcSafety.LoopEndedExact | session/runner.go:917-973 | the receive loop has ended if and only if the queue handle was not obtained, a pop failed, or a check of the context came after its cancellation |
| IpcSafety.ReceivedMessagesNeverEnd | session/runner.go:956-972 | while the handle is obtained, no pop fails and nobody cancels, the loop goes on whatever is received |
| IpcSafety.CancelledLoopEnds | session/runner.go:939-954 | a cancelled loop makes at most four more steps, whatever else happens in between |
| IpcSafety.CancelledLoopCanEnd | session/runner.go:939-954 | it can always end by itself in as many, without popping anything or waiting for the worker |
| AnsiStrip.ScannerExact | api/session_io_core.go:177-182 | the scanner finds a word of the expression at the front exactly when there is one |
| AnsiStrip.PrefixFree | api/session_io_core.go:177-182 | no matched word is a proper prefix of another |
| AnsiStrip.StripIsReplaceAll | api/session_io_core.go:187-189 | replacing every leftmost match by nothing and the greedy scan are the same relation |
| AnsiStrip.RemovedExact | api/session_io_core.go:187-189 | a code point is removed if and only if it lies in a match, wherever that begins |
| AnsiStrip.ChunkwiseExact | api/session_io_core.go:184-189 | stripping chunk by chunk equals stripping the whole for every continuation if and only if no tail of the first chunk is the beginning of a longer sequence |
| AnsiStrip.NotIdempotent | api/session_io_core.go:187-189 | an escape before a short sequence and its own tail strip to a new sequence |
| AnsiBytes.RawControlsSurvive | api/session_io_core.go:174-189 | bytes without 0x1B and 0xC2 are left alone, raw 8-bit controls included |
| AnsiBytes.HighByteRemovedExact | api/session_io_core.go:174-189 | a byte past ASCII is removed if and only if it encodes, after or as 0xC2, an 8-bit control in a match, which is every control but an introducer that begins no sequence; an undecodable byte is always kept |
| AnsiBytes.UnchangedExact | api/session_io_core.go:187-189 | the filter leaves data alone if and only if no code point of it lies in a match |
| AnsiBytes.GlyphsLossless | api/session_io_core.go:187-189 | reading bytes as code points forgets none of them, valid or not |
| AnsiBytes.ChunkwiseBytesExact | api/session_io_core.go:184-189 | stripping byte chunk by byte chunk equals stripping the whole for every continuation if and only if the chunk does not end in 0xC2 and no tail of its code points is unfinished |
| Paging.CappedKeepsPositive | api/session_io_core.go:202-210 | a limit stays at least 1, and never exceeds the request, the ceiling or the capacity |
| Paging.ReadSessionOutputChunk | api/session_io_core.go:299-323 | unknown session, missing buffer and failed read are told apart; a success reports where the data starts, how many buffer bytes were read, and their content |
| Paging.ReadSessionOutputNewest | api/session_io_core.go:338-362 | likewise for the newest bytes |
| Paging.NewestIsTheEnd | api/session_io_core.go:325-362 | the newest chunk ends where the stream ends and paging on from it skips nothing still retained |
| Paging.FollowingIsFaithful | api/session_io_core.go:315-323 | under any writes and limits the pieces are true slices of the history, in order and disjoint, and every skipped byte had aged out |
| Paging.CompleteExact | api/session_io_core.go:315-323 | what was collected is the whole history from the start if and only if no read came too late |
| Paging.EmptyReadExact | api/session_io_core.go:202-210 | a read brings nothing exactly when the client has caught up |
| Paging.PagingEnds | api/session_io_core.go:299-323 | once writing stops, reads have caught up if and only if their capped limits add up to the retained backlog; as many as there are bytes always do |
| Base64.GoRoundTrip | models/command.go:99-110 | Go decodes what it encoded |
| Base64.PyRoundTrip | poc/demo/cli.py:1319-1323 | Python decodes what Go encoded |
| Base64.PyPrefix | poc/demo/cli.py:1319-1323 | an encoded text cut short decodes to a beginning of the data or not at all |
| Tail.TailSessionOutput | api/session_io_rest.go:626-655 | the response body is the framed chunks up to the first error, cut where the connection breaks |
| Tail.StreamOutput | api/session_io_rest.go:626-655 | the loop itself, for any transformation of a chunk |
| Tail.SessionTail | poc/demo/cli.py:1314-1323 | the client's loop prints the decoded data lines and stops at the first that does not decode |
| Tail.EndToEnd | poc/demo/cli.py:1314-1323 | the client prints exactly the concatenation of the chunks |
| Tail.ReadsReachTheTerminal | api/session_io_rest.go:626-655 | from buffer reads to terminal: everything when the connection holds, a beginning of it when it breaks anywhere |
| Tail.DataLineClean | api/session_io_rest.go:634-635 | an encoded line holds no line break, so framing is unambiguous |
| MemorySize.FormatRoundTripExact | poc/demo/cli.py:377-397 | a byte count reads back as itself if and only if 53 bits hold it up to a power of two and it is below 2^1024 |
| MemorySize.SmallCountsRoundTrip | poc/demo/cli.py:387-397 | every count below 2^53 reads back as itself |
| MemorySize.FirstThatDoesNot | poc/demo/cli.py:377-397 | 2^53 + 1 does not |
| Floats.RoundTripExact | poc/demo/cli.py:384-384 | rounding a whole number to a double, scaling and truncating is exact if and only if the number is representable |
| Floats.RoundIsNearest | poc/demo/cli.py:384-384 | reading a decimal number rounds to the nearest double, ties to even, at full precision |
| MemorySize.ParseTextExact | poc/demo/cli.py:203-203 | a size is read exactly when it is digits, perhaps a point and digits, blanks and a unit, with the value these give |
| MemorySize.UnitExact | poc/demo/cli.py:203-211 | a unit is read exactly when it is one of the listed spellings, in any case |
| HostMounts.ParseHostMount | poc/demo/cli.py:321-349 | accepts exactly the renderings of canonical mounts and returns the mount rendered; a mount comes back from its rendering if and only if it is canonical |
| HostMounts.RenderHostMount | poc/demo/cli.py:352-360 | renders the parts present, joined by colons |
| HostMounts.RenderedInjective | poc/demo/cli.py:352-360 | canonical mounts that render alike are alike |
| WritableDirs.RoundTripExact | poc/demo/cli.py:400-431 | a directory comes back from its rendering if and only if its path is absolute and colon-free and its size is positive and survives floating point |
| EnvVars.RoundTripExact | poc/demo/cli.py:434-458 | a variable comes back from its rendering if and only if its name is a valid name |
| EnvVars.RenderParsed | poc/demo/cli.py:434-458 | an accepted assignment renders as itself up to blanks around the name; a bare name carries the shell's value |
| EnvVars.DedupeEnvVars | poc/demo/cli.py:461-473 | distinct names, exactly the input's, in the order first seen, each with its last value |
| EnvVars.DedupedUnique | poc/demo/cli.py:461-473 | these conditions determine the result |

## Left out

- Redis, the SQL engine, the task processor, Docker, the PTY system calls and the workspace service:
  abstract objects here. Queues are first-in first-out, a transaction is all or nothing, a worker runs one
  task at a time, submitting to a closed worker fails, a stopped worker counts as closed even when stopping
  it reports an error.
- The bound of 10 pending tasks of a worker: queues are unbounded.
- Real time: every time-out is a failure that may happen. A driver's daemons are spawned only after the last
  call of its start that can fail, so a failed start has none.
- REST and MCP handlers, metrics, configuration, logging, error texts and call stacks.
- JSON: messages are values, so text that is not valid UTF-8 and is changed by marshalling is not covered.
- ListSessions: filter, order, limit and offset are the database's; its driver filter is validated and then
  never applied, so nothing is claimed of it.
- Created and updated timestamps of rows.
- The manager's context ending while a handler waits for a runner's task: the handler waits until the task
  is done.
- `SessionManager.Manager.HandleStartSession`: the runner is built from the row found first; a rename
  between that and the runner's own lookup counts as the runner factory failing.
- `SessionManager.Manager.HandleStopAllSessions`: the order in which the map is traversed is a parameter.
- One service process at a time over a table; two at once are not part of this model. A restart that fails
  to reset the table starts nothing.
- What a container does after its process has ended: it stays up until it is removed, which counts as its end.
- A bulk stop whose caller gave up waiting, and that is taken up later, counts in `Lifecycle.ReopenedExact`
  as not taken up.
- That a failed write to the input buffer leaves no byte behind is assumed; the stream store is not part of
  this model.
- `SessionExposure.AttachedTwiceExact`: states in the middle of a handler are covered one way only, by the
  invariant `SessionSafety.Secure` that every safe step keeps. With a bulk stop pending,
  `SessionExposure.ClosingNeverAttaches` covers the states with no start queued before it; what an exposed
  state with such a start can still do depends on the names of the starts and stops queued there.
- `SessionDriver.Driver.Stop`: that a DOCKER tear down fails on a dead context is taken from the driver's
  own comment, since the container runtime is not part of this model.
- `IpcSafety.InputIsAcceptedBatches`: the input is the stream as written; the ring buffer keeps its last
  capacity bytes, and that the copier to the core keeps up with the writers is not claimed.
- `IpcSafety.SuccessMeansWrittenOnce`: nothing is claimed for a client that was refused or gave up; its
  request can still be written later, because it survives in the queue.
- The content of the input buffer while a driver start fails: it counts as dropped.
- Requests a client sends are numbered by request ids assumed unique, as ULIDs are.
- Splitting the response into lines is the HTTP library's; lines are split at line feeds here, and
  `Tail.DataLineClean` shows that nothing else in a frame could be taken for one.
- Unicode digits and spaces in the command line's expressions: texts are ASCII.
- Interactive prompts, capability names, interface and port parsing of the command line.
- Reading a session's output after its buffer was recreated with another capacity: the history is that of
  one buffer.
- The marshalling of the command and metadata columns.
- The receive loop, a client's submission and the manager's Start and Stop are events of state machines
  rather than methods, since what matters about them is their interleaving; within one event nothing else
  moves.
