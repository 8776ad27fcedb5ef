# go-signalium: verified model

A Dafny model of go-signalium, the outbound Signal delivery service: the outbox table and the
workers, reaper and operators that step on it, the TCP JSON-RPC client to signal-cli, concurrent
enqueueing with attachments, inbound dedup, and the migration runner. `dafny verify dfyconfig.toml`
checks everything.

## How to read it

| file | content |
|---|---|
| `Domain.dfy`, `Messages.dfy` | rows, and each SQL statement as a function on rows and as a method of the table it updates |
| `Backoff.dfy` | the retry delay in exact arithmetic, the random draw as a parameter |
| `Outbox.dfy` | the protocol: one step per SQL statement, per phase of a dispatch, per crash, lost write and clock tick |
| `OutboxLease.dfy`, `OutboxHistory.dfy`, `OutboxSchedule.dfy`, `OutboxAlerts.dfy` | what every run of the protocol keeps |
| `SkipLocked.dfy`, `OutboxClaims.dfy`, `OutboxClaimsHistory.dfy` | the claim split into begin, lock and commit; the protocol with such claims, and what its runs keep |
| `Worker.dfy`, `WorkerRuns.dfy` | dispatch with its MarkSent retry, and the drain loop, in time; each is a run of the protocol |
| `RpcClient.dfy`, `RpcClientProofs.dfy` | the client's mutex sections as a class, its interleavings as a protocol, and the proofs |
| `Attachments.dfy`, `Enqueue.dfy` | names, keys, upload, rollback and download; concurrent Enqueue calls |
| `Inbound.dfy` | the bounded event buffer, the ignore filter and the first-wins table |
| `Migrations.dfy`, `MigrationRuns.dfy` | the cumulative hash check; replicas under the advisory lock |

A run is any sequence of steps each of which is enabled when it is taken, so a statement about
all runs covers every interleaving and any number of workers, callers or replicas. I/O, clocks,
randomness and failures are parameters of the steps. All times are points on one clock.

## Assumptions

- A dispatch ends by its claim time plus `PerAttemptTimeout`: the clock does not pass that point
  while the dispatch is live. The claim time is `now()` of the claiming transaction, so the time
  from that instant to the start of the attempt counts as part of it, also where the claim is split.
- A write takes effect when it is sent, or not at all; it may take effect and still report an error.
- uuids are fresh: dispatch, request, call and row ids are not reused.
- Nothing in the code sets `deleted_at`; the statements read it, and it stays NULL in every run.
- A refused or failed Put or Insert leaves nothing behind, and Remove succeeds.
- The digest of the hash chain is injective.

## Where promises and code differ

- Lease exclusion holds in every run exactly when `PerAttemptTimeout < LeaseDuration` if operators
  may PUT PENDING, and exactly when `PerAttemptTimeout <= LeaseDuration` without PUT. With every
  PUT allowed, the only thing that breaks it is a Resend that takes effect on the row of a live
  dispatch before its deadline.
- `README.md` of the repository (line 51) reads as if a transient failure is retried; a FAILED row
  is never claimed again (`ParkedRowsStay`). The code is followed.
- docs/worker.md caps the backoff and then draws; the code draws and then caps. The two agree
  exactly when the exponential term is within the cap, or the cap is zero
  (`DocsAgreeExactlyBelowCap`).
- The comment in worker.go says the alert mirrors the SQL CASE. In every run it does exactly when the
  claims since the last Resend stand on the same side of the limit at the attempt's claim and at its
  write (`AlertMirrorsExactly`). Without a Resend that takes effect on the row of a live dispatch
  before its deadline, whatever operators PUT, the one exception is a Resend during an attempt that
  was the last one by the worker's own copy (`AlertMirrorsTable`), which a sweep and a Resend at the
  deadline bring about (`AlertCanMisreport`). After such a Resend there are others
  (`LoudResendMisreports`).
- failPending is documented to release every waiter. Of the calls that wait between connections it
  misses exactly those that registered after it and before the connection was dropped; they wait
  for their timer (`StrandedExactlyIfLate`, `StrandedCallExists`).
- Validation takes an empty string for an absent recipient or group; the CHECK on the table does
  not, so such a request never becomes a row (`InsertsExactly`, `EmptyTargetIsNeverInserted`).
- docs/persistence.md (line 73) says that a repeated POST with the same idempotency key returns the
  original row. A call that begins after the row exists can return it exactly when the key is not
  empty: an empty one skips the lookup but is unique (`LaterRepeatReturnsRowExactly`). A call that is
  under way when the row appears can return it exactly when it has not looked the key up yet
  (`RepeatReturnsRowExactly`); a retry sent while the first call is still uploading fails
  (`OverlappingRetryFails`).
- Attachments that share a sanitised name overwrite each other (`RoundTripExactlyWithoutClash`,
  `RowsDownloadTheirOwnBytes`, `ClashExists`).
- A failed download is said to clean up what it wrote; the file whose copy failed stays, and the
  worker does not remove it either (`FailedDownloadLeavesNothingExactly`, `PartialFileStays`).
- Two migration files with the same version: the second is never applied and later runs report
  success (`NilMeansAppliedExactly`). The hash chain pins the file list only if no file name can be
  read at the start of an earlier file (`HashChainExactly`, `AmbiguityExists`).

## Model

| member | source | states |
|---|---|---|
| Backoff.RawIsExponential | internal/service/backoff.go:27-33 | the exponential term is base times two to the number of attempts before this one, and zero without an attempt |
| Backoff.Delay | internal/service/backoff.go:27-39 | the delay lies in [0, max] and never exceeds base doubled per attempt |
| Backoff.DelaysExactly | internal/service/backoff.go:13-39 | full jitter reaches exactly the whole delays below the exponential term, up to the cap |
| Backoff.DocsAgreeExactlyBelowCap | internal/service/backoff.go:17-38 | drawing then capping equals capping then drawing for every draw exactly when the exponential term is within the cap or the cap is zero |
| Messages.MessageTable.Insert | internal/repo/sqlc/signal_messages.sql.go:220-245 | a new PENDING row, due at once, no attempts, with the deadline and limit asked for, every other row unchanged |
| Messages.MessageTable.ClaimPending | internal/repo/sqlc/signal_messages.sql.go:37-57 | an unlocked, undeleted row before its deadline that is due and PENDING or past its lease, with the earliest schedule, is leased, attempts and stamp with it and no other column; or there is none and nothing changes |
| Messages.MessageTable.MarkSent | internal/repo/sqlc/signal_messages.sql.go:395-401 | SENT, the result and the stamp on that row whatever its status, no other column; a missing id is no error |
| Messages.MessageTable.MarkFailed | internal/repo/sqlc/signal_messages.sql.go:372-382 | FAILED below the attempt limit and PERMANENT_FAILED from it on, the error, the schedule and the stamp on that row, no other column |
| Messages.MessageTable.MarkTimedOut | internal/repo/sqlc/signal_messages.sql.go:413-432 | exactly the overdue open rows become TIMED_OUT, and their number is returned |
| Messages.MessageTable.Resend | internal/repo/sqlc/signal_messages.sql.go:434-443 | every row but a PENDING, SENDING or SENT one is reset to PENDING, due at once, no attempts, no error, deadline and result kept |
| Messages.MessageTable.ResendSignalMessage | internal/handler/signal_messages.go:152-164 | reports a missing row, echoes the row after the call, no-op on other statuses, and fails when a statement does, after the second one with the row reset |
| Messages.MessageTable.UpdateSignalMessage | internal/handler/signal_messages.go:129-147 | refuses SENDING and missing rows, otherwise writes the status and the stamp alone |
| Messages.TimeoutReaper.Reap | internal/worker/timeout_reaper.go:128-134 | the sweep, and a counter that grows by exactly the rows flipped |
| Messages.SweepSettles | internal/repo/sqlc/signal_messages.sql.go:413-421 | after a sweep no open row is overdue, a second sweep at that instant flips none, the changed rows are exactly those counted, and no claimable row is among them |
| Messages.SweepChangesExactly | internal/repo/sqlc/signal_messages.sql.go:413-421 | the sweep times out exactly the undeleted PENDING, SENDING and FAILED rows at or past their deadline, status and stamp alone |
| OutboxLease.ClaimableExactly | internal/repo/sqlc/signal_messages.sql.go:37-57 | a row can be claimed, given what others have locked, exactly when it is eligible, and never while locked |
| OutboxLease.AllCanCrash | internal/worker/worker.go:223-260 | every dispatch can crash at any point without touching the table |
| OutboxLease.LeaseExclusion | internal/worker/worker.go:208-260 | with PUT to PENDING or SENT, Resend, sweeps, crashes and lost writes at any time, no message has two live dispatches in any run if and only if an attempt is shorter than the lease |
| OutboxLease.LeaseExclusionWithoutPut | internal/repo/sqlc/signal_messages.sql.go:37-57 | without PUT the same holds if and only if an attempt is no longer than the lease |
| OutboxLease.RunKeepsLease | internal/worker/worker.go:208-260 | the row of every live dispatch stays out of reach of other claims along every run |
| OutboxLease.QuietRunsAreExclusive | internal/handler/signal_messages.go:129-164 | with every operator PUT allowed, exclusion holds in every run without a Resend that takes effect on a live, not overdue row |
| OutboxLease.LoudResendIsExactlyTheBreach | internal/repo/sqlc/signal_messages.sql.go:434-443 | a Resend lets the next claim double a dispatch exactly when it is such a Resend |
| OutboxLease.OperatorOverrideMakesResendLoud | internal/handler/signal_messages.go:208-221 | PUT FAILED on an in-flight row makes such a Resend reachable |
| OutboxHistory.DuplicateSends | internal/worker/worker.go:223-283 | between two Sends of one message lies a Resend of it or the end of a dispatch of it none of whose writes took effect |
| OutboxHistory.CrashAfterSendDuplicates | internal/worker/worker.go:247-258 | delivery is at least once: a crash after an accepted Send sends again after the lease |
| OutboxHistory.SentWasAccepted | internal/repo/sqlc/signal_messages.sql.go:395-401 | a SENT row carries the result of a Send that signal-cli accepted for it |
| OutboxHistory.SentIsAbsorbing | internal/domain/status.go:24-35 | without PUT and under the lease SENT never changes |
| OutboxHistory.SentAbsorbingExactlyUnderLease | internal/repo/sqlc/signal_messages.sql.go:372-401 | SENT is absorbing in all runs without PUT if and only if no attempt outlives its lease |
| OutboxHistory.ParkedRowsStay | internal/domain/status.go:24-35 | a row out of the worker's reach is never claimed again until a Resend or PUT of it; a terminal one does not change at all, and only FAILED still becomes TIMED_OUT |
| OutboxHistory.ResendRevivesExactly | internal/repo/sqlc/signal_messages.sql.go:434-443 | a Resend makes such a row claimable at once if and only if it is not SENT and not past its deadline |
| OutboxHistory.PhasesInOrder | internal/worker/worker.go:240-283 | in every run no Send is accepted that was not called, and no dispatch tries MarkSent more than three times |
| OutboxHistory.FailureIsRecorded | internal/worker/worker.go:297-304 | in every run, once a failure is written, acknowledged or not, the row carries that attempt's error and the schedule computed when it failed, whatever happened in between |
| OutboxHistory.SentIsCountedOnce | internal/worker/worker.go:247-259 | the sent counter counts each message at most once, and only SENT messages without a live dispatch |
| OutboxHistory.ColumnsAgree | internal/repo/sqlc/signal_messages.sql.go:372-443 | status, attempts, error and result of a row agree in every run without PUT |
| OutboxHistory.EveryRunWithoutPut | internal/worker/worker.go:206-322 | the history invariants hold from boot on |
| OutboxSchedule.ContractNeverChanges | internal/repo/sqlc/signal_messages.sql.go:372-443 | no run removes a row or changes its deadline or attempt limit, and a row a run changed carries the time of a change in that run |
| OutboxSchedule.OverdueIsNeverClaimed | internal/repo/sqlc/signal_messages.sql.go:434-443 | past its deadline a row is never claimed again, Resend and PUT included |
| OutboxSchedule.NoClaimPastDeadline | internal/repo/sqlc/signal_messages.sql.go:41-44 | no claim of any run took a row at or after its deadline |
| OutboxSchedule.SchedulesStayWithinHorizon | internal/worker/worker.go:297-299 | every schedule lies within the lease or the largest backoff from now |
| OutboxSchedule.LeftAloneIsRecovered | internal/repo/sqlc/signal_messages.sql.go:41-52 | a PENDING or SENDING row left alone longer than that is claimable or reapable |
| OutboxSchedule.AttemptsCountClaims | internal/repo/sqlc/signal_messages.sql.go:49-53 | attempts is the number of claims since the last Resend |
| OutboxSchedule.EveryRunFromBoot | internal/worker/worker.go:206-322 | the deadline, schedule and attempt invariants hold from boot on |
| OutboxAlerts.AlertMirrorsExactly | internal/worker/worker.go:297-322 | in every run, with any PUT, Resend and attempt length, the counter and Slack branch names the status that was written if and only if the claims since the last Resend stand on the same side of the limit at the attempt's own claim and at its write |
| OutboxAlerts.AlertMirrorsTable | internal/worker/worker.go:297-322 | with attempts shorter than the lease and any PUT, in every run without a Resend that takes effect on a live, not overdue row, it names it if and only if the row was not resent during an attempt that was the worker's last |
| OutboxAlerts.AlertMirrorsTableUnderLease | internal/worker/worker.go:297-322 | the same in every run whose PUTs are to SENT, or to PENDING with attempts shorter than the lease, with any Resend and attempts as long as the lease |
| OutboxAlerts.AlertCanMisreport | internal/worker/worker.go:310-321 | both sides of that condition are reachable: a run without PUT that reports a permanent failure while FAILED is written |
| OutboxAlerts.LoudResendMisreports | internal/worker/worker.go:310-321 | after PUT FAILED and a Resend of an in-flight row, an attempt whose row was not resent reports a retry while PERMANENT_FAILED is written |
| OutboxAlerts.AlertsFromBoot | internal/worker/worker.go:206-322 | the alert invariant holds from boot on |
| SkipLocked.InterleavingRefinesAtomicClaims | internal/repo/sqlc/signal_messages.sql.go:37-57 | any interleaving of split claims and other writes leaves the table of the claims replayed in commit order, each taking a row that is eligible at its transaction's time |
| SkipLocked.SameRowClaimsAreALeaseApart | internal/repo/sqlc/signal_messages.sql.go:42-52 | two claims of a row with no other write of it between are more than a lease apart |
| SkipLocked.ConcurrentClaimsAreDistinct | internal/worker/worker.go:194-221 | concurrent claims within a lease return distinct rows |
| SkipLocked.LockIsHeld | internal/repo/sqlc/signal_messages.sql.go:46 | a transaction keeps the row it locked until it ends, and nobody changes the row meanwhile |
| SkipLocked.ClaimsOverlap | internal/repo/sqlc/signal_messages.sql.go:37-57 | claims do overlap, and commit in another order than they began |
| OutboxClaims.SplitLeaseExclusion | internal/repo/sqlc/signal_messages.sql.go:37-57 | with claims that lock and commit while workers, reaper and operators go on, and a lease that counts from the transaction's start, no message has two live dispatches in any run under exactly the two conditions of atomic claims |
| OutboxClaims.SplitRunKeepsInv | internal/worker/worker.go:208-260 | along every such run no transaction that began by now can take the row of a live dispatch, and locked rows stay eligible |
| OutboxClaims.AtomicRunsAreSplit | internal/repo/sqlc/signal_messages.sql.go:37-57 | every run with atomic claims is one with split claims |
| OutboxClaims.ClaimCommitsLate | internal/repo/sqlc/signal_messages.sql.go:37-57 | a claim can lock and commit after its time, beside other statements, and its lease counts from its start |
| OutboxClaims.AllCanAbort | internal/worker/worker.go:208-218 | every claim under way can be given up without a trace |
| OutboxClaimsHistory.SplitRunKeepsChronicle | internal/worker/worker.go:206-322 | with split claims too, in every run without PUT under the lease, the log tells the story of every dispatch and row, SENT is counted once per message, the columns agree, and no claim takes a row overdue when its transaction began |
| OutboxClaimsHistory.SplitDuplicateSends | internal/worker/worker.go:223-283 | with split claims too, between two Sends of one message lies a Resend of it or the end of a dispatch of it none of whose writes took effect |
| OutboxClaimsHistory.SplitSentIsAbsorbing | internal/domain/status.go:24-35 | with split claims too, SENT never changes without PUT and under the lease |
| OutboxClaimsHistory.SplitAlertMirrorsExactly | internal/worker/worker.go:297-322 | with split claims too, the exact condition of the alert, in every run |
| Worker.Worker.MarkSent | internal/worker/worker.go:266-283 | at most three tries, none after the context ended, each at its own time; success and the sent counter exactly when one was acknowledged |
| Worker.SentExactlyIfTakesEffect | internal/worker/worker.go:266-283 | the tries leave the row SENT with the result exactly when one took effect, and otherwise as it was |
| Worker.Worker.Fail | internal/worker/worker.go:297-322 | the error and the schedule are written with the status by the limit, and exactly one of the retry and permanent counters moves, by the worker's own copy, exactly when the write was acknowledged |
| Worker.Worker.Dispatch | internal/worker/worker.go:223-260 | the row left behind, the time taken and every counter, for every outcome of download, build, Send and the writes |
| Worker.DispatchOutcome | internal/worker/worker.go:223-260 | column by column: the error and schedule of a failed download, build or Send if its write took effect, the result of an accepted Send exactly if a try did, and otherwise the row as claimed |
| Worker.Worker.Tick | internal/worker/worker.go:208-221 | the earliest eligible row is claimed and dispatched, or nothing was eligible |
| Worker.Worker.Drain | internal/worker/worker.go:172-192 | the history of claims, tables and counters while time passes; the loop ends with its context or when nothing is eligible |
| Worker.ReclaimNeedsLease | internal/worker/worker.go:247-258 | however its dispatch ends, a row can be claimed again only after the lease, and only if no write took effect |
| Worker.ReclaimsAreALeaseApart | internal/worker/worker.go:183-189 | a draining worker claims a row again only more than a lease after it claimed it last |
| Worker.DrainClaimsEachRowOnce | internal/worker/worker.go:183-189 | a drain whose claims fall within a lease, with more turns than rows, ends by itself with nothing eligible, having claimed each row that was eligible and is not past its deadline exactly once |
| Worker.DrainFollowsSchedule | internal/repo/sqlc/signal_messages.sql.go:45 | rows are first claimed in the order of their schedule, also those that fall due meanwhile |
| WorkerRuns.DispatchRun | internal/worker/worker.go:223-322 | a dispatch is a run of the protocol with the same row, duration and counters |
| WorkerRuns.DrainIsARun | internal/worker/worker.go:172-221 | so is a whole drain, from any table: what all runs keep, the worker keeps |
| RpcClient.TcpClient.FailAllPending | internal/signal/tcp_client.go:419-429 | every entry with room gets a disconnect and none is left |
| RpcClient.TcpClient.TryRegister | internal/signal/tcp_client.go:195-201 | the call is added exactly when the client is not closed |
| RpcClient.TcpClient.TakePending | internal/signal/tcp_client.go:389-394 | the entry is taken exactly when it was there |
| RpcClient.TcpClient.FinishShutdown | internal/signal/tcp_client.go:433-445 | closed set, and the gate closed unless it was |
| RpcClient.TcpClient.MarkShutdown | internal/signal/tcp_client.go:431-445 | pending failed, closed set, and the gate closed unless it was |
| RpcClientProofs.PendingAccounting | internal/signal/tcp_client.go:188-211 | in every interleaving the pending ids are exactly the registered calls not yet answered, failed or returned |
| RpcClientProofs.NothingAddedOnceClosed | internal/signal/tcp_client.go:114-124 | once closed is set no call is added: a Send that begins returns a shutdown, and one not yet registered never is |
| RpcClientProofs.QuietAfterExit | internal/signal/tcp_client.go:337-346 | after the dial loop exits nothing is pending ever again, every registered call has its value and none is held at a gate |
| RpcClientProofs.SingleDelivery | internal/signal/tcp_client.go:388-429 | a reply channel gets at most one value, the reader's send never blocks, and failPending never takes its default branch |
| RpcClientProofs.DisconnectReachesEveryone | internal/signal/tcp_client.go:417-429 | failPending leaves no call registered at that moment without a value |
| RpcClientProofs.ResponsesCorrelate | internal/signal/tcp_client.go:228-239 | a Send that returned a result returned the payload of a result line with its own id, one that returned a daemon error the error object of such a line, one that took a disconnect ErrDisconnected, and a shutdown only after Close |
| RpcClientProofs.SendReturnsItsAnswer | internal/signal/tcp_client.go:188-240 | from every state with an open connection a Send can be written, answered and returned, with exactly what the line carries |
| RpcClientProofs.GivingUpIsReturned | internal/signal/tcp_client.go:214-227 | a Send that stops waiting, finds no connection or fails to write returns that reason, whatever happens afterwards |
| RpcClientProofs.SendCanReturn | internal/signal/tcp_client.go:188-240 | no Send is ever stuck: by its own steps, at most four, it can return |
| RpcClientProofs.CancelReleases | internal/signal/tcp_client.go:221-222 | once cancelled, a call at a gate or waiting for a reply can return a shutdown at once |
| RpcClientProofs.StaleWriteFails | internal/signal/tcp_client.go:271-291 | a Send that took its connection before it was dropped and had not written can only return a failed write |
| RpcClientProofs.NoFrameAnswersTwice | internal/signal/tcp_client.go:388-401 | no line answers two calls |
| RpcClientProofs.GateSafety | internal/signal/tcp_client.go:323-353 | no gate is closed twice, a dial finds its gate open, and a call waits at a gate only between connections |
| RpcClientProofs.HeldUntilDial | internal/signal/tcp_client.go:253-269 | until a dial succeeds or the loop has shut down, a call at the open gate gets nowhere but back to its caller |
| RpcClientProofs.RedialsExactly | internal/signal/tcp_client.go:339-353 | after a lost connection the loop redials if and only if the client was not closed when it was dropped and is not cancelled when it decides |
| RpcClientProofs.CloseCanFinish | internal/signal/tcp_client.go:114-124 | from every reachable state Close can bring the dial loop to its exit |
| RpcClientProofs.NobodyIsStrandedLater | internal/signal/tcp_client.go:337-353 | without a connection the calls left to their timer only become fewer |
| RpcClientProofs.StrandedExactlyIfLate | internal/signal/tcp_client.go:337-343 | in every run a call waiting between connections is left to its timer if and only if it registered after the last failPending, before the connection was dropped, and then it wrote in that window; any other has its value to receive |
| RpcClientProofs.StrandedCallExists | internal/signal/tcp_client.go:337-343 | such a call is reachable |
| Attachments.SanitizingIsAProjection | internal/service/send_message.go:267-281 | a name is rejected or made safe, safe names are exactly those that pass unchanged, sanitising is idempotent and character by character, and rejected are exactly paths without a component and hidden names |
| Attachments.BaseIsLastComponent | internal/service/send_message.go:272 | the base is the last path component, a slash for slashes alone and a dot for the empty path |
| Attachments.NameSurvivesKey | internal/storage/object_store.go:127 | the file name survives the trip through the object key |
| Attachments.TextIdentifiesKey | internal/service/send_message.go:242 | keys of uuids are the same text exactly when they are the same key |
| Attachments.ObjectStore.Rollback | internal/service/send_message.go:256-265 | exactly the given keys are removed |
| Attachments.ObjectStore.UploadAll | internal/service/send_message.go:223-254 | the keys in the order of the parts with every object stored, or nothing left behind, and which |
| Attachments.ObjectStore.DownloadAll | internal/storage/object_store.go:94-143 | one path per reference in order with every file written, or the files written so far removed and what the failed copy left, and which |
| Attachments.FailedDownloadLeavesNothingExactly | internal/storage/object_store.go:105-143 | a failed download leaves the disk as it was if and only if the failed copy had not opened its file or shared its path with an earlier one |
| Attachments.PartialFileStays | internal/storage/object_store.go:133-137 | what a failed copy leaves is as many of the object's first bytes as it got to, none if the object is missing |
| Attachments.RoundTripExactlyWithoutClash | internal/storage/object_store.go:94-143 | upload then download gives each part its own bytes back, in order, if and only if parts that share a sanitised name carry the same bytes |
| Attachments.ClashExists | internal/service/send_message.go:267-281 | file names that differ can clash |
| Attachments.DistinctNamesRoundTrip | internal/worker/worker.go:324-333 | with distinct names the round trip succeeds, on distinct paths directly under the message's directory |
| Enqueue.ValidatesExactly | internal/service/send_message.go:202-221 | accepted are exactly the requests with an external id that has text and at most 255 bytes, content that has text, exactly one of recipient and group, and no sender but the configured one; otherwise the error names the first thing wrong |
| Enqueue.BytesCounted | internal/service/send_message.go:206 | the length is that of the UTF-8 encoding |
| Enqueue.InsertsExactly | internal/service/send_message.go:147-221 | a request can become a row if and only if it is valid, does not carry both targets, every part can be read, named and stored, and no row has its external id or its key |
| Enqueue.FailuresAreExplained | internal/service/send_message.go:147-254 | a failed call's error names what went wrong first, validation, lookup, the first part not accepted or the insert, and it left no object behind |
| Enqueue.CallCanFinish | internal/service/send_message.go:147-200 | from every reachable state every call can go on to its end by itself, and an insert that is not answered adds no row |
| Enqueue.EmptyTargetIsNeverInserted | internal/service/send_message.go:212-216 | a recipient with an empty group passes validation and never becomes a row |
| Enqueue.RowsAreValid | internal/service/send_message.go:202-221 | every row of every reachable state comes from a request with a usable external id and content, exactly one target that is not NULL, and the configured sender |
| Enqueue.StoreMatchesRows | internal/service/send_message.go:147-200 | for any interleaving, once all calls are done the store holds exactly the objects rows reference |
| Enqueue.RowsDownloadTheirOwnBytes | internal/service/send_message.go:223-254 | in every reachable state a row's references download to its own request's bytes, in order, if and only if parts of that request with the same sanitised name carry the same bytes |
| Enqueue.OneRowPerKey | migrations/20260519000000_init.sql:20-21 | each idempotency key names at most one row, every successful call with it returned that row, and a row's references are its parts' keys in order |
| Enqueue.RepeatsShortCircuit | internal/service/send_message.go:152-164 | a call whose key already has a row ends with that row or a failed lookup and never stores an object, whatever runs beside it; if the key is empty it never succeeds |
| Enqueue.LaterRepeatReturnsRowExactly | internal/service/send_message.go:152-164 | a call that begins after the row exists can return it if and only if the key is not empty |
| Enqueue.RepeatReturnsRowExactly | internal/service/send_message.go:152-197 | a call under way when another call's row has its key can return that row if and only if it has not looked the key up yet; past its lookup it never succeeds |
| Enqueue.OverlappingRetryFails | internal/service/send_message.go:155-197 | a retry with a non-empty key that overlaps the first call fails although the row has its key |
| Inbound.PersistedExactly | internal/service/inbound_listener.go:119-303 | kept are exactly the receive events whose envelope parses, carries no ignored kind and has a source and a timestamp; the row is keyed by its envelope, and group, content and attachments each come from the first of data, edit and sync that has them, or are empty |
| Inbound.FirstWins | internal/repo/sqlc/inbound_signal_messages.sql.go:12-31 | the table is the first-wins dedup of the handled events by source and timestamp |
| Inbound.RedeliveryChangesNothing | migrations/20260523000000_add_inbound_table.sql:3-6 | redelivering handled events in any order and number changes nothing |
| Inbound.Inbox.Notify | internal/signal/tcp_client.go:403-414 | an event is queued, or dropped and counted when 64 wait; a frame without a method is no event |
| Inbound.Inbox.Consume | internal/service/inbound_listener.go:119-174 | the oldest event is handled once, and a failed insert changes nothing |
| Inbound.Inbox.Drain | internal/service/inbound_listener.go:104-117 | everything queued is consumed in order, and exactly the events whose insert was answered are handled |
| Inbound.NotificationsAreConserved | internal/signal/tcp_client.go:403-414 | every notification was consumed, is one of at most 64 queued or was dropped, each once |
| Inbound.TableIsDedup | internal/service/inbound_listener.go:104-174 | without insert errors the table is the first-wins dedup of the rows there before and what was consumed |
| Migrations.VersionPrecedesUnderscore | internal/db/migrate.go:170-174 | a version is what precedes the first underscore, and a name without one has none |
| Migrations.PendingMigrations | internal/db/migrate.go:139-203 | the list is accepted exactly when every file has a version, a sum and the matching cumulative hash; then the unrecorded files in order, else the first problem |
| Migrations.HashChainExactly | internal/db/migrate.go:163-191 | matching hashes make the embedded files an initial segment of the summed list, bodies included, for every embedded list if and only if no summed name can be read at the start of an earlier file |
| Migrations.AmbiguityExists | internal/db/migrate.go:163-191 | such a list exists, with versions and in the order of its names |
| Migrations.InitialSegmentsAreAccepted | internal/db/migrate.go:163-191 | every initial segment of the summed list is accepted |
| MigrationRuns.MigrationsRunOnceInOrder | internal/db/migrate.go:32-89 | with any number of replicas, crashes, lost sessions, lost answers and failed unlocks the recorded versions are an initial segment, each body took effect once and in order, one replica with a session is at work, and success means all are applied |
| MigrationRuns.NextVersionIsNew | internal/db/migrate.go:205-229 | under the lock the version about to be recorded never is yet |
| MigrationRuns.ApplyingCanFinish | internal/db/migrate.go:76-88 | a replica that applies and keeps its session can commit every pending file, release the lock and return nil |
| MigrationRuns.NewReplicaCanFinish | internal/db/migrate.go:32-89 | whenever the lock is free a new replica can bring the database up to date |
| MigrationRuns.LockOutlivesNobody | internal/db/migrate.go:38-56 | also right after the holder died or lost its session |
| MigrationRuns.FailuresHaveCauses | internal/db/migrate.go:58-88 | a replica returns an error only after a failed listing, a transaction not known to commit or a lost session |
| MigrationRuns.VersionsRecordedOnce | internal/db/migrate.go:217-224 | no version is recorded twice and one body took effect per version, for every file list |
| MigrationRuns.LostBeforeListing | internal/db/migrate.go:58-70 | a replica that lost its session before it listed never returns nil |
| MigrationRuns.CutOffCanReturn | internal/db/migrate.go:44-56 | a lost session does not hang a replica, whoever has the lock |
| MigrationRuns.UnreleasedLockStays | internal/db/migrate.go:48-56 | a lock that could not be released stays taken until its session ends, and nobody else works meanwhile |
| MigrationRuns.SkippedStaysOut | internal/db/migrate.go:33-36 | with auto-run disabled a replica changes nothing |
| MigrationRuns.NilMeansAppliedExactly | internal/db/migrate.go:192-194 | success means every body was applied if and only if the versions are distinct |

## Left out

- Postgres, MinIO, sockets, JSON and the file system: tables, maps and nondeterministic success or failure stand for them.
- Wiring, configuration, generated code, error mapping, logging and Slack payloads: no hard property.
- Multipart parsing: the part list is an input, each part under its sanitised name.
- List, Count and stats queries, and the backlog gauges: read-only.
- The groups client, the tmp-file sweeper, nextBackoff and jitter: they would only add easy members.
- Fire-and-forget Send: it never touches the pending map.
- Parsing of atlas.sum and the sort of the embedded names: the model starts from the parsed map and the sorted list.
- Floating-point rounding in the backoff and the narrowing of attempt limits and timeouts to 32 bits.
- A process crash inside Enqueue, an Insert that commits but reports an error, and a Remove that fails: each leaves objects behind by design.
- A database write that takes effect only after its client gave up on it.
- Messages.MessageTable.ResendSignalMessage: nothing runs between its three statements; in the protocol Resend is a step of its own.
- RpcClient.TcpClient.MarkShutdown: nothing runs between its two mutex sections; in the protocol they are separate steps.
- SkipLocked.InterleavingRefinesAtomicClaims: a split claim need not take the earliest row any more, nor one eligible at its commit; OutboxClaims.dfy has the protocol with such claims.
- Worker.Worker.Drain: no other writer runs beside the loop; the protocol in Outbox.dfy is what covers them.
