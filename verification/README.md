# Verified model of a mail daemon's concurrent core

A Dafny model of the parts of the postblox mail daemon whose correctness is hard to see by reading: the approval
protocol that guards dangerous tool calls, the incremental IMAP mirror, the life of sync workers, the request
multiplexer of the IPC layer, and the algorithmic kernels around them. `dafny verify dfyconfig.toml` checks the
whole project.

How the pieces fit together:

- **Approvals** (`Gates`, `ApprovalStore`, `Hub`, `ApprovalProtocol`, `ApprovalInvariant`, `ApprovalTheorems`). Calls,
  deciders, timeouts, the bounded broadcast channel, each subscriber's forwarder and FIFO queues and lost connections
  interleave freely, one atomic step at a time (21 kinds of step). One inductive invariant carries every theorem: no
  decision is lost, all parties agree with the table, and a dangerous call is forwarded at most once and only when
  allowed. The row table and the hub also exist as classes; the protocol does not call them, but its swap and its send are
  the functions (`Swapped`, `Channel.Send`) that specify their methods.
- **Mirror** (`ImapWindow`, `Reconciler`, `Mirror`, `MirrorTheorems`). `reconcile_folder` is a method over a local store,
  proved equal to a specification function for every sequence of server answers and local failures, from the checks
  before the first fetch to the closing writes. The mirror invariant is then proved over every history of appends,
  expunges, UIDVALIDITY resets and reconciles.
- **Workers** (`Worker`, `Manager`). The polling and idling loops are methods over a reporter object and an arbitrary
  script of answers from the world; what they leave behind is a trace that obeys a grammar, and the promises about
  backoff, authentication failures and the stored status are theorems about such traces. Starting and stopping
  workers is a transition system with an ownership invariant, and the calls themselves are methods of a class.
- **Kernels** (`EditDistance`, `LineReader`, `LikeSearch`, `JsonSize`, `Utf8`, `Preview`, `Rpc`, `ForwardBatch`). Each is
  proved against a definition that does not mention the algorithm: cheapest edit scripts, splitting at newlines,
  containment of a substring, the printed JSON text, well-formed UTF-8, a connection on which every request is in
  exactly one place, and a batch in which every position has exactly one outcome.

Timeouts, cancellations, lost connections, dropped futures and failing writes are steps or answers chosen by the
environment, so every theorem covers every timing. Each database statement is one atomic step. Progress is stated as
safety at quiescence (nothing is left to deliver) or as the existence of a path made of the party's own steps.

Where code and comments disagree, the model follows the code:

- `src/imap/client.rs:348` speaks of `window_hi = from_uid`; the code returns the server's highest UID instead.
- Without UIDNEXT the window passes UIDs that can still be assigned (`src/imap/client.rs:372-374`), against the comment
  at lines 356-358. `ImapWindow.WindowStaysBelowNext` says exactly when a window stays below, and
  `MirrorTheorems.MissedWithoutUidNext` and
  `MirrorTheorems.SkippedForever` show that a message the mark has passed is never fetched until UIDVALIDITY changes.
- Rows of a failed first sync are not recognised as stale after a server reset (`src/sync/reconciler.rs:111-130`):
  `MirrorTheorems.StaleAfterFailedFirstSync` exhibits it. `Mirror.FirstSyncOverLeftovers` gives the exact condition under
  which the first sync is right all the same: no leftover contradicts a current message or sits on a UID yet to be assigned.
- A reconcile that reports an error may have written its UID state: `update_sync` comes after `update_uid_state`
  (`src/sync/reconciler.rs:277-296`). `Mirror.FailureKeepsUidState` tells the two kinds of failure apart.
- The distance called Damerau-Levenshtein (`src/tui/command.rs:212-214`) is the optimal-string-alignment distance, which
  is not a metric: `EditDistance.TriangleInequalityFails`. A text is never a shortcut between two others if and only if
  all its bytes are the same (`EditDistance.TriangleExactlyThroughUniform`), and a detour never pays when no two different
  neighbours change places on either leg (`EditDistance.TriangleUnlessCrossed`).
- The exponential law `min(initial * 2^k, max)` holds for all failures exactly when the initial backoff does not exceed
  the maximum, because the first sleep is not clamped (`src/sync/worker.rs:173`): `Worker.BackoffLaw`.
- A deciding handler cancelled between its swap and its publication leaves the waiting call waiting until its timeout
  (`src/daemon/dispatcher.rs:808-835`): `ApprovalTheorems.CancelledDeciderLeavesWaiter`; the timeout then finds the decision
  (`ApprovalTheorems.TimeoutFindsDecision`).
- A truncated preview announces the first 16384 bytes (`src/attachments.rs:201`) but may hold up to three fewer:
  `Preview.ShortPreview`. It holds all of them exactly when the file is valid up to there.

## Model

| member | source | states |
|---|---|---|
| `ApprovalTheorems.NoLostDecision` | src/mcp/server.rs:396-449 | In every run, a call that waits with every queue drained waits on a row whose decision was never published; the row is decided exactly when its decision is yet to be published or its publication was abandoned |
| `ApprovalTheorems.PublishedDecisionIsDelivered` | src/ipc/server.rs:434-452 | From every reachable state in which a call waits and its decision was published, the call's own connection alone can bring it to return exactly the stored state; no queue can block it |
| `ApprovalTheorems.Advance` | src/mcp/server.rs:413-447 | While a published decision is undelivered some step of the call's own connection is enabled and strictly shortens the way |
| `ApprovalTheorems.DecidedOnce` | src/db/mcp.rs:172-194 | Over every run a row leaves pending at most once and keeps its request and its decision for ever |
| `ApprovalTheorems.AnnouncedOnce` | src/daemon/dispatcher.rs:819-835 | At most one decided event per approval is ever published, and it carries the stored final state |
| `ApprovalTheorems.WaitersAgreeWithTheTable` | src/mcp/server.rs:351-373 | Whatever the wait returns equals the stored terminal state, then and later; the pending arm of the caller is unreachable |
| `ApprovalTheorems.ForwardedOnlyWhenAllowed` | src/mcp/server.rs:320-373 | A request is forwarded at most once per call; a dangerous one only if, when the call looked, the first matching gate of its tool in the gate table auto-allowed it, or the row created by that same call is allowed, with the approved arguments plus the actor |
| `ApprovalTheorems.DeniedStaysDenied` | src/mcp/server.rs:320-335 | If the first gate of its tool that matches denies, the call is over for good as denied: it never gets an approval row and nothing is ever forwarded for it |
| `ApprovalTheorems.UnallowedNeedsApproval` | src/mcp/server.rs:320-373 | Unless that gate auto-allows, whatever is forwarded for the call has the call's own allowed approval row |
| `ApprovalTheorems.AutoAllowedAsksNobody` | src/mcp/server.rs:320-335 | If it auto-allows, the call never gets an approval row and ends forwarded or failed |
| `ApprovalTheorems.VerdictTaken` | src/mcp/server.rs:320-350 | Where the call stands right after its gates were evaluated, told from the first match in the table: allowed, denied, or to be approved, the last also when nothing matches |
| `ApprovalTheorems.SeenGatesWereInTheTable` | src/mcp/server.rs:337-349 | The gates a call decided by are those of its tool in the table at the step in which it evaluated them |
| `ApprovalTheorems.ToolGatesDecide` | src/mcp/gates.rs:31-48 | Deciding by a tool's gates takes the action of the first gate of that tool in the table that matches, and requires approval when none does |
| `ApprovalTheorems.ActorOnlyAdded` | src/mcp/server.rs:487-496 | Forwarded object arguments have the actor set and every other key as approved |
| `ApprovalTheorems.AllowedCanForward` | src/mcp/server.rs:487-496 | An allowed call can be forwarded at once, with its own operation and its arguments plus the actor |
| `ApprovalTheorems.NeverStuck` | src/mcp/server.rs:320-471 | In every reachable state an unfinished call can go on by itself without failing, unless it awaits the publication of its own expiry |
| `ApprovalTheorems.CancelledDeciderLeavesWaiter` | src/daemon/dispatcher.rs:808-835 | A run in which the decider is cancelled after its swap: the row is allowed, every queue is empty and the call still waits |
| `ApprovalTheorems.TimeoutFindsDecision` | src/mcp/server.rs:451-471 | From any wait on a decided row, published or not, the call's own timeout, lost expiry swap and re-read lead it to the stored decision |
| `ApprovalTheorems.TimeoutExpires` | src/mcp/server.rs:414-416 | A call that times out on a pending row expires it |
| `ApprovalTheorems.EndedSubscriptionExpires` | src/mcp/server.rs:432-443 | A call whose subscription ended reads the row once and, if it is still pending, expires it without waiting for the timeout |
| `ApprovalTheorems.QuiescentRowIsUndecided` | src/mcp/server.rs:396-449 | The invariant alone rules out an announced decision behind an idle wait |
| `ApprovalInvariant.RunInv` | src/mcp/server.rs:396-471 | Every state of every run satisfies the protocol invariant |
| `ApprovalInvariant.StepInv` | src/mcp/server.rs:396-471 | Each of the 21 kinds of step keeps the protocol invariant |
| `ApprovalInvariant.StepsEvolveRows` | src/db/mcp.rs:84-194 | No step removes a row, changes its request or re-decides it; histories only grow |
| `ApprovalInvariant.EventsTellTheTruth` | src/mcp/server.rs:722-733 | Every decided event anywhere in a queue carries the state stored for its approval |
| `ApprovalInvariant.CoveredPublish` | src/ipc/hub.rs:121-128 | Publishing keeps a decision on its way to every call that waits for it, also when the ring overwrites older entries |
| `ApprovalInvariant.CoveredPull` | src/ipc/server.rs:434-452 | The forwarder turns every skipped entry into a lag notice, so a waking event stays under way |
| `ApprovalInvariant.CoveredRead` | src/mcp/server.rs:396-449 | A call goes back to waiting only on a row it has seen pending after it subscribed |
| `ApprovalInvariant.PullKeepsWaking` | src/ipc/server.rs:436-447 | After a receive the entry itself or a lag notice for it is queued |
| `ApprovalStore.ApprovalTable.Create` | src/db/mcp.rs:84-102 | Inserts a pending row and leaves the others |
| `ApprovalStore.ApprovalTable.Get` | src/db/mcp.rs:110-113 | Returns the row, or nothing exactly when it is missing |
| `ApprovalStore.ApprovalTable.Decide` | src/db/mcp.rs:172-194 | True exactly when this call moved the row out of pending; a decided row is never changed |
| `Hub.Hub.Publish` | src/ipc/hub.rs:121-128 | Appends to the topic's channel when somebody listens and changes nothing otherwise |
| `Hub.Hub.Subscribe` | src/ipc/hub.rs:132-146 | Creates the topic on first use; the receiver starts at the present end of the channel |
| `Hub.Hub.DropReceiver` | src/ipc/server.rs:372-383 | One receiver fewer is counted; the channel and the other topics stay as they are |
| `Broadcast.SendExtendsHistory` | src/ipc/hub.rs:121-128 | The ring always holds exactly the newest part of everything sent |
| `Broadcast.ReceiveAccountsForEveryEntry` | src/ipc/server.rs:436-442 | A receive yields the next entry or reports exactly how many were overwritten; none is skipped silently |
| `Gates.DecideIsFirstMatch` | src/mcp/gates.rs:31-48 | The decision is that of the earliest matching gate; approval is required exactly when none matches |
| `Gates.AutoAllowNeedsFirstMatch` | src/mcp/gates.rs:31-59 | An automatic allow comes from an auto-allow gate that no earlier matching gate precedes |
| `Gates.GateMeaning` | src/mcp/gates.rs:51-95 | A gate matches exactly if it has no pattern, or a pattern that parses to an object each of whose fields the arguments, an object too, hold with an equal value or a text around the only star of the expected one |
| `Gates.WildcardMeaning` | src/mcp/gates.rs:82-95 | A starred pattern matches exactly if it has one star and the text around it surrounds the actual text |
| `Gates.SingleStarMeaning` | src/mcp/gates.rs:82-95 | A pattern with one star matches exactly prefix, anything, suffix |
| `Gates.ManyStarsMatchNothing` | src/mcp/gates.rs:86-88 | A pattern with two or more stars matches nothing |
| `Json.InsertKeepsOthers` | src/mcp/server.rs:492-494 | Setting one key of an object leaves every other key |
| `Mirror.MirrorHoldsForever` | src/sync/reconciler.rs:91-284 | Under any history of appends, expunges, UIDVALIDITY resets and successful or failed reconciles: whenever the stored validity is the server's, the last seen UID is below UIDNEXT and every usable server message up to it is stored once, with the server's content |
| `Mirror.MirrorFromScratch` | src/sync/reconciler.rs:80-296 | From a folder never synced, over any history in which no reset strikes while rows of a failed first sync lie about, the mirror is in step from the first commit on |
| `Mirror.MirrorStep` | src/sync/reconciler.rs:91-284 | Each event of a history keeps the mirror invariant |
| `Mirror.ReconcileStaysInStep` | src/sync/reconciler.rs:91-284 | A reconcile, successful or not, keeps an in-step mirror in step although the folder moves on between its fetches |
| `Mirror.ReconcileAfterReset` | src/sync/reconciler.rs:111-130 | After a validity change a reconcile that commits ends in step; any other keeps the old validity, so the next one wipes again |
| `Mirror.DrainMirrors` | src/sync/reconciler.rs:171-275 | The window loop keeps and extends the agreement from any of its iterations |
| `Mirror.DrainKeepsRows` | src/sync/reconciler.rs:170-275 | The window loop never drops or changes a stored row |
| `Mirror.FirstSyncEstablishes` | src/sync/reconciler.rs:80-296 | A first sync into an empty folder that commits establishes the invariant |
| `Mirror.FirstSyncRetries` | src/sync/reconciler.rs:80-296 | Attempts within one validity period leave fresh rows, so a later first sync of that period is right |
| `Mirror.FailureKeepsUidState` | src/sync/reconciler.rs:80-296 | A reconcile succeeds exactly when it commits and its last write goes through; one that does not commit, wherever it fails, leaves the stored UID state unchanged; one whose last write alone fails leaves the store of a success |
| `Mirror.IngestAdds` | src/sync/reconciler.rs:171-253 | Ingesting adds only usable messages of the window, never overwrites, and a complete window adds all of them |
| `Mirror.IngestCounts` | src/sync/reconciler.rs:171-253 | The reported count is the number of rows added |
| `Mirror.IngestRollsBack` | src/sync/reconciler.rs:224-239 | A message whose attachments could not be stored leaves no row; one that failed only after that keeps its row |
| `Mirror.ReportedCountsAreTrue` | src/sync/reconciler.rs:156-309 | A success reports as inserted the rows added over all windows together, and as wiped the rows there were if UIDVALIDITY changed and none otherwise |
| `Mirror.ReportedUidStateIsTrue` | src/sync/reconciler.rs:277-284 | A success reports and stores the UID state of the server's last answer; a value the server does not give keeps the old one |
| `Mirror.DrainCounts` | src/sync/reconciler.rs:170-275 | Over all its windows a completed drain has counted exactly the rows it added |
| `Mirror.ErrorsSayWhatFailed` | src/sync/reconciler.rs:80-296 | A failed check is reported as such and nothing is touched; a server error means the server did not answer, a local error that something local failed |
| `Mirror.RowsSurviveWithoutReset` | src/sync/reconciler.rs:111-130 | No reconcile drops or changes a row unless both validities are known and differ |
| `MirrorTheorems.SuccessCatchesUp` | src/sync/reconciler.rs:91-284 | A completed reconcile against a fixed folder ends with exactly the missing usable messages added and the folder's own UID state |
| `MirrorTheorems.FirstSyncStoresTheReadable` | src/sync/reconciler.rs:171-253 | A first sync against a fixed folder stores exactly the messages that have a body and parse |
| `MirrorTheorems.CaughtUpIsUnique` | src/sync/reconciler.rs:91-284 | That end state is unique |
| `MirrorTheorems.FailureOnlyAdds` | src/sync/reconciler.rs:170-284 | A failed attempt keeps the UID state and adds only what belongs |
| `MirrorTheorems.FailuresThenSuccess` | src/sync/reconciler.rs:80-296 | Any number of attempts that fail anywhere, followed by a success, reach the same store as an uninterrupted reconcile |
| `MirrorTheorems.AttemptGoesToward` | src/sync/reconciler.rs:80-296 | Every attempt stays on the way to the caught-up store, and one that commits arrives |
| `MirrorTheorems.SecondReconcileIsQuiet` | src/sync/reconciler.rs:80-296 | After a commit every further attempt against the same folder fetches, inserts, wipes and changes nothing, and succeeds unless something local fails |
| `MirrorTheorems.DrainTiles` | src/sync/reconciler.rs:254-275 | The fetched windows of one drain, complete or interrupted, are non-empty, at most 500 wide, consecutive and disjoint, from the start UID to the last window's end, whatever the server answers in between |
| `MirrorTheorems.ReconcileTiles` | src/sync/reconciler.rs:91-275 | So do the windows every reconcile drains, however it ends, starting behind the last seen UID, or at 1 after a reset; a successful one throws away at most one window, fetched before it saw the reset |
| `MirrorTheorems.DrainFetchCount` | src/sync/reconciler.rs:254-275 | Against a fixed folder a drain takes one fetch per started window of 500 UIDs |
| `MirrorTheorems.ReconcileFetchCount` | src/sync/reconciler.rs:91-275 | A successful reconcile of N new UIDs drains N/500 windows, rounded up, none when nothing is new, and on a reset spends one more fetch on the window it throws away |
| `MirrorTheorems.DrainFills` | src/sync/reconciler.rs:171-275 | A completed drain stores every usable message from its start UID on |
| `Mirror.FirstSyncOverLeftovers` | src/sync/reconciler.rs:111-284 | The first reconcile that commits, over any leftover rows and a folder that may move meanwhile, establishes the mirror invariant if and only if the leftovers are fresh: none contradicts a current message or sits on a UID yet to be assigned |
| `MirrorTheorems.StaleAfterFailedFirstSync` | src/sync/reconciler.rs:111-130 | A failed first sync, a reset and a successful sync that keeps a stale row |
| `MirrorTheorems.MissedWithoutUidNext` | src/imap/client.rs:372-374 | A first sync without UIDNEXT after which no reconcile, whatever it meets, ever fetches the next message, until UIDVALIDITY changes |
| `MirrorTheorems.SkippedForever` | src/sync/reconciler.rs:91-284 | A UID the mark has passed without its message being stored stays out over any sequence of attempts without a reset |
| `MirrorTheorems.SkippedStaysSkipped` | src/sync/reconciler.rs:91-284 | The same for one attempt, whatever the server answers |
| `ImapWindow.WindowShape` | src/imap/client.rs:342-375 | A fetch starts where asked, at 1 if asked for 0, spans at most 500 UIDs, and says there is more exactly when UIDNEXT lies above its window |
| `ImapWindow.WindowStaysBelowNext` | src/imap/client.rs:345-375 | From any start UID, the reported high-water mark stays below the next UID to be assigned if and only if UIDNEXT is advertised, or the folder is empty and the fetch did not start above that UID, or the window ends below it anyway |
| `Reconciler.LocalStore.ReconcileFolder` | src/sync/reconciler.rs:80-296 | The operation on the mutable store equals the specification function, for every sequence of server answers and every local failure: missing credentials, account, folder or port, the wipe, the lookups, each message and both closing writes |
| `Reconciler.LocalStore.Begin` | src/sync/reconciler.rs:80-154 | Checks, first fetch, resync decision and wipe leave the rows and the loop's start that the specification says |
| `Reconciler.LocalStore.DrainFolder` | src/sync/reconciler.rs:166-275 | The window loop equals its specification and terminates even if UIDNEXT changes between fetches |
| `Reconciler.LocalStore.IngestWindow` | src/sync/reconciler.rs:171-253 | Looks up the window's UIDs and inserts its new messages in order until one fails |
| `Reconciler.LocalStore.UpdateUidState` | src/db/folders.rs:138-157 | Overwrites each field of the UID state only when a new value is given |
| `Reconciler.LocalStore.DeleteAllInFolder` | src/db/messages.rs:464-470 | Empties the folder and counts what it removed |
| `Reconciler.FirstUid` | src/sync/reconciler.rs:93-98 | The first UID to fetch is the one behind the last seen, 1 before anything was seen, and a valid 32-bit UID whatever is stored |
| `Worker.RunSyncWorker` | src/sync/worker.rs:259-471 | For every script of answers the worker leaves exactly the trace the answers call for; it obeys the grammar, the stored status is the one it calls for, and the worker lives and fails exactly as the answers say |
| `Worker.RunPollingWorker` | src/sync/worker.rs:161-256 | The same for the polling loop, entered afresh or as the fallback of the idling loop |
| `Worker.CredentialForCycle` | src/sync/worker.rs:498-549 | Stops on rejected credentials or cancellation, retries with backoff otherwise, and records exactly that |
| `Worker.ReconcileCycle` | src/sync/worker.rs:195-255 | Announces and starts the reconcile before any outcome, records exactly the outcome, and resets or grows the backoff by it |
| `Worker.IdleCycle` | src/sync/worker.rs:362-469 | Account lookup, port check and idle wait: what is recorded and when the worker stops, falls back or goes on |
| `Worker.OneReconcilePerCredential` | src/sync/worker.rs:177-210 | Over a whole run there are as many reconcile starts as cycles reached that got a credential, and as many recorded successes as of these succeeded |
| `Worker.WhyAWorkerStops` | src/sync/worker.rs:177-549 | A cycle stops the worker exactly if it is cancelled at a wait the cycle gets to, is refused, or finds its account gone or unusable |
| `Worker.LivesUntilStopped` | src/sync/worker.rs:177-471 | The worker completes every cycle before the first that stops it and none from there on |
| `Worker.StateReporter.Fail` | src/sync/worker.rs:36-57 | A failure is stored as the account's status and then published |
| `Worker.StateReporter.GiveUp` | src/sync/worker.rs:227-238 | A failure that ends the worker is stored and published, and nothing sleeps |
| `Worker.StateReporter.RecordSuccess` | src/sync/reconciler.rs:289-296 | A completed reconcile clears an earlier error from the stored status |
| `Worker.StateReporter.Retry` | src/sync/worker.rs:239-252 | Sleeps for the current backoff and leaves the next one |
| `Worker.NextDelay` | src/sync/worker.rs:480-482 | One saturating doubling leads from each delay to the next |
| `Worker.BackoffLaw` | src/sync/worker.rs:173-253 | The delays are `min(initial * 2^k, max)` for all k if and only if the initial backoff does not exceed the maximum |
| `Worker.ConsecutiveFailuresBackOff` | src/sync/worker.rs:177-256 | In every trace the failure that k others precede since the last success sleeps exactly `min(initial * 2^k, max)` |
| `Worker.FailuresCount` | src/sync/worker.rs:177-256 | The failure counter is the number of failures of a stretch without success |
| `Worker.FailureIsFollowedUp` | src/sync/worker.rs:227-254 | Each failure is published next, and only a transient one is followed by anything, namely its own delay |
| `Worker.BackoffHasItsFailure` | src/sync/worker.rs:239-252 | Each retry sleep belongs to the failure just published |
| `Worker.NothingAfterAuthFailure` | src/sync/worker.rs:227-238 | After an authentication failure nothing follows but its report; no reconcile starts |
| `Worker.ReconcileFollowsSyncing` | src/sync/worker.rs:199-210 | Each reconcile directly follows a Syncing event |
| `Worker.PollingIsForGood` | src/sync/worker.rs:427-440 | A worker that fell back to polling never idles again |
| `Worker.ErrorMeansLastFailed` | src/sync/worker.rs:36-57 | The stored status is an error exactly when the latest settled outcome was a failure |
| `Worker.StatusUntouched` | src/sync/worker.rs:36-57 | Before anything has settled the status is the one the worker found |
| `Manager.NoOrphans` | src/sync/manager.rs:124-229 | In every interleaving each spawned worker is over, registered, held by a stop in progress, or was cancelled and then aborted or let go by a dropped call |
| `Manager.OneOwner` | src/sync/manager.rs:124-210 | At most one registered worker per key, never one told to stop; no worker has two owners |
| `Manager.NothingAbandoned` | src/sync/manager.rs:181-229 | Without dropped stopping calls every worker that is neither registered nor held is over, or was cancelled and aborted |
| `Manager.StepKeeps` | src/sync/manager.rs:124-229 | Every atomic piece of every call keeps the ownership invariant |
| `Manager.RunKeeps` | src/sync/manager.rs:124-229 | So does every run |
| `Manager.StopCompletes` | src/sync/manager.rs:181-229 | A stop in progress can always finish by its own steps, and then every worker it held is cancelled, and over or aborted |
| `Manager.OnlyStopsUnregister` | src/sync/manager.rs:124-210 | A live registered worker leaves the registry only into the hands of a stop |
| `Manager.StopOverlapsStart` | src/sync/manager.rs:124-191 | A run in which a worker being stopped is alive beside its successor under the same key |
| `Manager.WorkerManager.Start` | src/sync/manager.rs:124-164 | Whatever workers and stopping calls do while it publishes: false exactly when a live worker is registered under the key; otherwise one new worker is registered, in the place of a finished one if any |
| `Manager.WorkerManager.StopKey` | src/sync/manager.rs:181-191 | Whatever other calls and workers do meanwhile: false exactly when nothing is registered; otherwise the worker is cancelled, and over or aborted, and its key holds nothing but a worker started meanwhile |
| `Manager.WorkerManager.StopAll` | src/sync/manager.rs:194-209 | Whatever other calls and workers do meanwhile: every formerly registered worker ends up cancelled, and over or aborted, and the registry holds nothing but workers started meanwhile; undisturbed it is empty |
| `Manager.WorkerManager.CancelAll` | src/sync/manager.rs:203-205 | Cancels every handle while the rest of the system moves on |
| `Manager.WorkerManager.JoinAll` | src/sync/manager.rs:206-229 | Joins in turn, workers ending at any moment, and aborts whoever is not over in time |
| `Manager.Handles` | src/sync/manager.rs:195-201 | Draining the registry yields each of its handles exactly once |
| `EditDistance.DamerauLevenshtein` | src/tui/command.rs:215-243 | The three rolling rows compute the price of the cheapest edit script (insert, delete, substitute, swap neighbours) |
| `EditDistance.FillRow` | src/tui/command.rs:225-238 | One row of distances from the two before it |
| `EditDistance.NearestName` | src/tui/command.rs:181-210 | The earliest name of minimal distance among those within 2, for any list of names; none exactly when there is none, so skipping by length changes nothing |
| `EditDistance.Recurrence` | src/tui/command.rs:228-236 | The cheapest script obeys the optimal-string-alignment recurrence |
| `EditDistance.DistanceLaws` | src/tui/command.rs:215-243 | Symmetric, zero only on equal texts, at least the length difference, at most the longer length |
| `EditDistance.TriangleInequalityFails` | src/tui/command.rs:212-243 | Three texts for which a detour is cheaper |
| `EditDistance.TriangleExactlyThroughUniform` | src/tui/command.rs:215-243 | The triangle inequality holds through a text, for all pairs of others, if and only if all its bytes are the same |
| `EditDistance.TriangleUnlessCrossed` | src/tui/command.rs:233-236 | It holds for any three texts between which no two different neighbours change places on either leg |
| `EditDistance.UnevenTextIsShortcut` | src/tui/command.rs:233-236 | Any text with two different neighbours is a shortcut between its swapped and its split form |
| `LineReader.ReadBoundedLine` | src/mcp/server.rs:598-635 | The next frame and the position behind it depend only on the bytes, not on the chunks; an oversized line is skipped whole; the buffer never grows past the limit |
| `LineReader.DiscardUntilNewline` | src/mcp/server.rs:637-653 | Leaves the reader just behind the next newline |
| `LineReader.ReadAll` | src/mcp/server.rs:533-662 | For every chunking, repeated reads yield the frames of the input split at newlines, oversized lines marked, up to the first line that is not UTF-8 |
| `LineReader.FrameCarries` | src/mcp/server.rs:655-662 | A line within the limit yields itself without one final carriage return if that is UTF-8; a longer one is marked oversized |
| `LineReader.FramesMeaning` | src/mcp/server.rs:533-635 | One frame per line, in order, up to the first line that cannot be decoded; reading fails exactly if there is one |
| `LineReader.SegmentsJoin` | src/mcp/server.rs:598-635 | Joining the lines gives the input back, so splitting loses nothing |
| `LineReader.SegmentsHaveNoNewline` | src/mcp/server.rs:611-619 | No line holds a newline |
| `LikeSearch.LikePattern` | src/db/search.rs:210-221 | The pattern matches exactly the texts in which the needle occurs contiguously, up to ASCII case |
| `LikeSearch.LikeMeansContains` | src/db/search.rs:167-221 | Escaping preserves meaning under a LIKE matcher with backslash escapes |
| `LikeSearch.QuoteRoundTrip` | src/db/search.rs:20-23 | A quoted term opens with a quote, and reading it back gives the term and stops exactly at its end |
| `JsonSize.AccountedSize` | src/db/sql_query.rs:283-311 | The accounted size is the length of the compact JSON text plus the number of non-empty arrays and objects, capped at the largest usize |
| `JsonSize.PrintStringSize` | src/db/sql_query.rs:302-311 | Strings are accounted exactly, escapes as in section 7 of RFC 8259 |
| `JsonSize.ResponseBudget.Account` | src/db/sql_query.rs:208-224 | Accepts exactly while the running total is at most 1 MiB |
| `JsonSize.AccountCells` | src/db/sql_query.rs:154-169 | A result is accepted exactly when its accounted sizes fit, and then its encoded cell values total at most 1 MiB |
| `Preview.PreviewAttachment` | src/attachments.rs:152-215 | When there is inline text, how long it is and whether it is marked truncated, for arbitrary bytes |
| `Preview.PreviewValidFile` | src/attachments.rs:168-193 | A valid UTF-8 file gets a prefix that ends on a character boundary: the whole file within the cap, else at most 3 bytes short of it, and not short at all exactly when the file is valid up to the cap |
| `Preview.ShortPreview` | src/attachments.rs:174-193 | A valid file whose preview is 3 bytes shorter than announced |
| `Utf8.CutValid` | src/attachments.rs:175-190 | Cutting valid text loses at most three bytes, and both parts are valid |
| `Utf8.PrefixIsLongest` | src/attachments.rs:181-190 | No prefix longer than the one kept is valid |
| `Utf8.EncodedTextIsValid` | src/attachments.rs:176-190 | The validity test accepts the encoding of every text |
| `Utf8.ValidIsEncoded` | src/attachments.rs:176-190 | And only those: every valid byte string is the encoding of some text |
| `Utf8.EncodeInjective` | src/attachments.rs:176-190 | Different texts have different encodings |
| `Rpc.RunInv` | src/ipc/client.rs:85-198 | Every state of every run keeps conservation, numbering and routing |
| `Rpc.StepInv` | src/ipc/client.rs:85-198 | Every step keeps conservation, numbering, routing and the table |
| `Rpc.ResponsesMatchRequests` | src/ipc/client.rs:85-122 | Every response a `request` call receives was produced by dispatching exactly that request; pipelined ones arrive in the shared queue, in order and unchanged |
| `Rpc.EndsAtMostOnce` | src/ipc/client.rs:148-198 | No request is answered, delivered or lost twice, with handlers finishing in any order |
| `Rpc.QuietMeansAnswered` | src/ipc/server.rs:302-370 | Once nothing is in flight every request has ended where its caller looks, or was discarded after its caller was dropped, or was lost in a step in which its write failed or its handler was cancelled |
| `Rpc.UndisturbedIsAnswered` | src/ipc/server.rs:302-370 | Then a request whose write succeeded, whose handler was not cancelled and whose caller was not dropped has exactly one response, its own, with its caller or in the shared queue |
| `Rpc.ReachesQuiet` | src/ipc/server.rs:302-370 | From any open state accepting, answering and delivering alone empty the connection |
| `Rpc.LostForAReason` | src/ipc/server.rs:361-368 | Every lost request has the step in which its write failed or its handler was cancelled |
| `Rpc.DiscardedForAReason` | src/ipc/client.rs:97-101 | Every discarded response belongs to a caller dropped earlier |
| `Rpc.ConservedStep` | src/ipc/client.rs:85-198 | Every step keeps each request in exactly one place |
| `ForwardBatch.FetchForForwardBatch` | src/daemon/dispatcher.rs:1543-1616 | The success list holds exactly the successful positions in request order, every position is in exactly one of the two lists and their lengths add up, a repeated id succeeds at most once, cached bytes win, each refetched part serves at most one attachment and is the best fit the earlier positions left, a position fails only if nothing they left fits it, and each failure names its id and reason |
| `ForwardBatch.Flatten` | src/daemon/dispatcher.rs:1613-1615 | Keeps the filled slots, in order, and nothing else |
| `ForwardBatch.ReadCached` | src/daemon/dispatcher.rs:1563-1583 | Splits the positions into cached, refused and missing ones |
| `ForwardBatch.MatchParts` | src/daemon/dispatcher.rs:1585-1603 | Gives each miss in turn a part of the strongest kind of match still available, none exactly when none fits, conserving the multiset of parts |
| `ForwardBatch.PickAttachmentBytes` | src/daemon/dispatcher.rs:1723-1745 | Takes out a part that fits best (by content id, else by filename and type, else by filename), and none exactly when no part fits |
| `ForwardBatch.SwapRemove` | src/daemon/dispatcher.rs:1733-1744 | Removes one occurrence of the chosen part and keeps all others |
| `ForwardBatch.SuccessesKeepOrder` | src/daemon/dispatcher.rs:1613-1615 | Entries stand in the order of their positions, and there are as many as filled slots |

## Left out

- MIME parsing, threading and message building: `crates/postblox-mail` is not part of this model; whether a message parses is an attribute of the message.
- Local archive, move and delete operations, which reuse UIDs across folders, are not events of the mirror; neither are thread aggregates after a wipe.
- Fetch items dropped as protocol errors (`src/imap/client.rs:383`): the server is assumed to answer with what the folder holds in the requested range, and UIDVALIDITY to stay constant within one reconcile.
- Mirror.MirrorHoldsForever: needs a server that advertises UIDNEXT and UIDVALIDITY and starts from a completed reconcile (or, in Mirror.MirrorFromScratch, from nothing), because the counterexample lemmas show the claim to be false otherwise.
- Worker.RunSyncWorker: runs over finite scripts, so it speaks about every finite prefix of a worker's life; a task aborted between storing and publishing a failure is not among them, and status writes are assumed to succeed.
- Panics of worker tasks count as finishing.
- Other subscribers of the decision topic (the terminal interface, the notification stream): a waiting call's own subscription already counts as a listener, so whether others listen makes no difference to it.
- Approvals and RPC as transition systems on values: concurrent tasks share state through a mutex and channels, so their steps, not their call stacks, are modelled; the class forms cover the row table, the hub and the worker manager.
- Rpc.RunInv: request ids are unbounded, so the wrap-around of the 64-bit counter is not modelled; frames over 4 MiB, the limit on handlers in flight and the capacity of the client's queues only delay or end a connection.
- Event payloads are records instead of JSON text, and ids are numbers instead of UUIDs; audit rows and summaries are omitted.
- ForwardBatch.FetchForForwardBatch: among several parts of the same kind of match it is left open which one is used, since `swap_remove` reorders them; caching of refetched bytes is not modelled.
- Preview.PreviewAttachment: the single read is assumed to fill its buffer up to the end of the file; read errors and the messages shown to the user are not modelled.
- LineReader.ReadAll: read errors of the underlying stream end the session and are not modelled.
- LikeSearch.LikePattern: SQLite's limit on the length of a pattern is not modelled.
- The SQL engine, full-text ranking, TLS, SMTP, OAuth, the keyring, encryption, the terminal interface, configuration and plain record access: foreign code or easy members.
- Wall-clock time and fairness: timeouts are steps that may happen at any moment.
