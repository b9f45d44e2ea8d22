# Koji: a verified model of the durable core

Koji keeps its state in SQLite tables that are changed by conditional statements. This project models
those tables, the statements and the code around them, and proves what holds over whole runs.

* `JobRuns` is every interleaving of HTTP requests and workers, one SQL statement or side effect at a
  time, with threads that may die between any two. `JobSafety`, `JobAccounting`, `JobLaws` and `JobQueue`
  prove at-most-once execution, the ledger of counters and audit events, a ranking bound and queue
  fairness. `JobTurns` shows that an undisturbed thread does what its method promises, `JobProgress` which
  jobs can still end, `JobOutcomes` what the reason of a failed job says about its command, and `JobEvents`
  that every row and audit event leads back to its request, field by field. `Jobs`,
  `Worker`, `Handlers`, `Agent` and `Command` are the store, worker, handlers, agent boundary and command
  runner themselves, each method proved against the functions that the machine uses.
* `AuthTables` describes each store call on users, sessions, grants and tokens as one step; `AuthRuns` and
  `AuthLaws` prove what all sequences of calls keep under a clock that never goes back; `AuthStores` are
  the stores as objects, statement by statement, proved against those steps. `AuthFindings` holds
  runs that end in an unexpected answer, `AuthAcceptance` the exact conditions under which a session is
  accepted and a magic token redeemed, and `AuthHistory` tells users, grants, sessions, tokens and replies
  from the calls before them alone.
* `Timestamps` says exactly when comparing stored times as text differs from comparing them as instants.
* `Compatibility` and `Migrations` are the schema history check and the migration runner, the latter also
  as a statement machine that may crash anywhere.
* `Config`, `ConfigLines`, `ConfigBlocks`, `ConfigOrder` and `ConfigLists` are the config parser, the meaning of
  a file line by line and key by key, then block by block, what order matters, and the two spellings of a list. `GoStrings` holds the library
  functions it needs, with their laws.
* `TextOrder`, `Totals`, `Observability`, `Audit`, `ServiceNames` and `Wrappers` support the others.

SQL statements and transactions are atomic updates of maps. Clock readings, random ids and tokens, the
behaviour of a command, its failure to start included, and of the transport are inputs. Hashes are injective functions, and a
checksum is never empty. Go's scalar parsers are arbitrary functions.

## Findings

* `not_implemented` is drawn as a job status in docs/wiki/Architecture/Job-Lifecycle.md, but no code path
  writes it; the model follows the code (`JobSafety.StatusDeterminesRecord`).
* docs/wiki/Reference/Audit-Event-Reference.md gives creation events the target `jobs:<id>`; the code
  writes `service:action`, and so does the model.
* A worker that dies between claim and finish leaves its job running for ever; a running job can end exactly
  if a living thread holds it (`JobProgress.RunningEndsIffHeld`, with the run `JobProgress.AbandoningRun`).
* With an agent that accepts the request, the reason of a failed job may leave open whether its command was never
  started or did everything the agent calls success: exactly command_timeout and agent_unavailable do (`JobOutcomes.ReasonIsAmbiguousIff`). Whether it was
  never started or exited cleanly and in time is left open by exactly these and command_failed, which follows
  both a failed start and a clean exit with too much output (`JobOutcomes.ReasonHidesCleanExitIff`,
  `JobOutcomes.StartCanFail`, `JobOutcomes.CleanExitCanFail`).
* Text comparison of stored times can be wrong only inside one second. There cleanup may delete a session
  that validation would still accept (exactly when: `AuthLaws.EarlyCleanupOnlyInLastSecond`; a run:
  `AuthFindings.CleanupCanBeEarly`), and a later job may be claimed before an earlier one
  (`JobQueue.LaterJobSortsAheadIff`, `JobQueue.LaterJobIsClaimedFirst`).
* The events of an approval carry the status that the row has when it is read again, which may already be
  running, completed or failed (`JobEvents.EveryEventIsTold`; a run: `JobEvents.ApprovalCanSayRunning`).
* Revoking identity.users.manage from a disabled holder is refused although a manager would be left
  (exactly when: `AuthLaws.RevokeRefusedIff`; a run: `AuthFindings.UnneededRefusal`).
* `limitedBuffer` sets its flag on an empty write once it is full, or when its limit is not positive
  (`Command.TruncatedIff`); os/exec does not write empty pieces.
* The two names of the idle timeout are not duplicates of each other: a file may set both, and the later
  one counts (`ConfigOrder.LaterIdleWins`).

## Model

| member | source | states |
|---|---|---|
| `JobSafety.HandedAtMostOnceAndApproved` | internal/jobs/worker.go:75-98 | In every state that any interleaving of requests, workers and deaths reaches, no job is handed to the agent twice, and a handed job is in the table, approved, started, never rejected, and carries a request that was valid and on the daemon's allowlist. |
| `JobSafety.ApprovalWasDecided` | internal/jobs/jobs.go:230-254 | An approval in a row comes from one approving request, by the recorded decider, that found the job queued; the step is given. |
| `JobSafety.StatusDeterminesRecord` | internal/jobs/jobs.go:345-391 | In every reachable state the status says exactly which decision and start fields are set, and `not_implemented` is never reached. |
| `JobSafety.HistoryIsForward` | internal/jobs/jobs.go:218-243 | From any state that satisfies the invariant, rows are never lost and statuses never go back, whatever events follow. |
| `JobSafety.TerminalRowsNeverChange` | internal/jobs/jobs.go:218-228 | Rejected, completed and failed rows stay equal to themselves for ever. |
| `JobSafety.CompletedWasExecuted` | internal/jobs/worker.go:86-98 | A completed job was handed over with exactly its own action and service, and the agent had mutation enabled, the name valid and allowlisted, the action supported, and a command that succeeded within its output limit. |
| `JobSafety.DeathAbandons` | internal/jobs/worker.go:75-98 | A worker that dies with a claimed job in hand leaves it running with no living holder. |
| `JobSafety.AbandonedForever` | internal/jobs/jobs.go:121-129 | A finding: nothing recovers such a job. Whatever follows, its row does not change and it is not handed to the agent (again). |
| `JobProgress.RunningEndsIffHeld` | internal/jobs/worker.go:75-98 | In every reachable state a running job can come to completed or failed by some continuation if and only if a living thread holds it, that is if it is not abandoned. |
| `JobProgress.EndsIffNotAbandoned` | internal/jobs/jobs.go:77-147 | Every job of every reachable state, whatever its status, can come to an end if and only if it is not abandoned. |
| `JobProgress.AbandoningRun` | internal/jobs/worker.go:75-84 | The run that shows it: create, approve, claim, die; the job is abandoned and no continuation ends it. |
| `JobTurns.UndisturbedTurn` | internal/jobs/worker.go:75-159 | A worker turn that nothing disturbs has, in the interleaving machine, exactly the row, the events and the counters in order that ProcessOne promises. |
| `JobTurns.UndisturbedControl` | internal/http/handlers_services.go:43-157 | A control request that nothing disturbs, admitted, refused or drawn under a taken id, has exactly the row, events and counters of its handler. |
| `JobTurns.UndisturbedDecision` | internal/http/handlers_jobs.go:64-89 | So has a decision, on a queued job, on one that is not queued any more, and on none. |
| `JobEvents.RowWasRequested` | internal/http/handlers_services.go:131-157 | Every job of every reachable state was created by one admissible control request that drew its unused id, and still carries that request's user, request id, action, service and time. |
| `JobEvents.EveryEventIsTold` | internal/http/handlers_audit.go:31-109 | Every event recorded in any run is, field by field, either an event of one request of the run, with its user, request id, target, and an outcome and reason that fit it, or an event of the worker about a job, with no user, the job's request id, and running or its final reason. |
| `JobEvents.WorkerEventsCarryTheRequest` | internal/jobs/worker.go:151-159 | In every run each started, outcome and status event of the worker carries the request id of the control request that created its job; the job and the step of that request are given. |
| `JobEvents.ApprovalCanSayRunning` | internal/http/handlers_jobs.go:64-89 | A finding: a run in which the recorded approval of a job has the reason running, because the worker claims the job before the approving request reads it again. |
| `JobOutcomes.FailedRowMeans` | internal/jobs/worker.go:100-123 | In every reachable state: a failed job has one of five reasons; after mutation_disabled and service_not_allowlisted (and any other refusal) no command was started, and the agent had that reason; command_failed means the agent accepted the request and the command, if it could be started, was not successful. |
| `JobOutcomes.ReasonIsAmbiguousIff` | internal/jobs/worker.go:110-123 | With an agent that accepts the request, a reason leaves open whether the command never started or ran to everything the agent calls success (clean exit in time, output within the limit), with a run for each, if and only if it is command_timeout or agent_unavailable. |
| `JobOutcomes.ReasonHidesCleanExitIff` | internal/platform/command/runner.go:110-126 | With an agent that accepts the request, a reason leaves open whether the command never started or exited cleanly and in time, with a run for each, if and only if it is one of those two or command_failed. |
| `JobOutcomes.StartCanFail` | internal/platform/command/runner.go:110-122 | A run in which the agent accepts the request, the command cannot be started, and the job fails with command_failed. |
| `JobOutcomes.CleanExitCanFail` | internal/platform/command/runner.go:117-126 | A run whose command exits cleanly and in time and whose job fails with command_failed, because of its output. |
| `JobRuns.StepKeepsInv` | internal/jobs/jobs.go:121-147 | Every statement of every thread keeps the invariant that ties rows, threads in flight and the log of agent calls together: one holder per running job, rows that match their status, completed rows with a successful call. |
| `JobRuns.RunKeepsInv` | internal/jobs/jobs.go:77-147 | The invariant holds after any sequence of events from any state in which it holds. |
| `JobAccounting.AccountingLaw` | internal/jobs/worker.go:75-159 | In every reachable state, for every job counter, lifecycle action and (action, target) pair: performed entries plus those a live or dead thread still owes equal the entries that the rows' statuses call for. |
| `JobLaws.CounterMatchesIff` | internal/jobs/jobs.go:77-147 | In every reachable state a job counter is what the table says if and only if no thread, alive or dead, has hit its row without having incremented that counter. |
| `JobLaws.CountersMatchTable` | internal/jobs/jobs.go:77-147 | Whenever no thread owes a job counter, deaths and pending events notwithstanding: created = all jobs; approved, rejected, claimed, completed and failed counters equal the sums of the statuses they cover; the counts by status add up to created. |
| `JobLaws.RegistryReadsTally` | internal/observability/metrics.go:52-64 | A fresh registry after these increments reads each tally modulo 2^64. |
| `JobLaws.AuditMatchesTable` | internal/http/handlers_audit.go:46-64 | With every request and turn over, earlier deaths notwithstanding: nothing is running, one `job.created` event per job, and `job.status_changed` events = queued + 2(approved + rejected) + 3(completed + failed). |
| `JobLaws.FinishedJobsHaveOneOfEach` | internal/jobs/worker.go:125-159 | When no thread owes an event, each completed or failed job has exactly one approved, no rejected and one started event, and exactly one outcome event, the one its reason determines. |
| `JobLaws.ReachedRunningHeld` | internal/jobs/worker.go:75-84 | Every running job is in the hands of a thread, alive or dead. |
| `JobLaws.StepRank` | internal/jobs/jobs.go:218-243 | A step either creates one job of rank 3, makes one guarded update that strictly lowers the total rank (3/2/1/0), or leaves the table alone. |
| `JobLaws.MovesAreBounded` | internal/jobs/jobs.go:77-147 | In any interleaving c created jobs admit at most 3c approvals, rejections, claims and finishes. |
| `JobQueue.ClaimTakesFromAhead` | internal/jobs/jobs.go:323-338 | A claim that passes an approved job by takes a job with a smaller key out of the set ahead of it. |
| `JobQueue.OvertakesAreBounded` | internal/jobs/jobs.go:323-338 | While later jobs have larger keys, an approved job sees at most as many claims go by as there were queued or approved jobs with smaller keys, and each of them shrinks that set. |
| `JobQueue.LaterJobSortsAheadIff` | internal/jobs/jobs.go:418-420 | Under a clock that does not go back, a job created later in a run sorts ahead of an earlier one if and only if the two times are confusable as text, or equal and its id is smaller. |
| `JobQueue.OvertakesAreBoundedBySpacing` | internal/jobs/jobs.go:323-338 | Requests that come a second or more after an approved job was created cannot delay it: the bound on overtaking holds for them. |
| `JobQueue.LaterJobIsClaimedFirst` | internal/jobs/jobs.go:323-338 | A finding: a run in which the next claim takes a job created almost a second after another approved one. |
| `JobQueue.FrontOfQueueIsNext` | internal/jobs/jobs.go:323-338 | An approved job with nobody ahead is what the next claim takes. |
| `Jobs.ClaimTakesLastListed` | internal/jobs/jobs.go:323-338 | The claimed job is the approved job that comes last in the unlimited newest-first listing. |
| `Jobs.ListingExists` | internal/jobs/jobs.go:189-200 | There is exactly one strictly ordered, duplicate-free listing of all rows. |
| `Jobs.JobStore.Create` | internal/jobs/jobs.go:77-84 | Inserts exactly one queued row with the given fields, without decision or start, and counts it; a taken id changes nothing. |
| `Jobs.JobStore.MissingOrInvalidTransition` | internal/jobs/jobs.go:256-261 | A missed guarded update is reported as not found or as an invalid transition, by whether the row exists. |
| `Jobs.JobStore.Approve` | internal/jobs/jobs.go:103-110 | Succeeds exactly on a queued job, writes exactly the approval fields and counts once; otherwise nothing changes and the error says why. |
| `Jobs.JobStore.Reject` | internal/jobs/jobs.go:112-119 | The same for a rejection. |
| `Jobs.JobStore.ClaimApproved` | internal/jobs/jobs.go:121-129 | Fails exactly if no job is approved; otherwise starts the approved job with the smallest (created_at, id) and counts once. |
| `Jobs.JobStore.FinishRunning` | internal/jobs/jobs.go:211-228 | Writes status and reason exactly on a running row. |
| `Jobs.JobStore.MarkFailed` | internal/jobs/jobs.go:131-138 | Running to failed with the reason, counted once; nothing else succeeds or changes anything. |
| `Jobs.JobStore.MarkCompleted` | internal/jobs/jobs.go:140-147 | Running to completed, counted once; nothing else succeeds or changes anything. |
| `Jobs.JobStore.ListRecent` | internal/jobs/jobs.go:86-93 | The first min(bounded limit, rows) entries of the full listing. |
| `Worker.JobWorker.ProcessOne` | internal/jobs/worker.go:75-159 | One undisturbed turn: nothing without an approved job; else that job ends as its agent call went, and exactly three events are appended, field by field: no user, the target and request id of the job, running and then twice the final reason, accepted, success or failure, and accepted; with the counters of the path taken. |
| `Worker.AnswerEndsJob` | internal/jobs/worker.go:100-123 | Which answer of the agent gives which status, reason and outcome action, each reason and action if and only if its errors. |
| `Worker.JobWorker.ExecuteClaimedJob` | internal/jobs/worker.go:86-123 | From a claimed row: the final row, the two outcome events and the counters, for every answer of the agent and for a job without a service action. |
| `Worker.JobWorker.MarkCompleted` | internal/jobs/worker.go:125-134 | Row, counter and the two events of a completion. |
| `Worker.JobWorker.MarkFailedWithAudit` | internal/jobs/worker.go:140-149 | Row, counter and the two events of a failure. |
| `Worker.StoredRequestComesBack` | internal/jobs/worker.go:161-170 | The request a job was created from is the request the worker reads out of its row. |
| `Worker.ReasonSurvivesIff` | internal/agent/client.go:156-181 | A delivered error ends the job with its own reason if and only if the reason is one the client knows (or is already the fallback). |
| `Worker.ExecutorReasonReachesJob` | internal/jobs/worker.go:100-123 | Every refusal and failure reason of the executor becomes the failed job's status reason unchanged; success becomes completion. |
| `Worker.VerdictsAreWellFormed` | internal/jobs/worker.go:100-134 | Only completed and failed are ever written, completed exactly without error, and the outcome event is the one for the reason. |
| `Handlers.JobHandlers.HandleServiceControl` | internal/http/handlers_services.go:43-157 | A job is created if and only if the request is valid, allowlisted and its drawn id is free, with the request's fields in its row, its counter and two events spelled out, whose target is `service:action`; a bad name, a bad action and a service off the allowlist are told apart by reply and event, and leave the table alone. |
| `Handlers.JobHandlers.HandleJobDecision` | internal/http/handlers_jobs.go:64-89 | Decides exactly a queued job, with its counter and the decision and status events spelled out; a conflict leaves one denial event, a missing job none. |
| `Agent.SuccessIffExecuted` | internal/agent/executor.go:31-74 | The agent reports success if and only if mutation is enabled, the name is valid and allowlisted, the action supported and the run of exactly that action and service succeeded. |
| `Agent.TurnedAwayIff` | internal/agent/executor.go:31-65 | Each refusal reason is answered if and only if its check is the first to fail: mutation off, name, action, allowlist. |
| `Agent.CallSucceedsIff` | internal/agent/client.go:76-181 | A call succeeds if and only if the answer is delivered and all of that held; then a command was started. |
| `Agent.CallFailsIff` | internal/agent/client.go:76-181 | A call can fail with a given error after starting a given command, or none, if and only if the error is so explained: refusals, connection refusals and bad paths start nothing, command_failed means an accepted request whose command could not be started or was unsuccessful, timeout, malformed and unavailable say nothing about the command. |
| `Agent.FailedCallMayHaveExecuted` | internal/agent/client.go:107-141 | A finding: behind exactly three errors, timeout, malformed answer and unavailable, the command may have run to success. |
| `Command.TruncatedIff` | internal/platform/command/runner.go:148-168 | The buffer reports truncation if and only if the total exceeds max(limit, 0) or an empty write arrives when nothing more fits; for non-empty writes, exactly when the total exceeds the bound. |
| `Command.LimitedBuffer.Write` | internal/platform/command/runner.go:142-168 | Keeps the representation (buffer = first min(total, max(limit, 0)) bytes of everything written; flag as above) and reports every byte as written. |
| `Command.Capture` | internal/platform/command/runner.go:142-168 | After any sequence of non-empty writes: exactly that prefix, truncated exactly when the stream is longer. |
| `Command.Run` | internal/platform/command/runner.go:94-127 | Both captured streams, for each a flag that is set exactly if it is longer than the bound, and the error, each if and only if its cause comes first: deadline, failed start or exit, truncation; without error both streams are complete. |
| `Observability.BumpedReading` | internal/observability/metrics.go:52-64 | A counter reads its old value plus the number of its increments modulo 2^64, in whatever order they came. |
| `Observability.BumpedTwice` | internal/observability/metrics.go:52-57 | Increments compose. |
| `Observability.Registry.Inc` | internal/observability/metrics.go:52-57 | One more on its own counter, nothing on the others. |
| `Audit.AuditStore.Record` | internal/audit/audit.go:94-129 | Appends exactly this event and counts one write. |
| `Audit.AuditStore.ListRecent` | internal/audit/audit.go:131-184 | The last min(bounded limit, all) events, newest first. |
| `Timestamps.TextOrderOfInstants` | internal/auth/store.go:479-481 | For a before b, the stored text of a sorts after that of b exactly when both lie in one second and a's stripped digits are a proper prefix of b's; otherwise it sorts before. |
| `Timestamps.TextComparisonAgreesIff` | internal/auth/store.go:225-247 | A comparison of stored texts says what a comparison of instants says exactly for the pairs that are not confusable. |
| `Timestamps.OneSecondApartAgrees` | internal/auth/store.go:437-441 | In particular for all times at least one second apart. |
| `Timestamps.OneSecondIsNeeded` | internal/auth/store.go:479-481 | The bound is sharp: two times one nanosecond less than a second apart that are confused. |
| `Timestamps.LaterFractionIsNoPrefix` | internal/jobs/jobs.go:418-420 | In time order the later fraction is never a proper prefix of the earlier one, so confusion has one direction. |
| `Timestamps.StoredTimeRoundTrip` | internal/auth/store.go:479-485 | Every instant with a four-digit year is read back from its stored text. |
| `AuthRuns.ApplyKeepsInv` | internal/auth/store.go:85-266 | Every store call keeps: unique names, grants and tokens of existing users, unrevoked sessions only of active users, and the governance rule. |
| `AuthRuns.RunKeepsInv` | internal/identity/store.go:52-119 | So does every legal run of store calls from the empty database. |
| `AuthLaws.GovernanceAfterBootstrap` | internal/identity/lockout.go:10-88 | After a bootstrap and any further calls: exactly one super admin, the bootstrapped user, active; an active user with identity.users.manage; and every later bootstrap is refused and changes nothing. |
| `AuthLaws.DisableRefusedIff` | internal/identity/lockout.go:10-44 | Disabling an active user is refused exactly when no super admin or no identity manager would be left. |
| `AuthLaws.RevokeRefusedIff` | internal/identity/lockout.go:46-66 | Taking the identity capability from a holder is refused exactly when one active manager is left; for an active holder that is when nobody would be left, for a disabled one somebody always is. |
| `AuthLaws.PasswordLoginIff` | internal/auth/store.go:138-158 | At every later point of a run a password login opens a session exactly for the bootstrapped name and password. |
| `AuthLaws.RejectedForever` | internal/auth/store.go:195-223 | Once an issued session is rejected it is rejected at every later validation, whatever logins, touches, revokes, cleanups, disables and re-enables come between. |
| `AuthLaws.AcceptedBeforeExpiry` | internal/auth/store.go:407-424 | Every accepted validation falls strictly before creation plus TTL, names the user the session was opened for, and finds that user active. |
| `AuthLaws.AcceptancesAreClose` | internal/auth/store.go:407-435 | Consecutive acceptances, the first measured from the opening, are less than the idle timeout apart. |
| `AuthAcceptance.AliveUntilEnded` | internal/auth/store.go:249-266 | From its opening on, in any run, a session row stands unrevoked exactly until a call revokes it, disables its user or cleans up after its text expiry. |
| `AuthAcceptance.AcceptedIff` | internal/auth/store.go:195-223 | In any run a validation of an issued session is accepted if and only if no call since its opening ended it in one of these ways, its time to live is not over, and the idle timeout since the last call that saw it is not over. |
| `AuthLaws.TokenOpensOneSession` | internal/auth/store.go:160-193 | A magic token opens at most one session in a whole run; cleanups that null its session link do not reopen it. |
| `AuthLaws.TokenWasIssued` | internal/identity/magic_tokens.go:13-49 | A stored token was issued by a successful call, with the owner and expiry it still has. |
| `AuthLaws.RedeemedWhileValid` | internal/auth/store.go:327-367 | A redemption follows that issue, strictly before its expiry, for its owner, who is active. |
| `AuthAcceptance.RedeemedIff` | internal/auth/store.go:160-193 | In any run a redemption of an issued token opens a session if and only if no redemption since the issue has, its lifetime is not over, its owner is active and it is not the empty string. |
| `AuthHistory.UsersAreNumbered` | internal/identity/store.go:52-67 | In any run the users are numbered 1, 2, ... in the order of the calls that made them; no other number has a user. |
| `AuthHistory.NameIsGiven` | internal/identity/store.go:52-119 | A user keeps for ever the name given in the call that made it. |
| `AuthHistory.ActiveIff` | internal/identity/store.go:84-119 | In any run a user is active if and only if no call has disabled it since it was made or last enabled. |
| `AuthHistory.UserRepliesIff` | internal/identity/store.go:52-119 | When creating, enabling, granting and disabling is done, told from the calls before: free name; number in use; known capability; active and neither the super admin nor the only active manager. |
| `AuthHistory.BootstrapIff` | internal/auth/store.go:85-136 | A bootstrap opens a session if and only if it has a name and a password, none succeeded before, no user is active and the name is free. |
| `AuthHistory.GrantedIff` | internal/identity/capabilities.go:35-78 | In any run, for every user and capability: the user holds it if and only if a call gave exactly that pair (a grant that was done, or the bootstrap of that user for identity.users.manage) and no revocation of that pair has been done since. |
| `AuthHistory.TakingIff` | internal/identity/capabilities.go:50-68 | A revocation is done if and only if the user holds the capability by these calls, and, for identity.users.manage, more than one active manager is left. |
| `AuthHistory.CsrfIff` | internal/auth/store.go:225-247 | In any run the CSRF test of an issued session answers Done if and only if the token is the one drawn with the session and not empty, no call since the opening revoked the session, disabled its user or cleaned it up, and now sorts before creation plus TTL as text; else invalid CSRF. |
| `AuthHistory.RevocationIff` | internal/auth/store.go:249-266 | In any run a revocation of an issued session answers Done if and only if nothing ended the session before. |
| `AuthHistory.RowStaysIff` | internal/auth/store.go:437-449 | In any run the row of a session stays in the table exactly until a cleanup finds the session revoked, its user disabled since, or its time over. |
| `AuthHistory.CleanupReply` | internal/auth/store.go:437-449 | The reported number is the number of session rows that went. |
| `AuthHistory.UnknownSessionIsRefused` | internal/auth/store.go:195-266 | Validation, CSRF test and revocation refuse every id under which no session was opened. |
| `AuthHistory.AcceptedAsItsUser` | internal/auth/store.go:195-223 | An accepted validation names the number of the user the session was opened for and the name given when that user was made. |
| `AuthHistory.IssueReplyIs` | internal/identity/magic_tokens.go:13-49 | In any run the reply to an issue, told from the calls before: done if and only if the lifetime is positive, the owner is active, the creator was made and the token was never issued; user disabled exactly for an existing owner that is not active. |
| `AuthHistory.RedemptionIff` | internal/auth/store.go:160-193 | In any run a redemption opens a session if and only if its non-empty token was issued by an earlier call, no redemption has used it since, its lifetime is not over and its owner is active, all told from the calls. |
| `AuthLaws.ExpiryTestsAgreeIff` | internal/auth/store.go:225-247 | For a live session and its own token, the text tests of CSRF and cleanup agree with the instant test exactly when now and expiry are not confusable, hence always when they are a second or more apart. |
| `AuthLaws.EarlyCleanupOnlyInLastSecond` | internal/auth/store.go:437-449 | Cleanup deletes an unexpired session exactly when now lies in the second of the expiry and its digits are a proper prefix of the expiry's. |
| `AuthFindings.CleanupCanBeEarly` | internal/auth/store.go:437-449 | A finding: for every policy with an idle timeout of at least 2 ns, a legal run in which cleanup deletes a session that a validation at the same instant accepts. |
| `AuthFindings.UnneededRefusal` | internal/identity/lockout.go:46-66 | A finding: a legal run (bootstrap, create, grant, disable, revoke) that ends in a refused revoke although another active manager would be left. |
| `AuthLaws.OnlyItsOwnCsrfToken` | internal/auth/store.go:231-246 | In any run only the token drawn with a session passes its CSRF test. |
| `AuthStores.AuthStore.Bootstrap` | internal/auth/store.go:85-136 | Statement by statement over the tables, with rollback: exactly the transaction about which governance is proved, or the old tables. |
| `AuthStores.AuthStore.Login` | internal/auth/store.go:138-158 | Guards in the source's order and one session row, or nothing; meets the one-step call that PasswordLoginIff is about. |
| `AuthStores.AuthStore.LoginMagicToken` | internal/auth/store.go:160-193 | At three clock readings: expiry checked, session opened, token consumed, or nothing; meets the one-step call of the token theorems. |
| `AuthStores.AuthStore.ValidateSession` | internal/auth/store.go:195-223 | Bounds at one clock reading, touch at a later one; meets the one-step call of the session theorems. |
| `AuthStores.AuthStore.ValidateCSRF` | internal/auth/store.go:225-247 | The SQL test on stored text and then the hash; changes nothing. |
| `AuthStores.AuthStore.RevokeSession` | internal/auth/store.go:249-266 | Marks exactly a live session row. |
| `AuthStores.AuthStore.CleanupExpiredAndRevokedSessions` | internal/auth/store.go:437-449 | Deletes exactly the revoked and text-expired sessions and nulls the tokens' links to them. |
| `AuthStores.Serve` | internal/auth/store.go:85-266 | Any one call on the two store objects, from contents that a legal run can have, gives the run's next contents and reply and keeps the run's invariant. |
| `AuthStores.AuthStore.CreateSession` | internal/auth/store.go:369-405 | One new session row from one clock reading, or a refused duplicate id. |
| `AuthStores.IdentityStore.CreateManagedUser` | internal/identity/store.go:52-67 | A new user without password and rank, under a fresh id, returned as stored; exactly an empty or taken name is refused and changes nothing. |
| `AuthStores.IdentityStore.PreventDisableLockout` | internal/identity/lockout.go:10-19 | The three disable guards in their order. |
| `AuthStores.IdentityStore.DisableUser` | internal/identity/store.go:84-104 | Guards, the user row, then every live session of the user revoked. |
| `AuthStores.IdentityStore.EnableUser` | internal/identity/store.go:106-119 | Clears the disabled time of an existing user; sessions stay revoked. |
| `AuthStores.IdentityStore.GrantCapability` | internal/identity/capabilities.go:35-48 | Adds one grant of a known capability to an existing user; granting twice changes nothing. |
| `AuthStores.IdentityStore.RevokeCapability` | internal/identity/capabilities.go:50-61 | Guard, then exactly one grant removed. |
| `AuthStores.IdentityStore.IssueMagicToken` | internal/identity/magic_tokens.go:13-25 | One unconsumed token row for an active user, expiring at now plus a positive ttl. |
| `Compatibility.AcceptedIffPrefix` | internal/db/compatibility.go:77-179 | For increasing names: all rows known with matching checksums and no gap, if and only if the rows are a checksummed beginning of the migrations. |
| `Compatibility.AfterEveryKnownMeans` | internal/db/compatibility.go:181-186 | The comparison with the target schema means: there is a last applied row, it has a name, and that sorts after every known one. |
| `Compatibility.FutureIsNoPrefix` | internal/db/compatibility.go:181-186 | Such a history is always caught by the row check. |
| `Compatibility.KnownMigrationChecksums` | internal/db/compatibility.go:142-148 | The map of the loop. |
| `Compatibility.InvalidAppliedMigration` | internal/db/compatibility.go:150-161 | Empty exactly if every row fits; otherwise it names the first that does not and why. |
| `Compatibility.NonContiguousHistory` | internal/db/compatibility.go:163-179 | Reports a gap exactly if a migration is applied after one that is not. |
| `Compatibility.ClassifyCompatibility` | internal/db/compatibility.go:77-96 | ok exactly for the whole list, migration_required exactly for a proper beginning, future exactly when the last name sorts after all known ones; pending is the number still to run, and the reason names the first row that does not fit and whether its name or its checksum is at fault, else the gap, else pending_migrations. |
| `Compatibility.CheckSchemaCompatibility` | internal/db/compatibility.go:38-44 | No error exactly for a checksummed beginning. |
| `Migrations.SortedRowsAreUnique` | internal/db/compatibility.go:118-125 | There is one list of the rows sorted by name. |
| `Migrations.HealthyIffStage` | internal/db/migrations.go:186-198 | The empty and accepted databases whose SQL was committed in step with the rows are exactly the states after the first n migrations. |
| `Migrations.OpenRunsWhatIsMissing` | internal/db/db.go:13-39 | An uninterrupted Open turns any such database into the complete one, and refuses exactly the histories that are no prefix, without writing. |
| `Migrations.StepKeepsInv` | internal/db/migrations.go:225-253 | Each single statement keeps: n migrations committed, and the open transaction holds just what its point says; only COMMIT advances n. |
| `Migrations.CrashesAreHarmless` | internal/db/migrations.go:225-253 | After any statements, crashes and restarts: still a checksummed prefix with SQL committed once and in order, nothing committed is lost, and an Open that ends has succeeded with the result of an uninterrupted one. |
| `Migrations.StatementsReachResult` | internal/db/db.go:29-36 | The statement machine left alone reaches what the big-step Open computes, from every database, good or bad. |
| `Migrations.OpenFinishes` | internal/db/db.go:13-39 | Every uninterrupted Open ends within 5 statements per migration plus 7. |
| `Migrations.CrashesThenOneOpen` | internal/db/db.go:13-39 | Any sequence of crashing Opens and then one left alone: every migration committed exactly once, in order, the same as one uninterrupted run. |
| `Migrations.FurtherOpensChangeNothing` | internal/db/migrations.go:267-284 | On a complete database no Open, crashing or not, changes anything. |
| `Migrations.RejectedHistoryIsUntouched` | internal/db/compatibility.go:188-197 | A history that is not a checksummed prefix is never written to in any run, and an Open that ends has refused it. |
| `Migrations.UpgradesAreHealthy` | internal/db/migrations.go:186-198 | What an older program left at any point is accepted by one with more migrations. |
| `Migrations.DowngradesAreRefused` | internal/db/compatibility.go:77-96 | Once a newer migration is recorded, the older program refuses the database as a future schema and leaves it alone. |
| `Migrations.CurrentIffReportedOk` | internal/db/migrations.go:200-265 | The startup check passes exactly when the report says ok, but for rows of migrations the program does not know. |
| `Migrations.SchemaDatabase.RunMigration` | internal/db/migrations.go:225-253 | SQL and row together exactly for a missing migration; a recorded one is only compared, and a row that conflicts changes nothing. |
| `Migrations.SchemaDatabase.RunMigrations` | internal/db/migrations.go:186-198 | The loop computes the big-step result and stops at the first failure. |
| `Migrations.SchemaDatabase.CheckMigrationsCurrent` | internal/db/migrations.go:200-210 | True exactly if every migration is recorded with its checksum; at most the table is created. |
| `Migrations.SchemaDatabase.AppliedMigrationRecords` | internal/db/compatibility.go:98-140 | All rows in name order, none without the table. |
| `Migrations.SchemaDatabase.Open` | internal/db/db.go:13-39 | Check, then migrate: complete from every healthy database, untouched when refused. |
| `Migrations.InitialNamesIncrease` | internal/db/migrations.go:16-184 | The shipped names are strictly increasing, as the check needs. |
| `GoStrings.TrimLaw` | internal/config/config.go:325-337 | Trimming removes only cutset characters and leaves none at the ends. |
| `GoStrings.CutAtFirstColon` | internal/config/config.go:325-329 | A line is cut at its first colon. |
| `GoStrings.SplitUndoesJoin` | internal/config/config.go:427-427 | Splitting undoes joining for parts without commas. |
| `GoStrings.JoinUndoesSplit` | internal/config/config.go:421-427 | Joining undoes splitting, and no part holds a comma. |
| `Config.ParseServiceAllowlist` | internal/config/config.go:421-436 | The loop computes the non-empty items in order. |
| `Config.ParseConfig` | internal/config/config.go:253-295 | The loop over cfg, seen and pendingListKey computes the fold about which everything below is proved, the first failing line included. |
| `Config.OneKeyPerField` | internal/config/config.go:339-419 | Apart from the two names of the idle timeout, a field has one key. |
| `ConfigBlocks.EveryFileIsBlocks` | internal/config/config.go:253-295 | Every file is a preface without keys followed by blocks. |
| `ConfigBlocks.BlockReads` | internal/config/config.go:258-289 | A block has the same effect wherever it stands and whatever list was pending: it assigns one field and marks one key, or fails. |
| `ConfigBlocks.ItemsRead` | internal/config/config.go:305-319 | List items are accepted exactly below an empty list field, if none is empty, and extend that list in order. |
| `ConfigBlocks.ParsedByBlocks` | internal/config/config.go:253-295 | A file is accepted exactly when no item stands before the first key, every block parses on its own and no key occurs twice; it then means its blocks' settings in order. |
| `ConfigOrder.OrderMattersOnlyForIdle` | internal/config/config.go:339-419 | Reordering blocks never changes acceptance; the configuration is the same if and only if the last idle-timeout block sets the same value, which always holds unless both aliases occur. |
| `ConfigOrder.LaterIdleWins` | internal/config/config.go:387-392 | When both aliases occur the later one counts. |
| `ConfigOrder.LastSettingWins` | internal/config/config.go:278-285 | The last setting of a field decides it; a field without one keeps its value. |
| `ConfigLines.AcceptedIffLinesFit` | internal/config/config.go:253-295 | A file is accepted if and only if every line fits the lines before it: blank or a comment; a non-empty item below an open list; or a known key, not given before, whose Go parser reads the value. A refusal tells the first line that does not, its number and its cause. |
| `ConfigLines.ScalarIsStored` | internal/config/config.go:339-419 | For every scalar key, wherever its line stands in an accepted file: the configuration holds, at the field of that key, exactly the number, flag or text that the Go parser for the field makes of the value; for the idle timeout the last of its lines counts. |
| `ConfigLines.AcceptedLineReads` | internal/config/config.go:339-419 | In an accepted file every key is known and every value is read by the parser of its field. |
| `ConfigLines.BadLineIsRefused` | internal/config/config.go:339-419 | A file with a line whose key is unknown, or whose parser refuses the value, is refused wherever that line stands. |
| `ConfigLines.UngivenFieldKeeps` | internal/config/config.go:339-419 | A scalar field whose key no line gives keeps its value. |
| `ConfigLines.PlainLineSpells` | internal/config/config.go:325-337 | A line written key, colon, space, value gives that key and that value. |
| `ConfigLines.OneItemList` | internal/config/config.go:421-436 | A text without commas is a list of one item, without its spaces and quotes, or of none if nothing is left. |
| `ConfigLines.CommaJoinsLists` | internal/config/config.go:427-434 | For any two texts without outer brackets, a comma between them joins their lists, empty items included. |
| `ConfigLines.BracketsMeanNothing` | internal/config/config.go:421-422 | Brackets around a list text do not change its list. |
| `ConfigLists.CommaTextReads` | internal/config/config.go:421-436 | Any comma spelling of valid names, with or without brackets, quotes and spaces around the list and around each name, is read as exactly those names. |
| `ConfigLists.CommaSpelling` | internal/config/config.go:325-337 | As a line of a file it is a block that sets the list to those names. |
| `ConfigLists.ItemSpelling` | internal/config/config.go:297-319 | So is the empty key line followed by one item line per name, with any blank and comment lines between. |
| `ConfigLists.EveryListHasBothSpellings` | internal/config/config.go:297-337 | Every list of names, the empty one too, has a comma spelling and an item spelling. |
| `ConfigLists.SpellingsAreInterchangeable` | internal/config/config.go:253-295 | Anywhere in any file, a comma spelling and an item spelling of the same valid names may stand for each other: same acceptance, same configuration. |
| `ConfigLists.SpelledListIsRead` | internal/config/config.go:253-295 | A file of just a list of valid names, in either spelling, yields the configuration with exactly these names in that list. |

## Left out

- Audit.AuditStore.Record: the event carries no remote address, dev-bypass flag or time of writing, and a failed write with its own counter is not modelled.
- SQL failures: driver errors, locking and disk faults are modelled only as a thread or process that stops there.
- Identity guards in interleavings: in internal/identity the guard and the write are separate statements; the governance theorems take each store call as one step.
- Cryptography: bcrypt, SHA-256 and random sources are injective functions and fresh inputs; the 72-byte limit of bcrypt is not modelled.
- Calendar: years beyond four digits and the date part of RFC 3339 beyond a fixed-width seconds prefix.
- Transport: sockets, JSON and deadlines are a request that does not arrive, an answer that is lost or late, or an answer.
- Executables: the runner's allowed-name check by base name, and why a process cannot be started or is killed; that it can happen is modelled.
- Worker polling: the ticker loop of Start and its two counters; a turn is an event that may happen at any time.
- Agent and audit counters in the accounting law: they are in the contracts of the worker's methods, the law covers the six job counters and all lifecycle events.
- HTTP: routing, cookies, capability checks, development mode, decision-reason length, error bodies.
- Jobs written by hand into the table: the runs start from an empty table and create jobs through the service-control handler.
- Two processes opening one database at the same time: the statement machine runs one Open after another.
- Migration SQL that fails: a statement that fails ends Open, as a crash there would.
- Config files as bytes: line splitting, the scanner's line-length limit, and the validation after parsing (Validate, ValidateAgent, ApplyDefaults).
- Readiness, process visibility, host probes, list-users and list-capabilities queries: they would only add easy members.
- The frontend, OpenAPI generation, packaging and release scripts.
