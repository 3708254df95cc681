# Verified models of the OrignaBase protocols

Dafny models of the stateful protocols and the two query transformations of the
OrignaBase backend, with proofs about whole runs. `dafny verify dfyconfig.toml`
checks everything.

The project has three layers for each protocol.

1. The effect of every SQL statement or map operation is a function on a table
   (a Dafny `map` or `seq`). A class holds the table and changes it in place
   with methods specified by those functions.
2. A state machine interleaves those effects. Each statement, each clock reading
   that can matter, each commit and each crash is a separate event; `Run` relates
   the sequence of states to the sequence of events.
3. Lemmas prove an inductive invariant of every event and read the promises of
   the source off it.

| file | source it models |
|---|---|
| `TaskTable`, `TaskWorker`, `TaskMachine`, `TaskBounds`, `TaskLease`, `TaskBackoff`, `TaskSchedule` | the background task queue and its workers |
| `Revocation`, `RefreshHandler`, `RefreshMachine`, `RefreshSafety`, `RefreshSessions` | refresh-token rotation, logout, revocation and cleanup |
| `WindowLimiter`, `LogLimiter` | the in-memory limiter, the MFA attempt limiter and the login lockout |
| `Mfa`, `MfaOverlap`, `OAuthState`, `PasswordReset`, `ResetOverlap`, `SessionCut`, `KeyRotation` | TOTP replay protection, OAuth state nonces, password reset, signing keys |
| `ListLoop`, `CursorPaging`, `NamedBinds` | the GraphQL list loop, cursor pagination, named placeholders |

## Assumptions

- Times are whole seconds and the clock never goes back. Where a value is read
  from the clock before the statement that uses it, the model lets it lag; the
  readings of the in-memory limiter and of the cleanups may overtake each other.
- Signatures cannot be forged, hashes are injective, nonces and row ids are
  fresh, new signing keys have their own fingerprints. The lock key of a token,
  the code generator, the rule engine and the row filter are arbitrary functions.
- `now + 2^k` seconds leaves the range of the date type for k >= 43, where the
  addition panics and the worker that meets it is gone; release builds do not
  check for overflow, so for k >= 64 the power wraps to 0 and the task is
  requeued at once.

## Where the source does not keep a promise

- `refresh` documents that a failed revocation is tolerated; the code aborts the
  request (routes.rs:558, 639). The model follows the code.
- A refresh token can be exchanged twice. The second exchange is never checked
  before `exp`, nor before its first revocation is one lifetime old, and that
  revocation came no later than the second verification, so at most 30 s after
  `exp`. If it came more than 30 s after the issue, the second check lags its
  verification by at least the excess (`SecondExchangeWindow`). Every revocation
  time in that range does allow a second exchange, with the least lag
  (`LeewayAllowsSecondExchange`).
- "Atomically claim" holds for the UPDATE only. Claims are exclusive all along
  exactly when no reclaim or admin retry ever takes a task from a live holder
  (`ExclusiveIffSpared`), and the 300 s reclaim does so exactly when a holder is
  late (`ReclaimSparesIffTimely`). A late worker shares its task and can undo a
  completion (`LateHolderBreaksLease`). A claim comes before the scheduled retry
  exactly when a requeue to a later time was written, and no admin retry after
  it, between its SELECT and its UPDATE (`EarlyIffRequeuedBetween`,
  `StaleSelectSkipsBackoff`).
- With `max_retries` above 43 a failing task is never dead-lettered
  (`TooManyRetriesNeverDeadLetter`): the 43rd failure goes unrecorded
  (`UnrecordedIffPanic`) and the task can end up running without a holder
  (`PanicAbandons`), which with a limit up to 43 never happens
  (`AbandonedOnlyByPanic`).
- The task lifecycle names a `failed` status that no statement writes.
- Section 5.2 of RFC 6238 asks that a code be used once. Replay protection
  compares steps, so every code of every generator works in three of them
  (`SameCodeThrice`), and in no more than three for each step that has it
  (`CodeUsesInRange`). Challenges that overlap can also use one code in one step
  twice (`OverlapReplays`): a stored step, or an older one, is accepted again
  exactly when a challenge that was under way when it was stored writes an older
  or equal one later (`StepReplayedIffStraggler`).
- A reset token is meant for one use: `c` overlapping resets can use it `c` times
  (`OneTokenResetsManyTimes`), and `c` resets for each issued token is the most
  that interleavings allow (`ResetsPerIssuance`).
- A reset is meant to end all older sessions. An overlapping older reset can set
  the stored time back (`CutKeptIff`, `OlderResetWritesLast`), and a refresh that
  read the user before the reset carries its session over (`SurvivesIffEscaped`,
  `RefreshAcrossReset`).
- A refresh in the second of the token's issue returns the token it has just
  revoked (`DeliveredLiveIff`, `SameSecondRefreshIsDead`).
- A zero window makes the in-memory limiter admit everything
  (`ZeroWindowAdmitsAll`).
- Cursor paging returns everything exactly when each full page is followed by
  keys strictly beyond its last one only (`SessionCompleteIff`); in pages of one
  row, rows that share a key are lost (`TiedRowIsLost`).
- Replacing binds one by one gives the intended query exactly when each
  placeholder is harmless (`SimultaneousIffHarmless`); a bind that is a proper
  prefix of a placeholder and precedes its own bind corrupts it, always with up to
  nine binds (`PreemptedIsSplit`).
- Two key rotations in one second lose the only backup of a key that is still
  listed (`SameSecondLosesBackup`, `BackupKeptIffSecondsDiffer`).

## Model

| member | source | states |
|---|---|---|
| `TaskTable.SomeNext` | crates/ob-database/src/task_queue.rs:240-254 | whenever a row is eligible, the claim SELECT has a row to return: eligible and not younger than any other eligible row |
| `TaskTable.Pow2Adds` | crates/ob-database/src/task_queue.rs:341-343 | the backoff is exponential: 2^(j + k) = 2^j * 2^k, and 2^1 = 2 |
| `TaskTable.TaskQueue.Enqueue` | crates/ob-database/src/task_queue.rs:192-222 | a new pending row without attempts, with its limit cast to 32 signed bits, eligible exactly from the end of its delay on; all other rows unchanged |
| `TaskTable.TaskQueue.ClaimSelect` | crates/ob-database/src/task_queue.rs:235-258 | returns an oldest eligible row of the queue, and nothing only when no row is eligible |
| `TaskTable.TaskQueue.ClaimUpdate` | crates/ob-database/src/task_queue.rs:262-283 | the claim is won exactly when the row is still pending, and then it is running under this lock time with one more attempt and otherwise as before; a lost one changes nothing |
| `TaskTable.TaskQueue.Complete` | crates/ob-database/src/task_queue.rs:286-300 | the row gets status completed and its date, whatever its status was, and keeps attempts, lock time and schedule; no other row changes, and a missing one changes nothing |
| `TaskTable.TaskQueue.FailSelect` | crates/ob-database/src/task_queue.rs:303-343 | nothing for a missing row; bury at the limit; otherwise requeue after 2^attempts seconds, panic for 43 to 63 attempts, and requeue at once from 64 on |
| `TaskTable.TaskQueue.FailUpdate` | crates/ob-database/src/task_queue.rs:329-357 | whatever the row has become, it is eligible exactly from the retry time on with its lock cleared, or dead-lettered and never eligible; attempts and all other rows stay |
| `TaskTable.TaskQueue.ReclaimStale` | crates/ob-database/src/task_queue.rs:361-393 | exactly the running rows locked before the cutoff go back to pending unlocked with their attempts, no stale row is left, all others are unchanged, and the count says how many |
| `TaskTable.TaskQueue.PurgeCompleted` | crates/ob-database/src/task_queue.rs:419-432 | exactly the completed rows older than the cutoff disappear, the others are unchanged, and the count says how many went |
| `TaskTable.TaskQueue.RetryDeadLetter` | crates/ob-database/src/task_queue.rs:467-483 | the task is claimable at any time from now on without attempts, with its queue, limit and age, whatever its status was; no other row changes |
| `TaskWorker.Worker.CheckStale` | crates/ob-database/src/task_queue.rs:519-531 | once 60 s have passed, and only then, exactly the rows running under a lock older than 300 s are pending and unlocked, all other rows are as before, and the timer restarts |
| `TaskWorker.Worker.Turn` | crates/ob-database/src/task_queue.rs:518-579 | after that stale check, row by row: an uninterrupted turn claims an oldest due task and resolves it by the handler's outcome with one more attempt (completed, dead-lettered, requeued with backoff, left running by a panicking backoff, or requeued at once when the power has wrapped), changes no other row, and does nothing only when no task is due |
| `TaskMachine.NoTaskIsLost` | crates/ob-database/src/task_queue.rs:359-375 | in every run, whoever crashes: a row leaves the table only when completed, and any running row is brought back by a reclaim later than its lock |
| `TaskMachine.IdsUsedAlways` | crates/ob-database/src/task_queue.rs:126 | in every run, table rows and workers only ever name ids that were generated, so an id is never reused |
| `TaskBounds.DecideStep` | crates/ob-database/src/task_queue.rs:312-343 | deciding a requeue keeps the bounds, because the decider is itself one holder more than the other deciders |
| `TaskBounds.StepBounded` | crates/ob-database/src/task_queue.rs:235-375 | every event keeps both bounds, with the decided but unwritten requeues counted in |
| `TaskBounds.HoldersAndAttempts` | crates/ob-database/src/task_queue.rs:235-375 | in every interleaving, with crashes, reclaims and admin retries: live holders + (1 if pending) <= 1 + interventions, and attempts <= max(1, max_retries) + interventions |
| `TaskLease.ExclusiveStep` | crates/ob-database/src/task_queue.rs:262-300 | when every holder owns its running row alone, an event keeps that if and only if it takes no task from a live holder |
| `TaskLease.ExclusiveIffSpared` | crates/ob-database/src/task_queue.rs:262-375 | for every run: claims are exclusive in all its states if and only if no reclaim and no admin retry hits a task with a live holder |
| `TaskLease.ReclaimSparesIffTimely` | crates/ob-database/src/task_queue.rs:361-375 | while claims are exclusive, the 300 s reclaim takes nothing from a live holder if and only if every holder is within 300 s of its stored lock time |
| `TaskLease.FinishedIsFinal` | crates/ob-database/src/task_queue.rs:361-375 | in a run that takes no task from a live holder, a completed or dead-lettered row never changes again but by an admin retry; only a completed one can vanish |
| `TaskLease.LeaseIsSafe` | crates/ob-database/src/task_queue.rs:507-580 | if every live worker resolves within 300 s of its stored lock time: at most one live holder per task, its row is running, and finished rows stay as they are |
| `TaskLease.LateHolderBreaksLease` | crates/ob-database/src/task_queue.rs:286-300 | for every queue, every lateness above 300 s and every limit that lets the second failure requeue, a run in which the late worker's task has two live holders after one reclaim (the bound is attained) and goes back to pending once completed |
| `TaskBackoff.TracksStep` | crates/ob-database/src/task_queue.rs:240-357 | every event keeps row, worker and the history of claims and failures in step |
| `TaskBackoff.LastClaim` | crates/ob-database/src/task_queue.rs:341-343 | the backoffs add up: the m-th claim is at least 2^m - 2 seconds after the first failure |
| `TaskBackoff.ExactlyMaxAttempts` | crates/ob-database/src/task_queue.rs:240-353 | with one worker per queue, a task that always fails is claimed at most m = max(1, max_retries) times, is dead-lettered exactly at the m-th failure, and the claim after the k-th failure waits 2^k seconds or more |
| `TaskBackoff.TooManyRetriesNeverDeadLetter` | crates/ob-database/src/task_queue.rs:341-343 | if max_retries exceeds 43, at most 42 failures are recorded and the task is never dead-lettered |
| `TaskBackoff.AbandonedOnlyByPanic` | crates/ob-database/src/task_queue.rs:303-343 | a failing task is running without a holder only after its 43rd claim and with a limit above 43 |
| `TaskBackoff.UnrecordedIffPanic` | crates/ob-database/src/task_queue.rs:341-343 | a failure of the task goes unrecorded if and only if it is the 43rd and the limit is above 43 |
| `TaskBackoff.PanicAbandons` | crates/ob-database/src/task_queue.rs:341-343 | for every queue and limit above 43, a run that leaves the task running without a holder |
| `TaskBackoff.DeadLetterReached` | crates/ob-database/src/task_queue.rs:329-343 | for every queue and limit up to 43, a run that dead-letters the task after exactly max(1, limit) attempts |
| `TaskSchedule.DatedLater` | crates/ob-database/src/task_queue.rs:329-357 | a row that was due at a clock value is dated later than it only by a requeue that no admin retry followed, and then the date is that of the requeue |
| `TaskSchedule.EarlyIffRequeuedBetween` | crates/ob-database/src/task_queue.rs:240-274 | in every run, with any workers, crashes, reclaims and retries: the UPDATE of a claim meets a row scheduled after the claim's clock exactly when, since its SELECT, a requeue to such a time was written and no admin retry followed |
| `TaskSchedule.StaleSelectSkipsBackoff` | crates/ob-database/src/task_queue.rs:262-274 | for every queue and every limit above 1, a run in which a second worker claims a task two seconds before its scheduled retry |
| `Revocation.RevocationStore.TryLock` | crates/ob-auth/src/revocation.rs:58-81 | the lock is acquired exactly when nobody holds the key, and a refusal changes nothing |
| `Revocation.RevocationStore.Revoke` | crates/ob-auth/src/revocation.rs:92-116 | afterwards the token is revoked exactly until one lifetime from now, whatever row it had before; no other token changes |
| `Revocation.RevocationStore.Cleanup` | crates/ob-auth/src/revocation.rs:159-178 | exactly the rows that expired before now go, the others are unchanged, no clock reading from one second before now on can tell, and the count says how many |
| `Revocation.CleanupIsInvisible` | crates/ob-auth/src/revocation.rs:126-178 | deleting every cleanup from any run of revocations, questions and cleanups, with clock readings in any order, changes no answer, if no question reads the clock more than a second behind an earlier cleanup |
| `Revocation.CleanupVisibleIffBehind` | crates/ob-auth/src/revocation.rs:126-178 | that second is exact: a cleanup changes the answer to a question for some table if and only if the question's reading is more than a second behind |
| `RefreshHandler.Refresh` | crates/ob-auth/src/routes.rs:560-650 | uninterrupted: refused for a held lock, a token that is not signed or more than 30 s past `exp`, a listed one, a missing or disabled user or a later password change, each exactly under its own guard behind the earlier ones and without a trace; otherwise the old token is revoked for one lifetime, the lock free again, no other token touched, and the new token is good unless a row lists it or it is the old token itself |
| `RefreshHandler.Logout` | crates/ob-auth/src/routes.rs:664-680 | whatever is sent, except nothing, is revoked for one lifetime; no lock, and no other token touched |
| `RefreshMachine.AcquireIsTryLock` | crates/ob-auth/src/revocation.rs:58-81 | in the interleaved machine a request starts exactly when its lock key is free, and a refusal changes nothing |
| `RefreshMachine.LockIsKept` | crates/ob-auth/src/revocation.rs:53-81 | in every step the holder of a lock keeps it until it ends or its connection is lost |
| `RefreshSafety.RecordedStep` | crates/ob-auth/src/revocation.rs:92-178 | in every interleaving a revoked token stays listed until a revocation of it is one lifetime old |
| `RefreshSafety.PassedCheck` | crates/ob-auth/src/routes.rs:575-580 | the check passes on a revoked token only when a revocation of it is one lifetime old |
| `RefreshSafety.LockStep` | crates/ob-auth/src/routes.rs:564-644 | the advisory lock keeps other exchanges of the token away between a request's check and its response, even if lock connections are lost |
| `RefreshSafety.OrderStep` | crates/ob-auth/src/routes.rs:564-580 | a request that holds the lock on an exchanged token verified it after a revocation of it was computed |
| `RefreshSafety.AlwaysInv` | crates/ob-auth/src/routes.rs:560-680 | the invariant of rotation in every interleaving of refresh, logout, sign-in, cleanup, aborts and lost locks |
| `RefreshSafety.SecondExchangeWindow` | crates/ob-auth/src/jwt.rs:121-128 | a second exchange is checked at least one lifetime after the earliest revocation r and verified at r or later, so r is at most `exp` + 30, and its check lags its verification by at least r - (`iat` + 30) |
| `RefreshSafety.AtMostOneEarlyExchange` | crates/ob-auth/src/routes.rs:560-650 | for any lock-key function, of two exchanges of one token the later is not checked before the token's `exp` |
| `RefreshSessions.DeliverStep` | crates/ob-auth/src/routes.rs:636-650 | an exchange checked before `exp` uses up one unspent token for the one it delivers |
| `RefreshSessions.SpentIsDead` | crates/ob-auth/src/revocation.rs:118-151 | an exchanged token is revoked until it expires |
| `RefreshSessions.SessionsDoNotMultiply` | crates/ob-auth/src/routes.rs:577-680 | a user's delivered, unexpired, unrevoked refresh tokens never outnumber the user's sign-ins plus the exchanges made after `exp` |
| `RefreshSessions.DeliveredLiveIff` | crates/ob-auth/src/routes.rs:636-650 | in every reachable state a delivered token is live if and only if it is not the exchanged token itself, has not expired and no unexpired row lists it |
| `RefreshSessions.SameSecondRefreshIsDead` | crates/ob-auth/src/jwt.rs:191-206 | for every lifetime, lock key, user and time, a sign-in and a refresh in one second leave no live token |
| `RefreshSessions.LeewayAllowsSecondExchange` | crates/ob-auth/src/jwt.rs:121-128 | for every lifetime, lock key and first revocation from the issue to `exp` + 30, a run that exchanges the token twice with exactly the least lag, so the window is exact |
| `WindowLimiter.RateLimiter.Check` | crates/ob-auth/src/rate_limit.rs:30-43 | the entry is counted up within its window, otherwise restarted or inserted with count 1 and this time; the request passes exactly when the new count is within the limit; no other address changes |
| `WindowLimiter.RateLimiter.Cleanup` | crates/ob-auth/src/rate_limit.rs:46-50 | exactly the entries whose window has not passed stay, unchanged, and no check that reads the clock at that time or later can tell |
| `WindowLimiter.CleanupIsInvisible` | crates/ob-auth/src/rate_limit.rs:30-50 | deleting every cleanup from any run, with clock readings in any order, changes no answer of a check, if no check reads the clock behind an earlier cleanup |
| `WindowLimiter.CleanupVisibleIffBehind` | crates/ob-auth/src/rate_limit.rs:30-50 | that condition is exact: a cleanup changes the answer to a check for some state if and only if the check's reading is behind |
| `WindowLimiter.AdmittedPerWindow` | crates/ob-auth/src/rate_limit.rs:30-50 | if threads' readings lie at most `lag` behind earlier ones, less than a window, any closed interval of one window W admits at most max_requests * ceil((2W + lag) / (W - lag)) requests of one address |
| `WindowLimiter.AtMostLimitPerWindow` | crates/ob-auth/src/rate_limit.rs:30-43 | within one recorded window the admissions stay within the limit |
| `WindowLimiter.AtMostTwiceTheLimit` | crates/ob-auth/src/rate_limit.rs:30-50 | in clock order, any run of checks and cleanups admits at most 2 * max_requests of one address in any closed interval of one (positive) window |
| `WindowLimiter.TwiceTheLimitIsAttained` | crates/ob-auth/src/rate_limit.rs:30-43 | for every limit, window, address and time, two bursts at the ends of one window are all admitted |
| `WindowLimiter.ZeroWindowAdmitsAll` | crates/ob-auth/src/rate_limit.rs:35-42 | with a zero window any number of requests at one instant passes |
| `LogLimiter.AttemptLog.CheckRateLimit` | crates/ob-auth/src/rate_limit.rs:109-161 | a failed count is an error; otherwise it passes exactly when fewer than max rows of the key fall in the window, and logs exactly the attempts that pass, unless the insert fails, which is ignored |
| `LogLimiter.AttemptLog.CheckLockout` | crates/ob-auth/src/login_tracking.rs:303-335 | the decision on at most ten rows is the decision on the number of all rows of the email in 900 s: fewer than five; test mode and a failed query always pass |
| `LogLimiter.AttemptLog.RecordFailure` | crates/ob-auth/src/login_tracking.rs:280-297 | every window that holds this time counts one more failure for this email only, or nothing changes if the insert fails |
| `LogLimiter.AttemptLog.Login` | crates/ob-auth/src/routes.rs:435-483 | uninterrupted: locked out exactly from five failures in 900 s on; then unknown user, bad record, disabled user and wrong password in this order; the unknown user and the wrong password add exactly their own row, nothing else adds one |
| `LogLimiter.CountIsCardinality` | crates/ob-auth/src/rate_limit.rs:118-139 | the count is the number of rows of the key dated in the window |
| `LogLimiter.CheckDecides` | crates/ob-auth/src/rate_limit.rs:118-143 | in the interleaved machine a request gets past its check exactly when it is blind or fewer than max rows of its key lie in its window |
| `LogLimiter.StepKeepsBudget` | crates/ob-auth/src/rate_limit.rs:118-158 | rows in a window plus counted requests that may still log into it stay within max - 1 + c plus the rows of uncounted requests |
| `LogLimiter.AttemptsPerWindow` | crates/ob-auth/src/rate_limit.rs:109-161 | with at most c counted requests between check and log, at most max - 1 + c rows fall in any closed window, in every interleaving, besides those of requests that a failed query or test mode let through uncounted |
| `LogLimiter.BudgetIsAttained` | crates/ob-auth/src/rate_limit.rs:109-161 | for every limit, window and c > 0, a run with max - 1 + c rows in one window |
| `LogLimiter.LockoutPerWindow` | crates/ob-auth/src/login_tracking.rs:273-335 | at most 4 + c counted failed logins of one email in any closed 900 seconds |
| `Mfa.MfaHandlers.Setup` | crates/ob-auth/src/routes.rs:1419-1479 | refused when MFA is on, without a change; otherwise the pending secret is new and nothing else changes |
| `Mfa.MfaHandlers.VerifySetup` | crates/ob-auth/src/routes.rs:1506-1589 | succeeds exactly when the pending secret matches the code; then it is the active one and the last step is forgotten; the lock and the attempts stay, and a refusal changes nothing |
| `Mfa.MfaHandlers.Challenge` | crates/ob-auth/src/routes.rs:1611-1722 | whichever database calls fail, each answer exactly under its own guard: five attempts in 900 s, the lock and its release after 900 s, a missing secret, a used step, a wrong code; a success stores its 30-second step; attempts past the limiter are logged, the others lock the account; the secrets never change |
| `Mfa.ChallengeAnswers` | crates/ob-auth/src/routes.rs:1611-1722 | the same answers for the function that the runs are made of |
| `Mfa.ChallengeRecords` | crates/ob-auth/src/routes.rs:1633-1722 | the same account changes for the function that the runs are made of |
| `Mfa.MfaHandlers.Disable` | crates/ob-auth/src/routes.rs:1912-1972 | succeeds exactly with a fresh valid code of an enabled user; then the secrets and the last step are cleared; the lock and the attempts stay, and a refusal changes nothing |
| `Mfa.AcceptedStepsIncrease` | crates/ob-auth/src/totp.rs:73-99 | between an activation and the next reset, successful challenges have strictly increasing 30-second steps |
| `Mfa.CodeUsesInRange` | crates/ob-auth/src/totp.rs:81-98 | for every generator and code, before the next reset: at most three successes for each step that has the code, counted over any range that covers the accepted steps and their skew |
| `Mfa.CodeWorksAtMostThrice` | crates/ob-auth/src/totp.rs:81-98 | a code succeeds at most three times before the next reset, if no other step within one of an accepted step has it |
| `Mfa.SameCodeThrice` | crates/ob-auth/src/totp.rs:83-98 | for every generator, secret and step k, a run in which the code of step k succeeds in the steps k - 1, k and k + 1 |
| `Mfa.QuietChallengePasses` | crates/ob-auth/src/routes.rs:1621-1690 | after more than 900 s without requests a challenge is neither rate limited nor locked out, whichever database calls fail |
| `MfaOverlap.HalvesMakeAChallenge` | crates/ob-auth/src/routes.rs:1709-1722 | without overlap, verifying and storing the step are together the atomic challenge |
| `MfaOverlap.StepReplayedIffStraggler` | crates/ob-auth/src/routes.rs:1709-1722 | for every interleaving: after a challenge has stored its step, that step or an older one is accepted again before the next reset if and only if a challenge with such a step, under way unchanged since then, writes |
| `MfaOverlap.LoneWriteIsFinal` | crates/ob-auth/src/routes.rs:1709-1722 | in every interleaving, a challenge that stores its step while no other is under way is followed, until the next reset, by later steps only |
| `MfaOverlap.OverlapReplays` | crates/ob-auth/src/routes.rs:1709-1722 | for every generator, secret and step, a run in which two overlapping challenges both succeed with that code in that step |
| `OAuthState.IssueState` | crates/ob-auth/src/routes.rs:228-247 | the nonce can be consumed until ten minutes from now; no other nonce changes |
| `OAuthState.DecodeState` | crates/ob-auth/src/routes.rs:250-271 | uninterrupted: a genuine token is accepted exactly when its nonce is there and unexpired; the nonce is gone afterwards with every expired one, and the other unexpired ones stay |
| `OAuthState.InvStep` | crates/ob-auth/src/routes.rs:250-271 | every event keeps: a callback whose sweep has passed its nonce sees it only while unexpired, and a consumed nonce never comes back |
| `OAuthState.ConsumedOnceBeforeExpiry` | crates/ob-auth/src/routes.rs:228-271 | in every interleaving, with the map swept shard by shard, each state token is consumed at most once, by a callback that read a time within 600 s of its issue, whatever leeway decoding allows |
| `OAuthState.CallbackConsumes` | crates/ob-auth/src/routes.rs:250-271 | from any state, an uninterrupted callback of the interleaved machine goes through and consumes its nonce exactly when that is there and unexpired |
| `OAuthState.NotLostBeforeExpiry` | crates/ob-auth/src/routes.rs:228-271 | in every run, a state token that has not expired and was not consumed is accepted by an uninterrupted callback |
| `PasswordReset.UserStore.ForgotPassword` | crates/ob-auth/src/routes.rs:1116-1159 | a known user gets a new pending token for an hour and keeps password and change time; an unknown one, and every other user, stays as is |
| `PasswordReset.UserStore.ResetPassword` | crates/ob-auth/src/routes.rs:1198-1276 | succeeds exactly for a strong password and the unexpired, unused, pending token; then the hash is new, no token is pending and exactly the refresh tokens from now on are accepted; each of the seven refusals has its own guard behind the earlier ones and changes nothing |
| `PasswordReset.ConstantTimeEqIsEquality` | crates/ob-auth/src/routes.rs:1290-1298 | the xor-accumulating comparison decides equality |
| `PasswordReset.ResetsNeedIssuances` | crates/ob-auth/src/routes.rs:1142-1159 | in every run, a user's resets never outnumber the tokens issued to that user |
| `PasswordReset.OnlyLatestTokenWorks` | crates/ob-auth/src/routes.rs:1224-1246 | a reset succeeds only with the token issued last |
| `PasswordReset.TokenDiesWithReset` | crates/ob-auth/src/routes.rs:1256-1271 | after a reset no further reset succeeds until a new token is issued |
| `PasswordReset.ResetCutsSessions` | crates/ob-auth/src/routes.rs:599-611 | after a reset at time P, in every later state an accepted refresh token has `iat` >= P |
| `ResetOverlap.CoveredStep` | crates/ob-auth/src/routes.rs:1210-1271 | every event keeps: a pending token is unused, and once it is gone only resets already under way can still write |
| `ResetOverlap.ResetsPerIssuance` | crates/ob-auth/src/routes.rs:1210-1271 | in every interleaving with at most c resets of a user between check and write, the resets are at most c times the tokens issued |
| `ResetOverlap.OneTokenResetsManyTimes` | crates/ob-auth/src/routes.rs:1210-1271 | for every c, a run in which one issued token resets the password c times |
| `ResetOverlap.HalvesMakeAReset` | crates/ob-auth/src/routes.rs:1210-1271 | without overlap, check and write are together the atomic reset |
| `SessionCut.CutKeptIff` | crates/ob-auth/src/routes.rs:1256-1271 | for every interleaving: after a reset has written the time P, the stored time falls below P if and only if a reset under way at that moment with an earlier time writes |
| `SessionCut.SurvivesIffEscaped` | crates/ob-auth/src/routes.rs:585-636 | unless that happens, a session from before P is accepted only with a token from P or later, and one has such a token if and only if a refresh that had read the user before the write issued it; until another reset that is exactly when one is accepted |
| `SessionCut.QuietResetCutsAll` | crates/ob-auth/src/routes.rs:1256-1271 | a reset that writes while no other reset and no refresh is under way, before any token of its time or later, ends every older session for good |
| `SessionCut.HalvesMakeARefresh` | crates/ob-auth/src/routes.rs:599-636 | without overlap, a refresh is refused exactly when its token is older than the stored time, and otherwise adds one token of its session |
| `SessionCut.RefreshAcrossReset` | crates/ob-auth/src/routes.rs:585-636 | for every birth and later reset, a run in which a refresh carries the old session over |
| `SessionCut.OlderResetWritesLast` | crates/ob-auth/src/routes.rs:1256-1271 | for every birth and later reset, a run in which an overlapping older reset brings a refused session back |
| `KeyRotation.KeyRotationManager.Rotate` | crates/ob-auth/src/key_rotation.rs:42-58 | the new key is current, the old one heads the previous keys unmarked, the others follow in order, and the last one goes when there were two |
| `KeyRotation.KeyRotationManager.AllFingerprints` | crates/ob-auth/src/key_rotation.rs:84-90 | the current fingerprint followed by the previous ones in order |
| `KeyRotation.CleanupOldBackups` | crates/ob-auth/src/jwt.rs:432-461 | exactly the first `keep` files of the sorted listing survive, unchanged; a failing deletion leaves the later files in place |
| `KeyRotation.RotateKeys` | crates/ob-auth/src/jwt.rs:384-429 | for every directory, whichever active files are missing or do not match, and whichever file operation fails: the directory afterwards, with an incomplete pair not archived and a directory without metadata and public key left alone |
| `KeyRotation.SuccessLeaves` | crates/ob-auth/src/jwt.rs:384-429 | file by file after success: the new pair, the metadata with the old current key heading the previous ones, and exactly the four youngest backups, each from before or a copy of an active file |
| `KeyRotation.FailureLeaves` | crates/ob-auth/src/jwt.rs:384-429 | file by file after each failure: metadata old until saved, each active file old until made, backups from before or copies |
| `KeyRotation.OldPairAtHand` | crates/ob-auth/src/jwt.rs:384-429 | however a rotation ends, the two key files that were active before are still active or completely backed up |
| `KeyRotation.NewestComeFirst` | crates/ob-auth/src/jwt.rs:451-458 | files younger than all others fill the front of any newest-first listing, however ties are ordered |
| `KeyRotation.HasListing` | crates/ob-auth/src/jwt.rs:451-452 | every directory has a newest-first listing, whatever ages its files share |
| `KeyRotation.FingerprintsAfter` | crates/ob-auth/src/key_rotation.rs:42-90 | after n rotations one key is current and the fingerprints are the last min(n + 1, 3) keys, newest first |
| `KeyRotation.BackupsAfter` | crates/ob-auth/src/jwt.rs:405-426 | the backups are the private and public file of exactly the recorded previous keys |
| `KeyRotation.VerificationAfter` | crates/ob-auth/src/jwt.rs:295-311 | a key set loaded in fingerprint order accepts exactly the current and the last retired key |
| `KeyRotation.SameSecondLosesBackup` | crates/ob-auth/src/jwt.rs:405-415 | after two rotations in one second the metadata lists the key before them as second previous key, while no file holds it |
| `KeyRotation.BackupKeptIffSecondsDiffer` | crates/ob-auth/src/jwt.rs:405-426 | with rising file times, the key listed second still has a backup if and only if the two rotations ran in different seconds |
| `ListLoop.Collect` | crates/ob-graphql/src/resolvers.rs:200-244 | for any positive batch size the loop ends with the first readable rows after the offset |
| `ListLoop.List` | crates/ob-graphql/src/resolvers.rs:184-246 | the page is the first readable rows after max(0, offset), up to a limit of 20 unless given and between 1 and 100, for every rule |
| `CursorPaging.FilterSort` | crates/ob-database/src/query.rs:300-311 | WHERE before ORDER BY selects the same sequence as filtering the ordered rows |
| `CursorPaging.FirstSelect` | crates/ob-database/src/query.rs:300-311 | the first SELECT returns every matching row as often as it is stored, ordered by the stored ids or field values, missing values last when ascending and first when descending |
| `CursorPaging.NextSelect` | crates/ob-database/src/query.rs:282-311 | starting after a row returns, in that order, exactly the matching rows whose stored value is greater (smaller when descending) |
| `CursorPaging.UnknownCursor` | crates/ob-database/src/query.rs:282-294 | a cursor that names no row selects nothing when ordered by a field; ordered by id it need not name one |
| `CursorPaging.NextPageRows` | crates/ob-database/src/query.rs:282-311 | on any table, starting after a row selects, in order, the matching rows whose key is strictly beyond its key |
| `CursorPaging.PageThrough` | crates/ob-database/src/query.rs:282-322 | on any table, paging by the last id until a short page ends, with what `Pages` describes: all readable matching rows in order exactly when the page boundaries are clean breaks, which distinct keys ensure |
| `CursorPaging.SessionInOrder` | crates/ob-database/src/query.rs:282-322 | whatever a session skips, it returns readable matching rows only, in the order of their stored values |
| `CursorPaging.CompleteIffCleanBreaks` | crates/ob-database/src/query.rs:282-322 | for every page size, paging collects all of an ordered result if and only if after each full page every remaining key is strictly beyond the last one |
| `CursorPaging.SessionCompleteIff` | crates/ob-database/src/query.rs:282-322 | so for every table, rule and page size: the session returns all readable matching rows if and only if the page boundaries of these rows are clean breaks |
| `CursorPaging.CleanInOnesIsStrict` | crates/ob-database/src/query.rs:282-322 | in pages of one row that means: at most one row, or a key on every row and no two alike |
| `CursorPaging.PagingIsComplete` | crates/ob-database/src/query.rs:282-322 | with distinct keys, every page size collects the readable matching rows in order, each once |
| `CursorPaging.TiesAndNullsAreSkipped` | crates/ob-database/src/query.rs:286-294 | starting after a row never returns a row with the same key or without one |
| `CursorPaging.TiedRowIsLost` | crates/ob-database/src/query.rs:286-294 | over a whole session in pages of one row, two rows with one key are never both returned |
| `NamedBinds.NamedToPositional` | crates/ob-database/src/pg_store.rs:245-258 | an error for anything but an object; otherwise one replacement per bind in order, and the values in that order |
| `NamedBinds.DecimalValue` | crates/ob-database/src/pg_store.rs:253-253 | the index is written in decimal digits that stand for it, without a leading zero |
| `NamedBinds.ReplaceLeftmost` | crates/ob-database/src/pg_store.rs:254-254 | the leftmost match is replaced and the text behind it treated alike |
| `NamedBinds.OneName` | crates/ob-database/src/pg_store.rs:251-256 | one more replacement turns exactly the placeholders that its name is the first bind to be a prefix of |
| `NamedBinds.SequentialIsFirstPrefix` | crates/ob-database/src/pg_store.rs:251-256 | for every query and identifier names: replacing bind by bind rewrites each placeholder by the first bind that is a prefix of it and keeps the rest of its name |
| `NamedBinds.SimultaneousIffHarmless` | crates/ob-database/src/pg_store.rs:243-258 | the result is the simultaneous substitution if and only if, for each placeholder used, the first bind that is a prefix is the placeholder itself, or there is none, or the index with the rest happens to spell the index meant |
| `NamedBinds.SequentialIsSimultaneous` | crates/ob-database/src/pg_store.rs:243-258 | for identifier names in any order, if no bind before a used placeholder's own is a proper prefix of it (none at all if it is unbound), the result is the simultaneous substitution |
| `NamedBinds.PreemptedIsSplit` | crates/ob-database/src/pg_store.rs:251-256 | with up to nine binds, one preempted placeholder anywhere in a query makes the result differ from the substitution |
| `NamedBinds.PrefixSplitsPlaceholder` | crates/ob-database/src/pg_store.rs:251-256 | for every name `a` and longer placeholder `ab`, binding `a` first yields the text `$1` and `b` where `$2` is meant |

## Left out

- SQL text, schema creation, connection pooling and payload columns: only the row effect of each statement is modelled.
- Cryptography and encodings (Argon2, AES-GCM, RSA, SHA-256, base64, QR codes): arbitrary or injective functions.
- Overflow of the 32-bit attempt counter and of the 64-bit limiter count: both need more requests than a run of the service makes.
- LogLimiter.AttemptLog.CheckRateLimit: states the uninterrupted call; interleavings of its two statements are in `AttemptsPerWindow`.
- KeyRotation.RotateKeys: a failing copy leaves no file, and the sort is any newest-first order of the listing.
- RefreshMachine: the user lookup of `refresh` and its refusals are one abort between check and issue; custom claims are not modelled.
- RefreshHandler.Refresh: a failing database call is not modelled here; in `RefreshMachine` it is an abort.
- Failing database calls of MFA setup, its verification and disabling: an error before any change.
- NamedBinds.SequentialIsFirstPrefix: bind names that are not identifiers, such as an empty one or one that starts with a digit, are not modelled.
- CursorPaging.PageThrough: assumes unique ids and an explicit `orderBy`, because without an `orderBy` the source sends no ORDER BY and the database may return any order; field projection and invalid field names are not modelled.
- CursorPaging.Select: filter operators and literal formatting are an arbitrary predicate on rows.
- `mfa_recovery`, OAuth and OIDC exchanges, email, Turnstile, admin routes, analytics, configuration and server plumbing: they would add only one-branch members.
- WASM functions, scheduler, triggers, realtime, cluster, search, payments and other handlers.
