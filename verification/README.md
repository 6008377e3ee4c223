# NextBallUp: a verified model of the core protocols

This project models the parts of NextBallUp in which several requests, workers or processes act on the
same rows or files, and the arithmetic and text codecs those parts rest on. It proves what they
guarantee over every run, every interleaving of the modelled steps and every input.

Each protocol is a state, a set of atomic steps and a run of steps. The theorems about runs are lemmas.
Where the program updates rows or files in place, a class does the same updates, and each of its methods
is proved equal to one step, so the theorems hold of every sequence of calls.

| module | what it models |
|---|---|
| `RefreshSessions`, `SessionRuns`, `AuthStore` | refresh-session rotation, reuse detection and the session-version counter |
| `BrowserTab` | the browser's shared in-flight refresh, interleaved with the auth server |
| `VersionRace`, `RefreshRace` | the version increment as an unlocked read followed by an absolute write, alone and together with the session rows |
| `UploadLedger`, `UploadRuns`, `StorageRuns`, `VideoLifecycle`, `UploadStore` | upload quota ledger, video lifecycle, transcode jobs, worker and cleanup |
| `DemoPreview`, `DemoPreviewStore`, `LockFiles` | preview state file, reconciler, queue request, and `O_EXCL` lock files |
| `JobDispatch` | overlapping dispatcher passes |
| `ClipProposals`, `ClipWindows` | the clip engine and the coach review windows it is fed with |
| `KeysetPages` | keyset pagination of events and of the audit log |
| `Base64Url`, `Tokens`, `DecimalText`, `BigEndian` | unpadded base64url, event cursors, CSRF tokens, JSON web tokens |
| `Totp`, `TotpRace` | one-time codes and their replay protection, and the handlers that do not lock the record |
| `TeamInvites`, `RateLimit` | invite counting and the fixed-window limiter |
| `Common`, `Sorting` | shared types and a stable sort |

## Where the code does not do what one would expect

Each of these is a theorem that gives the exact condition under which the expected property holds, with
a run or an input that shows the failure.

- The cleanup pass for abandoned uploads takes the video's row lock only if its conditional status update
  matches, and releases the quota unit even when it did not.
  - Ledger and lifecycle agree through a run exactly when no such late pass commits after reading
    something reserved (`UploadRuns.AgreeThroughoutIff`), which it does exactly when the video has a
    transcode job at that moment (`LatePassReads`, `CleanupKeepsAgreementIff`).
  - Its read and its write are not protected either, so two releases of one video can overlap and leave it
    at -1 (`TwoLatePassesGoNegative`, `LatePassAndDeleteGoNegative`). All net reservations stay at 0 or 1
    through a run exactly when every release commits on a net that is still the stored one
    (`RangeThroughoutIff`). The plan's upper limit holds in every run.
- Requeueing a failed video skips the storage check.
  - The plan's byte ceiling survives a requeue exactly when that check would have passed
    (`UploadRuns.RequeueWithinPlanIff`); for every ceiling there is a run that reserves twice as much
    (`StorageRuns.CeilingCanBeDoubled`).
  - The excess is bounded by the bytes requeued since a storage check last passed. Measured from the last
    accepted upload the bound fails, because a requeue takes the video's lock and not the account's and
    can land between an upload's check and its commit (`StorageRuns.RequeueDuringUpload`). It holds
    through a run exactly when every upload commits with its check still passing
    (`WithinThroughoutIff`).
- `session_version += 1` is a read and an absolute write without a lock. Every bump of a run raises the
  version above all minted tokens exactly when every bump commits on a version that is still current
  (`VersionRace.BumpsInvalidateIff`). One outdated bump can spoil later ones that are current
  (`OutdatedBumpSpoilsLaterOnes`).
- A refresh checks its token's version before it locks the session row. A sign-out that commits in between
  sends it into the reuse branch for a token that was never exchanged, and it then revokes the session of
  a login made meanwhile without outdating it (`RefreshRace.SignOutOvertakesRefresh`). In every
  interleaving the reuse branch means rotation exactly when the locked row carries a replacement link
  (`LinkedIffExchanged`); it always does, and every bump outdates every token, exactly when every commit
  that bumps finds the version it read still stored (`ReuseMeansRotationIff`).
- Two processes that try for a lock can both obtain it before the clock moves exactly when the lock file
  looks stale, even if it was left behind by a dead process (`LockFiles.TwoCanHoldIff`). The stale age
  covers the inference timeout plus 60 s, not the download and the candidate tagging done under the same
  lock.
- A refresh cookie that is presented twice is taken for a replay exactly when the first presentation
  succeeded and the cookie would otherwise still pass. This happens when the answer to a refresh is lost
  (`BrowserTab.LostReplyIsReplayIff`) and when a second tab of the same browser, which shares the cookie
  jar but not the in-flight refresh, sends the same cookie (`SecondTabIsReplayIff`). Both are reached from
  a tab just opened (`HonestCookieIsReplayed`).
- A job is dispatched twice between requeues only if a worker claimed it without a task id in between
  (`JobDispatch.DispatchedOncePerEpoch`). A claim leaves dispatched jobs closed to the dispatcher exactly
  when it names its task, has no effect, or the job was not dispatched (`ClaimKeepsClosedIff`, with the run
  `UnnamedClaimDispatchesTwice`).
- The confirm and disable handlers of TOTP do not lock the record. A commit does what the atomic handler
  would do exactly when it would decide the same on the record as it is stored then, or there is nothing
  left to disable (`TotpRace.SerialIff`). Otherwise a login and a disable can use one code twice
  (`LoginAndDisableShareACode`), and a confirm can switch on a secret set up after it read the record
  (`SetupIsConfirmedByOldCode`). The accepted counters of an enabled secret increase through a run exactly
  when each is newer than the one stored at its commit (`AscendThroughoutIff`).
- A preview that the worker finishes before the request's last write is reported queued until it goes
  stale (`DemoPreview.QueuedSettles`). What the next request is told depends on the last mark alone: it is
  refused exactly while a queued or running mark is not stale (`RequestAfterMark`).
- The default review window is refused exactly when the duration rounds to 0 ms
  (`ClipWindows.DefaultAcceptedIff`).

Two smaller observations. The branch of the refresh path that marks a row expired is unreachable, because
a refresh token never outlives its row (`RefreshSessions.RowExpiredUnreachable`). The delete handler's
comment says that a storage failure leaves the row failed; the code leaves the status as it was, and so
does the model.

## Model

| member | source | states |
|---|---|---|
| `RefreshSessions.RowOfToken` | apps/api/src/nextballup_api/routers/auth.py:342-349 | every issued refresh token is backed by exactly the row the lookup finds; if that row is revoked while the token's version is current, it was rotated |
| `RefreshSessions.RowExpiredUnreachable` | apps/api/src/nextballup_api/routers/auth.py:350-361 | in every reachable state no presented token gets the "row expired" or "no session" verdict |
| `RefreshSessions.IssueKeepsInv` | apps/api/src/nextballup_api/routers/auth.py:135-192 | minting a pair and inserting its row keeps the invariant, also when the insert fails |
| `RefreshSessions.RotateKeepsInv` | apps/api/src/nextballup_api/routers/auth.py:703-721 | rotation keeps ids unique, links forward, single-predecessor and inside one user's rows, and versions bounded |
| `RefreshSessions.RevokeAndBumpKeepsInv` | apps/api/src/nextballup_api/routers/auth.py:195-208 | revoking all rows together with a version bump keeps the invariant |
| `RefreshSessions.BumpKeepsInv` | apps/api/src/nextballup_api/routers/mfa.py:315-316 | a bump without revocation keeps the invariant: the two revocation mechanisms never disagree |
| `RefreshSessions.StepKeepsInv` | apps/api/src/nextballup_api/routers/auth.py:316-361 | each of register, login, refresh, logout, reset, MFA disable and delete keeps the invariant |
| `RefreshSessions.RunKeepsInv` | apps/api/src/nextballup_api/routers/auth.py:662-770 | every run keeps the invariant, from any state that satisfies it |
| `SessionRuns.RunExtends` | apps/api/src/nextballup_api/routers/auth.py:195-208 | over every run versions never decrease, revoked rows stay revoked with the same link, inactive users stay inactive, nothing issued is forgotten |
| `SessionRuns.OutdatedTokenIsDead` | apps/api/src/nextballup_api/deps.py:51-62 | a token whose version is behind is never accepted again, whatever happens |
| `SessionRuns.BumpKillsEarlierTokens` | apps/api/src/nextballup_api/routers/auth.py:763-765 | after any step that raises a user's version, no token that user held before it is ever accepted |
| `SessionRuns.ReplayKillsEverything` | apps/api/src/nextballup_api/routers/auth.py:353-356 | after the reuse branch, no access or refresh token issued to the user before it is ever accepted |
| `SessionRuns.SignOutIff` | apps/api/src/nextballup_api/routers/auth.py:746-770 | replay, logout, password reset, MFA disable and deletion raise the version by one; no other step touches a user's version or activity |
| `SessionRuns.SignOutKillsEverything` | apps/api/src/nextballup_api/routers/auth.py:921-924 | after any of those five steps no token the user held is ever accepted |
| `SessionRuns.TokenLivesIff` | apps/api/src/nextballup_api/deps.py:45-62 | the exact lifetime of every token: once accepted, it is accepted after any run if and only if it has not expired, its user has not signed out and, for a refresh token, it has not been exchanged |
| `SessionRuns.LoginGrants` | apps/api/src/nextballup_api/routers/auth.py:569-660 | a login succeeds if and only if user, activity, credentials and token id are in order; it issues one token good for exactly the access lifetime and one for exactly the refresh lifetime, and nothing else |
| `SessionRuns.RegisterGrants` | apps/api/src/nextballup_api/routers/auth.py:502-532 | a registration of a new name makes an active user and does the same |
| `SessionRuns.ExchangeGrants` | apps/api/src/nextballup_api/routers/auth.py:316-361 | a refresh succeeds if and only if the token is issued, unexpired, of an active user, at the current version and its row is not revoked; it issues a new pair |
| `SessionRuns.SignOutRevokesRows` | apps/api/src/nextballup_api/routers/auth.py:195-208 | every way of signing out except disabling MFA revokes all rows of the user and no others |
| `SessionRuns.DeletedStaysDeleted` | apps/api/src/nextballup_api/routers/auth.py:1288-1306 | after a deletion no token of the user, not even one issued later, is ever accepted, and no login, reset, refresh or registration of the user changes anything |
| `SessionRuns.RowOfTokenIsStable` | apps/api/src/nextballup_api/routers/auth.py:342-349 | a token is backed by the same row for the rest of every run |
| `SessionRuns.ExchangeRotates` | apps/api/src/nextballup_api/routers/auth.py:703-731 | an exchange revokes the presented token's row and its replacement is itself exchangeable |
| `SessionRuns.SecondPresentationIsReuse` | apps/api/src/nextballup_api/routers/auth.py:350-361 | a token presented again after any continuation is reported as reuse if it is otherwise still good, and refused earlier if not |
| `SessionRuns.ExchangedTokenReplayed` | apps/api/src/nextballup_api/routers/auth.py:693-701 | exchange, anything, replay with the version still current, anything: nothing held at the replay is accepted |
| `SessionRuns.ExchangedAtMostOnce` | apps/api/src/nextballup_api/routers/auth.py:703-731 | in every run each refresh token is exchanged successfully at most once |
| `SessionRuns.ReuseMeansRotated` | apps/api/src/nextballup_api/routers/auth.py:353-356 | for whole handlers, the reuse branch fires if and only if the token was rotated and is otherwise valid |
| `RefreshRace.LinkedIffExchanged` | apps/api/src/nextballup_api/routers/auth.py:342-361 | with check and locked commit of a refresh apart, in every interleaving a row is exchanged at most once and carries a link if and only if it was |
| `RefreshRace.ReuseMeansRotationIff` | apps/api/src/nextballup_api/routers/auth.py:335-356 | through a run the reuse branch always means rotation and every bump outdates every token if and only if every commit that bumps finds the version it read still stored |
| `RefreshRace.WrongReuseIsOvertaken` | apps/api/src/nextballup_api/routers/auth.py:335-356 | in such a run a wrong reuse verdict means that the version moved on after the check |
| `RefreshRace.SignOutOvertakesRefresh` | apps/api/src/nextballup_api/routers/auth.py:763-765 | a sign-out between check and lock makes the refresh of a token that was never exchanged a replay, which revokes a later login and outdates nothing |
| `SessionRuns.OneLiveDescendant` | apps/api/src/nextballup_api/routers/auth.py:703-721 | each login has at most one unrevoked descendant |
| `SessionRuns.ChainsNeverMerge` | apps/api/src/nextballup_api/routers/auth.py:703-721 | two rows with a common descendant lie on one chain |
| `SessionRuns.DescendsForward` | apps/api/src/nextballup_api/routers/auth.py:703-721 | links only lead forward inside one user's rows, so chains have no cycles, and only the end can be unrevoked |
| `SessionRuns.ReachableChains` | apps/api/src/nextballup_api/routers/auth.py:174-208 | all of this in every state reachable from an empty database |
| `AuthStore.Store.CreateSession` | apps/api/src/nextballup_api/routers/auth.py:135-192 | the new tables are those of the issue step; fails exactly on a stored token id |
| `AuthStore.Store.RegisterUser` | apps/api/src/nextballup_api/routers/auth.py:502-532 | equals the register step, with rollback of the user row |
| `AuthStore.Store.LogIn` | apps/api/src/nextballup_api/routers/auth.py:586-660 | equals the login step |
| `AuthStore.Store.RotateRow` | apps/api/src/nextballup_api/routers/auth.py:703-721 | revoke, insert, link equals the rotation, and a failed insert changes nothing |
| `AuthStore.Store.RefreshTokens` | apps/api/src/nextballup_api/routers/auth.py:316-361 | equals the exchange step on every path, and answers with the replacement exactly on success |
| `AuthStore.Store.LogOut` | apps/api/src/nextballup_api/routers/auth.py:746-770 | equals the logout step |
| `AuthStore.Store.ResetUserPassword` | apps/api/src/nextballup_api/routers/auth.py:921-924 | equals the reset step |
| `AuthStore.Store.DisableUserMfa` | apps/api/src/nextballup_api/routers/mfa.py:315-316 | equals the disable step: bump without revocation |
| `AuthStore.Store.DeleteUserAccount` | apps/api/src/nextballup_api/routers/auth.py:1288-1306 | equals the delete step, after which the account stays deleted (`SessionRuns.DeletedStaysDeleted`) |
| `BrowserTab.SafeSurvives` | apps/api/src/nextballup_api/routers/auth.py:342-361 | no server step by anybody endangers a refresh token it does not present |
| `BrowserTab.NextKeepsInv` | apps/web/src/lib/api-client.ts:60-86 | every step of tab, network and server keeps: one refresh in flight at most, and the cookie it carries or returns is safe to present |
| `BrowserTab.HonestTabIsNeverLoggedOut` | apps/web/src/lib/api-client.ts:79-133 | in every interleaving with all answers delivered and each refresh served whole, at most one refresh is in flight and the server never sees a reuse |
| `BrowserTab.RefreshAnswered` | apps/web/src/lib/api-client.ts:62-77 | the answer carries a cookie if and only if the server exchanged one, and it is the one just issued |
| `BrowserTab.RefreshDelivered` | apps/web/src/lib/api-client.ts:126-133 | a cookie that comes back is stored and every waiting call is sent again; without one every waiting call ends; the next 401 starts a new refresh |
| `BrowserTab.PresentedAgainIff` | apps/api/src/nextballup_api/routers/auth.py:342-361 | a cookie presented again after anything is taken for a replay if and only if the first presentation was exchanged and it would otherwise still pass |
| `BrowserTab.LostReplyIsReplayIff` | apps/web/src/lib/api-client.ts:62-86 | after a lost answer the next refresh carries the same cookie, and is a replay under exactly that condition |
| `BrowserTab.SecondTabIsReplayIff` | apps/web/src/lib/api-client.ts:60-86 | a second tab that was served first with the same cookie makes this tab's refresh a replay, which signs the user out, if and only if the other one succeeded and the cookie has not expired |
| `BrowserTab.HonestCookieIsReplayed` | apps/web/src/lib/api-client.ts:79-133 | from a tab just opened, logging in, a call and a 401 lead to both |
| `VersionRace.BumpsInvalidateIff` | apps/api/src/nextballup_api/routers/auth.py:353-356 | every bump of a run rises above the stored version and every minted token if and only if every bump commits on a read that is still current |
| `VersionRace.SerialBumpsStayAhead` | apps/api/src/nextballup_api/routers/auth.py:763-765 | runs in which every bump commits on a current read keep the counter ahead and non-decreasing |
| `VersionRace.OverlappingBumpsLoseOne` | apps/api/src/nextballup_api/routers/auth.py:921-924 | two overlapping bumps can leave a minted token current |
| `VersionRace.OverlappedBumpLowersTheVersion` | apps/api/src/nextballup_api/routers/auth.py:763-765 | a bump that overlaps two others can lower the counter |
| `VersionRace.OutdatedBumpSpoilsLaterOnes` | apps/api/src/nextballup_api/routers/mfa.py:315-316 | after an outdated bump even a bump on a current read can leave a minted token valid |
| `UploadLedger.FinishNets` | apps/api/src/nextballup_api/billing.py:446-455 | a commit takes one off its own video's net if it had read something reserved, and touches no other |
| `UploadLedger.FinishKeepsInv` | apps/api/src/nextballup_api/billing.py:410-455 | a commit that gives a slot back keeps the invariant, whatever happened since it read |
| `UploadLedger.CommitKeepsInv` | apps/api/src/nextballup_api/routers/videos.py:1043-1142 | committing under the lock keeps count and byte bounds, because both were checked under the same lock |
| `UploadLedger.BytesOfUpdate` | apps/api/src/nextballup_api/billing.py:367-385 | rewriting one row moves the reserved bytes by exactly the difference |
| `UploadLedger.StepKeepsInv` | apps/api/src/nextballup_api/routers/videos.py:990-1142 | every step of requests, worker and cleanup keeps: nets at most 1, jobs matching statuses, row locks exclusive, the count within the plan and the bytes within the plan plus requeues |
| `UploadLedger.RunKeepsInv` | apps/worker/src/nextballup_worker/runtime/jobs.py:15-186 | so does every interleaving |
| `UploadRuns.LedgerWithinPlan` | apps/api/src/nextballup_api/billing.py:480-514 | in every interleaving the ledger sum since period start is within the plan and each net is at most 1; nets stay at 0 or 1 throughout if and only if every release commits on a current read |
| `UploadRuns.StepKeepsRangeIff` | apps/api/src/nextballup_api/billing.py:410-455 | a step keeps all nets at 0 or 1 if and only if it is not a release on an outdated read |
| `UploadRuns.RangeThroughoutIff` | apps/api/src/nextballup_api/billing.py:410-455 | the same for whole runs |
| `UploadRuns.TwoLatePassesGoNegative` | apps/worker/src/nextballup_worker/runtime/cleanup.py:160-174 | two late passes that both read before either commits leave the video at -1 |
| `UploadRuns.LatePassAndDeleteGoNegative` | apps/api/src/nextballup_api/routers/videos.py:1293-1322 | so do a late pass and a delete of the failed video, although the delete holds the row lock |
| `UploadRuns.ReleaseIsIdempotent` | apps/api/src/nextballup_api/billing.py:428-447 | once a release on a current read has committed, a release that reads at any later time finds nothing reserved |
| `UploadRuns.CancelLowersTheSum` | apps/api/src/nextballup_api/billing.py:351-364 | a cancel always takes one off the period's sum, below 0 if need be, while the reported usage stays at 0 |
| `UploadRuns.StepAgreesIff` | apps/api/src/nextballup_api/routers/videos.py:1178-1203 | a step keeps "holds one unit exactly while not failed or with a job" if and only if it is not a late pass committing after it read something reserved |
| `UploadRuns.AgreeThroughoutIff` | apps/worker/src/nextballup_worker/runtime/cleanup.py:160-174 | the same for whole runs |
| `UploadRuns.LatePassReads` | apps/api/src/nextballup_api/billing.py:428-447 | a late pass reads one unit if the video has a job at that moment, and none if not |
| `UploadRuns.CleanupKeepsAgreementIff` | apps/worker/src/nextballup_worker/runtime/cleanup.py:114-187 | a cleanup pass that is not interrupted keeps the agreement if and only if the video has no job |
| `UploadRuns.LateCleanupFreesAQueuedVideo` | apps/worker/src/nextballup_worker/runtime/cleanup.py:160-174 | a completed video can lose its unit to a late pass |
| `UploadRuns.TidyRunsAgree` | apps/api/src/nextballup_api/routers/videos.py:1293-1321 | every run whose late passes find only videos without a job keeps the agreement, and nets at 0 or 1, throughout |
| `UploadRuns.RunKeepsRows` | apps/api/src/nextballup_api/routers/videos.py:1464-1482 | over every run a video keeps its job row until deleted, and a failed video without a job never gets one |
| `UploadRuns.NeverInconsistent` | apps/api/src/nextballup_api/routers/videos.py:1353-1371 | the "inconsistent state" answer is unreachable |
| `UploadRuns.CompletionRepeats` | apps/api/src/nextballup_api/routers/videos.py:1353-1378 | completing again after anything answers with the first job, or says failed or gone |
| `UploadRuns.CancelledIsNeverRequeued` | apps/api/src/nextballup_api/routers/videos.py:2935-2973 | after a cancelled upload no requeue ever takes effect |
| `UploadRuns.StorageWithinPlanPlusRequeued` | apps/api/src/nextballup_api/billing.py:517-563 | reserved bytes never exceed the plan plus what was requeued since a storage check last passed |
| `UploadRuns.StorageWithinPlan` | apps/api/src/nextballup_api/billing.py:553-563 | without requeues the plan's ceiling is never exceeded |
| `UploadRuns.RequeueWithinPlanIff` | apps/api/src/nextballup_api/routers/videos.py:2962-2973 | a requeue stays within the ceiling if and only if the missing storage check would have passed |
| `StorageRuns.CommitWithinPlanIff` | apps/api/src/nextballup_api/routers/videos.py:1043-1057 | a commit leaves the account within the ceiling if and only if the check it made would still pass |
| `StorageRuns.WithinThroughoutIff` | apps/api/src/nextballup_api/billing.py:553-563 | bytes stay within the plan plus what was requeued since the last accepted upload, through a run, if and only if every upload commits with its check still passing |
| `StorageRuns.RequeueDuringUpload` | apps/api/src/nextballup_api/routers/videos.py:2962-2973 | a requeue between check and commit of an upload that fills the plan exceeds it by the requeued bytes, with nothing requeued since that upload |
| `StorageRuns.CeilingCanBeDoubled` | apps/api/src/nextballup_api/routers/videos.py:2962-2973 | for every ceiling, a run from an empty account that reserves twice as much |
| `VideoLifecycle.BytesAddUp` | apps/api/src/nextballup_api/billing.py:367-385 | every video counts with its size unless it failed or was deleted |
| `VideoLifecycle.BytesMove` | apps/api/src/nextballup_api/billing.py:367-385 | over all steps, only an accepted upload and a requeue add bytes, exactly their own, and only failing, cancelling, cleaning up and deleting free any |
| `VideoLifecycle.UploadAcceptedIff` | apps/api/src/nextballup_api/billing.py:480-563 | an undisturbed upload is let in if and only if the period's sum and the reserved bytes leave room; it adds its row and one event dated now, and otherwise nothing changes |
| `VideoLifecycle.VideoTransitions` | apps/api/src/nextballup_api/routers/videos.py:1178-1203 | in every reachable state and for every step of requests, worker and cleanup, a video moves exactly as a table by status says, and never changes size |
| `VideoLifecycle.JobTransitions` | apps/worker/src/nextballup_worker/runtime/jobs.py:15-186 | a job is made by completing an upload, moves exactly as its table says, with the task only claims write and requeues clear, and goes with its video |
| `UploadStore.Store.NetReserved` | apps/api/src/nextballup_api/billing.py:428-444 | computes a video's net reservation |
| `UploadStore.Store.UsedThisPeriod` | apps/api/src/nextballup_api/billing.py:351-364 | computes the period's sum, cut off at 0 |
| `UploadStore.Store.ReservedBytes` | apps/api/src/nextballup_api/billing.py:367-385 | computes the bytes of the videos that have not failed (`VideoLifecycle.BytesAddUp`) |
| `UploadStore.Store.InitiateUpload` | apps/api/src/nextballup_api/routers/videos.py:990-1142 | equals lock, count check, byte check and commit (or abort); a video is created exactly when both checks and presigning succeed |
| `UploadStore.Store.ReleaseReservation` | apps/api/src/nextballup_api/billing.py:410-455 | compensates exactly a positive net; reports whether it did |
| `UploadStore.Store.Cancel` | apps/api/src/nextballup_api/routers/videos.py:1178-1203 | equals begin, read and commit of a cancel, and keeps the invariant |
| `UploadStore.Store.Delete` | apps/api/src/nextballup_api/routers/videos.py:1254-1322 | equals begin, read and commit of a delete, or changes nothing if storage fails, and keeps the invariant |
| `UploadStore.Store.CleanUp` | apps/worker/src/nextballup_worker/runtime/cleanup.py:158-174 | equals begin, read and commit of a cleanup pass on one video, late or not, and keeps the invariant |
| `UploadStore.Store.Complete` | apps/api/src/nextballup_api/routers/videos.py:1353-1482 | equals the complete step, with its answer, which is never "inconsistent" |
| `UploadStore.Store.CancelRunning` | apps/api/src/nextballup_api/routers/videos.py:2814-2856 | equals the processing-cancel step and keeps the invariant |
| `UploadStore.Store.RequeueFailed` | apps/api/src/nextballup_api/routers/videos.py:2935-2973 | equals the requeue step and keeps the invariant |
| `DemoPreview.FileRoundTrip` | packages/core/src/nextballup_core/demo_preview.py:386-437 | a written state is read back unchanged |
| `DemoPreview.ResolveIsNormal` | packages/core/src/nextballup_core/demo_preview.py:534-581 | for any file, the answer is in normal form: completed has its artifact and time, failed has none, pending is not stale |
| `DemoPreview.ResolveWrites` | packages/core/src/nextballup_core/demo_preview.py:534-581 | the file is left alone or becomes the answer; idle is answered exactly to idle or to nothing |
| `DemoPreview.NormalIsFixed` | packages/core/src/nextballup_core/demo_preview.py:548-581 | a readable state already in normal form is left as it is |
| `DemoPreview.ResolveIsIdempotent` | packages/core/src/nextballup_core/demo_preview.py:534-581 | resolving again at the same clock and artifact changes nothing, through the file |
| `DemoPreview.QuietAnswer` | packages/core/src/nextballup_core/demo_preview.py:440-447 | a state is answered as it is until it goes stale and then as the artifact says, through any polls and artifact changes |
| `DemoPreview.RunningSettles` | packages/core/src/nextballup_core/demo_preview.py:584-602 | if nothing else is marked, a preview marked running is reported running for exactly timeout + 60 s and then follows the artifact |
| `DemoPreview.MarksCannotContradictTheArtifact` | packages/core/src/nextballup_core/demo_preview.py:628-709 | after a failed or completed mark the answer still follows the artifact |
| `DemoPreview.StepKeepsOwnFile` | packages/core/src/nextballup_core/demo_preview.py:584-709 | resolver and marks leave a file that is absent or readable and not idle |
| `DemoPreview.ReachableAnswers` | packages/core/src/nextballup_core/demo_preview.py:534-709 | after any marks and artifact changes the answer is in normal form, and idle means neither file nor artifact |
| `DemoPreview.QueueRequestWrites` | apps/api/src/nextballup_api/demo_preview.py:178-238 | whatever a worker does between enqueue and confirmation, a successful request leaves a queued state with its own time and task |
| `DemoPreview.QueuedSettles` | apps/api/src/nextballup_api/demo_preview.py:223-229 | if nothing is marked after it, a successful request is reported queued for exactly timeout + 60 s, through any polls and even if the worker had finished before its last write, and then follows the artifact |
| `DemoPreview.OneTaskAtATime` | apps/api/src/nextballup_api/demo_preview.py:179-189 | if nothing is marked after it, the next request is refused if and only if the last one has not gone stale |
| `DemoPreview.RequestAfterMark` | apps/api/src/nextballup_api/demo_preview.py:179-197 | whatever came before, the last mark decides the next request: refused if and only if it is a queued or running mark that is not stale; a completed or failed mark, or removal, lets it enqueue at once |
| `DemoPreview.RequestedToFinished` | packages/core/src/nextballup_core/demo_preview.py:584-709 | requested, taken up in time, finished: the preview ends completed with the times of its request, its start and its artifact, the worker's task and no error |
| `DemoPreview.RequestedToFailed` | packages/core/src/nextballup_core/demo_preview.py:584-647 | requested, taken up, failed: it ends failed with its times, its task and the message |
| `DemoPreview.FailedEnqueueRestores` | apps/api/src/nextballup_api/demo_preview.py:198-221 | if the broker fails, the preview is left as the artifact on disk says |
| `DemoPreviewStore.Store.WriteState` | packages/core/src/nextballup_core/demo_preview.py:386-414 | whoever reads the file next gets back the state that was written; nothing but the file changes |
| `DemoPreviewStore.Store.ResolveState` | packages/core/src/nextballup_core/demo_preview.py:534-581 | answer and file equal the reconciler's |
| `DemoPreviewStore.Store.SetRunning` | packages/core/src/nextballup_core/demo_preview.py:584-602 | equals the running mark |
| `DemoPreviewStore.Store.SetQueued` | packages/core/src/nextballup_core/demo_preview.py:605-625 | equals the queued mark |
| `DemoPreviewStore.Store.SetFailed` | packages/core/src/nextballup_core/demo_preview.py:628-647 | equals the failed mark |
| `DemoPreviewStore.Store.SetCompleted` | packages/core/src/nextballup_core/demo_preview.py:690-709 | equals the completed mark |
| `DemoPreviewStore.Store.PrepareRequest` | apps/api/src/nextballup_api/demo_preview.py:178-197 | the request up to the enqueue: refuses a pending preview, or writes the queued state and keeps what it saw |
| `DemoPreviewStore.Store.ConfirmRequest` | apps/api/src/nextballup_api/demo_preview.py:198-238 | the rest of the request, from whatever state it finds: confirms, or restores by the artifact it saw |
| `LockFiles.StepKeepsExclusiveIff` | packages/core/src/nextballup_core/demo_preview.py:458-486 | a create, stat, unlink or release step keeps exclusion if and only if it does not unlink a live holder's file |
| `LockFiles.ReleaseRemovesOwnFile` | packages/core/src/nextballup_core/demo_preview.py:511-514 | under exclusion a release removes the releaser's own file and leaves no holder |
| `LockFiles.MutualExclusion` | packages/core/src/nextballup_core/demo_preview.py:450-486 | in every interleaving in which no lock file outlives its stale age, at most one process holds the lock |
| `LockFiles.StaleFileCanAdmitTwo` | packages/core/src/nextballup_core/demo_preview.py:467-481 | with any stale file two processes can both acquire |
| `LockFiles.TwoCanHoldIff` | packages/core/src/nextballup_core/demo_preview.py:450-486 | two processes about to try can both hold the lock before the clock moves if and only if the file that is there looks stale |
| `LockFiles.UninterruptedLoop` | packages/core/src/nextballup_core/demo_preview.py:458-486 | the acquire loop, call by call without interruption, ends with the lock if and only if there is no file or one older than the stale age, and otherwise leaves the file alone |
| `LockFiles.RetriesOutlastStaleAge` | apps/worker/src/nextballup_worker/tasks.py:374-384 | the retries of a task that finds the machine busy span at least the lock's stale age, and one less would not |
| `LockFiles.LockPath.Acquire` | packages/core/src/nextballup_core/demo_preview.py:458-486 | undisturbed, succeeds if and only if there is no file or a stale one, and otherwise leaves it alone |
| `LockFiles.RenderUnderLocks` | packages/core/src/nextballup_core/demo_preview.py:997-1059 | renders exactly when both locks can be had, and gives back every lock it took: after success, after failure, and when the second lock is busy |
| `JobDispatch.PickedDistinct` | apps/worker/src/nextballup_worker/runtime/dispatch.py:46-55 | a snapshot holds each job once, and only pending undispatched jobs older than the cutoff |
| `JobDispatch.PickedOldestFirst` | apps/worker/src/nextballup_worker/runtime/dispatch.py:46-55 | a snapshot is oldest first, no longer than the limit, and complete if shorter; no waiting job it leaves out is older than one it holds |
| `JobDispatch.RecordKeepsInv` | apps/worker/src/nextballup_worker/runtime/dispatch.py:66-95 | the compare-and-set never records a second task for a job that has not been opened again |
| `JobDispatch.OthersKeepInv` | apps/worker/src/nextballup_worker/runtime/jobs.py:15-164 | claim, complete, fail, release, requeue and removal open a dispatched job only by a requeue or by a claim without a task id |
| `JobDispatch.RunKeepsInv` | apps/worker/src/nextballup_worker/runtime/dispatch.py:41-97 | every interleaving keeps the dispatcher's invariant |
| `JobDispatch.DispatchedOncePerEpoch` | apps/worker/src/nextballup_worker/runtime/dispatch.py:56-97 | in every interleaving two task ids are recorded for a job between requeues only if a claim without a task id lies in between, so never with named claims; a pass returns exactly what it recorded, no job twice |
| `JobDispatch.RecordedWhileUndispatched` | apps/worker/src/nextballup_worker/runtime/dispatch.py:67-79 | a returned job was pending and undispatched when recorded, and now carries the published task |
| `JobDispatch.ClaimKeepsClosedIff` | apps/worker/src/nextballup_worker/runtime/jobs.py:15-45 | a claim keeps every dispatched job closed to the dispatcher if and only if it names its task, has no effect, or the job was not dispatched |
| `JobDispatch.UnnamedClaimDispatchesTwice` | apps/worker/src/nextballup_worker/runtime/jobs.py:136-164 | a claim without a task id, a release, and a pass that had already published the job record a second task id |
| `JobDispatch.JobTable.DispatchPendingJobs` | apps/worker/src/nextballup_worker/runtime/dispatch.py:46-97 | an undisturbed pass returns the answered jobs of its snapshot in order and changes exactly their task ids |
| `ClipProposals.WindowShape` | packages/clip_engine/src/nextballup_clips/proposals.py:88-98 | a window lies in the video, contains the clamped event time and is at most 30 s; it is missing if and only if the duration rounds to 0 |
| `ClipProposals.RankOrder` | packages/clip_engine/src/nextballup_clips/proposals.py:155-165 | ranks lie in [0, 1] and grow with confidence and event weight, through the rounding |
| `ClipProposals.RankIs` | packages/clip_engine/src/nextballup_clips/proposals.py:155-165 | a rank is the weighted sum of the table's weight, the confidence and the bonus, at most 1, to four digits |
| `ClipProposals.DefaultWindows` | packages/clip_engine/src/nextballup_clips/proposals.py:40-46 | without overrides, away from the edges, each kind has its own window |
| `ClipProposals.OverriddenWindow` | packages/clip_engine/src/nextballup_clips/proposals.py:140-152 | with overrides the window is theirs, each side held between 1 and 15 s |
| `ClipProposals.EngineDurationIs` | packages/clip_engine/src/nextballup_clips/proposals.py:127-130 | a positive duration is cut to whole milliseconds, any other counts as unknown |
| `ClipProposals.CollectContents` | packages/clip_engine/src/nextballup_clips/proposals.py:83-115 | the proposals are exactly those of the eligible events that keep a window |
| `ClipProposals.CollectCount` | packages/clip_engine/src/nextballup_clips/proposals.py:83-98 | for a duration that does not round to 0 there is one per eligible event |
| `ClipProposals.QueueIsBestFirst` | packages/clip_engine/src/nextballup_clips/proposals.py:117-124 | the answer is the first `limit` of a sorted permutation; nothing left out ranks better |
| `ClipProposals.QueueOrder` | packages/clip_engine/src/nextballup_clips/proposals.py:117-124 | along the queue ranks never rise, at equal ranks starts never fall, at equal starts ids never fall |
| `ClipProposals.QueueIgnoresEventOrder` | packages/clip_engine/src/nextballup_clips/proposals.py:69-124 | the answer does not depend on the order of the events |
| `ClipProposals.BuildClipProposals` | packages/clip_engine/src/nextballup_clips/proposals.py:69-124 | the loop, sort and cut compute that queue |
| `ClipWindows.DefaultAcceptedIff` | apps/api/src/nextballup_api/routers/videos.py:1740-1786 | the default window is accepted for every event time in the video if and only if the duration is not 0 ms |
| `ClipWindows.AcceptedIsProper` | apps/api/src/nextballup_api/routers/videos.py:1761-1786 | every accepted window lies in [0, duration], contains the event and is at most 60 s |
| `ClipWindows.TakenAsIsIff` | apps/api/src/nextballup_api/routers/videos.py:1740-1786 | a requested window is taken unchanged if and only if it is such a window |
| `ClipWindows.DefaultWindowIs` | apps/api/src/nextballup_api/routers/videos.py:1755-1762 | the default window is four seconds before and six after, cut at the edges of the video |
| `ClipWindows.FallbackWindow` | apps/api/src/nextballup_api/routers/videos.py:1703-1730 | without a stored window the metadata's window is used, or its distances, or the default ones |
| `ClipWindows.ReadBackIsExact` | apps/api/src/nextballup_api/routers/videos.py:1696-1702 | storing an accepted window and reading it back is exact |
| `ClipWindows.ProposalIsWindowIff` | apps/api/src/nextballup_api/routers/videos.py:1810-1824 | the clip engine proposes exactly the stored window if and only if each side is 1 to 15 s, or shorter at the video's edge |
| `ClipWindows.RequestToProposal` | packages/clip_engine/src/nextballup_clips/proposals.py:127-152 | request, storage and proposal end to end, with both duration conversions agreeing |
| `KeysetPages.KeyTrichotomy` | apps/api/src/nextballup_api/routers/videos.py:2089-2095 | (time, id) keys are totally ordered |
| `KeysetPages.AscendingListing` | apps/api/src/nextballup_api/routers/videos.py:2089-2098 | the event query lists earlier rows first, by time and then by id, and behind a cursor exactly the later matching rows |
| `KeysetPages.DescendingListing` | apps/api/src/nextballup_api/routers/admin.py:118-134 | the audit query lists later rows first, and behind a cursor exactly the earlier matching rows |
| `KeysetPages.ResumeBehind` | apps/api/src/nextballup_api/routers/admin.py:118-134 | resuming at a row's key continues right behind it, even if later rows were added to a descending listing |
| `KeysetPages.AddedRowShowsIff` | apps/api/src/nextballup_api/routers/admin.py:143-167 | an added row shows in the following pages if and only if it matches and lies past the cursor |
| `KeysetPages.WalkReturnsEverythingOnce` | apps/api/src/nextballup_api/routers/videos.py:2096-2107 | following the cursors to the end returns exactly the matching rows present at the start, in order of time and id, each once, in the page count's number of pages |
| `KeysetPages.PageCountIsCeiling` | apps/api/src/nextballup_api/routers/videos.py:2096-2101 | that number is max(1, ceil(n / limit)) |
| `KeysetPages.WalkEnds` | apps/api/src/nextballup_api/routers/admin.py:127-138 | no walk is longer than the number of rows |
| `KeysetPages.EventPageFollowsKeys` | apps/api/src/nextballup_api/routers/videos.py:2089-2107 | following the textual cursor is following its key |
| `KeysetPages.AuditLog.List` | apps/api/src/nextballup_api/routers/admin.py:118-168 | answers the page of the rows before the call and adds the view's row: one call of an audit walk |
| `KeysetPages.AuditWalkReturnsEverythingOnce` | apps/api/src/nextballup_api/routers/admin.py:118-168 | a client that calls it until there is no next cursor sees exactly the matching rows present before its first call, latest first, each once, although every call adds a row, as long as that row is later than all before it |
| `Base64Url.BytesOfSextets` | apps/api/src/nextballup_api/security/csrf.py:37-43 | grouping three bytes into four sextets is inverted, for every length |
| `Base64Url.SextetCountIs` | apps/api/src/nextballup_api/security/csrf.py:37-38 | the unpadded text has four characters for every three bytes, and one more than the bytes of a short last group |
| `Base64Url.EncodedText` | apps/api/src/nextballup_api/security/jwt.py:20-33 | encoded text stays in the alphabet, so contains no dot, colon or pad, and is empty only for no bytes |
| `Base64Url.RoundTrip` | apps/api/src/nextballup_api/security/jwt.py:32-43 | stripping the padding and adding (-length) mod 4 back loses nothing, for every byte string |
| `Base64Url.AlphabetIs` | apps/api/src/nextballup_api/security/jwt.py:21 | the alphabet is that of table 2 of RFC 4648, in its order |
| `Base64Url.RfcVectors` | apps/api/src/nextballup_api/security/csrf.py:37-38 | the test vectors of section 10 of RFC 4648, without padding, and one with both special characters |
| `Tokens.EventCursorRoundTrip` | apps/api/src/nextballup_api/routers/videos.py:2016-2031 | a cursor decodes to the time and id it was made from |
| `Tokens.AcceptedCursor` | apps/api/src/nextballup_api/routers/videos.py:2021-2031 | whatever text is presented decodes only if it is the base64url of a number, a colon and an id, and to just these |
| `Tokens.VerifyCsrfText` | apps/api/src/nextballup_api/security/csrf.py:63-80 | a token made of any parts verifies if and only if nonce length, age and signature fit; packing the time cannot fail at a clock past the TTL |
| `Tokens.CsrfLifetime` | apps/api/src/nextballup_api/security/csrf.py:51-80 | a minted token verifies exactly at ages 0 to TTL |
| `Tokens.AcceptedCsrf` | apps/api/src/nextballup_api/security/csrf.py:63-80 | whatever text is presented is accepted only with three parts, a 16-byte nonce, an age of 0 to TTL and the signature of just that nonce and time |
| `Tokens.PayloadInjective` | apps/api/src/nextballup_api/security/csrf.py:46-48 | the signed bytes, the nonce and then the time in eight bytes, determine both |
| `Tokens.CsrfBinding` | apps/api/src/nextballup_api/security/csrf.py:46-80 | under a hash without collisions a minted signature verifies with no other nonce or time |
| `Tokens.PartsRoundTrip` | apps/api/src/nextballup_api/security/jwt.py:117-151 | the parts of an encoded token pass every check but the claim checks, which decide |
| `Tokens.JwtRoundTrip` | apps/api/src/nextballup_api/security/jwt.py:78-151 | an encoded token decodes to its claims unless it is over the size cap or a claim check refuses |
| `Tokens.AcceptedJwt` | apps/api/src/nextballup_api/security/jwt.py:89-151 | whatever text is presented is accepted only within the size cap, with a signature that verifies header and payload as sent, the configured algorithm and type, the server as issuer, an expiry in the future and the given audience; the answer is the payload |
| `Tokens.ClaimsPassIff` | apps/api/src/nextballup_api/security/jwt.py:89-114 | the claims pass if and only if issuer, expiry and, where asked for, audience fit, and the error names the one that does not |
| `Tokens.JwtLifetime` | apps/api/src/nextballup_api/security/jwt.py:89-101 | under the cap and with the server's issuer it decodes exactly until its expiry |
| `Totp.TruncationIs` | apps/api/src/nextballup_api/security/mfa.py:112-117 | truncation reads the four bytes at the offset named by the last nibble, inside the digest, as a big-endian number without its top bit |
| `Totp.RfcExample` | apps/api/src/nextballup_api/security/mfa.py:112-117 | the worked example of section 5.4 of RFC 4226 |
| `Totp.HotpShape` | apps/api/src/nextballup_api/security/mfa.py:112-117 | a code has exactly the configured digits, and its value is that number modulo 10^digits |
| `Totp.AcceptedIff` | apps/api/src/nextballup_api/security/mfa.py:134-168 | a code is accepted if and only if it is well formed, belongs to a counter within one step of the clock and to no earlier one of those, and that counter is newer than the last one used |
| `Totp.CurrentCodeAccepted` | apps/api/src/nextballup_api/security/mfa.py:153-168 | the current code is accepted if and only if no code of this or a later counter was used and the previous counter's code differs |
| `Totp.VerifyTotpCode` | apps/api/src/nextballup_api/security/mfa.py:134-168 | the two loops compute the earliest match of the window and then the replay check, or fail where a counter would be negative |
| `Totp.StoredCounter` | apps/api/src/nextballup_api/routers/auth.py:250-266 | storing a counter as a time and dividing it back is exact |
| `Totp.StepKeepsInv` | apps/api/src/nextballup_api/routers/mfa.py:199-219 | setup, confirm, login and disable keep "the record remembers every accepted counter of its secret" |
| `Totp.CountersIncrease` | apps/api/src/nextballup_api/routers/mfa.py:276-316 | in every run of whole handlers the counters accepted under one secret strictly increase and lie within one step of the clock |
| `TotpRace.SerialIff` | apps/api/src/nextballup_api/routers/mfa.py:187-219 | with read and commit of confirm and disable apart, a step does to record and acceptances what the atomic handler does if and only if it would decide the same on the stored record, or there is nothing left to disable |
| `TotpRace.RecheckedRunsAreSerial` | apps/api/src/nextballup_api/routers/mfa.py:260-316 | a run whose commits all pass that check is a run of the atomic handlers in commit order |
| `TotpRace.StepAscendsIff` | apps/api/src/nextballup_api/routers/auth.py:250-266 | for an enabled secret, a step keeps the counters strictly increasing if and only if what it records is newer than what is stored |
| `TotpRace.AscendThroughoutIff` | apps/api/src/nextballup_api/routers/auth.py:250-266 | the same for whole runs |
| `TotpRace.RecheckedRunsAscend` | apps/api/src/nextballup_api/routers/mfa.py:260-316 | so from an empty record their counters strictly increase per secret, near the clock |
| `TotpRace.LoginIsNewer` | apps/api/src/nextballup_api/routers/auth.py:219-266 | logins, which lock the record, always pass both checks |
| `TotpRace.LoginAndDisableShareACode` | apps/api/src/nextballup_api/routers/mfa.py:263-316 | a disable that read the record before a login used the code accepts the same counter |
| `TotpRace.SetupIsConfirmedByOldCode` | apps/api/src/nextballup_api/routers/mfa.py:128-137 | a confirm that read the record before a second setup switches on a secret of which no code was ever accepted |
| `Totp.Enrollment.SetupTotp` | apps/api/src/nextballup_api/routers/mfa.py:119-146 | equals the setup step; refuses exactly an active enrollment |
| `Totp.Enrollment.ConfirmTotp` | apps/api/src/nextballup_api/routers/mfa.py:187-219 | equals the confirm step |
| `Totp.Enrollment.RequireForLogin` | apps/api/src/nextballup_api/routers/auth.py:211-300 | equals the login step; lets through exactly without enrollment, with an accepted code, or with a recovery code |
| `Totp.Enrollment.DisableTotp` | apps/api/src/nextballup_api/routers/mfa.py:260-316 | equals the disable step; needs the password and one of the two kinds of code |
| `TeamInvites.FinishKeepsInv` | apps/api/src/nextballup_api/routers/teams.py:724-737 | committing a join keeps the counts exact and users and jerseys unique |
| `TeamInvites.StepKeepsInv` | apps/api/src/nextballup_api/routers/teams.py:607-737 | every step of every join, and creating or switching invites, keeps the invariant |
| `TeamInvites.InvitesCountExactly` | apps/api/src/nextballup_api/routers/teams.py:653-732 | in every interleaving an invite's uses equal the memberships created through it, within its cap, and (team, user) and (team, jersey) are unique |
| `TeamInvites.InviteAdmitsIff` | apps/api/src/nextballup_api/routers/teams.py:607-737 | an invite admits a user if and only if the team is open, the invite active, unexpired and not used up, the role fits the user and the seat is free; the member gets the invite's team and role |
| `TeamInvites.TeamCodeAdmitsIff` | apps/api/src/nextballup_api/routers/teams.py:607-729 | a team's own code admits a user, as a player, if and only if the team is open, the user may play and the seat is free |
| `TeamInvites.ReasonsAreTrue` | apps/api/src/nextballup_api/routers/teams.py:620-722 | the reason given for a refusal is true |
| `TeamInvites.NewInviteAdmitsIff` | apps/api/src/nextballup_api/routers/teams.py:413-424 | a new invite admits whom it is for from the start, until it expires, if it may be used at all; while switched off it admits nobody |
| `TeamInvites.ClosedTeamAdmitsNobody` | apps/api/src/nextballup_api/routers/teams.py:620-629 | once a team is closed, neither its code nor any invite to it admits anybody again, over every run |
| `TeamInvites.JoinBeginsIff` | apps/api/src/nextballup_api/routers/teams.py:607-616 | a join goes on if and only if nobody holds the invite it names and it passes its checks; it holds the invite until it finishes or is aborted |
| `TeamInvites.FinishJoinAdds` | apps/api/src/nextballup_api/routers/teams.py:724-737 | a flush that clashes with nobody adds the member and one use of its invite, and any other changes nothing |
| `TeamInvites.FailedFlushLeavesNoTrace` | apps/api/src/nextballup_api/routers/teams.py:734-737 | after a join that fails at the flush every request is answered as before, and the invite it had locked is free for the next join |
| `TeamInvites.IncrementExactIff` | apps/api/src/nextballup_api/routers/teams.py:609-612 | the increment keeps the count exact if and only if the count it read is still stored, which is what the row lock is for |
| `TeamInvites.Roster.Check` | apps/api/src/nextballup_api/routers/teams.py:607-722 | answers exactly as the ordered checks do |
| `TeamInvites.Roster.JoinTeam` | apps/api/src/nextballup_api/routers/teams.py:607-737 | equals the two steps of a join run without interruption; a refusal changes nothing |
| `RateLimit.NextRequest` | apps/api/src/nextballup_api/security/rate_limit.py:14-21 | a request continues the running window if and only if it comes before its end, and otherwise opens its own |
| `RateLimit.WindowsAdvance` | apps/api/src/nextballup_api/security/rate_limit.py:14-21 | windows do not overlap, and inside one the counts are consecutive |
| `RateLimit.FixedWindowBound` | apps/api/src/nextballup_api/security/rate_limit.py:50-67 | every fixed window lets at most the limit through |
| `RateLimit.SlidingWindowBound` | apps/api/src/nextballup_api/security/rate_limit.py:50-67 | requests at most a window apart are let through at most twice the limit |
| `RateLimit.HalfOpenWindowBound` | apps/api/src/nextballup_api/security/rate_limit.py:50-67 | requests less than a window apart are let through at most once less than that |
| `RateLimit.SlidingWindowBoundIsReached` | apps/api/src/nextballup_api/security/rate_limit.py:50-67 | for every limit and window there is a trace that reaches the first bound |
| `RateLimit.HalfOpenWindowBoundIsReached` | apps/api/src/nextballup_api/security/rate_limit.py:50-67 | for every limit and every window of at least two seconds there is one that reaches the second |
| `RateLimit.Limiter.Enforce` | apps/api/src/nextballup_api/security/rate_limit.py:50-67 | the answer is that of the key's own trace of requests, to which the bounds above apply |

Beside these, the modules hold small lemmas that spell out single steps, tables and messages, such as
`LockFiles.CallsDo`, `JobDispatch.JobSteps`, `Totp.RecordMoves`, `VideoLifecycle.ReleasesBegin` and
`DemoPreview.SettledSays`, so that no definition above can drift without a law failing.

## Left out

Idealised:

- Signatures, hashes, keyed hashes and JSON: a signed token is a member of the set of issued tokens, or the function is a parameter with its correctness as hypothesis; `Tokens.InjectiveMac` and `Tokens.FaithfulCodec` show that the hypotheses can be met.
- Row ids are positions in insertion order instead of UUIDs; the listings use real UUIDs.
- Clocks, random ids, the broker, object storage and email are parameters of a step, which may fail.
- DemoPreview.FileRoundTrip: times are integers written as decimal text, because ISO 8601 formatting is the standard library's.
- ClipProposals.RankOrder: ranks, confidences and durations are real numbers instead of binary floats.
- Python's lenient inputs (characters that base64 decoding skips, Unicode digits, spaces around integers) are refused instead of accepted; one-time codes are taken after trimming.
- SessionRuns.ReuseMeansRotated: each auth handler is one atomic step here and in `BrowserTab`; `VersionRace` and `RefreshRace` take reads and commits apart for one user, without expiry, deactivation and the other party. The same goes for `Totp.CountersIncrease` and `TotpRace`, in which setting up a secret is atomic.
- BrowserTab.HonestTabIsNeverLoggedOut: the server serves each refresh in one step; a sign-out elsewhere that overtakes one between its check and its lock is in `RefreshRace`.
- Row locks and statements follow PostgreSQL's default isolation level: a statement sees what is committed, and an update waits only for a row that matched.
- The browser's promises are modelled on values as a step relation, not as code with a module variable.
- The audit cursor is its key, since its text only adds ISO 8601 and padded base64.

Not modelled:

- KeysetPages.WalkReturnsEverythingOnce: for the event listing takes a table that does not change during the walk, and for the audit listing one that only gains later keys.
- TotpRace.StepAscendsIff: takes a record that is not disabled, because a disable stores no counter to compare with; `TotpRace.SerialIff` has no such condition.
- Account provisioning, plan snapshots, missing or changing subscriptions, and usage keys other than the upload count.
- Storage-backed alpha previews, the retry loop around the queue lock, preview expiry (one step that removes the directory).
- Pipeline stages behind transcoding, heartbeats and progress, raw-video retention.
- The limiter without Redis (open or closed by configuration) and its retry hint.
- Roles and permissions other than the role rule of a join, tenant isolation, migrations, cookies, settings, exports, pages and components.
