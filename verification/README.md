# Verification of the credential-minting core

The repository mints short-lived cloud credentials from long-lived *minters*, hands them out under
leases, and cleans up behind itself. This project models its state machines and loops in Dafny and
proves the guarantees that span several operations. The Akamai plugin is the instance modelled where
the code is per cloud.

| file | models |
|---|---|
| `Common.dfy` | optional values, instants and the counting facts the other modules share |
| `Order.dfy` | Go's string order, sorting, filtering and storage listings, as the other modules use them |
| `ErrorCodes.dfy`, `Recovery.dfy`, `BreakerRuns.dfy` | the per-minter circuit breaker: a class for its locked methods, and runs of it under concurrent callers |
| `OwnerTag.dfy`, `Reconciler.dfy` | owner prefixes and one orphan pass with its two delete budgets |
| `IssueProtocol.dfy` | create, track, hand out, revoke and reconcile as interleaved steps of several mounts on one cloud account |
| `Purge.dfy`, `PurgeRuns.dfy`, `PurgeSteps.dfy` | the durable purge: arm, bounded passes, the sweep; then runs of whole passes; then runs in which leases are revoked and credentials issued between any two steps of a pass |
| `IssuedList.dfy`, `IssuedListRuns.dfy` | one page of the inventory over several storage prefixes; then whole inventories, failed requests repeated |
| `MinterSets.dfy`, `MinterLifecycle.dfy` | validity, lifecycle carry-over and rotation of a minter set; then runs with nodes holding stale snapshots |
| `Affinity.dfy`, `Capacity.dfy`, `Selection.dfy` | rendezvous order, the per-minter cap under concurrent reads, and the choice of a minter |
| `Capability.dfy` | deduplicated capability probes and the verdict cache that concurrent verifications share |
| `Lineage.dfy` | what a caller's identity aliases agree on, and what a role demands of it |

Conventions. An instant is a natural number of nanoseconds and 0 is the zero time. What the program
takes from outside (clocks, random numbers, a cloud's answers, storage errors) is a parameter, so every
theorem holds for all of it. A protocol is a `Step` datatype with an `Enabled` predicate and a `Next`
function; a run is a sequence of steps and `After` its end. Methods carry the program's loops and
in-place updates and are proved equal to functions; lemmas then say what those functions mean.

Where the code and its comments differ, the code is modelled. The differences that the proofs expose:

- A recorded 5xx or 401 leaves a half-open claim standing, although the comment on `TryAcquire` says a
  claim lasts until its probe records an outcome (`BreakerRuns.ClaimFreedExactly`).
- A cooldown is overwritten, not extended, so a later unhinted 429 can cut a hinted one short
  (`BreakerRuns.UnhintedCanShortenExactly`); and a 429 recorded directly through `RecordError` opens a
  cooldown that an older claim can outlive (`BreakerRuns.DirectRateLimitMisleadsWaiter`).
- The comment on `validateRotation` calls its stand-in exact. The real successor is made later, so it
  expires later, and a rotation that passes can still commit an invalid set
  (`MinterSets.RotationCheckIsExactly`, `MinterLifecycle.CommitsStayValidExactly`,
  `MinterSets.RotationCanInvalidate`).
- The comment on `defaultMinterRetireGraceSeconds` asks only that the grace exceed the interval at which
  nodes reload. Other nodes refuse to load an invalid set and keep the snapshot they have, so after one
  rotation that its check does not cover no grace is long enough
  (`MinterLifecycle.UncoveredCommitIsUnsafe`, `MinterLifecycle.SafeInEveryRunExactly`).
- A record that vanishes while a full page is read makes the inventory skip what follows it in that
  prefix (`IssuedList.PageIsCompleteExactly`).
- A lease revoked under a purge pass that has read its record is counted by the pass too, so an intent's
  `deleted` can exceed what passes removed (`PurgeSteps.Accounting`, `PurgeSteps.RevokedUnderPassCountsTwice`).
- `pool_exhausted` says every minter is full; it is returned when any is, a retired one included
  (`Selection.ExhaustedWhenAnyIsFull`).
- A tracking record carries the time its request began, before the mint, cut to whole seconds. So what
  was requested before or in the cutoff's second and tracked after arming is in a purge's scope
  (`PurgeRuns.IssuanceOutsideScope`).
- A request its caller cancelled is recorded against the minter, although the comment there says that
  nothing is wrong upstream (`ErrorCodes.IndictingTransport`).
- A cursor's separator need not be absent from keys: only the first one is read
  (`IssuedList.CursorRoundTrip`).

## Model

| member | source | states |
|---|---|---|
| `Recovery.ComputeCooldown` | pkg/recovery/ratelimit.go:108-123 | the doubling loop gives the closed form min(5 s * 2^(strikes-1), 2 min) for every strike count, half fixed and half jittered; a positive hint is kept and only added to |
| `Recovery.CooldownFor` | pkg/recovery/ratelimit.go:98-123 | an unhinted wait lies between half the backoff and the backoff, a hinted one between the hint and the hint plus at most 2 s or itself |
| `Recovery.BackoffMonotonic` | pkg/recovery/ratelimit.go:113-120 | another strike never shortens the backoff |
| `Recovery.BackoffLadder` | pkg/recovery/ratelimit.go:108-123 | the back-off is 5, 10, 20, 40 and 80 s for the first strikes and 120 s from the sixth on |
| `Recovery.WaitIsExact` | pkg/recovery/ratelimit.go:98-123 | the wait to the nanosecond for any draw: the hint or half the back-off, plus that fraction of what may be added |
| `Recovery.StateMachine.RecordSuccess` | pkg/recovery/state.go:67-80 | the whole state after a success: failures, strikes, window, cooldown and claim cleared |
| `Recovery.StateMachine.Record` | pkg/recovery/state.go:117-148 | which outcomes count: one that does not indict the minter only frees the claim; a 429 adds a strike, opens a cooldown that counting it does not move, frees the claim and counts as one failure that is no rejected login; another counts under its representative status |
| `Recovery.StateMachine.RecordRateLimited` | pkg/recovery/state.go:135-141 | the first locked section of a recorded 429, a step of its own |
| `Recovery.StateMachine.RecordError` | pkg/recovery/state.go:153-199 | counters, window and health transition of a counted failure, in every state |
| `Recovery.StateMachine.TryAcquire` | pkg/recovery/ratelimit.go:146-164 | grants exactly when healthy or transient-failing, out of cooldown and not claimed, and claims exactly when it grants with strikes outstanding |
| `Recovery.StateMachine.ReleaseProbe` | pkg/recovery/state.go:248-252 | frees the claim and nothing else |
| `Recovery.StateMachine.RecordMissing` | pkg/recovery/state.go:216-220 | changes the health state and nothing else |
| `ErrorCodes.IndictingStatuses` | pkg/credenvelope/errors.go:169-260 | exactly login, timeout, quota and server-side answers reach the breaker as failures |
| `ErrorCodes.IndictingTransport` | pkg/credenvelope/errors.go:206-260 | which failures without an answer do |
| `ErrorCodes.RepresentativeStatus` | pkg/credenvelope/errors.go:266-277 | the status an outcome is recorded under classifies back to the same code |
| `ErrorCodes.StatusesOfEachCode` | pkg/credenvelope/errors.go:206-260 | exactly which upstream statuses have each code |
| `ErrorCodes.CodesWithoutAnswer` | pkg/credenvelope/errors.go:206-260 | exactly which failures without an answer have each code, a plugin's own code standing |
| `ErrorCodes.RecordedAs` | pkg/credenvelope/errors.go:169-277 | exactly which codes are recorded at all, and that only a rejected login is recorded as one |
| `BreakerRuns.HalfOpenIsSingleFlight` | pkg/recovery/ratelimit.go:146-164 | in any interleaving two grants made with strikes outstanding are a probe grace apart or have an event that frees the claim between them |
| `BreakerRuns.ClaimFreedExactly` | pkg/recovery/state.go:117-148 | exactly a success, a recorded 429, an exonerating outcome or a release free a claim; a 5xx or 401 does not |
| `BreakerRuns.ExonerationIsNonInterfering` | pkg/recovery/state.go:113-132 | deleting every non-indicting outcome, acquisition and release from any run leaves everything but the claim identical |
| `BreakerRuns.AuthFailingExactly` | pkg/recovery/state.go:153-199 | over every run, the breaker is auth-failing exactly when since its last success it was not marked missing and two auth failures at least the threshold apart were recorded with no other counted failure between them |
| `BreakerRuns.CountersAreExact` | pkg/recovery/state.go:67-97 | in every run the counters are the rejected logins, the failures counted and the 429s since the last success, which clears them all |
| `BreakerRuns.TimesAreExact` | pkg/recovery/state.go:67-97 | and the reported times are those of the last failure counted and of the last success |
| `BreakerRuns.EnteredExactly` | pkg/recovery/state.go:153-199 | and a breaker reports as the start of its auth failure the time of the failure that completed the first sustained pair |
| `BreakerRuns.SuccessForgets` | pkg/recovery/state.go:67-80 | after a success nothing that came before it makes a difference to any later grant, wait or count, in every continuation |
| `BreakerRuns.OutOfServiceIsRefused` | pkg/recovery/ratelimit.go:146-164 | over every run, a breaker marked missing or with a sustained pair of auth failures since its last success grants nothing, and one with neither grants everybody past its cooldown while it has no strikes |
| `BreakerRuns.LoginStatuses` | pkg/recovery/state.go:88-97 | the statuses that count as a rejected login are 401 and 403 |
| `BreakerRuns.CallsAreRuns` | pkg/recovery/state.go:117-148 | the recorder called by one caller alone is the run of its one or two locked sections |
| `BreakerRuns.RetryInIsZeroExactlyWhenGranted` | pkg/recovery/ratelimit.go:179-198 | a serviceable breaker grants exactly when the advised wait is zero |
| `BreakerRuns.RetryInMeans` | pkg/recovery/ratelimit.go:179-198 | the advised wait out of service, in a cooldown and behind another caller's probe |
| `BreakerRuns.WaiterGrantedExactly` | pkg/recovery/ratelimit.go:187-198 | waiting out a cooldown is granted exactly when no claim outlives it |
| `BreakerRuns.ClaimsFollowCooldowns` | pkg/recovery/state.go:135-141 | in every run without a directly recorded 429, a standing claim was made after the cooldown in force had ended |
| `BreakerRuns.WaiterIsGranted` | pkg/recovery/ratelimit.go:179-198 | so in every such run a caller that waits exactly what it was told during a cooldown is granted |
| `BreakerRuns.DirectRateLimitMisleadsWaiter` | pkg/recovery/state.go:153-173 | a run with a 429 recorded through `RecordError` in which such a caller is refused |
| `BreakerRuns.NothingGrantedBeforeFloor` | pkg/recovery/state.go:135-141 | after a 429 nothing is granted before its guaranteed floor until a later success or 429 |
| `BreakerRuns.GrantedAfterCeiling` | pkg/recovery/ratelimit.go:108-164 | and after its longest wait the next caller is granted, if the breaker is in service |
| `BreakerRuns.FloorNeverLowered` | pkg/recovery/ratelimit.go:113-122 | consecutive unhinted 429s never lower that floor, whatever lies between them but a success |
| `BreakerRuns.UnhintedCanShortenExactly` | pkg/recovery/state.go:135-141 | exactly when an unhinted 429 can end an open cooldown early |
| `OwnerTag.OwnsExactly` | pkg/ownertag/ownertag.go:73-132 | of two instance ids of one length each owns exactly the names made with it |
| `OwnerTag.UnequalLengthsCollide` | pkg/ownertag/ownertag.go:130-132 | ids of different lengths can own each other's names |
| `Reconciler.Run` | pkg/reconciler/reconciler.go:212-284 | a pass attempts, in listing order, exactly what its two budgets allow, removes exactly the attempts the cloud does not refuse, reports exactly what it did, and does nothing on a dry run or when it cannot read the listing or the owned set; when nothing listed has run out it reports nothing expired and stays within one limit, and when everything has all it deletes is expired |
| `Reconciler.Visit` | pkg/reconciler/reconciler.go:233-280 | one iteration of the pass, budgets, result and cloud together |
| `Reconciler.DeleteBudget.Claim` | pkg/reconciler/reconciler.go:111-121 | a claim is charged to its own class and refused at the limit |
| `Reconciler.CloudAccount.ListTaggedEntities` | plugins/credential-akamai/reconciler_integration.go:21-38 | the listing is what carries the mount's prefix, in order |
| `Reconciler.CloudAccount.DeleteEntity` | plugins/credential-akamai/reconciler_integration.go:40-46 | removes one entity, or nothing when refused |
| `Reconciler.Pass.BudgetsDoNotInterfere` | pkg/reconciler/reconciler.go:233-280 | of each class a live pass attempts exactly the first `MaxDeletesPerPass` in listing order, however many of the other are mixed in |
| `Reconciler.Pass.AttemptsAreBounded` | pkg/reconciler/reconciler.go:246-270 | it attempts only unowned entities past the hold, and no more than two budgets of them |
| `Reconciler.AttemptsOnFields` | pkg/reconciler/reconciler.go:41-46 | in the entities' own fields: unknown or future expiry draws on the one limit, past expiry on the other, and each goes to the first unowned entities of its kind created at a known time at least the hold ago |
| `Reconciler.ResultOnFields` | pkg/reconciler/reconciler.go:212-284 | and so for the orphans found, the limit hit and the expired deletions of the result |
| `Reconciler.OneKindOnly` | plugins/credential-akamai/reconciler_integration.go:21-38 | a listing that reports no expiry, as Akamai's, is reclaimed under the one limit and nothing in it is reported expired |
| `Reconciler.Pass.PassTakesTheFront` | pkg/reconciler/reconciler.go:212-284 | a clean pass removes the front of each class and leaves the rest in order |
| `Reconciler.CleanPassLeavesRemaining` | pkg/reconciler/reconciler.go:212-284 | what the next listing holds after a pass nothing was refused in |
| `Reconciler.Pass.DrainsExactly` | pkg/reconciler/reconciler.go:212-284 | with every delete succeeding at a fixed time, k passes drain the listing exactly when k limits cover the larger class |
| `IssueProtocol.SafeExactly` | pkg/reconciler/reconciler.go:132-154 | over every interleaving of any number of mounts, no reconcile delete hits a handed-out credential whose record stands, nor the client of a stored minter, exactly when the time to record a credential and the disagreement between the cloud's clock and the mount's together fit in the confirmation hold |
| `IssueProtocol.StepKeeps` | plugins/credential-akamai/path_creds.go:181-200 | each create, track, failed track, hand-out, revoke, minter-set write and reconcile step keeps the invariant behind it |
| `IssueProtocol.InvHolds` | plugins/credential-akamai/path_creds.go:181-200 | the invariant holds after every run |
| `IssueProtocol.DeletesOnlyOwnUntracked` | plugins/credential-akamai/reconciler_integration.go:21-71 | what a pass is about to delete is its own mount's, and has no record and is no minter's client on any mount, at every point of every run |
| `IssueProtocol.HandedOutSurvives` | plugins/credential-akamai/path_creds.go:268-325 | a tracked credential leaves the cloud only by its own mount's revoke or purge |
| `IssueProtocol.SuccessorSurvives` | pkg/cloudconfig/owned.go:20-62 | a rotation successor stored as a minter leaves the cloud only by its own mount's retirement sweep |
| `IssueProtocol.OwnListing` | pkg/ownertag/ownertag.go:130-132 | a listing by prefix names only the mount's own credentials |
| `IssueProtocol.AttemptsAreSettled` | pkg/reconciler/reconciler.go:240-249 | what a pass attempts is too old, by whichever clock, to be still on its way to its record |
| `IssueProtocol.ShortHoldIsUnsafe` | pkg/reconciler/reconciler.go:240-249 | with a shorter hold there is a run that deletes a handed-out credential, for every delay and skew |
| `Purge.Mount.Scan` | pkg/upstreampurge/upstreampurge.go:166-207 | the scan is the sorted list of the role's records not created after the cutoff, undated ones included, unreadable ones not |
| `Purge.Mount.Pass` | pkg/upstreampurge/upstreampurge.go:226-259 | one pass against its specification: which cloud and storage steps it makes in which order, its whole result, and the storage error that ends it |
| `Purge.Mount.TryEach` | pkg/upstreampurge/upstreampurge.go:236-257 | the loop: stops at the budget, a 429 or a record it cannot delete, counts refusals and goes on |
| `Purge.Mount.Try` | pkg/upstreampurge/upstreampurge.go:240-255 | a record goes only after its credential |
| `Purge.Mount.DeleteClient` | pkg/upstreampurge/upstreampurge.go:86-94 | a credential already gone counts as deleted, a 429 as throttling, anything else as a failure |
| `Purge.Mount.Arm` | pkg/upstreampurge/intent.go:17-37 | the intent is stored before anything is deleted, carries the arming time as its cutoff, counts what is in scope, and is complete exactly when that is nothing |
| `Purge.Mount.Advance` | pkg/upstreampurge/intent.go:47-69 | one pass and then the saved intent; after a storage error in the pass neither the intent in hand nor the stored one counts what it deleted |
| `Purge.Mount.Write` | pkg/upstreampurge/endpoint.go:142-180 | a dry run changes nothing; otherwise the intent is stored first, then one pass runs, and what is reported as remaining is what is left in scope |
| `Purge.Mount.Sweep` | pkg/upstreampurge/endpoint.go:203-234 | each role with an unfinished, readable intent that resolves ends with exactly the records and intent that advancing it alone gives, whatever its last pass met; every other role is left as it was; a failed listing ends the sweep with nothing done |
| `Purge.PassShape` | pkg/upstreampurge/upstreampurge.go:236-259 | a pass is a prefix of its scan in which every allowed record is deleted and every refused one fails; it ends only at the end of the scan, the budget, a 429 or a record it cannot delete |
| `Purge.PassFillsItsBudget` | pkg/upstreampurge/upstreampurge.go:226-257 | a pass tries the configured number of records, or fifty without one, and fewer only at the end of the scan, a 429 or a record it cannot delete |
| `Purge.CrashSafe` | pkg/upstreampurge/upstreampurge.go:240-256 | stopped after any single step, a pass has removed only records in scope, each with its credential already gone |
| `Purge.AdvanceCrashSafe` | pkg/upstreampurge/intent.go:47-69 | the same for a whole advance, and until its last step the stored intent is the old one |
| `Purge.AdvanceReplay` | pkg/upstreampurge/intent.go:47-69 | records, credentials and intent after an advance in closed form, under every storage failure |
| `Purge.AdvanceShrinksScope` | pkg/upstreampurge/upstreampurge.go:236-259 | an advance takes out of scope exactly what its pass deleted |
| `Purge.SweepIsolatesRoles` | pkg/upstreampurge/endpoint.go:203-234 | a sweep does for each role exactly what advancing it alone would, in any order and whatever fails for the others |
| `PurgeRuns.IssuanceOutsideScope` | pkg/upstreampurge/upstreampurge.go:190-196 | issuing leaves a purge's scope alone exactly when it is for another role or was requested in a later second than the cutoff's |
| `PurgeRuns.PassProgress` | pkg/upstreampurge/upstreampurge.go:236-257 | an unthrottled pass deletes at least what its budget has left after every refusal in scope, or everything deletable |
| `PurgeRuns.DrainsWithin` | pkg/upstreampurge/upstreampurge.go:236-257 | with fewer refusals than the budget, k passes suffice for k times the difference |
| `PurgeRuns.PurgeDrainsExactly` | pkg/upstreampurge/upstreampurge.go:226-259 | repeated passes delete everything deletable exactly when no deletable record has a budget of refused ones ahead of it, and then one pass per such record is enough |
| `PurgeRuns.PassKeepsReachable` | pkg/upstreampurge/upstreampurge.go:236-257 | a pass neither frees nor blocks a record it leaves |
| `PurgeRuns.PurgeTerminates` | pkg/upstreampurge/intent.go:40-69 | in every run of whole passes from arming (leases revoked in scope, storage failures, throttled passes and passes with other budgets or answers included) as many working passes as records were deletable at arming leave nothing deletable in scope, when no such record has a budget of refused ones ahead of it |
| `PurgeRuns.SteadyPurgeDrainsExactly` | pkg/upstreampurge/intent.go:40-69 | and exactly when that holds, in runs in which every pass works and no lease revokes in scope |
| `PurgeRuns.FilterReachable` | pkg/upstreampurge/upstreampurge.go:236-257 | taking records out of a scope blocks none of those that stay |
| `PurgeRuns.SweepProgress` | pkg/upstreampurge/endpoint.go:203-234 | a sweep takes a deletable record out of the scope of every unfinished purge it can read and resolve, whatever refusals its passes have met and whatever fails for other roles |
| `PurgeRuns.SweepsDrain` | pkg/upstreampurge/endpoint.go:203-234 | so as many sweeps as records were deletable finish it, when no such record has a budget of refused ones ahead of it |
| `PurgeRuns.RefusalsStarve` | pkg/upstreampurge/upstreampurge.go:236-246 | two refused records ahead of a deletable one starve a purge with a budget of two, forever |
| `PurgeSteps.Accounting` | pkg/upstreampurge/upstreampurge.go:226-259 | at every point of every run from arming, with leases revoked and credentials issued between any two steps of a pass, any failure and the node dying anywhere: deleted + lost counts + revoked + left in scope equals tracked + tracked late + revoked under a pass that counted it too; a complete purge has nothing left from arming; and undisturbed it is complete exactly when, between passes, nothing is left |
| `PurgeSteps.StepKeeps` | plugins/credential-akamai/path_creds.go:268-325 | each step of a pass, each revoke step, each issuance and each crash keeps the invariant behind it |
| `PurgeSteps.CrashSafeSteps` | pkg/upstreampurge/upstreampurge.go:236-257 | at every point of every such run passes have removed only records in scope, and whatever left the scope has its credential deleted unless a lease removed the record |
| `PurgeSteps.RevokedUnderPassCountsTwice` | pkg/upstreampurge/upstreampurge.go:240-256 | a run of one record whose lease is revoked under the pass: the intent counts one deletion and no pass removed anything |
| `PurgeSteps.WorkedProgress` | pkg/upstreampurge/upstreampurge.go:226-259 | a pass that meets no failure of its own leaves nothing deletable from arming or has removed something deletable, whatever happened between its steps |
| `PurgeSteps.PurgeFinishes` | pkg/upstreampurge/intent.go:40-69 | in every such run, late records included, as many working passes as there ever were deletable records in scope leave nothing deletable from arming, when no deletable one has a budget of refused ones ahead of it |
| `PurgeSteps.AloneIsAdvance` | pkg/upstreampurge/intent.go:47-69 | with nothing between its steps a pass has exactly the effects of `Purge.Mount.Advance`, under every failure of a deletion or of the save |
| `IssuedList.List` | pkg/issuedlist/issuedlist.go:159-215 | the nested loops against the walk they specify: refusals, storage errors that refuse the whole page, and for exactly the returned entries every published field of the record with its value, no other field, and none for an unreadable record |
| `IssuedList.VocabularyIs` | pkg/issuedlist/issuedlist.go:79-85 | the eleven published fields |
| `IssuedList.ErrorsRefusePages` | pkg/issuedlist/issuedlist.go:177-198 | no page holds a record that could not be read or of a prefix that could not be listed, nor starts at such a prefix; only a bad limit or cursor is refused |
| `IssuedList.PageLimits` | pkg/issuedlist/issuedlist.go:269-282 | no limit means 200, and a negative one or one over 1000 is refused |
| `IssuedList.ReadPage` | pkg/issuedlist/issuedlist.go:190-204 | the position moves on before a missing record is skipped |
| `IssuedList.CursorRoundTrip` | pkg/issuedlist/issuedlist.go:226-250 | a cursor survives being written and parsed back, whatever its key holds, and is refused outside the mount's prefixes |
| `IssuedList.CursorReadExactly` | pkg/issuedlist/issuedlist.go:230-250 | exactly which texts are read as a cursor, and as which; a malformed one never restarts the listing |
| `IssuedList.NumbersExactly` | pkg/issuedlist/issuedlist.go:242-247 | which texts are numbers: an optional sign and digits |
| `IssuedList.SignsCount` | pkg/issuedlist/issuedlist.go:242-247 | a written number reads back as itself, and as its negative behind a minus |
| `IssuedList.PageWalks` | pkg/issuedlist/issuedlist.go:177-205 | a page is in order, after its cursor, within its limit, and not after the cursor it returns |
| `IssuedList.PageIsCompleteExactly` | pkg/issuedlist/issuedlist.go:177-214 | one request returns or leaves to later requests every record that stays, exactly when no full page loses a record with others behind it |
| `IssuedListRuns.PagingIsExact` | pkg/issuedlist/issuedlist.go:159-215 | following the cursor to the end, and repeating requests that fail, returns every record present throughout exactly once and none twice, whatever is inserted or deleted between requests |
| `IssuedListRuns.NeverTwice` | pkg/issuedlist/issuedlist.go:159-215 | all pages together are strictly ascending, even across deletion and re-insertion |
| `IssuedListRuns.BetweenRequestsIsSmooth` | pkg/issuedlist/issuedlist.go:195-205 | changes between requests alone never make a page lose anything |
| `IssuedListRuns.VanishingHidesTheRest` | pkg/issuedlist/issuedlist.go:198-214 | one record vanishing within a full page hides the one behind it for good |
| `IssuedListRuns.PagingIsTheListing` | pkg/issuedlist/issuedlist.go:159-215 | on unchanged storage the pages are the sorted listing of each prefix, one prefix after the other, in floor(N/limit) + 1 requests |
| `MinterSets.ValidateMinterSet` | pkg/cloudconfig/minter.go:61-103 | accepts exactly the sets of the order-free rule, and tells an empty, an unbounded and a single expiring set apart |
| `MinterSets.ValidOnFields` | pkg/cloudconfig/minter.go:61-103 | the rule in the minters' own fields: known expiries, and an active minter that never expires or two, every two of them seven days apart |
| `MinterSets.ActiveMinters` | pkg/cloudconfig/minter.go:51-59 | the minters not retired, in order |
| `MinterSets.SortKeepsApart` | pkg/cloudconfig/minter.go:90-92 | sorting changes no pairwise gap |
| `MinterSets.NeighboursSuffice` | pkg/cloudconfig/minter.go:94-100 | in expiry order, neighbours a gap apart means every two are |
| `MinterSets.ValidateMinterIds` | pkg/cloudconfig/owned.go:153-167 | accepts exactly sets whose ids are present and distinct |
| `MinterSets.PreserveLifecycle` | pkg/cloudconfig/owned.go:122-145 | the two loops against their specification, minter by minter |
| `MinterSets.WriteKeepsLifecycle` | pkg/cloudconfig/owned.go:122-145 | after a write a minter is retired exactly when the stored one of its id was, with that one's times and, unless it brings its own, that one's rotation parameters; its token and expiry are those written, and a new one is created now |
| `MinterSets.WithRotatedSuccessor` | plugins/credential-akamai/minter_rotation.go:20-31 | the rotated set, minter by minter: one marked retired in place, the successor at the end, and the others as they were |
| `MinterSets.LocateRotatable` | plugins/credential-akamai/minter_rotation.go:42-64 | finds an active minter of the id, and tells a missing from a retired one |
| `MinterSets.RotatedValid` | plugins/credential-akamai/minter_rotation.go:72-84 | what validity after a rotation needs of the minters that stay |
| `MinterSets.RotationCheckIsExactly` | plugins/credential-akamai/minter_rotation.go:66-84 | given a passed check, every successor made within a delay of it commits a valid set exactly when its expiry does not matter or every minter left expires no later than the stand-in or at least a gap and that delay after it |
| `MinterSets.UnboundedRotationCheckIsExactly` | plugins/credential-akamai/minter_rotation.go:66-84 | with no bound on the delay: exactly when its expiry does not matter or nobody left expires after the stand-in |
| `MinterSets.RotationCanInvalidate` | plugins/credential-akamai/minter_rotation.go:143-168 | a rotation that passes its check and commits an invalid set |
| `MinterSets.SweepSet` | plugins/credential-akamai/minter_retire.go:65-93 | an active minter, one retired no longer than the grace and one whose client's delete fails are kept; one retired longer without a client id, or whose delete does not fail, is dropped; a change is reported exactly when one is |
| `MinterSets.SweepKeepsValid` | plugins/credential-akamai/minter_retire.go:65-93 | a sweep drops only aged retired minters and leaves a set as valid as it was |
| `MinterLifecycle.SafeExactly` | plugins/credential-akamai/minter_retire.go:65-93 | in all runs of writes, rotations covered by their check, sweeps and reloads no node selects a minter whose credential a sweep has deleted, exactly when no dropped id comes back and there is a single node or the grace covers the reload interval plus rotation time |
| `MinterLifecycle.SafeInEveryRunExactly` | plugins/credential-akamai/consts.go:103-108 | in all runs, whatever rotations commit: exactly when no dropped id comes back and there is a single node or rotations take no time and the grace covers the reload interval |
| `MinterLifecycle.UncoveredCommitIsUnsafe` | plugins/credential-akamai/path_minter_sets.go:238-287 | for every grace, once a rotation takes any time, a run in which a node that keeps rejecting the stored set selects a minter long swept |
| `MinterLifecycle.ReturnIsUnsafe` | pkg/cloudconfig/owned.go:122-145 | for every grace and even a single node, a run in which an id that was rotated out, swept and dropped is written again and selected with its credential gone |
| `MinterLifecycle.NoDelayIsSafe` | plugins/credential-akamai/minter_rotation.go:66-84 | a rotation that takes no time is always covered by its check |
| `MinterLifecycle.StepKeeps` | plugins/credential-akamai/path_minter_sets.go:120-167 | while no dropped id comes back, each write, rotation, sweep, reload, rebuilt node and tick keeps the invariant behind it |
| `MinterLifecycle.ShortGraceIsUnsafe` | plugins/credential-akamai/minter_rotation.go:143-168 | with a shorter grace, a run in which a retirement time chosen early lets the sweep overtake a snapshot |
| `MinterLifecycle.CommitsStayValidExactly` | plugins/credential-akamai/minter_rotation.go:143-168 | in every reachable state with a rotation under way, whatever successor it commits within the time a rotation takes leaves a valid set, exactly under that condition |
| `MinterLifecycle.StoredStaysValid` | plugins/credential-akamai/path_minter_sets.go:120-167 | the stored set stays valid in every run whose rotations meet that condition for the time a rotation takes |
| `MinterLifecycle.RetirementIsFinal` | pkg/cloudconfig/owned.go:122-145 | a retired minter keeps its flag and time for as long as it is listed, in every run in which no dropped id comes back |
| `MinterLifecycle.ReAddedIsActive` | pkg/cloudconfig/owned.go:122-145 | an id the stored set no longer has comes back active |
| `Affinity.OrderIds` | pkg/minteraffinity/affinity.go:102-125 | always a permutation; with a key, the ranking |
| `Affinity.Shuffle` | pkg/minteraffinity/affinity.go:142-151 | the in-place shuffle permutes, and leaves the order its dice stand for, also when randomness runs out |
| `Affinity.EveryOrderIsThrown` | pkg/minteraffinity/affinity.go:142-151 | every order of the ids is the outcome of some full throw |
| `Affinity.OrdersAreThrownOnce` | pkg/minteraffinity/affinity.go:142-151 | and of one only: with fair dice every order is equally likely |
| `Affinity.OrderKeys` | pkg/minteraffinity/affinity.go:157-163 | with a key the order depends on the set of ids alone, however the map is iterated |
| `Affinity.RankedByIdsAlone` | pkg/minteraffinity/affinity.go:102-125 | so for any weight function |
| `Affinity.HeavierFirst` | pkg/minteraffinity/affinity.go:102-125 | heavier ids come first, and of two that weigh the same the smaller |
| `Affinity.RemovalKeepsOrder` | pkg/minteraffinity/affinity.go:102-125 | removing an id leaves the order of the others unchanged |
| `Affinity.AdditionMovesOnlyToNew` | pkg/minteraffinity/affinity.go:102-125 | adding an id changes a first choice only to the new id, and exactly when it is preferred to the old one |
| `Capacity.Snapshot` | pkg/mintercapacity/mintercapacity.go:118-152 | the loop counts each minter's readable records, and a minter has room exactly when its count is below the limit |
| `Capacity.CountIsOfRecords` | pkg/mintercapacity/mintercapacity.go:118-152 | the count is the number of records that name the minter; an unreadable one counts for no named minter |
| `Capacity.CapacityHolds` | plugins/credential-akamai/path_creds.go:89-132 | across any interleaving of reads that list, count one record at a time, choose, mint and track, with revokes, no minter holds more than limit - 1 + reads in flight |
| `Capacity.InvHolds` | pkg/mintercapacity/mintercapacity.go:118-152 | the invariant: what a read knew when it listed covers every record that is not younger |
| `Capacity.BoundIsReached` | plugins/credential-akamai/path_creds.go:89-132 | for every limit and number of reads some run reaches the bound |
| `Selection.Backend.SelectMinter` | plugins/credential-akamai/path_creds.go:353-397 | the loop against the walk it specifies, and in the minters' own fields: the first in order that is active, in service, past its cooldown, unclaimed, below the limit and buildable, claimed when it is half-open; or that there is none, and whether one is full; and what else may change |
| `Selection.FirstThatServes` | plugins/credential-akamai/path_creds.go:370-386 | the choice is the first in preference order with room, active, granted and buildable |
| `Selection.WalkAnswers` | plugins/credential-akamai/path_creds.go:353-397 | the walk answers in those terms for any preference order |
| `Selection.ExhaustedWhenAnyIsFull` | plugins/credential-akamai/path_creds.go:388-396 | with nobody to serve, the pool is exhausted exactly when some minter of the set is full |
| `Selection.OnlyOffersAreClaimed` | plugins/credential-akamai/path_creds.go:370-386 | only minters with room, active and granted have their breaker touched |
| `Selection.BehindIsUntouched` | plugins/credential-akamai/path_creds.go:370-386 | nothing behind the chosen minter is touched |
| `Selection.UnbuildableKeepsItsClaim` | plugins/credential-akamai/path_creds.go:370-384 | in any preference order, a half-open minter that the walk comes to and whose client cannot be built keeps a claim nobody uses for the whole probe grace |
| `Selection.RemovalKeepsChoice` | plugins/credential-akamai/path_creds.go:362-387 | taking a minter out of a set changes the choice of no client it was not serving |
| `Capability.Dedupe` | pkg/capability/capability.go:239-259 | one check per key, in key order |
| `Capability.MergedRoles` | pkg/capability/capability.go:261-269 | a merged check names exactly the roles of the checks it stands for |
| `Capability.MergedFacts` | pkg/capability/capability.go:239-252 | and keeps minter and stored form of the first of them |
| `Capability.AppendMissingOnce` | pkg/capability/capability.go:261-269 | merging keeps the roles already there in front and repeats none |
| `Capability.Cache.IsFresh` | pkg/capability/cache.go:59-79 | exactly when a stored verdict may stand in for a probe: cache on, form given and the same, readable, not from the future and no older than the TTL |
| `Capability.Cache.Store` | pkg/capability/cache.go:84-96 | a success is stored with the minter's form and its second, or not at all |
| `Capability.Cache.Verify` | pkg/capability/capability.go:211-234 | the loop against its specification: result, first failure, the keys probed in order, each once, and the cache after it |
| `Capability.ProbedOnce` | pkg/capability/capability.go:186-234 | however many checks a caller passes for a key, it is probed at most once, and only if the cache has no fresh verdict for it; a verification that fails nothing has probed every key without one and accounts for each distinct key exactly once as run, skipped or cached |
| `Capability.FailsAtFirst` | pkg/capability/capability.go:211-234 | the loop fails at the first check that is not fresh and is refused or not let through, names that check's minter, and says which of the two it was |
| `Capability.CountsAreOf` | pkg/capability/capability.go:211-234 | without a failure the three counts are of the fresh checks, of those proved and of those unsupported |
| `Capability.SuccessIsRemembered` | pkg/capability/cache.go:59-96 | a stored success stands in for a probe of its key exactly for the same form and until the TTL is over |
| `Capability.VerificationIsSound` | pkg/capability/capability.go:186-234 | however many verifications and sweeps interleave over one cache, between any two steps, one that has got past all its checks has for every check it was given one of its key that succeeded during it, is unsupported, or succeeded with the same minter form no more than the TTL ago |
| `Capability.CacheStaysSound` | pkg/capability/cache.go:84-96 | every stored verdict is of a probe that succeeded in the second it says, at every point of every such run |
| `Capability.StepKeeps` | pkg/capability/capability.go:211-234 | each look-up, probe, store and deleted entry keeps the invariant behind both |
| `Capability.AloneIsVerified` | pkg/capability/capability.go:211-234 | with nothing between its steps a verification leaves the verdicts and successes of the loop, and ends early exactly when it fails |
| `Capability.PassJustifies` | pkg/capability/capability.go:211-234 | the loop run on its own justifies every check it was given |
| `Capability.FailureIsForgotten` | pkg/capability/capability.go:216-231 | a failed check leaves no verdict |
| `Capability.Cache.Prune` | pkg/capability/cache.go:132-150 | what stays is exactly what is readable and within the TTL with the cache on, or could not be deleted, and the rest is counted |
| `Capability.SweepChangesNoHit` | pkg/capability/cache.go:132-165 | and thereby changes no later answer but for an entry it could not read and deleted |
| `Lineage.FromAliases` | pkg/lineage/lineage.go:147-190 | agrees exactly when at most one parent is named, and then resolves to that parent, to a unit only when exactly one is named, and to the source of the first claim |
| `Lineage.ClaimOnMetadata` | pkg/lineage/lineage.go:147-166 | what one alias says: custom metadata overrides plain metadata when it names a parent, and unit and source follow the parent |
| `Lineage.AgreementIsOrderFree` | pkg/lineage/lineage.go:147-190 | agreement, parent and unit are the same for every permutation of the aliases |
| `Lineage.SourceFollowsOrder` | pkg/lineage/lineage.go:147-190 | the source is not |
| `Lineage.ResolveCaller` | pkg/lineage/lineage.go:116-139 | entity metadata is a fallback for silence and never a tie-break, and only the caller's own failed read is reported |
| `Lineage.CallerOnClaims` | pkg/lineage/lineage.go:116-139 | two parents named give none whatever the entity's metadata says, one named is the answer whatever it says, and only with none named is it asked |
| `Lineage.OnlyUnansweredFails` | pkg/lineage/lineage.go:116-126 | only a read of the caller's entity that got no answer is a failure |
| `Lineage.Enforce` | pkg/lineage/lineage.go:264-328 | whom each demand issues to, and when the refusal says the identity store did not answer |
| `Lineage.WhomDemandsIssueTo` | pkg/lineage/lineage.go:264-328 | whom each configured word issues to, and that no other word issues |
| `Lineage.DemandsAreALadder` | pkg/lineage/lineage.go:264-328 | whoever a stronger demand issues to, a weaker one does |
| `Lineage.DisablingStopsItsUnits` | pkg/lineage/lineage.go:299-327 | disabling a parent stops exactly its own units under a `live_parent` demand and nobody under a `parent` one |

## Left out

- HTTP clients, request signing, JSON and storage encoding: the cloud is what a list, create or delete answers; a record is what parsing it gives.
- SHA-256, crypto/rand and floating point: weights are any function, digests are what they digest, jitter is any fraction rounded down to whole nanoseconds.
- Integer and duration overflow, and `Time.Sub` saturating near 292 years: numbers are unbounded.
- Recovery.StateMachine.Record: proved for one caller; the gap between the two locked sections of a 429 is modelled in `BreakerRuns`, where the two are separate events.
- `UnavailableError`: its code does not tell waiting from hopeless, because an auth-failing minter with strikes counts as cooling down; `Selectable`, `NeedsHealthCheck` and `Snapshot` only read.
- Feeding mint outcomes and probe outcomes back into the breaker (`recordMinterError`, the capability limiter): the limiter is an answer per key.
- IssueProtocol.SafeExactly: ids are never reused by the cloud, and a pass reads the latest records; a node that reads a stale copy of them after a handover is outside the theorem.
- IssueProtocol.DeletesOnlyOwnUntracked: a minter set lists clients it lists already, rotation successors its own mount has just made, and clients made elsewhere; one that lists another credential of the mounts, long made, is outside the theorem.
- IssueProtocol.HandedOutSurvives: the lease revoke and the purge appear as the step that deletes upstream; what they do to records is in `Purge`.
- That the reconciler or the sweeps eventually run: each configuration write restarts their tickers.
- Purge.Mount.Sweep: `Arm` and a sweep share no lock, so an advance in flight can overwrite a newer intent; the model serialises them.
- PurgeSteps.PurgeFinishes: one pass of a purge at a time, and the purge is not armed again; passes that meet a 429 or other answers may occur but do not count as working ones.
- PurgeRuns.PurgeTerminates: an advance is one event; `PurgeSteps.PurgeFinishes` has its steps apart.
- IssuedList.List: published fields are kept per position; the response keys them by id alone, so an id in two prefixes would share one entry there.
- MinterLifecycle.SafeExactly: a write does not hold the rotation lock; the model serialises it. The reload interval is the time since a node last read the stored set; a reload that cannot read it does not count. Upstream client ids are not shared between minters, and deleting a whole set is left out.
- MinterSets.ValidateMinterSet: which minters an error message names.
- MinterLifecycle.StepKeeps: a sweep may drop any aged minter whose client's delete does not fail, so also one for which no client can be built.
- Selection.Backend.SelectMinter: the read lock around it, and minter health checked by callers other than this one.
- Capacity.CapacityHolds: one mount; a failed storage read fails the request before it chooses.
- Capability.Cache.Verify: rendering of failures for operators and clients.
- The AWS plugin, `totp`, `mintledger`, `localexpiry`, `upstreamquota`, `FitName`, `ParseRetryAfter`, schemas and help text: single-branch or library-bound.
