# LilacMacro Services: a verified model

A model in Dafny of the parts of LilacMacro Services whose correctness rests on arguments about whole runs, and
proofs of what they promise:

- **The diagnostic-archive lifecycle.** An upload record moves through twelve statuses, driven at the same time by
  API requests, a verification worker, a cleanup worker and administrators, which meet only in compare-and-swap
  transitions, leases and retry counters. `Uploads.dfy` says what each repository operation does to the records as a
  value; `UploadRepository.dfy` is the in-memory repository as a class that changes its fields, each method proved
  against that value; `Lifecycle.dfy` is a state machine whose steps are single repository calls and single storage
  calls, so every interleaving, every storage outcome and every crash is a run. What holds of runs is in the
  `Lifecycle`, `Retained`, `Verification`, `Provider`, `Retention` and `Quiet` files and in `VerifiedArchives.dfy`.
- **The capacity allocator.** The queue-based eviction loop (`CapacityLoop.dfy`) against a specification that mentions
  neither queues nor counters (`Capacity.dfy`): repeatedly take, among archives that may be evicted, the one that comes
  first; and when that is a minimum (`MinimumEvictions.dfy`).
- **The control command log.** A revisioned state machine with command replay, published snapshots, monotone
  releases and a hash chain (`ControlState.dfy`, `CommandText.dfy`, `ControlLog.dfy`, `ControlRepository.dfy`,
  `Numbers.dfy`, `Versions.dfy`, `ReleaseHistory.dfy`, `AuditChain.dfy`), and what a run leaves in it, read off its audit
  (`CommandEffects.dfy`, `CommandHistory.dfy`, `PublishedHistory.dfy`).
- **Canonical texts.** Canonical JSON with a parser that undoes it (`CanonicalJson.dfy`, `JsonParser.dfy`,
  `JsonCanonicalForm.dfy`, `CanonicalOrder.dfy`, `CanonicalPrinting.dfy`), and network keys of IPv6 addresses
  (`NetworkKeys.dfy`, `NetworkKeyText.dfy`).
- **Two-level daily quotas.** Global and per-network counters that must agree in total, once kept so by
  compensation and once by rollback (`TwoLevelQuota.dfy`, `ConfigurationShares.dfy`, `Telemetry.dfy`).

Functions that a method and its specification share, orders, counts, conditions and effects, are also described without
them: lemmas named `...Exactly`, and those of `ServiceCalls.dfy`, say in terms of fields, places in lists and numbers
what each comes to (`AdmissionExactly.dfy`, `AdmissionVictims.dfy`, `ClaimsExactly.dfy`).

## Reading the model

Every proof is about all inputs or all runs. A *run* is any finite sequence of steps from the empty system; `Run`
and `RunFrom` say where it leads. Assumptions about timing or outside functions are stated as predicates, and
required by the theorems that use them and by no others. There are four:

- `VerificationLease.PromptFromStart`: a check ends by its deadline and the status write follows within four hours.
- `ControlLog.Chronological`: the clock that the control service reads does not go back.
- `AuditChain.NoCollision`: the hash does not collide on the texts at hand.
- `NetworkKeys.KnowsAddresses`: `isIP` says 4 only of texts with a dot and 6 of every hexadecimal spelling.

The storage provider is a process of the state machine, not an assumption about time: it may assemble an archive at
any moment after it was asked to, also when the asker has timed out or crashed. What its steps take for granted is the
multipart contract: an upload is assembled or discarded, never both, so an abort that was answered, be it by "no such
upload", leaves nothing to assemble.

Where the code and its documentation disagree the model follows the code:

- `src/domain/diagnostic-capacity.ts:10` calls the evictions a minimum set. They are the shortest sufficient prefix
  of a fair order (`Capacity.GreedyFreesEnough`, `Capacity.GreedyIsFair`), and fewer archives may do:
  `MinimumEvictions.NotAMinimumSet` gives an input. `MinimumEvictions.MinimumExactly` says exactly when they are a
  minimum, and `MinimumEvictions.AlwaysMinimumExactly` which archives make them one whatever is needed: those that the
  rule takes largest first.
- `src/domain/control-state.ts:118` says that no release is rolled back, and line 128 that no assets change
  without a new version, of whatever versions the command schema admits (`src/contracts/admin-commands.ts:58`). Parts of
  a version are compared as JavaScript numbers, and assets only under one spelling, so both fail:
  from 2^53 on parts are rounded and a smaller version can compare equal (`ReleaseHistory.LargeVersionForgetsAssets`),
  from 2^1024 on they are Infinity and their difference is not a number (`ReleaseHistory.InfiniteVersionSkipsFloor`),
  and a leading zero is another spelling (`ReleaseHistory.LeadingZeroForgetsAssets`), as any second spelling of a
  version is enough (`ReleaseHistory.RespellingForgetsAssets`).
  `Versions.RollbackGuardedExactly` says exactly which floors refuse every smaller version,
  `ReleaseHistory.AssetsGuardedExactly` exactly when acceptance forces the assets, `ReleaseHistory.ReleasesProgress`
  proves both promises for runs whose versions are guarded and canonical, and
  `ReleaseHistory.ProbedReleasesProgress` for all that the release probe offers.

Times are integers in milliseconds on one clock, which in the lifecycle only ticks forward. Upload ids, which are UUIDs
in one fixed form, are natural numbers, so comparing them by locale is comparing numbers. JavaScript strings that are
printed, hashed or split are sequences of UTF-16 code units.

`dafny verify dfyconfig.toml` checks the project.

## Model

| member | source | states |
|---|---|---|
| CapacityLoop.SelectCapacityEvictions | src/domain/diagnostic-capacity.ts:14-65 | the queue-based loop returns exactly the ids the specification takes: each in its turn by counts, ages and ids alone, until enough bytes are released; or null when they are too few |
| CapacityLoop.EvictUntilFree | src/domain/diagnostic-capacity.ts:36-64 | the while loop, from any counters and sorted queues that describe the archives left, ends with the specification's outcome |
| CapacityLoop.BestHead | src/domain/diagnostic-capacity.ts:38-57 | one pass over the queue heads finds the archive whose install holds most, then the oldest, then the smallest id, of all that are evictable, and none only if none is |
| CapacityLoop.TakeVictim | src/domain/diagnostic-capacity.ts:57-61 | shifting the victim and decrementing its install's count leaves counters and queues that describe the remaining archives |
| CapacityLoop.QueueByInstall | src/domain/diagnostic-capacity.ts:23-34 | counters hold how many archives each install has, queues its evictable ones, oldest first and then smaller ids |
| CapacityLoop.RetainedBytes | src/domain/diagnostic-capacity.ts:19 | the total size of the retained archives |
| Capacity.VictimUnique | src/domain/diagnostic-capacity.ts:41-56 | the specification's choice is unique, so it is a function of the set of archives |
| Capacity.VictimExactly | src/domain/diagnostic-capacity.ts:38-69 | the next victim is the evictable archive whose install holds more than that of any other, or as many and it is older, or as old and its id is smaller |
| Capacity.GreedyExactly | src/domain/diagnostic-capacity.ts:14-69 | the victims are the only different evictable archives each of which is taken in that turn, and which together, but not all but the last, free enough |
| Capacity.GreedyPicksEvictable | src/domain/diagnostic-capacity.ts:27-30 | the victims are distinct retained archives, all evictable |
| Capacity.GreedyFreesEnough | src/domain/diagnostic-capacity.ts:37-63 | the victims free enough bytes and no proper prefix of them does |
| Capacity.GreedyFailsIffTooSmall | src/domain/diagnostic-capacity.ts:57 | null exactly when all evictable archives together are too small |
| Capacity.GreedyIsFair | src/domain/diagnostic-capacity.ts:38-63 | afterwards an install that still has an evictable archive holds at most one more than any install that lost one |
| Capacity.OrderDoesNotMatter | src/domain/diagnostic-capacity.ts:14-65 | every ordering of the input has the same outcome |
| MinimumEvictions.NotAMinimumSet | src/domain/diagnostic-capacity.ts:9-13 | an input on which the documented minimum is not reached |
| MinimumEvictions.MinimumExactly | src/domain/diagnostic-capacity.ts:9-13 | the victims are a minimum exactly when none are needed, or the largest evictable archives, one fewer than the victims, would not free enough |
| MinimumEvictions.AlwaysMinimumExactly | src/domain/diagnostic-capacity.ts:9-13 | for given archives the victims are a minimum whatever is needed exactly when the fair order takes sizes that never grow |
| Uploads.EvictionsKnown | src/infrastructure/memory-repositories.ts:145-187 | victims are distinct, stored, retained, and Pending, Accepted, Failed or Expired |
| Uploads.BatchKnown | src/infrastructure/memory-repositories.ts:333-346 | a verification batch holds distinct stored records, each of which wants verification |
| Uploads.VerificationTakesFirst | src/infrastructure/memory-repositories.ts:342-346 | a record that qualifies is left out only when the batch is full of records that go before it: requested before stored, then longest waiting, then inserted earlier |
| Uploads.DeletionBatchKnown | src/infrastructure/memory-repositories.ts:366-399 | a deletion batch holds distinct stored records that are due |
| Uploads.DeletionTakesFirst | src/infrastructure/memory-repositories.ts:393-399 | a due record is left out only when the batch is full of records that go before it: released bytes first, then by expiry, then inserted earlier |
| ClaimsExactly.ReadyExactly | src/infrastructure/memory-repositories.ts:334-341 | which records qualify for verification, with the times written out |
| ClaimsExactly.DueExactly | src/infrastructure/memory-repositories.ts:367-392 | which records are due for deletion, with the times written out |
| ClaimsExactly.VerificationClaim | src/domain/diagnostic-maintenance.ts:88-102 | a claim takes at least one and at most eight of the records that qualify, the most urgent of them, changes only their status and update time, and starts a verifier on each |
| ClaimsExactly.DeletionClaim | src/infrastructure/memory-repositories.ts:365-405 | a claim takes at most its limit of the records that are due, the first of them, changes only their status and update time, and starts a remover on each |
| Policy.VerificationDelayDoubles | src/domain/diagnostic-maintenance.ts:218 | each further attempt doubles the delay from half a minute up to an hour, for every attempt |
| Policy.DeletionDelayDoubles | src/domain/diagnostic-maintenance.ts:279 | each further attempt doubles the delay from a minute up to six hours, for every attempt |
| Uploads.TransitionWellFormed | src/infrastructure/memory-repositories.ts:252-284 | a compare-and-swap keeps ids, insertion order, the released set and the audit numbering coherent |
| Uploads.EvictAllWellFormed | src/infrastructure/memory-repositories.ts:174-187 | so do evictions, which keep the insertion order |
| AdmissionQuotas.AdmissionWithinQuotas | src/infrastructure/memory-repositories.ts:129-172 | right after an admission all nine quotas hold of what is stored, the new upload counted in |
| AdmissionQuotas.AdmittedWithinQuotas | src/domain/diagnostic-service.ts:127-143 | so they do after the creation that ends any run, over the last 24 hours |
| AdmissionExactly.RefusedExactly | src/infrastructure/memory-repositories.ts:129-172 | a quota refuses an upload exactly when that upload would exceed it: each of the nine counted upload by upload |
| AdmissionExactly.VictimsExactly | src/infrastructure/memory-repositories.ts:173-187 | victims are found exactly when the bytes that may be evicted bring what is kept, the new upload included, within the limit |
| AdmissionExactly.AdmittedExactly | src/infrastructure/memory-repositories.ts:122-196 | so a new upload is admitted exactly when both hold, and a refusal changes nothing |
| AdmissionVictims.EvictionsAreFair | src/domain/diagnostic-capacity.ts:9-13 | the victims' ids, in terms of the records: each goes when its install keeps most, then oldest, then by id, until enough is free and not longer |
| AdmissionVictims.AdmissionStores | src/infrastructure/memory-repositories.ts:174-195 | an admission expires and audits those victims, stores the record last with its event, and changes nothing else |
| AdmissionVictims.CreatedExactly | src/domain/diagnostic-service.ts:104-143 | in every run a creation succeeds exactly when the policy's numbers (`src/domain/diagnostic-policy.ts:17-28`) allow it, and then stores an upload that expires after 72 hours |
| UploadRepository.MemoryDiagnosticRepository.constructor | src/infrastructure/memory-repositories.ts:115-120 | a new repository is empty |
| UploadRepository.MemoryDiagnosticRepository.InsertWithinQuota | src/infrastructure/memory-repositories.ts:122-196 | quota refusal, evictions and insertion change the state as the value specification says, errors included; the answer is true exactly for a new id that the quotas allow and that has room enough |
| UploadRepository.MemoryDiagnosticRepository.EvictEach | src/infrastructure/memory-repositories.ts:174-187 | the eviction loop marks, releases and audits each victim in order |
| UploadRepository.MemoryDiagnosticRepository.SetProviderUploadId | src/infrastructure/memory-repositories.ts:226-233 | binds only while Uploading |
| UploadRepository.MemoryDiagnosticRepository.RegisterPartGrant | src/infrastructure/memory-repositories.ts:235-250 | registers only while Uploading and refuses to rebind a part |
| UploadRepository.MemoryDiagnosticRepository.Transition | src/infrastructure/memory-repositories.ts:252-284 | compare-and-swap: changes exactly the named record when its status and deadline allow, else nothing |
| UploadRepository.MemoryDiagnosticRepository.AppendAudit | src/infrastructure/memory-repositories.ts:286-289 | one numbered audit entry for a known record |
| UploadRepository.MemoryDiagnosticRepository.ScheduleDeletionRetry | src/infrastructure/memory-repositories.ts:310-325 | Deleting becomes Failed, one more attempt, bytes back in the ledger |
| UploadRepository.MemoryDiagnosticRepository.ScheduleVerificationRetry | src/infrastructure/memory-repositories.ts:354-363 | VerifyingActive becomes Verifying, one more attempt |
| UploadRepository.MemoryDiagnosticRepository.ClaimVerification | src/infrastructure/memory-repositories.ts:327-352 | claims the filtered, sorted, cut batch and hands out the records as claimed |
| UploadRepository.MemoryDiagnosticRepository.ClaimExpired | src/infrastructure/memory-repositories.ts:365-405 | claims due records, released ones first, then by expiry |
| Multipart.AcceptedIffEachPartOnce | src/domain/diagnostic-service.ts:404-422 | a list is accepted exactly when it uses each of 1..partCount once, in any order, with well-formed ETags and bound grants |
| Multipart.AcceptedListCoversTheArchive | src/domain/diagnostic-service.ts:208-215 | an accepted list carries the checksums bound at grant time and its granted lengths sum to the declared size |
| Multipart.EtagExactly | src/domain/diagnostic-service.ts:414 | an ETag is 16 to 80 hexadecimal digits or dashes with at most one quote on either side |
| Multipart.PartsExactly | src/domain/diagnostic-policy.ts:32-41 | parts hold 128 MiB, the last what is left, and there are as many as that takes |
| LifecycleSafety.StepEvolves | src/infrastructure/memory-repositories.ts:252-405 | every step of every process moves records only forward, audits milestones only as they are crossed and keeps released records on the deletion side |
| LifecycleSafety.CompletionStepEvolves | src/domain/diagnostic-service.ts:222-259 | so does each step of a completion request |
| LifecycleSafety.AdministratorStepEvolves | src/domain/diagnostic-maintenance.ts:58-86 | so does each step of a deletion or download request |
| LifecycleSafety.VerificationStepEvolves | src/domain/diagnostic-maintenance.ts:88-102 | so does each step of a verifier |
| LifecycleSafety.RemovalStepEvolves | src/domain/diagnostic-maintenance.ts:226-263 | so does each step of a remover |
| LifecycleSafety.AdmissionEvolves | src/infrastructure/memory-repositories.ts:122-196 | so does an admission with its evictions |
| LifecycleRuns.StepKeepsSafe | src/infrastructure/memory-repositories.ts:115-420 | one step keeps the whole invariant, including that whatever a process holds is an earlier version of a stored record |
| LifecycleRuns.PhaseNeverGoesBack | src/infrastructure/memory-repositories.ts:252-405 | over any run a record's phase never falls, and its identity and grants never change |
| LifecycleRuns.MilestonesAuditedOnce | src/domain/diagnostic-maintenance.ts:132-148 | upload.completed, verification.requested, verification.succeeded and deletion.succeeded are audited at most once per record |
| LifecycleRuns.MilestonesAuditedExactly | src/domain/diagnostic-maintenance.ts:137-145 | and exactly once where only they lead: a record from Pending to Accepted has its completion audited once, an Accepted one its verification, a Deleted or Invalid one its deletion |
| LifecycleRuns.NoDownloadOnceDeleting | src/domain/diagnostic-service.ts:313-352 | a request that reads a record on the deletion side is never granted, however the run goes on |
| LifecycleRuns.NeverDownloadableAgain | src/domain/diagnostic-service.ts:337-342 | a record that is Expired, Deleting, Failed or terminal stays so and is granted to no later request |
| LifecycleRuns.NoDownloadAfterRetention | src/domain/diagnostic-service.ts:314-318 | every granted request started before createdAt plus 72 hours and read the record as Accepted |
| LifecycleRuns.CompletionUsesBoundGrants | src/domain/diagnostic-service.ts:222-239 | a list accepted against any earlier reading covers the archive with grants that are still the bound ones |
| VerifiedArchives.AcceptedWasIntact | src/domain/diagnostic-maintenance.ts:132-148 | in every run a record that is Accepted, or has a verification success in its audit, was found intact earlier by a verifier that held it |
| VerifiedArchives.GrantedWasIntact | src/domain/diagnostic-service.ts:313-352 | so was every archive whose download was granted |
| VerifiedArchives.AcceptedByIntactOnly | src/domain/diagnostic-maintenance.ts:132-156 | the step that makes a record Accepted is that of a verifier that found it intact, and neither damaged nor unavailable |
| VerifiedArchives.DamagedAcceptsNothing | src/domain/diagnostic-maintenance.ts:149-156 | a verifier that found damage, or could not tell, accepts nothing in any run |
| VerifiedArchives.IntactIsAccepted | src/domain/diagnostic-maintenance.ts:132-148 | found intact, a record becomes Accepted without a deadline, with the success in the audit |
| VerifiedArchives.DamagedIsDeleted | src/domain/diagnostic-maintenance.ts:226-244 | found damaged, it becomes Deleting, with the failure in the audit and a removal under way |
| VerifiedArchives.UnavailableIsRetried | src/domain/diagnostic-maintenance.ts:200-224 | not checked, it goes back to Verifying with the attempt counted, or is Expired after the eighth attempt or the deadline |
| VerifiedArchives.LostChangesNothing | src/domain/diagnostic-maintenance.ts:132-156 | a verifier whose record was taken from it changes no record |
| ServiceCalls.BindStores | src/domain/diagnostic-service.ts:148-150 | a creation binds its multipart upload only to a record that is Uploading and unbound |
| ServiceCalls.AbandonStores | src/domain/diagnostic-service.ts:166 | a creation that failed makes its record Failed |
| ServiceCalls.GrantStores | src/domain/diagnostic-service.ts:189-219 | a part is granted exactly on a bound record still Uploading, with its own number and length, and never a second time differently |
| ServiceCalls.DeletionStores | src/domain/diagnostic-maintenance.ts:58-86 | an administrator's deletion expires and audits the record exactly if it is as it was seen and not busy |
| ServiceCalls.CompletionStores | src/domain/diagnostic-service.ts:222-254 | a completion whose list is valid, and whose archive the provider assembles with the right size, makes its record Pending, clears the provider's id and is audited |
| ServiceCalls.CompletionFails | src/domain/diagnostic-service.ts:255-258 | a refused list, a provider error or a wrong size make it Failed |
| ServiceCalls.CompletionIsRefused | src/domain/diagnostic-service.ts:370-379 | a completion begins only within twelve hours of a record still Uploading, and only one claims it |
| ServiceCalls.RequestDecides | src/domain/diagnostic-service.ts:337-352 | a download request is granted, and audited, exactly for an Accepted record that has not expired |
| ServiceCalls.RequestQueues | src/domain/diagnostic-service.ts:320-334 | a stored record that nobody verified is queued until a day later or its expiry, and refused for now |
| ServiceCalls.ConflictRereads | src/domain/diagnostic-service.ts:335-342 | a request that lost the race to queue it decides by what it reads then |
| ServiceCalls.RemovalAnnounces | src/domain/diagnostic-maintenance.ts:35-40 | a removal is audited before anything is deleted |
| ServiceCalls.RemovalDeletes | src/domain/diagnostic-maintenance.ts:41-50 | a removal whose calls are all answered leaves no object and makes its record Deleted, or Invalid after damage |
| ServiceCalls.RemovalFails | src/infrastructure/backblaze-storage.ts:104-127 | an unanswered abort, a failed deletion or a failed last call send the removal to its retry |
| ServiceCalls.RemovalIsLost | src/domain/diagnostic-maintenance.ts:243-262 | of a record that was taken from it cleanup is done, while a rejection for damage still schedules a retry |
| ServiceCalls.RemovalRetries | src/domain/diagnostic-maintenance.ts:273-290 | a failed removal makes its record Failed, counts the attempt, sets the backoff and takes its bytes back into the ledger |
| ServiceCalls.AbandonsOnlyItself | src/domain/diagnostic-maintenance.ts:33 | a process that stops for good, by an abort or a crash, changes nothing else |
| RetainedLedger.AdmissionWithinLimit | src/infrastructure/memory-repositories.ts:145-195 | right after an admission the retained, unreleased bytes are within the limit |
| RetainedLedger.StepKeepsWithinLimit | src/infrastructure/memory-repositories.ts:310-325 | every other step keeps them within the limit plus what failed deletions restored |
| RetainedLedger.LedgerWithinLimit | src/infrastructure/memory-repositories.ts:145-195 | so does every run |
| RetainedLedger.RunWithinLimit | src/infrastructure/memory-repositories.ts:310-325 | in every reachable state the excess is at most the bytes restored since the last admission, and a released record is Expired, Deleting, Deleted or Invalid |
| RetainedLedger.AdmittedWithinLimit | src/domain/diagnostic-service.ts:127-143 | the admission that ends any run leaves nothing restored and the ledger within the limit |
| LifecycleFrames.AttemptFrame | src/infrastructure/memory-repositories.ts:252-284 | a transition changes at most its own record, and only from an expected status |
| LifecycleFrames.DeletionClaimsDue | src/infrastructure/memory-repositories.ts:365-405 | a deletion claim changes exactly due records, and only to Deleting |
| VerificationLease.DeadlineBounds | src/domain/diagnostic-maintenance.ts:12-18 | the deadline is between ten minutes and two hours for every size |
| VerificationLease.DeadlineExactly | src/domain/diagnostic-maintenance.ts:12-18 | it is the time to read the archive at 5 MiB a second, rounded up to milliseconds, plus five minutes, between those bounds |
| VerificationLease.StepKeepsLeased | src/domain/diagnostic-maintenance.ts:88-102 | while workers are prompt, one step keeps one live verifier per record |
| VerificationLease.NeverTwoVerifiers | src/infrastructure/memory-repositories.ts:327-352 | so does every prompt run: stale claims are retaken only from the dead |
| VerificationLease.OneVerifierFewAttempts | src/domain/diagnostic-maintenance.ts:200-224 | in every prompt run from the start no record has two live verifiers and stored attempts never pass seven |
| VerificationLease.EighthFailureExpires | src/domain/diagnostic-maintenance.ts:200-224 | a recorded transient failure expires the record exactly when it is the eighth or time is up, else counts one attempt |
| ProviderDeletion.ProviderCalledAtMostOnce | src/domain/diagnostic-service.ts:229-239 | in every run completeMultipart is called at most once per record |
| ProviderDeletion.StepKeepsConfirmed | src/infrastructure/backblaze-storage.ts:104-127 | one step keeps every open multipart upload with a record that knows its id and is neither complete nor terminal, every stored object with a live record, and whatever a remover was answered true |
| ProviderDeletion.RunKeepsConfirmed | src/infrastructure/backblaze-storage.ts:82-102 | so does every run, also when the provider assembles an archive after its caller timed out or crashed |
| ProviderDeletion.DeletedMeansGone | src/domain/diagnostic-maintenance.ts:41-50 | in every run a record that is Deleted or Invalid has no stored object and no open upload, and however the run goes on its object never appears again; nothing is assumed about time, and two removers may hold one record |
| RetentionEnd.ExpiredIsClaimedUnlessExcused | src/infrastructure/memory-repositories.ts:365-392 | from createdAt plus 72 hours claimExpired takes a record exactly unless it is terminal, inside a Deleting or Completing lease, or in Failed backoff |
| RetentionEnd.MaintenanceService.Cleanup | src/domain/diagnostic-maintenance.ts:30-56 | the cleanup loop has the effect of its specification and returns the batch size |
| RetentionEnd.MaintenanceService.RemoveOne | src/domain/diagnostic-maintenance.ts:34-53 | one claimed record is audited, then Deleted or put in backoff |
| RetentionEnd.CleanupShrinks | src/domain/diagnostic-maintenance.ts:30-56 | with all due and all removals confirmed, a cleanup removes a full batch of live records |
| RetentionEnd.CleanupStepsCleanUp | src/domain/diagnostic-maintenance.ts:30-56 | the steps of one cleanup in the state machine, with removals confirmed, have exactly the effect of the cleanup method |
| RetentionRounds.RunShrinks | src/infrastructure/memory-repositories.ts:252-405 | a run without creations adds no live record and revives none |
| RetentionRounds.InterleavedRemoves | src/domain/diagnostic-maintenance.ts:30-56 | removals under way end with their records deleted, whatever steps of other processes, none of them a remover, come between their own |
| RetentionRounds.CleanupsEmptyTheStore | src/domain/diagnostic-maintenance.ts:30-56 | k cleanups remove k full batches or everything, with any steps before each that create nothing and leave every live record due, and any steps of processes other than removers inside each |
| RetentionRounds.ReachableStoreEmpties | src/domain/diagnostic-policy.ts:32-41 | so from every reachable state enough such cleanups leave no live record |
| QuietRetention.RunIsTimely | src/domain/diagnostic-maintenance.ts:278-279 | in every reachable state no record is dated ahead of the clock and no deletion backoff reaches further than six hours |
| QuietRetention.QuietStoreEmpties | src/domain/diagnostic-policy.ts:32-41 | from every reachable state, cleanups that begin after 72 quiet hours and go on at any later times leave no live record once they are enough |
| CanonicalJson.KeyOrder | src/contracts/canonical-json.ts:5-9 | the enumeration order of rebuilt objects is a strict total order on keys |
| CanonicalOrder.LexExactly | src/contracts/canonical-json.ts:7 | texts compare by the first code unit at which they differ, and a prefix comes first |
| CanonicalOrder.IndexExactly | src/contracts/canonical-json.ts:5-9 | the keys listed first are the decimal numbers below 2^32 - 1 without leading zeros |
| CanonicalOrder.KeyBeforeExactly | src/contracts/canonical-json.ts:5-9 | index keys come first by the number they spell, the others after them by their code units |
| CanonicalOrder.CanonicalMembers | src/contracts/canonical-json.ts:3-10 | the canonical members of an object are its own with canonical values, in that order |
| CanonicalPrinting.NumberPrinted | src/contracts/canonical-json.ts:20-22 | an integer is printed as its decimal digits without a leading zero, after a minus if it is negative |
| CanonicalPrinting.PlainPrinted | src/contracts/canonical-json.ts:20-22 | a string without control characters, quotes, backslashes and surrogates is printed as it is |
| CanonicalPrinting.UnitPrinted | src/contracts/canonical-json.ts:20-22 | every other code unit is escaped as section 7 of RFC 8259 allows, by its short form or by four lower-case digits |
| CanonicalPrinting.SampleScalars | src/contracts/canonical-json.ts:20-22 | the texts of null, true, false, 0 and -12, unit by unit |
| CanonicalPrinting.SampleArray | src/contracts/canonical-json.ts:1-22 | the text of an array, which keeps its order |
| CanonicalPrinting.SampleObject | src/contracts/canonical-json.ts:1-22 | the text of an object whose keys come in the wrong order, unit by unit |
| CanonicalJson.CanonSupported | src/contracts/canonical-json.ts:11-18 | canonicalizing keeps a printable value printable |
| JsonParser.StringRoundTrip | src/contracts/canonical-json.ts:20-22 | a parser undoes string escaping, surrogate pairs and lone surrogates included (section 7 of RFC 8259) |
| JsonParser.NumberRoundTrip | src/contracts/canonical-json.ts:20-22 | and integer printing |
| JsonParser.ValueRoundTrip | src/contracts/canonical-json.ts:20-22 | and the printing of any value, whatever follows it |
| JsonParser.CanonicalTextParses | src/contracts/canonical-json.ts:1-22 | a text is made exactly for supported values, and parses to the canonical value with nothing left over |
| JsonCanonicalForm.ArrangedAlike | src/contracts/canonical-json.ts:5-9 | members with distinct keys arrange alike in whatever order they came |
| JsonCanonicalForm.SameDataSameCanon | src/contracts/canonical-json.ts:1-18 | equal data canonicalizes equally |
| JsonCanonicalForm.EqualTextsMeanEqualData | src/contracts/canonical-json.ts:1-22 | two values print the same exactly when they are equal up to key order at every depth |
| JsonCanonicalForm.ReprintingChangesNothing | src/contracts/canonical-json.ts:20-26 | a reader that parses a text and prints what it read gets the same text and the same data |
| Numbers.NumberMonotone | src/domain/control-state.ts:133-134 | reading digits as numbers rounds them but never reverses an order |
| Numbers.NumberExact | src/domain/control-state.ts:133-134 | below 2^53 nothing is rounded |
| Numbers.InfiniteExactly | src/domain/control-state.ts:133-134 | a part is read as Infinity exactly when it rounds to 2^1024 or more |
| Numbers.NumberInfinite | src/domain/control-state.ts:133-134 | so is every part from 2^1024 on |
| Numbers.RoundedIsNearest | src/domain/control-state.ts:133-134 | what is read is the nearest number of 53 significant bits, and on a tie the even one |
| Versions.CompareIsOrder | src/domain/control-state.ts:132-140 | versions with parts below 2^53 compare as their digits say; canonical ones compare equal only if equal |
| Versions.RollbackGuardedExactly | src/domain/control-state.ts:132-140 | a floor refuses every smaller version exactly when none of its parts is read like the number before it, and no positive part follows one read as Infinity |
| ControlState.ApplyKeepsTidy | src/domain/control-state.ts:25-109 | commands keep codes distinct ignoring case, one schedule a key and one disablement a feature |
| ControlState.TidyIsBounded | src/contracts/control-snapshot.ts:94-114 | so schedules number at most 3 and disablements at most 15 |
| ControlState.ActiveShrinks | src/domain/control-state.ts:142-170 | active codes only become fewer as time passes |
| ControlState.SignedOnceSignedAlways | src/infrastructure/snapshot-signer.ts:41-50 | only too many active codes stop signing, and a state once signed can be signed ever after |
| CommandEffects.LowerAgrees | src/domain/control-state.ts:34 | codes are compared up to the case of ASCII letters |
| CommandEffects.ApplyExactly | src/domain/control-state.ts:25-109 | what each of the nine commands leaves: the new item last, the one it replaces or removes gone, the rest in order, every other field as it was; only setting a release can fail |
| CommandEffects.PayloadExactly | src/domain/control-state.ts:142-170 | the payload lists what has not expired, in order, with the game, schedules and release of the state, for ten minutes |
| CommandEffects.SignExactly | src/infrastructure/snapshot-signer.ts:41-50 | signing makes that payload, and fails exactly when it lists more than 100 codes, 20 schedules or 15 disablements |
| CommandHistory.StateFollowsAudit | src/domain/control-state.ts:25-109 | on every run each list of the state holds, in audit order, exactly what was added and neither replaced nor removed since, and each field what was last set |
| CommandHistory.CodeListedExactly | src/domain/control-state.ts:30-42 | so a code is listed exactly if some audited addition of it is followed by none that adds or removes it, ignoring case |
| CommandText.DataDeterminesCommand | src/contracts/admin-commands.ts:11-73 | commands hold the same data exactly when they are equal, in whatever order keys are stored |
| CommandText.VersionTextsAgree | src/contracts/admin-commands.ts:58 | a version's text determines its spelling, leading zeros included |
| CommandText.FingerprintsAgree | src/infrastructure/memory-repositories.ts:107-113 | fingerprints agree exactly when actor, expected revision and command do |
| ControlLog.ExecuteKeepsConsistent | src/infrastructure/postgres-repositories.ts:60-139 | one command keeps the whole invariant of state, audit, replays and published snapshots; the atomic step is this serializable transaction |
| ControlLog.RepublishKeepsConsistent | src/infrastructure/memory-repositories.ts:86-90 | so does a republish |
| ControlLog.StateIsFoldOfAudit | src/infrastructure/postgres-repositories.ts:60-139 | on every run of such transactions the state is the fold of the audited commands, the revision is their number, each id is applied at most once and can be replayed exactly if applied |
| ControlLog.ReplayReturnsOriginal | src/infrastructure/memory-repositories.ts:53-60 | replaying an accepted envelope returns the original snapshot and changes nothing, after any later steps |
| ControlLog.ReplayAcceptedExactly | src/infrastructure/postgres-repositories.ts:77-97 | an envelope with an applied id is accepted exactly when actor, expected revision and command match; the Postgres test on the stored row agrees for every key order |
| ControlLog.NewestIsCurrent | src/infrastructure/memory-repositories.ts:92-96 | the newest published snapshot has the state's revision and the next revision is still free |
| ControlLog.ValidExactly | src/infrastructure/snapshot-signer.ts:67-89 | a snapshot is fresh exactly within a minute's skew, a lifetime of fifteen minutes and the floor, which alone makes it a rollback |
| ControlLog.FreshExactly | src/infrastructure/snapshot-signer.ts:67-89 | a snapshot signed at t is fresh at n with floor m exactly when t is at most 60 seconds after n, n is before t plus ten minutes and m is between 0 and its revision |
| ControlLog.NeverToldOfRollback | src/infrastructure/snapshot-signer.ts:79 | a client that raises its floor to what it read is never told of a rollback |
| ControlLog.RepublishNeverFails | src/domain/control-state.ts:142-170 | in every state reached with a clock that does not go back, codes, schedules and disablements are bounded and republishing succeeds |
| PublishedHistory.RefusedExactly | src/domain/control-state.ts:111-130 | a release is refused exactly when its version is below the remembered one, or known with other assets |
| PublishedHistory.ExecuteExactly | src/infrastructure/memory-repositories.ts:61-83 | a command with a new id is accepted exactly when it names the current revision, is not refused and leads to no payload that is too long; then its entry, snapshot and replay are stored and nothing else changes |
| PublishedHistory.RepublishExactly | src/infrastructure/memory-repositories.ts:86-90 | a republish stores the current state's payload under its revision, or changes nothing |
| PublishedHistory.SnapshotsShowAudit | src/infrastructure/memory-repositories.ts:47-96 | on every run the snapshot published under a revision shows what that many audited commands led to, without what had expired when it was signed; the newest shows the current state |
| ControlRepository.MemoryControlRepository.ExecuteAndPublish | src/infrastructure/memory-repositories.ts:47-84 | the method has exactly the specified effect and result, errors included, when no other call runs between its checks and its writes, as in the transaction of src/infrastructure/postgres-repositories.ts:60-139 |
| ControlRepository.MemoryControlRepository.Republish | src/infrastructure/memory-repositories.ts:86-90 | publishes the current state under its revision, or changes nothing |
| ControlRepository.MemoryControlRepository.ReadPublished | src/infrastructure/memory-repositories.ts:92-96 | the largest published revision is the state's |
| ControlRepository.ExecuteFresh | src/apps/internal-routes.ts:164-189 | the two-attempt loop, with any steps of others between reading and executing, has its specified effect |
| ControlRepository.FreshAppliesOnce | src/apps/internal-routes.ts:164-189 | success means the command is audited exactly once under its id, an error means the call changed nothing, a conflict means others were applied in both windows |
| ControlRepository.AuthorizedExactly | src/domain/command-service.ts:27-46 | the system alone observes the game and sets or clears releases, and nothing else; people are known by decimal ids and API keys by UUIDs |
| ControlRepository.FreshConflictsExactly | src/apps/internal-routes.ts:164-189 | a new command by one who may give it conflicts exactly when others were applied in both windows |
| ReleaseHistory.FoldRemembers | src/domain/control-state.ts:78-108 | through any clears the state remembers the last accepted release as floor and evidence |
| ReleaseHistory.VersionsNeverDecrease | src/domain/control-state.ts:111-119 | accepted versions never decrease, through any clears, while each of them is such a floor |
| ReleaseHistory.VersionKeepsAssets | src/domain/control-state.ts:120-129 | two releases spelled alike have the same assets if the releases between them are such floors and each with the same numbers is spelled alike |
| ReleaseHistory.ReleasesProgress | src/domain/control-state.ts:111-129 | over every run whose accepted versions are such floors they never decrease, and canonical ones with the same numbers have the same tag, size, digest and source commit |
| ReleaseHistory.ProbedReleasesProgress | src/infrastructure/github-release.ts:7-8 | so over every run of versions the release probe offers: each is later than the ones before it, or equal with the same assets |
| ReleaseHistory.AssetsGuardedExactly | src/domain/control-state.ts:120-129 | acceptance forces the remembered assets exactly when the version is spelled as remembered, or compares below it, numbers rounded, and is refused |
| ReleaseHistory.UnguardedForgetsAssets | src/domain/control-state.ts:111-140 | after any other floor a smaller version is accepted, and then the first one again with any assets |
| ReleaseHistory.LargeVersionForgetsAssets | src/domain/control-state.ts:133-134 | the history in which 2^53 + 1 is read as 2^53, all of it spelled canonically |
| ReleaseHistory.InfiniteVersionSkipsFloor | src/domain/control-state.ts:135-137 | of two different versions that begin with Infinity either is accepted after the other |
| ReleaseHistory.RespellingForgetsAssets | src/domain/control-state.ts:120-140 | after any version any other spelling of its numbers is accepted, and then the first one again with any assets |
| ReleaseHistory.UncanonicalForgetsAssets | src/contracts/admin-commands.ts:58 | so every version that is not canonical lets the assets of the canonical one with its numbers change |
| ReleaseHistory.LeadingZeroForgetsAssets | src/contracts/admin-commands.ts:58 | a history in which a leading zero lets a version's assets change |
| AuditChain.SameTextSameContent | src/infrastructure/postgres-repositories.ts:202-212 | the hashed text determines every field of an entry but its own hash |
| AuditChain.RowsAreChain | src/infrastructure/postgres-repositories.ts:99-132 | the rows the repository writes form a chain that records the audit |
| AuditChain.EqualEndsEqualChains | src/infrastructure/postgres-repositories.ts:99-132 | without a collision, chains that end in the same hash are identical entry by entry |
| AuditChain.NewestHashDeterminesState | src/infrastructure/postgres-repositories.ts:99-132 | after any two runs equal newest hashes mean the same commands by the same actors and the same state |
| TwoLevelQuota.ChargeKeepsBalanced | migrations/007_configuration_shares.sql:50-66 | a charge that fits keeps limits, equal totals and the ledger |
| TwoLevelQuota.PurgeKeepsBalanced | migrations/007_configuration_shares.sql:158-161 | forgetting old days keeps them |
| ConfigurationShares.ShareTables.ReserveCapacity | migrations/007_configuration_shares.sql:31-75 | reserves exactly when both levels fit; a refusal leaves both tables as they were, by compensation |
| ConfigurationShares.ShareTables.Create | migrations/007_configuration_shares.sql:78-120 | invalid, collision and capacity change nothing, created adds the share and charges both levels |
| ConfigurationShares.SharesAreConserved | migrations/007_configuration_shares.sql:31-121 | after any requests each day's global counters are the sums over networks and within limits, every network's counters are within its own, and at both levels they are the totals of the shares created |
| ConfigurationShares.NetworkByteLimitNeverBinds | migrations/007_configuration_shares.sql:57-66 | in every reachable state a request is created exactly without looking at the network's byte limit |
| ConfigurationShares.CreatedExactly | migrations/007_configuration_shares.sql:78-120 | each outcome exactly when the numbers of the procedure say so; a created share is stored as asked for and counted once at both levels |
| ConfigurationShares.CleanupExactly | migrations/007_configuration_shares.sql:132-163 | cleanup deletes only shares that have expired, and exactly the counters of days more than 31 days ago |
| ConfigurationShares.CreatedIsFound | migrations/007_configuration_shares.sql:123-132 | whatever comes in between, a created share is found as it was shared until it expires, and not afterwards |
| Telemetry.TelemetryRepository.ReserveCapacity | migrations/005_telemetry_events.sql:66-105 | the procedure's effect, including the day left charged by a network refusal |
| Telemetry.TelemetryRepository.Insert | src/infrastructure/postgres-telemetry-repository.ts:20-47 | a refused or failed batch leaves nothing behind, an accepted one charges both levels |
| Telemetry.RefusalAloneUnbalances | migrations/005_telemetry_events.sql:92-103 | without the rollback a refusal keeps the totals equal exactly when the day itself was full |
| Telemetry.InsertedExactly | migrations/005_telemetry_events.sql:66-105 | a batch is accepted exactly within the numbers of the procedure, if its insert does not fail, and counted once at both levels |
| Telemetry.CleanupExactly | migrations/005_telemetry_events.sql:131-134 | cleanup deletes exactly the counters of days more than 90 days ago |
| Telemetry.BatchesAreConserved | src/infrastructure/postgres-telemetry-repository.ts:20-47 | after any batches each day's global counters are the sums over networks and within limits, every network's counters are within its own, and at both levels they are the totals of accepted batches |
| NetworkKeys.ExpandUndoesWrite | src/infrastructure/pseudonym.ts:64-82 | expansion undoes every spelling of section 2.2 of RFC 4291 without a dotted tail |
| NetworkKeys.ExpandedIsSpelled | src/infrastructure/pseudonym.ts:64-82 | only such spellings expand |
| NetworkKeys.LowerWrite | src/infrastructure/pseudonym.ts:51 | lower-casing a spelling keeps its meaning |
| NetworkKeys.KeysAgree | src/infrastructure/pseudonym.ts:57-61 | printed keys agree exactly when the first four groups do |
| NetworkKeys.SameNetworkKey | src/infrastructure/pseudonym.ts:50-62 | two spellings get the same key exactly when their first four groups are equal |
| NetworkKeyText.MeaningExactly | src/infrastructure/pseudonym.ts:64-82 | what a spelling denotes, its groups read digit by digit and zeros at its "::" |
| NetworkKeyText.KeyTextExactly | src/infrastructure/pseudonym.ts:50-62 | the key of a spelling is its first four groups in shortest lower-case digits, and "::/64" |
| NetworkKeyText.DottedKeys | src/infrastructure/pseudonym.ts:50-56 | a dotted quad is its own key, also when mapped into IPv6, and another text of digits and dots has none |
| NetworkKeyText.UnidentifiedKey | src/infrastructure/pseudonym.ts:52 | "unidentified-peer" is kept |

## Left out

- HTTP routing, the Discord bot, OAuth, administration pages, provisioning, object listing and list filters: no invariant spans them.
- The storage provider: its calls are steps with any outcome, its versions of one object are one object; part URLs, download URLs and upload tokens are not computed.
- An upload that could not be bound: no record names it and nobody completes it.
- PostgreSQL's engine: each transaction is one step. So is each in-memory call, although the in-memory control repository awaits the signer between reading and writing its state.
- The diagnostic SQL: the in-memory repository is the one modelled.
- reconcileMultipartOrphans: it changes no record, and its aborts are the provider's step that drops an unfinished upload; which uploads it lists is left out.
- partUrl: its reading and its registration of the grant are one step; the status it tests first is tested again by the registration.
- Audit actors and details, file names, object keys, hardware fields and the pre-verification switch: no operation here depends on them.
- Ed25519, SHA-256 and HMAC: a signature is left out, the chain's hash is any function, a pseudonym is any non-empty string.
- Schemas and regular expressions: commands, requests and records hold only values the schemas admit; digests, payloads, UUIDs of API keys and ETags are checked as in the source.
- JsonParser.NumberRoundTrip: numbers in JSON are integers, so the printing of fractions and exponents is not modelled; VerificationDeadline rounds exactly where the source rounds a floating-point quotient.
- Command ids are compared as spelled; the uuid column of the database compares them without case.
- Times spelled by administrators or probes are read by an arbitrary function; the server's own times are integers.
- The order in which canonicalJson finds several unsupported values: the first decides the message, and every one is an error here.
- RetentionEnd.MaintenanceService.Cleanup: the loop runs over an undisturbed repository; its interleaving with other workers is in the state machine.
- RetentionRounds.CleanupsEmptyTheStore: no second remover is stepped inside a cleanup, and every removal is confirmed.
- Uploads with a Pending status and an acceptance deadline from before the current code: no step makes one.
- Audit listings, telemetry summaries, heartbeats and key scopes: filters and folds.
