# Verified model of the certificate-run control plane

A Conductor keeps certificate targets and policies in a registry, plans runs, and has Runners
issue the certificates. This project models the parts of it that must hold whatever interleaves,
fails or crashes, and proves what each of them is for.

| file | what it models |
| --- | --- |
| `Runs.dfy`, `RunProtocol.dfy`, `Scheduler.dfy` | the runs table and its transactions; the scheduler loop, executions, API handlers and restarts as one machine; recording a transition and the sweep as methods |
| `Accounts.dfy`, `AccountTable.dfy`, `Execute.dfy` | ACME account generations as a table invariant; the table's transactions in place; one run's path through a claimed generation |
| `AccountPublication.dfy` | a generation from the Conductor's table to a Runner's disk and back, across both processes |
| `Exchange.dfy`, `AwaitClaim.dfy` | the directory protocol between one Conductor and any number of Runners; the loop that waits for a claim |
| `Publication.dfy` | crash-safe publication of account state and of certificates behind a link |
| `ReplayLedger.dfy`, `Envelopes.dfy` | at-most-once acceptance of signed jobs; signing and verification |
| `Basics.dfy` | what every other file may use |
| `Text.dfy`, `Names.dfy`, `JobSpecs.dfy` | host names, suffixes, authorization; the API handlers and the job specification built from what they let in |
| `TargetNames.dfy` | the table of names the targets own |
| `Contract.dfy`, `Decimal.dfy`, `Provisioning.dfy` | identifiers and limits; sealing account credentials, over ideal cryptography |
| `Ulid.dfy`, `LineSink.dfy`, `Planning.dfy` | identifiers in creation order; redacted line logging; due targets and the planning pass |

## How the model is built

Protocols are deterministic machines: a `Step` names what happens, including which fault strikes,
`Enabled` says when it can, `Apply` what it does. An inductive invariant is proved over `Apply`, and
the main results quantify over every sequence of states such a machine can go through. The scope of
a fault is stated where it is declared: a registry transaction may commit nothing or commit and
still report failure; a process may die between any two file operations; a rename that reports an
error has done nothing.

Code that updates its own fields is a class whose methods are proved against pure functions, and
those functions carry the lemmas. Where calls may fail, the object holds a fixed but arbitrary answer
for each of its calls by number, so that a contract can say which call failed and nothing else can
pretend to. Randomness, clocks and answers of other systems are parameters or nondeterministic values.
Time is counted in nanoseconds as an unbounded integer, except in `Planning.Backoff`, whose durations
are 64-bit and whose every operation is checked for overflow.

## Where the code does something else than it says

* `Backoff` doubles a base per failure up to a cap. Halving the cap rounds down, so a wait that
  doubles to one below an odd cap becomes the cap (`Planning.AnOddCapIsReachedEarly`);
  `Planning.Backoff` says exactly when. Configured caps are whole seconds, an even number of
  nanoseconds, for which it never happens: `Planning.BackoffIsTheCappedDoubling`.
* `awaitClaim` promises that every exit without a name leaves nothing behind. A Runner that writes
  its marker while the claimed directory is being removed keeps that directory in place:
  `AwaitClaim.Launcher.AwaitClaim` promises an empty exchange if and only if no file that a Runner
  put beside those the removal had listed is still there, and
  `AwaitClaim.ARunnerCanOutliveARemoval` shows the interleaving.
* The replay ledger refuses a second presentation only while the marker of the first is not lost.
  A section that reads the marker must not be ahead of the later reading by more than the skew,
  counted in whole seconds; a section that fails to read it judges it by when it was written, and
  then it must not be older than the skew. `ReplayLedger.ReplayNeedsALostMarker` is that condition,
  in both directions, and `ReplayLedger.AFailedReadForgetsAnEnvelope` an envelope accepted twice
  although no clock steps back. The promise is per envelope:
  `ReplayLedger.ASecondExpiryIsAcceptedAgain`.
* `sameNames` counts, which is exact if and only if no wanted name repeats:
  `Names.CountingIsExactForDistinctNames`. Authorized names never repeat.
* `UpdateRun` does not protect a terminal status, and an execution can come to expect one:
  `RunProtocol.WithoutTheInvariantATerminalStatusIsOverwritten`. That it never happens is a property
  of the whole system.
* The scheduler's own validation of a job is unreachable for requests handled one at a time;
  `JobSpecs.OverlappingRequestsCanBreakIt` shows what two overlapping ones can do.
* The redactor promises that a listed value never appears in a log line. Some can: the mask
  `[REDACTED]` shows the value `E`, and completes the value `a[` after an `a`.
  `LineSink.ShowsExactly` is the condition on the value, in both directions, and
  `LineSink.SecretsAreNotLogged` what it means for the log.
* A validity below one second is accepted and can be over before it begins, because the issue time
  is cut to the second: `Envelopes.FreshUnlessShorterThanTheCut`.

## Model

| member | source | states |
|---|---|---|
| `Runs.ForwardUpdateIsConsistent` | internal/conductor/sqlite/sqlite.go:1313-1340 | a compare-and-set from an active status to a later one keeps one active run per target, idle retired targets and the audit log in step with every status, writes its event once, succeeds exactly when the stored status is the expected one, and says whether there is such a run |
| `Runs.CreateIsConsistent` | internal/conductor/sqlite/sqlite.go:1202-1232 | requesting a run keeps the same invariants, succeeds exactly for a target in service with no active run and an unused id, and then adds just the queued run and its event |
| `Runs.ClaimIsConsistent` | internal/conductor/sqlite/sqlite.go:1292-1309 | claiming a queued run keeps them and makes that run starting, changing nothing else |
| `Runs.RetireIsConsistent` | internal/conductor/sqlite/sqlite.go:1090-1125 | a target is retired exactly when it is disabled, not retired yet and has no active run, so retired targets stay idle |
| `Runs.CompareAndSetOverwritesTerminal` | internal/conductor/sqlite/sqlite.go:1313-1340 | told to expect a terminal status, the registry overwrites it and the log no longer agrees |
| `RunProtocol.InvIsInductive` | internal/conductor/scheduler/scheduler.go:180-300 | the in-flight and sweep invariant survives every step of the loop, executions, handlers and restarts, under every registry fault |
| `RunProtocol.InFlightRunIsKept` | internal/conductor/scheduler/scheduler.go:265-300 | no step but its own execution's changes a run in flight |
| `RunProtocol.ExecStepKeeps` | internal/conductor/scheduler/scheduler.go:586-810 | each step of an execution, with re-reads of conflicts, moves only its own run, and forward, and knows what the registry may hold afterwards |
| `RunProtocol.RunLifecycle` | internal/conductor/scheduler/scheduler.go:546-581 | in every interleaving: one active run per target, statuses only move forward, a terminal run never changes, at most one start event, exactly one terminal event, of the matching kind, iff the status is terminal, and no more executions than configured |
| `RunProtocol.LeavesWithTheOutcome` | internal/conductor/scheduler/scheduler.go:899-949 | an execution leaves only after trying to end its run, and with the outcome recorded unless its last call met a fault and it was out of time |
| `RunProtocol.QueuedRunsAreExecuted` | internal/conductor/scheduler/scheduler.go:546-810 | while there is room the oldest queued run can be taken up, executed and ended with whatever its Runner reports, leaving exactly its two events and nothing else changed |
| `RunProtocol.LostStartIsMadeUp` | internal/conductor/scheduler/scheduler.go:757-775 | a start that could not be recorded is recorded, once, when the Runner has finished |
| `RunProtocol.StrandedRunsAreClosed` | internal/conductor/scheduler/scheduler.go:265-300 | a run in flight that no execution stands behind is closed as failed when a sweep comes to it |
| `RunProtocol.RecoveryComesFirst` | internal/conductor/scheduler/scheduler.go:174-258 | a process that starts plans nothing before it has swept the registry; when that sweep has gone through no run is in flight; every turn ends with a sweep |
| `RunProtocol.HandlersTakeEffect` | internal/conductor/sqlite/sqlite.go:1090-1340 | without a fault the steps of handlers and planner do what they are for wherever the rules allow it, and a lost one does nothing |
| `RunProtocol.WithoutTheInvariantATerminalStatusIsOverwritten` | internal/conductor/scheduler/scheduler.go:899-949 | a run closed behind its execution's back would end with its terminal status replaced |
| `Scheduler.Scheduler.Record` | internal/conductor/scheduler/scheduler.go:899-949 | recording a transition ends; when no call meets a fault it succeeds, whatever the window; it fails only after a last call that did, and only out of time or draining; on success the registry holds the wanted status; its event is written once at most even over writes that committed and reported failure; no other run is touched; each pause is the next of the doubling sequence and is followed by another attempt |
| `Scheduler.Scheduler.Turn` | internal/conductor/scheduler/scheduler.go:904-936 | one attempt with its re-read records, or once tries again with what the registry holds, or has met a fault in its last call, and leaves the belief about the run true |
| `Scheduler.AttemptMovesOn` | internal/conductor/scheduler/scheduler.go:903-911 | a compare-and-set under any fault leaves the run where it was or at the wanted status, with its event exactly then |
| `Scheduler.Scheduler.Sweep` | internal/conductor/scheduler/scheduler.go:265-300 | closes only runs in flight in the registry but not in this process, all of them unless its last call meets a fault, and counts them; one closed by a call that reported failure is the only one it may not count |
| `Scheduler.Registry.UpdateRun` | internal/conductor/sqlite/sqlite.go:1313-1340 | the transaction in place, under a lost write or a late failure, is the compare-and-set |
| `Scheduler.Registry.CreateRun` | internal/conductor/sqlite/sqlite.go:1202-1232 | the transaction in place, under the same faults, is the guarded insertion |
| `Scheduler.Registry.ListActiveRuns` | internal/conductor/sqlite/sqlite.go:1287-1289 | exactly the active runs, oldest first |
| `Accounts.RequestAccepts` | internal/conductor/sqlite/sqlite.go:1433-1469 | a request is accepted exactly for the next number with nothing pending and the scope's target in service |
| `Accounts.ActivationKeeps` | internal/conductor/sqlite/sqlite.go:1541-1597 | completing a registered generation keeps the table invariant; the new active one lies above what it retires |
| `Accounts.OpKeeps` | internal/conductor/sqlite/sqlite.go:1433-1618 | every transaction keeps the table invariant, decides an outcome once and never lowers or loses the active generation |
| `Accounts.AccountLifecycle` | internal/conductor/sqlite/sqlite.go:1433-1618 | over every history: generations are exactly 1 to the highest, only the highest may be pending, one is active, retired ones lie below it, a payload exactly while pending, and the active generation never falls or disappears |
| `Accounts.AttachedUntilResolved` | internal/conductor/sqlite/sqlite.go:1472-1618 | an attached generation keeps its row under every transaction but the release or completion by its own run and the retirement of its own target |
| `Accounts.CancelWithdraws` | internal/conductor/sqlite/sqlite.go:1600-1618 | over every history a cancellation is accepted exactly for a pending unattached request, which is then cancelled, without credential and run, for good, so that no later claim hands it out; nothing else changes; otherwise the answer says whether there is such a request |
| `Accounts.DecidedIsFinal` | internal/conductor/sqlite/sqlite.go:1472-1618 | a cancelled, failed or retired generation has neither credential nor run, never changes again and is never claimed |
| `Accounts.GenerationsAreOneToHighest` | internal/conductor/sqlite/sqlite.go:1433-1469 | the numbering, and that a pending generation is the highest |
| `AccountTable.AccountTable.Complete` | internal/conductor/sqlite/sqlite.go:1541-1597 | succeeds exactly when the generation is pending and attached to the run; then its row is active or failed, without credential and run, and an activation retires what was active; it retires the old generation before it activates the new one, and undoes the retirement otherwise |
| `AccountTable.AccountTable.Request` | internal/conductor/sqlite/sqlite.go:1433-1469 | the request against the highest recorded generation: accepted exactly for the next number with nothing pending and a scope in service; one new pending row, or unchanged rows |
| `AccountTable.AccountTable.Claim` | internal/conductor/sqlite/sqlite.go:1472-1526 | attaches the lowest pending unattached generation of the account, if there is one, changes nothing else of its row or any other, and hands out its payload |
| `AccountTable.AccountTable.Release` | internal/conductor/sqlite/sqlite.go:1529-1538 | detaches a generation from the run it is attached to and from no other |
| `AccountTable.AccountTable.Cancel` | internal/conductor/sqlite/sqlite.go:1600-1618 | answers Ok exactly for a pending unattached generation, which then is cancelled, without credential and run, with every other row unchanged; NotFound exactly for an unknown one, Conflict for the others, with nothing changed |
| `AccountTable.AccountTable.CancelScope` | internal/conductor/sqlite/sqlite.go:1126-1162 | retiring a target cancels exactly the pending requests of its own accounts |
| `AccountTable.AccountTable.ActiveGeneration` | internal/conductor/sqlite/sqlite.go:1621-1631 | the active generation, or zero when there is none |
| `Execute.Execution.Execute` | internal/conductor/scheduler/scheduler.go:615-810 | the run succeeds exactly when it passes every check, has an account, is launched and its Runner reports success; it is cancelled exactly when target or policy were withdrawn or changed since, or it was cancelled before, at or after the start or by the Runner; it fails otherwise; a claimed generation is resolved exactly once, with the fate its outcome calls for, before the run ends; and the job names the claimed generation with its credential, or else the active one |
| `Execute.Execution.TakeAccount` | internal/conductor/scheduler/scheduler.go:664-718 | claims exactly when there is something to claim, falls back on the active generation, and has an account exactly when the credential is readable, a generation is active, or the binding keeps one of its own |
| `Execute.Execution.FinishProvisioning` | internal/conductor/scheduler/scheduler.go:837-883 | burns a generation of unknown outcome, completes one the Runner reported, gives back one it never attempted |
| `Execute.NothingStaysAttached` | internal/conductor/scheduler/scheduler.go:664-883 | afterwards nothing is attached to the run, the generation is active exactly on a matching report of success, and what was given back is as if never claimed |
| `Execute.RunKeepsAccounts` | internal/conductor/scheduler/scheduler.go:664-883 | claiming and resolving together are steps the account lifecycle allows |
| `Execute.ResolvedDespiteOthers` | internal/conductor/scheduler/scheduler.go:664-883 | the same with every other writer at work between claim and resolution: the claimed row is decided as the outcome calls for, and nothing else but the predecessor of an activated generation |
| `AccountPublication.RootsNeverOverlap` | internal/runner/account.go:48-69 | no two generations share a directory and none lies inside another, whatever the target is called |
| `AccountPublication.PersistKeeps` | internal/runner/reconcile.go:615-632 | publication keeps every generation's root registered: a provisioning run publishes a registered account only |
| `AccountPublication.ResolveKeeps` | internal/conductor/scheduler/scheduler.go:837-883 | a generation becomes active only when its own root holds a registered account |
| `AccountPublication.InvIsInductive` | internal/runner/reconcile.go:390-642 | the invariant linking table, jobs, Runners, published roots and reports survives every step of both sides, and nothing published is lost |
| `AccountPublication.ActiveIsPublished` | internal/runner/account.go:107-125 | an active generation has, from then on, a registered account under exactly its own root, published for it |
| `AccountPublication.ActiveJobsFindTheirAccount` | internal/runner/reconcile.go:562-570 | a run given the active generation is never refused for lack of an account |
| `AccountPublication.ProvisioningActivates` | internal/runner/reconcile.go:520-642 | a provisioning run whose Runner registers an account and meets no fault publishes it under the generation's root, reports it registered, and the report activates the generation |
| `AccountPublication.CheckedExactly` | internal/runner/reconcile.go:536-572 | a generation is provisioned only while it is not registered and used only when it is; the legacy account is never refused |
| `AccountPublication.UnsurePublicationIsReportedFailed` | internal/runner/reconcile.go:615-633 | registered is reported exactly when the publication succeeded and could be read back, so not when it took place but reported failure |
| `AccountPublication.OtherRunsPublishToo` | internal/runner/reconcile.go:615-620 | a run that does not provision publishes whatever account lego left |
| `AccountPublication.JobsNameTheActiveGeneration` | internal/conductor/scheduler/scheduler.go:704-718 | a run that claims nothing is told the active generation, or none when there is none |
| `Exchange.SlotStep` | internal/exchange/exchange.go:82-222 | every file operation of either side keeps one run's directories in order: pending exactly from the offer to the claim or withdrawal |
| `Exchange.InvIsInductive` | internal/exchange/exchange.go:82-222 | the same for all runs, Runners and observers together |
| `Exchange.ExchangeSafety` | internal/exchange/exchange.go:82-165 | pending and claimed directories hold the complete job, a run claimed at any time is taken back at no other, and a standing offer is pending or claimed |
| `Exchange.PublishOffers` | internal/exchange/exchange.go:82-113 | in whatever pieces its file arrives, a publication that meets no failure and has ended has offered the job, the whole of it and nothing else, and the last piece brings it to its end |
| `Exchange.FailedPublishCleansUp` | internal/exchange/exchange.go:104-111 | one that fails removes what it has made and offers nothing |
| `Exchange.TakenAndAnswered` | internal/exchange/exchange.go:188-275 | a Runner finds just the offered job, and what it writes and commits is what is read there |
| `Exchange.ClaimedOnce` | internal/exchange/exchange.go:188-222 | at most one step of all Runners claims a run |
| `Exchange.TriesThemAll` | internal/exchange/exchange.go:206-221 | a Runner tries the listed names in order until one is still there |
| `Exchange.TakesTheOldest` | internal/exchange/exchange.go:188-222 | nothing older that was pending at the listing is still pending when a Runner takes a run |
| `Exchange.StateOfFindsOffered` | internal/exchange/exchange.go:125-146 | absent is said of an offered run only after it was taken back or its removal began; the other answers were true when looked at |
| `Exchange.TheOtherOrderMissesARun` | internal/exchange/exchange.go:125-146 | looking in the other order would miss a run taken in between |
| `Exchange.OthersOnlyTakeAndAdd` | internal/exchange/exchange.go:188-231 | all anybody but its own Conductor does to an offered run is to take it and to add files once it is taken |
| `AwaitClaim.Launcher.AwaitClaim` | internal/conductor/launcher/acajob/acajob.go:309-374 | ends in every interleaving; the name it takes is the trimmed content of the marker in the claimed directory, valid, at its last look, and every other outcome follows a look that found none or an unusable one; without share failures an exit without a name leaves nothing, unless a file that a Runner put beside those a removal had listed is still there, and then just such files; the offer never seems to disappear; each outcome had its cause, a failure of the share one of its own operations |
| `AwaitClaim.Share.Withdraw` | internal/exchange/exchange.go:148-165 | takes back and removes a pending run, or finds that it was taken |
| `AwaitClaim.Share.Remove` | internal/exchange/exchange.go:167-170 | removes the claimed directory exactly when no Runner has meanwhile put a file there that is not on the list and still there; otherwise just those files are left |
| `AwaitClaim.Share.StateOf` | internal/exchange/exchange.go:125-146 | of a standing offer the two looks never say absent, even with Runners between them |
| `AwaitClaim.Share.ReadExecution` | internal/exchange/exchange.go:233-246 | a name is the valid trimmed content of the file in the claimed directory; missing means that there is no such file; unusable, without a failure, that its content is no valid name |
| `AwaitClaim.MarkedNameIsRead` | internal/exchange/exchange.go:224-246 | the name a Runner records is the name that is read |
| `AwaitClaim.ARunnerCanOutliveARemoval` | internal/conductor/launcher/acajob/acajob.go:355-371 | a removal and a write interleave so that the directory cannot be removed |
| `Publication.NewNamesAreWellFormed` | internal/runner/workdir.go:185-187 | the version names both publishers make are the ones readers and pruning recognize |
| `Publication.InvIsInductive` | internal/runner/workdir.go:271-367 | the link names a complete version after every step, failure or crash of writers and readers under the lock |
| `Publication.FailKeeps` | internal/store/filesystem/filesystem.go:172-246 | every error path leaves the published version alone |
| `Publication.RemovalKeeps` | internal/store/filesystem/filesystem.go:255-272 | pruning and cleaning up never touch the published version |
| `Publication.OnlySwapsShow` | internal/runner/workdir.go:203-242 | the layout check always accepts, and only swapping the link changes what is seen, to the whole new tree |
| `Publication.PublicationIsAtomic` | internal/runner/workdir.go:271-367 | wherever a writer stops, the link shows what it did before or the whole new tree; after success the new tree |
| `Publication.FaultlessPublicationShows` | internal/runner/workdir.go:294-367 | a publication that meets no failure and no crash can end only by reporting success with the new tree on show |
| `Publication.SomeStepIsOpen` | internal/runner/workdir.go:294-367 | and it never gets stuck: with free names there is always a step that is no failure and brings the writer nearer to its end |
| `Publication.FailuresCleanUp` | internal/store/filesystem/filesystem.go:172-246 | a writer that fails before the swap goes on to remove the directory and the link it made |
| `Publication.CleanUpRemoves` | internal/store/filesystem/filesystem.go:172-246 | file by file, and then the directory |
| `Publication.EndedWritersLetGo` | internal/runner/workdir.go:294-367 | a writer that has ended, however, gives the lock back and changes nothing |
| `Publication.PruningRemoves` | internal/store/filesystem/filesystem.go:255-272 | pruning can remove every other version |
| `Publication.ReadersGetOneVersion` | internal/runner/workdir.go:244-269 | a finished reader has exactly the one published version, still current |
| `Publication.AUsedNameDamagesTheVersion` | internal/runner/workdir.go:322-329 | copying into an existing version of the same name would leave a mixed one published |
| `Publication.ACertificateVersionIsNeverRenamedOver` | internal/store/filesystem/filesystem.go:222-225 | a certificate version of the same name is safe: the rename onto it fails |
| `ReplayLedger.Ledger.RecordJob` | internal/runner/replay.go:32-79 | prunes, then accepts a run exactly when it has no marker left and calls it a replay when it has one; it fails exactly when using the directory, opening the marker, or writing and syncing a new one fails; with no failing operation the answer depends on the unexpired markers alone |
| `ReplayLedger.Ledger.Prune` | internal/runner/replay.go:81-111 | removes only markers before the cutoff, judged by the expiry they hold or else by when they were written; with no failing operation, exactly those |
| `ReplayLedger.NoSectionPrunesItsOwn` | internal/runner/reconcile.go:373-379 | with a skew of a second or more, the presentation of an envelope that verifies can lose its marker only by failing to read one older than the skew |
| `ReplayLedger.AcceptedAtMostOnce` | internal/runner/replay.go:37-111 | among any number of Runners an envelope is accepted at most once: if sections that read its marker are not ahead of the last one by more than the skew, in whole seconds, and sections that cannot read it find it no older than the skew |
| `ReplayLedger.SmallStepsBackAreSafe` | internal/runner/replay.go:55-55 | steps back by at most the skew less a second meet the condition |
| `ReplayLedger.ReplayNeedsALostMarker` | internal/runner/replay.go:37-111 | the condition is exact, for readings, failed reads and the age of the marker: otherwise some envelope is accepted twice |
| `ReplayLedger.AFailedReadForgetsAnEnvelope` | internal/runner/replay.go:94-108 | an envelope valid for a day is accepted again five minutes and a second later when its marker cannot be read |
| `ReplayLedger.ASecondExpiryIsAcceptedAgain` | internal/runner/replay.go:22-28 | a second envelope of the same run with a later expiry is accepted after pruning |
| `Envelopes.SignedVerifiesInItsWindow` | pkg/api/v1alpha1/signedjob.go:212-346 | a signed envelope verifies with the signed payload exactly within its window, and fails for the right reason outside |
| `Envelopes.SignsExactly` | pkg/api/v1alpha1/signedjob.go:212-250 | signing refuses nothing but a validity out of bounds, a malformed nonce and a document too large, and signs both parts together |
| `Envelopes.FreshUnlessShorterThanTheCut` | pkg/api/v1alpha1/signedjob.go:216-223 | when issued it is valid unless the validity is shorter than what truncation took off |
| `Envelopes.VerifiedWasSigned` | pkg/api/v1alpha1/signedjob.go:312-346 | what verifies was signed, header and payload together, under a trusted key, within the window the ledger relies on, and names the one algorithm, a well-formed key and a well-formed nonce |
| `Envelopes.SigningInputIsInjective` | pkg/api/v1alpha1/signedjob.go:252-254 | header and payload cannot be cut differently |
| `Names.NormalizeFQDN` | internal/policy/fqdn.go:49-109 | computes the canonical form, or the first problem in order |
| `Names.NormalizedExactly` | internal/policy/fqdn.go:49-109 | accepts exactly the inputs whose trimmed, lower-cased form is a host name |
| `Names.ProblemsAreReal` | internal/policy/fqdn.go:62-134 | a refused name has the problem it is refused for |
| `Names.FixedPointsAreHostNames` | internal/policy/fqdn.go:49-109 | canonical names are exactly the fixed points |
| `Names.NormalizationIsIdempotent` | internal/policy/fqdn.go:24-109 | normalizing twice is normalizing once, within the limits of section 2.3.4 of RFC 1035 |
| `Names.ValidateLabel` | internal/policy/fqdn.go:111-134 | the first problem of a label |
| `Names.SuffixesAreWholeLabels` | internal/policy/fqdn.go:166-191 | a name matches a suffix exactly when the suffix's labels are its last ones |
| `Names.SuffixesAreTransitive` | internal/policy/fqdn.go:166-191 | being under a suffix is transitive |
| `Names.NormalizePolicy` | internal/policy/fqdn.go:203-218 | succeeds exactly for a non-empty list of suffixes without wildcards, each in canonical form |
| `Names.Evaluate` | internal/policy/fqdn.go:220-244 | accepts exactly the names a valid policy covers label by label, wildcards only where allowed |
| `Names.CheckDistinct` | internal/policy/names.go:31-43 | finds exactly whether a name repeats |
| `Names.Authorize` | internal/policy/authorize.go:66-105 | accepts exactly the requests with few enough, canonical, covered, distinct names and allowed bindings, and says which condition fails first |
| `Names.SameNames` | internal/runner/reconcile.go:828-842 | compares by count and containment, ignoring case |
| `Names.CountingIsExactForDistinctNames` | internal/runner/reconcile.go:825-842 | that comparison is equality of the two sets for every certificate iff no wanted name repeats |
| `Names.TheCountAcceptsOneNameTooMany` | internal/runner/reconcile.go:825-842 | a repeated wanted name lets a certificate with another name through |
| `Names.AuthorizedNamesAreDistinct` | internal/policy/authorize.go:66-93 | authorized names never repeat, even ignoring case |
| `JobSpecs.ValidExactlyWhenNamesFit` | pkg/api/v1alpha1/validate.go:104-261 | a job built from an accepted target and policy is valid exactly when the names fit the policy |
| `JobSpecs.BuiltSpecsAreValid` | internal/conductor/scheduler/scheduler.go:951-981 | for every target in service and any account it may use, the built job passes validation |
| `JobSpecs.RunnersOfTheBindingsAccept` | internal/conductor/scheduler/scheduler.go:957-981 | run, target, revision, names, bindings, account and policy snapshot arrive unchanged, and a Runner authorizes the job exactly when it allows its names, that many of them, and each of the three bindings for what it is |
| `JobSpecs.OwnRunnersAccept` | internal/runner/reconcile.go:393-402 | so a Runner set up with the policy's suffixes and bound and the three bindings accepts every job of every target in service |
| `JobSpecs.OverlappingRequestsCanBreakIt` | internal/conductor/api/policies.go:188-238 | a target created between check and write of a policy update can be rejected |
| `JobSpecs.OverlapsExist` | internal/conductor/api/policies.go:188-238 | such an overlap exists: a policy about to allow one name, and a target of two |
| `JobSpecs.Api.ApplyPolicyInput` | internal/conductor/api/policies.go:63-131 | accepts exactly the inputs that describe a policy, display name included; the policy is field by field the one asked for, what is left out taken from the one it replaces |
| `JobSpecs.Api.CreatePolicy` | internal/conductor/api/policies.go:151-172 | creates the described policy exactly when the input is acceptable and the registry does not refuse it |
| `JobSpecs.Api.CoversTargets` | internal/conductor/api/policies.go:207-224 | whether every target in service under the policy still fits |
| `JobSpecs.Api.UpdatePolicy` | internal/conductor/api/policies.go:188-238 | replaces a policy exactly when the input is acceptable, no target offends and the registry does not refuse it, and keeps the registry good |
| `JobSpecs.Api.CreateTarget` | internal/conductor/api/targets.go:264-316 | creates the target exactly when names, owner, bindings and policy are acceptable and the registry does not refuse it; it has the canonical names and otherwise what was asked for, at its first revision |
| `JobSpecs.Api.UpdateTarget` | internal/conductor/api/targets.go:337-431 | changes the named fields, of which there must be one, and nothing else, exactly when the revision is current and the result is acceptable |
| `JobSpecs.Api.SetTargetEnabled` | internal/conductor/api/targets.go:436-477 | sets the flag of a target in service, at its next revision and only when it changes; the registry stays good without a policy check |
| `JobSpecs.Api.RequestProvisioning` | internal/conductor/api/acme_accounts.go:253-356 | records a request exactly when provisioning is configured, the binding takes credentials and keeps such accounts, the target is in service under it, and generation, payload form, version and key identifier fit |
| `JobSpecs.CheckNames` | internal/conductor/api/targets.go:184-199 | whether every name is permitted, distinct and few enough |
| `JobSpecs.NormalizeAll` | internal/conductor/api/targets.go:163-182 | normalizes a list in order, or fails when one entry is no name |
| `TargetNames.Table.ClaimNames` | internal/conductor/sqlite/sqlite.go:830-859 | succeeds exactly when nobody else owns a wanted name and no unowned one is wanted twice |
| `TargetNames.Table.CreateTarget` | internal/conductor/sqlite/sqlite.go:864-897 | when it succeeds, the state after it, and rollback of the inserted row when a name is taken |
| `TargetNames.Table.UpdateTarget` | internal/conductor/sqlite/sqlite.go:945-993 | the same for an update, which has deleted rows by the time it meets a conflict; retired rows never change |
| `TargetNames.Table.RetireTarget` | internal/conductor/sqlite/sqlite.go:1090-1125 | retires a disabled idle target and releases every name |
| `TargetNames.AgreementIsOwnership` | internal/conductor/sqlite/sqlite.go:196-207 | the name table is the one relation its targets define, and no name has two owners |
| `TargetNames.UpdateAgrees` | internal/conductor/sqlite/sqlite.go:975-989 | dropping all names but the FQDN and claiming the new ones keeps table and targets in agreement |
| `Provisioning.AadIsInjective` | pkg/api/v1alpha1/provisioning.go:163-201 | the authenticated data determines key, binding, scope and generation, across both versions |
| `Provisioning.SealedIsWellFormed` | pkg/api/v1alpha1/provisioning.go:229-287 | whatever can be sealed passes the contract's shape and size checks |
| `Provisioning.SealsExactly` | pkg/api/v1alpha1/provisioning.go:214-287 | sealing refuses nothing but a malformed credential, nonce or destination, and marks the version of the scope |
| `Provisioning.OpensExactlyWhereSealed` | pkg/api/v1alpha1/provisioning.go:254-357 | opening returns the sealed credential exactly for the same key, binding, scope and generation |
| `Ulid.EncodingIsBase32` | internal/conductor/registry/id.go:81-112 | the 26 characters are the base 32 rendering of the 128-bit number |
| `Ulid.EncodingKeepsOrder` | internal/conductor/registry/id.go:81-112 | identifiers compare, and are equal, exactly like the numbers |
| `Ulid.EncodedIsAnIdentifier` | internal/conductor/registry/id.go:13-16 | they are identifiers of the contract |
| `Ulid.Generator.Increment` | internal/conductor/registry/id.go:70-79 | adds one with carry, and fails exactly on all ones |
| `Ulid.Generator.NewIDAt` | internal/conductor/registry/id.go:33-62 | the new identifier is after the last one, whatever the clock reads: the next counter while the clock stands still or steps back, a fresh one at the next millisecond when the counter is exhausted, and at the time read otherwise |
| `Ulid.Generator.NewIDs` | internal/conductor/registry/id.go:33-62 | any sequence of calls yields strictly increasing identifiers |
| `LineSink.LinesAreTheStream` | internal/runner/lego/lego.go:334-349 | the lines are the stream cut at its newlines and nowhere else |
| `LineSink.LinesOfRejoined` | internal/runner/lego/lego.go:334-349 | and conversely the lines of lines ended one by one are those lines |
| `LineSink.ShownIsTheLine` | internal/runner/lego/lego.go:351-371 | a line is fed as it came, up to its bound, without the carriage returns at its end |
| `LineSink.LineSink.Write` | internal/runner/lego/lego.go:334-349 | what the sink holds after a write is that of the stream so far, however it was cut |
| `LineSink.LineSink.Append` | internal/runner/lego/lego.go:351-365 | a line is kept up to 8 KiB and marked truncated iff it was longer |
| `LineSink.LineSink.Emit` | internal/runner/lego/lego.go:367-384 | each line is fed once to the redactor and logged, classified and kept in the tail exactly if the redactor keeps it |
| `LineSink.LineSink.Flush` | internal/runner/lego/lego.go:433-440 | ends an unfinished line and does nothing otherwise |
| `LineSink.LineSink.Pump` | internal/runner/lego/lego.go:303-440 | for every way of cutting a stream into writes, log, tail and failure depend on the stream alone |
| `LineSink.FirstKnownIsFirst` | internal/runner/lego/lego.go:372-374 | the failure is the classification of the first line that has one |
| `LineSink.BlocksAreDropped` | internal/runner/lego/lego.go:479-495 | inside a PEM block nothing is logged up to its end or the two hundredth line |
| `LineSink.RedactorsDropBlocks` | internal/runner/lego/lego.go:482-489 | the redactor is one that drops blocks, whatever its secrets |
| `LineSink.BlockInAStream` | internal/runner/lego/lego.go:482-495 | of a PEM block in a stream one entry says that it was there, and nothing else of it is logged; what follows is treated as before it |
| `LineSink.PrivateKeysAreReplaced` | internal/runner/lego/lego.go:497-499 | a line outside blocks that speaks of a private key is replaced too |
| `LineSink.SecretsAreNotLogged` | internal/runner/lego/lego.go:462-502 | a listed secret that cannot show is in no entry, whatever the stream and the other secrets |
| `LineSink.ShowsExactly` | internal/runner/lego/lego.go:462-513 | which secrets can: exactly the printable ones that occur in the mark of a block, or that have no such mark and contain a question mark or overlap the mask; each of them does in some line |
| `LineSink.ReplacesOccurrences` | internal/runner/lego/lego.go:500-502 | a replacement leaves everything between the occurrences as it is, and no occurrence there |
| `LineSink.OrdinaryLinesAreLogged` | internal/runner/lego/lego.go:482-513 | a printable line with no mark and no secret is logged as it is |
| `LineSink.LogIsPrintable` | internal/runner/lego/lego.go:503-513 | no entry holds a character that could forge a record or drive a terminal |
| `Planning.Backoff` | internal/conductor/scheduler/scheduler.go:529-544 | computes, without overflow, min(max, base * 2^(n-1)) exactly unless doubling arrives one below the cap |
| `Planning.BackoffIsTheCappedDoubling` | internal/conductor/scheduler/scheduler.go:526-544 | the same of the function the other members use, and that it never happens for an even cap, so for no cap configured in whole seconds |
| `Planning.AnOddCapIsReachedEarly` | internal/conductor/scheduler/scheduler.go:534-539 | an input on which the cap is reached early |
| `Planning.DueIsMonotone` | internal/conductor/scheduler/scheduler.go:486-525 | a due target stays due |
| `Planning.DueFrom` | internal/conductor/scheduler/scheduler.go:486-525 | a target in service with no active run is due exactly from its due time on: the later of the end of its backoff and the start of its renewal window, where each applies |
| `Planning.DueChangesOnce` | internal/conductor/scheduler/scheduler.go:486-525 | between a moment it is not due and one it is lies the due time, at which it is due and just before which it is not |
| `Planning.WaitsOutTheBackoff` | internal/conductor/scheduler/scheduler.go:496-511 | after a bad end the backoff counts from when the run finished, or from its request when that is not known, and a target that never succeeded is due exactly when it is over |
| `Planning.OnlyLaterFailuresHoldARequestBack` | internal/conductor/scheduler/scheduler.go:415-430 | a pending request is held back only by the bad end of a run requested no earlier, and for the same backoff |
| `Planning.EarlierExpiryGoesFirst` | internal/conductor/scheduler/scheduler.go:449-460 | of two certificates the one expiring in an earlier second goes first, of two in the same second the older target's, and a target without one before both |
| `Planning.Scheduler.PlanBinding` | internal/conductor/scheduler/scheduler.go:432-482 | queues at most one run, only when none is queued, for the target that may run whose certificate expires soonest, in whole seconds, the older target first |
| `Planning.Scheduler.Plan` | internal/conductor/scheduler/scheduler.go:306-379 | after an error-free pass every due target has a run, every binding's request is carried or nobody can carry it, nothing else was queued, and a queued run is recorded as requested now |

## Left out

- SQL, JSON, migrations and timestamps as text: a transaction is one update of the tables with its indexes and constraints as guards.
- Power loss: only process crashes are modelled, since nested directories and the first publication are not synced all the way up.
- `Exchange`: listing the pending directory is one step; names that leave while it is read may still be listed.
- `AccountPublication`: a publication is one step here, which `Publication` justifies; that a Runner's report is genuine and that lego never removes a registration are assumed.
- `Execute.Execution.Execute`: registry calls succeed and nobody else writes the table, which `Execute.ResolvedDespiteOthers` makes up for; after a Conductor crash a generation stays attached to a run that has ended, as in the program.
- `Accounts`: audit events of accounts, and the times at which generations were created, are not recorded.
- `Names.NormalizeFQDN`: input is a sequence of Unicode characters; malformed UTF-8 is not modelled.
- `JobSpecs.Api.CreateTarget`: which characters are printable in an owner is a parameter, and so is a refusal by the registry here and in the other handlers; audit events of refused requests are not recorded.
- `ReplayLedger.Ledger.RecordJob`: a marker keeps the modification time it was written with.
- `Envelopes.VerifiedWasSigned`: real signatures, base64 and JSON are replaced by an ideal signature and decoders given as parameters.
- `Provisioning.OpensExactlyWhereSealed`: key agreement, key derivation and authenticated encryption are ideal; two keys may share an identifier.
- `LineSink.LineSink.Emit`: characters are single bytes, and the classification of failures and the masking of credential shapes are parameters; what is left of a secret that the bound of a line cuts in two is not that secret any more, and is logged.
- `Ulid.Generator.NewIDAt`: timestamps fit 48 bits.
- `Planning.Scheduler.Plan`: one pass without errors, other writers or a moving clock; that a target has no second active run is shown for all writers in `RunProtocol`.
- Process spawning, signals, lock polling, HTTP, OIDC, configuration, key generation, certificates, the Azure API and the DNS delegation check.
- Polling of a claimed execution until its result, and the parsing of results.
