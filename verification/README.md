# RoomGoblin hub: verified models

RoomGoblin is an appliance hub for a classroom. Most of it is glue between services, but a few
components carry hand-written protocols whose mistakes would lose data: a transaction that
replaces several directory roots at once, an upgrade with a cold snapshot, resumable uploads that
race their own deletion, a firmware updater whose writers overwrite each other's state, a scheduler
history that is truncated but must not forget a Stop, a school calendar, and an encrypted recovery
bundle that two programs in two languages must judge alike. This project models those components
and proves what they are for.

How the models are made:

* A component that changes its state step by step is a class with that state, and every durable
  effect is one step. `Durability.Step` marks a place where an operation may raise or the process
  may die; every contract therefore holds for every placement of failures and deaths. A method
  named `RunWithRestarts` or `Run` then covers whole runs: any number of restarts, each of which may
  die anywhere, or any sequence of events in any order.
* Ghost counters (`trouble`, `raised`) count the steps that failed, so contracts also say what a run
  without a failure, or with exactly one, must end in.
* In JavaScript, each stretch between two `await`s is one method, and the events of `Run` choose
  which suspended call goes on next.
* Pure decisions are functions, and the laws about them are lemmas. A loop of the source that
  computes a value is a method with that loop, proved equal to the function the laws are about.
* Cryptography, hashing, JSON text, base64, Unicode case folding and the order of names are
  parameters. The laws they need are hypotheses of the lemmas that use them: `RecoveryEnvelope.Sound`
  asks the JSON text to be read back only of values that a JavaScript program can hold
  (`CanonicalJson.WellFormed`), `Ordering.WeakOrder` lets the locale call distinct names equal,
  `Ordering.TotalOrder` is the order of JSON keys, and `ArchiveInventory.Digests` is the form of a
  digest.

| file | component |
|---|---|
| `Values.dfy` | options and bytes |
| `Durability.dfy` | trees under names, renames, copies and removals that stop half way |
| `FullRecoveryModel.dfy`, `FullRecovery.dfy` | the journaled full-recovery transaction of the host agent |
| `MusicUpdates.dfy` | the Music Assistant upgrade with its rollback, and the restart limiter |
| `UploadModel.dfy`, `ResumableUpload.dfy` | the resumable upload store |
| `IntegrationUpdates.dfy` | firmware claims of the integration updater |
| `AutomationLedger.dfy`, `AutomationPasses.dfy` | the automation run ledger, and when a sequence ends |
| `Planning.dfy`, `ClassSegments.dfy` | the school cycle, timetable normaliser and class segments |
| `ArchivePaths.dfy`, `Ordering.dfy` | archive names as segments, and stable sorting by a key |
| `BundlePolicy.dfy`, `RecoveryTopology.dfy`, `ArchiveInventory.dfy` | the recovery bundle policy on both sides |
| `ReleaseVersions.dfy`, `HostValidation.dfy` | release numbers on both sides, and what the host validates before its transaction |
| `RecoveryStaging.dfy` | from an accepted archive through staging to the host |
| `CanonicalJson.dfy`, `RecoveryEnvelope.dfy` | canonical metadata and the encrypted envelope |
| `SendspinRelay.dfy` | the Sendspin frame relay |

## What was found

* Full recovery is all or nothing (`RunWithRestarts`), but a run whose commit was already durable
  can still be reported as failed before mutation: when the journal has been unlinked and a later
  step of the worker raises, the handler finds no journal. `FailedAfterCommit` is such a run,
  `AnswerAfterCommit` says exactly when it happens, and `Worker` that a failed report means nothing
  was touched if the commit was not durable and everything was adopted if it was
  (host-agent/full_recovery.py:229-246, 514-522).
* A rollback that is repeated after it has already restarted services removes a root that did not
  exist before the transaction and that the restarted workload has created since: by
  `RestartedRootJudged` such a root is judged changed exactly if it did not exist, and by
  `RepeatedRollback` what the workload wrote survives exactly if it did
  (host-agent/full_recovery.py:751-765).
* An archive that the agent's verifier accepts need not be restorable. It cannot be staged if a name
  holds a NUL character (`NulNameAccepted`) or a file stands where another needs a directory
  (`FileInTheWayAccepted`). Once staged, the host refuses it if the host runs as anybody but user and
  group 10001 (`OtherIdentityRefused`), if a service has files but no declaration
  (`UndeclaredServiceRefused`), if its release is not three numbers with the installed major, where
  the agent compares only the numbers in front (`ShortReleaseRefused`), or if its database schema is
  too new (`NewerSchemaRefused`). `AcceptedArchiveRestorableIff` shows that these are all, as far as the
  manifest, the names and the bytes of the files, and the staged tree decide. Outside it are the
  host's checks of what the files mean or of its own containers: the database's quick check, the ADB
  keys and the `devices.json` that needs them, and containers that somebody else adopted
  (host-agent/full_recovery.py:308-319, 445-455, 471-473).
* The agent and the host compare releases differently: of two releases that the host finds alike, the
  agent takes exactly those without a leading `v` whose major is not zero (`AgentTakesIff`).
* The verifier sorts names by the locale, which may call distinct names equal. A manifest's files may
  stand in any order that keeps such names in theirs (`VerifyArchiveInventory`): in any order at all
  where no two names compare equal (`AnyOrderWhenToldApart`), but never with two that do the other
  way round (`TiedPairKeepsOrder`).
* The two tests of the agent's directory policy that lack a trailing slash also take longer names.
  `DirectoriesAgreeIff` gives the exact set of directories on which the two policies differ, and
  `AncestorAgrees` shows that none of them leads to an admitted file.
* The host accepts what the agent exports only when it runs with user and group 10001
  (`HostAcceptsAgentIff`); both are read from the environment.
* A class with an empty identity can be given overlapping segments by a timetable the normaliser
  accepts; `EmptyIdMixesPeriods` is such a timetable, and `DisjointForAllTablesIffId` shows that the
  empty identity is the only case.
* A music upgrade whose preparation fails, and whose report of that failure fails too, is left as
  "rollback required" although no stop was claimed. `MusicUpdates.StartupRecover` shows that no later
  start finishes it, even if no step fails: the rollback misses the claim every time
  (host-agent/music_updates.py:340-345, 352-360).
* Metadata nested to the deepest level that the metadata check accepts is one level too deep inside
  the header, so encryption refuses it (`DeepestMetadataRefused`). `EncryptsIff` says exactly when
  encryption returns, and `RoundTrip` speaks of every call that does, and `DecryptsIff` of every
  decryption.

## Model

| member | source | states |
|---|---|---|
| Durability.Replace | host-agent/full_recovery.py:633-637 | one rename to a free name, as every caller shows it is, either happened whole or not at all, also when the process dies in it |
| Durability.CopyTree | host-agent/full_recovery.py:612-631 | a copy that returns is complete; one that stops half way has touched its destination only |
| Durability.RemovePath | host-agent/full_recovery.py:103-107 | a removal that returns leaves nothing; one that stops half way has touched that path only |
| FullRecoveryModel.PlacesApart | host-agent/full_recovery.py:618-622 | work names of distinct roots never collide with each other or with a root |
| FullRecoveryModel.ChangedLocatesOriginal | host-agent/full_recovery.py:751-762 | no loss: before the commit the rollback's existence test says exactly where each original is, and a root that did not exist is never judged present by a leftover |
| FullRecoveryModel.AdbPartIff | host-agent/full_recovery.py:626-630 | the ADB trust that is left out of the data root is exactly its directory and what is below it |
| FullRecoveryModel.WorkloadFrame | host-agent/full_recovery.py:671-706 | writes of the restored workload to a swapped-in root never endanger the originals |
| FullRecoveryModel.RestartedRootJudged | host-agent/full_recovery.py:757-757 | a restored root that the workload writes again is judged changed exactly if it did not exist before |
| FullRecoveryModel.RestoredMeansSame | host-agent/full_recovery.py:734-765 | roots restored one by one, with the untouched ones, are the whole original state |
| FullRecoveryModel.AsBeforeMeansUnchanged | host-agent/full_recovery.py:767-786 | reconciled services outside the core pair, and units, exist and run exactly if they did, and both of the core pair run if either did |
| FullRecovery.FullRecoveryManager.StopWriters | host-agent/full_recovery.py:595-610 | it returns only once every captured container and unit is seen stopped, and from then on they stand still until the restart |
| FullRecovery.FullRecoveryManager.Quiesce | host-agent/full_recovery.py:475-500 | the captured state is durable before anything stops, and it returns with everything captured standing still |
| FullRecovery.FullRecoveryManager.CaptureDesiredState | host-agent/full_recovery.py:585-593 | the loop captures exactly the existence and running state of every name |
| FullRecovery.FullRecoveryManager.ClearWorkFiles | host-agent/full_recovery.py:618-625 | clearing leftovers touches only the two work names of a root not yet recorded and keeps every recorded root recoverable |
| FullRecovery.FullRecoveryManager.CopyPrepared | host-agent/full_recovery.py:626-630 | the prepared copy ends as the staged tree, without the ADB trust for the data root, at no risk to the originals |
| FullRecovery.FullRecoveryManager.PrepareSwap | host-agent/full_recovery.py:612-631 | a root is recorded durably before its copy starts, and ends ready to swap with the original in place |
| FullRecovery.FullRecoveryManager.ActivateSwap | host-agent/full_recovery.py:633-637 | the two renames leave the original at exactly one of two places after every step |
| FullRecovery.FullRecoveryManager.ActivateRoot | host-agent/full_recovery.py:503-509 | durable intent, swap, durable completion; only this root's three names change |
| FullRecovery.FullRecoveryManager.RollbackItem | host-agent/full_recovery.py:751-762 | one root is put back, or still can be, from any state a crash left it in |
| FullRecovery.FullRecoveryManager.RepeatedRollback | host-agent/full_recovery.py:751-763 | repeated after its services were restarted, the rollback keeps what they wrote to a root that existed and removes a root that did not |
| FullRecovery.FullRecoveryManager.RollbackTargets | host-agent/full_recovery.py:751-762 | all roots are put back in reverse order, and a rollback that dies can be repeated |
| FullRecovery.FullRecoveryManager.ReconcilePrior | host-agent/full_recovery.py:767-786 | services and units return to what was captured, the core pair running if either did |
| FullRecovery.FullRecoveryManager.Rollback | host-agent/full_recovery.py:734-765 | the journal goes only when every root is as before and services are as captured |
| FullRecovery.FullRecoveryManager.DiscardSafety | host-agent/full_recovery.py:788-796 | cleanup removes safety and prepared copies of adopted roots and touches no root |
| FullRecovery.FullRecoveryManager.FinishCommitted | host-agent/full_recovery.py:514-520 | after the commit every interruption keeps every root adopted, and cleanup can be repeated |
| FullRecovery.FullRecoveryManager.Execute | host-agent/full_recovery.py:475-522 | every crash or exception leaves a durable state from which a restart decides; nothing changes before the first journal; a transaction in which no step fails completes |
| FullRecovery.FullRecoveryManager.HandleFailure | host-agent/full_recovery.py:229-246 | an exception is answered by the rollback or the report that the durable journal calls for, and by "failed" exactly if there is no journal |
| FullRecovery.FullRecoveryManager.AnswerAfterCommit | host-agent/full_recovery.py:518-520 | after a durable commit the handler reports "failed" exactly if the journal was unlinked and a step from there on raised, with every root adopted |
| FullRecovery.FullRecoveryManager.FailedAfterCommit | host-agent/full_recovery.py:229-246 | such a run: the unlink returns, the final report raises, and the answer is "failed" although everything was adopted |
| FullRecovery.FullRecoveryManager.Worker | host-agent/full_recovery.py:227-247 | the terminal report is exactly determined by how many exceptions were raised: none, completed; one, what the journal of that moment demands; a second one out of the handler, rollback-failed; "failed" means all untouched if the commit was not durable and all adopted if it was |
| FullRecovery.FullRecoveryManager.RecoverJournal | host-agent/full_recovery.py:197-211 | a journal that is found is rolled back or cleaned up; rollback-failed is reported exactly if a step of that raised |
| FullRecovery.FullRecoveryManager.StartupRecover | host-agent/full_recovery.py:192-212 | a start in which no step fails finishes; one that finishes leaves no journal and reports completion exactly if the commit was durable; one that raises reports rollback-failed unless a status write itself raised |
| FullRecovery.FullRecoveryManager.RestartedWrites | host-agent/full_recovery.py:671-706 | whatever a restarted workload writes between the host agent's death and its next start, the rollback can still put every original back |
| FullRecovery.FullRecoveryManager.RunWithRestarts | host-agent/full_recovery.py:192-246 | all or nothing over any number of roots, crashes, crashed recoveries and writes of a restarted workload between them, absent roots included |
| FullRecovery.FullRecoveryManager.Start | host-agent/full_recovery.py:164-185 | a second transaction is refused while a journal exists |
| MusicUpdates.MusicUpdates.Save | host-agent/music_updates.py:91-93 | a claim becomes durable whole or not at all |
| MusicUpdates.MusicUpdates.ColdSnapshot | host-agent/music_updates.py:305-331 | the stop is claimed before it happens, and the snapshot claim holds only over a complete snapshot |
| MusicUpdates.MusicUpdates.Switch | host-agent/music_updates.py:332-339 | the deployment changes only under its claim, and success means the new image runs under the new Compose file |
| MusicUpdates.MusicUpdates.Execute | host-agent/music_updates.py:296-350 | with no failing step the new image runs and answers under the new Compose file; with one, data and Compose are as before and the job is rolled back, or failed if the stop was not claimed; only a second one, in the rollback, leaves the job to an administrator and keeps the lock |
| MusicUpdates.MusicUpdates.SwapData | host-agent/music_updates.py:370-382 | live data becomes the snapshot, and the first displaced directory is kept |
| MusicUpdates.MusicUpdates.Rollback | host-agent/music_updates.py:352-386 | a rollback that finishes has restored data and Compose and the old image answers; without a failing step it finishes, unless a stop was never claimed and the job is past its preparation |
| MusicUpdates.MusicUpdates.StartupRecover | host-agent/music_updates.py:388-402 | a start in which no step fails finishes exactly if the stop was claimed, or the job is still preparing, or it is a service recovery; a terminal or missing job is left alone, and an interrupted service recovery is only marked as failed |
| MusicUpdates.MusicUpdates.RunWithRestarts | host-agent/music_updates.py:296-402 | claims stay nested, rolled-back or failed means data and Compose equal their values before the job, and the first data a rollback displaced is never replaced and still there |
| MusicUpdates.RecentOfClaims | host-agent/music_updates.py:108-108 | the filtered ledger is exactly the attempts of the last day out of all ever made |
| MusicUpdates.AdmissionKeepsLimits | host-agent/music_updates.py:100-123 | an attempt is refused if and only if admitting it would break a limit, although old attempts are dropped |
| MusicUpdates.ServiceRecovery.Recover | host-agent/music_updates.py:100-123 | a restart is refused exactly if it would come within 1800 s or be the fourth within a day, over the whole history; else it is durable and then dispatched unless a step fails |
| UploadModel.ChunksCoverFile | src/resumable-upload.js:81-95 | required chunk lengths sum to the size, the last between one byte and a chunk |
| UploadModel.AcceptedOrder | src/resumable-upload.js:67-67 | a task of a session starts only when every task accepted before it has settled |
| UploadModel.OneRunning | src/resumable-upload.js:67-67 | tasks of a session run one at a time |
| UploadModel.AssembledLength | src/resumable-upload.js:150-158 | a complete set of accepted chunks has the length of the file |
| UploadModel.CompleteByCount | src/resumable-upload.js:150-150 | as many recorded chunks as there are chunks means every single one |
| UploadModel.OwnerStoredBound | src/resumable-upload.js:77-78 | the quota bounds the bytes of an owner's part files on disk |
| UploadModel.ReceiptKept | src/resumable-upload.js:123-132 | a receipt's step keeps the session sound and never raises the owner's use |
| ResumableUpload.RetirementOvertakes | src/resumable-upload.js:109-122 | what a suspended task holds in memory trails the file by exactly the retirement |
| ResumableUpload.ResumableUploadStore.Locked | src/resumable-upload.js:67-67 | a task is appended behind the latest task of its session |
| ResumableUpload.ResumableUploadStore.Release | src/resumable-upload.js:67-67 | the chain entry goes exactly with its last task |
| ResumableUpload.ResumableUploadStore.StartPut | src/resumable-upload.js:92-101 | a request is taken, answered as a retry, or refused exactly by its owner, index, length, digest and the recorded chunk |
| ResumableUpload.ResumableUploadStore.FinishPut | src/resumable-upload.js:102-107 | a chunk of the announced length and digest is stored and then recorded, once; any other changes nothing; a failure between rename and record leaves only the part file |
| ResumableUpload.ResumableUploadStore.StartAssemble | src/resumable-upload.js:133-150 | an assemble is refused, asks the library, or reads exactly by owner, deletion, receipt, digest and completeness; the first one leaves a receipt |
| ResumableUpload.ResumableUploadStore.ResumeReplay | src/resumable-upload.js:144-149 | a file the library holds has its receipt finished; one it does not hold is built again exactly if it was neither registered nor retired; sessions change in the first case only |
| ResumableUpload.ResumableUploadStore.ReadPart | src/resumable-upload.js:154-154 | the next part is appended exactly if it is there, and it is missing only after a retirement |
| ResumableUpload.ResumableUploadStore.FinishAssemble | src/resumable-upload.js:155-159 | exactly a good output, of the exact size and digest, inspected, of a session that is not retired, is published and its digest recorded, unless a step fails; it is the index-order concatenation of the accepted chunks |
| ResumableUpload.ResumableUploadStore.FinishReceipt | src/resumable-upload.js:123-132 | a receipt finishes registered and reclaimed if no step fails, changes nothing once the upload is deleted, and stops somewhere between otherwise |
| ResumableUpload.ResumableUploadStore.FinishRegister | src/resumable-upload.js:160-164 | acceptance finishes the receipt or fails over to the withdrawal of the file; refusal changes no session and withdraws it |
| ResumableUpload.ResumableUploadStore.FinishDiscard | src/resumable-upload.js:164-164 | a failed publication is withdrawn unless the library committed it |
| ResumableUpload.ResumableUploadStore.Retire | src/resumable-upload.js:112-122 | retirement needs the matching identity, bypasses the lock, is repeatable, and ends deleted and reclaimed if no step fails; once its mark is durable the session counts as retired, also when the retirement is cut short |
| ResumableUpload.ResumableUploadStore.StartCancel | src/resumable-upload.js:166-166 | a cancellation succeeds exactly for the owner, and only that session goes |
| ResumableUpload.ResumableUploadStore.Cleanup | src/resumable-upload.js:167-169 | expiry removes exactly the expired sessions without a chain and none with accepted unsettled work |
| ResumableUpload.ResumableUploadStore.Create | src/resumable-upload.js:72-89 | a session is admitted exactly within size, owner quota over what expiry leaves, and free space, and is then empty with its chunks counted |
| ResumableUpload.ResumableUploadStore.Dispatch | src/resumable-upload.js:60-170 | every event moves exactly the task it is for; a session is registered and a file appears or goes only by the event that explains it |
| ResumableUpload.ResumableUploadStore.Run | src/resumable-upload.js:60-170 | in every interleaving deletion is sticky for every marked session and quotas hold, for the part files on disk too; a session becomes registered only after an answer that accepted or held its file, a file appears only as a verified output, and is withdrawn only after a failed step, a refusal or a retirement |
| IntegrationUpdates.SendsSeparated | src/integration-updates.js:113-114 | sends follow claims, and claims of one device are separated by confirmations |
| IntegrationUpdates.ReconcileTracks | src/integration-updates.js:118-128 | reconciling a stale copy never hides an open claim |
| IntegrationUpdates.KeysApart | src/integration-updates.js:96-97 | attempts are remembered for each device apart, and for the music service apart from those |
| IntegrationUpdates.IntegrationUpdates.SaveState | src/integration-updates.js:31-31 | state is written whole, and only while maintenance may run |
| IntegrationUpdates.IntegrationUpdates.Begin | src/integration-updates.js:89-93 | an install starts exactly if none is active, no delivery is younger than ten minutes, the host is idle and the identity is safe |
| IntegrationUpdates.IntegrationUpdates.ReadSaved | src/integration-updates.js:96-109 | an install goes on exactly if it does not repeat an automatic attempt, selects the catalogued release, and its device is online, enabled, of the right project and board, offers that release and has no open delivery |
| IntegrationUpdates.IntegrationUpdates.ResumeSecondIdle | src/integration-updates.js:110-114 | exactly while everything is idle the claim is written and then the firmware sent, with the claimed mac and generation, unless the process dies between the two |
| IntegrationUpdates.IntegrationUpdates.ResumeSending | src/integration-updates.js:114-116 | a failed delivery stays open as unconfirmed, written over whatever was stored meanwhile |
| IntegrationUpdates.IntegrationUpdates.ResumeMusicIdle | src/integration-updates.js:102-104 | a music update is claimed durably before the host is asked |
| IntegrationUpdates.IntegrationUpdates.Reconcile | src/integration-updates.js:118-128 | exactly the open claims whose device is online under the same mac and generation running the claimed version are confirmed; old ones become unconfirmed |
| IntegrationUpdates.IntegrationUpdates.Run | src/integration-updates.js:89-166 | in every interleaving every send follows its own durable claim and went to a device that an observed report showed online, managed and offering that release; two sends to one device have between them a reconcile whose observed report showed it under the first send's mac and generation, running its version |
| AutomationLedger.RetainedContents | src/automation-runtime.js:181-201 | retention keeps exactly the current Stops, each once, within both limits |
| AutomationLedger.DaysInMonthCounted | src/automation-runtime.js:173-179 | the month lengths are those that follow from counting days |
| AutomationLedger.OccurrenceDateIff | src/automation-runtime.js:152-180 | an identity has a date exactly if the scheduler prints it for a time of that day: a date that counting days yields, an hour to 23, a minute to 59, and two non-empty one-line names in front |
| AutomationLedger.CurrentPrinted | src/automation-runtime.js:187-193 | a printed identity is still current exactly if its day is not before the first one retained |
| AutomationLedger.OfferSaved | src/automation-runtime.js:190-198 | saved identities are offered in order, and a malformed one is an error |
| AutomationLedger.OfferStopped | src/automation-runtime.js:190-199 | Stops found in the history are offered after the saved ones |
| AutomationLedger.FindHolder | src/automation-runtime.js:228-228 | the newest row that holds the occurrence is found, or none exists |
| AutomationLedger.WriteKeeps | src/automation-runtime.js:205-210 | truncation never loses a current Stop of the whole history |
| AutomationLedger.NothingMissed | src/automation-runtime.js:224-229 | what the checks do not find was never appended, or was truncated behind `limit` rows |
| AutomationLedger.Ledger.RetainedCancellations | src/automation-runtime.js:181-201 | the loops compute the retained set, or fail where the source throws |
| AutomationLedger.Ledger.Write | src/automation-runtime.js:204-210 | rows and retained Stops are written together, or nothing is |
| AutomationLedger.Ledger.RecordMany | src/automation-runtime.js:215-222 | a batch is recorded whole exactly if it fits the history and the Stops fit their limits, and its Stops are retained |
| AutomationLedger.Ledger.Claim | src/automation-runtime.js:224-231 | a claim is stopped exactly by a current Stop, existing exactly by the newest row that holds it, and wins otherwise if it can be written; one that wins proves no current Stop was ever recorded under its identities, and any earlier win is at least `limit` rows back |
| AutomationPasses.ExecutionMode | src/automation-schema.js:17-22 | a mode is repeat or loop exactly if configured so, or loop for a looping medium without a mode |
| AutomationPasses.RepeatLimitNearest | src/automation-schema.js:79-79 | a repeat count is taken as the nearest whole number from 1 to 100, so a whole count there is its own limit, and no count at all is two |
| AutomationPasses.PassLimit | src/automation-schema.js:76-81 | only loops are endless, and every other limit is between 1 and 100 |
| AutomationPasses.NeverNeededAgain | src/automation-schema.js:86-95 | "needs another pass" never becomes true again |
| AutomationPasses.NeedsIff | src/automation-schema.js:86-99 | a later pass is needed exactly while a repeat has passes left, or with two loops |
| AutomationPasses.RunPasses | src/server.js:2055-2152 | with at most one loop a run takes exactly the largest repeat limit, or its bound; with two or more exactly its bound; every action is dispatched on exactly its own passes, an unbounded repeat exactly its limit |
| Planning.WrapIsModulo | src/planning.js:82-82 | the doubled remainder is the mathematical modulo, also for negative offsets |
| Planning.StatusDecided | src/planning.js:59-67 | a date is decided by its own entry in an enabled plan alone; else by a day off, a remote day, the term and the weekday in this order |
| Planning.CycleForDate | src/planning.js:69-88 | the day-by-day walk in either direction computes the closed form over the running school-day count |
| Planning.SchoolDayAdvancesOneLetter | src/planning.js:76-83 | each school day advances one letter, and no other day does, across the anchor too |
| Planning.WalksAgree | src/planning.js:76-83 | forward and backward walks are inverse |
| Planning.OverrideIsLocal | src/planning.js:83-83 | a date's cycle-day override takes effect on that date if it has school, and changes that date only |
| ClassSegments.HasClash | src/planning.js:33-39 | the nested loops find a clash exactly if two class blocks of one series overlap |
| ClassSegments.ShareDayIff | src/planning.js:33-39 | two blocks count as sharing a day exactly if both take place on some cycle day |
| ClassSegments.NormalizeTable | src/planning.js:15-41 | a timetable is accepted exactly if it is valid, and keeps its blocks |
| ClassSegments.NormalizePlanning | src/planning.js:7-57 | a plan is accepted exactly if it is valid, every accepted plan is sound, and of each date the last valid override counts, with its status, cycle day and timetable |
| ClassSegments.SelectedWereChecked | src/planning.js:33-39 | blocks selected together were compared by the normaliser |
| ClassSegments.SortKeeps | src/planning.js:105-107 | sorting by start keeps the segments and leaves disjoint ones disjoint |
| ClassSegments.AcceptedPlansGiveDisjointSegments | src/planning.js:99-108 | every accepted plan gives every class with an identity sorted, non-empty, disjoint segments on every date |
| ClassSegments.EmptyIdMixesPeriods | src/planning.js:104-105 | a timetable that the normaliser accepts gives a class with an empty identity overlapping segments |
| ClassSegments.DisjointForAllTablesIffId | src/planning.js:99-108 | segments are disjoint for all accepted timetables exactly if the identity is not empty |
| ArchivePaths.SlashPrefixIsUnder | maintenance-agent/backup-policy.js:83-83 | a prefix test that ends in a slash holds of exactly the paths strictly below |
| ArchivePaths.PlainPrefixIsResembles | maintenance-agent/backup-policy.js:127-131 | a prefix test without the slash also holds of longer last segments, and of nothing else |
| ArchivePaths.JoinOfSplit | maintenance-agent/backup-policy.js:69-70 | every name is the joining of its segments |
| ArchivePaths.SplitOfJoin | maintenance-agent/backup-policy.js:69-70 | and every list of segments without slashes is the splitting of its name, so both are one thing |
| ArchivePaths.SafeIsCanonical | host-agent/full_recovery.py:322-331 | the host takes exactly the names that the agent takes and that hold no NUL, and a lone dot |
| ArchivePaths.PlainWalks | maintenance-agent/backup-policy.js:70-70 | names without empty, dot and double-dot segments are exactly those that lead where they say, one level down for each |
| BundlePolicy.ModeTextIff | host-agent/full_recovery.py:27-27 | a mode text is exactly three or four octal digits after an optional zero |
| BundlePolicy.AllowedFiles | maintenance-agent/backup-policy.js:75-94 | the admitted files are exactly the fixed ones and the contents of the data and service roots without an excluded segment |
| BundlePolicy.AllowedDirectories | maintenance-agent/backup-policy.js:81-93 | the admitted directories are exactly those on the way to a fixed file, the roots, and what lies in the data and service roots without an excluded segment |
| BundlePolicy.FileAgrees | maintenance-agent/backup-policy.js:75-126 | every admitted file has a role, owner and mode, and they are the ones the host expects; its inventory mode is the same |
| BundlePolicy.DirectoriesAgreeIff | maintenance-agent/backup-policy.js:127-134 | on every directory the host knows, the two policies agree exactly outside a named set |
| BundlePolicy.AncestorAgrees | host-agent/full_recovery.py:377-429 | every directory on the way to an admitted file is known to the host and owned alike |
| RecoveryTopology.PutDirectories | maintenance-agent/backup-policy.js:139-140 | the parent walk records exactly the proper ancestors but the hub root |
| RecoveryTopology.RecoveryTopology | maintenance-agent/backup-policy.js:136-144 | the loops yield the recorded entries, each path once, in path order |
| RecoveryTopology.RecordedExact | maintenance-agent/backup-policy.js:136-144 | without a file in a directory's place the map is exactly the files and their ancestor closure |
| RecoveryTopology.AcceptedIsExpected | host-agent/full_recovery.py:344-365 | an entry the host accepts is that of an archived file or of a directory leading to one, owned as the agent owns it |
| RecoveryTopology.ExpectedIsAccepted | host-agent/full_recovery.py:344-365 | and every such entry is accepted |
| RecoveryTopology.ValidateTopology | host-agent/full_recovery.py:340-375 | the host's loops accept exactly what the declarative policy accepts |
| RecoveryTopology.HostAcceptsExactly | host-agent/full_recovery.py:340-375 | for the staged tree of admitted files the host accepts exactly the rearrangements of the closure owned as the agent owns it |
| RecoveryTopology.HostAcceptsAgentIff | host-agent/full_recovery.py:340-397 | the host accepts the agent's own topology exactly with the appliance's user and group |
| ReleaseVersions.MajorIff | host-agent/full_recovery.py:48-48 | a scan reads exactly the texts of the host's release pattern, and of each the number the pattern captures |
| ReleaseVersions.AgentTakesIff | maintenance-agent/server.js:687-688 | of two releases the host finds alike the agent takes exactly those without a leading `v` and with a major other than zero |
| HostValidation.CheckContract | host-agent/full_recovery.py:260-271 | the fixed fields, the release text and the schema are checked exactly as the contract says |
| HostValidation.CheckRole | host-agent/full_recovery.py:468-470 | the database must be there under its own role |
| HostValidation.ReadInventory | host-agent/full_recovery.py:273-285 | the loop reads the inventory exactly if rows are distinct and every staged file is as declared |
| HostValidation.ValidateServices | host-agent/full_recovery.py:431-461 | a service plan passes exactly if it is accepted and names every service with files |
| HostValidation.ValidateStaging | host-agent/full_recovery.py:249-293 | the host's checks in their order accept exactly what the declarative validation accepts |
| ArchiveInventory.ArchiveInventory | maintenance-agent/backup-policy.js:108-115 | the inventory is the sorted rows of the admitted files, or an error for any other |
| ArchiveInventory.Hex64Iff | maintenance-agent/backup-policy.js:164-164 | a digest is exactly sixty-four lower-case hexadecimal digits |
| ArchiveInventory.CheckNames | maintenance-agent/backup-policy.js:151-159 | names are accepted exactly if canonical, admitted and distinct without regard to case |
| ArchiveInventory.CheckServices | maintenance-agent/backup-policy.js:176-183 | the service plan is accepted exactly if every service is a known, pinned, distinct one |
| ArchiveInventory.VerifyArchiveInventory | maintenance-agent/backup-policy.js:146-187 | sound and complete: accepted exactly if `files` is the real inventory with equal-comparing names in their order, the indispensable files and pairs are there, and `topology` is the derived one |
| ArchiveInventory.ExportManifest | maintenance-agent/server.js:499-501 | the exporter declares the inventory and topology of the archive |
| ArchiveInventory.ExportAcceptedIff | maintenance-agent/server.js:499-501 | an export with its files in another order is accepted exactly if names are distinct, the indispensable files there, pairs complete, services in order, and equal-comparing names kept theirs |
| ArchiveInventory.AcceptedFiles | maintenance-agent/backup-policy.js:160-167 | the declared files of an accepted archive are a permutation of its real inventory |
| ArchiveInventory.AnyOrderWhenToldApart | maintenance-agent/backup-policy.js:160-160 | where no two names compare equal, any order of the files will do |
| ArchiveInventory.TiedPairKeepsOrder | maintenance-agent/backup-policy.js:160-160 | an export that lists two equal-comparing names the other way round is refused |
| RecoveryStaging.StageFullRecovery | maintenance-agent/server.js:768-786 | the loops stage every file, or fail where the source throws |
| RecoveryStaging.StagedIff | maintenance-agent/server.js:774-782 | staging succeeds exactly if every file has a mode and a name a file system holds and none is in another's way, and makes just the files and their directories |
| RecoveryStaging.AcceptedRowsHeld | host-agent/full_recovery.py:273-285 | every declared file of an accepted and staged archive passes the host's integrity check |
| RecoveryStaging.AcceptedArchiveRestorableIff | host-agent/full_recovery.py:249-293 | an accepted archive is staged exactly if no file is in another's way and no name holds a NUL, and then passes the host's validation exactly if user, group, major release and schema suit the host and every service with files is declared |
| RecoveryStaging.NulNameAccepted | maintenance-agent/backup-policy.js:69-94 | an accepted archive with a NUL in a name, which cannot be staged |
| RecoveryStaging.FileInTheWayAccepted | maintenance-agent/backup-policy.js:152-159 | an accepted archive with a file where another needs a directory, which cannot be staged |
| RecoveryStaging.OtherIdentityRefused | host-agent/full_recovery.py:377-397 | an archive that the appliance restores, and every host with another user or group refuses |
| RecoveryStaging.UndeclaredServiceRefused | host-agent/full_recovery.py:457-461 | an archive that is accepted and staged without the plan of a service it holds files of, and refused by every host; with the plan it is restored |
| RecoveryStaging.ShortReleaseRefused | host-agent/full_recovery.py:266-269 | an archive whose release the agent takes for the installed one, accepted and staged, and refused by every host |
| RecoveryStaging.NewerSchemaRefused | host-agent/full_recovery.py:270-271 | an archive that is accepted and staged with a newer database schema, and refused by every host |
| CanonicalJson.CanonicalValue | maintenance-agent/recovery-envelope.js:78-106 | the recursive loops compute the canonical form, or fail where the source throws |
| CanonicalJson.CanonicalizeBlind | maintenance-agent/recovery-envelope.js:78-106 | values that differ in key order only have the same canonical form |
| CanonicalJson.CanonicalizeTells | maintenance-agent/recovery-envelope.js:78-106 | and values with the same canonical form differ in key order only |
| CanonicalJson.CanonicalizeIdempotent | maintenance-agent/recovery-envelope.js:78-106 | canonicalizing twice changes nothing |
| CanonicalJson.CanonicalIff | maintenance-agent/recovery-envelope.js:78-106 | a value has a canonical form exactly if it is plain JSON with safe keys and not nested too deeply |
| RecoveryEnvelope.EncodePrefix | maintenance-agent/recovery-envelope.js:160-165 | the buffer holds the magic and the big-endian length |
| RecoveryEnvelope.ReadOfWrite | maintenance-agent/recovery-envelope.js:160-170 | reading the four bytes gives back the length |
| RecoveryEnvelope.WriteOfRead | maintenance-agent/recovery-envelope.js:167-170 | four bytes are the only encoding of the length they hold |
| RecoveryEnvelope.EncryptsIff | maintenance-agent/recovery-envelope.js:212-238 | encryption returns exactly if limit, passphrase and size are in order, the metadata is accepted and nested one level less than its own check allows, and the header fits |
| RecoveryEnvelope.DeepestMetadataRefused | maintenance-agent/recovery-envelope.js:219-223 | metadata as deep as its own check allows is accepted there and refused by encryption |
| RecoveryEnvelope.HeaderIsAccepted | maintenance-agent/recovery-envelope.js:141-158 | the parser finds in a canonical header every field the builder put there |
| RecoveryEnvelope.ParseOfEncrypt | maintenance-agent/recovery-envelope.js:167-198 | every encrypted envelope parses into its parts |
| RecoveryEnvelope.RoundTrip | maintenance-agent/recovery-envelope.js:212-263 | whenever encryption returns, decryption gives back the payload and the canonical metadata |
| RecoveryEnvelope.DecryptRecoveryEnvelope | maintenance-agent/recovery-envelope.js:240-263 | the steps of a decryption compute the function the laws are about, and return nothing where it throws |
| RecoveryEnvelope.DecryptsIff | maintenance-agent/recovery-envelope.js:240-263 | decryption returns a payload and its metadata exactly if the envelope is what encryption makes of them under the same passphrase for some salt and nonce, byte for byte |
| RecoveryEnvelope.AcceptedForm | maintenance-agent/recovery-envelope.js:167-198 | an accepted envelope is its canonically printed header, its ciphertext and its tag |
| RecoveryEnvelope.UniqueEncoding | maintenance-agent/recovery-envelope.js:167-198 | an accepted envelope is determined byte for byte by its header value, ciphertext and tag |
| SendspinRelay.CloseCode | src/music-assistant-sendspin.js:25-28 | the forwarded code may always be sent, and a sendable code is kept |
| SendspinRelay.Relay.Finish | src/music-assistant-sendspin.js:52-63 | the first end closes both sockets, empties the queue and reports once; later ones do nothing |
| SendspinRelay.Relay.Forward | src/music-assistant-sendspin.js:70-79 | a frame is sent exactly if the bridge is up, the socket open and the buffer limit kept; any other failure ends the bridge with its own record |
| SendspinRelay.Relay.constructor | src/music-assistant-sendspin.js:93-112 | what starting the relay does for a closed browser, a failing socket and a good one |
| SendspinRelay.Relay.OnClientMessage | src/music-assistant-sendspin.js:83-91 | a frame waits within 100 frames and 1 MiB, or the bridge closes with that record; once up it is passed on, or ends the bridge |
| SendspinRelay.Relay.OnUpstreamOpen | src/music-assistant-sendspin.js:102-109 | everything that waited goes out in order before anything newer, the timer stops, and the bridge closes exactly if a frame cannot be sent or the owner throws; with the browser gone the upstream is stopped |
| SendspinRelay.Relay.OnUpstreamMessage | src/music-assistant-sendspin.js:100-100 | a frame is passed to an open browser, or ends the bridge with its record |
| SendspinRelay.Relay.End | src/music-assistant-sendspin.js:81-102 | each ending event closes the bridge under exactly its own name and code, and nothing else does |
| SendspinRelay.Relay.Run | src/music-assistant-sendspin.js:38-112 | in every event order both streams are in-order prefixes of exactly the frames delivered, nothing is dropped while a peer is open, the queue is bounded, nothing is sent after closing, one report is made, and an announced end has come |

## Left out

- FullRecovery.FullRecoveryManager.RunWithRestarts: writes of services that a rollback has already restarted, before its journal is gone, are excluded, because `RepeatedRollback` shows that they can be lost; staging validation, permissions, health checks and capacity are fallible steps without content.
- FullRecovery.FullRecoveryManager.ReconcilePrior: of the core pair it promises only that both run if either did, because that is all the source restores.
- FullRecovery.FullRecoveryManager.Worker: the wait for the handoff and the appliance lock, whose refusals report "failed" before the transaction begins, are left out.
- FullRecovery.FullRecoveryManager.StopWriters: inspecting a container is taken as truthful.
- ResumableUpload.ResumableUploadStore.StartCancel: the recursive removal of a session directory is one step, and so is each expiry.
- ResumableUpload.ResumableUploadStore.StartAssemble: assembly without a replay callback, which no caller in the repository uses, is not modelled; content inspection and free space are answers of the environment.
- ResumableUpload.ResumableUploadStore.Cleanup: which sessions have expired is an arbitrary set, not computed from dates.
- IntegrationUpdates.IntegrationUpdates.ReadSaved: how a device's entities yield the release it offers on the stable channel, and the check of the local music target, are answers of the environment.
- IntegrationUpdates.IntegrationUpdates.ResumeHostStart: the host agent's own work on a music update is in MusicUpdates; here only its answer counts.
- AutomationLedger.Ledger.Claim: extra details of a row, and the time stamps, are not modelled; one call sees one date.
- AutomationPasses.RunPasses: waits, aborts and the end of a class, which only cut a run short, are not modelled; normalising and migrating stored events is left out as field-by-field copying.
- ClassSegments.NormalizePlanning: names, labels and notes are not modelled beyond being accepted or refused; a JSON value of the wrong type is refused.
- Planning.CycleForDate: dates are day numbers, and colours and day groups are left out.
- ArchiveInventory.VerifyArchiveInventory: the manifest is typed, so a size written as text or a schema version written with a decimal point, which the JavaScript reads as whole numbers and the host refuses, and the order of keys inside topology entries are not modelled.
- HostValidation.ValidateStaging: the database's quick check, the cryptographic identity checks, the ADB pair that `devices.json` may ask for, containers that somebody else adopted, and the digest of the manifest itself are not modelled; the checks that only parsing could fail are covered by the types.
- RecoveryStaging.AcceptedArchiveRestorableIff: the agent's size limits, its own release and schema check before staging and its identity check after it are not part of it; of the latter `AgentTakesIff` compares the release.
- ReleaseVersions.AgentTakesIff: numbers beyond 2^53, which JavaScript rounds, are taken exactly.
- RecoveryStaging.StageFullRecovery: limits on the length of names, free space and other errors of the file system are not modelled, nor are symbolic links, which a fresh directory does not have.
- RecoveryEnvelope.RoundTrip: scrypt, AES-GCM, base64 and JSON text are a library with stated laws; negative zero, which JSON prints as zero, and the zeroing of key buffers are not modelled, and the parser's separate alphabet test for base64 is covered by its re-encoding test.
- SendspinRelay.Relay.Finish: a socket whose close and terminate both throw is taken as closing; times are not modelled.
- Docker, systemd, HTTP and operating-system locks: present only as state that steps may change, and single atomic durable writes; reordering of unsynced writes is not modelled.
- The quiescence journal of repeated exports, Android signing checks, diagnostic archives and legacy restores.
- Learning modules, weather, sports, displays, lights, route bridges, the user interface and the installers: external formats and one-branch checks.
