# Verification of the runner lifecycle

A Dafny model of the parts of this repository that must stay right when a
process is killed, a command fails or somebody else interferes, with proofs of
what they promise. `dafny verify dfyconfig.toml` checks the whole project.

## What is modelled

* **The lifecycle journal.** `Journal` has the records of one slot (repository,
  runner, directory) and every root operation as a plan of directory-entry
  changes; a killed operation leaves a prefix of its plan. `JournalSafety` gives
  the invariant and the order in which records may move, `JournalRuns` the
  results over all runs, `JournalEvidence` when each operation goes through and what
  it must have seen. `Authority` is the same operations as the source runs
  them, on fields that are rewritten one change at a time, proved to do exactly
  their plans. `Publish` goes below a single record, to the system calls of
  `_publish` by any number of processes; `PublishProgress` says that they get there.
* **The scripts.** `Drivers` has the register, remove and reconcile scripts as
  step machines with the two GitHub calls; `DriverSafety` and `DriverTheorems`
  tie the calls to the journal, `DriverEvidence` ties every record to what a step of a
  script saw, `Progress` shows that undisturbed scripts get through. `Reporting` is
  what a transaction reports.
* **The executor.** `Binding` admits and authorises frames of the child,
  `Executor` performs them, `ExecutorSafety` and `RemoveGuard` say what a whole
  transaction can do. `FrameTable` spells out the frames and which are authorised,
  `FrameDeeds` traces effects to frames, `WebTransactions` follows the scripts' frames
  from the first to the last. `FramePump`, `Contract`, `Wire` and `TokenPipe` are the
  channels: newline frames, JSON requests, framed requests and the token pipe;
  `SpelledRequests` has their texts and bytes.
* **Names and Units.** `Names` has local ids, their copies, service names and the
  way back from a directory, `SpelledNames` what sanitising means; `UnitFile`,
  `UnitPrinter` and `UnitTexts` the systemd Unit, read, printed and line by line.
* **The operational log.** `LogFiles`, `LogRotation`, `LogState` and
  `OperationalLog`, from bytes to any number of logger processes.
* **Deletion and quarantine.** `FileTree` and `Cleanup` delete a directory tree in
  a file system of inodes, links and mounts; `Quarantine` moves a service record
  aside under interference.
* **The archive hook** (`ArchiveHook`, `HookProgress`): concurrent hooks, their workers
  and timeouts.
* **The installer** (`Installer`): staged installation with resume, and the
  administrator credential.

## Where the code and its promises part

* The archive hook's comment that failure paths never coexist with a published
  PASS fails in three cases and in no others (`ArchiveHook.PassExcludesFailed`), each
  of which leads to both manifests exactly when somebody can still publish in the
  directory, or has (`ArchiveHook.FaultContradicts`): a command of the validation that
  follows a worker killed after its last publication fails; a command of the claim
  loop fails, where JOB_DIR already names another hook's directory; or the archive is
  validated while what is left of its worker can still publish, its last rename
  (`ArchiveHook.LatePublicationContradicts`) or, when only `timeout` was killed, all of
  it (`ArchiveHook.SurvivingWorkerContradicts`).
* A clean-up or service-record script accepts a directory for an owner or project
  of dashes only, which `make_local_id` refuses (`Names.CopiesAgree`,
  `Names.DashOwnerAccepted`).
* `unit_bytes` refuses a newline in the directory; the validator splits at nine
  other characters too, so a Unit printed for such a directory is refused
  (`UnitPrinter.PrinterMeetsValidator`, `UnitPrinter.CarriageReturnIsRefused`).
* With other limits than the default ones `make_local_id` can leave one character
  unused (`Names.MakeLocalId`).
* A temporary state file left by a kill inside `write_state` blocks every later
  run that starts without a record or after WEB_INSTALLED (`Installer.Host.Run`).
* web/v2_remove_guard.py:33 passes a keyword that web/executor_runtime.py:149 does
  not accept. As the code stands the gate catches the TypeError and rejects every Web
  Remove; `RemoveGuard.GuardIsExact`, `RemoveGuard.GuardPinsTarget` and
  `RemoveGuard.GuardAdmitsBegin` are about the call without the keyword, and
  `WebTransactions.RemoveTransactionCompletes` about what follows it.
* `check_entries_subset` of the installer compares nothing, because its format
  string emits no newline (scripts/fresh-install.sh:158); nothing rests on it.

## Model

| member | source | states |
|---|---|---|
| `JournalSafety.PlanLicensed` | web/runner_lifecycle_authority.py:195-258 | every change any journal operation plans, under any observation, is licensed when its turn comes: create and remove stages step forward by one, exclusive records are new, a closed instance's records are not touched |
| `JournalSafety.LicensedKeepsInv` | web/runner_lifecycle_authority.py:404-465 | each single licensed directory-entry change keeps the journal invariant, so the invariant holds at every kill point |
| `JournalSafety.LicensedIsLater` | web/runner_lifecycle_authority.py:195-258 | each single change moves every instance forward only: stages, pinned identities, attestations and closed records |
| `JournalRuns.RunLicensed` | web/runner_lifecycle_authority.py:534-631 | a run of any operations, each killed after any number of changes, keeps the invariant and only moves forward |
| `JournalRuns.IdentityAgreement` | web/runner_lifecycle_authority.py:248-256 | at every point of every run an instance past the attestation checkpoint has a readable attestation, and its create, attestation and remove records name the same instance, pin the same device and inode and carry the same GitHub id |
| `JournalRuns.InstanceHistory` | web/runner_lifecycle_authority.py:236-258 | between any two points of a run an instance's stages only move forward and its attestation never changes |
| `JournalRuns.ClosedIsFinal` | web/runner_lifecycle_authority.py:203-231 | no record of a closed instance is ever written again, whatever runs later |
| `JournalRuns.UnknownOutcomeFreezesSlot` | web/runner_lifecycle_authority.py:203-214 | once the active instance is at REGISTRATION_OUTCOME_UNKNOWN every later change replaces that instance's own remove record: the index, every create record, attestation and Unit attestation and every other remove record stay as they are, and no cycle, attestation or removal is admitted |
| `JournalRuns.AbortedWasNeverComplete` | web/runner_lifecycle_authority.py:718-734 | ABORTED_RECONCILED means the instance was at CREATE_COMPLETE at no point of the run and its remove record came from reconciliation and is complete |
| `JournalRuns.UnreadableActiveFreezesSlot` | web/runner_lifecycle_authority.py:144-162 | an active index left with two names stops every later operation: fail closed, nothing lost |
| `JournalRuns.ConsecutiveCyclesDiffer` | web/runner_lifecycle_authority.py:215-231 | over a run no instance becomes active twice, every cycle but the last is closed, and consecutive cycles pin different inodes |
| `JournalEvidence.OperationExact` | web/runner_lifecycle_authority.py:195-897 | on every disk a run can reach and under any observation, each operation goes through exactly when the records and what it saw allow it, and then leaves exactly the record it promises; a refused one leaves the disk as it was, but for an adoption whose BEGIN was refused and a removal completed before the create record could not be aborted |
| `JournalEvidence.EveryChangeIsWarranted` | web/runner_lifecycle_authority.py:534-631 | every change of every run, those of killed operations included, was made by an operation of the run that had seen what the change needs: COMPLETE no directory, CONFIRM and the intents the pinned one, attestations and adoptions theirs |
| `Authority.Store.PointActiveAt` | web/runner_lifecycle_authority.py:135-141 | the active index is published exclusively when there is none and replaced otherwise, up to the change at which the process is killed |
| `Authority.Store.StartCycle` | web/runner_lifecycle_authority.py:221-231 | a new cycle publishes the create record before it moves the active pointer; a kill in between leaves the orphan record the plan's prefix describes |
| `Authority.Store.CreateStage` | web/runner_lifecycle_authority.py:195-258 | the step-by-step operation leaves exactly its plan's changes on disk, cut at the kill point, returns exactly when the recorded stages and the directory seen allow it, and then leaves exactly the new stage |
| `Authority.Store.CreateAttestation` | web/runner_lifecycle_authority.py:404-465 | the same for the registration attestation: it returns only for the pinned directory, unchanged under its path, whose .runner names this runner and a positive id |
| `Authority.Store.CreateUnitAttestation` | web/runner_lifecycle_authority.py:836-897 | the same for the Unit attestation: it returns only for the pinned directory |
| `Authority.Store.AdoptLegacy` | web/runner_lifecycle_authority.py:468-531 | a strict legacy runner is adopted as a LEGACY_VERIFIED cycle only when no index exists |
| `Authority.Store.BeginRemoval` | web/runner_lifecycle_authority.py:555-601 | BEGIN publishes the remove intent exclusively, or changes nothing |
| `Authority.Store.AdvanceRemoval` | web/runner_lifecycle_authority.py:602-631 | CONFIRM and COMPLETE replace the record in one step, or change nothing: CONFIRM returns only if the pinned directory was held, COMPLETE only if the directory was no longer there |
| `Authority.Store.RemoveStage` | web/runner_lifecycle_authority.py:534-631 | adoption and BEGIN, CONFIRM or COMPLETE leave exactly the planned changes, cut at the kill point; each returns exactly when it had seen what it needs: for adoption strict legacy files, for BEGIN the pinned directory and the attested id, for CONFIRM the pinned directory, for COMPLETE no directory |
| `Authority.Store.Reconcile` | web/runner_lifecycle_authority.py:682-833 | reconciliation leaves exactly the planned changes, the two publishes of COMPLETE included, cut at the kill point; BEGIN returns only for an attested registration with its files unchanged and neither Unit nor service record, CONFIRM only for the pinned directory, COMPLETE only if the directory was no longer there |
| `DriverSafety.StepKeeps` | scripts/remove-runner.sh:774-907 | every step, GitHub call and kill of the register, remove and reconcile scripts keeps the invariant that ties the journal to the calls made so far |
| `DriverSafety.HistoryKeeps` | scripts/remove-runner.sh:707-752 | that invariant holds after any finite history of launches, steps and kills |
| `DriverTheorems.CallsAreOrderly` | scripts/register-runner.sh:557-603 | over any history the GitHub calls are orderly: register first, at most one unregister after it, and nothing after a call that was not confirmed |
| `DriverTheorems.AtMostOncePerInstance` | scripts/remove-runner.sh:707-752 | over any history two calls of one kind never concern the same instance |
| `DriverTheorems.NeverTwoRegistrations` | web/runner_lifecycle_authority.py:203-231 | between two registrations on a slot the first instance was unregistered and confirmed |
| `DriverTheorems.UncertainCallIsTheLast` | scripts/register-runner.sh:584-603 | after a call whose success was not reported the slot never calls GitHub again, whatever is launched |
| `DriverTheorems.UncertainStaysActive` | web/runner_lifecycle_authority.py:203-231 | the instance of a call whose success was not reported stays the active one for good |
| `DriverTheorems.LateCallIsTheOnlyOne` | web/v2_mutation.py:34-41 | a child that survives its killed Executor and makes its GitHub call at any later time: until then nobody else calls GitHub and the instance stays active, so the calls are in order with the late one |
| `DriverTheorems.BeforeEachCall` | scripts/remove-runner.sh:850-907 | a registration finds its own durable PRE_REGISTRATION record, no remove record, and every instance GitHub heard of closed; an unregistration finds the same instance's remove intent durable, with the directory and id it was created and attested with |
| `DriverTheorems.RemoveIntentIsReadable` | scripts/remove-runner.sh:707-715 | a remove script past BEGIN always stands on a remove record every reader accepts |
| `DriverTheorems.FailedRegistrationIsRecorded` | scripts/register-runner.sh:584-603 | when config.sh reports a failure, the script records the instance at REGISTRATION_OUTCOME_UNKNOWN, whatever the root operation then observes, and ends |
| `DriverEvidence.EveryRecordIsWarranted` | web/runner_lifecycle_authority.py:195-897 | over any history, each record on the disk, at each stage it went through, was asked for by a step of the history that had seen what it needs |
| `DriverEvidence.RemovalWasObserved` | scripts/remove-runner.sh:707-752 | over any history, a recorded removal was begun by a step that held the pinned directory and read the recorded id, was confirmed only by a step that held that directory, and is complete only if a step found no directory, each upon the record of the one before |
| `DriverEvidence.AttestationWasObserved` | web/runner_lifecycle_authority.py:404-531 | over any history, an attestation was read from the pinned directory, a Unit attestation saw it, and an adopted instance showed strict legacy files |
| `Progress.RegisterCompletes` | scripts/register-runner.sh:557-691 | from every slot that is new or whose instance is closed in another directory: every undisturbed history of the register script, in any order of its steps, makes boundedly many moves, can always go on until the script has ended, and then stands at CREATE_COMPLETE with exactly one confirmed registration and its attestation |
| `Progress.RemoveCompletes` | scripts/remove-runner.sh:774-907 | from every complete instance: every undisturbed history of the remove script leads, in boundedly many moves, to exactly one confirmed unregistration and a slot that is free for another directory |
| `Progress.ReconcileCompletes` | scripts/remove-runner.sh:684-752 | every undisturbed history of a reconciliation unregisters a registration that stopped before its Unit once, confirmed, leads to ABORTED_RECONCILED, and the slot is free again |
| `Reporting.Diagnostic` | web/v2_failure.py:26-58 | the stepwise classification gives the verdict the errors and readable journal records call for |
| `Reporting.Conclude` | web/v2_mutation.py:105-117 | success exactly when the script exited 0 in time and either the active instance stands at CREATE_COMPLETE with its directory there, or the removed instance is at REMOVE_COMPLETE with nothing under its path; which error any other end is; FAILED_PRE_EXTERNAL only after a non-zero exit |
| `Reporting.SuccessIsReal` | web/v2_closeout.py:15-41 | in every reachable state a reported success means the active instance's readable record is at CREATE_COMPLETE, attested, in a directory that is there, and GitHub confirmed its registration; or the removed instance's is at REMOVE_COMPLETE, its directory is gone, and GitHub confirmed its unregistration |
| `Reporting.RegistrationIsReported` | web/v2_closeout.py:15-30 | every undisturbed registration whose script exits 0 in time is reported as a success when its directory is there, and as CompletionNotVerified when it is not |
| `Reporting.RemovalIsReported` | web/v2_closeout.py:31-38 | every undisturbed removal whose script exits 0 in time is reported as a success when its directory is gone, and as CompletionNotVerified when it is not |
| `Reporting.VerdictMeans` | web/v2_failure.py:26-58 | FAILED_PRE_EXTERNAL exactly when the error says nothing about the outcome and no checkpoint of the active instance can be read |
| `Reporting.FailureIsHonest` | web/v2_failure.py:26-58 | when the journal can be read, FAILED_PRE_EXTERNAL is reported only if no call was made in that transaction |
| `Reporting.UnregisteredHasIntent` | web/v2_failure.py:44-55 | after a transaction that called unregister the active instance's remove record is readable |
| `Publish.CrashAtomic` | web/runner_lifecycle_authority.py:144-184 | after any interleaving of publishers killed or failing at any system call, a read gives the old record, a whole published one or an error, and a present record is never absent |
| `Publish.ExclusiveNeverOverwrites` | web/runner_lifecycle_authority.py:177-183 | whoever else runs, replacing publishers among them, no step of an exclusive publisher rebinds a record or changes its bytes |
| `Publish.OnlyReplacersRebind` | web/runner_lifecycle_authority.py:165-184 | over any run a record that was bound stays bound, its bytes stay as they are, and if it is bound to another file there was a rename by a replacing publisher of that name |
| `Publish.SuccessReadsBack` | web/runner_lifecycle_authority.py:165-184 | an undisturbed publisher that returns normally left its record under exactly one name, readable as published unless its write was short |
| `Publish.OneExclusiveWinner` | web/runner_lifecycle_authority.py:177-183 | of two exclusive publishers of one name at most one gets its record bound, however many replacing publishers of it are at work |
| `Publish.BoundNameIsNeverWon` | web/runner_lifecycle_authority.py:177-183 | a name that is bound at the start is won by no exclusive publisher, whatever else runs |
| `PublishProgress.FreeNameIsPublished` | web/runner_lifecycle_authority.py:165-184 | when no call fails and all publishers have finished, a free name that somebody was to publish reads the whole record of one that returned normally: a sole exclusive publisher and every replacing one succeed |
| `PublishProgress.ReplacedReadsAtOnce` | web/runner_lifecycle_authority.py:165-184 | as soon as the rename of an undisturbed replacing publisher has succeeded, whatever else runs or dies, readers get the new record, unless its write was short |
| `PublishProgress.HalfPublishedIsRefused` | web/runner_lifecycle_authority.py:144-162 | at every point of every run a record whose temporary name is still there is refused by readers |
| `Names.LocalIdBounded` | web/grt_web_common.py:70-94 | for components that keep something an id always exists, has at most 64 characters, exactly 64 when truncated, and is made of non-empty prefixes of both parts, the whole parts exactly when they fit; a truncated one keeps 52 of their characters, cuts a part only to 26 or more, and ends in the first eight digits of the hash of the lowered OWNER/REPO |
| `SpelledNames.SanitisedText` | web/grt_web_common.py:61-67 | a component cut into its stretches sanitises to what stays in lower case (a to z, digits, dot, underscore, dash, each listed), one dash for every maximal stretch of anything else, and no dash at either end |
| `SpelledNames.EveryTextIsCut` | web/grt_web_common.py:61-67 | every text can be cut that way |
| `SpelledNames.TrimmedTextStays` | web/grt_web_common.py:61-67 | a text of the listed characters without a dash at either end is its own sanitised form |
| `SpelledNames.RepositoryIsSpelled` | web/grt_web_common.py:45-50 | OWNER/REPO is two non-empty texts of the listed characters and capitals around one slash |
| `SpelledNames.DottedId` | web/grt_web_common.py:70-94 | the id of a concrete repository with capitals, a dot and an underscore, A_b/C.d9, is a_b--c.d9 |
| `SpelledNames.ConcreteService` | web/grt_web_common.py:97-114 | the canonical service of a concrete runner, and a runner name and a repository that have none |
| `Names.MakeLocalId` | web/grt_web_common.py:70-94 | the Python computation, for any limits: when it fails, that it keeps within the limit, and exactly when it leaves a character unused (odd room and a repository part of half of it); with the default limits it is the specified id, whose parts `SpelledNames.SanitisedText` spells out |
| `Names.MakeLocalIdShell` | scripts/register-runner.sh:153-175 | the shell copy, with its other order of clamping, computes the same id, whose parts `SpelledNames.SanitisedText` spells out |
| `Names.SafeRepoPath` | scripts/web-runner-cleanup.py:101-123 | the cleanup copy accepts exactly the directory of the id and, when nothing was truncated, the legacy name of the project; the parts are spelled out by `SpelledNames.SanitisedText` |
| `Names.RecordNames` | scripts/web-service-record.py:94-114 | the service-record copy accepts exactly the directory of the id and the legacy name; the parts are spelled out by `SpelledNames.SanitisedText` |
| `Names.CopiesAgree` | scripts/web-runner-cleanup.py:101-123 | of all directory names the clean-up copy and the service-record copy accept exactly the one make_local_id names and the legacy name, if and only if neither component is empty once sanitised |
| `Names.DashOwnerAccepted` | scripts/web-service-record.py:94-114 | a concrete repository, -/x: make_local_id refuses it and both scripts accept a directory for it |
| `Names.DirectoryReadsBack` | scripts/status-runners.sh:129-142 | reading a created directory name back gives the sanitised pair exactly when nothing was truncated and neither part contains a double dash |
| `Names.RepoFromDir` | scripts/status-runners.sh:129-142 | a pair is only returned when make_local_id maps it back to that directory's id |
| `Names.RepoFromResidue` | scripts/status-runners.sh:129-149 | the stepwise reading of a directory and its service line |
| `Names.ResidueNamesCreator` | scripts/status-runners.sh:143-149 | the residue of a runner created under its canonical service name gives its own repository back, in lower case |
| `Executor.Root.Privileged` | web/executor_runtime.py:335-420 | the stepwise operation has exactly the specified effects, in order, up to where it stops |
| `Executor.Root.InstallService` | web/executor_runtime.py:315-333 | wrapper, Unit, reload, enable, then the Unit attestation, each only after the one before |
| `Executor.Root.Handle` | web/v2_event_loop.py:29-37 | a frame is rejected without any effect unless it is authorised in the present journal; which frames those are says `FrameTable.AuthorizedExactly`, what they do `FrameDeeds.EveryDeedIsAskedFor` and `WebTransactions` |
| `Executor.Root.Serve` | web/v2_event_loop.py:93-99 | the frames of a transaction have exactly the specified trace of effects, each of which `FrameDeeds.TraceIsAskedFor` traces to the text of one frame |
| `ExecutorSafety.EveryDeedIsOwn` | web/v2_binding.py:43-58 | whatever frames the child sends, every effect is on the transaction's own slot and names its own service |
| `ExecutorSafety.ForeignJournalsUntouched` | web/v2_binding.py:43-58 | no transaction changes the journal of another repository, runner or directory |
| `ExecutorSafety.CreateStageByStage` | web/v2_binding.py:76-93 | at every point of a Create transaction each effect happens at its own durable stage, and no effect belongs to a removal |
| `ExecutorSafety.TransactionIsLicensed` | web/executor_runtime.py:335-420 | a whole transaction is a licensed run of its slot's journal: it keeps the invariant and moves records forward only |
| `ExecutorSafety.OneCyclePerCreate` | web/runner_lifecycle_authority.py:203-231 | a Create transaction starts at most one cycle, and none while the active instance has no remove record |
| `ExecutorSafety.JournalNeverGoesBack` | web/executor_runtime.py:335-420 | between any two effects of a transaction the slot's journal only moves forward |
| `ExecutorSafety.NothingBeforeStartAfterStart` | web/v2_binding.py:85-93 | after an instance's service was started, the same transaction never touches that instance's registration files, wrapper or Unit file again |
| `ExecutorSafety.RemovalFollowsProtocol` | web/v2_binding.py:94-106 | the effects of a Remove transaction follow BEGIN, service actions, CONFIRM, COMPLETE from the phase its instance was in, and the journal shows the phase reached |
| `RemoveGuard.RemovalShape` | web/v2_binding.py:94-106 | everything a Remove transaction does to an instance without a remove record is a beginning of one removal in that order |
| `RemoveGuard.UnitLooks` | web/executor_runtime.py:362-416 | CONFIRM and COMPLETE only write in a frame that found the Unit absent, and a Unit is only unlinked when it validated before and after it was stopped |
| `RemoveGuard.GuardPinsTarget` | web/v2_remove_guard.py:34-80 | after the gate passed, whatever the child does, a remove record of the instance carries the GitHub id the browser asked for and the inode the gate saw |
| `RemoveGuard.BeginPayloadIsAdmitted` | web/v2_privileged.py:45-85 | the begin frame of any slot that can be named at all is admitted as exactly that operation |
| `RemoveGuard.GuardAdmitsBegin` | web/v2_remove_guard.py:34-80 | a BEGIN frame that meets what the gate saw, and sees it through the path as well, is authorised and published |
| `RemoveGuard.GuardIsExact` | web/v2_remove_guard.py:25-80 | the gate passes exactly for the active instance the browser named, complete, attested with the id it named, not being removed, in its pinned directory, with .runner and Unit in order |
| `FrameTable.FramesAreExact` | web/v2_privileged.py:45-85 | a frame is admitted as an operation on a slot if and only if it is the text of that operation, op and stage spelled out, with no other field |
| `FrameTable.NameableParts` | web/v2_privileged.py:53-72 | what a frame may name: OWNER/REPO without . and .., an absolute path no part of which is empty, . or .., and a runner name of the listed characters |
| `FrameTable.VersionIsSpelled` | web/v2_privileged.py:77-80 | a version is three numerals with dots between them |
| `FrameTable.ServiceIsSpelled` | web/v2_privileged.py:81-84 | a service a frame may name is actions.runner., one to 180 of the listed characters, .service |
| `FrameTable.AuthorizedExactly` | web/v2_binding.py:34-110 | a frame is authorised if and only if it is the text of an operation on the own slot, of the transaction's direction, at the durable stage that belongs to it, for the own instance and service, and the directory is no symbolic link |
| `FrameTable.OwnSlotIs` | web/v2_binding.py:44-53 | the slot of a transaction: actions-runner- and the id under the home directory, local-ci- and the id for a new runner |
| `FrameDeeds.EveryDeedIsAskedFor` | web/executor_runtime.py:335-420 | every effect of a frame is one its own text asks for: unlink and disable only service_uninstall, start only service_start, each recorded stage only its own stage text |
| `FrameDeeds.TraceIsAskedFor` | web/v2_event_loop.py:93-99 | every effect of a whole transaction comes from a frame of it whose text asks for it, in the order of the frames |
| `FrameDeeds.EveryDeedIsGrounded` | web/executor_runtime.py:315-416 | every effect rests on what its operation saw: a valid directory, files in order, the attested provenance, the Unit in order or absent |
| `WebTransactions.CreateTransactionCompletes` | scripts/register-runner.sh:557-667 | a Web registration with nothing in the way: all eleven frames are authorised, files restricted, wrapper and Unit published, Unit enabled, service started, in this order and nothing else, and the journal ends at CREATE_COMPLETE, attested |
| `WebTransactions.RemoveTransactionCompletes` | scripts/remove-runner.sh:774-907 | a Web removal with nothing in the way: all eight frames are authorised, the service is stopped, disabled, stopped, its Unit unlinked, systemd reloaded, and nothing else, and the journal ends with the instance closed |
| `LogFiles.CompleteFilePasses` | scripts/cli-operational-logger.py:131-148 | a file of complete records passes the tail check, however many it holds |
| `LogFiles.CutAppendFails` | scripts/cli-operational-logger.py:131-148 | a file whose last append was cut to a proper non-empty prefix fails the tail check |
| `LogFiles.TailIsRecord` | scripts/cli-operational-logger.py:131-148 | the tail check, which reads 4097 bytes at most, passes exactly on an empty file and on one that ends with a complete record on a line of its own |
| `LogRotation.SortedListingIsChronological` | scripts/cli-operational-logger.py:155-159 | sorting the listed names gives the files in the order they were rotated |
| `LogRotation.RetainedIsSuffix` | scripts/cli-operational-logger.py:172-177 | retention keeps a suffix of the rotated files, cut exactly at the age limit |
| `LogRotation.FittingIsLongest` | scripts/cli-operational-logger.py:178-184 | eviction keeps the longest suffix that fits |
| `LogRotation.Sort` | scripts/cli-operational-logger.py:155-159 | the listing is sorted and still the same files |
| `LogState.TornKeeps` | scripts/cli-operational-logger.py:186-203 | a short write leaves every complete record in place, and the active file fails the tail check, which every open applies, unless nothing was written |
| `OperationalLog.Logger.Paths` | scripts/cli-operational-logger.py:115-159 | the stepwise check returns the rotated files in order and the bytes in use, and refuses a torn tail |
| `OperationalLog.Logger.Rotate` | scripts/cli-operational-logger.py:161-164 | rotation changes no surviving record |
| `OperationalLog.Logger.RotateIfDue` | scripts/cli-operational-logger.py:166-171 | the active file is rotated exactly when it is not empty and was last written more than 14 days ago or has reached 10 MiB, under its last write's time in the first case and a later one otherwise |
| `OperationalLog.Logger.Maintain` | scripts/cli-operational-logger.py:166-184 | the active file is rotated exactly when it is due; what is kept is the longest fitting suffix of the retained files, the rest is unlinked oldest first, and failure for capacity means the active file alone does not fit |
| `OperationalLog.Logger.MakeRoom` | scripts/cli-operational-logger.py:186-195 | an append rotates the active file only when the record does not fit or the file is due, and then there is room |
| `OperationalLog.Logger.Append` | scripts/cli-operational-logger.py:186-203 | wherever it fails or is killed, the survivors are a suffix of the history, which counts every record written whole: the confirmed ones, those whose sync failed and those after which the process was killed; a record just written is the last survivor; with an empty lock file capacity is never exhausted; after a torn append nothing changes any more; with safe entries, whole writes, syncs that succeed and nobody killing it, it succeeds exactly when no torn tail and no exhausted capacity is in the way |
| `OperationalLog.Logger.Sessions` | scripts/cli-operational-logger.py:42-203 | over any number of processes, each killed anywhere, the survivors are a suffix of every record written whole, each file is within MAX_FILE and all together within MAX_TOTAL |
| `Cleanup.FileSystem.CheckWalk` | scripts/web-runner-cleanup.py:72-98 | whatever is mounted where, a directory inside itself included, the check pass terminates, changes nothing and passes exactly the trees in which every name leads to a safe entry of the same mount |
| `Cleanup.FileSystem.DeleteWalk` | scripts/web-runner-cleanup.py:72-98 | the deleting pass over a safe tree empties exactly that tree; it stops only where a deletion fails or a name is busy in some other mount, with nothing outside changed |
| `Cleanup.FileSystem.Cleanup` | scripts/web-runner-cleanup.py:126-159 | rejected, with the whole file system unchanged, exactly when the directory is not the pinned, safe one of the base's mount; otherwise exactly its subtree and its entry go, and even a deletion that fails midway changes nothing outside |
| `Cleanup.LinkedFilesAreSpared` | scripts/web-runner-cleanup.py:47-64 | a name anywhere in the tree that leads to a hard-linked or special file, to another device or owner, or into another mount of the same device makes the whole cleanup inadmissible |
| `Cleanup.TreeIsRemovable` | scripts/web-runner-cleanup.py:47-64 | a tree is admitted exactly when everything its names lead to is on the device and in the mount and is a symbolic link, a directory of the user, or a file of the user with one name |
| `Cleanup.MountsReject` | scripts/web-runner-cleanup.py:40-64 | a mount on the runner directory or on any name in its tree, of the same device or not, makes the cleanup reject |
| `Cleanup.AdmittedIsOneMount` | scripts/web-runner-cleanup.py:40-64 | in an admitted tree every name leads to the inode stored under it, in the mount of the base |
| `Cleanup.SelfMountRejects` | scripts/web-runner-cleanup.py:40-64 | a concrete runner directory mounted inside itself, reached through two names and without end, is rejected |
| `ArchiveHook.StepKeeps` | hooks/archive-job-completed.sh:139-209 | every step of every hook keeps the state of each job directory in order, with commands failing, workers killed anywhere, their last command taking effect at any later time, and workers that go on after their timeout was killed |
| `ArchiveHook.PublishedIsComplete` | hooks/archive-job-completed.sh:192-209 | a published PASS manifest was written whole by the hook that made the directory, its workspace is in place and its checksum matches |
| `ArchiveHook.ExitZeroIsPass` | hooks/archive-job-completed.sh:255-279 | a hook that exits 0 has published a valid PASS archive |
| `ArchiveHook.ClaimsDisjoint` | hooks/archive-job-completed.sh:105-122 | two hooks never work in one job directory |
| `ArchiveHook.PassExcludesFailed` | hooks/archive-job-completed.sh:217-279 | PASS and FAILED never stand side by side unless a command of the claim loop, or of the validation of a valid archive, itself fails, or the archive is validated while what is left of its worker, the last rename or all of it, can still publish |
| `ArchiveHook.FaultContradicts` | hooks/archive-job-completed.sh:217-279 | each such fault leads to both manifests if and only if somebody can still publish in the directory, or has: its worker, what is left of it, or a hook that has not found its directory yet |
| `ArchiveHook.FailedValidationContradicts` | hooks/archive-job-completed.sh:217-227 | a concrete run: the worker is killed after its last publication and a validation command fails |
| `ArchiveHook.LatePublicationContradicts` | hooks/archive-job-completed.sh:192-279 | a concrete run in which no command fails: the worker is killed while its last rename is under way, the archive is found unpublished, the rename takes effect, and FAILED is written |
| `ArchiveHook.SurvivingWorkerContradicts` | hooks/archive-job-completed.sh:192-279 | for every step at which the timeout is killed alone, between the removal of an old FAILED manifest and the renames among them, a run in which no command fails and no worker dies: the archive is found unpublished, the worker publishes, and FAILED is written |
| `ArchiveHook.FailedClaimLoopContradicts` | hooks/archive-job-completed.sh:107-116 | a concrete run: a second hook of the job fails inside its claim loop and writes FAILED into the first one's directory, which the first still publishes |
| `HookProgress.WorkingHookPasses` | hooks/archive-job-completed.sh:105-279 | a hook that has claimed its directory and whose own commands work exits 0 after ten steps with a valid archive, whatever other hooks do in between |
| `HookProgress.AloneHookClears` | hooks/archive-job-completed.sh:192-204 | left alone it also clears a FAILED record that stood in its directory |
| `HookProgress.FailedWorkerIsRecorded` | hooks/archive-job-completed.sh:53-279 | a hook whose worker fails before it published, and whose remaining commands work, exits 1 with FAILED on record and no PASS, whatever other hooks do in between |
| `HookProgress.PublishedWorkerPasses` | hooks/archive-job-completed.sh:217-279 | a worker killed after it published leaves a valid archive and its hook exits 0 |
| `FramePump.LinesConcat` | web/v2_event_loop.py:93-95 | the lines of a stream do not depend on where it is cut |
| `FramePump.LinesJoin` | web/v2_event_loop.py:93-95 | the lines joined with newlines, and the rest, are the stream |
| `FramePump.LinesUnique` | web/v2_event_loop.py:93-95 | there is one way to read a stream as lines |
| `FramePump.Pump.HandleLines` | web/v2_event_loop.py:93-104 | each complete line is handled once and in order, up to the first one whose reply cannot be sent or whose handling raises |
| `FramePump.Pump.ReadControl` | web/v2_event_loop.py:82-104 | between rounds the handled frames are exactly the complete lines received and the buffer holds at most 16384 bytes |
| `FramePump.Pump.ReadOutput` | web/v2_event_loop.py:71-80 | the captured output is exactly the first 131072 bytes read |
| `FramePump.Pump.Run` | web/v2_event_loop.py:59-105 | the pump ends cleanly in the first round that finds the child reaped, its output read to the end, and its channel too or no partial frame held, and then with the status that waitpid gave; with no child in the first round that finds none; at the deadline when no round did; every read that the reported events call for was made; any other ending has its cause, an oversized frame, an unsendable reply or an exception, and none without one |
| `FramePump.Pump.ServeAll` | web/v2_event_loop.py:68-104 | the events of one round, each read once, up to the first that ends the pump |
| `Contract.ParseOfPrint` | web/v2_executor_transport.py:82-88 | every flat object printed from plain pairs parses back to the same object |
| `Contract.DecodeOfEncode` | web/v2_executor_contract.py:60-92 | decoding inverts encoding on every request decoding can produce |
| `Contract.DecodedIsValid` | web/v2_executor_contract.py:60-92 | whatever text the parser of flat, plain objects reads, a decoded request passes every field check |
| `Contract.RequestIsShort` | web/v2_executor_transport.py:89-90 | no request has more than 432 characters, so the 4096-byte limit is never reached |
| `SpelledRequests.RequestIsPrinted` | web/v2_executor_transport.py:82-88 | the text of every request, character by character |
| `SpelledRequests.DecodeIsExact` | web/v2_executor_contract.py:60-92 | a text is taken for a request if and only if it is at most 4096 characters long, parses to exactly the fields of that request, and each is in order |
| `SpelledRequests.ValidRequestMeans` | web/v2_executor_contract.py:60-92 | which repositories, runner names, ids and instances are in order, spelled out |
| `SpelledRequests.FrameBytes` | web/v2_executor_transport.py:72-92 | the bytes of every frame: four of length, high byte first, the text, two of length, the token |
| `Wire.FrameRoundTrip` | web/v2_executor_transport.py:39-92 | for every such request and every valid token the encoder succeeds and a reader gets back exactly both, whatever follows |
| `SpelledRequests.ReadIsExact` | web/v2_executor_transport.py:39-70 | a reader takes a request and a token from a connection if and only if it starts with a frame of exactly that request and token, none with a status request |
| `Wire.Connection.Exactly` | web/v2_executor_transport.py:45-52 | any chunking gives exactly the bytes asked for, or nothing at an early end |
| `Wire.Connection.ReadRequestFrame` | web/v2_executor_transport.py:39-70 | the result depends on the bytes of the connection alone, not on how they arrive, errors included |
| `TokenPipe.Pipe.Make` | web/v2_token_fd.py:21-41 | short writes leave exactly one line in the pipe, or the call fails |
| `TokenPipe.Pipe.Consume` | web/v2_token_fd.py:44-64 | an accepted token was the first line; a pipe holding one valid line gives it back under any short reads |
| `TokenPipe.Handoff` | web/v2_token_fd.py:21-64 | what is consumed is what was made, under any short reads and writes |
| `UnitFile.Validate` | web/cli_create_authority.py:43-89 | the parsing loop accepts exactly the official Units: three sections once each, exactly the expected keys once each with their values, a short description of the right kind |
| `UnitFile.OfficialStartsOnlyTheRunner` | web/cli_create_authority.py:43-89 | an accepted Unit has exactly one ExecStart line anywhere, and it names the runner's own runsvc.sh |
| `UnitFile.OfficialKeysOnly` | web/cli_create_authority.py:43-89 | an accepted Unit has no key outside the schema and none outside a section |
| `UnitTexts.OfficialTexts` | web/cli_create_authority.py:43-89 | in both templates a Unit is accepted if and only if it is three sections that hold the listed lines, User and paths included, each once, and one description: no line more, none less, none elsewhere |
| `UnitPrinter.PrinterMeetsValidator` | web/v2_unit_installer.py:33-58 | whenever the service has a canonical name and a Unit is printed at all, the validator accepts it if and only if the directory contains no line boundary |
| `UnitPrinter.CarriageReturnIsRefused` | web/v2_unit_installer.py:33-58 | a concrete Unit, for a directory with a carriage return, that is printed and refused |
| `Quarantine.RenameConserves` | scripts/web-service-record.py:23-31 | a rename without replacement destroys no entry and no contents |
| `Quarantine.Runners.Quarantine` | scripts/web-service-record.py:176-206 | under any interference nothing this process does destroys an entry, and a record moved aside is moved back unless it passed the check, or cannot be, because it is gone or the name is taken; left alone it succeeds exactly when the record and registration are in order, leaving .service absent and the checked inode aside, and otherwise changes nothing |
| `Quarantine.Runners.MoveAside` | scripts/web-service-record.py:182-206 | the move aside, the check and the roll-back |
| `Quarantine.ReadyMeans` | scripts/web-service-record.py:44-58 | what a record and a registration in order are, field by field |
| `Quarantine.Runners.CheckMoved` | scripts/web-service-record.py:186-200 | the moved entry is the one that was checked |
| `Quarantine.VerifiedMeans` | scripts/web-service-record.py:159-173 | what verification looks at, field by field |
| `Quarantine.Runners.Verify` | scripts/web-service-record.py:159-173 | left alone, verification accepts exactly a single quarantine entry with the proven inode and change time, no .service and registration in order |
| `Quarantine.QuarantineThenVerify` | scripts/web-service-record.py:127-206 | verification accepts what an undisturbed quarantine printed |
| `Installer.Host.CheckedInstall` | scripts/fresh-install.sh:132-149 | an existing object must be right, a missing one is made, and a kill can leave it torn |
| `Installer.Host.WriteState` | scripts/fresh-install.sh:95-105 | the record is replaced at once or stays as it was, whatever the kill point |
| `Installer.Host.Stage` | scripts/fresh-install.sh:234-274 | a recorded stage is verified again, an unrecorded one is recorded only when all its objects are in place |
| `Installer.EveryObjectIsPlanned` | scripts/fresh-install.sh:234-518 | every object of an installation is installed by some stage, and nothing else |
| `Installer.Host.Authenticate` | scripts/fresh-install.sh:480-511 | the credential is journaled before it is published and an unknown one is never adopted |
| `Installer.Host.Run` | scripts/fresh-install.sh:203-557 | in every state reached by kills and reruns a recorded stage means its objects are in place; a run for another identity, or after completion, changes nothing; a completed run has every object of the installation in place, the credential published, and the identity, attempt and address of its first record; an undisturbed rerun completes exactly when no earlier kill left damage |
| `Installer.Host.Prepare` | scripts/install-auth-recovery.py:75-92 | a new attempt is journaled only when neither journal nor credential exists |
| `Installer.Host.Publish` | scripts/install-auth-recovery.py:93-108 | a credential that publish or verify accepts equals the bytes first journaled by this attempt |

## Left out

- HTTP, cookies, rendering, scrypt, capabilities, PTY and SO_PEERCRED calls, artifact downloads, the updater and the release builder: little state to reason about.
- Other slots: the journal is modelled for one slot, records under other keys are not touched by its operations because keys are hashes of the whole tuple; SHA-256 is taken as injective where the archive's checksums are compared, and as any function of 64 digits elsewhere.
- Random temporary names and instance ids: temporary names are distinct; an instance id that is already used is refused by the exclusive link, as in the source.
- The mutation lock: the operations of a slot are serial, and a root operation under way ends with the process that is killed; of what a child may do after its Executor was killed only the GitHub call is modelled (`DriverTheorems.LateCallIsTheOnlyOne`), because it has no channel for a checkpoint any more.
- Ownership, mode and path-walk checks: one look either refuses or shows the inode; only link counts are kept, where records and entries are read.
- JSON beyond flat objects of plain strings and non-negative integers, and text beyond ASCII in requests; which bytes are valid UTF-8 or a valid log record is a parameter.
- Names are ASCII: `validate_repository` admits nothing else, and account names outside ASCII letters, digits, underscore and dash are not modelled.
- Clock adjustment: the log's clock is strictly increasing.
- `--recover-local`: it never touches the journal; the observations of every operation leave room for a directory it removed.
- `validate_unit` beyond its three answers (absent, in order, refused), systemctl outcomes beyond success and failure, and the file checks of `normalize_new_registration` beyond one flag.
- Transactions of other kinds than create, remove and status.
- `unit_bytes` and `_validate_unit_file_schema`: only the stricter validator of web/cli_create_authority.py is compared with the printer.
- The archive worker: a rename that reports failure had no effect; a validation looks at the directory in one step.
- A slot's directory has one name: web/executor_runtime.py canonicalises it and journals under the real path, web/v2_binding.py, web/v2_failure.py and web/v2_closeout.py join it from its parts; the model has the two equal, as they are when no part of the path is a symbolic link.
- Ownership of installed objects: bytes and metadata are one value, right or torn; a log file's growing content is not compared, as in the source.
- Cleanup.FileSystem.Cleanup: the path check enters as the flag `scoped`, which `Names.SafeRepoPath` computes; the two uses of `_walk` are two methods, no other process changes the tree or the mounts meanwhile, and at most one mount lies on a name.
- Cleanup.FileSystem.CheckWalk: the source opens each entry before checking it and compares it again afterwards; without interference the second look sees the same. It also recurses with an open descriptor for each level, so that a tree deeper than the interpreter or the process allows is refused although it is safe; the model has no such limit.
- Quarantine.Runners.Quarantine: a record's content is equal to the expected line or not; the optional final newline is not told apart.
- Executor.Root.Serve: the frames arrive as a list; `FramePump` says which frames a stream holds.
- Installer.Host.Run: the host is not restarted between runs; /run/lock is volatile, and after a restart a rerun finds the lock objects of the recorded AUTHORITY_STATE stage missing and stops at scripts/fresh-install.sh:285.
- Installer.Host.Stage: unknown entries in managed directories other than leftover state files are not modelled.
- DriverSafety.StepKeeps: local work between checkpoints either succeeds or fails; what it changes on disk enters the model only through later observations.
- Publish.SuccessReadsBack: the source writes a record with one call and does not check how much was written; the model keeps that short write apart.
