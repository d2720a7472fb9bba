# vm-manager in Dafny

vm-manager runs QEMU virtual machines through a concurrent lifecycle (install, boot, attest, ready, stop, delete, restart) and hands a guest its bootstrap secret, the user-data, only after a TPM quote of that boot was verified. This project models the parts of it whose correctness is hard to see from any one function and proves what they promise, for every input, every run and every interleaving:

- `Lifecycle*.dfy`, `VmOutcomes.dfy`, `VmService.dfy`, `Cid.dfy`: the VM lifecycle of `internal/vm`. `Lifecycle` is a transition system. One step is one critical section under the service lock, one acquisition of an entry's operation lock, or one event of the environment (a process starts or exits, vm-manager crashes). `VmService.Service` is the object: one method per critical section, each proved to be the lifecycle step it stands for, to keep the invariant of the lifecycle (`Valid`, which is `ServiceOK` by `SoundIffOK`), and to leave what `VmOutcomes` says of it.
- `NonceStore.dfy`, `NonceHistory.dfy`: the single-use, expiring, capped nonces of `internal/nonce`, as an object and against the log of its operations.
- `Text.dfy`, `TpmQuote.dfy`, `Policy.dfy`, `Verifier.dfy`, `Learning.dfy`: PCR selections and digests, image policies, the verdict on a quote, key pinning, and recording golden values.
- `Gate.dfy`, `GateBoots.dfy`, `GateLimits.dfy`, `GateRules.dfy`: lifecycle, nonces, pinned keys and submissions in flight as one transition system, the user-data gate over all its traces, which boot a verdict is of, and the gate for a VM as it was asked for, with the rules of the quote spelled out.
- `VarlinkStream.dfy`, `VarlinkConn.dfy`, `VarlinkReplies.dfy`: reassembling Varlink messages and their file descriptors from recvmsg pieces, calls over one connection, and which call takes which replies.
- `Address.dfy`, `Network.dfy`: the address arithmetic and the leases of a network.
- `Versions.dfy`, `VersionOrder.dfy`, `Images.dfy`: the comparison of image versions, exactly when it is an order, and how image references resolve.
- `Common.dfy`: shared vocabulary.

How the outside world enters: processes, guests, clocks, random ids and nonces, JSON decoding, signature verification and the kernel's answers are parameters or free choices of a step. The hash functions are a parameter; the one a PCR digest is made with is named in the quote's signature, and is assumed injective only where a result says so. Saving a record is an atomic update of the stored copy, and saves succeed.

## Main results

- **Record and process agree** in every reachable state (`RecordAndProcessAgree`), at most one process per VM runs of those one vm-manager started or reattached to (`AtMostOneProcess`), no start after Delete or Close except by a launch that was overtaken, which is characterised exactly (`StartOfGoneVmIffLate`, `LateMeansOvertaken`), no deadlock and guaranteed completion of Close (`NoReachableDeadlock`, `InternalRunsEnd`, `CloseCompletes`), crash consistency (`CrashKeepsRecords`, `ReloadSettles`, `InstallationNeverLost`).
- **The user-data gate** (`Gate.UserDataGate`): whenever an address resolves to a released VM that requires attestation, a nonce was issued to it, used once and in time by a submission whose initrd-stage quote convinced, whose key was enrolled and whose verdict was recorded since the last installed boot began. The converse is `Gate.ConvincingQuoteOpensGate`: such a quote opens the gate from any state. `GateRules.RequiredMeansQuoted` states it for a VM created with attestation required, PCR by PCR; whether a VM must attest is decided by its creation for good (`LifecycleRequirement.RequirementIsFinal`).
- **Quotes**: the verdict is exactly the conjunction of the checks (`SubmitQuote`), which are, stage by stage and PCR by PCR, the documented ones (`SoundMeans`, `GenuineMeans`), an accepted PCR digest pins down the quoted values (`VerifiesIffQuoted`), one key per VM until it is forgotten (`OneKeyUntilForgotten`, `ReadyOnlyAfterInitrd`), learning then recording is a fixpoint (`LearnThenRecord`).
- **Nonces**: sweeping is invisible (`SweepingIsInvisible`), and Consume answers exactly by the log (`ConsumeIffOpen`).
- **Varlink**: any split of the stream delivers the same messages (`SameMessages`), with the same descriptors as long as each batch of them arrives with bytes of its own message (`SplitIndependent`); no descriptor is lost or duplicated; each call takes exactly the replies to its own request (`EachCallTakesItsReplies`) except after one kind of callback error, characterised on the inputs (`EndsMidStreamIff`, `OutstandingIffAbandoned`); and a call breaks the connection exactly in the cases read off its inputs (`UsableIff`).
- **Addresses, CIDs, versions**: lowest free address and exhaustion by counting (`Attach`), first free CID in cyclic order, exactly when CIDs stay distinct over a run (`CidsDistinctIff`), version comparison as the lexicographic order of number vectors, and exactly which three versions it orders (`VersionsTransitiveIff`).

## Where the code does less than its documentation

Each has a concrete run or input, and the exact condition under which the promise holds.

- `internal/vm/doc.go:44-52` says no process starts once Delete or Close has begun. `launch` checks neither flag after it takes the operation lock, so a Create overtaken between allocate and launch still starts its installer (`LaunchAfterDelete`, `LaunchAfterClose`). It happens exactly for late launches (`StartOfGoneVmIffLate`). After Close such a process is abandoned by its supervisor, and a Delete of that VM waits for ever (`DeleteAfterLateLaunch`, `VainWaitNeverEnds`); a holder of the operation lock can go on exactly when it does not wait for an abandoned process (`HolderMovesIff`), a Stop that waits exactly when its process is not abandoned (`WaiterMovesIff`), and without a late launch no process is, when Close stops the VMs (`AbandonedOnlyLate`). Start and the hand-off never boot a VM whose record is deleting, late launch or not (`DeletingNeverBoots`).
- `internal/vm/doc.go` says a deleted record disappears. A guest message saved between the removal of the directory and the removal from the map writes it again (`DeletedVmComesBack`), and that is the only way (`RemovedWithRecordIff`). From then to the next crash a removed VM's record returns exactly if that happened or a late launch wrote it, and no failed launch erased it since (`RemovedVmReturnsIff`).
- A stopped VM is not always startable: one stopped while installing is not (`StoppedWhileInstalling`, `IdleStartableIffInstalled`).
- The gate does not promise that the quote was made in the boot it unlocks: for any convincing quote there is a trace in which the VM is stopped and started between enrolment and recording, and the old verdict unlocks the new boot (`VerdictUnlocksNextBoot`). The quote is of the boot it unlocks exactly when the VM's process at the submission is its process at the recording (`VerdictOfThisBoot`). Pinned keys and nonces are kept in memory and lost when vm-manager restarts.
- `internal/varlink/varlink.go:216-220` says an error of a CallMore callback with replies pending closes the connection. It does not when the error wraps a Varlink error: on a new connection the next call then takes a reply to the request before (`AbandonedStreamMisaligns`). Outstanding replies count exactly these calls (`OutstandingIffAbandoned`). A message over the size limit is refused or not depending on the split (`OversizeDependsOnSplit`, `LongMessageIffJumped`).
- `internal/images/images.go:182-184`: a bare id that is at the same time another image's full reference selects that image (`ReferenceHidesId`, `BareIdSelectsHighest`). Version components from the largest int on are clamped (`NumericIffBelowLargest`), and a missing component, meant to sort below anything, sorts below another exactly when that is no number or an unsigned one above zero (`MissingBelowIffPositive`).
- `internal/images/images.go:300-301` says the comparison orders versions. A number and a text are compared by what they start with, two texts as texts, and the two need not agree: with any parts before, 9-rc is below 9, 9 below 10-rc, and 10-rc below 9-rc (`PreReleaseVersionsCircle`). Three components are ordered if and only if no number lies between two texts that are the other way round as texts, and no text between two numbers that are the other way round, or equal but apart from it (`TransitiveIffUntorn`); the latter takes a signed number (`UnsignedNeverTorn`). Three versions are ordered if and only if they are not torn so at the first place where they differ, or a tie of the tear is broken the other way further on (`VersionsTransitiveIff`).
- CIDs are meant to be distinct. A CID reassigned while records are still being loaded can be that of one of them (`ReassignDuringLoadCollides`), and so can the CID of a deleted VM whose record returns after it was given away (`ReturningRecordCollides`). An action keeps CIDs valid and distinct exactly when a new CID is in range and of no record still to be loaded, and a crash brings back no record whose CID is held by another VM (`ActionKeepsCidsIff`, `CidsDistinctIff`).

## Model

| member | source | states |
|---|---|---|
| `Cid.FreeCIDFrom` | internal/vm/lifecycle.go:218-234 | the bounded-integer scan returns the first unused CID in cyclic order from its start, which is one value, within the valid range and without overflow, or the sentinel when none is left |
| `Cid.RoomLeft` | internal/vm/lifecycle.go:218-234 | fewer holders than CIDs leave one free (pigeonhole) |
| `LifecycleCids.RoomForAnother` | internal/vm/lifecycle.go:214-234 | while fewer VMs than CIDs are in the map, the scan over them finds a valid CID from any start |
| `LifecycleInvariant.StepKeepsEntry` | internal/vm/lifecycle.go:503-719 | every step of any operation, supervisor, guest or Close keeps an entry's invariant: record, process table, lock holder, hand-off and stored copy |
| `LifecycleRuns.NextKeepsService` | internal/vm/service.go:252-423 | every action, including Close, a crash and reloading, keeps the invariant of all entries |
| `LifecycleRuns.EveryStateOK` | internal/vm/lifecycle.go:45-843 | every state of every run satisfies the lifecycle invariant |
| `LifecycleRuns.RecordAndProcessAgree` | internal/vm/lifecycle.go:503-719 | the state table for every interleaving: which states have a process, of which phase, and what the record says about installation, boot, nonce and readiness |
| `LifecycleRuns.AtMostOneProcess` | internal/vm/lifecycle.go:645-719 | at any point of any run at most one process of a VM is running, of those the vm-manager of that moment started or reattached to |
| `LifecycleRuns.StartOfGoneVmIffLate` | internal/vm/lifecycle.go:58-93 | a process is started for a VM that Delete or Close is done with only after a late launch, and by a launch exactly when it was late |
| `LifecycleRuns.LateMeansOvertaken` | internal/vm/lifecycle.go:70-93 | a late entry has in its past a launch that took the lock after Delete had the record or Close had visited it |
| `LifecycleRuns.NoBootBeginsAfterClose` | internal/vm/lifecycle.go:623-702 | once closing is set, neither Start nor the hand-off begins another boot |
| `LifecycleRuns.DeletingNeverBoots` | internal/vm/lifecycle.go:623-702 | in every reachable state, late launch or not, neither Start nor the hand-off is booting a VM whose record is deleting |
| `LifecycleRuns.DeletingIsFinal` | internal/vm/lifecycle.go:806-843 | a deleting record stays deleting with no launch in flight, unless that launch was late; Start and the hand-off boot only what a late launch has made of it since |
| `LifecycleRuns.StopAllSettles` | internal/vm/service.go:371-388 | after stopAll no VM without a late launch has a process or a live state, and an installed one is left startable |
| `LifecycleRuns.CrashKeepsRecords` | internal/vm/service.go:252-291 | a crash hands over exactly the records in memory, except those Delete or a failed Create had removed |
| `LifecycleRuns.ReloadSettles` | internal/vm/service.go:299-329 | reload turns a creating or deleting record failed, leaves a stopped or failed one as it is, reattaches a live one unchanged to the very process it names, killed again exactly if it was stopping, or stops it without handles; nothing else of the record changes, and the whole invariant holds again |
| `LifecycleRuns.InstallationNeverLost` | internal/vm/service.go:252-329 | across steps, crashes and reloads a known VM never loses InstalledAt, Booted or its address, and its attestation requirement never changes |
| `LifecycleRequirement.RequiredAsAllocated` | internal/vm/lifecycle.go:140-181 | every record of every reachable state was made by an allocation, and requires attestation exactly if that asked for it |
| `LifecycleRequirement.RequirementIsFinal` | internal/vm/lifecycle.go:162-171 | after an allocation every later record of that id, in memory or on disk, across crashes, requires attestation exactly as asked |
| `LifecycleRequirement.UnrequiredIsReleased` | internal/vm/lifecycle.go:645-663 | a VM created without the requirement has its user-data released whenever its installed system is up |
| `LifecycleWaits.NothingWithheld` | internal/vm/lifecycle.go:875-892 | of a VM whose installed boot is up a waiter is told installed, attested exactly when user-data is released, and ready exactly when the VM is ready |
| `LifecycleWaits.WaitForMilestone` | internal/vm/lifecycle.go:847-892 | over samples of the VM's record along a run, each taken after the channel of the one before closed, the wait returns at the first that settles it: lost exactly for a failed, stopping, stopped or deleting record, done exactly for any other with the milestone's field set; what it reports is true of the VM then, nothing is withheld, and while it sleeps the milestone has not been reached |
| `LifecycleWaits.NoLostWakeup` | internal/vm/lifecycle.go:847-873 | as long as the channel a waiter holds was not closed, the record it sampled answers every milestone like the current one |
| `LifecycleWaits.ReleasedSinceBoot` | internal/vm/imds.go:160-183 | a released VM that requires attestation had a verified initrd verdict recorded since its last installed boot or creation, whatever the attestor |
| `LifecycleWaits.AttestedMilestoneSound` | internal/vm/lifecycle.go:875-892 | the attested milestone is reported of an installed boot that is up, with a verdict recorded in that boot when required |
| `LifecycleWaits.ReadyMilestoneSound` | internal/vm/lifecycle.go:875-892 | the ready milestone is reported of a ready VM, notified by the boot that is up |
| `LifecycleProgress.HolderMovesIff` | internal/vm/lifecycle.go:548-588 | in any mode the holder of an operation lock, or the process it waits for, can take a step exactly when it does not wait for an abandoned process |
| `LifecycleProgress.AbandonedOnlyLate` | internal/vm/lifecycle.go:476-481 | in stopping mode only the process of a late launch is ever abandoned by its supervisor |
| `LifecycleProgress.WaiterMovesIff` | internal/vm/lifecycle.go:756-792 | in any mode a Stop that waits for a process, or that process, can take a step exactly when the process is not abandoned |
| `LifecycleProgress.NoDeadlock` | internal/vm/lifecycle.go:548-588 | in any mode, unless a process of the entry is abandoned, whoever holds or waits for the operation lock or for a process to end, some step of that entry is enabled |
| `LifecycleProgress.NoReachableDeadlock` | internal/vm/lifecycle.go:548-588 | the same for every entry of every reachable state |
| `LifecycleProgress.InternalRunsEnd` | internal/vm/service.go:371-388 | steps that carry on what is in flight are bounded by a measure of the work left |
| `LifecycleProgress.CloseCompletes` | internal/vm/service.go:338-388 | when no such step is left during Close and no launch was late, stopAll has returned and nothing waits |
| `LifecycleCids.ActionKeepsCidsIff` | internal/vm/lifecycle.go:140-246 | from distinct CIDs, an action keeps all records' CIDs valid and distinct if and only if the CID it gives is in range and of no record still to be loaded, or, for a crash, no returning record's CID is held by another VM |
| `LifecycleCids.CidsDistinctIff` | internal/vm/lifecycle.go:140-246 | along any run the CIDs of all records are valid and pairwise distinct if and only if each of its actions is of that kind |
| `LifecycleCidLimits.ReassignDuringLoadCollides` | internal/vm/lifecycle.go:237-246 | a run in which a VM reattached during load finishes installing, is refused its CID and is moved to the CID of a record not loaded yet |
| `LifecycleCidLimits.ReturningRecordCollides` | internal/vm/service.go:271-291 | a run in which the CID of a deleted VM is given to the next one and a crash brings the deleted VM's record back |
| `LifecycleLimits.LaunchAfterDelete` | internal/vm/lifecycle.go:58-93 | a run in which Delete completes between allocate and launch and the installer still starts |
| `LifecycleLimits.LaunchAfterClose` | internal/vm/lifecycle.go:58-93 | a run in which stopAll has returned when the installer starts |
| `LifecycleLimits.DeleteAfterLateLaunch` | internal/vm/lifecycle.go:476-481 | a run in which a Delete waits for a late launch's process whose supervisor has returned |
| `LifecycleLimits.VainWaitNeverEnds` | internal/vm/lifecycle.go:783-792 | such a Delete never ends while vm-manager runs, whatever else happens |
| `LifecycleLimits.DeletedVmComesBack` | internal/vm/lifecycle.go:831-843 | a run in which a deleted VM is back, failed, after a restart |
| `LifecycleRemoval.RemovedWithRecordIff` | internal/vm/lifecycle.go:831-843 | when Delete or a failed Create is done, the record is on disk if and only if a nonce or a verdict of the VM was recorded after its last teardown |
| `LifecycleRemoval.RecordAfterwards` | internal/vm/lifecycle.go:299-310 | a VM outside the map without a process: at any later point until the next crash its record is on disk if and only if it was, or a launch wrote it since, and no failed launch erased it; such a launch was late |
| `LifecycleRemoval.RemovedVmReturnsIff` | internal/vm/imds.go:140-183 | a crash after the removal brings the record back if and only if a guest's message was recorded between teardown and removal or a late launch wrote it, and no failed launch erased it since |
| `LifecycleLimits.StoppedWhileInstalling` | internal/vm/lifecycle.go:688-719 | a run that ends in a stopped VM that cannot be started |
| `LifecycleLimits.IdleStartableIffInstalled` | internal/vm/lifecycle.go:688-719 | in any reachable state a stopped or failed VM can be started exactly when it finished installing |
| `VmService.SoundIffOK` | internal/vm/service.go:223-246 | the object's invariant is the invariant of every state of every run, with 32-bit CIDs |
| `VmService.Service.constructor` | internal/vm/service.go:223-246 | a new service is the initial state with the stored records that can be read still to be loaded, the others skipped, and valid if those are records a vm-manager writes |
| `VmService.Service.FreeCid` | internal/vm/lifecycle.go:214-234 | the scan over the VMs in the map returns the first free CID |
| `VmService.Service.Allocate` | internal/vm/lifecycle.go:140-181 | allocate is refused exactly once Close has begun or while a VM in the map has the name, with the right error; otherwise the VM is in the map and stored as creating, with the first free CID, without address, process or verdicts, locked, and required to attest exactly as asked |
| `VmService.Service.ReassignCID` | internal/vm/lifecycle.go:237-246 | the VM gets the first free CID after the refused one, stored, and nothing else of its record changes |
| `VmService.Service.PublishInstaller` | internal/vm/lifecycle.go:82-90 | after launch the installer is the VM's only process and supervised, the stored record says installing, nothing is installed yet, and address, CID and requirement are kept |
| `VmService.Service.PublishBoot` | internal/vm/lifecycle.go:650-663 | after startBoot the boot is the VM's only process, installed, with user-data locked exactly if attestation is required, no verdicts and no milestone of an earlier boot; address, CID, requirement and installation are kept |
| `VmService.Service.StartCheck` | internal/vm/lifecycle.go:696-710 | Start goes on exactly when Close has not begun and the VM is installed, not deleting and without a process, then with no process of the VM running; otherwise nothing changes and the error says which |
| `VmService.Service.HandoffCheck` | internal/vm/lifecycle.go:626-638 | a boot follows exactly when the VM is installing without a process and Close has not begun; when Close has, the installed VM is left stopped; a VM that has moved on is left alone |
| `VmOutcomes.FailedLaunchIsUndone` | internal/vm/lifecycle.go:299-310 | a launch that fails is undone in two steps: no directory, out of the map, nothing running |
| `VmService.Service.Fail` | internal/vm/lifecycle.go:668-676 | a boot that fails to start leaves the VM failed, at rest, stored, and startable again exactly if Close has not begun |
| `VmService.Service.OnTimeout` | internal/vm/lifecycle.go:503-519 | exactly a booting or attesting VM becomes running, only an installer out of time is killed and then never counts as a success, and nothing else changes |
| `VmService.Service.OnNotify` | internal/vm/lifecycle.go:523-544 | READY=1 of a system that is up makes it ready, with ReadyAt and Booted set and nothing else changed; other messages leave the record alone |
| `VmService.Service.OnExit` | internal/vm/lifecycle.go:556-588 | the VM has no process and a stored record: still deleting, or stopped after a stop, or installed with its first boot coming exactly if an installer exited with 0 in time while installing, or failed if that installer did not, or stopped after exit 0 and failed after any other; nothing else of the record changes |
| `VmService.Service.Stop` | internal/vm/lifecycle.go:756-775 | Stop is accepted exactly when the VM is known, not deleting and has a process, with the error telling unknown from refused; then that process is killed with this caller waiting for it, and the record differs by being stopping only |
| `VmService.Service.DeleteBegin` | internal/vm/lifecycle.go:812-827 | Delete is accepted exactly for a known VM not already deleting, with the error telling which; then the record differs by being deleting only, no address resolves to it and its process, if any, is killed and waited for |
| `VmService.Service.DeleteRemove` | internal/vm/lifecycle.go:833-836 | the VM is out of the map, no address resolves to it, none of its processes runs, and what is on disk is untouched |
| `VmService.Service.OnNonce` | internal/vm/imds.go:140-155 | a nonce is noted for a known VM and nothing otherwise: user-data stays as it is, and exactly a booting VM that must attest becomes attesting |
| `VmService.Service.RecordQuote` | internal/vm/imds.go:160-183 | the verdict of a known VM is kept under its own stage and the other stage's is kept too; it releases user-data exactly if it is a verified initrd-stage one, never locks it, and changes nothing but attestation |
| `VmService.Service.LookupByIP` | internal/vm/imds.go:20-48 | the lookup answers with a VM that has the address and is not being deleted, and with none exactly if there is none |
| `VmService.Service.CloseBegin` | internal/vm/service.go:338-346 | Close's first section sets the flag and queues exactly the VMs in the map for a visit, changing nothing else of them |
| `VmService.Service.VisitStop` | internal/vm/service.go:373-385 | unless a launch was late the visited VM has no process, or the visit waits for its process, killed and recorded as stopping |
| `VmService.Service.Restore` | internal/vm/service.go:299-329 | a stored record comes back settled: not creating or deleting, reattached to the very process it names or stopped without handles, with installation, first boot and attestation kept |
| `VmService.Service.Load` | internal/vm/service.go:271-291 | every readable record comes back settled and none is left, in a valid service |
| `NonceStore.Store.constructor` | internal/nonce/nonce.go:72-79 | options that are not positive keep the defaults, 300 seconds and 8 nonces |
| `NonceStore.Store.IssueNonce` | internal/nonce/nonce.go:82-104 | Issue sweeps, drops an oldest nonce only at the cap, and stores the new one |
| `NonceStore.Store.ConsumeNonce` | internal/nonce/nonce.go:107-117 | Consume answers whether the nonce is held and in time, and removes it either way |
| `NonceStore.Store.ForgetVM` | internal/nonce/nonce.go:120-124 | Forget drops exactly the VM's nonces |
| `NonceStore.Store.Sweep` | internal/nonce/nonce.go:127-138 | the sweep loops leave exactly the nonces in time and no empty VM |
| `NonceStore.Oldest` | internal/nonce/nonce.go:141-152 | the loop finds a nonce none is older than |
| `NonceHistory.ConsumeIffOpen` | internal/nonce/nonce.go:107-117 | under a clock that never runs backwards Consume is true exactly when the log has an issue to that VM in time, not consumed, forgotten or evicted since |
| `NonceHistory.AcceptedOncePerIssue` | internal/nonce/nonce.go:107-117 | between two acceptances of a nonce it was issued again |
| `NonceHistory.NeverOverCap` | internal/nonce/nonce.go:82-104 | no VM ever holds more nonces than the cap |
| `NonceHistory.SweepingIsInvisible` | internal/nonce/nonce.go:82-138 | every history of the sweeping store has a history of a store that never sweeps with the same requests and the same answers |
| `Text.HexEncodeDecode` | internal/attest/policy.go:210-213 | encoding what was decoded gives the lower-case text |
| `Text.HexEncodeAt` | internal/attest/verifier.go:387-393 | each byte is written as its high and then its low digit, in lower case |
| `Text.HexComparesBytes` | internal/attest/verifier.go:199-202 | comparing lower-case hex text compares the bytes, and text that is not hex equals no bytes |
| `TpmQuote.SelectedIndexes` | internal/tpmquote/tpmquote.go:290-324 | the bitmap loop lists exactly the set bits, ascending |
| `TpmQuote.BitsMean` | internal/tpmquote/tpmquote.go:290-324 | bit n of a byte is the one of value 2^n, and a byte has the bits of its parts |
| `TpmQuote.DecodeSelection` | internal/tpmquote/tpmquote.go:290-324 | a selection decodes exactly when one bank, a known one, selects PCRs, and then to its indexes; otherwise the error says which condition failed |
| `TpmQuote.OneBankUnique` | internal/tpmquote/tpmquote.go:290-324 | what a selection decodes to is unique |
| `TpmQuote.PCRDigest` | internal/tpmquote/tpmquote.go:235-248 | the digest is of the values concatenated in ascending order, and fails exactly when one is missing |
| `TpmQuote.VerifyPCRs` | internal/tpmquote/tpmquote.go:251-268 | accepts exactly values of the bank's size, all present, with the quoted digest |
| `TpmQuote.ConcatenationUnambiguous` | internal/tpmquote/tpmquote.go:251-268 | with values of one size the concatenation determines each value |
| `TpmQuote.BlockAt` | internal/tpmquote/tpmquote.go:235-248 | the n-th block of what is hashed is the value of the n-th PCR |
| `TpmQuote.VerifiesIffQuoted` | internal/tpmquote/tpmquote.go:235-268 | with an injective hash, exactly the values the TPM quoted at the selected indexes are accepted |
| `Policy.Validate` | internal/attest/policy.go:170-206 | the loops accept exactly the well-formed policies |
| `Policy.WellFormedMeans` | internal/attest/policy.go:170-206 | a policy is well formed exactly when both phases of PCR 11 are there, every entry is 64 hex digits, every Kubernetes version is named, the golden bank is sha256 and its indexes are 0 to 23 |
| `Policy.ExpectedIsDigest` | internal/attest/policy.go:210-227 | the expected value of a well-formed policy stands for one 32-byte digest |
| `Policy.GoldenFromPCRs` | internal/attest/policy.go:249-257 | the loop picks exactly the golden indexes a quote covered, with their values |
| `Verifier.LearnedExactly` | internal/attest/verifier.go:206-226 | learned are exactly the compared indexes without an expected value |
| `Verifier.DecodePCRs` | internal/attest/verifier.go:371-385 | succeeds exactly when every selected index is present and hex, with the decoded bytes |
| `Verifier.MissingPCRs` | internal/attest/verifier.go:395-408 | exactly the needed indexes the quote does not cover |
| `Verifier.ComparePCRs` | internal/attest/verifier.go:203-233 | the compare closure finds a mismatch or an unknown value exactly when there is one, and lists what was learned |
| `Verifier.CheckQuote` | internal/attest/verifier.go:167-191 | passes exactly genuine quotes that cover the stage; each refusal means its check failed |
| `Verifier.CheckPolicy` | internal/attest/verifier.go:197-246 | passes exactly values that match the policy; each refusal means the check it names failed |
| `Verifier.Judge` | internal/attest/verifier.go:167-246 | verified exactly when the quote is sound and the pin, if any, is its key; PCRs are noted only when the digest covers them |
| `Verifier.Verifier.Enroll` | internal/attest/verifier.go:319-333 | an initrd quote pins the first key, every quote must match the pin |
| `Verifier.Verifier.Store` | internal/attest/verifier.go:335-348 | the last verdict per stage is kept, the pin untouched |
| `Verifier.Verifier.Forget` | internal/attest/verifier.go:303-308 | drops key, results and nonces of that VM only |
| `Verifier.GenuineMeans` | internal/attest/verifier.go:167-188 | a genuine quote is exactly one that is signed, selects PCRs of the sha256 bank only, quotes the non-empty nonce, sends 32 bytes for every selected PCR and none other, and whose digest is the hash its signature names over these values in ascending order |
| `Verifier.SoundMeans` | internal/attest/verifier.go:167-246 | a quote is sound exactly when it is genuine, covers PCRs 0 to 7 and 11, and 13 at the ready stage, PCR 11 is the policy's value for enter-initrd, at the ready stage for enter-initrd:leave-initrd:sysinit:ready, PCRs 0, 2, 3, 4, 6 and 7 have their golden values or none is recorded while learning, and at the ready stage PCR 13 has the entry of the Kubernetes version, without one the golden value, or neither is known |
| `Verifier.Verifier.SubmitQuote` | internal/attest/verifier.go:143-258 | verified if and only if the nonce is live, the policy is there, the quote is accepted by these rules, and its key is the pinned one or none is pinned and the stage is initrd; the nonce is used up either way, the verdict is kept as the last of its stage, only a verified quote pins a key, no other VM is touched, and an error is returned only for a failing policy provider |
| `Learning.RecordGolden` | cmd/image.go:190-298 | records exactly when every golden index is covered and the result is a valid policy; recorded are the quoted values of PCRs 0, 2, 3, 4, 6, 7 and 13 with the firmware, and the other entries are kept |
| `Learning.RecordingSucceeds` | cmd/image.go:190-298 | recording a verified ready-stage quote into a valid policy always succeeds |
| `Learning.LearnThenRecord` | internal/attest/policy.go:219-257 | under the recorded policy, learning on or off, a genuine quote is sound exactly when PCR 11 is the stage's and every compared PCR is the recorded one, and nothing is learned |
| `Gate.EnrolmentVetted` | internal/attest/verifier.go:143-258 | behind every enrolment is an accepted nonce of that VM and a quote with it that convinced, since the last restart |
| `Gate.OneKeyUntilForgotten` | internal/attest/verifier.go:303-333 | between two forgettings every verified quote of a VM carries the same key, under any interleaving of submissions |
| `Gate.ReadyOnlyAfterInitrd` | internal/attest/verifier.go:319-333 | a ready-stage quote is verified only after an initrd-stage quote with that key passed every check and enrolled |
| `Gate.AcceptedWhileLive` | internal/nonce/nonce.go:82-117 | a nonce accepted in a trace was issued to that VM in time and not used in between |
| `Gate.StaysRemoved` | internal/vm/lifecycle.go:831-841 | while vm-manager runs a VM taken out of the map stays out, so keys are forgotten only for VMs that are gone |
| `Gate.UserDataGate` | internal/vm/imds.go:125-183 | a released VM that requires attestation has, in order, an issued nonce, its single use in time, a convincing initrd-stage quote, an enrolled key and a recorded verdict, with no installed boot begun since; without a restart that key is still pinned |
| `Gate.ConvincingQuoteOpensGate` | internal/vm/imds.go:116-183 | from any state, for any VM in the map, a fresh nonce and a convincing initrd-stage quote with it by the VM's key, or a first key, lead to released user-data |
| `GateRules.RequiredMeansQuoted` | internal/vm/imds.go:20-48 | for a VM created with attestation required: whenever an address resolves to it with user-data released, a nonce was issued to it and used in time by a submission whose quote met every rule of the initrd stage, its key was pinned and its verdict recorded, in this order, with no installed boot begun since |
| `GateBoots.SameProcessIffNoReset` | internal/vm/imds.go:125-183 | between a submission and a point where the installed system is up, without a restart, no boot was published if and only if the VM's process is the same |
| `GateBoots.VerdictOfThisBoot` | internal/vm/imds.go:125-183 | for the chain behind released user-data, recorded while the installed system was up: the quote is of the boot it unlocks if and only if the VM's process at the submission was its process at the recording |
| `GateLimits.VerdictUnlocksNextBoot` | internal/vm/imds.go:125-183 | for every convincing initrd-stage quote, a trace from an empty service in which it is submitted and enrolled in one boot and recorded in the next, which it unlocks |
| `Gate.UninterruptedSubmission` | internal/attest/verifier.go:143-258 | a submission nothing interrupts is verified exactly as the sequential verifier decides |
| `VarlinkStream.ReceiveReadsStream` | internal/varlink/varlink.go:356-446 | receive returns the bytes up to the next NUL with exactly the batches whose last byte lies in that range, and consumes both |
| `VarlinkStream.DeliversStream` | internal/varlink/varlink.go:356-446 | however the stream is split, the k-th message delivered is the k-th of the stream with exactly its descriptors |
| `VarlinkStream.SameMessages` | internal/varlink/varlink.go:356-446 | two splits of the same bytes deliver the same messages, wherever descriptors arrive |
| `VarlinkStream.SplitIndependent` | internal/varlink/varlink.go:356-446 | they deliver the same descriptors with each message when every batch ends inside the same message in both, at whatever byte and in however many reads |
| `VarlinkStream.FilesComeWithMessage` | internal/varlink/varlink.go:407-446 | a message that arrives whole in one read comes with all usable descriptors of that read in order, and leaves none behind |
| `VarlinkStream.FilesComeWithLast` | internal/varlink/varlink.go:407-446 | of two messages that arrive in one read the last comes with its descriptors and the first with none |
| `VarlinkStream.LongMessageIffJumped` | internal/varlink/varlink.go:370-372 | a message is refused for its size exactly when some read ends past the limit and before its end |
| `VarlinkStream.OversizeDependsOnSplit` | internal/varlink/varlink.go:370-372 | on a new connection a message one byte over the limit is delivered from one split and refused from another, with every read within the chunk size |
| `VarlinkConn.DoConserves` | internal/varlink/varlink.go:157-340 | every call keeps every collected descriptor pending, with one caller, or closed |
| `VarlinkConn.UsableIff` | internal/varlink/varlink.go:287-340 | a usable connection stays usable exactly when the call closes nothing and its context had expired before, or the request was sent and: it is one-way; or the single reply came, parsed, and is an error reply in time or the only one, whether or not its result decodes; or the stream's first reply that is not accepted with others to follow is the last and accepted, or in time an error reply, a refused last one, or refused with a Varlink error |
| `VarlinkConn.StreamGivesFiles` | internal/varlink/varlink.go:235-254 | a stream ends with the first reply that is not accepted with others to follow, as that reply and its verdict say; the callback gets the files of every reply up to it, except those of an error reply, which are closed |
| `VarlinkConn.SingleGivesFiles` | internal/varlink/varlink.go:183-215 | the caller gets exactly the files of its reply when the call succeeds, and otherwise they are closed |
| `VarlinkConn.EndsMidStreamIff` | internal/varlink/varlink.go:235-254 | the reply loop stops at a refusal that leaves replies outstanding if and only if, for some k, the callback accepts the first k replies and refuses the next with a Varlink error, all of them received, without error and continuing |
| `VarlinkConn.OutstandingAfterCall` | internal/varlink/varlink.go:290-340 | a call that leaves the connection usable leaves one more reply outstanding if and only if it abandoned a stream in that way, and otherwise none |
| `VarlinkConn.OutstandingIffAbandoned` | internal/varlink/varlink.go:157-340 | over any sequence of calls a usable connection has as many replies outstanding as streams were abandoned, and all descriptors accounted for |
| `VarlinkReplies.RepliesAreMessages` | internal/varlink/varlink.go:356-376 | the replies calls read are the messages of the stream, parsed, in order |
| `VarlinkReplies.CallTakesGroup` | internal/varlink/varlink.go:183-256 | a call takes replies to the first request not answered in full and to no other, and all of them if the connection stays usable and it does not abandon them |
| `VarlinkReplies.EachCallTakesItsReplies` | internal/varlink/varlink.go:157-340 | on a new connection, after any calls none of which abandoned a stream, the replies taken are whole answers to exactly the requests sent, so the next call takes its own from the first on |
| `VarlinkReplies.AbandonedStreamMisaligns` | internal/varlink/varlink.go:247-252 | on a new connection a callback error wrapping a Varlink error on a first reply of two keeps the connection, and the next call succeeds with the second reply to the request before |
| `VarlinkConn.Conn.CollectRights` | internal/varlink/varlink.go:407-423 | the loop notes the descriptors of every control message up to one that does not parse |
| `VarlinkConn.Conn.Read` | internal/varlink/varlink.go:379-405 | one recvmsg, its data and descriptors, with the descriptors kept when it fails |
| `VarlinkConn.Conn.TakeFiles` | internal/varlink/varlink.go:429-446 | the loop hands out exactly the usable descriptors of batches that ended by the message's end and keeps the later ones |
| `VarlinkConn.Conn.ReceiveReply` | internal/varlink/varlink.go:356-376 | the receive loop is the reading function of the specification |
| `VarlinkConn.Conn.Shutdown` | internal/varlink/varlink.go:157-169 | closes once, with every pending descriptor |
| `VarlinkConn.Conn.CallWithFiles` | internal/varlink/varlink.go:183-215 | files are returned exactly when the request was sent in time on a usable connection and the reply came, parsed, without error, alone and decodable, and they are that reply's; the connection stays usable exactly as the inputs say |
| `VarlinkConn.Conn.StreamReplies` | internal/varlink/varlink.go:235-254 | the reply loop is the specified one |
| `VarlinkConn.Conn.CallMoreWithFiles` | internal/varlink/varlink.go:230-256 | the call ends as the replies and the callback's verdicts say, and the connection stays usable exactly as they say |
| `Address.LastAddr` | internal/network/addr.go:128-135 | setting the host bits byte by byte gives the last address of the prefix |
| `Address.ParseAddrText` | internal/network/network.go:314-322 | an address survives being written and parsed |
| `Address.ParsesIffText` | internal/network/network.go:224-245 | a text parses to an address if and only if it is that address's own text: four parts, no leading zeros |
| `Address.ContainsIsBlock` | internal/network/addr.go:105-107 | the addresses of a prefix are the block from its network address on |
| `Address.OverlapMeans` | internal/network/addr.go:81-83 | a prefix is refused for the link-local range exactly when one of its addresses is between 169.254.0.0 and 169.254.255.255 |
| `Address.AcceptableMeans` | internal/network/addr.go:66-102 | acceptable are exactly a DNS label with an IPv4 prefix of /16 to /29 that has no link-local address and, if one is named, a gateway in it other than its first and last two addresses |
| `Address.Resolve` | internal/network/addr.go:66-102 | accepts exactly the acceptable specifications, with network, gateway, host and broadcast addresses in their places |
| `Address.PoolIs` | internal/network/addr.go:105-107 | poolContains is membership in the addresses between network and host without the gateway |
| `Address.PoolHasSize` | internal/network/addr.go:110-112 | whatever the gateway, the pool has 2^(32-bits)-4 addresses |
| `Address.EachPool` | internal/network/addr.go:116-125 | visits pool addresses in ascending order, exactly those before which nothing stopped the walk |
| `Address.WholePool` | internal/network/network.go:190-195 | a walk nothing stops visits every pool address once, poolSize of them |
| `Network.MacInjective` | internal/network/addr.go:141-147 | on one network different addresses have different MACs |
| `Network.MacMeans` | internal/network/addr.go:141-147 | a MAC is 02, the network's byte and the four bytes of the address from the highest on |
| `Network.ExhaustedIffFull` | internal/network/network.go:351-365 | the pool is used up exactly when poolSize leases are held |
| `Network.ParseLeases` | internal/network/network.go:224-245 | accepts exactly leases with named VMs and parsed, distinct pool addresses |
| `Network.LeasesRoundTrip` | internal/network/network.go:224-245 | leases written as State are accepted and read back the same |
| `Network.StaticLeases` | internal/network/network.go:190-201 | the keys of the table are exactly the texts of the pool, host and broadcast addresses, each mapped to its MAC |
| `Network.Segment.FreeAddr` | internal/network/network.go:351-365 | the lowest pool address no VM holds, none exactly when all are held |
| `Network.Segment.Attach` | internal/network/network.go:327-349 | succeeds exactly on an open network for a named VM that holds a lease or while fewer than poolSize are held; returns the lease held or the lowest free address with its MAC, and keeps leases distinct |
| `Network.Segment.Detach` | internal/network/network.go:373-383 | releases exactly the VM's address |
| `Network.Segment.Snapshot` | internal/network/network.go:314-322 | State writes every lease as restorable text |
| `Versions.SplitNumericPrefix` | internal/images/images.go:342-349 | the number before the first non-digit, clamped, and the rest |
| `Versions.AtoiReads` | internal/images/images.go:323-326 | digits denote their number, with an optional sign |
| `Versions.TextMeans` | internal/images/images.go:337-338 | one text is below another exactly when it is a proper prefix or smaller at the first difference |
| `Versions.ComparesNumbers` | internal/images/images.go:319-340 | components that fit are compared as numbers, a missing one as zero |
| `Versions.NumericIffBelowLargest` | internal/images/images.go:319-349 | a plain component is ordered as a number against every other plain one exactly when it is below the largest int |
| `Versions.MissingBelowIffPositive` | internal/images/images.go:329-336 | a missing component sorts below another, whatever it is, exactly when that is not missing and is either no number or an unsigned one above zero |
| `VersionOrder.TransitiveIffUntorn` | internal/images/images.go:319-340 | on any three components the comparison is transitive in all orders if and only if no arrangement of them is torn: a number between two texts that are the other way round as texts, or a text between two numbers that are the other way round or equal but apart from it |
| `VersionOrder.UnsignedNeverTorn` | internal/images/images.go:319-340 | no text tears two unsigned numbers, so a tear of numbers takes a sign |
| `VersionOrder.PreReleasesCircle` | internal/images/images.go:319-340 | 9-rc, 9 and 10-rc are torn and compare in a circle |
| `VersionOrder.VersionsTransitiveIff` | internal/images/images.go:302-317 | on any three versions the comparison is transitive in all orders if and only if at no place up to which they compare as equal they are torn without a tie being broken the other way further on |
| `VersionOrder.PreReleaseVersionsCircle` | internal/images/images.go:302-317 | whatever parts come before, versions that end in 9-rc, 9 and 10-rc compare in a circle |
| `Versions.CompareByLoop` | internal/images/images.go:302-317 | the loop computes the version comparison |
| `Versions.ComparesVectors` | internal/images/images.go:302-317 | on numeric versions the comparison is the lexicographic order of zero-padded number vectors |
| `Versions.TotalPreorder` | internal/images/images.go:302-317 | on numeric versions the comparison is a total preorder |
| `Images.RefInjective` | internal/images/images.go:72-72 | different well-named images have different references |
| `Images.Catalog.Refresh` | internal/images/images.go:120-169 | the catalog is a permutation of the images found, sorted by id and descending version whenever the comparison is an order on their versions |
| `Images.Catalog.Get` | internal/images/images.go:182-191 | the first image whose id or id_version is the reference, none exactly when there is none |
| `Images.RefSelectsImage` | internal/images/images.go:182-191 | a full reference selects its image whatever ids there are |
| `Images.BareIdSelectsHighest` | internal/images/images.go:182-191 | in a sorted catalog a bare id selects a highest version of it if and only if it is not also some image's full reference |
| `Images.ReferenceHidesId` | internal/images/images.go:182-191 | a catalog of two images, sorted as Refresh leaves it, in which a bare id selects another image |
| `Images.Catalog.Default` | internal/images/images.go:195-208 | a highest version overall, the first in catalog order among equals, whenever the comparison is an order on the versions; none exactly for an empty catalog |

## Left out

- Cryptography and go-tpm decoding: signature checks, key parsing and attestation key attributes are one boolean of the request; only the order of the checks is modelled.
- JSON, HTTP, REST, MCP, OAuth, command line and file formats: parsing is a parameter; a record save is one atomic update that succeeds.
- QEMU, swtpm, QMP, vsock and launcher I/O: a process may start, fail to start, and exit with any code at any step; a killed one can exit.
- Volumes, SSH keys, port forwards, metrics, guest reports, console tails, LastError texts and log messages.
- Ids are taken as fresh, since newID draws them at random.
- Time-outs of waiting requests: a waiter may also give up; what it is told when it does not is proved.
- Detaching on Close leaves supervisors' `done` channels open, so that Close completes (`CloseCompletes`) is proved for the stopping mode; who can go on is proved for both.
- LifecycleRuns.AtMostOneProcess: a crash forgets the process of a start that was not published yet, since no record names it; the next vm-manager does not know of it, and it is not counted.
- The NoopAttestor, which verifies only the nonce, is not part of the gate.
- Address resolution across networks with overlapping CIDRs: LookupByIP has no network argument, so its answer is any VM with the address.
- Gate: the fingerprint noted with a recorded verdict is read after the verdict and may be of a later submission, so it is left free; the verdict itself is the submission's own.
- gvisor-tap-vsock, DHCP, DNS and the byte of a MAC hashed from the network's name, which is a parameter.
- netip.ParsePrefix: a specification's CIDR is given as the prefix it parses to; IPv6 addresses are treated as unparsable, since every use rejects them.
- Images: sort.Slice is modelled by an insertion sort with the same order, and nothing is promised of the sorting where the comparison is no order; the directory scan is a list of file stems.
- Versions.ComparesVectors: stated for components that are decimal or missing and fit an int, because others are not numbers; which versions the comparison still orders is VersionOrder.VersionsTransitiveIff.
- Guest image push and pull, storage providers, host probing, the image build and the CLI beyond recording golden values.
