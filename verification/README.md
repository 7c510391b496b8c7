# Keiko portable update: verified model

Keiko's portable edition updates itself with native code. A coordinator exchanges
directory trees, publishes a registration, starts the candidate and either cleans up or
puts everything back; a recovery finishes what a crash interrupted. This project models that
code in Dafny and proves what it promises, for every input, every interleaving and every
crash point.

## How it is organised

- **Receipts**: the two receipt tables, the native loader of the journal, and the server's
  order check over the same files.
- **Transaction**: the update as a transition system over what survives a crash (three
  directory slots, stage, registration, journal) and over the three runtimes. `Enabled` says
  when a step may be taken. For coordinator and recovery that is an obligation which their
  code discharges; for the runtimes it is the assumption made about them: a successor
  appends only its own verification receipts, and only after it was released.
- **Coordinators**, **Engine**, **Recovery**: the POSIX code as methods on one process
  context. Every atomic effect is a step of the transition system, the runtimes may act
  between any two of them (`Interfere`), and which operation fails and how is an input
  (`faults`), so "without an I/O failure" is a condition on inputs, for a whole run or from a
  point on (`WorksFrom`). Finished callbacks are recorded (`calls`), and the engine's order is
  a table (`Next`) that its code is proved to follow. **Lifecycle** puts them together: an
  update that is cut off anywhere, and then a recovery.
- **WindowsCutover**: the Windows step set (generation, launcher, setup manifest,
  registration), its seven-prefix classifier, restoration, cleanup and recovery.
- **Sha256**, **Sha256Standard**, **TreeHash**, **TreeOrder**, **TreeFacts**: the self-contained
  streaming SHA-256 against FIPS 180-4, whose constants and logical functions are tied to roots
  of primes and to bits, and the KHT1 tree digest built on it, with its guard against changes
  during the walk and its independence of the order in which directories are enumerated.
- **Utf8**, **Paths**, **HandoffPlan**, **PlanFacts**: the KHP1 plan parser with its UTF-8, path,
  topology and decimal checks, and the workspace reader's UTF-8 checker.
- **Frames**, **AppHandoff**: the owner of the running application: frame reassembly, the
  handoff flags, deadlines, the event loop and the durable phase record.
- **ProcessOwnership**, **Descriptors**: process numbers across wait, kill and disposal, and
  the descriptor ranges that the runtime supervisor closes.
- **Bytes**: bytes and little-endian numbers.

A receipt append can end four ways: durable, not made, torn, or durable although failure was
reported. Tree removal passes through a damaged tree. A crash is a step, and a process may
also stop after any step, since every prefix of a run is a run. Results of system calls,
clock readings and messages are arbitrary.

The transaction takes the three slots to be three separate directories. For the paths of an
accepted plan this holds exactly when the managed root's own name is neither of the two
reserved names (`HandoffPlan.PlanSlotsAreSeparate`). The plan check does not ask for that: it
also accepts a managed root that is its own backup (`HandoffPlan.MisnamedPlanIsAccepted`), and
then no placement is ever classified and nothing below about success applies.

## Where the code does less than one might expect

These are results, each with a concrete reachable case and an exact condition:

- POSIX recovery asks for the promoted placement before it goes on. Once the removal of the
  backup has begun it therefore reports failure, also for a completed update, however often it
  is repeated; disk and journal stay as they are (`Recovery.RecoverAgainAndAgain`,
  `Recovery.InterruptedCleanupStaysInterrupted`, `Recovery.CompletedUpdateIsNotConfirmed`).
- A second recovery can change the disk although the first succeeded: exactly if the first
  found verify/intent or verify/completed still outstanding, the released successor has
  recorded both since, and the backup is intact. Then it cleans up; otherwise slots and
  registration stay (`Recovery.RecoverTwice`, `Recovery.SecondRecoveryCanCleanUp`).
- The native loader admits a restoration right after verify/intent, the server's check does
  not. No run of the model produces such a journal (`Receipts.OrderChecksDisagree`,
  `Transaction.JournalIsAdmitted`).
- On Windows an interrupted removal of the candidate generation, or a restore temporary left
  by a crash, blocks the rollback: neither the next recovery nor any later one completes it,
  while the launcher stays startable (`WindowsCutover.RecoverAgainAndAgain`, with
  `InterruptedRemovalBlocksRestoration` and `LeftoverTemporaryBlocksRestoration`). From every
  other layout restoration succeeds (`WindowsCutover.Cutover.RestorePlatform`).
- On Windows a finished cutover is recognised only if the three pairs of digests differ;
  POSIX checks that its two tree digests differ, Windows takes it for granted.
- A wait can give up the coordinator without a confirmed exit: by a wait error, by returning a
  foreign process, or by consuming the exit in the moment the deadline passes
  (`ProcessOwnership.LostExactly`). Stopping a handoff then leaves its proof without a child
  (`AppHandoff.ProofOutlivesChild`). The loop goes on in that state exactly if the handoff was
  accepted and is being withdrawn (`AppHandoff.Owner.Serve`, `AppHandoff.WithdrawnProofWitness`);
  the application is cut off, and nothing is released, because release asks for the child again
  (`AppHandoff.RunOwner`).
- The stop deadline is computed without regard to wrap-around. All running deadlines lie in the
  future except in an iteration that begins to stop on a reading above UINT64_MAX - 5000, such
  as that of a failed clock (`AppHandoff.Owner.Tick`, `AppHandoff.FailedClockWitness`).
- The path comparison does not treat the root directory as containing anything but itself
  (`Paths.ContainmentIsPrefix`).

## Model

| member | source | states |
|---|---|---|
| Transaction.StepKeepsInvariant | native/portable-launcher/keiko-portable-update-engine.h:31-107 | every atomic step of coordinator, recovery, runtimes and crashes keeps the invariant that ties the receipt counts to the disk placement, and the journal only grows at its end |
| Transaction.RunKeepsInvariant | native/portable-launcher/keiko-portable-update-engine.h:31-107 | the invariant holds after every run, for any interleaving and any number of crashes and recoveries |
| Transaction.ManagedIsAlwaysWhole | native/portable-launcher/keiko-portable-update-coordinator.h:966-1029 | at every point of every run the managed root names a complete tree; it is never absent or damaged |
| Transaction.TreesAreConserved | native/portable-launcher/keiko-portable-update-coordinator.h:878-934 | at every point both trees exist exactly once among the three slots until cleanup is announced, and the candidate tree does so for ever |
| Transaction.ClassifierRejectsOnlyCleanup | native/portable-launcher/keiko-portable-update-coordinator.h:878-934 | the classifier rejects a reachable disk exactly when cleanup was announced and the backup is no longer the complete previous tree |
| Transaction.EveryShapeIsReachable | native/portable-launcher/keiko-portable-update-coordinator.h:878-934 | each of the four classified placements is reached by some run |
| Transaction.AtMostOneRuntimeIsLive | native/portable-launcher/keiko-portable-update-engine.h:51-106 | at most one of old application, candidate runtime and restored runtime is live |
| Transaction.NoRollbackUnderLiveCandidate | native/portable-launcher/keiko-portable-update-engine.h:59-79 | whenever the roots or the registration are put back, no candidate runtime is live |
| Transaction.VerificationExcludesRollback | native/portable-launcher/keiko-portable-update-coordinator.h:445-482 | no run both has a verify receipt in its journal and puts the roots back: both need the same exclusive slot |
| Transaction.RemovalFollowsVerification | native/portable-launcher/keiko-portable-update-coordinator.h:1634-1643 | a run that removes any part of the previous version has verify/completed in its journal |
| Transaction.CleanupFollowsAcknowledgement | native/portable-launcher/keiko-portable-update-engine.h:74-82 | unless a recovery appended to the journal, cleanup is announced only after the verified acknowledgement |
| Transaction.OldExitIsObserved | native/portable-launcher/keiko-portable-update-coordinator.h:678-707 | unless a recovery appended to the journal, the exit of the old application is recorded only once it is gone |
| Transaction.JournalIsAdmitted | native/portable-launcher/keiko-portable-recovery-control.h:246-278 | every journal that a run leaves behind is admitted by the native loader and by the server |
| Transaction.RestoringIsForGood | native/portable-launcher/keiko-portable-update-engine.h:169-176 | the restore part of the journal never shrinks, and the roots are put back only when it has begun |
| Coordinators.Coordinator.AppendReceipt | native/portable-launcher/keiko-portable-update-coordinator.h:445-482 | exclusive append: success means that this process took the next slot; otherwise the slot is untouched, torn, or taken although failure is reported |
| Coordinators.Coordinator.WaitReceipt | native/portable-launcher/keiko-portable-update-coordinator.h:553-579 | success means that the expected receipt is at the position this process was waiting for, and a receipt that is already there is found by the first look; nothing else moves the position |
| Coordinators.Coordinator.NextReceiptExists | native/portable-launcher/keiko-portable-update-coordinator.h:1645-1653 | a slot reported as empty is empty, and looking changes nothing |
| Coordinators.Coordinator.WaitVerifiedAck | native/portable-launcher/keiko-portable-update-coordinator.h:581-615 | success means that the successor has acknowledged |
| Coordinators.Coordinator.EmitAcceptance | native/portable-launcher/keiko-portable-update-coordinator.h:617-636 | two receipts and the acceptance; nothing on disk moves |
| Coordinators.Coordinator.WaitOldExit | native/portable-launcher/keiko-portable-update-coordinator.h:678-707 | success means that the old application has exited, and the third receipt is recorded |
| Coordinators.Coordinator.PromoteRoots | native/portable-launcher/keiko-portable-update-coordinator.h:966-1029 | from the initial or the exchanged placement to the promoted one in at most two atomic steps; it succeeds without an I/O failure |
| Coordinators.Coordinator.Promote | native/portable-launcher/keiko-portable-update-coordinator.h:1031-1037 | success leaves five receipts and no torn file; the old application stays stopped |
| Coordinators.Coordinator.PublishRegistration | native/portable-launcher/keiko-portable-update-coordinator.h:1050-1112 | success leaves seven receipts, and the invariant makes that the prepared registration |
| Coordinators.Coordinator.RestoreRoots | native/portable-launcher/keiko-portable-update-coordinator.h:1489-1545 | from any of the four placements the current tree and the previous registration come back, and nothing else changes |
| Coordinators.Coordinator.RestorePrevious | native/portable-launcher/keiko-portable-update-coordinator.h:1547-1553 | restore/intent must win the next slot before anything moves; success ends with restore/completed and the roots back |
| Coordinators.Coordinator.StartSuccessor | native/portable-launcher/keiko-portable-update-coordinator.h:1268-1283 | after any outcome a live successor is held by a supervisor of this process; success is nine receipts and a successor that has left its gate, and it comes about unless an operation fails or the successor exits |
| Coordinators.Coordinator.StartRestored | native/portable-launcher/keiko-portable-update-coordinator.h:1268-1283 | the restored application starts only from the restore part of the journal, whose forward part stays; success means that it has left its gate |
| Coordinators.Coordinator.StopRuntime | native/portable-launcher/keiko-portable-update-coordinator.h:1320-1349 | success means that the attempted runtime is not live and its supervisor is reaped |
| Coordinators.Coordinator.StopFailedStart | native/portable-launcher/keiko-portable-update-coordinator.h:1414-1439 | success means that no supervisor is held and, if one was, its runtime is not live |
| Coordinators.Coordinator.CleanupVerified | native/portable-launcher/keiko-portable-update-coordinator.h:1634-1643 | success exactly when fourteen receipts are this process’s own; then only the candidate tree and the prepared registration are left |
| Coordinators.Coordinator.HoldRuntime | native/portable-launcher/keiko-portable-update-coordinator.h:1655-1680 | a native successor is handed over only after release was allowed, an unreleased one is stopped, and any other is held until it has exited |
| Coordinators.DriftsCompose | native/portable-launcher/keiko-portable-update-coordinator.h:553-579 | what the runtimes do between two steps is closed under repetition |
| Engine.Execute | native/portable-launcher/keiko-portable-update-engine.h:31-107 | for every combination of outcomes: the callbacks are made exactly as the lifecycle table says; success exactly when cleanup or the last awaited receipt of the restored application succeeded, and then the process itself holds the last receipt and the new version is installed and cleaned up or the old one is back; whenever a failed installation, a failed start that provably stopped, or an unverified candidate that provably stopped asks for undoing, the previous tree and registration are back unless an operation fails from that point on or the next slot is taken; nothing on disk moves before the promotion; a successor is handed over only if that same attempt was verified, and a native one is handed over if no operation fails |
| Engine.RestoreWithoutRuntime | native/portable-launcher/keiko-portable-update-engine.h:85-106 | undoing succeeds exactly when the restored application has verified itself; with a free slot and no failing operation the previous version is brought back in any case |
| Engine.StartOrStop | native/portable-launcher/keiko-portable-update-engine.h:62-65 | a failed start asks for undoing exactly when its stop was confirmed |
| Engine.StopUnverified | native/portable-launcher/keiko-portable-update-engine.h:66-73 | an unverified candidate is undone only if its slot was still empty and its stop was confirmed |
| Engine.Complete | native/portable-launcher/keiko-portable-update-engine.h:74-83 | after verify/intent the update can only be completed, never undone; a completed native one is handed over if no operation fails |
| Engine.ExecutePosix | native/portable-launcher/keiko-portable-update-coordinator.h:1809-1834 | a native run also needs the committed hand-over |
| Lifecycle.UpdateThenRecover | native/portable-launcher/keiko-portable-update-engine.h:31-197 | the engine with any faults, cut off after any number of steps, and then one recovery: if its journal can be read, managed tree and registration belong to one version afterwards, the new one exactly from nine forward receipts without a restoration; after an update that reported success recovery changes nothing |
| Lifecycle.RecoveryMakesConsistent | native/portable-launcher/keiko-portable-update-engine.h:157-197 | from every reachable world recovery leaves one consistent version, and the journal decides which |
| Lifecycle.CrashCanLeaveInconsistency | native/portable-launcher/keiko-portable-update-coordinator.h:966-1029 | without the recovery this fails: a reachable crash with the new tree and the old registration |
| Receipts.LoadReceipts | native/portable-launcher/keiko-portable-recovery-control.h:246-278 | the loader accepts exactly the authentic, anchored journals whose receipts are a prefix of the fourteen forward receipts followed by a prefix of the six restore receipts that began after 3 to 10 forward receipts |
| Receipts.LoadableIsLiteral | native/portable-launcher/keiko-portable-update-engine.h:109-142 | the loadable journals, spelled out receipt by receipt |
| Receipts.LoadableIsDisciplined | native/portable-launcher/keiko-portable-update-engine.h:109-142 | in every loadable journal no receipt occurs twice, the steps come in their order, and each completion but the first and the last stands directly after its own intent |
| Receipts.FinishedJournalsLoad | native/portable-launcher/keiko-portable-update-engine.h:109-142 | the journal of a finished update and that of a finished restoration do load |
| Receipts.ServerOrderIsLiteral | packages/keiko-server/src/update-portable-handoff-receipts.ts:563-610 | the journals that the server admits, spelled out receipt by receipt |
| Recovery.RestorationCanFinish | native/portable-launcher/keiko-portable-update-engine.h:85-106 | a run to the end of a restoration, with the two receipts that the engine waits for at their positions |
| Receipts.SplitIsUnique | native/portable-launcher/keiko-portable-update-engine.h:109-142 | a journal has one split only |
| Receipts.LoadableLength | native/portable-launcher/keiko-portable-recovery-control.h:246-257 | every loadable journal is shorter than the cap of twenty |
| Receipts.ValidateSequence | packages/keiko-server/src/update-portable-handoff-receipts.ts:563-610 | the server’s left-to-right check accepts exactly the receipts of this activation and plan that are a prefix of the forward order, or such a prefix of 3 to 9 receipts and a restore prefix |
| Receipts.ServerOrderIsLoadable | packages/keiko-server/src/update-portable-handoff-receipts.ts:485-500 | what the server admits the loader admits, and it has at most fifteen receipts |
| Receipts.OrderChecksDisagree | native/portable-launcher/keiko-portable-update-engine.h:144-146 | the two checks disagree exactly on restorations begun right after verify/intent |
| Receipts.OrderChecksDisagreeWitness | native/portable-launcher/keiko-portable-update-engine.h:144-146 | one such journal |
| Receipts.AnchorFixesPrefix | native/portable-launcher/keiko-portable-recovery-control.h:271-277 | with a collision-free digest a loaded journal extends the anchored one entry by entry |
| Recovery.LoadedIsTheJournal | native/portable-launcher/keiko-portable-recovery-control.h:246-278 | loading succeeds only on an untorn, anchored journal and returns its true counts |
| Recovery.Recover | native/portable-launcher/keiko-portable-recovery-control.h:356-381 | a torn or foreign journal is refused with the disk unchanged; a released successor is never rolled back; without an I/O failure verdict, disk and receipt counts are those of the specification |
| Recovery.RecoverAfterRun | native/portable-launcher/keiko-portable-update-engine.h:157-197 | at every crash point of every run, given an untorn anchored journal and no I/O failure: with 2 to 8 forward receipts or any restore receipt recovery ends with the current tree managed and the previous registration; with nine or more and no restore receipt it never rolls back and succeeds exactly if the backup is still complete |
| Recovery.RecoveryOutcome | native/portable-launcher/keiko-portable-update-engine.h:157-197 | what recovery leaves behind from every reachable world, in both directions |
| Recovery.RecoverTwice | native/portable-launcher/keiko-portable-update-engine.h:157-197 | two recoveries without I/O failures, each with a journal of its own, and any steps of runtimes, old application and relaunch between them: if the first could read its journal, the second changes the disk exactly when it can read its own and finds verify/completed over an intact backup; then the first had found 9 or 10 forward receipts, so the successor verified itself in between |
| Recovery.SecondRecovery | native/portable-launcher/keiko-portable-update-engine.h:157-197 | the same about the outcomes: when the second goes further than the first, in both directions |
| Recovery.SecondRecoveryCanCleanUp | native/portable-launcher/keiko-portable-update-engine.h:182-196 | the exception is reachable: recovery at nine receipts changes nothing, the successor verifies itself, recovery at eleven removes the backup |
| Recovery.RecoverOnce | native/portable-launcher/keiko-portable-recovery-control.h:356-381 | one recovery over the directory of its world, for any faults: when it succeeds, and what it leaves on disk and in the journal |
| Recovery.DirectoryIsJournal | native/portable-launcher/keiko-portable-update-coordinator.h:445-482 | files appended one by one, each with the digest of the one before, are an authentic journal of the log |
| Recovery.InterruptedCleanupStaysInterrupted | native/portable-launcher/keiko-portable-recovery-control.h:313-336 | a reachable crash inside the removal of the backup from which recovery reports failure and changes nothing |
| Recovery.RecoverAgainAndAgain | native/portable-launcher/keiko-portable-recovery-control.h:313-336 | once the removal of the backup has begun, no number of recoveries reports success or changes disk or journal, whatever fails in them and whatever happens between them |
| Recovery.CompletedUpdateIsNotConfirmed | native/portable-launcher/keiko-portable-update-engine.h:182-183 | recovery of a completed update, which is reachable, is reported as failed, because the backup it looks for is gone |
| Recovery.Reconcile | native/portable-launcher/keiko-portable-update-engine.h:157-197 | reconciliation from loaded counts, for all outcomes of its callbacks |
| Recovery.RemoveLeftovers | native/portable-launcher/keiko-portable-recovery-control.h:280-285 | a tree that is already absent counts as removed |
| WindowsCutover.StepKeepsInvariant | native/portable-launcher/keiko-portable-update-coordinator-windows.h:1497-1582 | every atomic promote, register, restore and cleanup step keeps journal and prefix tied together |
| WindowsCutover.LauncherIsAlwaysStartable | native/portable-launcher/keiko-portable-update-coordinator-windows.h:1497-1582 | wherever a run stops, also inside the removal of a tree, the launcher on disk names a complete generation |
| WindowsCutover.PrefixesAreExact | native/portable-launcher/keiko-portable-update-coordinator-windows.h:1642-1731 | when the three digest pairs differ, each of the seven prefixes is one definite layout, whatever the order of the questions |
| WindowsCutover.PrefixesAreClosed | native/portable-launcher/keiko-portable-update-coordinator-windows.h:1642-1731 | a step from a recognised prefix leads to a neighbouring prefix, unless it begins the removal of a generation |
| WindowsCutover.ClassifierRejectsOnlyRemovals | native/portable-launcher/keiko-portable-update-coordinator-windows.h:1642-1731 | the classifier rejects a reachable layout exactly when a generation is partly removed |
| WindowsCutover.CutoverIsRecognised | native/portable-launcher/keiko-portable-update-coordinator-windows.h:1601-1612 | a finished cutover is recognised exactly when the three pairs of digests differ |
| WindowsCutover.Cutover.ReplaceFile | native/portable-launcher/keiko-portable-update-windows-mechanics.h:201-268 | one file replacement through a temporary name that must be free; the temporary is consumed |
| WindowsCutover.Cutover.CopyPublishGeneration | native/portable-launcher/keiko-portable-update-windows-mechanics.h:472-591 | the candidate generation appears complete under its name or not at all |
| WindowsCutover.Cutover.Promote | native/portable-launcher/keiko-portable-update-coordinator-windows.h:1497-1582 | generation, launcher and setup manifest in this order; success is the setup prefix and five receipts |
| WindowsCutover.Cutover.PublishRegistration | native/portable-launcher/keiko-portable-update-coordinator-windows.h:1878-1912 | success is the registration prefix and seven receipts |
| WindowsCutover.Cutover.RestorePlatform | native/portable-launcher/keiko-portable-update-coordinator-windows.h:1776-1835 | without an I/O failure restoration succeeds exactly from a recognised prefix up to registration with no restore temporary left over, and then everything is undone; from any other layout it fails and leaves a layout that cannot be restored either |
| WindowsCutover.Cutover.RemovePrevious | native/portable-launcher/keiko-portable-recovery-control-windows.h:370-399 | cleanup succeeds exactly from a recognised prefix and then only the previous generation and the stage are gone |
| WindowsCutover.Cutover.Reconcile | native/portable-launcher/keiko-portable-update-engine.h:157-197 | recovery on Windows: exact conditions for rolling back and for going on, and the resulting layout and receipt counts of both |
| WindowsCutover.RecoverAgainAndAgain | native/portable-launcher/keiko-portable-recovery-control-windows.h:370-399 | a rollback that is blocked stays blocked over any number of recoveries with any faults; the launcher stays startable |
| WindowsCutover.InterruptedRemovalBlocksRestoration | native/portable-launcher/keiko-portable-update-coordinator-windows.h:1823-1829 | a reachable crash inside the removal of the candidate generation that cannot be restored, so that no later recovery completes the rollback |
| WindowsCutover.LeftoverTemporaryBlocksRestoration | native/portable-launcher/keiko-portable-update-windows-mechanics.h:201-220 | a reachable crash between writing and renaming a restore temporary, with the same consequence |
| Sha256.HashPieces | native/portable-launcher/keiko-portable-sha256.h:219-284 | for any way of cutting a message into updates the result is the digest of sections 5.1.1 and 6.2 of FIPS 180-4 |
| Sha256.Context.Update | native/portable-launcher/keiko-portable-sha256.h:233-250 | between calls fewer than 64 bytes are buffered, the bit count is exact modulo 2 to the 64, and the complete blocks are in the hash value |
| Sha256.Context.Final | native/portable-launcher/keiko-portable-sha256.h:252-284 | padding, last blocks and big-endian output; afterwards the context is wiped |
| Sha256.Context.Compress | native/portable-launcher/keiko-portable-sha256.h:144-217 | the in-place compression is one step of section 6.2.2 |
| Sha256.FillSchedule | native/portable-launcher/keiko-portable-sha256.h:167-179 | the schedule loop computes the message schedule of section 6.2.2 |
| Sha256.RunRounds | native/portable-launcher/keiko-portable-sha256.h:181-206 | the shifting variables compute the sixty-four rounds of section 6.2.2 |
| Sha256.LengthFieldIsExact | native/portable-launcher/keiko-portable-sha256.h:269-271 | below 2 to the 64 bits the length field is the length |
| Sha256.PaddedIsInjective | native/portable-launcher/keiko-portable-sha256.h:261-272 | messages within the limit have different padded forms |
| Sha256Standard.RoundConstantsAreCubeRoots | native/portable-launcher/keiko-portable-sha256.h:145-155 | each of the sixty-four round constants is the first 32 bits of the fraction of the cube root of the prime of the same number, as section 4.2.2 of FIPS 180-4 defines them |
| Sha256Standard.PrimesInOrder | native/portable-launcher/keiko-portable-sha256.h:145-155 | the numbers used there are the first sixty-four primes: the first is two, each is prime, and no prime lies between neighbours |
| Sha256Standard.InitialIsSquareRoots | native/portable-launcher/keiko-portable-sha256.h:221-228 | the initial hash value is the fractions of the square roots of the first eight primes |
| Sha256Standard.ChIsBitwise | native/portable-launcher/keiko-portable-sha256.h:193-193 | choose, bit by bit |
| Sha256Standard.MajIsBitwise | native/portable-launcher/keiko-portable-sha256.h:197-197 | majority, bit by bit |
| Sha256Standard.BigSigma0IsBitwise | native/portable-launcher/keiko-portable-sha256.h:195-196 | each bit is the parity of the bits 2, 13 and 22 places up, around |
| Sha256Standard.BigSigma1IsBitwise | native/portable-launcher/keiko-portable-sha256.h:191-192 | each bit is the parity of the bits 6, 11 and 25 places up, around |
| Sha256Standard.SmallSigma0IsBitwise | native/portable-launcher/keiko-portable-sha256.h:174-175 | each bit is the parity of the bits 7 and 18 places up, around, and 3 places up |
| Sha256Standard.SmallSigma1IsBitwise | native/portable-launcher/keiko-portable-sha256.h:176-177 | each bit is the parity of the bits 17 and 19 places up, around, and 10 places up |
| Sha256Standard.BitsDetermine | native/portable-launcher/keiko-portable-sha256.h:140-142 | words with the same bits are the same word, so these statements determine the functions |
| Sha256Standard.WordsAreBigEndian | native/portable-launcher/keiko-portable-sha256.h:167-170 | words are read and written with the most significant byte first |
| Sha256Standard.PaddingOfThree | native/portable-launcher/keiko-portable-sha256.h:252-284 | the padding of a message of three bytes, byte by byte |
| Sha256.RotrIsBitwise | native/portable-launcher/keiko-portable-sha256.h:140-142 | rotation moves bit i + n to bit i, around 32 places |
| Sha256.XorIsBitwise | native/portable-launcher/keiko-portable-sha256.h:174-177 | the arithmetic exclusive or is the bitwise one |
| Sha256.AndIsBitwise | native/portable-launcher/keiko-portable-sha256.h:193-197 | the arithmetic conjunction is the bitwise one |
| TreeHash.HashTree | native/portable-launcher/keiko-portable-tree-hash.h:484-531 | for a tree that may change meanwhile: success exactly if the tree breaks no limit and is not seen to change; a status of the root or of an entry that differs the second time, an entry that came, went or changed its kind, and a file read with another status or size all refuse it; where an unchanged status means an unchanged content, the digest is that of the KHT1 preimage of the tree both before and after |
| TreeHash.EntriesHaveTheirStatus | native/portable-launcher/keiko-portable-tree-hash.h:244-264 | what the comparison of the two collections means for each entry |
| TreeHash.FilesHaveTheirStatus | native/portable-launcher/keiko-portable-tree-hash.h:427-482 | what the comparison with the snapshot means for each file that is read |
| TreeFacts.SmallTreePreimage | native/portable-launcher/keiko-portable-tree-hash.h:484-515 | the preimage of a small tree, byte by byte: magic, count, and length, name and digest in name order |
| TreeFacts.LimitsInNumbers | native/portable-launcher/keiko-portable-tree-hash.h:333-482 | the limits in numbers: 60000 entries, 16 MiB of names, 256 MiB for a file, 2 GiB for all |
| TreeFacts.NestingLimit | native/portable-launcher/keiko-portable-tree-hash.h:333-350 | directories may be nested 128 deep, and no deeper |
| TreeFacts.RefusedNames | native/portable-launcher/keiko-portable-tree-hash.h:154-160 | exactly the names that are empty, ".", ".." or contain a slash or a backslash are refused |
| TreeHash.UndisturbedIsUnchanged | native/portable-launcher/keiko-portable-tree-hash.h:229-264 | a passed guard means that the same files with the same contents were there at all three moments |
| TreeHash.QuietTreeIsUndisturbed | native/portable-launcher/keiko-portable-tree-hash.h:229-264 | a tree that does not change passes the guard, in whatever order it is enumerated the second time |
| TreeHash.SameSnapshots | native/portable-launcher/keiko-portable-tree-hash.h:257-264 | the comparison of two lists of snapshots, entry by entry |
| TreeHash.PreimageIdentifiesFiles | native/portable-launcher/keiko-portable-tree-hash.h:484-531 | two trees have the same preimage exactly when they have the same files, given collision-free content digests |
| TreeHash.EnumerationOrderDoesNotMatter | native/portable-launcher/keiko-portable-tree-hash.h:333-425 | the preimage depends on the set of files only, not on the order of enumeration |
| TreeOrder.EnumerationsAgree | native/portable-launcher/keiko-portable-tree-hash.h:333-425 | reordering the entries of any directories, at any depth, changes neither the files, nor whether the tree is accepted, nor the preimage |
| TreeOrder.ItemsOfTree | native/portable-launcher/keiko-portable-tree-hash.h:333-405 | what the walk collects is a matter of the sets of entries at each level |
| TreeOrder.WalkableTree | native/portable-launcher/keiko-portable-tree-hash.h:333-405 | whether the walk accepts a tree is a matter of the sets of entries at each level |
| TreeHash.EncodingIsInjective | native/portable-launcher/keiko-portable-tree-hash.h:499-515 | equal encodings have equal names and equal digests, file by file |
| TreeHash.Walk.CollectDirectory | native/portable-launcher/keiko-portable-tree-hash.h:333-405 | the walk collects exactly the entries of the subtree and fails exactly when it is not walkable or over budget |
| TreeHash.Walk.AddName | native/portable-launcher/keiko-portable-tree-hash.h:30-56 | the name list accepts exactly within its own budget and grows its capacity within the limit |
| TreeHash.Walk.Meet | native/portable-launcher/keiko-portable-tree-hash.h:80-87 | only the walk budget ever decides; the budgets of names and snapshots never do |
| TreeHash.CompareNames | native/portable-launcher/keiko-portable-tree-hash.h:58-66 | the byte loop decides the lexicographic order of unsigned bytes |
| TreeHash.SortIsUnique | native/portable-launcher/keiko-portable-tree-hash.h:407-425 | any sorting of distinct names gives the same list |
| TreeHash.FindSnapshot | native/portable-launcher/keiko-portable-tree-hash.h:266-277 | the binary search finds a name exactly when it is there |
| TreeHash.SnapshotsAreSorted | native/portable-launcher/keiko-portable-tree-hash.h:407-425 | after sorting, every collected file has a snapshot that the search can find |
| TreeHash.ItemsAreDistinct | native/portable-launcher/keiko-portable-tree-hash.h:333-405 | no path is collected twice |
| TreeHash.AbsorbFile | native/portable-launcher/keiko-portable-tree-hash.h:427-482 | one file: accepted exactly within the size limits and with the status of its snapshot, and then its name and the digest of what was read enter the tree hash as the format says |
| HandoffPlan.Parse | native/portable-launcher/keiko-portable-update-protocol.h:384-419 | the parser accepts a byte string if and only if it is the file of a valid plan, and returns that plan |
| HandoffPlan.ParseEncoded | native/portable-launcher/keiko-portable-update-protocol.h:384-419 | an encoded plan is read back unchanged |
| HandoffPlan.EncodingIsInjective | native/portable-launcher/keiko-portable-update-protocol.h:384-419 | different plans have different files |
| HandoffPlan.ReadField | native/portable-launcher/keiko-portable-update-protocol.h:400-412 | one length-prefixed field, read without looking beyond the file |
| HandoffPlan.ParseFields | native/portable-launcher/keiko-portable-update-protocol.h:401-415 | the field loop finds the only list of fields that the bytes encode, or there is none |
| HandoffPlan.DecimalValue | native/portable-launcher/keiko-portable-update-protocol.h:119-131 | the digit loop accepts exactly canonical decimals up to the maximum and never exceeds it on the way |
| HandoffPlan.DecimalFormIsUnique | native/portable-launcher/keiko-portable-update-protocol.h:110-117 | a number has one accepted decimal form only |
| HandoffPlan.FieldsValid | native/portable-launcher/keiko-portable-update-protocol.h:317-382 | all field checks together accept exactly the valid plans |
| PlanFacts.AcceptedAddress | native/portable-launcher/keiko-portable-update-protocol.h:317-342 | every accepted plan names the host 127.0.0.1, a port from 1 to 65535, its target, and launch identities that differ |
| PlanFacts.AcceptedDigests | native/portable-launcher/keiko-portable-update-protocol.h:86-94 | every accepted plan has an activation of 32 and digests of 64 lower-case hexadecimal digits |
| PlanFacts.AcceptedDeadlines | native/portable-launcher/keiko-portable-update-protocol.h:373-380 | the four deadlines of every accepted plan ascend strictly from at least 1 |
| PlanFacts.IdentitiesAndVersions | native/portable-launcher/keiko-portable-update-protocol.h:96-108 | which characters and how many of them identities and versions may have |
| PlanFacts.SizesInNumbers | native/portable-launcher/keiko-portable-update-protocol.h:384-419 | files and fields of at most 65536 bytes, and the two shapes |
| PlanFacts.ExampleIsValid | native/portable-launcher/keiko-portable-update-protocol.h:317-382 | for every target there is a plan that all checks accept |
| HandoffPlan.AcceptedPlansAreSeparated | native/portable-launcher/keiko-portable-update-protocol.h:257-302 | in every accepted plan stage and backup are separate, the candidate is strictly inside the stage, and both are separate from the managed root exactly when its name is not reserved |
| HandoffPlan.PlanSlotsAreSeparate | native/portable-launcher/keiko-portable-update-protocol.h:257-302 | the premise of the transaction: the three slots of an accepted plan are separate trees exactly when the managed root does not have one of the two reserved names |
| HandoffPlan.MisnamedPlanIsAccepted | native/portable-launcher/keiko-portable-update-protocol.h:257-302 | with every accepted plan its variant is accepted whose managed root is the backup itself |
| Utf8.IsUtf8 | native/portable-launcher/keiko-portable-update-protocol.h:147-178 | the range checker accepts exactly UTF8-octets of section 4 of RFC 3629 |
| Utf8.ValidUtf8Mode | native/secure-workspace-read/secure_workspace_read.c:46-62 | the decoding checker accepts exactly the characters of which none is refused in its mode |
| Utf8.CheckersAgree | native/secure-workspace-read/secure_workspace_read.c:46-62 | outside text mode the two checkers agree exactly on strings without NUL |
| Utf8.AsciiText | native/secure-workspace-read/secure_workspace_read.c:46-62 | of the bytes below 0x80 text mode accepts exactly tab, line feed, carriage return and 0x20 to 0x7E |
| Utf8.TwoByteText | native/secure-workspace-read/secure_workspace_read.c:46-62 | of the characters of two bytes text mode refuses exactly U+0080 to U+009F |
| Utf8.LongerText | native/secure-workspace-read/secure_workspace_read.c:46-62 | text mode refuses no longer character |
| Utf8.CharsAreEncodings | native/secure-workspace-read/secure_workspace_read.c:46-62 | every accepted character is the encoding of the scalar value that is decoded from it |
| Utf8.EncodingsAreChars | native/secure-workspace-read/secure_workspace_read.c:46-62 | the encoding of every scalar value is accepted and decodes to it |
| Utf8.OctetsAreEncodings | native/portable-launcher/keiko-portable-update-protocol.h:147-178 | every accepted string encodes a sequence of scalar values |
| Utf8.EncodingsAreOctets | native/portable-launcher/keiko-portable-update-protocol.h:147-178 | every sequence of scalar values encodes to an accepted string |
| Paths.IsAbsoluteCanonicalPath | native/portable-launcher/keiko-portable-update-protocol.h:180-222 | the scan accepts exactly absolute paths whose components are non-empty, not "." or "..", and free of backslashes |
| Paths.CanonicalNames | native/portable-launcher/keiko-portable-update-protocol.h:180-222 | directly below the root every name is canonical except ".", ".." and those with a backslash |
| Paths.NotCanonical | native/portable-launcher/keiko-portable-update-protocol.h:180-222 | relative paths, a trailing slash and a double slash at the head are refused |
| Paths.PathIsContained | native/portable-launcher/keiko-portable-update-protocol.h:243-252 | the string comparison, for any two strings |
| Paths.ContainmentIsPrefix | native/portable-launcher/keiko-portable-update-protocol.h:243-252 | on canonical paths the comparison is prefix of component lists, except that the root directory contains only itself |
| Paths.ParentPath | native/portable-launcher/keiko-portable-update-protocol.h:224-241 | the string before the last slash, or the root directory |
| Paths.ParentDropsLeaf | native/portable-launcher/keiko-portable-update-protocol.h:224-241 | below the top level the parent has the same components but the last |
| Paths.TopologyValid | native/portable-launcher/keiko-portable-update-protocol.h:257-302 | the topology check, for any strings |
| Paths.TopologyIsSeparated | native/portable-launcher/keiko-portable-update-protocol.h:257-302 | separation of stage, backup and candidate in every accepted topology, and the exact condition for the managed root |
| Paths.SlotsAreSeparate | native/portable-launcher/keiko-portable-update-protocol.h:257-302 | managed root, candidate and backup are pairwise separate exactly when the managed root’s name is not reserved |
| Paths.ReservedNameIsAccepted | native/portable-launcher/keiko-portable-update-protocol.h:257-302 | there is an accepted topology whose managed root is its own backup |
| Paths.ManagedIsDeep | native/portable-launcher/keiko-portable-update-protocol.h:257-302 | no accepted managed root lies directly below the root directory |
| AppHandoff.RunOwner | native/portable-launcher/keiko-portable-runtime-owner-linux.h:264-428 | whole owner runs: at the head of every iteration accepted implies prepared implies authorized, and the proof is backed by a held child, or it belongs to an accepted handoff whose child was lost and whose application is cut off; phases only move forward, "reaped" only after the supervisor was collected with no live member, and the kind-2 envelope at most once, to an authorized, prepared and accepted handoff whose coordinator is held |
| AppHandoff.Owner.Wait | native/portable-launcher/keiko-portable-runtime-owner-linux.h:264-361 | the event loop, for any events and clock readings: every iteration begins in such a state, and the loop ends well only with the supervisor collected and the record "reaped" |
| AppHandoff.Owner.Iterate | native/portable-launcher/keiko-portable-runtime-owner-linux.h:268-360 | one iteration: a stopping owner ends at its deadline or when the poll brings nothing; an idle committed one goes on; a clean report of the supervisor ends it well once that is recorded |
| AppHandoff.Owner.Controller | native/portable-launcher/keiko-portable-runtime-owner-linux.h:300-321 | the end of the controller stops an owner exactly if it has not committed; a commit needs a persistent owner that has not committed, and a durable record; any other request stops it |
| AppHandoff.Owner.Finished | native/portable-launcher/keiko-portable-runtime-owner-linux.h:346-359 | the end of the old application transfers an accepted handoff with a held coordinator, or stops any other and is recorded, or fails |
| AppHandoff.Owner.Serve | native/portable-launcher/keiko-portable-runtime-owner-linux.h:326-344 | the application’s side of one iteration: the loop goes on with a proof that has lost its child exactly if an accepted handoff is withdrawn and its wait loses the child |
| AppHandoff.Owner.Tick | native/portable-launcher/keiko-portable-runtime-owner-linux.h:268-281 | a coordinator in time is kept, an expired one stopped; the loop begins to stop exactly when the time to commit is over; the poll timeout is the time to the minimum of all running deadlines and reaches none of them late, and these all lie in the future exactly if this iteration has not begun to stop on a clock reading above UINT64_MAX - 5000 |
| AppHandoff.KeptUntilItsDeadline | native/portable-launcher/keiko-portable-app-handoff-linux.h:374-397 | two concrete owners at any time before 200: a coordinator just started is kept until its start deadline 100, an accepted one until its cleanup deadline 150, with the timeouts that belong to them |
| AppHandoff.FailedClockWitness | native/portable-launcher/keiko-portable-runtime-owner-linux.h:268-281 | the reading of a failed clock makes an uncommitted persistent owner stop at a deadline in the past |
| AppHandoff.Owner.ChooseBound | native/portable-launcher/keiko-portable-app-handoff-linux.h:386-397 | the minimum of the running deadlines, if there is any |
| AppHandoff.Owner.Expired | native/portable-launcher/keiko-portable-app-handoff-linux.h:374-384 | a held coordinator is left alone before its start deadline, or once accepted before its cleanup deadline, and stopped from then on; success exactly if the stop was confirmed, nothing had been released and a connected application was told |
| AppHandoff.ProofOutlivesChild | native/portable-launcher/keiko-portable-app-handoff-linux.h:195-206 | an attempt to stop leaves the proof without its child exactly if the kill was accepted and the first conclusive round of the wait was a wait error, a foreign process, or an exit consumed while the deadline passed |
| AppHandoff.WithdrawnProofWitness | native/portable-launcher/keiko-portable-app-handoff-linux.h:251-253 | this occurs: an accepted handoff is withdrawn in the moment its coordinator exits, and the loop goes on without a child |
| AppHandoff.Owner.Stop | native/portable-launcher/keiko-portable-app-handoff-linux.h:195-206 | exactly what each end of the wait leaves of proof and child; success withdraws the whole proof |
| AppHandoff.Owner.Start | native/portable-launcher/keiko-portable-app-handoff-linux.h:217-241 | a new activation needs a committed owner, no held child, a fresh activation and a grant of at most fifteen minutes |
| AppHandoff.Owner.Action | native/portable-launcher/keiko-portable-app-handoff-linux.h:239-269 | each message kind can bring about its own change only, with the exact condition for authorizing, accepting and withdrawing; only a withdrawal, exactly by losing the child, leaves a proof without it |
| AppHandoff.Owner.Acceptance | native/portable-launcher/keiko-portable-app-handoff-linux.h:318-338 | preparation needs authorization and a cleanup grant within the fixed tail |
| AppHandoff.Owner.OldReaped | native/portable-launcher/keiko-portable-app-handoff-linux.h:364-372 | release needs acceptance, a held child and the collected supervisor |
| AppHandoff.Owner.ChildExited | native/portable-launcher/keiko-portable-app-handoff-linux.h:347-360 | completion is reported only for a handoff that was released; an exit that a wait has lost ends the loop |
| AppHandoff.Owner.Record | native/portable-launcher/keiko-portable-app-owner-linux.h:131-171 | a phase may be written although failure is reported, but never out of order |
| AppHandoff.Owner.Commit | native/portable-launcher/keiko-portable-app-owner-linux.h:206-222 | the owner is committed only after "owned" is durable |
| AppHandoff.Owner.Cleanup | native/portable-launcher/keiko-portable-runtime-owner-linux.h:410-422 | after a failure the record becomes "reaped" only if the supervisor was collected, and it does so if stop, collection and writing succeed |
| Frames.ReceiveStream | native/portable-launcher/keiko-portable-app-handoff-linux.h:272-303 | however the stream is cut, the frames, the rest and the refusal are those of the byte-by-byte specification |
| Frames.Receiver.Receive | native/portable-launcher/keiko-portable-app-handoff-linux.h:272-303 | one receive completes at most one frame and takes nothing of the next |
| Frames.RefusalOffsetIsUnique | native/portable-launcher/keiko-portable-app-handoff-linux.h:292-299 | the offset of a refusal does not depend on the cutting |
| Frames.RefusedAtHeader | native/portable-launcher/keiko-portable-app-handoff-linux.h:292-299 | a refusal comes with the twelfth byte of a frame |
| Frames.SentFramesAreDispatched | native/portable-launcher/keiko-portable-app-handoff-linux.h:272-303 | frames written to the stream are dispatched, in order and nothing else |
| Frames.HeaderIsLiteral | native/portable-launcher/keiko-portable-app-handoff-linux.h:292-299 | exactly four headers of twelve bytes are admitted, here byte by byte |
| Frames.LiteralFrames | native/portable-launcher/keiko-portable-app-handoff-linux.h:272-303 | 212 bytes of kind 2 and 44 bytes of kinds 4, 6 and 8 are dispatched as one frame |
| ProcessOwnership.AnyUse | native/portable-launcher/keiko-portable-update-coordinator.h:1285-1318 | whatever is called in whatever order, no kill and no wait is aimed at a number that has been released |
| ProcessOwnership.LostExactly | native/portable-launcher/keiko-portable-update-coordinator.h:1285-1307 | a wait gives the number up without a confirmed exit exactly if its first conclusive round is a wait error, a foreign process, or an exit consumed while the deadline passed |
| ProcessOwnership.CollectedExactly | native/portable-launcher/keiko-portable-update-coordinator.h:1285-1307 | the exit is known exactly if a round returns it in time, after rounds that found nothing yet |
| ProcessOwnership.Child.WaitpidDeadline | native/portable-launcher/keiko-portable-update-coordinator.h:1285-1307 | ownership ends with the wait that ends it, also when the deadline passes in the same moment |
| ProcessOwnership.Child.Dispose | native/portable-launcher/keiko-portable-update-coordinator.h:1309-1318 | disposal kills first and never touches a released number |
| ProcessOwnership.Child.KillAndWait | native/portable-launcher/keiko-portable-app-handoff-linux.h:195-206 | stopping kills, and success means exactly that the exit was collected |
| ProcessOwnership.Child.ConfirmStop | native/portable-launcher/keiko-portable-update-coordinator.h:1336-1345 | a stop is confirmed only by a clean exit |
| ProcessOwnership.Generation.WaitOwnedInit | native/runtime-supervisor/linux/keiko_runtime_supervisor.c:313-334 | success means that this call collected the exit |
| ProcessOwnership.Generation.Clear | native/runtime-supervisor/linux/keiko_runtime_supervisor.c:335-343 | clearing waits at most for a number that is still owned |
| Descriptors.RetainDescriptors | native/runtime-supervisor/linux/keiko_runtime_supervisor.c:70-86 | for any array exactly the descriptors from 3 to UINT_MAX that are not in it are closed |
| Descriptors.SortDescriptors | native/runtime-supervisor/linux/keiko_runtime_supervisor.c:70-77 | the exchange sort sorts and permutes in place |

## Left out

- Transaction.Enabled: the runtimes' own steps are assumptions, because the successor's TypeScript code is not modelled beyond the receipts it may append.
- Coordinators.Coordinator.WaitVerifiedAck: the acknowledgement is one observed fact; the magic, the digest and the link count of its file are not modelled apart.
- Coordinators.Coordinator.WaitOldExit: the exit of the old application is one observed fact; the parent pipe, the port probe and their deadlines are not modelled apart.
- Recovery.Load: reads the journal as one snapshot, which the append-only directory allows; the control file, its lock and its text format are not modelled.
- WindowsCutover.Cutover.Append: the Windows journal is a count without torn files; those are covered by the loader and by POSIX recovery.
- WindowsCutover.World: runtimes on Windows are not modelled; start and stop follow the same engine.
- Sha256.Xor: bit operations on words are defined arithmetically, bit by bit, and shown to be bitwise; the big-endian reading of a word is arithmetic as well.
- TreeHash.HashTree: each collection sees the tree at one moment, and each file is read at one moment; that an unchanged status means an unchanged content is a premise.
- TreeHash.Sort: stands for `qsort`; uniqueness shows that the algorithm does not matter.
- HandoffPlan.Parse: the POSIX build; the Windows fields 32 to 36 and drive-letter paths are not modelled.
- AppHandoff.Owner.Receive: peer credentials, ancillary data and the contents of messages are arbitrary outcomes; byte-level reassembly is in Frames.
- AppHandoff.RunOwner: the separate "not-started" record of a run without a supervisor is not modelled.
- ProcessOwnership.Generation.Clear: signals through a process handle, which cannot miss their process, are not modelled.
- Loops that wait for a clock run for an arbitrary number of rounds, so nothing is said about how long they take.
- Durability under power loss: a completed operation is taken to be on disk; what `fsync` guarantees is not modelled.
- Handles, modes, owners, access control lists and reparse points: part of the arbitrary outcome of a system call.
- Timestamps in receipts, JSON text matching, process identity files.
- The CommonCrypto and BCrypt branches of SHA-256, the macOS variants of the owner, the launcher's dialogs, setup and user interface code: platform wrappers or presentation.
