# vmctx: verified protocol core

vmctx runs a program's instructions on one machine (the executor) while another machine (the
source) owns its memory, its files and its system calls. Pages move between the two on demand,
address spaces are forked lazily, and both sides must agree at every moment on who holds a page.
This project models the parts of that machinery whose correctness is hardest to see from any one
function, and proves them in Dafny for every input, every interleaving and every pattern of
native failures. `dafny verify dfyconfig.toml` checks the whole project.

What the modules say:

* **TlbShootdown** — the kick that follows a page take. For any number of CPUs and concurrent
  takes, once a kick has returned no CPU is in its guest with a translation walked before the
  unmap, and the taken frame's bytes never change again; and a kick can always return.
* **FutexMutex, OwnWake** — the futex lock and the per-entry generation wait of the ownership
  segment: mutual exclusion, no stranded sleeper, no lost wakeup, and when a claim is exclusive.
* **ForkCow, CowTable** — lazy fork refines an eager copy at fork, over every run of fork, copy,
  break, write and exit on a tree of address spaces: a child reads its parent's memory as of the
  fork until it writes itself; and exactly when a write is safe.
* **ProbeTable, PageClaims, SharedPages** — the open-addressed tables refine finite maps, page
  reservations are exclusive over whole runs, and backing slots are distinct and permanent.
* **Intervals, AccessLayout, AccessJournal, SharedLayout** — range tables agree with pointwise
  maps; a journal batch is a pointwise fold that replays harmlessly.
* **Custody, Admission, Serve** — native page custody and native call admission under arbitrary
  kernel answers, and the gate between them in the serve loop.
* **ExecutionTarget, SourceRegistry** — epochs, superseded bindings, reference-counted records.
* **FaultService** — when a page that was handed over can be replaced by zeros or served locally.
* **Vmcs** — which CPU holds which VMCS, over every interleaving of entries and failure exits.
* **ChildPages, CpuModel** — the paginated snapshot of a newborn child equals the full one; CPU
  feature negotiation is a greatest lower bound.

Concurrent code is a transition system whose steps are the source's atomic operations or
critical sections, so a statement over all step sequences is a statement over all
interleavings. Objects updated in place are classes. Native calls, peers, clocks and
allocation answer through parameters or nondeterministic choices, so contracts hold for every
answer.

What the proofs show about the code that its comments do not:

* `own_forget` on an entry in transit ends the exclusivity of its claim: `RevokedClaimRepeats`
  gives a run with two claimants. `ClaimsExclusiveUnlessRevoked` shows that this is the only
  step that can.
* A sibling's transition that is still unfinished after the fault service's last poll is acted
  on as if no record existed, and zeros may then be landed. `TransitOutlastsPolling` is such a
  fault, and `InventedIffTransitionLost` and `ZerosIffTransitionLost` say exactly when a page
  recorded as handed over or moving can be left to the local kernel or filled with zeros.
* `DONE` without any evidence about the page happens in exactly one case, a refused claim,
  after which the access faults again.
* `vmctx_cpu_model_intersect` loses the second offer when its output aliases it
  (`LostOfferMatters`), which is harmless exactly when that offer was the larger
  (`SameAsAloneIff`). No caller does that.
* Since every exit of a VMX entry releases the VMCS, no entry ever has to interrupt another CPU
  or evict another run: `Vmcs.Host.Load` shows it for every interleaving.

## Model

| member | source | states |
|---|---|---|
| `TlbShootdown.StepInv` | vmctx/kernel/vmctx.c:1091-1130 | every step of guest entry, guest execution, exit, unmap and kick keeps: a CPU whose recorded generation covers a take holds no translation older than its unmap, and a CPU the take has cleared enters its guest only with that generation |
| `TlbShootdown.ReturnedIsSealed` | vmctx/kernel/vmctx.c:4262-4281 | when a kick has returned, no CPU inside a guest holds a translation to the taken frame |
| `TlbShootdown.KickReturnedIsFinal` | vmctx/kernel/vmctx.c:4262-4281 | from then on every continuation keeps the frame unreachable and its bytes fixed |
| `TlbShootdown.NoStaleAccess` | vmctx/kernel/vmctx.c:976-1021 | the same for every run from the initial state, any number of CPUs and concurrent takes |
| `TlbShootdown.KickCanReturn` | vmctx/kernel/vmctx.c:4262-4281 | from every state with a CPU, some run of the CPUs' exits and this kick's steps completes it |
| `TlbShootdown.StaleStoreBeforeKick` | vmctx/kernel/vmctx.c:976-1021 | before the kick returns a guest can still store through a translation walked before the unmap, so the guarantee is not about idle guests |
| `FutexMutex.StepExclusive` | vmctx/user/own.h:188-207 | each atomic step keeps at most one holder, and the word is 0 exactly when nobody holds the lock |
| `FutexMutex.StepWatched` | vmctx/user/own.h:188-207 | while anyone sleeps the word is 2, or an unlocker owes a wake, or an awake contender is about to write 2 |
| `FutexMutex.LockIsSafe` | vmctx/user/own.h:188-207 | both properties in every reachable state |
| `FutexMutex.SleeperCanAcquire` | vmctx/user/own.h:188-207 | from every reachable state with a sleeper there is a run without spurious wakeups in which that sleeper gets the lock |
| `FutexMutex.ContenderCanSleep` | vmctx/user/own.h:188-199 | while the lock is held another thread's own steps put it to sleep with the word at 2 |
| `FutexMutex.FreeLockIsTaken` | vmctx/user/own.h:188-207 | a free lock is taken at the first attempt, and its unlock restores the state |
| `OwnWake.StepNoLostWakeup` | vmctx/user/own.h:444-487 | a thread asleep on a generation the entry has left always has a lander between its bump and its wake |
| `OwnWake.StepCount` | vmctx/user/own.h:444-487 | the waiter count is the number of threads between counting in and counting out |
| `OwnWake.StepTickets` | vmctx/user/own.h:354-378 | a BUSY answer names a transition that is still in flight or has ended since |
| `OwnWake.SleeperIsNeverStranded` | vmctx/user/own.h:209-218 | over every run, a sleeper's transition is still in flight, or a lander is on its way and will see a non-zero waiter count |
| `OwnWake.BusyGenerationMoves` | vmctx/user/own.h:387-406 | the landing, abort or forget that ends a transition changes the generation a BUSY answer reported |
| `OwnWake.ClaimsExclusiveUnlessRevoked` | vmctx/user/own.h:492-510 | a step keeps claims exclusive if and only if it is not a forget of an entry in transit |
| `OwnWake.RevokedClaimRepeats` | vmctx/user/own.h:492-510 | a concrete run in which forgetting an entry in transit lets a second thread claim it |
| `OwnWake.LandedAnswerIsTrue` | vmctx/user/own.h:465-469 | over every run a wait answers "it landed" only after a landing since its BUSY answer |
| `OwnWake.WaitsUntilLanding` | vmctx/user/own.h:460-486 | a waiter leaves its loop exactly if a landing has come since its BUSY answer; until then it parks, and parking puts it to sleep |
| `OwnWake.OnlyTheBoundGivesUp` | vmctx/user/own.h:470-478 | a wait answers the bound only where its caller's bound ran out |
| `OwnWake.BusyThreadSleeps` | vmctx/user/own.h:444-487 | a thread told BUSY while the transition is in flight can go to sleep on it |
| `OwnWake.LandingWakes` | vmctx/user/own.h:387-406 | the claimer's landing wakes such a sleeper, which answers "it landed"; site, transition and counts afterwards |
| `OwnWake.SiteIsLastLanding` | vmctx/user/own.h:387-406 | over every run the site is where the token last landed, or nowhere after a forget |
| `OwnWake.TransitionIsTheClaimers` | vmctx/user/own.h:354-431 | what begin, land, abort and forget leave as transition, landing count and answer |
| `ProbeTable.FreeSlotExists` | vmctx/user/pgstate.h:73-142 | a table with fewer rows than slots has a free slot, so every probe ends |
| `ProbeTable.Table.Find` | vmctx/user/pgstate.h:109-142 | finds a key exactly when the map holds it, at a slot with its value |
| `ProbeTable.Table.Grow` | vmctx/user/pgstate.h:73-105 | doubling keeps the map, every row reachable and the load at most one half |
| `ProbeTable.Table.Insert` | vmctx/user/pgstate.h:109-142 | adds exactly one key and keeps every other row |
| `PageClaims.PageStates.TryClaim` | vmctx/user/pgstate.h:150-181 | the exact condition of a grant; it opens the page's next episode in the claimer's state and tells the state before; no other slot moves |
| `PageClaims.PageStates.Finish` | vmctx/user/pgstate.h:206-223 | an accepted finish leaves exactly the final state under the claim's episode; any other leaves the table as it was; no other slot moves |
| `PageClaims.ClaimMeans` | vmctx/user/pgstate.h:150-181 | the map-level claim: when it is granted and what every slot then holds |
| `PageClaims.FinishMeans` | vmctx/user/pgstate.h:206-223 | the map-level finish: the slot it leaves and the slots it does not touch |
| `PageClaims.RunInv` | vmctx/user/pgstate.h:150-223 | over any run a page's slot shows its newest grant's state, or the state that grant was finished in; episodes count up from 1; only the newest grant may be unfinished |
| `PageClaims.ClaimsAreExclusive` | vmctx/user/pgstate.h:150-181 | of two grants of one page the earlier is finished and has the smaller episode |
| `PageClaims.PriorIsPreviousFinish` | vmctx/user/pgstate.h:150-223 | over any run a grant is told the very state in which the grant before it of that page was finished, Invalid if it is the first |
| `PageClaims.OnlyTheOpenClaimFinishes` | vmctx/user/pgstate.h:206-223 | a finish is accepted exactly for the identity of an unfinished grant; stale, repeated and made-up claims change nothing |
| `SharedPages.PageSlots.SlotFor` | vmctx/user/shared-pages.h:56-105 | a known key keeps its slot, a new one gets the next page, exactly when a new one is backed, a failed request assigns nothing, and which arguments are refused |
| `SharedPages.SlotsAreStable` | vmctx/user/shared-pages.h:56-105 | over any request sequence slots stay distinct and nobody's slot changes |
| `CowTable.BrokenPages.IsBroken` | vmctx/user/source-lineage.h:72-86 | answers membership of (MM, page) in the set of recorded breaks |
| `CowTable.BrokenPages.NoteBreak` | vmctx/user/source-lineage.h:88-116 | adds exactly that pair; MM 0 ends the process with nothing added |
| `ForkCow.Lineage.ParentOf` | vmctx/user/source-lineage.h:11-19 | the recorded parent, or 0 exactly when there is none |
| `ForkCow.Lineage.Note` | vmctx/user/source-lineage.h:21-40 | accepted exactly for an older non-zero parent that agrees with any earlier edge; adds that edge and no other |
| `ForkCow.Lineage.Children` | vmctx/user/source-lineage.h:43-57 | lists all children once each, exactly when they fit; otherwise the monitor ends |
| `ForkCow.WritePrep` | vmctx/user/vmhome.c:4700-4757 | each verdict's exact condition; a write is free only if every direct child has been given the page |
| `ForkCow.WriteRefines` | vmctx/user/vmhome.c:4700-4757 | a write after every direct child has its copy keeps lazy memory equal to eager memory for every MM |
| `ForkCow.StepReads` | vmctx/user/source-lineage.h:21-40 | what every MM reads after every step: a forked child reads what its parent read before the fork, a write changes one byte for its writer, nothing else changes what anyone reads |
| `ForkCow.StepRecords` | vmctx/user/source-lineage.h:21-40 | lineage, MMs, recorded breaks and ends grow by exactly the step that adds to them |
| `ForkCow.OnlyOwnWritesChange` | vmctx/user/vmhome.c:4700-4757 | over any run only an MM's own writes to a page change what it reads there |
| `ForkCow.ForkSnapshotHolds` | vmctx/user/vmhome.c:4700-4757 | over any run after a fork, however late the page is copied, a child that has not written a page reads there what its parent read at the fork |
| `ForkCow.LazyForkRefinesEager` | vmctx/user/source-lineage.h:11-57 | every run keeps each MM's page, read through its nearest copied ancestor, equal to an eager copy at fork, through ended intermediates too; a write needs every direct child to have its copy, recorded at the source or not |
| `ForkCow.LazyForkFromStart` | vmctx/user/source-lineage.h:11-57 | the same from the empty state |
| `ForkCow.WriteSafeIffGiven` | vmctx/user/vmhome.c:4700-4757 | the write is safe if and only if every direct child has its copy or the write stores what is there already |
| `ForkCow.FreeAnswerAdmitsWrite` | vmctx/user/vmhome.c:4700-4757 | after a free answer the store keeps the refinement, the writer reads it, and no other MM's memory changes |
| `ForkCow.BreaksRun` | vmctx/user/vmremote.c:6765-6785 | giving every child that lacks one its copy is a run of the machine, after which all have one and nobody reads anything else than before |
| `ForkCow.BreaksAdmitWrite` | vmctx/user/vmremote.c:9461-9475 | after a COWBREAK answer and the breaks it asks for, though the source has recorded none of them, the store is as private as after a free answer |
| `ForkCow.PrepareStore` | vmctx/user/vmhome.c:4700-4757 | every answer of the write decision that lets the store go on leads by steps of the machine to a store only the writer sees; every other answer changes nothing |
| `ForkCow.CowStillShared` | vmctx/user/vmhome.c:4803-4837 | each answer's exact condition |
| `ForkCow.CowBreakGivesForkSnapshot` | vmctx/user/vmhome.c:4803-4837 | a COWBREAK answer to a read names a page the MM has no copy of; the copy then made is the eager fork's page and changes nobody's memory |
| `AccessLayout.Layout.Remove` | vmctx/user/access-layout.h:33-46 | erases exactly the given addresses, keeps rows disjoint, needs one spare row |
| `AccessLayout.Layout.Note` | vmctx/user/access-layout.h:72-79 | overwrites exactly the row's addresses |
| `AccessLayout.Layout.Forget` | vmctx/user/access-layout.h:48-53 | erases one space and nothing else |
| `AccessLayout.Layout.Lookup` | vmctx/user/access-layout.h:55-70 | the rights at an address and how far they extend |
| `AccessLayout.Layout.Inherit` | vmctx/user/access-layout.h:81-96 | the child gets the parent's guards and protections, with sequence 0; other spaces keep theirs |
| `AccessJournal.CheckBatch` | vmctx/user/access-journal.h:101-116 | accepts exactly the batches that continue the cursor, in order and aligned |
| `AccessJournal.Boundary` | vmctx/user/access-journal.h:40-58 | returns a non-empty prefix all of whose addresses have one answer to "built later?" |
| `AccessJournal.ApplySpan` | vmctx/user/access-journal.h:60-99 | every address reached whose stamp is not newer gets the event's stamp and protection and the guard its kind means; newer ones keep theirs; a native failure stops it at an exact place |
| `AccessJournal.ApplyBatch` | vmctx/user/access-journal.h:118-138 | success is the pointwise fold of all events; failure is the fold up to the exact place reached |
| `AccessJournal.ReachedRights` | vmctx/user/access-journal.h:60-99 | stamp, protection and guard an event leaves at an address, and exactly when it leaves the address alone |
| `AccessJournal.NewerMappingIsKept` | vmctx/user/access-journal.h:40-58 | a mapping newer than the event, or built at the sequence of an unmap, is not touched |
| `AccessJournal.BatchRights` | vmctx/user/access-journal.h:118-138 | over an ordered batch: stamp and protection are those of the last event that reaches the address, the guard is the last decision but protects, and an address nothing reaches is unchanged |
| `AccessJournal.StampNeverDecreases` | vmctx/user/access-journal.h:60-99 | no batch lowers a sequence stamp anywhere |
| `AccessJournal.ReplayChangesNothing` | vmctx/user/access-journal.h:118-138 | applying an ordered batch twice equals applying it once |
| `AccessJournal.OnlyAllowOrConstructClears` | vmctx/user/access-journal.h:60-99 | a guard disappears only through an ALLOW or CONSTRUCT that reaches the address and is not outranked |
| `SharedLayout.Layout.Remove` | vmctx/user/shared-layout.h:41-62 | rows stay disjoint and one spare row suffices; what is left is the cut of the old rows |
| `SharedLayout.Layout.Forget` | vmctx/user/shared-layout.h:64-71 | erases exactly the given addresses; all others keep object, byte offset and protection |
| `SharedLayout.Layout.Note` | vmctx/user/shared-layout.h:73-86 | ends the process exactly on the arguments the source aborts on; otherwise overwrites exactly the given addresses with consecutive object offsets |
| `SharedLayout.Layout.Lookup` | vmctx/user/shared-layout.h:88-100 | returns the covering row, or none exactly when the address is unmapped |
| `SharedLayout.Layout.Protect` | vmctx/user/shared-layout.h:120-147 | changes only the protection, only in the range, and keeps byte offsets through splits |
| `SharedLayout.Layout.Inherit` | vmctx/user/shared-layout.h:102-118 | the child becomes a copy of the parent, other spaces are untouched, and the reserved rows suffice |
| `Custody.Connection.Begin` | vmctx/user/source-custody.h:39-60 | an entry is kept exactly when the kernel answered an admissible request, even with a malformed answer; everything begun earlier stays on record |
| `Custody.Connection.Capture` | vmctx/user/source-transfer.h:72-89 | captured only on a confirmed capture of this page and ticket; a repeat must agree; earlier calls stay in the log |
| `Custody.Connection.Read` | vmctx/user/source-transfer.h:91-106 | read only after a capture and on a confirmed read with the same outcome; earlier calls stay in the log |
| `Custody.CaptureMeans` | vmctx/user/source-transfer.h:72-89 | a capture succeeds exactly on an echoed, legal outcome that agrees with an earlier one |
| `Custody.ReadMeans` | vmctx/user/source-transfer.h:91-106 | a read succeeds exactly on an echoed answer with the captured outcome |
| `Custody.AckMeans` | vmctx/user/source-transfer.h:108-121 | an acknowledgement succeeds exactly for a transfer read, not cancelled, and settled without being stale or echoed now; a stale answer settles it as stale |
| `Custody.CancelMeans` | vmctx/user/source-transfer.h:123-129 | a cancellation succeeds exactly if the transfer is settled or the cancel is echoed |
| `Custody.Connection.Find` | vmctx/user/source-custody.h:62-80 | finds an entry exactly by target, address and ticket, from the owning thread, while open |
| `Custody.Connection.Retire` | vmctx/user/source-custody.h:82-88 | unlinks exactly a settled entry whose FORGET was accepted |
| `Custody.Connection.Ack` | vmctx/user/source-custody.h:93-102 | succeeds exactly when acknowledgement and FORGET do; then the page was captured, read and acknowledged under this ticket, which was never cancelled or stale |
| `Custody.Connection.Cancel` | vmctx/user/source-custody.h:106-113 | succeeds exactly when cancellation and FORGET do; a ticket it settles can never be acknowledged |
| `Custody.Connection.Abandon` | vmctx/user/source-custody.h:119-129 | closes first; drops all records exactly when the kernel released all; dead tickets stay dead |
| `Custody.DropEntry` | vmctx/user/source-custody.h:82-88 | custody safety survives a removal that has a confirmed release |
| `Custody.Perform` | vmctx/user/source-custody.h:39-129 | one request by any thread with any answers: the log, the begun entries and the dead tickets only grow, and a retired ticket never comes back |
| `Custody.Run` | vmctx/user/source-custody.h:39-129 | over any sequence of requests and answers: an entry leaves only after a confirmed FORGET or ABANDON, a successful ACK was captured, read and acknowledged natively, and a ticket that was settled, cancelled or stale is never acknowledged later |
| `Custody.Deliver` | vmctx/user/source-custody.h:39-102 | with answers that echo each call, begin, capture, read and acknowledgement succeed, and the list is as it was |
| `Serve.CtxPage` | vmctx/user/vmhome.c:4842-4903 | COWBREAK exactly when the page is still the parent's, before any ticket; bytes leave exactly when the kernel issues, captures and reads out one ticket for the page with a delivering outcome, and that ticket stays pending; every refusal leaves the pending list as it was |
| `Serve.CaptureAndRead` | vmctx/user/vmhome.c:4857-4902 | when bytes are sent, and which captured status and state each refusal stands for |
| `Serve.Connection.Handle` | vmctx/user/vmhome.c:5121-5129 | no admission step runs while a ticket is unsettled, over any request sequence; other requests are then rejected without effect |
| `Admission.Call.Open` | vmctx/user/source-admission.h:69-162 | tickets are consecutive and each installs CPU state once; the exact condition for opening |
| `Admission.Call.SendCommit` | vmctx/user/source-admission.h:69-162 | a commit carries the saved binding and call and follows preparation |
| `Admission.Call.Birth` | vmctx/user/source-admission.h:22-64 | each answer's exact condition; a child is published once, only for an admitted call, and only with the MM that the call's MM allows |
| `Admission.Call.Finish` | vmctx/user/source-admission.h:69-162 | the exact condition of each reply; a live completion only after a commit |
| `Admission.Call.Step` | vmctx/user/source-admission.h:69-162 | any request with any native answers extends the history lawfully; which requests are refused without effect; the exact condition under which a step commits the call; the state a pending reply names |
| `Admission.EachAtMostOnce` | vmctx/user/source-admission.h:69-162 | in a lawful history each ticket installs, prepares, dispatches and publishes at most once |
| `Admission.ObservationsAgree` | vmctx/user/source-admission.h:69-162 | all admitted observations of a ticket equal the first |
| `Admission.CommitFollowsAdmission` | vmctx/user/source-admission.h:69-162 | every commit is preceded by an admitted observation of the same binding, number and arguments, and by preparation; every publication by an admitted observation whose MM the child shares or was forked from |
| `ExecutionTarget.Context.Observe` | vmctx/user/execution-target.h:85-107 | never changes the native binding; accepted exactly if consistent with the history |
| `ExecutionTarget.Context.Publish` | vmctx/user/execution-target.h:114-148 | a newer source epoch installs exactly when the adapter commits the next native epoch; an older one only resolves |
| `ExecutionTarget.Context.Replace` | vmctx/user/execution-mm.h:148-171 | native epochs rise by exactly one per commit; an uncertain answer ends the monitor with nothing changed |
| `ExecutionTarget.Context.Control` | vmctx/user/execution-target.h:150-155 | reaches the adapter exactly through the current target |
| `ExecutionTarget.Run` | vmctx/user/execution-target.h:75-155 | over any sequence of observations, publications and controls: native epochs rise by one per installation, source epochs strictly, and a control through a superseded or only observed target never reaches the adapter |
| `SourceRegistry.CacheInv` | vmctx/user/source-registry.h:42-66 | a cached result keeps epochs consecutive and MM ids increasing, never goes back, never touches a terminal record |
| `SourceRegistry.CacheAnswers` | vmctx/user/source-registry.h:42-66 | exactly which results are ignored, rejected and stored; a stored one is shown as it is, and a younger MM opens the next epoch |
| `SourceRegistry.StepEffects` | vmctx/user/source-registry.h:106-155 | what each step does to the shown result, the references, retirement, the claim, the descriptor and the terminal error |
| `SourceRegistry.RegistryIsMonotone` | vmctx/user/source-registry.h:106-155 | the same over every interleaving of racing queries, claims and releases |
| `SourceRegistry.RecordShowsLastAccepted` | vmctx/user/source-registry.h:42-155 | over every interleaving the record shows the last result it accepted; accepted MM ids never fall, and none is accepted after a terminal one |
| `SourceRegistry.ClaimedAtMostOnce` | vmctx/user/source-registry.h:122-135 | over every interleaving a birth is claimed by at most one connection |
| `SourceRegistry.HasBinding` | vmctx/user/source-registry.h:204-213 | answers exactly whether the chain holds the binding |
| `SourceRegistry.BindingStaysValid` | vmctx/user/source-registry.h:204-213 | a published binding stays in the chain, and its epoch names that MM for ever |
| `SourceRegistry.ClosesExactlyOnce` | vmctx/user/source-registry.h:137-155 | the descriptor closes once, never under a reference |
| `FaultService.GetPage` | vmctx/user/vmhome.c:1997-2154 | LANDED exactly when, before another reply decided, the page was present here, recorded OURS and not behind the peer's count; bytes and ABSENT exactly when the first deciding reply says so |
| `FaultService.Fetch` | vmctx/user/vmhome.c:2656-2704 | the answer of the first of at most thirty-one asks that is answered at all |
| `FaultService.AskAgain` | vmctx/user/vmhome.c:2878-2897 | bytes exactly when one of at most forty asks gives them, all before it having said ABSENT with no page here |
| `FaultService.Decide` | vmctx/user/vmhome.c:2720-3069 | exactly when the context ends, when peer bytes were landed, when zeros were; DONE exactly on evidence; a handed-over page is never left to the local kernel nor filled with zeros |
| `FaultService.Serve` | vmctx/user/vmhome.c:2558-2780 | acting on REMOTE the reply is never SELF and zeros are never landed; what given bytes lead to for each landing; DONE without evidence exactly on a refused claim; the answer when nobody is asked |
| `FaultService.AwaitSibling` | vmctx/user/vmhome.c:2623-2628 | the first settled state polled; still moving exactly if every poll was |
| `FaultService.InventedIffTransitionLost` | vmctx/user/vmhome.c:2612-2646 | a page recorded handed over or moving can end in SELF or zeros, for some answers of the world, if and only if it was moving and its transition settled here, or did not settle as handed over and the claim was granted |
| `FaultService.ZerosIffTransitionLost` | vmctx/user/vmhome.c:2612-2646 | zeros can be landed for it if and only if it was moving, the claim was granted, the transition settled as neither side's or outlasted every poll, and no private file is behind it |
| `FaultService.TransitOutlastsPolling` | vmctx/user/vmhome.c:2639-2640 | such a fault: in transit at every poll, claim granted, peer ABSENT, and zeros are landed |
| `Vmcs.Machine.ClearHere` | vmctx/kernel/vmctx.c:3161-3172 | the VMCS becomes inactive and not launched; no other run or CPU changes |
| `Vmcs.Machine.Release` | vmctx/kernel/vmctx.c:3174-3182 | the same, wherever the run is loaded |
| `Vmcs.Machine.MakeCurrent` | vmctx/kernel/vmctx.c:3189-3210 | each answer's exact condition; at most one CPU has the VMCS active; exactly whom it disturbs, every other run and CPU unchanged |
| `Vmcs.Machine.WriteFields` | vmctx/kernel/vmctx.c:3528-3593 | after the skipped and unskipped writes the VMCS holds exactly the run's CR3, FS and GS and the task's FS base |
| `Vmcs.Machine.RunGuest` | vmctx/kernel/vmctx.c:3690-3697 | the guest's FS and GS are read back and the write cache stays true |
| `Vmcs.Host.EnterOnce` | vmctx/kernel/vmctx.c:3497-3705 | one entry alone: the code returned, the registers kept, and on every exit the VMCS active nowhere |
| `Vmcs.OtherStagesHold` | vmctx/kernel/vmctx.c:3497-3705 | what one CPU does to its own run in its section disturbs no other CPU's stage |
| `Vmcs.Host.Load` | vmctx/kernel/vmctx.c:3518-3522 | inside its section a CPU loads its run without interrupting another CPU or evicting another run |
| `Vmcs.Host.Leave` | vmctx/kernel/vmctx.c:3698-3705 | every way out of the section leaves the VMCS active nowhere |
| `Vmcs.Host.Interleave` | vmctx/kernel/vmctx.c:3497-3705 | over every schedule of stages on any number of CPUs with any failures: every entry runs with its own run's fields and the right launch instruction, no VMCS is active on two CPUs, and none outside a section |
| `Vmcs.Machine.Free` | vmctx/kernel/vmctx.c:3212-3222 | no CPU has the VMCS active when it is freed |
| `ChildPages.CheckBatch` | vmctx/user/child-pages.h:8-22 | accepts exactly the batches of distinct aligned pages in order from the cursor with a later next cursor |
| `ChildPages.PackedIsValid` | vmctx/user/source-snapshot.h:39-51 | every batch the scan builds passes that check for its cursor |
| `ChildPages.Child.ScanLine` | vmctx/user/source-snapshot.h:31-53 | finds all and only the resident pages of the mapping, and publishes exactly those |
| `ChildPages.Child.Scan` | vmctx/user/source-snapshot.h:7-61 | success reports all resident private pages from the cursor up to the next cursor, ownership and breaks recorded for exactly those; earlier errors record nothing |
| `ChildPages.Read` | vmctx/user/vmremote.c:13518-13539 | ends whatever the source answers; an accepted list is in order; honest answers give every resident page of the private mappings that end below 2^63, each once, ascending; answers that never fail always succeed |
| `ChildPages.Snapshot` | vmctx/user/source-snapshot.h:7-61 | repeating the scan from cursor 0 ends, no batch is refused by the receiver's check, the pages are all those of a full scan, once, ascending, and exactly those are recorded; only a failing native call can stop it |
| `CpuModel.ValidIsCoherent` | vmctx/kernel/vmctx_cpu_model.h:74-85 | valid models are exactly those with a full baseline, portable features and whole dependencies |
| `CpuModel.TrimIsIdempotent` | vmctx/kernel/vmctx_cpu_model.h:37-57 | trimming twice is trimming once |
| `CpuModel.TrimIsDeflationary` | vmctx/kernel/vmctx_cpu_model.h:37-57 | trimming adds no feature |
| `CpuModel.TrimIsMonotone` | vmctx/kernel/vmctx_cpu_model.h:37-57 | trimming keeps inclusion |
| `CpuModel.IntersectIsMeet` | vmctx/kernel/vmctx_cpu_model.h:59-95 | a model fits the negotiated one if and only if it fits both offers |
| `CpuModel.SubsetMeans` | vmctx/kernel/vmctx_cpu_model.h:87-95 | a model fits a machine exactly if it is coherent and the machine has each of its features |
| `CpuModel.IntersectIsWithinBoth` | vmctx/kernel/vmctx_cpu_model.h:59-72 | the negotiated model offers nothing that either machine lacks |
| `CpuModel.ValidClosedUnderIntersect` | vmctx/kernel/vmctx_cpu_model.h:59-85 | two valid models negotiate to a valid one |
| `CpuModel.Record.TrimInPlace` | vmctx/kernel/vmctx_cpu_model.h:37-57 | the statements compute the trim of the old contents |
| `CpuModel.Record.IntersectInto` | vmctx/kernel/vmctx_cpu_model.h:59-72 | computes the negotiated model if and only if the output does not alias the second input or that input already offers all of the trimmed first one |
| `CpuModel.SameAsAloneIff` | vmctx/kernel/vmctx_cpu_model.h:59-72 | an offer negotiates to what it trims to alone if and only if the other one contains that |
| `CpuModel.LostOfferMatters` | vmctx/kernel/vmctx_cpu_model.h:59-72 | two valid offers, with and without AVX, for which an aliased output gives the wrong model |

## Left out

- OwnWake.SleeperIsNeverStranded: assumes fewer landings since a thread's BUSY answer than the 32-bit generation counter can count, because beyond that a generation repeats and the futex cannot tell.
- OwnWake: the hash slot search, the entry lookup and the time limit of a wait are not modelled; one entry is modelled, and giving up is always possible.
- TlbShootdown: the shootdown is modelled for the SVM path; on VMX the entry itself flushes. Page contents are one value per frame.
- Custody.Connection.Retire: the linked list is a sequence, so pointer-to-pointer unlinking and freeing are not captured; the class bits of an outcome are carried but their mask is not checked.
- Serve.Connection.Handle: the requests that touch neither custody nor admission are one case, and the recovery that answers for a task which ended during an admission step is a closed connection.
- Admission.Call.Step: the register write-back of source_admission_complete is not modelled.
- AccessJournal.ApplyBatch: the table of constructions is fixed during a batch, and access_sync with its cursor list is not modelled.
- ExecutionTarget.Context.Publish: memory allocation of a history entry is the parameter `spare`; resolving an MM record in execution_mm_resolve is not modelled.
- Vmcs.Host.EnterOnce: the fields written on every entry, the per-CPU host state and the decoding of exit reasons are not modelled; the release right after a failed entry is folded into the one every exit makes.
- Vmcs.Host.Interleave: the scheduler's rule that a task is on one CPU at a time is the guard of its entry step.
- ForkCow.CowBreakGivesForkSnapshot: that a copy the requester does not hold is recorded or present at the source is what the native probe is taken to report.
- FaultService.Serve: claims that outlive their service, prefetching and the kill retries after the decision are not modelled.
- ChildPages.Read: allocation failure of the growing list is not modelled.
- Allocation failures on which the source aborts, mutex initialisation, counters, traces and diagnostics are not modelled.
- Sockets, read-ahead, /proc parsing below the level of a line, and the executor's fault dispatch are not modelled.
