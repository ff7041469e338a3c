# NagiOS: a verified model of the kernel core and the A/B boot protocol

NagiOS is a small capability kernel with a UEFI loader that boots one of two
system slots. This project models the parts of it that keep state, and proves
what they promise over every input and every run.

Each component is modelled twice. Pure datatypes and functions say what an
operation does. Classes do it with updated fields, loops and arrays, as the
kernel does, and each method is proved to do what its function says. The
properties of whole runs are lemmas about the functions. The IPC manager is a
class that owns the registry, one handle table per process, one pair of ring
buffers per Channel and the wait registry, and calls their methods, so what is
proved of its runs is proved of them.

| part | files |
|---|---|
| objects, handles, waits | ObjectRegistry, HandleTable, WaitRegistry |
| Channels and the IPC manager | Channels, IpcModel, IpcLedger, IpcSafety, IpcCollect, IpcRuns, IpcRights, IpcFifo, IpcOutcomes, IpcRefusals, IpcMarks, UserIpc |
| boot control journal and A/B protocol | BootRecord, Checksums, Journal, BootGates, BootProtocol, BootStaging, BootProgress, BootVariables |
| user threads and process exit | Scheduler, SchedulerRuns, SchedulerFairness, SchedulerOutcomes, SchedulerTable, ProcessExit, ExitOutcomes |
| syscalls across the four tables | KernelTables, KernelSafety, KernelLifecycle, KernelProgress, KernelAwake |
| physical pages and the mmap window | PageAllocator, PageOutcomes, PageEntry, Mmap, MmapSafety, MmapRuns, MmapOutcomes, MmapRanges, MmapStorage |
| ELF parsing, init and child images | Elf, ElfFormat, ElfOutcomes, ImageLoad, ImageSpace, ChildSpace |
| partition table and block capabilities | Gpt, GptFormat, BlockDevice |
| shared definitions | Common |

The main results, in one sentence each:

- Over every run of the IPC manager, each object's reference count is exactly
  the number of its holders, every endpoint has one holder, messages arrive in
  order, rights only shrink, no identifier or handle comes back to life, no
  wake-up is lost, and the collector keeps exactly the reachable Channels; each
  call succeeds if and only if a stated condition holds, and then gives exactly
  what was asked for (`IpcRuns`, `IpcRights`, `IpcFifo`, `IpcCollect`,
  `IpcOutcomes`, `IpcRefusals`).
- With power loss possible at every write, the boot journal is always in the
  state before or after the operation, a slot is confirmed only by its own
  trial, a candidate comes only from a request of the confirmed system, gets a
  bounded number of attempts, and then the previously confirmed slot boots; and
  one trial that reports is enough to confirm the candidate (`Journal`,
  `BootProtocol`, `BootStaging`, `BootProgress`). No single damaged byte of a
  stored record goes unnoticed (`Checksums`).
- The scheduler bypasses a runnable thread a bounded number of times and
  dispatches steady threads equally often; sleeping, blocked and finished
  threads stay so until released; each exit code and each process status waits
  for whoever may collect it and is delivered once (`SchedulerFairness`,
  `SchedulerRuns`, `SchedulerOutcomes`, `ProcessExit`, `ExitOutcomes`).
- After every sequence of system calls and contained faults, an isolated
  process is in all four kernel tables or in none, and a thread is blocked if
  and only if something is registered to wake it (`KernelLifecycle`).
- No physical frame is owned twice, a new mapping reads as zeros, user code can
  load, store and fetch exactly as the protection says, stores stay in their
  page, unmap undoes map, and a loaded image reads and runs exactly as its file
  says with no frame both writable and executable (`MmapRuns`, `MmapOutcomes`,
  `ImageSpace`, `ChildSpace`).
- An accepted partition table has disjoint partitions, no write through a
  capability leaves User Data or the claimed idle slot, and an opened extent is
  a disk of its own with its sectors in order (`Gpt`, `BlockDevice`).
- Parsers read back what was written: boot records, firmware variables, ELF
  files, partition headers and entries (`BootRecord`, `BootVariables`,
  `ElfFormat`, `GptFormat`).

Three properties turned out to hold only under a condition that the code does not
check. All are proved as exact conditions, each with an example of the failure:

- The page allocator never hands out a frame twice if and only if the usable
  ranges of the memory map are disjoint. The parser accepts overlapping ranges
  (`PageAllocator.ExactlyWhenDisjoint`, `PageAllocator.RepeatedEntryExample`).
- The mmap pool never loses a frame if and only if it does not contain the
  frame at address zero, because zero also marks a page without a frame
  (`MmapRuns.ExactlyWithoutFrameZero`, `MmapRuns.ZeroFrameIsLost`).
- The loader refuses just the pairs of segments that would map one file page in
  place under different permissions, if and only if neither of the two maps no
  page in place and starts inside the other's pages. Such a pair is refused
  although it shares nothing (`ImageLoad.RefusesJustSharing`,
  `ImageLoad.RefusedWithoutSharing`).

One more is a choice of the code: when the very first journal write is torn, the
journal is refused at every later boot rather than treated as empty
(`Journal.BaselineCutShort`, `BootProtocol.RefusedForever`).

## Model

| member | source | states |
|---|---|---|
| Objects.IdsNeverReturn | kernel/src/handles.rs:137-181 | between any two states of one registry, an identifier that stopped being live is spent, and a spent identifier is never live again |
| Objects.CreateExact | kernel/src/handles.rs:137-155 | a full table refuses and changes nothing; otherwise exactly one reference is added, to an identifier that was neither live nor spent before |
| Objects.RetainExact | kernel/src/handles.rs:157-164 | retaining a held object below the count limit succeeds and adds one reference to that object and no other |
| Objects.ReleaseExact | kernel/src/handles.rs:166-181 | releasing a listed reference always succeeds and removes exactly that one; giving up the last one spends the identifier |
| Objects.ReleaseAllExact | kernel/src/handles.rs:166-181 | giving up any bag of listed references releases every one of them, and the counts drop by exactly that bag |
| Objects.UnheldDead | kernel/src/handles.rs:183-195 | when the counts match the holders, an object is live if and only if somebody holds it |
| Objects.ObjectRegistry.constructor | kernel/src/handles.rs:131-135 | a new registry has every slot empty, with nothing live |
| Objects.ObjectRegistry.CreateObject | kernel/src/handles.rs:137-155 | the scan for the first vacant slot does what the specification of creation says, including the full table |
| Objects.ObjectRegistry.RetainObject | kernel/src/handles.rs:157-164 | succeeds if and only if the object is live and its count is not at the maximum; then that count grows by one, no other live slot changes and nothing lives or dies by it |
| Objects.ObjectRegistry.ReleaseObject | kernel/src/handles.rs:166-181 | in-place release agrees with its specification, including retiring the slot at the last reference |
| Handles.RightsBitsAgree | kernel/src/handles.rs:26-53 | on known right bits, set inclusion of rights is the same as the bit-mask test |
| Handles.HandlePacking | kernel/src/handles.rs:248-254 | packing slot and generation into 64 bits is a bijection, so comparing raw values compares handles |
| Handles.HandlesNeverReturn | kernel/src/handles.rs:357-406 | over any evolution of a table, a handle that stops resolving is spent for good, and until then it names the same capability |
| Handles.VacateEvolved | kernel/src/handles.rs:357-371 | vacating a slot whose generation is not exhausted spends its handle and keeps the table well formed |
| Handles.InstallRefs | kernel/src/handles.rs:458-477 | installing either changes nothing or adds exactly one reference to the installed target |
| Handles.VacateRefs | kernel/src/handles.rs:357-371 | vacating a slot removes exactly one reference, to the target it held |
| Handles.CheckAllMovable | kernel/src/ipc.rs:855-868 | the preflight passes if and only if every handle is movable with the rights asked and no handle is listed twice |
| Handles.MoveAllSlots | kernel/src/ipc.rs:877-885 | after a passed preflight every disposition comes out, attenuated to the rights asked, from a slot that carried TRANSFER, and no other slot changes |
| Handles.MoveAllRefs | kernel/src/ipc.rs:877-885 | moving out conserves references: what leaves the table is exactly what the tokens hold |
| Handles.InstallAllRefs | kernel/src/ipc.rs:933-952 | with room for all tokens, the table gains exactly the references the tokens held |
| Handles.InstallAllSlots | kernel/src/ipc.rs:933-952 | installing tokens leaves every filled slot alone and puts only those tokens into empty ones |
| Handles.InstallAllCount | kernel/src/ipc.rs:933-952 | with room for all tokens, one handle is handed out per token |
| Handles.InstallAllResolve | kernel/src/ipc.rs:933-952 | each handle handed out resolves to exactly its token and did not resolve before |
| Handles.TableObjectsRefs | kernel/src/handles.rs:332-338 | the objects visited in a table are its references, each as often as it is held |
| Handles.HandleTable.constructor | kernel/src/handles.rs:294-298 | a new table has every slot empty at its first generation |
| Handles.HandleTable.InstallCapability | kernel/src/handles.rs:458-477 | the slot scan installs in the first usable slot, and tells a full table from one with only exhausted slots |
| Handles.HandleTable.InsertObject | kernel/src/handles.rs:300-314 | retain then install, undone when there is no slot, agrees with its specification |
| Handles.HandleTable.CloseOne | kernel/src/handles.rs:357-371 | close agrees with its specification on stale, closed, exhausted and live handles |
| Handles.HandleTable.CloseEvery | kernel/src/handles.rs:376-384 | every held object is released, every slot is emptied, and generations advance but stop at the maximum |
| Handles.HandleTable.MoveOut | kernel/src/handles.rs:386-406 | succeeds if and only if the handle resolves to a live object with TRANSFER and every right asked, below the last generation; then the handle no longer resolves, every other does as before, and exactly that reference has left the table |
| Handles.HandleTable.InstallMoved | kernel/src/handles.rs:427-437 | a token is installed only if its object is still valid |
| Handles.HandleTable.HoldsObject | kernel/src/handles.rs:332-338 | the scan finds an object if and only if the table holds a reference to it |
| Handles.HandleTable.HasCapacity | kernel/src/handles.rs:450-456 | the count of usable slots decides, in both directions, whether that many more handles fit |
| Waits.PlaceOccupied | kernel/src/ipc.rs:1333-1343 | a registration goes into one empty place and leaves the others alone |
| Waits.PlaceItemsOccupied | kernel/src/ipc.rs:1333-1343 | with room for all items each gets its own place under its own index, present registrations stay, and occupancy grows by the number of items |
| Waits.WaitRegistry.constructor | kernel/src/ipc.rs:1265-1270 | a new registry is empty and has a wake place in reserve for every registration |
| Waits.WaitRegistry.PushWake | kernel/src/ipc.rs:1289-1301 | a wake is queued in an empty place if and only if there is one |
| Waits.WaitRegistry.ClearWait | kernel/src/ipc.rs:1348-1356 | exactly the registrations of that waiter and epoch are dropped |
| Waits.WaitRegistry.Deliver | kernel/src/ipc.rs:1285-1309 | a wait gets one wake unless it already has one, loses all its registrations, and nothing else changes |
| Waits.WaitRegistry.Notify | kernel/src/ipc.rs:1272-1312 | every matching wait ends with a wake queued and loses all its registrations; no other registration is touched, queued wakes stay, each new wake comes from a matching registration and no wait gets two; the result says whether any wake was new; no wake is lost for lack of room |
| Waits.ScanEnds | kernel/src/ipc.rs:1272-1312 | a scan that finds no more matches has dropped exactly the waits that matched |
| Waits.HitMeans | kernel/src/ipc.rs:1272-1312 | a wait is hit if and only if one of its registrations is on the object and shares a signal with the notification |
| Waits.WaitRegistry.CancelWaiter | kernel/src/ipc.rs:1358-1361 | exactly the registrations and wakes of that waiter go, and the reserve of wake places is kept |
| Waits.WaitRegistry.Register | kernel/src/ipc.rs:1314-1346 | a wait is refused if and only if registrations and wakes could then outgrow the wake queue; the reserve is kept |
| Waits.WaitRegistry.TakeWoken | kernel/src/ipc.rs:1363-1376 | each waiter with a queued wake is returned exactly once and the queue is left empty |
| Waits.WaitMany | kernel/src/ipc.rs:1401-1448 | reports the first item ready at the first look, else registers all items or refuses for lack of room, then reports the first item ready at the second look with the registrations withdrawn, else blocks; every outcome fixes waiter, registrations and wakes |
| Channels.Queue.constructor | kernel/src/ipc.rs:708-715 | a new queue is empty |
| Channels.Queue.Push | kernel/src/ipc.rs:717-725 | appends at the tail of the ring, and refuses if and only if eight messages are queued |
| Channels.Queue.Peek | kernel/src/ipc.rs:727-729 | the oldest message, if any |
| Channels.Queue.Pop | kernel/src/ipc.rs:735-740 | removes exactly the oldest message, with the ring wrapping round |
| Channels.Queue.Carries | kernel/src/ipc.rs:822-832 | the scan of the visited objects finds an object if and only if some queued token refers to it |
| Channels.Queue.Visit | kernel/src/ipc.rs:822-832 | a walk over the ring slots visits exactly the objects that queued messages hold in escrow |
| Channels.RingMembers | kernel/src/ipc.rs:701-740 | the slots of the ring hold exactly the queued messages, wherever the head is |
| Channels.ChannelPair.constructor | kernel/src/ipc.rs:755-773 | a new pair has both directions empty |
| Channels.ChannelPair.Drain | kernel/src/ipc.rs:803-820 | every escrowed reference of both directions is released, once each |
| Channels.ChannelPair.VisitEscrow | kernel/src/ipc.rs:822-832 | visits exactly the objects in escrow in either direction |
| Channels.Preflight | kernel/src/ipc.rs:855-868 | the two nested loops compute the preflight verdict, including which error comes first |
| Channels.TakeAll | kernel/src/ipc.rs:877-885 | after a passed preflight the moving loop cannot fail and yields the specified tokens |
| Channels.ChannelPair.Send | kernel/src/ipc.rs:834-896 | either an error with table, queues and waiters untouched, or all capabilities moved, one message appended and the peer notified |
| Channels.ChannelPair.SendAndWake | kernel/src/user_ipc.rs:348-363 | the waiters handed out are exactly those registered on the peer, and the wake queue is empty again |
| Channels.InstallTokens | kernel/src/ipc.rs:925-952 | after the capacity and validity checks the installing loop cannot fail, so the rollback is never needed |
| Channels.ChannelPair.Receive | kernel/src/ipc.rs:898-965 | receive agrees with its all-or-nothing specification on empty queue, missing capacity, dead token and success |
| Channels.DrainQueue | kernel/src/ipc.rs:803-820 | every token in the queue is released and the queue is left empty |
| Channels.SendAgrees | kernel/src/ipc.rs:834-896 | the manager's step is the pair's: the same refusal with nothing changed, or the same table, queue, registrations and woken waiters |
| Channels.ReceiveAgrees | kernel/src/ipc.rs:898-965 | the pair-level receive is the manager-level receive |
| IpcModel.FindProc | kernel/src/user_ipc.rs:123-135 | finds a process if and only if one is registered under the id |
| IpcModel.FindChan | kernel/src/user_ipc.rs:447-467 | finds a Channel if and only if one has that endpoint |
| IpcModel.FirstInvalid | kernel/src/ipc.rs:928-932 | no token is reported if and only if every token refers to a live object |
| IpcLedger.FindsOwn | kernel/src/user_ipc.rs:447-467 | an endpoint belongs to one Channel, so the first match is the only one |
| IpcLedger.EntryTotal | kernel/src/user_ipc.rs:447-467 | in every reachable state a handle that resolves names a live endpoint of a live Channel |
| IpcSafety.InitInv | kernel/src/user_ipc.rs:103-110 | the uninitialised manager satisfies the invariant: exact counts, single holders, quiet waiters |
| IpcSafety.BootedInv | kernel/src/user_ipc.rs:112-119 | initialisation keeps the invariant |
| IpcSafety.CreatePairInv | kernel/src/user_ipc.rs:238-303 | creating a Channel keeps the invariant on success and on each of its failures, where every created object is released |
| IpcSafety.SpawnInv | kernel/src/user_ipc.rs:161-221 | handing one endpoint to a new process keeps the invariant, whatever step fails |
| IpcSafety.SendInv | kernel/src/user_ipc.rs:305-363 | send keeps the invariant, changes no reference count, and is all-or-nothing: an error leaves the state as it was |
| IpcSafety.ReceiveInv | kernel/src/user_ipc.rs:396-433 | receive keeps the invariant, changes no reference count, and is all-or-nothing |
| IpcSafety.WaitReadableInv | kernel/src/user_ipc.rs:365-394 | waiting keeps the invariant and changes nothing but the wait registrations |
| IpcSafety.CancelInv | kernel/src/user_ipc.rs:634-636 | cancelling keeps the invariant |
| IpcCollect.LeastFixpoint | kernel/src/user_ipc.rs:496-538 | a set that holds the roots, is closed under escrow edges and holds only reachable Channels is exactly the reachable ones |
| IpcCollect.CollectExact | kernel/src/user_ipc.rs:495-558 | collection releases exactly the references of the Channels it drops, escrow included |
| IpcCollect.CollectReachable | kernel/src/user_ipc.rs:495-558 | a Channel survives collection if and only if it was reachable from a handle table through escrow, and survivors stay reachable |
| IpcCollect.HeldSurvives | kernel/src/user_ipc.rs:495-558 | after collection every endpoint still held belongs to a Channel that is still there |
| IpcCollect.CollectInv | kernel/src/user_ipc.rs:495-558 | collection keeps the invariant |
| IpcCollect.CloseInv | kernel/src/user_ipc.rs:435-445 | closing keeps the invariant; an error changes nothing; afterwards every Channel is reachable, cycles included |
| IpcCollect.ExitInv | kernel/src/user_ipc.rs:225-236 | exit keeps the invariant, removes the process, and afterwards every Channel is reachable |
| IpcRuns.StepInv | kernel/src/user_ipc.rs:103-558 | every operation keeps the invariant and never revives an identifier |
| IpcRuns.RunInv | kernel/src/user_ipc.rs:103-558 | the invariant holds after every sequence of operations |
| IpcRuns.ExactAccounting | kernel/src/user_ipc.rs:103-558 | after every run each reference count equals manager, handle and escrow references together; live means held; each endpoint has at most one holder in the whole system |
| IpcRuns.Bounded | kernel/src/user_ipc.rs:103-110 | no run outgrows three processes of 64 handles, 16 Channels of eight messages each way, 128 objects and eight waits; messages carry at most 128 bytes and four capabilities |
| IpcRuns.NoLostWakeup | kernel/src/user_ipc.rs:365-394 | after every run a waiter is registered only on an endpoint with nothing to read, and only once |
| IpcRuns.SendWakes | kernel/src/user_ipc.rs:305-363 | in every run, a send that gives a waiting endpoint something to read hands that waiter out and ends its wait |
| IpcRuns.IdNeverLiveAgain | kernel/src/handles.rs:137-181 | over every run an object identifier that was live and then was not is never live again |
| IpcRights.RunTable | kernel/src/handles.rs:357-477 | while a process lives, its handle table only evolves: generations never go back, no slot changes its capability in place |
| IpcRights.HandleNeverResolvesAgain | kernel/src/handles.rs:316-322 | over every run of a live process, a handle that stopped resolving never resolves again, and until then names the same capability |
| IpcRights.BoundStays | kernel/src/handles.rs:386-406 | after any run, a capability without TRANSFER stays in its slot under every operation but the owner closing it or exiting |
| IpcRights.StepHolds | kernel/src/ipc.rs:834-965 | every capability held after a step descends from one held before, with no right added, or names an object that did not exist |
| IpcRights.RightsShrink | kernel/src/ipc.rs:834-965 | between any two points of any run, a capability to an object that existed at the first descends from one held then, with no right gained |
| IpcFifo.FifoOrder | kernel/src/ipc.rs:708-740 | in every run, for every live Channel and both directions: the messages sent are the messages received followed by those still queued |
| IpcFifo.NthReceivedIsNthSent | kernel/src/ipc.rs:834-965 | the n-th message received at an endpoint is the n-th its peer sent |
| IpcFifo.ReceiveDelivers | kernel/src/ipc.rs:898-965 | a receive hands out the oldest message, its payload and sender, and one fresh handle per escrowed capability naming exactly that one |
| IpcFifo.SenderIsKernelIdentity | kernel/src/user_ipc.rs:305-363 | the identity on a message is the calling process, whatever the message says |
| IpcOutcomes.InstallMeans | kernel/src/handles.rs:458-477 | the handle of an installed capability did not resolve before, resolves to it now, and its slot is the only one touched |
| IpcOutcomes.InsertTwoNames | kernel/src/user_ipc.rs:267-291 | the two handles are different, neither resolved before, the first names one endpoint and the second the other with READ, WRITE, WAIT and TRANSFER, and no other slot changed |
| IpcOutcomes.CreatedHandles | kernel/src/user_ipc.rs:238-303 | a created pair is two different handles that did not resolve before and now name the two ends of the one Channel that is new, which is empty; no other handle, Channel or process table changed |
| IpcOutcomes.CreatePairSucceedsIff | kernel/src/user_ipc.rs:238-303 | creation succeeds if and only if the caller is live and there is a Channel slot, three object slots and two handle slots |
| IpcOutcomes.LocateIff | kernel/src/user_ipc.rs:447-467 | a handle is accepted if and only if it resolves, and then names an end of exactly one Channel, whose two ends differ |
| IpcOutcomes.RequireIff | kernel/src/ipc.rs:834-965 | the check for a right passes if and only if the handle resolves to a capability with that right |
| IpcOutcomes.MovableIff | kernel/src/ipc.rs:855-868 | the preflight of a request passes if and only if its counts are in bounds and its sources are distinct, each resolving with TRANSFER and the rights asked, below the last generation |
| IpcOutcomes.SendSucceeds | kernel/src/user_ipc.rs:305-363 | a send succeeds if and only if the caller is live, its handle carries WRITE, the request may be made, the other end is held or in escrow, and its queue has room |
| IpcOutcomes.SendDelivers | kernel/src/user_ipc.rs:305-363 | a successful send puts exactly the message asked for (sender, header, payload prefix, each source's capability with the rights asked) at the end of the queue leading away from the endpoint; the sources no longer resolve; nothing else in the table or the Channels changed |
| IpcOutcomes.TokensLive | kernel/src/ipc.rs:928-932 | in every reachable state the capabilities of a queued message are all live, so the validity check of receive never fails |
| IpcOutcomes.ReceiveSucceeds | kernel/src/user_ipc.rs:396-433 | a message is handed out if and only if the handle carries READ, something is queued towards it and its capabilities fit the table; nothing is reported if and only if the handle carries READ and nothing is queued |
| IpcOutcomes.WaitSucceeds | kernel/src/user_ipc.rs:365-394 | readable is reported if and only if the handle carries WAIT and something is queued; it blocks if and only if nothing is, the thread can park and there is room; it then leaves one registration of that waiter for that endpoint and those of all others |
| IpcOutcomes.CloseSucceeds | kernel/src/user_ipc.rs:435-445 | a close succeeds if and only if the handle resolves below the last generation; then it no longer resolves and no other handle of any process changed |
| IpcOutcomes.SpawnSucceeds | kernel/src/user_ipc.rs:161-221 | handing over succeeds if and only if init asks for an unused identity above its own, a process slot and an object slot are free, and its handle resolves with TRANSFER and the rights asked |
| IpcOutcomes.SpawnHandsOver | kernel/src/user_ipc.rs:161-221 | the new process has one handle, naming init's endpoint with exactly the rights asked; init's handle no longer resolves and its others are as before |
| IpcRefusals.SendRefused | kernel/src/user_ipc.rs:305-363 | each refusal of a send has its one cause: unknown caller, malformed request, handle that does not resolve, peer that nobody holds, missing WRITE, full queue |
| IpcRefusals.ReceiveRefused | kernel/src/user_ipc.rs:396-433 | each refusal of a receive has its one cause: unknown caller, handle that does not resolve, missing READ, or no room for the oldest message's capabilities |
| IpcRefusals.WaitRefused | kernel/src/user_ipc.rs:365-394 | each refusal of a wait has its one cause: unknown caller, handle that does not resolve, missing WAIT, too many other waits, or a thread that cannot park |
| IpcRefusals.CloseRefusals | kernel/src/user_ipc.rs:435-445 | a close is refused for an unknown caller, an unresolved handle or a slot at its last generation, each with its own answer |
| IpcRefusals.CreatePairRefused | kernel/src/user_ipc.rs:238-303 | a creation is refused for an unknown caller, a full Channel table, a full object table or a full handle table, each with its own answer |
| IpcRefusals.SpawnRefused | kernel/src/user_ipc.rs:161-221 | a hand-over is refused for a wrong parent or identity, or for want of a process slot, and otherwise only for its handle or objects |
| IpcRefusals.LocateErrors | kernel/src/handles.rs:316-322 | an unresolved handle is reported as invalid, stale or closed by its slot and generation |
| IpcMarks.RootNamed | kernel/src/user_ipc.rs:497-509 | a Channel is a root if and only if a visit of some handle table names it |
| IpcMarks.EdgeNamed | kernel/src/user_ipc.rs:511-538 | there is an escrow edge if and only if a visit of the queues names the other Channel |
| IpcMarks.MarksExact | kernel/src/user_ipc.rs:496-538 | when a pass changes no mark, the marks are exactly the reachable Channels |
| IpcMarks.CollectReleases | kernel/src/user_ipc.rs:540-557 | none of the releases a collection makes can fail |
| UserIpc.UserIpcState.constructor | kernel/src/user_ipc.rs:103-110 | the new manager's registry, tables, Channels and wait registry stand for the uninitialised state |
| UserIpc.UserIpcState.Initialize | kernel/src/user_ipc.rs:112-119 | the first call creates init's address space and table, later ones nothing; the parts stand for the specified state |
| UserIpc.UserIpcState.FindProcess | kernel/src/user_ipc.rs:123-135 | the scan finds a process in its slot, init only in slot 0 |
| UserIpc.UserIpcState.LocateEndpoint | kernel/src/user_ipc.rs:447-467 | handle resolution and the scan of the Channels give the endpoint and the Channel it belongs to, with the specified error otherwise |
| UserIpc.UserIpcState.CreateThreeObjects | kernel/src/user_ipc.rs:244-259 | all three objects or none: what was made before a failure is released |
| UserIpc.UserIpcState.InsertBoth | kernel/src/user_ipc.rs:267-291 | the two insertions and the undoing close leave the table and registry in the specified state: handles naming the two endpoints in order, or neither |
| UserIpc.UserIpcState.DropProcess | kernel/src/user_ipc.rs:230-235 | every reference of the table and the address space is released and the slot emptied |
| UserIpc.UserIpcState.DropChannel | kernel/src/user_ipc.rs:544-555 | escrow drained, three objects released and the slot emptied; reports whether every release succeeded |
| UserIpc.UserIpcState.Mark | kernel/src/user_ipc.rs:498-508 | one visit sets exactly the marks of the Channels it names and reports whether any was new |
| UserIpc.UserIpcState.MarkRoots | kernel/src/user_ipc.rs:497-509 | the marks gained are exactly the roots |
| UserIpc.UserIpcState.MarkPass | kernel/src/user_ipc.rs:511-538 | a pass marks only reachable Channels, loses no mark, and if it changes none the marks are closed under edges |
| UserIpc.UserIpcState.MarkFrom | kernel/src/user_ipc.rs:514-533 | visiting the escrow of a marked Channel marks exactly the Channels it leads to |
| UserIpc.UserIpcState.Sweep | kernel/src/user_ipc.rs:540-557 | dropping the unmarked Channels with their escrow gives the collected state |
| UserIpc.UserIpcState.CollectUnreachable | kernel/src/user_ipc.rs:495-558 | mark-to-fixpoint then sweep terminates, cannot fail, and keeps exactly the reachable Channels |
| UserIpc.UserIpcState.EndpointReachable | kernel/src/user_ipc.rs:469-482 | true if and only if some handle or escrow token refers to the endpoint |
| UserIpc.UserIpcState.CreateChannel | kernel/src/user_ipc.rs:238-303 | three objects made through the registry, two handles inserted, each failure undone through the same objects; the parts then stand for the specified state, and the two handles returned are new, differ and name the two ends of the one new Channel |
| UserIpc.UserIpcState.RegisterSpawned | kernel/src/user_ipc.rs:161-221 | the capability is moved out of init's table and installed in a new process, or the new address space is released; the parts then stand for the specified state, and the handle returned names init's endpoint with the rights asked in the new table |
| UserIpc.UserIpcState.SendMessage | kernel/src/user_ipc.rs:305-363 | scans, the pair's ring buffer and the notify scan together do the specified send and return the specified waiters; it succeeds if and only if the caller may send, and then exactly the message asked for is queued |
| UserIpc.UserIpcState.WaitForReadable | kernel/src/user_ipc.rs:365-394 | the level-triggered wait on the real registry does the specified wait, and is withdrawn when the thread does not park |
| UserIpc.UserIpcState.CancelWaits | kernel/src/user_ipc.rs:634-636 | no registration of the waiter is left, and the parts stand for the specified state |
| UserIpc.UserIpcState.TryReceive | kernel/src/user_ipc.rs:396-433 | the pair's ring buffer and the receiving table together do the specified receive |
| UserIpc.UserIpcState.CloseOne | kernel/src/user_ipc.rs:435-445 | the table's close followed by the collector does the specified close |
| UserIpc.UserIpcState.Exit | kernel/src/user_ipc.rs:225-236 | closing every handle, releasing the address space and collecting does the specified exit |
| Crc.UpdateAppend | kernel/src/gpt.rs:348-356 | checksumming in pieces equals checksumming the whole |
| Crc.ComputeFeed | loader/src/ab.rs:389-399 | the masked shift loop over eight bits computes the CRC-32 step |
| Crc.ComputeUpdate | loader/src/ab.rs:389-399 | the byte loop computes the CRC-32 of the sequence |
| Crc.LeRoundTrip | loader/src/ab.rs:345-358 | a number that fits is read back from its little-endian bytes |
| Crc.LeBytesBack | loader/src/ab.rs:360-387 | bytes are recovered from the number they encode |
| BootRecord.DecodesEncoded | loader/src/ab.rs:345-387 | decoding an encoded valid state gives that state |
| BootRecord.EncodesDecoded | loader/src/ab.rs:345-387 | any accepted record is valid and is the only encoding of its state, byte for byte |
| BootRecord.PutLe | loader/src/ab.rs:345-358 | writes the little-endian bytes in place and no other byte |
| BootRecord.FillRecord | loader/src/ab.rs:345-358 | filling a zeroed buffer field by field and sealing it with the computed checksum gives the encoding, and refuses exactly the invalid states |
| BootRecord.ReadRecord | loader/src/ab.rs:360-387 | the byte checks, the padding loop and the computed checksum give the decoding |
| Checksums.OneByteChanges | loader/src/ab.rs:389-399 | changing any one byte of any message changes its CRC-32 |
| Checksums.CheckValue | loader/src/ab.rs:389-399 | polynomial, bit order and complement are those of CRC-32: the published check value |
| Checksums.SealBroken | loader/src/ab.rs:360-387 | a sequence sealed with its checksum no longer matches once any one byte of it, checksum included, is changed |
| Checksums.DamageRejected | loader/src/ab.rs:360-387 | an accepted boot record with any one byte damaged is rejected |
| BootVariables.FillVariable | crates/nagi-bootinfo/src/lib.rs:206-267 | filling a zeroed buffer field by field and sealing it gives the encoding |
| BootVariables.ReadyRoundTrip | crates/nagi-bootinfo/src/lib.rs:250-285 | every encodable readiness record reads back, and whatever is accepted is the one encoding of its record |
| BootVariables.StageRoundTrip | crates/nagi-bootinfo/src/lib.rs:206-238 | every encodable stage record reads back, and whatever is accepted is the one encoding of its record |
| BootVariables.RecordsNotConfused | crates/nagi-bootinfo/src/lib.rs:206-285 | no bytes are accepted both as a readiness record and as a stage record |
| BootVariables.VariableDamaged | crates/nagi-bootinfo/src/lib.rs:206-285 | an accepted record of either kind with any one byte damaged is rejected |
| BootVariables.ReportsReadBack | kernel/src/boot_control.rs:317-343 | a kernel whose gate is armed always has a record to write, and the loader reads that very record from its bytes |
| Journal.PersistRecovers | loader/src/ab.rs:312-332 | whatever a cut does to the write, the journal then holds the old state or the new one with the next generation; success exactly when the write completed; an exhausted generation changes nothing |
| Journal.BaselineCutShort | loader/src/ab.rs:170-192 | the first write to an empty journal ends in empty, the baseline, or a journal every later load refuses |
| Journal.StageMoves | loader/src/ab.rs:170-192 | staging moves to the staged state or leaves the old one; only a torn first write is refused afterwards |
| Journal.BeginMoves | loader/src/ab.rs:198-233 | no candidate: boot the confirmed slot, write nothing; budget left: one attempt more on the candidate; budget spent: candidate dropped and the confirmed slot booted |
| Journal.MarkMoves | loader/src/ab.rs:236-251 | success on the candidate confirms it and clears it; for any other slot nothing is written |
| Journal.BeforeOrAfter | loader/src/ab.rs:164-332 | every operation with every kind of cut leaves the state before or the state intended, and reports success only for the latter |
| Journal.JournalSurvives | loader/src/ab.rs:164-332 | over every sequence of operations and cuts, a held journal always loads, and its generation grows with each change |
| Journal.NeverEmptied | loader/src/ab.rs:312-332 | no operation empties a journal that holds something |
| Journal.BootControlJournal.ReadCurrent | loader/src/ab.rs:253-310 | the two reads choose the newest valid copy, and refuse when both fail or disagree |
| Journal.BootControlJournal.PersistNext | loader/src/ab.rs:312-332 | the copy that is current is left as it is, and on a held journal any cut leaves the old state or the new one, the new one on success |
| Journal.BootControlJournal.Stage | loader/src/ab.rs:170-192 | in-place staging agrees with its specification |
| Journal.BootControlJournal.Begin | loader/src/ab.rs:198-233 | in-place begin agrees with its specification |
| Journal.BootControlJournal.Confirm | loader/src/ab.rs:236-251 | in-place confirmation agrees with its specification |
| BootGates.OneShot | kernel/src/boot_control.rs:91-123 | over every sequence of asks and answers a gate grants at most once, and only if armed |
| BootGates.BootReadinessGate.Configure | kernel/src/boot_control.rs:71-86 | whatever went before, nobody has been let through yet, and somebody will be only if the context is a trial |
| BootGates.BootReadinessGate.BeginReport | kernel/src/boot_control.rs:91-123 | in a trial the first caller since configuration is let through with the record of the context and no other ever is; later callers learn whether that write is open, done or failed |
| BootGates.BootReadinessGate.EndReport | kernel/src/boot_control.rs:91-123 | the outcome of the one granted write is kept for every later caller |
| BootGates.BootStageGate.Configure | kernel/src/boot_control.rs:203-217 | whatever went before, nobody has been let through yet, and somebody will be only if the boot may stage |
| BootGates.BootStageGate.BeginStage | kernel/src/boot_control.rs:232-257 | on a boot that may stage the first caller since configuration is let through, for the slot not in use, and no other ever is; later callers learn of success only if the write succeeded |
| BootGates.BootStageGate.EndStage | kernel/src/boot_control.rs:232-257 | the outcome of the one granted write is kept for every later caller |
| BootProtocol.BeginGood | loader/src/main.rs:199-401 | starting a boot keeps journal and history in agreement, through any cut |
| BootProtocol.PromoteGood | loader/src/main.rs:199-401 | honouring a matching readiness record keeps the agreement, through any cut |
| BootProtocol.StageGood | loader/src/main.rs:422-448 | honouring or refusing a stage request keeps the agreement, through any cut |
| BootProtocol.ChooseGood | loader/src/main.rs:451-496 | the boot menu keeps the agreement |
| BootProtocol.StepGood | loader/src/main.rs:199-401 | every loader and kernel step keeps journal, history, phase and readiness variable in agreement |
| BootProtocol.EveryRun | loader/src/main.rs:199-401 | over every run with power loss anywhere: each event of the history is justified by the history before it, the journal confirms the last slot confirmed in it, and no candidate is tried more than the attempt limit |
| BootProtocol.ConfirmedByOwnTrial | loader/src/main.rs:199-401 | in every run a slot is confirmed only after its own trial started and then that same trial reported ready |
| BootProtocol.OnlyReadyConfirms | loader/src/main.rs:199-401 | the only step that changes the confirmed slot is the readiness check, on a record that matches the journal |
| BootProtocol.HonouredOnce | loader/src/main.rs:199-401 | a readiness record that confirmed a slot never matches again, in any continuation |
| BootProtocol.StepGeneration | loader/src/ab.rs:312-332 | no step lowers the generation; changing the confirmed slot or accepting a candidate raises it |
| BootProtocol.StaleForever | loader/src/main.rs:422-448 | a readiness or stage record of an older generation is refused in every continuation |
| BootProtocol.RefusedForever | loader/src/ab.rs:253-310 | a journal that fails to load is left untouched for ever |
| BootProtocol.BudgetSpent | loader/src/ab.rs:198-233 | with the attempts used up, beginning a boot rolls back to the slot confirmed at staging, or goes off without deciding |
| BootProtocol.SpentBudgetFallsBack | loader/src/main.rs:199-401 | with the attempts used up, the next system to run is the slot confirmed before the candidate, and the candidate is gone |
| BootStaging.StepSourced | loader/src/main.rs:422-448 | every step keeps: an accepted candidate was asked for, and each request was made by a kernel started for staging |
| BootStaging.AcceptedByOwnRequest | loader/src/main.rs:422-448 | in every run a candidate is accepted only on a request that names it, made earlier by a kernel started from the other slot at that very generation, unless that request was in the variable from the outset |
| BootStaging.OnlyRequestsStage | loader/src/main.rs:422-448 | the only step that makes a candidate pending is the stage check, on a record of the journal's own generation |
| BootStaging.StagedOnce | loader/src/main.rs:422-448 | a stage record that made a candidate pending is refused in every continuation |
| BootProgress.Completed | loader/src/ab.rs:312-332 | a completed write is what the next load finds, one generation later |
| BootProgress.TrialStarts | loader/src/main.rs:385-392 | with attempts left, beginning a boot starts the candidate as an armed trial with its slot, the next attempt and the new generation |
| BootProgress.ReportConfirms | loader/src/main.rs:212-256 | a loader run that finds the report of the pending trial confirms its slot and clears the candidate |
| BootProgress.TrialConfirmed | loader/src/main.rs:199-401 | a candidate with an attempt left that boots, reports ready, is powered off and started again becomes the confirmed slot with nothing pending |
| BootProgress.StageCompletes | loader/src/ab.rs:170-192 | an uninterrupted staging leaves the other slot pending with no attempts used and the confirmed slot unchanged, also on an empty journal |
| BootProgress.ConfirmedStarts | loader/src/main.rs:357-378 | with nothing pending the confirmed slot starts, at the journal's generation, with its staging gate armed and no trial |
| BootProgress.RequestStaged | loader/src/main.rs:258-290 | the next loader run honours a stored request whose manifests pass, whatever the readiness variable holds |
| BootProgress.UpdateStaged | loader/src/main.rs:199-401 | a confirmed boot that asks, stores and passes the manifests ends with the other slot pending |
| BootProgress.UpdateCompletes | loader/src/main.rs:199-401 | ask, restart, stage, try, report and restart: the whole update ends with the other slot confirmed and nothing pending |
| BootProgress.LoadsNewest | loader/src/ab.rs:253-310 | a journal is refused if and only if something is stored and no copy is valid, or two valid copies of one generation differ; otherwise the newest valid copy is loaded |
| BootProgress.JournalRefuses | loader/src/ab.rs:170-251 | staging over a candidate, staging the confirmed slot, success of another slot and an exhausted generation are each refused with their own error and nothing written |
| BootProgress.OtherReportsIgnored | loader/src/main.rs:212-256 | a readiness record of anything but the pending trial at its attempt and generation changes nothing but is used up |
| BootProgress.RequestUsedUp | loader/src/main.rs:258-290 | a stage request is looked at once, whether or not it is honoured |
| BootProgress.OtherRequestsRefused | loader/src/main.rs:422-448 | a request is refused, with nothing written, unless it names the slot not confirmed at the journal's generation with nothing pending and manifests that pass |
| BootProgress.MenuChoices | loader/src/main.rs:451-496 | the menu never touches the journal: recovery and the confirmed slot start as plain boots with both gates closed, anything else goes on to the journal's decision |
| BootProgress.NoFirmwareNoGates | kernel/src/boot_control.rs:71-86 | without a firmware address neither gate opens |
| Scheduler.PickNearest | kernel/src/scheduler.rs:370-391 | the round-robin scan finds the runnable thread nearest after the cursor, and none only if none is runnable |
| SchedulerRuns.InitialInv | kernel/src/scheduler.rs:112-120 | the initial table satisfies the invariant |
| SchedulerRuns.SelectInv | kernel/src/scheduler.rs:366-391 | selection keeps the invariant, runs what it returns, chooses the nearest when nobody is preferred, and gives up only if nobody is runnable |
| SchedulerRuns.AllocateInv | kernel/src/scheduler.rs:150-159 | allocation keeps the invariant |
| SchedulerRuns.ExitProcessInv | kernel/src/scheduler.rs:167-187 | process exit keeps the invariant and leaves no thread of the process |
| SchedulerRuns.SleepInv | kernel/src/scheduler.rs:209-216 | sleep keeps the invariant |
| SchedulerRuns.BlockInv | kernel/src/scheduler.rs:221-228 | blocking keeps the invariant and leaves no thread running |
| SchedulerRuns.JoinInv | kernel/src/scheduler.rs:253-288 | join keeps the invariant: joiner and target point at each other |
| SchedulerRuns.AbortJoinInv | kernel/src/scheduler.rs:292-303 | an aborted join keeps the invariant |
| SchedulerRuns.DetachInv | kernel/src/scheduler.rs:305-323 | detach keeps the invariant |
| SchedulerRuns.ExitInv | kernel/src/scheduler.rs:325-356 | exit keeps the invariant, and a waiting joiner is the next to run, with the exit code; where the code goes otherwise is SchedulerOutcomes.ExitCodeWaits |
| SchedulerRuns.ZombiesStay | kernel/src/scheduler.rs:253-356 | a zombie keeps its code until it is collected, and appears only by its own exit |
| SchedulerRuns.EachCodeOnce | kernel/src/scheduler.rs:253-356 | over every run each delivered exit code is that of the last uncollected exit of the thread |
| SchedulerRuns.EveryRun | kernel/src/scheduler.rs:112-391 | over every run: at most the current thread runs, cursor and current agree, joins are mutual and within one process, zombies and detached threads have no joiner, the main thread stays, and each exit code is delivered at most once |
| SchedulerFairness.BoundedBypass | kernel/src/scheduler.rs:370-391 | in every run without a direct hand-off, a thread that stays runnable is passed over fewer times than its distance from the cursor |
| SchedulerFairness.PassedOver | kernel/src/scheduler.rs:370-391 | every dispatch of another thread brings the cursor strictly nearer to a waiting one |
| SchedulerFairness.YieldStep | kernel/src/scheduler.rs:200-207 | a yield dispatches the nearest active thread and changes nobody else's activity |
| SchedulerFairness.DispatchesAreFair | kernel/src/scheduler.rs:200-207 | over any sequence of yields with a steady set of active threads, no two are dispatched a number of times differing by more than one |
| SchedulerTable.BootstrapUserThreads.constructor | kernel/src/scheduler.rs:112-120 | the new array is the initial table |
| SchedulerTable.BootstrapUserThreads.WakeSleepers | kernel/src/scheduler.rs:358-364 | the in-place loop wakes exactly the sleepers whose time has come |
| SchedulerTable.BootstrapUserThreads.SelectRunnable | kernel/src/scheduler.rs:370-391 | the in-place modular scan agrees with its specification, preferred thread included |
| SchedulerTable.BootstrapUserThreads.AllocateForProcess | kernel/src/scheduler.rs:150-159 | the in-place scan takes the first empty slot, as specified |
| SchedulerTable.BootstrapUserThreads.Purge | kernel/src/scheduler.rs:167-187 | the loop empties exactly the slots of the process and reports whether there were any |
| SchedulerTable.BootstrapUserThreads.ExitOwned | kernel/src/scheduler.rs:167-187 | in-place process exit agrees with its specification |
| SchedulerTable.BootstrapUserThreads.YieldNow | kernel/src/scheduler.rs:200-207 | in-place yield agrees with its specification |
| SchedulerTable.BootstrapUserThreads.SleepUntil | kernel/src/scheduler.rs:209-216 | in-place sleep agrees with its specification |
| SchedulerTable.BootstrapUserThreads.BlockOnChannel | kernel/src/scheduler.rs:221-228 | in-place block agrees with its specification |
| SchedulerTable.BootstrapUserThreads.WakeChannelWaiter | kernel/src/scheduler.rs:231-240 | in-place wake agrees with its specification |
| SchedulerTable.BootstrapUserThreads.JoinThread | kernel/src/scheduler.rs:253-288 | in-place join agrees with its specification in all its outcomes |
| SchedulerTable.BootstrapUserThreads.AbortBlockedJoin | kernel/src/scheduler.rs:292-303 | in-place abort of a join agrees with its specification |
| SchedulerTable.BootstrapUserThreads.AbortChannelWait | kernel/src/scheduler.rs:244-251 | in-place abort of a wait agrees with its specification |
| SchedulerTable.BootstrapUserThreads.DetachThread | kernel/src/scheduler.rs:305-323 | in-place detach agrees with its specification |
| SchedulerTable.BootstrapUserThreads.DiscardThread | kernel/src/scheduler.rs:189-198 | in-place discard agrees with its specification |
| SchedulerTable.BootstrapUserThreads.ExitThread | kernel/src/scheduler.rs:325-356 | in-place exit agrees with its specification |
| SchedulerOutcomes.SelectSpares | kernel/src/scheduler.rs:358-391 | a selection changes no thread that is not ready to run, and a thread that is ready is afterwards runnable or running |
| SchedulerOutcomes.StaysParked | kernel/src/scheduler.rs:150-356 | a sleeping, blocked, joining or zombie thread is as it was after every step but the few that release it: its deadline, its wake-up, the exit it waits for, its reaping by its own process, or its process ending |
| SchedulerOutcomes.ParkedThroughout | kernel/src/scheduler.rs:150-356 | a parked thread stays exactly as parked over every run that does not release it |
| SchedulerOutcomes.ExitCodeWaits | kernel/src/scheduler.rs:325-356 | the exit code of a thread neither joined nor detached is kept: after every run that does not reap it, a join from its process gets that code, empties the slot, and a second join gets nothing |
| SchedulerOutcomes.DetachedLeavesNothing | kernel/src/scheduler.rs:325-356 | a detached thread that exits leaves an empty slot and wakes nobody |
| SchedulerOutcomes.DetachTakesEffect | kernel/src/scheduler.rs:305-323 | a successful detach reaps a finished thread at once; any other can never be joined while its slot is in use, over every run, and leaves nothing when it exits |
| SchedulerOutcomes.JoinOutcomes | kernel/src/scheduler.rs:253-288 | a join is refused, changing nothing, if and only if the target is not a thread in use of the same process, undetached and unjoined; a finished one answers at once, any other blocks with both ends linked |
| SchedulerOutcomes.BlockedJoinIsAnswered | kernel/src/scheduler.rs:253-356 | a join that blocked is answered by the exit it waits for: after every run that does not release the caller, the exit wakes the caller with the code, runs it and empties the slot |
| SchedulerOutcomes.SleepsUntilDeadline | kernel/src/scheduler.rs:209-216 | a sleeping thread is not selected before its deadline in any run, and at the first selection from then on it is runnable or running |
| SchedulerOutcomes.AllocateThenDiscard | kernel/src/scheduler.rs:150-198 | a thread is allocated if and only if a slot beyond the first is empty; discarding it unstarted gives the table back as it was |
| ProcessExit.ReservedCommits | kernel/src/process_exit.rs:87-111 | an identity that was reserved can always be committed |
| ProcessExit.SpawnInv | kernel/src/process_exit.rs:87-111 | a spawn keeps the invariant |
| ProcessExit.ExitKeepsStatus | kernel/src/process_exit.rs:122-137 | a live process always finds a free record for its status; an unknown one changes nothing |
| ProcessExit.WaitInv | kernel/src/process_exit.rs:141-170 | a wait keeps the invariant whether it collects, blocks or is refused |
| ProcessExit.CancelInv | kernel/src/process_exit.rs:173-181 | withdrawing a wait keeps the invariant |
| ProcessExit.NextGrows | kernel/src/process_exit.rs:87-111 | identities only grow, by one, at a spawn |
| ProcessExit.EveryRun | kernel/src/process_exit.rs:87-181 | after every run each identity ever issued is in exactly one place (live, recorded, collected) and no other identity is anywhere; there is a record to spare for each live process; each wait ends at most once |
| ProcessExit.ExitTable.Commit | kernel/src/process_exit.rs:101-111 | the counted reservation and the scan for a free entry do the specified commit, after which the process is live and the next identity is one higher |
| ProcessExit.ExitTable.ReserveId | kernel/src/process_exit.rs:87-98 | the two counts give the specified verdict; an identity is reserved only while a record is left for every live process and the new one |
| ProcessExit.ExitTable.Record | kernel/src/process_exit.rs:122-137 | the two scans take the process off the live table and put its status in the first free record; a waiter returned is the one that was registered for it |
| ProcessExit.ExitTable.WaitOn | kernel/src/process_exit.rs:141-170 | the three scans collect a recorded status of that process, or register the thread on a live one, or refuse, as specified |
| ProcessExit.ExitTable.Withdraw | kernel/src/process_exit.rs:173-181 | in-place cancel agrees with its specification |
| ExitOutcomes.StatusWaits | kernel/src/process_exit.rs:122-170 | over every run without a wait for it, the status of an exited process is what the first wait gets, code and kind as reported; the next wait is refused |
| ExitOutcomes.BlockedWaitIsAnswered | kernel/src/process_exit.rs:122-170 | a wait that blocked is ended by that process's exit and no other: over every run that does not withdraw it, the exit hands out exactly that thread, whose next wait gets the status |
| ExitOutcomes.WaitOutcomes | kernel/src/process_exit.rs:141-170 | a wait is answered at once if and only if a record of the process is there, and blocks if and only if the process is live without a waiter and the thread waits for nothing else |
| ExitOutcomes.ReserveOutcomes | kernel/src/process_exit.rs:87-98 | an identity is refused exactly for want of a live place, of a record for every live process and the new one, or of identities, each with its own error; the one reserved is not live |
| KernelTables.Earliest | kernel/src/scheduler.rs:393-401 | the earliest deadline of a sleeping thread, and none if and only if nobody sleeps |
| KernelSafety.SleeperEndsWait | kernel/src/syscall.rs:1417-1435 | idling ends with a thread to run whenever some thread sleeps |
| KernelSafety.WaitSafe | kernel/src/syscall.rs:1417-1435 | idling keeps the scheduler invariant and nobody's reason to be blocked changes |
| KernelSafety.UnwaitedRegs | kernel/src/user_ipc.rs:305-363 | a notification takes exactly one registration from each waiter it wakes |
| KernelSafety.CreatePairSafe | kernel/src/syscall.rs:905-921 | the Channel creation call keeps the four tables consistent |
| KernelSafety.SendSafe | kernel/src/syscall.rs:924-945 | the send call keeps the tables consistent: the threads woken are exactly those whose registrations went |
| KernelSafety.ChannelWaitSafe | kernel/src/syscall.rs:948-980 | the wait call keeps the tables consistent, also when nothing can run and the wait is undone |
| KernelSafety.ReceiveSafe | kernel/src/syscall.rs:983-1000 | the receive call keeps the tables consistent |
| KernelSafety.CloseSafe | kernel/src/syscall.rs:1003-1008 | the close call keeps the tables consistent |
| KernelSafety.ProcessWaitSafe | kernel/src/syscall.rs:585-637 | the process wait call keeps the tables consistent, also when it is withdrawn |
| KernelSafety.YieldSafe | kernel/src/syscall.rs:1456-1482 | the yield call keeps the tables consistent |
| KernelSafety.SleepSafe | kernel/src/syscall.rs:1532-1553 | the sleep call keeps the tables consistent |
| KernelSafety.CreateThreadSafe | kernel/src/syscall.rs:1608-1667 | thread creation keeps the tables consistent, also when it is discarded |
| KernelSafety.JoinSafe | kernel/src/syscall.rs:1670-1702 | the join call keeps the tables consistent, also when it is aborted |
| KernelSafety.ExitThreadSafe | kernel/src/syscall.rs:1705-1727 | the thread exit call keeps the tables consistent |
| KernelSafety.DetachSafe | kernel/src/syscall.rs:1730-1739 | the detach call keeps the tables consistent |
| KernelLifecycle.OneOfEach | kernel/src/syscall.rs:735-763 | a running isolated process is in each of the four tables exactly once |
| KernelLifecycle.NextUnused | kernel/src/syscall.rs:640-718 | the identity about to be issued is in none of the tables |
| KernelLifecycle.SpawnSafe | kernel/src/syscall.rs:640-718 | process spawn keeps the tables consistent whichever step fails, by undoing the earlier ones |
| KernelLifecycle.TerminateSafe | kernel/src/syscall.rs:735-763 | exit or a contained fault keeps the tables consistent, waking the waiter it ends the wait of |
| KernelLifecycle.TerminateRemoves | kernel/src/syscall.rs:735-763 | a process that exits or faults is then in none of the four tables, and its status is recorded |
| KernelLifecycle.BootConsistent | kernel/src/syscall.rs:533-547 | the boot state is consistent |
| KernelLifecycle.StepSafe | kernel/src/syscall.rs:533-547 | every call and contained fault keeps the tables consistent |
| KernelLifecycle.TablesAgree | kernel/src/syscall.rs:533-547 | after every sequence of calls and contained faults each isolated process is in thread, exit, IPC and child tables once or in none, every other thread is init's, and a thread is blocked on a wait if and only if it holds exactly one registration of one kind |
| KernelProgress.StatusReachesWaiter | kernel/src/syscall.rs:585-637 | however a process ends and whatever calls follow, the first wait for it gets its exit code and kind |
| KernelProgress.SendUnparks | kernel/src/syscall.rs:924-945 | a send that gives a parked reader something to read makes its thread runnable |
| KernelProgress.SpawnCreates | kernel/src/syscall.rs:640-718 | a spawn whose reservation, image, endpoint and slots are there makes the process: once in every table under the reserved identity, with a runnable thread |
| KernelProgress.ExitCallKeepsCode | kernel/src/syscall.rs:1705-1727 | the thread exit call leaves the code with the thread when nobody joined or detached it |
| KernelProgress.JoinCallCollects | kernel/src/syscall.rs:1670-1702 | the join call on a finished thread of init returns its code at once and empties the slot, and changes nothing else |
| KernelProgress.CreateCallMakes | kernel/src/syscall.rs:1608-1667 | thread creation makes one runnable thread of init, detached exactly if asked, and changes nothing else |
| KernelProgress.CreateCallFails | kernel/src/syscall.rs:1608-1667 | a thread whose memory cannot be set up leaves no trace in any table |
| KernelProgress.SleepCallParks | kernel/src/syscall.rs:1532-1553 | the sleep call leaves the caller asleep until its deadline while another thread runs |
| KernelProgress.WaitCallDoes | kernel/src/syscall.rs:585-637 | the process wait call collects a recorded status at once and only once; on a live process it parks the caller as its waiter if another thread takes over, and otherwise leaves no wait behind |
| KernelProgress.YieldCallSwitches | kernel/src/syscall.rs:1456-1482 | yielding hands the processor to another thread whenever one is runnable, and leaves the caller runnable |
| KernelProgress.DetachCallDoes | kernel/src/syscall.rs:1730-1739 | the detach call empties the slot of a finished thread of init and marks any other as detached |
| KernelAwake.IdleAwake | kernel/src/syscall.rs:1417-1435 | idling ends with a thread running, or with no thread runnable or asleep |
| KernelAwake.StepAwake | kernel/src/syscall.rs:533-547 | every call and contained fault leaves the current thread running, or no thread runnable or asleep |
| KernelAwake.NeverStalls | kernel/src/syscall.rs:533-547 | after every sequence of calls and contained faults from boot, the current thread runs, or no thread is runnable or asleep |
| PageAllocator.StepAccounted | kernel/src/memory.rs:128-180 | every allocation and release keeps the account: frames handed out are held or free, as often as the ranges handed them out |
| PageAllocator.NeverTwice | kernel/src/memory.rs:128-180 | from disjoint ranges, over every run, no frame is held twice, or held and free at once |
| PageAllocator.TakeEverything | kernel/src/memory.rs:128-141 | allocating until the ranges are used up reaches every frame of every range |
| PageAllocator.TwiceIfOverlapping | kernel/src/memory.rs:128-141 | if two ranges overlap some run hands out one frame twice |
| PageAllocator.ExactlyWhenDisjoint | kernel/src/memory.rs:128-180 | no run ever holds a frame twice if and only if the ranges of the memory map are disjoint |
| PageAllocator.FromMapUnused | kernel/src/memory.rs:55-103 | an accepted memory map gives between one and the maximum number of untouched ranges |
| PageAllocator.BootPages.FromBootInfo | kernel/src/memory.rs:55-103 | the walk over the map gives the untouched ranges of its usable entries, or the error of the first bad one |
| PageAllocator.RepeatedEntryExample | kernel/src/memory.rs:55-103 | a memory map listing one entry twice is accepted, and its frame is handed out twice |
| PageAllocator.BootPages.Advance | kernel/src/memory.rs:128-164 | the range scan takes the first range with a page left below the limit, as specified |
| PageAllocator.BootPages.AllocatePage | kernel/src/memory.rs:128-141 | free list first, then ranges, as specified |
| PageAllocator.BootPages.AllocatePageBelow | kernel/src/memory.rs:143-164 | the scan of the free list closes the gap with the last entry, then the ranges are scanned; the frame is below the limit |
| PageAllocator.BootPages.FreePage | kernel/src/memory.rs:166-180 | an unaligned address, a page never handed out, an already free one, or one too many for the free list is refused |
| PageOutcomes.MapAccepted | kernel/src/memory.rs:55-103 | a memory map is accepted if and only if its conventional entries are aligned, end below 2^64 and number from 1 to 128; the allocator then has exactly their pages to give, none handed out |
| PageOutcomes.AllocationSucceeds | kernel/src/memory.rs:128-164 | a page is refused only when none is left, with a limit only when none is left below it, and a page given under a limit is below it |
| PageOutcomes.FreedIsNext | kernel/src/memory.rs:128-180 | a freed page is the next one handed out, and then the allocator is as before the release |
| PageOutcomes.FreeSucceeds | kernel/src/memory.rs:166-180 | from disjoint ranges a held page can be given back if and only if the free list has room |
| PageEntry.PackReadsBack | kernel/src/memory.rs:267-272 | the address and the flags can be read back from an entry if and only if no flag is an address bit |
| PageEntry.StripUser | kernel/src/user_child.rs:214-218 | clearing the user bit clears nothing else of the address |
| Mmap.LowestRun | kernel/src/user_process.rs:514-534 | the lowest start with that many free pages, and none only if there is none |
| Mmap.Remap | kernel/src/user_process.rs:848-875 | succeeds if and only if every page has a usable frame; then exactly the range is mapped, each page to its own frame, with the access that MmapOutcomes.ProtectObeyed describes |
| MmapSafety.AssignSafe | kernel/src/user_process.rs:741-757 | assigning frames keeps every frame in one place and touches no other page, whatever the pool |
| MmapSafety.AssignKeeps | kernel/src/user_process.rs:741-757 | from a stack without frame zero every page of the range gets a frame and none is lost |
| MmapSafety.AssignClears | kernel/src/user_process.rs:741-757 | each assigned frame is cleared, and no frame in use is written |
| MmapSafety.ReleaseSafe | kernel/src/user_process.rs:760-768 | releasing leaves the range without frames, keeps every frame in one place and touches no other page |
| MmapSafety.ReleaseKeeps | kernel/src/user_process.rs:760-768 | releasing loses no frame |
| MmapSafety.OwnedReleasable | kernel/src/user_process.rs:565-587 | a range counts as owned if and only if it is non-empty, in the window and every page has an owner; owned ranges can always be released |
| MmapSafety.RegisterTagged | kernel/src/user_process.rs:536-563 | a reservation keeps each live count equal to the number of pages tagged with it |
| MmapSafety.ReleaseOwnersTagged | kernel/src/user_process.rs:614-656 | releasing any range, across reservations, keeps the live counts exact |
| MmapSafety.FrameUnique | kernel/src/user_process.rs:741-757 | a frame other than zero behind one page is behind no other and is not free, whatever the pool |
| MmapSafety.MapOwn | kernel/src/user_process.rs:404-471 | mapping, with its late failure and undo, keeps every frame in one place, whatever the pool |
| MmapSafety.RemapOwn | kernel/src/user_process.rs:848-875 | a mapping pass, even one that stops half-way, maps pages only to their own frames |
| MmapSafety.MunmapOwn | kernel/src/user_process.rs:696-717 | unmapping succeeds exactly on owned ranges, leaves no entry, frame or owner behind and keeps every frame in one place, whatever the pool |
| MmapSafety.MapInv | kernel/src/user_process.rs:404-471 | without frame zero mapping loses no frame; every failure leaves the window as it was; the late mapping failure cannot happen |
| MmapSafety.ProtectInv | kernel/src/user_process.rs:801-822 | changing protection keeps the invariant and succeeds exactly on owned ranges |
| MmapSafety.MapAtInv | kernel/src/user_process.rs:664-682 | remapping at an address keeps the invariant and succeeds exactly on a maximal run of pages with one owner |
| MmapSafety.MunmapInv | kernel/src/user_process.rs:696-717 | without frame zero unmapping loses no frame |
| MmapRuns.NoAliasing | kernel/src/user_process.rs:404-471 | two mapped pages never share a frame, and a mapped frame is never free, whatever the pool |
| MmapRuns.StoreIsLocal | kernel/src/user_process.rs:404-471 | a store through one page changes what no other page reads, whatever the pool |
| MmapRuns.NewMappingReadsZero | kernel/src/user_process.rs:404-471 | a new mapping that is committed at once reads as zeros throughout |
| MmapRuns.UnwrittenReadsZero | kernel/src/user_process.rs:404-822 | a page reserved with any protection and not stored to since reads as zeros whenever it is mapped, after any run, and right after it is committed in place |
| MmapRuns.OthersReadTheSame | kernel/src/user_process.rs:404-471 | a new mapping changes nothing that other pages read, whatever the pool |
| MmapRuns.RunInv | kernel/src/user_process.rs:404-822 | without frame zero no frame is lost over every run of window operations and stores |
| MmapRuns.RunOwn | kernel/src/user_process.rs:404-822 | over every run every frame other than zero is in one place only, whatever the pool |
| MmapRuns.PoolIsFresh | kernel/src/user_process.rs:723-738 | the frames drawn for the window are distinct, mapped by the kernel and held by nobody else |
| MmapRuns.NoFrameOwnedTwice | kernel/src/user_process.rs:404-822 | from a disjoint memory map, over every run and whatever frames the pool drew, a frame mapped in the window belongs to no one outside it and to one page only |
| MmapRuns.ZeroFrameIsLost | kernel/src/user_process.rs:741-768 | if the pool holds the frame at address zero, mapping it fails late and loses it |
| MmapRuns.ExactlyWithoutFrameZero | kernel/src/user_process.rs:741-768 | no run ever loses a pool frame if and only if the pool does not hold the frame at address zero |
| MmapRanges.FindStartPage | kernel/src/user_process.rs:514-534 | the single-pass scan finds the lowest free run |
| MmapRanges.Diagnose | kernel/src/user_process.rs:473-512 | the failure report gives the exact number of free pages and the exact largest free run: a request fails for space if and only if it is longer |
| MmapRanges.PagesTouched | kernel/src/user_process.rs:1075-1099 | checking first to last page is the same as checking every byte |
| MmapRanges.MappedRange | kernel/src/user_process.rs:1075-1099 | accepted if and only if the range is non-empty, does not wrap, ends in bounds and every byte is mapped with the needed permissions |
| MmapRanges.MappedMmapRange | kernel/src/user_process.rs:1101-1140 | the walk over several page tables accepts if and only if every byte is mapped with the needed permissions |
| MmapStorage.BootstrapStorage.AssignFrames | kernel/src/user_process.rs:741-757 | the popping loop agrees with its specification and refuses exactly when frames run short |
| MmapStorage.BootstrapStorage.ReleaseFrames | kernel/src/user_process.rs:760-768 | the pushing loop agrees with its specification |
| MmapStorage.BootstrapStorage.RemapPages | kernel/src/user_process.rs:848-875 | the mapping loop agrees with its specification, partial effects included |
| MmapStorage.BootstrapStorage.UnmapPages | kernel/src/user_process.rs:897-903 | the unmapping loop agrees with its specification |
| MmapStorage.BootstrapStorage.ReleaseRange | kernel/src/user_process.rs:614-656 | the counting and checking passes release if and only if every page has a live owner with pages enough, and change nothing otherwise |
| MmapStorage.BootstrapStorage.MmapUser | kernel/src/user_process.rs:404-471 | in-place mapping agrees with its specification in every failure |
| MmapStorage.BootstrapStorage.MprotectPages | kernel/src/user_process.rs:801-822 | in-place protection agrees with its specification |
| MmapStorage.BootstrapStorage.MmapUserAt | kernel/src/user_process.rs:664-682 | in-place remapping agrees with its specification |
| MmapStorage.BootstrapStorage.MunmapPages | kernel/src/user_process.rs:696-717 | in-place unmapping agrees with its specification |
| MmapOutcomes.MapObeyed | kernel/src/user_process.rs:883-895 | every page of a new mapping can be loaded, stored to and fetched from exactly as the protection bits ask |
| MmapOutcomes.ProtectObeyed | kernel/src/user_process.rs:801-822 | after a change of protection exactly the access asked for works on the range; contents and all other pages are as before |
| MmapOutcomes.MapAtObeyed | kernel/src/user_process.rs:664-682 | committing or decommitting a fragment gives exactly the access asked for; contents and all other pages are as before |
| MmapOutcomes.BufferCheckMeans | kernel/src/user_process.rs:1075-1140 | the kernel accepts a user buffer in the window if and only if user code itself could load from, or store to, every byte of it |
| MmapOutcomes.MapSucceeds | kernel/src/user_process.rs:404-471 | a request is granted if and only if it is well formed and a reservation slot, a free run and frames are there; it gets the lowest free run |
| MmapOutcomes.MapRefused | kernel/src/user_process.rs:404-471 | each refusal of a mapping has its one cause: malformed request, no reservation slot, no free run, too few frames |
| MmapOutcomes.MapAtSucceeds | kernel/src/user_process.rs:664-682 | a fragment can be committed in place if and only if it is a whole maximal run of pages with one owner |
| MmapOutcomes.RangeCallsSucceed | kernel/src/user_process.rs:696-822 | protection changes and unmaps succeed if and only if the range is non-empty, in the window and without an unowned page |
| MmapOutcomes.UnmapUndoesMap | kernel/src/user_process.rs:404-717 | unmapping what was just mapped succeeds and restores owners, reservations, entries and page frames, and the same frames to the free stack |
| Elf.SegmentAdded | kernel/src/user_elf.rs:255-291 | checking each new segment against the earlier ones is the same as all segments being well formed and pairwise disjoint |
| Elf.CountMeans | kernel/src/user_elf.rs:104-123 | the first pass accepts if and only if there are few enough loads and at most one TLS header |
| Elf.BodyMeans | kernel/src/user_elf.rs:131-165 | the second pass accepts if and only if all loads and the TLS header are well formed |
| Elf.VerdictMeans | kernel/src/user_elf.rs:62-253 | the parser accepts if and only if the image is well formed, including entry and TLS coverage |
| Elf.Parse | kernel/src/user_elf.rs:62-253 | the loops compute the plan of a well-formed image, and for any other the first error met |
| ElfFormat.HeaderFields | kernel/src/user_elf.rs:104-165 | each field of a program header written as the ABI lays it out is read from its place |
| ElfFormat.FileReadsBack | kernel/src/user_elf.rs:62-253 | the plan parsed from a written ELF-64 file is its entry point, its PT_LOAD headers in order and its last non-empty PT_TLS header; it passes the header checks if and only if it has a program header |
| ElfOutcomes.TlsMeans | kernel/src/user_elf.rs:184-217 | a TLS header is accepted if and only if its template is non-empty, at most a page, aligned by a power of two up to a page like its file part, inside the window and inside the file |
| ElfOutcomes.BodyBlames | kernel/src/user_elf.rs:131-165 | whatever error the second pass reports is a true fault, of that kind, of some header |
| ElfOutcomes.WritableExecutableReported | kernel/src/user_elf.rs:255-291 | a segment of sound size and alignment is reported as writable and executable if and only if it is both |
| ImageLoad.ParsedPlanRefused | kernel/src/user_process.rs:1278-1342 | the loader refuses a parsed plan if and only if two of its segments conflict; ImageLoad.AliasExactly says when two do |
| ImageLoad.RefusedPrefix | kernel/src/user_process.rs:1278-1342 | the pairwise scan of the plan finds a conflict if and only if there is one |
| ImageLoad.AliasExactly | kernel/src/user_process.rs:1278-1342 | two segments of different permissions conflict if and only if they map a common file page in place, or one maps none and starts inside what the other maps |
| ImageLoad.RefusesJustSharing | kernel/src/user_process.rs:1278-1342 | the check refuses just the pairs of different permissions that share a page in place if and only if neither of the two maps none and starts inside the other |
| ImageLoad.RefusedWithoutSharing | kernel/src/user_process.rs:1278-1342 | a sound pair of segments that shares no page in place and is refused all the same |
| ImageLoad.Copied | kernel/src/user_process.rs:1637-1658 | a copied page holds the file bytes and zeros after them |
| ImageLoad.FillPage | kernel/src/user_process.rs:1637-1658 | the byte loop over a cleared page gives the file bytes and zeros after them |
| ImageLoad.PagesApart | kernel/src/user_elf.rs:255-291 | disjoint segments never claim the same page |
| ImageLoad.DirectShows | kernel/src/user_process.rs:1632-1636 | a page mapped in place shows exactly the bytes the segment should have |
| ImageLoad.PlaceDirect | kernel/src/user_process.rs:1598-1674 | mapping a page in place loads it and disturbs no other page |
| ImageLoad.PlaceCopied | kernel/src/user_process.rs:1598-1689 | copying a page loads it into a frame nobody holds and disturbs no other page |
| ImageLoad.TakenFresh | kernel/src/user_process.rs:1676-1689 | a frame taken from disjoint ranges was held by nobody |
| ImageSpace.ImageBuilder.TakeFrame | kernel/src/user_process.rs:1676-1689 | a frame taken from the allocator below the identity limit, or an error with an unreachable frame given back |
| ImageSpace.ImageBuilder.MapPage | kernel/src/user_process.rs:1598-1674 | allocator, page filling and page table together put one page in place, or fail, as specified |
| ImageSpace.ImageBuilder.MapSegment | kernel/src/user_process.rs:1598-1674 | the page loop does the steps in order up to the first failure; on success every page of the segment is loaded and nothing else is disturbed |
| ImageSpace.ImageBuilder.Build | kernel/src/user_process.rs:1158-1186 | a plan is refused exactly when two segments conflict over file pages mapped in place; on success every segment is loaded and only segment pages are mapped |
| ImageSpace.SegmentReads | kernel/src/user_process.rs:1598-1674 | in a finished image every byte of every segment reads as the file byte, or zero beyond the file part |
| ImageSpace.SegmentPermissions | kernel/src/user_process.rs:1598-1674 | user code can store to and fetch from an address of a segment exactly as its flags say, and can do nothing at pages outside every segment |
| ImageSpace.EntryStarts | kernel/src/user_process.rs:1598-1674 | the entry point of an accepted image reads as its byte of the file and can be fetched but not stored to |
| ImageSpace.PlaceRefused | kernel/src/user_process.rs:1637-1689 | a copied page fails for memory if and only if no frame below 4 GiB is left, and as unreachable if and only if the next such frame is not mapped |
| ImageSpace.UnreachableGivenBack | kernel/src/user_process.rs:1676-1689 | a frame the kernel cannot reach is given back and every holding is as before if and only if the free list has room for it; otherwise it stays held; entries and memory are as before |
| ImageSpace.TemplateReads | kernel/src/user_elf.rs:219-253 | the TLS template read through its covering segment is the file's template |
| ImageSpace.NoWritableExecutableFrame | kernel/src/user_process.rs:1278-1342 | in a finished image no frame is writable through one page and executable through another |
| ChildSpace.ChildStorage.Clear | kernel/src/user_child.rs:70-82 | the loops leave nothing of an earlier child: every table empty, every image and stack page zero |
| ChildSpace.ChildStorage.CopyPage | kernel/src/user_child.rs:268-286 | file bytes copied over a cleared page give the page its contents; the page is mapped to its own frame |
| ChildSpace.ChildStorage.MapUpper | kernel/src/user_child.rs:209-242 | the copied kernel entries lose the user bit; it fails exactly when an entry would vanish |
| ChildSpace.ChildStorage.MapStack | kernel/src/user_child.rs:244-256 | exactly the stack pages are mapped, each to its own frame |
| ChildSpace.ChildStorage.CopySegment | kernel/src/user_child.rs:258-287 | every page of the segment is mapped and filled, and no other page is touched |
| ChildSpace.ChildStorage.Build | kernel/src/user_child.rs:185-296 | succeeds if and only if the plan is acceptable for a child and the kernel entries survive; then tables and pages are as described and every page outside the segments, the stack included, holds zeros |
| ChildSpace.ChildConfined | kernel/src/user_child.rs:202-296 | whatever tables the kernel entries lead to, the only user-accessible translations are the child's own image pages and stack |
| ChildSpace.ChildReads | kernel/src/user_child.rs:202-296 | every segment page translates to the child's own frame, with the segment's permissions and contents |
| ChildSpace.ChildPermissions | kernel/src/user_child.rs:202-296 | through all four levels the child can store to and fetch from an image page exactly as its segment's flags say, and can store to but not run its sixteen stack pages and nothing else beside them |
| Gpt.BytesEqual | kernel/src/gpt.rs:311-320 | the accumulated exclusive-or is zero if and only if the byte strings are equal |
| Gpt.ParseHeader | kernel/src/gpt.rs:269-301 | accepts if and only if signature, revision, size, entry geometry, checksum and disk identity are right; a checksum error means exactly that |
| Gpt.CheckEntry | kernel/src/gpt.rs:139-173 | an entry passes if and only if it is usable and overlaps no earlier one; otherwise the error names a fault it has |
| Gpt.ScanEntries | kernel/src/gpt.rs:123-210 | the one-sector-at-a-time scan accepts if and only if the array is readable, every pair of partitions is apart and the checksum is right, and its tally is exact |
| Gpt.CompareArrays | kernel/src/gpt.rs:212-226 | accepts if and only if the backup array is the primary array, sector for sector |
| Gpt.FindPartitions | kernel/src/gpt.rs:80-248 | accepts a disk if and only if it is valid, and then returns its layout; a refusal names a true fault of the first stage that failed |
| Gpt.FoundUsable | kernel/src/gpt.rs:80-248 | on an accepted disk a partition found is non-empty and inside the usable area |
| Gpt.EntriesApart | kernel/src/gpt.rs:161-174 | no sector belongs to two used entries |
| Gpt.FoundApart | kernel/src/gpt.rs:80-248 | partitions found for different types share no sector |
| GptFormat.EntryReadsBack | kernel/src/gpt.rs:139-173 | a partition entry written as the specification lays it out reads as that type, name and extent |
| GptFormat.HeaderReadsBack | kernel/src/gpt.rs:269-301 | a written and checksummed header with a non-zero disk name is accepted and reads as written |
| GptFormat.MbrMeans | kernel/src/gpt.rs:250-267 | the protective MBR is accepted if and only if, byte for byte, it has the signature and one partition of type 0xEE from sector 1 over the disk, or as much of it as 32 bits can say |
| GptFormat.HeadersAgree | kernel/src/gpt.rs:80-122 | the two headers of an accepted disk are in its second and last sectors, point at each other and at their arrays, and agree in disk name, usable area and array checksum |
| GptFormat.EntriesAgree | kernel/src/gpt.rs:123-210 | every entry of an accepted disk is all zero or has a name and sectors of its own inside the usable area; exactly one is User Data and at most one a Model Store |
| BlockDevice.NotFour | kernel/src/virtio.rs:230-262 | bumping a capability at most three times is enough to avoid zero and two others |
| BlockDevice.Bump | kernel/src/virtio.rs:230-262 | the loop ends with a capability that is non-zero and different from both others |
| BlockDevice.Initialize | kernel/src/virtio.rs:149-282 | accepted if and only if User Data is large enough; then the extents are those of the disk and the capabilities are pairwise different |
| BlockDevice.Install | kernel/src/virtio.rs:211-262 | from any disk and boot context: succeeds if and only if the partition table is valid and User Data large enough, and then the device is the one that the confinement results are about |
| BlockDevice.ClaimKeeps | kernel/src/virtio.rs:348-359 | claiming keeps the device one that the confinement results are about |
| BlockDevice.WritesConfined | kernel/src/virtio.rs:407-433 | every accepted write is on the disk, inside User Data or, once claimed, inside the slot not in use |
| BlockDevice.WritesSpareTheRest | kernel/src/virtio.rs:407-433 | no accepted write reaches any other partition, the confirmed slot, or either copy of the partition table |
| BlockDevice.TranslationInjective | kernel/src/virtio.rs:761-773 | different capability and sector pairs never reach the same sector of the disk |
| BlockDevice.ExtentsApart | kernel/src/virtio.rs:376-403 | the extents readable through different capabilities share no sector |
| BlockDevice.ClaimedOnce | kernel/src/virtio.rs:348-359 | the update slot cannot be written before it is claimed, can be claimed once, and the claim opens exactly that slot |
| BlockDevice.ExtentOnDisk | kernel/src/virtio.rs:376-433 | every extent a program can open lies on the disk; the one for User Data is its first 16384 sectors |
| BlockDevice.SectorsInOrder | kernel/src/virtio.rs:761-773 | a sector is accessible if and only if its extent is open and it is below its length; it is that many sectors behind the start, the same for reads and writes; a claim returns the slot's sector count and index |
| BlockDevice.WhatOpens | kernel/src/virtio.rs:376-433 | User Data opens for both, the Model Store for reading only, the update slot for both once claimed, and no other capability opens anything |
| BlockDevice.UpdateSlotUnambiguous | kernel/src/virtio.rs:211-262 | there is an update slot if and only if boot control allows an update and exactly one partition has that slot's type |

## Left out

- Event and Timer objects, and the signal kinds only they raise: they share the wait registry, which is modelled for every signal.
- The rollback of a failed receive: it is dead code after the capacity and validity checks, and `Channels.InstallTokens` shows that the installing loop cannot fail.
- The spin lock around the manager and interrupt masking: each operation is one atomic step.
- UserIpc.UserIpcState: the fixed tables are sequences of references reassigned slot by slot, and the second copies of the object ids kept beside each Channel are not kept.
- Journal.PersistRecovers: a torn write is taken to leave a record that fails to decode; collisions of CRC-32 are outside the model.
- Firmware, menu input, manifests and the UEFI variable store enter the boot protocol as arbitrary choices at each step; a variable with other attributes counts as unreadable.
- Build features that seed the journal, and the loader's own ELF loading, graphics and memory-map hand-over.
- Clocks and timer interrupts enter the scheduler as the argument `now`; saturation of tick arithmetic at 64 bits is not modelled.
- Checks of user addresses and argument copying in system calls, device calls, the exit of init (which halts), and register save and restore.
- Processor start-up, descriptor tables, page-table activation, ACPI, framebuffer, serial output and other assembly.
- VMOs and the older single-process paths, which would only add easier members of the same kind.
- SchedulerTable.BootstrapUserThreads.DiscardThread: not for thread 0, which the kernel never allocates and so never discards.
- Journal.BootControlJournal.ReadCurrent: a failing read of the store, which ends the operation before any write, is not modelled.
- PageAllocator.FromMapUnused: the memory map is a sequence of entries, not the firmware's byte layout.
- Mmap operations take page numbers; the conversion from addresses is only modelled for the range checks of user buffers.
- MmapStorage.BootstrapStorage: the page tables of the window are one sequence of entries, with `MmapRanges.MappedMmapRange` covering the split into tables.
- ImageSpace.ImageBuilder.Build: the stack, TLS block and framebuffer surface of init are not mapped, and the image's own frames are taken to lie outside the allocator's ranges.
- ImageLoad.ParsedPlanRefused: the loader's repeated entry and TLS checks are left out because every parsed plan passes them.
- Elf: the copy of the TLS template into a thread's block; its validation and what the template reads as are modelled.
- Gpt.FindPartitions: of several faults in one stage, which is reported first is not stated.
- BlockDevice: virtio queues, device registers and transfers; a read or write is its translation to a disk sector.
