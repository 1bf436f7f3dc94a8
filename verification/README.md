# Mink IPC, modelled in Dafny

Mink IPC moves objects between protection domains. This project models the parts of it whose
correctness takes reasoning over whole loops, whole data structures or whole runs, and proves what
they guarantee. `dafny verify dfyconfig.toml` checks everything.

| file | what it models |
|---|---|
| `QList.dfy` | the intrusive circular list, on the heap, pointer by pointer |
| `IDSet.dfy`, `IDSetCopy.dfy` | sets of 32-bit ids in a linked list of two-entry chunks, on the heap, and their duplication |
| `HubRuns.dfy` | the service hub as a state machine: every run of its calls |
| `MinkHub.dfy` | the hub on the heap: sessions in a QList, each with an IDSet, refining `HubRuns`; opening a remote service through it |
| `MinkHubRun.dfy` | any list of calls on one hub, on the heap |
| `ConnectionManager.dfy` | opening a service on remote servers, with reconnection and client environments |
| `IdSetCodec.dfy` | the encoder of id sets in application metadata, and a decoder for its grammar |
| `Metadata.dfy` | escaping, and the joining of metadata fields |
| `CWait.dfy`, `CWaitRuns.dfy`, `CWaitOrder.dfy`, `CWaitReport.dfy` | the rendezvous of waits and signals, all interleavings of it, who meets whom, and what a wait reports |
| `Rpmb.dfy`, `RpmbWrite.dfy`, `RpmbService.dfy` | RPMB transfers through one shared buffer |
| `Supplicant.dfy` | stopping blocked worker threads by a signal, instruction by instruction |
| `ObjectTable.dfy` | handles for objects held by a remote domain |
| `Teec.dfy` | large temporary memory references that travel as registered ones |
| `Itoa.dfy` | the decimal printer |
| `Mink.dfy` | objects, options and error codes |
| `Seqs.dfy` | facts about sequences |

## How to read it

*Heap structures.* `IsQueue(h, s)` says that the list headed by `h` holds the cells `s` in that
order; `IsList(c, u)` says that the chunks `c` hold the used entries `u` in sorted order. Methods
take these sequences as ghost arguments and say how they change. `Fits(head, b)` says that the cells,
chunks and modules of a hub are as its books `b` say. `MinkHubs.MinkHub.State()` is the abstract hub, and
every hub method is proved to take exactly the step of `HubRuns` of the same name.

*Runs.* Concurrent code is modelled as atomic steps: one hub call, one section under the CWait lock,
one instruction of a worker thread. A CWait waiter that has timed out reads its item under no lock; a
signal that it reads in the middle of is a step of its own (`CWaitRuns.Op.Cross`). What the environment decides (time, the device, the remote
server, the TEE, memory allocation) is a parameter, so the theorems hold for all its choices.

*Hidden definitions.* A proof that starts with `hide F, G;` does not look into the bodies of `F` and `G`.
It only passes them on, or uses lemmas about them. This keeps proofs small; it changes no statement.

*Bits.* Masks are sets of bit numbers; type words and register contents are numbers, with shifts and
masks written as division and remainder.

## Results that need care

* A lookup in the hub opens the *oldest* current registration that names the uid: a session that
  registers again moves to the end of the list. A registration that runs out of memory takes the
  session off the list, so its earlier registration is gone as well. It does so exactly if a chunk cannot
  be had for some uid of a new group that comes when a positive even number of groups is in
  (`MinkHubs.RegisterServices`, `MinkHubs.NeedsChunk`).
* `IDSet_set` without memory for another chunk drops a whole group; `IDSets.Set` says exactly when.
* A CWait signal is never heard of exactly when it was sent while its first matching waiter had timed
  out and was still listed, or when nobody matched, it had a code, and malloc failed
  (`CWaitRuns.LostExactly`; `CWaitRuns.LostSignal` is such a run). A signal that comes after its waiter
  returned with events is not lost: it carries one of the events reported.
* A CWait wait can report an event that nobody sent: it does exactly when the signal that reached it was
  marking its item at the moment it timed out, and the wait had asked for more than that signal carries
  (`CWaitRuns.OverstatedExactly`; `CWaitRuns.OverstatedReport` is such a run).
* An RPMB write sends the request frames unchanged exactly when no frame of a later transaction overlaps
  the result frame (`RpmbWrites.ClearExactly`). Frames behind the 20-byte header never do.
* When a large temporary parameter cannot be registered, the undo looks at a flag that was not set yet:
  the operation comes back as it was exactly unless that memory happened to hold zero
  (`Teec.InvokeCommand`, `Teec.CanStick`).
* `ObjectTable.h` says that the table counts references to handles. The code keeps no such count: one
  release frees the slot. The model follows the code.

## Model

| member | source | states |
|---|---|---|
| `QLists.InsertBefore` | libmink/Transport/MinkSocket/kernel/qlist.h:42-50 | inserting before a queued cell gives the ring with the cell at that place, for every ring and place |
| `QLists.InsertBehind` | libmink/Transport/MinkSocket/kernel/qlist.h:53-61 | inserting behind a queued cell, likewise |
| `QLists.Remove` | libmink/Transport/MinkSocket/kernel/qlist.h:65-74 | dequeuing leaves the ring without that cell, and the cell with null pointers |
| `QLists.IsQueued` | libmink/Transport/MinkSocket/kernel/qlist.h:83-86 | one pointer of the cell decides membership of the list |
| `QLists.Construct` | libmink/Transport/MinkSocket/kernel/qlist.h:102-105 | a fresh head is the empty ring |
| `QLists.IsEmpty` | libmink/Transport/MinkSocket/kernel/qlist.h:108-111 | true exactly for the empty sequence |
| `QLists.AppendNode` | libmink/Transport/MinkSocket/kernel/qlist.h:114-118 | the sequence grows at its end |
| `QLists.PrependNode` | libmink/Transport/MinkSocket/kernel/qlist.h:121-125 | the sequence grows at its front |
| `QLists.ConstructFrom` | libmink/Transport/MinkSocket/kernel/qlist.h:128-139 | all cells move to the new head in order and the source is left empty, also when it was empty and its head is its own neighbour |
| `QLists.AppendList` | libmink/Transport/MinkSocket/kernel/qlist.h:141-155 | the cells of the source follow those of the destination, the source is left empty, for empty lists on either side |
| `QLists.GetFirst` | libmink/Transport/MinkSocket/kernel/qlist.h:185-190 | the first cell, null exactly if there is none |
| `QLists.GetLast` | libmink/Transport/MinkSocket/kernel/qlist.h:193-198 | the last cell, null exactly if there is none |
| `QLists.Pop` | libmink/Transport/MinkSocket/kernel/qlist.h:201-214 | takes the first cell off and nulls it; null exactly on the empty list |
| `QLists.PopLast` | libmink/Transport/MinkSocket/kernel/qlist.h:217-231 | takes the last cell off and nulls it; null exactly on the empty list |
| `QLists.QueueIsUnique` | libmink/Transport/MinkSocket/kernel/qlist.h:42-74 | the pointers alone decide which cells a list holds and in which order |
| `IDSets.TestOrSet` | libmink/Hub/MinkHub/inc/IDSet.h:59-112 | the insert with its shifts over chunk boundaries yields the sorted list with the id put in, adds a chunk exactly for a new group when no place is free, and fails exactly when that chunk cannot be had |
| `IDSets.Set` | libmink/Hub/MinkHub/inc/IDSet.h:114-119 | adds exactly that id; when it fails, exactly the last group is lost |
| `IDSets.Test` | libmink/Hub/MinkHub/inc/IDSet.h:121-124 | set membership, nothing changes |
| `IDSets.Clear` | libmink/Hub/MinkHub/inc/IDSet.h:126-147 | removes exactly that id, and tells whether its group was there |
| `IDSets.Empty` | libmink/Hub/MinkHub/inc/IDSet.h:40-51 | leaves one chunk and no id |
| `IDSetCopies.Dup` | libmink/Hub/MinkHub/inc/IDSet.h:201-226 | the target holds the same sorted entries in chunks of its own, even if it is a chunk of the set; it fails exactly when a calloc fails, and then leaves the target alone |
| `IDSets.PutAdds` | libmink/Hub/MinkHub/inc/IDSet.h:59-112 | on any sorted list, putting an id in keeps groups strictly increasing and adds exactly that id |
| `IDSets.CutRemoves` | libmink/Hub/MinkHub/inc/IDSet.h:126-147 | on any sorted list, clearing keeps it sorted and removes exactly that id |
| `HubRuns.RunIsWellFormed` | libmink/Hub/MinkHub/src/MinkHub.c:32-111 | in every run refs is the live sessions plus one until the owner destroys the hub; it is freed once, when that sum reaches zero; listed sessions are live and listed once |
| `HubRuns.DestroyIsFinal` | libmink/Hub/MinkHub/src/MinkHub.c:194-208 | after destroy, whatever is called, no session, registration or open succeeds |
| `HubRuns.ValidUntilDestroy` | libmink/Hub/MinkHub/src/MinkHub.c:149-208 | the hub is valid exactly until destroy |
| `HubRuns.RunMatches` | libmink/Hub/MinkHub/src/MinkHub.c:49-147 | after every run, failed registrations included, the session list is made of the current registrations, oldest first, each with the uids and the module it named |
| `HubRuns.LocalOpenReaches` | libmink/Hub/MinkHub/src/MinkHub.c:210-249 | after every run a lookup opens the module of the oldest current registration with the uid, and reports not-found exactly when none has it, not-valid exactly after destroy |
| `MinkHubs.MinkHub.constructor` | libmink/Hub/MinkHub/src/MinkHub.c:149-192 | the new hub's heap is fresh and represents the initial state |
| `MinkHubs.MinkHub.CreateSession` | libmink/Hub/MinkHub/src/MinkHub.c:83-111 | succeeds exactly on a valid hub with memory, then takes the abstract step, on fresh cells and chunks |
| `MinkHubs.Deregister` | libmink/Hub/MinkHub/src/MinkHub.c:49-59 | the session is off the list afterwards, queued before or not, and the rest keeps its order |
| `MinkHubs.Fill` | libmink/Hub/MinkHub/src/MinkHub.c:131-137 | the session's id set holds exactly the uids of the list, unless a chunk that is needed cannot be had: then exactly those up to the first such uid, but for the largest group among them. A chunk is needed exactly for a uid of a new group behind a positive even number of groups |
| `MinkHubs.RegisterServices` | libmink/Hub/MinkHub/src/MinkHub.c:113-147 | the return code, for every argument and every failing allocation; takes the abstract step: moved to the end of the list with the new uids and module, unchanged when refused, or, when memory runs out, off the list with the uids that are left |
| `MinkHubs.DestroySession` | libmink/Hub/MinkHub/src/MinkHub.c:61-81 | takes the abstract step: off the list, module and client environment let go, its reference given back |
| `MinkHubs.MinkHub.ReleaseRef` | libmink/Hub/MinkHub/src/MinkHub.c:32-47 | one reference less, freed when none is left |
| `MinkHubs.MinkHub.Destroy` | libmink/Hub/MinkHub/src/MinkHub.c:194-208 | takes the abstract step |
| `MinkHubs.MinkHub.LocalOpen` | libmink/Hub/MinkHub/src/MinkHub.c:210-249 | the walk over the linked sessions and their chunks calls the module the abstract lookup names, and gives its answer; refusals in the order of the source |
| `MinkHubs.MinkHub.Find` | libmink/Hub/MinkHub/src/MinkHub.c:230-240 | the walk stops at the session the abstract scan finds, or at the end |
| `MinkHubClients.Execute` | libmink/Hub/MinkHub/src/MinkHub.c:32-208 | any list of calls on a new hub, allocation failures included, takes the heap through exactly the run those calls make |
| `MinkHubClients.OpenAfter` | libmink/Hub/MinkHub/src/MinkHub.c:210-249 | after any list of calls the lookup on the heap opens the module of the oldest current registration with the uid, and finds nothing exactly if there is none |
| `ConnectionManagers.RemoteConnection.Release` | libmink/Hub/MinkHub/src/ConnectionManager.c:53-61 | connection, opener and notifier are gone |
| `ConnectionManagers.RemoteConnection.Refresh` | libmink/Hub/MinkHub/src/ConnectionManager.c:63-86 | connection, opener and notifier are all there or all gone; there exactly if they were, or the server gave all three |
| `ConnectionManagers.RemoteConnection.OpenVm` | libmink/Hub/MinkHub/src/ConnectionManager.c:144-176 | for every behaviour of the server, told without the retry counter: a second open is made exactly if the first said that the server is down and it can be connected to again, and no third; the answer is that of the open that found it up, else not-found, never that it is down; the connection is kept exactly if the server answered |
| `ConnectionManagers.RemoteConnection.OpenQtee` | libmink/Hub/MinkHub/src/ConnectionManager.c:178-201 | the client environment is used when there, fetched exactly when not, and handed back when fetched; nothing is opened without one; OK exactly if the open on it is, else not-found |
| `ConnectionManagers.RemoteConnection.OpenService` | libmink/Hub/MinkHub/src/ConnectionManager.c:242-250 | one of the two, by kind of server; keeps all-or-none, and says which environment there is afterwards |
| `ConnectionManagers.AnswerMeans` | libmink/Hub/MinkHub/src/ConnectionManager.c:144-176 | the answer never says down, and any other than not-found is the server's own at the first open that found it up, a connection made for each open before |
| `ConnectionManagers.UpIsReached` | libmink/Hub/MinkHub/src/ConnectionManager.c:144-176 | a server that comes up within the tries, with the connections it takes, is reached: its answer is the answer |
| `ConnectionManagers.DownIsNotFound` | libmink/Hub/MinkHub/src/ConnectionManager.c:156-168 | a server that is down yields not-found, however the connection stood |
| `ConnectionManagers.VmAnswers` | libmink/Hub/MinkHub/src/ConnectionManager.c:144-176 | the same two tries for the answer a remote open gets from a server in a virtual machine |
| `ConnectionManagers.QteeAnswers` | libmink/Hub/MinkHub/src/ConnectionManager.c:178-201 | and what it gets from QTEE: the answer on the environment there is or can be had, else not-found |
| `ConnectionManagers.FirstAnswerMeans` | libmink/Hub/MinkHub/src/MinkHub.c:269-279 | the answer chosen is that of the least server whose answer is not not-found, each asked with the environment the earlier ones left, and the session keeps what the last one asked left |
| `ConnectionManagers.EnvIsKept` | libmink/Hub/MinkHub/src/ConnectionManager.c:178-201 | once a session has an environment, all later servers use it |
| `MinkHubs.RemoteOpen` | libmink/Hub/MinkHub/src/MinkHub.c:251-286 | the first answer other than not-found in the order of the hub's servers, a service exactly if it is OK; the session keeps the client environment that was fetched on the way; refused for a missing hub, place or credentials and for a session of another hub, with nothing written, and on an invalid hub; the sessions are untouched |
| `IdSetCodec.EncodeIdSet` | libmink/SDK/QTVM/SecureAppMetadata.py:18-66 | for every finite set of naturals the text decodes to exactly that set, so different sets never share a text; it is never longer than the plain list of its sorted ids, and n consecutive ids take one number and (n + 2) / 4 mask digits; it holds no `;` or `=`, and is empty exactly for the empty set |
| `IdSetCodec.AddNumber` | libmink/SDK/QTVM/SecureAppMetadata.py:39-47 | starting a new number keeps what the text so far tells, and adds the id |
| `IdSetCodec.PushDigits` | libmink/SDK/QTVM/SecureAppMetadata.py:53-56 | pushing the pending mask digit and empty digits keeps what the text tells |
| `IdSetCodec.AddMaskBit` | libmink/SDK/QTVM/SecureAppMetadata.py:49-58 | setting a mask bit adds exactly the id, at a known cost in length |
| `IdSetCodec.AddId` | libmink/SDK/QTVM/SecureAppMetadata.py:31-58 | an id is written as a number exactly if that is shorter than a mask bit, and the length of the text is that of the way taken |
| `IdSetCodec.AddAll` | libmink/SDK/QTVM/SecureAppMetadata.py:20-58 | after every id the text with its pending digit tells exactly the ids so far and is no longer than their plain list |
| `IdSetCodec.HexIsCanonical` | libmink/SDK/QTVM/SecureAppMetadata.py:65-66 | numbers have no leading zero |
| `Metadata.EscapeIsSimultaneous` | libmink/SDK/QTVM/SecureAppMetadata.py:381-385 | the four successive replacements are one character map |
| `Metadata.EscapeRoundTrip` | libmink/SDK/QTVM/SecureAppMetadata.py:381-385 | unescaping gives the text back, and the escaped text holds no `,`, `;` or `=` |
| `Metadata.SplitJoin` | libmink/SDK/QTVM/SecureAppMetadata.py:315-321 | splitting undoes joining for parts without the separator |
| `Metadata.RecordRoundTrip` | libmink/SDK/QTVM/SecureAppMetadata.py:315-321 | splitting the joined string on `;` and `=` recovers every field |
| `Metadata.FieldsInOrder` | libmink/SDK/QTVM/SecureAppMetadata.py:317-319 | split at `;`, the string gives each field once, names rising |
| `Metadata.AddText` | libmink/SDK/QTVM/SecureAppMetadata.py:359-385 | the field unescapes to the given text; no field for no text |
| `Metadata.NameFitsExactly` | libmink/SDK/QTVM/SecureAppMetadata.py:374-379 | the pattern lets through exactly the names of 1 to 31 characters without newline, and these with one more newline at the end |
| `Metadata.GenerateMetadata` | libmink/SDK/QTVM/SecureAppMetadata.py:287-321 | raises exactly for a name that is not 1 to 31 characters on one line or a flag other than true and false; otherwise the string is made of the fields put in and nothing else, in the order of their names, and read back gives every one of them, id sets as sets |
| `CWaits.CWait.SignalWaiterItem` | libminkteec/src/CWait.c:95-128 | marks the earliest listed waiter that matches and narrows its events; nothing else |
| `CWaits.CWait.GetSignalItem` | libminkteec/src/CWait.c:140-171 | takes off the earliest queued signal that serves, and reports the common events |
| `CWaits.CWait.Signal` | libminkteec/src/CWait.c:379-399 | the new list: attached, queued behind, or dropped for code zero or without memory |
| `CWaits.CWait.Wait` | libminkteec/src/CWait.c:335-362 | the new list: served from the queue, or the waiter queued behind |
| `CWaits.CWait.Clear` | libminkteec/src/CWait.c:235-245 | the waiter is cut out at its place and the others keep their order; in a list without duplicates no item of that waiter is left |
| `CWaitRuns.RunKeepsInv` | libminkteec/src/CWait.c:95-399 | in every interleaving, the unlocked read of a waiter that has timed out included: queued signals have a non-zero code; no queued signal and listed waiter share a code and an event; a marked waiter's events are non-empty, among those asked for and those of every signal attached; a report is among the events of a signal that came in time, or all that was asked for if the signal crossed the return; a queued signal is taken by at most one wait and a wait takes at most one |
| `CWaitRuns.FateIsFinal` | libminkteec/src/CWait.c:95-171 | over any continuation a settled signal keeps its fate, a queued one is only ever taken by a wait, and no report is taken back |
| `CWaitRuns.Delivered` | libminkteec/src/CWait.c:290-399 | after every run, a signal that is not lost is queued, ignored for code zero, or its waiter's report shares an event with it, and holds only its events if it came in time and did not cross the waiter's return |
| `CWaitRuns.ReportsExactly` | libminkteec/src/CWait.c:290-333 | a returned wait reports events if and only if a signal reached it |
| `CWaitRuns.LostExactly` | libminkteec/src/CWait.c:95-128 | a signal ends up with no wait reporting any of its events if and only if, when sent, its first matching waiter had timed out and was still listed, or nobody matched and it could not be queued |
| `CWaitRuns.LostSignal` | libminkteec/src/CWait.c:335-377 | a run that loses a signal although a later wait asks for it |
| `CWaitRuns.OverstatedExactly` | libminkteec/src/CWait.c:326-330 | a wait reports an event that the signal which reached it does not carry if and only if that signal was between its two writes to the item when the wait read it, and the wait asked for more than was sent |
| `CWaitRuns.OverstatedReport` | libminkteec/src/CWait.c:113-114 | a run in which a wait for two events reports both for a signal with one |
| `CWaitOrders.ListInOrder` | libminkteec/src/CWait.c:184-225 | after every run the list is in the order in which its waits and signals came |
| `CWaitOrders.SignalReaches` | libminkteec/src/CWait.c:95-128 | in every run a signal is attached to w if and only if the wait of w is the earliest of those still listed that are for any code or for its code and share an event; that item is marked and narrowed and no other changes; else the signal is queued at the end, ignored for code zero, or dropped without memory |
| `CWaitOrders.WaitTakes` | libminkteec/src/CWait.c:140-171 | in every run a wait returns at once if and only if a queued signal has its code and shares an event; it takes the one sent first and reports the common events; else it is listed behind all others with all it asked for |
| `CWaitReports.ReportIs` | libminkteec/src/CWait.c:290-333 | after every run a returned wait has reported an event if and only if a signal reached it, it asked for the event, and every signal that reached it, one that crossed its return aside, carries it |
| `Rpmb.TransfersIsCeiling` | listeners/librpmbservice/rpmb_ufs.c:468-470 | the division computes the number of transfers of at most rel_wr_count blocks |
| `Rpmb.UfsReadTransfer` | listeners/librpmbservice/rpmb_ufs.c:496-551 | one transfer takes the next min(rel_wr_count, rest) blocks to the next place; the error branch for a wrong count is never reached |
| `Rpmb.UfsReadLoop` | listeners/librpmbservice/rpmb_ufs.c:496-551 | the calls made, the status and the buffer are those of the plan cut from the request as it was, up to the first failing call |
| `Rpmb.UfsRead` | listeners/librpmbservice/rpmb_ufs.c:459-561 | the same with the cached copy, although response and request share the buffer; and the two early failures |
| `Rpmb.ReadSizes` | listeners/librpmbservice/rpmb_ufs.c:496-551 | transfer i sends request frame i and takes min(rel_wr_count, rest) blocks to the place behind the earlier ones |
| `Rpmb.TransferSizes` | listeners/librpmbservice/rpmb_ufs.c:468-551 | no transfer is empty, and together they take exactly the block count |
| `Rpmb.ReadTiles` | listeners/librpmbservice/rpmb_ufs.c:496-551 | a successful read fills the response area with the device's bytes in order, no gap and no overlap, and nothing else |
| `Rpmb.ReadSucceeds` | listeners/librpmbservice/rpmb_ufs.c:496-551 | a read succeeds exactly if both commands of every transfer do |
| `Rpmb.ExecSucceeds` | listeners/librpmbservice/rpmb_emmc.c:377-403 | a plan succeeds exactly if the device carries out every call, a result frame of eMMC saying so; else it ends with the first that fails and gives its status, -1 for a result code |
| `RpmbWrites.UfsTransaction` | listeners/librpmbservice/rpmb_ufs.c:597-656 | the frames, then 512 bytes that ask for the result register, then 512 bytes back to the response area; it stops at the first failure and returns that status, and succeeds exactly if all three do |
| `RpmbWrites.UfsWrite` | listeners/librpmbservice/rpmb_ufs.c:563-668 | the loop makes the calls of the live model for every whole batch, and succeeds exactly if the device takes three calls for each; refused for too large a batch |
| `RpmbWrites.EmmcTransaction` | listeners/librpmbservice/rpmb_emmc.c:372-403 | one ioctl with the frames and the request for the result; when it returns zero the result frame is in the buffer, and the status is zero exactly if byte 509 of it is, else -1 |
| `RpmbWrites.EmmcWrite` | listeners/librpmbservice/rpmb_emmc.c:300-418 | the same loop for eMMC, which succeeds exactly if every ioctl does and every result byte is zero; refused for a zero batch and for a count that is no multiple of it |
| `RpmbWrites.LiveSucceeds` | listeners/librpmbservice/rpmb_emmc.c:372-408 | a write succeeds exactly if the device takes every call of every transaction; else it has made the calls up to the first not taken and returns its status, -1 for a result code |
| `RpmbWrites.PlanSends` | listeners/librpmbservice/rpmb_ufs.c:597-660 | transaction j of a write sends request frames j and the request for the result, and takes the result frame |
| `RpmbWrites.LiveFollowsPlan` | listeners/librpmbservice/rpmb_ufs.c:597-660 | with no later frame in the result frame, calls, status and buffer are those of the plan cut from the original request, for every device |
| `RpmbWrites.ClearExactly` | listeners/librpmbservice/rpmb_emmc.c:372-408 | every device sees the original frames if and only if no frame of a later transaction overlaps the result frame, wherever that lies |
| `RpmbService.HandleRead` | listeners/librpmbservice/rpmb_service.c:95-114 | in place on one buffer: the device sees the original request frames, its frames land at byte 20, the reply keeps cmd_id and version and carries the length and the status in two's complement, zero exactly if nothing failed |
| `RpmbService.HandleWrite` | listeners/librpmbservice/rpmb_service.c:116-137 | the same for writes on either device: the status is zero exactly if the driver starts and the device takes every call, result codes included; then the calls are those of all transactions, each with its request frames, if these lie behind the header |
| `RpmbService.ReadKeepsHeader` | listeners/librpmbservice/rpmb_service.c:95-114 | no device behaviour changes a header field |
| `RpmbService.WriteKeepsHeader` | listeners/librpmbservice/rpmb_service.c:116-137 | likewise for writes |
| `Supplicants.AdvanceSound` | libminkadaptor/src/supplicant.c:113-167 | every step of a worker keeps: once the kill is delivered it leaves or holds its last request |
| `Supplicants.HandleSound` | libminkadaptor/src/supplicant.c:62-78 | the handler keeps it, at whatever instruction the signal arrives |
| `Supplicants.HandleSkips` | libminkadaptor/src/supplicant.c:62-78 | the handler turns a worker away exactly on the four instructions into the receive call, and leaves word anywhere else |
| `Supplicants.KillIsSafe` | libminkadaptor/src/syscall.S:8-17 | for any number of workers and any run: no worker is in or before the receive call with its kill delivered, one that is inside can be woken by the pending kill, and a killed one finishes at most one more request |
| `Supplicants.EveryRequestIsServed` | libminkadaptor/src/supplicant.c:120-167 | in every run, kills or not, the requests a worker was given are those it finished and the one in hand: none is thrown away |
| `Supplicants.LeavesExactly` | libminkadaptor/src/supplicant.c:159-167 | a worker that was not killed is on its way out or gone if and only if a receive or a request of its failed |
| `Supplicants.AsksAgain` | libminkadaptor/src/supplicant.c:159-167 | one that was not killed and did not fail finishes what it has and comes back to the receive call |
| `Supplicants.FreedIsUnused` | libminkadaptor/src/supplicant.c:178-197 | the supplicant is freed only after every started worker has exited |
| `Supplicants.NeverStuck` | libminkadaptor/src/supplicant.c:178-197 | until then the release can go on, or some worker step is possible, without the TEE sending anything |
| `Supplicants.ReleaseEnds` | libminkadaptor/src/supplicant.c:178-197 | every run after the kills is bounded, and one that can only wait for the TEE has freed the supplicant |
| `Supplicants.RemainingBound` | libminkadaptor/src/supplicant.c:178-197 | the bound is linear in the number of workers |
| `ObjectTables.ObjectTable.IsCleaned` | libmink/Transport/MinkSocket/sock/ObjectTable.c:7-18 | the count test means that exactly the primordial slot is taken |
| `ObjectTables.ObjectTable.Add` | libmink/Transport/MinkSocket/sock/ObjectTable.c:22-33 | fills exactly a free slot and retains once; a taken slot is refused and nothing changes |
| `ObjectTables.ObjectTable.AddPrimordial` | libmink/Transport/MinkSocket/sock/ObjectTable.c:36-47 | the same at the primordial handle |
| `ObjectTables.ObjectTable.AddObject` | libmink/Transport/MinkSocket/sock/ObjectTable.c:52-67 | the least free generic handle, never the primordial one; -1 exactly when all are taken |
| `ObjectTables.ObjectTable.RecoverObject` | libmink/Transport/MinkSocket/sock/ObjectTable.c:73-89 | over any history the object last added there and not closed since, with a reference for the caller |
| `ObjectTables.ObjectTable.Close` | libmink/Transport/MinkSocket/sock/ObjectTable.c:136-156 | empties the slot and releases its one reference |
| `ObjectTables.ObjectTable.ReleasePrimordial` | libmink/Transport/MinkSocket/sock/ObjectTable.c:159-162 | the same at the primordial handle, recorded in the history |
| `ObjectTables.ObjectTable.ReleaseHandle` | libmink/Transport/MinkSocket/sock/ObjectTable.c:165-176 | succeeds exactly for a taken generic handle, and then the history gains that one event |
| `ObjectTables.ObjectTable.CloseAllHandles` | libmink/Transport/MinkSocket/sock/ObjectTable.c:179-188 | only the primordial slot can be left, so the table is cleaned exactly if it is taken; the history gains one event for each taken generic handle, in order |
| `ObjectTables.ObjectTable.Destruct` | libmink/Transport/MinkSocket/sock/ObjectTable.c:190-209 | every reference ever retained was released or was handed to a caller |
| `ObjectTables.HandleBalance` | libmink/Transport/MinkSocket/sock/ObjectTable.c:22-33 | over any history a handle was added as often as closed, once more if it is taken |
| `Teec.GetOfSet` | libminkteec/src/mink_teec.c:300-306 | setting one type changes that type and no other bit |
| `Teec.TempToPartial` | libminkteec/src/mink_teec.c:474-506 | one large temporary reference gets a fresh stand-in with its buffer, size and direction, marked exactly if its registration succeeds or the memory held a mark; nothing changes without memory |
| `Teec.Promote` | libminkteec/src/mink_teec.c:524-545 | parameters before the first failure are promoted, those behind it are untouched, and the status names it |
| `Teec.TempToPartialParams` | libminkteec/src/mink_teec.c:517-555 | exactly the temporary references above 4096 bytes are promoted; a failure undoes everything but a parameter whose registration failed unmarked |
| `Teec.TempFromPartial` | libminkteec/src/mink_teec.c:418-431 | one stand-in becomes temporary again |
| `Teec.TempFromPartialParams` | libminkteec/src/mink_teec.c:439-462 | the stand-ins, and only they, become temporary again |
| `Teec.TeeTypes` | libminkteec/src/mink_teec.c:256-307 | what QTEE is told of each parameter: parts of registered memory by their type, the whole by the memory's flags, all others unchanged, and so are the other bits |
| `Teec.SameTeeType` | libminkteec/src/mink_teec.c:256-286 | a stand-in has the TEE type of what it stands for |
| `Teec.InvokeCommand` | libminkteec/src/mink_teec.c:1088-1115 | QTEE is told the types as if nothing was promoted; the operation comes back as it was, all parameters and the whole type word, if and only if no parameter sticks |
| `Teec.CanStick` | libminkteec/src/mink_teec.c:1120-1145 | an operation and failures for which a parameter sticks |
| `Itoa.WidthFits` | libmink/Transport/MinkSocket/ext/itoa.c:7-13 | the powers of ten fit unsigned long of 32 and of 64 bits, and the first position covers every value |
| `Itoa.Limit` | libmink/Transport/MinkSocket/ext/itoa.c:15-18 | the power is computed without leaving the type |
| `Itoa.Utoa` | libmink/Transport/MinkSocket/ext/itoa.c:7-29 | for every value the digits parse back to it, without a leading zero except for 0, and the rest of the buffer is kept |
| `Itoa.ItoaR` | libmink/Transport/MinkSocket/ext/itoa.c:32-44 | round trip for every long above LONG_MIN |
| `Itoa.CanonicalIsUnique` | libmink/Transport/MinkSocket/ext/itoa.c:7-29 | the decimal form is the only one |

## Left out

- `IDSet_isSubSet`: it does not decide the subset relation, and nothing is claimed of it.
- `QNode_dequeueIf`, `QLIST_FOR_ALL` as a macro: walks are modelled where they are used.
- Locks: a hub call, a section under the CWait lock and an object table call are single steps, except that the unlocked read at the end of a wait may fall into a signal; lock order and fairness are not modelled.
- MinkHubs.MinkHub.constructor: takes the allocations of `MinkHub_new` to succeed and the connections as made.
- MinkHubs.MinkHub.LocalOpen: the result of wrapping credentials and the answers of modules are parameters.
- Freed memory: `free` of sessions, chunks, list items and stand-ins only ends their membership.
- MinkHubs.RemoteOpen: the result of wrapping credentials is a parameter; requires a connection object of its own for each server, as `MinkHub_new` makes them.
- The reconnect thread and the close notifier callback of the connection manager, and `ConnectionManager_createConnection`.
- Metadata.GenerateMetadata: the translation of class names to ids, the errors for unknown names and fields, file parsing and command line handling.
- CWaits.CWait.Wait: takes malloc to succeed, since the source uses its result unchecked; clocks and `compute_wakeup_time` are replaced by a timeout that may happen at any step.
- RpmbWrites.UfsWrite: requires a non-zero batch, which the source divides by unchecked; frames beyond the last whole batch are not sent, as in the source.
- RpmbService.HandleRead: requires the frames to lie inside the buffer, which the source leaves to its caller; eMMC reads (a single ioctl), init and partition commands, SCSI command blocks and wake locks are not modelled.
- RpmbService.HandleWrite: requires the frames to lie inside the buffer, for the same reason.
- Supplicants.KillIsSafe: `qcomtee_object_process_one` is not part of this model beyond receive, serve, and exit on any error; one kill per worker, as `supplicant_release` sends; the 32-bit entry stub is not modelled.
- ObjectTables.ObjectTable.Add: requires a non-null object, since retaining the null object is a fault of the caller; allocation failure of the table, `ObjectTable_retrieveMemObj` and the copy in `ObjectTableMT.h` are not modelled.
- Teec.InvokeCommand: sizes the TEE writes back, and the conversion to MINK parameters, are not modelled; registered memory made by the caller is taken to be unmarked.
- Itoa.ItoaR: excludes LONG_MIN, whose negation leaves the type.
- File system listeners, sockets, credentials, CBOR and hashing, the Rust bindings and the build: system calls, foreign libraries or forwarders.
