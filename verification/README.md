# AVROS in Dafny

AVROS is a small message-passing microkernel for AVR microcontrollers whose
UNIX-like services run as server tasks. This project models the parts of it
whose state is linked queues, reference counts and blocked-client bookkeeping,
and proves what they keep over whole runs.

Each component has two halves. A *Spec* module gives the component as a
transition system on values: one function per request, with the branches, edge
cases and error returns of the C code. A class beside it is the component as
the C code writes it: arrays, queues and fields updated in place, search loops,
handshakes. Each of its methods is proved to do exactly what the transition
system says, so the run-level theorems, which are proved about the transition
system, hold of the class.

- **VFS, pipe device, memory disk**: `VfsSpec`, `VfsInvariant`, `VfsRun`,
  `VfsLeaks`, `VfsParked`, `VfsStreams`, `VfsLinks`, `VfsUndo`, `VfsTables`,
  `VfsHistory`, `VfsViews`, `VfsFiles`, `VfsAnswers`, `PipeSpec`, `RamDiskSpec`;
  classes in `VfsServer`, `PipeDevice`, `RamDisk`.
  Three levels of references (descriptor slots, open file descriptions, device
  inodes) and the HOLD / REPEAT / FINAL protocol. One VFS request, with its whole
  REPEAT handshake, is one step.
- **Kernel**: `KernelSpec`, `KernelInvariant`, `KernelRun`, `KernelOrder`,
  `KernelTop`, `KernelRpc`, `KernelLife`; class in `Kernel`. One step per kernel entry; each task's saved
  registers are an explicit status.
- **Process manager**: `PmSpec`, `PmInvariant`, `PmRun`, `PmWait`,
  `PmProgress`, `PmReports`; class in `ProcessManager`.
- **Heap**: `HeapSpec` (a list of chunks), `HeapBlocks` (the blocks in use);
  class in `Heap`, on headers linked through memory, with 16-bit sizes.
- **Shell descriptors**: `ShellSpec`, class in `Shell`, on `FdTable`, which
  `VfsTables` proves to be what the VFS does to a caller's table. `VfsViews`
  shows that, whatever other clients do, a client's descriptors change by its
  own requests only; `ShellOnVfs` follows whole command lines through runs of the
  VFS in this way, with the launching and executing tasks of each job coming and
  going as execute() makes them, and `ShellRoom` and `ShellLines` show that every
  line has such a run where there is room for its pipes.
- **Linked queue** (`LinkedQueue`), **timer server** (`TimerSpec`, `Timer`),
  **argument block** (`ArgStack`), shared vocabulary in `Common`.

## Where the code does not do what one would expect

Properties that fail are stated with the exact condition under which they hold.

- `pipe()` that runs out of descriptions or descriptors half way leaves the new
  inode with too many references: two minus the number of ends that were bound
  (`VfsLeaks.PipeLeaksExactly`). No run ever releases them
  (`VfsLeaks.LeakIsForEver`), and a run from start-up that gets there is
  `VfsLeaks.PipeCanLeak`. Driver counts are always at least the number of open
  descriptions; after a run they are equal if and only if every `pipe()` in it
  had room for two ends (`VfsLeaks.RunExact`). The reply of such a `pipe()` shares
  its storage with the driver's messages: with no end bound its caller reads the
  inode number in the place of the read end, and in the place of an unbound write
  end whatever was there before (`VfsServer.Server.DoPipe`).
- The pipe driver's VFS_UNLINK does not flush the queue, so unlinking a pipe with
  one reference leaves its clients parked (`PipeSpec.UnlinkCanStrand`); the
  commands that do are known exactly (`PipeSpec.QuietExactly`), and so is what
  can still release the clients: a request of the other kind, or a release that
  leaves one reference (`PipeSpec.ParkedUntil`). The modelled VFS requests never
  unlink a pipe.
- A `wait` that blocks can last for ever. It can be ended, in some run, if and
  only if a live child that it asks for runs, or waits with a chain of awaited
  children below it down to a process that runs (`PmProgress.BlockedWaitExactly`,
  `PmProgress.ReleasableExactly`). It fails for a `waitpid` that names no child
  (`PmProgress.WaitForStranger`), and also for one that names a live child which
  itself waits in vain (`PmProgress.WaitForStuckChild`).
- A process is deleted from the kernel before it becomes a zombie, so a new
  process can get its pid. A `waitpid` for a live child comes to wait for that
  child, and then reports its exit and nothing else, if and only if no zombie
  child of the caller has the same pid (`PmReports.WaitpidExactly`,
  `PmReports.AwaitedChild`); otherwise it returns at once with the zombie
  (`PmReports.OldChildReported`, in a state reached by
  `PmReports.NamesakesReached`).
- The size tests of `do_malloc` wrap around for requests near 64 KiB. The
  requests for which that does not matter are known exactly
  (`Heap.SoundExactly`); any other one gets a chunk that cannot hold it, or
  splits a chunk whose rest cannot hold a header (`Heap.UnsafeRequest`,
  `Heap.HugeRequest`).
- `delay(n)` with a negative n returns on tick n + 65536.
- A shell started with its standard input, output or error closed numbers its
  descriptors wrongly (`ShellSpec.StartUpExactly`).
- The running task need not be the one of highest priority: the scheduler only
  looks when nobody is running, so a task that sends to a waiting task of higher
  priority goes on running (`KernelTop.SenderKeepsRunning`). A kernel entry
  leaves nobody ready above the running task if and only if the runner leaves or
  what the entry makes ready does not outrank the one left running
  (`KernelTop.TopKeptExactly`).
- No task record may live at address 0xFFFF, the kernel's wildcard; the model
  assumes it.

## Model

| member | source | states |
|---|---|---|
| VfsInvariant.OpenDescriptorIsBacked | servers/vfs.c:447-478 | an open descriptor refers to a description with a positive count whose inode exists in its driver, so the drivers' unchecked `nodes[ino]` is safe |
| VfsInvariant.DupInv | servers/vfs.c:97-118 | dup keeps all counts in step on the three levels, also when it fails |
| VfsInvariant.MakePipeInv | servers/vfs.c:288-358 | pipe keeps them, wherever it stops |
| VfsInvariant.OpenInv | servers/vfs.c:364-400 | open keeps them, though it fills in the description before the driver has agreed |
| VfsInvariant.CloseInv | servers/vfs.c:406-441 | close keeps them, and releases the inode with the last reference only |
| VfsInvariant.TransferInv | servers/vfs.c:447-478 | a read or write of a registered client always finds its inode, and keeps the counts and the pipe queues in order |
| VfsInvariant.CloseFromInv | servers/vfs.c:522-525 | closing every descriptor of a task empties its table, keeps the invariant and leaves other tables alone |
| VfsInvariant.RemoveTaskInv | servers/vfs.c:515-528 | removing a task keeps the invariant |
| VfsInvariant.InheritInv | servers/vfs.c:569-574 | the child's table becomes its parent's, each description counted once more per slot |
| VfsInvariant.AddTaskInv | servers/vfs.c:535-576 | registration keeps the invariant, also when the parent is unknown and the new record is removed again |
| VfsInvariant.DiskCommandInv | drivers/ramdisk.c:101-126 | making, linking or unlinking an inode of the disk keeps the invariant and every reference count, and frees no inode that an open description names |
| VfsRun.BootInv | servers/vfs.c:582-596 | the state after vfs_init and the memory disk's start satisfies the invariant |
| VfsRun.StepInv | servers/vfs.c:613-676 | every request keeps the invariant |
| VfsRun.RunInv | servers/vfs.c:612-677 | in every run each description's count is the number of (task, descriptor) slots that hold it, each inode has at least one driver reference per open description, and no pipe with one reference and no link has a parked client |
| VfsRun.SeriousErrorIsUnreachable | servers/vfs.c:418-420 | no run reaches the "serious error" branch of close with a request of a client |
| VfsRun.SeriousErrorNotInRemoval | servers/vfs.c:522-525 | nor is it taken by any of the closes inside the removal of a task |
| VfsRun.AnsweredExactlyOnce | servers/vfs.c:659-676 | over any run: requests issued by a client, plus those parked before, equal answers it got plus those parked after |
| VfsParked.RunParkedOk | drivers/pipe.c:119-154 | with clients that ask nothing while they wait, every parked client is a registered task that has that very pipe open, and is parked once |
| VfsParked.WaitingIsParked | servers/vfs.c:673-676 | then the clients with an unanswered read or write are exactly the parked ones, each once |
| VfsParked.BootParkedOk | servers/vfs.c:582-596 | which all holds from start-up on, where nobody is parked |
| VfsParked.StepKeepsRow | servers/vfs.c:613-676 | a request changes no other task's descriptor table |
| VfsParked.HoldsKept | servers/vfs.c:613-676 | while one task's request is served no other task loses a pipe it has open |
| VfsStreams.StepIsPipeRun | servers/vfs.c:613-676 | what a request does to a pipe is a run of the pipe device's commands, and a read, write or close is answered with what these tell |
| VfsStreams.PipesAreOrdered | drivers/pipe.c:117-156 | in every run of the whole system, on each pipe since it was made or last flushed, the k-th accepted read has got the data of the k-th accepted write and so has that write, through whichever clients and descriptors they came |
| VfsLeaks.PipeLeaksExactly | servers/vfs.c:303-332 | after pipe the new inode has two references minus the ends bound too many, all other counts are untouched, and pipe succeeds if and only if two descriptions and two descriptors were free |
| VfsLeaks.MakePipeExact | servers/vfs.c:288-358 | pipe keeps driver counts exact if and only if it succeeds |
| VfsLeaks.StepExact | servers/vfs.c:613-676 | a request keeps driver counts equal to the open descriptions if it is no pipe() or has room for two ends |
| VfsLeaks.RunExact | servers/vfs.c:612-677 | after a run they are still equal if and only if every pipe() in it had room for two ends |
| VfsLeaks.StepSlack | servers/vfs.c:613-676 | every request but pipe() moves the driver's count and the open descriptions of each inode together |
| VfsLeaks.LeakIsForEver | servers/vfs.c:303-332 | references of a pipe that no description accounts for are there after every run, and so is the inode |
| VfsLeaks.PipeCanLeak | servers/vfs.c:322-332 | from start-up there is a run after which a pipe inode has two references and no description |
| VfsLeaks.ParkedMeansTwoEnds | drivers/pipe.c:88-102 | a parked client's pipe is still named by two open descriptions |
| VfsLeaks.NothingLeaks | drivers/pipe.c:104-116 | when all tasks are gone every description is free and every pipe inode destroyed |
| VfsLinks.LinkedInodeStays | drivers/ramdisk.c:136-149 | in every run of opens, closes, links and unlinks an inode is there as long as it has a link, with exactly the links made less those removed |
| VfsLinks.DiskInodeGoesExactly | drivers/ramdisk.c:113-149 | a step frees an inode if and only if it closed the last descriptor or removed a link, and neither references nor links are left |
| VfsLinks.OpenInodeStays | drivers/ramdisk.c:113-126 | in every run, unlinked or not, an inode named by an open description is there |
| VfsUndo.CloseUndoesDup | servers/vfs.c:97-118 | closing what dup returned restores the whole state and wakes nobody |
| VfsUndo.ForkInherits | servers/vfs.c:558-574 | registering a child adds one row equal to its parent's and raises each count by its number of slots |
| VfsUndo.RemoveUndoesFork | servers/vfs.c:515-528 | removing that child restores the whole state |
| VfsTables.PipeRow | servers/vfs.c:322-357 | a successful pipe is PipeFd with two descriptions nobody held, both on the same new inode |
| VfsViews.OthersKeepView | servers/vfs.c:613-676 | no request of one client changes the inodes that another client's descriptors name |
| VfsViews.OwnView | servers/vfs.c:613-676 | a client's own request changes them as that call does to a table on its own |
| VfsViews.PipeView | servers/vfs.c:288-358 | pipe() puts its inode in the two lowest closed descriptors its client sees and returns these; with less room it fails, in as many as there is room for, with the inode number in place of the first |
| VfsViews.OpenView | servers/vfs.c:364-400 | open() returns the lowest descriptor its client sees closed, where it then sees the inode asked for; or -1, if and only if no descriptor is closed, no description is free or the inode is missing, and then it sees what it saw |
| VfsViews.DupView | servers/vfs.c:97-118 | dup() returns the lowest closed descriptor, where its client then sees what it sees at the given one; or -1, if and only if that is not open or none is closed |
| VfsViews.RunView | servers/vfs.c:612-677 | between any two moments of any run, however the requests of other clients fall between its own, a client sees what its own calls, in their order, make of the table it saw at first |
| VfsFiles.WriteByte | drivers/ramdisk.c:151-161 | a write to the disk below position 127 stores its byte there as a signed char and nowhere else, ends the file behind it, is answered with its data and moves its description on by one; any other is answered EOF and changes nothing |
| VfsFiles.ReadByte | drivers/ramdisk.c:163-172 | a read from the disk below position 127 and the end of the file is answered with the byte there and moves its description on by one; any other is answered EOF and changes nothing |
| VfsFiles.OpensAtStart | servers/vfs.c:380-398 | open() gives a description that was free, at position 0, and changes no file |
| VfsFiles.FileReadBack | drivers/ramdisk.c:128-172 | open, write up to 127 bytes, open again and read: the reads give these bytes in order, as signed chars, and then EOF |
| VfsFiles.OthersKeepFiles | servers/vfs.c:613-676 | but for reads, writes and the disk's own commands no request changes what is in a file or where an open description stands |
| VfsAnswers.ClosedTellsEof | servers/vfs.c:447-456 | a read or write at a descriptor that is not open is answered EOF and changes nothing |
| VfsAnswers.RefusedExactly | drivers/pipe.c:119-126 | while driver counts are exact a read or write on a pipe is answered EOF at once if and only if no other description is open on that pipe |
| VfsAnswers.AddTaskTells | servers/vfs.c:535-576 | registration is answered with the pid, and the task is there with its parent's descriptors or none; or, with an unknown parent, with the null pid, and nothing has changed |
| VfsAnswers.MknodTells | drivers/ramdisk.c:40-57 | making an inode is answered with the number of one that was free and is now there, empty; or with -1 if none was |
| VfsAnswers.LinkTells | drivers/ramdisk.c:105-126 | linking or unlinking is answered with the inode's number, or with -1 if it is missing |
| VfsServer.Server.FindEmptyFilp | servers/vfs.c:66-75 | the lowest description without references, or -1 if there is none |
| VfsServer.Server.FindEmptyFd | servers/vfs.c:81-90 | the lowest closed descriptor, or -1 |
| VfsServer.Server.FindByPid | servers/vfs.c:499-509 | the first record of that pid, or none |
| VfsServer.Server.DoDup | servers/vfs.c:96-118 | the server's tables change as dup says, and so does the result |
| VfsServer.Server.DoPipe | servers/vfs.c:288-358 | the same for pipe with its three driver calls; its caller reads the descriptors bound, the inode number in place of an unbound read end, and its own bytes in place of an unbound write end |
| VfsServer.Server.DoOpen | servers/vfs.c:364-400 | the same for open |
| VfsServer.Server.DoClose | servers/vfs.c:406-441 | the same for close; the clients it releases are answered in queue order |
| VfsServer.Server.AnswerRepeats | servers/vfs.c:430-435 | the REPEAT loop tells every parked client EOF once, in order, empties the queue and leaves the driver idle |
| VfsServer.Server.TransferOnPipe | servers/vfs.c:465-474 | a pipe read or write, with the partner released in between, is one transfer step |
| VfsServer.Server.DoRw | servers/vfs.c:447-478 | the same for read and write, with the position moved by the bytes the driver reports |
| VfsServer.Server.AddNewTask | servers/vfs.c:535-576 | the same for registration |
| VfsServer.Server.RemoveByPid | servers/vfs.c:515-528 | the same for removal |
| VfsServer.Server.Serve | servers/vfs.c:613-676 | one turn of the dispatch loop is one step, keeps the invariant, answers a read or write unless the driver holds the client, and tells other clients their results |
| PipeDevice.Driver.FindEmptyNode | drivers/pipe.c:20-29 | the lowest free inode, or -1 |
| PipeDevice.Driver.Mknod | drivers/pipe.c:43-49 | a new inode without references, links or requests in that slot, no other touched |
| PipeDevice.Driver.UnlinkNode | drivers/pipe.c:59-72 | the table after VFS_UNLINK, and -1 for a missing inode |
| PipeDevice.Driver.GrabNode | drivers/pipe.c:74-80 | the table after VFS_INODE_GRAB, and -1 for a missing inode |
| PipeDevice.Driver.ReleaseNode | drivers/pipe.c:81-116 | what VFS_INODE_RELEASE does up to its first message: a REPEAT for the head of the queue when one reference is left, else its final answer |
| PipeDevice.Driver.TransferNode | drivers/pipe.c:117-153 | a request is held, refused with EOF, or matched with the head of the queue, which is told first |
| PipeDevice.Driver.Resume | drivers/pipe.c:98-100 | after each REPEAT the head leaves the queue, and the driver goes on flushing or finishes |
| PipeSpec.QuietExactly | drivers/pipe.c:59-116 | a command leaves somebody stranded on a detached pipe, or destroys an inode with parked clients, if and only if it is one of the stranding commands |
| PipeSpec.UnlinkCanStrand | drivers/pipe.c:59-72 | link, grab, read, unlink leaves the reader parked on a pipe with one reference |
| PipeSpec.ParkedUntil | drivers/pipe.c:52-156 | parked clients are told nothing if and only if no request of the other kind comes and no release leaves one reference; the first to be told is the head of the queue |
| PipeSpec.AnsweredExactlyOnce | drivers/pipe.c:86-155 | in every run of one inode without a stranding command each request is answered exactly once or still parked |
| PipeSpec.StreamOrder | drivers/pipe.c:117-156 | since the last flush the k-th accepted read and the k-th accepted write were paired and both told the data of that write, the queue holds requests of one kind, as many as the difference of accepted writes and reads, and whoever is told anything else is told EOF |
| RamDisk.Driver.GrabNode | drivers/ramdisk.c:128-134 | one inode gains a reference; -1 when it is missing |
| RamDisk.Driver.ReleaseNode | drivers/ramdisk.c:136-149 | one inode loses a reference, and is freed when no reference and no link is left |
| RamDisk.Driver.Write | drivers/ramdisk.c:151-161 | EOF from position 127 on; else the byte is stored as a signed char and the size becomes position + 1, even if that shortens the file |
| RamDisk.Driver.Read | drivers/ramdisk.c:163-172 | EOF from position 127 or the size on; else the byte |
| RamDisk.Driver.Mknod | drivers/ramdisk.c:40-57 | the lowest free slot gets an empty inode without references or links; -1 when there is none |
| RamDisk.Driver.LinkNode | drivers/ramdisk.c:105-111 | one inode gains a link; -1 when it is missing |
| RamDisk.Driver.UnlinkNode | drivers/ramdisk.c:113-126 | one inode loses a link, and is freed when no reference and no link is left; -1 when it is missing |
| KernelInvariant.StepInv | kernel/kernel.c:332-470 | every kernel entry keeps: live tasks are in exactly one queue, statuses fit the queue, idle can be dispatched, no two blocked tasks could exchange a message; and leaves exactly one task running |
| KernelInvariant.HandlePlaces | kernel/kernel.c:341-467 | a handler puts every live task in exactly one place and every other in none |
| KernelInvariant.SendRest | kernel/kernel.c:430-448 | send and sendrec create no missed rendezvous, also when the sender turns into a receiver without a new search |
| KernelInvariant.ReceiveRest | kernel/kernel.c:450-463 | nor does receive, also when the caller it serves turns into a receiver in place |
| KernelInvariant.HandleIdle | kernel/kernel.c:341-467 | the idle task stays running or ready |
| KernelInvariant.ScheduleInv | kernel/kernel.c:281-295 | the scheduler always leaves a task running |
| KernelRun.BootInv | kernel/kernel.c:301-326 | the queues at start-up satisfy the invariant |
| KernelRun.RunInv | kernel/kernel.c:328-470 | the invariant over every run |
| KernelRun.StepOrder | kernel/kernel.c:345-352 | a task behind another in a ready queue stays behind it until the other is dispatched |
| KernelRun.DispatchedInOrder | kernel/kernel.c:436-466 | over runs: before b runs, the task it waited behind has been dispatched |
| KernelOrder.YieldExactly | kernel/kernel.c:465-467 | after a yield every task that was ready at the runner's priority runs or stands before it, and the runner goes on if and only if nobody was ready at its priority or above |
| KernelOrder.YieldLetsRun | kernel/kernel.c:465-467 | over runs: a task that yields does not run again before every task that was ready at its priority has run |
| KernelOrder.EventExactly | kernel/kernel.c:341-355 | an event runs the first blocked task whose mask meets it, at once and with exactly its code; the interrupted task goes behind all others of its priority if that one asked for preemption, and before them if not |
| KernelOrder.IdleEvent | kernel/kernel.c:341-357 | an event that nobody waits for changes nothing |
| KernelOrder.PreemptedRunsLast | kernel/kernel.c:345-348 | over runs: a preempted task does not run again before every task that was ready at its priority has run |
| KernelOrder.InterruptedRunsFirst | kernel/kernel.c:349-351 | over runs: a task interrupted without preemption runs again before any of them |
| KernelOrder.NewcomersQueueLast | kernel/kernel.c:383-467 | but for events, whoever becomes ready queues behind all who were ready at its priority |
| KernelOrder.NobodyPassedOver | kernel/kernel.c:281-295 | when the running task gives way the next is of a higher priority than any other that was ready, or of the same and ahead of it |
| KernelOrder.BlockedOrder | kernel/kernel.c:341-463 | two tasks that stay blocked stay in their order |
| KernelOrder.BlocksAt | kernel/kernel.c:417-463 | a task that starts to wait for an event comes after all blocked tasks, one that blocks on a message before them |
| KernelOrder.ReceivesFromFirst | kernel/kernel.c:450-463 | of the blocked tasks that offer it a message a receiver is served by the first, which blocked last |
| KernelLife.BecomesDormant | kernel/kernel.c:363-400 | a created task has the priority asked for and is dormant; so is a stopped or set-up one, with the priority it had |
| KernelLife.DormantStays | kernel/kernel.c:214-256 | a dormant task hears and runs nothing until it is started |
| KernelLife.StartsReady | kernel/kernel.c:383-387 | starting a task makes it ready in the queue of its priority, and the one that starts it goes on |
| KernelLife.PriorityForLife | kernel/kernel.c:363-372 | a task has the priority it was created with in every run |
| KernelLife.ReadyUntouched | kernel/kernel.c:341-467 | what a ready task will resume with is not touched by any kernel entry |
| KernelLife.WaiterUntouched | kernel/kernel.c:214-223 | a task that waits for an event goes on waiting until one comes that meets its mask, or it is handled by its pid |
| KernelLife.GoesOnExactly | kernel/kernel.c:417-463 | a task goes on from send or receive if and only if that finds a partner, and never from sendrec, waitevent or exit |
| KernelLife.ManagerGoesOn | kernel/kernel.c:362-404 | creating, setting up, starting, stopping or deleting another task does not disturb the one that does it |
| KernelTop.TopKeptExactly | kernel/kernel.c:280-295 | from a state where nobody ready outranks the running task, a kernel entry leads to such a state if and only if the runner leaves or what it makes ready does not outrank the one left running |
| KernelTop.RunTop | kernel/kernel.c:332-470 | so it holds after any run of such entries |
| KernelTop.BootTop | kernel/kernel.c:315-326 | and it holds at start-up |
| KernelTop.SenderKeepsRunning | kernel/kernel.c:430-438 | a task of default priority that sends to a waiting task of high priority keeps running, with the other one ready |
| KernelRpc.DeliveryIsRendezvous | kernel/kernel.c:229-256 | a step delivers at most one message, which its sender offered to exactly this receiver, cut to the receiver's length and with the sender's pid; both leave the rendezvous at that moment |
| KernelRpc.BlockedUntilDelivery | kernel/kernel.c:430-463 | a blocked sender, caller or receiver that nobody restarts stays as it is until its own delivery, and what that does to it |
| KernelRpc.CallStarts | kernel/kernel.c:440-448 | a sendrec either has its message on offer or has just had it delivered to the named task |
| KernelRpc.CallIntegrity | kernel/kernel.c:440-463 | during a sendrec the only messages of its caller are one request to the named task and then one answer from it, and that answer is what the caller resumes with |
| Kernel.Machine.SendMsg | kernel/kernel.c:259-265 | the first blocked task that would receive from the sender, or none |
| Kernel.Machine.ReceiveMsg | kernel/kernel.c:268-274 | the first blocked task that offers a message to the receiver, or none |
| Kernel.Machine.DispatchEvent | kernel/kernel.c:214-223 | the first blocked task whose mask meets the event, or none |
| Kernel.Machine.DeliverMsg | kernel/kernel.c:229-256 | for two tasks that can meet, the statuses of both after the rendezvous and the message delivered; which two can meet is what SendMsg and ReceiveMsg search for |
| Kernel.Machine.Scheduler | kernel/kernel.c:280-295 | the queues after the scheduler's search |
| Kernel.Machine.HandleEvent | kernel/kernel.c:341-357 | the queues after an event: the waiter runs, the interrupted task goes to the front or, if preempted, to the end of its queue |
| Kernel.Machine.HandleSend | kernel/kernel.c:430-448 | the queues and statuses after send or sendrec |
| Kernel.Machine.HandleReceive | kernel/kernel.c:450-463 | the queues and statuses after receive |
| Kernel.Machine.Enter | kernel/kernel.c:332-470 | one turn of the kernel loop is one step and keeps the invariant |
| Kernel.Machine.constructor | kernel/kernel.c:300-326 | the queues after the idle task and the first user task have been made and one of them dispatched are those at start-up |
| PmInvariant.StepInv | servers/pm.c:546-586 | every request keeps: records in exactly one queue, parents live, no waiting process with a matching zombie child, distinct pids among live processes, an acyclic forest |
| PmInvariant.WaitInv | servers/pm.c:504-527 | wait keeps it |
| PmInvariant.DisownInv | servers/pm.c:466-470 | after the zombie children are removed and the others orphaned the exiting process has no children, itself unchanged |
| PmInvariant.DepartInv | servers/pm.c:472-498 | the rest of exit keeps it, whether the process vanishes, wakes its parent or becomes a zombie |
| PmRun.RunInv | servers/pm.c:546-586 | the invariant over every run |
| PmRun.ExitsAccountedFor | servers/pm.c:457-527 | over any run the exits of a parent's children with a given pid and code are those reported to that parent with that pid and code, those discarded by its own exit, and those still held by zombies |
| PmProgress.BlockedWaitExactly | servers/pm.c:517-526 | a wait that blocks can be ended in some run if and only if a live child that it asks for runs, or is at the top of a chain of awaited children down to a process that runs |
| PmProgress.ReleasableExactly | servers/pm.c:457-527 | a waiting process is released in some run if and only if a chain of awaited children leads from it to a process that runs |
| PmProgress.ExitsRelease | servers/pm.c:457-499 | given the chain, exits from its bottom up release the process at its top |
| PmProgress.StuckForEver | servers/pm.c:457-527 | without one, no run whatever releases it |
| PmWait.StepHope | servers/pm.c:457-527 | a step leaves a waiting process waiting, with a live child that it asks for if and only if it had one before, or releases it, and then it had one |
| PmWait.HopelessForEver | servers/pm.c:517-526 | a process without a live child that it asks for waits for ever, in every run |
| PmProgress.WaitForStranger | servers/pm.c:517-526 | a concrete waitpid for a process that is no child, while a child lives: the caller blocks and no run releases it |
| PmProgress.WaitForStuckChild | servers/pm.c:517-526 | a concrete waitpid for a live child that waits in vain, and a wait for any child beside it, that no run releases |
| PmProgress.WaitsProgress | servers/pm.c:457-527 | in every run of waits for any child or for live ones, each waiting process has a chain of awaited children down to a running one and can be released |
| PmReports.WaitpidExactly | servers/pm.c:504-527 | a waitpid for the pid of a live child comes to wait for that child if and only if no zombie child has the same pid; otherwise it is answered at once with a zombie |
| PmReports.AwaitedChild | servers/pm.c:472-491 | while it waits for a live child, every request either is that child's exit, which it is told with its code, or leaves it waiting for the same child and tells it nothing |
| PmReports.WaitpidUntil | servers/pm.c:457-527 | the same over runs |
| PmReports.AnswersExactly | servers/pm.c:457-527 | a wait is told that there is no child if and only if its caller has no live child and no zombie child that it asks for; an exit is told to the parent if and only if that waits for it; nobody else is told anything |
| PmReports.OldChildReported | servers/pm.c:461-464 | a concrete waitpid for a running child that is answered with the exit code of an earlier child of that pid |
| PmReports.NamesakesReached | servers/pm.c:461-498 | a run from start-up gets there |
| ProcessManager.Server.FindPid | servers/pm.c:140-150 | the first running record of that pid |
| ProcessManager.Server.FindZombieChild | servers/pm.c:167-177 | the first zombie child that the caller waits for |
| ProcessManager.Server.HasChild | servers/pm.c:155-161 | whether a queue holds a child of the caller |
| ProcessManager.Server.RemoveZombieChildren | servers/pm.c:194-202 | walking the queue while removing from it removes exactly the caller's children, keeps the order of the rest, and frees exactly their records |
| ProcessManager.Server.MakeOrphans | servers/pm.c:182-189 | exactly the caller's children in the queue lose their parent |
| ProcessManager.Server.Exit | servers/pm.c:457-499 | the queues, records and replies after exit |
| ProcessManager.Server.AwaitChild | servers/pm.c:504-527 | the queues, records and replies after wait |
| ProcessManager.Server.Serve | servers/pm.c:546-586 | one turn of the loop is one step and keeps the invariant |
| ProcessManager.Server.constructor | servers/pm.c:533-544 | the queues at start-up: one running process, without a parent |
| ArgStack.RegionsApart | servers/pm.c:319-331 | the strings lie after the pointer table, inside the block, one after the other |
| ArgStack.BlockAt | servers/pm.c:325-329 | where the i-th string is, that the i-th pointer points there, and that it ends with a zero |
| ArgStack.ReadBack | servers/pm.c:319-331 | reading the block through its pointers gives the same list of strings |
| ArgStack.Cook | servers/pm.c:319-331 | the loops fill a block of exactly pm_argstack_size bytes with that layout |
| HeapSpec.AllocInv | misc/malloc.c:7-40 | allocation keeps the chunks tiling the heap, larger than a header, no two neighbours free |
| HeapSpec.FreeInv | misc/malloc.c:43-59 | so does freeing |
| HeapSpec.FreeUndoesAlloc | misc/malloc.c:20-36 | freeing the block just allocated restores the identical list |
| HeapSpec.FailsExactly | misc/malloc.c:13-39 | a non-zero request fails if and only if no contiguous stretch of free chunks holds it with a header |
| HeapBlocks.UsedDisjoint | misc/malloc.c:20-36 | reserved chunks, with their headers, never overlap |
| HeapBlocks.AllocAddsBlock | misc/malloc.c:20-36 | allocation adds one large enough block and moves no other |
| HeapBlocks.AllocTakesFirst | misc/malloc.c:13-36 | the block is the start of the first free chunk that can hold it, larger than asked for by at most a header; what is split off is free |
| HeapBlocks.FreeRemovesBlock | misc/malloc.c:43-59 | freeing removes exactly one block and moves no other |
| HeapBlocks.RunInv | misc/malloc.c:7-59 | the shape after any allocations and frees |
| HeapBlocks.AllFreedIsInitial | misc/malloc.c:62-66 | after any run with nothing left in use the heap is the initial chunk |
| HeapBlocks.FreeAllInAnyOrder | misc/malloc.c:43-59 | freeing all live blocks, in any order, is always allowed and gets there |
| Heap.SoundExactly | misc/malloc.c:17-20 | the 16-bit size tests agree with the intended ones if and only if request and two headers fit in a size_t, or no chunk is free, or request and header fit and no free chunk is that large |
| Heap.UnsafeRequest | misc/malloc.c:17-35 | any other request reserves a chunk smaller than it with a header, or splits a chunk whose rest is smaller than a header |
| Heap.HugeRequest | misc/malloc.c:17-35 | a request for 65533 cells of a free chunk of 100 passes the size test and splits it |
| Heap.Allocator.DoMalloc | misc/malloc.c:7-40 | the walk over linked headers allocates first-fit, splits as the list model says, and returns the address after the header |
| Heap.Allocator.DoFree | misc/malloc.c:43-59 | marking a header and merging with two nested loops, which terminate, gives the coalesced list; NULL does nothing |
| Heap.HoldsSplit | misc/malloc.c:26-35 | writing the two headers of a split turns the memory image of the old list into that of the new |
| Heap.HoldsMerge | misc/malloc.c:53-55 | and one header write that of a merge |
| ShellSpec.JobPipeWires | usr/sh.c:238-246 | JOB_PIPE, given two descriptions for its pipe, always has two descriptors free for them, gives the job the previous pipe and its own, and keeps the new read end at 5 |
| ShellSpec.JobNoPipeWires | usr/sh.c:249-254 | JOB_NOPIPE gives the job the previous pipe and the shell's output, and JOB_INIT after it restores the prompt's table |
| ShellSpec.LineWires | usr/sh.c:296-335 | any line whose pipes get their descriptions can be carried out: job k writes to pipe k and job k+1 reads from it where they are joined by a pipe sign, all others use the shell's own input and output, and the table ends as it was |
| ShellSpec.LineDetermined | usr/sh.c:296-335 | from a given state a line goes one way only, so this is how every line goes |
| ShellSpec.ExecKeepsStandard | usr/sh.c:87-89 | a started job keeps its three standard descriptors and no other |
| ShellSpec.EndsHeldOnce | usr/sh.c:83-89 | each end of each pipe is held by exactly one descriptor of one job, and not by the shell once it is back at its prompt |
| ShellSpec.StartUpExactly | usr/sh.c:269-281 | the shell reaches its prompt in the right form if and only if its standard input, output and error are open, or it has no script and neither input nor output |
| ShellOnVfs.ForkView | servers/vfs.c:558-574 | a task registered with a parent sees what its parent sees, which does not change |
| ShellOnVfs.JobWires | usr/sh.c:171-197 | one job played on the VFS with any requests of other clients in between, through its launcher where execute() uses one: the job's task starts with the inodes it should have, and the shell is ready for the next job, whatever becomes of the tasks |
| ShellOnVfs.LineOnVfs | usr/sh.c:296-335 | in any run that plays a command line, the task of each job sees the inodes it should read and write from its start until it is removed or closes one of them itself |
| ShellOnVfs.PromptAgain | usr/sh.c:330-335 | after any line so played, whatever becomes of its tasks, the shell sees its prompt's table again |
| ShellOnVfs.JobsConnected | usr/sh.c:310-316 | two jobs joined by a pipe sign have one inode, that of the pipe, as output of the first and input of the second, each for as long as its task runs with it |
| ShellOnVfs.PipeHeld | usr/sh.c:238-246 | between the start of the two jobs the shell itself keeps that inode open, at descriptor 5 or 0 |
| ShellLines.JobCanStart | usr/sh.c:182-197 | a shell that is ready can start its next job and go on, the spawned task exiting while the shell waits for it; a job with a pipe needs two free descriptions and a pipe inode |
| ShellLines.LineCanBePlayed | usr/sh.c:296-335 | every command line has a run that plays it so, from any good state in which the shell is ready and there is room for the line's pipes |
| Shell.Session.JobPipe | usr/sh.c:238-246 | the close, dup and pipe calls in order have that effect |
| Shell.Session.RunLine | usr/sh.c:296-335 | the loop over the separators starts exactly the jobs of the line, wired so, and ends at the prompt |
| LinkedQueue.Queue.Front | lib/queue.c:28-42 | prepends, keeping every link, head and tail consistent |
| LinkedQueue.Queue.End | lib/queue.c:50-64 | appends |
| LinkedQueue.Queue.Remove | lib/queue.c:72-80 | unlinks a member; its own links still lead where they did |
| LinkedQueue.Queue.ForAll | lib/queue.c:93-105 | visits the items in order up to the first at which the callback stops, though callbacks unlink the item they are given |
| TimerSpec.DelayIsExact | servers/ts.c:67-76 | delay(0) is answered at once, delay(n) on exactly the n-th tick after it is queued, for negative n on tick n + 65536, once, whatever else is queued |
| TimerSpec.ReturnsWhenDue | servers/ts.c:142-158 | in any run the delays answered are exactly those due within its ticks |
| TimerSpec.UptimeCounts | servers/ts.c:149-155 | after k ticks the uptime shows, and a query is told, floor(k/30) seconds modulo a day |
| TimerSpec.SetTimeSets | servers/ts.c:149-168 | a clock set to u seconds of the day shows, and tells, after any run in which it is not set again, u and the seconds that have gone by, modulo a day |
| TimerSpec.HeldExactly | servers/ts.c:139-171 | every message is answered at once, but for a delay that has not passed |
| TimerSpec.AdvanceShowsNext | servers/ts.c:103-111 | the digits after one step are those of the next second |
| Timer.Server.ManageDelays | servers/ts.c:67-76 | a walk that removes expired entries as it goes decrements each entry once and releases exactly the expired ones in order |
| Timer.Server.Serve | servers/ts.c:142-172 | one message to the timer server is one step, its sender is told what the step says, and only a non-zero delay holds it |

## Left out

- Hardware and assembly (kernel/hal.c, misc/iom1284p.h, drivers/tty.c, the tick task): registers, context switches and interrupts are replaced by task statuses and by events as inputs.
- do_int of the VFS (servers/vfs.c:482-494): the terminal driver's interrupts are not part of the model.
- VFS_STAT, VFS_MKDEV, path lookup, the directory entries that VFS_MKNOD reads and writes, and the root and working directory fields: unfinished in the source; the devices are fixed, 0 the pipe device and 1 the memory disk. The commands that VFS_MKNOD ends in, making and linking an inode, are modelled, and so is unlinking, as requests passed on to the memory disk at any time.
- VfsServer.Server.Serve: the number that close() reports (servers/vfs.c:426-436) is not modelled, because the release message overwrites the union that holds it, nor is what a removal reports; only their effects are.
- PipeDevice.Driver.Mknod: with a full table the source writes in front of it (drivers/pipe.c:44-45), which has no meaning in the model; a free inode is required.
- Running out of kernel memory, out-of-range descriptors and inodes, requests of unregistered clients, a full pipe inode table, and overflow of the `char` counts (at most 127 references): taken as preconditions, and counts are unbounded integers.
- Disk contents beyond bytes, size and position: directories are not interpreted.
- Queue links inside the servers: their queues are sequences; that the linked queue behaves as one is proved once, in LinkedQueue.
- LinkedQueue.Queue.ForAll: the callback is modelled by the set of items it unlinks and the set at which it stops, because a C function pointer has no counterpart; it does not add items.
- VfsRun.StepInv: one request with all its device messages is one step, because the VFS does nothing else while it waits in sendrec; interleaving inside a request is not modelled.
- VfsParked.RunParkedOk: assumes that a client waiting for an answer asks nothing and is not removed, and that a task is registered once, which the kernel and the process manager see to.
- KernelSpec: the page and stack of a task, kernel malloc and free, and interrupt enabling touch no queue and are one step that does nothing; a stopped task's freed context is taken to match no message and no event until it is set up again.
- KernelRpc.DeliveryIsRendezvous: a receiver whose buffer is longer than the message gets the message; the bytes that the source copies from beyond the sender's buffer are not modelled.
- Process manager chunks (do_pmalloc, do_pmfree), exec and the calls to the kernel and the VFS inside spawn and exit: they touch no queue of the process manager; a request that keeps the queues is one action.
- A process that exits or is replaced while parked on a pipe, across the process manager and the VFS together: each server is modelled alone.
- Heap.Allocator.DoMalloc: requires a safe request, because any other one makes the source hand out a block that is too small or write a header over its neighbour; Heap.SoundExactly and Heap.UnsafeRequest say which these are and what they do. Block contents are not modelled, and a header is 5 bytes as on the target.
- Kernel.Machine.DeliverMsg: the matching that decides whether two tasks meet is in the searches, Kernel.Machine.SendMsg and Kernel.Machine.ReceiveMsg.
- ShellOnVfs.LineOnVfs: a job is its shell's calls in order and the registrations and removals of its tasks; the messages between shell, process manager and VFS that bring these about, and the redirections that exec_job makes by closing a standard descriptor, are not modelled.
- ArgStack.Cook: pointers are two bytes, low byte first, as on the target, and the block lies below address 65536.
- Shell parsing, redirection, built-in commands, comments and backslashes (usr/sh.c:296-306): a line is its separators, and jobs are opaque.
- servers/ex.c, servers/sema.c, usr/apps.c, usr/init.c, usr/lib/mstdlib.c, main.c: easy queue clients, user programs and start-up that add no hard member.
