// Clients parked in pipe queues, when clients behave as the kernel makes them:
// a client waiting for its answer asks nothing, and is not removed.
module VfsParked {
  import opened Common
  import opened FdTable
  import opened VfsSpec
  import opened VfsInvariant
  import opened VfsRun
  import P = PipeSpec
  import R = RamDiskSpec

  predicate Disciplined(s: Sys, q: Req) {
    if q.AddReq? then FindTask(s.tasks, q.pid) < 0 else ParkedIn(s.pipe, q.pid) == 0
  }

  ghost predicate HoldsAt(s: Sys, k: nat, fd: nat, p: Pid, ino: int)
    requires Shape(s)
  {
    && k < |s.tasks| && fd < MAX_FD
    && s.tasks[k].pid == p
    && 0 <= s.tasks[k].fd[fd]
    && s.filps[s.tasks[k].fd[fd]].dev == PIPE_DEV
    && s.filps[s.tasks[k].fd[fd]].ino == ino
  }

  // Task `p` has a descriptor open on pipe `ino`.
  ghost predicate Holds(s: Sys, p: Pid, ino: int)
    requires Shape(s)
  {
    exists k: nat, fd: nat :: HoldsAt(s, k, fd, p, ino)
  }

  // Each parked client is a registered task with the pipe open, and is parked
  // only once.
  ghost predicate ParkedOk(s: Sys)
    requires Shape(s)
  {
    && (forall ino, i | 0 <= ino < MAX_INO && s.pipe[ino].Some? && 0 <= i < |s.pipe[ino].value.msgs| ::
          Holds(s, s.pipe[ino].value.msgs[i].client, ino))
    && (forall p :: ParkedIn(s.pipe, p) <= 1)
  }

  // ----- descriptions keep their inode while they are open -----

  ghost predicate SameNames(a: seq<Filp>, b: seq<Filp>) {
    |a| == |b| && forall f | 0 <= f < |a| :: b[f].dev == a[f].dev && b[f].ino == a[f].ino
  }

  ghost predicate OpenNamesKept(a: seq<Filp>, b: seq<Filp>) {
    |a| == |b| && forall f | 0 <= f < |a| && a[f].refcnt != 0 :: b[f].dev == a[f].dev && b[f].ino == a[f].ino
  }

  lemma {:induction false} CloseFromNames(s: Sys, k: nat, fd: nat)
    requires Shape(s) && k < |s.tasks| && fd <= MAX_FD
    ensures SameNames(s.filps, CloseFrom(s, k, fd).0.filps)
    decreases MAX_FD - fd
  {
    if fd < MAX_FD {
      CloseFromNames(Close(s, k, fd).sys, k, fd + 1);
    }
  }

  lemma {:induction false} InheritNames(s: Sys, child: nat, table: Table, fd: nat)
    requires Shape(s) && child < |s.tasks| && IsTable(table) && fd <= MAX_FD
    requires forall i | 0 <= i < MAX_FD :: table[i] < MAX_FILP
    ensures SameNames(s.filps, Inherit(s, child, table, fd).filps)
    decreases MAX_FD - fd
  {
    if fd < MAX_FD {
      var t := if table[fd] < 0 then s else AddRef(SetFd(s, child, fd, table[fd]), table[fd], 1);
      InheritNames(t, child, table, fd + 1);
    }
  }

  lemma RemoveTaskNames(s: Sys, pid: Pid)
    requires Shape(s)
    ensures SameNames(s.filps, RemoveTask(s, pid).sys.filps)
  {
    var k := FindTask(s.tasks, pid);
    if 0 <= k {
      CloseFromNames(s, k, 0);
    }
  }

  lemma AddTaskNames(s: Sys, pid: Pid, parent: Pid)
    requires Inv(s)
    ensures SameNames(s.filps, AddTask(s, pid, parent).sys.filps)
  {
    EmptyTableInv(s, pid);
    var s0 := WithTask(s, pid);
    var j := FindTask(s0.tasks, parent);
    if parent != NULL_PID {
      if j < 0 { RemoveTaskNames(s0, pid); } else { InheritNames(s0, |s.tasks|, s0.tasks[j].fd, 0); }
    }
  }

  lemma MakePipeNames(s: Sys, k: nat)
    requires Shape(s) && k < |s.tasks| && 0 <= P.FreeInode(s.pipe)
    ensures OpenNamesKept(s.filps, MakePipe(s, k).sys.filps)
  {
  }

  lemma OpenNames(s: Sys, k: nat, dev: int, ino: int)
    requires Shape(s) && k < |s.tasks| && IsInode(dev, ino)
    ensures OpenNamesKept(s.filps, Open(s, k, dev, ino).sys.filps)
  {
  }

  lemma TransferNames(s: Sys, k: nat, fd: int, r: P.Request)
    requires Shape(s) && k < |s.tasks| && fd < MAX_FD && Reachable(s, k, fd)
    ensures SameNames(s.filps, Transfer(s, k, fd, r).sys.filps)
    ensures Transfer(s, k, fd, r).sys.tasks == s.tasks
  {
  }

  lemma StepKeepsOpenNames(s: Sys, q: Req)
    requires Inv(s) && Callable(s, q)
    ensures OpenNamesKept(s.filps, Step(s, q).0.filps)
  {
    var k := FindTask(s.tasks, q.pid);
    match q
    case AddReq(pid, parent) => AddTaskNames(s, pid, parent);
    case DelReq(pid) => RemoveTaskNames(s, pid);
    case DiskReq(_, _) =>
    case PipeReq(_) => MakePipeNames(s, k);
    case OpenReq(_, dev, ino) => OpenNames(s, k, dev, ino);
    case RwReq(pid, fd, kind, data) =>
      TransferInv(s, k, fd, P.Request(kind, pid, data));
      TransferNames(s, k, fd, P.Request(kind, pid, data));
    case DupReq(_, fd) =>
    case CloseReq(_, fd) =>
  }

  // ----- rows of other tasks are kept -----

  lemma RowAfterRemoval(tasks: seq<Task>, r: nat, k: nat) returns (j: nat)
    requires r < |tasks| && k < |tasks| && k != r
    ensures j < |tasks| - 1 && (tasks[..r] + tasks[r + 1..])[j] == tasks[k]
  {
    j := if k < r then k else k - 1;
  }

  lemma RemoveTaskRow(s: Sys, pid: Pid, k: nat) returns (j: nat)
    requires Inv(s) && k < |s.tasks| && s.tasks[k].pid != pid
    ensures var t := RemoveTask(s, pid).sys;
            j < |t.tasks| && t.tasks[j] == s.tasks[k]
  {
    var r := FindTask(s.tasks, pid);
    RemoveTaskIs(s, pid);
    if r < 0 {
      j := k;
    } else {
      CloseFromInv(s, r, 0);
      j := RowAfterRemoval(CloseFrom(s, r, 0).0.tasks, r, k);
    }
  }

  lemma AddTaskRow(s: Sys, pid: Pid, parent: Pid, k: nat) returns (j: nat)
    requires Inv(s) && k < |s.tasks| && s.tasks[k].pid != pid
    ensures var t := AddTask(s, pid, parent).sys;
            j < |t.tasks| && t.tasks[j] == s.tasks[k]
  {
    j := k;
    EmptyTableInv(s, pid);
    var s0 := WithTask(s, pid);
    if parent != NULL_PID {
      var b := FindTask(s0.tasks, parent);
      if b < 0 {
        j := RemoveTaskRow(s0, pid, k);
      } else {
        OpenDescriptorsAreBacked(s0, b);
        InheritInv(s0, |s.tasks|, s0.tasks[b].fd, 0);
      }
    }
  }

  lemma StepKeepsRow(s: Sys, q: Req, k: nat) returns (j: nat)
    requires Inv(s) && Callable(s, q) && k < |s.tasks| && s.tasks[k].pid != q.pid
    ensures var t := Step(s, q).0;
            j < |t.tasks| && t.tasks[j] == s.tasks[k]
  {
    j := k;
    var a := FindTask(s.tasks, q.pid);
    match q {
      case AddReq(pid, parent) =>
        j := AddTaskRow(s, pid, parent, k);
      case DelReq(pid) =>
        j := RemoveTaskRow(s, pid, k);
      case CloseReq(_, fd) =>
        if 0 <= fd { CloseTable(s, a, fd); }
      case RwReq(pid, fd, kind, data) =>
        TransferInv(s, a, fd, P.Request(kind, pid, data));
        TransferNames(s, a, fd, P.Request(kind, pid, data));
      case _ =>
    }
  }

  lemma HoldsKept(s: Sys, q: Req, p: Pid, ino: int)
    requires Inv(s) && Callable(s, q) && p != q.pid && Holds(s, p, ino)
    ensures Shape(Step(s, q).0) && Holds(Step(s, q).0, p, ino)
  {
    StepInv(s, q);
    var t := Step(s, q).0;
    var k: nat, fd: nat :| HoldsAt(s, k, fd, p, ino);
    var j := StepKeepsRow(s, q, k);
    OpenDescriptorIsBacked(s, k, fd);
    StepKeepsOpenNames(s, q);
    assert HoldsAt(t, j, fd, p, ino);
  }

  // ----- where queued requests come from -----

  lemma {:induction false} CloseFromQueues(s: Sys, k: nat, fd: nat)
    requires Shape(s) && k < |s.tasks| && fd <= MAX_FD
    ensures QueuesShrink(s.pipe, CloseFrom(s, k, fd).0.pipe)
    decreases MAX_FD - fd
  {
    if fd < MAX_FD {
      CloseFromQueues(Close(s, k, fd).sys, k, fd + 1);
    }
  }

  ghost predicate QueuesShrink(a: seq<Option<P.Node>>, b: seq<Option<P.Node>>) {
    && |a| == |b|
    && forall ino | 0 <= ino < |a| && b[ino].Some? && b[ino].value.msgs != [] ::
         a[ino].Some? && b[ino].value.msgs == a[ino].value.msgs
  }

  lemma RemoveTaskQueues(s: Sys, pid: Pid)
    requires Shape(s)
    ensures QueuesShrink(s.pipe, RemoveTask(s, pid).sys.pipe)
  {
    var k := FindTask(s.tasks, pid);
    RemoveTaskIs(s, pid);
    if 0 <= k {
      CloseFromQueues(s, k, 0);
    }
  }

  lemma AddTaskQueues(s: Sys, pid: Pid, parent: Pid)
    requires Inv(s)
    ensures QueuesShrink(s.pipe, AddTask(s, pid, parent).sys.pipe)
  {
    EmptyTableInv(s, pid);
    var s0 := WithTask(s, pid);
    var j := FindTask(s0.tasks, parent);
    if parent != NULL_PID {
      if j < 0 { RemoveTaskQueues(s0, pid); } else { InheritPipe(s0, |s.tasks|, s0.tasks[j].fd, 0); }
    }
  }

  lemma OneCallQueues(s: Sys, k: nat)
    requires Shape(s) && k < |s.tasks|
    ensures forall fd | fd < MAX_FD :: QueuesShrink(s.pipe, Close(s, k, fd).sys.pipe)
    ensures 0 <= P.FreeInode(s.pipe) ==> QueuesShrink(s.pipe, MakePipe(s, k).sys.pipe)
  {
  }

  lemma OpenQueues(s: Sys, k: nat, dev: int, ino: int)
    requires Shape(s) && k < |s.tasks| && IsInode(dev, ino)
    ensures QueuesShrink(s.pipe, Open(s, k, dev, ino).sys.pipe)
  {
  }

  lemma StepQueues(s: Sys, q: Req)
    requires Inv(s) && Callable(s, q) && !q.RwReq?
    ensures QueuesShrink(s.pipe, Step(s, q).0.pipe)
  {
    match q
    case AddReq(pid, parent) => AddTaskQueues(s, pid, parent);
    case DelReq(pid) => RemoveTaskQueues(s, pid);
    case DiskReq(_, _) =>
    case DupReq(_, _) =>
    case CloseReq(_, fd) => OneCallQueues(s, FindTask(s.tasks, q.pid));
    case PipeReq(_) => OneCallQueues(s, FindTask(s.tasks, q.pid));
    case OpenReq(_, dev, ino) => OpenQueues(s, FindTask(s.tasks, q.pid), dev, ino);
  }

  lemma {:induction false} QueuedIsParked(pipe: seq<Option<P.Node>>, ino: nat, i: nat)
    requires ino < |pipe| && pipe[ino].Some? && i < |pipe[ino].value.msgs|
    ensures 0 < ParkedIn(pipe, pipe[ino].value.msgs[i].client)
  {
    if ino > 0 {
      QueuedIsParked(pipe[1..], ino - 1, i);
    } else {
      QueuedCounts(pipe[0].value.msgs, i);
    }
  }

  lemma {:induction false} QueuedCounts(msgs: seq<P.Request>, i: nat)
    requires i < |msgs|
    ensures 0 < P.Parked(msgs, msgs[i].client)
  {
    if i > 0 {
      QueuedCounts(msgs[1..], i - 1);
    }
  }

  // An earlier queued request still has its descriptor after the step.
  lemma OldRequestHolds(s: Sys, q: Req, ino: nat, i: nat)
    requires Inv(s) && ParkedOk(s) && Callable(s, q) && Disciplined(s, q)
    requires ino < MAX_INO && s.pipe[ino].Some? && i < |s.pipe[ino].value.msgs|
    ensures Shape(Step(s, q).0) && Holds(Step(s, q).0, s.pipe[ino].value.msgs[i].client, ino)
  {
    var p := s.pipe[ino].value.msgs[i].client;
    QueuedIsParked(s.pipe, ino, i);
    assert Holds(s, p, ino);
    var k: nat, fd: nat :| HoldsAt(s, k, fd, p, ino);
    assert p != q.pid;
    HoldsKept(s, q, p, ino);
  }

  lemma RwHolds(s: Sys, q: Req, ino: nat, i: nat)
    requires Inv(s) && ParkedOk(s) && Callable(s, q) && Disciplined(s, q) && q.RwReq?
    requires Inv(Step(s, q).0)
    requires var t := Step(s, q).0;
             ino < MAX_INO && t.pipe[ino].Some? && i < |t.pipe[ino].value.msgs|
    ensures var t := Step(s, q).0;
            Holds(t, t.pipe[ino].value.msgs[i].client, ino)
  {
    var t := Step(s, q).0;
    var k := FindTask(s.tasks, q.pid);
    var r := P.Request(q.kind, q.pid, q.data);
    TransferInv(s, k, q.fd, r);
    var m := t.pipe[ino].value.msgs[i];
    if s.pipe[ino].Some? && m in s.pipe[ino].value.msgs {
      var j :| 0 <= j < |s.pipe[ino].value.msgs| && s.pipe[ino].value.msgs[j] == m;
      OldRequestHolds(s, q, ino, j);
    } else {
      assert m == r;
      assert HoldsAt(t, k, q.fd, q.pid, ino);
    }
  }

  lemma StepParkedOk(s: Sys, q: Req)
    requires Inv(s) && ParkedOk(s) && Callable(s, q) && Disciplined(s, q)
    ensures Inv(Step(s, q).0) && ParkedOk(Step(s, q).0)
  {
    StepInv(s, q);
    var t := Step(s, q).0;
    forall ino, i | 0 <= ino < MAX_INO && t.pipe[ino].Some? && 0 <= i < |t.pipe[ino].value.msgs|
      ensures Holds(t, t.pipe[ino].value.msgs[i].client, ino)
    {
      if q.RwReq? {
        RwHolds(s, q, ino, i);
      } else {
        StepQueues(s, q);
        OldRequestHolds(s, q, ino, i);
      }
    }
    forall p ensures ParkedIn(t.pipe, p) <= 1 {
      StepConserves(s, q, p);
    }
  }

  ghost predicate AllDisciplined(s: Sys, qs: seq<Req>)
    requires Inv(s) && Runnable(s, qs)
    decreases |qs|
  {
    qs == [] || (Disciplined(s, qs[0]) && (StepInv(s, qs[0]); AllDisciplined(Step(s, qs[0]).0, qs[1..])))
  }

  /** In every run of disciplined clients, the clients whose last read or write
      has not been answered are exactly the ones parked in a pipe queue, each
      once, and each has that pipe open. */
  lemma {:induction false} WaitingIsParked(s: Sys, qs: seq<Req>, p: Pid)
    requires Inv(s) && ParkedOk(s) && Runnable(s, qs) && AllDisciplined(s, qs)
    requires ParkedIn(s.pipe, p) == 0
    ensures var (t, replies) := Run(s, qs);
            && Inv(t) && ParkedOk(t)
            && Issued(qs, p) - P.Answered(replies, p) == ParkedIn(t.pipe, p) <= 1
  {
    RunParkedOk(s, qs);
    AnsweredExactlyOnce(s, qs, p);
  }

  lemma {:induction false} RunParkedOk(s: Sys, qs: seq<Req>)
    requires Inv(s) && ParkedOk(s) && Runnable(s, qs) && AllDisciplined(s, qs)
    ensures Inv(Run(s, qs).0) && ParkedOk(Run(s, qs).0)
    decreases |qs|
  {
    if qs != [] {
      StepParkedOk(s, qs[0]);
      RunParkedOk(Step(s, qs[0]).0, qs[1..]);
    }
  }

  /** At start-up nobody is parked. */
  lemma {:induction false} BootParkedOk(root: R.File)
    requires R.IsFile(root) && 0 <= root.refcnt
    ensures Inv(Boot(root)) && ParkedOk(Boot(root))
  {
    BootInv(root);
    forall p ensures ParkedIn(Boot(root).pipe, p) == 0 {
      NobodyParked(Boot(root).pipe, p);
    }
  }

  lemma {:induction false} NobodyParked(pipe: seq<Option<P.Node>>, p: Pid)
    requires forall i | 0 <= i < |pipe| :: pipe[i].None?
    ensures ParkedIn(pipe, p) == 0
  {
    if pipe != [] {
      NobodyParked(pipe[1..], p);
    }
  }
}
