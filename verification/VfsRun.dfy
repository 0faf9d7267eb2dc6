// Runs of the VFS server: any sequence of requests from any clients.
module VfsRun {
  import opened Common
  import opened FdTable
  import opened VfsSpec
  import opened VfsInvariant
  import P = PipeSpec
  import R = RamDiskSpec

  datatype Req =
    | DupReq(pid: Pid, fd: int)
    | PipeReq(pid: Pid)
    | OpenReq(pid: Pid, dev: int, ino: int)
    | CloseReq(pid: Pid, fd: int)
    | RwReq(pid: Pid, fd: int, kind: P.Kind, data: int)
    | AddReq(pid: Pid, parent: Pid)
    | DelReq(pid: Pid)
    | DiskReq(pid: Pid, cmd: R.Cmd)   // passed on to the memory disk

  // What the server assumes of a request: the client is registered, and
  // descriptors, devices and inodes are in range.
  predicate Callable(s: Sys, q: Req) {
    match q
    case AddReq(_, _) => true
    case DelReq(_) => true
    case DiskReq(_, c) => c.Mknod? || c.ino < MAX_INO
    case OpenReq(pid, dev, ino) => 0 <= FindTask(s.tasks, pid) && IsInode(dev, ino)
    case PipeReq(pid) => 0 <= FindTask(s.tasks, pid) && 0 <= P.FreeInode(s.pipe)
    case _ => 0 <= FindTask(s.tasks, q.pid) && q.fd < MAX_FD
  }

  ghost function Step(s: Sys, q: Req): (Sys, seq<P.Reply>)
    requires Inv(s) && Callable(s, q)
  {
    var k := FindTask(s.tasks, q.pid);
    match q
    case DupReq(_, fd) => (Dup(s, k, fd).sys, [])
    case PipeReq(_) => (MakePipe(s, k).sys, [])
    case OpenReq(_, dev, ino) => (Open(s, k, dev, ino).sys, [])
    case CloseReq(_, fd) => var o := Close(s, k, fd); (o.sys, o.replies)
    case RwReq(pid, fd, kind, data) =>
      TransferInv(s, k, fd, P.Request(kind, pid, data));
      var o := Transfer(s, k, fd, P.Request(kind, pid, data));
      (o.sys, o.replies)
    case AddReq(pid, parent) => var o := AddTask(s, pid, parent); (o.sys, o.replies)
    case DelReq(pid) => var o := RemoveTask(s, pid); (o.sys, o.replies)
    case DiskReq(_, c) => (DiskCommand(s, c), [])
  }

  // What a request's own client is told when its turn is over.  Reads and
  // writes have theirs among the replies of the step; the number that close
  // and removal report is not modelled.  pipe() tells None in place of a
  // write end that it has not bound: there the client finds its own bytes.
  datatype Answer = Told | Number(value: int) | Ends(result: int, fdi: int, fdo: Option<int>) | Among

  ghost function AnswerTo(s: Sys, q: Req): Answer
    requires Inv(s) && Callable(s, q)
  {
    var k := FindTask(s.tasks, q.pid);
    match q
    case DupReq(_, fd) => Number(Dup(s, k, fd).result)
    case PipeReq(_) => var o := MakePipe(s, k); Ends(o.result, o.fdi, o.fdo)
    case OpenReq(_, dev, ino) => Number(Open(s, k, dev, ino).result)
    case AddReq(pid, parent) => Number(AddTask(s, pid, parent).result)
    case DiskReq(_, c) => Number(R.Command(s.disk, c).1)
    case RwReq(_, _, _, _) => Among
    case CloseReq(_, _) => Told
    case DelReq(_) => Told
  }

  lemma StepInv(s: Sys, q: Req)
    requires Inv(s) && Callable(s, q)
    ensures Inv(Step(s, q).0)
  {
    var k := FindTask(s.tasks, q.pid);
    match q
    case DupReq(_, fd) => DupInv(s, k, fd);
    case PipeReq(_) => MakePipeInv(s, k);
    case OpenReq(_, dev, ino) => OpenInv(s, k, dev, ino);
    case CloseReq(_, fd) => CloseInv(s, k, fd);
    case RwReq(pid, fd, kind, data) => TransferInv(s, k, fd, P.Request(kind, pid, data));
    case AddReq(pid, parent) => AddTaskInv(s, pid, parent);
    case DelReq(pid) => RemoveTaskInv(s, pid);
    case DiskReq(_, c) => DiskCommandInv(s, c);
  }

  // After vfs_init and memfile's start: no tasks, no pipes, and a memory disk
  // holding only its root directory.
  function Boot(root: R.File): Sys {
    Sys(seq(MAX_FILP, _ => Filp(0, 0, 0, 0)), [],
        seq(MAX_INO, _ => None), seq(MAX_INO, i => if i == 0 then Some(root) else None))
  }

  lemma BootInv(root: R.File)
    requires R.IsFile(root) && 0 <= root.refcnt
    ensures Inv(Boot(root))
  {
    var s := Boot(root);
    assert Shape(s);
    forall dev, ino | IsInode(dev, ino) ensures Names(s.filps, dev, ino) == 0 {
      NoNames(s.filps, dev, ino);
    }
  }

  lemma {:induction false} NoNames(filps: seq<Filp>, dev: int, ino: int)
    requires forall f | 0 <= f < |filps| :: filps[f].refcnt == 0
    ensures Names(filps, dev, ino) == 0
  {
    if filps != [] {
      NoNames(filps[1..], dev, ino);
    }
  }

  // ----- runs -----

  ghost predicate Runnable(s: Sys, qs: seq<Req>)
    requires Inv(s)
    decreases |qs|
  {
    qs == [] || (Callable(s, qs[0]) && (StepInv(s, qs[0]); Runnable(Step(s, qs[0]).0, qs[1..])))
  }

  // The final state and every readc()/writec() answer sent on the way.
  ghost function Run(s: Sys, qs: seq<Req>): (Sys, seq<P.Reply>)
    requires Inv(s) && Runnable(s, qs)
    decreases |qs|
  {
    if qs == [] then (s, [])
    else
      StepInv(s, qs[0]);
      var (t, now) := Step(s, qs[0]);
      var (u, later) := Run(t, qs[1..]);
      (u, now + later)
  }

  /** In every run from every good state: each description is counted once per
      slot that holds it, each inode has at least one driver reference per open
      description, and nobody is parked on a pipe with one reference left. */
  lemma {:induction false} RunInv(s: Sys, qs: seq<Req>)
    requires Inv(s) && Runnable(s, qs)
    ensures Inv(Run(s, qs).0)
    decreases |qs|
  {
    if qs != [] {
      StepInv(s, qs[0]);
      RunInv(Step(s, qs[0]).0, qs[1..]);
    }
  }

  /** The branch of do_close for a description without references is dead code
      in every run. */
  lemma {:induction false} SeriousErrorIsUnreachable(s: Sys, qs: seq<Req>, k: nat, fd: nat)
    requires Inv(s) && Runnable(s, qs)
    requires k < |Run(s, qs).0.tasks| && fd < MAX_FD
    ensures var t := Run(s, qs).0;
            Inv(t) && (0 <= t.tasks[k].fd[fd] ==> t.filps[t.tasks[k].fd[fd]].refcnt != 0)
  {
    RunInv(s, qs);
    OpenDescriptorsAreBacked(Run(s, qs).0, k);
  }

  // Task `k` on its way out: descriptors below `n` have been closed.
  ghost function ClosedBelow(s: Sys, k: nat, n: nat): (t: Sys)
    requires Inv(s) && k < |s.tasks| && n <= MAX_FD
    ensures Shape(t) && |t.tasks| == |s.tasks|
  {
    if n == 0 then s else Close(ClosedBelow(s, k, n - 1), k, n - 1).sys
  }

  lemma {:induction false} ClosedBelowInv(s: Sys, k: nat, n: nat)
    requires Inv(s) && k < |s.tasks| && n <= MAX_FD
    ensures var t := ClosedBelow(s, k, n);
            && Inv(t) && (forall i | n <= i < MAX_FD :: t.tasks[k].fd[i] == s.tasks[k].fd[i])
            && CloseFrom(s, k, 0).0 == CloseFrom(t, k, n).0
  {
    if n > 0 {
      ClosedBelowInv(s, k, n - 1);
      var t := ClosedBelow(s, k, n - 1);
      CloseInv(t, k, n - 1);
      CloseTable(t, k, n - 1);
      CloseFromFirst(t, k, n - 1);
    }
  }

  /** Nor is it taken inside a removal: every close on the way finds the
      descriptor as the task left it, and its description with a reference. */
  lemma {:induction false} SeriousErrorNotInRemoval(s: Sys, k: nat, n: nat)
    requires Inv(s) && k < |s.tasks| && n < MAX_FD
    ensures var t := ClosedBelow(s, k, n);
            && Inv(t) && t.tasks[k].fd[n] == s.tasks[k].fd[n]
            && (0 <= t.tasks[k].fd[n] ==> t.filps[t.tasks[k].fd[n]].refcnt != 0)
            && CloseFrom(s, k, 0).0 == CloseFrom(t, k, n).0
  {
    ClosedBelowInv(s, k, n);
    OpenDescriptorsAreBacked(ClosedBelow(s, k, n), k);
  }

  lemma {:induction false} CloseFromFirst(s: Sys, k: nat, fd: nat)
    requires Shape(s) && k < |s.tasks| && fd < MAX_FD
    ensures CloseFrom(s, k, fd).0 == CloseFrom(Close(s, k, fd).sys, k, fd + 1).0
  {
  }

  // ----- every read and write is answered exactly once -----

  function ParkedIn(pipe: seq<Option<P.Node>>, p: Pid): nat {
    if pipe == [] then 0 else P.ParkedAt(pipe[0], p) + ParkedIn(pipe[1..], p)
  }

  lemma {:induction false} ParkedUpdate(pipe: seq<Option<P.Node>>, ino: nat, n: Option<P.Node>, p: Pid)
    requires ino < |pipe|
    ensures ParkedIn(pipe[ino := n], p) == ParkedIn(pipe, p) - P.ParkedAt(pipe[ino], p) + P.ParkedAt(n, p)
  {
    if ino > 0 {
      assert pipe[ino := n][1..] == pipe[1..][ino - 1 := n];
      ParkedUpdate(pipe[1..], ino - 1, n, p);
    } else {
      assert pipe[0 := n][1..] == pipe[1..];
    }
  }

  function Asks(q: Req, p: Pid): nat {
    if q.RwReq? && q.pid == p then 1 else 0
  }

  lemma CloseConserves(s: Sys, k: nat, fd: int, p: Pid)
    requires Inv(s) && k < |s.tasks| && fd < MAX_FD
    ensures var o := Close(s, k, fd);
            ParkedIn(s.pipe, p) == P.Answered(o.replies, p) + ParkedIn(o.sys.pipe, p)
  {
    if 0 <= fd && 0 <= s.tasks[k].fd[fd] {
      OpenDescriptorIsBacked(s, k, fd);
      var f := s.filps[s.tasks[k].fd[fd]];
      if f.refcnt == 1 && f.dev == PIPE_DEV {
        var n := s.pipe[f.ino].value;
        P.ApplyConserves(n, P.Release, p);
        ParkedUpdate(s.pipe, f.ino, P.Apply(n, P.Release).node, p);
      }
    }
  }

  lemma {:induction false} CloseFromConserves(s: Sys, k: nat, fd: nat, p: Pid)
    requires Inv(s) && k < |s.tasks| && fd <= MAX_FD
    ensures var (t, woken) := CloseFrom(s, k, fd);
            ParkedIn(s.pipe, p) == P.Answered(woken, p) + ParkedIn(t.pipe, p)
    decreases MAX_FD - fd
  {
    if fd < MAX_FD {
      var o := Close(s, k, fd);
      CloseInv(s, k, fd);
      CloseConserves(s, k, fd, p);
      CloseFromConserves(o.sys, k, fd + 1, p);
      P.AnsweredAppend(o.replies, CloseFrom(o.sys, k, fd + 1).1, p);
    }
  }

  lemma RemoveTaskConserves(s: Sys, pid: Pid, p: Pid)
    requires Inv(s)
    ensures var o := RemoveTask(s, pid);
            ParkedIn(s.pipe, p) == P.Answered(o.replies, p) + ParkedIn(o.sys.pipe, p)
  {
    var k := FindTask(s.tasks, pid);
    if 0 <= k {
      CloseFromConserves(s, k, 0, p);
    }
  }

  lemma {:induction false} InheritPipe(s: Sys, child: nat, table: Table, fd: nat)
    requires Shape(s) && child < |s.tasks| && IsTable(table) && fd <= MAX_FD
    requires forall i | 0 <= i < MAX_FD :: table[i] < MAX_FILP
    ensures Inherit(s, child, table, fd).pipe == s.pipe
    decreases MAX_FD - fd
  {
    if fd < MAX_FD {
      var t := if table[fd] < 0 then s else AddRef(SetFd(s, child, fd, table[fd]), table[fd], 1);
      InheritPipe(t, child, table, fd + 1);
    }
  }

  lemma TransferConserves(s: Sys, k: nat, fd: int, r: P.Request, p: Pid)
    requires Inv(s) && k < |s.tasks| && fd < MAX_FD && Reachable(s, k, fd)
    ensures var o := Transfer(s, k, fd, r);
            (if r.client == p then 1 else 0) + ParkedIn(s.pipe, p) == P.Answered(o.replies, p) + ParkedIn(o.sys.pipe, p)
  {
    var o := Transfer(s, k, fd, r);
    if 0 <= fd && 0 <= s.tasks[k].fd[fd] && s.filps[s.tasks[k].fd[fd]].dev == PIPE_DEV {
      var ino := s.filps[s.tasks[k].fd[fd]].ino;
      var n := s.pipe[ino].value;
      P.OfferConserves(n, r, p);
      ParkedUpdate(s.pipe, ino, P.Apply(n, P.Transfer(r)).node, p);
    } else {
      assert |o.replies| == 1 && o.replies[0].client == r.client;
      assert P.Answered(o.replies[1..], p) == 0;
    }
  }

  lemma MakePipeConserves(s: Sys, k: nat, p: Pid)
    requires Inv(s) && k < |s.tasks| && 0 <= P.FreeInode(s.pipe)
    ensures ParkedIn(s.pipe, p) == ParkedIn(MakePipe(s, k).sys.pipe, p)
  {
    ParkedUpdate(s.pipe, P.FreeInode(s.pipe), Some(P.Node(2, 0, [])), p);
  }

  lemma OpenConserves(s: Sys, k: nat, dev: int, ino: int, p: Pid)
    requires Inv(s) && k < |s.tasks| && IsInode(dev, ino)
    ensures ParkedIn(s.pipe, p) == ParkedIn(Open(s, k, dev, ino).sys.pipe, p)
  {
    if dev == PIPE_DEV && s.pipe[ino].Some? {
      ParkedUpdate(s.pipe, ino, P.Apply(s.pipe[ino].value, P.Grab).node, p);
    }
  }

  lemma AddTaskConserves(s: Sys, pid: Pid, parent: Pid, p: Pid)
    requires Inv(s)
    ensures var o := AddTask(s, pid, parent);
            ParkedIn(s.pipe, p) == P.Answered(o.replies, p) + ParkedIn(o.sys.pipe, p)
  {
    EmptyTableInv(s, pid);
    var s0 := WithTask(s, pid);
    var j := FindTask(s0.tasks, parent);
    if parent != NULL_PID {
      if j < 0 { RemoveTaskConserves(s0, pid, p); } else { InheritPipe(s0, |s.tasks|, s0.tasks[j].fd, 0); }
    }
  }

  lemma StepConserves(s: Sys, q: Req, p: Pid)
    requires Inv(s) && Callable(s, q)
    ensures var (t, replies) := Step(s, q);
            Asks(q, p) + ParkedIn(s.pipe, p) == P.Answered(replies, p) + ParkedIn(t.pipe, p)
  {
    var k := FindTask(s.tasks, q.pid);
    match q
    case DupReq(_, fd) =>
    case PipeReq(_) => MakePipeConserves(s, k, p);
    case OpenReq(_, dev, ino) => OpenConserves(s, k, dev, ino, p);
    case CloseReq(_, fd) => CloseConserves(s, k, fd, p);
    case RwReq(pid, fd, kind, data) =>
      TransferInv(s, k, fd, P.Request(kind, pid, data));
      TransferConserves(s, k, fd, P.Request(kind, pid, data), p);
    case AddReq(pid, parent) => AddTaskConserves(s, pid, parent, p);
    case DelReq(pid) => RemoveTaskConserves(s, pid, p);
    case DiskReq(_, _) =>
  }

  function Issued(qs: seq<Req>, p: Pid): nat {
    if qs == [] then 0 else Asks(qs[0], p) + Issued(qs[1..], p)
  }

  /** Conservation over a whole run: the reads and writes a client issued are
      exactly the answers it got plus its requests parked in pipe queues. */
  lemma {:induction false} AnsweredExactlyOnce(s: Sys, qs: seq<Req>, p: Pid)
    requires Inv(s) && Runnable(s, qs)
    ensures var (t, replies) := Run(s, qs);
            Issued(qs, p) + ParkedIn(s.pipe, p) == P.Answered(replies, p) + ParkedIn(t.pipe, p)
    decreases |qs|
  {
    if qs != [] {
      StepInv(s, qs[0]);
      StepConserves(s, qs[0], p);
      var (t, now) := Step(s, qs[0]);
      AnsweredExactlyOnce(t, qs[1..], p);
      P.AnsweredAppend(now, Run(t, qs[1..]).1, p);
    }
  }
}
