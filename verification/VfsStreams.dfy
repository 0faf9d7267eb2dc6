// What a run of the VFS does to one pipe is a run of the pipe device's
// commands, so the order of a pipe's data holds of whole systems.
module VfsStreams {
  import opened Common
  import opened FdTable
  import opened VfsSpec
  import opened VfsInvariant
  import opened VfsRun
  import P = PipeSpec
  import K = VfsParked

  // ----- the device commands of a request, as far as pipe `ino` is concerned -----

  function CloseCmds(s: Sys, k: nat, fd: int, ino: nat): seq<P.Cmd>
    requires Shape(s) && k < |s.tasks| && fd < MAX_FD
  {
    if fd < 0 || s.tasks[k].fd[fd] < 0 then []
    else
      var p := s.filps[s.tasks[k].fd[fd]];
      if p.refcnt == 1 && p.dev == PIPE_DEV && p.ino == ino then [P.Release] else []
  }

  function CloseFromCmds(s: Sys, k: nat, fd: nat, ino: nat): seq<P.Cmd>
    requires Shape(s) && k < |s.tasks| && fd <= MAX_FD
    decreases MAX_FD - fd, s
  {
    if fd == MAX_FD then [] else CloseCmds(s, k, fd, ino) + CloseFromCmds(Close(s, k, fd).sys, k, fd + 1, ino)
  }

  function RemoveCmds(s: Sys, pid: Pid, ino: nat): seq<P.Cmd>
    requires Shape(s)
  {
    var k := FindTask(s.tasks, pid);
    if k < 0 then [] else CloseFromCmds(s, k, 0, ino)
  }

  // With an unknown parent the task is removed again.
  function AddCmds(s: Sys, pid: Pid, parent: Pid, ino: nat): seq<P.Cmd>
    requires Shape(s)
  {
    var s0 := WithTask(s, pid);
    if parent == NULL_PID || 0 <= FindTask(s0.tasks, parent) then [] else RemoveCmds(s0, pid, ino)
  }

  function RwCmds(s: Sys, k: nat, fd: int, r: P.Request, ino: nat): seq<P.Cmd>
    requires Shape(s) && k < |s.tasks| && fd < MAX_FD
  {
    if fd < 0 || s.tasks[k].fd[fd] < 0 then []
    else
      var p := s.filps[s.tasks[k].fd[fd]];
      if p.dev == PIPE_DEV && p.ino == ino then [P.Transfer(r)] else []
  }

  ghost function Commands(s: Sys, q: Req, ino: nat): seq<P.Cmd>
    requires Inv(s) && Callable(s, q)
  {
    var k := FindTask(s.tasks, q.pid);
    match q
    case OpenReq(_, dev, at) => if dev == PIPE_DEV && at == ino && 0 <= Open(s, k, dev, at).result then [P.Grab] else []
    case CloseReq(_, fd) => CloseCmds(s, k, fd, ino)
    case RwReq(pid, fd, kind, data) => RwCmds(s, k, fd, P.Request(kind, pid, data), ino)
    case DelReq(pid) => RemoveCmds(s, pid, ino)
    case AddReq(pid, parent) => AddCmds(s, pid, parent, ino)
    case _ => []
  }

  // The inode and its stream after some commands.
  function After(n: Option<P.Node>, h: P.History, cs: seq<P.Cmd>): (Option<P.Node>, P.History) {
    if n.None? then (None, h) else P.Replay(n.value, h, cs)
  }

  lemma {:induction false} AfterAppend(n: Option<P.Node>, h: P.History, a: seq<P.Cmd>, b: seq<P.Cmd>)
    ensures After(n, h, a + b) == After(After(n, h, a).0, After(n, h, a).1, b)
    decreases |a|
  {
    if n.Some? {
      if a == [] {
        assert a + b == b;
      } else {
        assert (a + b)[1..] == a[1..] + b;
        var e := P.Apply(n.value, a[0]);
        if e.node.Some? {
          AfterAppend(e.node, P.Remember(n.value, h, a[0]), a[1..], b);
        }
      }
    }
  }

  lemma {:induction false} ReplayIsRun(n: P.Node, h: P.History, cs: seq<P.Cmd>)
    ensures P.Replay(n, h, cs).0 == P.Run(n, cs).node
    decreases |cs|
  {
    if cs != [] && P.Apply(n, cs[0]).node.Some? {
      ReplayIsRun(P.Apply(n, cs[0]).node.value, P.Remember(n, h, cs[0]), cs[1..]);
    }
  }

  lemma {:induction false} OneCommand(n: P.Node, h: P.History, c: P.Cmd)
    ensures P.Replay(n, h, [c]).0 == P.Apply(n, c).node
    ensures P.Run(n, [c]) == P.Apply(n, c)
  {
    assert [c][1..] == [];
    var e := P.Apply(n, c);
    assert e.replies + [] == e.replies;
  }

  // ----- request by request -----

  lemma {:induction false} CloseStream(s: Sys, k: nat, fd: int, ino: nat, h: P.History)
    requires Inv(s) && k < |s.tasks| && fd < MAX_FD && ino < MAX_INO
    ensures var o := Close(s, k, fd);
            var cs := CloseCmds(s, k, fd, ino);
            && o.sys.pipe[ino] == After(s.pipe[ino], h, cs).0
            && (cs != [] ==> s.pipe[ino].Some? && o.replies == P.Run(s.pipe[ino].value, cs).replies)
  {
    if 0 <= fd && 0 <= s.tasks[k].fd[fd] {
      OpenDescriptorIsBacked(s, k, fd);
      if s.pipe[ino].Some? { OneCommand(s.pipe[ino].value, h, P.Release); }
    }
  }

  lemma {:induction false} CloseFromStream(s: Sys, k: nat, fd: nat, ino: nat, h: P.History)
    requires Inv(s) && k < |s.tasks| && fd <= MAX_FD && ino < MAX_INO
    ensures CloseFrom(s, k, fd).0.pipe[ino] == After(s.pipe[ino], h, CloseFromCmds(s, k, fd, ino)).0
    decreases MAX_FD - fd
  {
    if fd < MAX_FD {
      var t := Close(s, k, fd).sys;
      var cs := CloseCmds(s, k, fd, ino);
      CloseStream(s, k, fd, ino, h);
      CloseInv(s, k, fd);
      CloseFromStream(t, k, fd + 1, ino, After(s.pipe[ino], h, cs).1);
      AfterAppend(s.pipe[ino], h, cs, CloseFromCmds(t, k, fd + 1, ino));
    }
  }

  lemma {:induction false} OpenStream(s: Sys, k: nat, dev: int, at: int, ino: nat, h: P.History)
    requires Inv(s) && k < |s.tasks| && IsInode(dev, at) && ino < MAX_INO && s.pipe[ino].Some?
    ensures var cs := if dev == PIPE_DEV && at == ino && 0 <= Open(s, k, dev, at).result then [P.Grab] else [];
            Open(s, k, dev, at).sys.pipe[ino] == After(s.pipe[ino], h, cs).0
  {
    OneCommand(s.pipe[ino].value, h, P.Grab);
  }

  lemma {:induction false} RwStream(s: Sys, k: nat, fd: int, r: P.Request, ino: nat, h: P.History)
    requires Inv(s) && k < |s.tasks| && fd < MAX_FD && ino < MAX_INO && s.pipe[ino].Some? && Reachable(s, k, fd)
    ensures var o := Transfer(s, k, fd, r);
            var cs := RwCmds(s, k, fd, r, ino);
            && |o.sys.pipe| == |s.pipe| && o.sys.pipe[ino] == After(s.pipe[ino], h, cs).0
            && (cs != [] ==> o.replies == P.Run(s.pipe[ino].value, cs).replies)
  {
    OneCommand(s.pipe[ino].value, h, P.Transfer(r));
  }

  lemma {:induction false} RemoveStream(s: Sys, pid: Pid, ino: nat, h: P.History)
    requires Inv(s) && ino < MAX_INO
    ensures RemoveTask(s, pid).sys.pipe[ino] == After(s.pipe[ino], h, RemoveCmds(s, pid, ino)).0
  {
    RemoveTaskIs(s, pid);
    if 0 <= FindTask(s.tasks, pid) {
      CloseFromStream(s, FindTask(s.tasks, pid), 0, ino, h);
    }
  }

  lemma {:induction false} AddStream(s: Sys, pid: Pid, parent: Pid, ino: nat, h: P.History)
    requires Inv(s) && ino < MAX_INO
    ensures AddTask(s, pid, parent).sys.pipe[ino] == After(s.pipe[ino], h, AddCmds(s, pid, parent, ino)).0
  {
    EmptyTableInv(s, pid);
    var s0 := WithTask(s, pid);
    var j := FindTask(s0.tasks, parent);
    if parent != NULL_PID {
      if j < 0 { RemoveStream(s0, pid, ino, h); } else { InheritPipe(s0, |s.tasks|, s0.tasks[j].fd, 0); }
    }
  }

  /** A request does to a pipe what its device commands do, and tells its clients
      what they tell. */
  lemma {:induction false} StepIsPipeRun(s: Sys, q: Req, ino: nat, h: P.History)
    requires Inv(s) && Callable(s, q) && ino < MAX_INO && s.pipe[ino].Some?
    ensures var t := Step(s, q).0;
            var cs := Commands(s, q, ino);
            && Shape(t) && t.pipe[ino] == P.Replay(s.pipe[ino].value, h, cs).0 == P.Run(s.pipe[ino].value, cs).node
            && (cs != [] && (q.RwReq? || q.CloseReq?) ==> Step(s, q).1 == P.Run(s.pipe[ino].value, cs).replies)
  {
    var k := FindTask(s.tasks, q.pid);
    StepInv(s, q);
    ReplayIsRun(s.pipe[ino].value, h, Commands(s, q, ino));
    match q
    case DupReq(_, fd) =>
    case PipeReq(_) => PipeStream(s, k, ino);
    case OpenReq(_, dev, at) => OpenStream(s, k, dev, at, ino, h);
    case CloseReq(_, fd) => CloseStream(s, k, fd, ino, h);
    case RwReq(pid, fd, kind, data) =>
      TransferInv(s, k, fd, P.Request(kind, pid, data));
      RwStream(s, k, fd, P.Request(kind, pid, data), ino, h);
    case AddReq(pid, parent) => AddStream(s, pid, parent, ino, h);
    case DelReq(pid) => RemoveStream(s, pid, ino, h);
    case DiskReq(_, _) =>
  }

  lemma {:induction false} PipeStream(s: Sys, k: nat, ino: nat)
    requires Inv(s) && k < |s.tasks| && 0 <= P.FreeInode(s.pipe) && ino < MAX_INO && s.pipe[ino].Some?
    ensures |MakePipe(s, k).sys.pipe| == MAX_INO && MakePipe(s, k).sys.pipe[ino] == s.pipe[ino]
  {
  }

  // ----- runs -----

  const FRESH: P.History := P.History([], [], [])

  // What pipe `ino` has accepted and paired, after one more request.  A pipe
  // that comes or goes starts from nothing.
  ghost function Heard(s: Sys, q: Req, ino: nat, h: P.History): P.History
    requires Inv(s) && Callable(s, q) && ino < MAX_INO
  {
    if s.pipe[ino].None? then FRESH else P.Replay(s.pipe[ino].value, h, Commands(s, q, ino)).1
  }

  // And after a run.
  ghost function Stream(s: Sys, qs: seq<Req>, ino: nat, h: P.History): P.History
    requires Inv(s) && Runnable(s, qs) && ino < MAX_INO
    decreases |qs|
  {
    if qs == [] then h
    else
      StepInv(s, qs[0]);
      Stream(Step(s, qs[0]).0, qs[1..], ino, Heard(s, qs[0], ino, h))
  }

  ghost predicate Ordered(s: Sys, ino: nat, h: P.History)
    requires ino < |s.pipe|
  {
    s.pipe[ino].Some? ==> P.InOrder(s.pipe[ino].value.msgs, h)
  }

  // A pipe that was not there is empty when it comes.
  lemma {:induction false} NewPipeIsEmpty(s: Sys, q: Req, ino: nat)
    requires Inv(s) && Callable(s, q) && ino < MAX_INO && s.pipe[ino].None?
    ensures var t := Step(s, q).0;
            Shape(t) && (t.pipe[ino].Some? ==> t.pipe[ino].value.msgs == [])
  {
    StepInv(s, q);
    if !q.RwReq? {
      K.StepQueues(s, q);
    } else {
      TransferInv(s, FindTask(s.tasks, q.pid), q.fd, P.Request(q.kind, q.pid, q.data));
    }
  }

  lemma {:induction false} OrderedStep(s: Sys, q: Req, ino: nat, h: P.History)
    requires Inv(s) && Callable(s, q) && ino < MAX_INO && Ordered(s, ino, h)
    ensures Shape(Step(s, q).0) && Ordered(Step(s, q).0, ino, Heard(s, q, ino, h))
  {
    StepInv(s, q);
    if s.pipe[ino].None? {
      NewPipeIsEmpty(s, q, ino);
      assert P.Aligned([], [], [], []);
    } else {
      StepIsPipeRun(s, q, ino, h);
      P.StreamOrder(s.pipe[ino].value, h, Commands(s, q, ino));
    }
  }

  /** In every run of the whole system, on each pipe, since it was made or last
      flushed: the k-th accepted read has got the data of the k-th accepted
      write, and so has that write, whichever clients and descriptors they came through, and the pipe
      holds the requests that one side has in excess. */
  lemma {:induction false} PipesAreOrdered(s: Sys, qs: seq<Req>, ino: nat, h: P.History)
    requires Inv(s) && Runnable(s, qs) && ino < MAX_INO && Ordered(s, ino, h)
    ensures Shape(Run(s, qs).0) && Ordered(Run(s, qs).0, ino, Stream(s, qs, ino, h))
    decreases |qs|
  {
    if qs != [] {
      StepInv(s, qs[0]);
      OrderedStep(s, qs[0], ino, h);
      PipesAreOrdered(Step(s, qs[0]).0, qs[1..], ino, Heard(s, qs[0], ino, h));
    }
  }
}
