// When driver reference counts are exact, and what a pipe() that runs out of
// descriptions or descriptors half way leaves behind.
module VfsLeaks {
  import opened Common
  import opened FdTable
  import opened VfsSpec
  import opened VfsInvariant
  import opened VfsRun
  import P = PipeSpec
  import R = RamDiskSpec

  ghost predicate Exact(s: Sys)
    requires Shape(s)
  {
    forall dev, ino {:trigger Names(s.filps, dev, ino)} {:trigger Refcnt(s, dev, ino)} | IsInode(dev, ino) ::
      Names(s.filps, dev, ino) == Refcnt(s, dev, ino)
  }

  function FreeFilps(filps: seq<Filp>): nat {
    if filps == [] then 0 else (if filps[0].refcnt == 0 then 1 else 0) + FreeFilps(filps[1..])
  }

  function Min(a: nat, b: nat): nat {
    if a <= b then a else b
  }

  // The number of pipe ends that can still be bound for task `k`.
  function Ends(s: Sys, k: nat): nat
    requires k < |s.tasks|
  {
    Min(FreeFilps(s.filps), Count(s.tasks[k].fd, CLOSED))
  }

  lemma {:induction false} FreeFilpsUpdate(filps: seq<Filp>, f: nat, p: Filp)
    requires f < |filps|
    ensures FreeFilps(filps[f := p])
         == FreeFilps(filps) - (if filps[f].refcnt == 0 then 1 else 0) + if p.refcnt == 0 then 1 else 0
  {
    if f > 0 {
      assert filps[f := p][1..] == filps[1..][f - 1 := p];
      FreeFilpsUpdate(filps[1..], f - 1, p);
    } else {
      assert filps[0 := p][1..] == filps[1..];
    }
  }

  lemma {:induction false} FreeFilpsZero(filps: seq<Filp>)
    ensures 0 < FreeFilps(filps) <==> exists f | 0 <= f < |filps| :: filps[f].refcnt == 0
  {
    if filps != [] {
      FreeFilpsZero(filps[1..]);
      assert forall f | 1 <= f < |filps| :: filps[f] == filps[1..][f - 1];
      if 0 < FreeFilps(filps[1..]) {
        var f :| 0 <= f < |filps[1..]| && filps[1..][f].refcnt == 0;
        assert filps[f + 1].refcnt == 0;
      }
    }
  }

  // An end can be bound exactly when both a description and a descriptor are
  // free, and it uses up one of each.
  lemma BindEndExactly(s: Sys, k: nat, ino: nat)
    requires Inv(s) && k < |s.tasks| && ino < MAX_INO
    ensures BindEnd(s, k, ino).Some? <==> 0 < Ends(s, k)
    ensures BindEnd(s, k, ino).Some? ==>
              |BindEnd(s, k, ino).value.0.tasks| == |s.tasks| && Ends(BindEnd(s, k, ino).value.0, k) == Ends(s, k) - 1
  {
    var f := FreeFilp(s.filps);
    var fd := LowestFree(s.tasks[k].fd);
    FreeFilpsZero(s.filps);
    CountZero(s.tasks[k].fd, CLOSED);
    if 0 <= f && 0 <= fd {
      assert s.filps[f].refcnt == 0 && s.tasks[k].fd[fd] == CLOSED;
      FreeFilpsUpdate(s.filps, f, Filp(PIPE_DEV, ino, s.filps[f].refcnt + 1, s.filps[f].pos));
      CountUpdate(s.tasks[k].fd, fd, f, CLOSED);
    }
  }

  /** The driver holds two references to a new pipe, but only as many ends are
      bound as there is room for: the rest is never released.  pipe() succeeds,
      and leaks nothing, exactly when there is room for two ends. */
  lemma PipeLeaksExactly(s: Sys, k: nat)
    requires Inv(s) && k < |s.tasks| && 0 <= P.FreeInode(s.pipe)
    ensures var o := MakePipe(s, k);
            var ino := P.FreeInode(s.pipe);
            && Shape(o.sys)
            && Refcnt(o.sys, PIPE_DEV, ino) - Names(o.sys.filps, PIPE_DEV, ino) == 2 - Min(2, Ends(s, k))
            && (forall d, i | IsInode(d, i) && (d != PIPE_DEV || i != ino) ::
                  Refcnt(o.sys, d, i) == Refcnt(s, d, i) && Names(o.sys.filps, d, i) == Names(s.filps, d, i))
            && (o.result == 0 <==> 2 <= Ends(s, k))
  {
    var ino := P.FreeInode(s.pipe);
    var s0 := NewPipeInode(s);
    NewPipeInodeInv(s);
    MakePipeInv(s, k);
    BindEndInv(s0, k, ino);
    BindEndExactly(s0, k, ino);
    if BindEnd(s0, k, ino).Some? {
      var s1 := BindEnd(s0, k, ino).value.0;
      BindEndInv(s1, k, ino);
      BindEndExactly(s1, k, ino);
    }
  }

  // If the request is a pipe(), there is room for both ends.
  predicate Roomy(s: Sys, q: Req) {
    q.PipeReq? ==> 0 <= FindTask(s.tasks, q.pid) && 2 <= Ends(s, FindTask(s.tasks, q.pid))
  }

  lemma MakePipeExact(s: Sys, k: nat)
    requires Inv(s) && Exact(s) && k < |s.tasks| && 0 <= P.FreeInode(s.pipe)
    ensures Shape(MakePipe(s, k).sys)
    ensures Exact(MakePipe(s, k).sys) <==> MakePipe(s, k).result == 0
    ensures MakePipe(s, k).result == 0 <==> 2 <= Ends(s, k)
  {
    PipeLeaksExactly(s, k);
    var t := MakePipe(s, k).sys;
    var ino := P.FreeInode(s.pipe);
    assert Names(t.filps, PIPE_DEV, ino) == Refcnt(t, PIPE_DEV, ino) <==> 2 <= Ends(s, k);
  }

  // ----- the other requests keep exactness -----

  // Opening one more description or closing one moves both counts together.
  ghost predicate SameSlack(s: Sys, t: Sys)
    requires Shape(s) && Shape(t)
  {
    forall d, i {:trigger Names(t.filps, d, i)} {:trigger Refcnt(t, d, i)} | IsInode(d, i) ::
      Refcnt(t, d, i) - Names(t.filps, d, i) == Refcnt(s, d, i) - Names(s.filps, d, i)
  }

  lemma DupSlack(s: Sys, k: nat, fd: int)
    requires Inv(s) && k < |s.tasks| && fd < MAX_FD
    ensures Shape(Dup(s, k, fd).sys) && SameSlack(s, Dup(s, k, fd).sys)
  {
    DupInv(s, k, fd);
    if 0 <= fd && 0 <= s.tasks[k].fd[fd] && 0 <= LowestFree(s.tasks[k].fd) {
      OpenDescriptorIsBacked(s, k, fd);
      AddRefNames(s, s.tasks[k].fd[fd], 1);
    }
  }

  // Changing the count of a description that stays open names nothing new.
  lemma AddRefNames(s: Sys, f: nat, delta: int)
    requires f < |s.filps| && s.filps[f].refcnt != 0
    ensures forall d, i | IsInode(d, i) ::
      Names(AddRef(s, f, delta).filps, d, i)
      == Names(s.filps, d, i)
         - if s.filps[f].refcnt + delta == 0 && s.filps[f].dev == d && s.filps[f].ino == i then 1 else 0
  {
    forall d, i | IsInode(d, i)
      ensures Names(AddRef(s, f, delta).filps, d, i)
           == Names(s.filps, d, i)
              - if s.filps[f].refcnt + delta == 0 && s.filps[f].dev == d && s.filps[f].ino == i then 1 else 0
    {
      NamesUpdate(s.filps, f, AddRef(s, f, delta).filps[f], d, i);
    }
  }

  lemma CloseSlack(s: Sys, k: nat, fd: int)
    requires Inv(s) && k < |s.tasks| && fd < MAX_FD
    ensures SameSlack(s, Close(s, k, fd).sys)
  {
    if 0 <= fd && 0 <= s.tasks[k].fd[fd] {
      OpenDescriptorIsBacked(s, k, fd);
      var f := s.tasks[k].fd[fd];
      var s0 := SetFd(s, k, fd, CLOSED);
      AddRefNames(s0, f, -1);
      var s1 := AddRef(s0, f, -1);
      if s1.filps[f].refcnt == 0 {
        ReleaseInodeRefs(s1, s.filps[f].dev, s.filps[f].ino);
      }
    }
  }

  lemma {:induction false} CloseFromSlack(s: Sys, k: nat, fd: nat)
    requires Inv(s) && k < |s.tasks| && fd <= MAX_FD
    ensures SameSlack(s, CloseFrom(s, k, fd).0)
    decreases MAX_FD - fd
  {
    if fd < MAX_FD {
      CloseInv(s, k, fd);
      CloseSlack(s, k, fd);
      CloseFromSlack(Close(s, k, fd).sys, k, fd + 1);
    }
  }

  lemma RemoveTaskSlack(s: Sys, pid: Pid)
    requires Inv(s)
    ensures Shape(RemoveTask(s, pid).sys) && SameSlack(s, RemoveTask(s, pid).sys)
  {
    RemoveTaskInv(s, pid);
    var k := FindTask(s.tasks, pid);
    if 0 <= k {
      CloseFromSlack(s, k, 0);
    }
  }

  lemma {:induction false} InheritSlack(s: Sys, child: nat, table: Table, fd: nat)
    requires Shape(s) && child < |s.tasks| && IsTable(table) && fd <= MAX_FD
    requires forall i | 0 <= i < MAX_FD ::
      table[i] < MAX_FILP && (0 <= table[i] ==> 0 < s.filps[table[i]].refcnt)
    ensures SameSlack(s, Inherit(s, child, table, fd))
    decreases MAX_FD - fd
  {
    if fd < MAX_FD {
      var f := table[fd];
      if f < 0 {
        InheritSlack(s, child, table, fd + 1);
      } else {
        var s1 := AddRef(SetFd(s, child, fd, f), f, 1);
        AddRefNames(SetFd(s, child, fd, f), f, 1);
        InheritSlack(s1, child, table, fd + 1);
      }
    }
  }

  lemma AddTaskSlack(s: Sys, pid: Pid, parent: Pid)
    requires Inv(s)
    ensures Shape(AddTask(s, pid, parent).sys) && SameSlack(s, AddTask(s, pid, parent).sys)
  {
    EmptyTableInv(s, pid);
    var s0 := WithTask(s, pid);
    assert SameSlack(s, s0);
    if parent != NULL_PID {
      var k := FindTask(s0.tasks, parent);
      if k < 0 {
        RemoveTaskSlack(s0, pid);
      } else {
        OpenDescriptorsAreBacked(s0, k);
        InheritSlack(s0, |s.tasks|, s0.tasks[k].fd, 0);
      }
      SlackTrans(s, s0, AddTask(s, pid, parent).sys);
    }
  }

  lemma BoundSlack(s: Sys, k: nat, fd: nat, f: nat, dev: int, ino: int)
    requires Inv(s) && k < |s.tasks| && fd < MAX_FD && f < MAX_FILP && IsInode(dev, ino) && HasInode(s, dev, ino)
    requires s.filps[f] == Filp(dev, ino, 0, 0)
    ensures var t := AddRef(SetFd(GrabInode(s, dev, ino).0, k, fd, f), f, 1);
            Shape(t) ==> SameSlack(s, t)
  {
    GrabInv(s, dev, ino);
    var g := GrabInode(s, dev, ino).0;
    var t := AddRef(SetFd(g, k, fd, f), f, 1);
    if Shape(t) {
      forall d, i | IsInode(d, i)
        ensures Refcnt(t, d, i) - Names(t.filps, d, i) == Refcnt(s, d, i) - Names(s.filps, d, i)
      {
        NamesUpdate(s.filps, f, t.filps[f], d, i);
        assert Refcnt(t, d, i) == Refcnt(g, d, i);
      }
    }
  }

  lemma OpenSlack(s: Sys, k: nat, dev: int, ino: int)
    requires Inv(s) && k < |s.tasks| && IsInode(dev, ino)
    ensures Shape(Open(s, k, dev, ino).sys) && SameSlack(s, Open(s, k, dev, ino).sys)
  {
    OpenInv(s, k, dev, ino);
    var fd := LowestFree(s.tasks[k].fd);
    var f := FreeFilp(s.filps);
    if 0 <= fd && 0 <= f {
      FillInv(s, f, Filp(dev, ino, 0, 0));
      var s0 := s.(filps := s.filps[f := Filp(dev, ino, 0, 0)]);
      assert SameSlack(s, s0);
      if HasInode(s0, dev, ino) {
        BoundSlack(s0, k, fd, f, dev, ino);
        SlackTrans(s, s0, Open(s, k, dev, ino).sys);
      }
    }
  }

  lemma SlackTrans(s: Sys, t: Sys, u: Sys)
    requires Shape(s) && Shape(t) && Shape(u) && SameSlack(s, t) && SameSlack(t, u)
    ensures SameSlack(s, u)
  {
    forall d, i | IsInode(d, i)
      ensures Refcnt(u, d, i) - Names(u.filps, d, i) == Refcnt(s, d, i) - Names(s.filps, d, i)
    {
      assert Refcnt(t, d, i) - Names(t.filps, d, i) == Refcnt(s, d, i) - Names(s.filps, d, i);
    }
  }

  lemma TransferSlack(s: Sys, k: nat, fd: int, r: P.Request)
    requires Inv(s) && k < |s.tasks| && fd < MAX_FD && Reachable(s, k, fd)
    ensures Shape(Transfer(s, k, fd, r).sys) && SameSlack(s, Transfer(s, k, fd, r).sys)
  {
    TransferCounts(s, k, fd, r);
  }

  // Every request but pipe() leaves the slack of every inode alone.
  lemma {:induction false} StepSlack(s: Sys, q: Req)
    requires Inv(s) && Callable(s, q) && !q.PipeReq?
    ensures Shape(Step(s, q).0) && SameSlack(s, Step(s, q).0)
  {
    StepInv(s, q);
    var k := FindTask(s.tasks, q.pid);
    match q
    case DupReq(_, fd) => DupSlack(s, k, fd);
    case OpenReq(_, dev, ino) => OpenSlack(s, k, dev, ino);
    case CloseReq(_, fd) => CloseSlack(s, k, fd);
    case RwReq(pid, fd, kind, data) =>
      TransferInv(s, k, fd, P.Request(kind, pid, data));
      TransferSlack(s, k, fd, P.Request(kind, pid, data));
    case AddReq(pid, parent) => AddTaskSlack(s, pid, parent);
    case DelReq(pid) => RemoveTaskSlack(s, pid);
    case DiskReq(_, c) => DiskCommandInv(s, c);
  }

  lemma {:induction false} StepExact(s: Sys, q: Req)
    requires Inv(s) && Callable(s, q) && Exact(s) && Roomy(s, q)
    ensures Shape(Step(s, q).0) && Exact(Step(s, q).0)
  {
    if q.PipeReq? {
      StepInv(s, q);
      MakePipeExact(s, FindTask(s.tasks, q.pid));
    } else {
      StepSlack(s, q);
      ExactSlack(s, Step(s, q).0);
    }
  }

  lemma {:induction false} ExactSlack(s: Sys, t: Sys)
    requires Shape(s) && Shape(t) && Exact(s) && SameSlack(s, t)
    ensures Exact(t)
  {
    forall d, i | IsInode(d, i) ensures Names(t.filps, d, i) == Refcnt(t, d, i) {
      assert Names(s.filps, d, i) == Refcnt(s, d, i);
    }
  }

  // ----- a leak is for ever -----

  // The pipe inode has this many references that no open description accounts
  // for.
  ghost predicate Leaked(s: Sys, ino: nat, lost: nat)
    requires Shape(s) && ino < MAX_INO
  {
    Refcnt(s, PIPE_DEV, ino) - Names(s.filps, PIPE_DEV, ino) == lost
  }

  lemma {:induction false} StepKeepsLeak(s: Sys, q: Req, ino: nat, lost: nat)
    requires Inv(s) && Callable(s, q) && ino < MAX_INO && 0 < lost && Leaked(s, ino, lost)
    ensures Shape(Step(s, q).0) && Leaked(Step(s, q).0, ino, lost)
  {
    assert s.pipe[ino].Some?;
    if q.PipeReq? {
      PipeLeaksExactly(s, FindTask(s.tasks, q.pid));
    } else {
      StepSlack(s, q);
    }
  }

  /** References that no open description accounts for stay so in every run: no
      sequence of requests releases one, and the inode is never destroyed. */
  lemma {:induction false} LeakIsForEver(s: Sys, qs: seq<Req>, ino: nat, lost: nat)
    requires Inv(s) && Runnable(s, qs) && ino < MAX_INO && 0 < lost && Leaked(s, ino, lost)
    ensures var t := Run(s, qs).0; Inv(t) && Leaked(t, ino, lost) && t.pipe[ino].Some?
    decreases |qs|
  {
    if qs != [] {
      StepInv(s, qs[0]);
      StepKeepsLeak(s, qs[0], ino, lost);
      LeakIsForEver(Step(s, qs[0]).0, qs[1..], ino, lost);
    } else {
      assert 0 < Refcnt(s, PIPE_DEV, ino);
    }
  }

  // ----- whole runs -----

  ghost predicate AllRoomy(s: Sys, qs: seq<Req>)
    requires Inv(s) && Runnable(s, qs)
    decreases |qs|
  {
    qs == [] || (Roomy(s, qs[0]) && (StepInv(s, qs[0]); AllRoomy(Step(s, qs[0]).0, qs[1..])))
  }

  /** Driver counts are still equal to the open descriptions after a run exactly
      when every pipe() in it had room for both ends. */
  lemma {:induction false} RunExact(s: Sys, qs: seq<Req>)
    requires Inv(s) && Runnable(s, qs) && Exact(s)
    ensures Inv(Run(s, qs).0) && (Exact(Run(s, qs).0) <==> AllRoomy(s, qs))
    decreases |qs|
  {
    if qs != [] {
      StepInv(s, qs[0]);
      var t := Step(s, qs[0]).0;
      if Roomy(s, qs[0]) {
        StepExact(s, qs[0]);
        RunExact(t, qs[1..]);
      } else {
        var ino: nat := P.FreeInode(s.pipe);
        var k := FindTask(s.tasks, qs[0].pid);
        PipeLeaksExactly(s, k);
        LeakIsForEver(t, qs[1..], ino, 2 - Min(2, Ends(s, k)));
        LeakedIsNotExact(Run(t, qs[1..]).0, ino, 2 - Min(2, Ends(s, k)));
      }
    }
  }

  lemma {:induction false} LeakedIsNotExact(s: Sys, ino: nat, lost: nat)
    requires Shape(s) && ino < MAX_INO && 0 < lost && Leaked(s, ino, lost)
    ensures !Exact(s)
  {
    assert Names(s.filps, PIPE_DEV, ino) != Refcnt(s, PIPE_DEV, ino);
  }

  // ----- a run that leaks -----

  lemma {:induction false} NoRoomLeaks(s: Sys, k: nat)
    requires Inv(s) && k < |s.tasks| && LowestFree(s.tasks[k].fd) < 0 && 0 <= P.FreeInode(s.pipe)
    ensures var t := MakePipe(s, k).sys;
            Inv(t) && MakePipe(s, k).result == -1 && Leaked(t, P.FreeInode(s.pipe), 2)
  {
    NewPipeInodeInv(s);
  }

  // Task k dups one of its descriptors until its table is full, and then asks
  // for a pipe.
  lemma {:induction false} FillThenPipe(s: Sys, pid: Pid, k: nat, fd: nat, n: nat) returns (qs: seq<Req>)
    requires Inv(s) && k == FindTask(s.tasks, pid) && fd < MAX_FD && 0 <= s.tasks[k].fd[fd]
    requires n == Count(s.tasks[k].fd, CLOSED) && 0 <= P.FreeInode(s.pipe)
    ensures Runnable(s, qs) && var t := Run(s, qs).0; Inv(t) && Leaked(t, P.FreeInode(s.pipe), 2)
    decreases n
  {
    var rest: seq<Req> := [];
    var q := if n == 0 then PipeReq(pid) else DupReq(pid, fd);
    StepInv(s, q);
    if n == 0 {
      CountZero(s.tasks[k].fd, CLOSED);
      NoRoomLeaks(s, k);
    } else {
      DupTakesOne(s, pid, k, fd);
      rest := FillThenPipe(Step(s, q).0, pid, k, fd, n - 1);
    }
    RunFirst(s, q, rest);
    qs := [q] + rest;
  }

  lemma {:induction false} DupTakesOne(s: Sys, pid: Pid, k: nat, fd: nat)
    requires Inv(s) && k == FindTask(s.tasks, pid) && fd < MAX_FD && 0 <= s.tasks[k].fd[fd]
    requires 0 < Count(s.tasks[k].fd, CLOSED)
    ensures var t := Dup(s, k, fd).sys;
            && t.pipe == s.pipe && FindTask(t.tasks, pid) == k && 0 <= t.tasks[k].fd[fd]
            && Count(t.tasks[k].fd, CLOSED) == Count(s.tasks[k].fd, CLOSED) - 1
  {
    var table := s.tasks[k].fd;
    CountZero(table, CLOSED);
    var j :| 0 <= j < |table| && table[j] == CLOSED;
    var free := LowestFree(table);
    CountUpdate(table, free, table[fd], CLOSED);
    var t := Dup(s, k, fd).sys;
    assert t.tasks[k].fd == table[free := table[fd]];
  }

  lemma {:induction false} RunFirst(s: Sys, q: Req, qs: seq<Req>)
    requires Inv(s) && Callable(s, q) && Inv(Step(s, q).0) && Runnable(Step(s, q).0, qs)
    ensures Runnable(s, [q] + qs) && Run(s, [q] + qs).0 == Run(Step(s, q).0, qs).0
  {
    assert ([q] + qs)[1..] == qs;
  }

  lemma {:induction false} BootExact(root: R.File)
    requires R.IsFile(root) && root.refcnt == 0
    ensures Inv(Boot(root)) && Exact(Boot(root))
  {
    BootInv(root);
    var s := Boot(root);
    forall d, i | IsInode(d, i) ensures Names(s.filps, d, i) == Refcnt(s, d, i) {
      NoNames(s.filps, d, i);
    }
  }

  // The first task of a fresh system opens the root directory.
  lemma {:induction false} FirstOpen(root: R.File, pid: Pid)
    requires R.IsFile(root) && root.refcnt == 0
    ensures Inv(Boot(root)) && Inv(WithTask(Boot(root), pid))
    ensures var s := WithTask(Boot(root), pid);
            var t := Open(s, 0, DISK_DEV, 0).sys;
            && FindTask(s.tasks, pid) == 0 && Inv(t) && FindTask(t.tasks, pid) == 0
            && 0 <= t.tasks[0].fd[0] && t.pipe == s.pipe && P.FreeInode(t.pipe) == 0
  {
    BootInv(root);
    EmptyTableInv(Boot(root), pid);
    var s := WithTask(Boot(root), pid);
    assert s.tasks[0].pid == pid;
    assert s.tasks[0].fd[0] == CLOSED;
    assert LowestFree(s.tasks[0].fd) == 0;
    assert s.filps[0].refcnt == 0;
    OpenInv(s, 0, DISK_DEV, 0);
    assert s.pipe[0].None?;
  }

  /** From start-up there is a run after which a pipe inode has two references
      and no description: its pipe() found no descriptor free. */
  lemma {:induction false} PipeCanLeak(root: R.File, pid: Pid) returns (qs: seq<Req>)
    requires R.IsFile(root) && root.refcnt == 0
    ensures Inv(Boot(root)) && Exact(Boot(root)) && Runnable(Boot(root), qs)
    ensures var t := Run(Boot(root), qs).0; Inv(t) && Leaked(t, 0, 2) && !Exact(t)
  {
    BootExact(root);
    FirstOpen(root, pid);
    var s := WithTask(Boot(root), pid);
    var t := Open(s, 0, DISK_DEV, 0).sys;
    var rest := FillThenPipe(t, pid, 0, 0, Count(t.tasks[0].fd, CLOSED));
    RunFirst(s, OpenReq(pid, DISK_DEV, 0), rest);
    RunFirst(Boot(root), AddReq(pid, NULL_PID), [OpenReq(pid, DISK_DEV, 0)] + rest);
    qs := [AddReq(pid, NULL_PID)] + ([OpenReq(pid, DISK_DEV, 0)] + rest);
    LeakedIsNotExact(Run(Boot(root), qs).0, 0, 2);
  }

  /** A parked client always has a partner's end left to wait for: at least two
      open descriptions name its pipe. */
  lemma ParkedMeansTwoEnds(s: Sys, ino: nat)
    requires Inv(s) && Exact(s) && ino < MAX_INO
    requires s.pipe[ino].Some? && s.pipe[ino].value.msgs != []
    ensures 2 <= Names(s.filps, PIPE_DEV, ino)
  {
    assert PipeOk(s.pipe[ino]);
    assert Names(s.filps, PIPE_DEV, ino) == Refcnt(s, PIPE_DEV, ino);
  }

  /** Nothing is leaked: once every task has been removed, every description is
      free and every pipe inode has been destroyed. */
  lemma NothingLeaks(s: Sys)
    requires Inv(s) && Exact(s) && s.tasks == []
    ensures forall f | 0 <= f < MAX_FILP :: s.filps[f].refcnt == 0
    ensures forall ino | 0 <= ino < MAX_INO :: s.pipe[ino].None?
  {
    forall f | 0 <= f < MAX_FILP ensures s.filps[f].refcnt == 0 {
      assert s.filps[f].refcnt == Slots(s.tasks, f) == 0;
    }
    forall ino | 0 <= ino < MAX_INO ensures s.pipe[ino].None? {
      NoNames(s.filps, PIPE_DEV, ino);
      assert PipeOk(s.pipe[ino]);
      assert Names(s.filps, PIPE_DEV, ino) == Refcnt(s, PIPE_DEV, ino);
    }
  }
}
