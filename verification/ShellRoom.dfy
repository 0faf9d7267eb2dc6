// Room for pipes, and how the tasks of a command line come and go in it.
module ShellRoom {
  import opened Common
  import opened FdTable
  import opened VfsSpec
  import opened VfsInvariant
  import opened VfsRun
  import opened VfsHistory
  import opened VfsViews
  import opened ShellOnVfs
  import L = VfsLeaks
  import P = PipeSpec
  import S = ShellSpec
  import U = VfsUndo

  // ----- room for pipes -----

  function FreeInodes(pipe: seq<Option<P.Node>>): nat {
    if pipe == [] then 0 else (if pipe[0].None? then 1 else 0) + FreeInodes(pipe[1..])
  }

  // Two descriptions and an inode are free for each of n pipes.
  ghost predicate Room(s: Sys, n: nat) {
    2 * n <= L.FreeFilps(s.filps) && n <= FreeInodes(s.pipe)
  }

  lemma {:induction false} FreeInodesUpdate(pipe: seq<Option<P.Node>>, ino: nat, n: P.Node)
    requires ino < |pipe| && pipe[ino].None?
    ensures FreeInodes(pipe[ino := Some(n)]) == FreeInodes(pipe) - 1
  {
    if ino > 0 {
      assert pipe[ino := Some(n)][1..] == pipe[1..][ino - 1 := Some(n)];
      FreeInodesUpdate(pipe[1..], ino - 1, n);
    } else {
      assert pipe[0 := Some(n)][1..] == pipe[1..];
    }
  }

  lemma {:induction false} SomeFreeInode(pipe: seq<Option<P.Node>>)
    requires 0 < FreeInodes(pipe)
    ensures exists ino | 0 <= ino < |pipe| :: pipe[ino].None?
  {
    if pipe[0].Some? {
      SomeFreeInode(pipe[1..]);
      var ino :| 0 <= ino < |pipe[1..]| && pipe[1..][ino].None?;
      assert pipe[ino + 1].None?;
    }
  }

  // What was free is free.
  ghost predicate More(s: Sys, t: Sys) {
    && |s.filps| == |t.filps| && |s.pipe| == |t.pipe|
    && (forall f | 0 <= f < |s.filps| :: s.filps[f].refcnt == 0 ==> t.filps[f].refcnt == 0)
    && (forall i | 0 <= i < |s.pipe| :: s.pipe[i].None? ==> t.pipe[i].None?)
  }

  lemma {:induction false} MoreFilps(a: seq<Filp>, b: seq<Filp>)
    requires |a| == |b| && forall f | 0 <= f < |a| :: a[f].refcnt == 0 ==> b[f].refcnt == 0
    ensures L.FreeFilps(a) <= L.FreeFilps(b)
  {
    if a != [] {
      MoreFilps(a[1..], b[1..]);
    }
  }

  lemma {:induction false} MoreInodes(a: seq<Option<P.Node>>, b: seq<Option<P.Node>>)
    requires |a| == |b| && forall i | 0 <= i < |a| :: a[i].None? ==> b[i].None?
    ensures FreeInodes(a) <= FreeInodes(b)
  {
    if a != [] {
      MoreInodes(a[1..], b[1..]);
    }
  }

  lemma MoreRoom(s: Sys, t: Sys, n: nat)
    requires More(s, t) && Room(s, n)
    ensures Room(t, n)
  {
    MoreFilps(s.filps, t.filps);
    MoreInodes(s.pipe, t.pipe);
  }

  lemma CloseMore(s: Sys, k: nat, fd: int)
    requires Shape(s) && k < |s.tasks| && fd < MAX_FD
    ensures More(s, Close(s, k, fd).sys)
  {
  }

  lemma {:induction false} CloseFromMore(s: Sys, k: nat, fd: nat)
    requires Shape(s) && k < |s.tasks| && fd <= MAX_FD
    ensures More(s, CloseFrom(s, k, fd).0)
    decreases MAX_FD - fd
  {
    if fd < MAX_FD {
      CloseMore(s, k, fd);
      CloseFromMore(Close(s, k, fd).sys, k, fd + 1);
    }
  }

  lemma ForkMore(s: Sys, kid: Pid, parent: Pid)
    requires Inv(s) && parent != NULL_PID && Registered(s, parent)
    ensures More(s, AddTask(s, kid, parent).sys)
  {
    var k := FindTask(s.tasks, parent);
    var table := s.tasks[k].fd;
    U.ForkInherits(s, kid, parent);
    OpenDescriptorsAreBacked(s, k);
    assert table[0..] == table;
    forall f | 0 <= f < MAX_FILP && s.filps[f].refcnt == 0 ensures Count(table, f) == 0 {
      CountZero(table, f);
    }
  }

  // ----- where the shell stands -----

  // The shell is registered and the tasks in `absent` are not; there is room
  // for n pipes.
  ghost predicate Stage(s: Sys, sh: Pid, absent: set<Pid>, n: nat) {
    Inv(s) && Registered(s, sh) && (forall p | p in absent :: !Registered(s, p)) && Room(s, n)
  }

  // The request behind a close or a dup.
  function Request(a: Act, sh: Pid): Req
    requires !a.BindAct?
  {
    if a.CloseAct? then CloseReq(sh, a.fd) else DupReq(sh, a.fd)
  }

  predicate Plain(acts: seq<Act>) {
    forall i | 0 <= i < |acts| :: !acts[i].BindAct? && acts[i].fd < MAX_FD
  }

  lemma SamePidsFind(a: seq<Task>, b: seq<Task>, p: Pid)
    requires SamePids(a, b)
    ensures FindTask(a, p) == FindTask(b, p)
  {
  }

  // A call of the shell registers and removes nobody.
  lemma CallStage(s: Sys, q: Req, absent: set<Pid>, n: nat, m: nat)
    requires Stage(s, q.pid, absent, n) && Callable(s, q) && !q.AddReq? && !q.DelReq? && Room(Step(s, q).0, m)
    ensures Stage(Step(s, q).0, q.pid, absent, m)
  {
    StepInv(s, q);
    CallKeepsPids(s, q);
    SamePidsFind(s.tasks, Step(s, q).0.tasks, q.pid);
    forall p | p in absent ensures !Registered(Step(s, q).0, p) {
      SamePidsFind(s.tasks, Step(s, q).0.tasks, p);
    }
  }

  lemma PlainStage(s: Sys, a: Act, sh: Pid, absent: set<Pid>, n: nat)
    requires Stage(s, sh, absent, n) && !a.BindAct? && a.fd < MAX_FD
    ensures Callable(s, Request(a, sh)) && Acts(s, Request(a, sh)) == [a]
    ensures Stage(Step(s, Request(a, sh)).0, sh, absent, n)
  {
    var k := FindTask(s.tasks, sh);
    var t := Step(s, Request(a, sh)).0;
    if a.CloseAct? {
      CloseMore(s, k, a.fd);
    } else if 0 <= a.fd && 0 <= s.tasks[k].fd[a.fd] {
      OpenDescriptorIsBacked(s, k, a.fd);
    }
    MoreRoom(s, t, n);
    CallStage(s, Request(a, sh), absent, n, n);
  }

  // ----- a pipe() with room -----

  lemma TwoClosed(t: Table, c: int)
    requires 0 <= c && 0 <= PipeFd(t, c, c).2 && forall i | 0 <= i < |t| :: CLOSED <= t[i]
    ensures 2 <= Count(t, CLOSED)
  {
    var fdi := LowestFree(t);
    CountUpdate(t, fdi, c, CLOSED);
    CountZero(t[fdi := c], CLOSED);
    assert t[fdi := c][LowestFree(t[fdi := c])] == CLOSED;
  }

  lemma SameClosed(t: Table, v: Table, c: int)
    requires |t| == |v| && 0 <= c && forall i | 0 <= i < |t| :: v[i] < 0 <==> t[i] < 0
    ensures PipeFd(t, c, c).2 == PipeFd(v, c, c).2
  {
    SameFree(t, v);
    if 0 <= LowestFree(t) {
      SameFree(t[LowestFree(t) := c], v[LowestFree(v) := c]);
    }
  }

  lemma PipeFits(s: Sys, sh: Pid, c: int)
    requires Inv(s) && Registered(s, sh) && Room(s, 1) && 0 <= P.FreeInode(s.pipe)
    requires c == Code(PIPE_DEV, P.FreeInode(s.pipe)) && 0 <= PipeFd(View(s, sh), c, c).2
    ensures MakePipe(s, FindTask(s.tasks, sh)).ends == 2
  {
    var k := FindTask(s.tasks, sh);
    RowFits(s, sh);
    SameClosed(Row(s, sh), View(s, sh), c);
    TwoClosed(Row(s, sh), c);
    L.PipeLeaksExactly(s, k);
  }

  lemma PipeUses(s: Sys, k: nat, n: nat)
    requires Inv(s) && k < |s.tasks| && 0 <= P.FreeInode(s.pipe) && MakePipe(s, k).ends == 2 && Room(s, n) && 0 < n
    ensures Room(MakePipe(s, k).sys, n - 1)
  {
    var ino := P.FreeInode(s.pipe);
    FreeInodesUpdate(s.pipe, ino, P.Node(2, 0, []));
    var f := FreeFilp(s.filps);
    var filps := s.filps[f := Filp(PIPE_DEV, ino, 1, s.filps[f].pos)];
    L.FreeFilpsUpdate(s.filps, f, filps[f]);
    var g := FreeFilp(filps);
    L.FreeFilpsUpdate(filps, g, Filp(PIPE_DEV, ino, 1, filps[g].pos));
  }

  lemma PipeStage(s: Sys, sh: Pid, absent: set<Pid>, n: nat) returns (c: int)
    requires Stage(s, sh, absent, n) && 0 < n && forall c: nat :: 0 <= PipeFd(View(s, sh), c, c).2
    ensures 0 <= c && Callable(s, PipeReq(sh)) && Acts(s, PipeReq(sh)) == [BindAct(c), BindAct(c)]
    ensures Stage(Step(s, PipeReq(sh)).0, sh, absent, n - 1)
  {
    SomeFreeInode(s.pipe);
    c := Code(PIPE_DEV, P.FreeInode(s.pipe));
    PipeFits(s, sh, c);
    PipeUses(s, FindTask(s.tasks, sh), n);
    CallStage(s, PipeReq(sh), absent, n, n - 1);
  }

  // ----- tasks that come and go -----

  lemma FoundAppended(tasks: seq<Task>, t: Task, p: Pid)
    ensures FindTask(tasks + [t], p)
         == if 0 <= FindTask(tasks, p) then FindTask(tasks, p) else if t.pid == p then |tasks| else -1
  {
    var all := tasks + [t];
    assert all[|tasks|] == t && forall j | 0 <= j < |tasks| :: all[j] == tasks[j];
    if 0 <= FindTask(tasks, p) {
      FirstIs(all, p, FindTask(tasks, p));
    } else if t.pid == p {
      FirstIs(all, p, |tasks|);
    }
  }

  // A job that the shell starts directly and that exits leaves nothing behind.
  lemma DirectStage(s: Sys, sh: Pid, task: Pid, absent: set<Pid>, n: nat)
    requires Stage(s, sh, absent, n) && sh != NULL_PID && !Registered(s, task)
    ensures var t := AddTask(s, task, sh).sys;
            Inv(t) && RemoveTask(t, task).sys == s
  {
    AddTaskInv(s, task, sh);
    U.RemoveUndoesFork(s, task, sh);
  }

  // A task spawned by one that exits after that.
  lemma LaunchTasks(s: Sys, launcher: Pid, task: Pid, sh: Pid)
    requires Inv(s) && sh != NULL_PID && launcher != NULL_PID && launcher != task
    requires Registered(s, sh) && !Registered(s, launcher) && !Registered(s, task)
    ensures var t1 := AddTask(s, launcher, sh).sys;
            && Inv(t1) && Registered(t1, launcher) && !Registered(t1, task)
            && var t2 := AddTask(t1, task, launcher).sys;
               && Inv(t2) && FindTask(t2.tasks, launcher) == |s.tasks|
               && SamePids(s.tasks + [Task(launcher, Row(s, sh)), Task(task, Row(s, sh))], t2.tasks)
  {
    var row := Row(s, sh);
    AddTaskInv(s, launcher, sh);
    U.ForkInherits(s, launcher, sh);
    var t1 := AddTask(s, launcher, sh).sys;
    FoundAppended(s.tasks, Task(launcher, row), launcher);
    FoundAppended(s.tasks, Task(launcher, row), task);
    AddTaskInv(t1, task, launcher);
    U.ForkInherits(t1, task, launcher);
    var t2 := AddTask(t1, task, launcher).sys;
    FoundAppended(t1.tasks, t2.tasks[|t2.tasks| - 1], launcher);
  }

  lemma LauncherGone(s: Sys, t2: Sys, launcher: Pid, task: Pid, a: Task, b: Task, p: Pid)
    requires Inv(t2) && FindTask(t2.tasks, launcher) == |s.tasks| && SamePids(s.tasks + [a, b], t2.tasks)
    requires a.pid == launcher && b.pid == task && !Registered(s, launcher) && launcher != task
    ensures var t3 := RemoveTask(t2, launcher).sys;
            && Inv(t3) && More(t2, t3)
            && (Registered(t3, p) <==> Registered(s, p) || p == task)
  {
    var n := |s.tasks|;
    RemoveTaskInv(t2, launcher);
    RemoveTaskIs(t2, launcher);
    CloseFromInv(t2, n, 0);
    CloseFromMore(t2, n, 0);
    var u := CloseFrom(t2, n, 0).0.tasks;
    var left := u[..n] + u[n + 1..];
    assert |left| == n + 1 && left[n].pid == task;
    assert forall j | 0 <= j < n :: left[j].pid == (s.tasks + [a, b])[j].pid == s.tasks[j].pid;
  }

  lemma LaunchStage(s: Sys, sh: Pid, launcher: Pid, task: Pid, absent: set<Pid>, n: nat)
    requires Stage(s, sh, absent, n) && sh != NULL_PID && launcher != NULL_PID && launcher in absent
    requires task !in absent && !Registered(s, task)
    ensures var t1 := AddTask(s, launcher, sh).sys;
            && Inv(t1) && Registered(t1, launcher) && !Registered(t1, task)
            && var t2 := AddTask(t1, task, launcher).sys;
               Inv(t2) && Stage(RemoveTask(t2, launcher).sys, sh, absent, n)
  {
    LaunchTasks(s, launcher, task, sh);
    var t1 := AddTask(s, launcher, sh).sys;
    var t2 := AddTask(t1, task, launcher).sys;
    var t3 := RemoveTask(t2, launcher).sys;
    ForkMore(s, launcher, sh);
    ForkMore(t1, task, launcher);
    forall p ensures Inv(t3) && More(t2, t3) && (Registered(t3, p) <==> Registered(s, p) || p == task) {
      LauncherGone(s, t2, launcher, task, Task(launcher, Row(s, sh)), Task(task, Row(s, sh)), p);
    }
    MoreRoom(s, t1, n);
    MoreRoom(t1, t2, n);
    MoreRoom(t2, t3, n);
  }
}
