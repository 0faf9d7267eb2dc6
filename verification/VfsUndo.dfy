// Pairs of VFS requests that cancel out.
module VfsUndo {
  import opened Common
  import opened FdTable
  import opened VfsSpec
  import opened VfsInvariant
  import opened VfsRun
  import P = PipeSpec
  import R = RamDiskSpec

  /** Closing what dup returned undoes the dup. */
  lemma CloseUndoesDup(s: Sys, k: nat, fd: int)
    requires Inv(s) && k < |s.tasks| && fd < MAX_FD && Dup(s, k, fd).result >= 0
    ensures var o := Dup(s, k, fd);
            Close(o.sys, k, o.result).sys == s && Close(o.sys, k, o.result).replies == []
  {
    OpenDescriptorIsBacked(s, k, fd);
    var free := LowestFree(s.tasks[k].fd);
    var f := s.tasks[k].fd[fd];
    var t := Dup(s, k, fd).sys;
    var u := Close(t, k, free).sys;
    assert u.tasks[k].fd == s.tasks[k].fd;
    assert u.tasks == s.tasks;
    assert u.filps == s.filps;
  }

  // The counts of all descriptions after table[fd..] has been added to
  // (delta = 1) or taken from (delta = -1) them.
  function Bump(filps: seq<Filp>, table: Table, fd: nat, delta: int): seq<Filp>
    requires fd <= |table|
  {
    seq(|filps|, (i: nat) requires i < |filps| =>
      filps[i].(refcnt := filps[i].refcnt + delta * Count(table[fd..], i)))
  }

  function Adjust(filps: seq<Filp>, f: nat, delta: int): seq<Filp>
    requires f < |filps|
  {
    filps[f := filps[f].(refcnt := filps[f].refcnt + delta)]
  }

  lemma BumpStep(filps: seq<Filp>, table: Table, fd: nat, delta: int)
    requires fd < |table| && table[fd] < |filps|
    ensures Bump(if table[fd] < 0 then filps else Adjust(filps, table[fd], delta), table, fd + 1, delta)
         == Bump(filps, table, fd, delta)
  {
    var f := table[fd];
    var now := if f < 0 then filps else Adjust(filps, f, delta);
    assert table[fd..][1..] == table[fd + 1..];
    forall i: nat | i < |filps|
      ensures Bump(now, table, fd + 1, delta)[i] == Bump(filps, table, fd, delta)[i]
    {
      assert Count(table[fd..], i) == (if f == i then 1 else 0) + Count(table[fd + 1..], i);
    }
  }

  lemma {:induction false} InheritBumps(s: Sys, child: nat, table: Table, fd: nat)
    requires Shape(s) && child < |s.tasks| && IsTable(table) && fd <= MAX_FD
    requires forall i | 0 <= i < MAX_FD :: table[i] < MAX_FILP
    ensures Inherit(s, child, table, fd).filps == Bump(s.filps, table, fd, 1)
    ensures Inherit(s, child, table, fd).disk == s.disk
    decreases MAX_FD - fd
  {
    if fd < MAX_FD {
      BumpStep(s.filps, table, fd, 1);
      var t := if table[fd] < 0 then s else AddRef(SetFd(s, child, fd, table[fd]), table[fd], 1);
      InheritBumps(t, child, table, fd + 1);
    } else {
      BumpNothing(s.filps, table, 1);
    }
  }

  // Every description in table[fd..] has references besides those.
  ghost predicate Spare(filps: seq<Filp>, table: Table, fd: nat)
    requires fd <= |table|
  {
    forall f | 0 <= f < |filps| :: filps[f].refcnt > Count(table[fd..], f) || Count(table[fd..], f) == 0
  }

  lemma SpareStep(filps: seq<Filp>, table: Table, fd: nat)
    requires fd < |table| && table[fd] < |filps| && Spare(filps, table, fd)
    ensures Spare(if table[fd] < 0 then filps else Adjust(filps, table[fd], -1), table, fd + 1)
    ensures 0 <= table[fd] ==> 1 < filps[table[fd]].refcnt
  {
    var f := table[fd];
    var now := if f < 0 then filps else Adjust(filps, f, -1);
    assert table[fd..][1..] == table[fd + 1..];
    forall g | 0 <= g < |now| ensures now[g].refcnt > Count(table[fd + 1..], g) || Count(table[fd + 1..], g) == 0 {
      assert filps[g].refcnt > Count(table[fd..], g) || Count(table[fd..], g) == 0;
    }
  }

  // Closing a descriptor of a shared description touches no inode.
  lemma CloseShared(s: Sys, k: nat, fd: nat)
    requires Shape(s) && k < |s.tasks| && fd < MAX_FD
    requires 0 <= s.tasks[k].fd[fd] ==> 1 < s.filps[s.tasks[k].fd[fd]].refcnt
    ensures var f := s.tasks[k].fd[fd];
            var o := Close(s, k, fd);
            && o.replies == [] && o.sys.pipe == s.pipe && o.sys.disk == s.disk
            && o.sys.filps == if f < 0 then s.filps else Adjust(s.filps, f, -1)
  {
  }

  lemma BumpNothing(filps: seq<Filp>, table: Table, delta: int)
    ensures Bump(filps, table, |table|, delta) == filps
  {
    assert table[|table|..] == [];
  }

  lemma {:induction false} CloseFromBumps(s: Sys, k: nat, table: Table, fd: nat)
    requires Shape(s) && k < |s.tasks| && fd <= MAX_FD && IsTable(table)
    requires forall i | fd <= i < MAX_FD :: s.tasks[k].fd[i] == table[i] < MAX_FILP
    requires Spare(s.filps, table, fd)
    ensures var (t, woken) := CloseFrom(s, k, fd);
            && t.filps == Bump(s.filps, table, fd, -1)
            && t.pipe == s.pipe && t.disk == s.disk && woken == []
            && (forall j | 0 <= j < |s.tasks| && j != k :: t.tasks[j] == s.tasks[j])
    decreases MAX_FD - fd
  {
    if fd < MAX_FD {
      BumpStep(s.filps, table, fd, -1);
      SpareStep(s.filps, table, fd);
      CloseShared(s, k, fd);
      CloseTable(s, k, fd);
      CloseFromBumps(Close(s, k, fd).sys, k, table, fd + 1);
    } else {
      BumpNothing(s.filps, table, -1);
    }
  }

  lemma {:induction false} SlotsAtLeast(tasks: seq<Task>, k: nat, f: int)
    requires k < |tasks|
    ensures Count(tasks[k].fd, f) <= Slots(tasks, f)
  {
    if k > 0 {
      SlotsAtLeast(tasks[1..], k - 1, f);
    }
  }

  // A new child of a registered parent shares the parent's whole table.
  lemma ForkInherits(s: Sys, pid: Pid, parent: Pid)
    requires Inv(s) && parent != NULL_PID && 0 <= FindTask(s.tasks, parent)
    ensures var t := AddTask(s, pid, parent).sys;
            var table := s.tasks[FindTask(s.tasks, parent)].fd;
            && t.tasks == s.tasks + [Task(pid, table)]
            && t.filps == Bump(s.filps, table, 0, 1)
            && t.pipe == s.pipe && t.disk == s.disk
  {
    EmptyTableInv(s, pid);
    var s0 := WithTask(s, pid);
    var k := FindTask(s.tasks, parent);
    FoundBefore(s.tasks, Task(pid, ALL_CLOSED), parent);
    var table := s.tasks[k].fd;
    OpenDescriptorsAreBacked(s0, k);
    InheritInv(s0, |s.tasks|, table, 0);
    InheritBumps(s0, |s.tasks|, table, 0);
    InheritPipe(s0, |s.tasks|, table, 0);
    WholeTable(s.tasks, pid, ALL_CLOSED, table, 0);
  }

  lemma FoundBefore(tasks: seq<Task>, t: Task, pid: Pid)
    requires 0 <= FindTask(tasks, pid)
    ensures FindTask(tasks + [t], pid) == FindTask(tasks, pid)
  {
    var k := FindTask(tasks, pid);
    assert (tasks + [t])[k] == tasks[k];
    assert forall j | 0 <= j < k :: (tasks + [t])[j] == tasks[j];
  }

  lemma WholeTable(tasks: seq<Task>, pid: Pid, was: Table, table: Table, none: nat)
    requires none == 0
    ensures (tasks + [Task(pid, was)])[|tasks| := Task(pid, was[..none] + table[none..])] == tasks + [Task(pid, table)]
  {
    assert was[..none] + table[none..] == table;
  }

  lemma BumpBack(filps: seq<Filp>, table: Table)
    ensures Bump(Bump(filps, table, 0, 1), table, 0, -1) == filps
  {
  }

  lemma NewestIsFound(tasks: seq<Task>, t: Task)
    requires FindTask(tasks, t.pid) < 0
    ensures FindTask(tasks + [t], t.pid) == |tasks|
  {
    var all := tasks + [t];
    assert all[|tasks|] == t;
    assert forall j | 0 <= j < |tasks| :: all[j] == tasks[j];
  }

  lemma DropNewest(tasks: seq<Task>, c: seq<Task>)
    requires |c| == |tasks| + 1 && forall j | 0 <= j < |tasks| :: c[j] == tasks[j]
    ensures c[..|tasks|] + c[|tasks| + 1..] == tasks
  {
  }

  // Removing a task whose descriptions are all shared only lowers counts.
  lemma RemoveShared(t: Sys, tasks: seq<Task>, pid: Pid, table: Table)
    requires Shape(t) && IsTable(table) && t.tasks == tasks + [Task(pid, table)] && FindTask(tasks, pid) < 0
    requires Spare(t.filps, table, 0)
    ensures RemoveTask(t, pid) == Outcome(t.(tasks := tasks, filps := Bump(t.filps, table, 0, -1)), 0, [])
  {
    var n := |tasks|;
    NewestIsFound(tasks, Task(pid, table));
    assert IsTask(t.tasks[n]);
    CloseFromBumps(t, n, table, 0);
    DropNewest(tasks, CloseFrom(t, n, 0).0.tasks);
  }

  // The parent's own slots are the spare references.
  lemma ForkSpares(s: Sys, k: nat)
    requires Inv(s) && k < |s.tasks|
    ensures Spare(Bump(s.filps, s.tasks[k].fd, 0, 1), s.tasks[k].fd, 0)
  {
    var table := s.tasks[k].fd;
    assert table[0..] == table;
    forall f | 0 <= f < MAX_FILP
      ensures s.filps[f].refcnt + Count(table, f) > Count(table, f) || Count(table, f) == 0
    {
      SlotsAtLeast(s.tasks, k, f);
    }
  }

  /** Registering a child with its parent's descriptors and removing it again
      restores every count, and wakes nobody. */
  lemma RemoveUndoesFork(s: Sys, pid: Pid, parent: Pid)
    requires Inv(s) && parent != NULL_PID && 0 <= FindTask(s.tasks, parent)
    requires FindTask(s.tasks, pid) < 0
    ensures var t := AddTask(s, pid, parent).sys;
            Shape(t) && RemoveTask(t, pid) == Outcome(s, 0, [])
  {
    ForkInherits(s, pid, parent);
    AddTaskInv(s, pid, parent);
    var t := AddTask(s, pid, parent).sys;
    var k := FindTask(s.tasks, parent);
    var table := s.tasks[k].fd;
    ForkSpares(s, k);
    RemoveShared(t, s.tasks, pid, table);
    BumpBack(s.filps, table);
  }
}
