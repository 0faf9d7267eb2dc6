// What clients of the VFS are told, besides what other modules say of pipe(),
// open(), dup(), files and the data of a pipe.
module VfsAnswers {
  import opened Common
  import opened FdTable
  import opened VfsSpec
  import opened VfsInvariant
  import opened VfsRun
  import opened VfsViews
  import L = VfsLeaks
  import P = PipeSpec
  import R = RamDiskSpec
  import U = VfsUndo

  /** A read or write at a descriptor that is not open is told EOF and does
      nothing. */
  lemma ClosedTellsEof(s: Sys, q: Req)
    requires Inv(s) && Callable(s, q) && q.RwReq? && (q.fd < 0 || View(s, q.pid)[q.fd] < 0)
    ensures Step(s, q) == (s, [P.Reply(q.pid, EOF)])
  {
    RowFits(s, q.pid);
  }

  /** While driver counts are exact, a read or write on a pipe is told EOF at once
      exactly when no other description is open on that pipe; any other is held
      or meets its partner. */
  lemma {:induction false} RefusedExactly(s: Sys, q: Req, f: int, ino: nat)
    requires Inv(s) && L.Exact(s) && Callable(s, q) && q.RwReq? && 0 <= q.fd && ino < MAX_INO
    requires f == Row(s, q.pid)[q.fd] && 0 <= f < MAX_FILP && s.filps[f].dev == PIPE_DEV && s.filps[f].ino == ino
    ensures Names(s.filps, PIPE_DEV, ino) == 1 <==> Step(s, q) == (s, [P.Reply(q.pid, EOF)])
    ensures Names(s.filps, PIPE_DEV, ino) == 1 || Step(s, q).1 == [] || |Step(s, q).1| == 2
  {
    var k := FindTask(s.tasks, q.pid);
    OpenDescriptorIsBacked(s, k, q.fd);
    TransferInv(s, k, q.fd, P.Request(q.kind, q.pid, q.data));
    assert Names(s.filps, PIPE_DEV, ino) == Refcnt(s, PIPE_DEV, ino);
    assert PipeOk(s.pipe[ino]);
    NamesPositive(s.filps, f);
    var n := s.pipe[ino].value;
    var r := P.Request(q.kind, q.pid, q.data);
    if Names(s.filps, PIPE_DEV, ino) == 1 {
      assert n.msgs == [];
      assert s.pipe[ino := Some(n)] == s.pipe;
    }
  }

  /** Registration of a new task is answered with its pid, and then the task is
      there with its parent's descriptors, or with none if it has no parent; or,
      if the parent is unknown, with the null pid, and then nothing has changed. */
  lemma {:induction false} AddTaskTells(s: Sys, pid: Pid, parent: Pid)
    requires Inv(s) && !Registered(s, pid) && parent != pid
    ensures var o := AddTask(s, pid, parent);
            && Shape(o.sys)
            && if parent == NULL_PID || Registered(s, parent) then
                 && o.result == pid && Registered(o.sys, pid)
                 && Row(o.sys, pid) == if parent == NULL_PID then ALL_CLOSED else Row(s, parent)
               else
                 o.result == NULL_PID && o.sys == s
  {
    AddTaskInv(s, pid, parent);
    var s0 := WithTask(s, pid);
    FirstIs(s0.tasks, pid, |s.tasks|);
    if parent != NULL_PID {
      if Registered(s, parent) {
        FirstIs(s0.tasks, parent, FindTask(s.tasks, parent));
        U.ForkInherits(s, pid, parent);
        FirstIs(AddTask(s, pid, parent).sys.tasks, pid, |s.tasks|);
      } else {
        StrangerUnknown(s, pid, parent);
        EmptyTaskGoes(s, pid);
      }
    }
  }

  lemma StrangerUnknown(s: Sys, pid: Pid, parent: Pid)
    requires !Registered(s, parent) && parent != pid
    ensures !Registered(WithTask(s, pid), parent)
  {
  }

  // Removing a task that has nothing open.
  lemma {:induction false} EmptyTaskGoes(s: Sys, pid: Pid)
    requires Inv(s) && !Registered(s, pid)
    ensures Shape(WithTask(s, pid)) && RemoveTask(WithTask(s, pid), pid).sys == s
  {
    EmptyTableInv(s, pid);
    var s0 := WithTask(s, pid);
    FirstIs(s0.tasks, pid, |s.tasks|);
    NothingToClose(s0, |s.tasks|, 0);
    RemoveTaskIs(s0, pid);
    assert s0.tasks[..|s.tasks|] + s0.tasks[|s.tasks| + 1..] == s.tasks;
  }

  lemma {:induction false} NothingToClose(s: Sys, k: nat, fd: nat)
    requires Shape(s) && k < |s.tasks| && fd <= MAX_FD && s.tasks[k].fd == ALL_CLOSED
    ensures CloseFrom(s, k, fd).0 == s
    decreases MAX_FD - fd
  {
    if fd < MAX_FD {
      assert ALL_CLOSED[fd := CLOSED] == ALL_CLOSED;
      assert s.tasks[k := s.tasks[k].(fd := ALL_CLOSED)] == s.tasks;
      assert Close(s, k, fd).sys == s;
      NothingToClose(s, k, fd + 1);
    }
  }

  // ----- the disk's commands -----

  /** Making an inode is answered with the number of an inode that was free and is
      now there, empty, without links or references; or with -1 when none was
      free.  No other inode changes. */
  lemma MknodTells(disk: seq<Option<R.File>>)
    ensures var (t, r) := R.Command(disk, R.Mknod);
            && |t| == |disk|
            && if forall i | 0 <= i < |disk| :: disk[i].Some? then r == -1 && t == disk
               else
                 && 0 <= r < |disk| && disk[r].None? && t[r].Some?
                 && t[r].value.size == 0 && t[r].value.links == 0 && t[r].value.refcnt == 0
                 && forall i | 0 <= i < |disk| && i != r :: t[i] == disk[i]
  {
    var i := R.FreeNode(disk);
    if exists j | 0 <= j < |disk| :: disk[j].None? {
      assert 0 <= i;
    }
  }

  /** Linking or unlinking is answered with the inode's number, or with -1 when it
      is missing, and then nothing has changed. */
  lemma LinkTells(disk: seq<Option<R.File>>, c: R.Cmd)
    requires !c.Mknod? && R.InRange(disk, c)
    ensures var (t, r) := R.Command(disk, c);
            && |t| == |disk| && (forall i | 0 <= i < |disk| && i != c.ino :: t[i] == disk[i])
            && if disk[c.ino].None? then r == -1 && t == disk else r == c.ino
  {
  }
}
