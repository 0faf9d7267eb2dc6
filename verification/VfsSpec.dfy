// The VFS server together with its pipe device and memory disk, as one
// transition system: three levels of references (descriptor slots, open file
// descriptions, device inodes) and the clients parked in pipe queues.
module VfsSpec {
  import opened Common
  import opened FdTable
  import P = PipeSpec
  import R = RamDiskSpec

  const MAX_FILP: nat := 16
  const PIPE_DEV: int := 0
  const DISK_DEV: int := 1
  const MAX_INO: nat := 8

  // An open file description; it is free when refcnt is 0.
  datatype Filp = Filp(dev: int, ino: int, refcnt: int, pos: int)

  datatype Task = Task(pid: Pid, fd: Table)

  datatype Sys = Sys(filps: seq<Filp>, tasks: seq<Task>, pipe: seq<Option<P.Node>>, disk: seq<Option<R.File>>)

  // The new state, the value returned to the caller, and the readc()/writec()
  // answers sent out, in order.
  datatype Outcome = Outcome(sys: Sys, result: int, replies: seq<P.Reply>)

  predicate IsInode(dev: int, ino: int) {
    (dev == PIPE_DEV || dev == DISK_DEV) && 0 <= ino < MAX_INO
  }

  ghost predicate IsTask(t: Task) {
    IsTable(t.fd) && forall i | 0 <= i < MAX_FD :: t.fd[i] < MAX_FILP
  }

  // Descriptions start out zeroed, so even a free one names an inode in range.
  ghost predicate IsFilp(f: Filp) {
    IsInode(f.dev, f.ino) && 0 <= f.pos
  }

  // The tables have their fixed sizes and every index in them is in range.
  ghost predicate Shape(s: Sys) {
    && |s.filps| == MAX_FILP
    && |s.pipe| == P.PD_MAX_NODES == MAX_INO
    && |s.disk| == R.MF_MAX_NODES == MAX_INO
    && (forall k | 0 <= k < |s.tasks| :: IsTask(s.tasks[k]))
    && (forall i | 0 <= i < MAX_FILP :: IsFilp(s.filps[i]))
    && (forall i | 0 <= i < MAX_INO :: s.disk[i].Some? ==> R.IsFile(s.disk[i].value))
  }

  // ----- table searches -----

  function FreeFilp(filps: seq<Filp>): (i: int)
    ensures -1 <= i < |filps|
    ensures 0 <= i ==> filps[i].refcnt == 0 && forall j | 0 <= j < i :: filps[j].refcnt != 0
    ensures i < 0 ==> forall j | 0 <= j < |filps| :: filps[j].refcnt != 0
  {
    FirstWhere(filps, (f: Filp) => f.refcnt == 0)
  }

  function FindTask(tasks: seq<Task>, pid: Pid): (k: int)
    ensures -1 <= k < |tasks|
    ensures 0 <= k ==> tasks[k].pid == pid && forall j | 0 <= j < k :: tasks[j].pid != pid
    ensures k < 0 ==> forall j | 0 <= j < |tasks| :: tasks[j].pid != pid
  {
    FirstWhere(tasks, (t: Task) => t.pid == pid)
  }

  // ----- device commands -----

  function PipeApply(s: Sys, ino: nat, c: P.Cmd): Sys
    requires Shape(s) && ino < MAX_INO && s.pipe[ino].Some?
  {
    s.(pipe := s.pipe[ino := P.Apply(s.pipe[ino].value, c).node])
  }

  function GrabInode(s: Sys, dev: int, ino: int): (Sys, bool)
    requires Shape(s) && IsInode(dev, ino)
  {
    if dev == PIPE_DEV then
      if s.pipe[ino].None? then (s, false) else (PipeApply(s, ino, P.Grab), true)
    else if s.disk[ino].None? then (s, false)
    else
      var f := s.disk[ino].value;
      (s.(disk := s.disk[ino := Some(f.(refcnt := f.refcnt + 1))]), true)
  }

  function ReleaseInode(s: Sys, dev: int, ino: int): (r: (Sys, seq<P.Reply>))
    requires Shape(s) && IsInode(dev, ino)
    ensures Shape(r.0) && r.0.tasks == s.tasks && r.0.filps == s.filps
  {
    if dev == PIPE_DEV then
      if s.pipe[ino].None? then (s, [])
      else (PipeApply(s, ino, P.Release), P.Apply(s.pipe[ino].value, P.Release).replies)
    else if s.disk[ino].None? then (s, [])
    else
      var f := s.disk[ino].value;
      (s.(disk := s.disk[ino := R.Kept(f.(refcnt := f.refcnt - 1))]), [])
  }

  // A command that makes, links or unlinks an inode of the memory disk.
  function DiskCommand(s: Sys, c: R.Cmd): (t: Sys)
    requires Shape(s) && R.InRange(s.disk, c)
    ensures Shape(t)
  {
    s.(disk := R.Command(s.disk, c).0)
  }

  // ----- requests of a registered task; `k` is its index -----

  function SetFd(s: Sys, k: nat, fd: nat, f: int): Sys
    requires k < |s.tasks| && fd < |s.tasks[k].fd|
  {
    s.(tasks := s.tasks[k := s.tasks[k].(fd := s.tasks[k].fd[fd := f])])
  }

  function AddRef(s: Sys, f: nat, delta: int): Sys
    requires f < |s.filps|
  {
    s.(filps := s.filps[f := s.filps[f].(refcnt := s.filps[f].refcnt + delta)])
  }

  function Dup(s: Sys, k: nat, fd: int): Outcome
    requires Shape(s) && k < |s.tasks| && fd < MAX_FD
  {
    if fd < 0 || s.tasks[k].fd[fd] < 0 then Outcome(s, -1, [])
    else
      var f := s.tasks[k].fd[fd];
      var free := LowestFree(s.tasks[k].fd);
      if free < 0 then Outcome(s, -1, [])
      else Outcome(AddRef(SetFd(s, k, free, f), f, 1), free, [])
  }

  // A free description starts naming an inode and a closed descriptor refers
  // to it.
  function Bind(s: Sys, k: nat, fd: nat, f: nat, dev: int, ino: int, pos: int): Sys
    requires k < |s.tasks| && fd < |s.tasks[k].fd| && f < |s.filps|
  {
    SetFd(s, k, fd, f).(filps := s.filps[f := Filp(dev, ino, s.filps[f].refcnt + 1, pos)])
  }

  // One end of a pipe: None when descriptions or descriptors have run out.
  function BindEnd(s: Sys, k: nat, ino: int): Option<(Sys, int)>
    requires k < |s.tasks|
  {
    var f := FreeFilp(s.filps);
    var fd := LowestFree(s.tasks[k].fd);
    if f < 0 || fd < 0 then None
    else Some((Bind(s, k, fd, f, PIPE_DEV, ino, s.filps[f].pos), fd))
  }

  // A new pipe inode, which has been grabbed twice.
  function NewPipeInode(s: Sys): Sys
    requires Shape(s) && 0 <= P.FreeInode(s.pipe)
  {
    s.(pipe := s.pipe[P.FreeInode(s.pipe) := Some(P.Node(2, 0, []))])
  }

  // What pipe() does: `ends` of its two ends are bound, and its caller reads
  // `fdi` and `fdo` in the reply.  With no end bound, fdi is the number of the
  // new inode, which the driver has left in that place; while the second end
  // is not bound, fdo is whatever the caller had in its message: None.
  datatype PipeOutcome = PipeOutcome(sys: Sys, result: int, ends: nat, fdi: int, fdo: Option<int>)

  function MakePipe(s: Sys, k: nat): PipeOutcome
    requires Shape(s) && k < |s.tasks| && 0 <= P.FreeInode(s.pipe)
  {
    var ino := P.FreeInode(s.pipe);
    var s0 := NewPipeInode(s);
    match BindEnd(s0, k, ino)
    case None => PipeOutcome(s0, -1, 0, ino, None)
    case Some((s1, fdi)) =>
      match BindEnd(s1, k, ino)
      case None => PipeOutcome(s1, -1, 1, fdi, None)
      case Some((s2, fdo)) => PipeOutcome(s2, 0, 2, fdi, Some(fdo))
  }

  function Open(s: Sys, k: nat, dev: int, ino: int): Outcome
    requires Shape(s) && k < |s.tasks| && IsInode(dev, ino)
  {
    var fd := LowestFree(s.tasks[k].fd);
    var f := FreeFilp(s.filps);
    if fd < 0 || f < 0 then Outcome(s, -1, [])
    else
      // the description is filled in before the device is asked
      var s0 := s.(filps := s.filps[f := Filp(dev, ino, 0, 0)]);
      var (s1, ok) := GrabInode(s0, dev, ino);
      if !ok then Outcome(s0, -1, [])
      else Outcome(AddRef(SetFd(s1, k, fd, f), f, 1), fd, [])
  }

  // The description loses a reference; the last one releases the inode.
  function Drop(s: Sys, f: nat): (Sys, seq<P.Reply>)
    requires Shape(s) && f < MAX_FILP
  {
    if s.filps[f].refcnt == 0 then (s, [])   // "serious error" in the source
    else
      var s1 := AddRef(s, f, -1);
      if s1.filps[f].refcnt != 0 then (s1, [])
      else ReleaseInode(s1, s.filps[f].dev, s.filps[f].ino)
  }

  function Close(s: Sys, k: nat, fd: int): (o: Outcome)
    requires Shape(s) && k < |s.tasks| && fd < MAX_FD
    ensures Shape(o.sys) && |o.sys.tasks| == |s.tasks|
  {
    if fd < 0 then Outcome(s, fd, [])
    else
      var f := s.tasks[k].fd[fd];
      var s0 := SetFd(s, k, fd, CLOSED);
      if f < 0 then Outcome(s0, fd, [])
      else
        var (s1, woken) := Drop(s0, f);
        Outcome(s1, fd, woken)
  }

  ghost function Transfer(s: Sys, k: nat, fd: int, r: P.Request): Outcome
    requires Shape(s) && k < |s.tasks| && fd < MAX_FD
    requires Reachable(s, k, fd)
  {
    if fd < 0 || s.tasks[k].fd[fd] < 0 then Outcome(s, EOF, [P.Reply(r.client, EOF)])
    else
      var f := s.tasks[k].fd[fd];
      var p := s.filps[f];
      if p.dev == PIPE_DEV then
        Outcome(PipeApply(s, p.ino, P.Transfer(r)), 0, P.Apply(s.pipe[p.ino].value, P.Transfer(r)).replies)
      else if r.kind == P.WriteC then
        var (file, v, n) := R.WriteAt(s.disk[p.ino].value, p.pos, r.data);
        Outcome(s.(disk := s.disk[p.ino := Some(file)], filps := s.filps[f := p.(pos := p.pos + n)]),
                v, [P.Reply(r.client, v)])
      else
        var (v, n) := R.ReadAt(s.disk[p.ino].value, p.pos);
        Outcome(s.(filps := s.filps[f := p.(pos := p.pos + n)]), v, [P.Reply(r.client, v)])
  }

  // The inode behind an open descriptor exists; the drivers dereference it
  // without a check.
  ghost predicate Reachable(s: Sys, k: nat, fd: int)
    requires Shape(s) && k < |s.tasks| && fd < MAX_FD
  {
    0 <= fd && 0 <= s.tasks[k].fd[fd] ==>
      var p := s.filps[s.tasks[k].fd[fd]];
      0 < p.refcnt && HasInode(s, p.dev, p.ino)
  }

  predicate HasInode(s: Sys, dev: int, ino: int)
    requires Shape(s) && IsInode(dev, ino)
  {
    if dev == PIPE_DEV then s.pipe[ino].Some? else s.disk[ino].Some?
  }

  // ----- task registration -----

  // Close descriptors fd, fd+1, ... 7 of task `k`.
  function CloseFrom(s: Sys, k: nat, fd: nat): (r: (Sys, seq<P.Reply>))
    requires Shape(s) && k < |s.tasks| && fd <= MAX_FD
    ensures Shape(r.0) && |r.0.tasks| == |s.tasks|
    decreases MAX_FD - fd, s
  {
    if fd == MAX_FD then (s, [])
    else
      var o := Close(s, k, fd);
      var (t, woken) := CloseFrom(o.sys, k, fd + 1);
      (t, o.replies + woken)
  }

  function RemoveTask(s: Sys, pid: Pid): Outcome
    requires Shape(s)
  {
    var k := FindTask(s.tasks, pid);
    if k < 0 then Outcome(s, 0, [])
    else
      var (t, woken) := CloseFrom(s, k, 0);
      Outcome(t.(tasks := t.tasks[..k] + t.tasks[k + 1..]), 0, woken)
  }

  // The child's table takes over the descriptors of its parent from `fd` up.
  function Inherit(s: Sys, child: nat, table: Table, fd: nat): (t: Sys)
    requires Shape(s) && child < |s.tasks| && IsTable(table) && fd <= MAX_FD
    requires forall i | 0 <= i < MAX_FD :: table[i] < MAX_FILP
    ensures Shape(t)
    decreases MAX_FD - fd, s
  {
    if fd == MAX_FD then s
    else if table[fd] < 0 then Inherit(s, child, table, fd + 1)
    else
      Inherit(AddRef(SetFd(s, child, fd, table[fd]), table[fd], 1), child, table, fd + 1)
  }

  // A new task with nothing open.
  function WithTask(s: Sys, pid: Pid): Sys {
    s.(tasks := s.tasks + [Task(pid, ALL_CLOSED)])
  }

  function AddTask(s: Sys, pid: Pid, parent: Pid): Outcome
    requires Shape(s)
  {
    var s0 := WithTask(s, pid);
    if parent == NULL_PID then Outcome(s0, pid, [])
    else
      var k := FindTask(s0.tasks, parent);
      if k < 0 then Outcome(RemoveTask(s0, pid).sys, NULL_PID, RemoveTask(s0, pid).replies)
      else Outcome(Inherit(s0, |s.tasks|, s0.tasks[k].fd, 0), pid, [])
  }
}
