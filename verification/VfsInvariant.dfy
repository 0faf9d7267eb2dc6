// What every VFS request keeps: reference counts on all three levels, and the
// queues of the pipe device.
module VfsInvariant {
  import opened Common
  import opened FdTable
  import opened VfsSpec
  import P = PipeSpec
  import R = RamDiskSpec

  // ----- counting references -----

  /** The (task, descriptor) slots that hold description `f`. */
  function Slots(tasks: seq<Task>, f: int): nat {
    if tasks == [] then 0 else Count(tasks[0].fd, f) + Slots(tasks[1..], f)
  }

  /** The open descriptions that name inode (dev, ino). */
  function Names(filps: seq<Filp>, dev: int, ino: int): nat {
    if filps == [] then 0 else Naming(filps[0], dev, ino) + Names(filps[1..], dev, ino)
  }

  function Naming(p: Filp, dev: int, ino: int): nat {
    if p.refcnt != 0 && p.dev == dev && p.ino == ino then 1 else 0
  }

  /** The reference count the driver keeps; 0 for an inode that is not there. */
  function Refcnt(s: Sys, dev: int, ino: int): int
    requires Shape(s) && IsInode(dev, ino)
  {
    if dev == PIPE_DEV then (if s.pipe[ino].None? then 0 else s.pipe[ino].value.refcnt)
    else if s.disk[ino].None? then 0 else s.disk[ino].value.refcnt
  }

  ghost predicate FilpsCounted(s: Sys)
    requires Shape(s)
  {
    forall f {:trigger Slots(s.tasks, f)} | 0 <= f < MAX_FILP :: s.filps[f].refcnt == Slots(s.tasks, f)
  }

  ghost predicate InodesBacked(s: Sys)
    requires Shape(s)
  {
    forall dev, ino {:trigger Names(s.filps, dev, ino)} {:trigger Refcnt(s, dev, ino)} | IsInode(dev, ino) ::
      Names(s.filps, dev, ino) <= Refcnt(s, dev, ino)
  }

  ghost predicate PipeOk(n: Option<P.Node>) {
    n.Some? ==> n.value.links == 0 && 0 < n.value.refcnt && P.Quiet(n.value) && P.OneKind(n.value.msgs)
  }

  ghost predicate PipesOk(s: Sys)
    requires Shape(s)
  {
    forall ino | 0 <= ino < MAX_INO :: PipeOk(s.pipe[ino])
  }

  ghost predicate Inv(s: Sys) {
    Shape(s) && FilpsCounted(s) && InodesBacked(s) && PipesOk(s)
  }

  // ----- how the counts move -----

  lemma {:induction false} SlotsUpdate(tasks: seq<Task>, k: nat, t: Task, f: int)
    requires k < |tasks|
    ensures Slots(tasks[k := t], f) == Slots(tasks, f) - Count(tasks[k].fd, f) + Count(t.fd, f)
  {
    if k > 0 {
      assert tasks[k := t][1..] == tasks[1..][k - 1 := t];
      SlotsUpdate(tasks[1..], k - 1, t, f);
    } else {
      assert tasks[0 := t][1..] == tasks[1..];
    }
  }

  lemma {:induction false} SlotsAppend(a: seq<Task>, b: seq<Task>, f: int)
    ensures Slots(a + b, f) == Slots(a, f) + Slots(b, f)
  {
    if a == [] {
      assert a + b == b;
    } else {
      assert (a + b)[1..] == a[1..] + b;
      SlotsAppend(a[1..], b, f);
    }
  }

  lemma SlotsRemove(tasks: seq<Task>, k: nat, f: int)
    requires k < |tasks|
    ensures Slots(tasks[..k] + tasks[k + 1..], f) == Slots(tasks, f) - Count(tasks[k].fd, f)
  {
    assert tasks == tasks[..k] + ([tasks[k]] + tasks[k + 1..]);
    SlotsAppend(tasks[..k], [tasks[k]] + tasks[k + 1..], f);
    assert ([tasks[k]] + tasks[k + 1..])[1..] == tasks[k + 1..];
    SlotsAppend(tasks[..k], tasks[k + 1..], f);
  }

  lemma {:induction false} SlotsPositive(tasks: seq<Task>, k: nat, fd: nat)
    requires k < |tasks| && fd < |tasks[k].fd|
    ensures 0 < Slots(tasks, tasks[k].fd[fd])
  {
    if k == 0 {
      CountZero(tasks[0].fd, tasks[0].fd[fd]);
    } else {
      SlotsPositive(tasks[1..], k - 1, fd);
    }
  }

  lemma {:induction false} NamesUpdate(filps: seq<Filp>, f: nat, p: Filp, dev: int, ino: int)
    requires f < |filps|
    ensures Names(filps[f := p], dev, ino)
         == Names(filps, dev, ino) - Naming(filps[f], dev, ino) + Naming(p, dev, ino)
  {
    if f > 0 {
      assert filps[f := p][1..] == filps[1..][f - 1 := p];
      NamesUpdate(filps[1..], f - 1, p, dev, ino);
    } else {
      assert filps[0 := p][1..] == filps[1..];
    }
  }

  lemma {:induction false} NamesPositive(filps: seq<Filp>, f: nat)
    requires f < |filps| && filps[f].refcnt != 0
    ensures 0 < Names(filps, filps[f].dev, filps[f].ino)
  {
    if f > 0 {
      NamesPositive(filps[1..], f - 1);
    }
  }

  // ----- building blocks -----

  // Pointing slot fd of task k at x moves one slot count from the old
  // description to the new one.
  lemma SetFdSlots(s: Sys, k: nat, fd: nat, x: int, f: int)
    requires Shape(s) && k < |s.tasks| && fd < MAX_FD
    ensures Slots(SetFd(s, k, fd, x).tasks, f)
         == Slots(s.tasks, f) - (if s.tasks[k].fd[fd] == f then 1 else 0) + if x == f then 1 else 0
  {
    SlotsUpdate(s.tasks, k, s.tasks[k].(fd := s.tasks[k].fd[fd := x]), f);
    CountUpdate(s.tasks[k].fd, fd, x, f);
  }

  /** An open descriptor names a counted description and a live inode, so the
      drivers never dereference a missing node for it. */
  lemma OpenDescriptorIsBacked(s: Sys, k: nat, fd: int)
    requires Inv(s) && k < |s.tasks| && 0 <= fd < MAX_FD && 0 <= s.tasks[k].fd[fd]
    ensures var p := s.filps[s.tasks[k].fd[fd]];
            0 < p.refcnt && HasInode(s, p.dev, p.ino) && 0 < Refcnt(s, p.dev, p.ino)
    ensures Reachable(s, k, fd)
  {
    var f := s.tasks[k].fd[fd];
    SlotsPositive(s.tasks, k, fd);
    NamesPositive(s.filps, f);
  }

  // A closed descriptor takes over a description that is already open.
  lemma ShareInv(s: Sys, k: nat, fd: nat, f: nat)
    requires Inv(s) && k < |s.tasks| && fd < MAX_FD && f < MAX_FILP
    requires s.tasks[k].fd[fd] < 0 && 0 < s.filps[f].refcnt
    ensures Inv(AddRef(SetFd(s, k, fd, f), f, 1))
  {
    var t := AddRef(SetFd(s, k, fd, f), f, 1);
    assert Shape(t);
    forall i | 0 <= i < MAX_FILP ensures t.filps[i].refcnt == Slots(t.tasks, i) {
      SetFdSlots(s, k, fd, f, i);
    }
    forall dev, ino | IsInode(dev, ino) ensures Names(t.filps, dev, ino) <= Refcnt(t, dev, ino) {
      NamesUpdate(s.filps, f, t.filps[f], dev, ino);
    }
  }

  lemma DupInv(s: Sys, k: nat, fd: int)
    requires Inv(s) && k < |s.tasks| && fd < MAX_FD
    ensures Inv(Dup(s, k, fd).sys)
  {
    if 0 <= fd && 0 <= s.tasks[k].fd[fd] && 0 <= LowestFree(s.tasks[k].fd) {
      OpenDescriptorIsBacked(s, k, fd);
      ShareInv(s, k, LowestFree(s.tasks[k].fd), s.tasks[k].fd[fd]);
    }
  }

  // A free description starts naming an inode that has a reference to spare.
  lemma BindInv(s: Sys, k: nat, fd: nat, f: nat, dev: int, ino: int, pos: nat)
    requires Inv(s) && k < |s.tasks| && fd < MAX_FD && f < MAX_FILP && IsInode(dev, ino)
    requires s.tasks[k].fd[fd] < 0 && s.filps[f].refcnt == 0
    requires Names(s.filps, dev, ino) < Refcnt(s, dev, ino)
    ensures var t := Bind(s, k, fd, f, dev, ino, pos);
            && Inv(t)
            && Names(t.filps, dev, ino) == Names(s.filps, dev, ino) + 1
            && (forall d, i | IsInode(d, i) && (d != dev || i != ino) ::
                  Names(t.filps, d, i) == Names(s.filps, d, i))
  {
    var t := Bind(s, k, fd, f, dev, ino, pos);
    assert Shape(t);
    forall i | 0 <= i < MAX_FILP ensures t.filps[i].refcnt == Slots(t.tasks, i) {
      SetFdSlots(s, k, fd, f, i);
    }
    forall d, i | IsInode(d, i)
      ensures Names(t.filps, d, i) == Names(s.filps, d, i) + if d == dev && i == ino then 1 else 0
      ensures Refcnt(t, d, i) == Refcnt(s, d, i)
    {
      NamesUpdate(s.filps, f, t.filps[f], d, i);
    }
  }

  // ----- pipe -----

  lemma NewPipeInodeInv(s: Sys)
    requires Inv(s) && 0 <= P.FreeInode(s.pipe)
    ensures var t := NewPipeInode(s);
            var ino := P.FreeInode(s.pipe);
            && Inv(t)
            && Names(t.filps, PIPE_DEV, ino) == 0
            && Refcnt(t, PIPE_DEV, ino) == 2
  {
    var ino := P.FreeInode(s.pipe);
    var t := NewPipeInode(s);
    assert Names(s.filps, PIPE_DEV, ino) <= Refcnt(s, PIPE_DEV, ino) == 0;
    forall dev, i | IsInode(dev, i) ensures Names(t.filps, dev, i) <= Refcnt(t, dev, i) {
      assert Names(s.filps, dev, i) <= Refcnt(s, dev, i);
    }
  }

  lemma BindEndInv(s: Sys, k: nat, ino: nat)
    requires Inv(s) && k < |s.tasks| && ino < MAX_INO
    requires Names(s.filps, PIPE_DEV, ino) < Refcnt(s, PIPE_DEV, ino)
    ensures var e := BindEnd(s, k, ino);
            e.Some? ==>
              && Inv(e.value.0)
              && |e.value.0.tasks| == |s.tasks|
              && e.value.0.pipe == s.pipe && e.value.0.disk == s.disk
              && Names(e.value.0.filps, PIPE_DEV, ino) == Names(s.filps, PIPE_DEV, ino) + 1
              && (forall d, i | IsInode(d, i) && (d != PIPE_DEV || i != ino) ::
                    Names(e.value.0.filps, d, i) == Names(s.filps, d, i))
  {
    var f := FreeFilp(s.filps);
    var fd := LowestFree(s.tasks[k].fd);
    if 0 <= f && 0 <= fd {
      BindInv(s, k, fd, f, PIPE_DEV, ino, s.filps[f].pos);
    }
  }

  lemma MakePipeInv(s: Sys, k: nat)
    requires Inv(s) && k < |s.tasks| && 0 <= P.FreeInode(s.pipe)
    ensures Inv(MakePipe(s, k).sys)
  {
    var ino := P.FreeInode(s.pipe);
    NewPipeInodeInv(s);
    var s0 := NewPipeInode(s);
    BindEndInv(s0, k, ino);
    if BindEnd(s0, k, ino).Some? {
      BindEndInv(BindEnd(s0, k, ino).value.0, k, ino);
    }
  }

  // ----- open -----

  // A free description may be filled in with any inode.
  lemma FillInv(s: Sys, f: nat, p: Filp)
    requires Inv(s) && f < MAX_FILP && s.filps[f].refcnt == 0 && p.refcnt == 0 && IsFilp(p)
    ensures Inv(s.(filps := s.filps[f := p]))
    ensures forall d, i | IsInode(d, i) :: Names(s.filps[f := p], d, i) == Names(s.filps, d, i)
  {
    var t := s.(filps := s.filps[f := p]);
    assert Shape(t);
    forall d, i | IsInode(d, i) ensures Names(t.filps, d, i) == Names(s.filps, d, i) {
      NamesUpdate(s.filps, f, p, d, i);
    }
    forall i | 0 <= i < MAX_FILP ensures t.filps[i].refcnt == Slots(t.tasks, i) {
      assert s.filps[i].refcnt == Slots(s.tasks, i);
    }
  }

  lemma GrabInv(s: Sys, dev: int, ino: int)
    requires Inv(s) && IsInode(dev, ino)
    ensures var (t, ok) := GrabInode(s, dev, ino);
            && Inv(t) && t.filps == s.filps && t.tasks == s.tasks
            && (ok ==> forall d, i | IsInode(d, i) ::
                  Refcnt(t, d, i) == Refcnt(s, d, i) + if d == dev && i == ino then 1 else 0)
  {
    var t := GrabInode(s, dev, ino).0;
    forall d, i | IsInode(d, i) ensures Names(t.filps, d, i) <= Refcnt(t, d, i) {
      assert Names(s.filps, d, i) <= Refcnt(s, d, i);
    }
    forall i | 0 <= i < MAX_FILP ensures t.filps[i].refcnt == Slots(t.tasks, i) {
      assert s.filps[i].refcnt == Slots(s.tasks, i);
    }
  }

  // The driver agrees, and the description filled in is bound.
  lemma {:induction false} GrantedInv(s: Sys, k: nat, fd: nat, f: nat, dev: int, ino: int)
    requires Inv(s) && k < |s.tasks| && fd < MAX_FD && s.tasks[k].fd[fd] < 0
    requires f < MAX_FILP && s.filps[f] == Filp(dev, ino, 0, 0) && IsInode(dev, ino) && HasInode(s, dev, ino)
    ensures Inv(AddRef(SetFd(GrabInode(s, dev, ino).0, k, fd, f), f, 1))
  {
    GrabInv(s, dev, ino);
    var t := GrabInode(s, dev, ino).0;
    assert Names(s.filps, dev, ino) <= Refcnt(s, dev, ino);
    assert Refcnt(t, dev, ino) == Refcnt(s, dev, ino) + 1;
    BindInv(t, k, fd, f, dev, ino, 0);
    assert AddRef(SetFd(t, k, fd, f), f, 1) == Bind(t, k, fd, f, dev, ino, 0);
  }

  lemma {:induction false} OpenInv(s: Sys, k: nat, dev: int, ino: int)
    requires Inv(s) && k < |s.tasks| && IsInode(dev, ino)
    ensures Inv(Open(s, k, dev, ino).sys)
  {
    var fd := LowestFree(s.tasks[k].fd);
    var f := FreeFilp(s.filps);
    if 0 <= fd && 0 <= f {
      FillInv(s, f, Filp(dev, ino, 0, 0));
      var s0 := s.(filps := s.filps[f := Filp(dev, ino, 0, 0)]);
      if HasInode(s0, dev, ino) {
        GrantedInv(s0, k, fd, f, dev, ino);
      }
    }
  }

  // ----- close -----

  lemma ReleaseInodeRefs(s: Sys, dev: int, ino: int)
    requires Shape(s) && PipesOk(s) && IsInode(dev, ino) && HasInode(s, dev, ino)
    ensures var t := ReleaseInode(s, dev, ino).0;
            && PipesOk(t)
            && Refcnt(t, dev, ino) == Refcnt(s, dev, ino) - 1
            && (forall d, i | IsInode(d, i) && (d != dev || i != ino) :: Refcnt(t, d, i) == Refcnt(s, d, i))
  {
  }

  // The counts after slot fd has been closed and description f has lost one
  // reference, before any inode is released.
  lemma UnshareCounts(s: Sys, k: nat, fd: nat)
    requires Inv(s) && k < |s.tasks| && fd < MAX_FD && 0 <= s.tasks[k].fd[fd]
    ensures var f := s.tasks[k].fd[fd];
            var t := AddRef(SetFd(s, k, fd, CLOSED), f, -1);
            && Shape(t) && FilpsCounted(t)
            && (forall d, i | IsInode(d, i) ::
                  Names(t.filps, d, i) == Names(s.filps, d, i)
                    - if t.filps[f].refcnt == 0 && d == s.filps[f].dev && i == s.filps[f].ino then 1 else 0)
  {
    var f := s.tasks[k].fd[fd];
    var t := AddRef(SetFd(s, k, fd, CLOSED), f, -1);
    OpenDescriptorIsBacked(s, k, fd);
    forall i | 0 <= i < MAX_FILP ensures t.filps[i].refcnt == Slots(t.tasks, i) {
      SetFdSlots(s, k, fd, CLOSED, i);
    }
    forall d, i | IsInode(d, i)
      ensures Names(t.filps, d, i) == Names(s.filps, d, i)
                - if t.filps[f].refcnt == 0 && d == s.filps[f].dev && i == s.filps[f].ino then 1 else 0
    {
      NamesUpdate(s.filps, f, t.filps[f], d, i);
    }
  }

  lemma CloseOpenInv(s: Sys, k: nat, fd: nat)
    requires Inv(s) && k < |s.tasks| && fd < MAX_FD && 0 <= s.tasks[k].fd[fd]
    ensures Inv(Close(s, k, fd).sys)
  {
    OpenDescriptorIsBacked(s, k, fd);
    UnshareCounts(s, k, fd);
    var f := s.tasks[k].fd[fd];
    var t := AddRef(SetFd(s, k, fd, CLOSED), f, -1);
    var dev, ino := s.filps[f].dev, s.filps[f].ino;
    if t.filps[f].refcnt == 0 {
      ReleaseInodeRefs(t, dev, ino);
    }
    var u := Close(s, k, fd).sys;
    forall d, i | IsInode(d, i) ensures Names(u.filps, d, i) <= Refcnt(u, d, i) {
      assert Names(s.filps, d, i) <= Refcnt(s, d, i);
    }
  }

  lemma CloseInv(s: Sys, k: nat, fd: int)
    requires Inv(s) && k < |s.tasks| && fd < MAX_FD
    ensures Inv(Close(s, k, fd).sys)
  {
    if 0 <= fd {
      if 0 <= s.tasks[k].fd[fd] {
        CloseOpenInv(s, k, fd);
      } else {
        var t := SetFd(s, k, fd, CLOSED);
        forall i | 0 <= i < MAX_FILP ensures t.filps[i].refcnt == Slots(t.tasks, i) {
          SetFdSlots(s, k, fd, CLOSED, i);
        }
      }
    }
  }

  // ----- read and write -----

  // A transfer changes no count.
  lemma TransferCounts(s: Sys, k: nat, fd: int, r: P.Request)
    requires Inv(s) && k < |s.tasks| && fd < MAX_FD && Reachable(s, k, fd)
    ensures var t := Transfer(s, k, fd, r).sys;
            && Shape(t) && t.tasks == s.tasks
            && (forall i | 0 <= i < MAX_FILP :: t.filps[i].refcnt == s.filps[i].refcnt)
            && (forall d, i | IsInode(d, i) ::
                  Names(t.filps, d, i) == Names(s.filps, d, i) && Refcnt(t, d, i) == Refcnt(s, d, i))
  {
    if 0 <= fd && 0 <= s.tasks[k].fd[fd] {
      var f := s.tasks[k].fd[fd];
      var t := Transfer(s, k, fd, r).sys;
      forall d, i | IsInode(d, i)
        ensures Names(t.filps, d, i) == Names(s.filps, d, i) && Refcnt(t, d, i) == Refcnt(s, d, i)
      {
        NamesUpdate(s.filps, f, t.filps[f], d, i);
      }
    }
  }

  lemma TransferPipes(s: Sys, k: nat, fd: int, r: P.Request)
    requires Inv(s) && k < |s.tasks| && fd < MAX_FD && Reachable(s, k, fd)
    ensures Shape(Transfer(s, k, fd, r).sys) && PipesOk(Transfer(s, k, fd, r).sys)
  {
    if 0 <= fd && 0 <= s.tasks[k].fd[fd] {
      var p := s.filps[s.tasks[k].fd[fd]];
      if p.dev == PIPE_DEV {
        P.QuietExactly(s.pipe[p.ino].value, P.Transfer(r));
      }
    }
  }

  lemma TransferInv(s: Sys, k: nat, fd: int, r: P.Request)
    requires Inv(s) && k < |s.tasks| && fd < MAX_FD
    ensures Reachable(s, k, fd) && Inv(Transfer(s, k, fd, r).sys)
  {
    if 0 <= fd && 0 <= s.tasks[k].fd[fd] {
      OpenDescriptorIsBacked(s, k, fd);
    }
    TransferCounts(s, k, fd, r);
    TransferPipes(s, k, fd, r);
  }

  // ----- inodes of the memory disk -----

  /** Making, linking and unlinking inodes frees none that is open: every count
      stays, and so does every inode that an open description names. */
  lemma {:induction false} DiskCommandInv(s: Sys, c: R.Cmd)
    requires Inv(s) && R.InRange(s.disk, c)
    ensures var t := DiskCommand(s, c);
            && Inv(t)
            && (forall d, i | IsInode(d, i) :: Refcnt(t, d, i) == Refcnt(s, d, i))
            && (forall i | 0 <= i < MAX_INO && 0 < Names(s.filps, DISK_DEV, i) :: t.disk[i].Some?)
  {
    var t := DiskCommand(s, c);
    forall d, i | IsInode(d, i) ensures Refcnt(t, d, i) == Refcnt(s, d, i) {
      if d == DISK_DEV { R.CommandReferences(s.disk, c, i); }
    }
    forall d, i | IsInode(d, i) ensures Names(t.filps, d, i) <= Refcnt(t, d, i) {
      assert Names(s.filps, d, i) <= Refcnt(s, d, i);
    }
    forall f | 0 <= f < MAX_FILP ensures t.filps[f].refcnt == Slots(t.tasks, f) {
      assert s.filps[f].refcnt == Slots(s.tasks, f);
    }
    forall i | 0 <= i < MAX_INO && 0 < Names(s.filps, DISK_DEV, i) ensures t.disk[i].Some? {
      assert 0 < Refcnt(t, DISK_DEV, i);
    }
  }

  // ----- task registration -----

  lemma {:induction false} CloseFromInv(s: Sys, k: nat, fd: nat)
    requires Inv(s) && k < |s.tasks| && fd <= MAX_FD
    requires forall i | 0 <= i < fd :: s.tasks[k].fd[i] < 0
    ensures var t := CloseFrom(s, k, fd).0;
            && Inv(t)
            && (forall i | 0 <= i < MAX_FD :: t.tasks[k].fd[i] < 0)
            && (forall j | 0 <= j < |s.tasks| && j != k :: t.tasks[j] == s.tasks[j])
            && t.tasks[k].pid == s.tasks[k].pid
    decreases MAX_FD - fd
  {
    if fd < MAX_FD {
      CloseInv(s, k, fd);
      CloseTable(s, k, fd);
      CloseFromInv(Close(s, k, fd).sys, k, fd + 1);
    }
  }

  /** Closing touches one slot of one table. */
  lemma CloseTable(s: Sys, k: nat, fd: int)
    requires Shape(s) && k < |s.tasks| && 0 <= fd < MAX_FD
    ensures Close(s, k, fd).sys.tasks == SetFd(s, k, fd, CLOSED).tasks
  {
  }

  function Without(s: Sys, k: nat): Sys
    requires k < |s.tasks|
  {
    s.(tasks := s.tasks[..k] + s.tasks[k + 1..])
  }

  lemma WithoutShape(s: Sys, k: nat)
    requires Shape(s) && k < |s.tasks|
    ensures Shape(Without(s, k))
  {
    var ts := s.tasks[..k] + s.tasks[k + 1..];
    forall j | 0 <= j < |ts| ensures IsTask(ts[j]) {
      assert ts[j] == if j < k then s.tasks[j] else s.tasks[j + 1];
    }
  }

  lemma WithoutInv(s: Sys, k: nat)
    requires Inv(s) && k < |s.tasks|
    requires forall i | 0 <= i < MAX_FD :: s.tasks[k].fd[i] < 0
    ensures Inv(Without(s, k))
  {
    WithoutShape(s, k);
    var t := Without(s, k);
    forall i | 0 <= i < MAX_FILP ensures Slots(t.tasks, i) == Slots(s.tasks, i) {
      SlotsRemove(s.tasks, k, i);
      CountZero(s.tasks[k].fd, i);
    }
  }

  lemma RemoveTaskIs(s: Sys, pid: Pid)
    requires Shape(s)
    ensures var k := FindTask(s.tasks, pid);
            RemoveTask(s, pid).sys == if k < 0 then s else Without(CloseFrom(s, k, 0).0, k)
  {
  }

  lemma RemoveTaskInv(s: Sys, pid: Pid)
    requires Inv(s)
    ensures Inv(RemoveTask(s, pid).sys)
  {
    RemoveTaskIs(s, pid);
    var k := FindTask(s.tasks, pid);
    if 0 <= k {
      CloseFromInv(s, k, 0);
      WithoutInv(CloseFrom(s, k, 0).0, k);
    }
  }

  // The child ends up with the table of its parent, each description counted
  // once more per slot.
  lemma {:induction false} InheritInv(s: Sys, child: nat, table: Table, fd: nat)
    requires Inv(s) && child < |s.tasks| && IsTable(table) && fd <= MAX_FD
    requires forall i | 0 <= i < MAX_FD ::
      table[i] < MAX_FILP && (0 <= table[i] ==> 0 < s.filps[table[i]].refcnt)
    requires forall i | fd <= i < MAX_FD :: s.tasks[child].fd[i] == CLOSED
    ensures var t := Inherit(s, child, table, fd);
            && Inv(t)
            && |t.tasks| == |s.tasks|
            && t.tasks == s.tasks[child := s.tasks[child].(fd := s.tasks[child].fd[..fd] + table[fd..])]
    decreases MAX_FD - fd
  {
    if fd < MAX_FD {
      var f := table[fd];
      var s1 := if f < 0 then s else AddRef(SetFd(s, child, fd, f), f, 1);
      if 0 <= f {
        ShareInv(s, child, fd, f);
      }
      InheritInv(s1, child, table, fd + 1);
      assert s1.tasks[child].fd[..fd + 1] + table[fd + 1..] == s.tasks[child].fd[..fd] + table[fd..];
    } else {
      assert s.tasks[child].fd[..fd] + table[fd..] == s.tasks[child].fd;
    }
  }

  lemma ClosedTaskSlots(tasks: seq<Task>, t: Task, f: nat)
    requires forall i | 0 <= i < |t.fd| :: t.fd[i] < 0
    ensures Slots(tasks + [t], f) == Slots(tasks, f)
  {
    SlotsAppend(tasks, [t], f);
    CountZero(t.fd, f);
    assert [t][1..] == [];
  }

  lemma EmptyTableInv(s: Sys, pid: Pid)
    requires Inv(s)
    ensures Inv(WithTask(s, pid))
  {
    var t := WithTask(s, pid);
    forall i | 0 <= i < MAX_FILP ensures Slots(t.tasks, i) == Slots(s.tasks, i) {
      ClosedTaskSlots(s.tasks, Task(pid, ALL_CLOSED), i);
    }
    assert Shape(t);
  }

  lemma AddTaskInv(s: Sys, pid: Pid, parent: Pid)
    requires Inv(s)
    ensures Inv(AddTask(s, pid, parent).sys)
  {
    EmptyTableInv(s, pid);
    var s0 := WithTask(s, pid);
    if parent != NULL_PID {
      var k := FindTask(s0.tasks, parent);
      if k < 0 {
        RemoveTaskInv(s0, pid);
      } else {
        OpenDescriptorsAreBacked(s0, k);
        InheritInv(s0, |s.tasks|, s0.tasks[k].fd, 0);
      }
    }
  }

  lemma OpenDescriptorsAreBacked(s: Sys, k: nat)
    requires Inv(s) && k < |s.tasks|
    ensures forall i | 0 <= i < MAX_FD ::
      0 <= s.tasks[k].fd[i] ==> 0 < s.filps[s.tasks[k].fd[i]].refcnt
  {
    forall i | 0 <= i < MAX_FD && 0 <= s.tasks[k].fd[i]
      ensures 0 < s.filps[s.tasks[k].fd[i]].refcnt
    {
      OpenDescriptorIsBacked(s, k, i);
    }
  }
}
