// When an inode of the memory disk goes away: it is made, linked and unlinked
// by the disk's own commands, and opened and closed through the VFS.
module VfsLinks {
  import opened Common
  import opened FdTable
  import opened VfsSpec
  import opened VfsInvariant
  import opened VfsRun
  import VfsUndo
  import P = PipeSpec
  import R = RamDiskSpec

  // The disk has inode `ino`, with this many links.
  ghost predicate HasLinks(s: Sys, ino: nat, links: int)
    requires Shape(s) && ino < MAX_INO
  {
    s.disk[ino].Some? && s.disk[ino].value.links == links
  }

  function Refs(s: Sys, ino: nat): int
    requires Shape(s) && ino < MAX_INO
  {
    R.References(s.disk, ino)
  }

  // What becomes of an inode in a step that changes its links by `delta`: it is
  // gone exactly if the step took references or a link from it and neither is
  // left; and otherwise it has the links it should have.
  ghost predicate Fate(s: Sys, t: Sys, ino: nat, delta: int, unlinked: bool)
    requires Shape(s) && Shape(t) && ino < MAX_INO
  {
    s.disk[ino].Some? ==>
      var links := s.disk[ino].value.links + delta;
      && (t.disk[ino].None? <==> (unlinked || Refs(t, ino) < Refs(s, ino)) && Refs(t, ino) == 0 && links == 0)
      && (t.disk[ino].Some? ==> t.disk[ino].value.links == links)
  }

  // References only go down, and no inode appears.
  ghost predicate Shrinks(s: Sys, t: Sys, ino: nat)
    requires Shape(s) && Shape(t) && ino < MAX_INO
  {
    Refs(t, ino) <= Refs(s, ino) && (s.disk[ino].None? ==> t.disk[ino].None?)
  }

  lemma {:induction false} CloseFate(s: Sys, k: nat, fd: int, ino: nat)
    requires Inv(s) && k < |s.tasks| && fd < MAX_FD && ino < MAX_INO
    ensures Fate(s, Close(s, k, fd).sys, ino, 0, false) && Shrinks(s, Close(s, k, fd).sys, ino)
  {
    if 0 <= fd && 0 <= s.tasks[k].fd[fd] {
      OpenDescriptorIsBacked(s, k, fd);
    }
  }

  lemma {:induction false} CloseFromFate(s: Sys, k: nat, fd: nat, ino: nat)
    requires Inv(s) && k < |s.tasks| && fd <= MAX_FD && ino < MAX_INO
    ensures Fate(s, CloseFrom(s, k, fd).0, ino, 0, false) && Shrinks(s, CloseFrom(s, k, fd).0, ino)
    decreases MAX_FD - fd
  {
    if fd < MAX_FD {
      CloseInv(s, k, fd);
      CloseFate(s, k, fd, ino);
      CloseFromFate(Close(s, k, fd).sys, k, fd + 1, ino);
    }
  }

  lemma {:induction false} RemoveTaskFate(s: Sys, pid: Pid, ino: nat)
    requires Inv(s) && ino < MAX_INO
    ensures Shape(RemoveTask(s, pid).sys) && Fate(s, RemoveTask(s, pid).sys, ino, 0, false)
  {
    RemoveTaskInv(s, pid);
    RemoveTaskIs(s, pid);
    var k := FindTask(s.tasks, pid);
    if 0 <= k {
      CloseFromFate(s, k, 0, ino);
    }
  }

  lemma {:induction false} AddTaskFate(s: Sys, pid: Pid, parent: Pid, ino: nat)
    requires Inv(s) && ino < MAX_INO
    ensures Shape(AddTask(s, pid, parent).sys) && Fate(s, AddTask(s, pid, parent).sys, ino, 0, false)
  {
    AddTaskInv(s, pid, parent);
    EmptyTableInv(s, pid);
    var s0 := WithTask(s, pid);
    if parent != NULL_PID {
      var k := FindTask(s0.tasks, parent);
      if k < 0 {
        RemoveTaskFate(s0, pid, ino);
      } else {
        VfsUndo.InheritBumps(s0, |s.tasks|, s0.tasks[k].fd, 0);
      }
    }
  }

  lemma {:induction false} OpenFate(s: Sys, k: nat, dev: int, at: int, ino: nat)
    requires Inv(s) && k < |s.tasks| && IsInode(dev, at) && ino < MAX_INO
    ensures Shape(Open(s, k, dev, at).sys) && Fate(s, Open(s, k, dev, at).sys, ino, 0, false)
  {
    OpenInv(s, k, dev, at);
  }

  lemma {:induction false} TransferFate(s: Sys, k: nat, fd: int, r: P.Request, ino: nat)
    requires Inv(s) && k < |s.tasks| && fd < MAX_FD && Reachable(s, k, fd) && ino < MAX_INO
    ensures Shape(Transfer(s, k, fd, r).sys) && Fate(s, Transfer(s, k, fd, r).sys, ino, 0, false)
  {
    TransferInv(s, k, fd, r);
  }

  function Delta(q: Req, ino: nat): int {
    if q.DiskReq? then R.LinkDelta(q.cmd, ino) else 0
  }

  predicate Unlinks(q: Req, ino: nat) {
    q.DiskReq? && q.cmd == R.Unlink(ino)
  }

  /** An inode of the disk disappears in a step exactly when the step closed its
      last descriptor or removed a link, and then neither references nor links
      are left; its link count moves by the links made and removed, and by
      nothing else. */
  lemma {:induction false} DiskInodeGoesExactly(s: Sys, q: Req, ino: nat)
    requires Inv(s) && Callable(s, q) && ino < MAX_INO
    ensures Shape(Step(s, q).0) && Fate(s, Step(s, q).0, ino, Delta(q, ino), Unlinks(q, ino))
  {
    StepInv(s, q);
    var k := FindTask(s.tasks, q.pid);
    match q
    case DupReq(_, fd) =>
    case PipeReq(_) =>
    case OpenReq(_, dev, at) => OpenFate(s, k, dev, at, ino);
    case CloseReq(_, fd) => CloseFate(s, k, fd, ino);
    case RwReq(pid, fd, kind, data) =>
      TransferInv(s, k, fd, P.Request(kind, pid, data));
      TransferFate(s, k, fd, P.Request(kind, pid, data), ino);
    case AddReq(pid, parent) => AddTaskFate(s, pid, parent, ino);
    case DelReq(pid) => RemoveTaskFate(s, pid, ino);
    case DiskReq(_, c) => R.CommandReferences(s.disk, c, ino);
  }

  // The links that an inode with `links` of them has after some requests.
  function LinksAfter(qs: seq<Req>, ino: nat, links: int): int {
    if qs == [] then links else LinksAfter(qs[1..], ino, links + Delta(qs[0], ino))
  }

  // At no time is it without a link.
  predicate AlwaysLinked(qs: seq<Req>, ino: nat, links: int) {
    links != 0 && (qs == [] || AlwaysLinked(qs[1..], ino, links + Delta(qs[0], ino)))
  }

  /** In every run, whoever opens, closes, links and unlinks it: an inode is not
      freed as long as it has a link, and its link count is what the links made
      and removed amount to. */
  lemma {:induction false} LinkedInodeStays(s: Sys, qs: seq<Req>, ino: nat, links: int)
    requires Inv(s) && Runnable(s, qs) && ino < MAX_INO
    requires HasLinks(s, ino, links) && AlwaysLinked(qs, ino, links)
    ensures Inv(Run(s, qs).0) && HasLinks(Run(s, qs).0, ino, LinksAfter(qs, ino, links))
    decreases |qs|
  {
    if qs != [] {
      StepInv(s, qs[0]);
      DiskInodeGoesExactly(s, qs[0], ino);
      LinkedInodeStays(Step(s, qs[0]).0, qs[1..], ino, links + Delta(qs[0], ino));
    }
  }

  /** In every run, unlinked or not: an inode named by an open description is
      there. */
  lemma {:induction false} OpenInodeStays(s: Sys, qs: seq<Req>, ino: nat)
    requires Inv(s) && Runnable(s, qs) && ino < MAX_INO
    ensures var t := Run(s, qs).0;
            Inv(t) && (0 < Names(t.filps, DISK_DEV, ino) ==> t.disk[ino].Some?)
  {
    RunInv(s, qs);
    var t := Run(s, qs).0;
    assert Names(t.filps, DISK_DEV, ino) <= Refcnt(t, DISK_DEV, ino);
  }
}
