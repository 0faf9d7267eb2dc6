// What the VFS does to the descriptor table of its caller is what the shell
// relies on.
module VfsTables {
  import opened Common
  import opened FdTable
  import opened VfsSpec
  import opened VfsInvariant
  import P = PipeSpec
  import R = RamDiskSpec

  /** dup() acts on the caller's table as DupFd, and on no other table. */
  lemma DupRow(s: Sys, k: nat, fd: int)
    requires Inv(s) && k < |s.tasks| && fd < MAX_FD
    ensures var o := Dup(s, k, fd);
            && |o.sys.tasks| == |s.tasks|
            && (o.sys.tasks[k].fd, o.result) == DupFd(s.tasks[k].fd, fd)
            && forall j | 0 <= j < |s.tasks| && j != k :: o.sys.tasks[j] == s.tasks[j]
  {
  }

  /** close() acts on the caller's table as CloseFd, and on no other table. */
  lemma CloseRow(s: Sys, k: nat, fd: int)
    requires Inv(s) && k < |s.tasks| && 0 <= fd < MAX_FD
    ensures var t := Close(s, k, fd).sys;
            && |t.tasks| == |s.tasks|
            && t.tasks[k].fd == CloseFd(s.tasks[k].fd, fd)
            && forall j | 0 <= j < |s.tasks| && j != k :: t.tasks[j] == s.tasks[j]
  {
    CloseTable(s, k, fd);
  }

  // Nobody holds description f.
  ghost predicate Unheld(s: Sys, f: int) {
    forall j, i | 0 <= j < |s.tasks| && 0 <= i < |s.tasks[j].fd| :: s.tasks[j].fd[i] != f
  }

  lemma FreeIsUnheld(s: Sys, f: nat)
    requires Inv(s) && f < MAX_FILP && s.filps[f].refcnt == 0
    ensures Unheld(s, f)
  {
    forall j, i | 0 <= j < |s.tasks| && 0 <= i < |s.tasks[j].fd| ensures s.tasks[j].fd[i] != f {
      if s.tasks[j].fd[i] == f { SlotsPositive(s.tasks, j, i); }
    }
  }

  lemma BindEndRow(s: Sys, k: nat, ino: nat) returns (f: nat)
    requires Inv(s) && k < |s.tasks| && ino < MAX_INO && BindEnd(s, k, ino).Some?
    ensures var (t, fd) := BindEnd(s, k, ino).value;
            && f < MAX_FILP && s.filps[f].refcnt == 0 && Unheld(s, f)
            && fd == LowestFree(s.tasks[k].fd) && 0 <= fd
            && |t.tasks| == |s.tasks| && t.tasks[k].fd == s.tasks[k].fd[fd := f]
            && (forall j | 0 <= j < |s.tasks| && j != k :: t.tasks[j] == s.tasks[j])
            && |t.filps| == MAX_FILP && t.filps[f].refcnt == 1 && t.filps[f].dev == PIPE_DEV && t.filps[f].ino == ino
            && (forall g | 0 <= g < MAX_FILP && g != f :: t.filps[g] == s.filps[g])
  {
    f := FreeFilp(s.filps);
    FreeIsUnheld(s, f);
  }

  /** A successful pipe() acts on the caller's table as PipeFd with two
      descriptions that nobody held, both open on the same new inode. */
  lemma PipeRow(s: Sys, k: nat) returns (r: nat, w: nat)
    requires Inv(s) && k < |s.tasks| && 0 <= P.FreeInode(s.pipe) && MakePipe(s, k).result == 0
    ensures var o := MakePipe(s, k);
            var ino := P.FreeInode(s.pipe);
            && r != w && r < MAX_FILP && w < MAX_FILP && Unheld(s, r) && Unheld(s, w)
            && |o.sys.tasks| == |s.tasks| && |o.sys.filps| == MAX_FILP
            && o.fdo.Some? && (o.sys.tasks[k].fd, o.fdi, o.fdo.value) == PipeFd(s.tasks[k].fd, r, w)
            && o.sys.filps[r].refcnt == 1 && o.sys.filps[r].dev == PIPE_DEV && o.sys.filps[r].ino == ino
            && o.sys.filps[w].refcnt == 1 && o.sys.filps[w].dev == PIPE_DEV && o.sys.filps[w].ino == ino
            && forall j | 0 <= j < |s.tasks| && j != k :: o.sys.tasks[j] == s.tasks[j]
  {
    var ino := P.FreeInode(s.pipe);
    var s0 := NewPipeInode(s);
    NewPipeInodeInv(s);
    r := BindEndRow(s0, k, ino);
    BindEndInv(s0, k, ino);
    var s1 := BindEnd(s0, k, ino).value.0;
    w := BindEndRow(s1, k, ino);
    FreeIsUnheld(s, r);
    FreeIsUnheld(s, w);
  }
}
