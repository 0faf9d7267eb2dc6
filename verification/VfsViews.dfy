// What one client sees of its descriptors, while any other clients go about
// their business: a table of inodes that only its own requests change.
module VfsViews {
  import opened Common
  import opened FdTable
  import opened VfsSpec
  import opened VfsInvariant
  import opened VfsRun
  import opened VfsHistory
  import P = PipeSpec
  import K = VfsParked
  import T = VfsTables

  // An inode as one number.
  function Code(dev: int, ino: int): int {
    dev * MAX_INO + ino
  }

  predicate Registered(s: Sys, p: Pid) {
    0 <= FindTask(s.tasks, p)
  }

  function Row(s: Sys, p: Pid): Table
    requires Registered(s, p)
  {
    s.tasks[FindTask(s.tasks, p)].fd
  }

  // The inode behind a slot of a table.
  function Behind(filps: seq<Filp>, f: int): int
    requires f < |filps|
  {
    if f < 0 then CLOSED else Code(filps[f].dev, filps[f].ino)
  }

  ghost predicate Fits(filps: seq<Filp>, t: Table) {
    |t| == MAX_FD && forall i | 0 <= i < MAX_FD :: CLOSED <= t[i] < |filps| && (0 <= t[i] ==> IsFilp(filps[t[i]]))
  }

  // A table with each open slot showing its inode.
  function Shown(filps: seq<Filp>, t: Table): (v: Table)
    requires Fits(filps, t)
    ensures IsTable(v) && forall i | 0 <= i < MAX_FD :: v[i] == Behind(filps, t[i]) && (v[i] < 0 <==> t[i] < 0)
  {
    seq(MAX_FD, i requires 0 <= i < MAX_FD => Behind(filps, t[i]))
  }

  lemma RowFits(s: Sys, p: Pid)
    requires Shape(s) && Registered(s, p)
    ensures Fits(s.filps, Row(s, p))
  {
    assert IsTask(s.tasks[FindTask(s.tasks, p)]);
  }

  /** The descriptors of client `p`: the inode each one names. */
  function View(s: Sys, p: Pid): (v: Table)
    requires Shape(s) && Registered(s, p)
    ensures IsTable(v)
  {
    RowFits(s, p);
    Shown(s.filps, Row(s, p))
  }

  // ----- other clients' requests -----

  lemma FirstIs(tasks: seq<Task>, p: Pid, k: nat)
    requires k < |tasks| && tasks[k].pid == p && forall j | 0 <= j < k :: tasks[j].pid != p
    ensures FindTask(tasks, p) == k
  {
  }

  lemma FirstAfterRemoval(tasks: seq<Task>, r: nat, p: Pid)
    requires r < |tasks| && 0 <= FindTask(tasks, p) && FindTask(tasks, p) != r
    ensures var left := tasks[..r] + tasks[r + 1..];
            0 <= FindTask(left, p) && left[FindTask(left, p)] == tasks[FindTask(tasks, p)]
  {
    var k := FindTask(tasks, p);
    var left := tasks[..r] + tasks[r + 1..];
    var j := if k < r then k else k - 1;
    assert left[j] == tasks[k];
    forall i | 0 <= i < j ensures left[i].pid != p {
      assert left[i] == tasks[if i < r then i else i + 1];
    }
    FirstIs(left, p, j);
  }

  lemma ClosingKeepsRow(s: Sys, r: nat, p: Pid)
    requires Inv(s) && r < |s.tasks| && Registered(s, p) && s.tasks[r].pid != p
    ensures var u := CloseFrom(s, r, 0).0;
            FindTask(u.tasks, p) == FindTask(s.tasks, p) && Row(u, p) == Row(s, p)
  {
    CloseFromInv(s, r, 0);
    FirstIs(CloseFrom(s, r, 0).0.tasks, p, FindTask(s.tasks, p));
  }

  lemma RemovalKeepsRow(s: Sys, pid: Pid, p: Pid)
    requires Inv(s) && Registered(s, p) && pid != p
    ensures var t := RemoveTask(s, pid).sys;
            Registered(t, p) && Row(t, p) == Row(s, p)
  {
    var r := FindTask(s.tasks, pid);
    RemoveTaskIs(s, pid);
    if 0 <= r {
      ClosingKeepsRow(s, r, p);
      FirstAfterRemoval(CloseFrom(s, r, 0).0.tasks, r, p);
    }
  }

  lemma AdditionKeepsRow(s: Sys, pid: Pid, parent: Pid, p: Pid)
    requires Inv(s) && Registered(s, p) && pid != p
    ensures var t := AddTask(s, pid, parent).sys;
            Registered(t, p) && Row(t, p) == Row(s, p)
  {
    EmptyTableInv(s, pid);
    var k := FindTask(s.tasks, p);
    var s0 := WithTask(s, pid);
    FirstIs(s0.tasks, p, k);
    if parent != NULL_PID {
      var b := FindTask(s0.tasks, parent);
      if b < 0 {
        RemovalKeepsRow(s0, pid, p);
      } else {
        OpenDescriptorsAreBacked(s0, b);
        InheritInv(s0, |s.tasks|, s0.tasks[b].fd, 0);
        FirstIs(AddTask(s, pid, parent).sys.tasks, p, k);
      }
    }
  }

  // The same records in the same order, apart from the tables.
  ghost predicate SamePids(a: seq<Task>, b: seq<Task>) {
    |a| == |b| && forall i | 0 <= i < |a| :: b[i].pid == a[i].pid
  }

  lemma CallKeepsPids(s: Sys, q: Req)
    requires Inv(s) && Callable(s, q) && !q.AddReq? && !q.DelReq?
    ensures SamePids(s.tasks, Step(s, q).0.tasks)
  {
    var a := FindTask(s.tasks, q.pid);
    match q {
      case CloseReq(_, fd) =>
        if 0 <= fd { CloseTable(s, a, fd); }
      case RwReq(pid, fd, kind, data) =>
        TransferInv(s, a, fd, P.Request(kind, pid, data));
        K.TransferNames(s, a, fd, P.Request(kind, pid, data));
      case _ =>
    }
  }

  lemma StepKeepsRow(s: Sys, q: Req, p: Pid)
    requires Inv(s) && Callable(s, q) && Registered(s, p) && q.pid != p
    ensures var t := Step(s, q).0;
            Registered(t, p) && Row(t, p) == Row(s, p)
  {
    if q.AddReq? {
      AdditionKeepsRow(s, q.pid, q.parent, p);
    } else if q.DelReq? {
      RemovalKeepsRow(s, q.pid, p);
    } else {
      var k := FindTask(s.tasks, p);
      CallKeepsPids(s, q);
      FirstIs(Step(s, q).0.tasks, p, k);
      CallKeepsOtherRow(s, q, k);
    }
  }

  lemma CallKeepsOtherRow(s: Sys, q: Req, k: nat)
    requires Inv(s) && Callable(s, q) && !q.AddReq? && !q.DelReq? && k < |s.tasks| && s.tasks[k].pid != q.pid
    ensures var t := Step(s, q).0;
            k < |t.tasks| && t.tasks[k] == s.tasks[k]
  {
    var a := FindTask(s.tasks, q.pid);
    match q {
      case CloseReq(_, fd) =>
        if 0 <= fd { CloseTable(s, a, fd); }
      case RwReq(pid, fd, kind, data) =>
        TransferInv(s, a, fd, P.Request(kind, pid, data));
        K.TransferNames(s, a, fd, P.Request(kind, pid, data));
      case _ =>
    }
  }

  /** No request of another client changes what `p` sees. */
  lemma OthersKeepView(s: Sys, q: Req, p: Pid)
    requires Inv(s) && Callable(s, q) && Registered(s, p) && q.pid != p
    ensures var t := Step(s, q).0;
            Shape(t) && Registered(t, p) && View(t, p) == View(s, p)
  {
    StepInv(s, q);
    StepKeepsRow(s, q, p);
    K.StepKeepsOpenNames(s, q);
    OpenDescriptorsAreBacked(s, FindTask(s.tasks, p));
  }

  // ----- a client's own requests -----

  // What a request does to its client's view.
  datatype Act = CloseAct(fd: int) | DupAct(fd: int) | BindAct(inode: int)

  function Do(t: Table, a: Act): (r: Table)
    requires |t| == MAX_FD && (!a.BindAct? ==> a.fd < MAX_FD)
    ensures |r| == MAX_FD
  {
    match a
    case CloseAct(fd) => if fd < 0 then t else CloseFd(t, fd)
    case DupAct(fd) => DupFd(t, fd).0
    case BindAct(inode) => var fd := LowestFree(t); if fd < 0 then t else t[fd := inode]
  }

  predicate Doable(acts: seq<Act>) {
    forall i | 0 <= i < |acts| :: acts[i].BindAct? || acts[i].fd < MAX_FD
  }

  function DoAll(t: Table, acts: seq<Act>): (r: Table)
    requires |t| == MAX_FD && Doable(acts)
    ensures |r| == MAX_FD
    decreases |acts|
  {
    if acts == [] then t else DoAll(Do(t, acts[0]), acts[1..])
  }

  lemma {:induction false} DoAppend(t: Table, a: seq<Act>, b: seq<Act>)
    requires |t| == MAX_FD && Doable(a) && Doable(b)
    ensures Doable(a + b) && DoAll(t, a + b) == DoAll(DoAll(t, a), b)
    decreases |a|
  {
    if a == [] {
      assert a + b == b;
    } else {
      assert (a + b)[1..] == a[1..] + b;
      DoAppend(Do(t, a[0]), a[1..], b);
    }
  }

  // The acts of the client of a request; pipe() binds as many of its two ends
  // as there is room for.
  ghost function Acts(s: Sys, q: Req): (acts: seq<Act>)
    requires Inv(s) && Callable(s, q) && !q.AddReq? && !q.DelReq?
    ensures Doable(acts)
  {
    var k := FindTask(s.tasks, q.pid);
    match q
    case DupReq(_, fd) => [DupAct(fd)]
    case CloseReq(_, fd) => [CloseAct(fd)]
    case PipeReq(_) =>
      var o := MakePipe(s, k);
      var end := BindAct(Code(PIPE_DEV, P.FreeInode(s.pipe)));
      if o.ends == 0 then [] else if o.ends == 1 then [end] else [end, end]
    case OpenReq(_, dev, ino) => if Open(s, k, dev, ino).result < 0 then [] else [BindAct(Code(dev, ino))]
    case RwReq(_, _, _, _) => []
    case DiskReq(_, _) => []
  }

  lemma SameFree(t: Table, v: Table)
    requires |t| == |v| && forall i | 0 <= i < |t| :: v[i] < 0 <==> t[i] < 0
    ensures LowestFree(v) == LowestFree(t)
  {
  }

  lemma DoOne(t: Table, a: Act)
    requires |t| == MAX_FD && (a.BindAct? || a.fd < MAX_FD)
    ensures DoAll(t, [a]) == Do(t, a)
  {
    assert [a][1..] == [];
  }

  lemma RowAt(s: Sys, t: Sys, p: Pid, row: Table)
    requires Registered(s, p) && SamePids(s.tasks, t.tasks) && t.tasks[FindTask(s.tasks, p)].fd == row
    ensures Registered(t, p) && Row(t, p) == row
  {
    FirstIs(t.tasks, p, FindTask(s.tasks, p));
  }

  /** dup() returns the lowest closed descriptor, where its client then sees what
      it sees at fd; or -1, exactly when fd is not open or no descriptor is
      closed. */
  lemma DupView(s: Sys, p: Pid, fd: int)
    requires Inv(s) && Registered(s, p) && fd < MAX_FD
    ensures var o := Dup(s, FindTask(s.tasks, p), fd);
            var v := View(s, p);
            && Shape(o.sys) && Registered(o.sys, p) && View(o.sys, p) == Do(v, DupAct(fd))
            && if 0 <= fd && 0 <= v[fd] && 0 <= LowestFree(v) then
                 o.result == LowestFree(v) && View(o.sys, p) == v[o.result := v[fd]]
               else
                 o.result == -1 && View(o.sys, p) == v
  {
    var k := FindTask(s.tasks, p);
    var t := Dup(s, k, fd).sys;
    DupInv(s, k, fd);
    T.DupRow(s, k, fd);
    RowAt(s, t, p, DupFd(Row(s, p), fd).0);
    SameFree(Row(s, p), View(s, p));
  }

  lemma CloseView(s: Sys, p: Pid, fd: int)
    requires Inv(s) && Registered(s, p) && fd < MAX_FD
    ensures var t := Close(s, FindTask(s.tasks, p), fd).sys;
            Shape(t) && Registered(t, p) && View(t, p) == Do(View(s, p), CloseAct(fd))
  {
    var k := FindTask(s.tasks, p);
    var t := Close(s, k, fd).sys;
    if 0 <= fd {
      CloseTable(s, k, fd);
      RowAt(s, t, p, CloseFd(Row(s, p), fd));
    }
  }

  // A description that nobody had is bound to the lowest closed descriptor.
  lemma BoundView(s: Sys, t: Sys, p: Pid, f: nat, dev: int, ino: int)
    requires Inv(s) && Shape(t) && Registered(s, p) && f < MAX_FILP && s.filps[f].refcnt == 0
    requires var k := FindTask(s.tasks, p);
             var fd := LowestFree(s.tasks[k].fd);
             && 0 <= fd && SamePids(s.tasks, t.tasks) && t.tasks[k].fd == s.tasks[k].fd[fd := f]
             && t.filps[f].dev == dev && t.filps[f].ino == ino
             && forall g | 0 <= g < MAX_FILP && g != f :: t.filps[g].dev == s.filps[g].dev
                 && t.filps[g].ino == s.filps[g].ino
    ensures Registered(t, p) && View(t, p) == Do(View(s, p), BindAct(Code(dev, ino)))
  {
    var k := FindTask(s.tasks, p);
    RowAt(s, t, p, s.tasks[k].fd[LowestFree(s.tasks[k].fd) := f]);
    T.FreeIsUnheld(s, f);
    SameFree(Row(s, p), View(s, p));
  }

  // The names of descriptions in use have not changed, nor has the row.
  lemma SameView(s: Sys, t: Sys, p: Pid)
    requires Inv(s) && Shape(t) && Registered(s, p) && t.tasks == s.tasks && K.OpenNamesKept(s.filps, t.filps)
    ensures Registered(t, p) && View(t, p) == View(s, p)
  {
    OpenDescriptorsAreBacked(s, FindTask(s.tasks, p));
  }

  // Open() can be granted.
  ghost predicate CanOpen(s: Sys, p: Pid, dev: int, ino: int)
    requires Shape(s) && Registered(s, p) && IsInode(dev, ino)
  {
    && (exists i | 0 <= i < MAX_FD :: View(s, p)[i] < 0)
    && (exists f | 0 <= f < MAX_FILP :: s.filps[f].refcnt == 0)
    && HasInode(s, dev, ino)
  }

  lemma OpenGranted(s: Sys, p: Pid, dev: int, ino: int)
    requires Inv(s) && Registered(s, p) && IsInode(dev, ino) && CanOpen(s, p, dev, ino)
    ensures var o := Open(s, FindTask(s.tasks, p), dev, ino);
            var fd := LowestFree(View(s, p));
            && Shape(o.sys) && Registered(o.sys, p) && 0 <= fd && o.result == fd
            && View(o.sys, p) == View(s, p)[fd := Code(dev, ino)]
  {
    var k := FindTask(s.tasks, p);
    var o := Open(s, k, dev, ino);
    OpenInv(s, k, dev, ino);
    SameFree(Row(s, p), View(s, p));
    BoundView(s, o.sys, p, FreeFilp(s.filps), dev, ino);
  }

  lemma OpenRefused(s: Sys, p: Pid, dev: int, ino: int)
    requires Inv(s) && Registered(s, p) && IsInode(dev, ino) && !CanOpen(s, p, dev, ino)
    ensures var o := Open(s, FindTask(s.tasks, p), dev, ino);
            Shape(o.sys) && Registered(o.sys, p) && o.result == -1 && View(o.sys, p) == View(s, p)
  {
    var k := FindTask(s.tasks, p);
    OpenInv(s, k, dev, ino);
    SameFree(Row(s, p), View(s, p));
    assert LowestFree(Row(s, p)) < 0 || FreeFilp(s.filps) < 0 || !HasInode(s, dev, ino);
    K.OpenNames(s, k, dev, ino);
    SameView(s, Open(s, k, dev, ino).sys, p);
  }

  /** open() returns the lowest descriptor that its client sees closed, where the
      client then sees the inode it asked for; or -1, exactly when no descriptor
      is closed, no description is free, or the inode is not there, and then the
      client sees what it saw. */
  lemma OpenView(s: Sys, p: Pid, dev: int, ino: int)
    requires Inv(s) && Registered(s, p) && IsInode(dev, ino)
    ensures var o := Open(s, FindTask(s.tasks, p), dev, ino);
            var fd := LowestFree(View(s, p));
            && Shape(o.sys) && Registered(o.sys, p)
            && if CanOpen(s, p, dev, ino) then
                 0 <= fd && o.result == fd && View(o.sys, p) == View(s, p)[fd := Code(dev, ino)]
               else
                 o.result == -1 && View(o.sys, p) == View(s, p)
  {
    if CanOpen(s, p, dev, ino) { OpenGranted(s, p, dev, ino); } else { OpenRefused(s, p, dev, ino); }
  }

  lemma EndView(s: Sys, p: Pid, ino: nat)
    requires Inv(s) && Registered(s, p) && ino < MAX_INO
    requires Names(s.filps, PIPE_DEV, ino) < Refcnt(s, PIPE_DEV, ino)
    requires BindEnd(s, FindTask(s.tasks, p), ino).Some?
    ensures var (t, fd) := BindEnd(s, FindTask(s.tasks, p), ino).value;
            && Inv(t) && Registered(t, p) && FindTask(t.tasks, p) == FindTask(s.tasks, p)
            && fd == LowestFree(View(s, p)) && 0 <= fd
            && View(t, p) == Do(View(s, p), BindAct(Code(PIPE_DEV, ino)))
  {
    var k := FindTask(s.tasks, p);
    var t := BindEnd(s, k, ino).value.0;
    BindEndInv(s, k, ino);
    BoundView(s, t, p, FreeFilp(s.filps), PIPE_DEV, ino);
    FirstIs(t.tasks, p, k);
    SameFree(Row(s, p), View(s, p));
  }

  // Both ends are bound.
  lemma EndsView(s: Sys, t: Sys, u: Sys, p: Pid, ino: nat, fdi: int, fdo: int)
    requires Inv(s) && Registered(s, p) && ino < MAX_INO
    requires Names(s.filps, PIPE_DEV, ino) == 0 && Refcnt(s, PIPE_DEV, ino) == 2
    requires |t.tasks| == |s.tasks|
    requires BindEnd(s, FindTask(s.tasks, p), ino) == Some((t, fdi))
    requires BindEnd(t, FindTask(s.tasks, p), ino) == Some((u, fdo))
    ensures var c := Code(PIPE_DEV, ino);
            && Shape(u) && Registered(u, p)
            && View(u, p) == Do(Do(View(s, p), BindAct(c)), BindAct(c))
            && fdi == LowestFree(View(s, p)) && 0 <= fdi
            && fdo == LowestFree(Do(View(s, p), BindAct(c))) && 0 <= fdo
  {
    BindEndInv(s, FindTask(s.tasks, p), ino);
    EndView(s, p, ino);
    EndView(t, p, ino);
  }

  lemma TwoEnds(v: Table, c: int, fdi: int, fdo: int)
    requires |v| == MAX_FD
    requires fdi == LowestFree(v) && 0 <= fdi && fdo == LowestFree(Do(v, BindAct(c))) && 0 <= fdo
    ensures var w := Do(Do(v, BindAct(c)), BindAct(c));
            DoAll(v, [BindAct(c), BindAct(c)]) == w && (w, fdi, fdo) == PipeFd(v, c, c)
  {
    DoTwo(v, BindAct(c));
  }

  lemma DoTwo(t: Table, a: Act)
    requires |t| == MAX_FD && (a.BindAct? || a.fd < MAX_FD)
    ensures DoAll(t, [a, a]) == Do(Do(t, a), a)
  {
    assert [a, a][1..] == [a];
    DoOne(Do(t, a), a);
  }

  lemma NewInodeView(s: Sys, p: Pid)
    requires Inv(s) && Registered(s, p) && 0 <= P.FreeInode(s.pipe)
    ensures var t := NewPipeInode(s);
            Inv(t) && Registered(t, p) && View(t, p) == View(s, p)
  {
    NewPipeInodeInv(s);
  }

  // With room for both ends.
  lemma BothView(s: Sys, p: Pid)
    requires Inv(s) && Registered(s, p) && 0 <= P.FreeInode(s.pipe) && MakePipe(s, FindTask(s.tasks, p)).ends == 2
    ensures var o := MakePipe(s, FindTask(s.tasks, p));
            var c := Code(PIPE_DEV, P.FreeInode(s.pipe));
            && Shape(o.sys) && Registered(o.sys, p) && o.fdo.Some? && o.result == 0
            && View(o.sys, p) == DoAll(View(s, p), [BindAct(c), BindAct(c)])
            && (View(o.sys, p), o.fdi, o.fdo.value) == PipeFd(View(s, p), c, c)
  {
    var k := FindTask(s.tasks, p);
    var ino := P.FreeInode(s.pipe);
    var o := MakePipe(s, k);
    NewPipeInodeInv(s);
    NewInodeView(s, p);
    var s0 := NewPipeInode(s);
    BindEndInv(s0, k, ino);
    EndsView(s0, BindEnd(s0, k, ino).value.0, o.sys, p, ino, o.fdi, o.fdo.value);
    TwoEnds(View(s, p), Code(PIPE_DEV, ino), o.fdi, o.fdo.value);
  }

  // With room for at most one.
  lemma FewerView(s: Sys, p: Pid)
    requires Inv(s) && Registered(s, p) && 0 <= P.FreeInode(s.pipe) && MakePipe(s, FindTask(s.tasks, p)).ends < 2
    ensures var o := MakePipe(s, FindTask(s.tasks, p));
            var c := Code(PIPE_DEV, P.FreeInode(s.pipe));
            && Shape(o.sys) && Registered(o.sys, p)
            && View(o.sys, p) == DoAll(View(s, p), if o.ends == 0 then [] else [BindAct(c)])
            && o.result == -1 && o.fdo.None?
            && o.fdi == if o.ends == 0 then P.FreeInode(s.pipe) else LowestFree(View(s, p))
  {
    var k := FindTask(s.tasks, p);
    var ino := P.FreeInode(s.pipe);
    NewPipeInodeInv(s);
    NewInodeView(s, p);
    var s0 := NewPipeInode(s);
    if BindEnd(s0, k, ino).Some? {
      EndView(s0, p, ino);
      DoOne(View(s, p), BindAct(Code(PIPE_DEV, ino)));
    }
  }

  /** pipe() binds its ends to the two lowest closed descriptors that its client
      sees, and returns these.  With room for fewer ends it fails, binds those, and
      its client reads the inode number in place of the first, and nothing of the
      VFS's in place of the second. */
  lemma PipeView(s: Sys, p: Pid)
    requires Inv(s) && Registered(s, p) && 0 <= P.FreeInode(s.pipe)
    ensures var o := MakePipe(s, FindTask(s.tasks, p));
            var c := Code(PIPE_DEV, P.FreeInode(s.pipe));
            && Shape(o.sys) && Registered(o.sys, p)
            && View(o.sys, p) == DoAll(View(s, p), Acts(s, PipeReq(p)))
            && o.result == (if o.ends == 2 then 0 else -1)
            && if o.ends == 2 then o.fdo.Some? && (View(o.sys, p), o.fdi, o.fdo.value) == PipeFd(View(s, p), c, c)
               else o.fdo.None? && o.fdi == if o.ends == 0 then P.FreeInode(s.pipe) else LowestFree(View(s, p))
  {
    if MakePipe(s, FindTask(s.tasks, p)).ends == 2 { BothView(s, p); } else { FewerView(s, p); }
  }

  /** Its own requests change what a client sees in their own way only. */
  lemma OwnView(s: Sys, q: Req)
    requires Inv(s) && Callable(s, q) && !q.AddReq? && !q.DelReq? && Registered(s, q.pid)
    ensures var t := Step(s, q).0;
            Shape(t) && Registered(t, q.pid) && View(t, q.pid) == DoAll(View(s, q.pid), Acts(s, q))
  {
    var k := FindTask(s.tasks, q.pid);
    match q {
      case DupReq(p, fd) =>
        DupView(s, p, fd);
        DoOne(View(s, p), DupAct(fd));
      case CloseReq(p, fd) =>
        CloseView(s, p, fd);
        DoOne(View(s, p), CloseAct(fd));
      case PipeReq(p) =>
        PipeView(s, p);
      case OpenReq(p, dev, ino) =>
        OpenView(s, p, dev, ino);
        DoOne(View(s, p), BindAct(Code(dev, ino)));
      case RwReq(p, fd, kind, data) =>
        TransferInv(s, k, fd, P.Request(kind, p, data));
        K.TransferNames(s, k, fd, P.Request(kind, p, data));
      case DiskReq(p, c) =>
        DiskCommandInv(s, c);
    }
  }

  // ----- runs -----

  // Client p is neither registered again nor removed.
  predicate Lasting(q: Req, p: Pid) {
    q.pid == p ==> !q.AddReq? && !q.DelReq?
  }

  ghost predicate LastsFrom(h: History, p: Pid, a: nat, b: nat)
    requires a <= b <= |h.qs|
  {
    forall i | a <= i < b :: Lasting(h.qs[i], p)
  }

  // What client p does between moments a and b, its requests taken in order.
  ghost function Done(h: History, p: Pid, a: nat, b: nat): (acts: seq<Act>)
    requires IsHistory(h) && a <= b <= |h.qs| && LastsFrom(h, p, a, b)
    ensures Doable(acts)
    decreases b - a
  {
    if a == b then []
    else
      var before := Done(h, p, a, b - 1);
      assert Goes(h, b - 1) && Lasting(h.qs[b - 1], p);
      if h.qs[b - 1].pid == p then before + Acts(h.states[b - 1], h.qs[b - 1]) else before
  }

  // One request, its own or another client's.
  lemma OneView(h: History, p: Pid, i: nat)
    requires IsHistory(h) && i < |h.qs| && Lasting(h.qs[i], p) && Shape(h.states[i]) && Registered(h.states[i], p)
    ensures Goes(h, i) && Shape(h.states[i + 1]) && Registered(h.states[i + 1], p)
    ensures View(h.states[i + 1], p)
         == if h.qs[i].pid == p then DoAll(View(h.states[i], p), Acts(h.states[i], h.qs[i])) else View(h.states[i], p)
  {
    assert Goes(h, i);
    if h.qs[i].pid == p {
      OwnView(h.states[i], h.qs[i]);
    } else {
      OthersKeepView(h.states[i], h.qs[i], p);
    }
  }

  /** Between any two moments of a run, however the requests of other clients
      fall between its own: what a client sees in the end is what its own acts
      make of what it saw at first. */
  lemma {:induction false} RunView(h: History, p: Pid, a: nat, b: nat)
    requires IsHistory(h) && a <= b <= |h.qs| && LastsFrom(h, p, a, b)
    requires Shape(h.states[a]) && Registered(h.states[a], p)
    ensures Shape(h.states[b]) && Registered(h.states[b], p)
    ensures View(h.states[b], p) == DoAll(View(h.states[a], p), Done(h, p, a, b))
    decreases b - a
  {
    if a < b {
      RunView(h, p, a, b - 1);
      if h.qs[b - 1].pid == p { OwnNext(h, p, a, b); } else { OtherNext(h, p, a, b); }
    }
  }

  // One request further.
  lemma {:induction false} OwnNext(h: History, p: Pid, a: nat, b: nat)
    requires IsHistory(h) && a < b <= |h.qs| && LastsFrom(h, p, a, b) && h.qs[b - 1].pid == p
    requires Shape(h.states[a]) && Registered(h.states[a], p) && Shape(h.states[b - 1])
             && Registered(h.states[b - 1], p)
    requires View(h.states[b - 1], p) == DoAll(View(h.states[a], p), Done(h, p, a, b - 1))
    ensures Shape(h.states[b]) && Registered(h.states[b], p)
    ensures View(h.states[b], p) == DoAll(View(h.states[a], p), Done(h, p, a, b))
  {
    assert Lasting(h.qs[b - 1], p);
    OneView(h, p, b - 1);
    DoAppend(View(h.states[a], p), Done(h, p, a, b - 1), Acts(h.states[b - 1], h.qs[b - 1]));
  }

  lemma {:induction false} OtherNext(h: History, p: Pid, a: nat, b: nat)
    requires IsHistory(h) && a < b <= |h.qs| && LastsFrom(h, p, a, b) && h.qs[b - 1].pid != p
    requires Shape(h.states[a]) && Registered(h.states[a], p) && Shape(h.states[b - 1])
             && Registered(h.states[b - 1], p)
    requires View(h.states[b - 1], p) == DoAll(View(h.states[a], p), Done(h, p, a, b - 1))
    ensures Shape(h.states[b]) && Registered(h.states[b], p)
    ensures View(h.states[b], p) == DoAll(View(h.states[a], p), Done(h, p, a, b))
  {
    OneView(h, p, b - 1);
    DoneOther(h, p, a, b);
  }

  lemma {:induction false} DoneOther(h: History, p: Pid, a: nat, b: nat)
    requires IsHistory(h) && a < b <= |h.qs| && LastsFrom(h, p, a, b) && h.qs[b - 1].pid != p
    ensures Done(h, p, a, b) == Done(h, p, a, b - 1)
  {
  }
}
