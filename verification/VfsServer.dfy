// The VFS server: its tables updated in place, talking to the two drivers.
// Every request is proved to do what the transition system says.
module VfsServer {
  import opened Common
  import opened FdTable
  import opened VfsSpec
  import V = VfsInvariant
  import Runs = VfsRun
  import P = PipeSpec
  import R = RamDiskSpec
  import opened PipeDevice
  import RamDisk

  class Server {
    const filp: array<Filp>
    const pipe: PipeDevice.Driver
    const disk: RamDisk.Driver
    var tasks: seq<Task>
    // FINAL messages sent to clients blocked in readc() or writec()
    var sent: seq<P.Reply>

    ghost function State(): Sys
      reads this, filp, pipe, pipe.nodes, disk, disk.nodes
    {
      Sys(filp[..], tasks, pipe.nodes[..], disk.nodes[..])
    }

    ghost predicate Separate()
      reads this
    {
      && filp as object != pipe.nodes as object
      && filp as object != disk.nodes as object
      && pipe.nodes as object != disk.nodes as object
    }

    ghost predicate Valid()
      reads this, filp, pipe, pipe.nodes, disk, disk.nodes
    {
      Separate() && pipe.Ready() && disk.Ready() && Shape(State())
    }

    // vfs_init, with the memory disk created as device 1
    constructor (root: R.File)
      requires R.IsFile(root)
      ensures Valid() && fresh(filp) && fresh(pipe) && fresh(pipe.nodes) && fresh(disk) && fresh(disk.nodes)
      ensures State() == Runs.Boot(root) && sent == []
    {
      filp := new Filp[MAX_FILP](_ => Filp(0, 0, 0, 0));
      pipe := new PipeDevice.Driver();
      disk := new RamDisk.Driver(root);
      tasks := [];
      sent := [];
      new;
      assert filp[..] == Runs.Boot(root).filps;
    }

    // ----- searches -----

    method FindEmptyFilp() returns (i: int)
      requires filp.Length == MAX_FILP
      ensures i == FreeFilp(filp[..])
    {
      i := 0;
      while i < MAX_FILP
        invariant 0 <= i <= MAX_FILP
        invariant forall j | 0 <= j < i :: filp[..][j].refcnt != 0
      {
        if filp[i].refcnt == 0 {
          assert filp[..][i].refcnt == 0;
          return;
        }
        i := i + 1;
      }
      i := -1;
    }

    method FindEmptyFd(k: nat) returns (i: int)
      requires k < |tasks| && |tasks[k].fd| == MAX_FD
      ensures i == LowestFree(tasks[k].fd)
    {
      i := 0;
      while i < MAX_FD
        invariant 0 <= i <= MAX_FD
        invariant forall j | 0 <= j < i :: 0 <= tasks[k].fd[j]
      {
        if tasks[k].fd[i] < 0 {
          return;
        }
        i := i + 1;
      }
      i := -1;
    }

    method FindByPid(pid: Pid) returns (k: int)
      ensures k == FindTask(tasks, pid)
    {
      k := 0;
      while k < |tasks|
        invariant 0 <= k <= |tasks|
        invariant forall j | 0 <= j < k :: tasks[j].pid != pid
      {
        if tasks[k].pid == pid {
          return;
        }
        k := k + 1;
      }
      k := -1;
    }

    method PutFd(k: nat, fd: nat, f: int)
      requires k < |tasks| && fd < |tasks[k].fd|
      modifies `tasks
      ensures tasks == old(tasks)[k := old(tasks)[k].(fd := old(tasks)[k].fd[fd := f])]
    {
      tasks := tasks[k := tasks[k].(fd := tasks[k].fd[fd := f])];
    }

    // A descriptor of a client starts referring to one more description.
    method Attach(k: nat, fd: nat, fp: nat)
      requires Valid() && k < |tasks| && fd < MAX_FD && fp < MAX_FILP
      modifies `tasks, filp
      ensures Valid()
      ensures State() == AddRef(SetFd(old(State()), k, fd, fp), fp, 1)
    {
      PutFd(k, fd, fp);
      filp[fp] := filp[fp].(refcnt := filp[fp].refcnt + 1);
      assert State() == AddRef(SetFd(old(State()), k, fd, fp), fp, 1);
    }

    // ----- requests -----

    method DoDup(k: nat, fd: int) returns (r: int)
      requires Valid() && k < |tasks| && fd < MAX_FD
      modifies `tasks, filp
      ensures Valid()
      ensures State() == Dup(old(State()), k, fd).sys && r == Dup(old(State()), k, fd).result
    {
      if fd < 0 {
        return -1;
      }
      var fp := tasks[k].fd[fd];
      if fp < 0 {
        return -1;
      }
      r := FindEmptyFd(k);
      if r < 0 {
        return -1;
      }
      Attach(k, r, fp);
    }

    // Both halves of do_pipe: -1 when descriptions or descriptors run out.
    method DoBindEnd(k: nat, ino: nat) returns (fd: int)
      requires Valid() && k < |tasks| && ino < MAX_INO
      modifies `tasks, filp
      ensures Valid() && pipe.nodes[..] == old(pipe.nodes[..]) && |tasks| == |old(tasks)|
      ensures match BindEnd(old(State()), k, ino)
              case None => fd == -1 && State() == old(State())
              case Some((t, d)) => fd == d && State() == t
    {
      var fp := FindEmptyFilp();
      if fp < 0 {
        return -1;
      }
      fd := FindEmptyFd(k);
      if fd < 0 {
        return -1;
      }
      filp[fp] := filp[fp].(dev := PIPE_DEV, ino := ino, refcnt := filp[fp].refcnt + 1);
      PutFd(k, fd, fp);
      assert State() == BindEnd(old(State()), k, ino).value.0;
    }

    // `word` is what the client's message has in the place of fdo; fdi shares
    // its place with the driver's inode number.
    method DoPipe(k: nat, word: int) returns (result: int, fdi: int, fdo: int)
      requires Valid() && k < |tasks| && 0 <= P.FreeInode(State().pipe)
      modifies `tasks, filp, pipe.nodes
      ensures Valid()
      ensures var o := MakePipe(old(State()), k);
              State() == o.sys && (result, fdi) == (o.result, o.fdi) && fdo == if o.fdo.Some? then o.fdo.value else word
    {
      ghost var s := State();
      var ino := pipe.Mknod();
      var r := pipe.GrabNode(ino);
      if r < 0 {
        assert false;
      }
      r := pipe.GrabNode(ino);
      if r < 0 {
        assert false;
      }
      assert State() == NewPipeInode(s);
      fdi := DoBindEnd(k, ino);
      if fdi < 0 {
        return -1, ino, word;
      }
      fdo := DoBindEnd(k, ino);
      if fdo < 0 {
        return -1, fdi, word;
      }
      result := 0;
    }

    method GrabOnDevice(dev: int, ino: int) returns (r: int)
      requires Valid() && IsInode(dev, ino)
      modifies pipe.nodes, disk.nodes
      ensures Valid()
      ensures State() == GrabInode(old(State()), dev, ino).0 && (r < 0 <==> !GrabInode(old(State()), dev, ino).1)
    {
      if dev == PIPE_DEV {
        r := pipe.GrabNode(ino);
      } else {
        r := disk.GrabNode(ino);
      }
    }

    method DoOpen(k: nat, dev: int, ino: int) returns (r: int)
      requires Valid() && k < |tasks| && IsInode(dev, ino)
      modifies `tasks, filp, pipe.nodes, disk.nodes
      ensures Valid()
      ensures State() == Open(old(State()), k, dev, ino).sys && r == Open(old(State()), k, dev, ino).result
    {
      var fd := FindEmptyFd(k);
      if fd < 0 {
        return -1;
      }
      var fp := FindEmptyFilp();
      if fp < 0 {
        return -1;
      }
      ghost var s := State();
      filp[fp] := filp[fp].(dev := dev, ino := ino);
      filp[fp] := filp[fp].(pos := 0);
      ghost var s0 := s.(filps := s.filps[fp := Filp(dev, ino, 0, 0)]);
      assert State() == s0;
      r := GrabOnDevice(dev, ino);
      if r < 0 {
        return -1;
      }
      Attach(k, fd, fp);
      r := fd;
    }

    method Send(client: Pid, data: int)
      modifies `sent
      ensures sent == old(sent) + [P.Reply(client, data)]
    {
      sent := sent + [P.Reply(client, data)];
    }

    static lemma OneMore(s: seq<P.Reply>, i: nat)
      requires i < |s|
      ensures s[..i] + [s[i]] == s[..i + 1]
    {
    }

    static lemma OneLess(q: seq<P.Request>, i: nat)
      requires i < |q|
      ensures q[i..][0] == q[i] && q[i..][1..] == q[i + 1..]
    {
    }

    // The REPEATs of a driver that flushes the queue q of an inode: each client
    // is released and the driver is asked again.
    method AnswerRepeats(ino: nat, first: DevReply, ghost q: seq<P.Request>, ghost links: int)
      requires Separate() && pipe.Midway() && pipe.phase == Flushing(ino)
      requires pipe.nodes[ino] == Some(P.Node(1, links, q)) && first == Repeat(q[0].client, EOF)
      modifies `sent, pipe`phase, pipe.nodes
      ensures pipe.Ready() && pipe.nodes[..] == old(pipe.nodes[..])[ino := Some(P.Node(1, links, []))]
      ensures sent == old(sent) + P.EofReplies(q)
    {
      ghost var before, was := pipe.nodes[..], sent;
      ghost var i := 0;
      assert q[0..] == q;
      var reply := first;
      while reply.Repeat?
        invariant 0 <= i <= |q| && pipe.nodes.Length == P.PD_MAX_NODES
        invariant if i < |q| then pipe.Midway() && pipe.phase == Flushing(ino) && reply == Repeat(q[i].client, EOF)
                  else pipe.Ready() && reply.Final?
        invariant pipe.nodes[..] == before[ino := Some(P.Node(1, links, q[i..]))]
        invariant sent == was + P.EofReplies(q)[..i]
        decreases |q| - i
      {
        OneLess(q, i);
        OneMore(P.EofReplies(q), i);
        assert pipe.nodes[ino] == pipe.nodes[..][ino];
        Send(reply.client, reply.data);
        reply := pipe.Resume();
        i := i + 1;
      }
      assert P.EofReplies(q)[..i] == P.EofReplies(q);
    }

    // VFS_INODE_RELEASE to the pipe driver
    method ReleaseOnPipe(ino: nat)
      requires Valid() && ino < MAX_INO
      modifies `sent, pipe`phase, pipe.nodes
      ensures Valid()
      ensures State() == ReleaseInode(old(State()), PIPE_DEV, ino).0
      ensures sent == old(sent) + ReleaseInode(old(State()), PIPE_DEV, ino).1
    {
      ghost var before := pipe.nodes[..];
      var reply := pipe.ReleaseNode(ino);
      if reply.Repeat? {
        ghost var n := before[ino].value;
        assert pipe.nodes[ino] == pipe.nodes[..][ino];
        AnswerRepeats(ino, reply, n.msgs, n.links);
        assert pipe.nodes[..] == before[ino := P.Apply(n, P.Release).node];
      }
    }

    method ReleaseOnDevice(dev: int, ino: int)
      requires Valid() && IsInode(dev, ino)
      modifies `sent, pipe`phase, pipe.nodes, disk.nodes
      ensures Valid()
      ensures State() == ReleaseInode(old(State()), dev, ino).0
      ensures sent == old(sent) + ReleaseInode(old(State()), dev, ino).1
    {
      if dev == PIPE_DEV {
        ReleaseOnPipe(ino);
      } else {
        var r := disk.ReleaseNode(ino);
      }
    }

    method DoClose(k: nat, fd: int)
      requires Valid() && k < |tasks| && fd < MAX_FD
      modifies `tasks, `sent, filp, pipe`phase, pipe.nodes, disk.nodes
      ensures Valid() && |tasks| == |old(tasks)|
      ensures State() == Close(old(State()), k, fd).sys
      ensures sent == old(sent) + Close(old(State()), k, fd).replies
    {
      if fd < 0 {
        return;
      }
      ghost var s := State();
      var fp := tasks[k].fd[fd];
      PutFd(k, fd, CLOSED);
      assert Shape(State()) && State() == SetFd(s, k, fd, CLOSED);
      if fp < 0 {
        return;
      }
      if filp[fp].refcnt == 0 {
        return;
      }
      filp[fp] := filp[fp].(refcnt := filp[fp].refcnt - 1);
      assert State() == AddRef(SetFd(s, k, fd, CLOSED), fp, -1);
      if filp[fp].refcnt != 0 {
        return;
      }
      ReleaseOnDevice(filp[fp].dev, filp[fp].ino);
    }

    // A read or write on the pipe device, answering its REPEATs; None when
    // the driver keeps the client waiting.
    method TransferOnPipe(ino: nat, r: P.Request) returns (v: Option<int>)
      requires Valid() && ino < MAX_INO && pipe.nodes[ino].Some?
      modifies `sent, pipe`phase, pipe.nodes
      ensures Valid()
      ensures State() == PipeApply(old(State()), ino, P.Transfer(r))
      ensures sent + (if v.None? then [] else [P.Reply(r.client, v.value)])
           == old(sent) + P.Apply(old(pipe.nodes[ino]).value, P.Transfer(r)).replies
    {
      ghost var before := pipe.nodes[..];
      ghost var n := before[ino].value;
      ghost var was := sent;
      ghost var (m, o) := P.Offer(n, r);
      var reply := pipe.TransferNode(ino, r);
      while reply.Repeat?
        invariant Separate() && disk.Ready() && pipe.nodes.Length == P.PD_MAX_NODES
        invariant reply.Repeat? ==>
          && o.Matched? && pipe.Midway() && pipe.phase == Matching(ino, P.Met(r, o.peer).data)
          && reply == Repeat(P.Met(o.peer, r).client, P.Met(o.peer, r).data)
          && pipe.nodes[..] == before && sent == was
        invariant !reply.Repeat? ==>
          && pipe.Ready() && pipe.nodes[..] == before[ino := Some(m)]
          && (match o
              case Held => reply == Hold && sent == was
              case Refused => reply == Final(EOF, 0) && sent == was
              case Matched(p) => reply == Final(P.Met(r, p).data, 0) && sent == was + [P.Met(p, r)])
        decreases if reply.Repeat? then 1 else 0
      {
        Send(reply.client, reply.data);
        reply := pipe.Resume();
      }
      match reply {
        case Hold => v := None;
        case Final(value, _) => v := Some(value);
      }
    }

    // None when the client stays blocked
    method DoRw(k: nat, fd: int, r: P.Request) returns (v: Option<int>)
      requires Valid() && k < |tasks| && fd < MAX_FD && Reachable(State(), k, fd)
      modifies `sent, filp, pipe`phase, pipe.nodes, disk.nodes
      ensures Valid()
      ensures State() == Transfer(old(State()), k, fd, r).sys
      ensures sent + (if v.None? then [] else [P.Reply(r.client, v.value)])
           == old(sent) + Transfer(old(State()), k, fd, r).replies
    {
      if fd < 0 {
        return Some(EOF);
      }
      var fp := tasks[k].fd[fd];
      if fp < 0 {
        return Some(EOF);
      }
      ghost var s := State();
      var p := filp[fp];
      if p.dev == PIPE_DEV {
        v := TransferOnPipe(p.ino, r);   // bnum is always 0: pos stays
      } else {
        v := TransferOnDisk(fp, r);
      }
    }

    method TransferOnDisk(fp: nat, r: P.Request) returns (v: Option<int>)
      requires Valid() && fp < MAX_FILP && filp[fp].dev != PIPE_DEV && disk.nodes[filp[fp].ino].Some?
      modifies filp, disk.nodes
      ensures Valid() && v.Some?
      ensures var p := old(filp[fp]);
              var file := old(disk.nodes[filp[fp].ino]).value;
              if r.kind == P.WriteC then
                var (f, w, n) := R.WriteAt(file, p.pos, r.data);
                v.value == w &&
                State() == old(State()).(disk := old(State()).disk[p.ino := Some(f)],
                                         filps := old(State()).filps[fp := p.(pos := p.pos + n)])
              else
                var (w, n) := R.ReadAt(file, p.pos);
                v.value == w && State() == old(State()).(filps := old(State()).filps[fp := p.(pos := p.pos + n)])
    {
      var p := filp[fp];
      var value, bnum;
      if r.kind == P.WriteC {
        value, bnum := disk.Write(p.ino, p.pos, r.data);
      } else {
        value, bnum := disk.Read(p.ino, p.pos);
      }
      filp[fp] := p.(pos := p.pos + bnum);
      v := Some(value);
    }

    // ----- task registration -----

    method RemoveByPid(pid: Pid)
      requires Valid()
      modifies `tasks, `sent, filp, pipe`phase, pipe.nodes, disk.nodes
      ensures Valid()
      ensures State() == RemoveTask(old(State()), pid).sys
      ensures sent == old(sent) + RemoveTask(old(State()), pid).replies
    {
      var k := FindByPid(pid);
      if k < 0 {
        return;
      }
      CloseAll(k);
      V.WithoutShape(State(), k);
      tasks := tasks[..k] + tasks[k + 1..];
    }

    method CloseAll(k: nat)
      requires Valid() && k < |tasks|
      modifies `tasks, `sent, filp, pipe`phase, pipe.nodes, disk.nodes
      ensures Valid() && |tasks| == |old(tasks)|
      ensures State() == CloseFrom(old(State()), k, 0).0
      ensures sent == old(sent) + CloseFrom(old(State()), k, 0).1
    {
      ghost var goal := CloseFrom(State(), k, 0);
      ghost var was := sent;
      ghost var left := goal;   // what remains to be done, and said
      var i := 0;
      while i < MAX_FD
        invariant 0 <= i <= MAX_FD && Valid() && |tasks| == |old(tasks)|
        invariant left == CloseFrom(State(), k, i)
        invariant left.0 == goal.0
        invariant sent + left.1 == was + goal.1
      {
        ghost var rest := CloseOne(k, i);
        left := (left.0, rest);
        i := i + 1;
      }
    }

    method CloseOne(k: nat, fd: nat) returns (ghost rest: seq<P.Reply>)
      requires Valid() && k < |tasks| && fd < MAX_FD
      modifies `tasks, `sent, filp, pipe`phase, pipe.nodes, disk.nodes
      ensures Valid() && |tasks| == |old(tasks)|
      ensures CloseFrom(State(), k, fd + 1) == (CloseFrom(old(State()), k, fd).0, rest)
      ensures sent + rest == old(sent) + CloseFrom(old(State()), k, fd).1
    {
      rest := CloseFromStep(State(), k, fd);
      DoClose(k, fd);
    }

    // The first close, and the replies of the remaining ones.
    static lemma CloseFromStep(s: Sys, k: nat, fd: nat) returns (rest: seq<P.Reply>)
      requires Shape(s) && k < |s.tasks| && fd < MAX_FD
      ensures var o := Close(s, k, fd);
              && CloseFrom(o.sys, k, fd + 1) == (CloseFrom(s, k, fd).0, rest)
              && CloseFrom(s, k, fd).1 == o.replies + rest
    {
      rest := CloseFrom(Close(s, k, fd).sys, k, fd + 1).1;
    }

    // A record for pid with nothing open.
    method NewTask(pid: Pid)
      requires Valid()
      modifies `tasks
      ensures Valid() && State() == WithTask(old(State()), pid)
    {
      tasks := tasks + [Task(pid, ALL_CLOSED)];
      assert IsTask(tasks[|tasks| - 1]);
    }

    method AddNewTask(pid: Pid, parent: Pid) returns (r: Pid)
      requires Valid()
      modifies `tasks, `sent, filp, pipe`phase, pipe.nodes, disk.nodes
      ensures Valid()
      ensures State() == AddTask(old(State()), pid, parent).sys && r == AddTask(old(State()), pid, parent).result
      ensures sent == old(sent) + AddTask(old(State()), pid, parent).replies
    {
      NewTask(pid);
      var child := |tasks| - 1;
      if parent == NULL_PID {
        return pid;
      }
      var k := FindByPid(parent);
      if k < 0 {
        RemoveByPid(pid);
        return NULL_PID;
      }
      InheritAll(child, k);
      r := pid;
    }

    method InheritAll(child: nat, k: nat)
      requires Valid() && child < |tasks| && k < |tasks|
      requires k == child ==> tasks[k].fd == ALL_CLOSED
      modifies `tasks, filp
      ensures Valid()
      ensures State() == Inherit(old(State()), child, old(tasks)[k].fd, 0)
    {
      ghost var s := State();
      ghost var table := tasks[k].fd;
      var i := 0;
      while i != MAX_FD
        invariant 0 <= i <= MAX_FD && Valid() && |tasks| == |old(tasks)|
        invariant tasks[k].fd == table
        invariant Inherit(State(), child, table, i) == Inherit(s, child, table, 0)
        decreases MAX_FD - i
      {
        if tasks[k].fd[i] >= 0 {
          Attach(child, i, tasks[k].fd[i]);
        }
        i := i + 1;
      }
    }

    // A command passed on to the memory disk.
    method CommandDisk(c: R.Cmd) returns (r: int)
      requires Valid() && (c.Mknod? || c.ino < MAX_INO)
      modifies disk.nodes
      ensures Valid() && State() == DiskCommand(old(State()), c)
      ensures r == R.Command(old(State()).disk, c).1
    {
      match c {
        case Mknod => r := disk.Mknod();
        case Link(ino) => r := disk.LinkNode(ino);
        case Unlink(ino) => r := disk.UnlinkNode(ino);
      }
    }

    // ----- the dispatch loop, one request -----

    // The request of `q.pid` (for AddReq and DelReq: about it) is carried out;
    // a read or write is answered at the end unless the driver holds it, and
    // `a` is what the clients of other requests are told.
    method Serve(q: Runs.Req) returns (a: Runs.Answer)
      requires Valid() && V.Inv(State()) && Runs.Callable(State(), q)
      modifies `tasks, `sent, filp, pipe`phase, pipe.nodes, disk.nodes
      ensures Valid() && V.Inv(State())
      ensures State() == Runs.Step(old(State()), q).0
      ensures sent == old(sent) + Runs.Step(old(State()), q).1
      ensures a == Runs.AnswerTo(old(State()), q)
    {
      Runs.StepInv(State(), q);
      var k := FindByPid(q.pid);
      match q {
        case AddReq(pid, parent) =>
          var r := AddNewTask(pid, parent);
          a := Runs.Number(r);
        case DelReq(pid) =>
          RemoveByPid(pid);
          a := Runs.Told;
        case DiskReq(_, c) =>
          var r := CommandDisk(c);
          a := Runs.Number(r);
        case DupReq(_, fd) =>
          var r := DoDup(k, fd);
          a := Runs.Number(r);
        case PipeReq(_) =>
          var word: int := *;
          var result, fdi, fdo := DoPipe(k, word);
          a := Runs.Ends(result, fdi, if result == 0 then Some(fdo) else None);
        case OpenReq(_, dev, ino) =>
          var r := DoOpen(k, dev, ino);
          a := Runs.Number(r);
        case CloseReq(_, fd) =>
          DoClose(k, fd);
          a := Runs.Told;
        case RwReq(pid, fd, kind, data) =>
          V.TransferInv(State(), k, fd, P.Request(kind, pid, data));
          var v := DoRw(k, fd, P.Request(kind, pid, data));
          a := Runs.Among;
          if v.Some? {
            Send(pid, v.value);
          }
      }
    }
  }
}
