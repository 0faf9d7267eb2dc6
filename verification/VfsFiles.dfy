// What the memory disk gives back: bytes written to a file are read from it,
// in order, through another descriptor.
module VfsFiles {
  import opened Common
  import opened FdTable
  import opened VfsSpec
  import opened VfsInvariant
  import opened VfsRun
  import P = PipeSpec
  import R = RamDiskSpec
  import T = VfsTables

  // The description that client p has at descriptor fd is open on inode ino of
  // the disk, at position pos.
  ghost predicate At(s: Sys, p: Pid, fd: int, f: int, ino: int, pos: int) {
    && Shape(s) && var k := FindTask(s.tasks, p);
    && 0 <= k && 0 <= fd < MAX_FD && s.tasks[k].fd[fd] == f && 0 <= f < MAX_FILP
    && s.filps[f].dev == DISK_DEV && s.filps[f].ino == ino && s.filps[f].pos == pos
  }

  // c is b as a signed byte.
  predicate IsChar(c: int, b: int) {
    -128 <= c < 128 && (c - b) % 256 == 0
  }

  // Only the position of description f and inode ino are touched.
  ghost predicate OnlyAt(s: Sys, t: Sys, f: int, ino: int) {
    && t.tasks == s.tasks && t.pipe == s.pipe && |t.filps| == |s.filps| && |t.disk| == |s.disk|
    && (forall g | 0 <= g < |s.filps| && g != f :: t.filps[g] == s.filps[g])
    && (forall i | 0 <= i < |s.disk| && i != ino :: t.disk[i] == s.disk[i])
  }

  // The file at an inode of the disk.
  ghost predicate FileAt(s: Sys, ino: int, size: int, bytes: seq<int>) {
    && 0 <= ino < |s.disk| && s.disk[ino].Some? && |bytes| == 128
    && s.disk[ino].value.size == size && s.disk[ino].value.bytes == bytes
  }

  // ----- one byte -----

  /** A write below position 127 stores its byte there and nowhere else, ends the
      file behind it, is answered with its data, and moves its description on by
      one; any other is answered EOF and changes nothing. */
  lemma WriteByte(s: Sys, p: Pid, fd: int, f: int, ino: nat, pos: nat, size: int, bytes: seq<int>, b: int)
    requires Inv(s) && At(s, p, fd, f, ino, pos) && FileAt(s, ino, size, bytes)
    ensures var q := RwReq(p, fd, P.WriteC, b);
            && Callable(s, q)
            && var (t, replies) := Step(s, q);
               if pos < 127 then
                 && At(t, p, fd, f, ino, pos + 1) && OnlyAt(s, t, f, ino) && replies == [P.Reply(p, b)]
                 && t.disk[ino].Some? && FileAt(t, ino, pos + 1, t.disk[ino].value.bytes)
                 && IsChar(t.disk[ino].value.bytes[pos], b)
                 && forall j | 0 <= j < 128 && j != pos :: t.disk[ino].value.bytes[j] == bytes[j]
               else
                 t == s && replies == [P.Reply(p, EOF)]
  {
    var q := RwReq(p, fd, P.WriteC, b);
    var k := FindTask(s.tasks, p);
    OpenDescriptorIsBacked(s, k, fd);
    TransferInv(s, k, fd, P.Request(P.WriteC, p, b));
    CharOf(b);
    if pos >= 127 {
      assert s.filps[f := s.filps[f].(pos := pos + 0)] == s.filps;
      assert s.disk[ino := Some(s.disk[ino].value)] == s.disk;
    }
  }

  lemma CharOf(b: int)
    ensures IsChar(R.ToChar(b), b)
  {
  }

  /** A read below position 127 and below the end of the file is answered with the
      byte there and moves its description on by one; any other is answered EOF
      and changes nothing.  No read changes the file. */
  lemma ReadByte(s: Sys, p: Pid, fd: int, f: int, ino: nat, pos: nat, size: int, bytes: seq<int>)
    requires Inv(s) && At(s, p, fd, f, ino, pos) && FileAt(s, ino, size, bytes)
    ensures var q := RwReq(p, fd, P.ReadC, 0);
            && Callable(s, q)
            && var (t, replies) := Step(s, q);
               if pos < 127 && pos < size then
                 && At(t, p, fd, f, ino, pos + 1) && OnlyAt(s, t, f, ino) && FileAt(t, ino, size, bytes)
                 && replies == [P.Reply(p, bytes[pos])]
               else
                 t == s && replies == [P.Reply(p, EOF)]
  {
    var k := FindTask(s.tasks, p);
    OpenDescriptorIsBacked(s, k, fd);
    TransferInv(s, k, fd, P.Request(P.ReadC, p, 0));
    if pos >= 127 || pos >= size {
      assert s.filps[f := s.filps[f].(pos := pos + 0)] == s.filps;
    }
  }

  // ----- many bytes -----

  function Writes(p: Pid, fd: int, data: seq<int>): seq<Req> {
    seq(|data|, i requires 0 <= i < |data| => RwReq(p, fd, P.WriteC, data[i]))
  }

  function Reads(p: Pid, fd: int, n: nat): seq<Req> {
    seq(n, _ => RwReq(p, fd, P.ReadC, 0))
  }

  // The n bytes from a position on.
  function Values(bytes: seq<int>, pos: nat, n: nat): seq<int>
    requires pos + n <= |bytes|
  {
    seq(n, i requires 0 <= i < n => bytes[pos + i])
  }

  // What a client is told.
  function Told(p: Pid, values: seq<int>): seq<P.Reply> {
    seq(|values|, i requires 0 <= i < |values| => P.Reply(p, values[i]))
  }

  // A run and what it comes to.
  ghost predicate Goes(s: Sys, qs: seq<Req>, t: Sys, replies: seq<P.Reply>)
    decreases |qs|
  {
    && Inv(s)
    && if qs == [] then t == s && replies == []
       else
         && Callable(s, qs[0]) && Step(s, qs[0]).1 <= replies
         && Goes(Step(s, qs[0]).0, qs[1..], t, replies[|Step(s, qs[0]).1|..])
  }

  lemma {:induction false} GoesFirst(s: Sys, q: Req, now: seq<P.Reply>, u: Sys, qs: seq<Req>, t: Sys,
                                     later: seq<P.Reply>)
    requires Inv(s) && Callable(s, q) && Step(s, q) == (u, now) && Goes(u, qs, t, later)
    ensures Goes(s, [q] + qs, t, now + later)
  {
    assert ([q] + qs)[1..] == qs;
    assert (now + later)[|now|..] == later;
  }

  // The first request of a run.
  lemma {:induction false} GoesOn(s: Sys, qs: seq<Req>, t: Sys, replies: seq<P.Reply>)
    returns (q: Req, rest: seq<Req>, now: seq<P.Reply>, later: seq<P.Reply>, u: Sys)
    requires Goes(s, qs, t, replies) && qs != []
    ensures qs == [q] + rest && Inv(s) && Callable(s, q) && Step(s, q) == (u, now) && replies == now + later
    ensures Goes(u, rest, t, later)
  {
    q, rest := qs[0], qs[1..];
    u, now := Step(s, q).0, Step(s, q).1;
    later := replies[|now|..];
  }

  lemma Regroup<X>(a: seq<X>, b: seq<X>, c: seq<X>)
    ensures a + b + c == a + (b + c)
  {
  }

  lemma {:induction false} GoesThen(s: Sys, a: seq<Req>, u: Sys, x: seq<P.Reply>, b: seq<Req>, t: Sys, y: seq<P.Reply>)
    requires Goes(s, a, u, x) && Goes(u, b, t, y)
    ensures Goes(s, a + b, t, x + y)
    decreases |a|
  {
    if a == [] {
      assert a + b == b && x + y == y;
    } else {
      var q, rest, now, later, v := GoesOn(s, a, u, x);
      GoesThen(v, rest, u, later, b, t, y);
      GoesFirst(s, q, now, v, rest + b, t, later + y);
      Regroup([q], rest, b);
      Regroup(now, later, y);
    }
  }

  lemma {:induction false} GoesIsRun(s: Sys, qs: seq<Req>, t: Sys, replies: seq<P.Reply>)
    requires Goes(s, qs, t, replies)
    ensures Runnable(s, qs) && Run(s, qs) == (t, replies)
    decreases |qs|
  {
    if qs != [] {
      var q, rest, now, later, u := GoesOn(s, qs, t, replies);
      GoesIsRun(u, rest, t, later);
    }
  }

  // The bytes from position pos on are the data.
  ghost predicate Holds(bytes: seq<int>, pos: nat, data: seq<int>) {
    pos + |data| <= |bytes| && forall i | 0 <= i < |data| :: IsChar(bytes[pos + i], data[i])
  }

  // One write, and the run goes on.
  lemma {:induction false} WriteOn(s: Sys, p: Pid, fd: int, f: int, ino: nat, pos: nat, size: int, bytes: seq<int>,
                                   b: int)
    returns (u: Sys, now: seq<int>)
    requires Inv(s) && At(s, p, fd, f, ino, pos) && FileAt(s, ino, size, bytes) && pos < 127
    ensures Inv(u) && At(u, p, fd, f, ino, pos + 1) && OnlyAt(s, u, f, ino) && FileAt(u, ino, pos + 1, now)
    ensures IsChar(now[pos], b) && forall j | 0 <= j < 128 && j != pos :: now[j] == bytes[j]
    ensures forall qs, t, later | Goes(u, qs, t, later) ::
              Goes(s, [RwReq(p, fd, P.WriteC, b)] + qs, t, [P.Reply(p, b)] + later)
  {
    var q := RwReq(p, fd, P.WriteC, b);
    WriteByte(s, p, fd, f, ino, pos, size, bytes, b);
    StepInv(s, q);
    u := Step(s, q).0;
    now := u.disk[ino].value.bytes;
    forall qs, t, later | Goes(u, qs, t, later) ensures Goes(s, [q] + qs, t, [P.Reply(p, b)] + later) {
      GoesFirst(s, q, [P.Reply(p, b)], u, qs, t, later);
    }
  }

  lemma FirstWrite(p: Pid, fd: int, data: seq<int>)
    requires data != []
    ensures Writes(p, fd, data) == [RwReq(p, fd, P.WriteC, data[0])] + Writes(p, fd, data[1..])
    ensures Told(p, data) == [P.Reply(p, data[0])] + Told(p, data[1..])
    ensures Writes(p, fd, []) == [] && Told(p, []) == []
  {
  }

  lemma OnlyAtTwice(s: Sys, u: Sys, t: Sys, f: int, ino: int)
    requires OnlyAt(s, u, f, ino) && OnlyAt(u, t, f, ino)
    ensures OnlyAt(s, t, f, ino)
  {
  }

  lemma {:induction false} WriteMany(s: Sys, p: Pid, fd: int, f: int, ino: nat, pos: nat, size: int, bytes: seq<int>,
                                     data: seq<int>)
    returns (t: Sys, now: seq<int>)
    requires Inv(s) && At(s, p, fd, f, ino, pos) && FileAt(s, ino, size, bytes) && data != [] && pos + |data| <= 127
    ensures Goes(s, Writes(p, fd, data), t, Told(p, data)) && Inv(t)
    ensures At(t, p, fd, f, ino, pos + |data|) && OnlyAt(s, t, f, ino) && FileAt(t, ino, pos + |data|, now)
    ensures Holds(now, pos, data) && forall j | 0 <= j < pos :: now[j] == bytes[j]
    decreases |data|
  {
    var u, first := WriteOn(s, p, fd, f, ino, pos, size, bytes, data[0]);
    FirstWrite(p, fd, data);
    if data[1..] == [] {
      t, now := u, first;
      assert Goes(u, [], u, []);
    } else {
      t, now := WriteMany(u, p, fd, f, ino, pos + 1, pos + 1, first, data[1..]);
      MoreHeld(now, pos, data);
      OnlyAtTwice(s, u, t, f, ino);
    }
  }

  lemma MoreHeld(bytes: seq<int>, pos: nat, data: seq<int>)
    requires data != [] && pos + |data| <= |bytes| && IsChar(bytes[pos], data[0]) && Holds(bytes, pos + 1, data[1..])
    ensures Holds(bytes, pos, data)
  {
    forall i | 0 <= i < |data| ensures IsChar(bytes[pos + i], data[i]) {
      if i > 0 { assert data[i] == data[1..][i - 1]; }
    }
  }

  // One read, and the run goes on.
  lemma {:induction false} ReadOn(s: Sys, p: Pid, fd: int, f: int, ino: nat, pos: nat, size: int, bytes: seq<int>)
    returns (u: Sys)
    requires Inv(s) && At(s, p, fd, f, ino, pos) && FileAt(s, ino, size, bytes) && pos < 127 && pos < size
    ensures Inv(u) && At(u, p, fd, f, ino, pos + 1) && FileAt(u, ino, size, bytes)
    ensures forall qs, t, later | Goes(u, qs, t, later) ::
              Goes(s, [RwReq(p, fd, P.ReadC, 0)] + qs, t, [P.Reply(p, bytes[pos])] + later)
  {
    var q := RwReq(p, fd, P.ReadC, 0);
    ReadByte(s, p, fd, f, ino, pos, size, bytes);
    StepInv(s, q);
    u := Step(s, q).0;
    forall qs, t, later | Goes(u, qs, t, later) ensures Goes(s, [q] + qs, t, [P.Reply(p, bytes[pos])] + later) {
      GoesFirst(s, q, [P.Reply(p, bytes[pos])], u, qs, t, later);
    }
  }

  lemma {:induction false} ReadMany(s: Sys, p: Pid, fd: int, f: int, ino: nat, pos: nat, size: int, bytes: seq<int>,
                                    n: nat)
    returns (t: Sys)
    requires Inv(s) && At(s, p, fd, f, ino, pos) && FileAt(s, ino, size, bytes) && pos + n <= 127 && pos + n <= size
    ensures Goes(s, Reads(p, fd, n), t, Told(p, Values(bytes, pos, n))) && Inv(t)
    ensures At(t, p, fd, f, ino, pos + n) && FileAt(t, ino, size, bytes)
    decreases n
  {
    if n == 0 {
      t := s;
      ReadNone(s, p, fd, bytes, pos);
    } else {
      var u := ReadOn(s, p, fd, f, ino, pos, size, bytes);
      t := ReadMany(u, p, fd, f, ino, pos + 1, size, bytes, n - 1);
      FirstRead(p, fd, bytes, pos, n);
    }
  }

  lemma ReadNone(s: Sys, p: Pid, fd: int, bytes: seq<int>, pos: nat)
    requires Inv(s) && pos <= |bytes|
    ensures Goes(s, Reads(p, fd, 0), s, Told(p, Values(bytes, pos, 0)))
  {
    assert Reads(p, fd, 0) == [] && Told(p, Values(bytes, pos, 0)) == [];
  }

  lemma FirstRead(p: Pid, fd: int, bytes: seq<int>, pos: nat, n: nat)
    requires 0 < n && pos + n <= |bytes|
    ensures Reads(p, fd, n) == [RwReq(p, fd, P.ReadC, 0)] + Reads(p, fd, n - 1)
    ensures Told(p, Values(bytes, pos, n)) == [P.Reply(p, bytes[pos])] + Told(p, Values(bytes, pos + 1, n - 1))
  {
  }

  // ----- a file, opened twice -----

  // Client p can open inode ino of the disk.
  ghost predicate CanOpen(s: Sys, p: Pid, ino: int) {
    && Shape(s) && 0 <= FindTask(s.tasks, p) && 0 <= ino < MAX_INO && s.disk[ino].Some?
    && 0 <= LowestFree(s.tasks[FindTask(s.tasks, p)].fd) && 0 <= FreeFilp(s.filps)
  }

  // t is s with another open descriptor.
  ghost predicate OneMore(s: Sys, t: Sys, p: Pid, fd: int, f: int) {
    && Shape(s) && Shape(t) && var k := FindTask(s.tasks, p);
    && 0 <= k && FindTask(t.tasks, p) == k && 0 <= fd < MAX_FD && s.tasks[k].fd[fd] < 0
    && (forall i | 0 <= i < MAX_FD && i != fd :: t.tasks[k].fd[i] == s.tasks[k].fd[i])
    && 0 <= f < MAX_FILP && s.filps[f].refcnt == 0
    && (forall g | 0 <= g < MAX_FILP && g != f :: t.filps[g] == s.filps[g])
  }

  /** A file is opened at its beginning, by a description that was free, and
      opening it does not change what is in it. */
  lemma OpensAtStart(s: Sys, p: Pid, ino: nat, size: int, bytes: seq<int>) returns (fd: nat, f: nat)
    requires Inv(s) && CanOpen(s, p, ino) && FileAt(s, ino, size, bytes)
    ensures var q := OpenReq(p, DISK_DEV, ino);
            && Callable(s, q) && var t := Step(s, q).0;
            Inv(t) && At(t, p, fd, f, ino, 0) && OneMore(s, t, p, fd, f) && FileAt(t, ino, size, bytes)
    ensures Step(s, OpenReq(p, DISK_DEV, ino)).1 == [] && AnswerTo(s, OpenReq(p, DISK_DEV, ino)) == Number(fd)
  {
    var k := FindTask(s.tasks, p);
    fd := LowestFree(s.tasks[k].fd);
    f := FreeFilp(s.filps);
    var q := OpenReq(p, DISK_DEV, ino);
    StepInv(s, q);
    SamePlace(s.tasks, Step(s, q).0.tasks, p);
  }

  lemma SamePlace(a: seq<Task>, b: seq<Task>, p: Pid)
    requires |a| == |b| && forall i | 0 <= i < |a| :: b[i].pid == a[i].pid
    ensures FindTask(b, p) == FindTask(a, p)
  {
  }

  lemma {:induction false} OneRequest(s: Sys, q: Req, t: Sys, replies: seq<P.Reply>)
    requires Inv(s) && Callable(s, q) && Step(s, q) == (t, replies) && Inv(t)
    ensures Goes(s, [q], t, replies)
  {
    assert [q][1..] == [];
  }

  // Reading a file to its end.
  lemma {:induction false} ReadAll(s: Sys, p: Pid, fd: int, f: int, ino: nat, bytes: seq<int>, n: nat) returns (t: Sys)
    requires Inv(s) && At(s, p, fd, f, ino, 0) && FileAt(s, ino, n, bytes) && n <= 127
    ensures Goes(s, Reads(p, fd, n) + Reads(p, fd, 1), t, Told(p, Values(bytes, 0, n)) + [P.Reply(p, EOF)])
  {
    t := ReadMany(s, p, fd, f, ino, 0, n, bytes, n);
    ReadByte(t, p, fd, f, ino, n, n, bytes);
    OneRequest(t, RwReq(p, fd, P.ReadC, 0), t, [P.Reply(p, EOF)]);
    assert Reads(p, fd, 1) == [RwReq(p, fd, P.ReadC, 0)];
    GoesThen(s, Reads(p, fd, n), t, Told(p, Values(bytes, 0, n)), Reads(p, fd, 1), t, [P.Reply(p, EOF)]);
  }

  // Opening a file and writing to it.
  lemma {:induction false} OpenAndWrite(s: Sys, p: Pid, ino: nat, data: seq<int>)
    returns (fd: nat, t: Sys, bytes: seq<int>)
    requires Inv(s) && CanOpen(s, p, ino) && 0 < |data| <= 127
    requires Callable(s, OpenReq(p, DISK_DEV, ino)) && CanOpen(Step(s, OpenReq(p, DISK_DEV, ino)).0, p, ino)
    ensures AnswerTo(s, OpenReq(p, DISK_DEV, ino)) == Number(fd)
    ensures Goes(s, [OpenReq(p, DISK_DEV, ino)] + Writes(p, fd, data), t, Told(p, data))
    ensures Inv(t) && CanOpen(t, p, ino) && FileAt(t, ino, |data|, bytes) && Holds(bytes, 0, data)
  {
    var q := OpenReq(p, DISK_DEV, ino);
    var file := s.disk[ino].value;
    var f;
    fd, f := OpensAtStart(s, p, ino, file.size, file.bytes);
    var v := Step(s, q).0;
    t, bytes := WriteMany(v, p, fd, f, ino, 0, file.size, file.bytes, data);
    GoesFirst(s, q, [], v, Writes(p, fd, data), t, Told(p, data));
    assert [] + Told(p, data) == Told(p, data);
    SameRoom(v, t, p, ino, f, fd, |data|);
  }

  // Opening a file and reading it to its end.
  lemma {:induction false} OpenAndRead(s: Sys, p: Pid, ino: nat, n: nat, bytes: seq<int>) returns (fd: nat, t: Sys)
    requires Inv(s) && CanOpen(s, p, ino) && FileAt(s, ino, n, bytes) && n <= 127
    ensures Callable(s, OpenReq(p, DISK_DEV, ino)) && AnswerTo(s, OpenReq(p, DISK_DEV, ino)) == Number(fd)
    ensures Goes(s, [OpenReq(p, DISK_DEV, ino)] + (Reads(p, fd, n) + Reads(p, fd, 1)), t,
                 Told(p, Values(bytes, 0, n)) + [P.Reply(p, EOF)])
  {
    var q := OpenReq(p, DISK_DEV, ino);
    var f;
    fd, f := OpensAtStart(s, p, ino, n, bytes);
    var w := Step(s, q).0;
    t := ReadAll(w, p, fd, f, ino, bytes, n);
    var replies := Told(p, Values(bytes, 0, n)) + [P.Reply(p, EOF)];
    GoesFirst(s, q, [], w, Reads(p, fd, n) + Reads(p, fd, 1), t, replies);
    assert [] + replies == replies;
  }

  /** Opening a file of the disk, writing up to 127 bytes to it, opening it once
      more and reading: the writes are answered with their data, and the reads with
      these bytes in order, as signed chars, and then with EOF. */
  lemma {:induction false} FileReadBack(s: Sys, p: Pid, ino: nat, data: seq<int>)
    returns (a: nat, b: nat, t: Sys, got: seq<int>)
    requires Inv(s) && CanOpen(s, p, ino) && 0 < |data| <= 127
    requires Callable(s, OpenReq(p, DISK_DEV, ino)) && CanOpen(Step(s, OpenReq(p, DISK_DEV, ino)).0, p, ino)
    ensures var q := OpenReq(p, DISK_DEV, ino);
            var first := [q] + Writes(p, a, data);
            var last := [q] + (Reads(p, b, |data|) + Reads(p, b, 1));
            && AnswerTo(s, q) == Number(a) && Runnable(s, first + last)
            && Run(s, first + last) == (t, Told(p, data) + (Told(p, got) + [P.Reply(p, EOF)]))
    ensures |got| == |data| && forall i | 0 <= i < |data| :: IsChar(got[i], data[i])
  {
    var u, bytes;
    a, u, bytes := OpenAndWrite(s, p, ino, data);
    b, t := OpenAndRead(u, p, ino, |data|, bytes);
    got := Values(bytes, 0, |data|);
    var q := OpenReq(p, DISK_DEV, ino);
    var first := [q] + Writes(p, a, data);
    var last := [q] + (Reads(p, b, |data|) + Reads(p, b, 1));
    GoesThen(s, first, u, Told(p, data), last, t, Told(p, got) + [P.Reply(p, EOF)]);
    GoesIsRun(s, first + last, t, Told(p, data) + (Told(p, got) + [P.Reply(p, EOF)]));
    assert forall i | 0 <= i < |data| :: got[i] == bytes[0 + i];
  }

  // Writing uses up no room.
  lemma SameRoom(v: Sys, u: Sys, p: Pid, ino: nat, f: int, fd: int, pos: int)
    requires Inv(v) && CanOpen(v, p, ino) && OnlyAt(v, u, f, ino) && At(v, p, fd, f, ino, 0)
             && At(u, p, fd, f, ino, pos)
    requires u.disk[ino].Some? && Inv(u)
    ensures CanOpen(u, p, ino)
  {
    var g := FreeFilp(v.filps);
    OpenDescriptorIsBacked(v, FindTask(v.tasks, p), fd);
    assert u.filps[g] == v.filps[g];
  }

  // ----- nobody else touches a file or a position -----

  // Inodes may have gone, but what is in those that are there has not changed.
  ghost predicate SameFiles(s: Sys, t: Sys) {
    && |s.disk| == |t.disk|
    && forall i | 0 <= i < |s.disk| && t.disk[i].Some? ::
         s.disk[i].Some? && t.disk[i].value.size == s.disk[i].value.size
             && t.disk[i].value.bytes == s.disk[i].value.bytes
  }

  // Descriptions in use before and after are where they were.
  ghost predicate SamePlaces(s: Sys, t: Sys) {
    && |s.filps| == |t.filps|
    && forall f | 0 <= f < |s.filps| && s.filps[f].refcnt != 0 :: t.filps[f].pos == s.filps[f].pos
  }

  ghost predicate AllPlaces(s: Sys, t: Sys) {
    |s.filps| == |t.filps| && forall f | 0 <= f < |s.filps| :: t.filps[f].pos == s.filps[f].pos
  }

  lemma CloseKeeps(s: Sys, k: nat, fd: int)
    requires Shape(s) && k < |s.tasks| && fd < MAX_FD
    ensures SameFiles(s, Close(s, k, fd).sys) && AllPlaces(s, Close(s, k, fd).sys)
  {
  }

  lemma {:induction false} CloseFromKeeps(s: Sys, k: nat, fd: nat)
    requires Shape(s) && k < |s.tasks| && fd <= MAX_FD
    ensures SameFiles(s, CloseFrom(s, k, fd).0) && AllPlaces(s, CloseFrom(s, k, fd).0)
    decreases MAX_FD - fd
  {
    if fd < MAX_FD {
      CloseKeeps(s, k, fd);
      CloseFromKeeps(Close(s, k, fd).sys, k, fd + 1);
    }
  }

  lemma {:induction false} RemoveKeeps(s: Sys, pid: Pid)
    requires Shape(s)
    ensures SameFiles(s, RemoveTask(s, pid).sys) && AllPlaces(s, RemoveTask(s, pid).sys)
  {
    if 0 <= FindTask(s.tasks, pid) {
      CloseFromKeeps(s, FindTask(s.tasks, pid), 0);
    }
  }

  lemma {:induction false} InheritKeeps(s: Sys, child: nat, table: Table, fd: nat)
    requires Shape(s) && child < |s.tasks| && IsTable(table) && fd <= MAX_FD
    requires forall i | 0 <= i < MAX_FD :: table[i] < MAX_FILP
    ensures SameFiles(s, Inherit(s, child, table, fd)) && AllPlaces(s, Inherit(s, child, table, fd))
    decreases MAX_FD - fd
  {
    if fd < MAX_FD {
      var t := if table[fd] < 0 then s else AddRef(SetFd(s, child, fd, table[fd]), table[fd], 1);
      InheritKeeps(t, child, table, fd + 1);
    }
  }

  lemma {:induction false} AddKeeps(s: Sys, pid: Pid, parent: Pid)
    requires Inv(s)
    ensures SameFiles(s, AddTask(s, pid, parent).sys) && AllPlaces(s, AddTask(s, pid, parent).sys)
  {
    EmptyTableInv(s, pid);
    var s0 := WithTask(s, pid);
    var j := FindTask(s0.tasks, parent);
    if parent != NULL_PID {
      if j < 0 { RemoveKeeps(s0, pid); } else { InheritKeeps(s0, |s.tasks|, s0.tasks[j].fd, 0); }
    }
  }

  lemma OpenKeeps(s: Sys, k: nat, dev: int, ino: int)
    requires Shape(s) && k < |s.tasks| && IsInode(dev, ino)
    ensures SameFiles(s, Open(s, k, dev, ino).sys) && SamePlaces(s, Open(s, k, dev, ino).sys)
  {
  }

  lemma PipeKeeps(s: Sys, k: nat)
    requires Shape(s) && k < |s.tasks| && 0 <= P.FreeInode(s.pipe)
    ensures SameFiles(s, MakePipe(s, k).sys) && SamePlaces(s, MakePipe(s, k).sys)
  {
  }

  /** But for reads, writes and the disk's own commands no request changes what is
      in a file or where an open description stands, and none brings back a file
      that has gone. */
  lemma {:induction false} OthersKeepFiles(s: Sys, q: Req)
    requires Inv(s) && Callable(s, q) && !q.RwReq? && !q.DiskReq?
    ensures SameFiles(s, Step(s, q).0) && SamePlaces(s, Step(s, q).0)
  {
    var k := FindTask(s.tasks, q.pid);
    match q
    case DupReq(_, fd) =>
    case PipeReq(_) => PipeKeeps(s, k);
    case OpenReq(_, dev, ino) => OpenKeeps(s, k, dev, ino);
    case CloseReq(_, fd) => CloseKeeps(s, k, fd);
    case AddReq(pid, parent) => AddKeeps(s, pid, parent);
    case DelReq(pid) => RemoveKeeps(s, pid);
  }

  /** The disk's own commands change nothing in a file that was there and stays. */
  lemma CommandKeepsFiles(s: Sys, c: R.Cmd, ino: nat)
    requires Inv(s) && R.InRange(s.disk, c) && ino < MAX_INO && s.disk[ino].Some? && DiskCommand(s, c).disk[ino].Some?
    ensures var t := DiskCommand(s, c);
            && t.disk[ino].value.size == s.disk[ino].value.size && t.disk[ino].value.bytes == s.disk[ino].value.bytes
            && t.filps == s.filps && t.tasks == s.tasks && t.pipe == s.pipe
  {
  }

  /** A read or write on a pipe changes no file and no position, and one at a
      descriptor of the disk only its own file and position. */
  lemma {:induction false} RwKeepsOthers(s: Sys, q: Req, f: nat)
    requires Inv(s) && Callable(s, q) && q.RwReq? && 0 <= q.fd && f < MAX_FILP
    requires f == s.tasks[FindTask(s.tasks, q.pid)].fd[q.fd]
    ensures var t := Step(s, q).0;
            if s.filps[f].dev == PIPE_DEV then
              t.filps == s.filps && t.disk == s.disk && t.tasks == s.tasks
            else
              OnlyAt(s, t, f, s.filps[f].ino)
  {
    TransferInv(s, FindTask(s.tasks, q.pid), q.fd, P.Request(q.kind, q.pid, q.data));
  }
}
