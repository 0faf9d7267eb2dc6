// The process manager (servers/pm.c) as a transition system over its three
// queues of process records and their parent pointers.
module PmSpec {
  import opened Common

  // The address of a process record.
  type Rec = int

  // `word` is the union of waitfor (while waiting) and exitcode (as a zombie).
  datatype Proc = Proc(pid: Pid, parent: Option<Rec>, word: int)

  datatype Sys = Sys(taskQ: seq<Rec>, waitQ: seq<Rec>, zombieQ: seq<Rec>, proc: map<Rec, Proc>)

  // A request of the process with kernel pid `client`.
  datatype Action =
    | Spawn(client: Pid, rec: Rec, pid: Pid)   // the new record and kernel task
    | Exit(client: Pid, code: int)
    | Wait(client: Pid, waitfor: Pid)
    | Other(client: Pid)                       // exec, malloc, free

  // What wait() returns, and in which process.
  datatype Answer = Child(to: Rec, pid: Pid, code: int) | NoChild(to: Rec)

  datatype Effect = Effect(sys: Sys, answers: seq<Answer>)

  ghost predicate Shape(s: Sys) {
    && (forall r | r in s.taskQ :: r in s.proc)
    && (forall r | r in s.waitQ :: r in s.proc)
    && (forall r | r in s.zombieQ :: r in s.proc && r !in s.taskQ)
  }

  predicate Live(s: Sys, r: Rec) {
    r in s.taskQ || r in s.waitQ
  }

  predicate IsChild(proc: map<Rec, Proc>, r: Rec, parent: Rec) {
    r in proc && proc[r].parent == Some(parent)
  }

  // A process waiting for `waitfor` accepts the exit of child r.
  predicate Accepts(waitfor: Pid, pid: Pid) {
    waitfor == pid || waitfor == TASK_ANY
  }

  predicate HasPid(proc: map<Rec, Proc>, r: Rec, pid: Pid) {
    r in proc && proc[r].pid == pid
  }

  function FindByPid(s: Sys, pid: Pid): (i: int)
    ensures -1 <= i < |s.taskQ|
    ensures 0 <= i ==> HasPid(s.proc, s.taskQ[i], pid) && forall j | 0 <= j < i :: !HasPid(s.proc, s.taskQ[j], pid)
    ensures i < 0 ==> forall j | 0 <= j < |s.taskQ| :: !HasPid(s.proc, s.taskQ[j], pid)
  {
    FirstWhere(s.taskQ, (r: Rec) => HasPid(s.proc, r, pid))
  }

  // The first zombie child of c whose exit c would accept.
  function FindZombie(s: Sys, c: Rec, waitfor: Pid): (i: int)
    ensures -1 <= i < |s.zombieQ|
    ensures 0 <= i ==> Reapable(s.proc, s.zombieQ[i], c, waitfor)
    ensures 0 <= i ==> forall j | 0 <= j < i :: !Reapable(s.proc, s.zombieQ[j], c, waitfor)
    ensures i < 0 ==> forall j | 0 <= j < |s.zombieQ| :: !Reapable(s.proc, s.zombieQ[j], c, waitfor)
  {
    FirstWhere(s.zombieQ, (z: Rec) => Reapable(s.proc, z, c, waitfor))
  }

  predicate Reapable(proc: map<Rec, Proc>, z: Rec, c: Rec, waitfor: Pid) {
    IsChild(proc, z, c) && Accepts(waitfor, proc[z].pid)
  }

  predicate HasLiveChild(s: Sys, c: Rec) {
    || (exists r | r in s.taskQ :: IsChild(s.proc, r, c))
    || (exists r | r in s.waitQ :: IsChild(s.proc, r, c))
  }

  // The requesting process goes to the front of task_q.
  function Front(s: Sys, i: nat): Sys
    requires i < |s.taskQ|
  {
    s.(taskQ := [s.taskQ[i]] + Remove(s.taskQ, i))
  }

  // A queue without the children of c.
  function NotChildren(q: seq<Rec>, proc: map<Rec, Proc>, c: Rec): (r: seq<Rec>)
    ensures forall x :: x in r <==> x in q && !IsChild(proc, x, c)
  {
    if q == [] then []
    else
      assert q == [q[0]] + q[1..];
      (if IsChild(proc, q[0], c) then [] else [q[0]]) + NotChildren(q[1..], proc, c)
  }

  function Orphaned(p: Proc, c: Rec): Proc {
    if p.parent == Some(c) then p.(parent := None) else p
  }

  // c's zombie children are gone and its live children have no parent.
  function Disown(s: Sys, c: Rec): Sys {
    s.(zombieQ := NotChildren(s.zombieQ, s.proc, c),
       proc := map r | r in s.proc && !(r in s.zombieQ && IsChild(s.proc, r, c)) :: Orphaned(s.proc[r], c))
  }

  // The end of process c, which is at the front of task_q.
  function Depart(s: Sys, c: Rec, code: int): Effect
    requires c in s.proc && 0 < |s.taskQ|
  {
    var rest := s.taskQ[1..];
    match s.proc[c].parent
    case None => Effect(s.(taskQ := rest, proc := s.proc - {c}), [])
    case Some(q) =>
      var i := Index(s.waitQ, q);
      if 0 <= i && q in s.proc && Accepts(s.proc[q].word, s.proc[c].pid) then
        Effect(s.(taskQ := rest + [q], waitQ := Remove(s.waitQ, i), proc := s.proc - {c}),
               [Child(q, s.proc[c].pid, code)])
      else
        Effect(s.(taskQ := rest, zombieQ := s.zombieQ + [c], proc := s.proc[c := s.proc[c].(word := code)]), [])
  }

  // How a wait of c for `waitfor` is answered, or that it blocks.
  function Await(s: Sys, c: Rec, waitfor: Pid): Effect
    requires 0 < |s.taskQ|
  {
    var i := FindZombie(s, c, waitfor);
    if 0 <= i then
      var z := s.zombieQ[i];
      Effect(s.(zombieQ := Remove(s.zombieQ, i), proc := s.proc - {z}), [Child(c, s.proc[z].pid, s.proc[z].word)])
    else if !HasLiveChild(s, c) then
      Effect(s, [NoChild(c)])
    else
      Effect(s.(taskQ := s.taskQ[1..], waitQ := s.waitQ + [c]), [])
  }

  function DoWait(s: Sys, c: Rec, waitfor: Pid): Effect
    requires c in s.proc && 0 < |s.taskQ|
  {
    Await(s.(proc := s.proc[c := s.proc[c].(word := waitfor)]), c, waitfor)
  }

  // What PM assumes: the client is running, a new record is at a fresh
  // address, and the kernel gives out pids that no live process has.
  predicate Allowed(s: Sys, a: Action) {
    && (exists r | r in s.taskQ :: HasPid(s.proc, r, a.client))
    && (a.Spawn? ==>
          && a.rec !in s.proc
          && (forall r | r in s.taskQ :: !HasPid(s.proc, r, a.pid))
          && (forall r | r in s.waitQ :: !HasPid(s.proc, r, a.pid)))
  }

  function Step(s: Sys, a: Action): Effect
    requires Shape(s) && Allowed(s, a)
  {
    var i := FindByPid(s, a.client);
    ClientFound(s, a);
    var c := s.taskQ[i];
    var s0 := Front(s, i);
    match a
    case Other(_) => Effect(s0, [])
    case Spawn(_, r, pid) =>
      Effect(s0.(taskQ := s0.taskQ + [r], proc := s0.proc[r := Proc(pid, Some(c), 0)]), [])
    case Wait(_, waitfor) => DoWait(s0, c, waitfor)
    case Exit(_, code) =>
      assert c in s.taskQ;
      Depart(Disown(s0, c), c, code)
  }

  lemma ClientFound(s: Sys, a: Action)
    requires Shape(s) && Allowed(s, a)
    ensures 0 <= FindByPid(s, a.client)
  {
    var r :| r in s.taskQ && HasPid(s.proc, r, a.client);
    var j :| 0 <= j < |s.taskQ| && s.taskQ[j] == r;
  }
}
