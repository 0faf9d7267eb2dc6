// The kernel (kernel/kernel.c) as a transition system: one step per entry to
// the kernel, by an interrupt or by a kernel call of the running task.
module KernelSpec {
  import opened Common

  const PRIO_QUEUES: nat := 5
  const PRIO_IDLE: nat := 4
  const EVENT_NONE: bv16 := 0
  const PREEMPT_ON_EVENT: bv16 := 0x8000

  type Message = seq<int>

  // What a kernel call hands to a task that can run.
  datatype Return = Nothing | Event(code: bv16) | Got(from: Pid, msg: Message)

  // What a task is doing, in place of its saved registers.  A task that has
  // been created, stopped or set up and not started is Created: its saved
  // context is not a kernel call.
  datatype Status =
    | Created
    | WaitEvent(mask: bv16)
    | Sending(dest: Pid, msg: Message)
    | Calling(dest: Pid, msg: Message, len: nat)   // sendrec
    | Receiving(src: Pid, len: nat)
    | Runnable(ret: Return)

  datatype Task = Task(prio: nat, status: Status)

  // current holds at most one task; ready has one queue per priority.
  datatype Sys = Sys(current: seq<Pid>, ready: seq<seq<Pid>>, blocked: seq<Pid>, task: map<Pid, Task>)

  datatype Action =
    | Interrupt(code: bv16)
    | Yield
    | CreateTask(pid: Pid, prio: nat)
    | SetupTask(pid: Pid)
    | StartTask(pid: Pid)
    | StopTask(pid: Pid)
    | DeleteTask(pid: Pid)
    | ExitTask
    | WaitForEvent(mask: bv16)
    | Send(dest: Pid, msg: Message)
    | SendRec(dest: Pid, msg: Message, len: nat)
    | Receive(src: Pid, len: nat)
    | Other   // getpid, memory and interrupt-enable calls: no queue is touched

  datatype Delivery = Delivery(from: Pid, to: Pid, msg: Message)

  // The state after a step and the message it delivered, if any.
  datatype Effect = Effect(sys: Sys, delivered: seq<Delivery>)

  ghost predicate Shape(k: Sys) {
    && |k.ready| == PRIO_QUEUES
    && TASK_ANY !in k.task   // no record lives at the wildcard's address
    && (forall p | p in k.current :: p in k.task)
    && (forall p | p in k.blocked :: p in k.task)
    && (forall p | p in k.task :: k.task[p].prio < PRIO_QUEUES)
  }

  // ----- messages -----

  // The receiver's buffer length decides how much is copied.
  function Prefix(m: Message, len: nat): (r: Message)
    ensures r <= m && |r| == if len < |m| then len else |m|
  {
    if len <= |m| then m[..len] else m
  }

  predicate Sends(t: Status, to: Pid) {
    (t.Sending? || t.Calling?) && t.dest == to
  }

  predicate Hears(t: Status, from: Pid) {
    t.Receiving? && (t.src == from || t.src == TASK_ANY)
  }

  // The rendezvous of a sender and a receiver.
  predicate Meet(task: map<Pid, Task>, rcvr: Pid, sndr: Pid) {
    && rcvr in task && sndr in task
    && Sends(task[sndr].status, rcvr)
    && Hears(task[rcvr].status, sndr)
  }

  function Handed(sndr: Pid, s: Status, r: Status): Message
    requires (s.Sending? || s.Calling?) && r.Receiving?
  {
    Prefix(s.msg, r.len)
  }

  function SetStatus(task: map<Pid, Task>, p: Pid, s: Status): map<Pid, Task>
    requires p in task
  {
    task[p := task[p].(status := s)]
  }

  // What the sender does next: a sendrec waits for its destination's answer.
  function AfterSending(s: Status): Status
    requires s.Sending? || s.Calling?
  {
    if s.Calling? then Receiving(s.dest, s.len) else Runnable(Nothing)
  }

  // The message goes over; both partners leave the rendezvous.
  function Exchange(task: map<Pid, Task>, rcvr: Pid, sndr: Pid): map<Pid, Task>
    requires Meet(task, rcvr, sndr)
  {
    var s, r := task[sndr].status, task[rcvr].status;
    SetStatus(SetStatus(task, rcvr, Runnable(Got(sndr, Handed(sndr, s, r)))), sndr, AfterSending(s))
  }

  function Note(task: map<Pid, Task>, rcvr: Pid, sndr: Pid): Delivery
    requires Meet(task, rcvr, sndr)
  {
    Delivery(sndr, rcvr, Handed(sndr, task[sndr].status, task[rcvr].status))
  }

  // ----- queues -----

  function Enqueue(ready: seq<seq<Pid>>, prio: nat, p: Pid): seq<seq<Pid>>
    requires prio < |ready|
  {
    ready[prio := ready[prio] + [p]]
  }

  function EnqueueFront(ready: seq<seq<Pid>>, prio: nat, p: Pid): seq<seq<Pid>>
    requires prio < |ready|
  {
    ready[prio := [p] + ready[prio]]
  }

  function FirstReceiver(k: Sys, sndr: Pid): (i: int)
    requires Shape(k) && sndr in k.task
    ensures -1 <= i < |k.blocked|
    ensures 0 <= i ==> Meet(k.task, k.blocked[i], sndr) && forall j | 0 <= j < i :: !Meet(k.task, k.blocked[j], sndr)
    ensures i < 0 ==> forall j | 0 <= j < |k.blocked| :: !Meet(k.task, k.blocked[j], sndr)
  {
    FirstWhere(k.blocked, (w: Pid) => Meet(k.task, w, sndr))
  }

  function FirstSender(k: Sys, rcvr: Pid): (i: int)
    requires Shape(k) && rcvr in k.task
    ensures -1 <= i < |k.blocked|
    ensures 0 <= i ==> Meet(k.task, rcvr, k.blocked[i]) && forall j | 0 <= j < i :: !Meet(k.task, rcvr, k.blocked[j])
    ensures i < 0 ==> forall j | 0 <= j < |k.blocked| :: !Meet(k.task, rcvr, k.blocked[j])
  {
    FirstWhere(k.blocked, (w: Pid) => Meet(k.task, rcvr, w))
  }

  predicate AwaitsEvent(task: map<Pid, Task>, p: Pid, code: bv16) {
    p in task && task[p].status.WaitEvent? && (task[p].status.mask & code) != 0
  }

  function FirstWaiter(k: Sys, code: bv16): (i: int)
    requires Shape(k)
    ensures -1 <= i < |k.blocked|
    ensures 0 <= i ==>
      AwaitsEvent(k.task, k.blocked[i], code) &&
      forall j | 0 <= j < i :: !AwaitsEvent(k.task, k.blocked[j], code)
    ensures i < 0 ==> forall j | 0 <= j < |k.blocked| :: !AwaitsEvent(k.task, k.blocked[j], code)
  {
    FirstWhere(k.blocked, (w: Pid) => AwaitsEvent(k.task, w, code))
  }

  // ----- kernel entries; `c` is the running task -----

  function Leave(k: Sys): Sys {
    k.(current := [])
  }

  function HandleEvent(k: Sys, c: Pid, code: bv16): Sys
    requires Shape(k) && c in k.task
  {
    var i := FirstWaiter(k, code);
    if i < 0 then k
    else
      var w := k.blocked[i];
      var prio := k.task[c].prio;
      k.(ready := if (k.task[w].status.mask & PREEMPT_ON_EVENT) != 0
                  then Enqueue(k.ready, prio, c) else EnqueueFront(k.ready, prio, c),
         current := [w],
         blocked := Remove(k.blocked, i),
         task := SetStatus(k.task, w, Runnable(Event(code))))
  }

  // Moving the i-th blocked task to the end of its ready queue.
  function Release(k: Sys, i: nat): Sys
    requires Shape(k) && i < |k.blocked|
  {
    var w := k.blocked[i];
    k.(ready := Enqueue(k.ready, k.task[w].prio, w), blocked := Remove(k.blocked, i))
  }

  function HandleSend(k: Sys, c: Pid): Effect
    requires Shape(k) && c in k.task && (k.task[c].status.Sending? || k.task[c].status.Calling?)
  {
    var i := FirstReceiver(k, c);
    if i < 0 then
      Effect(k.(current := [], blocked := [c] + k.blocked), [])
    else
      var w := k.blocked[i];
      var k1 := Release(k, i).(task := Exchange(k.task, w, c));
      Effect(if k.task[c].status.Calling? then k1.(current := [], blocked := [c] + k1.blocked) else k1,
             [Note(k.task, w, c)])
  }

  function HandleReceive(k: Sys, c: Pid): Effect
    requires Shape(k) && c in k.task && k.task[c].status.Receiving?
  {
    var i := FirstSender(k, c);
    if i < 0 then
      Effect(k.(current := [], blocked := [c] + k.blocked), [])
    else
      var w := k.blocked[i];
      var task := Exchange(k.task, c, w);
      Effect(if k.task[w].status.Calling? then k.(task := task) else Release(k, i).(task := task),
             [Note(k.task, c, w)])
  }

  // What the kernel relies on: one task runs, the idle task only sleeps or
  // yields, new records are fresh, and only blocked tasks are handled by pid.
  predicate Allowed(k: Sys, idle: Pid, a: Action) {
    && |k.current| == 1
    && k.current[0] in k.task
    && (k.current[0] == idle ==> a.Interrupt? || a.Yield? || a.Other?)
    && (match a
        case Interrupt(code) => code != EVENT_NONE
        case CreateTask(p, prio) => p !in k.task && p != TASK_ANY && prio < PRIO_QUEUES
        case SetupTask(p) => p in k.blocked
        case StartTask(p) => p in k.blocked
        case StopTask(p) => p in k.blocked
        case DeleteTask(p) => p in k.blocked
        case _ => true)
  }

  // The handler part of the kernel loop.
  function Handle(k: Sys, idle: Pid, a: Action): Effect
    requires Shape(k) && Allowed(k, idle, a)
  {
    var c := k.current[0];
    match a
    case Interrupt(code) => Effect(HandleEvent(k, c, code), [])
    case Yield => Effect(Leave(k).(ready := Enqueue(k.ready, k.task[c].prio, c)), [])
    case CreateTask(p, prio) =>
      Effect(k.(blocked := [p] + k.blocked, task := k.task[p := Task(prio, Created)]), [])
    case SetupTask(p) => Effect(k.(task := SetStatus(k.task, p, Created)), [])
    case StopTask(p) => Effect(k.(task := SetStatus(k.task, p, Created)), [])
    case StartTask(p) =>
      Effect(Release(k, Index(k.blocked, p)).(task := SetStatus(k.task, p, Runnable(Nothing))), [])
    case DeleteTask(p) =>
      Effect(k.(blocked := Remove(k.blocked, Index(k.blocked, p)), task := k.task - {p}), [])
    case ExitTask => Effect(Leave(k).(task := k.task - {c}), [])
    case WaitForEvent(mask) =>
      Effect(k.(current := [], blocked := k.blocked + [c], task := SetStatus(k.task, c, WaitEvent(mask))), [])
    case Send(d, m) => HandleSend(k.(task := SetStatus(k.task, c, Sending(d, m))), c)
    case SendRec(d, m, n) => HandleSend(k.(task := SetStatus(k.task, c, Calling(d, m, n))), c)
    case Receive(src, n) => HandleReceive(k.(task := SetStatus(k.task, c, Receiving(src, n))), c)
    case Other => Effect(k, [])
  }

  // The first non-empty ready queue.
  function TopQueue(ready: seq<seq<Pid>>): (q: int)
    ensures -1 <= q < |ready|
    ensures 0 <= q ==> ready[q] != [] && forall j | 0 <= j < q :: ready[j] == []
    ensures q < 0 ==> forall j | 0 <= j < |ready| :: ready[j] == []
  {
    FirstWhere(ready, (r: seq<Pid>) => r != [])
  }

  function Schedule(k: Sys): Sys {
    if k.current != [] then k
    else
      var q := TopQueue(k.ready);
      if q < 0 then k
      else k.(current := [k.ready[q][0]], ready := k.ready[q := k.ready[q][1..]])
  }

  function Step(k: Sys, idle: Pid, a: Action): Effect
    requires Shape(k) && Allowed(k, idle, a)
  {
    var e := Handle(k, idle, a);
    Effect(Schedule(e.sys), e.delivered)
  }
}
