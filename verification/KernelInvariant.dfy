// What every kernel step keeps: the queues partition the live tasks, the idle
// task can always be dispatched, and no rendezvous is missed.
module KernelInvariant {
  import opened Common
  import opened KernelSpec

  function ReadyCount(ready: seq<seq<Pid>>, p: Pid): nat {
    if ready == [] then 0 else Count(ready[0], p) + ReadyCount(ready[1..], p)
  }

  /** In how many places a task is queued. */
  function Places(k: Sys, p: Pid): nat {
    Count(k.current, p) + ReadyCount(k.ready, p) + Count(k.blocked, p)
  }

  // Every live task is in exactly one place, every dead one in none.
  ghost predicate Partition(k: Sys) {
    forall p {:trigger Places(k, p)} :: Places(k, p) == if p in k.task then 1 else 0
  }

  ghost predicate Statuses(k: Sys) {
    && (forall p | p in k.current :: p in k.task && k.task[p].status.Runnable?)
    && QueuesOk(k)
  }

  ghost predicate QueuesOk(k: Sys) {
    && (forall q, p | 0 <= q < |k.ready| && p in k.ready[q] ::
          p in k.task && k.task[p].status.Runnable? && k.task[p].prio == q)
    && (forall p | p in k.blocked :: p in k.task && !k.task[p].status.Runnable?)
  }

  ghost predicate IdleOk(k: Sys, idle: Pid)
    requires Shape(k)
  {
    && idle in k.task && k.task[idle].prio == PRIO_IDLE
    && (k.current == [idle] || idle in k.ready[PRIO_IDLE])
  }

  // No two blocked tasks are waiting for each other's message.
  ghost predicate NoMissed(k: Sys) {
    forall r, s | r in k.blocked && s in k.blocked :: !Meet(k.task, r, s)
  }

  ghost predicate Inv(k: Sys, idle: Pid) {
    Shape(k) && |k.current| <= 1 && Partition(k) && Statuses(k) && IdleOk(k, idle) && NoMissed(k)
  }

  // ----- counting -----

  lemma {:induction false} ReadyUpdate(ready: seq<seq<Pid>>, q: nat, s: seq<Pid>, p: Pid)
    requires q < |ready|
    ensures ReadyCount(ready[q := s], p) == ReadyCount(ready, p) - Count(ready[q], p) + Count(s, p)
  {
    if q > 0 {
      assert ready[q := s][1..] == ready[1..][q - 1 := s];
      ReadyUpdate(ready[1..], q - 1, s, p);
    } else {
      assert ready[0 := s][1..] == ready[1..];
    }
  }

  lemma {:induction false} ReadyZero(ready: seq<seq<Pid>>, q: nat, p: Pid)
    requires q < |ready|
    ensures Count(ready[q], p) <= ReadyCount(ready, p)
  {
    if q > 0 {
      ReadyZero(ready[1..], q - 1, p);
    }
  }

  lemma EnqueueCount(ready: seq<seq<Pid>>, q: nat, x: Pid, p: Pid)
    requires q < |ready|
    ensures ReadyCount(Enqueue(ready, q, x), p) == ReadyCount(ready, p) + if x == p then 1 else 0
    ensures ReadyCount(EnqueueFront(ready, q, x), p) == ReadyCount(ready, p) + if x == p then 1 else 0
  {
    ReadyUpdate(ready, q, ready[q] + [x], p);
    ReadyUpdate(ready, q, [x] + ready[q], p);
    CountEnds(ready[q], x, p);
  }

  lemma ReleasePlaces(k: Sys, i: nat, p: Pid)
    requires Shape(k) && i < |k.blocked|
    ensures Places(Release(k, i), p) == Places(k, p)
  {
    var w := k.blocked[i];
    assert w in k.blocked;
    EnqueueCount(k.ready, k.task[w].prio, w, p);
    CountRemove(k.blocked, i, p);
  }

  // The running task moves to the front of the blocked queue.
  lemma BlockPlaces(k: Sys, p: Pid)
    requires |k.current| == 1
    ensures Places(k.(current := [], blocked := [k.current[0]] + k.blocked), p) == Places(k, p)
  {
    CountEnds(k.blocked, k.current[0], p);
    assert k.current == [k.current[0]];
  }

  lemma SendPlaces(k: Sys, c: Pid, p: Pid)
    requires Shape(k) && k.current == [c] && c in k.task && (k.task[c].status.Sending? || k.task[c].status.Calling?)
    ensures var t := HandleSend(k, c).sys;
            Places(t, p) == Places(k, p) && t.task.Keys == k.task.Keys
  {
    var i := FirstReceiver(k, c);
    if i < 0 {
      BlockPlaces(k, p);
    } else {
      ReleasePlaces(k, i, p);
      BlockPlaces(Release(k, i).(task := Exchange(k.task, k.blocked[i], c)), p);
    }
  }

  lemma ReceivePlaces(k: Sys, c: Pid, p: Pid)
    requires Shape(k) && k.current == [c] && c in k.task && k.task[c].status.Receiving?
    ensures var t := HandleReceive(k, c).sys;
            Places(t, p) == Places(k, p) && t.task.Keys == k.task.Keys
  {
    var i := FirstSender(k, c);
    if i < 0 {
      BlockPlaces(k, p);
    } else {
      ReleasePlaces(k, i, p);
    }
  }

  lemma EventPlaces(k: Sys, c: Pid, code: bv16, p: Pid)
    requires Shape(k) && k.current == [c] && c in k.task
    ensures var t := HandleEvent(k, c, code);
            Places(t, p) == Places(k, p) && t.task.Keys == k.task.Keys
  {
    var i := FirstWaiter(k, code);
    if 0 <= i {
      EnqueueCount(k.ready, k.task[c].prio, c, p);
      CountRemove(k.blocked, i, p);
    }
  }

  // The same for the calls that pass messages.
  lemma MessagePlaces(k: Sys, idle: Pid, a: Action, p: Pid)
    requires Inv(k, idle) && Allowed(k, idle, a) && (a.Send? || a.SendRec? || a.Receive?)
    ensures var t := Handle(k, idle, a).sys;
            Places(t, p) == Places(k, p) && t.task.Keys == k.task.Keys
  {
    var c := k.current[0];
    assert k.current == [c];
    match a
    case Send(d, m) => SendPlaces(k.(task := SetStatus(k.task, c, Sending(d, m))), c, p);
    case SendRec(d, m, n) => SendPlaces(k.(task := SetStatus(k.task, c, Calling(d, m, n))), c, p);
    case Receive(src, n) => ReceivePlaces(k.(task := SetStatus(k.task, c, Receiving(src, n))), c, p);
  }

  lemma HandlePlaces(k: Sys, idle: Pid, a: Action, p: Pid)
    requires Inv(k, idle) && Allowed(k, idle, a)
    ensures var t := Handle(k, idle, a).sys;
            Places(t, p) == if p in t.task then 1 else 0
  {
    assert Places(k, p) == if p in k.task then 1 else 0;
    if a.Send? || a.SendRec? || a.Receive? {
      MessagePlaces(k, idle, a, p);
      return;
    }
    var c := k.current[0];
    assert k.current == [c];
    match a
    case Interrupt(code) => EventPlaces(k, c, code, p);
    case Yield => EnqueueCount(k.ready, k.task[c].prio, c, p);
    case CreateTask(x, prio) => CountEnds(k.blocked, x, p);
    case StartTask(x) => ReleasePlaces(k, Index(k.blocked, x), p);
    case DeleteTask(x) => CountRemove(k.blocked, Index(k.blocked, x), p);
    case WaitForEvent(mask) => CountEnds(k.blocked, c, p);
    case _ =>
  }

  // The queues are disjoint.
  lemma Apart(k: Sys, p: Pid)
    requires Partition(k)
    ensures p in k.current ==> p !in k.blocked && forall q | 0 <= q < |k.ready| :: p !in k.ready[q]
    ensures p in k.blocked ==> p !in k.current && forall q | 0 <= q < |k.ready| :: p !in k.ready[q]
    ensures p !in k.task ==> p !in k.current && p !in k.blocked && forall q | 0 <= q < |k.ready| :: p !in k.ready[q]
    ensures Count(k.blocked, p) <= 1
  {
    assert Places(k, p) <= 1;
    CountZero(k.current, p);
    CountZero(k.blocked, p);
    forall q | 0 <= q < |k.ready| && p in k.ready[q] ensures 0 < ReadyCount(k.ready, p) {
      ReadyZero(k.ready, q, p);
      CountZero(k.ready[q], p);
    }
  }

  lemma ApartAll(k: Sys)
    requires Partition(k)
    ensures forall p | p in k.current :: p !in k.blocked
    ensures forall p, q | p in k.current && 0 <= q < |k.ready| :: p !in k.ready[q]
    ensures forall p, q | p in k.blocked && 0 <= q < |k.ready| :: p !in k.ready[q]
    ensures forall p | p !in k.task :: p !in k.current && p !in k.blocked
    ensures forall p, q | p !in k.task && 0 <= q < |k.ready| :: p !in k.ready[q]
    ensures forall i, j | 0 <= i < |k.blocked| && 0 <= j < |k.blocked| && k.blocked[i] == k.blocked[j] :: i == j
  {
    forall p ensures
        && (p in k.current ==> p !in k.blocked && forall q | 0 <= q < |k.ready| :: p !in k.ready[q])
        && (p in k.blocked ==> forall q | 0 <= q < |k.ready| :: p !in k.ready[q])
        && (p !in k.task ==> p !in k.current && p !in k.blocked && forall q | 0 <= q < |k.ready| :: p !in k.ready[q])
    {
      Apart(k, p);
    }
    forall i, j | 0 <= i < |k.blocked| && 0 <= j < |k.blocked| && k.blocked[i] == k.blocked[j]
      ensures i == j
    {
      Apart(k, k.blocked[i]);
      if i < j { OnceOnly(k.blocked, i, j); } else if j < i { OnceOnly(k.blocked, j, i); }
    }
  }

  lemma OnceOnly(s: seq<Pid>, i: nat, j: nat)
    requires i < j < |s| && s[i] == s[j]
    ensures 2 <= Count(s, s[i])
  {
    assert s == s[..j] + s[j..];
    CountAppend(s[..j], s[j..], s[i]);
    assert s[..j][i] == s[i];
    CountZero(s[..j], s[i]);
  }

  // ----- what a handler may assume and must keep, apart from counting -----

  ghost predicate Rest(k: Sys) {
    Shape(k) && |k.current| <= 1 && Statuses(k) && NoMissed(k)
  }

  // A sender or receiver that found no partner may block.
  lemma BlockRest(k: Sys, c: Pid)
    requires Shape(k) && Partition(k) && k.current == [c] && !k.task[c].status.Runnable?
    requires QueuesOk(k) && NoMissed(k)
    requires forall p | p in k.blocked :: !Meet(k.task, p, c) && !Meet(k.task, c, p)
    ensures Rest(k.(current := [], blocked := [c] + k.blocked))
  {
    ApartAll(k);
  }

  lemma ExchangeFacts(task: map<Pid, Task>, r: Pid, s: Pid)
    requires Meet(task, r, s)
    ensures var t := Exchange(task, r, s);
            && r != s
            && t.Keys == task.Keys
            && (forall p | p in task && p != r && p != s :: t[p] == task[p])
            && t[r] == Task(task[r].prio, Runnable(Got(s, Handed(s, task[s].status, task[r].status))))
            && t[s] == Task(task[s].prio, AfterSending(task[s].status))
  {
  }

  // The i-th blocked task becomes ready.
  lemma ReleaseRest(k: Sys, i: nat, task: map<Pid, Task>)
    requires Shape(k) && Partition(k) && |k.current| <= 1 && i < |k.blocked|
    requires QueuesOk(k) && NoMissed(k)
    requires task.Keys == k.task.Keys
    requires forall p | p in task && p !in k.current && p != k.blocked[i] :: task[p] == k.task[p]
    requires forall p | p in task :: task[p].prio == k.task[p].prio
    requires task[k.blocked[i]].status.Runnable?
    ensures var t := Release(k, i).(task := task);
            && Shape(t) && QueuesOk(t) && NoMissed(t) && k.blocked[i] !in t.blocked
            && (forall p | p in t.blocked :: p in k.blocked)
  {
    var w := k.blocked[i];
    assert w in k.blocked;
    ApartAll(k);
    RemoveMembers(k.blocked, i);
    var t := Release(k, i).(task := task);
    forall q, p | 0 <= q < |t.ready| && p in t.ready[q]
      ensures p in t.task && t.task[p].status.Runnable? && t.task[p].prio == q
    {
      if p != w {
        assert p in k.ready[q];
      }
    }
    forall r, s | r in t.blocked && s in t.blocked ensures !Meet(t.task, r, s) {
      assert !Meet(k.task, r, s);
    }
  }

  // A task that listens only to a task which is not blocked may block.
  lemma ListenerRest(k: Sys, c: Pid, w: Pid)
    requires Shape(k) && k.current == [c] && c in k.task && QueuesOk(k) && NoMissed(k)
    requires c !in k.blocked && w !in k.blocked && w != c && w in k.task
    requires k.task[c].status.Receiving? && k.task[c].status.src == w
    ensures Rest(k.(current := [], blocked := [c] + k.blocked))
  {
    var t := k.(current := [], blocked := [c] + k.blocked);
    forall r, s | r in t.blocked && s in t.blocked ensures !Meet(t.task, r, s) {
      if r == c {
        if s != c { assert s != w; }
      } else if s != c {
        assert !Meet(k.task, r, s);
      }
    }
  }

  lemma SendRest(k: Sys, c: Pid)
    requires Shape(k) && Partition(k) && k.current == [c] && (k.task[c].status.Sending? || k.task[c].status.Calling?)
    requires QueuesOk(k) && NoMissed(k)
    ensures Rest(HandleSend(k, c).sys)
  {
    ApartAll(k);
    assert c in k.current;
    var i := FirstReceiver(k, c);
    if i < 0 {
      forall p | p in k.blocked ensures !Meet(k.task, p, c) {
        var j :| 0 <= j < |k.blocked| && k.blocked[j] == p;
      }
      BlockRest(k, c);
    } else {
      DeliverToBlocked(k, c, i);
    }
  }

  lemma DeliverToBlocked(k: Sys, c: Pid, i: nat)
    requires Shape(k) && Partition(k) && k.current == [c] && (k.task[c].status.Sending? || k.task[c].status.Calling?)
    requires QueuesOk(k) && NoMissed(k) && c !in k.blocked
    requires i == FirstReceiver(k, c)
    ensures Rest(HandleSend(k, c).sys)
  {
    var w := k.blocked[i];
    ExchangeFacts(k.task, w, c);
    var task := Exchange(k.task, w, c);
    ReleaseRest(k, i, task);
    if k.task[c].status.Calling? {
      ListenerRest(Release(k, i).(task := task), c, w);
    }
  }

  // A caller served in place keeps waiting, for the task that is running.
  lemma ServedRest(k: Sys, c: Pid, w: Pid, task: map<Pid, Task>)
    requires Shape(k) && k.current == [c] && c in k.task && QueuesOk(k) && NoMissed(k)
    requires w in k.blocked && c !in k.blocked && forall q | 0 <= q < |k.ready| :: c !in k.ready[q] && w !in k.ready[q]
    requires task.Keys == k.task.Keys
    requires forall p | p in task && p != c && p != w :: task[p] == k.task[p]
    requires forall p | p in task :: task[p].prio == k.task[p].prio
    requires task[c].status.Runnable? && task[w].status.Receiving? && task[w].status.src == c
    ensures Rest(k.(task := task))
  {
    var t := k.(task := task);
    forall r, s | r in t.blocked && s in t.blocked ensures !Meet(t.task, r, s) {
      if r != w && s != w {
        assert !Meet(k.task, r, s);
      }
    }
  }

  lemma ReceiveRest(k: Sys, c: Pid)
    requires Shape(k) && Partition(k) && k.current == [c] && k.task[c].status.Receiving?
    requires QueuesOk(k) && NoMissed(k)
    ensures Rest(HandleReceive(k, c).sys)
  {
    ApartAll(k);
    assert c in k.current;
    var i := FirstSender(k, c);
    if i < 0 {
      forall p | p in k.blocked ensures !Meet(k.task, c, p) {
        var j :| 0 <= j < |k.blocked| && k.blocked[j] == p;
      }
      BlockRest(k, c);
    } else {
      AcceptFromBlocked(k, c, i);
    }
  }

  lemma AcceptFromBlocked(k: Sys, c: Pid, i: nat)
    requires Shape(k) && Partition(k) && k.current == [c] && k.task[c].status.Receiving?
    requires QueuesOk(k) && NoMissed(k) && c !in k.blocked
    requires i == FirstSender(k, c)
    ensures Rest(HandleReceive(k, c).sys)
  {
    ApartAll(k);
    assert c in k.current;
    var w := k.blocked[i];
    assert w in k.blocked;
    ExchangeFacts(k.task, c, w);
    var task := Exchange(k.task, c, w);
    if k.task[w].status.Calling? {
      ServedRest(k, c, w, task);
    } else {
      ReleaseRest(k, i, task);
    }
  }

  lemma EventRest(k: Sys, c: Pid, code: bv16)
    requires Shape(k) && Partition(k) && k.current == [c] && Statuses(k) && NoMissed(k)
    ensures Rest(HandleEvent(k, c, code))
  {
    assert c in k.current;
    var i := FirstWaiter(k, code);
    if 0 <= i {
      var w := k.blocked[i];
      assert w in k.blocked;
      ApartAll(k);
      RemoveMembers(k.blocked, i);
      var t := HandleEvent(k, c, code);
      forall q, p | 0 <= q < |t.ready| && p in t.ready[q]
        ensures p in t.task && t.task[p].status.Runnable? && t.task[p].prio == q
      {
        if p != c {
          assert p in k.ready[q];
        }
      }
      forall r, s | r in t.blocked && s in t.blocked ensures !Meet(t.task, r, s) {
        assert !Meet(k.task, r, s);
      }
    }
  }

  lemma YieldRest(k: Sys, c: Pid)
    requires Shape(k) && Partition(k) && k.current == [c] && Statuses(k) && NoMissed(k)
    ensures Rest(k.(current := [], ready := Enqueue(k.ready, k.task[c].prio, c)))
  {
    assert c in k.current;
    var t := k.(current := [], ready := Enqueue(k.ready, k.task[c].prio, c));
    forall q, p | 0 <= q < |t.ready| && p in t.ready[q]
      ensures p in t.task && t.task[p].status.Runnable? && t.task[p].prio == q
    {
      if p != c {
        assert p in k.ready[q];
      }
    }
  }

  lemma WaitRest(k: Sys, c: Pid, mask: bv16)
    requires Shape(k) && Partition(k) && k.current == [c] && Statuses(k) && NoMissed(k)
    ensures Rest(k.(current := [], blocked := k.blocked + [c], task := SetStatus(k.task, c, WaitEvent(mask))))
  {
    assert c in k.current;
    ApartAll(k);
    var t := k.(current := [], blocked := k.blocked + [c], task := SetStatus(k.task, c, WaitEvent(mask)));
    forall r, s | r in t.blocked && s in t.blocked ensures !Meet(t.task, r, s) {
      if r != c && s != c {
        assert !Meet(k.task, r, s);
      }
    }
  }

  // A created, stopped or set-up task listens to nobody and calls nobody.
  lemma CreatedRest(k: Sys, p: Pid, blocked: seq<Pid>, prio: nat)
    requires Shape(k) && Partition(k) && |k.current| <= 1 && Statuses(k) && NoMissed(k)
    requires p != TASK_ANY && prio < PRIO_QUEUES && p in blocked && p !in k.current
    requires forall q | 0 <= q < |k.ready| :: p !in k.ready[q]
    requires forall x | x in blocked :: x in k.blocked || x == p
    ensures Rest(k.(blocked := blocked, task := k.task[p := Task(prio, Created)]))
  {
    var t := k.(blocked := blocked, task := k.task[p := Task(prio, Created)]);
    forall r, s | r in t.blocked && s in t.blocked ensures !Meet(t.task, r, s) {
      if r != p && s != p {
        assert !Meet(k.task, r, s);
      }
    }
  }

  // Deleting a task that is in no queue any more.
  lemma DeletedRest(k: Sys, p: Pid, current: seq<Pid>, blocked: seq<Pid>)
    requires Shape(k) && Statuses(k) && NoMissed(k) && |current| <= 1
    requires forall x | x in current :: x in k.current && x != p
    requires forall x | x in blocked :: x in k.blocked && x != p
    requires forall q | 0 <= q < |k.ready| :: p !in k.ready[q]
    ensures Rest(k.(current := current, blocked := blocked, task := k.task - {p}))
  {
    var t := k.(current := current, blocked := blocked, task := k.task - {p});
    forall r, s | r in t.blocked && s in t.blocked ensures !Meet(t.task, r, s) {
      assert !Meet(k.task, r, s);
    }
  }

  lemma HandleRest(k: Sys, idle: Pid, a: Action)
    requires Inv(k, idle) && Allowed(k, idle, a)
    ensures Rest(Handle(k, idle, a).sys)
  {
    var c := k.current[0];
    assert k.current == [c] && c in k.current;
    ApartAll(k);
    match a
    case Interrupt(code) => EventRest(k, c, code);
    case Yield => YieldRest(k, c);
    case CreateTask(p, prio) => CreatedRest(k, p, [p] + k.blocked, prio);
    case SetupTask(p) => CreatedRest(k, p, k.blocked, k.task[p].prio);
    case StopTask(p) => CreatedRest(k, p, k.blocked, k.task[p].prio);
    case StartTask(p) => ReleaseRest(k, Index(k.blocked, p), SetStatus(k.task, p, Runnable(Nothing)));
    case DeleteTask(p) =>
      RemoveMembers(k.blocked, Index(k.blocked, p));
      DeletedRest(k, p, k.current, Remove(k.blocked, Index(k.blocked, p)));
    case ExitTask => DeletedRest(k, c, [], k.blocked);
    case WaitForEvent(mask) => WaitRest(k, c, mask);
    case Send(d, m) => TrapRest(k, c, Sending(d, m)); SendRest(k.(task := SetStatus(k.task, c, Sending(d, m))), c);
    case SendRec(d, m, n) =>
      TrapRest(k, c, Calling(d, m, n));
      SendRest(k.(task := SetStatus(k.task, c, Calling(d, m, n))), c);
    case Receive(src, n) =>
      TrapRest(k, c, Receiving(src, n));
      ReceiveRest(k.(task := SetStatus(k.task, c, Receiving(src, n))), c);
    case Other =>
  }

  // Recording the running task's call disturbs no queue.
  lemma TrapRest(k: Sys, c: Pid, s: Status)
    requires Shape(k) && Partition(k) && k.current == [c] && Statuses(k) && NoMissed(k)
    ensures var t := k.(task := SetStatus(k.task, c, s));
            c in k.task && Shape(t) && Partition(t) && QueuesOk(t) && NoMissed(t)
  {
    assert c in k.current;
    ApartAll(k);
    var t := k.(task := SetStatus(k.task, c, s));
    forall p ensures Places(t, p) == if p in t.task then 1 else 0 {
      assert Places(k, p) == if p in k.task then 1 else 0;
    }
    forall r, s | r in t.blocked && s in t.blocked ensures !Meet(t.task, r, s) {
      assert !Meet(k.task, r, s);
    }
  }

  // ----- the idle task -----

  // A handler leaves the ready queues alone or adds one task at an end.
  ghost predicate Added(before: seq<seq<Pid>>, after: seq<seq<Pid>>) {
    || after == before
    || (exists p, y | 0 <= p < |before| ::
          after == Enqueue(before, p, y) || after == EnqueueFront(before, p, y))
  }

  lemma SendAdds(k: Sys, c: Pid)
    requires Shape(k) && c in k.task && (k.task[c].status.Sending? || k.task[c].status.Calling?)
    ensures Added(k.ready, HandleSend(k, c).sys.ready)
  {
    var i := FirstReceiver(k, c);
    if 0 <= i {
      var w := k.blocked[i];
      assert HandleSend(k, c).sys.ready == Enqueue(k.ready, k.task[w].prio, w);
    }
  }

  lemma ReceiveAdds(k: Sys, c: Pid)
    requires Shape(k) && c in k.task && k.task[c].status.Receiving?
    ensures Added(k.ready, HandleReceive(k, c).sys.ready)
  {
    var i := FirstSender(k, c);
    if 0 <= i && !k.task[k.blocked[i]].status.Calling? {
      var w := k.blocked[i];
      assert HandleReceive(k, c).sys.ready == Enqueue(k.ready, k.task[w].prio, w);
    }
  }

  lemma HandleAdds(k: Sys, idle: Pid, x: Action)
    requires Inv(k, idle) && Allowed(k, idle, x)
    ensures Added(k.ready, Handle(k, idle, x).sys.ready)
  {
    var c := k.current[0];
    match x
    case Interrupt(code) =>
    case Yield =>
    case StartTask(p) =>
      assert Handle(k, idle, x).sys.ready == Enqueue(k.ready, k.task[p].prio, p);
    case Send(d, m) => SendAdds(k.(task := SetStatus(k.task, c, Sending(d, m))), c);
    case SendRec(d, m, n) => SendAdds(k.(task := SetStatus(k.task, c, Calling(d, m, n))), c);
    case Receive(src, n) => ReceiveAdds(k.(task := SetStatus(k.task, c, Receiving(src, n))), c);
    case _ =>
  }

  // A running idle task is interrupted, yields, or asks for nothing.
  lemma IdleRuns(k: Sys, idle: Pid, a: Action)
    requires Inv(k, idle) && Allowed(k, idle, a) && k.current == [idle]
    ensures var t := Handle(k, idle, a).sys;
            && idle in t.task && t.task[idle].prio == PRIO_IDLE && |t.ready| == PRIO_QUEUES
            && (t.current == [idle] || idle in t.ready[PRIO_IDLE])
  {
    if a.Interrupt? {
      var i := FirstWaiter(k, a.code);
      if 0 <= i {
        var t := HandleEvent(k, idle, a.code);
        assert idle == t.ready[PRIO_IDLE][0] || idle == t.ready[PRIO_IDLE][|t.ready[PRIO_IDLE]| - 1];
      }
    } else if a.Yield? {
      assert Enqueue(k.ready, PRIO_IDLE, idle)[PRIO_IDLE][|k.ready[PRIO_IDLE]|] == idle;
    }
  }

  // Only the running task and blocked tasks can go away.
  lemma ReadyTaskStays(k: Sys, idle: Pid, a: Action)
    requires Inv(k, idle) && Allowed(k, idle, a) && k.current != [idle]
    ensures var t := Handle(k, idle, a).sys;
            idle in t.task && t.task[idle].prio == PRIO_IDLE
  {
    var c := k.current[0];
    assert k.current == [c] && c in k.current;
    Apart(k, idle);
  }

  lemma AddedKeeps(before: seq<seq<Pid>>, after: seq<seq<Pid>>, q: nat, p: Pid)
    requires Added(before, after) && q < |before| && p in before[q]
    ensures q < |after| && p in after[q]
  {
  }

  lemma HandleIdle(k: Sys, idle: Pid, a: Action)
    requires Inv(k, idle) && Allowed(k, idle, a) && Shape(Handle(k, idle, a).sys)
    ensures IdleOk(Handle(k, idle, a).sys, idle)
  {
    if k.current == [idle] {
      IdleRuns(k, idle, a);
    } else {
      ReadyTaskStays(k, idle, a);
      HandleAdds(k, idle, a);
      AddedKeeps(k.ready, Handle(k, idle, a).sys.ready, PRIO_IDLE, idle);
    }
  }

  // ----- scheduling -----

  /** The scheduler finds a task to run whenever the idle task is in place. */
  lemma ScheduleInv(k: Sys, idle: Pid)
    requires Rest(k) && Partition(k) && IdleOk(k, idle)
    ensures Inv(Schedule(k), idle) && |Schedule(k).current| == 1
  {
    if k.current == [] {
      var q := TopQueue(k.ready);
      assert k.ready[PRIO_IDLE] != [];
      var p := k.ready[q][0];
      var t := Schedule(k);
      assert k.ready[q] == [p] + k.ready[q][1..];
      forall x ensures Places(t, x) == if x in t.task then 1 else 0 {
        assert Places(k, x) == if x in k.task then 1 else 0;
        ReadyUpdate(k.ready, q, k.ready[q][1..], x);
      }
      forall j, x | 0 <= j < |t.ready| && x in t.ready[j] ensures x in k.ready[j] {
      }
      assert p in k.ready[q];
      assert t.current == [p];
      if idle != p && q == PRIO_IDLE {
        assert idle in k.ready[q][1..];
      }
      assert Statuses(t);
    }
  }

  /** Every step keeps the invariant and leaves exactly one task running. */
  lemma StepInv(k: Sys, idle: Pid, a: Action)
    requires Inv(k, idle) && Allowed(k, idle, a)
    ensures Inv(Step(k, idle, a).sys, idle) && |Step(k, idle, a).sys.current| == 1
  {
    HandleRest(k, idle, a);
    HandleIdle(k, idle, a);
    var t := Handle(k, idle, a).sys;
    forall p ensures Places(t, p) == if p in t.task then 1 else 0 {
      HandlePlaces(k, idle, a, p);
    }
    ScheduleInv(t, idle);
  }
}
