// The life of a task record: its priority, what a stopped task can hear, and
// that nobody meddles with a task that is ready or waits.
module KernelLife {
  import opened Common
  import opened KernelSpec
  import opened KernelInvariant
  import opened KernelRun

  // Task p has been created, stopped or set up, and not started.
  ghost predicate Dormant(k: Sys, p: Pid, prio: nat) {
    p in k.blocked && p in k.task && k.task[p] == Task(prio, Created)
  }

  /** A new task is dormant, with the priority that was asked for; so is a task
      that has been stopped or set up, with the priority it had. */
  lemma BecomesDormant(k: Sys, idle: Pid, x: Action)
    requires Inv(k, idle) && Allowed(k, idle, x) && (x.CreateTask? || x.StopTask? || x.SetupTask?)
    ensures Dormant(Step(k, idle, x).sys, x.pid, if x.CreateTask? then x.prio else k.task[x.pid].prio)
    ensures x.CreateTask? ==> forall a | a in k.blocked :: Before(Step(k, idle, x).sys.blocked, x.pid, a)
  {
    if x.CreateTask? {
      assert ([x.pid] + k.blocked)[0] == x.pid;
      forall a | a in k.blocked ensures Before([x.pid] + k.blocked, x.pid, a) {
        var i :| 0 <= i < |k.blocked| && k.blocked[i] == a;
        assert ([x.pid] + k.blocked)[i + 1] == a;
      }
    }
  }

  /** A dormant task hears and runs nothing until it is started. */
  lemma DormantStays(k: Sys, idle: Pid, x: Action, p: Pid, prio: nat)
    requires Inv(k, idle) && Allowed(k, idle, x) && Dormant(k, p, prio)
    requires x != StartTask(p) && x != DeleteTask(p)
    ensures Dormant(Step(k, idle, x).sys, p, prio)
  {
    var c := k.current[0];
    assert c in k.current;
    Apart(k, p);
    match x
    case Interrupt(code) =>
      var i := FirstWaiter(k, code);
      if 0 <= i { RemoveMembers(k.blocked, i); }
    case StartTask(y) => RemoveMembers(k.blocked, Index(k.blocked, y));
    case DeleteTask(y) => RemoveMembers(k.blocked, Index(k.blocked, y));
    case Send(d, m) => DormantHearsNothing(k, c, Sending(d, m), p);
    case SendRec(d, m, n) => DormantHearsNothing(k, c, Calling(d, m, n), p);
    case Receive(src, n) => DormantHearsNothing(k, c, Receiving(src, n), p);
    case _ =>
  }

  lemma DormantHearsNothing(k: Sys, c: Pid, s: Status, p: Pid)
    requires Shape(k) && k.current == [c] && c in k.task && p in k.blocked && p != c
    requires k.task[p].status == Created && (s.Sending? || s.Calling? || s.Receiving?)
    ensures var k1 := k.(task := SetStatus(k.task, c, s));
            var t := if s.Receiving? then HandleReceive(k1, c).sys else HandleSend(k1, c).sys;
            p in t.blocked && p in t.task && t.task[p] == k.task[p]
  {
    var k1 := k.(task := SetStatus(k.task, c, s));
    var i := if s.Receiving? then FirstSender(k1, c) else FirstReceiver(k1, c);
    if 0 <= i {
      assert k.blocked[i] != p;
      RemoveMembers(k.blocked, i);
    }
  }

  /** Starting a task makes it ready, with nothing to return, in the queue of its
      priority; the one that starts it goes on. */
  lemma StartsReady(k: Sys, idle: Pid, p: Pid)
    requires Inv(k, idle) && Allowed(k, idle, StartTask(p))
    ensures var t := Step(k, idle, StartTask(p)).sys;
            && t.current == k.current && p !in t.blocked
            && p in t.task && t.task[p] == Task(k.task[p].prio, Runnable(Nothing))
            && |t.ready| == PRIO_QUEUES && p in t.ready[k.task[p].prio]
  {
    var i := Index(k.blocked, p);
    ApartAll(k);
    RemoveMembers(k.blocked, i);
    var q := k.task[p].prio;
    assert Enqueue(k.ready, q, p)[q][|k.ready[q]|] == p;
  }

  /** A call that concerns no queue changes nothing. */
  lemma OtherCall(k: Sys, idle: Pid)
    requires Inv(k, idle) && Allowed(k, idle, Other)
    ensures Step(k, idle, Other) == Effect(k, [])
  {
  }

  /** Managing other tasks does not disturb the one that does it. */
  lemma ManagerGoesOn(k: Sys, idle: Pid, x: Action)
    requires Inv(k, idle) && Allowed(k, idle, x)
    requires x.CreateTask? || x.SetupTask? || x.StartTask? || x.StopTask? || x.DeleteTask?
    ensures var t := Step(k, idle, x).sys;
            var c := k.current[0];
            t.current == k.current && c in t.task && t.task[c] == k.task[c]
  {
    assert k.current[0] in k.current;
    Apart(k, k.current[0]);
  }

  /** A task goes on from a send or a receive exactly when that finds a partner; it
      does not go on from a sendrec, from waiting for an event or from an exit. */
  lemma GoesOnExactly(k: Sys, idle: Pid, x: Action)
    requires Inv(k, idle) && Allowed(k, idle, x)
    ensures var e := Step(k, idle, x);
            && (x.Send? || x.Receive? ==> (e.sys.current == k.current <==> e.delivered != []))
            && (x.SendRec? || x.WaitForEvent? || x.ExitTask? ==> e.sys.current != k.current)
  {
    var c := k.current[0];
    assert k.current == [c] && c in k.current;
    Apart(k, c);
    match x
    case Send(d, m) => MessageKeepsReady(k, c, Sending(d, m));
    case SendRec(d, m, n) => MessageKeepsReady(k, c, Calling(d, m, n));
    case Receive(src, n) => MessageKeepsReady(k, c, Receiving(src, n));
    case _ =>
  }

  // The running task does not become ready by a message of its own.
  lemma MessageKeepsReady(k: Sys, c: Pid, s: Status)
    requires Shape(k) && k.current == [c] && c in k.task && (s.Sending? || s.Calling? || s.Receiving?)
    requires c !in k.blocked && forall q | 0 <= q < |k.ready| :: c !in k.ready[q]
    ensures var k1 := k.(task := SetStatus(k.task, c, s));
            var e := if s.Receiving? then HandleReceive(k1, c) else HandleSend(k1, c);
            && (e.sys.current == [c] || e.sys.current == [])
            && (e.sys.current == [c] <==> e.delivered != [] && !s.Calling?)
            && forall q | 0 <= q < |e.sys.ready| :: c !in e.sys.ready[q]
  {
    var k1 := k.(task := SetStatus(k.task, c, s));
    var i := if s.Receiving? then FirstSender(k1, c) else FirstReceiver(k1, c);
    if 0 <= i {
      assert k.blocked[i] in k.blocked;
    }
  }

  /** A task that exits or is deleted is gone. */
  lemma GoesAway(k: Sys, idle: Pid, x: Action)
    requires Inv(k, idle) && Allowed(k, idle, x) && (x.ExitTask? || x.DeleteTask?)
    ensures var p := if x.ExitTask? then k.current[0] else x.pid;
            Step(k, idle, x).sys.task.Keys == k.task.Keys - {p}
  {
  }

  // A message changes nobody's priority.
  lemma MessageKeepsPriorities(k: Sys, c: Pid, s: Status)
    requires Shape(k) && c in k.task && (s.Sending? || s.Calling? || s.Receiving?)
    ensures var k1 := k.(task := SetStatus(k.task, c, s));
            var t := if s.Receiving? then HandleReceive(k1, c).sys else HandleSend(k1, c).sys;
            t.task.Keys == k.task.Keys && forall p | p in k.task :: t.task[p].prio == k.task[p].prio
  {
  }

  /** No step changes a priority. */
  lemma StepKeepsPriority(k: Sys, idle: Pid, x: Action, p: Pid)
    requires Inv(k, idle) && Allowed(k, idle, x) && p in Step(k, idle, x).sys.task
    ensures if x.CreateTask? && x.pid == p then Step(k, idle, x).sys.task[p].prio == x.prio
            else p in k.task && Step(k, idle, x).sys.task[p].prio == k.task[p].prio
  {
    var c := k.current[0];
    match x
    case Send(d, m) => MessageKeepsPriorities(k, c, Sending(d, m));
    case SendRec(d, m, n) => MessageKeepsPriorities(k, c, Calling(d, m, n));
    case Receive(src, n) => MessageKeepsPriorities(k, c, Receiving(src, n));
    case _ =>
  }

  /** A task has the priority that it was created with as long as it lives. */
  lemma {:induction false} PriorityForLife(k: Sys, idle: Pid, acts: seq<Action>, p: Pid)
    requires Inv(k, idle) && AllowedRun(k, idle, acts) && p in Run(k, idle, acts).sys.task
    requires forall i | 0 <= i < |acts| :: !(acts[i].CreateTask? && acts[i].pid == p)
    ensures p in k.task && Run(k, idle, acts).sys.task[p].prio == k.task[p].prio
    decreases |acts|
  {
    if acts != [] {
      StepInv(k, idle, acts[0]);
      PriorityForLife(Step(k, idle, acts[0]).sys, idle, acts[1..], p);
      StepKeepsPriority(k, idle, acts[0], p);
    }
  }

  /** What a ready task will resume with is not touched. */
  lemma ReadyUntouched(k: Sys, idle: Pid, x: Action, q: nat, p: Pid)
    requires Inv(k, idle) && Allowed(k, idle, x) && q < PRIO_QUEUES && p in k.ready[q]
    ensures var t := Step(k, idle, x).sys;
            p in t.task && t.task[p] == k.task[p]
  {
    var c := k.current[0];
    assert c in k.current;
    Apart(k, p);
    Apart(k, c);
    match x
    case Send(d, m) => OthersKept(k, c, Sending(d, m), p);
    case SendRec(d, m, n) => OthersKept(k, c, Calling(d, m, n), p);
    case Receive(src, n) => OthersKept(k, c, Receiving(src, n), p);
    case _ =>
  }

  // A message concerns the running task and one blocked task.
  lemma OthersKept(k: Sys, c: Pid, s: Status, p: Pid)
    requires Shape(k) && c in k.task && p in k.task && p != c && p !in k.blocked
    requires s.Sending? || s.Calling? || s.Receiving?
    ensures var k1 := k.(task := SetStatus(k.task, c, s));
            var t := if s.Receiving? then HandleReceive(k1, c).sys else HandleSend(k1, c).sys;
            p in t.task && t.task[p] == k.task[p]
  {
  }

  /** And it stays ready until it runs. */
  lemma ReadyStays(k: Sys, idle: Pid, x: Action, q: nat, p: Pid)
    requires Inv(k, idle) && Allowed(k, idle, x) && q < PRIO_QUEUES && p in k.ready[q]
    ensures var t := Step(k, idle, x).sys;
            |t.ready| == PRIO_QUEUES && (t.current == [p] || p in t.ready[q])
  {
    HandleAdds(k, idle, x);
    var h := Handle(k, idle, x).sys;
    AddedKeeps(k.ready, h.ready, q, p);
    if h.current == [] && TopQueue(h.ready) == q {
      assert h.ready[q] == [h.ready[q][0]] + h.ready[q][1..];
    }
  }

  /** A task that waits for an event goes on waiting until an event comes that
      meets its mask, or somebody handles it by its pid. */
  lemma WaiterUntouched(k: Sys, idle: Pid, x: Action, p: Pid)
    requires Inv(k, idle) && Allowed(k, idle, x) && p in k.blocked && k.task[p].status.WaitEvent?
    requires !(x.Interrupt? && k.task[p].status.mask & x.code != 0)
    requires !(x.StartTask? || x.StopTask? || x.SetupTask? || x.DeleteTask?) || x.pid != p
    ensures var t := Step(k, idle, x).sys;
            p in t.blocked && p in t.task && t.task[p] == k.task[p]
  {
    var c := k.current[0];
    assert c in k.current;
    Apart(k, p);
    match x
    case Interrupt(code) =>
      var i := FirstWaiter(k, code);
      if 0 <= i { RemoveMembers(k.blocked, i); }
    case StartTask(y) => RemoveMembers(k.blocked, Index(k.blocked, y));
    case DeleteTask(y) => RemoveMembers(k.blocked, Index(k.blocked, y));
    case Send(d, m) => WaiterHearsNothing(k, c, Sending(d, m), p);
    case SendRec(d, m, n) => WaiterHearsNothing(k, c, Calling(d, m, n), p);
    case Receive(src, n) => WaiterHearsNothing(k, c, Receiving(src, n), p);
    case _ =>
  }

  lemma WaiterHearsNothing(k: Sys, c: Pid, s: Status, p: Pid)
    requires Shape(k) && k.current == [c] && c in k.task && p in k.blocked && p != c
    requires k.task[p].status.WaitEvent? && (s.Sending? || s.Calling? || s.Receiving?)
    ensures var k1 := k.(task := SetStatus(k.task, c, s));
            var t := if s.Receiving? then HandleReceive(k1, c).sys else HandleSend(k1, c).sys;
            p in t.blocked && p in t.task && t.task[p] == k.task[p]
  {
    var k1 := k.(task := SetStatus(k.task, c, s));
    var i := if s.Receiving? then FirstSender(k1, c) else FirstReceiver(k1, c);
    if 0 <= i {
      assert k.blocked[i] != p;
      RemoveMembers(k.blocked, i);
    }
  }
}
