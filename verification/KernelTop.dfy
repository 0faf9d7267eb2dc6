// When the running task is one of the highest priority that is ready, and what
// ends that: the scheduler only looks when nobody runs.
module KernelTop {
  import opened Common
  import opened KernelSpec
  import opened KernelInvariant
  import opened KernelRun

  // One task runs, and every ready queue above its priority is empty.
  ghost predicate Top(k: Sys) {
    && Shape(k) && |k.current| == 1 && k.current[0] in k.task
    && NoneAbove(k.ready, k.task[k.current[0]].prio)
  }

  predicate NoneAbove(ready: seq<seq<Pid>>, prio: nat) {
    forall q | 0 <= q < |ready| && q < prio :: ready[q] == []
  }

  // The running task c and a task that becomes ready beside it: a smaller
  // number is a higher priority.
  predicate Outranks(k: Sys, w: Pid, c: Pid) {
    w in k.task && c in k.task && k.task[w].prio < k.task[c].prio
  }

  // What the call or event must not do: make a task ready that outranks the
  // one left running.
  predicate LeavesTop(k: Sys, idle: Pid, x: Action)
    requires Shape(k) && Allowed(k, idle, x)
  {
    var c := k.current[0];
    match x
    case Interrupt(code) =>
      var i := FirstWaiter(k, code);
      0 <= i ==> !Outranks(k, c, k.blocked[i])
    case StartTask(p) => !Outranks(k, p, c)
    case Send(d, _) => d in k.blocked && Hears(k.task[d].status, c) ==> !Outranks(k, d, c)
    case Receive(src, n) =>
      var i := FirstSender(k.(task := SetStatus(k.task, c, Receiving(src, n))), c);
      0 <= i && !k.task[k.blocked[i]].status.Calling? ==> !Outranks(k, k.blocked[i], c)
    case _ => true
  }

  // ----- one queue operation -----

  lemma {:induction false} EnqueueAbove(ready: seq<seq<Pid>>, q: nat, p: Pid, prio: nat)
    requires q < |ready| && NoneAbove(ready, prio)
    ensures NoneAbove(Enqueue(ready, q, p), prio) <==> prio <= q
    ensures NoneAbove(EnqueueFront(ready, q, p), prio) <==> prio <= q
  {
    assert Enqueue(ready, q, p)[q] != [] && EnqueueFront(ready, q, p)[q] != [];
  }

  lemma {:induction false} LowerIsFine(ready: seq<seq<Pid>>, prio: nat, less: nat)
    requires NoneAbove(ready, prio) && less <= prio
    ensures NoneAbove(ready, less)
  {
  }

  // The scheduler's choice is always at the top.
  lemma {:induction false} ScheduledIsTop(k: Sys, idle: Pid)
    requires Rest(k) && Partition(k) && IdleOk(k, idle) && k.current == []
    ensures Top(Schedule(k))
  {
    ScheduleInv(k, idle);
    var q := TopQueue(k.ready);
    var p := k.ready[q][0];
    assert p in k.ready[q];
  }

  /** So it is at start-up. */
  lemma {:induction false} BootTop(idle: Pid, first: Pid, prio: nat)
    requires prio < PRIO_QUEUES && idle != first && idle != TASK_ANY && first != TASK_ANY
    ensures Inv(Boot(idle, first, prio), idle) && Top(Boot(idle, first, prio))
  {
    BootInv(idle, first, prio);
    LoadedOk(idle, first, prio);
    ScheduledIsTop(Loaded(idle, first, prio), idle);
  }

  // ----- the steps that leave a task running -----

  lemma {:induction false} EventTop(k: Sys, idle: Pid, code: bv16)
    requires Inv(k, idle) && Allowed(k, idle, Interrupt(code)) && Top(k)
    ensures Top(HandleEvent(k, k.current[0], code)) <==> LeavesTop(k, idle, Interrupt(code))
  {
    var c := k.current[0];
    var i := FirstWaiter(k, code);
    if 0 <= i {
      var w := k.blocked[i];
      assert w in k.blocked && c in k.current;
      EventRest(k, c, code);
      var prio := k.task[c].prio;
      EnqueueAbove(k.ready, prio, c, prio);
      var t := HandleEvent(k, c, code);
      assert t.current[0] == w && t.task[w].prio == k.task[w].prio;
      if k.task[w].prio <= prio {
        LowerIsFine(t.ready, prio, k.task[w].prio);
      } else {
        assert t.ready[prio] != [];
      }
    }
  }

  lemma {:induction false} SendTop(k: Sys, c: Pid)
    requires Shape(k) && Partition(k) && k.current == [c] && k.task[c].status.Sending? && QueuesOk(k) && NoMissed(k)
    requires NoneAbove(k.ready, k.task[c].prio)
    ensures var i := FirstReceiver(k, c);
            var t := HandleSend(k, c).sys;
            0 <= i ==> t.current == [c] && (Top(t) <==> !Outranks(k, k.blocked[i], c))
  {
    var i := FirstReceiver(k, c);
    if 0 <= i {
      var w := k.blocked[i];
      assert w in k.blocked;
      SendRest(k, c);
      EnqueueAbove(k.ready, k.task[w].prio, w, k.task[c].prio);
    }
  }

  lemma {:induction false} ReceiveTop(k: Sys, c: Pid)
    requires Shape(k) && Partition(k) && k.current == [c] && k.task[c].status.Receiving? && QueuesOk(k) && NoMissed(k)
    requires NoneAbove(k.ready, k.task[c].prio)
    ensures var i := FirstSender(k, c);
            var t := HandleReceive(k, c).sys;
            0 <= i ==>
              && t.current == [c]
              && (Top(t) <==> k.task[k.blocked[i]].status.Calling? || !Outranks(k, k.blocked[i], c))
  {
    var i := FirstSender(k, c);
    if 0 <= i {
      var w := k.blocked[i];
      assert w in k.blocked;
      ReceiveRest(k, c);
      EnqueueAbove(k.ready, k.task[w].prio, w, k.task[c].prio);
    }
  }

  // A blocked task is the receiver of a message to d exactly when it is d.
  lemma {:induction false} ReceiverIsDest(k: Sys, c: Pid, d: Pid, m: Message)
    requires Shape(k) && k.current == [c] && c in k.task && c !in k.blocked && k.task[c].status == Sending(d, m)
    ensures var i := FirstReceiver(k, c);
            (0 <= i <==> d in k.blocked && Hears(k.task[d].status, c)) && (0 <= i ==> k.blocked[i] == d)
  {
    if d in k.blocked && Hears(k.task[d].status, c) {
      var j :| 0 <= j < |k.blocked| && k.blocked[j] == d;
      assert Meet(k.task, k.blocked[j], c);
    }
  }

  lemma {:induction false} SendStepTop(k: Sys, idle: Pid, d: Pid, m: Message)
    requires Inv(k, idle) && Allowed(k, idle, Send(d, m)) && Top(k)
    ensures var h := Handle(k, idle, Send(d, m)).sys;
            if h.current == [] then LeavesTop(k, idle, Send(d, m)) else Top(h) <==> LeavesTop(k, idle, Send(d, m))
  {
    var c := k.current[0];
    assert k.current == [c] && c in k.current;
    Apart(k, c);
    TrapRest(k, c, Sending(d, m));
    var k1 := k.(task := SetStatus(k.task, c, Sending(d, m)));
    ReceiverIsDest(k1, c, d, m);
    SendTop(k1, c);
  }

  lemma {:induction false} ReceiveStepTop(k: Sys, idle: Pid, src: Pid, n: nat)
    requires Inv(k, idle) && Allowed(k, idle, Receive(src, n)) && Top(k)
    ensures var h := Handle(k, idle, Receive(src, n)).sys;
            if h.current == [] then LeavesTop(k, idle, Receive(src, n))
            else Top(h) <==> LeavesTop(k, idle, Receive(src, n))
  {
    var c := k.current[0];
    assert k.current == [c] && c in k.current;
    Apart(k, c);
    TrapRest(k, c, Receiving(src, n));
    var k1 := k.(task := SetStatus(k.task, c, Receiving(src, n)));
    var i := FirstSender(k1, c);
    if 0 <= i {
      assert k.blocked[i] in k.blocked;
    }
    ReceiveTop(k1, c);
  }

  lemma {:induction false} StartTop(k: Sys, idle: Pid, p: Pid)
    requires Inv(k, idle) && Allowed(k, idle, StartTask(p)) && Top(k)
    ensures var h := Handle(k, idle, StartTask(p)).sys;
            h.current == k.current && (Top(h) <==> LeavesTop(k, idle, StartTask(p)))
  {
    var c := k.current[0];
    HandleRest(k, idle, StartTask(p));
    EnqueueAbove(k.ready, k.task[p].prio, p, k.task[c].prio);
  }

  // The calls and events after which nobody runs ready no task, or a handler
  // leaves the ready queues alone.
  lemma {:induction false} OtherTop(k: Sys, idle: Pid, x: Action)
    requires Inv(k, idle) && Allowed(k, idle, x) && Top(k)
    requires !x.Interrupt? && !x.Send? && !x.Receive? && !x.StartTask?
    ensures var h := Handle(k, idle, x).sys; h.current == [] || Top(h)
  {
    assert k.current == [k.current[0]] && k.current[0] in k.current;
    Apart(k, k.current[0]);
    HandleRest(k, idle, x);
  }

  /** From a state in which nobody ready outranks the running task, a step leads
      to such a state exactly when the runner leaves, or what the step makes
      ready does not outrank the task left running. */
  lemma {:induction false} TopKeptExactly(k: Sys, idle: Pid, x: Action)
    requires Inv(k, idle) && Allowed(k, idle, x) && Top(k)
    ensures Top(Step(k, idle, x).sys) <==> LeavesTop(k, idle, x)
  {
    var h := Handle(k, idle, x).sys;
    HandleRest(k, idle, x);
    HandleIdle(k, idle, x);
    forall p ensures Places(h, p) == if p in h.task then 1 else 0 {
      HandlePlaces(k, idle, x, p);
    }
    if h.current == [] {
      ScheduledIsTop(h, idle);
    }
    match x
    case Interrupt(code) => EventTop(k, idle, code);
    case Send(d, m) => SendStepTop(k, idle, d, m);
    case Receive(src, n) => ReceiveStepTop(k, idle, src, n);
    case StartTask(p) => StartTop(k, idle, p);
    case _ => OtherTop(k, idle, x);
  }

  ghost predicate AllLeaveTop(k: Sys, idle: Pid, acts: seq<Action>)
    requires Inv(k, idle) && AllowedRun(k, idle, acts)
    decreases |acts|
  {
    acts == [] ||
    (LeavesTop(k, idle, acts[0]) &&
     (StepInv(k, idle, acts[0]); AllLeaveTop(Step(k, idle, acts[0]).sys, idle, acts[1..])))
  }

  /** Over runs of such steps nobody ready ever outranks the running task. */
  lemma {:induction false} RunTop(k: Sys, idle: Pid, acts: seq<Action>)
    requires Inv(k, idle) && AllowedRun(k, idle, acts) && Top(k) && AllLeaveTop(k, idle, acts)
    ensures Top(Run(k, idle, acts).sys)
    decreases |acts|
  {
    if acts != [] {
      StepInv(k, idle, acts[0]);
      TopKeptExactly(k, idle, acts[0]);
      RunTop(Step(k, idle, acts[0]).sys, idle, acts[1..]);
    }
  }

  // ----- a step that does not -----

  // idle, a running task of default priority, and one of high priority that
  // waits for a message from anybody.
  function Waiting(idle: Pid, c: Pid, w: Pid): Sys {
    var none: seq<seq<Pid>> := seq(PRIO_QUEUES, _ => []);
    Sys([c], Enqueue(none, PRIO_IDLE, idle), [w],
        map[idle := Task(PRIO_IDLE, Runnable(Nothing)),
            c := Task(2, Runnable(Nothing)),
            w := Task(1, Receiving(TASK_ANY, 1))])
  }

  lemma {:induction false} WaitingInv(idle: Pid, c: Pid, w: Pid)
    requires idle != c && idle != w && c != w && TASK_ANY !in [idle, c, w]
    ensures Inv(Waiting(idle, c, w), idle)
  {
    var k := Waiting(idle, c, w);
    var none: seq<seq<Pid>> := seq(PRIO_QUEUES, _ => []);
    assert TASK_ANY != [idle, c, w][0] && TASK_ANY != [idle, c, w][1] && TASK_ANY != [idle, c, w][2];
    forall p ensures Places(k, p) == if p in k.task then 1 else 0 {
      EnqueueCount(none, PRIO_IDLE, idle, p);
      EmptyReady(none, p);
      CountOne(c, p);
      CountOne(w, p);
    }
  }

  lemma {:induction false} CountOne(a: Pid, p: Pid)
    ensures Count([a], p) == if a == p then 1 else 0
  {
    assert [a][1..] == [];
  }

  /** A task of default priority that sends to a waiting task of high priority
      goes on running, and the other one is ready behind it. */
  lemma {:induction false} SenderKeepsRunning(idle: Pid, c: Pid, w: Pid, m: Message)
    requires idle != c && idle != w && c != w && TASK_ANY !in [idle, c, w]
    ensures var k := Waiting(idle, c, w);
            && Inv(k, idle) && Allowed(k, idle, Send(w, m)) && Top(k)
            && var t := Step(k, idle, Send(w, m)).sys;
               !Top(t) && t.current == [c] && |t.ready| == PRIO_QUEUES && t.ready[1] == [w]
  {
    var k := Waiting(idle, c, w);
    WaitingInv(idle, c, w);
    assert Allowed(k, idle, Send(w, m));
    TopKeptExactly(k, idle, Send(w, m));
    var k1 := k.(task := SetStatus(k.task, c, Sending(w, m)));
    ReceiverIsDest(k1, c, w, m);
  }
}
