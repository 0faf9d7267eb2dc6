// The kernel itself: its queues and task records updated in place by every
// branch of the kernel loop, proved to take the steps of the transition system.
module Kernel {
  import opened Common
  import S = KernelSpec
  import opened KernelInvariant
  import Runs = KernelRun

  class Machine {
    var currentQ: seq<Pid>
    const queue: array<seq<Pid>>
    var blockedQ: seq<Pid>
    var tasks: map<Pid, S.Task>
    var eventcode: bv16
    const idle: Pid
    // messages copied by delivermsg, oldest first
    var delivered: seq<S.Delivery>

    ghost function State(): S.Sys
      reads this, queue
    {
      S.Sys(currentQ, queue[..], blockedQ, tasks)
    }

    ghost predicate Valid()
      reads this, queue
    {
      queue.Length == S.PRIO_QUEUES && S.Shape(State())
    }

    // The start of kernel(): the idle task and the first user task are made,
    // and one of them is dispatched.
    constructor (idle: Pid, first: Pid, prio: nat)
      requires prio < S.PRIO_QUEUES && idle != first && idle != TASK_ANY && first != TASK_ANY
      ensures Valid() && fresh(queue) && this.idle == idle && eventcode == S.EVENT_NONE && delivered == []
      ensures State() == Runs.Boot(idle, first, prio) && Inv(State(), idle)
    {
      this.idle := idle;
      queue := new seq<Pid>[S.PRIO_QUEUES](_ => []);
      currentQ, blockedQ, delivered, eventcode := [], [], [], S.EVENT_NONE;
      tasks := map[idle := S.Task(S.PRIO_IDLE, S.Runnable(S.Nothing)), first := S.Task(prio, S.Runnable(S.Nothing))];
      new;
      queue[S.PRIO_IDLE] := queue[S.PRIO_IDLE] + [idle];
      queue[prio] := queue[prio] + [first];
      Runs.LoadedOk(idle, first, prio);
      assert State() == Runs.Loaded(idle, first, prio);
      Scheduler();
      Runs.BootInv(idle, first, prio);
    }

    // ----- searches of blocked_q -----

    method SendMsg(c: Pid) returns (i: int)
      requires Valid() && c in tasks
      ensures i == S.FirstReceiver(State(), c)
    {
      i := 0;
      while i < |blockedQ|
        invariant 0 <= i <= |blockedQ|
        invariant forall j | 0 <= j < i :: !S.Meet(tasks, blockedQ[j], c)
      {
        if S.Meet(tasks, blockedQ[i], c) {
          return;
        }
        i := i + 1;
      }
      i := -1;
    }

    method ReceiveMsg(c: Pid) returns (i: int)
      requires Valid() && c in tasks
      ensures i == S.FirstSender(State(), c)
    {
      i := 0;
      while i < |blockedQ|
        invariant 0 <= i <= |blockedQ|
        invariant forall j | 0 <= j < i :: !S.Meet(tasks, c, blockedQ[j])
      {
        if S.Meet(tasks, c, blockedQ[i]) {
          return;
        }
        i := i + 1;
      }
      i := -1;
    }

    method DispatchEvent() returns (i: int)
      requires Valid()
      ensures i == S.FirstWaiter(State(), eventcode)
    {
      i := 0;
      while i < |blockedQ|
        invariant 0 <= i <= |blockedQ|
        invariant forall j | 0 <= j < i :: !S.AwaitsEvent(tasks, blockedQ[j], eventcode)
      {
        if S.AwaitsEvent(tasks, blockedQ[i], eventcode) {
          return;
        }
        i := i + 1;
      }
      i := -1;
    }

    method FindBlocked(p: Pid) returns (i: int)
      ensures i == Index(blockedQ, p)
    {
      i := 0;
      while i < |blockedQ|
        invariant 0 <= i <= |blockedQ|
        invariant forall j | 0 <= j < i :: blockedQ[j] != p
      {
        if blockedQ[i] == p {
          return;
        }
        i := i + 1;
      }
      i := -1;
    }

    // ----- queue moves -----

    method SetStatus(p: Pid, s: S.Status)
      requires p in tasks
      modifies `tasks
      ensures tasks == S.SetStatus(old(tasks), p, s)
    {
      tasks := tasks[p := tasks[p].(status := s)];
    }

    // delivermsg of a pair that meets
    method DeliverMsg(rcvr: Pid, sndr: Pid)
      requires S.Meet(tasks, rcvr, sndr)
      modifies `tasks, `delivered
      ensures tasks == S.Exchange(old(tasks), rcvr, sndr)
      ensures delivered == old(delivered) + [S.Note(old(tasks), rcvr, sndr)]
    {
      var s, r := tasks[sndr].status, tasks[rcvr].status;
      var copied := S.Prefix(s.msg, r.len);
      SetStatus(rcvr, S.Runnable(S.Got(sndr, copied)));
      SetStatus(sndr, S.AfterSending(s));
      delivered := delivered + [S.Delivery(sndr, rcvr, copied)];
    }

    // A blocked task is moved to the end of the ready queue of its priority.
    method ReleaseAt(i: nat)
      requires Valid() && i < |blockedQ|
      modifies `blockedQ, queue
      ensures Valid() && State() == S.Release(old(State()), i)
    {
      var w := blockedQ[i];
      assert w in blockedQ;
      var prio := tasks[w].prio;
      blockedQ := Remove(blockedQ, i);
      queue[prio] := queue[prio] + [w];
      RemoveMembers(old(blockedQ), i);
      assert State() == S.Release(old(State()), i);
    }

    // The running task is moved to the front of the blocked tasks.
    method BlockCurrent()
      requires Valid() && |currentQ| == 1
      modifies `currentQ, `blockedQ
      ensures Valid()
      ensures State() == old(State()).(current := [], blocked := old(currentQ) + old(blockedQ))
    {
      blockedQ := currentQ + blockedQ;
      currentQ := [];
    }

    method Scheduler()
      requires Valid()
      modifies `currentQ, queue
      ensures queue.Length == S.PRIO_QUEUES && State() == S.Schedule(old(State()))
    {
      if currentQ != [] {
        return;
      }
      var prio := 0;
      while prio < S.PRIO_QUEUES
        invariant 0 <= prio <= S.PRIO_QUEUES
        invariant forall j | 0 <= j < prio :: queue[..][j] == []
        invariant State() == old(State())
      {
        if queue[prio] != [] {
          assert queue[..][prio] != [];
          assert prio == S.TopQueue(queue[..]);
          currentQ := [queue[prio][0]];
          queue[prio] := queue[prio][1..];
          assert State() == S.Schedule(old(State()));
          return;
        }
        prio := prio + 1;
      }
    }

    // ----- kernel entries -----

    method HandleEvent(c: Pid)
      requires Valid() && currentQ == [c] && c in tasks
      modifies this, queue
      ensures Valid() && State() == S.HandleEvent(old(State()), c, old(eventcode))
      ensures eventcode == S.EVENT_NONE && delivered == old(delivered)
    {
      var i := DispatchEvent();
      if 0 <= i {
        var w := blockedQ[i];
        assert w in blockedQ;
        var prio := tasks[c].prio;
        if (tasks[w].status.mask & S.PREEMPT_ON_EVENT) != 0 {
          queue[prio] := queue[prio] + [c];
        } else {
          queue[prio] := [c] + queue[prio];
        }
        currentQ := [w];
        RemoveMembers(blockedQ, i);
        blockedQ := Remove(blockedQ, i);
        SetStatus(w, S.Runnable(S.Event(eventcode)));
        assert State() == S.HandleEvent(old(State()), c, old(eventcode));
      }
      eventcode := S.EVENT_NONE;
    }

    method HandleSend(c: Pid)
      requires Valid() && currentQ == [c] && c in tasks && (tasks[c].status.Sending? || tasks[c].status.Calling?)
      modifies `currentQ, `blockedQ, `tasks, `delivered, queue
      ensures Valid() && State() == S.HandleSend(old(State()), c).sys
      ensures delivered == old(delivered) + S.HandleSend(old(State()), c).delivered
    {
      var calling := tasks[c].status.Calling?;
      var i := SendMsg(c);
      if i < 0 {
        BlockCurrent();
      } else {
        var w := blockedQ[i];
        ExchangeFacts(tasks, w, c);
        DeliverMsg(w, c);
        ReleaseAt(i);
        if calling {
          BlockCurrent();
        }
      }
    }

    method HandleReceive(c: Pid)
      requires Valid() && currentQ == [c] && c in tasks && tasks[c].status.Receiving?
      modifies `currentQ, `blockedQ, `tasks, `delivered, queue
      ensures Valid() && State() == S.HandleReceive(old(State()), c).sys
      ensures delivered == old(delivered) + S.HandleReceive(old(State()), c).delivered
    {
      var i := ReceiveMsg(c);
      if i < 0 {
        BlockCurrent();
      } else {
        var w := blockedQ[i];
        var calling := tasks[w].status.Calling?;
        ExchangeFacts(tasks, c, w);
        DeliverMsg(c, w);
        if !calling {
          ReleaseAt(i);
        }
      }
    }

    // One turn of the kernel loop after a trap or an interrupt.
    method Enter(x: S.Action)
      requires Valid() && Inv(State(), idle) && S.Allowed(State(), idle, x)
      requires if x.Interrupt? then eventcode == x.code else eventcode == S.EVENT_NONE
      modifies this, queue
      ensures Valid() && Inv(State(), idle) && eventcode == S.EVENT_NONE && |currentQ| == 1
      ensures State() == S.Step(old(State()), idle, x).sys
      ensures delivered == old(delivered) + S.Step(old(State()), idle, x).delivered
    {
      StepInv(State(), idle, x);
      HandleRest(State(), idle, x);
      Dispatch(x);
      Scheduler();
    }

    method Dispatch(x: S.Action)
      requires Valid() && S.Allowed(State(), idle, x)
      requires if x.Interrupt? then eventcode == x.code else eventcode == S.EVENT_NONE
      modifies this, queue
      ensures queue.Length == S.PRIO_QUEUES && eventcode == S.EVENT_NONE
      ensures State() == S.Handle(old(State()), idle, x).sys
      ensures delivered == old(delivered) + S.Handle(old(State()), idle, x).delivered
    {
      var c := currentQ[0];
      assert currentQ == [c];
      if eventcode != S.EVENT_NONE {
        HandleEvent(c);
        return;
      }
      match x {
        case Send(d, m) => SetStatus(c, S.Sending(d, m)); HandleSend(c);
        case SendRec(d, m, n) => SetStatus(c, S.Calling(d, m, n)); HandleSend(c);
        case Receive(src, n) => SetStatus(c, S.Receiving(src, n)); HandleReceive(c);
        case Interrupt(_) => assert false;   // its event code was handled above
        case Other =>
        case _ => Manage(x, c);
      }
    }

    // The calls that create, restart, remove and suspend tasks.
    method Manage(x: S.Action, c: Pid)
      requires Valid() && S.Allowed(State(), idle, x) && currentQ == [c]
      requires !x.Interrupt? && !x.Send? && !x.SendRec? && !x.Receive? && !x.Other?
      modifies `currentQ, `blockedQ, `tasks, queue
      ensures State() == S.Handle(old(State()), idle, x).sys
    {
      ghost var k := State();
      assert c in k.current;
      match x {
        case CreateTask(p, prio) =>
          tasks := tasks[p := S.Task(prio, S.Created)];
          blockedQ := [p] + blockedQ;
        case SetupTask(p) =>
          SetStatus(p, S.Created);
        case StopTask(p) =>
          SetStatus(p, S.Created);
        case StartTask(p) =>
          var i := FindBlocked(p);
          ReleaseAt(i);
          SetStatus(p, S.Runnable(S.Nothing));
        case DeleteTask(p) =>
          var i := FindBlocked(p);
          blockedQ := Remove(blockedQ, i);
          tasks := tasks - {p};
        case ExitTask =>
          currentQ := [];
          tasks := tasks - {c};
        case WaitForEvent(mask) =>
          SetStatus(c, S.WaitEvent(mask));
          blockedQ := blockedQ + currentQ;
          currentQ := [];
        case Yield =>
          var prio := tasks[c].prio;
          queue[prio] := queue[prio] + currentQ;
          currentQ := [];
          assert State() == S.Handle(k, idle, x).sys;
      }
    }
  }
}
