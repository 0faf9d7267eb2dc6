// Message delivery: every delivery is a rendezvous, and a sendrec is a remote
// procedure call.
module KernelRpc {
  import opened Common
  import opened KernelSpec
  import opened KernelInvariant
  import opened KernelRun

  // Task f has msg on offer to task `to`: it is sending right now, or blocked.
  ghost predicate Offers(k: Sys, x: Action, f: Pid, to: Pid, msg: Message)
    requires Shape(k)
  {
    || (k.current == [f] && (x.Send? || x.SendRec?) && x.dest == to && x.msg == msg)
    || (f in k.blocked && Sends(k.task[f].status, to) && k.task[f].status.msg == msg)
  }

  // Task t takes up to `len` cells from task `from`.
  ghost predicate Listens(k: Sys, x: Action, t: Pid, from: Pid, len: nat)
    requires Shape(k)
  {
    || (k.current == [t] && x.Receive? && (x.src == from || x.src == TASK_ANY) && x.len == len)
    || (t in k.blocked && Hears(k.task[t].status, from) && k.task[t].status.len == len)
  }

  // After a delivery: the receiver can run and holds the message, and the
  // sender can run or waits for the receiver's answer.
  ghost predicate Delivered(t: Sys, d: Delivery) {
    && d.to in t.task && t.task[d.to].status == Runnable(Got(d.from, d.msg))
    && d.from in t.task
    && (t.task[d.from].status == Runnable(Nothing)
        || (t.task[d.from].status.Receiving? && t.task[d.from].status.src == d.to && d.from in t.blocked))
  }

  // The message is a prefix of one that is on offer, of the length asked for.
  ghost predicate Rendezvous(k: Sys, x: Action, d: Delivery)
    requires Shape(k)
  {
    exists msg, len :: Offers(k, x, d.from, d.to, msg) && Listens(k, x, d.to, d.from, len) && d.msg == Prefix(msg, len)
  }

  lemma ScheduleKeepsTasks(k: Sys)
    ensures Schedule(k).task == k.task && Schedule(k).blocked == k.blocked
  {
  }

  lemma SendDelivers(k: Sys, idle: Pid, x: Action)
    requires Inv(k, idle) && Allowed(k, idle, x) && (x.Send? || x.SendRec?)
    ensures var e := Handle(k, idle, x);
            |e.delivered| <= 1 && (e.delivered != [] ==>
              Rendezvous(k, x, e.delivered[0]) && Delivered(e.sys, e.delivered[0]))
  {
    var c := k.current[0];
    assert k.current == [c] && c in k.current;
    ApartAll(k);
    var s := if x.Send? then Sending(x.dest, x.msg) else Calling(x.dest, x.msg, x.len);
    var k1 := k.(task := SetStatus(k.task, c, s));
    var i := FirstReceiver(k1, c);
    if 0 <= i {
      var w := k.blocked[i];
      assert w in k.blocked;
      ExchangeFacts(k1.task, w, c);
      assert Offers(k, x, c, w, x.msg) && Listens(k, x, w, c, k.task[w].status.len);
    }
  }

  lemma ReceiveDelivers(k: Sys, idle: Pid, x: Action)
    requires Inv(k, idle) && Allowed(k, idle, x) && x.Receive?
    ensures var e := Handle(k, idle, x);
            |e.delivered| <= 1 && (e.delivered != [] ==>
              Rendezvous(k, x, e.delivered[0]) && Delivered(e.sys, e.delivered[0]))
  {
    var c := k.current[0];
    assert k.current == [c] && c in k.current;
    ApartAll(k);
    var k1 := k.(task := SetStatus(k.task, c, Receiving(x.src, x.len)));
    var i := FirstSender(k1, c);
    if 0 <= i {
      var w := k.blocked[i];
      assert w in k.blocked;
      ExchangeFacts(k1.task, c, w);
      assert Offers(k, x, w, c, k.task[w].status.msg) && Listens(k, x, c, w, x.len);
    }
  }

  /** A step delivers at most one message: one that its sender offers to
      exactly this receiver, cut to the receiver's length, with the sender's
      pid; and at that moment both leave the rendezvous. */
  lemma DeliveryIsRendezvous(k: Sys, idle: Pid, x: Action)
    requires Inv(k, idle) && Allowed(k, idle, x)
    ensures var e := Step(k, idle, x);
            |e.delivered| <= 1 && (e.delivered != [] ==>
              Rendezvous(k, x, e.delivered[0]) && Delivered(e.sys, e.delivered[0]))
  {
    if x.Send? || x.SendRec? {
      SendDelivers(k, idle, x);
    } else if x.Receive? {
      ReceiveDelivers(k, idle, x);
    }
    ScheduleKeepsTasks(Handle(k, idle, x).sys);
  }

  // ----- blocked partners -----

  predicate Restarts(x: Action, c: Pid) {
    (x.SetupTask? || x.StartTask? || x.StopTask? || x.DeleteTask?) && x.pid == c
  }

  function Involving(log: seq<Delivery>, c: Pid): seq<Delivery> {
    if log == [] then []
    else (if log[0].from == c || log[0].to == c then [log[0]] else []) + Involving(log[1..], c)
  }

  lemma {:induction false} InvolvingAppend(a: seq<Delivery>, b: seq<Delivery>, c: Pid)
    ensures Involving(a + b, c) == Involving(a, c) + Involving(b, c)
  {
    if a == [] {
      assert a + b == b;
    } else {
      assert (a + b)[1..] == a[1..] + b;
      InvolvingAppend(a[1..], b, c);
    }
  }

  // Nothing has happened to blocked task c.
  ghost predicate Untouched(k: Sys, e: Effect, c: Pid)
    requires Shape(k) && c in k.task
  {
    && c in e.sys.blocked && c in e.sys.task
    && e.sys.task[c].status == k.task[c].status
    && Involving(e.delivered, c) == []
  }

  // The one delivery of a step involves c.
  ghost predicate Took(e: Effect, c: Pid) {
    |e.delivered| == 1 && (e.delivered[0].from == c || e.delivered[0].to == c)
  }

  lemma OneDelivery(d: Delivery, c: Pid)
    ensures Involving([d], c) == if d.from == c || d.to == c then [d] else []
  {
    assert Involving([d][1..], c) == [];
  }

  lemma BlockedSend(k: Sys, idle: Pid, x: Action, c: Pid)
    requires Inv(k, idle) && Allowed(k, idle, x) && (x.Send? || x.SendRec?) && c in k.blocked
    ensures var e := Handle(k, idle, x);
            Untouched(k, e, c) || (Took(e, c) && e.delivered[0].to == c && c !in e.sys.blocked)
  {
    var r := k.current[0];
    assert k.current == [r] && r in k.current;
    ApartAll(k);
    var s := if x.Send? then Sending(x.dest, x.msg) else Calling(x.dest, x.msg, x.len);
    var k1 := k.(task := SetStatus(k.task, r, s));
    var i := FirstReceiver(k1, r);
    if 0 <= i {
      var w := k.blocked[i];
      RemoveMembers(k.blocked, i);
      ExchangeFacts(k1.task, w, r);
      if c != w { OneDelivery(Note(k1.task, w, r), c); }
    }
  }

  lemma BlockedReceive(k: Sys, idle: Pid, x: Action, c: Pid)
    requires Inv(k, idle) && Allowed(k, idle, x) && x.Receive? && c in k.blocked
    ensures var e := Handle(k, idle, x);
            Untouched(k, e, c)
            || (Took(e, c) && e.delivered[0].from == c
                && (c in e.sys.blocked <==> k.task[c].status.Calling?)
                && (k.task[c].status.Sending? || k.task[c].status.Calling?)
                && e.sys.task[c].status == AfterSending(k.task[c].status))
  {
    var r := k.current[0];
    assert k.current == [r] && r in k.current;
    ApartAll(k);
    var k1 := k.(task := SetStatus(k.task, r, Receiving(x.src, x.len)));
    var i := FirstSender(k1, r);
    if 0 <= i {
      var w := k.blocked[i];
      RemoveMembers(k.blocked, i);
      ExchangeFacts(k1.task, r, w);
      if c != w { OneDelivery(Note(k1.task, r, w), c); }
    }
  }

  lemma BlockedOther(k: Sys, idle: Pid, x: Action, c: Pid)
    requires Inv(k, idle) && Allowed(k, idle, x) && !x.Send? && !x.SendRec? && !x.Receive?
    requires c in k.blocked && !Restarts(x, c) && !k.task[c].status.WaitEvent?
    ensures Untouched(k, Handle(k, idle, x), c)
  {
    var r := k.current[0];
    assert k.current == [r] && r in k.current;
    ApartAll(k);
    match x
    case Interrupt(code) =>
      var i := FirstWaiter(k, code);
      if 0 <= i { RemoveMembers(k.blocked, i); }
    case StartTask(p) => RemoveMembers(k.blocked, Index(k.blocked, p));
    case DeleteTask(p) => RemoveMembers(k.blocked, Index(k.blocked, p));
    case _ =>
  }

  /** A blocked sender or receiver that nobody restarts stays as it is until
      the delivery of its own message, or of a message to it. */
  lemma BlockedUntilDelivery(k: Sys, idle: Pid, x: Action, c: Pid)
    requires Inv(k, idle) && Allowed(k, idle, x) && c in k.blocked && !Restarts(x, c)
    requires var s := k.task[c].status; s.Sending? || s.Calling? || s.Receiving?
    ensures var e := Step(k, idle, x);
            var s := k.task[c].status;
            || Untouched(k, e, c)
            || (s.Sending? && Took(e, c) && e.delivered[0].from == c && e.delivered[0].to == s.dest
                && c !in e.sys.blocked)
            || (s.Calling? && Took(e, c) && e.delivered[0].from == c && e.delivered[0].to == s.dest
                && c in e.sys.blocked
                && c in e.sys.task && e.sys.task[c].status == Receiving(s.dest, s.len))
            || (s.Receiving? && Took(e, c) && e.delivered[0].to == c && c !in e.sys.blocked
                && (s.src == TASK_ANY || e.delivered[0].from == s.src))
  {
    ScheduleKeepsTasks(Handle(k, idle, x).sys);
    DeliveryIsRendezvous(k, idle, x);
    assert k.current == [k.current[0]] && k.current[0] in k.current;
    Apart(k, c);
    if x.Send? || x.SendRec? {
      BlockedSend(k, idle, x, c);
    } else if x.Receive? {
      BlockedReceive(k, idle, x, c);
    } else {
      BlockedOther(k, idle, x, c);
    }
  }

  // ----- remote procedure calls -----

  // Task c is inside sendrec(d): its message is still on offer, or has been
  // taken and c waits for d's answer.
  ghost predicate InCall(k: Sys, c: Pid, d: Pid, taken: bool)
    requires Shape(k)
  {
    && c in k.blocked && d != TASK_ANY
    && var s := k.task[c].status;
       if taken then s.Receiving? && s.src == d else s.Calling? && s.dest == d
  }

  ghost predicate NoRestart(acts: seq<Action>, c: Pid) {
    forall i | 0 <= i < |acts| :: !Restarts(acts[i], c)
  }

  // The messages of a call: the request, and then the answer.
  ghost predicate IsCall(log: seq<Delivery>, c: Pid, d: Pid) {
    |log| == 2 && log[0].from == c && log[0].to == d && log[1].from == d && log[1].to == c
  }

  lemma CallStep(k: Sys, idle: Pid, x: Action, c: Pid, d: Pid, taken: bool)
    requires Inv(k, idle) && Allowed(k, idle, x) && !Restarts(x, c) && InCall(k, c, d, taken)
    ensures var e := Step(k, idle, x);
            var log := Involving(e.delivered, c);
            && Shape(e.sys)
            && ((InCall(e.sys, c, d, taken) && log == [])
                || (!taken && InCall(e.sys, c, d, true) && |log| == 1 && log[0].from == c && log[0].to == d)
                || (taken && c !in e.sys.blocked && |log| == 1 && log[0].from == d && log[0].to == c
                    && c in e.sys.task && e.sys.task[c].status == Runnable(Got(d, log[0].msg))))
  {
    StepInv(k, idle, x);
    BlockedUntilDelivery(k, idle, x, c);
    DeliveryIsRendezvous(k, idle, x);
    var e := Step(k, idle, x);
    if e.delivered != [] {
      assert e.delivered == [e.delivered[0]];
      OneDelivery(e.delivered[0], c);
    }
  }

  ghost predicate BlockedBeforeEach(k: Sys, idle: Pid, acts: seq<Action>, c: Pid)
    requires Inv(k, idle) && AllowedRun(k, idle, acts)
    decreases |acts|
  {
    acts == [] ||
    (c in k.blocked && (StepInv(k, idle, acts[0]); BlockedBeforeEach(Step(k, idle, acts[0]).sys, idle, acts[1..], c)))
  }

  // Where a call stands: what has been exchanged, and what c returns with.
  ghost predicate CallStands(t: Sys, log: seq<Delivery>, c: Pid, d: Pid, taken: bool) {
    && Shape(t)
    && (c in t.blocked ==>
          if log == [] then InCall(t, c, d, taken)
          else !taken && InCall(t, c, d, true) && |log| == 1 && log[0].from == c && log[0].to == d)
    && (c !in t.blocked ==>
          && log != [] && c in t.task
          && t.task[c].status == Runnable(Got(d, log[|log| - 1].msg))
          && if taken then |log| == 1 && log[0].from == d && log[0].to == c else IsCall(log, c, d))
  }

  lemma CallGoesOn(t: Sys, first: seq<Delivery>, rest: seq<Delivery>, c: Pid, d: Pid, taken: bool)
    requires first == [] || (!taken && |first| == 1 && first[0].from == c && first[0].to == d)
    requires CallStands(t, rest, c, d, taken || first != [])
    ensures CallStands(t, first + rest, c, d, taken)
  {
    if first == [] {
      assert first + rest == rest;
    } else {
      assert (first + rest)[0] == first[0];
      assert rest != [] ==> (first + rest)[1] == rest[0];
    }
  }

  /** While task c stays inside sendrec(d), in any run that does not restart
      it, the only message to or from c is its own request to d, at most once;
      and when c leaves, the messages exchanged since the call are exactly one
      request to d and one answer from d, which is what the call returns. */
  lemma {:induction false} CallIntegrity(k: Sys, idle: Pid, acts: seq<Action>, c: Pid, d: Pid, taken: bool)
    requires Inv(k, idle) && AllowedRun(k, idle, acts) && NoRestart(acts, c) && InCall(k, c, d, taken)
    requires BlockedBeforeEach(k, idle, acts, c)
    ensures var e := Run(k, idle, acts);
            CallStands(e.sys, Involving(e.delivered, c), c, d, taken)
    decreases |acts|
  {
    if acts != [] {
      var x := acts[0];
      StepInv(k, idle, x);
      assert !Restarts(x, c);
      CallStep(k, idle, x, c, d, taken);
      var e := Step(k, idle, x);
      var now := Involving(e.delivered, c);
      var rest := Run(e.sys, idle, acts[1..]);
      InvolvingAppend(e.delivered, rest.delivered, c);
      if c in e.sys.blocked {
        assert NoRestart(acts[1..], c);
        CallIntegrity(e.sys, idle, acts[1..], c, d, taken || now != []);
        CallGoesOn(rest.sys, now, Involving(rest.delivered, c), c, d, taken);
      } else {
        assert acts[1..] == [];
        assert rest == Effect(e.sys, []);
        assert now + Involving([], c) == now;
      }
    }
  }

  /** A sendrec puts its caller inside a call at once: either the message is on
      offer, or it has just been delivered to the named destination. */
  lemma CallStarts(k: Sys, idle: Pid, x: Action)
    requires Inv(k, idle) && Allowed(k, idle, x) && x.SendRec? && x.dest != TASK_ANY
    ensures var c := k.current[0];
            var e := Step(k, idle, x);
            var log := Involving(e.delivered, c);
            && Shape(e.sys)
            && (if log == [] then InCall(e.sys, c, x.dest, false)
                else InCall(e.sys, c, x.dest, true) && |log| == 1 && log[0].from == c && log[0].to == x.dest)
  {
    var c := k.current[0];
    assert k.current == [c] && c in k.current;
    StepInv(k, idle, x);
    ScheduleKeepsTasks(Handle(k, idle, x).sys);
    var k1 := k.(task := SetStatus(k.task, c, Calling(x.dest, x.msg, x.len)));
    var i := FirstReceiver(k1, c);
    if 0 <= i {
      ExchangeFacts(k1.task, k.blocked[i], c);
      OneDelivery(Note(k1.task, k.blocked[i], c), c);
    }
  }
}
