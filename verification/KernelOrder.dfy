// Who comes before whom: in the ready queues after a yield, an event or a
// delivery, and among the blocked tasks that an event or a message could wake.
module KernelOrder {
  import opened Common
  import opened KernelSpec
  import opened KernelInvariant
  import opened KernelRun

  lemma BeforeAt(s: seq<Pid>, i: nat, j: nat)
    requires i < j < |s|
    ensures Before(s, s[i], s[j])
  {
  }

  lemma LastComes(s: seq<Pid>, a: Pid, b: Pid)
    requires a in s
    ensures Before(s + [b], a, b)
  {
    var i :| 0 <= i < |s| && s[i] == a;
    assert (s + [b])[i] == a && (s + [b])[|s|] == b;
  }

  lemma FirstComes(s: seq<Pid>, a: Pid, b: Pid)
    requires a in s
    ensures Before([b] + s, b, a)
  {
    var i :| 0 <= i < |s| && s[i] == a;
    assert ([b] + s)[0] == b && ([b] + s)[i + 1] == a;
  }

  // ----- events -----

  // Blocked task w waits for an event that this code brings.
  ghost predicate Wakes(k: Sys, code: bv16, w: Pid) {
    w in k.blocked && w in k.task && k.task[w].status.WaitEvent? && k.task[w].status.mask & code != 0
  }

  /** An event runs the first of the blocked tasks that wait for it, at once, with
      exactly its code, and nobody else is given anything.  A waiter that asked for preemption sends the interrupted
      task behind all others of its priority; any other waiter leaves it in front
      of them. */
  lemma EventExactly(k: Sys, idle: Pid, code: bv16, j: nat)
    requires Inv(k, idle) && Allowed(k, idle, Interrupt(code)) && j < |k.blocked| && Wakes(k, code, k.blocked[j])
    requires forall i | 0 <= i < j :: !Wakes(k, code, k.blocked[i])
    ensures var w := k.blocked[j];
            var t := Step(k, idle, Interrupt(code)).sys;
            var c := k.current[0];
            var q := k.task[c].prio;
            && t.current == [w] && t.task == k.task[w := Task(k.task[w].prio, Runnable(Event(code)))]
            && |t.ready| == PRIO_QUEUES && c in t.ready[q]
            && forall a | a in k.ready[q] ::
                 if k.task[w].status.mask & PREEMPT_ON_EVENT != 0 then Before(t.ready[q], a, c)
                 else Before(t.ready[q], c, a)
  {
    var c := k.current[0];
    var q := k.task[c].prio;
    assert k.current == [c] && c in k.current;
    FirstWaiterIs(k, code, j);
    var w := k.blocked[j];
    var t := Step(k, idle, Interrupt(code)).sys;
    if k.task[w].status.mask & PREEMPT_ON_EVENT != 0 {
      assert t.ready[q] == k.ready[q] + [c] && t.ready[q][|k.ready[q]|] == c;
      forall a | a in k.ready[q] ensures Before(t.ready[q], a, c) { LastComes(k.ready[q], a, c); }
    } else {
      assert t.ready[q] == [c] + k.ready[q] && t.ready[q][0] == c;
      forall a | a in k.ready[q] ensures Before(t.ready[q], c, a) { FirstComes(k.ready[q], a, c); }
    }
  }

  // Where the interrupted task comes, beside one that was ready.
  lemma InterruptedPlace(k: Sys, idle: Pid, code: bv16, j: nat, a: Pid) returns (t: Sys, c: Pid, q: nat)
    requires Inv(k, idle) && Allowed(k, idle, Interrupt(code)) && j < |k.blocked| && Wakes(k, code, k.blocked[j])
    requires forall i | 0 <= i < j :: !Wakes(k, code, k.blocked[i])
    requires Shape(k) && k.current[0] in k.task && k.task[k.current[0]].prio < PRIO_QUEUES
    requires a in k.ready[k.task[k.current[0]].prio]
    ensures t == Step(k, idle, Interrupt(code)).sys && k.current == [c] && q < PRIO_QUEUES && |t.ready| == PRIO_QUEUES
    ensures if k.task[k.blocked[j]].status.mask & PREEMPT_ON_EVENT != 0 then Before(t.ready[q], a, c)
            else Before(t.ready[q], c, a)
  {
    EventExactly(k, idle, code, j);
    t := Step(k, idle, Interrupt(code)).sys;
    c := k.current[0];
    q := k.task[c].prio;
  }

  lemma FirstWaiterIs(k: Sys, code: bv16, j: nat)
    requires Shape(k) && j < |k.blocked| && Wakes(k, code, k.blocked[j])
    requires forall i | 0 <= i < j :: !Wakes(k, code, k.blocked[i])
    ensures FirstWaiter(k, code) == j
  {
    var i := FirstWaiter(k, code);
    assert AwaitsEvent(k.task, k.blocked[j], code);
    if i < j {
      assert Wakes(k, code, k.blocked[i]);
    }
  }

  /** An event that nobody waits for changes nothing. */
  lemma IdleEvent(k: Sys, idle: Pid, code: bv16)
    requires Inv(k, idle) && Allowed(k, idle, Interrupt(code)) && forall w :: !Wakes(k, code, w)
    ensures Step(k, idle, Interrupt(code)) == Effect(k, [])
  {
    var i := FirstWaiter(k, code);
    if 0 <= i {
      assert Wakes(k, code, k.blocked[i]);
    }
  }

  // ----- becoming ready -----

  lemma ReleaseGrows(k: Sys, i: nat, q: nat, b: Pid)
    requires Shape(k) && i < |k.blocked| && q < PRIO_QUEUES
    requires b !in k.ready[q]
    ensures |Release(k, i).ready| == PRIO_QUEUES
    ensures b in Release(k, i).ready[q] ==> Release(k, i).ready[q] == k.ready[q] + [b]
  {
    assert k.blocked[i] in k.blocked;
  }

  lemma HandleGrows(k: Sys, idle: Pid, x: Action, q: nat, b: Pid)
    requires Inv(k, idle) && Allowed(k, idle, x) && !x.Interrupt? && q < PRIO_QUEUES && b !in k.ready[q]
    ensures var h := Handle(k, idle, x).sys;
            |h.ready| == PRIO_QUEUES && (b in h.ready[q] ==> h.ready[q] == k.ready[q] + [b])
  {
    var c := k.current[0];
    assert k.current == [c] && c in k.current;
    match x
    case Send(d, m) =>
      var k1 := k.(task := SetStatus(k.task, c, Sending(d, m)));
      if 0 <= FirstReceiver(k1, c) { ReleaseGrows(k1, FirstReceiver(k1, c), q, b); }
    case SendRec(d, m, n) =>
      var k1 := k.(task := SetStatus(k.task, c, Calling(d, m, n)));
      if 0 <= FirstReceiver(k1, c) { ReleaseGrows(k1, FirstReceiver(k1, c), q, b); }
    case Receive(src, n) =>
      var k1 := k.(task := SetStatus(k.task, c, Receiving(src, n)));
      if 0 <= FirstSender(k1, c) { ReleaseGrows(k1, FirstSender(k1, c), q, b); }
    case StartTask(p) => ReleaseGrows(k, Index(k.blocked, p), q, b);
    case _ =>
  }

  /** But for events, whoever becomes ready queues behind all who were ready at its
      priority: the task that yields, the partner of a message, and the task that
      is started. */
  lemma NewcomersQueueLast(k: Sys, idle: Pid, x: Action, q: nat, a: Pid, b: Pid)
    requires Inv(k, idle) && Allowed(k, idle, x) && !x.Interrupt? && q < PRIO_QUEUES
    requires a in k.ready[q] && b !in k.ready[q]
    ensures var t := Step(k, idle, x).sys;
            |t.ready| == PRIO_QUEUES && (b in t.ready[q] ==> t.current == [a] || Before(t.ready[q], a, b))
  {
    HandleGrows(k, idle, x, q, b);
    var h := Handle(k, idle, x).sys;
    if b in h.ready[q] {
      LastComes(k.ready[q], a, b);
      ScheduleOrder(h, q, a, b);
    }
  }

  // The running task gives way: it yields, or another one runs next.
  ghost predicate GivesWay(k: Sys, idle: Pid, x: Action)
    requires Shape(k) && Allowed(k, idle, x)
  {
    !x.Interrupt? && (x.Yield? || Step(k, idle, x).sys.current != k.current)
  }

  lemma RunnerLeft(k: Sys, idle: Pid, x: Action)
    requires Inv(k, idle) && Allowed(k, idle, x) && GivesWay(k, idle, x)
    ensures Handle(k, idle, x).sys.current == []
  {
    var c := k.current[0];
    match x
    case Send(d, m) =>
    case SendRec(d, m, n) =>
    case Receive(src, n) =>
    case _ =>
  }

  lemma ChoiceIsFirst(h: Sys, idle: Pid, q: nat, a: Pid)
    requires Rest(h) && IdleOk(h, idle) && h.current == [] && q < PRIO_QUEUES && a in h.ready[q]
    ensures var t := Schedule(h);
            && |t.current| == 1 && t.current[0] in h.task
            && (t.current == [a] || h.task[t.current[0]].prio < q
                || (h.task[t.current[0]].prio == q && Before(h.ready[q], t.current[0], a)))
  {
    var top := TopQueue(h.ready);
    assert h.ready[q] != [];
    assert 0 <= top <= q;
    var b := h.ready[top][0];
    assert b in h.ready[top] && h.task[b].prio == top;
    if top == q && b != a {
      var i :| 0 <= i < |h.ready[q]| && h.ready[q][i] == a;
      BeforeAt(h.ready[q], 0, i);
    }
  }

  /** When the running task gives way, nobody who was ready is passed over: the next to run is of a higher priority,
      or of the same and ahead. */
  lemma NobodyPassedOver(k: Sys, idle: Pid, x: Action, q: nat, a: Pid)
    requires Inv(k, idle) && Allowed(k, idle, x) && GivesWay(k, idle, x) && q < PRIO_QUEUES && a in k.ready[q]
    ensures var t := Step(k, idle, x).sys;
            && |t.current| == 1 && t.current[0] in t.task
            && (t.current == [a] || t.task[t.current[0]].prio < q
                || (t.task[t.current[0]].prio == q && Before(k.ready[q], t.current[0], a)))
  {
    var h := Handle(k, idle, x).sys;
    RunnerLeft(k, idle, x);
    HandleRest(k, idle, x);
    HandleIdle(k, idle, x);
    HandleAdds(k, idle, x);
    AddedKeeps(k.ready, h.ready, q, a);
    ChoiceIsFirst(h, idle, q, a);
    var b := h.ready[TopQueue(h.ready)][0];
    if b != a && Before(h.ready[q], b, a) {
      HeadWasReady(k, idle, x, q, a);
    }
  }

  // If a was ready at q, so was the head of that queue, before it.
  lemma HeadWasReady(k: Sys, idle: Pid, x: Action, q: nat, a: Pid)
    requires Inv(k, idle) && Allowed(k, idle, x) && GivesWay(k, idle, x) && q < PRIO_QUEUES && a in k.ready[q]
    ensures var h := Handle(k, idle, x).sys;
            |h.ready| == PRIO_QUEUES && h.ready[q] != []
            && (h.ready[q][0] == a || Before(k.ready[q], h.ready[q][0], a))
  {
    var h := Handle(k, idle, x).sys;
    var b := k.ready[q][0];
    assert b in k.ready[q];
    if h.ready[q] != k.ready[q] {
      HandleAdds(k, idle, x);
      var y := NewAt(k, idle, x, q);
      HandleGrows(k, idle, x, q, y);
    }
    assert h.ready[q][0] == b;
    if b != a {
      var i :| 0 <= i < |k.ready[q]| && k.ready[q][i] == a;
      BeforeAt(k.ready[q], 0, i);
    }
  }

  // Who has joined a queue that has changed.
  lemma NewAt(k: Sys, idle: Pid, x: Action, q: nat) returns (y: Pid)
    requires Inv(k, idle) && Allowed(k, idle, x) && q < PRIO_QUEUES
    requires |Handle(k, idle, x).sys.ready| == PRIO_QUEUES && Handle(k, idle, x).sys.ready[q] != k.ready[q]
    ensures y !in k.ready[q] && y in Handle(k, idle, x).sys.ready[q]
  {
    var h := Handle(k, idle, x).sys;
    HandleAdds(k, idle, x);
    var p, z :| 0 <= p < |k.ready| && (h.ready == Enqueue(k.ready, p, z) || h.ready == EnqueueFront(k.ready, p, z));
    y := z;
    assert p == q;
    NewIsNew(k, idle, x, q, z);
    if h.ready == Enqueue(k.ready, p, z) {
      assert h.ready[q][|k.ready[q]|] == z;
    } else {
      assert h.ready[q][0] == z;
    }
  }

  lemma NewIsNew(k: Sys, idle: Pid, x: Action, q: nat, z: Pid)
    requires Inv(k, idle) && Allowed(k, idle, x) && q < PRIO_QUEUES
    requires var h := Handle(k, idle, x).sys;
             h.ready == Enqueue(k.ready, q, z) || h.ready == EnqueueFront(k.ready, q, z)
    ensures z !in k.ready[q]
  {
    var h := Handle(k, idle, x).sys;
    HandlePlaces(k, idle, x, z);
    assert Places(h, z) <= 1;
    EnqueueCount(k.ready, q, z, z);
    CountZero(k.ready[q], z);
    ReadyZero(k.ready, q, z);
  }

  // ----- yield -----

  /** After a yield every task of the runner's priority that was ready runs, or
      stands before it; and the runner goes on only if nobody was ready at its
      priority or above. */
  lemma YieldExactly(k: Sys, idle: Pid)
    requires Inv(k, idle) && Allowed(k, idle, Yield)
    ensures var t := Step(k, idle, Yield).sys;
            var c := k.current[0];
            var q := k.task[c].prio;
            && |t.ready| == PRIO_QUEUES
            && (forall a | a in k.ready[q] :: t.current == [a] || Before(t.ready[q], a, c))
            && (t.current == [c] <==> forall j | 0 <= j <= q :: k.ready[j] == [])
            && (t.current == [c] || c in t.ready[q]) && t.task == k.task && t.blocked == k.blocked
  {
    var c := k.current[0];
    var q := k.task[c].prio;
    assert k.current == [c] && c in k.current;
    Apart(k, c);
    var h := Handle(k, idle, Yield).sys;
    var t := Step(k, idle, Yield).sys;
    assert h.ready[q] == k.ready[q] + [c] && h.ready[q][|k.ready[q]|] == c;
    forall a | a in k.ready[q] ensures t.current == [a] || Before(t.ready[q], a, c) {
      LastComes(k.ready[q], a, c);
      ScheduleOrder(h, q, a, c);
    }
    var top := TopQueue(h.ready);
    assert 0 <= top <= q;
    if top < q {
      assert h.ready[top] == k.ready[top] && h.ready[top][0] in k.ready[top];
      assert t.ready[q] == h.ready[q];
    } else if k.ready[q] != [] {
      assert h.ready[q][0] == k.ready[q][0] && k.ready[q][0] in k.ready[q];
      assert t.ready[q][|k.ready[q]| - 1] == c;
    } else {
      assert forall j | 0 <= j < q :: k.ready[j] == h.ready[j];
    }
  }

  // Task c is queued at q behind a, or a runs: then c does not run again before
  // a has.
  lemma {:induction false} RunsFirst(k: Sys, idle: Pid, acts: seq<Action>, q: nat, a: Pid, c: Pid) returns (n: nat)
    requires Inv(k, idle) && AllowedRun(k, idle, acts) && q < PRIO_QUEUES
    requires k.current == [a] || Before(k.ready[q], a, c)
    requires Run(k, idle, acts).sys.current == [c]
    ensures n <= |acts| && AllowedRun(k, idle, acts[..n]) && Run(k, idle, acts[..n]).sys.current == [a]
  {
    if k.current == [a] {
      n := 0;
    } else {
      n := DispatchedInOrder(k, idle, acts, q, a, c);
    }
  }

  lemma {:induction false} RunFrom(k: Sys, idle: Pid, x: Action, acts: seq<Action>, n: nat)
    requires Inv(k, idle) && AllowedRun(k, idle, [x] + acts) && n <= |acts|
    ensures Allowed(k, idle, x) && Inv(Step(k, idle, x).sys, idle) && AllowedRun(Step(k, idle, x).sys, idle, acts)
    ensures Run(k, idle, [x] + acts).sys == Run(Step(k, idle, x).sys, idle, acts).sys
    ensures AllowedRun(Step(k, idle, x).sys, idle, acts[..n]) ==>
              && AllowedRun(k, idle, ([x] + acts)[..n + 1])
              && Run(k, idle, ([x] + acts)[..n + 1]).sys == Run(Step(k, idle, x).sys, idle, acts[..n]).sys
  {
    StepInv(k, idle, x);
    assert ([x] + acts)[1..] == acts;
    assert ([x] + acts)[..n + 1] == [x] + acts[..n];
    assert ([x] + acts[..n])[1..] == acts[..n];
  }

  /** A task that yields does not run again, in any run, before every task that
      was ready at its priority has run. */
  lemma {:induction false} YieldLetsRun(k: Sys, idle: Pid, acts: seq<Action>, a: Pid) returns (n: nat)
    requires Inv(k, idle) && AllowedRun(k, idle, [Yield] + acts) && |k.current| == 1
    requires var c := k.current[0];
             && c in k.task && a in k.ready[k.task[c].prio] && Run(k, idle, [Yield] + acts).sys.current == [c]
    ensures 0 < n <= |acts| + 1 && AllowedRun(k, idle, ([Yield] + acts)[..n])
    ensures Run(k, idle, ([Yield] + acts)[..n]).sys.current == [a]
  {
    RunFrom(k, idle, Yield, acts, 0);
    YieldExactly(k, idle);
    var c := k.current[0];
    var m := RunsFirst(Step(k, idle, Yield).sys, idle, acts, k.task[c].prio, a, c);
    RunFrom(k, idle, Yield, acts, m);
    n := m + 1;
  }

  /** Nor does a preempted task. */
  lemma {:induction false} PreemptedRunsLast(k: Sys, idle: Pid, code: bv16, j: nat, acts: seq<Action>, a: Pid)
    returns (n: nat)
    requires Inv(k, idle) && AllowedRun(k, idle, [Interrupt(code)] + acts) && |k.current| == 1 && k.current[0] in k.task
    requires j < |k.blocked| && Wakes(k, code, k.blocked[j]) && forall i | 0 <= i < j :: !Wakes(k, code, k.blocked[i])
    requires k.task[k.blocked[j]].status.mask & PREEMPT_ON_EVENT != 0 && a in k.ready[k.task[k.current[0]].prio]
    requires Run(k, idle, [Interrupt(code)] + acts).sys.current == k.current
    ensures 0 < n <= |acts| + 1 && AllowedRun(k, idle, ([Interrupt(code)] + acts)[..n])
    ensures Run(k, idle, ([Interrupt(code)] + acts)[..n]).sys.current == [a]
  {
    RunFrom(k, idle, Interrupt(code), acts, 0);
    var t, c, q := InterruptedPlace(k, idle, code, j, a);
    var m := RunsFirst(t, idle, acts, q, a, c);
    RunFrom(k, idle, Interrupt(code), acts, m);
    n := m + 1;
  }

  /** A task that is interrupted without preemption runs again before any other
      that was ready at its priority. */
  lemma {:induction false} InterruptedRunsFirst(k: Sys, idle: Pid, code: bv16, j: nat, acts: seq<Action>, a: Pid)
    returns (n: nat)
    requires Inv(k, idle) && AllowedRun(k, idle, [Interrupt(code)] + acts) && |k.current| == 1 && k.current[0] in k.task
    requires j < |k.blocked| && Wakes(k, code, k.blocked[j]) && forall i | 0 <= i < j :: !Wakes(k, code, k.blocked[i])
    requires k.task[k.blocked[j]].status.mask & PREEMPT_ON_EVENT == 0 && a in k.ready[k.task[k.current[0]].prio]
    requires Run(k, idle, [Interrupt(code)] + acts).sys.current == [a]
    ensures 0 < n <= |acts| + 1 && AllowedRun(k, idle, ([Interrupt(code)] + acts)[..n])
    ensures Run(k, idle, ([Interrupt(code)] + acts)[..n]).sys.current == k.current
  {
    RunFrom(k, idle, Interrupt(code), acts, 0);
    var t, c, q := InterruptedPlace(k, idle, code, j, a);
    var m := RunsFirst(t, idle, acts, q, c, a);
    RunFrom(k, idle, Interrupt(code), acts, m);
    n := m + 1;
  }

  // ----- the blocked tasks -----

  lemma RemoveOrder(s: seq<Pid>, i: nat, a: Pid, b: Pid)
    requires i < |s| && Before(s, a, b)
    ensures s[i] != a && s[i] != b ==> Before(Remove(s, i), a, b)
  {
    var x, y :| 0 <= x < y < |s| && s[x] == a && s[y] == b;
    if s[i] != a && s[i] != b {
      assert Remove(s, i)[if x < i then x else x - 1] == a && Remove(s, i)[if y < i then y else y - 1] == b;
    }
  }

  lemma OnceInBlocked(k: Sys, i: nat)
    requires Partition(k) && i < |k.blocked|
    ensures k.blocked[i] !in Remove(k.blocked, i)
  {
    ApartAll(k);
    RemoveMembers(k.blocked, i);
  }

  // Where a step may put blocked tasks.
  ghost predicate Reorders(before: seq<Pid>, after: seq<Pid>, c: Pid) {
    || after == before || after == [c] + before || after == before + [c]
    || (exists i | 0 <= i < |before| :: after == Remove(before, i) || after == [c] + Remove(before, i))
  }

  lemma StepReorders(k: Sys, idle: Pid, x: Action)
    requires Inv(k, idle) && Allowed(k, idle, x)
    ensures Reorders(k.blocked, Step(k, idle, x).sys.blocked, if x.CreateTask? then x.pid else k.current[0])
  {
    var c := k.current[0];
    match x
    case Send(d, m) =>
    case SendRec(d, m, n) =>
    case Receive(src, n) =>
    case _ =>
  }

  lemma FrontOrder(s: seq<Pid>, c: Pid, a: Pid, b: Pid)
    requires Before(s, a, b)
    ensures Before([c] + s, a, b) && Before(s + [c], a, b)
  {
    var x, y :| 0 <= x < y < |s| && s[x] == a && s[y] == b;
    assert ([c] + s)[x + 1] == a && ([c] + s)[y + 1] == b;
    assert (s + [c])[x] == a && (s + [c])[y] == b;
  }

  lemma RemovedOrder(s: seq<Pid>, t: seq<Pid>, i: nat, c: Pid, a: Pid, b: Pid)
    requires i < |s| && (t == Remove(s, i) || t == [c] + Remove(s, i)) && s[i] !in Remove(s, i)
    requires Before(s, a, b) && c != a && c != b && a in t && b in t
    ensures Before(t, a, b)
  {
    assert a in Remove(s, i) && b in Remove(s, i);
    RemoveOrder(s, i, a, b);
    FrontOrder(Remove(s, i), c, a, b);
  }

  lemma ReorderedOrder(s: seq<Pid>, t: seq<Pid>, c: Pid, a: Pid, b: Pid)
    requires Reorders(s, t, c) && Before(s, a, b) && c != a && c != b && a in t && b in t
    requires forall i | 0 <= i < |s| :: s[i] !in Remove(s, i)
    ensures Before(t, a, b)
  {
    if t == s || t == [c] + s || t == s + [c] {
      FrontOrder(s, c, a, b);
    } else {
      var i :| 0 <= i < |s| && (t == Remove(s, i) || t == [c] + Remove(s, i));
      RemovedOrder(s, t, i, c, a, b);
    }
  }

  /** Two tasks that stay blocked stay in their order. */
  lemma BlockedOrder(k: Sys, idle: Pid, x: Action, a: Pid, b: Pid)
    requires Inv(k, idle) && Allowed(k, idle, x) && Before(k.blocked, a, b)
    ensures var t := Step(k, idle, x).sys;
            a in t.blocked && b in t.blocked ==> Before(t.blocked, a, b)
  {
    StepReorders(k, idle, x);
    var t := Step(k, idle, x).sys;
    var c := if x.CreateTask? then x.pid else k.current[0];
    assert a in k.blocked && b in k.blocked && k.current[0] in k.current;
    Apart(k, a);
    Apart(k, b);
    forall i | 0 <= i < |k.blocked| ensures k.blocked[i] !in Remove(k.blocked, i) {
      OnceInBlocked(k, i);
    }
    if a in t.blocked && b in t.blocked {
      ReorderedOrder(k.blocked, t.blocked, c, a, b);
    }
  }

  /** A task that starts to wait for an event comes after all blocked tasks, so an
      event goes to the one that has waited longest; a sender or receiver that
      blocks comes before them, so a message goes to the latest. */
  lemma BlocksAt(k: Sys, idle: Pid, x: Action, a: Pid)
    requires Inv(k, idle) && Allowed(k, idle, x) && k.current[0] in Step(k, idle, x).sys.blocked
    requires a in Step(k, idle, x).sys.blocked && a != k.current[0]
    ensures var t := Step(k, idle, x).sys;
            var c := k.current[0];
            if x.WaitForEvent? then Before(t.blocked, a, c) && t.task[c] == Task(k.task[c].prio, WaitEvent(x.mask))
            else Before(t.blocked, c, a) && (x.Send? || x.SendRec? || x.Receive?)
  {
    var c := k.current[0];
    var t := Step(k, idle, x).sys;
    assert c in k.current;
    Apart(k, c);
    if x.WaitForEvent? {
      assert a in k.blocked;
      LastComes(k.blocked, a, c);
    } else {
      BlocksInFront(k, idle, x);
      assert t.blocked == [c] + t.blocked[1..];
      FirstComes(t.blocked[1..], a, c);
    }
  }

  lemma BlocksInFront(k: Sys, idle: Pid, x: Action)
    requires Inv(k, idle) && Allowed(k, idle, x) && !x.WaitForEvent? && k.current[0] in Step(k, idle, x).sys.blocked
    ensures Step(k, idle, x).sys.blocked[0] == k.current[0] && (x.Send? || x.SendRec? || x.Receive?)
  {
    var c := k.current[0];
    assert c in k.current;
    Apart(k, c);
    StepReorders(k, idle, x);
    match x
    case Interrupt(code) =>
      var i := FirstWaiter(k, code);
      if 0 <= i { RemoveMembers(k.blocked, i); }
    case StartTask(p) => RemoveMembers(k.blocked, Index(k.blocked, p));
    case DeleteTask(p) => RemoveMembers(k.blocked, Index(k.blocked, p));
    case Send(d, m) =>
      var k1 := k.(task := SetStatus(k.task, c, Sending(d, m)));
      var i := FirstReceiver(k1, c);
      if 0 <= i { RemoveMembers(k.blocked, i); }
    case Receive(src, n) =>
      var k1 := k.(task := SetStatus(k.task, c, Receiving(src, n)));
      var i := FirstSender(k1, c);
      if 0 <= i { RemoveMembers(k.blocked, i); }
    case _ =>
  }

  /** Of the blocked tasks that offer it a message, a receiver is served by the
      first, which is the one that blocked last. */
  lemma ReceivesFromFirst(k: Sys, idle: Pid, src: Pid, n: nat, a: Pid)
    requires Inv(k, idle) && Allowed(k, idle, Receive(src, n)) && a in k.blocked
    requires Sends(k.task[a].status, k.current[0]) && (src == a || src == TASK_ANY)
    ensures var e := Step(k, idle, Receive(src, n));
            && |e.delivered| == 1 && e.delivered[0].to == k.current[0]
            && (e.delivered[0].from == a || Before(k.blocked, e.delivered[0].from, a))
  {
    var c := k.current[0];
    var k1 := k.(task := SetStatus(k.task, c, Receiving(src, n)));
    assert c in k.current;
    Apart(k, c);
    var j :| 0 <= j < |k.blocked| && k.blocked[j] == a;
    assert Meet(k1.task, c, a);
    var i := FirstSender(k1, c);
    assert 0 <= i <= j;
    if i < j { BeforeAt(k.blocked, i, j); }
  }
}
