// Runs of the kernel: dispatch order, and the integrity of remote calls.
module KernelRun {
  import opened Common
  import opened KernelSpec
  import opened KernelInvariant

  // The kernel's queues before its first dispatch: the idle task and the
  // start-up task.
  function Loaded(idle: Pid, first: Pid, prio: nat): Sys
    requires prio < PRIO_QUEUES
  {
    var t := map[idle := Task(PRIO_IDLE, Runnable(Nothing)), first := Task(prio, Runnable(Nothing))];
    Sys([], Enqueue(Enqueue(seq(PRIO_QUEUES, _ => []), PRIO_IDLE, idle), prio, first), [], t)
  }

  function Boot(idle: Pid, first: Pid, prio: nat): Sys
    requires prio < PRIO_QUEUES
  {
    Schedule(Loaded(idle, first, prio))
  }

  lemma LoadedOk(idle: Pid, first: Pid, prio: nat)
    requires prio < PRIO_QUEUES && idle != first && idle != TASK_ANY && first != TASK_ANY
    ensures var k := Loaded(idle, first, prio);
            Rest(k) && Partition(k) && IdleOk(k, idle) && k.current == []
  {
    var none: seq<seq<Pid>> := seq(PRIO_QUEUES, _ => []);
    var one := Enqueue(none, PRIO_IDLE, idle);
    var k := Loaded(idle, first, prio);
    forall p ensures Places(k, p) == if p in k.task then 1 else 0 {
      EnqueueCount(none, PRIO_IDLE, idle, p);
      EnqueueCount(one, prio, first, p);
      EmptyReady(none, p);
    }
  }

  lemma BootInv(idle: Pid, first: Pid, prio: nat)
    requires prio < PRIO_QUEUES && idle != first && idle != TASK_ANY && first != TASK_ANY
    ensures Inv(Boot(idle, first, prio), idle) && |Boot(idle, first, prio).current| == 1
  {
    LoadedOk(idle, first, prio);
    ScheduleInv(Loaded(idle, first, prio), idle);
  }

  lemma {:induction false} EmptyReady(ready: seq<seq<Pid>>, p: Pid)
    requires forall q | 0 <= q < |ready| :: ready[q] == []
    ensures ReadyCount(ready, p) == 0
  {
    if ready != [] {
      EmptyReady(ready[1..], p);
    }
  }

  ghost predicate AllowedRun(k: Sys, idle: Pid, acts: seq<Action>)
    requires Inv(k, idle)
    decreases |acts|
  {
    acts == [] ||
    (Allowed(k, idle, acts[0]) &&
     (StepInv(k, idle, acts[0]); AllowedRun(Step(k, idle, acts[0]).sys, idle, acts[1..])))
  }

  // The final state and the messages delivered on the way.
  ghost function Run(k: Sys, idle: Pid, acts: seq<Action>): Effect
    requires Inv(k, idle) && AllowedRun(k, idle, acts)
    decreases |acts|
  {
    if acts == [] then Effect(k, [])
    else
      StepInv(k, idle, acts[0]);
      var e := Step(k, idle, acts[0]);
      var rest := Run(e.sys, idle, acts[1..]);
      Effect(rest.sys, e.delivered + rest.delivered)
  }

  /** In every run the queues partition the live tasks, exactly one task runs
      at each kernel exit, and no two blocked tasks could exchange a message. */
  lemma {:induction false} RunInv(k: Sys, idle: Pid, acts: seq<Action>)
    requires Inv(k, idle) && AllowedRun(k, idle, acts) && |k.current| == 1
    ensures Inv(Run(k, idle, acts).sys, idle) && |Run(k, idle, acts).sys.current| == 1
    decreases |acts|
  {
    if acts != [] {
      StepInv(k, idle, acts[0]);
      RunInv(Step(k, idle, acts[0]).sys, idle, acts[1..]);
    }
  }

  lemma {:induction false} AllowedPrefix(k: Sys, idle: Pid, acts: seq<Action>, n: nat)
    requires Inv(k, idle) && AllowedRun(k, idle, acts) && n <= |acts|
    ensures AllowedRun(k, idle, acts[..n])
    decreases n
  {
    if n > 0 {
      StepInv(k, idle, acts[0]);
      assert acts[..n][1..] == acts[1..][..n - 1];
      AllowedPrefix(Step(k, idle, acts[0]).sys, idle, acts[1..], n - 1);
    }
  }

  // ----- dispatch order -----

  ghost predicate Before(s: seq<Pid>, a: Pid, b: Pid) {
    exists i, j :: 0 <= i < j < |s| && s[i] == a && s[j] == b
  }

  lemma AddedAtEnds(before: seq<seq<Pid>>, after: seq<seq<Pid>>, q: nat) returns (pre: seq<Pid>, post: seq<Pid>)
    requires Added(before, after) && q < |before|
    ensures |after| == |before| && after[q] == pre + before[q] + post
  {
    pre, post := [], [];
    if after[q] != before[q] {
      var p, y :| 0 <= p < |before| && (after == Enqueue(before, p, y) || after == EnqueueFront(before, p, y));
      if after == Enqueue(before, p, y) { post := [y]; } else { pre := [y]; }
    }
  }

  /** The scheduler takes the head of the highest non-empty ready queue, and
      only when the running task has left. */
  lemma DispatchesHighest(k: Sys, idle: Pid, x: Action)
    requires Inv(k, idle) && Allowed(k, idle, x)
    ensures var h := Handle(k, idle, x).sys;
            var t := Step(k, idle, x).sys;
            if h.current != [] then t == h
            else exists q | 0 <= q < PRIO_QUEUES ::
              && (forall j | 0 <= j < q :: h.ready[j] == [])
              && h.ready[q] == t.current + t.ready[q]
              && (forall j | 0 <= j < PRIO_QUEUES && j != q :: t.ready[j] == h.ready[j])
  {
    var h := Handle(k, idle, x).sys;
    StepInv(k, idle, x);
    if h.current == [] {
      var q := TopQueue(h.ready);
      HandleIdle(k, idle, x);
      assert h.ready[q] == [h.ready[q][0]] + h.ready[q][1..];
    }
  }

  lemma AddedKeepsOrder(before: seq<seq<Pid>>, after: seq<seq<Pid>>, q: nat, a: Pid, b: Pid)
    requires Added(before, after) && q < |before| && Before(before[q], a, b)
    ensures |after| == |before| && Before(after[q], a, b)
  {
    var pre, post := AddedAtEnds(before, after, q);
    var i, j :| 0 <= i < j < |before[q]| && before[q][i] == a && before[q][j] == b;
    assert after[q][|pre| + i] == a && after[q][|pre| + j] == b;
  }

  lemma TailOrder(s: seq<Pid>, a: Pid, b: Pid)
    requires Before(s, a, b) && s[0] != a
    ensures Before(s[1..], a, b)
  {
    var i, j :| 0 <= i < j < |s| && s[i] == a && s[j] == b;
    assert s[1..][i - 1] == a && s[1..][j - 1] == b;
  }

  lemma ScheduleOrder(k: Sys, q: nat, a: Pid, b: Pid)
    requires q < |k.ready| && Before(k.ready[q], a, b)
    ensures var t := Schedule(k);
            |t.ready| == |k.ready| && (t.current == [a] || Before(t.ready[q], a, b))
  {
    var t := Schedule(k);
    if t.ready[q] != k.ready[q] && t.current != [a] {
      TailOrder(k.ready[q], a, b);
    }
  }

  // A task behind another in a ready queue stays behind it until the other is
  // dispatched.
  lemma StepOrder(k: Sys, idle: Pid, x: Action, q: nat, a: Pid, b: Pid)
    requires Inv(k, idle) && Allowed(k, idle, x) && q < PRIO_QUEUES
    requires Before(k.ready[q], a, b)
    ensures var t := Step(k, idle, x).sys;
            |t.ready| == PRIO_QUEUES && (t.current == [a] || Before(t.ready[q], a, b))
  {
    var h := Handle(k, idle, x).sys;
    HandleAdds(k, idle, x);
    AddedKeepsOrder(k.ready, h.ready, q, a, b);
    ScheduleOrder(h, q, a, b);
  }

  lemma BehindIsNotRunning(k: Sys, idle: Pid, q: nat, a: Pid, b: Pid)
    requires Inv(k, idle) && q < PRIO_QUEUES && Before(k.ready[q], a, b)
    ensures a != b && k.current != [b]
  {
    var i, j :| 0 <= i < j < |k.ready[q]| && k.ready[q][i] == a && k.ready[q][j] == b;
    Apart(k, b);
    assert b in k.ready[q];
    assert Places(k, b) <= 1;
    ReadyZero(k.ready, q, b);
    if a == b {
      OnceOnly(k.ready[q], i, j);
    }
  }

  /** First in, first out over whole runs: if b waits behind a in a ready queue
      and b is running after some run, then a was dispatched on the way,
      whatever yields, deliveries and interrupts came between. */
  lemma {:induction false} DispatchedInOrder(k: Sys, idle: Pid, acts: seq<Action>, q: nat, a: Pid, b: Pid)
    returns (n: nat)
    requires Inv(k, idle) && AllowedRun(k, idle, acts) && q < PRIO_QUEUES
    requires Before(k.ready[q], a, b)
    requires Run(k, idle, acts).sys.current == [b]
    ensures 0 < n < |acts| && AllowedRun(k, idle, acts[..n]) && Run(k, idle, acts[..n]).sys.current == [a]
    decreases |acts|
  {
    BehindIsNotRunning(k, idle, q, a, b);
    StepInv(k, idle, acts[0]);
    StepOrder(k, idle, acts[0], q, a, b);
    var t := Step(k, idle, acts[0]).sys;
    if t.current == [a] {
      n := 1;
    } else {
      var m := DispatchedInOrder(t, idle, acts[1..], q, a, b);
      n := m + 1;
      assert acts[..n][1..] == acts[1..][..m];
    }
    AllowedPrefix(k, idle, acts, n);
  }
}
