// Every command line can be played: by tasks that come and go as those that the
// shell spawns do, wherever the VFS has room for the pipes of the line.
module ShellLines {
  import opened Common
  import opened FdTable
  import opened VfsSpec
  import opened VfsInvariant
  import opened VfsRun
  import opened VfsHistory
  import opened VfsViews
  import opened ShellOnVfs
  import opened ShellRoom
  import S = ShellSpec

  // ----- writing a history -----

  // From moment a to the end the shell has done `acts`.
  ghost predicate Did(h: History, sh: Pid, a: nat, acts: seq<Act>) {
    IsHistory(h) && a <= |h.qs| && LastsFrom(h, sh, a, |h.qs|) && Done(h, sh, a, |h.qs|) == acts && Inv(Last(h))
  }

  lemma {:induction false} DoneExtends(h: History, g: History, p: Pid, a: nat, b: nat)
    requires IsHistory(h) && IsHistory(g) && Extends(h, g) && a <= b <= |h.qs| && LastsFrom(h, p, a, b)
    ensures LastsFrom(g, p, a, b) && Done(g, p, a, b) == Done(h, p, a, b)
    decreases b - a
  {
    if a < b {
      assert Goes(h, b - 1) && Goes(g, b - 1) && Lasting(h.qs[b - 1], p);
      DoneExtends(h, g, p, a, b - 1);
    }
  }

  lemma DidNothing(h: History, sh: Pid)
    requires IsHistory(h)
    ensures Did(h, sh, |h.qs|, [])
  {
    MomentInv(h, |h.qs|);
  }

  // A request of the shell.
  lemma OwnOn(h: History, sh: Pid, a: nat, acts: seq<Act>, q: Req) returns (g: History)
    requires Did(h, sh, a, acts) && q.pid == sh && !q.AddReq? && !q.DelReq? && Callable(Last(h), q)
    ensures Extends(h, g) && |g.qs| == |h.qs| + 1 && Last(g) == Step(Last(h), q).0
    ensures Did(g, sh, a, acts + Acts(Last(h), q))
  {
    g := GoOn(h, q);
    DoneExtends(h, g, sh, a, |h.qs|);
    assert Goes(g, |h.qs|) && g.states[|h.qs|] == Last(h);
  }

  // A request of somebody else, or about somebody else.
  lemma OtherOn(h: History, sh: Pid, a: nat, acts: seq<Act>, q: Req) returns (g: History)
    requires Did(h, sh, a, acts) && q.pid != sh && Callable(Last(h), q)
    ensures Extends(h, g) && |g.qs| == |h.qs| + 1 && g.qs[|h.qs|] == q && Last(g) == Step(Last(h), q).0
    ensures Did(g, sh, a, acts)
  {
    g := GoOn(h, q);
    DoneExtends(h, g, sh, a, |h.qs|);
    assert Goes(g, |h.qs|);
  }

  lemma ExtendsFurther(f: History, g: History, h: History)
    requires Extends(f, g) && Extends(g, h)
    ensures Extends(f, h)
  {
  }

  // A close or dup of the shell.
  lemma ActOn(h: History, sh: Pid, a: nat, acts: seq<Act>, act: Act, absent: set<Pid>, n: nat) returns (g: History)
    requires Did(h, sh, a, acts) && !act.BindAct? && act.fd < MAX_FD && Stage(Last(h), sh, absent, n)
    ensures Extends(h, g) && Did(g, sh, a, acts + [act]) && Stage(Last(g), sh, absent, n)
  {
    PlainStage(Last(h), act, sh, absent, n);
    g := OwnOn(h, sh, a, acts, Request(act, sh));
  }

  // Closes and dups of the shell.
  lemma {:induction false} PlainOn(h: History, sh: Pid, a: nat, acts: seq<Act>, more: seq<Act>, absent: set<Pid>,
                                   n: nat)
    returns (g: History)
    requires Did(h, sh, a, acts) && Plain(more) && Stage(Last(h), sh, absent, n)
    ensures Extends(h, g) && Did(g, sh, a, acts + more) && Stage(Last(g), sh, absent, n)
    decreases |more|
  {
    if more == [] {
      g := h;
      assert acts + more == acts;
    } else {
      var f := ActOn(h, sh, a, acts, more[0], absent, n);
      g := PlainOn(f, sh, a, acts + [more[0]], more[1..], absent, n);
      ExtendsFurther(h, f, g);
      Regroup(acts, [more[0]], more[1..]);
      assert more == [more[0]] + more[1..];
    }
  }

  // ----- what the shell does before it spawns -----

  // JOB_PIPE calls pipe() with two descriptors free.
  lemma PipeFinds(u: S.Std, h: History, sh: Pid, s: S.Sh, a: nat)
    requires IsHistory(h) && Set(u, h, sh, s.nextin, a) && s.fd == View(h.states[a], sh)
    requires Did(h, sh, a, TakeActs(s.nextin)) && Registered(Last(h), sh)
    ensures |s.fd| == MAX_FD && 0 <= s.nextin < MAX_FD && View(Last(h), sh) == Cleared(s)
    ensures forall c: nat :: S.JobPipe(s, S.Ends(c, c)).Some? && 0 <= PipeFd(Cleared(s), c, c).2 < MAX_FD
  {
    RunView(h, sh, a, |h.qs|);
    TakeActsAre(s);
    forall c: nat ensures S.JobPipe(s, S.Ends(c, c)).Some? && 0 <= PipeFd(Cleared(s), c, c).2 < MAX_FD {
      S.JobPipeWires(u, s, S.Ends(c, c));
    }
  }

  // Up to the pipe().
  lemma TakeOn(u: S.Std, h: History, sh: Pid, s: S.Sh, absent: set<Pid>, n: nat) returns (g: History)
    requires IsHistory(h) && Set(u, h, sh, s.nextin, |h.qs|) && s.fd == View(Last(h), sh)
             && Stage(Last(h), sh, absent, n)
    ensures |s.fd| == MAX_FD && 0 <= s.nextin < MAX_FD && Extends(h, g) && Did(g, sh, |h.qs|, TakeActs(s.nextin))
    ensures Stage(Last(g), sh, absent, n) && View(Last(g), sh) == Cleared(s)
    ensures forall c: nat :: 0 <= PipeFd(Cleared(s), c, c).2 < MAX_FD
  {
    BetweenIs(u, s);
    DidNothing(h, sh);
    g := PlainOn(h, sh, |h.qs|, [], TakeActs(s.nextin), absent, n);
    assert [] + TakeActs(s.nextin) == TakeActs(s.nextin);
    PipeFinds(u, g, sh, s, |h.qs|);
  }

  // The pipe() and what comes after it.
  lemma CallOn(h: History, sh: Pid, a: nat, acts: seq<Act>, absent: set<Pid>, n: nat) returns (g: History, c: int)
    requires Did(h, sh, a, acts) && Stage(Last(h), sh, absent, n) && 0 < n
    requires forall c: nat :: 0 <= PipeFd(View(Last(h), sh), c, c).2
    ensures Extends(h, g) && 0 <= c && Did(g, sh, a, acts + [BindAct(c), BindAct(c)])
            && Stage(Last(g), sh, absent, n - 1)
  {
    c := PipeStage(Last(h), sh, absent, n);
    g := OwnOn(h, sh, a, acts, PipeReq(sh));
  }

  lemma PipeOn(u: S.Std, h: History, sh: Pid, s: S.Sh, absent: set<Pid>, n: nat) returns (g: History, c: int)
    requires IsHistory(h) && Set(u, h, sh, s.nextin, |h.qs|) && s.fd == View(Last(h), sh)
    requires Stage(Last(h), sh, absent, n) && 0 < n
    ensures |s.fd| == MAX_FD && 0 <= s.nextin < MAX_FD
    ensures Extends(h, g) && 0 <= c && Did(g, sh, |h.qs|, Before(s, true, c)) && Stage(Last(g), sh, absent, n - 1)
  {
    var e := TakeOn(u, h, sh, s, absent, n);
    var f;
    f, c := CallOn(e, sh, |h.qs|, TakeActs(s.nextin), absent, n);
    var fdo := PipeFd(Cleared(s), c, c).2;
    g := OutOn(f, sh, |h.qs|, TakeActs(s.nextin) + [BindAct(c), BindAct(c)], fdo, absent, n - 1);
    ExtendsFurther(h, e, f);
    ExtendsFurther(h, f, g);
  }

  lemma OutOn(h: History, sh: Pid, a: nat, acts: seq<Act>, fdo: int, absent: set<Pid>, n: nat) returns (g: History)
    requires Did(h, sh, a, acts) && fdo < MAX_FD && Stage(Last(h), sh, absent, n)
    ensures Extends(h, g) && Did(g, sh, a, acts + (Redirect(S.STDOUT, fdo) + [CloseAct(fdo)]))
            && Stage(Last(g), sh, absent, n)
  {
    g := PlainOn(h, sh, a, acts, Redirect(S.STDOUT, fdo) + [CloseAct(fdo)], absent, n);
  }

  lemma NoPipeOn(u: S.Std, h: History, sh: Pid, s: S.Sh, absent: set<Pid>, n: nat) returns (g: History)
    requires IsHistory(h) && Set(u, h, sh, s.nextin, |h.qs|) && s.fd == View(Last(h), sh)
    requires Stage(Last(h), sh, absent, n)
    ensures |s.fd| == MAX_FD && 0 <= s.nextin < MAX_FD
    ensures Extends(h, g) && Did(g, sh, |h.qs|, Before(s, false, CLOSED)) && Stage(Last(g), sh, absent, n)
  {
    BetweenIs(u, s);
    DidNothing(h, sh);
    g := PlainOn(h, sh, |h.qs|, [], PlainActs(s.nextin), absent, n);
    assert [] + PlainActs(s.nextin) == PlainActs(s.nextin);
  }

  // ----- the spawned tasks -----

  // The shell waits for the task that it has spawned: that one exits, having
  // started the job, before the shell does anything more.
  ghost predicate Waits(h: History, sh: Pid, job: Job, b: nat) {
    exists d :: ExitsAt(h, sh, job, b, d)
  }

  ghost predicate ExitsAt(h: History, sh: Pid, job: Job, b: nat, d: nat) {
    && job.start < d < b <= |h.qs| && h.qs[d] == DelReq(job.kid)
    && forall i | job.fork < i < d :: h.qs[i].pid != sh
  }

  lemma DirectOn(h: History, sh: Pid, task: Pid, absent: set<Pid>, n: nat) returns (g: History, job: Job)
    requires IsHistory(h) && Stage(Last(h), sh, absent, n) && sh != NULL_PID && !Registered(Last(h), task)
    ensures Extends(h, g) && job == Job(|h.qs|, task, |h.qs|, task) && |g.qs| == |h.qs| + 2
    ensures Did(g, sh, |h.qs| + 1, []) && Launches(g, sh, true, job, |g.qs|) && ExitsAt(g, sh, job, |g.qs|, |h.qs| + 1)
    ensures Stage(Last(g), sh, absent, n)
  {
    job := Job(|h.qs|, task, |h.qs|, task);
    DirectStage(Last(h), sh, task, absent, n);
    var f := GoOn(h, AddReq(task, sh));
    DidNothing(f, sh);
    g := OtherOn(f, sh, |f.qs|, [], DelReq(task));
    ExtendsFurther(h, f, g);
    assert g.qs[|h.qs|] == f.qs[|h.qs|] && g.states[|h.qs|] == Last(h);
  }

  // Three requests that are not the shell's.
  lemma ThreeOn(h: History, sh: Pid, q: Req, r: Req, d: Req) returns (g: History)
    requires IsHistory(h) && Inv(Last(h)) && Callable(Last(h), q) && r.pid != sh && d.pid != sh
    requires var t1 := Step(Last(h), q).0;
             Inv(t1) && Callable(t1, r) && var t2 := Step(t1, r).0; Inv(t2) && Callable(t2, d)
    ensures Extends(h, g) && |g.qs| == |h.qs| + 3 && Did(g, sh, |h.qs| + 1, [])
    ensures var n := |h.qs|;
            && g.qs[n] == q && g.qs[n + 1] == r && g.qs[n + 2] == d
            && g.states[n] == Last(h) && g.states[n + 1] == Step(Last(h), q).0
            && Last(g) == Step(Step(Step(Last(h), q).0, r).0, d).0
  {
    var e := GoOn(h, q);
    DidNothing(e, sh);
    var f := OtherOn(e, sh, |e.qs|, [], r);
    g := OtherOn(f, sh, |e.qs|, [], d);
  }

  lemma LaunchReady(s: Sys, sh: Pid, launcher: Pid, task: Pid, absent: set<Pid>, n: nat)
    returns (t1: Sys, t2: Sys, t3: Sys)
    requires Stage(s, sh, absent, n) && sh != NULL_PID && launcher != NULL_PID && launcher in absent
    requires task !in absent && !Registered(s, task)
    ensures t1 == Step(s, AddReq(launcher, sh)).0 && Inv(t1) && !Registered(t1, task)
    ensures t2 == Step(t1, AddReq(task, launcher)).0 && Inv(t2)
    ensures t3 == Step(t2, DelReq(launcher)).0 && Stage(t3, sh, absent, n)
  {
    LaunchStage(s, sh, launcher, task, absent, n);
    t1 := Step(s, AddReq(launcher, sh)).0;
    t2 := Step(t1, AddReq(task, launcher)).0;
    t3 := Step(t2, DelReq(launcher)).0;
  }

  // Three requests in a row start a job.
  lemma Launched(g: History, sh: Pid, launcher: Pid, task: Pid, at: nat)
    requires at + 3 == |g.qs| < |g.states| && sh != NULL_PID && launcher != NULL_PID && launcher != sh
             && task != sh && task != launcher
    requires g.qs[at] == AddReq(launcher, sh) && g.qs[at + 1] == AddReq(task, launcher)
             && g.qs[at + 2] == DelReq(launcher)
    requires !Registered(g.states[at], launcher) && !Registered(g.states[at + 1], task)
    ensures var job := Job(at, launcher, at + 1, task);
            Launches(g, sh, false, job, at + 3) && ExitsAt(g, sh, job, at + 3, at + 2)
  {
  }

  lemma LaunchOn(h: History, sh: Pid, launcher: Pid, task: Pid, absent: set<Pid>, n: nat) returns (g: History, job: Job)
    requires IsHistory(h) && Stage(Last(h), sh, absent, n) && sh != NULL_PID && launcher != NULL_PID
             && launcher in absent
    requires task !in absent && !Registered(Last(h), task)
    ensures Extends(h, g) && job == Job(|h.qs|, launcher, |h.qs| + 1, task) && |g.qs| == |h.qs| + 3
    ensures Did(g, sh, |h.qs| + 1, []) && Launches(g, sh, false, job, |g.qs|) && ExitsAt(g, sh, job, |g.qs|, |h.qs| + 2)
    ensures Stage(Last(g), sh, absent, n)
  {
    job := Job(|h.qs|, launcher, |h.qs| + 1, task);
    var t1, t2, t3 := LaunchReady(Last(h), sh, launcher, task, absent, n);
    g := ThreeOn(h, sh, AddReq(launcher, sh), AddReq(task, launcher), DelReq(launcher));
    Launched(g, sh, launcher, task, |h.qs|);
  }

  // ----- a job -----

  lemma LaunchesLater(e: History, g: History, sh: Pid, direct: bool, job: Job, a: nat, b: nat)
    requires Extends(e, g) && Launches(e, sh, direct, job, a) && a <= |e.qs| && a <= b
    ensures Launches(g, sh, direct, job, b)
  {
  }

  // The three parts of a job put together.
  lemma Assembled(f: History, e: History, g: History, sh: Pid, s: S.Sh, piped: bool, direct: bool, c: int, job: Job,
                  a: nat)
    requires IsHistory(f) && IsHistory(e) && IsHistory(g) && Extends(f, e) && Extends(e, g)
    requires a <= |f.qs| < |e.qs| && s.nextin < MAX_FD && job.fork == |f.qs|
    requires Shape(f.states[a]) && Registered(f.states[a], sh) && s.fd == View(f.states[a], sh)
    requires Did(f, sh, a, Before(s, piped, c)) && Launches(e, sh, direct, job, |e.qs|)
    requires Did(g, sh, |f.qs| + 1, After(piped))
    ensures Turns(g, sh, s.nextin, piped, direct, c, job, a, |g.qs|)
  {
    ExtendsFurther(f, e, g);
    DoneExtends(f, g, sh, a, |f.qs|);
    LaunchesLater(e, g, sh, direct, job, |e.qs|, |g.qs|);
  }

  // What the shell does before it spawns.
  lemma PrepareOn(u: S.Std, h: History, sh: Pid, s: S.Sh, piped: bool, absent: set<Pid>, n: nat)
    returns (g: History, c: int)
    requires IsHistory(h) && Set(u, h, sh, s.nextin, |h.qs|) && s.fd == View(Last(h), sh)
    requires Stage(Last(h), sh, absent, n) && (piped ==> 0 < n)
    ensures |s.fd| == MAX_FD && 0 <= s.nextin < MAX_FD && Extends(h, g) && (piped ==> 0 <= c)
    ensures Did(g, sh, |h.qs|, Before(s, piped, c)) && Stage(Last(g), sh, absent, if piped then n - 1 else n)
  {
    if piped {
      g, c := PipeOn(u, h, sh, s, absent, n);
    } else {
      c := CLOSED;
      g := NoPipeOn(u, h, sh, s, absent, n);
    }
  }

  // The tasks of the job come and, the one that the shell waits for, go.
  lemma TasksOn(h: History, sh: Pid, direct: bool, launcher: Pid, task: Pid, absent: set<Pid>, n: nat)
    returns (g: History, job: Job)
    requires IsHistory(h) && Stage(Last(h), sh, absent, n) && sh != NULL_PID && launcher != NULL_PID
             && launcher in absent
    requires task !in absent && !Registered(Last(h), task)
    ensures Extends(h, g) && |h.qs| < |g.qs| && job.fork == |h.qs| && job.task == task
    ensures Did(g, sh, |h.qs| + 1, []) && Launches(g, sh, direct, job, |g.qs|)
            && ExitsAt(g, sh, job, |g.qs|, |g.qs| - 1)
    ensures IsHistory(g) && Stage(Last(g), sh, absent, n)
  {
    if direct {
      g, job := DirectOn(h, sh, task, absent, n);
    } else {
      g, job := LaunchOn(h, sh, launcher, task, absent, n);
    }
  }

  // What the shell does after it has waited.
  lemma RestoreOn(h: History, sh: Pid, a: nat, piped: bool, absent: set<Pid>, n: nat) returns (g: History)
    requires Did(h, sh, a, []) && Stage(Last(h), sh, absent, n)
    ensures Extends(h, g) && Did(g, sh, a, After(piped)) && Stage(Last(g), sh, absent, n)
  {
    if piped {
      g := h;
    } else {
      g := PlainOn(h, sh, a, [], InitActs(), absent, n);
      assert [] + InitActs() == InitActs();
    }
  }

  lemma ExitsLater(e: History, g: History, sh: Pid, job: Job, d: nat)
    requires Extends(e, g) && ExitsAt(e, sh, job, |e.qs|, d)
    ensures Waits(g, sh, job, |g.qs|)
  {
    assert ExitsAt(g, sh, job, |g.qs|, d);
  }

  lemma LessAbsent(s: Sys, sh: Pid, absent: set<Pid>, task: Pid, n: nat)
    requires Stage(s, sh, absent + {task}, n)
    ensures Stage(s, sh, absent, n) && !Registered(s, task)
  {
    assert task in absent + {task};
  }

  lemma RestOn(e: History, sh: Pid, job: Job, a: nat, d: nat, piped: bool, absent: set<Pid>, n: nat)
    returns (g: History)
    requires Did(e, sh, a, []) && Stage(Last(e), sh, absent, n) && ExitsAt(e, sh, job, |e.qs|, d)
    ensures Extends(e, g) && Did(g, sh, a, After(piped)) && Stage(Last(g), sh, absent, n) && Waits(g, sh, job, |g.qs|)
  {
    g := RestoreOn(e, sh, a, piped, absent, n);
    ExitsLater(e, g, sh, job, d);
  }

  // What follows when the shell has prepared a job.
  lemma SpawnOn(f: History, sh: Pid, piped: bool, direct: bool, launcher: Pid, task: Pid, absent: set<Pid>, n: nat)
    returns (e: History, g: History, job: Job)
    requires IsHistory(f) && Stage(Last(f), sh, absent + {task}, n)
    requires sh != NULL_PID && launcher != NULL_PID && launcher in absent && task !in absent
    ensures IsHistory(e) && Extends(f, e) && Extends(e, g) && |f.qs| < |e.qs| && job.fork == |f.qs| && job.task == task
    ensures Launches(e, sh, direct, job, |e.qs|) && Did(g, sh, |f.qs| + 1, After(piped)) && Waits(g, sh, job, |g.qs|)
    ensures Stage(Last(g), sh, absent, n)
  {
    LessAbsent(Last(f), sh, absent, task, n);
    e, job := TasksOn(f, sh, direct, launcher, task, absent, n);
    g := RestOn(e, sh, job, |f.qs| + 1, |e.qs| - 1, piped, absent, n);
  }

  lemma StillPrepared(h: History, f: History, sh: Pid, s: S.Sh)
    requires IsHistory(h) && Extends(h, f) && Shape(Last(h)) && Registered(Last(h), sh) && s.fd == View(Last(h), sh)
    ensures Shape(f.states[|h.qs|]) && Registered(f.states[|h.qs|], sh) && s.fd == View(f.states[|h.qs|], sh)
  {
  }

  /** A shell that is ready can start its next job and go on, its spawned task
      exiting in between; a job with a pipe needs room for one. */
  lemma JobCanStart(u: S.Std, h: History, sh: Pid, s: S.Sh, piped: bool, direct: bool, launcher: Pid, task: Pid,
                    absent: set<Pid>, n: nat)
    returns (g: History, c: int, job: Job)
    requires IsHistory(h) && Set(u, h, sh, s.nextin, |h.qs|) && s.fd == View(Last(h), sh) && (piped ==> 0 < n)
    requires sh != NULL_PID && launcher != NULL_PID && launcher in absent && task !in absent
    requires Stage(Last(h), sh, absent + {task}, n)
    ensures Extends(h, g) && IsHistory(g) && (piped ==> 0 <= c) && job.task == task
    ensures Turns(g, sh, s.nextin, piped, direct, c, job, |h.qs|, |g.qs|) && Waits(g, sh, job, |g.qs|)
    ensures Stage(Last(g), sh, absent, if piped then n - 1 else n)
  {
    var f, e;
    f, c := PrepareOn(u, h, sh, s, piped, absent + {task}, n);
    e, g, job := SpawnOn(f, sh, piped, direct, launcher, task, absent, if piped then n - 1 else n);
    StillPrepared(h, f, sh, s);
    Assembled(f, e, g, sh, s, piped, direct, c, job, |h.qs|);
    ExtendsFurther(h, f, e);
    ExtendsFurther(h, e, g);
  }

  // ----- a line -----

  function Pipes(seps: seq<S.Sep>): nat {
    if seps == [] then 0 else (if seps[0] == S.Pipe then 1 else 0) + Pipes(seps[1..])
  }

  // The tasks that a line will need.
  ghost function Pids(launcher: Pid, tasks: seq<Pid>): set<Pid> {
    {launcher} + set p | p in tasks
  }

  lemma PidsFirst(launcher: Pid, tasks: seq<Pid>)
    requires tasks != [] && launcher !in tasks && forall i, j | 0 <= i < j < |tasks| :: tasks[i] != tasks[j]
    ensures Pids(launcher, tasks) == Pids(launcher, tasks[1..]) + {tasks[0]}
    ensures tasks[0] !in Pids(launcher, tasks[1..]) && launcher in Pids(launcher, tasks[1..])
  {
    assert tasks == [tasks[0]] + tasks[1..];
  }

  lemma SameTurns(h: History, g: History, sh: Pid, nextin: int, piped: bool, direct: bool, c: int, job: Job, a: nat,
                  b: nat)
    requires IsHistory(h) && IsHistory(g) && Extends(h, g) && Turns(h, sh, nextin, piped, direct, c, job, a, b)
    requires LastsFrom(g, sh, a, job.fork) && Done(g, sh, a, job.fork) == Done(h, sh, a, job.fork)
    requires LastsFrom(g, sh, job.fork + 1, b) && Done(g, sh, job.fork + 1, b) == Done(h, sh, job.fork + 1, b)
    requires Launches(g, sh, direct, job, b)
    ensures Turns(g, sh, nextin, piped, direct, c, job, a, b)
  {
  }

  // What was played stays played as the history goes on.
  lemma TurnsLater(h: History, g: History, sh: Pid, nextin: int, piped: bool, direct: bool, c: int, job: Job, a: nat,
                   b: nat)
    requires IsHistory(h) && IsHistory(g) && Extends(h, g) && Turns(h, sh, nextin, piped, direct, c, job, a, b)
    ensures Turns(g, sh, nextin, piped, direct, c, job, a, b)
  {
    DoneExtends(h, g, sh, a, job.fork);
    DoneExtends(h, g, sh, job.fork + 1, b);
    LaunchesLater(h, g, sh, direct, job, b, b);
    SameTurns(h, g, sh, nextin, piped, direct, c, job, a, b);
  }

  // The line with one more job in front.
  function InFront(l: Line, sep: S.Sep, c: int, job: Job, mark: nat, nextin: int): Line {
    Line([sep] + l.seps, [c] + l.codes, [job] + l.jobs, [mark] + l.marks, [nextin] + l.nextins)
  }

  lemma InFrontAt(l: Line, sep: S.Sep, c: int, job: Job, mark: nat, nextin: int, k: nat)
    requires IsLine(l) && k <= |l.seps|
    ensures var m := InFront(l, sep, c, job, mark, nextin);
            && IsLine(m) && |m.seps| == |l.seps| + 1 && m.codes[k + 1] == l.codes[k] && m.jobs[k + 1] == l.jobs[k]
            && m.marks[k + 1] == l.marks[k] && m.marks[k + 2] == l.marks[k + 1]
            && m.nextins[k + 1] == l.nextins[k] && m.nextins[k + 2] == l.nextins[k + 1]
            && Piped(m, k + 1) == Piped(l, k) && Direct(m, k + 1) == Direct(l, k)
  {
  }

  lemma RestPlays(g: History, sh: Pid, l: Line, sep: S.Sep, c: int, job: Job, mark: nat, nextin: int, k: nat)
    requires IsHistory(g) && IsLine(l) && k <= |l.seps| && PlaysJob(g, sh, l, k)
    ensures PlaysJob(g, sh, InFront(l, sep, c, job, mark, nextin), k + 1)
  {
    InFrontAt(l, sep, c, job, mark, nextin, k);
  }

  lemma FirstPlays(g: History, sh: Pid, l: Line, sep: S.Sep, c: int, job: Job, mark: nat, nextin: int)
    requires IsHistory(g) && IsLine(l) && (sep == S.Pipe ==> 0 <= c)
    requires Turns(g, sh, nextin, sep == S.Pipe, sep == S.Sequence, c, job, mark, l.marks[0])
    requires l.nextins[0] == NextIn(S.Sh(View(g.states[mark], sh), nextin), sep == S.Pipe, c)
    ensures PlaysJob(g, sh, InFront(l, sep, c, job, mark, nextin), 0)
  {
    var m := InFront(l, sep, c, job, mark, nextin);
    assert Piped(m, 0) == (sep == S.Pipe) && Direct(m, 0) == (sep == S.Sequence);
  }

  lemma FrontPlays(g: History, sh: Pid, l: Line, sep: S.Sep, c: int, job: Job, mark: nat, nextin: int)
    requires Plays(g, sh, l) && (sep == S.Pipe ==> 0 <= c)
    requires Turns(g, sh, nextin, sep == S.Pipe, sep == S.Sequence, c, job, mark, l.marks[0])
    requires l.nextins[0] == NextIn(S.Sh(View(g.states[mark], sh), nextin), sep == S.Pipe, c)
    ensures Plays(g, sh, InFront(l, sep, c, job, mark, nextin))
  {
    var m := InFront(l, sep, c, job, mark, nextin);
    forall k: nat | k <= |m.seps| ensures PlaysJob(g, sh, m, k) {
      if k > 0 {
        assert PlaysJob(g, sh, l, k - 1);
        RestPlays(g, sh, l, sep, c, job, mark, nextin, k - 1);
      } else {
        FirstPlays(g, sh, l, sep, c, job, mark, nextin);
      }
    }
  }

  // Every job's spawned task exits while the shell waits for it.
  ghost predicate AllWait(h: History, sh: Pid, l: Line) {
    IsLine(l) && forall k: nat | k <= |l.seps| :: Waits(h, sh, l.jobs[k], l.marks[k + 1])
  }

  lemma FrontWaits(g: History, sh: Pid, l: Line, sep: S.Sep, c: int, job: Job, mark: nat, nextin: int)
    requires AllWait(g, sh, l) && Waits(g, sh, job, l.marks[0])
    ensures AllWait(g, sh, InFront(l, sep, c, job, mark, nextin))
  {
    var m := InFront(l, sep, c, job, mark, nextin);
    forall k: nat | k <= |m.seps| ensures Waits(g, sh, m.jobs[k], m.marks[k + 1]) {
      if k > 0 {
        InFrontAt(l, sep, c, job, mark, nextin, k - 1);
        assert Waits(g, sh, l.jobs[k - 1], l.marks[k]);
      }
    }
  }

  lemma WaitsLater(h: History, g: History, sh: Pid, job: Job, b: nat)
    requires Extends(h, g) && Waits(h, sh, job, b)
    ensures Waits(g, sh, job, b)
  {
    var d :| ExitsAt(h, sh, job, b, d);
    assert ExitsAt(g, sh, job, b, d);
  }

  ghost predicate Runs(l: Line, tasks: seq<Pid>) {
    |l.jobs| == |tasks| && forall k | 0 <= k < |tasks| :: l.jobs[k].task == tasks[k]
  }

  lemma LastJobPlays(u: S.Std, h: History, sh: Pid, s: S.Sh, launcher: Pid, task: Pid) returns (g: History, l: Line)
    requires IsHistory(h) && Set(u, h, sh, s.nextin, |h.qs|) && s.fd == View(Last(h), sh)
    requires sh != NULL_PID && launcher != NULL_PID && launcher != task && Stage(Last(h), sh, {launcher} + {task}, 0)
    ensures Extends(h, g) && Plays(g, sh, l) && AllWait(g, sh, l)
    ensures l.seps == [] && Runs(l, [task]) && l.marks[0] == |h.qs| && l.nextins[0] == s.nextin
  {
    var c, job;
    g, c, job := JobCanStart(u, h, sh, s, false, true, launcher, task, {launcher}, 0);
    StillPrepared(h, g, sh, s);
    l := Line([], [c], [job], [|h.qs|, |g.qs|], [s.nextin, NextIn(s, false, c)]);
    assert PlaysJob(g, sh, l, 0);
  }

  // The first of several jobs, and where it leaves the shell.
  lemma FirstJobOn(u: S.Std, h: History, sh: Pid, s: S.Sh, sep: S.Sep, launcher: Pid, task: Pid, absent: set<Pid>,
                   n: nat)
    returns (g: History, c: int, job: Job, s': S.Sh)
    requires IsHistory(h) && Set(u, h, sh, s.nextin, |h.qs|) && s.fd == View(Last(h), sh) && (sep == S.Pipe ==> 0 < n)
    requires sh != NULL_PID && launcher != NULL_PID && launcher in absent && task !in absent
    requires Stage(Last(h), sh, absent + {task}, n)
    ensures Extends(h, g) && IsHistory(g) && (sep == S.Pipe ==> 0 <= c) && job.task == task
    ensures Turns(g, sh, s.nextin, sep == S.Pipe, sep == S.Sequence, c, job, |h.qs|, |g.qs|)
            && Waits(g, sh, job, |g.qs|)
    ensures Stage(Last(g), sh, absent, if sep == S.Pipe then n - 1 else n)
    ensures |s.fd| == MAX_FD && s.nextin < MAX_FD && s'.nextin == NextIn(s, sep == S.Pipe, c)
    ensures Set(u, g, sh, s'.nextin, |g.qs|) && s'.fd == View(Last(g), sh)
  {
    var piped := sep == S.Pipe;
    g, c, job := JobCanStart(u, h, sh, s, piped, sep == S.Sequence, launcher, task, absent, n);
    StillPrepared(h, g, sh, s);
    JobWires(u, g, sh, s, piped, sep == S.Sequence, c, job, |h.qs|, |g.qs|);
    s' := S.Sh(View(Last(g), sh), NextIn(s, piped, c));
  }

  lemma JoinJobs(h: History, f: History, g: History, sh: Pid, s: S.Sh, rest: Line, sep: S.Sep, c: int, job: Job)
    requires IsHistory(h) && IsHistory(f) && Extends(h, f) && Extends(f, g) && Plays(g, sh, rest)
             && AllWait(g, sh, rest)
    requires Shape(Last(h)) && Registered(Last(h), sh) && s.fd == View(Last(h), sh) && |s.fd| == MAX_FD
             && s.nextin < MAX_FD
    requires Turns(f, sh, s.nextin, sep == S.Pipe, sep == S.Sequence, c, job, |h.qs|, |f.qs|)
             && Waits(f, sh, job, |f.qs|)
    requires (sep == S.Pipe ==> 0 <= c) && rest.marks[0] == |f.qs| && rest.nextins[0] == NextIn(s, sep == S.Pipe, c)
    ensures Extends(h, g)
    ensures var l := InFront(rest, sep, c, job, |h.qs|, s.nextin);
            Plays(g, sh, l) && AllWait(g, sh, l)
  {
    ExtendsFurther(h, f, g);
    TurnsLater(f, g, sh, s.nextin, sep == S.Pipe, sep == S.Sequence, c, job, |h.qs|, |f.qs|);
    WaitsLater(f, g, sh, job, |f.qs|);
    StillPrepared(h, g, sh, s);
    FrontPlays(g, sh, rest, sep, c, job, |h.qs|, s.nextin);
    FrontWaits(g, sh, rest, sep, c, job, |h.qs|, s.nextin);
  }

  // Tasks for a line: all different, and none of them the launcher.
  ghost predicate Fresh(launcher: Pid, tasks: seq<Pid>, seps: seq<S.Sep>) {
    && launcher != NULL_PID && launcher !in tasks && |tasks| == |seps| + 1
    && forall i, j | 0 <= i < j < |tasks| :: tasks[i] != tasks[j]
  }

  lemma FreshRest(launcher: Pid, tasks: seq<Pid>, seps: seq<S.Sep>)
    requires Fresh(launcher, tasks, seps)
    ensures Pids(launcher, tasks) == Pids(launcher, tasks[1..]) + {tasks[0]}
    ensures tasks[0] !in Pids(launcher, tasks[1..]) && launcher in Pids(launcher, tasks[1..])
    ensures seps != [] ==> Fresh(launcher, tasks[1..], seps[1..])
    ensures seps == [] ==> tasks == [tasks[0]] && launcher != tasks[0]
    ensures seps == [] ==> Pids(launcher, tasks) == {launcher} + {tasks[0]}
  {
    PidsFirst(launcher, tasks);
  }

  // How a first job ends: the state of the shell after it.
  ghost predicate Begun(u: S.Std, h: History, g: History, sh: Pid, s: S.Sh, sep: S.Sep, c: int, job: Job, s': S.Sh)
    requires |s.fd| == MAX_FD && s.nextin < MAX_FD
  {
    && IsHistory(h) && Extends(h, g) && IsHistory(g) && (sep == S.Pipe ==> 0 <= c)
    && Turns(g, sh, s.nextin, sep == S.Pipe, sep == S.Sequence, c, job, |h.qs|, |g.qs|) && Waits(g, sh, job, |g.qs|)
    && s'.nextin == NextIn(s, sep == S.Pipe, c)
  }

  // The first job of such a line.
  lemma LineBegins(u: S.Std, h: History, sh: Pid, s: S.Sh, seps: seq<S.Sep>, launcher: Pid, task: Pid, absent: set<Pid>)
    returns (g: History, c: int, job: Job, s': S.Sh)
    requires IsHistory(h) && Set(u, h, sh, s.nextin, |h.qs|) && s.fd == View(Last(h), sh) && seps != []
    requires sh != NULL_PID && launcher != NULL_PID && launcher in absent && task !in absent
    requires Stage(Last(h), sh, absent + {task}, Pipes(seps))
    ensures |s.fd| == MAX_FD && s.nextin < MAX_FD && Begun(u, h, g, sh, s, seps[0], c, job, s') && job.task == task
    ensures Stage(Last(g), sh, absent, Pipes(seps[1..])) && IsHistory(g)
    ensures Set(u, g, sh, s'.nextin, |g.qs|) && s'.fd == View(Last(g), sh)
  {
    g, c, job, s' := FirstJobOn(u, h, sh, s, seps[0], launcher, task, absent, Pipes(seps));
  }

  lemma FrontRuns(rest: Line, sep: S.Sep, c: int, job: Job, mark: nat, nextin: int, tasks: seq<Pid>)
    requires tasks != [] && Runs(rest, tasks[1..]) && job.task == tasks[0]
    ensures Runs(InFront(rest, sep, c, job, mark, nextin), tasks)
  {
    assert forall k | 1 <= k < |tasks| :: tasks[k] == tasks[1..][k - 1];
  }

  // What it is for a run to play a line.
  ghost predicate PlayedFrom(h: History, g: History, sh: Pid, s: S.Sh, seps: seq<S.Sep>, tasks: seq<Pid>, l: Line) {
    && Extends(h, g) && Plays(g, sh, l) && AllWait(g, sh, l)
    && l.seps == seps && Runs(l, tasks) && l.marks[0] == |h.qs| && l.nextins[0] == s.nextin
  }

  lemma JoinedIs(h: History, f: History, g: History, sh: Pid, s: S.Sh, s': S.Sh, seps: seq<S.Sep>, tasks: seq<Pid>,
                 rest: Line, c: int, job: Job)
    requires seps != [] && tasks != [] && job.task == tasks[0] && PlayedFrom(f, g, sh, s', seps[1..], tasks[1..], rest)
    requires var l := InFront(rest, seps[0], c, job, |h.qs|, s.nextin);
             Extends(h, g) && Plays(g, sh, l) && AllWait(g, sh, l)
    ensures PlayedFrom(h, g, sh, s, seps, tasks, InFront(rest, seps[0], c, job, |h.qs|, s.nextin))
  {
    FrontRuns(rest, seps[0], c, job, |h.qs|, s.nextin, tasks);
  }

  lemma LineJoined(u: S.Std, h: History, f: History, g: History, sh: Pid, s: S.Sh, s': S.Sh, seps: seq<S.Sep>,
                   tasks: seq<Pid>, rest: Line, c: int, job: Job)
    requires |s.fd| == MAX_FD && s.nextin < MAX_FD && seps != [] && tasks != [] && job.task == tasks[0]
    requires IsHistory(h) && Shape(Last(h)) && Registered(Last(h), sh) && s.fd == View(Last(h), sh)
    requires Begun(u, h, f, sh, s, seps[0], c, job, s') && PlayedFrom(f, g, sh, s', seps[1..], tasks[1..], rest)
    ensures PlayedFrom(h, g, sh, s, seps, tasks, InFront(rest, seps[0], c, job, |h.qs|, s.nextin))
  {
    JoinJobs(h, f, g, sh, s, rest, seps[0], c, job);
    JoinedIs(h, f, g, sh, s, s', seps, tasks, rest, c, job);
  }

  /** Any command line can be played, from any good state in which the shell is
      ready and there is room for the line's pipes: there is a run that does so,
      in which each spawned task exits while the shell waits for it. */
  lemma {:induction false} LineCanBePlayed(u: S.Std, h: History, sh: Pid, s: S.Sh, seps: seq<S.Sep>, launcher: Pid,
                                           tasks: seq<Pid>)
    returns (g: History, l: Line)
    requires IsHistory(h) && Set(u, h, sh, s.nextin, |h.qs|) && s.fd == View(Last(h), sh)
    requires sh != NULL_PID && Fresh(launcher, tasks, seps) && Stage(Last(h), sh, Pids(launcher, tasks), Pipes(seps))
    ensures PlayedFrom(h, g, sh, s, seps, tasks, l)
    decreases |seps|
  {
    FreshRest(launcher, tasks, seps);
    if seps == [] {
      g, l := LastJobPlays(u, h, sh, s, launcher, tasks[0]);
    } else {
      var f, c, job, s' := LineBegins(u, h, sh, s, seps, launcher, tasks[0], Pids(launcher, tasks[1..]));
      var rest;
      g, rest := LineCanBePlayed(u, f, sh, s', seps[1..], launcher, tasks[1..]);
      LineJoined(u, h, f, g, sh, s, s', seps, tasks, rest, c, job);
      l := InFront(rest, seps[0], c, job, |h.qs|, s.nextin);
    }
  }
}
