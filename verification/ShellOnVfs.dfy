// A command line of the shell as requests to the VFS, with the requests of any
// other clients, the jobs among them, falling in between.
module ShellOnVfs {
  import opened Common
  import opened FdTable
  import opened VfsSpec
  import opened VfsInvariant
  import opened VfsRun
  import opened VfsHistory
  import opened VfsViews
  import U = VfsUndo
  import K = VfsParked
  import S = ShellSpec

  // ----- a job starts with what the shell sees -----

  /** A new child sees what its parent sees. */
  lemma ForkView(s: Sys, kid: Pid, parent: Pid)
    requires Inv(s) && parent != NULL_PID && Registered(s, parent) && !Registered(s, kid)
    ensures var t := AddTask(s, kid, parent).sys;
            && Inv(t) && Registered(t, kid) && Registered(t, parent)
            && View(t, kid) == View(s, parent) && View(t, parent) == View(s, parent)
  {
    var t := AddTask(s, kid, parent).sys;
    AddTaskInv(s, kid, parent);
    U.ForkInherits(s, kid, parent);
    K.AddTaskNames(s, kid, parent);
    FirstIs(t.tasks, kid, |s.tasks|);
    FirstIs(t.tasks, parent, FindTask(s.tasks, parent));
  }

  // ----- a client that leaves its standard descriptors alone -----

  predicate Careful(a: Act) {
    a.CloseAct? ==> a.fd < 0 || S.STDMAX <= a.fd
  }

  // Client p is not registered or removed and closes none of its three
  // standard descriptors.
  predicate Minds(q: Req, p: Pid) {
    q.pid == p ==> !q.AddReq? && !q.DelReq? && (q.CloseReq? ==> q.fd < 0 || S.STDMAX <= q.fd)
  }

  // The same between moments a and b.
  ghost predicate MindsFrom(h: History, p: Pid, a: nat, b: nat) {
    b <= |h.qs| && forall i | a <= i < b :: Minds(h.qs[i], p)
  }

  // Client p sees `std` as its standard input, output and error.
  ghost predicate Sees(s: Sys, p: Pid, std: Table) {
    && Shape(s) && Registered(s, p) && |std| == S.STDMAX
    && forall i | 0 <= i < S.STDMAX :: 0 <= std[i] == View(s, p)[i]
  }

  lemma {:induction false} CarefulKeeps(t: Table, acts: seq<Act>, i: nat)
    requires |t| == MAX_FD && Doable(acts) && i < S.STDMAX && 0 <= t[i]
    requires forall j | 0 <= j < |acts| :: Careful(acts[j])
    ensures DoAll(t, acts)[i] == t[i]
    decreases |acts|
  {
    if acts != [] {
      assert Careful(acts[0]);
      CarefulKeeps(Do(t, acts[0]), acts[1..], i);
    }
  }

  lemma SeesStep(s: Sys, q: Req, p: Pid, std: Table)
    requires Inv(s) && Callable(s, q) && Minds(q, p) && Sees(s, p, std)
    ensures Sees(Step(s, q).0, p, std)
  {
    if q.pid == p {
      OwnView(s, q);
      forall i: nat | i < S.STDMAX ensures DoAll(View(s, p), Acts(s, q))[i] == View(s, p)[i] {
        CarefulKeeps(View(s, p), Acts(s, q), i);
      }
    } else {
      OthersKeepView(s, q, p);
    }
  }

  lemma {:induction false} SeesFrom(h: History, p: Pid, std: Table, a: nat, b: nat)
    requires IsHistory(h) && a <= b && MindsFrom(h, p, a, b) && Sees(h.states[a], p, std)
    ensures Sees(h.states[b], p, std)
    decreases b - a
  {
    if a < b {
      SeesFrom(h, p, std, a, b - 1);
      assert Goes(h, b - 1) && Minds(h.qs[b - 1], p);
      SeesStep(h.states[b - 1], h.qs[b - 1], p, std);
    }
  }

  // ----- what the shell does for one job -----

  // JOB_PIPE up to its pipe().
  function Cleared(s: S.Sh): Table
    requires |s.fd| == MAX_FD && s.nextin < MAX_FD
  {
    S.Close(S.Dup(S.Close(s, S.STDIN), s.nextin), 5).fd
  }

  // Descriptor `fd` becomes a copy of `from`, if it is the lowest one closed.
  function Redirect(fd: nat, from: int): seq<Act> {
    [CloseAct(fd), DupAct(from)]
  }

  // What both kinds of job begin with.
  function TakeActs(nextin: int): seq<Act> {
    Redirect(S.STDIN, nextin) + [CloseAct(5)]
  }

  // JOB_PIPE, whose pipe() gets inode c and returns the write end `fdo`.
  function PipeActs(nextin: int, fdo: int, c: int): seq<Act> {
    TakeActs(nextin) + [BindAct(c), BindAct(c)] + (Redirect(S.STDOUT, fdo) + [CloseAct(fdo)])
  }

  // JOB_NOPIPE
  function PlainActs(nextin: int): seq<Act> {
    TakeActs(nextin) + Redirect(S.STDOUT, 4)
  }

  // JOB_INIT
  function InitActs(): seq<Act> {
    Redirect(S.STDIN, 3) + Redirect(S.STDOUT, 4)
  }

  // What the shell does before and after it starts a job.
  function Before(s: S.Sh, piped: bool, c: int): seq<Act>
    requires |s.fd| == MAX_FD && s.nextin < MAX_FD
  {
    if piped then PipeActs(s.nextin, PipeFd(Cleared(s), c, c).2, c) else PlainActs(s.nextin)
  }

  function After(piped: bool): seq<Act> {
    if piped then [] else InitActs()
  }

  function NextIn(s: S.Sh, piped: bool, c: int): int
    requires |s.fd| == MAX_FD && s.nextin < MAX_FD
  {
    if piped then PipeFd(Cleared(s), c, c).1 else 3
  }

  lemma RedirectIs(t: Table, fd: nat, from: int)
    requires |t| == MAX_FD && fd < MAX_FD && from < MAX_FD
    ensures Doable(Redirect(fd, from)) && DoAll(t, Redirect(fd, from)) == DupFd(CloseFd(t, fd), from).0
  {
    assert Redirect(fd, from)[1..] == [DupAct(from)];
    DoOne(CloseFd(t, fd), DupAct(from));
  }

  lemma TakeActsAre(s: S.Sh)
    requires |s.fd| == MAX_FD && s.nextin < MAX_FD
    ensures Doable(TakeActs(s.nextin)) && DoAll(s.fd, TakeActs(s.nextin)) == Cleared(s)
  {
    RedirectIs(s.fd, S.STDIN, s.nextin);
    DoAppend(s.fd, Redirect(S.STDIN, s.nextin), [CloseAct(5)]);
    DoOne(S.Dup(S.Close(s, S.STDIN), s.nextin).fd, CloseAct(5));
  }

  lemma OutActsAre(t: Table, fdo: nat)
    requires |t| == MAX_FD && fdo < MAX_FD
    ensures var acts := Redirect(S.STDOUT, fdo) + [CloseAct(fdo)];
            Doable(acts) && DoAll(t, acts) == CloseFd(DupFd(CloseFd(t, S.STDOUT), fdo).0, fdo)
  {
    RedirectIs(t, S.STDOUT, fdo);
    DoAppend(t, Redirect(S.STDOUT, fdo), [CloseAct(fdo)]);
    DoOne(DupFd(CloseFd(t, S.STDOUT), fdo).0, CloseAct(fdo));
  }

  lemma EndsAre(t: Table, c: int)
    requires |t| == MAX_FD && 0 <= PipeFd(t, c, c).2
    ensures Doable([BindAct(c), BindAct(c)]) && DoAll(t, [BindAct(c), BindAct(c)]) == PipeFd(t, c, c).0
  {
    DoTwo(t, BindAct(c));
  }

  lemma PipeActsAre(s: S.Sh, c: int)
    requires |s.fd| == MAX_FD && s.nextin < MAX_FD && S.JobPipe(s, S.Ends(c, c)).Some?
    ensures var fdo := PipeFd(Cleared(s), c, c).2;
            var acts := PipeActs(s.nextin, fdo, c);
            && Doable(acts)
            && S.JobPipe(s, S.Ends(c, c)) == Some(S.Sh(DoAll(s.fd, acts), PipeFd(Cleared(s), c, c).1))
  {
    var (t, fdi, fdo) := PipeFd(Cleared(s), c, c);
    TakeActsAre(s);
    EndsAre(Cleared(s), c);
    DoAppend(s.fd, TakeActs(s.nextin), [BindAct(c), BindAct(c)]);
    OutActsAre(t, fdo);
    DoAppend(s.fd, TakeActs(s.nextin) + [BindAct(c), BindAct(c)], Redirect(S.STDOUT, fdo) + [CloseAct(fdo)]);
  }

  lemma PlainActsAre(s: S.Sh)
    requires |s.fd| == MAX_FD && s.nextin < MAX_FD
    ensures Doable(PlainActs(s.nextin)) && DoAll(s.fd, PlainActs(s.nextin)) == S.JobNoPipe(s).fd
  {
    TakeActsAre(s);
    RedirectIs(Cleared(s), S.STDOUT, 4);
    DoAppend(s.fd, TakeActs(s.nextin), Redirect(S.STDOUT, 4));
  }

  lemma InitActsAre(s: S.Sh)
    requires |s.fd| == MAX_FD
    ensures Doable(InitActs()) && S.JobInit(s) == S.Sh(DoAll(s.fd, InitActs()), 3)
  {
    RedirectIs(s.fd, S.STDIN, 3);
    RedirectIs(DoAll(s.fd, Redirect(S.STDIN, 3)), S.STDOUT, 4);
    DoAppend(s.fd, Redirect(S.STDIN, 3), Redirect(S.STDOUT, 4));
  }

  // What the job started in state s reads and writes.
  function Std(u: S.Std, s: S.Sh, piped: bool, c: int): Table
    requires |s.fd| == MAX_FD && 0 <= s.nextin < MAX_FD
  {
    [S.Input(u, s), if piped then c else u.stdout, u.stderr]
  }

  // The state before the next job.
  function Next(u: S.Std, s: S.Sh, piped: bool, c: int): S.Sh
    requires |s.fd| == MAX_FD && 0 <= s.nextin < MAX_FD
  {
    if piped then S.Piped(u, S.Input(u, s), S.Ends(c, c)) else S.Prompt(u)
  }

  ghost predicate Starting(job: Table, std: Table) {
    |job| == MAX_FD && |std| == S.STDMAX && forall i | 0 <= i < S.STDMAX :: 0 <= std[i] == job[i]
  }

  lemma PipedTurn(u: S.Std, s: S.Sh, c: int)
    requires S.Between(u, s) && 0 <= c
    ensures |s.fd| == MAX_FD && 0 <= s.nextin < MAX_FD && Doable(Before(s, true, c))
    ensures var job := DoAll(s.fd, Before(s, true, c));
            && Starting(job, Std(u, s, true, c)) && S.Between(u, Next(u, s, true, c))
            && S.Sh(DoAll(job, After(true)), NextIn(s, true, c)) == Next(u, s, true, c)
  {
    S.TakeInput(u, s);
    S.JobPipeWires(u, s, S.Ends(c, c));
    PipeActsAre(s, c);
  }

  lemma PlainStart(u: S.Std, s: S.Sh, c: int)
    requires S.Between(u, s)
    ensures |s.fd| == MAX_FD && 0 <= s.nextin < MAX_FD && Doable(Before(s, false, c))
    ensures DoAll(s.fd, Before(s, false, c)) == S.JobNoPipe(s).fd && Starting(S.JobNoPipe(s).fd, Std(u, s, false, c))
    ensures S.JobInit(S.JobNoPipe(s)) == S.Prompt(u)
  {
    S.TakeInput(u, s);
    S.JobNoPipeWires(u, s);
    PlainActsAre(s);
  }

  lemma PlainTurn(u: S.Std, s: S.Sh, c: int)
    requires S.Between(u, s)
    ensures |s.fd| == MAX_FD && 0 <= s.nextin < MAX_FD && Doable(Before(s, false, c)) && Doable(After(false))
    ensures var job := DoAll(s.fd, Before(s, false, c));
            && Starting(job, Std(u, s, false, c)) && S.Between(u, Next(u, s, false, c))
            && S.Sh(DoAll(job, After(false)), NextIn(s, false, c)) == Next(u, s, false, c)
  {
    PlainStart(u, s, c);
    InitActsAre(S.JobNoPipe(s));
  }

  // ----- one job -----

  // Request `fork` registers the task `kid` that the shell has spawned, and
  // request `start` the task that carries the job out.  The two are the same
  // for a job that the shell starts directly; a pipe or background job is
  // started by kid, which exits as soon as it has spawned the other one.
  datatype Job = Job(fork: nat, kid: Pid, start: nat, task: Pid)

  // Request i registers the new task kid as a child of parent.
  ghost predicate Forks(h: History, i: nat, parent: Pid, kid: Pid) {
    && i < |h.qs| && i < |h.states| && h.qs[i] == AddReq(kid, parent)
    && parent != NULL_PID && !Registered(h.states[i], kid)
  }

  ghost predicate Launches(h: History, sh: Pid, direct: bool, job: Job, b: nat) {
    && Forks(h, job.fork, sh, job.kid)
    && if direct then job.start == job.fork && job.task == job.kid
       else job.fork < job.start < b && MindsFrom(h, job.kid, job.fork + 1, job.start)
            && Forks(h, job.start, job.kid, job.task)
  }

  // Between moments a and b of a run, the shell, as client sh with its variable
  // nextin, prepares and starts a job and goes on to the next.  Other clients
  // do what they please, and the tasks of the job may exit.
  ghost predicate Turns(h: History, sh: Pid, nextin: int, piped: bool, direct: bool, c: int, job: Job, a: nat, b: nat)
    requires IsHistory(h)
  {
    && a <= job.fork < b <= |h.qs| && nextin < MAX_FD
    && Shape(h.states[a]) && Registered(h.states[a], sh)
    && LastsFrom(h, sh, a, job.fork) && LastsFrom(h, sh, job.fork + 1, b)
    && Done(h, sh, a, job.fork) == Before(S.Sh(View(h.states[a], sh), nextin), piped, c)
    && Done(h, sh, job.fork + 1, b) == After(piped)
    && Launches(h, sh, direct, job, b)
  }

  // A child starts with its parent's standard descriptors.
  lemma ForkSees(h: History, i: nat, parent: Pid, kid: Pid, std: Table)
    requires IsHistory(h) && Forks(h, i, parent, kid) && Sees(h.states[i], parent, std)
    ensures Sees(h.states[i + 1], kid, std) && parent != kid
  {
    assert Goes(h, i);
    ForkView(h.states[i], kid, parent);
  }

  // Up to the registration of kid.
  lemma JobForked(h: History, sh: Pid, nextin: int, piped: bool, direct: bool, c: int, job: Job, a: nat, b: nat)
    requires IsHistory(h) && Turns(h, sh, nextin, piped, direct, c, job, a, b)
    ensures var acts := Before(S.Sh(View(h.states[a], sh), nextin), piped, c);
            var t := h.states[job.fork];
            var t' := h.states[job.fork + 1];
            && Doable(acts) && Shape(t) && Registered(t, sh) && Shape(t') && Registered(t', sh)
            && View(t', sh) == View(t, sh) == DoAll(View(h.states[a], sh), acts)
  {
    RunView(h, sh, a, job.fork);
    assert Goes(h, job.fork);
    ForkView(h.states[job.fork], job.kid, sh);
  }

  // The shell's half: whatever becomes of the job, the shell goes on.
  lemma ShellGoesOn(h: History, sh: Pid, nextin: int, piped: bool, direct: bool, c: int, job: Job, a: nat, b: nat)
    requires IsHistory(h) && Turns(h, sh, nextin, piped, direct, c, job, a, b)
    ensures var acts := Before(S.Sh(View(h.states[a], sh), nextin), piped, c);
            && Doable(acts) && Doable(After(piped)) && Shape(h.states[b]) && Registered(h.states[b], sh)
            && View(h.states[b], sh) == DoAll(DoAll(View(h.states[a], sh), acts), After(piped))
  {
    JobForked(h, sh, nextin, piped, direct, c, job, a, b);
    RunView(h, sh, job.fork + 1, b);
  }

  // The job's half, for a shell that sees `std` when it spawns.
  lemma JobStarts(h: History, sh: Pid, direct: bool, job: Job, b: nat, std: Table)
    requires IsHistory(h) && Launches(h, sh, direct, job, b) && b <= |h.qs| && Sees(h.states[job.fork], sh, std)
    ensures job.start < |h.qs| && Sees(h.states[job.start + 1], job.task, std)
  {
    ForkSees(h, job.fork, sh, job.kid, std);
    if !direct {
      SeesFrom(h, job.kid, std, job.fork + 1, job.start);
      ForkSees(h, job.start, job.kid, job.task, std);
    }
  }

  // At moment a the shell can start a job.
  ghost predicate Set(u: S.Std, h: History, sh: Pid, nextin: int, a: nat) {
    && a < |h.states| && Shape(h.states[a]) && Registered(h.states[a], sh)
    && 0 <= nextin < MAX_FD && S.Between(u, S.Sh(View(h.states[a], sh), nextin))
  }

  // The job's task starts with `std` as its standard descriptors.
  ghost predicate Started(h: History, job: Job, std: Table) {
    job.start + 1 < |h.states| && Sees(h.states[job.start + 1], job.task, std)
  }

  lemma BetweenIs(u: S.Std, s: S.Sh)
    requires S.Between(u, s)
    ensures |s.fd| == MAX_FD && 0 <= s.nextin < MAX_FD
  {
  }

  /** One job of a line, with `s` the shell before it: its task is started with
      the descriptors it should have, and the shell is ready for the next job. */
  lemma JobWires(u: S.Std, h: History, sh: Pid, s: S.Sh, piped: bool, direct: bool, c: int, job: Job, a: nat, b: nat)
    requires IsHistory(h) && (piped ==> 0 <= c) && Turns(h, sh, s.nextin, piped, direct, c, job, a, b)
    requires s.fd == View(h.states[a], sh) && S.Between(u, s)
    ensures |s.fd| == MAX_FD && 0 <= s.nextin < MAX_FD
    ensures b <= |h.qs| && Shape(h.states[b]) && Registered(h.states[b], sh)
    ensures S.Sh(View(h.states[b], sh), NextIn(s, piped, c)) == Next(u, s, piped, c)
    ensures S.Between(u, Next(u, s, piped, c)) && 0 <= NextIn(s, piped, c) < MAX_FD
    ensures Started(h, job, Std(u, s, piped, c))
  {
    BetweenIs(u, s);
    if piped { PipedTurn(u, s, c); } else { PlainTurn(u, s, c); }
    ShellGoesOn(h, sh, s.nextin, piped, direct, c, job, a, b);
    JobForked(h, sh, s.nextin, piped, direct, c, job, a, b);
    JobStarts(h, sh, direct, job, b, Std(u, s, piped, c));
    BetweenIs(u, Next(u, s, piped, c));
  }

  // ----- a whole line -----

  // A command line played in a run: the moments at which the shell turns to
  // each job and to its prompt, and its variable nextin then.  codes[k] is the
  // inode of the k-th job's pipe, if it has one.
  datatype Line = Line(seps: seq<S.Sep>, codes: seq<int>, jobs: seq<Job>, marks: seq<nat>, nextins: seq<int>)

  predicate IsLine(l: Line) {
    |l.codes| == |l.jobs| == |l.seps| + 1 && |l.marks| == |l.nextins| == |l.seps| + 2
  }

  predicate Piped(l: Line, k: nat) {
    k < |l.seps| && l.seps[k] == S.Pipe
  }

  // The jobs that the shell starts without a task in between.
  predicate Direct(l: Line, k: nat) {
    k >= |l.seps| || l.seps[k] == S.Sequence
  }

  ghost predicate PlaysJob(h: History, sh: Pid, l: Line, k: nat)
    requires IsHistory(h) && IsLine(l) && k <= |l.seps|
  {
    && (Piped(l, k) ==> 0 <= l.codes[k])
    && Turns(h, sh, l.nextins[k], Piped(l, k), Direct(l, k), l.codes[k], l.jobs[k], l.marks[k], l.marks[k + 1])
    && l.nextins[k + 1] == NextIn(S.Sh(View(h.states[l.marks[k]], sh), l.nextins[k]), Piped(l, k), l.codes[k])
  }

  // The shell plays the line.
  ghost predicate Plays(h: History, sh: Pid, l: Line) {
    && IsHistory(h) && IsLine(l)
    && (forall k: nat | k <= |l.seps| :: PlaysJob(h, sh, l, k))
  }

  // Both ends of a pipe name its inode.
  function Both(codes: seq<int>): (ends: seq<S.Ends>)
    ensures |ends| == |codes| && forall k | 0 <= k < |codes| :: ends[k] == S.Ends(codes[k], codes[k])
  {
    seq(|codes|, k requires 0 <= k < |codes| => S.Ends(codes[k], codes[k]))
  }

  // What job k of the line should see, if the first job reads `input`.
  function Due(u: S.Std, l: Line, input: int, k: nat): Table
    requires IsLine(l) && k <= |l.seps|
  {
    [S.Reads(u, l.seps, Both(l.codes), input, k), S.Writes(u, l.seps, Both(l.codes), k), u.stderr]
  }

  // The shell before job k, or after the line.
  function ShellAt(h: History, sh: Pid, l: Line, k: nat): S.Sh
    requires k < |l.marks| == |l.nextins| && l.marks[k] < |h.states|
    requires Shape(h.states[l.marks[k]]) && Registered(h.states[l.marks[k]], sh)
  {
    S.Sh(View(h.states[l.marks[k]], sh), l.nextins[k])
  }

  // From one job to the next: `s` is the shell before job k, `s'` after it.
  lemma NextOf(u: S.Std, h: History, sh: Pid, l: Line, k: nat, s: S.Sh) returns (s': S.Sh)
    requires Plays(h, sh, l) && k <= |l.seps|
    requires Set(u, h, sh, l.nextins[k], l.marks[k]) && s == ShellAt(h, sh, l, k)
    ensures Set(u, h, sh, l.nextins[k + 1], l.marks[k + 1]) && s' == ShellAt(h, sh, l, k + 1)
    ensures |s.fd| == MAX_FD && 0 <= s.nextin < MAX_FD && s' == Next(u, s, Piped(l, k), l.codes[k])
    ensures Started(h, l.jobs[k], Std(u, s, Piped(l, k), l.codes[k]))
  {
    assert PlaysJob(h, sh, l, k);
    JobWires(u, h, sh, s, Piped(l, k), Direct(l, k), l.codes[k], l.jobs[k], l.marks[k], l.marks[k + 1]);
    s' := Next(u, s, Piped(l, k), l.codes[k]);
  }

  lemma {:induction false} SetAlong(u: S.Std, h: History, sh: Pid, l: Line, k: nat)
    requires Plays(h, sh, l) && Set(u, h, sh, l.nextins[0], l.marks[0]) && k < |l.marks|
    ensures Set(u, h, sh, l.nextins[k], l.marks[k])
  {
    if k > 0 {
      SetAlong(u, h, sh, l, k - 1);
      var s' := NextOf(u, h, sh, l, k - 1, ShellAt(h, sh, l, k - 1));
    }
  }

  // The first job reads the shell's next input.
  lemma FirstDue(u: S.Std, l: Line, s: S.Sh)
    requires IsLine(l) && |s.fd| == MAX_FD && 0 <= s.nextin < MAX_FD
    ensures Std(u, s, Piped(l, 0), l.codes[0]) == Due(u, l, s.fd[s.nextin], 0)
  {
  }

  // Every other job reads what the job before it has left.
  lemma LaterDue(u: S.Std, l: Line, input: int, k: nat, s: S.Sh)
    requires IsLine(l) && k < |l.seps| && |s.fd| == MAX_FD && 0 <= s.nextin < MAX_FD
    ensures var s' := Next(u, s, Piped(l, k), l.codes[k]);
            && |s'.fd| == MAX_FD && 0 <= s'.nextin < MAX_FD
            && Std(u, s', Piped(l, k + 1), l.codes[k + 1]) == Due(u, l, input, k + 1)
  {
  }

  lemma FirstStarted(u: S.Std, h: History, sh: Pid, l: Line)
    requires Plays(h, sh, l) && Set(u, h, sh, l.nextins[0], l.marks[0])
    ensures Started(h, l.jobs[0], Due(u, l, View(h.states[l.marks[0]], sh)[l.nextins[0]], 0))
  {
    var s := ShellAt(h, sh, l, 0);
    var s' := NextOf(u, h, sh, l, 0, s);
    FirstDue(u, l, s);
  }

  // The shell before job k + 1 is the shell after job k.
  lemma Comes(u: S.Std, h: History, sh: Pid, l: Line, k: nat) returns (r: S.Sh, s: S.Sh)
    requires Plays(h, sh, l) && Set(u, h, sh, l.nextins[0], l.marks[0]) && k <= |l.seps|
    ensures Set(u, h, sh, l.nextins[k + 1], l.marks[k + 1]) && s == ShellAt(h, sh, l, k + 1)
    ensures |r.fd| == MAX_FD && 0 <= r.nextin < MAX_FD && s == Next(u, r, Piped(l, k), l.codes[k])
  {
    SetAlong(u, h, sh, l, k);
    r := ShellAt(h, sh, l, k);
    s := NextOf(u, h, sh, l, k, r);
  }

  lemma LaterStarted(u: S.Std, h: History, sh: Pid, l: Line, input: int, k: nat)
    requires Plays(h, sh, l) && Set(u, h, sh, l.nextins[0], l.marks[0]) && k < |l.seps|
    ensures Started(h, l.jobs[k + 1], Due(u, l, input, k + 1))
  {
    var r, s := Comes(u, h, sh, l, k);
    var s' := NextOf(u, h, sh, l, k + 1, s);
    LaterDue(u, l, input, k, r);
  }

  /** A command line, with any requests of other clients in between: from its
      start until it is removed or closes one of them itself, the task of each
      job sees as standard descriptors what the job should read and write. */
  lemma LineOnVfs(u: S.Std, h: History, sh: Pid, l: Line, k: nat, n: nat)
    requires Plays(h, sh, l) && Set(u, h, sh, l.nextins[0], l.marks[0]) && k <= |l.seps|
    requires l.jobs[k].start < n && MindsFrom(h, l.jobs[k].task, l.jobs[k].start + 1, n)
    ensures Sees(h.states[n], l.jobs[k].task, Due(u, l, View(h.states[l.marks[0]], sh)[l.nextins[0]], k))
  {
    var due := Due(u, l, View(h.states[l.marks[0]], sh)[l.nextins[0]], k);
    if k == 0 {
      FirstStarted(u, h, sh, l);
    } else {
      LaterStarted(u, h, sh, l, View(h.states[l.marks[0]], sh)[l.nextins[0]], k - 1);
    }
    SeesFrom(h, l.jobs[k].task, due, l.jobs[k].start + 1, n);
  }

  /** And whatever becomes of the jobs, the shell sees its prompt's table again. */
  lemma PromptAgain(u: S.Std, h: History, sh: Pid, l: Line)
    requires Plays(h, sh, l) && Set(u, h, sh, l.nextins[0], l.marks[0])
    ensures Set(u, h, sh, l.nextins[|l.seps| + 1], l.marks[|l.seps| + 1])
    ensures ShellAt(h, sh, l, |l.seps| + 1) == S.Prompt(u)
  {
    var r, s := Comes(u, h, sh, l, |l.seps|);
  }

  /** Two jobs joined by a pipe sign: while each of them runs, the standard
      output of the first and the standard input of the second name one inode,
      that of the pipe. */
  lemma JobsConnected(u: S.Std, h: History, sh: Pid, l: Line, k: nat, n: nat, m: nat)
    requires Plays(h, sh, l) && Set(u, h, sh, l.nextins[0], l.marks[0]) && Piped(l, k)
    requires var writer, reader := l.jobs[k], l.jobs[k + 1];
             && writer.start < n && MindsFrom(h, writer.task, writer.start + 1, n)
             && reader.start < m && MindsFrom(h, reader.task, reader.start + 1, m)
    ensures var v, w := h.states[n], h.states[m];
            && Shape(v) && Registered(v, l.jobs[k].task) && Shape(w) && Registered(w, l.jobs[k + 1].task)
            && View(v, l.jobs[k].task)[S.STDOUT] == l.codes[k] == View(w, l.jobs[k + 1].task)[S.STDIN]
  {
    LineOnVfs(u, h, sh, l, k, n);
    LineOnVfs(u, h, sh, l, k + 1, m);
  }

  // ----- the pipe in between -----

  lemma {:induction false} DonePrefix(h: History, p: Pid, a: nat, m: nat, b: nat)
    requires IsHistory(h) && a <= m <= b <= |h.qs| && LastsFrom(h, p, a, b)
    ensures LastsFrom(h, p, a, m) && Done(h, p, a, m) <= Done(h, p, a, b)
    decreases b - m
  {
    if m < b {
      DonePrefix(h, p, a, m, b - 1);
    }
  }

  predicate Spares(acts: seq<Act>, i: nat) {
    forall j | 0 <= j < |acts| :: !acts[j].CloseAct? || acts[j].fd != i
  }

  lemma {:induction false} SparedKeeps(t: Table, acts: seq<Act>, i: nat)
    requires |t| == MAX_FD && Doable(acts) && i < MAX_FD && 0 <= t[i] && Spares(acts, i)
    ensures DoAll(t, acts)[i] == t[i]
    decreases |acts|
  {
    if acts != [] {
      SparedKeeps(Do(t, acts[0]), acts[1..], i);
    }
  }

  // The shell sees inode c at one of the descriptors that a pipe goes through.
  predicate Keeps(v: Table, c: int) {
    |v| == MAX_FD && (v[5] == c || v[S.STDIN] == c)
  }

  // Moving the pipe from descriptor 5 to descriptor 0, and going on.
  lemma TakeKeeps(t: Table, rest: seq<Act>, c: int, acts: seq<Act>)
    requires |t| == MAX_FD && 0 <= c && t[5] == c && Doable(rest) && Spares(rest, S.STDIN)
    requires acts <= TakeActs(5) + rest
    ensures Doable(acts) && Keeps(DoAll(t, acts), c)
  {
    var take := TakeActs(5);
    assert take == [CloseAct(S.STDIN), DupAct(5), CloseAct(5)];
    assert forall i | 0 <= i < |acts| :: acts[i] == (take + rest)[i];
    if |acts| <= 3 {
      assert acts == take[..|acts|];
      FirstKeeps(t, c, |acts|);
    } else {
      var later := acts[3..];
      assert acts == take + later;
      assert forall i | 0 <= i < |later| :: later[i] == rest[i];
      FirstKeeps(t, c, 3);
      assert take == take[..3];
      DoAppend(t, take, later);
      SparedKeeps(DoAll(t, take), later, S.STDIN);
    }
  }

  lemma FirstKeeps(t: Table, c: int, n: nat)
    requires |t| == MAX_FD && 0 <= c && t[5] == c && n <= 3
    ensures var acts := TakeActs(5)[..n];
            && Doable(acts) && Keeps(DoAll(t, acts), c) && (n == 3 ==> DoAll(t, acts)[S.STDIN] == c)
  {
    var take := TakeActs(5);
    var t1 := CloseFd(t, S.STDIN);
    S.LowestFreeIs(t1, 0);
    if n == 1 {
      assert take[..1] == [take[0]];
      DoOne(t, take[0]);
    } else if n == 2 {
      assert take[..2] == Redirect(S.STDIN, 5);
      RedirectIs(t, S.STDIN, 5);
    } else if n == 3 {
      assert take[..3] == take;
      TakeActsAre(S.Sh(t, 5));
    }
  }

  // Nothing that the shell does for a job after that closes descriptor 0.
  lemma RestSpares(u: S.Std, s: S.Sh, piped: bool, c: int) returns (rest: seq<Act>)
    requires S.Between(u, s) && s.nextin == 5 && (piped ==> 0 <= c)
    ensures |s.fd| == MAX_FD && Before(s, piped, c) == TakeActs(5) + rest && Doable(rest) && Spares(rest, S.STDIN)
  {
    if piped {
      S.TakeInput(u, s);
      S.PipeLands(u, S.Input(u, s), s.fd[1], S.Ends(c, c));
      var fdo := PipeFd(Cleared(s), c, c).2;
      rest := [BindAct(c), BindAct(c)] + (Redirect(S.STDOUT, fdo) + [CloseAct(fdo)]);
      Regroup(TakeActs(5), [BindAct(c), BindAct(c)], Redirect(S.STDOUT, fdo) + [CloseAct(fdo)]);
    } else {
      rest := Redirect(S.STDOUT, 4);
    }
  }

  lemma Regroup<T>(a: seq<T>, b: seq<T>, c: seq<T>)
    ensures a + b + c == a + (b + c)
  {
  }

  // While the shell prepares the job that will read the pipe.
  lemma KeptWhilePreparing(u: S.Std, h: History, sh: Pid, s: S.Sh, piped: bool, direct: bool, c: int, job: Job,
                           a: nat, b: nat, pipe: int, n: nat)
    requires IsHistory(h) && (piped ==> 0 <= c) && Turns(h, sh, s.nextin, piped, direct, c, job, a, b)
    requires s.fd == View(h.states[a], sh) && S.Between(u, s) && s.nextin == 5 && s.fd[5] == pipe && 0 <= pipe
    requires a <= n <= job.fork
    ensures Shape(h.states[n]) && Registered(h.states[n], sh) && Keeps(View(h.states[n], sh), pipe)
  {
    var rest := RestSpares(u, s, piped, c);
    DonePrefix(h, sh, a, n, job.fork);
    RunView(h, sh, a, n);
    TakeKeeps(s.fd, rest, pipe, Done(h, sh, a, n));
  }

  // A client that does nothing between a and b sees the same all the time.
  lemma QuietView(h: History, p: Pid, a: nat, m: nat, b: nat)
    requires IsHistory(h) && a <= m <= b <= |h.qs| && LastsFrom(h, p, a, b) && Done(h, p, a, b) == []
    requires Shape(h.states[a]) && Registered(h.states[a], p)
    ensures Shape(h.states[m]) && Registered(h.states[m], p) && View(h.states[m], p) == View(h.states[a], p)
  {
    DonePrefix(h, p, a, m, b);
    RunView(h, p, a, m);
  }

  // The shell does nothing between the start of a job with a pipe and the
  // moment it turns to the next job.
  lemma PipedIsQuiet(h: History, sh: Pid, nextin: int, direct: bool, c: int, job: Job, a: nat, b: nat)
    requires IsHistory(h) && Turns(h, sh, nextin, true, direct, c, job, a, b)
    ensures job.fork < b <= |h.qs| && LastsFrom(h, sh, job.fork + 1, b) && Done(h, sh, job.fork + 1, b) == []
    ensures Shape(h.states[job.fork + 1]) && Registered(h.states[job.fork + 1], sh)
  {
    JobForked(h, sh, nextin, true, direct, c, job, a, b);
  }

  lemma LineIsQuiet(h: History, sh: Pid, l: Line, k: nat)
    requires Plays(h, sh, l) && Piped(l, k)
    ensures var fork, b := l.jobs[k].fork, l.marks[k + 1];
            && fork < b <= |h.qs| && LastsFrom(h, sh, fork + 1, b) && Done(h, sh, fork + 1, b) == []
            && Shape(h.states[fork + 1]) && Registered(h.states[fork + 1], sh)
  {
    assert PlaysJob(h, sh, l, k);
    PipedIsQuiet(h, sh, l.nextins[k], Direct(l, k), l.codes[k], l.jobs[k], l.marks[k], l.marks[k + 1]);
  }

  lemma KeptByLine(h: History, sh: Pid, l: Line, k: nat, n: nat)
    requires Plays(h, sh, l) && Piped(l, k) && l.jobs[k].fork < n <= l.marks[k + 1]
    ensures n < |h.states| && Shape(h.states[n]) && Registered(h.states[n], sh)
    ensures l.marks[k + 1] < |h.states| && Shape(h.states[l.marks[k + 1]]) && Registered(h.states[l.marks[k + 1]], sh)
    ensures View(h.states[n], sh) == View(h.states[l.marks[k + 1]], sh)
  {
    LineIsQuiet(h, sh, l, k);
    QuietView(h, sh, l.jobs[k].fork + 1, n, l.marks[k + 1]);
    QuietView(h, sh, l.jobs[k].fork + 1, l.marks[k + 1], l.marks[k + 1]);
  }

  lemma KeptByNext(u: S.Std, h: History, sh: Pid, l: Line, k: nat, s: S.Sh, pipe: int, n: nat)
    requires Plays(h, sh, l) && k <= |l.seps| && Set(u, h, sh, l.nextins[k], l.marks[k]) && s == ShellAt(h, sh, l, k)
    requires s.nextin == 5 && |s.fd| == MAX_FD && s.fd[5] == pipe && 0 <= pipe && l.marks[k] <= n <= l.jobs[k].fork
    ensures n < |h.states| && Shape(h.states[n]) && Registered(h.states[n], sh) && Keeps(View(h.states[n], sh), pipe)
  {
    assert PlaysJob(h, sh, l, k);
    KeptWhilePreparing(u, h, sh, s, Piped(l, k), Direct(l, k), l.codes[k], l.jobs[k], l.marks[k], l.marks[k + 1],
                       pipe, n);
  }

  lemma PipeComes(u: S.Std, h: History, sh: Pid, l: Line, k: nat) returns (s: S.Sh)
    requires Plays(h, sh, l) && Set(u, h, sh, l.nextins[0], l.marks[0]) && Piped(l, k)
    ensures Set(u, h, sh, l.nextins[k + 1], l.marks[k + 1]) && s == ShellAt(h, sh, l, k + 1)
    ensures |s.fd| == MAX_FD && s.nextin == 5 && s.fd[5] == l.codes[k] && 0 <= l.codes[k]
  {
    var r;
    r, s := Comes(u, h, sh, l, k);
    assert PlaysJob(h, sh, l, k);
  }

  /** From the start of the job that writes to a pipe to the start of the job that
      reads from it, the shell itself keeps the pipe open, so the inode that the
      second job gets is still the one that the first one got. */
  lemma PipeHeld(u: S.Std, h: History, sh: Pid, l: Line, k: nat, n: nat)
    requires Plays(h, sh, l) && Set(u, h, sh, l.nextins[0], l.marks[0]) && Piped(l, k)
    requires l.jobs[k].fork < n <= l.jobs[k + 1].fork
    ensures n < |h.states| && Shape(h.states[n]) && Registered(h.states[n], sh)
            && Keeps(View(h.states[n], sh), l.codes[k])
  {
    var s := PipeComes(u, h, sh, l, k);
    if n <= l.marks[k + 1] {
      KeptByLine(h, sh, l, k, n);
    } else {
      KeptByNext(u, h, sh, l, k + 1, s, l.codes[k], n);
    }
  }
}
