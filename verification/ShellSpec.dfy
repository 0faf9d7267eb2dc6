// The shell's descriptor juggling (usr/sh.c): how it wires the standard input
// and output of the jobs on a command line with close, dup and pipe alone,
// relying on the lowest closed descriptor being handed out.
module ShellSpec {
  import opened Common
  import opened FdTable

  const STDIN: nat := 0
  const STDOUT: nat := 1
  const STDERR: nat := 2
  const STDMAX: nat := 3

  // The shell's table and its variable nextin.
  datatype Sh = Sh(fd: Table, nextin: int)

  // The descriptions at the two ends of a pipe.
  datatype Ends = Ends(r: int, w: int)

  // What ends a job on the command line.
  datatype Sep = Pipe | Background | Sequence

  function Close(s: Sh, fd: nat): Sh
    requires fd < |s.fd|
  {
    s.(fd := CloseFd(s.fd, fd))
  }

  function Dup(s: Sh, fd: int): Sh
    requires fd < |s.fd|
  {
    s.(fd := DupFd(s.fd, fd).0)
  }

  function JobInit(s: Sh): Sh
    requires |s.fd| == MAX_FD
  {
    Dup(Close(Dup(Close(s, STDIN), 3), STDOUT), 4).(nextin := 3)
  }

  // None when pipe() returns no two descriptors.
  function JobPipe(s: Sh, e: Ends): Option<Sh>
    requires |s.fd| == MAX_FD && s.nextin < MAX_FD
  {
    var s1 := Close(Dup(Close(s, STDIN), s.nextin), 5);
    var (t, fdi, fdo) := PipeFd(s1.fd, e.r, e.w);
    if fdi < 0 || fdo < 0 then None
    else
      var s2 := s1.(fd := t);
      Some(Close(Dup(Close(s2, STDOUT), fdo), fdo).(nextin := fdi))
  }

  function JobNoPipe(s: Sh): Sh
    requires |s.fd| == MAX_FD && s.nextin < MAX_FD
  {
    Dup(Close(Close(Dup(Close(s, STDIN), s.nextin), 5), STDOUT), 4)
  }

  // exec_job closes everything but the standard descriptors of the child,
  // which has inherited the shell's table.
  function ExecTable(t: Table, i: nat): Table
    requires STDMAX <= i <= |t|
    decreases |t| - i
  {
    if i == |t| then t else ExecTable(CloseFd(t, i), i + 1)
  }

  // ----- the shape of the table between jobs -----

  // What the shell was started with.
  datatype Std = Std(stdin: int, stdout: int, stderr: int, script: int)

  ghost predicate Open(u: Std) {
    0 <= u.stdin && 0 <= u.stdout && 0 <= u.stderr && -1 <= u.script
  }

  // At the prompt: 3 and 4 keep the shell's own input and output, 6 is the
  // script if there is one.
  function Prompt(u: Std): Sh {
    Sh([u.stdin, u.stdout, u.stderr, u.stdin, u.stdout, CLOSED, u.script, CLOSED], 3)
  }

  // After JOB_PIPE: the job reads `input` and writes w, and r waits at 5 for
  // the next job.
  function Piped(u: Std, input: int, e: Ends): Sh {
    Sh([input, e.w, u.stderr, u.stdin, u.stdout, e.r, u.script, CLOSED], 5)
  }

  function Ready(u: Std, input: int): Table {
    [input, u.stdout, u.stderr, u.stdin, u.stdout, CLOSED, u.script, CLOSED]
  }

  lemma LowestFreeIs(t: Table, k: nat)
    requires k < |t| && t[k] < 0 && forall j | 0 <= j < k :: 0 <= t[j]
    ensures LowestFree(t) == k
  {
  }

  // What the next job reads.
  function Input(u: Std, s: Sh): int
    requires |s.fd| == MAX_FD && 0 <= s.nextin < MAX_FD
  {
    s.fd[s.nextin]
  }

  // A state in which a job can be started: the prompt, or after JOB_PIPE.
  ghost predicate Between(u: Std, s: Sh) {
    Open(u) && (s == Prompt(u) || exists x: int, e: Ends :: 0 <= e.r && 0 <= e.w && 0 <= x && s == Piped(u, x, e))
  }

  lemma JobInitRestores(u: Std, input: int)
    requires Open(u) && 0 <= input
    ensures JobInit(Sh(Ready(u, input), 3)) == Prompt(u)
    ensures JobInit(Sh(Ready(u, input), 5)) == Prompt(u)
  {
    var t0 := CloseFd(Ready(u, input), STDIN);
    LowestFreeIs(t0, 0);
    var t1 := CloseFd(t0[0 := t0[3]], STDOUT);
    LowestFreeIs(t1, 1);
    assert t1[1 := t1[4]] == Prompt(u).fd;
  }

  // The table once the input has moved to descriptor 0 and 5 has been closed.
  function Taken(u: Std, input: int, output: int): Table {
    [input, output, u.stderr, u.stdin, u.stdout, CLOSED, u.script, CLOSED]
  }

  lemma TakeInput(u: Std, s: Sh)
    requires Between(u, s)
    ensures |s.fd| == MAX_FD && 0 <= s.nextin < MAX_FD && 0 <= Input(u, s)
    ensures var s1 := Close(Dup(Close(s, STDIN), s.nextin), 5);
            0 <= s.fd[1] && s1.fd == Taken(u, Input(u, s), s.fd[1])
  {
    var t0 := CloseFd(s.fd, STDIN);
    LowestFreeIs(t0, 0);
  }

  // The write end of a pipe: past the script, if there is one.
  function WriteFd(u: Std): nat {
    if u.script < 0 then 6 else 7
  }

  // With descriptor 5 free, a pipe's read end lands there.
  lemma PipeLands(u: Std, input: int, output: int, e: Ends)
    requires Open(u) && 0 <= input && 0 <= output && 0 <= e.r
    ensures var t := Taken(u, input, output);
            PipeFd(t, e.r, e.w) == (t[5 := e.r][WriteFd(u) := e.w], 5, WriteFd(u))
  {
    var t := Taken(u, input, output);
    LowestFreeIs(t, 5);
    LowestFreeIs(t[5 := e.r], WriteFd(u));
  }

  // The write end moves to descriptor 1.
  lemma TakeOutput(u: Std, input: int, output: int, e: Ends)
    requires Open(u) && 0 <= input && 0 <= output && 0 <= e.r && 0 <= e.w
    ensures var t := Taken(u, input, output)[5 := e.r][WriteFd(u) := e.w];
            CloseFd(DupFd(CloseFd(t, STDOUT), WriteFd(u)).0, WriteFd(u)) == Piped(u, input, e).fd
  {
    var t := Taken(u, input, output)[5 := e.r][WriteFd(u) := e.w];
    LowestFreeIs(CloseFd(t, STDOUT), 1);
  }

  /** JOB_PIPE always has two descriptors free for its pipe; given the pipe's two
      descriptions, it hands the previous job's pipe to this job and keeps the
      new read end for the next. */
  lemma JobPipeWires(u: Std, s: Sh, e: Ends)
    requires Between(u, s) && 0 <= e.r && 0 <= e.w
    ensures |s.fd| == MAX_FD && 0 <= s.nextin < MAX_FD
    ensures JobPipe(s, e) == Some(Piped(u, Input(u, s), e))
    ensures Between(u, Piped(u, Input(u, s), e))
  {
    TakeInput(u, s);
    PipeLands(u, Input(u, s), s.fd[1], e);
    TakeOutput(u, Input(u, s), s.fd[1], e);
  }

  lemma JobNoPipeWires(u: Std, s: Sh)
    requires Between(u, s)
    ensures |s.fd| == MAX_FD && 0 <= s.nextin < MAX_FD
    ensures JobNoPipe(s) == Sh(Ready(u, Input(u, s)), s.nextin)
    ensures JobInit(JobNoPipe(s)) == Prompt(u)
  {
    TakeInput(u, s);
    var s1 := Close(Dup(Close(s, STDIN), s.nextin), 5);
    var t := CloseFd(s1.fd, STDOUT);
    LowestFreeIs(t, 1);
    assert t[1 := t[4]] == Ready(u, Input(u, s));
    JobInitRestores(u, Input(u, s));
  }

  // ----- a whole command line -----

  // One job of a line with more jobs: the state it leaves and its table.
  function Turn(s: Sh, sep: Sep, e: Ends): (Sh, Table)
    requires |s.fd| == MAX_FD && s.nextin < MAX_FD && (sep == Pipe ==> JobPipe(s, e).Some?)
  {
    if sep == Pipe then (JobPipe(s, e).value, JobPipe(s, e).value.fd)
    else (JobInit(JobNoPipe(s)), JobNoPipe(s).fd)
  }

  // In state s the job ended by `sep` is started with table `job` and leaves
  // the state `next`.
  ghost predicate Turns(s: Sh, sep: Sep, e: Ends, next: Sh, job: Table) {
    && |s.fd| == MAX_FD && 0 <= s.nextin < MAX_FD && (sep == Pipe ==> JobPipe(s, e).Some?)
    && Turn(s, sep, e) == (next, job)
  }

  // The last job of a line is started in state s with table `job`, and then
  // the shell is at its prompt.
  ghost predicate Finishes(u: Std, s: Sh, job: Table) {
    && |s.fd| == MAX_FD && 0 <= s.nextin < MAX_FD
    && job == JobNoPipe(s).fd && JobInit(JobNoPipe(s)) == Prompt(u)
  }

  // The i-th job of a line.
  ghost predicate JobAt(u: Std, seps: seq<Sep>, ends: seq<Ends>, states: seq<Sh>, jobs: seq<Table>, i: nat) {
    && i <= |seps| <= |ends| && |seps| < |states| && |seps| < |jobs|
    && if i < |seps| then Turns(states[i], seps[i], ends[i], states[i + 1], jobs[i])
       else Finishes(u, states[i], jobs[i])
  }

  // The shell on a line whose jobs are ended by `seps`, the last one by the
  // end of the line: its state before each job, and the table each job was
  // started with.  ends[k] are the descriptions that the k-th job's pipe()
  // gets, if it has one.
  ghost predicate Line(u: Std, seps: seq<Sep>, ends: seq<Ends>, states: seq<Sh>, jobs: seq<Table>) {
    && |seps| <= |ends| && |states| == |jobs| == |seps| + 1
    && forall i: nat | i <= |seps| :: JobAt(u, seps, ends, states, jobs, i)
  }

  ghost predicate Given(ends: seq<Ends>) {
    forall k | 0 <= k < |ends| :: 0 <= ends[k].r && 0 <= ends[k].w
  }

  // What job k of a line should read and write; `input` is what the first job
  // reads.
  function Reads(u: Std, seps: seq<Sep>, ends: seq<Ends>, input: int, k: nat): int
    requires k <= |seps| <= |ends|
  {
    if k == 0 then input else if seps[k - 1] == Pipe then ends[k - 1].r else u.stdin
  }

  function Writes(u: Std, seps: seq<Sep>, ends: seq<Ends>, k: nat): int
    requires k <= |seps| <= |ends|
  {
    if k < |seps| && seps[k] == Pipe then ends[k].w else u.stdout
  }

  ghost predicate Wired(u: Std, seps: seq<Sep>, ends: seq<Ends>, input: int, jobs: seq<Table>)
    requires |seps| <= |ends|
  {
    && |jobs| == |seps| + 1
    && forall k | 0 <= k <= |seps| ::
         && |jobs[k]| == MAX_FD
         && jobs[k][STDIN] == Reads(u, seps, ends, input, k)
         && jobs[k][STDOUT] == Writes(u, seps, ends, k)
         && jobs[k][STDERR] == u.stderr
  }

  lemma WiredCons(u: Std, seps: seq<Sep>, ends: seq<Ends>, input: int, job: Table, rest: seq<Table>, next: int)
    requires 0 < |seps| <= |ends|
    requires Wired(u, seps[1..], ends[1..], next, rest)
    requires next == if seps[0] == Pipe then ends[0].r else u.stdin
    requires |job| == MAX_FD && job[STDIN] == input && job[STDOUT] == Writes(u, seps, ends, 0)
             && job[STDERR] == u.stderr
    ensures Wired(u, seps, ends, input, [job] + rest)
  {
    var jobs := [job] + rest;
    forall k | 0 <= k <= |seps|
      ensures |jobs[k]| == MAX_FD && jobs[k][STDIN] == Reads(u, seps, ends, input, k)
              && jobs[k][STDOUT] == Writes(u, seps, ends, k) && jobs[k][STDERR] == u.stderr
    {
      if k > 0 {
        assert jobs[k] == rest[k - 1];
        assert Reads(u, seps[1..], ends[1..], next, k - 1) == Reads(u, seps, ends, input, k);
        assert Writes(u, seps[1..], ends[1..], k - 1) == Writes(u, seps, ends, k);
      }
    }
  }

  lemma LaterJob(u: Std, s: Sh, job: Table, seps: seq<Sep>, ends: seq<Ends>, states: seq<Sh>, jobs: seq<Table>, i: nat)
    requires 0 < |seps| <= |ends| && |states| == |jobs| == |seps|
    requires JobAt(u, seps[1..], ends[1..], states, jobs, i)
    ensures JobAt(u, seps, ends, [s] + states, [job] + jobs, i + 1)
  {
    assert ([s] + states)[i + 1] == states[i] && ([job] + jobs)[i + 1] == jobs[i];
    if i < |seps| - 1 {
      assert ([s] + states)[i + 2] == states[i + 1];
    }
  }

  lemma LineCons(u: Std, s: Sh, job: Table, seps: seq<Sep>, ends: seq<Ends>, states: seq<Sh>, jobs: seq<Table>)
    requires 0 < |seps| <= |ends| && Line(u, seps[1..], ends[1..], states, jobs)
    requires JobAt(u, seps, ends, [s] + states, [job] + jobs, 0)
    ensures Line(u, seps, ends, [s] + states, [job] + jobs)
  {
    forall i: nat | i <= |seps| ensures JobAt(u, seps, ends, [s] + states, [job] + jobs, i) {
      if i > 0 {
        LaterJob(u, s, job, seps, ends, states, jobs, i - 1);
      }
    }
  }

  lemma SameJob(u: Std, seps: seq<Sep>, ends: seq<Ends>, states: seq<Sh>, jobs: seq<Table>,
                states': seq<Sh>, jobs': seq<Table>, i: nat)
    requires JobAt(u, seps, ends, states, jobs, i) && JobAt(u, seps, ends, states', jobs', i)
    requires states[i] == states'[i]
    ensures jobs[i] == jobs'[i] && (i < |seps| ==> states[i + 1] == states'[i + 1])
  {
  }

  /** A line, started in a given state, goes one way only. */
  lemma {:induction false} LineDetermined(u: Std, seps: seq<Sep>, ends: seq<Ends>, states: seq<Sh>, jobs: seq<Table>,
                                          states': seq<Sh>, jobs': seq<Table>, i: nat)
    requires Line(u, seps, ends, states, jobs) && Line(u, seps, ends, states', jobs')
    requires states[0] == states'[0] && i <= |seps|
    ensures states[i] == states'[i] && jobs[i] == jobs'[i] && (i < |seps| ==> states[i + 1] == states'[i + 1])
  {
    if i > 0 {
      LineDetermined(u, seps, ends, states, jobs, states', jobs', i - 1);
    }
    SameJob(u, seps, ends, states, jobs, states', jobs', i);
  }

  lemma LastJob(u: Std, s: Sh, ends: seq<Ends>) returns (job: Table)
    requires Between(u, s)
    ensures |s.fd| == MAX_FD && 0 <= s.nextin < MAX_FD
    ensures Line(u, [], ends, [s], [job]) && Wired(u, [], ends, Input(u, s), [job])
  {
    JobNoPipeWires(u, s);
    job := Ready(u, Input(u, s));
    assert Finishes(u, s, job);
  }

  // The first job of a line with more jobs, and the state it leaves.
  lemma PipeJob(u: Std, s: Sh, e: Ends) returns (next: Sh)
    requires Between(u, s) && 0 <= e.r && 0 <= e.w
    ensures |s.fd| == MAX_FD && 0 <= s.nextin < MAX_FD && |next.fd| == MAX_FD && 0 <= next.nextin < MAX_FD
    ensures JobPipe(s, e) == Some(next) && Between(u, next) && Input(u, next) == e.r
    ensures next.fd[STDIN] == Input(u, s) && next.fd[STDOUT] == e.w && next.fd[STDERR] == u.stderr
  {
    JobPipeWires(u, s, e);
    next := Piped(u, Input(u, s), e);
  }

  lemma PlainJob(u: Std, s: Sh) returns (job: Table)
    requires Between(u, s)
    ensures |s.fd| == MAX_FD && 0 <= s.nextin < MAX_FD
    ensures JobInit(JobNoPipe(s)) == Prompt(u) && Between(u, Prompt(u)) && Input(u, Prompt(u)) == u.stdin
    ensures job == JobNoPipe(s).fd && |job| == MAX_FD
    ensures job[STDIN] == Input(u, s) && job[STDOUT] == u.stdout && job[STDERR] == u.stderr
  {
    JobNoPipeWires(u, s);
    job := Ready(u, Input(u, s));
  }

  lemma FirstJob(u: Std, s: Sh, sep: Sep, e: Ends) returns (next: Sh, job: Table)
    requires Between(u, s) && 0 <= e.r && 0 <= e.w
    ensures |s.fd| == MAX_FD && 0 <= s.nextin < MAX_FD
    ensures Between(u, next) && |next.fd| == MAX_FD && 0 <= next.nextin < MAX_FD
    ensures Input(u, next) == if sep == Pipe then e.r else u.stdin
    ensures Turns(s, sep, e, next, job)
    ensures |job| == MAX_FD && job[STDIN] == Input(u, s) && job[STDERR] == u.stderr
    ensures job[STDOUT] == if sep == Pipe then e.w else u.stdout
  {
    if sep == Pipe {
      next := PipeJob(u, s, e);
      job := next.fd;
    } else {
      job := PlainJob(u, s);
      next := Prompt(u);
    }
  }

  /** The wiring of any command line whose pipes get their descriptions: a job that ends in `|` writes to its own
      pipe and the next job reads from it; every other job uses the shell's own
      standard input and output; and afterwards the shell's table is what it
      was, with no pipe end left in it. */
  lemma {:induction false} LineWires(u: Std, s: Sh, seps: seq<Sep>, ends: seq<Ends>)
    returns (states: seq<Sh>, jobs: seq<Table>)
    requires Between(u, s) && |seps| <= |ends| && Given(ends)
    ensures |s.fd| == MAX_FD && 0 <= s.nextin < MAX_FD
    ensures Line(u, seps, ends, states, jobs) && states[0] == s
    ensures Wired(u, seps, ends, Input(u, s), jobs)
    decreases |seps|
  {
    if seps == [] {
      var job := LastJob(u, s, ends);
      states, jobs := [s], [job];
    } else {
      var next, job := FirstJob(u, s, seps[0], ends[0]);
      var states', jobs' := LineWires(u, next, seps[1..], ends[1..]);
      LineCons(u, s, job, seps, ends, states', jobs');
      WiredCons(u, seps, ends, Input(u, s), job, jobs', Input(u, next));
      states, jobs := [s] + states', [job] + jobs';
    }
  }

  /** A started job keeps only its three standard descriptors, so it holds the
      ends it was wired to and none that it merely inherited. */
  lemma {:induction false} ExecKeepsStandard(t: Table, i: nat)
    requires STDMAX <= i <= |t|
    ensures var c := ExecTable(t, i);
            && |c| == |t|
            && (forall j | 0 <= j < i :: c[j] == t[j])
            && (forall j | i <= j < |t| :: c[j] == CLOSED)
    decreases |t| - i
  {
    if i < |t| {
      ExecKeepsStandard(CloseFd(t, i), i + 1);
    }
  }

  // How many descriptors of started jobs hold `f`.
  function Held(jobs: seq<Table>, f: int): nat {
    if jobs == [] then 0
    else (if |jobs[0]| < STDMAX then 0 else Count(ExecTable(jobs[0], STDMAX), f)) + Held(jobs[1..], f)
  }

  // The shell itself and standard error do not use `f`.
  predicate Foreign(u: Std, f: int) {
    f != u.stdin && f != u.stdout && f != u.stderr && f != u.script && f != CLOSED
  }

  // No pipe of the line has `f` as an end.
  ghost predicate NoEnd(ends: seq<Ends>, f: int) {
    forall k | 0 <= k < |ends| :: ends[k].r != f && ends[k].w != f
  }

  lemma CountStandard(t: Table, f: int)
    requires |t| == MAX_FD && f != CLOSED
    ensures Count(ExecTable(t, STDMAX), f)
         == (if t[STDIN] == f then 1 else 0) + (if t[STDOUT] == f then 1 else 0) + (if t[STDERR] == f then 1 else 0)
  {
    ExecKeepsStandard(t, STDMAX);
    var c := ExecTable(t, STDMAX);
    var rest := c[STDMAX..];
    assert c == [c[0], c[1], c[2]] + rest;
    CountAppend([c[0], c[1], c[2]], rest, f);
    CountZero(rest, f);
    assert [c[0], c[1], c[2]][1..] == [c[1], c[2]];
    assert [c[1], c[2]][1..] == [c[2]];
    assert [c[2]][1..] == [];
    assert Count([c[2]], f) == if c[2] == f then 1 else 0;
    assert Count([c[1], c[2]], f) == (if c[1] == f then 1 else 0) + Count([c[2]], f);
  }

  lemma HeadOfLine(u: Std, seps: seq<Sep>, ends: seq<Ends>, input: int, jobs: seq<Table>, f: int)
    requires |seps| == |ends| && Wired(u, seps, ends, input, jobs) && Foreign(u, f)
    ensures Held(jobs, f)
         == (if input == f then 1 else 0) + (if seps != [] && seps[0] == Pipe && ends[0].w == f then 1 else 0)
          + Held(jobs[1..], f)
    ensures seps != [] ==> Wired(u, seps[1..], ends[1..], if seps[0] == Pipe then ends[0].r else u.stdin, jobs[1..])
  {
    CountStandard(jobs[0], f);
    assert jobs[0][STDIN] == input && jobs[0][STDOUT] == Writes(u, seps, ends, 0);
    if seps != [] {
      var next := if seps[0] == Pipe then ends[0].r else u.stdin;
      forall k | 0 <= k <= |seps[1..]|
        ensures |jobs[1..][k]| == MAX_FD && jobs[1..][k][STDIN] == Reads(u, seps[1..], ends[1..], next, k)
                && jobs[1..][k][STDOUT] == Writes(u, seps[1..], ends[1..], k) && jobs[1..][k][STDERR] == u.stderr
      {
        assert jobs[1..][k] == jobs[k + 1];
        assert Reads(u, seps[1..], ends[1..], next, k) == Reads(u, seps, ends, input, k + 1);
        assert Writes(u, seps[1..], ends[1..], k) == Writes(u, seps, ends, k + 1);
      }
    }
  }

  // A description that is no pipe end is held by a job only if it is what the
  // first job reads.
  lemma {:induction false} HeldAsInput(u: Std, seps: seq<Sep>, ends: seq<Ends>, input: int, jobs: seq<Table>, f: int)
    requires |seps| == |ends| && Wired(u, seps, ends, input, jobs) && Foreign(u, f) && NoEnd(ends, f)
    ensures Held(jobs, f) == if input == f then 1 else 0
    decreases |seps|
  {
    HeadOfLine(u, seps, ends, input, jobs, f);
    if seps != [] {
      HeldAsInput(u, seps[1..], ends[1..], if seps[0] == Pipe then ends[0].r else u.stdin, jobs[1..], f);
    }
  }

  /** Each end of each pipe is held by exactly one descriptor of one job, and by
      no descriptor of the shell once it is back at its prompt.  (Until then the
      shell itself holds the read end for the last job, as its own input.) */
  lemma {:induction false} EndsHeldOnce(u: Std, seps: seq<Sep>, ends: seq<Ends>, input: int, jobs: seq<Table>, k: nat,
                                        f: int)
    requires |seps| == |ends| && Wired(u, seps, ends, input, jobs) && k < |seps| && seps[k] == Pipe
    requires f == ends[k].r || f == ends[k].w
    requires ends[k].r != ends[k].w && input != f && Foreign(u, f)
    requires NoEnd(ends[..k], f) && NoEnd(ends[k + 1..], f)
    ensures Held(jobs, f) == 1 && f !in Prompt(u).fd
    decreases |seps|
  {
    HeadOfLine(u, seps, ends, input, jobs, f);
    var next := if seps[0] == Pipe then ends[0].r else u.stdin;
    if k == 0 {
      HeldAsInput(u, seps[1..], ends[1..], next, jobs[1..], f);
    } else {
      assert ends[..k][0] == ends[0];
      assert ends[1..][..k - 1] == ends[..k][1..];
      assert ends[1..][k..] == ends[k + 1..];
      EndsHeldOnce(u, seps[1..], ends[1..], next, jobs[1..], k - 1, f);
    }
  }

  // ----- start-up -----

  // The shell's preamble, up to the first prompt; `script` is the description
  // that open() returns for a script, if there is one.
  function StartUp(t: Table, script: Option<int>): Option<Sh>
    requires |t| == MAX_FD
  {
    var (t1, nextin) := DupFd(t, STDIN);
    var s := Dup(JobInit(Dup(Sh(t1, nextin), STDOUT)), STDIN);
    match script
    case None => Some(Close(s, 5))
    case Some(f) =>
      var fd := LowestFree(s.fd);
      // the shell insists that its script is descriptor 6
      if fd != 6 then None else Some(Close(s.(fd := s.fd[fd := f]), 5))
  }

  function Started(u: Std): Table {
    [u.stdin, u.stdout, u.stderr, CLOSED, CLOSED, CLOSED, CLOSED, CLOSED]
  }

  function Script(u: Std): Option<int> {
    if u.script < 0 then None else Some(u.script)
  }

  /** The shell reaches its prompt in the right form exactly when it is started
      with its standard input, output and error open; or, without a script, when
      it has neither input nor output to speak of. */
  lemma StartUpExactly(u: Std)
    requires -1 <= u.stdin && -1 <= u.stdout && -1 <= u.stderr && -1 <= u.script
    ensures StartUp(Started(u), Script(u)) == Some(Prompt(u)) <==>
              || (0 <= u.stdin && 0 <= u.stdout && 0 <= u.stderr)
              || (u.stdin < 0 && u.stdout < 0 && u.script < 0)
  {
    if u.stdin < 0 {
      StartUpWithoutStdin(u);
    } else if u.stdout < 0 {
      StartUpWithoutStdout(u);
    } else if 0 <= u.stderr {
      StartUpWorks(u);
    } else {
      StartUpWithoutStderr(u, Script(u));
    }
  }

  // Without a standard input the first dup returns nothing.
  lemma StartUpWithoutStdin(u: Std)
    requires u.stdin == CLOSED && -1 <= u.stdout && -1 <= u.script
    ensures StartUp(Started(u), Script(u)) == Some(Prompt(u)) <==> u.stdout < 0 && u.script < 0
  {
    var t := Started(u);
    LowestFreeIs(t, 0);
    if u.stdout < 0 {
      assert t == Prompt(u.(script := CLOSED)).fd;
      assert CloseFd(CloseFd(t, STDIN), STDOUT) == t == CloseFd(t, 5);
    } else {
      var t1 := t[0 := u.stdout];
      var t2 := CloseFd(CloseFd(t1, STDIN), STDOUT);
      LowestFreeIs(t2, 0);
      assert CloseFd(t2, 5)[1] == CLOSED;
    }
  }

  // Without a standard output the first dup returns 1.
  lemma StartUpWithoutStdout(u: Std)
    requires 0 <= u.stdin && u.stdout == CLOSED && -1 <= u.stderr
    ensures StartUp(Started(u), Script(u)) != Some(Prompt(u))
  {
    var t := Started(u);
    LowestFreeIs(t, 1);
    var t1 := t[1 := u.stdin];
    if u.stderr < 0 {
      LowestFreeIs(t1, 2);
      var t2 := CloseFd(CloseFd(t1[2 := u.stdin], STDIN), STDOUT);
      LowestFreeIs(t2, 0);
      assert CloseFd(t2, 5)[0] == CLOSED;
    } else {
      LowestFreeIs(t1, 3);
      var t2 := CloseFd(t1[3 := u.stdin], STDIN);
      LowestFreeIs(t2, 0);
      var t3 := CloseFd(t2[0 := u.stdin], STDOUT);
      LowestFreeIs(t3, 1);
      var t4 := t3[1 := u.stdin];
      LowestFreeIs(t4, 4);
      assert CloseFd(t4, 5)[1] == u.stdin;
    }
  }

  lemma StartUpWorks(u: Std)
    requires Open(u)
    ensures StartUp(Started(u), Script(u)) == Some(Prompt(u))
  {
    var t := Started(u);
    LowestFreeIs(t, 3);
    var t1 := t[3 := u.stdin];
    LowestFreeIs(t1, 4);
    var t2 := t1[4 := u.stdout];
    var t3 := CloseFd(t2, STDIN);
    LowestFreeIs(t3, 0);
    var t4 := CloseFd(t3[0 := u.stdin], STDOUT);
    LowestFreeIs(t4, 1);
    var t5 := t4[1 := u.stdout];
    LowestFreeIs(t5, 5);
    var t6 := t5[5 := u.stdin];
    LowestFreeIs(t6, 6);
    assert CloseFd(t6, 5) == Prompt(u.(script := CLOSED)).fd;
    assert CloseFd(t6[6 := u.script], 5) == Prompt(u).fd;
  }

  // Without a standard error the first dup returns 2 and everything is off by
  // one: the shell's standard input becomes its standard output.
  lemma StartUpWithoutStderr(u: Std, script: Option<int>)
    requires 0 <= u.stdin && 0 <= u.stdout && u.stderr == CLOSED
    ensures StartUp(Started(u), script) != Some(Prompt(u))
  {
    var t := Started(u);
    LowestFreeIs(t, 2);
    var t1 := t[2 := u.stdin];
    LowestFreeIs(t1, 3);
    var t2 := t1[3 := u.stdout];
    var t3 := CloseFd(t2, STDIN);
    LowestFreeIs(t3, 0);
    var t4 := CloseFd(t3[0 := u.stdout], STDOUT);
    assert DupFd(t4, 4) == (t4, -1);
    LowestFreeIs(t4, 1);
    var t5 := t4[1 := u.stdout];
    LowestFreeIs(t5, 4);
    assert CloseFd(t5, 5)[2] == u.stdin && Prompt(u).fd[2] == CLOSED;
  }
}
