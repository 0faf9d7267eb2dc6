// The shell's main loop over one command line, as the system calls it makes.
module Shell {
  import opened Common
  import opened FdTable
  import S = ShellSpec

  class Session {
    var fd: Table
    var nextin: int
    // the tables that jobs were started with, oldest first
    var jobs: seq<Table>

    ghost function State(): S.Sh
      reads this
    {
      S.Sh(fd, nextin)
    }

    method Close(i: nat)
      requires i < |fd|
      modifies `fd
      ensures fd == CloseFd(old(fd), i)
    {
      fd := fd[i := CLOSED];
    }

    method Dup(i: int) returns (r: int)
      requires i < |fd|
      modifies `fd
      ensures (fd, r) == DupFd(old(fd), i)
    {
      if i < 0 || fd[i] < 0 {
        return -1;
      }
      r := LowestFree(fd);
      if r < 0 {
        return -1;
      }
      fd := fd[r := fd[i]];
    }

    // `e` are the descriptions that the server binds to the two ends.
    method Pipe(e: S.Ends) returns (fdi: int, fdo: int)
      modifies `fd
      ensures (fd, fdi, fdo) == PipeFd(old(fd), e.r, e.w)
    {
      fdo := -1;
      fdi := LowestFree(fd);
      if fdi < 0 {
        return;
      }
      fd := fd[fdi := e.r];
      fdo := LowestFree(fd);
      if fdo < 0 {
        return;
      }
      fd := fd[fdo := e.w];
    }

    // JOB_INIT
    method JobInit()
      requires |fd| == MAX_FD
      modifies `fd, `nextin
      ensures State() == S.JobInit(old(State()))
    {
      Close(S.STDIN);
      var r := Dup(3);
      Close(S.STDOUT);
      r := Dup(4);
      nextin := 3;
    }

    // JOB_PIPE
    method JobPipe(e: S.Ends)
      requires |fd| == MAX_FD && nextin < MAX_FD && S.JobPipe(State(), e).Some?
      modifies `fd, `nextin
      ensures State() == S.JobPipe(old(State()), e).value
    {
      Close(S.STDIN);
      var r := Dup(nextin);
      Close(5);
      var pip0, pip1 := Pipe(e);
      Close(S.STDOUT);
      r := Dup(pip1);
      Close(pip1);
      nextin := pip0;
    }

    // JOB_NOPIPE
    method JobNoPipe()
      requires |fd| == MAX_FD && nextin < MAX_FD
      modifies `fd
      ensures State() == S.JobNoPipe(old(State()))
    {
      Close(S.STDIN);
      var r := Dup(nextin);
      Close(5);
      Close(S.STDOUT);
      r := Dup(4);
    }

    // A job is started; it inherits the table.
    method Execute()
      modifies `jobs
      ensures jobs == old(jobs) + [fd]
    {
      jobs := jobs + [fd];
    }

    // The loop over the separators of a line, and its last job.
    method RunLine(seps: seq<S.Sep>, ends: seq<S.Ends>, ghost u: S.Std)
      requires S.Between(u, State()) && |seps| <= |ends| && S.Given(ends)
      modifies `fd, `nextin, `jobs
      ensures |old(fd)| == MAX_FD && 0 <= old(nextin) < MAX_FD
      ensures State() == S.Prompt(u)
      ensures |old(jobs)| <= |jobs| && jobs[..|old(jobs)|] == old(jobs)
      ensures S.Wired(u, seps, ends, S.Input(u, old(State())), jobs[|old(jobs)|..])
    {
      ghost var states, all := S.LineWires(u, State(), seps, ends);
      WalkLine(seps, ends, u, states, all);
      assert jobs[|old(jobs)|..] == all;
    }

    method WalkLine(seps: seq<S.Sep>, ends: seq<S.Ends>, ghost u: S.Std, ghost states: seq<S.Sh>, ghost all: seq<Table>)
      requires S.Line(u, seps, ends, states, all) && State() == states[0]
      modifies `fd, `nextin, `jobs
      ensures State() == S.Prompt(u) && jobs == old(jobs) + all
    {
      var i := 0;
      while i < |seps|
        invariant 0 <= i <= |seps| && State() == states[i]
        invariant jobs == old(jobs) + all[..i]
      {
        StartJob(seps, ends, i, u, states, all);
        i := i + 1;
      }
      StartLast(seps, ends, u, states, all);
    }

    // One turn of the loop.
    method StartJob(seps: seq<S.Sep>, ends: seq<S.Ends>, i: nat, ghost u: S.Std, ghost states: seq<S.Sh>,
                    ghost all: seq<Table>)
      requires S.Line(u, seps, ends, states, all) && i < |seps| && State() == states[i]
      modifies `fd, `nextin, `jobs
      ensures State() == states[i + 1] && jobs == old(jobs) + [all[i]]
    {
      assert S.JobAt(u, seps, ends, states, all, i);
      match seps[i] {
        case Pipe =>
          JobPipe(ends[i]);
          Execute();
        case _ =>
          FinishLine();
      }
    }

    method StartLast(seps: seq<S.Sep>, ends: seq<S.Ends>, ghost u: S.Std, ghost states: seq<S.Sh>,
                     ghost all: seq<Table>)
      requires S.Line(u, seps, ends, states, all) && State() == states[|seps|]
      modifies `fd, `nextin, `jobs
      ensures State() == S.Prompt(u) && jobs == old(jobs) + [all[|seps|]]
    {
      assert S.JobAt(u, seps, ends, states, all, |seps|);
      FinishLine();
    }

    // A job that reads from nextin and writes to the shell's output.
    method FinishLine()
      requires |fd| == MAX_FD && nextin < MAX_FD
      modifies `fd, `nextin, `jobs
      ensures State() == S.JobInit(S.JobNoPipe(old(State())))
      ensures jobs == old(jobs) + [S.JobNoPipe(old(State())).fd]
    {
      JobNoPipe();
      Execute();
      JobInit();
    }
  }
}
