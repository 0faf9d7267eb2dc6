// The timer server itself: delays counted down in place, items leaving the
// queue while it is walked, and clocks stepped digit by digit.
module Timer {
  import opened Common
  import T = TimerSpec

  class TimeOfDay {
    var sec: int
    var min: int
    var hour: int

    function Value(): T.Clock
      reads this
    {
      T.Clock(sec, min, hour)
    }

    constructor ()
      ensures Value() == T.ClockOf(0)
    {
      sec, min, hour := 0, 0, 0;
    }

    // step_timer
    method Step()
      modifies this
      ensures Value() == T.Advance(old(Value()))
    {
      sec := sec + 1;
      if sec != 60 { return; }
      sec := 0;
      min := min + 1;
      if min != 60 { return; }
      min := 0;
      hour := hour + 1;
      if hour != 24 { return; }
      hour := 0;
    }

    method Set(t: T.Clock)
      modifies this
      ensures Value() == t
    {
      sec, min, hour := t.sec, t.min, t.hour;
    }
  }

  class Server {
    var waitQ: seq<T.Waiter>
    var ticks: int
    const uptime: TimeOfDay
    const globtime: TimeOfDay
    // clients whose delay() has been answered, oldest first
    var answered: seq<Pid>

    ghost function State(): T.Sys
      reads this, uptime, globtime
    {
      T.Sys(waitQ, ticks, uptime.Value(), globtime.Value())
    }

    constructor ()
      ensures uptime != globtime && fresh(uptime) && fresh(globtime)
      ensures State() == T.Sys([], 0, T.ClockOf(0), T.ClockOf(0)) && answered == []
      ensures T.Shows(State(), 0)
    {
      waitQ, ticks, answered := [], 0, [];
      uptime := new TimeOfDay();
      globtime := new TimeOfDay();
    }

    // One tick: every delay is a tick shorter, and those that are over leave
    // the queue and are answered while it is walked.
    method ManageDelays()
      modifies `waitQ, `answered
      ensures waitQ == T.Survivors(old(waitQ))
      ensures answered == old(answered) + T.Released(old(waitQ))
    {
      ghost var que := waitQ;
      ghost var n := 0;
      ghost var kept: seq<T.Waiter> := [];
      var i := 0;
      while i < |waitQ|
        invariant 0 <= n <= |que| && i == |kept|
        invariant waitQ == kept + que[n..] && kept == T.Survivors(que[..n])
        invariant answered == old(answered) + T.Released(que[..n])
        decreases |que| - n
      {
        T.OneMore(que, n, kept);
        var w := waitQ[i];
        w := w.(delay := T.Decrement(w.delay));
        if w.delay != 0 {
          waitQ := waitQ[i := w];
          kept := kept + [w];
          i := i + 1;
        } else {
          answered := answered + [w.client];
          waitQ := Remove(waitQ, i);
        }
        n := n + 1;
      }
      assert que[..n] == que;
    }

    // One message to the server; `a` is what its sender gets back.
    method Serve(e: T.Event) returns (a: T.Answer)
      requires uptime != globtime
      modifies this, uptime, globtime
      ensures State() == T.Step(old(State()), e).0
      ensures answered == old(answered) + T.Step(old(State()), e).1
      ensures a == T.AnswerTo(old(State()), e)
    {
      a := T.Done;
      match e {
        case Delay(client, n) =>
          if n != 0 {
            waitQ := waitQ + [T.Waiter(client, n)];
            return T.Held;
          }
          answered := answered + [client];
        case Tick =>
          ticks := ticks + 1;
          if ticks == T.TICKS_PER_SECOND {
            ticks := 0;
            uptime.Step();
            globtime.Step();
          }
          ManageDelays();
        case SetTime(t) =>
          globtime.Set(t);
        case GetUptime =>
          a := T.Time(uptime.Value());
        case GetTime =>
          a := T.Time(globtime.Value());
      }
    }
  }
}
