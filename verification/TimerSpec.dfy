// The timer server (servers/ts.c): blocked delays and the uptime clock.
module TimerSpec {
  import opened Common

  const TICKS_PER_SECOND: nat := 30
  const DAY: nat := 86400
  const INT_MAX: int := 32767
  const INT_RANGE: int := 65536

  // An int of the target, which wraps around.
  predicate IsInt(x: int) {
    INT_MAX - INT_RANGE < x <= INT_MAX
  }

  function Decrement(x: int): int {
    if x - 1 <= INT_MAX - INT_RANGE then x - 1 + INT_RANGE else x - 1
  }

  datatype Waiter = Waiter(client: Pid, delay: int)

  datatype Clock = Clock(sec: int, min: int, hour: int)

  datatype Sys = Sys(queue: seq<Waiter>, ticks: int, uptime: Clock, globtime: Clock)

  datatype Event = Delay(client: Pid, ticks: int) | Tick | SetTime(t: Clock) | GetUptime | GetTime

  // step_timer
  function Advance(c: Clock): Clock {
    if c.sec + 1 != 60 then c.(sec := c.sec + 1)
    else if c.min + 1 != 60 then c.(sec := 0, min := c.min + 1)
    else if c.hour + 1 != 24 then Clock(0, 0, c.hour + 1)
    else Clock(0, 0, 0)
  }

  // One pass over the waiting tasks.
  function Survivors(q: seq<Waiter>): seq<Waiter> {
    if q == [] then []
    else
      var rest := Survivors(q[..|q| - 1]);
      var w := q[|q| - 1];
      if Decrement(w.delay) == 0 then rest else rest + [w.(delay := Decrement(w.delay))]
  }

  function Released(q: seq<Waiter>): seq<Pid> {
    if q == [] then []
    else
      var rest := Released(q[..|q| - 1]);
      var w := q[|q| - 1];
      if Decrement(w.delay) == 0 then rest + [w.client] else rest
  }

  // Where the walk over the queue stands after one more item: `kept` are the
  // items that stay of the first n.
  lemma OneMore(q: seq<Waiter>, n: nat, kept: seq<Waiter>)
    requires n < |q| && kept == Survivors(q[..n])
    ensures var now := kept + q[n..];
            var w := q[n].(delay := Decrement(q[n].delay));
            && now[|kept|] == q[n]
            && if w.delay == 0 then
                 && Survivors(q[..n + 1]) == kept && Released(q[..n + 1]) == Released(q[..n]) + [w.client]
                 && Remove(now, |kept|) == kept + q[n + 1..]
               else
                 && Survivors(q[..n + 1]) == kept + [w] && Released(q[..n + 1]) == Released(q[..n])
                 && now[|kept| := w] == kept + [w] + q[n + 1..]
  {
    assert q[..n + 1][..n] == q[..n];
    assert q[n..] == [q[n]] + q[n + 1..];
  }

  function TickClock(s: Sys): Sys {
    if s.ticks + 1 == TICKS_PER_SECOND then
      s.(ticks := 0, uptime := Advance(s.uptime), globtime := Advance(s.globtime))
    else s.(ticks := s.ticks + 1)
  }

  // The new state and the clients whose delay() returns.
  function Step(s: Sys, e: Event): (Sys, seq<Pid>) {
    match e
    case Delay(c, n) => if n != 0 then (s.(queue := s.queue + [Waiter(c, n)]), []) else (s, [c])
    case Tick => (TickClock(s).(queue := Survivors(s.queue)), Released(s.queue))
    case SetTime(t) => (s.(globtime := t), [])
    case GetUptime => (s, [])
    case GetTime => (s, [])
  }

  // What the sender of a message gets back at once.
  datatype Answer = Held | Done | Time(clock: Clock)

  function AnswerTo(s: Sys, e: Event): Answer {
    match e
    case Delay(_, n) => if n != 0 then Held else Done
    case Tick => Done
    case SetTime(_) => Done
    case GetUptime => Time(s.uptime)
    case GetTime => Time(s.globtime)
  }

  function Run(s: Sys, es: seq<Event>): (Sys, seq<Pid>)
    decreases |es|
  {
    if es == [] then (s, [])
    else
      var (t, now) := Step(s, es[0]);
      var (u, later) := Run(t, es[1..]);
      (u, now + later)
  }

  function Ticks(es: seq<Event>): nat {
    if es == [] then 0 else (if es[0].Tick? then 1 else 0) + Ticks(es[1..])
  }

  // ----- delays -----

  // On which tick a delay ends: a negative one counts down through the whole
  // range of an int.
  function DueIn(delay: int): int {
    if delay > 0 then delay else delay + INT_RANGE
  }

  ghost predicate Ok(s: Sys) {
    AllInts(s.queue)
  }

  // How many waiting delays of client c end within the next k ticks.
  function Due(q: seq<Waiter>, c: Pid, k: int): nat {
    if q == [] then 0
    else
      var w := q[|q| - 1];
      Due(q[..|q| - 1], c, k) + if w.client == c && DueIn(w.delay) <= k then 1 else 0
  }

  lemma {:induction false} DueAppend(q: seq<Waiter>, w: Waiter, c: Pid, k: int)
    ensures Due(q + [w], c, k) == Due(q, c, k) + if w.client == c && DueIn(w.delay) <= k then 1 else 0
  {
    assert (q + [w])[..|q|] == q;
  }

  ghost predicate AllInts(q: seq<Waiter>) {
    forall i | 0 <= i < |q| :: IsInt(q[i].delay) && q[i].delay != 0
  }

  lemma {:induction false} ReleasedCount(q: seq<Waiter>, c: Pid)
    requires AllInts(q)
    ensures Count(Released(q), c) == Due(q, c, 1)
  {
    if q != [] {
      ReleasedCount(q[..|q| - 1], c);
      CountEnds(Released(q[..|q| - 1]), q[|q| - 1].client, c);
    }
  }

  lemma {:induction false} SurvivorsOk(q: seq<Waiter>)
    requires AllInts(q)
    ensures AllInts(Survivors(q))
  {
    if q != [] {
      SurvivorsOk(q[..|q| - 1]);
    }
  }

  lemma {:induction false} SurvivorsDue(q: seq<Waiter>, c: Pid, k: nat)
    requires AllInts(q)
    ensures Due(Survivors(q), c, k) == Due(q, c, k + 1) - Due(q, c, 1)
  {
    if q != [] {
      var rest, w := q[..|q| - 1], q[|q| - 1];
      SurvivorsDue(rest, c, k);
      DueAppend(Survivors(rest), w.(delay := Decrement(w.delay)), c, k);
    }
  }

  ghost predicate IsEvent(e: Event) {
    e.Delay? ==> IsInt(e.ticks)
  }

  lemma {:induction false} StepOk(s: Sys, e: Event)
    requires Ok(s) && IsEvent(e)
    ensures Ok(Step(s, e).0)
  {
    if e.Tick? { SurvivorsOk(s.queue); }
  }

  // Client c asks for no delay in these events: it is blocked, or elsewhere.
  ghost predicate Quiet(es: seq<Event>, c: Pid) {
    forall i | 0 <= i < |es| :: IsEvent(es[i]) && !(es[i].Delay? && es[i].client == c)
  }

  // What one event does to the delays of a client that does not ask for one.
  lemma {:induction false} StepShifts(s: Sys, e: Event, c: Pid, k: nat)
    requires Ok(s) && IsEvent(e) && !(e.Delay? && e.client == c)
    ensures var (t, now) := Step(s, e);
            var n := if e.Tick? then 1 else 0;
            && Ok(t)
            && Count(now, c) == Due(s.queue, c, n)
            && Due(t.queue, c, k) == Due(s.queue, c, n + k) - Due(s.queue, c, n)
  {
    NoneDueNow(s.queue, c);
    match e {
      case Tick =>
        // a tick releases the delays due in one; every other is due one sooner
        ReleasedCount(s.queue, c);
        SurvivorsOk(s.queue);
        SurvivorsDue(s.queue, c, k);
      case Delay(d, m) =>
        DueAppend(s.queue, Waiter(d, m), c, k);
        assert Count([d], c) == 0;
      case _ =>
    }
  }

  lemma RunStep(s: Sys, es: seq<Event>)
    requires es != []
    ensures var (t, now) := Step(s, es[0]);
            var (u, later) := Run(t, es[1..]);
            Run(s, es) == (u, now + later)
    ensures Ticks(es) == (if es[0].Tick? then 1 else 0) + Ticks(es[1..])
  {
  }

  // `gone` of c's delays have returned after n ticks, and the rest are waiting.
  ghost predicate Accounted(q: seq<Waiter>, c: Pid, n: nat, t: Sys, gone: nat, k: nat) {
    Ok(t) && gone == Due(q, c, n) && Due(t.queue, c, k) == Due(q, c, n + k) - Due(q, c, n)
  }

  // A run that begins with an event of `tick` ticks, which leads to state t.
  lemma {:induction false} AccountedAfter(q: seq<Waiter>, t: Sys, c: Pid, tick: nat, n: nat, u: Sys, gone: nat, k: nat)
    requires Due(t.queue, c, n) == Due(q, c, tick + n) - Due(q, c, tick)
    requires Due(t.queue, c, n + k) == Due(q, c, tick + (n + k)) - Due(q, c, tick)
    requires Accounted(t.queue, c, n, u, gone, k)
    ensures Accounted(q, c, tick + n, u, Due(q, c, tick) + gone, k)
  {
    assert tick + (n + k) == tick + n + k;
  }

  // One event before a run of n ticks that ends in u and returns `later`.
  lemma {:induction false} EventFirst(s: Sys, e: Event, c: Pid, n: nat, u: Sys, later: seq<Pid>, k: nat)
    requires Ok(s) && IsEvent(e) && !(e.Delay? && e.client == c)
    requires Accounted(Step(s, e).0.queue, c, n, u, Count(later, c), k)
    ensures Accounted(s.queue, c, (if e.Tick? then 1 else 0) + n, u, Count(Step(s, e).1 + later, c), k)
  {
    StepShifts(s, e, c, n);
    StepShifts(s, e, c, n + k);
    AccountedAfter(s.queue, Step(s, e).0, c, if e.Tick? then 1 else 0, n, u, Count(later, c), k);
    CountAppend(Step(s, e).1, later, c);
  }

  lemma {:induction false} QuietTail(es: seq<Event>, c: Pid)
    requires Quiet(es, c) && es != []
    ensures Quiet(es[1..], c) && IsEvent(es[0]) && !(es[0].Delay? && es[0].client == c)
  {
  }

  /** Over any run the delays of c that return are exactly those due within the
      run's ticks, however other requests and expiries interleave. */
  lemma {:induction false} ReturnsWhenDue(s: Sys, es: seq<Event>, c: Pid, k: nat)
    requires Ok(s) && Quiet(es, c)
    ensures Accounted(s.queue, c, Ticks(es), Run(s, es).0, Count(Run(s, es).1, c), k)
    decreases |es|
  {
    if es == [] {
      NoneDueNow(s.queue, c);
    } else {
      QuietTail(es, c);
      StepOk(s, es[0]);
      var t := Step(s, es[0]).0;
      ReturnsWhenDue(t, es[1..], c, k);
      EventFirst(s, es[0], c, Ticks(es[1..]), Run(t, es[1..]).0, Run(t, es[1..]).1, k);
      RunStep(s, es);
    }
  }

  lemma {:induction false} NoneDueNow(q: seq<Waiter>, c: Pid)
    requires AllInts(q)
    ensures Due(q, c, 0) == 0
  {
    if q != [] {
      NoneDueNow(q[..|q| - 1], c);
    }
  }

  /** delay(0) returns at once; delay(n) with n > 0 on exactly the n-th tick after
      it is queued; with n < 0 on tick n + 65536; each once, whatever else
      happens. */
  lemma DelayIsExact(s: Sys, c: Pid, n: int, es: seq<Event>)
    requires Ok(s) && IsInt(n) && Quiet(es, c)
    requires forall i | 0 <= i < |s.queue| :: s.queue[i].client != c
    ensures var (t, now) := Step(s, Delay(c, n));
            Count(now + Run(t, es).1, c) == if n == 0 || DueIn(n) <= Ticks(es) then 1 else 0
  {
    var (t, now) := Step(s, Delay(c, n));
    StepOk(s, Delay(c, n));
    ReturnsWhenDue(t, es, c, 0);
    NotWaiting(s.queue, c, Ticks(es));
    CountAppend(now, Run(t, es).1, c);
    if n == 0 {
      CountEnds([], c, c);
    } else {
      DueAppend(s.queue, Waiter(c, n), c, Ticks(es));
    }
  }

  lemma {:induction false} NotWaiting(q: seq<Waiter>, c: Pid, k: int)
    requires forall i | 0 <= i < |q| :: q[i].client != c
    ensures Due(q, c, k) == 0
  {
    if q != [] {
      NotWaiting(q[..|q| - 1], c, k);
    }
  }

  // ----- uptime -----

  // The clock that shows `u` seconds of a day.
  function ClockOf(u: nat): Clock {
    Clock(u % 60, u / 60 % 60, u / 3600)
  }

  // The digits of a number of seconds are unique.
  lemma ClockIs(h: nat, m: nat, s: nat)
    requires m < 60 && s < 60
    ensures ClockOf(3600 * h + 60 * m + s) == Clock(s, m, h)
  {
    var u := 3600 * h + 60 * m + s;
    assert u % 60 == s && u / 60 == 60 * h + m && u / 3600 == h;
    assert (60 * h + m) % 60 == m;
  }

  lemma AdvanceShowsNext(u: nat)
    requires u < DAY
    ensures Advance(ClockOf(u)) == ClockOf((u + 1) % DAY)
  {
    var h, m, s := u / 3600, u % 3600 / 60, u % 60;
    assert u % 3600 == 60 * m + s;
    ClockIs(h, m, s);
    NextDigits(h, m, s);
  }

  lemma NextDigits(h: nat, m: nat, s: nat)
    requires h < 24 && m < 60 && s < 60
    ensures Advance(Clock(s, m, h)) == ClockOf((3600 * h + 60 * m + s + 1) % DAY)
  {
    var u := 3600 * h + 60 * m + s + 1;
    if s < 59 {
      ClockIs(h, m, s + 1);
    } else if m < 59 {
      ClockIs(h, m + 1, 0);
    } else if h < 23 {
      ClockIs(h + 1, 0, 0);
    } else {
      assert u == DAY;
      ClockIs(0, 0, 0);
    }
  }

  // The uptime clock and its sub-second counter after k ticks.
  ghost predicate Shows(s: Sys, k: nat) {
    s.ticks == k % TICKS_PER_SECOND && s.uptime == ClockOf(k / TICKS_PER_SECOND % DAY)
  }

  lemma ShowsNext(s: Sys, k: nat)
    requires Shows(s, k)
    ensures Shows(Step(s, Tick).0, k + 1)
  {
    if k % TICKS_PER_SECOND + 1 == TICKS_PER_SECOND {
      assert (k + 1) / TICKS_PER_SECOND == k / TICKS_PER_SECOND + 1;
      AdvanceShowsNext(k / TICKS_PER_SECOND % DAY);
      ModNext(k / TICKS_PER_SECOND);
    } else {
      assert (k + 1) / TICKS_PER_SECOND == k / TICKS_PER_SECOND;
    }
  }

  lemma ModNext(u: nat)
    ensures (u % DAY + 1) % DAY == (u + 1) % DAY
  {
    var q := u / DAY;
    assert u + 1 == q * DAY + (u % DAY + 1);
  }

  /** After k ticks since start-up the uptime is floor(k / 30) seconds, modulo a
      day, whatever the clients do. */
  lemma {:induction false} UptimeCounts(s: Sys, es: seq<Event>, k: nat)
    requires Shows(s, k)
    ensures Shows(Run(s, es).0, k + Ticks(es))
    ensures AnswerTo(Run(s, es).0, GetUptime) == Time(ClockOf((k + Ticks(es)) / TICKS_PER_SECOND % DAY))
    decreases |es|
  {
    if es != [] {
      if es[0].Tick? {
        ShowsNext(s, k);
        UptimeCounts(Step(s, es[0]).0, es[1..], k + 1);
      } else {
        UptimeCounts(Step(s, es[0]).0, es[1..], k);
      }
    }
  }

  /** Every message is answered at once, but for a delay that has not passed. */
  lemma HeldExactly(s: Sys, e: Event)
    ensures AnswerTo(s, e) == Held <==> e.Delay? && e.client !in Step(s, e).1
    ensures e.Delay? ==> (AnswerTo(s, e) == Held <==> e.ticks != 0)
  {
  }

  // ----- the clock that clients set -----

  // The seconds that the clock has been moved on by, k ticks after start-up.
  function Seconds(k: nat): nat {
    k / TICKS_PER_SECOND
  }

  predicate NeverSet(es: seq<Event>) {
    forall i | 0 <= i < |es| :: !es[i].SetTime?
  }

  // One tick.
  lemma {:induction false} GlobalNext(s: Sys, k: nat, u: nat)
    requires Shows(s, k) && u < DAY && s.globtime == ClockOf(u)
    ensures Seconds(k) <= Seconds(k + 1)
    ensures Step(s, Tick).0.globtime == ClockOf((u + (Seconds(k + 1) - Seconds(k))) % DAY)
  {
    if k % TICKS_PER_SECOND + 1 == TICKS_PER_SECOND {
      assert Seconds(k + 1) == Seconds(k) + 1;
      AdvanceShowsNext(u);
    } else {
      assert Seconds(k + 1) == Seconds(k);
    }
  }

  lemma ModSum(u: nat, a: nat, b: nat)
    ensures ((u + a) % DAY + b) % DAY == (u + a + b) % DAY
  {
    var q := (u + a) / DAY;
    assert u + a + b == q * DAY + ((u + a) % DAY + b);
  }

  lemma SecondsGrow(k: nat, m: nat)
    requires k <= m
    ensures Seconds(k) <= Seconds(m)
  {
  }

  // What the clock shows once `from` seconds have become `to`.
  function Moved(u: nat, from: nat, to: nat): Clock
    requires from <= to
  {
    ClockOf((u + (to - from)) % DAY)
  }

  lemma MovedTwice(u: nat, a: nat, b: nat, c: nat)
    requires a <= b <= c
    ensures Moved((u + (b - a)) % DAY, b, c) == Moved(u, a, c)
  {
    ModSum(u, b - a, c - b);
  }

  /** A clock that has been set to u seconds of the day, k ticks after start-up,
      shows after any run in which nobody sets it again u seconds and those that
      have gone by, modulo a day; and a query is told so. */
  lemma {:induction false} GlobalTimeCounts(s: Sys, es: seq<Event>, k: nat, u: nat)
    requires Shows(s, k) && u < DAY && s.globtime == ClockOf(u) && NeverSet(es)
    ensures Seconds(k) <= Seconds(k + Ticks(es))
    ensures AnswerTo(Run(s, es).0, GetTime) == Time(Moved(u, Seconds(k), Seconds(k + Ticks(es))))
    decreases |es|, 1
  {
    SecondsGrow(k, k + Ticks(es));
    if es != [] {
      assert !es[0].SetTime?;
      if es[0].Tick? {
        TimeAfterTick(s, es, k, u);
      } else {
        GlobalTimeCounts(Step(s, es[0]).0, es[1..], k, u);
      }
    }
  }

  lemma {:induction false} TimeAfterTick(s: Sys, es: seq<Event>, k: nat, u: nat)
    requires Shows(s, k) && u < DAY && s.globtime == ClockOf(u) && NeverSet(es) && es != [] && es[0].Tick?
    ensures Seconds(k) <= Seconds(k + Ticks(es))
    ensures AnswerTo(Run(s, es).0, GetTime) == Time(Moved(u, Seconds(k), Seconds(k + Ticks(es))))
    decreases |es|, 0
  {
    ShowsNext(s, k);
    GlobalNext(s, k, u);
    var a, b := Seconds(k), Seconds(k + 1);
    GlobalTimeCounts(Step(s, es[0]).0, es[1..], k + 1, (u + (b - a)) % DAY);
    MovedTwice(u, a, b, Seconds(k + Ticks(es)));
  }

  /** Setting the clock sets it. */
  lemma {:induction false} SetTimeSets(s: Sys, es: seq<Event>, k: nat, u: nat)
    requires Shows(s, k) && u < DAY && NeverSet(es)
    ensures var t := Run(s, [SetTime(ClockOf(u))] + es).0;
            Seconds(k) <= Seconds(k + Ticks(es))
            && AnswerTo(t, GetTime) == Time(Moved(u, Seconds(k), Seconds(k + Ticks(es))))
  {
    var e := SetTime(ClockOf(u));
    assert ([e] + es)[1..] == es;
    GlobalTimeCounts(Step(s, e).0, es, k, u);
  }
}
