// One step of hope: whether a waiting process has a live child whose exit it
// would accept, and how each request changes that.  Which waits can ever end
// is the subject of PmProgress.
module PmWait {
  import opened Common
  import opened PmSpec
  import opened PmInvariant
  import opened PmRun

  // Some live child of w has an exit that w accepts.
  ghost predicate Hopeful(s: Sys, w: Rec) {
    exists x :: Awaited(s, w, x)
  }

  ghost predicate Awaited(s: Sys, w: Rec, x: Rec) {
    w in s.proc && Live(s, x) && IsChild(s.proc, x, w) && Accepts(s.proc[w].word, s.proc[x].pid)
  }

  ghost predicate AllHopeful(s: Sys) {
    forall w | w in s.waitQ :: Hopeful(s, w)
  }

  // The wait asks for any child, or for a child that is alive.
  ghost predicate Sensible(s: Sys, a: Action)
    requires Shape(s) && Allowed(s, a)
  {
    a.Wait? ==>
      a.waitfor == TASK_ANY
      || exists x :: Live(s, x) && IsChild(s.proc, x, Client(s, a)) && s.proc[x].pid == a.waitfor
  }

  // A child of w that stays alive, with the same parent, keeps w hopeful.
  lemma StaysHopeful(s: Sys, t: Sys, w: Rec, x: Rec)
    requires Awaited(s, w, x)
    requires w in t.proc && t.proc[w].word == s.proc[w].word
    requires Live(t, x) && x in t.proc && t.proc[x].parent == Some(w) && t.proc[x].pid == s.proc[x].pid
    ensures Hopeful(t, w)
  {
    assert Awaited(t, w, x);
  }

  lemma FrontHope(s: Sys, i: nat)
    requires Inv(s) && i < |s.taskQ|
    ensures forall w :: Hopeful(s, w) <==> Hopeful(Front(s, i), w)
  {
    FrontInv(s, i);
    var t := Front(s, i);
    forall w ensures Hopeful(s, w) <==> Hopeful(t, w) {
      if Hopeful(s, w) {
        var x :| Awaited(s, w, x);
        assert Awaited(t, w, x);
      }
      if Hopeful(t, w) {
        var x :| Awaited(t, w, x);
        assert Awaited(s, w, x);
      }
    }
  }

  // The state after a wait that neither reaps nor fails.
  function Blocked(s: Sys, c: Rec, waitfor: Pid): Sys
    requires c in s.proc && 0 < |s.taskQ|
  {
    Sys(s.taskQ[1..], s.waitQ + [c], s.zombieQ, s.proc[c := s.proc[c].(word := waitfor)])
  }

  lemma SomeLiveChild(s: Sys, c: Rec) returns (x: Rec)
    requires HasLiveChild(s, c)
    ensures Live(s, x) && IsChild(s.proc, x, c)
  {
    if r :| r in s.taskQ && IsChild(s.proc, r, c) {
      x := r;
    } else {
      x :| x in s.waitQ && IsChild(s.proc, x, c);
    }
  }

  lemma BlockedWait(s: Sys, c: Rec, waitfor: Pid) returns (x: Rec)
    requires Inv(s) && 0 < |s.taskQ| && s.taskQ[0] == c && c in s.proc
    requires c in DoWait(s, c, waitfor).sys.waitQ
    ensures DoWait(s, c, waitfor).sys == Blocked(s, c, waitfor)
    ensures Live(s, x) && IsChild(s.proc, x, c)
  {
    Apart(s);
    assert c in s.taskQ;
    var s1 := s.(proc := s.proc[c := s.proc[c].(word := waitfor)]);
    x := SomeLiveChild(s1, c);
  }

  // A wait that blocks leaves its process with a child to wait for when it asks
  // for any child or for one that is alive, and only then.
  lemma BlockedWaitHope(s: Sys, c: Rec, waitfor: Pid)
    requires Inv(s) && 0 < |s.taskQ| && s.taskQ[0] == c && c in s.proc
    requires c in DoWait(s, c, waitfor).sys.waitQ
    ensures var t := DoWait(s, c, waitfor).sys;
            Hopeful(t, c) <==>
              waitfor == TASK_ANY || exists x :: Live(s, x) && IsChild(s.proc, x, c) && s.proc[x].pid == waitfor
  {
    var x := BlockedWait(s, c, waitfor);
    NotOwnParent(s.proc, c);
    var t := DoWait(s, c, waitfor).sys;
    assert s.taskQ == [c] + s.taskQ[1..];
    assert forall x :: Live(s, x) <==> Live(t, x);
    if Hopeful(t, c) && waitfor != TASK_ANY {
      var z :| Awaited(t, c, z);
      assert Live(s, z) && IsChild(s.proc, z, c) && s.proc[z].pid == waitfor;
    }
    if waitfor == TASK_ANY {
      assert Awaited(t, c, x);
    }
    if y :| Live(s, y) && IsChild(s.proc, y, c) && s.proc[y].pid == waitfor {
      assert Awaited(t, c, y);
    }
  }

  // What a wait of c leaves as it was.
  ghost predicate OnlyWaited(s: Sys, t: Sys, c: Rec) {
    && (forall x | Live(s, x) :: Live(t, x) && x in t.proc && x in s.proc)
    && (forall x | Live(t, x) :: Live(s, x))
    && (forall x | Live(s, x) && x != c :: t.proc[x] == s.proc[x])
    && c in t.proc && c in s.proc && t.proc[c].parent == s.proc[c].parent && t.proc[c].pid == s.proc[c].pid
    && (forall x | x in s.waitQ :: x in t.waitQ)
  }

  lemma WaitLives(s: Sys, c: Rec, waitfor: Pid)
    requires Inv(s) && 0 < |s.taskQ| && s.taskQ[0] == c && c in s.proc
    ensures OnlyWaited(s, DoWait(s, c, waitfor).sys, c)
  {
    assert c in s.taskQ;
    if c in DoWait(s, c, waitfor).sys.waitQ {
      Apart(s);
      var x := BlockedWait(s, c, waitfor);
      BlockedLives(s, c, waitfor);
    } else {
      var s1 := s.(proc := s.proc[c := s.proc[c].(word := waitfor)]);
      var i := FindZombie(s1, c, waitfor);
      AnsweredWait(s, c, waitfor, i);
      AnsweredLives(s, c, waitfor, i);
    }
  }

  // The state after a wait that is answered at once: i is the zombie reaped.
  function AnsweredAt(s: Sys, c: Rec, waitfor: Pid, i: int): Sys
    requires c in s.proc && i < |s.zombieQ|
  {
    var s1 := s.(proc := s.proc[c := s.proc[c].(word := waitfor)]);
    if i < 0 then s1 else s1.(zombieQ := Remove(s1.zombieQ, i), proc := s1.proc - {s1.zombieQ[i]})
  }

  lemma AnsweredWait(s: Sys, c: Rec, waitfor: Pid, i: int)
    requires c in s.proc && 0 < |s.taskQ| && c !in DoWait(s, c, waitfor).sys.waitQ
    requires i == FindZombie(s.(proc := s.proc[c := s.proc[c].(word := waitfor)]), c, waitfor)
    ensures DoWait(s, c, waitfor).sys == AnsweredAt(s, c, waitfor, i)
  {
  }

  lemma AnsweredLives(s: Sys, c: Rec, waitfor: Pid, i: int)
    requires Inv(s) && c in s.taskQ && c in s.proc && i < |s.zombieQ|
    ensures OnlyWaited(s, AnsweredAt(s, c, waitfor, i), c)
  {
    Apart(s);
    if 0 <= i {
      var z := s.zombieQ[i];
      assert z in s.zombieQ;
    }
  }

  lemma BlockedLives(s: Sys, c: Rec, waitfor: Pid)
    requires Shape(s) && 0 < |s.taskQ| && s.taskQ[0] == c && c in s.proc
    ensures OnlyWaited(s, Blocked(s, c, waitfor), c)
  {
    assert s.taskQ == [c] + s.taskQ[1..];
  }

  // The wait of another process takes no hope away.
  lemma WaitKeepsHope(s: Sys, c: Rec, waitfor: Pid, w: Rec)
    requires Inv(s) && 0 < |s.taskQ| && s.taskQ[0] == c && c in s.proc && w != c
    requires w in s.waitQ
    ensures var t := DoWait(s, c, waitfor).sys;
            w in t.waitQ && (Hopeful(s, w) <==> Hopeful(t, w))
  {
    Apart(s);
    WaitLives(s, c, waitfor);
    var t := DoWait(s, c, waitfor).sys;
    assert c in s.taskQ && Live(s, w);
    if Hopeful(s, w) {
      var x :| Awaited(s, w, x);
      StaysHopeful(s, t, w, x);
    }
    if Hopeful(t, w) {
      var x :| Awaited(t, w, x);
      StaysHopeful(t, s, w, x);
    }
  }

  lemma SpawnKeepsHope(s: Sys, c: Rec, r: Rec, pid: Pid, w: Rec)
    requires Inv(s) && c in s.taskQ && r !in s.proc && w in s.waitQ
    ensures var t := s.(taskQ := s.taskQ + [r], proc := s.proc[r := Proc(pid, Some(c), 0)]);
            Hopeful(s, w) <==> Hopeful(t, w)
  {
    Apart(s);
    var t := s.(taskQ := s.taskQ + [r], proc := s.proc[r := Proc(pid, Some(c), 0)]);
    if Hopeful(s, w) {
      var x :| Awaited(s, w, x);
      StaysHopeful(s, t, w, x);
    }
    if Hopeful(t, w) {
      var x :| Awaited(t, w, x);
      assert x != r;
      StaysHopeful(t, s, w, x);
    }
  }

  lemma DisownKeepsHope(s: Sys, c: Rec, w: Rec)
    requires Inv(s) && c in s.taskQ && w in s.waitQ
    ensures Hopeful(s, w) <==> Hopeful(Disown(s, c), w)
  {
    Apart(s);
    var t := Disown(s, c);
    if Hopeful(s, w) {
      var x :| Awaited(s, w, x);
      StaysHopeful(s, t, w, x);
    }
    if Hopeful(t, w) {
      var x :| Awaited(t, w, x);
      StaysHopeful(t, s, w, x);
    }
  }

  /** The exit of c releases its waiting parent if the parent accepts it, and
      takes no other hope away; a hopeless process stays waiting and hopeless. */
  lemma DepartKeepsHope(s: Sys, c: Rec, code: int, w: Rec)
    requires Inv(s) && Childless(s, c) && 0 < |s.taskQ| && s.taskQ[0] == c && c in s.proc && w in s.waitQ
    ensures var t := Depart(s, c, code).sys;
            && (w in t.waitQ ==> (Hopeful(s, w) <==> Hopeful(t, w)))
            && (w !in t.waitQ ==> Awaited(s, w, c))
  {
    Apart(s);
    assert c in s.taskQ;
    DepartInv(s, c, code);
    var t := Depart(s, c, code).sys;
    Apart(t);
    assert s.taskQ == [c] + s.taskQ[1..];
    DepartLives(s, c, code);
    if w in t.waitQ {
      if Hopeful(s, w) {
        var x :| Awaited(s, w, x);
        StaysHopeful(s, t, w, x);
      }
      if Hopeful(t, w) {
        var x :| Awaited(t, w, x);
        StaysHopeful(t, s, w, x);
      }
    } else {
      RemoveMembers(s.waitQ, Index(s.waitQ, s.proc[c].parent.value));
    }
  }

  lemma DepartLives(s: Sys, c: Rec, code: int)
    requires Inv(s) && 0 < |s.taskQ| && s.taskQ[0] == c && c in s.proc
    ensures var t := Depart(s, c, code).sys;
            && (forall x | x != c && Live(s, x) :: Live(t, x))
            && (forall x | Live(t, x) :: Live(s, x) && x != c)
            && (forall x | x in t.proc && x != c :: x in s.proc && t.proc[x] == s.proc[x])
            && (forall w | w in t.waitQ :: w in s.waitQ)
            && (forall w | w in t.waitQ :: !Awaited(s, w, c))
  {
    Apart(s);
    assert c in s.taskQ;
    assert s.taskQ == [c] + s.taskQ[1..];
    assert Places(s, c) == 1;
    CountEnds(s.taskQ[1..], c, c);
    CountZero(s.taskQ[1..], c);
    if s.proc[c].parent.Some? {
      var q := s.proc[c].parent.value;
      var i := Index(s.waitQ, q);
      if 0 <= i {
        assert Places(s, q) == 1;
        RemoveMembers(s.waitQ, i);
      }
    }
  }

  /** For a waiting process: a step either leaves it waiting with the same hope,
      or releases it because the awaited child exits. */
  lemma StepHope(s: Sys, a: Action, w: Rec)
    requires Inv(s) && Shape(s) && Allowed(s, a) && w in s.waitQ
    ensures var t := Step(s, a).sys;
            && (w in t.waitQ ==> (Hopeful(s, w) <==> Hopeful(t, w)))
            && (w !in t.waitQ ==> Hopeful(s, w))
  {
    ClientFound(s, a);
    var i := FindByPid(s, a.client);
    var c := s.taskQ[i];
    var s0 := Front(s, i);
    FrontInv(s, i);
    FrontHope(s, i);
    Apart(s0);
    assert s0.taskQ[0] == c && c in s0.taskQ && c in s0.proc && w in s0.waitQ && w != c;
    match a
    case Other(_) =>
    case Spawn(_, r, pid) => SpawnKeepsHope(s0, c, r, pid, w);
    case Wait(_, waitfor) => WaitKeepsHope(s0, c, waitfor, w);
    case Exit(_, code) =>
      DisownInv(s0, c);
      DisownKeepsHope(s0, c, w);
      DepartKeepsHope(Disown(s0, c), c, code, w);
  }

  /** A process that waits for nothing that can happen, such as a pid that is
      not a live child of its own, waits for ever, in every run. */
  lemma {:induction false} HopelessForEver(s: Sys, acts: seq<Action>, w: Rec)
    requires Inv(s) && AllowedRun(s, acts) && w in s.waitQ && !Hopeful(s, w)
    ensures w in Run(s, acts).sys.waitQ && !Hopeful(Run(s, acts).sys, w)
    decreases |acts|
  {
    Apart(s);
    if acts != [] {
      StepInv(s, acts[0]);
      StepHope(s, acts[0], w);
      HopelessForEver(Step(s, acts[0]).sys, acts[1..], w);
    }
  }

  lemma WaiterIsHopeful(s: Sys, c: Rec, waitfor: Pid, w: Rec)
    requires Inv(s) && 0 < |s.taskQ| && s.taskQ[0] == c && c in s.proc
    requires waitfor != TASK_ANY ==> exists x :: Live(s, x) && IsChild(s.proc, x, c) && s.proc[x].pid == waitfor
    requires w in DoWait(s, c, waitfor).sys.waitQ && w !in s.waitQ
    ensures Hopeful(DoWait(s, c, waitfor).sys, w)
  {
    assert w == c;
    BlockedWaitHope(s, c, waitfor);
  }

  lemma ExitStartsNoWait(s: Sys, c: Rec, code: int)
    requires Inv(s) && 0 < |s.taskQ| && s.taskQ[0] == c && c in Disown(s, c).proc
    ensures forall w | w in Depart(Disown(s, c), c, code).sys.waitQ :: w in s.waitQ
  {
    var t := Disown(s, c);
    if t.proc[c].parent.Some? {
      var i := Index(t.waitQ, t.proc[c].parent.value);
      if 0 <= i { RemoveMembers(t.waitQ, i); }
    }
  }

  // A process that starts to wait in this step.
  lemma NewlyWaiting(s: Sys, a: Action, w: Rec)
    requires Inv(s) && Shape(s) && Allowed(s, a) && Sensible(s, a)
    requires w !in s.waitQ && w in Step(s, a).sys.waitQ
    ensures Hopeful(Step(s, a).sys, w)
  {
    ClientFound(s, a);
    var i := FindByPid(s, a.client);
    var c := s.taskQ[i];
    var s0 := Front(s, i);
    FrontInv(s, i);
    Apart(s0);
    assert s0.taskQ[0] == c && c in s0.taskQ && c in s0.proc;
    if a.Exit? {
      DisownInv(s0, c);
      ExitStartsNoWait(s0, c, a.code);
    } else {
      assert a.Wait?;
      if a.waitfor != TASK_ANY {
        var x :| Live(s, x) && IsChild(s.proc, x, c) && s.proc[x].pid == a.waitfor;
        assert Live(s0, x) && IsChild(s0.proc, x, c) && s0.proc[x].pid == a.waitfor;
      }
      WaiterIsHopeful(s0, c, a.waitfor, w);
    }
  }

  lemma StepAllHopeful(s: Sys, a: Action)
    requires Inv(s) && Shape(s) && Allowed(s, a) && AllHopeful(s) && Sensible(s, a)
    ensures AllHopeful(Step(s, a).sys)
  {
    var t := Step(s, a).sys;
    forall w | w in t.waitQ ensures Hopeful(t, w) {
      if w in s.waitQ { StepHope(s, a, w); } else { NewlyWaiting(s, a, w); }
    }
  }

  ghost predicate AllSensible(s: Sys, acts: seq<Action>)
    requires Inv(s) && AllowedRun(s, acts)
    decreases |acts|
  {
    Apart(s);
    acts == [] || (Sensible(s, acts[0]) && (StepInv(s, acts[0]); AllSensible(Step(s, acts[0]).sys, acts[1..])))
  }
}
