// Which child a waitpid reports: pids are distinct among live processes only,
// since the kernel may give the pid of a zombie to a new task.
module PmReports {
  import opened Common
  import opened PmSpec
  import opened PmInvariant
  import opened PmRun
  import opened PmProgress

  // Process c waits for pid p, which is that of its live child x.
  ghost predicate Awaits(s: Sys, c: Rec, x: Rec, p: Pid) {
    && c in s.waitQ && c in s.proc && s.proc[c].word == p
    && Live(s, x) && IsChild(s.proc, x, c) && s.proc[x].pid == p
  }

  // Some zombie child of c has pid p.
  predicate OldNamesake(s: Sys, c: Rec, p: Pid) {
    exists z | z in s.zombieQ :: IsChild(s.proc, z, c) && s.proc[z].pid == p
  }

  /** A waitpid for the pid of a live child comes to wait for that child exactly
      when no zombie child has the same pid; otherwise it is answered at once,
      with a zombie. */
  lemma {:induction false} WaitpidExactly(s: Sys, c: Rec, x: Rec, p: Pid)
    requires Inv(s) && 0 < |s.taskQ| && s.taskQ[0] == c && c in s.proc && p != TASK_ANY
    requires Live(s, x) && IsChild(s.proc, x, c) && s.proc[x].pid == p
    ensures var e := DoWait(s, c, p);
            && (Awaits(e.sys, c, x, p) <==> !OldNamesake(s, c, p))
            && (Awaits(e.sys, c, x, p) ==> e.answers == [])
            && (OldNamesake(s, c, p) ==>
                  exists z | z in s.zombieQ :: z != x && IsChild(s.proc, z, c)
                      && e.answers == [Child(c, p, s.proc[z].word)])
  {
    Apart(s);
    var s1 := s.(proc := s.proc[c := s.proc[c].(word := p)]);
    assert c in s.taskQ && x != c by { NotOwnParent(s.proc, c); }
    var i := FindZombie(s1, c, p);
    if 0 <= i {
      var z := s.zombieQ[i];
      assert z in s.zombieQ && z != c && IsChild(s.proc, z, c);
    } else {
      if OldNamesake(s, c, p) {
        var z :| z in s.zombieQ && IsChild(s.proc, z, c) && s.proc[z].pid == p;
        assert Reapable(s1.proc, z, c, p);
      }
      assert HasLiveChild(s1, c);
      var t := DoWait(s, c, p).sys;
      assert t.waitQ[|s.waitQ|] == c;
      assert s.taskQ == [c] + s.taskQ[1..];
    }
  }

  // The step is the exit of the awaited child.
  predicate Exits(a: Action, p: Pid) {
    a.Exit? && a.client == p
  }

  // Nothing is said to c.
  predicate Silent(answers: seq<Answer>, c: Rec) {
    forall i | 0 <= i < |answers| :: answers[i].to != c
  }

  lemma {:induction false} DisownAwaits(s: Sys, k: Rec, c: Rec, x: Rec, p: Pid)
    requires Inv(s) && k in s.taskQ && k in s.proc && Awaits(s, c, x, p)
    ensures var d := Disown(s, k);
            && k in d.proc && d.proc[k].pid == s.proc[k].pid && Awaits(d, c, x, p)
            && d.taskQ == s.taskQ && d.waitQ == s.waitQ
  {
    Apart(s);
  }

  // A process with another pid leaves.
  lemma {:induction false} DepartAwaits(d: Sys, k: Rec, code: int, c: Rec, x: Rec, p: Pid)
    requires 0 < |d.taskQ| && d.taskQ[0] == k && k in d.proc && k != x && k != c && d.proc[k].pid != p && p != TASK_ANY
    requires Awaits(d, c, x, p)
    ensures var e := Depart(d, k, code);
            Awaits(e.sys, c, x, p) && Silent(e.answers, c)
  {
    assert d.taskQ == [k] + d.taskQ[1..];
    if d.proc[k].parent.Some? {
      var q := d.proc[k].parent.value;
      var i := Index(d.waitQ, q);
      if 0 <= i {
        RemoveMembers(d.waitQ, i);
        assert (d.taskQ[1..] + [q])[|d.taskQ| - 1] == q;
      }
    }
  }

  // The end of another process k.
  lemma {:induction false} ExitOfOther(s: Sys, k: Rec, code: int, c: Rec, x: Rec, p: Pid)
    requires Inv(s) && 0 < |s.taskQ| && s.taskQ[0] == k && k in s.proc && k != x && p != TASK_ANY && Awaits(s, c, x, p)
    ensures k in Disown(s, k).proc
    ensures var e := Depart(Disown(s, k), k, code);
            Awaits(e.sys, c, x, p) && Silent(e.answers, c)
  {
    Apart(s);
    assert k in s.taskQ && Live(s, k) && Live(s, x);
    DisownAwaits(s, k, c, x, p);
    DepartAwaits(Disown(s, k), k, code, c, x, p);
  }

  // The end of x itself.
  lemma {:induction false} ExitOfChild(s: Sys, code: int, c: Rec, x: Rec, p: Pid)
    requires Inv(s) && 0 < |s.taskQ| && s.taskQ[0] == x && Awaits(s, c, x, p)
    ensures x in Disown(s, x).proc
    ensures var e := Depart(Disown(s, x), x, code);
            e.answers == [Child(c, p, code)] && c in e.sys.taskQ && x !in e.sys.proc
  {
    Apart(s);
    NotOwnParent(s.proc, x);
    var d := Disown(s, x);
    var t := Depart(d, x, code).sys;
    assert t.taskQ[|t.taskQ| - 1] == c;
  }

  lemma {:induction false} FrontAwaits(s: Sys, i: nat, c: Rec, x: Rec, p: Pid)
    requires i < |s.taskQ| && Awaits(s, c, x, p)
    ensures Awaits(Front(s, i), c, x, p)
  {
    RemoveMembers(s.taskQ, i);
  }

  lemma {:induction false} WaitOfOther(s: Sys, k: Rec, waitfor: Pid, c: Rec, x: Rec, p: Pid)
    requires Inv(s) && 0 < |s.taskQ| && s.taskQ[0] == k && k in s.proc && Awaits(s, c, x, p)
    ensures var e := DoWait(s, k, waitfor);
            Awaits(e.sys, c, x, p) && Silent(e.answers, c)
  {
    Apart(s);
    assert k in s.taskQ && k != c;
    var s1 := s.(proc := s.proc[k := s.proc[k].(word := waitfor)]);
    var i := FindZombie(s1, k, waitfor);
    assert s.taskQ == [k] + s.taskQ[1..];
    if 0 <= i {
      assert s.zombieQ[i] in s.zombieQ;
    } else if HasLiveChild(s1, k) {
      assert (s.waitQ + [k])[|s.waitQ|] == k;
    }
  }

  /** While c waits for its child x, a step either is the exit of x, which c is
      told, or leaves c waiting for x and tells it nothing. */
  lemma {:induction false} AwaitedChild(s: Sys, a: Action, c: Rec, x: Rec, p: Pid)
    requires Inv(s) && Shape(s) && Allowed(s, a) && p != TASK_ANY && Awaits(s, c, x, p)
    ensures var e := Step(s, a);
            if Exits(a, p) then e.answers == [Child(c, p, a.code)] && c in e.sys.taskQ
            else Awaits(e.sys, c, x, p) && Silent(e.answers, c)
  {
    ClientFound(s, a);
    var i := FindByPid(s, a.client);
    var k := s.taskQ[i];
    var s0 := Front(s, i);
    FrontInv(s, i);
    FrontAwaits(s, i, c, x, p);
    Apart(s0);
    assert s0.taskQ[0] == k && k in s0.taskQ && k in s0.proc;
    assert a.client == p <==> k == x by { assert Live(s, k) && Live(s, x); }
    match a
    case Other(_) =>
    case Spawn(_, r, pid) =>
      assert forall y | y in s0.taskQ :: y in s0.taskQ + [r];
    case Wait(_, waitfor) => WaitOfOther(s0, k, waitfor, c, x, p);
    case Exit(_, code) =>
      if k == x { ExitOfChild(s0, code, c, x, p); } else { ExitOfOther(s0, k, code, c, x, p); }
  }

  /** So in every run c waits for that very child, and hears nothing, until the
      child exits. */
  lemma {:induction false} WaitpidUntil(s: Sys, acts: seq<Action>, c: Rec, x: Rec, p: Pid)
    requires Inv(s) && AllowedRun(s, acts) && p != TASK_ANY && Awaits(s, c, x, p)
    requires forall i | 0 <= i < |acts| :: !Exits(acts[i], p)
    ensures Awaits(Run(s, acts).sys, c, x, p) && Silent(Run(s, acts).answers, c)
    decreases |acts|
  {
    if acts != [] {
      Apart(s);
      StepInv(s, acts[0]);
      AwaitedChild(s, acts[0], c, x, p);
      WaitpidUntil(Step(s, acts[0]).sys, acts[1..], c, x, p);
    }
  }

  // Process q waits and would accept the exit of its child c.
  predicate WaitsFor(s: Sys, q: Rec, c: Rec) {
    q in s.waitQ && q in s.proc && IsChild(s.proc, c, q) && Accepts(s.proc[q].word, s.proc[c].pid)
  }

  // The answer to a wait of c: a zombie's, none, or that there is no child.
  ghost predicate WaitAnswered(s: Sys, c: Rec, waitfor: Pid, answers: seq<Answer>) {
    if exists z | z in s.zombieQ :: Reapable(s.proc, z, c, waitfor) then |answers| == 1 && answers[0].Child?
    else if exists x :: Live(s, x) && IsChild(s.proc, x, c) then answers == []
    else answers == [NoChild(c)]
  }

  lemma {:induction false} WaitAnswers(s: Sys, c: Rec, waitfor: Pid)
    requires Inv(s) && 0 < |s.taskQ| && s.taskQ[0] == c && c in s.proc
    ensures WaitAnswered(s, c, waitfor, DoWait(s, c, waitfor).answers)
  {
    var s1 := s.(proc := s.proc[c := s.proc[c].(word := waitfor)]);
    forall z ensures Reapable(s1.proc, z, c, waitfor) <==> Reapable(s.proc, z, c, waitfor) {
    }
    forall x ensures IsChild(s1.proc, x, c) <==> IsChild(s.proc, x, c) {
    }
    var i := FindZombie(s1, c, waitfor);
    if 0 <= i {
      assert s.zombieQ[i] in s.zombieQ && Reapable(s.proc, s.zombieQ[i], c, waitfor);
    } else if HasLiveChild(s1, c) {
      var x :| (x in s.taskQ || x in s.waitQ) && IsChild(s1.proc, x, c);
      assert Live(s, x) && IsChild(s.proc, x, c);
    }
  }

  // The answer to an exit of c: its parent's, if that waits for it.
  ghost predicate ExitAnswered(s: Sys, c: Rec, code: int, answers: seq<Answer>) {
    c in s.proc &&
    if exists q :: WaitsFor(s, q, c) then
      s.proc[c].parent.Some? && answers == [Child(s.proc[c].parent.value, s.proc[c].pid, code)]
    else answers == []
  }

  lemma {:induction false} ExitAnswers(s: Sys, c: Rec, code: int)
    requires Inv(s) && 0 < |s.taskQ| && s.taskQ[0] == c && c in s.proc
    ensures c in Disown(s, c).proc && ExitAnswered(s, c, code, Depart(Disown(s, c), c, code).answers)
  {
    Apart(s);
    assert c in s.taskQ;
    NotOwnParent(s.proc, c);
    var d := Disown(s, c);
    assert d.proc[c] == s.proc[c] && d.waitQ == s.waitQ;
    if s.proc[c].parent.Some? {
      var q := s.proc[c].parent.value;
      if q in s.waitQ {
        assert q in s.proc && q in d.proc && d.proc[q].word == s.proc[q].word;
        assert WaitsFor(s, q, c) <==> Accepts(s.proc[q].word, s.proc[c].pid);
      }
    }
  }

  lemma {:induction false} SameForFront(s: Sys, i: nat)
    requires i < |s.taskQ|
    ensures var t := Front(s, i);
            t.proc == s.proc && t.zombieQ == s.zombieQ && t.waitQ == s.waitQ && forall x :: Live(t, x) <==> Live(s, x)
  {
    RemoveMembers(s.taskQ, i);
  }

  /** Who is told what by a request: a wait that neither reaps nor blocks is told
      that there is no child, exactly when its caller has no live child and no
      zombie child that it asks for; an exit is told to the parent, exactly if
      that waits for it; and nobody else hears anything. */
  lemma {:induction false} AnswersExactly(s: Sys, a: Action)
    requires Inv(s) && Shape(s) && Allowed(s, a)
    ensures var answers := Step(s, a).answers;
            match a
            case Spawn(_, _, _) => answers == []
            case Other(_) => answers == []
            case Exit(_, code) => ExitAnswered(s, Client(s, a), code, answers)
            case Wait(_, waitfor) => WaitAnswered(s, Client(s, a), waitfor, answers)
  {
    ClientFound(s, a);
    var i := FindByPid(s, a.client);
    var c := s.taskQ[i];
    var s0 := Front(s, i);
    FrontInv(s, i);
    SameForFront(s, i);
    Apart(s0);
    assert s0.taskQ[0] == c && c in s0.taskQ && c in s0.proc;
    match a
    case Spawn(_, _, _) =>
    case Other(_) =>
    case Exit(_, code) =>
      ExitAnswers(s0, c, code);
      assert forall q :: WaitsFor(s0, q, c) <==> WaitsFor(s, q, c);
    case Wait(_, waitfor) => WaitAnswers(s0, c, waitfor);
  }

  /** A request that is none of these touches no process. */
  lemma {:induction false} OtherRequest(s: Sys, client: Pid)
    requires Inv(s) && Shape(s) && Allowed(s, Other(client))
    ensures var t := Step(s, Other(client)).sys;
            && t.proc == s.proc && t.waitQ == s.waitQ && t.zombieQ == s.zombieQ
            && forall r :: r in t.taskQ <==> r in s.taskQ
  {
    ClientFound(s, Other(client));
    RemoveMembers(s.taskQ, FindByPid(s, client));
  }

  // Process 1 has a zombie child 2 and a running child 3 with the same pid.
  function Namesakes(): Sys {
    Sys([1, 3], [], [2], map[1 := Proc(1, None, 0), 2 := Proc(2, Some(1), 7), 3 := Proc(2, Some(1), 0)])
  }

  /** In a good state, a waitpid for a running child is answered at once with the
      exit code of another one that had its pid before. */
  lemma {:induction false} OldChildReported()
    ensures var s := Namesakes();
            && Inv(s) && 3 in s.taskQ && IsChild(s.proc, 3, 1) && s.proc[3].pid == 2
            && DoWait(s, 1, 2).answers == [Child(1, 2, 7)] && 3 in DoWait(s, 1, 2).sys.taskQ
  {
    var s := Namesakes();
    ZombieAndTwo(s, 1, 3, 2);
    WaitpidExactly(s, 1, 3, 2);
    assert 2 in s.zombieQ && IsChild(s.proc, 2, 1);
  }

  lemma {:induction false} ZombieAndTwo(s: Sys, a: Rec, b: Rec, z: Rec)
    requires a != b && b != z && a != z
    requires s.taskQ == [a, b] && s.waitQ == [] && s.zombieQ == [z] && s.proc.Keys == {a, b, z}
    requires s.proc[a].parent == None && s.proc[b].parent == Some(a) && s.proc[z].parent == Some(a)
    requires s.proc[a].pid != s.proc[b].pid
    ensures Inv(s)
  {
    forall r ensures Places(s, r) == if r in s.proc then 1 else 0 {
      assert s.taskQ == [a] + [b];
      CountEnds([b], a, r);
      assert [b][1..] == [] && [z][1..] == [];
    }
    assert Ranked(s.proc, map[a := 0, b := 1, z := 1], 2);
  }

  ghost predicate Leads(s: Sys, a: Action, t: Sys) {
    Inv(s) && Shape(s) && Allowed(s, a) && t == Step(s, a).sys && Inv(t)
  }

  lemma {:induction false} FirstBorn(s: Sys, t: Sys)
    requires s == Boot(1, 1) && t == Sys([1, 2], [], [], map[1 := Proc(1, None, 0), 2 := Proc(2, Some(1), 0)])
    ensures Leads(s, Spawn(1, 2, 2), t)
  {
    BootInv(1, 1);
    BornBy(s, t, 1, 2, 2);
  }

  lemma {:induction false} SecondBorn(s: Sys)
    requires Inv(s) && s == Sys([1], [], [2], map[1 := Proc(1, None, 0), 2 := Proc(2, Some(1), 7)])
    ensures Leads(s, Spawn(1, 3, 2), Namesakes())
  {
    BornBy(s, Namesakes(), 1, 3, 2);
  }

  /** And a run from start-up gets to that state. */
  lemma {:induction false} NamesakesReached() returns (acts: seq<Action>)
    ensures Inv(Boot(1, 1)) && AllowedRun(Boot(1, 1), acts) && Run(Boot(1, 1), acts).sys == Namesakes()
  {
    var s := Sys([1, 2], [], [], map[1 := Proc(1, None, 0), 2 := Proc(2, Some(1), 0)]);
    var t := Sys([1], [], [2], map[1 := Proc(1, None, 0), 2 := Proc(2, Some(1), 7)]);
    FirstBorn(Boot(1, 1), s);
    DiesAs(s, t);
    SecondBorn(t);
    acts := ThreeSteps(Boot(1, 1), s, t, Namesakes(), Spawn(1, 2, 2), Exit(2, 7), Spawn(1, 3, 2));
  }

  lemma {:induction false} ThreeSteps(s: Sys, t: Sys, u: Sys, v: Sys, a: Action, b: Action, c: Action)
    returns (acts: seq<Action>)
    requires Leads(s, a, t) && Leads(t, b, u) && Leads(u, c, v)
    ensures Inv(s)
    ensures AllowedRun(s, acts) && Run(s, acts).sys == v
  {
    RunCons(u, c, []);
    RunCons(t, b, [c] + []);
    RunCons(s, a, [b] + ([c] + []));
    acts := [a] + ([b] + ([c] + []));
  }

  lemma {:induction false} BornBy(s: Sys, t: Sys, c: Rec, r: Rec, pid: Pid)
    requires Inv(s) && s.taskQ == [c] && s.waitQ == [] && c in s.proc && s.proc[c].pid == c && pid != c && r !in s.proc
    requires t == s.(taskQ := [c, r], proc := s.proc[r := Proc(pid, Some(c), 0)])
    ensures Leads(s, Spawn(c, r, pid), t)
  {
    Apart(s);
    assert c in s.taskQ && HasPid(s.proc, c, c);
    StepInv(s, Spawn(c, r, pid));
  }

  lemma {:induction false} DiesAs(s: Sys, t: Sys)
    requires Inv(s) && s == Sys([1, 2], [], [], map[1 := Proc(1, None, 0), 2 := Proc(2, Some(1), 0)])
    requires t == Sys([1], [], [2], map[1 := Proc(1, None, 0), 2 := Proc(2, Some(1), 7)])
    ensures Leads(s, Exit(2, 7), t)
  {
    BecomesZombie(s, 1, 2, 7);
    assert t == Sys([1], [], [2], s.proc[2 := s.proc[2].(word := 7)]);
  }

  // The only child of a running process ends.
  lemma {:induction false} BecomesZombie(s: Sys, c: Rec, r: Rec, code: int)
    requires Inv(s) && s.taskQ == [c, r] && s.waitQ == [] && s.zombieQ == [] && c in s.proc && r in s.proc
    requires s.proc.Keys == {c, r} && s.proc[c].parent == None && s.proc[r].parent == Some(c)
    requires s.proc[c].pid != s.proc[r].pid && c != r
    ensures Leads(s, Exit(s.proc[r].pid, code), Sys([c], [], [r], s.proc[r := s.proc[r].(word := code)]))
  {
    var a := Exit(s.proc[r].pid, code);
    Apart(s);
    assert s.taskQ[1] == r && HasPid(s.proc, r, a.client) && !HasPid(s.proc, s.taskQ[0], a.client);
    assert FindByPid(s, a.client) == 1;
    var s0 := Front(s, 1);
    assert s0.taskQ == [r, c];
    assert Disown(s0, r).proc == s.proc;
    StepInv(s, a);
  }
}
