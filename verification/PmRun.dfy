// Runs of the process manager: every exit code is accounted for, and waiting
// processes make progress exactly when what they wait for can happen.
module PmRun {
  import opened Common
  import opened PmSpec
  import opened PmInvariant

  // The first process, which has no parent.
  function Boot(r: Rec, pid: Pid): Sys {
    Sys([r], [], [], map[r := Proc(pid, None, 0)])
  }

  lemma BootInv(r: Rec, pid: Pid)
    ensures Inv(Boot(r, pid))
  {
    var s := Boot(r, pid);
    forall x ensures Places(s, x) == if x in s.proc then 1 else 0 {
      assert Count([r][1..], x) == 0;
    }
    assert Ranked(s.proc, map[r := 0], 1);
  }

  // The process that makes the request.
  function Client(s: Sys, a: Action): Rec
    requires Shape(s) && Allowed(s, a)
  {
    ClientFound(s, a);
    s.taskQ[FindByPid(s, a.client)]
  }

  ghost predicate AllowedRun(s: Sys, acts: seq<Action>)
    requires Inv(s)
    decreases |acts|
  {
    Apart(s);
    acts == [] || (Allowed(s, acts[0]) && (StepInv(s, acts[0]); AllowedRun(Step(s, acts[0]).sys, acts[1..])))
  }

  ghost function Run(s: Sys, acts: seq<Action>): Effect
    requires Inv(s) && AllowedRun(s, acts)
    decreases |acts|
  {
    Apart(s);
    if acts == [] then Effect(s, [])
    else
      StepInv(s, acts[0]);
      var e := Step(s, acts[0]);
      var rest := Run(e.sys, acts[1..]);
      Effect(rest.sys, e.answers + rest.answers)
  }

  /** In every run: every zombie has a live parent, no parent pointer dangles,
      the forest is acyclic, and nobody waits while a matching child is dead. */
  lemma {:induction false} RunInv(s: Sys, acts: seq<Action>)
    requires Inv(s) && AllowedRun(s, acts)
    ensures Inv(Run(s, acts).sys)
    decreases |acts|
  {
    Apart(s);
    if acts != [] {
      StepInv(s, acts[0]);
      RunInv(Step(s, acts[0]).sys, acts[1..]);
    }
  }

  // ----- every exit code is accounted for -----

  // The exit of a child with pid p of process q, with code v.
  datatype Death = Death(q: Rec, p: Pid, v: int)

  predicate IsTomb(proc: map<Rec, Proc>, z: Rec, d: Death) {
    z in proc && proc[z] == Proc(d.p, Some(d.q), d.v)
  }

  function Tombs(zombies: seq<Rec>, proc: map<Rec, Proc>, d: Death): nat {
    if zombies == [] then 0 else (if IsTomb(proc, zombies[0], d) then 1 else 0) + Tombs(zombies[1..], proc, d)
  }

  // The step is this exit, of a process that still has a parent.
  function Died(s: Sys, a: Action, d: Death): nat
    requires Shape(s) && Allowed(s, a)
  {
    var c := Client(s, a);
    if a.Exit? && a.code == d.v && c in s.proc && s.proc[c].pid == d.p && s.proc[c].parent == Some(d.q) then 1 else 0
  }

  function Reported(answers: seq<Answer>, d: Death): nat {
    if answers == [] then 0 else (if answers[0] == Child(d.q, d.p, d.v) then 1 else 0) + Reported(answers[1..], d)
  }

  // The unreported exit is forgotten because its parent exits.
  function Discarded(s: Sys, a: Action, d: Death): nat
    requires Shape(s) && Allowed(s, a)
  {
    if a.Exit? && Client(s, a) == d.q then Tombs(s.zombieQ, s.proc, d) else 0
  }

  lemma {:induction false} TombsSame(zombies: seq<Rec>, a: map<Rec, Proc>, b: map<Rec, Proc>, d: Death)
    requires forall z | z in zombies :: IsTomb(a, z, d) <==> IsTomb(b, z, d)
    ensures Tombs(zombies, a, d) == Tombs(zombies, b, d)
  {
    if zombies != [] {
      assert zombies[0] in zombies;
      TombsSame(zombies[1..], a, b, d);
    }
  }

  lemma {:induction false} TombsAppend(x: seq<Rec>, y: seq<Rec>, proc: map<Rec, Proc>, d: Death)
    ensures Tombs(x + y, proc, d) == Tombs(x, proc, d) + Tombs(y, proc, d)
  {
    if x == [] {
      assert x + y == y;
    } else {
      assert (x + y)[1..] == x[1..] + y;
      TombsAppend(x[1..], y, proc, d);
    }
  }

  lemma TombsRemove(zombies: seq<Rec>, i: nat, proc: map<Rec, Proc>, d: Death)
    requires i < |zombies|
    ensures Tombs(Remove(zombies, i), proc, d) == Tombs(zombies, proc, d) - if IsTomb(proc, zombies[i], d) then 1 else 0
  {
    assert Remove(zombies, i) == zombies[..i] + zombies[i + 1..];
    assert zombies == zombies[..i] + ([zombies[i]] + zombies[i + 1..]);
    TombsAppend(zombies[..i], [zombies[i]] + zombies[i + 1..], proc, d);
    assert ([zombies[i]] + zombies[i + 1..])[1..] == zombies[i + 1..];
    TombsAppend(zombies[..i], zombies[i + 1..], proc, d);
  }

  lemma {:induction false} TombsOfOthers(zombies: seq<Rec>, proc: map<Rec, Proc>, c: Rec, d: Death)
    ensures Tombs(NotChildren(zombies, proc, c), proc, d) == if d.q == c then 0 else Tombs(zombies, proc, d)
  {
    if zombies != [] {
      TombsOfOthers(zombies[1..], proc, c, d);
      var z := zombies[0];
      TombsAppend(if IsChild(proc, z, c) then [] else [z], NotChildren(zombies[1..], proc, c), proc, d);
      assert Tombs([z], proc, d) == if IsTomb(proc, z, d) then 1 else 0;
    }
  }

  lemma WaitLedger(s: Sys, c: Rec, waitfor: Pid, d: Death)
    requires Inv(s) && 0 < |s.taskQ| && s.taskQ[0] == c && c in s.proc
    ensures var e := DoWait(s, c, waitfor);
            Tombs(s.zombieQ, s.proc, d) == Reported(e.answers, d) + Tombs(e.sys.zombieQ, e.sys.proc, d)
  {
    Apart(s);
    assert c in s.taskQ;
    SetWordInv(s, c, waitfor);
    var s1 := s.(proc := s.proc[c := s.proc[c].(word := waitfor)]);
    TombsSame(s.zombieQ, s.proc, s1.proc, d);
    var i := FindZombie(s1, c, waitfor);
    if 0 <= i {
      var z := s1.zombieQ[i];
      assert z in s1.zombieQ && Places(s1, z) == 1;
      TombsRemove(s1.zombieQ, i, s1.proc, d);
      RemoveMembers(s1.zombieQ, i);
      TombsSame(Remove(s1.zombieQ, i), s1.proc, s1.proc - {z}, d);
      var answer := Child(c, s1.proc[z].pid, s1.proc[z].word);
      assert [answer][1..] == [];
    }
  }

  lemma DisownLedger(s: Sys, c: Rec, d: Death)
    requires Inv(s) && c in s.taskQ
    ensures var t := Disown(s, c);
            Tombs(s.zombieQ, s.proc, d)
            == (if d.q == c then Tombs(s.zombieQ, s.proc, d) else 0) + Tombs(t.zombieQ, t.proc, d)
  {
    TombsOfOthers(s.zombieQ, s.proc, c, d);
    TombsSame(NotChildren(s.zombieQ, s.proc, c), s.proc, Disown(s, c).proc, d);
  }

  lemma BuryLedger(s: Sys, c: Rec, code: int, d: Death)
    requires Inv(s) && 0 < |s.taskQ| && s.taskQ[0] == c && c in s.proc
    ensures var t := Buried(s, c, code);
            Tombs(t.zombieQ, t.proc, d)
            == Tombs(s.zombieQ, s.proc, d) + if s.proc[c].(word := code) == Proc(d.p, Some(d.q), d.v) then 1 else 0
  {
    Apart(s);
    assert c in s.taskQ;
    var proc := Buried(s, c, code).proc;
    TombsSame(s.zombieQ, s.proc, proc, d);
    TombsAppend(s.zombieQ, [c], proc, d);
    assert Tombs([c], proc, d) == if IsTomb(proc, c, d) then 1 else 0;
  }

  lemma VanishLedger(s: Sys, c: Rec, d: Death)
    requires Inv(s) && 0 < |s.taskQ| && s.taskQ[0] == c && c in s.proc
    ensures Tombs(s.zombieQ, s.proc - {c}, d) == Tombs(s.zombieQ, s.proc, d)
  {
    Apart(s);
    assert c in s.taskQ;
    TombsSame(s.zombieQ, s.proc, s.proc - {c}, d);
  }

  lemma ReportedOne(x: Answer, d: Death)
    ensures Reported([x], d) == if x == Child(d.q, d.p, d.v) then 1 else 0
  {
    assert [x][1..] == [];
  }

  lemma DepartLedger(s: Sys, c: Rec, code: int, d: Death)
    requires Inv(s) && 0 < |s.taskQ| && s.taskQ[0] == c && c in s.proc
    ensures var e := Depart(s, c, code);
            (if s.proc[c].(word := code) == Proc(d.p, Some(d.q), d.v) then 1 else 0) + Tombs(s.zombieQ, s.proc, d)
            == Reported(e.answers, d) + Tombs(e.sys.zombieQ, e.sys.proc, d)
  {
    VanishLedger(s, c, d);
    var p := s.proc[c];
    if p.parent.Some? {
      var q := p.parent.value;
      if 0 <= Index(s.waitQ, q) && q in s.proc && Accepts(s.proc[q].word, p.pid) {
        ReportedOne(Child(q, p.pid, code), d);
      } else {
        BuryLedger(s, c, code, d);
      }
    }
  }

  lemma ExitLedger(s: Sys, c: Rec, code: int, d: Death)
    requires Inv(s) && 0 < |s.taskQ| && s.taskQ[0] == c
    ensures var t := Disown(s, c);
            && c in s.proc && c in t.proc && 0 < |t.taskQ|
            && var e := Depart(t, c, code);
               (if s.proc[c].(word := code) == Proc(d.p, Some(d.q), d.v) then 1 else 0) + Tombs(s.zombieQ, s.proc, d)
               == Reported(e.answers, d) + (if d.q == c then Tombs(s.zombieQ, s.proc, d) else 0)
                  + Tombs(e.sys.zombieQ, e.sys.proc, d)
  {
    assert c in s.taskQ;
    DisownInv(s, c);
    DisownLedger(s, c, d);
    DepartLedger(Disown(s, c), c, code, d);
  }

  lemma StepLedger(s: Sys, a: Action, d: Death)
    requires Inv(s) && Shape(s) && Allowed(s, a)
    ensures var e := Step(s, a);
            Died(s, a, d) + Tombs(s.zombieQ, s.proc, d)
            == Reported(e.answers, d) + Discarded(s, a, d) + Tombs(e.sys.zombieQ, e.sys.proc, d)
  {
    ClientFound(s, a);
    var i := FindByPid(s, a.client);
    var c := s.taskQ[i];
    var s0 := Front(s, i);
    FrontInv(s, i);
    Apart(s0);
    assert s0.taskQ[0] == c && c in s0.taskQ && c in s0.proc;
    match a
    case Other(_) =>
    case Spawn(_, r, pid) => TombsSame(s0.zombieQ, s0.proc, s0.proc[r := Proc(pid, Some(c), 0)], d);
    case Wait(_, waitfor) => WaitLedger(s0, c, waitfor, d);
    case Exit(_, code) => ExitLedger(s0, c, code, d);
  }

  ghost function AllDied(s: Sys, acts: seq<Action>, d: Death): nat
    requires Inv(s) && AllowedRun(s, acts)
    decreases |acts|
  {
    Apart(s);
    if acts == [] then 0 else StepInv(s, acts[0]); Died(s, acts[0], d) + AllDied(Step(s, acts[0]).sys, acts[1..], d)
  }

  ghost function AllDiscarded(s: Sys, acts: seq<Action>, d: Death): nat
    requires Inv(s) && AllowedRun(s, acts)
    decreases |acts|
  {
    Apart(s);
    if acts == [] then 0
    else StepInv(s, acts[0]); Discarded(s, acts[0], d) + AllDiscarded(Step(s, acts[0]).sys, acts[1..], d)
  }

  lemma ReportedAppend(x: seq<Answer>, y: seq<Answer>, d: Death)
    ensures Reported(x + y, d) == Reported(x, d) + Reported(y, d)
  {
    if x == [] {
      assert x + y == y;
    } else {
      assert (x + y)[1..] == x[1..] + y;
      ReportedAppend(x[1..], y, d);
    }
  }

  /** Conservation of exit codes over whole runs: the exits of q's children with
      a given pid and code are those reported to q with that pid and code, those
      forgotten when q itself exited, and those still held by zombies.  So each
      exit is reported at most once, to the true parent, with its own code. */
  lemma {:induction false} ExitsAccountedFor(s: Sys, acts: seq<Action>, d: Death)
    requires Inv(s) && AllowedRun(s, acts)
    ensures var e := Run(s, acts);
            AllDied(s, acts, d) + Tombs(s.zombieQ, s.proc, d)
            == Reported(e.answers, d) + AllDiscarded(s, acts, d) + Tombs(e.sys.zombieQ, e.sys.proc, d)
    decreases |acts|
  {
    Apart(s);
    if acts != [] {
      StepInv(s, acts[0]);
      StepLedger(s, acts[0], d);
      var e := Step(s, acts[0]);
      ExitsAccountedFor(e.sys, acts[1..], d);
      ReportedAppend(e.answers, Run(e.sys, acts[1..]).answers, d);
    }
  }
}
