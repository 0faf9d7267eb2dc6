// The process manager itself: its three queues and process records updated in
// place, proved to take the steps of the transition system.
module ProcessManager {
  import opened Common
  import opened PmSpec
  import I = PmInvariant
  import Runs = PmRun

  class Server {
    var taskQ: seq<Rec>
    var waitQ: seq<Rec>
    var zombieQ: seq<Rec>
    var proc: map<Rec, Proc>
    // replies to wait(), oldest first
    var answers: seq<Answer>

    ghost function State(): Sys
      reads this
    {
      Sys(taskQ, waitQ, zombieQ, proc)
    }

    // pm's start: the first process, which has no parent, is running.
    constructor (r: Rec, pid: Pid)
      ensures State() == Runs.Boot(r, pid) && answers == [] && I.Inv(State())
    {
      taskQ, waitQ, zombieQ, answers := [r], [], [], [];
      proc := map[r := Proc(pid, None, 0)];
      new;
      Runs.BootInv(r, pid);
    }

    // pm_findbypid
    method FindPid(pid: Pid) returns (i: int)
      ensures i == FindByPid(State(), pid)
    {
      i := 0;
      while i < |taskQ|
        invariant 0 <= i <= |taskQ|
        invariant forall j | 0 <= j < i :: !HasPid(proc, taskQ[j], pid)
      {
        if HasPid(proc, taskQ[i], pid) {
          return;
        }
        i := i + 1;
      }
      i := -1;
    }

    // The first zombie child the caller waits for, or -1.
    method FindZombieChild(c: Rec) returns (i: int)
      requires c in proc
      ensures i == FindZombie(State(), c, proc[c].word)
    {
      i := 0;
      while i < |zombieQ|
        invariant 0 <= i <= |zombieQ|
        invariant forall j | 0 <= j < i :: !Reapable(proc, zombieQ[j], c, proc[c].word)
      {
        if Reapable(proc, zombieQ[i], c, proc[c].word) {
          return;
        }
        i := i + 1;
      }
      i := -1;
    }

    // Whether the caller has a child in a queue.
    method HasChild(que: seq<Rec>, c: Rec) returns (found: bool)
      ensures found <==> exists r | r in que :: IsChild(proc, r, c)
    {
      var i := 0;
      while i < |que|
        invariant 0 <= i <= |que|
        invariant forall j | 0 <= j < i :: !IsChild(proc, que[j], c)
      {
        if IsChild(proc, que[i], c) {
          assert que[i] in que;
          return true;
        }
        i := i + 1;
      }
      found := false;
    }

    // The place of the parent among the waiting processes, or -1.
    method FindParent(q: Rec) returns (i: int)
      ensures i == Index(waitQ, q)
    {
      i := 0;
      while i < |waitQ|
        invariant 0 <= i <= |waitQ|
        invariant forall j | 0 <= j < i :: waitQ[j] != q
      {
        if waitQ[i] == q {
          return;
        }
        i := i + 1;
      }
      i := -1;
    }

    static lemma {:induction false} NotChildrenSnoc(q: seq<Rec>, x: Rec, p: map<Rec, Proc>, c: Rec)
      ensures NotChildren(q + [x], p, c) == NotChildren(q, p, c) + if IsChild(p, x, c) then [] else [x]
    {
      if q != [] {
        assert (q + [x])[1..] == q[1..] + [x];
        NotChildrenSnoc(q[1..], x, p, c);
      } else {
        assert q + [x] == [x] && [x][1..] == [];
      }
    }

    // Records that survive the removal of c's children among `dead`.
    static function Without(p: map<Rec, Proc>, dead: seq<Rec>, c: Rec): map<Rec, Proc> {
      map r | r in p && !(r in dead && IsChild(p, r, c)) :: p[r]
    }

    static lemma WithoutSnoc(p: map<Rec, Proc>, dead: seq<Rec>, z: Rec, c: Rec)
      ensures Without(p, dead + [z], c) == if IsChild(p, z, c) then Without(p, dead, c) - {z} else Without(p, dead, c)
    {
    }

    // The caller's zombie children leave their queue and are freed while it is
    // walked.
    method RemoveZombieChildren(c: Rec)
      requires forall i, j | 0 <= i < j < |zombieQ| :: zombieQ[i] != zombieQ[j]
      modifies `zombieQ, `proc
      ensures zombieQ == NotChildren(old(zombieQ), old(proc), c)
      ensures proc == Without(old(proc), old(zombieQ), c)
    {
      ghost var que, p := zombieQ, proc;
      ghost var n := 0;
      ghost var kept: seq<Rec> := [];   // what stays of que[..n]
      var i := 0;
      while i < |zombieQ|
        invariant 0 <= n <= |que| && i == |kept|
        invariant zombieQ == kept + que[n..]
        invariant kept == NotChildren(que[..n], p, c)
        invariant proc == Without(p, que[..n], c)
        decreases |que| - n
      {
        ghost var next := WalkOn(que, n, kept, p, c);
        if IsChild(proc, zombieQ[i], c) {
          proc := proc - {zombieQ[i]};
          zombieQ := Remove(zombieQ, i);
        } else {
          i := i + 1;
        }
        n, kept := n + 1, next;
      }
      assert que[..n] == que;
    }

    // Walking over one more zombie.
    static lemma WalkOn(que: seq<Rec>, n: nat, kept: seq<Rec>, p: map<Rec, Proc>, c: Rec) returns (next: seq<Rec>)
      requires n < |que| && forall i, j | 0 <= i < j < |que| :: que[i] != que[j]
      requires kept == NotChildren(que[..n], p, c)
      ensures var z := que[n];
              var all := kept + que[n..];
              && all[|kept|] == z
              && next == NotChildren(que[..n + 1], p, c)
              && (IsChild(Without(p, que[..n], c), z, c) <==> IsChild(p, z, c))
              && (if IsChild(p, z, c) then
                    && next == kept && Remove(all, |kept|) == next + que[n + 1..]
                    && Without(p, que[..n + 1], c) == Without(p, que[..n], c) - {z}
                  else
                    && |next| == |kept| + 1 && all == next + que[n + 1..]
                    && Without(p, que[..n + 1], c) == Without(p, que[..n], c))
    {
      var z := que[n];
      assert que[..n + 1] == que[..n] + [z];
      assert z !in que[..n];
      NotChildrenSnoc(que[..n], z, p, c);
      WithoutSnoc(p, que[..n], z, c);
      NextItem(que, n, kept);
      next := if IsChild(p, z, c) then kept else kept + [z];
    }

    static lemma NextItem(que: seq<Rec>, n: nat, kept: seq<Rec>)
      requires n < |que|
      ensures (kept + que[n..])[|kept|] == que[n]
      ensures Remove(kept + que[n..], |kept|) == kept + que[n + 1..]
      ensures kept + que[n..] == (kept + [que[n]]) + que[n + 1..]
    {
      assert que[n..] == [que[n]] + que[n + 1..];
    }

    // Records after the children of c in `que` have lost their parent.
    static function OrphanedIn(p: map<Rec, Proc>, que: seq<Rec>, c: Rec): map<Rec, Proc> {
      map r | r in p :: if r in que then Orphaned(p[r], c) else p[r]
    }

    // The caller's children in a queue lose their parent.
    method MakeOrphans(que: seq<Rec>, c: Rec)
      modifies `proc
      ensures proc == OrphanedIn(old(proc), que, c)
    {
      ghost var p := proc;
      var i := 0;
      while i < |que|
        invariant 0 <= i <= |que|
        invariant proc == OrphanedIn(p, que[..i], c)
      {
        assert que[..i + 1] == que[..i] + [que[i]];
        if IsChild(proc, que[i], c) {
          proc := proc[que[i] := proc[que[i]].(parent := None)];
        }
        i := i + 1;
      }
      assert que[..i] == que;
    }

    static lemma DisownAgrees(s: Sys, c: Rec)
      requires I.Inv(s)
      ensures OrphanedIn(OrphanedIn(Without(s.proc, s.zombieQ, c), s.waitQ, c), s.taskQ, c) == Disown(s, c).proc
    {
      I.Apart(s);
      var mine := OrphanedIn(OrphanedIn(Without(s.proc, s.zombieQ, c), s.waitQ, c), s.taskQ, c);
      var goal := Disown(s, c).proc;
      assert mine.Keys == goal.Keys;
      forall r | r in goal ensures mine[r] == goal[r] {
        assert r in s.taskQ || r in s.waitQ || (r in s.zombieQ && !IsChild(s.proc, r, c));
      }
    }

    static lemma NoRepeats(s: Sys)
      requires I.Inv(s)
      ensures forall i, j | 0 <= i < j < |s.zombieQ| :: s.zombieQ[i] != s.zombieQ[j]
    {
      forall i, j | 0 <= i < j < |s.zombieQ| ensures s.zombieQ[i] != s.zombieQ[j] {
        var z := s.zombieQ[i];
        assert I.Places(s, z) <= 1;
        assert s.zombieQ == s.zombieQ[..j] + s.zombieQ[j..];
        CountAppend(s.zombieQ[..j], s.zombieQ[j..], z);
        assert s.zombieQ[..j][i] == z;
        CountZero(s.zombieQ[..j], z);
        CountZero(s.zombieQ[j..], z);
        assert s.zombieQ[j..][0] == s.zombieQ[j];
      }
    }

    method Disinherit(c: Rec)
      requires I.Inv(State()) && c in taskQ
      modifies `zombieQ, `proc
      ensures State() == Disown(old(State()), c)
    {
      NoRepeats(State());
      DisownAgrees(State(), c);
      RemoveZombieChildren(c);
      MakeOrphans(waitQ, c);
      MakeOrphans(taskQ, c);
    }

    // The waiting parent q, the i-th in wait_q, is told of c's exit.
    method WakeParent(c: Rec, q: Rec, i: nat, code: int)
      requires c in proc && 0 < |taskQ| && i < |waitQ|
      modifies this
      ensures waitQ == Remove(old(waitQ), i) && taskQ == old(taskQ)[1..] + [q] && zombieQ == old(zombieQ)
      ensures proc == old(proc) - {c} && answers == old(answers) + [Child(q, old(proc)[c].pid, code)]
    {
      waitQ := Remove(waitQ, i);
      taskQ := taskQ[1..] + [q];
      answers := answers + [Child(q, proc[c].pid, code)];
      proc := proc - {c};
    }

    // The exit code waits in zombie_q for the parent to ask.
    method Bury(c: Rec, code: int)
      requires c in proc && 0 < |taskQ|
      modifies `proc, `zombieQ, `taskQ
      ensures State() == I.Buried(old(State()), c, code)
    {
      proc := proc[c := proc[c].(word := code)];
      zombieQ := zombieQ + [c];
      taskQ := taskQ[1..];
    }

    // The rest of do_exit, once the children have been dealt with.
    method Leave(c: Rec, code: int)
      requires c in proc && 0 < |taskQ| && taskQ[0] == c
      requires proc[c].parent.Some? ==> proc[c].parent.value in proc
      modifies this
      ensures State() == Depart(old(State()), c, code).sys
      ensures answers == old(answers) + Depart(old(State()), c, code).answers
    {
      if proc[c].parent.None? {
        taskQ := taskQ[1..];
        proc := proc - {c};
        return;
      }
      var q := proc[c].parent.value;
      var i := FindParent(q);
      if 0 <= i && (proc[q].word == proc[c].pid || proc[q].word == TASK_ANY) {
        WakeParent(c, q, i, code);
      } else {
        Bury(c, code);
      }
    }

    // Zombies do not count: the caller has reaped them before it asks.
    method HasAnyChild(c: Rec) returns (found: bool)
      ensures found == HasLiveChild(State(), c)
    {
      var running := HasChild(taskQ, c);
      var waiting := HasChild(waitQ, c);
      found := running || waiting;
    }

    method Settle(c: Rec, waitfor: Pid)
      requires c in proc && 0 < |taskQ| && taskQ[0] == c && proc[c].word == waitfor
      modifies this
      ensures State() == Await(old(State()), c, waitfor).sys
      ensures answers == old(answers) + Await(old(State()), c, waitfor).answers
    {
      var i := FindZombieChild(c);
      if 0 <= i {
        Reap(c, i);
      } else {
        BlockUnlessAlone(c);
      }
    }

    method BlockUnlessAlone(c: Rec)
      requires 0 < |taskQ|
      modifies `answers, `taskQ, `waitQ
      ensures if HasLiveChild(old(State()), c) then
                answers == old(answers) && taskQ == old(taskQ)[1..] && waitQ == old(waitQ) + [c]
              else
                answers == old(answers) + [NoChild(c)] && taskQ == old(taskQ) && waitQ == old(waitQ)
    {
      var found := HasAnyChild(c);
      if !found {
        answers := answers + [NoChild(c)];
      } else {
        waitQ := waitQ + [c];
        taskQ := taskQ[1..];
      }
    }

    // do_wait
    method AwaitChild(c: Rec, waitfor: Pid)
      requires c in proc && 0 < |taskQ| && taskQ[0] == c
      modifies this
      ensures State() == DoWait(old(State()), c, waitfor).sys
      ensures answers == old(answers) + DoWait(old(State()), c, waitfor).answers
    {
      proc := proc[c := proc[c].(word := waitfor)];
      Settle(c, waitfor);
    }

    // The i-th zombie is reported to its parent c and freed.
    method Reap(c: Rec, i: nat)
      requires i < |zombieQ| && zombieQ[i] in proc
      modifies `answers, `zombieQ, `proc
      ensures var z := old(zombieQ)[i];
              && answers == old(answers) + [Child(c, old(proc)[z].pid, old(proc)[z].word)]
              && zombieQ == Remove(old(zombieQ), i)
              && proc == old(proc) - {z}
    {
      var z := zombieQ[i];
      answers := answers + [Child(c, proc[z].pid, proc[z].word)];
      zombieQ := Remove(zombieQ, i);
      proc := proc - {z};
    }

    // do_exit
    method Exit(c: Rec, code: int)
      requires I.Inv(State()) && 0 < |taskQ| && taskQ[0] == c
      modifies this
      ensures c in Disown(old(State()), c).proc && 0 < |Disown(old(State()), c).taskQ|
      ensures State() == Depart(Disown(old(State()), c), c, code).sys
      ensures answers == old(answers) + Depart(Disown(old(State()), c), c, code).answers
    {
      assert c in taskQ;
      I.DisownInv(State(), c);
      Disinherit(c);
      I.Apart(State());
      Leave(c, code);
    }

    // The requesting process goes to the front of task_q.
    method Admit(a: Action) returns (c: Rec)
      requires I.Inv(State()) && Shape(State()) && Allowed(State(), a)
      modifies `taskQ
      ensures 0 <= FindByPid(old(State()), a.client) && c == old(taskQ)[FindByPid(old(State()), a.client)]
      ensures State() == Front(old(State()), FindByPid(old(State()), a.client))
      ensures I.Inv(State()) && c in proc && taskQ[0] == c
    {
      ClientFound(State(), a);
      var i := FindPid(a.client);
      c := taskQ[i];
      I.FrontInv(State(), i);
      taskQ := [c] + Remove(taskQ, i);
      I.Apart(State());
      assert c in taskQ;
    }

    // What the client asked for.
    method Perform(c: Rec, a: Action)
      requires I.Inv(State()) && 0 < |taskQ| && taskQ[0] == c && c in proc
      modifies this
      ensures match a
              case Other(_) => State() == old(State()) && answers == old(answers)
              case Spawn(_, r, pid) =>
                && taskQ == old(taskQ) + [r] && proc == old(proc)[r := Proc(pid, Some(c), 0)]
                && waitQ == old(waitQ) && zombieQ == old(zombieQ) && answers == old(answers)
              case Wait(_, waitfor) =>
                var e := DoWait(old(State()), c, waitfor); State() == e.sys && answers == old(answers) + e.answers
              case Exit(_, code) =>
                var t := Disown(old(State()), c);
                && c in t.proc && 0 < |t.taskQ|
                && State() == Depart(t, c, code).sys && answers == old(answers) + Depart(t, c, code).answers
    {
      match a {
        case Other(_) =>
        case Spawn(_, r, pid) =>
          proc := proc[r := Proc(pid, Some(c), 0)];
          taskQ := taskQ + [r];
        case Wait(_, waitfor) => AwaitChild(c, waitfor);
        case Exit(_, code) => Exit(c, code);
      }
    }

    // One request: the client goes to the front of task_q and is served.
    method Serve(a: Action)
      requires I.Inv(State()) && Shape(State()) && Allowed(State(), a)
      modifies this
      ensures I.Inv(State()) && Shape(State())
      ensures State() == Step(old(State()), a).sys
      ensures answers == old(answers) + Step(old(State()), a).answers
    {
      I.StepInv(State(), a);
      var c := Admit(a);
      Perform(c, a);
    }
  }
}
