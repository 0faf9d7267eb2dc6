// What every request to the process manager keeps: no lost exits, no dangling
// parents, an acyclic forest.
module PmInvariant {
  import opened Common
  import opened PmSpec

  function Places(s: Sys, r: Rec): nat {
    Count(s.taskQ, r) + Count(s.waitQ, r) + Count(s.zombieQ, r)
  }

  // Every record is in exactly one queue.
  ghost predicate Partition(s: Sys) {
    forall r {:trigger Places(s, r)} :: Places(s, r) == if r in s.proc then 1 else 0
  }

  // A parent pointer leads to a live record; only orphans have none, and a
  // zombie is not an orphan.
  ghost predicate ParentsLive(s: Sys) {
    && (forall r | r in s.proc && s.proc[r].parent.Some? :: Live(s, s.proc[r].parent.value))
    && (forall z | z in s.zombieQ :: z in s.proc && s.proc[z].parent.Some?)
  }

  // No waiting process has a dead child whose exit it would accept.
  ghost predicate NoLostExit(s: Sys) {
    forall w, z | w in s.waitQ && w in s.proc && z in s.zombieQ :: !Reapable(s.proc, z, w, s.proc[w].word)
  }

  ghost predicate PidsDistinct(s: Sys) {
    forall a, b | a in s.proc && b in s.proc && Live(s, a) && Live(s, b) && s.proc[a].pid == s.proc[b].pid :: a == b
  }

  // Children are born after their parents: `rank` orders the forest.
  ghost predicate Ranked(proc: map<Rec, Proc>, rank: map<Rec, nat>, bound: nat) {
    forall r | r in proc ::
      && r in rank && rank[r] < bound
      && (proc[r].parent.Some? ==> proc[r].parent.value in rank && rank[proc[r].parent.value] < rank[r])
  }

  ghost predicate Acyclic(proc: map<Rec, Proc>) {
    exists rank, bound :: Ranked(proc, rank, bound)
  }

  ghost predicate Inv(s: Sys) {
    Partition(s) && ParentsLive(s) && NoLostExit(s) && PidsDistinct(s) && Acyclic(s.proc)
  }

  // ----- the queues are disjoint -----

  lemma Apart(s: Sys)
    requires Partition(s)
    ensures Shape(s)
    ensures forall r | r in s.taskQ :: r !in s.waitQ && r !in s.zombieQ
    ensures forall r | r in s.waitQ :: r !in s.zombieQ
    ensures forall r | r in s.proc :: r in s.taskQ || r in s.waitQ || r in s.zombieQ
  {
    forall r ensures
        && (r in s.taskQ ==> r !in s.waitQ && r !in s.zombieQ && r in s.proc)
        && (r in s.waitQ ==> r !in s.zombieQ && r in s.proc)
        && (r in s.zombieQ ==> r in s.proc)
        && (r in s.proc ==> r in s.taskQ || r in s.waitQ || r in s.zombieQ)
    {
      assert Places(s, r) == if r in s.proc then 1 else 0;
      CountZero(s.taskQ, r);
      CountZero(s.waitQ, r);
      CountZero(s.zombieQ, r);
    }
  }

  // ----- moving the client to the front -----

  lemma FrontInv(s: Sys, i: nat)
    requires Inv(s) && i < |s.taskQ|
    ensures Inv(Front(s, i))
    ensures forall r :: r in Front(s, i).taskQ <==> r in s.taskQ
  {
    var t := Front(s, i);
    Apart(s);
    RemoveMembers(s.taskQ, i);
    forall r ensures Places(t, r) == Places(s, r) {
      CountRemove(s.taskQ, i, r);
      CountEnds(Remove(s.taskQ, i), s.taskQ[i], r);
    }
    forall r ensures r in t.taskQ <==> r in s.taskQ {
      if r == s.taskQ[i] { assert t.taskQ[0] == r; }
    }
  }

  // ----- spawn -----

  // A child of c with record r.
  function Spawned(s: Sys, c: Rec, r: Rec, pid: Pid): Sys {
    s.(taskQ := s.taskQ + [r], proc := s.proc[r := Proc(pid, Some(c), 0)])
  }

  lemma SpawnPartition(s: Sys, c: Rec, r: Rec, pid: Pid)
    requires Partition(s) && r !in s.proc
    ensures Partition(Spawned(s, c, r, pid))
  {
    var t := Spawned(s, c, r, pid);
    forall x ensures Places(t, x) == if x in t.proc then 1 else 0 {
      assert Places(s, x) == if x in s.proc then 1 else 0;
      CountEnds(s.taskQ, r, x);
    }
  }

  lemma SpawnLinks(s: Sys, c: Rec, r: Rec, pid: Pid)
    requires Inv(s) && c in s.taskQ && r !in s.proc
    requires forall x | Live(s, x) :: !HasPid(s.proc, x, pid)
    ensures var t := Spawned(s, c, r, pid); ParentsLive(t) && NoLostExit(t) && PidsDistinct(t)
  {
    Apart(s);
    forall x | Live(s, x) && x in s.proc ensures s.proc[x].pid != pid {
      assert !HasPid(s.proc, x, pid);
    }
  }

  lemma SpawnInv(s: Sys, c: Rec, r: Rec, pid: Pid)
    requires Inv(s) && c in s.taskQ && r !in s.proc
    requires forall x | x in s.taskQ :: !HasPid(s.proc, x, pid)
    requires forall x | x in s.waitQ :: !HasPid(s.proc, x, pid)
    ensures Inv(Spawned(s, c, r, pid))
  {
    Apart(s);
    SpawnPartition(s, c, r, pid);
    SpawnLinks(s, c, r, pid);
    var rank, bound :| Ranked(s.proc, rank, bound);
    SpawnRanked(s.proc, rank, bound, c, r, Proc(pid, Some(c), 0));
  }

  lemma SpawnRanked(proc: map<Rec, Proc>, rank: map<Rec, nat>, bound: nat, c: Rec, r: Rec, p: Proc)
    requires Ranked(proc, rank, bound) && c in proc && r !in proc && p.parent == Some(c)
    requires forall x | x in proc && proc[x].parent.Some? :: proc[x].parent.value in proc
    ensures Acyclic(proc[r := p])
  {
    assert Ranked(proc[r := p], rank[r := rank[c] + 1], bound + 1);
  }

  // ----- wait -----

  // Forgetting records, and parents, keeps the order.
  lemma FewerRanked(proc: map<Rec, Proc>, less: map<Rec, Proc>)
    requires Acyclic(proc)
    requires forall r | r in less :: r in proc && (less[r].parent == proc[r].parent || less[r].parent.None?)
    ensures Acyclic(less)
  {
    var rank, bound :| Ranked(proc, rank, bound);
    assert Ranked(less, rank, bound);
  }

  lemma SetWordInv(s: Sys, c: Rec, word: int)
    requires Inv(s) && c in s.taskQ
    ensures c in s.proc && Inv(s.(proc := s.proc[c := s.proc[c].(word := word)]))
  {
    Apart(s);
    var t := s.(proc := s.proc[c := s.proc[c].(word := word)]);
    FewerRanked(s.proc, t.proc);
    forall r ensures Places(t, r) == if r in t.proc then 1 else 0 {
      assert Places(s, r) == if r in s.proc then 1 else 0;
    }
  }

  lemma ReapInv(s: Sys, i: nat)
    requires Inv(s) && i < |s.zombieQ|
    ensures Inv(s.(zombieQ := Remove(s.zombieQ, i), proc := s.proc - {s.zombieQ[i]}))
  {
    Apart(s);
    var z := s.zombieQ[i];
    var t := s.(zombieQ := Remove(s.zombieQ, i), proc := s.proc - {z});
    assert z in s.zombieQ;
    assert Places(s, z) == 1;
    RemoveMembers(s.zombieQ, i);
    forall r ensures Places(t, r) == if r in t.proc then 1 else 0 {
      assert Places(s, r) == if r in s.proc then 1 else 0;
      CountRemove(s.zombieQ, i, r);
    }
    FewerRanked(s.proc, t.proc);
  }

  lemma BlockInv(s: Sys, c: Rec)
    requires Inv(s) && 0 < |s.taskQ| && s.taskQ[0] == c && c in s.proc
    requires forall z | z in s.zombieQ :: !Reapable(s.proc, z, c, s.proc[c].word)
    ensures Inv(s.(taskQ := s.taskQ[1..], waitQ := s.waitQ + [c]))
  {
    Apart(s);
    var t := s.(taskQ := s.taskQ[1..], waitQ := s.waitQ + [c]);
    assert s.taskQ == [c] + s.taskQ[1..];
    forall r ensures Places(t, r) == if r in t.proc then 1 else 0 {
      assert Places(s, r) == if r in s.proc then 1 else 0;
      CountEnds(s.taskQ[1..], c, r);
      CountEnds(s.waitQ, c, r);
    }
    forall r | Live(s, r) ensures Live(t, r) {
    }
  }

  lemma WaitInv(s: Sys, c: Rec, waitfor: Pid)
    requires Inv(s) && 0 < |s.taskQ| && s.taskQ[0] == c
    ensures c in s.proc && Inv(DoWait(s, c, waitfor).sys)
  {
    assert c in s.taskQ;
    SetWordInv(s, c, waitfor);
    var s1 := s.(proc := s.proc[c := s.proc[c].(word := waitfor)]);
    var i := FindZombie(s1, c, waitfor);
    if 0 <= i {
      ReapInv(s1, i);
    } else if HasLiveChild(s1, c) {
      forall z | z in s1.zombieQ ensures !Reapable(s1.proc, z, c, waitfor) {
        var j :| 0 <= j < |s1.zombieQ| && s1.zombieQ[j] == z;
      }
      BlockInv(s1, c);
    }
  }

  // ----- exit -----

  lemma {:induction false} NotChildrenCount(q: seq<Rec>, proc: map<Rec, Proc>, c: Rec, r: Rec)
    ensures Count(NotChildren(q, proc, c), r) == if IsChild(proc, r, c) then 0 else Count(q, r)
  {
    if q != [] {
      NotChildrenCount(q[1..], proc, c, r);
      CountAppend(if IsChild(proc, q[0], c) then [] else [q[0]], NotChildren(q[1..], proc, c), r);
    }
  }

  ghost predicate Childless(s: Sys, c: Rec) {
    forall r | r in s.proc :: s.proc[r].parent != Some(c)
  }

  lemma DisownPartition(s: Sys, c: Rec)
    requires Inv(s) && c in s.taskQ
    ensures Partition(Disown(s, c))
  {
    Apart(s);
    var t := Disown(s, c);
    forall r ensures Places(t, r) == if r in t.proc then 1 else 0 {
      assert Places(s, r) == if r in s.proc then 1 else 0;
      NotChildrenCount(s.zombieQ, s.proc, c, r);
      CountZero(s.zombieQ, r);
      CountZero(s.taskQ, r);
      CountZero(s.waitQ, r);
    }
  }

  lemma DisownLinks(s: Sys, c: Rec)
    requires Inv(s) && c in s.taskQ
    ensures var t := Disown(s, c);
            ParentsLive(t) && NoLostExit(t) && PidsDistinct(t) && Childless(t, c)
  {
    Apart(s);
  }

  lemma DisownInv(s: Sys, c: Rec)
    requires Inv(s) && c in s.taskQ
    ensures var t := Disown(s, c);
            && Inv(t) && Childless(t, c)
            && t.taskQ == s.taskQ && t.waitQ == s.waitQ
            && c in t.proc && c in s.proc && t.proc[c].pid == s.proc[c].pid && t.proc[c].parent == s.proc[c].parent
  {
    Apart(s);
    DisownPartition(s, c);
    DisownLinks(s, c);
    FewerRanked(s.proc, Disown(s, c).proc);
    NotOwnParent(s.proc, c);
  }

  lemma NotOwnParent(proc: map<Rec, Proc>, c: Rec)
    requires Acyclic(proc) && c in proc
    ensures proc[c].parent != Some(c)
  {
    var rank, bound :| Ranked(proc, rank, bound);
  }

  lemma VanishInv(s: Sys, c: Rec, woken: seq<Rec>, waitQ: seq<Rec>)
    requires Inv(s) && Childless(s, c) && 0 < |s.taskQ| && s.taskQ[0] == c
    requires forall r :: Count(s.waitQ, r) == Count(waitQ, r) + Count(woken, r)
    ensures Inv(s.(taskQ := s.taskQ[1..] + woken, waitQ := waitQ, proc := s.proc - {c}))
  {
    Apart(s);
    var t := s.(taskQ := s.taskQ[1..] + woken, waitQ := waitQ, proc := s.proc - {c});
    assert s.taskQ == [c] + s.taskQ[1..];
    forall r ensures Places(t, r) == (if r in t.proc then 1 else 0) && (r != c && Live(s, r) ==> Live(t, r))
      ensures r in t.waitQ ==> r in s.waitQ
      ensures Live(t, r) ==> Live(s, r)
    {
      assert Places(s, r) == if r in s.proc then 1 else 0;
      assert Count(s.waitQ, r) == Count(waitQ, r) + Count(woken, r);
      CountEnds(s.taskQ[1..], c, r);
      CountAppend(s.taskQ[1..], woken, r);
      CountZero(s.taskQ, r);
      CountZero(t.taskQ, r);
      CountZero(s.waitQ, r);
      CountZero(waitQ, r);
    }
    FewerRanked(s.proc, t.proc);
  }

  // c at the front of task_q becomes a zombie with exit code `code`.
  function Buried(s: Sys, c: Rec, code: int): Sys
    requires c in s.proc && 0 < |s.taskQ|
  {
    s.(taskQ := s.taskQ[1..], zombieQ := s.zombieQ + [c], proc := s.proc[c := s.proc[c].(word := code)])
  }

  lemma BuriedPartition(s: Sys, c: Rec, code: int)
    requires Inv(s) && 0 < |s.taskQ| && s.taskQ[0] == c && c in s.proc
    ensures Partition(Buried(s, c, code))
    ensures forall r | Live(s, r) && r != c :: Live(Buried(s, c, code), r)
    ensures forall r | Live(Buried(s, c, code), r) :: Live(s, r)
  {
    var t := Buried(s, c, code);
    assert s.taskQ == [c] + s.taskQ[1..];
    forall r ensures Places(t, r) == if r in t.proc then 1 else 0 {
      assert Places(s, r) == if r in s.proc then 1 else 0;
      CountEnds(s.taskQ[1..], c, r);
      CountEnds(s.zombieQ, c, r);
    }
  }

  lemma ZombieInv(s: Sys, c: Rec, code: int)
    requires Inv(s) && Childless(s, c) && 0 < |s.taskQ| && s.taskQ[0] == c && c in s.proc
    requires s.proc[c].parent.Some?
    requires var q := s.proc[c].parent.value;
             q in s.waitQ && q in s.proc ==> !Accepts(s.proc[q].word, s.proc[c].pid)
    ensures Inv(Buried(s, c, code))
  {
    BuriedPartition(s, c, code);
    Apart(s);
    var t := Buried(s, c, code);
    FewerRanked(s.proc, t.proc);
    assert c in s.taskQ;
    forall w, z | w in t.waitQ && w in t.proc && z in t.zombieQ ensures !Reapable(t.proc, z, w, t.proc[w].word) {
      if z != c {
        assert !Reapable(s.proc, z, w, s.proc[w].word);
      }
    }
  }

  lemma DepartInv(s: Sys, c: Rec, code: int)
    requires Inv(s) && Childless(s, c) && 0 < |s.taskQ| && s.taskQ[0] == c && c in s.proc
    ensures Inv(Depart(s, c, code).sys)
  {
    Apart(s);
    if s.proc[c].parent.None? {
      VanishInv(s, c, [], s.waitQ);
      assert s.taskQ[1..] + [] == s.taskQ[1..];
    } else {
      var q := s.proc[c].parent.value;
      var i := Index(s.waitQ, q);
      if 0 <= i && q in s.proc && Accepts(s.proc[q].word, s.proc[c].pid) {
        forall r ensures Count(s.waitQ, r) == Count(Remove(s.waitQ, i), r) + Count([q], r) {
          CountRemove(s.waitQ, i, r);
          assert Count([q], r) == if q == r then 1 else 0;
        }
        VanishInv(s, c, [q], Remove(s.waitQ, i));
      } else {
        ZombieInv(s, c, code);
      }
    }
  }

  /** Every request keeps the invariant. */
  lemma StepInv(s: Sys, a: Action)
    requires Inv(s) && Shape(s) && Allowed(s, a)
    ensures Inv(Step(s, a).sys) && Shape(Step(s, a).sys)
  {
    ClientFound(s, a);
    var i := FindByPid(s, a.client);
    var c := s.taskQ[i];
    var s0 := Front(s, i);
    FrontInv(s, i);
    Apart(s0);
    assert s0.taskQ[0] == c && c in s0.taskQ;
    match a {
      case Other(_) =>
      case Spawn(_, r, pid) => SpawnInv(s0, c, r, pid);
      case Wait(_, waitfor) => WaitInv(s0, c, waitfor);
      case Exit(_, code) =>
        DisownInv(s0, c);
        DepartInv(Disown(s0, c), c, code);
    }
    Apart(Step(s, a).sys);
  }
}
