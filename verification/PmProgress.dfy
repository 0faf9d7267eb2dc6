// Which waits can ever end: exactly those at the top of a chain of awaited
// children that leads down to a process that runs.
module PmProgress {
  import opened Common
  import opened PmSpec
  import opened PmInvariant
  import opened PmRun
  import opened PmWait

  // Each process in the path waits for the next, and the last one runs.
  ghost predicate Chain(s: Sys, path: seq<Rec>) {
    && path != [] && path[|path| - 1] in s.taskQ
    && forall i | 0 <= i < |path| - 1 :: LinkAt(s, path, i)
  }

  ghost predicate LinkAt(s: Sys, path: seq<Rec>, i: nat)
    requires i + 1 < |path|
  {
    path[i] in s.waitQ && Awaited(s, path[i], path[i + 1])
  }

  // Process w, if it waits, can be released; if it runs, there is nothing to
  // release it from.
  ghost predicate CanEnd(s: Sys, w: Rec) {
    exists path :: Chain(s, path) && path[0] == w
  }

  // ----- a chain can be walked up by exits -----

  // The client with c's pid is c.
  lemma {:induction false} RunnerFound(s: Sys, c: Rec)
    requires Inv(s) && c in s.taskQ
    ensures Shape(s) && c in s.proc
    ensures var i := FindByPid(s, s.proc[c].pid); 0 <= i && s.taskQ[i] == c
  {
    Apart(s);
    var j :| 0 <= j < |s.taskQ| && s.taskQ[j] == c;
    assert HasPid(s.proc, s.taskQ[j], s.proc[c].pid);
    var i := FindByPid(s, s.proc[c].pid);
    assert Live(s, s.taskQ[i]) && Live(s, c);
  }

  // The exit of c, which a waiting parent accepts, makes the parent run.
  lemma {:induction false} WakeUp(s: Sys, p: Rec, c: Rec, code: int)
    requires Inv(s) && 0 < |s.taskQ| && s.taskQ[0] == c && p in s.waitQ && Awaited(s, p, c)
    ensures c in s.proc && c in Disown(s, c).proc
    ensures var t := Depart(Disown(s, c), c, code).sys;
            && p in t.taskQ && p !in t.waitQ
            && (forall x | x in s.waitQ && x != p :: x in t.waitQ)
            && (forall w, x | Awaited(s, w, x) && w != c && x != c :: Awaited(t, w, x))
  {
    Apart(s);
    assert c in s.taskQ;
    DisownInv(s, c);
    var d := Disown(s, c);
    Apart(d);
    NotOwnParent(s.proc, c);
    assert d.proc[p].word == s.proc[p].word;
    var i := Index(d.waitQ, p);
    assert Places(d, p) == 1;
    RemoveMembers(d.waitQ, i);
    var t := Depart(d, c, code).sys;
    assert t.taskQ[|t.taskQ| - 1] == p;
    DepartLives(d, c, code);
    DepartInv(d, c, code);
    Apart(t);
    forall w, x | Awaited(s, w, x) && w != c && x != c ensures Awaited(t, w, x) {
      assert Live(d, x) && Live(t, x);
      assert x in d.proc && d.proc[x] == s.proc[x];
    }
  }

  // The exit of the running process c, once c is at the front.
  lemma {:induction false} StepIsExit(s: Sys, c: Rec, code: int) returns (s0: Sys)
    requires Inv(s) && c in s.taskQ
    ensures Shape(s) && c in s.proc && Allowed(s, Exit(s.proc[c].pid, code))
    ensures Inv(s0) && 0 < |s0.taskQ| && s0.taskQ[0] == c
    ensures s0.waitQ == s.waitQ && s0.proc == s.proc && forall x :: x in s0.taskQ <==> x in s.taskQ
    ensures c in Disown(s0, c).proc && Step(s, Exit(s.proc[c].pid, code)) == Depart(Disown(s0, c), c, code)
  {
    Apart(s);
    RunnerFound(s, c);
    assert HasPid(s.proc, c, s.proc[c].pid);
    var i := FindByPid(s, s.proc[c].pid);
    s0 := Front(s, i);
    FrontInv(s, i);
    DisownInv(s0, c);
  }

  // One exit shortens the chain by its last process.
  lemma {:induction false} ExitShortens(s: Sys, path: seq<Rec>) returns (a: Action)
    requires Inv(s) && Chain(s, path) && 1 < |path|
    ensures Shape(s) && Allowed(s, a)
    ensures var t := Step(s, a).sys;
            && Chain(t, path[..|path| - 1])
            && path[|path| - 2] !in t.waitQ
  {
    var n := |path| - 2;
    var p, c := path[n], path[n + 1];
    assert LinkAt(s, path, n);
    var s0 := StepIsExit(s, c, 0);
    a := Exit(s.proc[c].pid, 0);
    assert forall w, x :: Awaited(s, w, x) ==> Awaited(s0, w, x);
    WakeUp(s0, p, c, 0);
    var t := Step(s, a).sys;
    ChainDistinct(s, path);
    var rest := path[..n + 1];
    forall j | 0 <= j < n ensures LinkAt(t, rest, j) {
      assert LinkAt(s, path, j);
    }
  }

  // A chain goes down the forest, so nobody is in it twice.
  lemma {:induction false} ChainDescends(s: Sys, path: seq<Rec>, rank: map<Rec, nat>, bound: nat, i: nat, j: nat)
    requires Ranked(s.proc, rank, bound) && Chain(s, path) && i < j < |path|
    ensures path[i] in rank && path[j] in rank && rank[path[i]] < rank[path[j]]
    decreases j - i
  {
    assert LinkAt(s, path, j - 1);
    if i + 1 < j {
      ChainDescends(s, path, rank, bound, i, j - 1);
    }
  }

  lemma {:induction false} ChainDistinct(s: Sys, path: seq<Rec>)
    requires Inv(s) && Chain(s, path)
    ensures forall i, j | 0 <= i < j < |path| :: path[i] != path[j]
  {
    var rank, bound :| Ranked(s.proc, rank, bound);
    forall i, j | 0 <= i < j < |path| ensures path[i] != path[j] {
      ChainDescends(s, path, rank, bound, i, j);
    }
  }

  lemma {:induction false} RunCons(s: Sys, a: Action, acts: seq<Action>)
    requires Inv(s) && Shape(s) && Allowed(s, a)
    requires Inv(Step(s, a).sys) && AllowedRun(Step(s, a).sys, acts)
    ensures AllowedRun(s, [a] + acts) && Run(s, [a] + acts).sys == Run(Step(s, a).sys, acts).sys
  {
    assert ([a] + acts)[1..] == acts;
  }

  /** From a chain there is a run, of exits from its bottom up, that releases
      the process at its top. */
  lemma {:induction false} ExitsRelease(s: Sys, path: seq<Rec>) returns (acts: seq<Action>)
    requires Inv(s) && Chain(s, path) && 1 < |path|
    ensures AllowedRun(s, acts) && path[0] !in Run(s, acts).sys.waitQ
    decreases |path|
  {
    Apart(s);
    var a := ExitShortens(s, path);
    StepInv(s, a);
    var t := Step(s, a).sys;
    var rest: seq<Action> := [];
    if 2 < |path| {
      rest := ExitsRelease(t, path[..|path| - 1]);
    }
    RunCons(s, a, rest);
    acts := [a] + rest;
  }

  // ----- nothing else releases anybody -----

  // What a step may do for a chain to have been there before: every running
  // process ran before, or has just been woken by a child that ran; and a
  // process that waits now waited before for the same, or ran.
  ghost predicate Follows(s: Sys, t: Sys, woke: Option<Rec>, cause: Rec) {
    && (forall x | x in t.taskQ && woke != Some(x) :: x in s.taskQ || !Known(s, x))
    && (woke.Some? ==> cause in s.taskQ && woke.value in s.waitQ && Awaited(s, woke.value, cause))
    && (forall w | w in t.waitQ :: w in s.waitQ || w in s.taskQ)
    && (forall w, x | w in t.waitQ && w in s.waitQ && Awaited(t, w, x) :: Awaited(s, w, x))
  }

  ghost predicate Known(s: Sys, x: Rec) {
    x in s.proc
  }

  // The part of a path in t that is a chain in s.
  lemma {:induction false} ChainBefore(s: Sys, t: Sys, woke: Option<Rec>, cause: Rec, path: seq<Rec>)
    returns (before: seq<Rec>)
    requires Shape(s) && Follows(s, t, woke, cause) && Chain(t, path)
    requires path[0] in s.waitQ || path[0] in s.taskQ
    ensures Chain(s, before) && before[0] == path[0]
    decreases |path|
  {
    var w := path[0];
    if w in s.taskQ {
      before := [w];
    } else if |path| == 1 {
      before := [w, cause];
      assert LinkAt(s, before, 0);
    } else {
      assert LinkAt(t, path, 0);
      var tail := path[1..];
      forall i | 0 <= i < |tail| - 1 ensures LinkAt(t, tail, i) {
        assert LinkAt(t, path, i + 1);
      }
      assert Awaited(s, w, path[1]);
      var rest := ChainBefore(s, t, woke, cause, tail);
      before := [w] + rest;
      forall i | 0 <= i < |before| - 1 ensures LinkAt(s, before, i) {
        if i > 0 { assert LinkAt(s, rest, i - 1); }
      }
    }
  }

  lemma {:induction false} WaitFollows(s: Sys, c: Rec, waitfor: Pid)
    requires Inv(s) && 0 < |s.taskQ| && s.taskQ[0] == c && c in s.proc
    ensures var t := DoWait(s, c, waitfor).sys;
            Follows(s, t, None, c) && forall w | w in s.waitQ :: w in t.waitQ
  {
    Apart(s);
    assert c in s.taskQ;
    WaitLives(s, c, waitfor);
    WaitQueues(s, c, waitfor);
    var t := DoWait(s, c, waitfor).sys;
    forall w, x | w in t.waitQ && w in s.waitQ && Awaited(t, w, x) ensures Awaited(s, w, x) {
      assert w != c && Live(s, w);
      assert Live(s, x);
    }
  }

  lemma {:induction false} WaitQueues(s: Sys, c: Rec, waitfor: Pid)
    requires 0 < |s.taskQ| && s.taskQ[0] == c && c in s.proc
    ensures var t := DoWait(s, c, waitfor).sys;
            && (forall x | x in t.taskQ :: x in s.taskQ)
            && (forall x | x in t.waitQ :: x in s.waitQ || x == c)
  {
  }

  lemma {:induction false} SpawnFollows(s: Sys, c: Rec, r: Rec, pid: Pid)
    requires Inv(s) && c in s.taskQ && r !in s.proc
    ensures var t := Spawned(s, c, r, pid); Follows(s, t, None, c) && t.waitQ == s.waitQ
  {
    Apart(s);
  }

  // Who is woken by the exit of c: its parent, if it waits for c.
  function Woken(s: Sys, c: Rec): Option<Rec>
    requires c in s.proc
  {
    match s.proc[c].parent
    case None => None
    case Some(q) =>
      if 0 <= Index(s.waitQ, q) && q in s.proc && Accepts(s.proc[q].word, s.proc[c].pid) then Some(q) else None
  }

  lemma {:induction false} ExitFollows(s: Sys, c: Rec, code: int)
    requires Inv(s) && 0 < |s.taskQ| && s.taskQ[0] == c && c in s.proc
    ensures c in Disown(s, c).proc
    ensures var t := Depart(Disown(s, c), c, code).sys;
            && Follows(s, t, Woken(s, c), c)
            && forall w | w in s.waitQ && w !in t.waitQ :: Awaited(s, w, c)
  {
    Apart(s);
    assert c in s.taskQ;
    DisownInv(s, c);
    var d := Disown(s, c);
    Apart(d);
    DepartLives(d, c, code);
    DepartQueues(d, c, code);
    var t := Depart(d, c, code).sys;
    DisownSame(s, c);
    forall w, x | w in t.waitQ && w in s.waitQ && Awaited(t, w, x) ensures Awaited(s, w, x) {
      assert Live(d, x) && x != c && w != c;
    }
  }

  // The waiting processes, and who is woken, are the same before and after
  // the children of c have been dealt with.
  lemma {:induction false} DisownSame(s: Sys, c: Rec)
    requires Inv(s) && c in s.taskQ && c in s.proc && c in Disown(s, c).proc
    ensures var d := Disown(s, c);
            && Woken(d, c) == Woken(s, c)
            && (forall w, x | w in s.waitQ :: Awaited(d, w, x) <==> Awaited(s, w, x))
  {
    Apart(s);
    NotOwnParent(s.proc, c);
  }

  lemma {:induction false} DepartQueues(s: Sys, c: Rec, code: int)
    requires Inv(s) && 0 < |s.taskQ| && s.taskQ[0] == c && c in s.proc
    ensures var t := Depart(s, c, code).sys;
            && (forall x | x in t.taskQ && Woken(s, c) != Some(x) :: x in s.taskQ)
            && (Woken(s, c).Some? ==> Woken(s, c).value in s.waitQ && Awaited(s, Woken(s, c).value, c))
            && (forall w | w in s.waitQ && w !in t.waitQ :: Awaited(s, w, c))
  {
    Apart(s);
    assert c in s.taskQ;
    if s.proc[c].parent.Some? {
      var i := Index(s.waitQ, s.proc[c].parent.value);
      if 0 <= i { RemoveMembers(s.waitQ, i); }
    }
  }

  /** A step brings nobody closer to release: a process that waits with no chain
      below it waits on, with no chain below it. */
  lemma {:induction false} StepStuck(s: Sys, a: Action, w: Rec)
    requires Inv(s) && Shape(s) && Allowed(s, a) && w in s.waitQ && !CanEnd(s, w)
    ensures var t := Step(s, a).sys; w in t.waitQ && !CanEnd(t, w)
  {
    ClientFound(s, a);
    var i := FindByPid(s, a.client);
    var c := s.taskQ[i];
    var s0 := Front(s, i);
    FrontInv(s, i);
    Apart(s0);
    assert s0.taskQ[0] == c && c in s0.taskQ && c in s0.proc;
    var t := Step(s, a).sys;
    var woke: Option<Rec> := None;
    match a {
      case Other(_) => assert Follows(s0, t, None, c);
      case Spawn(_, r, pid) => SpawnFollows(s0, c, r, pid);
      case Wait(_, waitfor) => WaitFollows(s0, c, waitfor);
      case Exit(_, code) =>
        ExitFollows(s0, c, code);
        woke := Woken(s0, c);
    }
    FrontChains(s, i);
    PairsAreChains(s0);
    if CanEnd(t, w) {
      var path :| Chain(t, path) && path[0] == w;
      var before := ChainBefore(s0, t, woke, c, path);
    }
  }

  lemma {:induction false} PairsAreChains(s: Sys)
    ensures forall w, x | w in s.waitQ && x in s.taskQ && Awaited(s, w, x) :: CanEnd(s, w)
  {
    forall w, x | w in s.waitQ && x in s.taskQ && Awaited(s, w, x) ensures CanEnd(s, w) {
      assert LinkAt(s, [w, x], 0);
      assert Chain(s, [w, x]);
    }
  }

  lemma {:induction false} FrontChains(s: Sys, i: nat)
    requires Inv(s) && i < |s.taskQ|
    ensures forall path :: Chain(Front(s, i), path) ==> Chain(s, path)
  {
    FrontInv(s, i);
    var t := Front(s, i);
    forall path | Chain(t, path) ensures Chain(s, path) {
      forall j | 0 <= j < |path| - 1 ensures LinkAt(s, path, j) {
        assert LinkAt(t, path, j);
      }
    }
  }

  lemma {:induction false} StuckForEver(s: Sys, acts: seq<Action>, w: Rec)
    requires Inv(s) && AllowedRun(s, acts) && w in s.waitQ && !CanEnd(s, w)
    ensures w in Run(s, acts).sys.waitQ
    decreases |acts|
  {
    Apart(s);
    if acts != [] {
      StepInv(s, acts[0]);
      StepStuck(s, acts[0], w);
      StuckForEver(Step(s, acts[0]).sys, acts[1..], w);
    }
  }

  // Some run releases w.
  ghost predicate Releasable(s: Sys, w: Rec)
    requires Inv(s)
  {
    exists acts :: AllowedRun(s, acts) && w !in Run(s, acts).sys.waitQ
  }

  /** A waiting process is released in some run exactly when a chain of awaited
      children leads from it to a process that runs; if there is none, no run
      whatever releases it. */
  lemma {:induction false} ReleasableExactly(s: Sys, w: Rec)
    requires Inv(s) && w in s.waitQ
    ensures Releasable(s, w) <==> CanEnd(s, w)
  {
    Apart(s);
    if CanEnd(s, w) {
      var path :| Chain(s, path) && path[0] == w;
      var acts := ExitsRelease(s, path);
    } else if Releasable(s, w) {
      var acts :| AllowedRun(s, acts) && w !in Run(s, acts).sys.waitQ;
      StuckForEver(s, acts, w);
    }
  }

  // ----- what a caller can know before it waits -----

  // c has a live child whose exit the wait would accept and that itself runs,
  // or can be brought to run again.
  ghost predicate Promising(s: Sys, c: Rec, waitfor: Pid) {
    exists x :: Live(s, x) && IsChild(s.proc, x, c) && Accepts(waitfor, s.proc[x].pid) && CanEnd(s, x)
  }

  // A chain that starts at a child of c does not come back to c.
  lemma {:induction false} NeverBack(s: Sys, c: Rec, path: seq<Rec>)
    requires Inv(s) && Chain(s, path) && IsChild(s.proc, path[0], c)
    ensures c !in path
  {
    var rank, bound :| Ranked(s.proc, rank, bound);
    forall j | 0 <= j < |path| ensures path[j] != c {
      if j > 0 { ChainDescends(s, path, rank, bound, 0, j); }
    }
  }

  // A path without c is a chain before c blocks exactly when it is one after.
  lemma {:induction false} BlockedChain(s: Sys, c: Rec, waitfor: Pid, path: seq<Rec>)
    requires Inv(s) && 0 < |s.taskQ| && s.taskQ[0] == c && c in s.proc && c !in path
    ensures Chain(s, path) <==> Chain(Blocked(s, c, waitfor), path)
  {
    Apart(s);
    var t := Blocked(s, c, waitfor);
    assert s.taskQ == [c] + s.taskQ[1..];
    assert forall w, x | w != c && x != c :: Awaited(s, w, x) <==> Awaited(t, w, x);
    if path != [] {
      var last := path[|path| - 1];
      assert last in path;
    }
    forall i | 0 <= i < |path| - 1 ensures LinkAt(s, path, i) <==> LinkAt(t, path, i) {
      assert path[i] in path && path[i + 1] in path;
    }
  }

  lemma {:induction false} TailChain(s: Sys, path: seq<Rec>)
    requires Chain(s, path) && 1 < |path|
    ensures Chain(s, path[1..])
  {
    var tail := path[1..];
    forall i | 0 <= i < |tail| - 1 ensures LinkAt(s, tail, i) {
      assert LinkAt(s, path, i + 1);
    }
  }

  lemma {:induction false} ConsChain(s: Sys, w: Rec, path: seq<Rec>)
    requires Chain(s, path) && w in s.waitQ && Awaited(s, w, path[0])
    ensures Chain(s, [w] + path)
  {
    var all := [w] + path;
    forall i | 0 <= i < |all| - 1 ensures LinkAt(s, all, i) {
      if i > 0 { assert LinkAt(s, path, i - 1); }
    }
  }

  /** A wait that blocks can ever be ended exactly when, at the moment of the
      call, a live child that it asks for runs or can itself be released. */
  lemma {:induction false} BlockedWaitExactly(s: Sys, c: Rec, waitfor: Pid)
    requires Inv(s) && 0 < |s.taskQ| && s.taskQ[0] == c && c in s.proc
    requires c in DoWait(s, c, waitfor).sys.waitQ
    ensures Inv(DoWait(s, c, waitfor).sys)
    ensures Releasable(DoWait(s, c, waitfor).sys, c) <==> Promising(s, c, waitfor)
  {
    WaitInv(s, c, waitfor);
    var x0 := BlockedWait(s, c, waitfor);
    var t := DoWait(s, c, waitfor).sys;
    assert t == Blocked(s, c, waitfor) && t.waitQ[|s.waitQ|] == c;
    ReleasableExactly(t, c);
    Apart(s);
    Apart(t);
    if CanEnd(t, c) {
      var path :| Chain(t, path) && path[0] == c;
      BlockedIsPromising(s, c, waitfor, path);
    }
    if Promising(s, c, waitfor) {
      var x :| Live(s, x) && IsChild(s.proc, x, c) && Accepts(waitfor, s.proc[x].pid) && CanEnd(s, x);
      var path :| Chain(s, path) && path[0] == x;
      PromisingBlocks(s, c, waitfor, path);
    }
  }

  lemma {:induction false} BlockedIsPromising(s: Sys, c: Rec, waitfor: Pid, path: seq<Rec>)
    requires Inv(s) && 0 < |s.taskQ| && s.taskQ[0] == c && c in s.proc
    requires Inv(Blocked(s, c, waitfor)) && Chain(Blocked(s, c, waitfor), path) && path[0] == c
    ensures Promising(s, c, waitfor)
  {
    var t := Blocked(s, c, waitfor);
    Apart(s);
    Apart(t);
    assert t.waitQ[|s.waitQ|] == c;
    assert 1 < |path| && LinkAt(t, path, 0);
    var x := path[1];
    TailChain(t, path);
    NeverBack(t, c, path[1..]);
    BlockedChain(s, c, waitfor, path[1..]);
    assert s.taskQ == [c] + s.taskQ[1..];
    assert x in path[1..];
    assert Live(s, x) && IsChild(s.proc, x, c) && CanEnd(s, x);
  }

  lemma {:induction false} PromisingBlocks(s: Sys, c: Rec, waitfor: Pid, path: seq<Rec>)
    requires Inv(s) && 0 < |s.taskQ| && s.taskQ[0] == c && c in s.proc
    requires Chain(s, path) && IsChild(s.proc, path[0], c) && Accepts(waitfor, s.proc[path[0]].pid)
    ensures CanEnd(Blocked(s, c, waitfor), c)
  {
    var t := Blocked(s, c, waitfor);
    NeverBack(s, c, path);
    BlockedChain(s, c, waitfor, path);
    assert path[0] in path;
    if 1 < |path| { assert LinkAt(t, path, 0); }
    assert t.waitQ[|s.waitQ|] == c;
    assert Awaited(t, c, path[0]);
    ConsChain(t, c, path);
  }

  // ----- runs of sensible waits -----

  // Following awaited children down the forest ends at a running process.
  lemma {:induction false} RunningDescendant(s: Sys, w: Rec, rank: map<Rec, nat>, bound: nat) returns (path: seq<Rec>)
    requires Shape(s) && AllHopeful(s) && Ranked(s.proc, rank, bound) && Live(s, w)
    ensures Chain(s, path) && path[0] == w
    decreases if w in rank && rank[w] < bound then bound - rank[w] else 0
  {
    if w in s.taskQ {
      path := [w];
    } else {
      assert Hopeful(s, w);
      var x :| Awaited(s, w, x);
      assert x in s.proc && w in s.proc;
      var rest := RunningDescendant(s, x, rank, bound);
      ConsChain(s, w, rest);
      path := [w] + rest;
    }
  }

  lemma {:induction false} AllHopefulProgress(s: Sys, w: Rec) returns (path: seq<Rec>)
    requires Inv(s) && AllHopeful(s) && w in s.waitQ
    ensures Chain(s, path) && path[0] == w && 1 < |path| && Releasable(s, w)
  {
    Apart(s);
    var rank, bound :| Ranked(s.proc, rank, bound);
    path := RunningDescendant(s, w, rank, bound);
    ReleasableExactly(s, w);
  }

  /** The process tree cannot deadlock: in every run of sensible waits, each
      waiting process has a chain of awaited children down to a running one, so
      some continuation of the run releases it. */
  lemma {:induction false} WaitsProgress(s: Sys, acts: seq<Action>, w: Rec) returns (path: seq<Rec>)
    requires Inv(s) && AllowedRun(s, acts) && AllHopeful(s) && AllSensible(s, acts)
    requires w in Run(s, acts).sys.waitQ
    ensures var t := Run(s, acts).sys;
            Inv(t) && Chain(t, path) && path[0] == w && 1 < |path| && Releasable(t, w)
    decreases |acts|
  {
    if acts == [] {
      path := AllHopefulProgress(s, w);
    } else {
      Apart(s);
      StepInv(s, acts[0]);
      StepAllHopeful(s, acts[0]);
      path := WaitsProgress(Step(s, acts[0]).sys, acts[1..], w);
    }
  }

  // ----- waits that never end -----

  // The state s0 is good, c's wait blocks in it, and no run ends the wait.
  ghost predicate EndlessWait(s: Sys, c: Rec, waitfor: Pid) {
    && Inv(s) && Shape(s) && c in s.proc && Allowed(s, Wait(s.proc[c].pid, waitfor))
    && var t := Step(s, Wait(s.proc[c].pid, waitfor)).sys;
       c in t.waitQ && Inv(t) && !Releasable(t, c)
  }

  lemma {:induction false} FirstIsFound(s: Sys, c: Rec)
    requires Inv(s) && 0 < |s.taskQ| && s.taskQ[0] == c
    ensures c in s.proc && FindByPid(s, s.proc[c].pid) == 0 && Front(s, 0) == s
  {
    RunnerFound(s, c);
    assert HasPid(s.proc, s.taskQ[0], s.proc[c].pid);
    assert Front(s, 0).taskQ == s.taskQ;
  }

  lemma {:induction false} WaitBlocks(s: Sys, c: Rec, waitfor: Pid)
    requires Shape(s) && 0 < |s.taskQ| && s.taskQ[0] == c
    requires c in s.proc && HasLiveChild(s, c) && s.zombieQ == []
    ensures DoWait(s, c, waitfor).sys == Blocked(s, c, waitfor)
  {
    var x := SomeLiveChild(s, c);
    var s1 := s.(proc := s.proc[c := s.proc[c].(word := waitfor)]);
    assert IsChild(s1.proc, x, c) && HasLiveChild(s1, c);
  }

  lemma {:induction false} StepIsWait(s: Sys, c: Rec, waitfor: Pid)
    requires Inv(s) && 0 < |s.taskQ| && s.taskQ[0] == c
    ensures Shape(s) && c in s.proc && Allowed(s, Wait(s.proc[c].pid, waitfor))
    ensures Step(s, Wait(s.proc[c].pid, waitfor)) == DoWait(s, c, waitfor)
  {
    Apart(s);
    FirstIsFound(s, c);
    assert c in s.taskQ && HasPid(s.proc, c, s.proc[c].pid);
  }

  lemma {:induction false} UnpromisingIsEndless(s: Sys, c: Rec, waitfor: Pid)
    requires Inv(s) && 0 < |s.taskQ| && s.taskQ[0] == c
    requires c in s.proc && HasLiveChild(s, c) && !Promising(s, c, waitfor) && s.zombieQ == []
    ensures EndlessWait(s, c, waitfor)
  {
    StepIsWait(s, c, waitfor);
    WaitBlocks(s, c, waitfor);
    assert Blocked(s, c, waitfor).waitQ[|s.waitQ|] == c;
    BlockedWaitExactly(s, c, waitfor);
  }

  lemma {:induction false} HopeIsNeeded(s: Sys, w: Rec)
    ensures CanEnd(s, w) ==> w in s.taskQ || Hopeful(s, w)
  {
    if CanEnd(s, w) {
      var path :| Chain(s, path) && path[0] == w;
      if 1 < |path| {
        assert LinkAt(s, path, 0);
      }
    }
  }

  // Process 1 waits for pid 5, which is no child of its own, while its only
  // child has pid 2.
  lemma {:induction false} WaitForStranger()
    ensures var s := Sys([1, 2], [], [], map[1 := Proc(1, None, 0), 2 := Proc(2, Some(1), 0)]);
            EndlessWait(s, 1, 5)
  {
    var s := Sys([1, 2], [], [], map[1 := Proc(1, None, 0), 2 := Proc(2, Some(1), 0)]);
    TwoTasks(s, 1, 2);
    assert 2 in s.taskQ && IsChild(s.proc, 2, 1);
    assert forall x :: IsChild(s.proc, x, 1) ==> x == 2;
    UnpromisingIsEndless(s, 1, 5);
  }

  lemma {:induction false} TwoTasks(s: Sys, a: Rec, b: Rec)
    requires a != b && s.taskQ == [a, b] && s.waitQ == [] && s.zombieQ == [] && s.proc.Keys == {a, b}
    requires s.proc[a].parent == None && s.proc[b].parent == Some(a) && s.proc[a].pid != s.proc[b].pid
    ensures Inv(s)
  {
    forall r ensures Places(s, r) == if r in s.proc then 1 else 0 {
      assert s.taskQ == [a] + [b];
      CountEnds([b], a, r);
      OneCount(b, r);
    }
    assert Ranked(s.proc, map[a := 0, b := 1], 2);
  }

  // Process 1 waits for its live child 2, which itself waits for a stranger.
  lemma {:induction false} WaitForStuckChild()
    ensures var s := Sys([1, 3], [2], [],
                         map[1 := Proc(1, None, 0), 2 := Proc(2, Some(1), 5), 3 := Proc(3, Some(2), 0)]);
            && Live(s, 2) && IsChild(s.proc, 2, 1) && s.proc[2].pid == 2
            && EndlessWait(s, 1, 2) && EndlessWait(s, 1, TASK_ANY)
  {
    var s := Sys([1, 3], [2], [], map[1 := Proc(1, None, 0), 2 := Proc(2, Some(1), 5), 3 := Proc(3, Some(2), 0)]);
    ThreeTasks(s, 1, 2, 3);
    assert 2 in s.waitQ && IsChild(s.proc, 2, 1);
    assert forall x :: IsChild(s.proc, x, 1) ==> x == 2;
    HopeIsNeeded(s, 2);
    UnpromisingIsEndless(s, 1, 2);
    UnpromisingIsEndless(s, 1, TASK_ANY);
  }

  lemma {:induction false} ThreeTasks(s: Sys, a: Rec, b: Rec, c: Rec)
    requires a != b && b != c && a != c
    requires s.taskQ == [a, c] && s.waitQ == [b] && s.zombieQ == [] && s.proc.Keys == {a, b, c}
    requires s.proc[a].parent == None && s.proc[b].parent == Some(a) && s.proc[c].parent == Some(b)
    requires s.proc[a].pid != s.proc[b].pid && s.proc[b].pid != s.proc[c].pid && s.proc[a].pid != s.proc[c].pid
    ensures Inv(s)
  {
    forall r ensures Places(s, r) == if r in s.proc then 1 else 0 {
      assert s.taskQ == [a] + [c];
      CountEnds([c], a, r);
      OneCount(c, r);
      OneCount(b, r);
    }
    assert Ranked(s.proc, map[a := 0, b := 1, c := 2], 3);
  }

  lemma {:induction false} OneCount(a: Rec, r: Rec)
    ensures Count([a], r) == if a == r then 1 else 0
  {
    assert [a][1..] == [];
  }
}
