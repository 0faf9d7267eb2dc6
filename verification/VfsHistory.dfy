// A run of the VFS together with every state it goes through, so that one can
// speak of what holds between any two of its moments.
module VfsHistory {
  import opened Common
  import opened VfsSpec
  import opened VfsInvariant
  import opened VfsRun

  // Request qs[i] leads from states[i] to states[i + 1].
  datatype History = History(states: seq<Sys>, qs: seq<Req>)

  ghost predicate Goes(h: History, i: nat)
    requires i < |h.qs| < |h.states|
  {
    Inv(h.states[i]) && Callable(h.states[i], h.qs[i]) && h.states[i + 1] == Step(h.states[i], h.qs[i]).0
  }

  ghost predicate IsHistory(h: History) {
    && |h.states| == |h.qs| + 1
    && Inv(h.states[0])
    && forall i: nat | i < |h.qs| :: Goes(h, i)
  }

  lemma MomentInv(h: History, i: nat)
    requires IsHistory(h) && i <= |h.qs|
    ensures Inv(h.states[i])
  {
    if i > 0 {
      assert Goes(h, i - 1);
      StepInv(h.states[i - 1], h.qs[i - 1]);
    }
  }

  // ----- runs and histories are the same -----

  lemma {:induction false} HistoryCons(s: Sys, q: Req, h: History)
    requires Inv(s) && Callable(s, q) && IsHistory(h) && h.states[0] == Step(s, q).0
    ensures IsHistory(History([s] + h.states, [q] + h.qs))
  {
    var g := History([s] + h.states, [q] + h.qs);
    forall i: nat | i < |g.qs| ensures Goes(g, i) {
      if i > 0 {
        assert Goes(h, i - 1);
      }
    }
  }

  /** Every run has a history. */
  lemma {:induction false} RunHasHistory(s: Sys, qs: seq<Req>) returns (h: History)
    requires Inv(s) && Runnable(s, qs)
    ensures IsHistory(h) && h.qs == qs && h.states[0] == s && h.states[|qs|] == Run(s, qs).0
    decreases |qs|
  {
    if qs == [] {
      h := History([s], []);
    } else {
      StepInv(s, qs[0]);
      var rest := RunHasHistory(Step(s, qs[0]).0, qs[1..]);
      HistoryCons(s, qs[0], rest);
      h := History([s] + rest.states, [qs[0]] + rest.qs);
    }
  }

  lemma {:induction false} HistoryTail(h: History)
    requires IsHistory(h) && h.qs != []
    ensures IsHistory(History(h.states[1..], h.qs[1..]))
  {
    MomentInv(h, 1);
    var g := History(h.states[1..], h.qs[1..]);
    forall i: nat | i < |g.qs| ensures Goes(g, i) {
      assert Goes(h, i + 1);
    }
  }

  /** And every history is that of a run. */
  lemma {:induction false} HistoryIsRun(h: History)
    requires IsHistory(h)
    ensures Runnable(h.states[0], h.qs) && Run(h.states[0], h.qs).0 == h.states[|h.qs|]
    decreases |h.qs|
  {
    if h.qs != [] {
      assert Goes(h, 0);
      HistoryTail(h);
      HistoryIsRun(History(h.states[1..], h.qs[1..]));
    }
  }

  // ----- going on -----

  // h goes on as g.
  ghost predicate Extends(h: History, g: History) {
    && |h.states| == |h.qs| + 1 && |g.states| == |g.qs| + 1 && |h.qs| <= |g.qs|
    && (forall i | 0 <= i < |h.states| :: g.states[i] == h.states[i])
    && (forall i | 0 <= i < |h.qs| :: g.qs[i] == h.qs[i])
  }

  function Last(h: History): Sys
    requires h.states != []
  {
    h.states[|h.states| - 1]
  }

  // One more request.
  lemma {:induction false} GoOn(h: History, q: Req) returns (g: History)
    requires IsHistory(h) && Inv(Last(h)) && Callable(Last(h), q)
    ensures IsHistory(g) && Extends(h, g) && |g.qs| == |h.qs| + 1 && g.qs[|h.qs|] == q
    ensures Last(g) == Step(Last(h), q).0 && Inv(Last(g))
  {
    g := History(h.states + [Step(Last(h), q).0], h.qs + [q]);
    forall i: nat | i < |g.qs| ensures Goes(g, i) {
      if i < |h.qs| {
        assert Goes(h, i);
      }
    }
    StepInv(Last(h), q);
  }
}
