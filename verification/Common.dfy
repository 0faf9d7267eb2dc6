// Vocabulary shared by every component of the model.
module Common {

  datatype Option<+T> = None | Some(value: T)

  // Kernel process identifiers.  In the kernel they are addresses of task
  // records; 0 is the null pointer.
  type Pid = int

  const NULL_PID: Pid := 0
  const TASK_ANY: Pid := 0xFFFF
  const EOF: int := -1

  /** Index of the first element satisfying `p`, or -1: the result of every
      linear table search in the servers. */
  function FirstWhere<T>(s: seq<T>, p: T -> bool): (i: int)
    ensures -1 <= i < |s|
    ensures 0 <= i ==> p(s[i]) && forall j | 0 <= j < i :: !p(s[j])
    ensures i < 0 ==> forall j | 0 <= j < |s| :: !p(s[j])
  {
    FirstAmong(s, p, |s|)
  }

  // The same among the first n elements.
  function FirstAmong<T>(s: seq<T>, p: T -> bool, n: nat): (i: int)
    requires n <= |s|
    ensures -1 <= i < n
    ensures 0 <= i ==> p(s[i]) && forall j | 0 <= j < i :: !p(s[j])
    ensures i < 0 ==> forall j | 0 <= j < n :: !p(s[j])
  {
    if n == 0 then -1
    else
      var i := FirstAmong(s, p, n - 1);
      if 0 <= i then i else if p(s[n - 1]) then n - 1 else -1
  }

  // Where a queue holds an item; -1 if it does not.
  function Index(s: seq<int>, x: int): (i: int)
    ensures -1 <= i < |s|
    ensures 0 <= i ==> s[i] == x && forall j | 0 <= j < i :: s[j] != x
    ensures i < 0 ==> x !in s
  {
    FirstWhere(s, (y: int) => y == x)
  }

  /** The number of occurrences of `x`. */
  function Count(s: seq<int>, x: int): (n: nat)
    ensures n <= |s|
  {
    if s == [] then 0 else (if s[0] == x then 1 else 0) + Count(s[1..], x)
  }

  lemma {:induction false} CountUpdate(s: seq<int>, i: nat, y: int, x: int)
    requires i < |s|
    ensures Count(s[i := y], x) == Count(s, x) - (if s[i] == x then 1 else 0) + if y == x then 1 else 0
  {
    if i > 0 {
      assert s[i := y][1..] == s[1..][i - 1 := y];
      CountUpdate(s[1..], i - 1, y, x);
    } else {
      assert s[0 := y][1..] == s[1..];
    }
  }

  lemma {:induction false} CountZero(s: seq<int>, x: int)
    ensures Count(s, x) == 0 <==> x !in s
  {
    if s != [] {
      CountZero(s[1..], x);
      assert s == [s[0]] + s[1..];
    }
  }

  lemma {:induction false} CountAppend(a: seq<int>, b: seq<int>, x: int)
    ensures Count(a + b, x) == Count(a, x) + Count(b, x)
  {
    if a == [] {
      assert a + b == b;
    } else {
      assert (a + b)[1..] == a[1..] + b;
      CountAppend(a[1..], b, x);
    }
  }

  // A queue without its i-th item.
  function Remove<T>(s: seq<T>, i: nat): (r: seq<T>)
    requires i < |s|
    ensures |r| == |s| - 1
    ensures forall j | 0 <= j < |r| :: r[j] == if j < i then s[j] else s[j + 1]
  {
    seq(|s| - 1, j requires 0 <= j < |s| - 1 => if j < i then s[j] else s[j + 1])
  }

  lemma CountRemove(s: seq<int>, i: nat, x: int)
    requires i < |s|
    ensures Count(Remove(s, i), x) == Count(s, x) - if s[i] == x then 1 else 0
  {
    assert Remove(s, i) == s[..i] + s[i + 1..];
    assert s == s[..i] + ([s[i]] + s[i + 1..]);
    CountAppend(s[..i], [s[i]] + s[i + 1..], x);
    assert ([s[i]] + s[i + 1..])[1..] == s[i + 1..];
    CountAppend(s[..i], s[i + 1..], x);
  }

  lemma RemoveMembers(s: seq<int>, i: nat)
    requires i < |s|
    ensures forall x | x in Remove(s, i) :: x in s
    ensures forall x | x in s && x != s[i] :: x in Remove(s, i)
    ensures Count(s, s[i]) <= 1 ==> s[i] !in Remove(s, i)
    ensures (forall j | 0 <= j < |s| && s[j] == s[i] :: j == i) ==> s[i] !in Remove(s, i)
  {
    var r := Remove(s, i);
    forall x | x in s && x != s[i] ensures x in r {
      var j :| 0 <= j < |s| && s[j] == x;
      assert r[if j < i then j else j - 1] == x;
    }
    CountRemove(s, i, s[i]);
    CountZero(r, s[i]);
  }

  lemma CountEnds(s: seq<int>, y: int, x: int)
    ensures Count([y] + s, x) == Count(s, x) + if y == x then 1 else 0
    ensures Count(s + [y], x) == Count(s, x) + if y == x then 1 else 0
  {
    assert ([y] + s)[1..] == s;
    CountAppend(s, [y], x);
  }
}
