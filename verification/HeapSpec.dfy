// The heap of misc/malloc.c as a list of chunks.  A chunk's address is the sum
// of the sizes before it, so a list of chunks tiles the heap by construction.
module HeapSpec {
  import opened Common

  // sizeof(chunk_t) on the target: two 16-bit words and a char, packed.
  const HEADER: nat := 5

  // Beyond the largest size_t of the target.
  const SIZE_LIMIT: nat := 0x1_0000

  datatype Chunk = Chunk(size: nat, free: bool)

  function Total(cs: seq<Chunk>): nat {
    if cs == [] then 0 else cs[0].size + Total(cs[1..])
  }

  /** The address of the k-th chunk, from the start of the heap. */
  function Offset(cs: seq<Chunk>, k: nat): nat
    requires k <= |cs|
  {
    if k == 0 then 0 else cs[0].size + Offset(cs[1..], k - 1)
  }

  ghost predicate Sized(cs: seq<Chunk>) {
    forall k | 0 <= k < |cs| :: HEADER < cs[k].size
  }

  ghost predicate Coalesced(cs: seq<Chunk>) {
    forall k | 0 <= k < |cs| - 1 :: !(cs[k].free && cs[k + 1].free)
  }

  ghost predicate Inv(cs: seq<Chunk>, heap: nat) {
    cs != [] && Total(cs) == heap && Sized(cs) && Coalesced(cs)
  }

  // chunklist_init
  function Init(heap: nat): seq<Chunk> {
    [Chunk(heap, true)]
  }

  // ----- allocation -----

  function FirstFit(cs: seq<Chunk>, len: nat): (i: int)
    ensures -1 <= i < |cs|
    ensures 0 <= i ==> cs[i].free && len + HEADER <= cs[i].size
    ensures 0 <= i ==> forall j | 0 <= j < i :: !(cs[j].free && len + HEADER <= cs[j].size)
    ensures i < 0 ==> forall j | 0 <= j < |cs| :: !(cs[j].free && len + HEADER <= cs[j].size)
  {
    FirstWhere(cs, (c: Chunk) => c.free && len + HEADER <= c.size)
  }

  // The i-th chunk is taken whole, or split when the rest can hold a header.
  function Take(cs: seq<Chunk>, i: nat, len: nat): seq<Chunk>
    requires i < |cs| && len + HEADER <= cs[i].size
  {
    if len + 2 * HEADER >= cs[i].size then cs[i := cs[i].(free := false)]
    else cs[..i] + [Chunk(len + HEADER, false), Chunk(cs[i].size - (len + HEADER), cs[i].free)] + cs[i + 1..]
  }

  // The new list and the index of the reserved chunk.
  function Alloc(cs: seq<Chunk>, len: nat): Option<(seq<Chunk>, nat)> {
    if len == 0 then None
    else
      var i := FirstFit(cs, len);
      if i < 0 then None else Some((Take(cs, i, len), i))
  }

  // ----- freeing -----

  // Walking the list, each free chunk absorbs the free chunks after it.
  function Coalesce(cs: seq<Chunk>): seq<Chunk>
    decreases |cs|
  {
    if |cs| < 2 then cs
    else if cs[0].free && cs[1].free then Coalesce([Chunk(cs[0].size + cs[1].size, true)] + cs[2..])
    else [cs[0]] + Coalesce(cs[1..])
  }

  function Free(cs: seq<Chunk>, k: nat): seq<Chunk>
    requires k < |cs|
  {
    Coalesce(cs[k := cs[k].(free := true)])
  }

  // ----- sums and addresses -----

  lemma {:induction false} TotalAppend(a: seq<Chunk>, b: seq<Chunk>)
    ensures Total(a + b) == Total(a) + Total(b)
  {
    if a == [] {
      assert a + b == b;
    } else {
      assert (a + b)[1..] == a[1..] + b;
      TotalAppend(a[1..], b);
    }
  }

  lemma {:induction false} OffsetIsTotal(cs: seq<Chunk>, k: nat)
    requires k <= |cs|
    ensures Offset(cs, k) == Total(cs[..k])
    ensures Offset(cs, k) + Total(cs[k..]) == Total(cs)
  {
    if k > 0 {
      assert cs[..k][1..] == cs[1..][..k - 1];
      assert cs[1..][k - 1..] == cs[k..];
      OffsetIsTotal(cs[1..], k - 1);
    } else {
      assert cs[0..] == cs;
    }
  }

  lemma {:induction false} OffsetNext(cs: seq<Chunk>, k: nat)
    requires k < |cs|
    ensures Offset(cs, k + 1) == Offset(cs, k) + cs[k].size
  {
    if k > 0 {
      OffsetNext(cs[1..], k - 1);
    }
  }

  lemma {:induction false} OffsetMonotonic(cs: seq<Chunk>, j: nat, k: nat)
    requires j < k <= |cs| && Sized(cs)
    ensures Offset(cs, j) + cs[j].size <= Offset(cs, k)
    decreases k - j
  {
    OffsetNext(cs, j);
    if j + 1 < k {
      OffsetMonotonic(cs, j + 1, k);
    }
  }

  // ----- allocation keeps the shape -----

  // A list in three parts.
  lemma TotalParts(a: seq<Chunk>, mid: seq<Chunk>, b: seq<Chunk>)
    ensures Total(a + mid + b) == Total(a) + Total(mid) + Total(b)
  {
    TotalAppend(a + mid, b);
    TotalAppend(a, mid);
  }

  // Changing whether a chunk is free changes no total.
  lemma TotalMark(cs: seq<Chunk>, i: nat, free: bool)
    requires i < |cs|
    ensures Total(cs[i := cs[i].(free := free)]) == Total(cs)
  {
    var a, b, c := cs[..i], cs[i + 1..], cs[i].(free := free);
    assert cs == a + [cs[i]] + b;
    assert cs[i := c] == a + [c] + b;
    TotalParts(a, [cs[i]], b);
    TotalParts(a, [c], b);
    TotalOne(cs[i]);
    TotalOne(c);
  }

  lemma {:induction false} TakeInv(cs: seq<Chunk>, i: nat, len: nat, heap: nat)
    requires Inv(cs, heap) && 0 < len && i < |cs| && cs[i].free && len + HEADER <= cs[i].size
    ensures Inv(Take(cs, i, len), heap)
  {
    if len + 2 * HEADER >= cs[i].size {
      TotalMark(cs, i, false);
    } else {
      SplitTotal(cs, i, Chunk(len + HEADER, false), Chunk(cs[i].size - (len + HEADER), true));
    }
  }

  lemma TotalOne(c: Chunk)
    ensures Total([c]) == c.size
  {
    assert [c][1..] == [];
  }

  // Replacing a chunk by two that add up to it.
  lemma {:induction false} SplitTotal(cs: seq<Chunk>, i: nat, x: Chunk, y: Chunk)
    requires i < |cs| && x.size + y.size == cs[i].size
    ensures Total(cs[..i] + [x, y] + cs[i + 1..]) == Total(cs)
  {
    var a, b := cs[..i], cs[i + 1..];
    assert cs == a + [cs[i]] + b;
    TotalParts(a, [cs[i]], b);
    TotalParts(a, [x, y], b);
    assert [x, y] == [x] + [y];
    TotalAppend([x], [y]);
    TotalOne(x);
    TotalOne(y);
    TotalOne(cs[i]);
  }

  lemma {:induction false} AllocInv(cs: seq<Chunk>, len: nat, heap: nat)
    requires Inv(cs, heap) && Alloc(cs, len).Some?
    ensures Inv(Alloc(cs, len).value.0, heap)
  {
    TakeInv(cs, FirstFit(cs, len), len, heap);
  }

  // ----- coalescing -----

  lemma {:induction false} CoalesceShape(cs: seq<Chunk>)
    requires cs != [] && Sized(cs)
    ensures var t := Coalesce(cs);
            && t != [] && Total(t) == Total(cs) && Sized(t) && Coalesced(t)
            && t[0].free == cs[0].free
    decreases |cs|
  {
    if |cs| >= 2 {
      if cs[0].free && cs[1].free {
        var merged := [Chunk(cs[0].size + cs[1].size, true)] + cs[2..];
        assert merged[1..] == cs[2..] == cs[1..][1..];
        CoalesceShape(merged);
      } else {
        CoalesceShape(cs[1..]);
        var rest := Coalesce(cs[1..]);
        assert ([cs[0]] + rest)[1..] == rest;
      }
    }
  }

  lemma FreeInv(cs: seq<Chunk>, k: nat, heap: nat)
    requires Inv(cs, heap) && k < |cs|
    ensures Inv(Free(cs, k), heap)
  {
    CoalesceShape(cs[k := cs[k].(free := true)]);
    TotalMark(cs, k, true);
  }

  lemma CoalescedTail(cs: seq<Chunk>)
    requires Coalesced(cs) && cs != []
    ensures Coalesced(cs[1..])
  {
    forall k | 0 <= k < |cs[1..]| - 1 ensures !(cs[1..][k].free && cs[1..][k + 1].free) {
      assert !(cs[k + 1].free && cs[k + 1 + 1].free);
    }
  }

  lemma {:induction false} CoalesceIdle(cs: seq<Chunk>)
    requires Coalesced(cs)
    ensures Coalesce(cs) == cs
    decreases |cs|
  {
    if |cs| >= 2 {
      CoalescedTail(cs);
      CoalesceIdle(cs[1..]);
    }
  }

  // Splitting one free chunk of a coalesced list in two is undone.
  lemma {:induction false} CoalesceMends(a: seq<Chunk>, x: Chunk, y: Chunk, b: seq<Chunk>)
    requires x.free && y.free && Coalesced(a + [Chunk(x.size + y.size, true)] + b)
    ensures Coalesce(a + [x, y] + b) == a + [Chunk(x.size + y.size, true)] + b
    decreases |a|
  {
    var whole := a + [Chunk(x.size + y.size, true)] + b;
    var parts := a + [x, y] + b;
    if a == [] {
      assert [Chunk(x.size + y.size, true)] + parts[2..] == whole;
      CoalesceIdle(whole);
    } else {
      var rest := a[1..] + [Chunk(x.size + y.size, true)] + b;
      assert whole[1..] == rest;
      CoalescedTail(whole);
      CoalesceMends(a[1..], x, y, b);
      assert parts[1..] == a[1..] + [x, y] + b;
      assert !(whole[0].free && whole[1].free);
      assert parts[1].free == whole[1].free;
    }
  }

  /** Freeing the block just allocated restores the very same list. */
  lemma FreeUndoesAlloc(cs: seq<Chunk>, len: nat, heap: nat)
    requires Inv(cs, heap) && Alloc(cs, len).Some?
    ensures var (t, i) := Alloc(cs, len).value;
            i < |t| && !t[i].free && Free(t, i) == cs
  {
    var i: nat := FirstFit(cs, len);
    var t := Take(cs, i, len);
    if len + 2 * HEADER >= cs[i].size {
      assert t[i := t[i].(free := true)] == cs;
      CoalesceIdle(cs);
    } else {
      var x := Chunk(len + HEADER, true);
      var y := Chunk(cs[i].size - (len + HEADER), true);
      assert cs == cs[..i] + [Chunk(x.size + y.size, true)] + cs[i + 1..];
      assert t[i := t[i].(free := true)] == cs[..i] + [x, y] + cs[i + 1..];
      CoalesceMends(cs[..i], x, y, cs[i + 1..]);
    }
  }

  // ----- when allocation fails -----

  // A contiguous stretch of free chunks that holds `len` cells and a header.
  ghost predicate Room(cs: seq<Chunk>, from: nat, to: nat, len: nat)
    requires from <= to <= |cs|
  {
    (forall k | from <= k < to :: cs[k].free) && len + HEADER <= Total(cs[from..to])
  }

  // In a coalesced list a free stretch is at most one chunk.
  lemma FreeStretch(cs: seq<Chunk>, i: nat, j: nat)
    requires Coalesced(cs) && i <= j <= |cs|
    ensures (forall k | i <= k < j :: cs[k].free) ==>
              j <= i + 1 && Total(cs[i..j]) == if j == i then 0 else cs[i].size
  {
    if j == i + 1 {
      assert cs[i..j] == [cs[i]];
      TotalOne(cs[i]);
    } else if i + 1 < j {
      assert !(cs[i].free && cs[i + 1].free);
    }
  }

  /** A non-zero request fails exactly when no contiguous stretch of free chunks
      holds it together with a header. */
  lemma FailsExactly(cs: seq<Chunk>, len: nat, heap: nat)
    requires Inv(cs, heap) && 0 < len
    ensures Alloc(cs, len).None? <==> forall i, j | 0 <= i <= j <= |cs| :: !Room(cs, i, j, len)
  {
    if Alloc(cs, len).None? {
      forall i, j | 0 <= i <= j <= |cs| ensures !Room(cs, i, j, len) {
        FreeStretch(cs, i, j);
      }
    } else {
      var i: nat := FirstFit(cs, len);
      assert cs[i..i + 1] == [cs[i]];
      TotalOne(cs[i]);
      assert Room(cs, i, i + 1, len);
    }
  }
}
