// The blocks in use: what their addresses and sizes are, that they do not
// overlap, and how allocation and freeing change them.
module HeapBlocks {
  import opened Common
  import opened HeapSpec

  // A reserved chunk: where its header is, and its size with the header.  The
  // caller's block is the `size - HEADER` cells from `at + HEADER` on.
  datatype Block = Block(at: nat, size: nat)

  // The reserved chunks of a list that starts at address `at`.
  function Used(cs: seq<Chunk>, at: nat): seq<Block> {
    if cs == [] then []
    else (if cs[0].free then [] else [Block(at, cs[0].size)]) + Used(cs[1..], at + cs[0].size)
  }

  lemma {:induction false} UsedAppend(a: seq<Chunk>, b: seq<Chunk>, at: nat)
    ensures Used(a + b, at) == Used(a, at) + Used(b, at + Total(a))
  {
    if a == [] {
      assert a + b == b;
    } else {
      assert (a + b)[1..] == a[1..] + b;
      UsedAppend(a[1..], b, at + a[0].size);
    }
  }

  // A list in three parts.
  lemma {:induction false} UsedParts(a: seq<Chunk>, mid: seq<Chunk>, b: seq<Chunk>)
    ensures Used(a + mid + b, 0) == Used(a, 0) + Used(mid, Total(a)) + Used(b, Total(a) + Total(mid))
  {
    UsedAppend(a + mid, b, 0);
    UsedAppend(a, mid, 0);
    TotalAppend(a, mid);
  }

  lemma UsedOne(c: Chunk, at: nat)
    ensures Used([c], at) == if c.free then [] else [Block(at, c.size)]
  {
    assert [c][1..] == [];
  }

  // Blocks in address order, inside [from, to), each larger than a header and
  // ending before the next begins.
  ghost predicate Apart(u: seq<Block>, from: nat, to: nat) {
    && (forall i | 0 <= i < |u| :: from <= u[i].at && u[i].at + u[i].size <= to && HEADER < u[i].size)
    && (forall i, j | 0 <= i < j < |u| :: u[i].at + u[i].size <= u[j].at)
  }

  lemma ApartCons(b: Block, rest: seq<Block>, to: nat)
    requires Apart(rest, b.at + b.size, to) && HEADER < b.size && b.at + b.size <= to
    ensures Apart([b] + rest, b.at, to)
  {
  }

  /** Two reserved chunks never overlap, and so neither do the callers' blocks
      with each other or with a header. */
  lemma {:induction false} UsedDisjoint(cs: seq<Chunk>, at: nat)
    requires Sized(cs)
    ensures Apart(Used(cs, at), at, at + Total(cs))
  {
    if cs != [] {
      UsedDisjoint(cs[1..], at + cs[0].size);
      if !cs[0].free {
        ApartCons(Block(at, cs[0].size), Used(cs[1..], at + cs[0].size), at + Total(cs));
      }
    }
  }

  // Merging free chunks moves no reserved chunk.
  lemma {:induction false} UsedCoalesce(cs: seq<Chunk>, at: nat)
    ensures Used(Coalesce(cs), at) == Used(cs, at)
    decreases |cs|
  {
    if |cs| >= 2 {
      if cs[0].free && cs[1].free {
        var merged := [Chunk(cs[0].size + cs[1].size, true)] + cs[2..];
        assert merged[1..] == cs[2..] == cs[1..][1..];
        UsedCoalesce(merged, at);
      } else {
        UsedCoalesce(cs[1..], at + cs[0].size);
        var t := Coalesce(cs[1..]);
        assert ([cs[0]] + t)[1..] == t;
      }
    }
  }

  // What a reserved chunk c becomes.
  function Reserved(c: Chunk, len: nat): seq<Chunk>
    requires len + HEADER <= c.size
  {
    if len + 2 * HEADER >= c.size then [c.(free := false)]
    else [Chunk(len + HEADER, false), Chunk(c.size - (len + HEADER), c.free)]
  }

  lemma UsedPair(x: Chunk, y: Chunk, at: nat)
    requires !x.free && y.free
    ensures Used([x, y], at) == [Block(at, x.size)] && Total([x, y]) == x.size + y.size
  {
    assert [x, y] == [x] + [y];
    UsedAppend([x], [y], at);
    UsedOne(x, at);
    TotalAppend([x], [y]);
    TotalOne(x);
    TotalOne(y);
    UsedOne(y, at + x.size);
  }

  lemma ReservedBlock(c: Chunk, len: nat, at: nat)
    requires len + HEADER <= c.size && c.free
    ensures var mid := Reserved(c, len);
            && Used(mid, at) == [Block(at, mid[0].size)] && Total(mid) == c.size && len + HEADER <= mid[0].size
  {
    var mid := Reserved(c, len);
    if |mid| == 1 {
      UsedOne(mid[0], at);
      TotalOne(mid[0]);
    } else {
      UsedPair(mid[0], mid[1], at);
    }
  }

  lemma {:induction false} TakeParts(cs: seq<Chunk>, i: nat, len: nat)
    requires i < |cs| && len + HEADER <= cs[i].size
    ensures var t := Take(cs, i, len);
            var mid := Reserved(cs[i], len);
            && t == cs[..i] + mid + cs[i + 1..] && t[..i] == cs[..i] && t[i] == mid[0]
            && Offset(t, i) == Total(cs[..i])
  {
    OffsetIsTotal(Take(cs, i, len), i);
  }

  /** Allocation adds one large enough block; every other block stays where it
      is. */
  lemma {:induction false} AllocAddsBlock(cs: seq<Chunk>, len: nat, heap: nat)
    returns (before: seq<Block>, after: seq<Block>)
    requires Inv(cs, heap) && Alloc(cs, len).Some?
    ensures var (t, i) := Alloc(cs, len).value;
            && i < |t| && len + HEADER <= t[i].size
            && Used(cs, 0) == before + after
            && Used(t, 0) == before + [Block(Offset(t, i), t[i].size)] + after
  {
    var i: nat := FirstFit(cs, len);
    var a, c, b := cs[..i], cs[i], cs[i + 1..];
    before := Used(a, 0);
    after := Used(b, Total(a) + c.size);
    assert cs == a + [c] + b;
    UsedParts(a, [c], b);
    UsedOne(c, Total(a));
    TotalOne(c);
    TakeParts(cs, i, len);
    ReservedBlock(c, len, Total(a));
    UsedParts(a, Reserved(c, len), b);
  }

  /** The block is taken from the first free chunk that can hold it, at its start,
      and is larger than asked for only by what could not hold a header and a
      cell; what is split off is free. */
  lemma {:induction false} AllocTakesFirst(cs: seq<Chunk>, len: nat, heap: nat)
    requires Inv(cs, heap) && Alloc(cs, len).Some?
    ensures var (t, i) := Alloc(cs, len).value;
            && i < |cs| && i < |t| && cs[i].free && len + HEADER <= cs[i].size
            && (forall j | 0 <= j < i :: t[j] == cs[j] && !(cs[j].free && len + HEADER <= cs[j].size))
            && !t[i].free && t[i].size <= len + 2 * HEADER
            && if t[i].size == cs[i].size then t[i + 1..] == cs[i + 1..]
               else t[i].size == len + HEADER && t[i + 1..] == [Chunk(cs[i].size - t[i].size, true)] + cs[i + 1..]
  {
    TakeParts(cs, FirstFit(cs, len), len);
  }

  /** Freeing removes exactly the block freed. */
  lemma {:induction false} FreeRemovesBlock(cs: seq<Chunk>, k: nat, heap: nat)
    returns (before: seq<Block>, after: seq<Block>)
    requires Inv(cs, heap) && k < |cs| && !cs[k].free
    ensures && Used(cs, 0) == before + [Block(Offset(cs, k), cs[k].size)] + after
            && Used(Free(cs, k), 0) == before + after
  {
    var marked := cs[k].(free := true);
    var a, c, b := cs[..k], cs[k], cs[k + 1..];
    before := Used(a, 0);
    after := Used(b, Total(a) + c.size);
    assert cs == a + [c] + b;
    assert cs[k := marked] == a + [marked] + b;
    UsedCoalesce(cs[k := marked], 0);
    UsedParts(a, [c], b);
    UsedParts(a, [marked], b);
    UsedOne(c, Total(a));
    UsedOne(marked, Total(a));
    TotalOne(c);
    TotalOne(marked);
    OffsetIsTotal(cs, k);
  }

  // ----- runs -----

  // The index of the chunk at address `at`, or -1.
  function ChunkAt(cs: seq<Chunk>, at: int): (k: int)
    ensures -1 <= k < |cs|
    ensures 0 <= k ==> Offset(cs, k) == at
  {
    if cs == [] then -1
    else if at == 0 then 0
    else
      var k := ChunkAt(cs[1..], at - cs[0].size);
      if k < 0 then -1 else k + 1
  }

  lemma {:induction false} ChunkAtFinds(cs: seq<Chunk>, k: nat)
    requires k < |cs| && Sized(cs)
    ensures ChunkAt(cs, Offset(cs, k)) == k
  {
    if k > 0 {
      ChunkAtFinds(cs[1..], k - 1);
    }
  }

  datatype Op = Malloc(len: nat) | Release(at: int)

  // A request is allowed when it frees a block in use, or allocates.
  predicate Allowed(cs: seq<Chunk>, op: Op) {
    op.Release? ==> 0 <= ChunkAt(cs, op.at) && !cs[ChunkAt(cs, op.at)].free
  }

  function Step(cs: seq<Chunk>, op: Op): seq<Chunk>
    requires Allowed(cs, op)
  {
    match op
    case Malloc(len) => (match Alloc(cs, len) case None => cs case Some((t, _)) => t)
    case Release(at) => Free(cs, ChunkAt(cs, at))
  }

  predicate AllowedRun(cs: seq<Chunk>, ops: seq<Op>)
    decreases |ops|
  {
    ops == [] || (Allowed(cs, ops[0]) && AllowedRun(Step(cs, ops[0]), ops[1..]))
  }

  function Run(cs: seq<Chunk>, ops: seq<Op>): seq<Chunk>
    requires AllowedRun(cs, ops)
    decreases |ops|
  {
    if ops == [] then cs else Run(Step(cs, ops[0]), ops[1..])
  }

  /** After any allocations and frees the chunks tile the heap, each larger than
      a header, and no two neighbours are free. */
  lemma {:induction false} RunInv(cs: seq<Chunk>, ops: seq<Op>, heap: nat)
    requires Inv(cs, heap) && AllowedRun(cs, ops)
    ensures Inv(Run(cs, ops), heap)
    decreases |ops|
  {
    if ops != [] {
      match ops[0] {
        case Malloc(len) => if Alloc(cs, len).Some? { AllocInv(cs, len, heap); }
        case Release(at) => FreeInv(cs, ChunkAt(cs, at), heap);
      }
      RunInv(Step(cs, ops[0]), ops[1..], heap);
    }
  }

  lemma {:induction false} NothingUsed(cs: seq<Chunk>, at: nat)
    requires Used(cs, at) == []
    ensures forall k | 0 <= k < |cs| :: cs[k].free
  {
    if cs != [] {
      NothingUsed(cs[1..], at + cs[0].size);
    }
  }

  /** Whatever was allocated and freed, in whatever order: when no block is in
      use any more the heap is the single free chunk it started as. */
  lemma AllFreedIsInitial(ops: seq<Op>, heap: nat)
    requires HEADER < heap && AllowedRun(Init(heap), ops)
    ensures Used(Run(Init(heap), ops), 0) == [] ==> Run(Init(heap), ops) == Init(heap)
  {
    var t := Run(Init(heap), ops);
    TotalOne(Chunk(heap, true));
    RunInv(Init(heap), ops, heap);
    if Used(t, 0) == [] {
      OneChunkLeft(t, heap);
    }
  }

  lemma OneChunkLeft(cs: seq<Chunk>, heap: nat)
    requires Inv(cs, heap) && Used(cs, 0) == []
    ensures cs == Init(heap)
  {
    NothingUsed(cs, 0);
    FreeStretch(cs, 0, |cs|);
    TotalOne(cs[0]);
    assert cs == [cs[0]];
  }

  // ----- freeing everything -----

  predicate InUse(cs: seq<Chunk>, at: int) {
    Among(Used(cs, 0), at)
  }

  // A block in use is found at its address.
  lemma {:induction false} UsedIsChunk(cs: seq<Chunk>, base: nat, i: nat)
    requires Sized(cs) && i < |Used(cs, base)|
    ensures var k := ChunkAt(cs, Used(cs, base)[i].at - base);
            0 <= k && !cs[k].free
  {
    var rest := Used(cs[1..], base + cs[0].size);
    if cs[0].free {
      UsedIsChunk(cs[1..], base + cs[0].size, i);
      UsedDisjoint(cs[1..], base + cs[0].size);
    } else if i > 0 {
      assert Used(cs, base)[i] == rest[i - 1];
      UsedIsChunk(cs[1..], base + cs[0].size, i - 1);
      UsedDisjoint(cs[1..], base + cs[0].size);
    }
  }

  predicate Among(u: seq<Block>, at: int) {
    exists i | 0 <= i < |u| :: u[i].at == at
  }

  // One block fewer.
  lemma {:induction false} AmongRest(before: seq<Block>, x: Block, after: seq<Block>)
    requires var u := before + [x] + after; forall i, j | 0 <= i < j < |u| :: u[i].at != u[j].at
    ensures forall b :: Among(before + after, b) <==> Among(before + [x] + after, b) && b != x.at
  {
    var u, v := before + [x] + after, before + after;
    var n := |before|;
    assert u[n] == x;
    forall b ensures Among(v, b) <==> Among(u, b) && b != x.at {
      if Among(v, b) {
        var j :| 0 <= j < |v| && v[j].at == b;
        var i := if j < n then j else j + 1;
        assert u[i].at == b;
      }
      if Among(u, b) && b != x.at {
        var j :| 0 <= j < |u| && u[j].at == b;
        assert v[if j < n then j else j - 1].at == b;
      }
    }
  }

  // Freeing the block at `at` ends exactly its use.
  lemma {:induction false} FreeEndsUse(cs: seq<Chunk>, at: int, heap: nat)
    requires Inv(cs, heap) && InUse(cs, at)
    ensures Allowed(cs, Release(at))
    ensures forall b :: InUse(Step(cs, Release(at)), b) <==> InUse(cs, b) && b != at
  {
    var u := Used(cs, 0);
    var i :| 0 <= i < |u| && u[i].at == at;
    UsedIsChunk(cs, 0, i);
    UsedDisjoint(cs, 0);
    var k := ChunkAt(cs, at);
    var before, after := FreeRemovesBlock(cs, k, heap);
    AmongRest(before, Block(at, cs[k].size), after);
    assert forall b :: InUse(cs, b) <==> Among(u, b);
    assert forall b :: InUse(Free(cs, k), b) <==> Among(before + after, b);
  }

  lemma SomeUse(cs: seq<Chunk>) returns (at: int)
    requires Used(cs, 0) != []
    ensures InUse(cs, at)
  {
    at := Used(cs, 0)[0].at;
  }

  function Releases(ats: seq<int>): seq<Op> {
    if ats == [] then [] else [Release(ats[0])] + Releases(ats[1..])
  }

  /** Freeing all blocks in use, each once and in any order, leaves the single
      initial free chunk. */
  lemma {:induction false} FreeAllInAnyOrder(cs: seq<Chunk>, ats: seq<int>, heap: nat)
    requires Inv(cs, heap)
    requires forall i, j | 0 <= i < j < |ats| :: ats[i] != ats[j]
    requires forall at :: at in ats <==> InUse(cs, at)
    ensures AllowedRun(cs, Releases(ats)) && Run(cs, Releases(ats)) == Init(heap)
    decreases |ats|
  {
    if ats == [] {
      if Used(cs, 0) != [] {
        var at := SomeUse(cs);
        assert false;
      }
      OneChunkLeft(cs, heap);
    } else {
      var at := ats[0];
      FreeEndsUse(cs, at, heap);
      var t := Step(cs, Release(at));
      FreeInv(cs, ChunkAt(cs, at), heap);
      assert ats == [at] + ats[1..];
      forall b ensures b in ats[1..] <==> InUse(t, b) {
      }
      FreeAllInAnyOrder(t, ats[1..], heap);
      assert Releases(ats)[1..] == Releases(ats[1..]);
    }
  }
}
