// The allocator itself, on chunk headers linked through memory and with the
// target's 16-bit size arithmetic.
module Heap {
  import opened Common
  import opened HeapSpec

  const NULL: int := -1

  // What is stored at a chunk's address.  Addresses count from the start of
  // the heap.
  datatype Header = Header(next: int, size: nat, free: bool)

  // size_t arithmetic
  function Wrap(x: nat): nat {
    x % SIZE_LIMIT
  }

  // The two size tests of do_malloc as the machine evaluates them.
  predicate TooSmall(size: nat, len: nat) {
    Wrap(len + HEADER) > size
  }

  predicate JustRight(size: nat, len: nat) {
    Wrap(Wrap(len + HEADER) + HEADER) >= size
  }

  // The free chunk that do_malloc picks.
  function MachineFit(cs: seq<Chunk>, len: nat): (i: int)
    ensures -1 <= i < |cs|
    ensures 0 <= i ==> cs[i].free && !TooSmall(cs[i].size, len)
    ensures 0 <= i ==> forall j | 0 <= j < i :: !(cs[j].free && !TooSmall(cs[j].size, len))
    ensures i < 0 ==> forall j | 0 <= j < |cs| :: !(cs[j].free && !TooSmall(cs[j].size, len))
  {
    FirstWhere(cs, (c: Chunk) => c.free && !TooSmall(c.size, len))
  }

  // The machine picks the right chunk and makes the right choice whether to
  // split it.
  ghost predicate Sound(cs: seq<Chunk>, len: nat) {
    var i := MachineFit(cs, len);
    i == FirstFit(cs, len) && (0 <= i ==> (JustRight(cs[i].size, len) <==> len + 2 * HEADER >= cs[i].size))
  }

  ghost predicate NoneFree(cs: seq<Chunk>) {
    forall k | 0 <= k < |cs| :: !cs[k].free
  }

  ghost predicate NoneFits(cs: seq<Chunk>, len: nat) {
    forall k | 0 <= k < |cs| :: cs[k].free ==> cs[k].size < len + HEADER
  }

  // The request and two headers fit in a size_t, or the chunks at hand are
  // such that the overflow cannot matter.
  ghost predicate Safe(cs: seq<Chunk>, len: nat) {
    || len + 2 * HEADER < SIZE_LIMIT
    || NoneFree(cs)
    || (len + HEADER < SIZE_LIMIT && NoneFits(cs, len))
  }

  /** The machine's size tests are the intended ones exactly for the safe
      requests. */
  lemma {:induction false} SoundExactly(cs: seq<Chunk>, len: nat, heap: nat)
    requires Inv(cs, heap) && heap < SIZE_LIMIT && len < SIZE_LIMIT
    ensures Sound(cs, len) <==> Safe(cs, len)
  {
    forall k | 0 <= k < |cs| ensures cs[k].size <= heap {
      ChunkFits(cs, k);
    }
  }

  /** What any other request does: it reserves a chunk that cannot hold it, or
      splits one whose rest cannot hold a header. */
  lemma {:induction false} UnsafeRequest(cs: seq<Chunk>, len: nat, heap: nat)
    requires Inv(cs, heap) && heap < SIZE_LIMIT && len < SIZE_LIMIT && !Safe(cs, len)
    ensures var i := MachineFit(cs, len);
            && 0 <= i
            && (|| cs[i].size < len + HEADER
                || (cs[i].size - (len + HEADER) < HEADER && !JustRight(cs[i].size, len)))
  {
    forall k | 0 <= k < |cs| ensures cs[k].size <= heap {
      ChunkFits(cs, k);
    }
  }

  /** One free chunk of 100 cells, and a request for 65533: the sum with a
      header wraps to 2, so the chunk is found large enough and is split. */
  lemma {:induction false} HugeRequest()
    ensures var cs := [Chunk(100, true)];
            var len := 65533;
            && Inv(cs, 100) && !Safe(cs, len) && FirstFit(cs, len) < 0
            && MachineFit(cs, len) == 0 && !JustRight(cs[0].size, len)
            && Wrap(len + HEADER) == 2
  {
    var cs := [Chunk(100, true)];
    TotalOne(cs[0]);
    assert cs[0].free && !TooSmall(cs[0].size, 65533);
  }

  lemma {:induction false} ChunkFits(cs: seq<Chunk>, k: nat)
    requires k < |cs|
    ensures cs[k].size <= Total(cs)
  {
    if k > 0 {
      ChunkFits(cs[1..], k - 1);
    }
  }

  // ----- headers in memory -----

  // The header of the k-th chunk.
  function HeaderOf(cs: seq<Chunk>, k: nat): Header
    requires k < |cs|
  {
    Header(if k + 1 < |cs| then Offset(cs, k + 1) else NULL, cs[k].size, cs[k].free)
  }

  // The k-th chunk's header is in its place.
  ghost predicate HeaderAt(m: seq<Header>, cs: seq<Chunk>, k: nat) {
    k < |cs| && Offset(cs, k) < |m| && m[Offset(cs, k)] == HeaderOf(cs, k)
  }

  // Memory holds the linked list of headers of `cs`.
  ghost predicate Holds(m: seq<Header>, cs: seq<Chunk>) {
    forall k: nat | k < |cs| :: HeaderAt(m, cs, k)
  }

  // A change of one chunk's header that moves no chunk.
  lemma {:induction false} HoldsUpdate(m: seq<Header>, cs: seq<Chunk>, i: nat, free: bool)
    requires Holds(m, cs) && Sized(cs) && i < |cs|
    ensures var cs' := cs[i := cs[i].(free := free)];
            Offset(cs, i) < |m| && Holds(m[Offset(cs, i) := HeaderOf(cs, i).(free := free)], cs')
  {
    var cs' := cs[i := cs[i].(free := free)];
    assert HeaderAt(m, cs, i);
    if i + 1 < |cs| { SameSizesSameOffsets(cs, cs', i + 1); }
    var m' := m[Offset(cs, i) := HeaderOf(cs, i).(free := free)];
    forall k: nat | k < |cs'| ensures HeaderAt(m', cs', k) {
      assert HeaderAt(m, cs, k);
      SameSizesSameOffsets(cs, cs', k);
      if k + 1 < |cs| { SameSizesSameOffsets(cs, cs', k + 1); }
      if k < i { OffsetMonotonic(cs, k, i); } else if i < k { OffsetMonotonic(cs, i, k); }
    }
  }

  lemma {:induction false} SameSizesSameOffsets(a: seq<Chunk>, b: seq<Chunk>, k: nat)
    requires |a| == |b| && k <= |a| && forall j | 0 <= j < k :: a[j].size == b[j].size
    ensures Offset(a, k) == Offset(b, k)
  {
    if k > 0 {
      SameSizesSameOffsets(a[1..], b[1..], k - 1);
    }
  }

  // cs[i] split into x and y.
  function Split(cs: seq<Chunk>, i: nat, x: Chunk, y: Chunk): (t: seq<Chunk>)
    requires i < |cs|
    ensures |t| == |cs| + 1
  {
    cs[..i] + [x, y] + cs[i + 1..]
  }

  lemma {:induction false} OffsetAppend(a: seq<Chunk>, b: seq<Chunk>, k: nat)
    requires k <= |a| + |b|
    ensures Offset(a + b, k) == if k <= |a| then Offset(a, k) else Total(a) + Offset(b, k - |a|)
  {
    if a == [] {
      assert a + b == b;
    } else if k > 0 {
      assert (a + b)[1..] == a[1..] + b;
      OffsetAppend(a[1..], b, k - 1);
    }
  }

  // Offsets in a list whose first chunk has become two.
  lemma {:induction false} SplitHead(x: Chunk, y: Chunk, z: Chunk, b: seq<Chunk>, k: nat)
    requires x.size + y.size == z.size && k <= |b| + 1
    ensures Offset([x, y] + b, k + 1) == if k == 0 then x.size else Offset([z] + b, k)
  {
    assert ([x, y] + b)[1..] == [y] + b;
    if k > 0 {
      assert ([y] + b)[1..] == b == ([z] + b)[1..];
    }
  }

  // Offsets around a place where one chunk has become two.
  lemma {:induction false} SplitOffsets(cs: seq<Chunk>, i: nat, x: Chunk, y: Chunk, k: nat)
    requires i < |cs| && x.size + y.size == cs[i].size && k <= |cs| + 1
    ensures Offset(Split(cs, i, x, y), k)
         == if k <= i then Offset(cs, k) else if k == i + 1 then Offset(cs, i) + x.size else Offset(cs, k - 1)
  {
    var a, b := cs[..i], cs[i + 1..];
    assert Split(cs, i, x, y) == a + ([x, y] + b);
    assert cs == a + ([cs[i]] + b);
    OffsetAppend(a, [x, y] + b, k);
    OffsetAppend(a, [cs[i]] + b, if k <= i then k else k - 1);
    if i < k {
      SplitHead(x, y, cs[i], b, k - i - 1);
    }
    OffsetIsTotal(cs, i);
  }

  // The headers of the other chunks do not notice a split.
  lemma {:induction false} SplitHeaders(cs: seq<Chunk>, i: nat, x: Chunk, y: Chunk, k: nat)
    requires i < |cs| && x.size + y.size == cs[i].size && k < |cs| && k != i
    ensures var t := Split(cs, i, x, y);
            var k' := if k < i then k else k + 1;
            k' < |t| && Offset(t, k') == Offset(cs, k) && HeaderOf(t, k') == HeaderOf(cs, k)
  {
    var t := Split(cs, i, x, y);
    var k' := if k < i then k else k + 1;
    assert t[k'] == cs[k];
    SplitOffsets(cs, i, x, y, k');
    if k + 1 < |cs| {
      SplitOffsets(cs, i, x, y, k' + 1);
    }
  }

  lemma {:induction false} SplitPair(cs: seq<Chunk>, i: nat, x: Chunk, y: Chunk)
    requires i < |cs| && x.size + y.size == cs[i].size
    ensures var t := Split(cs, i, x, y);
            var at := Offset(cs, i);
            && i + 1 < |t| && Offset(t, i) == at && Offset(t, i + 1) == at + x.size
            && HeaderOf(t, i) == Header(at + x.size, x.size, x.free)
            && HeaderOf(t, i + 1) == Header(HeaderOf(cs, i).next, y.size, y.free)
  {
    SplitOffsets(cs, i, x, y, i);
    SplitOffsets(cs, i, x, y, i + 1);
    if i + 1 < |cs| {
      SplitOffsets(cs, i, x, y, i + 2);
    }
  }

  lemma {:induction false} OthersElsewhere(cs: seq<Chunk>, i: nat, k: nat)
    requires Sized(cs) && i < |cs| && k < |cs| && k != i
    ensures Offset(cs, k) < Offset(cs, i) || Offset(cs, i) + cs[i].size <= Offset(cs, k)
  {
    if k < i { OffsetMonotonic(cs, k, i); } else { OffsetMonotonic(cs, i, k); }
  }

  // The two headers that a split of chunk i writes.
  function WriteSplit(m: seq<Header>, cs: seq<Chunk>, i: nat, x: Chunk, y: Chunk): seq<Header>
    requires i < |cs| && Offset(cs, i) + x.size < |m|
  {
    var at := Offset(cs, i);
    m[at := Header(at + x.size, x.size, x.free)][at + x.size := Header(HeaderOf(cs, i).next, y.size, y.free)]
  }

  lemma {:induction false} OtherHeaderHolds(m: seq<Header>, cs: seq<Chunk>, i: nat, x: Chunk, y: Chunk, k: nat)
    requires Holds(m, cs) && Sized(cs) && i < |cs| && x.size + y.size == cs[i].size && HEADER < x.size
             && HEADER < y.size
    requires Offset(cs, i) + x.size < |m| && k < |cs| && k != i
    ensures var t := Split(cs, i, x, y);
            var k' := if k < i then k else k + 1;
            HeaderAt(WriteSplit(m, cs, i, x, y), t, k')
  {
    SplitHeaders(cs, i, x, y, k);
    OthersElsewhere(cs, i, k);
    assert HeaderAt(m, cs, k);
  }

  lemma {:induction false} SplitInside(m: seq<Header>, cs: seq<Chunk>, i: nat, x: Chunk)
    requires i < |cs| && x.size < cs[i].size && Total(cs) <= |m|
    ensures Offset(cs, i) + x.size < |m|
  {
    OffsetIsTotal(cs, i);
    ChunkFits(cs[i..], 0);
  }

  // The two headers written are those of the two halves.
  lemma {:induction false} HalvesHold(m: seq<Header>, cs: seq<Chunk>, i: nat, x: Chunk, y: Chunk)
    requires i < |cs| && HEADER < x.size && x.size + y.size == cs[i].size && Offset(cs, i) + x.size < |m|
    ensures HeaderAt(WriteSplit(m, cs, i, x, y), Split(cs, i, x, y), i)
    ensures HeaderAt(WriteSplit(m, cs, i, x, y), Split(cs, i, x, y), i + 1)
  {
    SplitPair(cs, i, x, y);
  }

  lemma {:induction false} HoldsSplit(m: seq<Header>, cs: seq<Chunk>, i: nat, x: Chunk, y: Chunk)
    requires Holds(m, cs) && Sized(cs) && i < |cs| && HEADER < x.size && HEADER < y.size
             && x.size + y.size == cs[i].size
    requires Total(cs) <= |m|
    ensures Offset(cs, i) + x.size < |m| && Holds(WriteSplit(m, cs, i, x, y), Split(cs, i, x, y))
  {
    SplitInside(m, cs, i, x);
    var t := Split(cs, i, x, y);
    var m' := WriteSplit(m, cs, i, x, y);
    forall k: nat | k < |t| ensures HeaderAt(m', t, k) {
      if k < i {
        OtherHeaderHolds(m, cs, i, x, y, k);
      } else if i + 1 < k {
        OtherHeaderHolds(m, cs, i, x, y, k - 1);
      } else {
        HalvesHold(m, cs, i, x, y);
      }
    }
  }

  // Chunk i merged with chunk i + 1.
  function Merged(cs: seq<Chunk>, i: nat): seq<Chunk>
    requires i + 1 < |cs|
  {
    cs[..i] + [Chunk(cs[i].size + cs[i + 1].size, true)] + cs[i + 2..]
  }

  // Merging is splitting backwards.
  lemma {:induction false} MergedSplits(cs: seq<Chunk>, i: nat)
    requires i + 1 < |cs|
    ensures i < |Merged(cs, i)| && Split(Merged(cs, i), i, cs[i], cs[i + 1]) == cs
  {
  }

  lemma {:induction false} HoldsMerge(m: seq<Header>, cs: seq<Chunk>, i: nat)
    requires Holds(m, cs) && Sized(cs) && i + 1 < |cs|
    ensures var at := Offset(cs, i);
            var t := Merged(cs, i);
            && Sized(t) && Offset(t, i) == at && at < |m|
            && Holds(m[at := Header(HeaderOf(cs, i + 1).next, cs[i].size + cs[i + 1].size, true)], t)
  {
    var at := Offset(cs, i);
    var t := Merged(cs, i);
    assert HeaderAt(m, cs, i);
    var m' := m[at := Header(HeaderOf(cs, i + 1).next, cs[i].size + cs[i + 1].size, true)];
    MergedSplits(cs, i);
    SplitPair(t, i, cs[i], cs[i + 1]);
    assert t[i] == Chunk(cs[i].size + cs[i + 1].size, true);
    forall k | 0 <= k < |t| ensures HEADER < t[k].size {
      assert k != i ==> t[k] == cs[if k < i then k else k + 1];
    }
    forall k: nat | k < |t| ensures HeaderAt(m', t, k) {
      if k != i {
        SplitHeaders(t, i, cs[i], cs[i + 1], k);
        var k' := if k < i then k else k + 1;
        assert HeaderAt(m, cs, k');
        OthersElsewhere(cs, i, k');
      }
    }
  }

  // ----- the allocator -----

  class Allocator {
    // header[a] is what is stored at address a, if a chunk begins there
    const header: array<Header>
    ghost var chunks: seq<Chunk>

    ghost predicate Valid()
      reads this, header
    {
      header.Length < SIZE_LIMIT && Inv(chunks, header.Length) && Holds(header[..], chunks)
    }

    // chunklist_init
    constructor (heap: nat)
      requires HEADER < heap < SIZE_LIMIT
      ensures Valid() && fresh(header) && header.Length == heap && chunks == Init(heap)
    {
      header := new Header[heap](_ => Header(NULL, 0, false));
      chunks := Init(heap);
      new;
      header[0] := Header(NULL, heap, true);
      TotalOne(chunks[0]);
    }

    // The address of a block of `len` cells, or NULL.
    method DoMalloc(len: nat) returns (p: int)
      requires Valid() && len < SIZE_LIMIT && Safe(chunks, len)
      modifies `chunks, header
      ensures Valid()
      ensures match Alloc(old(chunks), len)
              case None => p == NULL && chunks == old(chunks)
              case Some((t, i)) => chunks == t && i < |t| && p == Offset(t, i) + HEADER
    {
      if len == 0 {
        return NULL;
      }
      SoundExactly(chunks, len, header.Length);
      var it := 0;
      ghost var k := 0;
      while it != NULL
        invariant 0 <= k <= |chunks| && Valid() && chunks == old(chunks)
        invariant it == if k < |chunks| then Offset(chunks, k) else NULL
        invariant forall j | 0 <= j < k :: !(chunks[j].free && !TooSmall(chunks[j].size, len))
        decreases |chunks| - k
      {
        assert HeaderAt(header[..], chunks, k);
        if header[it].free && !(Wrap(len + HEADER) > header[it].size) {
          assert k == MachineFit(chunks, len);
          p := Reserve(it, len, k);
          return;
        }
        it := header[it].next;
        k := k + 1;
      }
      assert MachineFit(chunks, len) < 0;
      p := NULL;
    }

    method Reserve(it: nat, len: nat, ghost k: nat) returns (p: int)
      requires Valid() && 0 < len
      requires k < |chunks| && it == Offset(chunks, k) && chunks[k].free && len + HEADER <= chunks[k].size
      requires JustRight(chunks[k].size, len) <==> len + 2 * HEADER >= chunks[k].size
      modifies `chunks, header
      ensures Valid() && chunks == Take(old(chunks), k, len)
      ensures k < |chunks| && p == Offset(chunks, k) + HEADER
    {
      ghost var cs := chunks;
      ghost var m := header[..];
      assert HeaderAt(m, cs, k);
      TakeInv(cs, k, len, header.Length);
      if Wrap(Wrap(len + HEADER) + HEADER) >= header[it].size {
        HoldsUpdate(m, cs, k, false);
        header[it] := header[it].(free := false);
        chunks := cs[k := cs[k].(free := false)];
        SameSizesSameOffsets(cs, chunks, k);
        return it + HEADER;
      }
      ghost var x := Chunk(len + HEADER, false);
      ghost var y := Chunk(cs[k].size - (len + HEADER), true);
      HoldsSplit(m, cs, k, x, y);
      var ch := it + len + HEADER;
      header[ch] := Header(header[it].next, header[it].size - (len + HEADER), header[it].free);
      header[it] := Header(ch, header[it].size - header[ch].size, false);
      chunks := Split(cs, k, x, y);
      SplitPair(cs, k, x, y);
      assert header[..] == WriteSplit(m, cs, k, x, y);
      p := it + HEADER;
    }

    // `p` is NULL or the address of a block in use.
    method DoFree(p: int, ghost k: nat)
      requires Valid()
      requires p != NULL ==> k < |chunks| && p == Offset(chunks, k) + HEADER && !chunks[k].free
      modifies `chunks, header
      ensures Valid()
      ensures chunks == if p == NULL then old(chunks) else Free(old(chunks), k)
    {
      if p == NULL {
        return;
      }
      var at := p - HEADER;
      ghost var cs := chunks;
      ghost var m := header[..];
      HoldsUpdate(m, cs, k, true);
      assert HeaderAt(m, cs, k);
      header[at] := header[at].(free := true);
      chunks := cs[k := cs[k].(free := true)];
      FreeInv(cs, k, header.Length);
      MergeFree();
    }

    // The merging loops of do_free over the whole list.
    method MergeFree()
      requires chunks != [] && Sized(chunks) && Holds(header[..], chunks)
      modifies `chunks, header
      ensures Sized(chunks) && Holds(header[..], chunks) && chunks == Coalesce(old(chunks))
    {
      ghost var goal := Coalesce(chunks);
      ghost var k := 0;
      var it := 0;
      while it != NULL
        invariant 0 <= k <= |chunks| && Sized(chunks) && Holds(header[..], chunks)
        invariant it == if k < |chunks| then Offset(chunks, k) else NULL
        invariant chunks[..k] + Coalesce(chunks[k..]) == goal
        decreases |chunks| - k
      {
        it, k := MergeOne(it, k);
      }
    }

    // One turn of the outer loop: the chunk absorbs its free successors.
    method MergeOne(it: nat, ghost k: nat) returns (next: int, ghost k': nat)
      requires k < |chunks| && Sized(chunks) && Holds(header[..], chunks) && it == Offset(chunks, k)
      modifies `chunks, header
      ensures k' == k + 1 && k' <= |chunks| <= |old(chunks)| && Sized(chunks) && Holds(header[..], chunks)
      ensures next == if k' < |chunks| then Offset(chunks, k') else NULL
      ensures chunks[..k'] + Coalesce(chunks[k'..]) == old(chunks[..k] + Coalesce(chunks[k..]))
    {
      ghost var goal := chunks[..k] + Coalesce(chunks[k..]);
      NextHeader(header[..], chunks, k);
      while header[it].free && header[it].next != NULL && header[header[it].next].free
        invariant k < |chunks| <= |old(chunks)| && Sized(chunks) && Holds(header[..], chunks) && it == Offset(chunks, k)
        invariant Linked(header[..], chunks, k)
        invariant chunks[..k] + Coalesce(chunks[k..]) == goal
        decreases |chunks|
      {
        Absorb(it, k);
        NextHeader(header[..], chunks, k);
      }
      next := header[it].next;
      k' := k + 1;
      CoalesceMovesOn(chunks, k);
    }

    // Merge with the next free chunk.
    method Absorb(it: nat, ghost k: nat)
      requires k + 1 < |chunks| && Sized(chunks) && Holds(header[..], chunks) && it == Offset(chunks, k)
      requires chunks[k].free && chunks[k + 1].free
      modifies `chunks, header
      ensures chunks == Merged(old(chunks), k) && Sized(chunks) && Holds(header[..], chunks) && it == Offset(chunks, k)
      ensures chunks[..k] + Coalesce(chunks[k..]) == old(chunks[..k] + Coalesce(chunks[k..]))
    {
      ghost var cs := chunks;
      ghost var m := header[..];
      NextHeader(m, cs, k);
      NextHeader(m, cs, k + 1);
      HoldsMerge(m, cs, k);
      CoalesceMerged(cs, k);
      header[it] := header[it].(size := header[it].size + header[header[it].next].size);
      header[it] := header[it].(next := header[header[it].next].next);
      assert header[..] == m[it := Header(HeaderOf(cs, k + 1).next, cs[k].size + cs[k + 1].size, true)];
      chunks := Merged(cs, k);
    }
  }

  // The header of chunk k and its link to the next chunk.
  ghost predicate Linked(m: seq<Header>, cs: seq<Chunk>, k: nat)
    requires k < |cs|
  {
    && Offset(cs, k) < |m| && m[Offset(cs, k)] == HeaderOf(cs, k)
    && (k + 1 < |cs| ==> Offset(cs, k + 1) < |m| && Offset(cs, k) < Offset(cs, k + 1)
                         && m[Offset(cs, k + 1)].free == cs[k + 1].free)
  }

  lemma {:induction false} NextHeader(m: seq<Header>, cs: seq<Chunk>, k: nat)
    requires k < |cs| && Sized(cs) && Holds(m, cs)
    ensures Linked(m, cs, k)
  {
    assert HeaderAt(m, cs, k);
    if k + 1 < |cs| {
      assert HeaderAt(m, cs, k + 1);
      OffsetMonotonic(cs, k, k + 1);
    }
  }

  lemma {:induction false} CoalesceMerged(cs: seq<Chunk>, k: nat)
    requires k + 1 < |cs| && cs[k].free && cs[k + 1].free
    ensures Merged(cs, k)[..k] + Coalesce(Merged(cs, k)[k..]) == cs[..k] + Coalesce(cs[k..])
  {
    var t := Merged(cs, k);
    assert t[..k] == cs[..k];
    assert t[k..] == [Chunk(cs[k..][0].size + cs[k..][1].size, true)] + cs[k..][2..];
  }

  lemma {:induction false} CoalesceMovesOn(cs: seq<Chunk>, k: nat)
    requires k < |cs| && (k + 1 < |cs| ==> !(cs[k].free && cs[k + 1].free))
    ensures cs[..k + 1] + Coalesce(cs[k + 1..]) == cs[..k] + Coalesce(cs[k..])
  {
    assert cs[k..][1..] == cs[k + 1..];
    assert cs[..k + 1] == cs[..k] + [cs[k]];
  }
}
