// The argument block of a new process (servers/pm.c): a table of pointers
// ended by NULL, followed by the strings they point to.
module ArgStack {
  import opened Common

  // sizeof(char*) and the number of addresses on the target
  const PTR_SIZE: nat := 2
  const ADDRESSES: nat := 0x1_0000

  // The bytes of a C string without its terminator.
  type Text = seq<int>

  ghost predicate IsText(s: Text) {
    forall i | 0 <= i < |s| :: 0 < s[i] < 256
  }

  ghost predicate IsArgv(argv: seq<Text>) {
    forall i | 0 <= i < |argv| :: IsText(argv[i])
  }

  function StringBytes(argv: seq<Text>): nat {
    if argv == [] then 0 else |argv[0]| + 1 + StringBytes(argv[1..])
  }

  // pm_argstack_size
  function Size(argv: seq<Text>): nat {
    StringBytes(argv) + PTR_SIZE * (|argv| + 1)
  }

  // ----- the block, byte by byte -----

  function Pointers(first: nat, argv: seq<Text>): (t: seq<int>)
    ensures |t| == PTR_SIZE * |argv|
    decreases |argv|
  {
    if argv == [] then []
    else [first % 256, first / 256] + Pointers(first + |argv[0]| + 1, argv[1..])
  }

  function Strings(argv: seq<Text>): (t: seq<int>)
    ensures |t| == StringBytes(argv)
  {
    if argv == [] then [] else argv[0] + [0] + Strings(argv[1..])
  }

  // The block at address `base`.
  function Block(base: nat, argv: seq<Text>): (t: seq<int>)
    ensures |t| == Size(argv)
  {
    Pointers(base + PTR_SIZE * (|argv| + 1), argv) + [0, 0] + Strings(argv)
  }

  // Where the i-th string begins, counted from the start of the block.
  function Start(argv: seq<Text>, i: nat): nat
    requires i <= |argv|
  {
    PTR_SIZE * (|argv| + 1) + StringBytes(argv[..i])
  }

  lemma {:induction false} StringBytesSnoc(argv: seq<Text>, i: nat)
    requires i < |argv|
    ensures StringBytes(argv[..i + 1]) == StringBytes(argv[..i]) + |argv[i]| + 1
    ensures StringBytes(argv[..i]) + StringBytes(argv[i..]) == StringBytes(argv)
  {
    if i > 0 {
      assert argv[..i + 1][1..] == argv[1..][..i] && argv[..i][1..] == argv[1..][..i - 1];
      assert argv[1..][i - 1..] == argv[i..];
      StringBytesSnoc(argv[1..], i - 1);
    } else {
      assert argv[..1] == [argv[0]] && argv[0..] == argv;
      assert argv[..1][1..] == [];
    }
  }

  // The i-th pointer and the i-th string of a block.
  lemma {:induction false} PointersAt(first: nat, argv: seq<Text>, i: nat)
    requires i < |argv|
    ensures var t := Pointers(first, argv);
            var p := first + StringBytes(argv[..i]);
            t[PTR_SIZE * i] == p % 256 && t[PTR_SIZE * i + 1] == p / 256
    decreases |argv|
  {
    if i > 0 {
      PointersAt(first + |argv[0]| + 1, argv[1..], i - 1);
      assert argv[..i][1..] == argv[1..][..i - 1];
      var rest := Pointers(first + |argv[0]| + 1, argv[1..]);
      assert Pointers(first, argv)[PTR_SIZE * i] == rest[PTR_SIZE * (i - 1)];
      assert Pointers(first, argv)[PTR_SIZE * i + 1] == rest[PTR_SIZE * (i - 1) + 1];
    }
  }

  lemma {:induction false} StringsAt(argv: seq<Text>, i: nat)
    requires i < |argv|
    ensures var at := StringBytes(argv[..i]);
            at + |argv[i]| + 1 <= |Strings(argv)| && Strings(argv)[at..at + |argv[i]| + 1] == argv[i] + [0]
  {
    if i > 0 {
      StringsAt(argv[1..], i - 1);
      assert argv[..i][1..] == argv[1..][..i - 1];
    }
  }

  lemma BlockAt(base: nat, argv: seq<Text>, i: nat)
    requires i < |argv|
    ensures var b := Block(base, argv);
            var at := Start(argv, i);
            && at + |argv[i]| + 1 == Start(argv, i + 1) <= |b|
            && b[PTR_SIZE * i] == (base + at) % 256 && b[PTR_SIZE * i + 1] == (base + at) / 256
            && b[at..at + |argv[i]| + 1] == argv[i] + [0]
  {
    StringBytesSnoc(argv, i);
    PointersAt(base + PTR_SIZE * (|argv| + 1), argv, i);
    StringsAt(argv, i);
  }

  // ----- reading a block back -----

  function ReadString(m: seq<int>, at: int): Text
    decreases |m| - at
  {
    if at < 0 || at >= |m| || m[at] == 0 then [] else [m[at]] + ReadString(m, at + 1)
  }

  // The strings of a block at `base`, from its i-th pointer up to NULL.
  function ReadArgv(m: seq<int>, base: nat, i: nat): seq<Text>
    decreases |m| - PTR_SIZE * i
  {
    if PTR_SIZE * i + 1 >= |m| then []
    else
      var p := m[PTR_SIZE * i] + 256 * m[PTR_SIZE * i + 1];
      if p == 0 then [] else [ReadString(m, p - base)] + ReadArgv(m, base, i + 1)
  }

  lemma {:induction false} ReadStringIs(m: seq<int>, at: nat, s: Text, k: nat)
    requires IsText(s) && k <= |s| && at + |s| < |m| && m[at..at + |s| + 1] == s + [0]
    ensures ReadString(m, at + k) == s[k..]
    decreases |s| - k
  {
    assert m[at + k] == m[at..at + |s| + 1][k];
    if k < |s| {
      ReadStringIs(m, at, s, k + 1);
    }
  }

  lemma {:induction false} ReadsFrom(base: nat, argv: seq<Text>, i: nat)
    requires IsArgv(argv) && 0 < base && base + Size(argv) <= ADDRESSES && i <= |argv|
    ensures ReadArgv(Block(base, argv), base, i) == argv[i..]
    decreases |argv| - i
  {
    var m := Block(base, argv);
    if i < |argv| {
      BlockAt(base, argv, i);
      var at := Start(argv, i);
      ReadStringIs(m, at, argv[i], 0);
      ReadsFrom(base, argv, i + 1);
    } else {
      assert m[PTR_SIZE * i] == 0 && m[PTR_SIZE * i + 1] == 0;
    }
  }

  /** Round trip: reading the block back gives the same list of arguments. */
  lemma ReadBack(base: nat, argv: seq<Text>)
    requires IsArgv(argv) && 0 < base && base + Size(argv) <= ADDRESSES
    ensures ReadArgv(Block(base, argv), base, 0) == argv
  {
    ReadsFrom(base, argv, 0);
  }

  /** Every string lies after the pointer table and inside the block, and ends
      before the next one begins. */
  lemma {:induction false} RegionsApart(argv: seq<Text>, i: nat, j: nat)
    requires i < j <= |argv|
    ensures PTR_SIZE * (|argv| + 1) <= Start(argv, i)
    ensures Start(argv, i) + |argv[i]| + 1 <= Start(argv, j) <= Size(argv)
    decreases j - i
  {
    StringBytesSnoc(argv, i);
    if i + 1 < j {
      RegionsApart(argv, i + 1, j);
    } else if j < |argv| {
      StringBytesSnoc(argv, j);
    } else {
      assert argv[..j] == argv;
    }
  }

  // ----- building a block -----

  // strcpy
  method CopyString(mem: array<int>, at: nat, s: Text)
    requires at + |s| + 1 <= mem.Length
    modifies mem
    ensures mem[at..at + |s| + 1] == s + [0]
    ensures forall j | 0 <= j < mem.Length && !(at <= j <= at + |s|) :: mem[j] == old(mem[j])
  {
    var i := 0;
    while i < |s|
      invariant 0 <= i <= |s|
      invariant forall j | 0 <= j < i :: mem[at + j] == s[j]
      invariant forall j | 0 <= j < mem.Length && !(at <= j < at + i) :: mem[j] == old(mem[j])
    {
      mem[at + i] := s[i];
      i := i + 1;
    }
    mem[at + i] := 0;
  }

  // The i-th pointer and the string it leads to.
  method CookOne(mem: array<int>, base: nat, argv: seq<Text>, i: nat, bottom: nat)
    requires mem.Length == Size(argv) && i < |argv| && bottom == Start(argv, i)
    modifies mem
    ensures var b := Block(base, argv);
            && |b| == mem.Length && bottom + |argv[i]| + 1 <= mem.Length && PTR_SIZE * (i + 1) <= bottom
            && (forall j | PTR_SIZE * i <= j < PTR_SIZE * (i + 1) :: mem[j] == b[j])
            && (forall j | bottom <= j < bottom + |argv[i]| + 1 :: mem[j] == b[j])
            && forall j | 0 <= j < mem.Length && !(PTR_SIZE * i <= j < PTR_SIZE * (i + 1))
                            && !(bottom <= j < bottom + |argv[i]| + 1) :: mem[j] == old(mem[j])
  {
    ghost var b := Block(base, argv);
    BlockAt(base, argv, i);
    RegionsApart(argv, i, i + 1);
    mem[PTR_SIZE * i] := (base + bottom) % 256;
    mem[PTR_SIZE * i + 1] := (base + bottom) / 256;
    CopyString(mem, bottom, argv[i]);
    SameSlice(mem[..], b, bottom, bottom + |argv[i]| + 1);
  }

  lemma SameSlice(a: seq<int>, b: seq<int>, from: nat, to: nat)
    requires from <= to <= |a| == |b| && a[from..to] == b[from..to]
    ensures forall j | from <= j < to :: a[j] == b[j]
  {
    assert forall j | from <= j < to :: a[j] == a[from..to][j - from] && b[j] == b[from..to][j - from];
  }

  // cook_argstack: `mem` is the block that was allocated for it, at `base`.
  method Cook(mem: array<int>, base: nat, argv: seq<Text>)
    requires mem.Length == Size(argv)
    modifies mem
    ensures mem[..] == Block(base, argv)
  {
    ghost var b := Block(base, argv);
    var num := |argv|;
    var bottom := PTR_SIZE * (num + 1);
    var i := 0;
    assert argv[..0] == [];
    while i < num
      invariant 0 <= i <= num && bottom == Start(argv, i)
      invariant forall j | 0 <= j < PTR_SIZE * i :: mem[j] == b[j]
      invariant forall j | PTR_SIZE * (num + 1) <= j < bottom && j < |b| :: mem[j] == b[j]
    {
      BlockAt(base, argv, i);
      RegionsApart(argv, i, i + 1);
      CookOne(mem, base, argv, i, bottom);
      bottom := bottom + |argv[i]| + 1;
      i := i + 1;
    }
    mem[PTR_SIZE * i] := 0;
    mem[PTR_SIZE * i + 1] := 0;
    assert argv[..num] == argv;
    assert forall j | 0 <= j < |b| :: mem[j] == b[j];
  }
}
