// The memory disk (drivers/ramdisk.c) as a transition system over one inode.
module RamDiskSpec {
  import opened Common

  const MF_MAX_NODES: nat := 8
  const FILE_BYTES: nat := 128
  const FILE_LIMIT: int := 127

  datatype File = File(refcnt: int, links: int, size: int, bytes: seq<int>)

  ghost predicate IsFile(f: File) {
    |f.bytes| == FILE_BYTES
  }

  // Storing an int in a signed 8-bit char.
  function ToChar(x: int): (c: int)
    ensures -128 <= c < 128
  {
    (x + 128) % 256 - 128
  }

  // An inode goes away when neither references nor links are left.
  function Kept(f: File): Option<File> {
    if f.refcnt != 0 || f.links != 0 then Some(f) else None
  }

  // (new file, value returned, bytes moved)
  function WriteAt(f: File, pos: nat, data: int): (File, int, int)
    requires IsFile(f)
  {
    if pos >= FILE_LIMIT then (f, EOF, 0)
    else (f.(size := pos + 1, bytes := f.bytes[pos := ToChar(data)]), data, 1)
  }

  function ReadAt(f: File, pos: nat): (int, int)
    requires IsFile(f)
  {
    if pos >= FILE_LIMIT || pos >= f.size then (EOF, 0) else (f.bytes[pos], 1)
  }

  // ----- making, linking and unlinking inodes -----

  datatype Cmd = Mknod | Link(ino: nat) | Unlink(ino: nat)

  predicate InRange(disk: seq<Option<File>>, c: Cmd) {
    c.Mknod? || c.ino < |disk|
  }

  // The slot a new inode takes: the lowest free one.
  function FreeNode(disk: seq<Option<File>>): (i: int)
    ensures -1 <= i < |disk|
    ensures 0 <= i ==> disk[i].None? && forall j | 0 <= j < i :: disk[j].Some?
    ensures i < 0 ==> forall j | 0 <= j < |disk| :: disk[j].Some?
  {
    FirstWhere(disk, (f: Option<File>) => f.None?)
  }

  // A new inode, which nobody has open or linked.
  function NewFile(): (f: File)
    ensures IsFile(f)
  {
    File(0, 0, 0, seq(FILE_BYTES, _ => 0))
  }

  // The table after a command and the inode number returned.
  function Command(disk: seq<Option<File>>, c: Cmd): (r: (seq<Option<File>>, int))
    requires InRange(disk, c)
    ensures |r.0| == |disk|
  {
    match c
    case Mknod =>
      var i := FreeNode(disk);
      if i < 0 then (disk, -1) else (disk[i := Some(NewFile())], i)
    case Link(ino) =>
      if disk[ino].None? then (disk, -1)
      else
        var f := disk[ino].value;
        (disk[ino := Some(f.(links := f.links + 1))], ino)
    case Unlink(ino) =>
      if disk[ino].None? then (disk, -1)
      else
        var f := disk[ino].value;
        (disk[ino := Kept(f.(links := f.links - 1))], ino)
  }

  // The references the driver counts for an inode; 0 when it is not there.
  function References(disk: seq<Option<File>>, ino: nat): int
    requires ino < |disk|
  {
    if disk[ino].None? then 0 else disk[ino].value.refcnt
  }

  /** No command changes how often an inode counts as open: an inode goes away
      only when that is 0. */
  lemma {:induction false} CommandReferences(disk: seq<Option<File>>, c: Cmd, ino: nat)
    requires InRange(disk, c) && ino < |disk|
    ensures References(Command(disk, c).0, ino) == References(disk, ino)
  {
  }

  // By how much a command changes the links of an inode.
  function LinkDelta(c: Cmd, ino: nat): int {
    match c
    case Mknod => 0
    case Link(i) => if i == ino then 1 else 0
    case Unlink(i) => if i == ino then -1 else 0
  }
}
