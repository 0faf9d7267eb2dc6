// The memory disk driver: a table of inodes updated in place.
module RamDisk {
  import opened Common
  import opened RamDiskSpec

  class Driver {
    const nodes: array<Option<File>>

    ghost predicate Ready()
      reads this, nodes
    {
      nodes.Length == MF_MAX_NODES && forall i | 0 <= i < MF_MAX_NODES :: nodes[i].Some? ==> IsFile(nodes[i].value)
    }

    // The disk starts with its root directory, which links to itself.
    constructor (root: File)
      requires IsFile(root)
      ensures Ready() && fresh(nodes)
      ensures nodes[..] == seq(MF_MAX_NODES, i => if i == 0 then Some(root) else None)
    {
      nodes := new Option<File>[MF_MAX_NODES](i => if i == 0 then Some(root) else None);
    }

    // mf_create_node
    method FindEmptyNode() returns (i: int)
      requires nodes.Length == MF_MAX_NODES
      ensures i == FreeNode(nodes[..])
    {
      i := 0;
      while i != MF_MAX_NODES
        invariant 0 <= i <= MF_MAX_NODES
        invariant forall j | 0 <= j < i :: nodes[..][j].Some?
        decreases MF_MAX_NODES - i
      {
        if nodes[i].None? {
          assert nodes[..][i].None?;
          return;
        }
        i := i + 1;
      }
      i := -1;
    }

    // VFS_MKNOD: -1 when the table is full
    method Mknod() returns (ino: int)
      requires Ready()
      modifies nodes
      ensures Ready() && nodes[..] == Command(old(nodes[..]), Cmd.Mknod).0
      ensures ino == Command(old(nodes[..]), Cmd.Mknod).1
    {
      ino := FindEmptyNode();
      if ino < 0 {
        return;
      }
      nodes[ino] := Some(NewFile());
    }

    // VFS_LINK
    method LinkNode(ino: nat) returns (r: int)
      requires Ready() && ino < MF_MAX_NODES
      modifies nodes
      ensures Ready() && nodes[..] == Command(old(nodes[..]), Link(ino)).0
      ensures r == Command(old(nodes[..]), Link(ino)).1
    {
      if nodes[ino].None? {
        return -1;
      }
      var f := nodes[ino].value;
      nodes[ino] := Some(f.(links := f.links + 1));
      r := ino;
    }

    // VFS_UNLINK
    method UnlinkNode(ino: nat) returns (r: int)
      requires Ready() && ino < MF_MAX_NODES
      modifies nodes
      ensures Ready() && nodes[..] == Command(old(nodes[..]), Unlink(ino)).0
      ensures r == Command(old(nodes[..]), Unlink(ino)).1
    {
      if nodes[ino].None? {
        return -1;
      }
      var f := nodes[ino].value;
      nodes[ino] := Some(f.(links := f.links - 1));
      r := ino;
      if nodes[ino].value.refcnt != 0 || nodes[ino].value.links != 0 {
        return;
      }
      nodes[ino] := None;
    }

    // VFS_INODE_GRAB
    method GrabNode(ino: nat) returns (r: int)
      requires Ready() && ino < MF_MAX_NODES
      modifies nodes
      ensures old(nodes[ino]).None? ==> nodes[..] == old(nodes[..]) && r == -1
      ensures old(nodes[ino]).Some? ==>
                var f := old(nodes[ino]).value;
                nodes[..] == old(nodes[..])[ino := Some(f.(refcnt := f.refcnt + 1))] && r == ino
    {
      if nodes[ino].None? {
        return -1;
      }
      var f := nodes[ino].value;
      nodes[ino] := Some(f.(refcnt := f.refcnt + 1));
      r := ino;
    }

    // VFS_INODE_RELEASE
    method ReleaseNode(ino: nat) returns (r: int)
      requires Ready() && ino < MF_MAX_NODES
      modifies nodes
      ensures old(nodes[ino]).None? ==> nodes[..] == old(nodes[..]) && r == -1
      ensures old(nodes[ino]).Some? ==>
                var f := old(nodes[ino]).value;
                nodes[..] == old(nodes[..])[ino := Kept(f.(refcnt := f.refcnt - 1))] && r == ino
    {
      if nodes[ino].None? {
        return -1;
      }
      var f := nodes[ino].value;
      nodes[ino] := Some(f.(refcnt := f.refcnt - 1));
      r := ino;
      if nodes[ino].value.refcnt != 0 || nodes[ino].value.links != 0 {
        return;
      }
      nodes[ino] := None;
    }

    // VFS_WRITEC: (value returned to the client, bytes moved)
    method Write(ino: nat, pos: nat, data: int) returns (v: int, bnum: int)
      requires Ready() && ino < MF_MAX_NODES && nodes[ino].Some?
      modifies nodes
      ensures var (f, w, n) := WriteAt(old(nodes[ino]).value, pos, data);
              nodes[..] == old(nodes[..])[ino := Some(f)] && v == w && bnum == n
    {
      if pos >= FILE_LIMIT {
        return EOF, 0;
      }
      var f := nodes[ino].value;
      nodes[ino] := Some(f.(size := pos));
      nodes[ino] := Some(nodes[ino].value.(bytes := f.bytes[pos := ToChar(data)]));
      bnum := 1;
      nodes[ino] := Some(nodes[ino].value.(size := nodes[ino].value.size + bnum));
      v := data;
    }

    // VFS_READC
    method Read(ino: nat, pos: nat) returns (v: int, bnum: int)
      requires Ready() && ino < MF_MAX_NODES && nodes[ino].Some?
      ensures (v, bnum) == ReadAt(nodes[ino].value, pos)
    {
      if pos >= FILE_LIMIT || pos >= nodes[ino].value.size {
        return EOF, 0;
      }
      v, bnum := nodes[ino].value.bytes[pos], 1;
    }
  }
}
