// The pipe driver itself: a table of inodes updated in place, and the point
// at which the driver is waiting inside a REPEAT handshake with the VFS.
module PipeDevice {
  import opened Common
  import opened PipeSpec

  // What a driver sends back to the VFS: park the client, release another
  // client first and ask again, or the end of the transaction.
  datatype DevReply = Hold | Repeat(client: Pid, data: int) | Final(value: int, bnum: int)

  // Between a REPEAT and the VFS's answer the driver is inside sendrec():
  // flushing a queue, or about to answer the request that met a parked one.
  datatype Phase = Idle | Flushing(ino: nat) | Matching(ino: nat, answer: int)

  class Driver {
    const nodes: array<Option<Node>>
    var phase: Phase

    ghost predicate Ready()
      reads this
    {
      nodes.Length == PD_MAX_NODES && phase == Idle
    }

    // Waiting for the VFS to have released the head of a queue.
    ghost predicate Midway()
      reads this, nodes
    {
      && nodes.Length == PD_MAX_NODES
      && phase != Idle
      && phase.ino < PD_MAX_NODES
      && nodes[phase.ino].Some?
      && nodes[phase.ino].value.msgs != []
    }

    constructor ()
      ensures Ready() && fresh(nodes)
      ensures nodes[..] == seq(PD_MAX_NODES, _ => None)
    {
      nodes := new Option<Node>[PD_MAX_NODES](_ => None);
      phase := Idle;
    }

    method FindEmptyNode() returns (i: int)
      requires nodes.Length == PD_MAX_NODES
      ensures i == FreeInode(nodes[..])
    {
      i := 0;
      while i != PD_MAX_NODES
        invariant 0 <= i <= PD_MAX_NODES
        invariant forall j | 0 <= j < i :: nodes[..][j].Some?
        decreases PD_MAX_NODES - i
      {
        if nodes[i].None? {
          assert nodes[..][i].None?;
          return;
        }
        i := i + 1;
      }
      i := -1;
    }

    // VFS_MKNOD; the table must not be full
    method Mknod() returns (ino: int)
      requires Ready() && 0 <= FreeInode(nodes[..])
      modifies nodes
      ensures ino == FreeInode(old(nodes[..]))
      ensures nodes[..] == old(nodes[..])[ino := Some(Node(0, 0, []))]
    {
      ino := FindEmptyNode();
      nodes[ino] := Some(Node(0, 0, []));
    }

    // VFS_INODE_GRAB, VFS_LINK and VFS_UNLINK answer -1 for a missing inode
    method GrabNode(ino: nat) returns (r: int)
      requires Ready() && ino < PD_MAX_NODES
      modifies nodes
      ensures Did(old(nodes[..]), ino, Grab, nodes[..], r)
    {
      if nodes[ino].None? {
        return -1;
      }
      var n := nodes[ino].value;
      nodes[ino] := Some(n.(refcnt := n.refcnt + 1));
      r := ino;
    }

    method LinkNode(ino: nat) returns (r: int)
      requires Ready() && ino < PD_MAX_NODES
      modifies nodes
      ensures Did(old(nodes[..]), ino, Link, nodes[..], r)
    {
      if nodes[ino].None? {
        return -1;
      }
      var n := nodes[ino].value;
      nodes[ino] := Some(n.(links := n.links + 1));
      r := ino;
    }

    method UnlinkNode(ino: nat) returns (r: int)
      requires Ready() && ino < PD_MAX_NODES
      modifies nodes
      ensures Did(old(nodes[..]), ino, Unlink, nodes[..], r)
    {
      if nodes[ino].None? {
        return -1;
      }
      var n := nodes[ino].value;
      nodes[ino] := Some(n.(links := n.links - 1));
      r := ino;
      if nodes[ino].value.refcnt != 0 || nodes[ino].value.links != 0 {
        return;
      }
      nodes[ino] := None;
    }

    // The table before and after a command on one inode, and the answer.
    static ghost predicate Did(before: seq<Option<Node>>, ino: nat, c: Cmd, after: seq<Option<Node>>, r: int)
      requires ino < |before|
    {
      if before[ino].None? then after == before && r == -1
      else after == before[ino := Apply(before[ino].value, c).node] && r == ino
    }

    // VFS_INODE_RELEASE, up to the first message to the VFS
    method ReleaseNode(ino: nat) returns (reply: DevReply)
      requires Ready() && ino < PD_MAX_NODES
      modifies `phase, nodes
      ensures old(nodes[ino]).None? ==> Ready() && nodes[..] == old(nodes[..]) && reply == Final(-1, 0)
      ensures old(nodes[ino]).Some? ==>
                var n := old(nodes[ino]).value;
                if n.refcnt - 1 == 1 && n.msgs != [] then
                  && Midway() && phase == Flushing(ino)
                  && nodes[..] == old(nodes[..])[ino := Some(n.(refcnt := 1))]
                  && reply == Repeat(n.msgs[0].client, EOF)
                else
                  Ready() && nodes[..] == old(nodes[..])[ino := Apply(n, Release).node] && reply == Final(ino, 0)
    {
      if nodes[ino].None? {
        return Final(-1, 0);
      }
      var n := nodes[ino].value;
      nodes[ino] := Some(n.(refcnt := n.refcnt - 1));
      if nodes[ino].value.refcnt == 1 {
        if nodes[ino].value.msgs != [] {
          phase := Flushing(ino);
          return Repeat(nodes[ino].value.msgs[0].client, EOF);
        }
        return Final(ino, 0);
      }
      if nodes[ino].value.refcnt != 0 {
        return Final(ino, 0);
      }
      if nodes[ino].value.links != 0 {
        return Final(ino, 0);
      }
      nodes[ino] := None;
      reply := Final(ino, 0);
    }

    // VFS_READC and VFS_WRITEC, up to the first message to the VFS
    method TransferNode(ino: nat, r: Request) returns (reply: DevReply)
      requires Ready() && ino < PD_MAX_NODES && nodes[ino].Some?
      modifies `phase, nodes
      ensures var n := old(nodes[ino]).value;
              match Offer(n, r).1
              case Held => Ready() && nodes[..] == old(nodes[..])[ino := Some(Offer(n, r).0)] && reply == Hold
              case Refused => Ready() && nodes[..] == old(nodes[..]) && reply == Final(EOF, 0)
              case Matched(p) =>
                && Midway() && phase == Matching(ino, Met(r, p).data)
                && nodes[..] == old(nodes[..])
                && reply == Repeat(Met(p, r).client, Met(p, r).data)
    {
      var n := nodes[ino].value;
      if n.msgs == [] {
        if n.refcnt <= 1 && n.links == 0 {
          return Final(EOF, 0);
        }
        nodes[ino] := Some(n.(msgs := [r]));
        return Hold;
      }
      var first := n.msgs[0];
      if first.kind == r.kind {
        nodes[ino] := Some(n.(msgs := n.msgs + [r]));
        return Hold;
      }
      var told, answer := first.data, r.data;
      match first.kind {
        case ReadC => told := r.data;
        case WriteC => answer := first.data;
      }
      phase := Matching(ino, answer);
      reply := Repeat(first.client, told);
    }

    // The VFS has released the client at the head of the queue and asks again.
    method Resume() returns (reply: DevReply)
      requires Midway()
      modifies `phase, nodes
      ensures var ino := old(phase).ino;
              var n := old(nodes[ino]).value;
              && nodes[..] == old(nodes[..])[ino := Some(n.(msgs := n.msgs[1..]))]
              && if old(phase).Flushing? && n.msgs[1..] != [] then
                   Midway() && phase == old(phase) && reply == Repeat(n.msgs[1].client, EOF)
                 else
                   Ready() && reply == Final(if old(phase).Flushing? then ino else old(phase).answer, 0)
    {
      var ino := phase.ino;
      var n := nodes[ino].value;
      nodes[ino] := Some(n.(msgs := n.msgs[1..]));
      match phase {
        case Matching(_, answer) =>
          phase := Idle;
          reply := Final(answer, 0);
        case Flushing(_) =>
          if nodes[ino].value.msgs != [] {
            reply := Repeat(nodes[ino].value.msgs[0].client, EOF);
          } else {
            phase := Idle;
            reply := Final(ino, 0);
          }
      }
    }
  }
}
