// The pipe device (drivers/pipe.c) as a transition system over one inode.
//
// A pipe stores no bytes: a read or write request that finds no partner is
// parked in the inode's queue, and a request of the opposite kind releases the
// oldest parked one.
module PipeSpec {
  import opened Common

  const PD_MAX_NODES: nat := 8

  datatype Kind = ReadC | WriteC

  datatype Request = Request(kind: Kind, client: Pid, data: int)

  datatype Node = Node(refcnt: int, links: int, msgs: seq<Request>)

  // A FINAL message to a client blocked in readc() or writec().
  datatype Reply = Reply(client: Pid, data: int)

  datatype Outcome = Held | Refused | Matched(peer: Request)

  datatype Cmd = Grab | Release | Link | Unlink | Transfer(req: Request)

  datatype Effect = Effect(node: Option<Node>, replies: seq<Reply>)

  // The slot a new inode takes: the lowest free one.
  function FreeInode(nodes: seq<Option<Node>>): (i: int)
    ensures -1 <= i < |nodes|
    ensures 0 <= i ==> nodes[i].None? && forall j | 0 <= j < i :: nodes[j].Some?
    ensures i < 0 ==> forall j | 0 <= j < |nodes| :: nodes[j].Some?
  {
    FirstWhere(nodes, (n: Option<Node>) => n.None?)
  }

  // ----- one command -----

  function Offer(n: Node, r: Request): (Node, Outcome) {
    if n.msgs == [] then
      if n.refcnt <= 1 && n.links == 0 then (n, Refused) else (n.(msgs := [r]), Held)
    else if n.msgs[0].kind == r.kind then
      (n.(msgs := n.msgs + [r]), Held)
    else
      (n.(msgs := n.msgs[1..]), Matched(n.msgs[0]))
  }

  // The answer a request gets when it meets a request of the other kind: a
  // read returns the writer's data, a write returns its own.
  function Met(mine: Request, other: Request): Reply {
    Reply(mine.client, if mine.kind == ReadC then other.data else mine.data)
  }

  function OfferReplies(r: Request, o: Outcome): seq<Reply> {
    match o
    case Held => []
    case Refused => [Reply(r.client, EOF)]
    case Matched(p) => [Met(p, r), Met(r, p)]
  }

  function EofReplies(msgs: seq<Request>): (rs: seq<Reply>)
    ensures |rs| == |msgs|
    ensures forall i | 0 <= i < |msgs| :: rs[i] == Reply(msgs[i].client, EOF)
  {
    if msgs == [] then [] else [Reply(msgs[0].client, EOF)] + EofReplies(msgs[1..])
  }

  // Dropping a reference tells every parked client EOF when one reference is
  // left, and destroys the inode when neither references nor links are left.
  function ReleaseNode(n: Node): Effect {
    var m := n.(refcnt := n.refcnt - 1);
    if m.refcnt == 1 then Effect(Some(m.(msgs := [])), EofReplies(n.msgs))
    else if m.refcnt != 0 || m.links != 0 then Effect(Some(m), [])
    else Effect(None, [])
  }

  function UnlinkNode(n: Node): Effect {
    var m := n.(links := n.links - 1);
    if m.refcnt != 0 || m.links != 0 then Effect(Some(m), []) else Effect(None, [])
  }

  function Apply(n: Node, c: Cmd): Effect {
    match c
    case Grab => Effect(Some(n.(refcnt := n.refcnt + 1)), [])
    case Release => ReleaseNode(n)
    case Link => Effect(Some(n.(links := n.links + 1)), [])
    case Unlink => UnlinkNode(n)
    case Transfer(r) => var (m, o) := Offer(n, r); Effect(Some(m), OfferReplies(r, o))
  }

  // ----- runs -----

  // The commands one inode executes, from its creation until it is destroyed.
  function Run(n: Node, cs: seq<Cmd>): (e: Effect)
    decreases |cs|
  {
    if cs == [] then Effect(Some(n), [])
    else
      var e := Apply(n, cs[0]);
      if e.node.None? then e
      else
        var rest := Run(e.node.value, cs[1..]);
        Effect(rest.node, e.replies + rest.replies)
  }

  // How many requests of client `p` reached the inode before it was destroyed.
  function Issued(n: Node, cs: seq<Cmd>, p: Pid): nat
    decreases |cs|
  {
    if cs == [] then 0
    else
      var e := Apply(n, cs[0]);
      Asks(cs[0], p) + if e.node.None? then 0 else Issued(e.node.value, cs[1..], p)
  }

  function Asks(c: Cmd, p: Pid): nat {
    if c.Transfer? && c.req.client == p then 1 else 0
  }

  // How many answers went to client `p`.
  function Answered(rs: seq<Reply>, p: Pid): nat {
    if rs == [] then 0 else (if rs[0].client == p then 1 else 0) + Answered(rs[1..], p)
  }

  // How many requests of client `p` are in a queue.
  function Parked(msgs: seq<Request>, p: Pid): nat {
    if msgs == [] then 0 else (if msgs[0].client == p then 1 else 0) + Parked(msgs[1..], p)
  }

  function ParkedAt(n: Option<Node>, p: Pid): nat {
    if n.None? then 0 else Parked(n.value.msgs, p)
  }

  // Nobody is parked on a pipe whose other end is gone.
  ghost predicate Quiet(n: Node) {
    n.links == 0 && n.refcnt <= 1 ==> n.msgs == []
  }

  // The queue only ever holds one kind of request.
  ghost predicate OneKind(msgs: seq<Request>) {
    forall i | 0 <= i < |msgs| :: msgs[i].kind == msgs[0].kind
  }

  // The commands that leave clients parked on a detached pipe: the link count
  // of a pipe with at most one reference becomes 0 without a flush.
  predicate Strands(n: Node, c: Cmd) {
    && n.msgs != []
    && n.refcnt <= 1
    && ((c.Unlink? && n.links == 1) || (c.Link? && n.links == -1))
  }

  predicate NeverStrands(n: Node, cs: seq<Cmd>)
    decreases |cs|
  {
    cs == [] ||
    (!Strands(n, cs[0]) &&
     var e := Apply(n, cs[0]);
     e.node.Some? ==> NeverStrands(e.node.value, cs[1..]))
  }

  /** Exactly the stranding commands break the no-stranded-client property, or
      destroy an inode that still has parked clients. */
  lemma QuietExactly(n: Node, c: Cmd)
    requires Quiet(n)
    ensures Apply(n, c).node.Some? ==> (Quiet(Apply(n, c).node.value) <==> !Strands(n, c))
    ensures Apply(n, c).node.None? ==> (n.msgs == [] <==> !Strands(n, c))
  {
  }

  // A reachable inode for which the property fails: a linked pipe with one
  // reference parks a read, and removing the link leaves it parked.  What can
  // still release it is said by ParkedUntil.
  lemma UnlinkCanStrand()
    ensures var cs := [Link, Grab, Transfer(Request(ReadC, 7, 0)), Unlink];
            var e := Run(Node(0, 0, []), cs);
            e.node == Some(Node(1, 0, [Request(ReadC, 7, 0)])) && e.replies == []
  {
    var n0 := Node(0, 0, []);
    var r := Request(ReadC, 7, 0);
    var cs := [Link, Grab, Transfer(r), Unlink];
    assert cs[1..] == [Grab, Transfer(r), Unlink];
    assert cs[1..][1..] == [Transfer(r), Unlink];
    assert cs[1..][1..][1..] == [Unlink];
    assert cs[1..][1..][1..][1..] == [];
    var n3 := Node(1, 1, [r]);
    var n4 := Node(1, 0, [r]);
    assert Run(n4, []) == Effect(Some(n4), []);
    assert Run(n3, [Unlink]) == Effect(Some(n4), []);
    assert Run(Node(1, 1, []), [Transfer(r), Unlink]) == Effect(Some(n4), []);
    assert Run(Node(0, 1, []), [Grab, Transfer(r), Unlink]) == Effect(Some(n4), []);
  }

  // The commands that answer the head of a queue: a request of the other kind,
  // and the release that leaves one reference.
  predicate Answers(n: Node, c: Cmd) {
    && n.msgs != []
    && ((c.Transfer? && c.req.kind != n.msgs[0].kind) || (c.Release? && n.refcnt == 2))
  }

  predicate NeverAnswers(n: Node, cs: seq<Cmd>)
    decreases |cs|
  {
    cs == [] ||
    (!Answers(n, cs[0]) &&
     var e := Apply(n, cs[0]);
     e.node.Some? ==> NeverAnswers(e.node.value, cs[1..]))
  }

  lemma {:induction false} ReplyExactly(n: Node, c: Cmd)
    requires n.msgs != []
    ensures var e := Apply(n, c);
            && (e.replies == [] <==> !Answers(n, c))
            && (e.replies != [] ==> e.replies[0].client == n.msgs[0].client)
            && (e.replies == [] && e.node.Some? ==> n.msgs <= e.node.value.msgs)
  {
  }

  /** A parked queue stays as it is, whatever else is appended to it, and nobody
      is told anything, exactly as long as no request of the other kind comes
      and no release leaves one reference; the first to be told then is the head
      of the queue. */
  lemma {:induction false} ParkedUntil(n: Node, cs: seq<Cmd>)
    requires n.msgs != []
    ensures var e := Run(n, cs);
            && (e.replies == [] <==> NeverAnswers(n, cs))
            && (e.replies != [] ==> e.replies[0].client == n.msgs[0].client)
            && (e.replies == [] && e.node.Some? ==> n.msgs <= e.node.value.msgs)
    decreases |cs|
  {
    if cs != [] {
      ReplyExactly(n, cs[0]);
      var e := Apply(n, cs[0]);
      if e.replies == [] && e.node.Some? {
        ParkedUntil(e.node.value, cs[1..]);
        assert e.replies + Run(e.node.value, cs[1..]).replies == Run(e.node.value, cs[1..]).replies;
      }
    }
  }

  lemma AnsweredAppend(a: seq<Reply>, b: seq<Reply>, p: Pid)
    ensures Answered(a + b, p) == Answered(a, p) + Answered(b, p)
  {
    if a == [] {
      assert a + b == b;
    } else {
      assert (a + b)[1..] == a[1..] + b;
      AnsweredAppend(a[1..], b, p);
    }
  }

  lemma ParkedAppend(a: seq<Request>, b: seq<Request>, p: Pid)
    ensures Parked(a + b, p) == Parked(a, p) + Parked(b, p)
  {
    if a == [] {
      assert a + b == b;
    } else {
      assert (a + b)[1..] == a[1..] + b;
      ParkedAppend(a[1..], b, p);
    }
  }

  lemma {:induction false} EofAnswers(msgs: seq<Request>, p: Pid)
    ensures Answered(EofReplies(msgs), p) == Parked(msgs, p)
  {
    if msgs != [] {
      assert EofReplies(msgs)[1..] == EofReplies(msgs[1..]);
      EofAnswers(msgs[1..], p);
    }
  }

  lemma {:induction false} OfferConserves(n: Node, r: Request, p: Pid)
    ensures var (m, o) := Offer(n, r);
            (if r.client == p then 1 else 0) + Parked(n.msgs, p) == Answered(OfferReplies(r, o), p) + Parked(m.msgs, p)
  {
    var (m, o) := Offer(n, r);
    match o {
      case Held =>
        ParkedAppend(n.msgs, [r], p);
        assert m.msgs == n.msgs + [r];
      case Refused =>
      case Matched(q) =>
        assert OfferReplies(r, o) == [Met(q, r)] + [Met(r, q)];
        AnsweredAppend([Met(q, r)], [Met(r, q)], p);
        assert Answered([Met(q, r)], p) == if q.client == p then 1 else 0;
        assert Answered([Met(r, q)], p) == if r.client == p then 1 else 0;
    }
  }

  // Conservation in one command: whoever asks or was parked is afterwards
  // answered or parked.
  lemma {:induction false} ApplyConserves(n: Node, c: Cmd, p: Pid)
    requires Quiet(n) && !Strands(n, c)
    ensures Asks(c, p) + Parked(n.msgs, p) == Answered(Apply(n, c).replies, p) + ParkedAt(Apply(n, c).node, p)
  {
    EofAnswers(n.msgs, p);
    if c.Transfer? {
      OfferConserves(n, c.req, p);
    }
  }

  /** Every read or write request an inode ever receives is answered exactly
      once or is still parked, in every run without a stranding command. */
  lemma {:induction false} AnsweredExactlyOnce(n: Node, cs: seq<Cmd>, p: Pid)
    requires Quiet(n) && NeverStrands(n, cs)
    ensures Issued(n, cs, p) + Parked(n.msgs, p) == Answered(Run(n, cs).replies, p) + ParkedAt(Run(n, cs).node, p)
    ensures Run(n, cs).node.Some? ==> Quiet(Run(n, cs).node.value)
    decreases |cs|
  {
    if cs != [] {
      var e := Apply(n, cs[0]);
      ApplyConserves(n, cs[0], p);
      QuietExactly(n, cs[0]);
      if e.node.Some? {
        AnsweredExactlyOnce(e.node.value, cs[1..], p);
        AnsweredAppend(e.replies, Run(e.node.value, cs[1..]).replies, p);
      }
    }
  }

  // ----- stream order -----

  // What has happened on an inode: the requests it has accepted since its queue
  // was last flushed, the readers and writers it has paired since then with
  // what each of them was told, and what it has told anybody else at all.
  datatype Pair = Pair(reader: Pid, writer: Pid, toReader: int, toWriter: int)
  datatype History = History(accepted: seq<Request>, pairs: seq<Pair>, failed: seq<Reply>)

  function Remember(n: Node, h: History, c: Cmd): History {
    match c
    case Release =>
      var failed := h.failed + Apply(n, c).replies;
      if n.refcnt - 1 == 1 then History([], [], failed) else h.(failed := failed)
    case Transfer(r) =>
      (match Offer(n, r).1
       case Refused => h.(failed := h.failed + Apply(n, c).replies)
       case Held => h.(accepted := h.accepted + [r])
       case Matched(p) =>
         var rs := Apply(n, c).replies;
         var got := if r.kind == ReadC then rs[1] else rs[0];
         var put := if r.kind == ReadC then rs[0] else rs[1];
         h.(accepted := h.accepted + [r], pairs := h.pairs + [Pair(got.client, put.client, got.data, put.data)]))
    case _ => h
  }

  function Replay(n: Node, h: History, cs: seq<Cmd>): (Option<Node>, History)
    decreases |cs|
  {
    if cs == [] then (Some(n), h)
    else
      var e := Apply(n, cs[0]);
      if e.node.None? then (None, h)
      else Replay(e.node.value, Remember(n, h, cs[0]), cs[1..])
  }

  function OfKind(rs: seq<Request>, k: Kind): seq<Request> {
    if rs == [] then []
    else
      var rest := OfKind(rs[..|rs| - 1], k);
      if rs[|rs| - 1].kind == k then rest + [rs[|rs| - 1]] else rest
  }

  lemma {:induction false} OfKindAre(rs: seq<Request>, k: Kind)
    ensures forall i | 0 <= i < |OfKind(rs, k)| :: OfKind(rs, k)[i].kind == k
  {
    if rs != [] {
      OfKindAre(rs[..|rs| - 1], k);
    }
  }

  lemma OfKindAppend(rs: seq<Request>, r: Request, k: Kind)
    ensures OfKind(rs + [r], k) == if r.kind == k then OfKind(rs, k) + [r] else OfKind(rs, k)
  {
    assert (rs + [r])[..|rs|] == rs;
  }

  // The k-th accepted read and the k-th accepted write were paired and both told
  // the data of the write, and the queue is what the longer side has in excess.
  ghost predicate Aligned(msgs: seq<Request>, pairs: seq<Pair>, rd: seq<Request>, wr: seq<Request>) {
    var m := |pairs|;
    && m == (if |rd| <= |wr| then |rd| else |wr|)
    && (forall k {:trigger pairs[k]} | 0 <= k < m ::
          pairs[k] == Pair(rd[k].client, wr[k].client, wr[k].data, wr[k].data))
    && msgs == (if |rd| <= |wr| then wr[m..] else rd[m..])
  }

  ghost predicate InOrder(msgs: seq<Request>, h: History) {
    && Aligned(msgs, h.pairs, OfKind(h.accepted, ReadC), OfKind(h.accepted, WriteC))
    && forall i | 0 <= i < |h.failed| :: h.failed[i].data == EOF
  }

  // One more read, and one more write.
  lemma AlignRead(msgs: seq<Request>, pairs: seq<Pair>, rd: seq<Request>, wr: seq<Request>, r: Request)
    requires Aligned(msgs, pairs, rd, wr)
    ensures if |rd| < |wr| then
              && msgs != []
              && Aligned(msgs[1..], pairs + [Pair(r.client, msgs[0].client, msgs[0].data, msgs[0].data)], rd + [r], wr)
            else Aligned(msgs + [r], pairs, rd + [r], wr)
  {
  }

  lemma AlignWrite(msgs: seq<Request>, pairs: seq<Pair>, rd: seq<Request>, wr: seq<Request>, r: Request)
    requires Aligned(msgs, pairs, rd, wr)
    ensures if |wr| < |rd| then
              && msgs != []
              && Aligned(msgs[1..], pairs + [Pair(msgs[0].client, r.client, r.data, r.data)], rd, wr + [r])
            else Aligned(msgs + [r], pairs, rd, wr + [r])
  {
  }

  // The head of the queue tells which side is ahead.
  lemma AlignedHead(msgs: seq<Request>, h: History)
    requires InOrder(msgs, h)
    ensures var rd, wr := |OfKind(h.accepted, ReadC)|, |OfKind(h.accepted, WriteC)|;
            && (msgs == [] <==> rd == wr)
            && (msgs != [] ==> (msgs[0].kind == ReadC <==> wr < rd))
  {
    OfKindAre(h.accepted, ReadC);
    OfKindAre(h.accepted, WriteC);
  }

  // The history after r has been queued, and after it has met the head of the
  // queue.
  function Queued(h: History, r: Request): History {
    h.(accepted := h.accepted + [r])
  }

  function Paired(h: History, r: Request, head: Request): History {
    var p := if r.kind == ReadC then Pair(r.client, head.client, head.data, head.data)
             else Pair(head.client, r.client, r.data, r.data);
    h.(accepted := h.accepted + [r], pairs := h.pairs + [p])
  }

  lemma AcceptInOrder(msgs: seq<Request>, h: History, r: Request)
    requires InOrder(msgs, h)
    ensures if msgs == [] || msgs[0].kind == r.kind then InOrder(msgs + [r], Queued(h, r))
            else InOrder(msgs[1..], Paired(h, r, msgs[0]))
  {
    OfKindAppend(h.accepted, r, ReadC);
    OfKindAppend(h.accepted, r, WriteC);
    AlignedHead(msgs, h);
    var rd, wr := OfKind(h.accepted, ReadC), OfKind(h.accepted, WriteC);
    if r.kind == ReadC {
      AlignRead(msgs, h.pairs, rd, wr, r);
    } else {
      AlignWrite(msgs, h.pairs, rd, wr, r);
    }
  }

  lemma RememberIs(n: Node, h: History, r: Request)
    ensures Remember(n, h, Transfer(r))
         == if Offer(n, r).1.Refused? then h.(failed := h.failed + [Reply(r.client, EOF)])
            else if n.msgs == [] || n.msgs[0].kind == r.kind then Queued(h, r)
            else Paired(h, r, n.msgs[0])
  {
  }

  lemma InOrderStep(n: Node, h: History, c: Cmd)
    requires InOrder(n.msgs, h) && Apply(n, c).node.Some?
    ensures InOrder(Apply(n, c).node.value.msgs, Remember(n, h, c))
  {
    match c
    case Transfer(r) =>
      RememberIs(n, h, r);
      AcceptInOrder(n.msgs, h, r);
    case Release => assert Aligned([], [], [], []);
    case _ =>
  }

  /** In every run, since the last flush, pairing is first-in first-out on both
      sides, both partners are told the data that was written, and the queue
      holds requests of one kind only, as many as the difference between accepted
      writes and accepted reads.  Whoever is told anything else is told EOF. */
  lemma {:induction false} StreamOrder(n: Node, h: History, cs: seq<Cmd>)
    requires InOrder(n.msgs, h)
    ensures var (m, g) := Replay(n, h, cs);
            m.Some? ==>
              && InOrder(m.value.msgs, g)
              && OneKind(m.value.msgs)
              && (var d := |OfKind(g.accepted, WriteC)| - |OfKind(g.accepted, ReadC)|;
                  |m.value.msgs| == if d < 0 then -d else d)
    decreases |cs|
  {
    if cs != [] {
      var e := Apply(n, cs[0]);
      if e.node.Some? {
        InOrderStep(n, h, cs[0]);
        StreamOrder(e.node.value, Remember(n, h, cs[0]), cs[1..]);
      }
    } else {
      OfKindAre(h.accepted, ReadC);
      OfKindAre(h.accepted, WriteC);
    }
  }
}
