/** A whole reply over TCP: laid out, begun, and sent as far as the calls of transmit go. */
module ReplyService {
  import opened Basics
  import opened ReplySpec
  import opened ReplyBuffers

  lemma ReplyNext(udp: bool, max: nat, b: seq<IoVec>, v: IoVec)
    requires max >= 2 && AllReadable(b) && v.Readable()
    ensures AllReadable(b + [v]) && Packed(udp, max, Reply(udp, max, b))
    ensures Reply(udp, max, b + [v]) == Added(udp, max, Reply(udp, max, b), v)
  {
    assert (b + [v])[..|b|] == b && (b + [v])[|b|] == v;
  }

  lemma AllOut(max: nat, bufs: seq<IoVec>, ns: seq<nat>)
    requires max >= 2 && AllReadable(bufs) && bufs != [] && forall v :: v in bufs ==> v.len > 0
    requires Sendable(Reply(false, max, bufs)) && Possible(Reply(false, max, bufs), ns)
    ensures Advance(Unsent(Reply(false, max, bufs), ns)) == [] <==> Emitted(Reply(false, max, bufs), ns) == Gather(bufs)
  {
    ReplyReady(max, bufs);
    RunStaysReady(Reply(false, max, bufs), ns);
    ReplyNeverStalls(max, bufs, ns);
  }

  /** The connection's messages are those of a reply of the buffers b. */
  ghost predicate LaidOut(c: Conn, b: seq<IoVec>)
    reads c, c.iov, c.msglist
  {
    c.Valid() && AllReadable(b) && c.msgs == Reply(c.udp, c.iovMax, b)
  }

  method AddNext(c: Conn, v: IoVec, ghost b: seq<IoVec>)
    requires LaidOut(c, b) && v.Readable()
    modifies c, c.iov, c.msglist
    ensures LaidOut(c, b + [v]) && (c.iov == old(c.iov) || fresh(c.iov)) && (c.msglist == old(c.msglist) || fresh(c.msglist))
  {
    ReplyNext(c.udp, c.iovMax, b, v);
    c.AddIov(v, true);
  }

  method Open(c: Conn)
    requires c.Valid()
    modifies c, c.iov, c.msglist
    ensures LaidOut(c, []) && (c.iov == old(c.iov) || fresh(c.iov)) && (c.msglist == old(c.msglist) || fresh(c.msglist))
  {
    c.NewReply();
  }

  /** A reply is begun and all its buffers are added. */
  method LayOut(c: Conn, bufs: seq<IoVec>)
    requires c.Valid() && AllReadable(bufs)
    modifies c, c.iov, c.msglist
    ensures LaidOut(c, bufs) && (c.iov == old(c.iov) || fresh(c.iov)) && (c.msglist == old(c.msglist) || fresh(c.msglist))
  {
    Open(c);
    ghost var done: seq<IoVec> := [];
    var i := 0;
    while i < |bufs|
      invariant 0 <= i <= |bufs| && done == bufs[..i] && LaidOut(c, done)
      invariant (c.iov == old(c.iov) || fresh(c.iov)) && (c.msglist == old(c.msglist) || fresh(c.msglist))
    {
      NextOf(bufs, i);
      AddNext(c, bufs[i], done);
      done := done + [bufs[i]];
      i := i + 1;
    }
    assert done == bufs;
  }

  lemma NextOf(bufs: seq<IoVec>, i: nat)
    requires AllReadable(bufs) && i < |bufs|
    ensures bufs[i].Readable() && bufs[..i + 1] == bufs[..i] + [bufs[i]]
  {
    assert bufs[i] in bufs;
  }

  /** Calls of transmit one after the other, each of which writes something. */
  method SendRun(c: Conn, ns: seq<nat>)
    requires c.Sending() && Possible(c.queue, ns) && forall n :: n in ns ==> n > 0
    modifies c`msgcurr, c`queue, c.iov, c.msglist
    ensures c.Sending() && c.queue == Unsent(old(c.queue), ns)
  {
    var i := 0;
    assert ns[0..] == ns;
    while i < |ns|
      invariant 0 <= i <= |ns| && c.Sending() && Possible(c.queue, ns[i..])
      invariant Unsent(c.queue, ns[i..]) == Unsent(old(c.queue), ns)
    {
      assert ns[i..][0] == ns[i] && ns[i..][1..] == ns[i + 1..] && ns[i] in ns;
      var r := c.Transmit(ns[i], false, false);
      i := i + 1;
    }
  }

  lemma LaidOutReady(c: Conn, bufs: seq<IoVec>)
    requires LaidOut(c, bufs) && !c.udp && bufs != [] && forall v :: v in bufs ==> v.len > 0
    ensures c.Valid() && c.msgs == Reply(false, c.iovMax, bufs) && Sendable(c.msgs)
  {
    ReplyReady(c.iovMax, bufs);
  }

  /** The sending of a reply of non-empty buffers begins at its first message. */
  method Start(c: Conn, bufs: seq<IoVec>)
    requires c.Valid() && !c.udp && AllReadable(bufs) && bufs != [] && forall v :: v in bufs ==> v.len > 0
    modifies c, c.iov, c.msglist
    ensures c.Sending() && c.queue == Reply(false, c.iovMax, bufs)
    ensures (c.iov == old(c.iov) || fresh(c.iov)) && (c.msglist == old(c.msglist) || fresh(c.msglist))
  {
    LayOut(c, bufs);
    LaidOutReady(c, bufs);
    c.Begin();
  }

  /** After these calls the next one reports completion exactly when all of the buffers have gone out. */
  method Answer(c: Conn, bufs: seq<IoVec>, ns: seq<nat>) returns (r: Transmitted)
    requires c.Valid() && !c.udp && AllReadable(bufs) && bufs != [] && forall v :: v in bufs ==> v.len > 0
    requires Sendable(Reply(false, c.iovMax, bufs)) && Possible(Reply(false, c.iovMax, bufs), ns)
    requires forall n :: n in ns ==> n > 0
    modifies c, c.iov, c.msglist
    ensures c.Sending() && (r == Complete <==> Emitted(Reply(false, c.iovMax, bufs), ns) == Gather(bufs))
  {
    Start(c, bufs);
    SendRun(c, ns);
    AllOut(c.iovMax, bufs, ns);
    r := c.Transmit(-1, true, true);
  }
}
