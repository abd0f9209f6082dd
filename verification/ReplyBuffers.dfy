/**
  The reply of a connection as it lies in memory: an array of pieces, an array of message
  headers that point into it, both grown by reallocation, and the sending that eats them.
  */
module ReplyBuffers {
  import opened Basics
  import opened ReplySpec

  /** A struct msghdr: where its pieces start, in which array, and how many there are. */
  datatype MsgHdr = MsgHdr(iov: array<IoVec>, off: nat, len: nat)

  /** All pieces, message after message. */
  function Flat(msgs: seq<Message>): Message {
    if msgs == [] then [] else Flat(msgs[..|msgs| - 1]) + msgs[|msgs| - 1]
  }

  /** How many pieces lie before message i. */
  function Before(msgs: seq<Message>, i: nat): nat
    requires i <= |msgs|
  {
    |Flat(msgs[..i])|
  }

  /** Every header points at its own run of pieces: msg_iov is the sum of the lengths before it. */
  ghost predicate Pointers(hdrs: seq<MsgHdr>, iov: array<IoVec>, msgs: seq<Message>) {
    |hdrs| == |msgs| && forall i :: 0 <= i < |msgs| ==> Points(hdrs[i], iov, msgs, i)
  }

  ghost predicate Points(h: MsgHdr, iov: array<IoVec>, msgs: seq<Message>, i: nat)
    requires i < |msgs|
  {
    h.iov == iov && h.off == Before(msgs, i) && h.len == |msgs[i]|
  }

  lemma BeforeNext(msgs: seq<Message>, i: nat)
    requires i < |msgs|
    ensures Before(msgs, i + 1) == Before(msgs, i) + |msgs[i]|
  {
    assert msgs[..i + 1][..i] == msgs[..i];
  }

  lemma FlatOpened(msgs: seq<Message>)
    ensures Flat(msgs + [[]]) == Flat(msgs)
    ensures forall i :: 0 <= i <= |msgs| ==> Before(msgs + [[]], i) == Before(msgs, i)
  {
    assert (msgs + [[]])[..|msgs|] == msgs;
    forall i | 0 <= i <= |msgs| ensures Before(msgs + [[]], i) == Before(msgs, i) {
      assert (msgs + [[]])[..i] == msgs[..i];
    }
  }

  lemma FlatPut(msgs: seq<Message>, v: IoVec)
    requires msgs != []
    ensures Flat(Put(msgs, v)) == Flat(msgs) + [v]
    ensures forall i :: 0 <= i < |msgs| ==> Before(Put(msgs, v), i) == Before(msgs, i)
    ensures Before(msgs, |msgs| - 1) + |LastOf(msgs)| == |Flat(msgs)|
  {
    var t := Put(msgs, v);
    assert t[..|t| - 1] == msgs[..|msgs| - 1];
    forall i | 0 <= i < |msgs| ensures Before(t, i) == Before(msgs, i) {
      assert t[..i] == msgs[..i];
    }
  }

  lemma OpenedPointers(hdrs: seq<MsgHdr>, iov: array<IoVec>, msgs: seq<Message>)
    requires Pointers(hdrs, iov, msgs)
    ensures Pointers(hdrs + [MsgHdr(iov, |Flat(msgs)|, 0)], iov, msgs + [[]])
    ensures Flat(msgs + [[]]) == Flat(msgs) && Size(LastOf(msgs + [[]])) == 0
  {
    FlatOpened(msgs);
    var t, u := hdrs + [MsgHdr(iov, |Flat(msgs)|, 0)], msgs + [[]];
    assert u[..|msgs|] == msgs;
    forall i | 0 <= i < |u| ensures Points(t[i], iov, u, i) {
      if i < |msgs| { assert Points(hdrs[i], iov, msgs, i); }
    }
  }

  lemma SlotSize()
    ensures Size([Slot]) == HEADER && Size([]) == 0
  {
    SizeMore([], Slot);
    assert [] + [Slot] == [Slot];
  }

  lemma SlotPut(msgs: seq<Message>)
    ensures Put(msgs + [[]], Slot) == msgs + [[Slot]]
  {
    var t := msgs + [[]];
    assert t[..|t| - 1] == msgs && LastOf(t) == [] && [] + [Slot] == [Slot];
  }

  /** What writing one piece behind the last message, and counting it, amounts to. */
  lemma PutFacts(hdrs: seq<MsgHdr>, iov: array<IoVec>, msgs: seq<Message>, v: IoVec)
    requires Pointers(hdrs, iov, msgs) && msgs != []
    ensures Put(msgs, v) != [] && |Put(msgs, v)| == |msgs|
    ensures Size(LastOf(Put(msgs, v))) == Size(LastOf(msgs)) + v.len
    ensures Flat(Put(msgs, v)) == Flat(msgs) + [v]
    ensures var m := hdrs[|hdrs| - 1];
            && m.iov == iov && m.off + m.len == |Flat(msgs)|
            && Pointers(hdrs[|hdrs| - 1 := m.(len := m.len + 1)], iov, Put(msgs, v))
  {
    FlatPut(msgs, v);
    SizeMore(LastOf(msgs), v);
  }

  lemma {:induction false} FlatSetFirst(msgs: seq<Message>, i: nat, v: IoVec)
    requires i < |msgs| && msgs[i] != []
    ensures Before(msgs, i) < |Flat(msgs)|
    ensures Flat(SetFirst(msgs, i, v)) == Flat(msgs)[Before(msgs, i) := v]
  {
    var front, t := msgs[..|msgs| - 1], SetFirst(msgs, i, v);
    if i < |front| {
      FlatSetFirst(front, i, v);
      assert front[..i] == msgs[..i];
      assert t[..|t| - 1] == SetFirst(front, i, v);
    } else {
      assert t[..|t| - 1] == front;
    }
  }

  lemma FirstPointers(hdrs: seq<MsgHdr>, iov: array<IoVec>, msgs: seq<Message>, i: nat, v: IoVec)
    requires Pointers(hdrs, iov, msgs) && i < |msgs| && msgs[i] != []
    ensures hdrs[i].iov == iov && hdrs[i].off == Before(msgs, i)
    ensures Pointers(hdrs, iov, SetFirst(msgs, i, v))
  {
    assert Points(hdrs[i], iov, msgs, i);
    var t := SetFirst(msgs, i, v);
    forall j | 0 <= j < |t| ensures Points(hdrs[j], iov, t, j) {
      assert Points(hdrs[j], iov, msgs, j);
      SameBefore(msgs, i, v, j);
    }
  }

  /** What writing a piece of the same length over the first one of message i amounts to. */
  lemma SetFacts(hdrs: seq<MsgHdr>, iov: array<IoVec>, msgs: seq<Message>, i: nat, v: IoVec)
    requires Pointers(hdrs, iov, msgs) && i < |msgs| && msgs[i] != [] && msgs[i][0].len == v.len
    ensures hdrs[i].iov == iov && hdrs[i].off < |Flat(msgs)|
    ensures Pointers(hdrs, iov, SetFirst(msgs, i, v))
    ensures Flat(SetFirst(msgs, i, v)) == Flat(msgs)[hdrs[i].off := v]
    ensures |SetFirst(msgs, i, v)| == |msgs| && Size(LastOf(SetFirst(msgs, i, v))) == Size(LastOf(msgs))
  {
    FirstPointers(hdrs, iov, msgs, i, v);
    FlatSetFirst(msgs, i, v);
    SizeSetFirst(msgs[i], v);
  }

  lemma {:induction false} SameBefore(msgs: seq<Message>, i: nat, v: IoVec, j: nat)
    requires i < |msgs| && msgs[i] != [] && j <= |msgs|
    ensures Before(SetFirst(msgs, i, v), j) == Before(msgs, j)
  {
    if j > 0 {
      SameBefore(msgs, i, v, j - 1);
      BeforeNext(msgs, j - 1);
      BeforeNext(SetFirst(msgs, i, v), j - 1);
    } else {
      assert SetFirst(msgs, i, v)[..0] == msgs[..0];
    }
  }

  /** Headers whose runs of pieces, apart from one another and in order, are the messages of q. */
  ghost predicate Runs(hdrs: seq<MsgHdr>, iov: array<IoVec>, pieces: seq<IoVec>, q: seq<Message>) {
    && |hdrs| == |q|
    && (forall i :: 0 <= i < |q| ==> IsRun(hdrs[i], iov, pieces, q[i]))
    && forall i, j :: 0 <= i < j < |q| ==> hdrs[i].off + hdrs[i].len <= hdrs[j].off
  }

  ghost predicate IsRun(h: MsgHdr, iov: array<IoVec>, pieces: seq<IoVec>, m: Message) {
    h.iov == iov && h.off + h.len <= |pieces| && pieces[h.off..h.off + h.len] == m
  }

  lemma {:induction false} BeforeOrder(msgs: seq<Message>, i: nat, j: nat)
    requires i < j <= |msgs|
    ensures Before(msgs, i) + |msgs[i]| <= Before(msgs, j)
  {
    BeforeNext(msgs, j - 1);
    if i < j - 1 { BeforeOrder(msgs, i, j - 1); }
  }

  lemma {:induction false} FlatSlice(msgs: seq<Message>, i: nat)
    requires i < |msgs|
    ensures Before(msgs, i) + |msgs[i]| <= |Flat(msgs)|
    ensures Flat(msgs)[Before(msgs, i)..Before(msgs, i) + |msgs[i]|] == msgs[i]
  {
    var front := msgs[..|msgs| - 1];
    if i < |front| {
      FlatSlice(front, i);
      assert front[..i] == msgs[..i];
    }
  }

  lemma SliceOfPrefix(p: Message, f: Message, a: nat, b: nat)
    requires a <= b <= |f| <= |p| && p[..|f|] == f
    ensures p[a..b] == f[a..b]
  {
    assert forall k :: 0 <= k < |f| ==> p[k] == p[..|f|][k];
  }

  lemma TailOfRun(h: MsgHdr, iov: array<IoVec>, pieces: seq<IoVec>, m: Message)
    requires IsRun(h, iov, pieces, m) && h.len > 0
    ensures m != [] && m[0] == pieces[h.off]
    ensures IsRun(h.(len := h.len - 1, off := h.off + 1), iov, pieces, m[1..])
  {
  }

  lemma HeadOfRun(h: MsgHdr, iov: array<IoVec>, pieces: seq<IoVec>, m: Message, v: IoVec)
    requires IsRun(h, iov, pieces, m) && h.len > 0
    ensures m != [] && IsRun(h, iov, pieces[h.off := v], [v] + m[1..])
  {
  }

  lemma SentNothing(m: Message)
    requires m == [] || m[0].len > 0
    ensures Sent(m, 0) == m
  {
  }

  /** What add_iov has laid out can be sent. */
  lemma LaidOut(hdrs: seq<MsgHdr>, iov: array<IoVec>, msgs: seq<Message>, pieces: seq<IoVec>)
    requires Pointers(hdrs, iov, msgs) && |pieces| >= |Flat(msgs)| && pieces[..|Flat(msgs)|] == Flat(msgs)
    ensures Runs(hdrs, iov, pieces, msgs)
  {
    forall i | 0 <= i < |msgs| ensures IsRun(hdrs[i], iov, pieces, msgs[i]) {
      assert Points(hdrs[i], iov, msgs, i);
      FlatSlice(msgs, i);
      var h := hdrs[i];
      SliceOfPrefix(pieces, Flat(msgs), h.off, h.off + h.len);
    }
    forall i, j | 0 <= i < j < |msgs| ensures hdrs[i].off + hdrs[i].len <= hdrs[j].off {
      assert Points(hdrs[i], iov, msgs, i) && Points(hdrs[j], iov, msgs, j);
      BeforeOrder(msgs, i, j);
    }
  }

  /** Eating the first run leaves the others alone. */
  lemma RunsAfter(hdrs: seq<MsgHdr>, iov: array<IoVec>, pieces: seq<IoVec>, q: seq<Message>,
                  h: MsgHdr, after: seq<IoVec>, m: Message)
    requires Runs(hdrs, iov, pieces, q) && q != [] && |after| == |pieces| && IsRun(h, iov, after, m)
    requires h.off >= hdrs[0].off && h.off + h.len == hdrs[0].off + hdrs[0].len
    requires forall k :: hdrs[0].off + hdrs[0].len <= k < |pieces| ==> after[k] == pieces[k]
    ensures Runs([h] + hdrs[1..], iov, after, [m] + q[1..])
  {
    var gs, t := [h] + hdrs[1..], [m] + q[1..];
    forall i | 0 <= i < |t| ensures IsRun(gs[i], iov, after, t[i]) {
      if i > 0 {
        assert IsRun(hdrs[i], iov, pieces, q[i]);
        var g := hdrs[i];
        assert hdrs[0].off + hdrs[0].len <= g.off;
        assert after[g.off..g.off + g.len] == pieces[g.off..g.off + g.len];
      }
    }
  }

  datatype Transmitted = Complete | Incomplete | SoftError | HardError

  class Conn {
    const udp: bool
    const iovMax: nat
    var iov: array<IoVec>
    var iovused: nat
    var msglist: array<MsgHdr>
    var msgused: nat
    var msgcurr: nat
    var msgbytes: nat
    var hdrbuf: array<bv8>
    ghost var msgs: seq<Message>
    ghost var queue: seq<Message>

    ghost predicate Valid()
      reads this, iov, msglist
    {
      && iovMax >= 2 && iov.Length >= 1 && msglist.Length >= 1
      && hdrbuf as object != iov && hdrbuf as object != msglist && iov as object != msglist
      && msgused == |msgs| <= msglist.Length && iovused <= iov.Length
      && Pointers(msglist[..msgused], iov, msgs)
      && iov[..iovused] == Flat(msgs)
      && (msgs != [] ==> msgbytes == Size(LastOf(msgs)))
    }

    /** The lists as conn_new makes them; iovs and hdrs are IOV_LIST_INITIAL and MSG_LIST_INITIAL. */
    constructor (udp: bool, iovMax: nat, iovs: nat, hdrs: nat)
      requires iovMax >= 2 && iovs >= 1 && hdrs >= 1
      ensures Valid() && msgs == [] && this.udp == udp && this.iovMax == iovMax
      ensures fresh(iov) && fresh(msglist) && fresh(hdrbuf)
    {
      this.udp, this.iovMax := udp, iovMax;
      var pieces := new IoVec[iovs](i => Slot);
      var none := MsgHdr(pieces, 0, 0);
      iov := pieces;
      msglist := new MsgHdr[hdrs](i => none);
      hdrbuf := new bv8[0];
      iovused, msgused, msgcurr, msgbytes := 0, 0, 0, 0;
      msgs, queue := [], [];
    }

    /** A new reply: the counts are reset and a first message is opened. */
    method NewReply()
      requires Valid()
      modifies this, iov, msglist
      ensures Valid() && Moved() && msgs == [Fresh(udp)]
    {
      msgcurr, msgused, iovused := 0, 0, 0;
      msgs := [];
      AddMsghdr();
    }

    /** The loop of ensure_iov_space: every header is pointed into the array iov now names. */
    method Repoint()
      requires msgused == |msgs| <= msglist.Length
      requires forall j :: 0 <= j < msgused ==> msglist[j].len == |msgs[j]|
      modifies msglist
      ensures Pointers(msglist[..msgused], iov, msgs)
    {
      var i, iovnum := 0, 0;
      assert msgs[..0] == [];
      while i < msgused
        invariant 0 <= i <= msgused && iovnum == Before(msgs, i)
        invariant forall j :: 0 <= j < i ==> Points(msglist[j], iov, msgs, j)
        invariant forall j :: i <= j < msgused ==> msglist[j].len == |msgs[j]|
      {
        BeforeNext(msgs, i);
        var h := msglist[i].(iov := iov, off := iovnum);
        assert Points(h, iov, msgs, i);
        msglist[i] := h;
        iovnum := iovnum + msglist[i].len;
        i := i + 1;
      }
    }

    /** ensure_iov_space: after a move every header points into the new array. */
    method EnsureIovSpace()
      requires Valid()
      modifies this`iov, msglist
      ensures Valid() && iovused < iov.Length && (iov == old(iov) || fresh(iov))
    {
      if iovused >= iov.Length {
        var was := iov;
        var grown := new IoVec[2 * was.Length](i requires 0 <= i reads was => if i < was.Length then was[i] else Slot);
        assert grown[..iovused] == was[..iovused];
        forall j | 0 <= j < msgused ensures msglist[j].len == |msgs[j]| {
          assert Points(msglist[..msgused][j], was, msgs, j);
        }
        iov := grown;
        Repoint();
      }
    }

    /** The piece add_iov writes behind the last message. */
    method AddPiece(v: IoVec)
      requires Valid() && msgs != [] && iovused < iov.Length
      modifies this`iovused, this`msgbytes, this`msgs, iov, msglist
      ensures Valid() && msgs == Put(old(msgs), v)
    {
      ghost var hdrs, pieces := msglist[..msgused], iov[..iovused];
      PutFacts(hdrs, iov, msgs, v);
      var last := msgused - 1;
      var m := msglist[last];
      m.iov[m.off + m.len] := v;
      assert iov[..iovused + 1] == pieces + [v];
      msglist[last] := m.(len := m.len + 1);
      assert msglist[..msgused] == hdrs[last := m.(len := m.len + 1)];
      msgbytes := msgbytes + v.len;
      iovused := iovused + 1;
      msgs := Put(msgs, v);
    }

    /** The growing of the header array in add_msghdr. */
    method EnsureMsgSpace()
      requires Valid()
      modifies this`msglist
      ensures Valid() && msgused < msglist.Length && (msglist == old(msglist) || fresh(msglist))
    {
      if msglist.Length == msgused {
        var was := msglist;
        var none := MsgHdr(iov, 0, 0);
        var grown := new MsgHdr[2 * was.Length](i requires 0 <= i reads was => if i < was.Length then was[i] else none);
        assert grown[..msgused] == was[..msgused];
        msglist := grown;
      }
    }

    /** add_msghdr up to the room for a UDP header. */
    method OpenMessage()
      requires Valid()
      modifies this`msglist, this`msgused, this`msgbytes, this`msgs, msglist
      ensures Valid() && msgs == old(msgs) + [[]] && (msglist == old(msglist) || fresh(msglist))
    {
      EnsureMsgSpace();
      ghost var hdrs := msglist[..msgused];
      OpenedPointers(hdrs, iov, msgs);
      msglist[msgused] := MsgHdr(iov, iovused, 0);
      assert msglist[..msgused + 1] == hdrs + [MsgHdr(iov, iovused, 0)];
      msgbytes := 0;
      msgused := msgused + 1;
      msgs := msgs + [[]];
    }

    /** Nothing of the frame but what may have been reallocated. */
    twostate predicate Moved()
      reads this
    {
      (iov == old(iov) || fresh(iov)) && (msglist == old(msglist) || fresh(msglist)) && hdrbuf == old(hdrbuf)
    }

    /** add_msghdr; its call of add_iov for the header slot neither opens a message nor splits. */
    method AddMsghdr()
      requires Valid()
      modifies this, iov, msglist
      ensures Valid() && Moved() && msgs == old(msgs) + [Fresh(udp)]
      decreases 3
    {
      OpenMessage();
      if udp {
        SlotPut(old(msgs));
        SlotSize();
        AddIov(Slot, false);
      }
    }

    /** If the fragment is too big to fit in the datagram, it is split. */
    method Cut(limited: bool, whole: nat) returns (len: nat, leftover: nat)
      requires limited ==> msgbytes <= PAYLOAD
      ensures len == Taken(limited, msgbytes, whole) && leftover == whole - len
    {
      len := whole;
      leftover := 0;
      if limited && len + msgbytes > PAYLOAD {
        leftover := len + msgbytes - PAYLOAD;
        len := len - leftover;
      }
    }

    /** The second half of a pass: room for a piece, as much of it as the datagram takes, the rest is left over. */
    method AddShare(v: IoVec, limited: bool) returns (rest: IoVec)
      requires Valid() && msgs != [] && (limited ==> Size(LastOf(msgs)) <= PAYLOAD)
      modifies this, iov, msglist
      ensures Valid() && Moved()
      ensures msgs == Put(old(msgs), v.(len := Taken(limited, Size(LastOf(old(msgs))), v.len)))
      ensures rest == Rest(v, Taken(limited, Size(LastOf(old(msgs))), v.len))
    {
      EnsureIovSpace();
      var len, leftover := Cut(limited, v.len);
      AddPiece(v.(len := len));
      rest := IoVec(v.buf, v.base + len, leftover);
    }

    /** One pass of the loop of add_iov; called for a header slot (not top) it only puts the slot. */
    method AddRound(v: IoVec, ghost top: bool) returns (rest: IoVec)
      requires Valid() && msgs != []
      requires top ==> Packed(udp, iovMax, msgs) && v.Readable()
      requires !top ==> |LastOf(msgs)| < iovMax && Size(LastOf(msgs)) + v.len < PAYLOAD
      modifies this, iov, msglist
      ensures Valid() && Moved()
      ensures top ==> msgs == Round(udp, iovMax, old(msgs), v) && Share(udp, iovMax, old(msgs), v.len) <= v.len
                      && rest == Rest(v, Share(udp, iovMax, old(msgs), v.len))
      ensures !top ==> msgs == Put(old(msgs), v) && rest.len == 0
      decreases if top then 4 else 1
    {
      if top { ShareFits(udp, iovMax, msgs, v.len); }
      assert Points(msglist[..msgused][msgused - 1], iov, msgs, msgused - 1);
      var limited := udp || 1 == msgused;
      if msglist[msgused - 1].len == iovMax || (limited && msgbytes >= PAYLOAD) {
        AddMsghdr();
      }
      assert top ==> msgs == Opened(udp, iovMax, old(msgs));
      assert !top ==> msgs == old(msgs);
      rest := AddShare(v, limited);
    }

    /** add_iov: called by its users (top) it packs the buffer as Added says. */
    method AddIov(v: IoVec, ghost top: bool)
      requires Valid() && msgs != []
      requires top ==> Packed(udp, iovMax, msgs) && v.Readable()
      requires !top ==> |LastOf(msgs)| < iovMax && Size(LastOf(msgs)) + v.len < PAYLOAD
      modifies this, iov, msglist
      ensures Valid() && Moved()
      ensures msgs == if top then Added(udp, iovMax, old(msgs), v) else Put(old(msgs), v)
      decreases if top then 5 else 2
    {
      if top { AddedStep(udp, iovMax, msgs, v); }
      var buf := AddRound(v, top);
      while buf.len > 0
        invariant Valid() && msgs != [] && Moved()
        invariant !top ==> buf.len == 0 && msgs == Put(old(msgs), v)
        invariant top && buf.len == 0 ==> msgs == Added(udp, iovMax, old(msgs), v)
        invariant top && buf.len > 0 ==> Packed(udp, iovMax, msgs) && buf.Readable()
                                         && Added(udp, iovMax, msgs, buf) == Added(udp, iovMax, old(msgs), v)
        decreases buf.len
      {
        AddedStep(udp, iovMax, msgs, buf);
        buf := AddRound(buf, top);
      }
    }

    // ---------- build_udp_headers ----------

    /** One header is written into the buffer and put in its slot. */
    method PutHeader(i: nat, id: nat)
      requires Valid() && i < msgused && msgs[i] != [] && msgs[i][0].len == HEADER
      requires hdrbuf.Length >= HEADER * msgused
      modifies this`msgs, hdrbuf, iov
      ensures Valid() && msgs == SetFirst(old(msgs), i, HeaderPiece(id, i, msgused))
    {
      var hdr := WriteHeader(i, id);
      ghost var hdrs := msglist[..msgused];
      ghost var pieces := iov[..iovused];
      ghost var v := HeaderPiece(id, i, msgused);
      SetFacts(hdrs, iov, msgs, i, v);
      var m := msglist[i];
      assert m == hdrs[i];
      m.iov[m.off] := IoVec(hdr, 0, HEADER);
      assert iov[..iovused] == pieces[m.off := v];
      msgs := SetFirst(msgs, i, v);
    }

    /** The eight bytes of header i. */
    method WriteHeader(i: nat, id: nat) returns (hdr: Bytes)
      requires i < msgused && hdrbuf.Length >= HEADER * msgused
      modifies hdrbuf
      ensures hdr == HeaderBytes(id, i, msgused) && hdrbuf[HEADER * i..HEADER * i + HEADER] == hdr
      ensures forall k :: 0 <= k < HEADER * i ==> hdrbuf[k] == old(hdrbuf[k])
    {
      var at := HEADER * i;
      PutTwo(at, Low(id / 256), Low(id));
      PutTwo(at + 2, Low(i / 256), Low(i));
      PutTwo(at + 4, Low(msgused / 256), Low(msgused));
      PutTwo(at + 6, 0, 0);
      hdr := hdrbuf[at..at + HEADER];
      HeaderIs(hdr, id, i, msgused);
    }

    method PutTwo(at: nat, x: bv8, y: bv8)
      requires at + 1 < hdrbuf.Length
      modifies hdrbuf
      ensures hdrbuf[at] == x && hdrbuf[at + 1] == y
      ensures forall k :: 0 <= k < hdrbuf.Length && k != at && k != at + 1 ==> hdrbuf[k] == old(hdrbuf[k])
    {
      hdrbuf[at] := x;
      hdrbuf[at + 1] := y;
    }

    /** build_udp_headers: the buffer is grown to hold a header a message. */
    method BuildUdpHeaders(id: nat)
      requires Valid() && Packed(true, iovMax, msgs)
      modifies this`msgs, this`hdrbuf, hdrbuf, iov
      ensures Valid() && HaveSlots(old(msgs)) && msgs == Headed(id, old(msgs))
      ensures hdrbuf.Length >= HEADER * msgused
    {
      ghost var was := msgs;
      PackedHaveSlots(iovMax, was);
      if HEADER * msgused > hdrbuf.Length {
        hdrbuf := new bv8[2 * HEADER * msgused];
      }
      assert msgs == HeadedTo(id, was, 0);
      var i := 0;
      while i < msgused
        invariant 0 <= i <= msgused == |was| && Valid() && hdrbuf.Length >= HEADER * msgused
        invariant hdrbuf == old(hdrbuf) || fresh(hdrbuf)
        invariant msgs == HeadedTo(id, was, i)
      {
        HeadedNext(id, was, i);
        PutHeader(i, id);
        i := i + 1;
      }
    }

    // ---------- transmit ----------

    /** The headers from msgcurr on hold the messages still to go. */
    ghost predicate Sending()
      reads this, iov, msglist
    {
      && msgcurr <= msgused <= msglist.Length
      && Runs(msglist[msgcurr..msgused], iov, iov[..], queue)
      && Sendable(queue)
    }

    /** The reply is laid out; the sending starts at its first message. */
    method Begin()
      requires Valid() && Sendable(msgs)
      modifies this`msgcurr, this`queue
      ensures Sending() && queue == msgs
    {
      msgcurr := 0;
      queue := msgs;
      assert iov[..][..|Flat(msgs)|] == iov[..iovused];
      LaidOut(msglist[..msgused], iov, msgs, iov[..]);
    }

    /** The loop over the pieces that were written whole, on the header h of the current message. */
    method ConsumeWhole(h0: MsgHdr, res: nat, ghost m: Message) returns (h: MsgHdr, left: nat, ghost rest: Message)
      requires IsRun(h0, iov, iov[..], m) && AllReadable(m) && res <= |Gather(m)|
      ensures IsRun(h, iov, iov[..], rest) && AllReadable(rest) && left <= |Gather(rest)|
      ensures Sent(rest, left) == Sent(m, res) && (rest == [] || left < rest[0].len)
      ensures h.off >= h0.off && h.off + h.len == h0.off + h0.len
    {
      h, left, rest := h0, res, m;
      while h.len > 0 && left >= iov[h.off].len
        invariant IsRun(h, iov, iov[..], rest) && AllReadable(rest)
        invariant h.off >= h0.off && h.off + h.len == h0.off + h0.len
        invariant left <= |Gather(rest)| && Sent(rest, left) == Sent(m, res)
        decreases h.len
      {
        TailOfRun(h, iov, iov[..], rest);
        DropFirst(rest, left);
        left := left - iov[h.off].len;
        h := h.(len := h.len - 1, off := h.off + 1);
        rest := rest[1..];
      }
      if h.len > 0 { TailOfRun(h, iov, iov[..], rest); }
    }

    /** Might have written just part of a piece: it is made to start later. */
    method ConsumePart(left: nat, ghost m: Message)
      requires msgcurr < msglist.Length && IsRun(msglist[msgcurr], iov, iov[..], m)
      requires m != [] && left < m[0].len
      modifies iov
      ensures iov[..] == old(iov[..])[msglist[msgcurr].off := Rest(m[0], left)]
      ensures IsRun(msglist[msgcurr], iov, iov[..], Sent(m, left))
    {
      var h := msglist[msgcurr];
      TailOfRun(h, iov, iov[..], m);
      HeadOfRun(h, iov, iov[..], m, Rest(iov[h.off], left));
      ghost var pieces := iov[..];
      iov[h.off] := Rest(iov[h.off], left);
      assert iov[..] == pieces[h.off := Rest(m[0], left)];
    }

    /** The pieces that were written whole go, the piece written in part starts later. */
    method Consume(res: nat, ghost m: Message)
      requires msgcurr < msglist.Length && IsRun(msglist[msgcurr], iov, iov[..], m)
      requires AllReadable(m) && res <= |Gather(m)|
      modifies iov, msglist
      ensures msglist[..] == old(msglist[..])[msgcurr := msglist[msgcurr]]
      ensures IsRun(msglist[msgcurr], iov, iov[..], Sent(m, res))
      ensures var h, g := old(msglist[msgcurr]), msglist[msgcurr];
              && g.off >= h.off && g.off + g.len == h.off + h.len
              && forall k :: h.off + h.len <= k < iov.Length ==> iov[k] == old(iov[k])
    {
      var h, left, rest := ConsumeWhole(msglist[msgcurr], res, m);
      msglist[msgcurr] := h;
      ConsumeRest(left, rest);
    }

    method ConsumeRest(left: nat, ghost rest: Message)
      requires msgcurr < msglist.Length && IsRun(msglist[msgcurr], iov, iov[..], rest)
      requires rest == [] || left < rest[0].len
      requires AllReadable(rest) && left <= |Gather(rest)|
      modifies iov
      ensures IsRun(msglist[msgcurr], iov, iov[..], Sent(rest, left))
      ensures forall k :: msglist[msgcurr].off + msglist[msgcurr].len <= k < iov.Length ==> iov[k] == old(iov[k])
    {
      if left > 0 {
        ghost var pieces := iov[..];
        ConsumePart(left, rest);
        assert iov[..] == pieces[msglist[msgcurr].off := Rest(rest[0], left)];
      } else {
        SentNothing(rest);
      }
    }

    /** Over a message without pieces. */
    method Skip()
      requires Sending() && msgcurr < msgused && msglist[msgcurr].len == 0
      modifies this`msgcurr, this`queue
      ensures Sending() && queue == Advance(old(queue)) && queue == old(queue)[1..]
    {
      ghost var hdrs := msglist[msgcurr..msgused];
      assert IsRun(hdrs[0], iov, iov[..], queue[0]);
      msgcurr := msgcurr + 1;
      queue := queue[1..];
      assert msglist[msgcurr..msgused] == hdrs[1..];
      forall i | 0 <= i < |queue| ensures IsRun(hdrs[1..][i], iov, iov[..], queue[i]) {
        assert IsRun(hdrs[i + 1], iov, iov[..], old(queue)[i + 1]);
      }
    }

    /** res bytes of the current message are written. */
    method Write(res: nat)
      requires Sending() && msgcurr < msgused && AllReadable(queue[0]) && res <= |Gather(queue[0])|
      modifies this`queue, iov, msglist
      ensures Sending() && queue == [Sent(old(queue)[0], res)] + old(queue)[1..]
    {
      ghost var hdrs, pieces, m := msglist[msgcurr..msgused], iov[..], queue[0];
      assert IsRun(hdrs[0], iov, pieces, m);
      Consume(res, m);
      RunsAfter(hdrs, iov, pieces, queue, msglist[msgcurr], iov[..], Sent(m, res));
      SentKeeps(m, res);
      queue := [Sent(m, res)] + queue[1..];
      assert msglist[msgcurr..msgused] == [msglist[msgcurr]] + hdrs[1..];
    }

    /** A finished message, if the current one is, is stepped over. */
    method StepOver()
      requires Sending()
      modifies this`msgcurr, this`queue
      ensures Sending() && queue == Advance(old(queue))
    {
      if msgcurr < msgused {
        assert IsRun(msglist[msgcurr..msgused][0], iov, iov[..], queue[0]);
        if msglist[msgcurr].len == 0 { Skip(); }
      }
    }

    /** transmit; res and again are what sendmsg came back with, updated is what update_event says. */
    method Transmit(res: int, again: bool, updated: bool) returns (r: Transmitted)
      requires Sending() && -1 <= res <= |Upcoming(queue)|
      modifies this`msgcurr, this`queue, iov, msglist
      ensures Sending()
      ensures r == Complete <==> Advance(old(queue)) == []
      ensures queue == if res > 0 then AfterSend(old(queue), res) else Advance(old(queue))
      ensures r == Incomplete <==> r != Complete && res > 0
      ensures r == SoftError <==> r != Complete && res == -1 && again && updated
    {
      StepOver();
      if msgcurr < msgused {
        if res > 0 {
          Write(res);
          return Incomplete;
        }
        if res == -1 && again {
          if !updated {
            return HardError;
          }
          return SoftError;
        }
        return HardError;
      } else {
        return Complete;
      }
    }
  }
}
