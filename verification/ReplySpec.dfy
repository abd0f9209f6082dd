/**
  Replies as lists of messages, each a list of pieces of buffers: how add_iov packs a buffer
  into messages, and how sending consumes them.
  */
module ReplySpec {
  import opened Basics

  /** A struct iovec: len bytes of a buffer from position base on. */
  datatype IoVec = IoVec(buf: Bytes, base: nat, len: nat)
  {
    predicate Readable() { base + len <= |buf| }

    function Contents(): Bytes
      requires Readable()
    {
      buf[base..base + len]
    }
  }

  type Message = seq<IoVec>

  const PAYLOAD: nat := 1400
  const HEADER: nat := 8

  /** The room left for a UDP header: a null pointer and a length. */
  const Slot := IoVec([], 0, HEADER)

  function Size(m: Message): nat {
    if m == [] then 0 else Size(m[..|m| - 1]) + m[|m| - 1].len
  }

  predicate AllReadable(m: Message) {
    forall v :: v in m ==> v.Readable()
  }

  /** The bytes of the pieces, one after the other. */
  function Gather(m: Message): Bytes
    requires AllReadable(m)
  {
    if m == [] then [] else Gather(m[..|m| - 1]) + m[|m| - 1].Contents()
  }

  lemma {:induction false} GatherSize(m: Message)
    requires AllReadable(m)
    ensures |Gather(m)| == Size(m)
  {
    if m != [] {
      GatherSize(m[..|m| - 1]);
      assert Gather(m) == Gather(m[..|m| - 1]) + m[|m| - 1].Contents();
    }
  }

  /** Without the header slot of a UDP message. */
  function Body(udp: bool, m: Message): Message
    requires udp ==> m != []
  {
    if udp then m[1..] else m
  }

  predicate WellFormed(udp: bool, max: nat, m: Message) {
    && |m| <= max
    && (udp ==> m != [] && m[0] == Slot && Size(m) <= PAYLOAD)
    && AllReadable(Body(udp, m))
  }

  /** Every message fits, the first of a TCP reply as a datagram would. */
  predicate Packed(udp: bool, max: nat, msgs: seq<Message>) {
    && msgs != []
    && (forall i :: 0 <= i < |msgs| ==> WellFormed(udp, max, msgs[i]))
    && Size(msgs[0]) <= PAYLOAD
  }

  /** What the client gets to read: the bodies of all messages, in order. */
  function Payload(udp: bool, max: nat, msgs: seq<Message>): Bytes
    requires forall i :: 0 <= i < |msgs| ==> WellFormed(udp, max, msgs[i])
  {
    if msgs == [] then []
    else
      assert WellFormed(udp, max, msgs[|msgs| - 1]);
      Payload(udp, max, msgs[..|msgs| - 1]) + Gather(Body(udp, msgs[|msgs| - 1]))
  }

  // ---------- add_iov ----------

  function Fresh(udp: bool): Message { if udp then [Slot] else [] }

  function LastOf(msgs: seq<Message>): Message
    requires msgs != []
  {
    msgs[|msgs| - 1]
  }

  function Limited(udp: bool, msgs: seq<Message>): bool { udp || |msgs| == 1 }

  /** A message full of pieces, or of bytes, makes room for a new one. */
  function Opened(udp: bool, max: nat, msgs: seq<Message>): seq<Message>
    requires msgs != []
  {
    if |LastOf(msgs)| == max || (Limited(udp, msgs) && Size(LastOf(msgs)) >= PAYLOAD)
    then msgs + [Fresh(udp)] else msgs
  }

  /** What of len bytes still goes into a message of the given size. */
  function Taken(limited: bool, size: nat, len: nat): (n: nat)
    ensures n <= len
  {
    if limited && len + size > PAYLOAD && size <= PAYLOAD then PAYLOAD - size else len
  }

  /** How much of the piece the last message takes; the limit is the one decided before it was opened. */
  function Share(udp: bool, max: nat, msgs: seq<Message>, len: nat): (n: nat)
    requires msgs != []
    ensures n <= len
  {
    Taken(Limited(udp, msgs), Size(LastOf(Opened(udp, max, msgs))), len)
  }

  function Put(msgs: seq<Message>, v: IoVec): seq<Message>
    requires msgs != []
  {
    msgs[..|msgs| - 1] + [LastOf(msgs) + [v]]
  }

  /** One pass of the loop of add_iov. */
  function Round(udp: bool, max: nat, msgs: seq<Message>, v: IoVec): seq<Message>
    requires msgs != []
  {
    Put(Opened(udp, max, msgs), v.(len := Share(udp, max, msgs, v.len)))
  }

  function Rest(v: IoVec, n: nat): IoVec
    requires n <= v.len
  {
    IoVec(v.buf, v.base + n, v.len - n)
  }

  lemma SizeMore(m: Message, v: IoVec)
    ensures Size(m + [v]) == Size(m) + v.len
    ensures AllReadable(m) && v.Readable() ==> AllReadable(m + [v]) && Gather(m + [v]) == Gather(m) + v.Contents()
  {
    assert (m + [v])[..|m|] == m;
  }

  lemma ShareFits(udp: bool, max: nat, msgs: seq<Message>, len: nat)
    requires max >= 2 && Packed(udp, max, msgs)
    ensures var n := Share(udp, max, msgs, len); n <= len && (n < len ==> n > 0)
    ensures Limited(udp, msgs) ==> Size(LastOf(Opened(udp, max, msgs))) + Share(udp, max, msgs, len) <= PAYLOAD
    ensures |LastOf(Opened(udp, max, msgs))| < max
  {
    assert WellFormed(udp, max, LastOf(msgs));
    FreshIs(udp, max);
  }

  lemma PayloadMore(udp: bool, max: nat, msgs: seq<Message>, m: Message)
    requires forall i :: 0 <= i < |msgs| ==> WellFormed(udp, max, msgs[i])
    requires WellFormed(udp, max, m)
    ensures Payload(udp, max, msgs + [m]) == Payload(udp, max, msgs) + Gather(Body(udp, m))
  {
    assert (msgs + [m])[..|msgs|] == msgs;
  }

  lemma FreshIs(udp: bool, max: nat)
    requires max >= 2
    ensures WellFormed(udp, max, Fresh(udp)) && Body(udp, Fresh(udp)) == [] && Size(Fresh(udp)) <= HEADER
  {
    if udp {
      SizeMore([], Slot);
      assert [] + [Slot] == [Slot] && [Slot][1..] == [];
    }
  }

  lemma OpenedKeeps(udp: bool, max: nat, msgs: seq<Message>)
    requires max >= 2 && Packed(udp, max, msgs)
    ensures Packed(udp, max, Opened(udp, max, msgs))
    ensures Payload(udp, max, Opened(udp, max, msgs)) == Payload(udp, max, msgs)
  {
    FreshIs(udp, max);
    PayloadMore(udp, max, msgs, Fresh(udp));
  }

  lemma BodyMore(udp: bool, m: Message, v: IoVec)
    requires udp ==> m != []
    ensures Body(udp, m + [v]) == Body(udp, m) + [v]
    ensures udp ==> (m + [v])[0] == m[0]
  {
  }

  lemma PieceKeeps(udp: bool, max: nat, m: Message, v: IoVec)
    requires WellFormed(udp, max, m) && v.Readable() && |m| < max
    requires udp ==> Size(m) + v.len <= PAYLOAD
    ensures WellFormed(udp, max, m + [v])
    ensures Gather(Body(udp, m + [v])) == Gather(Body(udp, m)) + v.Contents()
  {
    SizeMore(m, v);
    BodyMore(udp, m, v);
    SizeMore(Body(udp, m), v);
  }

  lemma Assoc(a: Bytes, b: Bytes, c: Bytes)
    ensures (a + b) + c == a + (b + c)
  {
  }

  lemma PutPacked(udp: bool, max: nat, msgs: seq<Message>, v: IoVec)
    requires Packed(udp, max, msgs) && WellFormed(udp, max, LastOf(msgs) + [v])
    requires |msgs| == 1 ==> Size(LastOf(msgs) + [v]) <= PAYLOAD
    ensures Packed(udp, max, Put(msgs, v))
  {
    var t := Put(msgs, v);
    forall i | 0 <= i < |t| ensures WellFormed(udp, max, t[i]) {
      if i < |msgs| - 1 { assert t[i] == msgs[i]; }
    }
  }

  lemma PutKeeps(udp: bool, max: nat, msgs: seq<Message>, v: IoVec)
    requires Packed(udp, max, msgs) && v.Readable() && |LastOf(msgs)| < max
    requires Limited(udp, msgs) ==> Size(LastOf(msgs)) + v.len <= PAYLOAD
    ensures Packed(udp, max, Put(msgs, v))
    ensures Payload(udp, max, Put(msgs, v)) == Payload(udp, max, msgs) + v.Contents()
  {
    var last := LastOf(msgs);
    assert WellFormed(udp, max, last);
    PieceKeeps(udp, max, last, v);
    SizeMore(last, v);
    PutPacked(udp, max, msgs, v);
    PutPayload(udp, max, msgs, v);
  }

  lemma PutPayload(udp: bool, max: nat, msgs: seq<Message>, v: IoVec)
    requires Packed(udp, max, msgs) && WellFormed(udp, max, LastOf(msgs) + [v]) && Packed(udp, max, Put(msgs, v))
    requires v.Readable() && WellFormed(udp, max, LastOf(msgs))
    requires Gather(Body(udp, LastOf(msgs) + [v])) == Gather(Body(udp, LastOf(msgs))) + v.Contents()
    ensures Payload(udp, max, Put(msgs, v)) == Payload(udp, max, msgs) + v.Contents()
  {
    var front, last := msgs[..|msgs| - 1], LastOf(msgs);
    PayloadMore(udp, max, front, last + [v]);
    Assoc(Payload(udp, max, front), Gather(Body(udp, last)), v.Contents());
  }

  lemma SplitContents(v: IoVec, n: nat)
    requires v.Readable() && n <= v.len
    ensures v.(len := n).Readable() && Rest(v, n).Readable()
    ensures v.(len := n).Contents() + Rest(v, n).Contents() == v.Contents()
  {
  }

  /** One pass puts a first part of the piece behind what is there; the rest goes on. */
  lemma RoundKeeps(udp: bool, max: nat, msgs: seq<Message>, v: IoVec)
    requires max >= 2 && Packed(udp, max, msgs) && v.Readable()
    ensures Packed(udp, max, Round(udp, max, msgs, v)) && Share(udp, max, msgs, v.len) <= v.len
    ensures var n := Share(udp, max, msgs, v.len);
            && v.(len := n).Readable()
            && Payload(udp, max, Round(udp, max, msgs, v)) == Payload(udp, max, msgs) + v.(len := n).Contents()
  {
    OpenedKeeps(udp, max, msgs);
    ShareFits(udp, max, msgs, v.len);
    var n := Share(udp, max, msgs, v.len);
    SplitContents(v, n);
    PutKeeps(udp, max, Opened(udp, max, msgs), v.(len := n));
  }

  /** add_iov: at least one piece, even an empty one, and pieces until nothing is left over. */
  function Added(udp: bool, max: nat, msgs: seq<Message>, v: IoVec): seq<Message>
    requires max >= 2 && Packed(udp, max, msgs) && v.Readable()
    decreases v.len
  {
    RoundKeeps(udp, max, msgs, v);
    ShareFits(udp, max, msgs, v.len);
    var n := Share(udp, max, msgs, v.len);
    SplitContents(v, n);
    var t := Round(udp, max, msgs, v);
    if n < v.len then Added(udp, max, t, Rest(v, n)) else t
  }

  lemma AddedStep(udp: bool, max: nat, msgs: seq<Message>, v: IoVec)
    requires max >= 2 && Packed(udp, max, msgs) && v.Readable()
    ensures var n, t := Share(udp, max, msgs, v.len), Round(udp, max, msgs, v);
            && n <= v.len && (n < v.len ==> n > 0)
            && Packed(udp, max, t) && Rest(v, n).Readable()
            && Added(udp, max, msgs, v) == if n < v.len then Added(udp, max, t, Rest(v, n)) else t
  {
    RoundKeeps(udp, max, msgs, v);
    ShareFits(udp, max, msgs, v.len);
    SplitContents(v, Share(udp, max, msgs, v.len));
  }

  /** A buffer of any length is appended to what the client reads, and every message still fits. */
  lemma {:induction false} AddedKeeps(udp: bool, max: nat, msgs: seq<Message>, v: IoVec)
    requires max >= 2 && Packed(udp, max, msgs) && v.Readable()
    ensures Packed(udp, max, Added(udp, max, msgs, v))
    ensures Payload(udp, max, Added(udp, max, msgs, v)) == Payload(udp, max, msgs) + v.Contents()
    decreases v.len
  {
    RoundKeeps(udp, max, msgs, v);
    ShareFits(udp, max, msgs, v.len);
    var n := Share(udp, max, msgs, v.len);
    SplitContents(v, n);
    if n < v.len {
      AddedKeeps(udp, max, Round(udp, max, msgs, v), Rest(v, n));
      Assoc(Payload(udp, max, msgs), v.(len := n).Contents(), Rest(v, n).Contents());
    }
  }

  /** add_msghdr on the empty list, then one add_iov a buffer. */
  function Reply(udp: bool, max: nat, bufs: seq<IoVec>): (r: seq<Message>)
    requires max >= 2 && AllReadable(bufs)
    ensures Packed(udp, max, r)
  {
    FirstPacked(udp, max);
    if bufs == [] then [Fresh(udp)]
    else
      var r := Reply(udp, max, bufs[..|bufs| - 1]);
      AddedKeeps(udp, max, r, bufs[|bufs| - 1]);
      Added(udp, max, r, bufs[|bufs| - 1])
  }

  lemma FirstPacked(udp: bool, max: nat)
    requires max >= 2
    ensures Packed(udp, max, [Fresh(udp)]) && Payload(udp, max, [Fresh(udp)]) == []
  {
    FreshIs(udp, max);
    PayloadMore(udp, max, [], Fresh(udp));
    assert [] + [Fresh(udp)] == [Fresh(udp)];
  }

  /** Main result: the bodies of the messages, in order, are the buffers, in order. */
  lemma {:induction false} ReplyIsConcatenation(udp: bool, max: nat, bufs: seq<IoVec>)
    requires max >= 2 && AllReadable(bufs)
    ensures Payload(udp, max, Reply(udp, max, bufs)) == Gather(bufs)
  {
    if bufs == [] {
      FirstPacked(udp, max);
    } else {
      ReplyIsConcatenation(udp, max, bufs[..|bufs| - 1]);
      AddedKeeps(udp, max, Reply(udp, max, bufs[..|bufs| - 1]), bufs[|bufs| - 1]);
    }
  }

  // ---------- nothing is sent in more messages than need be ----------

  /** No piece more goes into the message: it has max pieces, or it is limited and has 1400 bytes. */
  predicate Full(udp: bool, max: nat, m: Message, first: bool) {
    |m| == max || ((udp || first) && Size(m) == 1400)
  }

  predicate Tight(udp: bool, max: nat, msgs: seq<Message>) {
    forall i :: 0 <= i < |msgs| - 1 ==> Full(udp, max, msgs[i], i == 0)
  }

  lemma OpenedTight(udp: bool, max: nat, msgs: seq<Message>)
    requires max >= 2 && Packed(udp, max, msgs) && Tight(udp, max, msgs)
    ensures Tight(udp, max, Opened(udp, max, msgs))
  {
    assert WellFormed(udp, max, LastOf(msgs));
  }

  lemma PutTight(udp: bool, max: nat, msgs: seq<Message>, v: IoVec)
    requires msgs != [] && Tight(udp, max, msgs)
    ensures Tight(udp, max, Put(msgs, v))
  {
    var t := Put(msgs, v);
    forall i | 0 <= i < |t| - 1 ensures Full(udp, max, t[i], i == 0) { assert t[i] == msgs[i]; }
  }

  lemma {:induction false} AddedTight(udp: bool, max: nat, msgs: seq<Message>, v: IoVec)
    requires max >= 2 && Packed(udp, max, msgs) && v.Readable() && Tight(udp, max, msgs)
    ensures Tight(udp, max, Added(udp, max, msgs, v))
    decreases v.len
  {
    AddedStep(udp, max, msgs, v);
    OpenedTight(udp, max, msgs);
    var n := Share(udp, max, msgs, v.len);
    PutTight(udp, max, Opened(udp, max, msgs), v.(len := n));
    if n < v.len { AddedTight(udp, max, Round(udp, max, msgs, v), Rest(v, n)); }
  }

  /** Every message of a reply but the last is full. */
  lemma {:induction false} ReplyTight(udp: bool, max: nat, bufs: seq<IoVec>)
    requires max >= 2 && AllReadable(bufs)
    ensures Tight(udp, max, Reply(udp, max, bufs))
  {
    if bufs != [] {
      ReplyTight(udp, max, bufs[..|bufs| - 1]);
      AddedTight(udp, max, Reply(udp, max, bufs[..|bufs| - 1]), bufs[|bufs| - 1]);
    }
  }

  // ---------- build_udp_headers ----------

  function Low(x: nat): bv8 { (x % 256) as bv8 }

  /** Request id, number of the datagram, how many there are, and a reserved word, high bytes first. */
  function HeaderBytes(id: nat, i: nat, n: nat): Bytes {
    [Low(id / 256), Low(id), Low(i / 256), Low(i), Low(n / 256), Low(n), 0, 0]
  }

  lemma HeaderIs(s: Bytes, id: nat, i: nat, n: nat)
    requires |s| == HEADER && s[0] == Low(id / 256) && s[1] == Low(id) && s[2] == Low(i / 256) && s[3] == Low(i)
    requires s[4] == Low(n / 256) && s[5] == Low(n) && s[6] == 0 && s[7] == 0
    ensures s == HeaderBytes(id, i, n)
  {
  }

  function HeaderPiece(id: nat, i: nat, n: nat): IoVec { IoVec(HeaderBytes(id, i, n), 0, HEADER) }

  function SetFirst(msgs: seq<Message>, i: nat, v: IoVec): seq<Message>
    requires i < |msgs| && msgs[i] != []
  {
    msgs[i := msgs[i][0 := v]]
  }

  predicate HaveSlots(msgs: seq<Message>) {
    forall i :: 0 <= i < |msgs| ==> msgs[i] != [] && msgs[i][0].len == HEADER
  }

  /** The first k messages with their headers in the slot. */
  function HeadedTo(id: nat, msgs: seq<Message>, k: nat): (r: seq<Message>)
    requires HaveSlots(msgs)
  {
    seq(|msgs|, i requires 0 <= i < |msgs| => if i < k then msgs[i][0 := HeaderPiece(id, i, |msgs|)] else msgs[i])
  }

  function Headed(id: nat, msgs: seq<Message>): seq<Message>
    requires HaveSlots(msgs)
  {
    HeadedTo(id, msgs, |msgs|)
  }

  lemma HeadedNext(id: nat, msgs: seq<Message>, k: nat)
    requires HaveSlots(msgs) && k < |msgs|
    ensures var h := HeadedTo(id, msgs, k);
            && |h| == |msgs| && h[k] != [] && h[k][0].len == HEADER
            && SetFirst(h, k, HeaderPiece(id, k, |msgs|)) == HeadedTo(id, msgs, k + 1)
  {
  }

  lemma PackedHaveSlots(max: nat, msgs: seq<Message>)
    requires Packed(true, max, msgs)
    ensures HaveSlots(msgs)
  {
    forall i | 0 <= i < |msgs| ensures msgs[i] != [] && msgs[i][0].len == HEADER {
      assert WellFormed(true, max, msgs[i]);
    }
  }

  lemma {:induction false} SizeSetFirst(m: Message, v: IoVec)
    requires m != [] && v.len == m[0].len
    ensures Size(m[0 := v]) == Size(m)
  {
    if |m| > 1 {
      SizeSetFirst(m[..|m| - 1], v);
      assert m[0 := v][..|m| - 1] == m[..|m| - 1][0 := v];
    } else {
      assert m[0 := v][..0] == m[..0];
    }
  }

  lemma HeadedIs(max: nat, id: nat, msgs: seq<Message>, i: nat)
    requires Packed(true, max, msgs) && i < |msgs|
    ensures HaveSlots(msgs)
    ensures var m := Headed(id, msgs)[i];
            && AllReadable(m) && WellFormed(true, max, msgs[i])
            && Gather(m) == HeaderBytes(id, i, |msgs|) + Gather(Body(true, msgs[i]))
            && |Gather(m)| <= PAYLOAD
  {
    PackedHaveSlots(max, msgs);
    assert WellFormed(true, max, msgs[i]);
    var m, v := msgs[i], HeaderPiece(id, i, |msgs|);
    assert m[0 := v] == [v] + m[1..];
    assert v.Contents() == HeaderBytes(id, i, |msgs|);
    ConsGather(v, m[1..]);
    GatherSize(m[0 := v]);
    SizeSetFirst(m, v);
  }

  /** The two bytes hold the low 16 bits of the number, high byte first. */
  predicate Holds16(high: bv8, low: bv8, x: nat) { high == (x / 256 % 256) as bv8 && low == (x % 256) as bv8 }

  /** The datagram begins with the request id, its own number, how many there are and a zero word. */
  ghost predicate BeginsWith(g: Bytes, id: nat, i: nat, n: nat) {
    |g| >= 8 && Holds16(g[0], g[1], id) && Holds16(g[2], g[3], i) && Holds16(g[4], g[5], n) && g[6] == 0 && g[7] == 0
  }

  lemma HeaderBegins(id: nat, i: nat, n: nat, rest: Bytes)
    ensures BeginsWith(HeaderBytes(id, i, n) + rest, id, i, n)
    ensures (HeaderBytes(id, i, n) + rest)[8..] == rest
  {
  }

  /** A datagram is its header and then its part of the payload, 1400 bytes at most. */
  lemma HeadedDatagram(max: nat, id: nat, msgs: seq<Message>, i: nat)
    requires Packed(true, max, msgs) && i < |msgs|
    ensures HaveSlots(msgs)
    ensures var m := Headed(id, msgs)[i];
            && AllReadable(m) && WellFormed(true, max, msgs[i]) && BeginsWith(Gather(m), id, i, |msgs|)
            && Gather(m)[8..] == Gather(Body(true, msgs[i])) && |Gather(m)| <= 1400
  {
    HeadedIs(max, id, msgs, i);
    HeaderBegins(id, i, |msgs|, Gather(Body(true, msgs[i])));
  }

  // ---------- no message is empty ----------

  predicate Filled(msgs: seq<Message>) {
    forall i :: 0 <= i < |msgs| ==> Size(msgs[i]) > 0
  }

  lemma RoundFills(udp: bool, max: nat, msgs: seq<Message>, v: IoVec)
    requires max >= 2 && Packed(udp, max, msgs) && v.Readable() && v.len > 0
    requires Filled(msgs) || msgs == [Fresh(udp)]
    ensures Filled(Round(udp, max, msgs, v))
  {
    ShareFits(udp, max, msgs, v.len);
    FreshIs(udp, max);
    var o, n := Opened(udp, max, msgs), Share(udp, max, msgs, v.len);
    SizeMore(LastOf(o), v.(len := n));
    var t := Round(udp, max, msgs, v);
    forall i | 0 <= i < |t| ensures Size(t[i]) > 0 {
      if i < |t| - 1 { assert t[i] == msgs[i]; }
    }
  }

  lemma {:induction false} AddedFills(udp: bool, max: nat, msgs: seq<Message>, v: IoVec)
    requires max >= 2 && Packed(udp, max, msgs) && v.Readable() && v.len > 0
    requires Filled(msgs) || msgs == [Fresh(udp)]
    ensures Filled(Added(udp, max, msgs, v))
    decreases v.len
  {
    RoundFills(udp, max, msgs, v);
    RoundKeeps(udp, max, msgs, v);
    ShareFits(udp, max, msgs, v.len);
    var n := Share(udp, max, msgs, v.len);
    SplitContents(v, n);
    if n < v.len { AddedFills(udp, max, Round(udp, max, msgs, v), Rest(v, n)); }
  }

  /** Buffers that are not empty make messages that are not empty. */
  lemma {:induction false} ReplyFilled(udp: bool, max: nat, bufs: seq<IoVec>)
    requires max >= 2 && AllReadable(bufs) && bufs != [] && forall v :: v in bufs ==> v.len > 0
    ensures Filled(Reply(udp, max, bufs))
  {
    var front := bufs[..|bufs| - 1];
    if front != [] { ReplyFilled(udp, max, front); }
    AddedFills(udp, max, Reply(udp, max, front), bufs[|bufs| - 1]);
  }

  // ---------- sending ----------

  lemma {:induction false} GatherConcat(a: Message, b: Message)
    requires AllReadable(a) && AllReadable(b)
    ensures AllReadable(a + b) && Gather(a + b) == Gather(a) + Gather(b)
  {
    if b == [] {
      assert a + b == a;
    } else {
      var front := b[..|b| - 1];
      GatherConcat(a, front);
      assert (a + b)[..|a + b| - 1] == a + front;
      Assoc(Gather(a), Gather(front), b[|b| - 1].Contents());
    }
  }

  lemma ConsGather(v: IoVec, m: Message)
    requires v.Readable() && AllReadable(m)
    ensures AllReadable([v] + m) && Gather([v] + m) == v.Contents() + Gather(m)
  {
    GatherConcat([v], m);
    assert [v][..0] == [];
  }

  lemma GatherFirst(m: Message)
    requires AllReadable(m) && m != []
    ensures AllReadable(m[1..]) && Gather(m) == m[0].Contents() + Gather(m[1..])
  {
    assert m == [m[0]] + m[1..];
    ConsGather(m[0], m[1..]);
  }

  /** A message once n of its bytes are written: whole pieces go, the next one starts later. */
  function Sent(m: Message, n: nat): Message {
    if m == [] then []
    else if n >= m[0].len then Sent(m[1..], n - m[0].len)
    else [Rest(m[0], n)] + m[1..]
  }

  lemma DropFirst(m: Message, n: nat)
    requires AllReadable(m) && m != [] && m[0].len <= n <= |Gather(m)|
    ensures AllReadable(m[1..]) && n - m[0].len <= |Gather(m[1..])|
    ensures Sent(m, n) == Sent(m[1..], n - m[0].len)
  {
    assert m[0] in m;
    GatherFirst(m);
  }

  lemma {:induction false} SentKeeps(m: Message, n: nat)
    requires AllReadable(m) && n <= |Gather(m)|
    ensures AllReadable(Sent(m, n)) && Gather(Sent(m, n)) == Gather(m)[n..]
    ensures Sent(m, n) != [] ==> Sent(m, n)[0].len > 0
  {
    if m != [] {
      GatherFirst(m);
      var c, g := m[0].Contents(), Gather(m[1..]);
      if n >= m[0].len {
        SentKeeps(m[1..], n - m[0].len);
        assert (c + g)[n..] == g[n - m[0].len..];
      } else {
        SplitContents(m[0], n);
        ConsGather(Rest(m[0], n), m[1..]);
        assert (c + g)[n..] == c[n..] + g;
      }
    }
  }

  /** The bytes of messages still to go, headers included. */
  function Wire(msgs: seq<Message>): Bytes
    requires forall i :: 0 <= i < |msgs| ==> AllReadable(msgs[i])
  {
    if msgs == [] then [] else Gather(msgs[0]) + Wire(msgs[1..])
  }

  lemma {:induction false} WireMore(msgs: seq<Message>, m: Message)
    requires AllReadable(m) && forall i :: 0 <= i < |msgs| ==> AllReadable(msgs[i])
    ensures Wire(msgs + [m]) == Wire(msgs) + Gather(m)
  {
    if msgs == [] {
      assert [] + [m] == [m] && [m][1..] == [];
    } else {
      WireMore(msgs[1..], m);
      assert (msgs + [m])[1..] == msgs[1..] + [m];
      Assoc(Gather(msgs[0]), Wire(msgs[1..]), Gather(m));
    }
  }

  /** Over TCP the wire carries the payload and nothing else. */
  lemma {:induction false} WireIsPayload(max: nat, msgs: seq<Message>)
    requires forall i :: 0 <= i < |msgs| ==> WellFormed(false, max, msgs[i])
    ensures forall i :: 0 <= i < |msgs| ==> AllReadable(msgs[i])
    ensures Wire(msgs) == Payload(false, max, msgs)
  {
    forall i | 0 <= i < |msgs| ensures AllReadable(msgs[i]) { assert WellFormed(false, max, msgs[i]); }
    if msgs != [] {
      var front := msgs[..|msgs| - 1];
      WireIsPayload(max, front);
      WireMore(front, msgs[|msgs| - 1]);
      assert msgs == front + [msgs[|msgs| - 1]];
    }
  }

  predicate Sendable(q: seq<Message>) {
    forall i :: 0 <= i < |q| ==> AllReadable(q[i])
  }

  /** A message without pieces left is stepped over, one a call. */
  function Advance(q: seq<Message>): seq<Message> {
    if q != [] && q[0] == [] then q[1..] else q
  }

  /** The message sendmsg is given, as bytes. */
  function Upcoming(q: seq<Message>): Bytes
    requires Sendable(q)
  {
    var a := Advance(q);
    if a == [] then [] else assert AllReadable(a[0]); Gather(a[0])
  }

  /** The messages left after a call of transmit that wrote n bytes. */
  function AfterSend(q: seq<Message>, n: nat): seq<Message> {
    var a := Advance(q);
    if a == [] then [] else [Sent(a[0], n)] + a[1..]
  }

  lemma WireCons(m: Message, rest: seq<Message>)
    requires AllReadable(m) && Sendable(rest)
    ensures Sendable([m] + rest) && Wire([m] + rest) == Gather(m) + Wire(rest)
  {
    assert ([m] + rest)[1..] == rest;
  }

  lemma HeadConserves(m: Message, rest: seq<Message>, n: nat)
    requires AllReadable(m) && Sendable(rest) && n <= |Gather(m)|
    ensures AllReadable(Sent(m, n)) && Sendable([Sent(m, n)] + rest)
    ensures Gather(m)[..n] + Wire([Sent(m, n)] + rest) == Gather(m) + Wire(rest)
  {
    SentKeeps(m, n);
    WireCons(Sent(m, n), rest);
    SplitJoin(Gather(m), n, Wire(rest));
  }

  lemma SplitJoin(g: Bytes, n: nat, w: Bytes)
    requires n <= |g|
    ensures g[..n] + (g[n..] + w) == g + w
  {
  }

  /** Nothing is lost or doubled: what was written and what is left are what was there. */
  lemma SendConserves(q: seq<Message>, n: nat)
    requires Sendable(q) && n <= |Upcoming(q)|
    ensures Sendable(AfterSend(q, n))
    ensures Upcoming(q)[..n] + Wire(AfterSend(q, n)) == Wire(q)
  {
    var a := Advance(q);
    assert Sendable(a) && Wire(a) == Wire(q);
    if a != [] {
      assert AllReadable(a[0]) && Sendable(a[1..]);
      HeadConserves(a[0], a[1..], n);
    }
  }

  predicate Live(m: Message) { AllReadable(m) && Gather(m) != [] }

  /** Every message not begun carries bytes; the one begun has no pieces left or some bytes left. */
  predicate Ready(q: seq<Message>) {
    && (q != [] ==> q[0] == [] || Live(q[0]))
    && forall i :: 1 <= i < |q| ==> Live(q[i])
  }

  lemma SentLive(m: Message, n: nat)
    requires AllReadable(m) && n <= |Gather(m)|
    ensures Sent(m, n) == [] || Live(Sent(m, n))
  {
    SentKeeps(m, n);
    var t := Sent(m, n);
    if t != [] {
      GatherFirst(t);
      assert |t[0].Contents()| == t[0].len;
    }
  }

  /** So sendmsg is never asked to write nothing, and what is left is ready again. */
  lemma ReadyStays(q: seq<Message>, n: nat)
    requires Sendable(q) && Ready(q) && n <= |Upcoming(q)|
    ensures Ready(AfterSend(q, n))
    ensures Upcoming(q) == [] ==> Advance(q) == []
  {
    var a, t := Advance(q), AfterSend(q, n);
    if a != [] {
      assert Live(a[0]);
      SentLive(a[0], n);
      assert forall i :: 1 <= i < |t| ==> t[i] == a[i];
      assert forall i :: 1 <= i < |a| ==> Live(a[i]);
    }
  }

  /** The calls of transmit one after the other; each writes no more than the message has left. */
  predicate Possible(q: seq<Message>, ns: seq<nat>)
    requires Sendable(q)
    decreases |ns|
  {
    ns == [] ||
    (ns[0] <= |Upcoming(q)| && Sendable(AfterSend(q, ns[0])) && Possible(AfterSend(q, ns[0]), ns[1..]))
  }

  function Emitted(q: seq<Message>, ns: seq<nat>): Bytes
    requires Sendable(q) && Possible(q, ns)
    decreases |ns|
  {
    if ns == [] then [] else Upcoming(q)[..ns[0]] + Emitted(AfterSend(q, ns[0]), ns[1..])
  }

  function Unsent(q: seq<Message>, ns: seq<nat>): seq<Message>
    requires Sendable(q) && Possible(q, ns)
    decreases |ns|
  {
    if ns == [] then q else Unsent(AfterSend(q, ns[0]), ns[1..])
  }

  /** Main result: however the socket cuts the sending up, the bytes that went out are a first part of the reply. */
  lemma {:induction false} EveryRunSends(q: seq<Message>, ns: seq<nat>)
    requires Sendable(q) && Possible(q, ns)
    ensures Sendable(Unsent(q, ns)) && Emitted(q, ns) + Wire(Unsent(q, ns)) == Wire(q)
    decreases |ns|
  {
    if ns != [] {
      SendConserves(q, ns[0]);
      var t := AfterSend(q, ns[0]);
      EveryRunSends(t, ns[1..]);
      Assoc(Upcoming(q)[..ns[0]], Emitted(t, ns[1..]), Wire(Unsent(t, ns[1..])));
    }
  }

  /** When the next call finds nothing to send, all has been sent: over TCP, the buffers given to add_iov. */
  lemma CompleteMeansAll(max: nat, bufs: seq<IoVec>, ns: seq<nat>)
    requires max >= 2 && AllReadable(bufs) && Sendable(Reply(false, max, bufs))
    requires Possible(Reply(false, max, bufs), ns)
    requires Advance(Unsent(Reply(false, max, bufs), ns)) == []
    ensures Emitted(Reply(false, max, bufs), ns) == Gather(bufs)
  {
    var q := Reply(false, max, bufs);
    EveryRunSends(q, ns);
    WireIsPayload(max, q);
    ReplyIsConcatenation(false, max, bufs);
    var left := Unsent(q, ns);
    assert Wire(left) == [];
  }

  /** A reply of buffers that are not empty is ready to be sent. */
  lemma ReplyReady(max: nat, bufs: seq<IoVec>)
    requires max >= 2 && AllReadable(bufs) && bufs != [] && forall v :: v in bufs ==> v.len > 0
    ensures Sendable(Reply(false, max, bufs)) && Ready(Reply(false, max, bufs))
  {
    var q := Reply(false, max, bufs);
    ReplyFilled(false, max, bufs);
    forall i | 0 <= i < |q| ensures AllReadable(q[i]) && Live(q[i]) {
      assert WellFormed(false, max, q[i]);
      GatherSize(q[i]);
    }
  }

  /** Between any calls the rest is ready: a call that has nothing to write finds nothing left to send. */
  lemma {:induction false} RunStaysReady(q: seq<Message>, ns: seq<nat>)
    requires Sendable(q) && Ready(q) && Possible(q, ns)
    ensures Sendable(Unsent(q, ns)) && Ready(Unsent(q, ns))
    ensures Upcoming(Unsent(q, ns)) == [] ==> Advance(Unsent(q, ns)) == []
    decreases |ns|
  {
    if ns == [] {
      ReadyStays(q, 0);
    } else {
      ReadyStays(q, ns[0]);
      RunStaysReady(AfterSend(q, ns[0]), ns[1..]);
    }
  }

  /**
    A reply of buffers that are not empty never stalls: at every point of every run the next
    call has nothing to write exactly when all of the reply has gone out.
    */
  lemma ReplyNeverStalls(max: nat, bufs: seq<IoVec>, ns: seq<nat>)
    requires max >= 2 && AllReadable(bufs) && bufs != [] && forall v :: v in bufs ==> v.len > 0
    requires Sendable(Reply(false, max, bufs)) && Possible(Reply(false, max, bufs), ns)
    ensures var q := Reply(false, max, bufs);
            Sendable(Unsent(q, ns)) && (Upcoming(Unsent(q, ns)) == [] <==> Emitted(q, ns) == Gather(bufs))
  {
    var q := Reply(false, max, bufs);
    ReplyReady(max, bufs);
    RunStaysReady(q, ns);
    var left := Unsent(q, ns);
    if Upcoming(left) == [] { CompleteMeansAll(max, bufs, ns); }
    EveryRunSends(q, ns);
    WireIsPayload(max, q);
    ReplyIsConcatenation(false, max, bufs);
    UpcomingInWire(left);
  }

  lemma UpcomingInWire(q: seq<Message>)
    requires Sendable(q)
    ensures |Upcoming(q)| <= |Wire(q)|
  {
    SendConserves(q, |Upcoming(q)|);
  }
}
