/** Where each step of the pending lists puts its connection, and what it leaves alone. */
module PendingPlaces {
  import opened PendingSpec

  /** Lists, bits and sockets of every other connection are as they were, and so is the batch. */
  ghost predicate OthersStay(s: Lists, t: Lists, c: int) {
    && |t.bits| == |s.bits| && |t.open| == |s.open| && t.batchIo == s.batchIo && t.batchClose == s.batchClose
    && (forall d :: d != c ==> (d in t.io <==> d in s.io) && (d in t.close <==> d in s.close))
    && (forall d :: 0 <= d < |s.bits| && d != c ==> t.bits[d] == s.bits[d])
    && (forall d :: 0 <= d < |s.open| && d != c ==> t.open[d] == s.open[d])
  }

  /** On pending_io, in front, and not on pending_close; nothing is recorded. */
  ghost predicate GoesIo(s: Lists, t: Lists, c: int)
    requires s.Conn(c) && |t.bits| == |s.bits|
  {
    t.io != [] && t.io[0] == c && c !in t.close && t.bits[c] == s.bits[c]
  }

  /** On pending_close, in front, and not on pending_io. */
  ghost predicate GoesClose(s: Lists, t: Lists, c: int)
    requires s.Conn(c) && |t.bits| == |s.bits|
  {
    t.close != [] && t.close[0] == c && c !in t.io && t.bits[c] == s.bits[c]
  }

  /** On neither list; the request is recorded for the end of the batch, and any other one stands. */
  ghost predicate Records(s: Lists, t: Lists, c: int, io: bool, close: bool)
    requires s.Conn(c) && |t.bits| == |s.bits|
  {
    && c !in t.io && c !in t.close && t.bits[c].processing
    && t.bits[c].reqIo == (s.bits[c].reqIo || io) && t.bits[c].reqClose == (s.bits[c].reqClose || close)
  }

  lemma EnlistedPlaces(s: Lists, c: int, w: Which)
    requires Sound(s) && Enlistable(s, c)
    ensures var t := Enlisted(s, c, w);
            && OthersStay(s, t, c) && |t.bits| == |s.bits| && t.open == s.open
            && (if s.Drained(c) then Records(s, t, c, w == Io, w == Close)
                else if w == Io then GoesIo(s, t, c) else GoesClose(s, t, c))
  {
    if s.Drained(c) { DrainedEnlistable(s, c); }
    var t := Enlisted(s, c, w);
    assert !s.Drained(c) ==> !s.bits[c].processing;
    forall d | d != c ensures (d in t.io <==> d in s.io) && (d in t.close <==> d in s.close) { }
  }

  /** The connection's operation is done: on pending_io unless it is listed already; a drained one asks for io. */
  lemma IoDonePlaces(s: Lists, c: int)
    requires Sound(s) && s.Conn(c)
    ensures var t := Next(s, IoDone(c));
            && OthersStay(s, t, c) && t.open == s.open && |t.bits| == |s.bits|
            && (if s.Drained(c) then Records(s, t, c, true, false)
                else if c in s.io || c in s.close then t == s
                else GoesIo(s, t, c))
  {
    StepSound(s, IoDone(c));
    if s.Drained(c) { DrainedEnlistable(s, c); }
    if c !in s.io && c !in s.close { EnlistedPlaces(s, c, Io); }
  }

  /** The engine gives the connection up: off pending_io and on pending_close, once; a drained one asks for close. */
  lemma DisconnectPlaces(s: Lists, c: int)
    requires Sound(s) && s.Conn(c)
    ensures var t := Next(s, Disconnect(c));
            && OthersStay(s, t, c) && t.open == s.open && |t.bits| == |s.bits|
            && (if s.Drained(c) then Records(s, t, c, false, true)
                else if c in s.close then t == s
                else GoesClose(s, t, c))
  {
    StepSound(s, Disconnect(c));
    RemovedSound(s, c, Io);
    WithoutMembers(s.io, c);
    if c !in s.io { WithoutAbsent(s.io, c); }
    if s.Drained(c) { DrainedEnlistable(s, c); }
    if c !in s.close { EnlistedPlaces(Removed(s, c, Io), c, Close); }
  }

  lemma {:induction false} WithoutAbsent(l: seq<int>, c: int)
    requires c !in l
    ensures Without(l, c) == l
  {
    if l != [] {
      assert l[0] in l && forall x :: x in l[1..] ==> x in l;
      WithoutAbsent(l[1..], c);
    }
  }

  /** A tap connection: off both lists; closed when it is closing and this is its last reference, else served again unless it is closing. */
  lemma TapDisconnectPlaces(s: Lists, c: int, closing: bool, lastRef: bool)
    requires Sound(s) && s.Conn(c)
    ensures var t := Next(s, TapDisconnect(c, closing, lastRef));
            && OthersStay(s, t, c) && t.open == s.open && |t.bits| == |s.bits|
            && (if closing && !lastRef then c !in t.io && c !in t.close && t.bits == s.bits
                else if s.Drained(c) then Records(s, t, c, !closing, closing)
                else if closing then GoesClose(s, t, c)
                else GoesIo(s, t, c))
  {
    RemovedBoth(s, c);
    WithoutMembers(s.io, c);
    WithoutMembers(s.close, c);
    var u := Removed(Removed(s, c, Io), c, Close);
    if !closing { EnlistedPlaces(u, c, Io); } else if lastRef { EnlistedPlaces(u, c, Close); }
  }

  /** A connection that is told to keep waiting asks for close. */
  lemma RequeuePlaces(s: Lists, i: nat)
    requires Sound(s) && Enabled(s, Requeue(i))
    ensures var c, t := s.batchClose[i], Next(s, Requeue(i));
            s.Conn(c) && OthersStay(s, t, c) && t.open == s.open && |t.bits| == |s.bits| && Records(s, t, c, false, true)
  {
    var c := s.batchClose[i];
    assert c in s.batchClose;
    DrainedEnlistable(s, c);
    EnlistedPlaces(s, c, Close);
  }

  /** A closed connection is off both lists and has no socket. */
  lemma CloseConnPlaces(s: Lists, c: int)
    requires Sound(s) && s.Conn(c)
    ensures var t := Next(s, CloseConn(c));
            OthersStay(s, t, c) && c !in t.io && c !in t.close && |t.open| == |s.bits| && !t.open[c] && t.bits == s.bits
  {
    WithoutMembers(s.io, c);
    WithoutMembers(s.close, c);
  }

  /** Closed from the batch it is off that too. */
  lemma NukePlaces(s: Lists, i: nat)
    requires Sound(s) && Enabled(s, Nuke(i))
    ensures var c, t := s.batchClose[i], Next(s, Nuke(i));
            && s.Conn(c) && |t.bits| == |s.bits| == |t.open| && c !in t.io && c !in t.close && !t.Drained(c) && !t.open[c]
            && t.batchIo == s.batchIo && t.batchClose == s.batchClose[i := -1]
            && OthersStay(s, t.(batchClose := s.batchClose), c)
  {
    var c, t := s.batchClose[i], Next(s, Nuke(i));
    assert c in s.batchClose;
    WithoutMembers(s.io, c);
    WithoutMembers(s.close, c);
    forall j | 0 <= j < |t.batchClose| ensures t.batchClose[j] != c { }
  }

  /** The first max - 1 of the list go to the batch in their order and are marked; the others stay in theirs. */
  ghost predicate Drains(list: seq<int>, left: seq<int>, batch: seq<int>, max: nat) {
    list == batch + left && |batch| <= max - 1 && (left == [] || |batch| == max - 1)
  }

  lemma DrainPlaces(s: Lists, max: nat, checkClose: bool)
    requires Sound(s) && Enabled(s, Drain(max, checkClose))
    ensures var t := Next(s, Drain(max, checkClose));
            && Drains(s.io, t.io, t.batchIo, max) && t.open == s.open && |t.bits| == |s.bits|
            && (if checkClose then Drains(s.close, t.close, t.batchClose, max) else t.close == s.close && t.batchClose == [])
            && (forall c :: s.Conn(c) ==> t.bits[c].processing == (c in t.batchIo || c in t.batchClose)
                                          && !t.bits[c].reqIo && !t.bits[c].reqClose)
  {
    DrainSound(s, max, checkClose);
    TakenDrains(s.io, max);
    TakenDrains(s.close, max);
    DrainMarks(s, max, checkClose);
  }

  lemma TakenDrains(l: seq<int>, max: nat)
    requires max >= 1
    ensures Drains(l, Left(l, max), Taken(l, max), max)
  {
    assert l == Taken(l, max) + Left(l, max);
  }

  lemma DrainMarks(s: Lists, max: nat, checkClose: bool)
    requires Sound(s) && Enabled(s, Drain(max, checkClose))
    ensures var t := Next(s, Drain(max, checkClose));
            && |t.bits| == |s.bits|
            && (forall c :: s.Conn(c) ==> t.bits[c].processing == (c in t.batchIo || c in t.batchClose)
                                          && !t.bits[c].reqIo && !t.bits[c].reqClose)
  {
    assert forall c :: s.Conn(c) ==> s.bits[c] == Idle;
  }

  /** An operation that completes while its connection is drained and its socket valid is served when the batch ends, whatever happens between. */
  lemma CompletedIoIsServed(s: Lists, steps: seq<Step>, c: int)
    requires Sound(s) && s.Conn(c) && s.Drained(c) && s.open[c]
    requires Runs(s, [IoDone(c)] + steps) && AllSpare(s, [IoDone(c)] + steps, c)
    ensures var t := End(s, [IoDone(c)] + steps);
            Sound(t) && c in FinalizeBoth(t).io && c !in FinalizeBoth(t).close
  {
    var all := [IoDone(c)] + steps;
    assert all[0] == IoDone(c) && all[1..] == steps;
    IoDonePlaces(s, c);
    StepSound(s, IoDone(c));
    var t := Next(s, IoDone(c));
    assert t.Drained(c) && Asked(t, c);
    DeferredIoIsServed(t, steps, c);
  }
}
