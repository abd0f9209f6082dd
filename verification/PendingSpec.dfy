/**
  The pending-io and pending-close lists of a worker thread as a state machine: each step is
  one section of code that runs with the thread's lock held.
  */
module PendingSpec {

  /** The list_state bits of a connection. */
  datatype Bits = Bits(processing: bool, reqIo: bool, reqClose: bool)

  const Idle := Bits(false, false, false)

  datatype Which = Io | Close

  /**
    The two lists, the bits and the sockets of all connections, and the two arrays of the
    batch being processed; a NULL slot of the close array is -1.
    */
  datatype Lists = Lists(io: seq<int>, close: seq<int>, bits: seq<Bits>, open: seq<bool>,
                         batchIo: seq<int>, batchClose: seq<int>)
  {
    predicate Conn(c: int) { 0 <= c < |bits| }

    predicate Drained(c: int) { c in batchIo || c in batchClose }
  }

  ghost predicate NoRepeat(s: seq<int>) {
    forall i, j :: 0 <= i < j < |s| ==> s[i] != s[j]
  }

  ghost predicate Apart(a: seq<int>, b: seq<int>) {
    forall c :: c in a ==> c !in b
  }

  ghost predicate NoRepeatSlots(s: seq<int>) {
    forall i, j :: 0 <= i < j < |s| && s[i] >= 0 ==> s[i] != s[j]
  }

  /** What holds whenever the lock is free. */
  ghost predicate Sound(s: Lists) {
    && |s.open| == |s.bits|
    && NoRepeat(s.io) && NoRepeat(s.close) && Apart(s.io, s.close)
    && (forall c :: c in s.io || c in s.close ==> s.Conn(c) && s.bits[c] == Idle)
    && NoRepeatSlots(s.batchIo) && NoRepeatSlots(s.batchClose)
    && (forall c :: c in s.batchIo ==> s.Conn(c) && c !in s.batchClose)
    && (forall c :: c in s.batchClose ==> c == -1 || s.Conn(c))
    && (forall c :: s.Conn(c) ==> (s.bits[c].processing <==> s.Drained(c)))
    && (forall c :: s.Conn(c) && !s.bits[c].processing ==> s.bits[c] == Idle)
  }

  // ---------- the list operations ----------

  /** list_remove. */
  function Without(s: seq<int>, c: int): seq<int> {
    if s == [] then []
    else if s[0] == c then s[1..]
    else [s[0]] + Without(s[1..], c)
  }

  lemma TailNoRepeat(s: seq<int>)
    requires s != [] && NoRepeat(s)
    ensures NoRepeat(s[1..]) && s[0] !in s[1..]
    ensures forall x :: x in s <==> x == s[0] || x in s[1..]
  {
    assert forall j :: 0 <= j < |s[1..]| ==> s[1..][j] == s[j + 1];
    assert s == [s[0]] + s[1..];
  }

  lemma ConsNoRepeat(x: int, s: seq<int>)
    requires NoRepeat(s) && x !in s
    ensures NoRepeat([x] + s)
  {
    var t := [x] + s;
    forall i, j | 0 <= i < j < |t| ensures t[i] != t[j] {
      assert t[j] == s[j - 1];
    }
  }

  lemma {:induction false} WithoutMembers(s: seq<int>, c: int)
    requires NoRepeat(s)
    ensures NoRepeat(Without(s, c))
    ensures forall x :: x in Without(s, c) <==> x in s && x != c
  {
    if s != [] {
      TailNoRepeat(s);
      WithoutMembers(s[1..], c);
      if s[0] != c {
        ConsNoRepeat(s[0], Without(s[1..], c));
      }
    }
  }

  function Removed(s: Lists, c: int, w: Which): Lists {
    if w == Io then s.(io := Without(s.io, c)) else s.(close := Without(s.close, c))
  }

  /** enlist_conn. */
  function Enlisted(s: Lists, c: int, w: Which): Lists
    requires s.Conn(c)
  {
    if !s.bits[c].processing then
      if w == Io then s.(io := [c] + s.io) else s.(close := [c] + s.close)
    else if w == Io then s.(bits := s.bits[c := s.bits[c].(reqIo := true)])
    else s.(bits := s.bits[c := s.bits[c].(reqClose := true)])
  }

  lemma RemovedSound(s: Lists, c: int, w: Which)
    requires Sound(s)
    ensures Sound(Removed(s, c, w))
  {
    WithoutMembers(s.io, c);
    WithoutMembers(s.close, c);
  }

  /** The asserts at the head of enlist_conn, as far as they speak of the lists. */
  predicate Enlistable(s: Lists, c: int) {
    s.Conn(c) && (!s.bits[c].processing ==> c !in s.io && c !in s.close)
  }

  lemma EnlistedSound(s: Lists, c: int, w: Which)
    requires Sound(s) && Enlistable(s, c)
    ensures Sound(Enlisted(s, c, w))
  {
    var t := Enlisted(s, c, w);
    forall x | x in t.io || x in t.close ensures t.Conn(x) && t.bits[x] == Idle {
      assert x == c || x in s.io || x in s.close;
    }
    assert NoRepeat(t.io) && NoRepeat(t.close);
  }

  /** Nothing drained is on a list, so it can always be enlisted, and then only a bit is set. */
  lemma DrainedEnlistable(s: Lists, c: int)
    requires Sound(s) && s.Conn(c) && s.Drained(c)
    ensures Enlistable(s, c) && c !in s.io && c !in s.close
  {
  }

  // ---------- draining: list_to_array ----------

  function Min(a: nat, b: nat): nat { if a < b then a else b }

  /** Set the PROCESSING bit of the connections taken. */
  function Marked(bits: seq<Bits>, taken: seq<int>): (r: seq<Bits>)
    ensures |r| == |bits|
    ensures forall c :: 0 <= c < |bits| ==> r[c] == if c in taken then bits[c].(processing := true) else bits[c]
    decreases |taken|
  {
    if taken == [] then bits
    else
      var b := Marked(bits, taken[..|taken| - 1]);
      var x := taken[|taken| - 1];
      assert taken == taken[..|taken| - 1] + [x];
      if 0 <= x < |bits| then b[x := b[x].(processing := true)] else b
  }

  /** At most max - 1 connections leave the front of the list. */
  function Taken(l: seq<int>, max: nat): seq<int>
    requires max >= 1
  {
    l[..Min(|l|, max - 1)]
  }

  function Left(l: seq<int>, max: nat): seq<int>
    requires max >= 1
  {
    l[Min(|l|, max - 1)..]
  }

  /** list_to_array on one list. */
  function DrainOne(s: Lists, max: nat, w: Which): Lists
    requires max >= 1
  {
    if w == Io then
      s.(io := Left(s.io, max), bits := Marked(s.bits, Taken(s.io, max)), batchIo := Taken(s.io, max))
    else
      s.(close := Left(s.close, max), bits := Marked(s.bits, Taken(s.close, max)), batchClose := Taken(s.close, max))
  }

  /** The section at the head of libevent_tap_process: the close list when its time has come, then the io list. */
  function DrainBoth(s: Lists, max: nat, checkClose: bool): Lists
    requires max >= 1
  {
    DrainOne(if checkClose then DrainOne(s, max, Close) else s, max, Io)
  }

  lemma TakenLeft(l: seq<int>, max: nat)
    requires max >= 1 && NoRepeat(l)
    ensures NoRepeat(Taken(l, max)) && NoRepeat(Left(l, max)) && Apart(Taken(l, max), Left(l, max))
    ensures forall c :: c in l <==> c in Taken(l, max) || c in Left(l, max)
  {
    assert l == Taken(l, max) + Left(l, max);
    var k := Min(|l|, max - 1);
    assert forall j :: 0 <= j < |l| - k ==> Left(l, max)[j] == l[k + j];
  }

  lemma DrainSound(s: Lists, max: nat, checkClose: bool)
    requires Sound(s) && max >= 1 && s.batchIo == [] && s.batchClose == []
    ensures Sound(DrainBoth(s, max, checkClose))
  {
    TakenLeft(s.io, max);
    TakenLeft(s.close, max);
  }

  // ---------- finalize_list ----------

  /** One slot: drop the bit, serve the recorded request, io before close, forget the rest. */
  function Finalized1(s: Lists, c: int): Lists {
    if !s.Conn(c) || |s.open| != |s.bits| then s
    else
      var b := s.bits[c];
      var t := s.(bits := s.bits[c := b.(processing := false)]);
      var u := if !s.open[c] then t
               else if b.reqIo then Enlisted(t, c, Io)
               else if b.reqClose then Enlisted(t, c, Close)
               else t;
      u.(bits := u.bits[c := Idle])
  }

  function Finalized(s: Lists, slots: seq<int>): Lists
    decreases |slots|
  {
    if slots == [] then s else Finalized(Finalized1(s, slots[0]), slots[1..])
  }

  function FinalizeBoth(s: Lists): Lists {
    Finalized(Finalized(s, s.batchIo), s.batchClose).(batchIo := [], batchClose := [])
  }

  /** Sound but for the given slots, which are still marked. */
  ghost predicate SoundBut(s: Lists, slots: seq<int>) {
    && |s.open| == |s.bits|
    && NoRepeat(s.io) && NoRepeat(s.close) && Apart(s.io, s.close)
    && (forall c :: c in s.io || c in s.close ==> s.Conn(c) && s.bits[c] == Idle)
    && NoRepeatSlots(slots)
    && (forall c :: c in slots ==> c == -1 || s.Conn(c))
    && (forall c :: s.Conn(c) ==> (s.bits[c].processing <==> c in slots))
    && (forall c :: s.Conn(c) && !s.bits[c].processing ==> s.bits[c] == Idle)
  }

  /** Where one drained connection ends up. */
  ghost predicate PlacedAs(s: Lists, t: Lists, c: int) {
    && s.Conn(c) && |s.open| == |s.bits| && |t.bits| == |s.bits|
    && (c in t.io <==> s.open[c] && s.bits[c].reqIo)
    && (c in t.close <==> s.open[c] && !s.bits[c].reqIo && s.bits[c].reqClose)
    && t.bits[c] == Idle
  }

  ghost predicate UntouchedAs(s: Lists, t: Lists, c: int) {
    && (c in t.io <==> c in s.io) && (c in t.close <==> c in s.close)
    && (s.Conn(c) && |t.bits| == |s.bits| ==> t.bits[c] == s.bits[c])
  }

  lemma TailSlots(slots: seq<int>)
    requires slots != [] && NoRepeatSlots(slots)
    ensures NoRepeatSlots(slots[1..]) && (slots[0] >= 0 ==> slots[0] !in slots[1..])
    ensures forall x :: x in slots <==> x == slots[0] || x in slots[1..]
  {
    assert forall j :: 0 <= j < |slots[1..]| ==> slots[1..][j] == slots[j + 1];
    assert slots == [slots[0]] + slots[1..];
  }

  lemma Finalized1Keeps(s: Lists, slots: seq<int>)
    requires slots != [] && SoundBut(s, slots)
    ensures var t := Finalized1(s, slots[0]);
            && SoundBut(t, slots[1..]) && t.open == s.open && |t.bits| == |s.bits|
            && (slots[0] >= 0 ==> PlacedAs(s, t, slots[0]))
            && forall c :: c != slots[0] ==> UntouchedAs(s, t, c)
  {
    TailSlots(slots);
    var c := slots[0];
    assert c in slots;
    if c >= 0 {
      assert s.bits[c].processing;
      assert c !in s.io && c !in s.close;
      ConsNoRepeat(c, s.io);
      ConsNoRepeat(c, s.close);
      Finalized1Lists(s, c);
    }
  }

  /** The slot's connection goes to the front of the list it asked for. */
  lemma Finalized1Lists(s: Lists, c: int)
    requires s.Conn(c) && |s.open| == |s.bits|
    ensures var t := Finalized1(s, c);
            && t.bits == s.bits[c := Idle] && t.open == s.open
            && t.io == (if s.open[c] && s.bits[c].reqIo then [c] + s.io else s.io)
            && t.close == (if s.open[c] && !s.bits[c].reqIo && s.bits[c].reqClose then [c] + s.close else s.close)
  {
    var t := Finalized1(s, c);
    assert s.bits[c := s.bits[c].(processing := false)][c := Idle] == s.bits[c := Idle];
  }

  lemma {:induction false} FinalizedKeeps(s: Lists, slots: seq<int>)
    requires SoundBut(s, slots)
    ensures var t := Finalized(s, slots);
            && SoundBut(t, []) && t.open == s.open && |t.bits| == |s.bits|
            && (forall c :: c in slots && c >= 0 ==> PlacedAs(s, t, c))
            && (forall c :: c !in slots ==> UntouchedAs(s, t, c))
    decreases |slots|
  {
    if slots != [] {
      Finalized1Keeps(s, slots);
      var u := Finalized1(s, slots[0]);
      FinalizedKeeps(u, slots[1..]);
      var t := Finalized(s, slots);
      TailSlots(slots);
      forall c | c in slots && c >= 0 ensures PlacedAs(s, t, c) {
        if c == slots[0] {
          assert UntouchedAs(u, t, c);
        } else {
          assert UntouchedAs(s, u, c) && PlacedAs(u, t, c);
        }
      }
      forall c | c !in slots ensures UntouchedAs(s, t, c) {
        assert UntouchedAs(s, u, c) && UntouchedAs(u, t, c);
      }
    }
  }

  lemma {:induction false} FinalizedConcat(s: Lists, a: seq<int>, b: seq<int>)
    ensures Finalized(Finalized(s, a), b) == Finalized(s, a + b)
    decreases |a|
  {
    if a == [] {
      assert a + b == b;
    } else {
      assert (a + b)[0] == a[0] && (a + b)[1..] == a[1..] + b;
      FinalizedConcat(Finalized1(s, a[0]), a[1..], b);
    }
  }

  lemma BatchSoundBut(s: Lists)
    requires Sound(s)
    ensures SoundBut(s, s.batchIo + s.batchClose)
  {
    var slots := s.batchIo + s.batchClose;
    forall i, j | 0 <= i < j < |slots| && slots[i] >= 0 ensures slots[i] != slots[j] {
      if i < |s.batchIo| <= j {
        assert slots[i] in s.batchIo && slots[j] == s.batchClose[j - |s.batchIo|];
      } else if i >= |s.batchIo| {
        assert slots[i] == s.batchClose[i - |s.batchIo|] && slots[j] == s.batchClose[j - |s.batchIo|];
      }
    }
  }

  /**
    After the batch every drained connection with an open socket and a recorded request is on
    exactly one list, io preferred; the other drained ones are on none; nothing else moves.
    */
  lemma FinalizePlaces(s: Lists)
    requires Sound(s)
    ensures var t := FinalizeBoth(s);
            && Sound(t)
            && (forall c :: s.Conn(c) && s.Drained(c) ==> PlacedAs(s, t, c))
            && (forall c :: s.Conn(c) && !s.Drained(c) ==> UntouchedAs(s, t, c))
  {
    FinalizedConcat(s, s.batchIo, s.batchClose);
    BatchSoundBut(s);
    FinalizedKeeps(s, s.batchIo + s.batchClose);
  }

  // ---------- the steps ----------

  datatype Step =
    | Drain(max: nat, checkClose: bool)
    /** the close loop of libevent_tap_process: keep waiting, or close the connection of a slot */
    | Requeue(slot: nat)
    | Nuke(slot: nat)
    | Finalize
    /** notify_io_complete: engine disconnect of a tap connection */
    | TapDisconnect(conn: int, closing: bool, lastRef: bool)
    /** notify_io_complete: engine disconnect of any other connection; also conn_pending_close */
    | Disconnect(conn: int)
    /** notify_io_complete: the operation is done */
    | IoDone(conn: int)
    /** conn_close from the state machine of a connection */
    | CloseConn(conn: int)
    /** conn_closing gives the socket back, without the lock */
    | SocketGone(conn: int)

  predicate Enabled(s: Lists, a: Step) {
    match a
    case Drain(max, _) => max >= 1 && s.batchIo == [] && s.batchClose == []
    case Requeue(i) => i < |s.batchClose| && s.batchClose[i] >= 0
    case Nuke(i) => i < |s.batchClose| && s.batchClose[i] >= 0
    case Finalize => true
    case TapDisconnect(c, _, _) => s.Conn(c)
    case Disconnect(c) => s.Conn(c)
    case IoDone(c) => s.Conn(c)
    case CloseConn(c) => s.Conn(c)
    case SocketGone(c) => s.Conn(c) && c < |s.open|
  }

  /** conn_close: off both lists, socket invalid. */
  function ConnClosed(s: Lists, c: int): Lists {
    var t := Removed(Removed(s, c, Io), c, Close);
    if 0 <= c < |t.open| then t.(open := t.open[c := false]) else t
  }

  /** What the step does; every enlist_conn in it is shown to find its asserts true. */
  function Next(s: Lists, a: Step): Lists
    requires Sound(s) && Enabled(s, a)
  {
    match a
    case Drain(max, checkClose) => DrainBoth(s, max, checkClose)
    case Requeue(i) =>
      assert s.batchClose[i] in s.batchClose;
      Enlisted(s, s.batchClose[i], Close)
    case Nuke(i) =>
      var c := s.batchClose[i];
      assert c in s.batchClose;
      var t := ConnClosed(s, c);
      // a closed connection is off the batch as well, and its bits mean nothing any more
      t.(batchClose := s.batchClose[i := -1], bits := t.bits[c := Idle])
    case Finalize => FinalizeBoth(s)
    case TapDisconnect(c, closing, lastRef) =>
      var t := Removed(Removed(s, c, Io), c, Close);
      if closing then (if lastRef then Enlisted(t, c, Close) else t) else Enlisted(t, c, Io)
    case Disconnect(c) =>
      var t := Removed(s, c, Io);
      if c in t.close then t else Enlisted(t, c, Close)
    case IoDone(c) =>
      if c in s.io || c in s.close then s else Enlisted(s, c, Io)
    case CloseConn(c) => ConnClosed(s, c)
    case SocketGone(c) => s.(open := s.open[c := false])
  }

  /** Each call of enlist_conn a step makes, as the state it is made in. */
  ghost predicate AssertsHold(s: Lists, a: Step)
    requires Sound(s) && Enabled(s, a)
  {
    match a
    case Requeue(i) => Enlistable(s, s.batchClose[i])
    case TapDisconnect(c, closing, lastRef) =>
      !closing || lastRef ==> Enlistable(Removed(Removed(s, c, Io), c, Close), c)
    case Disconnect(c) => c !in s.close ==> Enlistable(Removed(s, c, Io), c)
    case IoDone(c) => c !in s.io && c !in s.close ==> Enlistable(s, c)
    case _ => true
  }

  lemma RemovedBoth(s: Lists, c: int)
    requires Sound(s) && s.Conn(c)
    ensures var t := Removed(Removed(s, c, Io), c, Close);
            Sound(t) && c !in t.io && c !in t.close && Enlistable(t, c)
  {
    RemovedSound(s, c, Io);
    RemovedSound(Removed(s, c, Io), c, Close);
    WithoutMembers(s.io, c);
    WithoutMembers(s.close, c);
  }

  lemma StepSound(s: Lists, a: Step)
    requires Sound(s) && Enabled(s, a)
    ensures Sound(Next(s, a)) && AssertsHold(s, a)
  {
    match a
    case Drain(max, checkClose) => DrainSound(s, max, checkClose);
    case Requeue(i) =>
      assert s.batchClose[i] in s.batchClose;
      DrainedEnlistable(s, s.batchClose[i]);
      EnlistedSound(s, s.batchClose[i], Close);
    case Nuke(i) => NukeSound(s, i);
    case Finalize => FinalizePlaces(s);
    case TapDisconnect(c, closing, lastRef) =>
      RemovedBoth(s, c);
      var t := Removed(Removed(s, c, Io), c, Close);
      EnlistedSound(t, c, Close);
      EnlistedSound(t, c, Io);
    case Disconnect(c) =>
      RemovedSound(s, c, Io);
      WithoutMembers(s.io, c);
      if c !in s.close { EnlistedSound(Removed(s, c, Io), c, Close); }
    case IoDone(c) =>
      if c !in s.io && c !in s.close { EnlistedSound(s, c, Io); }
    case CloseConn(c) => RemovedBoth(s, c);
    case SocketGone(c) =>
  }

  lemma NukeSound(s: Lists, i: nat)
    requires Sound(s) && Enabled(s, Nuke(i))
    ensures Sound(Next(s, Nuke(i)))
  {
    var c := s.batchClose[i];
    assert c in s.batchClose;
    RemovedBoth(s, c);
    var t := Next(s, Nuke(i));
    assert forall j :: 0 <= j < |t.batchClose| ==> t.batchClose[j] != c;
    forall x | x != c ensures x in t.batchClose <==> x in s.batchClose || x == -1 {
      if x in s.batchClose {
        var j :| 0 <= j < |s.batchClose| && s.batchClose[j] == x;
        assert t.batchClose[j] == x;
      }
      assert t.batchClose[i] == -1;
    }
  }

  // ---------- all interleavings ----------

  /** Every step finds itself enabled in the state the steps before it leave. */
  ghost predicate Runs(s: Lists, steps: seq<Step>)
    requires Sound(s)
    decreases |steps|
  {
    steps == [] ||
    (Enabled(s, steps[0]) && (StepSound(s, steps[0]); Runs(Next(s, steps[0]), steps[1..])))
  }

  ghost function End(s: Lists, steps: seq<Step>): Lists
    requires Sound(s) && Runs(s, steps)
    decreases |steps|
  {
    if steps == [] then s
    else
      StepSound(s, steps[0]);
      End(Next(s, steps[0]), steps[1..])
  }

  /** Main result: in whatever order the steps come, every state on the way is sound and every assert of enlist_conn holds. */
  lemma {:induction false} EveryRunSound(s: Lists, steps: seq<Step>, n: nat)
    requires Sound(s) && Runs(s, steps) && n <= |steps|
    ensures Runs(s, steps[..n]) && Sound(End(s, steps[..n]))
    ensures n < |steps| ==> Enabled(End(s, steps[..n]), steps[n]) && AssertsHold(End(s, steps[..n]), steps[n])
    decreases |steps|
  {
    if n > 0 {
      StepSound(s, steps[0]);
      EveryRunSound(Next(s, steps[0]), steps[1..], n - 1);
      assert steps[..n][1..] == steps[1..][..n - 1];
    } else {
      assert steps[..n] == [];
      if steps != [] { StepSound(s, steps[0]); }
    }
  }

  /** Before anything is enlisted. */
  function Fresh(open: seq<bool>): Lists {
    Lists([], [], seq(|open|, _ => Idle), open, [], [])
  }

  lemma FreshSound(open: seq<bool>)
    ensures Sound(Fresh(open))
  {
  }

  /** A step that neither ends the batch nor takes c's socket away. */
  predicate Spares(s: Lists, a: Step, c: int) {
    match a
    case Finalize => false
    case Nuke(i) => i < |s.batchClose| && s.batchClose[i] != c
    case CloseConn(d) => d != c
    case SocketGone(d) => d != c
    case _ => true
  }

  ghost predicate AllSpare(s: Lists, steps: seq<Step>, c: int)
    requires Sound(s) && Runs(s, steps)
    decreases |steps|
  {
    steps == [] ||
    (Spares(s, steps[0], c) && (StepSound(s, steps[0]); AllSpare(Next(s, steps[0]), steps[1..], c)))
  }

  ghost predicate Asked(s: Lists, c: int) {
    s.Conn(c) && |s.open| == |s.bits| && s.Drained(c) && s.open[c] && s.bits[c].reqIo
  }

  /** A deferred request stands until the batch is finished. */
  lemma RequestStands(s: Lists, a: Step, c: int)
    requires Sound(s) && Enabled(s, a) && Spares(s, a, c) && Asked(s, c)
    ensures Asked(Next(s, a), c)
  {
    match a
    case Nuke(i) =>
      var d := s.batchClose[i];
      var t := Next(s, a);
      assert d in s.batchClose;
      assert t.bits == s.bits[d := Idle] && t.open == s.open[d := false];
      assert t.batchIo == s.batchIo && t.batchClose == s.batchClose[i := -1];
      if c in s.batchClose {
        var j :| 0 <= j < |s.batchClose| && s.batchClose[j] == c;
        assert t.batchClose[j] == c;
      }
    case _ =>
  }

  /** An operation that completes while its connection is drained is never lost: finishing the batch lists it. */
  lemma {:induction false} DeferredIoIsServed(s: Lists, steps: seq<Step>, c: int)
    requires Sound(s) && Asked(s, c) && Runs(s, steps) && AllSpare(s, steps, c)
    ensures var t := End(s, steps); Sound(t) && c in FinalizeBoth(t).io && c !in FinalizeBoth(t).close
    decreases |steps|
  {
    if steps == [] {
      FinalizePlaces(s);
      assert PlacedAs(s, FinalizeBoth(s), c);
    } else {
      RequestStands(s, steps[0], c);
      StepSound(s, steps[0]);
      DeferredIoIsServed(Next(s, steps[0]), steps[1..], c);
    }
  }

  /**
    A connection told to keep waiting is listed again exactly when its socket is still valid;
    one that gave its socket back, as conn_pending_close has, drops off both lists.
    */
  lemma KeepsWaiting(s: Lists, i: nat)
    requires Sound(s) && Enabled(s, Requeue(i))
    ensures var c := s.batchClose[i]; var u := Next(s, Requeue(i));
            Sound(u) && s.Conn(c) && |s.open| == |s.bits|
            && (c in FinalizeBoth(u).io || c in FinalizeBoth(u).close <==> s.open[c])
  {
    var c := s.batchClose[i];
    assert c in s.batchClose;
    StepSound(s, Requeue(i));
    var u := Next(s, Requeue(i));
    FinalizePlaces(u);
    assert PlacedAs(u, FinalizeBoth(u), c);
  }
}
