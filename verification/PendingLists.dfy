/**
  The pending lists as the worker threads keep them: two heads and one `next` link per
  connection. Each method that is a section run under the thread's lock makes exactly the
  step of PendingSpec it is named after.
  */
module PendingLists {

  import opened Basics
  import opened CycleCheck
  import opened PendingSpec

  /** Following `next` from head visits exactly s. */
  ghost predicate Chain(next: seq<int>, head: int, s: seq<int>)
    decreases |s|
  {
    if s == [] then head == NULL
    else head == s[0] && 0 <= head < |next| && Chain(next, next[head], s[1..])
  }

  lemma {:induction false} ChainKept(next: seq<int>, after: seq<int>, head: int, s: seq<int>)
    requires Chain(next, head, s) && |after| == |next|
    requires forall x :: x in s && 0 <= x < |next| ==> after[x] == next[x]
    ensures Chain(after, head, s)
    decreases |s|
  {
    if s != [] {
      assert s[0] in s && forall x :: x in s[1..] ==> x in s;
      ChainKept(next, after, next[head], s[1..]);
    }
  }

  /** A list that ends has no cycle. */
  lemma {:induction false} ChainEnds(next: seq<int>, head: int, s: seq<int>)
    requires Closed(next) && NULL <= head < |next| && Chain(next, head, s)
    ensures Nth(next, head, |s|) == NULL
    decreases |s|
  {
    if s != [] {
      ChainEnds(next, next[head], s[1..]);
      assert Nth(next, head, 1) == next[head] by { assert Nth(next, head, 0) == head; }
      NthSplit(next, head, 1, |s[1..]|);
    }
  }

  lemma ChainHasNoCycle(next: seq<int>, head: int, s: seq<int>)
    requires Closed(next) && NULL <= head < |next| && Chain(next, head, s)
    ensures !CycleReachable(next, head)
  {
    if head == NULL {
      NullHasNoCycle(next);
    } else {
      ChainEnds(next, head, s);
      EndsSo(next, head, |s|);
    }
  }

  ghost predicate OffListsClear(next: seq<int>, io: seq<int>, close: seq<int>) {
    forall x :: 0 <= x < |next| && x !in io && x !in close ==> next[x] == NULL
  }

  /** The links once c has been taken out of the list s. */
  lemma Dropped(before: seq<int>, after: seq<int>, s: seq<int>, other: int, o: seq<int>, c: int)
    requires |before| == |after| && NoRepeat(s) && Apart(s, o) && Chain(before, other, o) && OffListsClear(before, s, o)
    requires c in s ==> 0 <= c < |after| && after[c] == NULL
    requires forall x :: 0 <= x < |after| && x !in s ==> after[x] == before[x]
    ensures Chain(after, other, o) && NoRepeat(Without(s, c)) && Apart(Without(s, c), o) && Apart(o, Without(s, c))
    ensures OffListsClear(after, Without(s, c), o) && OffListsClear(after, o, Without(s, c))
  {
    WithoutMembers(s, c);
    ChainKept(before, after, other, o);
  }

  lemma Pushed(before: seq<int>, after: seq<int>, c: int, head: int, s: seq<int>, other: int, o: seq<int>)
    requires Closed(before) && NULL <= head < |before| && 0 <= c < |before| && after == before[c := head]
    requires Chain(before, head, s) && Chain(before, other, o) && OffListsClear(before, s, o)
    requires c !in s && c !in o && NoRepeat(s) && Apart(s, o)
    ensures Closed(after) && Chain(after, c, [c] + s) && Chain(after, other, o)
    ensures NoRepeat([c] + s) && Apart([c] + s, o) && Apart(o, [c] + s)
    ensures OffListsClear(after, [c] + s, o) && OffListsClear(after, o, [c] + s)
  {
    ChainKept(before, after, head, s);
    ChainKept(before, after, other, o);
    assert ([c] + s)[1..] == s;
    ConsNoRepeat(c, s);
  }

  lemma Popped(before: seq<int>, after: seq<int>, s: seq<int>, other: int, o: seq<int>)
    requires s != [] && Chain(before, s[0], s) && after == before[s[0] := NULL]
    requires Closed(before) && Chain(before, other, o) && OffListsClear(before, s, o)
    requires NoRepeat(s) && Apart(s, o)
    ensures Closed(after) && Chain(after, before[s[0]], s[1..]) && Chain(after, other, o)
    ensures NoRepeat(s[1..]) && Apart(s[1..], o) && Apart(o, s[1..])
    ensures OffListsClear(after, s[1..], o) && OffListsClear(after, o, s[1..])
  {
    TailNoRepeat(s);
    assert s[0] in s;
    ChainKept(before, after, before[s[0]], s[1..]);
    ChainKept(before, after, other, o);
  }

  function Flip(w: Which): Which { if w == Io then Close else Io }

  lemma TakenMore(bits: seq<Bits>, all: seq<int>, n: nat)
    requires n < |all| && 0 <= all[n] < |bits|
    ensures all[n..][1..] == all[n + 1..] && all[..n + 1] == all[..n] + [all[n]]
    ensures var m := Marked(bits, all[..n]);
            Marked(bits, all[..n + 1]) == m[all[n] := m[all[n]].(processing := true)]
  {
    assert all[..n + 1][..n] == all[..n];
  }

  class Thread {
    const next: array<int>
    const bits: array<Bits>
    const open: array<bool>
    var pendingIo: int
    var pendingClose: int
    // the two arrays on the stack of libevent_tap_process
    const ioBatch: array<int>
    const closeBatch: array<int>
    var nIo: nat
    var nClose: nat
    ghost var io: seq<int>
    ghost var close: seq<int>

    /** No connection is on a list yet; max is the size of the two arrays. */
    constructor (connections: nat, max: nat)
      ensures Valid() && BatchesFit() && State() == Fresh(seq(connections, _ => true)) && Sound(State())
      ensures fresh(next) && fresh(bits) && fresh(open) && fresh(ioBatch) && fresh(closeBatch)
      ensures ioBatch.Length == closeBatch.Length == max
    {
      next := new int[connections](_ => NULL);
      bits := new Bits[connections](_ => Idle);
      open := new bool[connections](_ => true);
      ioBatch := new int[max](_ => NULL);
      closeBatch := new int[max](_ => NULL);
      pendingIo, pendingClose, nIo, nClose := NULL, NULL, 0, 0;
      io, close := [], [];
      new;
      FreshSound(seq(connections, _ => true));
      assert open[..] == seq(connections, _ => true);
      assert bits[..] == seq(connections, _ => Idle);
    }

    /** The links spell out the two lists and nothing else is linked. */
    ghost predicate Valid()
      reads this`pendingIo, this`pendingClose, this`io, this`close, next
    {
      && next.Length == bits.Length == open.Length
      && next != ioBatch && next != closeBatch && ioBatch != closeBatch
      && Closed(next[..])
      && Chain(next[..], pendingIo, io) && Chain(next[..], pendingClose, close)
      && NoRepeat(io) && NoRepeat(close) && Apart(io, close)
      && OffListsClear(next[..], io, close)
    }

    ghost function List(w: Which): seq<int>
      reads this`io, this`close
    {
      if w == Io then io else close
    }

    predicate BatchesFit()
      reads this`nIo, this`nClose
    {
      nIo <= ioBatch.Length && nClose <= closeBatch.Length
    }

    ghost function State(): Lists
      reads this, bits, open, ioBatch, closeBatch
      requires BatchesFit()
    {
      Lists(io, close, bits[..], open[..], ioBatch[..nIo], closeBatch[..nClose])
    }

    function Head(w: Which): int
      reads this`pendingIo, this`pendingClose
    {
      if w == Io then pendingIo else pendingClose
    }

    /** list_contains. */
    method ListContains(haystack: int, needle: int, ghost s: seq<int>) returns (found: bool)
      requires Chain(next[..], haystack, s)
      ensures found <==> needle in s
    {
      var at := haystack;
      ghost var rest := s;
      while at != NULL
        invariant Chain(next[..], at, rest)
        invariant needle in s <==> needle in rest
        decreases |rest|
      {
        if needle == at { return true; }
        assert rest == [rest[0]] + rest[1..];
        at := next[at];
        rest := rest[1..];
      }
      return false;
    }

    /** number_of_pending. */
    method NumberPending(c: int, list: int, ghost s: seq<int>) returns (n: nat)
      requires Chain(next[..], list, s) && NoRepeat(s)
      ensures n == if c in s then 1 else 0
    {
      n := 0;
      var at := list;
      ghost var rest := s;
      while at != NULL
        invariant Chain(next[..], at, rest) && NoRepeat(rest)
        invariant n + (if c in rest then 1 else 0) == if c in s then 1 else 0
        decreases |rest|
      {
        TailNoRepeat(rest);
        if at == c { n := n + 1; }
        at := next[at];
        rest := rest[1..];
      }
    }

    /** list_remove: the link of what is left over is written back on the way out. */
    method ListRemove(haystack: int, needle: int, ghost s: seq<int>) returns (head: int)
      requires Closed(next[..]) && Chain(next[..], haystack, s) && NoRepeat(s)
      modifies next
      ensures Closed(next[..]) && NULL <= head < next.Length
      ensures Chain(next[..], head, Without(s, needle))
      ensures needle in s ==> 0 <= needle < next.Length && next[needle] == NULL
      ensures forall x :: 0 <= x < next.Length && x !in s ==> next[x] == old(next[x])
      decreases |s|
    {
      if haystack == NULL { return NULL; }
      TailNoRepeat(s);
      if haystack == needle {
        head := next[needle];
        ghost var before := next[..];
        next[needle] := NULL;
        ChainKept(before, next[..], head, s[1..]);
        return;
      }
      var rest := ListRemove(next[haystack], needle, s[1..]);
      ghost var before := next[..];
      next[haystack] := rest;
      WithoutMembers(s[1..], needle);
      ChainKept(before, next[..], rest, Without(s[1..], needle));
      assert s[0] == haystack;
      assert ([haystack] + Without(s[1..], needle))[1..] == Without(s[1..], needle);
      return haystack;
    }

    /** `thr->pending_io = list_remove(thr->pending_io, c)`, or the same on pending_close. */
    method Remove(c: int, w: Which)
      requires Valid() && BatchesFit()
      modifies this`pendingIo, this`pendingClose, this`io, this`close, next
      ensures Valid() && State() == Removed(old(State()), c, w)
    {
      ghost var before := next[..];
      if w == Io {
        pendingIo := ListRemove(pendingIo, c, io);
        Dropped(before, next[..], io, pendingClose, close, c);
        io := Without(io, c);
      } else {
        pendingClose := ListRemove(pendingClose, c, close);
        Dropped(before, next[..], close, pendingIo, io, c);
        close := Without(close, c);
      }
    }

    /** The two assignments of enlist_conn that link c at the front. */
    method LinkIn(c: int, w: Which)
      requires Valid() && 0 <= c < next.Length && c !in io && c !in close
      modifies this`pendingIo, this`pendingClose, this`io, this`close, next
      ensures Valid()
      ensures io == (if w == Io then [c] + old(io) else old(io))
      ensures close == (if w == Io then old(close) else [c] + old(close))
      ensures (if w == Io then pendingIo else pendingClose) == c
    {
      ghost var before := next[..];
      if w == Io {
        next[c] := pendingIo;
        Pushed(before, next[..], c, pendingIo, io, pendingClose, close);
        pendingIo := c;
        io := [c] + io;
      } else {
        next[c] := pendingClose;
        Pushed(before, next[..], c, pendingClose, close, pendingIo, io);
        pendingClose := c;
        close := [c] + close;
      }
    }

    /** enlist_conn, with its asserts. */
    method EnlistConn(c: int, w: Which)
      requires Valid() && BatchesFit() && Enlistable(State(), c)
      modifies this`pendingIo, this`pendingClose, this`io, this`close, next, bits
      ensures Valid() && State() == Enlisted(old(State()), c, w)
    {
      if !bits[c].processing {
        var found := ListContains(pendingClose, c, close);
        assert !found;
        found := ListContains(pendingIo, c, io);
        assert !found;
        assert next[c] == NULL;
        LinkIn(c, w);
        ghost var mine := if w == Io then io else close;
        found := ListContains(c, c, mine);
        assert found;
        ChainHasNoCycle(next[..], c, mine);
        var cycle := HasCycle(next, c);
        assert !cycle;
      } else {
        bits[c] := if w == Io then bits[c].(reqIo := true) else bits[c].(reqClose := true);
      }
    }

    /** One round of list_to_array: the head leaves its list, marked. */
    method TakeHead(dest: array<int>, n: nat, w: Which)
      requires Valid() && List(w) != [] && dest != next && n < dest.Length
      modifies this`pendingIo, this`pendingClose, this`io, this`close, next, bits, dest
      ensures Valid() && 0 <= old(List(w)[0]) < next.Length
      ensures dest[..n + 1] == old(dest[..n]) + [old(List(w)[0])]
      ensures List(w) == old(List(w))[1..] && List(Flip(w)) == old(List(Flip(w)))
      ensures var c := old(List(w)[0]); bits[..] == old(bits[..])[c := old(bits[..])[c].(processing := true)]
    {
      ghost var before := next[..];
      dest[n] := Head(w);
      var c := dest[n];
      if w == Io {
        pendingIo := next[c];
        next[c] := NULL;
        Popped(before, next[..], io, pendingClose, close);
        io := io[1..];
      } else {
        pendingClose := next[c];
        next[c] := NULL;
        Popped(before, next[..], close, pendingIo, io);
        close := close[1..];
      }
      bits[c] := bits[c].(processing := true);
    }

    /** list_to_array. */
    method ListToArray(dest: array<int>, max: nat, w: Which) returns (n: nat)
      requires Valid() && 1 <= max <= dest.Length && dest != next
      modifies this`pendingIo, this`pendingClose, this`io, this`close, next, bits, dest
      ensures Valid() && n <= dest.Length && dest[..n] == Taken(old(List(w)), max)
      ensures List(w) == Left(old(List(w)), max) && List(Flip(w)) == old(List(Flip(w)))
      ensures bits[..] == Marked(old(bits[..]), dest[..n])
    {
      n := 0;
      ghost var all := List(w);
      ghost var bits0 := bits[..];
      while Head(w) != NULL && n < max - 1
        invariant Valid() && n <= max - 1 && n <= |all|
        invariant List(w) == all[n..] && List(Flip(w)) == old(List(Flip(w)))
        invariant dest[..n] == all[..n]
        invariant bits[..] == Marked(bits0, all[..n])
        decreases max - n
      {
        TakeHead(dest, n, w);
        TakenMore(bits0, all, n);
        n := n + 1;
      }
    }

    /** finalize_list; rest are the slots of the other array, still to come. */
    method FinalizeList(list: array<int>, items: nat, ghost rest: seq<int>)
      requires Valid() && BatchesFit() && list != next && items <= list.Length && SoundBut(State(), list[..items] + rest)
      modifies this`pendingIo, this`pendingClose, this`io, this`close, next, bits
      ensures Valid() && State() == Finalized(old(State()), list[..items]) && SoundBut(State(), rest)
    {
      ghost var was := State();
      var i := 0;
      assert list[..items] + rest == list[0..items] + rest;
      while i < items
        invariant 0 <= i <= items && Valid()
        invariant SoundBut(State(), list[i..items] + rest)
        invariant Finalized(State(), list[i..items]) == Finalized(was, list[..items])
      {
        ghost var slots := list[i..items] + rest;
        assert slots[0] == list[i] && slots[1..] == list[i + 1..items] + rest;
        assert list[i..items][0] == list[i] && list[i..items][1..] == list[i + 1..items];
        FinalizeSlot(list[i], slots);
        i := i + 1;
      }
      assert list[items..items] + rest == rest;
    }

    /** The body of the loop of finalize_list. */
    method FinalizeSlot(c: int, ghost slots: seq<int>)
      requires Valid() && BatchesFit() && slots != [] && slots[0] == c && SoundBut(State(), slots)
      modifies this`pendingIo, this`pendingClose, this`io, this`close, next, bits
      ensures Valid() && State() == Finalized1(old(State()), c) && SoundBut(State(), slots[1..])
    {
      Finalized1Keeps(State(), slots);
      assert c in slots;
      if c != NULL {
        bits[c] := bits[c].(processing := false);
        if open[c] {
          if bits[c].reqIo {
            EnlistConn(c, Io);
          } else if bits[c].reqClose {
            EnlistConn(c, Close);
          }
        }
        bits[c] := Idle;
      }
    }

    // ---------- the sections under the lock ----------

    ghost predicate Steady()
      reads this, next, bits, open, ioBatch, closeBatch
    {
      Valid() && BatchesFit() && Sound(State())
    }

    /** list_to_array into the array kept for that list. */
    method DrainList(max: nat, w: Which)
      requires Valid() && BatchesFit() && 1 <= max <= ioBatch.Length && max <= closeBatch.Length
      requires if w == Io then nIo == 0 else nClose == 0
      modifies this, next, bits, ioBatch, closeBatch
      ensures Valid() && BatchesFit() && State() == DrainOne(old(State()), max, w)
    {
      if w == Io {
        nIo := ListToArray(ioBatch, max, Io);
      } else {
        nClose := ListToArray(closeBatch, max, Close);
      }
    }

    /** Head of libevent_tap_process; max is its 256. */
    method Drain(max: nat, due: bool)
      requires Steady() && 1 <= max <= ioBatch.Length && max <= closeBatch.Length && nIo == 0 && nClose == 0
      modifies this, next, bits, ioBatch, closeBatch
      ensures Valid() && BatchesFit() && State() == Next(old(State()), PendingSpec.Drain(max, due))
    {
      if pendingClose != NULL && due {
        ChainHasNoCycle(next[..], pendingClose, close);
        var cycle := HasCycle(next, pendingClose);
        assert !cycle;
        DrainList(max, Close);
      }
      DrainList(max, Io);
    }

    /** A connection waiting in the close batch that other references still hold. */
    method Requeue(i: nat)
      requires Steady() && i < nClose && closeBatch[i] >= 0
      modifies this`pendingIo, this`pendingClose, this`io, this`close, next, bits
      ensures Valid() && BatchesFit() && State() == Next(old(State()), PendingSpec.Requeue(i))
    {
      assert State().batchClose[i] in State().batchClose;
      EnlistConn(closeBatch[i], Close);
    }

    /** The last section of libevent_tap_process. */
    method Finish()
      requires Steady()
      modifies this, next, bits
      ensures Valid() && BatchesFit() && State() == Next(old(State()), Finalize) && nIo == 0 && nClose == 0
    {
      ghost var was := State();
      StepSound(was, Finalize);
      BatchSoundBut(was);
      FinalizeList(ioBatch, nIo, closeBatch[..nClose]);
      assert closeBatch[..nClose] + [] == closeBatch[..nClose];
      FinalizeList(closeBatch, nClose, []);
      nIo, nClose := 0, 0;
    }

    /** notify_io_complete for a tap connection the engine gives up. */
    method TapDisconnect(c: int, closing: bool, lastRef: bool)
      requires Steady() && 0 <= c < next.Length
      modifies this`pendingIo, this`pendingClose, this`io, this`close, next, bits
      ensures Valid() && BatchesFit() && State() == Next(old(State()), PendingSpec.TapDisconnect(c, closing, lastRef))
    {
      StepSound(State(), PendingSpec.TapDisconnect(c, closing, lastRef));
      RemovedBoth(State(), c);
      Remove(c, Io);
      Remove(c, Close);
      if closing {
        if lastRef { EnlistConn(c, Close); }
      } else {
        EnlistConn(c, Io);
      }
    }

    /** notify_io_complete for any other connection the engine gives up. */
    method Disconnect(c: int)
      requires Steady() && 0 <= c < next.Length
      modifies this`pendingIo, this`pendingClose, this`io, this`close, next, bits
      ensures Valid() && BatchesFit() && State() == Next(old(State()), PendingSpec.Disconnect(c))
    {
      StepSound(State(), PendingSpec.Disconnect(c));
      Remove(c, Io);
      var n := NumberPending(c, pendingClose, close);
      if n == 0 { EnlistConn(c, Close); }
    }

    /** notify_io_complete when the operation is done; wake tells whether the thread is notified. */
    method IoDone(c: int) returns (wake: bool)
      requires Steady() && 0 <= c < next.Length
      modifies this`pendingIo, this`pendingClose, this`io, this`close, next, bits
      ensures Valid() && BatchesFit() && State() == Next(old(State()), PendingSpec.IoDone(c))
      ensures wake <==> old(State()).io == [] && c !in old(State()).close
    {
      var inIo := NumberPending(c, pendingIo, io);
      var inClose := NumberPending(c, pendingClose, close);
      wake := false;
      if inIo + inClose == 0 {
        wake := pendingIo == NULL;
        EnlistConn(c, Io);
      }
    }

    /** conn_pending_close: its section is that of Disconnect, with list_contains for the test. */
    method PendingClose(c: int)
      requires Steady() && 0 <= c < next.Length
      modifies this`pendingIo, this`pendingClose, this`io, this`close, next, bits
      ensures Valid() && BatchesFit() && State() == Next(old(State()), PendingSpec.Disconnect(c))
    {
      StepSound(State(), PendingSpec.Disconnect(c));
      Remove(c, Io);
      var found := ListContains(pendingClose, c, close);
      if !found { EnlistConn(c, Close); }
    }

    /** conn_close, and the invalid socket conn_cleanup leaves. */
    method CloseConn(c: int)
      requires Steady() && 0 <= c < next.Length
      modifies this`pendingIo, this`pendingClose, this`io, this`close, next, open
      ensures Valid() && BatchesFit() && State() == Next(old(State()), PendingSpec.CloseConn(c)) && next[c] == NULL
    {
      RemovedBoth(State(), c);
      Remove(c, Io);
      Remove(c, Close);
      open[c] := false;
    }
  }
}
