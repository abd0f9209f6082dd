/** The coded allocation loop compacts for ever with frequency 0 or 1 only, whatever the links and the chunks. */
module LoopStops {
  import opened Basics
  import opened Chunks
  import opened BuddyCache
  import opened DynamicSpec
  import opened CompactionSpec
  import opened DynamicRun
  import opened Dictionary
  import opened CodedRun
  import opened CompactView
  import opened CodedLoop

  /** The chunks with an hour, which the victim search looks at. */
  function Stamped(cs: seq<Chunk>): nat {
    if cs == [] then 0 else (if cs[0].hour != 0 then 1 else 0) + Stamped(cs[1..])
  }

  lemma {:induction false} StampedConcat(a: seq<Chunk>, b: seq<Chunk>)
    ensures Stamped(a + b) == Stamped(a) + Stamped(b)
  {
    if a == [] {
      assert a + b == b;
    } else {
      assert (a + b)[1..] == a[1..] + b;
      StampedConcat(a[1..], b);
    }
  }

  lemma StampedAround(a: seq<Chunk>, c: Chunk, b: seq<Chunk>)
    ensures Stamped(a + [c] + b) == Stamped(a) + (if c.hour != 0 then 1 else 0) + Stamped(b)
  {
    StampedConcat(a + [c], b);
    StampedConcat(a, [c]);
  }

  lemma {:induction false} StampedAbsorb(cs: seq<Chunk>, k: nat)
    requires k + 1 < |cs|
    ensures Stamped(Absorb(cs, k)) <= Stamped(cs)
    decreases k
  {
    if k == 0 {
      AbsorbFirst(cs);
    } else {
      AbsorbLater(cs, k);
      StampedAbsorb(cs[1..], k - 1);
    }
  }

  lemma AbsorbFirst(cs: seq<Chunk>)
    requires 1 < |cs|
    ensures Absorb(cs, 0)[0].hour == cs[0].hour && Absorb(cs, 0)[1..] == cs[1..][1..] && Absorb(cs, 0) != []
  {
  }

  lemma AbsorbLater(cs: seq<Chunk>, k: nat)
    requires 0 < k && k + 1 < |cs|
    ensures Absorb(cs, k)[0] == cs[0] && Absorb(cs, k)[1..] == Absorb(cs[1..], k - 1) && Absorb(cs, k) != []
  {
  }

  lemma {:induction false} StampedBack(cs: seq<Chunk>, i: nat)
    requires i < |cs|
    ensures Stamped(MergeBack(cs, i).0) <= Stamped(cs)
    decreases i
  {
    if i > 0 && !cs[i - 1].used {
      StampedAbsorb(cs, i - 1);
      StampedBack(Absorb(cs, i - 1), i - 1);
    }
  }

  lemma {:induction false} StampedFront(cs: seq<Chunk>, i: nat)
    requires i < |cs|
    ensures Stamped(MergeFront(cs, i)) <= Stamped(cs)
    decreases |cs| - i
  {
    if i + 1 < |cs| && !cs[i + 1].used {
      StampedAbsorb(cs, i);
      StampedFront(Absorb(cs, i), i);
    }
  }

  /** A victim is one chunk with an hour less. */
  lemma StampedRemove(v: View, i: nat)
    requires Shaped(v) && i < |v.cs| && v.cs[i].hour != 0
    ensures Shaped(Remove(v, i).0) && Stamped(Remove(v, i).0.cs) < Stamped(v.cs)
  {
    var c := Cleared(v, i);
    var b, j := BackV(c, i).0, BackV(c, i).1;
    BackVIs(c, i);
    FrontVIs(b, j);
    StampedBack(c.cs, i);
    StampedFront(b.cs, j);
    StampedCleared(v.cs, i);
  }

  lemma StampedCleared(cs: seq<Chunk>, i: nat)
    requires i < |cs| && cs[i].hour != 0
    ensures Stamped(cs[i := cs[i].Cleared()]) < Stamped(cs)
  {
    var a, b := cs[..i], cs[i + 1..];
    assert cs == a + [cs[i]] + b && cs[i := cs[i].Cleared()] == a + [cs[i].Cleared()] + b;
    StampedAround(a, cs[i], b);
    StampedAround(a, cs[i].Cleared(), b);
  }

  lemma {:induction false} StampedShift(free: Chunk, rest: seq<Chunk>)
    ensures Stamped(Shift(free, rest, false)) <= (if free.hour != 0 then 1 else 0) + Stamped(rest)
    decreases |rest|
  {
    if rest != [] {
      if rest[0].Free() {
        StampedShift(Grown(free, rest[0]), rest[1..]);
      } else {
        var v := Vacated(free, rest[0], false);
        StampedShift(v, rest[1..]);
        StampedConcat([Moved(free, rest[0], false)], Shift(v, rest[1..], false));
      }
    }
  }

  lemma StampedCompact(cs: seq<Chunk>)
    ensures Stamped(Compact(cs, false)) <= Stamped(cs)
  {
    var f := FirstFree(cs);
    if f < |cs| {
      assert cs == cs[..f] + [cs[f]] + cs[f + 1..];
      StampedAround(cs[..f], cs[f], cs[f + 1..]);
      StampedShift(cs[f], cs[f + 1..]);
      StampedConcat(cs[..f], Shift(cs[f], cs[f + 1..], false));
    }
  }

  /** The turns that are left: every eviction takes an hour away, and no two compactions follow each other. */
  lemma {:induction false} StopsWithin(v: View, r: Rules, need: nat) returns (o: Turn)
    requires Shaped(v) && r.frequency != 0 && r.frequency != 1
    ensures Comes(Loop(r, need), v, o) && !o.Goes?
    decreases Stamped(v.cs), if DueNow(v, r, need) then 1 else 0
  {
    o := TurnV(v, r, need);
    ComesNow(Loop(r, need), v);
    if o.Goes? {
      var w := o.next;
      if DueNow(v, r, need) {
        CompactVIs(v.(due := Counted(v.due)));
        StampedCompact(v.cs);
      } else {
        StampedRemove(v.(due := Counted(v.due)), Victim(v.cs).value);
      }
      o := StopsWithin(w, r, need);
      ComesOn(Loop(r, need), v, w, o);
    }
  }

  /** A loop that comes to anything else stops. */
  lemma LoopStops(v: View, r: Rules, need: nat)
    requires Shaped(v) && r.frequency != 0 && r.frequency != 1
    ensures !Endless(Loop(r, need), v)
  {
    var o := StopsWithin(v, r, need);
    OneEnd(Loop(r, need), v, o);
  }

  /** For every frequency: the loop compacts for ever exactly when that is 0 or 1 and compaction comes due before a chunk is found. */
  lemma SpinsExactly(v: View, r: Rules, need: nat)
    requires VGood(v, r) && r.slab <= need <= r.total
    ensures Endless(Loop(r, need), v) <==> (r.frequency == 0 || r.frequency == 1) && AllotV(v, r, need).Compacts?
  {
    if r.frequency == 0 || r.frequency == 1 {
      CompactsEndlessly(v, r, need);
    } else {
      LoopStops(v, r, need);
    }
  }
}
