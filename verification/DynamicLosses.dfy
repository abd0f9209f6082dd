/**
  What a set costs under dynamic partitions, and what it leaves of the compaction counter:
  nothing while a chunk fits, else one victim after another until one does, and a count each.
  */
module DynamicLosses {
  import opened Basics
  import opened Chunks
  import opened BuddyCache
  import opened LossyMap
  import opened SetLosses
  import opened DynamicSpec
  import opened DynamicFlush
  import opened CompactionSpec
  import opened DynamicRun
  import opened Dictionary
  import opened CodedRun
  import opened DynamicReplies
  import CompactLoop

  // ---------- as coded ----------

  /** Deleting an item leaves a chunk wherever one fitted. */
  lemma DiscardRoom(cs: seq<Chunk>, r: Rules, i: nat, need: nat)
    requires Carved(cs, r) && i < |cs| && cs[i].used && Room(cs, need)
    ensures Room(Discard(cs, i).0, need)
  {
    DiscardShape(cs, i);
    DiscardKeeps(cs, r, i);
    var (f, j) := Discard(cs, i);
    assert f[j] in f && GoodChunk(f[j], r.slab);
    PastedRoom(cs, f, r.total, j, JoinTo(cs, i), f[j], need);
  }

  lemma PastedRoom(cs: seq<Chunk>, f: seq<Chunk>, total: nat, a: nat, b: nat, x: Chunk, need: nat)
    requires Tiled(cs, total) && Tiled(f, total) && a < b <= |cs| && f == cs[..a] + [x] + cs[b..] && x.Free() && Room(cs, need)
    ensures Room(f, need)
  {
    assert |f| == a + 1 + |cs| - b && f[a] == x;
    forall y | 0 <= y < a ensures f[y] == cs[y] { }
    forall y | a < y < |f| ensures f[y] == cs[y + (|cs| - |f|)] { }
    RoomAround(cs, f, total, a, need);
  }

  /** The counter after n failed searches without a compaction. */
  function CountedDown(due: int, n: nat): int { if due < 0 then due else if due > n then due - n else 0 }

  /** One eviction of the loop. */
  lemma AllotVEvicts(v: View, r: Rules, need: nat) returns (w: View)
    requires VGood(v, r) && r.slab <= need <= r.total && AllotV(v, r, need).Ran? && Choose(v.cs, need, r.best).None?
    ensures VGood(w, r) && AllotV(v, r, need) == AllotV(w, r, need) && w.due == CountedDown(v.due, 1)
    ensures EvictedFor(v.cs, w.cs, need) && |Busy(w.cs)| < |Busy(v.cs)|
  {
    var u := v.(due := Counted(v.due));
    HoleOrVictim(v.cs, r, need);
    var i := Victim(v.cs).value;
    assert RightAt(u, i);
    RemoveKeeps(u, r, i);
    DiscardKeeps(v.cs, r, i);
    DiscardCount(v.cs, r, i);
    w := Remove(u, i).0;
    assert IsVictim(v.cs, i);
  }

  /** The chunk handed out is the one the search chooses of the list, whose items all stay; and what the counter is. */
  ghost predicate TakenFrom(o: (View, nat), cs: seq<Chunk>, due: int, need: nat, best: bool) {
    SameStored(o.0.cs, cs) && o.0.due == due && HandedFrom(o.0.cs, o.1, cs, need, best)
  }

  lemma AllotVFinds(v: View, r: Rules, need: nat)
    requires VGood(v, r) && r.slab <= need <= r.total && Choose(v.cs, need, r.best).Some?
    ensures AllotV(v, r, need).Ran? && Room(v.cs, need)
    ensures TakenFrom(AllotV(v, r, need).value, v.cs, v.due, need, r.best)
  {
    var i := Choose(v.cs, need, r.best).value;
    TakeKeeps(v, r, i, need);
    TakeHoleKeeps(v.cs, r, i, need);
  }

  /** What the evictions of an allocation that finds a chunk come to. */
  lemma {:induction false} AllotVForRoom(v: View, r: Rules, need: nat) returns (ls: seq<seq<Chunk>>)
    requires VGood(v, r) && r.slab <= need <= r.total && AllotV(v, r, need).Ran?
    ensures ForRoom(ls, need) && ls[0] == v.cs
    ensures TakenFrom(AllotV(v, r, need).value, ls[|ls| - 1], CountedDown(v.due, |ls| - 1), need, r.best)
    decreases |Busy(v.cs)|
  {
    if Choose(v.cs, need, r.best).Some? {
      ls := [v.cs];
      AllotVFinds(v, r, need);
    } else {
      var w := AllotVEvicts(v, r, need);
      var rest := AllotVForRoom(w, r, need);
      ls := [v.cs] + rest;
      ForRoomCons(v.cs, rest, need);
      TakenAfter(AllotV(v, r, need).value, v.cs, rest, v.due, w.due, need, r.best);
    }
  }

  lemma TakenAfter(o: (View, nat), a: seq<Chunk>, ls: seq<seq<Chunk>>, due: int, next: int, need: nat, best: bool)
    requires ls != [] && next == CountedDown(due, 1) && TakenFrom(o, ls[|ls| - 1], CountedDown(next, |ls| - 1), need, best)
    ensures TakenFrom(o, ([a] + ls)[|ls|], CountedDown(due, |ls|), need, best)
  {
  }

  /** The set's result, where it runs. */
  lemma CSetIs(s: CState, r: Rules, k: string, data: Bytes, flags: nat, now: nat) returns (d: View, x: View, i: nat)
    requires CGood(s, r) && k != "" && now > 0 && FitsTable(Conf(r), |data|) && CSet(s, r, k, data, flags, now).Ran?
    ensures CDrop(s.view, k) == Ran(d) && VGood(d, r) && d.due == s.view.due && d.cs == DropKey(s.view.cs, k)
    ensures AllotV(d, r, Max(|data|, r.slab)) == Ran((x, i)) && i < |x.cs| && !x.cs[i].used && x.cs[i].addr + |data| <= |s.mem|
    ensures x.cs[i].addr + |data| <= x.cs[i].End()
    ensures CSet(s, r, k, data, flags, now)
            == Ran((CState(StoreV(x, i, k, |data|, flags, now), WriteAt(s.mem, x.cs[i].addr, data)), Stored))
  {
    CDropKeeps(s.view, r, k);
    d := CDrop(s.view, k).value;
    AllotVKeeps(d, r, Max(|data|, r.slab), s.mem);
    x, i := AllotV(d, r, Max(|data|, r.slab)).value.0, AllotV(d, r, Max(|data|, r.slab)).value.1;
    TiledBounds(x.cs, r.total, i);
  }

  /**
    A set that runs drops the old value of its key and then evicts, least hour first, only while
    nothing fits; every other item stays, and the counter is one less for each eviction.
    */
  lemma CSetForRoom(s: CState, r: Rules, k: string, data: Bytes, flags: nat, now: nat) returns (ls: seq<seq<Chunk>>)
    requires CGood(s, r) && k != "" && now > 0 && FitsTable(Conf(r), |data|) && CSet(s, r, k, data, flags, now).Ran?
    ensures ForRoom(ls, Max(|data|, r.slab))
    ensures forall c: Chunk :: c.used ==> (c in ls[0] <==> c in s.view.cs && c.key != k)
    ensures var t := CSet(s, r, k, data, flags, now).value.0;
            && (forall c: Chunk :: Other(c, k) ==> (c in t.view.cs <==> c in ls[|ls| - 1]))
            && t.view.due == CountedDown(s.view.due, |ls| - 1)
    ensures Room(s.view.cs, Max(|data|, r.slab)) ==> |ls| == 1
  {
    var need := Max(|data|, r.slab);
    var d, x, i := CSetIs(s, r, k, data, flags, now);
    ls := AllotVForRoom(d, r, need);
    DropKeyExact(s.view.cs, r, k);
    if Room(s.view.cs, need) {
      DropKeyRoom(s.view.cs, r, k, need);
      assert |ls| > 1 ==> EvictedFor(ls[0], ls[1], need);
    }
    StoredOthersSame(x.cs, i, x.cs, StoredAt(x.cs, i, k, |data|, flags, now), k);
  }

  lemma DropKeyExact(cs: seq<Chunk>, r: Rules, k: string)
    requires Carved(cs, r) && k != ""
    ensures forall c: Chunk :: c.used ==> (c in DropKey(cs, k) <==> c in cs && c.key != k)
  {
    KeyFound(cs, r, k);
    if Find(cs, k).Some? { DiscardKeeps(cs, r, Find(cs, k).value); }
  }

  lemma DropKeyRoom(cs: seq<Chunk>, r: Rules, k: string, need: nat)
    requires Carved(cs, r) && k != "" && Room(cs, need)
    ensures Room(DropKey(cs, k), need)
  {
    KeyFound(cs, r, k);
    if Find(cs, k).Some? { DiscardRoom(cs, r, Find(cs, k).value, need); }
  }

  /** While a chunk fits a set never compacts, and stops only where its own old value has a wrong `prev`. */
  lemma CSetRuns(s: CState, r: Rules, k: string, data: Bytes, flags: nat, now: nat)
    requires CGood(s, r) && k != "" && now > 0
    requires Room(s.view.cs, Max(|data|, r.slab)) || !FitsTable(Conf(r), |data|)
    ensures CSet(s, r, k, data, flags, now).Ran? <==>
              forall i :: 0 <= i < |s.view.cs| && s.view.cs[i].used && s.view.cs[i].key == k ==> RightAt(s.view, i)
    ensures !CSet(s, r, k, data, flags, now).Compacts?
  {
    CDropKeeps(s.view, r, k);
    CDeleteSays(s, r, k);
    if CDrop(s.view, k).Ran? && FitsTable(Conf(r), |data|) {
      var d, need := CDrop(s.view, k).value, Max(|data|, r.slab);
      DropKeyRoom(s.view.cs, r, k, need);
      AllotVKeeps(d, r, need, s.mem);
      assert Choose(d.cs, need, r.best).Some?;
    }
  }

  /** Then, and when the item is too big for the table, it loses no other key and leaves the counter; what stays keeps its bytes. */
  lemma CSetKeepsOthers(s: CState, r: Rules, k: string, data: Bytes, flags: nat, now: nat)
    requires CGood(s, r) && k != "" && now > 0 && CSet(s, r, k, data, flags, now).Ran?
    requires Room(s.view.cs, Max(|data|, r.slab)) || !FitsTable(Conf(r), |data|)
    ensures var (t, a) := CSet(s, r, k, data, flags, now).value;
            && (forall c: Chunk :: Other(c, k) ==> (c in t.view.cs <==> c in s.view.cs))
            && (forall c: Chunk :: Other(c, k) && c in s.view.cs ==> Untouched(c, State(s.view.cs, s.mem), State(t.view.cs, t.mem)))
            && t.view.due == s.view.due && a == (if FitsTable(Conf(r), |data|) then Stored else TooBig)
  {
    if FitsTable(Conf(r), |data|) {
      var ls := CSetForRoom(s, r, k, data, flags, now);
      CSetBytes(s, r, k, data, flags, now);
    } else {
      CDropKeeps(s.view, r, k);
      DropKeyExact(s.view.cs, r, k);
      forall c: Chunk | Other(c, k) && c in s.view.cs
        ensures Untouched(c, State(s.view.cs, s.mem), State(DropKey(s.view.cs, k), s.mem))
      {
        var j :| 0 <= j < |s.view.cs| && s.view.cs[j] == c;
        TiledBounds(s.view.cs, r.total, j);
        assert GoodChunk(c, r.slab);
      }
    }
  }

  /** The write of a set leaves the bytes of every other item that is still stored. */
  lemma CSetBytes(s: CState, r: Rules, k: string, data: Bytes, flags: nat, now: nat)
    requires CGood(s, r) && k != "" && now > 0 && FitsTable(Conf(r), |data|) && CSet(s, r, k, data, flags, now).Ran?
    ensures var t := CSet(s, r, k, data, flags, now).value.0;
            forall c: Chunk :: Other(c, k) && c in t.view.cs && c in s.view.cs ==>
              Untouched(c, State(s.view.cs, s.mem), State(t.view.cs, t.mem))
  {
    var d, x, i := CSetIs(s, r, k, data, flags, now);
    var t := CSet(s, r, k, data, flags, now).value.0;
    AllotVKeeps(d, r, Max(|data|, r.slab), s.mem);
    forall c: Chunk | Other(c, k) && c in t.view.cs && c in s.view.cs
      ensures Untouched(c, State(s.view.cs, s.mem), State(t.view.cs, t.mem))
    {
      var j :| 0 <= j < |t.view.cs| && t.view.cs[j] == c;
      assert x.cs[j] == c && GoodChunk(c, r.slab);
      StoreElsewhere(x.cs, s.mem, r, i, j, data);
    }
  }

  /** A set that runs says it is too big exactly when its data is longer than the table. */
  lemma CSetAnswers(s: CState, r: Rules, k: string, data: Bytes, flags: nat, now: nat)
    requires CGood(s, r) && k != "" && now > 0 && CSet(s, r, k, data, flags, now).Ran?
    ensures CSet(s, r, k, data, flags, now).value.1 == if |data| <= r.total then Stored else TooBig
  {
    if FitsTable(Conf(r), |data|) { var d, x, i := CSetIs(s, r, k, data, flags, now); }
  }

  /** Between sets the counter stays as it is. */
  lemma OthersLeaveCounter(s: CState, r: Rules, op: Op)
    requires CGood(s, r) && OpOk(op) && !op.Set? && CStep(s, r, op).Ran?
    ensures CStep(s, r, op).value.0.view.due == s.view.due
  {
    match op
    case Get(k, now) => CGetSays(s, r, k, now);
    case Delete(k) => CDeleteSays(s, r, k);
    case Flush => FlushVKeeps(s.view, r, 0);
  }

  // ---------- with right links and whole records ----------

  /** A turn of that loop: a chunk fits; or the table is compacted, or the item of least hour goes, and the counter tells which. */
  lemma WholeTurn(l: CompactLoop.Loop, r: Rules, need: nat)
    requires Carved(l.cs, r) && need <= r.total
    ensures match CompactLoop.Turn(l, r, need)
      case None => Room(l.cs, need)
      case Some(m) =>
        && !Room(l.cs, need)
        && (if 0 <= l.due <= 1 && r.total - SumData(l.cs) >= need then m.cs == Compact(l.cs, true) && m.due == r.frequency
            else EvictedFor(l.cs, m.cs, need) && m.due == if l.due > 0 then l.due - 1 else l.due)
  {
    match Choose(l.cs, need, r.best)
    case Some(i) =>
    case None =>
      if !CompactsNow(l.cs, r, need, l.due) {
        HoleOrVictim(l.cs, r, need);
        DiscardKeeps(l.cs, r, Victim(l.cs).value);
        assert IsVictim(l.cs, Victim(l.cs).value);
      }
  }

  /** What the loop does next, in both forms of it. */
  lemma AllotTurn(cs: seq<Chunk>, mem: Bytes, r: Rules, need: nat, due: int) returns (m: CompactLoop.Loop, mm: Bytes)
    requires Carved(cs, r) && |mem| == r.total && r.slab <= need <= r.total && r.frequency != 0 && r.frequency != 1
    requires Choose(cs, need, r.best).None?
    ensures CompactLoop.Turn(CompactLoop.Loop(cs, due), r, need) == Some(m) && Carved(m.cs, r) && |mm| == r.total
    ensures Allot(cs, mem, r, need, due) == Allot(m.cs, mm, r, need, m.due)
    ensures |Busy(m.cs)| < |Busy(cs)| || (|Busy(m.cs)| == |Busy(cs)| && Counted(due) == 0 && Counted(m.due) != 0)
  {
    m := CompactLoop.Turn(CompactLoop.Loop(cs, due), r, need).value;
    if CompactsNow(cs, r, need, due) {
      CompactCarved(cs, r);
      CompactFrom(cs, mem, r);
      mm := CompactBytes(cs, mem, true);
    } else {
      HoleOrVictim(cs, r, need);
      DiscardKeeps(cs, r, Victim(cs).value);
      DiscardCount(cs, r, Victim(cs).value);
      mm := mem;
    }
  }

  /** The chunk is taken from the list of m. */
  ghost predicate TakesFrom(p: Place, m: CompactLoop.Loop, r: Rules, need: nat) {
    Carved(m.cs, r) && Room(m.cs, need) && p.due == m.due && SameStored(p.cs, m.cs)
  }

  lemma AllotFinds(cs: seq<Chunk>, mem: Bytes, r: Rules, need: nat, due: int)
    requires Carved(cs, r) && |mem| == r.total && r.slab <= need <= r.total && r.frequency != 0 && r.frequency != 1
    requires Choose(cs, need, r.best).Some?
    ensures TakesFrom(Allot(cs, mem, r, need, due), CompactLoop.Loop(cs, due), r, need)
  {
    TakeHoleKeeps(cs, r, Choose(cs, need, r.best).value, need);
  }

  lemma TurnsAfter(l: CompactLoop.Loop, r: Rules, need: nat, m: CompactLoop.Loop, n: nat)
    requires Carved(l.cs, r) && need <= r.total && CompactLoop.Turn(l, r, need) == Some(m) && Carved(m.cs, r)
    ensures CompactLoop.Turns(l, r, need, n + 1) == CompactLoop.Turns(m, r, need, n)
  {
  }

  /** An allocation takes its chunk in the state in which such turns end. */
  lemma {:induction false} AllotTurns(cs: seq<Chunk>, mem: Bytes, r: Rules, need: nat, due: int) returns (n: nat, m: CompactLoop.Loop)
    requires Carved(cs, r) && |mem| == r.total && r.slab <= need <= r.total && r.frequency != 0 && r.frequency != 1
    ensures CompactLoop.Turns(CompactLoop.Loop(cs, due), r, need, n) == Some(m)
    ensures TakesFrom(Allot(cs, mem, r, need, due), m, r, need)
    decreases |Busy(cs)|, if Counted(due) == 0 then 1 else 0
  {
    if Choose(cs, need, r.best).Some? {
      n, m := 0, CompactLoop.Loop(cs, due);
      AllotFinds(cs, mem, r, need, due);
    } else {
      var x, mm := AllotTurn(cs, mem, r, need, due);
      n, m := AllotTurns(x.cs, mm, r, need, x.due);
      assert CompactLoop.Loop(x.cs, x.due) == x;
      TurnsAfter(CompactLoop.Loop(cs, due), r, need, x, n);
      n := n + 1;
    }
  }

  /** So a set loses no other key while a chunk fits, or when the item is too big for the table. */
  lemma DSetKeepsOthers(s: DState, r: Rules, k: string, data: Bytes, flags: nat, now: nat)
    requires DGood(s, r) && r.frequency != 0 && r.frequency != 1 && k != "" && now > 0
    requires Room(s.cs, Max(|data|, r.slab)) || !FitsTable(Conf(r), |data|)
    ensures var (t, a) := DSet(s, r, k, data, flags, now);
            (forall c: Chunk :: Other(c, k) ==> (c in t.cs <==> c in s.cs)) && t.due == s.due
  {
    DropKeyKeeps(s.cs, r, k);
    DropKeyExact(s.cs, r, k);
    if FitsTable(Conf(r), |data|) {
      DropKeyRoom(s.cs, r, k, Max(|data|, r.slab));
      DSetAtOnce(s, r, k, data, flags, now);
    }
  }

  lemma DSetAtOnce(s: DState, r: Rules, k: string, data: Bytes, flags: nat, now: nat)
    requires DGood(s, r) && r.frequency != 0 && r.frequency != 1 && k != "" && now > 0 && FitsTable(Conf(r), |data|)
    requires Carved(DropKey(s.cs, k), r) && Room(DropKey(s.cs, k), Max(|data|, r.slab))
    ensures var t := DSet(s, r, k, data, flags, now).0;
            (forall c: Chunk :: Other(c, k) ==> (c in t.cs <==> c in DropKey(s.cs, k))) && t.due == s.due
  {
    var d, need := DropKey(s.cs, k), Max(|data|, r.slab);
    assert Choose(d, need, r.best).Some?;
    var i := Choose(d, need, r.best).value;
    TakeHoleKeeps(d, r, i, need);
    var a := TakeHole(d, i, need, r.slab);
    assert Allot(d, s.mem, r, need, s.due) == Place(a, s.mem, i, s.due);
    TiledBounds(a, r.total, i);
    StoredOthersSame(a, i, a, StoredAt(a, i, k, |data|, flags, now), k);
  }
}
