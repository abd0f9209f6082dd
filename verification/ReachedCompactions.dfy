/**
  Commands that lead from an empty table to a compaction, and what becomes of the loop there:
  it compacts for ever, hangs on a `prev` its own evictions have made wrong, or ends.
  */
module ReachedCompactions {
  import opened Basics
  import opened Chunks
  import opened BuddyCache
  import opened BuddySpec
  import opened LossyMap
  import opened DynamicSpec
  import opened CompactionSpec
  import opened DynamicRun
  import CompactLoop
  import opened Dictionary
  import opened CodedRun
  import opened CodedLists
  import opened CodedLoop
  import opened StaleLinks
  import opened ReachedStates

  /** A set under a new key that finds no chunk compacts, when the counter is used up and the guard on data sizes holds. */
  lemma SetCompacts(s: CState, r: Rules, k: string, data: Bytes, flags: nat, now: nat)
    requires CGood(s, r) && OpOk(Set(k, data, flags, now)) && FitsTable(Conf(r), |data|) && Find(s.view.cs, k).None?
    requires var need := Max(|data|, r.slab); Choose(s.view.cs, need, r.best).None? && DueNow(s.view, r, need)
    ensures CStep(s, r, Set(k, data, flags, now)) == Compacts(s.view.(due := 0), Max(|data|, r.slab))
  {
    assert CDrop(s.view, k) == Ran(s.view);
    CompactsAtOnce(s.view, r, Max(|data|, r.slab));
  }

  lemma CompactsAtOnce(v: View, r: Rules, need: nat)
    requires VGood(v, r) && r.slab <= need <= r.total && Choose(v.cs, need, r.best).None? && DueNow(v, r, need)
    ensures AllotV(v, r, need) == Compacts(v.(due := 0), need)
  {
  }

  /** The compaction after this one comes later than the last item can go, or never. */
  predicate NoneSoon(w: View, r: Rules) { r.frequency < 0 || (r.frequency > 1 && r.frequency > |UsedOf(w.cs)|) }

  /** What becomes of a loop that stands before a compaction. */
  ghost predicate Decided(w: View, r: Rules, need: nat) {
    && Shaped(w)
    && (r.frequency == 0 || r.frequency == 1 ==> Endless(Loop(r, need), w))
    && (InLoop(w, r, need) && NoneSoon(w, r) ==>
          Meets(Loop(r, need), w, if TrappedAfter(StageOf(w), r, need) then Sticks else Ends))
  }

  lemma DueDecided(w: View, r: Rules, need: nat)
    requires VGood(w, r) && w.due == 0 && Choose(w.cs, need, r.best).None? && r.total - w.current >= need
    ensures Decided(w, r, need)
  {
    if r.frequency == 0 || r.frequency == 1 { CompactionStays(w, r, need); }
    if InLoop(w, r, need) && NoneSoon(w, r) { DueDecides(w, r, need); }
  }

  /**
    Where a run stops to compact: with frequency 0 or 1 the command never ends, whatever the
    links. When links are broken only as the loop breaks them, and no other compaction can
    come before the last item is gone, it ends or hangs as the evictions that follow do.
    */
  lemma CompactionDecides(s: CState, r: Rules, ops: seq<Op>)
    requires CGood(s, r) && (forall op :: op in ops ==> OpOk(op)) && CRun(s, r, ops).Compacts?
    ensures Decided(CRun(s, r, ops).at, r, CRun(s, r, ops).need)
  {
    CRunIs(s, r, ops);
    DueDecided(CRun(s, r, ops).at, r, CRun(s, r, ops).need);
  }

  lemma ThreeItems(a: Chunk, b: Chunk, c: Chunk)
    requires a.used && b.used && c.used
    ensures UsedOf([a, b, c]) == [a, b, c] && SumSizes([a, b, c]) == a.size + b.size + c.size
  {
    assert [a, b, c][1..] == [b, c] && [b, c][1..] == [c] && [c][1..] == [];
    assert UsedOf([c]) == [c] && SumSizes([c]) == c.size;
    assert UsedOf([b, c]) == [b, c] && SumSizes([b, c]) == b.size + c.size;
  }

  /** With a gap of one slab left a set of two slabs comes to compaction, with frequency -1 as with any other. */
  lemma GapCompacts(mem: Bytes, lru: bool, f: int, data: Bytes, flags: nat, now: nat)
    requires CGood(CState(View4(), mem), Small(lru, f)) && |data| == 8 && now > 0
    ensures CStep(CState(View4(), mem), Small(lru, f), Set("d", data, flags, now)) == Compacts(View4(), 8)
  {
    var s := CState(View4(), mem);
    assert forall j :: 0 <= j < |s.view.cs| ==> !s.view.cs[j].Fits(8) && !s.view.cs[j].Named("d");
    SetCompacts(s, Small(lru, f), "d", data, flags, now);
  }

  // ---------- a full table ----------

  lemma FullTable(mem: Bytes, lru: bool, f: int, x: nat, y: nat, data: Bytes, now: nat)
    requires CGood(CState(View3(x, y), mem), Small(lru, f)) && |data| <= 12 && now > 0
    ensures CStep(CState(View3(x, y), mem), Small(lru, f), Set("d", data, 0, now)) == Compacts(View3(x, y), Max(|data|, 4))
    ensures Choose(View3(x, y).cs, Max(|data|, 4), false).None?
  {
    var s := CState(View3(x, y), mem);
    assert forall j :: 0 <= j < |s.view.cs| ==> !s.view.cs[j].Free() && !s.view.cs[j].Named("d");
    SetCompacts(s, Small(lru, f), "d", data, 0, now);
  }

  lemma LastCompacts(t: CState, r: Rules, ops: seq<Op>, w: View, need: nat)
    requires CGood(t, r) && |ops| == 1 && OpOk(ops[0]) && CStep(t, r, ops[0]) == Compacts(w, need)
    ensures (forall op :: op in ops ==> OpOk(op)) && CRun(t, r, ops) == Compacts(w, need)
  {
  }

  /** Compaction of a full table changes nothing. */
  lemma FullStays(x: nat, y: nat, r: Rules)
    ensures Compact(View3(x, y).cs, false) == View3(x, y).cs
    ensures AfterCompaction(StageOf(View3(x, y)), r) == Stage(View3(x, y).cs, r.frequency, 0)
    ensures |UsedOf(View3(x, y).cs)| == 3 && AllRightBut(View3(x, y), -1) && NodesApart(View3(x, y))
  {
    var cs := View3(x, y).cs;
    ThreeItems(cs[0], cs[1], cs[2]);
    assert FirstFree(cs) == 3 by {
      var i := FirstFree(cs);
      assert !cs[0].Free() && !cs[1].Free() && !cs[2].Free();
    }
  }

  /** A chunk too large to leave room is evicted, when no compaction can come before. */
  lemma NothingBehind(a: Stage, r: Rules, need: nat, c: Chunk)
    requires Leaky(a.cs, r.total) && need <= r.total && (a.due < 0 || a.due > |UsedOf(a.cs)|)
    requires c.used && c.size + need > r.total
    ensures c !in Remaining(a, r, need).cs
  {
    UsedCount(a.cs);
    var ls := TrailOf(a, r, need);
    TrailIs(ls, r, need, |a.cs|);
    TrailFits(ls, r, need);
    TrailLeaky(ls, r, need);
    var g := Remaining(a, r, need).cs;
    if c in g { FitsNowhere(g, r.total, need, r.best, c); }
  }

  /** The second, the first and the third item go in this order, and all must go. */
  lemma MiddleFirstTraps(x: nat, y: nat, r: Rules, need: nat)
    requires r.total == 12 && 9 <= need <= 12 && (r.frequency < 0 || r.frequency > 3) && 2 < x <= y && VGood(View3(x, y), r)
    ensures TrappedAfter(StageOf(View3(x, y)), r, need)
  {
    var c := AfterCompaction(StageOf(View3(x, y)), r);
    FullStays(x, y, r);
    CarvedLeaky(View3(x, y).cs, r);
    NothingBehind(c, r, need, c.cs[2]);
    assert Crosses(c.cs, 0, 2);
  }

  /** They go in the order of their places. */
  lemma InOrderFree(x: nat, y: nat, r: Rules, need: nat)
    requires x <= 2 <= y
    ensures !TrappedAfter(StageOf(View3(x, y)), r, need)
  {
    FullStays(x, y, r);
    var c := AfterCompaction(StageOf(View3(x, y)), r);
    forall a, b | 0 <= a < b < |c.cs| ensures !Crosses(c.cs, a, b) { }
  }

  /**
    Three items in a table of three slabs, all links right and compaction due. With frequency
    0 or 1 a fourth set compacts for ever. Otherwise it hangs when all must go and the first
    item goes after the second and before the third; in the order of their places it ends.
    */
  lemma FullFate(x: nat, y: nat, r: Rules, need: nat)
    requires VGood(View3(x, y), r) && r.total == 12 && 9 <= need <= 12 && (r.frequency < 2 || r.frequency > 3)
    requires Choose(View3(x, y).cs, need, r.best).None?
    ensures r.frequency == 0 || r.frequency == 1 ==> Meets(Loop(r, need), View3(x, y), Spins)
    ensures r.frequency != 0 && r.frequency != 1 && 2 < x <= y ==> Meets(Loop(r, need), View3(x, y), Sticks)
    ensures r.frequency != 0 && r.frequency != 1 && x <= 2 <= y ==> Meets(Loop(r, need), View3(x, y), Ends)
  {
    var v := View3(x, y);
    FullStays(x, y, r);
    RightLinks(v);
    CarvedLeaky(v.cs, r);
    DueDecides(v, r, need);
    if r.frequency != 0 && r.frequency != 1 && 2 < x <= y { MiddleFirstTraps(x, y, r, need); }
    if r.frequency != 0 && r.frequency != 1 && x <= 2 <= y { InOrderFree(x, y, r, need); }
  }

  /** With compaction of whole records it would spin too, the table being full. */
  lemma FullSpinsWhole(x: nat, y: nat, lru: bool, f: int, r: Rules, need: nat)
    requires r == Small(lru, f) && VGood(View3(x, y), r) && 1 <= need <= 12 && (f == 0 || f == 1)
    requires Choose(View3(x, y).cs, need, false).None?
    ensures CompactLoop.Endless(CompactLoop.Loop(View3(x, y).cs, 0), r, need)
  {
    var cs := View3(x, y).cs;
    ThreeItems(cs[0], cs[1], cs[2]);
    CompactLoop.CompactsForever(CompactLoop.Loop(cs, 0), r, need);
  }

  /**
    From an empty table of three slabs: three items and a fourth that needs all of it. The
    set comes to compaction; with frequency 0 or 1 it compacts for ever, as coded and with
    whole records moved; with a negative frequency or one above three it ends.
    */
  lemma FourSetsCompact(mem: Bytes, lru: bool, f: int, r: Rules, s: CState, ops: seq<Op>, data: Bytes)
    requires |mem| == 12 && r == Small(lru, f) && s == CState(InitView(r), mem) && 9 <= |data| <= 12
    requires |ops| == 4 && Fills(ops) && ops[3] == Set("d", data, 0, 4)
    ensures CGood(s, r) && (forall op :: op in ops ==> OpOk(op)) && CRun(s, r, ops) == Compacts(View3(1, 3), |data|)
    ensures f == 0 || f == 1 ==> Meets(Loop(r, |data|), View3(1, 3), Spins)
                                 && Carved(View3(1, 3).cs, r) && CompactLoop.Endless(CompactLoop.Loop(View3(1, 3).cs, 0), r, |data|)
    ensures f < 0 || f > 3 ==> Meets(Loop(r, |data|), View3(1, 3), Ends)
  {
    assert forall op :: op in ops ==> OpOk(op);
    FillsTable(mem, lru, f, r, s, ops);
    FullTable(mem, lru, f, 1, 3, data, 4);
    LastCompacts(CState(View3(1, 3), mem), r, ops[3..], View3(1, 3), |data|);
    if f < 2 || f > 3 { FullFate(1, 3, r, |data|); }
    if f == 0 || f == 1 { FullSpinsWhole(1, 3, lru, f, r, |data|); }
  }

  // ---------- an item used again ----------

  /** Under LRU a get moves the first item behind the second in the order of eviction. */
  lemma FirstUsedAgain(mem: Bytes, f: int)
    requires CGood(CState(View2(1), mem), Small(true, f))
    ensures CStep(CState(View2(1), mem), Small(true, f), Get("a", 3)) == Ran((CState(View2(3), mem), Hit([], 0)))
    ensures CGood(CState(View2(3), mem), Small(true, f))
  {
    var s := CState(View2(1), mem);
    FoundAt(s.view.cs, Small(true, f), 0);
    CStepIs(s, Small(true, f), Get("a", 3));
    assert BytesOf(mem, s.view.cs[0]) == [];
    assert View2(3).cs == View2(1).cs[0 := View2(1).cs[0].(hour := 3)];
  }

  /**
    From an empty table of three slabs under LRU: set a and b, get a, set c, and set an item
    that needs the whole table. All links are right when the last set begins, and it never
    ends: with frequency 0 or 1 it compacts for ever, else its evictions make the `prev` of c
    wrong and then hang on it.
    */
  lemma UsedAgainNeverEnds(mem: Bytes, f: int, r: Rules, s: CState, ops: seq<Op>, data: Bytes)
    requires |mem| == 12 && r == Small(true, f) && s == CState(InitView(r), mem) && 9 <= |data| <= 12 && |ops| == 5
    requires ops[0] == Set("a", [], 0, 1) && ops[1] == Set("b", [], 0, 2) && ops[2] == Get("a", 3)
    requires ops[3] == Set("c", [], 0, 4) && ops[4] == Set("d", data, 0, 5)
    ensures CGood(s, r) && (forall op :: op in ops ==> OpOk(op)) && CRun(s, r, ops) == Compacts(View3(3, 4), |data|)
    ensures AllRightBut(View3(3, 4), -1)
    ensures f == 0 || f == 1 ==> Meets(Loop(r, |data|), View3(3, 4), Spins)
    ensures f < 0 || f > 3 ==> Meets(Loop(r, |data|), View3(3, 4), Sticks)
  {
    assert forall op :: op in ops ==> OpOk(op);
    FirstSet(mem, true, f);
    SecondSet(mem, true, f);
    FirstUsedAgain(mem, f);
    ThirdSet(mem, true, f, 3, 4);
    FullTable(mem, true, f, 3, 4, data, 5);
    var t1, t2, t3, t4 := CState(View1(), mem), CState(View2(1), mem), CState(View2(3), mem), CState(View3(3, 4), mem);
    RunThree(s, t1, t2, t3, r, ops);
    AfterOne(t3, t4, r, ops[3..]);
    assert ops[3..][1..] == ops[4..];
    SameTrans(s, ops, t3, ops[3..], t4, ops[4..], r);
    LastCompacts(t4, r, ops[4..], View3(3, 4), |data|);
    FullStays(3, 4, r);
    if f < 2 || f > 3 { FullFate(3, 4, r, |data|); }
  }

  // ---------- a place set again ----------

  /** Four items under FIFO, with n bytes each: the first place was freed and set again after the second was set. */
  function View5(n: nat): View {
    View([Chunk(0, 4, 1, "a", 2, true, n, 0), Chunk(4, 4, 1, "b", 1, true, n, 0),
          Chunk(8, 4, 1, "c", 3, true, n, 0), Chunk(12, 4, 1, "d", 4, true, n, 0)],
         [0, 1, 2, 3], [], [NULL, 0, 1, 2], 4 * n, 0)
  }

  /**
    A request for the whole table hangs there, though all links are right when it begins: with
    no data after a compaction that is due, here with frequency -1; with full slabs before any
    compaction, whatever the frequency.
    */
  lemma PlaceSetAgainHangs(r: Rules, f: int, v: View, w: View)
    requires r == Rules(16, 4, false, false, f) && v == View5(0) && w == View5(4)
    ensures VGood(v, r) && VGood(w, r) && AllRightBut(v, -1) && AllRightBut(w, -1)
    ensures AllotV(v, r, 16) == Compacts(v, 16) && Compact(v.cs, false) == v.cs
    ensures f == -1 ==> Meets(Loop(r, 16), v, Sticks)
    ensures Meets(Loop(r, 16), w, Sticks)
  {
    FourItems(v, 0);
    FourItems(w, 4);
    FourGood(v, r, 0);
    FourGood(w, r, 4);
    AllUsedStay(v.cs);
    NoneFit(v.cs, 16, false);
    CompactsAtOnce(v, r, 16);
    if f == -1 { FourTrapped(v, r, 0); }
    FullSlabsHang(w, r);
  }

  /** The four items, without their places spelt out. */
  ghost predicate Four(v: View, n: nat) {
    && Shaped(v) && |v.cs| == 4 && v.current == 4 * n && v.due == 0 && v.pool == [] && n <= 4
    && (forall i :: 0 <= i < 4 ==> v.live[i] == i && v.back[i] == i - 1)
    && (forall i :: 0 <= i < 4 ==> v.cs[i].addr == 4 * i && v.cs[i].size == 4 && v.cs[i].used && v.cs[i].dataSize == n)
    && (forall i :: 0 <= i < 4 ==> v.cs[i].nkey == |v.cs[i].key| == 1)
    && (forall i, j :: 0 <= i < j < 4 ==> v.cs[i].key != v.cs[j].key)
    && v.cs[0].hour == 2 && v.cs[1].hour == 1 && v.cs[2].hour == 3 && v.cs[3].hour == 4
  }

  lemma FourItems(v: View, n: nat)
    requires v == View5(n) && n <= 4
    ensures Four(v, n)
  {
    assert v.cs[0].key == "a" && v.cs[1].key == "b" && v.cs[2].key == "c" && v.cs[3].key == "d";
  }

  lemma FourGood(v: View, r: Rules, n: nat)
    requires Four(v, n) && r.total == 16 && r.slab == 4
    ensures VGood(v, r) && AllRightBut(v, -1) && NodesApart(v) && forall c :: c in v.cs ==> c.used
  {
    forall c | c in v.cs ensures c.used && GoodChunk(c, 4) { }
    forall c, d | c in v.cs && d in v.cs && c.key == d.key ensures c == d { }
    forall k | 0 <= k < 4 ensures RightAt(v, k) { }
    SumDataFour(v.cs, n);
  }

  lemma NoneFit(cs: seq<Chunk>, need: nat, best: bool)
    requires forall c :: c in cs ==> c.used
    ensures Choose(cs, need, best).None?
  {
    forall i | 0 <= i < |cs| ensures !cs[i].Fits(need) { assert cs[i] in cs; }
  }

  lemma AllUsedStay(cs: seq<Chunk>)
    requires forall c :: c in cs ==> c.used
    ensures Compact(cs, false) == cs
  {
    forall i | 0 <= i < |cs| ensures !cs[i].Free() { assert cs[i] in cs; }
  }

  lemma FourTrapped(v: View, r: Rules, n: nat)
    requires Four(v, n) && VGood(v, r) && AllRightBut(v, -1) && NodesApart(v) && r.total == 16 && r.frequency < 0
    requires Choose(v.cs, 16, r.best).None? && Compact(v.cs, false) == v.cs && n == 0
    ensures Meets(Loop(r, 16), v, Sticks)
  {
    RightLinks(v);
    CarvedLeaky(v.cs, r);
    DueDecides(v, r, 16);
    var c := AfterCompaction(StageOf(v), r);
    NothingBehind(c, r, 16, c.cs[2]);
    assert Crosses(c.cs, 0, 2);
  }

  lemma FullSlabsHang(v: View, r: Rules)
    requires Four(v, 4) && VGood(v, r) && AllRightBut(v, -1) && NodesApart(v) && r.total == 16
    ensures Meets(Loop(r, 16), v, Sticks)
  {
    RightLinks(v);
    DataGone(StageOf(v), r, 16, v.cs[2]);
    assert Crosses(v.cs, 0, 2);
    LoopFate(v, r, 16);
  }

  /** A chunk whose data and whose place are in the way is evicted before the evictions stop. */
  lemma DataGone(a: Stage, r: Rules, need: nat, c: Chunk)
    requires Carved(a.cs, r) && need <= r.total && a.current == SumData(a.cs)
    requires c.used && c.dataSize + need > r.total && c.size + need > r.total
    ensures c !in Remaining(a, r, need).cs
  {
    CarvedLeaky(a.cs, r);
    UsedCount(a.cs);
    var ls := TrailOf(a, r, need);
    TrailIs(ls, r, need, |a.cs|);
    TrailSum(ls, r, need);
    TrailLeaky(ls, r, need);
    var g := Remaining(a, r, need);
    if c in g.cs {
      DataInSum(g.cs, c);
      FitsNowhere(g.cs, r.total, need, r.best, c);
    }
  }

  /** A stored chunk too large to leave room. */
  lemma FitsNowhere(g: seq<Chunk>, total: nat, need: nat, best: bool, c: Chunk)
    requires Leaky(g, total) && c in g && c.used && c.size + need > total
    ensures Choose(g, need, best).None?
  {
    var k :| 0 <= k < |g| && g[k] == c;
    forall i | 0 <= i < |g| ensures !g[i].Fits(need) {
      if k < i {
        TiledOrdered(g, total, k, i);
        TiledBounds(g, total, i);
      } else if i < k {
        TiledOrdered(g, total, i, k);
        TiledBounds(g, total, k);
      }
    }
  }

  lemma SumDataFour(cs: seq<Chunk>, n: nat)
    requires |cs| == 4 && forall c :: c in cs ==> c.dataSize == n
    ensures SumData(cs) == 4 * n
  {
    assert cs[1..][1..] == cs[2..] && cs[2..][1..] == cs[3..] && cs[3..][1..] == [];
    assert cs[0] in cs && cs[1] in cs && cs[2] in cs && cs[3] in cs;
    assert SumData(cs[3..]) == n && SumData(cs[2..]) == 2 * n;
  }
}
