/** Commands that lead from an empty table to a deletion that never ends. */
module ReachedStates {
  import opened Basics
  import opened Chunks
  import opened BuddyCache
  import opened LossyMap
  import opened DynamicSpec
  import opened CompactionSpec
  import opened DynamicRun
  import opened Dictionary
  import opened CodedRun
  import opened StaleLinks

  // ---------- commands that lead to a wrong prev ----------

  lemma FoundAt(cs: seq<Chunk>, r: Rules, i: nat)
    requires Carved(cs, r) && i < |cs| && cs[i].used
    ensures Find(cs, cs[i].key) == Some(i)
  {
    assert cs[i] in cs && GoodChunk(cs[i], r.slab);
    forall j | 0 <= j < |cs| && j != i ensures !cs[j].Named(cs[i].key) {
      assert cs[j] in cs && GoodChunk(cs[j], r.slab);
      if cs[j].used && cs[j].key == cs[i].key {
        if j < i { TiledOrdered(cs, r.total, j, i); } else { TiledOrdered(cs, r.total, i, j); }
        assert false;
      }
    }
    FindReserved(cs, i, cs[i].key);
  }

  /**
    From any good state with right links: delete an item that a free chunk and then another
    item follow, then delete that other item. The second command comes to a node whose `prev`
    is the head of the pool.
    */
  lemma TwoDeletesStop(s: CState, r: Rules, i: nat)
    requires CGood(s, r) && AllRightBut(s.view, -1) && NodesApart(s.view)
    requires i < |s.view.cs| && s.view.cs[i].used && LeavesStale(s.view.cs, i)
    ensures s.view.cs[i + 2].used && s.view.cs[i].key != "" && s.view.cs[i + 2].key != ""
    ensures var ops := [Delete(s.view.cs[i].key), Delete(s.view.cs[i + 2].key)];
            && CRun(s, r, ops).DeletesStale?
            && var w, k := CRun(s, r, ops).at, CRun(s, r, ops).i;
               k < |w.cs| && w.cs[k] == s.view.cs[i + 2] && StaleHead(w, k) && Hangs(w, k)
  {
    var v := s.view;
    assert v.cs[i + 1].used || v.cs[i + 2].used;
    assert v.cs[i] in v.cs && v.cs[i + 2] in v.cs;
    var w, j := FirstDelete(s, r, i);
    StaleStops(CState(w, s.mem), r, j + 1);
    RunTwo(s, CState(w, s.mem), r, [Delete(v.cs[i].key), Delete(v.cs[i + 2].key)], w, j + 1);
    PoolHangs(w, j + 1);
  }

  lemma FirstDelete(s: CState, r: Rules, i: nat) returns (w: View, j: nat)
    requires CGood(s, r) && AllRightBut(s.view, -1) && NodesApart(s.view)
    requires i < |s.view.cs| && s.view.cs[i].used && LeavesStale(s.view.cs, i) && s.view.cs[i + 2].used
    requires s.view.cs[i].key != ""
    ensures CStep(s, r, Delete(s.view.cs[i].key)) == Ran((CState(w, s.mem), Deleted))
    ensures VGood(w, r) && j + 1 < |w.cs| && w.cs[j + 1] == s.view.cs[i + 2] && !RightAt(w, j + 1)
    ensures StaleHead(w, j + 1) && NodesApart(w)
  {
    var v := s.view;
    FoundAt(v.cs, r, i);
    assert RightAt(v, i);
    RemoveKeeps(v, r, i);
    RemoveLeaves(v, r, i);
    NextItem(v.cs, i);
    RemoveApart(v, i);
    w, j := Remove(v, i).0, Remove(v, i).1;
  }

  /** A command that comes to delete a node with a wrong `prev` stops. */
  lemma StaleStops(t: CState, r: Rules, k: nat)
    requires CGood(t, r) && k < |t.view.cs| && t.view.cs[k].used && !RightAt(t.view, k)
    ensures t.view.cs[k].key != "" && CStep(t, r, Delete(t.view.cs[k].key)) == DeletesStale(t.view, k)
  {
    assert t.view.cs[k] in t.view.cs;
    FoundAt(t.view.cs, r, k);
  }

  lemma RunTwo(s: CState, t: CState, r: Rules, ops: seq<Op>, w: View, i: nat)
    requires CGood(s, r) && CGood(t, r) && |ops| == 2 && OpOk(ops[0]) && OpOk(ops[1])
    requires CStep(s, r, ops[0]) == Ran((t, Deleted)) && CStep(t, r, ops[1]) == DeletesStale(w, i)
    ensures (forall op :: op in ops ==> OpOk(op)) && CRun(s, r, ops) == DeletesStale(w, i)
  {
    RunOne(t, r, ops[1..], w, i);
  }

  lemma RunOne(t: CState, r: Rules, ops: seq<Op>, w: View, i: nat)
    requires CGood(t, r) && |ops| == 1 && OpOk(ops[0]) && CStep(t, r, ops[0]) == DeletesStale(w, i)
    ensures (forall op :: op in ops ==> OpOk(op)) && CRun(t, r, ops) == DeletesStale(w, i)
  {
  }

  /** Behind the merged chunk comes the item that was behind the gap. */
  lemma NextItem(cs: seq<Chunk>, i: nat)
    requires i + 2 < |cs| && !cs[i + 1].used && cs[i + 2].used
    ensures var (f, j) := Discard(cs, i); j + 1 < |f| && f[j + 1] == cs[i + 2]
  {
    var c := cs[i := cs[i].Cleared()];
    var (b, j) := MergeBack(c, i);
    assert j + 2 < |b| && b[j + 1] == cs[i + 1] && b[j + 2] == cs[i + 2] by {
      MergeBackAt(c, i);
      MergeBackBehind(c, i, 1);
      MergeBackBehind(c, i, 2);
    }
    FrontOne(b, j);
    assert Discard(cs, i) == (MergeFront(b, j), j);
  }

  lemma FrontOne(b: seq<Chunk>, j: nat)
    requires j + 2 < |b| && !b[j + 1].used && b[j + 2].used
    ensures j + 1 < |MergeFront(b, j)| && MergeFront(b, j)[j + 1] == b[j + 2]
  {
    var a := Absorb(b, j);
    assert a[j + 1] == b[j + 2];
    assert MergeFront(a, j) == a;
  }

  // ---------- such states are reached ----------

  /** A table of three slabs, first fit; the order of eviction and the compaction frequency are left open. */
  function Small(lru: bool, frequency: int): Rules { Rules(12, 4, lru, false, frequency) }

  function Item(addr: nat, k: string, now: nat): Chunk { Chunk(addr, 4, |k|, k, now, true, 0, 0) }

  /** An empty value set under a new key goes to the first free chunk, which is cut to a slab. */
  lemma SetsNext(lru: bool, f: int, s: CState, k: string, now: nat, i: nat)
    requires CGood(s, Small(lru, f)) && k != "" && KeyFits(k) && now > 0 && i < |s.view.cs|
    requires s.view.cs[i].Fits(4) && forall j :: 0 <= j < i ==> s.view.cs[j].used && s.view.cs[j].key != k
    requires i + 1 == |s.view.cs|
    ensures i < |TakeV(s.view, i, 4, 4).cs|
    ensures CStep(s, Small(lru, f), Set(k, [], 0, now))
            == Ran((CState(StoreV(TakeV(s.view, i, 4, 4), i, k, 0, 0, now), s.mem), Stored))
  {
    var v := s.view;
    ChooseUnique(v.cs, 4, false, i);
    TakeFits(v, Small(lru, f), i, 4);
    forall j | 0 <= j < |v.cs| ensures !v.cs[j].Named(k) { assert v.cs[j] in v.cs && GoodChunk(v.cs[j], 4); }
    assert CDrop(v, k) == Ran(v);
    PutsNext(lru, f, v, s.mem, k, now, i);
  }

  lemma PutsNext(lru: bool, f: int, v: View, mem: Bytes, k: string, now: nat, i: nat)
    requires VGood(v, Small(lru, f)) && |mem| == 12 && i < |v.cs| && v.cs[i].size >= 4
    requires i < |TakeV(v, i, 4, 4).cs| && AllotV(v, Small(lru, f), 4) == Ran((TakeV(v, i, 4, 4), i))
    ensures CPut(v, mem, Small(lru, f), k, [], 0, now) == Ran((CState(StoreV(TakeV(v, i, 4, 4), i, k, 0, 0, now), mem), Stored))
  {
    AllotVKeeps(v, Small(lru, f), 4, mem);
    TiledBounds(TakeV(v, i, 4, 4).cs, 12, i);
    WriteNothing(mem, TakeV(v, i, 4, 4).cs[i].addr);
    assert Max(0, 4) == 4;
  }

  lemma WriteNothing(mem: Bytes, a: nat)
    requires a <= |mem|
    ensures WriteAt(mem, a, []) == mem
  {
  }

  /** One item, the rest of the table free. */
  function View1(): View {
    View([Item(0, "a", 1), Blank(4, 8)], [0, 1], [2], [NULL, 0], 0, 0)
  }

  /** The hour of the first item, and below of the last, is left open. */
  function View2(x: nat): View {
    View([Item(0, "a", x), Item(4, "b", 2), Blank(8, 4)], [0, 1, 2], [], [NULL, 0, 1], 0, 0)
  }

  function View3(x: nat, y: nat): View {
    View([Item(0, "a", x), Item(4, "b", 2), Item(8, "c", y)], [0, 1, 2], [], [NULL, 0, 1], 0, 0)
  }

  function View4(): View {
    View([Item(0, "a", 1), Blank(4, 4), Item(8, "c", 3)], [0, 1, 2], [], [NULL, 0, 1], 0, 0)
  }

  lemma FirstSet(mem: Bytes, lru: bool, f: int)
    requires |mem| == 12
    ensures CGood(CState(InitView(Small(lru, f)), mem), Small(lru, f))
    ensures CStep(CState(InitView(Small(lru, f)), mem), Small(lru, f), Set("a", [], 0, 1)) == Ran((CState(View1(), mem), Stored))
    ensures CGood(CState(View1(), mem), Small(lru, f))
  {
    var s := CState(InitView(Small(lru, f)), mem);
    InitViewGood(Small(lru, f));
    assert s.view == View([Blank(0, 12)], [0], [1, 2], [NULL], 0, 0);
    SetsNext(lru, f, s, "a", 1, 0);
    var t := TakeV(s.view, 0, 4, 4);
    assert t == SplitV(s.view, 0, 4);
    assert t.cs == [Blank(0, 4), Blank(4, 8)] && t.live == [0, 1] && t.pool == [2] && t.back == [NULL, 0];
    assert StoreV(t, 0, "a", 0, 0, 1) == View1();
    CStepIs(s, Small(lru, f), Set("a", [], 0, 1));
  }

  lemma SecondSet(mem: Bytes, lru: bool, f: int)
    requires CGood(CState(View1(), mem), Small(lru, f))
    ensures CStep(CState(View1(), mem), Small(lru, f), Set("b", [], 0, 2)) == Ran((CState(View2(1), mem), Stored))
    ensures CGood(CState(View2(1), mem), Small(lru, f))
  {
    var s := CState(View1(), mem);
    SetsNext(lru, f, s, "b", 2, 1);
    var t := TakeV(s.view, 1, 4, 4);
    assert t == SplitV(s.view, 1, 4);
    assert t.cs == [Item(0, "a", 1), Blank(4, 4), Blank(8, 4)] && t.live == [0, 1, 2] && t.pool == [] && t.back == [NULL, 0, 1];
    assert StoreV(t, 1, "b", 0, 0, 2) == View2(1);
    CStepIs(s, Small(lru, f), Set("b", [], 0, 2));
  }

  /** A third item, after the first may have been used again. */
  lemma ThirdSet(mem: Bytes, lru: bool, f: int, x: nat, y: nat)
    requires CGood(CState(View2(x), mem), Small(lru, f)) && y > 0
    ensures CStep(CState(View2(x), mem), Small(lru, f), Set("c", [], 0, y)) == Ran((CState(View3(x, y), mem), Stored))
    ensures CGood(CState(View3(x, y), mem), Small(lru, f))
  {
    var s := CState(View2(x), mem);
    SetsNext(lru, f, s, "c", y, 2);
    assert TakeV(s.view, 2, 4, 4) == s.view;
    assert StoreV(s.view, 2, "c", 0, 0, y) == View3(x, y);
    CStepIs(s, Small(lru, f), Set("c", [], 0, y));
  }

  lemma DeleteMiddle(mem: Bytes, lru: bool, f: int)
    requires CGood(CState(View3(1, 3), mem), Small(lru, f))
    ensures CStep(CState(View3(1, 3), mem), Small(lru, f), Delete("b")) == Ran((CState(View4(), mem), Deleted))
    ensures CGood(CState(View4(), mem), Small(lru, f))
  {
    var s := CState(View3(1, 3), mem);
    FoundAt(s.view.cs, Small(lru, f), 1);
    assert RightAt(s.view, 1);
    var c := Cleared(s.view, 1);
    assert c == View4();
    assert BackV(c, 1) == (c, 1) && FrontV(c, 1) == c;
    CStepIs(s, Small(lru, f), Delete("b"));
  }

  /** The state after the four commands has right links, and its first deletion would leave a wrong one. */
  lemma GapThere(mem: Bytes, lru: bool, f: int)
    requires CGood(CState(View4(), mem), Small(lru, f))
    ensures AllRightBut(View4(), -1) && NodesApart(View4()) && View4().cs[0].used && LeavesStale(View4().cs, 0)
  {
  }

  /** From s the commands a end as b does from t: in the same state, or stopped at the same place. */
  ghost predicate SameEnd(s: CState, a: seq<Op>, t: CState, b: seq<Op>, r: Rules)
    requires CGood(s, r) && CGood(t, r) && (forall op :: op in a ==> OpOk(op)) && (forall op :: op in b ==> OpOk(op))
  {
    && (CRun(s, r, a).Ran? <==> CRun(t, r, b).Ran?)
    && (CRun(s, r, a).Ran? ==> CRun(s, r, a).value.0 == CRun(t, r, b).value.0)
    && (!CRun(s, r, a).Ran? ==> CRun(s, r, a) == CRun(t, r, b))
  }

  lemma AfterOne(s: CState, t: CState, r: Rules, ops: seq<Op>)
    requires CGood(s, r) && CGood(t, r) && (forall op :: op in ops ==> OpOk(op)) && ops != []
    requires CStep(s, r, ops[0]).Ran? && CStep(s, r, ops[0]).value.0 == t
    ensures SameEnd(s, ops, t, ops[1..], r)
  {
    CRunUnfold(s, r, ops);
  }

  lemma SameTrans(s: CState, a: seq<Op>, t: CState, b: seq<Op>, u: CState, c: seq<Op>, r: Rules)
    requires CGood(s, r) && CGood(t, r) && CGood(u, r)
    requires (forall op :: op in a ==> OpOk(op)) && (forall op :: op in b ==> OpOk(op)) && (forall op :: op in c ==> OpOk(op))
    requires SameEnd(s, a, t, b, r) && SameEnd(t, b, u, c, r)
    ensures SameEnd(s, a, u, c, r)
  {
  }

  /** Three sets fill a table of three slabs. */
  predicate Fills(ops: seq<Op>) {
    |ops| >= 3 && ops[0] == Set("a", [], 0, 1) && ops[1] == Set("b", [], 0, 2) && ops[2] == Set("c", [], 0, 3)
  }

  lemma FillsTable(mem: Bytes, lru: bool, f: int, r: Rules, s: CState, ops: seq<Op>)
    requires |mem| == 12 && r == Small(lru, f) && s == CState(InitView(r), mem)
    requires Fills(ops) && forall op :: op in ops ==> OpOk(op)
    ensures CGood(s, r) && CGood(CState(View3(1, 3), mem), r) && SameEnd(s, ops, CState(View3(1, 3), mem), ops[3..], r)
  {
    FirstSet(mem, lru, f);
    SecondSet(mem, lru, f);
    ThirdSet(mem, lru, f, 1, 3);
    RunThree(s, CState(View1(), mem), CState(View2(1), mem), CState(View3(1, 3), mem), r, ops);
  }

  lemma RunThree(s: CState, t1: CState, t2: CState, t3: CState, r: Rules, ops: seq<Op>)
    requires CGood(s, r) && CGood(t1, r) && CGood(t2, r) && CGood(t3, r) && |ops| >= 3 && forall op :: op in ops ==> OpOk(op)
    requires CStep(s, r, ops[0]).Ran? && CStep(s, r, ops[0]).value.0 == t1
    requires CStep(t1, r, ops[1]).Ran? && CStep(t1, r, ops[1]).value.0 == t2
    requires CStep(t2, r, ops[2]).Ran? && CStep(t2, r, ops[2]).value.0 == t3
    ensures SameEnd(s, ops, t3, ops[3..], r)
  {
    AfterOne(s, t1, r, ops);
    AfterOne(t1, t2, r, ops[1..]);
    AfterOne(t2, t3, r, ops[1..][1..]);
    SameTrans(s, ops, t1, ops[1..], t2, ops[1..][1..], r);
    SameTrans(s, ops, t2, ops[1..][1..], t3, ops[1..][1..][1..], r);
    assert ops[1..][1..][1..] == ops[3..];
  }

  /** With the middle item deleted there is a gap. */
  lemma ReachesGap(mem: Bytes, lru: bool, f: int, r: Rules, s: CState, ops: seq<Op>)
    requires |mem| == 12 && r == Small(lru, f) && s == CState(InitView(r), mem)
    requires Fills(ops) && |ops| >= 4 && ops[3] == Delete("b") && forall op :: op in ops ==> OpOk(op)
    ensures CGood(s, r) && CGood(CState(View4(), mem), r) && SameEnd(s, ops, CState(View4(), mem), ops[4..], r)
  {
    FillsTable(mem, lru, f, r, s, ops);
    DeleteMiddle(mem, lru, f);
    AfterOne(CState(View3(1, 3), mem), CState(View4(), mem), r, ops[3..]);
    assert ops[3..][1..] == ops[4..];
    SameTrans(s, ops, CState(View3(1, 3), mem), ops[3..], CState(View4(), mem), ops[4..], r);
  }

  lemma GapStops(mem: Bytes, lru: bool, f: int, t: CState, r: Rules, ops: seq<Op>)
    requires r == Small(lru, f) && t == CState(View4(), mem) && CGood(t, r) && ops == [Delete("a"), Delete("c")]
    ensures (forall op :: op in ops ==> OpOk(op)) && CRun(t, r, ops).DeletesStale?
    ensures var w, i := CRun(t, r, ops).at, CRun(t, r, ops).i;
            i < |w.cs| && w.cs[i].key == "c" && Hangs(w, i)
  {
    GapThere(mem, lru, f);
    assert t.view.cs[0].key == "a" && t.view.cs[2].key == "c";
    TwoDeletesStop(t, r, 0);
  }

  /**
    From an empty table of three slabs, whatever the frequency: set a, b and c, then delete b,
    a and c. The last command never ends.
    */
  lemma SixCommandsNeverEnd(mem: Bytes, lru: bool, f: int, r: Rules, s: CState, ops: seq<Op>)
    requires |mem| == 12 && r == Small(lru, f) && s == CState(InitView(r), mem) && Fills(ops)
    requires |ops| == 6 && ops[3] == Delete("b") && ops[4] == Delete("a") && ops[5] == Delete("c")
    ensures CGood(s, r) && (forall op :: op in ops ==> OpOk(op)) && CRun(s, r, ops).DeletesStale?
    ensures var w, i := CRun(s, r, ops).at, CRun(s, r, ops).i;
            i < |w.cs| && w.cs[i].key == "c" && Hangs(w, i)
  {
    assert forall op :: op in ops ==> OpOk(op);
    ReachesGap(mem, lru, f, r, s, ops);
    GapStops(mem, lru, f, CState(View4(), mem), r, ops[4..]);
  }
}
