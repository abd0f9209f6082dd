/** diccionario_compactarMemoria on the linked table and the arena, in place and as coded. */
module CompactMemory {
  import opened Basics
  import opened Chunks
  import opened BuddyCache
  import opened BuddySpec
  import opened DynamicSpec
  import opened CompactionSpec
  import opened Dictionary
  import opened CodedRun
  import opened CompactView
  import opened DynamicDictionary

  function PendingBytes(cs: seq<Chunk>, f: nat, mem: Bytes): Bytes
    requires f < |cs| && Tiled(cs, |mem|)
  {
    TiledCut(cs, |mem|, f);
    ShiftBytes(mem, cs[f], cs[f + 1..], false)
  }

  lemma PendingGrow(cs: seq<Chunk>, f: nat, mem: Bytes)
    requires f + 1 < |cs| && Tiled(cs, |mem|) && cs[f + 1].Free()
    ensures Tiled(Absorb(cs, f), |mem|)
    ensures PendingBytes(Absorb(cs, f), f, mem) == PendingBytes(cs, f, mem)
  {
    AbsorbTiled(cs, |mem|, f);
    var a := Absorb(cs, f);
    assert a[f] == Grown(cs[f], cs[f + 1]) && a[..f] == cs[..f];
    assert a[f + 1..] == cs[f + 2..] == cs[f + 1..][1..] && cs[f + 1..][0] == cs[f + 1];
  }

  lemma SwapTiled(cs: seq<Chunk>, total: nat, f: nat)
    requires f + 1 < |cs| && Tiled(cs, total)
    ensures Tiled(Swapped(cs, f), total)
    ensures cs[f].addr <= cs[f + 1].addr && cs[f + 1].addr + cs[f + 1].size <= total
    ensures cs[f + 1].addr == cs[f].addr + cs[f].size
  {
    var r := Swapped(cs, f);
    assert cs[f + 1].addr == cs[f].End();
    TiledBounds(cs, total, f + 1);
    forall i, j | 0 <= i && j == i + 1 && j < |r| ensures r[j].addr == r[i].End() {
      assert cs[j].addr == cs[i].End();
    }
  }

  lemma PendingSwap(cs: seq<Chunk>, f: nat, mem: Bytes)
    requires f + 1 < |cs| && Tiled(cs, |mem|) && !cs[f + 1].Free()
    requires Tiled(Swapped(cs, f), |mem|) && cs[f].addr <= cs[f + 1].addr && cs[f + 1].End() <= |mem|
    ensures |CopyDown(mem, cs[f].addr, cs[f + 1].addr, cs[f + 1].size)| == |mem|
    ensures PendingBytes(Swapped(cs, f), f + 1, CopyDown(mem, cs[f].addr, cs[f + 1].addr, cs[f + 1].size))
            == PendingBytes(cs, f, mem)
  {
    var r := Swapped(cs, f);
    var x, v := Moved(cs[f], cs[f + 1], false), Vacated(cs[f], cs[f + 1], false);
    assert r[..f + 1] == cs[..f] + [x];
    assert r[f + 2..] == cs[f + 2..] == cs[f + 1..][1..] && cs[f + 1..][0] == cs[f + 1] && r[f + 1] == v;
    TiledCut(cs, |mem|, f);
    assert Shift(cs[f], cs[f + 1..], false) == [x] + Shift(v, r[f + 2..], false);
  }

  /** A forward byte copy to a lower address. */
  method CopyBytes(mem: array<bv8>, dst: nat, src: nat, n: nat)
    requires dst <= src && src + n <= mem.Length
    modifies mem
    ensures mem[..] == CopyDown(old(mem[..]), dst, src, n)
  {
    var i := 0;
    while i < n
      invariant 0 <= i <= n
      invariant mem[..] == CopyDown(old(mem[..]), dst, src, i)
    {
      CopyStep(old(mem[..]), dst, src, i);
      mem[dst + i] := mem[src + i];
      i := i + 1;
    }
  }

  /** The byte to copy next has not been overwritten yet. */
  lemma CopyStep(mem: Bytes, dst: nat, src: nat, i: nat)
    requires dst <= src && src + i < |mem|
    ensures var m := CopyDown(mem, dst, src, i);
            |m| == |mem| && m[src + i] == mem[src + i] && m[dst + i := m[src + i]] == CopyDown(mem, dst, src, i + 1)
  {
  }

  /** Where the inner loop stands: the travelling free chunk at position f, nothing reserved behind it. */
  ghost predicate Travelling(d: Dict, mem: array<bv8>, free: nat, f: nat)
    reads d, d.table, mem
  {
    && d.Valid() && mem as object != d.table && f < |d.live| && free == d.live[f]
    && Tiled(d.cs, mem.Length) && !d.cs[f].used
    && CleanBehind(d.cs, f) && RightFrom(ViewOf(d), f)
  }

  /** From position f on, the `prev` of every unoccupied node is right. */
  ghost predicate RightFrom(v: View, f: nat)
    requires Shaped(v)
  {
    forall x :: f <= x < |v.cs| && !v.cs[x].used ==> RightAt(v, x)
  }

  lemma CutRightFrom(v: View, f: nat)
    requires Shaped(v) && f + 1 < |v.cs| && RightFrom(v, f) && !v.cs[f].used
    ensures Shaped(CutBack(v, f + 1)) && RightFrom(CutBack(v, f + 1), f) && f < |CutBack(v, f + 1).live|
    ensures CutBack(v, f + 1).live[f] == v.live[f]
  {
    CutBackLinks(v, f + 1);
    var w := CutBack(v, f + 1);
    forall x | f <= x < |w.cs| && !w.cs[x].used ensures RightAt(w, x) {
      assert x > f ==> w.cs[x] == v.cs[x + 1];
    }
  }

  /** Behind position f every chunk is stored under its full key, or blank. */
  ghost predicate CleanBehind(cs: seq<Chunk>, f: nat) {
    forall x :: f < x < |cs| ==> if cs[x].used then cs[x].nkey == |cs[x].key| else BlankAt(cs, x)
  }

  /** The free chunk swallows the free chunk behind it. */
  method Gather(d: Dict, mem: array<bv8>, free: nat, item: nat, ghost f: nat)
    requires Travelling(d, mem, free, f) && f + 1 < |d.live| && item == d.live[f + 1] && d.cs[f + 1].Free()
    modifies d, d.table
    ensures Travelling(d, mem, free, f) && |d.live| == |old(d.live)| - 1
    ensures CompactFrom(ViewOf(d), f) == CompactFrom(old(ViewOf(d)), f)
    ensures PendingBytes(d.cs, f, mem[..]) == PendingBytes(old(d.cs), f, mem[..])
  {
    GatherIs(ViewOf(d), f, mem[..]);
    assert BackOk(d.table[..], d.live, f + 1);
    AbsorbInto(d, free, item, f);
  }

  lemma GatherIs(v: View, f: nat, mem: Bytes)
    requires Shaped(v) && Tiled(v.cs, |mem|) && f + 1 < |v.cs| && v.cs[f + 1].Free() && !v.cs[f].used
    requires CleanBehind(v.cs, f) && RightFrom(v, f)
    ensures BlankAt(v.cs, f + 1) && RightAt(v, f + 1)
    ensures var w := CutBack(v, f + 1);
            && Shaped(w) && f < |w.cs| == |v.cs| - 1 && w.live[f] == v.live[f] && !w.cs[f].used
            && Tiled(w.cs, |mem|) && CleanBehind(w.cs, f) && RightFrom(w, f)
            && CompactFrom(w, f) == CompactFrom(v, f) && PendingBytes(w.cs, f, mem) == PendingBytes(v.cs, f, mem)
  {
    assert BlankAt(v.cs, f + 1) && RightAt(v, f + 1);
    PendingGrow(v.cs, f, mem);
    GatherClean(v.cs, f);
    CutRightFrom(v, f);
  }

  /** The inner loop that swallows every free chunk up to the next item. */
  method GatherRun(d: Dict, mem: array<bv8>, free: nat, item0: int, ghost f: nat) returns (item: int)
    requires Travelling(d, mem, free, f) && item0 == At(d.live, f + 1)
    modifies d, d.table
    ensures Travelling(d, mem, free, f) && item == At(d.live, f + 1) && |d.live| <= |old(d.live)|
    ensures item != NULL ==> !d.cs[f + 1].Free()
    ensures CompactFrom(ViewOf(d), f) == CompactFrom(old(ViewOf(d)), f)
    ensures PendingBytes(d.cs, f, mem[..]) == PendingBytes(old(d.cs), f, mem[..])
  {
    item := item0;
    while item != NULL && d.table[item].chunk.Free()
      invariant Travelling(d, mem, free, f) && item == At(d.live, f + 1) && |d.live| <= |old(d.live)|
      invariant CompactFrom(ViewOf(d), f) == CompactFrom(old(ViewOf(d)), f)
      invariant PendingBytes(d.cs, f, mem[..]) == PendingBytes(old(d.cs), f, mem[..])
      decreases |d.live|
    {
      assert d.table[item].chunk == d.cs[f + 1];
      Gather(d, mem, free, item, f);
      assert NextOk(d.table[..], d.live, f);
      item := d.table[free].next;
    }
    assert item != NULL ==> d.table[item].chunk == d.cs[f + 1];
  }

  lemma GatherClean(cs: seq<Chunk>, f: nat)
    requires f + 1 < |cs| && CleanBehind(cs, f) && !cs[f].used
    ensures CleanBehind(Absorb(cs, f), f) && !Absorb(cs, f)[f].used
  {
    var a := Absorb(cs, f);
    forall x | f < x < |a| ensures if a[x].used then a[x].nkey == |a[x].key| else BlankAt(a, x) {
      assert a[x] == cs[x + 1];
      assert if cs[x + 1].used then cs[x + 1].nkey == |cs[x + 1].key| else BlankAt(cs, x + 1);
    }
  }

  /** The record and the bytes of the item move down; its node takes over the free space. */
  method MoveItem(d: Dict, mem: array<bv8>, free: nat, item: nat, ghost f: nat)
    requires Travelling(d, mem, free, f) && f + 1 < |d.live| && item == d.live[f + 1] && !d.cs[f + 1].Free()
    modifies d, d.table, mem
    ensures Travelling(d, mem, item, f + 1) && d.live == old(d.live)
    ensures CompactFrom(ViewOf(d), f + 1) == CompactFrom(old(ViewOf(d)), f)
    ensures PendingBytes(d.cs, f + 1, mem[..]) == PendingBytes(old(d.cs), f, old(mem[..]))
  {
    ghost var cs, v := d.cs, ViewOf(d);
    SwapTiled(cs, mem.Length, f);
    PendingSwap(cs, f, mem[..]);
    assert d.table[free].chunk == cs[f] && d.table[item].chunk == cs[f + 1];
    CopyBytes(mem, d.table[free].chunk.addr, d.table[item].chunk.addr, d.table[item].chunk.size);
    SwapRecords(d, free, item, f);
    SwapClean(cs, f);
    SwapRight(v, ViewOf(d), f);
  }

  /** All but nkey and flags of the item go to the free chunk's node, its space the other way, and its `prev` is set. */
  method SwapRecords(d: Dict, free: nat, item: nat, ghost f: nat)
    requires d.Valid() && f + 1 < |d.live| && free == d.live[f] && item == d.live[f + 1]
    modifies d.table, d`cs
    ensures d.Valid() && d.cs == Swapped(old(d.cs), f)
    ensures Backs(d.table[..], d.live) == old(ViewOf(d)).back[f + 1 := free]
  {
    assert d.table[free].chunk == d.cs[f] && d.table[item].chunk == d.cs[f + 1];
    var x, y := d.table[free].chunk, d.table[item].chunk;
    SwapByUpdate(d.cs, f);
    PutPair(d, item, Chunk(x.addr + y.size, x.size, y.nkey, "", 0, false, 0, y.flags),
            free, Chunk(x.addr, y.size, x.nkey, y.key, y.hour, true, y.dataSize, x.flags), f);
    d.RepairPrev(item, free, f + 1);
  }

  lemma SwapByUpdate(cs: seq<Chunk>, f: nat)
    requires f + 1 < |cs|
    ensures cs[f + 1 := Vacated(cs[f], cs[f + 1], false)][f := Moved(cs[f], cs[f + 1], false)] == Swapped(cs, f)
  {
  }

  lemma SwapRight(v: View, w: View, f: nat)
    requires Shaped(v) && Shaped(w) && f + 1 < |v.cs| && RightFrom(v, f) && w.live == v.live
    requires w.cs == Swapped(v.cs, f) && w.back == v.back[f + 1 := v.live[f]]
    ensures RightFrom(w, f + 1)
  {
    forall x | f + 1 <= x < |w.cs| && !w.cs[x].used ensures RightAt(w, x) {
      assert x > f + 1 ==> w.cs[x] == v.cs[x] && RightAt(v, x);
    }
  }

  lemma SwapClean(cs: seq<Chunk>, f: nat)
    requires f + 1 < |cs| && CleanBehind(cs, f)
    ensures CleanBehind(Swapped(cs, f), f + 1) && !Swapped(cs, f)[f + 1].used
  {
    var r := Swapped(cs, f);
    forall z | f + 1 < z < |r| ensures if r[z].used then r[z].nkey == |r[z].key| else BlankAt(r, z) {
      assert r[z] == cs[z];
      assert if cs[z].used then cs[z].nkey == |cs[z].key| else BlankAt(cs, z);
    }
  }

  /** Move the item down and step both pointers. */
  method MoveOn(d: Dict, mem: array<bv8>, free: nat, item: nat, ghost f: nat) returns (free': nat, item': int, ghost f': nat)
    requires Travelling(d, mem, free, f) && f + 1 < |d.live| && item == d.live[f + 1] && !d.cs[f + 1].Free()
    modifies d, d.table, mem
    ensures f' == f + 1 && d.live == old(d.live) && item' == At(d.live, f' + 1) && Travelling(d, mem, free', f')
    ensures CompactFrom(ViewOf(d), f') == CompactFrom(old(ViewOf(d)), f)
    ensures PendingBytes(d.cs, f', mem[..]) == PendingBytes(old(d.cs), f, old(mem[..]))
  {
    MoveItem(d, mem, free, item, f);
    f' := f + 1;
    assert NextOk(d.table[..], d.live, f');
    free', item' := item, d.table[item].next;
  }

  /**
    diccionario_compactarMemoria. The inner loop only ends with no item left, so the outer loop
    of the source never comes round again and is one pass here.
    */
  method CompactAll(d: Dict, mem: array<bv8>)
    requires d.Valid() && mem as object != d.table && Tiled(d.cs, mem.Length) && d.slab >= 1 && Clean(d.cs, d.slab)
    requires UnusedRightBut(ViewOf(d), -1)
    modifies d, d.table, mem
    ensures d.Valid() && ViewOf(d) == CompactV(old(ViewOf(d))) && d.cs == Compact(old(d.cs), false)
    ensures mem[..] == CompactBytes(old(d.cs), old(mem[..]), false)
  {
    CompactVIs(ViewOf(d));
    var free, f := SkipItems(d);
    if free != NULL {
      SetsOut(d, mem, free, f);
      CompactRest(d, mem, free, f, CompactV(ViewOf(d)), CompactBytes(d.cs, mem[..], false));
    }
  }

  lemma SetsOut(d: Dict, mem: array<bv8>, free: nat, f: nat)
    requires d.Valid() && mem as object != d.table && Tiled(d.cs, mem.Length) && d.slab >= 1 && Clean(d.cs, d.slab)
    requires UnusedRightBut(ViewOf(d), -1) && f == FirstFree(d.cs) < |d.live| && free == d.live[f]
    ensures OnTheWay(d, mem, f, CompactV(ViewOf(d)), CompactBytes(d.cs, mem[..], false))
  {
    CleanIsBehind(d.cs, d.slab, f);
  }

  /** From the first free chunk on. */
  method CompactRest(d: Dict, mem: array<bv8>, free0: nat, ghost f0: nat, ghost w: View, ghost out: Bytes)
    requires OnTheWay(d, mem, f0, w, out) && free0 == d.live[f0]
    modifies d, d.table, mem
    ensures d.Valid() && ViewOf(d) == w && mem[..] == out
  {
    var free := free0;
    ghost var f := f0;
    assert NextOk(d.table[..], d.live, f);
    var item := d.table[free].next;
    while item != NULL
      invariant OnTheWay(d, mem, f, w, out) && free == d.live[f] && item == At(d.live, f + 1)
      decreases |d.live| - f
    {
      free, item, f := CompactNext(d, mem, free, item, f, w, out);
    }
    PendingDone(d.cs, f, mem[..]);
  }

  /** The free chunk is at f, and the rest of the loop comes to this view and these bytes. */
  ghost predicate OnTheWay(d: Dict, mem: array<bv8>, f: nat, w: View, out: Bytes)
    reads d, d.table, mem
  {
    && f < |d.live| && Travelling(d, mem, d.live[f], f)
    && CompactFrom(ViewOf(d), f) == w && PendingBytes(d.cs, f, mem[..]) == out
  }

  /** The body: free chunks behind are swallowed, and the item behind them moves down. */
  method CompactNext(d: Dict, mem: array<bv8>, free: nat, item: nat, ghost f: nat, ghost w: View, ghost out: Bytes)
    returns (free': nat, item': int, ghost f': nat)
    requires OnTheWay(d, mem, f, w, out) && free == d.live[f] && item == At(d.live, f + 1)
    modifies d, d.table, mem
    ensures OnTheWay(d, mem, f', w, out) && free' == d.live[f'] && item' == At(d.live, f' + 1)
    ensures item' != NULL ==> |d.live| - f' < |old(d.live)| - f
  {
    item' := GatherRun(d, mem, free, item, f);
    free', f' := free, f;
    if item' != NULL {
      free', item', f' := MoveOn(d, mem, free, item', f);
    }
  }

  /** The walk to the first free chunk. */
  method SkipItems(d: Dict) returns (free: int, ghost f: nat)
    requires d.Valid()
    ensures f == FirstFree(d.cs) && free == At(d.live, f)
  {
    free, f := d.elements, 0;
    while free != NULL && !d.table[free].chunk.Free()
      invariant f <= |d.live| && free == At(d.live, f)
      invariant forall j :: 0 <= j < f ==> !d.cs[j].Free()
      decreases |d.live| - f
    {
      assert NextOk(d.table[..], d.live, f) && d.table[free].chunk == d.cs[f];
      free, f := d.table[free].next, f + 1;
    }
    assert free != NULL ==> d.table[free].chunk == d.cs[f];
  }

  lemma CleanIsBehind(cs: seq<Chunk>, slab: nat, f: nat)
    requires Clean(cs, slab) && f < |cs|
    ensures CleanBehind(cs, f) && (cs[f].Free() ==> !cs[f].used)
  {
    forall x | f < x < |cs| ensures if cs[x].used then cs[x].nkey == |cs[x].key| else BlankAt(cs, x) {
      assert cs[x] in cs;
    }
  }

  lemma PendingDone(cs: seq<Chunk>, f: nat, mem: Bytes)
    requires f + 1 == |cs| && Tiled(cs, |mem|)
    ensures PendingBytes(cs, f, mem) == mem
  {
    assert cs[f + 1..] == [];
  }
}
