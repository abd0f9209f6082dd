/**
  The dynamic-partition scheme on lists of chunks: deletion with coalescing and splitting a
  hole, and what every state between commands keeps.
  */
module DynamicSpec {
  import opened Basics
  import opened Chunks
  import opened BuddyCache
  import opened BuddySpec

  datatype Rules = Rules(total: nat, slab: nat, lru: bool, best: bool, frequency: int)

  // ---------- what every state keeps ----------

  ghost predicate Clean(cs: seq<Chunk>, slab: nat) {
    forall c :: c in cs ==> GoodChunk(c, slab)
  }

  /** No two neighbours are both unoccupied, leaving out the pairs that involve position `skip`. */
  ghost predicate CoalescedBut(cs: seq<Chunk>, skip: int) {
    forall i, j :: 0 <= i && j == i + 1 && j < |cs| && i != skip && j != skip ==> cs[i].used || cs[j].used
  }

  ghost predicate CarvedBut(cs: seq<Chunk>, r: Rules, skip: int) {
    && 1 <= r.slab <= r.total
    && Tiled(cs, r.total) && Clean(cs, r.slab) && CoalescedBut(cs, skip) && UniqueKeys(cs)
  }

  ghost predicate Carved(cs: seq<Chunk>, r: Rules) { CarvedBut(cs, r, -1) }

  /** With the pool of total / slab - 1 nodes, a hole worth splitting always finds a spare node. */
  lemma HoleFindsNode(cs: seq<Chunk>, r: Rules, i: nat, need: nat)
    requires Carved(cs, r) && i < |cs| && cs[i].Free()
    requires need >= r.slab && cs[i].size >= need + r.slab
    ensures |cs| < r.total / r.slab
  {
    var t := SplitHole(cs, i, need);
    SplitHoleTiled(cs, r.total, i, need);
    forall c | c in t ensures c.size >= r.slab {
      assert c in cs || c == cs[i].(size := need) || c == Blank(cs[i].addr + need, cs[i].size - need);
    }
    TiledCount(t, r.total, r.slab);
  }

  // ---------- deletion: diccionario_eliminar ----------

  /** Chunk k swallows the chunk after it. */
  function Absorb(cs: seq<Chunk>, k: nat): seq<Chunk>
    requires k + 1 < |cs|
  {
    cs[..k] + [cs[k].(size := cs[k].size + cs[k + 1].size)] + cs[k + 2..]
  }

  /** The backward loop: the chunk is swallowed by unoccupied chunks before it. */
  function MergeBack(cs: seq<Chunk>, i: nat): (seq<Chunk>, nat)
    requires i < |cs|
    decreases i
  {
    if i > 0 && !cs[i - 1].used then MergeBack(Absorb(cs, i - 1), i - 1) else (cs, i)
  }

  /** The forward loop: the chunk swallows unoccupied chunks after it. */
  function MergeFront(cs: seq<Chunk>, i: nat): seq<Chunk>
    requires i < |cs|
    decreases |cs| - i
  {
    if i + 1 < |cs| && !cs[i + 1].used then MergeFront(Absorb(cs, i), i) else cs
  }

  function Discard(cs: seq<Chunk>, i: nat): (seq<Chunk>, nat)
    requires i < |cs|
  {
    var (b, j) := MergeBack(cs[i := cs[i].Cleared()], i);
    MergeBackAt(cs[i := cs[i].Cleared()], i);
    (MergeFront(b, j), j)
  }

  /** Where the chunk that a deletion at i leaves begins and ends in the old list, and the chunk itself. */
  function JoinFrom(cs: seq<Chunk>, i: nat): (a: nat)
    requires i < |cs|
    ensures a <= i
  {
    if i > 0 && !cs[i - 1].used then i - 1 else i
  }

  function JoinTo(cs: seq<Chunk>, i: nat): (b: nat)
    requires i < |cs|
    ensures i < b <= |cs|
  {
    if i + 1 < |cs| && !cs[i + 1].used then i + 2 else i + 1
  }

  function Joined(cs: seq<Chunk>, i: nat): Chunk
    requires i < |cs|
  {
    var c := if i > 0 && !cs[i - 1].used then cs[i - 1].(size := cs[i - 1].size + cs[i].size) else cs[i].Cleared();
    if i + 1 < |cs| && !cs[i + 1].used then c.(size := c.size + cs[i + 1].size) else c
  }

  /** With no two unoccupied neighbours, a deletion joins the chunk with at most one on either side. */
  lemma DiscardShape(cs: seq<Chunk>, i: nat)
    requires CoalescedBut(cs, -1) && i < |cs| && cs[i].used
    ensures Discard(cs, i) == (cs[..JoinFrom(cs, i)] + [Joined(cs, i)] + cs[JoinTo(cs, i)..], JoinFrom(cs, i))
  {
    var c, a := cs[i := cs[i].Cleared()], JoinFrom(cs, i);
    var x := if a < i then cs[a].(size := cs[a].size + cs[i].size) else cs[i].Cleared();
    var b := cs[..a] + [x] + cs[i + 1..];
    assert MergeBack(c, i) == (b, a) by {
      if a < i {
        assert Absorb(c, a) == b;
        assert a > 0 ==> b[a - 1] == cs[a - 1] && cs[a - 1].used;
      } else {
        assert c == b;
      }
    }
    FrontShape(cs, i, b, a, x);
  }

  lemma FrontShape(cs: seq<Chunk>, i: nat, b: seq<Chunk>, a: nat, x: Chunk)
    requires CoalescedBut(cs, -1) && a <= i < |cs| && b == cs[..a] + [x] + cs[i + 1..]
    ensures i + 1 < |cs| && !cs[i + 1].used ==> MergeFront(b, a) == cs[..a] + [x.(size := x.size + cs[i + 1].size)] + cs[i + 2..]
    ensures !(i + 1 < |cs| && !cs[i + 1].used) ==> MergeFront(b, a) == b
  {
    if i + 1 < |cs| {
      assert b[a + 1] == cs[i + 1];
      if !cs[i + 1].used {
        var f := Absorb(b, a);
        assert f == cs[..a] + [x.(size := x.size + cs[i + 1].size)] + cs[i + 2..];
        assert i + 2 < |cs| ==> f[a + 1] == cs[i + 2] && cs[i + 2].used;
      }
    }
  }

  lemma AbsorbAround(cs: seq<Chunk>, k: nat)
    requires k + 1 < |cs|
    ensures SameAround(cs, k + 1, Absorb(cs, k), k)
  {
  }

  lemma {:induction false} MergeBackAt(cs: seq<Chunk>, i: nat)
    requires i < |cs|
    ensures var (b, j) := MergeBack(cs, i);
            SameAround(cs, i, b, j) && |b| - j == |cs| - i
    decreases i
  {
    if i > 0 && !cs[i - 1].used {
      var a := Absorb(cs, i - 1);
      AbsorbAround(cs, i - 1);
      MergeBackAt(a, i - 1);
      AroundTrans(cs, i, a, i - 1, MergeBack(a, i - 1).0, MergeBack(a, i - 1).1);
    }
  }

  /** The chunks behind the merged one are those that were behind the deleted one. */
  lemma {:induction false} MergeBackBehind(cs: seq<Chunk>, i: nat, d: nat)
    requires i < |cs| && 1 <= d
    ensures var (b, j) := MergeBack(cs, i);
            (j + d < |b| <==> i + d < |cs|) && (i + d < |cs| ==> b[j + d] == cs[i + d])
    decreases i
  {
    if i > 0 && !cs[i - 1].used {
      MergeBackBehind(Absorb(cs, i - 1), i - 1, d);
      assert i + d < |cs| ==> Absorb(cs, i - 1)[i - 1 + d] == cs[i + d];
    }
  }

  lemma AbsorbTiled(cs: seq<Chunk>, total: nat, k: nat)
    requires Tiled(cs, total) && k + 1 < |cs|
    ensures Tiled(Absorb(cs, k), total)
  {
    assert cs[k + 1].addr == cs[k].End();
  }

  lemma AbsorbBusy(cs: seq<Chunk>, k: nat)
    requires k + 1 < |cs| && cs[k].Free() && cs[k + 1].Free()
    ensures Busy(Absorb(cs, k)) == Busy(cs)
  {
    var joined := cs[k].(size := cs[k].size + cs[k + 1].size);
    Around(cs, k, k + 2);
    BusyPair(cs[k], cs[k + 1]);
    BusyPair(joined, cs[k]);
    BusyReplace(cs, Absorb(cs, k), cs[..k], cs[k..k + 2], [joined], cs[k + 2..]);
  }

  /** Both free, they make one free chunk and the rest is as before. */
  lemma AbsorbKeeps(cs: seq<Chunk>, total: nat, slab: nat, k: nat)
    requires Tiled(cs, total) && Clean(cs, slab) && k + 1 < |cs| && !cs[k].used && !cs[k + 1].used
    ensures var a := Absorb(cs, k);
            && Tiled(a, total) && Clean(a, slab) && !a[k].used && Busy(a) == Busy(cs)
  {
    AbsorbTiled(cs, total, k);
    assert cs[k] in cs && cs[k + 1] in cs;
    AbsorbBusy(cs, k);
    AbsorbClean(cs, slab, k);
  }

  lemma AbsorbClean(cs: seq<Chunk>, slab: nat, k: nat)
    requires Clean(cs, slab) && k + 1 < |cs| && !cs[k].used
    ensures Clean(Absorb(cs, k), slab)
  {
    var a := Absorb(cs, k);
    assert GoodChunk(cs[k], slab) by { assert cs[k] in cs; }
    forall c | c in a ensures GoodChunk(c, slab) {
      var j :| 0 <= j < |a| && a[j] == c;
      assert j != k ==> a[j] == cs[if j < k then j else j + 1];
    }
  }

  lemma {:induction false} MergeBackKeeps(cs: seq<Chunk>, total: nat, slab: nat, i: nat)
    requires Tiled(cs, total) && Clean(cs, slab) && i < |cs| && !cs[i].used && CoalescedBut(cs, i)
    ensures var (b, j) := MergeBack(cs, i);
            && j < |b| && Tiled(b, total) && Clean(b, slab) && !b[j].used && CoalescedBut(b, j)
            && Busy(b) == Busy(cs) && (j > 0 ==> b[j - 1].used)
    decreases i
  {
    if i > 0 && !cs[i - 1].used {
      AbsorbKeeps(cs, total, slab, i - 1);
      MergeBackKeeps(Absorb(cs, i - 1), total, slab, i - 1);
    }
  }

  lemma {:induction false} MergeFrontKeeps(cs: seq<Chunk>, total: nat, slab: nat, i: nat)
    requires Tiled(cs, total) && Clean(cs, slab) && i < |cs| && !cs[i].used && CoalescedBut(cs, i)
    requires i > 0 ==> cs[i - 1].used
    ensures var f := MergeFront(cs, i);
            && i < |f| && Tiled(f, total) && Clean(f, slab) && !f[i].used && CoalescedBut(f, -1)
            && Busy(f) == Busy(cs) && (forall x :: 0 <= x < i ==> f[x] == cs[x])
    decreases |cs| - i
  {
    if i + 1 < |cs| && !cs[i + 1].used {
      AbsorbKeeps(cs, total, slab, i);
      MergeFrontKeeps(Absorb(cs, i), total, slab, i);
    }
  }

  /** Deleting keeps the list carved and takes away exactly the deleted chunk. */
  lemma DiscardKeeps(cs: seq<Chunk>, r: Rules, i: nat)
    requires Carved(cs, r) && i < |cs|
    ensures var (f, j) := Discard(cs, i);
            && Carved(f, r) && j < |f| && !f[j].used
            && Busy(f) == BusyWithout(cs, i)
            && (forall c: Chunk :: c.used ==> (c in f <==> c in cs && c != cs[i]))
  {
    var cleared := cs[i := cs[i].Cleared()];
    ClearCarved(cs, r, i);
    MergeKeeps(cleared, r, i);
    DiscardMembers(cs, r, i, Discard(cs, i).0);
  }

  lemma MergeKeeps(cleared: seq<Chunk>, r: Rules, i: nat)
    requires Tiled(cleared, r.total) && Clean(cleared, r.slab) && CoalescedBut(cleared, i)
    requires i < |cleared| && !cleared[i].used
    ensures var (b, j) := MergeBack(cleared, i);
            && j < |b| && j < |MergeFront(b, j)|
            && var f := MergeFront(b, j);
               && Tiled(f, r.total) && Clean(f, r.slab) && CoalescedBut(f, -1)
               && !f[j].used && Busy(f) == Busy(cleared)
  {
    MergeBackKeeps(cleared, r.total, r.slab, i);
    var (b, j) := MergeBack(cleared, i);
    MergeFrontKeeps(b, r.total, r.slab, j);
  }

  lemma ClearCarved(cs: seq<Chunk>, r: Rules, i: nat)
    requires Carved(cs, r) && i < |cs|
    ensures var cleared := cs[i := cs[i].Cleared()];
            && Tiled(cleared, r.total) && Clean(cleared, r.slab) && CoalescedBut(cleared, i)
            && Busy(cleared) == BusyWithout(cs, i)
  {
    assert cs[i] in cs;
    BusyUpdate(cs, i, cs[i].Cleared());
  }

  lemma DiscardMembers(cs: seq<Chunk>, r: Rules, i: nat, f: seq<Chunk>)
    requires Tiled(cs, r.total) && Clean(cs, r.slab) && r.slab >= 1 && i < |cs| && UniqueKeys(cs)
    requires Busy(f) == BusyWithout(cs, i)
    ensures forall c: Chunk :: c.used ==> (c in f <==> c in cs && c != cs[i])
    ensures UniqueKeys(f)
  {
    forall c: Chunk | c.used ensures c in f <==> c in cs && c != cs[i] {
      BusyMembers(f, c);
      WithoutMembers(cs, r, i, c);
    }
  }

  lemma WithoutMembers(cs: seq<Chunk>, r: Rules, i: nat, c: Chunk)
    requires Tiled(cs, r.total) && Clean(cs, r.slab) && r.slab >= 1 && i < |cs|
    ensures c in BusyWithout(cs, i) <==> c in cs && !c.Free() && c != cs[i]
  {
    BusyMembers(cs[..i], c);
    BusyMembers(cs[i + 1..], c);
    if c in cs && c != cs[i] {
      var j :| 0 <= j < |cs| && cs[j] == c;
      assert if j < i then cs[..i][j] == c else cs[i + 1..][j - i - 1] == c;
    }
    if c in cs[..i] || c in cs[i + 1..] {
      var j :| 0 <= j < |cs| && j != i && cs[j] == c;
      assert cs[i] in cs && cs[j] in cs;
      if j < i { TiledOrdered(cs, r.total, j, i); } else { TiledOrdered(cs, r.total, i, j); }
    }
  }

  lemma DiscardCount(cs: seq<Chunk>, r: Rules, i: nat)
    requires Carved(cs, r) && i < |cs| && cs[i].used
    ensures |Busy(Discard(cs, i).0)| < |Busy(cs)|
    ensures SumData(Discard(cs, i).0) == SumData(cs) - cs[i].dataSize
  {
    DiscardKeeps(cs, r, i);
    BusyAt(cs, i);
    SumDataBusy(cs);
    SumDataBusy(Discard(cs, i).0);
    var a, b := Busy(cs[..i]), Busy(cs[i + 1..]);
    SumDataThree(a, [cs[i]], b);
    SumDataPair(cs[i], cs[i]);
    SumDataConcat(a, b);
  }

  // ---------- splitting a hole ----------

  function SplitHole(cs: seq<Chunk>, i: nat, need: nat): seq<Chunk>
    requires i < |cs| && cs[i].size >= need
  {
    cs[..i] + [cs[i].(size := need), Blank(cs[i].addr + need, cs[i].size - need)] + cs[i + 1..]
  }

  lemma SplitHoleTiled(cs: seq<Chunk>, total: nat, i: nat, need: nat)
    requires Tiled(cs, total) && i < |cs| && cs[i].size >= need
    ensures Tiled(SplitHole(cs, i, need), total)
  {
  }

  /** The rest of the hole becomes a chunk of its own when it is at least a slab long. */
  function TakeHole(cs: seq<Chunk>, i: nat, need: nat, slab: nat): seq<Chunk>
    requires i < |cs| && cs[i].size >= need
  {
    if cs[i].size - need >= slab then SplitHole(cs, i, need) else cs
  }

  lemma TakeHoleKeeps(cs: seq<Chunk>, r: Rules, i: nat, need: nat)
    requires Carved(cs, r) && i < |cs| && cs[i].Fits(need) && need >= r.slab
    ensures var t := TakeHole(cs, i, need, r.slab);
            && i < |t| && t[i] == Blank(t[i].addr, t[i].size) && need <= t[i].size < need + r.slab
            && CarvedBut(t, r, i) && (forall c: Chunk :: c.used ==> (c in t <==> c in cs))
            && (i > 0 ==> t[i - 1].used) && SumData(t) == SumData(cs)
            && (forall x :: 0 <= x < i ==> t[x] == cs[x])
  {
    assert cs[i] in cs;
    if cs[i].size - need >= r.slab {
      SplitHoleTiled(cs, r.total, i, need);
      HoleMembers(cs, i, need);
      HoleSum(cs, i, need);
      SplitHoleClean(cs, r, i, need);
    }
  }

  lemma SplitHoleClean(cs: seq<Chunk>, r: Rules, i: nat, need: nat)
    requires Carved(cs, r) && i < |cs| && cs[i].Fits(need) && need >= r.slab && cs[i].size - need >= r.slab
    ensures var t := SplitHole(cs, i, need);
            Clean(t, r.slab) && UniqueKeys(t) && CoalescedBut(t, i)
  {
    HoleMembers(cs, i, need);
    assert cs[i] in cs;
  }

  lemma HoleSum(cs: seq<Chunk>, i: nat, need: nat)
    requires i < |cs| && cs[i].size >= need
    ensures SumData(SplitHole(cs, i, need)) == SumData(cs)
  {
    var head, rest := cs[i].(size := need), Blank(cs[i].addr + need, cs[i].size - need);
    Around(cs, i, i + 1);
    SumDataPair(head, rest);
    SumDataPair(cs[i], rest);
    SumDataReplace(cs, SplitHole(cs, i, need), cs[..i], cs[i..i + 1], [head, rest], cs[i + 1..]);
  }

  lemma HoleMembers(cs: seq<Chunk>, i: nat, need: nat)
    requires i < |cs| && cs[i].size >= need && !cs[i].used
    ensures forall c :: c in SplitHole(cs, i, need) ==>
              c in cs || c == cs[i].(size := need) || c == Blank(cs[i].addr + need, cs[i].size - need)
    ensures forall c: Chunk :: c.used ==> (c in SplitHole(cs, i, need) <==> c in cs)
  {
    var t := SplitHole(cs, i, need);
    forall c: Chunk | c.used && c in cs ensures c in t {
      var j :| 0 <= j < |cs| && cs[j] == c;
      assert t[if j < i then j else j + 1] == c;
    }
  }
}
