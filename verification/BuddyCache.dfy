/**
  The buddy scheme between commands: what every state keeps, the loop that finds room by
  evicting, and sums over the chunks.
  */
module BuddyCache {
  import opened Basics
  import opened Chunks
  import opened BuddySpec

  datatype Config = Config(total: nat, slab: nat, lru: bool, best: bool)

  ghost predicate GoodConfig(g: Config) {
    IsPow2(g.total) && 1 <= g.slab <= g.total
  }

  // ---------- what every state between commands keeps ----------

  ghost predicate GoodChunk(c: Chunk, slab: nat) {
    && c.size >= slab
    && (c.used ==> c.hour != 0 && c.nkey == |c.key| != 0 && c.dataSize <= c.size)
    && (!c.used ==> c == Blank(c.addr, c.size))
  }

  ghost predicate UniqueKeys(cs: seq<Chunk>) {
    forall c, d :: c in cs && d in cs && c.used && d.used && c.key == d.key ==> c == d
  }

  /** Nothing is reserved; at most the pairs around `skip` may be free brothers. */
  ghost predicate QuietBut(cs: seq<Chunk>, g: Config, skip: int) {
    && GoodConfig(g)
    && Shape(cs, g.total) && NoFreePairBut(cs, skip)
    && (forall c :: c in cs ==> GoodChunk(c, g.slab))
    && UniqueKeys(cs)
  }

  ghost predicate Quiet(cs: seq<Chunk>, g: Config) { QuietBut(cs, g, -1) }

  /** Chunks never outnumber the nodes the creator makes available. */
  lemma QuietCount(cs: seq<Chunk>, g: Config, skip: int)
    requires QuietBut(cs, g, skip)
    ensures |cs| <= g.total / g.slab
  {
    TiledCount(cs, g.total, g.slab);
  }

  /**
    Whenever the allocation loop wants to split a chunk, fewer than total / slab chunks are
    live: with total / slab - 1 nodes in the pool at the start it never finds it empty.
    */
  lemma SplitFindsNode(cs: seq<Chunk>, g: Config, i: nat, need: nat)
    requires QuietBut(cs, g, i) && i < |cs| && need >= g.slab && cs[i].size / 2 >= need
    ensures |cs| < g.total / g.slab
  {
    SplitShape(cs, g.total, i);
    var r := SplitAt(cs, i);
    forall c | c in r ensures c.size >= g.slab {
      assert c in cs || c == LowerHalf(cs[i]) || c == UpperHalf(cs[i]);
    }
    TiledCount(r, g.total, g.slab);
  }

  // ---------- deletion ----------

  lemma SameChunk(cs: seq<Chunk>, total: nat, i: nat, j: nat)
    requires Shape(cs, total) && i < |cs| && j < |cs| && cs[i] == cs[j]
    ensures i == j
  {
    if i < j {
      TiledOrdered(cs, total, i, j);
    } else if j < i {
      TiledOrdered(cs, total, j, i);
    }
  }

  lemma BusyWithoutMembers(cs: seq<Chunk>, total: nat, i: nat, c: Chunk)
    requires Shape(cs, total) && i < |cs|
    ensures c in BusyWithout(cs, i) <==> c in cs && !c.Free() && c != cs[i]
  {
    BusyMembers(cs[..i], c);
    BusyMembers(cs[i + 1..], c);
    if c in cs && c != cs[i] {
      var j :| 0 <= j < |cs| && cs[j] == c;
      assert if j < i then cs[..i][j] == c else cs[i + 1..][j - i - 1] == c;
    }
    if c in cs[..i] || c in cs[i + 1..] {
      var j :| 0 <= j < |cs| && j != i && cs[j] == c;
      if c == cs[i] { SameChunk(cs, total, i, j); }
    }
  }

  /** Deleting one chunk takes exactly that chunk away and leaves the others as they are. */
  lemma ReleaseQuiet(cs: seq<Chunk>, g: Config, i: nat)
    requires Quiet(cs, g) && i < |cs|
    ensures var (r, j) := Release(cs, i);
            && Quiet(r, g) && BlankAt(r, j)
            && (forall c: Chunk :: c.used ==> (c in r <==> c in cs && c != cs[i]))
            && Busy(r) == BusyWithout(cs, i)
  {
    var (r, j) := Release(cs, i);
    ReleaseKeeps(cs, g.total, i);
    forall c: Chunk | c.used ensures c in r <==> c in cs && c != cs[i] {
      BusyMembers(r, c);
      BusyWithoutMembers(cs, g.total, i, c);
    }
    var cleared := cs[i := cs[i].Cleared()];
    CoalesceTail(cleared, i);
    assert cs[i] in cs;
    AroundGood(cs, cleared, i, r, j, g.slab);
  }

  lemma AroundGood(cs: seq<Chunk>, cleared: seq<Chunk>, i: nat, r: seq<Chunk>, j: nat, slab: nat)
    requires |cs| == |cleared| && SameAround(cleared, i, r, j)
    requires forall x :: 0 <= x < |cs| && x != i ==> cleared[x] == cs[x]
    requires forall c :: c in cs ==> GoodChunk(c, slab)
    requires GoodChunk(r[j], slab)
    ensures forall c :: c in r ==> GoodChunk(c, slab)
  {
    forall x | 0 <= x < |r| && x != j ensures GoodChunk(r[x], slab) {
      var y := if x < j then x else x + (|cs| - |r|);
      assert r[x] == cleared[y] == cs[y];
      assert cs[y] in cs;
    }
  }

  lemma ReleaseCount(cs: seq<Chunk>, g: Config, i: nat)
    requires Quiet(cs, g) && i < |cs| && cs[i].used
    ensures |Busy(Release(cs, i).0)| < |Busy(cs)|
  {
    ReleaseQuiet(cs, g, i);
    BusyAt(cs, i);
  }

  // ---------- allocation: diccionario_obtenerDireccion_buddy ----------

  /** With nothing reserved, a request no larger than the table finds room or a victim. */
  lemma VictimExists(cs: seq<Chunk>, g: Config, need: nat)
    requires Quiet(cs, g) && need <= g.total && Choose(cs, need, g.best).None?
    ensures Victim(cs).Some? && cs[Victim(cs).value].used
  {
    if forall i :: 0 <= i < |cs| ==> cs[i].Free() {
      AllFreeIsWhole(cs, g.total);
      assert cs[0].Fits(need);
    } else {
      var i :| 0 <= i < |cs| && !cs[i].Free();
      assert cs[i] in cs;
      assert cs[i].hour != 0;
    }
    var v := Victim(cs).value;
    assert cs[v] in cs;
  }

  /** Evict until something fits, then halve it down to the request. */
  function AllocIn(cs: seq<Chunk>, g: Config, need: nat): (seq<Chunk>, nat)
    requires Quiet(cs, g) && 1 <= need <= g.total
    decreases |Busy(cs)|
  {
    match Choose(cs, need, g.best)
    case Some(i) => (SplitDown(cs, i, need), i)
    case None =>
      VictimExists(cs, g, need);
      var v := Victim(cs).value;
      ReleaseQuiet(cs, g, v);
      ReleaseCount(cs, g, v);
      AllocIn(Release(cs, v).0, g, need)
  }

  /** Chunks evicted by the call are no younger than any stored chunk that survives it. */
  ghost predicate EvictsOldest(cs: seq<Chunk>, r: seq<Chunk>) {
    forall c, d :: c in cs && c.used && c !in r && d in r && d.used ==> c.hour <= d.hour
  }

  lemma {:induction false} AllocKeeps(cs: seq<Chunk>, g: Config, need: nat)
    requires Quiet(cs, g) && g.slab <= need <= g.total
    ensures var (r, i) := AllocIn(cs, g, need);
            && QuietBut(r, g, i) && BlankAt(r, i)
            && need <= r[i].size < 2 * need
            && (forall c :: c in r && c.used ==> c in cs)
            && EvictsOldest(cs, r)
    decreases |Busy(cs)|
  {
    match Choose(cs, need, g.best)
    case Some(i) =>
      assert cs[i] in cs;
      SplitDownQuiet(cs, g, i, need);
    case None =>
      VictimExists(cs, g, need);
      var v := Victim(cs).value;
      ReleaseQuiet(cs, g, v);
      ReleaseCount(cs, g, v);
      var s := Release(cs, v).0;
      AllocKeeps(s, g, need);
      var (r, i) := AllocIn(cs, g, need);
      forall c, d | c in cs && c.used && c !in r && d in r && d.used ensures c.hour <= d.hour {
        if c == cs[v] {
          assert d in cs;
          assert GoodChunk(d, g.slab);
        } else {
          assert c in s;
        }
      }
  }

  lemma {:induction false} SplitDownGood(cs: seq<Chunk>, i: nat, need: nat, slab: nat)
    requires i < |cs| && BlankAt(cs, i) && need >= 1 && need >= slab
    requires forall c :: c in cs ==> GoodChunk(c, slab)
    ensures forall c :: c in SplitDown(cs, i, need) ==> GoodChunk(c, slab)
    decreases cs[i].size
  {
    if cs[i].size / 2 >= need {
      SplitDownGood(SplitAt(cs, i), i, need, slab);
    }
  }

  lemma SplitDownQuiet(cs: seq<Chunk>, g: Config, i: nat, need: nat)
    requires QuietBut(cs, g, i) && i < |cs| && cs[i].Fits(need) && need >= g.slab
    ensures var r := SplitDown(cs, i, need);
            && QuietBut(r, g, i) && BlankAt(r, i)
            && need <= r[i].size < 2 * need
            && (forall c: Chunk :: c.used ==> (c in r <==> c in cs))
            && Busy(r) == Busy(cs)
  {
    var r := SplitDown(cs, i, need);
    assert cs[i] in cs;
    SplitDownKeeps(cs, g.total, i, need);
    SplitDownGood(cs, i, need, g.slab);
    forall c: Chunk | c.used ensures c in r <==> c in cs {
      BusyMembers(cs, c);
      BusyMembers(r, c);
    }
  }

  // ---------- table_current_size ----------

  /** Free chunks hold no data, so only the busy ones count. */
  lemma {:induction false} SumDataBusy(cs: seq<Chunk>)
    requires forall c :: c in cs && c.Free() ==> c.dataSize == 0
    ensures SumData(cs) == SumData(Busy(cs))
  {
    if cs != [] {
      assert forall c :: c in cs[1..] ==> c in cs;
      SumDataBusy(cs[1..]);
      SumDataConcat(if cs[0].Free() then [] else [cs[0]], Busy(cs[1..]));
      assert cs[0] in cs;
    }
  }

  lemma ReleaseSum(cs: seq<Chunk>, g: Config, i: nat)
    requires Quiet(cs, g) && i < |cs|
    ensures SumData(Release(cs, i).0) == SumData(cs) - cs[i].dataSize
  {
    ReleaseQuiet(cs, g, i);
    var r := Release(cs, i).0;
    assert cs[i] in cs;
    SumDataBusy(r);
    SumDataBusy(cs);
    var a, b := Busy(cs[..i]), Busy(cs[i + 1..]);
    var m := if cs[i].Free() then [] else [cs[i]];
    BusyAt(cs, i);
    SumDataConcat(a + m, b);
    SumDataConcat(a, m);
    SumDataConcat(a, b);
  }

  lemma {:induction false} SplitDownSum(cs: seq<Chunk>, i: nat, need: nat)
    requires i < |cs| && need >= 1
    ensures SumData(SplitDown(cs, i, need)) == SumData(cs)
    decreases cs[i].size
  {
    if cs[i].size / 2 >= need {
      SplitDownSum(SplitAt(cs, i), i, need);
      SplitSum(cs, i);
    }
  }

  lemma SplitSum(cs: seq<Chunk>, i: nat)
    requires i < |cs|
    ensures SumData(SplitAt(cs, i)) == SumData(cs)
  {
    Around(cs, i, i + 1);
    SumDataPair(LowerHalf(cs[i]), UpperHalf(cs[i]));
    SumDataPair(cs[i], cs[i]);
    SumDataReplace(cs, SplitAt(cs, i), cs[..i], cs[i..i + 1], [LowerHalf(cs[i]), UpperHalf(cs[i])], cs[i + 1..]);
  }

  lemma SumDataPair(x: Chunk, y: Chunk)
    ensures SumData([x, y]) == x.dataSize + y.dataSize
    ensures SumData([x]) == x.dataSize
  {
    SumDataConcat([x], [y]);
    assert [x, y] == [x] + [y];
    assert SumData([y]) == y.dataSize && SumData([x]) == x.dataSize by {
      assert [y][1..] == [] && [x][1..] == [];
    }
  }

  lemma SumDataReplace(cs: seq<Chunk>, ds: seq<Chunk>, a: seq<Chunk>, m: seq<Chunk>, n: seq<Chunk>, b: seq<Chunk>)
    requires cs == a + m + b && ds == a + n + b && SumData(m) == SumData(n)
    ensures SumData(cs) == SumData(ds)
  {
    SumDataThree(a, m, b);
    SumDataThree(a, n, b);
  }

  lemma SumDataThree(a: seq<Chunk>, m: seq<Chunk>, b: seq<Chunk>)
    ensures SumData(a + m + b) == SumData(a) + SumData(m) + SumData(b)
  {
    SumDataConcat(a + m, b);
    SumDataConcat(a, m);
  }

  lemma EmptySum(total: nat)
    ensures SumData([Blank(0, total)]) == 0
  {
    assert [Blank(0, total)][1..] == [];
  }

  lemma UpdateSum(cs: seq<Chunk>, i: nat, c: Chunk)
    requires i < |cs|
    ensures SumData(cs[i := c]) == SumData(cs) - cs[i].dataSize + c.dataSize
  {
    SumDataThree(cs[..i], [c], cs[i + 1..]);
    SumDataThree(cs[..i], cs[i..i + 1], cs[i + 1..]);
    Around(cs, i, i + 1);
    assert cs[i := c] == cs[..i] + [c] + cs[i + 1..];
  }
}
