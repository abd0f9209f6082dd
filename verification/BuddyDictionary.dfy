/** The buddy scheme on the linked table: splitting, deleting and allocating in place. */
module BuddyDictionary {
  import opened Basics
  import opened Chunks
  import opened Division
  import opened BuddySpec
  import opened BuddyCache
  import opened Dictionary

  ghost function Cfg(d: Dict): Config { Config(d.total, d.slab, d.lru, d.best) }

  lemma SplitByInsertion(cs: seq<Chunk>, i: nat, x: Chunk)
    requires i < |cs|
    ensures Inserted(cs, i + 1, x)[i + 1 := UpperHalf(cs[i])][i := LowerHalf(cs[i])] == SplitAt(cs, i)
  {
  }

  /** A spare node enters the list after item and every `prev` stays right. */
  method InsertLinked(d: Dict, item: nat, ghost i: nat) returns (n: nat)
    requires d.Linked() && i < |d.live| && item == d.live[i] && |d.pool| > 0
    modifies d, d.table
    ensures d.Linked() && n < d.table.Length && Spare(d.table[n])
    ensures d.live == Inserted(old(d.live), i + 1, n) && |d.pool| == |old(d.pool)| - 1
    ensures d.cs == Inserted(old(d.cs), i + 1, d.table[n].chunk)
    ensures d.current == old(d.current) && d.due == old(d.due)
  {
    ghost var was := d.live;
    n := d.InsertSpare(item, i);
    forall j | 0 <= j < |was| && j != i + 1 ensures BackOk(d.table[..], was, j) {
      assert BackOk(old(d.table[..]), was, j);
    }
    InsertedBack(d.table[..], was, i + 1, n);
  }

  /** agregarHijosDePadre. */
  method SplitIntoBrothers(d: Dict, father: nat, ghost i: nat)
    requires d.Linked() && i < |d.live| && father == d.live[i] && |d.pool| > 0
    modifies d, d.table
    ensures d.Linked() && |d.live| == old(|d.live|) + 1 && d.live[i] == father
    ensures d.cs == SplitAt(old(d.cs), i)
    ensures d.current == old(d.current) && d.due == old(d.due)
  {
    ghost var cs := d.cs;
    var n := InsertLinked(d, father, i);
    SplitByInsertion(cs, i, d.table[n].chunk);
    assert d.table[father].chunk == d.cs[i] == cs[i];
    assert d.table[n].chunk == d.cs[i + 1];
    var half := d.table[father].chunk.size / 2;
    var low := d.table[father].chunk.addr;
    d.PutChunk(n, d.table[n].chunk.(size := half, addr := low + half), i + 1);
    d.PutChunk(father, d.table[father].chunk.(size := half), i);
  }

  /**
    esElPrimerHermano: counting whole blocks of the item's size before it tells whether the
    item is the first of the two brothers.
    */
  method IsFirstBrother(d: Dict, item: nat, ghost i: nat) returns (first: bool)
    requires d.Valid() && Shape(d.cs, d.total) && i < |d.live| && item == d.live[i]
    ensures first == d.cs[i].FirstBrother()
  {
    var aux := d.elements;
    var count, part := 0, 0;
    ghost var a: nat := 0;
    assert d.table[item].chunk == d.cs[i];
    while aux != NULL && aux != item
      invariant a <= i && aux == d.live[a]
      invariant 0 <= part < d.cs[i].size && 0 <= count
      invariant d.cs[a].addr == count * d.cs[i].size + part
      decreases i - a
    {
      var c := d.table[aux].chunk;
      assert NextOk(d.table[..], d.live, a) && c == d.cs[a] && a != i;
      CountStep(c, d.cs[i].size, count, part);
      if c.size < d.table[item].chunk.size {
        part := part + c.size % d.table[item].chunk.size;
        if part == d.table[item].chunk.size {
          count := count + 1;
          part := 0;
        }
      } else {
        count := count + c.size / d.table[item].chunk.size;
      }
      assert d.cs[a + 1].addr == c.End();
      aux, a := d.table[aux].next, a + 1;
    }
    assert a == i;
    DivModUnique(d.cs[i].addr, d.cs[i].size, count, part);
    return count % 2 == 0;
  }

  /** One round of the count: what it holds together is the offset of the next chunk. */
  lemma CountStep(c: Chunk, s: nat, count: nat, part: nat)
    requires Aligned(c) && IsPow2(s) && part < s && c.addr == count * s + part
    ensures c.size < s ==> c.size % s == c.size && part + c.size <= s
    ensures c.size >= s ==> part == 0 && c.End() == (count + c.size / s) * s
    ensures (count + 1) * s == count * s + s
  {
    MulStep(count, s);
    if c.size < s {
      CountSmall(c, s, count, part);
    } else {
      CountLarge(c, s, count, part);
    }
  }

  lemma CountSmall(c: Chunk, s: nat, count: nat, part: nat)
    requires Aligned(c) && IsPow2(s) && part < s && c.addr == count * s + part && c.size < s
    ensures c.size % s == c.size && part + c.size <= s
  {
    DivModUnique(c.size, s, 0, c.size);
    Pow2Divides(c.size, s);
    // the block size and the offset are multiples of the chunk's size, so is the part
    ModOfMultiple(count, s);
    ModTrans(count * s, c.size, s);
    ModAdd(count * s, part, c.size);
    SmallMultiple(part, c.size, s);
  }

  lemma CountLarge(c: Chunk, s: nat, count: nat, part: nat)
    requires Aligned(c) && IsPow2(s) && part < s && c.addr == count * s + part && c.size >= s
    ensures part == 0 && c.End() == (count + c.size / s) * s
  {
    Pow2Divides(s, c.size);
    ModTrans(c.addr, s, c.size);
    DivModUnique(c.addr, s, count, part);
    Distribute(count, c.size / s, s);
  }

  lemma Distribute(a: nat, b: nat, s: nat)
    ensures (a + b) * s == a * s + b * s
  {
  }

  lemma SmallMultiple(part: nat, u: nat, s: nat)
    requires u > 0 && part % u == 0 && s % u == 0 && part < s
    ensures part + u <= s
  {
    var p, q := part / u, s / u;
    assert part == p * u && s == q * u;
    if p >= q {
      if p > q { DivUpper(p, q, u); }
    } else {
      MulStep(p, u);
      if q > p + 1 { DivUpper(q, p + 1, u); }
    }
  }

  /** The second of two brothers always has a chunk before it. */
  lemma SecondHasBefore(cs: seq<Chunk>, total: nat, i: nat)
    requires Shape(cs, total) && i < |cs| && !cs[i].FirstBrother()
    ensures i > 0
  {
    var size := cs[0].size;
    if size > 0 { ModOfMultiple(0, size); }
  }

  /** The inlined unlinking of an absorbed brother. */
  method RetireBrother(d: Dict, bro: nat, ghost b: nat)
    requires d.Linked() && b < |d.live| && bro == d.live[b] && |d.live| > 1
    requires d.cs[b] == Blank(d.cs[b].addr, d.cs[b].size)
    modifies d, d.table
    ensures d.Linked() && d.live == Removed(old(d.live), b) && d.cs == Removed(old(d.cs), b)
    ensures d.current == old(d.current) && d.due == old(d.due)
  {
    assert d.table[bro].chunk == d.cs[b];
    d.PutChunk(bro, d.table[bro].chunk.(size := 0, addr := 0), b);
    ghost var was, t := d.live, d.table[..];
    assert forall j :: 0 <= j < |was| ==> BackOk(t, was, j);
    d.RetireNode(bro, b);
    forall j | 0 <= j < |was| && j != b && j != b + 1 ensures BackOk(d.table[..], was, j) {
      assert BackOk(t, was, j);
    }
    RemovedBack(d.table[..], was, b);
    assert d.cs == Removed(old(d.cs), b);
  }

  ghost predicate FreeAreBlank(cs: seq<Chunk>) {
    forall i :: 0 <= i < |cs| && cs[i].Free() ==> BlankAt(cs, i)
  }

  lemma ClearedBlank(cs: seq<Chunk>, total: nat, i: nat)
    requires FreeAreBlank(cs) && Shape(cs, total) && i < |cs|
    ensures var r := cs[i := cs[i].Cleared()]; FreeAreBlank(r) && Shape(r, total) && BlankAt(r, i)
  {
    var r := cs[i := cs[i].Cleared()];
    forall x | 0 <= x < |r| && r[x].Free() ensures BlankAt(r, x) {
      assert x != i ==> BlankAt(cs, x);
    }
  }

  lemma JoinByRemoval(cs: seq<Chunk>, j: nat)
    requires j < |cs| && CanJoin(cs, j) && BlankAt(cs, j) && FreeAreBlank(cs)
    ensures var lo := LowBrother(cs, j);
            && Removed(cs, Brother(cs, j))[lo := cs[j].(addr := cs[lo].addr, size := cs[j].size * 2)] == JoinAt(cs, j)
            && BlankAt(JoinAt(cs, j), lo) && FreeAreBlank(JoinAt(cs, j))
            && Removed(cs, Brother(cs, j))[lo] == cs[j]
  {
    var r := JoinAt(cs, j);
    var lo := LowBrother(cs, j);
    forall x | 0 <= x < |r| && r[x].Free() ensures BlankAt(r, x) {
      assert x < lo ==> r[x] == cs[x] && (cs[x].Free() ==> BlankAt(cs, x));
      assert x > lo ==> r[x] == cs[x + 1] && (cs[x + 1].Free() ==> BlankAt(cs, x + 1));
    }
  }

  /** Where the merge loop stands: `it` is blank at position j, `bro` its brother, `data` the lower address. */
  ghost predicate Merging(d: Dict, it: nat, bro: int, data: nat, j: nat)
    reads d, d.table
  {
    && d.Linked() && j < |d.live| && it == d.live[j]
    && Shape(d.cs, d.total) && BlankAt(d.cs, j)
    && FreeAreBlank(d.cs)
    && bro == At(d.live, Brother(d.cs, j))
    && (d.cs[j].FirstBrother() || j > 0)
    && data == d.cs[if d.cs[j].FirstBrother() then j else j - 1].addr
  }

  /** Look up the brother of `it`, and the address the pair would start at. */
  method FindBrother(d: Dict, it: nat, data: nat, ghost j: nat) returns (bro: int, low: nat)
    requires d.Linked() && j < |d.live| && it == d.live[j] && Shape(d.cs, d.total)
    ensures bro == At(d.live, Brother(d.cs, j)) && (d.cs[j].FirstBrother() || j > 0)
    ensures low == if d.cs[j].FirstBrother() then data else d.cs[j - 1].addr
  {
    assert NextOk(d.table[..], d.live, j) && BackOk(d.table[..], d.live, j);
    bro, low := d.table[it].next, data;
    var first := IsFirstBrother(d, it, j);
    if !first {
      SecondHasBefore(d.cs, d.total, j);
      bro := d.table[it].prev;
      assert d.table[bro].chunk == d.cs[j - 1];
      low := d.table[bro].chunk.addr;
    }
  }

  /** One round of the merge loop. */
  method MergeOnce(d: Dict, it: nat, bro: nat, data: nat, ghost j: nat)
    returns (bro': int, data': nat, ghost j': nat)
    requires Merging(d, it, bro, data, j) && CanJoin(d.cs, j)
    modifies d, d.table
    ensures Merging(d, it, bro', data', j')
    ensures d.cs == JoinAt(old(d.cs), j) && j' == LowBrother(old(d.cs), j)
    ensures |d.live| == old(|d.live|) - 1
    ensures d.current == old(d.current) && d.due == old(d.due)
  {
    ghost var cs, lo := d.cs, LowBrother(d.cs, j);
    JoinShape(cs, d.total, j);
    JoinByRemoval(cs, j);
    assert BlankAt(cs, Brother(cs, j));
    RetireBrother(d, bro, Brother(cs, j));
    assert d.live[lo] == it && d.table[it].chunk == d.cs[lo] == cs[j];
    d.PutChunk(it, d.table[it].chunk.(addr := data, size := d.table[it].chunk.size * 2), lo);
    j' := lo;
    bro', data' := FindBrother(d, it, data, j');
  }

  /** diccionario_eliminar_buddy. */
  method Delete(d: Dict, it: nat, ghost i: nat) returns (ghost j: nat)
    requires d.Linked() && i < |d.live| && it == d.live[i]
    requires Shape(d.cs, d.total)
    requires FreeAreBlank(d.cs)
    modifies d, d.table
    ensures d.Linked() && (d.cs, j) == Release(old(d.cs), i) && j < |d.live| && it == d.live[j]
    ensures d.current == old(d.current) - old(d.cs)[i].dataSize && d.due == old(d.due)
  {
    ghost var start := d.cs[i := d.cs[i].Cleared()];
    assert d.table[it].chunk == d.cs[i];
    ClearedBlank(d.cs, d.total, i);
    var bro, data := FindBrother(d, it, d.table[it].chunk.addr, i);
    d.current := d.current - d.table[it].chunk.dataSize;
    d.PutChunk(it, d.table[it].chunk.Cleared(), i);
    j := i;
    while bro != NULL && d.table[bro].chunk.Free() && d.table[bro].chunk.size == d.table[it].chunk.size
      invariant Merging(d, it, bro, data, j)
      invariant Coalesce(d.cs, j) == Coalesce(start, i)
      invariant d.current == old(d.current) - old(d.cs)[i].dataSize && d.due == old(d.due)
      decreases |d.live|
    {
      assert d.table[bro].chunk == d.cs[Brother(d.cs, j)] && d.table[it].chunk == d.cs[j];
      bro, data, j := MergeOnce(d, it, bro, data, j);
    }
    assert d.table[it].chunk == d.cs[j];
    assert bro != NULL ==> d.table[bro].chunk == d.cs[Brother(d.cs, j)];
  }

  // ---------- allocation ----------

  /** Halve the chosen chunk while a half is large enough and the pool has nodes: it always has. */
  method SplitToFit(d: Dict, item: nat, need: nat, ghost i: nat)
    requires d.Linked() && i < |d.live| && item == d.live[i]
    requires QuietBut(d.cs, Cfg(d), i) && d.cs[i].Fits(need) && need >= d.slab
    requires d.table.Length == d.total / d.slab
    modifies d, d.table
    ensures d.Linked() && i < |d.live| && item == d.live[i]
    ensures d.cs == SplitDown(old(d.cs), i, need)
    ensures d.current == old(d.current) && d.due == old(d.due)
  {
    assert d.table[item].chunk == d.cs[i];
    while d.table[item].chunk.size / 2 >= need && d.nodes != NULL
      invariant d.Linked() && i < |d.live| && item == d.live[i] && d.table[item].chunk == d.cs[i]
      invariant QuietBut(d.cs, Cfg(d), i) && d.cs[i].Fits(need)
      invariant SplitDown(d.cs, i, need) == SplitDown(old(d.cs), i, need)
      invariant d.current == old(d.current) && d.due == old(d.due)
      decreases d.cs[i].size
    {
      SplitQuiet(d.cs, Cfg(d), i, need);
      SplitIntoBrothers(d, item, i);
      assert d.table[item].chunk == d.cs[i];
    }
    if d.table[item].chunk.size / 2 >= need {
      SplitFindsNode(d.cs, Cfg(d), i, need);
    }
  }

  lemma SplitQuiet(cs: seq<Chunk>, g: Config, i: nat, need: nat)
    requires QuietBut(cs, g, i) && i < |cs| && cs[i].Fits(need) && need >= g.slab && cs[i].size / 2 >= need
    ensures QuietBut(SplitAt(cs, i), g, i) && SplitAt(cs, i)[i].Fits(need)
    ensures SplitAt(cs, i)[i].size < cs[i].size
  {
    var r := SplitAt(cs, i);
    SplitShape(cs, g.total, i);
    SplitPairs(cs, g.total, i);
    assert cs[i] in cs;
    forall c | c in r ensures GoodChunk(c, g.slab) && (c.used ==> c in cs) {
      assert c in cs || c == LowerHalf(cs[i]) || c == UpperHalf(cs[i]);
    }
  }

  lemma QuietFreeBlank(cs: seq<Chunk>, g: Config)
    requires Quiet(cs, g)
    ensures FreeAreBlank(cs)
  {
    forall i | 0 <= i < |cs| && cs[i].Free() ensures BlankAt(cs, i) {
      assert cs[i] in cs;
    }
  }

  /** The branch of the allocation loop that finds no room: drop the victim. */
  method Evict(d: Dict, ghost need: nat)
    requires d.Linked() && Quiet(d.cs, Cfg(d)) && 1 <= need <= d.total && Choose(d.cs, need, d.best).None?
    modifies d, d.table
    ensures d.Linked() && Quiet(d.cs, Cfg(d)) && |Busy(d.cs)| < |Busy(old(d.cs))|
    ensures AllocIn(d.cs, Cfg(d), need) == AllocIn(old(d.cs), Cfg(d), need)
    ensures d.current - SumData(d.cs) == old(d.current - SumData(d.cs)) && d.due == old(d.due)
  {
    VictimExists(d.cs, Cfg(d), need);
    var victim, v := d.ChooseVictim();
    ReleaseQuiet(d.cs, Cfg(d), v);
    ReleaseCount(d.cs, Cfg(d), v);
    ReleaseSum(d.cs, Cfg(d), v);
    QuietFreeBlank(d.cs, Cfg(d));
    ghost var j := Delete(d, victim, v);
  }

  lemma AllocTakes(cs: seq<Chunk>, g: Config, need: nat, i: nat)
    requires Quiet(cs, g) && g.slab <= need <= g.total && Choose(cs, need, g.best) == Some(i)
    ensures AllocIn(cs, g, need) == (SplitDown(cs, i, need), i)
    ensures i < |SplitDown(cs, i, need)| && SumData(SplitDown(cs, i, need)) == SumData(cs)
    ensures QuietBut(cs, g, i)
  {
    assert cs[i] in cs;
    SplitDownQuiet(cs, g, i, need);
    SplitDownSum(cs, i, need);
  }

  /** The branch that finds room: split the chunk down and book the data. */
  method Take(d: Dict, item: nat, dataSize: nat, ghost i: nat)
    requires d.Linked() && Quiet(d.cs, Cfg(d)) && d.table.Length == d.total / d.slab
    requires i < |d.live| && item == d.live[i] && Max(dataSize, d.slab) <= d.total
    requires Choose(d.cs, Max(dataSize, d.slab), d.best) == Some(i)
    modifies d, d.table
    ensures d.Linked() && i < |d.live| && item == d.live[i] && d.due == old(d.due)
    ensures var (r, k) := AllocIn(old(d.cs), Cfg(d), Max(dataSize, d.slab));
            && k == i < |r| && d.cs == r[i := r[i].(dataSize := dataSize)]
            && d.current - dataSize - SumData(r) == old(d.current - SumData(d.cs))
  {
    var need := Max(dataSize, d.slab);
    AllocTakes(d.cs, Cfg(d), need, i);
    SplitToFit(d, item, need, i);
    assert d.table[item].chunk == d.cs[i];
    d.PutChunk(item, d.table[item].chunk.(dataSize := dataSize), i);
    d.current := d.current + dataSize;
  }

  /** diccionario_obtenerDireccion_buddy. */
  method FindPlace(d: Dict, dataSize: nat) returns (item: int, ghost i: nat)
    requires d.Linked() && Quiet(d.cs, Cfg(d)) && d.table.Length == d.total / d.slab
    modifies d, d.table
    ensures d.Linked() && d.due == old(d.due)
    ensures Max(dataSize, d.slab) > d.total ==> item == NULL && d.cs == old(d.cs) && d.current == old(d.current)
    ensures Max(dataSize, d.slab) <= d.total ==>
              var (r, k) := AllocIn(old(d.cs), Cfg(d), Max(dataSize, d.slab));
              && i == k < |d.live| && item == d.live[i] && i < |r|
              && d.cs == r[i := r[i].(dataSize := dataSize)]
              && d.current - dataSize - SumData(r) == old(d.current - SumData(d.cs))
  {
    var need := Max(dataSize, d.slab);
    item, i := NULL, 0;
    while need <= d.total
      invariant d.Linked() && Quiet(d.cs, Cfg(d)) && d.due == old(d.due)
      invariant item == NULL
      invariant need <= d.total ==> AllocIn(d.cs, Cfg(d), need) == AllocIn(old(d.cs), Cfg(d), need)
      invariant need > d.total ==> d.cs == old(d.cs)
      invariant d.current - SumData(d.cs) == old(d.current - SumData(d.cs))
      invariant need > d.total ==> d.current == old(d.current)
      decreases |Busy(d.cs)|
    {
      item, i := d.Search(need);
      if item == NULL {
        Evict(d, need);
        continue;
      }
      Take(d, item, dataSize, i);
      return;
    }
  }
}
