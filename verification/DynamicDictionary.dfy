/** The dynamic-partition scheme on the linked table, in place and as coded. */
module DynamicDictionary {
  import opened Basics
  import opened Chunks
  import opened BuddyCache
  import opened BuddySpec
  import opened DynamicSpec
  import opened DynamicFlush
  import opened DynamicRun
  import opened Dictionary
  import opened CodedRun

  ghost function Rule(d: Dict): Rules { Rules(d.total, d.slab, d.lru, d.best, d.frequency) }

  ghost function ViewOf(d: Dict): (v: View)
    requires d.Valid()
    reads d, d.table
    ensures Shaped(v)
  {
    View(d.cs, d.live, d.pool, Backs(d.table[..], d.live), d.current, d.due)
  }

  /** Unoccupied chunks are blank: nothing is reserved. */
  ghost predicate UnusedAreBlank(cs: seq<Chunk>) {
    forall i :: 0 <= i < |cs| && !cs[i].used ==> BlankAt(cs, i)
  }

  lemma CarvedBlank(cs: seq<Chunk>, r: Rules)
    requires Carved(cs, r)
    ensures UnusedAreBlank(cs)
  {
    forall i | 0 <= i < |cs| && !cs[i].used ensures BlankAt(cs, i) { assert cs[i] in cs; }
  }

  // ---------- diccionario_eliminar ----------

  lemma AbsorbByRemoval(cs: seq<Chunk>, k: nat, x: Chunk)
    requires k + 1 < |cs|
    ensures Removed(cs[k + 1 := x][k := cs[k].(size := cs[k].size + cs[k + 1].size)], k + 1) == Absorb(cs, k)
  {
  }

  lemma AbsorbBlank(cs: seq<Chunk>, k: nat)
    requires k + 1 < |cs| && UnusedAreBlank(cs) && !cs[k].used
    ensures UnusedAreBlank(Absorb(cs, k)) && !Absorb(cs, k)[k].used
  {
    var a := Absorb(cs, k);
    forall i | 0 <= i < |a| && !a[i].used ensures BlankAt(a, i) {
      assert BlankAt(cs, k);
      assert i < k ==> BlankAt(cs, i);
      assert i > k ==> BlankAt(cs, i + 1);
    }
  }

  method PutPair(d: Dict, n: nat, c: Chunk, item: nat, e: Chunk, ghost i: nat)
    requires d.Valid() && i + 1 < |d.live| && item == d.live[i] && n == d.live[i + 1]
    modifies d.table, d`cs
    ensures d.Valid() && d.cs == old(d.cs)[i + 1 := c][i := e]
    ensures Backs(d.table[..], d.live) == old(ViewOf(d)).back
  {
    d.PutChunk(n, c, i + 1);
    d.PutChunk(item, e, i);
  }

  /** `a->chunk_size += b->chunk_size; b->chunk_size = 0`, for a node and the one behind it. */
  method MoveSpace(d: Dict, a: nat, b: nat, ghost k: nat)
    requires d.Valid() && k + 1 < |d.live| && a == d.live[k] && b == d.live[k + 1]
    requires BlankAt(d.cs, k + 1)
    modifies d.table, d`cs
    ensures d.Valid() && Spare(d.table[b]) && Backs(d.table[..], d.live) == old(ViewOf(d)).back
    ensures Removed(d.cs, k + 1) == Absorb(old(d.cs), k)
  {
    ghost var cs := d.cs;
    assert d.table[a].chunk == cs[k] && d.table[b].chunk == cs[k + 1];
    AbsorbByRemoval(cs, k, cs[k + 1].(size := 0));
    PutPair(d, b, d.table[b].chunk.(size := 0), a, d.table[a].chunk.(size := d.table[a].chunk.size + d.table[b].chunk.size), k);
    assert d.table[b].chunk == d.cs[k + 1];
  }

  /** A chunk swallows the blank chunk behind it, whose node is unlinked and goes to the pool; the node behind gets its `prev` repaired. */
  method AbsorbInto(d: Dict, keeper: nat, gone: nat, ghost k: nat)
    requires d.Valid() && k + 1 < |d.live| && keeper == d.live[k] && gone == d.live[k + 1]
    requires BlankAt(d.cs, k + 1) && BackOk(d.table[..], d.live, k + 1)
    modifies d, d.table
    ensures d.Valid() && ViewOf(d) == CutBack(old(ViewOf(d)), k + 1)
  {
    ghost var v := ViewOf(d);
    MoveSpace(d, keeper, gone, k);
    Unhook(d, gone, k + 1, v.back);
  }

  /** A node without memory leaves the list, both ways, for the pool. */
  method Unhook(d: Dict, n: nat, ghost k: nat, ghost back: seq<int>)
    requires d.Valid() && 0 < k < |d.live| && n == d.live[k] && Spare(d.table[n])
    requires back == Backs(d.table[..], d.live) && back[k] == d.live[k - 1]
    modifies d, d.table
    ensures d.Valid() && d.cs == Removed(old(d.cs), k) && d.live == Removed(old(d.live), k) && d.pool == [n] + old(d.pool)
    ensures var b := Removed(back, k);
            Backs(d.table[..], d.live) == if k < |b| then b[k := old(d.live)[k - 1]] else b
    ensures d.current == old(d.current) && d.due == old(d.due)
  {
    ghost var s, t := d.live, d.table[..];
    assert BackOk(t, s, k);
    d.RetireNode(n, k);
    CutBackBacks(t, d.table[..], s, k);
  }

  /** The same, but the `prev` of the node behind is not repaired. */
  method Detach(d: Dict, item: nat, n: nat, ghost k: nat, ghost back: seq<int>)
    requires d.Valid() && k + 1 < |d.live| && item == d.live[k] && n == d.live[k + 1] && Spare(d.table[n])
    requires back == Backs(d.table[..], d.live)
    modifies d, d.table
    ensures d.Valid() && d.cs == Removed(old(d.cs), k + 1) && d.live == Removed(old(d.live), k + 1) && d.pool == [n] + old(d.pool)
    ensures Backs(d.table[..], d.live) == Removed(back, k + 1)
    ensures d.current == old(d.current) && d.due == old(d.due)
  {
    ghost var s, t := d.live, d.table[..];
    d.DetachNext(item, n, k);
    CutFrontBacks(t, d.table[..], s, k + 1);
  }

  /** Retiring the node at position k leaves the `prev` links a backward round leaves. */
  lemma CutBackBacks(t: seq<Node>, u: seq<Node>, s: Order, k: nat)
    requires 0 < k < |s| && Positions(t, s) && BackOk(t, s, k) && |u| == |t|
    requires k + 1 < |s| ==> u[s[k + 1]].prev == t[s[k]].prev
    requires forall j :: 0 <= j < |s| && j != k && j != k + 1 ==> u[s[j]].prev == t[s[j]].prev
    ensures var r, b := Removed(s, k), Removed(Backs(t, s), k);
            Positions(u, r) && Backs(u, r) == if k < |b| then b[k := s[k - 1]] else b
  {
    var r := Removed(s, k);
    forall j | 0 <= j < |r| ensures r[j] == s[if j < k then j else j + 1] { }
  }

  lemma CutFrontBacks(t: seq<Node>, u: seq<Node>, s: Order, k: nat)
    requires k < |s| && Positions(t, s) && |u| == |t|
    requires forall j :: 0 <= j < |s| && j != k ==> u[s[j]].prev == t[s[j]].prev
    ensures Positions(u, Removed(s, k)) && Backs(u, Removed(s, k)) == Removed(Backs(t, s), k)
  {
    var r := Removed(s, k);
    forall j | 0 <= j < |r| ensures r[j] == s[if j < k then j else j + 1] { }
  }

  /** One round of the forward loop: `it` swallows the chunk after it. */
  method SwallowNext(d: Dict, it: nat, next: nat, ghost j: nat)
    requires d.Valid() && j + 1 < |d.live| && it == d.live[j] && next == d.live[j + 1]
    requires BlankAt(d.cs, j + 1)
    modifies d, d.table
    ensures d.Valid() && ViewOf(d) == CutFront(old(ViewOf(d)), j)
  {
    ghost var v := ViewOf(d);
    MoveSpace(d, it, next, j);
    Detach(d, it, next, j, v.back);
  }

  /** One round of the backward loop: the chunk before swallows `it`. */
  method SwallowBack(d: Dict, before: nat, it: nat, ghost j: nat)
    requires d.Valid() && UnusedRightBut(ViewOf(d), -1) && UnusedAreBlank(d.cs)
    requires 0 < j < |d.live| && it == d.live[j] && before == d.live[j - 1] && !d.cs[j].used && !d.cs[j - 1].used
    modifies d, d.table
    ensures d.Valid() && ViewOf(d) == CutBack(old(ViewOf(d)), j)
    ensures UnusedRightBut(ViewOf(d), -1) && UnusedAreBlank(d.cs)
    ensures j - 1 < |d.live| && before == d.live[j - 1] && !d.cs[j - 1].used
  {
    assert RightAt(ViewOf(d), j) && BackOk(d.table[..], d.live, j);
    CutBackRight(ViewOf(d), j);
    AbsorbBlank(d.cs, j - 1);
    AbsorbInto(d, before, it, j - 1);
  }

  /** The backward loop. */
  method MergeBackward(d: Dict, it0: nat, ghost i: nat) returns (it: nat, ghost j: nat)
    requires d.Valid() && UnusedRightBut(ViewOf(d), -1) && UnusedAreBlank(d.cs)
    requires i < |d.live| && it0 == d.live[i] && !d.cs[i].used
    modifies d, d.table
    ensures d.Valid() && (ViewOf(d), j) == BackV(old(ViewOf(d)), i) && j < |d.live| && it == d.live[j]
    ensures UnusedAreBlank(d.cs) && !d.cs[j].used
  {
    it, j := it0, i;
    var before := d.table[it].prev;
    assert RightAt(ViewOf(d), j);
    while before != NULL && !d.table[before].chunk.used
      invariant d.Valid() && UnusedRightBut(ViewOf(d), -1) && UnusedAreBlank(d.cs)
      invariant j < |d.live| && it == d.live[j] && !d.cs[j].used && before == At(d.live, j - 1)
      invariant BackV(ViewOf(d), j) == BackV(old(ViewOf(d)), i)
      decreases j
    {
      assert d.table[before].chunk == d.cs[j - 1];
      SwallowBack(d, before, it, j);
      it, j := before, j - 1;
      assert RightAt(ViewOf(d), j);
      before := d.table[it].prev;
    }
    assert before != NULL ==> d.table[before].chunk == d.cs[j - 1];
  }

  /** The forward loop. */
  method MergeForward(d: Dict, it: nat, ghost j: nat)
    requires d.Valid() && j < |d.live| && it == d.live[j] && UnusedAreBlank(d.cs) && !d.cs[j].used
    modifies d, d.table
    ensures d.Valid() && ViewOf(d) == FrontV(old(ViewOf(d)), j) && j < |d.live| && it == d.live[j]
    ensures UnusedAreBlank(d.cs) && !d.cs[j].used
  {
    var next := d.table[it].next;
    assert NextOk(d.table[..], d.live, j);
    while next != NULL && !d.table[next].chunk.used
      invariant d.Valid() && j < |d.live| && it == d.live[j] && next == At(d.live, j + 1)
      invariant UnusedAreBlank(d.cs) && !d.cs[j].used
      invariant FrontV(ViewOf(d), j) == FrontV(old(ViewOf(d)), j)
      decreases |d.live|
    {
      assert d.table[next].chunk == d.cs[j + 1] && BlankAt(d.cs, j + 1);
      AbsorbBlank(d.cs, j);
      SwallowNext(d, it, next, j);
      assert NextOk(d.table[..], d.live, j);
      next := d.table[it].next;
    }
    assert next != NULL ==> d.table[next].chunk == d.cs[j + 1];
  }

  /** diccionario_eliminar, of a node whose own `prev` is right. */
  method Delete(d: Dict, it: nat, ghost i: nat) returns (r: nat, ghost j: nat)
    requires d.Valid() && UnusedRightBut(ViewOf(d), -1) && UnusedAreBlank(d.cs)
    requires i < |d.live| && it == d.live[i] && BackOk(d.table[..], d.live, i)
    modifies d, d.table
    ensures d.Valid() && (ViewOf(d), j) == Remove(old(ViewOf(d)), i) && j < |d.live| && r == d.live[j]
    ensures UnusedAreBlank(d.cs) && !d.cs[j].used
  {
    ghost var v := ViewOf(d);
    assert d.table[it].chunk == d.cs[i] && RightAt(v, i);
    d.current := d.current - d.table[it].chunk.dataSize;
    d.PutChunk(it, d.table[it].chunk.Cleared(), i);
    ClearedView(d, v, i);
    r, j := MergeBackward(d, it, i);
    MergeForward(d, r, j);
  }

  lemma ClearedView(d: Dict, v: View, i: nat)
    requires Shaped(v) && UnusedRightBut(v, -1) && i < |v.cs| && RightAt(v, i) && UnusedAreBlank(v.cs)
    requires d.Valid() && d.cs == v.cs[i := v.cs[i].Cleared()] && d.live == v.live && d.pool == v.pool
    requires Backs(d.table[..], d.live) == v.back && d.current == v.current - v.cs[i].dataSize && d.due == v.due
    ensures ViewOf(d) == Cleared(v, i) && UnusedRightBut(ViewOf(d), -1) && UnusedAreBlank(d.cs)
  {
    forall k | 0 <= k < |d.cs| && !d.cs[k].used ensures RightAt(ViewOf(d), k) {
      assert k != i ==> RightAt(v, k);
    }
    forall k | 0 <= k < |d.cs| && !d.cs[k].used ensures BlankAt(d.cs, k) {
      assert k != i ==> BlankAt(v.cs, k);
    }
  }

  // ---------- the branch of diccionario_obtenerDireccion that finds a hole ----------

  lemma HoleByInsertion(cs: seq<Chunk>, i: nat, need: nat, x: Chunk, ins: seq<Chunk>, ds: seq<Chunk>)
    requires i < |cs| && cs[i].size >= need && ins == Inserted(cs, i + 1, x)
    requires ds == ins[i + 1 := Blank(cs[i].addr + need, cs[i].size - need)][i := cs[i].(size := need)]
    ensures ds == SplitHole(cs, i, need)
  {
  }

  lemma InsertedBacks(t: seq<Node>, u: seq<Node>, s: Order, i: nat, n: nat)
    requires i < |s| && Positions(t, s) && |u| == |t| && n < |t| && n !in s
    requires u[n].prev == s[i] && (i + 1 < |s| ==> u[s[i + 1]].prev == n)
    requires forall j :: 0 <= j < |s| && j != i + 1 ==> u[s[j]].prev == t[s[j]].prev
    ensures var r, b := Inserted(s, i + 1, n), Inserted(Backs(t, s), i + 1, s[i]);
            Positions(u, r) && Backs(u, r) == if i + 2 < |b| then b[i + 2 := n] else b
  {
    var r := Inserted(s, i + 1, n);
    forall j | 0 <= j < |r| ensures r[j] == if j <= i then s[j] else if j == i + 1 then n else s[j - 1] { }
  }

  /** A spare node enters the list after item, still without memory. */
  method OpenGap(d: Dict, item: nat, ghost i: nat) returns (n: nat)
    requires d.Valid() && i < |d.live| && item == d.live[i] && |d.pool| > 0
    modifies d, d.table
    ensures d.Valid() && d.live == Inserted(old(d.live), i + 1, n) && old(d.pool) == [n] + d.pool
    ensures Spare(d.table[n]) && d.cs == Inserted(old(d.cs), i + 1, d.table[n].chunk)
    ensures var b := Inserted(old(ViewOf(d)).back, i + 1, item);
            Backs(d.table[..], d.live) == if i + 2 < |b| then b[i + 2 := n] else b
    ensures d.current == old(d.current) && d.due == old(d.due)
  {
    ghost var t, s := d.table[..], d.live;
    assert d.pool[0] !in s by {
      forall j | 0 <= j < |s| ensures s[j] != d.pool[0] { }
    }
    n := d.InsertSpare(item, i);
    InsertedBacks(t, d.table[..], s, i, n);
  }

  method SplitTo(d: Dict, item: nat, need: nat, ghost i: nat)
    requires d.Valid() && i < |d.live| && item == d.live[i] && d.cs[i].size >= need && |d.pool| > 0
    modifies d, d.table
    ensures d.Valid() && ViewOf(d) == SplitV(old(ViewOf(d)), i, need)
    ensures i < |d.live| && item == d.live[i]
  {
    ghost var cs := d.cs;
    var n := OpenGap(d, item, i);
    FillGap(d, item, n, need, i, cs);
  }

  /** The new node takes over the space the request leaves. */
  method FillGap(d: Dict, item: nat, n: nat, need: nat, ghost i: nat, ghost cs: seq<Chunk>)
    requires d.Valid() && i + 1 < |d.live| && item == d.live[i] && n == d.live[i + 1] && Spare(d.table[n])
    requires i < |cs| && d.cs == Inserted(cs, i + 1, d.table[n].chunk) && cs[i].size >= need
    modifies d.table, d`cs
    ensures d.Valid() && d.cs == SplitHole(cs, i, need)
    ensures Backs(d.table[..], d.live) == old(ViewOf(d)).back
  {
    ghost var x, ins := d.table[n].chunk, d.cs;
    assert d.table[item].chunk == ins[i] == cs[i];
    var low, rest := d.table[item].chunk.addr, d.table[item].chunk.size - need;
    var c := d.table[n].chunk.(size := d.table[n].chunk.size + rest, addr := low + need);
    PutPair(d, n, c, item, d.table[item].chunk.(size := need), i);
    HoleByInsertion(cs, i, need, x, ins, d.cs);
  }

  /** The chunk found is booked for so much data. */
  function Booked(v: View, i: nat, n: nat): View
    requires i < |v.cs|
  {
    v.(cs := v.cs[i := v.cs[i].(dataSize := n)], current := v.current + n)
  }

  method Take(d: Dict, item: nat, need: nat, dataSize: nat, ghost i: nat)
    requires d.Valid() && i < |d.live| && item == d.live[i] && d.cs[i].size >= need
    modifies d, d.table
    ensures d.Valid() && i < |d.live| && item == d.live[i]
    ensures ViewOf(d) == Booked(TakeV(old(ViewOf(d)), i, need, d.slab), i, dataSize)
  {
    assert d.table[item].chunk == d.cs[i];
    assert d.nodes != NULL <==> |d.pool| > 0;
    if d.nodes != NULL && d.table[item].chunk.size - need >= d.slab {
      SplitTo(d, item, need, i);
    }
    Book(d, item, dataSize, i);
  }

  method Book(d: Dict, item: nat, dataSize: nat, ghost i: nat)
    requires d.Valid() && i < |d.live| && item == d.live[i]
    modifies d.table, d`cs, d`current
    ensures d.Valid() && ViewOf(d) == Booked(old(ViewOf(d)), i, dataSize)
  {
    assert d.table[item].chunk == d.cs[i];
    d.PutChunk(item, d.table[item].chunk.(dataSize := dataSize), i);
    d.current := d.current + dataSize;
  }

  // ---------- diccionario_limpiar ----------

  /** What the flush still has to do from position i comes to this outcome. */
  ghost predicate FlushLeft(d: Dict, i: nat, o: Outcome<View>)
    reads d, d.table
  {
    && d.Valid() && VGood(ViewOf(d), Rule(d)) && i <= |d.live|
    && FlushV(ViewOf(d), i) == o
  }

  /** A flush that does not come to delete a node with a wrong `prev`. */
  method FlushAll(d: Dict)
    requires d.Valid() && VGood(ViewOf(d), Rule(d)) && FlushV(ViewOf(d), 0).Ran?
    modifies d, d.table
    ensures d.Valid() && Ran(ViewOf(d)) == FlushV(old(ViewOf(d)), 0)
  {
    var item := d.elements;
    ghost var i: nat := 0;
    ghost var o := FlushV(ViewOf(d), 0);
    while item != NULL
      invariant FlushLeft(d, i, o) && item == At(d.live, i)
      decreases |d.live| - i
    {
      item, i := FlushNext(d, item, i, o);
    }
  }

  /** One node of the walk. */
  method FlushNext(d: Dict, item: nat, ghost i: nat, ghost o: Outcome<View>) returns (next: int, ghost k: nat)
    requires o.Ran? && FlushLeft(d, i, o) && i < |d.live| && item == d.live[i]
    modifies d, d.table
    ensures FlushLeft(d, k, o) && next == At(d.live, k) && |d.live| - k < |old(d.live)| - i
  {
    assert d.table[item].chunk == d.cs[i];
    if d.table[item].chunk.nkey != 0 {
      next, k := FlushOne(d, item, i);
    } else {
      FlushBothSkip(ViewOf(d), i);
      assert NextOk(d.table[..], d.live, i);
      next, k := d.table[item].next, i + 1;
    }
  }

  /** A stored item is deleted, and the walk goes on behind the merged chunk. */
  method FlushOne(d: Dict, item: nat, ghost i: nat) returns (next: int, ghost k: nat)
    requires d.Valid() && VGood(ViewOf(d), Rule(d)) && i < |d.live| && item == d.live[i] && d.cs[i].nkey != 0
    requires FlushV(ViewOf(d), i).Ran?
    modifies d, d.table
    ensures FlushLeft(d, k, old(FlushV(ViewOf(d), i))) && next == At(d.live, k) && |d.live| - k < |old(d.live)| - i
  {
    FlushOneIs(ViewOf(d), Rule(d), i);
    var r, j := Delete(d, item, i);
    assert NextOk(d.table[..], d.live, j);
    next, k := d.table[r].next, j + 1;
  }

  lemma FlushOneIs(v: View, r: Rules, i: nat)
    requires VGood(v, r) && i < |v.cs| && v.cs[i].nkey != 0 && FlushV(v, i).Ran?
    ensures UnusedAreBlank(v.cs) && RightAt(v, i)
    ensures var (w, j) := Remove(v, i);
            && VGood(w, r) && j < |w.cs| && |w.cs| - j <= |v.cs| - i && FlushV(v, i) == FlushV(w, j + 1)
  {
    assert v.cs[i] in v.cs && GoodChunk(v.cs[i], r.slab);
    CarvedBlank(v.cs, r);
    assert RightAt(v, i);
    FlushVUnfold(v, r, i);
    RemoveKeeps(v, r, i);
  }
}
