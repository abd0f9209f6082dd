/**
  The buddy scheme on lists of chunks: splitting a chunk into two brothers, joining
  brothers after a deletion, and the shape every reachable list keeps.
  */
module BuddySpec {
  import opened Basics
  import opened Chunks
  import opened Division

  // ---------- powers of two ----------

  predicate IsPow2(n: nat) {
    n == 1 || (n > 1 && n % 2 == 0 && IsPow2(n / 2))
  }

  lemma {:induction false} Pow2Divides(s: nat, t: nat)
    requires IsPow2(s) && IsPow2(t) && s <= t
    ensures t % s == 0
  {
    if s != 1 {
      Pow2Divides(s / 2, t / 2);
      var h := s / 2;
      var q := (t / 2) / h;
      assert t / 2 == q * h;
      assert t == q * s by {
        assert t == 2 * (q * h) == q * (2 * h);
      }
      ModOfMultiple(q, s);
    }
  }

  lemma Pow2Double(s: nat, t: nat)
    requires IsPow2(s) && IsPow2(t) && s < t
    ensures 2 * s <= t
  {
    Pow2Divides(s, t);
    var q := t / s;
    assert t == q * s;
    if q <= 1 {
      assert q == 0 || q == 1;
    } else if q > 2 {
      DivUpper(q, 2, s);
    }
  }

  /** `power_two_low`: the largest power of two not above the argument. */
  function PowerTwoLow(n: nat): (r: nat)
    requires n >= 1
    ensures IsPow2(r) && r <= n < 2 * r
  {
    if n == 1 then 1 else 2 * PowerTwoLow(n / 2)
  }

  /**
    The creator allocates PowerTwoLow(tableMax) bytes but carves tableMax of them up: the
    memory covers the table exactly when tableMax is a power of two.
    */
  lemma {:induction false} ArenaCoversTable(tableMax: nat)
    requires tableMax >= 1
    ensures tableMax <= PowerTwoLow(tableMax) <==> IsPow2(tableMax)
  {
    var r := PowerTwoLow(tableMax);
    if IsPow2(tableMax) && r < tableMax {
      Pow2Double(r, tableMax);
    }
  }

  /** Which of the two brothers an aligned offset is. */
  lemma Parity(a: nat, s: nat)
    requires s > 0 && a % s == 0
    ensures (a / s) % 2 == 0 <==> a % (2 * s) == 0
    ensures (a + s) % s == 0
    ensures ((a + s) / s) % 2 == 0 <==> (a / s) % 2 != 0
  {
    ModAdd(a, s, s);
    assert s / s == 1 && s % s == 0 by { ModOfMultiple(1, s); }
    var q := a / s;
    assert a == q * s;
    if q % 2 == 0 {
      assert a == (q / 2) * (2 * s);
      ModOfMultiple(q / 2, 2 * s);
    } else {
      assert a == (q / 2) * (2 * s) + s by {
        assert q == 2 * (q / 2) + 1;
      }
      DivModUnique(a, 2 * s, q / 2, s);
    }
  }

  // ---------- shape ----------

  predicate Aligned(c: Chunk) {
    IsPow2(c.size) && c.addr % c.size == 0
  }

  /** The list tiles the arena with chunks of dyadic size at multiples of their size. */
  ghost predicate Shape(cs: seq<Chunk>, total: nat) {
    && Tiled(cs, total)
    && forall i :: 0 <= i < |cs| ==> Aligned(cs[i])
  }

  /** Two free brothers side by side. */
  predicate FreePair(a: Chunk, b: Chunk) {
    a.Free() && b.Free() && a.size == b.size && a.FirstBrother()
  }

  /** No two free brothers side by side, leaving out the pairs that involve position `skip`. */
  ghost predicate NoFreePairBut(cs: seq<Chunk>, skip: int) {
    forall i, j :: 0 <= i && j == i + 1 && j < |cs| && i != skip && j != skip ==> !FreePair(cs[i], cs[j])
  }

  ghost predicate NoFreePair(cs: seq<Chunk>) { NoFreePairBut(cs, -1) }

  lemma BrotherParity(a: Chunk, b: Chunk)
    requires Aligned(a) && b.addr == a.End() && b.size == a.size
    ensures b.FirstBrother() <==> !a.FirstBrother()
  {
    Parity(a.addr, a.size);
  }

  /** When everything is free the list has been joined back into one chunk. */
  lemma AllFreeIsWhole(cs: seq<Chunk>, total: nat)
    requires Shape(cs, total) && IsPow2(total) && NoFreePair(cs)
    requires forall i :: 0 <= i < |cs| ==> cs[i].Free()
    ensures |cs| == 1 && cs[0].addr == 0 && cs[0].size == total
  {
    if |cs| > 1 {
      var m := Smallest(cs);
      var s := cs[m].size;
      Parity(cs[m].addr, s);
      if cs[m].FirstBrother() {
        if m == |cs| - 1 {
          LastFirstBrother(cs, total);
        }
        RightBrother(cs, total, m);
      } else {
        LeftBrother(cs, total, m);
      }
      assert false;
    }
  }

  lemma RightBrother(cs: seq<Chunk>, total: nat, m: nat)
    requires Shape(cs, total) && m + 1 < |cs|
    requires cs[m].FirstBrother() && cs[m].size <= cs[m + 1].size
    ensures cs[m + 1].size == cs[m].size
  {
    var c, n := cs[m], cs[m + 1];
    assert n.addr == c.End();
    Parity(c.addr, c.size);
    if n.size != c.size {
      BiggerNeighbour(n.addr, c.size, n.size);
    }
  }

  lemma LeftBrother(cs: seq<Chunk>, total: nat, m: nat)
    requires Shape(cs, total) && m < |cs|
    requires !cs[m].FirstBrother() && (m > 0 ==> cs[m].size <= cs[m - 1].size)
    ensures m > 0 && cs[m - 1].size == cs[m].size && cs[m - 1].FirstBrother()
  {
    var c := cs[m];
    Parity(c.addr, c.size);
    assert m > 0;
    var n := cs[m - 1];
    assert c.addr == n.End();
    if n.size != c.size {
      Parity(n.addr, n.size);
      BiggerNeighbour(c.addr, c.size, n.size);
    }
    BrotherParity(n, c);
  }

  function Smallest(cs: seq<Chunk>): (m: nat)
    requires |cs| > 0
    ensures m < |cs| && forall j :: 0 <= j < |cs| ==> cs[m].size <= cs[j].size
  {
    if |cs| == 1 then 0
    else
      var n := |cs| - 1;
      assert forall j :: 0 <= j < n ==> cs[j] == cs[..n][j];
      var m := Smallest(cs[..n]);
      if cs[n].size < cs[m].size then n else m
  }

  /** An offset that is a multiple of a larger dyadic size is an even multiple of s. */
  lemma BiggerNeighbour(a: nat, s: nat, t: nat)
    requires IsPow2(s) && IsPow2(t) && s < t && a % t == 0
    ensures a % s == 0 && a % (2 * s) == 0 && (a / s) % 2 == 0
  {
    Pow2Double(s, t);
    assert IsPow2(2 * s);
    Pow2Divides(2 * s, t);
    ModTrans(a, 2 * s, t);
    ModOfMultiple(2, s);
    ModTrans(a, s, 2 * s);
    Parity(a, s);
  }

  /** The last of several chunks, none smaller than it, is never a first brother. */
  lemma LastFirstBrother(cs: seq<Chunk>, total: nat)
    requires Shape(cs, total) && IsPow2(total) && |cs| > 1
    requires forall j :: 0 <= j < |cs| ==> cs[|cs| - 1].size <= cs[j].size
    ensures !cs[|cs| - 1].FirstBrother()
  {
    var c := cs[|cs| - 1];
    TiledOrdered(cs, total, 0, |cs| - 1);
    assert c.addr >= cs[0].size >= c.size;
    BiggerNeighbour(total, c.size, total);
    Parity(c.addr, c.size);
  }

  // ---------- splitting: agregarHijosDePadre ----------

  function LowerHalf(c: Chunk): Chunk { c.(size := c.size / 2) }

  function UpperHalf(c: Chunk): Chunk { Blank(c.addr + c.size / 2, c.size / 2) }

  function SplitAt(cs: seq<Chunk>, i: nat): seq<Chunk>
    requires i < |cs|
  {
    cs[..i] + [LowerHalf(cs[i]), UpperHalf(cs[i])] + cs[i + 1..]
  }

  lemma SplitShape(cs: seq<Chunk>, total: nat, i: nat)
    requires Shape(cs, total) && i < |cs| && cs[i].size >= 2
    ensures Shape(SplitAt(cs, i), total)
  {
    var h := cs[i].size / 2;
    assert IsPow2(h);
    ModOfMultiple(2, h);
    ModTrans(cs[i].addr, h, cs[i].size);
    Parity(cs[i].addr, h);
  }

  lemma SplitPairs(cs: seq<Chunk>, total: nat, i: nat)
    requires Shape(cs, total) && i < |cs| && cs[i].size >= 2
    requires NoFreePairBut(cs, i)
    ensures NoFreePairBut(SplitAt(cs, i), i)
  {
    var h := cs[i].size / 2;
    ModOfMultiple(2, h);
    ModTrans(cs[i].addr, h, cs[i].size);
    Parity(cs[i].addr, h);
  }

  lemma SplitBusy(cs: seq<Chunk>, i: nat)
    requires i < |cs| && cs[i].Free()
    ensures Busy(SplitAt(cs, i)) == Busy(cs)
  {
    var lower, upper := LowerHalf(cs[i]), UpperHalf(cs[i]);
    BusyPair(lower, upper);
    BusyPair(cs[i], upper);
    Around(cs, i, i + 1);
    BusyReplace(cs, SplitAt(cs, i), cs[..i], cs[i..i + 1], [lower, upper], cs[i + 1..]);
  }

  // ---------- joining: the merge loop of diccionario_eliminar_buddy ----------

  /** Position of the neighbour the loop looks at, -1 or |cs| when there is none. */
  function Brother(cs: seq<Chunk>, i: nat): int
    requires i < |cs|
  {
    if cs[i].FirstBrother() then i + 1 else i - 1
  }

  predicate CanJoin(cs: seq<Chunk>, i: nat)
    requires i < |cs|
  {
    var b := Brother(cs, i);
    0 <= b < |cs| && cs[b].Free() && cs[b].size == cs[i].size
  }

  function LowBrother(cs: seq<Chunk>, i: nat): nat
    requires i < |cs| && CanJoin(cs, i)
  {
    if cs[i].FirstBrother() then i else i - 1
  }

  /** The chunk absorbs its brother: it keeps its own fields, at the lower address. */
  function JoinAt(cs: seq<Chunk>, i: nat): seq<Chunk>
    requires i < |cs| && CanJoin(cs, i)
  {
    var lo := LowBrother(cs, i);
    cs[..lo] + [cs[i].(addr := cs[lo].addr, size := 2 * cs[i].size)] + cs[lo + 2..]
  }

  /** Two brothers make an aligned chunk of twice the size at the lower one's address. */
  lemma BrothersAligned(a: Chunk, b: Chunk, joined: Chunk)
    requires Aligned(a) && a.FirstBrother()
    requires joined.addr == a.addr && joined.size == 2 * a.size
    ensures Aligned(joined)
  {
    Parity(a.addr, a.size);
  }

  lemma JoinShape(cs: seq<Chunk>, total: nat, i: nat)
    requires Shape(cs, total) && i < |cs| && CanJoin(cs, i)
    ensures Shape(JoinAt(cs, i), total)
  {
    var lo := LowBrother(cs, i);
    var r := JoinAt(cs, i);
    assert cs[lo + 1].addr == cs[lo].End();
    BrotherParity(cs[lo], cs[lo + 1]);
    BrothersAligned(cs[lo], cs[lo + 1], r[lo]);
    forall j | 0 <= j < |r| ensures Aligned(r[j]) {
      assert j != lo ==> r[j] == cs[if j < lo then j else j + 1];
    }
    JoinTiled(cs, r, total, lo);
  }

  lemma JoinTiled(cs: seq<Chunk>, r: seq<Chunk>, total: nat, lo: nat)
    requires Tiled(cs, total) && lo + 1 < |cs|
    requires |r| == |cs| - 1 && r[..lo] == cs[..lo] && r[lo + 1..] == cs[lo + 2..]
    requires r[lo].addr == cs[lo].addr && r[lo].size == cs[lo].size + cs[lo + 1].size
    ensures Tiled(r, total)
  {
    assert forall j :: 0 <= j < lo ==> r[j] == r[..lo][j] == cs[j];
    assert forall j :: lo < j < |r| ==> r[j] == r[lo + 1..][j - lo - 1] == cs[j + 1];
    assert cs[lo + 1].addr == cs[lo].End();
  }

  lemma JoinPairs(cs: seq<Chunk>, i: nat)
    requires i < |cs| && CanJoin(cs, i)
    requires NoFreePairBut(cs, i)
    ensures NoFreePairBut(JoinAt(cs, i), LowBrother(cs, i))
  {
  }

  lemma JoinBusy(cs: seq<Chunk>, i: nat)
    requires i < |cs| && CanJoin(cs, i) && cs[i].Free()
    ensures Busy(JoinAt(cs, i)) == Busy(cs)
  {
    var lo := LowBrother(cs, i);
    var joined := cs[i].(addr := cs[lo].addr, size := 2 * cs[i].size);
    BusyPair(cs[lo], cs[lo + 1]);
    BusyPair(joined, cs[lo]);
    Around(cs, lo, lo + 2);
    BusyReplace(cs, JoinAt(cs, i), cs[..lo], cs[lo..lo + 2], [joined], cs[lo + 2..]);
  }

  /** Join with the brother for as long as it is free and of equal size. */
  function Coalesce(cs: seq<Chunk>, i: nat): (seq<Chunk>, nat)
    requires i < |cs|
    decreases |cs|
  {
    if CanJoin(cs, i) then Coalesce(JoinAt(cs, i), LowBrother(cs, i)) else (cs, i)
  }

  /** What a free chunk grown by joining still is. */
  ghost predicate BlankAt(cs: seq<Chunk>, i: nat) {
    i < |cs| && cs[i] == Blank(cs[i].addr, cs[i].size)
  }

  lemma {:induction false} CoalesceKeeps(cs: seq<Chunk>, total: nat, i: nat)
    requires Shape(cs, total) && BlankAt(cs, i) && NoFreePairBut(cs, i)
    ensures var (r, j) := Coalesce(cs, i);
            && BlankAt(r, j) && Shape(r, total) && NoFreePair(r)
            && Busy(r) == Busy(cs)
            && r[j].addr <= cs[i].addr && cs[i].End() <= r[j].End()
    decreases |cs|
  {
    if CanJoin(cs, i) {
      JoinShape(cs, total, i);
      JoinPairs(cs, i);
      JoinBusy(cs, i);
      var lo := LowBrother(cs, i);
      assert cs[lo + 1].addr == cs[lo].End();
      CoalesceKeeps(JoinAt(cs, i), total, lo);
    } else {
      StuckIsJoined(cs, total, i);
    }
  }

  /** When the loop stops, no free pair is left around the chunk either. */
  lemma StuckIsJoined(cs: seq<Chunk>, total: nat, i: nat)
    requires Shape(cs, total) && i < |cs| && !CanJoin(cs, i) && NoFreePairBut(cs, i)
    ensures NoFreePair(cs)
  {
    if i > 0 && FreePair(cs[i - 1], cs[i]) {
      assert cs[i].addr == cs[i - 1].End();
      BrotherParity(cs[i - 1], cs[i]);
    }
  }

  /** Joining only ever touches blank chunks: positions and sizes of the rest survive, and the tail after the chunk shrinks from its front. */
  ghost predicate SameAround(cs: seq<Chunk>, i: nat, r: seq<Chunk>, j: nat) {
    && i < |cs| && j <= i && j < |r| <= |cs| && |r| - j <= |cs| - i
    && (forall x :: 0 <= x < j ==> r[x] == cs[x])
    && (forall x :: j < x < |r| ==> r[x] == cs[x + (|cs| - |r|)])
  }

  lemma JoinAround(cs: seq<Chunk>, i: nat)
    requires i < |cs| && CanJoin(cs, i)
    ensures SameAround(cs, i, JoinAt(cs, i), LowBrother(cs, i))
  {
  }

  lemma AroundTrans(cs: seq<Chunk>, i: nat, n: seq<Chunk>, k: nat, r: seq<Chunk>, j: nat)
    requires SameAround(cs, i, n, k) && SameAround(n, k, r, j)
    ensures SameAround(cs, i, r, j)
  {
    forall x | j < x < |r| ensures r[x] == cs[x + (|cs| - |r|)] {
      var y := x + (|n| - |r|);
      assert r[x] == n[y];
      assert n[y] == cs[y + (|cs| - |n|)];
    }
  }

  lemma {:induction false} CoalesceTail(cs: seq<Chunk>, i: nat)
    requires i < |cs|
    ensures SameAround(cs, i, Coalesce(cs, i).0, Coalesce(cs, i).1)
    decreases |cs|
  {
    if CanJoin(cs, i) {
      var lo := LowBrother(cs, i);
      var n := JoinAt(cs, i);
      JoinAround(cs, i);
      CoalesceTail(n, lo);
      var (r, j) := Coalesce(n, lo);
      AroundTrans(cs, i, n, lo, r, j);
    }
  }

  /** diccionario_eliminar_buddy: clear the chunk, then join upwards. */
  function Release(cs: seq<Chunk>, i: nat): (seq<Chunk>, nat)
    requires i < |cs|
  {
    Coalesce(cs[i := cs[i].Cleared()], i)
  }

  lemma ReleaseKeeps(cs: seq<Chunk>, total: nat, i: nat)
    requires Shape(cs, total) && i < |cs| && NoFreePair(cs)
    ensures var (r, j) := Release(cs, i);
            && BlankAt(r, j) && Shape(r, total) && NoFreePair(r)
            && Busy(r) == BusyWithout(cs, i)
            && r[j].addr <= cs[i].addr && cs[i].End() <= r[j].End()
  {
    ClearKeeps(cs, total, i);
    CoalesceKeeps(cs[i := cs[i].Cleared()], total, i);
  }

  lemma ClearKeeps(cs: seq<Chunk>, total: nat, i: nat)
    requires Shape(cs, total) && i < |cs| && NoFreePair(cs)
    ensures var r := cs[i := cs[i].Cleared()];
            && BlankAt(r, i) && Shape(r, total) && NoFreePairBut(r, i)
            && Busy(r) == BusyWithout(cs, i)
  {
    BusyUpdate(cs, i, cs[i].Cleared());
  }

  // ---------- splitting down to the request ----------

  /** Halve the chunk while a half is still large enough. */
  function SplitDown(cs: seq<Chunk>, i: nat, need: nat): seq<Chunk>
    requires i < |cs| && need >= 1
    decreases cs[i].size
  {
    if cs[i].size / 2 >= need then SplitDown(SplitAt(cs, i), i, need) else cs
  }

  lemma {:induction false} SplitDownKeeps(cs: seq<Chunk>, total: nat, i: nat, need: nat)
    requires Shape(cs, total) && NoFreePairBut(cs, i)
    requires BlankAt(cs, i) && cs[i].size >= need >= 1
    ensures var r := SplitDown(cs, i, need);
            && Shape(r, total) && NoFreePairBut(r, i)
            && BlankAt(r, i) && r[i].addr == cs[i].addr
            && r[i].size >= need && r[i].size < 2 * need
            && Busy(r) == Busy(cs) && r[..i] == cs[..i]
    decreases cs[i].size
  {
    if cs[i].size / 2 >= need {
      SplitShape(cs, total, i);
      SplitPairs(cs, total, i);
      SplitBusy(cs, i);
      SplitDownKeeps(SplitAt(cs, i), total, i, need);
      assert SplitAt(cs, i)[..i] == cs[..i];
    } else {
      assert cs[i].size == 1 || cs[i].size % 2 == 0;
    }
  }
}
