/**
  The record shared by both memory schemes of the cache engine, seen as a value: one
  chunk of the arena, and the address-ordered list of chunks that carves the arena up.
  Addresses are offsets from the start of the arena.
  */
module Chunks {
  import opened Basics
  import opened Division

  datatype Chunk = Chunk(addr: nat, size: nat, nkey: nat, key: string, hour: nat,
                         used: bool, dataSize: nat, flags: nat)
  {
    /** Has a key but was never stored: `estaReservado`. */
    predicate Reserved() { !used && nkey != 0 }

    /** Neither occupied nor reserved: what every search of the list looks for. */
    predicate Free() { !used && nkey == 0 }

    /** The comparison of `diccionario_obtener`: the first nkey bytes of the key buffer are k. */
    predicate Named(k: string) { nkey != 0 && nkey == |k| && nkey <= |key| && key[..nkey] == k }

    predicate Fits(need: nat) { Free() && size >= need }

    function End(): nat { addr + size }

    /** The chunk once it has been deleted, before any merging. */
    function Cleared(): Chunk { Blank(addr, size) }

    /** The offset of the chunk is an even multiple of its size. */
    predicate FirstBrother() { size == 0 || (addr / size) % 2 == 0 }
  }

  /** Every node owns a key buffer of this many bytes. */
  const KEY_SIZE_MAX: nat := 45

  /** The key and the byte after it, which are copied with it, fit the buffer. */
  predicate KeyFits(k: string) { |k| + 1 <= KEY_SIZE_MAX }

  /** A free chunk with every field in the state a pool node carries. */
  function Blank(addr: nat, size: nat): Chunk {
    Chunk(addr, size, 0, "", 0, false, 0, 0)
  }

  function Max(a: int, b: int): int { if a > b then a else b }

  // ---------- tiling ----------

  /** The chunks cover [0, total) exactly, in address order. */
  ghost predicate Tiled(cs: seq<Chunk>, total: nat) {
    && |cs| > 0
    && cs[0].addr == 0
    && cs[|cs| - 1].End() == total
    && forall i, j :: 0 <= i && j == i + 1 && j < |cs| ==> cs[j].addr == cs[i].End()
  }

  lemma {:induction false} TiledOrdered(cs: seq<Chunk>, total: nat, i: nat, j: nat)
    requires Tiled(cs, total)
    requires i < j < |cs|
    ensures cs[i].End() <= cs[j].addr
    decreases j - i
  {
    if j > i + 1 {
      TiledOrdered(cs, total, i + 1, j);
      assert cs[i + 1].addr == cs[i].End();
    }
  }

  lemma TiledBounds(cs: seq<Chunk>, total: nat, i: nat)
    requires Tiled(cs, total)
    requires i < |cs|
    ensures cs[i].End() <= total
  {
    if i < |cs| - 1 {
      TiledOrdered(cs, total, i, |cs| - 1);
    }
  }

  /** Chunks that are at least `unit` long cannot outnumber total / unit. */
  lemma TiledCount(cs: seq<Chunk>, total: nat, unit: nat)
    requires Tiled(cs, total)
    requires unit > 0 && forall c :: c in cs ==> c.size >= unit
    ensures |cs| * unit <= total
    ensures |cs| <= total / unit
  {
    AddrAtLeast(cs, total, unit, |cs| - 1);
    MulStep(|cs| - 1, unit);
    DivLower(|cs|, unit, total);
  }

  lemma {:induction false} AddrAtLeast(cs: seq<Chunk>, total: nat, unit: nat, i: nat)
    requires Tiled(cs, total) && i < |cs|
    requires forall c :: c in cs ==> c.size >= unit
    ensures cs[i].addr >= i * unit
  {
    if i > 0 {
      AddrAtLeast(cs, total, unit, i - 1);
      MulStep(i - 1, unit);
      assert cs[i].addr == cs[i - 1].End();
      assert cs[i - 1] in cs;
    }
  }

  // ---------- the chunks that are not free ----------

  /** The chunks that are not free, in order. */
  function Busy(cs: seq<Chunk>): seq<Chunk> {
    if cs == [] then []
    else if cs[0].Free() then Busy(cs[1..])
    else [cs[0]] + Busy(cs[1..])
  }

  lemma BusyStep(x: Chunk, s: seq<Chunk>, t: seq<Chunk>)
    ensures [x] + (s + t) == ([x] + s) + t
  {
  }

  lemma {:induction false} BusyConcat(a: seq<Chunk>, b: seq<Chunk>)
    ensures Busy(a + b) == Busy(a) + Busy(b)
  {
    if a == [] {
      assert a + b == b;
    } else {
      BusyConcat(a[1..], b);
      assert (a + b)[0] == a[0] && (a + b)[1..] == a[1..] + b;
      BusyStep(a[0], Busy(a[1..]), Busy(b));
    }
  }

  lemma BusySplit(a: seq<Chunk>, m: seq<Chunk>, b: seq<Chunk>)
    ensures Busy(a + m + b) == Busy(a) + Busy(m) + Busy(b)
  {
    BusyConcat(a + m, b);
    BusyConcat(a, m);
  }

  /** Busy without the chunk at position i of the whole list. */
  function BusyWithout(cs: seq<Chunk>, i: nat): seq<Chunk>
    requires i < |cs|
  {
    Busy(cs[..i]) + Busy(cs[i + 1..])
  }

  lemma BusyUpdate(cs: seq<Chunk>, i: nat, c: Chunk)
    requires i < |cs|
    ensures Busy(cs[i := c]) == Busy(cs[..i]) + (if c.Free() then [] else [c]) + Busy(cs[i + 1..])
  {
    assert cs[i := c] == cs[..i] + [c] + cs[i + 1..];
    BusySplit(cs[..i], [c], cs[i + 1..]);
  }

  lemma BusyAt(cs: seq<Chunk>, i: nat)
    requires i < |cs|
    ensures Busy(cs) == Busy(cs[..i]) + (if cs[i].Free() then [] else [cs[i]]) + Busy(cs[i + 1..])
  {
    assert cs[i := cs[i]] == cs;
    BusyUpdate(cs, i, cs[i]);
  }

  lemma BusyPair(x: Chunk, y: Chunk)
    ensures Busy([x, y]) == Busy([x]) + Busy([y])
    ensures Busy([x]) == if x.Free() then [] else [x]
    ensures Busy([y]) == if y.Free() then [] else [y]
  {
    BusyConcat([x], [y]);
    assert [x, y] == [x] + [y];
  }

  /** Replacing a stretch of the list by another with the same busy chunks changes nothing. */
  lemma BusyReplace(cs: seq<Chunk>, ds: seq<Chunk>, a: seq<Chunk>, m: seq<Chunk>, n: seq<Chunk>, b: seq<Chunk>)
    requires cs == a + m + b && ds == a + n + b && Busy(m) == Busy(n)
    ensures Busy(cs) == Busy(ds)
  {
    BusySplit(a, m, b);
    BusySplit(a, n, b);
  }

  lemma Around(cs: seq<Chunk>, i: nat, j: nat)
    requires i <= j <= |cs|
    ensures cs == cs[..i] + cs[i..j] + cs[j..]
    ensures j == i + 1 ==> cs[i..j] == [cs[i]]
    ensures j == i + 2 ==> cs[i..j] == [cs[i], cs[i + 1]]
  {
  }

  lemma {:induction false} BusyMembers(cs: seq<Chunk>, c: Chunk)
    ensures c in Busy(cs) <==> c in cs && !c.Free()
  {
    if cs != [] {
      BusyMembers(cs[1..], c);
      assert cs == [cs[0]] + cs[1..];
    }
  }

  function SumData(cs: seq<Chunk>): nat {
    if cs == [] then 0 else cs[0].dataSize + SumData(cs[1..])
  }

  lemma {:induction false} SumDataConcat(a: seq<Chunk>, b: seq<Chunk>)
    ensures SumData(a + b) == SumData(a) + SumData(b)
  {
    if a == [] {
      assert a + b == b;
    } else {
      SumDataConcat(a[1..], b);
      assert (a + b)[1..] == a[1..] + b;
    }
  }

  // ---------- lookup: diccionario_obtener ----------

  /** Position of the first chunk that carries the key. */
  function Find(cs: seq<Chunk>, k: string): (r: Option<nat>)
    ensures r.Some? ==> r.value < |cs| && cs[r.value].Named(k)
                        && forall j :: 0 <= j < r.value ==> !cs[j].Named(k)
    ensures r.None? ==> forall j :: 0 <= j < |cs| ==> !cs[j].Named(k)
  {
    if cs == [] then None
    else if cs[0].Named(k) then Some(0)
    else
      match Find(cs[1..], k)
      case None =>
        assert forall j :: 1 <= j < |cs| ==> cs[j] == cs[1..][j - 1];
        None
      case Some(i) =>
        assert forall j :: 1 <= j < |cs| ==> cs[j] == cs[1..][j - 1];
        Some(i + 1)
  }

  // ---------- victim: diccionario_elegirVictima ----------

  /** The first chunk of least hour among those with an hour. */
  ghost predicate IsVictim(cs: seq<Chunk>, v: nat) {
    && v < |cs| && cs[v].hour != 0
    && (forall j :: 0 <= j < |cs| && cs[j].hour != 0 ==> cs[v].hour <= cs[j].hour)
    && (forall j :: 0 <= j < v && cs[j].hour != 0 ==> cs[v].hour < cs[j].hour)
  }

  function Victim(cs: seq<Chunk>): (r: Option<nat>)
    ensures r.Some? ==> IsVictim(cs, r.value)
    ensures r.None? ==> forall j :: 0 <= j < |cs| ==> cs[j].hour == 0
  {
    if cs == [] then None
    else
      var n := |cs| - 1;
      assert forall j :: 0 <= j < n ==> cs[j] == cs[..n][j];
      match Victim(cs[..n])
      case None => if cs[n].hour != 0 then Some(n) else None
      case Some(v) => if cs[n].hour != 0 && cs[n].hour < cs[v].hour then Some(n) else Some(v)
  }

  lemma VictimUnique(cs: seq<Chunk>, v: nat)
    requires IsVictim(cs, v)
    ensures Victim(cs) == Some(v)
  {
    var r := Victim(cs);
    assert r.Some?;
  }

  // ---------- placement: first fit and best fit ----------

  /** The chunk the search settles on: the first that fits, or under best fit the first among the smallest that fit. */
  ghost predicate IsChoice(cs: seq<Chunk>, need: nat, best: bool, i: nat) {
    && i < |cs| && cs[i].Fits(need)
    && (!best ==> forall j :: 0 <= j < i ==> !cs[j].Fits(need))
    && (best ==> forall j :: 0 <= j < |cs| && cs[j].Fits(need) ==>
                   cs[i].size <= cs[j].size && (j < i ==> cs[i].size < cs[j].size))
  }

  function Choose(cs: seq<Chunk>, need: nat, best: bool): (r: Option<nat>)
    ensures r.Some? ==> IsChoice(cs, need, best, r.value)
    ensures r.None? ==> forall j :: 0 <= j < |cs| ==> !cs[j].Fits(need)
  {
    if cs == [] then None
    else
      var n := |cs| - 1;
      assert forall j :: 0 <= j < n ==> cs[j] == cs[..n][j];
      match Choose(cs[..n], need, best)
      case None => if cs[n].Fits(need) then Some(n) else None
      case Some(i) => if best && cs[n].Fits(need) && cs[n].size < cs[i].size then Some(n) else Some(i)
  }

  lemma ChooseUnique(cs: seq<Chunk>, need: nat, best: bool, i: nat)
    requires IsChoice(cs, need, best, i)
    ensures Choose(cs, need, best) == Some(i)
  {
    var r := Choose(cs, need, best);
    assert cs[i].Fits(need);
    assert r.Some? && cs[r.value].Fits(need);
  }
}
