/**
  diccionario_compactarMemoria on lists of chunks and the bytes of the arena, both as the
  program does it (key bytes, hour and size move, nkey and flags stay behind) and with the
  whole record moved.
  */
module CompactionSpec {
  import opened Basics
  import opened Chunks
  import opened BuddyCache
  import opened DynamicSpec

  // ---------- the chunks ----------

  /** The free chunk after it has taken over the record of x. */
  function Moved(free: Chunk, x: Chunk, whole: bool): Chunk {
    Chunk(free.addr, x.size, if whole then x.nkey else free.nkey, x.key, x.hour, true, x.dataSize,
          if whole then x.flags else free.flags)
  }

  /** The node of x once its record has moved down: the free space, right after it. */
  function Vacated(free: Chunk, x: Chunk, whole: bool): Chunk {
    Chunk(free.addr + x.size, free.size, if whole then 0 else x.nkey, "", 0, false, 0,
          if whole then 0 else x.flags)
  }

  function Grown(free: Chunk, x: Chunk): Chunk { free.(size := free.size + x.size) }

  /** The inner loop: the free chunk travels up through the rest of the list. */
  function Shift(free: Chunk, rest: seq<Chunk>, whole: bool): seq<Chunk>
    decreases |rest|
  {
    if rest == [] then [free]
    else if rest[0].Free() then Shift(Grown(free, rest[0]), rest[1..], whole)
    else [Moved(free, rest[0], whole)] + Shift(Vacated(free, rest[0], whole), rest[1..], whole)
  }

  /** Position of the first free chunk. */
  function FirstFree(cs: seq<Chunk>): (f: nat)
    ensures f <= |cs| && (f < |cs| ==> cs[f].Free())
    ensures forall j :: 0 <= j < f ==> !cs[j].Free()
  {
    if cs == [] then 0
    else if cs[0].Free() then 0
    else
      assert forall j :: 1 <= j < |cs| ==> cs[j] == cs[1..][j - 1];
      1 + FirstFree(cs[1..])
  }

  function Compact(cs: seq<Chunk>, whole: bool): seq<Chunk> {
    var f := FirstFree(cs);
    if f == |cs| then cs else cs[..f] + Shift(cs[f], cs[f + 1..], whole)
  }

  // ---------- the bytes ----------

  /** n bytes copied from src down to dst. */
  function CopyDown(mem: Bytes, dst: nat, src: nat, n: nat): Bytes
    requires dst <= src && src + n <= |mem|
  {
    mem[..dst] + mem[src..src + n] + mem[dst + n..]
  }

  ghost predicate TiledFrom(cs: seq<Chunk>, lo: nat, hi: nat) {
    && |cs| > 0 && cs[0].addr == lo && cs[|cs| - 1].End() == hi
    && forall i, j :: 0 <= i && j == i + 1 && j < |cs| ==> cs[j].addr == cs[i].End()
  }

  lemma TiledFromBounds(cs: seq<Chunk>, lo: nat, hi: nat, i: nat)
    requires TiledFrom(cs, lo, hi) && i < |cs|
    ensures lo <= cs[i].addr && cs[i].End() <= hi
  {
    FromBelow(cs, lo, hi, i);
    FromAbove(cs, lo, hi, i);
  }

  lemma {:induction false} FromBelow(cs: seq<Chunk>, lo: nat, hi: nat, i: nat)
    requires TiledFrom(cs, lo, hi) && i < |cs|
    ensures lo <= cs[i].addr
  {
    if i > 0 {
      FromBelow(cs, lo, hi, i - 1);
      assert cs[i].addr == cs[i - 1].End();
    }
  }

  lemma {:induction false} FromAbove(cs: seq<Chunk>, lo: nat, hi: nat, i: nat)
    requires TiledFrom(cs, lo, hi) && i < |cs|
    ensures cs[i].End() <= hi
    decreases |cs| - i
  {
    if i + 1 < |cs| {
      FromAbove(cs, lo, hi, i + 1);
      assert cs[i + 1].addr == cs[i].End();
    }
  }

  /** The arena after the inner loop. */
  function ShiftBytes(mem: Bytes, free: Chunk, rest: seq<Chunk>, whole: bool): Bytes
    requires TiledFrom([free] + rest, free.addr, |mem|)
    decreases |rest|
  {
    if rest == [] then mem
    else
      ShiftStep(free, rest, |mem|, whole);
      TiledFromBounds([free] + rest, free.addr, |mem|, 1);
      if rest[0].Free() then ShiftBytes(mem, Grown(free, rest[0]), rest[1..], whole)
      else
        assert ([free] + rest)[1] == rest[0] && rest[0].addr == free.End();
        ShiftBytes(CopyDown(mem, free.addr, rest[0].addr, rest[0].size),
                   Vacated(free, rest[0], whole), rest[1..], whole)
  }

  /** Either way the loop goes, what is left of the list still tiles up to the end. */
  lemma ShiftStep(free: Chunk, rest: seq<Chunk>, hi: nat, whole: bool)
    requires rest != [] && TiledFrom([free] + rest, free.addr, hi)
    ensures TiledFrom([Grown(free, rest[0])] + rest[1..], free.addr, hi)
    ensures TiledFrom([Vacated(free, rest[0], whole)] + rest[1..], free.addr + rest[0].size, hi)
    ensures rest[0].addr == free.End() && rest[0].End() <= hi
  {
    var a := [free] + rest;
    assert a[1] == rest[0] && a[0] == free;
    FromAbove(a, free.addr, hi, 1);
    forall n: Chunk, i, j | n.End() == rest[0].End() && 0 <= i && j == i + 1 && j < |[n] + rest[1..]|
      ensures ([n] + rest[1..])[j].addr == ([n] + rest[1..])[i].End()
    {
      assert ([n] + rest[1..])[j] == a[j + 1];
      assert i > 0 ==> ([n] + rest[1..])[i] == a[i + 1];
      assert a[i + 2].addr == a[i + 1].End();
    }
    var g, v := Grown(free, rest[0]), Vacated(free, rest[0], whole);
    assert g.End() == rest[0].End() == v.End();
    LastEnd(a, [g] + rest[1..], rest);
    LastEnd(a, [v] + rest[1..], rest);
  }

  lemma LastEnd(a: seq<Chunk>, b: seq<Chunk>, rest: seq<Chunk>)
    requires rest != [] && |a| == |rest| + 1 && a[1..] == rest && |b| == |rest| && b[1..] == rest[1..]
    requires b[0].End() == rest[0].End()
    ensures b[|b| - 1].End() == a[|a| - 1].End()
  {
    assert a[|a| - 1] == rest[|rest| - 1];
    if |rest| > 1 {
      assert b[|b| - 1] == b[1..][|b| - 2] == rest[1..][|rest| - 2];
    }
  }

  // ---------- the stored chunks ----------

  /** The occupied chunks, in order. */
  function UsedOf(cs: seq<Chunk>): seq<Chunk> {
    if cs == [] then []
    else if cs[0].used then [cs[0]] + UsedOf(cs[1..])
    else UsedOf(cs[1..])
  }

  lemma {:induction false} UsedOfConcat(a: seq<Chunk>, b: seq<Chunk>)
    ensures UsedOf(a + b) == UsedOf(a) + UsedOf(b)
  {
    if a == [] {
      assert a + b == b;
    } else {
      var t := a[1..];
      UsedOfConcat(t, b);
      assert (a + b)[0] == a[0] && (a + b)[1..] == t + b;
      if a[0].used {
        assert UsedOf(a + b) == [a[0]] + (UsedOf(t) + UsedOf(b)) == ([a[0]] + UsedOf(t)) + UsedOf(b);
      }
    }
  }

  /** Same stored item at a possibly different address; nkey and flags only when the whole record moves. */
  predicate SameItem(a: Chunk, b: Chunk, whole: bool) {
    && a.used && b.used && a.size == b.size && a.key == b.key && a.hour == b.hour && a.dataSize == b.dataSize
    && (whole ==> a.nkey == b.nkey && a.flags == b.flags)
  }

  ghost predicate SameItems(a: seq<Chunk>, b: seq<Chunk>, whole: bool) {
    |a| == |b| && forall i :: 0 <= i < |a| ==> SameItem(a[i], b[i], whole)
  }

  /** The chunk's bytes are the same in both arenas, each at its own address. */
  ghost predicate SamePayload(a: Chunk, ma: Bytes, b: Chunk, mb: Bytes) {
    && a.size == b.size && a.End() <= |ma| && b.End() <= |mb|
    && ma[a.addr..a.End()] == mb[b.addr..b.End()]
  }

  ghost predicate SamePayloads(a: seq<Chunk>, ma: Bytes, b: seq<Chunk>, mb: Bytes) {
    |a| == |b| && forall i :: 0 <= i < |a| ==> SamePayload(a[i], ma, b[i], mb)
  }

  /** Occupied chunks first, then at most one that is not. */
  ghost predicate PackedFirst(cs: seq<Chunk>) {
    forall i :: 0 <= i < |cs| - 1 ==> cs[i].used
  }

  /** Every chunk is either free or occupied. */
  ghost predicate NoneReserved(cs: seq<Chunk>) {
    forall c :: c in cs ==> !c.Reserved()
  }

  lemma {:induction false} ShiftGeometry(free: Chunk, rest: seq<Chunk>, hi: nat, whole: bool)
    requires TiledFrom([free] + rest, free.addr, hi) && NoneReserved(rest) && !free.used
    ensures var s := Shift(free, rest, whole);
            && TiledFrom(s, free.addr, hi) && PackedFirst(s) && !s[|s| - 1].used
            && SameItems(UsedOf(s), UsedOf(rest), whole)
    decreases |rest|
  {
    if rest != [] {
      assert rest[0] in rest && forall c :: c in rest[1..] ==> c in rest;
      ShiftStep(free, rest, hi, whole);
      if rest[0].Free() {
        ShiftGeometry(Grown(free, rest[0]), rest[1..], hi, whole);
        assert Shift(free, rest, whole) == Shift(Grown(free, rest[0]), rest[1..], whole);
        assert UsedOf(rest) == UsedOf(rest[1..]);
      } else {
        var x, v := Moved(free, rest[0], whole), Vacated(free, rest[0], whole);
        ShiftGeometry(v, rest[1..], hi, whole);
        ConsGeometry(x, rest[0], Shift(v, rest[1..], whole), UsedOf(rest[1..]), hi, whole);
        assert UsedOf(rest) == [rest[0]] + UsedOf(rest[1..]);
      }
    }
  }

  lemma ConsGeometry(x: Chunk, y: Chunk, t: seq<Chunk>, u: seq<Chunk>, hi: nat, whole: bool)
    requires TiledFrom(t, x.End(), hi) && PackedFirst(t) && !t[|t| - 1].used
    requires SameItems(UsedOf(t), u, whole) && SameItem(x, y, whole)
    ensures var s := [x] + t;
            && TiledFrom(s, x.addr, hi) && PackedFirst(s) && !s[|s| - 1].used
            && SameItems(UsedOf(s), [y] + u, whole)
  {
    ConsTiled(x, t, hi);
    ConsPacked(x, t);
  }

  lemma ConsTiled(x: Chunk, t: seq<Chunk>, hi: nat)
    requires TiledFrom(t, x.End(), hi)
    ensures TiledFrom([x] + t, x.addr, hi)
  {
    var s := [x] + t;
    assert s[|s| - 1] == t[|t| - 1];
    forall i, j | 0 <= i && j == i + 1 && j < |s| ensures s[j].addr == s[i].End() {
      assert s[j] == t[j - 1];
      assert i > 0 ==> s[i] == t[i - 1];
    }
  }

  lemma ConsPacked(x: Chunk, t: seq<Chunk>)
    requires t != [] && x.used && PackedFirst(t)
    ensures PackedFirst([x] + t) && ([x] + t)[|t|] == t[|t| - 1] && UsedOf([x] + t) == [x] + UsedOf(t)
  {
    assert ([x] + t)[1..] == t;
  }

  /** Cutting a tiled list at f. */
  lemma TiledCut(cs: seq<Chunk>, total: nat, f: nat)
    requires Tiled(cs, total) && f < |cs|
    ensures TiledFrom([cs[f]] + cs[f + 1..], cs[f].addr, total)
  {
    var b := [cs[f]] + cs[f + 1..];
    assert forall i :: 0 <= i < |b| ==> b[i] == cs[f + i];
    forall i, j | 0 <= i && j == i + 1 && j < |b| ensures b[j].addr == b[i].End() {
      assert cs[f + j].addr == cs[f + i].End();
    }
  }

  lemma TiledPaste(cs: seq<Chunk>, total: nat, f: nat, s: seq<Chunk>)
    requires Tiled(cs, total) && f < |cs| && TiledFrom(s, cs[f].addr, total)
    ensures Tiled(cs[..f] + s, total)
  {
    var r := cs[..f] + s;
    assert f > 0 ==> cs[f].addr == cs[f - 1].End();
    forall i, j | 0 <= i && j == i + 1 && j < |r| ensures r[j].addr == r[i].End() {
      if j >= f + 1 { assert r[j] == s[j - f] && r[i] == s[i - f]; }
    }
    assert r[|r| - 1] == s[|s| - 1];
  }

  /**
    Compaction keeps the tiling and every stored item in order, and leaves the occupied
    chunks first with at most one other chunk behind them.
    */
  lemma CompactGeometry(cs: seq<Chunk>, total: nat, whole: bool)
    requires Tiled(cs, total) && NoneReserved(cs)
    ensures var r := Compact(cs, whole);
            Tiled(r, total) && PackedFirst(r) && SameItems(UsedOf(r), UsedOf(cs), whole)
  {
    var f := FirstFree(cs);
    PrefixUsed(cs);
    if f < |cs| {
      TiledCut(cs, total, f);
      assert NoneReserved(cs[f + 1..]);
      var s := Shift(cs[f], cs[f + 1..], whole);
      ShiftGeometry(cs[f], cs[f + 1..], total, whole);
      TiledPaste(cs, total, f, s);
      PastePacked(cs[..f], s);
      UsedAround(cs, f);
      UsedOfConcat(cs[..f], s);
      AllUsed(cs[..f]);
      PasteItems(UsedOf(cs[..f]), UsedOf(s), UsedOf(cs[f + 1..]), whole);
    } else {
      AllUsed(cs);
      PrefixItems(cs, whole);
    }
  }

  lemma PrefixUsed(cs: seq<Chunk>)
    requires NoneReserved(cs)
    ensures forall i :: 0 <= i < FirstFree(cs) ==> cs[i].used
  {
    forall i | 0 <= i < FirstFree(cs) ensures cs[i].used { assert cs[i] in cs; }
  }

  lemma PastePacked(a: seq<Chunk>, s: seq<Chunk>)
    requires (forall i :: 0 <= i < |a| ==> a[i].used) && PackedFirst(s)
    ensures PackedFirst(a + s)
  {
  }

  lemma UsedAround(cs: seq<Chunk>, f: nat)
    requires f < |cs| && !cs[f].used
    ensures UsedOf(cs) == UsedOf(cs[..f]) + UsedOf(cs[f + 1..])
  {
    var a, m, b := cs[..f], [cs[f]], cs[f + 1..];
    assert cs == a + (m + b);
    UsedOfConcat(a, m + b);
    UsedOfConcat(m, b);
    assert UsedOf(m) == [];
  }

  lemma PasteItems(a: seq<Chunk>, s: seq<Chunk>, b: seq<Chunk>, whole: bool)
    requires SameItems(s, b, whole) && forall i :: 0 <= i < |a| ==> a[i].used
    ensures SameItems(a + s, a + b, whole)
  {
  }

  lemma PrefixItems(cs: seq<Chunk>, whole: bool)
    ensures SameItems(UsedOf(cs), UsedOf(cs), whole)
  {
    AllUsed(cs);
  }

  lemma {:induction false} AllUsed(cs: seq<Chunk>)
    ensures forall i :: 0 <= i < |UsedOf(cs)| ==> UsedOf(cs)[i].used
  {
    if cs != [] {
      AllUsed(cs[1..]);
    }
  }

  // ---------- the stored bytes ----------

  function CompactBytes(cs: seq<Chunk>, mem: Bytes, whole: bool): Bytes
    requires Tiled(cs, |mem|)
  {
    var f := FirstFree(cs);
    if f == |cs| then mem
    else
      TiledCut(cs, |mem|, f);
      ShiftBytes(mem, cs[f], cs[f + 1..], whole)
  }

  lemma {:induction false} ShiftPayloads(mem: Bytes, free: Chunk, rest: seq<Chunk>, whole: bool)
    requires TiledFrom([free] + rest, free.addr, |mem|) && NoneReserved(rest) && !free.used
    ensures var out := ShiftBytes(mem, free, rest, whole);
            && free.addr <= |mem| == |out| && out[..free.addr] == mem[..free.addr]
            && SamePayloads(UsedOf(Shift(free, rest, whole)), out, UsedOf(rest), mem)
    decreases |rest|
  {
    TiledFromBounds([free] + rest, free.addr, |mem|, 0);
    if rest != [] {
      assert rest[0] in rest && forall c :: c in rest[1..] ==> c in rest;
      ShiftStep(free, rest, |mem|, whole);
      if rest[0].Free() {
        ShiftPayloads(mem, Grown(free, rest[0]), rest[1..], whole);
      } else {
        var x, v := Moved(free, rest[0], whole), Vacated(free, rest[0], whole);
        var mid := CopyDown(mem, free.addr, rest[0].addr, rest[0].size);
        ShiftPayloads(mid, v, rest[1..], whole);
        var t := Shift(v, rest[1..], whole);
        ShiftGeometry(v, rest[1..], |mem|, whole);
        ConsPacked(x, t);
        TailUntouched(mem, mid, free, rest);
        ConsPayloads(mem, mid, ShiftBytes(mid, v, rest[1..], whole), free, x, rest, t);
      }
    }
  }

  lemma CopyBelow(mem: Bytes, dst: nat, src: nat, n: nat, c: Chunk)
    requires dst <= src && src + n <= c.addr && c.End() <= |mem|
    ensures SamePayload(c, CopyDown(mem, dst, src, n), c, mem)
  {
    var mid := CopyDown(mem, dst, src, n);
    forall p | c.addr <= p < c.End() ensures mid[p] == mem[p] { }
  }

  /** The copy of the first chunk leaves the bytes of the chunks after it alone. */
  lemma TailUntouched(mem: Bytes, mid: Bytes, free: Chunk, rest: seq<Chunk>)
    requires rest != [] && TiledFrom([free] + rest, free.addr, |mem|)
    requires rest[0].addr == free.End() && rest[0].End() <= |mem|
    requires mid == CopyDown(mem, free.addr, rest[0].addr, rest[0].size)
    ensures SamePayloads(UsedOf(rest[1..]), mid, UsedOf(rest[1..]), mem)
  {
    var u := UsedOf(rest[1..]);
    forall i | 0 <= i < |u| ensures SamePayload(u[i], mid, u[i], mem) {
      UsedMembers(rest[1..], u[i]);
      var j :| 0 <= j < |rest[1..]| && rest[1..][j] == u[i];
      TailAbove(free, rest, |mem|, j, u[i]);
      CopyBelow(mem, free.addr, rest[0].addr, rest[0].size, u[i]);
    }
  }

  lemma TailAbove(free: Chunk, rest: seq<Chunk>, hi: nat, j: nat, c: Chunk)
    requires rest != [] && TiledFrom([free] + rest, free.addr, hi) && j + 1 < |rest| && rest[j + 1] == c
    ensures rest[0].End() <= c.addr && c.End() <= hi
  {
    var a := [free] + rest;
    assert a[1] == rest[0] && a[j + 2] == c;
    TiledFromBounds(a, free.addr, hi, j + 2);
    FromOrdered(a, free.addr, hi, 1, j + 2);
  }

  lemma {:induction false} FromOrdered(cs: seq<Chunk>, lo: nat, hi: nat, i: nat, j: nat)
    requires TiledFrom(cs, lo, hi) && i < j < |cs|
    ensures cs[i].End() <= cs[j].addr
    decreases j - i
  {
    assert cs[i + 1].addr == cs[i].End();
    if j > i + 1 {
      FromOrdered(cs, lo, hi, i + 1, j);
    }
  }

  lemma {:induction false} UsedMembers(cs: seq<Chunk>, c: Chunk)
    ensures c in UsedOf(cs) <==> c in cs && c.used
  {
    if cs != [] {
      UsedMembers(cs[1..], c);
      assert cs == [cs[0]] + cs[1..];
    }
  }

  lemma ConsPayloads(mem: Bytes, mid: Bytes, out: Bytes, free: Chunk, x: Chunk, rest: seq<Chunk>, t: seq<Chunk>)
    requires rest != [] && rest[0].used && free.addr <= rest[0].addr && rest[0].End() <= |mem|
    requires mid == CopyDown(mem, free.addr, rest[0].addr, rest[0].size) && |out| == |mid|
    requires x.addr == free.addr && x.size == rest[0].size && x.used
    requires out[..x.End()] == mid[..x.End()]
    requires SamePayloads(UsedOf(t), out, UsedOf(rest[1..]), mid)
    requires SamePayloads(UsedOf(rest[1..]), mid, UsedOf(rest[1..]), mem)
    ensures SamePayloads([x] + UsedOf(t), out, [rest[0]] + UsedOf(rest[1..]), mem)
    ensures out[..free.addr] == mem[..free.addr]
  {
    assert out[x.addr..x.End()] == mid[x.addr..x.End()] by {
      assert out[x.addr..x.End()] == out[..x.End()][x.addr..];
      assert mid[x.addr..x.End()] == mid[..x.End()][x.addr..];
    }
    assert mid[x.addr..x.End()] == mem[rest[0].addr..rest[0].End()];
    assert out[..free.addr] == out[..x.End()][..free.addr];
    assert mid[..free.addr] == mid[..x.End()][..free.addr];
    var a, b := UsedOf(t), UsedOf(rest[1..]);
    forall i | 0 <= i < |a| ensures SamePayload(a[i], out, b[i], mem) {
      assert SamePayload(a[i], out, b[i], mid) && SamePayload(b[i], mid, b[i], mem);
    }
  }

  /** Compaction keeps the bytes of every stored chunk, overlapping moves included. */
  lemma CompactPayloads(cs: seq<Chunk>, mem: Bytes, whole: bool)
    requires Tiled(cs, |mem|) && NoneReserved(cs)
    ensures var out := CompactBytes(cs, mem, whole);
            && |out| == |mem|
            && SamePayloads(UsedOf(Compact(cs, whole)), out, UsedOf(cs), mem)
  {
    var f := FirstFree(cs);
    var out := CompactBytes(cs, mem, whole);
    if f < |cs| {
      TiledCut(cs, |mem|, f);
      assert NoneReserved(cs[f + 1..]);
      ShiftPayloads(mem, cs[f], cs[f + 1..], whole);
      UsedAround(cs, f);
      var s := Shift(cs[f], cs[f + 1..], whole);
      UsedOfConcat(cs[..f], s);
      PrefixPayloads(cs, mem, out, f);
      PastePayloads(UsedOf(cs[..f]), UsedOf(s), UsedOf(cs[f + 1..]), out, mem);
    } else {
      PrefixPayloads(cs, mem, out, f);
      assert cs[..f] == cs;
    }
  }

  lemma PastePayloads(a: seq<Chunk>, s: seq<Chunk>, b: seq<Chunk>, out: Bytes, mem: Bytes)
    requires SamePayloads(a, out, a, mem) && SamePayloads(s, out, b, mem)
    ensures SamePayloads(a + s, out, a + b, mem)
  {
  }

  lemma PrefixPayloads(cs: seq<Chunk>, mem: Bytes, out: Bytes, f: nat)
    requires Tiled(cs, |mem|) && f <= |cs| && |out| == |mem|
    requires var e := if f < |cs| then cs[f].addr else |mem|; e <= |mem| && out[..e] == mem[..e]
    ensures SamePayloads(UsedOf(cs[..f]), out, UsedOf(cs[..f]), mem)
  {
    var e := if f < |cs| then cs[f].addr else |mem|;
    var u := UsedOf(cs[..f]);
    forall i | 0 <= i < |u| ensures SamePayload(u[i], out, u[i], mem) {
      UsedMembers(cs[..f], u[i]);
      var j :| 0 <= j < f && cs[..f][j] == u[i];
      TiledBounds(cs, |mem|, j);
      if f < |cs| { TiledOrdered(cs, |mem|, j, f); }
      assert out[u[i].addr..u[i].End()] == out[..e][u[i].addr..u[i].End()];
      assert mem[u[i].addr..u[i].End()] == mem[..e][u[i].addr..u[i].End()];
    }
  }

  // ---------- what the program's own record move does to lookups ----------

  /** The fields left behind: every moved chunk answers with the nkey and flags of the item moved just before it. */
  lemma {:induction false} ShiftFields(free: Chunk, rest: seq<Chunk>)
    requires NoneReserved(rest) && !free.used
    ensures var s, u := Shift(free, rest, false), UsedOf(rest);
            && |s| == |u| + 1 && !s[|u|].used
            && (forall p :: 0 <= p < |u| ==> s[p].used && s[p].key == u[p].key)
            && s[0].nkey == free.nkey && s[0].flags == free.flags
            && (forall p :: 0 < p <= |u| ==> s[p].nkey == u[p - 1].nkey && s[p].flags == u[p - 1].flags)
            && s[|u|].key == (if u == [] then free.key else "")
    decreases |rest|
  {
    if rest != [] {
      assert rest[0] in rest && forall c :: c in rest[1..] ==> c in rest;
      if rest[0].Free() {
        ShiftFields(Grown(free, rest[0]), rest[1..]);
      } else {
        var v := Vacated(free, rest[0], false);
        ShiftFields(v, rest[1..]);
        ShiftFieldsCons(Moved(free, rest[0], false), rest[0], Shift(v, rest[1..], false), UsedOf(rest[1..]));
      }
    }
  }

  lemma ShiftFieldsCons(x: Chunk, y: Chunk, t: seq<Chunk>, u: seq<Chunk>)
    requires |t| == |u| + 1 && (forall p :: 0 <= p < |u| ==> t[p].used && t[p].key == u[p].key)
    requires x.used && x.key == y.key && t[0].nkey == y.nkey && t[0].flags == y.flags
    requires forall p :: 0 < p <= |u| ==> t[p].nkey == u[p - 1].nkey && t[p].flags == u[p - 1].flags
    ensures var s, w := [x] + t, [y] + u;
            && (forall p :: 0 <= p < |w| ==> s[p].used && s[p].key == w[p].key)
            && (forall p :: 0 < p <= |w| ==> s[p].nkey == w[p - 1].nkey && s[p].flags == w[p - 1].flags)
            && s[|w|] == t[|u|]
  {
    var s, w := [x] + t, [y] + u;
    forall p | 0 < p <= |w| ensures s[p].nkey == w[p - 1].nkey && s[p].flags == w[p - 1].flags {
      assert s[p] == t[p - 1];
      assert p > 1 ==> w[p - 1] == u[p - 2];
    }
  }

  /** The items behind the first free chunk, which compaction moves. */
  function MovedItems(cs: seq<Chunk>): seq<Chunk> {
    var f := FirstFree(cs);
    if f < |cs| then UsedOf(cs[f + 1..]) else []
  }

  lemma CleanNoneReserved(cs: seq<Chunk>, slab: nat)
    requires Clean(cs, slab)
    ensures NoneReserved(cs)
  {
    forall c | c in cs ensures !c.Reserved() { assert GoodChunk(c, slab); }
  }

  /** The compacted list: what did not move, the moved items under their keys, and one chunk that answers to no key. */
  lemma CompactParts(cs: seq<Chunk>, slab: nat) returns (s: seq<Chunk>)
    requires Clean(cs, slab) && FirstFree(cs) < |cs|
    ensures var u := MovedItems(cs);
            && Compact(cs, false) == cs[..FirstFree(cs)] + s && |s| == |u| + 1
            && (forall p :: 0 <= p < |u| ==> s[p].used && s[p].key == u[p].key)
            && s[0].nkey == 0 && (forall p :: 0 < p <= |u| ==> s[p].nkey == u[p - 1].nkey && s[p].flags == u[p - 1].flags)
            && (forall k :: k != "" ==> !s[|u|].Named(k))
  {
    var f := FirstFree(cs);
    CleanNoneReserved(cs, slab);
    assert cs[f] in cs && GoodChunk(cs[f], slab);
    assert NoneReserved(cs[f + 1..]);
    ShiftFields(cs[f], cs[f + 1..]);
    s := Shift(cs[f], cs[f + 1..], false);
  }

  lemma MovedIsGood(cs: seq<Chunk>, slab: nat, p: nat)
    requires Clean(cs, slab) && p < |MovedItems(cs)|
    ensures var x := MovedItems(cs)[p]; x.used && x in cs && GoodChunk(x, slab)
  {
    var u, f := MovedItems(cs), FirstFree(cs);
    UsedMembers(cs[f + 1..], u[p]);
    assert u[p] in u;
  }

  /**
    Exactly which keys a moved chunk answers to afterwards: those as long as the key of the
    item moved before it that are a prefix of its own key. The first moved item answers to none.
    */
  lemma MovedAnswers(cs: seq<Chunk>, slab: nat, p: nat, k: string)
    requires Clean(cs, slab) && p < |MovedItems(cs)| && k != ""
    ensures var u, f, r := MovedItems(cs), FirstFree(cs), Compact(cs, false);
            && f + p < |r|
            && (r[f + p].Named(k) <==> p > 0 && |u[p - 1].key| == |k| <= |u[p].key| && u[p].key[..|k|] == k)
            && (p > 0 ==> r[f + p].flags == u[p - 1].flags)
  {
    var f, u := FirstFree(cs), MovedItems(cs);
    var s := CompactParts(cs, slab);
    assert Compact(cs, false)[f + p] == s[p];
    if p > 0 { MovedIsGood(cs, slab, p - 1); }
  }

  /** A moved item is still found under its own key exactly when it was not the first to move and the one before it has a key of the same length. */
  lemma MovedFound(cs: seq<Chunk>, slab: nat, p: nat)
    requires Clean(cs, slab) && p < |MovedItems(cs)|
    ensures var u, f, r := MovedItems(cs), FirstFree(cs), Compact(cs, false);
            && f + p < |r|
            && (r[f + p].Named(u[p].key) <==> p > 0 && |u[p - 1].key| == |u[p].key|)
  {
    var u, f := MovedItems(cs), FirstFree(cs);
    UsedMembers(cs[f + 1..], u[p]);
    assert u[p] in u;
    assert u[p] in cs && GoodChunk(u[p], slab);
    MovedAnswers(cs, slab, p, u[p].key);
  }

  /** The p-th moved item answers to k: it has the key length of the item moved before it. */
  predicate Answers(u: seq<Chunk>, p: nat, k: string)
    requires p < |u|
  {
    p > 0 && |u[p - 1].key| == |k| <= |u[p].key| && u[p].key[..|k|] == k
  }

  /** The chunk a key is looked up to among the moved ones: the first that answers, None when none does. */
  ghost predicate FirstAnswer(u: seq<Chunk>, k: string, p: int) {
    if p < 0 then forall x :: 0 <= x < |u| ==> !Answers(u, x, k)
    else p < |u| && Answers(u, p, k) && forall x :: 0 <= x < p ==> !Answers(u, x, k)
  }

  /**
    What a lookup gives after compaction as coded, for every key: the chunk it gave before if
    that did not move; else the first moved chunk that answers, which holds the item moved
    there under its own key, with the flags of the one moved before it; else nothing.
    */
  lemma FoundAfterCompaction(cs: seq<Chunk>, slab: nat, k: string)
    requires Clean(cs, slab) && k != ""
    ensures var u, f, r := MovedItems(cs), FirstFree(cs), Compact(cs, false);
      match Find(r, k)
      case None => Find(cs[..f], k).None? && FirstAnswer(u, k, -1)
      case Some(i) =>
        if i < f then Find(cs[..f], k) == Some(i) && r[i] == cs[i]
        else
          && Find(cs[..f], k).None? && FirstAnswer(u, k, i - f)
          && r[i].key == u[i - f].key && r[i].flags == u[i - f - 1].flags
  {
    var u, f, r := MovedItems(cs), FirstFree(cs), Compact(cs, false);
    if f == |cs| {
      assert cs[..f] == cs;
    } else {
      var s := CompactParts(cs, slab);
      forall p | 0 <= p < |u| ensures s[p].Named(k) <==> Answers(u, p, k) {
        MovedAnswers(cs, slab, p, k);
        assert r[f + p] == s[p];
      }
      FindAround(cs[..f], s, k);
      FindAmong(s, u, k);
      if Find(s, k).Some? {
        MovedAnswers(cs, slab, Find(s, k).value, k);
        assert r[f + Find(s, k).value] == s[Find(s, k).value];
      }
    }
  }

  lemma FindAmong(s: seq<Chunk>, u: seq<Chunk>, k: string)
    requires |s| == |u| + 1 && !s[|u|].Named(k) && forall p :: 0 <= p < |u| ==> (s[p].Named(k) <==> Answers(u, p, k))
    ensures FirstAnswer(u, k, if Find(s, k).Some? then Find(s, k).value else -1)
  {
    forall p | 0 <= p < |u| && (Find(s, k).Some? ==> p < Find(s, k).value) ensures !Answers(u, p, k) {
      assert !s[p].Named(k);
    }
  }

  /** Looking a key up in a list of two parts. */
  lemma {:induction false} FindAround(a: seq<Chunk>, s: seq<Chunk>, k: string)
    ensures Find(a + s, k) == if Find(a, k).Some? then Find(a, k)
                              else if Find(s, k).Some? then Some(|a| + Find(s, k).value) else None
  {
    if a == [] {
      assert a + s == s;
    } else {
      FindAround(a[1..], s, k);
      assert (a + s)[0] == a[0] && (a + s)[1..] == a[1..] + s;
    }
  }

  /**
    As coded, compaction leaves a chunk the searches accept exactly when there was a free
    chunk and nothing stored behind the first one: moving anything leaves the gathered space
    marked as reserved.
    */
  lemma RoomAfterCompaction(cs: seq<Chunk>, slab: nat)
    requires Clean(cs, slab)
    ensures (exists j :: 0 <= j < |Compact(cs, false)| && Compact(cs, false)[j].Free())
            <==> FirstFree(cs) < |cs| && MovedItems(cs) == []
  {
    var f, r := FirstFree(cs), Compact(cs, false);
    CleanNoneReserved(cs, slab);
    PrefixUsed(cs);
    if f < |cs| {
      assert cs[f] in cs && GoodChunk(cs[f], slab);
      var s := Shift(cs[f], cs[f + 1..], false);
      assert NoneReserved(cs[f + 1..]);
      ShiftFields(cs[f], cs[f + 1..]);
      assert r == cs[..f] + s;
      if MovedItems(cs) == [] {
        assert r[f] == s[0] && r[f].Free();
      } else {
        LastMovedNamed(cs, slab);
        NothingFree(cs[..f], s, MovedItems(cs));
      }
    }
  }

  lemma NothingFree(a: seq<Chunk>, s: seq<Chunk>, u: seq<Chunk>)
    requires (forall i :: 0 <= i < |a| ==> a[i].used) && |s| == |u| + 1
    requires (forall p :: 0 <= p < |u| ==> s[p].used) && s[|u|].nkey != 0
    ensures forall j :: 0 <= j < |a + s| ==> !(a + s)[j].Free()
  {
    forall j | 0 <= j < |a + s| ensures !(a + s)[j].Free() {
      assert j >= |a| ==> (a + s)[j] == s[j - |a|];
    }
  }

  lemma LastMovedNamed(cs: seq<Chunk>, slab: nat)
    requires Clean(cs, slab) && MovedItems(cs) != []
    ensures var u := MovedItems(cs); u[|u| - 1].nkey != 0
  {
    var u, f := MovedItems(cs), FirstFree(cs);
    UsedMembers(cs[f + 1..], u[|u| - 1]);
    assert u[|u| - 1] in u;
    assert u[|u| - 1] in cs && GoodChunk(u[|u| - 1], slab);
  }

  // ---------- with the whole record moved ----------

  lemma {:induction false} ShiftClean(free: Chunk, rest: seq<Chunk>, slab: nat)
    requires Clean(rest, slab) && free == Blank(free.addr, free.size) && free.size >= slab
    ensures Clean(Shift(free, rest, true), slab)
    decreases |rest|
  {
    if rest != [] {
      assert GoodChunk(rest[0], slab) by { assert rest[0] in rest; }
      assert Clean(rest[1..], slab) by { assert forall c :: c in rest[1..] ==> c in rest; }
      if rest[0].Free() {
        ShiftClean(Grown(free, rest[0]), rest[1..], slab);
      } else {
        ShiftClean(Vacated(free, rest[0], true), rest[1..], slab);
      }
    }
  }

  /** Compaction of whole records keeps a carved list carved, with the same items and the same data in use. */
  lemma CompactCarved(cs: seq<Chunk>, r: Rules)
    requires Carved(cs, r)
    ensures Carved(Compact(cs, true), r)
    ensures |Busy(Compact(cs, true))| == |Busy(cs)|
    ensures SumData(Compact(cs, true)) == SumData(cs)
  {
    CleanNoneReserved(cs, r.slab);
    CompactGeometry(cs, r.total, true);
    var t := Compact(cs, true);
    CompactClean(cs, r.slab);
    BusyIsUsed(cs, r.slab);
    BusyIsUsed(t, r.slab);
    ItemsSum(UsedOf(t), UsedOf(cs), true);
    SumDataBusy(cs);
    SumDataBusy(t);
    UniqueItems(cs, t, r);
  }

  lemma CompactClean(cs: seq<Chunk>, slab: nat)
    requires Clean(cs, slab)
    ensures Clean(Compact(cs, true), slab)
  {
    var f := FirstFree(cs);
    if f < |cs| {
      assert cs[f] in cs;
      assert Clean(cs[f + 1..], slab);
      ShiftClean(cs[f], cs[f + 1..], slab);
      assert Clean(cs[..f], slab);
    }
  }

  lemma {:induction false} BusyIsUsed(cs: seq<Chunk>, slab: nat)
    requires Clean(cs, slab)
    ensures Busy(cs) == UsedOf(cs)
  {
    if cs != [] {
      assert GoodChunk(cs[0], slab) by { assert cs[0] in cs; }
      assert Clean(cs[1..], slab) by { assert forall c :: c in cs[1..] ==> c in cs; }
      BusyIsUsed(cs[1..], slab);
    }
  }

  lemma {:induction false} ItemsSum(a: seq<Chunk>, b: seq<Chunk>, whole: bool)
    requires SameItems(a, b, whole)
    ensures SumData(a) == SumData(b)
  {
    if a != [] {
      assert SameItem(a[0], b[0], whole);
      assert SameItems(a[1..], b[1..], whole) by {
        forall i | 0 <= i < |a[1..]| ensures SameItem(a[1..][i], b[1..][i], whole) {
          assert SameItem(a[i + 1], b[i + 1], whole);
        }
      }
      ItemsSum(a[1..], b[1..], whole);
    }
  }

  /** Distinct positions of the stored items carry distinct keys. */
  ghost predicate KeysApart(u: seq<Chunk>) {
    forall i, j :: 0 <= i < j < |u| ==> u[i].key != u[j].key
  }

  ghost predicate NoRepeats(cs: seq<Chunk>) {
    forall i, j :: 0 <= i < j < |cs| ==> cs[i] != cs[j]
  }

  lemma {:induction false} UsedKeysApart(cs: seq<Chunk>)
    requires UniqueKeys(cs) && NoRepeats(cs)
    ensures KeysApart(UsedOf(cs))
  {
    if cs != [] {
      assert forall c :: c in cs[1..] ==> c in cs;
      UsedKeysApart(cs[1..]);
      var u := UsedOf(cs[1..]);
      if cs[0].used {
        forall j | 0 <= j < |u| ensures u[j].key != cs[0].key {
          UsedMembers(cs[1..], u[j]);
          assert u[j] in u;
          var x :| 0 <= x < |cs[1..]| && cs[1..][x] == u[j];
          assert cs[x + 1] == u[j] && cs[0] != cs[x + 1];
          assert cs[0] in cs;
        }
      }
    }
  }

  lemma UniqueItems(cs: seq<Chunk>, t: seq<Chunk>, r: Rules)
    requires Carved(cs, r) && SameItems(UsedOf(t), UsedOf(cs), true)
    ensures UniqueKeys(t)
  {
    forall i, j | 0 <= i < j < |cs| ensures cs[i] != cs[j] {
      TiledOrdered(cs, r.total, i, j);
      assert cs[i] in cs && GoodChunk(cs[i], r.slab);
    }
    UsedKeysApart(cs);
    var u, v := UsedOf(t), UsedOf(cs);
    forall c, d | c in t && d in t && c.used && d.used && c.key == d.key ensures c == d {
      UsedMembers(t, c);
      UsedMembers(t, d);
      var i :| 0 <= i < |u| && u[i] == c;
      var j :| 0 <= j < |u| && u[j] == d;
      assert SameItem(u[i], v[i], true) && SameItem(u[j], v[j], true);
    }
  }
}
