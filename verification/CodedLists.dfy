/**
  The lists of chunks the coded loop comes to after one compaction: the space gathered looks
  reserved. What compaction leaves, and what evictions do from there.
  */
module CodedLists {
  import opened Basics
  import opened Chunks
  import opened BuddyCache
  import opened BuddySpec
  import opened DynamicSpec
  import opened CompactionSpec
  import opened DynamicRun

  /** A compaction as coded leaves nothing that fits, and another one changes nothing. */
  lemma CodedFixed(cs: seq<Chunk>, r: Rules, need: nat)
    requires Carved(cs, r) && Choose(cs, need, r.best).None?
    ensures var t := Compact(cs, false);
            && Compact(t, false) == t && Choose(t, need, r.best).None? && SumData(t) == SumData(cs)
  {
    if MovedItems(cs) == [] {
      NothingMoves(cs, r);
    } else {
      var t := Compact(cs, false);
      RoomAfterCompaction(cs, r.slab);
      assert FirstFree(t) == |t| by { var f := FirstFree(t); }
      CodedSum(cs, r);
    }
  }

  /** With nothing stored behind the first free chunk, that chunk is the last. */
  lemma NothingMoves(cs: seq<Chunk>, r: Rules)
    requires Carved(cs, r) && MovedItems(cs) == []
    ensures Compact(cs, false) == cs
  {
    var f := FirstFree(cs);
    if f < |cs| {
      LastFree(cs, f);
      assert cs[..f] + [cs[f]] == cs;
    }
  }

  lemma LastFree(cs: seq<Chunk>, f: nat)
    requires CoalescedBut(cs, -1) && f < |cs| && !cs[f].used && UsedOf(cs[f + 1..]) == []
    ensures cs[f + 1..] == []
  {
    var next := if f + 1 < |cs| then cs[f + 1..][0] else cs[f];
    NoItems(cs[f + 1..]);
  }

  lemma NoItems(cs: seq<Chunk>)
    requires UsedOf(cs) == []
    ensures forall j :: 0 <= j < |cs| ==> !cs[j].used
  {
    forall j | 0 <= j < |cs| ensures !cs[j].used { UsedMembers(cs, cs[j]); }
  }

  lemma {:induction false} ShiftLast(free: Chunk, rest: seq<Chunk>, whole: bool)
    requires free.hour == 0 && free.dataSize == 0
    ensures var s := Shift(free, rest, whole);
            |s| > 0 && s[|s| - 1].hour == 0 && s[|s| - 1].dataSize == 0 && s[|s| - 1].size >= free.size
    decreases |rest|
  {
    if rest != [] {
      if rest[0].Free() { ShiftLast(Grown(free, rest[0]), rest[1..], whole); }
      else { ShiftLast(Vacated(free, rest[0], whole), rest[1..], whole); }
    }
  }

  /** Everything but possibly the last chunk is stored, and the last carries no data and no hour unless it is stored. */
  lemma CodedLast(cs: seq<Chunk>, r: Rules)
    requires Carved(cs, r)
    ensures var t := Compact(cs, false);
            && Tiled(t, r.total) && PackedFirst(t) && SameItems(UsedOf(t), UsedOf(cs), false)
            && (t[|t| - 1].used || (t[|t| - 1].hour == 0 && t[|t| - 1].dataSize == 0 && t[|t| - 1].size > 0))
  {
    CleanNoneReserved(cs, r.slab);
    CompactGeometry(cs, r.total, false);
    var f, t := FirstFree(cs), Compact(cs, false);
    if f < |cs| {
      assert cs[f] in cs && GoodChunk(cs[f], r.slab);
      ShiftLast(cs[f], cs[f + 1..], false);
      var s := Shift(cs[f], cs[f + 1..], false);
      assert t[|t| - 1] == s[|s| - 1];
    } else {
      PrefixUsed(cs);
    }
  }

  lemma {:induction false} SumOfUsed(cs: seq<Chunk>)
    requires forall c: Chunk :: c in cs && !c.used ==> c.dataSize == 0
    ensures SumData(UsedOf(cs)) == SumData(cs)
  {
    if cs != [] {
      assert cs[0] in cs && forall c :: c in cs[1..] ==> c in cs;
      SumOfUsed(cs[1..]);
      SumDataConcat([cs[0]], UsedOf(cs[1..]));
    }
  }

  lemma CodedSum(cs: seq<Chunk>, r: Rules)
    requires Carved(cs, r)
    ensures SumData(Compact(cs, false)) == SumData(cs)
  {
    var t := Compact(cs, false);
    CodedLast(cs, r);
    forall c | c in t && !c.used ensures c.dataSize == 0 {
      var i :| 0 <= i < |t| && t[i] == c;
    }
    forall c | c in cs && !c.used ensures c.dataSize == 0 { assert GoodChunk(c, r.slab); }
    SumOfUsed(t);
    SumOfUsed(cs);
    ItemsSum(UsedOf(t), UsedOf(cs), false);
  }

  /** Stored chunks have an hour, others have none and are no neighbours of each other; only the last may look reserved. */
  ghost predicate Leaky(cs: seq<Chunk>, total: nat) {
    && Tiled(cs, total) && CoalescedBut(cs, -1)
    && (forall c: Chunk :: c in cs ==> c.size > 0 && (c.used <==> c.hour != 0))
    && (forall i :: 0 <= i < |cs| && cs[i].Reserved() ==> 0 < i == |cs| - 1)
  }

  lemma CodedLeaky(cs: seq<Chunk>, r: Rules)
    requires Carved(cs, r)
    ensures Leaky(Compact(cs, false), r.total) && |UsedOf(Compact(cs, false))| == |UsedOf(cs)|
  {
    var t := Compact(cs, false);
    CodedLast(cs, r);
    forall c | c in t ensures c.size > 0 && (c.used <==> c.hour != 0) {
      if c.used {
        ItemKept(cs, r.slab, UsedOf(t), t, c);
      } else {
        var i :| 0 <= i < |t| && t[i] == c;
      }
    }
    if |t| == 1 && !t[0].used { OneUnusedMoves(cs, r); }
  }

  lemma ItemKept(cs: seq<Chunk>, slab: nat, u: seq<Chunk>, t: seq<Chunk>, c: Chunk)
    requires Clean(cs, slab) && slab >= 1 && u == UsedOf(t) && SameItems(u, UsedOf(cs), false) && c in t && c.used
    ensures c.hour != 0 && c.size > 0
  {
    UsedMembers(t, c);
    var j :| 0 <= j < |u| && u[j] == c;
    var o := UsedOf(cs)[j];
    assert SameItem(u[j], o, false);
    assert o in UsedOf(cs);
    UsedMembers(cs, o);
    assert GoodChunk(o, slab);
  }

  lemma OneUnusedMoves(cs: seq<Chunk>, r: Rules)
    requires Carved(cs, r) && |Compact(cs, false)| == 1 && !Compact(cs, false)[0].used
    ensures !Compact(cs, false)[0].Reserved()
  {
    CodedLast(cs, r);
    var t := Compact(cs, false);
    NoneUsed(t);
    NoItems(cs);
    NoneUsed(cs[FirstFree(cs)..]);
    if FirstFree(cs) < |cs| { NoneUsed(cs[FirstFree(cs) + 1..]); }
    NothingMoves(cs, r);
    assert t[0] in cs && GoodChunk(t[0], r.slab);
  }

  lemma AllEvicted(cs: seq<Chunk>, total: nat, need: nat)
    requires Leaky(cs, total) && need <= total && forall j :: 0 <= j < |cs| ==> cs[j].hour == 0
    ensures cs[0].Fits(need)
  {
    forall j | 0 <= j < |cs| ensures !cs[j].used { assert cs[j] in cs; }
    NoneUsed(cs[1..]);
    LastFree(cs, 0);
  }

  /** The list after a deletion, when no two unoccupied chunks are neighbours (DiscardShape). */
  function Without(cs: seq<Chunk>, i: nat): seq<Chunk>
    requires i < |cs|
  {
    cs[..JoinFrom(cs, i)] + [Joined(cs, i)] + cs[JoinTo(cs, i)..]
  }

  /** When nothing fits there is a stored victim, and evicting it keeps all this. */
  lemma EvictLeaky(cs: seq<Chunk>, total: nat, need: nat, best: bool)
    requires Leaky(cs, total) && need <= total && Choose(cs, need, best).None?
    ensures Victim(cs).Some? && cs[Victim(cs).value].used
    ensures Leaky(Without(cs, Victim(cs).value), total)
    ensures |UsedOf(Without(cs, Victim(cs).value))| == |UsedOf(cs)| - 1
  {
    if Victim(cs).None? {
      AllEvicted(cs, total, need);
      assert false;
    }
    var v := Victim(cs).value;
    assert cs[v] in cs;
    JoinLeaky(cs, total, v);
    JoinUsed(cs, v);
  }

  lemma JoinLeaky(cs: seq<Chunk>, total: nat, v: nat)
    requires Leaky(cs, total) && v < |cs| && cs[v].used
    ensures Leaky(Without(cs, v), total)
  {
    var a, b, x := JoinFrom(cs, v), JoinTo(cs, v), Joined(cs, v);
    JoinedIs(cs, total, v);
    JoinTiled(cs, cs[..a] + [x] + cs[b..], total, a, b, x);
    JoinPaste(cs, cs[..a] + [x] + cs[b..], total, a, b, x);
  }

  lemma JoinedIs(cs: seq<Chunk>, total: nat, v: nat)
    requires Leaky(cs, total) && v < |cs| && cs[v].used
    ensures var x := Joined(cs, v);
            && x.addr == cs[JoinFrom(cs, v)].addr && x.End() == cs[JoinTo(cs, v) - 1].End()
            && !x.used && x.hour == 0 && x.nkey == 0 && x.size > 0
    ensures JoinFrom(cs, v) > 0 ==> cs[JoinFrom(cs, v) - 1].used
    ensures JoinTo(cs, v) < |cs| ==> cs[JoinTo(cs, v)].used
  {
    var a, b := JoinFrom(cs, v), JoinTo(cs, v);
    assert cs[a] in cs && cs[v] in cs;
    assert a < v ==> cs[v].addr == cs[a].End() && !cs[a].Reserved();
    assert b > v + 1 ==> cs[v + 1].addr == cs[v].End();
  }

  /** The chunks from a up to b have become x. */
  ghost predicate Pasted(cs: seq<Chunk>, f: seq<Chunk>, a: nat, b: nat, x: Chunk) {
    && a < b <= |cs| && |f| == a + 1 + |cs| - b && f[a] == x
    && (forall j :: 0 <= j < a ==> f[j] == cs[j]) && (forall j :: a < j < |f| ==> f[j] == cs[j - a - 1 + b])
  }

  lemma PastedCoalesced(cs: seq<Chunk>, f: seq<Chunk>, a: nat, b: nat, x: Chunk)
    requires Pasted(cs, f, a, b, x) && CoalescedBut(cs, -1)
    requires (a > 0 ==> cs[a - 1].used) && (b < |cs| ==> cs[b].used)
    ensures CoalescedBut(f, -1)
  {
  }

  lemma PastedReserved(cs: seq<Chunk>, f: seq<Chunk>, a: nat, b: nat, x: Chunk)
    requires Pasted(cs, f, a, b, x) && !x.Reserved()
    requires forall i :: 0 <= i < |cs| && cs[i].Reserved() ==> 0 < i == |cs| - 1
    ensures forall i :: 0 <= i < |f| && f[i].Reserved() ==> 0 < i == |f| - 1
  {
  }

  lemma JoinPaste(cs: seq<Chunk>, f: seq<Chunk>, total: nat, a: nat, b: nat, x: Chunk)
    requires Leaky(cs, total) && a < b <= |cs| && f == cs[..a] + [x] + cs[b..] && Tiled(f, total)
    requires !x.used && x.hour == 0 && x.nkey == 0 && x.size > 0 && (a > 0 ==> cs[a - 1].used) && (b < |cs| ==> cs[b].used)
    ensures Leaky(f, total)
  {
    assert Pasted(cs, f, a, b, x);
    JoinHours(cs, f, a, b, x);
    PastedCoalesced(cs, f, a, b, x);
    PastedReserved(cs, f, a, b, x);
  }

  lemma JoinHours(cs: seq<Chunk>, f: seq<Chunk>, a: nat, b: nat, x: Chunk)
    requires (forall c: Chunk :: c in cs ==> c.size > 0 && (c.used <==> c.hour != 0)) && !x.used && x.hour == 0 && x.size > 0
    requires a < b <= |cs| && f == cs[..a] + [x] + cs[b..]
    ensures forall c: Chunk :: c in f ==> c.size > 0 && (c.used <==> c.hour != 0)
  {
    forall c | c in f ensures c.size > 0 && (c.used <==> c.hour != 0) {
      assert c == x || c in cs;
    }
  }

  lemma JoinTiled(cs: seq<Chunk>, f: seq<Chunk>, total: nat, a: nat, b: nat, x: Chunk)
    requires Tiled(cs, total) && a < b <= |cs| && f == cs[..a] + [x] + cs[b..]
    requires x.addr == cs[a].addr && x.End() == cs[b - 1].End()
    ensures Tiled(f, total)
  {
    assert b == |cs| ==> f[|f| - 1] == x;
    assert b < |cs| ==> f[|f| - 1] == cs[|cs| - 1];
    forall i, j | 0 <= i && j == i + 1 && j < |f| ensures f[j].addr == f[i].End() {
      if j < a {
        assert f[i] == cs[i] && f[j] == cs[j];
      } else if j == a {
        assert f[i] == cs[a - 1] && cs[a].addr == cs[a - 1].End();
      } else {
        assert f[j] == cs[j - a - 1 + b];
        assert i > a ==> f[i] == cs[i - a - 1 + b];
      }
    }
  }

  lemma JoinUsed(cs: seq<Chunk>, v: nat)
    requires v < |cs| && cs[v].used
    ensures |UsedOf(Without(cs, v))| == |UsedOf(cs)| - 1
  {
    var a, b, x := JoinFrom(cs, v), JoinTo(cs, v), Joined(cs, v);
    Around(cs, a, b);
    UsedThree(cs[..a], cs[a..b], cs[b..]);
    UsedThree(cs[..a], [x], cs[b..]);
    NoneUsed([x]);
    JoinOne(cs, v, cs[a..b]);
  }

  lemma JoinOne(cs: seq<Chunk>, v: nat, m: seq<Chunk>)
    requires v < |cs| && cs[v].used && m == cs[JoinFrom(cs, v)..JoinTo(cs, v)]
    ensures |UsedOf(m)| == 1
  {
    OneUsed(m, v - JoinFrom(cs, v));
  }

  lemma UsedThree(p: seq<Chunk>, m: seq<Chunk>, s: seq<Chunk>)
    ensures |UsedOf(p + m + s)| == |UsedOf(p)| + |UsedOf(m)| + |UsedOf(s)|
  {
    UsedOfConcat(p + m, s);
    UsedOfConcat(p, m);
  }

  lemma {:induction false} OneUsed(m: seq<Chunk>, k: nat)
    requires k < |m| && m[k].used && forall j :: 0 <= j < |m| && j != k ==> !m[j].used
    ensures |UsedOf(m)| == 1
    decreases k
  {
    if k > 0 {
      OneUsed(m[1..], k - 1);
    } else {
      NoneUsed(m[1..]);
    }
  }

  lemma {:induction false} NoneUsed(m: seq<Chunk>)
    requires forall j :: 0 <= j < |m| ==> !m[j].used
    ensures UsedOf(m) == []
  {
    if m != [] { NoneUsed(m[1..]); }
  }

  lemma CarvedLeaky(cs: seq<Chunk>, r: Rules)
    requires Carved(cs, r)
    ensures Leaky(cs, r.total)
  {
    forall c | c in cs ensures c.size > 0 && (c.used <==> c.hour != 0) { assert GoodChunk(c, r.slab); }
    forall i | 0 <= i < |cs| ensures !cs[i].Reserved() { assert cs[i] in cs && GoodChunk(cs[i], r.slab); }
  }

  /** Different positions hold different chunks. */
  lemma LeakyApart(cs: seq<Chunk>, total: nat, i: nat, j: nat)
    requires Leaky(cs, total) && i < j < |cs|
    ensures cs[i] != cs[j] && cs[i].addr < cs[j].addr
  {
    TiledOrdered(cs, total, i, j);
    assert cs[i] in cs;
  }

  // ---------- evictions, on the list ----------

  /** The stored chunk c is evicted before d: it was used earlier, or as early and comes first. */
  predicate Sooner(c: Chunk, d: Chunk) {
    c.hour < d.hour || (c.hour == d.hour && c.addr < d.addr)
  }

  /** What the evictions depend on: the chunks, the compaction counter and table_current_size. */
  datatype Stage = Stage(cs: seq<Chunk>, due: int, current: int)

  /** Nothing fits, and compaction is not due or its guard does not hold. */
  predicate Evicts(a: Stage, r: Rules, need: nat) {
    Choose(a.cs, need, r.best).None? && !(Counted(a.due) == 0 && r.total - a.current >= need)
  }

  /** Without the chunk at v, which was evicted. */
  function Later(a: Stage, v: nat): Stage
    requires v < |a.cs|
  {
    Stage(Without(a.cs, v), Counted(a.due), a.current - a.cs[v].dataSize)
  }

  /** After at most n evictions; they stop when a chunk fits or compaction is due. */
  function Evicted(a: Stage, r: Rules, need: nat, n: nat): Stage
    decreases n
  {
    if n > 0 && Evicts(a, r, need) && Victim(a.cs).Some? then Evicted(Later(a, Victim(a.cs).value), r, need, n - 1) else a
  }

  predicate Follows(a: Stage, b: Stage, r: Rules, need: nat) {
    Evicts(a, r, need) && Victim(a.cs).Some? && b == Later(a, Victim(a.cs).value)
  }

  /** One eviction after the other, up to the list at which they stop. */
  ghost predicate Trail(ls: seq<Stage>, r: Rules, need: nat) {
    && |ls| > 0 && (forall k, j :: 0 <= k && j == k + 1 && j < |ls| ==> Follows(ls[k], ls[j], r, need))
    && !Evicts(ls[|ls| - 1], r, need)
  }

  lemma TrailTail(ls: seq<Stage>, r: Rules, need: nat)
    requires Trail(ls, r, need) && |ls| > 1
    ensures Trail(ls[1..], r, need) && Follows(ls[0], ls[1], r, need) && ls[1..][0] == ls[1]
    ensures ls[1..][|ls[1..]| - 1] == ls[|ls| - 1]
  {
    var t := ls[1..];
    forall k, j | 0 <= k && j == k + 1 && j < |t| ensures Follows(t[k], t[j], r, need) {
      assert Follows(ls[k + 1], ls[j + 1], r, need);
    }
  }

  lemma TrailCons(a: Stage, ls: seq<Stage>, r: Rules, need: nat)
    requires Trail(ls, r, need) && Follows(a, ls[0], r, need)
    ensures Trail([a] + ls, r, need)
  {
    var t := [a] + ls;
    forall k, j | 0 <= k && j == k + 1 && j < |t| ensures Follows(t[k], t[j], r, need) {
      assert k > 0 ==> t[k] == ls[k - 1] && t[j] == ls[j - 1];
    }
  }

  lemma {:induction false} TrailOf(a: Stage, r: Rules, need: nat) returns (ls: seq<Stage>)
    requires Leaky(a.cs, r.total) && need <= r.total
    ensures Trail(ls, r, need) && ls[0] == a && |ls| <= |UsedOf(a.cs)| + 1
    decreases |UsedOf(a.cs)|
  {
    if Evicts(a, r, need) {
      var v, g := EvictedStep(a.cs, r, need);
      var b := Later(a, v);
      var rest := TrailOf(b, r, need);
      TrailCons(a, rest, r, need);
      ls := [a] + rest;
    } else {
      ls := [a];
    }
  }

  /** It comes to Evicted. */
  lemma {:induction false} TrailIs(ls: seq<Stage>, r: Rules, need: nat, n: nat)
    requires Trail(ls, r, need) && n + 1 >= |ls|
    ensures Evicted(ls[0], r, need, n) == ls[|ls| - 1]
    decreases |ls|
  {
    if |ls| > 1 {
      TrailTail(ls, r, need);
      TrailIs(ls[1..], r, need, n - 1);
    }
  }

  lemma {:induction false} TrailLeaky(ls: seq<Stage>, r: Rules, need: nat)
    requires Trail(ls, r, need) && Leaky(ls[0].cs, r.total) && need <= r.total
    ensures Leaky(ls[|ls| - 1].cs, r.total)
    decreases |ls|
  {
    if |ls| > 1 {
      TrailTail(ls, r, need);
      var v, g := EvictedStep(ls[0].cs, r, need);
      TrailLeaky(ls[1..], r, need);
    }
  }

  /** Evicting from a good list leaves a good list. */
  lemma {:induction false} TrailCarved(ls: seq<Stage>, r: Rules, need: nat)
    requires Trail(ls, r, need) && Carved(ls[0].cs, r) && need <= r.total
    ensures Carved(ls[|ls| - 1].cs, r)
    decreases |ls|
  {
    if |ls| > 1 {
      TrailTail(ls, r, need);
      CarvedWithout(ls[0].cs, r, need);
      TrailCarved(ls[1..], r, need);
    }
  }

  lemma CarvedWithout(cs: seq<Chunk>, r: Rules, need: nat)
    requires Carved(cs, r) && need <= r.total && Choose(cs, need, r.best).None?
    ensures Victim(cs).Some? && Carved(Without(cs, Victim(cs).value), r)
  {
    CarvedLeaky(cs, r);
    EvictLeaky(cs, r.total, need, r.best);
    var v := Victim(cs).value;
    DiscardShape(cs, v);
    DiscardKeeps(cs, r, v);
  }

  /** And the sum of its data on the books. */
  lemma {:induction false} TrailSum(ls: seq<Stage>, r: Rules, need: nat)
    requires Trail(ls, r, need) && Carved(ls[0].cs, r) && need <= r.total && ls[0].current == SumData(ls[0].cs)
    ensures ls[|ls| - 1].current == SumData(ls[|ls| - 1].cs)
    decreases |ls|
  {
    if |ls| > 1 {
      TrailTail(ls, r, need);
      CarvedWithout(ls[0].cs, r, need);
      WithoutSum(ls[0].cs, r, need);
      TrailSum(ls[1..], r, need);
    }
  }

  lemma WithoutSum(cs: seq<Chunk>, r: Rules, need: nat)
    requires Carved(cs, r) && need <= r.total && Choose(cs, need, r.best).None? && Victim(cs).Some?
    ensures SumData(Without(cs, Victim(cs).value)) == SumData(cs) - cs[Victim(cs).value].dataSize
  {
    CarvedLeaky(cs, r);
    EvictLeaky(cs, r.total, need, r.best);
    DiscardShape(cs, Victim(cs).value);
    DiscardCount(cs, r, Victim(cs).value);
  }

  lemma {:induction false} DataInSum(cs: seq<Chunk>, c: Chunk)
    requires c in cs
    ensures c.dataSize <= SumData(cs)
  {
    if cs[0] != c { DataInSum(cs[1..], c); }
  }

  /** When compaction comes later than the last item can go, or never, the evictions end with a chunk that fits. */
  lemma {:induction false} TrailFits(ls: seq<Stage>, r: Rules, need: nat)
    requires Trail(ls, r, need) && Leaky(ls[0].cs, r.total) && need <= r.total
    requires ls[0].due < 0 || ls[0].due > |UsedOf(ls[0].cs)|
    ensures Choose(ls[|ls| - 1].cs, need, r.best).Some?
    decreases |ls|
  {
    if |ls| > 1 {
      TrailTail(ls, r, need);
      var v, g := EvictedStep(ls[0].cs, r, need);
      TrailFits(ls[1..], r, need);
    } else if Choose(ls[0].cs, need, r.best).None? {
      var v, g := EvictedStep(ls[0].cs, r, need);
      assert false;
    }
  }

  lemma VictimSooner(cs: seq<Chunk>, total: nat, v: nat)
    requires Leaky(cs, total) && IsVictim(cs, v)
    ensures cs[v].used && forall k :: 0 <= k < |cs| && k != v && cs[k].used ==> Sooner(cs[v], cs[k])
  {
    assert cs[v] in cs;
    forall k | 0 <= k < |cs| && k != v && cs[k].used ensures Sooner(cs[v], cs[k]) {
      assert cs[k] in cs;
      if k < v { LeakyApart(cs, total, k, v); } else { LeakyApart(cs, total, v, k); }
    }
  }

  /** Every stored chunk of the one list is in the other. */
  ghost predicate OnlyFrom(f: seq<Chunk>, cs: seq<Chunk>) {
    forall c: Chunk :: c.used && c in f ==> c in cs
  }

  lemma {:induction false} TrailOnly(ls: seq<Stage>, r: Rules, need: nat)
    requires Trail(ls, r, need) && Leaky(ls[0].cs, r.total) && need <= r.total
    ensures OnlyFrom(ls[|ls| - 1].cs, ls[0].cs)
    decreases |ls|
  {
    if |ls| > 1 {
      TrailTail(ls, r, need);
      var v, g := EvictedStep(ls[0].cs, r, need);
      TrailOnly(ls[1..], r, need);
      OnlyFromTrans(ls[|ls| - 1].cs, g, ls[0].cs);
    }
  }

  /** One eviction of those. */
  lemma EvictedStep(cs: seq<Chunk>, r: Rules, need: nat) returns (v: nat, g: seq<Chunk>)
    requires Leaky(cs, r.total) && need <= r.total && Choose(cs, need, r.best).None?
    ensures Victim(cs) == Some(v) && v < |cs| && cs[v].used && g == Without(cs, v)
    ensures Leaky(g, r.total) && |UsedOf(g)| == |UsedOf(cs)| - 1 && OnlyFrom(g, cs) && cs[v] !in g
  {
    EvictLeaky(cs, r.total, need, r.best);
    v := Victim(cs).value;
    g := Without(cs, v);
    EvictShape(cs, r.total, v, g, JoinFrom(cs, v), JoinTo(cs, v));
  }

  lemma OnlyFromTrans(f: seq<Chunk>, g: seq<Chunk>, cs: seq<Chunk>)
    requires OnlyFrom(f, g) && OnlyFrom(g, cs)
    ensures OnlyFrom(f, cs)
  {
  }

  /** The stretch from p to q has become one unoccupied chunk. */
  ghost predicate JoinedAs(cs: seq<Chunk>, g: seq<Chunk>, p: nat, q: nat) {
    && p < q <= |cs| && |g| == |cs| - q + p + 1 && !g[p].used
    && (forall k :: 0 <= k < p ==> g[k] == cs[k])
    && (forall k :: p < k < |g| ==> g[k] == cs[k - p - 1 + q])
  }

  /** An eviction takes away just the victim. */
  lemma EvictShape(cs: seq<Chunk>, total: nat, i: nat, g: seq<Chunk>, p: nat, q: nat)
    requires Leaky(cs, total) && i < |cs| && cs[i].used && g == Without(cs, i) && p == JoinFrom(cs, i) && q == JoinTo(cs, i)
    ensures JoinedAs(cs, g, p, q) && OnlyFrom(g, cs) && cs[i] !in g
  {
    JoinedIs(cs, total, i);
    JoinedBy(cs, g, p, q, Joined(cs, i));
    JoinedOnly(cs, total, i, g, p, q);
  }

  lemma JoinedBy(cs: seq<Chunk>, g: seq<Chunk>, p: nat, q: nat, x: Chunk)
    requires p < q <= |cs| && g == cs[..p] + [x] + cs[q..] && !x.used
    ensures JoinedAs(cs, g, p, q)
  {
  }

  lemma JoinedOnly(cs: seq<Chunk>, total: nat, i: nat, g: seq<Chunk>, p: nat, q: nat)
    requires Leaky(cs, total) && p <= i < q && JoinedAs(cs, g, p, q) && cs[i].used
    ensures OnlyFrom(g, cs) && cs[i] !in g
  {
    forall k | 0 <= k < |g| && g[k].used ensures g[k] in cs && g[k] != cs[i] {
      var x := if k < p then k else k - p - 1 + q;
      assert k != p && g[k] == cs[x];
      if x < i { LeakyApart(cs, total, x, i); } else { LeakyApart(cs, total, i, x); }
    }
  }

  // ---------- the order of evictions that breaks a link ----------

  /**
    Something lies between the two stored chunks, and whatever is stored there is evicted
    first, then the one before, then the one behind.
    */
  predicate Crosses(cs: seq<Chunk>, a: nat, b: nat)
    requires a < b < |cs|
  {
    && a + 2 <= b && cs[a].used && cs[b].used && Sooner(cs[a], cs[b])
    && forall k :: a < k < b && cs[k].used ==> Sooner(cs[k], cs[a])
  }

  /** Some chunk that is evicted is crossed. The chunks f are left. */
  ghost predicate Trapped(cs: seq<Chunk>, f: seq<Chunk>) {
    exists a, b :: 0 <= a < b < |cs| && Crosses(cs, a, b) && cs[b] !in f
  }

  /** The chunk at i is evicted before every other. */
  ghost predicate FirstToGo(cs: seq<Chunk>, i: nat) {
    i < |cs| && cs[i].used && forall k :: 0 <= k < |cs| && k != i && cs[k].used ==> Sooner(cs[i], cs[k])
  }

  /** It crosses a chunk exactly when its deletion leaves a wrong `prev`. */
  lemma FirstCrosses(cs: seq<Chunk>, i: nat, b: nat)
    requires FirstToGo(cs, i) && CoalescedBut(cs, -1) && i < b < |cs|
    ensures Crosses(cs, i, b) <==> b == i + 2 && !cs[i + 1].used
  {
    var next, behind := cs[i + 1], if i + 2 < |cs| then cs[i + 2] else cs[i];
  }

  /** Where the chunks outside the joined stretch come to lie. */
  function Shifted(p: nat, q: nat, k: nat): int { if k < p then k else k - q + p + 1 }

  /** After an eviction the same of the remaining chunks are crossed. */
  lemma CrossesLater(cs: seq<Chunk>, g: seq<Chunk>, p: nat, q: nat, i: nat, a: nat, b: nat)
    requires JoinedAs(cs, g, p, q) && p <= i < q && (forall k :: p <= k < q && k != i ==> !cs[k].used)
    requires FirstToGo(cs, i) && a < b < |cs| && (a < p || a >= q) && (b < p || b >= q)
    ensures 0 <= Shifted(p, q, a) < Shifted(p, q, b) < |g|
    ensures g[Shifted(p, q, a)] == cs[a] && g[Shifted(p, q, b)] == cs[b]
    ensures Crosses(g, Shifted(p, q, a), Shifted(p, q, b)) <==> Crosses(cs, a, b)
  {
    var x, y := Shifted(p, q, a), Shifted(p, q, b);
    if Crosses(cs, a, b) {
      forall k | x < k < y && g[k].used ensures Sooner(g[k], g[x]) {
        assert k != p && g[k] == cs[if k < p then k else k - p - 1 + q];
      }
    }
    if Crosses(g, x, y) {
      forall k | a < k < b && cs[k].used ensures Sooner(cs[k], cs[a]) {
        if k < p || k >= q { assert g[Shifted(p, q, k)] == cs[k]; }
      }
    }
  }

  /** One eviction: what was crossed is crossed still, but for what the victim crossed itself. */
  lemma TrappedStep(cs: seq<Chunk>, g: seq<Chunk>, p: nat, q: nat, i: nat, f: seq<Chunk>)
    requires JoinedAs(cs, g, p, q) && p <= i < q && (forall k :: p <= k < q && k != i ==> !cs[k].used)
    requires FirstToGo(cs, i) && CoalescedBut(cs, -1)
    ensures Trapped(cs, f) <==> Trapped(g, f) || (LeavesGap(cs, i) && cs[i + 2] !in f)
  {
    if Trapped(cs, f) { TrappedThen(cs, g, p, q, i, f); }
    if LeavesGap(cs, i) && cs[i + 2] !in f { FirstCrosses(cs, i, i + 2); }
    if Trapped(g, f) { TrappedBefore(cs, g, p, q, i, f); }
  }

  predicate LeavesGap(cs: seq<Chunk>, i: nat) { i + 2 < |cs| && !cs[i + 1].used }

  lemma TrappedThen(cs: seq<Chunk>, g: seq<Chunk>, p: nat, q: nat, i: nat, f: seq<Chunk>)
    requires JoinedAs(cs, g, p, q) && p <= i < q && (forall k :: p <= k < q && k != i ==> !cs[k].used)
    requires FirstToGo(cs, i) && CoalescedBut(cs, -1) && Trapped(cs, f)
    ensures Trapped(g, f) || (LeavesGap(cs, i) && cs[i + 2] !in f)
  {
    var a, b :| 0 <= a < b < |cs| && Crosses(cs, a, b) && cs[b] !in f;
    if a == i {
      FirstCrosses(cs, i, b);
    } else {
      CrossesLater(cs, g, p, q, i, a, b);
      assert Crosses(g, Shifted(p, q, a), Shifted(p, q, b));
    }
  }

  lemma TrappedBefore(cs: seq<Chunk>, g: seq<Chunk>, p: nat, q: nat, i: nat, f: seq<Chunk>)
    requires JoinedAs(cs, g, p, q) && p <= i < q && (forall k :: p <= k < q && k != i ==> !cs[k].used)
    requires FirstToGo(cs, i) && Trapped(g, f)
    ensures Trapped(cs, f)
  {
    var x, y :| 0 <= x < y < |g| && Crosses(g, x, y) && g[y] !in f;
    var a, b := if x < p then x else x - p - 1 + q, if y < p then y else y - p - 1 + q;
    CrossesLater(cs, g, p, q, i, a, b);
    assert Crosses(cs, a, b);
  }
}
