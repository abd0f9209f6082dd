/**
  The dynamic-partition scheme as a state machine with right back links and compaction of
  whole records: the allocation loop with eviction and the compaction counter, and the proof
  that every run refines the same lossy map as the buddy scheme.
  */
module DynamicRun {
  import opened Basics
  import opened Chunks
  import opened BuddyCache
  import opened BuddySpec
  import opened LossyMap
  import opened DynamicSpec
  import opened DynamicFlush
  import opened CompactionSpec

  // ---------- items that may have moved ----------

  /** The chunk holds an item of the other list: same record, same bytes. */
  ghost predicate From(c: Chunk, mc: Bytes, cs: seq<Chunk>, mem: Bytes) {
    exists o :: o in cs && SameItem(c, o, true) && SamePayload(c, mc, o, mem)
  }

  ghost predicate AllFrom(t: seq<Chunk>, mt: Bytes, cs: seq<Chunk>, mem: Bytes) {
    forall c :: c in t && c.used ==> From(c, mt, cs, mem)
  }

  ghost predicate HasKey(cs: seq<Chunk>, k: string) {
    exists c :: c in cs && c.used && c.key == k
  }

  /** What is stored in the first list and not in the second is no younger than what is still stored. */
  ghost predicate LosesOldest(cs: seq<Chunk>, t: seq<Chunk>) {
    forall c, d :: c in cs && c.used && d in t && d.used && !HasKey(t, c.key) ==> c.hour <= d.hour
  }

  lemma FromSelf(cs: seq<Chunk>, mem: Bytes, t: seq<Chunk>)
    requires Tiled(cs, |mem|) && forall c: Chunk :: c in t && c.used ==> c in cs
    ensures AllFrom(t, mem, cs, mem)
  {
    forall c | c in t && c.used ensures From(c, mem, cs, mem) {
      var i :| 0 <= i < |cs| && cs[i] == c;
      TiledBounds(cs, |mem|, i);
      assert SameItem(c, c, true) && SamePayload(c, mem, c, mem);
    }
  }

  lemma FromTrans(t: seq<Chunk>, mt: Bytes, m: seq<Chunk>, mm: Bytes, cs: seq<Chunk>, mem: Bytes)
    requires AllFrom(t, mt, m, mm) && AllFrom(m, mm, cs, mem)
    ensures AllFrom(t, mt, cs, mem)
  {
    forall c | c in t && c.used ensures From(c, mt, cs, mem) {
      var o :| o in m && SameItem(c, o, true) && SamePayload(c, mt, o, mm);
      var p :| p in cs && SameItem(o, p, true) && SamePayload(o, mm, p, mem);
      assert SameItem(c, p, true) && SamePayload(c, mt, p, mem);
    }
  }

  /** Compaction of whole records loses no item, adds none, and moves their bytes with them. */
  lemma CompactFrom(cs: seq<Chunk>, mem: Bytes, r: Rules)
    requires Carved(cs, r) && |mem| == r.total
    ensures var out := CompactBytes(cs, mem, true);
            && |out| == |mem| && AllFrom(Compact(cs, true), out, cs, mem)
            && LosesOldest(cs, Compact(cs, true)) && (forall c :: c in cs && c.used ==> HasKey(Compact(cs, true), c.key))
  {
    CleanNoneReserved(cs, r.slab);
    CompactGeometry(cs, r.total, true);
    CompactPayloads(cs, mem, true);
    var t, out := Compact(cs, true), CompactBytes(cs, mem, true);
    var u, v := UsedOf(t), UsedOf(cs);
    forall c | c in t && c.used ensures From(c, out, cs, mem) {
      UsedMembers(t, c);
      var i :| 0 <= i < |u| && u[i] == c;
      assert SameItem(u[i], v[i], true) && SamePayload(u[i], out, v[i], mem);
      UsedMembers(cs, v[i]);
      assert v[i] in v;
    }
    forall c | c in cs && c.used ensures HasKey(t, c.key) {
      UsedMembers(cs, c);
      var i :| 0 <= i < |v| && v[i] == c;
      assert SameItem(u[i], v[i], true);
      UsedMembers(t, u[i]);
      assert u[i] in u;
    }
  }

  lemma LosesTrans(cs: seq<Chunk>, m: seq<Chunk>, t: seq<Chunk>)
    requires LosesOldest(m, t) && (forall c :: c in cs && c.used ==> exists o :: o in m && o.used && o.key == c.key && o.hour == c.hour)
    ensures LosesOldest(cs, t)
  {
    forall c, d | c in cs && c.used && d in t && d.used && !HasKey(t, c.key) ensures c.hour <= d.hour {
      var o :| o in m && o.used && o.key == c.key && o.hour == c.hour;
    }
  }

  // ---------- the allocation loop: diccionario_obtenerDireccion ----------

  /** The compaction counter once a search has failed. */
  function Counted(due: int): int { if due > 0 then due - 1 else due }

  /** The guard of the compaction branch, on data sizes. */
  predicate CompactsNow(cs: seq<Chunk>, r: Rules, need: nat, due: int) {
    Counted(due) == 0 && r.total - SumData(cs) >= need
  }

  lemma HoleOrVictim(cs: seq<Chunk>, r: Rules, need: nat)
    requires Carved(cs, r) && need <= r.total && Choose(cs, need, r.best).None?
    ensures Victim(cs).Some? && cs[Victim(cs).value].used
  {
    assert cs[0] in cs && GoodChunk(cs[0], r.slab) && !cs[0].Fits(need);
    assert |cs| > 1 ==> cs[0].used || cs[1].used;
    assert cs[0].used || |cs| > 1;
    var i := if cs[0].used then 0 else 1;
    assert cs[i] in cs && cs[i].hour != 0;
    assert cs[Victim(cs).value] in cs;
  }

  /** A chunk found, the arena it is in, and the counter. */
  datatype Place = Place(cs: seq<Chunk>, mem: Bytes, at: nat, due: int)

  /**
    Search; when nothing fits, compact if the counter is due and the data would leave room,
    else evict. The measure shows it ends for every compaction frequency but 0 and 1.
    */
  function Allot(cs: seq<Chunk>, mem: Bytes, r: Rules, need: nat, due: int): Place
    requires Carved(cs, r) && |mem| == r.total && r.slab <= need <= r.total
    requires r.frequency != 0 && r.frequency != 1
    decreases |Busy(cs)|, if Counted(due) == 0 then 1 else 0
  {
    match Choose(cs, need, r.best)
    case Some(i) => Place(TakeHole(cs, i, need, r.slab), mem, i, due)
    case None =>
      if CompactsNow(cs, r, need, due) then
        CompactCarved(cs, r);
        CompactFrom(cs, mem, r);
        Allot(Compact(cs, true), CompactBytes(cs, mem, true), r, need, r.frequency)
      else
        HoleOrVictim(cs, r, need);
        var v := Victim(cs).value;
        DiscardKeeps(cs, r, v);
        DiscardCount(cs, r, v);
        Allot(Discard(cs, v).0, mem, r, need, Counted(due))
  }

  /** What the loop hands out. */
  ghost predicate Allotted(t: seq<Chunk>, r: Rules, i: nat, need: nat) {
    && i < |t| && t[i] == Blank(t[i].addr, t[i].size)
    && need <= t[i].size < need + r.slab
    && CarvedBut(t, r, i) && (i > 0 ==> t[i - 1].used)
  }

  lemma {:induction false} AllotKeeps(cs: seq<Chunk>, mem: Bytes, r: Rules, need: nat, due: int)
    requires Carved(cs, r) && |mem| == r.total && r.slab <= need <= r.total
    requires r.frequency != 0 && r.frequency != 1
    ensures var p := Allot(cs, mem, r, need, due);
            && Allotted(p.cs, r, p.at, need) && |p.mem| == r.total
            && AllFrom(p.cs, p.mem, cs, mem) && LosesOldest(cs, p.cs)
    decreases |Busy(cs)|, if Counted(due) == 0 then 1 else 0
  {
    match Choose(cs, need, r.best)
    case Some(i) =>
      TakeHoleKeeps(cs, r, i, need);
      FromSelf(cs, mem, TakeHole(cs, i, need, r.slab));
    case None =>
      var p := Allot(cs, mem, r, need, due);
      if CompactsNow(cs, r, need, due) {
        CompactCarved(cs, r);
        CompactFrom(cs, mem, r);
        var m, mm := Compact(cs, true), CompactBytes(cs, mem, true);
        AllotKeeps(m, mm, r, need, r.frequency);
        FromTrans(p.cs, p.mem, m, mm, cs, mem);
        CompactHours(cs, r);
        LosesTrans(cs, m, p.cs);
      } else {
        HoleOrVictim(cs, r, need);
        var v := Victim(cs).value;
        DiscardKeeps(cs, r, v);
        DiscardCount(cs, r, v);
        var f := Discard(cs, v).0;
        AllotKeeps(f, mem, r, need, Counted(due));
        FromSelf(cs, mem, f);
        FromTrans(p.cs, p.mem, f, mem, cs, mem);
        EvictedOldest(cs, r, v, f, p.cs, p.mem, mem);
      }
  }

  lemma CompactHours(cs: seq<Chunk>, r: Rules)
    requires Carved(cs, r)
    ensures forall c :: c in cs && c.used ==> exists o :: o in Compact(cs, true) && o.used && o.key == c.key && o.hour == c.hour
  {
    CleanNoneReserved(cs, r.slab);
    CompactGeometry(cs, r.total, true);
    var u, v := UsedOf(Compact(cs, true)), UsedOf(cs);
    forall c | c in cs && c.used ensures exists o :: o in Compact(cs, true) && o.used && o.key == c.key && o.hour == c.hour {
      UsedMembers(cs, c);
      var i :| 0 <= i < |v| && v[i] == c;
      assert SameItem(u[i], v[i], true);
      UsedMembers(Compact(cs, true), u[i]);
      assert u[i] in u;
    }
  }

  /** The victim is no younger than anything the rest of the loop leaves. */
  lemma EvictedOldest(cs: seq<Chunk>, r: Rules, v: nat, f: seq<Chunk>, t: seq<Chunk>, mt: Bytes, mem: Bytes)
    requires Carved(cs, r) && IsVictim(cs, v) && AllFrom(t, mt, f, mem) && LosesOldest(f, t)
    requires forall c: Chunk :: c.used ==> (c in f <==> c in cs && c != cs[v])
    ensures LosesOldest(cs, t)
  {
    forall c, d | c in cs && c.used && d in t && d.used && !HasKey(t, c.key) ensures c.hour <= d.hour {
      if c == cs[v] {
        var o :| o in f && SameItem(d, o, true);
        var j :| 0 <= j < |cs| && cs[j] == o;
        assert cs[j] in cs && GoodChunk(cs[j], r.slab);
      } else {
        assert c in f;
      }
    }
  }

  /** The memory that occupied chunks hold. */
  function SumSizes(cs: seq<Chunk>): nat {
    if cs == [] then 0 else cs[0].size + SumSizes(cs[1..])
  }

  /**
    Compaction of whole records makes room for a request exactly when the memory outside the
    occupied chunks is enough; the guard compares data sizes and may be met without that.
    */
  lemma CompactMakesRoom(cs: seq<Chunk>, r: Rules, need: nat)
    requires Carved(cs, r) && need >= 1
    ensures Choose(Compact(cs, true), need, r.best).Some? <==> r.total - SumSizes(UsedOf(cs)) >= need
  {
    CompactCarved(cs, r);
    CleanNoneReserved(cs, r.slab);
    CompactGeometry(cs, r.total, true);
    var t := Compact(cs, true);
    ItemsSizes(UsedOf(t), UsedOf(cs));
    var last := t[|t| - 1];
    assert last in t && GoodChunk(last, r.slab);
    PackedSizes(t, 0, 0, r.total);
    assert t[0..] == t;
    assert last.used || last.Free();
  }

  lemma {:induction false} ItemsSizes(a: seq<Chunk>, b: seq<Chunk>)
    requires SameItems(a, b, true)
    ensures SumSizes(a) == SumSizes(b)
  {
    if a != [] {
      assert SameItem(a[0], b[0], true);
      forall i | 0 <= i < |a[1..]| ensures SameItem(a[1..][i], b[1..][i], true) { assert SameItem(a[i + 1], b[i + 1], true); }
      ItemsSizes(a[1..], b[1..]);
    }
  }

  /** In a packed list the occupied chunks from i on and the last chunk, when it is not occupied, cover the rest. */
  lemma {:induction false} PackedSizes(t: seq<Chunk>, i: nat, lo: nat, total: nat)
    requires Tiled(t, total) && PackedFirst(t) && i < |t| && lo == t[i].addr
    ensures SumSizes(UsedOf(t[i..])) + (if t[|t| - 1].used then 0 else t[|t| - 1].size) == total - lo
    decreases |t| - i
  {
    assert t[i..][1..] == t[i + 1..];
    if i + 1 < |t| {
      assert t[i + 1].addr == t[i].End();
      PackedSizes(t, i + 1, t[i + 1].addr, total);
    } else {
      assert t[i + 1..] == [];
    }
  }

  // ---------- commands ----------

  datatype DState = DState(cs: seq<Chunk>, mem: Bytes, due: int)

  /** The rules as far as the lossy map needs them. */
  function Conf(r: Rules): Config { Config(r.total, r.slab, r.lru, r.best) }

  ghost predicate DGood(s: DState, r: Rules) {
    Carved(s.cs, r) && |s.mem| == r.total
  }

  function DropKey(cs: seq<Chunk>, k: string): seq<Chunk> {
    match Find(cs, k)
    case None => cs
    case Some(i) => Discard(cs, i).0
  }

  lemma FoundUsed(cs: seq<Chunk>, slab: nat, k: string)
    requires Clean(cs, slab)
    ensures Find(cs, k).Some? ==> cs[Find(cs, k).value].used && cs[Find(cs, k).value].key == k
  {
    if Find(cs, k).Some? {
      assert cs[Find(cs, k).value] in cs;
    }
  }

  lemma DropKeyKeeps(cs: seq<Chunk>, r: Rules, k: string)
    requires Carved(cs, r) && k != ""
    ensures Carved(DropKey(cs, k), r)
    ensures forall c :: c in DropKey(cs, k) && c.used ==> c in cs && c.key != k
  {
    FoundUsed(cs, r.slab, k);
    match Find(cs, k)
    case None =>
      forall c | c in cs && c.used ensures c.key != k {
        var j :| 0 <= j < |cs| && cs[j] == c;
        assert GoodChunk(c, r.slab) && !cs[j].Named(k);
      }
    case Some(i) =>
      DiscardKeeps(cs, r, i);
      assert cs[i] in cs;
  }

  /** The chunk handed out, reserved and then stored. */
  function StoredAt(t: seq<Chunk>, i: nat, k: string, n: nat, flags: nat, now: nat): seq<Chunk>
    requires i < |t|
  {
    t[i := Chunk(t[i].addr, t[i].size, |k|, k, now, true, n, flags)]
  }

  lemma StoredCarved(t: seq<Chunk>, r: Rules, i: nat, need: nat, k: string, n: nat, flags: nat, now: nat)
    requires Allotted(t, r, i, need) && n <= need && k != "" && now > 0
    requires forall c :: c in t && c.used ==> c.key != k
    ensures Carved(StoredAt(t, i, k, n, flags, now), r)
  {
    var s := StoredAt(t, i, k, n, flags, now);
    assert t[i] in t;
    forall c | c in s ensures GoodChunk(c, r.slab) && (c == s[i] || c in t) {
      assert c == s[i] || c in t;
    }
    forall j | 0 <= j < |t| && j != i ensures s[j] == t[j] && s[j] in t { }
  }

  function DSet(s: DState, r: Rules, k: string, data: Bytes, flags: nat, now: nat): (DState, Reply)
    requires DGood(s, r) && r.frequency != 0 && r.frequency != 1 && k != ""
  {
    DropKeyKeeps(s.cs, r, k);
    var d := DropKey(s.cs, k);
    if !FitsTable(Conf(r), |data|) then (DState(d, s.mem, s.due), TooBig)
    else
      AllotKeeps(d, s.mem, r, Max(|data|, r.slab), s.due);
      var p := Allot(d, s.mem, r, Max(|data|, r.slab), s.due);
      TiledBounds(p.cs, r.total, p.at);
      (DState(StoredAt(p.cs, p.at, k, |data|, flags, now), WriteAt(p.mem, p.cs[p.at].addr, data), p.due), Stored)
  }

  function DGet(s: DState, r: Rules, k: string, now: nat): (DState, Reply)
    requires DGood(s, r)
  {
    match Find(s.cs, k)
    case None => (s, Miss)
    case Some(i) =>
      if !s.cs[i].used then (s, Miss)
      else
        TiledBounds(s.cs, r.total, i);
        assert s.cs[i] in s.cs;
        (if r.lru then s.(cs := s.cs[i := s.cs[i].(hour := now)]) else s, Hit(BytesOf(s.mem, s.cs[i]), s.cs[i].flags))
  }

  function DStep(s: DState, r: Rules, op: Op): (DState, Reply)
    requires DGood(s, r) && r.frequency != 0 && r.frequency != 1 && OpOk(op)
  {
    match op
    case Set(k, data, flags, now) => DSet(s, r, k, data, flags, now)
    case Get(k, now) => DGet(s, r, k, now)
    case Delete(k) => (s.(cs := DropKey(s.cs, k)), if Find(s.cs, k).None? then Miss else Deleted)
    case Flush => (s.(cs := FlushList(s.cs, 0)), Flushed)
  }

  /** Moved or not, items that come from a faithful state are faithful. */
  lemma FromHolds(t: seq<Chunk>, mt: Bytes, cs: seq<Chunk>, mem: Bytes, g: Config, h: History)
    requires AllFrom(t, mt, cs, mem) && Holds(State(cs, mem), g, h)
    ensures Holds(State(t, mt), g, h)
  {
    forall c | c in t && c.used ensures Faithful(c, mt, g, h) {
      var o :| o in cs && SameItem(c, o, true) && SamePayload(c, mt, o, mem);
      SameFaithful(c, mt, o, mem, g, h);
    }
  }

  lemma SameFaithful(c: Chunk, mt: Bytes, o: Chunk, mem: Bytes, g: Config, h: History)
    requires SameItem(c, o, true) && SamePayload(c, mt, o, mem) && Faithful(o, mem, g, h)
    ensures Faithful(c, mt, g, h)
  {
    assert BytesOf(mt, c) == mt[c.addr..c.End()][..c.dataSize];
    assert BytesOf(mem, o) == mem[o.addr..o.End()][..o.dataSize];
  }

  /** Storing the value in the chunk handed out gives the map with the new entry. */
  lemma StoreHolds(t: seq<Chunk>, mt: Bytes, r: Rules, i: nat, h: History, k: string, data: Bytes, flags: nat, now: nat)
    requires Allotted(t, r, i, Max(|data|, r.slab)) && |mt| == r.total && t[i].addr + |data| <= |mt|
    requires Holds(State(t, mt), Conf(r), h) && forall c :: c in t && c.used ==> c.key != k
    ensures Holds(State(StoredAt(t, i, k, |data|, flags, now), WriteAt(mt, t[i].addr, data)), Conf(r),
                  h[k := Rec(data, flags, now, now)])
  {
    var s, m := StoredAt(t, i, k, |data|, flags, now), WriteAt(mt, t[i].addr, data);
    TiledBounds(t, r.total, i);
    assert BytesOf(m, s[i]) == data;
    forall c | c in s && c.used ensures Faithful(c, m, Conf(r), h[k := Rec(data, flags, now, now)]) {
      var j :| 0 <= j < |s| && s[j] == c;
      if j != i {
        assert t[j] in t;
        StoreElsewhere(t, mt, r, i, j, data);
      }
    }
  }

  lemma StoreElsewhere(t: seq<Chunk>, mt: Bytes, r: Rules, i: nat, j: nat, data: Bytes)
    requires Tiled(t, r.total) && |mt| == r.total && i < |t| && j < |t| && j != i
    requires t[i].addr + |data| <= t[i].End() && t[j].dataSize <= t[j].size
    ensures t[i].End() <= |mt| && t[j].End() <= |mt|
    ensures BytesOf(WriteAt(mt, t[i].addr, data), t[j]) == BytesOf(mt, t[j])
  {
    TiledBounds(t, r.total, i);
    TiledBounds(t, r.total, j);
    if j < i { TiledOrdered(t, r.total, j, i); } else { TiledOrdered(t, r.total, i, j); }
    WriteApart(mt, t[i].addr, data, t[j].addr, t[j].addr + t[j].dataSize);
  }

  /** What a set that fits comes to: the old value dropped, a chunk allotted, the value written and stored. */
  lemma DSetShape(s: DState, r: Rules, k: string, data: Bytes, flags: nat, now: nat) returns (p: Place)
    requires DGood(s, r) && r.frequency != 0 && r.frequency != 1 && k != "" && FitsTable(Conf(r), |data|)
    ensures Allotted(p.cs, r, p.at, Max(|data|, r.slab)) && |p.mem| == r.total && p.cs[p.at].addr + |data| <= |p.mem|
    ensures AllFrom(p.cs, p.mem, DropKey(s.cs, k), s.mem) && LosesOldest(DropKey(s.cs, k), p.cs)
    ensures forall c :: c in p.cs && c.used ==> c.key != k
    ensures DSet(s, r, k, data, flags, now)
            == (DState(StoredAt(p.cs, p.at, k, |data|, flags, now), WriteAt(p.mem, p.cs[p.at].addr, data), p.due), Stored)
  {
    DropKeyKeeps(s.cs, r, k);
    var d := DropKey(s.cs, k);
    AllotKeeps(d, s.mem, r, Max(|data|, r.slab), s.due);
    p := Allot(d, s.mem, r, Max(|data|, r.slab), s.due);
    TiledBounds(p.cs, r.total, p.at);
    forall c | c in p.cs && c.used ensures c.key != k { var o :| o in d && SameItem(c, o, true); }
  }

  lemma DSetRefines(s: DState, r: Rules, h: History, op: Op)
    requires DGood(s, r) && r.frequency != 0 && r.frequency != 1 && OpOk(op) && op.Set?
    requires Holds(State(s.cs, s.mem), Conf(r), h)
    ensures var (t, a) := DStep(s, r, op);
            && DGood(t, r) && Allowed(h, Conf(r), op, a)
            && Holds(State(t.cs, t.mem), Conf(r), Next(h, Conf(r), op, a.Hit?))
  {
    DropKeyKeeps(s.cs, r, op.key);
    var d := DropKey(s.cs, op.key);
    FromSelf(s.cs, s.mem, d);
    FromHolds(d, s.mem, s.cs, s.mem, Conf(r), h);
    if FitsTable(Conf(r), |op.data|) {
      var p := DSetShape(s, r, op.key, op.data, op.flags, op.now);
      FromHolds(p.cs, p.mem, d, s.mem, Conf(r), h);
      StoredCarved(p.cs, r, p.at, Max(|op.data|, r.slab), op.key, |op.data|, op.flags, op.now);
      StoreHolds(p.cs, p.mem, r, p.at, h, op.key, op.data, op.flags, op.now);
    }
  }

  lemma DGetRefines(s: DState, r: Rules, h: History, op: Op)
    requires DGood(s, r) && r.frequency != 0 && r.frequency != 1 && OpOk(op) && op.Get?
    requires Holds(State(s.cs, s.mem), Conf(r), h)
    ensures var (t, a) := DStep(s, r, op);
            && DGood(t, r) && Allowed(h, Conf(r), op, a)
            && Holds(State(t.cs, t.mem), Conf(r), Next(h, Conf(r), op, a.Hit?))
  {
    FoundUsed(s.cs, r.slab, op.key);
    if Find(s.cs, op.key).Some? {
      var i := Find(s.cs, op.key).value;
      assert s.cs[i] in s.cs;
      TouchCarved(s.cs, r, i, op.now);
      TouchHolds(s, r, h, i, op.now);
    }
  }

  lemma TouchHolds(s: DState, r: Rules, h: History, i: nat, now: nat)
    requires DGood(s, r) && i < |s.cs| && s.cs[i].used && Holds(State(s.cs, s.mem), Conf(r), h)
    ensures s.cs[i].key in h
    ensures var t := s.cs[i := s.cs[i].(hour := now)];
            var n := h[s.cs[i].key := h[s.cs[i].key].(touched := now)];
            Holds(State(if r.lru then t else s.cs, s.mem), Conf(r), n)
  {
    var cs, k := s.cs, s.cs[i].key;
    assert cs[i] in cs;
    forall j | 0 <= j < |cs| && j != i && cs[j].used ensures cs[j].key != k {
      assert cs[j] in cs && GoodChunk(cs[j], r.slab);
      if cs[j] == cs[i] {
        if j < i { TiledOrdered(cs, r.total, j, i); } else { TiledOrdered(cs, r.total, i, j); }
      }
    }
    var t := cs[i := cs[i].(hour := now)];
    forall c | c in t && c.used ensures c == t[i] || (c in cs && c.key != k) {
      var j :| 0 <= j < |t| && t[j] == c;
    }
    if !r.lru {
      forall c | c in cs && c.used ensures c == cs[i] || c.key != k { }
    }
  }

  lemma DDeleteRefines(s: DState, r: Rules, h: History, k: string)
    requires DGood(s, r) && k != "" && Holds(State(s.cs, s.mem), Conf(r), h)
    ensures Carved(DropKey(s.cs, k), r) && Holds(State(DropKey(s.cs, k), s.mem), Conf(r), h - {k})
    ensures Find(s.cs, k).Some? ==> k in h
  {
    DropKeyKeeps(s.cs, r, k);
    FoundUsed(s.cs, r.slab, k);
    if Find(s.cs, k).Some? { assert s.cs[Find(s.cs, k).value] in s.cs; }
    forall c | c in DropKey(s.cs, k) && c.used ensures Faithful(c, s.mem, Conf(r), h - {k}) {
      assert Faithful(c, s.mem, Conf(r), h);
    }
  }

  lemma DStepRefines(s: DState, r: Rules, h: History, op: Op)
    requires DGood(s, r) && r.frequency != 0 && r.frequency != 1 && OpOk(op)
    requires Holds(State(s.cs, s.mem), Conf(r), h)
    ensures var (t, a) := DStep(s, r, op);
            && DGood(t, r) && Allowed(h, Conf(r), op, a)
            && Holds(State(t.cs, t.mem), Conf(r), Next(h, Conf(r), op, a.Hit?))
  {
    match op
    case Set(k, data, flags, now) => DSetRefines(s, r, h, op);
    case Get(k, now) => DGetRefines(s, r, h, op);
    case Delete(k) => DDeleteRefines(s, r, h, k);
    case Flush => FlushListEmpties(s.cs, r);
  }

  lemma TouchCarved(cs: seq<Chunk>, r: Rules, i: nat, now: nat)
    requires Carved(cs, r) && i < |cs| && cs[i].used && now > 0
    ensures Carved(cs[i := cs[i].(hour := now)], r)
  {
    var s := cs[i := cs[i].(hour := now)];
    assert cs[i] in cs;
    forall j | 0 <= j < |s| && j != i ensures s[j] in cs && (s[j].used ==> s[j].key != cs[i].key) {
      assert s[j] == cs[j] && cs[j] in cs;
      if cs[j] == cs[i] {
        if j < i { TiledOrdered(cs, r.total, j, i); } else { TiledOrdered(cs, r.total, i, j); }
      }
    }
    TouchedUnique(cs, s, i);
    assert Clean(s, r.slab);
  }

  lemma TouchedUnique(cs: seq<Chunk>, s: seq<Chunk>, i: nat)
    requires |s| == |cs| && i < |s| && UniqueKeys(cs)
    requires forall j :: 0 <= j < |s| && j != i ==> s[j] in cs && (s[j].used ==> s[j].key != s[i].key)
    ensures UniqueKeys(s)
  {
  }

  // ---------- whole runs ----------

  function DRun(s: DState, r: Rules, ops: seq<Op>): (DState, seq<Reply>)
    requires DGood(s, r) && r.frequency != 0 && r.frequency != 1
    requires forall op :: op in ops ==> OpOk(op)
    decreases |ops|
  {
    if ops == [] then (s, [])
    else
      DStepGood(s, r, ops[0]);
      var (t, a) := DStep(s, r, ops[0]);
      var (u, rs) := DRun(t, r, ops[1..]);
      (u, [a] + rs)
  }

  /** Every command keeps the list carved, whatever the arena holds. */
  lemma DStepGood(s: DState, r: Rules, op: Op)
    requires DGood(s, r) && r.frequency != 0 && r.frequency != 1 && OpOk(op)
    ensures DGood(DStep(s, r, op).0, r)
  {
    match op
    case Set(k, data, flags, now) =>
      DropKeyKeeps(s.cs, r, k);
      if FitsTable(Conf(r), |data|) {
        var p := DSetShape(s, r, k, data, flags, now);
        StoredCarved(p.cs, r, p.at, Max(|data|, r.slab), k, |data|, flags, now);
      }
    case Get(k, now) =>
      FoundUsed(s.cs, r.slab, k);
      if Find(s.cs, k).Some? { TouchCarved(s.cs, r, Find(s.cs, k).value, now); }
    case Delete(k) => DropKeyKeeps(s.cs, r, k);
    case Flush => FlushListEmpties(s.cs, r);
  }

  /**
    Every run keeps the chunks tiling the table, none smaller than a slab, no two neighbours
    unoccupied, with a node for every chunk and the data within the table; every reply is one
    the lossy map allows, and what is stored is a faithful part of the map.
    */
  lemma {:induction false} DRunRefines(s: DState, r: Rules, h: History, ops: seq<Op>)
    requires DGood(s, r) && r.frequency != 0 && r.frequency != 1
    requires Holds(State(s.cs, s.mem), Conf(r), h) && forall op :: op in ops ==> OpOk(op)
    ensures var (t, rs) := DRun(s, r, ops);
            && |rs| == |ops| && DGood(t, r) && |t.cs| <= r.total / r.slab && SumData(t.cs) <= r.total
            && AllAllowed(h, Conf(r), ops, rs) && Holds(State(t.cs, t.mem), Conf(r), Past(h, Conf(r), ops, rs))
    decreases |ops|
  {
    if ops == [] {
      TiledCount(s.cs, r.total, r.slab);
      SumFits(s.cs, r);
    } else {
      DStepRefines(s, r, h, ops[0]);
      var (t, a) := DStep(s, r, ops[0]);
      DRunRefines(t, r, Next(h, Conf(r), ops[0], a.Hit?), ops[1..]);
      var (u, rs) := DRun(t, r, ops[1..]);
      assert ([a] + rs)[1..] == rs;
    }
  }

  /** Among the other keys, what a set evicts is no younger than anything it leaves stored. */
  lemma DSetLosesOldest(s: DState, r: Rules, op: Op, c: Chunk, e: Chunk)
    requires DGood(s, r) && r.frequency != 0 && r.frequency != 1 && op.Set? && op.key != "" && FitsTable(Conf(r), |op.data|)
    requires c in s.cs && c.used && c.key != op.key
    requires var t := DSet(s, r, op.key, op.data, op.flags, op.now).0.cs;
             e in t && e.used && e.key != op.key && !HasKey(t, c.key)
    ensures c.hour <= e.hour
  {
    var p := DSetShape(s, r, op.key, op.data, op.flags, op.now);
    var t := StoredAt(p.cs, p.at, op.key, |op.data|, op.flags, op.now);
    StoredMembers(p.cs, p.at, t, e);
    DropKeyOthers(s.cs, r, op.key, c);
    StoredHasNot(p.cs, p.at, t, c.key);
  }

  /** What a set evicts was used no later, in the map's terms, than anything it leaves stored. */
  lemma DSetEvictsOldest(s: DState, r: Rules, h: History, op: Op, out: string, kept: string)
    requires DGood(s, r) && r.frequency != 0 && r.frequency != 1 && OpOk(op) && op.Set?
    requires Holds(State(s.cs, s.mem), Conf(r), h) && out != op.key && kept != op.key
    requires FitsTable(Conf(r), |op.data|)
    requires HasKey(s.cs, out) && !HasKey(DStep(s, r, op).0.cs, out) && HasKey(DStep(s, r, op).0.cs, kept)
    ensures out in h && kept in h
    ensures if r.lru then h[out].touched <= h[kept].touched else h[out].stored <= h[kept].stored
  {
    DSetRefines(s, r, h, op);
    var t := DStep(s, r, op).0;
    var c :| c in s.cs && c.used && c.key == out;
    var e :| e in t.cs && e.used && e.key == kept;
    DSetLosesOldest(s, r, op, c, e);
    assert Faithful(c, s.mem, Conf(r), h);
    assert Faithful(e, t.mem, Conf(r), h[op.key := Rec(op.data, op.flags, op.now, op.now)]);
  }

  lemma StoredHasNot(a: seq<Chunk>, i: nat, t: seq<Chunk>, k: string)
    requires i < |a| == |t| && !a[i].used && !HasKey(t, k) && forall j :: 0 <= j < |a| && j != i ==> t[j] == a[j]
    ensures !HasKey(a, k)
  {
    forall x | x in a && x.used ensures x.key != k { StoredStays(a, i, t, x); }
  }

  lemma StoredMembers(a: seq<Chunk>, i: nat, t: seq<Chunk>, e: Chunk)
    requires i < |a| == |t| && e in t && e != t[i] && forall j :: 0 <= j < |a| && j != i ==> t[j] == a[j]
    ensures e in a
  {
    var j :| 0 <= j < |t| && t[j] == e;
  }

  lemma StoredStays(a: seq<Chunk>, i: nat, t: seq<Chunk>, e: Chunk)
    requires i < |a| == |t| && e in a && e != a[i] && forall j :: 0 <= j < |a| && j != i ==> t[j] == a[j]
    ensures e in t
  {
    var j :| 0 <= j < |a| && a[j] == e;
  }

  /** A set that fits is visible to the get that follows it. */
  lemma DSetThenGet(s: DState, r: Rules, op: Op, later: nat)
    requires DGood(s, r) && r.frequency != 0 && r.frequency != 1 && OpOk(op) && op.Set? && later > 0
    requires FitsTable(Conf(r), |op.data|)
    ensures var t := DStep(s, r, op).0;
            DGood(t, r) && DStep(t, r, Get(op.key, later)).1 == Hit(op.data, op.flags)
  {
    DStepGood(s, r, op);
    var p := DSetShape(s, r, op.key, op.data, op.flags, op.now);
    var t := DStep(s, r, op).0;
    forall j | 0 <= j < |t.cs| && j != p.at ensures !t.cs[j].Named(op.key) {
      assert t.cs[j] == p.cs[j] && p.cs[j] in p.cs;
      assert GoodChunk(p.cs[j], r.slab);
    }
    FindReserved(t.cs, p.at, op.key);
    assert BytesOf(t.mem, t.cs[p.at]) == op.data;
  }

  lemma DropKeyOthers(cs: seq<Chunk>, r: Rules, k: string, c: Chunk)
    requires Carved(cs, r) && k != "" && c in cs && c.used && c.key != k
    ensures c in DropKey(cs, k)
  {
    FoundUsed(cs, r.slab, k);
    if Find(cs, k).Some? { DiscardKeeps(cs, r, Find(cs, k).value); }
  }

  lemma SumFits(cs: seq<Chunk>, r: Rules)
    requires Carved(cs, r)
    ensures SumData(cs) <= r.total
  {
    SumFitsFrom(cs, r, 0);
    assert cs[0..] == cs;
  }

  lemma {:induction false} SumFitsFrom(cs: seq<Chunk>, r: Rules, i: nat)
    requires Carved(cs, r) && i <= |cs|
    ensures SumData(cs[i..]) <= r.total - (if i < |cs| then cs[i].addr else r.total)
    decreases |cs| - i
  {
    if i < |cs| {
      SumFitsFrom(cs, r, i + 1);
      assert cs[i..][1..] == cs[i + 1..];
      assert cs[i] in cs && GoodChunk(cs[i], r.slab);
      assert i + 1 < |cs| ==> cs[i + 1].addr == cs[i].End();
    }
  }
}
