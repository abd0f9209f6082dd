/**
  Runs of the cache engine over the buddy scheme: set, get, delete and flush as steps on
  the chunk list and the arena, and the proof that every run refines a lossy map.
  */
module LossyMap {
  import opened Basics
  import opened Chunks
  import opened BuddySpec
  import opened BuddyCache

  datatype State = State(cs: seq<Chunk>, mem: Bytes)

  ghost predicate Good(s: State, g: Config) {
    Quiet(s.cs, g) && |s.mem| == g.total
  }

  datatype Op =
    | Set(key: string, data: Bytes, flags: nat, now: nat)
    | Get(key: string, now: nat)
    | Delete(key: string)
    | Flush

  predicate OpOk(op: Op) {
    match op
    case Set(k, _, _, now) => k != "" && KeyFits(k) && now > 0
    case Get(k, now) => k != "" && now > 0
    case Delete(k) => k != ""
    case Flush => true
  }

  datatype Reply = Stored | TooBig | Hit(data: Bytes, flags: nat) | Miss | Deleted | Flushed

  // ---------- the stored entries ----------

  /** The stored chunk a get of the key returns, if any. */
  function Entry(cs: seq<Chunk>, k: string): Option<Chunk> {
    match Find(cs, k)
    case None => None
    case Some(i) => if cs[i].used then Some(cs[i]) else None
  }

  function BytesOf(mem: Bytes, c: Chunk): Bytes
    requires c.addr + c.dataSize <= |mem|
  {
    mem[c.addr..c.addr + c.dataSize]
  }

  lemma EntryIff(cs: seq<Chunk>, g: Config, skip: int, k: string, c: Chunk)
    requires QuietBut(cs, g, skip) && k != ""
    ensures Entry(cs, k) == Some(c) <==> c in cs && c.used && c.key == k
  {
    match Find(cs, k)
    case None =>
      if c in cs {
        var j :| 0 <= j < |cs| && cs[j] == c;
        assert !cs[j].Named(k);
      }
    case Some(i) =>
      assert cs[i] in cs;
      assert GoodChunk(cs[i], g.slab);
  }

  // ---------- justice_engine_allocate, the write of the data, justice_engine_store ----------

  /** A stored value of the same key is deleted before room is looked for. */
  function DropOld(cs: seq<Chunk>, k: string): seq<Chunk> {
    match Find(cs, k)
    case None => cs
    case Some(i) => if cs[i].used then Release(cs, i).0 else cs
  }

  lemma DropOldQuiet(cs: seq<Chunk>, g: Config, k: string)
    requires Quiet(cs, g) && k != ""
    ensures var r := DropOld(cs, k);
            && Quiet(r, g)
            && forall c: Chunk :: c.used ==> (c in r <==> c in cs && c.key != k)
  {
    match Find(cs, k)
    case None =>
      forall c: Chunk | c.used && c in cs ensures c.key != k { EntryIff(cs, g, -1, k, c); }
    case Some(i) =>
      assert cs[i] in cs;
      ReleaseQuiet(cs, g, i);
      forall c: Chunk | c.used ensures c in Release(cs, i).0 <==> c in cs && c.key != k {
        assert Entry(cs, k) == Some(cs[i]);
        EntryIff(cs, g, -1, k, c);
      }
  }

  function ReserveAt(cs: seq<Chunk>, i: nat, k: string, n: nat, flags: nat): seq<Chunk>
    requires i < |cs|
  {
    cs[i := cs[i].(dataSize := n, nkey := |k|, key := k, flags := flags)]
  }

  predicate FitsTable(g: Config, n: nat) { Max(n, g.slab) <= g.total }

  /** The list after justice_engine_allocate, with the reserved position unless the item is too big. */
  function Allocate(cs: seq<Chunk>, g: Config, k: string, n: nat, flags: nat): (seq<Chunk>, Option<nat>)
    requires Quiet(cs, g) && k != ""
  {
    DropOldQuiet(cs, g, k);
    var d := DropOld(cs, k);
    if !FitsTable(g, n) then (d, None)
    else
      AllocKeeps(d, g, Max(n, g.slab));
      var (r, i) := AllocIn(d, g, Max(n, g.slab));
      (ReserveAt(r, i, k, n, flags), Some(i))
  }

  /** justice_engine_store: the first chunk that carries the key becomes occupied. */
  function StoreKey(cs: seq<Chunk>, k: string, now: nat): seq<Chunk> {
    match Find(cs, k)
    case None => cs
    case Some(i) => cs[i := cs[i].(used := true, hour := now)]
  }

  function WriteAt(mem: Bytes, a: nat, data: Bytes): Bytes
    requires a + |data| <= |mem|
  {
    mem[..a] + data + mem[a + |data|..]
  }

  lemma WriteStep(mem: Bytes, a: nat, data: Bytes, j: nat)
    requires a + |data| <= |mem| && j < |data|
    ensures WriteAt(mem, a, data[..j])[a + j := data[j]] == WriteAt(mem, a, data[..j + 1])
  {
  }

  /** The data of a set arrives in its chunk. */
  method WriteData(mem: array<bv8>, a: nat, data: Bytes)
    requires a + |data| <= mem.Length
    modifies mem
    ensures mem[..] == WriteAt(old(mem[..]), a, data)
  {
    var j := 0;
    while j < |data|
      invariant 0 <= j <= |data|
      invariant mem[..] == WriteAt(old(mem[..]), a, data[..j])
    {
      WriteStep(old(mem[..]), a, data, j);
      mem[a + j] := data[j];
      j := j + 1;
    }
    assert data[..j] == data;
  }

  predicate Other(c: Chunk, k: string) { c.used && c.key != k }

  /** Among the other keys, what is stored before and not after is no younger than what is still stored. */
  ghost predicate EvictsOldestBut(old_: seq<Chunk>, cs: seq<Chunk>, k: string) {
    forall c, d | Other(c, k) && Other(d, k) :: c in old_ && c !in cs && d in cs ==> c.hour <= d.hour
  }

  /** What an allocation leaves for the write and the store. */
  ghost predicate AllocatedAt(old_: seq<Chunk>, cs: seq<Chunk>, g: Config, i: nat, k: string, n: nat, flags: nat) {
    && Shape(cs, g.total) && i < |cs|
    && cs[i] == Chunk(cs[i].addr, cs[i].size, |k|, k, 0, false, n, flags)
    && Max(n, g.slab) <= cs[i].size < 2 * Max(n, g.slab)
    && (forall j :: 0 <= j < |cs| && j != i ==> GoodChunk(cs[j], g.slab) && (cs[j].used ==> cs[j] in old_ && cs[j].key != k))
    && (forall a, b :: 0 <= a < |cs| && 0 <= b < |cs| && cs[a].used && cs[b].used && cs[a].key == cs[b].key ==> a == b)
    && NoFreePair(cs)
    && Find(cs, k) == Some(i)
    && EvictsOldestBut(old_, cs, k)
  }

  lemma AllocateKeeps(cs: seq<Chunk>, g: Config, k: string, n: nat, flags: nat)
    requires Quiet(cs, g) && k != "" && FitsTable(g, n)
    ensures var (r, o) := Allocate(cs, g, k, n, flags);
            o.Some? && AllocatedAt(cs, r, g, o.value, k, n, flags)
  {
    DropOldQuiet(cs, g, k);
    var d := DropOld(cs, k);
    var need := Max(n, g.slab);
    AllocKeeps(d, g, need);
    var (a, i) := AllocIn(d, g, need);
    ReserveKeeps(a, g, i, k, n, flags);
    var r := ReserveAt(a, i, k, n, flags);
    assert AllocatedAt(cs, r, g, i, k, n, flags) by {
      SameUsed(a, r, i);
      forall j | 0 <= j < |r| && j != i && r[j].used ensures r[j] in cs && r[j].key != k {
        assert r[j] == a[j] && a[j] in a;
      }
      forall c, e | Other(c, k) && c in cs && c !in r && Other(e, k) && e in r ensures c.hour <= e.hour {
        assert c in d && c !in a && e in a;
      }
      FindReserved(r, i, k);
    }
  }

  /** Reserving a blank chunk does not change which chunks are stored. */
  lemma SameUsed(a: seq<Chunk>, r: seq<Chunk>, i: nat)
    requires i < |a| == |r| && !a[i].used && !r[i].used
    requires forall j :: 0 <= j < |a| && j != i ==> a[j] == r[j]
    ensures forall c: Chunk :: c.used ==> (c in a <==> c in r)
  {
    forall c: Chunk | c.used ensures c in a <==> c in r {
      if c in a {
        var j :| 0 <= j < |a| && a[j] == c;
        assert r[j] == c;
      }
      if c in r {
        var j :| 0 <= j < |r| && r[j] == c;
        assert a[j] == c;
      }
    }
  }

  lemma ReserveKeeps(a: seq<Chunk>, g: Config, i: nat, k: string, n: nat, flags: nat)
    requires QuietBut(a, g, i) && BlankAt(a, i) && k != ""
    ensures var r := ReserveAt(a, i, k, n, flags);
            && Shape(r, g.total) && NoFreePair(r)
            && (forall j :: 0 <= j < |r| && j != i ==> GoodChunk(r[j], g.slab))
            && (forall x, y :: 0 <= x < |r| && 0 <= y < |r| && r[x].used && r[y].used && r[x].key == r[y].key ==> x == y)
  {
    var r := ReserveAt(a, i, k, n, flags);
    forall j | 0 <= j < |r| && j != i ensures GoodChunk(r[j], g.slab) {
      assert r[j] == a[j] && a[j] in a;
    }
    forall x, y | 0 <= x < |r| && 0 <= y < |r| && r[x].used && r[y].used && r[x].key == r[y].key ensures x == y {
      assert a[x] in a && a[y] in a;
      SameChunk(a, g.total, x, y);
    }
  }

  lemma FindReserved(cs: seq<Chunk>, i: nat, k: string)
    requires i < |cs| && cs[i].Named(k)
    requires forall j :: 0 <= j < |cs| && j != i ==> !cs[j].Named(k)
    ensures Find(cs, k) == Some(i)
  {
    var r := Find(cs, k);
  }

  // ---------- one command ----------

  function DoSet(s: State, g: Config, k: string, data: Bytes, flags: nat, now: nat): (State, Reply)
    requires Good(s, g) && k != "" && now > 0
  {
    var (cs, o) := Allocate(s.cs, g, k, |data|, flags);
    match o
    case None => (State(cs, s.mem), TooBig)
    case Some(i) =>
      AllocateKeeps(s.cs, g, k, |data|, flags);
      TiledBounds(cs, g.total, i);
      (State(StoreKey(cs, k, now), WriteAt(s.mem, cs[i].addr, data)), Stored)
  }

  function DoGet(s: State, g: Config, k: string, now: nat): (State, Reply)
    requires Good(s, g) && k != "" && now > 0
  {
    match Find(s.cs, k)
    case None => (s, Miss)
    case Some(i) =>
      if !s.cs[i].used then (s, Miss)
      else
        TiledBounds(s.cs, g.total, i);
        assert s.cs[i] in s.cs;
        var cs := if g.lru then s.cs[i := s.cs[i].(hour := now)] else s.cs;
        (State(cs, s.mem), Hit(BytesOf(s.mem, s.cs[i]), s.cs[i].flags))
  }

  function DoDelete(s: State, k: string): (State, Reply) {
    match Find(s.cs, k)
    case None => (s, Miss)
    case Some(i) => (State(Release(s.cs, i).0, s.mem), Deleted)
  }

  /** diccionario_limpiar from position i on. */
  function FlushFrom(cs: seq<Chunk>, i: nat): seq<Chunk>
    requires i <= |cs|
    decreases |cs| - i
  {
    if i == |cs| then cs
    else if cs[i].nkey != 0 then
      CoalesceTail(cs[i := cs[i].Cleared()], i);
      var (r, j) := Release(cs, i);
      FlushFrom(r, j + 1)
    else FlushFrom(cs, i + 1)
  }

  function Step(s: State, g: Config, op: Op): (State, Reply)
    requires Good(s, g) && OpOk(op)
  {
    match op
    case Set(k, data, flags, now) => DoSet(s, g, k, data, flags, now)
    case Get(k, now) => DoGet(s, g, k, now)
    case Delete(k) => DoDelete(s, k)
    case Flush => (State(FlushFrom(s.cs, 0), s.mem), Flushed)
  }

  // ---------- each command keeps the state good ----------

  /** The chunk holds the value of the key, with the hour of the command, and is no larger than it must be. */
  ghost predicate StoresValue(c: Chunk, mem: Bytes, g: Config, k: string, data: Bytes, flags: nat, now: nat) {
    && c.used && c.key == k && c.flags == flags && c.hour == now
    && c.End() <= |mem| && c.dataSize <= c.size && BytesOf(mem, c) == data
    && c.size < 2 * Max(|data|, g.slab)
  }

  /** The chunk is stored in both states with the same fields and the same bytes. */
  ghost predicate Untouched(c: Chunk, s: State, t: State) {
    && c in s.cs && c.End() <= |s.mem| && c.End() <= |t.mem| && c.dataSize <= c.size
    && BytesOf(t.mem, c) == BytesOf(s.mem, c)
  }

  /** What a set that fits comes to: an allocation, the write, and the chunk marked as stored. */
  lemma SetShape(s: State, g: Config, k: string, data: Bytes, flags: nat, now: nat) returns (cs: seq<Chunk>, i: nat)
    requires Good(s, g) && k != "" && now > 0 && FitsTable(g, |data|)
    ensures (cs, Some(i)) == Allocate(s.cs, g, k, |data|, flags)
    ensures AllocatedAt(s.cs, cs, g, i, k, |data|, flags) && cs[i].addr + |data| <= |s.mem|
    ensures StoreKey(cs, k, now) == cs[i := cs[i].(used := true, hour := now)]
    ensures DoSet(s, g, k, data, flags, now) == (State(StoreKey(cs, k, now), WriteAt(s.mem, cs[i].addr, data)), Stored)
  {
    var a := Allocate(s.cs, g, k, |data|, flags);
    AllocateKeeps(s.cs, g, k, |data|, flags);
    cs, i := a.0, a.1.value;
    TiledBounds(cs, g.total, i);
  }

  /** A set that fits stores exactly the new entry; every other stored entry that is left is untouched. */
  lemma SetStores(s: State, g: Config, k: string, data: Bytes, flags: nat, now: nat)
    requires Good(s, g) && k != "" && now > 0 && FitsTable(g, |data|)
    ensures var (t, r) := DoSet(s, g, k, data, flags, now);
            && r == Stored && Good(t, g)
            && (exists c :: c in t.cs && StoresValue(c, t.mem, g, k, data, flags, now))
            && (forall c :: c in t.cs && c.used && c.key != k ==> Untouched(c, s, t))
            && EvictsOldestBut(s.cs, t.cs, k)
  {
    var cs, i := SetShape(s, g, k, data, flags, now);
    StoredQuiet(s.cs, cs, g, i, k, |data|, flags, now);
    StoredOthers(s, cs, g, i, k, data, flags, now);
    StoredValue(s.mem, cs, g, i, k, data, flags, now);
    StoreEvicts(s.cs, cs, g, i, k, |data|, flags, now);
  }

  lemma StoredOthers(s: State, cs: seq<Chunk>, g: Config, i: nat, k: string, data: Bytes, flags: nat, now: nat)
    requires |s.mem| == g.total && AllocatedAt(s.cs, cs, g, i, k, |data|, flags) && cs[i].addr + |data| <= |s.mem|
    ensures var t := State(cs[i := cs[i].(used := true, hour := now)], WriteAt(s.mem, cs[i].addr, data));
            forall c :: c in t.cs && c.used && c.key != k ==> Untouched(c, s, t)
  {
    var t := State(cs[i := cs[i].(used := true, hour := now)], WriteAt(s.mem, cs[i].addr, data));
    forall c | c in t.cs && c.used && c.key != k ensures Untouched(c, s, t) {
      var j :| 0 <= j < |t.cs| && t.cs[j] == c;
      WriteElsewhere(s, cs, g, i, j, k, data, flags);
    }
  }

  /** The new chunk holds the value. */
  lemma StoredValue(mem: Bytes, cs: seq<Chunk>, g: Config, i: nat, k: string, data: Bytes, flags: nat, now: nat)
    requires Tiled(cs, |mem|) && i < |cs| && cs[i].addr + |data| <= |mem|
    requires cs[i] == Chunk(cs[i].addr, cs[i].size, |k|, k, 0, false, |data|, flags)
    requires Max(|data|, g.slab) <= cs[i].size < 2 * Max(|data|, g.slab)
    ensures var r := cs[i := cs[i].(used := true, hour := now)];
            exists c :: c in r && StoresValue(c, WriteAt(mem, cs[i].addr, data), g, k, data, flags, now)
  {
    TiledBounds(cs, |mem|, i);
    var c := cs[i].(used := true, hour := now);
    assert BytesOf(WriteAt(mem, cs[i].addr, data), c) == data;
    assert StoresValue(c, WriteAt(mem, cs[i].addr, data), g, k, data, flags, now);
    assert cs[i := c][i] in cs[i := c];
  }

  /** A write leaves the bytes beside it alone. */
  lemma WriteApart(mem: Bytes, a: nat, data: Bytes, lo: nat, hi: nat)
    requires a + |data| <= |mem| && lo <= hi <= |mem| && (hi <= a || a + |data| <= lo)
    ensures WriteAt(mem, a, data)[lo..hi] == mem[lo..hi]
  {
    var m := WriteAt(mem, a, data);
    forall p | lo <= p < hi ensures m[p] == mem[p] { }
  }

  /** The write of the new value stays inside the reserved chunk. */
  lemma WriteElsewhere(s: State, cs: seq<Chunk>, g: Config, i: nat, j: nat, k: string, data: Bytes, flags: nat)
    requires |s.mem| == g.total && AllocatedAt(s.cs, cs, g, i, k, |data|, flags)
    requires j < |cs| && j != i && cs[j].used && cs[i].addr + |data| <= |s.mem|
    ensures Untouched(cs[j], s, State(cs, WriteAt(s.mem, cs[i].addr, data)))
  {
    TiledBounds(cs, g.total, j);
    TiledBounds(cs, g.total, i);
    if j < i { TiledOrdered(cs, g.total, j, i); } else { TiledOrdered(cs, g.total, i, j); }
    WriteApart(s.mem, cs[i].addr, data, cs[j].addr, cs[j].addr + cs[j].dataSize);
  }

  lemma StoreEvicts(old_: seq<Chunk>, cs: seq<Chunk>, g: Config, i: nat, k: string, n: nat, flags: nat, now: nat)
    requires AllocatedAt(old_, cs, g, i, k, n, flags)
    ensures EvictsOldestBut(old_, StoreKey(cs, k, now), k)
  {
    var r := StoreKey(cs, k, now);
    forall c | c in cs && c.used ensures c in r {
      var x :| 0 <= x < |cs| && cs[x] == c;
      assert r[x] == c;
    }
    forall c, d | Other(c, k) && c in old_ && c !in r && Other(d, k) && d in r ensures c.hour <= d.hour {
      var y :| 0 <= y < |r| && r[y] == d;
      assert cs[y] == d;
    }
  }

  lemma StoredQuiet(old_: seq<Chunk>, cs: seq<Chunk>, g: Config, i: nat, k: string, n: nat, flags: nat, now: nat)
    requires GoodConfig(g) && k != "" && now > 0
    requires AllocatedAt(old_, cs, g, i, k, n, flags)
    ensures StoreKey(cs, k, now) == cs[i := cs[i].(used := true, hour := now)]
    ensures Quiet(StoreKey(cs, k, now), g)
  {
    var r := StoreKey(cs, k, now);
    StoredShape(cs, g, i, k, now);
    StoredUnique(cs, r, i, k);
  }

  lemma StoredShape(cs: seq<Chunk>, g: Config, i: nat, k: string, now: nat)
    requires Shape(cs, g.total) && i < |cs| && NoFreePair(cs) && now > 0
    requires cs[i].nkey == |cs[i].key| != 0 && cs[i].dataSize <= cs[i].size && g.slab <= cs[i].size
    requires forall j :: 0 <= j < |cs| && j != i ==> GoodChunk(cs[j], g.slab)
    ensures var r := cs[i := cs[i].(used := true, hour := now)];
            Shape(r, g.total) && NoFreePair(r) && forall c :: c in r ==> GoodChunk(c, g.slab)
  {
    var r := cs[i := cs[i].(used := true, hour := now)];
    forall c | c in r ensures GoodChunk(c, g.slab) {
      var j :| 0 <= j < |r| && r[j] == c;
    }
  }

  lemma StoredUnique(cs: seq<Chunk>, r: seq<Chunk>, i: nat, k: string)
    requires |cs| == |r| && i < |cs| && r[i].key == k
    requires forall j :: 0 <= j < |cs| && j != i ==> r[j] == cs[j] && (cs[j].used ==> cs[j].key != k)
    requires forall a, b :: 0 <= a < |cs| && 0 <= b < |cs| && cs[a].used && cs[b].used && cs[a].key == cs[b].key ==> a == b
    ensures UniqueKeys(r)
  {
    forall c, d | c in r && d in r && c.used && d.used && c.key == d.key ensures c == d {
      var x :| 0 <= x < |r| && r[x] == c;
      var y :| 0 <= y < |r| && r[y] == d;
      assert x != i && y != i ==> cs[x].key == cs[y].key;
    }
  }

  /** Touching the hour of a stored chunk changes nothing else. */
  lemma TouchQuiet(cs: seq<Chunk>, g: Config, i: nat, now: nat)
    requires Quiet(cs, g) && i < |cs| && cs[i].used && now > 0
    ensures var r := cs[i := cs[i].(hour := now)];
            Quiet(r, g) && forall c :: c in r ==> c == r[i] || (c in cs && (c.used ==> c.key != cs[i].key))
  {
    var r := cs[i := cs[i].(hour := now)];
    assert cs[i] in cs;
    forall j | 0 <= j < |r| && j != i ensures r[j] in cs && (r[j].used ==> r[j].key != cs[i].key) {
      assert r[j] == cs[j] && cs[j] in cs;
      if cs[j] == cs[i] { SameChunk(cs, g.total, i, j); }
    }
    assert Shape(r, g.total) && NoFreePair(r);
    TouchMembers(cs, r, i);
  }

  lemma TouchMembers(cs: seq<Chunk>, r: seq<Chunk>, i: nat)
    requires |r| == |cs| && i < |r| && UniqueKeys(cs)
    requires forall j :: 0 <= j < |r| && j != i ==> r[j] in cs && (r[j].used ==> r[j].key != r[i].key)
    ensures forall c :: c in r ==> c == r[i] || (c in cs && (c.used ==> c.key != r[i].key))
    ensures UniqueKeys(r)
  {
    forall c | c in r ensures c == r[i] || (c in cs && (c.used ==> c.key != r[i].key)) {
      var j :| 0 <= j < |r| && r[j] == c;
    }
  }

  lemma GetKeeps(s: State, g: Config, k: string, now: nat)
    requires Good(s, g) && k != "" && now > 0
    ensures var (t, r) := DoGet(s, g, k, now);
            && Good(t, g) && t.mem == s.mem
            && (Entry(s.cs, k).None? ==> t == s && r == Miss)
            && (Entry(s.cs, k).Some? ==>
                  var c := Entry(s.cs, k).value;
                  && c in s.cs && c.key == k && c.End() <= |s.mem| && c.dataSize <= c.size
                  && r == Hit(BytesOf(s.mem, c), c.flags)
                  && forall x :: x in t.cs && x.used ==>
                       x == (if g.lru then c.(hour := now) else c) || (x in s.cs && x.key != k))
  {
    if Entry(s.cs, k).Some? {
      var i := Find(s.cs, k).value;
      assert s.cs[i] in s.cs;
      TiledBounds(s.cs, g.total, i);
      TouchQuiet(s.cs, g, i, now);
      TouchQuiet(s.cs, g, i, s.cs[i].hour);
      assert s.cs[i := s.cs[i].(hour := s.cs[i].hour)] == s.cs;
    }
  }

  /** What a get comes to. */
  lemma GetIs(s: State, g: Config, k: string, now: nat)
    requires Good(s, g) && k != "" && now > 0
    ensures match Find(s.cs, k)
      case None => DoGet(s, g, k, now) == (s, Miss)
      case Some(i) =>
        && s.cs[i].used && s.cs[i].addr + s.cs[i].dataSize <= |s.mem|
        && DoGet(s, g, k, now) == (State(if g.lru then s.cs[i := s.cs[i].(hour := now)] else s.cs, s.mem),
                                   Hit(BytesOf(s.mem, s.cs[i]), s.cs[i].flags))
  {
    if Find(s.cs, k).Some? {
      var i := Find(s.cs, k).value;
      TiledBounds(s.cs, g.total, i);
      assert s.cs[i] in s.cs;
    }
  }

  lemma DeleteKeeps(s: State, g: Config, k: string)
    requires Good(s, g) && k != ""
    ensures var (t, r) := DoDelete(s, k);
            && Good(t, g) && t.mem == s.mem
            && (r == Deleted <==> Entry(s.cs, k).Some?) && (r == Deleted || r == Miss)
            && (forall c: Chunk :: c.used ==> (c in t.cs <==> c in s.cs && c.key != k))
  {
    DropOldQuiet(s.cs, g, k);
    match Find(s.cs, k)
    case None =>
    case Some(i) => assert s.cs[i] in s.cs;
  }

  /** A flush ends with one free chunk that spans the table. */
  lemma FlushEmpties(cs: seq<Chunk>, g: Config)
    requires Quiet(cs, g)
    ensures FlushFrom(cs, 0) == [Blank(0, g.total)]
  {
    FlushFromKeeps(cs, g, 0);
    var r := FlushFrom(cs, 0);
    forall i | 0 <= i < |r| ensures r[i].Free() { assert r[i] in r; }
    AllFreeIsWhole(r, g.total);
    assert r[0] in r;
  }

  lemma {:induction false} FlushFromKeeps(cs: seq<Chunk>, g: Config, i: nat)
    requires Quiet(cs, g) && i <= |cs|
    requires forall j :: 0 <= j < i ==> cs[j].nkey == 0
    ensures Quiet(FlushFrom(cs, i), g)
    ensures forall c :: c in FlushFrom(cs, i) ==> !c.used
    decreases |cs| - i
  {
    if i < |cs| {
      if cs[i].nkey != 0 {
        ReleasePrefix(cs, g, i);
        var (r, j) := Release(cs, i);
        FlushFromKeeps(r, g, j + 1);
      } else {
        FlushFromKeeps(cs, g, i + 1);
      }
    } else {
      NoKeysNoneUsed(cs, g.slab);
    }
  }

  lemma NoKeysNoneUsed(cs: seq<Chunk>, slab: nat)
    requires forall c :: c in cs ==> GoodChunk(c, slab)
    requires forall j :: 0 <= j < |cs| ==> cs[j].nkey == 0
    ensures forall c :: c in cs ==> !c.used
  {
  }

  lemma ReleasePrefix(cs: seq<Chunk>, g: Config, i: nat)
    requires Quiet(cs, g) && i < |cs|
    requires forall j :: 0 <= j < i ==> cs[j].nkey == 0
    ensures var (r, j) := Release(cs, i);
            && Quiet(r, g) && j < |r| && |r| - j <= |cs| - i
            && forall x :: 0 <= x <= j ==> r[x].nkey == 0
  {
    CoalesceTail(cs[i := cs[i].Cleared()], i);
    ReleaseQuiet(cs, g, i);
    var (r, j) := Release(cs, i);
    forall x | 0 <= x < j ensures r[x].nkey == 0 {
      assert r[x] == cs[x];
    }
  }

  lemma StepKeeps(s: State, g: Config, op: Op)
    requires Good(s, g) && OpOk(op)
    ensures Good(Step(s, g, op).0, g)
  {
    match op
    case Set(k, data, flags, now) =>
      if FitsTable(g, |data|) { SetStores(s, g, k, data, flags, now); } else { DropOldQuiet(s.cs, g, k); }
    case Get(k, now) => GetKeeps(s, g, k, now);
    case Delete(k) => DeleteKeeps(s, g, k);
    case Flush => FlushFromKeeps(s.cs, g, 0);
  }

  // ---------- the map the engine is a lossy copy of ----------

  /** Everything ever set and not deleted, flushed or refused since, with the times of its last store and last use. */
  datatype Rec = Rec(data: Bytes, flags: nat, stored: nat, touched: nat)

  type History = map<string, Rec>

  function Next(h: History, g: Config, op: Op, hit: bool): History {
    match op
    case Set(k, data, flags, now) =>
      if FitsTable(g, |data|) then h[k := Rec(data, flags, now, now)] else h - {k}
    case Get(k, now) => if hit && k in h then h[k := h[k].(touched := now)] else h
    case Delete(k) => h - {k}
    case Flush => map[]
  }

  function LastUse(g: Config, r: Rec): nat { if g.lru then r.touched else r.stored }

  /** A reply the map allows: misses are always allowed, hits must be exact. */
  predicate Allowed(h: History, g: Config, op: Op, r: Reply) {
    match op
    case Set(_, data, _, _) => r == (if FitsTable(g, |data|) then Stored else TooBig)
    case Get(k, _) => r == Miss || (k in h && r == Hit(h[k].data, h[k].flags))
    case Delete(k) => r == Miss || (k in h && r == Deleted)
    case Flush => r == Flushed
  }

  /** The chunk is the map's own record of its key, and its hour is the record's last use. */
  ghost predicate Faithful(c: Chunk, mem: Bytes, g: Config, h: History) {
    && c.End() <= |mem| && c.dataSize <= c.size
    && c.key in h && h[c.key].data == BytesOf(mem, c) && h[c.key].flags == c.flags
    && c.hour == LastUse(g, h[c.key])
  }

  ghost predicate Holds(s: State, g: Config, h: History) {
    forall c :: c in s.cs && c.used ==> Faithful(c, s.mem, g, h)
  }

  lemma StepRefines(s: State, g: Config, h: History, op: Op)
    requires Good(s, g) && OpOk(op) && Holds(s, g, h)
    ensures var (t, r) := Step(s, g, op);
            && Good(t, g) && Allowed(h, g, op, r)
            && Holds(t, g, Next(h, g, op, r.Hit?))
  {
    StepKeeps(s, g, op);
    var (t, r) := Step(s, g, op);
    match op
    case Set(k, data, flags, now) =>
      if FitsTable(g, |data|) { SetRefines(s, g, h, op); } else {
        DropOldQuiet(s.cs, g, k);
      }
    case Get(k, now) => GetRefines(s, g, h, op);
    case Delete(k) =>
      DeleteKeeps(s, g, k);
      if Entry(s.cs, k).Some? { EntryIff(s.cs, g, -1, k, Entry(s.cs, k).value); }
    case Flush => FlushFromKeeps(s.cs, g, 0);
  }

  lemma SetRefines(s: State, g: Config, h: History, op: Op)
    requires Good(s, g) && OpOk(op) && Holds(s, g, h) && op.Set? && FitsTable(g, |op.data|)
    ensures var (t, r) := Step(s, g, op); Holds(t, g, Next(h, g, op, r.Hit?))
  {
    SetStores(s, g, op.key, op.data, op.flags, op.now);
    var t := Step(s, g, op).0;
    var e :| e in t.cs && StoresValue(e, t.mem, g, op.key, op.data, op.flags, op.now);
    var n := h[op.key := Rec(op.data, op.flags, op.now, op.now)];
    forall c | c in t.cs && c.used ensures Faithful(c, t.mem, g, n) {
      if c.key == op.key {
        assert c == e;
      } else {
        assert Untouched(c, s, t) && Faithful(c, s.mem, g, h);
      }
    }
  }

  lemma GetRefines(s: State, g: Config, h: History, op: Op)
    requires Good(s, g) && OpOk(op) && Holds(s, g, h) && op.Get?
    ensures var (t, r) := Step(s, g, op);
            Allowed(h, g, op, r) && Holds(t, g, Next(h, g, op, r.Hit?))
  {
    GetKeeps(s, g, op.key, op.now);
    if Entry(s.cs, op.key).Some? {
      EntryIff(s.cs, g, -1, op.key, Entry(s.cs, op.key).value);
    }
  }

  // ---------- whole runs ----------

  function Init(g: Config, mem: Bytes): State { State([Blank(0, g.total)], mem) }

  lemma InitGood(g: Config, mem: Bytes)
    requires GoodConfig(g) && |mem| == g.total
    ensures Good(Init(g, mem), g) && Holds(Init(g, mem), g, map[])
  {
  }

  function Run(s: State, g: Config, ops: seq<Op>): (State, seq<Reply>)
    requires Good(s, g) && forall op :: op in ops ==> OpOk(op)
    decreases |ops|
  {
    if ops == [] then (s, [])
    else
      StepKeeps(s, g, ops[0]);
      var (t, r) := Step(s, g, ops[0]);
      var (u, rs) := Run(t, g, ops[1..]);
      (u, [r] + rs)
  }

  /** The map after the run, given which gets hit. */
  function Past(h: History, g: Config, ops: seq<Op>, rs: seq<Reply>): History
    requires |ops| == |rs|
    decreases |ops|
  {
    if ops == [] then h else Past(Next(h, g, ops[0], rs[0].Hit?), g, ops[1..], rs[1..])
  }

  predicate AllAllowed(h: History, g: Config, ops: seq<Op>, rs: seq<Reply>)
    requires |ops| == |rs|
    decreases |ops|
  {
    ops == [] || (Allowed(h, g, ops[0], rs[0]) && AllAllowed(Next(h, g, ops[0], rs[0].Hit?), g, ops[1..], rs[1..]))
  }

  /** Main result: every reply of every run is one the map allows, and the state stays a faithful part of the map. */
  lemma {:induction false} RunRefines(s: State, g: Config, h: History, ops: seq<Op>)
    requires Good(s, g) && Holds(s, g, h) && forall op :: op in ops ==> OpOk(op)
    ensures var (t, rs) := Run(s, g, ops);
            && |rs| == |ops| && Good(t, g)
            && AllAllowed(h, g, ops, rs) && Holds(t, g, Past(h, g, ops, rs))
    decreases |ops|
  {
    if ops != [] {
      StepRefines(s, g, h, ops[0]);
      var (t, r) := Step(s, g, ops[0]);
      RunRefines(t, g, Next(h, g, ops[0], r.Hit?), ops[1..]);
      var (u, rs) := Run(t, g, ops[1..]);
      assert ([r] + rs)[1..] == rs;
    }
  }

  lemma EveryRunRefines(g: Config, mem: Bytes, ops: seq<Op>)
    requires GoodConfig(g) && |mem| == g.total && forall op :: op in ops ==> OpOk(op)
    ensures var (t, rs) := Run(Init(g, mem), g, ops);
            && |rs| == |ops| && Good(t, g)
            && AllAllowed(map[], g, ops, rs) && Holds(t, g, Past(map[], g, ops, rs))
  {
    InitGood(g, mem);
    RunRefines(Init(g, mem), g, map[], ops);
  }

  /** A set that fits is visible to the get that follows it. */
  lemma SetThenGet(s: State, g: Config, k: string, data: Bytes, flags: nat, now: nat, later: nat)
    requires Good(s, g) && k != "" && KeyFits(k) && now > 0 && later > 0 && FitsTable(g, |data|)
    ensures var t := Step(s, g, Set(k, data, flags, now)).0;
            Good(t, g) && Step(t, g, Get(k, later)).1 == Hit(data, flags)
  {
    SetStores(s, g, k, data, flags, now);
    var t := Step(s, g, Set(k, data, flags, now)).0;
    var e :| e in t.cs && StoresValue(e, t.mem, g, k, data, flags, now);
    EntryIff(t.cs, g, -1, k, e);
    GetKeeps(t, g, k, later);
  }

  /** What a set evicts was used no later, in the map's terms, than anything it leaves stored. */
  lemma SetEvictsLeastRecent(s: State, g: Config, h: History, op: Op, out: string, kept: string)
    requires Good(s, g) && OpOk(op) && Holds(s, g, h) && op.Set? && FitsTable(g, |op.data|)
    requires out != "" && out != op.key && kept != "" && kept != op.key
    requires Entry(s.cs, out).Some? && Entry(Step(s, g, op).0.cs, out).None?
    requires Entry(Step(s, g, op).0.cs, kept).Some?
    ensures out in h && kept in h
    ensures if g.lru then h[out].touched <= h[kept].touched else h[out].stored <= h[kept].stored
  {
    SetStores(s, g, op.key, op.data, op.flags, op.now);
    var t := Step(s, g, op).0;
    var c := Entry(s.cs, out).value;
    var d := Entry(t.cs, kept).value;
    EntryIff(s.cs, g, -1, out, c);
    EntryIff(t.cs, g, -1, kept, d);
    EntryIff(t.cs, g, -1, out, c);
  }
}
