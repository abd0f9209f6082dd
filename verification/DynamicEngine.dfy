/**
  The engine under the dynamic-partition scheme: the allocation loop in place, compaction
  included, and the commands memcached calls. The commands are followed as far as the coded
  run goes: to the first deletion of a node with a wrong `prev`, or the first compaction.
  */
module DynamicEngine {
  import opened Basics
  import opened Chunks
  import opened BuddyCache
  import opened BuddySpec
  import opened LossyMap
  import opened DynamicSpec
  import opened DynamicRun
  import opened CompactionSpec
  import opened Dictionary
  import KeyBuffer
  import opened CodedRun
  import opened CompactView
  import opened DynamicDictionary
  import CompactMemory

  /** The chunk handed out carries the key and the flags. */
  function Named(v: View, i: nat, k: string, flags: nat): View
    requires i < |v.cs|
  {
    v.(cs := v.cs[i := v.cs[i].(nkey := |k|, key := k, flags := flags)])
  }

  /** The chunk is stored. */
  function Stamped(v: View, i: nat, now: nat): View
    requires i < |v.cs|
  {
    v.(cs := v.cs[i := v.cs[i].(used := true, hour := now)])
  }

  lemma StampedIs(v: View, i: nat, k: string, n: nat, flags: nat, now: nat)
    requires i < |v.cs| && v.cs[i] == Blank(v.cs[i].addr, v.cs[i].size)
    ensures Stamped(Named(Booked(v, i, n), i, k, flags), i, now) == StoreV(v, i, k, n, flags, now)
  {
  }

  /** From this view the loop gets through, to o. */
  ghost predicate Leads(v: View, r: Rules, need: nat, o: Outcome<(View, nat)>) {
    VGood(v, r) && r.slab <= need <= r.total && o.Ran? && AllotV(v, r, need) == o
  }

  class Engine {
    const cache: Dict
    const mem: array<bv8>

    ghost predicate Fixed()
      reads cache
    {
      && 1 <= cache.slab <= cache.total && mem.Length == cache.total && mem as object != cache.table
    }

    /** What holds between commands. */
    ghost predicate Valid()
      reads this, cache, cache.table
    {
      Fixed() && cache.Valid() && VGood(ViewOf(cache), Rule(cache))
    }

    ghost function Now(): CState
      requires cache.Valid()
      reads cache, cache.table, mem
    {
      CState(ViewOf(cache), mem[..])
    }

    constructor (total: nat, slab: nat, lru: bool, best: bool, frequency: int)
      requires 1 <= slab <= total
      ensures Valid() && fresh(cache) && fresh(cache.table) && fresh(mem)
      ensures Rule(cache) == Rules(total, slab, lru, best, frequency)
      ensures Now().view == InitView(Rule(cache))
    {
      cache := new Dict(total, slab, lru, best, frequency);
      mem := new bv8[total];
      new;
      InitViewGood(Rule(cache));
      assert ViewOf(cache) == InitView(Rule(cache));
    }

    /** The table after a failed search: compacted when that is due, else without the victim. */
    ghost predicate MadeRoom(v: View, bytes: Bytes, need: nat)
      requires Fixed() && cache.Valid() && VGood(v, Rule(cache)) && |bytes| == cache.total
      requires Victim(v.cs).Some?
      reads cache, cache.table, mem
    {
      var u := v.(due := Counted(v.due));
      if u.due == 0 && cache.total - v.current >= need then
        ViewOf(cache) == CompactV(u).(due := cache.frequency) && mem[..] == CompactBytes(v.cs, bytes, false)
      else
        mem[..] == bytes && ViewOf(cache) == Remove(u, Victim(v.cs).value).0
    }

    /** The branch of the loop that finds no hole. */
    method MakeRoom(need: nat)
      requires Valid() && cache.slab <= need <= cache.total && Choose(cache.cs, need, cache.best).None?
      requires var v := ViewOf(cache);
               (Counted(v.due) == 0 && cache.total - v.current >= need)
               || (Victim(v.cs).Some? && RightAt(v, Victim(v.cs).value))
      modifies cache, cache.table, mem
      ensures Fixed() && cache.Valid() && Victim(old(cache.cs)).Some?
      ensures MadeRoom(old(ViewOf(cache)), old(mem[..]), need)
    {
      HoleOrVictim(cache.cs, Rule(cache), need);
      CountDown();
      if cache.due == 0 && cache.total - cache.current >= need {
        CompactMemory.CompactAll(cache, mem);
        cache.due := cache.frequency;
      } else {
        Evict();
      }
    }

    /** A failed search counts towards the next compaction. */
    method CountDown()
      requires Valid()
      modifies cache`due
      ensures Valid() && ViewOf(cache) == old(ViewOf(cache)).(due := Counted(old(cache.due)))
    {
      ghost var v := ViewOf(cache);
      if cache.due > 0 {
        cache.due := cache.due - 1;
      }
      UnusedSame(v, ViewOf(cache));
    }

    method Evict()
      requires Valid() && Victim(cache.cs).Some? && cache.cs[Victim(cache.cs).value].used
      requires RightAt(ViewOf(cache), Victim(cache.cs).value)
      modifies cache, cache.table
      ensures Fixed() && cache.Valid() && ViewOf(cache) == Remove(old(ViewOf(cache)), Victim(old(cache.cs)).value).0
    {
      var victim, i := cache.ChooseVictim();
      CarvedBlank(cache.cs, Rule(cache));
      assert BackOk(cache.table[..], cache.live, i);
      var r, j := DynamicDictionary.Delete(cache, victim, i);
    }

    /** The table is what the loop comes to, with the data booked on the chunk at i. */
    ghost predicate HandsOut(o: Outcome<(View, nat)>, i: nat, dataSize: nat)
      requires cache.Valid()
      reads cache, cache.table
    {
      o.Ran? && o.value.1 == i < |o.value.0.cs| && ViewOf(cache) == Booked(o.value.0, i, dataSize)
    }

    /** The table shows v. */
    ghost predicate ShowsView(v: View)
      reads this, cache, cache.table
    {
      Fixed() && cache.Valid() && ViewOf(cache) == v
    }

    /** A search that found a chunk: it is taken and booked. */
    method Settle(item: nat, need: nat, dataSize: nat, ghost i: nat, ghost v: View, ghost o: Outcome<(View, nat)>)
      requires ShowsView(v) && Leads(v, Rule(cache), need, o) && need == Max(dataSize, cache.slab)
      requires Choose(v.cs, need, cache.best) == Some(i) && i < |cache.live| && item == cache.live[i]
      modifies cache, cache.table
      ensures Fixed() && cache.Valid() && i < |cache.live| && item == cache.live[i]
      ensures HandsOut(o, i, dataSize)
    {
      TakeFits(v, Rule(cache), i, need);
      Take(cache, item, need, dataSize, i);
    }

    /** A search that found nothing: the victim goes, and the rest of the loop comes to the same. */
    method Retry(need: nat, ghost v: View, ghost o: Outcome<(View, nat)>) returns (ghost w: View)
      requires ShowsView(v) && Leads(v, Rule(cache), need, o) && Choose(v.cs, need, cache.best).None?
      modifies cache, cache.table, mem
      ensures ShowsView(w) && Leads(w, Rule(cache), need, o) && |Busy(w.cs)| < |Busy(v.cs)| && mem[..] == old(mem[..])
    {
      RoundIs(v, Rule(cache), need);
      MakeRoom(need);
      w := ViewOf(cache);
    }

    /** A chunk has been found, taken and booked. */
    ghost predicate Found(item: int, i: nat, o: Outcome<(View, nat)>, dataSize: nat)
      reads this, cache, cache.table
    {
      Fixed() && cache.Valid() && i < |cache.live| && item == cache.live[i] && HandsOut(o, i, dataSize)
    }

    /** The body of the loop: a search, and room is made when it finds nothing. */
    method Round(need: nat, dataSize: nat, ghost v: View, ghost o: Outcome<(View, nat)>)
      returns (item: int, ghost i: nat, ghost w: View)
      requires ShowsView(v) && Leads(v, Rule(cache), need, o) && need == Max(dataSize, cache.slab)
      modifies cache, cache.table, mem
      ensures item == NULL ==> ShowsView(w) && Leads(w, Rule(cache), need, o) && |Busy(w.cs)| < |Busy(v.cs)|
      ensures item != NULL ==> Found(item, i, o, dataSize)
      ensures mem[..] == old(mem[..])
    {
      item, i := cache.Search(need);
      w := v;
      if item != NULL {
        Settle(item, need, dataSize, i, v, o);
      } else {
        w := Retry(need, v, o);
      }
    }

    /** The loop, of a request that fits the table. */
    method FindHole(need: nat, dataSize: nat, ghost was: View, ghost o: Outcome<(View, nat)>) returns (item: int, ghost i: nat)
      requires ShowsView(was) && Leads(was, Rule(cache), need, o) && need == Max(dataSize, cache.slab)
      modifies cache, cache.table, mem
      ensures Found(item, i, o, dataSize) && mem[..] == old(mem[..])
    {
      ghost var v := was;
      item, i := NULL, 0;
      while item == NULL
        invariant item == NULL ==> ShowsView(v) && Leads(v, Rule(cache), need, o)
        invariant item != NULL ==> Found(item, i, o, dataSize)
        invariant mem[..] == old(mem[..])
        decreases if item == NULL then |Busy(v.cs)| + 1 else 0
      {
        item, i, v := Round(need, dataSize, v, o);
      }
    }

    /** diccionario_obtenerDireccion, on a request for which the loop gets through. NULL: larger than the table. */
    method FindPlace(dataSize: nat) returns (item: int, ghost i: nat)
      requires Valid()
      requires FitsTable(Conf(Rule(cache)), dataSize) ==> AllotV(ViewOf(cache), Rule(cache), Max(dataSize, cache.slab)).Ran?
      modifies cache, cache.table, mem
      ensures Fixed() && cache.Valid() && mem[..] == old(mem[..])
      ensures item == NULL <==> !FitsTable(Conf(Rule(cache)), dataSize)
      ensures item == NULL ==> ViewOf(cache) == old(ViewOf(cache))
      ensures item != NULL ==>
                && i < |cache.live| && item == cache.live[i]
                && HandsOut(AllotV(old(ViewOf(cache)), Rule(cache), Max(dataSize, cache.slab)), i, dataSize)
    {
      var need := Max(dataSize, cache.slab);
      if need > cache.total {
        return NULL, 0;
      }
      item, i := FindHole(need, dataSize, ViewOf(cache), AllotV(ViewOf(cache), Rule(cache), need));
    }

    // ---------- commands ----------

    /** A stored value of the key is deleted; false when there is none. */
    method Drop(key: string) returns (found: bool)
      requires Valid() && key != "" && CDrop(ViewOf(cache), key).Ran?
      modifies cache, cache.table
      ensures Valid() && Ran(ViewOf(cache)) == CDrop(old(ViewOf(cache)), key)
      ensures found <==> Find(old(cache.cs), key).Some?
    {
      CDropKeeps(ViewOf(cache), Rule(cache), key);
      FoundUsed(cache.cs, cache.slab, key);
      var it, i := cache.Lookup(key);
      if it == NULL {
        return false;
      }
      CarvedBlank(cache.cs, Rule(cache));
      assert RightAt(ViewOf(cache), i) && BackOk(cache.table[..], cache.live, i);
      var r, j := DynamicDictionary.Delete(cache, it, i);
      return true;
    }

    /** A whole set command: allocate, receive the data, store. One character behind the key is copied with it. */
    method DoSetCommand(key: string, behind: char, data: Bytes, flags: nat, now: nat) returns (r: Reply)
      requires Valid() && OpOk(Set(key, data, flags, now)) && CStep(Now(), Rule(cache), Set(key, data, flags, now)).Ran?
      modifies cache, cache.table, mem
      ensures Valid() && Ran((Now(), r)) == CStep(old(Now()), Rule(cache), Set(key, data, flags, now))
    {
      CDropKeeps(ViewOf(cache), Rule(cache), key);
      DropKeyKeeps(cache.cs, Rule(cache), key);
      var found := Drop(key);
      r := Put(key, behind, data, flags, now);
    }

    /** What follows once the key has no stored value. */
    method Put(key: string, behind: char, data: Bytes, flags: nat, now: nat) returns (r: Reply)
      requires Valid() && OpOk(Set(key, data, flags, now)) && forall c :: c in cache.cs && c.used ==> c.key != key
      requires FitsTable(Conf(Rule(cache)), |data|) ==> CPut(ViewOf(cache), mem[..], Rule(cache), key, data, flags, now).Ran?
      modifies cache, cache.table, mem
      ensures Valid()
      ensures if FitsTable(Conf(Rule(cache)), |data|)
              then Ran((Now(), r)) == CPut(old(ViewOf(cache)), old(mem[..]), Rule(cache), key, data, flags, now)
              else Now() == old(Now()) && r == TooBig
    {
      ghost var t, at := ViewOf(cache), 0;
      if FitsTable(Conf(Rule(cache)), |data|) {
        t, at := PutIs(t, mem[..], Rule(cache), key, data, flags, now);
      }
      var item, i := FindPlace(|data|);
      if item == NULL {
        return TooBig;
      }
      Fill(item, key, behind, data, flags, now, i, t);
      return Stored;
    }

    /** The item gets its key and flags, its data, and is stored. */
    method Fill(item: nat, key: string, behind: char, data: Bytes, flags: nat, now: nat, ghost i: nat, ghost t: View)
      requires Fixed() && cache.Valid() && i < |cache.live| && item == cache.live[i] && key != "" && KeyFits(key)
      requires i < |t.cs| && ViewOf(cache) == Booked(t, i, |data|) && t.cs[i] == Blank(t.cs[i].addr, t.cs[i].size)
      requires t.cs[i].addr + |data| <= mem.Length
      requires forall j :: 0 <= j < |t.cs| && j != i ==> !t.cs[j].Named(key)
      modifies cache.table, cache`cs, mem
      ensures Fixed() && cache.Valid() && ViewOf(cache) == StoreV(t, i, key, |data|, flags, now)
      ensures mem[..] == WriteAt(old(mem[..]), t.cs[i].addr, data)
    {
      StampedIs(t, i, key, |data|, flags, now);
      NameItem(item, key, behind, flags, i);
      assert cache.table[item].chunk == cache.cs[i];
      WriteData(mem, cache.table[item].chunk.addr, data);
      FindReserved(cache.cs, i, key);
      Store(key, now, i);
    }

    /** The fields justice_engine_allocate fills in. */
    method NameItem(item: nat, key: string, behind: char, flags: nat, ghost i: nat)
      requires cache.Valid() && i < |cache.live| && item == cache.live[i] && KeyFits(key)
      modifies cache.table, cache`cs
      ensures cache.Valid() && ViewOf(cache) == Named(old(ViewOf(cache)), i, key, flags)
    {
      var kept := KeyBuffer.BufferKey(key, behind);
      assert cache.table[item].chunk == cache.cs[i];
      cache.PutChunk(item, cache.table[item].chunk.(nkey := |key|, key := kept, flags := flags), i);
    }

    /** justice_engine_store, of a reserved key. */
    method Store(key: string, now: nat, ghost i: nat)
      requires cache.Valid() && Find(cache.cs, key) == Some(i)
      modifies cache.table, cache`cs
      ensures cache.Valid() && i < |old(cache.cs)| && ViewOf(cache) == Stamped(old(ViewOf(cache)), i, now)
    {
      var it, k := cache.Lookup(key);
      assert cache.table[it].chunk == cache.cs[k];
      cache.PutChunk(it, cache.table[it].chunk.(used := true, hour := now), k);
    }

    /** justice_engine_get, and what memcached then asks for. */
    method DoGetCommand(key: string, now: nat) returns (r: Reply)
      requires Valid() && key != "" && now > 0
      modifies cache, cache.table
      ensures Valid() && (Now(), r) == CGet(old(Now()), Rule(cache), key, now)
    {
      CGetIs(Now(), Rule(cache), key, now);
      var it, i := cache.Lookup(key);
      assert it != NULL ==> cache.table[it].chunk == cache.cs[i];
      if it == NULL || !cache.table[it].chunk.used {
        return Miss;
      }
      r := ItemInfo(it, i);
      if cache.lru {
        Touch(it, now, i);
      }
    }

    method Touch(it: nat, now: nat, ghost i: nat)
      requires cache.Valid() && i < |cache.live| && it == cache.live[i]
      modifies cache.table, cache`cs
      ensures cache.Valid() && ViewOf(cache) == Touched(old(ViewOf(cache)), i, now)
    {
      assert cache.table[it].chunk == cache.cs[i];
      cache.PutChunk(it, cache.table[it].chunk.(hour := now), i);
    }

    /** justice_engine_get_item_info: where the data is, how long it is, and its flags. */
    method ItemInfo(it: nat, ghost i: nat) returns (r: Reply)
      requires cache.Valid() && i < |cache.live| && it == cache.live[i]
      requires cache.cs[i].addr + cache.cs[i].dataSize <= mem.Length
      ensures r == Hit(BytesOf(mem[..], cache.cs[i]), cache.cs[i].flags)
    {
      var c := cache.table[it].chunk;
      assert c == cache.cs[i];
      return Hit(mem[c.addr..c.addr + c.dataSize], c.flags);
    }

    /** justice_engine_item_delete. */
    method DoDeleteCommand(key: string) returns (r: Reply)
      requires Valid() && key != "" && CStep(Now(), Rule(cache), Delete(key)).Ran?
      modifies cache, cache.table
      ensures Valid() && Ran((Now(), r)) == CStep(old(Now()), Rule(cache), Delete(key))
    {
      var found := Drop(key);
      return if found then Deleted else Miss;
    }

    /** justice_engine_flush. */
    method DoFlushCommand() returns (r: Reply)
      requires Valid() && CStep(Now(), Rule(cache), Flush).Ran?
      modifies cache, cache.table
      ensures Valid() && Ran((Now(), r)) == CStep(old(Now()), Rule(cache), Flush)
    {
      FlushVKeeps(ViewOf(cache), Rule(cache), 0);
      FlushAll(cache);
      return Flushed;
    }
  }

  function Touched(v: View, i: nat, now: nat): View
    requires i < |v.cs|
  {
    v.(cs := v.cs[i := v.cs[i].(hour := now)])
  }

  /** What a get comes to. */
  lemma CGetIs(s: CState, r: Rules, k: string, now: nat)
    requires CGood(s, r) && k != "" && now > 0
    ensures CGood(CGet(s, r, k, now).0, r)
    ensures match Find(s.view.cs, k)
      case None => CGet(s, r, k, now) == (s, Miss)
      case Some(i) =>
        && s.view.cs[i].used && s.view.cs[i].addr + s.view.cs[i].dataSize <= |s.mem|
        && CGet(s, r, k, now) == (s.(view := if r.lru then Touched(s.view, i, now) else s.view),
                                  Hit(BytesOf(s.mem, s.view.cs[i]), s.view.cs[i].flags))
  {
    CGetKeeps(s, r, k, now);
    FoundUsed(s.view.cs, r.slab, k);
    if Find(s.view.cs, k).Some? {
      var i := Find(s.view.cs, k).value;
      TiledBounds(s.view.cs, r.total, i);
      assert s.view.cs[i] in s.view.cs;
    }
  }

  /** What a set that gets through comes to, once the key has no stored value. */
  lemma PutIs(v: View, mem: Bytes, r: Rules, k: string, data: Bytes, flags: nat, now: nat) returns (t: View, i: nat)
    requires VGood(v, r) && |mem| == r.total && FitsTable(Conf(r), |data|) && k != "" && now > 0
    requires (forall c :: c in v.cs && c.used ==> c.key != k) && CPut(v, mem, r, k, data, flags, now).Ran?
    ensures AllotV(v, r, Max(|data|, r.slab)) == Ran((t, i)) && i < |t.cs| && t.cs[i] == Blank(t.cs[i].addr, t.cs[i].size)
    ensures t.cs[i].addr + |data| <= |mem| && forall j :: 0 <= j < |t.cs| && j != i ==> !t.cs[j].Named(k)
    ensures VGood(StoreV(t, i, k, |data|, flags, now), r)
    ensures CPut(v, mem, r, k, data, flags, now)
            == Ran((CState(StoreV(t, i, k, |data|, flags, now), WriteAt(mem, t.cs[i].addr, data)), Stored))
  {
    CPutKeeps(v, mem, r, k, data, flags, now);
    AllotVKeeps(v, r, Max(|data|, r.slab), mem);
    var p := AllotV(v, r, Max(|data|, r.slab)).value;
    t, i := p.0, p.1;
    TiledBounds(t.cs, r.total, i);
    forall j | 0 <= j < |t.cs| && j != i ensures !t.cs[j].Named(k) {
      assert t.cs[j] in t.cs && GoodChunk(t.cs[j], r.slab);
    }
  }

  /** A loop that gets through evicts here, and goes on from there. */
  lemma RoundIs(v: View, r: Rules, need: nat)
    requires VGood(v, r) && r.slab <= need <= r.total && Choose(v.cs, need, r.best).None? && AllotV(v, r, need).Ran?
    ensures !(Counted(v.due) == 0 && r.total - v.current >= need)
    ensures Victim(v.cs).Some? && RightAt(v, Victim(v.cs).value)
    ensures var w := Remove(v.(due := Counted(v.due)), Victim(v.cs).value).0;
            VGood(w, r) && AllotV(w, r, need) == AllotV(v, r, need) && |Busy(w.cs)| < |Busy(v.cs)|
  {
    HoleOrVictim(v.cs, r, need);
    var u, i := v.(due := Counted(v.due)), Victim(v.cs).value;
    assert RightAt(u, i) <==> RightAt(v, i);
    assert RightAt(u, i);
    UnusedSame(v, u);
    RemoveKeeps(u, r, i);
    DiscardCount(v.cs, r, i);
  }

  lemma UnusedSame(v: View, u: View)
    requires UnusedRightBut(v, -1) && u.cs == v.cs && u.live == v.live && u.back == v.back
    ensures UnusedRightBut(u, -1)
  {
    forall k | 0 <= k < |u.cs| && !u.cs[k].used ensures RightAt(u, k) { assert RightAt(v, k); }
  }
}
