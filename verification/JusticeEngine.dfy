/** The engine: the table under the buddy scheme, the arena, and the commands memcached calls. */
module JusticeEngine {
  import opened Basics
  import opened Chunks
  import opened BuddySpec
  import opened BuddyCache
  import opened LossyMap
  import opened Dictionary
  import KeyBuffer
  import Buddy = BuddyDictionary

  class Engine {
    const cache: Dict
    const mem: array<bv8>

    /** What holds between commands: nothing reserved, and table_current_size counts the stored data. */
    ghost predicate Valid()
      reads this, cache, cache.table
    {
      && Fixed() && cache.Linked() && Quiet(cache.cs, Cfg())
      && cache.current == SumData(cache.cs)
    }

    ghost predicate Fixed()
      reads cache
    {
      && cache.slab >= 1 && cache.table.Length == cache.total / cache.slab && mem.Length == cache.total
      && mem as object != cache.table
    }

    ghost function Cfg(): Config { Buddy.Cfg(cache) }

    /** The engine as the state of the lossy map. */
    ghost function Now(): State
      reads cache, mem
    {
      State(cache.cs, mem[..])
    }

    constructor (total: nat, slab: nat, lru: bool, best: bool)
      requires IsPow2(total) && 1 <= slab <= total
      ensures Valid() && fresh(cache) && fresh(cache.table) && fresh(mem)
      ensures Cfg() == Config(total, slab, lru, best)
      ensures Now() == Init(Cfg(), mem[..])
    {
      cache := new Dict(total, slab, lru, best, -1);
      mem := new bv8[PowerTwoLow(total)];
      new;
      ArenaCoversTable(total);
      EmptySum(total);
      InitGood(Cfg(), mem[..]);
    }

    /** justice_engine_allocate. NULL is ENGINE_E2BIG. */
    method Reserve(key: string, behind: char, nbytes: nat, flags: nat) returns (item: int, ghost i: nat)
      requires Valid() && key != "" && KeyFits(key)
      modifies cache, cache.table
      ensures Fixed() && cache.Linked() && cache.current == SumData(cache.cs)
      ensures cache.cs == Allocate(old(cache.cs), Cfg(), key, nbytes, flags).0
      ensures Allocate(old(cache.cs), Cfg(), key, nbytes, flags).1 == (if item == NULL then None else Some(i))
      ensures item != NULL ==> i < |cache.live| && item == cache.live[i]
      ensures item == NULL ==> Valid()
    {
      DropOldQuiet(cache.cs, Cfg(), key);
      DropStored(key);
      item, i := PlaceFor(key, behind, nbytes, flags);
    }

    /** Find room and, if there is some, fill in the item's fields. */
    method PlaceFor(key: string, behind: char, nbytes: nat, flags: nat) returns (item: int, ghost i: nat)
      requires Valid() && key != "" && KeyFits(key)
      modifies cache, cache.table
      ensures Fixed() && cache.Linked() && cache.current == SumData(cache.cs)
      ensures item == NULL <==> !FitsTable(Cfg(), nbytes)
      ensures item == NULL ==> Valid() && cache.cs == old(cache.cs)
      ensures item != NULL ==>
                && i < |cache.live| && item == cache.live[i]
                && var (r, k) := AllocIn(old(cache.cs), Cfg(), Max(nbytes, cache.slab));
                   k == i < |r| && cache.cs == ReserveAt(r, i, key, nbytes, flags)
    {
      ghost var was := cache.cs;
      item, i := Buddy.FindPlace(cache, nbytes);
      if item != NULL {
        AllocKeeps(was, Cfg(), Max(nbytes, cache.slab));
        Book(item, key, behind, nbytes, flags, i, AllocIn(was, Cfg(), Max(nbytes, cache.slab)).0);
      }
    }

    /** A stored value of the key is deleted first. */
    method DropStored(key: string)
      requires Valid() && key != ""
      modifies cache, cache.table
      ensures Valid() && cache.cs == DropOld(old(cache.cs), key)
    {
      DropOldQuiet(cache.cs, Cfg(), key);
      var element, e := cache.Lookup(key);
      assert element != NULL ==> cache.table[element].chunk == cache.cs[e];
      if element != NULL && cache.table[element].chunk.used {
        ghost var j := Erase(element, e);
      }
    }

    /** The fields justice_engine_allocate fills in once it has an element. */
    method Book(item: nat, key: string, behind: char, nbytes: nat, flags: nat, ghost i: nat, ghost r: seq<Chunk>)
      requires cache.Linked() && i < |cache.live| && item == cache.live[i]
      requires i < |r| && r[i].dataSize == 0 && KeyFits(key)
      requires cache.cs == r[i := r[i].(dataSize := nbytes)] && cache.current - nbytes == SumData(r)
      modifies cache, cache.table
      ensures cache.Linked() && cache.current == SumData(cache.cs) && cache.live == old(cache.live)
      ensures cache.cs == ReserveAt(r, i, key, nbytes, flags)
    {
      var kept := KeyBuffer.BufferKey(key, behind);
      assert cache.table[item].chunk == cache.cs[i];
      cache.PutChunk(item, cache.table[item].chunk.(nkey := |key|, flags := flags, key := kept), i);
      assert cache.cs == r[i := cache.cs[i]];
      UpdateSum(r, i, cache.cs[i]);
    }

    /** Delete the chunk at position i and keep everything a command may rely on. */
    method Erase(it: nat, ghost i: nat) returns (ghost j: nat)
      requires Valid() && i < |cache.live| && it == cache.live[i]
      modifies cache, cache.table
      ensures Valid() && (cache.cs, j) == Release(old(cache.cs), i)
      ensures j < |cache.live| && it == cache.live[j]
    {
      Buddy.QuietFreeBlank(cache.cs, Cfg());
      ReleaseQuiet(cache.cs, Cfg(), i);
      ReleaseSum(cache.cs, Cfg(), i);
      j := Buddy.Delete(cache, it, i);
    }

    /** justice_engine_store: false is ENGINE_NOT_STORED. */
    method Store(item: nat, now: nat, ghost i: nat) returns (stored: bool)
      requires Fixed() && cache.Linked() && i < |cache.live| && item == cache.live[i]
      requires cache.cs[i].nkey == |cache.cs[i].key|
      modifies cache, cache.table
      ensures Fixed() && cache.Linked() && cache.current == old(cache.current)
      ensures cache.cs == StoreKey(old(cache.cs), old(cache.cs)[i].key, now)
      ensures stored == Find(old(cache.cs), old(cache.cs)[i].key).Some?
    {
      assert cache.table[item].chunk == cache.cs[i];
      var it, k := cache.Lookup(cache.table[item].chunk.key);
      if it != NULL {
        assert cache.table[it].chunk == cache.cs[k];
        cache.PutChunk(it, cache.table[it].chunk.(used := true, hour := now), k);
        return true;
      }
      return false;
    }

    /** A whole set command: reserve, receive the data into the chunk, store. One character behind the key is copied with it. */
    method DoSetCommand(key: string, behind: char, data: Bytes, flags: nat, now: nat) returns (r: Reply)
      requires Valid() && key != "" && KeyFits(key) && now > 0
      modifies cache, cache.table, mem
      ensures Valid() && (Now(), r) == DoSet(old(Now()), Cfg(), key, data, flags, now)
    {
      ghost var cs := cache.cs;
      var item, i := Reserve(key, behind, |data|, flags);
      if item == NULL {
        return TooBig;
      }
      AllocateKeeps(cs, Cfg(), key, |data|, flags);
      TiledBounds(cache.cs, cache.total, i);
      Receive(item, key, data, flags, now, i, cs);
      return Stored;
    }

    /** The data of a reserved item arrives, and the item is stored. */
    method Receive(item: nat, key: string, data: Bytes, flags: nat, now: nat, ghost i: nat, ghost before: seq<Chunk>)
      requires Fixed() && cache.Linked() && cache.current == SumData(cache.cs) && GoodConfig(Cfg())
      requires key != "" && now > 0 && AllocatedAt(before, cache.cs, Cfg(), i, key, |data|, flags)
      requires i < |cache.live| && item == cache.live[i] && cache.cs[i].addr + |data| <= mem.Length
      modifies cache, cache.table, mem
      ensures Valid() && cache.cs == StoreKey(old(cache.cs), key, now)
      ensures mem[..] == WriteAt(old(mem[..]), old(cache.cs)[i].addr, data)
    {
      ghost var cs := cache.cs;
      assert cache.table[item].chunk == cs[i];
      WriteData(mem, cache.table[item].chunk.addr, data);
      StoredQuiet(before, cs, Cfg(), i, key, |data|, flags, now);
      var stored := Store(item, now, i);
      UpdateSum(cs, i, cache.cs[i]);
    }

    /** justice_engine_get, and what memcached then asks for. */
    method DoGetCommand(key: string, now: nat) returns (r: Reply)
      requires Valid() && key != "" && now > 0
      modifies cache, cache.table
      ensures Valid() && (Now(), r) == DoGet(old(Now()), Cfg(), key, now)
    {
      GetIs(Now(), Cfg(), key, now);
      var it, i := cache.Lookup(key);
      assert it != NULL ==> cache.table[it].chunk == cache.cs[i];
      if it == NULL || !cache.table[it].chunk.used {
        return Miss;
      }
      r := Serve(it, now, i);
    }

    /** An item that is found is used now, and its data handed out. */
    method Serve(it: nat, now: nat, ghost i: nat) returns (r: Reply)
      requires Valid() && now > 0 && i < |cache.live| && it == cache.live[i] && cache.cs[i].used
      requires cache.cs[i].addr + cache.cs[i].dataSize <= mem.Length
      modifies cache, cache.table
      ensures Valid() && r == Hit(BytesOf(mem[..], old(cache.cs)[i]), old(cache.cs)[i].flags)
      ensures cache.cs == if cache.lru then old(cache.cs)[i := old(cache.cs)[i].(hour := now)] else old(cache.cs)
    {
      if cache.lru {
        TouchHour(it, now, i);
      }
      r := ItemInfo(it, i);
    }

    /** justice_engine_get_item_info: where the data is, how long it is, and its flags. */
    method ItemInfo(it: nat, ghost i: nat) returns (r: Reply)
      requires Valid() && i < |cache.live| && it == cache.live[i] && cache.cs[i].used
      ensures cache.cs[i].addr + cache.cs[i].dataSize <= mem.Length
      ensures r == Hit(BytesOf(mem[..], cache.cs[i]), cache.cs[i].flags)
    {
      var c := cache.table[it].chunk;
      TiledBounds(cache.cs, cache.total, i);
      assert c == cache.cs[i] && c in cache.cs;
      return Hit(mem[c.addr..c.addr + c.dataSize], c.flags);
    }

    method TouchHour(it: nat, now: nat, ghost i: nat)
      requires Valid() && now > 0 && i < |cache.live| && it == cache.live[i] && cache.cs[i].used
      modifies cache, cache.table
      ensures Valid() && cache.cs == old(cache.cs)[i := old(cache.cs)[i].(hour := now)] && cache.live == old(cache.live)
    {
      ghost var cs := cache.cs;
      assert cache.table[it].chunk == cs[i];
      var c := cache.table[it].chunk.(hour := now);
      TouchKeeps(cs, Cfg(), i, c, now);
      cache.PutChunk(it, c, i);
    }

    /** justice_engine_item_delete. */
    method DoDeleteCommand(key: string) returns (r: Reply)
      requires Valid() && key != ""
      modifies cache, cache.table
      ensures Valid() && (Now(), r) == DoDelete(old(Now()), key)
    {
      var it, i := cache.Lookup(key);
      if it == NULL {
        return Miss;
      }
      ghost var j := Erase(it, i);
      return Deleted;
    }

    /** One node of the walk: a chunk with a key is deleted; then on to the next node. */
    method FlushNext(item: nat, ghost i: nat) returns (next: int, ghost k: nat)
      requires Valid() && i < |cache.live| && item == cache.live[i]
      modifies cache, cache.table
      ensures Valid() && 0 < k <= |cache.live| && next == At(cache.live, k)
      ensures |cache.live| - k < old(|cache.live|) - i
      ensures FlushFrom(cache.cs, k) == FlushFrom(old(cache.cs), i)
    {
      assert cache.table[item].chunk == cache.cs[i];
      ghost var j := i;
      if cache.table[item].chunk.nkey != 0 {
        CoalesceTail(cache.cs[i := cache.cs[i].Cleared()], i);
        j := Erase(item, i);
      }
      assert NextOk(cache.table[..], cache.live, j);
      next, k := cache.table[item].next, j + 1;
    }

    /** justice_engine_flush: diccionario_limpiar over the whole list. */
    method DoFlushCommand() returns (r: Reply)
      requires Valid()
      modifies cache, cache.table
      ensures Valid() && (Now(), r) == Step(old(Now()), Cfg(), Flush)
      ensures cache.cs == [Blank(0, cache.total)] && cache.current == 0
    {
      FlushEmpties(cache.cs, Cfg());
      var item := cache.elements;
      ghost var i: nat := 0;
      while item != NULL
        invariant Valid() && i <= |cache.live| && item == At(cache.live, i)
        invariant FlushFrom(cache.cs, i) == FlushFrom(old(cache.cs), 0)
        decreases |cache.live| - i
      {
        item, i := FlushNext(item, i);
      }
      EmptySum(cache.total);
      return Flushed;
    }
  }

  lemma TouchKeeps(cs: seq<Chunk>, g: Config, i: nat, c: Chunk, now: nat)
    requires Quiet(cs, g) && i < |cs| && cs[i].used && now > 0 && c == cs[i].(hour := now)
    ensures Quiet(cs[i := c], g) && SumData(cs[i := c]) == SumData(cs)
  {
    TouchQuiet(cs, g, i, now);
    UpdateSum(cs, i, c);
  }
}
