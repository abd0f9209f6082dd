/** What gets answer after a compaction as coded, which moves keys and data but not nkey and flags. */
module CodedGets {
  import opened Basics
  import opened Chunks
  import opened BuddyCache
  import opened LossyMap
  import opened DynamicSpec
  import opened CompactionSpec
  import opened DynamicRun

  /** The chunk holds the bytes last set under the key it carries. */
  ghost predicate HoldsValue(c: Chunk, mem: Bytes, h: History) {
    c.used && c.key in h && c.addr + c.dataSize <= |mem| && BytesOf(mem, c) == h[c.key].data
  }

  /** The flags are those of some item with a key of this length. */
  ghost predicate FlagsOfLength(flags: nat, h: History, n: nat) {
    exists x :: x in h && |x| == n && flags == h[x].flags
  }

  lemma {:induction false} UsedPrefix(t: seq<Chunk>, i: nat)
    requires i < |t| && forall j :: 0 <= j <= i ==> t[j].used
    ensures i < |UsedOf(t)| && UsedOf(t)[i] == t[i]
    decreases i
  {
    if i > 0 { UsedPrefix(t[1..], i - 1); }
  }

  /** Moved or not, a stored chunk still holds the bytes set under the key it carries. */
  lemma StoredBytes(cs: seq<Chunk>, mem: Bytes, r: Rules, h: History, i: nat)
    requires Carved(cs, r) && |mem| == r.total && Holds(State(cs, mem), Conf(r), h)
    requires i < |Compact(cs, false)| && Compact(cs, false)[i].used
    ensures HoldsValue(Compact(cs, false)[i], CompactBytes(cs, mem, false), h)
  {
    CleanNoneReserved(cs, r.slab);
    CompactGeometry(cs, r.total, false);
    CompactPayloads(cs, mem, false);
    var t, out := Compact(cs, false), CompactBytes(cs, mem, false);
    UsedPrefix(t, i);
    var o := UsedOf(cs)[i];
    assert SameItem(UsedOf(t)[i], o, false) && SamePayload(UsedOf(t)[i], out, o, mem);
    assert o in UsedOf(cs);
    UsedMembers(cs, o);
    assert Faithful(o, mem, Conf(r), h);
    SameBytes(t[i], out, o, mem);
  }

  lemma SameBytes(c: Chunk, mc: Bytes, o: Chunk, mo: Bytes)
    requires SamePayload(c, mc, o, mo) && c.dataSize == o.dataSize <= o.size
    ensures BytesOf(mc, c) == BytesOf(mo, o)
  {
    assert mc[c.addr..c.End()][..c.dataSize] == mc[c.addr..c.addr + c.dataSize];
    assert mo[o.addr..o.End()][..o.dataSize] == mo[o.addr..o.addr + o.dataSize];
  }

  /** The flags a moved chunk answers with are those of the item moved before it. */
  lemma MovedFlags(cs: seq<Chunk>, mem: Bytes, r: Rules, h: History, p: nat)
    requires Carved(cs, r) && |mem| == r.total && Holds(State(cs, mem), Conf(r), h) && p < |MovedItems(cs)|
    ensures FlagsOfLength(MovedItems(cs)[p].flags, h, |MovedItems(cs)[p].key|)
  {
    var x := MovedItems(cs)[p];
    MovedIsGood(cs, r.slab, p);
    assert Faithful(x, mem, Conf(r), h);
  }

  lemma MovedUsed(cs: seq<Chunk>, slab: nat, p: nat)
    requires Clean(cs, slab) && p < |MovedItems(cs)|
    ensures var i := FirstFree(cs) + p;
            i < |Compact(cs, false)| && Compact(cs, false)[i].used
  {
    var s := CompactParts(cs, slab);
    assert Compact(cs, false)[FirstFree(cs) + p] == s[p];
  }

  /**
    What the chunk found answers: the value of its own key, which is the key asked for unless the
    chunk moved; a chunk that moved may have a longer key that begins with the one asked for, and
    has the flags of an item whose key is as long as that.
    */
  ghost predicate Answered(c: Chunk, kept: bool, mem: Bytes, h: History, k: string) {
    && HoldsValue(c, mem, h)
    && (if kept then c.key == k && c.flags == h[k].flags
        else |k| <= |c.key| && c.key[..|k|] == k && FlagsOfLength(c.flags, h, |k|))
  }

  lemma KeptAnswer(cs: seq<Chunk>, mem: Bytes, r: Rules, h: History, k: string, i: nat)
    requires Carved(cs, r) && |mem| == r.total && Holds(State(cs, mem), Conf(r), h) && k != ""
    requires i < FirstFree(cs) && Find(cs[..FirstFree(cs)], k) == Some(i)
    requires i < |Compact(cs, false)| && Compact(cs, false)[i] == cs[i]
    ensures Answered(Compact(cs, false)[i], true, CompactBytes(cs, mem, false), h, k)
  {
    assert cs[..FirstFree(cs)][i] == cs[i] && cs[i] in cs && GoodChunk(cs[i], r.slab);
    assert !cs[i].Free();
    assert Faithful(cs[i], mem, Conf(r), h);
    StoredBytes(cs, mem, r, h, i);
  }

  lemma MovedAnswer(cs: seq<Chunk>, mem: Bytes, r: Rules, h: History, k: string, i: nat, p: nat)
    requires Carved(cs, r) && |mem| == r.total && Holds(State(cs, mem), Conf(r), h)
    requires p < |MovedItems(cs)| && i == FirstFree(cs) + p < |Compact(cs, false)| && Answers(MovedItems(cs), p, k)
    requires Compact(cs, false)[i].key == MovedItems(cs)[p].key
    requires Compact(cs, false)[i].flags == MovedItems(cs)[p - 1].flags
    ensures Answered(Compact(cs, false)[i], false, CompactBytes(cs, mem, false), h, k)
  {
    var c := Compact(cs, false)[i];
    assert HoldsValue(c, CompactBytes(cs, mem, false), h) by {
      MovedUsed(cs, r.slab, p);
      StoredBytes(cs, mem, r, h, i);
    }
    assert FlagsOfLength(c.flags, h, |k|) by { MovedFlags(cs, mem, r, h, p - 1); }
  }

  /**
    What a get finds after a compaction as coded of a faithful state: nothing; a chunk that did
    not move, with the value and the flags set under its key; or a chunk that moved, with the
    value of an item whose key begins with the one asked for, and with the flags of an item
    whose key is as long as that.
    */
  lemma GetAfterCompaction(cs: seq<Chunk>, mem: Bytes, r: Rules, h: History, k: string)
    requires Carved(cs, r) && |mem| == r.total && Holds(State(cs, mem), Conf(r), h) && k != ""
    ensures Find(Compact(cs, false), k).Some? ==>
              var i := Find(Compact(cs, false), k).value;
              Answered(Compact(cs, false)[i], i < FirstFree(cs), CompactBytes(cs, mem, false), h, k)
  {
    FoundAfterCompaction(cs, r.slab, k);
    var f, t := FirstFree(cs), Compact(cs, false);
    if Find(t, k).Some? {
      var i := Find(t, k).value;
      if i < f { KeptAnswer(cs, mem, r, h, k, i); } else { MovedAnswer(cs, mem, r, h, k, i, i - f); }
    }
  }
}
