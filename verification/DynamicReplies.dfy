/** What a get and a delete answer under dynamic partitions, in every good state. */
module DynamicReplies {
  import opened Basics
  import opened Chunks
  import opened BuddyCache
  import opened LossyMap
  import opened DynamicSpec
  import opened DynamicRun
  import opened Dictionary
  import opened CodedRun

  /** The list holds these bytes and flags under the key. */
  ghost predicate Holding(cs: seq<Chunk>, mem: Bytes, k: string, data: Bytes, flags: nat) {
    exists c :: c in cs && c.used && c.key == k && c.addr + c.dataSize <= |mem| && BytesOf(mem, c) == data && c.flags == flags
  }

  lemma KeyFound(cs: seq<Chunk>, r: Rules, k: string)
    requires Carved(cs, r) && k != ""
    ensures match Find(cs, k)
      case None => !HasKey(cs, k)
      case Some(i) => cs[i].used && cs[i].key == k && HasKey(cs, k) && forall c :: c in cs && c.used && c.key == k ==> c == cs[i]
  {
    FoundUsed(cs, r.slab, k);
    match Find(cs, k)
    case None =>
      forall c | c in cs && c.used ensures c.key != k {
        var j :| 0 <= j < |cs| && cs[j] == c;
        assert GoodChunk(c, r.slab) && !cs[j].Named(k);
      }
    case Some(i) => assert cs[i] in cs;
  }

  /** A get hits exactly when the key is stored, with what is stored; it changes nothing but, under LRU, that item's hour. */
  lemma DGetSays(s: DState, r: Rules, k: string, now: nat)
    requires DGood(s, r) && k != ""
    ensures var (t, a) := DGet(s, r, k, now);
            && (HasKey(s.cs, k) <==> a.Hit?) && (a.Hit? || a == Miss)
            && (a.Hit? ==> Holding(s.cs, s.mem, k, a.data, a.flags))
            && t.mem == s.mem && t.due == s.due && |t.cs| == |s.cs|
            && forall i :: 0 <= i < |s.cs| ==>
                 t.cs[i] == if r.lru && s.cs[i].used && s.cs[i].key == k then s.cs[i].(hour := now) else s.cs[i]
  {
    KeyFound(s.cs, r, k);
    var t := DGet(s, r, k, now).0;
    if Find(s.cs, k).Some? {
      var i := Find(s.cs, k).value;
      assert s.cs[i] in s.cs;
      TiledBounds(s.cs, r.total, i);
      forall j | 0 <= j < |s.cs| && j != i ensures !(s.cs[j].used && s.cs[j].key == k) { Alone(s.cs, r, k, i, j); }
    } else {
      forall j | 0 <= j < |s.cs| ensures !(s.cs[j].used && s.cs[j].key == k) { assert s.cs[j] in s.cs; }
    }
  }

  lemma Alone(cs: seq<Chunk>, r: Rules, k: string, i: nat, j: nat)
    requires Carved(cs, r) && k != "" && Find(cs, k) == Some(i) && i < |cs| && j < |cs| && j != i
    ensures !(cs[j].used && cs[j].key == k)
  {
    assert cs[j] in cs && cs[i] in cs && GoodChunk(cs[i], r.slab) && GoodChunk(cs[j], r.slab);
    if j < i { TiledOrdered(cs, r.total, j, i); } else { TiledOrdered(cs, r.total, i, j); }
    KeyFound(cs, r, k);
  }

  /** A delete says Deleted exactly when the key is stored, and takes away that item and no other. */
  lemma DDeleteSays(s: DState, r: Rules, k: string)
    requires DGood(s, r) && r.frequency != 0 && r.frequency != 1 && k != ""
    ensures var (t, a) := DStep(s, r, Delete(k));
            && (a == Deleted <==> HasKey(s.cs, k)) && (a == Deleted || a == Miss)
            && t.mem == s.mem && t.due == s.due
            && forall c: Chunk :: c.used ==> (c in t.cs <==> c in s.cs && c.key != k)
  {
    KeyFound(s.cs, r, k);
    match Find(s.cs, k)
    case None => forall c | c in s.cs && c.used ensures c.key != k { }
    case Some(i) =>
      DiscardKeeps(s.cs, r, i);
  }

  /** The same as coded, for every frequency. */
  lemma CGetSays(s: CState, r: Rules, k: string, now: nat)
    requires CGood(s, r) && k != "" && now > 0
    ensures CStep(s, r, Get(k, now)).Ran?
    ensures var (t, a) := CStep(s, r, Get(k, now)).value;
            && (HasKey(s.view.cs, k) <==> a.Hit?) && (a.Hit? || a == Miss)
            && (a.Hit? ==> Holding(s.view.cs, s.mem, k, a.data, a.flags))
            && t == s.(view := s.view.(cs := t.view.cs)) && |t.view.cs| == |s.view.cs|
            && forall i :: 0 <= i < |s.view.cs| ==>
                 t.view.cs[i] == if r.lru && s.view.cs[i].used && s.view.cs[i].key == k then s.view.cs[i].(hour := now)
                                 else s.view.cs[i]
  {
    DGetSays(Plain(s), r, k, now);
  }

  /** As coded a delete stops exactly when the item's node has a wrong `prev`, and otherwise answers and does the same. */
  lemma CDeleteSays(s: CState, r: Rules, k: string)
    requires CGood(s, r) && k != ""
    ensures match CStep(s, r, Delete(k))
      case Ran((t, a)) =>
        && (a == Deleted <==> HasKey(s.view.cs, k)) && (a == Deleted || a == Miss)
        && t.mem == s.mem && t.view.due == s.view.due
        && (forall c: Chunk :: c.used ==> (c in t.view.cs <==> c in s.view.cs && c.key != k))
        && (forall i :: 0 <= i < |s.view.cs| && s.view.cs[i].used && s.view.cs[i].key == k ==> RightAt(s.view, i))
      case DeletesStale(w, i) =>
        w == s.view && i < |s.view.cs| && s.view.cs[i].used && s.view.cs[i].key == k && !RightAt(s.view, i)
      case Compacts(_, _) => false
  {
    var cs := s.view.cs;
    KeyFound(cs, r, k);
    CDropKeeps(s.view, r, k);
    match Find(cs, k)
    case None => forall i | 0 <= i < |cs| ensures !(cs[i].used && cs[i].key == k) { assert cs[i] in cs; }
    case Some(i) =>
      DiscardKeeps(cs, r, i);
      forall j | 0 <= j < |cs| && j != i ensures !(cs[j].used && cs[j].key == k) { Alone(cs, r, k, i, j); }
  }
}
