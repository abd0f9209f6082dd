/** What a set costs under the buddy scheme: nothing while a chunk fits, else one victim after another until one does. */
module SetLosses {
  import opened Basics
  import opened Chunks
  import opened BuddySpec
  import opened BuddyCache
  import opened LossyMap

  ghost predicate Room(cs: seq<Chunk>, need: nat) {
    exists i :: 0 <= i < |cs| && cs[i].Fits(need)
  }

  /** A stretch of the list from j on has become one free chunk: what fitted still does. */
  lemma RoomAround(cs: seq<Chunk>, r: seq<Chunk>, total: nat, j: nat, need: nat)
    requires Tiled(cs, total) && Tiled(r, total) && j < |r| <= |cs| && r[j].Free() && Room(cs, need)
    requires forall x :: 0 <= x < j ==> r[x] == cs[x]
    requires forall x :: j < x < |r| ==> r[x] == cs[x + (|cs| - |r|)]
    ensures Room(r, need)
  {
    var x :| 0 <= x < |cs| && cs[x].Fits(need);
    var d := |cs| - |r|;
    if x < j {
      assert r[x].Fits(need);
    } else if x > j + d {
      assert r[x - d].Fits(need);
    } else {
      StretchHolds(cs, r, total, j, x);
      assert r[j].Fits(need);
    }
  }

  lemma StretchHolds(cs: seq<Chunk>, r: seq<Chunk>, total: nat, j: nat, x: nat)
    requires Tiled(cs, total) && Tiled(r, total) && j < |r| <= |cs| && j <= x <= j + (|cs| - |r|)
    requires forall x :: 0 <= x < j ==> r[x] == cs[x]
    requires forall x :: j < x < |r| ==> r[x] == cs[x + (|cs| - |r|)]
    ensures cs[x].size <= r[j].size
  {
    var e := j + (|cs| - |r|);
    assert r[j].addr == cs[j].addr by { if j > 0 { assert r[j - 1] == cs[j - 1] && cs[j].addr == cs[j - 1].End(); } }
    assert r[j].End() == cs[e].End() by { if j + 1 < |r| { assert r[j + 1] == cs[e + 1] && cs[e + 1].addr == cs[e].End(); } }
    if j < x { TiledOrdered(cs, total, j, x); }
    if x < e { TiledOrdered(cs, total, x, e); }
  }

  lemma ReleaseRoom(cs: seq<Chunk>, g: Config, i: nat, need: nat)
    requires Quiet(cs, g) && i < |cs| && Room(cs, need)
    ensures Room(Release(cs, i).0, need)
  {
    CoalesceTail(cs[i := cs[i].Cleared()], i);
    ReleaseQuiet(cs, g, i);
    JoinedRoom(cs, i, cs[i].Cleared(), Release(cs, i).0, Release(cs, i).1, g.total, need);
  }

  lemma JoinedRoom(cs: seq<Chunk>, i: nat, c: Chunk, r: seq<Chunk>, j: nat, total: nat, need: nat)
    requires Tiled(cs, total) && Tiled(r, total) && i < |cs| && SameAround(cs[i := c], i, r, j) && r[j].Free() && Room(cs, need)
    ensures Room(r, need)
  {
    var d := cs[i := c];
    forall x | 0 <= x < j ensures r[x] == cs[x] { assert r[x] == d[x]; }
    forall x | j < x < |r| ensures r[x] == cs[x + (|cs| - |r|)] { assert r[x] == d[x + (|cs| - |r|)]; }
    RoomAround(cs, r, total, j, need);
  }

  /** Nothing fitted in a, and b has lost the item of least hour, the first of them, and no other. */
  ghost predicate EvictedFor(a: seq<Chunk>, b: seq<Chunk>, need: nat) {
    && !Room(a, need)
    && exists v: nat :: IsVictim(a, v) && a[v].used && forall c: Chunk :: c.used ==> (c in b <==> c in a && c != a[v])
  }

  /** Lists that follow from each other by such evictions; in the last one a chunk fits. */
  ghost predicate ForRoom(ls: seq<seq<Chunk>>, need: nat) {
    && ls != [] && (forall j :: 0 <= j < |ls| - 1 ==> EvictedFor(ls[j], ls[j + 1], need))
    && Room(ls[|ls| - 1], need)
  }

  lemma ForRoomCons(a: seq<Chunk>, ls: seq<seq<Chunk>>, need: nat)
    requires ForRoom(ls, need) && EvictedFor(a, ls[0], need)
    ensures ForRoom([a] + ls, need) && ([a] + ls)[|ls|] == ls[|ls| - 1]
  {
    var m := [a] + ls;
    forall j | 0 <= j < |m| - 1 ensures EvictedFor(m[j], m[j + 1], need) {
      assert m[j + 1] == ls[j] && (j > 0 ==> m[j] == ls[j - 1]);
    }
  }

  ghost predicate SameStored(a: seq<Chunk>, b: seq<Chunk>) {
    forall c: Chunk :: c.used ==> (c in a <==> c in b)
  }

  /** The chunk at i begins where the one the search chooses does. */
  ghost predicate HandedFrom(t: seq<Chunk>, i: nat, cs: seq<Chunk>, need: nat, best: bool) {
    i < |t| && exists x: nat :: IsChoice(cs, need, best, x) && t[i].addr == cs[x].addr
  }

  lemma {:induction false} SplitDownAddr(cs: seq<Chunk>, i: nat, need: nat)
    requires i < |cs| && need >= 1
    ensures i < |SplitDown(cs, i, need)| && SplitDown(cs, i, need)[i].addr == cs[i].addr
    decreases cs[i].size
  {
    if cs[i].size / 2 >= need { SplitDownAddr(SplitAt(cs, i), i, need); }
  }

  lemma {:induction false} AllocForRoom(cs: seq<Chunk>, g: Config, need: nat) returns (ls: seq<seq<Chunk>>)
    requires Quiet(cs, g) && g.slab <= need <= g.total
    ensures ForRoom(ls, need) && ls[0] == cs && SameStored(AllocIn(cs, g, need).0, ls[|ls| - 1])
    ensures HandedFrom(AllocIn(cs, g, need).0, AllocIn(cs, g, need).1, ls[|ls| - 1], need, g.best)
    decreases |Busy(cs)|
  {
    match Choose(cs, need, g.best)
    case Some(i) =>
      ls := [cs];
      assert cs[i] in cs;
      SplitDownQuiet(cs, g, i, need);
      SplitDownAddr(cs, i, need);
      assert IsChoice(cs, need, g.best, i);
    case None =>
      VictimExists(cs, g, need);
      var v := Victim(cs).value;
      ReleaseQuiet(cs, g, v);
      ReleaseCount(cs, g, v);
      var rest := AllocForRoom(Release(cs, v).0, g, need);
      assert EvictedFor(cs, rest[0], need);
      ForRoomCons(cs, rest, need);
      ls := [cs] + rest;
  }

  /**
    A set that fits the table drops the old value of its key and then evicts, least hour first,
    only while nothing fits; every other item stays.
    */
  lemma SetForRoom(s: State, g: Config, k: string, data: Bytes, flags: nat, now: nat) returns (ls: seq<seq<Chunk>>)
    requires Good(s, g) && k != "" && now > 0 && FitsTable(g, |data|)
    ensures ForRoom(ls, Max(|data|, g.slab))
    ensures forall c: Chunk :: c.used ==> (c in ls[0] <==> c in s.cs && c.key != k)
    ensures forall c: Chunk :: Other(c, k) ==> (c in DoSet(s, g, k, data, flags, now).0.cs <==> c in ls[|ls| - 1])
    ensures Room(s.cs, Max(|data|, g.slab)) ==> |ls| == 1
  {
    DropOldQuiet(s.cs, g, k);
    var d, need := DropOld(s.cs, k), Max(|data|, g.slab);
    ls := AllocForRoom(d, g, need);
    if Room(s.cs, need) {
      DropOldRoom(s.cs, g, k, need);
      assert |ls| > 1 ==> EvictedFor(ls[0], ls[1], need);
    }
    SetOthers(s, g, k, data, flags, now);
  }

  /** Of the items of other keys a set leaves those that the allocation leaves. */
  lemma SetOthers(s: State, g: Config, k: string, data: Bytes, flags: nat, now: nat)
    requires Good(s, g) && k != "" && now > 0 && FitsTable(g, |data|)
    ensures Quiet(DropOld(s.cs, k), g)
    ensures var a := AllocIn(DropOld(s.cs, k), g, Max(|data|, g.slab)).0;
            forall c: Chunk :: Other(c, k) ==> (c in DoSet(s, g, k, data, flags, now).0.cs <==> c in a)
  {
    var cs, i := SetShape(s, g, k, data, flags, now);
    var a := AllocateIs(s.cs, g, k, |data|, flags, cs, i);
    StoredOver(a, i, cs, k, |data|, flags, now);
  }

  lemma AllocateIs(cs: seq<Chunk>, g: Config, k: string, n: nat, flags: nat, t: seq<Chunk>, i: nat) returns (a: seq<Chunk>)
    requires Quiet(cs, g) && k != "" && FitsTable(g, n) && Allocate(cs, g, k, n, flags) == (t, Some(i))
    ensures Quiet(DropOld(cs, k), g) && (a, i) == AllocIn(DropOld(cs, k), g, Max(n, g.slab))
    ensures i < |a| && !a[i].used && t == ReserveAt(a, i, k, n, flags)
  {
    DropOldQuiet(cs, g, k);
    AllocKeeps(DropOld(cs, k), g, Max(n, g.slab));
    a := AllocIn(DropOld(cs, k), g, Max(n, g.slab)).0;
  }

  lemma StoredOver(a: seq<Chunk>, i: nat, cs: seq<Chunk>, k: string, n: nat, flags: nat, now: nat)
    requires i < |a| && !a[i].used && cs == ReserveAt(a, i, k, n, flags)
    ensures forall c: Chunk :: Other(c, k) ==> (c in cs[i := cs[i].(used := true, hour := now)] <==> c in a)
  {
    StoredOthersSame(a, i, cs, cs[i := cs[i].(used := true, hour := now)], k);
  }

  lemma DropOldRoom(cs: seq<Chunk>, g: Config, k: string, need: nat)
    requires Quiet(cs, g) && k != "" && Room(cs, need)
    ensures Room(DropOld(cs, k), need)
  {
    match Find(cs, k)
    case None =>
    case Some(i) => ReleaseRoom(cs, g, i, need);
  }

  /** Storing into a blank chunk changes no item of another key. */
  lemma StoredOthersSame(a: seq<Chunk>, i: nat, cs: seq<Chunk>, t: seq<Chunk>, k: string)
    requires i < |a| == |cs| == |t| && !a[i].used && t[i].key == k
    requires forall j :: 0 <= j < |a| && j != i ==> t[j] == a[j]
    ensures forall c: Chunk :: Other(c, k) ==> (c in t <==> c in a)
  {
    forall c: Chunk | Other(c, k) ensures c in t <==> c in a {
      if c in a {
        var j :| 0 <= j < |a| && a[j] == c;
        assert t[j] == c;
      }
      if c in t {
        var j :| 0 <= j < |t| && t[j] == c;
        assert a[j] == c;
      }
    }
  }

  /** A set loses no other key when a chunk fits, or when the item is too big for the table; what stays keeps its bytes. */
  lemma SetKeepsOthers(s: State, g: Config, k: string, data: Bytes, flags: nat, now: nat)
    requires Good(s, g) && k != "" && now > 0
    requires Room(s.cs, Max(|data|, g.slab)) || !FitsTable(g, |data|)
    ensures var t := DoSet(s, g, k, data, flags, now).0;
            && (forall c: Chunk :: Other(c, k) ==> (c in t.cs <==> c in s.cs))
            && (forall c: Chunk :: Other(c, k) && c in s.cs ==> Untouched(c, s, t))
  {
    if FitsTable(g, |data|) {
      var ls := SetForRoom(s, g, k, data, flags, now);
      SetStores(s, g, k, data, flags, now);
    } else {
      DropOldQuiet(s.cs, g, k);
      forall c: Chunk | Other(c, k) && c in s.cs ensures Untouched(c, s, State(DropOld(s.cs, k), s.mem)) {
        var j :| 0 <= j < |s.cs| && s.cs[j] == c;
        TiledBounds(s.cs, g.total, j);
        assert GoodChunk(c, g.slab);
      }
    }
  }

  /** A set says it is too big exactly when its data is longer than the table. */
  lemma SetAnswers(s: State, g: Config, k: string, data: Bytes, flags: nat, now: nat)
    requires Good(s, g) && k != "" && now > 0
    ensures DoSet(s, g, k, data, flags, now).1 == if |data| <= g.total then Stored else TooBig
  {
    if FitsTable(g, |data|) { SetStores(s, g, k, data, flags, now); }
  }

  /** So a key stored before is a hit after a set of another key that finds room. */
  lemma SetThenGetOther(s: State, g: Config, k: string, data: Bytes, flags: nat, now: nat, other: string, later: nat)
    requires Good(s, g) && k != "" && KeyFits(k) && now > 0 && later > 0 && other != "" && other != k
    requires Room(s.cs, Max(|data|, g.slab)) || !FitsTable(g, |data|)
    ensures var t := Step(s, g, Set(k, data, flags, now)).0;
            Good(t, g) && Step(t, g, Get(other, later)).1 == Step(s, g, Get(other, later)).1
  {
    StepKeeps(s, g, Set(k, data, flags, now));
    SetKeepsOthers(s, g, k, data, flags, now);
    var t := Step(s, g, Set(k, data, flags, now)).0;
    GetKeeps(s, g, other, later);
    GetKeeps(t, g, other, later);
    if Entry(s.cs, other).Some? {
      var c := Entry(s.cs, other).value;
      EntryIff(s.cs, g, -1, other, c);
      EntryIff(t.cs, g, -1, other, c);
    }
    if Entry(t.cs, other).Some? {
      var c := Entry(t.cs, other).value;
      EntryIff(t.cs, g, -1, other, c);
      EntryIff(s.cs, g, -1, other, c);
    }
  }
}
