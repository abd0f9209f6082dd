/**
  Compaction as coded, twice in one request: the space gathered first is moved as an item with
  no hour, which nothing evicts. In the end no victim is left.
  */
module MissingVictim {
  import opened Basics
  import opened Chunks
  import opened BuddyCache
  import opened BuddySpec
  import opened LossyMap
  import opened DynamicSpec
  import opened CompactionSpec
  import opened DynamicRun
  import opened Dictionary
  import opened CodedRun
  import opened CodedLoop
  import opened CompactView
  import opened ReachedStates
  import opened ReachedCompactions

  /** Three chunks in three nodes, without data. */
  function Three(cs: seq<Chunk>, due: int): View { View(cs, [0, 1, 2], [], [NULL, 0, 1], 0, due) }

  /** The space gathered, which looks reserved; and such space after it was moved as an item. */
  const GATHERED := Chunk(8, 4, 1, "", 0, false, 0, 0)

  function Leak(addr: nat): Chunk { Chunk(addr, 4, 0, "", 0, true, 0, 0) }

  lemma TravelsOn(cs: seq<Chunk>, due: int, f: nat)
    requires |cs| == 3 && f < 2 && !cs[f + 1].Free()
    ensures CompactView.CompactFrom(Three(cs, due), f) == CompactView.CompactFrom(Three(Swapped(cs, f), due), f + 1)
  {
    assert Three(cs, due).back[f + 1 := f] == [NULL, 0, 1];
  }

  lemma TurnCompacts(cs: seq<Chunk>, due: int, r: Rules, need: nat, f: nat, gs: seq<Chunk>)
    requires |cs| == 3 && r.total >= need && Counted(due) == 0 && (forall j :: 0 <= j < 3 ==> !cs[j].Fits(need))
    requires f == FirstFree(cs) < 3 && CompactView.CompactFrom(Three(cs, 0), f) == Three(gs, 0)
    ensures TurnV(Three(cs, due), r, need) == Goes(Three(gs, r.frequency))
  {
    assert Choose(cs, need, r.best).None?;
  }

  /** The first chunk goes; the one behind it is occupied. */
  lemma TurnEvictsFirst(cs: seq<Chunk>, due: int, r: Rules, need: nat)
    requires |cs| == 3 && Counted(due) != 0 && (forall j :: 0 <= j < 3 ==> !cs[j].Fits(need))
    requires cs[0].hour != 0 && (forall j :: 0 < j < 3 && cs[j].hour != 0 ==> cs[0].hour < cs[j].hour)
    requires cs[1].used && cs[0].dataSize == 0
    ensures TurnV(Three(cs, due), r, need) == Goes(Three(cs[0 := cs[0].Cleared()], Counted(due)))
  {
    assert Choose(cs, need, r.best).None? && Victim(cs) == Some(0);
    var u := Three(cs, Counted(due));
    assert Cleared(u, 0) == Three(cs[0 := cs[0].Cleared()], Counted(due));
    assert BackV(Cleared(u, 0), 0) == (Cleared(u, 0), 0) && FrontV(Cleared(u, 0), 0) == Cleared(u, 0);
  }

  lemma LastTwoTravel(cs: seq<Chunk>, gs: seq<Chunk>)
    requires |cs| == 3 && !cs[1].Free() && !Swapped(cs, 0)[2].Free() && gs == Swapped(Swapped(cs, 0), 1)
    ensures CompactView.CompactFrom(Three(cs, 0), 0) == Three(gs, 0)
  {
    TravelsOn(cs, 0, 0);
    TravelsOn(Swapped(cs, 0), 0, 1);
  }

  lemma FirstCompaction(r: Rules)
    requires r.total == 12
    ensures TurnV(View4(), r, 8) == Goes(Three([Item(0, "a", 1), Item(4, "c", 3).(nkey := 0), GATHERED], r.frequency))
  {
    var cs := View4().cs;
    var gs := [Item(0, "a", 1), Item(4, "c", 3).(nkey := 0), GATHERED];
    TravelsOn(cs, 0, 1);
    assert Swapped(cs, 1) == gs;
    assert FirstFree(cs) == 1 by { assert !cs[0].Free() && cs[1].Free(); }
    TurnCompacts(cs, 0, r, 8, 1, gs);
  }

  /** A free first chunk, a stored or leaked chunk of one slab, and the space gathered. */
  lemma NextCompaction(x: Chunk, due: int, r: Rules)
    requires r.total == 12 && Counted(due) == 0 && x.used && x.addr == 4 && x.size == 4 && x.nkey == 0 && x.flags == 0
    ensures TurnV(Three([Blank(0, 4), x, GATHERED], due), r, 8) == Goes(Three([x.(addr := 0), Leak(4), GATHERED], r.frequency))
  {
    var cs, gs := [Blank(0, 4), x, GATHERED], [x.(addr := 0), Leak(4), GATHERED];
    assert Swapped(cs, 0) == [x.(addr := 0), Blank(4, 4), GATHERED];
    assert Swapped(Swapped(cs, 0), 1) == gs;
    LastTwoTravel(cs, gs);
    TurnCompacts(cs, due, r, 8, 0, gs);
  }

  lemma NothingToEvict(due: int, r: Rules)
    requires r.total == 12 && Counted(due) != 0
    ensures TurnV(Three([Leak(0), Leak(4), GATHERED], due), r, 8) == NoVictim
  {
    var cs := [Leak(0), Leak(4), GATHERED];
    assert Choose(cs, 8, r.best).None? && Victim(cs).None?;
  }

  /** One chunk evicted and one compaction after it. */
  lemma EvictsAndCompacts(x: Chunk, y: Chunk, r: Rules)
    requires r.total == 12 && r.frequency == 2 && x.addr == 0 && x.size == 4 && x.hour != 0 && x.dataSize == 0
    requires y.used && y.addr == 4 && y.size == 4 && y.nkey == 0 && y.flags == 0 && (y.hour == 0 || x.hour < y.hour) && x.used
    requires Comes(Loop(r, 8), Three([y.(addr := 0), Leak(4), GATHERED], 2), NoVictim)
    ensures Comes(Loop(r, 8), Three([x, y, GATHERED], 2), NoVictim)
  {
    var v, w := Three([x, y, GATHERED], 2), Three([Blank(0, 4), y, GATHERED], 1);
    assert v.cs[0 := x.Cleared()] == w.cs;
    TurnEvictsFirst(v.cs, 2, r, 8);
    NextCompaction(y, 1, r);
    ComesOn(Loop(r, 8), w, Three([y.(addr := 0), Leak(4), GATHERED], 2), NoVictim);
    ComesOn(Loop(r, 8), v, w, NoVictim);
  }

  /** With frequency 2 a request for two slabs, with a gap of one, has no victim after three compactions. */
  lemma NoVictimLeft(r: Rules)
    requires r.total == 12 && r.frequency == 2
    ensures Comes(Loop(r, 8), View4(), NoVictim)
  {
    var a, c := Item(0, "a", 1), Item(4, "c", 3).(nkey := 0);
    NothingToEvict(2, r);
    ComesNow(Loop(r, 8), Three([Leak(0), Leak(4), GATHERED], 2));
    assert Leak(4).(addr := 0) == Leak(0);
    EvictsAndCompacts(c.(addr := 0), Leak(4), r);
    EvictsAndCompacts(a, c, r);
    FirstCompaction(r);
    ComesOn(Loop(r, 8), View4(), Three([a, c, GATHERED], 2), NoVictim);
  }

  /**
    From an empty table of three slabs with frequency 2: set a, b and c, delete b, and set an
    item of two slabs. The set compacts, and in the end asks for the key of no victim.
    */
  lemma FiveCommandsFindNoVictim(mem: Bytes, lru: bool, r: Rules, s: CState, ops: seq<Op>, data: Bytes)
    requires |mem| == 12 && r == Small(lru, 2) && s == CState(InitView(r), mem) && Fills(ops) && |ops| == 5
    requires ops[3] == Delete("b") && ops[4] == Set("d", data, 0, 4) && |data| == 8
    ensures CGood(s, r) && (forall op :: op in ops ==> OpOk(op)) && CRun(s, r, ops) == Compacts(View4(), 8)
    ensures AllRightBut(View4(), -1) && Comes(Loop(r, 8), View4(), NoVictim)
  {
    assert forall op :: op in ops ==> OpOk(op);
    ReachesGap(mem, lru, 2, r, s, ops);
    GapCompacts(mem, lru, 2, data, 0, 4);
    LastCompacts(CState(View4(), mem), r, ops[4..], View4(), 8);
    GapThere(mem, lru, 2);
    NoVictimLeft(r);
  }
}
