/**
  Which requests keep the allocation loop of the dynamic scheme going for ever when back links
  are right and compaction moves whole records. The loop as coded is in CodedLoop.
  */
module CompactLoop {
  import opened Basics
  import opened Chunks
  import opened BuddyCache
  import opened BuddySpec
  import opened DynamicSpec
  import opened CompactionSpec
  import opened DynamicRun

  /** What a turn of the loop may change. */
  datatype Loop = Loop(cs: seq<Chunk>, due: int)

  /** One turn, None when the search finds a chunk. With nothing reserved there is always a victim. */
  function Turn(l: Loop, r: Rules, need: nat): (m: Option<Loop>)
    requires Carved(l.cs, r) && need <= r.total
    ensures m.Some? ==> Carved(m.value.cs, r)
  {
    if Choose(l.cs, need, r.best).Some? then None
    else if CompactsNow(l.cs, r, need, l.due) then
      CompactCarved(l.cs, r);
      Some(Loop(Compact(l.cs, true), r.frequency))
    else
      HoleOrVictim(l.cs, r, need);
      DiscardKeeps(l.cs, r, Victim(l.cs).value);
      Some(Loop(Discard(l.cs, Victim(l.cs).value).0, Counted(l.due)))
  }

  function Turns(l: Loop, r: Rules, need: nat, n: nat): Option<Loop>
    requires Carved(l.cs, r) && need <= r.total
    decreases n
  {
    if n == 0 then Some(l)
    else
      match Turn(l, r, need)
      case None => None
      case Some(m) => Turns(m, r, need, n - 1)
  }

  ghost predicate Endless(l: Loop, r: Rules, need: nat)
    requires Carved(l.cs, r) && need <= r.total
  {
    forall n: nat :: Turns(l, r, need, n).Some?
  }

  lemma EndlessStep(l: Loop, r: Rules, need: nat)
    requires Carved(l.cs, r) && need <= r.total
    ensures match Turn(l, r, need)
      case None => !Endless(l, r, need)
      case Some(m) => Endless(l, r, need) <==> Endless(m, r, need)
  {
    match Turn(l, r, need)
    case None => assert Turns(l, r, need, 1).None?;
    case Some(m) =>
      if Endless(l, r, need) {
        forall n: nat ensures Turns(m, r, need, n).Some? {
          assert Turns(l, r, need, n + 1).Some?;
        }
      }
      if Endless(m, r, need) {
        forall n: nat ensures Turns(l, r, need, n).Some? {
          assert n > 0 ==> Turns(m, r, need, n - 1).Some?;
        }
      }
  }

  // ---------- whole records moved ----------

  /** Nothing fits, compaction is due, and the memory outside the occupied chunks would not do. */
  ghost predicate Starved(l: Loop, r: Rules, need: nat) {
    && Carved(l.cs, r) && Choose(l.cs, need, r.best).None? && CompactsNow(l.cs, r, need, l.due)
    && r.total - SumSizes(UsedOf(l.cs)) < need
  }

  /** With frequency 0 or 1 such a state comes back turn after turn. */
  lemma StaysStarved(l: Loop, r: Rules, need: nat) returns (m: Loop)
    requires Starved(l, r, need) && 1 <= need <= r.total && (r.frequency == 0 || r.frequency == 1)
    ensures Turn(l, r, need) == Some(m) && Starved(m, r, need)
  {
    m := Turn(l, r, need).value;
    CompactCarved(l.cs, r);
    CleanNoneReserved(l.cs, r.slab);
    CompactGeometry(l.cs, r.total, true);
    CompactMakesRoom(l.cs, r, need);
    ItemsSizes(UsedOf(Compact(l.cs, true)), UsedOf(l.cs));
  }

  lemma {:induction false} StarvedForever(l: Loop, r: Rules, need: nat, n: nat)
    requires Starved(l, r, need) && 1 <= need <= r.total && (r.frequency == 0 || r.frequency == 1)
    ensures Turns(l, r, need, n).Some?
    decreases n
  {
    if n > 0 {
      var m := StaysStarved(l, r, need);
      StarvedForever(m, r, need, n - 1);
    }
  }

  /** With frequency 0 or 1 a due compaction repeats for ever exactly when it cannot make room. */
  lemma CompactsForever(l: Loop, r: Rules, need: nat)
    requires Carved(l.cs, r) && 1 <= need <= r.total && (r.frequency == 0 || r.frequency == 1)
    requires Choose(l.cs, need, r.best).None? && CompactsNow(l.cs, r, need, l.due)
    ensures Endless(l, r, need) <==> r.total - SumSizes(UsedOf(l.cs)) < need
  {
    if r.total - SumSizes(UsedOf(l.cs)) < need {
      forall n: nat ensures Turns(l, r, need, n).Some? { StarvedForever(l, r, need, n); }
    } else {
      CompactMakesRoom(l.cs, r, need);
      EndlessStep(l, r, need);
      EndlessStep(Turn(l, r, need).value, r, need);
    }
  }

  /** The list at the first due compaction, after the evictions before it; None when a chunk is found before. */
  function FirstDue(cs: seq<Chunk>, r: Rules, need: nat, due: int): Option<seq<Chunk>>
    requires Carved(cs, r) && need <= r.total
    decreases |Busy(cs)|
  {
    if Choose(cs, need, r.best).Some? then None
    else if CompactsNow(cs, r, need, due) then Some(cs)
    else
      HoleOrVictim(cs, r, need);
      DiscardKeeps(cs, r, Victim(cs).value);
      DiscardCount(cs, r, Victim(cs).value);
      FirstDue(Discard(cs, Victim(cs).value).0, r, need, Counted(due))
  }

  /**
    With whole records moved, the loop never ends exactly when the frequency is 0 or 1 and the
    first compaction that comes due cannot make room.
    */
  lemma {:induction false} NeverSettles(cs: seq<Chunk>, r: Rules, need: nat, due: int)
    requires Carved(cs, r) && 1 <= need <= r.total
    ensures Endless(Loop(cs, due), r, need) <==>
              && (r.frequency == 0 || r.frequency == 1) && FirstDue(cs, r, need, due).Some?
              && r.total - SumSizes(UsedOf(FirstDue(cs, r, need, due).value)) < need
    decreases |Busy(cs)|, if Counted(due) == 0 then 1 else 0
  {
    var l := Loop(cs, due);
    EndlessStep(l, r, need);
    if Choose(cs, need, r.best).None? {
      if !CompactsNow(cs, r, need, due) {
        HoleOrVictim(cs, r, need);
        DiscardKeeps(cs, r, Victim(cs).value);
        DiscardCount(cs, r, Victim(cs).value);
        NeverSettles(Discard(cs, Victim(cs).value).0, r, need, Counted(due));
      } else if r.frequency == 0 || r.frequency == 1 {
        CompactsForever(l, r, need);
      } else {
        CompactCarved(cs, r);
        NeverSettles(Compact(cs, true), r, need, r.frequency);
      }
    }
  }
}
