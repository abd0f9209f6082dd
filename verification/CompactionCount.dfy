/** When the allocation loop compacts: the counter, failed search by failed search. */
module CompactionCount {
  import opened Basics
  import opened Chunks
  import opened DynamicSpec
  import opened CompactionSpec
  import opened DynamicRun
  import opened Dictionary
  import opened CodedRun
  import opened CompactView
  import opened CodedLoop

  ghost predicate NothingFits(cs: seq<Chunk>, need: nat) {
    forall j :: 0 <= j < |cs| ==> !cs[j].Fits(need)
  }

  /** The table and the counter have been through a compaction. */
  ghost predicate Compacted(v: View, o: Turn, frequency: int) {
    o.Goes? && o.next.cs == Compact(v.cs, false) && o.next.current == v.current && o.next.due == frequency
  }

  /** The victim is evicted and the counter is due; or its `prev` is wrong, or there is none. */
  ghost predicate Evicted(v: View, o: Turn, due: int)
    requires Shaped(v)
  {
    match o
    case Found(_, _) => false
    case Goes(w) => exists i: nat :: IsVictim(v.cs, i) && RightAt(v, i) && w == Remove(v.(due := due), i).0
    case Deletes(w, i) => IsVictim(v.cs, i) && !RightAt(v, i) && w == v.(due := due)
    case NoVictim => forall j :: 0 <= j < |v.cs| ==> v.cs[j].hour == 0
  }

  /**
    A search that fails compacts exactly when the counter is 1 or used up and the table less the
    data is enough; the counter then is the frequency. Otherwise the victim is evicted, and a
    counter above zero is one less.
    */
  lemma FailedSearch(v: View, r: Rules, need: nat)
    requires Shaped(v) && NothingFits(v.cs, need)
    ensures if 0 <= v.due <= 1 && r.total - v.current >= need then Compacted(v, TurnV(v, r, need), r.frequency)
            else Evicted(v, TurnV(v, r, need), if v.due > 0 then v.due - 1 else v.due)
  {
    var u := v.(due := Counted(v.due));
    CompactVIs(u);
    if !(0 <= v.due <= 1 && r.total - v.current >= need) && Victim(v.cs).Some? {
      var i := Victim(v.cs).value;
      assert RightAt(u, i) <==> RightAt(v, i);
    }
  }

  /** A search that succeeds finds the first chunk that fits, or under best fit the first of the smallest that do. */
  lemma GoodSearch(v: View, r: Rules, need: nat)
    requires Shaped(v) && !NothingFits(v.cs, need)
    ensures var o := TurnV(v, r, need); o.Found? && o.at == v && IsChoice(v.cs, need, r.best, o.i)
  {
  }

  /** The m-th state is a failed search that evicts, with the counter m less than at first. */
  ghost predicate EvictsAt(turn: View -> Turn, v: View, need: nat, m: nat) {
    && Turns(turn, v, m).Goes?
    && var x := Turns(turn, v, m).next;
       && Shaped(x) && NothingFits(x.cs, need) && x.due == (if v.due < 0 then v.due else v.due - m)
       && Turns(turn, v, m + 1).Goes?
       && Evicted(x, Turns(turn, v, m + 1), if v.due < 0 then v.due else x.due - 1)
  }

  lemma EvictsOn(turn: View -> Turn, v: View, x: View, need: nat, m: nat)
    requires turn(v) == Goes(x) && EvictsAt(turn, x, need, m) && x.due == if v.due < 0 then v.due else v.due - 1
    requires v.due < 0 || v.due > m + 1
    ensures EvictsAt(turn, v, need, m + 1)
  {
    assert Turns(turn, v, m + 1) == Turns(turn, x, m) && Turns(turn, v, m + 2) == Turns(turn, x, m + 1);
  }

  ghost predicate EvictsUpTo(turn: View -> Turn, v: View, need: nat, n: int) {
    forall m: nat :: m < n ==> EvictsAt(turn, v, need, m)
  }

  lemma UpToCons(turn: View -> Turn, v: View, x: View, need: nat, n: nat)
    requires EvictsAt(turn, v, need, 0) && turn(v) == Goes(x) && x.due == (if v.due < 0 then v.due else v.due - 1)
    requires n > 0 && (v.due < 0 || v.due > n) && EvictsUpTo(turn, x, need, n - 1)
    ensures EvictsUpTo(turn, v, need, n)
  {
    forall m: nat | m < n ensures EvictsAt(turn, v, need, m) {
      if m > 0 { EvictsOn(turn, v, x, need, m - 1); }
    }
  }

  /** A turn that goes on from there evicts and counts. */
  ghost predicate CountsAt(turn: View -> Turn, v: View, need: nat) {
    Shaped(v) && (v.due < 0 || v.due > 1) && turn(v).Goes? ==>
      && Shaped(turn(v).next) && turn(v).next.due == (if v.due < 0 then v.due else v.due - 1) && EvictsAt(turn, v, need, 0)
  }

  lemma {:induction false} CountsBy(turn: View -> Turn, v: View, need: nat, n: nat, w: View)
    requires forall x: View :: CountsAt(turn, x, need)
    requires Shaped(v) && (v.due < 0 || v.due > n) && Turns(turn, v, n) == Goes(w)
    ensures Shaped(w) && w.due == (if v.due < 0 then v.due else v.due - n) && EvictsUpTo(turn, v, need, n)
    decreases n
  {
    if n > 0 {
      assert CountsAt(turn, v, need);
      CountsBy(turn, turn(v).next, need, n - 1, w);
      UpToCons(turn, v, turn(v).next, need, n);
    }
  }

  lemma LoopCounts(r: Rules, need: nat, v: View)
    ensures CountsAt(Loop(r, need), v, need)
  {
    if Shaped(v) && (v.due < 0 || v.due > 1) && TurnV(v, r, need).Goes? { var x := FirstEvicts(v, r, need); }
  }

  /**
    With n searches failed and the counter negative or above n at first, all n have evicted, and
    the counter is n less, or as it was when it is negative.
    */
  lemma CountsDown(v: View, r: Rules, need: nat, n: nat, w: View)
    requires Shaped(v) && (v.due < 0 || v.due > n) && Turns(Loop(r, need), v, n) == Goes(w)
    ensures Shaped(w) && w.due == (if v.due < 0 then v.due else v.due - n)
    ensures EvictsUpTo(Loop(r, need), v, need, n)
  {
    forall x: View ensures CountsAt(Loop(r, need), x, need) { LoopCounts(r, need, x); }
    CountsBy(Loop(r, need), v, need, n, w);
  }

  lemma FirstEvicts(v: View, r: Rules, need: nat) returns (x: View)
    requires Shaped(v) && (v.due < 0 || v.due > 1) && TurnV(v, r, need).Goes?
    ensures TurnV(v, r, need) == Goes(x) && Shaped(x) && x.due == (if v.due < 0 then v.due else v.due - 1)
    ensures EvictsAt(Loop(r, need), v, need, 0)
  {
    x := TurnV(v, r, need).next;
    assert NothingFits(v.cs, need) by { assert Choose(v.cs, need, r.best).None?; }
    FailedSearch(v, r, need);
    TurnsNext(Loop(r, need), v, 0, v);
    RemoveShaped(v, x, if v.due < 0 then v.due else v.due - 1);
  }

  lemma RemoveShaped(v: View, x: View, due: int)
    requires Shaped(v) && Evicted(v, Goes(x), due)
    ensures Shaped(x) && x.due == due
  {
    var i: nat :| IsVictim(v.cs, i) && RightAt(v, i) && x == Remove(v.(due := due), i).0;
    var u := v.(due := due);
    BackVIs(Cleared(u, i), i);
    FrontVIs(BackV(Cleared(u, i), i).0, BackV(Cleared(u, i), i).1);
  }

  lemma {:induction false} TurnsNext(turn: View -> Turn, v: View, n: nat, w: View)
    requires Turns(turn, v, n) == Goes(w)
    ensures Turns(turn, v, n + 1) == turn(w)
    decreases n
  {
    if n > 0 {
      TurnsNext(turn, turn(v).next, n - 1, w);
    } else {
      if turn(v).Goes? { assert Turns(turn, turn(v).next, 0) == turn(v); }
    }
  }

  /** Compacted when the table less the data is enough, else the victim evicted and the counter used up. */
  ghost predicate DueTurn(w: View, o: Turn, r: Rules, need: nat)
    requires Shaped(w)
  {
    if r.total - w.current >= need then Compacted(w, o, r.frequency) else Evicted(w, o, 0)
  }

  lemma FailedTurn(v: View, r: Rules, need: nat, n: nat, w: View)
    requires Turns(Loop(r, need), v, n) == Goes(w) && Shaped(w) && NothingFits(w.cs, need) && w.due == 1
    ensures DueTurn(w, Turns(Loop(r, need), v, n + 1), r, need)
  {
    TurnsNext(Loop(r, need), v, n, w);
    FailedSearch(w, r, need);
  }

  /**
    From a counter n + 1, as a compaction leaves it, the first n failed searches evict
    (CountsDown), and the next one compacts exactly when the table less the data is enough.
    */
  lemma ComesDue(v: View, r: Rules, need: nat, n: nat, w: View)
    requires Shaped(v) && v.due == n + 1 && Turns(Loop(r, need), v, n) == Goes(w) && NothingFits(w.cs, need)
    ensures Shaped(w) && DueTurn(w, Turns(Loop(r, need), v, n + 1), r, need)
  {
    assert Shaped(w) && w.due == 1 by { CountsDown(v, r, need, n, w); }
    FailedTurn(v, r, need, n, w);
  }
}
