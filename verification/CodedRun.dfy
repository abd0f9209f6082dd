/**
  The dynamic-partition scheme as coded, links and all: each command either runs, or stops
  where it is about to delete a node whose `prev` is wrong, or where compaction comes due.
  */
module CodedRun {
  import opened Basics
  import opened Chunks
  import opened Division
  import opened BuddyCache
  import opened BuddySpec
  import opened LossyMap
  import opened DynamicSpec
  import opened DynamicFlush
  import opened DynamicRun
  import opened Dictionary

  /** The live list and its nodes, the pool, the `prev` of every live node, and the two counters. */
  datatype View = View(cs: seq<Chunk>, live: Order, pool: Order, back: seq<int>, current: int, due: int)

  /** The `prev` links of the listed nodes. */
  ghost function Backs(t: seq<Node>, s: Order): seq<int>
    requires Positions(t, s)
  {
    seq(|s|, k requires 0 <= k < |s| => t[s[k]].prev)
  }

  predicate Shaped(v: View) {
    v.cs != [] && |v.live| == |v.cs| == |v.back|
  }

  predicate RightAt(v: View, k: nat)
    requires Shaped(v) && k < |v.cs|
  {
    v.back[k] == At(v.live, k - 1)
  }

  /** The `prev` of every unoccupied node is right, but for the node at `skip`. */
  ghost predicate UnusedRightBut(v: View, skip: int) {
    Shaped(v) && forall k :: 0 <= k < |v.cs| && k != skip && !v.cs[k].used ==> RightAt(v, k)
  }

  /** What every state between commands keeps: the books are right, and so are the links of unoccupied nodes. */
  ghost predicate VGood(v: View, r: Rules) {
    && Carved(v.cs, r) && UnusedRightBut(v, -1)
    && v.current == SumData(v.cs) && |v.live| + |v.pool| == r.total / r.slab
  }

  /** Node for node the same but for what a step says it changes. */
  ghost predicate SameBooks(v: View, w: View) {
    |v.live| + |v.pool| == |w.live| + |w.pool| && v.current == w.current && v.due == w.due
  }

  // ---------- deletion: diccionario_eliminar ----------

  /** One round of the backward loop: the chunk before j swallows j, and the node behind gets its `prev` repaired. */
  function CutBack(v: View, j: nat): View
    requires Shaped(v) && 0 < j < |v.cs|
  {
    var b := Removed(v.back, j);
    View(Absorb(v.cs, j - 1), Removed(v.live, j), [v.live[j]] + v.pool,
         if j < |b| then b[j := v.live[j - 1]] else b, v.current, v.due)
  }

  /** One round of the forward loop: j swallows the chunk after it, and no `prev` is repaired. */
  function CutFront(v: View, j: nat): View
    requires Shaped(v) && j + 1 < |v.cs|
  {
    View(Absorb(v.cs, j), Removed(v.live, j + 1), [v.live[j + 1]] + v.pool, Removed(v.back, j + 1), v.current, v.due)
  }

  lemma CutBackLinks(v: View, j: nat)
    requires Shaped(v) && 0 < j < |v.cs|
    ensures var w := CutBack(v, j);
            && Shaped(w) && |w.cs| == |v.cs| - 1 && SameBooks(v, w)
            && (forall k :: 0 <= k < j ==> w.live[k] == v.live[k] && (RightAt(w, k) <==> RightAt(v, k)))
            && (j < |w.cs| ==> RightAt(w, j))
            && (forall k :: j < k < |w.cs| ==> (RightAt(w, k) <==> RightAt(v, k + 1)))
  {
    var w := CutBack(v, j);
    forall k | j < k < |w.cs| ensures RightAt(w, k) <==> RightAt(v, k + 1) {
      assert w.live[k - 1] == v.live[k] && w.back[k] == v.back[k + 1];
    }
  }

  lemma CutFrontLinks(v: View, j: nat)
    requires Shaped(v) && j + 1 < |v.cs|
    ensures var w := CutFront(v, j);
            && Shaped(w) && |w.cs| == |v.cs| - 1 && SameBooks(v, w)
            && (forall k :: 0 <= k <= j ==> w.live[k] == v.live[k] && (RightAt(w, k) <==> RightAt(v, k)))
            && (j + 1 < |w.cs| ==> w.back[j + 1] == v.back[j + 2])
            && (forall k :: j + 1 < k < |w.cs| ==> (RightAt(w, k) <==> RightAt(v, k + 1)))
  {
    var w := CutFront(v, j);
    forall k | j + 1 < k < |w.cs| ensures RightAt(w, k) <==> RightAt(v, k + 1) {
      assert w.live[k - 1] == v.live[k] && w.back[k] == v.back[k + 1];
    }
  }

  function BackV(v: View, j: nat): (View, nat)
    requires Shaped(v) && j < |v.cs|
    decreases j
  {
    if j > 0 && !v.cs[j - 1].used then
      CutBackLinks(v, j);
      BackV(CutBack(v, j), j - 1)
    else (v, j)
  }

  function FrontV(v: View, j: nat): View
    requires Shaped(v) && j < |v.cs|
    decreases |v.cs| - j
  {
    if j + 1 < |v.cs| && !v.cs[j + 1].used then
      CutFrontLinks(v, j);
      FrontV(CutFront(v, j), j)
    else v
  }

  function Cleared(v: View, i: nat): View
    requires i < |v.cs|
  {
    v.(cs := v.cs[i := v.cs[i].Cleared()], current := v.current - v.cs[i].dataSize)
  }

  /** The deletion of a node whose own `prev` is right. */
  function Remove(v: View, i: nat): (View, nat)
    requires Shaped(v) && i < |v.cs|
  {
    var (b, j) := BackV(Cleared(v, i), i);
    BackVIs(Cleared(v, i), i);
    (FrontV(b, j), j)
  }

  lemma {:induction false} BackVIs(v: View, j: nat)
    requires Shaped(v) && j < |v.cs|
    ensures var (w, i) := BackV(v, j);
            && (w.cs, i) == MergeBack(v.cs, j) && Shaped(w) && i < |w.cs| && i <= j && SameBooks(v, w)
            && |w.cs| - i == |v.cs| - j && w.live[i] == v.live[i]
    decreases j
  {
    if j > 0 && !v.cs[j - 1].used {
      CutBackLinks(v, j);
      BackVIs(CutBack(v, j), j - 1);
    }
  }

  lemma {:induction false} FrontVIs(v: View, j: nat)
    requires Shaped(v) && j < |v.cs|
    ensures var w := FrontV(v, j);
            && w.cs == MergeFront(v.cs, j) && Shaped(w) && j < |w.cs| <= |v.cs| && SameBooks(v, w) && w.live[j] == v.live[j]
            && (j + 1 < |w.cs| ==> w.cs[j + 1].used)
    decreases |v.cs| - j
  {
    if j + 1 < |v.cs| && !v.cs[j + 1].used {
      CutFrontLinks(v, j);
      FrontVIs(CutFront(v, j), j);
    }
  }

  lemma CutBackRight(v: View, j: nat)
    requires UnusedRightBut(v, -1) && 0 < j < |v.cs| && !v.cs[j - 1].used
    ensures UnusedRightBut(CutBack(v, j), -1) && !CutBack(v, j).cs[j - 1].used
  {
    CutBackLinks(v, j);
    var w := CutBack(v, j);
    forall k | 0 <= k < |w.cs| && !w.cs[k].used ensures RightAt(w, k) {
      assert k >= j ==> w.cs[k] == v.cs[k + 1];
      assert k < j - 1 ==> w.cs[k] == v.cs[k];
    }
  }

  lemma {:induction false} BackVRight(v: View, j: nat)
    requires UnusedRightBut(v, -1) && j < |v.cs| && !v.cs[j].used
    ensures UnusedRightBut(BackV(v, j).0, -1)
    decreases j
  {
    if j > 0 && !v.cs[j - 1].used {
      CutBackRight(v, j);
      BackVRight(CutBack(v, j), j - 1);
    }
  }

  lemma {:induction false} FrontVRight(v: View, j: nat)
    requires UnusedRightBut(v, j + 1) && j < |v.cs|
    ensures UnusedRightBut(FrontV(v, j), -1)
    decreases |v.cs| - j
  {
    if j + 1 < |v.cs| && !v.cs[j + 1].used {
      CutFrontLinks(v, j);
      var w := CutFront(v, j);
      forall k | 0 <= k < |w.cs| && k != j + 1 && !w.cs[k].used ensures RightAt(w, k) {
        assert k > j ==> w.cs[k] == v.cs[k + 1];
        assert k < j ==> w.cs[k] == v.cs[k];
        assert k == j ==> w.cs[k].used == v.cs[k].used;
      }
      FrontVRight(w, j);
    }
  }

  /** Deleting a stored chunk whose own `prev` is right gives exactly the list the scheme promises, and good books. */
  lemma RemoveKeeps(v: View, r: Rules, i: nat)
    requires VGood(v, r) && i < |v.cs| && v.cs[i].used && RightAt(v, i)
    ensures var (w, j) := Remove(v, i);
            && (w.cs, j) == Discard(v.cs, i) && VGood(w, r) && j < |w.cs| && w.due == v.due
            && |w.cs| - j <= |v.cs| - i
  {
    var c := Cleared(v, i);
    BackVIs(c, i);
    BackVRight(c, i);
    var (b, j) := BackV(c, i);
    FrontVIs(b, j);
    FrontVRight(b, j);
    DiscardKeeps(v.cs, r, i);
    DiscardCount(v.cs, r, i);
  }

  // ---------- which deletions leave a wrong prev behind ----------

  ghost predicate AllRightBut(v: View, skip: int) {
    Shaped(v) && forall k :: 0 <= k < |v.cs| && k != skip ==> RightAt(v, k)
  }

  ghost predicate Distinct(s: Order) {
    forall i, j :: 0 <= i < j < |s| ==> s[i] != s[j]
  }

  /** Every node is in one of the two lists, once. */
  ghost predicate NodesApart(v: View) {
    && Distinct(v.live) && Distinct(v.pool) && Apart(v.live, v.pool)
    && (forall k :: 0 <= k < |v.live| ==> v.live[k] < |v.live| + |v.pool|)
    && (forall k :: 0 <= k < |v.pool| ==> v.pool[k] < |v.live| + |v.pool|)
  }

  /** A node that leaves the list goes to the pool. */
  lemma CutApart(v: View, w: View, k: nat)
    requires NodesApart(v) && k < |v.live| && w.live == Removed(v.live, k) && w.pool == [v.live[k]] + v.pool
    ensures NodesApart(w)
  {
    forall i | 0 <= i < |w.live| ensures w.live[i] != v.live[k] && w.live[i] == v.live[if i < k then i else i + 1] { }
    forall j | 0 <= j < |w.pool| ensures w.pool[j] == if j == 0 then v.live[k] else v.pool[j - 1] { }
  }

  /** Some chunk follows an unoccupied chunk that follows the chunk at i. */
  predicate LeavesStale(cs: seq<Chunk>, i: nat)
    requires i < |cs|
  {
    i + 2 < |cs| && !cs[i + 1].used
  }

  lemma {:induction false} BackVAll(v: View, j: nat)
    requires AllRightBut(v, -1) && j < |v.cs|
    ensures AllRightBut(BackV(v, j).0, -1)
    decreases j
  {
    if j > 0 && !v.cs[j - 1].used {
      CutBackLinks(v, j);
      BackVAll(CutBack(v, j), j - 1);
    }
  }

  lemma {:induction false} CutDistinct(s: Order, k: nat)
    requires Distinct(s) && k < |s|
    ensures Distinct(Removed(s, k))
  {
  }

  lemma {:induction false} BackVDistinct(v: View, j: nat)
    requires Shaped(v) && j < |v.cs| && Distinct(v.live)
    ensures Distinct(BackV(v, j).0.live)
    decreases j
  {
    if j > 0 && !v.cs[j - 1].used {
      CutBackLinks(v, j);
      CutDistinct(v.live, j);
      BackVDistinct(CutBack(v, j), j - 1);
    }
  }

  /** The node's `prev` is the head of the pool. */
  ghost predicate StaleHead(v: View, i: nat) {
    Shaped(v) && i < |v.cs| && v.pool != [] && v.back[i] == v.pool[0]
  }

  /** Only the node behind position j may have a wrong `prev`, and it has exactly when there was a gap: it points at the head of the pool. */
  ghost predicate LeftBy(w: View, j: nat, gap: bool) {
    && AllRightBut(w, j + 1) && j < |w.cs|
    && (gap ==> StaleHead(w, j + 1))
    && (j + 1 < |w.cs| ==> (RightAt(w, j + 1) <==> !gap))
    && (AllRightBut(w, -1) <==> !gap)
  }

  /**
    From a list whose links are all right, deleting the stored chunk at i leaves them right
    exactly when it is not followed by an unoccupied chunk that something follows.
    */
  lemma RemoveLeaves(v: View, r: Rules, i: nat)
    requires VGood(v, r) && AllRightBut(v, -1) && Distinct(v.live) && i < |v.cs| && v.cs[i].used
    ensures LeftBy(Remove(v, i).0, Remove(v, i).1, LeavesStale(v.cs, i))
  {
    var c := Cleared(v, i);
    ClearedRight(v, i);
    BackVIs(c, i);
    BackVAll(c, i);
    MergeBackBehind(c.cs, i, 1);
    MergeBackBehind(c.cs, i, 2);
    BackVDistinct(c, i);
    FrontLeaves(BackV(c, i).0, BackV(c, i).1);
  }

  lemma ClearedRight(v: View, i: nat)
    requires AllRightBut(v, -1) && i < |v.cs|
    ensures AllRightBut(Cleared(v, i), -1)
  {
    var c := Cleared(v, i);
    forall k | 0 <= k < |c.cs| ensures RightAt(c, k) { assert RightAt(v, k); }
  }

  lemma FrontLeaves(b: View, j: nat)
    requires AllRightBut(b, -1) && Distinct(b.live) && j < |b.cs|
    requires j + 2 < |b.cs| ==> b.cs[j + 1].used || b.cs[j + 2].used
    ensures LeftBy(FrontV(b, j), j, LeavesStale(b.cs, j))
  {
    if j + 1 < |b.cs| && !b.cs[j + 1].used {
      CutFrontLinks(b, j);
      var w := CutFront(b, j);
      if j + 2 < |b.cs| {
        assert w.cs[j + 1] == b.cs[j + 2];
        assert RightAt(b, j + 2) && b.live[j] != b.live[j + 1];
        assert !RightAt(w, j + 1);
      }
      assert FrontV(b, j) == w;
      forall k | 0 <= k < |w.cs| && k != j + 1 ensures RightAt(w, k) {
        assert k <= j ==> RightAt(b, k);
        assert k > j + 1 ==> RightAt(b, k + 1);
      }
    }
  }

  // ---------- diccionario_obtenerDireccion ----------

  function SplitV(v: View, i: nat, need: nat): View
    requires Shaped(v) && i < |v.cs| && v.cs[i].size >= need && v.pool != []
  {
    var n, b := v.pool[0], Inserted(v.back, i + 1, v.live[i]);
    View(SplitHole(v.cs, i, need), Inserted(v.live, i + 1, n), v.pool[1..],
         if i + 2 < |b| then b[i + 2 := n] else b, v.current, v.due)
  }

  /** The rest of the hole becomes a chunk of its own when it is large enough and the pool has a node. */
  function TakeV(v: View, i: nat, need: nat, slab: nat): View
    requires Shaped(v) && i < |v.cs| && v.cs[i].size >= need
  {
    if v.pool != [] && v.cs[i].size - need >= slab then SplitV(v, i, need) else v
  }

  lemma SplitRight(v: View, i: nat, need: nat)
    requires UnusedRightBut(v, -1) && i < |v.cs| && v.cs[i].size >= need && v.pool != []
    ensures UnusedRightBut(SplitV(v, i, need), -1) && SameBooks(v, SplitV(v, i, need))
  {
    var w := SplitV(v, i, need);
    forall k | 0 <= k < |w.cs| && !w.cs[k].used ensures RightAt(w, k) {
      if k < i {
        assert w.cs[k] == v.cs[k] && RightAt(v, k);
      } else if k == i {
        assert !v.cs[i].used && RightAt(v, i);
      } else if k > i + 2 {
        assert w.cs[k] == v.cs[k - 1] && RightAt(v, k - 1);
        assert w.live[k - 1] == v.live[k - 2];
      }
    }
  }

  /**
    Splitting a hole takes the head of the pool as the node behind it, sets its `prev` and that of
    the node after it right, and leaves every other node and link as it was.
    */
  lemma SplitLinks(v: View, i: nat, need: nat)
    requires Shaped(v) && i < |v.cs| && v.cs[i].size >= need && v.pool != []
    ensures var w := SplitV(v, i, need);
            && Shaped(w) && |w.live| == |v.live| + 1 && w.live[i + 1] == v.pool[0] && v.pool == [v.pool[0]] + w.pool
            && (forall k :: 0 <= k <= i ==> w.live[k] == v.live[k] && w.back[k] == v.back[k])
            && (forall k :: i + 1 < k < |w.live| ==> w.live[k] == v.live[k - 1])
            && RightAt(w, i + 1) && (i + 2 < |w.live| ==> RightAt(w, i + 2))
            && (forall k :: i + 2 < k < |w.live| ==> w.back[k] == v.back[k - 1])
            && (AllRightBut(v, -1) ==> AllRightBut(w, -1))
  {
    var w := SplitV(v, i, need);
    if AllRightBut(v, -1) {
      forall k | 0 <= k < |w.cs| ensures RightAt(w, k) {
        assert RightAt(v, if k <= i then k else k - 1);
      }
    }
  }

  /** So a chunk handed out leaves all links right when they were. */
  lemma TakeLinks(v: View, i: nat, need: nat, slab: nat)
    requires AllRightBut(v, -1) && i < |v.cs| && v.cs[i].size >= need
    ensures AllRightBut(TakeV(v, i, need, slab), -1)
  {
    if v.pool != [] { SplitLinks(v, i, need); }
  }

  lemma TakeKeeps(v: View, r: Rules, i: nat, need: nat)
    requires VGood(v, r) && i < |v.cs| && v.cs[i].Fits(need) && need >= r.slab
    ensures var w := TakeV(v, i, need, r.slab);
            && w.cs == TakeHole(v.cs, i, need, r.slab) && UnusedRightBut(w, -1) && SameBooks(v, w)
  {
    if v.cs[i].size - need >= r.slab {
      HoleFindsNode(v.cs, r, i, need);
      SplitRight(v, i, need);
    }
  }

  /** How far the coded program is followed. */
  datatype Outcome<+T> = Ran(value: T) | DeletesStale(at: View, i: nat) | Compacts(at: View, need: nat)

  function AllotV(v: View, r: Rules, need: nat): Outcome<(View, nat)>
    requires VGood(v, r) && r.slab <= need <= r.total
    decreases |Busy(v.cs)|
  {
    match Choose(v.cs, need, r.best)
    case Some(i) => Ran((TakeV(v, i, need, r.slab), i))
    case None =>
      var u := v.(due := Counted(v.due));
      if u.due == 0 && r.total - v.current >= need then Compacts(u, need)
      else
        HoleOrVictim(v.cs, r, need);
        var i := Victim(v.cs).value;
        if !RightAt(u, i) then DeletesStale(u, i)
        else
          RemoveKeeps(u, r, i);
          DiscardCount(v.cs, r, i);
          AllotV(Remove(u, i).0, r, need)
  }

  /** Where a run may stop: good books, and the next deletion would be of a stored node with a wrong `prev`, or compaction is due. */
  ghost predicate StopsAt<T>(o: Outcome<T>, r: Rules) {
    match o
    case Ran(_) => true
    case DeletesStale(w, i) => VGood(w, r) && i < |w.cs| && w.cs[i].used && !RightAt(w, i)
    case Compacts(w, need) =>
      VGood(w, r) && w.due == 0 && Choose(w.cs, need, r.best).None? && r.total - SumData(w.cs) >= need
  }

  /** A chunk is handed out, nothing stored is new, and it is the one the scheme's loop hands out. */
  ghost predicate AllotsAs(o: Outcome<(View, nat)>, cs: seq<Chunk>, r: Rules, need: nat, mem: Bytes, due: int)
    requires Carved(cs, r) && r.slab <= need <= r.total && |mem| == r.total
  {
    o.Ran? ==>
      var (w, i) := o.value;
      && Allotted(w.cs, r, i, need) && UnusedRightBut(w, -1) && w.current == SumData(w.cs)
      && |w.live| + |w.pool| == r.total / r.slab
      && (forall c: Chunk :: c in w.cs && c.used ==> c in cs)
      && (r.frequency != 0 && r.frequency != 1 ==> Allot(cs, mem, r, need, due) == Place(w.cs, mem, i, w.due))
  }

  lemma AllotVKeeps(v: View, r: Rules, need: nat, mem: Bytes)
    requires VGood(v, r) && r.slab <= need <= r.total && |mem| == r.total
    ensures StopsAt(AllotV(v, r, need), r)
    ensures AllotsAs(AllotV(v, r, need), v.cs, r, need, mem, v.due)
  {
    AllotVGoes(v, r, need, mem, AllotV(v, r, need));
  }

  lemma {:induction false} AllotVGoes(v: View, r: Rules, need: nat, mem: Bytes, o: Outcome<(View, nat)>)
    requires VGood(v, r) && r.slab <= need <= r.total && |mem| == r.total
    requires o == AllotV(v, r, need)
    ensures StopsAt(o, r)
    ensures AllotsAs(o, v.cs, r, need, mem, v.due)
    decreases |Busy(v.cs)|
  {
    match Choose(v.cs, need, r.best)
    case Some(i) =>
      AllotVFound(v, r, need, mem, i);
    case None =>
      var u := v.(due := Counted(v.due));
      HoleOrVictim(v.cs, r, need);
      var i := Victim(v.cs).value;
      if !(u.due == 0 && r.total - v.current >= need) && RightAt(u, i) {
        RemoveKeeps(u, r, i);
        DiscardCount(v.cs, r, i);
        AllotVGoes(Remove(u, i).0, r, need, mem, o);
        AllotVOn(v.cs, r, need, mem, v.due, i, o);
      }
  }

  lemma AllotVFound(v: View, r: Rules, need: nat, mem: Bytes, i: nat)
    requires VGood(v, r) && r.slab <= need <= r.total && |mem| == r.total && Choose(v.cs, need, r.best) == Some(i)
    ensures AllotsAs(Ran((TakeV(v, i, need, r.slab), i)), v.cs, r, need, mem, v.due)
  {
    TakeKeeps(v, r, i, need);
    TakeHoleKeeps(v.cs, r, i, need);
  }

  /** One eviction of the loop, before the chunk is found. */
  lemma AllotVOn(cs: seq<Chunk>, r: Rules, need: nat, mem: Bytes, due: int, i: nat, o: Outcome<(View, nat)>)
    requires Carved(cs, r) && r.slab <= need <= r.total && |mem| == r.total && Choose(cs, need, r.best).None?
    requires !CompactsNow(cs, r, need, due) && Victim(cs) == Some(i) && cs[i].used
    requires Carved(Discard(cs, i).0, r) && AllotsAs(o, Discard(cs, i).0, r, need, mem, Counted(due))
    ensures AllotsAs(o, cs, r, need, mem, due)
  {
    DiscardKeeps(cs, r, i);
  }

  lemma TakeFits(v: View, r: Rules, i: nat, need: nat)
    requires VGood(v, r) && r.slab <= need <= r.total && Choose(v.cs, need, r.best) == Some(i)
    ensures i < |v.cs| && v.cs[i].size >= need && AllotV(v, r, need) == Ran((TakeV(v, i, need, r.slab), i))
    ensures i < |TakeV(v, i, need, r.slab).cs|
  {
  }

  // ---------- diccionario_limpiar ----------

  function FlushV(v: View, i: nat): Outcome<View>
    requires Shaped(v) && i <= |v.cs|
    decreases |v.cs| - i
  {
    if i == |v.cs| then Ran(v)
    else if v.cs[i].nkey != 0 then
      if !RightAt(v, i) then DeletesStale(v, i)
      else
        RemoveTail(v, i);
        FlushV(Remove(v, i).0, Remove(v, i).1 + 1)
    else FlushV(v, i + 1)
  }

  lemma RemoveTail(v: View, i: nat)
    requires Shaped(v) && i < |v.cs|
    ensures var (w, j) := Remove(v, i); Shaped(w) && j < |w.cs| && |w.cs| - j <= |v.cs| - i
  {
    BackVIs(Cleared(v, i), i);
    FrontVIs(BackV(Cleared(v, i), i).0, BackV(Cleared(v, i), i).1);
  }

  lemma FlushVStep(v: View, i: nat, w: View, j: nat)
    requires Shaped(v) && i < |v.cs| && v.cs[i].nkey != 0 && RightAt(v, i) && (w, j) == Remove(v, i)
    requires Shaped(w) && j < |w.cs|
    ensures FlushV(v, i) == FlushV(w, j + 1)
  {
  }

  lemma FlushVUnfold(v: View, r: Rules, i: nat)
    requires VGood(v, r) && i < |v.cs| && v.cs[i].used && RightAt(v, i)
    ensures var (w, j) := Remove(v, i); VGood(w, r) && j < |w.cs| && FlushV(v, i) == FlushV(w, j + 1)
  {
    assert v.cs[i] in v.cs && GoodChunk(v.cs[i], r.slab);
    RemoveKeeps(v, r, i);
    FlushVStep(v, i, Remove(v, i).0, Remove(v, i).1);
  }

  /** What a flush comes to: the list of the scheme and good books, or a stop at a wrong `prev`. */
  ghost predicate FlushedTo(o: Outcome<View>, r: Rules, due: int, f: seq<Chunk>) {
    && StopsAt(o, r) && !o.Compacts?
    && (o.Ran? ==> VGood(o.value, r) && o.value.due == due && o.value.cs == f)
  }

  lemma {:induction false} FlushVKeeps(v: View, r: Rules, i: nat)
    requires VGood(v, r) && i <= |v.cs|
    ensures FlushedTo(FlushV(v, i), r, v.due, FlushList(v.cs, i))
    decreases |v.cs| - i
  {
    if i < |v.cs| {
      if v.cs[i].nkey != 0 && !RightAt(v, i) {
        FlushVStops(v, r, i, FlushList(v.cs, i));
      } else {
        var w, k := FlushVTurn(v, r, i);
        FlushVKeeps(w, r, k);
        FlushedSame(FlushV(v, i), FlushV(w, k), r, v.due, FlushList(v.cs, i), FlushList(w.cs, k));
      }
    }
  }

  lemma FlushedSame(o: Outcome<View>, p: Outcome<View>, r: Rules, due: int, f: seq<Chunk>, g: seq<Chunk>)
    requires FlushedTo(p, r, due, g) && o == p && f == g
    ensures FlushedTo(o, r, due, f)
  {
  }

  lemma FlushVStops(v: View, r: Rules, i: nat, f: seq<Chunk>)
    requires VGood(v, r) && i < |v.cs| && v.cs[i].nkey != 0 && !RightAt(v, i)
    ensures FlushedTo(FlushV(v, i), r, v.due, f)
  {
    assert v.cs[i] in v.cs && GoodChunk(v.cs[i], r.slab);
  }

  /** The walk comes to the same from both, with links and without. */
  ghost predicate SameFlush(v: View, i: nat, w: View, k: nat)
    requires Shaped(v) && i <= |v.cs| && Shaped(w) && k <= |w.cs|
  {
    FlushV(v, i) == FlushV(w, k) && FlushList(v.cs, i) == FlushList(w.cs, k)
  }

  /** One node of the walk that does not stop there. */
  lemma FlushVTurn(v: View, r: Rules, i: nat) returns (w: View, k: nat)
    requires VGood(v, r) && i < |v.cs| && (v.cs[i].nkey == 0 || RightAt(v, i))
    ensures VGood(w, r) && w.due == v.due && k <= |w.cs| && |w.cs| - k < |v.cs| - i && SameFlush(v, i, w, k)
  {
    if v.cs[i].nkey == 0 {
      FlushBothSkip(v, i);
      w, k := v, i + 1;
    } else {
      var (x, j) := Remove(v, i);
      FlushVDeletes(v, r, i, x, j);
      w, k := x, j + 1;
    }
  }

  lemma FlushVDeletes(v: View, r: Rules, i: nat, w: View, j: nat)
    requires VGood(v, r) && i < |v.cs| && v.cs[i].nkey != 0 && RightAt(v, i) && (w, j) == Remove(v, i)
    ensures VGood(w, r) && w.due == v.due && j < |w.cs| && |w.cs| - j <= |v.cs| - i && SameFlush(v, i, w, j + 1)
  {
    assert v.cs[i] in v.cs && GoodChunk(v.cs[i], r.slab);
    RemoveKeeps(v, r, i);
    FlushBothStep(v, i, w, j);
  }

  lemma FlushBothSkip(v: View, i: nat)
    requires Shaped(v) && i < |v.cs| && v.cs[i].nkey == 0
    ensures SameFlush(v, i, v, i + 1)
  {
  }

  lemma FlushBothStep(v: View, i: nat, w: View, j: nat)
    requires Shaped(v) && i < |v.cs| && v.cs[i].nkey != 0 && RightAt(v, i)
    requires (w, j) == Remove(v, i) && (w.cs, j) == Discard(v.cs, i)
    ensures Shaped(w) && j < |w.cs| && SameFlush(v, i, w, j + 1)
  {
    RemoveTail(v, i);
    FlushVStep(v, i, w, j);
    FlushUnfold(v.cs, i);
  }

  /**
    As coded, a flush of a list whose links are all right gets through exactly when the stored
    items are side by side, and then it leaves one free chunk. Otherwise it comes to a node
    whose `prev` is the head of the pool.
    */
  lemma FlushGetsThrough(v: View, r: Rules)
    requires VGood(v, r) && AllRightBut(v, -1) && Distinct(v.live)
    ensures FlushV(v, 0).Ran? <==> OneBlock(v.cs)
    ensures FlushV(v, 0).Ran? ==> FlushV(v, 0).value.cs == [Blank(0, r.total)]
    ensures StopsAtHead(FlushV(v, 0))
  {
    FlushVKeeps(v, r, 0);
    FlushListEmpties(v.cs, r);
    assert v.cs[0] in v.cs && GoodChunk(v.cs[0], r.slab);
    if v.cs[0].used {
      FlushVHead(v, r, 0);
    } else {
      assert FlushV(v, 0) == FlushV(v, 0 + 1);
      if |v.cs| > 1 {
        assert v.cs[0].used || v.cs[1].used;
        FlushVHead(v, r, 1);
      }
    }
  }

  /** A deletion that is not followed further is of a node whose `prev` is the head of the pool. */
  ghost predicate StopsAtHead<T>(o: Outcome<T>) {
    o.Ran? || (o.DeletesStale? && StaleHead(o.at, o.i))
  }

  lemma {:induction false} FlushVHead(v: View, r: Rules, i: nat)
    requires VGood(v, r) && AllRightBut(v, i) && Distinct(v.live)
    requires i <= 1 && i < |v.cs| && v.cs[i].used && (i == 1 ==> !v.cs[0].used)
    requires RightAt(v, i) || StaleHead(v, i)
    ensures FlushV(v, i).Ran? <==> RightAt(v, i) && OneBlock(v.cs)
    ensures StopsAtHead(FlushV(v, i))
    decreases |v.cs| - i
  {
    assert v.cs[i] in v.cs && GoodChunk(v.cs[i], r.slab);
    if RightAt(v, i) {
      FlushVUnfold(v, r, i);
      RemoveKeeps(v, r, i);
      RemoveLeaves(v, r, i);
      var (w, j) := Remove(v, i);
      if LastItem(v.cs, i) {
        FlushLast(v.cs, r, i);
        assert j + 1 == |w.cs|;
      } else {
        FlushStep(v.cs, r, i);
        RemoveDistinct(v, i);
        FlushVHead(w, r, j + 1);
      }
    }
  }

  lemma RemoveDistinct(v: View, i: nat)
    requires Shaped(v) && i < |v.cs| && Distinct(v.live)
    ensures Distinct(Remove(v, i).0.live)
  {
    var c := Cleared(v, i);
    BackVIs(c, i);
    BackVDistinct(c, i);
    FrontVDistinct(BackV(c, i).0, BackV(c, i).1);
  }

  lemma RemoveApart(v: View, i: nat)
    requires Shaped(v) && i < |v.cs| && NodesApart(v)
    ensures NodesApart(Remove(v, i).0)
  {
    var c := Cleared(v, i);
    BackVIs(c, i);
    BackVApart(c, i);
    FrontVApart(BackV(c, i).0, BackV(c, i).1);
  }

  lemma {:induction false} BackVApart(v: View, j: nat)
    requires Shaped(v) && j < |v.cs| && NodesApart(v)
    ensures NodesApart(BackV(v, j).0)
    decreases j
  {
    if j > 0 && !v.cs[j - 1].used {
      CutBackLinks(v, j);
      CutApart(v, CutBack(v, j), j);
      BackVApart(CutBack(v, j), j - 1);
    }
  }

  lemma {:induction false} FrontVApart(v: View, j: nat)
    requires Shaped(v) && j < |v.cs| && NodesApart(v)
    ensures NodesApart(FrontV(v, j))
    decreases |v.cs| - j
  {
    if j + 1 < |v.cs| && !v.cs[j + 1].used {
      CutFrontLinks(v, j);
      CutApart(v, CutFront(v, j), j + 1);
      FrontVApart(CutFront(v, j), j);
    }
  }

  lemma {:induction false} FrontVDistinct(v: View, j: nat)
    requires Shaped(v) && j < |v.cs| && Distinct(v.live)
    ensures Distinct(FrontV(v, j).live)
    decreases |v.cs| - j
  {
    if j + 1 < |v.cs| && !v.cs[j + 1].used {
      CutFrontLinks(v, j);
      CutDistinct(v.live, j + 1);
      FrontVDistinct(CutFront(v, j), j);
    }
  }

  // ---------- commands ----------

  datatype CState = CState(view: View, mem: Bytes)

  ghost predicate CGood(s: CState, r: Rules) { VGood(s.view, r) && |s.mem| == r.total }

  /** A fresh table: one chunk, the rest of the nodes in the pool. */
  function InitView(r: Rules): View
    requires 1 <= r.slab <= r.total
  {
    DivLower(1, r.slab, r.total);
    View([Blank(0, r.total)], [0], seq(r.total / r.slab - 1, j => j + 1), [NULL], 0, 0)
  }

  lemma InitViewGood(r: Rules)
    requires 1 <= r.slab <= r.total
    ensures VGood(InitView(r), r) && AllRightBut(InitView(r), -1)
  {
    DivLower(1, r.slab, r.total);
    EmptySum(r.total);
  }

  /** What the state is without its links. */
  function Plain(s: CState): DState { DState(s.view.cs, s.mem, s.view.due) }

  function CDrop(v: View, k: string): Outcome<View>
    requires Shaped(v)
  {
    match Find(v.cs, k)
    case None => Ran(v)
    case Some(i) => if RightAt(v, i) then Ran(Remove(v, i).0) else DeletesStale(v, i)
  }

  lemma CDropKeeps(v: View, r: Rules, k: string)
    requires VGood(v, r) && k != ""
    ensures StopsAt(CDrop(v, k), r)
    ensures match CDrop(v, k)
      case Ran(w) => VGood(w, r) && w.due == v.due && w.cs == DropKey(v.cs, k)
      case DeletesStale(_, _) => true
      case Compacts(_, _) => false
  {
    FoundUsed(v.cs, r.slab, k);
    match Find(v.cs, k)
    case None =>
    case Some(i) => if RightAt(v, i) { RemoveKeeps(v, r, i); }
  }

  /** The chunk handed out is booked and stored. */
  function StoreV(v: View, i: nat, k: string, n: nat, flags: nat, now: nat): View
    requires i < |v.cs|
  {
    v.(cs := StoredAt(v.cs, i, k, n, flags, now), current := v.current + n)
  }

  function CSet(s: CState, r: Rules, k: string, data: Bytes, flags: nat, now: nat): Outcome<(CState, Reply)>
    requires CGood(s, r) && k != ""
  {
    CDropKeeps(s.view, r, k);
    match CDrop(s.view, k)
    case DeletesStale(w, i) => DeletesStale(w, i)
    case Compacts(w, n) => Compacts(w, n)
    case Ran(d) =>
      if !FitsTable(Conf(r), |data|) then Ran((CState(d, s.mem), TooBig))
      else CPut(d, s.mem, r, k, data, flags, now)
  }

  /** The part of a set that comes after an old value has been dropped. */
  function CPut(d: View, mem: Bytes, r: Rules, k: string, data: Bytes, flags: nat, now: nat): Outcome<(CState, Reply)>
    requires VGood(d, r) && |mem| == r.total && FitsTable(Conf(r), |data|)
  {
    AllotVKeeps(d, r, Max(|data|, r.slab), mem);
    match AllotV(d, r, Max(|data|, r.slab))
    case DeletesStale(w, i) => DeletesStale(w, i)
    case Compacts(w, n) => Compacts(w, n)
    case Ran((t, i)) =>
      TiledBounds(t.cs, r.total, i);
      Ran((CState(StoreV(t, i, k, |data|, flags, now), WriteAt(mem, t.cs[i].addr, data)), Stored))
  }

  function CGet(s: CState, r: Rules, k: string, now: nat): (CState, Reply)
    requires CGood(s, r)
  {
    var (t, a) := DGet(Plain(s), r, k, now);
    (s.(view := s.view.(cs := t.cs)), a)
  }

  function CStep(s: CState, r: Rules, op: Op): Outcome<(CState, Reply)>
    requires CGood(s, r) && OpOk(op)
  {
    match op
    case Set(k, data, flags, now) => CSet(s, r, k, data, flags, now)
    case Get(k, now) => Ran(CGet(s, r, k, now))
    case Delete(k) =>
      (match CDrop(s.view, k)
       case Ran(w) => Ran((CState(w, s.mem), if Find(s.view.cs, k).None? then Miss else Deleted))
       case DeletesStale(w, i) => DeletesStale(w, i)
       case Compacts(w, n) => Compacts(w, n))
    case Flush =>
      (match FlushV(s.view, 0)
       case Ran(w) => Ran((CState(w, s.mem), Flushed))
       case DeletesStale(w, i) => DeletesStale(w, i)
       case Compacts(w, n) => Compacts(w, n))
  }

  lemma StoreGood(t: View, r: Rules, i: nat, need: nat, k: string, n: nat, flags: nat, now: nat)
    requires Allotted(t.cs, r, i, need) && n <= need && k != "" && now > 0
    requires UnusedRightBut(t, -1) && t.current == SumData(t.cs) && |t.live| + |t.pool| == r.total / r.slab
    requires forall c :: c in t.cs && c.used ==> c.key != k
    ensures VGood(StoreV(t, i, k, n, flags, now), r)
  {
    var w := StoreV(t, i, k, n, flags, now);
    StoredCarved(t.cs, r, i, need, k, n, flags, now);
    forall x | 0 <= x < |w.cs| && !w.cs[x].used ensures RightAt(w, x) {
      assert x != i && w.cs[x] == t.cs[x] && RightAt(t, x);
    }
    UpdateSum(t.cs, i, w.cs[i]);
  }

  /** A set that runs is the set of the scheme, and keeps the books; one that stops says where. */
  lemma CSetKeeps(s: CState, r: Rules, k: string, data: Bytes, flags: nat, now: nat)
    requires CGood(s, r) && k != "" && now > 0
    ensures StopsAt(CSet(s, r, k, data, flags, now), r)
    ensures match CSet(s, r, k, data, flags, now)
      case Ran((t, a)) =>
        && CGood(t, r)
        && (r.frequency != 0 && r.frequency != 1 ==> DSet(Plain(s), r, k, data, flags, now) == (Plain(t), a))
      case _ => true
  {
    CDropKeeps(s.view, r, k);
    DropKeyKeeps(s.view.cs, r, k);
    if CDrop(s.view, k).Ran? && FitsTable(Conf(r), |data|) {
      CPutKeeps(CDrop(s.view, k).value, s.mem, r, k, data, flags, now);
    }
  }

  lemma CPutKeeps(d: View, mem: Bytes, r: Rules, k: string, data: Bytes, flags: nat, now: nat)
    requires VGood(d, r) && |mem| == r.total && FitsTable(Conf(r), |data|) && k != "" && now > 0
    requires forall c :: c in d.cs && c.used ==> c.key != k
    ensures StopsAt(CPut(d, mem, r, k, data, flags, now), r)
    ensures match CPut(d, mem, r, k, data, flags, now)
      case Ran((t, a)) =>
        && CGood(t, r) && a == Stored
        && (r.frequency != 0 && r.frequency != 1 ==>
              var p := Allot(d.cs, mem, r, Max(|data|, r.slab), d.due);
              && p.at < |p.cs| && p.cs[p.at].addr + |data| <= |p.mem|
              && Plain(t) == DState(StoredAt(p.cs, p.at, k, |data|, flags, now), WriteAt(p.mem, p.cs[p.at].addr, data), p.due))
      case _ => true
  {
    var need := Max(|data|, r.slab);
    AllotVKeeps(d, r, need, mem);
    if AllotV(d, r, need).Ran? {
      var (t, i) := AllotV(d, r, need).value;
      TiledBounds(t.cs, r.total, i);
      StoreGood(t, r, i, need, k, |data|, flags, now);
    }
  }

  lemma CGetKeeps(s: CState, r: Rules, k: string, now: nat)
    requires CGood(s, r) && k != "" && now > 0
    ensures var (t, a) := CGet(s, r, k, now); CGood(t, r) && DGet(Plain(s), r, k, now) == (Plain(t), a)
  {
    FoundUsed(s.view.cs, r.slab, k);
    if Find(s.view.cs, k).Some? && r.lru {
      var i := Find(s.view.cs, k).value;
      TouchCarved(s.view.cs, r, i, now);
      var w := CGet(s, r, k, now).0.view;
      forall x | 0 <= x < |w.cs| && !w.cs[x].used ensures RightAt(w, x) {
        assert x != i && w.cs[x] == s.view.cs[x] && RightAt(s.view, x);
      }
      UpdateSum(s.view.cs, i, w.cs[i]);
    }
  }

  /** Every command of the coded program is the scheme's, until it would delete a node with a wrong `prev` or compact. */
  lemma CStepIs(s: CState, r: Rules, op: Op)
    requires CGood(s, r) && OpOk(op)
    ensures StopsAt(CStep(s, r, op), r)
    ensures match CStep(s, r, op)
      case Ran((t, a)) =>
        && CGood(t, r) && t.view.current == SumData(t.view.cs)
        && (r.frequency != 0 && r.frequency != 1 ==> DStep(Plain(s), r, op) == (Plain(t), a))
      case _ => true
  {
    match op
    case Set(k, data, flags, now) => CSetKeeps(s, r, k, data, flags, now);
    case Get(k, now) => CGetKeeps(s, r, k, now);
    case Delete(k) => CDropKeeps(s.view, r, k);
    case Flush => FlushVKeeps(s.view, r, 0);
  }

  function CRun(s: CState, r: Rules, ops: seq<Op>): Outcome<(CState, seq<Reply>)>
    requires CGood(s, r) && forall op :: op in ops ==> OpOk(op)
    decreases |ops|
  {
    if ops == [] then Ran((s, []))
    else
      CStepIs(s, r, ops[0]);
      match CStep(s, r, ops[0])
      case DeletesStale(w, i) => DeletesStale(w, i)
      case Compacts(w, n) => Compacts(w, n)
      case Ran((t, a)) =>
        match CRun(t, r, ops[1..])
        case DeletesStale(w, i) => DeletesStale(w, i)
        case Compacts(w, n) => Compacts(w, n)
        case Ran((u, rs)) => Ran((u, [a] + rs))
  }

  /**
    Main result for the dynamic scheme as coded. A run either gives the list, arena, counter
    and replies of the scheme, with table_current_size the sum of the stored data; or it stops
    in a good state, about to delete a stored node with a wrong `prev` or to compact. With
    frequency 0 or 1 there is no loop of the scheme to compare with (CompactLoop).
    */
  lemma {:induction false} CRunIs(s: CState, r: Rules, ops: seq<Op>)
    requires CGood(s, r) && forall op :: op in ops ==> OpOk(op)
    ensures StopsAt(CRun(s, r, ops), r)
    ensures match CRun(s, r, ops)
      case Ran((t, rs)) =>
        && CGood(t, r) && t.view.current == SumData(t.view.cs)
        && (r.frequency != 0 && r.frequency != 1 ==> DRun(Plain(s), r, ops) == (Plain(t), rs))
      case _ => true
    decreases |ops|
  {
    if ops != [] {
      CStepIs(s, r, ops[0]);
      if CStep(s, r, ops[0]).Ran? {
        CRunIs(CStep(s, r, ops[0]).value.0, r, ops[1..]);
      }
    }
  }

  // ---------- the frequency ----------

  /** The rules with another compaction frequency. */
  function Every(r: Rules, frequency: int): Rules { r.(frequency := frequency) }

  lemma {:induction false} AllotVEvery(v: View, r: Rules, f: int, need: nat)
    requires VGood(v, r) && VGood(v, Every(r, f)) && r.slab <= need <= r.total
    ensures AllotV(v, r, need) == AllotV(v, Every(r, f), need)
    decreases |Busy(v.cs)|
  {
    if Choose(v.cs, need, r.best).None? {
      var u := v.(due := Counted(v.due));
      HoleOrVictim(v.cs, r, need);
      var i := Victim(v.cs).value;
      if !(u.due == 0 && r.total - v.current >= need) && RightAt(u, i) {
        RemoveKeeps(u, r, i);
        RemoveKeeps(u, Every(r, f), i);
        DiscardCount(v.cs, r, i);
        AllotVEvery(Remove(u, i).0, r, f, need);
      }
    }
  }

  lemma CPutEvery(d: View, mem: Bytes, r: Rules, f: int, k: string, data: Bytes, flags: nat, now: nat)
    requires VGood(d, r) && VGood(d, Every(r, f)) && |mem| == r.total && FitsTable(Conf(r), |data|)
    ensures CPut(d, mem, r, k, data, flags, now) == CPut(d, mem, Every(r, f), k, data, flags, now)
  {
    var need := Max(|data|, r.slab);
    AllotVEvery(d, r, f, need);
    AllotVKeeps(d, r, need, mem);
    if AllotV(d, r, need).Ran? {
      var (t, i) := AllotV(d, r, need).value;
      TiledBounds(t.cs, r.total, i);
    }
  }

  lemma CStepEvery(s: CState, r: Rules, f: int, op: Op)
    requires CGood(s, r) && CGood(s, Every(r, f)) && OpOk(op)
    ensures CStep(s, r, op) == CStep(s, Every(r, f), op)
  {
    match op
    case Set(k, data, flags, now) =>
      CDropKeeps(s.view, r, k);
      CDropKeeps(s.view, Every(r, f), k);
      if CDrop(s.view, k).Ran? && FitsTable(Conf(r), |data|) {
        CPutEvery(CDrop(s.view, k).value, s.mem, r, f, k, data, flags, now);
      }
    case Get(k, now) =>
    case Delete(k) =>
    case Flush =>
  }

  /** As far as it is followed, a run does not depend on the compaction frequency. */
  lemma {:induction false} CRunEvery(s: CState, r: Rules, f: int, ops: seq<Op>)
    requires CGood(s, r) && CGood(s, Every(r, f)) && forall op :: op in ops ==> OpOk(op)
    ensures CRun(s, r, ops) == CRun(s, Every(r, f), ops)
    decreases |ops|
  {
    if ops != [] {
      CStepEvery(s, r, f, ops[0]);
      CStepIs(s, r, ops[0]);
      CStepIs(s, Every(r, f), ops[0]);
      if CStep(s, r, ops[0]).Ran? {
        CRunEvery(CStep(s, r, ops[0]).value.0, r, f, ops[1..]);
      }
    }
  }

  /** As coded, a run that gets through answers as the lossy map allows, whatever the compaction frequency. */
  lemma CodedRefines(s: CState, r: Rules, h: History, ops: seq<Op>)
    requires CGood(s, r) && forall op :: op in ops ==> OpOk(op)
    requires Holds(State(s.view.cs, s.mem), Conf(r), h)
    ensures CRun(s, r, ops).Ran? ==>
              var (t, rs) := CRun(s, r, ops).value;
              && |rs| == |ops| && CGood(t, r) && AllAllowed(h, Conf(r), ops, rs)
              && Holds(State(t.view.cs, t.mem), Conf(r), Past(h, Conf(r), ops, rs))
  {
    CRunIs(s, r, ops);
    CRunEvery(s, r, -1, ops);
    CRunIs(s, Every(r, -1), ops);
    DRunRefines(Plain(s), Every(r, -1), h, ops);
  }

  /** A run that does not get through ran up to some command, and stops there as that command does. */
  lemma {:induction false} CRunStops(s: CState, r: Rules, ops: seq<Op>) returns (n: nat)
    requires CGood(s, r) && (forall op :: op in ops ==> OpOk(op)) && !CRun(s, r, ops).Ran?
    ensures n < |ops| && CRun(s, r, ops[..n]).Ran? && CGood(CRun(s, r, ops[..n]).value.0, r)
    ensures match CStep(CRun(s, r, ops[..n]).value.0, r, ops[n])
      case Ran(_) => false
      case DeletesStale(w, i) => CRun(s, r, ops) == DeletesStale(w, i)
      case Compacts(w, m) => CRun(s, r, ops) == Compacts(w, m)
    decreases |ops|
  {
    CStepIs(s, r, ops[0]);
    if CStep(s, r, ops[0]).Ran? {
      var t, rest := CStep(s, r, ops[0]).value.0, ops[1..];
      var m := CRunStops(t, r, rest);
      n := m + 1;
      assert ops[..n][0] == ops[0] && ops[..n][1..] == rest[..m];
      CRunUnfold(s, r, ops[..n]);
    } else {
      n := 0;
      assert ops[..0] == [];
    }
  }

  /** Once the first command has run, the rest of the run decides. */
  lemma CRunUnfold(s: CState, r: Rules, ops: seq<Op>)
    requires CGood(s, r) && (forall op :: op in ops ==> OpOk(op)) && ops != [] && CStep(s, r, ops[0]).Ran?
    ensures var (t, a) := CStep(s, r, ops[0]).value;
            && CGood(t, r)
            && (CRun(s, r, ops).Ran? <==> CRun(t, r, ops[1..]).Ran?)
            && (CRun(s, r, ops).Ran? ==> CRun(s, r, ops).value.0 == CRun(t, r, ops[1..]).value.0)
            && (!CRun(s, r, ops).Ran? ==> CRun(s, r, ops) == CRun(t, r, ops[1..]))
  {
    CStepIs(s, r, ops[0]);
  }
}
