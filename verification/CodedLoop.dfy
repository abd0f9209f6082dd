/**
  The allocation loop of the dynamic scheme as coded, turn by turn, links, compactions and
  all: which requests find a chunk, which never end, and which come to a deletion that never
  ends because of a `prev` the loop itself has made wrong.
  */
module CodedLoop {
  import opened Basics
  import opened Chunks
  import opened BuddyCache
  import opened BuddySpec
  import opened DynamicSpec
  import opened CompactionSpec
  import opened DynamicRun
  import opened Dictionary
  import opened CodedRun
  import opened CodedLists
  import opened CompactView
  import opened StaleLinks

  // ---------- turns of a loop ----------

  /**
    What a turn comes to: a chunk is found; the loop goes on; a node with a wrong `prev` is
    deleted; or there is no victim, whose key the source then reads through NULL.
    */
  datatype Turn = Found(at: View, i: nat) | Goes(next: View) | Deletes(at: View, i: nat) | NoVictim

  /** After n turns, or where the loop stopped before. */
  function Turns(turn: View -> Turn, v: View, n: nat): Turn
    decreases n
  {
    if n == 0 then Goes(v)
    else
      match turn(v)
      case Goes(w) => Turns(turn, w, n - 1)
      case Found(w, i) => Found(w, i)
      case Deletes(w, i) => Deletes(w, i)
      case NoVictim => NoVictim
  }

  /** The loop comes to this. */
  ghost predicate Comes(turn: View -> Turn, v: View, o: Turn) {
    exists n: nat :: Turns(turn, v, n) == o
  }

  /** However many turns are made, the loop goes on. */
  ghost predicate Endless(turn: View -> Turn, v: View) {
    forall n: nat :: Turns(turn, v, n).Goes?
  }

  lemma ComesNow(turn: View -> Turn, v: View)
    ensures Comes(turn, v, turn(v)) && Comes(turn, v, Goes(v))
  {
    assert Turns(turn, v, 0) == Goes(v);
    if turn(v).Goes? { assert Turns(turn, turn(v).next, 0) == turn(v); }
    assert Turns(turn, v, 1) == turn(v);
  }

  /** What the loop comes to from the next state it comes to from this one. */
  lemma ComesOn(turn: View -> Turn, v: View, w: View, o: Turn)
    requires turn(v) == Goes(w) && Comes(turn, w, o)
    ensures Comes(turn, v, o)
  {
    var n: nat :| Turns(turn, w, n) == o;
    assert Turns(turn, v, n + 1) == o;
  }

  lemma {:induction false} TurnsThrough(turn: View -> Turn, v: View, w: View, n: nat, o: Turn)
    requires Turns(turn, v, n) == Goes(w) && Comes(turn, w, o)
    ensures Comes(turn, v, o)
    decreases n
  {
    if n > 0 {
      TurnsThrough(turn, turn(v).next, w, n - 1, o);
      ComesOn(turn, v, turn(v).next, o);
    }
  }

  lemma ComesThrough(turn: View -> Turn, v: View, w: View, o: Turn)
    requires Comes(turn, v, Goes(w)) && Comes(turn, w, o)
    ensures Comes(turn, v, o)
  {
    var n: nat :| Turns(turn, v, n) == Goes(w);
    TurnsThrough(turn, v, w, n, o);
  }

  /** Once it has stopped the loop has stopped for good. */
  lemma {:induction false} StopsOnce(turn: View -> Turn, v: View, n: nat, m: nat)
    requires !Turns(turn, v, n).Goes? && n <= m
    ensures Turns(turn, v, m) == Turns(turn, v, n)
    decreases n
  {
    if turn(v).Goes? { StopsOnce(turn, turn(v).next, n - 1, m - 1); }
  }

  /** It stops in one way at most. */
  lemma OneEnd(turn: View -> Turn, v: View, o: Turn)
    requires Comes(turn, v, o) && !o.Goes?
    ensures !Endless(turn, v) && forall p: Turn :: Comes(turn, v, p) && !p.Goes? ==> p == o
  {
    var n: nat :| Turns(turn, v, n) == o;
    forall m: nat | !Turns(turn, v, m).Goes? ensures Turns(turn, v, m) == o {
      if m < n { StopsOnce(turn, v, m, n); } else { StopsOnce(turn, v, n, m); }
    }
  }

  lemma {:induction false} SameAgain(turn: View -> Turn, v: View, n: nat)
    requires turn(v) == Goes(v)
    ensures Turns(turn, v, n) == Goes(v)
    decreases n
  {
    if n > 0 { SameAgain(turn, v, n - 1); }
  }

  /** A loop that comes to a state it does not leave never ends. */
  lemma EndlessFrom(turn: View -> Turn, v: View, w: View)
    requires Comes(turn, v, Goes(w)) && turn(w) == Goes(w)
    ensures Endless(turn, v)
  {
    var m: nat :| Turns(turn, v, m) == Goes(w);
    forall n: nat ensures Turns(turn, v, n).Goes? { AlwaysGoes(turn, v, w, n, m); }
  }

  lemma {:induction false} AlwaysGoes(turn: View -> Turn, v: View, w: View, n: nat, m: nat)
    requires Turns(turn, v, m) == Goes(w) && turn(w) == Goes(w)
    ensures Turns(turn, v, n).Goes?
    decreases n
  {
    if m == 0 {
      SameAgain(turn, w, n);
    } else if n > 0 {
      AlwaysGoes(turn, turn(v).next, w, n - 1, m - 1);
    }
  }

  // ---------- the loop of diccionario_obtenerDireccion ----------

  /** Compaction is due and its guard holds. */
  predicate DueNow(v: View, r: Rules, need: nat) {
    Counted(v.due) == 0 && r.total - v.current >= need
  }

  function TurnV(v: View, r: Rules, need: nat): Turn
    requires Shaped(v)
  {
    match Choose(v.cs, need, r.best)
    case Some(i) => Found(v, i)
    case None =>
      var u := v.(due := Counted(v.due));
      if DueNow(v, r, need) then Goes(CompactV(u).(due := r.frequency))
      else
        match Victim(u.cs)
        case None => NoVictim
        case Some(i) => if RightAt(u, i) then Goes(Remove(u, i).0) else Deletes(u, i)
  }

  /** The loop of a request; every table has a first node. */
  function Loop(r: Rules, need: nat): View -> Turn {
    (v: View) => if Shaped(v) then TurnV(v, r, need) else NoVictim
  }

  // ---------- a deletion, node by node ----------

  /** The nodes from p + 1 to q have left the list, and behind the next node no `prev` has changed. */
  ghost predicate NodesGone(v: View, w: View, p: nat, q: nat) {
    && Shaped(v) && Shaped(w) && p < q <= |v.cs| && |w.cs| == |v.cs| - q + p + 1
    && (forall k :: 0 <= k <= p ==> w.live[k] == v.live[k] && w.back[k] == v.back[k])
    && (forall k :: p < k < |w.cs| ==> w.live[k] == v.live[k - p - 1 + q])
    && (forall k :: p + 1 < k < |w.cs| ==> w.back[k] == v.back[k - p - 1 + q])
    && (forall x :: x in v.pool ==> x in w.pool) && (forall k :: p < k < q ==> v.live[k] in w.pool)
  }

  /** A deletion as coded, with no two unoccupied chunks side by side. */
  lemma RemoveShape(v: View, i: nat, w: View, p: nat, q: nat)
    requires Shaped(v) && CoalescedBut(v.cs, -1) && i < |v.cs| && v.cs[i].used
    requires w == Remove(v, i).0 && p == JoinFrom(v.cs, i) && q == JoinTo(v.cs, i)
    ensures NodesGone(v, w, p, q) && w.cs == Without(v.cs, i)
    ensures w.due == v.due && w.current == v.current - v.cs[i].dataSize
    ensures p + 1 < |w.cs| ==> w.back[p + 1] == if q == i + 1 && p < i then v.live[p] else v.back[q]
  {
    var c := Cleared(v, i);
    var b, j := BackShape(c, v, i);
    BackVIs(c, i);
    FrontVIs(b, j);
    RemoveCs(v, i);
    BackGone(v, i, c, b, p);
    FrontGone(v, i, b, p, q, w);
  }

  lemma RemoveCs(v: View, i: nat)
    requires Shaped(v) && CoalescedBut(v.cs, -1) && i < |v.cs| && v.cs[i].used
    ensures Remove(v, i).0.cs == Without(v.cs, i)
  {
    BackVIs(Cleared(v, i), i);
    FrontVIs(BackV(Cleared(v, i), i).0, BackV(Cleared(v, i), i).1);
    DiscardShape(v.cs, i);
  }

  /** The backward loop makes one round at most. */
  lemma BackShape(c: View, v: View, i: nat) returns (b: View, j: nat)
    requires Shaped(v) && CoalescedBut(v.cs, -1) && i < |v.cs| && v.cs[i].used && c == Cleared(v, i)
    ensures (b, j) == BackV(c, i) && j == JoinFrom(v.cs, i)
    ensures b == if j < i then CutBack(c, i) else c
  {
    if i > 0 && !v.cs[i - 1].used {
      CutBackLinks(c, i);
      var d := CutBack(c, i);
      assert i > 1 ==> d.cs[i - 2] == v.cs[i - 2] && v.cs[i - 2].used;
      assert BackV(d, i - 1) == (d, i - 1);
    }
    b, j := BackV(c, i).0, BackV(c, i).1;
  }

  /** After it the nodes up to the deleted one have become one. */
  lemma BackGone(v: View, i: nat, c: View, b: View, p: nat)
    requires Shaped(v) && i < |v.cs| && v.cs[i].used && c == Cleared(v, i) && p == JoinFrom(v.cs, i)
    requires b == if p < i then CutBack(c, i) else c
    ensures NodesGone(v, b, p, i + 1) && b.due == v.due && b.current == v.current - v.cs[i].dataSize
    ensures p + 1 < |b.cs| ==> b.cs[p + 1] == v.cs[i + 1] && b.back[p + 1] == if p < i then v.live[p] else v.back[i + 1]
    ensures p + 2 < |b.cs| ==> b.cs[p + 2] == v.cs[i + 2]
  {
    if p < i { BackCut(c, v, i, b); }
  }

  lemma BackCut(c: View, v: View, i: nat, b: View)
    requires Shaped(v) && 0 < i < |v.cs| && c == Cleared(v, i) && b == CutBack(c, i)
    ensures NodesGone(v, b, i - 1, i + 1) && b.due == v.due && b.current == c.current
    ensures i < |b.cs| ==> b.cs[i] == v.cs[i + 1] && b.back[i] == v.live[i - 1]
    ensures i + 1 < |b.cs| ==> b.cs[i + 1] == v.cs[i + 2]
  {
    CutBackLinks(c, i);
    assert b.pool == [v.live[i]] + v.pool;
    assert b.live == Removed(v.live, i);
  }

  /** And the forward loop. */
  lemma FrontGone(v: View, i: nat, b: View, p: nat, q: nat, w: View)
    requires Shaped(v) && CoalescedBut(v.cs, -1) && i < |v.cs| && q == JoinTo(v.cs, i) && p <= i
    requires NodesGone(v, b, p, i + 1) && w == FrontV(b, p)
    requires p + 1 < |b.cs| ==> b.cs[p + 1] == v.cs[i + 1]
    requires p + 2 < |b.cs| ==> b.cs[p + 2] == v.cs[i + 2]
    ensures NodesGone(v, w, p, q) && w.due == b.due && w.current == b.current
    ensures p + 1 < |w.cs| ==> w.back[p + 1] == if q == i + 2 then v.back[q] else b.back[p + 1]
  {
    if q == i + 2 {
      var e := CutFront(b, p);
      assert p + 2 < |b.cs| ==> v.cs[i + 1].used || v.cs[i + 2].used;
      FrontEnds(b, p);
      FrontCut(v, i, b, p, e);
    }
  }

  lemma FrontEnds(b: View, p: nat)
    requires Shaped(b) && p + 1 < |b.cs| && !b.cs[p + 1].used && (p + 2 < |b.cs| ==> b.cs[p + 2].used)
    ensures FrontV(b, p) == CutFront(b, p)
  {
    CutFrontLinks(b, p);
    var e := CutFront(b, p);
    assert p + 1 < |e.cs| ==> e.cs[p + 1] == b.cs[p + 2];
    assert FrontV(e, p) == e;
  }

  lemma FrontCut(v: View, i: nat, b: View, p: nat, e: View)
    requires NodesGone(v, b, p, i + 1) && i + 1 < |v.cs| && p <= i && p + 1 < |b.cs| && e == CutFront(b, p)
    ensures NodesGone(v, e, p, i + 2) && e.due == b.due && e.current == b.current
    ensures p + 1 < |e.cs| ==> e.back[p + 1] == v.back[i + 2]
  {
    CutFrontLinks(b, p);
    assert e.live == Removed(b.live, p + 1) && e.back == Removed(b.back, p + 1);
    PoolGone(v.live, v.pool, b.pool, e.pool, p, i);
  }

  lemma PoolGone(live: Order, before: Order, b: Order, e: Order, p: nat, i: nat)
    requires i + 1 < |live| && e == [live[i + 1]] + b
    requires (forall x :: x in before ==> x in b) && (forall k :: p < k < i + 1 ==> live[k] in b)
    ensures (forall x :: x in before ==> x in e) && (forall k :: p < k < i + 2 ==> live[k] in e)
  {
    assert e[0] == live[i + 1] && forall x :: x in b ==> x in e;
  }

  // ---------- links the loop breaks ----------

  /** A stored node behind an unoccupied one whose `prev` is a spare node. */
  predicate AfterGap(v: View, k: nat)
    requires Shaped(v) && k < |v.cs|
  {
    k > 0 && v.cs[k].used && !v.cs[k - 1].used && v.back[k] in v.pool
  }

  /** The links the loop itself leaves: right, or of a node behind a gap and into the pool. */
  ghost predicate LoopLinks(v: View) {
    Shaped(v) && forall k :: 0 <= k < |v.cs| ==> RightAt(v, k) || AfterGap(v, k)
  }

  lemma RightLinks(v: View)
    requires AllRightBut(v, -1)
    ensures LoopLinks(v)
  {
  }

  /** A wrong `prev` and a stored chunk that will be evicted. The chunks f are left. */
  ghost predicate Broken(v: View, f: seq<Chunk>)
    requires Shaped(v)
  {
    exists k :: 0 <= k < |v.cs| && v.cs[k].used && v.cs[k] !in f && !RightAt(v, k)
  }

  /** The stored chunk at i, whose `prev` is right, has been deleted: v has become w. */
  ghost predicate Gone(v: View, i: nat, w: View, p: nat, q: nat)
    requires Shaped(v) && i < |v.cs|
  {
    && p == JoinFrom(v.cs, i) && q == JoinTo(v.cs, i) && v.cs[i].used && RightAt(v, i)
    && NodesGone(v, w, p, q) && JoinedAs(v.cs, w.cs, p, q)
    && (p + 1 < |w.cs| ==> w.back[p + 1] == if q == i + 1 && p < i then v.live[p] else v.back[q])
  }

  /** Where the `prev` is wrong then: where it was, and behind a gap the victim was merged with. */
  lemma WrongAfter(v: View, i: nat, w: View, p: nat, q: nat, k: nat)
    requires LoopLinks(v) && NodesApart(v) && i < |v.cs| && Gone(v, i, w, p, q) && k < |w.cs|
    ensures k <= p ==> (RightAt(w, k) <==> RightAt(v, k))
    ensures k == p + 1 ==> (RightAt(w, k) <==> !LeavesGap(v.cs, i))
    ensures k > p + 1 ==> (RightAt(w, k) <==> RightAt(v, k - p - 1 + q))
  {
    if k == p + 1 {
      assert RightAt(v, q) || AfterGap(v, q);
      assert q == i + 2 ==> v.live[p] != v.live[i + 1];
    }
  }

  lemma LoopLinksKeep(v: View, i: nat, w: View, p: nat, q: nat)
    requires LoopLinks(v) && NodesApart(v) && CoalescedBut(v.cs, -1) && i < |v.cs| && Gone(v, i, w, p, q)
    ensures LoopLinks(w)
  {
    forall k | 0 <= k < |w.cs| ensures RightAt(w, k) || AfterGap(w, k) {
      WrongAfter(v, i, w, p, q, k);
      var x := if k <= p then k else k - p - 1 + q;
      assert RightAt(v, x) || AfterGap(v, x);
    }
  }

  /** One eviction: a chunk that will be evicted has a wrong `prev` if it had, or if the victim leaves it one. */
  lemma BrokenStep(v: View, i: nat, w: View, p: nat, q: nat, f: seq<Chunk>)
    requires LoopLinks(v) && NodesApart(v) && CoalescedBut(v.cs, -1) && i < |v.cs| && Gone(v, i, w, p, q)
    ensures Broken(w, f) <==> Broken(v, f) || (LeavesGap(v.cs, i) && v.cs[i + 2] !in f)
  {
    if Broken(w, f) { BrokenBefore(v, i, w, p, q, f); }
    if LeavesGap(v.cs, i) && v.cs[i + 2] !in f {
      WrongAfter(v, i, w, p, q, p + 1);
      assert w.cs[p + 1] == v.cs[i + 2];
    }
    if Broken(v, f) { BrokenThen(v, i, w, p, q, f); }
  }

  lemma BrokenBefore(v: View, i: nat, w: View, p: nat, q: nat, f: seq<Chunk>)
    requires LoopLinks(v) && NodesApart(v) && i < |v.cs| && Gone(v, i, w, p, q) && Broken(w, f)
    ensures Broken(v, f) || (LeavesGap(v.cs, i) && v.cs[i + 2] !in f)
  {
    var k :| 0 <= k < |w.cs| && w.cs[k].used && w.cs[k] !in f && !RightAt(w, k);
    WrongAfter(v, i, w, p, q, k);
    assert w.cs[k] == v.cs[if k < p then k else k - p - 1 + q];
  }

  lemma BrokenThen(v: View, i: nat, w: View, p: nat, q: nat, f: seq<Chunk>)
    requires LoopLinks(v) && NodesApart(v) && CoalescedBut(v.cs, -1) && i < |v.cs| && Gone(v, i, w, p, q) && Broken(v, f)
    ensures Broken(w, f)
  {
    var k :| 0 <= k < |v.cs| && v.cs[k].used && v.cs[k] !in f && !RightAt(v, k);
    assert AfterGap(v, k) && (k < p || k >= q);
    var x: nat := if k < p then k else k - q + p + 1;
    WrongAfter(v, i, w, p, q, x);
    assert w.cs[x] == v.cs[k];
  }

  // ---------- evictions ----------

  /** Where the loop may stand. */
  ghost predicate InLoop(v: View, r: Rules, need: nat) {
    LoopLinks(v) && NodesApart(v) && Leaky(v.cs, r.total) && need <= r.total
  }

  function StageOf(v: View): Stage { Stage(v.cs, v.due, v.current) }

  /** Nothing fits and compaction does not come now. */
  predicate EvictsNow(v: View, r: Rules, need: nat) { Evicts(StageOf(v), r, need) }

  /** A turn that evicts, when the victim's `prev` is right. */
  lemma TurnEvicts(v: View, r: Rules, need: nat, i: nat, w: View, p: nat, q: nat)
    requires InLoop(v, r, need) && EvictsNow(v, r, need) && Victim(v.cs) == Some(i) && RightAt(v, i) && v.cs[i].used
    requires w == Remove(v.(due := Counted(v.due)), i).0 && p == JoinFrom(v.cs, i) && q == JoinTo(v.cs, i)
    ensures TurnV(v, r, need) == Goes(w) && Gone(v, i, w, p, q) && w.cs == Without(v.cs, i)
    ensures LoopLinks(w) && NodesApart(w) && w.due == Counted(v.due) && w.current == v.current - v.cs[i].dataSize
  {
    var u := v.(due := Counted(v.due));
    assert RightAt(u, i);
    RemoveShape(u, i, w, p, q);
    RemoveApart(u, i);
    EvictShape(v.cs, r.total, i, w.cs, p, q);
    LoopLinksKeep(v, i, w, p, q);
  }

  lemma TurnDeletes(v: View, r: Rules, need: nat, i: nat)
    requires InLoop(v, r, need) && EvictsNow(v, r, need) && Victim(v.cs) == Some(i) && !RightAt(v, i) && v.cs[i].used
    ensures TurnV(v, r, need) == Deletes(v.(due := Counted(v.due)), i) && Hangs(v.(due := Counted(v.due)), i)
  {
    var u := v.(due := Counted(v.due));
    assert !RightAt(u, i) && AfterGap(v, i);
    PoolHangs(u, i);
  }

  /** Some chunk that is evicted has a wrong `prev`, or will be given one. The chunks f are left. */
  ghost predicate Danger(v: View, f: seq<Chunk>)
    requires Shaped(v)
  {
    Broken(v, f) || Trapped(v.cs, f)
  }

  lemma DangerSame(v: View, i: nat, w: View, p: nat, q: nat, f: seq<Chunk>)
    requires LoopLinks(v) && NodesApart(v) && CoalescedBut(v.cs, -1) && FirstToGo(v.cs, i) && Gone(v, i, w, p, q)
    ensures Danger(w, f) <==> Danger(v, f)
  {
    BrokenStep(v, i, w, p, q, f);
    TrappedStep(v.cs, w.cs, p, q, i, f);
  }

  /** One eviction, when it gets through. */
  lemma EvictsOn(v: View, r: Rules, need: nat, i: nat, w: View, f: seq<Chunk>)
    requires InLoop(v, r, need) && EvictsNow(v, r, need) && Victim(v.cs) == Some(i) && RightAt(v, i) && v.cs[i].used
    requires w == Remove(v.(due := Counted(v.due)), i).0
    ensures TurnV(v, r, need) == Goes(w) && InLoop(w, r, need) && (Danger(w, f) <==> Danger(v, f))
    ensures w.cs == Without(v.cs, i) && w.due == Counted(v.due) && w.current == v.current - v.cs[i].dataSize
  {
    var p, q := JoinFrom(v.cs, i), JoinTo(v.cs, i);
    TurnEvicts(v, r, need, i, w, p, q);
    EvictLeaky(v.cs, r.total, need, r.best);
    VictimSooner(v.cs, r.total, i);
    DangerSame(v, i, w, p, q, f);
  }

  /** A deletion that never ends, of an item with a `prev` the loop has made wrong. */
  ghost predicate HangsThere(o: Turn) { o.Deletes? && Hangs(o.at, o.i) }

  /** The evictions are over. */
  ghost predicate EvictionsOver(o: Turn, r: Rules, need: nat, f: Stage) {
    o.Goes? && InLoop(o.next, r, need) && StageOf(o.next) == f && !EvictsNow(o.next, r, need)
  }

  /** Where evictions that take the list to f end. */
  ghost predicate EvictionsEnd(v: View, r: Rules, need: nat, f: Stage, o: Turn)
    requires Shaped(v)
  {
    && Comes(Loop(r, need), v, o)
    && (if Danger(v, f.cs) then HangsThere(o) else EvictionsOver(o, r, need, f))
  }

  lemma StoredVictim(v: View, r: Rules, need: nat) returns (i: nat)
    requires InLoop(v, r, need) && EvictsNow(v, r, need)
    ensures Victim(v.cs) == Some(i) && i < |v.cs| && v.cs[i].used
  {
    EvictLeaky(v.cs, r.total, need, r.best);
    i := Victim(v.cs).value;
  }

  lemma EvictsAlong(v: View, r: Rules, need: nat, i: nat, b: Stage, f: seq<Chunk>) returns (w: View)
    requires InLoop(v, r, need) && Victim(v.cs) == Some(i) && v.cs[i].used && RightAt(v, i) && Follows(StageOf(v), b, r, need)
    ensures TurnV(v, r, need) == Goes(w) && InLoop(w, r, need) && StageOf(w) == b && (Danger(w, f) <==> Danger(v, f))
  {
    w := Remove(v.(due := Counted(v.due)), i).0;
    EvictsOn(v, r, need, i, w, f);
  }

  /** What is evicted is not left. */
  lemma VictimNotLeft(v: View, r: Rules, need: nat, i: nat, ls: seq<Stage>, f: seq<Chunk>)
    requires InLoop(v, r, need) && Victim(v.cs) == Some(i) && v.cs[i].used && Trail(ls, r, need) && Follows(StageOf(v), ls[0], r, need)
    requires f == ls[|ls| - 1].cs
    ensures v.cs[i] !in f
  {
    var x, g := EvictedStep(v.cs, r, need);
    TrailOnly(ls, r, need);
  }

  /**
    The evictions get through exactly when none of the chunks they take has a wrong `prev`
    already, and none is crossed: no item goes after everything stored between it and that
    chunk, and before that chunk. Otherwise the loop comes to a deletion that never ends.
    */
  lemma {:induction false} EvictionsComeTo(v: View, r: Rules, need: nat, ls: seq<Stage>, f: Stage) returns (o: Turn)
    requires InLoop(v, r, need) && Trail(ls, r, need) && ls[0] == StageOf(v) && f == ls[|ls| - 1]
    ensures EvictionsEnd(v, r, need, f, o)
    decreases |ls|
  {
    if |ls| > 1 {
      TrailTail(ls, r, need);
      var i := StoredVictim(v, r, need);
      if RightAt(v, i) {
        var w := EvictsAlong(v, r, need, i, ls[1], f.cs);
        o := EvictionsComeTo(w, r, need, ls[1..], f);
        EndsAsNext(v, r, need, f, w, o);
      } else {
        VictimNotLeft(v, r, need, i, ls[1..], f.cs);
        o := EndsHere(v, r, need, f, i);
      }
    } else {
      o := Goes(v);
      NothingEvicted(v, r, need, f);
    }
  }

  lemma EndsAsNext(v: View, r: Rules, need: nat, f: Stage, w: View, o: Turn)
    requires Shaped(v) && Shaped(w) && TurnV(v, r, need) == Goes(w) && (Danger(w, f.cs) <==> Danger(v, f.cs))
    requires EvictionsEnd(w, r, need, f, o)
    ensures EvictionsEnd(v, r, need, f, o)
  {
    ComesOn(Loop(r, need), v, w, o);
  }

  lemma EndsHere(v: View, r: Rules, need: nat, f: Stage, i: nat) returns (o: Turn)
    requires InLoop(v, r, need) && EvictsNow(v, r, need) && Victim(v.cs) == Some(i) && !RightAt(v, i) && v.cs[i].used
    requires v.cs[i] !in f.cs
    ensures EvictionsEnd(v, r, need, f, o)
  {
    TurnDeletes(v, r, need, i);
    o := TurnV(v, r, need);
    ComesNow(Loop(r, need), v);
    assert Broken(v, f.cs);
  }

  lemma NothingEvicted(v: View, r: Rules, need: nat, f: Stage)
    requires InLoop(v, r, need) && !EvictsNow(v, r, need) && f == StageOf(v)
    ensures EvictionsEnd(v, r, need, f, Goes(v))
  {
    ComesNow(Loop(r, need), v);
  }

  // ---------- after the evictions ----------

  /** A chunk fits: it is found. */
  lemma FoundNow(v: View, r: Rules, need: nat)
    requires Shaped(v) && Choose(v.cs, need, r.best).Some?
    ensures Comes(Loop(r, need), v, Found(v, Choose(v.cs, need, r.best).value))
  {
    ComesNow(Loop(r, need), v);
  }

  /** The view after the compaction that is due. */
  function Compacted(v: View, r: Rules): View
    requires Shaped(v)
  {
    CompactV(v.(due := Counted(v.due))).(due := r.frequency)
  }

  lemma CompactsNext(v: View, r: Rules, need: nat)
    requires Shaped(v) && Choose(v.cs, need, r.best).None? && DueNow(v, r, need)
    ensures TurnV(v, r, need) == Goes(Compacted(v, r)) && Shaped(Compacted(v, r))
    ensures Compacted(v, r).cs == Compact(v.cs, false) && Compacted(v, r).current == v.current
    ensures Comes(Loop(r, need), v, Goes(Compacted(v, r)))
  {
    CompactVIs(v.(due := Counted(v.due)));
    ComesNow(Loop(r, need), v);
  }

  /** With frequency 0 or 1 the loop does not get over a compaction as coded. */
  lemma CompactionStays(v: View, r: Rules, need: nat)
    requires Shaped(v) && Carved(v.cs, r) && (r.frequency == 0 || r.frequency == 1)
    requires Choose(v.cs, need, r.best).None? && DueNow(v, r, need)
    ensures Endless(Loop(r, need), v)
  {
    CompactsNext(v, r, need);
    var c := Compacted(v, r);
    CodedFixed(v.cs, r, need);
    CompactsNext(c, r, need);
    CompactedAgain(v, c, r);
    EndlessFrom(Loop(r, need), v, c);
  }

  lemma CompactedAgain(v: View, c: View, r: Rules)
    requires Shaped(v) && Carved(v.cs, r) && c == Compacted(v, r) && Shaped(c) && (r.frequency == 0 || r.frequency == 1)
    requires c.cs == Compact(v.cs, false)
    ensures Compacted(c, r) == c
  {
    OneFreeAtMost(v.cs, r);
    var u := c.(due := Counted(c.due));
    assert CompactV(u) == u;
  }

  /** Compaction as coded leaves no free chunk but possibly the last. */
  lemma OneFreeAtMost(cs: seq<Chunk>, r: Rules)
    requires Carved(cs, r)
    ensures var t := Compact(cs, false); FirstFree(t) >= |t| - 1
  {
    CodedLast(cs, r);
    var t := Compact(cs, false);
    var f := FirstFree(t);
    assert f < |t| ==> !t[f].used;
  }

  /** After a compaction as coded every `prev` is right. */
  lemma CompactedRight(v: View, r: Rules, need: nat)
    requires InLoop(v, r, need) && Carved(v.cs, r)
    ensures InLoop(Compacted(v, r), r, need) && AllRightBut(Compacted(v, r), -1)
    ensures Compacted(v, r).cs == Compact(v.cs, false) && Compacted(v, r).current == v.current
  {
    var u, w := v.(due := Counted(v.due)), Compacted(v, r);
    CompactVIs(u);
    CompactVLinks(u);
    CodedLeaky(v.cs, r);
    var f := FirstFree(v.cs);
    forall k | 0 <= k < |w.cs| ensures RightAt(w, k) {
      if f == |v.cs| {
        assert RightAt(v, k) || AfterGap(v, k);
        assert v.cs[k] in v.cs && (k > 0 ==> v.cs[k - 1] in v.cs);
      } else if k <= f {
        RightBefore(v, w, f, k, r);
      } else {
        assert RightAt(CompactV(u), k);
      }
    }
  }

  lemma RightBefore(v: View, w: View, f: nat, k: nat, r: Rules)
    requires LoopLinks(v) && Carved(v.cs, r) && f == FirstFree(v.cs) < |v.cs| && Shaped(w) && k <= f < |w.cs|
    requires w.live[..f + 1] == v.live[..f + 1] && w.back[..f + 1] == v.back[..f + 1]
    ensures RightAt(w, k)
  {
    assert RightAt(v, k) || AfterGap(v, k);
    assert v.cs[k] in v.cs && (k > 0 ==> v.cs[k - 1] in v.cs);
    assert w.back[k] == w.back[..f + 1][k] && v.back[k] == v.back[..f + 1][k];
    assert k > 0 ==> w.live[k - 1] == w.live[..f + 1][k - 1] && v.live[k - 1] == v.live[..f + 1][k - 1];
  }

  // ---------- what becomes of a request ----------

  /** A chunk is found; compactions go on for ever; or a deletion never ends. */
  datatype Fate = Ends | Spins | Sticks

  /** What the evictions come to. */
  function Remaining(a: Stage, r: Rules, need: nat): Stage { Evicted(a, r, need, |a.cs|) }

  function AfterCompaction(a: Stage, r: Rules): Stage { Stage(Compact(a.cs, false), r.frequency, a.current) }

  /** The evictions that follow a compaction take a chunk that is crossed. */
  ghost predicate TrappedAfter(a: Stage, r: Rules, need: nat) {
    Trapped(AfterCompaction(a, r).cs, Remaining(AfterCompaction(a, r), r, need).cs)
  }

  /** Read off the chunks, and the links already broken. */
  ghost function FateOf(v: View, r: Rules, need: nat): Fate
    requires Shaped(v)
  {
    var f := Remaining(StageOf(v), r, need);
    if Danger(v, f.cs) then Sticks
    else if Choose(f.cs, need, r.best).Some? then Ends
    else if r.frequency == 0 || r.frequency == 1 then Spins
    else if TrappedAfter(f, r, need) then Sticks
    else Ends
  }

  /** The loop comes to it. */
  ghost predicate Meets(turn: View -> Turn, v: View, fate: Fate) {
    match fate
    case Ends => exists o: Turn :: Comes(turn, v, o) && o.Found?
    case Spins => Endless(turn, v)
    case Sticks => exists o: Turn :: Comes(turn, v, o) && HangsThere(o)
  }

  /** It comes to one of them at most. */
  lemma OneFate(turn: View -> Turn, v: View, a: Fate, b: Fate)
    requires Meets(turn, v, a) && Meets(turn, v, b)
    ensures a == b
  {
    if a != Spins { NoOtherFate(turn, v, a); }
    if b != Spins { NoOtherFate(turn, v, b); }
  }

  lemma NoOtherFate(turn: View -> Turn, v: View, a: Fate)
    requires Meets(turn, v, a) && a != Spins
    ensures !Endless(turn, v) && !Meets(turn, v, if a == Ends then Sticks else Ends)
  {
    var o :| Comes(turn, v, o) && (if a == Ends then o.Found? else HangsThere(o));
    OneEnd(turn, v, o);
  }

  lemma MeetsFrom(turn: View -> Turn, v: View, w: View, fate: Fate)
    requires Comes(turn, v, Goes(w)) && Meets(turn, w, fate) && fate != Spins
    ensures Meets(turn, v, fate)
  {
    var o :| Comes(turn, w, o) && (if fate == Ends then o.Found? else HangsThere(o));
    ComesThrough(turn, v, w, o);
  }

  lemma {:induction false} EndlessThrough(turn: View -> Turn, v: View, w: View, m: nat, n: nat)
    requires Turns(turn, v, m) == Goes(w) && Endless(turn, w)
    ensures Turns(turn, v, n).Goes?
    decreases n
  {
    if m == 0 {
      assert Turns(turn, w, n).Goes?;
    } else if n > 0 {
      EndlessThrough(turn, turn(v).next, w, m - 1, n - 1);
    }
  }

  lemma SpinsFrom(turn: View -> Turn, v: View, w: View)
    requires Comes(turn, v, Goes(w)) && Endless(turn, w)
    ensures Endless(turn, v)
  {
    var m: nat :| Turns(turn, v, m) == Goes(w);
    forall n: nat ensures Turns(turn, v, n).Goes? { EndlessThrough(turn, v, w, m, n); }
  }

  lemma {:induction false} UsedCount(cs: seq<Chunk>)
    ensures |UsedOf(cs)| <= |cs|
  {
    if cs != [] { UsedCount(cs[1..]); }
  }

  /** Evictions to the end, from where the loop stands. */
  lemma EvictsAll(v: View, r: Rules, need: nat) returns (ls: seq<Stage>, o: Turn)
    requires InLoop(v, r, need)
    ensures Trail(ls, r, need) && ls[0] == StageOf(v) && ls[|ls| - 1] == Remaining(StageOf(v), r, need)
    ensures EvictionsEnd(v, r, need, Remaining(StageOf(v), r, need), o)
  {
    UsedCount(v.cs);
    ls := TrailOf(StageOf(v), r, need);
    TrailIs(ls, r, need, |v.cs|);
    o := EvictionsComeTo(v, r, need, ls, ls[|ls| - 1]);
  }

  /** When no compaction can come before the last item is gone, evictions decide. */
  lemma EvictionsDecide(v: View, r: Rules, need: nat)
    requires InLoop(v, r, need) && (v.due < 0 || v.due > |UsedOf(v.cs)|)
    ensures Meets(Loop(r, need), v, if Danger(v, Remaining(StageOf(v), r, need).cs) then Sticks else Ends)
  {
    var ls, o := EvictsAll(v, r, need);
    TrailFits(ls, r, need);
    if !Danger(v, Remaining(StageOf(v), r, need).cs) {
      FoundNow(o.next, r, need);
      ComesThrough(Loop(r, need), v, o.next, Found(o.next, Choose(o.next.cs, need, r.best).value));
    }
  }

  lemma NothingBroken(v: View, f: seq<Chunk>)
    requires AllRightBut(v, -1)
    ensures Danger(v, f) <==> Trapped(v.cs, f)
  {
    forall k | 0 <= k < |v.cs| ensures RightAt(v, k) { }
  }

  /** A compaction that is due decides: with frequency 0 or 1 it goes on for ever, else the evictions after it decide. */
  lemma DueDecides(v: View, r: Rules, need: nat)
    requires InLoop(v, r, need) && Carved(v.cs, r) && Choose(v.cs, need, r.best).None? && DueNow(v, r, need)
    requires r.frequency < 2 || r.frequency > |UsedOf(v.cs)|
    ensures Meets(Loop(r, need), v, if r.frequency == 0 || r.frequency == 1 then Spins
                                    else if TrappedAfter(StageOf(v), r, need) then Sticks else Ends)
  {
    if r.frequency == 0 || r.frequency == 1 {
      CompactionStays(v, r, need);
    } else {
      var c := Compacted(v, r);
      CompactsNext(v, r, need);
      CompactedRight(v, r, need);
      CodedLeaky(v.cs, r);
      EvictionsDecide(c, r, need);
      NothingBroken(c, Remaining(StageOf(c), r, need).cs);
      assert StageOf(c) == AfterCompaction(StageOf(v), r);
      MeetsFrom(Loop(r, need), v, c, if TrappedAfter(StageOf(v), r, need) then Sticks else Ends);
    }
  }

  /**
    Main result for the loop as coded. From a good list whose links are right, or broken only
    as the loop itself breaks them, what becomes of a request is decided by the chunks: it
    ends, compacts for ever, or hangs on a `prev` that is or will be wrong. When compaction
    comes, its frequency is below 2 or above the number of items then stored.
    */
  lemma LoopFate(v: View, r: Rules, need: nat)
    requires VGood(v, r) && LoopLinks(v) && NodesApart(v) && need <= r.total
    requires var f := Remaining(StageOf(v), r, need).cs;
             Danger(v, f) || Choose(f, need, r.best).Some? || r.frequency < 2 || r.frequency > |UsedOf(f)|
    ensures Meets(Loop(r, need), v, FateOf(v, r, need))
  {
    CarvedLeaky(v.cs, r);
    var ls, o := EvictsAll(v, r, need);
    TrailCarved(ls, r, need);
    var f := Remaining(StageOf(v), r, need);
    if !Danger(v, f.cs) {
      var w := o.next;
      if Choose(f.cs, need, r.best).Some? {
        FoundNow(w, r, need);
        MeetsFrom(Loop(r, need), v, w, Ends);
      } else {
        DueDecides(w, r, need);
        if r.frequency == 0 || r.frequency == 1 { SpinsFrom(Loop(r, need), v, w); }
        else { MeetsFrom(Loop(r, need), v, w, FateOf(v, r, need)); }
      }
    }
  }

  // ---------- the coded run, and the loop ----------

  /** What AllotV comes to, as a state of the loop. */
  ghost predicate AllotsSo(v: View, r: Rules, need: nat, o: Outcome<(View, nat)>)
    requires Shaped(v)
  {
    match o
    case Ran((t, i)) =>
      exists w: View :: Comes(Loop(r, need), v, Found(w, i)) && Shaped(w) && i < |w.cs| && w.cs[i].size >= need
                        && t == TakeV(w, i, need, r.slab)
    case DeletesStale(w, i) => Comes(Loop(r, need), v, Deletes(w, i))
    case Compacts(w, n) => n == need && Shaped(w) && Comes(Loop(r, need), v, Goes(Compacted(w, r)))
  }

  lemma AllotsOn(v: View, r: Rules, need: nat, w: View, o: Outcome<(View, nat)>)
    requires Shaped(v) && Shaped(w) && TurnV(v, r, need) == Goes(w) && AllotsSo(w, r, need, o)
    ensures AllotsSo(v, r, need, o)
  {
    match o
    case Ran(p) =>
      var x :| Comes(Loop(r, need), w, Found(x, p.1)) && Shaped(x) && p.1 < |x.cs| && x.cs[p.1].size >= need
               && p.0 == TakeV(x, p.1, need, r.slab);
      ComesOn(Loop(r, need), v, w, Found(x, p.1));
    case DeletesStale(x, i) => ComesOn(Loop(r, need), v, w, Deletes(x, i));
    case Compacts(x, _) => ComesOn(Loop(r, need), v, w, Goes(Compacted(x, r)));
  }

  /** A coded run follows this loop up to the chunk found, a deletion with a wrong `prev`, or the first compaction. */
  lemma {:induction false} AllotVComes(v: View, r: Rules, need: nat)
    requires VGood(v, r) && r.slab <= need <= r.total
    ensures AllotsSo(v, r, need, AllotV(v, r, need))
    decreases |Busy(v.cs)|
  {
    match Choose(v.cs, need, r.best)
    case Some(i) =>
      FoundNow(v, r, need);
      TakeFits(v, r, i, need);
    case None =>
      var u := v.(due := Counted(v.due));
      HoleOrVictim(v.cs, r, need);
      var i := Victim(v.cs).value;
      if DueNow(v, r, need) {
        CompactsNext(v, r, need);
        CompactedSame(v, u, r);
      } else if RightAt(u, i) {
        RemoveKeeps(u, r, i);
        DiscardCount(v.cs, r, i);
        AllotVComes(Remove(u, i).0, r, need);
        AllotsOn(v, r, need, Remove(u, i).0, AllotV(v, r, need));
      } else {
        ComesNow(Loop(r, need), v);
      }
  }

  lemma CompactedSame(v: View, u: View, r: Rules)
    requires Shaped(v) && u == v.(due := Counted(v.due)) && Counted(v.due) == 0
    ensures Compacted(u, r) == Compacted(v, r)
  {
  }

  /** With frequency 0 or 1, whatever the links: a request ends only by a chunk found before compaction comes due. */
  lemma CompactsEndlessly(v: View, r: Rules, need: nat)
    requires VGood(v, r) && r.slab <= need <= r.total && (r.frequency == 0 || r.frequency == 1)
    ensures AllotV(v, r, need).Compacts? <==> Endless(Loop(r, need), v)
    ensures AllotV(v, r, need).Ran? <==> Meets(Loop(r, need), v, Ends)
  {
    var o := AllotV(v, r, need);
    AllotVComes(v, r, need);
    AllotVKeeps(v, r, need, seq(r.total, i => 0));
    OutcomeMeans(v, r, need, o);
  }

  lemma OutcomeMeans(v: View, r: Rules, need: nat, o: Outcome<(View, nat)>)
    requires Shaped(v) && AllotsSo(v, r, need, o) && StopsAt(o, r) && (r.frequency == 0 || r.frequency == 1)
    ensures (o.Compacts? <==> Endless(Loop(r, need), v)) && (o.Ran? <==> Meets(Loop(r, need), v, Ends))
  {
    if o.Ran? {
      var p := o.value;
      var x: View :| Comes(Loop(r, need), v, Found(x, p.1));
      OneEnd(Loop(r, need), v, Found(x, p.1));
    } else if o.DeletesStale? {
      OneEnd(Loop(r, need), v, Deletes(o.at, o.i));
    } else {
      EndlessAfter(v, r, need, o.at);
      OneFateSpins(Loop(r, need), v);
    }
  }

  lemma OneFateSpins(turn: View -> Turn, v: View)
    requires Endless(turn, v)
    ensures !Meets(turn, v, Ends)
  {
    if Meets(turn, v, Ends) {
      NoOtherFate(turn, v, Ends);
      assert false;
    }
  }

  lemma EndlessAfter(v: View, r: Rules, need: nat, w: View)
    requires Shaped(v) && Shaped(w) && Carved(w.cs, r) && (r.frequency == 0 || r.frequency == 1)
    requires Choose(w.cs, need, r.best).None? && w.due == 0 && r.total - w.current >= need
    requires Comes(Loop(r, need), v, Goes(Compacted(w, r)))
    ensures Endless(Loop(r, need), v)
  {
    CompactsNext(w, r, need);
    CodedFixed(w.cs, r, need);
    var c := Compacted(w, r);
    CompactsNext(c, r, need);
    CompactedAgain(w, c, r);
    EndlessFrom(Loop(r, need), v, c);
  }
}
