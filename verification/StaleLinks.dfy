/**
  What diccionario_eliminar does with a node whose `prev` is wrong: the backward loop follows
  the link into the pool and never ends, or into the list at another place; and exactly when
  the deletion comes out right all the same.
  */
module StaleLinks {
  import opened Basics
  import opened Chunks
  import opened BuddyCache
  import opened LossyMap
  import opened DynamicSpec
  import opened DynamicRun
  import opened Dictionary
  import opened CodedRun
  import opened DynamicFlush
  import Dynamic = DynamicDictionary

  /** Everything the backward loop reads and writes: the nodes, the head of the pool, `it`. */
  datatype Walk = Walk(t: seq<Node>, nodes: int, it: int)

  predicate InRange(w: Walk) {
    && 0 <= w.it < |w.t| && NULL <= w.nodes < |w.t|
    && NULL <= w.t[w.it].prev < |w.t|
  }

  /** The guard: there is a chunk before and it is not occupied. */
  predicate GoesOn(w: Walk)
    requires InRange(w)
  {
    w.t[w.it].prev != NULL && !w.t[w.t[w.it].prev].chunk.used
  }

  function Resized(t: seq<Node>, x: nat, size: nat): seq<Node>
    requires x < |t|
  {
    t[x := t[x].(chunk := t[x].chunk.(size := size))]
  }

  /** The body, assignment by assignment. */
  function Round(w: Walk): Walk
    requires InRange(w) && GoesOn(w)
  {
    var it, before := w.it, w.t[w.it].prev;
    var t1 := Resized(w.t, before, w.t[before].chunk.size + w.t[it].chunk.size);
    var t2 := Resized(t1, it, 0);
    var t3 := SetNext(t2, before, t2[it].next);
    var t4 := SetPrev(t3, t3[it].next, before);
    var t5 := SetPrev(t4, it, NULL);
    var t6 := SetNext(t5, it, w.nodes);
    var t7 := SetPrev(t6, w.nodes, it);
    Walk(t7, it, before)
  }

  /** `prev` leads from `it` through unoccupied nodes to the head of the pool, away from the node after `it`. */
  ghost predicate Ring(w: Walk, q: seq<nat>) {
    && InRange(w) && |q| > 0 && !w.t[w.it].chunk.used
    && (forall x :: 0 <= x < |q| ==> q[x] < |w.t| && q[x] != w.it && q[x] != w.t[w.it].next && !w.t[q[x]].chunk.used)
    && (forall x, y :: 0 <= x < y < |q| ==> q[x] != q[y])
    && w.t[w.it].prev == q[0] && w.nodes == q[|q| - 1] && w.t[w.it].next != w.it
    && (forall x, y :: 0 <= x && y == x + 1 && y < |q| ==> w.t[q[x]].prev == q[y])
  }

  /** A round only turns the ring: `it` becomes its far end and the new head of the pool. */
  lemma RingTurns(w: Walk, q: seq<nat>)
    requires Ring(w, q)
    ensures GoesOn(w) && Ring(Round(w), q[1..] + [w.it])
  {
    var v, r := Round(w), q[1..] + [w.it];
    assert v.it == q[0] && v.nodes == w.it && v.t[v.it].next == w.t[w.it].next;
    forall x | 0 <= x < |r| ensures r[x] < |v.t| && r[x] != v.it && r[x] != v.t[v.it].next && !v.t[r[x]].chunk.used {
      assert x < |q| - 1 ==> r[x] == q[x + 1];
    }
    forall x, y | 0 <= x < y < |r| ensures r[x] != r[y] {
      assert r[x] == q[x + 1];
      assert y < |q| - 1 ==> r[y] == q[y + 1];
    }
    forall x, y | 0 <= x && y == x + 1 && y < |r| ensures v.t[r[x]].prev == r[y] {
      assert r[x] == q[x + 1];
      assert y < |q| - 1 ==> r[y] == q[y + 1] && w.t[q[x + 1]].prev == q[y + 1];
    }
    assert |q| > 1 ==> w.t[q[0]].prev == q[1];
  }

  /** The walk after n rounds of the body, None once the guard has failed. */
  function Rounds(w: Walk, n: nat): Option<Walk> {
    if n == 0 then Some(w)
    else
      match Rounds(w, n - 1)
      case None => None
      case Some(v) => if InRange(v) && GoesOn(v) then Some(Round(v)) else None
  }

  ghost predicate Spins(w: Walk) { exists q :: Ring(w, q) }

  lemma SpinsOn(w: Walk)
    requires Spins(w)
    ensures InRange(w) && GoesOn(w) && Spins(Round(w))
  {
    var q :| Ring(w, q);
    RingTurns(w, q);
  }

  /** However many rounds are made, the guard still holds. */
  lemma {:induction false} TurnsForever(w: Walk, n: nat)
    requires Spins(w)
    ensures Rounds(w, n).Some? && Spins(Rounds(w, n).value)
  {
    if n > 0 {
      TurnsForever(w, n - 1);
      var v := Rounds(w, n - 1).value;
      SpinsOn(v);
      assert Rounds(w, n) == Some(Round(v));
    }
  }

  /** The state in which the backward loop starts, the node's own fields cleared. */
  function Start(t: seq<Node>, spares: int, x: nat): Walk
    requires x < |t|
  {
    Walk(t[x := t[x].(chunk := t[x].chunk.Cleared())], spares, x)
  }

  /** A live node whose `prev` is any node of the pool: deleting it never ends. */
  lemma StaleDeleteNeverEnds(t: seq<Node>, s: Order, p: Order, head: int, spares: int, cs: seq<Chunk>, k: nat, m: nat, n: nat)
    requires Threaded(t, s, p, head, spares, cs) && k < |s| && m < |p|
    requires t[s[k]].prev == p[m]
    ensures Rounds(Start(t, spares, s[k]), n).Some?
    ensures var w := Rounds(Start(t, spares, s[k]), n).value; InRange(w) && GoesOn(w)
  {
    var w := Start(t, spares, s[k]);
    var q := seq(m + 1, x requires 0 <= x <= m => p[m - x]);
    assert NextOk(t, s, k);
    forall x | 0 <= x < |q| ensures q[x] < |t| && q[x] != w.it && q[x] != w.t[w.it].next && !w.t[q[x]].chunk.used {
      assert Spare(t[p[m - x]]) && s[k] != p[m - x];
      assert k + 1 < |s| ==> s[k + 1] != p[m - x];
    }
    forall x, y | 0 <= x && y == x + 1 && y < |q| ensures w.t[q[x]].prev == q[y] {
      assert BackOk(t, p, m - x);
    }
    assert Ring(w, q);
    TurnsForever(w, n);
    SpinsOn(Rounds(w, n).value);
  }

  /** The array shows this view: its chunks, its two lists and its `prev` links. */
  ghost predicate Pictures(t: seq<Node>, head: int, spares: int, v: View) {
    Threaded(t, v.live, v.pool, head, spares, v.cs) && Backs(t, v.live) == v.back
  }

  /** In whatever array shows the view, the backward loop that deletes the chunk at i makes any number of rounds. */
  ghost predicate NeverEnds(v: View, i: nat) {
    forall t, head, spares, n: nat :: i < |v.live| && Pictures(t, head, spares, v) ==> Rounds(Start(t, spares, v.live[i]), n).Some?
  }

  lemma PoolNeverEnds(v: View, i: nat)
    requires Shaped(v) && i < |v.cs| && v.back[i] in v.pool
    ensures NeverEnds(v, i)
  {
    var m :| 0 <= m < |v.pool| && v.pool[m] == v.back[i];
    forall t, head, spares, n: nat | i < |v.live| && Pictures(t, head, spares, v)
      ensures Rounds(Start(t, spares, v.live[i]), n).Some?
    {
      StaleDeleteNeverEnds(t, v.live, v.pool, head, spares, v.cs, i, m, n);
    }
  }

  // ---------- every view is shown by some array ----------

  /** Where x is listed. */
  function IndexOf(s: Order, x: nat): (k: nat)
    requires x in s
    ensures k < |s| && s[k] == x
  {
    if s[0] == x then 0 else 1 + IndexOf(s[1..], x)
  }

  /** The node at x, as the view has it. */
  function NodeOf(v: View, x: nat): Node
    requires Shaped(v)
  {
    if x in v.live then
      var k := IndexOf(v.live, x);
      Node(v.back[k], At(v.live, k + 1), v.cs[k])
    else if x in v.pool then
      var k := IndexOf(v.pool, x);
      Node(At(v.pool, k - 1), At(v.pool, k + 1), Blank(0, 0))
    else Node(NULL, NULL, Blank(0, 0))
  }

  function TableOf(v: View): seq<Node>
    requires Shaped(v)
  {
    seq(|v.live| + |v.pool|, x requires 0 <= x => NodeOf(v, x))
  }

  lemma AnyViewShown(v: View)
    requires Shaped(v) && NodesApart(v)
    ensures Pictures(TableOf(v), v.live[0], At(v.pool, 0), v)
  {
    var t := TableOf(v);
    forall k | 0 <= k < |v.live| ensures t[v.live[k]] == Node(v.back[k], At(v.live, k + 1), v.cs[k]) {
      LiveNode(v, k);
    }
    forall k | 0 <= k < |v.pool| ensures t[v.pool[k]] == Node(At(v.pool, k - 1), At(v.pool, k + 1), Blank(0, 0)) {
      SpareNode(v, k);
    }
    TableShows(t, v);
  }

  lemma LiveNode(v: View, k: nat)
    requires Shaped(v) && Distinct(v.live) && k < |v.live|
    ensures NodeOf(v, v.live[k]) == Node(v.back[k], At(v.live, k + 1), v.cs[k])
  {
    assert IndexOf(v.live, v.live[k]) == k;
  }

  lemma SpareNode(v: View, k: nat)
    requires Shaped(v) && Distinct(v.pool) && Apart(v.live, v.pool) && k < |v.pool|
    ensures NodeOf(v, v.pool[k]) == Node(At(v.pool, k - 1), At(v.pool, k + 1), Blank(0, 0))
  {
    assert v.pool[k] !in v.live;
    assert IndexOf(v.pool, v.pool[k]) == k;
  }

  lemma TableShows(t: seq<Node>, v: View)
    requires Shaped(v) && NodesApart(v) && |t| == |v.live| + |v.pool|
    requires forall k :: 0 <= k < |v.live| ==> t[v.live[k]] == Node(v.back[k], At(v.live, k + 1), v.cs[k])
    requires forall k :: 0 <= k < |v.pool| ==> t[v.pool[k]] == Node(At(v.pool, k - 1), At(v.pool, k + 1), Blank(0, 0))
    ensures Pictures(t, v.live[0], At(v.pool, 0), v)
  {
    assert Backs(t, v.live) == v.back;
  }

  /** The deletion of the chunk at i never ends, and there is an array in which it is that deletion. */
  ghost predicate Hangs(v: View, i: nat) {
    && Shaped(v) && i < |v.cs| && v.cs[i].used && NeverEnds(v, i)
    && exists t, head, spares :: Pictures(t, head, spares, v)
  }

  lemma PoolHangs(v: View, i: nat)
    requires Shaped(v) && NodesApart(v) && i < |v.cs| && v.cs[i].used && v.back[i] in v.pool
    ensures Hangs(v, i)
  {
    PoolNeverEnds(v, i);
    AnyViewShown(v);
  }

  /** A flush of a list with right links that does not get through comes to a deletion that never ends. */
  lemma FlushNeverEnds(v: View, r: Rules)
    requires VGood(v, r) && AllRightBut(v, -1) && NodesApart(v) && !OneBlock(v.cs)
    ensures var o := FlushV(v, 0); o.DeletesStale? && Hangs(o.at, o.i)
  {
    FlushGetsThrough(v, r);
    FlushVKeeps(v, r, 0);
    FlushVApart(v, 0);
    PoolHangs(FlushV(v, 0).at, FlushV(v, 0).i);
  }

  lemma {:induction false} FlushVApart(v: View, i: nat)
    requires Shaped(v) && i <= |v.cs| && NodesApart(v)
    ensures FlushV(v, i).DeletesStale? ==> NodesApart(FlushV(v, i).at)
    decreases |v.cs| - i
  {
    if i < |v.cs| {
      if v.cs[i].nkey == 0 {
        FlushBothSkip(v, i);
        FlushVApart(v, i + 1);
      } else if RightAt(v, i) {
        var (w, j) := Remove(v, i);
        RemoveTail(v, i);
        RemoveApart(v, i);
        FlushVStep(v, i, w, j);
        FlushVApart(w, j + 1);
      }
    }
  }

  /** The table itself shows its view: deleting a node of it whose `prev` is in the pool never ends. */
  lemma DeleteNeverEnds(d: Dict, k: nat, m: nat, n: nat)
    requires d.Valid() && k < |d.live| && m < |d.pool| && Dynamic.ViewOf(d).back[k] == d.pool[m]
    ensures Pictures(d.table[..], d.elements, d.nodes, Dynamic.ViewOf(d))
    ensures Rounds(Start(d.table[..], d.nodes, d.live[k]), n).Some?
  {
    StaleDeleteNeverEnds(d.table[..], d.live, d.pool, d.elements, d.nodes, d.cs, k, m, n);
  }

  /** Its `prev` is an occupied node elsewhere in the list: the loop ends at once, whatever is before it. */
  lemma StaleUsedTarget(t: seq<Node>, s: Order, p: Order, head: int, spares: int, cs: seq<Chunk>, k: nat, y: nat)
    requires Threaded(t, s, p, head, spares, cs) && k < |s| && y < |s| && y != k
    requires t[s[k]].prev == s[y]
    ensures InRange(Start(t, spares, s[k])) && (GoesOn(Start(t, spares, s[k])) <==> !cs[y].used)
  {
    assert s[y] != s[k] && t[s[y]].chunk == cs[y];
    assert NextOk(t, s, k);
    assert |p| > 0 ==> spares == p[0];
  }

  /**
    Its `prev` is an unoccupied node elsewhere in the list: that node takes over the space of
    the deleted one and so claims memory of the chunk after itself.
    */
  lemma StaleFreeTarget(t: seq<Node>, s: Order, p: Order, head: int, spares: int, cs: seq<Chunk>, total: nat, k: nat, y: nat)
    requires Threaded(t, s, p, head, spares, cs) && Tiled(cs, total) && k < |s| && y < |s| && y != k && y + 1 != k
    requires t[s[k]].prev == s[y] && !cs[y].used && cs[k].size > 0
    ensures InRange(Start(t, spares, s[k])) && GoesOn(Start(t, spares, s[k]))
    ensures var c := Round(Start(t, spares, s[k])).t[s[y]].chunk;
            && c.addr == cs[y].addr && c.size == cs[y].size + cs[k].size
            && (if y + 1 < |cs| then cs[y + 1].addr < c.End() else total < c.End())
  {
    StaleUsedTarget(t, s, p, head, spares, cs, k, y);
    assert s[y] != s[k] && t[s[y]].chunk == cs[y] && t[s[k]].chunk == cs[k];
    assert y + 1 < |cs| ==> cs[y + 1].addr == cs[y].End();
  }

  // ---------- a whole deletion ----------

  predicate FrontRange(w: Walk) {
    && 0 <= w.it < |w.t| && NULL <= w.nodes < |w.t|
    && NULL <= w.t[w.it].next < |w.t|
  }

  /** The guard of the forward loop: there is a chunk behind and it is not occupied. */
  predicate FrontOn(w: Walk)
    requires FrontRange(w)
  {
    w.t[w.it].next != NULL && !w.t[w.t[w.it].next].chunk.used
  }

  /** Its body, assignment by assignment. */
  function FrontRound(w: Walk): Walk
    requires FrontRange(w) && FrontOn(w)
  {
    var it, behind := w.it, w.t[w.it].next;
    var t1 := Resized(w.t, it, w.t[it].chunk.size + w.t[behind].chunk.size);
    var t2 := Resized(t1, behind, 0);
    var t3 := SetNext(t2, it, t2[behind].next);
    var t4 := SetPrev(t3, behind, NULL);
    var t5 := SetNext(t4, behind, w.nodes);
    var t6 := SetPrev(t5, w.nodes, behind);
    Walk(t6, behind, it)
  }

  function FrontRounds(w: Walk, n: nat): Option<Walk> {
    if n == 0 then Some(w)
    else
      match FrontRounds(w, n - 1)
      case None => None
      case Some(v) => if FrontRange(v) && FrontOn(v) then Some(FrontRound(v)) else None
  }

  ghost predicate Stopped(w: Walk) { InRange(w) && !GoesOn(w) }

  ghost predicate FrontStopped(w: Walk) { FrontRange(w) && !FrontOn(w) }

  /** After n rounds of the first loop and m of the second both guards have failed. */
  ghost predicate DeletesIn(w: Walk, n: nat, m: nat, u: Walk) {
    && Rounds(w, n).Some? && Stopped(Rounds(w, n).value)
    && FrontRounds(Rounds(w, n).value, m) == Some(u) && FrontStopped(u)
  }

  /** The deletion of the node at x ends, in the state u. */
  ghost predicate Deletes(t: seq<Node>, spares: int, x: nat, u: Walk)
    requires x < |t|
  {
    exists n, m :: DeletesIn(Start(t, spares, x), n, m, u)
  }

  /** From the head, `next` leads through these chunks to NULL. */
  ghost predicate Leaves(t: seq<Node>, head: int, cs: seq<Chunk>) {
    exists s :: NextLinked(t, s, head) && Shows(t, s, cs)
  }

  lemma {:induction false} StoppedStays(w: Walk, n: nat)
    requires Stopped(w)
    ensures Rounds(w, n).Some? <==> n == 0
  {
    if n > 0 { StoppedStays(w, n - 1); }
  }

  lemma {:induction false} FrontStoppedStays(w: Walk, n: nat)
    requires FrontStopped(w)
    ensures FrontRounds(w, n).Some? <==> n == 0
  {
    if n > 0 { FrontStoppedStays(w, n - 1); }
  }

  /** The first round of a walk, then the rest. */
  lemma {:induction false} RoundsShift(w: Walk, n: nat)
    requires InRange(w) && GoesOn(w) && n > 0
    ensures Rounds(w, n) == Rounds(Round(w), n - 1)
  {
    if n > 1 { RoundsShift(w, n - 1); } else { assert Rounds(w, 0) == Some(w); }
  }

  lemma {:induction false} FrontRoundsShift(w: Walk, n: nat)
    requires FrontRange(w) && FrontOn(w) && n > 0
    ensures FrontRounds(w, n) == FrontRounds(FrontRound(w), n - 1)
  {
    if n > 1 { FrontRoundsShift(w, n - 1); } else { assert FrontRounds(w, 0) == Some(w); }
  }

  /** Where the forward loop ends when it makes at most one round. */
  lemma FrontOnce(w: Walk, m: nat, u: Walk)
    requires FrontRange(w) && (FrontOn(w) ==> FrontStopped(FrontRound(w)))
    requires FrontRounds(w, m) == Some(u) && FrontStopped(u)
    ensures u == if FrontOn(w) then FrontRound(w) else w
  {
    if FrontOn(w) {
      if m > 0 { FrontOneMore(w, FrontRound(w), m); }
    } else {
      FrontStoppedStays(w, m);
    }
  }

  lemma FrontOneMore(w: Walk, x: Walk, m: nat)
    requires FrontRange(w) && FrontOn(w) && x == FrontRound(w) && FrontStopped(x) && m > 0
    ensures FrontRounds(w, m).Some? ==> FrontRounds(w, m) == Some(x)
  {
    FrontRoundsShift(w, m);
    FrontStoppedStays(x, m - 1);
  }

  /** Two walks along `next` from one head pass the same nodes. */
  lemma {:induction false} SamePrefix(t: seq<Node>, s: Order, q: Order, head: int, p: nat)
    requires NextLinked(t, q, head) && p < |q| && p < |s| && head == s[0]
    requires forall k :: 0 <= k < p ==> s[k] < |t| && t[s[k]].next == s[k + 1]
    ensures q[p] == s[p]
  {
    if p > 0 {
      SamePrefix(t, s, q, head, p - 1);
      assert NextOk(t, q, p - 1);
    }
  }

  /** A list that passes a node with another chunk is not the one asked for. */
  lemma NotLeft(t: seq<Node>, s: Order, head: int, p: nat, cs: seq<Chunk>)
    requires p < |cs| && p < |s| && head == s[0] && s[p] < |t| && t[s[p]].chunk != cs[p]
    requires forall k :: 0 <= k < p ==> s[k] < |t| && t[s[k]].next == s[k + 1]
    ensures !Leaves(t, head, cs)
  {
    forall q | NextLinked(t, q, head) && Shows(t, q, cs) ensures false {
      SamePrefix(t, s, q, head, p);
    }
  }

  // ---------- a `prev` that is NULL or an occupied node ----------

  /** The node's `prev` is NULL or some node of the table. */
  ghost predicate Known(v: View, i: nat)
    requires Shaped(v) && i < |v.cs|
  {
    v.back[i] == NULL || v.back[i] in v.pool || exists y :: 0 <= y < |v.live| && v.back[i] == v.live[y]
  }

  /** The `prev` ends the backward loop at once, and it would have ended at once anyway. */
  ghost predicate Harmless(v: View, i: nat)
    requires Shaped(v) && i < |v.cs|
  {
    && (v.back[i] == NULL || exists y :: 0 <= y < |v.live| && v.back[i] == v.live[y] && y != i && v.cs[y].used)
    && (i == 0 || v.cs[i - 1].used)
  }

  /** The backward loop does nothing, and this is what the forward loop then leaves. */
  ghost predicate EndsAtOnce(w: Walk, u: Walk) {
    Stopped(w) && FrontRange(w) && FrontStopped(u) && u == if FrontOn(w) then FrontRound(w) else w
  }

  lemma AtOnceOnly(w: Walk, u: Walk, n: nat, m: nat, x: Walk)
    requires EndsAtOnce(w, u)
    ensures DeletesIn(w, 0, if FrontOn(w) then 1 else 0, u)
    ensures DeletesIn(w, n, m, x) ==> x == u
  {
    assert Rounds(w, 0) == Some(w) && FrontRounds(w, 0) == Some(w);
    if DeletesIn(w, n, m, x) {
      StoppedStays(w, n);
      FrontOnce(w, m, x);
    }
  }

  /** What is left of the list of nodes. */
  function Kept(cs: seq<Chunk>, live: Order, i: nat): Order
    requires i < |cs| == |live|
  {
    if i + 1 < |cs| && !cs[i + 1].used then Removed(live, i + 1) else live
  }

  /** From a start that the backward loop leaves alone, the chunk swallows at most the one behind it. */
  lemma FrontIs(t: seq<Node>, head: int, spares: int, v: View, i: nat, w: Walk) returns (u: Walk)
    requires Pictures(t, head, spares, v) && CoalescedBut(v.cs, -1) && i < |v.cs| && v.cs[i].used
    requires w == Start(t, spares, v.live[i]) && Stopped(w)
    ensures EndsAtOnce(w, u)
    ensures NextLinked(u.t, Kept(v.cs, v.live, i), head)
    ensures Shows(u.t, Kept(v.cs, v.live, i), MergeFront(v.cs[i := v.cs[i].Cleared()], i))
  {
    var s, c := v.live, v.cs[i := v.cs[i].Cleared()];
    assert NextOk(t, s, i);
    StartShows(t, s, v.cs, i, head);
    if FrontOn(w) {
      assert !v.cs[i + 1].used;
      u := FrontRound(w);
      FrontStep(w, s, c, i, head);
      assert i + 2 < |s| ==> c[i + 2].used;
      MergedOnce(c, i);
    } else {
      u := w;
      MergedOnce(c, i);
    }
  }

  lemma StartShows(t: seq<Node>, s: Order, cs: seq<Chunk>, i: nat, head: int)
    requires NextLinked(t, s, head) && Shows(t, s, cs) && i < |s|
    ensures var u := Start(t, 0, s[i]).t; NextLinked(u, s, head) && Shows(u, s, cs[i := cs[i].Cleared()])
  {
    var u := Start(t, 0, s[i]).t;
    forall k | 0 <= k < |s| ensures NextOk(u, s, k) { assert NextOk(t, s, k); }
  }

  lemma MergedOnce(c: seq<Chunk>, i: nat)
    requires i < |c| && (i + 2 < |c| && !c[i + 1].used ==> c[i + 2].used)
    ensures MergeFront(c, i) == if i + 1 < |c| && !c[i + 1].used then Absorb(c, i) else c
  {
    if i + 1 < |c| && !c[i + 1].used {
      assert i + 2 < |c| ==> Absorb(c, i)[i + 1] == c[i + 2];
    }
  }

  /** One round of the forward loop, field by field. */
  lemma FrontFields(w: Walk)
    requires FrontRange(w) && FrontOn(w) && w.t[w.it].next != w.it
    ensures var u, b := FrontRound(w), w.t[w.it].next;
            && u.it == w.it && u.nodes == b && |u.t| == |w.t| && u.t[w.it].next == w.t[b].next
            && u.t[b].chunk == w.t[b].chunk.(size := 0)
            && u.t[w.it].chunk == w.t[w.it].chunk.(size := w.t[w.it].chunk.size + w.t[b].chunk.size)
            && (forall x :: 0 <= x < |w.t| && x != w.it && x != b ==> u.t[x].next == w.t[x].next && u.t[x].chunk == w.t[x].chunk)
  {
  }

  /** One round of the forward loop unlinks the node behind, whose space the node takes. */
  lemma FrontStep(w: Walk, s: Order, c: seq<Chunk>, i: nat, head: int)
    requires NextLinked(w.t, s, head) && Shows(w.t, s, c) && i + 1 < |s| && w.it == s[i]
    requires FrontRange(w) && FrontOn(w) && w.nodes !in s
    ensures var u := FrontRound(w);
            && u.it == s[i] && u.t[u.it].next == At(s, i + 2) && FrontRange(u)
            && NextLinked(u.t, Removed(s, i + 1), head) && Shows(u.t, Removed(s, i + 1), Absorb(c, i))
            && (i + 2 < |s| ==> u.t[s[i + 2]].chunk == c[i + 2])
  {
    assert NextOk(w.t, s, i) && NextOk(w.t, s, i + 1);
    FrontFields(w);
    FrontList(w.t, FrontRound(w).t, s, c, i, head);
  }

  lemma FrontList(t: seq<Node>, u: seq<Node>, s: Order, c: seq<Chunk>, i: nat, head: int)
    requires NextLinked(t, s, head) && Shows(t, s, c) && i + 1 < |s| && |u| == |t|
    requires u[s[i]].next == At(s, i + 2) && u[s[i]].chunk == c[i].(size := c[i].size + c[i + 1].size)
    requires forall x :: 0 <= x < |t| && x != s[i] && x != s[i + 1] ==> u[x].next == t[x].next && u[x].chunk == t[x].chunk
    ensures NextLinked(u, Removed(s, i + 1), head) && Shows(u, Removed(s, i + 1), Absorb(c, i))
  {
    var q := Removed(s, i + 1);
    forall k | 0 <= k < |q| ensures q[k] < |u| && NextOk(u, q, k) && u[q[k]].chunk == Absorb(c, i)[k] {
      if k <= i {
        assert NextOk(t, s, k) && q[k] == s[k];
      } else {
        assert NextOk(t, s, k + 1) && q[k] == s[k + 1];
      }
    }
  }

  /** The deletion of the chunk at i ends with the list the scheme promises. */
  ghost predicate AsPromised(t: seq<Node>, head: int, spares: int, v: View, i: nat)
    requires i < |v.cs| && i < |v.live| && v.live[i] < |t|
  {
    exists u :: Deletes(t, spares, v.live[i], u) && Leaves(u.t, head, Discard(v.cs, i).0)
  }

  /** A backward loop that ends at once leaves the promised list exactly when it had nothing to do. */
  lemma AtOnceIff(t: seq<Node>, head: int, spares: int, v: View, r: Rules, i: nat)
    requires Pictures(t, head, spares, v) && VGood(v, r) && i < |v.cs| && v.cs[i].used
    requires Stopped(Start(t, spares, v.live[i]))
    ensures AsPromised(t, head, spares, v, i) <==> i == 0 || v.cs[i - 1].used
  {
    var w := Start(t, spares, v.live[i]);
    var u := FrontIs(t, head, spares, v, i, w);
    var c, q := v.cs[i := v.cs[i].Cleared()], Kept(v.cs, v.live, i);
    assert Leaves(u.t, head, MergeFront(c, i));
    AtOnceOnly(w, u, 0, 0, u);
    assert Deletes(t, spares, v.live[i], u);
    forall x | Deletes(t, spares, v.live[i], x) ensures x == u {
      var n, m :| DeletesIn(w, n, m, x);
      AtOnceOnly(w, u, n, m, x);
    }
    if i == 0 || v.cs[i - 1].used {
      assert Discard(v.cs, i).0 == MergeFront(c, i);
    } else {
      MissesBehind(u.t, head, v, r, i);
    }
  }

  /** With an unoccupied chunk before it left where it is, the list is not the promised one. */
  lemma MissesBehind(t: seq<Node>, head: int, v: View, r: Rules, i: nat)
    requires VGood(v, r) && i < |v.cs| && v.cs[i].used && i > 0 && !v.cs[i - 1].used
    requires var c := v.cs[i := v.cs[i].Cleared()];
             NextLinked(t, Kept(v.cs, v.live, i), head) && Shows(t, Kept(v.cs, v.live, i), MergeFront(c, i))
    ensures !Leaves(t, head, Discard(v.cs, i).0)
  {
    var c, q := v.cs[i := v.cs[i].Cleared()], Kept(v.cs, v.live, i);
    DiscardShape(v.cs, i);
    MergedOnce(c, i);
    assert MergeFront(c, i)[i - 1] == v.cs[i - 1];
    assert v.cs[i] in v.cs && GoodChunk(v.cs[i], r.slab);
    forall k | 0 <= k < i - 1 ensures q[k] < |t| && t[q[k]].next == q[k + 1] { assert NextOk(t, q, k); }
    NotLeft(t, q, head, i - 1, Discard(v.cs, i).0);
  }

  // ---------- a `prev` that is an unoccupied node ----------

  /** One round of the backward loop, field by field. */
  lemma RoundFields(w: Walk)
    requires InRange(w) && GoesOn(w) && w.t[w.it].prev != w.it && w.t[w.it].next != w.it && w.nodes != w.it
    requires w.t[w.it].next != w.t[w.it].prev && w.nodes != w.t[w.it].prev
    ensures var u, b := Round(w), w.t[w.it].prev;
            && u.it == b && u.nodes == w.it && |u.t| == |w.t|
            && u.t[b] == Node(w.t[b].prev, w.t[w.it].next, w.t[b].chunk.(size := w.t[b].chunk.size + w.t[w.it].chunk.size))
            && u.t[w.it].chunk == w.t[w.it].chunk.(size := 0)
            && (forall x :: 0 <= x < |w.t| && x != w.it && x != b ==> u.t[x].next == w.t[x].next && u.t[x].chunk == w.t[x].chunk)
  {
  }

  /** The node at i is deleted; its `prev` is an unoccupied node at y that is not the one before it. */
  ghost predicate FreeTarget(t: seq<Node>, head: int, spares: int, v: View, i: nat, y: nat) {
    && Pictures(t, head, spares, v) && i < |v.cs| && v.cs[i].used
    && y < |v.cs| && y != i && y != i + 1 && y + 1 != i && !v.cs[y].used && v.back[i] == v.live[y]
  }

  /** The nodes of the list after one round of the backward loop. */
  ghost predicate Swallowed(t: seq<Node>, w: Walk, v: View, i: nat, y: nat)
    requires i < |v.cs| == |v.live| && y < |v.live| && Positions(t, v.live)
  {
    && |w.t| == |t| && w.it == v.live[y] && w.nodes == v.live[i]
    && w.t[w.it] == Node(t[w.it].prev, At(v.live, i + 1), v.cs[y].(size := v.cs[y].size + v.cs[i].size))
    && w.t[v.live[i]].chunk.size == 0
    && (forall k :: 0 <= k < |v.live| && k != y && k != i ==>
          w.t[v.live[k]].next == t[v.live[k]].next && w.t[v.live[k]].chunk == v.cs[k])
  }

  lemma OneRound(t: seq<Node>, head: int, spares: int, v: View, i: nat, y: nat)
    requires FreeTarget(t, head, spares, v, i, y)
    ensures InRange(Start(t, spares, v.live[i])) && GoesOn(Start(t, spares, v.live[i]))
    ensures Swallowed(t, Round(Start(t, spares, v.live[i])), v, i, y)
  {
    var s, b := v.live, Start(t, spares, v.live[i]);
    assert NextOk(t, s, i);
    assert |v.pool| > 0 ==> spares == v.pool[0];
    RoundFields(b);
  }

  /** The backward loop ends there. */
  lemma OneRoundOnly(t: seq<Node>, head: int, spares: int, v: View, i: nat, y: nat, w: Walk)
    requires UnusedRightBut(v, -1) && CoalescedBut(v.cs, -1) && FreeTarget(t, head, spares, v, i, y) && Swallowed(t, w, v, i, y)
    ensures Stopped(w)
  {
    assert RightAt(v, y) && t[w.it].prev == v.back[y];
    assert y > 0 ==> v.cs[y - 1].used;
  }

  /** The nodes before the deleted one when it is over: none is changed but the one at y, which has grown. */
  ghost predicate Grew(t: seq<Node>, u: seq<Node>, v: View, i: nat, y: nat)
    requires i < |v.cs| == |v.live| && y < |v.live| && Positions(t, v.live)
  {
    && |u| == |t| && u[v.live[y]].chunk.size >= v.cs[y].size + v.cs[i].size && u[v.live[i]].chunk.size == 0
    && (forall k :: 0 <= k < i && k != y ==> u[v.live[k]].next == t[v.live[k]].next && u[v.live[k]].chunk == v.cs[k])
  }

  /** The forward loop makes at most one round. */
  lemma FrontGrew(t: seq<Node>, head: int, spares: int, v: View, i: nat, y: nat, w: Walk) returns (u: Walk)
    requires CoalescedBut(v.cs, -1) && FreeTarget(t, head, spares, v, i, y) && Swallowed(t, w, v, i, y)
    ensures FrontRange(w) && (FrontOn(w) ==> u == FrontRound(w)) && (!FrontOn(w) ==> u == w)
    ensures FrontStopped(u) && Grew(t, u.t, v, i, y)
  {
    var s := v.live;
    if FrontOn(w) {
      assert !v.cs[i + 1].used && NextOk(t, s, i + 1);
      FrontFields(w);
      u := FrontRound(w);
      assert i + 2 < |s| ==> v.cs[i + 1].used || v.cs[i + 2].used;
      assert i + 2 < |s| ==> u.t[s[i + 2]].chunk == v.cs[i + 2];
    } else {
      u := w;
    }
  }

  /** Whatever such a deletion leaves, it is not the promised list. */
  lemma FreeNeverPromised(t: seq<Node>, head: int, spares: int, v: View, r: Rules, i: nat, y: nat)
    requires VGood(v, r) && FreeTarget(t, head, spares, v, i, y)
    ensures !AsPromised(t, head, spares, v, i)
  {
    OneRound(t, head, spares, v, i, y);
    var b := Start(t, spares, v.live[i]);
    var w := Round(b);
    OneRoundOnly(t, head, spares, v, i, y, w);
    var u := FrontGrew(t, head, spares, v, i, y, w);
    GrewMisses(t, u.t, head, spares, v, r, i, y);
    forall x | Deletes(t, spares, v.live[i], x) ensures x == u {
      var n, m :| DeletesIn(b, n, m, x);
      EndsThere(b, w, u, n, m, x);
    }
  }

  lemma EndsThere(b: Walk, w: Walk, u: Walk, n: nat, m: nat, x: Walk)
    requires InRange(b) && GoesOn(b) && w == Round(b) && Stopped(w) && FrontRange(w)
    requires u == (if FrontOn(w) then FrontRound(w) else w) && FrontStopped(u) && DeletesIn(b, n, m, x)
    ensures x == u
  {
    if n > 0 { RoundsShift(b, n); }
    BackOnce(b, w, n, Rounds(b, n));
    FrontOnce(w, m, x);
  }

  /** Where the backward loop ends when it makes one round. */
  lemma BackOnce(b: Walk, w: Walk, n: nat, a: Option<Walk>)
    requires InRange(b) && GoesOn(b) && Stopped(w) && a == if n == 0 then Some(b) else Rounds(w, n - 1)
    requires a.Some? && Stopped(a.value)
    ensures a == Some(w)
  {
    if n > 0 { StoppedStays(w, n - 1); }
  }

  lemma GrewMisses(t: seq<Node>, u: seq<Node>, head: int, spares: int, v: View, r: Rules, i: nat, y: nat)
    requires VGood(v, r) && FreeTarget(t, head, spares, v, i, y) && Grew(t, u, v, i, y)
    ensures !Leaves(u, head, Discard(v.cs, i).0)
  {
    DiscardShape(v.cs, i);
    assert v.cs[i] in v.cs && GoodChunk(v.cs[i], r.slab);
    if y < i {
      forall k | 0 <= k < y ensures u[v.live[k]].next == v.live[k + 1] { assert NextOk(t, v.live, k); }
      NotLeft(u, v.live, head, y, Discard(v.cs, i).0);
    } else {
      EmptiedMisses(t, u, head, spares, v, r, i);
    }
  }

  /** Nothing before the node at i has changed, and that node has no space left. */
  ghost predicate Emptied(t: seq<Node>, u: seq<Node>, v: View, i: nat)
    requires i < |v.cs| == |v.live| && Positions(t, v.live)
  {
    && |u| == |t| && u[v.live[i]].chunk.size == 0
    && forall k :: 0 <= k < i ==> u[v.live[k]].next == t[v.live[k]].next && u[v.live[k]].chunk == v.cs[k]
  }

  lemma EmptiedMisses(t: seq<Node>, u: seq<Node>, head: int, spares: int, v: View, r: Rules, i: nat)
    requires Pictures(t, head, spares, v) && VGood(v, r) && i < |v.cs| && v.cs[i].used && Emptied(t, u, v, i)
    ensures !Leaves(u, head, Discard(v.cs, i).0)
  {
    DiscardShape(v.cs, i);
    assert v.cs[i] in v.cs && GoodChunk(v.cs[i], r.slab);
    var p := JoinFrom(v.cs, i);
    forall k | 0 <= k < p ensures u[v.live[k]].next == v.live[k + 1] { assert NextOk(t, v.live, k); }
    NotLeft(u, v.live, head, p, Discard(v.cs, i).0);
  }

  // ---------- a `prev` that is the node itself or the one behind it ----------

  /** A round at a node that is its own `prev`: it loses its space and leads to the pool. */
  lemma SelfRound(w: Walk)
    requires InRange(w) && GoesOn(w) && w.t[w.it].prev == w.it && w.nodes != w.it
    ensures var u := Round(w);
            && u.it == u.nodes == w.it && |u.t| == |w.t|
            && u.t[w.it] == Node(NULL, w.nodes, w.t[w.it].chunk.(size := 0))
            && (forall x :: 0 <= x < |w.t| && x != w.it ==> u.t[x].next == w.t[x].next && u.t[x].chunk == w.t[x].chunk)
  {
  }

  /** A round at a node whose `prev` is its `next`: that one becomes its own neighbour. */
  lemma NextRound(w: Walk)
    requires InRange(w) && GoesOn(w) && w.t[w.it].prev == w.t[w.it].next != w.it && w.nodes != w.it && w.nodes != w.t[w.it].next
    ensures var u, b := Round(w), w.t[w.it].next;
            && u.it == b && u.nodes == w.it && |u.t| == |w.t|
            && u.t[b].prev == u.t[b].next == b && !u.t[b].chunk.used
            && u.t[w.it].next == w.nodes && u.t[w.it].chunk == w.t[w.it].chunk.(size := 0)
            && (forall x :: 0 <= x < |w.t| && x != w.it && x != b ==> u.t[x].next == w.t[x].next && u.t[x].chunk == w.t[x].chunk)
  {
  }

  predicate Hollow(n: Node) { !n.chunk.used && n.chunk.size == 0 }

  /** Behind `it`, which has no space, come only the nodes q, which have none either. */
  ghost predicate Draining(w: Walk, q: Order) {
    && 0 <= w.it < |w.t| && NULL <= w.nodes < |w.t| && w.t[w.it].chunk.size == 0
    && NextLinked(w.t, q, w.t[w.it].next) && w.it !in q
    && forall x :: 0 <= x < |q| ==> Hollow(w.t[q[x]])
  }

  lemma DrainStep(w: Walk, q: Order)
    requires Draining(w, q) && FrontRange(w) && FrontOn(w)
    ensures q != [] && Draining(FrontRound(w), q[1..])
    ensures var u := FrontRound(w);
            && u.it == w.it && |u.t| == |w.t| && Hollow(u.t[q[0]])
            && forall x :: 0 <= x < |w.t| && x != w.it && x != q[0] ==> u.t[x].next == w.t[x].next && u.t[x].chunk == w.t[x].chunk
  {
    assert NextOk(w.t, q, 0);
    FrontFields(w);
    DrainRest(w.t, FrontRound(w).t, w.it, q);
  }

  lemma DrainRest(t: seq<Node>, u: seq<Node>, it: nat, q: Order)
    requires q != [] && Positions(t, q) && |u| == |t| && forall k :: 0 <= k < |q| ==> NextOk(t, q, k) && Hollow(t[q[k]])
    requires it !in q && forall x :: 0 <= x < |t| && x != it && x != q[0] ==> u[x].next == t[x].next && u[x].chunk == t[x].chunk
    ensures NextLinked(u, q[1..], At(q, 1)) && forall k :: 0 <= k < |q[1..]| ==> Hollow(u[q[1..][k]])
  {
    forall k | 0 <= k < |q[1..]| ensures NextOk(u, q[1..], k) && Hollow(u[q[1..][k]]) {
      assert NextOk(t, q, k + 1) && q[k + 1] != q[0];
    }
  }

  /** The forward loop swallows some of them and nothing else. */
  lemma {:induction false} DrainRun(w: Walk, q: Order, m: nat)
    requires Draining(w, q) && FrontRounds(w, m).Some?
    ensures var u := FrontRounds(w, m).value;
            && m <= |q| && Draining(u, q[m..]) && u.it == w.it && |u.t| == |w.t|
            && (forall x :: x in q ==> Hollow(u.t[x]))
            && (forall x :: 0 <= x < |w.t| && x != w.it && x !in q ==> u.t[x].next == w.t[x].next && u.t[x].chunk == w.t[x].chunk)
  {
    if m > 0 {
      DrainRun(w, q, m - 1);
      DrainStep(FrontRounds(w, m - 1).value, q[m - 1..]);
      assert q[m - 1..][1..] == q[m..];
    }
  }

  /** The backward loop has ended with the node at i hollow, or about to be swallowed, and nothing before it changed. */
  ghost predicate Drains(t: seq<Node>, w: Walk, v: View, i: nat, q: Order)
    requires i < |v.cs| == |v.live| && Positions(t, v.live)
  {
    && Stopped(w) && Draining(w, q) && |w.t| == |t| && (w.it == v.live[i] || v.live[i] in q)
    && (forall k :: 0 <= k < i ==> v.live[k] != w.it && v.live[k] !in q)
    && (forall k :: 0 <= k < i ==> w.t[v.live[k]].next == t[v.live[k]].next && w.t[v.live[k]].chunk == v.cs[k])
  }

  lemma DrainsMisses(t: seq<Node>, w: Walk, head: int, spares: int, v: View, r: Rules, i: nat, q: Order, m: nat)
    requires Pictures(t, head, spares, v) && VGood(v, r) && i < |v.cs| && v.cs[i].used && Drains(t, w, v, i, q)
    requires FrontRounds(w, m).Some?
    ensures !Leaves(FrontRounds(w, m).value.t, head, Discard(v.cs, i).0)
  {
    DrainRun(w, q, m);
    EmptiedMisses(t, FrontRounds(w, m).value.t, head, spares, v, r, i);
  }

  /** The node at i is its own `prev`. */
  lemma SelfNeverPromised(t: seq<Node>, head: int, spares: int, v: View, r: Rules, i: nat)
    requires Pictures(t, head, spares, v) && VGood(v, r) && i < |v.cs| && v.cs[i].used && v.back[i] == v.live[i]
    ensures !AsPromised(t, head, spares, v, i)
  {
    var b := Start(t, spares, v.live[i]);
    var w := SelfDrains(t, head, spares, v, i, b);
    forall x | Deletes(t, spares, v.live[i], x) ensures !Leaves(x.t, head, Discard(v.cs, i).0) {
      var n, m :| DeletesIn(b, n, m, x);
      if n > 0 { RoundsShift(b, n); }
      BackOnce(b, w, n, Rounds(b, n));
      DrainsMisses(t, w, head, spares, v, r, i, v.pool, m);
    }
  }

  lemma SelfDrains(t: seq<Node>, head: int, spares: int, v: View, i: nat, b: Walk) returns (w: Walk)
    requires Pictures(t, head, spares, v) && i < |v.cs| && v.back[i] == v.live[i] && b == Start(t, spares, v.live[i])
    ensures InRange(b) && GoesOn(b) && w == Round(b) && Drains(t, w, v, i, v.pool)
  {
    assert |v.pool| > 0 ==> spares == v.pool[0];
    StartKeeps(t, b.t, head, spares, v, i);
    SelfRound(b);
    w := Round(b);
    PoolDrains(b.t, w, spares, v.pool, []);
    assert [] + v.pool == v.pool;
  }

  /** The `prev` of the node at i is the unoccupied node behind it. */
  lemma NextNeverPromised(t: seq<Node>, head: int, spares: int, v: View, r: Rules, i: nat)
    requires Pictures(t, head, spares, v) && VGood(v, r) && i + 1 < |v.cs| && v.cs[i].used
    requires v.back[i] == v.live[i + 1] && !v.cs[i + 1].used
    ensures !AsPromised(t, head, spares, v, i)
  {
    var b := Start(t, spares, v.live[i]);
    var w1 := NextTurns(t, head, spares, v, i, b);
    var w := NextDrains(t, b.t, w1, head, spares, v, i);
    forall x | Deletes(t, spares, v.live[i], x) ensures !Leaves(x.t, head, Discard(v.cs, i).0) {
      var n, m :| DeletesIn(b, n, m, x);
      TwoRounds(b, w1, w, n);
      DrainsMisses(t, w, head, spares, v, r, i, [v.live[i]] + v.pool, m);
    }
  }

  /** After the first round the node behind leads to itself both ways. */
  ghost predicate Turned(t: seq<Node>, w: Walk, v: View, i: nat, spares: int)
    requires i + 1 < |v.cs| == |v.live| && Positions(t, v.live)
  {
    && w.it == v.live[i + 1] && w.nodes == v.live[i] && |w.t| == |t|
    && w.t[w.it].prev == w.t[w.it].next == w.it && !w.t[w.it].chunk.used
    && w.t[v.live[i]].next == spares && Hollow(w.t[v.live[i]])
    && (forall x :: 0 <= x < |t| && x != v.live[i] && x != v.live[i + 1] ==> w.t[x].next == t[x].next && w.t[x].chunk == t[x].chunk)
  }

  lemma NextTurns(t: seq<Node>, head: int, spares: int, v: View, i: nat, b: Walk) returns (w: Walk)
    requires Pictures(t, head, spares, v) && i + 1 < |v.cs| && b == Start(t, spares, v.live[i])
    requires v.back[i] == v.live[i + 1] && !v.cs[i + 1].used
    ensures InRange(b) && GoesOn(b) && w == Round(b) && Turned(t, w, v, i, spares)
  {
    assert |v.pool| > 0 ==> spares == v.pool[0];
    assert NextOk(t, v.live, i);
    NextRound(b);
    w := Round(b);
  }

  lemma NextDrains(t: seq<Node>, c: seq<Node>, w1: Walk, head: int, spares: int, v: View, i: nat) returns (w: Walk)
    requires Pictures(t, head, spares, v) && i + 1 < |v.cs| && Turned(t, w1, v, i, spares) && c == Start(t, spares, v.live[i]).t
    ensures InRange(w1) && GoesOn(w1) && w == Round(w1) && Drains(t, w, v, i, [v.live[i]] + v.pool)
  {
    StartKeeps(t, c, head, spares, v, i);
    SelfRound(w1);
    w := Round(w1);
    PoolDrains(c, w, spares, v.pool, [v.live[i]]);
  }

  lemma TwoRounds(b: Walk, w1: Walk, w: Walk, n: nat)
    requires InRange(b) && GoesOn(b) && w1 == Round(b) && InRange(w1) && GoesOn(w1) && w == Round(w1) && Stopped(w)
    requires Rounds(b, n).Some? && Stopped(Rounds(b, n).value)
    ensures Rounds(b, n) == Some(w)
  {
    if n > 0 { RoundsShift(b, n); }
    if n > 1 { RoundsShift(w1, n - 1); }
    if n > 0 { BackOnce(w1, w, n - 1, Rounds(b, n)); }
  }

  /** Clearing the node at i leaves all links, the pool, and the chunks before it. */
  lemma StartKeeps(t: seq<Node>, u: seq<Node>, head: int, spares: int, v: View, i: nat)
    requires Pictures(t, head, spares, v) && i < |v.cs| == |v.live| && u == Start(t, spares, v.live[i]).t
    ensures NextLinked(u, v.pool, spares) && Apart(v.live, v.pool) && (forall x :: 0 <= x < |v.pool| ==> Hollow(u[v.pool[x]]))
    ensures forall k :: 0 <= k < i ==> u[v.live[k]].next == t[v.live[k]].next && u[v.live[k]].chunk == v.cs[k]
  {
    forall k | 0 <= k < |v.pool| ensures NextOk(u, v.pool, k) && Hollow(u[v.pool[k]]) {
      assert NextOk(t, v.pool, k) && Spare(t[v.pool[k]]);
    }
  }

  /** What leads into the pool through at most one hollow node drains. */
  lemma PoolDrains(t: seq<Node>, w: Walk, spares: int, p: Order, a: Order)
    requires NextLinked(t, p, spares) && (forall x :: 0 <= x < |p| ==> Hollow(t[p[x]])) && |w.t| == |t|
    requires forall x :: x in p ==> w.t[x].next == t[x].next && w.t[x].chunk == t[x].chunk
    requires 0 <= w.it < |w.t| && NULL <= w.nodes < |w.t| && w.t[w.it].chunk.size == 0 && w.it !in p && w.it !in a
    requires |a| <= 1 && (a == [] ==> w.t[w.it].next == spares)
    requires |a| == 1 ==> a[0] < |t| && a[0] !in p && w.t[w.it].next == a[0] && w.t[a[0]].next == spares && Hollow(w.t[a[0]])
    ensures Draining(w, a + p)
  {
    var q := a + p;
    forall k | 0 <= k < |q| ensures q[k] < |w.t| && NextOk(w.t, q, k) && Hollow(w.t[q[k]]) {
      if k >= |a| {
        assert q[k] == p[k - |a|] && NextOk(t, p, k - |a|);
      }
    }
  }

  // ---------- the exact condition ----------

  /**
    Deleting a stored item whose `prev` is wrong gives the list the scheme promises exactly
    when that `prev` is NULL or an occupied node and the chunk before the item is occupied.
    */
  lemma StaleDeletion(t: seq<Node>, head: int, spares: int, v: View, r: Rules, i: nat)
    requires Pictures(t, head, spares, v) && VGood(v, r) && i < |v.cs| && v.cs[i].used
    requires !RightAt(v, i) && Known(v, i)
    ensures AsPromised(t, head, spares, v, i) <==> Harmless(v, i)
  {
    if v.back[i] == NULL {
      AtOnceIff(t, head, spares, v, r, i);
    } else if v.back[i] in v.pool {
      PoolNeverPromised(t, head, spares, v, i);
    } else {
      var y :| 0 <= y < |v.live| && v.back[i] == v.live[y];
      LiveTarget(t, head, spares, v, r, i, y);
      LiveHarmless(v, i, y);
    }
  }

  lemma LiveTarget(t: seq<Node>, head: int, spares: int, v: View, r: Rules, i: nat, y: nat)
    requires Pictures(t, head, spares, v) && VGood(v, r) && i < |v.cs| && v.cs[i].used
    requires !RightAt(v, i) && y < |v.live| && v.back[i] == v.live[y]
    ensures AsPromised(t, head, spares, v, i) <==> y != i && v.cs[y].used && (i == 0 || v.cs[i - 1].used)
  {
    if y == i {
      SelfNeverPromised(t, head, spares, v, r, i);
    } else if v.cs[y].used {
      StaleUsedTarget(t, v.live, v.pool, head, spares, v.cs, i, y);
      AtOnceIff(t, head, spares, v, r, i);
    } else if y == i + 1 {
      NextNeverPromised(t, head, spares, v, r, i);
    } else {
      FreeNeverPromised(t, head, spares, v, r, i, y);
    }
  }

  lemma LiveHarmless(v: View, i: nat, y: nat)
    requires Shaped(v) && Distinct(v.live) && i < |v.cs| && y < |v.live| && v.back[i] == v.live[y]
    ensures Harmless(v, i) <==> y != i && v.cs[y].used && (i == 0 || v.cs[i - 1].used)
  {
  }

  lemma PoolNeverPromised(t: seq<Node>, head: int, spares: int, v: View, i: nat)
    requires Pictures(t, head, spares, v) && i < |v.cs| && v.back[i] in v.pool
    ensures !AsPromised(t, head, spares, v, i) && !Harmless(v, i)
  {
    var m :| 0 <= m < |v.pool| && v.pool[m] == v.back[i];
    forall u | Deletes(t, spares, v.live[i], u) ensures false {
      var n, k :| DeletesIn(Start(t, spares, v.live[i]), n, k, u);
      StaleDeleteNeverEnds(t, v.live, v.pool, head, spares, v.cs, i, m, n);
    }
  }
}
