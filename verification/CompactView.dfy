/** diccionario_compactarMemoria on a view: the chunks, the nodes and their `prev` links, as coded. */
module CompactView {
  import opened Basics
  import opened Chunks
  import opened BuddyCache
  import opened DynamicSpec
  import opened CompactionSpec
  import opened Dictionary
  import opened CodedRun

  /** What the list will be once the free chunk at position f has travelled to the end. */
  function Pending(cs: seq<Chunk>, f: nat): seq<Chunk>
    requires f < |cs|
  {
    cs[..f] + Shift(cs[f], cs[f + 1..], false)
  }

  function Swapped(cs: seq<Chunk>, f: nat): seq<Chunk>
    requires f + 1 < |cs|
  {
    cs[f := Moved(cs[f], cs[f + 1], false)][f + 1 := Vacated(cs[f], cs[f + 1], false)]
  }

  lemma PendingAbsorb(cs: seq<Chunk>, f: nat)
    requires f + 1 < |cs| && cs[f + 1].Free()
    ensures Pending(Absorb(cs, f), f) == Pending(cs, f)
  {
    var a := Absorb(cs, f);
    assert a[f] == Grown(cs[f], cs[f + 1]) && a[..f] == cs[..f];
    assert a[f + 1..] == cs[f + 2..] == cs[f + 1..][1..] && cs[f + 1..][0] == cs[f + 1];
  }

  lemma PendingSwapped(cs: seq<Chunk>, f: nat)
    requires f + 1 < |cs| && !cs[f + 1].Free()
    ensures Pending(Swapped(cs, f), f + 1) == Pending(cs, f)
  {
    var r := Swapped(cs, f);
    var x, v := Moved(cs[f], cs[f + 1], false), Vacated(cs[f], cs[f + 1], false);
    assert r[..f + 1] == cs[..f] + [x];
    assert r[f + 2..] == cs[f + 2..] == cs[f + 1..][1..] && cs[f + 1..][0] == cs[f + 1] && r[f + 1] == v;
    assert Shift(cs[f], cs[f + 1..], false) == [x] + Shift(v, r[f + 2..], false);
  }

  /** The free chunk at f and the item behind it change places; the item's old node gets its `prev` set. */
  function SwapV(v: View, f: nat): View
    requires Shaped(v) && f + 1 < |v.cs|
  {
    v.(cs := Swapped(v.cs, f), back := v.back[f + 1 := v.live[f]])
  }

  /** The inner loop, with the free chunk at f. */
  function CompactFrom(v: View, f: nat): View
    requires Shaped(v) && f < |v.cs|
    decreases |v.cs| - f
  {
    if f + 1 == |v.cs| then v
    else if v.cs[f + 1].Free() then
      CutBackLinks(v, f + 1);
      CompactFrom(CutBack(v, f + 1), f)
    else CompactFrom(SwapV(v, f), f + 1)
  }

  function CompactV(v: View): View
    requires Shaped(v)
  {
    var f := FirstFree(v.cs);
    if f == |v.cs| then v else CompactFrom(v, f)
  }

  /** The chunks are those of the compacted list. */
  lemma {:induction false} CompactFromIs(v: View, f: nat)
    requires Shaped(v) && f < |v.cs|
    ensures var w := CompactFrom(v, f); Shaped(w) && w.cs == Pending(v.cs, f) && SameBooks(v, w)
    decreases |v.cs| - f
  {
    if f + 1 == |v.cs| {
      assert v.cs[f + 1..] == [];
    } else if v.cs[f + 1].Free() {
      CutBackLinks(v, f + 1);
      PendingAbsorb(v.cs, f);
      CompactFromIs(CutBack(v, f + 1), f);
    } else {
      PendingSwapped(v.cs, f);
      CompactFromIs(SwapV(v, f), f + 1);
    }
  }

  lemma CompactVIs(v: View)
    requires Shaped(v)
    ensures Shaped(CompactV(v)) && CompactV(v).cs == Compact(v.cs, false) && SameBooks(v, CompactV(v))
  {
    if FirstFree(v.cs) < |v.cs| { CompactFromIs(v, FirstFree(v.cs)); }
  }

  /** Nothing changes up to the free chunk, behind it every `prev` is right, and no spare node is taken. */
  ghost predicate Relinked(v: View, w: View, f: nat)
    requires Shaped(v) && Shaped(w)
  {
    && f < |w.cs| <= |v.cs| && w.live[..f + 1] == v.live[..f + 1] && w.back[..f + 1] == v.back[..f + 1]
    && (forall k :: f < k < |w.cs| ==> RightAt(w, k))
    && (forall x :: x in v.pool ==> x in w.pool)
  }

  lemma {:induction false} CompactFromLinks(v: View, f: nat)
    requires Shaped(v) && f < |v.cs|
    ensures Shaped(CompactFrom(v, f)) && Relinked(v, CompactFrom(v, f), f)
    decreases |v.cs| - f
  {
    if f + 1 < |v.cs| {
      if v.cs[f + 1].Free() {
        CutBackLinks(v, f + 1);
        var c := CutBack(v, f + 1);
        CompactFromLinks(c, f);
        CutRelinked(v, c, CompactFrom(c, f), f);
      } else {
        var c := SwapV(v, f);
        CompactFromLinks(c, f + 1);
        SwapRelinked(v, c, CompactFrom(c, f + 1), f);
      }
    }
  }

  lemma CutRelinked(v: View, c: View, w: View, f: nat)
    requires Shaped(v) && f + 1 < |v.cs| && c == CutBack(v, f + 1) && Shaped(c) && Shaped(w) && Relinked(c, w, f)
    ensures Relinked(v, w, f)
  {
    assert c.live[..f + 1] == v.live[..f + 1] && c.back[..f + 1] == v.back[..f + 1];
    forall x | x in v.pool ensures x in w.pool { assert x in c.pool; }
  }

  lemma SwapRelinked(v: View, c: View, w: View, f: nat)
    requires Shaped(v) && f + 1 < |v.cs| && c == SwapV(v, f) && Shaped(w) && Relinked(c, w, f + 1)
    ensures Relinked(v, w, f)
  {
    assert w.live[..f + 1] == w.live[..f + 2][..f + 1] && w.back[..f + 1] == w.back[..f + 2][..f + 1];
    assert v.back[..f + 1] == c.back[..f + 2][..f + 1] && v.live[..f + 1] == c.live[..f + 2][..f + 1];
    assert w.back[f + 1] == w.back[..f + 2][f + 1] && w.live[f] == w.live[..f + 2][f];
    assert RightAt(w, f + 1);
  }

  /** No node is lost, and none is listed twice. */
  lemma {:induction false} CompactFromApart(v: View, f: nat)
    requires Shaped(v) && f < |v.cs| && NodesApart(v)
    ensures NodesApart(CompactFrom(v, f))
    decreases |v.cs| - f
  {
    if f + 1 < |v.cs| {
      if v.cs[f + 1].Free() {
        CutBackLinks(v, f + 1);
        CutApart(v, CutBack(v, f + 1), f + 1);
        CompactFromApart(CutBack(v, f + 1), f);
      } else {
        CompactFromApart(SwapV(v, f), f + 1);
      }
    }
  }

  /** Compaction as coded, links and all. */
  lemma CompactVLinks(v: View)
    requires Shaped(v)
    ensures Shaped(CompactV(v))
    ensures FirstFree(v.cs) == |v.cs| ==> CompactV(v) == v
    ensures FirstFree(v.cs) < |v.cs| ==> Relinked(v, CompactV(v), FirstFree(v.cs))
    ensures NodesApart(v) ==> NodesApart(CompactV(v))
  {
    var f := FirstFree(v.cs);
    if f < |v.cs| {
      CompactFromLinks(v, f);
      if NodesApart(v) { CompactFromApart(v, f); }
    }
  }
}
