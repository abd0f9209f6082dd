/**
  diccionario_limpiar on lists of chunks: the walk that deletes every chunk with a key, with
  back links that are right.
  */
module DynamicFlush {
  import opened Basics
  import opened Chunks
  import opened BuddyCache
  import opened BuddySpec
  import opened DynamicSpec

  /** The walk from position i on. */
  function FlushList(cs: seq<Chunk>, i: nat): seq<Chunk>
    requires i <= |cs|
    decreases |cs| - i
  {
    if i == |cs| then cs
    else if cs[i].nkey != 0 then
      DiscardTail(cs, i);
      FlushList(Discard(cs, i).0, Discard(cs, i).1 + 1)
    else FlushList(cs, i + 1)
  }

  lemma DiscardTail(cs: seq<Chunk>, i: nat)
    requires i < |cs|
    ensures var (f, j) := Discard(cs, i); j < |f| && |f| - j <= |cs| - i
  {
    var cleared := cs[i := cs[i].Cleared()];
    MergeBackAt(cleared, i);
    var (b, j) := MergeBack(cleared, i);
    FrontShrinks(b, j);
  }

  lemma {:induction false} FrontShrinks(cs: seq<Chunk>, i: nat)
    requires i < |cs|
    ensures i < |MergeFront(cs, i)| <= |cs|
    decreases |cs| - i
  {
    if i + 1 < |cs| && !cs[i + 1].used {
      FrontShrinks(Absorb(cs, i), i);
    }
  }

  /** No unoccupied chunk lies between two occupied ones. */
  ghost predicate OneBlock(cs: seq<Chunk>) {
    forall i, j, k :: 0 <= i < j < k < |cs| && cs[i].used && cs[k].used ==> cs[j].used
  }

  /** A flush of a carved list leaves one free chunk that spans the table. */
  lemma FlushListEmpties(cs: seq<Chunk>, r: Rules)
    requires Carved(cs, r)
    ensures FlushList(cs, 0) == [Blank(0, r.total)]
  {
    if cs[0].used {
      FlushHead(cs, r, 0);
    } else {
      assert cs[0] in cs && GoodChunk(cs[0], r.slab);
      assert FlushList(cs, 0) == FlushList(cs, 1);
      if |cs| == 1 {
        assert cs == [cs[0]];
      } else {
        assert cs[0].used || cs[1].used;
        FlushHead(cs, r, 1);
      }
    }
  }

  /** What one deletion at the front does: everything up to the next occupied chunk becomes one free chunk. */
  lemma DiscardFront(cs: seq<Chunk>, r: Rules, i: nat)
    requires Carved(cs, r) && i <= 1 && i < |cs| && cs[i].used && (i == 1 ==> !cs[0].used)
    ensures var m := if i + 1 < |cs| && !cs[i + 1].used then i + 2 else i + 1;
            var (f, j) := Discard(cs, i);
            && j == 0 && |f| > 0 && f == [f[0]] + cs[m..] && !f[0].used && f[0].nkey == 0
  {
    var cleared := cs[i := cs[i].Cleared()];
    assert cs[0] in cs && GoodChunk(cs[0], r.slab);
    var b := MergeBack(cleared, i).0;
    assert MergeBack(cleared, i).1 == 0 && b == [b[0]] + cs[i + 1..];
    FrontFront(cs, b, i);
  }

  lemma FrontFront(cs: seq<Chunk>, b: seq<Chunk>, i: nat)
    requires i < |cs| && b != [] && b == [b[0]] + cs[i + 1..] && !b[0].used && b[0].nkey == 0
    requires i + 2 < |cs| ==> cs[i + 1].used || cs[i + 2].used
    ensures var m := if i + 1 < |cs| && !cs[i + 1].used then i + 2 else i + 1;
            var f := MergeFront(b, 0);
            |f| > 0 && f == [f[0]] + cs[m..] && !f[0].used && f[0].nkey == 0
  {
    if i + 1 < |cs| {
      assert b[1] == cs[i + 1];
      if !cs[i + 1].used {
        var a := Absorb(b, 0);
        assert a == [a[0]] + cs[i + 2..];
        assert i + 2 < |cs| ==> a[1] == cs[i + 2];
        assert MergeFront(a, 0) == a;
      }
    }
  }

  /** Nothing but a free chunk is left behind the chunk at i. */
  predicate LastItem(cs: seq<Chunk>, i: nat) {
    i + 1 == |cs| || (i + 2 == |cs| && !cs[i + 1].used)
  }

  /** The deletion reaches the end of the list. */
  lemma FlushLast(cs: seq<Chunk>, r: Rules, i: nat)
    requires Carved(cs, r) && i <= 1 && i < |cs| && cs[i].used && (i == 1 ==> !cs[0].used)
    requires LastItem(cs, i)
    ensures Discard(cs, i) == ([Blank(0, r.total)], 0) && OneBlock(cs)
  {
    DiscardFront(cs, r, i);
    DiscardKeeps(cs, r, i);
    var f := Discard(cs, i).0;
    assert f == [f[0]] && f[0] in f && GoodChunk(f[0], r.slab);
  }

  /** The deletion leaves an occupied chunk at position 1; a gap it swallowed was between two items. */
  lemma FlushStep(cs: seq<Chunk>, r: Rules, i: nat)
    requires Carved(cs, r) && i <= 1 && i < |cs| && cs[i].used && (i == 1 ==> !cs[0].used)
    requires !LastItem(cs, i)
    ensures var (f, j) := Discard(cs, i);
            && j == 0 && 1 < |f| < |cs| - i + 1 && Carved(f, r) && !f[0].used && f[1].used
            && (if cs[i + 1].used then OneBlock(f) <==> OneBlock(cs) else !OneBlock(cs))
  {
    DiscardFront(cs, r, i);
    DiscardKeeps(cs, r, i);
    var f := Discard(cs, i).0;
    if cs[i + 1].used {
      assert f[1] == cs[i + 1];
      SameBlock(cs, f, i);
    } else {
      assert cs[i + 1].used || cs[i + 2].used;
      assert f[1] == cs[i + 2];
    }
  }

  lemma FlushUnfold(cs: seq<Chunk>, i: nat)
    requires i < |cs| && cs[i].nkey != 0
    ensures var (f, j) := Discard(cs, i); j < |f| && FlushList(cs, i) == FlushList(f, j + 1)
  {
    DiscardTail(cs, i);
  }

  lemma {:induction false} FlushHead(cs: seq<Chunk>, r: Rules, i: nat)
    requires Carved(cs, r) && i <= 1 && i < |cs| && cs[i].used && (i == 1 ==> !cs[0].used)
    ensures FlushList(cs, i) == [Blank(0, r.total)]
    decreases |cs| - i
  {
    assert cs[i].nkey != 0 by { assert cs[i] in cs && GoodChunk(cs[i], r.slab); }
    FlushUnfold(cs, i);
    var (f, j) := Discard(cs, i);
    if LastItem(cs, i) {
      FlushLast(cs, r, i);
      assert j + 1 == |f|;
    } else {
      FlushStep(cs, r, i);
      FlushHead(f, r, j + 1);
    }
  }

  lemma SameBlock(cs: seq<Chunk>, f: seq<Chunk>, i: nat)
    requires i <= 1 && i + 1 < |cs| && cs[i].used && cs[i + 1].used && (i == 1 ==> !cs[0].used)
    requires f != [] && !f[0].used && f == [f[0]] + cs[i + 1..]
    ensures OneBlock(f) <==> OneBlock(cs)
  {
    assert forall x :: 1 <= x < |f| ==> f[x] == cs[x + i];
    if OneBlock(f) {
      forall x, y, z | 0 <= x < y < z < |cs| && cs[x].used && cs[z].used ensures cs[y].used {
        if y > i + 1 {
          assert f[1] == cs[i + 1] && f[y - i] == cs[y] && f[z - i] == cs[z];
        }
      }
    }
    if OneBlock(cs) {
      forall x, y, z | 0 <= x < y < z < |f| && f[x].used && f[z].used ensures f[y].used {
        assert cs[x + i].used && cs[z + i].used && f[y] == cs[y + i];
      }
    }
  }
}
