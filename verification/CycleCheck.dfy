/** has_cycle: two pointers over `next` links, on any finite linked structure. */
module CycleCheck {
  import opened Basics

  type Links = seq<int>

  /** Every link is NULL or a position. */
  ghost predicate Closed(next: Links) {
    forall x :: 0 <= x < |next| ==> NULL <= next[x] < |next|
  }

  /** The node k links after c, NULL once the end is passed. */
  function Nth(next: Links, c: int, k: nat): (x: int)
    requires Closed(next) && NULL <= c < |next|
    ensures NULL <= x < |next|
  {
    if k == 0 then c
    else
      var p := Nth(next, c, k - 1);
      if p == NULL then NULL else next[p]
  }

  /** Following `next` from c comes back to a node it has already passed. */
  ghost predicate CycleReachable(next: Links, c: int)
    requires Closed(next) && NULL <= c < |next|
  {
    exists i: nat, j: nat :: i < j && Nth(next, c, i) != NULL && Nth(next, c, i) == Nth(next, c, j)
  }

  lemma {:induction false} NthSplit(next: Links, c: int, i: nat, k: nat)
    requires Closed(next) && NULL <= c < |next|
    ensures Nth(next, c, i + k) == Nth(next, Nth(next, c, i), k)
  {
    if k > 0 {
      NthSplit(next, c, i, k - 1);
    }
  }

  lemma {:induction false} NullStays(next: Links, c: int, i: nat, k: nat)
    requires Closed(next) && NULL <= c < |next| && Nth(next, c, i) == NULL
    ensures Nth(next, c, i + k) == NULL
  {
    if k > 0 {
      NullStays(next, c, i, k - 1);
    }
  }

  /** Past a repeat at p and p + l, going m whole laps further changes nothing. */
  lemma {:induction false} Laps(next: Links, c: int, p: nat, l: nat, t: nat, m: nat)
    requires Closed(next) && NULL <= c < |next| && l >= 1 && t >= p
    requires Nth(next, c, p) == Nth(next, c, p + l)
    ensures Nth(next, c, t + m * l) == Nth(next, c, t)
    decreases m
  {
    if m > 0 {
      Laps(next, c, p, l, t, m - 1);
      var s := t + (m - 1) * l;
      assert t + m * l == s + l;
      NthSplit(next, c, p, s - p);
      NthSplit(next, c, p + l, s - p);
      assert p + l + (s - p) == s + l && p + (s - p) == s;
    }
  }

  /** A repeat is come back to arbitrarily late, so the walk never ends. */
  lemma {:induction false} RepeatLater(next: Links, c: int, i: nat, j: nat, k: nat) returns (late: nat)
    requires Closed(next) && NULL <= c < |next|
    requires i < j && Nth(next, c, i) == Nth(next, c, j)
    ensures late >= k && Nth(next, c, late) == Nth(next, c, i)
  {
    if k == 0 {
      late := i;
    } else {
      late := RepeatLater(next, c, i, j, k - 1);
      if late < k {
        NthSplit(next, c, late, j - i);
        NthSplit(next, c, i, j - i);
        late := late + (j - i);
      }
    }
  }

  lemma RepeatEndless(next: Links, c: int, i: nat, j: nat, k: nat)
    requires Closed(next) && NULL <= c < |next|
    requires i < j && Nth(next, c, i) == Nth(next, c, j) && Nth(next, c, i) != NULL
    ensures Nth(next, c, k) != NULL
  {
    var late := RepeatLater(next, c, i, j, k);
    if Nth(next, c, k) == NULL { NullStays(next, c, k, late - k); }
  }

  /** Among n + 1 values below n two are equal. */
  lemma {:induction false} Pigeonhole(n: nat, s: seq<int>) returns (i: nat, j: nat)
    requires |s| > n && forall k :: 0 <= k < |s| ==> 0 <= s[k] < n
    ensures i < j < |s| && s[i] == s[j]
    decreases n
  {
    var last := |s| - 1;
    if k :| 0 <= k < last && s[k] == s[last] {
      return k, last;
    }
    // no other position holds the last value v: rename n - 1 to v and drop the last position
    var v := s[last];
    var t := seq(last, k requires 0 <= k < last => if s[k] == n - 1 then v else s[k]);
    assert n > 0 && s[0] == s[0];
    forall k | 0 <= k < last ensures 0 <= t[k] < n - 1 && s[k] != v {
      assert t[k] == if s[k] == n - 1 then v else s[k];
    }
    i, j := Pigeonhole(n - 1, t);
  }

  function Visited(next: Links, c: int, n: nat): (s: seq<int>)
    requires Closed(next) && NULL <= c < |next|
    ensures |s| == n && forall k :: 0 <= k < n ==> s[k] == Nth(next, c, k)
  {
    seq(n, k requires 0 <= k < n => Nth(next, c, k))
  }

  /** The slow pointer after m rounds stands where the first fast one does. */
  predicate Meets(next: Links, c: int, m: nat)
    requires Closed(next) && NULL <= c < |next|
  {
    Nth(next, c, m) == Nth(next, c, 2 * m + 1)
  }

  /** A walk longer than the structure meets the slow pointer within as many rounds. */
  lemma MeetsInTime(next: Links, c: int)
    requires Closed(next) && 0 <= c < |next| && Nth(next, c, |next|) != NULL
    ensures exists m: nat :: m <= |next| && Meets(next, c, m)
  {
    var n := |next|;
    var s := Visited(next, c, n + 1);
    forall k | 0 <= k < |s| ensures 0 <= s[k] < n {
      if s[k] == NULL { NullStays(next, c, k, n - k); }
    }
    var p, q := Pigeonhole(n, s);
    var laps := LapsPast(p, q - p);
    var m := laps * (q - p) - 1;
    Laps(next, c, p, q - p, m, laps);
    assert m + laps * (q - p) == 2 * m + 1;
    assert Meets(next, c, m);
  }

  /** The first multiple of l beyond p. */
  lemma LapsPast(p: nat, l: nat) returns (laps: nat)
    requires l >= 1
    ensures p < laps * l <= p + l
  {
    laps := 0;
    while laps * l <= p
      invariant laps * l <= p + l
      decreases p - laps * l
    {
      assert (laps + 1) * l == laps * l + l;
      laps := laps + 1;
    }
  }

  /** A walk that never ends has a reachable cycle, and a cycle never ends. */
  lemma CycleIffEndless(next: Links, c: int)
    requires Closed(next) && 0 <= c < |next|
    ensures CycleReachable(next, c) <==> Nth(next, c, |next|) != NULL
  {
    if Nth(next, c, |next|) != NULL {
      MeetsInTime(next, c);
      var m: nat :| m <= |next| && Meets(next, c, m);
      if Nth(next, c, m) == NULL { NullStays(next, c, m, |next| - m); }
      assert m < 2 * m + 1;
    }
    if CycleReachable(next, c) {
      var i: nat, j: nat :| i < j && Nth(next, c, i) != NULL && Nth(next, c, i) == Nth(next, c, j);
      RepeatEndless(next, c, i, j, |next|);
    }
  }

  /** has_cycle, with the assignments of its loop guard. */
  method HasCycle(next: array<int>, c: int) returns (found: bool)
    requires Closed(next[..]) && NULL <= c < next.Length
    ensures found <==> CycleReachable(next[..], c)
  {
    ghost var links := next[..];
    if c == NULL {
      NullHasNoCycle(links);
      return false;
    }
    CycleIffEndless(links, c);
    var slow, fast1, fast2 := c, c, c;
    ghost var i: nat := 0;
    while true
      invariant slow == Nth(links, c, i) && fast2 == Nth(links, c, 2 * i) && 0 <= fast2
      invariant forall m: nat :: m < i ==> !Meets(links, c, m)
      invariant i <= |links| + 1
      decreases |links| + 1 - i
    {
      if slow == NULL {
        NullStays(links, c, i, i);
        assert false;
      }
      fast1 := next[fast2];
      assert fast1 == Nth(links, c, 2 * i + 1);
      if fast1 == NULL {
        EndsSo(links, c, 2 * i + 1);
        return false;
      }
      fast2 := next[fast1];
      assert fast2 == Nth(links, c, 2 * i + 2);
      if fast2 == NULL {
        EndsSo(links, c, 2 * i + 2);
        return false;
      }
      if slow == fast1 || slow == fast2 {
        return true;
      }
      assert !Meets(links, c, i);
      InTime(links, c, i);
      slow := next[slow];
      i := i + 1;
    }
  }

  lemma NullHasNoCycle(next: Links)
    requires Closed(next)
    ensures !CycleReachable(next, NULL)
  {
    forall k: nat ensures Nth(next, NULL, k) == NULL { NullStays(next, NULL, 0, k); }
  }

  /** A walk that ends has no cycle. */
  lemma EndsSo(next: Links, c: int, k: nat)
    requires Closed(next) && 0 <= c < |next| && Nth(next, c, k) == NULL
    ensures !CycleReachable(next, c)
  {
    if CycleReachable(next, c) {
      var i: nat, j: nat :| i < j && Nth(next, c, i) != NULL && Nth(next, c, i) == Nth(next, c, j);
      RepeatEndless(next, c, i, j, k);
    }
  }

  /** No more rounds than nodes go by without a meeting. */
  lemma InTime(next: Links, c: int, i: nat)
    requires Closed(next) && 0 <= c < |next| && i <= |next| + 1
    requires Nth(next, c, 2 * i + 2) != NULL
    requires forall m: nat :: m < i ==> !Meets(next, c, m)
    ensures i <= |next|
  {
    if i > |next| {
      if Nth(next, c, |next|) == NULL { NullStays(next, c, |next|, 2 * i + 2 - |next|); }
      MeetsInTime(next, c);
    }
  }
}
