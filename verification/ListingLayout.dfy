/** Where each name of a directory listing lies in the payload. */
module ListingLayout {
  import opened Basics
  import opened Listing

  /** Where the i-th name begins: the lengths of those before it and a hash for each. */
  function Offset(names: seq<string>, i: nat): nat
    requires i <= |names|
    decreases i
  {
    if i == 0 then 0 else Offset(names, i - 1) + |names[i - 1]| + 1
  }

  lemma {:induction false} WrittenPrefix(names: seq<string>, i: nat, k: nat)
    requires i < k <= |names|
    ensures var w, at := Written(names, k), Offset(names, i);
            && at + |names[i]| <= |w| && w[at..at + |names[i]|] == names[i]
            && (i + 1 < |names| ==> at + |names[i]| < |w| && w[at + |names[i]|] == '#')
    decreases k
  {
    OffsetIs(names, k - 1);
    if i < k - 1 {
      WrittenPrefix(names, i, k - 1);
      var w, at := Written(names, k - 1), Offset(names, i);
      assert Written(names, k)[at..at + |names[i]|] == w[at..at + |names[i]|];
    }
  }

  lemma {:induction false} OffsetIs(names: seq<string>, k: nat)
    requires k <= |names|
    ensures |Written(names, k)| == Offset(names, k) - (if 0 < k == |names| then 1 else 0)
    decreases k
  {
    if k > 0 { OffsetIs(names, k - 1); }
  }

  /** The payload: the names in order with a hash between two, and a zero for each name behind the last. */
  lemma PayloadLayout(names: seq<string>, i: nat)
    requires i < |names|
    ensures var p, at := Payload(names), Offset(names, i);
            && |p| == Offset(names, |names|) - 1 + |names|
            && at + |names[i]| <= |p| && p[at..at + |names[i]|] == names[i]
            && (i + 1 < |names| ==> at + |names[i]| < |p| && p[at + |names[i]|] == '#')
            && forall j :: Offset(names, |names|) - 1 <= j < |p| ==> p[j] == '\0'
  {
    OffsetIs(names, |names|);
    WrittenPrefix(names, i, |names|);
    var w, at := Written(names, |names|), Offset(names, i);
    assert Payload(names)[at..at + |names[i]|] == w[at..at + |names[i]|];
  }
}
