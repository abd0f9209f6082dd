/**
  The listing of a directory on the wire: names joined by '#' in a zeroed buffer, split
  again by the client. Characters stand for bytes; a text ends at its first NUL.
  */
module Listing {

  const NUL: char := '\0'
  const HASH: char := '#'
  const HEADER: nat := 3

  // ---------- splitting: the pieces between hashes, empty ones skipped ----------

  /** The first hash of s[i..el], or el. */
  function Stop(s: string, i: nat, el: nat): (p: nat)
    requires i <= el <= |s|
    ensures i <= p <= el && (p < el ==> s[p] == HASH)
    ensures forall k :: i <= k < p ==> s[k] != HASH
    decreases el - i
  {
    if i < el && s[i] != HASH then Stop(s, i + 1, el) else i
  }

  function Pieces(s: string, i: nat, el: nat): seq<string>
    requires i <= el <= |s|
    decreases el - i
  {
    if i == el then []
    else if s[i] == HASH then Pieces(s, i + 1, el)
    else
      var e := Stop(s, i, el);
      [s[i..e]] + Pieces(s, e, el)
  }

  /** strlen of the text that begins at i; the end of s when no NUL follows. */
  function TextEnd(s: string, i: nat): (n: nat)
    requires i <= |s|
    ensures i <= n <= |s| && (n < |s| ==> s[n] == NUL)
    ensures forall k :: i <= k < n ==> s[k] != NUL
    decreases |s| - i
  {
    if i < |s| && s[i] != NUL then TextEnd(s, i + 1) else i
  }

  /** What the reader of a listing is given. */
  function Split(s: string): seq<string> {
    Pieces(s, 0, TextEnd(s, 0))
  }

  /** A name that survives the trip: not empty, without a hash and without a NUL. */
  predicate Plain(name: string) {
    name != "" && HASH !in name && NUL !in name
  }

  lemma {:induction false} StopAt(s: string, i: nat, e: nat, el: nat)
    requires i <= e <= el <= |s| && (e < el ==> s[e] == HASH)
    requires forall k :: i <= k < e ==> s[k] != HASH
    ensures Stop(s, i, el) == e
    decreases e - i
  {
    if i < e { StopAt(s, i + 1, e, el); }
  }

  lemma PiecesWord(s: string, i: nat, e: nat, el: nat)
    requires i < e <= el <= |s| && (e < el ==> s[e] == HASH)
    requires forall k :: i <= k < e ==> s[k] != HASH
    ensures Pieces(s, i, el) == [s[i..e]] + Pieces(s, e, el)
  {
    StopAt(s, i, e, el);
  }

  lemma {:induction false} PiecesSkip(s: string, i: nat, j: nat, el: nat)
    requires i <= j <= el <= |s| && forall k :: i <= k < j ==> s[k] == HASH
    ensures Pieces(s, i, el) == Pieces(s, j, el)
    decreases j - i
  {
    if i < j { PiecesSkip(s, i + 1, j, el); }
  }

  lemma {:induction false} PiecesSame(s: string, t: string, i: nat, el: nat)
    requires i <= el <= |s| && el <= |t| && forall k :: i <= k < el ==> s[k] == t[k]
    ensures Pieces(s, i, el) == Pieces(t, i, el)
    decreases el - i
  {
    if i == el {
    } else if s[i] == HASH {
      PiecesSame(s, t, i + 1, el);
    } else {
      var e := Stop(s, i, el);
      StopAt(t, i, e, el);
      PiecesSame(s, t, e, el);
      assert s[i..e] == t[i..e];
    }
  }

  /** Text up to a hash is split on its own. */
  lemma {:induction false} PiecesJoin(s: string, i: nat, m: nat, el: nat)
    requires i <= m <= el <= |s| && (m == i || s[m - 1] == HASH)
    ensures Pieces(s, i, el) == Pieces(s, i, m) + Pieces(s, m, el)
    decreases m - i
  {
    if i == m {
    } else if s[i] == HASH {
      PiecesJoin(s, i + 1, m, el);
    } else {
      var e := Stop(s, i, el);
      assert e < m;
      StopAt(s, i, e, m);
      PiecesJoin(s, e, m, el);
    }
  }

  /** Whatever comes out of a split is plain. */
  lemma {:induction false} PiecesPlain(s: string, i: nat, el: nat)
    requires i <= el <= |s| && forall k :: i <= k < el ==> s[k] != NUL
    ensures forall w :: w in Pieces(s, i, el) ==> Plain(w)
    decreases el - i
  {
    if i == el {
    } else if s[i] == HASH {
      PiecesPlain(s, i + 1, el);
    } else {
      var e := Stop(s, i, el);
      PiecesPlain(s, e, el);
      assert Plain(s[i..e]);
    }
  }

  // ---------- the payload ----------

  /** The bytes written once k names are out: a hash follows a name that has a successor. */
  function Written(names: seq<string>, k: nat): string
    requires k <= |names|
  {
    if k == 0 then ""
    else Written(names, k - 1) + names[k - 1] + (if k < |names| then [HASH] else "")
  }

  function SumLengths(names: seq<string>, k: nat): nat
    requires k <= |names|
  {
    if k == 0 then 0 else SumLengths(names, k - 1) + |names[k - 1]| + 1
  }

  /** The length the server means to send, before it is stored in 16 bits. */
  function Needed(names: seq<string>): nat
    requires names != []
  {
    SumLengths(names, |names|) + |names| - 1
  }

  predicate Listable(names: seq<string>) {
    names != [] && Needed(names) < 0x1_0000
  }

  function Payload(names: seq<string>): (p: string)
    requires names != []
    ensures |p| == Needed(names)
  {
    WrittenLength(names, |names|);
    Written(names, |names|) + seq(|names|, _ => NUL)
  }

  lemma {:induction false} WrittenLength(names: seq<string>, k: nat)
    requires k <= |names|
    ensures |Written(names, k)| == SumLengths(names, k) - (if 0 < k == |names| then 1 else 0)
  {
    if k > 0 { WrittenLength(names, k - 1); }
  }

  lemma {:induction false} WrittenGrows(names: seq<string>, j: nat, k: nat)
    requires j <= k <= |names|
    ensures |Written(names, j)| <= |Written(names, k)|
    ensures Written(names, k)[..|Written(names, j)|] == Written(names, j)
    decreases k - j
  {
    if j < k { WrittenGrows(names, j, k - 1); }
  }

  /** With no empty name, the writes fit the stored length exactly when it did not wrap. */
  lemma FitsExactly(names: seq<string>)
    requires names != [] && forall w :: w in names ==> w != ""
    ensures |Written(names, |names|)| <= Needed(names) % 0x1_0000 <==> Listable(names)
  {
    WrittenLength(names, |names|);
    SumAtLeast(names, |names|);
    var n := Needed(names);
    var q := n / 0x1_0000;
    assert n == q * 0x1_0000 + n % 0x1_0000;
    if q > 0 {
      assert |names| * 3 <= n + 1;
    }
  }

  lemma {:induction false} SumAtLeast(names: seq<string>, k: nat)
    requires k <= |names| && forall w :: w in names ==> w != ""
    ensures SumLengths(names, k) >= 2 * k
  {
    if k > 0 {
      SumAtLeast(names, k - 1);
      assert names[k - 1] in names;
    }
  }

  // ---------- the round trip ----------

  /** One more word after a text that is empty or ends in a hash is one more piece. */
  lemma PiecesAppend(a: string, w: string, tail: string)
    requires (a == "" || a[|a| - 1] == HASH) && Plain(w) && (tail == "" || tail == [HASH])
    ensures var s := a + w + tail; Pieces(s, 0, |s|) == Pieces(a, 0, |a|) + [w]
  {
    var s := a + w + tail;
    var e := |a| + |w|;
    PiecesJoin(s, 0, |a|, |s|);
    PiecesSame(s, a, 0, |a|);
    forall k | |a| <= k < e ensures s[k] != HASH { assert s[k] == w[k - |a|]; }
    PiecesWord(s, |a|, e, |s|);
    PiecesSkip(s, e, |s|, |s|);
    assert s[|a|..e] == w;
  }

  lemma {:induction false} WrittenPlain(names: seq<string>, k: nat)
    requires k <= |names| && forall w :: w in names ==> Plain(w)
    ensures NUL !in Written(names, k)
    ensures Pieces(Written(names, k), 0, |Written(names, k)|) == names[..k]
  {
    if k > 0 {
      WrittenPlain(names, k - 1);
      assert names[k - 1] in names;
      var a := Written(names, k - 1);
      assert k > 1 ==> a[|a| - 1] == HASH;
      PiecesAppend(a, names[k - 1], if k < |names| then [HASH] else "");
    }
  }

  lemma {:induction false} TextEndAt(s: string, i: nat, n: nat)
    requires i <= n < |s| && s[n] == NUL && forall k :: i <= k < n ==> s[k] != NUL
    ensures TextEnd(s, i) == n
    decreases n - i
  {
    if i < n { TextEndAt(s, i + 1, n); }
  }

  /** The padding leaves a terminator inside the payload, whatever the names. */
  lemma AlwaysTerminated(names: seq<string>)
    requires names != []
    ensures TextEnd(Payload(names), 0) < |Payload(names)|
  {
    var p := Payload(names);
    assert p[|p| - 1] == NUL;
  }

  /** Splitting gives the names back exactly when each of them is plain. */
  lemma RoundTrip(names: seq<string>)
    requires names != []
    ensures Split(Payload(names)) == names <==> forall w :: w in names ==> Plain(w)
  {
    var p, t := Payload(names), Written(names, |names|);
    if forall w :: w in names ==> Plain(w) {
      WrittenPlain(names, |names|);
      TextEndAt(p, 0, |t|);
      PiecesSame(p, t, 0, |t|);
      assert names[..|names|] == names;
    } else {
      PiecesPlain(p, 0, TextEnd(p, 0));
    }
  }

  // ---------- the code that writes and splits ----------

  method PayloadLength(names: seq<string>) returns (length: nat)
    requires names != []
    ensures length == Needed(names) % 0x1_0000
  {
    var i, count: nat := 0, 0;
    length := 0;
    while i < |names|
      invariant i <= |names| && count == i && length == SumLengths(names, i) % 0x1_0000
    {
      length := (length + |names[i]| + 1) % 0x1_0000;
      count := count + 1;
      i := i + 1;
    }
    count := count - 1;
    length := (length + count) % 0x1_0000;
  }

  /** The reply to a directory request: type, 16-bit length, names. */
  method Serialize(tipo: char, names: seq<string>) returns (data: array<char>)
    requires Listable(names)
    ensures fresh(data)
    ensures data[..] == [tipo, (Needed(names) % 256) as char, (Needed(names) / 256) as char] + Payload(names)
  {
    var length := PayloadLength(names);
    WrittenLength(names, |names|);
    data := new char[HEADER + length](_ => NUL);
    data[0], data[1], data[2] := tipo, (length % 256) as char, (length / 256) as char;
    PutNames(data, names);
    assert data[HEADER..] == Payload(names);
  }

  /** After the header the buffer holds s, then only zeros. */
  predicate Filled(data: string, s: string) {
    HEADER + |s| <= |data| && data[HEADER..] == s + seq(|data| - HEADER - |s|, _ => NUL)
  }

  /** The buffer once memcpy has put the bytes at a position. */
  function Put(data: string, at: nat, bytes: string): string
    requires at + |bytes| <= |data|
  {
    data[..at] + bytes + data[at + |bytes|..]
  }

  lemma FilledMore(data: string, s: string, bytes: string)
    requires Filled(data, s) && HEADER + |s| + |bytes| <= |data|
    ensures var d := Put(data, HEADER + |s|, bytes); Filled(d, s + bytes) && d[..HEADER] == data[..HEADER]
  {
    var d := Put(data, HEADER + |s|, bytes);
    assert data[HEADER..][..|s|] == s;
    assert d[HEADER..] == data[HEADER..HEADER + |s|] + bytes + data[HEADER + |s| + |bytes|..];
    assert data[HEADER + |s| + |bytes|..] == data[HEADER..][|s| + |bytes|..];
  }

  method PutBytes(data: array<char>, at: nat, bytes: string)
    requires at + |bytes| <= data.Length
    modifies data
    ensures data[..] == Put(old(data[..]), at, bytes)
  {
    forall k | at <= k < at + |bytes| {
      data[k] := bytes[k - at];
    }
  }

  /** One turn of the do-while: a name, and a hash when another follows. */
  method PutEntry(data: array<char>, names: seq<string>, i: nat, offset: nat)
    requires i < |names| && data.Length == HEADER + Needed(names)
    requires offset == |Written(names, i)| && Filled(data[..], Written(names, i))
    modifies data
    ensures data[..][..HEADER] == old(data[..][..HEADER])
    ensures Filled(data[..], Written(names, i + 1))
  {
    WrittenGrows(names, i + 1, |names|);
    WrittenLength(names, |names|);
    ghost var s := Written(names, i);
    FilledMore(data[..], s, names[i]);
    PutBytes(data, HEADER + offset, names[i]);
    if i + 1 < |names| {
      FilledMore(data[..], s + names[i], [HASH]);
      PutBytes(data, HEADER + offset + |names[i]|, [HASH]);
    } else {
      assert s + names[i] + "" == s + names[i];
    }
  }

  /** The do-while over the entries: never writes past the length computed before. */
  method PutNames(data: array<char>, names: seq<string>)
    requires names != [] && data.Length == HEADER + Needed(names) && Filled(data[..], "")
    modifies data
    ensures data[..][..HEADER] == old(data[..][..HEADER])
    ensures Filled(data[..], Written(names, |names|))
  {
    var offset, i := 0, 0;
    while true
      invariant i < |names| && offset == |Written(names, i)|
      invariant data[..][..HEADER] == old(data[..][..HEADER])
      invariant Filled(data[..], Written(names, i))
      decreases |names| - i
    {
      PutEntry(data, names, i, offset);
      offset := offset + |names[i]|;
      i := i + 1;
      if i == |names| { break; }
      offset := offset + 1;
    }
  }

  /** One strtok_r: the piece at or after `from`, ended by a NUL in place; none when start == end. */
  method Token(text: array<char>, from: nat, ghost n: nat) returns (start: nat, end: nat, next: nat)
    requires from <= n < text.Length && text[n] == NUL && forall k :: from <= k < n ==> text[k] != NUL
    modifies text
    ensures from <= start <= end <= next <= n && text[end] == NUL
    ensures start < end ==> from < next
    ensures text[..][next..] == old(text[..][next..])
    ensures text[n] == NUL && (end < n ==> end < next)
    ensures Pieces(old(text[..]), from, n) ==
      if start == end then [] else [text[..][start..end]] + Pieces(old(text[..]), next, n)
  {
    start := from;
    while text[start] == HASH
      invariant from <= start <= n && forall k :: from <= k < start ==> text[k] == HASH
      decreases n - start
    {
      start := start + 1;
    }
    PiecesSkip(text[..], from, start, n);
    end := start;
    while text[end] != HASH && text[end] != NUL
      invariant start <= end <= n && forall k :: start <= k < end ==> text[k] != HASH
      decreases n - end
    {
      end := end + 1;
    }
    next := end;
    if start < end {
      PiecesWord(text[..], start, end, n);
      ghost var was := text[..];
      if text[end] == HASH {
        PiecesSkip(text[..], end, end + 1, n);
        text[end] := NUL;
        next := end + 1;
        assert text[..] == was[end := NUL];
      }
    }
  }

  /** string_duplicate: the text up to and with its terminator. */
  method Duplicate(text: array<char>) returns (copy: array<char>, ghost n: nat)
    requires TextEnd(text[..], 0) < text.Length
    ensures fresh(copy) && n == TextEnd(text[..], 0) && copy[..] == text[..n + 1]
  {
    ghost var whole := text[..];
    n := TextEnd(whole, 0);
    var length := 0;
    while text[length] != NUL
      invariant length <= n
      decreases n - length
    {
      assert text[length] == text[..][length];
      length := length + 1;
    }
    assert length == n by { assert text[length] == text[..][length]; }
    copy := new char[length + 1];
    forall k | 0 <= k <= length {
      copy[k] := text[k];
    }
    assert text[..] == whole && copy[..] == text[..n + 1];
  }

  /** string_split on '#': works on a copy, and gives the pieces in order. */
  method StringSplit(text: array<char>) returns (substrings: seq<string>)
    requires TextEnd(text[..], 0) < text.Length
    ensures substrings == Split(text[..])
  {
    var copy, n := Duplicate(text);
    ghost var whole := copy[..];
    PiecesSame(whole, text[..], 0, n);
    substrings := [];
    var start, end, next := Token(copy, 0, n);
    while start != end
      invariant start <= end <= next <= n < copy.Length && copy[n] == NUL
      invariant copy[..][next..] == whole[next..]
      invariant forall k :: next <= k < n ==> copy[k] != NUL
      invariant Pieces(whole, 0, n) ==
        substrings + if start == end then [] else [copy[..][start..end]] + Pieces(whole, next, n)
      decreases n - next, end - start
    {
      substrings := substrings + [copy[..][start..end]];
      SameTail(copy[..], whole, next, n);
      ghost var before, from := copy[..], next;
      start, end, next := Token(copy, next, n);
      StillSame(before, copy[..], whole, from, next);
      SameTail(before, whole, next, n);
    }
  }

  lemma StillSame(before: string, after: string, whole: string, from: nat, next: nat)
    requires from <= next <= |before| == |after| == |whole|
    requires before[from..] == whole[from..] && after[next..] == before[next..]
    ensures before[next..] == after[next..] == whole[next..]
  {
    assert before[next..] == before[from..][next - from..];
    assert whole[next..] == whole[from..][next - from..];
  }

  lemma SameTail(s: string, t: string, i: nat, el: nat)
    requires i <= el <= |s| == |t| && s[i..] == t[i..]
    ensures Pieces(s, i, el) == Pieces(t, i, el)
  {
    forall k | i <= k < el ensures s[k] == t[k] { assert s[i..][k - i] == t[i..][k - i]; }
    PiecesSame(s, t, i, el);
  }
}
