/**
  A get line of the text protocol: its words, the answers of an engine that may block, and
  the reply all keys together make.
  */
module MultigetSpec {
  import opened Basics

  const NUL: char := '\0'
  const KEY_MAX_LENGTH: nat := 250
  const MAX_TOKENS: nat := 30

  /** A token_t: where the word starts and how long it is. */
  datatype Token = Token(value: int, length: nat)

  // ---------- words of a buffer between two positions ----------

  /** The characters of a word. */
  function Text(b: string, t: Token): string
    requires 0 <= t.value && t.value + t.length <= |b|
  {
    seq(t.length, k requires 0 <= k < t.length => b[t.value + k])
  }

  function Skip(b: string, i: nat, el: nat): (p: nat)
    requires i <= el <= |b|
    ensures i <= p <= el && (p < el ==> b[p] != ' ')
    decreases el - i
  {
    if i < el && b[i] == ' ' then Skip(b, i + 1, el) else i
  }

  function Stop(b: string, i: nat, el: nat): (p: nat)
    requires i <= el <= |b|
    ensures i <= p <= el && (p < el ==> b[p] == ' ') && (i < el && b[i] != ' ' ==> i < p)
    decreases el - i
  {
    if i < el && b[i] != ' ' then Stop(b, i + 1, el) else i
  }

  /** The first word of b[i..el], as a span of the buffer. */
  function First(b: string, i: nat, el: nat): (t: Token)
    requires i <= el <= |b| && Skip(b, i, el) < el
    ensures i <= t.value && t.length > 0 && t.value + t.length <= el
  {
    var s := Skip(b, i, el);
    Token(s, Stop(b, s, el) - s)
  }

  /** The words of b[i..el], as spans of the buffer. */
  function Spans(b: string, i: nat, el: nat): seq<Token>
    requires i <= el <= |b|
    decreases el - i
  {
    if Skip(b, i, el) == el then [] else
    var t := First(b, i, el);
    [t] + Spans(b, t.value + t.length, el)
  }

  lemma SpansSpace(b: string, i: nat, el: nat)
    requires i < el <= |b| && b[i] == ' '
    ensures Spans(b, i, el) == Spans(b, i + 1, el)
  {
  }

  lemma {:induction false} StopAt(b: string, s: nat, e: nat, el: nat)
    requires s <= e <= el <= |b| && (e < el ==> b[e] == ' ')
    requires forall p :: s <= p < e ==> b[p] != ' '
    ensures Stop(b, s, el) == e
    decreases e - s
  {
    if s < e { StopAt(b, s + 1, e, el); }
  }

  lemma {:induction false} SkipAt(b: string, i: nat, s: nat, el: nat)
    requires i <= s < el <= |b| && b[s] != ' '
    requires forall p :: i <= p < s ==> b[p] == ' '
    ensures Skip(b, i, el) == s
    decreases s - i
  {
    if i < s { SkipAt(b, i + 1, s, el); }
  }

  lemma SpansWord(b: string, s: nat, e: nat, el: nat)
    requires s < e <= el <= |b| && (e < el ==> b[e] == ' ')
    requires forall p :: s <= p < e ==> b[p] != ' '
    ensures Spans(b, s, el) == [Token(s, e - s)] + Spans(b, e, el)
  {
    StopAt(b, s, e, el);
  }

  predicate Within(b: string, t: Token, i: nat, el: nat) {
    && i <= t.value && 0 < t.length && t.value + t.length <= el <= |b|
  }

  /** A word does not begin with a space, and its position gives the rest of the words. */
  lemma {:induction false} SpanStart(b: string, i: nat, el: nat, k: nat)
    requires i <= el <= |b| && k < |Spans(b, i, el)|
    ensures var v := Spans(b, i, el)[k].value; i <= v < el && b[v] != ' ' && Spans(b, v, el) == Spans(b, i, el)[k..]
    decreases el - i
  {
    var s := Skip(b, i, el);
    var e := Stop(b, s, el);
    if k > 0 {
      SpanStart(b, e, el, k - 1);
    } else {
      assert Skip(b, s, el) == s;
    }
  }

  lemma {:induction false} SpansSame(b: string, c: string, i: nat, el: nat)
    requires i <= el <= |b| && |c| == |b| && forall p :: i <= p < el ==> b[p] == c[p]
    ensures Spans(b, i, el) == Spans(c, i, el)
    decreases el - i
  {
    SkipSame(b, c, i, el);
    var s := Skip(b, i, el);
    if s < el {
      StopSame(b, c, s, el);
      SpansHead(b, i, el);
      SpansHead(c, i, el);
      SpansSame(b, c, Stop(b, s, el), el);
    }
  }

  lemma SpansHead(b: string, i: nat, el: nat)
    requires i <= el <= |b| && Skip(b, i, el) < el
    ensures var e := Stop(b, Skip(b, i, el), el); Spans(b, i, el) == [Token(Skip(b, i, el), e - Skip(b, i, el))] + Spans(b, e, el)
  {
  }

  lemma {:induction false} SkipSame(b: string, c: string, i: nat, el: nat)
    requires i <= el <= |b| && |c| == |b| && forall p :: i <= p < el ==> b[p] == c[p]
    ensures Skip(b, i, el) == Skip(c, i, el)
    decreases el - i
  {
    if i < el && b[i] == ' ' { SkipSame(b, c, i + 1, el); }
  }

  lemma {:induction false} StopSame(b: string, c: string, i: nat, el: nat)
    requires i <= el <= |b| && |c| == |b| && forall p :: i <= p < el ==> b[p] == c[p]
    ensures Stop(b, i, el) == Stop(c, i, el)
    decreases el - i
  {
    if i < el && b[i] != ' ' { StopSame(b, c, i + 1, el); }
  }


  // ---------- engine and reply ----------

  /** What notify_io_complete reports: try again, or the operation failed. */
  datatype Status = Success | Failed

  /** What the engine says to one get of a key. */
  datatype Answer = Hit(item: string) | Miss | WouldBlock(status: Status)

  datatype Outcome = Hits(hits: seq<(string, string)>) | BadLine

  /** The answers to come for one key, in order, come down to one: an item, or none. */
  function Final(script: seq<Answer>): (r: seq<string>)
    ensures |r| <= 1
  {
    if script == [] then []
    else match script[0]
      case Hit(item) => [item]
      case Miss => []
      case WouldBlock(Success) => Final(script[1..])
      case WouldBlock(Failed) => []
  }

  /** The same key, answering at once. */
  function AtOnce(script: seq<Answer>): seq<Answer> {
    if Final(script) == [] then [Miss] else [Hit(Final(script)[0])]
  }

  /** What a key comes down to once the engine has said status about it. */
  function ItemOf(status: Status, script: seq<Answer>): (r: seq<string>)
    ensures |r| <= 1
  {
    if status == Success then Final(script) else []
  }

  function WithItem(hits: seq<(string, string)>, key: string, item: seq<string>): seq<(string, string)> {
    if item == [] then hits else hits + [(key, item[0])]
  }

  /** The reply to keys still to be looked up; status is what the engine already said about the first. */
  function Serve(keys: seq<string>, scripts: seq<seq<Answer>>, status: Status, hits: seq<(string, string)>): Outcome
    requires |scripts| == |keys|
    decreases |keys|
  {
    if keys == [] then Hits(hits)
    else if |keys[0]| > KEY_MAX_LENGTH then BadLine
    else Serve(keys[1..], scripts[1..], Success, WithItem(hits, keys[0], ItemOf(status, scripts[0])))
  }

  function AllAtOnce(scripts: seq<seq<Answer>>): (r: seq<seq<Answer>>)
    ensures |r| == |scripts|
  {
    seq(|scripts|, j requires 0 <= j < |scripts| => AtOnce(scripts[j]))
  }

  lemma AtOnceTail(scripts: seq<seq<Answer>>)
    requires scripts != []
    ensures AllAtOnce(scripts)[1..] == AllAtOnce(scripts[1..])
  {
    forall j | 0 <= j < |scripts| - 1 ensures AllAtOnce(scripts)[1..][j] == AllAtOnce(scripts[1..])[j] {
      assert scripts[1..][j] == scripts[j + 1];
    }
  }

  /** Blocking does not show in the reply. */
  lemma {:induction false} ServeAtOnce(keys: seq<string>, scripts: seq<seq<Answer>>, hits: seq<(string, string)>)
    requires |scripts| == |keys|
    ensures Serve(keys, AllAtOnce(scripts), Success, hits) == Serve(keys, scripts, Success, hits)
    decreases |keys|
  {
    if keys != [] && |keys[0]| <= KEY_MAX_LENGTH {
      var item := Final(scripts[0]);
      assert Final(AllAtOnce(scripts)[0]) == item;
      AtOnceTail(scripts);
      ServeAtOnce(keys[1..], scripts[1..], WithItem(hits, keys[0], item));
    }
  }

  // ---------- what the reply says ----------

  /** The engine blocks any number of times and then has the item. */
  ghost predicate Yields(script: seq<Answer>, item: string) {
    exists n :: 0 <= n < |script| && script[n] == Hit(item) && forall j :: 0 <= j < n ==> script[j] == WouldBlock(Success)
  }

  lemma {:induction false} FinalYields(script: seq<Answer>, item: string)
    ensures Final(script) == [item] <==> Yields(script, item)
    decreases |script|
  {
    if script != [] && script[0] == WouldBlock(Success) {
      FinalYields(script[1..], item);
      if Yields(script[1..], item) {
        var n :| 0 <= n < |script[1..]| && script[1..][n] == Hit(item)
                 && forall j :: 0 <= j < n ==> script[1..][j] == WouldBlock(Success);
        assert script[n + 1] == Hit(item);
        forall j | 0 <= j < n + 1 ensures script[j] == WouldBlock(Success) {
          assert j > 0 ==> script[j] == script[1..][j - 1];
        }
      }
      if Yields(script, item) {
        var n :| 0 <= n < |script| && script[n] == Hit(item) && forall j :: 0 <= j < n ==> script[j] == WouldBlock(Success);
        assert script[1..][n - 1] == Hit(item);
      }
    } else if script != [] && script[0] == Hit(item) {
      assert Yields(script, item);
    }
  }

  /** The hit is that of the key. */
  ghost predicate IsHit(hit: (string, string), key: string, script: seq<Answer>) {
    hit.0 == key && Yields(script, hit.1)
  }

  ghost predicate NoHit(script: seq<Answer>) { forall item :: !Yields(script, item) }

  /** Positions below n that rise. */
  ghost predicate Rises(idx: seq<nat>, n: nat) {
    (forall j :: 0 <= j < |idx| ==> idx[j] < n) && (forall i, j :: 0 <= i < j < |idx| ==> idx[i] < idx[j])
  }

  /** The hits are those of the keys at the positions idx, which rise, and no other key has one. */
  ghost predicate Lists(keys: seq<string>, scripts: seq<seq<Answer>>, hits: seq<(string, string)>, idx: seq<nat>)
    requires |scripts| == |keys|
  {
    && |idx| == |hits| && Rises(idx, |keys|)
    && (forall j :: 0 <= j < |idx| ==> IsHit(hits[j], keys[idx[j]], scripts[idx[j]]))
    && (forall i :: 0 <= i < |keys| && i !in idx ==> NoHit(scripts[i]))
  }

  ghost predicate AllShort(keys: seq<string>) {
    forall i :: 0 <= i < |keys| ==> |keys[i]| <= 250
  }

  /** The positions one further on. */
  function On(idx: seq<nat>): (r: seq<nat>)
    ensures |r| == |idx| && forall j :: 0 <= j < |idx| ==> r[j] == idx[j] + 1
  {
    seq(|idx|, j requires 0 <= j < |idx| => idx[j] + 1)
  }

  /** A first key without an item. */
  lemma ListsSkip(keys: seq<string>, scripts: seq<seq<Answer>>, hits: seq<(string, string)>, idx: seq<nat>)
    requires |scripts| == |keys| > 0 && Lists(keys[1..], scripts[1..], hits, idx) && NoHit(scripts[0])
    ensures Lists(keys, scripts, hits, On(idx))
  {
    var r := On(idx);
    forall j | 0 <= j < |r| ensures IsHit(hits[j], keys[r[j]], scripts[r[j]]) {
      assert IsHit(hits[j], keys[1..][idx[j]], scripts[1..][idx[j]]);
    }
    forall i | 0 <= i < |keys| && i !in r ensures NoHit(scripts[i]) {
      if i > 0 {
        OnHas(idx, i);
        assert scripts[i] == scripts[1..][i - 1];
      }
    }
  }

  lemma OnHas(idx: seq<nat>, i: nat)
    requires i > 0 && i !in On(idx)
    ensures i - 1 !in idx
  {
    forall j | 0 <= j < |idx| ensures idx[j] != i - 1 { assert On(idx)[j] in On(idx); }
  }

  /** A first key with one. */
  lemma ListsHit(keys: seq<string>, scripts: seq<seq<Answer>>, hits: seq<(string, string)>, idx: seq<nat>, hit: (string, string))
    requires |scripts| == |keys| > 0 && Lists(keys[1..], scripts[1..], hits, idx) && IsHit(hit, keys[0], scripts[0])
    ensures Lists(keys, scripts, [hit] + hits, [0] + On(idx))
  {
    var r, h := [0] + On(idx), [hit] + hits;
    forall j | 0 <= j < |r| ensures r[j] < |keys| && IsHit(h[j], keys[r[j]], scripts[r[j]]) {
      if j > 0 {
        assert r[j] == idx[j - 1] + 1 && h[j] == hits[j - 1];
        assert IsHit(hits[j - 1], keys[1..][idx[j - 1]], scripts[1..][idx[j - 1]]);
      }
    }
    FirstRises(idx, |keys|);
    forall i | 0 <= i < |keys| && i !in r ensures NoHit(scripts[i]) {
      FirstHas(idx, i);
      assert scripts[i] == scripts[1..][i - 1];
    }
  }

  lemma FirstRises(idx: seq<nat>, n: nat)
    requires n > 0 && Rises(idx, n - 1)
    ensures Rises([0] + On(idx), n)
  {
  }

  lemma FirstHas(idx: seq<nat>, i: nat)
    requires i !in [0] + On(idx)
    ensures i > 0 && i - 1 !in idx
  {
    var r := [0] + On(idx);
    assert r[0] == 0;
    forall j | 0 <= j < |idx| ensures On(idx)[j] != i { assert r[j + 1] in r; }
    OnHas(idx, i);
  }

  lemma NoFinal(script: seq<Answer>)
    requires Final(script) == []
    ensures NoHit(script)
  {
    forall item ensures !Yields(script, item) { FinalYields(script, item); }
  }

  /** One more key in front. */
  lemma ListsCons(keys: seq<string>, scripts: seq<seq<Answer>>, hits: seq<(string, string)>, idx: seq<nat>) returns (r: seq<nat>)
    requires |scripts| == |keys| > 0 && Lists(keys[1..], scripts[1..], hits, idx)
    ensures Lists(keys, scripts, WithItem([], keys[0], Final(scripts[0])) + hits, r)
  {
    var first := Final(scripts[0]);
    if first == [] {
      NoFinal(scripts[0]);
      r := On(idx);
      ListsSkip(keys, scripts, hits, idx);
      assert [] + hits == hits;
    } else {
      FinalYields(scripts[0], first[0]);
      r := [0] + On(idx);
      assert IsHit((keys[0], first[0]), keys[0], scripts[0]);
      ListsHit(keys, scripts, hits, idx, (keys[0], first[0]));
      FirstWith(keys[0], first, hits);
    }
  }

  /** From hits had before. */
  lemma {:induction false} ServeFrom(keys: seq<string>, scripts: seq<seq<Answer>>, had: seq<(string, string)>)
    returns (hits: seq<(string, string)>, idx: seq<nat>)
    requires |scripts| == |keys|
    ensures Serve(keys, scripts, Success, had) == if AllShort(keys) then Hits(had + hits) else BadLine
    ensures AllShort(keys) ==> Lists(keys, scripts, hits, idx)
    decreases |keys|
  {
    hits, idx := [], [];
    if keys == [] {
      assert had + hits == had;
    } else if |keys[0]| <= 250 {
      var first := Final(scripts[0]);
      hits, idx := ServeFrom(keys[1..], scripts[1..], WithItem(had, keys[0], first));
      ShortCons(keys);
      if AllShort(keys) { idx := ListsCons(keys, scripts, hits, idx); }
      WithItemMore(had, keys[0], first, hits);
      hits := WithItem([], keys[0], first) + hits;
    }
  }

  lemma FirstWith(key: string, first: seq<string>, hits: seq<(string, string)>)
    requires first != []
    ensures WithItem([], key, first) + hits == [(key, first[0])] + hits
  {
  }

  lemma ShortCons(keys: seq<string>)
    requires keys != []
    ensures AllShort(keys) <==> |keys[0]| <= 250 && AllShort(keys[1..])
  {
    if AllShort(keys[1..]) && |keys[0]| <= 250 {
      forall i | 0 <= i < |keys| ensures |keys[i]| <= 250 { assert i > 0 ==> keys[i] == keys[1..][i - 1]; }
    }
  }

  lemma WithItemMore(had: seq<(string, string)>, key: string, item: seq<string>, more: seq<(string, string)>)
    ensures WithItem(had, key, item) + more == had + (WithItem([], key, item) + more)
  {
  }

  /**
    The reply to a get: an error exactly when some key is longer than 250 characters; else, in
    the order of the keys, each key for which the engine has an item in the end, with the item.
    */
  lemma ServeSays(keys: seq<string>, scripts: seq<seq<Answer>>) returns (idx: seq<nat>)
    requires |scripts| == |keys|
    ensures Serve(keys, scripts, Success, []) == BadLine <==> exists i :: 0 <= i < |keys| && |keys[i]| > 250
    ensures Serve(keys, scripts, Success, []).Hits? ==> Lists(keys, scripts, Serve(keys, scripts, Success, []).hits, idx)
  {
    var hits;
    hits, idx := ServeFrom(keys, scripts, []);
    assert [] + hits == hits;
  }

  /** How many answers are still to come. */
  function Answers(scripts: seq<seq<Answer>>): nat {
    if scripts == [] then 0 else |scripts[0]| + Answers(scripts[1..])
  }

  /** The words themselves. */
  function Words(b: string, i: nat, el: nat): seq<string>
    requires i <= el <= |b|
    decreases el - i
  {
    if Skip(b, i, el) == el then [] else
    var t := First(b, i, el);
    [Text(b, t)] + Words(b, t.value + t.length, el)
  }

  lemma {:induction false} StopNoSpace(b: string, i: nat, el: nat)
    requires i <= el <= |b|
    ensures forall p :: i <= p < Stop(b, i, el) ==> b[p] != ' '
    decreases el - i
  {
    if i < el && b[i] != ' ' { StopNoSpace(b, i + 1, el); }
  }

  /** The first word lies where the first span says, and the others behind it. */
  lemma FirstSpan(b: string, i: nat, el: nat)
    requires i <= el <= |b| && Spans(b, i, el) != []
    ensures var t := Spans(b, i, el)[0];
            Within(b, t, i, el) && Spans(b, t.value + t.length, el) == Spans(b, i, el)[1..]
  {
  }

  lemma FirstText(b: string, i: nat, el: nat)
    requires i <= el <= |b| && Spans(b, i, el) != []
    ensures var t := Spans(b, i, el)[0];
            && Within(b, t, i, el)
            && Words(b, i, el) != [] && Words(b, i, el)[0] == Text(b, t)
            && Words(b, i, el)[1..] == Words(b, t.value + t.length, el)
            && Words(b, t.value, el) == Words(b, i, el)
  {
    assert Skip(b, Skip(b, i, el), el) == Skip(b, i, el);
  }

  /** Its characters are no spaces, those around it are. */
  lemma FirstChars(b: string, i: nat, el: nat)
    requires i <= el <= |b| && Spans(b, i, el) != []
    ensures var t := Spans(b, i, el)[0];
            && Within(b, t, i, el)
            && (forall p :: i <= p < t.value ==> b[p] == ' ')
            && (forall p :: t.value <= p < t.value + t.length ==> b[p] != ' ')
            && (t.value + t.length < el ==> b[t.value + t.length] == ' ')
  {
    SkipSpaces(b, i, el);
    StopNoSpace(b, Skip(b, i, el), el);
  }

  lemma {:induction false} SkipSpaces(b: string, i: nat, el: nat)
    requires i <= el <= |b|
    ensures forall p :: i <= p < Skip(b, i, el) ==> b[p] == ' '
    decreases el - i
  {
    if i < el && b[i] == ' ' { SkipSpaces(b, i + 1, el); }
  }

  lemma NoWords(b: string, i: nat, el: nat)
    requires i <= el <= |b| && Spans(b, i, el) == []
    ensures Words(b, i, el) == []
  {
  }

  lemma WordsHead(b: string, i: nat, el: nat)
    requires i <= el <= |b| && Skip(b, i, el) < el
    ensures Words(b, i, el) == [Text(b, First(b, i, el))] + Words(b, First(b, i, el).value + First(b, i, el).length, el)
  {
  }

  lemma FirstSame(b: string, c: string, i: nat, el: nat)
    requires i <= el <= |b| && |c| == |b| && forall p :: i <= p < el ==> b[p] == c[p]
    ensures Skip(b, i, el) == Skip(c, i, el)
    ensures Skip(b, i, el) < el ==> First(b, i, el) == First(c, i, el) && Text(b, First(b, i, el)) == Text(c, First(b, i, el))
  {
    SkipSame(b, c, i, el);
    var s := Skip(b, i, el);
    if s < el {
      StopSame(b, c, s, el);
      var t := First(b, i, el);
      assert Text(b, t) == Text(c, t);
    }
  }

  lemma {:induction false} WordsSame(b: string, c: string, i: nat, el: nat)
    requires i <= el <= |b| && |c| == |b| && forall p :: i <= p < el ==> b[p] == c[p]
    ensures Words(b, i, el) == Words(c, i, el)
    decreases el - i
  {
    FirstSame(b, c, i, el);
    if Skip(b, i, el) < el {
      WordsHead(b, i, el);
      WordsHead(c, i, el);
      WordsSame(b, c, First(b, i, el).value + First(b, i, el).length, el);
    }
  }

  lemma {:induction false} WordsCount(b: string, i: nat, el: nat)
    requires i <= el <= |b|
    ensures |Words(b, i, el)| == |Spans(b, i, el)|
    decreases el - i
  {
    if Spans(b, i, el) != [] {
      WordsCount(b, Stop(b, Skip(b, i, el), el), el);
    }
  }

  // ---------- a NUL inside the line ----------

  lemma WordsSpace(b: string, i: nat, el: nat)
    requires i < el <= |b| && b[i] == ' '
    ensures Words(b, i, el) == Words(b, i + 1, el)
  {
  }

  lemma {:induction false} WordsOverSpaces(b: string, i: nat, z: nat, el: nat)
    requires i <= z <= el <= |b| && forall p :: i <= p < z ==> b[p] == ' '
    ensures Words(b, i, el) == Words(b, z, el)
    decreases z - i
  {
    if i < z {
      WordsSpace(b, i, el);
      WordsOverSpaces(b, i + 1, z, el);
    }
  }

  lemma {:induction false} SkipTo(b: string, i: nat, z: nat, el: nat)
    requires i <= z <= el <= |b| && Skip(b, i, z) < z
    ensures Skip(b, i, el) == Skip(b, i, z)
    decreases z - i
  {
    if b[i] == ' ' { SkipTo(b, i + 1, z, el); }
  }

  lemma {:induction false} StopTo(b: string, i: nat, z: nat, el: nat)
    requires i <= z < el <= |b| && b[z] == ' '
    ensures Stop(b, i, el) == Stop(b, i, z)
    decreases z - i
  {
    if i < z && b[i] != ' ' { StopTo(b, i + 1, z, el); }
  }

  lemma FirstTo(b: string, i: nat, z: nat, el: nat)
    requires i <= z < el <= |b| && b[z] == ' ' && Skip(b, i, z) < z
    ensures Skip(b, i, el) < el && First(b, i, el) == First(b, i, z)
  {
    SkipTo(b, i, z, el);
    StopTo(b, Skip(b, i, z), z, el);
  }

  lemma Glue(whole: seq<string>, first: seq<string>, x: string, w: seq<string>, f: seq<string>, rest: seq<string>)
    requires whole == [x] + w && first == [x] + f && w == f + rest
    ensures whole == first + rest
  {
  }

  /** Nothing but spaces up to z. */
  lemma SplitBlank(b: string, i: nat, z: nat, el: nat)
    requires i <= z < el <= |b| && Skip(b, i, z) == z
    ensures Words(b, i, z) == [] && Words(b, i, el) == Words(b, z, el)
  {
    SkipSpaces(b, i, z);
    WordsOverSpaces(b, i, z, el);
  }

  /** The first word, seen from z and from el, when a space stands at z. */
  lemma SplitHead(b: string, i: nat, z: nat, el: nat) returns (x: string, j: nat)
    requires i <= z < el <= |b| && b[z] == ' ' && Skip(b, i, z) < z
    ensures i < j <= z && Words(b, i, z) == [x] + Words(b, j, z) && Words(b, i, el) == [x] + Words(b, j, el)
  {
    FirstTo(b, i, z, el);
    WordsHead(b, i, z);
    WordsHead(b, i, el);
    var t := First(b, i, z);
    x, j := Text(b, t), t.value + t.length;
  }

  lemma {:induction false} WordsSplit(b: string, i: nat, z: nat, el: nat)
    requires i <= z < el <= |b| && b[z] == ' '
    ensures Words(b, i, el) == Words(b, i, z) + Words(b, z, el)
    decreases z - i
  {
    if Skip(b, i, z) == z {
      SplitBlank(b, i, z, el);
    } else {
      var x, j := SplitHead(b, i, z, el);
      WordsSplit(b, j, z, el);
      Glue(Words(b, i, el), Words(b, i, z), x, Words(b, j, el), Words(b, j, z), Words(b, z, el));
    }
  }

  lemma SomeWords(b: string, i: nat, el: nat)
    requires i < el <= |b| && b[i] != ' '
    ensures Words(b, i, el) != []
  {
  }

  lemma {:induction false} BlankHasNoWords(b: string, i: nat, el: nat)
    requires i <= el <= |b|
    ensures Words(b, i, el) == [] <==> forall p :: i <= p < el ==> b[p] == ' '
    decreases el - i
  {
    if i < el {
      if b[i] == ' ' {
        WordsSpace(b, i, el);
        BlankHasNoWords(b, i + 1, el);
      } else {
        SomeWords(b, i, el);
      }
    }
  }

  /** The line with the NULs from z up to el turned into spaces. */
  function Unnulled(b: string, z: nat, el: nat): (c: string)
    requires z <= el <= |b|
    ensures |c| == |b| && forall p :: 0 <= p < |b| ==> c[p] == if z <= p < el && b[p] == NUL then ' ' else b[p]
    ensures z == el ==> c == b
  {
    seq(|b|, p requires 0 <= p < |b| => if z <= p < el && b[p] == NUL then ' ' else b[p])
  }

  /**
    A line with a NUL in it ends there for the tokenizer, but not for the rewriting: the
    resumed command has the same keys exactly if nothing but spaces and NULs follows.
    */
  lemma NulInLine(b: string, i: nat, z: nat, el: nat)
    requires i <= z < el <= |b| && b[z] == NUL && forall p :: i <= p < z ==> b[p] != NUL
    ensures Words(Unnulled(b, z, el), i, el) == Words(b, i, z) <==> forall p :: z <= p < el ==> b[p] == ' ' || b[p] == NUL
  {
    var c := Unnulled(b, z, el);
    WordsSplit(c, i, z, el);
    WordsSame(b, c, i, z);
    BlankHasNoWords(c, z, el);
    if Words(c, i, el) == Words(b, i, z) {
      assert |Words(c, z, el)| == 0;
      forall p | z <= p < el ensures b[p] == ' ' || b[p] == NUL { assert c[p] == ' '; }
    }
  }

  /** So one of the keys behind a NUL is asked for only if the command blocks. */
  lemma NulExample()
    ensures Words("get a\0b", 4, 5) != Words(Unnulled("get a\0b", 5, 7), 4, 7)
  {
    NulInLine("get a\0b", 4, 5, 7);
    assert "get a\0b"[6] == 'b';
  }
}
