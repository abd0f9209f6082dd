/**
  A get command that may block: the tokenizer that cuts the line up where it lies, the loop
  over batches of tokens, and the rewriting of the line from which the command resumes.
  */
module Multiget {
  import opened Basics
  import opened MultigetSpec

  /** A space right behind a word. */
  predicate EndsWord(was: string, lo: nat, p: nat)
    requires lo <= p < |was|
  {
    was[p] == ' ' && p > lo && was[p - 1] != ' '
  }

  /** Between lo and hi every such space has become a NUL, and nothing else has changed. */
  ghost predicate Blanked(was: string, now: string, lo: nat, hi: nat) {
    |now| == |was| && hi <= |was|
    && (forall p {:trigger now[p]} :: 0 <= p < |was| && !(lo <= p < hi) ==> now[p] == was[p])
    && forall p {:trigger EndsWord(was, lo, p)} :: lo <= p < hi ==>
         now[p] == if EndsWord(was, lo, p) then NUL else was[p]
  }

  ghost predicate NoNul(b: string, lo: nat, hi: nat) {
    hi <= |b| && forall p :: lo <= p < hi ==> b[p] != NUL
  }

  ghost predicate NoSpace(b: string, lo: nat, hi: nat) {
    hi <= |b| && forall p :: lo <= p < hi ==> b[p] != ' '
  }

  /** The tokens are the first words from position i on; last tells where the others begin, if any may. */
  ghost predicate Tokenized(was: string, i: nat, el: nat, toks: seq<Token>, last: Token, max: nat)
    requires i <= el <= |was|
  {
    var all := Spans(was, i, el);
    && |toks| < max && |toks| <= |all| && toks == all[..|toks|] && last.length == 0
    && (last.value == NULL ==> |all| == |toks|)
    && (last.value != NULL ==>
          && i < last.value < el && |toks| == max - 1 && was[last.value - 1] == ' '
          && (toks != [] ==> toks[0].value + toks[0].length < last.value)
          && Spans(was, last.value, el) == all[|toks|..])
  }

  /** What holds at the head of the loop of tokenize_command. */
  ghost predicate Scanning(was: string, now: string, command: nat, s: nat, e: nat, el: nat, tokens: seq<Token>)
    requires command <= el <= |was|
  {
    && command <= s <= e <= el && NoSpace(was, s, e) && Blanked(was, now, command, s)
    && (s > command ==> was[s - 1] == ' ')
    && (tokens != [] ==> tokens[0].value + tokens[0].length < s)
    && var all := Spans(was, command, el);
    |tokens| <= |all| && tokens == all[..|tokens|] && Spans(was, s, el) == all[|tokens|..]
  }

  lemma ScanSpace(was: string, now: string, command: nat, e: nat, el: nat, tokens: seq<Token>)
    requires e < el < |was| && command <= el && Scanning(was, now, command, e, e, el, tokens) && was[e] == ' '
    ensures Scanning(was, now, command, e + 1, e + 1, el, tokens)
  {
    SpansSpace(was, e, el);
  }

  lemma BlankOne(was: string, now: string, lo: nat, s: nat, e: nat)
    requires lo <= s < e < |was| && Blanked(was, now, lo, s) && NoSpace(was, s, e) && was[e] == ' '
    ensures Blanked(was, now[e := NUL], lo, e + 1)
  {
    var t := now[e := NUL];
    assert was[e - 1] != ' ' && t[e] == NUL;
    assert forall p :: 0 <= p < |was| && p != e ==> t[p] == now[p];
  }

  lemma ScanWord(was: string, now: string, command: nat, s: nat, e: nat, el: nat, tokens: seq<Token>)
    requires e < el < |was| && command <= el && s < e
    requires Scanning(was, now, command, s, e, el, tokens) && was[e] == ' '
    ensures Scanning(was, now[e := NUL], command, e + 1, e + 1, el, tokens + [Token(s, e - s)])
  {
    BlankOne(was, now, command, s, e);
    SpansWord(was, s, e, el);
    SpansSpace(was, e, el);
    MoreOf(Spans(was, command, el), tokens, Token(s, e - s), Spans(was, e, el));
  }

  lemma MoreOf(all: seq<Token>, ts: seq<Token>, t: Token, rest: seq<Token>)
    requires |ts| <= |all| && ts == all[..|ts|] && [t] + rest == all[|ts|..]
    ensures |ts| < |all| && ts + [t] == all[..|ts| + 1] && rest == all[|ts| + 1..]
  {
    assert all[|ts|..][0] == t && all[|ts|..][1..] == rest;
  }

  lemma SpansNone(b: string, el: nat)
    requires el <= |b|
    ensures Spans(b, el, el) == []
  {
  }

  lemma AllOf(all: seq<Token>, ts: seq<Token>, rest: seq<Token>)
    requires |ts| <= |all| && ts == all[..|ts|] && rest == all[|ts|..]
    ensures all == ts + rest
  {
  }

  /** No space between s and el, so nothing there is blanked. */
  lemma BlankedEnd(was: string, now: string, lo: nat, s: nat, el: nat)
    requires lo <= s <= el <= |was| && Blanked(was, now, lo, s) && NoSpace(was, s, el)
    ensures Blanked(was, now, lo, el)
  {
    forall p | lo <= p < el ensures now[p] == if EndsWord(was, lo, p) then NUL else was[p] {
      if p < s { assert EndsWord(was, lo, p) || !EndsWord(was, lo, p); }
    }
  }

  lemma ScanEnd(was: string, now: string, command: nat, s: nat, el: nat, tokens: seq<Token>)
    requires el < |was| && command <= el && Scanning(was, now, command, s, el, el, tokens)
    ensures var ts := if s != el then tokens + [Token(s, el - s)] else tokens;
            Spans(was, command, el) == ts && Blanked(was, now, command, el)
  {
    BlankedEnd(was, now, command, s, el);
    ScanEndTokens(was, s, el, Spans(was, command, el), tokens);
  }

  lemma ScanEndTokens(was: string, s: nat, el: nat, all: seq<Token>, ts: seq<Token>)
    requires s <= el < |was| && NoSpace(was, s, el)
    requires |ts| <= |all| && ts == all[..|ts|] && Spans(was, s, el) == all[|ts|..]
    ensures all == if s != el then ts + [Token(s, el - s)] else ts
  {
    SpansNone(was, el);
    AllOf(all, ts, Spans(was, s, el));
    if s != el { SpansWord(was, s, el, el); }
  }

  /** Where the cutting up has come to. */
  function CutEnd(last: Token, el: nat): int { if last.value == NULL then el else last.value }

  /** The line is cut up as far as the tokens go, and nowhere else. */
  ghost predicate CutUp(was: string, now: string, i: nat, el: nat, toks: seq<Token>, last: Token, max: nat)
    requires i <= el <= |was|
  {
    Tokenized(was, i, el, toks, last, max) && Blanked(was, now, i, CutEnd(last, el))
  }

  /** Where the scan may stop: at the end of the line, or with all tokens but one used up. */
  ghost predicate Scanned(was: string, now: string, command: nat, e: nat, el: nat, ts: seq<Token>, max: nat)
    requires command <= el <= |was|
  {
    && command <= e <= el && |ts| < max
    && if e == el then Spans(was, command, el) == ts && Blanked(was, now, command, el)
       else |ts| == max - 1 && command < e && Scanning(was, now, command, e, e, el, ts)
  }

  /** The token behind the last word: where the next words begin, or NULL at the end of the line. */
  lemma Terminal(was: string, now: string, command: nat, e: nat, el: nat, ts: seq<Token>, max: nat)
    requires command <= el < |was| && Scanned(was, now, command, e, el, ts, max)
    ensures CutUp(was, now, command, el, ts, Token(if e == el then NULL else e, 0), max)
  {
  }

  /** A word that a space ends: its token is stored and the space blanked. */
  method EndWord(buf: array<char>, command: nat, tokens: array<Token>, n: nat, s: nat, e: nat,
                 ghost el: nat, ghost was: string)
    requires n < tokens.Length && command <= el < buf.Length == |was| && s < e < el && buf[e] == ' '
    requires Scanning(was, buf[..], command, s, e, el, tokens[..n])
    modifies buf, tokens
    ensures Scanning(was, buf[..], command, e + 1, e + 1, el, tokens[..n + 1])
  {
    ghost var now, ts := buf[..], tokens[..n];
    assert was[e] == now[e];
    ScanWord(was, now, command, s, e, el, ts);
    tokens[n] := Token(s, e - s);
    buf[e] := NUL;
    assert buf[..] == now[e := NUL];
    assert tokens[..n + 1] == ts + [Token(s, e - s)];
  }

  /** A word that the end of the line ends. */
  method EndLine(buf: array<char>, command: nat, tokens: array<Token>, n: nat, s: nat, el: nat, ghost was: string)
    returns (ntokens: nat)
    requires n < tokens.Length - 1 && command <= el < buf.Length == |was| && s <= el
    requires Scanning(was, buf[..], command, s, el, el, tokens[..n])
    modifies tokens
    ensures ntokens < tokens.Length && Scanned(was, buf[..], command, el, el, tokens[..ntokens], tokens.Length)
  {
    ghost var ts := tokens[..n];
    ntokens := n;
    ScanEnd(was, buf[..], command, s, el, ts);
    if s != el {
      tokens[ntokens] := Token(s, el - s);
      ntokens := ntokens + 1;
      assert tokens[..ntokens] == ts + [Token(s, el - s)];
    }
  }

  /** The loop of tokenize_command. */
  method ScanWords(buf: array<char>, command: nat, tokens: array<Token>, ghost el: nat) returns (ntokens: nat, e: nat)
    requires tokens.Length > 1 && command <= el < buf.Length && buf[el] == NUL && NoNul(buf[..], command, el)
    modifies buf, tokens
    ensures ntokens < tokens.Length && e < buf.Length
    ensures Scanned(old(buf[..]), buf[..], command, e, el, tokens[..ntokens], tokens.Length)
  {
    ghost var was := buf[..];
    var max := tokens.Length;
    ntokens := 0;
    var s: nat := command;
    e := command;
    while ntokens < max - 1
      invariant ntokens <= max - 1 && Scanning(was, buf[..], command, s, e, el, tokens[..ntokens])
      invariant ntokens == max - 1 ==> s == e && command < e
      decreases el - e
    {
      ghost var now, ts := buf[..], tokens[..ntokens];
      assert buf[e] == was[e];
      if buf[e] == ' ' {
        if s != e {
          EndWord(buf, command, tokens, ntokens, s, e, el, was);
          ntokens := ntokens + 1;
        } else {
          ScanSpace(was, now, command, e, el, ts);
        }
        s := e + 1;
      } else if buf[e] == NUL {
        ntokens := EndLine(buf, command, tokens, ntokens, s, e, was);
        return; // string end
      }
      e := e + 1;
    }
    if e == el { ScanEnd(was, buf[..], command, s, el, tokens[..ntokens]); }
  }

  /** tokenize_command on the line that ends at el; the last of the tokens has no length. */
  method TokenizeCommand(buf: array<char>, command: nat, tokens: array<Token>, ghost el: nat) returns (ntokens: nat)
    requires tokens.Length > 1 && command <= el < buf.Length && buf[el] == NUL && NoNul(buf[..], command, el)
    modifies buf, tokens
    ensures 1 <= ntokens <= tokens.Length
    ensures CutUp(old(buf[..]), buf[..], command, el, tokens[..ntokens - 1], tokens[ntokens - 1], tokens.Length)
  {
    ghost var was := buf[..];
    var e: nat;
    ntokens, e := ScanWords(buf, command, tokens, el);
    ghost var ts := tokens[..ntokens];
    Terminal(was, buf[..], command, e, el, ts, tokens.Length);
    assert buf[e] == NUL <==> e == el;
    tokens[ntokens] := Token(if buf[e] == NUL then NULL else e, 0);
    assert tokens[..ntokens] == ts;
    ntokens := ntokens + 1;
  }

  datatype Result = Blocked(left: nat, status: Status) | Finished(outcome: Outcome)

  /** The words behind the tokens of a batch, not cut up yet. */
  function Uncut(line: string, last: Token, el: nat): seq<Token>
    requires last.value == NULL || 0 <= last.value <= el <= |line|
  {
    if last.value == NULL then [] else Spans(line, last.value, el)
  }

  ghost predicate Line(line: string, lo: nat, el: nat) {
    lo <= el < |line| && line[el] == NUL && NoNul(line, lo, el)
  }

  /** A line cut up as far as its last token says. */
  ghost predicate Board(line: string, now: string, last: Token, lo: nat, el: nat) {
    && Line(line, lo, el) && last.length == 0
    && lo < CutEnd(last, el) <= el && Blanked(line, now, lo, CutEnd(last, el))
    && (last.value != NULL ==> last.value < el && line[last.value - 1] == ' ')
  }

  /** Between two words. */
  ghost predicate Gap(line: string, pos: int, el: nat) {
    0 <= pos <= el <= |line| && (pos < el ==> line[pos] == ' ')
  }

  /** A word somewhere behind pos, with a space before it and a gap after it. */
  ghost predicate WordAt(line: string, t: Token, pos: int, el: nat) {
    && 0 <= pos < t.value && 0 < t.length && t.value + t.length <= el <= |line|
    && (forall p :: pos <= p < t.value ==> line[p] == ' ') && NoSpace(line, t.value, t.value + t.length)
    && Gap(line, t.value + t.length, el)
  }

  /**
    The words from pos on are those at the tokens of the batch, and from where last says
    those not cut up yet.
    */
  ghost predicate Ahead(line: string, toks: seq<Token>, last: Token, pos: int, el: nat, words: seq<string>)
    decreases |toks|
  {
    && Gap(line, pos, el)
    && if toks == [] then
      && last.length == 0 && (last.value == NULL || 0 <= last.value <= el)
      && Spans(line, pos, el) == Uncut(line, last, el) && words == Words(line, pos, el)
    else
      && WordAt(line, toks[0], pos, el) && words != [] && words[0] == Text(line, toks[0])
      && Ahead(line, toks[1..], last, toks[0].value + toks[0].length, el, words[1..])
  }

  lemma FirstAt(line: string, pos: nat, el: nat)
    requires Gap(line, pos, el) && Spans(line, pos, el) != []
    ensures var t := Spans(line, pos, el)[0]; var next := t.value + t.length;
            && WordAt(line, t, pos, el) && Spans(line, next, el) == Spans(line, pos, el)[1..]
            && Words(line, pos, el) != [] && Words(line, pos, el)[0] == Text(line, t)
            && Words(line, pos, el)[1..] == Words(line, next, el)
  {
    FirstSpan(line, pos, el);
    FirstText(line, pos, el);
    FirstChars(line, pos, el);
  }

  lemma SliceTail(all: seq<Token>, n: nat)
    requires 0 < n <= |all|
    ensures all[..n] != [] && all[..n][0] == all[0]
    ensures all[..n][1..] == all[1..][..n - 1] && all[1..][n - 1..] == all[n..]
  {
  }

  /** The tokens are the first spans from pos on, and last leads to the others. */
  ghost predicate Leads(line: string, toks: seq<Token>, last: Token, pos: int, el: nat) {
    && Gap(line, pos, el) && |toks| <= |Spans(line, pos, el)|
    && last.length == 0 && (last.value == NULL || 0 <= last.value <= el)
    && toks == Spans(line, pos, el)[..|toks|] && Spans(line, pos, el)[|toks|..] == Uncut(line, last, el)
  }

  lemma LeadsOn(line: string, toks: seq<Token>, last: Token, pos: nat, el: nat)
    requires Leads(line, toks, last, pos, el) && toks != []
    ensures Spans(line, pos, el) != [] && Spans(line, pos, el)[0] == toks[0]
    ensures Leads(line, toks[1..], last, toks[0].value + toks[0].length, el)
  {
    SliceTail(Spans(line, pos, el), |toks|);
    FirstAt(line, pos, el);
  }

  lemma LeadsNowhere(line: string, last: Token, pos: nat, el: nat)
    requires Leads(line, [], last, pos, el)
    ensures Spans(line, pos, el) == Uncut(line, last, el)
  {
    assert Spans(line, pos, el)[0..] == Spans(line, pos, el);
  }

  /** The same, of spans and words as a whole. */
  lemma {:induction false} AheadFrom(line: string, toks: seq<Token>, last: Token, pos: nat, el: nat, words: seq<string>)
    requires Leads(line, toks, last, pos, el) && words == Words(line, pos, el)
    ensures Ahead(line, toks, last, pos, el, words)
    decreases |toks|
  {
    if toks == [] {
      LeadsNowhere(line, last, pos, el);
    } else {
      LeadsOn(line, toks, last, pos, el);
      FirstAt(line, pos, el);
      AheadFrom(line, toks[1..], last, toks[0].value + toks[0].length, el, words[1..]);
    }
  }

  lemma WordsFrom(line: string, t: Token, pos: int, i: nat, el: nat)
    requires WordAt(line, t, pos, el) && pos <= i <= t.value
    ensures Words(line, i, el) == [Text(line, t)] + Words(line, t.value + t.length, el)
  {
    SkipAt(line, i, t.value, el);
    StopAt(line, t.value, t.value + t.length, el);
    assert First(line, i, el) == t;
  }

  lemma Cons(words: seq<string>, first: string, rest: seq<string>)
    requires words != [] && words[0] == first && words[1..] == rest
    ensures words == [first] + rest
  {
  }

  /** And back. */
  lemma {:induction false} AheadWords(line: string, toks: seq<Token>, last: Token, pos: nat, el: nat, words: seq<string>)
    requires Ahead(line, toks, last, pos, el, words)
    ensures words == Words(line, pos, el)
    decreases |toks|
  {
    if toks != [] {
      AheadWords(line, toks[1..], last, toks[0].value + toks[0].length, el, words[1..]);
      WordsFrom(line, toks[0], pos, pos, el);
      Cons(words, Text(line, toks[0]), Words(line, toks[0].value + toks[0].length, el));
    }
  }

  /** The words may also be counted from where the first of them begins. */
  lemma FromFirst(line: string, toks: seq<Token>, last: Token, pos: nat, el: nat, words: seq<string>)
    requires Ahead(line, toks, last, pos, el, words) && toks != []
    ensures words == Words(line, toks[0].value, el)
  {
    AheadWords(line, toks, last, pos, el, words);
    SameFrom(line, toks[0], pos, el);
  }

  lemma SameFrom(line: string, t: Token, pos: nat, el: nat)
    requires WordAt(line, t, pos, el)
    ensures Words(line, pos, el) == Words(line, t.value, el)
  {
    WordsFrom(line, t, pos, pos, el);
    WordsFrom(line, t, pos, t.value, el);
  }

  /** Cutting a line up leaves the words as they are. */
  lemma WordKept(line: string, now: string, t: Token, pos: nat, lo: nat, hi: nat, el: nat)
    requires lo <= pos && Blanked(line, now, lo, hi) && WordAt(line, t, pos, el)
    ensures Text(now, t) == Text(line, t)
  {
    forall p | t.value <= p < t.value + t.length ensures now[p] == line[p] {
      if lo <= p < hi { assert !EndsWord(line, lo, p); }
    }
  }

  lemma BlankedOn(was: string, mid: string, now: string, lo: nat, m: nat, hi: nat)
    requires lo < m <= hi && Blanked(was, mid, lo, m) && Blanked(mid, now, m, hi) && was[m - 1] == ' '
    ensures Blanked(was, now, lo, hi)
  {
    forall p | lo <= p < hi ensures now[p] == if EndsWord(was, lo, p) then NUL else was[p] {
      if p < m {
        assert now[p] == mid[p];
      } else {
        assert EndsWord(mid, m, p) == EndsWord(was, lo, p);
      }
    }
  }

  lemma BoardRest(line: string, now: string, last: Token, lo: nat, el: nat)
    requires Board(line, now, last, lo, el) && last.value != NULL
    ensures 0 <= last.value < el && now[el] == NUL && NoNul(now, last.value, el)
  {
  }

  /** A fresh batch, cut from where the last one ended. */
  lemma CutNext(line: string, was: string, now: string, last: Token, pos: nat, words: seq<string>,
                toks: seq<Token>, final: Token, lo: nat, el: nat)
    requires Board(line, was, last, lo, el) && Ahead(line, [], last, pos, el, words) && last.value != NULL
    requires CutUp(was, now, last.value, el, toks, final, MAX_TOKENS)
    ensures Board(line, now, final, lo, el) && CutEnd(final, el) > last.value
    ensures Ahead(line, toks, final, pos, el, words)
    ensures toks == [] && final.value == NULL ==> words == []
  {
    BlankedOn(line, was, now, lo, last.value, CutEnd(final, el));
    NextAhead(line, was, last, pos, words, toks, final, el);
    if toks == [] && final.value == NULL { NoWords(line, pos, el); }
  }

  lemma NextAhead(line: string, was: string, last: Token, pos: nat, words: seq<string>, toks: seq<Token>, final: Token,
                  el: nat)
    requires Ahead(line, [], last, pos, el, words) && 0 <= last.value <= el <= |was| == |line|
    requires Tokenized(was, last.value, el, toks, final, MAX_TOKENS)
    requires forall p :: last.value <= p < el ==> was[p] == line[p]
    ensures Ahead(line, toks, final, pos, el, words)
  {
    SpansSame(was, line, last.value, el);
    if final.value != NULL { SpansSame(was, line, final.value, el); }
    AheadFrom(line, toks, final, pos, el, words);
  }

  /** With the words before pos done with, the reply still comes down to end. */
  ghost predicate Progress(words: seq<string>, end: Outcome, scripts: seq<seq<Answer>>, status: Status,
                           hits: seq<(string, string)>, bound: nat) {
    |scripts| == |words| && Answers(scripts) <= bound && Serve(words, scripts, status, hits) == end
  }

  lemma ProgressBlocked(words: seq<string>, end: Outcome, scripts: seq<seq<Answer>>, status: Status,
                        hits: seq<(string, string)>, bound: nat, after: seq<seq<Answer>>, told: Status)
    requires Progress(words, end, scripts, status, hits, bound) && words != []
    requires |after| == |scripts| && after[1..] == scripts[1..] && |after[0]| < |scripts[0]|
    requires ItemOf(told, after[0]) == ItemOf(status, scripts[0])
    ensures bound > 0 && Progress(words, end, after, told, hits, bound - 1)
  {
  }

  predicate IsGet(word: string) { word == "get" || word == "bget" || word == "gets" }

  predicate GetWords(words: seq<string>, cmd: string, keys: seq<string>) {
    words != [] && words[0] == cmd && words[1..] == keys && keys != []
  }

  /** A line from lo to the newline at nl, its text ending at el, with a get command for some keys. */
  ghost predicate AtGet(b: string, lo: nat, el: nat, nl: nat, cmd: string, keys: seq<string>) {
    AtLine(b, lo, el, nl) && IsGet(cmd) && GetWords(Words(b, lo, el), cmd, keys)
  }

  /** A line without NULs from lo to its newline at nl, which ends at el once a carriage return is cut off. */
  ghost predicate AtLine(b: string, lo: nat, el: nat, nl: nat) {
    && lo <= el <= nl < |b| && b[nl] == '\n' && (forall p :: lo <= p < nl ==> b[p] != '\n')
    && el == (if nl - lo > 1 && b[nl - 1] == '\r' then nl - 1 else nl)
    && NoNul(b, lo, el)
  }

  /** Where the command word of a cut up line lies. */
  ghost predicate CommandAt(line: string, now: string, t: Token, lo: nat, hi: nat, el: nat) {
    FirstWordAt(line, t, lo, el) && t.value + t.length < hi <= el && Blanked(line, now, lo, hi)
  }

  /** The first word of a line and the space behind it. */
  ghost predicate FirstWordAt(line: string, t: Token, lo: nat, el: nat) {
    && lo <= t.value && 0 < t.length && t.value + t.length < el < |line|
    && (forall p :: lo <= p < t.value ==> line[p] == ' ')
    && NoSpace(line, t.value, t.value + t.length) && line[t.value + t.length] == ' '
  }

  lemma FirstBatch(line: string, now: string, lo: nat, el: nat, toks: seq<Token>, last: Token,
                   cmd: string, keys: seq<string>)
    requires Line(line, lo, el) && CutUp(line, now, lo, el, toks, last, MAX_TOKENS)
    requires GetWords(Words(line, lo, el), cmd, keys)
    ensures |toks| >= 2 && Board(line, now, last, lo, el)
    ensures CommandAt(line, now, toks[0], lo, CutEnd(last, el), el)
  {
    FirstTokens(line, lo, el, toks, last);
    FirstChars(line, lo, el);
  }

  /** The first batch of tokens of a get line: the command word, and keys ahead of it. */
  ghost predicate Opened(line: string, now: string, toks: seq<Token>, last: Token, lo: nat, el: nat, cmd: string, keys: seq<string>) {
    && |toks| >= 2 && Board(line, now, last, lo, el)
    && CommandAt(line, now, toks[0], lo, CutEnd(last, el), el)
    && Within(line, toks[0], 0, el) && Text(line, toks[0]) == cmd
    && Ahead(line, toks[1..], last, toks[0].value + toks[0].length, el, keys)
  }

  lemma Opens(line: string, now: string, lo: nat, el: nat, toks: seq<Token>, last: Token, cmd: string, keys: seq<string>)
    requires Line(line, lo, el) && CutUp(line, now, lo, el, toks, last, MAX_TOKENS)
    requires GetWords(Words(line, lo, el), cmd, keys)
    ensures Opened(line, now, toks, last, lo, el, cmd, keys)
    ensures Within(now, toks[0], 0, el) && Text(now, toks[0]) == cmd
  {
    FirstBatch(line, now, lo, el, toks, last, cmd, keys);
    FirstKeys(line, lo, el, toks, last, cmd, keys);
    WordSame(line, now, toks[0], lo, CutEnd(last, el), el);
  }

  lemma FirstKeys(line: string, lo: nat, el: nat, toks: seq<Token>, last: Token, cmd: string, keys: seq<string>)
    requires lo <= el < |line| && Tokenized(line, lo, el, toks, last, MAX_TOKENS)
    requires GetWords(Words(line, lo, el), cmd, keys)
    ensures |toks| >= 2 && Within(line, toks[0], 0, el) && Text(line, toks[0]) == cmd
    ensures Ahead(line, toks[1..], last, toks[0].value + toks[0].length, el, keys)
  {
    FirstTokens(line, lo, el, toks, last);
    FirstText(line, lo, el);
    FirstGap(line, lo, el);
    AheadFrom(line, toks[1..], last, toks[0].value + toks[0].length, el, keys);
  }

  lemma FirstGap(line: string, lo: nat, el: nat)
    requires lo <= el <= |line| && Spans(line, lo, el) != []
    ensures Gap(line, Spans(line, lo, el)[0].value + Spans(line, lo, el)[0].length, el)
  {
    FirstChars(line, lo, el);
  }

  /** The tokens behind the first are the words behind the first, and there are some. */
  lemma FirstTokens(line: string, lo: nat, el: nat, toks: seq<Token>, last: Token)
    requires lo <= el < |line| && Tokenized(line, lo, el, toks, last, MAX_TOKENS) && |Words(line, lo, el)| >= 2
    ensures |toks| >= 2 && Spans(line, lo, el) != [] && Spans(line, lo, el)[0] == toks[0]
    ensures 0 <= toks[0].value && toks[0].value + toks[0].length < el
    ensures var rest := Spans(line, toks[0].value + toks[0].length, el);
            && |rest| >= |toks| - 1 && toks[1..] == rest[..|toks| - 1] && rest[|toks| - 1..] == Uncut(line, last, el)
  {
    WordsCount(line, lo, el);
    FirstSpan(line, lo, el);
    SliceTail(Spans(line, lo, el), |toks|);
    SecondBehind(line, lo, el);
  }

  /** Where there is a second word, the first does not end the line. */
  lemma SecondBehind(line: string, lo: nat, el: nat)
    requires lo <= el <= |line| && |Spans(line, lo, el)| >= 2
    ensures var t := Spans(line, lo, el)[0]; 0 <= t.value && t.value + t.length < el
  {
    FirstSpan(line, lo, el);
  }

  lemma WordSame(line: string, now: string, t: Token, lo: nat, hi: nat, el: nat)
    requires Line(line, lo, el) && CommandAt(line, now, t, lo, hi, el)
    ensures Within(line, t, 0, el) && |now| == |line| && Text(now, t) == Text(line, t)
  {
    CommandEnds(line, now, t, lo, hi, el);
  }

  /** strlen of a cut up line is that of its command word, with the spaces before it. */
  lemma CommandEnds(line: string, now: string, t: Token, lo: nat, hi: nat, el: nat)
    requires Line(line, lo, el) && CommandAt(line, now, t, lo, hi, el)
    ensures |now| == |line| && now[t.value + t.length] == NUL
    ensures forall p :: lo <= p < t.value + t.length ==> now[p] != NUL && now[p] == line[p]
  {
    var p0 := t.value + t.length;
    assert EndsWord(line, lo, p0);
    forall p | lo <= p < p0 ensures now[p] != NUL && now[p] == line[p] {
      assert !EndsWord(line, lo, p);
    }
  }

  /** The rewritten line: command word, a space, and the line from left on as it was. */
  ghost predicate Rewritten(line: string, after: string, t: Token, lo: nat, cont: nat, left: nat, el: nat) {
    && |after| == |line| && lo <= cont < left < el < |line| && cont + t.value + t.length - lo == left - 1
    && (forall p {:trigger after[p]} :: cont <= p < left - 1 ==> after[p] == line[p - (cont - lo)])
    && after[left - 1] == ' '
    && forall p {:trigger after[p]} :: left <= p < |line| ==> after[p] == line[p]
  }

  lemma RewrittenBy(line: string, now: string, moved: string, after: string, t: Token, lo: nat, hi: nat,
                    cont: nat, left: nat, z: nat, el: nat)
    requires Line(line, lo, z) && CommandAt(line, now, t, lo, hi, z) && t.value + t.length < left < z <= el < |line|
    requires line[left - 1] == ' ' && |now| == |moved| == |after| == |line|
    requires cont == left - (t.value + t.length - lo + 1)
    requires forall p {:trigger moved[p]} :: cont <= p < left - 1 ==> moved[p] == line[p - (cont - lo)]
    requires forall p {:trigger moved[p]} :: left - 1 <= p < |line| ==> moved[p] == now[p]
    requires forall p {:trigger after[p]} :: cont <= p < el ==> after[p] == if moved[p] == NUL then ' ' else moved[p]
    requires forall p {:trigger after[p]} :: el <= p < |line| ==> after[p] == moved[p]
    ensures Rewritten(Unnulled(line, z, el), after, t, lo, cont, left, el)
  {
    var u := Unnulled(line, z, el);
    forall p | left - 1 <= p < |line| ensures after[p] == u[p] {
      assert moved[p] == now[p];
      if p < hi { assert now[p] == if EndsWord(line, lo, p) then NUL else line[p]; }
    }
    forall p | cont <= p < left - 1 ensures after[p] == u[p - (cont - lo)] {
      assert line[p - (cont - lo)] != NUL;
    }
  }

  /** The command word, moved. */
  lemma MovedWord(line: string, after: string, t: Token, lo: nat, cont: nat, left: nat, el: nat)
    requires FirstWordAt(line, t, lo, el)
    requires Rewritten(line, after, t, lo, cont, left, el)
    ensures var u := Token(t.value + (cont - lo), t.length);
            && Within(after, u, cont, el) && Within(line, t, lo, el) && Text(after, u) == Text(line, t)
            && u.value + u.length == left - 1
            && (forall p :: cont <= p < u.value ==> after[p] == ' ') && NoSpace(after, u.value, left - 1)
  {
    var d := cont - lo;
    forall p | cont <= p < t.value + d ensures after[p] == ' ' { assert after[p] == line[p - d]; }
    forall p | t.value + d <= p < left - 1 ensures after[p] != ' ' { assert after[p] == line[p - d]; }
    var u := Token(t.value + d, t.length);
    forall k | 0 <= k < t.length ensures Text(after, u)[k] == Text(line, t)[k] {
      assert after[u.value + k] == line[u.value + k - d];
    }
  }

  lemma FirstIs(b: string, i: nat, t: Token, el: nat)
    requires Within(b, t, i, el) && t.value + t.length < el && b[t.value + t.length] == ' '
    requires (forall p :: i <= p < t.value ==> b[p] == ' ') && NoSpace(b, t.value, t.value + t.length)
    ensures Words(b, i, el) == [Text(b, t)] + Words(b, t.value + t.length, el)
  {
    SkipAt(b, i, t.value, el);
    StopAt(b, t.value, t.value + t.length, el);
    assert First(b, i, el) == t;
  }

  /** The rewritten line has the same command word and exactly the words from left on. */
  lemma ResumedWords(line: string, now: string, after: string, t: Token, lo: nat, hi: nat, cont: nat, left: nat, el: nat)
    requires Line(line, lo, el) && CommandAt(line, now, t, lo, hi, el)
    requires Rewritten(line, after, t, lo, cont, left, el) && line[left] != ' '
    ensures Within(line, t, lo, el) && GetWords(Words(after, cont, el), Text(line, t), Words(line, left, el))
  {
    AfterWords(line, after, t, lo, cont, left, el);
    SomeWords(line, left, el);
    ConsSplit(Text(line, t), Words(line, left, el));
  }

  /** From the space before left on, the rewritten line has the words the line has from left on. */
  lemma RestIs(line: string, after: string, left: nat, el: nat)
    requires 0 < left < el < |line| == |after| && after[left - 1] == ' '
    requires forall p {:trigger after[p]} :: left <= p < |line| ==> after[p] == line[p]
    ensures Words(after, left - 1, el) == Words(line, left, el)
  {
    WordsSpace(after, left - 1, el);
    WordsSame(after, line, left, el);
  }

  lemma ConsSplit(first: string, rest: seq<string>)
    ensures ([first] + rest)[0] == first && ([first] + rest)[1..] == rest
  {
  }

  /**
    A line whose text ends at its first NUL for the tokenizer, though the line itself ends at
    el: rewritten, it has the command word and exactly the keys still to be looked up if and
    only if nothing but spaces and NULs follows that NUL.
    */
  lemma NulResumes(line: string, now: string, after: string, t: Token, lo: nat, hi: nat, cont: nat, left: nat, z: nat, el: nat)
    requires Line(line, lo, z) && z < el < |line| && CommandAt(line, now, t, lo, hi, z)
    requires Rewritten(Unnulled(line, z, el), after, t, lo, cont, left, el) && left < z && line[left] != ' '
    ensures Within(line, t, lo, el) && Words(after, cont, el) != [] && Words(after, cont, el)[0] == Text(line, t)
    ensures Words(after, cont, el)[1..] == Words(line, left, z) <==> forall p :: z <= p < el ==> line[p] == ' ' || line[p] == NUL
  {
    var u := Unnulled(line, z, el);
    assert FirstWordAt(u, t, lo, el);
    AfterWords(u, after, t, lo, cont, left, el);
    assert Text(u, t) == Text(line, t);
    ConsSplit(Text(line, t), Words(u, left, el));
    NulInLine(line, left, z, el);
  }

  lemma AfterWords(line: string, after: string, t: Token, lo: nat, cont: nat, left: nat, el: nat)
    requires FirstWordAt(line, t, lo, el) && Rewritten(line, after, t, lo, cont, left, el)
    ensures Within(line, t, lo, el) && Words(after, cont, el) == [Text(line, t)] + Words(line, left, el)
  {
    MovedWord(line, after, t, lo, cont, left, el);
    FirstIs(after, cont, Token(t.value + (cont - lo), t.length), el);
    RestIs(line, after, left, el);
  }

  /** And it still is a get line, ending where it did. */
  lemma ResumedLine(b: string, now: string, after: string, t: Token, lo: nat, hi: nat, cont: nat, left: nat, el: nat,
                    nl: nat, cmd: string, keys: seq<string>)
    requires AtGet(b, lo, el, nl, cmd, keys) && Line(b[el := NUL], lo, el)
    requires CommandAt(b[el := NUL], now, t, lo, hi, el) && Text(b[el := NUL], t) == cmd
    requires Rewritten(b[el := NUL], after, t, lo, cont, left, el) && b[left] != ' '
    ensures AtGet(after[el := b[el]], cont, el, nl, cmd, Words(b[el := NUL], left, el))
  {
    var line, c := b[el := NUL], after[el := b[el]];
    ResumedKeys(line, now, after, c, t, lo, hi, cont, left, el);
    ResumedChars(b, line, after, c, t, lo, cont, left, el, nl);
  }

  lemma ResumedKeys(line: string, now: string, after: string, c: string, t: Token, lo: nat, hi: nat, cont: nat, left: nat, el: nat)
    requires Line(line, lo, el) && CommandAt(line, now, t, lo, hi, el)
    requires Rewritten(line, after, t, lo, cont, left, el) && line[left] != ' '
    requires |c| == |after| && forall p :: 0 <= p < el ==> c[p] == after[p]
    ensures cont <= el <= |c| && Within(line, t, lo, el) && GetWords(Words(c, cont, el), Text(line, t), Words(line, left, el))
  {
    ResumedWords(line, now, after, t, lo, hi, cont, left, el);
    WordsSame(after, c, cont, el);
  }

  lemma ResumedChars(b: string, line: string, after: string, c: string, t: Token, lo: nat, cont: nat, left: nat, el: nat,
                     nl: nat)
    requires AtLine(b, lo, el, nl) && line == b[el := NUL] && Rewritten(line, after, t, lo, cont, left, el)
    requires c == after[el := b[el]] && t.value + t.length < el
    ensures AtLine(c, cont, el, nl)
  {
    forall p | left <= p < |b| ensures c[p] == b[p] { assert after[p] == line[p]; }
    forall p | cont <= p < left - 1 ensures c[p] != '\n' && c[p] != NUL {
      assert after[p] == line[p - (cont - lo)];
    }
  }

  class GetCommand {
    const buf: array<char>
    var rcurr: nat
    var rbytes: nat
    var ewouldblock: bool
    var aiostat: Status
    // ilist and ileft: the items found so far, with their keys
    var hits: seq<(string, string)>
    // what the engine will say, key by key
    var scripts: seq<seq<Answer>>

    /** engine->get for the first key not yet finished. */
    method EngineGet() returns (a: Answer)
      requires scripts != []
      modifies this`scripts
      ensures |scripts| == |old(scripts)| && scripts[1..] == old(scripts)[1..]
      ensures if old(scripts)[0] == [] then a == Miss && scripts == old(scripts)
              else a == old(scripts)[0][0] && scripts[0] == old(scripts)[0][1..]
    {
      a := Miss;
      if scripts[0] != [] {
        a := scripts[0][0];
        scripts := scripts[0 := scripts[0][1..]];
      }
    }

    /** One key of the loop of process_get_command; blocked, with the status still to come, or done with. */
    method OneKey(key: string) returns (blocked: bool, status: Status)
      requires scripts != []
      modifies this`aiostat, this`scripts, this`hits, this`ewouldblock
      ensures aiostat == Success
      ensures !blocked ==> scripts == old(scripts)[1..] && hits == WithItem(old(hits), key, ItemOf(old(aiostat), old(scripts)[0]))
                           && ewouldblock == old(ewouldblock)
      ensures blocked ==> hits == old(hits) && ewouldblock && |scripts| == |old(scripts)|
                          && scripts[1..] == old(scripts)[1..]
                          && ItemOf(status, scripts[0]) == ItemOf(old(aiostat), old(scripts)[0])
                          && |scripts[0]| < |old(scripts)[0]|
    {
      var ret := aiostat;
      aiostat := Success;
      blocked, status := false, Success;
      var item: seq<string> := [];
      if ret == Success {
        var answer := EngineGet();
        match answer
        case WouldBlock(st) =>
          ewouldblock := true;
          return true, st;
        case Hit(it) => item := [it];
        case Miss =>
      }
      if item != [] {
        hits := hits + [(key, item[0])];
      }
      scripts := scripts[1..];
    }

    ghost predicate Going(words: seq<string>, end: Outcome, bound: nat)
      reads this
    {
      !ewouldblock && Progress(words, end, scripts, aiostat, hits, bound)
    }

    /** The reply is made; or a key blocks, and the words from it on still come down to the reply. */
    ghost predicate Told(r: Result, line: string, from: nat, el: nat, end: Outcome, bound: nat)
      reads this
    {
      match r
      case Finished(outcome) => !ewouldblock && outcome == end
      case Blocked(left, status) =>
        && from < left < el <= |line| && line[left - 1] == ' ' && line[left] != ' '
        && ewouldblock && bound > 0
        && Progress(Words(line, left, el), end, scripts, status, hits, bound - 1)
    }

    /** One key is looked up: done with, or it blocks, or the line is bad. */
    method Lookup(key: string, ghost words: seq<string>, ghost end: Outcome, ghost bound: nat)
      returns (stop: bool, bad: bool, status: Status)
      requires words != [] && words[0] == key && Going(words, end, bound)
      modifies this`aiostat, this`scripts, this`hits, this`ewouldblock
      ensures !stop ==> Going(words[1..], end, bound)
      ensures stop && bad ==> !ewouldblock && end == BadLine
      ensures stop && !bad ==> ewouldblock && bound > 0 && Progress(words, end, scripts, status, hits, bound - 1)
    {
      if |key| > KEY_MAX_LENGTH {
        return true, true, Success;
      }
      ghost var before, told, had := scripts, aiostat, hits;
      stop, status := OneKey(key);
      bad := false;
      if stop {
        ProgressBlocked(words, end, before, told, had, bound, scripts, status);
      }
    }

    /** The key at a token. */
    method KeyOf(toks: seq<Token>, ghost last: Token, ghost line: string, ghost pos: nat, ghost lo: nat, ghost el: nat,
                 ghost words: seq<string>)
      returns (key: string)
      requires toks != [] && Board(line, buf[..], last, lo, el)
      requires lo <= pos && Ahead(line, toks, last, pos, el, words)
      ensures words != [] && key == words[0] && toks[0].length != 0
    {
      WordKept(line, buf[..], toks[0], pos, lo, CutEnd(last, el), el);
      key := buf[toks[0].value..toks[0].value + toks[0].length];
      assert key == Text(buf[..], toks[0]);
    }

    /** One pass of the loop below. */
    method OneToken(toks: seq<Token>, ghost last: Token, ghost line: string, ghost pos: nat, ghost lo: nat, ghost el: nat,
                    ghost words: seq<string>, ghost end: Outcome, ghost bound: nat)
      returns (stop: bool, r: Result)
      requires toks != [] && Board(line, buf[..], last, lo, el)
      requires lo <= pos && Ahead(line, toks, last, pos, el, words) && Going(words, end, bound)
      modifies this`aiostat, this`scripts, this`hits, this`ewouldblock
      ensures !stop ==> words != [] && Going(words[1..], end, bound)
      ensures stop ==> Told(r, line, pos, el, end, bound)
    {
      var key := KeyOf(toks, last, line, pos, lo, el, words);
      FromFirst(line, toks, last, pos, el, words);
      var bad, status;
      stop, bad, status := Lookup(key, words, end, bound);
      r := if bad then Finished(BadLine) else Blocked(toks[0].value, status);
    }

    /** The while loop over the keys of one batch, up to the token without a length; going on means it is used up. */
    method OneBatch(batch: seq<Token>, ghost last: Token, ghost line: string, ghost pos0: nat, ghost lo: nat,
                    ghost el: nat, ghost words0: seq<string>, ghost end: Outcome, ghost bound: nat)
      returns (stop: bool, r: Result, ghost pos: nat, ghost words: seq<string>)
      requires Board(line, buf[..], last, lo, el)
      requires lo <= pos0 && Ahead(line, batch, last, pos0, el, words0) && Going(words0, end, bound)
      modifies this`aiostat, this`scripts, this`hits, this`ewouldblock
      ensures !stop ==> pos0 <= pos && Ahead(line, [], last, pos, el, words) && Going(words, end, bound)
      ensures stop ==> Told(r, line, pos0, el, end, bound)
    {
      var toks := batch;
      pos, words := pos0, words0;
      while toks != []
        invariant pos0 <= pos && Ahead(line, toks, last, pos, el, words)
        invariant Going(words, end, bound)
        decreases |toks|
      {
        stop, r := OneToken(toks, last, line, pos, lo, el, words, end, bound);
        if stop { return; }
        words := words[1..];
        pos := toks[0].value + toks[0].length;
        toks := toks[1..];
      }
      stop, r := false, Finished(BadLine);
    }

    /** The command string hasn't been fully processed: get the next set of tokens. */
    method NextTokens(tokens: array<Token>, last: Token, ghost line: string, ghost pos: nat, ghost lo: nat, ghost el: nat,
                      ghost words: seq<string>)
      returns (toks: seq<Token>, final: Token)
      requires tokens.Length == MAX_TOKENS && last.value != NULL
      requires Board(line, buf[..], last, lo, el) && Ahead(line, [], last, pos, el, words)
      modifies buf, tokens
      ensures Board(line, buf[..], final, lo, el) && CutEnd(final, el) > last.value
      ensures Ahead(line, toks, final, pos, el, words)
      ensures toks == [] && final.value == NULL ==> words == []
    {
      ghost var was := buf[..];
      BoardRest(line, was, last, lo, el);
      var n := TokenizeCommand(buf, last.value, tokens, el);
      toks, final := tokens[..n - 1], tokens[n - 1];
      CutNext(line, was, buf[..], last, pos, words, toks, final, lo, el);
    }

    /**
      process_get_command from a first batch of tokens on: the reply is what the words from
      pos0 on come down to, or a key blocks and what is left to do still comes down to that.
      */
    method ProcessGet(tokens: array<Token>, first: seq<Token>, last0: Token, ghost line: string, ghost pos0: nat,
                      ghost lo: nat, ghost el: nat, ghost words0: seq<string>, ghost end: Outcome, ghost bound: nat)
      returns (r: Result, ghost hi: nat)
      requires tokens.Length == MAX_TOKENS && Board(line, buf[..], last0, lo, el)
      requires lo <= pos0 && Ahead(line, first, last0, pos0, el, words0) && Going(words0, end, bound)
      modifies this`aiostat, this`scripts, this`hits, this`ewouldblock, buf, tokens
      ensures CutEnd(last0, el) <= hi <= el && Blanked(line, buf[..], lo, hi)
      ensures Told(r, line, pos0, el, end, bound)
    {
      var batch, last := first, last0;
      ghost var pos, words := pos0, words0;
      hi := CutEnd(last, el);
      while true
        invariant Board(line, buf[..], last, lo, el) && CutEnd(last0, el) <= hi == CutEnd(last, el)
        invariant pos0 <= pos && Ahead(line, batch, last, pos, el, words) && Going(words, end, bound)
        decreases el - CutEnd(last, el)
      {
        var stop;
        stop, r, pos, words := OneBatch(batch, last, line, pos, lo, el, words, end, bound);
        if stop { return; }
        if last.value == NULL {
          NoWords(line, pos, el);
          break;
        }
        batch, last := NextTokens(tokens, last, line, pos, lo, el, words);
        hi := CutEnd(last, el);
        if batch == [] && last.value == NULL { break; }
      }
      assert words == [];
      r := Finished(Hits(hits));
    }

    /** The tokens of a get line, from which process_command tells the command. */
    method FirstCut(tokens: array<Token>, ghost line: string, ghost el: nat, ghost cmd: string, ghost keys: seq<string>)
      returns (toks: seq<Token>, last: Token, word: string)
      requires buf[..] == line && Line(line, rcurr, el) && GetWords(Words(line, rcurr, el), cmd, keys)
      requires tokens.Length == MAX_TOKENS
      modifies buf, tokens
      ensures Opened(line, buf[..], toks, last, rcurr, el, cmd, keys) && word == cmd
    {
      var n := TokenizeCommand(buf, rcurr, tokens, el);
      toks, last := tokens[..n - 1], tokens[n - 1];
      Opens(line, buf[..], rcurr, el, toks, last, cmd, keys);
      word := buf[toks[0].value..toks[0].value + toks[0].length];
      assert word == Text(buf[..], toks[0]);
    }

    /** process_command on a get line; a retry goes on with the reply begun, any other call begins one. */
    method ProcessCommand(ghost line: string, ghost el: nat, ghost cmd: string, ghost keys: seq<string>,
                          ghost end: Outcome, ghost bound: nat)
      returns (r: Result, ghost t: Token, ghost hi: nat)
      requires buf[..] == line && Line(line, rcurr, el)
      requires GetWords(Words(line, rcurr, el), cmd, keys) && IsGet(cmd)
      requires Progress(keys, end, scripts, aiostat, if ewouldblock then hits else [], bound)
      modifies this`aiostat, this`scripts, this`hits, this`ewouldblock, buf
      ensures CommandAt(line, buf[..], t, rcurr, hi, el) && Text(line, t) == cmd
      ensures Told(r, line, t.value + t.length, el, end, bound)
    {
      if ewouldblock {
        ewouldblock := false;
      } else {
        hits := [];
      }
      var tokens := new Token[MAX_TOKENS](i => Token(NULL, 0));
      var toks, last, word := FirstCut(tokens, line, el, cmd, keys);
      t := toks[0];
      // three tokens, counting the one without a length
      if |toks| + 1 >= 3 && IsGet(word) {
        r, hi := ProcessGet(tokens, toks[1..], last, line, toks[0].value + toks[0].length, rcurr, el, keys, end, bound);
      } else {
        assert false;
      }
    }

    // ---------- the text branch of try_read_command ----------

    /** strlen. */
    method StrLen(from: nat, ghost nul: nat) returns (count: nat)
      requires from <= nul < buf.Length && buf[nul] == NUL && forall p :: from <= p < nul ==> buf[p] != NUL
      ensures from + count == nul
    {
      count := 0;
      while buf[from + count] != NUL
        invariant from + count <= nul
        decreases nul - count
      {
        count := count + 1;
      }
    }

    /** memmove to the right, last character first. */
    method MoveRight(to: nat, from: nat, count: nat)
      requires from < to && to + count <= buf.Length
      modifies buf
      ensures forall p :: to <= p < to + count ==> buf[p] == old(buf[p - (to - from)])
      ensures forall p :: 0 <= p < buf.Length && !(to <= p < to + count) ==> buf[p] == old(buf[p])
    {
      var k := count;
      while k > 0
        invariant 0 <= k <= count
        invariant forall p :: to + k <= p < to + count ==> buf[p] == old(buf[p - (to - from)])
        invariant forall p :: 0 <= p < buf.Length && !(to + k <= p < to + count) ==> buf[p] == old(buf[p])
      {
        k := k - 1;
        buf[to + k] := buf[from + k];
      }
    }

    /** The loop that turns every NUL back into a space. */
    method Detokenize(from: nat, el: nat)
      requires from <= el <= buf.Length
      modifies buf
      ensures forall p :: from <= p < el ==> buf[p] == if old(buf[p]) == NUL then ' ' else old(buf[p])
      ensures forall p :: 0 <= p < buf.Length && !(from <= p < el) ==> buf[p] == old(buf[p])
    {
      var at := from;
      while at < el
        invariant from <= at <= el
        invariant forall p :: from <= p < at ==> buf[p] == if old(buf[p]) == NUL then ' ' else old(buf[p])
        invariant forall p :: 0 <= p < buf.Length && !(from <= p < at) ==> buf[p] == old(buf[p])
      {
        if buf[at] == NUL { buf[at] := ' '; }
        at := at + 1;
      }
    }

    /** The command word is put right before what is left: one character, a separator, stays in between. */
    method MoveCommand(left: nat, count: nat, ghost line: string)
      returns (cont: nat)
      requires rcurr + count < left <= buf.Length == |line|
      requires forall p :: rcurr <= p < rcurr + count ==> buf[p] == line[p]
      modifies buf
      ensures cont == left - (count + 1) && rcurr <= cont
      ensures forall p :: cont <= p < left - 1 ==> buf[p] == line[p - (cont - rcurr)]
      ensures forall p :: left - 1 <= p < |line| ==> buf[p] == old(buf[p])
    {
      cont := left - (count + 1);
      if cont > rcurr {
        MoveRight(cont, rcurr, count);
      }
    }

    /**
      What the rewriting leaves: the command word right before the keys still to be looked up.
      For the tokenizer the text ended at z; the line ends at el, and NULs in between become spaces.
      */
    method Rewrite(left: nat, el: nat, ghost line: string, ghost t: Token, ghost hi: nat, ghost z: nat) returns (cont: nat)
      requires Line(line, rcurr, z) && CommandAt(line, buf[..], t, rcurr, hi, z)
      requires t.value + t.length < left < z <= el < |line| && line[left - 1] == ' '
      modifies buf
      ensures cont == left - (t.value + t.length - rcurr + 1) && rcurr <= cont
      ensures Rewritten(Unnulled(line, z, el), buf[..], t, rcurr, cont, left, el)
    {
      ghost var now := buf[..];
      CommandEnds(line, now, t, rcurr, hi, z);
      var count := StrLen(rcurr, t.value + t.length);
      if rcurr + count == left {
        assert false;
      } else {
        cont := MoveCommand(left, count, line);
      }
      ghost var moved := buf[..];
      Detokenize(cont, el);
      RewrittenBy(line, now, moved, buf[..], t, rcurr, hi, cont, left, z, el);
    }

    /** memchr for the newline. */
    method FindLine(ghost nl: nat) returns (at: nat)
      requires rcurr <= nl < buf.Length && buf[nl] == '\n' && forall p :: rcurr <= p < nl ==> buf[p] != '\n'
      ensures at == nl
    {
      at := rcurr;
      while buf[at] != '\n'
        invariant rcurr <= at <= nl
        decreases nl - at
      {
        at := at + 1;
      }
    }

    /** The line is made a string: its text ends at el, where lb was; the next line starts at cont. */
    method EndLineAt(ghost el0: nat, ghost nl: nat, ghost cmd: string, ghost keys: seq<string>)
      returns (el: nat, cont: nat, lb: char)
      requires AtGet(buf[..], rcurr, el0, nl, cmd, keys)
      modifies buf
      ensures el == el0 && cont == nl + 1 && el < buf.Length && lb == old(buf[el])
      ensures buf[..] == old(buf[..])[el := NUL] && Line(buf[..], rcurr, el)
      ensures GetWords(Words(buf[..], rcurr, el), cmd, keys)
    {
      ghost var b := buf[..];
      el := FindLine(nl);
      cont := el + 1;
      if el - rcurr > 1 && buf[el - 1] == '\r' {
        el := el - 1;
      }
      lb := buf[el];
      buf[el] := NUL;
      assert buf[..] == b[el := NUL];
      WordsSame(b, buf[..], rcurr, el);
    }

    /**
      The text branch of try_read_command on a get line that has come in whole: the reply is
      made and the line consumed, or a key blocks and the line in the buffer asks for the keys
      still to be looked up.
      */
    method TryRead(ghost el0: nat, ghost nl: nat, ghost cmd: string, ghost keys: seq<string>, ghost end: Outcome,
                   ghost bound: nat)
      returns (r: Result, ghost rest: seq<string>)
      requires AtGet(buf[..], rcurr, el0, nl, cmd, keys) && nl < rcurr + rbytes <= buf.Length
      requires Progress(keys, end, scripts, aiostat, if ewouldblock then hits else [], bound)
      modifies this, buf
      ensures rcurr + rbytes == old(rcurr + rbytes)
      ensures r.Finished? ==> !ewouldblock && r.outcome == end && rcurr == nl + 1
      ensures r.Blocked? ==> ewouldblock && bound > 0 && AtGet(buf[..], rcurr, el0, nl, cmd, rest)
                             && Progress(rest, end, scripts, r.status, hits, bound - 1)
    {
      ghost var b := buf[..];
      var el, cont, lb := EndLineAt(el0, nl, cmd, keys);
      ghost var t: Token, hi: nat;
      r, t, hi := ProcessCommand(b[el := NUL], el, cmd, keys, end, bound);
      rest := [];
      if r.Blocked? {
        rest := Words(b[el := NUL], r.left, el);
        cont := Resume(r.left, el, lb, b, t, hi, nl, cmd, keys);
      }
      ghost var after := buf[..];
      rbytes := rbytes - (cont - rcurr);
      rcurr := cont;
      assert buf[..] == after;
    }

    /** The line is rewritten and the end of its text put back. */
    method Resume(left: nat, el: nat, lb: char, ghost b: string, ghost t: Token, ghost hi: nat, ghost nl: nat,
                  ghost cmd: string, ghost keys: seq<string>)
      returns (cont: nat)
      requires AtGet(b, rcurr, el, nl, cmd, keys) && lb == b[el] && Line(b[el := NUL], rcurr, el)
      requires CommandAt(b[el := NUL], buf[..], t, rcurr, hi, el) && Text(b[el := NUL], t) == cmd
      requires t.value + t.length < left < el && b[left - 1] == ' ' && b[left] != ' '
      modifies buf
      ensures rcurr <= cont <= nl && AtGet(buf[..], cont, el, nl, cmd, Words(b[el := NUL], left, el))
    {
      ghost var line, now := b[el := NUL], buf[..];
      cont := Rewrite(left, el, line, t, hi, el);
      ghost var after := buf[..];
      buf[el] := lb;
      ResumedLine(b, now, after, t, rcurr, hi, cont, left, el, nl, cmd, keys);
      assert buf[..] == after[el := b[el]];
    }

    /**
      Main result: a get line is served, however often and at whichever keys it blocks, with
      the reply its keys come down to.
      */
    method ServeGet(ghost el: nat, ghost nl: nat, ghost cmd: string, ghost keys: seq<string>) returns (outcome: Outcome)
      requires AtGet(buf[..], rcurr, el, nl, cmd, keys) && nl < rcurr + rbytes <= buf.Length
      requires |scripts| == |keys| && !ewouldblock && aiostat == Success
      modifies this, buf
      ensures outcome == Serve(keys, old(scripts), Success, [])
      ensures outcome == Serve(keys, AllAtOnce(old(scripts)), Success, [])
      ensures rcurr == nl + 1 && rcurr + rbytes == old(rcurr + rbytes)
    {
      ghost var end := Serve(keys, scripts, Success, []);
      ServeAtOnce(keys, scripts, []);
      ghost var rest, bound := keys, Answers(scripts);
      var r;
      r, rest := TryRead(el, nl, cmd, rest, end, bound);
      while r.Blocked?
        invariant rcurr + rbytes == old(rcurr + rbytes)
        invariant r.Finished? ==> r.outcome == end && rcurr == nl + 1
        invariant r.Blocked? ==> ewouldblock && bound > 0 && AtGet(buf[..], rcurr, el, nl, cmd, rest)
                                 && Progress(rest, end, scripts, r.status, hits, bound - 1)
        decreases if r.Blocked? then bound else 0
      {
        // notify_io_complete, and the connection is read again
        aiostat := r.status;
        bound := bound - 1;
        r, rest := TryRead(el, nl, cmd, rest, end, bound);
      }
      outcome := r.outcome;
    }
  }
}
