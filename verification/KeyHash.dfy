/**
  hash: the little-endian key hash, its three ways of reading the key, and what mixing keeps.
  uint32_t is an integer below 2^32 with wrap-around written out; memory is an array of
  bytes whose index is the address.
  */
module KeyHash {
  import opened Division

  const WRAP: int := 0x1_0000_0000

  type Word = x: int | 0 <= x < WRAP witness 0
  type Byte = x: int | 0 <= x < 256 witness 0

  datatype Words = Words(a: Word, b: Word, c: Word)

  // ---------- uint32_t ----------

  function Add(x: Word, y: Word): Word { if x + y < WRAP then x + y else x + y - WRAP }

  function Sub(x: Word, y: Word): Word { if x >= y then x - y else x - y + WRAP }

  function Pow2(n: nat): (p: int)
    ensures p >= 1
  {
    if n == 0 then 1 else 2 * Pow2(n - 1)
  }

  /** Bitwise exclusive or. */
  function XorBits(x: nat, y: nat): nat
    decreases x + y
  {
    if x == 0 && y == 0 then 0 else (x + y) % 2 + 2 * XorBits(x / 2, y / 2)
  }

  /** Bitwise and. */
  function AndBits(x: nat, y: nat): nat
    decreases x + y
  {
    if x == 0 || y == 0 then 0 else (if x % 2 == 1 && y % 2 == 1 then 1 else 0) + 2 * AndBits(x / 2, y / 2)
  }

  lemma {:induction false} XorFits(x: nat, y: nat, n: nat)
    requires x < Pow2(n) && y < Pow2(n)
    ensures XorBits(x, y) < Pow2(n)
  {
    if n > 0 && (x > 0 || y > 0) { XorFits(x / 2, y / 2, n - 1); }
  }

  lemma Wrap() ensures Pow2(32) == WRAP
  {
    assert Pow2(8) == 256;
    Pow2Sum(8, 8);
    Pow2Sum(16, 16);
  }

  lemma {:induction false} Pow2Sum(m: nat, n: nat)
    ensures Pow2(m + n) == Pow2(m) * Pow2(n)
  {
    if m > 0 { Pow2Sum(m - 1, n); }
  }

  function Xor(x: Word, y: Word): Word {
    Wrap();
    XorFits(x, y, 32);
    XorBits(x, y)
  }

  lemma Halves(b: nat, h: nat)
    requires b < 2
    ensures (b + 2 * h) % 2 == b && (b + 2 * h) / 2 == h
  {
  }

  lemma ParityTwice(x: nat, y: nat, r: nat)
    requires r % 2 == (x + y) % 2
    ensures (r + y) % 2 == x % 2
  {
  }

  lemma XorStep(x: nat, y: nat)
    ensures XorBits(x, y) == (x + y) % 2 + 2 * XorBits(x / 2, y / 2)
  {
  }

  lemma {:induction false} XorTwice(x: nat, y: nat)
    ensures XorBits(XorBits(x, y), y) == x
    decreases x + y
  {
    if x > 0 || y > 0 {
      XorTwice(x / 2, y / 2);
      XorStep(x, y);
      var r := XorBits(x, y);
      Halves((x + y) % 2, XorBits(x / 2, y / 2));
      ParityTwice(x, y, r);
      XorStep(r, y);
    }
  }

  lemma HalfRemainder(x: nat, p: nat)
    requires p > 0
    ensures x % (2 * p) == 2 * (x / 2 % p) + x % 2
  {
    var q, r := x / 2 / p, x / 2 % p;
    assert x / 2 == q * p + r;
    assert x == q * (2 * p) + (2 * r + x % 2) by { assert 2 * (q * p) == q * (2 * p); }
    DivModUnique(x, 2 * p, q, 2 * r + x % 2);
  }

  lemma AndStep(x: nat, y: nat)
    ensures AndBits(x, y) == (if x % 2 == 1 && y % 2 == 1 then 1 else 0) + 2 * AndBits(x / 2, y / 2)
  {
  }

  /** Masking with m ones keeps the remainder by 2^m. */
  lemma {:induction false} MaskBits(x: nat, m: nat)
    ensures AndBits(x, Pow2(m) - 1) == x % Pow2(m)
    decreases m
  {
    if m > 0 {
      var p := Pow2(m - 1);
      MaskBits(x / 2, m - 1);
      Halves(1, p - 1);
      HalfRemainder(x, p);
      AndStep(x, 2 * p - 1);
    }
  }

  // ---------- mix and final ----------

  /** x << k, the high bits lost. */
  function Shl(x: Word, k: nat): Word
    decreases k, x
  {
    if k == 0 then x else Shl(Add(x, x), k - 1)
  }

  /** x >> k. */
  function Shr(x: Word, k: nat): Word
    decreases k, x
  {
    if k == 0 then x else Shr(x / 2, k - 1)
  }

  function Rot(x: Word, k: nat): Word
    requires k <= 32
  {
    Xor(Shl(x, k), Shr(x, 32 - k))
  }

  /** One line of mix; the result names the words as the next line does. */
  function Turn(s: Words, k: nat): Words
    requires k <= 32
  {
    Words(s.b, Add(s.c, s.b), Xor(Sub(s.a, s.c), Rot(s.c, k)))
  }

  function TurnBack(s: Words, k: nat): Words
    requires k <= 32
  {
    var c := Sub(s.b, s.a);
    Words(Add(Xor(s.c, Rot(c, k)), c), s.a, c)
  }

  type Shift = k: nat | k <= 32

  function Mix(s: Words): Words {
    Turn(Turn(Turn(Turn(Turn(Turn(s, 4), 6), 8), 16), 19), 4)
  }

  function Unmix(s: Words): Words {
    TurnBack(TurnBack(TurnBack(TurnBack(TurnBack(TurnBack(s, 4), 19), 16), 8), 6), 4)
  }

  lemma AddSub(x: Word, y: Word)
    ensures Sub(Add(x, y), y) == x && Add(Sub(x, y), y) == x
  {
  }

  lemma TurnInverse(s: Words, k: nat)
    requires k <= 32
    ensures TurnBack(Turn(s, k), k) == s && Turn(TurnBack(s, k), k) == s
  {
    AddSub(s.c, s.b);
    AddSub(s.a, s.c);
    XorTwice(Sub(s.a, s.c), Rot(s.c, k));
    var c := Sub(s.b, s.a);
    AddSub(s.b, s.a);
    AddSub(Xor(s.c, Rot(c, k)), c);
    XorTwice(s.c, Rot(c, k));
  }

  /** mix can be undone, and reaches every triple. */
  lemma MixBijective(s: Words)
    ensures Unmix(Mix(s)) == s && Mix(Unmix(s)) == s
  {
    var m1 := Turn(s, 4);
    var m2 := Turn(m1, 6);
    var m3 := Turn(m2, 8);
    var m4 := Turn(m3, 16);
    var m5 := Turn(m4, 19);
    TurnInverse(s, 4); TurnInverse(m1, 6); TurnInverse(m2, 8);
    TurnInverse(m3, 16); TurnInverse(m4, 19); TurnInverse(m5, 4);
    var u1 := TurnBack(s, 4);
    var u2 := TurnBack(u1, 19);
    var u3 := TurnBack(u2, 16);
    var u4 := TurnBack(u3, 8);
    var u5 := TurnBack(u4, 6);
    TurnInverse(u1, 19); TurnInverse(u2, 16); TurnInverse(u3, 8); TurnInverse(u4, 6); TurnInverse(u5, 4);
  }

  /** The mix macro, assignment by assignment. */
  method MixWords(a0: Word, b0: Word, c0: Word) returns (a: Word, b: Word, c: Word)
    ensures Words(a, b, c) == Mix(Words(a0, b0, c0))
  {
    a, b, c := a0, b0, c0;
    a := Sub(a, c); a := Xor(a, Rot(c, 4)); c := Add(c, b);
    b := Sub(b, a); b := Xor(b, Rot(a, 6)); a := Add(a, c);
    c := Sub(c, b); c := Xor(c, Rot(b, 8)); b := Add(b, a);
    a := Sub(a, c); a := Xor(a, Rot(c, 16)); c := Add(c, b);
    b := Sub(b, a); b := Xor(b, Rot(a, 19)); a := Add(a, c);
    c := Sub(c, b); c := Xor(c, Rot(b, 4)); b := Add(b, a);
  }

  /** One line of final: c ^= b; c -= rot(b, k); the result names the words as the next line does. */
  function Fold(s: Words, k: Shift): Words {
    Words(s.b, Sub(Xor(s.c, s.b), Rot(s.b, k)), s.a)
  }

  function FoldBack(s: Words, k: Shift): Words {
    Words(s.c, s.a, Xor(Add(s.b, Rot(s.a, k)), s.a))
  }

  lemma FoldInverse(s: Words, k: Shift)
    ensures FoldBack(Fold(s, k), k) == s && Fold(FoldBack(s, k), k) == s
  {
    AddSub(Xor(s.c, s.b), Rot(s.b, k));
    XorTwice(s.c, s.b);
    AddSub(s.b, Rot(s.a, k));
    XorTwice(Add(s.b, Rot(s.a, k)), s.a);
  }

  /** The seven lines of final; the next line would change a and read c. */
  function Finish(s: Words): Words {
    var r := Fold(Fold(Fold(Fold(Fold(Fold(Fold(s, 14), 11), 25), 16), 4), 14), 24);
    Words(r.c, r.a, r.b)
  }

  function Unfinish(s: Words): Words {
    var r := Words(s.b, s.c, s.a);
    FoldBack(FoldBack(FoldBack(FoldBack(FoldBack(FoldBack(FoldBack(r, 24), 14), 4), 16), 25), 11), 14)
  }

  /** final can be undone too, and reaches every triple: the word it leaves in c is no constant. */
  lemma FinishBijective(s: Words)
    ensures Unfinish(Finish(s)) == s && Finish(Unfinish(s)) == s
  {
    var f1 := Fold(s, 14);
    var f2 := Fold(f1, 11);
    var f3 := Fold(f2, 25);
    var f4 := Fold(f3, 16);
    var f5 := Fold(f4, 4);
    var f6 := Fold(f5, 14);
    FoldInverse(s, 14); FoldInverse(f1, 11); FoldInverse(f2, 25); FoldInverse(f3, 16);
    FoldInverse(f4, 4); FoldInverse(f5, 14); FoldInverse(f6, 24);
    var r := Words(s.b, s.c, s.a);
    var b1 := FoldBack(r, 24);
    var b2 := FoldBack(b1, 14);
    var b3 := FoldBack(b2, 4);
    var b4 := FoldBack(b3, 16);
    var b5 := FoldBack(b4, 25);
    var b6 := FoldBack(b5, 11);
    FoldInverse(r, 24); FoldInverse(b1, 14); FoldInverse(b2, 4); FoldInverse(b3, 16);
    FoldInverse(b4, 25); FoldInverse(b5, 11); FoldInverse(b6, 14);
  }

  /** The hash is the word final leaves in c. */
  function Final(s: Words): Word { Finish(s).c }

  // ---------- the value of a key ----------

  function At(k: seq<Byte>, i: nat): Byte { if i < |k| then k[i] else 0 }

  /** Four bytes of the key as a little-endian word, zero past its end. */
  function WordAt(k: seq<Byte>, i: nat): Word {
    At(k, i) + 0x100 * At(k, i + 1) + 0x1_0000 * At(k, i + 2) + 0x100_0000 * At(k, i + 3)
  }

  function Feed(s: Words, k: seq<Byte>, i: nat): Words {
    Words(Add(s.a, WordAt(k, i)), Add(s.b, WordAt(k, i + 4)), Add(s.c, WordAt(k, i + 8)))
  }

  function Start(n: nat, initval: Word): Words {
    var w := Add(Add(0xdeadbeef, n % WRAP), initval);
    Words(w, w, w)
  }

  /** How many blocks the loop takes: all but the last, which may be partial. */
  function Blocks(n: nat): nat { if n == 0 then 0 else (n - 1) / 12 }

  /** The state after j blocks, whatever function mixes the words. */
  function StateAt(mix: Words -> Words, k: seq<Byte>, initval: Word, j: nat): Words {
    if j == 0 then Start(|k|, initval) else mix(Feed(StateAt(mix, k, initval, j - 1), k, 12 * (j - 1)))
  }

  /** The state when final begins. */
  function Filled(mix: Words -> Words, k: seq<Byte>, initval: Word): Words
    requires k != []
  {
    Feed(StateAt(mix, k, initval, Blocks(|k|)), k, 12 * Blocks(|k|))
  }

  function Value(k: seq<Byte>, initval: Word): Word {
    if k == [] then Start(0, initval).c else Final(Filled(Mix, k, initval))
  }

  // ---------- three ways to read it ----------

  function Read8(mem: seq<Byte>, p: nat): Word
    requires p < |mem|
  {
    mem[p]
  }

  /** The h-th half-word of memory. */
  function Read16(mem: seq<Byte>, h: nat): Word
    requires 2 * h + 1 < |mem|
  {
    Read8(mem, 2 * h) + 0x100 * Read8(mem, 2 * h + 1)
  }

  /** The w-th word of memory. */
  function Read32(mem: seq<Byte>, w: nat): Word
    requires 4 * w + 3 < |mem|
  {
    Read8(mem, 4 * w) + 0x100 * Read8(mem, 4 * w + 1)
    + 0x1_0000 * Read8(mem, 4 * w + 2) + 0x100_0000 * Read8(mem, 4 * w + 3)
  }

  function Key(mem: seq<Byte>, key: nat, length: nat): seq<Byte>
    requires key + length <= |mem|
  {
    mem[key..key + length]
  }

  lemma AddAdd(x: Word, y: nat, z: nat)
    requires y + z < WRAP
    ensures Add(Add(x, y), z) == Add(x, y + z)
  {
  }

  lemma AddFour(x: Word, b0: nat, b1: nat, b2: nat, b3: nat)
    requires b0 + b1 + b2 + b3 < WRAP
    ensures Add(Add(Add(Add(x, b0), b1), b2), b3) == Add(x, b0 + b1 + b2 + b3)
  {
    AddAdd(x, b0, b1);
    AddAdd(x, b0 + b1, b2);
    AddAdd(x, b0 + b1 + b2, b3);
  }

  /** A byte shifted to place n of a word. */
  function Place(b: Byte, n: nat): Word {
    if n == 0 then b else if n == 1 then 0x100 * b else if n == 2 then 0x1_0000 * b else 0x100_0000 * b
  }

  /** One case of the switch on bytes: reached by falling through when byte j is there. */
  method CaseByte(mem: seq<Byte>, key: nat, length: nat, j: nat, n: nat, x: Word) returns (y: Word)
    requires key + length <= |mem|
    ensures y == Add(x, Place(At(Key(mem, key, length), j), n))
  {
    y := x;
    if length > j { y := Add(y, Place(mem[key + j], n)); }
  }

  /** The four cases of one word, last byte first. */
  method TailWord(mem: seq<Byte>, key: nat, length: nat, i: nat, x: Word) returns (y: Word)
    requires key + length <= |mem|
    ensures y == Add(x, WordAt(Key(mem, key, length), i))
  {
    ghost var m := Key(mem, key, length);
    var y3 := CaseByte(mem, key, length, i + 3, 3, x);
    var y2 := CaseByte(mem, key, length, i + 2, 2, y3);
    var y1 := CaseByte(mem, key, length, i + 1, 1, y2);
    y := CaseByte(mem, key, length, i, 0, y1);
    AddFour(x, Place(At(m, i + 3), 3), Place(At(m, i + 2), 2), Place(At(m, i + 1), 1), At(m, i));
  }

  /** The final macro, assignment by assignment. */
  method FinalWords(a0: Word, b0: Word, c0: Word) returns (a: Word, b: Word, c: Word)
    ensures Words(a, b, c) == Finish(Words(a0, b0, c0))
  {
    a, b, c := a0, b0, c0;
    c := Xor(c, b); c := Sub(c, Rot(b, 14));
    a := Xor(a, c); a := Sub(a, Rot(c, 11));
    b := Xor(b, a); b := Sub(b, Rot(a, 25));
    c := Xor(c, b); c := Sub(c, Rot(b, 16));
    a := Xor(a, c); a := Sub(a, Rot(c, 4));
    b := Xor(b, a); b := Sub(b, Rot(a, 14));
    c := Xor(c, b); c := Sub(c, Rot(b, 24));
  }

  /** Four bytes of a whole block. */
  method BlockWord(mem: seq<Byte>, key: nat, length: nat, i: nat, x: Word) returns (y: Word)
    requires key + length <= |mem| && i + 3 < length
    ensures y == Add(x, WordAt(Key(mem, key, length), i))
  {
    ghost var m := Key(mem, key, length);
    y := Add(x, Read8(mem, key + i));
    y := Add(y, 0x100 * Read8(mem, key + i + 1));
    y := Add(y, 0x1_0000 * Read8(mem, key + i + 2));
    y := Add(y, 0x100_0000 * Read8(mem, key + i + 3));
    AddFour(x, At(m, i), 0x100 * At(m, i + 1), 0x1_0000 * At(m, i + 2), 0x100_0000 * At(m, i + 3));
  }

  lemma BlocksIs(n: nat, j: nat)
    requires if n == 0 then j == 0 else 12 * j < n <= 12 * j + 12
    ensures Blocks(n) == j
  {
  }


  method FeedBytes(mem: seq<Byte>, key: nat, length: nat, i: nat, s: Words) returns (t: Words)
    requires key + length <= |mem| && i + 12 <= length
    ensures t == Feed(s, Key(mem, key, length), i)
  {
    var a := BlockWord(mem, key, length, i, s.a);
    var b := BlockWord(mem, key, length, i + 4, s.b);
    var c := BlockWord(mem, key, length, i + 8, s.c);
    t := Words(a, b, c);
  }

  method TailBytes(mem: seq<Byte>, key: nat, length: nat, i: nat, s: Words) returns (t: Words)
    requires key + length <= |mem|
    ensures t == Feed(s, Key(mem, key, length), i)
  {
    var c := TailWord(mem, key, length, i + 8, s.c);
    var b := TailWord(mem, key, length, i + 4, s.b);
    var a := TailWord(mem, key, length, i, s.a);
    t := Words(a, b, c);
  }

  method FinalState(s: Words) returns (v: Word)
    ensures v == Final(s)
  {
    var a, b, c := FinalWords(s.a, s.b, s.c);
    v := c;
  }

  /** A pass of the byte loop. */
  method BlockBytes(mix: Words -> Words, mem: seq<Byte>, key: nat, length: nat, j: nat, s: Words, ghost initval: Word) returns (t: Words)
    requires key + length <= |mem| && 12 * j + 12 < length
    requires s == StateAt(mix, Key(mem, key, length), initval, j)
    ensures t == StateAt(mix, Key(mem, key, length), initval, j + 1)
  {
    var f := FeedBytes(mem, key, length, 12 * j, s);
    t := mix(f);
  }

  /** The loop and the switch of the last branch of hash: one byte at a time. */
  method FillBytes(mix: Words -> Words, mem: seq<Byte>, key: nat, length: nat, initval: Word) returns (t: Words)
    requires key + length <= |mem| && length > 0
    ensures t == Filled(mix, Key(mem, key, length), initval)
  {
    ghost var m := Key(mem, key, length);
    assert |m| == length;
    var s := Start(length, initval);
    var j := 0;
    while length - 12 * j > 12
      invariant 12 * j < length
      invariant s == StateAt(mix, Key(mem, key, length), initval, j)
      decreases length - 12 * j
    {
      s := BlockBytes(mix, mem, key, length, j, s, initval);
      j := j + 1;
    }
    BlocksIs(|m|, j);
    t := TailBytes(mem, key, length, 12 * j, s);
  }

  lemma HalvesMake(mem: seq<Byte>, key: nat, length: nat, i: nat, h: nat)
    requires key + length <= |mem| && i < length && key + i == 2 * h
    ensures var m := Key(mem, key, length);
            && (i + 3 < length ==> WordAt(m, i) == Read16(mem, h) + 0x1_0000 * Read16(mem, h + 1))
            && (i + 3 == length ==> WordAt(m, i) == 0x1_0000 * Read8(mem, 2 * h + 2) + Read16(mem, h))
            && (i + 2 == length ==> WordAt(m, i) == Read16(mem, h))
            && (i + 1 == length ==> WordAt(m, i) == Read8(mem, 2 * h))
  {
  }

  /** The cases of one word in the switch on half-words: an odd byte over is read alone. */
  method TailHalfWord(mem: seq<Byte>, key: nat, length: nat, i: nat, h: nat, x: Word) returns (y: Word)
    requires key + length <= |mem| && key + i == 2 * h
    ensures y == Add(x, WordAt(Key(mem, key, length), i))
  {
    y := x;
    if i < length { HalvesMake(mem, key, length, i, h); }
    if i + 3 < length {
      y := Add(y, Read16(mem, h) + 0x1_0000 * Read16(mem, h + 1));
    } else if i + 3 == length {
      y := Add(y, 0x1_0000 * Read8(mem, 2 * h + 2));
      y := Add(y, Read16(mem, h));
      AddAdd(x, 0x1_0000 * Read8(mem, 2 * h + 2), Read16(mem, h));
    } else if i + 2 == length {
      y := Add(y, Read16(mem, h));
    } else if i + 1 == length {
      y := Add(y, Read8(mem, 2 * h));
    }
  }

  /** A block, whole or last, read by half-words. */
  method FeedHalves(mem: seq<Byte>, key: nat, length: nat, i: nat, h: nat, s: Words) returns (t: Words)
    requires key + length <= |mem| && key + i == 2 * h
    ensures t == Feed(s, Key(mem, key, length), i)
  {
    var c := TailHalfWord(mem, key, length, i + 8, h + 4, s.c);
    var b := TailHalfWord(mem, key, length, i + 4, h + 2, s.b);
    var a := TailHalfWord(mem, key, length, i, h, s.a);
    t := Words(a, b, c);
  }

  /** A pass of the half-word loop. */
  method BlockHalves(mix: Words -> Words, mem: seq<Byte>, key: nat, length: nat, j: nat, h: nat, s: Words, ghost initval: Word)
    returns (t: Words)
    requires key + length <= |mem| && key + 12 * j == 2 * h
    requires s == StateAt(mix, Key(mem, key, length), initval, j)
    ensures t == StateAt(mix, Key(mem, key, length), initval, j + 1)
  {
    var f := FeedHalves(mem, key, length, 12 * j, h, s);
    t := mix(f);
  }

  /** The loop and the switch of the middle branch: the key starts at half-word k and is read by half-words. */
  method FillHalves(mix: Words -> Words, mem: seq<Byte>, key: nat, length: nat, initval: Word, k: nat) returns (t: Words)
    requires key + length <= |mem| && key == 2 * k && length > 0
    ensures t == Filled(mix, Key(mem, key, length), initval)
  {
    ghost var m := Key(mem, key, length);
    assert |m| == length;
    var s := Start(length, initval);
    var j, h := 0, k;
    while length - 12 * j > 12
      invariant key + 12 * j == 2 * h && 12 * j < length
      invariant s == StateAt(mix, Key(mem, key, length), initval, j)
      decreases length - 12 * j
    {
      s := BlockHalves(mix, mem, key, length, j, h, s, initval);
      j, h := j + 1, h + 6;
    }
    BlocksIs(|m|, j);
    t := FeedHalves(mem, key, length, 12 * j, h, s);
  }

  lemma Masks(x: Word)
    ensures AndBits(x, 0xff) == x % 0x100
    ensures AndBits(x, 0xffff) == x % 0x1_0000
    ensures AndBits(x, 0xff_ffff) == x % 0x100_0000
  {
    assert Pow2(8) == 0x100;
    Pow2Sum(8, 8);
    Pow2Sum(8, 16);
    MaskBits(x, 8);
    MaskBits(x, 16);
    MaskBits(x, 24);
  }

  lemma LowBytes(b0: Byte, b1: Byte, b2: Byte, b3: Byte)
    ensures var x := b0 + 0x100 * b1 + 0x1_0000 * b2 + 0x100_0000 * b3;
            && x % 0x100 == b0 && x % 0x1_0000 == b0 + 0x100 * b1
            && x % 0x100_0000 == b0 + 0x100 * b1 + 0x1_0000 * b2
  {
  }

  /** A masked read of the word that holds the end of the key drops what lies behind the end. */
  lemma MaskedRead(mem: seq<Byte>, key: nat, length: nat, i: nat, w: nat)
    requires key + length <= |mem| && i < length && key + i == 4 * w && |mem| % 4 == 0
    ensures 4 * w + 3 < |mem|
    ensures var m, x := Key(mem, key, length), Read32(mem, w);
            && (i + 3 < length ==> WordAt(m, i) == x)
            && (i + 3 == length ==> WordAt(m, i) == AndBits(x, 0xff_ffff))
            && (i + 2 == length ==> WordAt(m, i) == AndBits(x, 0xffff))
            && (i + 1 == length ==> WordAt(m, i) == AndBits(x, 0xff))
  {
    var m := Key(mem, key, length);
    var x := Read32(mem, w);
    Masks(x);
    LowBytes(mem[4 * w], mem[4 * w + 1], mem[4 * w + 2], mem[4 * w + 3]);
    assert At(m, i) == mem[4 * w];
    assert At(m, i + 1) == if i + 1 < length then mem[4 * w + 1] else 0;
    assert At(m, i + 2) == if i + 2 < length then mem[4 * w + 2] else 0;
    assert At(m, i + 3) == if i + 3 < length then mem[4 * w + 3] else 0;
  }

  /** The cases of one word in the switch on words. */
  method TailMasked(mem: seq<Byte>, key: nat, length: nat, i: nat, w: nat, x: Word) returns (y: Word)
    requires key + length <= |mem| && key + i == 4 * w && |mem| % 4 == 0
    ensures y == Add(x, WordAt(Key(mem, key, length), i))
  {
    y := x;
    if i < length {
      MaskedRead(mem, key, length, i, w);
      if i + 3 < length {
        y := Add(y, Read32(mem, w));
      } else if i + 3 == length {
        y := Add(y, AndBits(Read32(mem, w), 0xff_ffff));
      } else if i + 2 == length {
        y := Add(y, AndBits(Read32(mem, w), 0xffff));
      } else {
        y := Add(y, AndBits(Read32(mem, w), 0xff));
      }
    }
  }

  /** A block, whole or last, read by words. */
  method FeedWords(mem: seq<Byte>, key: nat, length: nat, i: nat, w: nat, s: Words) returns (t: Words)
    requires key + length <= |mem| && key + i == 4 * w && |mem| % 4 == 0
    ensures t == Feed(s, Key(mem, key, length), i)
  {
    var c := TailMasked(mem, key, length, i + 8, w + 2, s.c);
    var b := TailMasked(mem, key, length, i + 4, w + 1, s.b);
    var a := TailMasked(mem, key, length, i, w, s.a);
    t := Words(a, b, c);
  }

  /** A pass of the word loop. */
  method BlockWords(mix: Words -> Words, mem: seq<Byte>, key: nat, length: nat, j: nat, w: nat, s: Words, ghost initval: Word)
    returns (t: Words)
    requires key + length <= |mem| && key + 12 * j == 4 * w && |mem| % 4 == 0
    requires s == StateAt(mix, Key(mem, key, length), initval, j)
    ensures t == StateAt(mix, Key(mem, key, length), initval, j + 1)
  {
    var f := FeedWords(mem, key, length, 12 * j, w, s);
    t := mix(f);
  }

  /** The loop and the switch of the first branch: the key starts at word k; memory ends with a whole word. */
  method FillWords(mix: Words -> Words, mem: seq<Byte>, key: nat, length: nat, initval: Word, k: nat) returns (t: Words)
    requires key + length <= |mem| && key == 4 * k && |mem| % 4 == 0 && length > 0
    ensures t == Filled(mix, Key(mem, key, length), initval)
  {
    ghost var m := Key(mem, key, length);
    assert |m| == length;
    var s := Start(length, initval);
    var j, w := 0, k;
    while length - 12 * j > 12
      invariant key + 12 * j == 4 * w && 12 * j < length
      invariant s == StateAt(mix, Key(mem, key, length), initval, j)
      decreases length - 12 * j
    {
      s := BlockWords(mix, mem, key, length, j, w, s, initval);
      j, w := j + 1, w + 3;
    }
    BlocksIs(|m|, j);
    t := FeedWords(mem, key, length, 12 * j, w, s);
  }

  /** hash: wherever the key lies, whichever branch reads it and whatever follows it, the value is that of its bytes. */
  method Hash(mem: seq<Byte>, key: nat, length: nat, initval: Word) returns (v: Word)
    requires key + length <= |mem| && |mem| % 4 == 0
    ensures v == Value(Key(mem, key, length), initval)
  {
    if length == 0 {
      var s := Start(length, initval);
      return s.c;
    }
    var t: Words;
    if key % 4 == 0 {
      t := FillWords(Mix, mem, key, length, initval, key / 4);
    } else if key % 2 == 0 {
      t := FillHalves(Mix, mem, key, length, initval, key / 2);
    } else {
      t := FillBytes(Mix, mem, key, length, initval);
    }
    v := FinalState(t);
  }

  // ---------- keys that differ ----------

  lemma AddInjective(x: Word, y: Word, z: Word)
    requires Add(x, y) == Add(x, z) || Add(y, x) == Add(z, x)
    ensures y == z
  {
  }

  lemma LittleInjective(b0: Byte, b1: Byte, b2: Byte, b3: Byte, c0: Byte, c1: Byte, c2: Byte, c3: Byte)
    requires b0 + 0x100 * b1 + 0x1_0000 * b2 + 0x100_0000 * b3 == c0 + 0x100 * c1 + 0x1_0000 * c2 + 0x100_0000 * c3
    ensures b0 == c0 && b1 == c1 && b2 == c2 && b3 == c3
  {
    LowBytes(b0, b1, b2, b3);
    LowBytes(c0, c1, c2, c3);
  }

  lemma WordInjective(k: seq<Byte>, l: seq<Byte>, i: nat)
    requires WordAt(k, i) == WordAt(l, i)
    ensures forall j :: i <= j < i + 4 ==> At(k, j) == At(l, j)
  {
    LittleInjective(At(k, i), At(k, i + 1), At(k, i + 2), At(k, i + 3), At(l, i), At(l, i + 1), At(l, i + 2), At(l, i + 3));
  }

  ghost predicate SameBlock(k: seq<Byte>, l: seq<Byte>, i: nat) {
    forall j :: i <= j < i + 12 ==> At(k, j) == At(l, j)
  }

  lemma FeedInjective(s: Words, k: seq<Byte>, l: seq<Byte>, i: nat)
    requires Feed(s, k, i) == Feed(s, l, i)
    ensures SameBlock(k, l, i)
  {
    AddInjective(s.a, WordAt(k, i), WordAt(l, i));
    AddInjective(s.b, WordAt(k, i + 4), WordAt(l, i + 4));
    AddInjective(s.c, WordAt(k, i + 8), WordAt(l, i + 8));
    WordInjective(k, l, i);
    WordInjective(k, l, i + 4);
    WordInjective(k, l, i + 8);
  }

  lemma FeedState(s: Words, t: Words, k: seq<Byte>, l: seq<Byte>, i: nat)
    requires SameBlock(k, l, i) && Feed(s, k, i) == Feed(t, l, i)
    ensures s == t
  {
    assert forall j :: i <= j < i + 12 ==> At(k, j) == At(l, j);
    AddInjective(WordAt(k, i), s.a, t.a);
    AddInjective(WordAt(k, i + 4), s.b, t.b);
    AddInjective(WordAt(k, i + 8), s.c, t.c);
  }

  /** The keys, of one length, differ in their block d of twelve bytes and in no other; the last block may be short. */
  ghost predicate DifferAt(k: seq<Byte>, l: seq<Byte>, d: nat) {
    && |k| == |l| && !SameBlock(k, l, 12 * d)
    && forall j: nat :: j != d ==> SameBlock(k, l, 12 * j)
  }

  lemma SameFeed(s: Words, k: seq<Byte>, l: seq<Byte>, i: nat)
    requires SameBlock(k, l, i)
    ensures Feed(s, k, i) == Feed(s, l, i)
  {
    assert forall j :: i <= j < i + 12 ==> At(k, j) == At(l, j);
  }

  ghost predicate Undoes(unmix: Words -> Words, mix: Words -> Words) {
    forall s :: unmix(mix(s)) == s
  }

  lemma {:induction false} SameSoFar(mix: Words -> Words, k: seq<Byte>, l: seq<Byte>, initval: Word, d: nat, n: nat)
    requires DifferAt(k, l, d) && n <= d
    ensures StateAt(mix, k, initval, n) == StateAt(mix, l, initval, n)
  {
    if n > 0 {
      SameSoFar(mix, k, l, initval, d, n - 1);
      SameFeed(StateAt(mix, k, initval, n - 1), k, l, 12 * (n - 1));
    }
  }

  /** States that meet after block n were fed the same in it. */
  lemma MetBefore(mix: Words -> Words, unmix: Words -> Words, k: seq<Byte>, l: seq<Byte>, initval: Word, n: nat)
    requires Undoes(unmix, mix) && StateAt(mix, k, initval, n + 1) == StateAt(mix, l, initval, n + 1)
    ensures Feed(StateAt(mix, k, initval, n), k, 12 * n) == Feed(StateAt(mix, l, initval, n), l, 12 * n)
  {
  }

  lemma ApartAt(mix: Words -> Words, unmix: Words -> Words, k: seq<Byte>, l: seq<Byte>, initval: Word, n: nat)
    requires Undoes(unmix, mix) && !SameBlock(k, l, 12 * n)
    requires StateAt(mix, k, initval, n) == StateAt(mix, l, initval, n)
    ensures StateAt(mix, k, initval, n + 1) != StateAt(mix, l, initval, n + 1)
  {
    if StateAt(mix, k, initval, n + 1) == StateAt(mix, l, initval, n + 1) {
      MetBefore(mix, unmix, k, l, initval, n);
      FeedInjective(StateAt(mix, k, initval, n), k, l, 12 * n);
    }
  }

  lemma ApartStays(mix: Words -> Words, unmix: Words -> Words, k: seq<Byte>, l: seq<Byte>, initval: Word, n: nat)
    requires Undoes(unmix, mix) && SameBlock(k, l, 12 * n)
    requires StateAt(mix, k, initval, n) != StateAt(mix, l, initval, n)
    ensures StateAt(mix, k, initval, n + 1) != StateAt(mix, l, initval, n + 1)
  {
    if StateAt(mix, k, initval, n + 1) == StateAt(mix, l, initval, n + 1) {
      MetBefore(mix, unmix, k, l, initval, n);
      FeedState(StateAt(mix, k, initval, n), StateAt(mix, l, initval, n), k, l, 12 * n);
    }
  }

  lemma {:induction false} TellApart(mix: Words -> Words, unmix: Words -> Words,
                                     k: seq<Byte>, l: seq<Byte>, initval: Word, d: nat, n: nat)
    requires Undoes(unmix, mix) && DifferAt(k, l, d) && n >= d
    ensures StateAt(mix, k, initval, n + 1) != StateAt(mix, l, initval, n + 1)
  {
    if n == d {
      SameSoFar(mix, k, l, initval, d, d);
      ApartAt(mix, unmix, k, l, initval, d);
    } else {
      TellApart(mix, unmix, k, l, initval, d, n - 1);
      ApartStays(mix, unmix, k, l, initval, n);
    }
  }

  /**
    Main result: keys that differ in one block are in different states after that block, after
    every later block of the loop, and when final begins.
    */
  lemma BlocksTellApart(k: seq<Byte>, l: seq<Byte>, initval: Word, d: nat)
    requires DifferAt(k, l, d) && k != [] && d <= Blocks(|k|)
    ensures forall n :: d < n <= Blocks(|k|) ==> StateAt(Mix, k, initval, n) != StateAt(Mix, l, initval, n)
    ensures Filled(Mix, k, initval) != Filled(Mix, l, initval)
  {
    forall s ensures Unmix(Mix(s)) == s { MixBijective(s); }
    ApartThroughout(Mix, Unmix, k, l, initval, d);
  }

  lemma ApartThroughout(mix: Words -> Words, unmix: Words -> Words, k: seq<Byte>, l: seq<Byte>, initval: Word, d: nat)
    requires Undoes(unmix, mix) && DifferAt(k, l, d) && k != [] && d <= Blocks(|k|)
    ensures forall n :: d < n <= Blocks(|k|) ==> StateAt(mix, k, initval, n) != StateAt(mix, l, initval, n)
    ensures Filled(mix, k, initval) != Filled(mix, l, initval)
  {
    forall n | d < n <= Blocks(|k|) ensures StateAt(mix, k, initval, n) != StateAt(mix, l, initval, n) {
      TellApart(mix, unmix, k, l, initval, d, n - 1);
    }
    FilledApart(mix, unmix, k, l, initval, d, Blocks(|k|));
  }

  lemma FilledApart(mix: Words -> Words, unmix: Words -> Words, k: seq<Byte>, l: seq<Byte>, initval: Word, d: nat, b: nat)
    requires Undoes(unmix, mix) && DifferAt(k, l, d) && d <= b
    ensures Feed(StateAt(mix, k, initval, b), k, 12 * b) != Feed(StateAt(mix, l, initval, b), l, 12 * b)
  {
    var s, t := StateAt(mix, k, initval, b), StateAt(mix, l, initval, b);
    if Feed(s, k, 12 * b) == Feed(t, l, 12 * b) {
      if d == b {
        SameSoFar(mix, k, l, initval, d, d);
        FeedInjective(s, k, l, 12 * b);
      } else {
        TellApart(mix, unmix, k, l, initval, d, b - 1);
        FeedState(s, t, k, l, 12 * b);
      }
    }
  }
}
