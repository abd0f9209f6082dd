/** The hash of given keys: what lookup3 publishes for its little-endian hash. */
module KeyHashValues {
  import opened Division
  import opened KeyHash

  // ---------- shifts and rotation as arithmetic ----------

  lemma {:induction false} ShlIs(x: Word, k: nat)
    ensures Shl(x, k) == x * Pow2(k) % WRAP
    decreases k
  {
    if k > 0 {
      ShlIs(Add(x, x), k - 1);
      Doubled(x, Pow2(k - 1));
    }
  }

  lemma Doubled(x: Word, p: nat)
    ensures Add(x, x) * p % WRAP == x * (2 * p) % WRAP
  {
    if x + x >= WRAP {
      var y := Add(x, x);
      assert x * (2 * p) == y * p + p * WRAP;
      DivModUnique(x * (2 * p), WRAP, p + y * p / WRAP, y * p % WRAP);
    }
  }

  lemma {:induction false} ShrIs(x: Word, k: nat)
    ensures Shr(x, k) == x / Pow2(k)
    decreases k
  {
    if k > 0 {
      ShrIs(x / 2, k - 1);
      HalfThen(x, Pow2(k - 1));
    }
  }

  lemma HalfThen(x: nat, p: nat)
    requires p > 0
    ensures x / 2 / p == x / (2 * p)
  {
    HalfRemainder(x, p);
    var q := x / 2 / p;
    assert x == q * (2 * p) + x % (2 * p) by { assert x / 2 == q * p + x / 2 % p && 2 * (q * p) == q * (2 * p); }
    DivModUnique(x, 2 * p, q, x % (2 * p));
  }

  // ---------- exclusive or, bit by bit ----------

  ghost predicate StepsAt(f: (nat, nat) -> nat, x: nat, y: nat) { f(x, y) == (x + y) % 2 + 2 * f(x / 2, y / 2) }

  /** The function adds bits without carrying. */
  ghost predicate Bitwise(f: (nat, nat) -> nat) {
    f(0, 0) == 0 && forall x: nat, y: nat :: StepsAt(f, x, y)
  }

  lemma XorBitwise()
    ensures Bitwise(XorBits)
  {
    forall x: nat, y: nat ensures StepsAt(XorBits, x, y) { XorStep(x, y); }
  }

  lemma {:induction false} NothingAdded(f: (nat, nat) -> nat, h: nat)
    requires Bitwise(f)
    ensures f(h, 0) == h
  {
    if h > 0 {
      NothingAdded(f, h / 2);
      assert StepsAt(f, h, 0);
    }
  }

  /** Where one number has no bits the other has them all. */
  lemma {:induction false} BitsApart(f: (nat, nat) -> nat, h: nat, l: nat, k: nat, n: nat)
    requires Bitwise(f) && l < Pow2(k) && n == h * Pow2(k)
    ensures f(n, l) == n + l
    decreases k
  {
    if k > 0 {
      var m := Twice(h, k, n);
      HalfFits(l, k);
      BitsApart(f, h, l / 2, k - 1, m);
      assert StepsAt(f, n, l);
    } else {
      NothingAdded(f, h);
    }
  }

  lemma Twice(h: nat, k: nat, n: nat) returns (m: nat)
    requires k > 0 && n == h * Pow2(k)
    ensures m == h * Pow2(k - 1) && n == 2 * m
  {
    m := h * Pow2(k - 1);
    assert h * (2 * Pow2(k - 1)) == 2 * (h * Pow2(k - 1));
  }

  lemma HalfFits(l: nat, k: nat)
    requires k > 0 && l < Pow2(k)
    ensures l / 2 < Pow2(k - 1)
  {
  }

  /** p is 2 to the k and q 2 to the 32 - k. */
  predicate Powers(k: Shift, p: nat, q: nat) { p == Pow2(k) && q == Pow2(32 - k) }

  /** Rotation: the k high bits come in at the low end. */
  lemma RotIs(x: Word, k: Shift, p: nat, q: nat)
    requires Powers(k, p, q)
    ensures Rot(x, k) == x % q * p + x / q
  {
    Wrap();
    Pow2Sum(k, 32 - k);
    ShlIs(x, k);
    ShrIs(x, 32 - k);
    HighPart(x, p, q);
    TopFits(x, p, q);
    XorBitwise();
    BitsApart(XorBits, x % q, x / q, k, x % q * p);
  }

  lemma TopFits(x: nat, p: nat, q: nat)
    requires q > 0 && x < p * q
    ensures x / q < p
  {
    assert x == x / q * q + x % q;
    if x / q >= p { Times(p, x / q, q); }
  }

  lemma Times(p: nat, d: nat, q: nat)
    requires p <= d
    ensures p * q <= d * q
  {
    assert (d - p) * q >= 0;
  }

  lemma HighPart(x: nat, p: nat, q: nat)
    requires p > 0 && q > 0 && p * q == WRAP
    ensures x * p % WRAP == x % q * p
  {
    var d, m := x / q, x % q;
    assert x * p == (d * q + m) * p == d * (p * q) + m * p;
    assert m * p < q * p by { assert (q - m) * p > 0; }
    DivModUnique(x * p, WRAP, d, m * p);
  }

  // ---------- exclusive or of given words ----------

  function Digit(b: bv32): nat { (b & 15) as bv4 as nat }

  function Joined(d0: nat, d1: nat, d2: nat, d3: nat, d4: nat, d5: nat, d6: nat, d7: nat): nat {
    d0 + 16 * (d1 + 16 * (d2 + 16 * (d3 + 16 * (d4 + 16 * (d5 + 16 * (d6 + 16 * d7))))))
  }

  /** The number a bit vector stands for, by its hexadecimal digits. */
  function NatOf(b: bv32): nat {
    Joined(Digit(b), Digit(b >> 4), Digit(b >> 8), Digit(b >> 12),
           Digit(b >> 16), Digit(b >> 20), Digit(b >> 24), Digit(b >> 28))
  }

  lemma HalfDigit(b: bv4)
    ensures b as nat / 2 == (b >> 1) as nat && b as nat % 2 == (b & 1) as nat
  {
  }

  lemma BitXor(b: bv4, c: bv4)
    ensures ((b ^ c) & 1) as nat == ((b & 1) as nat + (c & 1) as nat) % 2
  {
  }

  lemma HalfXor(b: bv4, c: bv4)
    ensures (b ^ c) >> 1 == (b >> 1) ^ (c >> 1)
  {
  }

  lemma {:induction false} SmallXor(f: (nat, nat) -> nat, b: bv4, c: bv4)
    requires Bitwise(f)
    ensures f(b as nat, c as nat) == (b ^ c) as nat
    decreases b as nat + c as nat
  {
    HalfDigit(b);
    HalfDigit(c);
    SumXor(b, c);
    if b as nat + c as nat > 0 {
      SmallXor(f, b >> 1, c >> 1);
      LastBit(f, b as nat, c as nat, (b ^ c) as nat);
    }
  }

  lemma SumXor(b: bv4, c: bv4)
    ensures (b ^ c) as nat / 2 == ((b >> 1) ^ (c >> 1)) as nat && (b ^ c) as nat % 2 == (b as nat + c as nat) % 2
  {
    HalfXor(b, c);
    HalfDigit(b);
    HalfDigit(c);
    HalfDigit(b ^ c);
    BitXor(b, c);
  }

  lemma LastBit(f: (nat, nat) -> nat, x: nat, y: nat, z: nat)
    requires Bitwise(f) && f(x / 2, y / 2) == z / 2 && z % 2 == (x + y) % 2
    ensures f(x, y) == z
  {
    assert StepsAt(f, x, y);
  }

  /** What is above the low bit is taken apart from it. */
  lemma Level(f: (nat, nat) -> nat, x: nat, y: nat, a: nat, b: nat)
    requires Bitwise(f)
    ensures f(x + 2 * a, y + 2 * b) - f(x, y) == 2 * (f(x / 2 + a, y / 2 + b) - f(x / 2, y / 2))
  {
    assert StepsAt(f, x + 2 * a, y + 2 * b) && StepsAt(f, x, y);
  }

  lemma Quarters(x: nat)
    requires x < 16
    ensures x / 2 / 2 == x / 4 && x / 4 / 2 == x / 8 && x / 8 / 2 == 0
  {
  }

  lemma DigitApart(f: (nat, nat) -> nat, x: nat, y: nat, h: nat, g: nat)
    requires Bitwise(f) && x < 16 && y < 16
    ensures f(x + 16 * h, y + 16 * g) == f(x, y) + 16 * f(h, g)
  {
    Level(f, x, y, 8 * h, 8 * g);
    Level(f, x / 2, y / 2, 4 * h, 4 * g);
    Level(f, x / 4, y / 4, 2 * h, 2 * g);
    Level(f, x / 8, y / 8, h, g);
    Quarters(x);
    Quarters(y);
  }

  lemma DigitXor(f: (nat, nat) -> nat, b: bv32, c: bv32, d: bv32)
    requires Bitwise(f) && d == b ^ c
    ensures DigitsTo(f, Digit, b, c, d)
  {
    LowDigit(b, c, d);
    SmallXor(f, (b & 15) as bv4, (c & 15) as bv4);
  }

  lemma LowDigit(b: bv32, c: bv32, d: bv32)
    requires d == b ^ c
    ensures (d & 15) as bv4 == (b & 15) as bv4 ^ (c & 15) as bv4
  {
  }

  lemma ShiftXor(b: bv32, c: bv32)
    ensures (b ^ c) >> 4 == (b >> 4) ^ (c >> 4) && (b ^ c) >> 8 == (b >> 8) ^ (c >> 8)
    ensures (b ^ c) >> 12 == (b >> 12) ^ (c >> 12) && (b ^ c) >> 16 == (b >> 16) ^ (c >> 16)
    ensures (b ^ c) >> 20 == (b >> 20) ^ (c >> 20) && (b ^ c) >> 24 == (b >> 24) ^ (c >> 24)
    ensures (b ^ c) >> 28 == (b >> 28) ^ (c >> 28)
  {
  }

  ghost predicate DigitTo(f: (nat, nat) -> nat, x: nat, y: nat, z: nat) { x < 16 && y < 16 && f(x, y) == z }

  lemma JoinedXor(f: (nat, nat) -> nat, x0: nat, x1: nat, x2: nat, x3: nat, x4: nat, x5: nat, x6: nat, x7: nat,
                  y0: nat, y1: nat, y2: nat, y3: nat, y4: nat, y5: nat, y6: nat, y7: nat,
                  z0: nat, z1: nat, z2: nat, z3: nat, z4: nat, z5: nat, z6: nat, z7: nat)
    requires Bitwise(f) && DigitTo(f, x0, y0, z0) && DigitTo(f, x1, y1, z1) && DigitTo(f, x2, y2, z2) && DigitTo(f, x3, y3, z3)
    requires DigitTo(f, x4, y4, z4) && DigitTo(f, x5, y5, z5) && DigitTo(f, x6, y6, z6) && DigitTo(f, x7, y7, z7)
    ensures f(Joined(x0, x1, x2, x3, x4, x5, x6, x7), Joined(y0, y1, y2, y3, y4, y5, y6, y7))
            == Joined(z0, z1, z2, z3, z4, z5, z6, z7)
  {
    var a6, b6 := x6 + 16 * x7, y6 + 16 * y7;
    var a5, b5 := x5 + 16 * a6, y5 + 16 * b6;
    var a4, b4 := x4 + 16 * a5, y4 + 16 * b5;
    var a3, b3 := x3 + 16 * a4, y3 + 16 * b4;
    var a2, b2 := x2 + 16 * a3, y2 + 16 * b3;
    var a1, b1 := x1 + 16 * a2, y1 + 16 * b2;
    DigitApart(f, x6, y6, x7, y7);
    DigitApart(f, x5, y5, a6, b6);
    DigitApart(f, x4, y4, a5, b5);
    DigitApart(f, x3, y3, a4, b4);
    DigitApart(f, x2, y2, a3, b3);
    DigitApart(f, x1, y1, a2, b2);
    DigitApart(f, x0, y0, a1, b1);
  }

  ghost predicate DigitsTo(f: (nat, nat) -> nat, dig: bv32 -> nat, b: bv32, c: bv32, d: bv32) {
    DigitTo(f, dig(b), dig(c), dig(d))
  }

  lemma EveryDigit(f: (nat, nat) -> nat, dig: bv32 -> nat,
                   b0: bv32, b1: bv32, b2: bv32, b3: bv32, b4: bv32, b5: bv32, b6: bv32, b7: bv32,
                   c0: bv32, c1: bv32, c2: bv32, c3: bv32, c4: bv32, c5: bv32, c6: bv32, c7: bv32,
                   d0: bv32, d1: bv32, d2: bv32, d3: bv32, d4: bv32, d5: bv32, d6: bv32, d7: bv32)
    requires Bitwise(f) && DigitsTo(f, dig, b0, c0, d0) && DigitsTo(f, dig, b1, c1, d1) && DigitsTo(f, dig, b2, c2, d2)
    requires DigitsTo(f, dig, b3, c3, d3) && DigitsTo(f, dig, b4, c4, d4) && DigitsTo(f, dig, b5, c5, d5)
    requires DigitsTo(f, dig, b6, c6, d6) && DigitsTo(f, dig, b7, c7, d7)
    ensures f(Joined(dig(b0), dig(b1), dig(b2), dig(b3), dig(b4), dig(b5), dig(b6), dig(b7)),
              Joined(dig(c0), dig(c1), dig(c2), dig(c3), dig(c4), dig(c5), dig(c6), dig(c7)))
            == Joined(dig(d0), dig(d1), dig(d2), dig(d3), dig(d4), dig(d5), dig(d6), dig(d7))
  {
    JoinedXor(f, dig(b0), dig(b1), dig(b2), dig(b3), dig(b4), dig(b5), dig(b6), dig(b7),
              dig(c0), dig(c1), dig(c2), dig(c3), dig(c4), dig(c5), dig(c6), dig(c7),
              dig(d0), dig(d1), dig(d2), dig(d3), dig(d4), dig(d5), dig(d6), dig(d7));
  }

  ghost predicate Digitwise(f: (nat, nat) -> nat, dig: bv32 -> nat) {
    forall x: bv32, y: bv32, d: bv32 :: d == x ^ y ==> DigitsTo(f, dig, x, y, d)
  }

  function NatBy(dig: bv32 -> nat, b: bv32): nat {
    Joined(dig(b), dig(b >> 4), dig(b >> 8), dig(b >> 12), dig(b >> 16), dig(b >> 20), dig(b >> 24), dig(b >> 28))
  }

  lemma NatXorBy(f: (nat, nat) -> nat, dig: bv32 -> nat, b: bv32, c: bv32)
    requires Bitwise(f) && Digitwise(f, dig)
    ensures f(NatBy(dig, b), NatBy(dig, c)) == NatBy(dig, b ^ c)
  {
    ShiftXor(b, c);
    EveryDigit(f, dig, b, b >> 4, b >> 8, b >> 12, b >> 16, b >> 20, b >> 24, b >> 28,
               c, c >> 4, c >> 8, c >> 12, c >> 16, c >> 20, c >> 24, c >> 28,
               b ^ c, (b ^ c) >> 4, (b ^ c) >> 8, (b ^ c) >> 12, (b ^ c) >> 16, (b ^ c) >> 20, (b ^ c) >> 24, (b ^ c) >> 28);
  }

  lemma ByDigit(b: bv32)
    ensures NatOf(b) == NatBy(Digit, b)
  {
  }

  lemma DigitsXor(f: (nat, nat) -> nat)
    requires Bitwise(f)
    ensures Digitwise(f, Digit)
  {
    forall x: bv32, y: bv32, d: bv32 | d == x ^ y ensures DigitsTo(f, Digit, x, y, d) { DigitXor(f, x, y, d); }
  }

  lemma NatXor(f: (nat, nat) -> nat, b: bv32, c: bv32)
    requires Bitwise(f)
    ensures f(NatOf(b), NatOf(c)) == NatOf(b ^ c)
  {
    DigitsXor(f);
    NatXorBy(f, Digit, b, c);
    ByDigit(b);
    ByDigit(c);
    ByDigit(b ^ c);
  }

  lemma XorIs(b: bv32, c: bv32)
    ensures XorBits(NatOf(b), NatOf(c)) == NatOf(b ^ c)
  {
    XorBitwise();
    NatXor(XorBits, b, c);
  }

  // ---------- lines of mix and final, on given words ----------

  lemma PowersAre()
    ensures Powers(4, 0x10, 0x1000_0000) && Powers(6, 0x40, 0x400_0000) && Powers(8, 0x100, 0x100_0000)
    ensures Powers(11, 0x800, 0x20_0000) && Powers(14, 0x4000, 0x4_0000) && Powers(16, 0x1_0000, 0x1_0000)
    ensures Powers(19, 0x8_0000, 0x2000) && Powers(24, 0x100_0000, 0x100) && Powers(25, 0x200_0000, 0x80)
  {
    assert Pow2(4) == 0x10;
    Pow2Sum(4, 4);
    Pow2Sum(8, 8);
    Pow2Sum(16, 8);
    assert Pow2(28) == 0x1000_0000 by { Pow2Sum(24, 4); }
    assert Pow2(6) == 0x40 && Pow2(26) == 0x400_0000 by { Pow2Sum(4, 2); Pow2Sum(24, 2); }
    assert Pow2(11) == 0x800 && Pow2(21) == 0x20_0000 by { Pow2Sum(8, 3); Pow2Sum(16, 5); }
    assert Pow2(14) == 0x4000 && Pow2(18) == 0x4_0000 by { Pow2Sum(8, 6); Pow2Sum(16, 2); }
    assert Pow2(19) == 0x8_0000 && Pow2(13) == 0x2000 by { Pow2Sum(16, 3); Pow2Sum(8, 5); }
    assert Pow2(25) == 0x200_0000 && Pow2(7) == 0x80 by { Pow2Sum(24, 1); Pow2Sum(4, 3); }
  }

  /** What a line of mix leaves; r and d are the bits of the rotated word and of the difference. */
  predicate TurnOk(s: Words, p: nat, q: nat, r: bv32, d: bv32, t: Words)
    requires q > 0
  {
    && NatOf(r) == s.c % q * p + s.c / q && NatOf(d) == Sub(s.a, s.c)
    && t.a == s.b && t.b == Add(s.c, s.b) && t.c == NatOf(d ^ r)
  }

  lemma RotTo(x: Word, k: Shift, p: nat, q: nat, r: nat)
    requires Powers(k, p, q) && r == x % q * p + x / q
    ensures Rot(x, k) == r
  {
    RotIs(x, k, p, q);
  }

  lemma TurnBy(s: Words, k: Shift, d: nat, r: nat, t: Words)
    requires d == Sub(s.a, s.c) && Rot(s.c, k) == r && XorBits(d, r) == t.c && t.a == s.b && t.b == Add(s.c, s.b)
    ensures Turn(s, k) == t
  {
  }

  lemma TurnTo(s: Words, k: Shift, p: nat, q: nat, r: bv32, d: bv32, t: Words)
    requires Powers(k, p, q) && TurnOk(s, p, q, r, d, t)
    ensures Turn(s, k) == t
  {
    RotTo(s.c, k, p, q, NatOf(r));
    XorIs(d, r);
    TurnBy(s, k, NatOf(d), NatOf(r), t);
  }

  ghost predicate HalfTo(s: Words, t: Words) { Turn(Turn(Turn(s, 4), 6), 8) == t }

  ghost predicate RestTo(s: Words, t: Words) { Turn(Turn(Turn(s, 16), 19), 4) == t }

  ghost predicate MixesTo(s: Words, t: Words) { Mix(s) == t }

  lemma HalfMix(s0: Words, s1: Words, s2: Words, s3: Words, r0: bv32, d0: bv32, r1: bv32, d1: bv32, r2: bv32, d2: bv32)
    requires TurnOk(s0, 0x10, 0x1000_0000, r0, d0, s1) && TurnOk(s1, 0x40, 0x400_0000, r1, d1, s2)
    requires TurnOk(s2, 0x100, 0x100_0000, r2, d2, s3)
    ensures HalfTo(s0, s3)
  {
    PowersAre();
    TurnTo(s0, 4, 0x10, 0x1000_0000, r0, d0, s1);
    TurnTo(s1, 6, 0x40, 0x400_0000, r1, d1, s2);
    TurnTo(s2, 8, 0x100, 0x100_0000, r2, d2, s3);
  }

  lemma RestMix(s0: Words, s1: Words, s2: Words, s3: Words, r0: bv32, d0: bv32, r1: bv32, d1: bv32, r2: bv32, d2: bv32)
    requires TurnOk(s0, 0x1_0000, 0x1_0000, r0, d0, s1) && TurnOk(s1, 0x8_0000, 0x2000, r1, d1, s2)
    requires TurnOk(s2, 0x10, 0x1000_0000, r2, d2, s3)
    ensures RestTo(s0, s3)
  {
    PowersAre();
    TurnTo(s0, 16, 0x1_0000, 0x1_0000, r0, d0, s1);
    TurnTo(s1, 19, 0x8_0000, 0x2000, r1, d1, s2);
    TurnTo(s2, 4, 0x10, 0x1000_0000, r2, d2, s3);
  }

  lemma WholeMix(s: Words, m: Words, t: Words)
    requires HalfTo(s, m) && RestTo(m, t)
    ensures MixesTo(s, t)
  {
  }

  /** What a line of final leaves; r, b and c are the bits of the rotated word and of the two words before it. */
  predicate FoldOk(s: Words, p: nat, q: nat, r: bv32, b: bv32, c: bv32, t: Words)
    requires q > 0
  {
    && NatOf(r) == s.b % q * p + s.b / q && NatOf(b) == s.b && NatOf(c) == s.c
    && NatOf(c ^ b) < WRAP && t.a == s.b && t.b == Sub(NatOf(c ^ b), NatOf(r)) && t.c == s.a
  }

  lemma FoldTo(s: Words, k: Shift, p: nat, q: nat, r: bv32, b: bv32, c: bv32, t: Words)
    requires Powers(k, p, q) && FoldOk(s, p, q, r, b, c, t)
    ensures Fold(s, k) == t
  {
    RotTo(s.b, k, p, q, NatOf(r));
    XorIs(c, b);
  }

  ghost predicate FoldsTo(s: Words, t: Words) { Fold(Fold(Fold(Fold(s, 14), 11), 25), 16) == t }

  ghost predicate EndsIn(s: Words, v: Word) { Fold(Fold(Fold(s, 4), 14), 24).b == v }

  ghost predicate FinalTo(s: Words, v: Word) { Final(s) == v }

  lemma FourFolds(s0: Words, s1: Words, s2: Words, s3: Words, s4: Words, r0: bv32, b0: bv32, c0: bv32,
                  r1: bv32, b1: bv32, c1: bv32, r2: bv32, b2: bv32, c2: bv32, r3: bv32, b3: bv32, c3: bv32)
    requires FoldOk(s0, 0x4000, 0x4_0000, r0, b0, c0, s1) && FoldOk(s1, 0x800, 0x20_0000, r1, b1, c1, s2)
    requires FoldOk(s2, 0x200_0000, 0x80, r2, b2, c2, s3) && FoldOk(s3, 0x1_0000, 0x1_0000, r3, b3, c3, s4)
    ensures FoldsTo(s0, s4)
  {
    PowersAre();
    FoldTo(s0, 14, 0x4000, 0x4_0000, r0, b0, c0, s1);
    FoldTo(s1, 11, 0x800, 0x20_0000, r1, b1, c1, s2);
    FoldTo(s2, 25, 0x200_0000, 0x80, r2, b2, c2, s3);
    FoldTo(s3, 16, 0x1_0000, 0x1_0000, r3, b3, c3, s4);
  }

  lemma ThreeFolds(s0: Words, s1: Words, s2: Words, s3: Words, r0: bv32, b0: bv32, c0: bv32,
                   r1: bv32, b1: bv32, c1: bv32, r2: bv32, b2: bv32, c2: bv32)
    requires FoldOk(s0, 0x10, 0x1000_0000, r0, b0, c0, s1) && FoldOk(s1, 0x4000, 0x4_0000, r1, b1, c1, s2)
    requires FoldOk(s2, 0x100_0000, 0x100, r2, b2, c2, s3)
    ensures EndsIn(s0, s3.b)
  {
    PowersAre();
    FoldTo(s0, 4, 0x10, 0x1000_0000, r0, b0, c0, s1);
    FoldTo(s1, 14, 0x4000, 0x4_0000, r1, b1, c1, s2);
    FoldTo(s2, 24, 0x100_0000, 0x100, r2, b2, c2, s3);
  }

  lemma WholeFinal(s: Words, m: Words, v: Word)
    requires FoldsTo(s, m) && EndsIn(m, v)
    ensures FinalTo(s, v)
  {
  }

  lemma FirstMixHalf()
    ensures HalfTo(Words(0x5123_2e53, 0x4e11_322d, 0x3fce_247f), Words(0x7b96_a4d3, 0x8921_12d0, 0xa39_15a2))
  {
    HalfMix(Words(0x5123_2e53, 0x4e11_322d, 0x3fce_247f),
            Words(0x4e11_322d, 0x8ddf_56ac, 0xedb7_4e27),
            Words(0x8ddf_56ac, 0x7b96_a4d3, 0xd8a_6dfd),
            Words(0x7b96_a4d3, 0x8921_12d0, 0xa39_15a2),
            0xfce2_47f3, 0x1155_09d4, 0x6dd3_89fb, 0x6059_e406, 0x8a6d_fd0d, 0x8054_e8af);
  }

  lemma FirstMixRest()
    ensures RestTo(Words(0x7b96_a4d3, 0x8921_12d0, 0xa39_15a2), Words(0xf859_ad7a, 0x4bc_57ae, 0x40dd_dd7e))
  {
    RestMix(Words(0x7b96_a4d3, 0x8921_12d0, 0xa39_15a2),
            Words(0x8921_12d0, 0x935a_2872, 0x64ff_8508),
            Words(0x935a_2872, 0xf859_ad7a, 0xc62_aa34),
            Words(0xf859_ad7a, 0x4bc_57ae, 0x40dd_dd7e),
            0x15a2_0a39, 0x715d_8f31, 0x2843_27fc, 0x2421_8dc8, 0xc62a_a340, 0x86f7_7e3e);
  }

  lemma FirstMix()
    ensures MixesTo(Words(0x5123_2e53, 0x4e11_322d, 0x3fce_247f), Words(0xf859_ad7a, 0x4bc_57ae, 0x40dd_dd7e))
  {
    FirstMixHalf();
    FirstMixRest();
    WholeMix(Words(0x5123_2e53, 0x4e11_322d, 0x3fce_247f), Words(0x7b96_a4d3, 0x8921_12d0, 0xa39_15a2),
             Words(0xf859_ad7a, 0x4bc_57ae, 0x40dd_dd7e));
  }

  lemma SecondMixHalf()
    ensures HalfTo(Words(0x6b7a_11e8, 0x7321_ce13, 0xa243_569e), Words(0x268_f751, 0xc952_4a99, 0xa728_99af))
  {
    HalfMix(Words(0x6b7a_11e8, 0x7321_ce13, 0xa243_569e),
            Words(0x7321_ce13, 0x1565_24b1, 0xed03_d2a0),
            Words(0x1565_24b1, 0x268_f751, 0xc6e9_5348),
            Words(0x268_f751, 0xc952_4a99, 0xa728_99af),
            0x2435_69ea, 0xc936_bb4a, 0x40f4_a83b, 0x861d_fb73, 0xe953_48c6, 0x4e7b_d169);
  }

  lemma SecondMixRest()
    ensures RestTo(Words(0x268_f751, 0xc952_4a99, 0xa728_99af), Words(0x336a_ded2, 0x59f_2642, 0xbd02_ebd5))
  {
    RestMix(Words(0x268_f751, 0xc952_4a99, 0xa728_99af),
            Words(0xc952_4a99, 0x707a_e448, 0xc2ef_fa8a),
            Words(0x707a_e448, 0x336a_ded2, 0xd234_4770),
            Words(0x336a_ded2, 0x59f_2642, 0xbd02_ebd5),
            0x99af_a728, 0x5b40_5da2, 0xd456_177f, 0x662_500f, 0x2344_770d, 0x9e46_9cd8);
  }

  lemma SecondMix()
    ensures MixesTo(Words(0x6b7a_11e8, 0x7321_ce13, 0xa243_569e), Words(0x336a_ded2, 0x59f_2642, 0xbd02_ebd5))
  {
    SecondMixHalf();
    SecondMixRest();
    WholeMix(Words(0x6b7a_11e8, 0x7321_ce13, 0xa243_569e), Words(0x268_f751, 0xc952_4a99, 0xa728_99af),
             Words(0x336a_ded2, 0x59f_2642, 0xbd02_ebd5));
  }

  lemma LastFinalHalf()
    ensures FoldsTo(Words(0x948b_5244, 0x59f_95a9, 0xbd02_ebd5), Words(0x36f4_b590, 0x3037_5191, 0xadcf_c0b8))
  {
    FourFolds(Words(0x948b_5244, 0x59f_95a9, 0xbd02_ebd5),
              Words(0x59f_95a9, 0xd333_3d15, 0x948b_5244),
              Words(0xd333_3d15, 0xadcf_c0b8, 0x59f_95a9),
              Words(0xadcf_c0b8, 0x36f4_b590, 0xd333_3d15),
              Words(0x36f4_b590, 0x3037_5191, 0xadcf_c0b8),
              0xe56a_4167, 0x59f_95a9, 0xbd02_ebd5,
              0x99e8_ae99, 0xd333_3d15, 0x948b_5244,
              0x715b_9f81, 0xadcf_c0b8, 0x59f_95a9,
              0xb590_36f4, 0x36f4_b590, 0xd333_3d15);
  }

  lemma LastFinalRest()
    ensures EndsIn(Words(0x36f4_b590, 0x3037_5191, 0xadcf_c0b8), 0x1777_0551)
  {
    ThreeFolds(Words(0x36f4_b590, 0x3037_5191, 0xadcf_c0b8),
              Words(0x3037_5191, 0x9a83_7816, 0x36f4_b590),
              Words(0x9a83_7816, 0xce72_26e6, 0x3037_5191),
              Words(0xce72_26e6, 0x1777_0551, 0x9a83_7816),
              0x375_1913, 0x3037_5191, 0xadcf_c0b8,
              0xde05_a6a0, 0x9a83_7816, 0x36f4_b590,
              0xe6ce_7226, 0xce72_26e6, 0x3037_5191);
  }

  lemma LastFinal()
    ensures FinalTo(Words(0x948b_5244, 0x59f_95a9, 0xbd02_ebd5), 0x1777_0551)
  {
    LastFinalHalf();
    LastFinalRest();
    WholeFinal(Words(0x948b_5244, 0x59f_95a9, 0xbd02_ebd5), Words(0x36f4_b590, 0x3037_5191, 0xadcf_c0b8), 0x1777_0551);
  }

  // ---------- the values ----------

  /** "Four score and seven years ago", character by character. */
  const FOUR_SCORE: seq<Byte> :=
    [70, 111, 117, 114, 32, 115, 99, 111, 114, 101, 32, 97, 110, 100, 32, 115, 101, 118, 101,
     110, 32, 121, 101, 97, 114, 115, 32, 97, 103, 111]

  lemma FirstBlock()
    ensures |FOUR_SCORE| == 30
    ensures Feed(Words(0xdead_bf0d, 0xdead_bf0d, 0xdead_bf0d), FOUR_SCORE, 0)
            == Words(0x5123_2e53, 0x4e11_322d, 0x3fce_247f)
  {
  }

  lemma SecondBlock()
    ensures Feed(Words(0xf859_ad7a, 0x4bc_57ae, 0x40dd_dd7e), FOUR_SCORE, 12)
            == Words(0x6b7a_11e8, 0x7321_ce13, 0xa243_569e)
  {
  }

  lemma LastBlock()
    ensures Feed(Words(0x336a_ded2, 0x59f_2642, 0xbd02_ebd5), FOUR_SCORE, 24)
            == Words(0x948b_5244, 0x59f_95a9, 0xbd02_ebd5)
  {
  }

  lemma StartsAt(n: nat)
    requires n == 30
    ensures Start(n, 0) == Words(0xdead_bf0d, 0xdead_bf0d, 0xdead_bf0d) && Blocks(n) == 2
  {
  }

  lemma ThreeBlocks(k: seq<Byte>, s: Words, f1: Words, m1: Words, f2: Words, m2: Words, f3: Words, v: Word)
    requires |k| > 0 && Blocks(|k|) == 2 && Start(|k|, 0) == s && Feed(s, k, 0) == f1 && MixesTo(f1, m1)
    requires Feed(m1, k, 12) == f2 && MixesTo(f2, m2) && Feed(m2, k, 24) == f3 && FinalTo(f3, v)
    ensures Value(k, 0) == v
  {
    assert StateAt(Mix, k, 0, 0) == s;
    assert StateAt(Mix, k, 0, 1) == m1;
    assert StateAt(Mix, k, 0, 2) == m2;
  }

  /** What lookup3 publishes for the empty key and for a key of three blocks. */
  lemma PublishedValues()
    ensures Value([], 0) == 0xdead_beef && Value([], 0xdead_beef) == 0xbd5b_7dde
    ensures Value(FOUR_SCORE, 0) == 0x1777_0551
  {
    FirstBlock();
    SecondBlock();
    LastBlock();
    FirstMix();
    SecondMix();
    LastFinal();
    StartsAt(|FOUR_SCORE|);
    ThreeBlocks(FOUR_SCORE, Words(0xdead_bf0d, 0xdead_bf0d, 0xdead_bf0d),
                Words(0x5123_2e53, 0x4e11_322d, 0x3fce_247f), Words(0xf859_ad7a, 0x4bc_57ae, 0x40dd_dd7e),
                Words(0x6b7a_11e8, 0x7321_ce13, 0xa243_569e), Words(0x336a_ded2, 0x59f_2642, 0xbd02_ebd5),
                Words(0x948b_5244, 0x59f_95a9, 0xbd02_ebd5), 0x1777_0551);
  }
}
