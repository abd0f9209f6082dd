/** Quotients and remainders of natural numbers. */
module Division {

  lemma MulStep(n: int, unit: int)
    ensures (n + 1) * unit == n * unit + unit
  {
  }

  lemma {:induction false} DivUpper(n: nat, q: nat, unit: nat)
    requires n > q
    ensures n * unit >= q * unit + unit
  {
    MulStep(n - 1, unit);
    if n - 1 > q {
      DivUpper(n - 1, q, unit);
    }
  }

  lemma DivLower(n: nat, unit: nat, total: nat)
    requires unit > 0 && n * unit <= total
    ensures n <= total / unit
  {
    if n > total / unit {
      DivUpper(n, total / unit, unit);
      assert false;
    }
  }

  lemma DivModUnique(a: nat, s: nat, q: nat, r: nat)
    requires s > 0 && r < s && a == q * s + r
    ensures a / s == q && a % s == r
  {
    var q', r' := a / s, a % s;
    assert a == q' * s + r';
    if q' > q {
      DivUpper(q', q, s);
    } else if q > q' {
      DivUpper(q, q', s);
    }
  }

  lemma ModOfMultiple(q: nat, s: nat)
    requires s > 0
    ensures (q * s) % s == 0
    ensures (q * s) / s == q
  {
    DivModUnique(q * s, s, q, 0);
  }

  lemma ModTrans(a: nat, s: nat, t: nat)
    requires s > 0 && t > 0 && a % t == 0 && t % s == 0
    ensures a % s == 0
  {
    var q, p := a / t, t / s;
    assert a == q * t && t == p * s;
    assert a == (q * p) * s;
    ModOfMultiple(q * p, s);
  }

  lemma ModAdd(a: nat, b: nat, s: nat)
    requires s > 0 && a % s == 0
    ensures (a + b) % s == b % s
    ensures (a + b) / s == a / s + b / s
  {
    var q := a / s;
    assert a == q * s;
    assert a + b == (q + b / s) * s + b % s by {
      assert b == (b / s) * s + b % s;
    }
    DivModUnique(a + b, s, q + b / s, b % s);
  }
}
