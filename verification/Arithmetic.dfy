/** Facts about products, quotients and remainders of unknown integers. */
module Arithmetic {

  lemma {:induction false} MulOrder(m: nat, a: int, b: int)
    requires a < b
    ensures m * a + m <= m * b
  {
    if m > 0 {
      MulOrder(m - 1, a, b);
      assert m * a == (m - 1) * a + a && m * b == (m - 1) * b + b;
    }
  }

  lemma MulMono(a: nat, b: nat, c: nat, d: nat)
    requires a <= b && c <= d
    ensures a * c <= b * d
  {
    assert (b - a) * c >= 0 && b * (d - c) >= 0;
  }

  lemma FactorNonNegative(m: nat, z: int)
    requires m > 0 && m * z >= 0
    ensures z >= 0
  {
    if z < 0 {
      MulOrder(m, z, 0);
    }
  }

  /** Quotient and remainder are the only split of a number. */
  lemma DivModUnique(x: int, m: nat, q: int, r: int)
    requires 0 <= r < m && x == m * q + r
    ensures x / m == q && x % m == r
  {
    var q', r' := x / m, x % m;
    assert x == m * q' + r';
    if q < q' {
      MulOrder(m, q, q');
    } else if q' < q {
      MulOrder(m, q', q);
    }
  }

  lemma ModStep(x: int, m: nat)
    requires m > 0
    ensures x % m == (x - m) % m && x / m == (x - m) / m + 1
  {
    var q, r := (x - m) / m, (x - m) % m;
    assert x - m == m * q + r;
    assert m * (q + 1) == m * q + m;
    DivModUnique(x, m, q + 1, r);
  }

  lemma ModSmall(x: int, m: nat)
    requires 0 <= x < m
    ensures x % m == x && x / m == 0
  {
    DivModUnique(x, m, 0, x);
  }

  lemma ModAdd(t: int, j: int, m: nat)
    requires m > 0
    ensures (t + j) % m == (t % m + j) % m
  {
    var q, s := t / m, t % m;
    var q', r := (s + j) / m, (s + j) % m;
    assert t == m * q + s && s + j == m * q' + r;
    assert m * (q + q') == m * q + m * q';
    DivModUnique(t + j, m, q + q', r);
  }

  // ---------- named products and quotients, for layouts whose sizes are not constants ----------

  function Times(a: nat, b: nat): (c: nat)
    ensures a > 0 && b > 0 ==> c > 0
  {
    a * b
  }

  lemma TimesZero(n: nat)
    ensures Times(0, n) == 0 && Times(n, 0) == 0
  {
  }

  function Quot(a: nat, b: nat): (q: nat)
    requires b > 0
  {
    a / b
  }

  function Rem(a: nat, b: nat): (r: nat)
    requires b > 0
    ensures r < b
  {
    a % b
  }

  lemma TimesOrder(a: nat, b: nat, m: nat)
    requires a < b
    ensures Times(m, a) + m <= Times(m, b)
    ensures Times(a, m) + m <= Times(b, m)
  {
    MulOrder(m, a, b);
  }

  lemma TimesLaws(a: nat, b: nat, c: nat)
    ensures Times(a, b) == Times(b, a)
    ensures Times(Times(a, b), c) == Times(a, Times(b, c))
    ensures Times(a, b + c) == Times(a, b) + Times(a, c)
  {
  }

  lemma QuotRem(x: nat, m: nat)
    requires m > 0
    ensures x == Times(m, Quot(x, m)) + Rem(x, m)
  {
  }

  lemma QuotRemUnique(x: nat, m: nat, q: nat, r: nat)
    requires r < m && x == Times(m, q) + r
    ensures Quot(x, m) == q && Rem(x, m) == r
  {
    DivModUnique(x, m, q, r);
  }

  lemma QuotExact(m: nat, q: nat)
    requires m > 0
    ensures Quot(Times(m, q), m) == q && Quot(Times(q, m), m) == q
  {
    TimesLaws(m, q, 0);
    QuotRemUnique(Times(m, q), m, q, 0);
  }

  /** Dividing by a product is dividing twice. */
  lemma QuotQuot(x: nat, m: nat, n: nat)
    requires m > 0 && n > 0
    ensures Quot(x, Times(m, n)) == Quot(Quot(x, m), n)
  {
    hide Times, Quot, Rem;
    var q, r := Quot(x, m), Rem(x, m);
    var q', r' := Quot(q, n), Rem(q, n);
    QuotRem(x, m);
    QuotRem(q, n);
    TimesLaws(m, Times(n, q'), r');
    TimesLaws(m, n, q');
    TimesOrder(r', n, m);
    QuotRemUnique(x, Times(m, n), q', Times(m, r') + r);
  }

  /** Two numbers written with the same digits and radix are split the same way. */
  lemma DigitsUnique(m: nat, q1: nat, r1: nat, q2: nat, r2: nat)
    requires r1 < m && r2 < m && Times(m, q1) + r1 == Times(m, q2) + r2
    ensures q1 == q2 && r1 == r2
  {
    hide Times;
    QuotRemUnique(Times(m, q1) + r1, m, q1, r1);
    QuotRemUnique(Times(m, q1) + r1, m, q2, r2);
  }

  function Pow2(n: nat): (p: nat)
    ensures p > 0
  {
    if n == 0 then 1 else 2 * Pow2(n - 1)
  }
}
