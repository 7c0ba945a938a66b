/** Facts about quotients and remainders the solver does not find alone. */
module Arith {

  lemma MulMono(m: nat, a: nat, b: nat)
    ensures a <= b ==> m * a <= m * b
  {
    if a <= b {
      assert m * b == m * a + m * (b - a);
    }
  }

  lemma DivLower(x: nat, m: nat, q: nat)
    requires m > 0 && x >= m * q
    ensures x / m >= q
  {
    var k := x / m;
    assert x == m * k + x % m;
    MulMono(m, k + 1, q);
  }

  lemma DivModIs(x: nat, m: nat, q: nat, r: nat)
    requires m > 0 && x == m * q + r && r < m
    ensures x / m == q && x % m == r
  {
    var k := x / m;
    assert x == m * k + x % m;
    MulMono(m, k + 1, q);
    MulMono(m, q + 1, k);
  }

  lemma DivShift(x: nat, m: nat)
    requires m > 0
    ensures (x + m) / m == 1 + x / m && (x + m) % m == x % m
  {
    var q := x / m;
    assert m * (q + 1) == m * q + m;
    DivModIs(x + m, m, q + 1, x % m);
  }

  lemma MulDivBelow(a: nat, m: nat)
    requires m > 0
    ensures m * (a / m) <= a
  {
    assert a == m * (a / m) + a % m;
  }

  lemma FloorAdd(a: nat, b: nat, m: nat)
    requires m > 0
    ensures a / m + b / m <= (a + b) / m
  {
    var q, r := a / m, b / m;
    MulDivBelow(a, m);
    MulDivBelow(b, m);
    assert m * (q + r) == m * q + m * r;
    DivLower(a + b, m, q + r);
  }

  lemma ModNext(a: nat, n: nat)
    requires n > 0
    ensures (a % n + 1) % n == (a + 1) % n
  {
    var q, r := a / n, a % n;
    assert a == n * q + r && n * (q + 1) == n * q + n;
    if r + 1 == n {
      DivModIs(a + 1, n, q + 1, 0);
      DivModIs(r + 1, n, 1, 0);
    } else {
      DivModIs(a + 1, n, q, r + 1);
      DivModIs(r + 1, n, 0, r + 1);
    }
  }

  /** Two numbers less than `n` apart have equal remainders only if they are equal. */
  lemma ModEqual(a: nat, b: nat, n: nat)
    requires n > 0 && a <= b < a + n
    ensures a % n == b % n <==> a == b
  {
    var q := a / n;
    assert a == n * q + a % n && n * (q + 1) == n * q + n;
    if a % n + (b - a) < n {
      DivModIs(b, n, q, a % n + (b - a));
    } else {
      DivModIs(b, n, q + 1, a % n + (b - a) - n);
    }
  }
}
