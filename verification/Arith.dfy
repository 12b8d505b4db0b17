/** Facts about division with a variable divisor. */
module Arith {

  lemma SmallMultiple(m: nat, d: int)
    ensures d >= 1 ==> m * d >= m
    ensures d <= -1 ==> m * d <= 0 - m
  {
    if d >= 1 {
      assert m * d == m + m * (d - 1);
      assert m * (d - 1) >= 0;
    } else if d <= -1 {
      assert m * d == 0 - m + m * (d + 1);
      assert m * (0 - (d + 1)) >= 0;
    }
  }

  /** Quotient and remainder are determined by their defining equation. */
  lemma DivModUnique(x: int, m: nat, q: int, r: nat)
    requires r < m && x == m * q + r
    ensures x / m == q && x % m == r
  {
    var d := x / m - q;
    assert x == m * (x / m) + x % m;
    assert m * d == m * (x / m) - m * q;
    SmallMultiple(m, d);
  }

  lemma MulMod(m: nat, q: int)
    requires m > 0
    ensures (m * q) % m == 0 && (m * q) / m == q
  {
    DivModUnique(m * q, m, q, 0);
  }

  /** Taking the remainder off gives a multiple, and so does the next one. */
  lemma RoundDown(x: nat, m: nat)
    requires m > 0
    ensures (x - x % m) % m == 0 && (x - x % m + m) % m == 0
  {
    MulMod(m, x / m);
    MulMod(m, x / m + 1);
    assert x - x % m == m * (x / m);
    assert x - x % m + m == m * (x / m + 1);
  }

  /** Adding a multiple does not change the remainder. */
  lemma ModAddMultiple(x: int, y: int, m: nat)
    requires m > 0 && y % m == 0
    ensures (x + y) % m == x % m && (x - y) % m == x % m
  {
    var a, b := x / m, y / m;
    assert x == m * a + x % m && y == m * b;
    assert m * (a + b) == m * a + m * b;
    assert m * (a - b) == m * a - m * b;
    DivModUnique(x + y, m, a + b, x % m);
    DivModUnique(x - y, m, a - b, x % m);
  }

  /** Distinct multiples are at least one divisor apart. */
  lemma MultiplesApart(a: int, b: int, m: nat)
    requires m > 0 && a % m == 0 && b % m == 0 && a < b
    ensures a + m <= b
  {
    ModAddMultiple(b, a, m);
    var d := (b - a) / m;
    assert b - a == m * d;
    SmallMultiple(m, d);
  }
}
