/** Division facts shared by the table geometry and the buddy allocator. */
module Arith {

  function Div(x: nat, n: nat): nat
    requires n > 0
  {
    x / n
  }

  lemma MulAtLeast(d: int, k: int)
    requires d > 0 && k >= 1
    ensures d * k >= d
  {
    assert d * k == d * (k - 1) + d;
    assert d * (k - 1) >= 0;
  }

  /** Quotient and remainder are determined by x == d * q + r. */
  lemma DivUnique(x: int, d: int, q: int, r: int)
    requires d > 0 && 0 <= r < d && x == d * q + r
    ensures x / d == q && x % d == r
  {
    var q', r' := x / d, x % d;
    assert x == d * q' + r';
    assert d * (q' - q) == r - r';
    if q' > q {
      MulAtLeast(d, q' - q);
      assert false;
    }
    if q' < q {
      MulAtLeast(d, q - q');
      assert false;
    }
  }

  lemma DivDiv(x: nat, a: nat, b: nat)
    requires a > 0 && b > 0
    ensures a * b > 0 && (x / a) / b == x / (a * b)
  {
    var q := x / a;
    var t := q / b;
    var r1, r2 := x % a, q % b;
    assert x == a * q + r1 && q == b * t + r2;
    assert x == (a * b) * t + (a * r2 + r1) by {
      assert a * (b * t + r2) == (a * b) * t + a * r2;
    }
    assert a * r2 + r1 < a * b by {
      MulAtLeast(a, b - r2);
      assert a * (b - r2) == a * b - a * r2;
    }
    DivUnique(x, a * b, t, a * r2 + r1);
  }

  lemma EvenMultiple(n: nat, q: nat)
    requires n > 0 && q % 2 == 0
    ensures (n * q) % (2 * n) == 0 && (n * q) / (2 * n) == q / 2
  {
    var h := q / 2;
    assert q == 2 * h;
    assert n * q == (2 * n) * h;
    DivUnique(n * q, 2 * n, h, 0);
  }

  lemma MultipleOf(n: nat, q: nat)
    requires n > 0
    ensures (n * q) % n == 0 && (n * q) / n == q
  {
    DivUnique(n * q, n, q, 0);
  }

  lemma NextMultiple(n: nat, q: nat)
    ensures n * q + n == n * (q + 1)
    ensures q > 0 ==> n * q - n == n * (q - 1) && n * q >= n
  {
    if q > 0 {
      assert n * q == n * (q - 1) + n;
      assert n * (q - 1) >= 0;
    }
  }

  lemma FlipEven(n: nat, x: nat)
    requires n > 0 && x % n == 0 && (x / n) % 2 == 0
    ensures x % (2 * n) == 0
    ensures (x + n) % n == 0 && ((x + n) / n) % 2 == 1
  {
    var q := x / n;
    assert x == n * q;
    EvenMultiple(n, q);
    NextMultiple(n, q);
    MultipleOf(n, q + 1);
  }

  lemma FlipOdd(n: nat, x: nat)
    requires n > 0 && x % n == 0 && (x / n) % 2 == 1
    ensures x >= n && (x - n) % (2 * n) == 0
    ensures (x - n) % n == 0 && ((x - n) / n) % 2 == 0
  {
    var q := x / n;
    assert x == n * q;
    NextMultiple(n, q);
    EvenMultiple(n, q - 1);
    MultipleOf(n, q - 1);
  }

  lemma HalveMultiple(n: nat, x: nat)
    requires n > 0 && x % (2 * n) == 0
    ensures x % n == 0 && (x / n) % 2 == 0
  {
    var q := x / (2 * n);
    assert x == (2 * n) * q;
    assert (2 * n) * q == n * (2 * q);
    MultipleOf(n, 2 * q);
  }

  /** Multiples are at least their modulus apart. */
  lemma NextAligned(n: nat, x: nat, y: nat)
    requires n > 0 && x % n == 0 && y % n == 0 && x < y
    ensures x + n <= y
  {
    var p, q := x / n, y / n;
    assert x == n * p && y == n * q;
    if q <= p {
      assert false;
    }
    MulAtLeast(n, q - p);
    assert n * (q - p) == n * q - n * p;
  }

  lemma RoundDown(n: nat, x: nat)
    requires n > 0
    ensures (x - x % n) % n == 0
  {
    var q := x / n;
    assert x - x % n == n * q;
    MultipleOf(n, q);
  }
}
