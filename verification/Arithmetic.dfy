/** Division and rounding down. */
module Arithmetic {

  lemma {:induction false} Division(n: nat, d: nat)
    requires d > 0
    ensures d * (n / d) <= n < d * (n / d) + d
  {
  }

  lemma {:induction false} MulMono(d: nat, i: nat, j: nat)
    requires i <= j
    ensures d * i <= d * j
  {
  }

  lemma {:induction false} DivUnique(n: nat, d: nat, q: nat)
    requires d > 0 && d * q <= n < d * q + d
    ensures n / d == q
  {
    Division(n, d);
    if n / d < q {
      MulMono(d, n / d + 1, q);
    } else if q < n / d {
      MulMono(d, q + 1, n / d);
    }
  }

  lemma {:induction false} FloorAtLeast(n: nat, d: nat, q: nat)
    requires d > 0 && d * q <= n
    ensures q <= n / d
  {
    Division(n, d);
    if n / d < q {
      MulMono(d, n / d + 1, q);
    }
  }

  /** Rounding down after adding loses no more than rounding down each part. */
  lemma {:induction false} FloorsAdd(a: nat, b: nat, d: nat)
    requires d > 0
    ensures a / d + b / d <= (a + b) / d
  {
    Division(a, d);
    Division(b, d);
    var x, y := a / d, b / d;
    assert d * (x + y) == d * x + d * y;
    FloorAtLeast(a + b, d, x + y);
  }

  lemma {:induction false} MulNonNegative(a: nat, b: nat)
    ensures a * b >= 0
  {
  }

  /** The product divided, rounding down. */
  function MulDiv(a: nat, b: nat, d: nat): (q: nat)
    requires d > 0
    ensures d * q <= a * b < d * q + d
  {
    MulNonNegative(a, b);
    Division(a * b, d);
    a * b / d
  }

  lemma {:induction false} FloorMono(a: nat, b: nat, d: nat)
    requires a <= b && d > 0
    ensures a / d <= b / d
  {
    Division(a, d);
    FloorAtLeast(b, d, a / d);
  }

  lemma {:induction false} NestedBounds(n: nat, c: nat, d: nat, x: nat, q: nat)
    requires c * x <= n < c * x + c && d * q <= x < d * q + d
    ensures (c * d) * q <= n < (c * d) * q + c * d
  {
    MulMono(c, d * q, x);
    MulMono(c, x + 1, d * q + d);
    Distribute(c, d, q);
    assert c * (x + 1) == c * x + c;
  }

  lemma {:induction false} DivDiv(n: nat, c: nat, d: nat)
    requires c > 0 && d > 0
    ensures c * d > 0 && n / c / d == n / (c * d)
  {
    var x := n / c;
    var q := x / d;
    Division(n, c);
    Division(x, d);
    NestedBounds(n, c, d, x, q);
    MulMono(c, 1, d);
    DivUnique(n, c * d, q);
  }

  lemma {:induction false} Distribute(c: nat, d: nat, q: nat)
    ensures c * (d * q) == (c * d) * q && c * (d * q + d) == (c * d) * q + c * d
  {
  }

  function Pow2(n: nat): (p: nat)
    ensures p > n
  {
    if n == 0 then 1 else 2 * Pow2(n - 1)
  }

  lemma {:induction false} Pow2Mono(m: nat, n: nat)
    requires m <= n
    ensures Pow2(m) <= Pow2(n)
    decreases n
  {
    if m < n {
      Pow2Mono(m, n - 1);
    }
  }

  lemma {:induction false} ModUnique(n: nat, d: nat, q: nat, r: nat)
    requires d > 0 && n == d * q + r && r < d
    ensures n / d == q && n % d == r
  {
    DivUnique(n, d, q);
  }
}
