/** Number helpers: Python's `int(...)` and float remainder on exact reals, triangular
    numbers, powers of two, sums, and divisibility. */
module Arithmetic {

  datatype Option<+T> = None | Some(value: T)

  function Min(a: int, b: int): int {
    if a <= b then a else b
  }

  function Max(a: int, b: int): int {
    if a >= b then a else b
  }

  function Abs(a: int): int {
    if a < 0 then -a else a
  }

  /** Python's `int(x)` on a float: truncation toward zero. */
  function Truncate(x: real): int {
    if x >= 0.0 then x.Floor else -((-x).Floor)
  }

  /** Python's `x % y` on floats, for a positive `y`. */
  function FloatMod(x: real, y: real): real
    requires y > 0.0
  {
    x - (x / y).Floor as real * y
  }

  function Sum(s: seq<int>): int {
    if s == [] then 0 else Sum(s[..|s| - 1]) + s[|s| - 1]
  }

  function SumReal(s: seq<real>): real {
    if s == [] then 0.0 else SumReal(s[..|s| - 1]) + s[|s| - 1]
  }

  /** 1 + 2 + ... + n. */
  function Triangular(n: nat): nat {
    if n == 0 then 0 else Triangular(n - 1) + n
  }

  function Pow2(n: nat): (p: nat)
    ensures p >= 1
  {
    if n == 0 then 1 else 2 * Pow2(n - 1)
  }

  /** `d` divides `n`; zero is divided by everything. */
  ghost predicate Divides(d: int, n: int) {
    exists q: int :: d * q == n
  }

  lemma DividesMultiple(d: int, q: int)
    ensures Divides(d, d * q)
  {
  }

  lemma DividesSum(d: int, a: int, b: int)
    requires Divides(d, a) && Divides(d, b)
    ensures Divides(d, a + b) && Divides(d, a - b)
  {
    var p: int :| d * p == a;
    var q: int :| d * q == b;
    assert d * (p + q) == a + b && d * (p - q) == a - b;
  }

  lemma DividesScaled(d: int, a: int, k: int)
    requires Divides(d, a)
    ensures Divides(d, a * k)
  {
    var p: int :| d * p == a;
    assert d * (p * k) == a * k;
  }

  lemma DividesTransitive(d: int, e: int, n: int)
    requires Divides(d, e) && Divides(e, n)
    ensures Divides(d, n)
  {
    var q: int :| e * q == n;
    DividesScaled(d, e, q);
  }

  /** A positive divisor leaves remainder zero, and only then does it divide. */
  lemma DividesIffMod(d: int, n: int)
    requires d > 0
    ensures Divides(d, n) <==> n % d == 0
  {
    assert d * (n / d) + n % d == n;
    if Divides(d, n) {
      var q: int :| d * q == n;
      var e := q - n / d;
      assert d * e == n % d by {
        assert d * (q - n / d) == d * q - d * (n / d);
      }
      ProductOrder(d, e);
    }
  }

  /** A product with a positive factor lies on the same side as the other factor. */
  lemma ProductOrder(d: int, e: int)
    requires d > 0
    ensures e >= 1 ==> d * e >= d
    ensures e <= 0 ==> d * e <= 0
    ensures e <= -1 ==> d * e <= -d
  {
  }

  /** A positive factor keeps the order, and a larger number gives at least one `d` more. */
  lemma FactorOrder(d: int, p: int, q: int)
    requires d > 0
    ensures p <= q <==> d * p <= d * q
    ensures p < q <==> d * p + d <= d * q
  {
    ProductOrder(d, q - p);
    assert d * (q - p) == d * q - d * p;
  }

  /** A positive multiple of `d` is at least `d`. */
  lemma DividesAtLeast(d: int, n: int)
    requires d > 0 && n > 0 && Divides(d, n)
    ensures n >= d
  {
    var q: int :| d * q == n;
    ProductOrder(d, q);
  }

  lemma {:induction false} SumConcat(a: seq<int>, b: seq<int>)
    ensures Sum(a + b) == Sum(a) + Sum(b)
  {
    if b == [] {
      assert a + b == a;
    } else {
      SumConcat(a, b[..|b| - 1]);
      assert (a + b)[..|a + b| - 1] == a + b[..|b| - 1];
    }
  }

  /** A sum of non-negative parts is at least the sum of any prefix of them. */
  lemma {:induction false} SumPrefix(s: seq<int>, k: nat)
    requires k <= |s|
    requires forall i | 0 <= i < |s| :: s[i] >= 0
    ensures 0 <= Sum(s[..k]) <= Sum(s)
  {
    if |s| == 0 {
    } else if k == |s| {
      assert s[..k] == s;
      SumPrefix(s[..|s| - 1], |s| - 1);
      assert s[..|s| - 1][..|s| - 1] == s[..|s| - 1];
    } else {
      SumPrefix(s[..|s| - 1], k);
      assert s[..|s| - 1][..k] == s[..k];
    }
  }

  /** Multiplying by a positive real keeps the order. */
  lemma ScaleOrder(step: real, a: real, b: real)
    requires step > 0.0
    ensures a <= b <==> step * a <= step * b
    ensures a < b <==> step * a < step * b
  {
    if a < b {
      assert step * (b - a) > 0.0;
    } else if b < a {
      assert step * (a - b) > 0.0;
    }
  }

  lemma {:induction false} TriangularClosed(n: nat)
    ensures 2 * Triangular(n) == n * (n + 1)
  {
    if n > 0 {
      TriangularClosed(n - 1);
    }
  }

  lemma {:induction false} TriangularGrows(m: nat, n: nat)
    requires m <= n
    ensures Triangular(m) <= Triangular(n)
    ensures n <= Triangular(n)
  {
    if m < n {
      TriangularGrows(m, n - 1);
    } else if n > 0 {
      TriangularGrows(m - 1, n - 1);
    }
  }

  /** The floor of an exact quotient of integers is the integer quotient. */
  lemma FloorOfQuotient(x: real, n: int, d: int)
    requires d > 0 && x * d as real == n as real
    ensures x.Floor == n / d
  {
    var q := n / d;
    assert d * q <= n < d * q + d;
    assert q as real * d as real <= x * d as real;
    assert x * d as real < (q + 1) as real * d as real;
    ScaleOrder(d as real, q as real, x);
    ScaleOrder(d as real, x, (q + 1) as real);
  }
}
