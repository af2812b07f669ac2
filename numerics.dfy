/**
 * The numeric building blocks that the source takes from Python and numpy,
 * over mathematical reals: `int()` on a float, `np.ceil`, `np.clip`, the
 * float `%` operator, `np.linspace`, and the `min`/`max` reductions.
 */
module Numerics {

  function Min(a: real, b: real): real { if a <= b then a else b }

  function Max(a: real, b: real): real { if a >= b then a else b }

  /** Python's `int(x)` on a float: truncation toward zero. */
  function Trunc(x: real): (n: int)
    ensures 0.0 <= x ==> 0 <= n && n as real <= x < n as real + 1.0
    ensures x < 0.0 ==> n <= 0 && n as real - 1.0 < x <= n as real
  {
    if x >= 0.0 then x.Floor else -((-x).Floor)
  }

  /** `np.ceil`: the least integer not below `x`. */
  function Ceil(x: real): (n: int)
    ensures x <= n as real < x + 1.0
  {
    -((-x).Floor)
  }

  /** `np.clip(x, lo, hi)`. */
  function Clip(x: real, lo: real, hi: real): (r: real)
    requires lo <= hi
    ensures lo <= r <= hi
    ensures lo <= x <= hi ==> r == x
    ensures x < lo ==> r == lo
    ensures hi < x ==> r == hi
  {
    if x < lo then lo else if x > hi then hi else x
  }

  /**
   * Python's float `x % m` for a positive modulus: the remainder has the sign
   * of the divisor, so it lies in [0, m), and `x` differs from it by a whole
   * number of moduli.
   */
  function FloorMod(x: real, m: real): (r: real)
    requires m > 0.0
    ensures 0.0 <= r < m
    ensures (x - r) / m == ((x - r) / m).Floor as real
  {
    var q := (x / m).Floor;
    FloorDivBounds(x, m, q);
    x - m * q as real
  }

  lemma FloorDivBounds(x: real, m: real, q: int)
    requires m > 0.0 && q == (x / m).Floor
    ensures m * q as real <= x < m * q as real + m
    ensures (m * q as real) / m == q as real
  {
    assert q as real <= x / m < q as real + 1.0;
    assert m * (x / m) == x;
    var qr := q as real;
    MulStrict(m, x / m, qr + 1.0);
    assert x < m * (qr + 1.0);
    assert m * (qr + 1.0) == m * qr + m;
    MulLe(m, qr, x / m);
    assert m * qr <= x;
  }

  lemma MulLe(m: real, a: real, b: real)
    requires m > 0.0 && a <= b
    ensures m * a <= m * b
  {
  }

  lemma MulStrict(m: real, a: real, b: real)
    requires m > 0.0 && a < b
    ensures m * a < m * b
  {
  }

  /**
   * `np.linspace(a, b, n)`: `n` evenly spaced samples from `a` to `b`, both
   * ends included, the last sample being `b` itself.
   */
  function Linspace(a: real, b: real, n: nat): (s: seq<real>)
    ensures |s| == n
    ensures n >= 1 ==> s[0] == a
    ensures n >= 2 ==> s[n - 1] == b
  {
    if n == 0 then []
    else if n == 1 then [a]
    else
      var step := (b - a) / (n - 1) as real;
      seq(n, k requires 0 <= k < n => if k == n - 1 then b else a + k as real * step)
  }

  /** Every sample of a linspace lies between its ends. */
  lemma LinspaceWithin(a: real, b: real, n: nat, k: nat)
    requires a <= b && k < n
    ensures a <= Linspace(a, b, n)[k] <= b
  {
    if n >= 2 && k < n - 1 {
      var step := (b - a) / (n - 1) as real;
      assert 0.0 <= step;
      assert step * (n - 1) as real == b - a;
      MulMonotone(k as real, (n - 1) as real, step);
      assert Linspace(a, b, n)[k] == a + k as real * step;
    }
  }

  /** Consecutive linspace samples are one step apart, so they never decrease when a <= b. */
  lemma LinspaceStep(a: real, b: real, n: nat, k: nat)
    requires n >= 2 && k + 1 < n
    ensures Linspace(a, b, n)[k + 1] - Linspace(a, b, n)[k] == (b - a) / (n - 1) as real
  {
    var step := (b - a) / (n - 1) as real;
    if k + 1 == n - 1 {
      assert step * (n - 1) as real == b - a;
    }
  }

  /** A quotient by a positive number lies between lo and hi when the dividend lies between their multiples. */
  lemma DivBetween(x: real, n: real, lo: real, hi: real)
    requires n > 0.0 && lo * n <= x <= hi * n
    ensures lo <= x / n <= hi
  {
    var q := x / n;
    assert q * n == x;
    if q < lo {
      MulStrict(n, q, lo);
    }
    if hi < q {
      MulStrict(n, hi, q);
    }
  }

  lemma MulMonotone(x: real, y: real, c: real)
    requires 0.0 <= x <= y && 0.0 <= c
    ensures 0.0 <= x * c <= y * c
  {
  }

  /** `np.min` over a non-empty array. */
  function SeqMin(s: seq<real>): (m: real)
    requires |s| > 0
    ensures m in s
    ensures forall x :: x in s ==> m <= x
  {
    if |s| == 1 then s[0]
    else
      assert s == [s[0]] + s[1..];
      Min(s[0], SeqMin(s[1..]))
  }

  /** `np.max` over a non-empty array. */
  function SeqMax(s: seq<real>): (m: real)
    requires |s| > 0
    ensures m in s
    ensures forall x :: x in s ==> x <= m
  {
    if |s| == 1 then s[0]
    else
      assert s == [s[0]] + s[1..];
      Max(s[0], SeqMax(s[1..]))
  }

  /** `.max()` over a non-empty integer array. */
  function IntMax(s: seq<int>): (m: int)
    requires |s| > 0
    ensures m in s
    ensures forall x :: x in s ==> x <= m
  {
    if |s| == 1 then s[0]
    else
      assert s == [s[0]] + s[1..];
      var t := IntMax(s[1..]);
      if s[0] >= t then s[0] else t
  }
}
