/** Java's 32-bit `int` and its integer operators, stated over Dafny's unbounded `int`. */
module JavaInt {

  const IntMin: int := -0x8000_0000
  const IntMax: int := 0x7fff_ffff
  const TwoTo32: int := 0x1_0000_0000

  /** The values of Java's `int` (Integer.MIN_VALUE .. Integer.MAX_VALUE). */
  type Int32 = x: int | IntMin <= x <= IntMax

  function Abs(a: int): nat
  {
    if a < 0 then -a else a
  }

  function Min(a: int, b: int): int
  {
    if a <= b then a else b
  }

  function Max(a: int, b: int): int
  {
    if a >= b then a else b
  }

  /** Java's `/` on `int` and `long`: the quotient rounded toward zero
      (Dafny's own `/` is Euclidean and differs for negative dividends). */
  function Div(a: int, b: int): (q: int)
    requires b != 0
    ensures Abs(a - q * b) < Abs(b)
    ensures a - q * b == 0 || (a - q * b < 0 <==> a < 0)
  {
    var m := Abs(a) / Abs(b);
    DivAbs(a, b, m);
    if (a < 0) == (b < 0) then m else -m
  }

  /** The remainder facts of the unsigned quotient, from which Div's contract follows. */
  lemma DivAbs(a: int, b: int, m: int)
    requires b != 0 && m == Abs(a) / Abs(b)
    ensures 0 <= Abs(a) - m * Abs(b) < Abs(b)
    ensures (a < 0) == (b < 0) ==> a - m * b == (if a < 0 then -(Abs(a) - m * Abs(b)) else Abs(a) - m * Abs(b))
    ensures (a < 0) != (b < 0) ==> a - (-m) * b == (if a < 0 then -(Abs(a) - m * Abs(b)) else Abs(a) - m * Abs(b))
  {
    if b < 0 {
      assert m * b == -(m * Abs(b));
    } else {
      assert m * b == m * Abs(b);
    }
  }

  /** Truncating division is odd in its dividend: Java's `(-a)/b == -(a/b)`,
      which Euclidean division does not satisfy. */
  lemma {:induction false} DivNegate(a: int, b: int)
    requires b != 0
    ensures Div(-a, b) == -Div(a, b)
  {
    assert Abs(-a) == Abs(a);
  }

  /** Dividing an exact multiple gives back the factor. */
  lemma {:induction false} DivMultiple(k: int, b: int)
    requires b != 0
    ensures Div(k * b, b) == k
  {
    var q := Div(k * b, b);
    var r := k * b - q * b;
    assert r == (k - q) * b;
    if k - q != 0 {
      MulAbsAtLeast(k - q, b);
      assert false;
    }
  }

  lemma MulAbsAtLeast(c: int, b: int)
    requires c != 0
    ensures Abs(c * b) >= Abs(b)
  {
    if c > 0 && b >= 0 {
      assert c * b >= b;
    } else if c > 0 {
      assert c * b <= b;
    } else if b >= 0 {
      assert c * b <= -b;
    } else {
      assert c * b >= -b;
    }
  }

  /** A quotient of a total lying between n*lo and n*hi lies between lo and hi. */
  lemma {:induction false} DivBetween(t: int, n: int, lo: int, hi: int)
    requires n > 0
    requires n * lo <= t <= n * hi
    ensures lo <= Div(t, n) <= hi
  {
    var q := Div(t, n);
    assert -n < t - q * n < n;
    MulShift(q, n);
    MulLess(lo, q + 1, n);
    MulLess(q - 1, hi, n);
  }

  lemma MulMonotone(a: int, b: int, n: int)
    requires a <= b && n > 0
    ensures n * a <= n * b
  {
    assert n * b - n * a == n * (b - a);
  }

  lemma MulShift(a: int, n: int)
    ensures n * (a + 1) == a * n + n && n * (a - 1) == a * n - n
  {
  }

  lemma MulLess(a: int, b: int, n: int)
    requires n > 0 && n * a < n * b
    ensures a < b
  {
    if a >= b {
      MulMonotone(b, a, n);
    }
  }

  lemma MulDistributes(m: int, k: int, v: int)
    ensures (m + k) * v == m * v + k * v
  {
  }

  /** The value Java stores when an `int` result leaves the 32-bit range
      (two's-complement wrap-around). */
  function Wrap32(v: int): (r: Int32)
    ensures (r - v) % TwoTo32 == 0
    ensures IntMin <= v <= IntMax ==> r == v
  {
    (v - IntMin) % TwoTo32 + IntMin
  }
}
