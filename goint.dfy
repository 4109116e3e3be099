/** Go's integer and float-to-integer arithmetic, which differs from Dafny's.
    Go's `/` truncates toward zero and `%` takes the sign of the dividend,
    whereas Dafny's `/` and `%` on `int` are Euclidean; Go's `int(f)`
    conversion of a float truncates toward zero. */
module GoInt {

  function Abs(a: int): nat {
    if a < 0 then -a else a
  }

  /** Go's `a / b`: the quotient truncated toward zero, so its magnitude is
      the quotient of the magnitudes and its sign is the sign of `a * b`. */
  function GoDiv(a: int, b: int): (q: int)
    requires b != 0
    ensures Abs(q) == Abs(a) / Abs(b)
    ensures q != 0 ==> (q < 0 <==> (a < 0) != (b < 0))
  {
    var m := Abs(a) / Abs(b);
    QuotientNonNegative(Abs(a), Abs(b));
    if (a < 0) == (b < 0) then m else -m
  }

  lemma QuotientNonNegative(n: nat, d: nat)
    requires d > 0
    ensures n / d >= 0
  {
  }

  /** Go's `a % b`: the remainder of the magnitudes, carrying the sign of `a`
      (Dafny's `%` is never negative). */
  function GoMod(a: int, b: int): int
    requires b != 0
  {
    if a >= 0 then Abs(a) % Abs(b) else -(Abs(a) % Abs(b))
  }

  lemma MulSigns(m: int, n: int)
    ensures (-m) * n == -(m * n) && m * (-n) == -(m * n) && (-m) * (-n) == m * n
  {
  }

  /** What truncated division takes away from the dividend: `q * b` is
      `(|a| / |b|) * |b|` carrying the sign of `a`. */
  lemma TruncatedProduct(a: int, b: int, q: int)
    requires b != 0 && q == GoDiv(a, b)
    ensures a >= 0 ==> a - q * b == Abs(a) % Abs(b)
    ensures a < 0 ==> a - q * b == -(Abs(a) % Abs(b))
  {
    var na: int, nb: int := Abs(a), Abs(b);
    var m := na / nb;
    var p := m * nb;
    assert na == p + na % nb;
    MulSigns(m, nb);
    if b > 0 {
      assert nb == b;
      if a < 0 {
        assert q == -m;
        assert q * b == -p;
      } else {
        assert q == m;
        assert q * b == p;
      }
    } else {
      assert b == -nb;
      if a < 0 {
        assert q == m;
        assert q * b == m * (-nb) == -p;
      } else {
        assert q == -m;
        assert q * b == (-m) * (-nb) == p;
      }
    }
  }

  /** Go's defining identity `(a / b) * b + a % b == a`, with the remainder
      smaller in magnitude than the divisor. */
  lemma GoDivModIdentity(a: int, b: int)
    requires b != 0
    ensures GoDiv(a, b) * b + GoMod(a, b) == a
    ensures Abs(GoMod(a, b)) < Abs(b)
  {
    TruncatedProduct(a, b, GoDiv(a, b));
  }

  /** Go's conversion `int(f)` of a float: truncation toward zero. */
  function Trunc(f: real): (t: int)
    ensures f >= 0.0 ==> t >= 0 && t as real <= f < t as real + 1.0
    ensures f < 0.0 ==> t <= 0 && t as real - 1.0 < f <= t as real
  {
    if f >= 0.0 then f.Floor else -((-f).Floor)
  }

  /** Truncating division is odd in its dividend: negating the dividend
      negates the quotient, which Euclidean division does not do. */
  lemma GoDivNegate(a: int, b: int)
    requires b != 0
    ensures GoDiv(-a, b) == -GoDiv(a, b)
  {
    assert Abs(-a) == Abs(a);
    if a == 0 {
      assert -a == a;
    } else {
      assert (-a < 0) != (a < 0);
    }
  }

  /** On a non-negative dividend and a positive divisor Go agrees with Dafny. */
  lemma GoModAgreesWhenNonNegative(a: int, b: int)
    requires a >= 0 && b > 0
    ensures GoDiv(a, b) == a / b && GoMod(a, b) == a % b
  {
    assert Abs(a) == a && Abs(b) == b;
  }

  /** On a negative dividend Go's remainder is minus the remainder of the
      magnitude, so it is negative unless `b` divides `a`: Go's `%` does not
      wrap a negative coordinate into `[0, b)`. */
  lemma GoModNegative(a: int, b: int)
    requires a < 0 && b > 0
    ensures GoMod(a, b) == -((-a) % b)
    ensures GoMod(a, b) < 0 <==> (-a) % b != 0
  {
    assert Abs(a) == -a && Abs(b) == b;
  }

  /** Euclidean division by a positive divisor is monotone in the dividend. */
  lemma DivMonotone(x: nat, y: nat, d: nat)
    requires d > 0 && x <= y
    ensures x / d <= y / d
  {
    var qx, qy := x / d, y / d;
    assert d * qx <= x by {
      assert x == d * qx + x % d;
    }
    assert y < d * (qy + 1) by {
      assert y == d * qy + y % d;
      assert d * (qy + 1) == d * qy + d;
    }
    MulCancel(d, qx, qy + 1);
  }

  /** A positive factor can be cancelled from a strict inequality. */
  lemma MulCancel(d: nat, m: int, n: int)
    requires d > 0 && d * m < d * n
    ensures m < n
  {
    if m >= n {
      MulMonotone(d, n, m);
    }
  }

  lemma MulMonotone(d: nat, m: int, n: int)
    requires m <= n
    ensures d * m <= d * n
  {
    assert d * n - d * m == d * (n - m);
  }

  /** Truncating division by a positive divisor is monotone too: a larger
      dividend never gives a smaller quotient. */
  lemma GoDivMonotone(a: int, b: int, d: int)
    requires d > 0 && a <= b
    ensures GoDiv(a, d) <= GoDiv(b, d)
  {
    if a >= 0 {
      GoModAgreesWhenNonNegative(a, d);
      GoModAgreesWhenNonNegative(b, d);
      DivMonotone(a, b, d);
    } else if b < 0 {
      DivMonotone(-b, -a, d);
      assert Abs(b) == -b && Abs(a) == -a;
    }
  }
}
