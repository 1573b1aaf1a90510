/** Python's `/` on integers: the quotient rounded to the nearest number with a 53-bit significand.

    Quotients of page counts stay between 1/100 and 2^53, far from the limits of the binary64
    exponent (section 3.3 of IEEE 754-2019), so the exponent is left unbounded here. */
module Division {
  const P52: int := 0x10_0000_0000_0000
  const P53: int := 0x20_0000_0000_0000

  /** x * 2^e, by doubling and halving. */
  function Shift(x: real, e: int): real
    decreases if e < 0 then -e else e
  {
    if e == 0 then x
    else if e > 0 then Shift(2.0 * x, e - 1)
    else Shift(x / 2.0, e + 1)
  }

  function Value(m: int, e: int): real {
    Shift(m as real, e)
  }

  ghost predicate Representable(y: real) {
    exists m: int, e: int :: -P53 <= m <= P53 && y == Value(m, e)
  }

  function Distance(x: real, y: real): real {
    if x <= y then y - x else x - y
  }

  /** Correct rounding, as in section 4.3.1 of IEEE 754-2019. */
  ghost predicate Nearest(x: real, y: real) {
    Representable(y) && forall z | Representable(z) :: Distance(x, y) <= Distance(x, z)
  }

  /** The nearest integer, ties to even. */
  function RoundHalfEven(x: real): (m: int)
    ensures Distance(x, m as real) <= 0.5
  {
    var q := x.Floor;
    if x - q as real < 0.5 || (x - q as real == 0.5 && q % 2 == 0) then q else q + 1
  }

  /** Scales n/d by powers of two into [2^52, 2^53): the result is (n', d', e) with n/d == n'/d' * 2^e. */
  function Normalise(n: nat, d: nat, e: int): (r: (nat, nat, int))
    requires n > 0 && d > 0
    ensures r.1 > 0 && P52 * r.1 <= r.0 < P53 * r.1
    decreases if n >= P53 * d then n - d else if n < P52 * d then P52 * d - n else 0
  {
    if n >= P53 * d then Normalise(n, 2 * d, e + 1)
    else if n < P52 * d then Normalise(2 * n, d, e - 1)
    else (n, d, e)
  }

  function Quotient(n: nat, d: nat): real
    requires d > 0
  {
    n as real / d as real
  }

  /** `total / page_size`. */
  function TrueDivide(t: nat, p: nat): real
    requires p > 0
  {
    if t == 0 then 0.0
    else
      var (n, d, e) := Normalise(t, p, 0);
      Value(RoundHalfEven(Quotient(n, d)), e)
  }

  /** `math.ceil` on a float is exact. */
  function Ceil(y: real): int {
    -(-y).Floor
  }

  /** The exact integer ceiling. */
  function CeilDiv(t: nat, p: nat): (k: nat)
    requires p > 0
  {
    (t + p - 1) / p
  }

  // Laws of Shift. Each is an induction on the exponent with linear steps.

  lemma ShiftStep(x: real, e: int)
    ensures Shift(x, e + 1) == Shift(2.0 * x, e)
  {
    assert (2.0 * x) / 2.0 == x;
  }

  lemma {:induction false} ShiftSubtract(x: real, y: real, e: int)
    ensures Shift(x, e) - Shift(y, e) == Shift(x - y, e)
    decreases if e < 0 then -e else e
  {
    if e > 0 {
      ShiftSubtract(2.0 * x, 2.0 * y, e - 1);
      assert 2.0 * x - 2.0 * y == 2.0 * (x - y);
    } else if e < 0 {
      ShiftSubtract(x / 2.0, y / 2.0, e + 1);
      assert x / 2.0 - y / 2.0 == (x - y) / 2.0;
    }
  }

  lemma {:induction false} ShiftSign(x: real, e: int)
    ensures x >= 0.0 ==> Shift(x, e) >= 0.0
    ensures x > 0.0 ==> Shift(x, e) > 0.0
    decreases if e < 0 then -e else e
  {
    if e > 0 {
      ShiftSign(2.0 * x, e - 1);
    } else if e < 0 {
      ShiftSign(x / 2.0, e + 1);
    }
  }

  lemma ShiftMonotone(x: real, y: real, e: int)
    ensures x <= y ==> Shift(x, e) <= Shift(y, e)
    ensures x < y ==> Shift(x, e) < Shift(y, e)
  {
    ShiftSubtract(y, x, e);
    ShiftSign(y - x, e);
  }

  lemma {:induction false} ShiftTimesP53(x: real, e: int)
    ensures Shift(9007199254740992.0 * x, e) == 9007199254740992.0 * Shift(x, e)
    decreases if e < 0 then -e else e
  {
    if e > 0 {
      ShiftTimesP53(2.0 * x, e - 1);
      assert 9007199254740992.0 * (2.0 * x) == 2.0 * (9007199254740992.0 * x);
    } else if e < 0 {
      ShiftTimesP53(x / 2.0, e + 1);
      assert 9007199254740992.0 * (x / 2.0) == (9007199254740992.0 * x) / 2.0;
    }
  }

  lemma {:induction false} ShiftDistance(x: real, a: real, b: real, e: int)
    requires Distance(x, a) <= Distance(x, b)
    ensures Distance(Shift(x, e), Shift(a, e)) <= Distance(Shift(x, e), Shift(b, e))
    decreases if e < 0 then -e else e
  {
    if e > 0 {
      ShiftDistance(2.0 * x, 2.0 * a, 2.0 * b, e - 1);
    } else if e < 0 {
      ShiftDistance(x / 2.0, a / 2.0, b / 2.0, e + 1);
    }
  }

  // Normalising keeps the quotient.

  lemma HalveQuotient(n: nat, d: nat)
    requires d > 0
    ensures Quotient(n, d) == 2.0 * Quotient(n, 2 * d)
  {
    SameTimes(Quotient(n, d), 2.0 * Quotient(n, 2 * d), d as real);
  }

  lemma DoubleQuotient(n: nat, d: nat)
    requires d > 0
    ensures Quotient(2 * n, d) == 2.0 * Quotient(n, d)
  {
    SameTimes(Quotient(2 * n, d), 2.0 * Quotient(n, d), d as real);
  }

  lemma SameTimes(a: real, b: real, s: real)
    requires s > 0.0 && a * s == b * s
    ensures a == b
  {
    assert (a - b) * s == 0.0;
  }

  /** Whatever each normalising step keeps, normalising keeps. */
  lemma {:induction false} NormaliseKeeps(f: (nat, nat, int) -> real, n: nat, d: nat, e: int)
    requires n > 0 && d > 0
    requires forall a: nat, b: nat, c: int | b > 0 ::
      f(a, b, c) == f(a, 2 * b, c + 1) && f(a, b, c) == f(2 * a, b, c - 1)
    ensures var r := Normalise(n, d, e); f(n, d, e) == f(r.0, r.1, r.2)
    decreases if n >= P53 * d then n - d else if n < P52 * d then P52 * d - n else 0
  {
    if n >= P53 * d {
      NormaliseKeeps(f, n, 2 * d, e + 1);
    } else if n < P52 * d {
      NormaliseKeeps(f, 2 * n, d, e - 1);
    }
  }

  lemma NormaliseKeepsQuotient(t: nat, p: nat)
    requires t > 0 && p > 0
    ensures var r := Normalise(t, p, 0); Quotient(t, p) == Shift(Quotient(r.0, r.1), r.2)
  {
    var f := (n: nat, d: nat, e: int) => if d > 0 then Shift(Quotient(n, d), e) else 0.0;
    forall a: nat, b: nat, c: int | b > 0
      ensures f(a, b, c) == f(a, 2 * b, c + 1) && f(a, b, c) == f(2 * a, b, c - 1)
    {
      HalveQuotient(a, b);
      ShiftStep(Quotient(a, 2 * b), c);
      DoubleQuotient(a, b);
      ShiftStep(Quotient(a, b), c - 1);
    }
    NormaliseKeeps(f, t, p, 0);
    assert f(t, p, 0) == Quotient(t, p);
  }

  lemma QuotientRange(n: nat, d: nat)
    requires d > 0 && P52 * d <= n < P53 * d
    ensures P52 as real <= Quotient(n, d) < P53 as real
  {
    var q, r := Quotient(n, d), d as real;
    assert q * r == n as real;
    Compare(q, P52 as real, r);
    Compare(q, P53 as real, r);
  }

  lemma Compare(a: real, b: real, s: real)
    requires s > 0.0
    ensures a < b <==> a * s < b * s
  {
    assert b * s - a * s == (b - a) * s;
  }

  // Correct rounding.

  lemma RoundIsNearestInteger(x: real, k: int)
    ensures Distance(x, RoundHalfEven(x) as real) <= Distance(x, k as real)
  {
    var q := x.Floor;
    assert q as real <= x < (q + 1) as real;
    if k <= q {
      assert k as real <= q as real;
    } else {
      assert k as real >= (q + 1) as real;
    }
  }

  lemma RoundStaysInBinade(x: real)
    requires P52 as real <= x < P53 as real
    ensures P52 <= RoundHalfEven(x) <= P53
  {
    assert P52 <= x.Floor < P53;
  }

  /** At a smaller exponent, a coarser number is still an integer multiple of the unit. */
  lemma {:induction false} CoarserIsInteger(m: int, e: int, f: int) returns (j: int)
    requires f >= e
    ensures Shift(m as real, f) == Shift(j as real, e)
    decreases f - e
  {
    if f == e {
      j := m;
    } else {
      ShiftStep(m as real, f - 1);
      assert (2 * m) as real == 2.0 * m as real;
      j := CoarserIsInteger(2 * m, e, f - 1);
    }
  }

  /** A finer number stays below 2^52 units. */
  lemma {:induction false} FinerIsBelow(m: int, e: int, f: int)
    requires f < e && m <= P53
    ensures Shift(m as real, f) <= Shift(P52 as real, e)
    decreases e - f
  {
    ShiftStep(P52 as real, e - 1);
    assert P53 as real == 2.0 * P52 as real;
    if f == e - 1 {
      ShiftMonotone(m as real, P53 as real, f);
    } else {
      FinerIsBelow(m, e - 1, f);
      ShiftMonotone(P52 as real, P53 as real, e - 1);
    }
  }

  lemma NoneCloser(x: real, e: int, m: int, f: int)
    requires x >= P52 as real && m <= P53
    ensures Distance(Shift(x, e), Shift(RoundHalfEven(x) as real, e)) <= Distance(Shift(x, e), Shift(m as real, f))
  {
    var r := RoundHalfEven(x) as real;
    if f >= e {
      var j := CoarserIsInteger(m, e, f);
      RoundIsNearestInteger(x, j);
      ShiftDistance(x, r, j as real, e);
    } else {
      FinerIsBelow(m, e, f);
      RoundIsNearestInteger(x, P52);
      ShiftDistance(x, r, P52 as real, e);
      ShiftMonotone(P52 as real, x, e);
    }
  }

  /** The model of `/` is correctly rounded, whatever the operands. */
  lemma DivisionIsCorrectlyRounded(t: nat, p: nat)
    requires p > 0
    ensures Nearest(Quotient(t, p), TrueDivide(t, p))
  {
    var q, y := Quotient(t, p), TrueDivide(t, p);
    if t == 0 {
      assert y == Value(0, 0);
      assert q == 0.0;
    } else {
      var (n, d, e) := Normalise(t, p, 0);
      NormaliseKeepsQuotient(t, p);
      QuotientRange(n, d);
      RoundStaysInBinade(Quotient(n, d));
      forall z | Representable(z)
        ensures Distance(q, y) <= Distance(q, z)
      {
        var m: int, f: int :| -P53 <= m <= P53 && z == Value(m, f);
        NoneCloser(Quotient(n, d), e, m, f);
      }
    }
  }

  // The ceiling.

  lemma CeilDivBounds(t: nat, p: nat)
    requires p > 0
    ensures (CeilDiv(t, p) - 1) * p < t <= CeilDiv(t, p) * p
    ensures CeilDiv(t, p) <= t
  {
    var k := CeilDiv(t, p);
    assert t + p - 1 == k * p + (t + p - 1) % p;
    assert (k - 1) * p == k * p - p;
    AtMostTimes(k - 1, p);
  }

  lemma AtMostTimes(a: int, p: nat)
    requires p > 0
    ensures a <= 0 || a <= a * p
  {
    if a > 0 {
      assert a * (p - 1) >= 0;
    }
  }

  lemma QuotientAtMostCeiling(t: nat, p: nat, k: int)
    requires p > 0 && t <= k * p
    ensures Quotient(t, p) <= k as real
  {
    var q, r := Quotient(t, p), p as real;
    assert q * r == t as real;
    assert (k * p) as real == k as real * r;
    Compare(k as real, q, r);
  }

  /** A quotient above the integer j exceeds it by at least 1/p. */
  lemma QuotientAbove(t: nat, p: nat, j: int)
    requires p > 0 && j * p < t
    ensures j as real + Quotient(1, p) <= Quotient(t, p)
  {
    var q, r, u := Quotient(t, p), p as real, Quotient(1, p);
    assert q * r == t as real && u * r == 1.0;
    assert (j * p) as real == j as real * r;
    AddTimes(j as real, u, r);
    Compare(q, j as real + u, r);
  }

  lemma AddTimes(a: real, b: real, s: real)
    ensures (a + b) * s == a * s + b * s
  {
  }

  lemma QuotientAtMost(t: nat, p: nat)
    requires p > 0 && t <= P53
    ensures Quotient(t, p) <= 9007199254740992.0 * Quotient(1, p)
  {
    var r, u := p as real, Quotient(1, p);
    assert u * r == 1.0 && Quotient(t, p) * r == t as real;
    assert (9007199254740992.0 * u) * r == 9007199254740992.0;
    Compare(9007199254740992.0 * u, Quotient(t, p), r);
  }

  /** Half a unit in the last place is at most 1/p, and less unless x is a power of two. */
  lemma HalfUnit(t: nat, p: nat, x: real, e: int)
    requires 0 < t <= P53 && p > 0
    requires x >= P52 as real && Shift(x, e) == Quotient(t, p)
    ensures Shift(0.5, e) <= Quotient(1, p)
    ensures x > P52 as real ==> Shift(0.5, e) < Quotient(1, p)
  {
    QuotientAtMost(t, p);
    ShiftTimesP53(0.5, e);
    ShiftMonotone(P52 as real, x, e);
  }

  /** Up to a total of 2^53 the float quotient never falls to the integer below the exact quotient. */
  lemma StrictlyAboveFloor(t: nat, p: nat)
    requires 0 < t <= P53 && p > 0
    ensures Quotient(t, p) - TrueDivide(t, p) < Quotient(1, p)
  {
    var (n, d, e) := Normalise(t, p, 0);
    NormaliseKeepsQuotient(t, p);
    QuotientRange(n, d);
    var x := Quotient(n, d);
    var r := RoundHalfEven(x) as real;
    HalfUnit(t, p, x, e);
    ShiftSubtract(x, r, e);
    ShiftMonotone(x - r, 0.5, e);
    if x == P52 as real {
      RoundIsNearestInteger(x, P52);
      assert r == x;
      ShiftSign(0.5, e);
    }
  }

  /** `ceil(total / page_size)` is the integer ceiling for every total up to 2^53. */
  lemma FloatCeilingIsExact(t: nat, p: nat)
    requires t <= P53 && p > 0
    ensures Ceil(TrueDivide(t, p)) == CeilDiv(t, p)
  {
    var k, q, y := CeilDiv(t, p), Quotient(t, p), TrueDivide(t, p);
    CeilDivBounds(t, p);
    if t > 0 {
      QuotientAtMostCeiling(t, p, k);
      QuotientAbove(t, p, k - 1);
      DivisionIsCorrectlyRounded(t, p);
      StrictlyAboveFloor(t, p);
      assert Representable(k as real) by {
        assert k as real == Value(k, 0);
      }
      assert y <= k as real;
      assert y > k as real - 1.0;
    }
  }

  /** One row more than 2^53, on pages of one row, and the last page is lost. */
  lemma FloatCeilingFailsAbove2To53()
    ensures Ceil(TrueDivide(P53 + 1, 1)) == P53
    ensures CeilDiv(P53 + 1, 1) == P53 + 1
  {
    assert Normalise(P53 + 1, 1, 0) == Normalise(P53 + 1, 2, 1) == (P53 + 1, 2, 1);
    var x := Quotient(P53 + 1, 2);
    assert x == P52 as real + 0.5;
    assert x.Floor == P52;
    assert RoundHalfEven(x) == P52;
    assert Shift(P52 as real, 1) == Shift(2.0 * P52 as real, 0);
  }

  /** Over the page sizes the request schema allows, the float ceiling is right for all totals up to a bound exactly
      when that bound is at most 2^53. */
  lemma FloatCeilingIsExactIff(bound: nat)
    ensures (forall t: nat, p: nat | t <= bound && 1 <= p <= 100 :: Ceil(TrueDivide(t, p)) == CeilDiv(t, p))
            <==> bound <= P53
  {
    if bound <= P53 {
      forall t: nat, p: nat | t <= bound && 1 <= p <= 100
        ensures Ceil(TrueDivide(t, p)) == CeilDiv(t, p)
      {
        FloatCeilingIsExact(t, p);
      }
    } else {
      FloatCeilingFailsAbove2To53();
      assert Ceil(TrueDivide(P53 + 1, 1)) != CeilDiv(P53 + 1, 1);
    }
  }
}
