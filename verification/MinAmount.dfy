// The least amount at which an expired basket may still be completed
// (internal/biz/matching.go:714-731).

module MinAmount {

  const MAX_INT64 := 0x7FFF_FFFF_FFFF_FFFF
  const TWO_63 := 0x8000_0000_0000_0000
  const TWO_64 := 0x1_0000_0000_0000_0000
  const SCALE := 10000

  // The configured rate, clamped to 1..10000 with a default of 30 percent.
  function Rate(configured: int): (r: int)
    ensures 1 <= r <= SCALE
  {
    if configured <= 0 then 3000
    else if configured > SCALE then SCALE
    else configured
  }

  function MinComplete(target: int, configured: int): (m: int)
  {
    if target <= 0 then 0 else (target * Rate(configured) + 9999) / SCALE
  }

  // `m` is the least amount whose share of the target reaches the rate.
  lemma LeastSufficient(target: int, configured: int)
    requires target > 0
    ensures var m := MinComplete(target, configured);
            && 1 <= m <= target
            && m * SCALE >= target * Rate(configured)
            && forall k :: k * SCALE >= target * Rate(configured) <==> k >= m
  {
    var p := target * Rate(configured);
    var m := MinComplete(target, configured);
    assert p >= target by { Scaled(target, 1, Rate(configured)); }
    assert p <= target * SCALE by { Scaled(target, Rate(configured), SCALE); }
    assert m == (p + 9999) / SCALE;
    assert m * SCALE <= p + 9999 < m * SCALE + SCALE;
  }

  // The share of the target, in parts of 10000, that a configuration asks for: what is
  // configured, three tenths when nothing is, and all of it when more is.
  predicate Asks(configured: int, share: int)
  {
    && (1 <= configured <= 10000 ==> share == configured)
    && (configured <= 0 ==> share == 3000)
    && (configured > 10000 ==> share == 10000)
  }

  // An amount reaches the minimum exactly when it is that share of the target or more.
  lemma MinimumIsShare(target: int, configured: int, share: int)
    requires target > 0 && Asks(configured, share)
    ensures forall k :: k * 10000 >= target * share <==> k >= MinComplete(target, configured)
  {
    LeastSufficient(target, configured);
  }

  // The same for the 64-bit test, as long as nothing overflows.
  lemma PaysIsShare(target: int, configured: int, share: int, amount: int)
    requires target > 0 && Asks(configured, share) && target * share + 9999 <= 0x7FFF_FFFF_FFFF_FFFF
    ensures Pays(target, configured, amount) <==> amount * 10000 >= target * share
  {
    MinimumIsShare(target, configured, share);
    PaysIsMinimum(target, configured, amount);
  }

  lemma Scaled(t: int, a: int, b: int)
    requires t >= 0 && a <= b
    ensures t * a <= t * b
  {
    assert t * (b - a) >= 0;
  }

  lemma Monotone(t1: int, t2: int, r1: int, r2: int)
    requires t1 <= t2 && Rate(r1) <= Rate(r2)
    ensures MinComplete(t1, r1) <= MinComplete(t2, r2)
  {
    if t1 > 0 {
      Scaled(t1, Rate(r1), Rate(r2));
      Scaled(Rate(r2), t1, t2);
      LeastSufficient(t1, r1);
      LeastSufficient(t2, r2);
      assert t2 * Rate(r2) == Rate(r2) * t2 && t1 * Rate(r2) == Rate(r2) * t1;
    } else if t2 > 0 {
      LeastSufficient(t2, r2);
    }
  }

  // 64-bit two's complement arithmetic.
  function Wrap(x: int): (w: int)
    ensures -TWO_63 <= w <= MAX_INT64
  {
    (x + TWO_63) % TWO_64 - TWO_63
  }

  // Division truncates toward zero.
  function Quotient(x: int, d: int): int
    requires d > 0
  {
    if x >= 0 then x / d else -((-x) / d)
  }

  // Wrapping is the identity on 64-bit integers and repeats every 2^64.
  lemma WrapIs(x: int)
    ensures Wrap(x + 18446744073709551616) == Wrap(x)
    ensures -9223372036854775808 <= x <= 9223372036854775807 ==> Wrap(x) == x
  {
    assert (x + TWO_63 + TWO_64) % TWO_64 == (x + TWO_63) % TWO_64;
  }

  // The quotient is the integer next to the exact one on the side of zero.
  lemma QuotientIs(x: int, d: int)
    requires d > 0
    ensures var q := Quotient(x, d);
            && (x >= 0 ==> 0 <= x - q * d < d)
            && (x < 0 ==> -d < x - q * d <= 0)
  {
    if x < 0 {
      assert -x == (-x) / d * d + (-x) % d;
      assert Quotient(x, d) * d == -((-x) / d * d);
    }
  }

  // The computation step by step on 64-bit integers.
  function MinCompleteInt64(target: int, configured: int): int
  {
    if target <= 0 then 0
    else Quotient(Wrap(Wrap(target * Rate(configured)) + 9999), SCALE)
  }

  lemma WrapOnce(x: int, y: int)
    ensures Wrap(Wrap(x) + y) == Wrap(x + y)
  {
    var q := (x + TWO_63) / TWO_64;
    assert Wrap(x) == x - q * TWO_64;
    var a := x + y + TWO_63;
    assert (a - q * TWO_64) % TWO_64 == a % TWO_64;
  }

  // The 64-bit computation is exact if and only if the numerator fits.
  lemma Int64Exact(target: int, configured: int)
    requires 0 < target <= MAX_INT64
    ensures MinCompleteInt64(target, configured) == MinComplete(target, configured)
            <==> NoOverflow(target, configured)
  {
    var p := target * Rate(configured);
    assert p >= target by { Scaled(target, 1, Rate(configured)); }
    WrapOnce(p, 9999);
    var n := p + 9999;
    if n > MAX_INT64 {
      var q := (n + TWO_63) / TWO_64;
      assert q >= 1;
      assert Wrap(n) == n - q * TWO_64;
      if Wrap(n) >= 0 {
        assert n >= Wrap(n) + TWO_64;
      }
    }
  }

  // The 64-bit numerator does not wrap.
  predicate NoOverflow(target: int, configured: int)
  {
    target * Rate(configured) + 9999 <= MAX_INT64
  }

  // The test of the source: something is there, and it reaches the 64-bit minimum.
  predicate Pays(target: int, configured: int, amount: int)
  {
    amount > 0 && amount >= MinCompleteInt64(target, configured)
  }

  predicate TestedRight(target: int, configured: int, amount: int)
  {
    Pays(target, configured, amount) <==> amount >= MinComplete(target, configured)
  }

  // An overflow only makes the minimum smaller, by far.
  lemma OverflowLowers(target: int, configured: int)
    requires 0 < target <= MAX_INT64 && !NoOverflow(target, configured)
    ensures MinCompleteInt64(target, configured) < MinComplete(target, configured) - 1
    ensures MinComplete(target, configured) > 2
  {
    var p := target * Rate(configured);
    assert p >= target by { Scaled(target, 1, Rate(configured)); }
    WrapOnce(p, 9999);
    var n := p + 9999;
    var q := (n + TWO_63) / TWO_64;
    assert q >= 1 && Wrap(n) == n - q * TWO_64;
    assert Wrap(n) <= n - TWO_64;
  }

  // The test of an expiring basket is right for every amount below the target if and
  // only if the numerator fits, and then for every amount at all.
  lemma TestExact(target: int, configured: int)
    requires 0 < target <= MAX_INT64
    ensures (forall a :: 0 <= a < target ==> TestedRight(target, configured, a)) ==> NoOverflow(target, configured)
    ensures NoOverflow(target, configured) ==> forall a :: TestedRight(target, configured, a)
  {
    LeastSufficient(target, configured);
    if NoOverflow(target, configured) {
      Int64Exact(target, configured);
    } else {
      OverflowLowers(target, configured);
      assert !TestedRight(target, configured, MinComplete(target, configured) - 1);
    }
  }

  // Where nothing overflows the test is the test against the minimum.
  lemma PaysIsMinimum(target: int, configured: int, amount: int)
    requires target > 0 && NoOverflow(target, configured)
    ensures Pays(target, configured, amount) <==> amount >= MinComplete(target, configured)
  {
    assert target * Rate(configured) >= target by { Scaled(target, 1, Rate(configured)); }
    TestExact(target, configured);
    assert TestedRight(target, configured, amount);
  }

  // Up to this target no clamped rate can overflow; one above, the full rate does.
  lemma SafeTargets(target: int)
    requires 0 < target <= MAX_INT64
    ensures (forall configured :: MinCompleteInt64(target, configured) == MinComplete(target, configured))
            <==> target <= 922337203685476
  {
    if target <= 922337203685476 {
      forall configured ensures MinCompleteInt64(target, configured) == MinComplete(target, configured) {
        Scaled(target, Rate(configured), SCALE);
        Int64Exact(target, configured);
      }
    } else {
      Int64Exact(target, SCALE);
      assert MinCompleteInt64(target, SCALE) != MinComplete(target, SCALE);
    }
  }
}
