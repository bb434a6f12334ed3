// The sampling divider and the limiter parameters derived from the configured
// mean rate (main.go, the `switch` on *rateLimit and the lines that build the
// limiter from it).
//
// The configured rate is a Go `int`; every value in this module is bounded by
// it in absolute value, so no 64-bit wrap-around can occur and unbounded
// integers model the integer expressions exactly. The base rate handed to the
// limiter is that integer quotient converted to `rate.Limit`, a float64; the
// conversion is exact only up to 2^53 in magnitude and is not modelled. The
// jitter (a float64 divided by the divider) is
// not modelled. Nor is the clamp the jitter task applies to a redrawn rate:
// it replaces the new limit by 1 only when the limit is strictly negative, so
// a redrawn limit in [0, 1) is kept as it is.
module RateLadder {

  /** The divider the switch picks for a configured rate: 1 unless one of the
      six bands matches (Go's `rateDivider` starts at 1 and keeps it). */
  function RateDivider(rate: int): (d: int)
    ensures d >= 1
  {
    if 5000 <= rate < 10000 then 3
    else if 10000 <= rate < 50000 then 7
    else if 50000 <= rate < 100000 then 11
    else if 100000 <= rate < 500000 then 19
    else if 500000 <= rate < 1000000 then 41
    else if 1000000 <= rate then 97
    else 1
  }

  function Abs(x: int): nat
  {
    if x < 0 then -x else x
  }

  /** The quotient of two naturals, rounded down. */
  function FloorQuotient(n: nat, d: nat): (m: nat)
    requires d >= 1
    ensures m * d <= n < m * d + d
  {
    n / d
  }

  /** Go's `/` on signed integers: the quotient truncated toward zero, so its
      magnitude is that of the exact quotient rounded down and its sign is the
      product of the operands' signs. */
  function GoQuotient(a: int, b: int): (q: int)
    requires b != 0
    ensures Abs(q) * Abs(b) <= Abs(a) < Abs(q) * Abs(b) + Abs(b)
    ensures q != 0 ==> (q > 0 <==> (a < 0) == (b < 0))
  {
    var m: int := FloorQuotient(Abs(a), Abs(b));
    if (a < 0) == (b < 0) then m else -m
  }

  /** Go's `x >> 1` on a signed integer: an arithmetic shift, i.e. the half of
      `x` rounded toward minus infinity (unlike `x / 2` in Go for negative x,
      but like Dafny's Euclidean `x / 2`). */
  function ShiftRightOne(x: int): (r: int)
    ensures 2 * r <= x <= 2 * r + 1
  {
    x / 2
  }

  /** The limiter's base rate, `*rateLimit / rateDivider`: the divider times
      the base rate falls short of the configured rate by less than one
      divider. */
  function LimiterBase(rate: int): (base: int)
    ensures base * RateDivider(rate) <= rate < base * RateDivider(rate) + RateDivider(rate)
  {
    var d := RateDivider(rate);
    var q := GoQuotient(rate, d);
    assert rate < 0 ==> d == 1 && q == rate;
    assert rate >= 0 ==> q >= 0 && Abs(q) == q;
    q
  }

  /** The limiter's burst, `(*rateLimit / rateDivider) >> 1`: half the base
      rate rounded down, negative exactly when the configured rate is. */
  function LimiterBurst(rate: int): (burst: int)
    ensures 2 * burst <= LimiterBase(rate) <= 2 * burst + 1
    ensures burst < 0 <==> rate < 0
  {
    ShiftRightOne(LimiterBase(rate))
  }

  /** The ladder's possible values. */
  predicate InLadder(d: int)
  {
    d == 1 || d == 3 || d == 7 || d == 11 || d == 19 || d == 41 || d == 97
  }

  // ---------------------------------------------------------------------
  // Facts about the ladder

  /** Rates below 5000 (zero and negative rates included) are never sampled:
      every line checks the limiter. Rates of at least 1000000 use 97. */
  lemma DividerEnds(rate: int)
    ensures rate < 5000 ==> RateDivider(rate) == 1
    ensures rate >= 1000000 ==> RateDivider(rate) == 97
    ensures RateDivider(rate) == 1 <==> rate < 5000
  {
  }

  /** The divider is always one of the seven ladder values, and it is odd. */
  lemma DividerInLadder(rate: int)
    ensures InLadder(RateDivider(rate))
    ensures RateDivider(rate) % 2 == 1
  {
  }

  /** A higher configured rate never selects a smaller divider. */
  lemma DividerMonotone(r1: int, r2: int)
    requires r1 <= r2
    ensures RateDivider(r1) <= RateDivider(r2)
  {
  }

  /** Sampling only starts where the rate is at least a thousand times the
      divider, so the divider stays small relative to the rate. */
  lemma DividerSmallAgainstRate(rate: int)
    requires rate >= 5000
    ensures 1000 * RateDivider(rate) <= rate
  {
  }

  // ---------------------------------------------------------------------
  // Facts about the base rate and the burst

  /** Since the divider is 1 whenever the rate is negative, Go's truncating
      division and Dafny's Euclidean division agree on the base rate, and the
      base rate is the rate itself below 5000. */
  lemma BaseIsFloorQuotient(rate: int)
    ensures LimiterBase(rate) == rate / RateDivider(rate)
    ensures rate < 5000 ==> LimiterBase(rate) == rate
  {
    var d := RateDivider(rate);
    if rate >= 0 {
      assert LimiterBase(rate) == rate / d;
    } else {
      assert d == 1;
    }
  }

  /** Multiplying the base rate back by the divider loses less than one
      divider's worth of lines per second, and (from 5000 up) less than a
      thousandth of the configured rate: the limiter, called once per D
      lines, still converges to the configured mean. */
  lemma BaseRecoversRate(rate: int)
    requires rate >= 0
    ensures LimiterBase(rate) >= 0
    ensures LimiterBase(rate) * RateDivider(rate) <= rate
    ensures rate < LimiterBase(rate) * RateDivider(rate) + RateDivider(rate)
    ensures rate >= 5000 ==> 1000 * (rate - LimiterBase(rate) * RateDivider(rate)) < rate
  {
    var d := RateDivider(rate);
    var b := LimiterBase(rate);
    BaseIsFloorQuotient(rate);
    assert b * d <= rate < b * d + d;
    if rate >= 5000 {
      DividerSmallAgainstRate(rate);
      assert rate - b * d < d;
    }
  }

  /** A positive configured rate always gives a positive base rate. */
  lemma BasePositive(rate: int)
    requires rate >= 1
    ensures LimiterBase(rate) >= 1
  {
    BaseRecoversRate(rate);
    var d := RateDivider(rate);
    if rate >= 5000 {
      DividerSmallAgainstRate(rate);
      assert LimiterBase(rate) * d + d > rate >= 1000 * d;
    }
  }

  /** The burst is half the base rate rounded down, and it is at least one
      exactly when the configured rate is at least two: for rates 0 and 1 the
      limiter is built with a burst of zero. */
  lemma BurstIsHalfBase(rate: int)
    ensures 2 * LimiterBurst(rate) <= LimiterBase(rate) <= 2 * LimiterBurst(rate) + 1
    ensures LimiterBurst(rate) == LimiterBase(rate) / 2
    ensures LimiterBurst(rate) >= 1 <==> rate >= 2
  {
    var b := LimiterBase(rate);
    BaseIsFloorQuotient(rate);
    if rate >= 2 {
      if rate < 5000 {
        assert b == rate;
      } else {
        BasePositive(rate);
        BaseRecoversRate(rate);
        DividerSmallAgainstRate(rate);
        assert b >= 2;
      }
    } else {
      assert b == rate;
    }
  }
}
