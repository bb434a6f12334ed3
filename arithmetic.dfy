// Facts about Euclidean division by a positive divisor, used by the proofs
// about cycling and about the worker's sampled waits.
module Arithmetic {

  lemma {:induction false} MulAtLeast(d: int, m: nat)
    requires d >= 1
    ensures d * m >= m
  {
    if d > 1 {
      MulAtLeast(d - 1, m);
      assert d * m == (d - 1) * m + m;
    }
  }

  /** Euclidean division is determined by its quotient and remainder. */
  lemma DivModUnique(x: int, m: int, q: int, r: int)
    requires m >= 1 && 0 <= r < m && x == q * m + r
    ensures x / m == q && x % m == r
  {
    var q', r' := x / m, x % m;
    assert x == q' * m + r';
    if q' < q {
      assert (q - q') * m == r' - r by {
        assert q * m - q' * m == (q - q') * m;
      }
      MulAtLeast(q - q', m);
    } else if q < q' {
      assert (q' - q) * m == r - r' by {
        assert q' * m - q * m == (q' - q) * m;
      }
      MulAtLeast(q' - q, m);
    }
  }

  /** Whole passes of length m leave the position within the pass as the
      remainder. */
  lemma ModOfPasses(passes: nat, m: int, pos: int)
    requires m >= 1 && 0 <= pos < m
    ensures (passes * m + pos) % m == pos
  {
    DivModUnique(passes * m + pos, m, passes, pos);
  }
}
