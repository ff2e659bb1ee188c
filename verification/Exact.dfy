/**
 * The overflow tests the backend emits are exact: over all pairs of 64-bit integers each one
 * holds when, and only when, the true result does not fit.
 */
module Exact {
  import opened Ints

  predicate Fits(n: int) { MIN_64 <= n <= MAX_64 }

  /** Adding wrapped round when the sum moved against the sign of what was added. */
  lemma SumTest(l: i64, r: i64)
    ensures (r > 0 && Wrap64(l + r) < l) || (r < 0 && Wrap64(l + r) > l) <==> !Fits(l + r)
  {
  }

  lemma DifferenceTest(l: i64, r: i64)
    ensures (r > 0 && Wrap64(l - r) > l) || (r < 0 && Wrap64(l - r) < l) <==> !Fits(l - r)
  {
  }

  function Abs(n: int): (a: int)
    ensures a >= 0
  {
    if n >= 0 then n else -n
  }

  lemma QuotientTest(l: i64, r: i64)
    requires r != 0
    ensures (l == MIN_64 && r == -1) <==> !Fits(TruncDiv(l, r))
  {
    QuotientBound(Abs(l), Abs(r));
    QuotientSign(l, r);
  }

  lemma {:induction false} AtLeast(k: int, y: int)
    requires k >= 1 && y >= 0
    ensures k * y >= y
  {
    if k > 1 {
      AtLeast(k - 1, y);
      assert k * y == (k - 1) * y + y;
    }
  }

  lemma QuotientBound(x: int, y: int)
    requires x >= 0 && y > 0
    ensures 0 <= x / y <= x
    ensures y >= 2 && x > 0 ==> x / y < x
    ensures y == 1 ==> x / y == x
  {
    var q := x / y;
    assert x == q * y + x % y;
    if q > 0 {
      AtLeast(y, q);
      assert q * y == y * q;
      if y >= 2 {
        AtLeast(y - 1, q);
        assert y * q == (y - 1) * q + q;
      }
    }
  }

  /** Truncating division of magnitudes, with the sign put back. */
  lemma QuotientSign(l: int, r: int)
    requires r != 0
    ensures TruncDiv(l, r) == if (l >= 0) == (r > 0) then Abs(l) / Abs(r) else -(Abs(l) / Abs(r))
  {
    if r < 0 {
      NegativeDivisor(Abs(l), Abs(r));
      assert r == -Abs(r);
    }
  }

  lemma NegativeDivisor(x: int, y: int)
    requires x >= 0 && y > 0
    ensures x / (-y) == -(x / y)
  {
    var q, p := x / y, x / (-y);
    assert x == q * y + x % y;
    assert x == p * (-y) + x % (-y);
    assert (p + q) * y == x % (-y) - x % y;
    NoSmallMultiple(p + q, y);
  }

  /** A multiple of y smaller than y either way is zero. */
  lemma NoSmallMultiple(k: int, y: int)
    requires y > 0 && -y < k * y < y
    ensures k == 0
  {
    if k > 0 {
      AtLeast(k, y);
    } else if k < 0 {
      assert (-k) * y == -(k * y);
      AtLeast(-k, y);
    }
  }

  /** The quotient and remainder of truncating division: the remainder is smaller than the divisor. */
  lemma TruncSplits(x: int, y: int)
    requires y != 0
    ensures var rest := x - TruncDiv(x, y) * y;
      if y > 0 then -y < rest < y else y < rest < -y
  {
    var m := if x >= 0 then x else -x;
    assert m == m / y * y + m % y;
    if x < 0 {
      assert TruncDiv(x, y) * y == -(m / y * y);
    }
  }

  lemma ExactQuotient(l: int, r: int)
    requires l != 0
    ensures TruncDiv(l * r, l) == r
  {
    var q := TruncDiv(l * r, l);
    TruncSplits(l * r, l);
    assert l * r - q * l == (r - q) * l;
    assert (r - q) * l == (if l > 0 then r - q else q - r) * Abs(l);
    NoSmallMultiple(if l > 0 then r - q else q - r, Abs(l));
  }

  /**
   * With -1 by the least integer and zeros out of the way, dividing the wrapped product back
   * gives the other factor exactly when nothing wrapped, and that division does not overflow.
   */
  lemma ProductTest(l: i64, r: i64)
    requires l != 0 && r != 0 && !(l == -1 && r == MIN_64)
    ensures TruncDiv(Wrap64(l * r), l) != r <==> !Fits(l * r)
    ensures Fits(TruncDiv(Wrap64(l * r), l))
  {
    var w := Wrap64(l * r);
    WrapFits(l * r);
    if Fits(l * r) {
      ExactQuotient(l, r);
    } else {
      var q := TruncDiv(w, l);
      assert q == r ==> q * l == l * r;
      QuotientTest(w, l);
      WrapApart(l * r);
      TruncSplits(w, l);
    }
  }

  lemma WrapApart(x: int)
    requires !Fits(x)
    ensures x - Wrap64(x) >= TWO_64 || x - Wrap64(x) <= -TWO_64
  {
    var k := (x - MIN_64) / TWO_64;
    assert x - MIN_64 == k * TWO_64 + (x - MIN_64) % TWO_64;
  }
}
