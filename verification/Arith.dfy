// Integer division facts shared by the ring, rate and string models.
module Arith {

  lemma MulAtLeast(a: int, d: int)
    requires 1 <= a && 0 < d
    ensures a * d >= d
  {
    assert a * d == (a - 1) * d + d;
  }

  lemma MulAtMost(a: int, b: int, d: int)
    requires a <= b && 0 <= d
    ensures a * d <= b * d
  {
    assert b * d == a * d + (b - a) * d;
    if a < b && 0 < d {
      MulAtLeast(b - a, d);
    }
  }

  // Quotient and remainder are the only pair that recomposes the dividend.
  lemma DivModUnique(x: int, d: int, q: int, r: int)
    requires 0 <= r < d
    requires x == q * d + r
    ensures x / d == q && x % d == r
  {
    var q', r' := x / d, x % d;
    var diff := q' - q;
    assert diff * d == r - r' by {
      assert q' * d == x - r';
      assert diff * d == q' * d - q * d;
    }
    if diff >= 1 {
      MulAtLeast(diff, d);
    } else if diff <= -1 {
      assert (-diff) * d == -(diff * d);
      MulAtLeast(-diff, d);
    }
  }

  // Stepping back `k` cells in a ring of `d` cells.
  lemma ModBack(x: int, d: int, k: int)
    requires 0 <= k <= d && 0 < d
    ensures (x - k) % d == if x % d >= k then x % d - k else x % d - k + d
  {
    var q, r := x / d, x % d;
    if r >= k {
      DivModUnique(x - k, d, q, r - k);
    } else {
      assert x - k == (q - 1) * d + (r - k + d);
      DivModUnique(x - k, d, q - 1, r - k + d);
    }
  }

  lemma ModNext(x: int, d: int)
    requires 0 < d
    ensures (x + 1) % d == if x % d + 1 == d then 0 else x % d + 1
  {
    var q, r := x / d, x % d;
    if r + 1 == d {
      assert x + 1 == (q + 1) * d + 0;
      DivModUnique(x + 1, d, q + 1, 0);
    } else {
      DivModUnique(x + 1, d, q, r + 1);
    }
  }

  // Shifting by whole multiples changes only the quotient.
  lemma DivModShift(x: int, d: int, k: int)
    requires 0 < d
    ensures (x + k * d) / d == x / d + k && (x + k * d) % d == x % d
  {
    assert x + k * d == (x / d + k) * d + x % d;
    DivModUnique(x + k * d, d, x / d + k, x % d);
  }

  // A ring position seen modulo a divisor of the ring size.
  lemma ModOfMod(x: int, d: int, m: int)
    requires 0 < d && 0 < m && m % d == 0
    ensures (x % m) % d == x % d
  {
    var k, q := m / d, x / m;
    assert m == k * d && x == q * m + x % m;
    assert q * m == (q * k) * d by {
      assert q * (k * d) == (q * k) * d;
    }
    DivModShift(x % m, d, q * k);
  }

  // The value a C++ cast to a 32-bit signed integer keeps.
  function Wrap32(x: int): (w: int)
    ensures -0x8000_0000 <= w < 0x8000_0000
    ensures -0x8000_0000 <= x < 0x8000_0000 ==> w == x
  {
    (x + 0x8000_0000) % 0x1_0000_0000 - 0x8000_0000
  }
}
