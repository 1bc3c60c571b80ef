/** Division and remainder facts used by the disk layouts and the ring buffer. */
module Arithmetic {

  function Min(a: int, b: int): int { if a <= b then a else b }

  function Max(a: int, b: int): int { if a <= b then b else a }

  function Abs(a: int): int { if a < 0 then -a else a }

  /** Quotient and remainder are the only pair with x == q * d + r and 0 <= r < d. */
  lemma DivModUnique(x: int, d: int, q: int, r: int)
    requires 0 <= r < d
    requires x == q * d + r
    ensures x / d == q && x % d == r
  {
    var k := x / d - q;
    assert x == d * (x / d) + x % d;
    assert r == k * d + x % d;
    if k >= 1 {
      MulMonotone(1, k, d);
    } else if k <= -1 {
      MulMonotone(k, -1, d);
    }
  }

  lemma DivModParts(x: int, d: int)
    requires d > 0
    ensures x == (x / d) * d + x % d && 0 <= x % d < d
    ensures x >= 0 ==> x / d >= 0
  {
  }

  lemma MulMonotone(a: int, b: int, d: int)
    requires a <= b && d >= 0
    ensures a * d <= b * d
  {
  }

  /** Adding whole multiples of d does not change the remainder. */
  lemma ModShift(x: int, k: int, d: int)
    requires d > 0
    ensures (x + k * d) % d == x % d
    ensures (x + k * d) / d == x / d + k
  {
    DivModParts(x, d);
    assert (x / d + k) * d == (x / d) * d + k * d;
    DivModUnique(x + k * d, d, x / d + k, x % d);
  }

  /** Two numbers closer than d with the same remainder are equal. */
  lemma ModClose(x: int, y: int, d: int)
    requires d > 0 && x <= y < x + d && x % d == y % d
    ensures x == y
  {
    DivModParts(x, d);
    DivModParts(y, d);
    var k := y / d - x / d;
    assert y - x == k * d;
    if k >= 1 {
      MulMonotone(1, k, d);
    } else if k <= -1 {
      MulMonotone(k, -1, d);
    }
  }

  /** (x mod d + y) mod d drops the inner mod. */
  lemma ModAdd(x: int, y: int, d: int)
    requires d > 0
    ensures (x % d + y) % d == (x + y) % d
  {
    DivModParts(x, d);
    ModShift(x % d + y, x / d, d);
    assert x % d + y + (x / d) * d == x + y;
  }

  /** (y - x mod d) mod d drops the inner mod. */
  lemma ModSub(y: int, x: int, d: int)
    requires d > 0
    ensures (y - x % d) % d == (y - x) % d
  {
    DivModParts(x, d);
    ModShift(y - x, x / d, d);
    assert y - x + (x / d) * d == y - x % d;
  }
}
