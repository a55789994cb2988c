/** Division by a divisor that is not a literal. */
module Modular {
  import opened Words

  lemma Unique(a: int, d: int, q: int, r: int)
    requires d > 0 && a == q * d + r && 0 <= r < d
    ensures a % d == r && a / d == q
  {
    var p := a / d;
    assert a == p * d + a % d;
    Distribute(p, q, d);
    if p > q { AtLeastOnce(p - q, d); } else if p < q { Distribute(q, p, d); AtLeastOnce(q - p, d); }
  }

  lemma AddMultiple(a: int, k: int, d: int)
    requires d > 0
    ensures (a + k * d) % d == a % d
  {
    var q := a / d;
    assert a == q * d + a % d;
    assert (q + k) * d == q * d + k * d;
    Unique(a + k * d, d, q + k, a % d);
  }

  /** Reducing before adding changes nothing. */
  lemma ReduceFirst(a: int, b: int, d: int)
    requires d > 0
    ensures (a % d + b) % d == (a + b) % d
  {
    AddMultiple(a % d + b, a / d, d);
    assert a == a / d * d + a % d;
  }

  /** A 64-bit index addresses the same slot before and after it wraps, when the number of slots
      divides 2^64. */
  lemma WrapKeepsSlot(a: int, d: int)
    requires d > 0 && 0x1_0000_0000_0000_0000 % d == 0
    ensures Wrap64(a) % d == a % d
  {
    var n, k := 0x1_0000_0000_0000_0000 / d, a / 0x1_0000_0000_0000_0000;
    assert 0x1_0000_0000_0000_0000 == n * d by { hide *; DivExact(0x1_0000_0000_0000_0000, d); }
    assert a == Wrap64(a) + k * 0x1_0000_0000_0000_0000;
    assert k * (n * d) == (k * n) * d;
    AddMultiple(Wrap64(a), k * n, d);
  }

  lemma DivExact(a: int, d: int)
    requires d > 0 && a % d == 0
    ensures a == a / d * d
  {}

  /** Positions less than `d` apart never share a slot. */
  lemma DistinctSlots(a: int, b: int, d: int)
    requires a < b < a + d
    ensures a % d != b % d
  {
    if a % d == b % d {
      var p, q := a / d, b / d;
      assert a == p * d + a % d && b == q * d + b % d;
      Distribute(q, p, d);
      assert b - a == (q - p) * d;
      if q > p { AtLeastOnce(q - p, d); } else if q < p { Distribute(p, q, d); AtLeastOnce(p - q, d); }
      assert false;
    }
  }
}
