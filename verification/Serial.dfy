/** Serial-number arithmetic modulo 2^32 (section 3.2 of RFC 1982): numbers are compared only
    through the signed reading of their difference. */
module Serial {
  import opened Words

  /** Signed distance from `from` to `to`: positive when `to` is ahead. */
  function Distance(from: u32, to: u32): (d: int)
    ensures -0x8000_0000 <= d < 0x8000_0000
    ensures Wrap32(from + d) == to
  {
    var d := Wrap32(to - from);
    if d < 0x8000_0000 then d else d - 0x1_0000_0000
  }

  predicate Precedes(a: u32, b: u32) { Distance(a, b) > 0 }

  predicate PrecedesOrEqual(a: u32, b: u32) { Distance(a, b) >= 0 }

  /** The two unbounded positions are ordered as their 32-bit images are, as long as they are
      less than half the number space apart. */
  lemma DistanceIsTrueDistance(x: int, y: int)
    requires -0x8000_0000 <= y - x < 0x8000_0000
    ensures Distance(Wrap32(x), Wrap32(y)) == y - x
  {
    assert Wrap32(Wrap32(y) - Wrap32(x)) == Wrap32(y - x);
  }

  /** Moving the origin forward by `j` takes `j` off every distance. */
  lemma DistanceFrom(a: u32, j: int, b: u32)
    requires -0x8000_0000 <= Distance(a, b) - j < 0x8000_0000
    ensures Distance(Wrap32(a + j), b) == Distance(a, b) - j
  {
    DistanceIsTrueDistance(a + j, a + Distance(a, b));
    hide Distance;
  }

  lemma DistanceTo(a: u32, j: int)
    requires -0x8000_0000 <= j < 0x8000_0000
    ensures Distance(a, Wrap32(a + j)) == j
  {
    DistanceIsTrueDistance(a, a + j);
    hide Distance;
  }

  lemma ZeroDistance(a: u32, b: u32)
    ensures Distance(a, b) == 0 <==> a == b
  {}

  lemma WrapShift(x: int, d: int)
    ensures Wrap32(Wrap32(x) + d) == Wrap32(x + d)
  {}

  /** Exactly one of a < b, a = b, b < a, unless the two are antipodal, when none holds:
      the one case section 3.2 of RFC 1982 leaves undefined. */
  lemma TrichotomyUnlessAntipodal(a: u32, b: u32)
    ensures !(Precedes(a, b) && Precedes(b, a))
    ensures (Precedes(a, b) || a == b || Precedes(b, a)) <==> Distance(a, b) != -0x8000_0000
  {}

  /** Precedence is transitive exactly when the combined span stays within the horizon. */
  lemma TransitiveWithinHorizon(a: u32, b: u32, c: u32)
    requires Precedes(a, b) && Precedes(b, c)
    ensures Precedes(a, c) <==> Distance(a, b) + Distance(b, c) < 0x8000_0000
    ensures Precedes(a, c) ==> Distance(a, c) == Distance(a, b) + Distance(b, c)
  {
    hide Distance;
    Itself(a);
    hide Wrap32;
    var span: int := Distance(a, b) + Distance(b, c);
    WrapShift(a + Distance(a, b), Distance(b, c));
    if span < 0x8000_0000 {
      DistanceIsTrueDistance(a, a + span);
    } else {
      LapAgain(a + span);
      DistanceIsTrueDistance(a, a + span - 0x1_0000_0000);
    }
  }

  lemma Itself(a: u32)
    ensures Wrap32(a) == a
  {}

  lemma LapAgain(x: int)
    ensures Wrap32(x - 0x1_0000_0000) == Wrap32(x)
  {}

  /** Without that bound the order really does go round in a circle. */
  lemma PrecedenceCycle()
    ensures Precedes(0, 0x6000_0000) && Precedes(0x6000_0000, 0xC000_0000) && Precedes(0xC000_0000, 0)
  {}
}
