/** Log-linear buckets: values below 32 one each, then 32 equal buckets to every power of two. */
module Buckets {
  import opened Words

  const SUB: int := 32
  const BUCKETS: int := 1920
  const TOP: int := 0x1_0000_0000_0000_0000

  function Pow2(n: nat): (p: nat)
    ensures p > 0
  { if n == 0 then 1 else 2 * Pow2(n - 1) }

  /** The position of the highest set bit. */
  function Exponent(v: nat): (e: nat)
    requires v > 0
    ensures Pow2(e) <= v < 2 * Pow2(e)
  { if v == 1 then 0 else 1 + Exponent(v / 2) }

  /** The index before it is clamped to the table. */
  function RawIndex(value: nat): int {
    if value < SUB then value
    else
      ExponentAtLeast(value, 5);
      var octave := Exponent(value) - 5;
      var within := value / Pow2(octave) - SUB;
      (octave + 1) * SUB + within
  }

  function BucketIndex(value: nat): (i: nat)
    ensures i < BUCKETS
  { if 0 <= RawIndex(value) < BUCKETS then RawIndex(value) else BUCKETS - 1 }

  function BucketUpperBound(index: nat): u64 {
    if index < SUB then index
    else
      var octave := index / SUB - 1;
      var low := Wrap64((SUB + index % SUB) * Pow2(octave));
      Wrap64(low + Wrap64(Pow2(octave)) - 1)
  }

  lemma ExponentAtLeast(v: nat, e: nat)
    requires v >= Pow2(e)
    ensures v > 0 && Exponent(v) >= e
  {
    if Exponent(v) < e { Pow2Monotone(Exponent(v) + 1, e); }
  }

  lemma {:induction false} Pow2Monotone(a: nat, b: nat)
    requires a <= b
    ensures Pow2(a) <= Pow2(b)
    decreases b
  {
    if a < b { Pow2Monotone(a, b - 1); }
  }

  lemma {:induction false} Pow2Sum(a: nat, b: nat)
    ensures Pow2(a + b) == Pow2(a) * Pow2(b)
  {
    if b > 0 {
      Pow2Sum(a, b - 1);
      assert Pow2(a) * (2 * Pow2(b - 1)) == 2 * (Pow2(a) * Pow2(b - 1));
    }
  }

  lemma Pow2Of20()
    ensures Pow2(5) == 32 && Pow2(20) == 0x10_0000
  {
    assert Pow2(5) == 32;
    Pow2Sum(5, 5);
    Pow2Sum(10, 10);
  }

  lemma Pow2Of59()
    ensures Pow2(5) == 32 && Pow2(59) == 0x800_0000_0000_0000
  {
    Pow2Of20();
    assert Pow2(4) == 16;
    hide Pow2;
    Pow2Sum(20, 20);
    Pow2Sum(40, 5);
    Pow2Sum(45, 5);
    Pow2Sum(50, 5);
    Pow2Sum(55, 4);
  }

  lemma Pow2Values()
    ensures Pow2(5) == 32 && Pow2(59) == 0x800_0000_0000_0000 && Pow2(64) == TOP
  {
    hide Pow2;
    Pow2Of59();
    Pow2Sum(59, 5);
  }

  lemma ExponentBelow64(v: nat)
    requires 0 < v < TOP
    ensures Exponent(v) < 64
  {
    Pow2Values();
    if Exponent(v) >= 64 { Pow2Monotone(64, Exponent(v)); }
  }

  // ---------------------------------------------------------------- bucket edges

  function Width(index: nat): (w: nat)
    ensures w > 0
  { if index < SUB then 1 else Pow2(index / SUB - 1) }

  /** The smallest value of a bucket. */
  function Low(index: nat): nat { if index < SUB then index else (SUB + index % SUB) * Width(index) }

  /** The buckets touch: each begins where the last one ends. */
  lemma BucketsTouch(index: nat)
    ensures Low(index + 1) == Low(index) + Width(index)
  {
    if index >= SUB {
      var o, r := index / SUB, index % SUB;
      assert index == o * SUB + r;
      if r < SUB - 1 {
        assert (index + 1) / SUB == o && (index + 1) % SUB == r + 1;
        assert (SUB + r + 1) * Width(index) == (SUB + r) * Width(index) + Width(index);
      } else {
        assert (index + 1) / SUB == o + 1 && (index + 1) % SUB == 0;
        assert SUB * (2 * Width(index)) == (SUB + 31) * Width(index) + Width(index);
      }
    }
  }

  lemma {:induction false} LowMonotone(a: nat, b: nat)
    requires a <= b
    ensures Low(a) <= Low(b)
    ensures a < b ==> Low(a) + Width(a) <= Low(b)
    decreases b
  {
    hide Low, Width;
    if a < b {
      LowMonotone(a, b - 1);
      BucketsTouch(b - 1);
    }
  }

  /** The last bucket ends at the largest 64-bit value. */
  lemma LastBucket()
    ensures Low(BUCKETS) == TOP
  {
    Pow2Values();
    assert BUCKETS / SUB - 1 == 59 && BUCKETS % SUB == 0;
  }

  /** No bound ever leaves 64 bits: it is the true last value of the bucket. */
  lemma UpperBoundIsExact(index: nat)
    requires index < BUCKETS
    ensures BucketUpperBound(index) == Low(index) + Width(index) - 1 < TOP
  {
    LowMonotone(index + 1, BUCKETS);
    BucketsTouch(index);
    LastBucket();
    hide Low, Width;
    if index >= SUB {
      WideBucket(index);
      NoWrap(Low(index), Width(index));
    } else {
      NarrowBucket(index);
    }
  }

  lemma NarrowBucket(index: nat)
    requires index < SUB
    ensures Low(index) == index && Width(index) == 1
  {}

  lemma WideBucket(index: nat)
    requires index >= SUB
    ensures Low(index) == (SUB + index % SUB) * Pow2(index / SUB - 1) && Width(index) == Pow2(index / SUB - 1)
    ensures Low(index) >= 32 * Width(index)
  {
    AtLeast32(SUB + index % SUB, Width(index));
    hide Pow2;
  }

  lemma AtLeast32(a: nat, w: nat)
    requires a >= 32
    ensures a * w >= 32 * w
  {
    Distribute(a, 32, w);
    if a > 32 { AtLeastOnce(a - 32, w); }
  }

  lemma NoWrap(low: nat, width: nat)
    requires 0 < width && low + width <= TOP && width < TOP
    ensures Wrap64(Wrap64(low) + Wrap64(width) - 1) == low + width - 1
  {}

  /** For every 64-bit value the index falls inside the table unaided: the clamp never fires. */
  lemma IndexNeedsNoClamp(value: nat)
    requires value < TOP
    ensures 0 <= RawIndex(value) < BUCKETS && BucketIndex(value) == RawIndex(value)
  {
    if value >= SUB {
      Pow2Values();
      ExponentAtLeast(value, 5);
      Pow2Sum(Exponent(value) - 5, 5);
      ExponentBelow64(value);
      LeadingDigits(value, Pow2(Exponent(value) - 5));
      hide Pow2, Exponent;
    }
  }

  /** Every 64-bit value lies in the bucket it is counted in. */
  lemma ValueInItsBucket(value: nat)
    requires value < TOP
    ensures Low(BucketIndex(value)) <= value < Low(BucketIndex(value)) + Width(BucketIndex(value))
  {
    IndexNeedsNoClamp(value);
    if value >= SUB {
      Pow2Values();
      ExponentAtLeast(value, 5);
      var e, o := Exponent(value), Exponent(value) - 5;
      var p := Pow2(o);
      Pow2Sum(o, 5);
      assert Pow2(e) == p * 32;
      ExponentBelow64(value);
      var within := value / p - SUB;
      LeadingDigits(value, p);
      var index := (o + 1) * SUB + within;
      assert index / SUB == o + 1 && index % SUB == within;
      assert index < BUCKETS;
    }
  }

  lemma LeadingDigits(value: nat, p: nat)
    requires p > 0 && p * 32 <= value < 2 * (p * 32)
    ensures 32 <= value / p < 64
    ensures value / p * p <= value < value / p * p + p
  {
    var q := value / p;
    assert value == q * p + value % p;
    if q < 32 { Distribute(32, q, p); AtLeastOnce(32 - q, p); }
    if q >= 64 { Distribute(q, 63, p); AtLeastOnce(q - 63, p); }
  }

  /** The buckets partition the 64-bit values, in order: a value is counted in a bucket if and only
      if it lies between that bucket's edges. */
  lemma BucketsPartition(value: nat, index: nat)
    requires value < TOP && index < BUCKETS
    ensures BucketIndex(value) == index <==> Low(index) <= value <= BucketUpperBound(index)
    ensures BucketIndex(value) <= index <==> value <= BucketUpperBound(index)
  {
    ValueInItsBucket(value);
    UpperBoundIsExact(index);
    var i := BucketIndex(value);
    hide Low, Width, BucketIndex, BucketUpperBound;
    if i < index { LowMonotone(i, index); } else if i > index { LowMonotone(index, i); }
  }

  lemma IndexMonotone(a: nat, b: nat)
    requires a <= b < TOP
    ensures BucketIndex(a) <= BucketIndex(b)
  {
    BucketsPartition(a, BucketIndex(b));
    BucketsPartition(b, BucketIndex(b));
    hide BucketIndex, BucketUpperBound, Low;
  }

  /** The bound of a value's bucket is never below the value and never more than one part in 32 above. */
  lemma RelativePrecision(value: nat)
    requires value < TOP
    ensures var upper := BucketUpperBound(BucketIndex(value));
      value <= upper && 32 * (upper - value) <= value
  {
    var i := BucketIndex(value);
    ValueInItsBucket(value);
    UpperBoundIsExact(i);
    hide BucketUpperBound, BucketIndex, Low, Width;
    if i >= SUB { WideBucket(i); } else { NarrowBucket(i); }
  }
}
