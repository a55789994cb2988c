/** The latency histogram: recording, merging and the rank search, against the sorted sample. */
module Histograms {
  import opened Words
  import opened Buckets

  /** The histogram as a value. */
  datatype Hist = Hist(buckets: seq<nat>, count: nat, sum: u64, min: u64, max: u64)

  const EMPTY_HIST := Hist(seq(BUCKETS, _ => 0), 0, 0, TOP - 1, 0)

  function RecordH(h: Hist, value: u64): Hist
    requires |h.buckets| == BUCKETS
  {
    var i := BucketIndex(value);
    Hist(h.buckets[i := h.buckets[i] + 1], h.count + 1, Wrap64(h.sum + value), Min(h.min, value), Max(h.max, value))
  }

  function MergeH(h: Hist, g: Hist): Hist
    requires |h.buckets| == |g.buckets| == BUCKETS
  {
    if g.count == 0 then h
    else
      Hist(seq(BUCKETS, i requires 0 <= i < BUCKETS => h.buckets[i] + g.buckets[i]),
           h.count + g.count, Wrap64(h.sum + g.sum), Min(h.min, g.min), Max(h.max, g.max))
  }

  /** The sum of the buckets below `i`. */
  function Cumulative(buckets: seq<nat>, i: nat): nat
    requires i <= |buckets|
  { if i == 0 then 0 else Cumulative(buckets, i - 1) + buckets[i - 1] }

  /** The first bucket from `i` on at which the running count reaches `rank`, or the bucket count. */
  function RankBucket(buckets: seq<nat>, rank: nat, i: nat): (r: nat)
    requires i <= |buckets|
    ensures i <= r <= |buckets|
    decreases |buckets| - i
  {
    if i == |buckets| || Cumulative(buckets, i + 1) >= rank then i else RankBucket(buckets, rank, i + 1)
  }

  /** The bound of the bucket the wanted rank falls in, clamped to the largest value recorded. */
  function ValueAtRank(h: Hist, rank: nat): u64 {
    var i := RankBucket(h.buckets, rank, 0);
    if i == |h.buckets| then h.max else Min(BucketUpperBound(i), h.max)
  }

  /** The rank nearest to `p` percent, at least one and at most the count. */
  function RankOf(p: real, count: nat): nat
    requires 0.0 < p < 100.0 && count > 0
  {
    Max(1, Min((p / 100.0 * count as real + 0.5).Floor, count))
  }

  function PercentileH(h: Hist, p: real): u64 {
    if h.count == 0 then 0
    else if p <= 0.0 then h.min
    else if p >= 100.0 then h.max
    else ValueAtRank(h, RankOf(p, h.count))
  }

  // ---------------------------------------------------------------- the code

  class Histogram {
    const buckets: array<nat>
    var count: nat
    var sum: u64
    var min: u64
    var max: u64

    ghost predicate Valid() { buckets.Length == BUCKETS }

    ghost function Model(): Hist
      reads this, buckets
    { Hist(buckets[..], count, sum, min, max) }

    constructor ()
      ensures Valid() && Model() == EMPTY_HIST && fresh(buckets)
    {
      buckets := new nat[BUCKETS](_ => 0);
      count, sum, min, max := 0, 0, TOP - 1, 0;
      new;
      assert buckets[..] == EMPTY_HIST.buckets;
    }

    method Record(value: u64)
      requires Valid()
      modifies this, buckets
      ensures Valid() && Model() == RecordH(old(Model()), value)
    {
      hide BucketIndex;
      var i := BucketIndex(value);
      buckets[i] := buckets[i] + 1;
      count, sum := count + 1, Wrap64(sum + value);
      if value < min { min := value; }
      if value > max { max := value; }
      assert buckets[..] == old(buckets[..])[i := old(buckets[i]) + 1];
    }

    method Merge(other: Histogram)
      requires Valid() && other.Valid()
      modifies this, buckets
      ensures Valid() && Model() == MergeH(old(Model()), old(other.Model()))
    {
      if other.count == 0 { return; }
      ghost var h, g := Model(), other.Model();
      for i := 0 to BUCKETS
        modifies buckets
        invariant forall k | 0 <= k < BUCKETS :: buckets[k] == h.buckets[k] + if k < i then g.buckets[k] else 0
        invariant forall k | i <= k < BUCKETS :: other.buckets[k] == g.buckets[k]
      {
        buckets[i] := buckets[i] + other.buckets[i];
      }
      count, sum := count + other.count, Wrap64(sum + other.sum);
      if other.min < min { min := other.min; }
      if other.max > max { max := other.max; }
      assert buckets[..] == MergeH(h, g).buckets;
    }

    method Percentile(p: real) returns (value: u64)
      requires Valid()
      ensures value == PercentileH(Model(), p)
    {
      hide BucketUpperBound;
      if count == 0 { return 0; }
      if p <= 0.0 { return min; }
      if p >= 100.0 { return max; }
      var exactRank := p / 100.0 * count as real;
      var rank := (exactRank + 0.5).Floor;
      if rank <= 0 { rank := 1; }
      if rank > count { rank := count; }

      var cumulative := 0;
      for i := 0 to BUCKETS
        invariant cumulative == Cumulative(buckets[..], i)
        invariant RankBucket(buckets[..], rank, 0) == RankBucket(buckets[..], rank, i)
      {
        cumulative := cumulative + buckets[i];
        if cumulative >= rank {
          var upper := BucketUpperBound(i);
          return if upper < max then upper else max;
        }
      }
      return max;
    }
  }

  // ---------------------------------------------------------------- the sorted sample

  predicate Sorted(s: seq<nat>) { forall i, j | 0 <= i < j < |s| :: s[i] <= s[j] }

  /** The largest sample of a sorted one fits 64 bits. */
  predicate Below(s: seq<nat>) { s != [] ==> s[|s| - 1] < TOP }

  /** How many samples are counted in bucket `b`. */
  ghost function CountIn(s: seq<nat>, b: nat): nat {
    if s == [] then 0 else CountIn(s[..|s| - 1], b) + if BucketIndex(s[|s| - 1]) == b then 1 else 0
  }

  /** How many samples are counted in buckets up to and including `b`. */
  ghost function CountUpTo(s: seq<nat>, b: int): nat {
    if s == [] then 0 else CountUpTo(s[..|s| - 1], b) + if BucketIndex(s[|s| - 1]) <= b then 1 else 0
  }

  ghost function Total(s: seq<nat>): nat { if s == [] then 0 else Total(s[..|s| - 1]) + s[|s| - 1] }

  /** `h` is what recording the sorted sample `s` gives. */
  ghost predicate Represents(h: Hist, s: seq<nat>) {
    && |h.buckets| == BUCKETS && Sorted(s) && Below(s)
    && (forall b | 0 <= b < BUCKETS :: h.buckets[b] == CountIn(s, b))
    && h.count == |s| && h.sum == Wrap64(Total(s))
    && h.min == (if s == [] then TOP - 1 else s[0])
    && h.max == (if s == [] then 0 else s[|s| - 1])
  }

  /** Puts `v` in its place in a sorted sample. */
  function Placed(s: seq<nat>, v: nat): seq<nat> {
    if s == [] || s[|s| - 1] <= v then s + [v] else Placed(s[..|s| - 1], v) + [s[|s| - 1]]
  }

  lemma AppendSorted(s: seq<nat>, v: nat)
    requires Sorted(s) && (s != [] ==> s[|s| - 1] <= v)
    ensures Sorted(s + [v])
  {}

  lemma PrefixSorted(s: seq<nat>)
    requires Sorted(s) && s != []
    ensures Sorted(s[..|s| - 1]) && (|s| > 1 ==> s[0] <= s[|s| - 2] <= s[|s| - 1])
  {}

  lemma {:induction false} PlacedIsSorted(s: seq<nat>, v: nat)
    requires Sorted(s)
    ensures var p := Placed(s, v);
      && |p| == |s| + 1 && Sorted(p) && multiset(p) == multiset(s) + multiset{v}
      && p[0] == (if s == [] then v else Min(s[0], v)) && p[|s|] == (if s == [] then v else Max(s[|s| - 1], v))
  {
    if s == [] || s[|s| - 1] <= v {
      AppendSorted(s, v);
      assert s != [] ==> s[0] <= s[|s| - 1];
    } else {
      var init, last := s[..|s| - 1], s[|s| - 1];
      PrefixSorted(s);
      hide Sorted;
      PlacedIsSorted(init, v);
      assert s == init + [last];
      AppendSorted(Placed(init, v), last);
    }
  }

  lemma {:induction false} PlacedCounts(s: seq<nat>, v: nat, b: nat)
    ensures CountIn(Placed(s, v), b) == CountIn(s, b) + if BucketIndex(v) == b then 1 else 0
    ensures Total(Placed(s, v)) == Total(s) + v
  {
    hide BucketIndex;
    if s == [] || s[|s| - 1] <= v {
      assert (s + [v])[..|s|] == s;
    } else {
      var init, last := s[..|s| - 1], s[|s| - 1];
      PlacedCounts(init, v, b);
      assert (Placed(init, v) + [last])[..|Placed(init, v)|] == Placed(init, v);
    }
  }

  /** Recording a value puts it in its place in the sorted sample. */
  lemma RecordKeepsSample(h: Hist, s: seq<nat>, v: u64)
    requires Represents(h, s)
    ensures Represents(RecordH(h, v), Placed(s, v))
  {
    PlacedIsSorted(s, v);
    hide BucketIndex, Placed, CountIn, Total, Sorted;
    var r := RecordH(h, v);
    forall b | 0 <= b < BUCKETS
      ensures r.buckets[b] == CountIn(Placed(s, v), b)
    {
      PlacedCounts(s, v, b);
    }
    PlacedCounts(s, v, 0);
    Wrap64Sum(Total(s), v);
  }

  lemma Wrap64Sum(a: int, b: int)
    ensures Wrap64(Wrap64(a) + b) == Wrap64(Wrap64(a) + Wrap64(b)) == Wrap64(a + b)
  {}

  /** Everything recorded, sorted. */
  function SortedSample(values: seq<u64>): seq<nat> {
    if values == [] then [] else Placed(SortedSample(values[..|values| - 1]), values[|values| - 1])
  }

  function RecordAll(h: Hist, values: seq<u64>): Hist
    requires |h.buckets| == BUCKETS
    ensures |RecordAll(h, values).buckets| == BUCKETS
  {
    if values == [] then h else RecordH(RecordAll(h, values[..|values| - 1]), values[|values| - 1])
  }

  /** After any sequence of recordings the histogram represents the sorted permutation of it. */
  lemma {:induction false} RecordAllRepresents(values: seq<u64>)
    ensures Represents(RecordAll(EMPTY_HIST, values), SortedSample(values))
    ensures Sorted(SortedSample(values)) && multiset(SortedSample(values)) == multiset(values)
  {
    hide RecordH;
    if values == [] {
      assert forall b: nat :: CountIn([], b) == 0;
    } else {
      var init, last := values[..|values| - 1], values[|values| - 1];
      RecordAllRepresents(init);
      RecordKeepsSample(RecordAll(EMPTY_HIST, init), SortedSample(init), last);
      PlacedIsSorted(SortedSample(init), last);
      assert values == init + [last];
      hide Represents;
    }
  }

  function PlacedAll(s: seq<nat>, t: seq<nat>): seq<nat> {
    if t == [] then s else Placed(PlacedAll(s, t[..|t| - 1]), t[|t| - 1])
  }

  /** Merging two histograms is recording both samples in one. */
  lemma MergeRepresents(h: Hist, g: Hist, s: seq<nat>, t: seq<nat>)
    requires Represents(h, s) && Represents(g, t)
    ensures Represents(MergeH(h, g), PlacedAll(s, t))
    ensures multiset(PlacedAll(s, t)) == multiset(s) + multiset(t)
  {
    hide CountIn, PlacedAll, Total, BucketIndex, Sorted, Wrap64;
    MergedSample(s, t);
    MergedMultiset(s, t);
    if t != [] {
      MergedBuckets(h, g, s, t);
      MergedCounts(s, t, 0);
      Wrap64Sum(Total(s), Total(t));
    } else {
      NothingPlaced(s);
    }
  }

  lemma MergedBuckets(h: Hist, g: Hist, s: seq<nat>, t: seq<nat>)
    requires Represents(h, s) && Represents(g, t) && g.count > 0
    ensures forall b | 0 <= b < BUCKETS :: MergeH(h, g).buckets[b] == CountIn(PlacedAll(s, t), b)
  {
    hide CountIn, PlacedAll, Total, BucketIndex, Sorted, Wrap64, Below;
    var r := MergeH(h, g);
    forall b | 0 <= b < BUCKETS ensures r.buckets[b] == CountIn(PlacedAll(s, t), b) {
      MergedCounts(s, t, b);
    }
  }

  lemma NothingPlaced(s: seq<nat>)
    ensures PlacedAll(s, []) == s
  {}

  lemma {:induction false} MergedSample(s: seq<nat>, t: seq<nat>)
    requires Sorted(s) && Sorted(t)
    ensures var p := PlacedAll(s, t);
      && Sorted(p) && |p| == |s| + |t|
      && (t != [] ==>
            && p[0] == (if s == [] then t[0] else Min(s[0], t[0]))
            && p[|p| - 1] == if s == [] then t[|t| - 1] else Max(s[|s| - 1], t[|t| - 1]))
  {
    if t != [] {
      var init, last := t[..|t| - 1], t[|t| - 1];
      PrefixSorted(t);
      hide Sorted, Placed;
      MergedSample(s, init);
      PlacedEnds(PlacedAll(s, init), last);
    }
  }

  /** The multiset-free part of `PlacedIsSorted`. */
  lemma PlacedEnds(s: seq<nat>, v: nat)
    requires Sorted(s)
    ensures var p := Placed(s, v);
      && |p| == |s| + 1 && Sorted(p)
      && p[0] == (if s == [] then v else Min(s[0], v)) && p[|s|] == (if s == [] then v else Max(s[|s| - 1], v))
  {
    PlacedIsSorted(s, v);
  }

  lemma {:induction false} MergedMultiset(s: seq<nat>, t: seq<nat>)
    requires Sorted(s) && Sorted(t)
    ensures multiset(PlacedAll(s, t)) == multiset(s) + multiset(t)
  {
    if t != [] {
      var init, last := t[..|t| - 1], t[|t| - 1];
      PrefixSorted(t);
      hide Sorted, Placed;
      MergedSample(s, init);
      MergedMultiset(s, init);
      PlacedIsSorted(PlacedAll(s, init), last);
      LastOfMultiset(t);
    }
  }

  lemma LastOfMultiset(t: seq<nat>)
    requires t != []
    ensures multiset(t) == multiset(t[..|t| - 1]) + multiset{t[|t| - 1]}
  {
    assert t == t[..|t| - 1] + [t[|t| - 1]];
  }

  lemma {:induction false} MergedCounts(s: seq<nat>, t: seq<nat>, b: nat)
    ensures CountIn(PlacedAll(s, t), b) == CountIn(s, b) + CountIn(t, b)
    ensures Total(PlacedAll(s, t)) == Total(s) + Total(t)
  {
    hide BucketIndex;
    if t != [] {
      var init, last := t[..|t| - 1], t[|t| - 1];
      MergedCounts(s, init, b);
      PlacedCounts(PlacedAll(s, init), last, b);
    }
  }

  // ---------------------------------------------------------------- percentiles

  lemma {:induction false} CumulativeIsCountUpTo(h: Hist, s: seq<nat>, i: nat)
    requires Represents(h, s) && i <= BUCKETS
    ensures Cumulative(h.buckets, i) == CountUpTo(s, i - 1)
  {
    if i == 0 {
      NoneBelowZero(s);
    } else {
      CumulativeIsCountUpTo(h, s, i - 1);
      OneBucketMore(s, i - 1);
    }
  }

  lemma {:induction false} NoneBelowZero(s: seq<nat>)
    ensures CountUpTo(s, -1) == 0
  {
    hide BucketIndex;
    if s != [] { NoneBelowZero(s[..|s| - 1]); }
  }

  lemma {:induction false} OneBucketMore(s: seq<nat>, b: nat)
    ensures CountUpTo(s, b) == CountUpTo(s, b - 1) + CountIn(s, b)
  {
    hide BucketIndex;
    if s != [] { OneBucketMore(s[..|s| - 1], b); }
  }

  /** In a sorted sample the count up to a bucket reaches rank r exactly when the r-th smallest is
      in that bucket or below. */
  lemma {:induction false} CountReachesRank(s: seq<nat>, rank: nat, b: int)
    requires Sorted(s) && Below(s) && 1 <= rank <= |s|
    ensures CountUpTo(s, b) >= rank <==> BucketIndex(s[rank - 1]) <= b
    ensures CountUpTo(s, b) <= |s|
  {
    hide BucketIndex;
    var init, last := s[..|s| - 1], s[|s| - 1];
    PrefixSorted(s);
    CountAtMost(init, b);
    if BucketIndex(last) <= b {
      AllCounted(s, b);
      assert s[rank - 1] <= last;
      IndexMonotone(s[rank - 1], last);
    } else if rank < |s| {
      CountReachesRank(init, rank, b);
    }
  }

  lemma {:induction false} CountAtMost(s: seq<nat>, b: int)
    ensures CountUpTo(s, b) <= |s|
  {
    hide BucketIndex;
    if s != [] { CountAtMost(s[..|s| - 1], b); }
  }

  lemma {:induction false} AllCounted(s: seq<nat>, b: int)
    requires Sorted(s) && s != [] && Below(s) && BucketIndex(s[|s| - 1]) <= b
    ensures CountUpTo(s, b) == |s|
  {
    hide BucketIndex;
    var init, last := s[..|s| - 1], s[|s| - 1];
    if init != [] {
      PrefixSorted(s);
      IndexMonotone(init[|init| - 1], last);
      AllCounted(init, b);
    }
  }

  lemma {:induction false} RankBucketFound(h: Hist, s: seq<nat>, rank: nat, i: nat)
    requires Represents(h, s) && 1 <= rank <= |s| && i <= BucketIndex(s[rank - 1])
    ensures RankBucket(h.buckets, rank, i) == BucketIndex(s[rank - 1])
    decreases BUCKETS - i
  {
    hide BucketIndex, Cumulative, CountUpTo;
    assert |h.buckets| == BUCKETS && BucketIndex(s[rank - 1]) < BUCKETS;
    CumulativeIsCountUpTo(h, s, i + 1);
    CountReachesRank(s, rank, i);
    if i < BucketIndex(s[rank - 1]) { RankBucketFound(h, s, rank, i + 1); }
  }

  /** The rank search finds the r-th smallest sample to within one part in 32: never below it, never
      above the largest sample, and the fall-through at the end of the loop is never taken. */
  lemma RankIsPrecise(h: Hist, s: seq<nat>, rank: nat)
    requires Represents(h, s) && 1 <= rank <= |s|
    ensures var x, u := s[rank - 1], ValueAtRank(h, rank);
      && x <= u <= s[|s| - 1] && 32 * (u - x) <= x
      && RankBucket(h.buckets, rank, 0) < BUCKETS
  {
    RankBucketFound(h, s, rank, 0);
    assert s[rank - 1] <= s[|s| - 1] < TOP;
    RelativePrecision(s[rank - 1]);
    hide BucketIndex, BucketUpperBound, RankBucket, CountIn, Total;
  }

  /** So for whatever was recorded, in whatever order, a percentile query answers with the sample of
      the nearest rank to within one part in 32, and exactly at the two ends. */
  lemma PercentileIsPrecise(values: seq<u64>, p: real)
    requires values != []
    ensures var s, u := SortedSample(values), PercentileH(RecordAll(EMPTY_HIST, values), p);
      && |s| == |values| && Sorted(s) && multiset(s) == multiset(values)
      && (p <= 0.0 ==> u == s[0]) && (p >= 100.0 ==> u == s[|s| - 1])
      && (0.0 < p < 100.0 ==>
            NearestRank(p, |s|, RankOf(p, |s|)) &&
            var x := s[RankOf(p, |s|) - 1]; x <= u <= s[|s| - 1] && 32 * (u - x) <= x)
  {
    RecordAllRepresents(values);
    hide ValueAtRank, CountIn, Total, RecordAll, SortedSample, Sorted;
    var h, s := RecordAll(EMPTY_HIST, values), SortedSample(values);
    assert |s| == |multiset(s)| == |multiset(values)| == |values|;
    if 0.0 < p < 100.0 {
      RankInRange(p, |s|);
      RankIsNearest(p, |s|);
      hide RankOf, NearestRank;
      RankIsPrecise(h, s, RankOf(p, |s|));
    }
  }

  /** `rank` is the whole number nearest to `p` percent of the count, a half rounding up, and at least one. */
  predicate NearestRank(p: real, count: nat, rank: nat) {
    var exact := p * count as real / 100.0;
    (rank >= 1 && rank as real - 0.5 <= exact < rank as real + 0.5) || (rank == 1 && exact < 0.5)
  }

  lemma RankIsNearest(p: real, count: nat)
    requires 0.0 < p < 100.0 && count > 0
    ensures NearestRank(p, count, RankOf(p, count))
  {
    var exact := p / 100.0 * count as real;
    assert exact == p * count as real / 100.0;
    Shrinks(p / 100.0, count as real);
  }

  lemma Shrinks(share: real, n: real)
    requires 0.0 < share < 1.0 && n > 0.0
    ensures 0.0 < share * n < n
  {
    assert (1.0 - share) * n > 0.0;
  }

  /** Of nothing every percentile is nought. */
  lemma NothingRecorded(p: real)
    ensures PercentileH(RecordAll(EMPTY_HIST, []), p) == 0
  {}

  lemma RankInRange(p: real, count: nat)
    requires 0.0 < p < 100.0 && count > 0
    ensures 1 <= RankOf(p, count) <= count
  {}
}
