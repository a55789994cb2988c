/** The tracker against the truth: the set of positions accepted so far, in unbounded numbers. */
module SeqRuns {
  import opened Words
  import opened Serial
  import opened SeqTrackers

  const FRESH := Tracker(false, NoBits(), 0, 0, 0, 0, 0, 0)

  /** The state after packets at the given unbounded positions arrived, the last one last. */
  function Track(arrivals: seq<int>): (t: Tracker)
    ensures |t.bits| == WINDOW
  {
    if arrivals == [] then FRESH
    else ObserveT(Track(arrivals[..|arrivals| - 1]), Wrap32(arrivals[|arrivals| - 1])).0
  }

  /** The newest position among the arrivals. */
  function Newest(arrivals: seq<int>): int
    requires arrivals != []
  {
    var last, before := arrivals[|arrivals| - 1], arrivals[..|arrivals| - 1];
    if before == [] then last else Max(Newest(before), last)
  }

  /** The positions accepted: everything but what came more than a window behind the newest. */
  ghost function Accepted(arrivals: seq<int>): set<int> {
    if arrivals == [] then {}
    else
      var last, before := arrivals[|arrivals| - 1], arrivals[..|arrivals| - 1];
      Accepted(before) + if before != [] && last <= Newest(before) - WINDOW then {} else {last}
  }

  /** All arrivals lie within half the number space of one another. */
  ghost predicate WithinSpan(arrivals: seq<int>) {
    forall i, j | 0 <= i < |arrivals| && 0 <= j < |arrivals| :: arrivals[i] - arrivals[j] < 0x8000_0000
  }

  /** The tracker holds exactly the set `got`, whose ends are `lo` and `hi`. */
  ghost predicate Holds(t: Tracker, got: set<int>, lo: int, hi: int) {
    && t.started && |t.bits| == WINDOW && t.base == Wrap32(lo) && t.highest == Wrap32(hi)
    && lo in got && hi in got && (forall p | p in got :: lo <= p <= hi)
    && t.received == |got|
    && (forall p | hi - WINDOW < p <= hi :: BitAt(t, p) <==> p in got)
  }

  predicate BitAt(t: Tracker, p: int)
    requires |t.bits| == WINDOW
  { t.bits[p % WINDOW] }

  lemma SlotOfImage(p: int)
    ensures Wrap32(p) % WINDOW == p % WINDOW
  {}

  lemma SameSlot(p: int, q: int)
    requires -WINDOW < p - q < WINDOW
    ensures p % WINDOW == q % WINDOW <==> p == q
  {}

  lemma PastIsDifference(p: int, hi: int)
    ensures Past(p % WINDOW, Wrap32(hi)) == (p - hi) % WINDOW
  {
    SlotOfImage(hi);
    var k, h := p / WINDOW, Wrap32(hi) / WINDOW - hi / WINDOW;
    assert p % WINDOW - Wrap32(hi) == (p - hi) - WINDOW * (k + h);
  }

  lemma PastPosition(p: int, hi: int, span: int)
    requires 0 < span < WINDOW && hi - WINDOW < p <= hi + span
    ensures 0 < Past(p % WINDOW, Wrap32(hi)) < span <==> hi < p < hi + span || p < hi - WINDOW + span
  {
    PastIsDifference(p, hi);
    hide Past, Wrap32;
  }

  /** A packet ahead of everything seen: the positions it jumps over read as not received, though
      their slots may still carry bits from a window ago. */
  lemma AheadIsExact(t: Tracker, got: set<int>, lo: int, hi: int, p: int)
    requires Holds(t, got, lo, hi) && hi < p && p - lo < 0x8000_0000
    ensures var (u, v) := ObserveT(t, Wrap32(p)); v == InOrder && Holds(u, got + {p}, lo, p)
  {
    DistanceIsTrueDistance(hi, p);
    SlotOfImage(p);
    hide Distance, Wrap32;
    var (u, v) := ObserveT(t, Wrap32(p));
    var span := p - hi;
    forall q | p - WINDOW < q <= p
      ensures BitAt(u, q) <==> q in got + {p}
    {
      SameSlot(p, q);
      if span < WINDOW { PastPosition(q, hi, span); }
      hide Past;
      if q <= hi { assert BitAt(t, q) <==> q in got; }
    }
  }

  /** A packet at or behind the newest: a duplicate exactly when it was accepted before. */
  lemma BehindIsExact(t: Tracker, got: set<int>, lo: int, hi: int, p: int)
    requires Holds(t, got, lo, hi) && p <= hi && hi - p < 0x8000_0000 && hi - lo < 0x8000_0000
    ensures var (u, v) := ObserveT(t, Wrap32(p));
      if p <= hi - WINDOW then v == TooOld && Holds(u, got, lo, hi)
      else if p in got then v == Duplicate && Holds(u, got, lo, hi)
      else v == Reordered && Holds(u, got + {p}, Min(lo, p), hi)
  {
    DistanceIsTrueDistance(hi, p);
    if hi - WINDOW < p { assert BitAt(t, p) <==> p in got; DistanceOfBase(lo, hi, p); }
    SlotOfImage(p);
    hide Distance, Wrap32;
    var (u, v) := ObserveT(t, Wrap32(p));
    forall q | hi - WINDOW < q <= hi
      ensures BitAt(u, q) <==> q in got || (q == p && v == Reordered)
    {
      if hi - WINDOW < p { SameSlot(p, q); }
      assert BitAt(t, q) <==> q in got;
    }
  }

  lemma DistanceOfBase(lo: int, hi: int, p: int)
    requires lo <= hi && hi - WINDOW < p <= hi && hi - lo < 0x8000_0000
    ensures Precedes(Wrap32(p), Wrap32(lo)) <==> p < lo
  {
    DistanceIsTrueDistance(p, lo);
    hide Distance;
  }

  // ---------------------------------------------------------------- whole runs

  /** The oldest position accepted. */
  ghost function Oldest(arrivals: seq<int>): int
    requires arrivals != []
  {
    var last, before := arrivals[|arrivals| - 1], arrivals[..|arrivals| - 1];
    if before == [] then last
    else if last <= Newest(before) - WINDOW then Oldest(before)
    else Min(Oldest(before), last)
  }

  lemma {:induction false} EndsAreArrivals(arrivals: seq<int>)
    requires arrivals != []
    ensures Newest(arrivals) in arrivals && Oldest(arrivals) in arrivals
    ensures forall p | p in Accepted(arrivals) :: p in arrivals
  {
    var before := arrivals[..|arrivals| - 1];
    if before != [] { EndsAreArrivals(before); }
  }

  /** What the tracker answers to the last arrival. */
  ghost function Answer(arrivals: seq<int>): Verdict
    requires arrivals != []
  {
    var last, before := arrivals[|arrivals| - 1], arrivals[..|arrivals| - 1];
    if before == [] then First
    else if last > Newest(before) then InOrder
    else if last <= Newest(before) - WINDOW then TooOld
    else if last in Accepted(before) then Duplicate
    else Reordered
  }

  /** Over every run the window is exact: a bit is set if and only if its position was accepted, the
      count is the number of distinct accepted positions, and the verdict on each arrival is
      the truth about it; "duplicate" means accepted before, never a leftover bit. */
  lemma {:induction false} TrackerIsExact(arrivals: seq<int>)
    requires arrivals != [] && WithinSpan(arrivals)
    ensures Holds(Track(arrivals), Accepted(arrivals), Oldest(arrivals), Newest(arrivals))
    ensures ObserveT(Track(arrivals[..|arrivals| - 1]), Wrap32(arrivals[|arrivals| - 1])).1 == Answer(arrivals)
  {
    var last, before := arrivals[|arrivals| - 1], arrivals[..|arrivals| - 1];
    hide Holds, ObserveT, Wrap32, WithinSpan, Answer, Accepted, Newest, Oldest;
    if before == [] {
      assert arrivals == [last];
      FirstRun(last);
    } else {
      SpanOfPrefix(arrivals);
      TrackerIsExact(before);
      OneMoreIsExact(arrivals, before, last);
    }
  }

  lemma FirstRun(p: int)
    ensures Accepted([p]) == {p} && Oldest([p]) == Newest([p]) == p && Answer([p]) == First
    ensures var (u, v) := ObserveT(Track([]), Wrap32(p)); v == First && Holds(u, {p}, p, p)
  {
    FirstIsExact(p);
    assert [p][..0] == [] && Accepted([]) == {};
    hide Holds, ObserveT, Wrap32;
  }

  lemma OneMoreIsExact(arrivals: seq<int>, before: seq<int>, last: int)
    requires WithinSpan(arrivals) && before != [] && arrivals == before + [last]
    requires Holds(Track(before), Accepted(before), Oldest(before), Newest(before))
    ensures var (u, v) := ObserveT(Track(before), Wrap32(last));
      Holds(u, Accepted(arrivals), Oldest(arrivals), Newest(arrivals)) && v == Answer(arrivals)
  {
    var lo, hi, got := Oldest(before), Newest(before), Accepted(before);
    EndsAreArrivals(before);
    LastArrival(arrivals, before, last);
    assert last in arrivals && lo in arrivals && hi in arrivals;
    hide Holds, ObserveT, Wrap32, WithinSpan, Accepted, Newest, Oldest, Answer, Track;
    LoIsLeast(Track(before), got, lo, hi, last);
    SpanOf(arrivals, last, lo);
    SpanOf(arrivals, hi, last);
    SpanOf(arrivals, hi, lo);
    if last > hi {
      AheadIsExact(Track(before), got, lo, hi, last);
    } else {
      BehindIsExact(Track(before), got, lo, hi, last);
    }
  }

  /** How the last arrival changes what should be held. */
  lemma LastArrival(arrivals: seq<int>, before: seq<int>, last: int)
    requires before != [] && arrivals == before + [last]
    ensures var hi, got := Newest(before), Accepted(before);
      && Newest(arrivals) == Max(hi, last)
      && Accepted(arrivals) == (if last <= hi - WINDOW || last in got then got else got + {last})
      && Oldest(arrivals) == (if last <= hi - WINDOW then Oldest(before) else Min(Oldest(before), last))
      && Answer(arrivals) == if last > hi then InOrder else if last <= hi - WINDOW then TooOld
           else if last in got then Duplicate else Reordered
  {
    assert arrivals[..|arrivals| - 1] == before;
    var got := Accepted(before);
    assert last in got ==> got + {last} == got;
    assert got + {} == got;
  }

  lemma SpanOfPrefix(arrivals: seq<int>)
    requires arrivals != [] && WithinSpan(arrivals)
    ensures WithinSpan(arrivals[..|arrivals| - 1])
  {}

  lemma LoIsLeast(t: Tracker, got: set<int>, lo: int, hi: int, p: int)
    requires Holds(t, got, lo, hi)
    ensures lo <= hi
    ensures p in got ==> lo <= p
  {}

  lemma FirstIsExact(p: int)
    ensures var (u, v) := ObserveT(FRESH, Wrap32(p)); v == First && Holds(u, {p}, p, p)
  {
    SlotOfImage(p);
    hide Wrap32;
    var u := ObserveT(FRESH, Wrap32(p)).0;
    forall q | p - WINDOW < q <= p ensures BitAt(u, q) <==> q == p { SameSlot(p, q); }
  }

  lemma SpanOf(arrivals: seq<int>, a: int, b: int)
    requires WithinSpan(arrivals) && a in arrivals && b in arrivals
    ensures a - b < 0x8000_0000
  {
    var i :| 0 <= i < |arrivals| && arrivals[i] == a;
    var j :| 0 <= j < |arrivals| && arrivals[j] == b;
  }

  /** The positions from `lo` to `hi`. */
  ghost function Interval(lo: int, hi: int): set<int>
    decreases hi - lo
  { if hi < lo then {} else Interval(lo, hi - 1) + {hi} }

  lemma {:induction false} IntervalMembers(lo: int, hi: int)
    requires lo - 1 <= hi
    ensures forall p :: p in Interval(lo, hi) <==> lo <= p <= hi
    ensures |Interval(lo, hi)| == hi - lo + 1
    decreases hi - lo
  {
    if lo <= hi { IntervalMembers(lo, hi - 1); }
  }

  /** The loss count is the number of positions between the oldest and the newest accepted that were
      never accepted; the count received never exceeds the span, so the clamp never fires. */
  lemma LostIsExact(arrivals: seq<int>)
    requires arrivals != [] && WithinSpan(arrivals)
    ensures var t := Track(arrivals);
      && t.Expected() == Newest(arrivals) - Oldest(arrivals) + 1
      && t.received <= t.Expected()
      && t.Lost() == |Interval(Oldest(arrivals), Newest(arrivals)) - Accepted(arrivals)|
  {
    TrackerIsExact(arrivals);
    EndsAreArrivals(arrivals);
    SpanOf(arrivals, Newest(arrivals), Oldest(arrivals));
    hide *;
    LossOfState(Track(arrivals), Accepted(arrivals), Oldest(arrivals), Newest(arrivals));
  }

  lemma LossOfState(t: Tracker, got: set<int>, lo: int, hi: int)
    requires Holds(t, got, lo, hi) && hi - lo < 0x8000_0000
    ensures t.Expected() == hi - lo + 1 && t.received <= t.Expected() && t.Lost() == |Interval(lo, hi) - got|
  {
    DistanceIsTrueDistance(lo, hi);
    IntervalMembers(lo, hi);
    hide Interval, Distance, Wrap32;
    forall p | p in got ensures p in Interval(lo, hi) { assert lo <= p <= hi; }
    DifferenceSize(Interval(lo, hi), got);
  }

  lemma DifferenceSize(all: set<int>, part: set<int>)
    requires part <= all
    ensures |all - part| == |all| - |part|
  {
    assert all == (all - part) + part;
  }

  // ---------------------------------------------------------------- the counters

  /** How many arrivals got the answer `v`, each judged by the arrivals before it. */
  ghost function Answered(arrivals: seq<int>, v: Verdict): nat {
    if arrivals == [] then 0
    else Answered(arrivals[..|arrivals| - 1], v) + if Answer(arrivals) == v then 1 else 0
  }

  lemma ObserveCounts(t: Tracker, sequence: u32)
    requires |t.bits| == WINDOW
    ensures var (u, v) := ObserveT(t, sequence);
      && u.duplicates == t.duplicates + (if v == Duplicate then 1 else 0)
      && u.reordered == t.reordered + (if v == Reordered then 1 else 0)
      && u.tooOld == t.tooOld + if v == TooOld then 1 else 0
  {
    hide Distance, ClearedBits;
  }

  /** Every counter is the number of arrivals that truly were what it names, and every arrival is counted
      once: received for the first time, a duplicate, or too old. */
  lemma {:induction false} CountersAreAnswers(arrivals: seq<int>)
    requires WithinSpan(arrivals)
    ensures var t := Track(arrivals);
      && t.duplicates == Answered(arrivals, Duplicate) && t.reordered == Answered(arrivals, Reordered)
      && t.tooOld == Answered(arrivals, TooOld)
      && |arrivals| == |Accepted(arrivals)| + t.duplicates + t.tooOld
  {
    if arrivals != [] {
      var before, last := arrivals[..|arrivals| - 1], arrivals[|arrivals| - 1];
      SpanOfPrefix(arrivals);
      CountersAreAnswers(before);
      TrackerIsExact(arrivals);
      ObserveCounts(Track(before), Wrap32(last));
      AcceptedGrows(arrivals);
      hide Holds, ObserveT, Wrap32, WithinSpan, Answer, Accepted;
      assert Track(arrivals) == ObserveT(Track(before), Wrap32(last)).0;
    }
  }

  lemma AcceptedGrows(arrivals: seq<int>)
    requires arrivals != [] && WithinSpan(arrivals)
    ensures var v := Answer(arrivals);
      |Accepted(arrivals)| ==
        |Accepted(arrivals[..|arrivals| - 1])| + if v == Duplicate || v == TooOld then 0 else 1
  {
    var before, last := arrivals[..|arrivals| - 1], arrivals[|arrivals| - 1];
    assert arrivals == before + [last];
    if before == [] {
      hide Holds, WithinSpan, Answer, Newest, Oldest;
      FirstRun(last);
    } else {
      SpanOfPrefix(arrivals);
      hide *;
      TrackerIsExact(before);
      NewestIsNew(Track(before), Accepted(before), Oldest(before), Newest(before), last);
      LastArrival(arrivals, before, last);
    }
  }

  lemma NewestIsNew(t: Tracker, got: set<int>, lo: int, hi: int, p: int)
    requires Holds(t, got, lo, hi)
    ensures p > hi ==> p !in got
    ensures p !in got ==> |got + {p}| == |got| + 1
  {}

  /** Before the first arrival nothing is expected or lost; nor is it once base and newest are so far apart
      that the newest seems to lie behind. */
  lemma NothingExpected(t: Tracker)
    requires t.started ==> Distance(t.base, t.highest) < 0
    ensures t.Expected() == 0 && t.Lost() == 0 && Track([]).Expected() == 0
  {
    hide Distance;
  }
}
