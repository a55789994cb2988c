/** The clock-offset estimator fed by four-timestamp exchanges (section 8 of RFC 5905). */
module ClockSyncs {
  import opened Words
  import opened Histograms
  import opened Buckets

  const WINDOW: int := 8
  const MAX_PLAUSIBLE_RTT_US: int := 2_000_000

  datatype Sample = Sample(rttUs: int, offsetUs: int, localTimeUs: u64, valid: bool)

  const NO_SAMPLE := Sample(0, 0, 0, false)

  /** One completed exchange: t1 and t4 on our clock, t2 and t3 on the peer's. */
  datatype Exchange = Exchange(t1: u64, t2: u64, t3: u64, t4: u64)

  /** The estimator as a value; `window` is the circular store. */
  datatype Sync = Sync(
    window: seq<Sample>, nextSlot: nat, accepted: nat, rejected: nat, driftAnchor: Sample, rtts: Hist)

  function FreshSync(): Sync { Sync(seq(WINDOW, _ => NO_SAMPLE), 0, 0, 0, NO_SAMPLE, EMPTY_HIST) }

  /** The two differences of the exchange, in signed 64-bit arithmetic. */
  function RttOf(x: Exchange): int {
    Signed64(Signed64(Signed64(x.t4) - Signed64(x.t1)) - Signed64(Signed64(x.t3) - Signed64(x.t2)))
  }

  function OffsetOf(x: Exchange): int {
    TruncDiv(Signed64(Signed64(Signed64(x.t2) - Signed64(x.t1)) + Signed64(Signed64(x.t3) - Signed64(x.t4))), 2)
  }

  predicate Plausible(x: Exchange) {
    && Signed64(x.t4) >= Signed64(x.t1) && Signed64(x.t3) >= Signed64(x.t2)
    && 0 <= RttOf(x) <= MAX_PLAUSIBLE_RTT_US
  }

  function SampleOf(x: Exchange): Sample {
    if Plausible(x) then Sample(RttOf(x), OffsetOf(x), x.t4, true) else NO_SAMPLE
  }

  predicate Sized(c: Sync) { |c.window| == WINDOW && c.nextSlot < WINDOW && |c.rtts.buckets| == BUCKETS }

  function ObserveS(c: Sync, x: Exchange): (d: Sync)
    requires Sized(c)
    ensures Sized(d)
  {
    if !Plausible(x) then c.(rejected := c.rejected + 1)
    else
      var window := c.window[c.nextSlot := SampleOf(x)];
      Sync(window, (c.nextSlot + 1) % WINDOW, c.accepted + 1, c.rejected,
           if !c.driftAnchor.valid && c.accepted + 1 >= WINDOW then BestOf(window, WINDOW) else c.driftAnchor,
           RecordH(c.rtts, RttOf(x)))
  }

  /** The winner of the scan over the first `n` slots: the first of the smallest round trips. */
  function BestOf(window: seq<Sample>, n: nat): Sample
    requires n <= |window|
  {
    if n == 0 then NO_SAMPLE
    else
      var winner, candidate := BestOf(window, n - 1), window[n - 1];
      if candidate.valid && (!winner.valid || candidate.rttUs < winner.rttUs) then candidate else winner
  }

  function UncertaintyOf(best: Sample): int { if best.valid then TruncDiv(Max(0, best.rttUs), 2) else 0 }

  function ToLocal(best: Sample, remoteUs: u64): u64 {
    if best.valid then Wrap64(Signed64(remoteUs) - best.offsetUs) else remoteUs
  }

  function ToRemote(best: Sample, localUs: u64): u64 {
    if best.valid then Wrap64(Signed64(localUs) + best.offsetUs) else localUs
  }

  class ClockSync {
    const window: array<Sample>
    const rtts: Histogram
    var nextSlot: nat
    var accepted: nat
    var rejected: nat
    var driftAnchor: Sample

    ghost predicate Valid()
      reads this
    { window.Length == WINDOW && nextSlot < WINDOW && rtts.Valid() }

    ghost function Model(): (c: Sync)
      requires Valid()
      reads this, window, rtts, rtts.buckets
      ensures Sized(c)
    { Sync(window[..], nextSlot, accepted, rejected, driftAnchor, rtts.Model()) }

    constructor ()
      ensures Valid() && Model() == FreshSync()
      ensures fresh(window) && fresh(rtts) && fresh(rtts.buckets)
    {
      window := new Sample[WINDOW](_ => NO_SAMPLE);
      rtts := new Histogram();
      nextSlot, accepted, rejected, driftAnchor := 0, 0, 0, NO_SAMPLE;
      new;
      assert window[..] == FreshSync().window;
    }

    method Best() returns (winner: Sample)
      requires Valid()
      ensures winner == BestOf(window[..], WINDOW)
    {
      winner := NO_SAMPLE;
      for i := 0 to WINDOW
        invariant winner == BestOf(window[..], i)
      {
        var candidate := window[i];
        if candidate.valid && (!winner.valid || candidate.rttUs < winner.rttUs) {
          winner := candidate;
        }
      }
    }

    method Observe(t1: u64, t2: u64, t3: u64, t4: u64) returns (sample: Sample)
      requires Valid()
      modifies this, window, rtts, rtts.buckets
      ensures Valid() && Model() == ObserveS(old(Model()), Exchange(t1, t2, t3, t4))
      ensures sample == SampleOf(Exchange(t1, t2, t3, t4))
    {
      hide Signed64, RecordH, BestOf;
      ghost var x, c := Exchange(t1, t2, t3, t4), Model();
      var T1, T2, T3, T4 := Signed64(t1), Signed64(t2), Signed64(t3), Signed64(t4);
      if T4 < T1 || T3 < T2 {
        rejected := rejected + 1;
        return NO_SAMPLE;
      }
      var rtt := Signed64(Signed64(T4 - T1) - Signed64(T3 - T2));
      if rtt < 0 || rtt > MAX_PLAUSIBLE_RTT_US {
        rejected := rejected + 1;
        return NO_SAMPLE;
      }
      sample := Sample(rtt, TruncDiv(Signed64(Signed64(T2 - T1) + Signed64(T3 - T4)), 2), t4, true);
      window[nextSlot] := sample;
      assert window[..] == c.window[c.nextSlot := SampleOf(x)];
      nextSlot, accepted := (nextSlot + 1) % WINDOW, accepted + 1;
      rtts.Record(rtt);
      if !driftAnchor.valid && accepted >= WINDOW {
        driftAnchor := Best();
      }
    }

    method OffsetUncertaintyUs() returns (us: int)
      requires Valid()
      ensures us == UncertaintyOf(BestOf(window[..], WINDOW))
    {
      var sample := Best();
      us := UncertaintyOf(sample);
    }

    method RemoteToLocal(remoteUs: u64) returns (localUs: u64)
      requires Valid()
      ensures localUs == ToLocal(BestOf(window[..], WINDOW), remoteUs)
    {
      var sample := Best();
      localUs := ToLocal(sample, remoteUs);
    }

    method LocalToRemote(localUs: u64) returns (remoteUs: u64)
      requires Valid()
      ensures remoteUs == ToRemote(BestOf(window[..], WINDOW), localUs)
    {
      var sample := Best();
      remoteUs := ToRemote(sample, localUs);
    }
  }

  // ---------------------------------------------------------------- one exchange

  /** An exchange as it really happened: the peer's clock is `theta` ahead of ours, the ping takes `d1`,
      the peer thinks for `think`, the pong takes `d2`. */
  datatype Truth = Truth(start: int, theta: int, d1: nat, think: nat, d2: nat)

  function Stamp1(e: Truth): int { e.start }
  function Stamp2(e: Truth): int { e.start + e.d1 + e.theta }
  function Stamp3(e: Truth): int { e.start + e.d1 + e.theta + e.think }
  function Stamp4(e: Truth): int { e.start + e.d1 + e.think + e.d2 }

  /** Both clocks read below 2^62 microseconds, so no difference overflows. */
  predicate InRange(e: Truth) {
    && 0 <= Stamp1(e) && Stamp4(e) < 0x4000_0000_0000_0000
    && 0 <= Stamp2(e) && Stamp3(e) < 0x4000_0000_0000_0000
  }

  function ExchangeOf(e: Truth): Exchange
    requires InRange(e)
  { Exchange(Stamp1(e), Stamp2(e), Stamp3(e), Stamp4(e)) }

  lemma SignedSmall(x: int)
    requires -0x8000_0000_0000_0000 <= x < 0x8000_0000_0000_0000
    ensures Signed64(x) == x
  {}

  predicate Small(x: Exchange) {
    x.t1 < 0x4000_0000_0000_0000 && x.t2 < 0x4000_0000_0000_0000
    && x.t3 < 0x4000_0000_0000_0000 && x.t4 < 0x4000_0000_0000_0000
  }

  lemma SmallRtt(x: Exchange)
    requires Small(x)
    ensures RttOf(x) == x.t4 - x.t1 - (x.t3 - x.t2)
  {
    hide Signed64;
    SignedSmall(x.t1);
    SignedSmall(x.t2);
    SignedSmall(x.t3);
    SignedSmall(x.t4);
    SignedSmall(x.t4 - x.t1);
    SignedSmall(x.t3 - x.t2);
    SignedSmall(x.t4 - x.t1 - (x.t3 - x.t2));
  }

  lemma SmallOffset(x: Exchange)
    requires Small(x)
    ensures OffsetOf(x) == TruncDiv(x.t2 - x.t1 + (x.t3 - x.t4), 2)
  {
    hide Signed64, TruncDiv;
    SignedSmall(x.t1);
    SignedSmall(x.t2);
    SignedSmall(x.t3);
    SignedSmall(x.t4);
    SignedSmall(x.t2 - x.t1);
    SignedSmall(x.t3 - x.t4);
    SignedSmall(x.t2 - x.t1 + (x.t3 - x.t4));
  }

  lemma TrueDifferences(e: Truth)
    requires InRange(e)
    ensures RttOf(ExchangeOf(e)) == e.d1 + e.d2
    ensures OffsetOf(ExchangeOf(e)) == TruncDiv(2 * e.theta + e.d1 - e.d2, 2)
  {
    hide TruncDiv, RttOf, OffsetOf;
    SmallRtt(ExchangeOf(e));
    SmallOffset(ExchangeOf(e));
  }

  /** The round trip is measured exactly, whatever the offset and the thinking time; the offset is off
      by at most half the round trip plus half a microsecond; and every exchange of up to two
      seconds on the wire is accepted. */
  lemma EstimateError(e: Truth)
    requires InRange(e)
    ensures var s := SampleOf(ExchangeOf(e));
      && s.valid == (e.d1 + e.d2 <= MAX_PLAUSIBLE_RTT_US)
      && (s.valid ==> s.rttUs == e.d1 + e.d2 && 2 * Abs(s.offsetUs - e.theta) <= s.rttUs + 1)
  {
    TrueDifferences(e);
    SignedSmall(Stamp1(e));
    SignedSmall(Stamp2(e));
    SignedSmall(Stamp3(e));
    SignedSmall(Stamp4(e));
    hide Signed64, RttOf, OffsetOf;
  }

  /** The stated uncertainty, half the round trip rounded down, is exceeded exactly when the round trip
      is odd and all of it lies on one leg: the return leg for a positive raw sum, the outward
      leg for a negative one. An even round trip is always within it. */
  lemma UncertaintyExact(e: Truth)
    requires InRange(e) && e.d1 + e.d2 <= MAX_PLAUSIBLE_RTT_US
    ensures var s := SampleOf(ExchangeOf(e));
      Abs(s.offsetUs - e.theta) <= UncertaintyOf(s) <==>
        !((e.d1 + e.d2) % 2 == 1
          && ((e.d1 == 0 && 2 * e.theta + e.d1 - e.d2 > 0) || (e.d2 == 0 && 2 * e.theta + e.d1 - e.d2 < 0)))
  {
    EstimateError(e);
    TrueDifferences(e);
    hide Signed64, RttOf, OffsetOf;
  }

  /** One microsecond out, none back, and a peer one microsecond behind: the estimate is off by one,
      the stated uncertainty is zero. */
  lemma UncertaintyCanBeExceeded()
    ensures var e := Truth(10, -1, 1, 0, 0); var s := SampleOf(ExchangeOf(e));
      s.valid && s.offsetUs == 0 && Abs(s.offsetUs - e.theta) == 1 && UncertaintyOf(s) == 0
  {
    EstimateError(Truth(10, -1, 1, 0, 0));
    TrueDifferences(Truth(10, -1, 1, 0, 0));
    hide Signed64;
  }

  /** The estimate is used the right way round: an instant that reads `localUs` here and `localUs + theta` on the
      peer's clock is translated either way to within the error of the estimate. */
  lemma TranslationIsTrue(e: Truth, localUs: nat)
    requires InRange(e) && e.d1 + e.d2 <= MAX_PLAUSIBLE_RTT_US
    requires 1_000_001 <= localUs < 0x4000_0000_0000_0000
    requires 1_000_001 <= localUs + e.theta < 0x4000_0000_0000_0000
    ensures var s := SampleOf(ExchangeOf(e));
      && 2 * Abs(ToRemote(s, localUs) - (localUs + e.theta)) <= e.d1 + e.d2 + 1
      && 2 * Abs(ToLocal(s, localUs + e.theta) - localUs) <= e.d1 + e.d2 + 1
  {
    EstimateError(e);
    hide *;
    TranslatedWithin(SampleOf(ExchangeOf(e)), localUs, localUs + e.theta, e.d1 + e.d2);
  }

  lemma TranslatedWithin(s: Sample, localUs: nat, remoteUs: nat, rtt: nat)
    requires s.valid && 2 * Abs(s.offsetUs - (remoteUs - localUs)) <= rtt + 1 <= 2_000_001
    requires 1_000_001 <= localUs < 0x4000_0000_0000_0000 && 1_000_001 <= remoteUs < 0x4000_0000_0000_0000
    ensures 2 * Abs(ToRemote(s, localUs) - remoteUs) <= rtt + 1
    ensures 2 * Abs(ToLocal(s, remoteUs) - localUs) <= rtt + 1
  {
    hide Signed64, Wrap64;
    SignedSmall(localUs);
    SignedSmall(remoteUs);
    NoWrap(localUs + s.offsetUs);
    NoWrap(remoteUs - s.offsetUs);
  }

  lemma NoWrap(x: int)
    ensures 0 <= x < 0x8000_0000_0000_0000 ==> Wrap64(x) == x
  {}

  /** Translating a time to the peer's clock and back returns it, for every 64-bit time. */
  lemma TranslationRoundTrip(best: Sample, us: u64)
    ensures ToLocal(best, ToRemote(best, us)) == us && ToRemote(best, ToLocal(best, us)) == us
  {
    hide Signed64, Wrap64;
    ShiftBack(us, best.offsetUs);
    ShiftBack(us, -best.offsetUs);
  }

  lemma SignedIsCongruent(y: int, o: int)
    ensures Wrap64(Signed64(y) + o) == Wrap64(y + o)
  {}

  lemma ShiftBack(us: u64, o: int)
    ensures Wrap64(Signed64(Wrap64(Signed64(us) + o)) - o) == us
  {
    SignedIsCongruent(us, o);
    SignedIsCongruent(Wrap64(us + o), -o);
    hide Signed64;
  }

  // ---------------------------------------------------------------- the window

  /** The estimator after a list of exchanges. */
  function ObserveAll(xs: seq<Exchange>): (c: Sync)
    ensures Sized(c)
  { if xs == [] then FreshSync() else ObserveS(ObserveAll(xs[..|xs| - 1]), xs[|xs| - 1]) }

  /** The accepted samples, oldest first. */
  function AcceptedLog(xs: seq<Exchange>): seq<Sample> {
    if xs == [] then []
    else
      AcceptedLog(xs[..|xs| - 1]) + if Plausible(xs[|xs| - 1]) then [SampleOf(xs[|xs| - 1])] else []
  }

  /** The slot array holds the last eight entries of the log, and nothing else that is valid. */
  ghost predicate HoldsLast(window: seq<Sample>, log: seq<Sample>) {
    && |window| == WINDOW
    && (forall i | |log| - WINDOW <= i < |log| && 0 <= i :: window[i % WINDOW] == log[i])
    && (forall k | |log| <= k < WINDOW :: !window[k].valid)
  }

  /** What the estimator and the log of accepted samples have in common after every exchange. */
  ghost predicate Agrees(c: Sync, log: seq<Sample>, fed: nat) {
    && c.accepted == |log| && c.accepted + c.rejected == fed && c.nextSlot == |log| % WINDOW
    && HoldsLast(c.window, log) && AllValid(log)
  }

  lemma ObserveAgrees(c: Sync, log: seq<Sample>, fed: nat, x: Exchange)
    requires Sized(c) && Agrees(c, log, fed)
    ensures Agrees(ObserveS(c, x), log + if Plausible(x) then [SampleOf(x)] else [], fed + 1)
  {
    assert Plausible(x) ==> SampleOf(x).valid;
    hide BestOf, RecordH, RttOf, OffsetOf, HoldsLast, AllValid, Signed64, SampleOf, Plausible;
    if Plausible(x) {
      StoreInWindow(c.window, log, SampleOf(x));
      OneMoreValid(log, SampleOf(x));
      NextInWindow(|log|);
    } else {
      assert log + [] == log;
    }
  }

  lemma OneMoreValid(log: seq<Sample>, sample: Sample)
    requires AllValid(log) && sample.valid
    ensures AllValid(log + [sample])
  {}

  lemma NextInWindow(n: nat)
    ensures (n % WINDOW + 1) % WINDOW == (n + 1) % WINDOW
  {}

  lemma {:induction false} WindowHoldsLast(xs: seq<Exchange>)
    ensures Agrees(ObserveAll(xs), AcceptedLog(xs), |xs|)
  {
    if xs != [] {
      var before, x := xs[..|xs| - 1], xs[|xs| - 1];
      WindowHoldsLast(before);
      ObserveAgrees(ObserveAll(before), AcceptedLog(before), |before|, x);
      hide Agrees, ObserveS, Plausible, SampleOf;
    }
  }

  lemma StoreInWindow(window: seq<Sample>, log: seq<Sample>, sample: Sample)
    requires HoldsLast(window, log)
    ensures HoldsLast(window[|log| % WINDOW := sample], log + [sample])
  {
    var n := |log|;
    forall i | n + 1 - WINDOW <= i < n && 0 <= i ensures i % WINDOW != n % WINDOW {}
  }

  /** `b` is one of the first `n` valid samples of `window` and has the smallest round trip of them,
      or there is none. */
  ghost predicate LeastOf(b: Sample, window: seq<Sample>, n: nat)
    requires n <= |window|
  {
    && (b.valid ==> exists k :: 0 <= k < n && window[k] == b)
    && (forall k | 0 <= k < n && window[k].valid :: b.valid && b.rttUs <= window[k].rttUs)
  }

  /** The same, over the last eight entries of a log. */
  ghost predicate LeastOfLastEight(b: Sample, log: seq<Sample>) {
    && (exists i :: |log| - WINDOW <= i < |log| && 0 <= i && log[i] == b)
    && (forall i | |log| - WINDOW <= i < |log| && 0 <= i :: b.rttUs <= log[i].rttUs)
  }

  ghost predicate AllValid(log: seq<Sample>) { forall i | 0 <= i < |log| :: log[i].valid }

  lemma {:induction false} BestIsLeast(window: seq<Sample>, n: nat)
    requires n <= |window|
    ensures LeastOf(BestOf(window, n), window, n)
  {
    if n > 0 { BestIsLeast(window, n - 1); }
  }

  /** The estimate in use is one of the last eight accepted exchanges, the one with the smallest round
      trip among them, as soon as there is any. */
  lemma BestOfLastEight(xs: seq<Exchange>)
    requires AcceptedLog(xs) != []
    ensures BestOf(ObserveAll(xs).window, WINDOW).valid
    ensures LeastOfLastEight(BestOf(ObserveAll(xs).window, WINDOW), AcceptedLog(xs))
  {
    WindowHoldsLast(xs);
    var window, log := ObserveAll(xs).window, AcceptedLog(xs);
    BestIsLeast(window, WINDOW);
    var n := |log|;
    hide BestOf, AcceptedLog, ObserveAll;
    assert window[(n - 1) % WINDOW] == log[n - 1];
    var b := BestOf(window, WINDOW);
    var k :| 0 <= k < WINDOW && window[k] == b;
    SlotsFilled(n, k);
    var i := LastInSlot(n, k);
    assert n > k && window[i % WINDOW] == log[i];
    forall j | n - WINDOW <= j < n && 0 <= j ensures b.rttUs <= log[j].rttUs {
      assert window[j % WINDOW] == log[j];
    }
  }

  /** The last of the first `n` positions that falls in slot `k`. */
  function LastInSlot(n: nat, k: nat): int { n - 1 - (n - 1 - k) % WINDOW }

  lemma SlotsFilled(n: nat, k: nat)
    requires k < WINDOW
    ensures n > k ==> 0 <= LastInSlot(n, k) && n - WINDOW <= LastInSlot(n, k) < n && LastInSlot(n, k) % WINDOW == k
  {}
}
