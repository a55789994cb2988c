/** The clock estimator over whole runs: the drift anchor, the recorded round trips, and the state before any
    sample. */
module ClockRuns {
  import opened Words
  import opened Histograms
  import opened ClockSyncs

  /** Round trips of the accepted samples, oldest first. */
  function RoundTrips(log: seq<Sample>): seq<u64>
    requires forall i | 0 <= i < |log| :: 0 <= log[i].rttUs <= MAX_PLAUSIBLE_RTT_US
  { seq(|log|, i requires 0 <= i < |log| => log[i].rttUs) }

  lemma {:induction false} AcceptedArePlausible(xs: seq<Exchange>)
    ensures forall i | 0 <= i < |AcceptedLog(xs)| ::
      AcceptedLog(xs)[i].valid && 0 <= AcceptedLog(xs)[i].rttUs <= MAX_PLAUSIBLE_RTT_US
  {
    if xs != [] {
      AcceptedArePlausible(xs[..|xs| - 1]);
      hide RttOf, OffsetOf, Signed64;
    }
  }

  /** Every accepted round trip is in the histogram, and nothing else. */
  lemma {:induction false} RoundTripsAreRecorded(xs: seq<Exchange>)
    ensures forall i | 0 <= i < |AcceptedLog(xs)| :: 0 <= AcceptedLog(xs)[i].rttUs <= MAX_PLAUSIBLE_RTT_US
    ensures ObserveAll(xs).rtts == RecordAll(EMPTY_HIST, RoundTrips(AcceptedLog(xs)))
  {
    AcceptedArePlausible(xs);
    if xs != [] {
      var before, x := xs[..|xs| - 1], xs[|xs| - 1];
      AcceptedArePlausible(before);
      RoundTripsAreRecorded(before);
      RecordStep(ObserveAll(before), x);
      var log, trips := AcceptedLog(before), RoundTrips(AcceptedLog(before));
      hide RecordH, ObserveS, BestOf;
      if Plausible(x) {
        assert RoundTrips(AcceptedLog(xs)) == trips + [RttOf(x)];
        assert (trips + [RttOf(x)])[..|trips|] == trips;
        hide Plausible, RttOf;
      } else {
        assert AcceptedLog(xs) == log;
        hide Plausible;
      }
    }
  }

  lemma RecordStep(c: Sync, x: Exchange)
    requires Sized(c)
    ensures ObserveS(c, x).rtts == if Plausible(x) then RecordH(c.rtts, RttOf(x)) else c.rtts
  {
    hide RecordH, BestOf, RttOf, OffsetOf, Signed64;
  }

  /** Of the first eight accepted samples, the first that has the smallest round trip. */
  function FirstBest(log: seq<Sample>): Sample
    requires |log| >= WINDOW
  { BestOf(log[..WINDOW], WINDOW) }

  lemma AnchorStep(c: Sync, log: seq<Sample>, fed: nat, x: Exchange)
    requires Sized(c) && Agrees(c, log, fed) && Plausible(x)
    requires c.driftAnchor == if |log| < WINDOW then NO_SAMPLE else FirstBest(log)
    requires |log| >= WINDOW ==> FirstBest(log).valid
    ensures var more := log + [SampleOf(x)];
      ObserveS(c, x).driftAnchor == if |more| < WINDOW then NO_SAMPLE else FirstBest(more)
  {
    var more := log + [SampleOf(x)];
    hide BestOf, RecordH, RttOf, OffsetOf, SampleOf, Plausible;
    if |log| >= WINDOW {
      assert more[..WINDOW] == log[..WINDOW];
    } else if |log| == WINDOW - 1 {
      FillsInOrder(c.window, log);
      assert c.window[7 := SampleOf(x)] == more[..WINDOW];
    }
  }

  lemma FillsInOrder(window: seq<Sample>, log: seq<Sample>)
    requires HoldsLast(window, log) && |log| < WINDOW
    ensures window[..|log|] == log
  {
    forall i | 0 <= i < |log| ensures window[i] == log[i] { assert i % WINDOW == i; }
  }

  lemma FirstBestIsValid(log: seq<Sample>)
    requires |log| >= WINDOW && AllValid(log)
    ensures FirstBest(log).valid
  {
    BestIsLeast(log[..WINDOW], WINDOW);
    assert log[..WINDOW][0].valid;
    hide BestOf;
  }

  /** Drift is measured from the best of the first eight accepted samples, once there are eight, and ever after;
      until then there is nothing to measure it from. */
  lemma {:induction false} DriftAnchorIsFirstBest(xs: seq<Exchange>)
    ensures var log, anchor := AcceptedLog(xs), ObserveAll(xs).driftAnchor;
      && anchor.valid == (|log| >= WINDOW)
      && anchor == if |log| < WINDOW then NO_SAMPLE else FirstBest(log)
  {
    WindowHoldsLast(xs);
    if |AcceptedLog(xs)| >= WINDOW { FirstBestIsValid(AcceptedLog(xs)); }
    if xs != [] {
      var before, x := xs[..|xs| - 1], xs[|xs| - 1];
      DriftAnchorIsFirstBest(before);
      WindowHoldsLast(before);
      if Plausible(x) {
        AnchorStep(ObserveAll(before), AcceptedLog(before), |before|, x);
      } else {
        assert AcceptedLog(xs) == AcceptedLog(before);
      }
      hide BestOf, RecordH, RttOf, OffsetOf, SampleOf, Agrees, FirstBest;
    }
  }

  predicate NoneAsGood(window: seq<Sample>, k: nat)
    requires k < |window|
  { forall j | 0 <= j < k && window[j].valid :: window[j].rttUs > window[k].rttUs }

  /** Among equal round trips the scan keeps the one in the lowest slot. */
  lemma {:induction false} BestIsFirstOfEquals(window: seq<Sample>, n: nat)
    requires n <= |window| && BestOf(window, n).valid
    ensures exists k :: 0 <= k < n && window[k] == BestOf(window, n) && NoneAsGood(window, k)
  {
    assert n > 0;
    BestIsLeast(window, n - 1);
    if BestOf(window, n) == BestOf(window, n - 1) && BestOf(window, n - 1).valid {
      BestIsFirstOfEquals(window, n - 1);
    } else {
      assert window[n - 1] == BestOf(window, n);
    }
  }

  /** Before any sample is accepted there is no estimate, no uncertainty, and no translation. */
  lemma NoSampleNoEstimate(xs: seq<Exchange>, us: u64)
    requires AcceptedLog(xs) == []
    ensures var best := BestOf(ObserveAll(xs).window, WINDOW);
      !best.valid && UncertaintyOf(best) == 0 && ToLocal(best, us) == us && ToRemote(best, us) == us
  {
    WindowHoldsLast(xs);
    BestIsLeast(ObserveAll(xs).window, WINDOW);
    hide BestOf, ObserveAll, AcceptedLog;
  }

  /** Which exchanges are believed, true or not: those in which neither clock goes back and the round trip lies
      between nought and two seconds; and a sample bears the time of its answer. */
  lemma BelievedIff(x: Exchange)
    requires Small(x)
    ensures var s := SampleOf(x);
      && (s.valid <==> x.t1 <= x.t4 && x.t2 <= x.t3 && 0 <= x.t4 - x.t1 - (x.t3 - x.t2) <= 2_000_000)
      && (s.valid ==>
            && s.localTimeUs == x.t4 && s.rttUs == x.t4 - x.t1 - (x.t3 - x.t2)
            && s.offsetUs == TruncDiv(x.t2 - x.t1 + (x.t3 - x.t4), 2))
  {
    SmallRtt(x);
    SmallOffset(x);
    SignedSmall(x.t1);
    SignedSmall(x.t2);
    SignedSmall(x.t3);
    SignedSmall(x.t4);
    hide Signed64, RttOf, OffsetOf, TruncDiv;
  }
}
