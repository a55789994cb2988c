/** Whole runs of the impairment engine: accounting, replay, the link limit, delays and bursts. */
module ImpairmentRuns {
  import opened Words
  import opened ImpairmentSpec
  import opened TokenBucket

  function Run(c: Curves, e: Engine, packets: seq<Packet>): Engine {
    if packets == [] then e
    else
      var last := packets[|packets| - 1];
      DecideE(c, Run(c, e, packets[..|packets| - 1]), last.bytes, last.now).0
  }

  function Decisions(c: Curves, e: Engine, packets: seq<Packet>): (r: seq<Decision>)
    ensures |r| == |packets|
  {
    if packets == [] then []
    else
      var before, last := packets[..|packets| - 1], packets[|packets| - 1];
      Decisions(c, e, before) + [DecideE(c, Run(c, e, before), last.bytes, last.now).1]
  }

  // ---------------------------------------------------------------- accounting

  function Tally(ds: seq<Decision>, v: Verdict): nat {
    if ds == [] then 0 else Tally(ds[..|ds| - 1], v) + if ds[|ds| - 1].verdict == v then 1 else 0
  }

  function Copies(ds: seq<Decision>): nat {
    if ds == [] then 0 else Copies(ds[..|ds| - 1]) + if ds[|ds| - 1].duplicate then 1 else 0
  }

  function Held(ds: seq<Decision>): nat {
    if ds == [] then 0 else Held(ds[..|ds| - 1]) + if ds[|ds| - 1].reorderApplied then 1 else 0
  }

  ghost predicate Counted(counts: Counts, ds: seq<Decision>) {
    && counts.considered == |ds| && counts.forwarded == Tally(ds, Forward)
    && counts.droppedIndependent == Tally(ds, DropIndependent) && counts.droppedBurst == Tally(ds, DropBurst)
    && counts.droppedRateLimit == Tally(ds, DropRateLimit)
    && counts.duplicated == Copies(ds) && counts.reordered == Held(ds)
  }

  /** How one decision moves the counters, bursts entered aside. */
  ghost predicate Moves(before: Counts, after: Counts, d: Decision) {
    && after.considered == before.considered + 1
    && after.forwarded == before.forwarded + (if d.verdict == Forward then 1 else 0)
    && after.droppedIndependent == before.droppedIndependent + (if d.verdict == DropIndependent then 1 else 0)
    && after.droppedBurst == before.droppedBurst + (if d.verdict == DropBurst then 1 else 0)
    && after.droppedRateLimit == before.droppedRateLimit + (if d.verdict == DropRateLimit then 1 else 0)
    && after.duplicated == before.duplicated + (if d.duplicate then 1 else 0)
    && after.reordered == before.reordered + (if d.reorderApplied then 1 else 0)
    && ((d.duplicate || d.reorderApplied) ==> d.verdict == Forward)
  }

  /** Each counter adds up, and copies and held packets are among the forwarded. */
  ghost predicate Conserved(n: Counts) {
    && n.considered == n.forwarded + n.droppedIndependent + n.droppedBurst + n.droppedRateLimit
    && n.duplicated <= n.forwarded && n.reordered <= n.forwarded
  }

  /** What one decision does to the counters can be read off the decision alone. */
  lemma OneDecision(c: Curves, e: Engine, bytes: nat, now: u64)
    ensures var (n, d) := DecideE(c, e, bytes, now); Moves(e.counts, n.counts, d)
  {
    hide Unit, Wrap64, Allows, Hit, AfterHit, AfterDelay, Delay;
  }

  lemma CountedStep(before: Counts, after: Counts, ds: seq<Decision>, d: Decision)
    requires Counted(before, ds) && Conserved(before) && Moves(before, after, d)
    ensures Counted(after, ds + [d]) && Conserved(after)
  {
    assert (ds + [d])[..|ds|] == ds;
  }

  /** Over every run from a reset engine, each counter is the number of decisions it names, every packet
      considered is forwarded or dropped in exactly one of three ways, and only forwarded packets are
      duplicated or reordered. */
  lemma {:induction false} EveryPacketIsCountedOnce(c: Curves, e: Engine, packets: seq<Packet>)
    requires e.counts == NO_COUNTS
    ensures var n := Run(c, e, packets).counts;
      Counted(n, Decisions(c, e, packets)) && Conserved(n)
  {
    if packets != [] {
      var before, last := packets[..|packets| - 1], packets[|packets| - 1];
      EveryPacketIsCountedOnce(c, e, before);
      OneDecision(c, Run(c, e, before), last.bytes, last.now);
      hide DecideE, Counted, Conserved, Moves;
      var d := DecideE(c, Run(c, e, before), last.bytes, last.now).1;
      CountedStep(Run(c, e, before).counts, Run(c, e, packets).counts, Decisions(c, e, before), d);
    }
  }

  // ---------------------------------------------------------------- replay

  lemma DecideKeepsSetup(c: Curves, e: Engine, bytes: nat, now: u64)
    ensures var n := DecideE(c, e, bytes, now).0;
      n.cfg == e.cfg && n.seed == e.seed && n.goodToBad == e.goodToBad && n.badToGood == e.badToGood
  {
    hide Unit, Wrap64, Allows, Hit, AfterHit, AfterDelay, Delay;
  }

  lemma {:induction false} RunKeepsSetup(c: Curves, e: Engine, packets: seq<Packet>)
    ensures var n := Run(c, e, packets);
      n.cfg == e.cfg && n.seed == e.seed && n.goodToBad == e.goodToBad && n.badToGood == e.badToGood
  {
    if packets != [] {
      var before, last := packets[..|packets| - 1], packets[|packets| - 1];
      RunKeepsSetup(c, e, before);
      DecideKeepsSetup(c, Run(c, e, before), last.bytes, last.now);
      hide DecideE;
    }
  }

  /** After any history at all, a reset engine makes the decisions a new one would, packet for packet,
      and ends in the same state. */
  lemma ResetReplays(c: Curves, config: Impairment, seed: u64, history: seq<Packet>, packets: seq<Packet>)
    ensures var unused, used := NewEngine(config, seed), Run(c, NewEngine(config, seed), history);
      && Decisions(c, ResetE(used), packets) == Decisions(c, unused, packets)
      && Run(c, ResetE(used), packets) == Run(c, unused, packets)
  {
    RunKeepsSetup(c, NewEngine(config, seed), history);
    hide Run, Decisions, Normalised, GoodToBad, BadToGood;
    assert ResetE(Run(c, NewEngine(config, seed), history)) == NewEngine(config, seed);
  }

  // ---------------------------------------------------------------- the link limit

  /** The packets that reach the limiter: neither lost alone nor in a burst. */
  function Survivors(c: Curves, e: Engine, packets: seq<Packet>): (r: seq<Packet>)
    ensures |r| <= |packets|
  {
    if packets == [] then []
    else
      var before, last := packets[..|packets| - 1], packets[|packets| - 1];
      var verdict := DecideE(c, Run(c, e, before), last.bytes, last.now).1.verdict;
      Survivors(c, e, before) + if verdict == Forward || verdict == DropRateLimit then [last] else []
  }

  lemma LimiterStep(c: Curves, e: Engine, bytes: nat, now: u64)
    ensures var (n, d) := DecideE(c, e, bytes, now);
      if d.verdict == Forward || d.verdict == DropRateLimit
      then n.bucket == Allows(e.cfg, e.bucket, bytes, now).0
           && (d.verdict == Forward <==> Allows(e.cfg, e.bucket, bytes, now).1)
      else n.bucket == e.bucket
  {
    hide Unit, Wrap64, Allows, Hit, AfterHit, AfterDelay, Delay;
  }

  lemma {:induction false} LimiterSeesSurvivors(c: Curves, e: Engine, packets: seq<Packet>)
    requires e.bucket == FullBucket(e.cfg)
    ensures Run(c, e, packets).bucket == After(e.cfg, Survivors(c, e, packets))
  {
    if packets != [] {
      var before, last := packets[..|packets| - 1], packets[|packets| - 1];
      LimiterSeesSurvivors(c, e, before);
      RunKeepsSetup(c, e, before);
      LimiterStep(c, Run(c, e, before), last.bytes, last.now);
      var passed, all := Survivors(c, e, before), Survivors(c, e, packets);
      hide DecideE, Allows, FullBucket;
      if all != passed {
        assert all[..|passed|] == passed && all[|passed|] == last;
      }
    }
  }

  /** On every run of a limited link, a packet that the loss models spare is forwarded exactly when every
      window of spared packets ending with it has room: one bucket plus the rate over the window. */
  lemma ForwardedIffEveryWindowAllows(c: Curves, e: Engine, packets: seq<Packet>, next: Packet)
    requires e.bucket == FullBucket(e.cfg) && e.cfg.rateBps > 0
    ensures var verdict := DecideE(c, Run(c, e, packets), next.bytes, next.now).1.verdict;
      var passed := Survivors(c, e, packets);
      verdict == Forward || verdict == DropRateLimit ==>
        (verdict == Forward <==>
         forall i | 0 <= i <= |passed| :: next.bytes as real <= Allowance(e.cfg, passed, i, next.now))
  {
    LimiterSeesSurvivors(c, e, packets);
    RunKeepsSetup(c, e, packets);
    LimiterStep(c, Run(c, e, packets), next.bytes, next.now);
    PassesIffEveryWindowAllows(e.cfg, Survivors(c, e, packets), next);
    hide DecideE, Run, Survivors, Allowance, Allows, FullBucket;
  }

  // ---------------------------------------------------------------- delays

  /** The unsigned jitter wraps on the way out and wraps back on the way in: whatever its sign, the delay
      is the whole part of the total while the total is positive. */
  lemma DelayIsTotal(c: Curves, cfg: Impairment, d: Dice)
    requires JitterOn(cfg) && 0.0 < TotalDelay(c, cfg, d) < 18446744073709551616.0
    ensures Delay(c, cfg, d) == TotalDelay(c, cfg, d).Floor
  {
    hide TotalDelay, JitterOn;
    var total: nat := TotalDelay(c, cfg, d).Floor;
    WrapCancels(cfg.baseDelayUs, total);
  }

  lemma WrapCancels(base: u64, total: u64)
    ensures Wrap64(base + Wrap64(Wrap64(total) - base)) == total
  {}

  /** A total that is not positive is not clamped to zero: the base delay stands. So the delay is the
      clamped total exactly when the total is positive or there is no base delay to keep. */
  lemma DelayIsClampedTotal(c: Curves, cfg: Impairment, d: Dice)
    requires JitterOn(cfg) && TotalDelay(c, cfg, d) < 18446744073709551616.0
    ensures Delay(c, cfg, d) == Max(0, TotalDelay(c, cfg, d).Floor) <==>
      TotalDelay(c, cfg, d) > 0.0 || cfg.baseDelayUs == 0
  {
    if TotalDelay(c, cfg, d) > 0.0 { DelayIsTotal(c, cfg, d); }
    hide TotalDelay, JitterOn;
  }

  /** A millisecond of base delay, a millisecond of jitter, and a draw two deviations early: the total
      is a millisecond in the past, and the packet still waits a whole millisecond. */
  lemma NegativeTotalKeepsBase(c: Curves, cfg: Impairment, state: u64)
    requires cfg.baseDelayUs == 1_000 && cfg.jitterUs == 1_000 && cfg.shape == Normal
    ensures var d := Dice(state, true, -2.0); TotalDelay(c, cfg, d) == -1000.0 && Delay(c, cfg, d) == 1_000
  {}

  // ---------------------------------------------------------------- bursts

  lemma UnitBurstStep(c: Curves, e: Engine, bytes: nat, now: u64)
    requires e.badToGood >= 1.0
    ensures var (n, d) := DecideE(c, e, bytes, now);
      (d.verdict == DropBurst <==> n.inBurst) && (e.inBurst ==> !n.inBurst)
  {
    hide Wrap64, Allows, Hit, AfterHit, AfterDelay, Delay, UnitOf;
  }

  /** A mean burst length of one is not independent loss: every burst ends at the very next packet, so no
      two packets in a row are ever lost to bursts, and never more than half of them rounded up,
      whatever loss was asked for below all of it. */
  lemma {:induction false} UnitBurstsNeverRepeat(c: Curves, config: Impairment, seed: u64, packets: seq<Packet>)
    requires config.burstMeanLength <= 1.0 && 0.0 < config.burstLossPercent < 100.0
    ensures var e := NewEngine(config, seed);
      && 2 * Tally(Decisions(c, e, packets), DropBurst) <= |packets| + 1
      && (packets != [] ==>
            (Run(c, e, packets).inBurst <==> Decisions(c, e, packets)[|packets| - 1].verdict == DropBurst))
      && (!Run(c, e, packets).inBurst ==> 2 * Tally(Decisions(c, e, packets), DropBurst) <= |packets|)
    ensures var ds := Decisions(c, NewEngine(config, seed), packets);
      forall i | 0 <= i < |packets| - 1 :: ds[i].verdict == DropBurst ==> ds[i + 1].verdict != DropBurst
  {
    var e := NewEngine(config, seed);
    if packets != [] {
      var before, last := packets[..|packets| - 1], packets[|packets| - 1];
      UnitBurstsNeverRepeat(c, config, seed, before);
      RunKeepsSetup(c, e, before);
      UnitLengthLeavesAtOnce(config, seed);
      UnitBurstStep(c, Run(c, e, before), last.bytes, last.now);
      var ds := Decisions(c, e, packets);
      assert ds[..|before|] == Decisions(c, e, before);
      hide DecideE, NewEngine;
      forall i | 0 <= i < |packets| - 1 ensures ds[i].verdict == DropBurst ==> ds[i + 1].verdict != DropBurst {
        assert ds[i] == Decisions(c, e, before)[i];
        if i < |before| - 1 { assert ds[i + 1] == Decisions(c, e, before)[i + 1]; }
      }
    }
  }

  lemma UnitLengthLeavesAtOnce(config: Impairment, seed: u64)
    requires config.burstMeanLength <= 1.0 && 0.0 < config.burstLossPercent < 100.0
    ensures NewEngine(config, seed).badToGood == 1.0
  {
    var length := Normalised(config).burstMeanLength;
    assert length == 1.0;
    assert 1.0 / length == 1.0;
  }
}
