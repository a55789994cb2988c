/** The two-state loss chain over the long run: where its share of lossy packets settles, how fast, and
    for which settings that is the loss asked for. */
module BurstChain {
  import opened Words
  import opened ImpairmentSpec

  /** The mean burst is the one asked for, and the chain balances at the loss asked for; but the entry
      probability is a probability only up to a loss of B / (B + 1). */
  lemma ChainMeetsItsSetting(cfg: Impairment)
    requires cfg.burstMeanLength >= 1.0 && 0.0 < cfg.burstLossPercent < 100.0
    ensures var loss, enter, leave := cfg.burstLossPercent / 100.0, GoodToBad(cfg), BadToGood(cfg);
      && enter * (1.0 - loss) == leave * loss && leave * cfg.burstMeanLength == 1.0
      && 0.0 < leave <= 1.0 && 0.0 < enter
      && (enter <= 1.0 <==> loss * (cfg.burstMeanLength + 1.0) <= cfg.burstMeanLength)
  {
    var loss, length := cfg.burstLossPercent / 100.0, cfg.burstMeanLength;
    assert 0.0 < loss < 1.0;
    ChainArithmetic(loss, length);
  }

  lemma ChainArithmetic(loss: real, length: real)
    requires 0.0 < loss < 1.0 && length >= 1.0
    ensures var leave := 1.0 / length; var enter := loss * leave / (1.0 - loss);
      && enter * (1.0 - loss) == leave * loss && leave * length == 1.0
      && 0.0 < leave <= 1.0 && 0.0 < enter
      && (enter <= 1.0 <==> loss * (length + 1.0) <= length)
  {
    var leave := 1.0 / length;
    var share := 1.0 - loss;
    var enter := loss * leave / share;
    assert leave * length == 1.0;
    assert enter * share == loss * leave;
    assert enter * share * length == loss;
    assert share * length > 0.0;
  }

  /** The chance that a uniform draw falls below `p`: what is left of `p` in [0, 1]. */
  function Chance(p: real): (r: real)
    ensures 0.0 <= r <= 1.0
  { if p < 0.0 then 0.0 else if p > 1.0 then 1.0 else p }

  /** One step of the chain is one draw set against one chance: leaving in the lossy state, entering in the
      other. The draws that make the next packet lossy are an interval of exactly that length. */
  lemma StepIsOneDraw(e: Engine)
    requires e.goodToBad > 0.0 || e.badToGood > 0.0
    ensures var u := Unit(e.dice);
      AdvanceBurst(e).inBurst <==> if e.inBurst then Chance(e.badToGood) <= u else u < Chance(e.goodToBad)
  {
    hide UnitOf, Wrap64;
  }

  /** Of many chains, a share `share` of them lossy, the share lossy one step later. */
  function ShareAfter(cfg: Impairment, share: real): real
    requires cfg.burstMeanLength >= 1.0
  { share * (1.0 - Chance(BadToGood(cfg))) + (1.0 - share) * Chance(GoodToBad(cfg)) }

  function ShareAfterSteps(cfg: Impairment, share: real, n: nat): real
    requires cfg.burstMeanLength >= 1.0
  { if n == 0 then share else ShareAfter(cfg, ShareAfterSteps(cfg, share, n - 1)) }

  predicate Attainable(cfg: Impairment) {
    cfg.burstLossPercent / 100.0 * (cfg.burstMeanLength + 1.0) <= cfg.burstMeanLength
  }

  /** The loss asked for, or the most that bursts of that mean length can give. */
  function RestingShare(cfg: Impairment): real
    requires cfg.burstMeanLength >= 1.0
  {
    if Attainable(cfg) then cfg.burstLossPercent / 100.0 else cfg.burstMeanLength / (cfg.burstMeanLength + 1.0)
  }

  /** What each step multiplies the distance from rest by. */
  function Pull(cfg: Impairment): real
    requires cfg.burstMeanLength >= 1.0
  { 1.0 - Chance(BadToGood(cfg)) - Chance(GoodToBad(cfg)) }

  function Power(x: real, n: nat): real { if n == 0 then 1.0 else x * Power(x, n - 1) }

  /** At rest what enters is what leaves. */
  lemma RestBalances(cfg: Impairment)
    requires cfg.burstMeanLength >= 1.0 && 0.0 < cfg.burstLossPercent < 100.0
    ensures Chance(GoodToBad(cfg)) * (1.0 - RestingShare(cfg)) == Chance(BadToGood(cfg)) * RestingShare(cfg)
    ensures 0.0 < RestingShare(cfg) < 1.0
    ensures RestingShare(cfg) == cfg.burstLossPercent / 100.0 <==> Attainable(cfg)
  {
    ChainMeetsItsSetting(cfg);
    var loss, length, leave := cfg.burstLossPercent / 100.0, cfg.burstMeanLength, BadToGood(cfg);
    hide GoodToBad, BadToGood;
    if !Attainable(cfg) { MostThatFits(length, leave, loss); }
  }

  lemma MostThatFits(length: real, leave: real, loss: real)
    requires length >= 1.0 && leave * length == 1.0 && loss * (length + 1.0) > length
    ensures var most := length / (length + 1.0);
      1.0 * (1.0 - most) == leave * most && 0.0 < most < 1.0 && most < loss
  {
    var most := length / (length + 1.0);
    assert most * (length + 1.0) == length;
    assert leave * (most * (length + 1.0)) == 1.0;
    assert leave * (most * (length + 1.0)) == most * (leave * length) + leave * most;
    assert (loss - most) * (length + 1.0) > 0.0;
  }

  lemma Deviation(share: real, rest: real, leave: real, enter: real)
    requires enter * (1.0 - rest) == leave * rest
    ensures share * (1.0 - leave) + (1.0 - share) * enter - rest == (1.0 - leave - enter) * (share - rest)
  {
    assert share * (1.0 - leave) + (1.0 - share) * enter == share - share * leave + enter - share * enter;
    assert (1.0 - leave - enter) * (share - rest) ==
      share - rest - leave * share + leave * rest - enter * share + enter * rest;
  }

  lemma {:induction false} DistanceAfterSteps(cfg: Impairment, share: real, n: nat)
    requires cfg.burstMeanLength >= 1.0 && 0.0 < cfg.burstLossPercent < 100.0
    ensures ShareAfterSteps(cfg, share, n) - RestingShare(cfg) == Power(Pull(cfg), n) * (share - RestingShare(cfg))
  {
    hide RestingShare, ShareAfter, Pull;
    if n == 0 {
      assert Power(Pull(cfg), 0) == 1.0;
    } else {
      var before := ShareAfterSteps(cfg, share, n - 1);
      DistanceAfterSteps(cfg, share, n - 1);
      StepShrinks(cfg, before);
      assert ShareAfterSteps(cfg, share, n) == ShareAfter(cfg, before);
      assert Power(Pull(cfg), n) == Pull(cfg) * Power(Pull(cfg), n - 1);
      hide *;
      OneMoreFactor(Pull(cfg), Power(Pull(cfg), n - 1), share - RestingShare(cfg), before - RestingShare(cfg));
    }
  }

  /** The long run: the distance from rest shrinks by one constant factor a step, below one in size unless
      the chain simply alternates. So the share of lossy packets tends to the resting share, which is the
      loss asked for if and only if it is at most B / (B + 1); at rest it stays. */
  lemma ShareSettles(cfg: Impairment, share: real, n: nat)
    requires cfg.burstMeanLength >= 1.0 && 0.0 < cfg.burstLossPercent < 100.0
    ensures ShareAfterSteps(cfg, share, n) - RestingShare(cfg) == Power(Pull(cfg), n) * (share - RestingShare(cfg))
    ensures -1.0 <= Pull(cfg) < 1.0 && (Pull(cfg) == -1.0 <==> cfg.burstMeanLength == 1.0 && GoodToBad(cfg) >= 1.0)
    ensures RestingShare(cfg) == cfg.burstLossPercent / 100.0 <==> Attainable(cfg)
    ensures ShareAfter(cfg, RestingShare(cfg)) == RestingShare(cfg)
  {
    RestBalances(cfg);
    PullIsBounded(cfg);
    StepShrinks(cfg, RestingShare(cfg));
    DistanceAfterSteps(cfg, share, n);
    hide *;
  }

  lemma StepShrinks(cfg: Impairment, share: real)
    requires cfg.burstMeanLength >= 1.0 && 0.0 < cfg.burstLossPercent < 100.0
    ensures ShareAfter(cfg, share) - RestingShare(cfg) == Pull(cfg) * (share - RestingShare(cfg))
  {
    RestBalances(cfg);
    Deviation(share, RestingShare(cfg), Chance(BadToGood(cfg)), Chance(GoodToBad(cfg)));
    hide RestingShare, GoodToBad, BadToGood, Chance, Attainable;
  }

  lemma OneMoreFactor(a: real, b: real, c: real, x: real)
    requires x == b * c
    ensures a * x == (a * b) * c
  {}

  lemma PullIsBounded(cfg: Impairment)
    requires cfg.burstMeanLength >= 1.0 && 0.0 < cfg.burstLossPercent < 100.0
    ensures -1.0 <= Pull(cfg) < 1.0 && (Pull(cfg) == -1.0 <==> cfg.burstMeanLength == 1.0 && GoodToBad(cfg) >= 1.0)
  {
    ChainMeetsItsSetting(cfg);
    var leave, length := BadToGood(cfg), cfg.burstMeanLength;
    assert leave == 1.0 <==> length == 1.0;
    hide GoodToBad, BadToGood;
  }

  // ---------------------------------------------------------------- nothing and everything

  /** Asked for no loss, the chain is off: it makes no draw and no packet is lost to it. */
  lemma NoLossNoChain(config: Impairment, seed: u64, e: Engine)
    requires config.burstLossPercent <= 0.0
    requires e.goodToBad == NewEngine(config, seed).goodToBad && e.badToGood == NewEngine(config, seed).badToGood
    ensures AdvanceBurst(e) == e
  {
    hide Unit, Step;
  }

  /** Asked for all of it, the first packet opens a burst that never ends. */
  lemma AllLossIsForever(config: Impairment, seed: u64, e: Engine)
    requires config.burstLossPercent >= 100.0
    requires e.goodToBad == NewEngine(config, seed).goodToBad && e.badToGood == NewEngine(config, seed).badToGood
    ensures AdvanceBurst(e).inBurst
  {
    hide UnitOf, Step, Mix;
  }
}
