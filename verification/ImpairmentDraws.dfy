/** What the percentages and the jitter shapes mean: for each decision, the interval of draws that brings it
    about, of the length asked for. */
module ImpairmentDraws {
  import opened Words
  import opened ImpairmentSpec
  import opened BurstChain

  /** The generator after the draw a positive percentage costs; none is made for nought. */
  function Charged(percent: real, d: Dice): Dice { if percent > 0.0 then Step(d) else d }

  /** The chance a percentage names. */
  function ChanceOf(percent: real): real { Chance(percent / 100.0) }

  lemma HitIsChance(percent: real, d: Dice)
    ensures Hit(percent, d) <==> Unit(d) < ChanceOf(percent)
    ensures AfterHit(percent, d) == Charged(percent, d)
  {
    hide Unit;
    if percent > 0.0 {
      assert percent / 100.0 * 100.0 == percent;
    }
  }

  /** Which packets are lost. After the chain's own step, a packet left out of a burst is lost if and only if
      the next draw falls below the chance asked for: of all draws, an interval of exactly that length. */
  lemma LossIsOneDraw(c: Curves, e: Engine, bytes: nat, now: u64)
    ensures var (n, d) := DecideE(c, e, bytes, now); var chain := AdvanceBurst(e);
      && (d.verdict == DropBurst <==> chain.inBurst)
      && (!chain.inBurst ==>
            (d.verdict == DropIndependent <==> Unit(chain.dice) < ChanceOf(e.cfg.lossPercent)))
      && (d.verdict == DropBurst ==> n.dice == chain.dice)
      && (d.verdict == DropIndependent ==> n.dice == Charged(e.cfg.lossPercent, chain.dice))
      && (d.verdict.DropRateLimit? ==> n.dice == Charged(e.cfg.lossPercent, chain.dice))
      && n.inBurst == chain.inBurst
      && (d.verdict != Forward ==>
            d.delayUs == 0 && !d.duplicate && d.duplicateDelayUs == 0 && !d.reorderApplied)
      && chain.dice == (if e.goodToBad > 0.0 || e.badToGood > 0.0 then Step(e.dice) else e.dice)
      && n.counts.burstsEntered == e.counts.burstsEntered + (if !e.inBurst && chain.inBurst then 1 else 0)
      && (e.cfg.rateBps == 0 ==> d.verdict != DropRateLimit && n.bucket == e.bucket)
  {
    ChainIgnoresCounts(e);
    HitIsChance(e.cfg.lossPercent, AdvanceBurst(e).dice);
    hide Unit, Step, Wrap64, Refill, Hit, AfterHit, Charged, ChanceOf, AfterDelay, Delay;
  }

  lemma ChainIgnoresCounts(e: Engine)
    ensures var a := AdvanceBurst(e.(counts := e.counts.(considered := e.counts.considered + 1)));
      var b := AdvanceBurst(e);
      && a.inBurst == b.inBurst && a.dice == b.dice && a.cfg == b.cfg == e.cfg && b.bucket == a.bucket == e.bucket
      && b.dice == (if e.goodToBad > 0.0 || e.badToGood > 0.0 then Step(e.dice) else e.dice)
      && b.counts.burstsEntered == e.counts.burstsEntered + (if !e.inBurst && b.inBurst then 1 else 0)
      && a.counts.burstsEntered == b.counts.burstsEntered
  {
    hide Unit, Step;
  }

  /** What a forwarded packet meets, draw by draw: its delay; then it is held back by exactly the extra delay if
      and only if the next draw falls below the chance of reordering; then it is doubled, the copy with a
      delay of its own, if and only if the next draw falls below the chance of duplication. */
  lemma ForwardingIsDraws(c: Curves, e: Engine, bytes: nat, now: u64)
    ensures var (n, d) := DecideE(c, e, bytes, now);
      d.verdict == Forward ==>
        var d1 := Charged(e.cfg.lossPercent, AdvanceBurst(e).dice);
        var d2 := AfterDelay(c, e.cfg, d1);
        var d3 := Charged(e.cfg.reorderPercent, d2);
        var d4 := Charged(e.cfg.duplicatePercent, d3);
        && (d.reorderApplied <==> Unit(d2) < ChanceOf(e.cfg.reorderPercent))
        && d.delayUs == (if d.reorderApplied then Wrap64(Delay(c, e.cfg, d1) + e.cfg.reorderExtraUs)
                         else Delay(c, e.cfg, d1))
        && (d.duplicate <==> Unit(d3) < ChanceOf(e.cfg.duplicatePercent))
        && d.duplicateDelayUs == (if d.duplicate then Delay(c, e.cfg, d4) else 0)
        && n.dice == if d.duplicate then AfterDelay(c, e.cfg, d4) else d4
  {
    ChainIgnoresCounts(e);
    var d1 := Charged(e.cfg.lossPercent, AdvanceBurst(e).dice);
    var d2 := AfterDelay(c, e.cfg, d1);
    HitIsChance(e.cfg.lossPercent, AdvanceBurst(e).dice);
    HitIsChance(e.cfg.reorderPercent, d2);
    HitIsChance(e.cfg.duplicatePercent, Charged(e.cfg.reorderPercent, d2));
    hide Unit, Step, Wrap64, Allows, Hit, AfterHit, Charged, ChanceOf, AfterDelay, Delay, AdvanceBurst;
  }

  // ---------------------------------------------------------------- the shapes of jitter

  /** The share of the range from minus to plus `scale` that lies below `x`. */
  function ShareBelow(x: real, scale: real): real
    requires scale > 0.0
  { (x + scale) / (2.0 * scale) }

  /** Uniform jitter is spread evenly over plus and minus the amount asked for: for every point of that range,
      the draws that stay below it are an interval of its share of the range. */
  lemma UniformIsEven(c: Curves, cfg: Impairment, d: Dice, x: real)
    requires cfg.shape == Uniform && cfg.jitterUs > 0
    ensures var offset := Offset(c, cfg, d).1; var scale := cfg.jitterUs as real;
      && -scale <= offset < scale && (offset < x <==> Unit(d) < Chance(ShareBelow(x, scale)))
      && Offset(c, cfg, d).0 == Step(d)
  {
    hide Unit, Step, Symmetric, ShareBelow, Chance;
    Spread(Unit(d), x, cfg.jitterUs as real);
  }

  lemma Spread(u: real, x: real, scale: real)
    requires scale > 0.0 && 0.0 <= u < 1.0
    ensures -scale <= Symmetric(u, scale) < scale
    ensures Symmetric(u, scale) < x <==> u < Chance(ShareBelow(x, scale))
  {
    hide Chance;
    var width := 2.0 * scale;
    ScaledBelow(u, x + scale, width);
    assert Symmetric(u, scale) == u * width - scale;
    OrderKept(u, 1.0, width);
    OrderKept(0.0, u, width);
  }

  lemma ScaledBelow(u: real, x: real, width: real)
    requires width > 0.0 && 0.0 <= u < 1.0
    ensures u * width < x <==> u < Chance(x / width)
  {
    var share := x / width;
    assert share * width == x;
    OrderKept(u, share, width);
    OrderKept(share, u, width);
  }

  lemma OrderKept(a: real, b: real, width: real)
    requires width > 0.0
    ensures a < b ==> a * width < b * width
  {
    if a < b { assert (b - a) * width > 0.0; }
  }

  /** Normal jitter is the normal drawn, in units of the amount asked for, cut off at three of them. */
  lemma NormalIsClamped(c: Curves, cfg: Impairment, d: Dice)
    requires cfg.shape == Normal
    ensures var offset, z := Offset(c, cfg, d).1, NextNormal(c, d).1; var scale := cfg.jitterUs as real;
      && -3.0 * scale <= offset <= 3.0 * scale
      && (-3.0 <= z <= 3.0 ==> offset == z * scale)
      && (z > 3.0 ==> offset == 3.0 * scale) && (z < -3.0 ==> offset == -3.0 * scale)
  {
    hide NextNormal, ClampSigma;
    var z, scale := NextNormal(c, d).1, cfg.jitterUs as real;
    NormalOffset(c, cfg, d);
    hide Offset;
    ScaledClamp(z, scale, Offset(c, cfg, d).1);
  }

  lemma NormalOffset(c: Curves, cfg: Impairment, d: Dice)
    requires cfg.shape == Normal
    ensures Offset(c, cfg, d).1 == ClampSigma(NextNormal(c, d).1) * (cfg.jitterUs as real)
  {
    hide NextNormal, ClampSigma;
  }

  lemma ScaledClamp(z: real, scale: real, offset: real)
    requires scale >= 0.0 && offset == ClampSigma(z) * scale
    ensures -3.0 * scale <= offset <= 3.0 * scale
    ensures -3.0 <= z <= 3.0 ==> offset == z * scale
    ensures z > 3.0 ==> offset == 3.0 * scale
    ensures z < -3.0 ==> offset == -3.0 * scale
  {
    if z > 3.0 {
      assert offset == 3.0 * scale;
    } else if z < -3.0 {
      assert offset == -3.0 * scale;
    } else if scale > 0.0 {
      OrderKept(z, 3.0, scale);
      OrderKept(-3.0, z, scale);
      assert offset == z * scale && (z == 3.0 ==> offset == 3.0 * scale) && (z == -3.0 ==> offset == -3.0 * scale);
    }
  }

  /** Two normals from two draws: the first pair of draws gives both, the second of them is the spare, and
      it is used next without a draw. */
  lemma NormalsComeInPairs(c: Curves, d: Dice)
    requires !d.hasSpare
    ensures var (d1, first) := NextNormal(c, d); var (d2, second) := NextNormal(c, d1);
      var u1, u2 := Unit(d), Unit(Step(d));
      && (u1 > 0.0 ==> first == c.cosine(u1, u2) && second == c.sine(u1, u2))
      && d1.hasSpare && !d2.hasSpare && d2.state == d1.state == Step(Step(d)).state
  {
    hide Unit;
  }

  /** A Pareto tail only ever adds delay, as long as its factor is at least one; and the delay added passes a
      multiple of the amount asked for exactly when the factor passes one more than it. */
  lemma ParetoOnlyAdds(c: Curves, cfg: Impairment, d: Dice, x: real)
    requires cfg.shape == Pareto && cfg.jitterUs > 0
    ensures var offset, scale := Offset(c, cfg, d).1, cfg.jitterUs as real;
      var u := Unit(d); var factor := c.tail(if u == 0.0 then 1.0 / 9007199254740992.0 else u);
      && (offset >= 0.0 <==> factor >= 1.0) && (offset > x * scale <==> factor > x + 1.0)
      && Offset(c, cfg, d).0 == Step(d)
  {
    hide Unit, Step, OneSided;
    TailPasses(c.tail(AtLeastSmallest(Unit(d))), cfg.jitterUs as real, x);
  }

  lemma TailPasses(factor: real, scale: real, x: real)
    requires scale > 0.0
    ensures OneSided(factor, scale) >= 0.0 <==> factor >= 1.0
    ensures OneSided(factor, scale) > x * scale <==> factor > x + 1.0
  {
    OrderKept(factor, 1.0, scale);
    OrderKept(1.0, factor, scale);
    OrderKept(x + 1.0, factor, scale);
    OrderKept(factor, x + 1.0, scale);
    assert (x + 1.0) * scale == x * scale + scale;
    if factor == x + 1.0 { assert factor * scale == (x + 1.0) * scale; }
  }

  /** Without jitter the delay is the base and costs no draw; with it, one draw of the shape is made. */
  lemma JitterOrNot(c: Curves, cfg: Impairment, d: Dice)
    ensures cfg.jitterUs == 0 || cfg.shape.NoJitter? ==>
      Delay(c, cfg, d) == cfg.baseDelayUs && AfterDelay(c, cfg, d) == d
    ensures cfg.jitterUs > 0 && !cfg.shape.NoJitter? ==>
      JitterOn(cfg) && AfterDelay(c, cfg, d) == Offset(c, cfg, d).0
      && TotalDelay(c, cfg, d) == cfg.baseDelayUs as real + Offset(c, cfg, d).1
  {
    hide Offset;
  }

  predicate Percent(x: real) { 0.0 <= x <= 100.0 }

  /** A new engine is asked for the chances its configuration names, whatever percentages it names, and for
      nothing else than it names. */
  lemma NewEngineAsksFor(config: Impairment, seed: u64)
    ensures var e := NewEngine(config, seed); var cfg := e.cfg;
      && Percent(cfg.lossPercent) && Percent(cfg.burstLossPercent)
      && Percent(cfg.reorderPercent) && Percent(cfg.duplicatePercent)
      && ChanceOf(cfg.lossPercent) == ChanceOf(config.lossPercent)
      && ChanceOf(cfg.burstLossPercent) == ChanceOf(config.burstLossPercent)
      && ChanceOf(cfg.reorderPercent) == ChanceOf(config.reorderPercent)
      && ChanceOf(cfg.duplicatePercent) == ChanceOf(config.duplicatePercent)
      && (config.burstMeanLength >= 1.0 ==> cfg.burstMeanLength == config.burstMeanLength)
      && cfg == config.(lossPercent := cfg.lossPercent, burstLossPercent := cfg.burstLossPercent,
                        reorderPercent := cfg.reorderPercent, duplicatePercent := cfg.duplicatePercent,
                        burstMeanLength := cfg.burstMeanLength)
      && e.dice.state == seed && !e.inBurst && e.goodToBad == GoodToBad(cfg) && e.badToGood == BadToGood(cfg)
  {
    hide GoodToBad, BadToGood;
  }

  /** The generator is splitmix64: from seed zero, its first two states and what they put out. */
  lemma GeneratorStates()
    ensures var d := Dice(0, false, 0.0);
      Step(d).state == 0x9E37_79B9_7F4A_7C15 && Step(Step(d)).state == 0x3C6E_F372_FE94_F82A
  {}

  lemma FirstOutputs()
    ensures MixWord(0x9E37_79B9_7F4A_7C15) == 0xE220_A839_7B1D_CDAF
    ensures MixWord(0x3C6E_F372_FE94_F82A) == 0x6E78_9E6A_A1B9_65F4
  {}

  /** A unit draw is the top 53 bits of an output: each of 2^53 equal steps is hit by 2^11 outputs in a row. */
  lemma UnitIsTopBits(bits: bv64, k: nat)
    ensures UnitOf(bits) == k as real / 9007199254740992.0 <==> 2048 * k <= bits as int < 2048 * (k + 1)
  {
    var top := bits as int / 2048;
    assert 2048 * top <= bits as int < 2048 * (top + 1);
    assert top == k <==> 2048 * k <= bits as int < 2048 * (k + 1);
  }
}
