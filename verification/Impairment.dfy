/** The impairment engine as an object: one generator, one chain, one bucket, stepped in place. */
module Impairments {
  import opened Words
  import opened ImpairmentSpec

  class ImpairmentEngine {
    const curves: Curves
    var cfg: Impairment
    var seed: u64
    var state: u64
    var goodToBad: real
    var badToGood: real
    var inBurst: bool
    var spareNormal: real
    var hasSpareNormal: bool
    var bucketTokens: real
    var bucketUpdatedUs: u64
    var bucketStarted: bool
    var counts: Counts

    ghost function Dices(): Dice
      reads this
    { Dice(state, hasSpareNormal, spareNormal) }

    ghost function Model(): Engine
      reads this
    {
      Engine(cfg, seed, goodToBad, badToGood, Dices(), inBurst, Bucket(bucketTokens, bucketUpdatedUs, bucketStarted),
             counts)
    }

    constructor (config: Impairment, seed: u64, curves: Curves)
      ensures Model() == NewEngine(config, seed) && this.curves == curves
    {
      var lossPercent, burstLossPercent := ClampPercent(config.lossPercent), ClampPercent(config.burstLossPercent);
      var length := config.burstMeanLength;
      if length < 1.0 { length := 1.0; }
      this.curves, this.seed := curves, seed;
      cfg := config.(
        lossPercent := lossPercent, burstLossPercent := burstLossPercent,
        duplicatePercent := ClampPercent(config.duplicatePercent),
        reorderPercent := ClampPercent(config.reorderPercent), burstMeanLength := length);
      var loss := burstLossPercent / 100.0;
      var leave, enter := 0.0, 0.0;
      if loss > 0.0 && loss < 1.0 {
        leave := 1.0 / length;
        enter := loss * leave / (1.0 - loss);
      } else if loss >= 1.0 {
        enter, leave := 1.0, 0.0;
      }
      goodToBad, badToGood := enter, leave;
      new;
      Reset();
    }

    method Reset()
      modifies this
      ensures Model() == ResetE(old(Model()))
    {
      state, inBurst := seed, false;
      hasSpareNormal, spareNormal := false, 0.0;
      bucketTokens, bucketUpdatedUs, bucketStarted := cfg.bucketBytes as real, 0, false;
      counts := NO_COUNTS;
    }

    method NextUnit() returns (u: real)
      modifies this`state
      ensures Dices() == Step(old(Dices())) && u == Unit(old(Dices()))
    {
      state := Wrap64(state + GOLDEN);
      u := UnitOf(Mix(state));
    }

    method DrawNormal() returns (x: real)
      modifies this`state, this`hasSpareNormal, this`spareNormal
      ensures (Dices(), x) == NextNormal(curves, old(Dices()))
    {
      hide UnitOf, Mix;
      if hasSpareNormal {
        hasSpareNormal := false;
        return spareNormal;
      }
      var u1 := NextUnit();
      var u2 := NextUnit();
      if u1 <= 0.0 { u1 := SMALLEST; }
      spareNormal, hasSpareNormal := curves.sine(u1, u2), true;
      x := curves.cosine(u1, u2);
    }

    method DrawJitter() returns (us: u64)
      modifies this`state, this`hasSpareNormal, this`spareNormal
      ensures Dices() == AfterDelay(curves, cfg, old(Dices())) && us == JitterWord(curves, cfg, old(Dices()))
    {
      hide Unit, NextNormal, UnitOf, Mix, Wrap64, Symmetric, OneSided;
      ghost var before := Dices();
      if cfg.jitterUs == 0 || cfg.shape == NoJitter { return 0; }
      var scale, offset := cfg.jitterUs as real, 0.0;
      match cfg.shape {
        case Uniform =>
          var u := NextUnit();
          offset := Symmetric(u, scale);
        case Normal =>
          var sigma := DrawNormal();
          if sigma > CLAMP_SIGMA { sigma := CLAMP_SIGMA; }
          if sigma < -CLAMP_SIGMA { sigma := -CLAMP_SIGMA; }
          offset := sigma * scale;
        case Pareto =>
          var u := NextUnit();
          if u <= 0.0 { u := SMALLEST; }
          offset := OneSided(curves.tail(u), scale);
        case NoJitter =>
      }
      assert Offset(curves, cfg, before) == (Dices(), offset);
      hide Offset;
      var total := cfg.baseDelayUs as real + offset;
      if total <= 0.0 { return 0; }
      us := Wrap64(Wrap64(total.Floor) - cfg.baseDelayUs);
    }

    method DrawDelay() returns (us: u64)
      modifies this`state, this`hasSpareNormal, this`spareNormal
      ensures Dices() == AfterDelay(curves, cfg, old(Dices())) && us == Delay(curves, cfg, old(Dices()))
    {
      var jitter := DrawJitter();
      us := Wrap64(cfg.baseDelayUs + jitter);
    }

    method RateLimitAllows(bytes: nat, now: u64) returns (allowed: bool)
      modifies this`bucketTokens, this`bucketUpdatedUs, this`bucketStarted
      ensures (Model().bucket, allowed) == Allows(cfg, old(Model()).bucket, bytes, now)
    {
      if cfg.rateBps == 0 { return true; }
      if !bucketStarted {
        bucketUpdatedUs := now;
        bucketStarted := true;
      }
      var elapsed := if now > bucketUpdatedUs then now - bucketUpdatedUs else 0;
      bucketUpdatedUs := now;
      bucketTokens := bucketTokens + Earned(cfg, elapsed);
      hide Earned;
      var capacity := cfg.bucketBytes as real;
      if bucketTokens > capacity { bucketTokens := capacity; }
      var cost := bytes as real;
      if bucketTokens < cost { return false; }
      bucketTokens := bucketTokens - cost;
      allowed := true;
    }

    method AdvanceBurstState()
      modifies this`state, this`inBurst, this`counts
      ensures Model() == AdvanceBurst(old(Model()))
    {
      hide Unit, Wrap64;
      if goodToBad <= 0.0 && badToGood <= 0.0 { return; }
      var u := NextUnit();
      if inBurst {
        if u < badToGood { inBurst := false; }
      } else if u < goodToBad {
        inBurst := true;
        counts := counts.(burstsEntered := counts.burstsEntered + 1);
      }
    }

    /** One percentage draw, skipped altogether at zero. */
    method Draw(percent: real) returns (hit: bool)
      modifies this`state
      ensures Dices() == AfterHit(percent, old(Dices())) && hit == Hit(percent, old(Dices()))
    {
      hide Unit, Wrap64;
      hit := false;
      if percent > 0.0 {
        var u := NextUnit();
        hit := u * 100.0 < percent;
      }
    }

    /** The end of a decision: delay, reordering and duplication of a packet that gets through. */
    method ForwardPacket() returns (decision: Decision)
      modifies this`state, this`hasSpareNormal, this`spareNormal, this`counts
      ensures (Model(), decision) == Forwarding(curves, old(Model()))
    {
      hide Unit, Wrap64, Hit, AfterHit, AfterDelay, Delay;
      var delayUs := DrawDelay();
      var reorder := Draw(cfg.reorderPercent);
      if reorder {
        delayUs := Wrap64(delayUs + cfg.reorderExtraUs);
        counts := counts.(reordered := counts.reordered + 1);
      }
      var duplicate := Draw(cfg.duplicatePercent);
      var duplicateDelayUs := 0;
      if duplicate {
        duplicateDelayUs := DrawDelay();
        counts := counts.(duplicated := counts.duplicated + 1);
      }
      counts := counts.(forwarded := counts.forwarded + 1);
      decision := Decision(Forward, delayUs, duplicate, duplicateDelayUs, reorder);
    }

    method Decide(bytes: nat, now: u64) returns (decision: Decision)
      modifies this
      ensures (Model(), decision) == DecideE(curves, old(Model()), bytes, now)
    {
      hide Unit, Wrap64, Allows, AdvanceBurst, Hit, AfterHit, Forwarding;
      counts := counts.(considered := counts.considered + 1);
      AdvanceBurstState();
      if inBurst {
        counts := counts.(droppedBurst := counts.droppedBurst + 1);
        return Dropped(DropBurst);
      }
      var lost := Draw(cfg.lossPercent);
      if lost {
        counts := counts.(droppedIndependent := counts.droppedIndependent + 1);
        return Dropped(DropIndependent);
      }
      var allowed := RateLimitAllows(bytes, now);
      if !allowed {
        counts := counts.(droppedRateLimit := counts.droppedRateLimit + 1);
        return Dropped(DropRateLimit);
      }
      decision := ForwardPacket();
    }
  }
}
