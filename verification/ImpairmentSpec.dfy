/** The seeded link model: what happens to each packet, drawn from one generator in a fixed order. */
module ImpairmentSpec {
  import opened Words

  datatype JitterShape = NoJitter | Uniform | Normal | Pareto

  datatype Impairment = Impairment(
    baseDelayUs: u64, jitterUs: u64, shape: JitterShape, lossPercent: real, burstLossPercent: real,
    burstMeanLength: real, duplicatePercent: real, reorderPercent: real, reorderExtraUs: u64,
    rateBps: u64, bucketBytes: u32)

  datatype Verdict = Forward | DropIndependent | DropBurst | DropRateLimit

  datatype Decision = Decision(
    verdict: Verdict, delayUs: u64, duplicate: bool, duplicateDelayUs: u64, reorderApplied: bool)

  datatype Counts = Counts(
    considered: nat, forwarded: nat, droppedIndependent: nat, droppedBurst: nat, droppedRateLimit: nat,
    duplicated: nat, reordered: nat, burstsEntered: nat)

  const NO_COUNTS := Counts(0, 0, 0, 0, 0, 0, 0, 0)

  function Dropped(verdict: Verdict): Decision { Decision(verdict, 0, false, 0, false) }

  /** The transcendental parts of the draws: the two halves of a Box-Muller pair, and the factor
      1 / u^(1/1.5) of the Pareto tail. */
  datatype Curves = Curves(cosine: (real, real) -> real, sine: (real, real) -> real, tail: real -> real)

  /** The generator and the spare normal it may hold. */
  datatype Dice = Dice(state: u64, hasSpare: bool, spare: real)

  datatype Bucket = Bucket(tokens: real, updatedUs: u64, started: bool)

  datatype Engine = Engine(
    cfg: Impairment, seed: u64, goodToBad: real, badToGood: real,
    dice: Dice, inBurst: bool, bucket: Bucket, counts: Counts)

  // ---------------------------------------------------------------- draws

  const GOLDEN: u64 := 0x9E37_79B9_7F4A_7C15

  /** The output mix of splitmix64. */
  function MixWord(z: bv64): bv64 {
    var y := (z ^ (z >> 30)) * 0xBF58_476D_1CE4_E5B9;
    var x := (y ^ (y >> 27)) * 0x94D0_49BB_1331_11EB;
    x ^ (x >> 31)
  }

  function Mix(state: u64): bv64 { MixWord(state as bv64) }

  /** The top 53 bits of an output, scaled. */
  function UnitOf(bits: bv64): (u: real)
    ensures 0.0 <= u < 1.0
  {
    var top := bits as int / 2048;
    assert 0 <= top < 0x20_0000_0000_0000;
    top as real / 9007199254740992.0
  }

  function Step(d: Dice): Dice { d.(state := Wrap64(d.state + GOLDEN)) }

  /** The value the next draw yields. */
  function Unit(d: Dice): (u: real)
    ensures 0.0 <= u < 1.0
  { UnitOf(Mix(Step(d).state)) }

  const SMALLEST: real := 1.0 / 9007199254740992.0

  function AtLeastSmallest(u: real): real { if u <= 0.0 then SMALLEST else u }

  function NextNormal(c: Curves, d: Dice): (Dice, real) {
    if d.hasSpare then (d.(hasSpare := false), d.spare)
    else
      var u1, u2 := AtLeastSmallest(Unit(d)), Unit(Step(d));
      (Step(Step(d)).(hasSpare := true, spare := c.sine(u1, u2)), c.cosine(u1, u2))
  }

  const CLAMP_SIGMA: real := 3.0

  function ClampSigma(x: real): real {
    if x > CLAMP_SIGMA then CLAMP_SIGMA else if x < -CLAMP_SIGMA then -CLAMP_SIGMA else x
  }

  predicate JitterOn(cfg: Impairment) { cfg.jitterUs != 0 && cfg.shape != NoJitter }

  /** A unit draw spread over [-scale, scale). */
  function Symmetric(u: real, scale: real): real { (u * 2.0 - 1.0) * scale }

  /** A tail factor, which is at least one, as a delay that is only ever added. */
  function OneSided(factor: real, scale: real): real { scale * factor - scale }

  /** The signed jitter of one draw. */
  function Offset(c: Curves, cfg: Impairment, d: Dice): (Dice, real) {
    var scale := cfg.jitterUs as real;
    match cfg.shape
    case NoJitter => (d, 0.0)
    case Uniform => (Step(d), Symmetric(Unit(d), scale))
    case Normal => (NextNormal(c, d).0, ClampSigma(NextNormal(c, d).1) * scale)
    case Pareto => (Step(d), OneSided(c.tail(AtLeastSmallest(Unit(d))), scale))
  }

  function TotalDelay(c: Curves, cfg: Impairment, d: Dice): real { cfg.baseDelayUs as real + Offset(c, cfg, d).1 }

  /** The jitter as an unsigned word: negative jitter wraps. */
  function JitterWord(c: Curves, cfg: Impairment, d: Dice): u64 {
    if !JitterOn(cfg) || TotalDelay(c, cfg, d) <= 0.0 then 0
    else Wrap64(Wrap64(TotalDelay(c, cfg, d).Floor) - cfg.baseDelayUs)
  }

  function AfterDelay(c: Curves, cfg: Impairment, d: Dice): Dice {
    if JitterOn(cfg) then Offset(c, cfg, d).0 else d
  }

  function Delay(c: Curves, cfg: Impairment, d: Dice): u64 { Wrap64(cfg.baseDelayUs + JitterWord(c, cfg, d)) }

  // ---------------------------------------------------------------- the token bucket

  function BytesPerUs(cfg: Impairment): (r: real)
    ensures r >= 0.0
  { cfg.rateBps as real / 8.0 / 1000000.0 }

  /** The bytes the link earns in so many microseconds. */
  function Earned(cfg: Impairment, us: nat): (r: real)
    ensures r >= 0.0
  { us as real * BytesPerUs(cfg) }

  function Capacity(cfg: Impairment): (r: real)
    ensures r >= 0.0
  { cfg.bucketBytes as real }

  /** The forward part of a step in time. */
  function Ahead(from: u64, to: u64): nat { if to > from then to - from else 0 }

  function Refill(cfg: Impairment, b: Bucket, now: u64): Bucket {
    var tokens := b.tokens + Earned(cfg, Ahead(if b.started then b.updatedUs else now, now));
    Bucket(if tokens > Capacity(cfg) then Capacity(cfg) else tokens, now, true)
  }

  function Allows(cfg: Impairment, b: Bucket, bytes: nat, now: u64): (Bucket, bool) {
    if cfg.rateBps == 0 then (b, true)
    else
      var r := Refill(cfg, b, now);
      if r.tokens < bytes as real then (r, false) else (r.(tokens := r.tokens - bytes as real), true)
  }

  // ---------------------------------------------------------------- the engine

  function ClampPercent(x: real): real { if x < 0.0 then 0.0 else if x > 100.0 then 100.0 else x }

  function Normalised(cfg: Impairment): Impairment {
    cfg.(lossPercent := ClampPercent(cfg.lossPercent), burstLossPercent := ClampPercent(cfg.burstLossPercent),
         duplicatePercent := ClampPercent(cfg.duplicatePercent), reorderPercent := ClampPercent(cfg.reorderPercent),
         burstMeanLength := if cfg.burstMeanLength < 1.0 then 1.0 else cfg.burstMeanLength)
  }

  /** The chain's transition probabilities, from the wanted loss and the mean burst. */
  function BadToGood(cfg: Impairment): real
    requires cfg.burstMeanLength >= 1.0
  { if 0.0 < cfg.burstLossPercent / 100.0 < 1.0 then 1.0 / cfg.burstMeanLength else 0.0 }

  function GoodToBad(cfg: Impairment): real
    requires cfg.burstMeanLength >= 1.0
  {
    var loss := cfg.burstLossPercent / 100.0;
    if 0.0 < loss < 1.0 then loss * BadToGood(cfg) / (1.0 - loss) else if loss >= 1.0 then 1.0 else 0.0
  }

  function FullBucket(cfg: Impairment): Bucket { Bucket(Capacity(cfg), 0, false) }

  function ResetE(e: Engine): Engine {
    e.(dice := Dice(e.seed, false, 0.0), inBurst := false, bucket := FullBucket(e.cfg), counts := NO_COUNTS)
  }

  function NewEngine(config: Impairment, seed: u64): Engine {
    var cfg := Normalised(config);
    Engine(cfg, seed, GoodToBad(cfg), BadToGood(cfg), Dice(seed, false, 0.0), false, FullBucket(cfg), NO_COUNTS)
  }

  function AdvanceBurst(e: Engine): Engine {
    if e.goodToBad <= 0.0 && e.badToGood <= 0.0 then e
    else if e.inBurst then e.(dice := Step(e.dice), inBurst := !(Unit(e.dice) < e.badToGood))
    else if Unit(e.dice) < e.goodToBad then
      e.(dice := Step(e.dice), inBurst := true, counts := e.counts.(burstsEntered := e.counts.burstsEntered + 1))
    else e.(dice := Step(e.dice))
  }

  /** A draw made only when its percentage is positive. */
  predicate Hit(percent: real, d: Dice) { percent > 0.0 && Unit(d) * 100.0 < percent }

  function AfterHit(percent: real, d: Dice): Dice { if percent > 0.0 then Step(d) else d }

  function Reordered(e: Engine, delayUs: u64): (Engine, u64, bool) {
    var n := e.(dice := AfterHit(e.cfg.reorderPercent, e.dice));
    if Hit(e.cfg.reorderPercent, e.dice)
    then (n.(counts := n.counts.(reordered := n.counts.reordered + 1)), Wrap64(delayUs + e.cfg.reorderExtraUs), true)
    else (n, delayUs, false)
  }

  function Duplicated(c: Curves, e: Engine): (Engine, bool, u64) {
    var n := e.(dice := AfterHit(e.cfg.duplicatePercent, e.dice));
    if Hit(e.cfg.duplicatePercent, e.dice)
    then (n.(dice := AfterDelay(c, n.cfg, n.dice), counts := n.counts.(duplicated := n.counts.duplicated + 1)),
          true, Delay(c, n.cfg, n.dice))
    else (n, false, 0)
  }

  /** What becomes of a packet that gets through. */
  function Forwarding(c: Curves, e: Engine): (Engine, Decision) {
    var (r, delayUs, reordered) := Reordered(e.(dice := AfterDelay(c, e.cfg, e.dice)), Delay(c, e.cfg, e.dice));
    var (d, duplicate, duplicateDelayUs) := Duplicated(c, r);
    (d.(counts := d.counts.(forwarded := d.counts.forwarded + 1)),
     Decision(Forward, delayUs, duplicate, duplicateDelayUs, reordered))
  }

  /** The limiter, then forwarding. */
  function Admit(c: Curves, e: Engine, bytes: nat, now: u64): (Engine, Decision) {
    var (bucket, allowed) := Allows(e.cfg, e.bucket, bytes, now);
    var n := e.(bucket := bucket);
    if !allowed
    then (n.(counts := n.counts.(droppedRateLimit := n.counts.droppedRateLimit + 1)), Dropped(DropRateLimit))
    else Forwarding(c, n)
  }

  function DecideE(c: Curves, e: Engine, bytes: nat, now: u64): (Engine, Decision) {
    var a := AdvanceBurst(e.(counts := e.counts.(considered := e.counts.considered + 1)));
    if a.inBurst
    then (a.(counts := a.counts.(droppedBurst := a.counts.droppedBurst + 1)), Dropped(DropBurst))
    else
      var l := a.(dice := AfterHit(a.cfg.lossPercent, a.dice));
      if Hit(a.cfg.lossPercent, a.dice)
      then (l.(counts := l.counts.(droppedIndependent := l.counts.droppedIndependent + 1)), Dropped(DropIndependent))
      else Admit(c, l, bytes, now)
  }
}
