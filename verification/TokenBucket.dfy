/** The token bucket, characterised exactly: what it lets through is what every window allows. */
module TokenBucket {
  import opened Words
  import opened ImpairmentSpec

  /** One packet offered to the link. */
  datatype Packet = Packet(bytes: nat, now: u64)

  /** The bucket after a history of packets, from full. */
  function After(cfg: Impairment, calls: seq<Packet>): Bucket {
    if calls == [] then FullBucket(cfg)
    else
      var last := calls[|calls| - 1];
      Allows(cfg, After(cfg, calls[..|calls| - 1]), last.bytes, last.now).0
  }

  predicate Passes(cfg: Impairment, calls: seq<Packet>, next: Packet) {
    Allows(cfg, After(cfg, calls), next.bytes, next.now).1
  }

  /** Bytes let through since packet `i`, itself included. */
  function PassedFrom(cfg: Impairment, calls: seq<Packet>, i: nat): nat
    requires i <= |calls|
  {
    if i == |calls| then 0
    else
      var before, last := calls[..|calls| - 1], calls[|calls| - 1];
      PassedFrom(cfg, before, i) + if Passes(cfg, before, last) then last.bytes else 0
  }

  /** Time gone forward from packet `i` to `now`; steps back in time gain nothing. */
  function GainedFrom(calls: seq<Packet>, i: nat, now: u64): nat
    requires i <= |calls|
  {
    if i == |calls| then 0
    else GainedFrom(calls[..|calls| - 1], i, calls[|calls| - 1].now) + Ahead(calls[|calls| - 1].now, now)
  }

  /** What the window opened at packet `i` still allows at `now`: a full bucket plus the rate over the
      window, less what has passed in it. */
  function Allowance(cfg: Impairment, calls: seq<Packet>, i: nat, now: u64): real
    requires i <= |calls|
  {
    Capacity(cfg) + Earned(cfg, GainedFrom(calls, i, now)) - PassedFrom(cfg, calls, i) as real
  }

  function Level(cfg: Impairment, calls: seq<Packet>, now: u64): real { Refill(cfg, After(cfg, calls), now).tokens }

  lemma SplitGain(cfg: Impairment, a: nat, b: nat)
    ensures Earned(cfg, a + b) == Earned(cfg, a) + Earned(cfg, b)
  {
    hide BytesPerUs;
  }

  lemma AllowanceStep(cfg: Impairment, before: seq<Packet>, last: Packet, i: nat, now: u64)
    requires i <= |before|
    ensures Allowance(cfg, before + [last], i, now) ==
      Allowance(cfg, before, i, last.now) + Earned(cfg, Ahead(last.now, now))
      - (if Passes(cfg, before, last) then last.bytes else 0) as real
  {
    hide Earned, Passes, Ahead, Capacity;
    var calls := before + [last];
    assert calls[..|before|] == before && calls[|before|] == last;
    SplitGain(cfg, GainedFrom(before, i, last.now), Ahead(last.now, now));
  }

  lemma LevelStep(cfg: Impairment, before: seq<Packet>, last: Packet, now: u64)
    requires cfg.rateBps > 0
    ensures var drained := Level(cfg, before, last.now) - (if Passes(cfg, before, last) then last.bytes else 0) as real;
      var full := drained + Earned(cfg, Ahead(last.now, now));
      Level(cfg, before + [last], now) == if full > Capacity(cfg) then Capacity(cfg) else full
  {
    hide Earned, Ahead, Capacity;
    var calls := before + [last];
    assert calls[..|before|] == before && calls[|before|] == last;
  }

  lemma StartsFull(cfg: Impairment, now: u64)
    ensures Level(cfg, [], now) == Capacity(cfg)
  {
    NoGain(cfg);
    hide Earned;
  }

  lemma NoGain(cfg: Impairment)
    ensures Earned(cfg, 0) == 0.0
  {
    hide BytesPerUs;
  }

  /** The level is the tightest of all the windows ending now. */
  lemma {:induction false} LevelIsTightest(cfg: Impairment, calls: seq<Packet>, now: u64) returns (tight: nat)
    requires cfg.rateBps > 0
    ensures tight <= |calls| && Level(cfg, calls, now) == Allowance(cfg, calls, tight, now)
    ensures forall i | 0 <= i <= |calls| :: Level(cfg, calls, now) <= Allowance(cfg, calls, i, now)
  {
    NoGain(cfg);
    if calls == [] {
      StartsFull(cfg, now);
      tight := 0;
    } else {
      var before, last := calls[..|calls| - 1], calls[|calls| - 1];
      var inner := LevelIsTightest(cfg, before, last.now);
      assert calls == before + [last];
      hide Level, Allowance, Passes, Earned, Ahead, Capacity;
      LevelStep(cfg, before, last, now);
      OpenedNow(cfg, calls, now);
      forall i | 0 <= i <= |before| ensures Level(cfg, calls, now) <= Allowance(cfg, calls, i, now) {
        AllowanceStep(cfg, before, last, i, now);
      }
      AllowanceStep(cfg, before, last, inner, now);
      tight := if Level(cfg, calls, now) == Capacity(cfg) then |calls| else inner;
    }
  }

  lemma OpenedNow(cfg: Impairment, calls: seq<Packet>, now: u64)
    ensures Allowance(cfg, calls, |calls|, now) == Capacity(cfg)
  {
    NoGain(cfg);
    hide Earned, Capacity;
  }

  /** A packet passes exactly when it fits in every window ending with it: for each earlier packet, the
      bytes passed since then and this packet's own come to no more than one bucket plus the rate
      times the time gone forward. Nothing else is dropped, and nothing else gets through. */
  lemma PassesIffEveryWindowAllows(cfg: Impairment, calls: seq<Packet>, next: Packet)
    requires cfg.rateBps > 0
    ensures Passes(cfg, calls, next) <==>
      forall i | 0 <= i <= |calls| :: next.bytes as real <= Allowance(cfg, calls, i, next.now)
  {
    var tight := LevelIsTightest(cfg, calls, next.now);
    hide Allowance, Earned, Capacity, Refill;
  }

  predicate NeverBack(calls: seq<Packet>, i: nat) {
    forall j, k | i <= j < k < |calls| :: calls[j].now <= calls[k].now
  }

  /** The time gained is never less than the time elapsed, and is equal to it exactly when the clock never
      stepped back: every backward step, however small, credits some time twice. */
  lemma {:induction false} GainIsElapsedIff(calls: seq<Packet>, i: nat, now: u64)
    requires i < |calls|
    ensures GainedFrom(calls, i, now) >= now - calls[i].now
    ensures GainedFrom(calls, i, now) == now - calls[i].now <==>
      NeverBack(calls, i) && calls[|calls| - 1].now <= now
  {
    var before, last := calls[..|calls| - 1], calls[|calls| - 1].now;
    if i < |before| {
      GainIsElapsedIff(before, i, last);
      assert NeverBack(calls, i) ==> NeverBack(before, i) && before[|before| - 1].now <= last;
    }
  }

  /** Over any clock, at most one bucket plus the rate times the time gone forward gets through between
      any two packets. */
  lemma {:induction false} GainBound(cfg: Impairment, calls: seq<Packet>, i: nat)
    requires cfg.rateBps > 0 && i < |calls|
    ensures var before, last := calls[..|calls| - 1], calls[|calls| - 1];
      PassedFrom(cfg, calls, i) as real <= Capacity(cfg) + Earned(cfg, GainedFrom(before, i, last.now))
  {
    var before, last := calls[..|calls| - 1], calls[|calls| - 1];
    if Passes(cfg, before, last) {
      PassesIffEveryWindowAllows(cfg, before, last);
      assert last.bytes as real <= Allowance(cfg, before, i, last.now);
      hide Earned, Capacity, Passes;
    } else if i < |before| {
      GainBound(cfg, before, i);
      LongerEarnsMore(cfg, GainedFrom(before[..|before| - 1], i, before[|before| - 1].now),
                      GainedFrom(before, i, last.now));
      hide Earned, Capacity, Passes;
    } else {
      assert PassedFrom(cfg, calls, i) == 0;
      hide Earned, Passes;
    }
  }

  /** The rate is in bits a second: what a window allows, in whole bits times microseconds. */
  lemma EarnedInBits(cfg: Impairment, us: nat)
    ensures 8_000_000.0 * Earned(cfg, us) == (cfg.rateBps * us) as real
  {
    assert BytesPerUs(cfg) * 8_000_000.0 == cfg.rateBps as real;
    Regrouped(us as real, BytesPerUs(cfg));
    assert us as real * cfg.rateBps as real == (cfg.rateBps * us) as real;
    hide BytesPerUs;
  }

  lemma Regrouped(a: real, b: real)
    ensures 8_000_000.0 * (a * b) == a * (b * 8_000_000.0)
  {}

  lemma AllowanceInBits(cfg: Impairment, calls: seq<Packet>, i: nat, now: u64, bytes: nat)
    requires i <= |calls|
    ensures bytes as real <= Allowance(cfg, calls, i, now) <==>
      8_000_000 * (PassedFrom(cfg, calls, i) + bytes) <=
        8_000_000 * cfg.bucketBytes + cfg.rateBps * GainedFrom(calls, i, now)
  {
    EarnedInBits(cfg, GainedFrom(calls, i, now));
    var passed, gained := PassedFrom(cfg, calls, i), GainedFrom(calls, i, now);
    hide Earned, PassedFrom, GainedFrom;
    InWholeBits(cfg.bucketBytes, cfg.rateBps * gained, passed, bytes, Earned(cfg, gained));
  }

  lemma InWholeBits(bucket: nat, bits: nat, passed: nat, bytes: nat, earned: real)
    requires 8_000_000.0 * earned == bits as real
    ensures bytes as real <= bucket as real + earned - passed as real <==>
      8_000_000 * (passed + bytes) <= 8_000_000 * bucket + bits
  {
    assert (8_000_000 * (passed + bytes)) as real == 8_000_000.0 * (passed as real + bytes as real);
    assert (8_000_000 * bucket + bits) as real == 8_000_000.0 * bucket as real + bits as real;
  }

  /** Between any two packets, over a clock that never steps back, at most one bucket plus the rate
      times the elapsed time gets through. */
  lemma RateBound(cfg: Impairment, calls: seq<Packet>, i: nat)
    requires cfg.rateBps > 0 && i < |calls| && NeverBack(calls, i)
    ensures calls[i].now <= calls[|calls| - 1].now
    ensures PassedFrom(cfg, calls, i) as real <=
      Capacity(cfg) + Earned(cfg, calls[|calls| - 1].now - calls[i].now)
    ensures 8_000_000 * PassedFrom(cfg, calls, i) <=
      8_000_000 * cfg.bucketBytes + cfg.rateBps * (calls[|calls| - 1].now - calls[i].now)
  {
    var elapsed := calls[|calls| - 1].now - calls[i].now;
    assert Capacity(cfg) == cfg.bucketBytes as real;
    hide Earned, Capacity, PassedFrom;
    GainBound(cfg, calls, i);
    var before := calls[..|calls| - 1];
    if i < |before| {
      StillForward(calls, i);
      GainIsElapsedIff(before, i, calls[|calls| - 1].now);
    }
    assert 0 <= elapsed;
    EarnedInBits(cfg, elapsed);
    InWholeBits(cfg.bucketBytes, cfg.rateBps * elapsed, PassedFrom(cfg, calls, i), 0, Earned(cfg, elapsed));
  }

  lemma StillForward(calls: seq<Packet>, i: nat)
    requires i < |calls| - 1 && NeverBack(calls, i)
    ensures NeverBack(calls[..|calls| - 1], i)
    ensures calls[i].now <= calls[|calls| - 2].now <= calls[|calls| - 1].now
  {}

  lemma LongerEarnsMore(cfg: Impairment, a: nat, b: nat)
    requires a <= b
    ensures Earned(cfg, a) <= Earned(cfg, b)
  {
    SplitGain(cfg, a, b - a);
    hide Earned;
  }

  /** A clock that steps back earns the same time twice: one byte per microsecond and a one-byte bucket
      let three bytes through in one microsecond. */
  lemma BackwardClockEarnsTwice(cfg: Impairment)
    requires cfg.rateBps == 8_000_000 && cfg.bucketBytes == 1
    ensures var calls := [Packet(1, 0), Packet(1, 1), Packet(0, 0), Packet(1, 1)];
      PassedFrom(cfg, calls, 0) == 3
  {
    var a, b, c, d := Packet(1, 0), Packet(1, 1), Packet(0, 0), Packet(1, 1);
    var calls := [a, b, c, d];
    assert Earned(cfg, 0) == 0.0 && Earned(cfg, 1) == 1.0;
    assert calls[..3] == [a, b, c] && [a, b, c][..2] == [a, b] && [a, b][..1] == [a] && [a][..0] == [];
    assert After(cfg, [a]) == Bucket(0.0, 0, true);
    assert After(cfg, [a, b]) == Bucket(0.0, 1, true);
    assert After(cfg, [a, b, c]) == Bucket(0.0, 0, true);
    assert PassedFrom(cfg, [a], 0) == 1 && PassedFrom(cfg, [a, b], 0) == 2;
    assert PassedFrom(cfg, [a, b, c], 0) == 2;
  }
}
