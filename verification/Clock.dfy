/** The time base: microseconds, and 48 kHz sample units for the wire. */
module Clock {
  import opened Words

  const FRAME_SAMPLES: int := 960

  function UsToSamples(us: u64): u64 { Wrap64(us * 48) / 1_000 }

  function SamplesToUs(samples: u64): u64 { Wrap64(samples * 1_000) / 48 }

  /** Every 32-bit span of samples converts without touching the 64-bit wrap. */
  lemma SmallSpanIsExact(samples: nat)
    requires samples < 0x1_0000_0000
    ensures SamplesToUs(samples) == samples * 1_000 / 48
  {}

  /** Rounding is downward in both directions, so a round trip never gains time and loses at most
      one sample's worth, rounded up to 21 microseconds; whole 125 microsecond steps survive. */
  lemma RoundTrip(us: nat)
    requires us * 48 < 0x1_0000_0000_0000_0000
    ensures us - 21 <= SamplesToUs(UsToSamples(us)) <= us
    ensures us % 125 == 0 ==> SamplesToUs(UsToSamples(us)) == us
  {
    var samples := us * 48 / 1_000;
    SmallEnough(us * 48);
    SmallEnough(samples * 1_000);
    assert UsToSamples(us) == samples;
    hide Wrap64;
    assert us * 48 - 999 <= samples * 1_000 <= us * 48;
    if us % 125 == 0 {
      var steps := us / 125;
      assert us == 125 * steps && samples == 6 * steps;
    }
  }

  lemma SmallEnough(x: nat)
    requires x < 0x1_0000_0000_0000_0000
    ensures Wrap64(x) == x
  {}
}
