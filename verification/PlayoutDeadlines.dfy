/** The arithmetic of deadlines: monotone, saturating, exact on a line, and when it stops being so. */
module PlayoutDeadlines {
  import opened Words
  import opened Serial
  import opened Clock
  import opened Media
  import opened Modular
  import opened QueueSpec
  import opened QueueRuns
  import opened PlayoutSpec
  import opened PlayoutRuns
  import opened PlayoutTimeline

  const LIMIT: int := 0x1_0000_0000_0000_0000

  /** One frame is the same span in wire units and in microseconds. */
  predicate Exact(g: Geometry) { g.frameTs > 0 && g.frameUs * 48 == g.frameTs * 1_000 }

  /** The frame lengths the codec accepts, in tenths of a millisecond, at its five sample rates. */
  predicate Supported(d: DecoderConfig) {
    && d.sampleRateHz in {8_000, 12_000, 16_000, 24_000, 48_000}
    && exists tenths: int | tenths in {25, 50, 100, 200, 400, 600} :: d.frameSamples == d.sampleRateHz * tenths / 10_000
  }

  /** For every frame length and rate the codec accepts, opening succeeds and the two units agree
      exactly: catch-up arithmetic never drifts, and the zero-length check never fires. */
  lemma SupportedIsExact(cfg: Config)
    requires Supported(cfg.decoder)
    ensures OpenB(cfg, true).open && Exact(OpenB(cfg, true).geo)
    ensures OpenB(cfg, true).geo.frameTs <= 2_880
  {
    var d := cfg.decoder;
    var tenths: int :| tenths in {25, 50, 100, 200, 400, 600} && d.frameSamples == d.sampleRateHz * tenths / 10_000;
    FrameLength(d.sampleRateHz, tenths);
    FrameUnits(tenths);
    assert GeometryOf(d).frameUs == tenths * 100;
  }

  lemma FrameUnits(tenths: int)
    requires tenths in {25, 50, 100, 200, 400, 600}
    ensures var ts := UsToSamples(tenths * 100); 0 < ts <= 2_880 && tenths * 100 * 48 == ts * 1_000
  {}

  lemma FrameLength(rate: int, tenths: int)
    requires rate in {8_000, 12_000, 16_000, 24_000, 48_000} && tenths in {25, 50, 100, 200, 400, 600}
    ensures var samples := rate * tenths / 10_000;
      0 < samples < 3_000 && Wrap64(samples * 1_000_000) / rate == tenths * 100
  {
    var a, b := rate / 400, tenths / 25;
    assert rate == 400 * a && tenths == 25 * b;
    var n := FrameProduct(a, b);
    assert Wrap64(n * 1_000_000) == n * 1_000_000;
    hide Wrap64;
    Unique(rate * tenths, 10_000, n, 0);
    Unique(n * 1_000_000, rate, tenths * 100, 0);
  }

  lemma FrameProduct(a: int, b: int) returns (n: int)
    requires 20 <= a <= 120 && b in {1, 2, 4, 8, 16, 24}
    ensures 0 < n < 3_000
    ensures (400 * a) * (25 * b) == n * 10_000 && n * 1_000_000 == (25 * b * 100) * (400 * a)
  {
    n := a * b;
  }

  function RawUs(samples: nat): nat { samples * 1_000 / 48 }

  lemma RawUsMonotone(a: nat, b: nat)
    requires a <= b <= 0x8000_0000
    ensures RawUs(a) <= RawUs(b) <= 0x8000_0000 * 1_000 / 48
  {}

  /** The deadline without the words: the anchor plus or minus the span, never below zero. */
  lemma DeadlineClosedForm(anchorTs: u32, anchorLocalUs: u64, timestamp: u32)
    requires anchorLocalUs + 0x8000_0000 * 1_000 / 48 < LIMIT
    ensures var delta := Distance(anchorTs, timestamp);
      DeadlineOf(anchorTs, anchorLocalUs, timestamp) ==
        if delta >= 0 then anchorLocalUs + RawUs(delta) else Max(0, anchorLocalUs - RawUs(-delta))
  {
    var delta := Distance(anchorTs, timestamp);
    SmallSpanIsExact(Abs(delta));
    RawUsMonotone(Abs(delta), 0x8000_0000);
    assert SamplesToUs(Abs(delta)) == RawUs(Abs(delta));
    hide Distance, SamplesToUs, RawUs;
  }

  /** Later timestamps are never due earlier, on either side of the anchor. */
  lemma DeadlineMonotone(anchorTs: u32, anchorLocalUs: u64, t1: u32, t2: u32)
    requires Distance(anchorTs, t1) <= Distance(anchorTs, t2)
    requires anchorLocalUs + 0x8000_0000 * 1_000 / 48 < LIMIT
    ensures DeadlineOf(anchorTs, anchorLocalUs, t1) <= DeadlineOf(anchorTs, anchorLocalUs, t2)
  {
    hide Distance, DeadlineOf, RawUs, Wrap32;
    var d1, d2 := Distance(anchorTs, t1), Distance(anchorTs, t2);
    DeadlineClosedForm(anchorTs, anchorLocalUs, t1);
    DeadlineClosedForm(anchorTs, anchorLocalUs, t2);
    if d1 >= 0 { RawUsMonotone(d1, d2); } else if d2 < 0 { RawUsMonotone(-d2, -d1); }
  }

  /** Before the anchor the deadline runs back in step and stops at zero; it never wraps. */
  lemma DeadlineSaturates(anchorTs: u32, anchorLocalUs: u64, back: nat)
    requires 0 < back < 0x8000_0000
    ensures DeadlineOf(anchorTs, anchorLocalUs, Wrap32(anchorTs - back)) == Max(0, anchorLocalUs - back * 1_000 / 48)
  {
    DistanceTo(anchorTs, 0 - back);
    hide Distance;
  }

  lemma FramesToUs(g: Geometry, samples: nat, n: nat)
    requires Exact(g)
    ensures RawUs(samples + n * g.frameTs) == RawUs(samples) + n * g.frameUs
  {
    assert (samples + n * g.frameTs) * 1_000 == samples * 1_000 + n * (g.frameTs * 1_000);
    assert n * (g.frameUs * 48) == (n * g.frameUs) * 48;
  }

  /** At or after the anchor the deadline is the anchor's plus the span. */
  lemma DeadlineAhead(anchorTs: u32, anchorLocalUs: u64, span: nat)
    requires span < 0x8000_0000 && anchorLocalUs + RawUs(span) < LIMIT
    ensures DeadlineOf(anchorTs, anchorLocalUs, Wrap32(anchorTs + span)) == anchorLocalUs + RawUs(span)
  {
    DistanceTo(anchorTs, span);
    SmallSpanIsExact(span);
    hide Distance, SamplesToUs, Wrap32;
  }

  /** `n` frames after the anchor on the line, the deadline is `n` frame times after the anchor's,
      exactly while the span stays under 2^31 samples (12.4 hours at 48 kHz). Past that the
      signed distance turns negative and the deadline falls back behind the anchor. */
  lemma DueOnLine(g: Geometry, anchorTs: u32, anchorLocalUs: u64, n: nat)
    requires Exact(g) && anchorLocalUs + n * g.frameUs < LIMIT && n * g.frameTs < 0x1_0000_0000
    ensures DeadlineOf(anchorTs, anchorLocalUs, Wrap32(anchorTs + n * g.frameTs)) == anchorLocalUs + n * g.frameUs
      <==> n * g.frameTs < 0x8000_0000
  {
    FramesToUs(g, 0, n);
    if n * g.frameTs < 0x8000_0000 {
      hide DeadlineOf, Wrap32;
      DeadlineAhead(anchorTs, anchorLocalUs, n * g.frameTs);
    } else {
      assert n * g.frameUs > 0;
      hide RawUs;
      DeadlineBeyondHorizon(anchorTs, anchorLocalUs, n * g.frameTs);
    }
  }

  lemma DeadlineBeyondHorizon(anchorTs: u32, anchorLocalUs: u64, span: nat)
    requires 0x8000_0000 <= span < 0x1_0000_0000
    ensures DeadlineOf(anchorTs, anchorLocalUs, Wrap32(anchorTs + span)) <= anchorLocalUs
  {
    assert Wrap32(anchorTs + span) == Wrap32(anchorTs + (span - 0x1_0000_0000));
    DistanceTo(anchorTs, span - 0x1_0000_0000);
    hide Distance;
  }

  /** Moving along the line moves the deadline by as many frame times. */
  lemma DeadlineShift(g: Geometry, anchorTs: u32, anchorLocalUs: u64, ts: u32, n: nat)
    requires Exact(g) && 0 <= Distance(anchorTs, ts) && Distance(anchorTs, ts) + n * g.frameTs < 0x8000_0000
    requires anchorLocalUs + 0x8000_0000 * 1_000 / 48 < LIMIT
    ensures DeadlineOf(anchorTs, anchorLocalUs, Wrap32(ts + n * g.frameTs))
      == DeadlineOf(anchorTs, anchorLocalUs, ts) + n * g.frameUs
  {
    hide DeadlineOf, RawUs, Wrap32;
    var delta := Distance(anchorTs, ts);
    FramesToUs(g, delta, n);
    RawUsMonotone(delta, delta + n * g.frameTs);
    DeadlineAhead(anchorTs, anchorLocalUs, delta);
    DeadlineAhead(anchorTs, anchorLocalUs, delta + n * g.frameTs);
    WrapShift(anchorTs + delta, n * g.frameTs);
  }

  /** The playout position is at or after the anchor and stays within the horizon of it for `frames`
      more frames, and no deadline in that horizon wraps. */
  predicate InHorizon(b: Buffer, frames: nat) {
    && 0 <= Distance(b.anchorTs, b.playoutTs)
    && Distance(b.anchorTs, b.playoutTs) + frames * b.geo.frameTs < 0x8000_0000
    && b.anchorLocalUs + 0x8000_0000 * 1_000 / 48 < LIMIT
  }

  /** A catch-up moves the deadline by exactly the frames it jumps ... */
  lemma CatchUpMovesDeadline(b: Buffer, jump: nat)
    requires Exact(b.geo) && InHorizon(b, jump)
    ensures var c := CatchUpB(b, jump); Due(c, c.playoutTs) == Due(b, b.playoutTs) + jump * b.geo.frameUs
  {
    hide Distance, SkipToQ, DeadlineOf, Wrap32;
    DeadlineShift(b.geo, b.anchorTs, b.anchorLocalUs, b.playoutTs, jump);
  }

  /** ... so it lands on the frame due now: not early, and less than one frame late, unless the
      jump was capped, when it is merely not early. */
  lemma CatchUpLands(b: Buffer, now: u64)
    requires Exact(b.geo) && Due(b, b.playoutTs) <= now && b.geo.frameUs > 0
    requires InHorizon(b, Min(Behind(b, now), MAX_CATCHUP_JUMP))
    ensures var c := CatchUpB(b, Min(Behind(b, now), MAX_CATCHUP_JUMP));
      && Due(c, c.playoutTs) <= now
      && (Behind(b, now) <= MAX_CATCHUP_JUMP <==> now - Due(c, c.playoutTs) < b.geo.frameUs)
  {
    hide Due, CatchUpB, Distance;
    var behind, late, us := Behind(b, now), now - Due(b, b.playoutTs), b.geo.frameUs;
    CatchUpMovesDeadline(b, Min(behind, MAX_CATCHUP_JUMP));
    JumpRemainder(late, us, behind, Min(behind, MAX_CATCHUP_JUMP));
  }

  lemma JumpRemainder(late: nat, us: nat, behind: nat, jump: nat)
    requires us > 0 && behind == late / us && jump <= behind
    ensures 0 <= late - jump * us
    ensures late - jump * us < us <==> jump == behind
  {
    assert late == us * behind + late % us;
    Distribute(behind, jump, us);
    if jump < behind { AtLeastOnce(behind - jump, us); }
  }

  /** The playout position stays at or after the frame being played, as long as both are within a
      quarter of the timestamp space of the anchor. */
  predicate NearAnchor(b: Buffer, ts: u32) { -0x4000_0000 <= Distance(b.anchorTs, ts) < 0x4000_0000 }

  lemma AlignedOrder(b: Buffer)
    requires AlignB(b).1.Some?
    requires NearAnchor(b, b.playoutTs) && NearAnchor(b, AlignB(b).1.value.info.header.timestamp)
    ensures var a := AlignB(b).0;
      Distance(b.anchorTs, AlignB(b).1.value.info.header.timestamp) <= Distance(b.anchorTs, a.playoutTs)
  {
    var t := AlignB(b).1.value.info.header.timestamp;
    var d := Distance(b.anchorTs, b.playoutTs);
    assert Wrap32(b.anchorTs + d) == b.playoutTs;
    DistanceFrom(b.anchorTs, d, t);
  }

  /** For any stream, DTX jumps included: a pull that does not catch up never plays a packet before
      its deadline. */
  lemma NeverEarlyWithoutCatchUp(b: Buffer, room: nat, now: u64, codec: Codec)
    requires Ticking(b) && b.anchorLocalUs + 0x8000_0000 * 1_000 / 48 < LIMIT
    requires var (c, out) := PullB(b, room, now, codec); out.source == Packet && c.stats.catchups == b.stats.catchups
    requires NearAnchor(b, b.playoutTs) && NearAnchor(b, PullB(b, room, now, codec).1.timestamp)
    ensures Due(b, PullB(b, room, now, codec).1.timestamp) <= now
  {
    PlayedIsAligned(b, room, now, codec);
    AlignedOrder(b);
    var a := AlignB(b).0;
    DeadlineMonotone(b.anchorTs, b.anchorLocalUs, AlignB(b).1.value.info.header.timestamp, a.playoutTs);
  }

  lemma PlayedIsAligned(b: Buffer, room: nat, now: u64, codec: Codec)
    requires Ticking(b)
    requires var (c, out) := PullB(b, room, now, codec); out.source == Packet && c.stats.catchups == b.stats.catchups
    ensures AlignB(b).1.Some? && AlignB(b).1.value.info.header.timestamp == PullB(b, room, now, codec).1.timestamp
    ensures now >= Due(AlignB(b).0, AlignB(b).0.playoutTs)
  {
    hide Wrap32, Wrap64, Distance, DeadlineOf, SkipToQ, AdvanceQ, PeekQ;
    var (a, held) := AlignB(b);
    assert a.stats == b.stats && a.cfg == b.cfg;
  }

  /** On a stream affine in sequence no pull plays early, catch-up or not. */
  lemma NeverEarlyOnLine(b: Buffer, phase: u32 -> u32, room: nat, now: u64, codec: Codec)
    requires Ticking(b) && Lockstep(b, phase) && Exact(b.geo)
    requires PullB(b, room, now, codec).1.source == Packet
    requires Due(b, b.playoutTs) <= now && b.geo.frameUs > 0 ==> InHorizon(b, Min(Behind(b, now), MAX_CATCHUP_JUMP))
    ensures Due(b, PullB(b, room, now, codec).1.timestamp) <= now
  {
    hide Wrap32, Wrap64, Distance, DeadlineOf, SkipToQ, AdvanceQ, LineTs, AlignB, PeekQ, Lockstep, InHorizon;
    if b.anchored {
      AlignIsIdentity(b, phase);
      if Due(b, b.playoutTs) <= now && Behind(b, now) > b.cfg.maxCatchupFrames {
        var jump := Min(Behind(b, now), MAX_CATCHUP_JUMP);
        CatchUpKeepsLockstep(b, phase, jump);
        AlignIsIdentity(CatchUpB(b, jump), phase);
        CatchUpLands(b, now);
      }
    }
  }

  /** How far a due pull jumps before it looks for a frame: nothing, or a catch-up. */
  function JumpOf(a: Buffer, now: u64): nat
    requires a.geo.frameUs > 0 && Due(a, a.playoutTs) <= now
  {
    if Behind(a, now) > a.cfg.maxCatchupFrames then Min(Behind(a, now), MAX_CATCHUP_JUMP) else 0
  }

  /** The pull produces a frame, from wherever it then stands. */
  predicate IsDue(b: Buffer, room: nat, now: u64) {
    b.open && room >= b.geo.framePcm && b.anchored && now >= Due(b, AlignB(b).0.playoutTs)
  }

  /** The frame a due pull will hand to the decoder, read off the queue before the pull. */
  function Chosen(b: Buffer, now: u64): Option<Frame>
    requires b.geo.frameUs > 0 && now >= Due(b, AlignB(b).0.playoutTs)
  { PeekQ(b.queue, Wrap32(b.queue.cursor + JumpOf(AlignB(b).0, now))) }

  lemma AlignedAlike(b: Buffer)
    ensures var a := AlignB(b).0; a == b.(playoutTs := a.playoutTs) && AlignB(b).1 == PeekQ(b.queue, b.queue.cursor)
  {}

  /** A jump inside the window finds exactly the frame that was held at its landing place. */
  lemma JumpFinds(a: Buffer, jump: nat)
    requires Coherent(a) && a.anchored && 0 < jump <= MAX_CATCHUP_JUMP
    ensures AlignB(CatchUpB(a, jump)).1 == PeekQ(a.queue, Wrap32(a.queue.cursor + jump))
  {
    DistanceTo(a.queue.cursor, jump);
    hide Wrap32, Distance, InWindow, HighestHeld;
  }

  lemma PositionIsChosen(b: Buffer, now: u64)
    requires Ticking(b) && Coherent(b) && b.open && b.anchored && now >= Due(b, AlignB(b).0.playoutTs)
    ensures var (a, held) := AlignB(b); PositionB(a, held, now).1 == Chosen(b, now)
  {
    hide AlignB, CatchUpB, Wrap32, DeadlineOf, PeekQ, InWindow, HighestHeld;
    AlignedAlike(b);
    var (a, held) := AlignB(b);
    if JumpOf(a, now) > 0 { JumpFinds(a, JumpOf(a, now)); }
    assert Wrap32(b.queue.cursor + 0) == b.queue.cursor by { WrapShift(b.queue.cursor, 0); ZeroShift(b.queue.cursor); }
  }

  lemma ZeroShift(x: u32)
    ensures Wrap32(x + 0) == x
  {}

  /** Which packet a pull plays, and when it plays none. */
  lemma PlaysChosen(b: Buffer, room: nat, now: u64, codec: Codec)
    requires Ticking(b) && Coherent(b)
    ensures var out := PullB(b, room, now, codec).1;
      && (out.source == Packet <==> IsDue(b, room, now) && Chosen(b, now).Some? && codec.decode.Ok())
      && (out.source == Packet ==> out.timestamp == Chosen(b, now).value.info.header.timestamp)
  {
    hide AlignB, PositionB, Chosen, DeadlineOf, Coherent, FillB, NextFrameB;
    AlignedAlike(b);
    var (a, held) := AlignB(b);
    if IsDue(b, room, now) {
      PositionIsChosen(b, now);
      FillsNoPacket(PositionB(a, held, now).0, codec);
    }
  }

  lemma FillsNoPacket(b: Buffer, codec: Codec)
    ensures FillB(b, codec).1.source != Packet
  {
    hide PeekQ, PastEnd, Wrap32;
  }

  /** Exactly when a packet is played before its deadline, for any stream: the pull is due, has fallen more
      than `max_catchup_frames` behind, and the frame standing where the catch-up will land is not due
      yet. All of it can be read off the buffer before the pull. */
  lemma EarlyPlayExactly(b: Buffer, room: nat, now: u64, codec: Codec)
    requires Ticking(b) && Coherent(b) && b.anchorLocalUs + 0x8000_0000 * 1_000 / 48 < LIMIT
    requires NearAnchor(b, b.playoutTs)
    requires b.queue.cursor in b.queue.frames ==> NearAnchor(b, b.queue.frames[b.queue.cursor].info.header.timestamp)
    ensures var out := PullB(b, room, now, codec).1;
      out.source == Packet && now < Due(b, out.timestamp) <==>
        && IsDue(b, room, now) && codec.decode.Ok() && Behind(AlignB(b).0, now) > b.cfg.maxCatchupFrames
        && Chosen(b, now).Some? && now < Due(b, Chosen(b, now).value.info.header.timestamp)
  {
    PlaysChosen(b, room, now, codec);
    if IsDue(b, room, now) && Behind(AlignB(b).0, now) <= b.cfg.maxCatchupFrames { StandingIsDue(b, now); }
    hide PullB, AlignB, Chosen, DeadlineOf, Coherent, NearAnchor;
    AlignedAlike(b);
  }

  /** Without a jump the frame standing at the cursor is due no later than the aligned position. */
  lemma StandingIsDue(b: Buffer, now: u64)
    requires Ticking(b) && b.open && b.anchorLocalUs + 0x8000_0000 * 1_000 / 48 < LIMIT && NearAnchor(b, b.playoutTs)
    requires b.queue.cursor in b.queue.frames ==> NearAnchor(b, b.queue.frames[b.queue.cursor].info.header.timestamp)
    requires now >= Due(b, AlignB(b).0.playoutTs) && Behind(AlignB(b).0, now) <= b.cfg.maxCatchupFrames
    ensures Chosen(b, now).Some? ==> Due(b, Chosen(b, now).value.info.header.timestamp) <= now
  {
    ZeroShift(b.queue.cursor);
    AlignedAlike(b);
    hide AlignB, DeadlineOf, NearAnchor, Wrap32;
    if Chosen(b, now).Some? {
      AlignedOrder(b);
      DeadlineMonotone(b.anchorTs, b.anchorLocalUs, Chosen(b, now).value.info.header.timestamp, AlignB(b).0.playoutTs);
    }
  }

  // ---------------------------------------------------------------- a run that plays early

  const FIRST := MediaPacket(MediaHeader(0, 1, 0, 0), [0])
  const RESUMED := MediaPacket(MediaHeader(0, 1, 7, 96_000), [0])

  function PlayedFirst(): Buffer {
    OpenB(DEFAULT_CONFIG, true).(
      anchored := true, hasStream := true, streamId := 1, anchorLocalUs := 60_000, playoutTs := 960,
      queue := Queue(true, 1, 0, map[], ZERO.(accepted := 1, delivered := 1)),
      stats := NO_STATS.(anchors := 1, fromPacket := 1))
  }

  function HoldingResumed(): Buffer {
    var frame := Frame(FrameInfo(RESUMED.header, 70_000, 2_060_000), RESUMED.payload);
    PlayedFirst().(
      lastArrivalUs := 70_000,
      queue := Queue(true, 1, 7, map[7 := frame], ZERO.(accepted := 2, delivered := 1)))
  }

  lemma OpensByDefault()
    ensures OpenB(DEFAULT_CONFIG, true) == CLOSED.(open := true)
  {}

  function HoldingFirst(): Buffer {
    var frame := Frame(FrameInfo(FIRST.header, 0, 60_000), FIRST.payload);
    OpenB(DEFAULT_CONFIG, true).(
      anchored := true, hasStream := true, streamId := 1, anchorLocalUs := 60_000,
      queue := Queue(true, 0, 0, map[0 := frame], ZERO.(accepted := 1)), stats := NO_STATS.(anchors := 1))
  }

  lemma FirstIsHeld()
    ensures PushB(OpenB(DEFAULT_CONFIG, true), FIRST, 0) == (HoldingFirst(), PushVerdict.Accepted)
  {
    OpensByDefault();
    DefaultDeadlines();
    assert Distance(0, 0) == 0;
    hide DeadlineOf, Distance, OpenB;
  }

  lemma PullStandingStill(b: Buffer, room: nat, now: u64, codec: Codec)
    requires Ticking(b) && IsDue(b, room, now) && AlignB(b).0 == b && Behind(b, now) == 0
    ensures PullB(b, room, now, codec) == PlayOrFillB(b, AlignB(b).1, codec)
  {
    hide AlignB, PlayOrFillB, DeadlineOf, CatchUpB;
  }

  lemma FirstIsPlayed(codec: Codec)
    requires codec.decode.Ok()
    ensures PullB(HoldingFirst(), 960, 60_000, codec).0 == PlayedFirst()
  {
    hide *;
    FirstAligns();
    FirstDecodes(codec);
    PullStandingStill(HoldingFirst(), 960, 60_000, codec);
  }

  lemma FirstAligns()
    ensures var b := HoldingFirst();
      && 0 in b.queue.frames && AlignB(b) == (b, Some(b.queue.frames[0]))
      && Ticking(b) && IsDue(b, 960, 60_000) && Behind(b, 60_000) == 0
  {
    DefaultDeadlines();
    OpensByDefault();
    assert Distance(0, 0) == 0;
    hide DeadlineOf, Distance, OpenB;
  }

  lemma FirstDecodes(codec: Codec)
    requires codec.decode.Ok()
    ensures var b := HoldingFirst(); PlayOrFillB(b, Some(b.queue.frames[0]), codec).0 == PlayedFirst()
  {
    OpensByDefault();
    hide OpenB, FillB;
    assert HoldingFirst().queue.frames - {0} == map[];
  }

  lemma ResumedIsHeld()
    ensures PushB(PlayedFirst(), RESUMED, 70_000) == (HoldingResumed(), PushVerdict.Accepted)
  {
    OpensByDefault();
    DefaultDeadlines();
    assert Distance(1, 7) == 6;
    hide DeadlineOf, Distance;
  }

  lemma DefaultDeadlines()
    ensures DeadlineOf(0, 60_000, 96_000) == 2_060_000
    ensures DeadlineOf(0, 60_000, 960) == 80_000 && DeadlineOf(0, 60_000, 0) == 60_000
  {
    SmallSpanIsExact(96_000);
    SmallSpanIsExact(960);
    SmallSpanIsExact(0);
    assert Distance(0, 96_000) == 96_000 && Distance(0, 960) == 960 && Distance(0, 0) == 0;
    hide Distance, SamplesToUs;
  }

  /** Off the line it can happen: a run of four calls on a default buffer. One frame is played on time, the
      sender then skips its timeline forward by two seconds without skipping sequence numbers to match,
      and a pull six frames late jumps onto the frame sent after the gap and plays it 1.86 seconds early. */
  lemma CatchUpCanPlayEarly(codec: Codec)
    requires codec.decode.Ok()
    ensures var events := [PushE(FIRST, 0), PullE(960, 60_000, codec), PushE(RESUMED, 70_000)];
            var b := RunB(OpenB(DEFAULT_CONFIG, true), events);
      var (c, out) := PullB(b, 960, 200_000, codec);
      && out.source == Packet && out.timestamp == 96_000 && Due(b, out.timestamp) == 2_060_000
      && c.stats.catchups == 1 && c.stats.catchupFrames == 6
  {
    OpensByDefault();
    ThreeCalls(codec);
    JumpsOntoResumed(codec);
    hide PullB, PushB, RunB;
  }

  lemma ThreeCalls(codec: Codec)
    requires codec.decode.Ok()
    ensures RunB(OpenB(DEFAULT_CONFIG, true), [PushE(FIRST, 0), PullE(960, 60_000, codec), PushE(RESUMED, 70_000)])
      == HoldingResumed()
  {
    OpensByDefault();
    FirstIsHeld();
    FirstIsPlayed(codec);
    ResumedIsHeld();
    hide PullB, PushB, HoldingResumed, PlayedFirst, HoldingFirst;
    var open := OpenB(DEFAULT_CONFIG, true);
    var one, two, three := PushE(FIRST, 0), PullE(960, 60_000, codec), PushE(RESUMED, 70_000);
    assert [one, two, three][..2] == [one, two] && [one, two][..1] == [one] && [one][..0] == [];
    assert RunB(open, [one]) == HoldingFirst();
  }

  lemma JumpsOntoResumed(codec: Codec)
    requires codec.decode.Ok()
    ensures var b := HoldingResumed(); var (c, out) := PullB(b, 960, 200_000, codec);
      && out.source == Packet && out.timestamp == 96_000 && Due(b, out.timestamp) == 2_060_000
      && c.stats.catchups == 1 && c.stats.catchupFrames == 6
  {
    OpensByDefault();
    DefaultDeadlines();
    var b := HoldingResumed();
    assert Distance(1, 7) == 6 && Distance(6_720, 96_000) > 0;
    assert Beyond(b.queue, 6) == b.queue.frames;
    hide DeadlineOf, Distance;
    assert AlignB(b) == (b, None) && Behind(b, 200_000) == 6;
  }

  /** Opening succeeds if and only if the decoder does, the rate is not nought, and a frame is at least a microsecond
      and, modulo 2^32, some wire units long; a failure leaves the buffer closed. */
  lemma OpensIff(cfg: Config, opens: bool)
    ensures OpenB(cfg, opens).open <==>
      && opens && cfg.decoder.sampleRateHz > 0
      && var us := cfg.decoder.frameSamples * 1_000_000 / cfg.decoder.sampleRateHz;
         us >= 1 && us * 48 / 1_000 % 0x1_0000_0000 != 0
    ensures OpenB(cfg, opens).open ==>
      var b := OpenB(cfg, opens);
      b.cfg == cfg && b.geo.frameSamples == cfg.decoder.frameSamples
      && b.geo.framePcm == cfg.decoder.frameSamples * cfg.decoder.channels
    ensures OpenB(cfg, opens).queue == EMPTY && !OpenB(cfg, opens).anchored && OpenB(cfg, opens).stats == NO_STATS
  {
    if cfg.decoder.sampleRateHz > 0 {
      var d := cfg.decoder;
      var total := d.frameSamples * 1_000_000;
      ShorterThan(total, d.sampleRateHz);
      var us := total / d.sampleRateHz;
      assert Wrap64(total) == total && Wrap64(us * 48) == us * 48;
      assert GeometryOf(d).frameUs == us && GeometryOf(d).frameTs == us * 48 / 1_000 % 0x1_0000_0000;
      hide GeometryOf, Wrap64;
    }
  }

  lemma ShorterThan(n: nat, size: nat)
    requires size > 0
    ensures 0 <= n / size <= n
  {
    var q := n / size;
    assert n == size * q + n % size;
    AtLeastOnce(size, q);
  }
}
