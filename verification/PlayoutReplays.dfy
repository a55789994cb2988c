/** A start flag received twice plays its packet twice. */
module PlayoutReplays {
  import opened Words
  import opened Serial
  import opened Clock
  import opened Media
  import opened QueueSpec
  import opened QueueRuns
  import opened PlayoutSpec
  import opened PlayoutRuns
  import opened PlayoutDeadlines
  import opened PlayoutAccounting

  /** A buffer standing on one stored frame, which is due at `dueUs`. */
  ghost predicate Poised(c: Buffer, p: MediaPacket, dueUs: u64) {
    && c.open && c.anchored && Coherent(c) && c.queue.cursor == p.header.sequence && c.streamId == p.header.streamId
    && c.playoutTs == p.header.timestamp == c.anchorTs && c.anchorLocalUs == dueUs
    && PeekQ(c.queue, c.queue.cursor).Some? && PeekQ(c.queue, c.queue.cursor).value.info.header == p.header
  }

  lemma OpeningPoises(b: Buffer, p: MediaPacket, arrivalUs: u64)
    requires b.open && Coherent(b) && !b.anchored && !Oversize(p) && arrivalUs + b.cfg.targetDelayUs <= MAX_U64
    ensures Poised(PushB(b, p, arrivalUs).0, p, arrivalUs + b.cfg.targetDelayUs)
  {
    EmptyMap(b.queue.frames);
    ZeroDistance(p.header.sequence, p.header.sequence);
    ZeroDistance(p.header.timestamp, p.header.timestamp);
    SmallSpanIsExact(0);
    PushIsCoherent(b, p, arrivalUs);
    hide Distance, Wrap32, InWindow, HighestHeld, SamplesToUs;
  }

  lemma StartBehindPoises(b: Buffer, p: MediaPacket, arrivalUs: u64)
    requires b.open && Coherent(b) && b.anchored && p.header.streamId == b.streamId && !Oversize(p)
    requires p.header.TalkspurtStart() && Distance(b.queue.cursor, p.header.sequence) < 0
    requires arrivalUs + b.cfg.targetDelayUs <= MAX_U64
    ensures Poised(PushB(b, p, arrivalUs).0, p, arrivalUs + b.cfg.targetDelayUs)
  {
    ZeroDistance(p.header.sequence, p.header.sequence);
    ZeroDistance(p.header.timestamp, p.header.timestamp);
    SmallSpanIsExact(0);
    PushIsCoherent(b, p, arrivalUs);
    hide Distance, Wrap32, Wrap64, InWindow, HighestHeld, SamplesToUs, UsToSamples;
  }

  lemma PoisedStands(c: Buffer, p: MediaPacket, now: u64)
    requires Poised(c, p, now) && c.geo.frameUs > 0
    ensures var held := PeekQ(c.queue, c.queue.cursor);
      AlignB(c) == (c, held) && IsDue(c, c.geo.framePcm, now) && Behind(c, now) == 0
  {
    ZeroDistance(p.header.timestamp, p.header.timestamp);
    SmallSpanIsExact(0);
    hide Distance, InWindow, HighestHeld, SamplesToUs;
  }

  lemma PlayedIsBehind(c: Buffer, f: Frame, codec: Codec)
    requires codec.decode.Ok() && c.queue.started
    ensures var (d, out) := PlayOrFillB(c, Some(f), codec);
      && out.source == Packet && out.sequence == f.info.header.sequence
      && d.open == c.open && d.anchored == c.anchored && d.cfg == c.cfg && d.geo == c.geo && d.streamId == c.streamId
      && Distance(d.queue.cursor, c.queue.cursor) == -1
  {
    DistanceIsTrueDistance(c.queue.cursor + 1, c.queue.cursor);
    hide Distance;
  }

  /** What a buffer must keep to be played again. */
  ghost predicate Live(c: Buffer, d: Buffer, p: MediaPacket) {
    && d.open && d.anchored && Coherent(d) && d.cfg == c.cfg && d.geo == c.geo
    && d.streamId == p.header.streamId && Distance(d.queue.cursor, p.header.sequence) == -1
  }

  lemma PoisedPlays(c: Buffer, p: MediaPacket, now: u64, codec: Codec)
    requires Poised(c, p, now) && c.geo.frameUs > 0 && codec.decode.Ok()
    ensures var (d, out) := PullB(c, c.geo.framePcm, now, codec);
      out.source == Packet && out.sequence == p.header.sequence && Live(c, d, p)
  {
    PoisedStands(c, p, now);
    PullIsCoherent(c, c.geo.framePcm, now, codec);
    assert c.queue.started && Ticking(c);
    hide AlignB, IsDue, Behind, PullB, PlayOrFillB, Coherent, Distance;
    PullStandingStill(c, c.geo.framePcm, now, codec);
    PlayedIsBehind(c, PeekQ(c.queue, c.queue.cursor).value, codec);
  }

  /** The first packet of a talkspurt, received once and played, then received again: the timeline goes back
      to it and it is played a second time, whenever the copy comes. */
  lemma DuplicateStartReplays(b: Buffer, p: MediaPacket, firstUs: u64, againUs: u64, codec: Codec)
    requires b.open && Coherent(b) && !b.anchored && b.geo.frameUs > 0 && codec.decode.Ok()
    requires p.header.TalkspurtStart() && !Oversize(p)
    requires firstUs + b.cfg.targetDelayUs <= MAX_U64 && againUs + b.cfg.targetDelayUs <= MAX_U64
    ensures var first := PullE(b.geo.framePcm, firstUs + b.cfg.targetDelayUs, codec);
      var heard := RunB(b, [PushE(p, firstUs)]);
      var again := RunB(b, [PushE(p, firstUs), first, PushE(p, againUs)]);
      var one := PullB(heard, first.room, first.now, codec).1;
      var two := PullB(again, first.room, againUs + b.cfg.targetDelayUs, codec).1;
      one.source == two.source == Packet && one.sequence == two.sequence == p.header.sequence
  {
    hide PushB, PullB, StepB, RunB, Poised, Live, Oversize, MediaHeader.TalkspurtStart, Coherent;
    var first := PullE(b.geo.framePcm, firstUs + b.cfg.targetDelayUs, codec);
    ThreeRun(b, PushE(p, firstUs), first, PushE(p, againUs));
    var heard := RunB(b, [PushE(p, firstUs)]);
    OpeningStep(b, p, firstUs);
    PlayedStep(heard, p, first.now, codec);
    PoisedPlays(heard, p, first.now, codec);
    var played := RunB(b, [PushE(p, firstUs), first]);
    CopyStep(heard, played, p, againUs);
    PoisedPlays(RunB(b, [PushE(p, firstUs), first, PushE(p, againUs)]), p, againUs + b.cfg.targetDelayUs, codec);
  }

  lemma OpeningStep(b: Buffer, p: MediaPacket, firstUs: u64)
    requires Ticking(b) && b.open && Coherent(b) && !b.anchored && !Oversize(p)
    requires firstUs + b.cfg.targetDelayUs <= MAX_U64
    ensures Poised(StepB(b, PushE(p, firstUs)), p, firstUs + b.cfg.targetDelayUs)
  {
    hide PushB, PullB, Poised, Oversize, Coherent;
    OpeningPoises(b, p, firstUs);
  }

  lemma PlayedStep(c: Buffer, p: MediaPacket, due: u64, codec: Codec)
    requires Ticking(c) && Poised(c, p, due) && c.geo.frameUs > 0 && codec.decode.Ok()
    ensures Live(c, StepB(c, PullE(c.geo.framePcm, due, codec)), p)
  {
    hide PushB, PullB, Poised, Coherent, Live;
    PoisedPlays(c, p, due, codec);
  }

  lemma CopyStep(c: Buffer, d: Buffer, p: MediaPacket, againUs: u64)
    requires Ticking(d) && Live(c, d, p) && p.header.TalkspurtStart() && !Oversize(p)
    requires againUs + c.cfg.targetDelayUs <= MAX_U64
    ensures Poised(StepB(d, PushE(p, againUs)), p, againUs + c.cfg.targetDelayUs)
  {
    hide PushB, PullB, Poised, Oversize, MediaHeader.TalkspurtStart, Distance, Coherent;
    StartBehindPoises(d, p, againUs);
  }

  lemma OneMore(b: Buffer, events: seq<Event>, e: Event)
    requires Ticking(b)
    ensures RunB(b, events + [e]) == StepB(RunB(b, events), e)
  {
    hide StepB, PushB, PullB;
    assert (events + [e])[..|events|] == events;
  }

  lemma ThreeRun(b: Buffer, x: Event, y: Event, z: Event)
    requires Ticking(b)
    ensures RunB(b, [x]) == StepB(b, x)
    ensures RunB(b, [x, y]) == StepB(RunB(b, [x]), y)
    ensures RunB(b, [x, y, z]) == StepB(RunB(b, [x, y]), z)
  {
    hide StepB, PushB, PullB;
    assert RunB(b, []) == b && [] + [x] == [x] && [x] + [y] == [x, y] && [x, y] + [z] == [x, y, z];
    OneMore(b, [], x);
    OneMore(b, [x], y);
    OneMore(b, [x, y], z);
  }
}
