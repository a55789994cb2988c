/** Counters over whole runs, and what an arrival may do to the cursor. */
module PlayoutAccounting {
  import opened Words
  import opened Serial
  import opened Clock
  import opened Media
  import opened QueueSpec
  import opened QueueRuns
  import opened PlayoutSpec
  import opened PlayoutRuns

  /** A pull that produces a frame: the buffer is open and the caller's span is long enough. */
  predicate Produces(b: Buffer, e: Event) { e.PullE? && b.open && e.room >= b.geo.framePcm }

  /** The sources reported by the frames a run produced, oldest first. */
  function Sources(b: Buffer, events: seq<Event>): seq<Source>
    requires Ticking(b)
  {
    if events == [] then []
    else
      var before, e := events[..|events| - 1], events[|events| - 1];
      Sources(b, before) +
        if Produces(b, e) then [PullB(RunB(b, before), e.room, e.now, e.codec).1.source] else []
  }

  function One(c: bool): nat { if c then 1 else 0 }

  lemma FillCounts(b: Buffer, codec: Codec)
    ensures var (c, out) := FillB(b, codec);
      && c.stats.fromPacket == b.stats.fromPacket && out.source != Packet
      && c.stats.fecRecovered == b.stats.fecRecovered + One(out.source == ForwardCorrection)
      && c.stats.concealed == b.stats.concealed + One(out.source == Concealment)
      && c.stats.silence == b.stats.silence + One(out.source == Silence)
      && c.stats.catchupFrames == b.stats.catchupFrames
      && c.queue == b.queue
  {
    hide Wrap32, Distance, PeekQ;
  }

  lemma PullCounts(b: Buffer, room: nat, now: u64, codec: Codec)
    requires Ticking(b) && b.open && room >= b.geo.framePcm
    ensures var (c, out) := PullB(b, room, now, codec);
      && c.stats.fromPacket == b.stats.fromPacket + One(out.source == Packet)
      && c.stats.fecRecovered == b.stats.fecRecovered + One(out.source == ForwardCorrection)
      && c.stats.concealed == b.stats.concealed + One(out.source == Concealment)
      && c.stats.silence == b.stats.silence + One(out.source == Silence)
  {
    hide Wrap32, Wrap64, Distance, DeadlineOf, PeekQ, PlayOrFillB, PositionB;
    var (a, held) := AlignB(b);
    if now >= Due(a, a.playoutTs) {
      var (c, have) := PositionB(a, held, now);
      PositionCounts(a, held, now);
      PlayOrFillCounts(c, have, codec);
    }
  }

  lemma PositionCounts(a: Buffer, held: Option<Frame>, now: u64)
    requires a.geo.frameUs > 0 && Due(a, a.playoutTs) <= now
    ensures var s, t := a.stats, PositionB(a, held, now).0.stats;
      (t.fromPacket, t.fecRecovered, t.concealed, t.silence) == (s.fromPacket, s.fecRecovered, s.concealed, s.silence)
  {
    hide Wrap32, Distance, DeadlineOf, SkipToQ, PeekQ;
  }

  lemma PlayOrFillCounts(b: Buffer, have: Option<Frame>, codec: Codec)
    ensures var (c, out) := PlayOrFillB(b, have, codec);
      && c.stats.fromPacket == b.stats.fromPacket + One(out.source == Packet)
      && c.stats.fecRecovered == b.stats.fecRecovered + One(out.source == ForwardCorrection)
      && c.stats.concealed == b.stats.concealed + One(out.source == Concealment)
      && c.stats.silence == b.stats.silence + One(out.source == Silence)
  {
    hide Wrap32, AdvanceQ, FillB;
    FillCounts(b, codec);
  }

  lemma PushCounts(b: Buffer, p: MediaPacket, arrivalUs: u64)
    ensures SameReports(b.stats, PushB(b, p, arrivalUs).0.stats)
  {
    hide Distance, Wrap32, Wrap64, DeadlineOf, IsForeign, PlaceB, InsertB;
    PlaceCounts(AdoptB(b, p.header, arrivalUs), p.header, arrivalUs);
    var c := NoteEndB(PlaceB(AdoptB(b, p.header, arrivalUs), p.header, arrivalUs), p.header);
    InsertCounts(c, p, arrivalUs);
    InsertCounts(RestartB(InsertB(c, p, arrivalUs).0, p.header, arrivalUs).(hasEnd := false), p, arrivalUs);
  }

  predicate SameReports(s: Stats, t: Stats) {
    && (t.fromPacket, t.fecRecovered, t.concealed, t.silence) == (s.fromPacket, s.fecRecovered, s.concealed, s.silence)
    && (t.muted, t.catchups, t.catchupFrames) == (s.muted, s.catchups, s.catchupFrames)
  }

  lemma PlaceCounts(b: Buffer, h: MediaHeader, arrivalUs: u64)
    ensures SameReports(b.stats, PlaceB(b, h, arrivalUs).stats)
  {
    hide Distance, Wrap64;
  }

  lemma InsertCounts(b: Buffer, p: MediaPacket, arrivalUs: u64)
    ensures InsertB(b, p, arrivalUs).0.stats == b.stats
    ensures InsertB(b, p, arrivalUs).0.queue.n.gaps == b.queue.n.gaps
  {
    hide Distance, DeadlineOf;
  }

  /** The four source counters are exactly the multiset of sources reported: every frame produced
      is counted once, under the source it was reported with, and nothing else is. */
  lemma {:induction false} CountersAreSources(b: Buffer, events: seq<Event>)
    requires Ticking(b)
    ensures var s, t, m := b.stats, RunB(b, events).stats, multiset(Sources(b, events));
      && t.fromPacket == s.fromPacket + m[Packet]
      && t.fecRecovered == s.fecRecovered + m[ForwardCorrection]
      && t.concealed == s.concealed + m[Concealment]
      && t.silence == s.silence + m[Silence]
      && |Sources(b, events)| == m[Packet] + m[ForwardCorrection] + m[Concealment] + m[Silence]
  {
    if events != [] {
      var before, e := events[..|events| - 1], events[|events| - 1];
      CountersAreSources(b, before);
      var c := RunB(b, before);
      match e
      case PushE(packet, arrivalUs) => hide PushB; PushCounts(c, packet, arrivalUs);
      case PullE(room, now, codec) =>
        hide PullB;
        if Produces(b, e) { PullCounts(c, room, now, codec); } else { RefusedPull(c, room, now, codec); }
    }
  }

  /** A pull of a closed buffer, or into less room than a frame takes, changes nothing and says so. */
  lemma RefusedPull(b: Buffer, room: nat, now: u64, codec: Codec)
    requires Ticking(b) && !(b.open && room >= b.geo.framePcm)
    ensures PullB(b, room, now, codec) == (b, Pulled(Silence, b.queue.cursor, b.playoutTs, 0, -2))
  {}

  // ---------------------------------------------------------------- gaps

  /** The pull finds its position empty and has to fill it. */
  ghost predicate FillsHole(b: Buffer, e: Event)
    requires Ticking(b)
  {
    && Produces(b, e) && b.anchored
    && var (a, held) := AlignB(b);
       e.now >= Due(a, a.playoutTs) && PositionB(a, held, e.now).1.None?
  }

  /** The packet tears the current stream down, and with it the queue's counters. */
  predicate TakesOver(b: Buffer, e: Event) {
    e.PushE? && b.open && b.hasStream && e.packet.header.streamId != b.streamId
      && !IsForeign(b, e.packet.header, e.arrivalUs)
  }

  /** Holes filled since the last takeover. */
  ghost function Holes(b: Buffer, events: seq<Event>): nat
    requires Ticking(b)
  {
    if events == [] then 0
    else
      var before, e := events[..|events| - 1], events[|events| - 1];
      if TakesOver(RunB(b, before), e) then 0
      else Holes(b, before) + One(FillsHole(RunB(b, before), e))
  }

  /** Frames caught up over since the last takeover. */
  ghost function CaughtUp(b: Buffer, events: seq<Event>): nat
    requires Ticking(b)
  {
    if events == [] then 0
    else
      var before, e := events[..|events| - 1], events[|events| - 1];
      if TakesOver(RunB(b, before), e) then 0
      else CaughtUp(b, before) + Max(0, RunB(b, events).stats.catchupFrames - RunB(b, before).stats.catchupFrames)
  }

  lemma PushGaps(b: Buffer, p: MediaPacket, arrivalUs: u64)
    ensures PushB(b, p, arrivalUs).0.queue.n.gaps == if TakesOver(b, PushE(p, arrivalUs)) then 0 else b.queue.n.gaps
  {
    hide Distance, Wrap32, Wrap64, DeadlineOf, InsertB, IsForeign;
    var c := NoteEndB(PlaceB(AdoptB(b, p.header, arrivalUs), p.header, arrivalUs), p.header);
    InsertCounts(c, p, arrivalUs);
    InsertCounts(RestartB(InsertB(c, p, arrivalUs).0, p.header, arrivalUs).(hasEnd := false), p, arrivalUs);
  }

  lemma CatchUpGaps(a: Buffer, jump: nat)
    requires Coherent(a) && a.anchored && 0 < jump <= MAX_CATCHUP_JUMP
    ensures var c := CatchUpB(a, jump);
      c.stats.catchupFrames == a.stats.catchupFrames + jump && c.queue.n.gaps == a.queue.n.gaps + jump
  {
    DistanceTo(a.queue.cursor, jump);
    hide Distance, Wrap32, InWindow, HighestHeld, Beyond;
  }

  lemma PositionGaps(a: Buffer, now: u64)
    requires Coherent(a) && a.anchored && a.geo.frameUs > 0 && Due(a, a.playoutTs) <= now
    ensures var (c, have) := PositionB(a, AlignB(a).1, now);
      && Coherent(c) && c.anchored && have == PeekQ(c.queue, c.queue.cursor)
      && c.stats.catchupFrames >= a.stats.catchupFrames
      && c.queue.n.gaps == a.queue.n.gaps + (c.stats.catchupFrames - a.stats.catchupFrames)
  {
    hide Distance, Wrap32, DeadlineOf, InWindow, HighestHeld, CatchUpB;
    if Behind(a, now) > a.cfg.maxCatchupFrames {
      var jump := Min(Behind(a, now), MAX_CATCHUP_JUMP);
      CatchUpIsCoherent(a, jump);
      CatchUpGaps(a, jump);
    }
  }

  lemma PlayOrFillGaps(c: Buffer, codec: Codec)
    requires Coherent(c) && c.anchored
    ensures var have := PeekQ(c.queue, c.queue.cursor); var d := PlayOrFillB(c, have, codec).0;
      d.queue.n.gaps == c.queue.n.gaps + One(have.None?) && d.stats.catchupFrames == c.stats.catchupFrames
  {
    hide Distance, Wrap32, InWindow, HighestHeld, FillB;
    FillCounts(c, codec);
  }

  lemma PullGaps(b: Buffer, e: Event)
    requires Ticking(b) && Coherent(b) && Produces(b, e)
    ensures var c := PullB(b, e.room, e.now, e.codec).0;
      && c.stats.catchupFrames >= b.stats.catchupFrames
      && c.queue.n.gaps == b.queue.n.gaps + (c.stats.catchupFrames - b.stats.catchupFrames) + One(FillsHole(b, e))
  {
    hide Wrap64, DeadlineOf, Distance, Wrap32, PlayOrFillB, PositionB, InWindow, HighestHeld;
    if b.anchored {
      var (a, held) := AlignB(b);
      assert Coherent(a) && AlignB(a).1 == held && a.queue == b.queue && a.stats == b.stats;
      if e.now >= Due(a, a.playoutTs) {
        PositionGaps(a, e.now);
        PlayOrFillGaps(PositionB(a, held, e.now).0, e.codec);
      }
    }
  }

  /** The gap count the queue had, unless a takeover has reset it. */
  ghost function Carried(b: Buffer, events: seq<Event>): nat
    requires Ticking(b)
  {
    if events == [] then b.queue.n.gaps
    else if TakesOver(RunB(b, events[..|events| - 1]), events[|events| - 1]) then 0
    else Carried(b, events[..|events| - 1])
  }

  /** Since the queue was last reset, its gaps are exactly the frames caught up over plus the holes
      the playout had to fill. */
  lemma {:induction false} GapsAreHolesAndJumps(b: Buffer, events: seq<Event>)
    requires Ticking(b) && Coherent(b)
    ensures RunB(b, events).queue.n.gaps == Carried(b, events) + CaughtUp(b, events) + Holes(b, events)
  {
    if events != [] {
      var before, e := events[..|events| - 1], events[|events| - 1];
      GapsAreHolesAndJumps(b, before);
      CoherentOverRuns(b, before);
      var c := RunB(b, before);
      hide PushB, PullB, Coherent, FillsHole;
      match e
      case PushE(packet, arrivalUs) => PushGaps(c, packet, arrivalUs); PushCounts(c, packet, arrivalUs); NoHole(c, e);
      case PullE(room, now, codec) =>
        if Produces(c, e) { PullGaps(c, e); } else { RefusedPull(c, room, now, codec); NoHole(c, e); }
    }
  }

  lemma NoHole(b: Buffer, e: Event)
    requires Ticking(b) && !Produces(b, e)
    ensures !FillsHole(b, e)
  {}

  // ---------------------------------------------------------------- concealment runs

  lemma NextOrWrapped(x: u32)
    ensures Wrap32(x + 1) == if x < 0xFFFF_FFFF then x + 1 else 0
  {}

  /** What one due position did to the run of missing frames, the inventions and the mutes. */
  predicate ConcealStep(b: Buffer, c: Buffer) {
    var m := b.cfg.maxConcealRun;
    && c.stats.catchups == b.stats.catchups
    && (b.concealRun <= c.concealRun ==>
          && c.stats.concealed - b.stats.concealed <= Min(c.concealRun, m) - Min(b.concealRun, m)
          && c.stats.muted - b.stats.muted == One(b.concealRun <= m < c.concealRun))
  }

  lemma FillConceals(b: Buffer, codec: Codec)
    ensures ConcealStep(b, FillB(b, codec).0)
  {
    NextOrWrapped(b.concealRun);
    hide Distance, PeekQ, Wrap32;
  }

  lemma PlayOrFillConceals(b: Buffer, have: Option<Frame>, codec: Codec)
    ensures ConcealStep(b, PlayOrFillB(b, have, codec).0)
  {
    FillConceals(b, codec);
    hide FillB, Distance, PeekQ, AdvanceQ, Wrap32;
  }

  /** The step did not put the run of missing frames back to zero. */
  predicate KeepsRun(b: Buffer, c: Buffer) { b.concealRun <= c.concealRun && c.stats.catchups == b.stats.catchups }

  lemma StepConceals(b: Buffer, e: Event)
    requires Ticking(b) && KeepsRun(b, StepB(b, e))
    ensures var c := StepB(b, e); var m := b.cfg.maxConcealRun;
      && c.stats.concealed - b.stats.concealed <= Min(c.concealRun, m) - Min(b.concealRun, m)
      && c.stats.muted - b.stats.muted == One(b.concealRun <= m < c.concealRun)
  {
    match e
    case PushE(packet, arrivalUs) =>
      PushCounts(b, packet, arrivalUs);
      hide PushB;
    case PullE(room, now, codec) =>
      hide Wrap32, Wrap64, Distance, DeadlineOf, SkipToQ, AdvanceQ, PeekQ, PlayOrFillB, PositionB;
      var (a, held) := AlignB(b);
      if b.open && now >= Due(a, a.playoutTs) {
        PositionConceals(a, held, now);
        PlayOrFillConceals(PositionB(a, held, now).0, PositionB(a, held, now).1, codec);
      }
  }

  lemma PositionConceals(a: Buffer, held: Option<Frame>, now: u64)
    requires a.geo.frameUs > 0 && Due(a, a.playoutTs) <= now
    ensures var c := PositionB(a, held, now).0;
      && c.stats.concealed == a.stats.concealed && c.stats.muted == a.stats.muted && c.cfg == a.cfg
      && c.stats.catchups >= a.stats.catchups
      && (c.stats.catchups == a.stats.catchups ==> c.concealRun == a.concealRun)
  {
    hide Wrap32, Distance, DeadlineOf, SkipToQ, PeekQ;
  }

  ghost predicate Unbroken(b: Buffer, events: seq<Event>)
    requires Ticking(b)
  {
    forall i | 0 <= i < |events| :: KeepsRun(RunB(b, events[..i]), StepB(RunB(b, events[..i]), events[i]))
  }

  /** While nothing puts the run of missing frames back to zero, at most `max_conceal_run` frames
      are invented, and the mute is entered exactly once, when the run passes that limit. */
  lemma {:induction false} ConcealmentIsBounded(b: Buffer, events: seq<Event>)
    requires Ticking(b) && Unbroken(b, events)
    ensures var c := RunB(b, events); var m := b.cfg.maxConcealRun;
      && b.concealRun <= c.concealRun
      && c.stats.concealed - b.stats.concealed <= Min(c.concealRun, m) - Min(b.concealRun, m) <= m
      && c.stats.muted - b.stats.muted == One(b.concealRun <= m < c.concealRun)
  {
    if events != [] {
      var before, e := events[..|events| - 1], events[|events| - 1];
      forall i | 0 <= i < |before| ensures before[..i] == events[..i] && before[i] == events[i] {}
      ConcealmentIsBounded(b, before);
      StepConceals(RunB(b, before), e);
      hide StepB;
    }
  }

  // ---------------------------------------------------------------- the cursor and the anchor

  /** Too large for a slot: refused, but only after it has had its say about the anchor. */
  predicate Oversize(p: MediaPacket) { |p.payload| > MAX_FRAME_PAYLOAD }

  /** Where an arrival on the live stream leaves the cursor and the anchor. It goes back only for a
      packet flagged as the start of a talkspurt whose sequence is already behind: a duplicate
      of the first packet is enough, and so is one too large to be stored. It goes forward only onto a
      packet that fits and is 64 or more ahead. And the anchor moves exactly in those two cases and
      for a start flag ahead of the cursor. */
  lemma PushMovesCursor(b: Buffer, p: MediaPacket, arrivalUs: u64)
    requires b.open && Coherent(b) && b.anchored && p.header.streamId == b.streamId
    ensures var c := PushB(b, p, arrivalUs).0; var offset := Distance(b.queue.cursor, p.header.sequence);
      && (Distance(b.queue.cursor, c.queue.cursor) < 0 <==> p.header.TalkspurtStart() && offset < 0)
      && (Distance(b.queue.cursor, c.queue.cursor) > 0 <==> offset >= CAPACITY && !Oversize(p))
      && (c.queue.cursor == b.queue.cursor || c.queue.cursor == p.header.sequence)
      && (c.stats.anchors > b.stats.anchors <==> p.header.TalkspurtStart() || (offset >= CAPACITY && !Oversize(p)))
      && (c.stats.anchors == b.stats.anchors ==> c.anchorTs == b.anchorTs && c.anchorLocalUs == b.anchorLocalUs)
  {
    var offset := Distance(b.queue.cursor, p.header.sequence);
    ZeroDistance(b.queue.cursor, b.queue.cursor);
    ZeroDistance(p.header.sequence, p.header.sequence);
    hide Distance, Wrap32, Wrap64, DeadlineOf, InWindow, HighestHeld;
  }

  /** A reset keeps the buffer's own counters, but it starts the queue's from zero: those survive
      only if they were zero already. */
  lemma ResetStreamDropsQueueCounters(b: Buffer)
    ensures ResetStreamB(b).stats == b.stats
    ensures ResetStreamB(b).queue.n == b.queue.n <==> b.queue.n == ZERO
  {}

  /** So a stream that takes over finds the queue's counters gone: they count its own first packet and
      nothing else, while the buffer's own counters go on. */
  lemma TakeoverCountsAfresh(b: Buffer, p: MediaPacket, arrivalUs: u64)
    requires TakesOver(b, PushE(p, arrivalUs))
    ensures var (c, verdict) := PushB(b, p, arrivalUs);
      && verdict == (if Oversize(p) then PushVerdict.Oversized
                     else if arrivalUs + b.cfg.targetDelayUs > MAX_U64 then PushVerdict.Late
                     else PushVerdict.Accepted)
      && c.queue.n == (if verdict.Oversized? then ZERO.(oversized := 1)
                       else if verdict.Late? then ZERO.(late := 1) else ZERO.(accepted := 1))
      && c.stats == b.stats.(anchors := b.stats.anchors + 1)
  {
    ZeroDistance(p.header.sequence, p.header.sequence);
    ZeroDistance(p.header.timestamp, p.header.timestamp);
    SmallSpanIsExact(0);
    hide Distance, Wrap32, SamplesToUs;
  }
}
