/** The buffer's remaining counters over whole runs: refused streams, decoder errors, catch-ups, anchors. */
module PlayoutCounters {
  import opened Words
  import opened Serial
  import opened Media
  import opened QueueSpec
  import opened QueueRuns
  import opened PlayoutSpec
  import opened PlayoutRuns
  import opened PlayoutDeadlines
  import opened PlayoutAccounting

  /** The pull has to catch up. */
  ghost predicate CatchesUp(b: Buffer, e: Event)
    requires Ticking(b)
  { e.PullE? && IsDue(b, e.room, e.now) && Behind(AlignB(b).0, e.now) > b.cfg.maxCatchupFrames }

  /** The frames it jumps over. */
  ghost function Jump(b: Buffer, e: Event): nat
    requires Ticking(b)
  { if CatchesUp(b, e) then Min(Behind(AlignB(b).0, e.now), 0x10_0000) else 0 }

  /** The pull reports an error of the codec. */
  predicate Errs(b: Buffer, e: Event)
    requires Ticking(b)
  { Produces(b, e) && PullB(b, e.room, e.now, e.codec).1.error != 0 }

  predicate Refused(b: Buffer, e: Event) { e.PushE? && PushB(b, e.packet, e.arrivalUs).1.Foreign? }

  /** Arrivals refused as of another stream. */
  function Foreigners(b: Buffer, events: seq<Event>): nat
    requires Ticking(b)
  {
    if events == [] then 0
    else
      var before, e := events[..|events| - 1], events[|events| - 1];
      Foreigners(b, before) + One(Refused(RunB(b, before), e))
  }

  function Errors(b: Buffer, events: seq<Event>): nat
    requires Ticking(b)
  {
    if events == [] then 0
    else
      var before, e := events[..|events| - 1], events[|events| - 1];
      Errors(b, before) + One(Errs(RunB(b, before), e))
  }

  ghost function CatchUps(b: Buffer, events: seq<Event>): nat
    requires Ticking(b)
  {
    if events == [] then 0
    else
      var before, e := events[..|events| - 1], events[|events| - 1];
      CatchUps(b, before) + One(CatchesUp(RunB(b, before), e))
  }

  ghost function Jumped(b: Buffer, events: seq<Event>): nat
    requires Ticking(b)
  {
    if events == [] then 0
    else
      var before, e := events[..|events| - 1], events[|events| - 1];
      Jumped(b, before) + Jump(RunB(b, before), e)
  }

  lemma FillErrs(b: Buffer, codec: Codec)
    ensures var (c, out) := FillB(b, codec);
      && c.stats.decodeErrors == b.stats.decodeErrors + One(out.error != 0)
      && (c.stats.foreign, c.stats.catchups, c.stats.catchupFrames) ==
         (b.stats.foreign, b.stats.catchups, b.stats.catchupFrames)
  {
    hide PeekQ, Wrap32, PastEnd, Recoverable;
  }

  lemma PlayOrFillErrs(b: Buffer, have: Option<Frame>, codec: Codec)
    ensures var (c, out) := PlayOrFillB(b, have, codec);
      && c.stats.decodeErrors == b.stats.decodeErrors + One(out.error != 0)
      && (c.stats.foreign, c.stats.catchups, c.stats.catchupFrames) ==
         (b.stats.foreign, b.stats.catchups, b.stats.catchupFrames)
  {
    FillErrs(b, codec);
    hide FillB, Wrap32, AdvanceQ;
  }

  lemma PositionErrs(a: Buffer, held: Option<Frame>, now: u64)
    requires a.geo.frameUs > 0 && Due(a, a.playoutTs) <= now
    ensures var s, t, behind := a.stats, PositionB(a, held, now).0.stats, Behind(a, now);
      && t.decodeErrors == s.decodeErrors && t.foreign == s.foreign
      && t.catchups == s.catchups + One(behind > a.cfg.maxCatchupFrames)
      && t.catchupFrames == s.catchupFrames + if behind > a.cfg.maxCatchupFrames then Min(behind, 0x10_0000) else 0
  {
    hide Wrap32, Distance, DeadlineOf, SkipToQ, PeekQ;
  }

  lemma PullErrs(b: Buffer, e: Event)
    requires Ticking(b) && e.PullE?
    ensures var s, t := b.stats, PullB(b, e.room, e.now, e.codec).0.stats;
      && t.foreign == s.foreign && t.decodeErrors == s.decodeErrors + One(Errs(b, e))
      && t.catchups == s.catchups + One(CatchesUp(b, e)) && t.catchupFrames == s.catchupFrames + Jump(b, e)
  {
    hide Wrap32, Distance, DeadlineOf, PeekQ, PositionB, PlayOrFillB;
    if Produces(b, e) && b.anchored {
      var (a, held) := AlignB(b);
      if e.now >= Due(a, a.playoutTs) {
        PositionErrs(a, held, e.now);
        PlayOrFillErrs(PositionB(a, held, e.now).0, PositionB(a, held, e.now).1, e.codec);
      }
    }
  }

  lemma PushErrs(b: Buffer, e: Event)
    requires Ticking(b) && e.PushE?
    ensures var s, t := b.stats, PushB(b, e.packet, e.arrivalUs).0.stats;
      && t.foreign == s.foreign + One(Refused(b, e)) && t.decodeErrors == s.decodeErrors
  {
    hide Distance, Wrap32, Wrap64, DeadlineOf, IsForeign, InsertQ, ResyncQ, StartQ;
  }

  /** Each of these counters is the number of the events it names, on every run: arrivals refused, frames
      reported with an error, pulls that caught up, and the frames they jumped over. */
  lemma {:induction false} CountersAreEvents(b: Buffer, events: seq<Event>)
    requires Ticking(b)
    ensures var s, t := b.stats, RunB(b, events).stats;
      && t.foreign == s.foreign + Foreigners(b, events) && t.decodeErrors == s.decodeErrors + Errors(b, events)
      && t.catchups == s.catchups + CatchUps(b, events) && t.catchupFrames == s.catchupFrames + Jumped(b, events)
  {
    if events != [] {
      var before, e := events[..|events| - 1], events[|events| - 1];
      CountersAreEvents(b, before);
      StepErrs(RunB(b, before), e);
      hide StepB, CatchesUp, Errs, Refused, Jump;
    }
  }

  lemma StepErrs(b: Buffer, e: Event)
    requires Ticking(b)
    ensures var s, t := b.stats, StepB(b, e).stats;
      && t.foreign == s.foreign + One(Refused(b, e)) && t.decodeErrors == s.decodeErrors + One(Errs(b, e))
      && t.catchups == s.catchups + One(CatchesUp(b, e)) && t.catchupFrames == s.catchupFrames + Jump(b, e)
  {
    hide PushB, PullB, IsDue, AlignB, DeadlineOf;
    match e
    case PushE(packet, arrivalUs) => PushErrs(b, e); PushCounts(b, packet, arrivalUs);
    case PullE(room, now, codec) => PullErrs(b, e);
  }

  /** Every time the timeline is pinned to a packet it is counted: once for the first packet of a stream and for a
      start flag, and once more when the packet turns out to lie 64 or more ahead. */
  lemma AnchorsAreCounted(b: Buffer, p: MediaPacket, arrivalUs: u64)
    requires b.open && b.anchored && Coherent(b) && !Refused(b, PushE(p, arrivalUs))
    ensures var c, live := PushB(b, p, arrivalUs).0, p.header.streamId == b.streamId;
      c.stats.anchors == b.stats.anchors + One(!live || p.header.TalkspurtStart()) +
        One(live && Distance(b.queue.cursor, p.header.sequence) >= CAPACITY && !Oversize(p))
  {
    ZeroDistance(p.header.sequence, p.header.sequence);
    hide Distance, Wrap32, Wrap64, DeadlineOf, MayTakeOver, InWindow, HighestHeld;
  }

  // ---------------------------------------------------------------- the run of missing frames

  /** The arrival puts the timeline somewhere else: on another stream, or on another position of this one. */
  predicate Breaks(b: Buffer, e: Event) {
    TakesOver(b, e) || (e.PushE? && b.anchored && PushB(b, e.packet, e.arrivalUs).0.queue.cursor != b.queue.cursor)
  }

  /** The pull had to do without its frame: nothing held, not rebuilt, and the sender had not stopped before it. */
  ghost predicate DoesWithout(b: Buffer, e: Event)
    requires Ticking(b)
  {
    && FillsHole(b, e) && PullB(b, e.room, e.now, e.codec).1.source != ForwardCorrection
    && !PastEnd(PositionB(AlignB(b).0, AlignB(b).1, e.now).0)
  }

  ghost predicate Restores(b: Buffer, e: Event)
    requires Ticking(b)
  { Produces(b, e) && PullB(b, e.room, e.now, e.codec).1.source in {Packet, ForwardCorrection} }

  /** Frames done without since the last one played or rebuilt, the last catch-up, or the last break. */
  ghost function Without(b: Buffer, events: seq<Event>): nat
    requires Ticking(b)
  {
    if events == [] then b.concealRun
    else
      var before, e := events[..|events| - 1], events[|events| - 1];
      var c := RunB(b, before);
      if Breaks(c, e) || Restores(c, e) then 0
      else (if CatchesUp(c, e) then 0 else Without(b, before)) + One(DoesWithout(c, e))
  }

  lemma FillRuns(b: Buffer, codec: Codec)
    ensures var (c, out) := FillB(b, codec);
      c.concealRun == if out.source == ForwardCorrection then 0
                      else if PastEnd(b) then b.concealRun else Wrap32(b.concealRun + 1)
  {
    hide PeekQ, Wrap32, PastEnd, Recoverable;
  }

  lemma PlayRuns(b: Buffer, f: Frame, codec: Codec)
    ensures var (c, out) := PlayB(b, f, codec);
      out.source != ForwardCorrection && c.concealRun == if out.source == Packet then 0 else b.concealRun
  {
    hide Wrap32, AdvanceQ;
  }

  lemma PositionRuns(a: Buffer, held: Option<Frame>, now: u64)
    requires a.geo.frameUs > 0 && Due(a, a.playoutTs) <= now
    ensures PositionB(a, held, now).0.concealRun ==
      if Behind(a, now) > a.cfg.maxCatchupFrames then 0 else a.concealRun
  {
    hide Wrap32, Distance, DeadlineOf, SkipToQ, PeekQ;
  }

  lemma PullRuns(b: Buffer, e: Event)
    requires Ticking(b) && e.PullE?
    ensures PullB(b, e.room, e.now, e.codec).0.concealRun ==
      if Restores(b, e) then 0
      else
        var run := if CatchesUp(b, e) then 0 else b.concealRun;
        if DoesWithout(b, e) then Wrap32(run + 1) else run
  {
    hide Wrap32, Distance, DeadlineOf, PeekQ, PositionB, PlayB, FillB, PastEnd;
    if Produces(b, e) && b.anchored {
      var (a, held) := AlignB(b);
      assert a.concealRun == b.concealRun;
      if e.now >= Due(a, a.playoutTs) {
        var (c, have) := PositionB(a, held, e.now);
        PositionRuns(a, held, e.now);
        FillCounts(c, e.codec);
        FillRuns(c, e.codec);
        if have.Some? { PlayRuns(c, have.value, e.codec); }
      }
    }
  }

  lemma TakeoverRuns(b: Buffer, p: MediaPacket, arrivalUs: u64)
    requires TakesOver(b, PushE(p, arrivalUs))
    ensures PushB(b, p, arrivalUs).0.concealRun == 0
  {
    hide Distance, Wrap32, Wrap64, DeadlineOf, MayTakeOver, InsertQ, StartQ, ResyncQ;
  }

  /** On the live stream only a restart ends the run, and a restart is what moves the cursor. */
  lemma LiveRuns(b: Buffer, p: MediaPacket, arrivalUs: u64)
    requires b.open && Coherent(b) && b.anchored && p.header.streamId == b.streamId
    ensures var c := PushB(b, p, arrivalUs).0;
      c.concealRun == if c.queue.cursor != b.queue.cursor then 0 else b.concealRun
  {
    ZeroDistance(p.header.sequence, p.header.sequence);
    ZeroDistance(b.queue.cursor, p.header.sequence);
    hide Distance, Wrap32, Wrap64, DeadlineOf, MayTakeOver, InWindow, HighestHeld;
  }

  /** The first packet of all leaves the run as it was. */
  lemma OpeningRuns(b: Buffer, p: MediaPacket, arrivalUs: u64)
    requires Coherent(b) && !b.anchored
    ensures PushB(b, p, arrivalUs).0.concealRun == b.concealRun
  {
    ZeroDistance(p.header.sequence, p.header.sequence);
    hide Distance, Wrap32, Wrap64, DeadlineOf, MayTakeOver, InWindow, HighestHeld, ResyncQ;
  }

  lemma StepRuns(b: Buffer, e: Event)
    requires Ticking(b) && Coherent(b)
    ensures StepB(b, e).concealRun ==
      if Breaks(b, e) || Restores(b, e) then 0
      else
        var run := if CatchesUp(b, e) then 0 else b.concealRun;
        if DoesWithout(b, e) then Wrap32(run + 1) else run
  {
    hide PullB, Wrap32, IsDue, AlignB, FillsHole;
    match e
    case PullE(room, now, codec) => PullRuns(b, e);
    case PushE(packet, arrivalUs) =>
      hide PushB;
      NoHole(b, e);
      if !b.anchored { OpeningRuns(b, packet, arrivalUs); }
      else if TakesOver(b, e) { TakeoverRuns(b, packet, arrivalUs); }
      else if b.open && packet.header.streamId == b.streamId { LiveRuns(b, packet, arrivalUs); }
      else { RefusedRuns(b, packet, arrivalUs); }
  }

  lemma RefusedRuns(b: Buffer, p: MediaPacket, arrivalUs: u64)
    requires !b.open || IsForeign(b, p.header, arrivalUs)
    ensures var c := PushB(b, p, arrivalUs).0; c.concealRun == b.concealRun && c.queue == b.queue
  {
    hide IsForeign;
  }

  lemma CountAgain(x: nat)
    ensures Wrap32(Wrap32(x) + 1) == Wrap32(x + 1) && Wrap32(0) == 0 && Wrap32(1) == 1
  {
    WrapShift(x, 1);
  }

  /** On every run, in step with the cursor or not, the run of missing frames is the number done without since the
      last one played or rebuilt, the last catch-up, or the last restart or takeover. */
  lemma {:induction false} RunIsSinceLast(b: Buffer, events: seq<Event>)
    requires Ticking(b) && Coherent(b)
    ensures RunB(b, events).concealRun == Wrap32(Without(b, events))
  {
    hide Wrap32, StepB, Coherent, Breaks, Restores, CatchesUp, DoesWithout;
    if events == [] {
      Unwrapped(b.concealRun);
    } else {
      var before, e := events[..|events| - 1], events[|events| - 1];
      RunIsSinceLast(b, before);
      CoherentOverRuns(b, before);
      StepRuns(RunB(b, before), e);
      CountAgain(Without(b, before));
    }
  }

  lemma Unwrapped(x: u32)
    ensures Wrap32(x) == x
  {}

  // ---------------------------------------------------------------- what a pull reports

  /** Where a pull says it stands is where it stands: before its time, on the frame it waits for and at the position
      it waits for; in a hole, one frame before where it leaves off, in number and in time; and on a frame,
      that frame's own number. */
  lemma ReportsWhereItStands(b: Buffer, e: Event)
    requires Ticking(b) && Coherent(b) && Produces(b, e) && b.anchored
    ensures var (d, out) := PullB(b, e.room, e.now, e.codec);
      if !IsDue(b, e.room, e.now) then
        out == Pulled(Silence, b.queue.cursor, d.playoutTs, b.geo.framePcm, 0) && d.queue == b.queue
        && d.playoutTs == AlignB(b).0.playoutTs
      else
        && Wrap32(out.sequence + 1) == d.queue.cursor
        && (FillsHole(b, e) ==> Wrap32(out.timestamp + b.geo.frameTs) == d.playoutTs)
  {
    hide Distance, DeadlineOf, PositionB, PlayOrFillB, InWindow, HighestHeld, AlignB, Wrap32;
    var (a, held) := AlignB(b);
    AlignedAlike(b);
    if e.now >= Due(a, a.playoutTs) {
      AlignTwice(b);
      PositionGaps(a, e.now);
      StandsAndMovesOn(PositionB(a, held, e.now).0, e.codec);
      PositionKeepsGeometry(a, held, e.now);
    }
  }

  lemma AlignTwice(b: Buffer)
    requires Coherent(b)
    ensures var (a, held) := AlignB(b); Coherent(a) && AlignB(a).1 == held && a.anchored == b.anchored && a.geo == b.geo
  {
    hide Distance, InWindow, HighestHeld;
  }

  lemma PositionKeepsGeometry(a: Buffer, held: Option<Frame>, now: u64)
    requires a.geo.frameUs > 0 && Due(a, a.playoutTs) <= now
    ensures PositionB(a, held, now).0.geo == a.geo
  {
    hide Wrap32, Distance, DeadlineOf, SkipToQ, PeekQ;
  }

  lemma StandsAndMovesOn(c: Buffer, codec: Codec)
    requires Coherent(c) && c.anchored
    ensures var have := PeekQ(c.queue, c.queue.cursor); var (d, out) := PlayOrFillB(c, have, codec);
      && Wrap32(out.sequence + 1) == d.queue.cursor
      && (have.None? ==> Wrap32(out.timestamp + c.geo.frameTs) == d.playoutTs)
  {
    FillStands(c, codec);
    hide Distance, Wrap32, FillB, HighestHeld;
  }

  lemma FillStands(c: Buffer, codec: Codec)
    ensures var (d, out) := FillB(c, codec);
      d.queue == c.queue && d.playoutTs == c.playoutTs && d.geo == c.geo
      && out.sequence == c.queue.cursor && out.timestamp == c.playoutTs
  {
    hide PeekQ, Wrap32, PastEnd, Recoverable;
  }
}
