/** The two modular clocks of playout, sequence and timestamp, kept in step. */
module PlayoutTimeline {
  import opened Words
  import opened Serial
  import opened Media
  import opened QueueSpec
  import opened QueueRuns
  import opened PlayoutSpec
  import opened PlayoutRuns

  /** The timestamp of position `sequence` on a line of slope `step`, both modulo 2^32. */
  function LineTs(phase: int, step: int, sequence: int): u32 { Wrap32(phase + step * sequence) }

  /** Moving along the line and moving in the image agree, through both wraps. */
  lemma LineShift(phase: int, step: int, sequence: int, j: int)
    ensures LineTs(phase, step, Wrap32(sequence + j)) == Wrap32(LineTs(phase, step, sequence) + j * step)
    ensures LineTs(phase, step, Wrap32(sequence)) == LineTs(phase, step, sequence)
  {
    LineWrap(phase, step, sequence + j);
    LineWrap(phase, step, sequence);
    WrapAgain(phase + step * sequence, j * step);
    Spread(step, sequence, j);
    hide Wrap32;
  }

  lemma WrapAgain(a: int, b: int)
    ensures Wrap32(Wrap32(a) + b) == Wrap32(a + b)
  {}

  lemma Spread(step: int, sequence: int, j: int)
    ensures step * (sequence + j) == step * sequence + j * step
  {}

  lemma LineWrap(phase: int, step: int, x: int)
    ensures LineTs(phase, step, Wrap32(x)) == LineTs(phase, step, x)
  {
    var laps := x / 0x1_0000_0000;
    assert x == Wrap32(x) + laps * 0x1_0000_0000;
    assert phase + step * x == phase + step * Wrap32(x) + (step * laps) * 0x1_0000_0000;
  }

  /** A stream whose timestamps are affine in its sequence numbers; `phase` gives each stream
      its own offset. */
  predicate OnLine(h: MediaHeader, phase: u32 -> u32, step: int) {
    h.timestamp == LineTs(phase(h.streamId), step, h.sequence)
  }

  ghost predicate Lockstep(b: Buffer, phase: u32 -> u32) {
    && Coherent(b)
    && (b.anchored ==> b.playoutTs == LineTs(phase(b.streamId), b.geo.frameTs, b.queue.cursor))
    && (forall s | s in b.queue.frames :: OnLine(b.queue.frames[s].info.header, phase, b.geo.frameTs))
  }

  /** In lockstep the frame at the cursor carries exactly the playout position, so aligning on it
      moves nothing. */
  lemma AlignIsIdentity(b: Buffer, phase: u32 -> u32)
    requires Lockstep(b, phase) && b.anchored
    ensures AlignB(b).0 == b
    ensures AlignB(b).1.Some? ==>
      var h := AlignB(b).1.value.info.header; h.sequence == b.queue.cursor && h.timestamp == b.playoutTs
  {
    hide Wrap32;
    ZeroDistance(b.playoutTs, b.playoutTs);
  }

  lemma InsertKeepsLockstep(b: Buffer, phase: u32 -> u32, p: MediaPacket, arrivalUs: u64)
    requires Lockstep(b, phase) && b.anchored && b.streamId == p.header.streamId
    requires OnLine(p.header, phase, b.geo.frameTs)
    ensures Lockstep(InsertB(b, p, arrivalUs).0, phase) && InsertB(b, p, arrivalUs).0.anchored
    ensures InsertB(b, p, arrivalUs).0.streamId == b.streamId
  {
    hide Wrap32, Wrap64, Distance, DeadlineOf, InWindow, HighestHeld;
    InsertIsCoherent(b, p, arrivalUs);
  }

  lemma PlaceKeepsLockstep(b: Buffer, phase: u32 -> u32, h: MediaHeader, arrivalUs: u64)
    requires Lockstep(b, phase) && !IsForeign(b, h, arrivalUs) && OnLine(h, phase, b.geo.frameTs)
    ensures var c := NoteEndB(PlaceB(AdoptB(b, h, arrivalUs), h, arrivalUs), h);
      Lockstep(c, phase) && c.anchored && c.streamId == h.streamId && c.geo == b.geo
  {
    hide Wrap32, Wrap64, Distance, DeadlineOf, InWindow, HighestHeld, LineTs;
    PlacedIsCoherent(b, h, arrivalUs);
    EmptyMap(b.queue.frames);
    NotStartedIsEmpty(b.queue);
  }

  lemma NotStartedIsEmpty(q: Queue)
    ensures InWindow(q) && !q.started ==> q.frames == map[]
  {
    EmptyMap(q.frames);
  }

  lemma PushKeepsLockstep(b: Buffer, phase: u32 -> u32, p: MediaPacket, arrivalUs: u64)
    requires Lockstep(b, phase) && OnLine(p.header, phase, b.geo.frameTs)
    ensures Lockstep(PushB(b, p, arrivalUs).0, phase)
  {
    hide Wrap32, Wrap64, Distance, DeadlineOf, InsertB, PlaceB, NoteEndB, AdoptB, LineTs;
    if b.open && !IsForeign(b, p.header, arrivalUs) {
      PlaceKeepsLockstep(b, phase, p.header, arrivalUs);
      var placed := NoteEndB(PlaceB(AdoptB(b, p.header, arrivalUs), p.header, arrivalUs), p.header);
      InsertKeepsLockstep(placed, phase, p, arrivalUs);
      var c := InsertB(placed, p, arrivalUs).0;
      assert c.geo == b.geo by { PlaceKeepsSetup(b, p.header, arrivalUs); InsertKeepsSetup(placed, p, arrivalUs); }
      var restarted := RestartB(c, p.header, arrivalUs).(hasEnd := false);
      EmptyIsCoherent(restarted);
      InsertKeepsLockstep(restarted, phase, p, arrivalUs);
    }
  }

  lemma NextKeepsLockstep(b: Buffer, phase: u32 -> u32)
    requires Lockstep(b, phase) && b.anchored
    ensures Lockstep(NextFrameB(b), phase)
  {
    hide Wrap32, Distance, InWindow, HighestHeld, LineTs;
    NextIsCoherent(b);
    LineShift(phase(b.streamId), b.geo.frameTs, b.queue.cursor, 1);
  }

  lemma CatchUpKeepsLockstep(b: Buffer, phase: u32 -> u32, jump: nat)
    requires Lockstep(b, phase) && b.anchored && 0 < jump <= MAX_CATCHUP_JUMP
    ensures Lockstep(CatchUpB(b, jump), phase) && CatchUpB(b, jump).anchored
    ensures CatchUpB(b, jump).queue.cursor == Wrap32(b.queue.cursor + jump)
  {
    hide Wrap32, Distance, InWindow, HighestHeld, LineTs;
    CatchUpIsCoherent(b, jump);
    DistanceTo(b.queue.cursor, jump);
    LineShift(phase(b.streamId), b.geo.frameTs, b.queue.cursor, jump);
  }

  /** What a due pull in lockstep plays from, and what it then reports. */
  lemma PullKeepsLockstep(b: Buffer, phase: u32 -> u32, room: nat, now: u64, codec: Codec)
    requires Lockstep(b, phase) && Ticking(b)
    ensures var (c, out) := PullB(b, room, now, codec);
      && Lockstep(c, phase)
      && (b.anchored ==> out.timestamp == LineTs(phase(b.streamId), b.geo.frameTs, out.sequence))
  {
    hide Wrap32, Wrap64, Distance, DeadlineOf, SkipToQ, AdvanceQ, CatchUpB, NextFrameB, LineTs, Coherent, AlignB;
    SilentKeepsLockstep(b, phase);
    if room >= b.geo.framePcm && b.open && b.anchored {
      AlignIsIdentity(b, phase);
      if now >= Due(b, b.playoutTs) {
        var behind := Behind(b, now);
        if behind > b.cfg.maxCatchupFrames {
          CatchUpKeepsLockstep(b, phase, Min(behind, MAX_CATCHUP_JUMP));
          AlignIsIdentity(CatchUpB(b, Min(behind, MAX_CATCHUP_JUMP)), phase);
          CatchUpSameLine(b, Min(behind, MAX_CATCHUP_JUMP));
        }
        var (c, have) := PositionB(b, AlignB(b).1, now);
        PlayOrFillKeepsLockstep(c, have, phase, codec);
      }
    }
  }

  predicate SameLine(b: Buffer, c: Buffer) { c.streamId == b.streamId && c.geo == b.geo }

  lemma CatchUpSameLine(b: Buffer, jump: nat)
    ensures SameLine(b, CatchUpB(b, jump))
  {
    hide Wrap32, SkipToQ;
  }

  lemma SilentKeepsLockstep(b: Buffer, phase: u32 -> u32)
    requires Lockstep(b, phase)
    ensures Lockstep(SilentB(b), phase)
  {
    hide InWindow, HighestHeld, LineTs;
  }

  lemma PlayOrFillKeepsLockstep(c: Buffer, have: Option<Frame>, phase: u32 -> u32, codec: Codec)
    requires Lockstep(c, phase) && c.anchored
    requires have.Some? ==> var h := have.value.info.header; h.sequence == c.queue.cursor && h.timestamp == c.playoutTs
    ensures var (d, out) := PlayOrFillB(c, have, codec);
      && Lockstep(d, phase)
      && out.timestamp == LineTs(phase(c.streamId), c.geo.frameTs, out.sequence)
  {
    hide Wrap32, Distance, AdvanceQ, NextFrameB, LineTs, InWindow, HighestHeld, PeekQ;
    if have.Some? {
      var s := SilentB(c);
      NextKeepsLockstep(c.(concealRun := 0, stats := c.stats.(fromPacket := c.stats.fromPacket + 1)), phase);
      NextKeepsLockstep(s.(stats := s.stats.(decodeErrors := c.stats.decodeErrors + 1)), phase);
    } else {
      NextKeepsLockstep(FillB(c, codec).0, phase);
    }
  }

  predicate AllOnLine(events: seq<Event>, phase: u32 -> u32, step: int) {
    forall e | e in events && e.PushE? :: OnLine(e.packet.header, phase, step)
  }

  /** Whatever is lost, late, reordered or duplicated, whenever the device pulls, stalls or the
      stream changes: the playout timestamp stays the image of the queue cursor. */
  lemma {:induction false} LockstepOverRuns(b: Buffer, phase: u32 -> u32, events: seq<Event>)
    requires Ticking(b) && Lockstep(b, phase) && AllOnLine(events, phase, b.geo.frameTs)
    ensures Lockstep(RunB(b, events), phase)
  {
    if events != [] {
      var before := RunB(b, events[..|events| - 1]);
      LockstepOverRuns(b, phase, events[..|events| - 1]);
      match events[|events| - 1]
      case PushE(packet, arrivalUs) => hide *; PushKeepsLockstep(before, phase, packet, arrivalUs);
      case PullE(room, now, codec) => hide *; PullKeepsLockstep(before, phase, room, now, codec);
    }
  }

  /** The insert repeated after a resync succeeds exactly when the new deadline does not wrap. */
  lemma ResyncRetry(b: Buffer, p: MediaPacket, arrivalUs: u64)
    requires Coherent(b) && b.open && !IsForeign(b, p.header, arrivalUs)
    requires InsertB(NoteEndB(PlaceB(AdoptB(b, p.header, arrivalUs), p.header, arrivalUs), p.header), p, arrivalUs).1
               == TooFarAhead
    ensures var (c, verdict) := PushB(b, p, arrivalUs);
      && verdict == (if arrivalUs + b.cfg.targetDelayUs < 0x1_0000_0000_0000_0000 then Resynced
                     else PushVerdict.Oversized)
      && c.queue.cursor == p.header.sequence && c.playoutTs == p.header.timestamp
      && (verdict == Resynced <==> p.header.sequence in c.queue.frames)
  {
    var placed := NoteEndB(PlaceB(AdoptB(b, p.header, arrivalUs), p.header, arrivalUs), p.header);
    var c := InsertB(placed, p, arrivalUs).0;
    PlaceKeepsSetup(b, p.header, arrivalUs);
    InsertKeepsSetup(placed, p, arrivalUs);
    TooFarFits(placed, p, arrivalUs);
    hide PlaceB, NoteEndB, AdoptB, InsertB, RestartB, IsForeign, Coherent, Wrap64;
    RestartedInsert(c, p, arrivalUs);
  }

  lemma TooFarFits(b: Buffer, p: MediaPacket, arrivalUs: u64)
    requires InsertB(b, p, arrivalUs).1 == TooFarAhead
    ensures |p.payload| <= MAX_FRAME_PAYLOAD
  {
    hide Distance, DeadlineOf, StartQ;
  }

  /** Restarted on this very packet, the buffer stores it unless its new deadline has wrapped into the past. */
  lemma RestartedInsert(c: Buffer, p: MediaPacket, arrivalUs: u64)
    requires |p.payload| <= MAX_FRAME_PAYLOAD
    ensures var r := RestartB(c, p.header, arrivalUs).(hasEnd := false); var (d, verdict) := InsertB(r, p, arrivalUs);
      && (verdict == Insert.Accepted <==> arrivalUs + c.cfg.targetDelayUs < 0x1_0000_0000_0000_0000)
      && (verdict == Insert.Accepted <==> p.header.sequence in d.queue.frames)
      && d.queue.cursor == p.header.sequence && d.playoutTs == p.header.timestamp
  {
    ZeroDistance(p.header.sequence, p.header.sequence);
    ZeroDistance(p.header.timestamp, p.header.timestamp);
    hide Distance;
  }

  lemma InsertKeepsSetup(b: Buffer, p: MediaPacket, arrivalUs: u64)
    ensures SameSetup(b, InsertB(b, p, arrivalUs).0)
  {
    hide InsertQ, DeadlineOf;
  }

  lemma PlaceKeepsSetup(b: Buffer, h: MediaHeader, arrivalUs: u64)
    ensures SameSetup(b, NoteEndB(PlaceB(AdoptB(b, h, arrivalUs), h, arrivalUs), h))
  {
    hide Wrap32, Wrap64, Distance;
  }
}
