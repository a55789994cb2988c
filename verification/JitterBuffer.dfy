/** The jitter buffer as an object over the reorder queue, proved to be `PlayoutSpec`. */
module JitterBuffers {
  import opened Words
  import opened Serial
  import opened Media
  import opened QueueSpec
  import opened ReorderQueues
  import opened PlayoutSpec

  class JitterBuffer {
    const queue: ReorderQueue
    var open: bool
    var cfg: Config
    var geo: Geometry
    var anchored: bool
    var hasStream: bool
    var streamId: u32
    var lastArrivalUs: u64
    var anchorTs: u32
    var anchorLocalUs: u64
    var playoutTs: u32
    var concealRun: u32
    var hasEnd: bool
    var endSequence: u32
    var stats: Stats

    ghost predicate Valid()
      reads this, queue, queue.slots
    {
      queue.Valid() && (open ==> geo.frameUs > 0)
    }

    ghost function Model(): Buffer
      requires Valid()
      reads this, queue, queue.slots
    {
      Buffer(open, cfg, geo, queue.Model(), anchored, hasStream, streamId, lastArrivalUs,
             anchorTs, anchorLocalUs, playoutTs, concealRun, hasEnd, endSequence, stats)
    }

    constructor ()
      ensures Valid() && Model() == CLOSED
      ensures fresh(queue) && fresh(queue.slots)
    {
      queue := new ReorderQueue();
      open, cfg, geo := false, DEFAULT_CONFIG, DEFAULT_GEOMETRY;
      anchored, hasStream, streamId, lastArrivalUs := false, false, 0, 0;
      anchorTs, anchorLocalUs, playoutTs, concealRun := 0, 0, 0, 0;
      hasEnd, endSequence, stats := false, 0, NO_STATS;
    }

    /** No stream, and no end of one. */
    method ForgetStream()
      requires Valid()
      modifies this`hasStream, this`streamId, this`lastArrivalUs, this`hasEnd, this`endSequence
      ensures Valid() && Model() ==
        old(Model()).(hasStream := false, streamId := 0, lastArrivalUs := 0, hasEnd := false, endSequence := 0)
    {
      hide ReorderQueue.Valid, ReorderQueue.Model;
      hasStream, streamId, lastArrivalUs := false, 0, 0;
      hasEnd, endSequence := false, 0;
    }

    /** No timeline. */
    method ForgetTimeline()
      requires Valid()
      modifies this`anchored, this`anchorTs, this`anchorLocalUs, this`playoutTs, this`concealRun
      ensures Valid() && Model() ==
        old(Model()).(anchored := false, anchorTs := 0, anchorLocalUs := 0, playoutTs := 0, concealRun := 0)
    {
      hide ReorderQueue.Valid, ReorderQueue.Model;
      anchored, anchorTs, anchorLocalUs, playoutTs, concealRun := false, 0, 0, 0, 0;
    }

    method Close()
      requires Valid()
      modifies this, queue, queue.slots
      ensures Valid() && Model() == CLOSED
    {
      hide ReorderQueue.Valid, ReorderQueue.Model;
      queue.Reset();
      ForgetStream();
      ForgetTimeline();
      open, cfg, geo, stats := false, DEFAULT_CONFIG, DEFAULT_GEOMETRY, NO_STATS;
    }

    /** `opens` is the codec's answer to the decoder configuration. */
    method Open(config: Config, opens: bool) returns (ok: bool)
      requires Valid()
      modifies this, queue, queue.slots
      ensures Valid() && Model() == OpenB(config, opens) && ok == Model().open
    {
      hide FramesOf, Placed, Distance, Wrap32, Wrap64;
      Close();
      if !opens || config.decoder.sampleRateHz == 0 { return false; }
      cfg, geo := config, GeometryOf(config.decoder);
      if geo.frameUs == 0 || geo.frameTs == 0 { return false; }
      open := true;
      return true;
    }

    method ResetStream()
      requires Valid()
      modifies this, queue, queue.slots
      ensures Valid() && Model() == ResetStreamB(old(Model()))
    {
      hide FramesOf, Placed, Distance, Wrap32, Wrap64;
      queue.Reset();
      anchored, hasStream, concealRun, hasEnd := false, false, 0, false;
    }

    function DeadlineOfTs(timestamp: u32): (d: u64)
      reads this
    { DeadlineOf(anchorTs, anchorLocalUs, timestamp) }

    /** The local time the frame at the cursor is due; zero before the first arrival. */
    function NextDeadlineUs(): u64
      reads this
    { if anchored then DeadlineOfTs(playoutTs) else 0 }

    method Anchor(timestamp: u32, arrivalUs: u64)
      requires Valid()
      modifies this
      ensures Valid() && Model() == AnchorB(old(Model()), timestamp, arrivalUs)
    {
      hide FramesOf, Placed, Distance, Wrap32, Wrap64;
      anchorTs, anchorLocalUs, anchored := timestamp, Wrap64(arrivalUs + cfg.targetDelayUs), true;
      stats := stats.(anchors := stats.anchors + 1);
    }

    method Restart(h: MediaHeader, arrivalUs: u64)
      requires Valid()
      modifies this, queue, queue.slots
      ensures Valid() && Model() == RestartB(old(Model()), h, arrivalUs)
    {
      hide FramesOf, Placed, Distance, Wrap32, Wrap64;
      queue.Resync(h.sequence);
      Anchor(h.timestamp, arrivalUs);
      playoutTs, concealRun := h.timestamp, 0;
    }

    /** The stream check, the anchor and the end mark of `Push`. */
    method Place(h: MediaHeader, arrivalUs: u64)
      requires Valid()
      modifies this, queue, queue.slots
      ensures Valid() && Model() == NoteEndB(PlaceB(old(Model()), h, arrivalUs), h)
    {
      hide FramesOf, Placed, Distance, Wrap32, Wrap64;
      if !anchored {
        Anchor(h.timestamp, arrivalUs);
        queue.Start(h.sequence);
        playoutTs := h.timestamp;
      } else if h.TalkspurtStart() {
        hasEnd := false;
        if PrecedesOrEqual(queue.cursor, h.sequence) {
          Anchor(h.timestamp, arrivalUs);
        } else {
          Restart(h, arrivalUs);
        }
      }
      if h.TalkspurtEnd() && (!hasEnd || Precedes(endSequence, h.sequence)) {
        hasEnd, endSequence := true, h.sequence;
      }
    }

    /** The stream check of `Push`; false for a packet of a stream that may not take over. */
    method Adopt(h: MediaHeader, arrivalUs: u64) returns (ours: bool)
      requires Valid() && open
      modifies this, queue, queue.slots
      ensures Valid() && ours == !IsForeign(old(Model()), h, arrivalUs)
      ensures Model() == if ours then AdoptB(old(Model()), h, arrivalUs) else
        old(Model()).(stats := old(stats).(foreign := old(stats).foreign + 1))
    {
      hide FramesOf, Placed, Distance, Wrap32, Wrap64;
      if !hasStream {
        hasStream, streamId := true, h.streamId;
      } else if h.streamId != streamId {
        var announced := h.TalkspurtStart();
        var idle := arrivalUs > lastArrivalUs && arrivalUs - lastArrivalUs >= cfg.streamIdleUs;
        if !announced && !idle {
          stats := stats.(foreign := stats.foreign + 1);
          return false;
        }
        ResetStream();
        hasStream, streamId := true, h.streamId;
      }
      lastArrivalUs := arrivalUs;
      return true;
    }

    method Push(packet: MediaPacket, arrivalUs: u64) returns (verdict: PushVerdict)
      requires Valid()
      modifies this, queue, queue.slots
      ensures Valid() && (Model(), verdict) == PushB(old(Model()), packet, arrivalUs)
    {
      hide FramesOf, Placed, Distance, Wrap32, Wrap64, InsertQ, DeadlineOf, AdoptB, PlaceB, NoteEndB, RestartB,
           IsForeign;
      if !open { return Closed; }
      var h := packet.header;
      var ours := Adopt(h, arrivalUs);
      if !ours { return Foreign; }
      Place(h, arrivalUs);

      var info := FrameInfo(h, arrivalUs, DeadlineOfTs(h.timestamp));
      var result := queue.Insert(info, packet.payload, arrivalUs);
      if result == TooFarAhead {
        Restart(h, arrivalUs);
        hasEnd := false;
        info := info.(deadline := DeadlineOfTs(h.timestamp));
        result := queue.Insert(info, packet.payload, arrivalUs);
        return if result == Insert.Accepted then Resynced else PushVerdict.Oversized;
      }
      return Verdict(result);
    }

    method PeekAndAlign() returns (held: Option<Frame>)
      requires Valid()
      modifies this`playoutTs
      ensures Valid() && (Model(), held) == AlignB(old(Model()))
    {
      hide FramesOf, Placed, Distance, Wrap32;
      held := queue.Peek(queue.cursor);
      if held.Some? && Precedes(playoutTs, held.value.info.header.timestamp) {
        playoutTs := held.value.info.header.timestamp;
      }
    }

    /** Moves the cursor and the playout position on by one frame. */
    method NextFrame()
      requires Valid()
      modifies this`playoutTs, queue, queue.slots
      ensures Valid() && Model() == NextFrameB(old(Model()))
    {
      hide FramesOf, Placed, Distance, Wrap32, AdvanceQ;
      var _ := queue.Advance();
      playoutTs := Wrap32(playoutTs + geo.frameTs);
    }

    /** The part of `Pull` that finds something for an empty position. */
    method FillHole(codec: Codec) returns (out: Pulled)
      requires Valid()
      modifies this`concealRun, this`stats
      ensures Valid() && (Model(), out) == FillB(old(Model()), codec)
    {
      hide FramesOf, Placed, Distance, Wrap32, ReorderQueue.Valid;
      out := Pulled(Silence, queue.cursor, playoutTs, geo.framePcm, 0);
      if hasEnd && !PrecedesOrEqual(queue.cursor, endSequence) {
        stats := stats.(silence := stats.silence + 1);
        return;
      }
      if cfg.fec {
        var next := queue.Peek(Wrap32(queue.cursor + 1));
        if next.Some? && codec.redundant && codec.recover.Ok() {
          stats := stats.(fecRecovered := stats.fecRecovered + 1);
          concealRun := 0;
          return out.(source := ForwardCorrection, samples := codec.recover.samples);
        }
      }
      if concealRun >= cfg.maxConcealRun {
        if concealRun == cfg.maxConcealRun { stats := stats.(muted := stats.muted + 1); }
        stats := stats.(silence := stats.silence + 1);
      } else if codec.conceal.Ok() {
        stats := stats.(concealed := stats.concealed + 1);
        out := out.(source := Concealment, samples := codec.conceal.samples);
      } else {
        stats := stats.(silence := stats.silence + 1, decodeErrors := stats.decodeErrors + 1);
        out := out.(error := codec.conceal.error);
      }
      concealRun := Wrap32(concealRun + 1);
    }

    /** Jumps the cursor and the playout position over `jump` frames. */
    method CatchUp(jump: nat)
      requires Valid()
      modifies this, queue, queue.slots
      ensures Valid() && Model() == CatchUpB(old(Model()), jump)
    {
      hide FramesOf, Placed, Distance, Wrap32, SkipToQ;
      var _ := queue.SkipTo(Wrap32(queue.cursor + jump));
      playoutTs := Wrap32(playoutTs + jump * geo.frameTs);
      concealRun := 0;
      stats := stats.(catchups := stats.catchups + 1, catchupFrames := stats.catchupFrames + jump);
    }

    /** The part of `Pull` that produces the frame and moves on. */
    method PlayOrFill(held: Option<Frame>, codec: Codec) returns (out: Pulled)
      requires Valid()
      modifies this, queue, queue.slots
      ensures Valid() && (Model(), out) == PlayOrFillB(old(Model()), held, codec)
    {
      hide FramesOf, Placed, Distance, Wrap32, Wrap64, DeadlineOf, AdvanceQ, SkipToQ, FillB;
      if held.Some? {
        var h := held.value.info.header;
        if codec.decode.Ok() {
          out := Pulled(Packet, h.sequence, h.timestamp, codec.decode.samples, codec.decode.error);
          stats := stats.(fromPacket := stats.fromPacket + 1);
          concealRun := 0;
        } else {
          out := Pulled(Silence, h.sequence, h.timestamp, geo.framePcm, codec.decode.error);
          stats := stats.(decodeErrors := stats.decodeErrors + 1, silence := stats.silence + 1);
        }
      } else {
        out := FillHole(codec);
      }
      NextFrame();
    }

    /** `room` is the length of the caller's sample buffer. */
    method Pull(room: nat, now: u64, codec: Codec) returns (out: Pulled)
      requires Valid()
      modifies this, queue, queue.slots
      ensures Valid() && (Model(), out) == PullB(old(Model()), room, now, codec)
    {
      hide FramesOf, Placed, Distance, Wrap32, Wrap64, DeadlineOf, AlignB, CatchUpB, PlayOrFillB;
      out := Pulled(Silence, queue.cursor, playoutTs, 0, 0);
      if room < geo.framePcm || !open { return out.(error := BUFFER_TOO_SMALL); }
      out := out.(samples := geo.framePcm);

      if !anchored {
        stats := stats.(silence := stats.silence + 1);
        return;
      }
      var held := PeekAndAlign();
      AlignKeeps(old(Model()));
      out := out.(timestamp := playoutTs);

      var due := DeadlineOfTs(playoutTs);
      if now < due {
        stats := stats.(silence := stats.silence + 1);
        return;
      }
      var behind := (now - due) / geo.frameUs;
      if behind > cfg.maxCatchupFrames {
        CatchUp(Min(behind, MAX_CATCHUP_JUMP));
        held := PeekAndAlign();
      }
      out := PlayOrFill(held, codec);
    }
  }

  lemma AlignKeeps(b: Buffer)
    ensures AlignB(b).0 == b.(playoutTs := AlignB(b).0.playoutTs)
  {}
}
