/** The playout policy over the reorder queue: one affine map from sender timestamps to local
    deadlines, and what each arrival and each playout tick does to it. */
module PlayoutSpec {
  import opened Words
  import opened Serial
  import opened Clock
  import opened Media
  import opened QueueSpec

  /** Largest single catch-up jump, in frames. */
  const MAX_CATCHUP_JUMP: int := 0x10_0000

  /** The error a pull reports when it cannot produce a frame at all. */
  const BUFFER_TOO_SMALL: int := -2

  datatype DecoderConfig = DecoderConfig(sampleRateHz: u32, channels: nat, frameSamples: u32)

  datatype Config = Config(
    decoder: DecoderConfig, targetDelayUs: u64, fec: bool,
    maxConcealRun: u32, maxCatchupFrames: u32, streamIdleUs: u64)

  const DEFAULT_CONFIG := Config(DecoderConfig(48_000, 1, 960), 60_000, true, 5, 5, 200_000)

  /** One frame in four units: samples at the decoder's rate, samples over all channels, 48 kHz
      wire units, microseconds. */
  datatype Geometry = Geometry(frameSamples: u32, framePcm: nat, frameTs: u32, frameUs: u64)

  const DEFAULT_GEOMETRY := Geometry(960, 960, 960, 20_000)

  function GeometryOf(d: DecoderConfig): Geometry
    requires d.sampleRateHz > 0
  {
    var us := Wrap64(d.frameSamples * 1_000_000) / d.sampleRateHz;
    Geometry(d.frameSamples, d.frameSamples * d.channels, Wrap32(UsToSamples(us)), us)
  }

  datatype PushVerdict = Accepted | Duplicate | Late | TooOld | Resynced | Foreign | Oversized | Closed

  datatype Source = Packet | ForwardCorrection | Concealment | Silence

  datatype Pulled = Pulled(source: Source, sequence: u32, timestamp: u32, samples: nat, error: int)

  /** What one call into the audio codec reports; zero is success. */
  datatype Outcome = Outcome(error: int, samples: nat) {
    predicate Ok() { error == 0 }
  }

  /** The answers the codec gives during one pull, should it be asked. */
  datatype Codec = Codec(decode: Outcome, redundant: bool, recover: Outcome, conceal: Outcome)

  datatype Stats = Stats(
    fromPacket: nat, fecRecovered: nat, concealed: nat, silence: nat, muted: nat,
    catchups: nat, catchupFrames: nat, anchors: nat, foreign: nat, decodeErrors: nat)

  const NO_STATS := Stats(0, 0, 0, 0, 0, 0, 0, 0, 0, 0)

  datatype Buffer = Buffer(
    open: bool, cfg: Config, geo: Geometry, queue: Queue,
    anchored: bool, hasStream: bool, streamId: u32, lastArrivalUs: u64,
    anchorTs: u32, anchorLocalUs: u64, playoutTs: u32, concealRun: u32,
    hasEnd: bool, endSequence: u32, stats: Stats)

  const CLOSED := Buffer(false, DEFAULT_CONFIG, DEFAULT_GEOMETRY, EMPTY,
                         false, false, 0, 0, 0, 0, 0, 0, false, 0, NO_STATS)

  /** Opens a closed buffer; `opens` is whether the codec accepted the configuration. */
  function OpenB(cfg: Config, opens: bool): Buffer {
    if !opens || cfg.decoder.sampleRateHz == 0 then CLOSED
    else
      var geo := GeometryOf(cfg.decoder);
      var b := CLOSED.(cfg := cfg, geo := geo);
      if geo.frameUs == 0 || geo.frameTs == 0 then b else b.(open := true)
  }

  function ResetStreamB(b: Buffer): Buffer {
    b.(queue := EMPTY, anchored := false, hasStream := false, concealRun := 0, hasEnd := false)
  }

  // ---------------------------------------------------------------- the timeline

  /** When a sender timestamp is due on the local clock. */
  function DeadlineOf(anchorTs: u32, anchorLocalUs: u64, timestamp: u32): u64 {
    var delta := Distance(anchorTs, timestamp);
    if delta >= 0 then Wrap64(anchorLocalUs + SamplesToUs(delta))
    else
      var back := SamplesToUs(-delta);
      if back > anchorLocalUs then 0 else anchorLocalUs - back
  }

  function Due(b: Buffer, timestamp: u32): u64 { DeadlineOf(b.anchorTs, b.anchorLocalUs, timestamp) }

  function AnchorB(b: Buffer, timestamp: u32, arrivalUs: u64): Buffer {
    b.(anchorTs := timestamp, anchorLocalUs := Wrap64(arrivalUs + b.cfg.targetDelayUs), anchored := true,
       stats := b.stats.(anchors := b.stats.anchors + 1))
  }

  /** Throws the old timeline away and restarts it on this packet. */
  function RestartB(b: Buffer, h: MediaHeader, arrivalUs: u64): Buffer {
    AnchorB(b, h.timestamp, arrivalUs).(
      queue := ResyncQ(b.queue, h.sequence), playoutTs := h.timestamp, concealRun := 0)
  }

  // ---------------------------------------------------------------- arrivals

  /** Whether a packet of another stream may take over. */
  predicate MayTakeOver(b: Buffer, h: MediaHeader, arrivalUs: u64) {
    h.TalkspurtStart()
    || (arrivalUs > b.lastArrivalUs && arrivalUs - b.lastArrivalUs >= b.cfg.streamIdleUs)
  }

  predicate IsForeign(b: Buffer, h: MediaHeader, arrivalUs: u64) {
    b.hasStream && h.streamId != b.streamId && !MayTakeOver(b, h, arrivalUs)
  }

  /** The buffer once the packet's stream has been adopted. */
  function AdoptB(b: Buffer, h: MediaHeader, arrivalUs: u64): Buffer {
    var c := if b.hasStream && h.streamId != b.streamId then ResetStreamB(b) else b;
    c.(hasStream := true, streamId := h.streamId, lastArrivalUs := arrivalUs)
  }

  /** The buffer once the packet has had its say about the anchor. */
  function PlaceB(b: Buffer, h: MediaHeader, arrivalUs: u64): Buffer {
    if !b.anchored then
      AnchorB(b, h.timestamp, arrivalUs).(queue := StartQ(b.queue, h.sequence), playoutTs := h.timestamp)
    else if h.TalkspurtStart() then
      var c := b.(hasEnd := false);
      if PrecedesOrEqual(b.queue.cursor, h.sequence) then AnchorB(c, h.timestamp, arrivalUs)
      else RestartB(c, h, arrivalUs)
    else b
  }

  function NoteEndB(b: Buffer, h: MediaHeader): Buffer {
    if h.TalkspurtEnd() && (!b.hasEnd || Precedes(b.endSequence, h.sequence))
    then b.(hasEnd := true, endSequence := h.sequence)
    else b
  }

  function FrameFor(b: Buffer, p: MediaPacket, arrivalUs: u64): Frame {
    Frame(FrameInfo(p.header, arrivalUs, Due(b, p.header.timestamp)), p.payload)
  }

  function InsertB(b: Buffer, p: MediaPacket, arrivalUs: u64): (Buffer, Insert) {
    var (q, verdict) := InsertQ(b.queue, FrameFor(b, p, arrivalUs), arrivalUs);
    (b.(queue := q), verdict)
  }

  function Verdict(v: Insert): PushVerdict {
    match v
    case Accepted => PushVerdict.Accepted
    case Duplicate => PushVerdict.Duplicate
    case Late => PushVerdict.Late
    case TooOld => PushVerdict.TooOld
    case Oversized => PushVerdict.Oversized
    case TooFarAhead => PushVerdict.Resynced
  }

  function PushB(b: Buffer, p: MediaPacket, arrivalUs: u64): (Buffer, PushVerdict) {
    if !b.open then (b, Closed)
    else if IsForeign(b, p.header, arrivalUs) then
      (b.(stats := b.stats.(foreign := b.stats.foreign + 1)), Foreign)
    else
      var placed := NoteEndB(PlaceB(AdoptB(b, p.header, arrivalUs), p.header, arrivalUs), p.header);
      var (c, verdict) := InsertB(placed, p, arrivalUs);
      if verdict == TooFarAhead then
        var (r, again) := InsertB(RestartB(c, p.header, arrivalUs).(hasEnd := false), p, arrivalUs);
        (r, if again == Insert.Accepted then Resynced else PushVerdict.Oversized)
      else (c, Verdict(verdict))
  }

  // ---------------------------------------------------------------- playout ticks

  /** The frame at the cursor, with the playout position drawn forward onto its timestamp. */
  function AlignB(b: Buffer): (Buffer, Option<Frame>) {
    match PeekQ(b.queue, b.queue.cursor)
    case None => (b, None)
    case Some(f) =>
      (if Precedes(b.playoutTs, f.info.header.timestamp) then b.(playoutTs := f.info.header.timestamp) else b, Some(f))
  }

  function CatchUpB(b: Buffer, jump: nat): Buffer {
    b.(queue := SkipToQ(b.queue, Wrap32(b.queue.cursor + jump)).0,
       playoutTs := Wrap32(b.playoutTs + jump * b.geo.frameTs), concealRun := 0,
       stats := b.stats.(catchups := b.stats.catchups + 1, catchupFrames := b.stats.catchupFrames + jump))
  }

  function SilentB(b: Buffer): Buffer { b.(stats := b.stats.(silence := b.stats.silence + 1)) }

  function NextFrameB(b: Buffer): Buffer {
    b.(queue := AdvanceQ(b.queue).0, playoutTs := Wrap32(b.playoutTs + b.geo.frameTs))
  }

  function PlayB(b: Buffer, f: Frame, codec: Codec): (Buffer, Pulled) {
    var h, r := f.info.header, codec.decode;
    if r.Ok() then
      (NextFrameB(b.(concealRun := 0, stats := b.stats.(fromPacket := b.stats.fromPacket + 1))),
       Pulled(Packet, h.sequence, h.timestamp, r.samples, r.error))
    else
      (NextFrameB(SilentB(b).(stats := SilentB(b).stats.(decodeErrors := b.stats.decodeErrors + 1))),
       Pulled(Silence, h.sequence, h.timestamp, b.geo.framePcm, r.error))
  }

  /** The sender has said it stopped before the cursor. */
  predicate PastEnd(b: Buffer) { b.hasEnd && !PrecedesOrEqual(b.queue.cursor, b.endSequence) }

  /** The next packet can rebuild the missing frame. */
  predicate Recoverable(b: Buffer, codec: Codec) {
    b.cfg.fec && PeekQ(b.queue, Wrap32(b.queue.cursor + 1)).Some? && codec.redundant && codec.recover.Ok()
  }

  /** Fills the hole at the cursor, without moving on. */
  function FillB(b: Buffer, codec: Codec): (Buffer, Pulled) {
    var s := b.stats;
    var silent := Pulled(Silence, b.queue.cursor, b.playoutTs, b.geo.framePcm, 0);
    if PastEnd(b) then (SilentB(b), silent)
    else if Recoverable(b, codec) then
      (b.(concealRun := 0, stats := s.(fecRecovered := s.fecRecovered + 1)),
       silent.(source := ForwardCorrection, samples := codec.recover.samples))
    else if b.concealRun >= b.cfg.maxConcealRun then
      (b.(concealRun := Wrap32(b.concealRun + 1),
          stats := s.(silence := s.silence + 1,
                      muted := s.muted + if b.concealRun == b.cfg.maxConcealRun then 1 else 0)), silent)
    else if codec.conceal.Ok() then
      (b.(concealRun := Wrap32(b.concealRun + 1), stats := s.(concealed := s.concealed + 1)),
       silent.(source := Concealment, samples := codec.conceal.samples))
    else
      (b.(concealRun := Wrap32(b.concealRun + 1),
          stats := s.(silence := s.silence + 1, decodeErrors := s.decodeErrors + 1)),
       silent.(error := codec.conceal.error))
  }

  function PlayOrFillB(b: Buffer, held: Option<Frame>, codec: Codec): (Buffer, Pulled) {
    match held
    case Some(f) => PlayB(b, f, codec)
    case None => var (c, out) := FillB(b, codec); (NextFrameB(c), out)
  }

  /** Whole frames by which `now` is past the playout position. */
  function Behind(b: Buffer, now: u64): nat
    requires b.geo.frameUs > 0 && Due(b, b.playoutTs) <= now
  { (now - Due(b, b.playoutTs)) / b.geo.frameUs }

  /** The position a due pull plays from: aligned, and caught up if it was too far behind. */
  function PositionB(a: Buffer, held: Option<Frame>, now: u64): (Buffer, Option<Frame>)
    requires a.geo.frameUs > 0 && Due(a, a.playoutTs) <= now
  {
    var behind := Behind(a, now);
    if behind > a.cfg.maxCatchupFrames then AlignB(CatchUpB(a, Min(behind, MAX_CATCHUP_JUMP))) else (a, held)
  }

  function PullB(b: Buffer, room: nat, now: u64, codec: Codec): (Buffer, Pulled)
    requires b.open ==> b.geo.frameUs > 0
  {
    var silent := Pulled(Silence, b.queue.cursor, b.playoutTs, b.geo.framePcm, 0);
    if room < b.geo.framePcm || !b.open then (b, silent.(samples := 0, error := BUFFER_TOO_SMALL))
    else if !b.anchored then (SilentB(b), silent)
    else
      var (a, held) := AlignB(b);
      if now < Due(a, a.playoutTs) then (SilentB(a), silent.(timestamp := a.playoutTs))
      else
        var (c, have) := PositionB(a, held, now);
        PlayOrFillB(c, have, codec)
  }
}
