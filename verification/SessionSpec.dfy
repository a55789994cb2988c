/** The phone session's two sample paths: frames staged out to the device, and captured frames sent. */
module SessionSpec {
  import opened Words
  import opened Clock
  import opened Media
  import opened Proto
  import opened PlayoutSpec
  import opened PlayoutRuns

  // ---------------------------------------------------------------- playout staging

  /** A datagram the network thread has parsed and handed over. */
  datatype Datagram = Datagram(packet: MediaPacket, arrivalUs: u64)

  /** One pull: the clock then, the codec's answers, and the samples they leave in the frame. */
  datatype Tick = Tick(now: u64, codec: Codec, frame: seq<i16>)

  predicate WholeFrames(ticks: seq<Tick>) { forall i | 0 <= i < |ticks| :: |ticks[i].frame| == FRAME_SAMPLES }

  function Flatten(ticks: seq<Tick>): seq<i16> {
    if ticks == [] then [] else Flatten(ticks[..|ticks| - 1]) + ticks[|ticks| - 1].frame
  }

  function Pushes(datagrams: seq<Datagram>): seq<Event> {
    seq(|datagrams|, i requires 0 <= i < |datagrams| => PushE(datagrams[i].packet, datagrams[i].arrivalUs))
  }

  function Pulls(ticks: seq<Tick>): seq<Event> {
    seq(|ticks|, i requires 0 <= i < |ticks| => PullE(FRAME_SAMPLES, ticks[i].now, ticks[i].codec))
  }

  /** Pulls owed to deliver `n` samples with `pending` staged: the shortfall in frames, rounded up. */
  function PullsFor(pending: nat, n: nat): (k: nat)
    ensures n <= pending + FRAME_SAMPLES * k < Max(n, pending + 1) + FRAME_SAMPLES
  { if n <= pending then 0 else (n - pending + FRAME_SAMPLES - 1) / FRAME_SAMPLES }

  // ---------------------------------------------------------------- sending

  const START_FLAG: u16 := 1
  const END_FLAG: u16 := 2
  const FEC_FLAG: u16 := 4

  /** The random draw that names a stream and says where it begins. */
  datatype Entropy = Entropy(streamId: u32, sequence: u32, timestamp: u32)

  /** What one captured frame meets: the talk button, the draw should a stream open, the encoder's
      bytes unless it fails, and whether the socket takes the datagram. */
  datatype FrameInput = FrameInput(sending: bool, entropy: Entropy, encoded: Option<Bytes>, sends: bool)

  datatype SendCounts = SendCounts(sent: nat, bytes: nat, sendFailed: nat, encodeFailed: nat, talkspurts: nat)

  datatype Sender = Sender(streamId: u32, sequence: u32, timestamp: u32, open: bool, counts: SendCounts)

  /** The encoder answered, with a payload the wire format takes. */
  predicate Encodable(encoded: Option<Bytes>) {
    encoded.Some? && 0 < |encoded.value| <= MAX_DATAGRAM - MEDIA_HEADER_SIZE
  }

  function OpenS(s: Sender, e: Entropy): Sender {
    s.(streamId := e.streamId, sequence := e.sequence, timestamp := e.timestamp, open := true,
       counts := s.counts.(talkspurts := s.counts.talkspurts + 1))
  }

  function MoveOn(s: Sender): Sender {
    s.(sequence := Wrap32(s.sequence + 1), timestamp := Wrap32(s.timestamp + FRAME_SAMPLES))
  }

  function PacketOf(s: Sender, flags: u16, payload: Bytes): MediaPacket {
    MediaPacket(MediaHeader(flags, s.streamId, s.sequence, s.timestamp), payload)
  }

  /** The socket's answer, counted. */
  function Counted(s: Sender, length: nat, sends: bool): Sender {
    if sends then s.(counts := s.counts.(sent := s.counts.sent + 1, bytes := s.counts.bytes + length))
    else s.(counts := s.counts.(sendFailed := s.counts.sendFailed + 1))
  }

  function Failed(s: Sender): Sender { s.(counts := s.counts.(encodeFailed := s.counts.encodeFailed + 1)) }

  function FecBit(fec: bool): u16 { if fec then FEC_FLAG else 0 }

  /** One captured frame: the sender after it, and the packet handed to the socket if there is one. */
  function SendFrame(s: Sender, fec: bool, i: FrameInput): (Sender, Option<MediaPacket>) {
    if !i.sending then
      if !s.open then (s, None)
      else if !Encodable(i.encoded) then (MoveOn(Failed(s)).(open := false), None)
      else
        (MoveOn(Counted(s, MEDIA_HEADER_SIZE + |i.encoded.value|, i.sends)).(open := false),
         Some(PacketOf(s, END_FLAG + FecBit(fec), i.encoded.value)))
    else
      var o := if s.open then s else OpenS(s, i.entropy);
      if !Encodable(i.encoded) then (Failed(o), None)
      else
        (MoveOn(Counted(o, MEDIA_HEADER_SIZE + |i.encoded.value|, i.sends)),
         Some(PacketOf(o, (if s.open then 0 else START_FLAG) + FecBit(fec), i.encoded.value)))
  }

  function SendAll(s: Sender, fec: bool, inputs: seq<FrameInput>): Sender {
    if inputs == [] then s
    else SendFrame(SendAll(s, fec, inputs[..|inputs| - 1]), fec, inputs[|inputs| - 1]).0
  }

  function AsList<T>(o: Option<T>): seq<T> { if o.Some? then [o.value] else [] }

  /** The packets handed to the socket, in order. */
  function Handed(s: Sender, fec: bool, inputs: seq<FrameInput>): seq<MediaPacket> {
    if inputs == [] then []
    else
      var before := inputs[..|inputs| - 1];
      Handed(s, fec, before) + AsList(SendFrame(SendAll(s, fec, before), fec, inputs[|inputs| - 1]).1)
  }

  function Wire(packets: seq<MediaPacket>): seq<Bytes> {
    seq(|packets|, i requires 0 <= i < |packets| => MediaBytes(packets[i]))
  }
}
