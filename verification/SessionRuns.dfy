/** Whole runs of the session: what the device hears, what the peer is sent, and the two joined up. */
module SessionRuns {
  import opened Words
  import opened Clock
  import opened Media
  import opened Proto
  import opened PlayoutSpec
  import opened PlayoutRuns
  import opened PlayoutTimeline
  import opened SessionSpec

  // ---------------------------------------------------------------- staging over many callbacks

  /** One callback as its contract describes it: the samples delivered, what was pulled for them, and
      what it left staged. */
  datatype Call = Call(out: seq<i16>, ticks: seq<Tick>, left: seq<i16>)

  ghost predicate Served(pending: seq<i16>, c: Call) {
    && WholeFrames(c.ticks) && |c.ticks| == PullsFor(|pending|, |c.out|)
    && c.out + c.left == pending + Flatten(c.ticks)
  }

  function Left(calls: seq<Call>): seq<i16> { if calls == [] then [] else calls[|calls| - 1].left }

  /** Each callback starts from what the one before it left. */
  ghost predicate Chained(calls: seq<Call>) {
    calls != [] ==> Chained(calls[..|calls| - 1]) && Served(Left(calls[..|calls| - 1]), calls[|calls| - 1])
  }

  function Heard(calls: seq<Call>): seq<i16> {
    if calls == [] then [] else Heard(calls[..|calls| - 1]) + calls[|calls| - 1].out
  }

  function Pulled(calls: seq<Call>): seq<Tick> {
    if calls == [] then [] else Pulled(calls[..|calls| - 1]) + calls[|calls| - 1].ticks
  }

  lemma {:induction false} FlattenJoins(a: seq<Tick>, b: seq<Tick>)
    ensures Flatten(a + b) == Flatten(a) + Flatten(b)
  {
    if b == [] {
      assert a + b == a;
    } else {
      var before, last := b[..|b| - 1], b[|b| - 1];
      FlattenJoins(a, before);
      var all := a + b;
      assert all[..|all| - 1] == a + before && all[|all| - 1] == last;
      assert Flatten(all) == Flatten(a + before) + last.frame;
      assert Flatten(b) == Flatten(before) + last.frame;
      hide Flatten;
    }
  }

  lemma {:induction false} FlattenLength(ticks: seq<Tick>)
    requires WholeFrames(ticks)
    ensures |Flatten(ticks)| == FRAME_SAMPLES * |ticks|
  {
    if ticks != [] { FlattenLength(ticks[..|ticks| - 1]); }
  }

  /** However the device cuts up its requests, what it hears is the pulled frames end to end, nothing
      lost, repeated or reordered, and at every point the frames pulled are the samples heard divided
      by a frame, rounded up: the audio clock alone drives playout. */
  lemma {:induction false} StagingIsTransparent(calls: seq<Call>)
    requires Chained(calls)
    ensures Heard(calls) + Left(calls) == Flatten(Pulled(calls)) && |Left(calls)| < FRAME_SAMPLES
    ensures |Pulled(calls)| == (|Heard(calls)| + FRAME_SAMPLES - 1) / FRAME_SAMPLES
  {
    if calls != [] {
      var before, last := calls[..|calls| - 1], calls[|calls| - 1];
      StagingIsTransparent(before);
      assert Served(Left(before), last);
      FlattenJoins(Pulled(before), last.ticks);
      FlattenLength(last.ticks);
      CallShifts(Heard(before), Left(before), Flatten(Pulled(before)), Flatten(last.ticks), last.out, last.left);
      PulledAreWhole(before);
      FlattenLength(Pulled(before));
      CallCounts(|Pulled(before)|, |Heard(before)|, |Left(before)|, |last.out|);
      hide Flatten, PullsFor;
    }
  }

  lemma {:induction false} PulledAreWhole(calls: seq<Call>)
    requires Chained(calls)
    ensures WholeFrames(Pulled(calls))
  {
    if calls != [] { PulledAreWhole(calls[..|calls| - 1]); }
  }

  lemma CallShifts(
    heard: seq<i16>, pending: seq<i16>, before: seq<i16>, added: seq<i16>, out: seq<i16>, left: seq<i16>)
    requires heard + pending == before && out + left == pending + added
    ensures heard + out + left == before + added
  {
    assert heard + out + left == heard + (out + left);
    assert heard + (pending + added) == heard + pending + added;
  }

  lemma CallCounts(frames: nat, heard: nat, pending: nat, n: nat)
    requires pending < FRAME_SAMPLES && heard + pending == FRAME_SAMPLES * frames
    ensures var k := PullsFor(pending, n);
      && 0 <= pending + FRAME_SAMPLES * k - n < FRAME_SAMPLES
      && frames + k == (heard + n + FRAME_SAMPLES - 1) / FRAME_SAMPLES
  {}

  // ---------------------------------------------------------------- one talkspurt

  predicate AllSending(inputs: seq<FrameInput>) { forall i | 0 <= i < |inputs| :: inputs[i].sending }

  /** Frames that encode. */
  function Encoded(inputs: seq<FrameInput>): nat {
    if inputs == [] then 0
    else Encoded(inputs[..|inputs| - 1]) + if Encodable(inputs[|inputs| - 1].encoded) then 1 else 0
  }

  predicate Numbered(h: MediaHeader, e: Entropy, k: nat) {
    && h.streamId == e.streamId && h.sequence == Wrap32(e.sequence + k)
    && h.timestamp == Wrap32(e.timestamp + FRAME_SAMPLES * k)
  }

  lemma FlagsRead(fec: bool, h: MediaHeader)
    ensures h.flags == FecBit(fec) ==> !h.TalkspurtStart() && !h.TalkspurtEnd()
    ensures h.flags == START_FLAG + FecBit(fec) ==> h.TalkspurtStart() && !h.TalkspurtEnd()
    ensures h.flags == END_FLAG + FecBit(fec) ==> !h.TalkspurtStart() && h.TalkspurtEnd()
  {}

  lemma NumbersMoveOn(e: Entropy, k: nat)
    ensures Wrap32(Wrap32(e.sequence + k) + 1) == Wrap32(e.sequence + (k + 1))
    ensures Wrap32(Wrap32(e.timestamp + FRAME_SAMPLES * k) + FRAME_SAMPLES) ==
      Wrap32(e.timestamp + FRAME_SAMPLES * (k + 1))
  {
    WrapAgain(e.sequence + k, 1);
    WrapAgain(e.timestamp + FRAME_SAMPLES * k, FRAME_SAMPLES);
    hide Wrap32;
  }

  lemma TalkStep(s: Sender, fec: bool, i: FrameInput, e: Entropy, k: nat)
    requires i.sending && (!s.open ==> k == 0 && e == i.entropy)
    requires s.open ==> Numbered(PacketOf(s, 0, []).header, e, k)
    ensures var (t, p) := SendFrame(s, fec, i);
      && t.open && p.Some? == Encodable(i.encoded)
      && Numbered(PacketOf(t, 0, []).header, e, if p.Some? then k + 1 else k)
      && (p.Some? ==> Numbered(p.value.header, e, k) && p.value.payload == i.encoded.value
                      && !p.value.header.TalkspurtEnd() && (p.value.header.TalkspurtStart() <==> !s.open))
  {
    hide Wrap32, Encodable, MediaHeader.TalkspurtStart, MediaHeader.TalkspurtEnd;
    NumbersMoveOn(e, k);
    FlagsRead(fec, PacketOf(s, FecBit(fec), []).header);
    var p := SendFrame(s, fec, i).1;
    if p.Some? { FlagsRead(fec, p.value.header); }
    assert Wrap32(e.sequence + 0) == e.sequence && Wrap32(e.timestamp + FRAME_SAMPLES * 0) == e.timestamp by {
      assert forall x: u32 :: Wrap32(x) == x by { WrapsToSelf(); }
    }
  }

  lemma WrapsToSelf()
    ensures forall x: u32 :: Wrap32(x) == x
  {}

  /** Within a talkspurt the packets handed over are numbered one by one from the draw that opened it,
      960 samples apart, through both wraps, however many frames fail to encode or to send. START is
      carried by the first of them exactly when it holds the opening frame, and by no other. */
  lemma {:induction false} TalkspurtNumbers(s: Sender, fec: bool, inputs: seq<FrameInput>)
    requires !s.open && inputs != [] && AllSending(inputs)
    ensures var ps, t, e := Handed(s, fec, inputs), SendAll(s, fec, inputs), inputs[0].entropy;
      && |ps| == Encoded(inputs) && t.open && Numbered(PacketOf(t, 0, []).header, e, |ps|)
      && (forall k | 0 <= k < |ps| ::
            && Numbered(ps[k].header, e, k) && !ps[k].header.TalkspurtEnd()
            && (ps[k].header.TalkspurtStart() <==> k == 0 && Encodable(inputs[0].encoded)))
      && (|ps| == 0 ==> !Encodable(inputs[0].encoded))
  {
    var before, last := inputs[..|inputs| - 1], inputs[|inputs| - 1];
    hide Wrap32, Encodable, SendFrame, Numbered, MediaHeader.TalkspurtStart, MediaHeader.TalkspurtEnd;
    if before == [] {
      TalkStep(s, fec, last, last.entropy, 0);
    } else {
      TalkspurtNumbers(s, fec, before);
      TalkStep(SendAll(s, fec, before), fec, last, inputs[0].entropy, |Handed(s, fec, before)|);
    }
  }

  /** The receiver is promised TALKSPURT_START on a talkspurt's first packet; it gets it exactly when the
      opening frame encodes. When that one frame fails, the whole talkspurt goes out without it. */
  lemma StartIsLostWithItsFrame(s: Sender, fec: bool, inputs: seq<FrameInput>)
    requires !s.open && inputs != [] && AllSending(inputs)
    ensures (exists k :: 0 <= k < |Handed(s, fec, inputs)| && Handed(s, fec, inputs)[k].header.TalkspurtStart())
      <==> Encodable(inputs[0].encoded)
  {
    TalkspurtNumbers(s, fec, inputs);
    hide Encodable, MediaHeader.TalkspurtStart, Handed;
    if Encodable(inputs[0].encoded) { assert Handed(s, fec, inputs)[0].header.TalkspurtStart(); }
  }

  /** Letting go of the button hands over one more packet, next in number, marked END, if it encodes; and
      closes the talkspurt either way. */
  lemma ClosingNumbersOn(s: Sender, fec: bool, inputs: seq<FrameInput>, closing: FrameInput)
    requires !s.open && inputs != [] && AllSending(inputs) && !closing.sending
    ensures var (t, p) := SendFrame(SendAll(s, fec, inputs), fec, closing);
      && !t.open && p.Some? == Encodable(closing.encoded)
      && (p.Some? ==> Numbered(p.value.header, inputs[0].entropy, Encoded(inputs))
                      && p.value.header.TalkspurtEnd() && !p.value.header.TalkspurtStart())
  {
    TalkspurtNumbers(s, fec, inputs);
    var t := SendAll(s, fec, inputs);
    hide Wrap32, Encodable, Handed, SendAll, MediaHeader.TalkspurtStart, MediaHeader.TalkspurtEnd;
    FlagsRead(fec, PacketOf(t, END_FLAG + FecBit(fec), []).header);
    var p := SendFrame(t, fec, closing).1;
    if p.Some? { FlagsRead(fec, p.value.header); }
  }

  // ---------------------------------------------------------------- accounting

  /** Frames the encoder was given: all those sent, and the one that closes each talkspurt. */
  function Submitted(s: Sender, fec: bool, inputs: seq<FrameInput>): nat {
    if inputs == [] then 0
    else
      var before, i := inputs[..|inputs| - 1], inputs[|inputs| - 1];
      Submitted(s, fec, before) + if i.sending || SendAll(s, fec, before).open then 1 else 0
  }

  function BytesOf(ps: seq<MediaPacket>): nat {
    if ps == [] then 0 else BytesOf(ps[..|ps| - 1]) + MEDIA_HEADER_SIZE + |ps[|ps| - 1].payload|
  }

  /** On every run, each frame given to the encoder is counted exactly once: sent, refused by the socket,
      or failed to encode; and the bytes counted are at most those handed over. */
  lemma {:induction false} SendsAreCounted(s: Sender, fec: bool, inputs: seq<FrameInput>)
    ensures var c, d, ps := s.counts, SendAll(s, fec, inputs).counts, Handed(s, fec, inputs);
      && d.sent - c.sent + d.sendFailed - c.sendFailed == |ps|
      && d.encodeFailed - c.encodeFailed + |ps| == Submitted(s, fec, inputs)
      && d.sent >= c.sent && d.sendFailed >= c.sendFailed && d.bytes - c.bytes <= BytesOf(ps)
  {
    if inputs != [] {
      var before, i := inputs[..|inputs| - 1], inputs[|inputs| - 1];
      SendsAreCounted(s, fec, before);
      var t := SendAll(s, fec, before);
      var p := SendFrame(t, fec, i).1;
      OneMoreBytes(Handed(s, fec, before), p);
      CountStep(t, fec, i);
      hide SendFrame, BytesOf;
    }
  }

  lemma CountStep(s: Sender, fec: bool, i: FrameInput)
    ensures var (t, p) := SendFrame(s, fec, i);
      var c, d, handed, given := s.counts, t.counts, |AsList(p)|, if i.sending || s.open then 1 else 0;
      && d.sent + d.sendFailed == c.sent + c.sendFailed + handed
      && d.encodeFailed + handed == c.encodeFailed + given
      && c.sent <= d.sent && c.sendFailed <= d.sendFailed
      && d.bytes <= c.bytes + if p.Some? then MEDIA_HEADER_SIZE + |p.value.payload| else 0
  {
    hide Wrap32, Encodable;
  }

  lemma OneMoreBytes(ps: seq<MediaPacket>, p: Option<MediaPacket>)
    ensures BytesOf(ps + AsList(p)) == BytesOf(ps) + if p.Some? then MEDIA_HEADER_SIZE + |p.value.payload| else 0
  {
    if p.Some? {
      assert (ps + [p.value])[..|ps|] == ps;
    } else {
      assert ps + [] == ps;
    }
  }

  lemma FlagsOfFrame(s: Sender, fec: bool, i: FrameInput)
    ensures var (_, p) := SendFrame(s, fec, i);
      p.Some? ==> p.value.header.flags < 8 && p.value.header.flags / 4 == if fec then 1 else 0
  {
    hide Wrap32, Encodable;
  }

  /** Every packet carries the correction flag, bit 2, if and only if correction is on, and no flag above it. */
  lemma {:induction false} CorrectionIsFlagged(s: Sender, fec: bool, inputs: seq<FrameInput>)
    ensures forall p | p in Handed(s, fec, inputs) :: p.header.flags < 8 && p.header.flags / 4 == if fec then 1 else 0
  {
    if inputs != [] {
      var before, i := inputs[..|inputs| - 1], inputs[|inputs| - 1];
      CorrectionIsFlagged(s, fec, before);
      FlagsOfFrame(SendAll(s, fec, before), fec, i);
      hide SendFrame;
    }
  }

  // ---------------------------------------------------------------- over the wire, into the peer

  /** What the sender takes from its encoder is what the wire takes: payloads that parse, and only those. */
  lemma EncodableIffParses(s: Sender, flags: u16, payload: Bytes)
    requires FlagsAssigned(flags)
    ensures Encodable(Some(payload)) <==>
      ParseMedia(MediaBytes(PacketOf(s, flags, payload))) == Good(PacketOf(s, flags, payload))
    ensures !Encodable(None)
  {
    MediaRoundTrip(PacketOf(s, flags, payload));
    hide ParseMedia, MediaBytes;
  }

  /** The frames whose packet the socket took. */
  function Taken(s: Sender, fec: bool, inputs: seq<FrameInput>): seq<MediaPacket> {
    if inputs == [] then []
    else
      var before, i := inputs[..|inputs| - 1], inputs[|inputs| - 1];
      Taken(s, fec, before) + if i.sends then AsList(SendFrame(SendAll(s, fec, before), fec, i).1) else []
  }

  /** Sent is what the socket took, packet for packet and byte for byte; the rest of what it was handed counts
      as refused. */
  lemma {:induction false} SentIsTaken(s: Sender, fec: bool, inputs: seq<FrameInput>)
    ensures var c, d, taken := s.counts, SendAll(s, fec, inputs).counts, Taken(s, fec, inputs);
      && d.sent == c.sent + |taken| && d.bytes == c.bytes + BytesOf(taken)
      && d.sendFailed == c.sendFailed + |Handed(s, fec, inputs)| - |taken|
  {
    if inputs != [] {
      var before, i := inputs[..|inputs| - 1], inputs[|inputs| - 1];
      SentIsTaken(s, fec, before);
      var t := SendAll(s, fec, before);
      OneTaken(t, fec, i);
      OneMoreBytes(Taken(s, fec, before), SendFrame(t, fec, i).1);
      OneMoreBytes(Taken(s, fec, before), None);
      hide SendFrame, BytesOf;
    }
  }

  lemma OneTaken(s: Sender, fec: bool, i: FrameInput)
    ensures var (t, p) := SendFrame(s, fec, i);
      && t.counts.sent == s.counts.sent + (if i.sends then |AsList(p)| else 0)
      && t.counts.sendFailed == s.counts.sendFailed + (if i.sends then 0 else |AsList(p)|)
      && t.counts.bytes == s.counts.bytes + if i.sends && p.Some? then MEDIA_HEADER_SIZE + |p.value.payload| else 0
  {
    hide Wrap32, Encodable;
  }

  lemma HandedIsValid(s: Sender, fec: bool, i: FrameInput)
    ensures SendFrame(s, fec, i).1.Some? ==> ValidMedia(SendFrame(s, fec, i).1.value)
  {
    hide Wrap32;
  }

  /** Every datagram on the wire parses back to the packet that was handed over. */
  lemma {:induction false} WireParses(s: Sender, fec: bool, inputs: seq<FrameInput>)
    ensures forall p | p in Handed(s, fec, inputs) :: ParseMedia(MediaBytes(p)) == Good(p)
  {
    if inputs != [] {
      var before, i := inputs[..|inputs| - 1], inputs[|inputs| - 1];
      WireParses(s, fec, before);
      var t := SendAll(s, fec, before);
      HandedIsValid(t, fec, i);
      var p := SendFrame(t, fec, i).1;
      hide SendFrame, ParseMedia, MediaBytes, ValidMedia;
      if p.Some? { MediaRoundTrip(p.value); }
    }
  }

  /** Where a stream's line crosses sequence zero. */
  function Phase(e: Entropy): u32 { Wrap32(e.timestamp - FRAME_SAMPLES * e.sequence) }

  function OpenedBy(s: Sender, i: FrameInput): seq<Entropy> { if i.sending && !s.open then [i.entropy] else [] }

  /** The draws that opened a talkspurt, in order. */
  function Openings(s: Sender, fec: bool, inputs: seq<FrameInput>): seq<Entropy> {
    if inputs == [] then []
    else
      var before := inputs[..|inputs| - 1];
      Openings(s, fec, before) + OpenedBy(SendAll(s, fec, before), inputs[|inputs| - 1])
  }

  /** `phase` knows every stream that was opened. Streams that drew the same id must share a line. */
  ghost predicate Knows(phase: u32 -> u32, openings: seq<Entropy>) {
    forall e | e in openings :: phase(e.streamId) == Phase(e)
  }

  /** Each talkspurt is counted once, when it opens. */
  lemma {:induction false} TalkspurtsAreCounted(s: Sender, fec: bool, inputs: seq<FrameInput>)
    ensures SendAll(s, fec, inputs).counts.talkspurts == s.counts.talkspurts + |Openings(s, fec, inputs)|
  {
    if inputs != [] {
      var before, i := inputs[..|inputs| - 1], inputs[|inputs| - 1];
      TalkspurtsAreCounted(s, fec, before);
      OpeningIsCounted(SendAll(s, fec, before), fec, i);
      hide SendFrame, OpenedBy;
    }
  }

  lemma OpeningIsCounted(s: Sender, fec: bool, i: FrameInput)
    ensures SendFrame(s, fec, i).0.counts.talkspurts == s.counts.talkspurts + |OpenedBy(s, i)|
  {
    hide Wrap32, Encodable;
  }

  lemma CrossesAt(e: Entropy)
    ensures LineTs(Phase(e), FRAME_SAMPLES, e.sequence) == e.timestamp
  {
    var x: int := e.timestamp - FRAME_SAMPLES * e.sequence;
    WrapAgain(x, FRAME_SAMPLES * e.sequence);
  }

  /** The sender's own position is on the line of its current stream. */
  ghost predicate OnItsLine(s: Sender, phase: u32 -> u32) {
    s.open ==> OnLine(PacketOf(s, 0, []).header, phase, FRAME_SAMPLES)
  }

  lemma MovesAlongItsLine(s: Sender, phase: u32 -> u32)
    requires OnLine(PacketOf(s, 0, []).header, phase, FRAME_SAMPLES)
    ensures OnLine(PacketOf(MoveOn(s), 0, []).header, phase, FRAME_SAMPLES)
  {
    LineShift(phase(s.streamId), FRAME_SAMPLES, s.sequence, 1);
    hide LineTs, Wrap32;
  }

  lemma SendStaysOnLine(s: Sender, fec: bool, i: FrameInput, phase: u32 -> u32)
    requires OnItsLine(s, phase) && Knows(phase, OpenedBy(s, i))
    ensures OnItsLine(SendFrame(s, fec, i).0, phase)
    ensures SendFrame(s, fec, i).1.Some? ==> OnLine(SendFrame(s, fec, i).1.value.header, phase, FRAME_SAMPLES)
  {
    hide Wrap32, Encodable, LineTs;
    var o := if i.sending && !s.open then OpenS(s, i.entropy) else s;
    if i.sending && !s.open {
      assert i.entropy in OpenedBy(s, i);
      CrossesAt(i.entropy);
    }
    if o.open { MovesAlongItsLine(o, phase); }
  }

  /** Whatever the talk button, the encoder and the socket do, every packet handed over lies on its own
      stream's line. */
  lemma {:induction false} HandedIsOnLine(s: Sender, fec: bool, inputs: seq<FrameInput>, phase: u32 -> u32)
    requires !s.open && Knows(phase, Openings(s, fec, inputs))
    ensures OnItsLine(SendAll(s, fec, inputs), phase)
    ensures forall p | p in Handed(s, fec, inputs) :: OnLine(p.header, phase, FRAME_SAMPLES)
  {
    if inputs != [] {
      var before, i := inputs[..|inputs| - 1], inputs[|inputs| - 1];
      var t := SendAll(s, fec, before);
      assert Openings(s, fec, inputs) == Openings(s, fec, before) + OpenedBy(t, i);
      HandedIsOnLine(s, fec, before, phase);
      SendStaysOnLine(t, fec, i, phase);
      hide SendFrame, OnLine, OpenedBy;
    }
  }

  /** Only what was handed over arrives: any of it, any number of times, in any order. */
  ghost predicate Delivers(events: seq<Event>, packets: seq<MediaPacket>) {
    forall e | e in events && e.PushE? :: e.packet in packets
  }

  /** End to end: whatever was captured and sent, and whatever the network lost, repeated, delayed or
      reordered on the way, the peer's playout timestamp never leaves the image of its cursor. */
  lemma SentAudioStaysInStep(
    s: Sender, fec: bool, inputs: seq<FrameInput>, phase: u32 -> u32, b: Buffer, events: seq<Event>)
    requires !s.open && Knows(phase, Openings(s, fec, inputs))
    requires Ticking(b) && Lockstep(b, phase) && b.geo.frameTs == FRAME_SAMPLES
    requires Delivers(events, Handed(s, fec, inputs))
    ensures Lockstep(RunB(b, events), phase)
  {
    HandedIsOnLine(s, fec, inputs, phase);
    hide OnLine, Lockstep, RunB, Handed, Openings;
    assert AllOnLine(events, phase, b.geo.frameTs);
    LockstepOverRuns(b, phase, events);
  }
}
