/** The wire format: parsing with a fixed order of rejection, and encoding into a caller's buffer. */
module Proto {
  import opened Words
  import opened ByteOrder
  import opened Media

  const VERSION: u8 := 1
  const MAX_DATAGRAM: int := 1200
  const PREFIX_SIZE: int := 4
  const MEDIA_HEADER_SIZE: int := 16
  const CONTROL_HEADER_SIZE: int := 16
  const PONG_BODY_SIZE: int := 16

  const AUDIO: u8 := 0x01
  const PING: u8 := 0x02
  const PONG: u8 := 0x03

  predicate IsAssigned(t: u8) { t in {0x01, 0x02, 0x03, 0x10, 0x11, 0x12, 0x30, 0x31, 0x40} }

  predicate IsMedia(t: u8) { t == AUDIO }

  datatype ControlHeader = ControlHeader(kind: u8, flags: u16, requestId: u32, sendTimeUs: u64)

  datatype ControlPacket = ControlPacket(header: ControlHeader, body: Bytes)

  datatype PongBody = PongBody(origT1: u64, recvT2: u64)

  datatype Reject = TooShort | BadVersion | UnknownType | ReservedFlag | BadLength

  datatype Parsed<+T> = Good(value: T) | Fail(reject: Reject)

  /** Assigned media flags are the low four bits. */
  predicate FlagsAssigned(flags: u16) { flags < 0x10 }

  // ---------------------------------------------------------------- parsing

  function ValidatePrefix(d: Bytes): Parsed<u8> {
    if |d| < PREFIX_SIZE then Fail(TooShort)
    else if d[0] != VERSION then Fail(BadVersion)
    else if !IsAssigned(d[1]) then Fail(UnknownType)
    else Good(d[1])
  }

  function ParseMedia(d: Bytes): Parsed<MediaPacket> {
    match ValidatePrefix(d)
    case Fail(reject) => Fail(reject)
    case Good(kind) =>
      if !IsMedia(kind) then Fail(UnknownType)
      else
        var flags := LoadBe16(d, 2);
        if !FlagsAssigned(flags) then Fail(ReservedFlag)
        else if |d| <= MEDIA_HEADER_SIZE || |d| > MAX_DATAGRAM then Fail(BadLength)
        else
          Good(MediaPacket(MediaHeader(flags, LoadBe32(d, 4), LoadBe32(d, 8), LoadBe32(d, 12)), d[MEDIA_HEADER_SIZE..]))
  }

  function ParseControl(d: Bytes): Parsed<ControlPacket> {
    match ValidatePrefix(d)
    case Fail(reject) => Fail(reject)
    case Good(kind) =>
      if IsMedia(kind) then Fail(UnknownType)
      else if LoadBe16(d, 2) != 0 then Fail(ReservedFlag)
      else if |d| < CONTROL_HEADER_SIZE || |d| > MAX_DATAGRAM then Fail(BadLength)
      else Good(ControlPacket(ControlHeader(kind, 0, LoadBe32(d, 4), LoadBe64(d, 8)), d[CONTROL_HEADER_SIZE..]))
  }

  function ParsePongBody(body: Bytes): Parsed<PongBody> {
    if |body| != PONG_BODY_SIZE then Fail(BadLength)
    else Good(PongBody(LoadBe64(body, 0), LoadBe64(body, 8)))
  }

  // ---------------------------------------------------------------- the bytes on the wire

  function MediaBytes(p: MediaPacket): Bytes {
    [VERSION, AUDIO] + Be16(p.header.flags) + Be32(p.header.streamId) + Be32(p.header.sequence)
    + Be32(p.header.timestamp) + p.payload
  }

  function ControlBytes(p: ControlPacket): Bytes {
    [VERSION, p.header.kind] + Be16(p.header.flags) + Be32(p.header.requestId) + Be64(p.header.sendTimeUs) + p.body
  }

  function PongBodyBytes(b: PongBody): Bytes { Be64(b.origT1) + Be64(b.recvT2) }

  /** What a conforming sender may put on the wire. */
  predicate ValidMedia(p: MediaPacket) {
    FlagsAssigned(p.header.flags) && 0 < |p.payload| <= MAX_DATAGRAM - MEDIA_HEADER_SIZE
  }

  predicate ValidControl(p: ControlPacket) {
    && IsAssigned(p.header.kind) && !IsMedia(p.header.kind) && p.header.flags == 0
    && |p.body| <= MAX_DATAGRAM - CONTROL_HEADER_SIZE
  }

  // ---------------------------------------------------------------- encoding

  method CopyBytes(out: array<u8>, at: nat, bytes: Bytes)
    requires at + |bytes| <= out.Length
    modifies out
    ensures out[..at + |bytes|] == old(out[..at]) + bytes
    ensures forall i | at + |bytes| <= i < out.Length :: out[i] == old(out[i])
  {
    for i := 0 to |bytes|
      invariant out[..at + i] == old(out[..at]) + bytes[..i]
      invariant forall k | at + i <= k < out.Length :: out[k] == old(out[k])
    {
      out[at + i] := bytes[i];
    }
  }

  /** That the reserved flag bits are zero is the caller's obligation: the program asserts it. */
  method EncodeMedia(h: MediaHeader, payload: Bytes, out: array<u8>) returns (n: nat)
    requires FlagsAssigned(h.flags)
    modifies out
    ensures n == (if payload == [] || MEDIA_HEADER_SIZE + |payload| > Min(out.Length, MAX_DATAGRAM) then 0
                  else MEDIA_HEADER_SIZE + |payload|)
    ensures n == 0 ==> out[..] == old(out[..])
    ensures n > 0 ==> out[..] == MediaBytes(MediaPacket(h, payload)) + old(out[n..])
  {
    hide Be16, Be32;
    var total := MEDIA_HEADER_SIZE + |payload|;
    if payload == [] || total > out.Length || total > MAX_DATAGRAM { return 0; }
    out[0] := VERSION;
    out[1] := AUDIO;
    assert out[..2] == [VERSION, AUDIO];
    StoreBe16(out, 2, h.flags);
    StoreBe32(out, 4, h.streamId);
    StoreBe32(out, 8, h.sequence);
    StoreBe32(out, 12, h.timestamp);
    CopyBytes(out, MEDIA_HEADER_SIZE, payload);
    assert out[..total] == MediaBytes(MediaPacket(h, payload)) && out[total..] == old(out[total..]);
    return total;
  }

  method EncodeControl(h: ControlHeader, body: Bytes, out: array<u8>) returns (n: nat)
    requires IsAssigned(h.kind) && !IsMedia(h.kind) && h.flags == 0
    modifies out
    ensures n == (if CONTROL_HEADER_SIZE + |body| > Min(out.Length, MAX_DATAGRAM) then 0
                  else CONTROL_HEADER_SIZE + |body|)
    ensures n == 0 ==> out[..] == old(out[..])
    ensures n > 0 ==> out[..] == ControlBytes(ControlPacket(h, body)) + old(out[n..])
  {
    hide Be16, Be32, Be64;
    var total := CONTROL_HEADER_SIZE + |body|;
    if total > out.Length || total > MAX_DATAGRAM { return 0; }
    out[0] := VERSION;
    out[1] := h.kind;
    assert out[..2] == [VERSION, h.kind];
    StoreBe16(out, 2, h.flags);
    StoreBe32(out, 4, h.requestId);
    StoreBe64(out, 8, h.sendTimeUs);
    if body != [] { CopyBytes(out, CONTROL_HEADER_SIZE, body); }
    assert out[..total] == ControlBytes(ControlPacket(h, body)) && out[total..] == old(out[total..]);
    return total;
  }

  method EncodePongBody(b: PongBody, out: array<u8>) returns (n: nat)
    modifies out
    ensures n == if out.Length < PONG_BODY_SIZE then 0 else PONG_BODY_SIZE
    ensures out[..] == (if n == 0 then [] else PongBodyBytes(b)) + old(out[n..])
  {
    hide Be64;
    if out.Length < PONG_BODY_SIZE { return 0; }
    StoreBe64(out, 0, b.origT1);
    StoreBe64(out, 8, b.recvT2);
    assert out[..PONG_BODY_SIZE] == PongBodyBytes(b) && out[PONG_BODY_SIZE..] == old(out[PONG_BODY_SIZE..]);
    return PONG_BODY_SIZE;
  }

  // ---------------------------------------------------------------- round trips

  /** Where the pieces of a concatenation lie. */
  lemma FiveSlices(a: Bytes, b: Bytes, c: Bytes, d: Bytes, e: Bytes)
    ensures var s, ab, abc := a + b + c + d + e, |a| + |b|, |a| + |b| + |c|;
      && |s| == abc + |d| + |e| && s[..|a|] == a && s[|a|..ab] == b && s[ab..abc] == c
      && s[abc..abc + |d|] == d && s[abc + |d|..] == e
  {}

  lemma MediaSlices(p: MediaPacket)
    ensures var d := MediaBytes(p);
      && |d| == MEDIA_HEADER_SIZE + |p.payload| && d[..2] == [VERSION, AUDIO] && d[2..4] == Be16(p.header.flags)
      && d[4..8] == Be32(p.header.streamId) && d[8..12] == Be32(p.header.sequence)
      && d[12..16] == Be32(p.header.timestamp) && d[16..] == p.payload
  {
    hide Be16, Be32;
    var h := p.header;
    var front := [VERSION, AUDIO] + Be16(h.flags) + Be32(h.streamId) + Be32(h.sequence) + Be32(h.timestamp);
    FiveSlices([VERSION, AUDIO], Be16(h.flags), Be32(h.streamId), Be32(h.sequence), Be32(h.timestamp));
    HeadKeepsSlices(front, p.payload);
    assert MediaBytes(p) == front + p.payload;
  }

  lemma HeadKeepsSlices(front: Bytes, rest: Bytes)
    ensures (front + rest)[|front|..] == rest
    ensures forall i, j | 0 <= i <= j <= |front| :: (front + rest)[i..j] == front[i..j]
  {}

  lemma MediaFields(p: MediaPacket)
    ensures var d := MediaBytes(p);
      && |d| == MEDIA_HEADER_SIZE + |p.payload| && d[0] == VERSION && d[1] == AUDIO
      && LoadBe16(d, 2) == p.header.flags && LoadBe32(d, 4) == p.header.streamId
      && LoadBe32(d, 8) == p.header.sequence && LoadBe32(d, 12) == p.header.timestamp && d[16..] == p.payload
  {
    hide Be16, Be32, LoadBe16, LoadBe32, MediaBytes;
    MediaSlices(p);
    var d := MediaBytes(p);
    FirstTwo(d, VERSION, AUDIO);
    LoadAt16(d, 2, p.header.flags);
    LoadAt32(d, 4, p.header.streamId);
    LoadAt32(d, 8, p.header.sequence);
    LoadAt32(d, 12, p.header.timestamp);
  }

  lemma FirstTwo(d: Bytes, x: u8, y: u8)
    requires |d| >= 2 && d[..2] == [x, y]
    ensures d[0] == x && d[1] == y
  {
    assert d[0] == d[..2][0] && d[1] == d[..2][1];
  }

  lemma ControlSlices(p: ControlPacket)
    ensures var d := ControlBytes(p);
      && |d| == CONTROL_HEADER_SIZE + |p.body| && d[..2] == [VERSION, p.header.kind]
      && d[2..4] == Be16(p.header.flags) && d[4..8] == Be32(p.header.requestId)
      && d[8..16] == Be64(p.header.sendTimeUs) && d[16..] == p.body
  {
    hide Be16, Be32, Be64;
    var h := p.header;
    FiveSlices([VERSION, h.kind], Be16(h.flags), Be32(h.requestId), Be64(h.sendTimeUs), p.body);
  }

  lemma ControlFields(p: ControlPacket)
    ensures var d := ControlBytes(p);
      && |d| == CONTROL_HEADER_SIZE + |p.body| && d[0] == VERSION && d[1] == p.header.kind
      && LoadBe16(d, 2) == p.header.flags && LoadBe32(d, 4) == p.header.requestId
      && LoadBe64(d, 8) == p.header.sendTimeUs && d[16..] == p.body
  {
    hide Be16, Be32, Be64, LoadBe16, LoadBe32, LoadBe64, ControlBytes;
    ControlSlices(p);
    var d := ControlBytes(p);
    FirstTwo(d, VERSION, p.header.kind);
    LoadAt16(d, 2, p.header.flags);
    LoadAt32(d, 4, p.header.requestId);
    LoadAt64(d, 8, p.header.sendTimeUs);
  }

  /** Media packets survive the wire, and the wire carries nothing else: parsing accepts exactly the
      encodings of the packets a conforming sender may send, and gives them back. */
  lemma MediaRoundTrip(p: MediaPacket)
    ensures ParseMedia(MediaBytes(p)) == Good(p) <==> ValidMedia(p)
  {
    MediaFields(p);
    hide Be16, Be32, LoadBe16, LoadBe32, MediaBytes;
  }

  lemma MediaCut(d: Bytes)
    requires |d| >= 16
    ensures d == [d[0], d[1]] + d[2..4] + d[4..8] + d[8..12] + d[12..16] + d[16..]
  {
    assert d[..2] == [d[0], d[1]];
    assert d == d[..2] + d[2..];
    assert d[2..] == d[2..4] + d[4..];
    assert d[4..] == d[4..8] + d[8..];
    assert d[8..] == d[8..12] + d[12..];
    assert d[12..] == d[12..16] + d[16..];
  }

  /** What an accepted media datagram parses to. */
  lemma MediaAccepted(d: Bytes)
    requires ParseMedia(d).Good?
    ensures MEDIA_HEADER_SIZE < |d| <= MAX_DATAGRAM && d[0] == VERSION && d[1] == AUDIO && FlagsAssigned(LoadBe16(d, 2))
    ensures ParseMedia(d).value ==
      MediaPacket(MediaHeader(LoadBe16(d, 2), LoadBe32(d, 4), LoadBe32(d, 8), LoadBe32(d, 12)), d[16..])
  {
    hide LoadBe16, LoadBe32;
  }

  lemma MediaCanonical(d: Bytes)
    requires ParseMedia(d).Good?
    ensures MediaBytes(ParseMedia(d).value) == d && ValidMedia(ParseMedia(d).value)
  {
    hide Be16, Be32, LoadBe16, LoadBe32, ParseMedia;
    MediaAccepted(d);
    StoreLoaded16(d, 2);
    StoreLoaded32(d, 4);
    StoreLoaded32(d, 8);
    StoreLoaded32(d, 12);
    MediaCut(d);
  }

  lemma ControlRoundTrip(p: ControlPacket)
    ensures ParseControl(ControlBytes(p)) == Good(p) <==> ValidControl(p)
  {
    ControlFields(p);
    hide Be16, Be32, Be64, LoadBe16, LoadBe32, LoadBe64, ControlBytes;
  }

  lemma ControlCut(d: Bytes)
    requires |d| >= 16
    ensures d == [d[0], d[1]] + d[2..4] + d[4..8] + d[8..16] + d[16..]
  {
    MediaCut(d);
    assert d[8..12] + d[12..16] == d[8..16];
  }

  /** What an accepted control datagram parses to. */
  lemma ControlAccepted(d: Bytes)
    requires ParseControl(d).Good?
    ensures CONTROL_HEADER_SIZE <= |d| <= MAX_DATAGRAM && d[0] == VERSION && IsAssigned(d[1]) && !IsMedia(d[1])
    ensures LoadBe16(d, 2) == 0
    ensures ParseControl(d).value == ControlPacket(ControlHeader(d[1], 0, LoadBe32(d, 4), LoadBe64(d, 8)), d[16..])
  {
    hide LoadBe16, LoadBe32, LoadBe64;
  }

  lemma ControlCanonical(d: Bytes)
    requires ParseControl(d).Good?
    ensures ControlBytes(ParseControl(d).value) == d && ValidControl(ParseControl(d).value)
  {
    hide Be16, Be32, Be64, LoadBe16, LoadBe32, LoadBe64, ParseControl;
    ControlAccepted(d);
    StoreLoaded16(d, 2);
    StoreLoaded32(d, 4);
    StoreLoaded64(d, 8);
    ControlCut(d);
  }

  lemma PongBodyRoundTrip(b: PongBody, d: Bytes)
    ensures ParsePongBody(PongBodyBytes(b)) == Good(b)
    ensures ParsePongBody(d).Good? <==> |d| == PONG_BODY_SIZE
    ensures ParsePongBody(d).Good? ==> PongBodyBytes(ParsePongBody(d).value) == d
  {
    LoadStored64([], b.origT1, Be64(b.recvT2));
    LoadStored64(Be64(b.origT1), b.recvT2, []);
    assert PongBodyBytes(b) == [] + Be64(b.origT1) + Be64(b.recvT2) == Be64(b.origT1) + Be64(b.recvT2) + [];
    if |d| == PONG_BODY_SIZE {
      StoreLoaded64(d, 0);
      StoreLoaded64(d, 8);
      assert d == d[0..8] + d[8..16];
    }
    hide Be64, LoadBe64;
  }

  // ---------------------------------------------------------------- the order of rejection

  /** The checks a receiver owes, in the order it owes them, each with the class it is counted under. */
  function MediaChecks(d: Bytes): seq<(bool, Reject)> {
    [(|d| >= PREFIX_SIZE, TooShort),
     (|d| >= 1 && d[0] == VERSION, BadVersion),
     (|d| >= 2 && IsAssigned(d[1]), UnknownType),
     (|d| >= 2 && IsMedia(d[1]), UnknownType),
     (|d| >= 4 && FlagsAssigned(LoadBe16(d, 2)), ReservedFlag),
     (MEDIA_HEADER_SIZE < |d| <= MAX_DATAGRAM, BadLength)]
  }

  function ControlChecks(d: Bytes): seq<(bool, Reject)> {
    [(|d| >= PREFIX_SIZE, TooShort),
     (|d| >= 1 && d[0] == VERSION, BadVersion),
     (|d| >= 2 && IsAssigned(d[1]), UnknownType),
     (|d| >= 2 && !IsMedia(d[1]), UnknownType),
     (|d| >= 4 && LoadBe16(d, 2) == 0, ReservedFlag),
     (CONTROL_HEADER_SIZE <= |d| <= MAX_DATAGRAM, BadLength)]
  }

  /** The class of the first check that fails, if one does. */
  function FirstFailing(checks: seq<(bool, Reject)>): Option<Reject> {
    if checks == [] then None else if !checks[0].0 then Some(checks[0].1) else FirstFailing(checks[1..])
  }

  function RejectOf<T>(p: Parsed<T>): Option<Reject> { if p.Fail? then Some(p.reject) else None }

  /** A datagram is rejected under the first class whose check it fails, for arbitrary bytes. */
  lemma RejectionOrder(d: Bytes)
    ensures RejectOf(ParseMedia(d)) == FirstFailing(MediaChecks(d))
    ensures RejectOf(ParseControl(d)) == FirstFailing(ControlChecks(d))
  {
    Six(MediaChecks(d));
    Six(ControlChecks(d));
    hide LoadBe16, LoadBe32, LoadBe64, FirstFailing;
  }

  lemma Six(c: seq<(bool, Reject)>)
    requires |c| == 6
    ensures FirstFailing(c) ==
      if !c[0].0 then Some(c[0].1) else if !c[1].0 then Some(c[1].1) else if !c[2].0 then Some(c[2].1)
      else if !c[3].0 then Some(c[3].1) else if !c[4].0 then Some(c[4].1) else if !c[5].0 then Some(c[5].1)
      else None
  {
    assert FirstFailing(c[5..]) == if !c[5].0 then Some(c[5].1) else None;
    assert c[1..][1..] == c[2..] && c[2..][1..] == c[3..] && c[3..][1..] == c[4..] && c[4..][1..] == c[5..];
    assert FirstFailing(c[3..]) == if !c[3].0 then Some(c[3].1) else FirstFailing(c[4..]);
    assert FirstFailing(c[1..]) == if !c[1].0 then Some(c[1].1) else FirstFailing(c[2..]);
  }

  // ---------------------------------------------------------------- answering a ping

  /** The reply owed for a ping. */
  function PongFor(ping: ControlPacket, t2: u64, t3: u64): ControlPacket {
    ControlPacket(ControlHeader(PONG, 0, ping.header.requestId, t3),
                  PongBodyBytes(PongBody(ping.header.sendTimeUs, t2)))
  }

  method EncodePongFor(ping: ControlPacket, t2: u64, t3: u64, out: array<u8>) returns (n: nat)
    modifies out
    ensures n == if out.Length < CONTROL_HEADER_SIZE + PONG_BODY_SIZE then 0 else CONTROL_HEADER_SIZE + PONG_BODY_SIZE
    ensures n == 0 ==> out[..] == old(out[..])
    ensures n > 0 ==> out[..] == ControlBytes(PongFor(ping, t2, t3)) + old(out[n..])
  {
    hide Be64;
    var encoded := new u8[PONG_BODY_SIZE](_ => 0);
    var m := EncodePongBody(PongBody(ping.header.sendTimeUs, t2), encoded);
    assert m == PONG_BODY_SIZE;
    n := EncodeControl(ControlHeader(PONG, 0, ping.header.requestId, t3), encoded[..], out);
  }

  /** The reply parses back to the same request, the echo of the ping's own send time, and the two
      times the responder reported. */
  lemma PongEchoes(ping: ControlPacket, t2: u64, t3: u64)
    ensures var pong := ParseControl(ControlBytes(PongFor(ping, t2, t3)));
      && pong.Good? && pong.value.header == ControlHeader(PONG, 0, ping.header.requestId, t3)
      && ParsePongBody(pong.value.body) == Good(PongBody(ping.header.sendTimeUs, t2))
  {
    var body := PongBody(ping.header.sendTimeUs, t2);
    PongBodyRoundTrip(body, PongBodyBytes(body));
    ControlRoundTrip(PongFor(ping, t2, t3));
    hide Be64, LoadBe64, ControlBytes, ParseControl, ParsePongBody;
  }
}
