/** The wire format byte for byte: which datagrams are accepted, where each field lies and what it is worth,
    in plain numbers, and the format's own conformance vectors. */
module WireLayout {
  import opened Words
  import opened ByteOrder
  import opened Media
  import opened Proto

  /** The number at `at`, most significant byte first. */
  function Field(d: Bytes, at: nat, size: nat): nat
    requires at + size <= |d|
  { Value(Backwards(d[at..at + size])) }

  lemma Fields(d: Bytes, at: nat)
    ensures at + 2 <= |d| ==> LoadBe16(d, at) == Field(d, at, 2)
    ensures at + 4 <= |d| ==> LoadBe32(d, at) == Field(d, at, 4)
    ensures at + 8 <= |d| ==> LoadBe64(d, at) == Field(d, at, 8)
  {
    hide Value, Backwards, LoadBe16, LoadBe32, LoadBe64;
    if at + 2 <= |d| { Load16IsValue(d, at); }
    if at + 4 <= |d| { Load32IsValue(d, at); }
    if at + 8 <= |d| { Load64IsValue(d, at); }
  }

  /** A media datagram is accepted if and only if it is version 1, type 1, with only the low four flag bits
      and 17 to 1200 bytes; its fields lie at 2, 4, 8 and 12, and the payload from 16 on. */
  lemma MediaLayout(d: Bytes)
    ensures ParseMedia(d).Good? <==>
      17 <= |d| <= 1200 && d[0] == 1 && d[1] == 1 && Field(d, 2, 2) <= 15
    ensures ParseMedia(d).Good? ==>
      var p := ParseMedia(d).value;
      && p.header.flags == Field(d, 2, 2) && p.header.streamId == Field(d, 4, 4)
      && p.header.sequence == Field(d, 8, 4) && p.header.timestamp == Field(d, 12, 4) && p.payload == d[16..]
  {
    hide Value, Backwards, LoadBe16, LoadBe32, Field;
    Fields(d, 2);
    Fields(d, 4);
    Fields(d, 8);
    Fields(d, 12);
  }

  predicate ControlType(kind: u8) { kind in {0x02, 0x03, 0x10, 0x11, 0x12, 0x30, 0x31, 0x40} }

  /** A control datagram is accepted if and only if it is version 1, of an assigned type other than 1, with
      no flag set and 16 to 1200 bytes; its request id lies at 4, its time at 8, its body from 16 on. */
  lemma ControlLayout(d: Bytes)
    ensures ParseControl(d).Good? <==>
      16 <= |d| <= 1200 && d[0] == 1 && ControlType(d[1]) && d[2] == 0 && d[3] == 0
    ensures ParseControl(d).Good? ==>
      var p := ParseControl(d).value;
      && p.header.kind == d[1] && p.header.flags == 0 && p.header.requestId == Field(d, 4, 4)
      && p.header.sendTimeUs == Field(d, 8, 8) && p.body == d[16..]
  {
    ControlAccepts(d);
    if |d| >= 4 { ControlTypes(d[1]); NoFlags(d); }
    hide *;
    Fields(d, 4);
    Fields(d, 8);
  }

  lemma ControlAccepts(d: Bytes)
    ensures ParseControl(d).Good? <==>
      && 16 <= |d| <= 1200 && d[0] == 1 && IsAssigned(d[1]) && !IsMedia(d[1]) && LoadBe16(d, 2) == 0
    ensures ParseControl(d).Good? ==>
      ParseControl(d).value == ControlPacket(ControlHeader(d[1], 0, LoadBe32(d, 4), LoadBe64(d, 8)), d[16..])
  {
    hide LoadBe16, LoadBe32, LoadBe64, IsAssigned, IsMedia;
  }

  lemma ControlTypes(kind: u8)
    ensures IsAssigned(kind) && !IsMedia(kind) <==> ControlType(kind)
  {}

  lemma NoFlags(d: Bytes)
    requires |d| >= 4
    ensures LoadBe16(d, 2) == 0 <==> d[2] == 0 && d[3] == 0
  {}

  /** A pong's body is the echoed time and then the responder's time of arrival. */
  lemma PongLayout(body: Bytes)
    requires |body| == 16
    ensures ParsePongBody(body).Good?
    ensures var b := ParsePongBody(body).value; b.origT1 == Field(body, 0, 8) && b.recvT2 == Field(body, 8, 8)
  {
    hide LoadBe64, Field;
    Fields(body, 0);
    Fields(body, 8);
  }

  /** Of the sixteen combinations of flags, which open a talkspurt and which close one. */
  lemma FlagBits(h: MediaHeader)
    requires h.flags < 16
    ensures h.TalkspurtStart() <==> h.flags in {1, 3, 5, 7, 9, 11, 13, 15}
    ensures h.TalkspurtEnd() <==> h.flags in {2, 3, 6, 7, 10, 11, 14, 15}
  {}

  // ---------------------------------------------------------------- conformance vectors

  lemma AudioMinimal()
    ensures MediaBytes(MediaPacket(MediaHeader(0, 0x11223344, 0x55667788, 0x99AABBCC), [0x7F])) ==
      [0x01, 0x01, 0x00, 0x00, 0x11, 0x22, 0x33, 0x44, 0x55, 0x66, 0x77, 0x88, 0x99, 0xAA, 0xBB, 0xCC, 0x7F]
  {}

  lemma PongWithBody()
    ensures ControlBytes(ControlPacket(ControlHeader(PONG, 0, 7, 1_000_480),
                                       PongBodyBytes(PongBody(1_000_000, 1_000_450)))) ==
      [0x01, 0x03, 0x00, 0x00, 0x00, 0x00, 0x00, 0x07, 0x00, 0x00, 0x00, 0x00, 0x00, 0x0F, 0x44, 0x20,
       0x00, 0x00, 0x00, 0x00, 0x00, 0x0F, 0x42, 0x40, 0x00, 0x00, 0x00, 0x00, 0x00, 0x0F, 0x44, 0x02]
  {}

  /** Version, type, flags and length all wrong: the version is what is reported; and so on down the list. */
  lemma FirstFaultWins()
    ensures ParseMedia([0x09, 0x7E, 0xFF, 0xF0]) == Fail(BadVersion)
    ensures ParseMedia([0x01, 0x7E, 0x00, 0x10]) == Fail(UnknownType)
    ensures ParseMedia([0x01, 0x01, 0x00, 0x10]) == Fail(ReservedFlag)
    ensures ParseMedia([0x01, 0x01, 0x00, 0x0F]) == Fail(BadLength)
    ensures ParseMedia([0x01, 0x01, 0x00]) == Fail(TooShort)
  {}
}
