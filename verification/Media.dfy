/** The parsed form of a media datagram. */
module Media {
  import opened Words

  datatype MediaHeader = MediaHeader(flags: u16, streamId: u32, sequence: u32, timestamp: u32) {
    /** Bit 0 of the flags: first packet of a stream or of a talkspurt. */
    predicate TalkspurtStart() { flags % 2 == 1 }

    /** Bit 1 of the flags: last packet the sender intends to send. */
    predicate TalkspurtEnd() { flags / 2 % 2 == 1 }
  }

  datatype MediaPacket = MediaPacket(header: MediaHeader, payload: Bytes)
}
