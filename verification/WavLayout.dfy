/** WAV files byte for byte: where a reader looks, what it reads there in plain numbers, and one file written
    out in full. */
module WavLayout {
  import opened Words
  import opened ByteOrder
  import opened WavSpec
  import opened WavChunks

  /** The number at `at`, least significant byte first. */
  function Field(d: Bytes, at: nat, size: nat): nat
    requires at + size <= |d|
  { Value(d[at..at + size]) }

  lemma Fields(d: Bytes, at: nat)
    ensures at + 2 <= |d| ==> LoadLe16(d, at) == Field(d, at, 2)
    ensures at + 4 <= |d| ==> LoadLe32(d, at) == Field(d, at, 4)
  {
    hide Value, LoadLe16, LoadLe32;
    if at + 2 <= |d| { Load16IsValue(d, at); }
    if at + 4 <= |d| { Load32IsValue(d, at); }
  }

  /** A format chunk's fields: encoding at 0, channels at 2, rate at 4, bits at 14; when the encoding is the
      extensible one, the real one is at 24 and 40 bytes are needed instead of 16. */
  lemma FormatLayout(f: Found, body: Bytes)
    ensures var w := Visit(f, FMT, body);
      && (w.Done? <==> |body| >= 16 && (Field(body, 0, 2) == 0xFFFE ==> |body| >= 40))
      && (w.Done? ==>
            && w.found.haveFmt && w.found.data == f.data && w.found.info.frames == f.info.frames
            && w.found.encoding == Field(body, if Field(body, 0, 2) == 0xFFFE then 24 else 0, 2)
            && w.found.info.channels == Field(body, 2, 2) && w.found.info.sampleRateHz == Field(body, 4, 4)
            && w.found.info.bitsPerSample == Field(body, 14, 2))
      && (w.Stopped? ==> w.error == MalformedChunk)
  {
    hide LoadLe16, LoadLe32, Field;
    Fields(body, 0);
    Fields(body, 2);
    Fields(body, 4);
    Fields(body, 14);
    Fields(body, 24);
  }

  /** A chunk's size is the number in the four bytes after its tag: the walk goes on behind that many bytes
      and a pad, unless fewer are left. */
  lemma ChunkLayout(file: Bytes, at: nat, f: Found)
    requires at + 8 <= |file|
    ensures var size, tag := Field(file, at + 4, 4), file[at..at + 4];
      if at + 8 + size > |file|
      then WalkFrom(file, at, f) == Stopped(if tag == DATA then TruncatedData else MalformedChunk, f.info)
      else
        var w := Visit(f, tag, file[at + 8..at + 8 + size]);
        WalkFrom(file, at, f) ==
          if w.Stopped? then w else WalkFrom(file, at + 8 + size + (if size % 2 == 1 then 1 else 0), w.found)
  {
    Fields(file, at + 4);
    WalkStep(file, at, f);
    hide WalkFrom, Field, Visit, LoadLe32;
  }

  /** A sample is two bytes, read as a signed number. */
  lemma SampleLayout(data: Bytes, n: nat, k: nat)
    requires 2 * n <= |data| && k < n
    ensures var v := Field(data, 2 * k, 2);
      SamplesOf(data, n)[k] == if v >= 0x8000 then v - 0x1_0000 else v
  {
    Fields(data, 2 * k);
    hide LoadLe16, Field;
  }

  // ---------------------------------------------------------------- refusals

  /** The class of the first check that fails, if one does. */
  function FirstFailing(checks: seq<(bool, WavError)>): WavError {
    if checks == [] then NoError else if !checks[0].0 then checks[0].1 else FirstFailing(checks[1..])
  }

  /** What a file must be, in the order it is asked, up to its chunks. */
  function FileChecks(file: Bytes): seq<(bool, WavError)> {
    [(|file| >= 12, FileTooShort), (|file| >= 4 && file[..4] == [0x52, 0x49, 0x46, 0x46], NotRiff),
     (|file| >= 12 && file[8..12] == [0x57, 0x41, 0x56, 0x45], NotWave)]
  }

  /** And what its chunks must have held. */
  function ChunkChecks(f: Found): seq<(bool, WavError)> {
    [(f.haveFmt, MissingFmtChunk), (f.data.Some?, MissingDataChunk), (f.encoding == 1, UnsupportedEncoding),
     (f.info.bitsPerSample == 16, UnsupportedBitDepth), (1 <= f.info.channels <= 8, UnsupportedChannelCount)]
  }

  lemma Three(c: seq<(bool, WavError)>)
    requires |c| == 3
    ensures FirstFailing(c) ==
      if !c[0].0 then c[0].1 else if !c[1].0 then c[1].1 else if !c[2].0 then c[2].1 else NoError
  {
    assert c[1..][1..] == c[2..] && FirstFailing(c[2..]) == if !c[2].0 then c[2].1 else NoError;
  }

  lemma Five(c: seq<(bool, WavError)>)
    requires |c| == 5
    ensures FirstFailing(c) ==
      if !c[0].0 then c[0].1 else if !c[1].0 then c[1].1 else FirstFailing(c[2..])
    ensures FirstFailing(c[2..]) ==
      if !c[2].0 then c[2].1 else if !c[3].0 then c[3].1 else if !c[4].0 then c[4].1 else NoError
  {
    Three(c[2..]);
    assert c[1..][1..] == c[2..];
  }

  /** A file is refused for the first thing wrong with it: its own header, then the chunk the walk stops at,
      then what the chunks held; and read if and only if nothing is wrong. */
  lemma RefusalOrder(file: Bytes)
    ensures var r, early := ReadBytes(file), FirstFailing(FileChecks(file));
      r.error ==
        if early != NoError then early
        else
          var w := WalkFrom(file, 12, NOTHING);
          if w.Stopped? then w.error else FirstFailing(ChunkChecks(w.found))
  {
    Three(FileChecks(file));
    hide WalkFrom, Finish, FirstFailing;
    if |file| >= 12 && WalkFrom(file, 12, NOTHING).Done? { FinishOrder(WalkFrom(file, 12, NOTHING).found); }
  }

  lemma FinishOrder(f: Found)
    ensures Finish(f).error == FirstFailing(ChunkChecks(f))
  {
    Five(ChunkChecks(f));
    hide FirstFailing, SamplesOf;
  }

  /** A writer takes whole frames of one to eight channels at a rate that is not nought, and nothing else. */
  lemma WriterTakes(n: nat, rate: u32, channels: u16)
    ensures WriteError(n, rate, channels) ==
      FirstFailing([(1 <= channels <= 8, UnsupportedChannelCount), (rate > 0, WriteFailed),
                    (channels > 0 && n % channels == 0, WriteFailed)])
  {
    Three([(1 <= channels <= 8, UnsupportedChannelCount), (rate > 0, WriteFailed),
           (channels > 0 && n % channels == 0, WriteFailed)]);
    hide FirstFailing;
  }

  /** Two mono samples at 48 kHz, 1 and -2: the whole file, chunk by chunk. */
  const SMALL_RIFF: Bytes := [0x52, 0x49, 0x46, 0x46, 0x28, 0x00, 0x00, 0x00, 0x57, 0x41, 0x56, 0x45]

  const SMALL_FMT: Bytes := [
    0x66, 0x6D, 0x74, 0x20, 0x10, 0x00, 0x00, 0x00, 0x01, 0x00, 0x01, 0x00,
    0x80, 0xBB, 0x00, 0x00, 0x00, 0x77, 0x01, 0x00, 0x02, 0x00, 0x10, 0x00]

  const SMALL_DATA: Bytes := [0x64, 0x61, 0x74, 0x61, 0x04, 0x00, 0x00, 0x00, 0x01, 0x00, 0xFE, 0xFF]

  lemma SmallFile()
    ensures FileBytes([1, -2], 48_000, 1) == SMALL_RIFF + SMALL_FMT + SMALL_DATA
    ensures ReadBytes(SMALL_RIFF + SMALL_FMT + SMALL_DATA) ==
      ReadResult(NoError, WavInfo(48_000, 1, 16, 2), [1, -2])
  {
    SmallHeader();
    SmallSamples();
    Grouped(SMALL_RIFF, SMALL_FMT, DATA + Le32(4), SampleBytes([1, -2]));
    RoundTrip([1, -2], 48_000, 1, 2);
    hide ReadBytes, HeaderBytes, SampleBytes, Le32;
  }

  lemma Grouped(a: Bytes, b: Bytes, c: Bytes, e: Bytes)
    ensures a + b + c + e == a + b + (c + e)
  {}

  lemma SmallHeader()
    ensures HeaderBytes(2, 48_000, 1) == SMALL_RIFF + SMALL_FMT + (DATA + Le32(4))
  {
    SmallRiff();
    SmallFormat();
    assert Wrap32(36 + Wrap32(2 * 2)) == 40;
    hide Le32, FmtBody;
  }

  lemma SmallRiff()
    ensures RIFF + Le32(40) + WAVE == SMALL_RIFF
  {
    assert Le32(40) == [0x28, 0x00, 0x00, 0x00];
  }

  lemma SmallFormat()
    ensures FMT + Le32(16) + FmtBody(48_000, 1) == SMALL_FMT
  {
    assert Le32(16) == [0x10, 0x00, 0x00, 0x00] && Le16(1) == [0x01, 0x00];
    assert Le32(48_000) == [0x80, 0xBB, 0x00, 0x00] && Le32(96_000) == [0x00, 0x77, 0x01, 0x00];
    assert ByteRate(48_000, 1) == 96_000 && BlockAlign(1) == 2;
    assert Le16(2) == [0x02, 0x00] && Le16(16) == [0x10, 0x00];
    hide Le16, Le32, ByteRate, BlockAlign;
  }

  lemma SmallSamples()
    ensures DATA + Le32(4) + SampleBytes([1, -2]) == SMALL_DATA
  {
    TwoSamples();
    assert Le32(4) == [0x04, 0x00, 0x00, 0x00];
    hide Le32, SampleBytes;
  }

  lemma TwoSamples()
    ensures SampleBytes([1, -2]) == [0x01, 0x00, 0xFE, 0xFF]
  {
    assert [1, -2][..1] == [1] && [1][..0] == [];
    assert Le16(AsUnsigned(1)) == [0x01, 0x00] && Le16(AsUnsigned(-2)) == [0xFE, 0xFF];
    hide Le16;
  }
}
