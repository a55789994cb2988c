/** Reading, writing and downmixing WAV files, as the loops that do it. */
module Wavs {
  import opened Words
  import opened ByteOrder
  import opened WavSpec

  /** The format chunk; when it is malformed, what was described before stands unless the first sixteen
      bytes were there to replace it. */
  method TakeFmt(fmt: Bytes, before: WavInfo) returns (sound: bool, encoding: u16, info: WavInfo)
    requires before.frames == 0
    ensures info.frames == 0 && sound == SoundFmt(fmt) && (sound ==> encoding == EncodingOf(fmt))
    ensures info == if |fmt| < MIN_FMT_BYTES then before else FmtInfo(fmt, 0)
    ensures |fmt| < MIN_FMT_BYTES ==> !sound
  {
    hide LoadLe16, LoadLe32;
    if |fmt| < MIN_FMT_BYTES { return false, 0, before; }
    encoding := LoadLe16(fmt, 0);
    info := WavInfo(LoadLe32(fmt, 4), LoadLe16(fmt, 2), LoadLe16(fmt, 14), 0);
    if encoding == EXTENSIBLE {
      if |fmt| < EXTENSIBLE_FMT_BYTES { return false, encoding, info; }
      encoding := LoadLe16(fmt, 24);
    }
    sound := true;
  }

  /** The walk along the chunk list, noting where things are rather than copying them. */
  method Scan(file: Bytes)
    returns (error: WavError, haveFmt: bool, encoding: u16, info: WavInfo,
             haveData: bool, dataStart: nat, dataBytes: nat)
    requires |file| >= RIFF_HEADER_BYTES
    ensures dataStart + dataBytes <= |file|
    ensures WalkFrom(file, RIFF_HEADER_BYTES, NOTHING) ==
      if error == NoError then Done(Found(haveFmt, encoding, info, Picked(file, haveData, dataStart, dataBytes)))
      else Stopped(error, info)
  {
    hide LoadLe16, LoadLe32, SoundFmt, EncodingOf, FmtInfo;
    error, info, haveFmt, encoding := NoError, NO_INFO, false, 0;
    haveData, dataStart, dataBytes := false, 0, 0;
    var offset := RIFF_HEADER_BYTES;
    while offset + CHUNK_HEADER_BYTES <= |file|
      invariant dataStart + dataBytes <= |file|
      invariant error == NoError && info.frames == 0
      invariant WalkFrom(file, RIFF_HEADER_BYTES, NOTHING) ==
        WalkFrom(file, offset, Found(haveFmt, encoding, info, Picked(file, haveData, dataStart, dataBytes)))
      decreases |file| - offset
    {
      WalkStep(file, offset, Found(haveFmt, encoding, info, Picked(file, haveData, dataStart, dataBytes)));
      hide WalkFrom;
      var size, body := LoadLe32(file, offset + 4), offset + CHUNK_HEADER_BYTES;
      var tag := file[offset..offset + 4];
      if size > |file| - body {
        error := if tag == DATA then TruncatedData else MalformedChunk;
        return;
      }
      if tag == FMT {
        var sound, named, described := TakeFmt(file[body..body + size], info);
        info := described;
        if !sound {
          error := MalformedChunk;
          return;
        }
        encoding, haveFmt := named, true;
      } else if tag == DATA {
        haveData, dataStart, dataBytes := true, body, size;
      }
      offset := body + size + size % 2;
    }
  }

  method ReadWav(file: Bytes) returns (result: ReadResult)
    ensures result == ReadBytes(file)
  {
    hide WalkFrom, Finish;
    if |file| < RIFF_HEADER_BYTES { return Refuse(FileTooShort, NO_INFO); }
    if file[..4] != RIFF { return Refuse(NotRiff, NO_INFO); }
    if file[8..12] != WAVE { return Refuse(NotWave, NO_INFO); }
    var error, haveFmt, encoding, info, haveData, dataStart, dataBytes := Scan(file);
    if error != NoError { return Refuse(error, info); }
    result := Deliver(file, haveFmt, encoding, info, haveData, dataStart, dataBytes);
  }

  function Picked(file: Bytes, haveData: bool, start: nat, bytes: nat): Option<Bytes>
    requires start + bytes <= |file|
  { if haveData then Some(file[start..start + bytes]) else None }

  /** The checks after the walk, then the samples, one at a time. */
  method Deliver(
    file: Bytes, haveFmt: bool, encoding: u16, info: WavInfo, haveData: bool, dataStart: nat, dataBytes: nat)
    returns (result: ReadResult)
    requires dataStart + dataBytes <= |file|
    ensures result == Finish(Found(haveFmt, encoding, info, Picked(file, haveData, dataStart, dataBytes)))
  {
    hide LoadLe16;
    if !haveFmt { return Refuse(MissingFmtChunk, info); }
    if !haveData { return Refuse(MissingDataChunk, info); }
    if encoding != PCM { return Refuse(UnsupportedEncoding, info); }
    if info.bitsPerSample != 16 { return Refuse(UnsupportedBitDepth, info); }
    if info.channels == 0 || info.channels > 8 { return Refuse(UnsupportedChannelCount, info); }
    var bytesPerFrame := FrameBytes(info.channels);
    var frames := dataBytes / bytesPerFrame;
    WholeFramesFit(dataBytes, info.channels);
    var count := frames * info.channels;
    var data := file[dataStart..dataStart + dataBytes];
    var samples := Samples(data, count);
    result := ReadResult(NoError, info.(frames := frames), samples);
  }

  method Samples(data: Bytes, count: nat) returns (samples: seq<i16>)
    requires 2 * count <= |data|
    ensures samples == SamplesOf(data, count)
  {
    samples := [];
    for i := 0 to count
      invariant |samples| == i && forall k | 0 <= k < i :: samples[k] == SamplesOf(data, count)[k]
    {
      samples := samples + [AsSigned(LoadLe16(data, 2 * i))];
    }
  }

  method StoreTag(out: array<u8>, at: nat, tag: Bytes)
    requires |tag| == 4 && at + 4 <= out.Length
    modifies out
    ensures out[..at + 4] == old(out[..at]) + tag
    ensures forall i | at + 4 <= i < out.Length :: out[i] == old(out[i])
  {
    out[at], out[at + 1], out[at + 2], out[at + 3] := tag[0], tag[1], tag[2], tag[3];
  }

  method StoreFmtBody(out: array<u8>, at: nat, rate: u32, channels: u16)
    requires at + MIN_FMT_BYTES <= out.Length
    modifies out
    ensures out[..at + MIN_FMT_BYTES] == old(out[..at]) + FmtBody(rate, channels)
    ensures forall i | at + MIN_FMT_BYTES <= i < out.Length :: out[i] == old(out[i])
  {
    hide Le16, Le32, ByteRate;
    var blockAlign := BlockAlign(channels);
    StoreLe16(out, at, PCM);
    StoreLe16(out, at + 2, channels);
    StoreLe32(out, at + 4, rate);
    StoreLe32(out, at + 8, ByteRate(rate, channels));
    StoreLe16(out, at + 12, blockAlign);
    StoreLe16(out, at + 14, 16);
  }

  /** The header, stored field by field into its 44 bytes. */
  method Header(n: nat, rate: u32, channels: u16) returns (header: Bytes)
    ensures header == HeaderBytes(n, rate, channels)
  {
    hide Le32, Wrap32, FmtBody;
    var p := new u8[44](_ => 0);
    var dataBytes: int := Wrap32(2 * n);
    StoreTag(p, 0, RIFF);
    StoreLe32(p, 4, Wrap32(36 + dataBytes));
    StoreTag(p, 8, WAVE);
    StoreTag(p, 12, FMT);
    StoreLe32(p, 16, 16);
    StoreFmtBody(p, 20, rate, channels);
    StoreTag(p, 36, DATA);
    StoreLe32(p, 40, dataBytes);
    header := p[..];
    assert p[..44] == p[..];
  }

  /** The bytes handed to the file, in order. */
  method WriteWav(samples: seq<i16>, rate: u32, channels: u16) returns (error: WavError, file: Bytes)
    ensures error == WriteError(|samples|, rate, channels)
    ensures error == NoError ==> channels <= 8 && file == FileBytes(samples, rate, channels)
    ensures error != NoError ==> file == []
  {
    hide HeaderBytes, Le16;
    file := [];
    if channels == 0 || channels > 8 { return UnsupportedChannelCount, file; }
    if rate == 0 { return WriteFailed, file; }
    if |samples| % channels != 0 { return WriteFailed, file; }
    var header := Header(|samples|, rate, channels);
    file := header;
    for i := 0 to |samples|
      invariant file == header + SampleBytes(samples[..i])
    {
      assert samples[..i + 1][..i] == samples[..i];
      file := file + Le16(AsUnsigned(samples[i]));
    }
    assert samples[..|samples|] == samples;
    error := NoError;
  }

  /** One frame's channels added up. */
  method FrameTotal(interleaved: seq<i16>, start: nat, channels: u16) returns (total: int)
    requires start + channels <= |interleaved|
    ensures total == Sum(interleaved[start..start + channels])
  {
    var frame := interleaved[start..start + channels];
    total := 0;
    for c := 0 to channels
      invariant total == Sum(frame[..c])
    {
      assert frame[..c + 1][..c] == frame[..c];
      total := total + interleaved[start + c];
    }
    assert frame[..channels] == frame;
  }

  method DownmixToMono(interleaved: seq<i16>, channels: u16) returns (mono: seq<i16>)
    ensures mono == Downmix(interleaved, channels)
  {
    hide Sum, TruncDiv;
    if channels == 0 { return []; }
    if channels == 1 { return interleaved; }
    var frames := |interleaved| / channels;
    mono := [];
    for f := 0 to frames
      invariant |mono| == f && forall k | 0 <= k < f :: mono[k] == Downmix(interleaved, channels)[k]
    {
      FrameInside(|interleaved|, channels, f);
      var total := FrameTotal(interleaved, f * channels, channels);
      assert TruncDiv(total, channels) == Average(FrameAt(interleaved, channels, f));
      mono := mono + [TruncDiv(total, channels)];
    }
  }
}
