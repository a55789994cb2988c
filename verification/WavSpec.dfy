/** RIFF/WAVE files as bytes: what a reader finds by walking the chunk list, and what a writer lays down. */
module WavSpec {
  import opened Words
  import opened ByteOrder

  const RIFF: Bytes := [0x52, 0x49, 0x46, 0x46]
  const WAVE: Bytes := [0x57, 0x41, 0x56, 0x45]
  const FMT: Bytes := [0x66, 0x6D, 0x74, 0x20]
  const DATA: Bytes := [0x64, 0x61, 0x74, 0x61]

  const PCM: u16 := 0x0001
  const EXTENSIBLE: u16 := 0xFFFE
  const RIFF_HEADER_BYTES: int := 12
  const CHUNK_HEADER_BYTES: int := 8
  const MIN_FMT_BYTES: int := 16
  const EXTENSIBLE_FMT_BYTES: int := 40

  datatype WavError =
    | NoError | FileTooShort | NotRiff | NotWave | MissingFmtChunk | MissingDataChunk | MalformedChunk
    | UnsupportedEncoding | UnsupportedBitDepth | UnsupportedChannelCount | TruncatedData | WriteFailed

  datatype WavInfo = WavInfo(sampleRateHz: u32, channels: u16, bitsPerSample: u16, frames: nat)

  const NO_INFO := WavInfo(0, 0, 0, 0)

  datatype ReadResult = ReadResult(error: WavError, info: WavInfo, samples: seq<i16>)

  /** What the walk has picked up so far. */
  datatype Found = Found(haveFmt: bool, encoding: u16, info: WavInfo, data: Option<Bytes>)

  const NOTHING := Found(false, 0, NO_INFO, None)

  datatype Walked = Done(found: Found) | Stopped(error: WavError, info: WavInfo)

  function AsSigned(v: u16): i16 { if v < 0x8000 then v else v - 0x1_0000 }

  function AsUnsigned(s: i16): u16 { if s >= 0 then s else s + 0x1_0000 }

  // ---------------------------------------------------------------- reading

  function FmtInfo(body: Bytes, frames: nat): WavInfo
    requires |body| >= MIN_FMT_BYTES
  { WavInfo(LoadLe32(body, 4), LoadLe16(body, 2), LoadLe16(body, 14), frames) }

  predicate SoundFmt(body: Bytes) {
    |body| >= MIN_FMT_BYTES && (LoadLe16(body, 0) == EXTENSIBLE ==> |body| >= EXTENSIBLE_FMT_BYTES)
  }

  /** The encoding a format chunk names, through its subformat when it is extensible. */
  function EncodingOf(body: Bytes): u16
    requires SoundFmt(body)
  { if LoadLe16(body, 0) == EXTENSIBLE then LoadLe16(body, 24) else LoadLe16(body, 0) }

  function Visit(f: Found, tag: Bytes, body: Bytes): Walked {
    if tag == FMT then
      if |body| < MIN_FMT_BYTES then Stopped(MalformedChunk, f.info)
      else if !SoundFmt(body) then Stopped(MalformedChunk, FmtInfo(body, f.info.frames))
      else Done(f.(haveFmt := true, encoding := EncodingOf(body), info := FmtInfo(body, f.info.frames)))
    else if tag == DATA then Done(f.(data := Some(body)))
    else Done(f)
  }

  function WalkFrom(file: Bytes, offset: nat, f: Found): Walked
    decreases |file| - offset
  {
    if offset + CHUNK_HEADER_BYTES > |file| then Done(f)
    else
      var size, body := LoadLe32(file, offset + 4), offset + CHUNK_HEADER_BYTES;
      var tag := file[offset..offset + 4];
      if size > |file| - body then Stopped(if tag == DATA then TruncatedData else MalformedChunk, f.info)
      else
        match Visit(f, tag, file[body..body + size])
        case Stopped(error, info) => Stopped(error, info)
        case Done(g) => WalkFrom(file, body + size + size % 2, g)
  }

  /** The three ways a chunk leaves the walk. */
  lemma WalkStep(file: Bytes, offset: nat, f: Found)
    requires offset + CHUNK_HEADER_BYTES <= |file|
    ensures var size, body := LoadLe32(file, offset + 4), offset + CHUNK_HEADER_BYTES;
      var tag := file[offset..offset + 4];
      WalkFrom(file, offset, f) ==
        if size > |file| - body then Stopped(if tag == DATA then TruncatedData else MalformedChunk, f.info)
        else
          var w := Visit(f, tag, file[body..body + size]);
          if w.Stopped? then w else WalkFrom(file, body + size + size % 2, w.found)
  {
    hide LoadLe32, Visit;
  }

  function SamplesOf(data: Bytes, n: nat): seq<i16>
    requires 2 * n <= |data|
  { seq(n, i requires 0 <= i < n => AsSigned(LoadLe16(data, 2 * i))) }

  function FrameBytes(channels: u16): nat { channels * 2 }

  function Refuse(error: WavError, info: WavInfo): ReadResult { ReadResult(error, info, []) }

  /** What is made of a completed walk. */
  function Finish(f: Found): ReadResult {
    if !f.haveFmt then Refuse(MissingFmtChunk, f.info)
    else if f.data.None? then Refuse(MissingDataChunk, f.info)
    else if f.encoding != PCM then Refuse(UnsupportedEncoding, f.info)
    else if f.info.bitsPerSample != 16 then Refuse(UnsupportedBitDepth, f.info)
    else if f.info.channels == 0 || f.info.channels > 8 then Refuse(UnsupportedChannelCount, f.info)
    else
      var frames := |f.data.value| / FrameBytes(f.info.channels);
      WholeFramesFit(|f.data.value|, f.info.channels);
      ReadResult(NoError, f.info.(frames := frames), SamplesOf(f.data.value, frames * f.info.channels))
  }

  lemma WholeFramesFit(bytes: nat, channels: u16)
    requires channels > 0
    ensures 0 <= 2 * (bytes / FrameBytes(channels) * channels) <= bytes
  {
    Regroup(bytes / FrameBytes(channels), channels);
    WholePart(bytes, FrameBytes(channels));
  }

  lemma WholePart(n: nat, size: nat)
    requires size > 0
    ensures 0 <= n / size * size <= n
  {}

  lemma Regroup(q: nat, c: nat)
    ensures 2 * (q * c) == q * (c * 2) && q * c >= 0
  {}

  function ReadBytes(file: Bytes): ReadResult {
    if |file| < RIFF_HEADER_BYTES then Refuse(FileTooShort, NO_INFO)
    else if file[..4] != RIFF then Refuse(NotRiff, NO_INFO)
    else if file[8..12] != WAVE then Refuse(NotWave, NO_INFO)
    else
      match WalkFrom(file, RIFF_HEADER_BYTES, NOTHING)
      case Stopped(error, info) => Refuse(error, info)
      case Done(found) => Finish(found)
  }

  // ---------------------------------------------------------------- writing

  function SampleBytes(samples: seq<i16>): (b: Bytes)
    ensures |b| == 2 * |samples|
  {
    if samples == [] then []
    else SampleBytes(samples[..|samples| - 1]) + Le16(AsUnsigned(samples[|samples| - 1]))
  }

  function BlockAlign(channels: u16): u16 { FrameBytes(channels) % 0x1_0000 }

  function ByteRate(rate: u32, channels: u16): u32 {
    var r: int := rate;
    Wrap32(r * BlockAlign(channels))
  }

  function FmtBody(rate: u32, channels: u16): (b: Bytes)
    ensures |b| == MIN_FMT_BYTES
  {
    Le16(PCM) + Le16(channels) + Le32(rate) + Le32(ByteRate(rate, channels)) + Le16(BlockAlign(channels)) + Le16(16)
  }

  /** The 44-byte header; both size fields and the byte rate are 32-bit words. */
  function HeaderBytes(n: nat, rate: u32, channels: u16): (b: Bytes)
    ensures |b| == 44
  {
    (RIFF + Le32(Wrap32(36 + Wrap32(2 * n))) + WAVE) + (FMT + Le32(16) + FmtBody(rate, channels))
    + (DATA + Le32(Wrap32(2 * n)))
  }

  function WriteError(n: nat, rate: u32, channels: u16): WavError {
    if channels == 0 || channels > 8 then UnsupportedChannelCount
    else if rate == 0 || n % channels != 0 then WriteFailed
    else NoError
  }

  function FileBytes(samples: seq<i16>, rate: u32, channels: u16): Bytes
  { HeaderBytes(|samples|, rate, channels) + SampleBytes(samples) }

  // ---------------------------------------------------------------- downmixing

  function Sum(s: seq<i16>): int { if s == [] then 0 else Sum(s[..|s| - 1]) + s[|s| - 1] }

  /** The frame's samples added up fit a 32-bit signed word for every channel count. */
  lemma {:induction false} SumFits(s: seq<i16>)
    ensures -0x8000 * |s| <= Sum(s) <= 0x7FFF * |s|
    ensures |s| < 0x1_0000 ==> -0x8000_0000 <= Sum(s) < 0x8000_0000
  {
    if s != [] { SumFits(s[..|s| - 1]); }
  }

  lemma QuotientBetween(total: int, n: nat, lo: int, hi: int)
    requires n > 0 && lo * n <= total <= hi * n
    ensures lo <= total / n <= hi
  {
    var q := total / n;
    assert q * n <= total < q * n + n;
    if q < lo {
      Ordered(q + 1, lo, n);
      assert false;
    }
    if q > hi {
      Ordered(hi, q - 1, n);
      assert false;
    }
  }

  lemma Ordered(a: int, b: int, n: nat)
    requires a <= b
    ensures a * n <= b * n
  {}

  /** Division toward zero stays within whole bounds. */
  lemma TruncStaysBetween(total: int, n: nat, lo: int, hi: int)
    requires n > 0 && lo * n <= total <= hi * n
    ensures lo <= TruncDiv(total, n) <= hi
  {
    if total >= 0 {
      QuotientBetween(total, n, lo, hi);
    } else {
      Negate(lo, n);
      Negate(hi, n);
      QuotientBetween(-total, n, -hi, -lo);
    }
  }

  lemma Negate(a: int, n: int)
    ensures (-a) * n == -(a * n)
  {}

  function Average(frame: seq<i16>): i16
    requires frame != []
  {
    SumFits(frame);
    TruncStaysBetween(Sum(frame), |frame|, -0x8000, 0x7FFF);
    TruncDiv(Sum(frame), |frame|)
  }

  lemma FrameInside(n: nat, channels: nat, f: nat)
    requires channels > 0 && f < n / channels
    ensures f * channels + channels <= n
  {
    assert (f + 1) * channels <= n / channels * channels;
  }

  function FrameAt(s: seq<i16>, channels: nat, f: nat): (r: seq<i16>)
    requires channels > 0 && f < |s| / channels
    ensures |r| == channels
  {
    FrameInside(|s|, channels, f);
    s[f * channels..f * channels + channels]
  }

  function Downmix(s: seq<i16>, channels: u16): seq<i16> {
    if channels == 0 then [] else if channels == 1 then s
    else seq(|s| / channels, f requires 0 <= f < |s| / channels => Average(FrameAt(s, channels, f)))
  }

  lemma {:induction false} SumBetween(s: seq<i16>, lo: int, hi: int)
    requires forall i | 0 <= i < |s| :: lo <= s[i] <= hi
    ensures lo * |s| <= Sum(s) <= hi * |s|
  {
    if s != [] { SumBetween(s[..|s| - 1], lo, hi); }
  }

  /** Every mono sample lies within its own frame's range, so a frame whose channels agree comes out
      unchanged; one channel is passed through, and trailing samples short of a frame are dropped. */
  lemma DownmixStaysInFrame(s: seq<i16>, channels: u16, f: nat, lo: int, hi: int)
    requires channels > 0 && f < |s| / channels
    requires forall c | 0 <= c < channels :: lo <= FrameAt(s, channels, f)[c] <= hi
    ensures |Downmix(s, channels)| == |s| / channels && lo <= Downmix(s, channels)[f] <= hi
  {
    var frame := FrameAt(s, channels, f);
    SumBetween(frame, lo, hi);
    TruncStaysBetween(Sum(frame), |frame|, lo, hi);
    if channels == 1 { assert frame[0] == s[f]; }
  }

  /** The sum leaves no sample out and counts none twice. */
  lemma {:induction false} SumIsAdditive(a: seq<i16>, b: seq<i16>)
    ensures Sum(a + b) == Sum(a) + Sum(b)
    ensures |a| == 1 ==> Sum(a) == a[0]
  {
    if b == [] {
      assert a + b == a;
    } else {
      var before := b[..|b| - 1];
      SumIsAdditive(a, before);
      assert (a + b)[..|a + b| - 1] == a + before;
    }
    if |a| == 1 { assert a[..0] == []; }
  }

  /** Each mono sample is its own frame's mean, rounded toward zero: less than one off, and never farther from
      zero than the mean. */
  lemma DownmixIsMean(s: seq<i16>, channels: u16, f: nat)
    requires channels > 0 && f < |s| / channels
    ensures f * channels + channels <= |s| && |Downmix(s, channels)| == |s| / channels
    ensures var total, mean := Sum(s[f * channels..f * channels + channels]), Downmix(s, channels)[f];
      if total >= 0 then mean * channels <= total < mean * channels + channels
      else mean * channels - channels < total <= mean * channels
  {
    FrameInside(|s|, channels, f);
    var frame := FrameAt(s, channels, f);
    if channels == 1 {
      assert frame == [s[f]];
      SumIsAdditive(frame, []);
    }
    TruncatedMean(Sum(frame), channels);
  }

  lemma TruncatedMean(total: int, n: nat)
    requires n > 0
    ensures var mean := TruncDiv(total, n);
      if total >= 0 then mean * n <= total < mean * n + n else mean * n - n < total <= mean * n
  {
    if total < 0 { Negate((-total) / n, n); }
  }

  /** Two channels: the half of their sum. */
  lemma StereoIsHalfSum(s: seq<i16>, f: nat)
    requires f < |s| / 2
    ensures |Downmix(s, 2)| == |s| / 2
    ensures var left: int := s[2 * f]; var right: int := s[2 * f + 1]; Downmix(s, 2)[f] == TruncDiv(left + right, 2)
  {
    var frame := FrameAt(s, 2, f);
    assert frame == [s[2 * f]] + [s[2 * f + 1]];
    SumIsAdditive([s[2 * f]], [s[2 * f + 1]]);
    SumIsAdditive([s[2 * f + 1]], []);
    hide Sum;
  }
}
