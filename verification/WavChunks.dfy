/** Any RIFF body is a chunk list, and the reader's walk is a walk of exactly that list. */
module WavChunks {
  import opened Words
  import opened ByteOrder
  import opened Modular
  import opened WavSpec

  datatype Chunk = Chunk(tag: Bytes, body: Bytes, pad: Bytes)

  /** Padded to an even length by one byte of anything, which the declared size does not count. */
  predicate WellPadded(c: Chunk) { |c.tag| == 4 && |c.body| < 0x1_0000_0000 && |c.pad| == |c.body| % 2 }

  predicate AllPadded(chunks: seq<Chunk>) { forall i | 0 <= i < |chunks| :: WellPadded(chunks[i]) }

  function ChunkBytes(c: Chunk): (b: Bytes)
    requires |c.body| < 0x1_0000_0000
    ensures |b| == |c.tag| + 4 + |c.body| + |c.pad|
  { c.tag + Le32(|c.body|) + c.body + c.pad }

  function Concat(chunks: seq<Chunk>): Bytes
    requires AllPadded(chunks)
  { if chunks == [] then [] else ChunkBytes(chunks[0]) + Concat(chunks[1..]) }

  /** What a reader of the list itself, rather than of bytes, would find. */
  function VisitAll(f: Found, chunks: seq<Chunk>): Walked
    decreases |chunks|
  {
    if chunks == [] then Done(f)
    else
      match Visit(f, chunks[0].tag, chunks[0].body)
      case Stopped(error, info) => Stopped(error, info)
      case Done(g) => VisitAll(g, chunks[1..])
  }

  /** Resume the walk after the chunks already seen. */
  function Resume(w: Walked, file: Bytes, offset: nat): Walked {
    match w
    case Stopped(error, info) => Stopped(error, info)
    case Done(g) => WalkFrom(file, offset, g)
  }

  /** From `at` on, the file holds `s`. */
  ghost predicate Holds(file: Bytes, at: nat, s: Bytes) { at <= |file| && file[at..] == s }

  lemma Advance(file: Bytes, at: nat, s: Bytes, rest: Bytes)
    requires Holds(file, at, s + rest)
    ensures Holds(file, at + |s|, rest)
  {
    assert (s + rest)[|s|..] == rest;
    assert file[at..][|s|..] == file[at + |s|..];
  }

  lemma HeaderReads(file: Bytes, at: nat, c: Chunk, rest: Bytes)
    requires |c.tag| == 4 && |c.body| < 0x1_0000_0000 && Holds(file, at, ChunkBytes(c) + rest)
    ensures at + 8 + |c.body| <= |file|
    ensures LoadLe32(file, at + 4) == |c.body| && file[at..at + 4] == c.tag
    ensures file[at + 8..at + 8 + |c.body|] == c.body
  {
    hide Le32, LoadLe32;
    var before := file[..at];
    assert file == before + (ChunkBytes(c) + rest);
    assert file == (before + c.tag) + Le32(|c.body|) + (c.body + c.pad + rest);
    LoadStored32(before + c.tag, |c.body|, c.body + c.pad + rest);
  }

  /** One chunk, padded or last in the file, is one visit. */
  lemma WalkOne(file: Bytes, at: nat, c: Chunk, rest: Bytes, f: Found)
    requires |c.tag| == 4 && |c.body| < 0x1_0000_0000 && Holds(file, at, ChunkBytes(c) + rest)
    ensures WalkFrom(file, at, f) == Resume(Visit(f, c.tag, c.body), file, at + 8 + |c.body| + |c.body| % 2)
  {
    HeaderReads(file, at, c, rest);
    hide Visit, LoadLe32, ChunkBytes, Le32, Holds;
  }

  /** The walk over a run of padded chunks visits exactly those chunks, in order, and comes out where
      they end. */
  lemma {:induction false} WalkVisitsExactly(file: Bytes, at: nat, chunks: seq<Chunk>, rest: Bytes, f: Found)
    requires AllPadded(chunks) && Holds(file, at, Concat(chunks) + rest)
    ensures WalkFrom(file, at, f) == Resume(VisitAll(f, chunks), file, at + |Concat(chunks)|)
    decreases |chunks|
  {
    hide *;
    if chunks == [] {
      NoChunks(chunks, f);
      ResumeUnfolds(VisitAll(f, chunks), file, at);
    } else {
      var c, tail := chunks[0], chunks[1..];
      FirstOfMany(chunks, rest, f);
      var next, w := at + |ChunkBytes(c)|, Visit(f, c.tag, c.body);
      WalkOne(file, at, c, Concat(tail) + rest, f);
      Advance(file, at, ChunkBytes(c), Concat(tail) + rest);
      ResumeUnfolds(w, file, next);
      ResumeUnfolds(VisitAll(f, chunks), file, at + |Concat(chunks)|);
      if w.Done? {
        WalkVisitsExactly(file, next, tail, rest, w.found);
        ResumeUnfolds(VisitAll(w.found, tail), file, next + |Concat(tail)|);
      }
    }
  }

  lemma NoChunks(chunks: seq<Chunk>, f: Found)
    requires chunks == [] && AllPadded(chunks)
    ensures Concat(chunks) == [] && VisitAll(f, chunks) == Done(f)
  {}

  lemma ResumeUnfolds(w: Walked, file: Bytes, offset: nat)
    ensures Resume(w, file, offset) == if w.Done? then WalkFrom(file, offset, w.found) else w
  {
    hide WalkFrom;
  }

  lemma FirstOfMany(chunks: seq<Chunk>, rest: Bytes, f: Found)
    requires AllPadded(chunks) && chunks != []
    ensures var c, tail := chunks[0], chunks[1..];
      && WellPadded(c) && |c.tag| == 4 && |c.body| < 0x1_0000_0000 && AllPadded(tail)
      && Concat(chunks) + rest == ChunkBytes(c) + (Concat(tail) + rest)
      && |ChunkBytes(c)| == 8 + |c.body| + |c.body| % 2 && |Concat(chunks)| == |ChunkBytes(c)| + |Concat(tail)|
    ensures var w := Visit(f, chunks[0].tag, chunks[0].body);
      VisitAll(f, chunks) == if w.Done? then VisitAll(w.found, chunks[1..]) else w
  {
    hide Visit, Le32;
    var c, tail := chunks[0], chunks[1..];
    assert ChunkBytes(c) + Concat(tail) + rest == ChunkBytes(c) + (Concat(tail) + rest);
  }

  // ---------------------------------------------------------------- the last of each kind

  function LastBody(chunks: seq<Chunk>, tag: Bytes): Option<Bytes> {
    if chunks == [] then None
    else if LastBody(chunks[1..], tag).Some? then LastBody(chunks[1..], tag)
    else if chunks[0].tag == tag then Some(chunks[0].body) else None
  }

  predicate FmtsAreSound(chunks: seq<Chunk>) {
    forall i | 0 <= i < |chunks| && chunks[i].tag == FMT :: SoundFmt(chunks[i].body)
  }

  /** `f` updated by a format body and a data body, where there are any. */
  function Taking(f: Found, fmt: Option<Bytes>, data: Option<Bytes>): Found
    requires fmt.Some? ==> SoundFmt(fmt.value)
  {
    var g := f.(data := if data.Some? then data else f.data);
    if fmt.None? then g
    else g.(haveFmt := true, encoding := EncodingOf(fmt.value), info := FmtInfo(fmt.value, f.info.frames))
  }

  lemma {:induction false} LastFmtIsSound(chunks: seq<Chunk>)
    requires FmtsAreSound(chunks)
    ensures LastBody(chunks, FMT).Some? ==> SoundFmt(LastBody(chunks, FMT).value)
  {
    if chunks != [] { LastFmtIsSound(chunks[1..]); }
  }

  /** Only the last format chunk and the last data chunk matter, wherever they stand and whatever stands
      between them; one malformed format chunk anywhere refuses the file. */
  lemma {:induction false} OnlyTheLastMatter(f: Found, chunks: seq<Chunk>)
    ensures FmtsAreSound(chunks) ==>
      (LastBody(chunks, FMT).Some? ==> SoundFmt(LastBody(chunks, FMT).value))
      && VisitAll(f, chunks) == Done(Taking(f, LastBody(chunks, FMT), LastBody(chunks, DATA)))
    ensures !FmtsAreSound(chunks) ==> VisitAll(f, chunks).Stopped? && VisitAll(f, chunks).error == MalformedChunk
    decreases |chunks|
  {
    if chunks != [] {
      var c, tail := chunks[0], chunks[1..];
      var w := Visit(f, c.tag, c.body);
      assert FmtsAreSound(chunks) <==> (c.tag == FMT ==> SoundFmt(c.body)) && FmtsAreSound(tail) by {
        hide SoundFmt;
        if FmtsAreSound(chunks) { assert forall i | 0 <= i < |tail| :: tail[i] == chunks[i + 1]; }
        if (c.tag == FMT ==> SoundFmt(c.body)) && FmtsAreSound(tail) {
          assert forall i | 1 <= i < |chunks| :: chunks[i] == tail[i - 1];
        }
      }
      if w.Done? { OnlyTheLastMatter(w.found, tail); }
      hide SoundFmt, EncodingOf, FmtInfo, FmtsAreSound;
    }
  }

  // ---------------------------------------------------------------- whole files

  /** A RIFF header with any declared size, which the reader does not look at, then the chunks, then what
      is left over. */
  function RiffFile(size: u32, chunks: seq<Chunk>, rest: Bytes): Bytes
    requires AllPadded(chunks)
  { RIFF + Le32(size) + WAVE + Concat(chunks) + rest }

  lemma RiffShape(size: u32, chunks: seq<Chunk>, rest: Bytes)
    requires AllPadded(chunks)
    ensures var file := RiffFile(size, chunks, rest);
      && |file| == RIFF_HEADER_BYTES + |Concat(chunks)| + |rest| && file[..4] == RIFF && file[8..12] == WAVE
      && Holds(file, RIFF_HEADER_BYTES, Concat(chunks) + rest)
      && Holds(file, RIFF_HEADER_BYTES + |Concat(chunks)|, rest)
  {
    hide Le32, Concat;
    var header := RIFF + Le32(size) + WAVE;
    var file := RiffFile(size, chunks, rest);
    assert file == header + (Concat(chunks) + rest);
    assert file[..4] == header[..4] && file[8..12] == header[8..12];
    Advance(file, RIFF_HEADER_BYTES, Concat(chunks), rest);
  }

  lemma ReadsWhatIsWalked(size: u32, chunks: seq<Chunk>, rest: Bytes)
    requires AllPadded(chunks)
    ensures var file := RiffFile(size, chunks, rest);
      ReadBytes(file) ==
        match Resume(VisitAll(NOTHING, chunks), file, RIFF_HEADER_BYTES + |Concat(chunks)|)
        case Stopped(error, info) => Refuse(error, info)
        case Done(found) => Finish(found)
  {
    RiffShape(size, chunks, rest);
    hide RiffFile, Le32, WalkFrom, Concat, VisitAll, Finish, Holds;
    WalkVisitsExactly(RiffFile(size, chunks, rest), RIFF_HEADER_BYTES, chunks, rest, NOTHING);
  }

  /** On any chunk list, in any order, with any chunks the reader does not know and up to seven bytes
      left over, the file reads as its last data chunk under its last format chunk. */
  lemma ReadsAnyChunkOrder(size: u32, chunks: seq<Chunk>, rest: Bytes)
    requires AllPadded(chunks) && |rest| < CHUNK_HEADER_BYTES
    ensures FmtsAreSound(chunks) ==>
      (LastBody(chunks, FMT).Some? ==> SoundFmt(LastBody(chunks, FMT).value))
      && ReadBytes(RiffFile(size, chunks, rest)) ==
           Finish(Taking(NOTHING, LastBody(chunks, FMT), LastBody(chunks, DATA)))
    ensures !FmtsAreSound(chunks) ==> ReadBytes(RiffFile(size, chunks, rest)).error == MalformedChunk
  {
    ReadsWhatIsWalked(size, chunks, rest);
    OnlyTheLastMatter(NOTHING, chunks);
    hide ReadBytes, VisitAll, Finish, FmtsAreSound, LastBody, SoundFmt, Taking;
  }

  /** The pad byte of a last odd chunk may be missing: the file reads the same with it and without. */
  lemma LastPadMayBeMissing(size: u32, chunks: seq<Chunk>, last: Chunk, pad: u8)
    requires AllPadded(chunks) && |last.tag| == 4 && |last.body| < 0x1_0000_0000
    requires |last.body| % 2 == 1 && last.pad == []
    ensures ReadBytes(RiffFile(size, chunks, ChunkBytes(last))) ==
      ReadBytes(RiffFile(size, chunks, ChunkBytes(last.(pad := [pad]))))
  {
    var padded := last.(pad := [pad]);
    var short, long := RiffFile(size, chunks, ChunkBytes(last)), RiffFile(size, chunks, ChunkBytes(padded));
    ReadsWhatIsWalked(size, chunks, ChunkBytes(last));
    ReadsWhatIsWalked(size, chunks, ChunkBytes(padded));
    RiffShape(size, chunks, ChunkBytes(last));
    RiffShape(size, chunks, ChunkBytes(padded));
    assert ChunkBytes(last) == ChunkBytes(last) + [] && ChunkBytes(padded) == ChunkBytes(padded) + [];
    var w, at := VisitAll(NOTHING, chunks), RIFF_HEADER_BYTES + |Concat(chunks)|;
    hide ReadBytes, VisitAll, Visit, Finish, Concat, ChunkBytes, RiffFile, Holds;
    if w.Done? {
      WalkOne(short, at, last, [], w.found);
      WalkOne(long, at, padded, [], w.found);
    }
  }

  /** A chunk that declares more than is left stops the reader: as truncated if it is data, as malformed
      otherwise, and only once every format chunk before it has been found sound. */
  lemma CutShort(size: u32, chunks: seq<Chunk>, tag: Bytes, declared: u32, left: Bytes)
    requires AllPadded(chunks) && |tag| == 4 && |left| < declared
    ensures ReadBytes(RiffFile(size, chunks, Declaring(tag, declared, left))).error ==
      if FmtsAreSound(chunks) && tag == DATA then TruncatedData else MalformedChunk
  {
    var rest := Declaring(tag, declared, left);
    var file, at := RiffFile(size, chunks, rest), RIFF_HEADER_BYTES + |Concat(chunks)|;
    ReadsWhatIsWalked(size, chunks, rest);
    OnlyTheLastMatter(NOTHING, chunks);
    RiffShape(size, chunks, rest);
    DeclarationReads(file, at, tag, declared, left);
    hide ReadBytes, VisitAll, Visit, Finish, Concat, LoadLe32, Le32, FmtsAreSound, LastBody, RiffFile, Holds;
  }

  lemma DeclarationReads(file: Bytes, at: nat, tag: Bytes, declared: u32, left: Bytes)
    requires |tag| == 4 && Holds(file, at, Declaring(tag, declared, left))
    ensures |file| == at + 8 + |left| && LoadLe32(file, at + 4) == declared && file[at..at + 4] == tag
  {
    hide Le32, LoadLe32;
    var before := file[..at];
    assert file == (before + tag) + Le32(declared) + left;
    LoadStored32(before + tag, declared, left);
  }

  /** An odd chunk at the very end, without its pad. */
  ghost predicate LastUnpadded(rest: Bytes) {
    exists c: Chunk ::
      |c.tag| == 4 && |c.body| < 0x1_0000_0000 && |c.body| % 2 == 1 && c.pad == [] && rest == ChunkBytes(c)
  }

  /** A chunk that declares more than is left. */
  ghost predicate Overdeclared(rest: Bytes) {
    exists tag: Bytes, declared: u32, left: Bytes ::
      |tag| == 4 && |left| < declared && rest == Declaring(tag, declared, left)
  }

  function Declaring(tag: Bytes, declared: u32, left: Bytes): Bytes { tag + Le32(declared) + left }

  /** Every RIFF body is such a list: padded chunks, then fewer than eight bytes, an odd last chunk
      without its pad, or a chunk that declares more than is left. */
  lemma {:induction false} EveryBodyIsChunks(body: Bytes) returns (chunks: seq<Chunk>, rest: Bytes)
    ensures AllPadded(chunks) && body == Concat(chunks) + rest
    ensures |rest| < CHUNK_HEADER_BYTES || LastUnpadded(rest) || Overdeclared(rest)
    decreases |body|
  {
    if |body| < CHUNK_HEADER_BYTES { return [], body; }
    var tag, declared, left := body[..4], LoadLe32(body, 4), body[8..];
    StoreLoaded32(body, 4);
    assert body == Declaring(tag, declared, left);
    hide LoadLe32, Le32;
    if declared > |left| {
      assert Overdeclared(body);
      return [], body;
    }
    hide Overdeclared;
    if declared == |left| && declared % 2 == 1 {
      var c := Chunk(tag, left, []);
      assert body == ChunkBytes(c);
      assert LastUnpadded(body);
      return [], body;
    }
    hide LastUnpadded;
    var c, after := FirstChunk(tag, declared, left);
    var others, tail := EveryBodyIsChunks(after);
    chunks, rest := [c] + others, tail;
    PrependChunk(c, others, tail);
  }

  lemma FirstChunk(tag: Bytes, declared: u32, left: Bytes) returns (c: Chunk, after: Bytes)
    requires |tag| == 4 && declared <= |left| && !(declared == |left| && declared % 2 == 1)
    ensures WellPadded(c) && Declaring(tag, declared, left) == ChunkBytes(c) + after
  {
    c := Chunk(tag, left[..declared], left[declared..declared + declared % 2]);
    after := left[declared + declared % 2..];
    assert left == c.body + c.pad + after;
  }

  lemma PrependChunk(c: Chunk, others: seq<Chunk>, rest: Bytes)
    requires WellPadded(c) && AllPadded(others)
    ensures AllPadded([c] + others) && ChunkBytes(c) + (Concat(others) + rest) == Concat([c] + others) + rest
  {
    assert ([c] + others)[1..] == others;
  }

  // ---------------------------------------------------------------- writing and reading back

  lemma FmtBodyReads(rate: u32, channels: u16)
    ensures var body := FmtBody(rate, channels);
      && LoadLe16(body, 0) == PCM && SoundFmt(body) && EncodingOf(body) == PCM
      && FmtInfo(body, 0) == WavInfo(rate, channels, 16, 0)
  {
    hide Le16, Le32, LoadLe16, LoadLe32, ByteRate, BlockAlign;
    var body := FmtBody(rate, channels);
    LoadAt16(body, 0, PCM);
    LoadAt16(body, 2, channels);
    LoadAt32(body, 4, rate);
    LoadAt16(body, 14, 16);
  }

  lemma {:induction false} SamplesReadBack(samples: seq<i16>, rest: Bytes)
    ensures SamplesOf(SampleBytes(samples) + rest, |samples|) == samples
  {
    if samples != [] {
      var before, last := samples[..|samples| - 1], samples[|samples| - 1];
      var word := Le16(AsUnsigned(last));
      var data := SampleBytes(samples) + rest;
      assert data == SampleBytes(before) + (word + rest) == SampleBytes(before) + word + rest;
      SamplesReadBack(before, word + rest);
      LoadStored16(SampleBytes(before), AsUnsigned(last), rest);
      hide LoadLe16, Le16;
      assert forall i | 0 <= i < |before| :: SamplesOf(data, |samples|)[i] == SamplesOf(data, |before|)[i];
    }
  }

  function FmtChunk(rate: u32, channels: u16): (c: Chunk)
    ensures WellPadded(c)
  { Chunk(FMT, FmtBody(rate, channels), []) }

  /** Declares its size modulo 2^32, so holds that much of the samples. */
  function DataChunk(samples: seq<i16>): (c: Chunk)
    ensures WellPadded(c)
  { Chunk(DATA, SampleBytes(samples)[..Wrap32(2 * |samples|)], []) }

  function Undeclared(samples: seq<i16>): Bytes { SampleBytes(samples)[Wrap32(2 * |samples|)..] }

  /** The three headers of a written file. */
  function RiffHeader(size: u32): Bytes { RIFF + Le32(size) + WAVE }
  function FmtHeaded(body: Bytes): Bytes { FMT + Le32(16) + body }
  function DataHeader(size: u32): Bytes { DATA + Le32(size) }

  /** A written file is a RIFF file of a format chunk and a data chunk. */
  lemma WrittenIsChunks(samples: seq<i16>, rate: u32, channels: u16)
    ensures var chunks := [FmtChunk(rate, channels), DataChunk(samples)];
      FileBytes(samples, rate, channels) ==
        RiffFile(Wrap32(36 + Wrap32(2 * |samples|)), chunks, Undeclared(samples))
  {
    var declared: int := Wrap32(2 * |samples|);
    var size := Wrap32(36 + declared);
    WriterParts(samples, rate, channels);
    PairBytes(rate, channels, samples);
    RiffParts(size, [FmtChunk(rate, channels), DataChunk(samples)], Undeclared(samples));
    hide *;
    Interleave(
      RiffHeader(size), FmtHeaded(FmtBody(rate, channels)), DataHeader(declared), DataChunk(samples).body,
      Undeclared(samples));
  }

  lemma WriterParts(samples: seq<i16>, rate: u32, channels: u16)
    ensures var declared: int := Wrap32(2 * |samples|);
      FileBytes(samples, rate, channels) ==
        RiffHeader(Wrap32(36 + declared)) + FmtHeaded(FmtBody(rate, channels)) + DataHeader(declared)
        + (DataChunk(samples).body + Undeclared(samples))
  {
    assert DataChunk(samples).body + Undeclared(samples) == SampleBytes(samples);
    hide Wrap32, FmtBody, SampleBytes, Le32, DataChunk, Undeclared;
  }

  lemma RiffParts(size: u32, chunks: seq<Chunk>, rest: Bytes)
    requires AllPadded(chunks)
    ensures RiffFile(size, chunks, rest) == RiffHeader(size) + Concat(chunks) + rest
  {}

  lemma PairBytes(rate: u32, channels: u16, samples: seq<i16>)
    ensures Concat([FmtChunk(rate, channels), DataChunk(samples)]) ==
      FmtHeaded(FmtBody(rate, channels)) + ((DataHeader(Wrap32(2 * |samples|)) + DataChunk(samples).body) + [])
  {
    var fmt, data := FmtChunk(rate, channels), DataChunk(samples);
    assert ChunkBytes(fmt) == FmtHeaded(FmtBody(rate, channels)) + [];
    assert ChunkBytes(data) == DataHeader(Wrap32(2 * |samples|)) + data.body + [];
    hide Le32, Wrap32, FmtBody, SampleBytes, FmtChunk, DataChunk, ChunkBytes, FmtHeaded, DataHeader;
    assert [fmt, data][1..] == [data] && [data][1..] == [];
    assert Concat([data]) == ChunkBytes(data) + [];
  }

  lemma Interleave(a: Bytes, b: Bytes, c: Bytes, s: Bytes, t: Bytes)
    ensures a + b + c + (s + t) == a + (b + ((c + s) + [])) + t
  {}

  /** Whole frames written at a real rate read back as what was written, sample for sample, exactly when
      the sample bytes fit the 32-bit size the format declares them in. The outer size field, which
      wraps first, plays no part. */
  lemma RoundTrip(samples: seq<i16>, rate: u32, channels: u16, frames: nat)
    requires 0 < channels <= 8 && rate > 0 && |samples| == frames * channels
    ensures WriteError(|samples|, rate, channels) == NoError
    ensures ReadBytes(FileBytes(samples, rate, channels)) ==
        ReadResult(NoError, WavInfo(rate, channels, 16, frames), samples)
      <==> 2 * |samples| < 0x1_0000_0000
  {
    Unique(|samples|, channels, frames, 0);
    hide ReadBytes, FileBytes;
    if 2 * |samples| < 0x1_0000_0000 {
      ReadsBack(samples, rate, channels, frames);
    } else {
      NeverReadsMore(FileBytes(samples, rate, channels));
    }
  }

  lemma ReadsBack(samples: seq<i16>, rate: u32, channels: u16, frames: nat)
    requires 0 < channels <= 8 && |samples| == frames * channels && 2 * |samples| < 0x1_0000_0000
    ensures ReadBytes(FileBytes(samples, rate, channels)) ==
      ReadResult(NoError, WavInfo(rate, channels, 16, frames), samples)
  {
    assert 0 < CHUNK_HEADER_BYTES;
    hide *;
    var fmt, data := FmtChunk(rate, channels), DataChunk(samples);
    WrittenIsChunks(samples, rate, channels);
    AllDeclared(samples);
    FmtReads(rate, channels);
    ChunksAreTagged(rate, channels, samples);
    TwoChunks(fmt, data);
    ReadsAnyChunkOrder(Wrap32(36 + Wrap32(2 * |samples|)), [fmt, data], []);
    FinishesWhole(samples, rate, channels, frames);
    TakesBoth(fmt, data, rate, channels);
  }

  lemma AllDeclared(samples: seq<i16>)
    requires 2 * |samples| < 0x1_0000_0000
    ensures DataChunk(samples).body == SampleBytes(samples) && Undeclared(samples) == []
  {
    hide SampleBytes, Wrap32;
    var b := SampleBytes(samples);
    CutAtDeclared(b);
    assert 2 * |samples| == |b|;
  }

  lemma CutAtDeclared(b: Bytes)
    requires |b| < 0x1_0000_0000
    ensures Wrap32(|b|) == |b| && b[..|b|] == b && b[|b|..] == []
  {}

  lemma FmtReads(rate: u32, channels: u16)
    ensures var body := FmtChunk(rate, channels).body;
      SoundFmt(body) && EncodingOf(body) == PCM && FmtInfo(body, 0) == WavInfo(rate, channels, 16, 0)
  {
    FmtBodyReads(rate, channels);
    hide FmtBody, SoundFmt, EncodingOf, FmtInfo;
  }

  lemma ChunksAreTagged(rate: u32, channels: u16, samples: seq<i16>)
    ensures FmtChunk(rate, channels).tag == FMT && DataChunk(samples).tag == DATA
    ensures AllPadded([FmtChunk(rate, channels), DataChunk(samples)])
  {
    PairIsPadded(FmtChunk(rate, channels), DataChunk(samples));
  }

  lemma PairIsPadded(a: Chunk, b: Chunk)
    requires WellPadded(a) && WellPadded(b)
    ensures AllPadded([a, b])
  {}

  lemma TakesBoth(fmt: Chunk, data: Chunk, rate: u32, channels: u16)
    requires SoundFmt(fmt.body) && EncodingOf(fmt.body) == PCM
    requires FmtInfo(fmt.body, 0) == WavInfo(rate, channels, 16, 0)
    ensures Taking(NOTHING, Some(fmt.body), Some(data.body)) ==
      Found(true, PCM, WavInfo(rate, channels, 16, 0), Some(data.body))
  {
    hide SoundFmt, EncodingOf, FmtInfo;
  }

  lemma FinishesWhole(samples: seq<i16>, rate: u32, channels: u16, frames: nat)
    requires 0 < channels <= 8 && |samples| == frames * channels
    ensures Finish(Found(true, PCM, WavInfo(rate, channels, 16, 0), Some(SampleBytes(samples)))) ==
      ReadResult(NoError, WavInfo(rate, channels, 16, frames), samples)
  {
    SamplesReadBack(samples, []);
    assert SampleBytes(samples) + [] == SampleBytes(samples);
    WholeFrames(frames, channels);
    hide SamplesOf, SampleBytes, FrameBytes;
  }

  lemma WholeFrames(frames: nat, channels: u16)
    requires 0 < channels
    ensures 2 * (frames * channels) / FrameBytes(channels) == frames
  {
    Regroup(frames, channels);
    Unique(2 * (frames * channels), FrameBytes(channels), frames, 0);
  }

  lemma TwoChunks(fmt: Chunk, data: Chunk)
    requires fmt.tag == FMT && data.tag == DATA && SoundFmt(fmt.body)
    ensures FmtsAreSound([fmt, data])
    ensures LastBody([fmt, data], FMT) == Some(fmt.body) && LastBody([fmt, data], DATA) == Some(data.body)
  {
    hide SoundFmt;
    assert FMT[0] != DATA[0];
    assert [fmt, data][1..] == [data] && [data][1..] == [];
    assert LastBody([data], FMT) == None && LastBody([data], DATA) == Some(data.body);
  }

  ghost predicate Declarable(f: Found) { f.data.Some? ==> |f.data.value| < 0x1_0000_0000 }

  /** No file yields more sample bytes than a 32-bit size can declare. */
  lemma {:induction false} WalkIsDeclarable(file: Bytes, offset: nat, f: Found)
    requires Declarable(f)
    ensures var w := WalkFrom(file, offset, f); w.Done? ==> Declarable(w.found)
    decreases |file| - offset
  {
    hide LoadLe32;
    if offset + CHUNK_HEADER_BYTES <= |file| {
      var size, body := LoadLe32(file, offset + 4), offset + CHUNK_HEADER_BYTES;
      if size <= |file| - body {
        var w := Visit(f, file[offset..offset + 4], file[body..body + size]);
        if w.Done? { WalkIsDeclarable(file, body + size + size % 2, w.found); }
        hide SoundFmt, EncodingOf, FmtInfo;
      }
    }
  }

  lemma NeverReadsMore(file: Bytes)
    ensures 2 * |ReadBytes(file).samples| < 0x1_0000_0000
  {
    hide WalkFrom, Finish;
    WalkIsDeclarable(file, RIFF_HEADER_BYTES, NOTHING);
    var w := WalkFrom(file, RIFF_HEADER_BYTES, NOTHING);
    if w.Done? { FinishIsDeclarable(w.found); }
  }

  lemma FinishIsDeclarable(found: Found)
    requires Declarable(found)
    ensures 2 * |Finish(found).samples| < 0x1_0000_0000
  {
    var r := Finish(found);
    if r.error == NoError {
      var bytes, channels := |found.data.value|, found.info.channels;
      WholeFramesFit(bytes, channels);
      hide FrameBytes;
      assert |r.samples| == bytes / FrameBytes(channels) * channels;
    }
  }
}
