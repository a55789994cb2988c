/** The playout oracle: for one stream, pulled at its own frame rate, over any loss, reordering,
    duplication and lateness, which frame each pull plays. */
module PlayoutOracle {
  import opened Words
  import opened Serial
  import opened Media
  import opened QueueSpec
  import opened QueueRuns
  import opened PlayoutSpec
  import opened PlayoutRuns
  import opened PlayoutDeadlines
  import opened PlayoutAccounting

  /** One stream and one device. Position `n` is the n-th frame after the first one received. */
  datatype Setup = Setup(
    cfg: Config, geo: Geometry, id: u32, firstSequence: u32, firstTs: u32,
    anchorUs: nat, firstPullUs: nat)

  /** What happens, in the order it happens: a copy of frame `n` comes in, or the device pulls. */
  datatype Tick =
    | Arrive(n: int, flags: u16, payload: Bytes, arrivalUs: u64)
    | Play(room: nat, now: u64, codec: Codec)

  function Seq(st: Setup, n: int): u32 { Wrap32(st.firstSequence + n) }

  function Ts(st: Setup, n: int): u32 { Wrap32(st.firstTs + n * st.geo.frameTs) }

  /** When frame `n` is due. */
  function DueUs(st: Setup, n: int): int { st.anchorUs + n * st.geo.frameUs }

  function EventOf(st: Setup, t: Tick): Event {
    match t
    case Arrive(n, flags, payload, arrivalUs) =>
      PushE(MediaPacket(MediaHeader(flags, st.id, Seq(st, n), Ts(st, n)), payload), arrivalUs)
    case Play(room, now, codec) => PullE(room, now, codec)
  }

  function Events(st: Setup, ticks: seq<Tick>): seq<Event> {
    seq(|ticks|, i requires 0 <= i < |ticks| => EventOf(st, ticks[i]))
  }

  function Plays(ticks: seq<Tick>): nat {
    if ticks == [] then 0 else Plays(ticks[..|ticks| - 1]) + if ticks[|ticks| - 1].Play? then 1 else 0
  }

  /** Pulls that come before the first frame is due. */
  function Preroll(st: Setup): nat
    requires st.geo.frameUs > 0
  {
    if st.firstPullUs >= st.anchorUs then 0 else (st.anchorUs - st.firstPullUs + st.geo.frameUs - 1) / st.geo.frameUs
  }

  /** The position the next pull stands at, after `pulls` of them. */
  function CursorAfter(st: Setup, pulls: nat): nat
    requires st.geo.frameUs > 0
  { if pulls < Preroll(st) then 0 else pulls - Preroll(st) }

  /** This arrival is a copy of frame `n` in time for its deadline, and fits a slot. */
  predicate Timely(st: Setup, t: Tick, n: int) {
    t.Arrive? && t.n == n && |t.payload| <= MAX_FRAME_PAYLOAD && t.arrivalUs <= DueUs(st, n)
  }

  ghost predicate SomeCopyInTime(st: Setup, ticks: seq<Tick>, n: int) {
    exists j :: 0 <= j < |ticks| && Timely(st, ticks[j], n)
  }

  /** A sound setup: exact frame units, and the device not a whole frame late for the first frame. */
  predicate SoundSetup(st: Setup) {
    st.geo.frameUs > 0 && Exact(st.geo) && st.firstPullUs < st.anchorUs + st.geo.frameUs
  }

  /** No deadline up to `frames` past the anchor leaves the 31-bit or the 64-bit horizon. */
  predicate WithinHorizon(st: Setup, frames: nat) {
    frames < 0x1000_0000 && frames * st.geo.frameTs < 0x8000_0000 && DueUs(st, frames) < LIMIT
  }

  /** What the network and the device may do next. Copies may be lost, late, early, repeated and
      in any order, as long as none is 64 or more ahead of the cursor or flagged as a start. */
  predicate Allowed(st: Setup, before: seq<Tick>, t: Tick)
    requires st.geo.frameUs > 0
  {
    match t
    case Arrive(n, flags, payload, arrivalUs) =>
      -0x1000_0000 <= n < CursorAfter(st, Plays(before)) + CAPACITY && flags % 2 == 0
    case Play(room, now, codec) =>
      now == st.firstPullUs + Plays(before) * st.geo.frameUs && room >= st.geo.framePcm
  }

  /** The first arrival opens the stream; everything after it is `Allowed`. */
  ghost predicate Script(st: Setup, ticks: seq<Tick>)
    requires st.geo.frameUs > 0
  {
    && ticks != [] && Timely(st, ticks[0], 0) && st.anchorUs == ticks[0].arrivalUs + st.cfg.targetDelayUs
    && forall i | 1 <= i < |ticks| :: Allowed(st, ticks[..i], ticks[i])
  }

  /** A buffer waiting for its first packet. */
  ghost predicate Waiting(st: Setup, b: Buffer) {
    b.open && b.cfg == st.cfg && b.geo == st.geo && !b.anchored && Coherent(b)
  }

  /** In the window at `c`, exactly the frames that came in time are held, each at its place on the line. */
  ghost predicate Stocked(st: Setup, frames: map<u32, Frame>, c: int, ticks: seq<Tick>) {
    forall n | c <= n < c + CAPACITY ::
      && (Seq(st, n) in frames <==> SomeCopyInTime(st, ticks, n))
      && (Seq(st, n) in frames ==> frames[Seq(st, n)].info.header.timestamp == Ts(st, n))
  }

  predicate ArrivalsBelow(ticks: seq<Tick>, limit: int) {
    forall j | 0 <= j < |ticks| && ticks[j].Arrive? :: ticks[j].n < limit
  }

  /** What holds after every prefix of the script. */
  ghost predicate Tracks(st: Setup, b: Buffer, ticks: seq<Tick>)
    requires st.geo.frameUs > 0
  {
    var c := CursorAfter(st, Plays(ticks));
    && b.open && b.cfg == st.cfg && b.geo == st.geo && b.anchored && b.streamId == st.id && Coherent(b)
    && b.anchorTs == st.firstTs && b.anchorLocalUs == st.anchorUs
    && b.queue.cursor == Seq(st, c) && b.playoutTs == Ts(st, c)
    && Stocked(st, b.queue.frames, c, ticks) && ArrivalsBelow(ticks, c + CAPACITY)
  }

  lemma SeqDistance(st: Setup, m: int, n: int)
    requires -0x8000_0000 <= n - m < 0x8000_0000
    ensures Distance(Seq(st, m), Seq(st, n)) == n - m
  {
    DistanceIsTrueDistance(st.firstSequence + m, st.firstSequence + n);
  }

  lemma DueOfPosition(st: Setup, n: nat)
    requires SoundSetup(st) && n * st.geo.frameTs < 0x8000_0000 && DueUs(st, n) < LIMIT
    ensures DeadlineOf(st.firstTs, st.anchorUs, Ts(st, n)) == DueUs(st, n)
  {
    DueOnLine(st.geo, st.firstTs, st.anchorUs, n);
    hide DeadlineOf, Wrap32;
  }

  lemma HorizonIsDownward(st: Setup, n: nat, frames: nat)
    requires SoundSetup(st) && WithinHorizon(st, frames) && n <= frames
    ensures n * st.geo.frameTs < 0x8000_0000 && DueUs(st, n) < LIMIT
  {
    assert n * st.geo.frameTs <= frames * st.geo.frameTs;
    assert n * st.geo.frameUs <= frames * st.geo.frameUs;
  }

  /** The device reaches position `c` inside its own frame time, on every pull after the pre-roll. */
  lemma PullTimes(st: Setup, pulls: nat)
    requires SoundSetup(st)
    ensures var now := st.firstPullUs + pulls * st.geo.frameUs;
      && (pulls < Preroll(st) <==> now < st.anchorUs)
      && (pulls >= Preroll(st) ==>
            DueUs(st, CursorAfter(st, pulls)) <= now < DueUs(st, CursorAfter(st, pulls)) + st.geo.frameUs)
  {
    var f, gap := st.geo.frameUs, st.anchorUs - st.firstPullUs;
    if gap > 0 {
      var k := Preroll(st);
      assert gap + f - 1 == f * k + (gap + f - 1) % f;
      Product(pulls, k, f);
      assert k * f == f * k;
    }
  }

  lemma Product(a: nat, b: nat, f: nat)
    ensures (a - b) * f == a * f - b * f
    ensures a < b ==> a * f + f <= b * f
    ensures a >= b ==> a * f >= b * f
  {
    Distribute(a, b, f);
    Distribute(b, a, f);
    if a < b { AtLeastOnce(b - a, f); } else if a > b { AtLeastOnce(a - b, f); }
    hide *;
  }

  // ---------------------------------------------------------------- the first packet

  /** The state the first packet leaves behind. */
  lemma OpeningPush(st: Setup, b: Buffer, t: Tick)
    requires SoundSetup(st) && WithinHorizon(st, CAPACITY) && Waiting(st, b)
    requires Timely(st, t, 0) && st.anchorUs == t.arrivalUs + st.cfg.targetDelayUs
    ensures var d := StepB(b, EventOf(st, t));
      && d.anchored && d.streamId == st.id && d.anchorTs == st.firstTs && d.anchorLocalUs == st.anchorUs
      && d.queue.cursor == Seq(st, 0) && d.playoutTs == Ts(st, 0)
      && d.queue.frames.Keys == {Seq(st, 0)}
      && d.queue.frames[Seq(st, 0)].info.header.timestamp == Ts(st, 0)
      && d.queue.n == b.queue.n.(accepted := b.queue.n.accepted + 1)
      && d.stats == b.stats.(anchors := b.stats.anchors + 1)
  {
    HorizonIsDownward(st, 0, CAPACITY);
    DueOfPosition(st, 0);
    EmptyMap(b.queue.frames);
    ZeroDistance(Seq(st, 0), Seq(st, 0));
    assert st.anchorUs < LIMIT && Wrap64(st.anchorUs) == st.anchorUs;
    assert Ts(st, 0) == st.firstTs;
    assert !b.queue.started && b.queue.frames == map[];
    hide Distance, DeadlineOf, Wrap32, Wrap64, InWindow, HighestHeld;
  }

  lemma FirstArrival(st: Setup, b: Buffer, t: Tick)
    requires SoundSetup(st) && WithinHorizon(st, CAPACITY) && Waiting(st, b)
    requires Timely(st, t, 0) && st.anchorUs == t.arrivalUs + st.cfg.targetDelayUs
    ensures Tracks(st, StepB(b, EventOf(st, t)), [t])
  {
    var d := StepB(b, EventOf(st, t));
    OpeningPush(st, b, t);
    assert Coherent(d) by { PushIsCoherent(b, EventOf(st, t).packet, t.arrivalUs); }
    assert Plays([t]) == 0 by { assert [t][..0] == []; }
    assert CursorAfter(st, 0) == 0;
    assert ArrivalsBelow([t], CAPACITY);
    hide StepB, Coherent, EventOf, CursorAfter, Plays, ArrivalsBelow;
    forall n | 0 <= n < CAPACITY
      ensures Seq(st, n) in d.queue.frames <==> SomeCopyInTime(st, [t], n)
      ensures Seq(st, n) == Seq(st, 0) <==> n == 0
    {
      SeqDistance(st, 0, n);
      SeqDistance(st, 0, 0);
      if n == 0 { assert Timely(st, [t][0], 0); }
      hide Seq;
    }
    hide Seq, SomeCopyInTime, DueUs;
  }

  // ---------------------------------------------------------------- later packets

  /** The verdict on a copy of frame `n` when the cursor stands at `c`. */
  function VerdictOn(st: Setup, c: nat, t: Tick, held: bool): PushVerdict
    requires t.Arrive?
  {
    if |t.payload| > MAX_FRAME_PAYLOAD then PushVerdict.Oversized
    else if t.n <= c - CAPACITY then PushVerdict.TooOld
    else if t.n < c || t.arrivalUs > DueUs(st, t.n) then PushVerdict.Late
    else if held then PushVerdict.Duplicate
    else PushVerdict.Accepted
  }

  function CountsAfter(n: Counters, v: PushVerdict): Counters {
    match v
    case Oversized => n.(oversized := n.oversized + 1)
    case TooOld => n.(tooOld := n.tooOld + 1)
    case Late => n.(late := n.late + 1)
    case Duplicate => n.(duplicates := n.duplicates + 1)
    case Accepted => n.(accepted := n.accepted + 1)
    case _ => n
  }

  /** Away from stream changes, start flags and far jumps an arrival is one insert. */
  lemma PlainArrival(b: Buffer, p: MediaPacket, arrivalUs: u64)
    requires b.open && b.anchored && b.hasStream && b.streamId == p.header.streamId && !p.header.TalkspurtStart()
    requires b.queue.started && Distance(b.queue.cursor, p.header.sequence) < CAPACITY
    ensures var (d, v) := PushB(b, p, arrivalUs);
            var (q, verdict) := InsertQ(b.queue, FrameFor(b, p, arrivalUs), arrivalUs);
      && d == b.(queue := q, lastArrivalUs := arrivalUs, hasEnd := d.hasEnd, endSequence := d.endSequence)
      && v == Verdict(verdict) && verdict != TooFarAhead
  {
    hide Distance, DeadlineOf, Wrap32, Wrap64;
  }

  /** What one later arrival does to the queue: the verdict follows from the frame's own number and
      arrival time alone, and is counted once. */
  lemma LaterArrival(st: Setup, b: Buffer, ticks: seq<Tick>, t: Tick)
    requires SoundSetup(st) && WithinHorizon(st, CursorAfter(st, Plays(ticks)) + CAPACITY)
    requires Tracks(st, b, ticks) && t.Arrive? && Allowed(st, ticks, t)
    ensures var c := CursorAfter(st, Plays(ticks));
            var p := EventOf(st, t).packet;
            var (d, verdict) := PushB(b, p, t.arrivalUs);
      && verdict == VerdictOn(st, c, t, c <= t.n && Seq(st, t.n) in b.queue.frames)
      && d.queue.n == CountsAfter(b.queue.n, verdict)
      && d == b.(queue := d.queue, lastArrivalUs := t.arrivalUs, hasEnd := d.hasEnd, endSequence := d.endSequence)
      && d.queue.started && d.queue.cursor == b.queue.cursor
      && d.queue.frames ==
        if verdict.Accepted? then b.queue.frames[Seq(st, t.n) := FrameFor(b, p, t.arrivalUs)] else b.queue.frames
  {
    var c, p := CursorAfter(st, Plays(ticks)), EventOf(st, t).packet;
    if t.n >= c {
      HorizonIsDownward(st, t.n, c + CAPACITY);
      DueOfPosition(st, t.n);
    }
    SeqDistance(st, c, t.n);
    assert !p.header.TalkspurtStart();
    hide Distance, DeadlineOf, InWindow, HighestHeld, Seq, Ts, Wrap32, Plays, PushB, DueUs, Stocked, ArrivalsBelow,
         Preroll, InsertQ;
    PlainArrival(b, p, t.arrivalUs);
    QueueArrival(st, b.queue, c, t, FrameFor(b, p, t.arrivalUs));
  }

  lemma QueueArrival(st: Setup, q: Queue, c: nat, t: Tick, frame: Frame)
    requires q.started && q.cursor == Seq(st, c) && t.Arrive? && -0x1000_0000 <= t.n < c + CAPACITY < 0x2000_0000
    requires frame.info.header.sequence == Seq(st, t.n) && frame.payload == t.payload
    requires c <= t.n ==> frame.info.deadline == DueUs(st, t.n)
    ensures var (r, verdict) := InsertQ(q, frame, t.arrivalUs);
      && Verdict(verdict) == VerdictOn(st, c, t, c <= t.n && Seq(st, t.n) in q.frames) && verdict != TooFarAhead
      && r.n == CountsAfter(q.n, Verdict(verdict))
      && r.started && r.cursor == q.cursor
      && r.frames == if verdict.Accepted? then q.frames[Seq(st, t.n) := frame] else q.frames
  {
    SeqDistance(st, c, t.n);
    hide Seq, Distance, Wrap32, DueUs;
  }

  lemma ArrivalKeepsStock(st: Setup, frames: map<u32, Frame>, c: nat, ticks: seq<Tick>, t: Tick, frame: Frame)
    requires Stocked(st, frames, c, ticks) && t.Arrive? && -0x1000_0000 <= t.n < c + CAPACITY < 0x2000_0000
    requires frame.info.header.timestamp == Ts(st, t.n)
    ensures var verdict := VerdictOn(st, c, t, c <= t.n && Seq(st, t.n) in frames);
      Stocked(st, if verdict.Accepted? then frames[Seq(st, t.n) := frame] else frames, c, ticks + [t])
  {
    forall n | c <= n < c + CAPACITY
      ensures SomeCopyInTime(st, ticks + [t], n) <==> SomeCopyInTime(st, ticks, n) || Timely(st, t, n)
      ensures Seq(st, n) == Seq(st, t.n) ==> n == t.n
    {
      OneMoreTick(st, ticks, t, n);
      SeqDistance(st, n, t.n);
      SeqDistance(st, n, n);
    }
    hide Seq, Ts, SomeCopyInTime, DueUs;
  }

  lemma MoreArrivals(ticks: seq<Tick>, t: Tick, limit: int, raised: int)
    requires ArrivalsBelow(ticks, limit) && limit <= raised && (t.Arrive? ==> t.n < limit)
    ensures ArrivalsBelow(ticks + [t], raised)
  {}

  lemma OneMorePlay(ticks: seq<Tick>, t: Tick)
    ensures Plays(ticks + [t]) == Plays(ticks) + if t.Play? then 1 else 0
  {
    assert (ticks + [t])[..|ticks|] == ticks;
  }

  lemma ArrivalTracks(st: Setup, b: Buffer, ticks: seq<Tick>, t: Tick)
    requires SoundSetup(st) && WithinHorizon(st, CursorAfter(st, Plays(ticks)) + CAPACITY)
    requires Tracks(st, b, ticks) && t.Arrive? && Allowed(st, ticks, t)
    ensures Tracks(st, StepB(b, EventOf(st, t)), ticks + [t])
  {
    var c, d := CursorAfter(st, Plays(ticks)), StepB(b, EventOf(st, t));
    LaterArrival(st, b, ticks, t);
    assert Coherent(d) by { PushIsCoherent(b, EventOf(st, t).packet, t.arrivalUs); }
    OneMorePlay(ticks, t);
    MoreArrivals(ticks, t, c + CAPACITY, c + CAPACITY);
    hide Coherent, DueUs, Ts, Seq, Plays, CursorAfter, Timely, Stocked, ArrivalsBelow, PushB, VerdictOn;
    ArrivalKeepsStock(st, b.queue.frames, c, ticks, t, FrameFor(b, EventOf(st, t).packet, t.arrivalUs));
  }

  lemma OneMoreTick(st: Setup, ticks: seq<Tick>, t: Tick, n: int)
    ensures SomeCopyInTime(st, ticks + [t], n) <==> SomeCopyInTime(st, ticks, n) || Timely(st, t, n)
  {
    hide Timely;
    var all := ticks + [t];
    if SomeCopyInTime(st, ticks, n) {
      var j :| 0 <= j < |ticks| && Timely(st, ticks[j], n);
      assert all[j] == ticks[j];
    }
    assert all[|ticks|] == t;
  }

  // ---------------------------------------------------------------- pulls

  /** In step with the script a pull aligns on nothing new and never has to catch up. */
  lemma PullInStep(st: Setup, b: Buffer, ticks: seq<Tick>, t: Tick)
    requires SoundSetup(st) && WithinHorizon(st, CursorAfter(st, Plays(ticks)) + CAPACITY)
    requires Tracks(st, b, ticks) && t.Play? && Allowed(st, ticks, t)
    ensures AlignB(b) == (b, PeekQ(b.queue, b.queue.cursor))
    ensures Due(b, b.playoutTs) == DueUs(st, CursorAfter(st, Plays(ticks)))
    ensures t.now < Due(b, b.playoutTs) <==> Plays(ticks) < Preroll(st)
    ensures t.now >= Due(b, b.playoutTs) ==> Behind(b, t.now) == 0
  {
    var pulls := Plays(ticks);
    var c := CursorAfter(st, pulls);
    ZeroDistance(b.playoutTs, b.playoutTs);
    HorizonIsDownward(st, c, c + CAPACITY);
    DueOfPosition(st, c);
    PullTimes(st, pulls);
    hide Distance, DeadlineOf, Coherent, Seq, Ts, Wrap32, Plays, Preroll;
    assert b.queue.cursor == Seq(st, c);
    if t.now >= Due(b, b.playoutTs) {
      SmallQuotient(t.now - Due(b, b.playoutTs), st.geo.frameUs);
    }
  }

  lemma SmallQuotient(x: nat, f: nat)
    requires x < f
    ensures x / f == 0
  {}

  /** What is reported of a frame that is there: what the decoder made of it, or silence and its error. */
  predicate Decoded(st: Setup, out: Pulled, codec: Codec) {
    && out.source == (if codec.decode.Ok() then Packet else Silence) && out.error == codec.decode.error
    && out.samples == if codec.decode.Ok() then codec.decode.samples else st.geo.framePcm
  }

  /** What that pull does and reports. */
  lemma PullReports(st: Setup, b: Buffer, ticks: seq<Tick>, t: Tick)
    requires SoundSetup(st) && WithinHorizon(st, CursorAfter(st, Plays(ticks)) + CAPACITY)
    requires Tracks(st, b, ticks) && t.Play? && Allowed(st, ticks, t)
    ensures var (d, out) := PullB(b, t.room, t.now, t.codec); var c := CursorAfter(st, Plays(ticks));
      if Plays(ticks) < Preroll(st) then
        out == Pulled(Silence, Seq(st, c), Ts(st, c), st.geo.framePcm, 0) && d == SilentB(b)
      else
        && out.sequence == Seq(st, c) && out.timestamp == Ts(st, c)
        && (SomeCopyInTime(st, ticks, c) ==> Decoded(st, out, t.codec))
        && (out.source == Packet <==> SomeCopyInTime(st, ticks, c) && t.codec.decode.Ok())
        && d == b.(queue := AdvanceQ(b.queue).0, playoutTs := Wrap32(b.playoutTs + st.geo.frameTs),
                   concealRun := d.concealRun, stats := d.stats)
  {
    var c := CursorAfter(st, Plays(ticks));
    PullInStep(st, b, ticks, t);
    FillCounts(b, t.codec);
    assert Seq(st, c) in b.queue.frames <==> SomeCopyInTime(st, ticks, c);
    assert Coherent(b);
    hide Distance, DeadlineOf, InWindow, HighestHeld, Seq, Ts, Wrap32, Plays, Preroll, AlignB, SomeCopyInTime,
         AdvanceQ, Behind, Due;
    if Plays(ticks) >= Preroll(st) {
      var held := PeekQ(b.queue, b.queue.cursor);
      assert PositionB(b, held, t.now) == (b, held);
      PlayOrFillReports(st, b, t.codec);
    }
  }

  /** Playing or filling the position at the cursor: a packet exactly when a frame is held there and decodes. */
  lemma PlayOrFillReports(st: Setup, b: Buffer, codec: Codec)
    requires Coherent(b) && b.geo == st.geo
    requires b.queue.cursor in b.queue.frames ==>
      b.queue.frames[b.queue.cursor].info.header.timestamp == b.playoutTs
    ensures var (d, out) := PlayOrFillB(b, PeekQ(b.queue, b.queue.cursor), codec);
      && out.sequence == b.queue.cursor && out.timestamp == b.playoutTs
      && (b.queue.cursor in b.queue.frames ==> Decoded(st, out, codec))
      && (out.source == Packet <==> b.queue.cursor in b.queue.frames && codec.decode.Ok())
      && d == NextFrameB(b).(concealRun := d.concealRun, stats := d.stats)
  {
    assert b.queue.cursor in b.queue.frames ==>
      b.queue.frames[b.queue.cursor].info.header.sequence == b.queue.cursor;
    FillMovesNothing(b, codec);
    hide Distance, Wrap32, AdvanceQ, InWindow, HighestHeld, FillB, Coherent;
  }

  lemma FillMovesNothing(b: Buffer, codec: Codec)
    ensures var (d, out) := FillB(b, codec);
      && d == b.(concealRun := d.concealRun, stats := d.stats)
      && out.source != Packet && out.sequence == b.queue.cursor && out.timestamp == b.playoutTs
  {
    hide Distance, Wrap32, PeekQ;
  }

  /** The next window, once the frame at position `c` is gone. */
  lemma PullKeepsStock(st: Setup, q: Queue, c: nat, ticks: seq<Tick>, t: Tick)
    requires Stocked(st, q.frames, c, ticks) && ArrivalsBelow(ticks, c + CAPACITY) && t.Play?
    requires InWindow(q) && q.cursor == Seq(st, c)
    ensures Stocked(st, q.frames, c, ticks + [t]) && Stocked(st, q.frames - {q.cursor}, c + 1, ticks + [t])
  {
    forall n | c <= n <= c + CAPACITY
      ensures SomeCopyInTime(st, ticks + [t], n) <==> SomeCopyInTime(st, ticks, n)
      ensures Seq(st, n) == Seq(st, c) <==> n == c
      ensures n == c + CAPACITY ==> Seq(st, n) !in q.frames && !SomeCopyInTime(st, ticks, n)
    {
      OneMoreTick(st, ticks, t, n);
      SeqDistance(st, c, n);
      SeqDistance(st, c, c);
      EmptyMap(q.frames);
      hide Seq, Wrap32, Distance, DueUs;
    }
    hide Seq, Ts, SomeCopyInTime, Distance, InWindow, ArrivalsBelow;
  }

  lemma NextCursor(st: Setup, pulls: nat)
    requires st.geo.frameUs > 0
    ensures CursorAfter(st, pulls + 1) == CursorAfter(st, pulls) + if pulls < Preroll(st) then 0 else 1
  {
    hide Preroll;
  }

  /** A pull during the pre-roll leaves the script where it was. */
  lemma PrerollTracks(st: Setup, b: Buffer, ticks: seq<Tick>, t: Tick)
    requires st.geo.frameUs > 0 && Tracks(st, b, ticks) && t.Play? && Plays(ticks) < Preroll(st)
    ensures Tracks(st, SilentB(b), ticks + [t])
  {
    var c := CursorAfter(st, Plays(ticks));
    OneMorePlay(ticks, t);
    NextCursor(st, Plays(ticks));
    MoreArrivals(ticks, t, c + CAPACITY, c + CAPACITY);
    assert Coherent(SilentB(b)) && InWindow(b.queue);
    hide Seq, Ts, Plays, CursorAfter, DueUs, Coherent, InWindow, Preroll, Stocked, ArrivalsBelow;
    PullKeepsStock(st, b.queue, c, ticks, t);
  }

  /** A pull after the pre-roll moves the script on by one frame. */
  lemma PlayedTracks(st: Setup, b: Buffer, d: Buffer, ticks: seq<Tick>, t: Tick)
    requires st.geo.frameUs > 0 && Tracks(st, b, ticks) && t.Play? && Plays(ticks) >= Preroll(st)
    requires Coherent(d)
    requires d == b.(queue := AdvanceQ(b.queue).0, playoutTs := Wrap32(b.playoutTs + st.geo.frameTs),
                     concealRun := d.concealRun, stats := d.stats)
    ensures Tracks(st, d, ticks + [t])
  {
    var c := CursorAfter(st, Plays(ticks));
    OneMorePlay(ticks, t);
    NextCursor(st, Plays(ticks));
    hide Plays, CursorAfter, Preroll;
    NextPosition(st, c);
    MoreArrivals(ticks, t, c + CAPACITY, c + 1 + CAPACITY);
    assert b.queue.started && InWindow(b.queue);
    AdvanceShape(b.queue);
    hide Seq, Ts, Plays, CursorAfter, DueUs, Coherent, InWindow, Preroll, Stocked, ArrivalsBelow, Wrap32, AdvanceQ;
    PullKeepsStock(st, b.queue, c, ticks, t);
    assert d.queue.cursor == Seq(st, c + 1) && d.playoutTs == Ts(st, c + 1);
    assert Stocked(st, d.queue.frames, c + 1, ticks + [t]);
  }

  lemma AdvanceShape(q: Queue)
    requires q.started
    ensures var r := AdvanceQ(q).0; r.cursor == Wrap32(q.cursor + 1) && r.frames == q.frames - {q.cursor}
  {
    hide Wrap32;
  }

  lemma PullTracks(st: Setup, b: Buffer, ticks: seq<Tick>, t: Tick)
    requires SoundSetup(st) && WithinHorizon(st, CursorAfter(st, Plays(ticks)) + CAPACITY)
    requires Tracks(st, b, ticks) && t.Play? && Allowed(st, ticks, t)
    ensures Tracks(st, StepB(b, EventOf(st, t)), ticks + [t])
  {
    var d := StepB(b, EventOf(st, t));
    PullReports(st, b, ticks, t);
    assert d == PullB(b, t.room, t.now, t.codec).0;
    if Plays(ticks) < Preroll(st) {
      PrerollTracks(st, b, ticks, t);
    } else {
      assert Coherent(d) by { PullIsCoherent(b, t.room, t.now, t.codec); }
      hide PullB, StepB, Coherent, Tracks, Plays, Preroll, CursorAfter, SomeCopyInTime;
      PlayedTracks(st, b, d, ticks, t);
    }
  }

  lemma NextPosition(st: Setup, c: int)
    ensures Wrap32(Seq(st, c) + 1) == Seq(st, c + 1)
    ensures Wrap32(Ts(st, c) + st.geo.frameTs) == Ts(st, c + 1)
  {
    WrapShift(st.firstSequence + c, 1);
    WrapShift(st.firstTs + c * st.geo.frameTs, st.geo.frameTs);
    assert (c + 1) * st.geo.frameTs == c * st.geo.frameTs + st.geo.frameTs;
  }

  // ---------------------------------------------------------------- the theorems

  lemma ScriptPrefix(st: Setup, ticks: seq<Tick>, i: nat)
    requires st.geo.frameUs > 0 && Script(st, ticks) && 0 < i <= |ticks|
    ensures Script(st, ticks[..i])
    ensures i < |ticks| ==> Allowed(st, ticks[..i], ticks[i])
  {
    hide Allowed, Timely;
    var before := ticks[..i];
    forall k | 1 <= k < |before| ensures Allowed(st, before[..k], before[k]) {
      assert before[..k] == ticks[..k];
    }
  }

  lemma RunOneMore(st: Setup, b: Buffer, ticks: seq<Tick>, t: Tick)
    requires Ticking(b)
    ensures RunB(b, Events(st, ticks + [t])) == StepB(RunB(b, Events(st, ticks)), EventOf(st, t))
    ensures RunB(b, Events(st, [])) == b
  {
    hide StepB;
    var events := Events(st, ticks + [t]);
    assert events[..|events| - 1] == Events(st, ticks);
  }

  lemma ScriptStep(st: Setup, b: Buffer, before: seq<Tick>, t: Tick)
    requires SoundSetup(st) && Ticking(b) && WithinHorizon(st, Plays(before) + CAPACITY)
    requires Tracks(st, RunB(b, Events(st, before)), before) && Allowed(st, before, t)
    ensures Tracks(st, RunB(b, Events(st, before + [t])), before + [t])
  {
    CursorIsBehindPulls(st, Plays(before));
    ShorterHorizon(st, CursorAfter(st, Plays(before)) + CAPACITY, Plays(before) + CAPACITY);
    hide Tracks, RunB, StepB, Allowed, Events, WithinHorizon, SoundSetup, Plays, CursorAfter;
    RunOneMore(st, b, before, t);
    var c := RunB(b, Events(st, before));
    if t.Arrive? { ArrivalTracks(st, c, before, t); } else { PullTracks(st, c, before, t); }
  }

  /** The whole run follows the script. */
  lemma {:induction false} ScriptIsTracked(st: Setup, b: Buffer, ticks: seq<Tick>)
    requires SoundSetup(st) && Waiting(st, b) && Script(st, ticks)
    requires WithinHorizon(st, Plays(ticks) + CAPACITY)
    ensures Tracks(st, RunB(b, Events(st, ticks)), ticks)
  {
    var before, t := ticks[..|ticks| - 1], ticks[|ticks| - 1];
    assert ticks == before + [t] && Ticking(b);
    OneMorePlay(before, t);
    ShorterHorizon(st, Plays(before) + CAPACITY, Plays(ticks) + CAPACITY);
    if |ticks| == 1 {
      hide Tracks, RunB, StepB, Events, WithinHorizon, SoundSetup, Waiting, Timely;
      assert before == [] && ticks == [t];
      RunOneMore(st, b, before, t);
      FirstArrival(st, b, t);
    } else {
      ScriptPrefix(st, ticks, |ticks| - 1);
      hide Tracks, RunB, Allowed, Events, WithinHorizon, SoundSetup, Waiting, Plays, Timely, Script;
      ScriptIsTracked(st, b, before);
      ScriptStep(st, b, before, t);
    }
  }

  lemma CursorIsBehindPulls(st: Setup, pulls: nat)
    requires st.geo.frameUs > 0
    ensures CursorAfter(st, pulls) <= pulls
  {}

  lemma ShorterHorizon(st: Setup, n: nat, frames: nat)
    requires SoundSetup(st) && WithinHorizon(st, frames) && n <= frames
    ensures WithinHorizon(st, n)
  {
    HorizonIsDownward(st, n, frames);
  }

  /** The playout oracle. During the pre-roll every pull is silence and the cursor waits on the first
      frame. After it, pull number k stands at frame k - K0, and plays the packet if and only if
      some copy of that frame had arrived in time for its deadline and decodes; one that does not decode
      leaves silence and the decoder's error. Nothing else about the history matters. */
  lemma PlaysWhatArrivedInTime(st: Setup, b: Buffer, ticks: seq<Tick>, t: Tick)
    requires SoundSetup(st) && Waiting(st, b) && Script(st, ticks) && t.Play? && Allowed(st, ticks, t)
    requires WithinHorizon(st, Plays(ticks) + CAPACITY)
    ensures var (d, out) := PullB(RunB(b, Events(st, ticks)), t.room, t.now, t.codec);
      var k := Plays(ticks);
      if k < Preroll(st) then out == Pulled(Silence, Seq(st, 0), Ts(st, 0), st.geo.framePcm, 0)
      else
        && out.sequence == Seq(st, k - Preroll(st)) && out.timestamp == Ts(st, k - Preroll(st))
        && (SomeCopyInTime(st, ticks, k - Preroll(st)) ==> Decoded(st, out, t.codec))
        && (out.source == Packet <==> SomeCopyInTime(st, ticks, k - Preroll(st)) && t.codec.decode.Ok())
  {
    hide RunB, Tracks, Events, Script, Waiting, PullB, Allowed, WithinHorizon, Exact, Plays, Preroll, SomeCopyInTime,
      Seq, Ts, AdvanceQ, Wrap32, DueUs;
    ScriptIsTracked(st, b, ticks);
    ShorterHorizon(st, CursorAfter(st, Plays(ticks)) + CAPACITY, Plays(ticks) + CAPACITY);
    PullReports(st, RunB(b, Events(st, ticks)), ticks, t);
  }

  /** When every datagram is handed over before the first pull at or after its arrival, "in time" is
      a property of the network alone: the order of calls drops out. */
  lemma DrainedPlayout(st: Setup, b: Buffer, ticks: seq<Tick>, i: nat)
    requires SoundSetup(st) && Waiting(st, b) && Script(st, ticks) && 0 < i < |ticks| && ticks[i].Play?
    requires WithinHorizon(st, Plays(ticks[..i]) + CAPACITY) && Plays(ticks[..i]) >= Preroll(st)
    requires forall j | i < j < |ticks| && ticks[j].Arrive? :: ticks[j].arrivalUs > ticks[i].now
    ensures var out := PullB(RunB(b, Events(st, ticks[..i])), ticks[i].room, ticks[i].now, ticks[i].codec).1;
      out.source == Packet <==>
        SomeCopyInTime(st, ticks, Plays(ticks[..i]) - Preroll(st)) && ticks[i].codec.decode.Ok()
  {
    var n := Plays(ticks[..i]) - Preroll(st);
    hide RunB, PullB, Events, Script, Plays, Preroll, DueUs, Waiting, Allowed, WithinHorizon, Exact, Distance;
    ScriptPrefix(st, ticks, i);
    DueByThePull(st, ticks[..i], ticks[i]);
    PlaysWhatArrivedInTime(st, b, ticks[..i], ticks[i]);
    EarlierCopies(st, ticks, i, n);
  }

  lemma DueByThePull(st: Setup, before: seq<Tick>, t: Tick)
    requires SoundSetup(st) && t.Play? && Allowed(st, before, t) && Plays(before) >= Preroll(st)
    ensures DueUs(st, Plays(before) - Preroll(st)) <= t.now
  {
    hide Preroll, Plays;
    PullTimes(st, Plays(before));
  }

  lemma EarlierCopies(st: Setup, ticks: seq<Tick>, i: nat, n: int)
    requires i < |ticks| && ticks[i].Play? && DueUs(st, n) <= ticks[i].now
    requires forall j | i < j < |ticks| && ticks[j].Arrive? :: ticks[j].arrivalUs > ticks[i].now
    ensures SomeCopyInTime(st, ticks, n) <==> SomeCopyInTime(st, ticks[..i], n)
  {
    if SomeCopyInTime(st, ticks, n) {
      var j :| 0 <= j < |ticks| && Timely(st, ticks[j], n);
      assert j < i && ticks[..i][j] == ticks[j];
    }
    if SomeCopyInTime(st, ticks[..i], n) {
      var j :| 0 <= j < i && Timely(st, ticks[..i][j], n);
      assert ticks[j] == ticks[..i][j];
    }
  }

  // ---------------------------------------------------------------- the perfect network

  /** What a perfect network delivers: one frame every frame time from `firstUs` on, each with its own flags
      and payload, and the codec's answers to each pull. */
  datatype Feed = Feed(firstUs: nat, flags: nat -> u16, payload: nat -> Bytes, codec: nat -> Codec)

  /** Every frame fits and decodes, and only the first may be flagged as a start. */
  ghost predicate SoundFeed(feed: Feed) {
    && (forall m :: |feed.payload(m)| <= MAX_FRAME_PAYLOAD && feed.codec(m).decode.Ok())
    && (forall m :: m > 0 ==> feed.flags(m) % 2 == 0)
  }

  /** `rounds` device ticks on a perfect network: frame m arrives in tick m, then the device pulls. */
  function Perfect(st: Setup, rounds: nat, feed: Feed): seq<Tick> {
    if rounds == 0 then []
    else
      var m := rounds - 1;
      Perfect(st, m, feed) + [PerfectArrival(st, m, feed)] + [PerfectPlay(st, m, feed)]
  }

  function PerfectArrival(st: Setup, m: nat, feed: Feed): Tick {
    Arrive(m, feed.flags(m), feed.payload(m), Wrap64(feed.firstUs + m * st.geo.frameUs))
  }

  function PerfectPlay(st: Setup, m: nat, feed: Feed): Tick {
    Play(st.geo.framePcm, Wrap64(st.firstPullUs + m * st.geo.frameUs), feed.codec(m))
  }

  lemma PerfectCopies(st: Setup, rounds: nat, feed: Feed, n: int)
    requires SoundSetup(st) && SoundFeed(feed) && feed.firstUs <= st.anchorUs
    ensures SomeCopyInTime(st, Perfect(st, rounds, feed), n) <==> 0 <= n < rounds
    ensures Plays(Perfect(st, rounds, feed)) == rounds
  {
    hide Timely, SoundSetup, SoundFeed;
    if rounds > 0 {
      hide SomeCopyInTime, Plays;
      var m := rounds - 1;
      var before, arrival, play := Perfect(st, m, feed), PerfectArrival(st, m, feed), PerfectPlay(st, m, feed);
      PerfectCopies(st, m, feed, n);
      ArrivesInTime(st, feed, m);
      NeverAnother(st, arrival, play, n);
      OneMoreTick(st, before, arrival, n);
      OneMoreTick(st, before + [arrival], play, n);
      OneMorePlay(before, arrival);
      OneMorePlay(before + [arrival], play);
    }
  }

  lemma ArrivesInTime(st: Setup, feed: Feed, m: nat)
    requires SoundFeed(feed) && feed.firstUs <= st.anchorUs
    ensures Timely(st, PerfectArrival(st, m, feed), m)
  {
    assert Wrap64(feed.firstUs + m * st.geo.frameUs) <= feed.firstUs + m * st.geo.frameUs;
    hide Wrap64;
  }

  lemma NeverAnother(st: Setup, arrival: Tick, play: Tick, n: int)
    requires arrival.Arrive? && play.Play?
    ensures Timely(st, arrival, n) ==> n == arrival.n
    ensures !Timely(st, play, n)
  {}

  /** The pre-roll is what is left of the target delay at the first pull, in frames, rounded up. */
  lemma PrerollIsTargetDelay(st: Setup, firstUs: nat)
    requires st.geo.frameUs > 0 && st.anchorUs == firstUs + st.cfg.targetDelayUs && firstUs <= st.firstPullUs
    ensures var left := st.cfg.targetDelayUs - (st.firstPullUs - firstUs);
      if left > 0 then (Preroll(st) - 1) * st.geo.frameUs < left <= Preroll(st) * st.geo.frameUs else Preroll(st) == 0
  {
    var f, left := st.geo.frameUs, st.anchorUs - st.firstPullUs;
    if left > 0 {
      assert left + f - 1 == f * Preroll(st) + (left + f - 1) % f;
      assert f * Preroll(st) == Preroll(st) * f;
      Distribute(Preroll(st), 1, f);
    }
  }

  /** What a perfect run keeps: no late, duplicate or missing frame, one acceptance per round. */
  ghost predicate Flawless(st: Setup, b: Buffer, rounds: nat, start: Stats)
    requires st.geo.frameUs > 0
  {
    && b.queue.n == ZERO.(accepted := rounds, delivered := CursorAfter(st, rounds))
    && b.stats.concealed == start.concealed && b.stats.fecRecovered == start.fecRecovered
    && b.stats.fromPacket == start.fromPacket + CursorAfter(st, rounds)
    && b.stats.silence == start.silence + Min(rounds, Preroll(st))
  }

  /** A setup whose pulls trail the arrivals by a constant time, buffering fewer than 64 frames. */
  ghost predicate PerfectSetup(st: Setup, b: Buffer, feed: Feed) {
    && SoundSetup(st) && Waiting(st, b) && b.queue.n == ZERO
    && st.anchorUs == feed.firstUs + st.cfg.targetDelayUs && feed.firstUs <= st.firstPullUs
    && Preroll(st) < CAPACITY && SoundFeed(feed)
  }

  /** The counters after one arrival on time and then one pull of a frame that is there. */
  lemma PullIsFlawless(st: Setup, b: Buffer, ticks: seq<Tick>, t: Tick, m: nat, start: Stats)
    requires SoundSetup(st) && WithinHorizon(st, CursorAfter(st, m) + CAPACITY)
    requires Tracks(st, b, ticks) && t.Play? && Allowed(st, ticks, t) && Plays(ticks) == m
    requires SomeCopyInTime(st, ticks, CursorAfter(st, m)) && t.codec.decode.Ok()
    requires Flawless(st, b.(queue := b.queue.(n := b.queue.n.(accepted := m))), m, start)
    requires b.queue.n.accepted == m + 1
    ensures Flawless(st, StepB(b, EventOf(st, t)), m + 1, start)
  {
    PullReports(st, b, ticks, t);
    PullCounts(b, t.room, t.now, t.codec);
    NextCursor(st, m);
    assert b.queue.cursor == Seq(st, CursorAfter(st, m)) && b.queue.started;
    assert Stocked(st, b.queue.frames, CursorAfter(st, m), ticks);
    assert b.queue.cursor in b.queue.frames;
    hide PullB, Tracks, Plays, Preroll, CursorAfter, SomeCopyInTime, Seq, Ts, Wrap32, Stocked, Allowed,
         WithinHorizon, Distance;
  }

  lemma PerfectTimes(st: Setup, feed: Feed, m: nat)
    requires SoundSetup(st) && WithinHorizon(st, m + 1) && feed.firstUs <= st.anchorUs
    ensures var now := st.firstPullUs + m * st.geo.frameUs; Wrap64(now) == now
    ensures var at := feed.firstUs + m * st.geo.frameUs; Wrap64(at) == at <= DueUs(st, m)
  {
    NextFrameTime(m, st.geo.frameUs);
    assert 0 <= st.firstPullUs + m * st.geo.frameUs < LIMIT;
    assert 0 <= feed.firstUs + m * st.geo.frameUs < LIMIT;
    hide Exact;
  }

  lemma NextFrameTime(m: nat, f: nat)
    ensures (m + 1) * f == m * f + f && m * f >= 0
  {}

  /** The arrival of round m is accepted. */
  lemma PerfectArrives(st: Setup, b: Buffer, c: Buffer, m: nat, feed: Feed)
    requires PerfectSetup(st, b, feed) && WithinHorizon(st, m + CAPACITY) && m > 0
    requires Tracks(st, c, Perfect(st, m, feed))
    ensures var arrival := PerfectArrival(st, m, feed);
      var d, ticks := StepB(c, EventOf(st, arrival)), Perfect(st, m, feed) + [arrival];
      && Tracks(st, d, ticks) && Plays(ticks) == m && SomeCopyInTime(st, ticks, CursorAfter(st, m))
      && d.queue.n == c.queue.n.(accepted := c.queue.n.accepted + 1) && d.stats == c.stats
      && Allowed(st, ticks, PerfectPlay(st, m, feed))
  {
    var ticks, arrival := Perfect(st, m, feed), PerfectArrival(st, m, feed);
    assert SoundSetup(st) && arrival.Arrive? && arrival.n == m;
    hide *;
    PerfectFacts(st, b, m, feed);
    NewArrival(st, c, ticks, arrival, CursorAfter(st, m));
  }

  /** A copy in time of a frame not seen yet is accepted, and nothing else changes. */
  lemma NewArrival(st: Setup, c: Buffer, ticks: seq<Tick>, t: Tick, k: nat)
    requires SoundSetup(st) && Tracks(st, c, ticks) && t.Arrive? && Allowed(st, ticks, t)
    requires k == CursorAfter(st, Plays(ticks)) && WithinHorizon(st, k + CAPACITY)
    requires k <= t.n < k + CAPACITY && !SomeCopyInTime(st, ticks, t.n)
    requires VerdictOn(st, k, t, false) == PushVerdict.Accepted
    ensures var d := StepB(c, EventOf(st, t));
      && Tracks(st, d, ticks + [t]) && d.queue.n == c.queue.n.(accepted := c.queue.n.accepted + 1) && d.stats == c.stats
  {
    assert Stocked(st, c.queue.frames, k, ticks);
    assert Seq(st, t.n) !in c.queue.frames;
    ArrivalTracks(st, c, ticks, t);
    hide Tracks, Plays, CursorAfter, SomeCopyInTime, Seq, Ts, Allowed, WithinHorizon, SoundSetup, Stocked, PushB,
         VerdictOn;
    LaterArrival(st, c, ticks, t);
  }

  /** What the arrival of tick m is worth, wherever the cursor stands within the window. */
  lemma PerfectArrivalIsTimely(st: Setup, feed: Feed, m: nat, k: nat)
    requires SoundSetup(st) && SoundFeed(feed) && WithinHorizon(st, m + 1) && feed.firstUs <= st.anchorUs
    requires k <= m < k + CAPACITY
    ensures var arrival := PerfectArrival(st, m, feed);
      && Timely(st, arrival, m) && VerdictOn(st, k, arrival, false) == PushVerdict.Accepted
      && (m > 0 ==> arrival.flags % 2 == 0) && arrival.n == m
  {
    PerfectTimes(st, feed, m);
    hide Wrap64, Exact, WithinHorizon, DueUs;
  }

  lemma PerfectPlayIsAllowed(st: Setup, feed: Feed, m: nat, ticks: seq<Tick>)
    requires SoundSetup(st) && SoundFeed(feed) && WithinHorizon(st, m + 1) && feed.firstUs <= st.anchorUs
    requires Plays(ticks) == m
    ensures Allowed(st, ticks, PerfectPlay(st, m, feed))
  {
    PerfectTimes(st, feed, m);
    hide Wrap64, Exact, WithinHorizon, DueUs, Plays;
  }

  lemma PerfectFacts(st: Setup, b: Buffer, m: nat, feed: Feed)
    requires PerfectSetup(st, b, feed) && WithinHorizon(st, m + CAPACITY) && m > 0
    ensures var arrival, ticks, k := PerfectArrival(st, m, feed), Perfect(st, m, feed), CursorAfter(st, m);
      && k <= m < k + CAPACITY && WithinHorizon(st, k + CAPACITY)
      && Plays(ticks) == Plays(ticks + [arrival]) == m && Allowed(st, ticks, arrival)
      && Allowed(st, ticks + [arrival], PerfectPlay(st, m, feed))
      && !SomeCopyInTime(st, ticks, m) && SomeCopyInTime(st, ticks + [arrival], k)
      && VerdictOn(st, k, arrival, false) == PushVerdict.Accepted
  {
    var ticks, arrival, k := Perfect(st, m, feed), PerfectArrival(st, m, feed), CursorAfter(st, m);
    assert k <= m < k + CAPACITY by { hide Preroll; }
    hide Preroll, CursorAfter, WithinHorizon, SoundSetup, SoundFeed, SomeCopyInTime, Timely, VerdictOn, Plays, Perfect;
    ShorterHorizon(st, m + 1, m + CAPACITY);
    ShorterHorizon(st, k + CAPACITY, m + CAPACITY);
    PerfectArrivalIsTimely(st, feed, m, k);
    PerfectCopies(st, m, feed, m);
    PerfectCopies(st, m, feed, k);
    OneMorePlay(ticks, arrival);
    OneMoreTick(st, ticks, arrival, k);
    PerfectPlayIsAllowed(st, feed, m, ticks + [arrival]);
    hide PerfectPlay;
  }

  /** Round number m of a perfect run. */
  lemma PerfectRound(st: Setup, b: Buffer, c: Buffer, m: nat, feed: Feed)
    requires PerfectSetup(st, b, feed) && WithinHorizon(st, m + CAPACITY) && m > 0
    requires Tracks(st, c, Perfect(st, m, feed)) && Flawless(st, c, m, b.stats)
    ensures var d := StepB(StepB(c, EventOf(st, PerfectArrival(st, m, feed))), EventOf(st, PerfectPlay(st, m, feed)));
      Tracks(st, d, Perfect(st, m + 1, feed)) && Flawless(st, d, m + 1, b.stats)
  {
    var ticks := Perfect(st, m, feed) + [PerfectArrival(st, m, feed)];
    var d := StepB(c, EventOf(st, PerfectArrival(st, m, feed)));
    assert SoundSetup(st) && Perfect(st, m + 1, feed) == ticks + [PerfectPlay(st, m, feed)];
    hide *;
    PerfectArrives(st, b, c, m, feed);
    OneAccepted(st, c, d, m, b.stats);
    PerfectPull(st, b, d, m, ticks, feed);
  }

  lemma OneAccepted(st: Setup, c: Buffer, d: Buffer, m: nat, start: Stats)
    requires st.geo.frameUs > 0 && Flawless(st, c, m, start) && d.stats == c.stats
    requires d.queue.n == c.queue.n.(accepted := c.queue.n.accepted + 1)
    ensures Flawless(st, d.(queue := d.queue.(n := d.queue.n.(accepted := m))), m, start) && d.queue.n.accepted == m + 1
  {
    hide CursorAfter, Preroll;
  }

  /** The pull of round m. */
  lemma PerfectPull(st: Setup, b: Buffer, d: Buffer, m: nat, ticks: seq<Tick>, feed: Feed)
    requires SoundSetup(st) && WithinHorizon(st, m + CAPACITY)
    requires Tracks(st, d, ticks) && Plays(ticks) == m && SomeCopyInTime(st, ticks, CursorAfter(st, m))
    requires Allowed(st, ticks, PerfectPlay(st, m, feed)) && feed.codec(m).decode.Ok()
    requires Flawless(st, d.(queue := d.queue.(n := d.queue.n.(accepted := m))), m, b.stats)
    requires d.queue.n.accepted == m + 1
    ensures var play := PerfectPlay(st, m, feed); var e := StepB(d, EventOf(st, play));
      Tracks(st, e, ticks + [play]) && Flawless(st, e, m + 1, b.stats)
  {
    hide StepB, Tracks, Plays, Preroll, SomeCopyInTime, Allowed, WithinHorizon, Flawless, CursorAfter;
    CursorIsBehindPulls(st, m);
    ShorterHorizon(st, CursorAfter(st, m) + CAPACITY, m + CAPACITY);
    PullTracks(st, d, ticks, PerfectPlay(st, m, feed));
    PullIsFlawless(st, d, ticks, PerfectPlay(st, m, feed), m, b.stats);
  }

  /** Round zero, whose arrival opens the stream. */
  lemma PerfectOpening(st: Setup, b: Buffer, feed: Feed)
    requires PerfectSetup(st, b, feed) && WithinHorizon(st, CAPACITY)
    ensures var d := StepB(StepB(b, EventOf(st, PerfectArrival(st, 0, feed))), EventOf(st, PerfectPlay(st, 0, feed)));
      Tracks(st, d, Perfect(st, 1, feed)) && Flawless(st, d, 1, b.stats)
  {
    var arrival, play := PerfectArrival(st, 0, feed), PerfectPlay(st, 0, feed);
    var ticks := Perfect(st, 0, feed) + [arrival];
    assert ticks == [arrival];
    ShorterHorizon(st, 1, CAPACITY);
    PerfectTimes(st, feed, 0);
    assert Timely(st, arrival, 0);
    OneMorePlay([], arrival);
    assert CursorAfter(st, 0) == 0 && Allowed(st, ticks, play);
    assert SomeCopyInTime(st, ticks, 0) by { assert Timely(st, ticks[0], 0); }
    hide StepB, Tracks, Plays, Preroll, SomeCopyInTime, Allowed, WithinHorizon, Timely;
    FirstArrival(st, b, arrival);
    OpeningPush(st, b, arrival);
    PerfectPull(st, b, StepB(b, EventOf(st, arrival)), 0, ticks, feed);
  }

  /** On a perfect network the target delay is the whole latency. With the pulls trailing the arrivals by
      any constant time, K0 the rest of the target delay in frames, rounded up, and K0 < 64: after any number
      of ticks every frame was accepted, the first K0 pulls were silence and all later ones packets, and
      nothing was late, duplicate, missing or concealed. */
  lemma {:induction false} PerfectNetwork(st: Setup, b: Buffer, rounds: nat, feed: Feed)
    requires PerfectSetup(st, b, feed) && WithinHorizon(st, rounds + CAPACITY)
    ensures var c := RunB(b, Events(st, Perfect(st, rounds, feed)));
      && c.queue.n == ZERO.(accepted := rounds, delivered := CursorAfter(st, rounds))
      && c.stats.fromPacket == b.stats.fromPacket + CursorAfter(st, rounds)
      && c.stats.silence == b.stats.silence + Min(rounds, Preroll(st))
      && c.stats.concealed == b.stats.concealed && c.stats.fecRecovered == b.stats.fecRecovered
    ensures var left := st.cfg.targetDelayUs - (st.firstPullUs - feed.firstUs);
      if left > 0 then (Preroll(st) - 1) * st.geo.frameUs < left <= Preroll(st) * st.geo.frameUs else Preroll(st) == 0
  {
    PrerollIsTargetDelay(st, feed.firstUs);
    if rounds == 0 {
      RunOneMore(st, b, [], PerfectPlay(st, 0, feed));
    } else {
      PerfectRunTracks(st, b, rounds, feed);
    }
  }

  lemma {:induction false} PerfectRunTracks(st: Setup, b: Buffer, rounds: nat, feed: Feed)
    requires PerfectSetup(st, b, feed) && WithinHorizon(st, rounds + CAPACITY) && rounds > 0
    ensures var ticks := Perfect(st, rounds, feed); var c := RunB(b, Events(st, ticks));
      Tracks(st, c, ticks) && Flawless(st, c, rounds, b.stats)
  {
    var m := rounds - 1;
    var before := Perfect(st, m, feed);
    ShorterHorizon(st, m + CAPACITY, rounds + CAPACITY);
    assert Ticking(b);
    hide StepB, Tracks, RunB, WithinHorizon, Flawless, Events;
    RunOneMore(st, b, before, PerfectArrival(st, m, feed));
    RunOneMore(st, b, before + [PerfectArrival(st, m, feed)], PerfectPlay(st, m, feed));
    if m == 0 {
      RunOneMore(st, b, [], PerfectPlay(st, m, feed));
      PerfectOpening(st, b, feed);
    } else {
      PerfectRunTracks(st, b, m, feed);
      PerfectRound(st, b, RunB(b, Events(st, before)), m, feed);
    }
  }

  /** A freshly opened buffer, for any configuration the codec supports, waits for its first packet. */
  lemma OpenedIsWaiting(st: Setup)
    requires Supported(st.cfg.decoder) && st.geo == GeometryOf(st.cfg.decoder)
    ensures Waiting(st, OpenB(st.cfg, true)) && OpenB(st.cfg, true).queue.n == ZERO && Exact(st.geo)
  {
    SupportedIsExact(st.cfg);
    hide Exact, Supported, GeometryOf;
    EmptyIsCoherent(OpenB(st.cfg, true));
  }
}
