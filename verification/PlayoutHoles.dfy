/** What fills a position no packet came in time for: the oracle carried through to the fillers. */
module PlayoutHoles {
  import opened Words
  import opened Serial
  import opened Media
  import opened QueueSpec
  import opened PlayoutSpec
  import opened PlayoutRuns
  import opened PlayoutDeadlines
  import opened PlayoutOracle

  /** The copy carries the sender's end-of-talkspurt flag. */
  predicate SaysEnd(t: Tick) { t.Arrive? && t.flags / 2 % 2 == 1 }

  /** The furthest frame any copy so far has called the last. */
  function FurthestEnd(ticks: seq<Tick>): Option<int> {
    if ticks == [] then None
    else
      var before, t := FurthestEnd(ticks[..|ticks| - 1]), ticks[|ticks| - 1];
      if !SaysEnd(t) then before else if before.None? then Some(t.n) else Some(Max(before.value, t.n))
  }

  /** The sender has said it stopped before frame `n`. */
  predicate Over(ticks: seq<Tick>, n: int) { FurthestEnd(ticks).Some? && FurthestEnd(ticks).value < n }

  ghost predicate EndMarked(st: Setup, b: Buffer, ticks: seq<Tick>) {
    && b.hasEnd == FurthestEnd(ticks).Some?
    && (b.hasEnd ==>
          -0x1000_0000 <= FurthestEnd(ticks).value < 0x2000_0000 && b.endSequence == Seq(st, FurthestEnd(ticks).value))
  }

  function EndOf(b: Buffer): (bool, u32) { (b.hasEnd, b.endSequence) }

  lemma PlainArrivalNotesEnd(b: Buffer, p: MediaPacket, arrivalUs: u64)
    requires b.open && b.anchored && b.hasStream && b.streamId == p.header.streamId && !p.header.TalkspurtStart()
    requires b.queue.started && Distance(b.queue.cursor, p.header.sequence) < CAPACITY
    ensures EndOf(PushB(b, p, arrivalUs).0) == EndOf(NoteEndB(b, p.header))
  {
    hide Distance, DeadlineOf, Wrap32, Wrap64;
  }

  lemma OpeningNotesEnd(b: Buffer, p: MediaPacket, arrivalUs: u64)
    requires b.open && !b.anchored && Coherent(b) && !b.hasEnd
    requires |p.payload| <= MAX_FRAME_PAYLOAD
    requires arrivalUs + b.cfg.targetDelayUs < LIMIT
    ensures IsForeign(b, p.header, arrivalUs) || EndOf(PushB(b, p, arrivalUs).0) == EndOf(NoteEndB(b, p.header))
  {
    ZeroDistance(p.header.sequence, p.header.sequence);
    hide Distance, DeadlineOf, Wrap32, Wrap64;
  }

  /** Marking one more end keeps the furthest, through sequence wrap. */
  lemma NoteKeepsFurthest(st: Setup, b: Buffer, ticks: seq<Tick>, t: Tick)
    requires EndMarked(st, b, ticks) && t.Arrive? && -0x1000_0000 <= t.n < 0x2000_0000
    ensures EndMarked(st, NoteEndB(b, EventOf(st, t).packet.header), ticks + [t])
  {
    assert (ticks + [t])[..|ticks|] == ticks;
    if b.hasEnd { SeqDistance(st, FurthestEnd(ticks).value, t.n); }
    hide Seq, Distance;
  }

  lemma ArrivalMarksEnd(st: Setup, b: Buffer, ticks: seq<Tick>, t: Tick)
    requires SoundSetup(st) && WithinHorizon(st, CursorAfter(st, Plays(ticks)) + CAPACITY)
    requires Tracks(st, b, ticks) && t.Arrive? && Allowed(st, ticks, t) && EndMarked(st, b, ticks)
    ensures EndMarked(st, StepB(b, EventOf(st, t)), ticks + [t])
  {
    var c, p := CursorAfter(st, Plays(ticks)), EventOf(st, t).packet;
    SeqDistance(st, c, t.n);
    assert !p.header.TalkspurtStart();
    assert Coherent(b);
    hide Distance, Seq, Plays, CursorAfter, PushB, NoteEndB, Stocked, FurthestEnd, Wrap32;
    PlainArrivalNotesEnd(b, p, t.arrivalUs);
    NoteKeepsFurthest(st, b, ticks, t);
  }

  lemma PullMarksNoEnd(st: Setup, b: Buffer, ticks: seq<Tick>, t: Tick)
    requires SoundSetup(st) && WithinHorizon(st, CursorAfter(st, Plays(ticks)) + CAPACITY)
    requires Tracks(st, b, ticks) && t.Play? && Allowed(st, ticks, t) && EndMarked(st, b, ticks)
    ensures EndMarked(st, StepB(b, EventOf(st, t)), ticks + [t])
  {
    assert (ticks + [t])[..|ticks|] == ticks;
    hide Tracks, Allowed, PullB, Plays, CursorAfter, WithinHorizon, SoundSetup, Preroll, SomeCopyInTime, AdvanceQ,
         Wrap32, Seq;
    PullReports(st, b, ticks, t);
  }

  /** After any script the buffer's end mark is the furthest end flagged, whichever copies carried it and
      in whatever order, refused copies included. */
  lemma {:induction false} EndIsFurthest(st: Setup, b: Buffer, ticks: seq<Tick>)
    requires SoundSetup(st) && Waiting(st, b) && !b.hasEnd && !b.hasStream && Script(st, ticks)
    requires WithinHorizon(st, Plays(ticks) + CAPACITY)
    ensures EndMarked(st, RunB(b, Events(st, ticks)), ticks)
  {
    var before, t := ticks[..|ticks| - 1], ticks[|ticks| - 1];
    assert ticks == before + [t] && Ticking(b);
    assert |ticks| == 1 ==> Timely(st, t, 0) && st.anchorUs == t.arrivalUs + st.cfg.targetDelayUs;
    hide Tracks, RunB, StepB, Events, WithinHorizon, SoundSetup, Waiting, Timely, Allowed, Plays, EndMarked, Script,
         CursorAfter;
    OneMorePlay(before, t);
    ShorterHorizon(st, Plays(before) + CAPACITY, Plays(ticks) + CAPACITY);
    RunOneMore(st, b, before, t);
    if |ticks| == 1 {
      ShorterHorizon(st, CAPACITY, Plays(ticks) + CAPACITY);
      assert before == [];
      FirstMarksEnd(st, b, t);
    } else {
      ScriptPrefix(st, ticks, |ticks| - 1);
      EndIsFurthest(st, b, before);
      ScriptIsTracked(st, b, before);
      StepMarksEnd(st, RunB(b, Events(st, before)), before, t);
    }
  }

  lemma StepMarksEnd(st: Setup, b: Buffer, ticks: seq<Tick>, t: Tick)
    requires SoundSetup(st) && WithinHorizon(st, Plays(ticks) + CAPACITY)
    requires Tracks(st, b, ticks) && Allowed(st, ticks, t) && EndMarked(st, b, ticks)
    ensures EndMarked(st, StepB(b, EventOf(st, t)), ticks + [t])
  {
    CursorIsBehindPulls(st, Plays(ticks));
    ShorterHorizon(st, CursorAfter(st, Plays(ticks)) + CAPACITY, Plays(ticks) + CAPACITY);
    hide Tracks, Allowed, StepB, EndMarked, WithinHorizon, CursorAfter;
    if t.Arrive? { ArrivalMarksEnd(st, b, ticks, t); } else { PullMarksNoEnd(st, b, ticks, t); }
  }

  lemma FirstMarksEnd(st: Setup, b: Buffer, t: Tick)
    requires SoundSetup(st) && WithinHorizon(st, CAPACITY) && Waiting(st, b) && !b.hasEnd && !b.hasStream
    requires Timely(st, t, 0) && st.anchorUs == t.arrivalUs + st.cfg.targetDelayUs
    ensures EndMarked(st, StepB(b, EventOf(st, t)), [] + [t])
  {
    HorizonIsDownward(st, 0, CAPACITY);
    assert EndMarked(st, b, []);
    hide Seq, PushB, NoteEndB, FurthestEnd;
    OpeningNotesEnd(b, EventOf(st, t).packet, t.arrivalUs);
    NoteKeepsFurthest(st, b, [], t);
  }

  // ---------------------------------------------------------------- what is missing in a row

  /** Frame `n` can be rebuilt: correction is on, a copy of the next frame came in time with redundancy in it,
      and the codec can use it. */
  ghost predicate Rebuilt(st: Setup, ticks: seq<Tick>, n: int, codec: Codec) {
    st.cfg.fec && SomeCopyInTime(st, ticks, n + 1) && codec.redundant && codec.recover.Ok()
  }

  /** Frames in a row that had to be done without, up to now: those pulled since the last one that was played or
      rebuilt. Neither a frame past the end of speech nor one that came but did not decode counts. */
  ghost function MissedInARow(st: Setup, ticks: seq<Tick>): nat
    requires st.geo.frameUs > 0
  {
    if ticks == [] then 0
    else
      var before, t := ticks[..|ticks| - 1], ticks[|ticks| - 1];
      var n := Plays(before) - Preroll(st);
      if !t.Play? || n < 0 then MissedInARow(st, before)
      else if SomeCopyInTime(st, before, n) then if t.codec.decode.Ok() then 0 else MissedInARow(st, before)
      else if Over(before, n) then MissedInARow(st, before)
      else if Rebuilt(st, before, n, t.codec) then 0
      else MissedInARow(st, before) + 1
  }

  lemma {:induction false} MissedArePulled(st: Setup, ticks: seq<Tick>)
    requires st.geo.frameUs > 0
    ensures MissedInARow(st, ticks) <= Plays(ticks)
  {
    hide SomeCopyInTime, Preroll, Over, Rebuilt;
    if ticks != [] { MissedArePulled(st, ticks[..|ticks| - 1]); }
  }

  /** What one more tick does to that count. */
  lemma OneMoreMissed(st: Setup, ticks: seq<Tick>, t: Tick)
    requires st.geo.frameUs > 0
    ensures var n, m := Plays(ticks) - Preroll(st), MissedInARow(st, ticks);
      MissedInARow(st, ticks + [t]) ==
        if !t.Play? || n < 0 then m
        else if SomeCopyInTime(st, ticks, n) then if t.codec.decode.Ok() then 0 else m
        else if Over(ticks, n) then m
        else if Rebuilt(st, ticks, n, t.codec) then 0
        else m + 1
  {
    assert (ticks + [t])[..|ticks|] == ticks;
    hide SomeCopyInTime, Preroll, Over, Rebuilt, Plays;
  }

  /** The codec's part of a hole: what is reported and what becomes of the run of missing frames. */
  lemma FillsBest(b: Buffer, codec: Codec)
    ensures var (d, out) := FillB(b, codec);
      var over, rebuilt, run, most := PastEnd(b), Recoverable(b, codec), b.concealRun, b.cfg.maxConcealRun;
      && (out.source == ForwardCorrection <==> !over && rebuilt)
      && (out.source == Concealment <==> !over && !rebuilt && run < most && codec.conceal.Ok())
      && out.source != Packet
      && out.samples == (if out.source == ForwardCorrection then codec.recover.samples
                         else if out.source == Concealment then codec.conceal.samples else b.geo.framePcm)
      && out.error == (if !over && !rebuilt && run < most then codec.conceal.error else 0)
      && d.concealRun == if over then run else if rebuilt then 0 else Wrap32(run + 1)
    ensures Recoverable(b, codec) <==>
      b.cfg.fec && PeekQ(b.queue, Wrap32(b.queue.cursor + 1)).Some? && codec.redundant && codec.recover.Ok()
  {
    hide PeekQ, PastEnd, Wrap32;
  }

  lemma PlayKeepsRun(b: Buffer, f: Frame, codec: Codec)
    ensures PlayB(b, f, codec).0.concealRun == if codec.decode.Ok() then 0 else b.concealRun
  {
    hide Wrap32, AdvanceQ;
  }

  lemma NextRun(run: nat)
    requires run < 0xFFFF_FFFF
    ensures Wrap32(run + 1) == run + 1
  {}

  /** What a pull past the pre-roll does: it plays or fills where the buffer stands. */
  lemma PullPlaysOrFills(st: Setup, b: Buffer, ticks: seq<Tick>, t: Tick)
    requires SoundSetup(st) && WithinHorizon(st, CursorAfter(st, Plays(ticks)) + CAPACITY)
    requires Tracks(st, b, ticks) && t.Play? && Allowed(st, ticks, t) && EndMarked(st, b, ticks)
    requires Plays(ticks) >= Preroll(st)
    ensures var n := Plays(ticks) - Preroll(st); var held := PeekQ(b.queue, b.queue.cursor);
      && PullB(b, t.room, t.now, t.codec) == PlayOrFillB(b, held, t.codec)
      && held.Some? == SomeCopyInTime(st, ticks, n) && b.cfg == st.cfg && b.geo == st.geo
      && (held.None? ==> PastEnd(b) == Over(ticks, n) && Recoverable(b, t.codec) == Rebuilt(st, ticks, n, t.codec))
  {
    var n := Plays(ticks) - Preroll(st);
    assert CursorAfter(st, Plays(ticks)) == n;
    PullInStep(st, b, ticks, t);
    if SomeCopyInTime(st, ticks, n) { StandsAtFrame(st, b, ticks, n); } else { StandsAtHole(st, b, ticks, n); }
    hide Distance, DeadlineOf, Seq, Ts, Wrap32, Plays, Preroll, AlignB, SomeCopyInTime, AdvanceQ, Behind, Due, Coherent,
         Stocked, FurthestEnd, PlayOrFillB, PastEnd, Recoverable, ArrivalsBelow, EndMarked;
    var held := PeekQ(b.queue, b.queue.cursor);
    assert PositionB(b, held, t.now) == (b, held);
    FillsBest(b, t.codec);
  }

  lemma StandsAtFrame(st: Setup, b: Buffer, ticks: seq<Tick>, n: nat)
    requires st.geo.frameUs > 0 && CursorAfter(st, Plays(ticks)) == n
    requires Tracks(st, b, ticks) && SomeCopyInTime(st, ticks, n)
    ensures PeekQ(b.queue, b.queue.cursor).Some?
  {
    assert Seq(st, n) in b.queue.frames;
    assert b.queue.cursor == Seq(st, n) && Coherent(b);
    hide Seq, SomeCopyInTime, Plays, CursorAfter, Stocked, Distance, Wrap32;
    ZeroDistance(b.queue.cursor, b.queue.cursor);
  }

  lemma PullCountsMissed(st: Setup, b: Buffer, ticks: seq<Tick>, t: Tick)
    requires SoundSetup(st) && WithinHorizon(st, CursorAfter(st, Plays(ticks)) + CAPACITY)
    requires Tracks(st, b, ticks) && t.Play? && Allowed(st, ticks, t) && EndMarked(st, b, ticks)
    requires b.concealRun == MissedInARow(st, ticks) < 0xFFFF_FFFF
    ensures StepB(b, EventOf(st, t)).concealRun == MissedInARow(st, ticks + [t])
  {
    OneMoreMissed(st, ticks, t);
    NextRun(b.concealRun);
    if Plays(ticks) < Preroll(st) {
      PullReports(st, b, ticks, t);
      hide PullB, Tracks, Plays, Preroll, MissedInARow, SomeCopyInTime, EndMarked, CursorAfter;
    } else {
      PullPlaysOrFills(st, b, ticks, t);
      FillsBest(b, t.codec);
      var held := PeekQ(b.queue, b.queue.cursor);
      if held.Some? { PlayKeepsRun(b, held.value, t.codec); }
      hide PullB, Tracks, Plays, Preroll, MissedInARow, SomeCopyInTime, EndMarked, CursorAfter, FillB, PlayB, PastEnd,
           Recoverable, PeekQ, Wrap32, Over, Rebuilt, AdvanceQ, Allowed, WithinHorizon, SoundSetup;
    }
  }

  lemma ArrivalCountsMissed(st: Setup, b: Buffer, ticks: seq<Tick>, t: Tick)
    requires SoundSetup(st) && WithinHorizon(st, CursorAfter(st, Plays(ticks)) + CAPACITY)
    requires Tracks(st, b, ticks) && t.Arrive? && Allowed(st, ticks, t)
    requires b.concealRun == MissedInARow(st, ticks)
    ensures StepB(b, EventOf(st, t)).concealRun == MissedInARow(st, ticks + [t])
  {
    LaterArrival(st, b, ticks, t);
    OneMoreMissed(st, ticks, t);
    hide PushB, Tracks, Allowed, MissedInARow, Plays, CursorAfter, VerdictOn, Seq, SomeCopyInTime;
  }

  lemma OpeningCountsMissed(st: Setup, b: Buffer, t: Tick)
    requires SoundSetup(st) && Waiting(st, b) && !b.hasStream && b.concealRun == 0
    requires Timely(st, t, 0) && st.anchorUs == t.arrivalUs + st.cfg.targetDelayUs
    ensures StepB(b, EventOf(st, t)).concealRun == MissedInARow(st, [t])
  {
    assert st.geo.frameUs > 0 && t.Arrive? && !b.anchored;
    assert StepB(b, EventOf(st, t)) == PushB(b, EventOf(st, t).packet, t.arrivalUs).0;
    assert [] + [t] == [t] && MissedInARow(st, []) == 0;
    hide *;
    OneMoreMissed(st, [], t);
    OpeningHasNoRun(b, EventOf(st, t).packet, t.arrivalUs);
  }

  lemma OpeningHasNoRun(b: Buffer, p: MediaPacket, arrivalUs: u64)
    requires !b.hasStream && !b.anchored && b.concealRun == 0
    ensures PushB(b, p, arrivalUs).0.concealRun == 0
  {
    hide Distance, DeadlineOf, Wrap32, Wrap64, InsertQ, StartQ, ResyncQ;
  }

  lemma StepCountsMissed(st: Setup, b: Buffer, ticks: seq<Tick>, t: Tick)
    requires SoundSetup(st) && WithinHorizon(st, Plays(ticks) + CAPACITY)
    requires Tracks(st, b, ticks) && Allowed(st, ticks, t) && EndMarked(st, b, ticks)
    requires b.concealRun == MissedInARow(st, ticks)
    ensures StepB(b, EventOf(st, t)).concealRun == MissedInARow(st, ticks + [t])
  {
    CursorIsBehindPulls(st, Plays(ticks));
    ShorterHorizon(st, CursorAfter(st, Plays(ticks)) + CAPACITY, Plays(ticks) + CAPACITY);
    MissedArePulled(st, ticks);
    hide Tracks, Allowed, StepB, EndMarked, CursorAfter, MissedInARow;
    if t.Arrive? { ArrivalCountsMissed(st, b, ticks, t); } else { PullCountsMissed(st, b, ticks, t); }
  }

  /** After any script the run the buffer keeps is the run of frames really missed. */
  lemma {:induction false} MissedAreCounted(st: Setup, b: Buffer, ticks: seq<Tick>)
    requires SoundSetup(st) && Waiting(st, b) && !b.hasEnd && !b.hasStream && Script(st, ticks) && b.concealRun == 0
    requires WithinHorizon(st, Plays(ticks) + CAPACITY)
    ensures RunB(b, Events(st, ticks)).concealRun == MissedInARow(st, ticks)
  {
    var before, t := ticks[..|ticks| - 1], ticks[|ticks| - 1];
    assert ticks == before + [t] && Ticking(b);
    assert |ticks| == 1 ==> Timely(st, t, 0) && st.anchorUs == t.arrivalUs + st.cfg.targetDelayUs;
    hide Tracks, RunB, StepB, Events, WithinHorizon, SoundSetup, Waiting, Timely, Allowed, Plays, EndMarked, Script,
         CursorAfter, MissedInARow;
    OneMorePlay(before, t);
    ShorterHorizon(st, Plays(before) + CAPACITY, Plays(ticks) + CAPACITY);
    RunOneMore(st, b, before, t);
    if |ticks| == 1 {
      assert before == [] && ticks == [t];
      OpeningCountsMissed(st, b, t);
    } else {
      ScriptPrefix(st, ticks, |ticks| - 1);
      MissedAreCounted(st, b, before);
      ScriptIsTracked(st, b, before);
      EndIsFurthest(st, b, before);
      StepCountsMissed(st, RunB(b, Events(st, before)), before, t);
    }
  }

  // ---------------------------------------------------------------- the oracle

  /** What the speaker is owed at hole `n` when `missed` frames before it were done without, and with it the
      samples and the error reported. */
  ghost predicate FilledBest(st: Setup, ticks: seq<Tick>, n: int, missed: nat, codec: Codec, out: Pulled) {
    var over, rebuilt, most := Over(ticks, n), Rebuilt(st, ticks, n, codec), st.cfg.maxConcealRun;
    && out.sequence == Seq(st, n) && out.timestamp == Ts(st, n)
    && (out.source == ForwardCorrection <==> !over && rebuilt)
    && (out.source == Concealment <==> !over && !rebuilt && missed < most && codec.conceal.Ok())
    && out.source != Packet
    && out.samples == (if out.source == ForwardCorrection then codec.recover.samples
                       else if out.source == Concealment then codec.conceal.samples else st.geo.framePcm)
    && out.error == if !over && !rebuilt && missed < most then codec.conceal.error else 0
  }

  /** The oracle for holes. At a pull past the pre-roll whose frame `n` never came in time: if the sender
      has said it stopped before `n`, the speaker gets silence, not an invention; otherwise the frame
      is rebuilt if and only if correction is on, a copy of the next frame came in time with
      redundancy in it, and the codec could use it; and only what is left is concealed, if and only if
      fewer than `max_conceal_run` frames in a row before it had to be done without and the codec obliges. */
  lemma HolesAreFilledBest(st: Setup, b: Buffer, ticks: seq<Tick>, t: Tick)
    requires SoundSetup(st) && Waiting(st, b) && !b.hasEnd && !b.hasStream && Script(st, ticks)
    requires t.Play? && Allowed(st, ticks, t) && WithinHorizon(st, Plays(ticks) + CAPACITY)
    requires Plays(ticks) >= Preroll(st) && !SomeCopyInTime(st, ticks, Plays(ticks) - Preroll(st))
    ensures var c := RunB(b, Events(st, ticks)); var out := PullB(c, t.room, t.now, t.codec).1;
      && FilledBest(st, ticks, Plays(ticks) - Preroll(st), c.concealRun, t.codec, out)
      && (b.concealRun == 0 ==> c.concealRun == MissedInARow(st, ticks))
  {
    hide *;
    HoleIsFilled(st, b, ticks, t);
    if b.concealRun == 0 { MissedAreCounted(st, b, ticks); }
  }

  lemma HoleIsFilled(st: Setup, b: Buffer, ticks: seq<Tick>, t: Tick)
    requires SoundSetup(st) && Waiting(st, b) && !b.hasEnd && !b.hasStream && Script(st, ticks)
    requires t.Play? && Allowed(st, ticks, t) && WithinHorizon(st, Plays(ticks) + CAPACITY)
    requires Plays(ticks) >= Preroll(st) && !SomeCopyInTime(st, ticks, Plays(ticks) - Preroll(st))
    ensures var c := RunB(b, Events(st, ticks));
      FilledBest(st, ticks, Plays(ticks) - Preroll(st), c.concealRun, t.codec, PullB(c, t.room, t.now, t.codec).1)
  {
    assert st.geo.frameUs > 0;
    hide *;
    CursorIsBehindPulls(st, Plays(ticks));
    ShorterHorizon(st, CursorAfter(st, Plays(ticks)) + CAPACITY, Plays(ticks) + CAPACITY);
    ScriptIsTracked(st, b, ticks);
    EndIsFurthest(st, b, ticks);
    PullFillsBest(st, RunB(b, Events(st, ticks)), ticks, t);
  }

  /** All that a pull owes, from the ticks before it alone: silence in the pre-roll; a frame that came in time, as
      decoded; the best filler otherwise. */
  ghost predicate Owed(st: Setup, ticks: seq<Tick>, codec: Codec, out: Pulled)
    requires st.geo.frameUs > 0
  {
    var n := Plays(ticks) - Preroll(st);
    if n < 0 then out == Pulled(Silence, Seq(st, 0), Ts(st, 0), st.geo.framePcm, 0)
    else if SomeCopyInTime(st, ticks, n) then
      out.sequence == Seq(st, n) && out.timestamp == Ts(st, n) && Decoded(st, out, codec)
    else FilledBest(st, ticks, n, MissedInARow(st, ticks), codec, out)
  }

  /** The whole oracle: on every script every pull of a buffer without a stream reports what is owed. */
  lemma EveryPullIsOwed(st: Setup, b: Buffer, ticks: seq<Tick>, t: Tick)
    requires SoundSetup(st) && Waiting(st, b) && !b.hasEnd && !b.hasStream && Script(st, ticks) && b.concealRun == 0
    requires t.Play? && Allowed(st, ticks, t) && WithinHorizon(st, Plays(ticks) + CAPACITY)
    ensures Owed(st, ticks, t.codec, PullB(RunB(b, Events(st, ticks)), t.room, t.now, t.codec).1)
  {
    assert st.geo.frameUs > 0;
    var n := Plays(ticks) - Preroll(st);
    hide *;
    if n >= 0 && !SomeCopyInTime(st, ticks, n) {
      FillerAtHole(st, b, ticks, t);
    } else {
      PlaysWhatArrivedInTime(st, b, ticks, t);
      FrameIsOwed(st, ticks, t.codec, PullB(RunB(b, Events(st, ticks)), t.room, t.now, t.codec).1);
    }
  }

  lemma FillerAtHole(st: Setup, b: Buffer, ticks: seq<Tick>, t: Tick)
    requires SoundSetup(st) && Waiting(st, b) && !b.hasEnd && !b.hasStream && Script(st, ticks) && b.concealRun == 0
    requires t.Play? && Allowed(st, ticks, t) && WithinHorizon(st, Plays(ticks) + CAPACITY)
    requires Plays(ticks) >= Preroll(st) && !SomeCopyInTime(st, ticks, Plays(ticks) - Preroll(st))
    ensures Owed(st, ticks, t.codec, PullB(RunB(b, Events(st, ticks)), t.room, t.now, t.codec).1)
  {
    assert st.geo.frameUs > 0;
    hide *;
    HolesAreFilledBest(st, b, ticks, t);
    FillerIsOwed(st, ticks, t.codec, PullB(RunB(b, Events(st, ticks)), t.room, t.now, t.codec).1);
  }

  lemma FrameIsOwed(st: Setup, ticks: seq<Tick>, codec: Codec, out: Pulled)
    requires st.geo.frameUs > 0
    requires var n := Plays(ticks) - Preroll(st);
      if n < 0 then out == Pulled(Silence, Seq(st, 0), Ts(st, 0), st.geo.framePcm, 0)
      else
        && SomeCopyInTime(st, ticks, n) && out.sequence == Seq(st, n) && out.timestamp == Ts(st, n)
        && Decoded(st, out, codec)
    ensures Owed(st, ticks, codec, out)
  {
    hide FilledBest, Plays, Preroll, SomeCopyInTime, MissedInARow, Decoded;
  }

  lemma FillerIsOwed(st: Setup, ticks: seq<Tick>, codec: Codec, out: Pulled)
    requires st.geo.frameUs > 0
    requires var n := Plays(ticks) - Preroll(st);
      n >= 0 && !SomeCopyInTime(st, ticks, n) && FilledBest(st, ticks, n, MissedInARow(st, ticks), codec, out)
    ensures Owed(st, ticks, codec, out)
  {
    hide FilledBest, Plays, Preroll, SomeCopyInTime, MissedInARow, Decoded;
  }

  lemma PullFillsBest(st: Setup, b: Buffer, ticks: seq<Tick>, t: Tick)
    requires SoundSetup(st) && WithinHorizon(st, CursorAfter(st, Plays(ticks)) + CAPACITY)
    requires Tracks(st, b, ticks) && t.Play? && Allowed(st, ticks, t) && EndMarked(st, b, ticks)
    requires Plays(ticks) >= Preroll(st) && !SomeCopyInTime(st, ticks, Plays(ticks) - Preroll(st))
    ensures var out := PullB(b, t.room, t.now, t.codec).1;
      FilledBest(st, ticks, Plays(ticks) - Preroll(st), b.concealRun, t.codec, out)
  {
    PullPlaysOrFills(st, b, ticks, t);
    PullReports(st, b, ticks, t);
    FillsBest(b, t.codec);
    assert CursorAfter(st, Plays(ticks)) == Plays(ticks) - Preroll(st);
    hide PullB, Tracks, Plays, Preroll, SomeCopyInTime, EndMarked, CursorAfter, FillB, PastEnd, Recoverable, PeekQ,
         Wrap32, Over, Rebuilt, AdvanceQ, Allowed, WithinHorizon, SoundSetup, Seq, Ts, NextFrameB;
  }

  lemma StandsAtHole(st: Setup, b: Buffer, ticks: seq<Tick>, n: nat)
    requires st.geo.frameUs > 0 && CursorAfter(st, Plays(ticks)) == n < 0x1000_0000
    requires Tracks(st, b, ticks) && EndMarked(st, b, ticks) && !SomeCopyInTime(st, ticks, n)
    ensures PeekQ(b.queue, b.queue.cursor) == None && PastEnd(b) == Over(ticks, n)
    ensures PeekQ(b.queue, Wrap32(b.queue.cursor + 1)).Some? == SomeCopyInTime(st, ticks, n + 1)
  {
    assert Seq(st, n) !in b.queue.frames;
    assert Seq(st, n + 1) in b.queue.frames <==> SomeCopyInTime(st, ticks, n + 1);
    assert b.queue.cursor == Seq(st, n);
    hide Tracks, SomeCopyInTime, Plays, CursorAfter;
    StepsOn(st, n);
    PastFurthest(st, b, ticks, n);
    hide Seq, Wrap32, PastEnd, Over, EndMarked;
  }

  lemma StepsOn(st: Setup, n: nat)
    ensures Wrap32(Seq(st, n) + 1) == Seq(st, n + 1)
  {}

  lemma PastFurthest(st: Setup, b: Buffer, ticks: seq<Tick>, n: nat)
    requires EndMarked(st, b, ticks) && b.queue.cursor == Seq(st, n) && n < 0x1000_0000
    ensures PastEnd(b) == Over(ticks, n)
  {
    if b.hasEnd { SeqDistance(st, n, FurthestEnd(ticks).value); }
    hide Seq, Distance, FurthestEnd;
  }
}
