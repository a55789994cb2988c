/** A stream that takes over starts afresh: nothing of the stream before it is left to be heard. */
module PlayoutTakeover {
  import opened Words
  import opened Serial
  import opened Media
  import opened QueueSpec
  import opened PlayoutSpec
  import opened PlayoutRuns
  import opened PlayoutAccounting
  import opened PlayoutOracle
  import opened PlayoutHoles

  /** What can still be heard of a buffer: all but its counters, and an end mark only if one is set. */
  function Heard(b: Buffer): Buffer {
    b.(stats := NO_STATS, endSequence := if b.hasEnd then b.endSequence else 0)
  }

  /** The two buffers differ in nothing that can be heard. */
  predicate Alike(b: Buffer, c: Buffer) { Heard(b) == Heard(c) }

  lemma AdoptAlike(b: Buffer, c: Buffer, h: MediaHeader, arrivalUs: u64)
    requires Alike(b, c)
    ensures Alike(AdoptB(b, h, arrivalUs), AdoptB(c, h, arrivalUs))
    ensures IsForeign(b, h, arrivalUs) == IsForeign(c, h, arrivalUs)
  {}

  lemma AnchorAlike(b: Buffer, c: Buffer, timestamp: u32, arrivalUs: u64)
    requires Alike(b, c)
    ensures Alike(AnchorB(b, timestamp, arrivalUs), AnchorB(c, timestamp, arrivalUs))
  {
    hide Wrap64;
  }

  lemma RestartAlike(b: Buffer, c: Buffer, h: MediaHeader, arrivalUs: u64)
    requires Alike(b, c)
    ensures Alike(RestartB(b, h, arrivalUs), RestartB(c, h, arrivalUs))
  {
    AnchorAlike(b, c, h.timestamp, arrivalUs);
    hide AnchorB, ResyncQ;
  }

  lemma EndlessAlike(b: Buffer, c: Buffer)
    requires Alike(b, c)
    ensures Alike(b.(hasEnd := false), c.(hasEnd := false))
  {}

  lemma PlaceOnlyAlike(b: Buffer, c: Buffer, h: MediaHeader, arrivalUs: u64)
    requires Alike(b, c)
    ensures Alike(PlaceB(b, h, arrivalUs), PlaceB(c, h, arrivalUs))
  {
    hide Distance, Wrap64, AnchorB, RestartB, StartQ;
    AnchorAlike(b, c, h.timestamp, arrivalUs);
    EndlessAlike(b, c);
    AnchorAlike(b.(hasEnd := false), c.(hasEnd := false), h.timestamp, arrivalUs);
    RestartAlike(b.(hasEnd := false), c.(hasEnd := false), h, arrivalUs);
  }

  lemma NoteEndAlike(b: Buffer, c: Buffer, h: MediaHeader)
    requires Alike(b, c)
    ensures Alike(NoteEndB(b, h), NoteEndB(c, h))
  {
    hide Distance;
  }

  lemma PlaceAlike(b: Buffer, c: Buffer, h: MediaHeader, arrivalUs: u64)
    requires Alike(b, c)
    ensures Alike(NoteEndB(PlaceB(b, h, arrivalUs), h), NoteEndB(PlaceB(c, h, arrivalUs), h))
  {
    PlaceOnlyAlike(b, c, h, arrivalUs);
    NoteEndAlike(PlaceB(b, h, arrivalUs), PlaceB(c, h, arrivalUs), h);
    hide Alike, PlaceB, NoteEndB;
  }

  lemma InsertAlike(b: Buffer, c: Buffer, p: MediaPacket, arrivalUs: u64)
    requires Alike(b, c)
    ensures Alike(InsertB(b, p, arrivalUs).0, InsertB(c, p, arrivalUs).0)
    ensures InsertB(b, p, arrivalUs).1 == InsertB(c, p, arrivalUs).1
  {
    hide InsertQ, DeadlineOf;
  }

  lemma PushAlike(b: Buffer, c: Buffer, p: MediaPacket, arrivalUs: u64)
    requires Alike(b, c)
    ensures Alike(PushB(b, p, arrivalUs).0, PushB(c, p, arrivalUs).0)
    ensures PushB(b, p, arrivalUs).1 == PushB(c, p, arrivalUs).1
  {
    var h := p.header;
    AdoptAlike(b, c, h, arrivalUs);
    PlaceAlike(AdoptB(b, h, arrivalUs), AdoptB(c, h, arrivalUs), h, arrivalUs);
    var bp, cp := NoteEndB(PlaceB(AdoptB(b, h, arrivalUs), h, arrivalUs), h),
                  NoteEndB(PlaceB(AdoptB(c, h, arrivalUs), h, arrivalUs), h);
    InsertAlike(bp, cp, p, arrivalUs);
    var bi, ci := InsertB(bp, p, arrivalUs).0, InsertB(cp, p, arrivalUs).0;
    RestartAlike(bi, ci, h, arrivalUs);
    EndlessAlike(RestartB(bi, h, arrivalUs), RestartB(ci, h, arrivalUs));
    var br, cr := RestartB(bi, h, arrivalUs).(hasEnd := false), RestartB(ci, h, arrivalUs).(hasEnd := false);
    InsertAlike(br, cr, p, arrivalUs);
    hide AdoptB, PlaceB, NoteEndB, InsertB, RestartB, IsForeign;
  }

  lemma NextAlike(b: Buffer, c: Buffer)
    requires Alike(b, c)
    ensures Alike(NextFrameB(b), NextFrameB(c))
  {
    hide AdvanceQ, Wrap32;
  }

  lemma HoleAlike(b: Buffer, c: Buffer, codec: Codec)
    requires Alike(b, c)
    ensures Alike(FillB(b, codec).0, FillB(c, codec).0) && FillB(b, codec).1 == FillB(c, codec).1
  {
    assert PastEnd(b) == PastEnd(c);
    assert Recoverable(b, codec) == Recoverable(c, codec);
    hide PastEnd, Recoverable, Wrap32;
  }

  lemma FrameAlike(b: Buffer, c: Buffer, f: Frame, codec: Codec)
    requires Alike(b, c)
    ensures Alike(PlayB(b, f, codec).0, PlayB(c, f, codec).0) && PlayB(b, f, codec).1 == PlayB(c, f, codec).1
  {
    hide AdvanceQ, Wrap32;
  }

  lemma FillAlike(b: Buffer, c: Buffer, held: Option<Frame>, codec: Codec)
    requires Alike(b, c)
    ensures Alike(PlayOrFillB(b, held, codec).0, PlayOrFillB(c, held, codec).0)
    ensures PlayOrFillB(b, held, codec).1 == PlayOrFillB(c, held, codec).1
  {
    HoleAlike(b, c, codec);
    NextAlike(FillB(b, codec).0, FillB(c, codec).0);
    if held.Some? { FrameAlike(b, c, held.value, codec); }
    hide Alike, FillB, PlayB, NextFrameB;
  }

  lemma AlignAlike(b: Buffer, c: Buffer)
    requires Alike(b, c)
    ensures Alike(AlignB(b).0, AlignB(c).0) && AlignB(b).1 == AlignB(c).1
  {
    hide PeekQ, Distance;
  }

  lemma CatchUpAlike(b: Buffer, c: Buffer, jump: nat)
    requires Alike(b, c)
    ensures Alike(CatchUpB(b, jump), CatchUpB(c, jump))
  {
    hide SkipToQ, Wrap32;
  }

  lemma PositionAlike(b: Buffer, c: Buffer, held: Option<Frame>, now: u64)
    requires Alike(b, c) && b.geo.frameUs > 0 && Due(b, b.playoutTs) <= now
    ensures Due(c, c.playoutTs) <= now && c.geo.frameUs > 0
    ensures Alike(PositionB(b, held, now).0, PositionB(c, held, now).0)
    ensures PositionB(b, held, now).1 == PositionB(c, held, now).1
  {
    hide DeadlineOf, AlignB, CatchUpB;
    var jump := Min(Behind(b, now), MAX_CATCHUP_JUMP);
    CatchUpAlike(b, c, jump);
    AlignAlike(CatchUpB(b, jump), CatchUpB(c, jump));
  }

  lemma PullAlike(b: Buffer, c: Buffer, room: nat, now: u64, codec: Codec)
    requires Alike(b, c) && Ticking(b)
    ensures Ticking(c) && Alike(PullB(b, room, now, codec).0, PullB(c, room, now, codec).0)
    ensures PullB(b, room, now, codec).1 == PullB(c, room, now, codec).1
  {
    hide Distance, PeekQ, Wrap32, DeadlineOf, PositionB, PlayOrFillB;
    var (a, held) := AlignB(b);
    assert Alike(a, AlignB(c).0) && AlignB(c).1 == held;
    if b.open && now >= Due(a, a.playoutTs) {
      PositionAlike(a, AlignB(c).0, held, now);
      var (d, have) := PositionB(a, held, now);
      FillAlike(d, PositionB(AlignB(c).0, held, now).0, have, codec);
    }
  }

  lemma StepAlike(b: Buffer, c: Buffer, e: Event)
    requires Alike(b, c) && Ticking(b) && Ticking(c)
    ensures Alike(StepB(b, e), StepB(c, e))
  {
    match e
    case PushE(packet, arrivalUs) => hide PushB, Alike; PushAlike(b, c, packet, arrivalUs);
    case PullE(room, now, codec) => hide PullB, Alike; PullAlike(b, c, room, now, codec);
  }

  lemma {:induction false} RunAlike(b: Buffer, c: Buffer, events: seq<Event>)
    requires Alike(b, c) && Ticking(b) && Ticking(c)
    ensures Alike(RunB(b, events), RunB(c, events))
  {
    if events != [] {
      var before := events[..|events| - 1];
      RunAlike(b, c, before);
      hide Alike, StepB;
      StepAlike(RunB(b, before), RunB(c, before), events[|events| - 1]);
    }
  }

  lemma {:induction false} FirstThenRest(b: Buffer, e: Event, later: seq<Event>)
    requires Ticking(b)
    ensures RunB(b, [e] + later) == RunB(StepB(b, e), later)
  {
    hide StepB;
    if later == [] {
      assert ([e] + later)[..0] == [] && ([e] + later)[0] == e;
    } else {
      var before, last := later[..|later| - 1], later[|later| - 1];
      FirstThenRest(b, e, before);
      assert ([e] + later)[..|later|] == [e] + before && ([e] + later)[|later|] == last;
    }
  }

  /** A buffer newly opened on the same configuration. */
  function Anew(b: Buffer): Buffer { OpenB(b.cfg, true) }

  /** After a stream reset, whatever was there before, the next packet leaves what it leaves in a new buffer. */
  lemma ResetIsForgotten(b: Buffer, p: MediaPacket, arrivalUs: u64)
    requires b.open && SameSetup(b, Anew(b))
    ensures var (c, verdict) := PushB(ResetStreamB(b), p, arrivalUs);
      Alike(c, PushB(Anew(b), p, arrivalUs).0) && verdict == PushB(Anew(b), p, arrivalUs).1
  {
    var h := p.header;
    var bp := NoteEndB(PlaceB(AdoptB(ResetStreamB(b), h, arrivalUs), h, arrivalUs), h);
    var cp := NoteEndB(PlaceB(AdoptB(Anew(b), h, arrivalUs), h, arrivalUs), h);
    assert Alike(bp, cp) by { hide GeometryOf, Wrap64; }
    hide GeometryOf, PlaceB, NoteEndB, InsertB, RestartB;
    InsertAlike(bp, cp, p, arrivalUs);
    var bi, ci := InsertB(bp, p, arrivalUs).0, InsertB(cp, p, arrivalUs).0;
    RestartAlike(bi, ci, h, arrivalUs);
    EndlessAlike(RestartB(bi, h, arrivalUs), RestartB(ci, h, arrivalUs));
    var br, cr := RestartB(bi, h, arrivalUs).(hasEnd := false), RestartB(ci, h, arrivalUs).(hasEnd := false);
    InsertAlike(br, cr, p, arrivalUs);
  }

  lemma TakeoverIsReset(b: Buffer, p: MediaPacket, arrivalUs: u64)
    requires TakesOver(b, PushE(p, arrivalUs))
    ensures PushB(b, p, arrivalUs) == PushB(ResetStreamB(b), p, arrivalUs)
  {
    hide PlaceB, NoteEndB, InsertB, RestartB, MayTakeOver;
  }

  /** A takeover is a fresh start. Whatever the buffer has been through, from the packet that takes it over on
      it answers every arrival and every pull as a buffer would that was newly opened for that packet: only
      the counters remember the old stream. */
  lemma TakeoverIsFreshStart(
    b: Buffer, p: MediaPacket, arrivalUs: u64, later: seq<Event>, room: nat, now: u64, codec: Codec, q: MediaPacket)
    requires Ticking(b) && SameSetup(b, Anew(b)) && TakesOver(b, PushE(p, arrivalUs))
    ensures var events := [PushE(p, arrivalUs)] + later;
      var c, d := RunB(b, events), RunB(Anew(b), events);
      && PushB(b, p, arrivalUs).1 == PushB(Anew(b), p, arrivalUs).1 && Alike(c, d)
      && PullB(c, room, now, codec).1 == PullB(d, room, now, codec).1
      && PushB(c, q, now).1 == PushB(d, q, now).1
  {
    var first := PushE(p, arrivalUs);
    FirstThenRest(b, first, later);
    FirstThenRest(Anew(b), first, later);
    TakeoverIsReset(b, p, arrivalUs);
    ResetIsForgotten(b, p, arrivalUs);
    hide Alike, PushB, PullB, RunB, Anew;
    RunAlike(StepB(b, first), StepB(Anew(b), first), later);
    var c, d := RunB(StepB(b, first), later), RunB(StepB(Anew(b), first), later);
    PullAlike(c, d, room, now, codec);
    PushAlike(c, d, q, now);
  }

  /** Every open buffer a run reaches was opened on its own configuration. */
  lemma RunsAreSetUp(cfg: Config, events: seq<Event>)
    requires OpenB(cfg, true).open
    ensures Ticking(OpenB(cfg, true))
    ensures var b := RunB(OpenB(cfg, true), events); b.open && SameSetup(b, Anew(b))
  {
    hide GeometryOf;
  }

  lemma AnewIsWaiting(st: Setup, b: Buffer)
    requires b.open && SameSetup(b, Anew(b)) && b.cfg == st.cfg && b.geo == st.geo
    ensures var c := Anew(b); Waiting(st, c) && !c.hasEnd && !c.hasStream && c.concealRun == 0
  {
    EmptyIsCoherent(Anew(b));
    hide GeometryOf, Coherent;
  }

  /** So the oracle holds of every stream, not only of the first: from the packet that takes the buffer over,
      every pull reports what that stream's own arrivals call for, whatever came before. */
  lemma NewStreamIsOwed(st: Setup, b: Buffer, ticks: seq<Tick>, t: Tick)
    requires SoundSetup(st) && Ticking(b) && SameSetup(b, Anew(b)) && b.cfg == st.cfg && b.geo == st.geo
    requires Script(st, ticks) && TakesOver(b, EventOf(st, ticks[0]))
    requires t.Play? && Allowed(st, ticks, t) && WithinHorizon(st, Plays(ticks) + CAPACITY)
    ensures Owed(st, ticks, t.codec, PullB(RunB(b, Events(st, ticks)), t.room, t.now, t.codec).1)
  {
    var first := EventOf(st, ticks[0]);
    var later := Events(st, ticks[1..]);
    assert Events(st, ticks) == [first] + later;
    assert b.open;
    hide Owed, Script, Allowed, Plays, WithinHorizon, SoundSetup, PullB, RunB, PushB, Anew, Alike, Waiting, TakesOver,
         EventOf, Events;
    TakeoverIsFreshStart(b, first.packet, first.arrivalUs, later, t.room, t.now, t.codec, first.packet);
    AnewIsWaiting(st, b);
    EveryPullIsOwed(st, Anew(b), ticks, t);
  }
}
