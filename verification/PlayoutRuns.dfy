/** What every run of arrivals and playout ticks keeps, whatever their order and content. */
module PlayoutRuns {
  import opened Words
  import opened Serial
  import opened Media
  import opened QueueSpec
  import opened QueueRuns
  import opened PlayoutSpec

  datatype Event = PushE(packet: MediaPacket, arrivalUs: u64) | PullE(room: nat, now: u64, codec: Codec)

  /** The tick length an open buffer must have for `PullB` to divide by it. */
  predicate Ticking(b: Buffer) { b.open ==> b.geo.frameUs > 0 }

  function StepB(b: Buffer, e: Event): (c: Buffer)
    requires Ticking(b)
    ensures Ticking(c) && c.open == b.open && c.cfg == b.cfg && c.geo == b.geo
  {
    match e
    case PushE(packet, arrivalUs) => PushKeepsSetup(b, packet, arrivalUs); PushB(b, packet, arrivalUs).0
    case PullE(room, now, codec) => PullKeepsSetup(b, room, now, codec); PullB(b, room, now, codec).0
  }

  predicate SameSetup(b: Buffer, c: Buffer) { c.open == b.open && c.cfg == b.cfg && c.geo == b.geo }

  lemma PushKeepsSetup(b: Buffer, p: MediaPacket, arrivalUs: u64)
    ensures SameSetup(b, PushB(b, p, arrivalUs).0)
  {
    hide Distance, Wrap32, Wrap64, InsertQ, DeadlineOf, IsForeign;
  }

  lemma PullKeepsSetup(b: Buffer, room: nat, now: u64, codec: Codec)
    requires Ticking(b)
    ensures SameSetup(b, PullB(b, room, now, codec).0)
  {
    hide Distance, Wrap32, Wrap64, AdvanceQ, SkipToQ, DeadlineOf, PeekQ, PlayB, FillB;
    var (a, held) := AlignB(b);
    if b.open && now >= Due(a, a.playoutTs) {
      var (c, have) := PositionB(a, held, now);
      FillKeepsSetup(c, have, codec);
    }
  }

  lemma FillKeepsSetup(b: Buffer, held: Option<Frame>, codec: Codec)
    ensures SameSetup(b, FillB(b, codec).0)
    ensures held.Some? ==> SameSetup(b, PlayB(b, held.value, codec).0)
  {
    hide Distance, Wrap32, AdvanceQ, PeekQ;
  }

  function RunB(b: Buffer, events: seq<Event>): (c: Buffer)
    requires Ticking(b)
    ensures Ticking(c) && c.open == b.open && c.cfg == b.cfg && c.geo == b.geo
  {
    if events == [] then b else StepB(RunB(b, events[..|events| - 1]), events[|events| - 1])
  }

  // ---------------------------------------------------------------- one queue, one stream

  /** The queue invariant, the agreement of the three "running" flags, and the fact that no
      frame of another stream is ever held. */
  ghost predicate Coherent(b: Buffer) {
    && InWindow(b.queue) && HighestHeld(b.queue)
    && b.anchored == b.hasStream == b.queue.started
    && (forall s | s in b.queue.frames :: b.queue.frames[s].info.header.streamId == b.streamId)
  }

  lemma EmptyIsCoherent(b: Buffer)
    requires b.queue.frames == map[] && b.anchored == b.hasStream == b.queue.started
    ensures Coherent(b)
  {}

  lemma PlacedIsCoherent(b: Buffer, h: MediaHeader, arrivalUs: u64)
    requires Coherent(b) && !IsForeign(b, h, arrivalUs)
    ensures var c := NoteEndB(PlaceB(AdoptB(b, h, arrivalUs), h, arrivalUs), h);
      Coherent(c) && c.anchored && c.streamId == h.streamId
  {
    hide Wrap32, Wrap64, Distance, DeadlineOf;
    EmptyMap(b.queue.frames);
  }

  lemma InsertIsCoherent(b: Buffer, p: MediaPacket, arrivalUs: u64)
    requires Coherent(b) && b.anchored && b.streamId == p.header.streamId
    ensures Coherent(InsertB(b, p, arrivalUs).0) && InsertB(b, p, arrivalUs).0.anchored
    ensures InsertB(b, p, arrivalUs).0.streamId == p.header.streamId
  {
    hide Wrap32, Wrap64, Distance, DeadlineOf, InWindow, HighestHeld;
    InsertKeepsWindow(b.queue, FrameFor(b, p, arrivalUs), arrivalUs);
  }

  lemma PushIsCoherent(b: Buffer, p: MediaPacket, arrivalUs: u64)
    requires Coherent(b)
    ensures Coherent(PushB(b, p, arrivalUs).0)
  {
    hide Wrap32, Wrap64, Distance, DeadlineOf, InsertB, PlaceB, NoteEndB, AdoptB;
    if b.open && !IsForeign(b, p.header, arrivalUs) {
      PlacedIsCoherent(b, p.header, arrivalUs);
      var placed := NoteEndB(PlaceB(AdoptB(b, p.header, arrivalUs), p.header, arrivalUs), p.header);
      InsertIsCoherent(placed, p, arrivalUs);
      var restarted := RestartB(InsertB(placed, p, arrivalUs).0, p.header, arrivalUs).(hasEnd := false);
      EmptyIsCoherent(restarted);
      InsertIsCoherent(restarted, p, arrivalUs);
    }
  }

  lemma NextIsCoherent(b: Buffer)
    requires Coherent(b) && b.anchored
    ensures Coherent(NextFrameB(b))
  {
    hide Wrap32, Wrap64, Distance, InWindow, HighestHeld;
    AdvanceKeepsWindow(b.queue);
  }

  lemma CatchUpIsCoherent(b: Buffer, jump: nat)
    requires Coherent(b) && b.anchored
    ensures Coherent(CatchUpB(b, jump)) && CatchUpB(b, jump).anchored
  {
    hide Wrap32, Wrap64, Distance, InWindow, HighestHeld;
    SkipKeepsWindow(b.queue, Wrap32(b.queue.cursor + jump));
  }

  lemma PullIsCoherent(b: Buffer, room: nat, now: u64, codec: Codec)
    requires Coherent(b) && Ticking(b)
    ensures Coherent(PullB(b, room, now, codec).0)
  {
    hide Wrap32, Wrap64, Distance, DeadlineOf, InWindow, HighestHeld, SkipToQ, AdvanceQ, CatchUpB, NextFrameB;
    if room >= b.geo.framePcm && b.open && b.anchored {
      var (a, held) := AlignB(b);
      assert Coherent(a);
      if now >= Due(a, a.playoutTs) {
        var behind := Behind(a, now);
        CatchUpIsCoherent(a, Min(behind, MAX_CATCHUP_JUMP));
        var (c, have) := PositionB(a, held, now);
        assert Coherent(c) && c.anchored;
        if have.Some? {
          var s := SilentB(c);
          NextIsCoherent(c.(concealRun := 0, stats := c.stats.(fromPacket := c.stats.fromPacket + 1)));
          NextIsCoherent(s.(stats := s.stats.(decodeErrors := c.stats.decodeErrors + 1)));
        } else {
          NextIsCoherent(FillB(c, codec).0);
        }
      }
    }
  }

  lemma {:induction false} CoherentOverRuns(b: Buffer, events: seq<Event>)
    requires Ticking(b) && Coherent(b)
    ensures Coherent(RunB(b, events))
  {
    if events != [] {
      var before := RunB(b, events[..|events| - 1]);
      CoherentOverRuns(b, events[..|events| - 1]);
      match events[|events| - 1]
      case PushE(packet, arrivalUs) => hide *; PushIsCoherent(before, packet, arrivalUs);
      case PullE(room, now, codec) => hide *; PullIsCoherent(before, room, now, codec);
    }
  }
}
