/** Which stream is live: an automaton of its own, whatever else happens to the timeline. */
module PlayoutStreams {
  import opened Words
  import opened Media
  import opened QueueSpec
  import opened PlayoutSpec
  import opened PlayoutRuns

  /** The live stream, and when it was last heard. */
  datatype Owner = Nobody | Owned(id: u32, lastUs: u64)

  /** Whether an arrival may speak for the live stream or take it over. */
  predicate MayClaim(o: Owner, idleUs: u64, h: MediaHeader, arrivalUs: u64) {
    match o
    case Nobody => true
    case Owned(id, lastUs) =>
      h.streamId == id || h.TalkspurtStart() || (arrivalUs > lastUs && arrivalUs - lastUs >= idleUs)
  }

  function OwnerStep(o: Owner, idleUs: u64, e: Event): Owner {
    if e.PushE? && MayClaim(o, idleUs, e.packet.header, e.arrivalUs) then Owned(e.packet.header.streamId, e.arrivalUs)
    else o
  }

  function OwnerAfter(idleUs: u64, events: seq<Event>): Owner {
    if events == [] then Nobody
    else OwnerStep(OwnerAfter(idleUs, events[..|events| - 1]), idleUs, events[|events| - 1])
  }

  function OwnerOf(b: Buffer): Owner { if b.hasStream then Owned(b.streamId, b.lastArrivalUs) else Nobody }

  lemma PlaceOwnsNothing(b: Buffer, h: MediaHeader, arrivalUs: u64)
    ensures OwnerOf(NoteEndB(PlaceB(b, h, arrivalUs), h)) == OwnerOf(b)
    ensures OwnerOf(RestartB(b, h, arrivalUs)) == OwnerOf(b)
  {
    hide Wrap64;
  }

  lemma PushClaims(b: Buffer, p: MediaPacket, arrivalUs: u64)
    requires b.open
    ensures var (c, verdict) := PushB(b, p, arrivalUs);
      && OwnerOf(c) == OwnerStep(OwnerOf(b), b.cfg.streamIdleUs, PushE(p, arrivalUs))
      && (verdict == PushVerdict.Foreign <==> !MayClaim(OwnerOf(b), b.cfg.streamIdleUs, p.header, arrivalUs))
  {
    hide PlaceB, NoteEndB, RestartB, InsertQ, Wrap64, DeadlineOf, MediaHeader.TalkspurtStart;
    var a := AdoptB(b, p.header, arrivalUs);
    PlaceOwnsNothing(a, p.header, arrivalUs);
    PlaceOwnsNothing(InsertB(NoteEndB(PlaceB(a, p.header, arrivalUs), p.header), p, arrivalUs).0, p.header, arrivalUs);
  }

  lemma PullClaimsNothing(b: Buffer, room: nat, now: u64, codec: Codec)
    requires Ticking(b)
    ensures OwnerOf(PullB(b, room, now, codec).0) == OwnerOf(b)
  {
    hide Wrap32, DeadlineOf, SkipToQ, AdvanceQ, PeekQ, FillB, Due, Behind;
    FillClaimsNothing(b, codec);
    var (a, held) := AlignB(b);
    if b.open && now >= Due(a, a.playoutTs) { FillClaimsNothing(PositionB(a, held, now).0, codec); }
  }

  lemma FillClaimsNothing(b: Buffer, codec: Codec)
    ensures OwnerOf(FillB(b, codec).0) == OwnerOf(b)
  {
    hide Wrap32, PeekQ, PastEnd;
  }

  /** Over every run of an open buffer, the live stream and the time it was last heard depend on stream
      ids, start flags and arrival times alone: loss, lateness, resyncs, catch-ups and pulls have no
      say. And a packet is turned away as foreign exactly when it is of another stream, does not
      announce itself, and the live stream has been heard too recently. */
  lemma {:induction false} LiveStreamIsProtected(b: Buffer, events: seq<Event>, p: MediaPacket, arrivalUs: u64)
    requires Ticking(b) && b.open && !b.hasStream
    ensures var o := OwnerAfter(b.cfg.streamIdleUs, events);
      && OwnerOf(RunB(b, events)) == o
      && (PushB(RunB(b, events), p, arrivalUs).1 == PushVerdict.Foreign <==>
            !MayClaim(o, b.cfg.streamIdleUs, p.header, arrivalUs))
  {
    hide PushB, PullB, MayClaim;
    var c := RunB(b, events);
    PushClaims(c, p, arrivalUs);
    if events != [] {
      var before, e := events[..|events| - 1], events[|events| - 1];
      LiveStreamIsProtected(b, before, p, arrivalUs);
      match e
      case PushE(packet, at) => PushClaims(RunB(b, before), packet, at);
      case PullE(room, now, codec) => PullClaimsNothing(RunB(b, before), room, now, codec);
    }
  }
}
