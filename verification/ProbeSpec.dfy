/** Asynchronous probing: a table of eight unanswered pings, and what settles each of them. */
module ProbeSpec {
  import opened Words
  import opened Proto
  import opened Pacers
  import opened ClockSyncs

  const MAX_OUTSTANDING: int := 8

  datatype ProbeConfig = ProbeConfig(intervalUs: u64, timeoutUs: u64)

  datatype Slot = Slot(requestId: u32, sentUs: u64, outstanding: bool)

  const VACANT_SLOT := Slot(0, 0, false)

  /** `sent` is a plain integer so that its decrement can be shown never to go below zero. */
  datatype Tally = Tally(
    sent: int, replied: nat, timedOut: nat, stale: nat, badEcho: nat, impossible: nat, malformed: nat, withdrawn: nat)

  const NO_TALLY := Tally(0, 0, 0, 0, 0, 0, 0, 0)

  datatype Probe = Probe(length: nat, requestId: u32)

  const NO_PROBE := Probe(0, 0)

  datatype Prob = Prob(
    cfg: ProbeConfig, slots: seq<Slot>, nextId: u32, pace: Pace, sync: Sync, tally: Tally,
    lastReplyUs: u64, lastRttUs: int, started: bool)

  predicate Shaped(p: Prob) { |p.slots| == MAX_OUTSTANDING && Sized(p.sync) }

  function NoSlots(): seq<Slot> { seq(MAX_OUTSTANDING, _ => VACANT_SLOT) }

  /** A prober not yet started. */
  function IdlePr(): (p: Prob)
    ensures Shaped(p)
  { Prob(ProbeConfig(200_000, 1_000_000), NoSlots(), 1, NewPace(0, 0), FreshSync(), NO_TALLY, 0, 0, false) }

  function StartPr(cfg: ProbeConfig, now: u64): (p: Prob)
    ensures Shaped(p)
  {
    Prob(cfg, NoSlots(), 1, StartP(NewPace(cfg.intervalUs, 0), now), FreshSync(), NO_TALLY, 0, 0, true)
  }

  /** The first slot awaiting an answer to `id`, or the slot count. */
  function FindFrom(slots: seq<Slot>, id: u32, i: nat): (r: nat)
    requires i <= |slots|
    ensures i <= r <= |slots|
    ensures r < |slots| ==> slots[r].outstanding && slots[r].requestId == id
    ensures forall k | i <= k < r :: !(slots[k].outstanding && slots[k].requestId == id)
    decreases |slots| - i
  {
    if i == |slots| || (slots[i].outstanding && slots[i].requestId == id) then i else FindFrom(slots, id, i + 1)
  }

  /** The first free slot, or the slot count. */
  function FreeFrom(slots: seq<Slot>, i: nat): (r: nat)
    requires i <= |slots|
    ensures i <= r <= |slots|
    ensures r < |slots| ==> !slots[r].outstanding
    decreases |slots| - i
  { if i == |slots| || !slots[i].outstanding then i else FreeFrom(slots, i + 1) }

  function CountOut(slots: seq<Slot>): nat {
    if slots == [] then 0 else CountOut(slots[..|slots| - 1]) + if slots[|slots| - 1].outstanding then 1 else 0
  }

  function Retire(slots: seq<Slot>, k: nat): seq<Slot>
    requires k < |slots|
  { slots[k := slots[k].(outstanding := false)] }

  function PingFor(id: u32, now: u64): ControlPacket { ControlPacket(ControlHeader(PING, 0, id, now), []) }

  /** `room` is the length of the caller's buffer. */
  function DueProbeP(p: Prob, now: u64, room: nat): (r: (Prob, Probe))
    requires Shaped(p)
    ensures Shaped(r.0)
  {
    if !p.started || !DueP(p.pace, now) then (p, NO_PROBE)
    else
      var k := FreeFrom(p.slots, 0);
      if k == |p.slots| then (p.(pace := AdvanceP(p.pace, now)), NO_PROBE)
      else if room < CONTROL_HEADER_SIZE then (p, NO_PROBE)
      else
        (p.(slots := p.slots[k := Slot(p.nextId, now, true)], pace := AdvanceP(p.pace, now),
            tally := p.tally.(sent := p.tally.sent + 1), nextId := Wrap32(p.nextId + 1)),
         Probe(CONTROL_HEADER_SIZE, p.nextId))
  }

  function WithdrawP(p: Prob, id: u32): (q: Prob)
    requires Shaped(p)
    ensures Shaped(q)
  {
    var k := FindFrom(p.slots, id, 0);
    if k == |p.slots| then p
    else
      p.(slots := Retire(p.slots, k),
         tally := p.tally.(withdrawn := p.tally.withdrawn + 1, sent := p.tally.sent - 1))
  }

  function PongExchange(slot: Slot, pong: ControlPacket, body: PongBody, t4: u64): Exchange {
    Exchange(slot.sentUs, body.recvT2, pong.header.sendTimeUs, t4)
  }

  function OnPongP(p: Prob, pong: ControlPacket, t4: u64): (q: Prob)
    requires Shaped(p)
    ensures Shaped(q)
  {
    var t := p.tally;
    var k := FindFrom(p.slots, pong.header.requestId, 0);
    if k == |p.slots| then p.(tally := t.(stale := t.stale + 1))
    else
      var slots := Retire(p.slots, k);
      match ParsePongBody(pong.body)
      case Fail(_) => p.(slots := slots, tally := t.(malformed := t.malformed + 1))
      case Good(body) =>
        var x := PongExchange(p.slots[k], pong, body, t4);
        var e := t.(badEcho := t.badEcho + if body.origT1 != p.slots[k].sentUs then 1 else 0);
        var q := p.(slots := slots, sync := ObserveS(p.sync, x));
        if Plausible(x) then
          q.(tally := e.(replied := e.replied + 1), lastReplyUs := t4, lastRttUs := SampleOf(x).rttUs)
        else q.(tally := e.(impossible := e.impossible + 1))
  }

  predicate Overdue(s: Slot, now: u64, timeoutUs: u64) {
    s.outstanding && now >= s.sentUs && now - s.sentUs >= timeoutUs
  }

  function Swept(slots: seq<Slot>, now: u64, timeoutUs: u64): seq<Slot> {
    seq(|slots|, i requires 0 <= i < |slots| =>
      if Overdue(slots[i], now, timeoutUs) then slots[i].(outstanding := false) else slots[i])
  }

  function CountOverdue(slots: seq<Slot>, now: u64, timeoutUs: u64): nat {
    if slots == [] then 0
    else
      CountOverdue(slots[..|slots| - 1], now, timeoutUs) +
      if Overdue(slots[|slots| - 1], now, timeoutUs) then 1 else 0
  }

  function ExpireP(p: Prob, now: u64): (q: Prob)
    requires Shaped(p)
    ensures Shaped(q)
  {
    p.(slots := Swept(p.slots, now, p.cfg.timeoutUs),
       tally := p.tally.(timedOut := p.tally.timedOut + CountOverdue(p.slots, now, p.cfg.timeoutUs)))
  }
}
