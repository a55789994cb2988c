/** The prober as an object over its pacer and its clock estimator. */
module Probers {
  import opened Words
  import opened Proto
  import opened Pacers
  import opened ClockSyncs
  import opened ProbeSpec

  class Prober {
    const slots: array<Slot>
    var cfg: ProbeConfig
    var nextId: u32
    var pacer: Pacer
    var sync: ClockSync
    var tally: Tally
    var lastReplyUs: u64
    var lastRttUs: int
    var started: bool

    ghost predicate Valid()
      reads this, sync
    { slots.Length == MAX_OUTSTANDING && sync.Valid() }

    ghost function Model(): (p: Prob)
      requires Valid()
      reads this, slots, pacer, sync, sync.window, sync.rtts, sync.rtts.buckets
      ensures Shaped(p)
    { Prob(cfg, slots[..], nextId, pacer.Model(), sync.Model(), tally, lastReplyUs, lastRttUs, started) }

    constructor ()
      ensures Valid() && Model() == IdlePr()
      ensures fresh(slots) && fresh(pacer) && fresh(sync)
      ensures fresh(sync.window) && fresh(sync.rtts) && fresh(sync.rtts.buckets)
    {
      cfg, nextId := ProbeConfig(200_000, 1_000_000), 1;
      slots := new Slot[MAX_OUTSTANDING](_ => VACANT_SLOT);
      pacer := new Pacer(0, 0);
      sync := new ClockSync();
      tally, lastReplyUs, lastRttUs, started := NO_TALLY, 0, 0, false;
      new;
      assert slots[..] == NoSlots();
    }

    method Start(config: ProbeConfig, now: u64)
      requires Valid()
      modifies this, slots
      ensures Valid() && Model() == StartPr(config, now)
      ensures fresh(pacer) && fresh(sync) && fresh(sync.window) && fresh(sync.rtts) && fresh(sync.rtts.buckets)
    {
      hide ClockSync.Model, Pacer.Model, ClockSync.Valid;
      cfg, nextId := config, 1;
      for i := 0 to slots.Length
        modifies slots
        invariant forall k | 0 <= k < i :: slots[k] == VACANT_SLOT
      {
        slots[i] := VACANT_SLOT;
      }
      assert slots[..] == NoSlots();
      var p := new Pacer(config.intervalUs, 0);
      p.Start(now);
      pacer := p;
      sync := new ClockSync();
      tally, lastReplyUs, lastRttUs, started := NO_TALLY, 0, 0, true;
    }

    method Find(id: u32) returns (k: nat)
      requires Valid()
      ensures k == FindFrom(slots[..], id, 0)
    {
      k := 0;
      while k < slots.Length && !(slots[k].outstanding && slots[k].requestId == id)
        invariant k <= slots.Length && FindFrom(slots[..], id, 0) == FindFrom(slots[..], id, k)
      {
        k := k + 1;
      }
    }

    method Outstanding() returns (count: nat)
      requires Valid()
      ensures count == CountOut(slots[..])
    {
      count := 0;
      for i := 0 to slots.Length
        invariant count == CountOut(slots[..i])
      {
        assert slots[..i + 1][..i] == slots[..i];
        if slots[i].outstanding { count := count + 1; }
      }
      assert slots[..slots.Length] == slots[..];
    }

    method DueProbe(now: u64, out: array<u8>) returns (probe: Probe)
      requires Valid()
      modifies this`nextId, this`tally, slots, pacer, out
      ensures Valid() && (Model(), probe) == DueProbeP(old(Model()), now, out.Length)
      ensures probe.length == 0 ==> out[..] == old(out[..])
      ensures probe.length > 0 ==> out[..probe.length] == ControlBytes(PingFor(probe.requestId, now))
    {
      hide ControlBytes, Wrap32, DueP, AdvanceP;
      if !started || !pacer.Due(now) { return NO_PROBE; }
      var k := 0;
      while k < slots.Length && slots[k].outstanding
        invariant k <= slots.Length && FreeFrom(slots[..], 0) == FreeFrom(slots[..], k)
      {
        k := k + 1;
      }
      if k == slots.Length {
        pacer.Advance(now);
        return NO_PROBE;
      }
      var h := ControlHeader(PING, 0, nextId, now);
      ghost var before := slots[..];
      var length := EncodeControl(h, [], out);
      if length == 0 { return NO_PROBE; }
      slots[k] := Slot(nextId, now, true);
      assert slots[..] == before[k := Slot(nextId, now, true)];
      pacer.Advance(now);
      tally := tally.(sent := tally.sent + 1);
      probe := Probe(length, nextId);
      nextId := Wrap32(nextId + 1);
    }

    method Withdraw(id: u32)
      requires Valid()
      modifies this`tally, slots
      ensures Valid() && Model() == WithdrawP(old(Model()), id)
    {
      var k := Find(id);
      if k == slots.Length { return; }
      ghost var before := slots[..];
      slots[k] := slots[k].(outstanding := false);
      assert slots[..] == Retire(before, k);
      tally := tally.(withdrawn := tally.withdrawn + 1, sent := tally.sent - 1);
    }

    method OnPong(pong: ControlPacket, t4: u64)
      requires Valid()
      modifies this`tally, this`lastReplyUs, this`lastRttUs, slots, sync, sync.window, sync.rtts, sync.rtts.buckets
      ensures Valid() && Model() == OnPongP(old(Model()), pong, t4)
    {
      hide ParsePongBody, ObserveS, RttOf, OffsetOf, FindFrom;
      var k := Find(pong.header.requestId);
      FoundInRange(slots[..], pong.header.requestId);
      if k == slots.Length {
        tally := tally.(stale := tally.stale + 1);
        return;
      }
      ghost var before := slots[..];
      var parsed := ParsePongBody(pong.body);
      if parsed.Fail? {
        tally := tally.(malformed := tally.malformed + 1);
        slots[k] := slots[k].(outstanding := false);
        assert slots[..] == Retire(before, k);
        return;
      }
      var body := parsed.value;
      if body.origT1 != slots[k].sentUs { tally := tally.(badEcho := tally.badEcho + 1); }
      var t1 := slots[k].sentUs;
      slots[k] := slots[k].(outstanding := false);
      assert slots[..] == Retire(before, k);
      var sample := sync.Observe(t1, body.recvT2, pong.header.sendTimeUs, t4);
      if !sample.valid {
        tally := tally.(impossible := tally.impossible + 1);
        return;
      }
      tally := tally.(replied := tally.replied + 1);
      lastReplyUs, lastRttUs := t4, sample.rttUs;
    }

    method Expire(now: u64)
      requires Valid()
      modifies this`tally, slots
      ensures Valid() && Model() == ExpireP(old(Model()), now)
    {
      ghost var before := slots[..];
      for i := 0 to slots.Length
        invariant forall k | 0 <= k < slots.Length ::
                    slots[k] == if k < i then Swept(before, now, cfg.timeoutUs)[k] else before[k]
        invariant tally == old(tally).(timedOut := old(tally).timedOut + CountOverdue(before[..i], now, cfg.timeoutUs))
      {
        assert before[..i + 1][..i] == before[..i];
        var slot := slots[i];
        if slot.outstanding && now >= slot.sentUs && now - slot.sentUs >= cfg.timeoutUs {
          slots[i] := slot.(outstanding := false);
          tally := tally.(timedOut := tally.timedOut + 1);
        }
      }
      assert before[..slots.Length] == before;
      assert slots[..] == Swept(before, now, cfg.timeoutUs);
    }
  }

  lemma FoundInRange(slots: seq<Slot>, id: u32)
    ensures FindFrom(slots, id, 0) <= |slots|
  {}
}
