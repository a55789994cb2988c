/** What becomes of each probe, and when: issued, answered, withdrawn or given up, in terms of what was issued
    and what has been settled, never of the table. */
module ProbeSettlement {
  import opened Words
  import opened ByteOrder
  import opened Proto
  import opened Pacers
  import opened ClockSyncs
  import opened ProbeSpec
  import opened ProbeRuns

  /** Issued and not yet settled. */
  ghost predicate Awaited(p: Prob, ops: seq<Op>, id: u32)
    requires Shaped(p)
  { id in Issued(p, ops) && id !in Settled(p, ops) }

  lemma {:induction false} RunKeepsConfig(p: Prob, ops: seq<Op>)
    requires Shaped(p)
    ensures Run(p, ops).cfg == p.cfg
  {
    if ops != [] {
      RunKeepsConfig(p, ops[..|ops| - 1]);
      StepKeepsConfig(Run(p, ops[..|ops| - 1]), ops[|ops| - 1]);
      hide Apply;
    }
  }

  lemma StepKeepsConfig(p: Prob, op: Op)
    requires Shaped(p)
    ensures Apply(p, op).cfg == p.cfg
  {
    hide Plausible, ObserveS, ParsePongBody, AdvanceP, DueP, Swept, CountOverdue, FindFrom, FreeFrom;
  }

  /** The awaited ids are those in the table, each in one slot only. */
  lemma AwaitedAreTabled(p: Prob, ops: seq<Op>)
    requires Genuine(p, map[], {}) && |ops| < 0xFFFF_FFFE
    ensures var q := Run(p, ops);
      && Tabled(q.slots, Issued(p, ops))
      && OutIds(q.slots) <= Issued(p, ops).Keys
      && (forall id: u32 :: id in OutIds(q.slots) <==> Awaited(p, ops, id))
  {
    EachProbeSettlesOnce(p, ops);
    hide Run, Issued, Settled, Tabled, OutIds, Consecutive;
  }

  // ---------------------------------------------------------------- giving up

  lemma SweepSettles(slots: seq<Slot>, issued: map<u32, u64>, now: u64, timeoutUs: u64, id: u32)
    requires Tabled(slots, issued)
    ensures id in OutIds(slots) - OutIds(Swept(slots, now, timeoutUs)) <==>
      id in OutIds(slots) && issued[id] + timeoutUs <= now
  {
    var after := Swept(slots, now, timeoutUs);
    if id in OutIds(slots) {
      var i :| 0 <= i < |slots| && slots[i].outstanding && slots[i].requestId == id;
      assert after[i] == if Overdue(slots[i], now, timeoutUs) then slots[i].(outstanding := false) else slots[i];
      assert Overdue(slots[i], now, timeoutUs) <==> issued[id] + timeoutUs <= now;
      if issued[id] + timeoutUs <= now {
        OnlySlot(slots, after, issued, i);
      } else {
        assert after[i].outstanding && after[i].requestId == id;
      }
    }
  }

  lemma OnlySlot(slots: seq<Slot>, after: seq<Slot>, issued: map<u32, u64>, i: nat)
    requires Tabled(slots, issued) && Thinned(slots, after)
    requires i < |slots| && slots[i].outstanding && !after[i].outstanding
    ensures slots[i].requestId !in OutIds(after)
  {}

  /** Distinct ids: as many awaited as slots taken. */
  lemma {:induction false} AwaitedCount(slots: seq<Slot>, issued: map<u32, u64>)
    requires Tabled(slots, issued)
    ensures |OutIds(slots)| == CountOut(slots)
  {
    if slots == [] {
      assert OutIds(slots) == {};
    } else {
      var before, last := slots[..|slots| - 1], slots[|slots| - 1];
      AwaitedCount(before, issued);
      OutOfPrefix(slots);
      hide OutIds;
      if last.outstanding { LastIsNew(slots, issued); }
    }
  }

  lemma OutOfPrefix(slots: seq<Slot>)
    requires slots != []
    ensures var before, last := slots[..|slots| - 1], slots[|slots| - 1];
      OutIds(slots) == OutIds(before) + if last.outstanding then {last.requestId} else {}
  {
    var before, last := slots[..|slots| - 1], slots[|slots| - 1];
    forall x | x in OutIds(slots) ensures x in OutIds(before) || (last.outstanding && x == last.requestId) {
      var i :| 0 <= i < |slots| && slots[i].outstanding && slots[i].requestId == x;
      assert i < |before| ==> before[i] == slots[i];
    }
    forall x | x in OutIds(before) ensures x in OutIds(slots) {
      var i :| 0 <= i < |before| && before[i].outstanding && before[i].requestId == x;
      assert slots[i] == before[i];
    }
    if last.outstanding { assert slots[|slots| - 1].requestId in OutIds(slots); }
  }

  lemma LastIsNew(slots: seq<Slot>, issued: map<u32, u64>)
    requires Tabled(slots, issued) && slots != [] && slots[|slots| - 1].outstanding
    ensures slots[|slots| - 1].requestId !in OutIds(slots[..|slots| - 1])
  {}

  lemma SweepCounts(slots: seq<Slot>, issued: map<u32, u64>, now: u64, timeoutUs: u64)
    requires Tabled(slots, issued)
    ensures |OutIds(slots) - OutIds(Swept(slots, now, timeoutUs))| == CountOverdue(slots, now, timeoutUs)
  {
    var after := Swept(slots, now, timeoutUs);
    ThinningIsTabled(slots, after, issued);
    ThinningOnlyRemoves(slots, after);
    AwaitedCount(slots, issued);
    AwaitedCount(after, issued);
    CountAfterSweep(slots, now, timeoutUs);
    hide OutIds, CountOut, Tabled, Swept, CountOverdue;
    assert OutIds(slots) == (OutIds(slots) - OutIds(after)) + OutIds(after);
  }

  lemma ExpiryEffect(q: Prob, now: u64)
    requires Shaped(q)
    ensures SettledBy(q, OpExpire(now)) == OutIds(q.slots) - OutIds(Swept(q.slots, now, q.cfg.timeoutUs))
    ensures Apply(q, OpExpire(now)).tally ==
      q.tally.(timedOut := q.tally.timedOut + CountOverdue(q.slots, now, q.cfg.timeoutUs))
  {
    hide OutIds, Swept, CountOverdue;
  }

  lemma TableGivesUp(q: Prob, issued: map<u32, u64>, now: u64)
    requires Shaped(q) && Tabled(q.slots, issued) && OutIds(q.slots) <= issued.Keys
    ensures var lost := SettledBy(q, OpExpire(now));
      && (forall id: u32 :: id in lost <==> id in OutIds(q.slots) && issued[id] + q.cfg.timeoutUs <= now)
      && Apply(q, OpExpire(now)).tally == q.tally.(timedOut := q.tally.timedOut + |lost|)
  {
    hide *;
    ExpiryEffect(q, now);
    SweepCounts(q.slots, issued, now, q.cfg.timeoutUs);
    forall id: u32
      ensures id in SettledBy(q, OpExpire(now)) <==> id in OutIds(q.slots) && issued[id] + q.cfg.timeoutUs <= now
    {
      SweepSettles(q.slots, issued, now, q.cfg.timeoutUs, id);
    }
  }

  /** Exactly which probes an expiry gives up, on every run: those awaiting an answer for the timeout or longer,
      by the time they were really issued at; each is counted once. */
  lemma ExpiryGivesUp(p: Prob, ops: seq<Op>, now: u64)
    requires Genuine(p, map[], {}) && |ops| < 0xFFFF_FFFE
    ensures var q := Run(p, ops); var lost := SettledBy(q, OpExpire(now));
      && (forall id: u32 :: id in lost <==> Awaited(p, ops, id) && Issued(p, ops)[id] + p.cfg.timeoutUs <= now)
      && Apply(q, OpExpire(now)).tally == q.tally.(timedOut := q.tally.timedOut + |lost|)
  {
    AwaitedAreTabled(p, ops);
    RunKeepsConfig(p, ops);
    hide Run, Issued, Settled, Tabled, OutIds, SettledBy, Apply, Genuine;
    TableGivesUp(Run(p, ops), Issued(p, ops), now);
  }

  // ---------------------------------------------------------------- answers and withdrawals

  lemma FoundIffTabled(slots: seq<Slot>, id: u32)
    ensures var k := FindFrom(slots, id, 0);
      && k <= |slots| && (k < |slots| <==> id in OutIds(slots))
      && (k < |slots| ==> slots[k].outstanding && slots[k].requestId == id)
  {}

  lemma RetireSettles(slots: seq<Slot>, issued: map<u32, u64>, k: nat)
    requires Tabled(slots, issued) && k < |slots| && slots[k].outstanding
    ensures OutIds(slots) - OutIds(Retire(slots, k)) == {slots[k].requestId}
  {
    var after := Retire(slots, k);
    OnlySlot(slots, after, issued, k);
    assert slots[k].requestId in OutIds(slots);
    forall x | x in OutIds(slots) && x != slots[k].requestId ensures x in OutIds(after) {
      var i :| 0 <= i < |slots| && slots[i].outstanding && slots[i].requestId == x;
      assert after[i] == slots[i];
    }
  }

  /** The one id a step other than an expiry can settle. */
  function NamedBy(op: Op): Option<u32> {
    match op
    case OpPong(pong, _) => Some(pong.header.requestId)
    case OpWithdraw(id) => Some(id)
    case _ => None
  }

  /** Expiry aside, an id is settled by its own answer or its own withdrawal and by nothing else, and by
      either of them if it is awaited. */
  lemma OnlyItsAnswerSettles(p: Prob, ops: seq<Op>, op: Op, id: u32)
    requires Genuine(p, map[], {}) && |ops| < 0xFFFF_FFFE && !op.OpExpire?
    ensures id in SettledBy(Run(p, ops), op) <==> Awaited(p, ops, id) && NamedBy(op) == Some(id)
  {
    var q, issued := Run(p, ops), Issued(p, ops);
    AwaitedAreTabled(p, ops);
    if op.OpProbe? {
      EachProbeSettlesOnce(p, ops);
      hide Run, Issued, Settled, SettledBy, Genuine;
      ProbeIsGenuine(q, issued, Settled(p, ops), op);
    } else {
      hide Run, Issued, Settled, Tabled, OutIds, FindFrom, Retire, Awaited;
      var named := NamedBy(op).value;
      FoundIffTabled(q.slots, named);
      var k := FindFrom(q.slots, named, 0);
      NamedRetires(q, op);
      if k < |q.slots| { RetireSettles(q.slots, issued, k); }
      hide Apply;
    }
  }

  lemma NamedRetires(q: Prob, op: Op)
    requires Shaped(q) && NamedBy(op).Some?
    ensures var k := FindFrom(q.slots, NamedBy(op).value, 0);
      k <= |q.slots| && Apply(q, op).slots == if k < |q.slots| then Retire(q.slots, k) else q.slots
  {
    FoundIffTabled(q.slots, NamedBy(op).value);
    hide Plausible, ObserveS, ParsePongBody, FindFrom, Retire, OutIds;
  }

  /** What an answer to an id issued at `t1` does to the counts and the estimator. */
  ghost predicate CountedAs(q: Prob, r: Prob, t1: u64, pong: ControlPacket, t4: u64)
    requires Sized(q.sync)
  {
    var t := q.tally;
    if |pong.body| != 16 then r.tally == t.(malformed := t.malformed + 1) && r.sync == q.sync
    else
      var body := ParsePongBody(pong.body).value;
      var x := Exchange(t1, body.recvT2, pong.header.sendTimeUs, t4);
      var e := t.(badEcho := t.badEcho + if body.origT1 == t1 then 0 else 1);
      && r.sync == ObserveS(q.sync, x)
      && r.tally == (if Plausible(x) then e.(replied := e.replied + 1) else e.(impossible := e.impossible + 1))
      && (Plausible(x) ==> r.lastReplyUs == t4 && r.lastRttUs == RttOf(x))
  }

  lemma TableCounts(q: Prob, issued: map<u32, u64>, pong: ControlPacket, t4: u64)
    requires Shaped(q) && Tabled(q.slots, issued)
    ensures var r, id := OnPongP(q, pong, t4), pong.header.requestId;
      if id !in OutIds(q.slots) then r == q.(tally := q.tally.(stale := q.tally.stale + 1))
      else id in issued && CountedAs(q, r, issued[id], pong, t4)
  {
    FoundIffTabled(q.slots, pong.header.requestId);
    IssueTimeOf(q.slots, issued, FindFrom(q.slots, pong.header.requestId, 0));
    hide Tabled, OutIds, FindFrom, Plausible, ObserveS, RttOf, OffsetOf, LoadBe64;
  }

  /** How an answer is counted: stale if its id is not awaited; else malformed if its body is not sixteen bytes;
      else by whether the round trip since the id was really issued is plausible, and as a bad echo if
      the body does not echo that time. */
  lemma AnswersAreCounted(p: Prob, ops: seq<Op>, pong: ControlPacket, t4: u64)
    requires Genuine(p, map[], {}) && |ops| < 0xFFFF_FFFE
    ensures var q, id := Run(p, ops), pong.header.requestId;
      var r := OnPongP(q, pong, t4);
      if Awaited(p, ops, id) then CountedAs(q, r, Issued(p, ops)[id], pong, t4)
      else r == q.(tally := q.tally.(stale := q.tally.stale + 1))
  {
    AwaitedAreTabled(p, ops);
    hide Run, Issued, Settled, Tabled, OutIds, CountedAs, OnPongP, Genuine;
    TableCounts(Run(p, ops), Issued(p, ops), pong, t4);
  }

  lemma IssueTimeOf(slots: seq<Slot>, issued: map<u32, u64>, k: nat)
    requires Tabled(slots, issued)
    ensures k < |slots| && slots[k].outstanding ==>
      slots[k].requestId in issued && slots[k].sentUs == issued[slots[k].requestId]
  {}

  /** And a withdrawal. */
  lemma WithdrawalsAreCounted(p: Prob, ops: seq<Op>, id: u32)
    requires Genuine(p, map[], {}) && |ops| < 0xFFFF_FFFE
    ensures var q := Run(p, ops); var t, r := q.tally, WithdrawP(q, id);
      r.tally == if Awaited(p, ops, id) then t.(sent := t.sent - 1, withdrawn := t.withdrawn + 1) else t
  {
    AwaitedAreTabled(p, ops);
    FoundIffTabled(Run(p, ops).slots, id);
    hide Run, Issued, Settled, Tabled, OutIds, FindFrom;
  }

  // ---------------------------------------------------------------- issuing

  lemma {:induction false} FullIffNoneFree(slots: seq<Slot>, i: nat)
    requires i <= |slots|
    ensures FreeFrom(slots, i) == |slots| <==> forall k | i <= k < |slots| :: slots[k].outstanding
    decreases |slots| - i
  {
    if i < |slots| && slots[i].outstanding { FullIffNoneFree(slots, i + 1); }
  }

  lemma {:induction false} FullIffAllCounted(slots: seq<Slot>)
    ensures CountOut(slots) <= |slots|
    ensures CountOut(slots) == |slots| <==> forall k | 0 <= k < |slots| :: slots[k].outstanding
  {
    if slots != [] {
      var before := slots[..|slots| - 1];
      FullIffAllCounted(before);
      assert forall k | 0 <= k < |before| :: before[k] == slots[k];
    }
  }

  /** When a probe is issued, on every run: when one is due, the caller's buffer holds a ping, and fewer than
      eight are awaited. It takes the next id and counts as sent; and the schedule moves on unless the buffer
      was too small, a probe skipped for want of a slot included. */
  lemma ProbeIsIssuedIff(p: Prob, ops: seq<Op>, now: u64, room: nat)
    requires Genuine(p, map[], {}) && |ops| < 0xFFFF_FFFE
    ensures var q := Run(p, ops); var (r, probe) := DueProbeP(q, now, room);
      var awaited := |Issued(p, ops)| - |Settled(p, ops)|;
      var due := q.started && q.pace.started && q.pace.next <= now;
      && awaited <= 8
      && (probe.length > 0 <==> due && room >= 16 && awaited < 8)
      && (probe.length > 0 ==>
            && probe.length == 16 && probe.requestId == |Issued(p, ops)| + 1
            && r.tally == q.tally.(sent := q.tally.sent + 1))
      && (probe.length == 0 ==> probe == NO_PROBE && r.tally == q.tally)
      && r.pace == if due && (room >= 16 || awaited == 8) then AdvanceP(q.pace, now) else q.pace
  {
    var q, issued, settled := Run(p, ops), Issued(p, ops), Settled(p, ops);
    EachProbeSettlesOnce(p, ops);
    hide Run, Issued, Settled, Tabled, OutIds, DueProbeP;
    AwaitedCount(q.slots, issued);
    PartitionCounts(OutIds(q.slots), settled, issued);
    TableIssues(q, now, room);
  }

  lemma TableIssues(q: Prob, now: u64, room: nat)
    requires Shaped(q)
    ensures var (r, probe) := DueProbeP(q, now, room);
      var awaited, due := CountOut(q.slots), q.started && q.pace.started && q.pace.next <= now;
      && awaited <= 8
      && (probe.length > 0 <==> due && room >= 16 && awaited < 8)
      && (probe.length > 0 ==>
            && probe.length == 16 && probe.requestId == q.nextId
            && r.tally == q.tally.(sent := q.tally.sent + 1))
      && (probe.length == 0 ==> probe == NO_PROBE && r.tally == q.tally)
      && r.pace == if due && (room >= 16 || awaited == 8) then AdvanceP(q.pace, now) else q.pace
  {
    FullIffNoneFree(q.slots, 0);
    FullIffAllCounted(q.slots);
    hide FreeFrom, CountOut, AdvanceP;
  }

  lemma PartitionCounts(out: set<u32>, settled: set<u32>, issued: map<u32, u64>)
    requires out !! settled && out + settled == issued.Keys
    ensures |out| + |settled| == |issued|
  {
    assert |issued| == |issued.Keys|;
  }

  // ---------------------------------------------------------------- the beginning and the cadence

  /** Nothing counted, awaited, measured or estimated. */
  ghost predicate Blank(p: Prob) {
    && Shaped(p) && OutIds(p.slots) == {} && p.tally == NO_TALLY && p.lastReplyUs == 0 && p.lastRttUs == 0
    && !BestOf(p.sync.window, WINDOW).valid && p.sync.accepted == p.sync.rejected == 0
  }

  /** A start forgets everything, and the first probe goes out at once. */
  lemma StartIsBlank(cfg: ProbeConfig, now: u64, room: nat)
    ensures Blank(StartPr(cfg, now))
    ensures room >= 16 ==> DueProbeP(StartPr(cfg, now), now, room).1 == Probe(16, 1)
  {
    NothingOut();
    NoneValid();
    hide BestOf, OutIds, AdvanceP;
  }

  /** Without a start nothing ever goes out; the default is a probe every fifth of a second, given up after
      a second. */
  lemma IdleIsSilent(now: u64, room: nat)
    ensures Blank(IdlePr()) && DueProbeP(IdlePr(), now, room) == (IdlePr(), NO_PROBE)
    ensures IdlePr().cfg.intervalUs == 200_000 && IdlePr().cfg.timeoutUs == 1_000_000 && IdlePr().nextId == 1
  {
    NothingOut();
    NoneValid();
    hide BestOf, OutIds;
  }

  lemma NothingOut()
    ensures OutIds(NoSlots()) == {}
  {}

  lemma NoneValid()
    ensures !BestOf(FreshSync().window, WINDOW).valid
  {
    BestIsLeast(FreshSync().window, WINDOW);
    hide BestOf;
  }

  /** The times at which the schedule moved on. */
  ghost function Departures(p: Prob, ops: seq<Op>): seq<u64>
    requires Shaped(p)
  {
    if ops == [] then []
    else
      var before, op := ops[..|ops| - 1], ops[|ops| - 1];
      var moved := op.OpProbe? && Apply(Run(p, before), op).pace != Run(p, before).pace;
      Departures(p, before) + if moved then [op.now] else []
  }

  lemma StepMovesSchedule(q: Prob, op: Op)
    requires Shaped(q)
    ensures !op.OpProbe? ==> Apply(q, op).pace == q.pace
    ensures op.OpProbe? && Apply(q, op).pace != q.pace ==>
      DueP(q.pace, op.now) && Apply(q, op).pace == AdvanceP(q.pace, op.now)
  {
    hide Plausible, ObserveS, ParsePongBody, AdvanceP, Swept, CountOverdue, FindFrom, FreeFrom;
  }

  lemma OneMoreDeparture(p: Pace, gone: seq<u64>, now: u64)
    requires Paced(p, gone) && DueP(Depart(p, gone), now)
    requires now + Depart(p, gone).interval < 0x1_0000_0000_0000_0000
    ensures Paced(p, gone + [now]) && Depart(p, gone + [now]) == AdvanceP(Depart(p, gone), now)
    ensures AdvanceP(Depart(p, gone), now).interval == Depart(p, gone).interval
  {
    assert (gone + [now])[..|gone|] == gone;
  }

  /** The clock stays an interval short of 64 bits. */
  predicate ShortOfWrap(ops: seq<Op>, interval: nat) {
    forall i | 0 <= i < |ops| && ops[i].OpProbe? :: ops[i].now + interval < 0x1_0000_0000_0000_0000
  }

  /** Probing follows the pacer: from a start the schedule is that of a pacer with the interval configured and a
      tolerance of two, each departure when it was due. So the pacer's laws hold of probing. */
  lemma {:induction false} ProbingIsPaced(cfg: ProbeConfig, start: u64, ops: seq<Op>)
    requires ShortOfWrap(ops, cfg.intervalUs)
    ensures var p, pace := StartPr(cfg, start), StartP(NewPace(cfg.intervalUs, 0), start);
      && Run(p, ops).pace == Depart(pace, Departures(p, ops)) && Paced(pace, Departures(p, ops))
      && Run(p, ops).pace.interval == cfg.intervalUs
  {
    var p, pace := StartPr(cfg, start), StartP(NewPace(cfg.intervalUs, 0), start);
    hide Apply, StartPr, AdvanceP, Wrap64;
    if ops == [] {
      assert p.pace == pace by { StartsPaced(cfg, start); }
      assert StartP(NewPace(cfg.intervalUs, 0), start).interval == cfg.intervalUs;
    } else {
      var before, op := ops[..|ops| - 1], ops[|ops| - 1];
      forall i | 0 <= i < |before| ensures before[i] == ops[i] {}
      ProbingIsPaced(cfg, start, before);
      var q, gone := Run(p, before), Departures(p, before);
      StepMovesSchedule(q, op);
      assert Run(p, ops) == Apply(q, op);
      hide Run, DueP, NewPace, StartP;
      if op.OpProbe? && Apply(q, op).pace != q.pace {
        assert ops[|ops| - 1] == op;
        OneMoreDeparture(pace, gone, op.now);
        assert Departures(p, ops) == gone + [op.now];
      } else {
        assert Departures(p, ops) == gone + [] == gone;
      }
      hide Departures, Depart, Paced;
    }
  }

  lemma StartsPaced(cfg: ProbeConfig, start: u64)
    ensures StartPr(cfg, start).pace == StartP(NewPace(cfg.intervalUs, 0), start)
  {}
}
