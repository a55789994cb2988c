/** Safety of probing over every run, whatever pongs arrive. */
module ProbeRuns {
  import opened Words
  import opened Proto
  import opened Pacers
  import opened ClockSyncs
  import opened ProbeSpec

  datatype Op =
    | OpProbe(now: u64, room: nat)
    | OpWithdraw(id: u32)
    | OpPong(pong: ControlPacket, t4: u64)
    | OpExpire(now: u64)

  function Apply(p: Prob, op: Op): (q: Prob)
    requires Shaped(p)
    ensures Shaped(q)
  {
    match op
    case OpProbe(now, room) => DueProbeP(p, now, room).0
    case OpWithdraw(id) => WithdrawP(p, id)
    case OpPong(pong, t4) => OnPongP(p, pong, t4)
    case OpExpire(now) => ExpireP(p, now)
  }

  function Run(p: Prob, ops: seq<Op>): (q: Prob)
    requires Shaped(p)
    ensures Shaped(q)
  { if ops == [] then p else Apply(Run(p, ops[..|ops| - 1]), ops[|ops| - 1]) }

  // ---------------------------------------------------------------- accounting

  /** Every probe sent is outstanding or settled in exactly one way. */
  ghost predicate Balanced(p: Prob) {
    p.tally.sent == CountOut(p.slots) + p.tally.replied + p.tally.timedOut + p.tally.impossible + p.tally.malformed
  }

  lemma {:induction false} CountAfterUpdate(slots: seq<Slot>, k: nat, s: Slot)
    requires k < |slots|
    ensures CountOut(slots[k := s]) ==
      CountOut(slots) - (if slots[k].outstanding then 1 else 0) + (if s.outstanding then 1 else 0)
  {
    var n := |slots|;
    if k == n - 1 {
      assert slots[k := s][..n - 1] == slots[..n - 1];
    } else {
      CountAfterUpdate(slots[..n - 1], k, s);
      assert slots[k := s][..n - 1] == slots[..n - 1][k := s];
    }
  }

  lemma {:induction false} CountAfterSweep(slots: seq<Slot>, now: u64, timeoutUs: u64)
    ensures CountOut(Swept(slots, now, timeoutUs)) == CountOut(slots) - CountOverdue(slots, now, timeoutUs)
  {
    if slots != [] {
      var n := |slots|;
      CountAfterSweep(slots[..n - 1], now, timeoutUs);
      assert Swept(slots, now, timeoutUs)[..n - 1] == Swept(slots[..n - 1], now, timeoutUs);
    }
  }

  lemma StepIsBalanced(p: Prob, op: Op)
    requires Shaped(p) && Balanced(p)
    ensures Balanced(Apply(p, op))
  {
    hide CountOut, Plausible, ObserveS, ParsePongBody, AdvanceP, DueP, Wrap32, Swept, CountOverdue;
    match op
    case OpProbe(now, room) =>
      var k := FreeFrom(p.slots, 0);
      if k < |p.slots| { CountAfterUpdate(p.slots, k, Slot(p.nextId, now, true)); }
    case OpWithdraw(id) =>
      var k := FindFrom(p.slots, id, 0);
      if k < |p.slots| { CountAfterUpdate(p.slots, k, p.slots[k].(outstanding := false)); }
    case OpPong(pong, t4) =>
      var k := FindFrom(p.slots, pong.header.requestId, 0);
      if k < |p.slots| { CountAfterUpdate(p.slots, k, p.slots[k].(outstanding := false)); }
    case OpExpire(now) =>
      CountAfterSweep(p.slots, now, p.cfg.timeoutUs);
  }

  /** On every run, against arbitrary pongs: sent = outstanding + replied + timed out + impossible +
      malformed. So a withdrawal, which needs an outstanding probe, never takes `sent` below zero. */
  lemma {:induction false} ProbesAreConserved(p: Prob, ops: seq<Op>)
    requires Shaped(p) && Balanced(p)
    ensures Balanced(Run(p, ops)) && Run(p, ops).tally.sent >= CountOut(Run(p, ops).slots) >= 0
  {
    if ops != [] {
      ProbesAreConserved(p, ops[..|ops| - 1]);
      StepIsBalanced(Run(p, ops[..|ops| - 1]), ops[|ops| - 1]);
      hide Balanced, Apply;
    }
  }

  lemma StartIsBalanced(cfg: ProbeConfig, now: u64)
    ensures Balanced(StartPr(cfg, now))
  {
    NoneOut(NoSlots());
  }

  lemma {:induction false} NoneOut(slots: seq<Slot>)
    requires forall i | 0 <= i < |slots| :: !slots[i].outstanding
    ensures CountOut(slots) == 0
  {
    if slots != [] { NoneOut(slots[..|slots| - 1]); }
  }

  // ---------------------------------------------------------------- identity

  /** What this step issues, by request id, with the time it was issued. */
  function IssuedBy(p: Prob, op: Op): map<u32, u64>
    requires Shaped(p)
  {
    if op.OpProbe? && DueProbeP(p, op.now, op.room).1.length > 0
    then map[DueProbeP(p, op.now, op.room).1.requestId := op.now] else map[]
  }

  /** The ids awaiting an answer. */
  ghost function OutIds(slots: seq<Slot>): set<u32> {
    set i | 0 <= i < |slots| && slots[i].outstanding :: slots[i].requestId
  }

  /** The ids this step settles: answered, withdrawn or given up. */
  ghost function SettledBy(p: Prob, op: Op): set<u32>
    requires Shaped(p)
  { OutIds(p.slots) - OutIds(Apply(p, op).slots) }

  /** What this step feeds the clock estimator, with the request id it is fed for. */
  function FedBy(p: Prob, op: Op): Option<(u32, Exchange)>
    requires Shaped(p)
  {
    if op.OpPong? then
      var k := FindFrom(p.slots, op.pong.header.requestId, 0);
      var body := ParsePongBody(op.pong.body);
      if k < |p.slots| && body.Good?
      then Some((p.slots[k].requestId, PongExchange(p.slots[k], op.pong, body.value, op.t4))) else None
    else None
  }

  ghost function Issued(p: Prob, ops: seq<Op>): map<u32, u64>
    requires Shaped(p)
  {
    if ops == [] then map[]
    else Issued(p, ops[..|ops| - 1]) + IssuedBy(Run(p, ops[..|ops| - 1]), ops[|ops| - 1])
  }

  ghost function Settled(p: Prob, ops: seq<Op>): set<u32>
    requires Shaped(p)
  {
    if ops == [] then {}
    else Settled(p, ops[..|ops| - 1]) + SettledBy(Run(p, ops[..|ops| - 1]), ops[|ops| - 1])
  }

  /** Each awaited probe was issued, at the time its slot remembers, and no two slots await one id. */
  ghost predicate Tabled(slots: seq<Slot>, issued: map<u32, u64>) {
    && (forall i | 0 <= i < |slots| && slots[i].outstanding ::
          slots[i].requestId in issued && slots[i].sentUs == issued[slots[i].requestId])
    && (forall i, j | 0 <= i < j < |slots| && slots[i].outstanding && slots[j].outstanding ::
          slots[i].requestId != slots[j].requestId)
  }

  /** Ids are handed out consecutively from 1. */
  ghost predicate Consecutive(issued: map<u32, u64>, nextId: u32) {
    nextId == |issued| + 1 && forall id: u32 :: id in issued <==> 1 <= id < nextId
  }

  /** The table agrees with what has been issued and settled so far: what is awaited and what is
      settled make up exactly what was issued. */
  ghost predicate Genuine(p: Prob, issued: map<u32, u64>, settled: set<u32>) {
    && Shaped(p) && Consecutive(issued, p.nextId) && Tabled(p.slots, issued)
    && OutIds(p.slots) !! settled && OutIds(p.slots) + settled == issued.Keys
  }

  lemma IssueIsTabled(slots: seq<Slot>, issued: map<u32, u64>, k: nat, id: u32, now: u64)
    requires Tabled(slots, issued) && k < |slots| && !slots[k].outstanding && id !in issued
    ensures Tabled(slots[k := Slot(id, now, true)], issued[id := now])
  {}

  lemma IssueAddsOne(slots: seq<Slot>, k: nat, id: u32, now: u64)
    requires k < |slots| && !slots[k].outstanding
    ensures OutIds(slots[k := Slot(id, now, true)]) == OutIds(slots) + {id}
  {
    var after := slots[k := Slot(id, now, true)];
    forall x | x in OutIds(slots) + {id} ensures x in OutIds(after) {
      if x == id {
        assert after[k].requestId == id;
      } else {
        var i :| 0 <= i < |slots| && slots[i].outstanding && slots[i].requestId == x;
        assert after[i] == slots[i];
      }
    }
    forall x | x in OutIds(after) ensures x in OutIds(slots) + {id} {
      var i :| 0 <= i < |after| && after[i].outstanding && after[i].requestId == x;
      assert i == k || after[i] == slots[i];
    }
  }

  /** `after` is `before` with some probes taken out of the table. */
  ghost predicate Thinned(before: seq<Slot>, after: seq<Slot>) {
    && |after| == |before|
    && forall i | 0 <= i < |before| :: after[i] == before[i] || after[i] == before[i].(outstanding := false)
  }

  lemma ThinningIsTabled(before: seq<Slot>, after: seq<Slot>, issued: map<u32, u64>)
    requires Tabled(before, issued) && Thinned(before, after)
    ensures Tabled(after, issued)
  {}

  lemma ThinningOnlyRemoves(before: seq<Slot>, after: seq<Slot>)
    requires Thinned(before, after)
    ensures OutIds(after) <= OutIds(before)
  {
    forall x | x in OutIds(after) ensures x in OutIds(before) {
      var i :| 0 <= i < |after| && after[i].outstanding && after[i].requestId == x;
      assert after[i] == before[i];
    }
  }

  lemma IssueIsConsecutive(issued: map<u32, u64>, nextId: u32, now: u64)
    requires Consecutive(issued, nextId) && |issued| < 0xFFFF_FFFE
    ensures nextId !in issued && Consecutive(issued[nextId := now], Wrap32(nextId + 1))
  {
    var next := issued[nextId := now];
    assert |next| == |issued| + 1;
    assert Wrap32(nextId + 1) == nextId + 1;
    hide Wrap32;
    forall id: u32 ensures id in next <==> 1 <= id < nextId + 1 {
      assert id in next <==> id in issued || id == nextId;
    }
  }

  lemma IssueKeepsPartition(out: set<u32>, settled: set<u32>, issued: map<u32, u64>, id: u32, now: u64)
    requires out !! settled && out + settled == issued.Keys && id !in issued
    ensures (out + {id}) !! settled && (out + {id}) + settled == issued[id := now].Keys
  {}

  /** What a probe step does: nothing to the table, or one more probe in the first free slot. */
  lemma ProbeEffect(p: Prob, op: Op)
    requires Shaped(p) && op.OpProbe?
    ensures var q, k := Apply(p, op), FreeFrom(p.slots, 0);
      || (q.slots == p.slots && q.nextId == p.nextId && IssuedBy(p, op) == map[])
      || (k < |p.slots| && q.slots == p.slots[k := Slot(p.nextId, op.now, true)] &&
          q.nextId == Wrap32(p.nextId + 1) && IssuedBy(p, op) == map[p.nextId := op.now])
  {
    hide AdvanceP, DueP, Wrap32, FreeFrom;
    FreeInRange(p.slots);
  }

  lemma FreeInRange(slots: seq<Slot>)
    ensures FreeFrom(slots, 0) <= |slots|
    ensures FreeFrom(slots, 0) < |slots| ==> !slots[FreeFrom(slots, 0)].outstanding
  {}

  lemma IssueIsGenuine(p: Prob, q: Prob, issued: map<u32, u64>, settled: set<u32>, k: nat, now: u64)
    requires Genuine(p, issued, settled) && |issued| < 0xFFFF_FFFE && Shaped(q)
    requires k < |p.slots| && !p.slots[k].outstanding && q.slots == p.slots[k := Slot(p.nextId, now, true)]
    requires q.nextId == Wrap32(p.nextId + 1)
    ensures Genuine(q, issued[p.nextId := now], settled)
    ensures OutIds(p.slots) <= OutIds(q.slots) && p.nextId !in issued
  {
    hide OutIds, Tabled, Wrap32, Consecutive, Shaped;
    IssueIsConsecutive(issued, p.nextId, now);
    IssueIsTabled(p.slots, issued, k, p.nextId, now);
    IssueAddsOne(p.slots, k, p.nextId, now);
    IssueKeepsPartition(OutIds(p.slots), settled, issued, p.nextId, now);
  }

  lemma NothingAdded(issued: map<u32, u64>, settled: set<u32>)
    ensures issued + map[] == issued && settled + {} == settled
  {}

  lemma OneAdded(issued: map<u32, u64>, id: u32, now: u64)
    ensures issued + map[id := now] == issued[id := now] && map[id := now].Keys == {id}
  {}

  lemma ProbeIsGenuine(p: Prob, issued: map<u32, u64>, settled: set<u32>, op: Op)
    requires Genuine(p, issued, settled) && op.OpProbe? && |issued| < 0xFFFF_FFFE
    ensures Genuine(Apply(p, op), issued + IssuedBy(p, op), settled + SettledBy(p, op))
    ensures SettledBy(p, op) == {} && issued.Keys !! IssuedBy(p, op).Keys
  {
    hide Apply, IssuedBy, OutIds, Tabled, FreeFrom, Wrap32, Consecutive;
    ProbeEffect(p, op);
    FreeInRange(p.slots);
    var q := Apply(p, op);
    NothingAdded(issued, settled);
    OneAdded(issued, p.nextId, op.now);
    if q.slots == p.slots && q.nextId == p.nextId && IssuedBy(p, op) == map[] {
      assert SettledBy(p, op) == {};
      hide SettledBy, Shaped;
    } else {
      IssueIsGenuine(p, q, issued, settled, FreeFrom(p.slots, 0), op.now);
      assert SettledBy(p, op) == {};
      hide SettledBy, Genuine, Shaped;
    }
  }

  /** A step that only takes some probes out of the table. */
  lemma SettlingIsGenuine(p: Prob, issued: map<u32, u64>, settled: set<u32>, op: Op)
    requires Genuine(p, issued, settled) && !op.OpProbe?
    requires Apply(p, op).nextId == p.nextId && Thinned(p.slots, Apply(p, op).slots)
    ensures Genuine(Apply(p, op), issued + IssuedBy(p, op), settled + SettledBy(p, op))
    ensures SettledBy(p, op) !! settled && IssuedBy(p, op) == map[]
  {
    hide Apply, OutIds, Tabled, Thinned;
    ThinningIsTabled(p.slots, Apply(p, op).slots, issued);
    ThinningOnlyRemoves(p.slots, Apply(p, op).slots);
    assert issued + map[] == issued;
  }

  lemma OnlyRetires(p: Prob, op: Op)
    requires Shaped(p) && !op.OpProbe?
    ensures Apply(p, op).nextId == p.nextId && Thinned(p.slots, Apply(p, op).slots)
  {
    hide Plausible, ObserveS, ParsePongBody, CountOverdue;
  }

  /** Over every run of fewer than 2^32 - 2 probes: ids are never reused, no id is settled twice, what
      is outstanding is exactly what was issued and not yet settled, and each slot remembers the
      very time its own probe was issued at. */
  lemma {:induction false} EachProbeSettlesOnce(p: Prob, ops: seq<Op>)
    requires Genuine(p, map[], {}) && |ops| < 0xFFFF_FFFE
    ensures Genuine(Run(p, ops), Issued(p, ops), Settled(p, ops)) && |Issued(p, ops)| <= |ops|
    ensures ops != [] ==>
      var before, op := ops[..|ops| - 1], ops[|ops| - 1];
      && SettledBy(Run(p, before), op) !! Settled(p, before)
      && IssuedBy(Run(p, before), op).Keys !! Issued(p, before).Keys
  {
    if ops != [] {
      var before, op := ops[..|ops| - 1], ops[|ops| - 1];
      EachProbeSettlesOnce(p, before);
      var q, issued, settled := Run(p, before), Issued(p, before), Settled(p, before);
      hide Genuine, Apply, SettledBy, IssuedBy;
      match op
      case OpProbe(now, room) =>
        ProbeIsGenuine(q, issued, settled, op);
        OneIssue(issued, q, op);
      case _ =>
        assert Shaped(q);
        OnlyRetires(q, op);
        SettlingIsGenuine(q, issued, settled, op);
        OneIssue(issued, q, op);
    }
  }

  lemma OneIssue(issued: map<u32, u64>, p: Prob, op: Op)
    requires Shaped(p)
    ensures |issued + IssuedBy(p, op)| <= |issued| + 1
  {
    hide DueProbeP;
    if IssuedBy(p, op) != map[] {
      var id := DueProbeP(p, op.now, op.room).1.requestId;
      assert issued + IssuedBy(p, op) == issued[id := op.now];
    } else {
      assert issued + IssuedBy(p, op) == issued;
    }
  }

  lemma RetiredIsGone(slots: seq<Slot>, k: nat, issued: map<u32, u64>)
    requires Tabled(slots, issued) && k < |slots| && slots[k].outstanding
    ensures slots[k].requestId !in OutIds(Retire(slots, k))
  {}

  lemma FedIsGenuine(p: Prob, issued: map<u32, u64>, settled: set<u32>, op: Op)
    requires Genuine(p, issued, settled) && FedBy(p, op).Some?
    ensures var (id, x) := FedBy(p, op).value;
      && id in issued && x.t1 == issued[id] && id !in settled && id in SettledBy(p, op)
      && Apply(p, op).sync == ObserveS(p.sync, x)
  {
    hide Plausible, ObserveS, ParsePongBody, Consecutive;
    var k := FindFrom(p.slots, op.pong.header.requestId, 0);
    assert p.slots[k].requestId in OutIds(p.slots);
    RetiredIsGone(p.slots, k, issued);
    hide OutIds, FindFrom;
    assert Apply(p, op).slots == Retire(p.slots, k);
  }

  /** Whatever a pong claims, the clock estimator is only ever fed the time at which the answered id
      was really issued, and that id was awaiting an answer: it is settled by this very step. */
  lemma FedTimesAreGenuine(p: Prob, ops: seq<Op>, op: Op)
    requires Genuine(p, map[], {}) && |ops| < 0xFFFF_FFFE
    requires FedBy(Run(p, ops), op).Some?
    ensures var (id, x) := FedBy(Run(p, ops), op).value;
      && id in Issued(p, ops) && x.t1 == Issued(p, ops)[id] && id !in Settled(p, ops)
      && id in SettledBy(Run(p, ops), op)
      && Apply(Run(p, ops), op).sync == ObserveS(Run(p, ops).sync, x)
  {
    EachProbeSettlesOnce(p, ops);
    hide *;
    FedIsGenuine(Run(p, ops), Issued(p, ops), Settled(p, ops), op);
  }

  /** A step that feeds nothing leaves the estimator alone. */
  lemma OnlyPongsFeed(p: Prob, op: Op)
    requires Shaped(p) && FedBy(p, op).None?
    ensures Apply(p, op).sync == p.sync
  {
    hide Plausible, ObserveS, ParsePongBody, CountOverdue, AdvanceP, DueP;
  }

  lemma StartIsGenuine(cfg: ProbeConfig, now: u64)
    ensures Genuine(StartPr(cfg, now), map[], {})
  {
    assert OutIds(NoSlots()) == {};
  }

  // ---------------------------------------------------------------- one probe, end to end

  /** One probe over the wire: the ping the prober sends parses at the peer, the peer's reply parses
      back here, and settling it measures the round trip exactly, whatever the peer's clock reads
      and however long it thinks, with the offset inside its bound. Beyond two seconds on the wire
      it is settled as impossible instead. */
  lemma ProbeMeasuresTheTruth(p: Prob, k: nat, e: Truth)
    requires Shaped(p) && InRange(e)
    requires k < |p.slots| && p.slots[k] == Slot(p.slots[k].requestId, Stamp1(e), true)
    requires forall i | 0 <= i < k && p.slots[i].outstanding :: p.slots[i].requestId != p.slots[k].requestId
    ensures var ping := ParseControl(ControlBytes(PingFor(p.slots[k].requestId, Stamp1(e))));
      ping.Good? &&
      var pong := ParseControl(ControlBytes(PongFor(ping.value, Stamp2(e), Stamp3(e))));
      pong.Good? &&
      var q, s := OnPongP(p, pong.value, Stamp4(e)), SampleOf(ExchangeOf(e));
      && q.slots == Retire(p.slots, k) && q.sync == ObserveS(p.sync, ExchangeOf(e))
      && q.tally.badEcho == p.tally.badEcho && q.tally.malformed == p.tally.malformed
      && (e.d1 + e.d2 > MAX_PLAUSIBLE_RTT_US ==> q.tally.impossible == p.tally.impossible + 1)
      && (e.d1 + e.d2 <= MAX_PLAUSIBLE_RTT_US ==>
            q.tally.replied == p.tally.replied + 1 && q.lastRttUs == e.d1 + e.d2 && q.lastReplyUs == Stamp4(e)
            && 2 * Abs(s.offsetUs - e.theta) <= e.d1 + e.d2 + 1)
  {
    hide ControlBytes, ParseControl, ParsePongBody, ObserveS, Plausible, OnPongP, Retire, SampleOf;
    var ping := PingFor(p.slots[k].requestId, Stamp1(e));
    ControlRoundTrip(ping);
    PongEchoes(ping, Stamp2(e), Stamp3(e));
    EstimateError(e);
    var pong := ParseControl(ControlBytes(PongFor(ping, Stamp2(e), Stamp3(e)))).value;
    SettledAsMeasured(p, k, pong, e);
  }

  lemma FindsFirst(slots: seq<Slot>, k: nat, id: u32)
    requires k < |slots| && slots[k].outstanding && slots[k].requestId == id
    requires forall i | 0 <= i < k && slots[i].outstanding :: slots[i].requestId != id
    ensures FindFrom(slots, id, 0) == k
  {}

  lemma SettledAsMeasured(p: Prob, k: nat, pong: ControlPacket, e: Truth)
    requires Shaped(p) && InRange(e)
    requires k < |p.slots| && p.slots[k] == Slot(p.slots[k].requestId, Stamp1(e), true)
    requires forall i | 0 <= i < k && p.slots[i].outstanding :: p.slots[i].requestId != p.slots[k].requestId
    requires pong.header == ControlHeader(PONG, 0, p.slots[k].requestId, Stamp3(e))
    requires ParsePongBody(pong.body) == Good(PongBody(Stamp1(e), Stamp2(e)))
    ensures var q, s := OnPongP(p, pong, Stamp4(e)), SampleOf(ExchangeOf(e));
      && q.slots == Retire(p.slots, k) && q.sync == ObserveS(p.sync, ExchangeOf(e))
      && q.tally.badEcho == p.tally.badEcho && q.tally.malformed == p.tally.malformed
      && (!s.valid ==> q.tally.impossible == p.tally.impossible + 1)
      && (s.valid ==>
            q.tally.replied == p.tally.replied + 1 && q.lastRttUs == s.rttUs && q.lastReplyUs == Stamp4(e))
  {
    FindsFirst(p.slots, k, p.slots[k].requestId);
    hide ParsePongBody, ObserveS, FindFrom, Plausible;
  }
}
