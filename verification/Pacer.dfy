/** The departure schedule: advanced by the interval, not by the clock, and given up after a stall. */
module Pacers {
  import opened Words

  datatype Pace = Pace(interval: u64, maxCatchup: u64, next: u64, resyncs: nat, departures: nat, started: bool)

  /** A zero tolerance means two intervals. */
  function NewPace(intervalUs: u64, maxCatchupUs: u64): Pace {
    Pace(intervalUs, if maxCatchupUs != 0 then maxCatchupUs else Wrap64(intervalUs * 2), 0, 0, 0, false)
  }

  function StartP(p: Pace, now: u64): Pace { p.(next := now, started := true) }

  function ResetP(p: Pace): Pace { Pace(p.interval, p.maxCatchup, 0, 0, 0, false) }

  predicate DueP(p: Pace, now: u64) { p.started && now >= p.next }

  function DelayP(p: Pace, now: u64): u64 { if !p.started || now >= p.next then 0 else p.next - now }

  function AdvanceP(p: Pace, now: u64): Pace {
    var s := if p.started then p else StartP(p, now);
    var t := s.(departures := s.departures + 1, next := Wrap64(s.next + s.interval));
    if now > t.next && now - t.next > t.maxCatchup then t.(next := now, resyncs := t.resyncs + 1) else t
  }

  class Pacer {
    var interval: u64
    var maxCatchup: u64
    var next: u64
    var resyncs: nat
    var departures: nat
    var started: bool

    ghost function Model(): Pace
      reads this
    { Pace(interval, maxCatchup, next, resyncs, departures, started) }

    constructor (intervalUs: u64, maxCatchupUs: u64)
      ensures Model() == NewPace(intervalUs, maxCatchupUs)
    {
      interval := intervalUs;
      maxCatchup := if maxCatchupUs != 0 then maxCatchupUs else Wrap64(intervalUs * 2);
      next, resyncs, departures, started := 0, 0, 0, false;
    }

    method Start(now: u64)
      modifies this
      ensures Model() == StartP(old(Model()), now)
    {
      next, started := now, true;
    }

    method Reset()
      modifies this
      ensures Model() == ResetP(old(Model()))
    {
      next, resyncs, departures, started := 0, 0, 0, false;
    }

    predicate Due(now: u64)
      reads this
      ensures Due(now) <==> DueP(Model(), now)
    { started && now >= next }

    function DelayUntilDueUs(now: u64): (us: u64)
      reads this
      ensures us == DelayP(Model(), now)
    { if !started || now >= next then 0 else next - now }

    method Advance(now: u64)
      modifies this
      ensures Model() == AdvanceP(old(Model()), now)
    {
      if !started { Start(now); }
      departures := departures + 1;
      next := Wrap64(next + interval);
      if now > next && now - next > maxCatchup {
        next, resyncs := now, resyncs + 1;
      }
    }
  }

  /** The wait and the due test agree: waiting the stated time makes the departure due, and no less does. */
  lemma DelayIsExact(p: Pace, now: u64, wait: nat)
    requires p.started && now + wait < 0x1_0000_0000_0000_0000
    ensures DueP(p, now + wait) <==> wait >= DelayP(p, now)
  {}

  // ---------------------------------------------------------------- runs

  /** The schedule after departures at `times`, the last one last. */
  function Depart(p: Pace, times: seq<u64>): Pace {
    if times == [] then p else AdvanceP(Depart(p, times[..|times| - 1]), times[|times| - 1])
  }

  /** A departure at its time: due, and the schedule does not wrap. */
  predicate OnTime(p: Pace, now: u64) { DueP(p, now) && p.next + p.interval < 0x1_0000_0000_0000_0000 }

  /** Every departure of the run happens when it is due. */
  predicate Paced(p: Pace, times: seq<u64>) {
    times == []
    || (Paced(p, times[..|times| - 1]) && OnTime(Depart(p, times[..|times| - 1]), times[|times| - 1]))
  }

  lemma OneDeparture(p: Pace, now: u64)
    requires OnTime(p, now)
    ensures var q := AdvanceP(p, now);
      && q.started && q.interval == p.interval && q.maxCatchup == p.maxCatchup
      && q.departures == p.departures + 1 && q.resyncs >= p.resyncs
      && q.next >= p.next + p.interval && (q.resyncs == p.resyncs ==> q.next == p.next + p.interval)
  {}

  lemma OneIntervalMore(n: nat, interval: nat)
    ensures (n + 1) * interval == n * interval + interval
  {}

  /** Each departure moves the schedule on by at least one interval, so it leaves it at or above
      where it began plus one interval per departure; and without a resync exactly there. */
  lemma {:induction false} ScheduleAdvances(p: Pace, times: seq<u64>)
    requires p.started && Paced(p, times)
    ensures var q := Depart(p, times);
      && q.started && q.interval == p.interval && q.maxCatchup == p.maxCatchup
      && q.departures == p.departures + |times| && q.resyncs >= p.resyncs
      && q.next >= p.next + |times| * p.interval
      && (q.resyncs == p.resyncs ==> q.next == p.next + |times| * p.interval)
  {
    if times != [] {
      var before := times[..|times| - 1];
      ScheduleAdvances(p, before);
      OneDeparture(Depart(p, before), times[|times| - 1]);
      OneIntervalMore(|before|, p.interval);
      hide OnTime, AdvanceP;
    }
  }

  /** After any departure the schedule is at most the tolerance behind the clock. */
  lemma BacklogIsBounded(p: Pace, now: u64)
    ensures AdvanceP(p, now).next + p.maxCatchup >= now
  {}

  /** The rate bound: after a departure at `now`, the next k departures take at least k - 1 intervals
      less the tolerance, whatever stalls and resyncs lie in between. */
  lemma RateBound(p: Pace, now: u64, times: seq<u64>)
    requires OnTime(p, now)
    requires Paced(AdvanceP(p, now), times) && times != []
    ensures times[|times| - 1] - now >= (|times| - 1) * p.interval - p.maxCatchup
  {
    var q, before := AdvanceP(p, now), times[..|times| - 1];
    BacklogIsBounded(p, now);
    OneDeparture(p, now);
    ScheduleAdvances(q, before);
    hide AdvanceP;
  }

  /** Without a resync lateness never accumulates: n departures after the start the schedule stands
      exactly n intervals on, however late each of them was. */
  lemma NoDrift(p: Pace, start: u64, times: seq<u64>)
    requires Paced(StartP(p, start), times) && Depart(StartP(p, start), times).resyncs == p.resyncs
    ensures Depart(StartP(p, start), times).next == start + |times| * p.interval
  {
    ScheduleAdvances(StartP(p, start), times);
  }

  /** A departure at `now` gives the schedule up, and starts it again from the clock, if and only if the next
      one would already be overdue by more than the tolerance. */
  lemma ResyncsIff(p: Pace, now: u64)
    requires OnTime(p, now)
    ensures var q, overdue := AdvanceP(p, now), now > p.next + p.interval + p.maxCatchup;
      q.resyncs == (if overdue then p.resyncs + 1 else p.resyncs)
      && q.next == if overdue then now else p.next + p.interval
  {}

  /** Every departure leaves before the one after the next would be overdue by more than the tolerance. */
  predicate KeepsUp(start: nat, interval: nat, tolerance: nat, times: seq<u64>) {
    forall k | 0 <= k < |times| :: times[k] <= start + (k + 1) * interval + tolerance
  }

  /** The schedule is kept, without a resync, if and only if no departure was that late. */
  lemma {:induction false} KeptIff(p: Pace, start: u64, times: seq<u64>)
    requires Paced(StartP(p, start), times)
    ensures Depart(StartP(p, start), times).resyncs == p.resyncs <==> KeepsUp(start, p.interval, p.maxCatchup, times)
  {
    if times != [] {
      var before, last, s := times[..|times| - 1], times[|times| - 1], StartP(p, start);
      KeptIff(p, start, before);
      ScheduleAdvances(s, before);
      ResyncsIff(Depart(s, before), last);
      OneMoreKeepsUp(start, p.interval, p.maxCatchup, before, last);
      assert times == before + [last];
      OneIntervalMore(|before|, p.interval);
      hide AdvanceP, OnTime, KeepsUp;
      assert Depart(s, times) == AdvanceP(Depart(s, before), last);
    }
  }

  lemma OneMoreKeepsUp(start: nat, interval: nat, tolerance: nat, before: seq<u64>, last: u64)
    ensures KeepsUp(start, interval, tolerance, before + [last]) <==>
      KeepsUp(start, interval, tolerance, before) && last <= start + (|before| + 1) * interval + tolerance
  {
    var all := before + [last];
    assert all[|before|] == last;
    if KeepsUp(start, interval, tolerance, all) {
      forall k | 0 <= k < |before| ensures before[k] <= start + (k + 1) * interval + tolerance {
        assert all[k] == before[k];
      }
    }
  }

  /** A tolerance of zero asks for two intervals; any other is taken as given. */
  lemma ToleranceAsked(intervalUs: u64, maxCatchupUs: u64)
    requires 2 * intervalUs < 0x1_0000_0000_0000_0000
    ensures var p := NewPace(intervalUs, maxCatchupUs);
      p.interval == intervalUs && p.maxCatchup == (if maxCatchupUs > 0 then maxCatchupUs else 2 * intervalUs)
      && !p.started && ResetP(p) == p
  {}
}
