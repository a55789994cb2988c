/** The queue's own accounts over whole runs: the positions passed, the resyncs, and what single calls report. */
module QueueAccounts {
  import opened Words
  import opened Serial
  import opened QueueSpec
  import opened QueueRuns

  /** Positions a step passes over, or asks for in vain before the first arrival. */
  function PassedBy(q: Queue, op: Op): nat {
    match op
    case OpAdvance => 1
    case OpSkipTo(sequence) => if q.started then Max(0, Distance(q.cursor, sequence)) else 0
    case _ => 0
  }

  /** Positions passed since the last reset. */
  function Passed(ops: seq<Op>): nat {
    if ops == [] then 0
    else
      var before, op := ops[..|ops| - 1], ops[|ops| - 1];
      if op.OpReset? then 0 else Passed(before) + PassedBy(Run(EMPTY, before), op)
  }

  function Resyncs(ops: seq<Op>): nat {
    if ops == [] then 0
    else
      var before, op := ops[..|ops| - 1], ops[|ops| - 1];
      if op.OpReset? then 0 else Resyncs(before) + if op.OpResync? then 1 else 0
  }

  lemma StepPasses(q: Queue, op: Op)
    ensures var r := Apply(q, op).n;
      if op.OpReset? then r == ZERO
      else
        && r.delivered + r.gaps == q.n.delivered + q.n.gaps + PassedBy(q, op)
        && r.delivered == q.n.delivered + (if op.OpAdvance? && q.started && PeekQ(q, q.cursor).Some? then 1 else 0)
        && r.resyncs == q.n.resyncs + if op.OpResync? then 1 else 0
  {
    hide Distance, Wrap32, Beyond, Unexpired;
  }

  /** Every position passed is counted exactly once: delivered if a frame was held there, a gap if not, or if it was
      jumped over; and every resync is counted once. */
  lemma {:induction false} PositionsAreCounted(ops: seq<Op>)
    ensures var n := Run(EMPTY, ops).n; n.delivered + n.gaps == Passed(ops) && n.resyncs == Resyncs(ops)
  {
    if ops != [] {
      var before, op := ops[..|ops| - 1], ops[|ops| - 1];
      PositionsAreCounted(before);
      StepPasses(Run(EMPTY, before), op);
      hide Apply, PassedBy;
    }
  }

  /** What a sweep and a jump report is what they count: the frames thrown away, the positions passed. An empty
      queue, and only an empty one, has no depth. */
  lemma ReportsAreCounts(q: Queue, now: u64, sequence: u32)
    requires InWindow(q)
    ensures var (swept, dropped) := DropExpiredQ(q, now);
      && dropped == |q.frames| - |swept.frames| == swept.n.expired - q.n.expired
    ensures var (jumped, passed) := SkipToQ(q, sequence);
      && passed == PassedBy(q, OpSkipTo(sequence)) == jumped.n.gaps - q.n.gaps
      && |q.frames| - |jumped.frames| == jumped.n.discarded - q.n.discarded
    ensures DepthQ(q) == 0 <==> |q.frames| == 0
  {
    DepthIsSpan(q);
    hide Distance, Beyond, Unexpired, InWindow;
  }
}
