/** Properties of every run of the queue. */
module QueueRuns {
  import opened Words
  import opened Serial
  import opened Media
  import opened QueueSpec

  datatype Op =
    | OpStart(first: u32)
    | OpInsert(frame: Frame, now: u64)
    | OpAdvance
    | OpSkipTo(sequence: u32)
    | OpDropExpired(now: u64)
    | OpResync(sequence: u32)
    | OpReset

  function Apply(q: Queue, op: Op): Queue {
    match op
    case OpStart(first) => StartQ(q, first)
    case OpInsert(frame, now) => InsertQ(q, frame, now).0
    case OpAdvance => AdvanceQ(q).0
    case OpSkipTo(sequence) => SkipToQ(q, sequence).0
    case OpDropExpired(now) => DropExpiredQ(q, now).0
    case OpResync(sequence) => ResyncQ(q, sequence)
    case OpReset => EMPTY
  }

  /** The state after a whole run, the last operation applied last. */
  function Run(q: Queue, ops: seq<Op>): Queue {
    if ops == [] then q else Apply(Run(q, ops[..|ops| - 1]), ops[|ops| - 1])
  }

  // ---------------------------------------------------------------- the window

  /** What every operation keeps: each held frame sits under its own sequence, inside the
      64 positions at the cursor, and none lies beyond `highest`. */
  ghost predicate InWindow(q: Queue) {
    && (!q.started ==> |q.frames| == 0)
    && (forall s | s in q.frames ::
          q.frames[s].info.header.sequence == s && 0 <= Distance(q.cursor, s) <= Distance(q.cursor, q.highest))
    && (|q.frames| > 0 ==> 0 <= Distance(q.cursor, q.highest) < CAPACITY)
  }

  /** `highest` is itself held. */
  ghost predicate HighestHeld(q: Queue) { |q.frames| > 0 ==> q.highest in q.frames }

  lemma EmptyMap<K, V>(m: map<K, V>)
    ensures |m| == 0 <==> m == map[]
    ensures forall k | k in m :: |m| > 0
  {}

  lemma InsertKeepsWindow(q: Queue, frame: Frame, now: u64)
    requires InWindow(q)
    ensures InWindow(InsertQ(q, frame, now).0)
    ensures HighestHeld(q) ==> HighestHeld(InsertQ(q, frame, now).0)
  {
    hide Wrap32, Distance;
    EmptyMap(q.frames);
    var sequence := frame.info.header.sequence;
    var s := StartQ(q, sequence);
    ZeroDistance(s.cursor, s.cursor);
    if |s.frames| > 0 { SplitDistance(s.cursor, s.highest, sequence); }
  }

  /** Distances add up while they stay inside the window. */
  lemma SplitDistance(a: u32, b: u32, c: u32)
    requires 0 <= Distance(a, b) < 0x1000_0000
    ensures 0 <= Distance(a, c) < 0x1000_0000 ==> Distance(b, c) == Distance(a, c) - Distance(a, b)
  {}

  lemma AdvanceKeepsWindow(q: Queue)
    requires InWindow(q)
    ensures InWindow(AdvanceQ(q).0)
    ensures HighestHeld(q) ==> HighestHeld(AdvanceQ(q).0)
  {
    hide Wrap32, Distance;
    EmptyMap(q.frames);
    var r := AdvanceQ(q).0;
    EmptyMap(r.frames);
    if |r.frames| > 0 {
      forall s | s in q.frames ensures Distance(q.cursor, s) == 0 <==> s == q.cursor { ZeroDistance(q.cursor, s); }
      MovedCursor(q, r, 1);
    }
  }

  /** A cursor move that removes exactly the frames it passes keeps the window. */
  lemma MovedCursor(q: Queue, r: Queue, j: nat)
    requires InWindow(q) && j < 0x8000_0000 && |r.frames| > 0
    requires r.cursor == Wrap32(q.cursor + j) && r.highest == q.highest && r.started
    requires forall s | s in r.frames :: s in q.frames && r.frames[s] == q.frames[s]
    requires forall s | s in q.frames :: s in r.frames <==> Distance(q.cursor, s) >= j
    ensures InWindow(r)
    ensures HighestHeld(q) ==> HighestHeld(r)
  {
    hide Wrap32, Distance;
    EmptyMap(r.frames);
    var witnessed :| witnessed in r.frames;
    assert witnessed in q.frames;
    EmptyMap(q.frames);
    DistanceFrom(q.cursor, j, q.highest);
    forall s | s in r.frames
      ensures 0 <= Distance(r.cursor, s) <= Distance(r.cursor, r.highest)
    {
      DistanceFrom(q.cursor, j, s);
    }
  }

  lemma SkipKeepsWindow(q: Queue, sequence: u32)
    requires InWindow(q)
    ensures InWindow(SkipToQ(q, sequence).0)
    ensures HighestHeld(q) ==> HighestHeld(SkipToQ(q, sequence).0)
  {
    hide Wrap32, Distance;
    var r := SkipToQ(q, sequence).0;
    EmptyMap(r.frames);
    if r != q && |r.frames| > 0 {
      MovedCursor(q, r, Distance(q.cursor, sequence));
    }
  }

  lemma {:induction false} WindowOverRuns(q: Queue, ops: seq<Op>)
    requires InWindow(q)
    ensures InWindow(Run(q, ops))
    ensures HighestHeld(q) && OpDropFree(ops) ==> HighestHeld(Run(q, ops))
  {
    hide Wrap32, Distance;
    if ops != [] {
      var p := Run(q, ops[..|ops| - 1]);
      WindowOverRuns(q, ops[..|ops| - 1]);
      match ops[|ops| - 1]
      case OpInsert(frame, now) => InsertKeepsWindow(p, frame, now);
      case OpAdvance => AdvanceKeepsWindow(p);
      case OpSkipTo(sequence) => SkipKeepsWindow(p, sequence);
      case OpDropExpired(now) => EmptyMap(p.frames); EmptyMap(Unexpired(p, now));
      case OpStart(first) => EmptyMap(p.frames);
      case _ =>
    }
  }

  predicate OpDropFree(ops: seq<Op>) { forall op | op in ops :: !op.OpDropExpired? }

  // ---------------------------------------------------------------- depth

  lemma {:induction false} AtMostWindow(m: map<u32, Frame>, cursor: u32, width: nat)
    requires forall s | s in m :: 0 <= Distance(cursor, s) < width
    ensures |m| <= width
  {
    hide Wrap32;
    EmptyMap(m);
    if |m| > 0 {
      var last := Wrap32(cursor + width - 1);
      assert width > 0;
      forall s | s in m && Distance(cursor, s) == width - 1 ensures s == last {}
      AtMostWindow(m - {last}, cursor, width - 1);
      if last in m { assert m == (m - {last})[last := m[last]]; } else { assert m - {last} == m; }
    }
  }

  /** `depth` is never short of a held frame, never over the window, and it is exactly the span to
      the furthest held frame when, and only when, a frame sits at `cursor + depth - 1`: always
      so in a run without `drop_expired`, by `WindowOverRuns`. */
  lemma DepthIsSpan(q: Queue)
    requires InWindow(q)
    ensures |q.frames| <= DepthQ(q) <= CAPACITY
    ensures forall s | s in q.frames :: Distance(q.cursor, s) < DepthQ(q)
    ensures |q.frames| > 0 ==>
      ((exists s :: s in q.frames && Distance(q.cursor, s) + 1 == DepthQ(q))
        <==> PeekQ(q, Wrap32(q.cursor + DepthQ(q) - 1)).Some?)
    ensures |q.frames| > 0 ==> (HighestHeld(q) <==> PeekQ(q, Wrap32(q.cursor + DepthQ(q) - 1)).Some?)
  {
    EmptyMap(q.frames);
    AtMostWindow(q.frames, q.cursor, DepthQ(q));
    var furthest := Wrap32(q.cursor + DepthQ(q) - 1);
    forall s: u32 ensures Distance(q.cursor, s) + 1 == DepthQ(q) <==> s == furthest {
      DistanceTo(q.cursor, DepthQ(q) - 1);
      hide Distance;
    }
  }

  /** What `drop_expired` does to that: the highest frame recorded is still held afterwards exactly when the
      sweep empties the queue or the highest frame's own deadline has not passed. So the depth overshoots
      exactly when the furthest frame expires before a nearer one. */
  lemma DropExpiredKeepsHighest(q: Queue, now: u64)
    requires InWindow(q) && HighestHeld(q) && |q.frames| > 0
    ensures var r := DropExpiredQ(q, now).0;
      && (HighestHeld(r) <==> |Unexpired(q, now)| == 0 || now <= q.frames[q.highest].info.deadline)
      && (|r.frames| > 0 ==>
            ((exists s :: s in r.frames && Distance(r.cursor, s) + 1 == DepthQ(r))
              <==> now <= q.frames[q.highest].info.deadline))
  {
    hide Wrap32, Distance;
    EmptyMap(q.frames);
    EmptyMap(Unexpired(q, now));
    var r := DropExpiredQ(q, now).0;
    if |r.frames| > 0 {
      assert InWindow(r);
      DepthIsSpan(r);
    }
  }

  /** After `drop_expired` the reported depth can overshoot: one frame held, a depth of two. */
  lemma DepthOvershootsAfterDropExpired(early: Frame, far: Frame)
    requires early == Frame(FrameInfo(MediaHeader(0, 0, 7, 0), 0, 9), [])
    requires far == Frame(FrameInfo(MediaHeader(0, 0, 8, 0), 0, 5), [])
    ensures var q := DropExpiredQ(InsertQ(InsertQ(EMPTY, early, 0).0, far, 0).0, 6).0;
      |q.frames| == 1 && DepthQ(q) == 2 && PeekQ(q, 8) == None
  {
    var q := InsertQ(InsertQ(EMPTY, early, 0).0, far, 0).0;
    assert q.frames == map[7 := early, 8 := far];
    assert Unexpired(q, 6) == map[7 := early];
  }

  // ---------------------------------------------------------------- conservation

  /** Frames thrown away by resyncs since the last reset. */
  ghost function Flushed(ops: seq<Op>): nat {
    if ops == [] then 0
    else
      var before := ops[..|ops| - 1];
      match ops[|ops| - 1]
      case OpReset => 0
      case OpResync(_) => Flushed(before) + |Run(EMPTY, before).frames|
      case _ => Flushed(before)
  }

  /** Inserts attempted since the last reset. */
  ghost function Inserts(ops: seq<Op>): nat {
    if ops == [] then 0
    else
      match ops[|ops| - 1]
      case OpReset => 0
      case OpInsert(_, _) => Inserts(ops[..|ops| - 1]) + 1
      case _ => Inserts(ops[..|ops| - 1])
  }

  /** No frame is lost or made: what was accepted was delivered, discarded by a jump, expired,
      flushed by a resync, or is still held; and every insert got exactly one verdict. */
  lemma {:induction false} Conservation(ops: seq<Op>)
    ensures var q := Run(EMPTY, ops);
      q.n.accepted == q.n.delivered + q.n.discarded + q.n.expired + |q.frames| + Flushed(ops)
    ensures Run(EMPTY, ops).n.Verdicts() == Inserts(ops)
  {
    hide *;
    if ops == [] {
      NothingCounted(ops);
    } else {
      var before := ops[..|ops| - 1];
      Conservation(before);
      StepConserves(Run(EMPTY, before), ops[|ops| - 1]);
      CountsOneMore(ops);
    }
  }

  lemma NothingCounted(ops: seq<Op>)
    requires ops == []
    ensures var q := Run(EMPTY, ops);
      && q.n.accepted == q.n.delivered + q.n.discarded + q.n.expired + |q.frames| + Flushed(ops)
      && q.n.Verdicts() == Inserts(ops)
  {}

  lemma CountsOneMore(ops: seq<Op>)
    requires ops != []
    ensures var before, op := ops[..|ops| - 1], ops[|ops| - 1];
      && Run(EMPTY, ops) == Apply(Run(EMPTY, before), op)
      && Flushed(ops) == (if op.OpReset? then 0
                          else Flushed(before) + if op.OpResync? then |Run(EMPTY, before).frames| else 0)
      && Inserts(ops) == (if op.OpReset? then 0 else Inserts(before) + if op.OpInsert? then 1 else 0)
  {
    hide Apply;
  }

  lemma StepConserves(q: Queue, op: Op)
    ensures var r := Apply(q, op);
      && (op.OpReset? ==>
            && r.n.accepted == r.n.delivered + r.n.discarded + r.n.expired + |r.frames|
            && r.n.Verdicts() == 0)
      && (!op.OpReset? ==>
            && r.n.accepted - r.n.delivered - r.n.discarded - r.n.expired - |r.frames| ==
               q.n.accepted - q.n.delivered - q.n.discarded - q.n.expired - |q.frames|
               + (if op.OpResync? then |q.frames| else 0)
            && r.n.Verdicts() == q.n.Verdicts() + if op.OpInsert? then 1 else 0)
  {
    hide Wrap32, Distance, Beyond, Unexpired;
    if op.OpAdvance? && q.started && q.cursor in q.frames {
      assert q.frames == (q.frames - {q.cursor})[q.cursor := q.frames[q.cursor]];
    }
  }

  // ---------------------------------------------------------------- delivery order

  predicate Continuous(ops: seq<Op>) { forall op | op in ops :: !op.OpResync? && !op.OpReset? }

  /** The unbounded position of the cursor after a run that began at position `x`. */
  ghost function Position(q: Queue, x: int, ops: seq<Op>): int {
    if ops == [] then x
    else
      var before := ops[..|ops| - 1];
      match ops[|ops| - 1]
      case OpAdvance => Position(q, x, before) + 1
      case OpSkipTo(sequence) => Position(q, x, before) + SkipToQ(Run(q, before), sequence).1
      case _ => Position(q, x, before)
  }

  ghost predicate Delivers(q: Queue, ops: seq<Op>)
    requires ops != []
  {
    ops[|ops| - 1].OpAdvance? && AdvanceQ(Run(q, ops[..|ops| - 1])).1.Delivered?
  }

  /** The unbounded positions delivered by a run, oldest first. */
  ghost function Deliveries(q: Queue, x: int, ops: seq<Op>): seq<int> {
    if ops == [] then []
    else
      var before := ops[..|ops| - 1];
      Deliveries(q, x, before) + if Delivers(q, ops) then [Position(q, x, before)] else []
  }

  /** The frames delivered by a run, oldest first. */
  ghost function DeliveredFrames(q: Queue, ops: seq<Op>): seq<Frame> {
    if ops == [] then []
    else
      var before := ops[..|ops| - 1];
      var p := Run(q, before);
      DeliveredFrames(q, before) + if Delivers(q, ops) && p.cursor in p.frames then [p.frames[p.cursor]] else []
  }

  /** The frames a run accepted. */
  ghost function AcceptedFrames(q: Queue, ops: seq<Op>): set<Frame> {
    if ops == [] then {}
    else
      var before := ops[..|ops| - 1];
      AcceptedFrames(q, before) +
        match ops[|ops| - 1]
        case OpInsert(frame, now) => if InsertQ(Run(q, before), frame, now).1.Accepted? then {frame} else {}
        case _ => {}
  }

  /** Between resyncs the cursor never goes back, so what comes out is strictly increasing in
      true position. */
  lemma {:induction false} DeliveryOrder(q: Queue, x: int, ops: seq<Op>)
    requires q.started && q.cursor == Wrap32(x) && Continuous(ops)
    ensures Run(q, ops).started && Run(q, ops).cursor == Wrap32(Position(q, x, ops)) && x <= Position(q, x, ops)
    ensures var d := Deliveries(q, x, ops);
      && (forall i | 0 <= i < |d| :: x <= d[i] < Position(q, x, ops))
      && (forall i, j | 0 <= i < j < |d| :: d[i] < d[j])
    ensures Run(q, ops).n.delivered == q.n.delivered + |Deliveries(q, x, ops)|
  {
    hide Wrap32, Distance, Beyond, Unexpired;
    if ops != [] {
      var before := ops[..|ops| - 1];
      DeliveryOrder(q, x, before);
      StepMovesOn(Run(q, before), Position(q, x, before), ops[|ops| - 1]);
      hide Apply, SkipToQ, AdvanceQ;
    }
  }

  /** How far one step moves the cursor in true position. */
  ghost function Move(q: Queue, op: Op): nat {
    match op
    case OpAdvance => 1
    case OpSkipTo(sequence) => SkipToQ(q, sequence).1
    case _ => 0
  }

  lemma StepMovesOn(q: Queue, x: int, op: Op)
    requires q.started && q.cursor == Wrap32(x) && !op.OpResync? && !op.OpReset?
    ensures var r := Apply(q, op);
      && r.started && r.cursor == Wrap32(x + Move(q, op))
      && r.n.delivered == q.n.delivered + if op.OpAdvance? && AdvanceQ(q).1.Delivered? then 1 else 0
  {
    hide Wrap32, Distance, Beyond, Unexpired;
    WrapShift(x, 1);
    if op.OpSkipTo? { WrapShift(x, Distance(q.cursor, op.sequence)); }
  }

  lemma StepContents(q: Queue, op: Op)
    ensures Apply(q, op).frames.Values <= q.frames.Values +
      if op.OpInsert? && InsertQ(q, op.frame, op.now).1.Accepted? then {op.frame} else {}
  {
    var r := Apply(q, op);
    forall s | s in r.frames
      ensures (s in q.frames && r.frames[s] == q.frames[s])
        || (op.OpInsert? && InsertQ(q, op.frame, op.now).1.Accepted? && r.frames[s] == op.frame)
    {
      hide Wrap32, Distance;
    }
    hide Apply, InsertQ;
  }

  lemma {:induction false} HeldWereAccepted(q: Queue, ops: seq<Op>)
    requires Continuous(ops)
    ensures Run(q, ops).frames.Values <= q.frames.Values + AcceptedFrames(q, ops)
  {
    hide Wrap32, Distance, Apply;
    if ops != [] {
      var before := ops[..|ops| - 1];
      HeldWereAccepted(q, before);
      StepContents(Run(q, before), ops[|ops| - 1]);
    }
  }

  /** Every frame that comes out was put in, comes out under the sequence its true position
      stands for, and carries the payload it was accepted with. */
  lemma {:induction false} DeliveredWereAccepted(q: Queue, x: int, ops: seq<Op>)
    requires InWindow(q) && q.started && q.cursor == Wrap32(x) && Continuous(ops)
    ensures var d, f := Deliveries(q, x, ops), DeliveredFrames(q, ops);
      && |f| == |d|
      && (forall i | 0 <= i < |d| :: f[i].info.header.sequence == Wrap32(d[i]))
      && (forall i | 0 <= i < |d| :: f[i] in q.frames.Values + AcceptedFrames(q, ops))
  {
    hide Wrap32, Distance, Beyond, Unexpired, Apply, Run;
    if ops != [] {
      var before := ops[..|ops| - 1];
      DeliveredWereAccepted(q, x, before);
      DeliveryOrder(q, x, before);
      WindowOverRuns(q, before);
      HeldWereAccepted(q, before);
    }
  }
}
