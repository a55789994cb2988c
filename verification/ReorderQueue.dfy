/** The 64-slot circular store, as code over an array, proved to be the map of `QueueSpec`. */
module ReorderQueues {
  import opened Words
  import opened Serial
  import opened Media
  import opened QueueSpec

  datatype Slot = Slot(occupied: bool, frame: Frame) {
    function Sequence(): u32 { frame.info.header.sequence }
  }

  const VACANT := Slot(false, Frame(FrameInfo(MediaHeader(0, 0, 0, 0), 0, 0), []))

  function Index(sequence: u32): (k: int)
    ensures 0 <= k < CAPACITY
  { sequence % CAPACITY }

  /** The frames a slot array holds, keyed by sequence. */
  ghost function FramesOf(slots: seq<Slot>): map<u32, Frame>
    requires |slots| == CAPACITY
  {
    map s: u32 | slots[Index(s)].occupied && slots[Index(s)].Sequence() == s :: slots[Index(s)].frame
  }

  /** Every occupied slot holds a sequence of its own index, inside the window at the cursor. */
  ghost predicate Placed(slots: seq<Slot>, cursor: u32) {
    && |slots| == CAPACITY
    && forall k | 0 <= k < CAPACITY && slots[k].occupied ::
         Index(slots[k].Sequence()) == k && 0 <= Distance(cursor, slots[k].Sequence()) < CAPACITY
  }

  /** No two sequences of one window share a slot. */
  lemma OneSequencePerSlot(cursor: u32, s: u32, t: u32)
    requires 0 <= Distance(cursor, s) < CAPACITY && 0 <= Distance(cursor, t) < CAPACITY
    requires Index(s) == Index(t)
    ensures s == t
  {}

  /** So an occupied slot can only hold the sequence asked for: the sequence comparison in
      `Peek` never decides anything. */
  lemma OccupiedMeansSameSequence(slots: seq<Slot>, cursor: u32, s: u32)
    requires Placed(slots, cursor) && 0 <= Distance(cursor, s) < CAPACITY
    ensures slots[Index(s)].occupied <==> s in FramesOf(slots)
    ensures slots[Index(s)].occupied ==> slots[Index(s)].Sequence() == s
  {
    if slots[Index(s)].occupied {
      OneSequencePerSlot(cursor, s, slots[Index(s)].Sequence());
    }
  }

  lemma StoreAddsOne(slots: seq<Slot>, frame: Frame)
    requires |slots| == CAPACITY
    requires !slots[Index(frame.info.header.sequence)].occupied
    ensures var s := frame.info.header.sequence;
      FramesOf(slots[Index(s) := Slot(true, frame)]) == FramesOf(slots)[s := frame]
    ensures |FramesOf(slots[Index(frame.info.header.sequence) := Slot(true, frame)])| == |FramesOf(slots)| + 1
  {}

  lemma ClearRemovesOne(slots: seq<Slot>, s: u32)
    requires |slots| == CAPACITY && s in FramesOf(slots)
    ensures FramesOf(slots[Index(s) := slots[Index(s)].(occupied := false)]) == FramesOf(slots) - {s}
    ensures |FramesOf(slots)| == |FramesOf(slots) - {s}| + 1
  {
    assert FramesOf(slots) == (FramesOf(slots) - {s})[s := FramesOf(slots)[s]];
  }

  lemma AllVacant(slots: seq<Slot>)
    requires |slots| == CAPACITY && forall k | 0 <= k < CAPACITY :: !slots[k].occupied
    ensures FramesOf(slots) == map[]
  {}

  /** A slot after the deadline sweep. */
  function Swept(slot: Slot, now: u64): Slot {
    if slot.occupied && now > slot.frame.info.deadline then slot.(occupied := false) else slot
  }

  class ReorderQueue {
    const slots: array<Slot>
    var cursor: u32
    var highest: u32
    var held: nat
    var started: bool
    var n: Counters

    ghost predicate Valid()
      reads this, slots
    {
      slots.Length == CAPACITY && Placed(slots[..], cursor) && held == |FramesOf(slots[..])|
      && (!started ==> held == 0)
    }

    ghost function Model(): Queue
      reads this, slots
      requires Valid()
    { Queue(started, cursor, highest, FramesOf(slots[..]), n) }

    constructor ()
      ensures Valid() && Model() == EMPTY && fresh(slots)
    {
      slots := new Slot[CAPACITY](_ => VACANT);
      cursor, highest, held, started, n := 0, 0, 0, false, ZERO;
      new;
      AllVacant(slots[..]);
    }

    method Start(first: u32)
      requires Valid()
      modifies this
      ensures Valid() && Model() == StartQ(old(Model()), first)
    {
      hide Distance, Wrap32, Index, FramesOf;
      if started { return; }
      NoneHeld(slots[..], cursor);
      cursor, highest, started := first, first, true;
    }

    /** Marks every slot vacant. */
    method Vacate()
      requires slots.Length == CAPACITY
      modifies slots
      ensures FramesOf(slots[..]) == map[]
      ensures forall k | 0 <= k < CAPACITY :: !slots[k].occupied
    {
      hide Distance, Wrap32;
      for i := 0 to slots.Length
        invariant forall k | 0 <= k < i :: !slots[k].occupied
      {
        slots[i] := slots[i].(occupied := false);
      }
      AllVacant(slots[..]);
    }

    method Resync(sequence: u32)
      requires Valid()
      modifies this, slots
      ensures Valid() && Model() == ResyncQ(old(Model()), sequence)
    {
      hide Distance, Wrap32, Index, FramesOf;
      Vacate();
      held, cursor, highest, started := 0, sequence, sequence, true;
      n := n.(resyncs := n.resyncs + 1);
    }

    method Reset()
      requires Valid()
      modifies this, slots
      ensures Valid() && Model() == EMPTY
    {
      hide Distance, Wrap32, Index, FramesOf;
      Vacate();
      held, cursor, highest, started, n := 0, 0, 0, false, ZERO;
    }

    method Insert(info: FrameInfo, payload: Bytes, now: u64) returns (verdict: Insert)
      requires Valid()
      modifies this, slots
      ensures Valid()
      ensures (Model(), verdict) == InsertQ(old(Model()), Frame(info, payload), now)
    {
      hide Distance, Wrap32, Index, FramesOf;
      if |payload| > MAX_FRAME_PAYLOAD {
        n := n.(oversized := n.oversized + 1);
        return Oversized;
      }
      var sequence := info.header.sequence;
      if !started { Start(sequence); }

      var offset := Distance(cursor, sequence);
      if offset < 0 {
        if offset > -CAPACITY {
          n := n.(late := n.late + 1);
          return Late;
        }
        n := n.(tooOld := n.tooOld + 1);
        return TooOld;
      }
      if offset >= CAPACITY {
        n := n.(tooFarAhead := n.tooFarAhead + 1);
        return TooFarAhead;
      }
      if now > info.deadline {
        n := n.(late := n.late + 1);
        return Late;
      }
      OccupiedMeansSameSequence(slots[..], cursor, sequence);
      if slots[Index(sequence)].occupied {
        n := n.(duplicates := n.duplicates + 1);
        return Duplicate;
      }
      ghost var before := slots[..];
      slots[Index(sequence)] := Slot(true, Frame(info, payload));
      assert slots[..] == before[Index(sequence) := Slot(true, Frame(info, payload))];
      StoreAddsOne(before, Frame(info, payload));
      if held == 0 || Precedes(highest, sequence) { highest := sequence; }
      held := held + 1;
      n := n.(accepted := n.accepted + 1);
      return Accepted;
    }

    method Peek(sequence: u32) returns (r: Option<Frame>)
      requires Valid()
      ensures r == PeekQ(Model(), sequence)
    {
      hide Distance, Wrap32;
      if !started {
        NoneHeld(slots[..], cursor);
        return None;
      }
      var offset := Distance(cursor, sequence);
      if offset < 0 || offset >= CAPACITY { return None; }
      var slot := slots[Index(sequence)];
      if !slot.occupied || slot.Sequence() != sequence { return None; }
      return Some(slot.frame);
    }

    /** Clears the slot at the cursor and moves the cursor on by one. */
    method StepOnce() returns (step: Step)
      requires Valid() && started
      modifies this`cursor, this`held, slots
      ensures Valid() && cursor == Wrap32(old(cursor) + 1)
      ensures step == (if old(cursor) in old(FramesOf(slots[..])) then Delivered else Gap)
      ensures FramesOf(slots[..]) == old(FramesOf(slots[..])) - {old(cursor)}
      ensures old(held) == held + if step.Delivered? then 1 else 0
    {
      hide Distance, Wrap32, Index, FramesOf;
      step := Gap;
      ghost var before := slots[..];
      ZeroDistance(cursor, cursor);
      OccupiedMeansSameSequence(before, cursor, cursor);
      var slot := slots[Index(cursor)];
      if slot.occupied && slot.Sequence() == cursor {
        ClearRemovesOne(before, cursor);
        slots[Index(cursor)] := slot.(occupied := false);
        assert slots[..] == before[Index(cursor) := before[Index(cursor)].(occupied := false)];
        held := held - 1;
        step := Delivered;
      } else {
        assert FramesOf(before) - {cursor} == FramesOf(before);
      }
      StepKeepsPlaced(slots[..], cursor);
      cursor := Wrap32(cursor + 1);
    }

    method Advance() returns (step: Step)
      requires Valid()
      modifies this, slots
      ensures Valid() && (Model(), step) == AdvanceQ(old(Model()))
    {
      hide Distance, Wrap32, Index, FramesOf;
      if !started {
        n := n.(gaps := n.gaps + 1);
        return Gap;
      }
      ghost var before := FramesOf(slots[..]);
      assert cursor !in before ==> before - {cursor} == before;
      step := StepOnce();
      if step == Delivered {
        n := n.(delivered := n.delivered + 1);
      } else {
        n := n.(gaps := n.gaps + 1);
      }
    }

    /** The clearing loop of `SkipTo`: walks over `stepped` positions, discarding what they hold. */
    method DiscardRun(stepped: nat)
      requires Valid() && started && stepped <= CAPACITY
      modifies this`cursor, this`held, this`n, slots
      ensures Valid() && cursor == Wrap32(old(cursor) + stepped)
      ensures FramesOf(slots[..]) == Beyond(old(Model()), stepped)
      ensures n == old(n).(discarded := n.discarded) && n.discarded + held == old(n.discarded + held)
    {
      hide Distance, Wrap32, Index, FramesOf;
      ghost var q := Model();
      HeldInWindow(slots[..], cursor);
      BeyondZero(q);
      assert cursor == Wrap32(cursor + 0) by { DistanceTo(cursor, 0); ZeroDistance(cursor, Wrap32(cursor + 0)); }
      for i := 0 to stepped
        invariant Valid()
        invariant cursor == Wrap32(q.cursor + i)
        invariant FramesOf(slots[..]) == Beyond(q, i)
        invariant n == q.n.(discarded := n.discarded) && n.discarded + held == old(n.discarded + held)
      {
        BeyondStep(q, i);
        WrapShift(q.cursor + i, 1);
        var step := StepOnce();
        if step == Delivered { n := n.(discarded := n.discarded + 1); }
      }
    }

    method SkipTo(sequence: u32) returns (frames: nat)
      requires Valid()
      modifies this, slots
      ensures Valid() && (Model(), frames) == SkipToQ(old(Model()), sequence)
    {
      hide Distance, Wrap32, Index, FramesOf;
      if !started { return 0; }
      var offset := Distance(cursor, sequence);
      if offset <= 0 { return 0; }
      frames := offset;
      ghost var q := Model();
      HeldInWindow(slots[..], cursor);
      DiscardRun(Min(frames, CAPACITY));
      BeyondWindow(q, Min(frames, CAPACITY), frames);
      JumpKeepsPlaced(slots[..], cursor, q, frames);
      n := n.(gaps := n.gaps + frames);
      cursor := sequence;
    }

    method DropExpired(now: u64) returns (dropped: nat)
      requires Valid()
      modifies this, slots
      ensures Valid() && (Model(), dropped) == DropExpiredQ(old(Model()), now)
    {
      hide Distance, Wrap32, Index, FramesOf;
      dropped := 0;
      ghost var q := Model();
      ghost var before := slots[..];
      for i := 0 to slots.Length
        invariant Valid() && Model() == q.(frames := FramesOf(slots[..]), n := q.n.(expired := q.n.expired + dropped))
        invariant dropped + held == |q.frames|
        invariant forall k | i <= k < CAPACITY :: slots[k] == before[k]
        invariant forall k | 0 <= k < i :: slots[k] == Swept(before[k], now)
      {
        var slot := slots[i];
        if slot.occupied && now > slot.frame.info.deadline {
          ghost var s := slots[..];
          OccupiedMeansSameSequence(s, cursor, slot.Sequence());
          ClearRemovesOne(s, slot.Sequence());
          slots[i] := slot.(occupied := false);
          assert slots[..] == s[i := slot.(occupied := false)];
          held, dropped := held - 1, dropped + 1;
          n := n.(expired := n.expired + 1);
        }
      }
      SweepIsUnexpired(before, slots[..], q, now);
    }

    function Depth(): (d: int)
      requires Valid()
      reads this, slots
      ensures d == DepthQ(Model())
    {
      if held == 0 then 0 else Distance(cursor, highest) + 1
    }
  }

  lemma NoneHeld(slots: seq<Slot>, cursor: u32)
    requires Placed(slots, cursor) && |FramesOf(slots)| == 0
    ensures FramesOf(slots) == map[]
    ensures forall k | 0 <= k < CAPACITY :: !slots[k].occupied
  {
    hide Distance, Wrap32;
    assert FramesOf(slots) == map[];
    forall k | 0 <= k < CAPACITY ensures !slots[k].occupied {
      assert slots[k].Sequence() !in FramesOf(slots);
    }
  }

  lemma StepKeepsPlaced(slots: seq<Slot>, cursor: u32)
    requires Placed(slots, cursor) && cursor !in FramesOf(slots)
    ensures Placed(slots, Wrap32(cursor + 1))
  {
    hide Distance, Wrap32;
    forall k | 0 <= k < CAPACITY && slots[k].occupied
      ensures 0 <= Distance(Wrap32(cursor + 1), slots[k].Sequence()) < CAPACITY
    {
      var s := slots[k].Sequence();
      assert s in FramesOf(slots);
      ZeroDistance(cursor, s);
      DistanceFrom(cursor, 1, s);
    }
  }

  lemma BeyondZero(q: Queue)
    requires forall s | s in q.frames :: 0 <= Distance(q.cursor, s)
    ensures Beyond(q, 0) == q.frames
  {
    hide Distance;
  }

  lemma BeyondStep(q: Queue, i: nat)
    requires i < CAPACITY
    ensures Beyond(q, i + 1) == Beyond(q, i) - {Wrap32(q.cursor + i)}
  {
    hide Distance, Wrap32;
    DistanceTo(q.cursor, i);
    forall s: u32
      ensures Distance(q.cursor, s) == i ==> s == Wrap32(q.cursor + i)
    {}
    assert forall s :: s in Beyond(q, i + 1) <==> s in Beyond(q, i) && s != Wrap32(q.cursor + i);
  }

  lemma BeyondWindow(q: Queue, stepped: nat, frames: nat)
    requires stepped == Min(frames, CAPACITY)
    requires forall s | s in q.frames :: Distance(q.cursor, s) < CAPACITY
    ensures Beyond(q, stepped) == Beyond(q, frames)
  {
    hide Distance;
  }

  lemma JumpKeepsPlaced(slots: seq<Slot>, cursor: u32, q: Queue, frames: nat)
    requires Placed(slots, cursor) && 0 < frames < 0x8000_0000
    requires FramesOf(slots) == Beyond(q, frames)
    requires forall s | s in q.frames :: Distance(q.cursor, s) < CAPACITY
    ensures Placed(slots, Wrap32(q.cursor + frames))
  {
    hide Distance, Wrap32;
    forall k | 0 <= k < CAPACITY && slots[k].occupied
      ensures 0 <= Distance(Wrap32(q.cursor + frames), slots[k].Sequence()) < CAPACITY
    {
      var s := slots[k].Sequence();
      assert s in FramesOf(slots);
      DistanceFrom(q.cursor, frames, s);
    }
  }

  lemma SweepIsUnexpired(before: seq<Slot>, after: seq<Slot>, q: Queue, now: u64)
    requires |before| == |after| == CAPACITY && q.frames == FramesOf(before)
    requires forall k | 0 <= k < CAPACITY :: after[k] == Swept(before[k], now)
    ensures FramesOf(after) == Unexpired(q, now)
  {
    hide Distance, Wrap32, Index;
  }

  lemma HeldInWindow(slots: seq<Slot>, cursor: u32)
    requires Placed(slots, cursor)
    ensures forall s | s in FramesOf(slots) :: 0 <= Distance(cursor, s) < CAPACITY
  {
    hide Distance, Wrap32;
  }
}
