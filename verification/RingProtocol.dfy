/** The lock-free ring as two threads taking atomic steps: an acquire load of the other side's index,
    one slot copied at a time, a release store of the own index. An acquire load may return any
    value between the last one that thread saw and the current one. */
module RingProtocol {
  import opened Words
  import opened Modular

  /** A slot count the ring allows: a power of two, so it divides the range of the 64-bit index. */
  predicate Capacity(cap: int) { 2 <= cap < 0x1_0000_0000_0000_0000 && 0x1_0000_0000_0000_0000 % cap == 0 }

  /** The producer in the middle of a bulk push: `items` is the accepted part of the source, of which
      `copied` are stored; `short` when part of the source was refused. */
  datatype Producer<T> = PIdle | PCopying(items: seq<T>, short: bool, copied: nat)

  /** The consumer in the middle of a pop, which copies items out, or of a discard, which does not. */
  datatype Consumer<T> = CIdle | CTaking(taken: nat, keep: bool, got: seq<T>)

  /** The shared memory and both threads. `accepted` and `consumed` are the whole history: every item
      published so far, and every position retired so far with the value popped there, if it
      was popped. `seenRead` and `seenWrite` say how far into the other side's history the
      last acquire load of each thread reached. */
  datatype Ring<T> = Ring(
    slots: seq<T>, write: u64, read: u64, overflows: nat,
    producer: Producer<T>, consumer: Consumer<T>,
    accepted: seq<T>, consumed: seq<Option<T>>, seenRead: nat, seenWrite: nat)

  datatype Step<T> =
    | PBegin(source: seq<T>, load: nat)
    | PCopy
    | PPublish
    | CBegin(count: nat, keep: bool, load: nat)
    | CCopy
    | CPublish
    | PSize(load: nat)
    | CSize(load: nat)

  function Init<T>(slots: seq<T>): Ring<T> { Ring(slots, 0, 0, 0, PIdle, CIdle, [], [], 0, 0) }

  /** What the acquire loads of the two threads may return, as a length of history. */
  predicate MayLoadRead<T>(s: Ring<T>, load: nat) { s.seenRead <= load <= |s.consumed| }

  predicate MayLoadWrite<T>(s: Ring<T>, load: nat) { s.seenWrite <= load <= |s.accepted| }

  predicate Enabled<T>(s: Ring<T>, step: Step<T>) {
    match step
    case PBegin(_, load) => s.producer.PIdle? && MayLoadRead(s, load)
    case PCopy => s.producer.PCopying? && s.producer.copied < |s.producer.items|
    case PPublish => s.producer.PCopying? && s.producer.copied == |s.producer.items|
    case CBegin(_, _, load) => s.consumer.CIdle? && MayLoadWrite(s, load)
    case CCopy => s.consumer.CTaking? && s.consumer.keep && |s.consumer.got| < s.consumer.taken
    case CPublish => s.consumer.CTaking? && (s.consumer.keep ==> |s.consumer.got| == s.consumer.taken)
    case PSize(load) => s.producer.PIdle? && MayLoadRead(s, load)
    case CSize(load) => s.consumer.CIdle? && MayLoadWrite(s, load)
  }

  /** Slots the producer believes free, and items the consumer believes available: subtractions of
      64-bit indices. */
  function Free<T>(s: Ring<T>, load: nat): int { |s.slots| - Wrap64(s.write - Wrap64(load)) }

  function Available<T>(s: Ring<T>, load: nat): nat { Wrap64(Wrap64(load) - s.read) }

  function Slot<T>(s: Ring<T>, index: u64, i: nat): (k: nat)
    requires |s.slots| > 0
    ensures k < |s.slots|
  { (index + i) % |s.slots| }

  /** The items retired by the consumer's store: copied out, or dropped unseen. */
  function Retired<T>(c: Consumer<T>): seq<Option<T>>
    requires c.CTaking? && (c.keep ==> |c.got| == c.taken)
  {
    seq(c.taken, i requires 0 <= i < c.taken => if c.keep then Some(c.got[i]) else None)
  }

  function Next<T>(s: Ring<T>, step: Step<T>): Ring<T>
    requires |s.slots| > 0 && Enabled(s, step)
  {
    match step
    case PBegin(source, load) =>
      if source == [] then s
      else
        var free := Free(s, load);
        if free <= 0 then s.(seenRead := load, overflows := s.overflows + 1)
        else
          var n := Min(|source|, free);
          s.(seenRead := load, producer := PCopying(source[..n], n < |source|, 0))
    case PCopy =>
      var p := s.producer;
      s.(slots := s.slots[Slot(s, s.write, p.copied) := p.items[p.copied]], producer := p.(copied := p.copied + 1))
    case PPublish =>
      var p := s.producer;
      s.(write := Wrap64(s.write + |p.items|), accepted := s.accepted + p.items, producer := PIdle,
         overflows := s.overflows + if p.short then 1 else 0)
    case CBegin(count, keep, load) =>
      if count == 0 then s
      else
        var n := Min(count, Available(s, load));
        s.(seenWrite := load, consumer := if n == 0 then CIdle else CTaking(n, keep, []))
    case CCopy =>
      var c := s.consumer;
      s.(consumer := c.(got := c.got + [s.slots[Slot(s, s.read, |c.got|)]]))
    case CPublish =>
      s.(read := Wrap64(s.read + s.consumer.taken), consumed := s.consumed + Retired(s.consumer), consumer := CIdle)
    case PSize(load) => s.(seenRead := load)
    case CSize(load) => s.(seenWrite := load)
  }

  /** A run: every step enabled where it is taken. */
  predicate IsRun<T>(s: Ring<T>, steps: seq<Step<T>>)
    requires |s.slots| > 0
    decreases |steps|
  {
    steps == [] || (Enabled(s, steps[0]) && IsRun(Next(s, steps[0]), steps[1..]))
  }

  function Run<T>(s: Ring<T>, steps: seq<Step<T>>): (r: Ring<T>)
    requires |s.slots| > 0 && IsRun(s, steps)
    ensures |r.slots| == |s.slots|
    decreases |steps|
  {
    if steps == [] then s else Run(Next(s, steps[0]), steps[1..])
  }

  // ---------------------------------------------------------------- the invariant

  /** Positions `lo` to `hi` of the history lie in their slots. */
  ghost predicate Stored<T>(slots: seq<T>, items: seq<T>, lo: nat, hi: nat)
    requires |slots| > 0
  {
    hi <= |items| && forall p | lo <= p < hi :: slots[p % |slots|] == items[p]
  }

  /** The history the producer is writing: what is published plus what is in hand. */
  ghost function Pending<T>(s: Ring<T>): seq<T> {
    s.accepted + if s.producer.PCopying? then s.producer.items else []
  }

  ghost function CopiedUpTo<T>(s: Ring<T>): nat {
    |s.accepted| + if s.producer.PCopying? then s.producer.copied else 0
  }

  ghost predicate Indices<T>(s: Ring<T>) {
    && s.write == Wrap64(|s.accepted|) && s.read == Wrap64(|s.consumed|)
    && s.seenRead <= |s.consumed| <= s.seenWrite <= |s.accepted|
    && |Pending(s)| <= s.seenRead + |s.slots|
    && (s.producer.PCopying? ==> s.producer.copied <= |s.producer.items|)
    && (s.consumer.CTaking? ==> |s.consumed| + s.consumer.taken <= s.seenWrite && |s.consumer.got| <= s.consumer.taken)
  }

  ghost predicate Safe<T>(s: Ring<T>) {
    && Capacity(|s.slots|) && Indices(s)
    && Stored(s.slots, Pending(s), |s.consumed|, CopiedUpTo(s))
    && (s.consumer.CTaking? ==>
          forall i | 0 <= i < |s.consumer.got| :: s.consumer.got[i] == s.accepted[|s.consumed| + i])
    && (forall i | 0 <= i < |s.consumed| && s.consumed[i].Some? :: s.consumed[i].value == s.accepted[i])
  }

  lemma WrappedDifference(x: int, y: int)
    requires 0 <= x - y < 0x1_0000_0000_0000_0000
    ensures Wrap64(Wrap64(x) - Wrap64(y)) == x - y
  {}

  lemma WrappedSum(x: int, n: int)
    ensures Wrap64(Wrap64(x) + n) == Wrap64(x + n)
  {}

  lemma Bounded(cap: int)
    requires Capacity(cap)
    ensures 2 <= cap < 0x1_0000_0000_0000_0000
  {}

  /** The wrapped subtractions give the true differences. */
  lemma DifferencesAreTrue<T>(s: Ring<T>, load: nat)
    requires Safe(s)
    ensures MayLoadRead(s, load) ==> Free(s, load) == |s.slots| - (|s.accepted| - load) && Free(s, load) >= 0
    ensures MayLoadWrite(s, load) ==> Available(s, load) == load - |s.consumed| <= |s.slots|
  {
    hide Capacity, Wrap64, Stored;
    Bounded(|s.slots|);
    if MayLoadRead(s, load) { WrappedDifference(|s.accepted|, load); }
    if MayLoadWrite(s, load) { WrappedDifference(load, |s.consumed|); }
  }

  lemma SlotOfPosition<T>(s: Ring<T>, i: nat)
    requires Safe(s)
    ensures Slot(s, s.write, i) == (|s.accepted| + i) % |s.slots|
    ensures Slot(s, s.read, i) == (|s.consumed| + i) % |s.slots|
  {
    assert 0x1_0000_0000_0000_0000 % |s.slots| == 0;
    hide Wrap64, Stored, Capacity;
    WrappedSlot(|s.accepted|, i, |s.slots|);
    WrappedSlot(|s.consumed|, i, |s.slots|);
  }

  lemma WrappedSlot(x: int, i: int, d: int)
    requires d > 0 && 0x1_0000_0000_0000_0000 % d == 0
    ensures (Wrap64(x) + i) % d == (x + i) % d
  {
    WrapKeepsSlot(x, d);
    ReduceFirst(Wrap64(x), i, d);
    ReduceFirst(x, i, d);
  }

  /** The producer's store lands outside everything the consumer has not retired yet, so it never
      overwrites an unread item nor races with the consumer's copy of one. */
  lemma StoreKeepsUnread<T>(s: Ring<T>)
    requires Safe(s) && Enabled(s, PCopy)
    ensures forall p | |s.consumed| <= p < CopiedUpTo(s) :: p % |s.slots| != Slot(s, s.write, s.producer.copied)
    ensures Enabled(s, CCopy) ==> Slot(s, s.write, s.producer.copied) != Slot(s, s.read, |s.consumer.got|)
    ensures var t := Next(s, PCopy); Stored(t.slots, Pending(t), |t.consumed|, CopiedUpTo(t))
  {
    var d, at := |s.slots|, CopiedUpTo(s);
    SlotOfPosition(s, s.producer.copied);
    if Enabled(s, CCopy) { SlotOfPosition(s, |s.consumer.got|); }
    assert Pending(s)[at] == s.producer.items[s.producer.copied];
    forall p | |s.consumed| <= p < at ensures p % d != at % d { DistinctSlots(p, at, d); }
    hide Slot, Capacity, Wrap64;
  }

  lemma BeginPushKeepsSafe<T>(s: Ring<T>, source: seq<T>, load: nat)
    requires Safe(s) && Enabled(s, PBegin(source, load))
    ensures Safe(Next(s, PBegin(source, load)))
  {
    hide Capacity, Wrap64, Free;
    Bounded(|s.slots|);
    DifferencesAreTrue(s, load);
    var t := Next(s, PBegin(source, load));
    assert forall p | 0 <= p < |s.accepted| :: Pending(t)[p] == Pending(s)[p];
  }

  lemma PublishKeepsSafe<T>(s: Ring<T>)
    requires Safe(s) && Enabled(s, PPublish)
    ensures Safe(Next(s, PPublish))
  {
    hide Capacity, Wrap64;
    Bounded(|s.slots|);
    WrappedSum(|s.accepted|, |s.producer.items|);
    var t := Next(s, PPublish);
    assert Pending(t) == Pending(s) && CopiedUpTo(t) == CopiedUpTo(s);
    assert forall i | 0 <= i < |s.accepted| :: t.accepted[i] == s.accepted[i];
    hide Stored, Next;
  }

  lemma CopyInKeepsSafe<T>(s: Ring<T>)
    requires Safe(s) && Enabled(s, PCopy)
    ensures Safe(Next(s, PCopy))
  {
    Bounded(|s.slots|);
    StoreKeepsUnread(s);
    hide Capacity, Wrap64, Slot, Stored;
  }

  lemma ProducerKeepsSafe<T>(s: Ring<T>, step: Step<T>)
    requires Safe(s) && Enabled(s, step) && (step.PBegin? || step.PCopy? || step.PPublish? || step.PSize?)
    ensures Safe(Next(s, step))
  {
    hide Capacity, Wrap64, Slot;
    match step
    case PBegin(source, load) => BeginPushKeepsSafe(s, source, load);
    case PCopy => CopyInKeepsSafe(s);
    case PPublish => PublishKeepsSafe(s);
    case PSize(load) => hide Stored;
  }

  lemma CopyOutKeepsSafe<T>(s: Ring<T>)
    requires Safe(s) && Enabled(s, CCopy)
    ensures Safe(Next(s, CCopy))
  {
    var at := |s.consumed| + |s.consumer.got|;
    SlotOfPosition(s, |s.consumer.got|);
    assert Pending(s)[at] == s.accepted[at];
    assert s.slots[at % |s.slots|] == Pending(s)[at];
    hide Capacity, Wrap64, Slot, Stored;
  }

  lemma RetireKeepsSafe<T>(s: Ring<T>)
    requires Safe(s) && Enabled(s, CPublish)
    ensures Safe(Next(s, CPublish))
  {
    hide Capacity, Wrap64;
    WrappedSum(|s.consumed|, s.consumer.taken);
  }

  lemma ConsumerKeepsSafe<T>(s: Ring<T>, step: Step<T>)
    requires Safe(s) && Enabled(s, step) && (step.CBegin? || step.CCopy? || step.CPublish? || step.CSize?)
    ensures Safe(Next(s, step))
  {
    hide Capacity, Wrap64, Slot, Stored, Available;
    match step
    case CBegin(count, keep, load) => DifferencesAreTrue(s, load);
    case CCopy => CopyOutKeepsSafe(s);
    case CPublish => RetireKeepsSafe(s);
    case CSize(load) =>
  }

  lemma InitIsSafe<T>(slots: seq<T>)
    requires Capacity(|slots|)
    ensures Safe(Init(slots))
  {}

  /** Every interleaving of the two threads, however stale their loads: the ring stays safe, at most
      `capacity` positions are in use, and what came out, popped or discarded, is position by
      position a prefix of what went in. */
  lemma {:induction false} SafeOverRuns<T>(s: Ring<T>, steps: seq<Step<T>>)
    requires Safe(s) && IsRun(s, steps)
    ensures var t := Run(s, steps);
      && Safe(t)
      && 0 <= |t.accepted| - |t.consumed| <= |t.slots|
      && Wrap64(t.write - t.read) == |t.accepted| - |t.consumed|
      && (forall i | 0 <= i < |t.consumed| && t.consumed[i].Some? :: t.consumed[i].value == t.accepted[i])
      && s.accepted <= t.accepted && s.consumed <= t.consumed
    decreases |steps|
  {
    hide Enabled, Wrap64, Capacity, Stored;
    if steps == [] {
      Bounded(|s.slots|);
      WrappedDifference(|s.accepted|, |s.consumed|);
    } else {
      var step := steps[0];
      Bounded(|s.slots|);
      if step.PBegin? || step.PCopy? || step.PPublish? || step.PSize? {
        ProducerKeepsSafe(s, step);
      } else {
        ConsumerKeepsSafe(s, step);
      }
      SafeOverRuns(Next(s, step), steps[1..]);
      HistoryGrows(s, step);
      hide Safe, Next;
    }
  }

  /** From an empty ring, then, on every run: what came out is a prefix of what went in, and what is in use
      fits. */
  lemma SafeFromEmpty<T>(slots: seq<T>, steps: seq<Step<T>>)
    requires Capacity(|slots|) && IsRun(Init(slots), steps)
    ensures var t := Run(Init(slots), steps);
      && Safe(t) && 0 <= |t.accepted| - |t.consumed| <= |slots|
      && (forall i | 0 <= i < |t.consumed| && t.consumed[i].Some? :: t.consumed[i].value == t.accepted[i])
  {
    InitIsSafe(slots);
    SafeOverRuns(Init(slots), steps);
    hide Safe, Run, IsRun, Capacity;
  }

  lemma HistoryGrows<T>(s: Ring<T>, step: Step<T>)
    requires |s.slots| > 0 && Enabled(s, step)
    ensures s.accepted <= Next(s, step).accepted && s.consumed <= Next(s, step).consumed
  {
    hide Wrap64, Slot;
  }

  // ---------------------------------------------------------------- observing the size

  /** What `size()` returns when the index loads reached these lengths of history. */
  function SizeSeen(write: nat, read: nat): nat { Wrap64(Wrap64(write) - Wrap64(read)) }

  predicate ByProducer<T>(steps: seq<Step<T>>) {
    forall i | 0 <= i < |steps| :: steps[i].PBegin? || steps[i].PCopy? || steps[i].PPublish? || steps[i].PSize?
  }

  lemma {:induction false} ProducerLeavesConsumer<T>(s: Ring<T>, steps: seq<Step<T>>)
    requires |s.slots| > 0 && IsRun(s, steps) && ByProducer(steps)
    ensures var t := Run(s, steps); t.consumer == s.consumer && t.consumed == s.consumed && t.seenWrite == s.seenWrite
    decreases |steps|
  {
    if steps != [] {
      assert |Next(s, steps[0]).slots| == |s.slots|;
      assert forall i | 0 <= i < |steps| - 1 :: steps[1..][i] == steps[i + 1];
      hide Wrap64, Slot, Free;
      ProducerLeavesConsumer(Next(s, steps[0]), steps[1..]);
    }
  }

  /** A consumer that has seen `size() >= count` gets all `count` items from its next bulk pop,
      whatever the producer does in between and however stale the second load is: a pop that
      comes up short after such a check cannot happen. */
  lemma SizeGuaranteesPop<T>(s: Ring<T>, sized: nat, steps: seq<Step<T>>, count: nat, load: nat)
    requires Safe(s) && Enabled(s, CSize(sized)) && 0 < count <= SizeSeen(sized, |s.consumed|)
    requires IsRun(Next(s, CSize(sized)), steps) && ByProducer(steps)
    requires Enabled(Run(Next(s, CSize(sized)), steps), CBegin(count, true, load))
    ensures Next(Run(Next(s, CSize(sized)), steps), CBegin(count, true, load)).consumer == CTaking(count, true, [])
  {
    Bounded(|s.slots|);
    hide Run, IsRun, Wrap64, Capacity, Stored;
    var t0 := Next(s, CSize(sized));
    var t := Run(t0, steps);
    DifferencesAreTrue(s, sized);
    ConsumerKeepsSafe(s, CSize(sized));
    SafeOverRuns(t0, steps);
    ProducerLeavesConsumer(t0, steps);
    DifferencesAreTrue(t, load);
    WrappedDifference(sized, |s.consumed|);
    hide Next, Available, Safe;
    assert Available(t, load) >= count;
    NextPop(t, count, load);
  }

  lemma NextPop<T>(s: Ring<T>, count: nat, load: nat)
    requires |s.slots| > 0 && Enabled(s, CBegin(count, true, load)) && 0 < count <= Available(s, load)
    ensures Next(s, CBegin(count, true, load)).consumer == CTaking(count, true, [])
  {
    hide Available, Enabled;
  }

  /** One of the two owning threads always sees a size between zero and the capacity ... */
  lemma OwnersSeeBoundedSize<T>(s: Ring<T>, load: nat)
    requires Safe(s)
    ensures MayLoadWrite(s, load) ==> SizeSeen(load, |s.consumed|) <= |s.slots|
    ensures MayLoadRead(s, load) ==> SizeSeen(|s.accepted|, load) <= |s.slots|
  {
    hide Capacity, Wrap64, Stored;
    Bounded(|s.slots|);
    if MayLoadWrite(s, load) { WrappedDifference(load, |s.consumed|); }
    if MayLoadRead(s, load) { WrappedDifference(|s.accepted|, load); }
  }

  /** ... a third one reads the two indices at different moments of a run, `between` lying between them.
      Reading the write index first, it sees a size within the capacity exactly when the consumer has
      retired no more in between than the ring then held; reading the read index first, or a stale value
      of it, exactly when the producer has published no more in between than there was room for. */
  lemma ThirdPartySize<T>(slots: seq<T>, before: seq<Step<T>>, between: seq<Step<T>>)
    requires Capacity(|slots|) && IsRun(Init(slots), before) && IsRun(Run(Init(slots), before), between)
    requires var t1 := Run(Init(slots), before); var t2 := Run(t1, between);
      && |t2.consumed| - |t1.consumed| < 0x4000_0000_0000_0000
      && |t2.accepted| - |t1.accepted| < 0x4000_0000_0000_0000
    ensures var t1 := Run(Init(slots), before); var t2 := Run(t1, between);
      && (SizeSeen(|t1.accepted|, |t2.consumed|) <= |slots| <==>
            |t2.consumed| - |t1.consumed| <= |t1.accepted| - |t1.consumed|)
      && (SizeSeen(|t2.accepted|, |t1.consumed|) <= |slots| <==>
            |t2.accepted| - |t1.accepted| <= |slots| - (|t1.accepted| - |t1.consumed|))
  {
    AtMostHalf(|slots|);
    hide *;
    var t1 := Run(Init(slots), before);
    var t2 := Run(t1, between);
    SafeFromEmpty(slots, before);
    SafeOverRuns(t1, between);
    InitKeepsSlots(slots, before);
    SizesSeen(|t1.accepted|, |t1.consumed|, |t2.accepted|, |t2.consumed|, |slots|);
  }

  lemma InitKeepsSlots<T>(slots: seq<T>, steps: seq<Step<T>>)
    requires |slots| > 0 && IsRun(Init(slots), steps)
    ensures |Run(Init(slots), steps).slots| == |slots|
  {
    hide Run, IsRun;
  }

  /** The arithmetic of two loads, `1` before `2`, of indices that only grow. */
  lemma SizesSeen(a1: nat, c1: nat, a2: nat, c2: nat, cap: nat)
    requires c1 <= a1 <= c1 + cap && a1 <= a2 && c1 <= c2 <= a2 && cap <= 0x8000_0000_0000_0000
    requires c2 - c1 < 0x4000_0000_0000_0000 && a2 - a1 < 0x4000_0000_0000_0000
    ensures SizeSeen(a1, c2) <= cap <==> c2 - c1 <= a1 - c1
    ensures SizeSeen(a2, c1) <= cap <==> a2 - a1 <= cap - (a1 - c1)
  {
    hide Wrap64;
    if c2 <= a1 { WrappedDifference(a1, c2); } else { WrappedBehind(a1, c2); }
    WrappedDifference(a2, c1);
  }

  lemma WrappedBehind(x: int, y: int)
    requires 0 < y - x <= 0x1_0000_0000_0000_0000
    ensures Wrap64(Wrap64(x) - Wrap64(y)) == 0x1_0000_0000_0000_0000 - (y - x)
  {
    WrappedDifference(x + 0x1_0000_0000_0000_0000, y);
  }

  /** A capacity divides 2^64 and is smaller, so it is at most half of it. */
  lemma AtMostHalf(cap: int)
    requires Capacity(cap)
    ensures cap <= 0x8000_0000_0000_0000
  {
    var q := 0x1_0000_0000_0000_0000 / cap;
    assert q * cap == 0x1_0000_0000_0000_0000;
    if q <= 1 {
      assert false;
    } else {
      Distribute(q, 1, cap);
      AtLeastOnce(q - 1, cap);
    }
  }

  /** And it can: between its two loads one item is pushed and popped. */
  lemma ThirdPartySeesNonsense<T>(x: T, y: T)
    ensures exists steps :: var s := Init([x, y]);
      IsRun(s, steps) && SizeSeen(|s.accepted|, |Run(s, steps).consumed|) == 0xFFFF_FFFF_FFFF_FFFF
  {
    var s0 := Init([x, y]);
    var s1 := Next(s0, PBegin([x], 0));
    var s2 := Next(s1, PCopy);
    var s3 := Next(s2, PPublish);
    assert [] + [x] == [x] && Available(s3, 1) == 1;
    var s4 := Next(s3, CBegin(1, true, 1));
    var s5 := Next(s4, CCopy);
    var s6 := Next(s5, CPublish);
    assert |s6.consumed| == 1;
    RunOfOne(s5, CPublish, []);
    RunOfOne(s4, CCopy, [CPublish]);
    RunOfOne(s3, CBegin(1, true, 1), [CCopy, CPublish]);
    RunOfOne(s2, PPublish, [CBegin(1, true, 1), CCopy, CPublish]);
    RunOfOne(s1, PCopy, [PPublish, CBegin(1, true, 1), CCopy, CPublish]);
    RunOfOne(s0, PBegin([x], 0), [PCopy, PPublish, CBegin(1, true, 1), CCopy, CPublish]);
    hide Next, Run, IsRun, Enabled;
    var steps := [PBegin([x], 0)] + [PCopy, PPublish, CBegin(1, true, 1), CCopy, CPublish];
    assert IsRun(s0, steps) && Run(s0, steps) == s6;
  }

  lemma RunOfOne<T>(s: Ring<T>, step: Step<T>, rest: seq<Step<T>>)
    requires |s.slots| > 0 && Enabled(s, step) && IsRun(Next(s, step), rest)
    ensures IsRun(s, [step] + rest) && Run(s, [step] + rest) == Run(Next(s, step), rest)
  {
    hide Enabled, Next;
    assert ([step] + rest)[1..] == rest;
  }
}
