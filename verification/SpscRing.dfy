/** The ring as array code: two-part bulk copies over a power-of-two store addressed by monotonic
    64-bit indices. Seen from one thread at a time it is a bounded queue. */
module SpscRings {
  import opened Words
  import opened Modular
  import opened RingProtocol

  /** The slot of the `i`-th position from `from` on, out of `d`. */
  function SlotAt(from: int, i: int, d: int): (k: int)
    requires d > 0
    ensures 0 <= k < d
  { (from + i) % d }

  /** Where an index falls in the store: its low bits. */
  function Masked(index: u64, d: int): (k: nat)
    requires d > 0
    ensures k < d
  { index % d }

  /** The `n` items from index `from` on. */
  function Window<T>(slots: seq<T>, from: u64, n: nat): seq<T>
    requires |slots| > 0
  { seq(n, i requires 0 <= i < n => slots[SlotAt(from, i, |slots|)]) }

  /** How far slot `k` lies past `offset`, going round. */
  function Turn(k: nat, offset: nat, cap: nat): int { if k >= offset then k - offset else k + cap - offset }

  /** The store after `items` were laid down from `offset` on, going round. */
  function LaidDown<T>(slots: seq<T>, offset: nat, items: seq<T>): seq<T> {
    seq(|slots|, k requires 0 <= k < |slots| =>
      var i := Turn(k, offset, |slots|); if 0 <= i < |items| then items[i] else slots[k])
  }

  lemma SlotAfter(from: u64, i: nat, d: nat)
    requires 0 < d && i <= d
    ensures SlotAt(from, i, d) == if Masked(from, d) + i < d then Masked(from, d) + i else Masked(from, d) + i - d
  {
    var q, r := from / d, from % d;
    assert from + i == q * d + (r + i);
    if r + i < d { Unique(from + i, d, q, r + i); } else {
      assert (q + 1) * d == q * d + d;
      Unique(from + i, d, q + 1, r + i - d);
    }
  }

  lemma SlotShift(from: int, k: int, i: int, d: int)
    requires Capacity(d)
    ensures SlotAt(Wrap64(from + k), i, d) == SlotAt(from, k + i, d)
  {
    WrappedSlot(from + k, i, d);
  }

  /** Taking `k` items off the front is moving the index on by `k`. */
  lemma WindowTail<T>(slots: seq<T>, from: u64, n: nat, k: nat)
    requires Capacity(|slots|) && k <= n
    ensures Window(slots, from, n)[k..] == Window(slots, Wrap64(from + k), n - k)
  {
    hide Wrap64, Capacity, SlotAt, Masked;
    Bounded(|slots|);
    forall i | 0 <= i < n - k
      ensures Window(slots, from, n)[k..][i] == Window(slots, Wrap64(from + k), n - k)[i]
    {
      SlotShift(from, k, i, |slots|);
    }
  }

  /** Laying `items` down behind the last item appends them. */
  lemma WindowAppend<T>(slots: seq<T>, from: u64, n: nat, items: seq<T>)
    requires Capacity(|slots|) && n + |items| <= |slots|
    ensures var to := Wrap64(from + n);
      Window(LaidDown(slots, Masked(to, |slots|), items), from, n + |items|) == Window(slots, from, n) + items
  {
    hide Wrap64, Capacity, SlotAt, Masked;
    Bounded(|slots|);
    var d := |slots|;
    var offset, r := Masked(Wrap64(from + n), d), Masked(from, d);
    var laid := LaidDown(slots, offset, items);
    assert offset == if r + n < d then r + n else r + n - d by {
      SlotShift(from, n, 0, d);
      SlotAfter(Wrap64(from + n), 0, d);
      SlotAfter(from, n, d);
    }
    forall i | 0 <= i < n + |items|
      ensures Window(laid, from, n + |items|)[i] == (Window(slots, from, n) + items)[i]
    {
      SlotAfter(from, i, d);
    }
  }

  /** The protocol's slot-by-slot copy ends in the same store as the two bulk copies. */
  lemma {:induction false} StepsLayDown<T>(s: Ring<T>, n: nat)
    requires |s.slots| > 0 && s.producer.PCopying? && s.producer.copied == 0 && n <= |s.producer.items| <= |s.slots|
    ensures var steps := seq(n, i => PCopy);
      && IsRun(s, steps)
      && Run(s, steps) == s.(slots := LaidDown(s.slots, Masked(s.write, |s.slots|), s.producer.items[..n]),
                             producer := s.producer.(copied := n))
  {
    if n == 0 {
      assert LaidDown(s.slots, Masked(s.write, |s.slots|), s.producer.items[..0]) == s.slots;
    } else {
      StepsLayDown(s, n - 1);
      var steps, last := seq(n - 1, i => PCopy), seq(n, i => PCopy);
      var t := Run(s, steps);
      assert last == steps + [PCopy];
      RunAppend(s, steps, PCopy);
      SlotAfter(s.write, n - 1, |s.slots|);
      LayOneMore(s.slots, Masked(s.write, |s.slots|), s.producer.items, n - 1);
      hide LaidDown, Run, IsRun;
    }
  }

  /** And the consumer's slot-by-slot copy out takes the same items as its two bulk copies. */
  lemma {:induction false} StepsTakeUp<T>(s: Ring<T>, n: nat)
    requires |s.slots| > 0 && s.consumer.CTaking? && s.consumer.keep && s.consumer.got == []
    requires n <= s.consumer.taken
    ensures var steps := seq(n, i => CCopy);
      && IsRun(s, steps)
      && Run(s, steps) == s.(consumer := s.consumer.(got := Window(s.slots, s.read, n)))
  {
    if n == 0 {
      assert Window(s.slots, s.read, 0) == [];
    } else {
      StepsTakeUp(s, n - 1);
      var steps, last := seq(n - 1, i => CCopy), seq(n, i => CCopy);
      assert last == steps + [CCopy];
      RunAppend(s, steps, CCopy);
      assert Window(s.slots, s.read, n) == Window(s.slots, s.read, n - 1) + [s.slots[SlotAt(s.read, n - 1, |s.slots|)]];
      hide Run, IsRun, Window;
    }
  }

  lemma LayOneMore<T>(slots: seq<T>, offset: nat, items: seq<T>, k: nat)
    requires offset < |slots| && k < |items| <= |slots|
    ensures var at := if offset + k < |slots| then offset + k else offset + k - |slots|;
      LaidDown(slots, offset, items[..k])[at := items[k]] == LaidDown(slots, offset, items[..k + 1])
  {}

  lemma {:induction false} RunAppend<T>(s: Ring<T>, steps: seq<Step<T>>, step: Step<T>)
    requires |s.slots| > 0 && IsRun(s, steps) && Enabled(Run(s, steps), step)
    ensures IsRun(s, steps + [step]) && Run(s, steps + [step]) == Next(Run(s, steps), step)
    decreases |steps|
  {
    hide Enabled, Next;
    if steps != [] { NextKeepsSize(s, steps[0]); }
    if steps == [] {
      assert [step][1..] == [] && steps + [step] == [step];
      assert |Next(s, step).slots| == |s.slots| by { NextKeepsSize(s, step); }
      assert IsRun(Next(s, step), []) && Run(s, []) == s;
    } else {
      assert (steps + [step])[1..] == steps[1..] + [step];
      RunAppend(Next(s, steps[0]), steps[1..], step);
    }
  }

  lemma NextKeepsSize<T>(s: Ring<T>, step: Step<T>)
    requires |s.slots| > 0 && Enabled(s, step)
    ensures |Next(s, step).slots| == |s.slots|
  {
    hide Wrap64, Slot, Free, Available;
  }

  class SpscRing<T(0)> {
    const slots: array<T>
    var write: u64
    var read: u64
    var overflows: nat

    ghost predicate Valid()
      reads this
    { Capacity(slots.Length) && Size() <= slots.Length }

    /** Items in the ring: a subtraction of 64-bit indices. */
    function Size(): nat
      reads this
    { Wrap64(write - read) }

    ghost function Contents(): (items: seq<T>)
      requires Valid()
      reads this, slots
      ensures |items| == Size()
    { Window(slots[..], read, Size()) }

    constructor (capacity: nat)
      requires Capacity(capacity)
      ensures Valid() && slots.Length == capacity && fresh(slots)
      ensures Contents() == [] && overflows == 0 && write == read == 0
    {
      slots := new T[capacity];
      write, read, overflows := 0, 0, 0;
    }

    /** Copies `n` items of `source` from index `lo` into the slots from `offset`, without wrapping. */
    method CopyIn(offset: nat, source: seq<T>, lo: nat, n: nat)
      requires offset + n <= slots.Length && lo + n <= |source|
      modifies slots
      ensures forall k | 0 <= k < slots.Length ::
        slots[k] == if offset <= k < offset + n then source[lo + (k - offset)] else old(slots[k])
    {
      for i := 0 to n
        invariant forall k | 0 <= k < slots.Length ::
          slots[k] == if offset <= k < offset + i then source[lo + (k - offset)] else old(slots[k])
      {
        slots[offset + i] := source[lo + i];
      }
    }

    /** Copies all of `items` into the slots from the write index on: at most two straight copies. */
    method Store(items: seq<T>)
      requires 0 < slots.Length && |items| <= slots.Length
      modifies slots
      ensures slots[..] == LaidDown(old(slots[..]), Masked(write, slots.Length), items)
    {
      hide Masked;
      var offset := Masked(write, slots.Length);
      var first := Min(|items|, slots.Length - offset);
      CopyIn(offset, items, 0, first);
      if |items| > first {
        CopyIn(0, items, first, |items| - first);
      }
      LaidInTwo(old(slots[..]), slots[..], offset, items, first);
    }

    method PushBulk(source: seq<T>) returns (accepted: nat)
      requires Valid()
      modifies this`write, this`overflows, slots
      ensures Valid() && accepted == Min(|source|, slots.Length - |old(Contents())|)
      ensures Contents() == old(Contents()) + source[..accepted]
      ensures overflows == old(overflows) + if accepted < |source| then 1 else 0
    {
      hide Wrap64, Capacity, SlotAt, Masked, LaidDown;
      Bounded(slots.Length);
      if source == [] { return 0; }
      var free := slots.Length - Wrap64(write - read);
      if free == 0 {
        overflows := overflows + 1;
        return 0;
      }
      accepted := Min(|source|, free);
      ghost var before, n := slots[..], Size();
      IndexAfter(read, write);
      WindowAppend(before, read, n, source[..accepted]);
      Store(source[..accepted]);
      if accepted < |source| { overflows := overflows + 1; }
      IndexMoved(read, write, accepted);
      write := Wrap64(write + accepted);
    }

    method Push(value: T) returns (ok: bool)
      requires Valid()
      modifies this`write, this`overflows, slots
      ensures Valid() && ok == (|old(Contents())| < slots.Length)
      ensures Contents() == old(Contents()) + if ok then [value] else []
      ensures overflows == old(overflows) + if ok then 0 else 1
    {
      hide Wrap64, Capacity, SlotAt, Masked;
      Bounded(slots.Length);
      if Wrap64(write - read) == slots.Length {
        overflows := overflows + 1;
        return false;
      }
      ghost var before, n := slots[..], Size();
      IndexAfter(read, write);
      slots[Masked(write, slots.Length)] := value;
      assert slots[..] == LaidDown(before, Masked(write, slots.Length), [value]);
      WindowAppend(before, read, n, [value]);
      IndexMoved(read, write, 1);
      write := Wrap64(write + 1);
      return true;
    }

    /** Copies the `n` slots from `offset`, without wrapping, to `destination` from index `lo`. */
    method CopyOut(offset: nat, destination: array<T>, lo: nat, n: nat)
      requires offset + n <= slots.Length && lo + n <= destination.Length && destination != slots
      modifies destination
      ensures forall k | 0 <= k < destination.Length ::
        destination[k] == if lo <= k < lo + n then slots[offset + (k - lo)] else old(destination[k])
    {
      for i := 0 to n
        invariant forall k | 0 <= k < destination.Length ::
          destination[k] == if lo <= k < lo + i then slots[offset + (k - lo)] else old(destination[k])
      {
        destination[lo + i] := slots[offset + i];
      }
    }

    /** Copies `taken` items from the read index on into `destination`: at most two straight copies. */
    method Load(destination: array<T>, taken: nat)
      requires 0 < slots.Length && taken <= slots.Length && taken <= destination.Length && destination != slots
      modifies destination
      ensures destination[..] == Window(slots[..], read, taken) + old(destination[taken..])
    {
      hide Masked, SlotAt;
      var offset := Masked(read, slots.Length);
      var first := Min(taken, slots.Length - offset);
      CopyOut(offset, destination, 0, first);
      if taken > first {
        CopyOut(0, destination, first, taken - first);
      }
      ghost var window := Window(slots[..], read, taken);
      forall i | 0 <= i < taken ensures destination[i] == window[i] { SlotAfter(read, i, slots.Length); }
    }

    method PopBulk(destination: array<T>, count: nat) returns (taken: nat)
      requires Valid() && count <= destination.Length && destination != slots
      modifies this`read, destination
      ensures Valid() && taken == Min(count, |old(Contents())|)
      ensures destination[..] == old(Contents())[..taken] + old(destination[taken..])
      ensures Contents() == old(Contents())[taken..]
    {
      hide Wrap64, Capacity, SlotAt, Masked;
      Bounded(slots.Length);
      if count == 0 { return 0; }
      var available := Wrap64(write - read);
      if available == 0 { return 0; }
      taken := Min(count, available);
      Load(destination, taken);
      WindowTail(slots[..], read, Size(), taken);
      IndexTaken(read, write, taken);
      read := Wrap64(read + taken);
    }

    method Pop() returns (item: Option<T>)
      requires Valid()
      modifies this`read
      ensures Valid()
      ensures old(Contents()) == [] ==> item == None && Contents() == []
      ensures old(Contents()) != [] ==> item == Some(old(Contents())[0]) && Contents() == old(Contents())[1..]
    {
      hide Wrap64, Capacity, SlotAt, Masked;
      Bounded(slots.Length);
      EmptyWhenEqual(read, write);
      if read == write { return None; }
      WindowTail(slots[..], read, Size(), 1);
      IndexTaken(read, write, 1);
      SlotAfter(read, 0, slots.Length);
      item := Some(slots[Masked(read, slots.Length)]);
      read := Wrap64(read + 1);
    }

    method Discard(count: nat) returns (dropped: nat)
      requires Valid()
      modifies this`read
      ensures Valid() && dropped == Min(count, |old(Contents())|) && Contents() == old(Contents())[dropped..]
    {
      hide Wrap64, Capacity;
      dropped := Min(count, Wrap64(write - read));
      if dropped != 0 {
        Bounded(slots.Length);
        WindowTail(slots[..], read, Size(), dropped);
        IndexTaken(read, write, dropped);
        read := Wrap64(read + dropped);
      }
    }

    method Reset()
      requires Valid()
      modifies this
      ensures Valid() && Contents() == [] && overflows == 0
    {
      write, read, overflows := 0, 0, 0;
    }
  }

  /** Two straight copies, the second from slot zero, are one copy going round. */
  lemma LaidInTwo<T>(before: seq<T>, after: seq<T>, offset: nat, items: seq<T>, first: nat)
    requires |before| == |after| && offset < |before| && |items| <= |before|
    requires first == Min(|items|, |before| - offset)
    requires forall k | 0 <= k < |items| - first :: after[k] == items[first + k]
    requires forall k | offset <= k < offset + first :: after[k] == items[k - offset]
    requires forall k | 0 <= k < |before| && k >= |items| - first && !(offset <= k < offset + first) ::
               after[k] == before[k]
    ensures after == LaidDown(before, offset, items)
  {}

  lemma IndexAfter(read: u64, write: u64)
    ensures Wrap64(read + Wrap64(write - read)) == write
  {}

  lemma IndexMoved(read: u64, write: u64, n: nat)
    requires Wrap64(write - read) + n < 0x1_0000_0000_0000_0000
    ensures Wrap64(Wrap64(write + n) - read) == Wrap64(write - read) + n
  {}

  lemma IndexTaken(read: u64, write: u64, n: nat)
    requires n <= Wrap64(write - read)
    ensures Wrap64(write - Wrap64(read + n)) == Wrap64(write - read) - n
  {}

  lemma EmptyWhenEqual(read: u64, write: u64)
    ensures read == write <==> Wrap64(write - read) == 0
  {}
}
