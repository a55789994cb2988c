/** Per-stream sequence accounting over a circular window of 1024 bits. */
module SeqTrackers {
  import opened Words
  import opened Serial
  import opened BitWords

  const WINDOW: int := 1024

  datatype Verdict = First | InOrder | Reordered | Duplicate | TooOld

  /** The tracker as a value; bit k stands for the one recent sequence congruent to k. */
  datatype Tracker = Tracker(
    started: bool, bits: seq<bool>, base: u32, highest: u32,
    received: nat, duplicates: nat, reordered: nat, tooOld: nat)
  {
    function Expected(): nat {
      if !started then 0
      else
        var span := Distance(base, highest);
        if span < 0 then 0 else span + 1
    }

    function Lost(): nat { if Expected() > received then Expected() - received else 0 }
  }

  function NoBits(): seq<bool> { seq(WINDOW, _ => false) }

  /** How far position `k` of the window lies past `from`, going round. */
  function Past(k: int, from: int): int { (k - from) % WINDOW }

  /** Clears the positions strictly between `from` and `to`, or all of them when the jump spans the
      window. */
  function ClearedBits(bits: seq<bool>, from: u32, span: int): seq<bool>
    requires |bits| == WINDOW
  {
    if span <= 0 then bits
    else if span >= WINDOW then NoBits()
    else seq(WINDOW, k requires 0 <= k < WINDOW => bits[k] && !(0 < Past(k, from) < span))
  }

  function ObserveT(t: Tracker, sequence: u32): (r: (Tracker, Verdict))
    requires |t.bits| == WINDOW
    ensures |r.0.bits| == WINDOW
  {
    var k := sequence % WINDOW;
    if !t.started then
      (t.(started := true, bits := NoBits()[k := true], base := sequence, highest := sequence, received := 1), First)
    else
      var ahead := Distance(t.highest, sequence);
      if ahead > 0 then
        (t.(bits := ClearedBits(t.bits, t.highest, ahead)[k := true], highest := sequence, received := t.received + 1),
         InOrder)
      else if ahead == 0 then (t.(duplicates := t.duplicates + 1), Duplicate)
      else if -ahead >= WINDOW then (t.(tooOld := t.tooOld + 1), TooOld)
      else if t.bits[k] then (t.(duplicates := t.duplicates + 1), Duplicate)
      else
        (t.(bits := t.bits[k := true], received := t.received + 1, reordered := t.reordered + 1,
            base := if Precedes(sequence, t.base) then sequence else t.base),
         Reordered)
  }

  // ---------------------------------------------------------------- the bitmap as code

  /** The 1024 bits held in sixteen words. */
  ghost function BitsOf(words: seq<bv64>): (bits: seq<bool>)
    requires |words| == 16
    ensures |bits| == WINDOW
  {
    seq(WINDOW, k requires 0 <= k < WINDOW => Bit(words[k / 64], Amount(k % 64)))
  }

  lemma SetWord(words: seq<bv64>, k: nat)
    requires |words| == 16 && k < WINDOW
    ensures BitsOf(words[k / 64 := SetBit(words[k / 64], Amount(k % 64))]) == BitsOf(words)[k := true]
  {
    hide Bit, SetBit, Amount;
    var after := words[k / 64 := SetBit(words[k / 64], Amount(k % 64))];
    forall j | 0 <= j < WINDOW
      ensures BitsOf(after)[j] == BitsOf(words)[k := true][j]
    {
      AmountInjective(k % 64, j % 64);
      BitAfterSet(words[k / 64], Amount(k % 64), Amount(j % 64));
    }
  }

  lemma ClearWord(words: seq<bv64>, k: nat)
    requires |words| == 16 && k < WINDOW
    ensures BitsOf(words[k / 64 := ClearBit(words[k / 64], Amount(k % 64))]) == BitsOf(words)[k := false]
  {
    hide Bit, ClearBit, Amount;
    var after := words[k / 64 := ClearBit(words[k / 64], Amount(k % 64))];
    forall j | 0 <= j < WINDOW
      ensures BitsOf(after)[j] == BitsOf(words)[k := false][j]
    {
      AmountInjective(k % 64, j % 64);
      BitAfterClear(words[k / 64], Amount(k % 64), Amount(j % 64));
    }
  }

  lemma ZeroWords(words: seq<bv64>)
    requires |words| == 16 && forall i | 0 <= i < 16 :: words[i] == 0
    ensures BitsOf(words) == NoBits()
  {
    hide Bit, Amount;
    forall j | 0 <= j < WINDOW ensures !BitsOf(words)[j] { BitOfZero(Amount(j % 64)); }
  }

  class SeqTracker {
    const words: array<bv64>
    var base: u32
    var highest: u32
    var received: nat
    var duplicates: nat
    var reordered: nat
    var tooOld: nat
    var started: bool

    ghost predicate Valid() { words.Length == 16 }

    ghost function Model(): Tracker
      requires Valid()
      reads this, words
    { Tracker(started, BitsOf(words[..]), base, highest, received, duplicates, reordered, tooOld) }

    constructor ()
      ensures Valid() && fresh(words)
      ensures Model() == Tracker(false, NoBits(), 0, 0, 0, 0, 0, 0)
    {
      words := new bv64[16](_ => 0);
      base, highest, received, duplicates, reordered, tooOld, started := 0, 0, 0, 0, 0, 0, false;
      new;
      ZeroWords(words[..]);
    }

    method Fill()
      requires Valid()
      modifies words
      ensures BitsOf(words[..]) == NoBits()
    {
      for i := 0 to words.Length
        invariant forall j | 0 <= j < i :: words[j] == 0
      {
        words[i] := 0;
      }
      ZeroWords(words[..]);
    }

    method Reset()
      requires Valid()
      modifies this, words
      ensures Valid() && Model() == Tracker(false, NoBits(), 0, 0, 0, 0, 0, 0)
    {
      Fill();
      base, highest, received, duplicates, reordered, tooOld, started := 0, 0, 0, 0, 0, 0, false;
    }

    predicate Test(sequence: u32)
      requires Valid()
      reads words
      ensures Test(sequence) == BitsOf(words[..])[sequence % WINDOW]
    {
      var k := sequence % WINDOW;
      Bit(words[k / 64], Amount(k % 64))
    }

    method Set(sequence: u32)
      requires Valid()
      modifies words
      ensures BitsOf(words[..]) == old(BitsOf(words[..]))[sequence % WINDOW := true]
    {
      hide Bit, SetBit, Amount;
      ghost var before := words[..];
      var k := sequence % WINDOW;
      words[k / 64] := SetBit(words[k / 64], Amount(k % 64));
      assert words[..] == before[k / 64 := SetBit(before[k / 64], Amount(k % 64))];
      SetWord(before, k);
    }

    method Clear(sequence: u32)
      requires Valid()
      modifies words
      ensures BitsOf(words[..]) == old(BitsOf(words[..]))[sequence % WINDOW := false]
    {
      hide Bit, ClearBit, Amount;
      ghost var before := words[..];
      var k := sequence % WINDOW;
      words[k / 64] := ClearBit(words[k / 64], Amount(k % 64));
      assert words[..] == before[k / 64 := ClearBit(before[k / 64], Amount(k % 64))];
      ClearWord(before, k);
    }

    method ClearRangeExclusive(from: u32, to: u32)
      requires Valid()
      modifies words
      ensures BitsOf(words[..]) == ClearedBits(old(BitsOf(words[..])), from, Distance(from, to))
    {
      hide Bit, BitsOf, Distance, Wrap32;
      var span := Distance(from, to);
      if span <= 0 { return; }
      if span >= WINDOW {
        Fill();
        return;
      }
      ghost var bits := BitsOf(words[..]);
      var s: u32, i: int := Wrap32(from + 1), 1;
      OneStepCleared(bits, from);
      AtTheEnd(from, to, 1);
      while s != to
        invariant 1 <= i <= span && s == Wrap32(from + i) && (s == to <==> i == span)
        invariant BitsOf(words[..]) == ClearedBits(bits, from, i)
        decreases span - i
      {
        Clear(s);
        ClearOneMore(bits, from, i);
        WrapShift(from + i, 1);
        AtTheEnd(from, to, i + 1);
        s, i := Wrap32(s + 1), i + 1;
      }
    }

    method Observe(sequence: u32) returns (verdict: Verdict)
      requires Valid()
      modifies this, words
      ensures Valid() && (Model(), verdict) == ObserveT(old(Model()), sequence)
    {
      hide Bit, BitsOf, Distance, Wrap32, ClearedBits;
      if !started {
        started, base, highest := true, sequence, sequence;
        Fill();
        Set(sequence);
        received := 1;
        return First;
      }
      var ahead := Distance(highest, sequence);
      if ahead > 0 {
        ClearRangeExclusive(highest, sequence);
        highest := sequence;
        Set(sequence);
        received := received + 1;
        return InOrder;
      }
      if ahead == 0 {
        duplicates := duplicates + 1;
        return Duplicate;
      }
      var age := -ahead;
      if age >= WINDOW {
        tooOld := tooOld + 1;
        return TooOld;
      }
      if Test(sequence) {
        duplicates := duplicates + 1;
        return Duplicate;
      }
      Set(sequence);
      received, reordered := received + 1, reordered + 1;
      if Precedes(sequence, base) { base := sequence; }
      return Reordered;
    }

    function Expected(): (n: nat)
      requires Valid()
      reads this, words
      ensures n == Model().Expected()
    {
      if !started then 0
      else
        var span := Distance(base, highest);
        if span < 0 then 0 else span + 1
    }

    function Lost(): (n: nat)
      requires Valid()
      reads this, words
      ensures n == Model().Lost()
    { if Expected() > received then Expected() - received else 0 }
  }

  lemma OneStepCleared(bits: seq<bool>, from: u32)
    requires |bits| == WINDOW
    ensures ClearedBits(bits, from, 1) == bits
  {}

  lemma AtTheEnd(from: u32, to: u32, i: int)
    requires 0 < i < 0x8000_0000
    ensures Wrap32(from + i) == to <==> i == Distance(from, to)
  {
    DistanceTo(from, i);
    hide Distance;
  }

  lemma PastOf(k: int, from: u32, i: int)
    requires 0 <= k < WINDOW && 0 <= i < WINDOW
    ensures Past(k, from) == i <==> k == Wrap32(from + i) % WINDOW
  {}

  lemma ClearOneMore(bits: seq<bool>, from: u32, i: int)
    requires |bits| == WINDOW && 0 < i < WINDOW - 1
    ensures ClearedBits(bits, from, i)[Wrap32(from + i) % WINDOW := false] == ClearedBits(bits, from, i + 1)
  {
    var at := Wrap32(from + i) % WINDOW;
    var cleared, next := ClearedBits(bits, from, i)[at := false], ClearedBits(bits, from, i + 1);
    hide Past, Wrap32;
    forall k | 0 <= k < WINDOW
      ensures cleared[k] == next[k]
    {
      PastOf(k, from, i);
    }
  }
}
