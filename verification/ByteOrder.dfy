/** Big- and little-endian loads and stores over byte sequences and buffers. */
module ByteOrder {
  import opened Words

  /** Two and four base-256 digits, most significant first. */
  function Join2(a: int, b: int): int { a * 0x100 + b }

  function Join4(a: int, b: int, c: int, e: int): int { a * 0x100_0000 + b * 0x1_0000 + c * 0x100 + e }

  function Join64(high: u32, low: u32): u64 {
    var h: int := high;
    h * 0x1_0000_0000 + low
  }

  function LoadBe16(d: Bytes, at: nat): u16
    requires at + 2 <= |d|
  { Join2(d[at], d[at + 1]) }

  function LoadBe32(d: Bytes, at: nat): u32
    requires at + 4 <= |d|
  { Join4(d[at], d[at + 1], d[at + 2], d[at + 3]) }

  function LoadBe64(d: Bytes, at: nat): u64
    requires at + 8 <= |d|
  { Join64(LoadBe32(d, at), LoadBe32(d, at + 4)) }

  function LoadLe16(d: Bytes, at: nat): u16
    requires at + 2 <= |d|
  { Join2(d[at + 1], d[at]) }

  function LoadLe32(d: Bytes, at: nat): u32
    requires at + 4 <= |d|
  { Join4(d[at + 3], d[at + 2], d[at + 1], d[at]) }

  function Be16(v: u16): (b: Bytes)
    ensures |b| == 2
  { [v / 0x100, v % 0x100] }

  function Be32(v: u32): (b: Bytes)
    ensures |b| == 4
  { [v / 0x100_0000, v / 0x1_0000 % 0x100, v / 0x100 % 0x100, v % 0x100] }

  function Be64(v: u64): (b: Bytes)
    ensures |b| == 8
  { Be32(v / 0x1_0000_0000) + Be32(v % 0x1_0000_0000) }

  function Le16(v: u16): (b: Bytes)
    ensures |b| == 2
  { [v % 0x100, v / 0x100] }

  function Le32(v: u32): (b: Bytes)
    ensures |b| == 4
  { [v % 0x100, v / 0x100 % 0x100, v / 0x1_0000 % 0x100, v / 0x100_0000] }

  method StoreBe16(out: array<u8>, at: nat, v: u16)
    requires at + 2 <= out.Length
    modifies out
    ensures out[..at + 2] == old(out[..at]) + Be16(v)
    ensures forall i | at + 2 <= i < out.Length :: out[i] == old(out[i])
  {
    out[at] := v / 0x100 % 0x100;
    out[at + 1] := v % 0x100;
  }

  method StoreBe32(out: array<u8>, at: nat, v: u32)
    requires at + 4 <= out.Length
    modifies out
    ensures out[..at + 4] == old(out[..at]) + Be32(v)
    ensures forall i | at + 4 <= i < out.Length :: out[i] == old(out[i])
  {
    out[at] := v / 0x100_0000 % 0x100;
    out[at + 1] := v / 0x1_0000 % 0x100;
    out[at + 2] := v / 0x100 % 0x100;
    out[at + 3] := v % 0x100;
  }

  method StoreBe64(out: array<u8>, at: nat, v: u64)
    requires at + 8 <= out.Length
    modifies out
    ensures out[..at + 8] == old(out[..at]) + Be64(v)
    ensures forall i | at + 8 <= i < out.Length :: out[i] == old(out[i])
  {
    hide Be32;
    StoreBe32(out, at, v / 0x1_0000_0000);
    StoreBe32(out, at + 4, v % 0x1_0000_0000);
  }

  method StoreLe16(out: array<u8>, at: nat, v: u16)
    requires at + 2 <= out.Length
    modifies out
    ensures out[..at + 2] == old(out[..at]) + Le16(v)
    ensures forall i | at + 2 <= i < out.Length :: out[i] == old(out[i])
  {
    out[at] := v % 0x100;
    out[at + 1] := v / 0x100 % 0x100;
  }

  method StoreLe32(out: array<u8>, at: nat, v: u32)
    requires at + 4 <= out.Length
    modifies out
    ensures out[..at + 4] == old(out[..at]) + Le32(v)
    ensures forall i | at + 4 <= i < out.Length :: out[i] == old(out[i])
  {
    out[at] := v % 0x100;
    out[at + 1] := v / 0x100 % 0x100;
    out[at + 2] := v / 0x1_0000 % 0x100;
    out[at + 3] := v / 0x100_0000 % 0x100;
  }

  /** A value stored and loaded back is unchanged, at any place in a buffer, in either byte order. */
  lemma LoadStored16(before: Bytes, v: u16, after: Bytes)
    ensures LoadBe16(before + Be16(v) + after, |before|) == v
    ensures LoadLe16(before + Le16(v) + after, |before|) == v
  {}

  lemma Digits32(v: u32)
    ensures v == v / 0x100_0000 * 0x100_0000 + v / 0x1_0000 % 0x100 * 0x1_0000 + v / 0x100 % 0x100 * 0x100 + v % 0x100
  {
    var a := v / 0x100;
    assert v == a * 0x100 + v % 0x100;
    var b := a / 0x100;
    assert a == b * 0x100 + a % 0x100 && b == v / 0x1_0000;
    assert b == b / 0x100 * 0x100 + b % 0x100 && b / 0x100 == v / 0x100_0000;
  }

  lemma LoadStored32(before: Bytes, v: u32, after: Bytes)
    ensures LoadBe32(before + Be32(v) + after, |before|) == v
    ensures LoadLe32(before + Le32(v) + after, |before|) == v
  {
    Digits32(v);
  }

  /** A load sees only its own slice. */
  lemma LoadAt16(d: Bytes, at: nat, v: u16)
    requires at + 2 <= |d|
    ensures d[at..at + 2] == Be16(v) ==> LoadBe16(d, at) == v
    ensures d[at..at + 2] == Le16(v) ==> LoadLe16(d, at) == v
  {
    var word := d[at..at + 2];
    assert d[at] == word[0] && d[at + 1] == word[1];
  }

  lemma LoadAt32(d: Bytes, at: nat, v: u32)
    requires at + 4 <= |d|
    ensures d[at..at + 4] == Be32(v) ==> LoadBe32(d, at) == v
    ensures d[at..at + 4] == Le32(v) ==> LoadLe32(d, at) == v
  {
    var word := d[at..at + 4];
    assert d[at] == word[0] && d[at + 1] == word[1] && d[at + 2] == word[2] && d[at + 3] == word[3];
    Digits32(v);
  }

  lemma LoadAt64(d: Bytes, at: nat, v: u64)
    requires at + 8 <= |d| && d[at..at + 8] == Be64(v)
    ensures LoadBe64(d, at) == v
  {
    var high, low := v / 0x1_0000_0000, v % 0x1_0000_0000;
    hide Be32, LoadBe32;
    var word := d[at..at + 8];
    assert word[..4] == Be32(high) && word[4..] == Be32(low);
    assert d[at..at + 4] == word[..4] && d[at + 4..at + 8] == word[4..];
    LoadAt32(d, at, high);
    LoadAt32(d, at + 4, low);
  }

  lemma LoadStored64(before: Bytes, v: u64, after: Bytes)
    ensures LoadBe64(before + Be64(v) + after, |before|) == v
  {
    var high, low := v / 0x1_0000_0000, v % 0x1_0000_0000;
    hide Be32, LoadBe32;
    var d := before + Be64(v) + after;
    assert d == before + Be32(high) + (Be32(low) + after) == (before + Be32(high)) + Be32(low) + after;
    LoadStored32(before, high, Be32(low) + after);
    LoadStored32(before + Be32(high), low, after);
  }

  lemma FourDigits(a: u8, b: u8, c: u8, e: u8)
    ensures var v := Join4(a, b, c, e);
      v / 0x100_0000 == a && v / 0x1_0000 % 0x100 == b && v / 0x100 % 0x100 == c && v % 0x100 == e
  {
    var v, abc, ab := Join4(a, b, c, e), Join2(Join2(a, b), c), Join2(a, b);
    assert v == abc * 0x100 + e && abc == ab * 0x100 + c;
    assert v / 0x100 == abc && v % 0x100 == e;
    assert abc / 0x100 == ab && abc % 0x100 == c;
    assert ab / 0x100 == a && ab % 0x100 == b;
    hide Join2, Join4;
    assert v / 0x1_0000 == v / 0x100 / 0x100;
    assert v / 0x100_0000 == v / 0x100 / 0x100 / 0x100;
  }

  /** And bytes loaded and stored back are unchanged. */
  lemma StoreLoaded16(d: Bytes, at: nat)
    requires at + 2 <= |d|
    ensures Be16(LoadBe16(d, at)) == d[at..at + 2] && Le16(LoadLe16(d, at)) == d[at..at + 2]
  {}

  lemma StoreLoaded32(d: Bytes, at: nat)
    requires at + 4 <= |d|
    ensures Be32(LoadBe32(d, at)) == d[at..at + 4] && Le32(LoadLe32(d, at)) == d[at..at + 4]
  {
    FourDigits(d[at], d[at + 1], d[at + 2], d[at + 3]);
    FourDigits(d[at + 3], d[at + 2], d[at + 1], d[at]);
    hide Join4;
  }

  lemma StoreLoaded64(d: Bytes, at: nat)
    requires at + 8 <= |d|
    ensures Be64(LoadBe64(d, at)) == d[at..at + 8]
  {
    hide Be32, LoadBe32, Join64;
    assert d[at..at + 8] == d[at..at + 4] + d[at + 4..at + 8];
    StoreLoaded32(d, at);
    StoreLoaded32(d, at + 4);
    HighAndLow(LoadBe32(d, at), LoadBe32(d, at + 4));
  }

  lemma HighAndLow(high: u32, low: u32)
    ensures Join64(high, low) / 0x1_0000_0000 == high && Join64(high, low) % 0x1_0000_0000 == low
  {}

  // ---------------------------------------------------------------- what the bytes are worth

  /** The number a byte string stands for, its first byte the least significant. */
  function Value(b: Bytes): nat { if b == [] then 0 else b[0] + 0x100 * Value(b[1..]) }

  function Backwards(b: Bytes): (r: Bytes)
    ensures |r| == |b|
  { if b == [] then [] else Backwards(b[1..]) + [b[0]] }

  lemma ValueOf2(a: u8, b: u8)
    ensures Value([a, b]) == a + 0x100 * b
    ensures Backwards([a, b]) == [b, a]
  {
    assert [a, b][1..] == [b] && [b][1..] == [];
    assert Value([b]) == b && Backwards([b]) == [b];
  }

  lemma ValueOf4(a: u8, b: u8, c: u8, e: u8)
    ensures Value([a, b, c, e]) == a + 0x100 * b + 0x1_0000 * c + 0x100_0000 * e
    ensures Backwards([a, b, c, e]) == [e, c, b, a]
  {
    assert [a, b, c, e][1..] == [b, c, e] && [b, c, e][1..] == [c, e];
    ValueOf2(c, e);
    assert Value([b, c, e]) == b + 0x100 * Value([c, e]) && Backwards([b, c, e]) == [e, c] + [b];
  }

  /** The two orders, told apart by what a load is worth: little-endian takes the bytes as they stand,
      big-endian takes them backwards. */
  lemma Load16IsValue(d: Bytes, at: nat)
    requires at + 2 <= |d|
    ensures LoadLe16(d, at) == Value(d[at..at + 2]) && LoadBe16(d, at) == Value(Backwards(d[at..at + 2]))
  {
    assert d[at..at + 2] == [d[at], d[at + 1]];
    ValueOf2(d[at], d[at + 1]);
    ValueOf2(d[at + 1], d[at]);
    hide Value, Backwards;
  }

  lemma Load32IsValue(d: Bytes, at: nat)
    requires at + 4 <= |d|
    ensures LoadLe32(d, at) == Value(d[at..at + 4]) && LoadBe32(d, at) == Value(Backwards(d[at..at + 4]))
  {
    assert d[at..at + 4] == [d[at], d[at + 1], d[at + 2], d[at + 3]];
    ValueOf4(d[at], d[at + 1], d[at + 2], d[at + 3]);
    ValueOf4(d[at + 3], d[at + 2], d[at + 1], d[at]);
    hide Value, Backwards;
  }

  lemma {:induction false} ValueJoins(a: Bytes, b: Bytes)
    requires |a| == 4
    ensures Value(a + b) == Value(a) + 0x1_0000_0000 * Value(b)
  {
    var s := a + b;
    assert s[1..][1..][1..][1..] == b && s[1..][1..] == s[2..] && s[2..][1..] == s[3..];
    assert Value(s[3..]) == s[3] + 0x100 * Value(b);
    assert Value(s[2..]) == s[2] + 0x100 * Value(s[3..]);
    assert Value(s[1..]) == s[1] + 0x100 * Value(s[2..]);
    assert a == [s[0], s[1], s[2], s[3]];
    ValueOf4(s[0], s[1], s[2], s[3]);
  }

  lemma {:induction false} BackwardsJoins(a: Bytes, b: Bytes)
    ensures Backwards(a + b) == Backwards(b) + Backwards(a)
  {
    if a == [] {
      assert a + b == b;
    } else {
      BackwardsJoins(a[1..], b);
      assert (a + b)[1..] == a[1..] + b;
    }
  }

  lemma Load64IsValue(d: Bytes, at: nat)
    requires at + 8 <= |d|
    ensures LoadBe64(d, at) == Value(Backwards(d[at..at + 8]))
  {
    hide Value, Backwards, LoadBe32;
    var high, low := d[at..at + 4], d[at + 4..at + 8];
    assert d[at..at + 8] == high + low;
    BackwardsJoins(high, low);
    ValueJoins(Backwards(low), Backwards(high));
    Load32IsValue(d, at);
    Load32IsValue(d, at + 4);
  }

  /** So what a store lays down is worth what was stored, in the order its name says. */
  lemma StoredIsValue(small: u16, middle: u32, large: u64)
    ensures Value(Le16(small)) == Value(Backwards(Be16(small))) == small
    ensures Value(Le32(middle)) == Value(Backwards(Be32(middle))) == middle
    ensures Value(Backwards(Be64(large))) == large
  {
    hide Value, Backwards, Le16, Be16, Le32, Be32, Be64, LoadLe16, LoadBe16, LoadLe32, LoadBe32, LoadBe64;
    WholeWord(Le16(small));
    WholeWord(Be16(small));
    WholeWord(Le32(middle));
    WholeWord(Be32(middle));
    WholeWord(Be64(large));
    LoadAt16(Le16(small), 0, small);
    LoadAt16(Be16(small), 0, small);
    LoadAt32(Le32(middle), 0, middle);
    LoadAt32(Be32(middle), 0, middle);
    LoadAt64(Be64(large), 0, large);
    Load16IsValue(Le16(small), 0);
    Load16IsValue(Be16(small), 0);
    Load32IsValue(Le32(middle), 0);
    Load32IsValue(Be32(middle), 0);
    Load64IsValue(Be64(large), 0);
  }

  lemma WholeWord(b: Bytes)
    ensures b[0..|b|] == b
  {}
}
