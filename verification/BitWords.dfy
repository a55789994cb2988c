/** Single bits of 64-bit words, and the shift amounts that address them. */
module BitWords {
  function Digit(on: bool, value: bv64): bv64 { if on then value else 0 }

  function SixDigits(a: bool, b: bool, c: bool, d: bool, e: bool, f: bool): (w: bv64)
    ensures w < 64
  { Digit(a, 1) | Digit(b, 2) | Digit(c, 4) | Digit(d, 8) | Digit(e, 16) | Digit(f, 32) }

  /** The binary digit of `k` worth `value`. */
  predicate Has(k: nat, value: nat)
    requires value > 0
  { k / value % 2 == 1 }

  /** A bit number as a shift amount, digit by digit. */
  function Amount(k: nat): (w: bv64)
    requires k < 64
    ensures w < 64
  { SixDigits(Has(k, 1), Has(k, 2), Has(k, 4), Has(k, 8), Has(k, 16), Has(k, 32)) }

  predicate Bit(w: bv64, b: bv64)
    requires b < 64
  { (w >> b) & 1 != 0 }

  function SetBit(w: bv64, b: bv64): bv64
    requires b < 64
  { w | ((1 as bv64) << b) }

  function ClearBit(w: bv64, b: bv64): bv64
    requires b < 64
  { w & !((1 as bv64) << b) }

  lemma BitAfterSet(w: bv64, b: bv64, c: bv64)
    requires b < 64 && c < 64
    ensures Bit(SetBit(w, b), c) == (b == c || Bit(w, c))
  {}

  lemma BitAfterClear(w: bv64, b: bv64, c: bv64)
    requires b < 64 && c < 64
    ensures Bit(ClearBit(w, b), c) == (b != c && Bit(w, c))
  {}

  lemma BitOfZero(c: bv64)
    requires c < 64
    ensures !Bit(0, c)
  {}

  lemma DigitsAreBits(a: bool, b: bool, c: bool, d: bool, e: bool, f: bool)
    ensures var w := SixDigits(a, b, c, d, e, f);
      && (w & 1 != 0 <==> a) && (w & 2 != 0 <==> b) && (w & 4 != 0 <==> c)
      && (w & 8 != 0 <==> d) && (w & 16 != 0 <==> e) && (w & 32 != 0 <==> f)
  {}

  lemma SixDigitsInjective(
    a: bool, b: bool, c: bool, d: bool, e: bool, f: bool,
    a': bool, b': bool, c': bool, d': bool, e': bool, f': bool)
    requires SixDigits(a, b, c, d, e, f) == SixDigits(a', b', c', d', e', f')
    ensures (a, b, c, d, e, f) == (a', b', c', d', e', f')
  {
    DigitsAreBits(a, b, c, d, e, f);
    DigitsAreBits(a', b', c', d', e', f');
    hide SixDigits;
  }

  function Worth(on: bool, value: nat): nat { if on then value else 0 }

  function Quotient(s: nat, d: nat): nat
    requires d > 0
  { s / d }

  lemma Halves(s: nat, d: nat)
    requires d in {1, 2, 4, 8, 16, 32}
    ensures Quotient(s, d) == 2 * Quotient(s, 2 * d) + Worth(Has(s, d), 1)
  {
    if d == 1 {
    } else if d == 2 {
    } else if d == 4 {
    } else if d == 8 {
    } else if d == 16 {
    } else {
    }
  }

  lemma DigitsDetermine(s: nat)
    requires s < 64
    ensures s == Worth(Has(s, 1), 1) + Worth(Has(s, 2), 2) + Worth(Has(s, 4), 4) + Worth(Has(s, 8), 8)
                 + Worth(Has(s, 16), 16) + Worth(Has(s, 32), 32)
  {
    assert Quotient(s, 1) == s && Quotient(s, 64) == 0;
    hide Has, Quotient;
    Halves(s, 1);
    Halves(s, 2);
    Halves(s, 4);
    Halves(s, 8);
    Halves(s, 16);
    Halves(s, 32);
  }

  /** Different bit numbers are different shift amounts. */
  lemma AmountInjective(s: nat, t: nat)
    requires s < 64 && t < 64
    ensures Amount(s) == Amount(t) <==> s == t
  {
    hide SixDigits, Has;
    if Amount(s) == Amount(t) {
      SixDigitsInjective(
        Has(s, 1), Has(s, 2), Has(s, 4), Has(s, 8), Has(s, 16), Has(s, 32),
        Has(t, 1), Has(t, 2), Has(t, 4), Has(t, 8), Has(t, 16), Has(t, 32));
      DigitsDetermine(s);
      DigitsDetermine(t);
    }
  }
}
