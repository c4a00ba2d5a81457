/** The machine words of the Y86-64 tools: signed 64-bit integers with two's-complement wrap-around. */
module Words {
  import Arith

  const TWO63: int := 0x8000_0000_0000_0000
  const TWO64: int := 0x1_0000_0000_0000_0000

  type Word = x: int | -TWO63 <= x < TWO63
  type Byte = x: int | 0 <= x < 256
  type Nibble = x: int | 0 <= x < 16

  datatype Option<+T> = None | Some(value: T)

  /** The word congruent to x modulo 2^64. */
  function Wrap(x: int): (w: Word)
    ensures (w - x) % TWO64 == 0
    ensures -TWO63 <= x < TWO63 ==> w == x
  {
    (x + TWO63) % TWO64 - TWO63
  }

  /** A word's bits read as an unsigned integer. */
  function Unsigned(w: Word): nat {
    w % TWO64
  }

  // ---- bits

  function Pow2(k: nat): (p: nat)
    ensures p > 0
  {
    if k == 0 then 1 else 2 * Pow2(k - 1)
  }

  /** Bit k of a word. */
  function Bit(w: Word, k: nat): int { Unsigned(w) / Pow2(k) % 2 }

  /** The low n bits of the bitwise conjunction. */
  function AndBits(a: nat, b: nat, n: nat): (r: nat)
    ensures r < Pow2(n)
  {
    if n == 0 then 0 else (a % 2) * (b % 2) + 2 * AndBits(a / 2, b / 2, n - 1)
  }

  /** The low n bits of the bitwise exclusive disjunction. */
  function XorBits(a: nat, b: nat, n: nat): (r: nat)
    ensures r < Pow2(n)
  {
    if n == 0 then 0 else (a + b) % 2 + 2 * XorBits(a / 2, b / 2, n - 1)
  }

  function BitAnd(a: Word, b: Word): Word { Wrap(AndBits(Unsigned(a), Unsigned(b), 64)) }

  function BitXor(a: Word, b: Word): Word { Wrap(XorBits(Unsigned(a), Unsigned(b), 64)) }

  lemma Halved(x: nat, y: nat, bit: nat, k: nat)
    requires 0 < k && x == bit + 2 * y && bit < 2
    ensures x / Pow2(k) == y / Pow2(k - 1)
  {
    var p := Pow2(k - 1);
    var q, r := y / p, y % p;
    assert x == (2 * p) * q + (2 * r + bit);
    Arith.Quotient(x, 2 * p, q, 2 * r + bit);
  }

  lemma DividedByOne(x: int)
    ensures x / Pow2(0) == x
  {
  }

  lemma LowAnd(a: nat, b: nat, n: nat)
    requires 0 < n
    ensures AndBits(a, b, n) == (a % 2) * (b % 2) + 2 * AndBits(a / 2, b / 2, n - 1) && 0 <= (a % 2) * (b % 2) < 2
  {
    if a % 2 == 1 {
      assert (a % 2) * (b % 2) == b % 2;
    }
  }

  lemma LowXor(a: nat, b: nat, n: nat)
    requires 0 < n
    ensures XorBits(a, b, n) == (a + b) % 2 + 2 * XorBits(a / 2, b / 2, n - 1)
    ensures (a + b) % 2 == if a % 2 != b % 2 then 1 else 0
  {
  }

  lemma {:induction false} AndBitsAt(a: nat, b: nat, n: nat, k: nat)
    requires k < n
    ensures AndBits(a, b, n) / Pow2(k) % 2 == (a / Pow2(k) % 2) * (b / Pow2(k) % 2)
  {
    hide Pow2, AndBits;
    LowAnd(a, b, n);
    if k == 0 {
      DividedByOne(a);
      DividedByOne(b);
      DividedByOne(AndBits(a, b, n));
    } else {
      AndBitsAt(a / 2, b / 2, n - 1, k - 1);
      Halved(a, a / 2, a % 2, k);
      Halved(b, b / 2, b % 2, k);
      Halved(AndBits(a, b, n), AndBits(a / 2, b / 2, n - 1), (a % 2) * (b % 2), k);
    }
  }

  lemma {:induction false} XorBitsAt(a: nat, b: nat, n: nat, k: nat)
    requires k < n
    ensures XorBits(a, b, n) / Pow2(k) % 2 == if a / Pow2(k) % 2 != b / Pow2(k) % 2 then 1 else 0
  {
    hide Pow2, XorBits;
    LowXor(a, b, n);
    if k == 0 {
      DividedByOne(a);
      DividedByOne(b);
      DividedByOne(XorBits(a, b, n));
    } else {
      XorBitsAt(a / 2, b / 2, n - 1, k - 1);
      Halved(a, a / 2, a % 2, k);
      Halved(b, b / 2, b % 2, k);
      Halved(XorBits(a, b, n), XorBits(a / 2, b / 2, n - 1), (a + b) % 2, k);
    }
  }

  lemma SixtyFourBits()
    ensures Pow2(64) == TWO64
  {
    assert Pow2(8) == 0x100;
    assert Pow2(16) == 0x1_0000;
    assert Pow2(24) == 0x100_0000;
    assert Pow2(32) == 0x1_0000_0000;
    assert Pow2(40) == 0x100_0000_0000;
    assert Pow2(48) == 0x1_0000_0000_0000;
    assert Pow2(56) == 0x100_0000_0000_0000;
  }

  lemma UnsignedWrap(x: nat)
    requires x < TWO64
    ensures Unsigned(Wrap(x)) == x
  {
  }

  /** Every bit of the conjunction is the product of the bits. */
  lemma AndBit(a: Word, b: Word, k: nat)
    requires k < 64
    ensures Bit(BitAnd(a, b), k) == Bit(a, k) * Bit(b, k)
  {
    hide Pow2, AndBits, Wrap, Unsigned;
    SixtyFourBits();
    AndBitsAt(Unsigned(a), Unsigned(b), 64, k);
    UnsignedWrap(AndBits(Unsigned(a), Unsigned(b), 64));
  }

  /** Every bit of the exclusive disjunction tells whether the bits differ. */
  lemma XorBit(a: Word, b: Word, k: nat)
    requires k < 64
    ensures Bit(BitXor(a, b), k) == if Bit(a, k) != Bit(b, k) then 1 else 0
  {
    hide Pow2, XorBits, Wrap, Unsigned;
    SixtyFourBits();
    XorBitsAt(Unsigned(a), Unsigned(b), 64, k);
    UnsignedWrap(XorBits(Unsigned(a), Unsigned(b), 64));
  }

  /** HI4 and LO4. */
  function Hi4(b: Byte): Nibble { b / 16 }

  function Lo4(b: Byte): Nibble { b % 16 }

  /** A byte packed from two halves gives them back. */
  lemma NibblePair(a: Nibble, b: Nibble)
    ensures 0 <= 16 * a + b < 256 && Hi4(16 * a + b) == a && Lo4(16 * a + b) == b
  {
  }
}
