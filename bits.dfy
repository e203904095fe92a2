/** Bit-field helpers on 16-bit words (the `GetNibble` and `GetByte` extension methods).
    Both shift an unsigned 16-bit value right and mask the low bits. The value is widened
    to a non-negative `int` before the shift, so `>> s` is division by 2^s and
    `& (2^k - 1)` is the remainder modulo 2^k. C# masks the shift count of an `int`
    shift to its low five bits, which is written out as `% 32`. */
module Bits {

  type u8 = x: int | 0 <= x < 0x100
  type u16 = x: int | 0 <= x < 0x1_0000

  function Pow2(n: nat): (r: nat)
    ensures r > 0
  {
    if n == 0 then 1 else 2 * Pow2(n - 1)
  }

  /** Nibble `nibbleId` of a word: shift right by four bits per id, keep the low four. */
  function GetNibble(value: u16, nibbleId: int): (r: u8)
    ensures r < 0x10
  {
    (value / Pow2((4 * nibbleId) % 32)) % 0x10
  }

  /** Byte `byteId` of a word: shift right by eight bits per id, keep the low eight. */
  function GetByte(value: u16, byteId: int): (r: u8)
    ensures r <= value
  {
    var divisor := Pow2((8 * byteId) % 32);
    QuotientBound(value, divisor);
    (value / divisor) % 0x100
  }

  /** A quotient by a positive divisor, and any remainder of it, are at most the dividend. */
  lemma QuotientBound(a: nat, divisor: nat)
    requires divisor > 0
    ensures (a / divisor) % 0x100 <= a / divisor <= a
  {
    var q := a / divisor;
    assert a == divisor * q + a % divisor;
    ProductAtLeast(divisor, q);
  }

  lemma {:induction false} ProductAtLeast(d: nat, q: nat)
    requires d > 0
    ensures d * q >= q
    decreases d
  {
    if d > 1 {
      ProductAtLeast(d - 1, q);
      assert d * q == (d - 1) * q + q;
    }
  }

  /** The shift counts of nibble ids 0..3 and byte ids 0..1, and the divisors they give. */
  lemma NibbleShifts(value: u16)
    ensures GetNibble(value, 0) == value % 0x10
    ensures GetNibble(value, 1) == (value / 0x10) % 0x10
    ensures GetNibble(value, 2) == (value / 0x100) % 0x10
    ensures GetNibble(value, 3) == (value / 0x1000) % 0x10
  {
    assert (4 * 1) % 32 == 4 && (4 * 2) % 32 == 8 && (4 * 3) % 32 == 12;
    assert Pow2(4) == 0x10 && Pow2(8) == 0x100 && Pow2(12) == 0x1000;
  }

  lemma ByteShifts(value: u16)
    ensures GetByte(value, 0) == value % 0x100
    ensures GetByte(value, 1) == value / 0x100
  {
    assert (8 * 1) % 32 == 8;
    assert Pow2(8) == 0x100;
    assert value / 0x100 < 0x100;
  }

  /** A two-digit hexadecimal number splits back into its digits. */
  lemma DigitPair(lo: int, hi: int)
    requires 0 <= lo < 0x10
    ensures (lo + 0x10 * hi) % 0x10 == lo && (lo + 0x10 * hi) / 0x10 == hi
  {
  }

  /** The hexadecimal digits of a 16-bit word, obtained by dividing by 16 repeatedly. */
  lemma HexDigits(value: u16)
    ensures value % 0x100 == value % 0x10 + 0x10 * ((value / 0x10) % 0x10)
    ensures value / 0x100 == (value / 0x10) / 0x10 < 0x100
    ensures value / 0x1000 == (value / 0x100) / 0x10 < 0x10
    ensures value / 0x100 == (value / 0x100) % 0x10 + 0x10 * (value / 0x1000)
  {
  }

  /** Nibble i of a word is the i-th hexadecimal digit, least significant first; the
      top one needs no mask. */
  lemma NibbleDigits(value: u16)
    ensures GetNibble(value, 0) == value % 0x10
    ensures GetNibble(value, 1) == (value / 0x10) % 0x10
    ensures GetNibble(value, 2) == (value / 0x100) % 0x10
    ensures GetNibble(value, 3) == value / 0x1000
  {
    NibbleShifts(value);
    HexDigits(value);
    DigitPair(value / 0x1000, 0);
  }

  /** The four nibbles reassemble the word: sum of GetNibble(v, i) * 16^i is v. */
  lemma NibblesReassemble(value: u16)
    ensures GetNibble(value, 0) + 0x10 * GetNibble(value, 1)
          + 0x100 * GetNibble(value, 2) + 0x1000 * GetNibble(value, 3) == value
  {
    NibbleDigits(value);
    HexDigits(value);
  }

  /** The two bytes reassemble the word, high byte first. */
  lemma BytesReassemble(value: u16)
    ensures GetByte(value, 1) * 0x100 + GetByte(value, 0) == value
  {
    ByteShifts(value);
    HexDigits(value);
  }

  /** Nibble 3 is `value >> 12`, the CPU's instruction-family selector. */
  lemma TopNibble(value: u16)
    ensures GetNibble(value, 3) == value / 0x1000
    ensures GetNibble(value, 3) * 0x1000 + value % 0x1000 == value
  {
    NibbleDigits(value);
  }

  /** Nibbles 2k and 2k+1 are the low and high halves of byte k. */
  lemma NibblesOfBytes(value: u16)
    ensures GetNibble(value, 0) == GetByte(value, 0) % 0x10
    ensures GetNibble(value, 1) == GetByte(value, 0) / 0x10
    ensures GetNibble(value, 2) == GetByte(value, 1) % 0x10
    ensures GetNibble(value, 3) == GetByte(value, 1) / 0x10
  {
    NibbleDigits(value);
    ByteShifts(value);
    HexDigits(value);
    DigitPair(value % 0x10, (value / 0x10) % 0x10);
  }

  /** The shift counts after C#'s masking to five bits. */
  lemma NibbleShiftCount(id: int)
    ensures (4 * id) % 32 == 4 * (id % 8) && (id % 8) % 8 == id % 8
  {
    var q, r := id / 8, id % 8;
    assert 4 * id == 32 * q + 4 * r;
  }

  lemma ByteShiftCount(id: int)
    ensures (8 * id) % 32 == 8 * (id % 4) && (id % 4) % 4 == id % 4
  {
    var q, r := id / 4, id % 4;
    assert 8 * id == 32 * q + 8 * r;
  }

  lemma SixteenBits()
    ensures Pow2(16) == 0x1_0000
  {
    assert Pow2(8) == 0x100;
  }

  /** A shift by 16 or more bits empties a 16-bit word. */
  lemma ShiftedOut(value: u16, s: nat)
    requires 16 <= s
    ensures value / Pow2(s) == 0
  {
    PowMonotone(16, s);
    SixteenBits();
    DivBelow(value, Pow2(s));
  }

  /** A dividend below the divisor leaves quotient 0. */
  lemma DivBelow(a: nat, b: nat)
    requires a < b
    ensures a / b == 0
  {
  }

  /** The masked shift count makes nibble ids repeat with period 8; ids 4..7 shift
      every bit of a 16-bit word out and read 0. */
  lemma NibbleIdsWrap(value: u16, nibbleId: int)
    ensures GetNibble(value, nibbleId) == GetNibble(value, nibbleId % 8)
    ensures 4 <= nibbleId % 8 ==> GetNibble(value, nibbleId) == 0
  {
    NibbleShiftCount(nibbleId);
    NibbleShiftCount(nibbleId % 8);
    if 4 <= nibbleId % 8 {
      ShiftedOut(value, 4 * (nibbleId % 8));
    }
  }

  /** Likewise byte ids repeat with period 4, and ids 2 and 3 read 0. */
  lemma ByteIdsWrap(value: u16, byteId: int)
    ensures GetByte(value, byteId) == GetByte(value, byteId % 4)
    ensures 2 <= byteId % 4 ==> GetByte(value, byteId) == 0
  {
    ByteShiftCount(byteId);
    ByteShiftCount(byteId % 4);
    if 2 <= byteId % 4 {
      ShiftedOut(value, 8 * (byteId % 4));
    }
  }

  lemma {:induction false} PowMonotone(m: nat, n: nat)
    requires m <= n
    ensures Pow2(m) <= Pow2(n)
  {
    if m < n {
      PowMonotone(m, n - 1);
    }
  }
}
