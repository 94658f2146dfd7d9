/** The 36-bit word and its fields (src/word.hpp).  A word is the number its 36 bits spell; each
    bit-field is a function of it, and each store into a bit-field truncates to the field's width. */
module Words {
  import opened Bits

  const B18: nat := 0x4_0000
  const B23: nat := 0x80_0000
  const B35: nat := 0x8_0000_0000
  const B36: nat := 0x10_0000_0000
  const B64: nat := 0x1_0000_0000_0000_0000
  const B70: nat := 0x40_0000_0000_0000_0000
  const B71: nat := 0x80_0000_0000_0000_0000
  const B72: nat := 0x100_0000_0000_0000_0000
  const B128: nat := 0x1_0000_0000_0000_0000_0000_0000_0000_0000

  type Half = x: nat | x < B18
  type Mag = x: nat | x < B35
  type Word = x: nat | x < B36
  type U64 = x: nat | x < B64
  type U128 = x: nat | x < B128

  // Storing any integer into a 36-bit field
  function ToWord(v: int): Word { v % B36 }

  function Lh(w: Word): Half { w / B18 }
  function Rh(w: Word): Half { w % B18 }

  // W36(lh, rh): both halves truncate, with no carry between them.
  function Join(lh: int, rh: int): (w: Word)
    ensures Lh(w) == lh % B18 && Rh(w) == rh % B18
  {
    lh % B18 * B18 + rh % B18
  }

  // The signed view of a half word
  function Signed18(h: Half): (s: int)
    ensures -0x2_0000 <= s < 0x2_0000 && s % B18 == h
  {
    if h < 0x2_0000 then h else h - B18
  }

  function MagOf(w: Word): Mag { w % B35 }
  predicate Negative(w: Word) { w >= B35 }

  function FromMag(m: Mag, negative: bool): (w: Word)
    ensures MagOf(w) == m && Negative(w) == negative
  {
    if negative then m + B35 else m
  }

  // The 23-bit address and 13-bit flags views of a word
  function Vma(w: Word): (v: nat)
    ensures v < B23
  {
    w % B23
  }

  function PcFlags(w: Word): (f: nat)
    ensures f < 0x2000
  {
    w / B23
  }

  function SetVma(w: Word, v: int): (r: Word)
    ensures Vma(r) == v % B23 && PcFlags(r) == PcFlags(w)
  {
    PcFlags(w) * B23 + v % B23
  }

  predicate IsSection0(w: Word) { Vma(w) < B18 }

  // Instruction fields
  function OpOf(w: Word): (op: nat)
    ensures op < 512
  {
    w / 0x800_0000
  }

  function AcOf(w: Word): (n: nat)
    ensures n < 16
  {
    w / B23 % 16
  }

  predicate IndirectOf(w: Word) { w / 0x40_0000 % 2 == 1 }

  function IndexOf(w: Word): (x: nat)
    ensures x < 16
  {
    w / B18 % 16
  }

  function YOf(w: Word): Half { Rh(w) }

  // Counting in a half word
  lemma NextHalf(x: int)
    ensures (x % B18 + 1) % B18 == (x + 1) % B18
  {
  }

  // The powers of two behind these constants
  lemma PowersOf2()
    ensures Pow2(18) == B18 && Pow2(35) == B35 && Pow2(36) == B36
    ensures Pow2(64) == B64 && Pow2(70) == B70 && Pow2(72) == B72 && Pow2(128) == B128
  {
    assert Pow2(8) == 256 && Pow2(2) == 4 && Pow2(3) == 8 && Pow2(4) == 16;
    Pow2Add(8, 8);
    Pow2Add(2, 16);
    Pow2Add(16, 16);
    Pow2Add(3, 32);
    Pow2Add(4, 32);
    Pow2Add(32, 32);
    Pow2Add(35, 35);
    Pow2Add(36, 36);
    Pow2Add(64, 64);
  }
}
