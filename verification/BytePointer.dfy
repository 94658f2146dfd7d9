/** One-word local byte pointers (src/bytepointer.cpp:24-63, src/bytepointer.hpp:41-64). */
module BytePointer {
  import opened Bits
  import opened Words
  import opened Wrappers
  import opened EffectiveAddress
  import opened Machine

  type Six = n: nat | n < 64

  // The fields of a pointer: position, size, and an indirect, indexed address
  datatype Pointer = Pointer(p: Six, s: Six, i: bool, x: nat, y: Half)

  // Stepping to the next byte: down in the same word while the byte fits below, else left-aligned in
  // the next word.
  function Incremented(b: Pointer): Pointer
  {
    if b.s > b.p then b.(p := (36 - (b.s as int)) % 64, y := (b.y + 1) % B18) else b.(p := b.p - b.s)
  }

  function Stepped(b: Pointer, n: nat): (r: Pointer)
    ensures r.s == b.s && r.i == b.i && r.x == b.x
  {
    if n == 0 then b else Incremented(Stepped(b, n - 1))
  }

  // The byte of size s at position p of a word
  function Field(w: Word, p: nat, s: nat): nat { Low(Shr(w, p), s) }

  // What `getByte` returns: an `unsigned`, so that only 32 bits of the byte come back
  function ByteAt(space: Space, b: Pointer): Option<nat>
    requires b.x < 16
  {
    match EA(space, Fields(b.i, b.x, b.y))
    case None => None
    case Some(a) => Some(Low(Field(space[a % B18], b.p, b.s), 32))
  }

  class BytePointerL1 {
    var p: Six
    var s: Six
    var i: bool
    var x: nat
    var y: Half

    function Value(): Pointer
      reads this
    {
      Pointer(p, s, i, x, y)
    }

    constructor (w: Word)
      ensures Value() == Pointer(w / 0x4000_0000, w / 0x100_0000 % 64, IndirectOf(w), IndexOf(w), YOf(w))
    {
      p, s, i, x, y := w / 0x4000_0000, w / 0x100_0000 % 64, IndirectOf(w), IndexOf(w), YOf(w);
    }

    method Inc()
      modifies this
      ensures Value() == Incremented(old(Value()))
    {
      if s > p {
        p := (36 - (s as int)) % 64;
        y := (y + 1) % B18;
      } else {
        p := p - s;
      }
    }

    // The position, size and address of the byte.  All three are `unsigned`, so that an address indexed
    // by a whole word is cut to 32 bits.
    method GetPSA(m: KM10) returns (rp: nat, rs: nat, a: nat)
      requires m.Valid() && x < 16 && EA(m.Space(), Fields(i, x, y)).Some?
      ensures rp == p && rs == s && a == Low(EA(m.Space(), Fields(i, x, y)).value, 32)
    {
      rp, rs := p, s;
      a := m.GetEA(i, x, y);
      a := Low(a, 32);
    }

    method GetByte(m: KM10) returns (byte: nat)
      requires m.Valid() && x < 16 && EA(m.Space(), Fields(i, x, y)).Some?
      ensures ByteAt(m.Space(), Value()) == Some(byte)
    {
      hide EA, Shr, Low, BitAnd, Pow2, KM10.Space;
      var rp, rs, a := GetPSA(m);
      RightHalfKept(EA(m.Space(), Fields(i, x, y)).value);
      var w := m.MemGetN(a);
      AndMask(Shr(w, rp), rs);
      byte := Low(BitAnd(Shr(w, rp), Pow2(rs) - 1), 32);
    }
  }

  // The cut does not reach the half of the address that counts.
  lemma RightHalfKept(a: nat)
    ensures Low(a, 32) % B18 == a % B18
  {
    hide Low, Pow2;
    PowersOf2();
    LowOfLow(a, 18, 32);
    LowIsMod(a, 18);
    LowIsMod(Low(a, 32), 18);
  }

  // ----- stepping through words -----

  // Bytes of one size in a word
  function PerWord(s: nat): (n: nat)
    requires 1 <= s <= 36
    ensures n >= 1
  {
    assert 36 == s * (36 / s) + 36 % s;
    36 / s
  }

  // The position of byte k of a word, counting from the left
  function PositionOf(s: nat, k: nat): int { 36 - s * (k + 1) }

  lemma LastByte(s: nat, k: nat)
    requires 1 <= s <= 36
    ensures PerWord(s) >= 1 && 36 - s * PerWord(s) == 36 % s
    ensures k < PerWord(s) ==> PositionOf(s, k) >= 0 && PositionOf(s, k) < 64
    ensures k + 1 < PerWord(s) ==> PositionOf(s, k) >= s && PositionOf(s, k + 1) == PositionOf(s, k) - s
    ensures k + 1 == PerWord(s) ==> PositionOf(s, k) < s
    ensures PositionOf(s, 0) == 36 - s
  {
    var b := 36 / s;
    assert 36 == s * b + 36 % s;
    assert s * (k + 2) == s * (k + 1) + s;
    if k < b {
      MulLe(s, k + 1, b);
    }
    if k + 1 < b {
      MulLe(s, k + 2, b);
    }
    if b < 1 {
      MulLe(s, b, 0);
    }
  }

  // The pointer to byte k of the word so many words on
  function Placed(b: Pointer, k: nat, words: nat): Pointer
    requires 1 <= b.s <= 36 && k < PerWord(b.s)
  {
    LastByte(b.s, k);
    b.(p := PositionOf(b.s, k), y := (b.y + words) % B18)
  }

  function Whole(m: nat, n: nat): nat
    requires n >= 1
  {
    m / n
  }

  function Rest(m: nat, n: nat): (r: nat)
    requires n >= 1
    ensures r < n
  {
    m % n
  }

  // The pointer to the byte m bytes after the first of word y
  function Spot(b: Pointer, m: nat): Pointer
    requires 1 <= b.s <= 36
  {
    Placed(b, Rest(m, PerWord(b.s)), Whole(m, PerWord(b.s)))
  }

  // Starting to the left of a word, n steps lead to byte (n - 1) mod (36 / S) of the word that many
  // whole words on.
  lemma {:induction false} SteppedTo(b: Pointer, n: nat)
    requires b.p == 36 && 1 <= b.s <= 36 && n >= 1
    ensures Stepped(b, n) == Spot(b, n - 1)
  {
    hide Spot, Incremented;
    if n == 1 {
      FirstSpot(b);
      assert Stepped(b, 0) == b;
    } else {
      SteppedTo(b, n - 1);
      NextSpot(b, n - 2);
    }
  }

  lemma FirstSpot(b: Pointer)
    requires b.p == 36 && 1 <= b.s <= 36
    ensures Incremented(b) == Spot(b, 0)
  {
    hide PerWord, Placed, Incremented;
    FirstDivision(PerWord(b.s));
    FirstStep(b);
  }

  lemma NextSpot(b: Pointer, m: nat)
    requires 1 <= b.s <= 36
    ensures Incremented(Spot(b, m)) == Spot(b, m + 1)
  {
    hide PerWord, Placed, Incremented;
    var n := PerWord(b.s);
    NextDivision(m, n);
    NextStep(b, m % n, m / n);
  }

  lemma FirstStep(b: Pointer)
    requires b.p == 36 && 1 <= b.s <= 36
    ensures Incremented(b) == Placed(b, 0, 0)
  {
    hide PerWord;
    LastByte(b.s, 0);
  }

  lemma NextStep(b: Pointer, k: nat, words: nat)
    requires 1 <= b.s <= 36 && k < PerWord(b.s)
    ensures Incremented(Placed(b, k, words))
            == if k + 1 < PerWord(b.s) then Placed(b, k + 1, words) else Placed(b, 0, words + 1)
  {
    hide PerWord, PositionOf;
    LastByte(b.s, k);
    LastByte(b.s, 0);
    NextHalf(b.y + words);
  }

  lemma FirstDivision(b: nat)
    requires b >= 1
    ensures 0 % b == 0 && 0 / b == 0
  {
  }

  lemma NextDivision(m: nat, b: nat)
    requires b >= 1
    ensures if m % b + 1 < b then (m + 1) % b == m % b + 1 && (m + 1) / b == m / b
            else (m + 1) % b == 0 && (m + 1) / b == m / b + 1
  {
    assert m == b * (m / b) + m % b;
    if m % b + 1 < b {
      ModOfMultiple(m / b, m % b + 1, b);
    } else {
      assert b * (m / b + 1) == b * (m / b) + b;
      ModOfMultiple(m / b + 1, 0, b);
    }
  }

  // ----- the bytes of a word -----

  // The first k bytes of a word, put together
  function Concatenated(w: Word, s: nat, k: nat): nat
    requires 1 <= s <= 36 && k <= PerWord(s)
  {
    if k == 0 then 0
    else
      LastByte(s, k - 1);
      Shl(Concatenated(w, s, k - 1), s) + Field(w, PositionOf(s, k - 1), s)
  }

  lemma {:induction false} BytesAreTheWord(w: Word, s: nat, k: nat)
    requires 1 <= s <= 36 && k <= PerWord(s)
    ensures 0 <= 36 - s * k && Concatenated(w, s, k) == Shr(w, 36 - s * k)
  {
    hide Shl, Shr, Low, PerWord;
    if k == 0 {
      WordIsGone(w);
    } else {
      LastByte(s, k - 1);
      BytesAreTheWord(w, s, k - 1);
      var p := PositionOf(s, k - 1);
      assert s * (k - 1) + s == s * k;
      ShrShr(w, p, s);
      Split(Shr(w, p), s);
    }
  }

  lemma WordIsGone(w: Word)
    ensures Shr(w, 36) == 0
  {
    hide Shr, Pow2;
    PowersOf2();
    ShrIsDiv(w, 36);
  }

  // All the bytes of a word put together are the word without the 36 mod S bits that no byte covers.
  lemma WordIsCovered(w: Word, s: nat)
    requires 1 <= s <= 36
    ensures Concatenated(w, s, PerWord(s)) == Shr(w, 36 % s)
  {
    hide Shl, Shr, Low, Concatenated, PerWord;
    LastByte(s, 0);
    BytesAreTheWord(w, s, PerWord(s));
  }

  // The n-th byte read through a stepping pointer without index or indirection is byte
  // (n - 1) mod (36 / S) of word y + (n - 1) / (36 / S), exactly if it is narrower than 33 bits or has
  // no one bit above the 32nd.
  lemma ByteReadIff(space: Space, b: Pointer, n: nat)
    requires b.p == 36 && 1 <= b.s <= 36 && !b.i && b.x == 0 && n >= 1
    ensures var at := Spot(b, n - 1);
            var byte := Field(space[at.y], at.p, b.s);
            ByteAt(space, Stepped(b, n)) == Some(byte) <==> b.s <= 32 || byte < Pow2(32)
  {
    hide PerWord, PositionOf, Shr, Low, Pow2, Stepped, Spot;
    SteppedTo(b, n);
    var at := Stepped(b, n);
    var bits := Shr(space[at.y], at.p);
    ShortField(bits, b.s);
  }

  lemma ShortField(bits: nat, s: nat)
    ensures Low(Low(bits, s), 32) == Low(bits, s) <==> s <= 32 || Low(bits, s) < Pow2(32)
  {
    hide Low, Pow2;
    LowIsMod(bits, s);
    if s <= 32 {
      Pow2Monotonic(s, 32);
    }
    if Low(bits, s) < Pow2(32) {
      LowSmall(Low(bits, s), 32);
    }
    LowIsMod(Low(bits, s), 32);
  }

  // The byte in numbers: the word at the effective address without its p rightmost bits, and of that the
  // s rightmost, at most 32.
  lemma ByteIs(space: Space, b: Pointer)
    requires b.x < 16 && EA(space, Fields(b.i, b.x, b.y)).Some?
    ensures var w := space[EA(space, Fields(b.i, b.x, b.y)).value % B18];
            ByteAt(space, b) == Some(w / Pow2(b.p) % Pow2(b.s) % Pow2(32))
  {
    hide EA, Shr, Low, Pow2;
    var w := space[EA(space, Fields(b.i, b.x, b.y)).value % B18];
    ShrIsDiv(w, b.p);
    LowIsMod(Shr(w, b.p), b.s);
    LowIsMod(Low(Shr(w, b.p), b.s), 32);
  }

  // A size above 36 does not fit in any word; the position, of six bits, then wraps around in the next.
  lemma OversizeStep(b: Pointer)
    requires b.s > 36 && b.s > b.p
    ensures Incremented(b) == b.(p := 100 - b.s, y := (b.y + 1) % B18)
  {
  }
}
