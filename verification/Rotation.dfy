/** ROT and ROTC (src/i-intbin.cpp:630-646, 680-698).  The shifts below keep the widths of the C++
    intermediates (64 bits for ROT, 128 for ROTC); the theorems say that what is lost there never
    matters: both instructions are exact cyclic rotations. */
module Rotation {
  import opened Bits
  import opened Words

  // ROT's new word
  function RotWord(w: Word, count: int): nat
  {
    var n := TruncRem(count, 36);
    if n > 0 then
      BitOr(Low(Low(Shl(w, n), 64), 36), Shr(w, 36 - n))
    else if n < 0 then
      BitOr(Shr(w, -n), BitAnd(Low(Shl(w, 36 + n), 64), B36 - 1))
    else w
  }

  // ROTC's 128-bit result, before the two halves are masked out of it
  function RotPair128(a: nat, count: int): nat
  {
    var n := TruncRem(count, 72);
    if n > 0 then
      BitOr(Low(Shl(a, n), 128), Shr(a, 72 - n))
    else if n < 0 then
      BitOr(Shr(a, -n), Low(Shl(a, 72 + n), 128))
    else a
  }

  function RotPairHi(a: nat, count: int): nat { BitAnd(Shr(RotPair128(a, count), 36), B36 - 1) }
  function RotPairLo(a: nat, count: int): nat { BitAnd(RotPair128(a, count), B36 - 1) }

  // The two halves ROTC stores, as one 72-bit number
  function RotPair(a: nat, count: int): nat
  {
    Shl(RotPairHi(a, count), 36) + RotPairLo(a, count)
  }

  // Cyclic left rotation of a bit sequence whose first element is the least significant bit
  function Rotated(s: seq<bool>, k: nat): (r: seq<bool>)
    requires k <= |s|
    ensures |r| == |s|
    ensures forall i :: 0 <= i < |s| ==> r[i] == s[if i >= k then i - k else i - k + |s|]
  {
    s[|s| - k..] + s[..|s| - k]
  }

  // A left shift by n cut to `limit` bits, and the bits that a right shift brings to the bottom:
  // joined by `|`, their low `width` bits are the two parts of w swapped.
  lemma JoinedValue(w: nat, n: nat, width: nat, limit: nat)
    requires n <= width <= limit && w < Pow2(width)
    ensures Shr(w, width - n) < Pow2(n)
    ensures var joined := BitOr(Low(Shl(w, n), limit), Shr(w, width - n));
            && joined == BitOr(Shr(w, width - n), Low(Shl(w, n), limit))
            && Low(joined, width) == Shl(Low(w, width - n), n) + Shr(w, width - n)
            && (limit == width ==> joined == Low(joined, width))
  {
    hide *;
    var hi, top := Shr(w, width - n), Low(w, limit - n);
    ShrBound(w, width - n, n);
    assert Low(Shl(w, n), limit) == Shl(top, n) by {
      LowOfSplit(w, 0, n, limit - n);
    }
    OrDisjoint(top, hi, n);
    OrComm(Shl(top, n), hi);
    assert Low(Shl(top, n) + hi, width) == Shl(Low(w, width - n), n) + hi by {
      LowOfSplit(top, hi, n, width - n);
      LowOfLow(w, width - n, limit - n);
    }
  }

  // Whatever the width of the intermediate, those bits are w rotated left by n.
  lemma JoinedIsRotation(w: nat, n: nat, width: nat, limit: nat)
    requires n <= width <= limit && w < Pow2(width)
    ensures var joined := BitOr(Low(Shl(w, n), limit), Shr(w, width - n));
            && joined == BitOr(Shr(w, width - n), Low(Shl(w, n), limit))
            && (limit == width ==> joined < Pow2(width))
            && Digits(Low(joined, width), width) == Rotated(Digits(w, width), n)
  {
    hide Pow2, Shl, Shr, Low, BitOr, Digits;
    var m := width - n;
    JoinedValue(w, n, width, limit);
    Split(w, m);
    DigitsConcat(Shr(w, m), Low(w, m), n, m);
    DigitsConcat(Low(w, m), Shr(w, m), m, n);
  }

  // ROT rotates the 36 bits left by the signed count taken modulo 36, and stays a 36-bit word.
  lemma RotIsRotation(w: Word, count: int)
    ensures RotWord(w, count) < B36
    ensures Digits(RotWord(w, count), 36) == Rotated(Digits(w, 36), count % 36)
  {
    hide Pow2, Shl, Shr, Low, BitOr, BitAnd, Digits;
    PowersOf2();
    TruncRemCongruent(count, 36);
    var n := TruncRem(count, 36);
    if n != 0 {
      var k := if n > 0 then n else 36 + n;
      JoinedIsRotation(w, k, 36, 36);
      LowOfLow(Shl(w, k), 36, 64);
      AndMask(Low(Shl(w, k), 64), 36);
      LowSmall(RotWord(w, count), 36);
    }
  }

  lemma RotWordFits(w: Word, count: int)
    ensures RotWord(w, count) < B36
  {
    hide RotWord, Digits;
    RotIsRotation(w, count);
  }

  lemma RotPairLow72(a: nat, count: int)
    ensures RotPair(a, count) == Low(RotPair128(a, count), 72)
    ensures RotPairHi(a, count) < B36 && RotPairLo(a, count) < B36
  {
    hide Pow2, Shl, Shr, Low, BitAnd, RotPair128;
    var r := RotPair128(a, count);
    PowersOf2();
    AndMask(Shr(r, 36), 36);
    AndMask(r, 36);
    Split(r, 36);
    LowOfSplit(Shr(r, 36), Low(r, 36), 36, 36);
  }

  // ROTC rotates the 72 bits left by the signed count taken modulo 72.
  lemma RotcIsRotation(a: nat, count: int)
    requires a < B72
    ensures RotPair(a, count) < B72
    ensures Digits(RotPair(a, count), 72) == Rotated(Digits(a, 72), count % 72)
  {
    hide Pow2, Shl, Shr, Low, BitOr, BitAnd, Digits;
    PowersOf2();
    RotPairLow72(a, count);
    TruncRemCongruent(count, 72);
    var n := TruncRem(count, 72);
    if n != 0 {
      JoinedIsRotation(a, if n > 0 then n else 72 + n, 72, 128);
    } else {
      LowSmall(a, 72);
    }
  }

  lemma RotatedTwice(s: seq<bool>, a: int, b: int)
    requires s != []
    ensures Rotated(Rotated(s, a % |s|), b % |s|) == Rotated(s, (a + b) % |s|)
  {
    ModAdd(a, b, |s|);
  }

  lemma ModAdd(a: int, b: int, n: nat)
    requires n > 0
    ensures (a + b) % n == (if a % n + b % n >= n then a % n + b % n - n else a % n + b % n)
  {
    var q, r := a / n + b / n, a % n + b % n;
    assert a + b == n * q + r;
    if r >= n {
      assert n * (q + 1) == n * q + n;
      ModOfMultiple(q + 1, r - n, n);
    } else {
      ModOfMultiple(q, r, n);
    }
  }

  lemma RotatedKeepsBits(s: seq<bool>, k: nat)
    requires k <= |s|
    ensures multiset(Rotated(s, k)) == multiset(s)
  {
    var m := |s| - k;
    assert s == s[..m] + s[m..];
  }

  // Successive ROTs add their counts, and counts that add up to a multiple of 36 cancel.
  lemma RotCompose(w: Word, a: int, b: int)
    ensures RotWord(w, a) < B36
    ensures RotWord(RotWord(w, a), b) == RotWord(w, a + b)
    ensures (a + b) % 36 == 0 ==> RotWord(RotWord(w, a), b) == w
  {
    hide *;
    RotIsRotation(w, a);
    RotIsRotation(RotWord(w, a), b);
    RotIsRotation(w, a + b);
    RotatedTwice(Digits(w, 36), a, b);
    PowersOf2();
    SameDigits(RotWord(RotWord(w, a), b), RotWord(w, a + b), 36);
    if (a + b) % 36 == 0 {
      SameDigits(RotWord(w, a + b), w, 36);
    }
  }

  // ROT keeps the number of one bits (and of zero bits).
  lemma RotConserves(w: Word, count: int)
    ensures multiset(Digits(RotWord(w, count), 36)) == multiset(Digits(w, 36))
  {
    RotIsRotation(w, count);
    RotatedKeepsBits(Digits(w, 36), count % 36);
  }

  // The same for ROTC and 72 bits
  lemma RotcCompose(w: nat, a: int, b: int)
    requires w < B72
    ensures RotPair(RotPair(w, a), b) == RotPair(w, a + b)
    ensures (a + b) % 72 == 0 ==> RotPair(RotPair(w, a), b) == w
  {
    hide *;
    PowersOf2();
    RotcIsRotation(w, a);
    RotcIsRotation(RotPair(w, a), b);
    RotcIsRotation(w, a + b);
    RotatedTwice(Digits(w, 72), a, b);
    SameDigits(RotPair(RotPair(w, a), b), RotPair(w, a + b), 72);
    if (a + b) % 72 == 0 {
      SameDigits(RotPair(w, a + b), w, 72);
    }
  }

  lemma RotcConserves(w: nat, count: int)
    requires w < B72
    ensures multiset(Digits(RotPair(w, count), 72)) == multiset(Digits(w, 72))
  {
    RotcIsRotation(w, count);
    RotatedKeepsBits(Digits(w, 72), count % 72);
  }
}
