/** The multi-word arithmetic of src/word.cpp: the 256-bit accumulator W256, the 35-bit increment
    with carry, and the 140-bit W144 with its negation and product. */
module Wide {
  import opened Bits
  import opened Words

  const B140: nat := B70 * B70

  // ----- W256 (src/word.cpp:207-274) -----

  // A number of two 128-bit halves
  function Pair128(hi: nat, lo: nat): nat { Shl(hi, 128) + lo }

  class W256 {
    var lo: U128
    var hi: U128

    function Val(): nat
      reads this
    {
      Pair128(hi, lo)
    }

    constructor (vLo: U128, vHi: U128)
      ensures lo == vLo && hi == vHi
    {
      lo := vLo;
      hi := vHi;
    }

    // `+=`.  The carry is seen by comparing the new low half with the addend's.  When the addend is
    // the accumulator itself that comparison is between equal values, and the carry is lost.
    method AddAssign(a: W256)
      modifies this
      ensures a != this || old(lo) < B128 / 2 ==> Val() == Low(old(Val()) + old(a.Val()), 256)
      ensures a == this && old(lo) >= B128 / 2 ==> Val() == Low(old(Val()) + old(Val()) - B128, 256)
    {
      hide Low, Shl, Pow2, Pair128;
      ghost var lo0, hi0, aLo0, aHi0 := lo, hi, a.lo, a.hi;
      CarrySeen(lo, a.lo);
      lo := (lo + a.lo) % B128;
      hi := (hi + a.hi + (if lo < a.lo then 1 else 0)) % B128;
      SumOfPairs(hi0, lo0, aHi0, aLo0, if lo < a.lo then 1 else 0, hi, lo);
    }

    // `<<=`; a shift by 256 or more is undefined behaviour in C++.
    method ShlAssign(n: nat)
      requires n < 256
      modifies this
      ensures Val() == Low(Shl(old(Val()), n), 256)
    {
      ghost var lo0, hi0 := lo, hi;
      if n >= 128 {
        LowBelow128(Shl(lo, n - 128));
        hi := Low(Shl(lo, n - 128), 128);
        lo := 0;
        ShiftFarLeft(hi0, lo0, n);
      } else if n != 0 {
        ShiftLeftBounds(hi, lo, n);
        hi := BitOr(Low(Shl(hi, n), 128), Shr(lo, 128 - n));
        lo := Low(Shl(lo, n), 128);
        ShiftLeft(hi0, lo0, n);
      } else {
        PairBelow256(hi, lo);
      }
    }

    // `>>=`
    method ShrAssign(n: nat)
      requires n < 256
      modifies this
      ensures Val() == Shr(old(Val()), n)
    {
      ghost var lo0, hi0 := lo, hi;
      if n >= 128 {
        ShrLe(hi, n - 128);
        lo := Shr(hi, n - 128);
        hi := 0;
        ShiftFarRight(hi0, lo0, n);
      } else if n != 0 {
        ShiftRight(hi, lo, n);
        lo := BitOr(Shr(lo, n), Low(Shl(hi, 128 - n), 128));
        ShrLe(hi, n);
        hi := Shr(hi, n);
      }
    }
  }

  lemma LowBelow128(x: nat)
    ensures Low(x, 128) < B128
  {
    hide Low, Pow2;
    PowersOf2();
  }

  lemma {:induction false} ShrLe(w: nat, n: nat)
    ensures Shr(w, n) <= w
    decreases n
  {
    if n > 0 {
      ShrLe(w / 2, n - 1);
    }
  }

  lemma Pair128IsSum(hi: nat, lo: nat)
    ensures Pair128(hi, lo) == hi * B128 + lo
  {
    hide Shl, Pow2;
    PowersOf2();
    ShlIsMul(hi, 128);
  }

  // The low 256 bits of a number of two parts, the lower one below 2^128
  lemma LowOfPair(hi: nat, lo: U128)
    ensures Low(Pair128(hi, lo), 256) == Pair128(Low(hi, 128), lo)
  {
    hide Shl, Low, Pow2;
    PowersOf2();
    LowOfSplit(hi, lo, 128, 128);
  }

  lemma Low128IsMod(x: nat)
    ensures Low(x, 128) == x % B128
  {
    hide Shl, Low, Pow2;
    PowersOf2();
    LowIsMod(x, 128);
  }

  lemma PairBelow256(hi: U128, lo: U128)
    ensures Low(Pair128(hi, lo), 256) == Pair128(hi, lo)
  {
    hide Low, Shl, Pow2, Pair128;
    LowOfPair(hi, lo);
    Low128IsMod(hi);
  }

  lemma CarrySeen(l1: U128, l2: U128)
    ensures (l1 + l2) % B128 < l2 <==> (l1 + l2) / B128 == 1
    ensures (l1 + l2) / B128 <= 1
    ensures (l2 + l2) / B128 == (if l2 < B128 / 2 then 0 else 1)
  {
  }

  // Adding halves and a carry bit
  lemma SumOfPairs(h1: U128, l1: U128, h2: U128, l2: U128, carry: nat, hi: nat, lo: nat)
    requires carry <= 1 && lo == (l1 + l2) % B128 && hi == (h1 + h2 + carry) % B128
    ensures carry == (l1 + l2) / B128 ==> Pair128(hi, lo) == Low(Pair128(h1, l1) + Pair128(h2, l2), 256)
    ensures carry == 0 && (l1 + l2) / B128 == 1 ==>
              Pair128(hi, lo) == Low(Pair128(h1, l1) + Pair128(h2, l2) - B128, 256)
  {
    hide Low, Shl, Pow2, Pair128;
    var h := h1 + h2 + carry;
    Pair128IsSum(h1, l1);
    Pair128IsSum(h2, l2);
    Pair128IsSum(h, lo);
    LowOfPair(h, lo);
    Low128IsMod(h);
  }

  lemma ShiftFarLeft(hi: U128, lo: U128, n: nat)
    requires 128 <= n < 256
    ensures Pair128(Low(Shl(lo, n - 128), 128), 0) == Low(Shl(Pair128(hi, lo), n), 256)
  {
    hide Low, Shl, Pow2;
    var k := n - 128;
    ShlAdd(Shl(hi, 128), lo, n);
    ShlShl(hi, 128, n);
    ShlShl(hi, k, 256);
    ShlShl(lo, k, 128);
    ShlShl(Shl(hi, k), 128, 128);
    ShlAdd(Shl(Shl(hi, k), 128), Shl(lo, k), 128);
    assert Shl(Pair128(hi, lo), n) == Pair128(Shl(Shl(hi, k), 128) + Shl(lo, k), 0);
    LowOfPair(Shl(Shl(hi, k), 128) + Shl(lo, k), 0);
    LowOfPair128(Shl(hi, k), Shl(lo, k));
  }

  // A multiple of 2^128 does not show in the low 128 bits.
  lemma LowOfPair128(hi: nat, lo: nat)
    ensures Low(Shl(hi, 128) + lo, 128) == Low(lo, 128)
  {
    hide Low, Shl, Pow2;
    PowersOf2();
    ShlIsMul(hi, 128);
    LowIsMod(lo, 128);
    LowIsMod(Shl(hi, 128) + lo, 128);
  }

  lemma ShiftLeftBounds(hi: U128, lo: U128, n: nat)
    requires 0 < n < 128
    ensures BitOr(Low(Shl(hi, n), 128), Shr(lo, 128 - n)) == Shl(Low(hi, 128 - n), n) + Shr(lo, 128 - n) < B128
    ensures Low(Shl(lo, n), 128) == Shl(Low(lo, 128 - n), n) < B128
  {
    hide Low, Shl, Shr, Pow2, BitOr;
    PowersOf2();
    var m := 128 - n;
    LowOfSplit(hi, 0, n, m);
    LowOfSplit(lo, 0, n, m);
    ShrBound(lo, m, n);
    OrDisjoint(Low(hi, m), Shr(lo, m), n);
    ShlBound(Low(hi, m), n, m);
    ShlBound(Low(lo, m), n, m);
  }

  lemma ShiftLeft(hi: U128, lo: U128, n: nat)
    requires 0 < n < 128
    ensures Pair128(BitOr(Low(Shl(hi, n), 128), Shr(lo, 128 - n)), Low(Shl(lo, n), 128))
              == Low(Shl(Pair128(hi, lo), n), 256)
  {
    hide Low, Shl, Shr, Pow2, BitOr;
    var m := 128 - n;
    var lh, ll := Shr(lo, m), Low(lo, m);
    ShiftLeftBounds(hi, lo, n);
    PowersOf2();
    Split(lo, m);
    assert Shl(Pair128(hi, lo), n) == Shl(Shl(hi, n) + lh, 128) + Shl(ll, n) by {
      ShlAdd(Shl(hi, 128), lo, n);
      ShlShl(hi, 128, n);
      ShlShl(hi, n, 128);
      ShlAdd(Shl(lh, m), ll, n);
      ShlShl(lh, m, n);
      ShlAdd(Shl(hi, n), lh, 128);
    }
    LowOfPair(Shl(hi, n) + lh, Shl(ll, n));
    ShrBound(lo, m, n);
    LowOfSplit(hi, lh, n, m);
  }

  lemma ShiftFarRight(hi: U128, lo: U128, n: nat)
    requires 128 <= n < 256
    ensures Pair128(0, Shr(hi, n - 128)) == Shr(Pair128(hi, lo), n)
  {
    hide Low, Shl, Shr, Pow2;
    PowersOf2();
    ShrShr(Pair128(hi, lo), 128, n - 128);
    ShrOfSplit(hi, lo, 128);
    ShlIsMul(0, 128);
  }

  lemma ShiftRight(hi: U128, lo: U128, n: nat)
    requires 0 < n < 128
    ensures BitOr(Shr(lo, n), Low(Shl(hi, 128 - n), 128)) < B128
    ensures Pair128(Shr(hi, n), BitOr(Shr(lo, n), Low(Shl(hi, 128 - n), 128))) == Shr(Pair128(hi, lo), n)
  {
    hide Low, Shl, Shr, Pow2, BitOr;
    PowersOf2();
    var m := 128 - n;
    var lh, hl := Shr(lo, n), Low(hi, n);
    ShrBound(lo, n, m);
    LowOfSplit(hi, 0, m, n);
    OrDisjoint(hl, lh, m);
    OrComm(lh, Shl(hl, m));
    ShlBound(hl, m, n);
    assert Pair128(hi, lo) == Shl(Pair128(Shr(hi, n), Shl(hl, m) + lh), n) + Low(lo, n) by {
      Split(hi, n);
      Split(lo, n);
      ShlAdd(Shl(Shr(hi, n), n), hl, 128);
      ShlShl(Shr(hi, n), n, 128);
      ShlShl(Shr(hi, n), 128, n);
      ShlShl(hl, m, n);
      ShlAdd(Shl(Shr(hi, n), 128), Shl(hl, m) + lh, n);
      ShlAdd(Shl(hl, m), lh, n);
    }
    ShrOfSplit(Pair128(Shr(hi, n), Shl(hl, m) + lh), Low(lo, n), n);
  }

  // ----- W144 (src/word.cpp:149-204, 393-423) -----

  // Four words, most significant first, each a sign bit above 35 bits of magnitude
  datatype W144 = W144(w0: Word, w1: Word, w2: Word, w3: Word)

  // The 140-bit magnitude
  function Magnitude(q: W144): nat
  {
    ((MagOf(q.w0) * B35 + MagOf(q.w1)) * B35 + MagOf(q.w2)) * B35 + MagOf(q.w3)
  }

  // All four sign bits agree.
  predicate Uniform(q: W144)
  {
    Negative(q.w0) == Negative(q.w1) == Negative(q.w2) == Negative(q.w3)
  }

  // The two's-complement value: the sign bit weighs -2^140.
  function SignedValue(q: W144): int
  {
    if Negative(q.w0) then Magnitude(q) - B140 else Magnitude(q)
  }

  // The constructor takes every sign from the most significant word.
  function Make144(a0: Word, a1: Word, a2: Word, a3: Word): W144
  {
    SetSign(W144(a0, a1, a2, a3), Negative(a0))
  }

  function SetSign(q: W144, negative: bool): W144
  {
    W144(FromMag(MagOf(q.w0), negative), FromMag(MagOf(q.w1), negative),
         FromMag(MagOf(q.w2), negative), FromMag(MagOf(q.w3), negative))
  }

  lemma MagnitudeBound(q: W144)
    ensures Magnitude(q) < B140
  {
    var u, l := MagOf(q.w0) * B35 + MagOf(q.w1), MagOf(q.w2) * B35 + MagOf(q.w3);
    assert Magnitude(q) == u * B70 + l;
    assert u < B70 && l < B70;
  }

  // A single word that is incremented in place
  class W36 {
    var u: Word

    constructor (w: Word)
      ensures u == w
    {
      u := w;
    }

    // Adds one to the low 35 bits; the sign bit stays.  True if the magnitude overflowed.
    method IncMag() returns (carry: bool)
      modifies this
      ensures u == FromMag((MagOf(old(u)) + 1) % B35, Negative(old(u)))
      ensures carry <==> MagOf(old(u)) == B35 - 1
    {
      var incremented: nat := MagOf(u) + 1;
      u := FromMag(incremented % B35, Negative(u));
      carry := incremented / B35 != 0;
    }
  }

  // `~mag` stored in a 36-bit word: the 35 bits inverted, and the sign bit set
  function Complement(m: Mag): Word { FromMag(B35 - 1 - m, true) }

  // A complemented limb after the increment has, or has not, reached it
  function Rippled(m: Mag, carry: bool): Mag
  {
    if carry then (B35 - m) % B35 else B35 - 1 - m
  }

  lemma ComplementPlusOne(m: Mag)
    ensures MagOf(Complement(m)) == Rippled(m, false)
    ensures (MagOf(Complement(m)) + 1) % B35 == Rippled(m, true)
    ensures MagOf(Complement(m)) == B35 - 1 <==> m == 0
  {
  }

  // The carry goes through exactly the limbs that were zero.
  lemma RippleNegates(m0: Mag, m1: Mag, m2: Mag, m3: Mag)
    ensures var r0, r1, r2, r3 := Rippled(m0, m3 == 0 && m2 == 0 && m1 == 0), Rippled(m1, m3 == 0 && m2 == 0),
                                  Rippled(m2, m3 == 0), Rippled(m3, true);
            var m := Joined(m0, m1, m2, m3);
            Joined(r0, r1, r2, r3) == if m == 0 then 0 else B140 - m
  {
  }

  function Joined(m0: Mag, m1: Mag, m2: Mag, m3: Mag): nat
  {
    ((m0 * B35 + m1) * B35 + m2) * B35 + m3
  }

  lemma SetSignKeepsMagnitude(q: W144, negative: bool)
    ensures Make144(q.w0, q.w1, q.w2, q.w3) == SetSign(q, Negative(q.w0))
    ensures Magnitude(SetSign(q, negative)) == Magnitude(q)
              == Joined(MagOf(q.w0), MagOf(q.w1), MagOf(q.w2), MagOf(q.w3))
    ensures Uniform(SetSign(q, negative)) && Negative(SetSign(q, negative).w0) == negative
  {
  }

  // Two 70-bit magnitudes and a sign, spread over the four words (src/word.cpp:197-204)
  function FromMags(mag0: nat, mag1: nat, negative: bool): W144
  {
    Make144(FromMag(mag0 / B35 % B35, negative), FromMag(mag0 % B35, negative),
            FromMag(mag1 / B35 % B35, negative), FromMag(mag1 % B35, negative))
  }

  // `lowerU70` and `upperU70` (src/word.cpp:393-399)
  function LowerU70(q: W144): nat { BitOr(Shl(MagOf(q.w2), 35), MagOf(q.w3)) }
  function UpperU70(q: W144): nat { BitOr(Shl(MagOf(q.w0), 35), MagOf(q.w1)) }

  lemma JoinedHalves(hi: Mag, lo: Mag)
    ensures BitOr(Shl(hi, 35), lo) == hi * B35 + lo
  {
    hide BitOr, Shl, Pow2;
    PowersOf2();
    OrDisjoint(hi, lo, 35);
    ShlIsMul(hi, 35);
  }

  // Spreading out and reading back are inverse, both ways.
  lemma FromMagsRoundTrip(mag0: nat, mag1: nat, negative: bool)
    requires mag0 < B70 && mag1 < B70
    ensures var q := FromMags(mag0, mag1, negative);
            && UpperU70(q) == mag0 && LowerU70(q) == mag1
            && Uniform(q) && Negative(q.w0) == negative && Magnitude(q) == mag0 * B70 + mag1
  {
    hide BitOr, Shl;
    JoinedHalves(mag0 / B35, mag0 % B35);
    JoinedHalves(mag1 / B35, mag1 % B35);
  }

  lemma PairParts(hi: Mag, lo: Mag)
    ensures (hi * B35 + lo) / B35 % B35 == hi && (hi * B35 + lo) % B35 == lo && hi * B35 + lo < B70
  {
  }

  lemma WordParts(w: Word)
    ensures FromMag(MagOf(w), Negative(w)) == w
  {
  }

  lemma ReadBackRoundTrip(q: W144)
    requires Uniform(q)
    ensures UpperU70(q) < B70 && LowerU70(q) < B70
    ensures FromMags(UpperU70(q), LowerU70(q), Negative(q.w0)) == q
    ensures Magnitude(q) == UpperU70(q) * B70 + LowerU70(q)
  {
    hide BitOr, Shl, MagOf, Negative, FromMag;
    JoinedHalves(MagOf(q.w0), MagOf(q.w1));
    JoinedHalves(MagOf(q.w2), MagOf(q.w3));
    PairParts(MagOf(q.w0), MagOf(q.w1));
    PairParts(MagOf(q.w2), MagOf(q.w3));
    WordParts(q.w0);
    WordParts(q.w1);
    WordParts(q.w2);
    WordParts(q.w3);
  }

  // The word quadruple of a given magnitude and sign
  function OfMagnitude(m: nat, negative: bool): W144
  {
    FromMags(m / B70, m % B70, negative)
  }

  lemma OfMagnitudeUnique(q: W144)
    requires Uniform(q)
    ensures OfMagnitude(Magnitude(q), Negative(q.w0)) == q
  {
    hide UpperU70, LowerU70, FromMags, Uniform, Negative, Magnitude;
    ReadBackRoundTrip(q);
  }

  // What `negate` computes: the magnitude taken from 2^140 (modulo 2^140), the sign flipped
  function Negated(q: W144): W144
  {
    OfMagnitude(if Magnitude(q) == 0 then 0 else B140 - Magnitude(q), !Negative(q.w0))
  }

  // Complement every limb, add one at the bottom and let the carry ripple up.
  method Negate(q: W144) returns (r: W144)
    ensures r == Negated(q)
  {
    hide *;
    ghost var m0, m1, m2, m3 := MagOf(q.w0), MagOf(q.w1), MagOf(q.w2), MagOf(q.w3);
    ComplementPlusOne(m0);
    ComplementPlusOne(m1);
    ComplementPlusOne(m2);
    ComplementPlusOne(m3);
    var r3 := new W36(Complement(MagOf(q.w3)));
    var r2 := new W36(Complement(MagOf(q.w2)));
    var r1 := new W36(Complement(MagOf(q.w1)));
    var r0 := new W36(Complement(MagOf(q.w0)));
    var carry := r3.IncMag();
    if carry {
      carry := r2.IncMag();
      if carry {
        carry := r1.IncMag();
        if carry {
          carry := r0.IncMag();
        }
      }
    }
    assert MagOf(r3.u) == Rippled(m3, true) && MagOf(r2.u) == Rippled(m2, m3 == 0);
    assert MagOf(r1.u) == Rippled(m1, m3 == 0 && m2 == 0);
    assert MagOf(r0.u) == Rippled(m0, m3 == 0 && m2 == 0 && m1 == 0);
    r := SetSign(Make144(r0.u, r1.u, r2.u, r3.u), !Negative(q.w0));
    NegatedFromRipple(q, W144(r0.u, r1.u, r2.u, r3.u), r);
  }

  lemma NegatedFromRipple(q: W144, c: W144, r: W144)
    requires MagOf(c.w3) == Rippled(MagOf(q.w3), true)
    requires MagOf(c.w2) == Rippled(MagOf(q.w2), MagOf(q.w3) == 0)
    requires MagOf(c.w1) == Rippled(MagOf(q.w1), MagOf(q.w3) == 0 && MagOf(q.w2) == 0)
    requires MagOf(c.w0) == Rippled(MagOf(q.w0), MagOf(q.w3) == 0 && MagOf(q.w2) == 0 && MagOf(q.w1) == 0)
    requires r == SetSign(Make144(c.w0, c.w1, c.w2, c.w3), !Negative(q.w0))
    ensures r == Negated(q)
  {
    hide MagOf, Negative, Rippled, SetSign, Make144, Magnitude, OfMagnitude, Uniform, Joined;
    RippleNegates(MagOf(q.w0), MagOf(q.w1), MagOf(q.w2), MagOf(q.w3));
    SetSignKeepsMagnitude(q, false);
    SetSignKeepsMagnitude(c, Negative(c.w0));
    SetSignKeepsMagnitude(Make144(c.w0, c.w1, c.w2, c.w3), !Negative(q.w0));
    OfMagnitudeUnique(r);
  }

  lemma OfMagnitudeParts(m: nat, negative: bool)
    requires m < B140
    ensures var q := OfMagnitude(m, negative);
            Uniform(q) && Magnitude(q) == m && Negative(q.w0) == negative
  {
    hide Magnitude, Uniform, Negative, UpperU70, LowerU70, FromMags;
    FromMagsRoundTrip(m / B70, m % B70, negative);
  }

  // `negate` is an involution ...
  lemma NegateInvolution(q: W144)
    requires Uniform(q)
    ensures Negated(Negated(q)) == q
  {
    hide Magnitude, Uniform, Negative, OfMagnitude;
    MagnitudeBound(q);
    var m := Magnitude(q);
    OfMagnitudeParts(if m == 0 then 0 else B140 - m, !Negative(q.w0));
    OfMagnitudeUnique(q);
  }

  // ... and two's-complement negation exactly when the magnitude is not zero: zero is taken to
  // -2^140, and -2^140 to zero.
  lemma NegateNegatesIff(q: W144)
    ensures SignedValue(Negated(q)) == -SignedValue(q) <==> Magnitude(q) != 0
  {
    hide Magnitude, Uniform, Negative, OfMagnitude;
    MagnitudeBound(q);
    var m := Magnitude(q);
    OfMagnitudeParts(if m == 0 then 0 else B140 - m, !Negative(q.w0));
  }

  // ----- product (src/word.cpp:321-390) -----

  datatype W72 = W72(hi: Word, lo: Word)

  // The 70 magnitude bits, and the two's-complement value of the pair
  function Mag70(a: W72): nat { MagOf(a.hi) * B35 + MagOf(a.lo) }
  function Value72(a: W72): int { if Negative(a.hi) then Mag70(a) - B70 else Mag70(a) }

  // A product under a name, so that proofs can hide the multiplication
  function Times(x: nat, y: nat): nat { x * y }

  // What `product` computes: the product of the two raw magnitudes, negated when the signs differ
  function ProductOf(a: W72, b: W72): W144
  {
    var p := OfMagnitude(Times(Mag70(a), Mag70(b)), false);
    if Negative(a.hi) != Negative(b.hi) then Negated(p) else p
  }

  // The four partial products make up the whole; every partial sum stays below 2^140.
  lemma Schoolbook(aHi: Mag, aLo: Mag, bHi: Mag, bLo: Mag)
    ensures Times(aHi * B35 + aLo, bHi * B35 + bLo)
         == Times(aLo, bLo) + Times(aHi, bLo) * B35 + Times(aLo, bHi) * B35 + Times(aHi, bHi) * B70
    ensures Times(aHi * B35 + aLo, bHi * B35 + bLo) < B140
    ensures Times(aLo, bLo) < B70 && Times(aHi, bLo) < B70 && Times(aLo, bHi) < B70 && Times(aHi, bHi) < B70
  {
    MagProduct(aLo, bLo);
    MagProduct(aHi, bLo);
    MagProduct(aLo, bHi);
    MagProduct(aHi, bHi);
    var x, y := aHi * B35, bHi * B35;
    assert (x + aLo) * (y + bLo) == x * y + x * bLo + aLo * y + aLo * bLo;
    assert x * bLo == aHi * bLo * B35 && aLo * y == aLo * bHi * B35;
    assert x * y == aHi * bHi * B70;
  }

  lemma MagProduct(x: Mag, y: Mag)
    ensures 0 <= x * y <= (B35 - 1) * (B35 - 1)
  {
    MulLe(x, y, B35 - 1);
    MulLe(B35 - 1, x, B35 - 1);
  }

  // A shift of a small number in the accumulator is a plain multiplication.
  lemma SmallShift(x: nat, n: nat)
    requires n == 0 || n == 35 || n == 70
    requires x < B70
    ensures Low(Shl(Pair128(0, x), n), 256) == x * (if n == 0 then 1 else if n == 35 then B35 else B70)
  {
    hide Low, Shl, Pow2;
    PowersOf2();
    Pair128IsSum(0, x);
    ShlIsMul(x, n);
    PowerOf0();
    SmallInAccumulator(Shl(x, n));
  }

  lemma SmallInAccumulator(x: nat)
    requires x < B140
    ensures Low(x, 256) == x
  {
    hide Low, Pow2;
    PowersOf2();
    Pow2Add(128, 128);
    LowSmall(x, 256);
  }

  // Reading the 140 bits back out of the accumulator
  lemma Accumulated(hi: U128, lo: U128, sHi: U128, sLo: U128, p: nat)
    requires p < B140 && Pair128(hi, lo) == p && Pair128(sHi, sLo) == Shr(p, 70)
    ensures sLo == p / B70 && BitAnd(lo, B70 - 1) == p % B70
  {
    hide Low, Shl, Shr, Pow2, BitAnd, Pair128;
    PowersOf2();
    Pair128IsSum(hi, lo);
    Pair128IsSum(sHi, sLo);
    ShrIsDiv(p, 70);
    AndMask(lo, 70);
    LowIsMod(lo, 70);
    assert B128 == 0x400_0000_0000_0000 * B70;
    assert p / B70 < B70;
    assert p == B70 * (0x400_0000_0000_0000 * hi + lo / B70) + lo % B70;
  }

  // One step of the accumulation
  method AddPartial(p: W256, partial: nat, n: nat)
    requires partial < B70 && (n == 35 || n == 70)
    requires p.Val() + partial * (if n == 35 then B35 else B70) < B140
    modifies p
    ensures p.Val() == old(p.Val()) + partial * (if n == 35 then B35 else B70)
  {
    hide Low, Shl, Pow2, Pair128;
    var t := new W256(partial, 0);
    t.ShlAssign(n);
    SmallShift(partial, n);
    p.AddAssign(t);
    SmallInAccumulator(old(p.Val()) + partial * (if n == 35 then B35 else B70));
  }

  // The accumulation: four partial products into a 256-bit sum, then its upper and lower 70 bits
  method Multiply(aHi: Mag, aLo: Mag, bHi: Mag, bLo: Mag) returns (r: W144)
    ensures r == OfMagnitude(Times(aHi * B35 + aLo, bHi * B35 + bLo), false)
  {
    hide Low, Shl, Shr, Pow2, BitAnd, Pair128, FromMags, Times;
    Schoolbook(aHi, aLo, bHi, bLo);
    var p256 := new W256(Times(aLo, bLo), 0);
    p256.ShlAssign(0);
    SmallShift(Times(aLo, bLo), 0);
    AddPartial(p256, Times(aHi, bLo), 35);
    AddPartial(p256, Times(aLo, bHi), 35);
    AddPartial(p256, Times(aHi, bHi), 70);
    var shifted := new W256(p256.lo, p256.hi);
    shifted.ShrAssign(70);
    Accumulated(p256.hi, p256.lo, shifted.hi, shifted.lo, p256.Val());
    var hi70, lo70 := shifted.lo, BitAnd(p256.lo, B70 - 1);
    r := FromMags(hi70, lo70, false);
  }

  lemma NothingAdded(hi: Mag, lo: Mag)
    ensures ToWord(hi + lo / B35) == hi
  {
  }

  method Product(a: W72, b: W72) returns (r: W144)
    ensures r == ProductOf(a, b)
  {
    hide OfMagnitude, Negated, Times, MagOf, Negative, ToWord;
    var aSign, bSign := Negative(a.hi), Negative(b.hi);
    var aAbsLo: Word, aAbsHi: Word := MagOf(a.lo), MagOf(a.hi);
    if aSign {
      // The results of both `negate()` calls are discarded; what is added is always zero.
      NothingAdded(aAbsHi, aAbsLo);
      aAbsHi := ToWord(aAbsHi + aAbsLo / B35);
    }
    var bAbsLo: Word, bAbsHi: Word := MagOf(b.lo), MagOf(b.hi);
    if bSign {
      NothingAdded(bAbsHi, bAbsLo);
      bAbsHi := ToWord(bAbsHi + bAbsLo / B35);
    }
    r := Multiply(aAbsHi, aAbsLo, bAbsHi, bAbsLo);
    if aSign != bSign {
      r := Negate(r);
    }
  }

  // The operands whose product comes out right: two that are not negative; one negative that is
  // -2^69 against a positive one; two negatives whose magnitude fields add up to 2^70.
  predicate ProductIsExact(a: W72, b: W72)
  {
    if !Negative(a.hi) && !Negative(b.hi) then true
    else if Negative(a.hi) && Negative(b.hi) then Mag70(a) + Mag70(b) == B70
    else if Negative(a.hi) then Mag70(a) == B70 / 2 && Mag70(b) != 0
    else Mag70(b) == B70 / 2 && Mag70(a) != 0
  }

  // The value of what `product` returns, over the raw magnitudes
  lemma ProductValue(a: W72, b: W72)
    ensures Mag70(a) < B70 && Mag70(b) < B70 && 0 <= Times(Mag70(a), Mag70(b)) < B140
    ensures SignedValue(ProductOf(a, b)) ==
            if Negative(a.hi) == Negative(b.hi) then Times(Mag70(a), Mag70(b))
            else if Times(Mag70(a), Mag70(b)) == 0 then 0 - B140
            else 0 - Times(Mag70(a), Mag70(b))
  {
    hide OfMagnitude, Magnitude, Times, MagOf, Negative, Uniform;
    Schoolbook(MagOf(a.hi), MagOf(a.lo), MagOf(b.hi), MagOf(b.lo));
    var m := Times(Mag70(a), Mag70(b));
    OfMagnitudeParts(m, false);
    OfMagnitudeParts(if m == 0 then 0 else B140 - m, true);
  }

  // (x - 2^70) * y and (x - 2^70) * (y - 2^70), over the magnitudes
  lemma SignedProducts(x: nat, y: nat)
    ensures (x - B70) * y == Times(x, y) - B70 * y
    ensures x * (y - B70) == Times(x, y) - B70 * x
    ensures (x - B70) * (y - B70) == Times(x, y) - B70 * (x + y) + B140
    ensures Times(x, y) == 0 <==> x == 0 || y == 0
    ensures y > 0 && x != B70 / 2 ==> 2 * Times(x, y) != B70 * y
    ensures x > 0 && y != B70 / 2 ==> 2 * Times(x, y) != B70 * x
    ensures 2 * Times(B70 / 2, y) == B70 * y && 2 * Times(x, B70 / 2) == B70 * x
  {
    if y > 0 && x != B70 / 2 {
      NotHalf(x, y);
    }
    if x > 0 && y != B70 / 2 {
      NotHalf(y, x);
    }
    assert x * y == y * x;
  }

  lemma NotHalf(x: nat, y: nat)
    requires y > 0 && x != B70 / 2
    ensures 2 * (x * y) != B70 * y
  {
    if x < B70 / 2 {
      MulLe(y, x, B70 / 2 - 1);
    } else {
      MulLe(y, B70 / 2 + 1, x);
    }
  }

  // Exactly these operands are multiplied correctly, as signed numbers.
  lemma ProductExactIff(a: W72, b: W72)
    ensures SignedValue(ProductOf(a, b)) == Value72(a) * Value72(b) <==> ProductIsExact(a, b)
  {
    hide SignedValue, ProductOf, Negative, Mag70, Times;
    ProductValue(a, b);
    SignedProducts(Mag70(a), Mag70(b));
    assert !Negative(a.hi) && !Negative(b.hi) ==> Value72(a) * Value72(b) == Times(Mag70(a), Mag70(b)) by {
      TimesIsProduct(Mag70(a), Mag70(b));
    }
  }

  lemma TimesIsProduct(x: nat, y: nat)
    ensures Times(x, y) == x * y
  {
  }

  // -1 times 1: the magnitude field of -1 is 2^70 - 1, and that is what is multiplied and negated.
  lemma ProductCounterexample()
    ensures var a, b := W72(B36 - 1, B36 - 1), W72(0, 1);
            Value72(a) == -1 && Value72(b) == 1 && SignedValue(ProductOf(a, b)) == 1 - B70
  {
    hide SignedValue, ProductOf, Times;
    var a, b := W72(B36 - 1, B36 - 1), W72(0, 1);
    assert Mag70(a) == B70 - 1 && Mag70(b) == 1;
    ProductValue(a, b);
    TimesIsProduct(Mag70(a), Mag70(b));
  }
}
