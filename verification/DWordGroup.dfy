/** DADD, DSUB, DMUL and DDIV (src/i-dword.cpp:6-64, 76-168).  A double word is a 71-bit two's-complement
    number: the 36 bits of the high word above the 35 magnitude bits of the low word, whose own sign
    bit is ignored on input and a copy of the high one on output. */
module DWordGroup {
  import opened Bits
  import opened Words
  import opened EffectiveAddress
  import opened Machine
  import opened Wide
  import opened LongDivision

  function Number71(hi: Word, lo: Word): (v: nat)
    ensures v < B71
  {
    hi * B35 + MagOf(lo)
  }

  function Hi71(v: nat): Word { v / B35 % B36 }
  function Lo71(v: nat): Word { FromMag(v % B35, Negative(Hi71(v))) }

  function Signed71(v: nat): int { if v < B70 then v else v - B71 }

  // Storing a 71-bit number in two accumulators
  function PutPair(s: Space, n: nat, v: nat): Space
    requires n < 15
  {
    s[n := Hi71(v)][n + 1 := Lo71(v)]
  }

  // The two operands of a double-word instruction
  function AcPair(c: Cpu): nat
    requires AcOf(c.iw) < 15
  {
    Number71(c.space[AcOf(c.iw)], c.space[AcOf(c.iw) + 1])
  }

  function MemPair(c: Cpu): nat
  {
    Number71(c.space[c.ea % B18], c.space[(c.ea + 1) % B18])
  }

  // Addition with a carry in: the sum, and the carries out of bit 70 and out of bit 69 into it
  function Sum(a: nat, b: nat, carry: nat): (s: nat)
    ensures s < B71
  {
    (a + b + carry) % B71
  }

  predicate CarriesOut(a: nat, b: nat, carry: nat) { a + b + carry >= B71 }
  predicate CarriesInto(a: nat, b: nat, carry: nat) { a % B70 + b % B70 + carry >= B70 }

  // What adding b and a carry in to the accumulator pair does
  function Added(c: Cpu, b: nat, carry: nat): (Cpu, IResult)
    requires AcOf(c.iw) < 15
  {
    var a := AcPair(c);
    var out, into := CarriesOut(a, b, carry), CarriesInto(a, b, carry);
    (c.(space := PutPair(c.space, AcOf(c.iw), Sum(a, b, carry)), flags := CarryFlags(c.flags, out, into)),
     CarryResult(c.flags, out, into))
  }

  function Dadd(c: Cpu): (Cpu, IResult)
    requires AcOf(c.iw) < 15
  {
    Added(c, MemPair(c), 0)
  }

  // Subtraction adds the complement and one.
  function Dsub(c: Cpu): (Cpu, IResult)
    requires AcOf(c.iw) < 15
  {
    Added(c, B71 - 1 - MemPair(c), 1)
  }

  // A high part above a 35-bit low part, cut to 71 and to 70 bits
  lemma CutHigh(h: nat, l: Mag)
    ensures (h * B35 + l) % B71 == h % B36 * B35 + l
    ensures (h * B35 + l) % B70 == h % B35 * B35 + l
  {
    HighLow(h, l, B36, B35);
    HighLow(h, l, B35, B35);
  }

  lemma HighOfCut(h: Word, l: Mag)
    ensures Hi71(h * B35 + l) == h && (h * B35 + l) % B35 == l
  {
  }

  // The sign of a sum of two 36-bit words and a carry from below, and the carries at the sign bit
  lemma SignOfSum(h1: Word, h2: Word, carry: nat)
    requires carry <= 1
    ensures var h := h1 + h2 + carry;
            var into, out := h1 % B35 + h2 % B35 + carry >= B35, h >= B36;
            && CarryIn(Negative(h1), Negative(h2), Negative(ToWord(h))) == into
            && CarryOut(Negative(h1), Negative(h2), Negative(ToWord(h))) == out
  {
  }

  // The sum by words is the 71-bit one, and the three sign bits tell its carries.
  lemma SumByWords(h1: Word, m1: Mag, h2: Word, m2: Mag, carry: nat)
    requires carry <= 1
    ensures var low: nat := m1 + m2 + carry;
            var rHi, a, b := ToWord(h1 + h2 + low / B35), h1 * B35 + m1, h2 * B35 + m2;
            && rHi == Hi71(Sum(a, b, carry)) && low % B35 == Sum(a, b, carry) % B35
            && CarryOut(Negative(h1), Negative(h2), Negative(rHi)) == CarriesOut(a, b, carry)
            && CarryIn(Negative(h1), Negative(h2), Negative(rHi)) == CarriesInto(a, b, carry)
  {
    hide Hi71, CarryOut, CarryIn, Negative;
    var low: nat := m1 + m2 + carry;
    var h: nat := h1 + h2 + low / B35;
    assert h1 * B35 + m1 + (h2 * B35 + m2) + carry == h * B35 + low % B35;
    CutHigh(h, low % B35);
    HighOfCut(h % B36, low % B35);
    CutHigh(h1, m1);
    CutHigh(h2, m2);
    SignOfSum(h1, h2, low / B35);
  }

  lemma MagOfToWord(x: int)
    ensures MagOf(ToWord(x)) == x % B35
  {
  }

  lemma AddByWords(aHi: Word, aLo: Word, bHi: Word, bLo: Word)
    ensures var lo64: nat := MagOf(aLo) + MagOf(bLo);
            var rHi, a, b := ToWord(aHi + bHi + lo64 / B35), Number71(aHi, aLo), Number71(bHi, bLo);
            && rHi == Hi71(Sum(a, b, 0)) && MagOf(ToWord(lo64)) == Sum(a, b, 0) % B35
            && CarryOut(Negative(aHi), Negative(bHi), Negative(rHi)) == CarriesOut(a, b, 0)
            && CarryIn(Negative(aHi), Negative(bHi), Negative(rHi)) == CarriesInto(a, b, 0)
  {
    hide Hi71, Sum, CarryOut, CarryIn, CarriesOut, CarriesInto, Negative, MagOf, ToWord;
    MagOfToWord(MagOf(aLo) + MagOf(bLo));
    SumByWords(aHi, MagOf(aLo), bHi, MagOf(bLo), 0);
  }

  lemma SubtractByWords(aHi: Word, aLo: Word, bHi: Word, bLo: Word)
    ensures var lo64: int := MagOf(aLo) - MagOf(bLo);
            var rHi := ToWord(aHi - bHi - (if lo64 < 0 then 1 else 0));
            var a, b := Number71(aHi, aLo), B71 - 1 - Number71(bHi, bLo);
            && rHi == Hi71(Sum(a, b, 1)) && MagOf(ToWord(lo64)) == Sum(a, b, 1) % B35
            && CarryOut(Negative(aHi), !Negative(bHi), Negative(rHi)) == CarriesOut(a, b, 1)
            && CarryIn(Negative(aHi), !Negative(bHi), Negative(rHi)) == CarriesInto(a, b, 1)
  {
    hide Hi71, Sum, CarryOut, CarryIn, CarriesOut, CarriesInto;
    var l1: Mag, l2: Mag := MagOf(aLo), B35 - 1 - MagOf(bLo);
    SumByWords(aHi, l1, B36 - 1 - bHi, l2, 1);
    var lo64, low: nat := l1 - MagOf(bLo), l1 + l2 + 1;
    ComplementHigh(aHi, bHi, lo64, low);
    assert B71 - 1 - Number71(bHi, bLo) == (B36 - 1 - bHi) * B35 + l2;
  }

  lemma ComplementHigh(aHi: Word, bHi: Word, lo64: int, low: nat)
    requires 0 - B35 < lo64 < B35 && low == lo64 + B35
    ensures ToWord(aHi - bHi - (if lo64 < 0 then 1 else 0)) == ToWord(aHi + (B36 - 1 - bHi) + low / B35)
    ensures MagOf(ToWord(lo64)) == low % B35
    ensures Negative(B36 - 1 - bHi) == !Negative(bHi)
  {
  }

  method DoDADD(m: KM10) returns (r: IResult)
    requires m.Valid() && AcOf(m.iw) < 15
    modifies m`flags, m.AC
    ensures (m.Snapshot(), r) == Dadd(old(m.Snapshot()))
  {
    hide Hi71, CarryOut, CarryIn, CarriesOut, CarriesInto, Sum, Number71, CarryFlags, CarryResult;
    var n := AcOf(m.iw);
    var aHi := m.AcGetN(n);
    var aLo := m.AcGetN(n + 1);
    var bHi := m.MemGetN(m.ea);
    var bLo := m.MemGetN(m.ea + 1);
    var lo64: nat := MagOf(aLo) + MagOf(bLo);
    var hi64: nat := aHi + bHi + lo64 / B35;
    AddByWords(aHi, aLo, bHi, bLo);
    var rHi, rLo := ToWord(hi64), ToWord(lo64);
    r := m.SetADDFlags(Negative(aHi), Negative(bHi), Negative(rHi));
    rLo := FromMag(MagOf(rLo), Negative(rHi));
    m.AcPutN(rHi, n);
    m.AcPutN(rLo, n + 1);
  }

  method DoDSUB(m: KM10) returns (r: IResult)
    requires m.Valid() && AcOf(m.iw) < 15
    modifies m`flags, m.AC
    ensures (m.Snapshot(), r) == Dsub(old(m.Snapshot()))
  {
    hide Hi71, CarryOut, CarryIn, CarriesOut, CarriesInto, Sum, Number71, CarryFlags, CarryResult;
    var n := AcOf(m.iw);
    var aHi := m.AcGetN(n);
    var aLo := m.AcGetN(n + 1);
    var bHi := m.MemGetN(m.ea);
    var bLo := m.MemGetN(m.ea + 1);
    var lo64: int := MagOf(aLo) - MagOf(bLo);
    var hi64: int := (aHi as int) - bHi - (if lo64 < 0 then 1 else 0);
    SubtractByWords(aHi, aLo, bHi, bLo);
    var rHi, rLo := ToWord(hi64), ToWord(lo64);
    r := m.SetSUBFlags(Negative(aHi), Negative(bHi), Negative(rHi));
    rLo := FromMag(MagOf(rLo), Negative(rHi));
    m.AcPutN(rHi, n);
    m.AcPutN(rLo, n + 1);
  }

  lemma PairRoundTrip(v: nat)
    requires v < B71
    ensures Number71(Hi71(v), Lo71(v)) == v
  {
  }

  lemma PartsOf71(a: nat)
    requires a < B71
    ensures a % B70 == if a < B70 then a else a - B70
    ensures Signed71(B71 - 1 - a) == -Signed71(a) - 1
  {
  }

  // The signed sum is exact precisely when the two carries agree; otherwise it is off by 2^71.
  lemma SignedSumIff(a: nat, b: nat, carry: nat)
    requires a < B71 && b < B71 && carry <= 1
    ensures Signed71(Sum(a, b, carry)) == Signed71(a) + Signed71(b) + carry
       <==> CarriesOut(a, b, carry) == CarriesInto(a, b, carry)
  {
    PartsOf71(a);
    PartsOf71(b);
    var s := a + b + carry;
    assert Sum(a, b, carry) == if s < B71 then s else s - B71;
  }

  // In user mode DADD traps exactly when the signed sum of the operands does not fit in 71 bits; and
  // with the trap flags down to begin with, only user mode ever raises them.
  lemma DaddTrapsIff(c: Cpu)
    requires AcOf(c.iw) < 15
    ensures var (d, r) := Dadd(c);
            && AcPair(d) == Sum(AcPair(c), MemPair(c), 0)
            && (r == ITrap <==> USR in c.flags && Signed71(AcPair(d)) != Signed71(AcPair(c)) + Signed71(MemPair(c)))
            && (OV !in c.flags ==> (OV in d.flags <==> r == ITrap))
  {
    hide Hi71, Lo71, Number71, Sum, CarriesOut, CarriesInto, Signed71;
    PairRoundTrip(Sum(AcPair(c), MemPair(c), 0));
    SignedSumIff(AcPair(c), MemPair(c), 0);
  }

  lemma DsubTrapsIff(c: Cpu)
    requires AcOf(c.iw) < 15
    ensures var (d, r) := Dsub(c);
            && AcPair(d) == (AcPair(c) - MemPair(c)) % B71
            && (r == ITrap <==> USR in c.flags && Signed71(AcPair(d)) != Signed71(AcPair(c)) - Signed71(MemPair(c)))
            && (OV !in c.flags ==> (OV in d.flags <==> r == ITrap))
  {
    hide Hi71, Lo71, Number71, CarriesOut, CarriesInto, Signed71;
    SumOfComplement(AcPair(c), MemPair(c));
    PairRoundTrip(Sum(AcPair(c), B71 - 1 - MemPair(c), 1));
    PartsOf71(MemPair(c));
    SignedSumIff(AcPair(c), B71 - 1 - MemPair(c), 1);
  }

  lemma SumOfComplement(a: nat, b: nat)
    requires a < B71 && b < B71
    ensures Sum(a, B71 - 1 - b, 1) == (a - b) % B71
    ensures Sum(Sum(a, b, 0), B71 - 1 - b, 1) == a
  {
  }

  // Subtracting what was added gives the accumulators back, the low sign made equal to the high one,
  // as long as the memory operand is not in those accumulators.
  lemma DsubUndoesDadd(c: Cpu)
    requires AcOf(c.iw) < 15
    requires c.ea % B18 !in {AcOf(c.iw), AcOf(c.iw) + 1} && (c.ea + 1) % B18 !in {AcOf(c.iw), AcOf(c.iw) + 1}
    ensures Dsub(Dadd(c).0).0.space == PutPair(c.space, AcOf(c.iw), AcPair(c))
  {
    hide Hi71, Lo71, Number71, CarryFlags, CarryResult, Sum;
    var d := Dadd(c).0;
    PairRoundTrip(Sum(AcPair(c), MemPair(c), 0));
    SumOfComplement(AcPair(c), MemPair(c));
    assert MemPair(d) == MemPair(c);
  }

  // ----- DMUL -----

  function PutQuad(s: Space, n: nat, q: W144): Space
    requires n < 13
  {
    s[n := q.w0][n + 1 := q.w1][n + 2 := q.w2][n + 3 := q.w3]
  }

  function AcOperand(c: Cpu): W72
    requires AcOf(c.iw) < 15
  {
    W72(c.space[AcOf(c.iw)], c.space[AcOf(c.iw) + 1])
  }

  function MemOperand(c: Cpu): W72
  {
    W72(c.space[c.ea % B18], c.space[(c.ea + 1) % B18])
  }

  predicate IsMaxNeg(a: W72) { Negative(a.hi) && Mag70(a) == 0 }
  predicate IsZero(a: W72) { !Negative(a.hi) && Mag70(a) == 0 }

  // The four words DMUL stores, its flags and its outcome
  function DmulQuad(a: W72, b: W72): W144
  {
    if IsMaxNeg(a) && IsMaxNeg(b) then OfMagnitude(0, true)
    else if IsZero(a) || IsZero(b) then OfMagnitude(0, false)
    else ProductOf(a, b)
  }

  function Dmul(c: Cpu): (Cpu, IResult)
    requires AcOf(c.iw) < 13
  {
    var a, b := AcOperand(c), MemOperand(c);
    var bothMaxNeg := IsMaxNeg(a) && IsMaxNeg(b);
    (c.(space := PutQuad(c.space, AcOf(c.iw), DmulQuad(a, b)),
        flags := if bothMaxNeg && USR !in c.flags then c.flags + {TR1, OV} else c.flags),
     if bothMaxNeg && USR in c.flags then ITrap else INormal)
  }

  method DoDMUL(m: KM10) returns (r: IResult)
    requires m.Valid() && AcOf(m.iw) < 13
    modifies m`flags, m.AC
    ensures (m.Snapshot(), r) == Dmul(old(m.Snapshot()))
  {
    hide ProductOf, MagOf, Negative, OfMagnitude, FromMag;
    var n := AcOf(m.iw);
    var aHi := m.AcGetN(n);
    var aLo := m.AcGetN(n + 1);
    var bHi := m.MemGetN(m.ea);
    var bLo := m.MemGetN(m.ea + 1);
    var a, b := W72(aHi, aLo), W72(bHi, bLo);
    ZeroFields(a);
    ZeroFields(b);
    ConstantQuads();
    if Negative(a.hi) && MagOf(a.hi) == 0 && MagOf(a.lo) == 0
      && Negative(b.hi) && MagOf(b.hi) == 0 && MagOf(b.lo) == 0 {
      var big1 := FromMag(0, true);
      if USR !in m.flags {
        m.flags := m.flags + {TR1, OV};
      }
      PutFour(m, W144(big1, big1, big1, big1));
      r := if USR in m.flags then ITrap else INormal;
    } else if (!Negative(a.hi) && MagOf(a.hi) == 0 && MagOf(a.lo) == 0)
        || (!Negative(b.hi) && MagOf(b.hi) == 0 && MagOf(b.lo) == 0) {
      PutFour(m, W144(0, 0, 0, 0));
      r := INormal;
    } else {
      var prod := Product(a, b);
      PutFour(m, prod);
      r := INormal;
    }
  }

  method PutFour(m: KM10, q: W144)
    requires m.Valid() && AcOf(m.iw) < 13
    modifies m.AC
    ensures m.Space() == PutQuad(old(m.Space()), AcOf(m.iw), q)
  {
    m.AcPutN(q.w0, AcOf(m.iw));
    m.AcPutN(q.w1, AcOf(m.iw) + 1);
    m.AcPutN(q.w2, AcOf(m.iw) + 2);
    m.AcPutN(q.w3, AcOf(m.iw) + 3);
  }

  lemma ZeroFields(a: W72)
    ensures Mag70(a) == 0 <==> MagOf(a.hi) == 0 && MagOf(a.lo) == 0
  {
  }

  lemma ConstantQuads()
    ensures OfMagnitude(0, true) == W144(FromMag(0, true), FromMag(0, true), FromMag(0, true), FromMag(0, true))
    ensures OfMagnitude(0, false) == W144(0, 0, 0, 0)
  {
  }

  // DMUL stores the exact signed product of its operands for exactly these pairs.
  lemma DmulExactIff(a: W72, b: W72)
    ensures SignedValue(DmulQuad(a, b)) == Value72(a) * Value72(b)
       <==> IsZero(a) || IsZero(b) || ProductIsExact(a, b)
  {
    hide SignedValue, ProductOf, OfMagnitude, MagOf, Negative;
    ProductExactIff(a, b);
    ConstantValues();
    if IsZero(a) || IsZero(b) {
      assert Value72(a) == 0 || Value72(b) == 0;
    } else if IsMaxNeg(a) && IsMaxNeg(b) {
      assert Value72(a) == 0 - B70 && Value72(b) == 0 - B70;
    }
  }

  lemma ConstantValues()
    ensures SignedValue(OfMagnitude(0, true)) == 0 - B140 && SignedValue(OfMagnitude(0, false)) == 0
  {
    hide OfMagnitude, Magnitude;
    OfMagnitudeParts(0, true);
    OfMagnitudeParts(0, false);
  }

  // ----- DDIV -----

  // `W72::toMag`: the high word is shifted in 64 bits, so that its six highest bits are lost.
  function ToMag(a: W72): nat { BitOr(MagOf(a.lo), Low(Shl(MagOf(a.hi), 35), 64)) }

  // `W72::fromMag`: 64 bits, the lower 35 of them in the high word
  function FromMag72(mag: nat, negative: bool): W72
  {
    W72(FromMag(Low(mag, 64) % B35, negative), FromMag(Shr(Low(mag, 64), 35) % B35, negative))
  }

  lemma ToMagIsLow(a: W72)
    ensures ToMag(a) == Mag70(a) % B64 < B64
  {
    hide Low, Shl, BitOr, Pow2, MagOf;
    PowersOf2();
    var hi: Mag, lo: Mag := MagOf(a.hi), MagOf(a.lo);
    LowOfSplit(hi, 0, 35, 29);
    OrComm(lo, Low(Shl(hi, 35), 64));
    OrDisjoint(Low(hi, 29), lo, 35);
    ShlIsMul(hi, 35);
    LowOfSplit(hi, lo, 35, 29);
    LowIsMod(Shl(hi, 35) + lo, 64);
  }

  function DividendQuad(c: Cpu): W144
    requires AcOf(c.iw) < 13
  {
    var n := AcOf(c.iw);
    Make144(c.space[n], c.space[n + 1], c.space[n + 2], c.space[n + 3])
  }

  // The guard lets only dividends below the divisor through; what is left of the division is a zero
  // quotient and, from the second of its three steps, a zero remainder.  The sign of the dividend is
  // read from a field that is never set, and so is a parameter here.
  function Ddiv(c: Cpu, denNegative: bool): (Cpu, IResult)
    requires AcOf(c.iw) < 13
  {
    var n, b := AcOf(c.iw), MemOperand(c);
    if Magnitude(DividendQuad(c)) >= ToMag(b) then (c.(flags := c.flags + {TR1, OV, NDV}), ITrap)
    else
      var q, r := FromMag(0, denNegative != Negative(b.hi)), FromMag(0, denNegative);
      (c.(space := PutQuad(c.space, n, W144(q, q, r, r))), INormal)
  }

  method DoDDIV(m: KM10, denNegative: bool) returns (r: IResult)
    requires m.Valid() && AcOf(m.iw) < 13
    modifies m`flags, m.AC
    ensures (m.Snapshot(), r) == Ddiv(old(m.Snapshot()), denNegative)
  {
    hide Make144, MagOf, Negative, FromMag, ToMag, LowerU70, UpperU70, FromMag72, Magnitude, KM10.Space;
    var n := AcOf(m.iw);
    var a0 := m.AcGetN(n);
    var a1 := m.AcGetN(n + 1);
    var a2 := m.AcGetN(n + 2);
    var a3 := m.AcGetN(n + 3);
    var den := Make144(a0, a1, a2, a3);
    var dHi := m.MemGetN(m.ea);
    var dLo := m.MemGetN(m.ea + 1);
    var div := ToMag(W72(dHi, dLo));
    OneSign(a0, a1, a2, a3);
    GuardIsCompare(den, div, W72(dHi, dLo));
    if UpperU70(den) != 0 || LowerU70(den) >= div {
      m.flags := m.flags + {TR1, OV, NDV};
      r := ITrap;
    } else {
      var quo, rem := DivideSmall(LowerU70(den), UpperU70(den), div);
      var quo72, rem72 := FromMag72(quo, denNegative != Negative(dHi)), FromMag72(rem, denNegative);
      NothingFromMag(denNegative != Negative(dHi));
      NothingFromMag(denNegative);
      PutFour(m, W144(quo72.hi, quo72.lo, rem72.hi, rem72.lo));
      r := INormal;
    }
  }

  // The dividend cut into three 64-bit words, and the three steps
  method DivideSmall(lo70: nat, hi70: nat, div: nat) returns (quo: nat, rem: nat)
    requires hi70 == 0 && lo70 < div < B64
    ensures quo == 0 && rem == 0
  {
    hide Low, Shr, BitOr, Shl, Rem, Quo, Pow2;
    SmallParts(lo70);
    var n0, n1, n2 := Low(lo70, 64), Low(BitOr(hi70, Shr(lo70, 64)), 64), Low(Shr(hi70, 6), 64);
    n2, n1, n0, rem := Udiv192by128(n2, n1, n0, div);
    SmallQuotient(lo70, div);
    quo := BitOr(Shl(n1, 64), n0);
    ShlIsMul(0, 64);
    OrZero(0);
  }

  lemma SmallParts(lo70: nat)
    requires lo70 < B64
    ensures Low(lo70, 64) == lo70 && Low(BitOr(0, Shr(lo70, 64)), 64) == 0 && Low(Shr(0, 6), 64) == 0
  {
    hide Low, Shr, BitOr, Pow2;
    PowersOf2();
    LowSmall(lo70, 64);
    LowSmall(0, 64);
    ShrIsDiv(lo70, 64);
    ShrIsDiv(0, 6);
    OrZero(0);
  }

  lemma SmallQuotient(a: nat, d: nat)
    requires a < d
    ensures Quo(a, d) == 0 && Rem(a, d) == a && Rem(0, d) == 0
  {
    QuoRemUnique(a, d, 0, a);
    QuoRemUnique(0, d, 0, 0);
  }

  lemma GuardIsCompare(den: W144, div: nat, b: W72)
    requires Uniform(den) && div == ToMag(b)
    ensures UpperU70(den) != 0 || LowerU70(den) >= div <==> Magnitude(den) >= div
    ensures div < B64
  {
    hide Magnitude, UpperU70, LowerU70, ToMag, Mag70;
    ToMagIsLow(b);
    ReadBackRoundTrip(den);
  }

  lemma OneSign(a0: Word, a1: Word, a2: Word, a3: Word)
    ensures Uniform(Make144(a0, a1, a2, a3))
  {
  }

  lemma NothingFromMag(negative: bool)
    ensures FromMag72(0, negative) == W72(FromMag(0, negative), FromMag(0, negative))
  {
    hide Low, Shr, Pow2;
    PowersOf2();
    LowSmall(0, 64);
    ShrIsDiv(0, 35);
  }

  // What DDIV leaves: on a trap three flags up and the locations as they were; otherwise the flags as they
  // were and four zero magnitudes, two with the sign of a quotient and two with that of the dividend.
  lemma DdivIs(c: Cpu, denNegative: bool)
    requires AcOf(c.iw) < 13
    ensures var (d, r) := Ddiv(c, denNegative);
            var n, negative := AcOf(c.iw), denNegative != (c.space[c.ea % B18] >= B35);
            && (r == ITrap || r == INormal)
            && (r == ITrap ==> d == c.(flags := c.flags + {TR1, OV, NDV}))
            && (r == INormal ==>
                  && d == c.(space := c.space[n := d.space[n]][n + 1 := d.space[n + 1]]
                                             [n + 2 := d.space[n + 2]][n + 3 := d.space[n + 3]])
                  && d.space[n] == d.space[n + 1] == (if negative then B35 else 0)
                  && d.space[n + 2] == d.space[n + 3] == (if denNegative then B35 else 0))
  {
    hide AcOf, Magnitude, DividendQuad, ToMag;
  }

  // What DDIV is for: no division when the quotient needs more than 70 bits, and otherwise quotient
  // and remainder magnitudes in the two pairs of accumulators
  predicate Divides(m: nat, d: nat, after: Cpu, r: IResult)
    requires AcOf(after.iw) < 13
  {
    if m >= d * B70 then r == ITrap
    else
      var n := AcOf(after.iw);
      var quo := Mag70(W72(after.space[n], after.space[n + 1]));
      var rem := Mag70(W72(after.space[n + 2], after.space[n + 3]));
      r == INormal && m == d * quo + rem && rem < d
  }

  // DDIV does that exactly when there is nothing to divide, in both senses.
  lemma DdivDividesIff(c: Cpu, denNegative: bool)
    requires AcOf(c.iw) < 13
    ensures var m, b, (after, r) := Magnitude(DividendQuad(c)), MemOperand(c), Ddiv(c, denNegative);
            Divides(m, Mag70(b), after, r) <==> m >= Mag70(b) * B70 || (m == 0 && ToMag(b) != 0)
  {
    hide Magnitude, ToMag, Mag70, DividendQuad, Ddiv;
    var m, b := Magnitude(DividendQuad(c)), MemOperand(c);
    ToMagIsLow(b);
    DdivOutcome(c, denNegative);
    assert ToMag(b) <= Mag70(b) <= Mag70(b) * B70;
  }

  lemma DdivOutcome(c: Cpu, denNegative: bool)
    requires AcOf(c.iw) < 13
    ensures var (after, r) := Ddiv(c, denNegative);
            var n := AcOf(c.iw);
            && after.iw == c.iw
            && if Magnitude(DividendQuad(c)) >= ToMag(MemOperand(c)) then r == ITrap
               else r == INormal && Mag70(W72(after.space[n], after.space[n + 1])) == 0
                    && Mag70(W72(after.space[n + 2], after.space[n + 3])) == 0
  {
    hide Magnitude, ToMag, DividendQuad, MagOf, Negative, FromMag, AcOf;
  }

  // 1 divided by 2: DDIV does not trap, and the remainder it stores is zero.
  lemma DdivCounterexample(c: Cpu, denNegative: bool)
    requires AcOf(c.iw) == 0 && c.space[0] == 0 && c.space[1] == 0 && c.space[2] == 0 && c.space[3] == 1
    requires c.ea == 16 && c.space[16] == 0 && c.space[17] == 2
    ensures Magnitude(DividendQuad(c)) == 1 && Mag70(MemOperand(c)) == 2
    ensures var (after, r) := Ddiv(c, denNegative);
            r == INormal && Mag70(W72(after.space[2], after.space[3])) == 0
  {
    hide ToMag, Magnitude, Ddiv, Mag70, Make144, AcOf;
    OneAndTwo();
    ToMagIsLow(W72(0, 2));
    DdivOutcome(c, denNegative);
  }

  lemma OneAndTwo()
    ensures Magnitude(Make144(0, 0, 0, 1)) == 1 && Mag70(W72(0, 2)) == 2
  {
  }
}
