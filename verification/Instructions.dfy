/** What the instructions do, told from the words they find and leave, opcode by opcode
    (src/i-dword.cpp, src/i-intbin.cpp, src/i-jump.cpp). */
module Instructions {
  import opened Bits
  import opened Words
  import opened Wrappers
  import opened EffectiveAddress
  import opened Machine
  import opened JumpGroup
  import opened Emulator
  import Rotation
  import Wide
  import DWordGroup
  import IntBinGroup

  // Only locations, flags and outcome change.
  predicate Calculates(c: Cpu, p: (Cpu, IResult))
  {
    p.0 == c.(space := p.0.space, flags := p.0.flags)
  }

  // The signed count in the right half of the effective address
  function Count(c: Cpu): int { if c.ea % B18 < 0x2_0000 then c.ea % B18 else c.ea % B18 - B18 }

  // ----- DADD and DSUB -----

  // The flags of an addition with these carries out of and into the sign position: CY0 is for the first,
  // CY1 for the second; where they differ, user mode raises OV and TR1 and traps.
  ghost predicate CarriesFlagged(f: Flags, p: (Cpu, IResult), out: bool, into: bool)
  {
    var g, trap := p.0.flags, USR in f && out != into;
    && (CY0 in g <==> CY0 in f || out)
    && (CY1 in g <==> CY1 in f || into)
    && (TR1 in g <==> TR1 in f || trap)
    && (OV in g <==> OV in f || trap)
    && (forall x: Flag :: x !in {CY0, CY1, TR1, OV} ==> (x in g <==> x in f))
    && p.1 == if trap then ITrap else INormal
  }

  // The double word in two locations: 36 bits above the 35 of the second word that are not its sign
  function Double(s: Space, a: nat, b: nat): (v: nat)
    requires a < B18 && b < B18
    ensures v < B71
  {
    s[a] * B35 + s[b] % B35
  }

  // Accumulators n and n + 1 hold this double word, both with its sign; nothing else has changed.
  predicate PairStored(s: Space, t: Space, n: nat, v: int)
    requires n < 15
  {
    Double(t, n, n + 1) == v && (t[n] >= B35 <==> t[n + 1] >= B35) && t == s[n := t[n]][n + 1 := t[n + 1]]
  }

  // 0114: the sum of the two double words modulo 2^71, and the carries out of bits 70 and 69
  lemma DaddIs(other: Handler, c: Cpu)
    requires OpOf(c.iw) == 76 && AcOf(c.iw) < 15
    ensures Completes(c)
    ensures var p, n := Execute(other, c), AcOf(c.iw);
            var a, b := Double(c.space, n, n + 1), Double(c.space, c.ea % B18, (c.ea + 1) % B18);
            && Calculates(c, p) && PairStored(c.space, p.0.space, n, (a + b) % B71)
            && CarriesFlagged(c.flags, p, a + b >= B71, a % B70 + b % B70 >= B70)
  {
    hide OpOf, AcOf, PairStored, DWordGroup.PutPair, Double, CarriesFlagged, CarryFlags, CarryResult;
    var n := AcOf(c.iw);
    SameDouble(c.space, n, n + 1);
    SameDouble(c.space, c.ea % B18, (c.ea + 1) % B18);
    var a, b := DWordGroup.AcPair(c), DWordGroup.MemPair(c);
    PairPut(c.space, n, (a + b) % B71);
    FlagsOfCarries(c, DWordGroup.Dadd(c), DWordGroup.CarriesOut(a, b, 0), DWordGroup.CarriesInto(a, b, 0));
  }

  // 0115: the difference modulo 2^71.  CY0 tells that nothing was borrowed from above the sign position,
  // and CY1 that nothing was borrowed from it.
  lemma DsubIs(other: Handler, c: Cpu)
    requires OpOf(c.iw) == 77 && AcOf(c.iw) < 15
    ensures Completes(c)
    ensures var p, n := Execute(other, c), AcOf(c.iw);
            var a, b := Double(c.space, n, n + 1), Double(c.space, c.ea % B18, (c.ea + 1) % B18);
            && Calculates(c, p) && PairStored(c.space, p.0.space, n, (a - b) % B71)
            && CarriesFlagged(c.flags, p, a >= b, a % B70 >= b % B70)
  {
    hide OpOf, AcOf, PairStored, DWordGroup.PutPair, Double, CarriesFlagged, CarryFlags, CarryResult,
      DWordGroup.CarriesOut, DWordGroup.CarriesInto, DWordGroup.Sum;
    var n := AcOf(c.iw);
    SameDouble(c.space, n, n + 1);
    SameDouble(c.space, c.ea % B18, (c.ea + 1) % B18);
    var a, b := DWordGroup.AcPair(c), DWordGroup.MemPair(c);
    DWordGroup.SumOfComplement(a, b);
    PairPut(c.space, n, (a - b) % B71);
    ComplementCarries(a, b);
    FlagsOfCarries(c, DWordGroup.Dsub(c), DWordGroup.CarriesOut(a, B71 - 1 - b, 1),
                   DWordGroup.CarriesInto(a, B71 - 1 - b, 1));
  }

  lemma SameDouble(s: Space, a: nat, b: nat)
    requires a < B18 && b < B18
    ensures Double(s, a, b) == DWordGroup.Number71(s[a], s[b])
  {
  }

  lemma PairPut(s: Space, n: nat, v: nat)
    requires n < 15 && v < B71
    ensures PairStored(s, DWordGroup.PutPair(s, n, v), n, v)
  {
    hide DWordGroup.Number71, DWordGroup.Hi71, DWordGroup.Lo71, Double;
    var t := DWordGroup.PutPair(s, n, v);
    SameDouble(t, n, n + 1);
    DWordGroup.PairRoundTrip(v);
    LowSign(v);
    assert t == s[n := t[n]][n + 1 := t[n + 1]];
  }

  lemma LowSign(v: nat)
    ensures DWordGroup.Lo71(v) >= B35 <==> DWordGroup.Hi71(v) >= B35
  {
  }

  lemma ComplementCarries(a: nat, b: nat)
    requires a < B71 && b < B71
    ensures DWordGroup.CarriesOut(a, B71 - 1 - b, 1) <==> a >= b
    ensures DWordGroup.CarriesInto(a, B71 - 1 - b, 1) <==> a % B70 >= b % B70
  {
    DWordGroup.PartsOf71(a);
    DWordGroup.PartsOf71(b);
    DWordGroup.PartsOf71(B71 - 1 - b);
  }

  lemma FlagsOfCarries(c: Cpu, p: (Cpu, IResult), out: bool, into: bool)
    requires p.0.flags == CarryFlags(c.flags, out, into) && p.1 == CarryResult(c.flags, out, into)
    ensures CarriesFlagged(c.flags, p, out, into)
  {
  }

  // ----- DMUL -----

  // The 140-bit number in four accumulators, and its two's-complement value by the first sign
  function Quad(s: Space, n: nat): nat
    requires n < 13
  {
    ((s[n] % B35 * B35 + s[n + 1] % B35) * B35 + s[n + 2] % B35) * B35 + s[n + 3] % B35
  }

  function SignedQuad(s: Space, n: nat): int
    requires n < 13
  {
    if s[n] >= B35 then Quad(s, n) - B70 * B70 else Quad(s, n)
  }

  // The signed value of two words of magnitude and sign
  function SignedDouble(hi: Word, lo: Word): int
  {
    hi % B35 * B35 + lo % B35 - if hi >= B35 then B70 else 0
  }

  // 0116: the four accumulators hold the signed product of the operands, most significant word first and
  // with one sign, for exactly the operands of DmulExactIff.  Two most negative operands raise OV and
  // TR1 in executive mode and trap in user mode.
  lemma DmulIs(other: Handler, c: Cpu)
    requires OpOf(c.iw) == 78 && AcOf(c.iw) < 13
    ensures Completes(c)
    ensures var p, n := Execute(other, c), AcOf(c.iw);
            var a := Wide.W72(c.space[n], c.space[n + 1]);
            var b := Wide.W72(c.space[c.ea % B18], c.space[(c.ea + 1) % B18]);
            var s, big := p.0.space, SignedDouble(a.hi, a.lo) == 0 - B70 && SignedDouble(b.hi, b.lo) == 0 - B70;
            && Calculates(c, p) && s == c.space[n := s[n]][n + 1 := s[n + 1]][n + 2 := s[n + 2]][n + 3 := s[n + 3]]
            && (s[n] >= B35 <==> s[n + 1] >= B35) && (s[n] >= B35 <==> s[n + 2] >= B35)
            && (s[n] >= B35 <==> s[n + 3] >= B35)
            && (SignedQuad(s, n) == SignedDouble(a.hi, a.lo) * SignedDouble(b.hi, b.lo)
                <==> DWordGroup.IsZero(a) || DWordGroup.IsZero(b) || Wide.ProductIsExact(a, b))
            && p.0.flags == (if big && USR !in c.flags then c.flags + {TR1, OV} else c.flags)
            && p.1 == (if big && USR in c.flags then ITrap else INormal)
  {
    hide OpOf, AcOf, Wide.ProductOf, Wide.SignedValue, Wide.ProductIsExact, DWordGroup.DmulQuad, SignedQuad,
      SignedDouble,
      DWordGroup.IsMaxNeg, DWordGroup.IsZero, Wide.Uniform;
    var n := AcOf(c.iw);
    var a, b := DWordGroup.AcOperand(c), DWordGroup.MemOperand(c);
    var q := DWordGroup.DmulQuad(a, b);
    var s := DWordGroup.PutQuad(c.space, n, q);
    DWordGroup.DmulExactIff(a, b);
    SameDoubles(a);
    SameDoubles(b);
    OneSign(a, b);
    QuadStored(c.space, n, q);
  }

  lemma SameDoubles(a: Wide.W72)
    ensures SignedDouble(a.hi, a.lo) == Wide.Value72(a)
    ensures DWordGroup.IsMaxNeg(a) <==> SignedDouble(a.hi, a.lo) == 0 - B70
  {
  }

  lemma QuadStored(s: Space, n: nat, q: Wide.W144)
    requires n < 13
    ensures var t := DWordGroup.PutQuad(s, n, q);
            && t[n] == q.w0 && t[n + 1] == q.w1 && t[n + 2] == q.w2 && t[n + 3] == q.w3
            && t == s[n := t[n]][n + 1 := t[n + 1]][n + 2 := t[n + 2]][n + 3 := t[n + 3]]
            && SignedQuad(t, n) == Wide.SignedValue(q)
  {
  }

  lemma OneSign(a: Wide.W72, b: Wide.W72)
    ensures var q := DWordGroup.DmulQuad(a, b);
            (q.w0 >= B35 <==> q.w1 >= B35) && (q.w0 >= B35 <==> q.w2 >= B35) && (q.w0 >= B35 <==> q.w3 >= B35)
  {
    hide Wide.Times, Wide.Mag70, DWordGroup.IsMaxNeg, DWordGroup.IsZero, MagOf, Wide.Magnitude;
    var m := Wide.Times(Wide.Mag70(a), Wide.Mag70(b));
  }

  // ----- ROT, ROTC, JFFO, BLT -----

  // Bit i of a number, counted from the right
  predicate BitAt(w: nat, i: nat) { w / Pow2(i) % 2 == 1 }

  // Bit i of the one number is the bit of the other that stands `count` places further right, going round.
  ghost predicate Rounded(w: nat, w': nat, width: nat, count: int)
    requires width > 0
  {
    forall i :: 0 <= i < width ==> (BitAt(w', i) <==> BitAt(w, (i - count) % width))
  }

  // 0241: the accumulator goes round to the left by the count.
  lemma RotIs(other: Handler, c: Cpu)
    requires OpOf(c.iw) == 161
    ensures var p, n := Execute(other, c), AcOf(c.iw);
            && p == (c.(space := c.space[n := p.0.space[n]]), INormal)
            && Rounded(c.space[n], p.0.space[n], 36, Count(c))
  {
    hide OpOf, AcOf, Pow2, Digits, Rotation.RotWord, Rotation.Rotated;
    var n, w, w' := AcOf(c.iw), c.space[AcOf(c.iw)], IntBinGroup.Rot(c).space[AcOf(c.iw)];
    CountIsSigned(c);
    Rotation.RotIsRotation(w, Count(c));
    RotatedBits(w, w', 36, Count(c));
  }

  lemma CountIsSigned(c: Cpu)
    ensures Count(c) == Signed18(Rh(c.ea))
  {
  }

  lemma RotatedBits(w: nat, w': nat, width: nat, count: int)
    requires width > 0 && Digits(w', width) == Rotation.Rotated(Digits(w, width), count % width)
    ensures Rounded(w, w', width, count)
  {
    hide Pow2, Digits, BitAt;
    forall i | 0 <= i < width
      ensures BitAt(w', i) <==> BitAt(w, (i - count) % width)
    {
      RotatedBit(w, w', width, count, i);
    }
  }

  lemma RotatedBit(w: nat, w': nat, width: nat, count: int, i: nat)
    requires i < width && Digits(w', width) == Rotation.Rotated(Digits(w, width), count % width)
    ensures BitAt(w', i) <==> BitAt(w, (i - count) % width)
  {
    hide Pow2, Digits;
    var k := count % width;
    var j := if i >= k then i - k else i - k + width;
    DigitAt(w', width, i);
    DigitAt(w, width, j);
    IndexAround(i, count, width);
    assert Digits(w', width)[i] == Digits(w, width)[j];
  }

  lemma IndexAround(i: nat, count: int, width: nat)
    requires i < width
    ensures var k := count % width; (i - count) % width == if i >= k then i - k else i - k + width
  {
    var k, q := count % width, count / width;
    assert count == width * q + k;
    if i >= k {
      assert i - count == width * (0 - q) + (i - k);
      ModOfMultiple(0 - q, i - k, width);
    } else {
      assert i - count == width * (0 - q - 1) + (i - k + width) by {
        assert width * (0 - q - 1) == width * (0 - q) - width;
      }
      ModOfMultiple(0 - q - 1, i - k + width, width);
    }
  }

  // 0245: the same for the 72 bits of two accumulators, the first above the second
  lemma RotcIs(other: Handler, c: Cpu)
    requires OpOf(c.iw) == 165 && AcOf(c.iw) < 15
    ensures Completes(c)
    ensures var p, n := Execute(other, c), AcOf(c.iw);
            var s := p.0.space;
            && p == (c.(space := c.space[n := s[n]][n + 1 := s[n + 1]]), INormal)
            && Rounded(c.space[n] * B36 + c.space[n + 1], s[n] * B36 + s[n + 1], 72, Count(c))
  {
    hide OpOf, AcOf, Pow2, Digits, Shl, Rotation.RotPair, Rotation.Rotated, Rotation.RotPairHi, Rotation.RotPairLo;
    var n, d := AcOf(c.iw), IntBinGroup.Rotc(c);
    var a, a' := IntBinGroup.AcPair72(c), IntBinGroup.AcPair72(d);
    CountIsSigned(c);
    PairNumber(c.space[n], c.space[n + 1]);
    PairNumber(d.space[n], d.space[n + 1]);
    IntBinGroup.RotcPair(c);
    Rotation.RotcIsRotation(a, Count(c));
    RotatedBits(a, a', 72, Count(c));
  }

  lemma PairNumber(hi: Word, lo: Word)
    ensures Shl(hi, 36) + lo == hi * B36 + lo
  {
    hide Shl, Pow2;
    PowersOf2();
    ShlIsMul(hi, 36);
  }

  // 0243: the number of the first one bit, counted from the left, in the next accumulator
  lemma JffoIs(other: Handler, c: Cpu)
    requires OpOf(c.iw) == 163 && AcOf(c.iw) < 15
    ensures Completes(c)
    ensures var p, w, n := Execute(other, c), c.space[AcOf(c.iw)], AcOf(c.iw);
            var k := p.0.space[n + 1];
            && p.0 == c.(space := c.space[n + 1 := k])
            && p.1 == (if 0 < w < B35 then IJump else INormal)
            && if w == 0 then k == 0 else k < 36 && Pow2(35 - k) <= w < Pow2(36 - k)
  {
    hide OpOf, AcOf, Pow2, IntBinGroup.Shifts;
    IntBinGroup.JffoJumpsIff(c);
  }

  // Where the word for address a of the destination comes from
  function SourceOf(src: nat, dst: nat, a: nat): (r: nat)
    requires a >= dst
    ensures r <= src + (a - dst)
  {
    if dst > src then src + Rest(a - dst, dst - src) else src + (a - dst)
  }

  function Rest(i: nat, d: nat): (r: nat)
    requires d > 0
    ensures r <= i && r == i % d
  {
    i % d
  }

  // 0251: words are moved one by one, so that a destination ahead of its source repeats it
  lemma BltIs(other: Handler, c: Cpu)
    requires OpOf(c.iw) == 169
    requires var n := AcOf(c.iw);
             var src, dst, last := c.space[n] / B18, c.space[n] % B18, c.ea % B18;
             && dst <= last < B18 - 1 && src + (last - dst) < B18
             && !(src <= n <= src + (last - dst)) && !(dst <= n <= last)
    ensures Completes(c)
    ensures var p, n := Execute(other, c), AcOf(c.iw);
            var src, dst, last := c.space[n] / B18, c.space[n] % B18, c.ea % B18;
            && p == (c.(space := p.0.space), INormal)
            && (forall a :: dst <= a <= last ==> p.0.space[a] == c.space[SourceOf(src, dst, a)])
            && (forall a :: 0 <= a < B18 && a != n && !(dst <= a <= last) ==> p.0.space[a] == c.space[a])
            && p.0.space[n] == (src + (last - dst + 1)) % B18 * B18 + (last + 1) % B18
  {
    hide OpOf, AcOf, IntBinGroup.Replicated, IntBinGroup.BltSteps, IntBinGroup.BltCount;
    IntBinGroup.BltTransfers(c);
    var n := AcOf(c.iw);
    var src, dst, last := c.space[n] / B18, c.space[n] % B18, c.ea % B18;
    hide IntBinGroup.Blt, SourceOf;
    forall a | dst <= a <= last
      ensures IntBinGroup.Blt(c).space[a] == c.space[SourceOf(src, dst, a)]
    {
      SourceIs(c.space, src, dst, a - dst);
      assert IntBinGroup.Blt(c).space[dst + (a - dst)] == IntBinGroup.Replicated(c.space, src, dst, a - dst);
    }
  }

  lemma SourceIs(s: Space, src: nat, dst: nat, i: nat)
    requires src + i < B18
    ensures IntBinGroup.Replicated(s, src, dst, i) == s[SourceOf(src, dst, dst + i)]
  {
  }

  // A transfer of one word, wherever it is and wherever it goes: the pointers are stored after it.
  lemma BltOneWord(other: Handler, c: Cpu)
    requires OpOf(c.iw) == 169
    requires var dst := c.space[AcOf(c.iw)] % B18; c.ea % B18 <= dst < B18 - 1 && c.ea % B18 < B18 - 1
    ensures Completes(c)
    ensures var n := AcOf(c.iw);
            var src, dst := c.space[n] / B18, c.space[n] % B18;
            Execute(other, c)
            == (c.(space := c.space[dst := c.space[src]][n := (src + 1) % B18 * B18 + (dst + 1) % B18]), INormal)
  {
    hide OpOf, AcOf;
    var n := AcOf(c.iw);
    assert IntBinGroup.BltSteps(c.space, n, 0) == c.space;
    assert IntBinGroup.BltSteps(c.space, n, 1) == IntBinGroup.BltStep(c.space, n);
  }

  // ----- PUSH, POP and ADJSP -----

  // Both halves of the pointer count: in section 0, with a negative left half, or with an empty section
  predicate CountsBoth(c: Cpu, p: Word)
  {
    c.pc % B23 < B18 || p / B18 >= 0x2_0000 || p / B18 % 0x1000 == 0
  }

  lemma CountsBothIff(c: Cpu, p: Word)
    ensures CountsBoth(c, p) <==> LocalPointer(c.pc, p)
  {
  }

  // 0261: the word at the effective address goes to the place the new pointer names; when the left half
  // comes round to zero, TR2 instead.
  lemma PushIs(other: Handler, c: Cpu)
    requires OpOf(c.iw) == 177
    ensures var p, n := Execute(other, c), AcOf(c.iw);
            var top, v := c.space[n], c.space[c.ea % B18];
            var next := if CountsBoth(c, top) then (top / B18 + 1) % B18 * B18 + (top % B18 + 1) % B18
                        else (top + 1) % B36;
            && Calculates(c, p) && p.1 == INormal
            && p.0.space == (if !CountsBoth(c, top) then c.space[v % B18 := next % B23]
                             else if top / B18 == B18 - 1 then c.space else c.space[next % B18 := v])[n := next]
            && p.0.flags == if CountsBoth(c, top) && top / B18 == B18 - 1 then c.flags + {TR2} else c.flags
  {
    hide OpOf, AcOf, CountsBoth, LocalPointer;
    var n := AcOf(c.iw);
    CountsBothIff(c, c.space[n]);
    SteppedUp(c.space[n]);
  }

  lemma SteppedUp(p: Word)
    ensures Stepped(p, true) == (p / B18 + 1) % B18 * B18 + (p % B18 + 1) % B18
    ensures StepTraps(p, true) <==> p / B18 == B18 - 1
    ensures Rh(Stepped(p, true)) == ((p / B18 + 1) % B18 * B18 + (p % B18 + 1) % B18) % B18
  {
  }

  // 0262: the word on top of the stack goes to the effective address, after the pointer has moved back; when
  // the left half passes below zero, TR2.
  lemma PopIs(other: Handler, c: Cpu)
    requires OpOf(c.iw) == 178
    ensures var p, n := Execute(other, c), AcOf(c.iw);
            var top := c.space[n];
            var next := if CountsBoth(c, top) then (top / B18 - 1) % B18 * B18 + (top % B18 - 1) % B18
                        else (top - 1) % B36;
            && Calculates(c, p) && p.1 == INormal
            && p.0.space == c.space[n := next][c.ea % B18 := c.space[top % B18]]
            && p.0.flags == if CountsBoth(c, top) && top / B18 == 0 then c.flags + {TR2} else c.flags
  {
    hide OpOf, AcOf, CountsBoth, LocalPointer;
    var n := AcOf(c.iw);
    CountsBothIff(c, c.space[n]);
    SteppedDown(c.space[n]);
  }

  lemma SteppedDown(p: Word)
    ensures Stepped(p, false) == (p / B18 - 1) % B18 * B18 + (p % B18 - 1) % B18
    ensures StepTraps(p, false) <==> p / B18 == 0
    ensures Vma(p) % B18 == p % B18
  {
    assert p == B18 * (32 * (p / B23) + p % B23 / B18) + p % B23 % B18;
  }

  // What is pushed from one place and popped to another has been moved, and the pointer is back.
  lemma PushThenPop(other: Handler, c: Cpu, w: Word, to: Word)
    requires OpOf(c.iw) == 177 && c.pc % B23 < B18 && c.space[AcOf(c.iw)] / B18 < B18 - 1
    requires (c.space[AcOf(c.iw)] % B18 + 1) % B18 != AcOf(c.iw)
    requires OpOf(w) == 178 && AcOf(w) == AcOf(c.iw) && to % B18 != AcOf(w)
    ensures var d := Execute(other, c).0;
            var e := Execute(other, d.(iw := w, ea := to)).0;
            e.space[to % B18] == c.space[c.ea % B18] && e.space[AcOf(w)] == c.space[AcOf(w)] && e.flags == c.flags
  {
    hide OpOf, AcOf, Execute;
    var d := Execute(other, c).0;
    PushIs(other, c);
    PopIs(other, d.(iw := w, ea := to));
    BackAndForth(c.space[AcOf(w)]);
  }

  lemma BackAndForth(p: Word)
    requires p / B18 < B18 - 1
    ensures var q := (p / B18 + 1) % B18 * B18 + (p % B18 + 1) % B18;
            q / B18 == p / B18 + 1 && q % B18 == (p % B18 + 1) % B18 && (q % B18 - 1) % B18 == p % B18
            && (q / B18 - 1) % B18 * B18 + (q % B18 - 1) % B18 == p
  {
  }

  // 0105: both halves count by the signed right half of the effective address, and TR2 and a trap tell
  // that the sign of the left half has changed in that direction; in the extended form the whole word
  // counts; a pointer into section 0 outside it stays.
  lemma AdjspIs(other: Handler, c: Cpu)
    requires OpOf(c.iw) == 69
    ensures var p, n, e := Execute(other, c), AcOf(c.iw), Count(c);
            var a := c.space[n];
            var both := c.pc % B23 < B18 || a / B18 >= 0x2_0000;
            var next := if both then (a / B18 + e) % B18 * B18 + (a % B18 + e) % B18
                        else if a / B18 % 0x1000 != 0 then (a + e) % B36 else a;
            var trap := both && (if a / B18 < 0x2_0000 then e < 0 && next / B18 >= 0x2_0000
                                 else e > 0 && next / B18 < 0x2_0000);
            && p.0 == c.(space := c.space[n := next], flags := if trap then c.flags + {TR2} else c.flags)
            && p.1 == if trap then ITrap else INormal
  {
    hide OpOf, AcOf;
    CountIsSigned(c);
    var a, e := c.space[AcOf(c.iw)], Count(c);
    JoinedNumber(a / B18 + e, a % B18 + e);
    SignOfHalf(a / B18);
    SignOfHalf((a / B18 + e) % B18);
    hide Signed18, Join, Count;
    assert c.space[AcOf(c.iw) := a] == c.space;
  }

  lemma JoinedNumber(l: int, r: int)
    ensures Join(l, r) == l % B18 * B18 + r % B18 && Join(l, r) / B18 == l % B18
  {
  }

  lemma SignOfHalf(h: Half)
    ensures Signed18(h) < 0 <==> h >= 0x2_0000
  {
  }

  // ----- JRST -----

  // The places of the flags in a word
  ghost predicate FlagsShown(w: Word, n: Flags)
  {
    && (NDV in n <==> BitAt(w, 23)) && (FUF in n <==> BitAt(w, 24)) && (TR1 in n <==> BitAt(w, 25))
    && (TR2 in n <==> BitAt(w, 26)) && (AFI in n <==> BitAt(w, 27)) && (PUB in n <==> BitAt(w, 28))
    && (UIO in n <==> BitAt(w, 29)) && (USR in n <==> BitAt(w, 30)) && (FPD in n <==> BitAt(w, 31))
    && (FOV in n <==> BitAt(w, 32)) && (CY1 in n <==> BitAt(w, 33)) && (CY0 in n <==> BitAt(w, 34))
    && (OV in n <==> BitAt(w, 35))
  }

  // The flags a JRST restores from a word: user mode keeps USR and does not take UIO, and PUB mode keeps PUB.
  ghost predicate FlagsRestored(f: Flags, w: Word, g: Flags)
  {
    exists n: Flags ::
      && FlagsShown(w, n)
      && (forall x: Flag :: x !in {PUB, UIO, USR} ==> (x in g <==> x in n))
      && (PUB in g <==> PUB in n || PUB in f)
      && (UIO in g <==> UIO in n && USR !in f)
      && (USR in g <==> USR in n || USR in f)
  }

  lemma ShownFlags(w: Word)
    ensures FlagsShown(w, Unpack(PcFlags(w)))
  {
    hide BitAt, Digits, PcFlags;
    forall x: Flag
      ensures x in Unpack(PcFlags(w)) <==> BitAt(w, 23 + BitNumber(x))
    {
      FlagBit(w, BitNumber(x));
    }
    hide Unpack;
  }

  lemma RestoredIs(f: Flags, w: Word)
    ensures FlagsRestored(f, w, RestoredFlags(f, w))
  {
    hide FlagsShown, Unpack, PcFlags;
    ShownFlags(w);
    var n := Unpack(PcFlags(w));
    assert FlagsShown(w, n);
  }

  lemma FlagBit(w: Word, k: nat)
    requires k < 13
    ensures Digits(PcFlags(w), 13)[k] <==> BitAt(w, 23 + k)
  {
    hide Pow2, Digits;
    DigitAt(PcFlags(w), 13, k);
    Pow2Add(23, k);
    PowerOf23();
    DivDiv(w, B23, Pow2(k));
  }

  lemma PowerOf23()
    ensures Pow2(23) == B23
  {
    hide Pow2;
    PowersOf2();
    Pow2Add(18, 5);
    assert Pow2(5) == 32 by {
      SmallPower();
    }
  }

  lemma SmallPower()
    ensures Pow2(5) == 32
  {
  }

  // 0254, by its accumulator field: 2, 010 and 012 restore flags from the effective address, 4 halts, 6 and
  // 012 end interrupt service; all of the others just jump.
  lemma JrstIs(other: Handler, c: Cpu)
    requires OpOf(c.iw) == 172
    ensures var (d, r) := Execute(other, c);
            var n := AcOf(c.iw);
            && d == c.(flags := d.flags, running := d.running, inInterrupt := d.inInterrupt)
            && (if n == 2 || n == 8 || n == 10 then FlagsRestored(c.flags, c.ea, d.flags) else d.flags == c.flags)
            && (d.running <==> c.running && n != 4)
            && (d.inInterrupt <==> c.inInterrupt && n != 6 && n != 10)
            && r == if n == 4 then IHALT else IJump
  {
    hide OpOf, AcOf, FlagsRestored, RestoredFlags;
    RestoredIs(c.flags, c.ea);
  }

  // ----- the flags word -----

  // A saved word shows the flags in these places above the 23 bits of the address.
  lemma FlagsWordIs(f: Flags, pc: nat)
    ensures FlagsShown(FlagsWord(f, pc), f) && FlagsWord(f, pc) % B23 == pc % B23
  {
    hide FlagsShown, Pack, Unpack, FlagsWord;
    UnpackPack(f);
    ShownFlags(FlagsWord(f, pc));
    VmaIs(FlagsWord(f, pc));
  }

  lemma VmaIs(w: Word)
    ensures Vma(w) == w % B23
  {
  }

  // ----- calls outside section 0 -----

  // A call to (for PUSHJ, from) another section saves the 23-bit address alone.
  lemma ExtendedCalls(other: Handler, c: Cpu)
    requires OpOf(c.iw) == 180 || OpOf(c.iw) == 181
    requires c.ea % B23 >= B18
    ensures var p, next := Execute(other, c), c.pc % B23 + (if c.inInterrupt then 0 else 1);
            p.1 == IJump && p.0.space == c.space[if OpOf(c.iw) == 180 then c.ea % B18 else AcOf(c.iw) := next]
  {
    hide OpOf, AcOf, FlagsWord, Pack, Join, CallFlags;
  }

  lemma ExtendedPushj(other: Handler, c: Cpu)
    requires OpOf(c.iw) == 176 && c.pc % B23 >= B18
    requires CountsBoth(c, c.space[AcOf(c.iw)]) && c.space[AcOf(c.iw)] / B18 < B18 - 1
    ensures var p, next := Execute(other, c), c.pc % B23 + (if c.inInterrupt then 0 else 1);
            var a := c.space[AcOf(c.iw)];
            var top := (a / B18 + 1) % B18 * B18 + (a % B18 + 1) % B18;
            p.1 == IJump && p.0.space == c.space[top % B18 := next][AcOf(c.iw) := top]
  {
    hide OpOf, AcOf, FlagsWord, Pack, CountsBoth, LocalPointer, StepTraps, Stepped, CallFlags;
    CountsBothIff(c, c.space[AcOf(c.iw)]);
    SteppedUp(c.space[AcOf(c.iw)]);
  }

  // ----- trap vectors -----

  // Trap 1 is taken at 0421, and a stack overflow alone at 0422.
  lemma TrapAddresses(c: Cpu, e: Event)
    requires e.pagerOn && (TR1 in c.flags || TR2 in c.flags)
    ensures Select(c, e) == c.(fetchPC := if TR1 in c.flags then 0x111 else 0x112, inInterrupt := true)
  {
  }
}
