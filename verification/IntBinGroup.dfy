/** BLT, ROT, ROTC and JFFO (src/i-intbin.cpp:630-646, 662-698, 720-746). */
module IntBinGroup {
  import opened Bits
  import opened Words
  import opened EffectiveAddress
  import opened Machine
  import opened Rotation

  // ----- BLT -----

  // One iteration with the source and destination addresses in accumulator n: one word moved, both
  // halves counted up, and the accumulator stored back.
  function BltStep(s: Space, n: nat): Space
    requires n < 16
  {
    var a := s[n];
    s[Rh(a) := s[Lh(a)]][n := Join(Lh(a) + 1, Rh(a) + 1)]
  }

  function BltSteps(s: Space, n: nat, k: nat): Space
    requires n < 16
  {
    if k == 0 then s else BltStep(BltSteps(s, n, k - 1), n)
  }

  // The number of iterations from destination dst to the last address e.  The body runs before the
  // test, and the address wraps around after the last location.
  function BltCount(dst: Half, e: Half): (k: nat)
    ensures k >= 1
  {
    if dst == B18 - 1 then e + 2 else if dst <= e then e - dst + 1 else 1
  }

  function Blt(c: Cpu): Cpu
  {
    var n := AcOf(c.iw);
    c.(space := BltSteps(c.space, n, BltCount(Rh(c.space[n]), Rh(c.ea))))
  }

  lemma BltContinues(dst: Half, e: Half, k: nat)
    requires e < B18 - 1 && 1 <= k <= BltCount(dst, e)
    ensures (dst + k) % B18 <= e <==> k < BltCount(dst, e)
  {
  }

  lemma {:induction false} BltAddresses(s: Space, n: nat, k: nat)
    requires n < 16
    ensures BltSteps(s, n, k)[n] == Join(Lh(s[n]) + k, Rh(s[n]) + k)
  {
    hide Lh, Rh, Join, BltStep;
    if k == 0 {
      JoinHalves(s[n]);
    } else {
      BltAddresses(s, n, k - 1);
      JoinStep(s[n], k);
      BltStepAt(BltSteps(s, n, k - 1), n);
    }
  }

  lemma BltStepAt(t: Space, n: nat)
    requires n < 16
    ensures var l, r := Lh(t[n]), Rh(t[n]);
            BltStep(t, n) == t[r := t[l]][n := Join(l + 1, r + 1)] && BltStep(t, n)[n] == Join(l + 1, r + 1)
  {
    hide Lh, Rh, Join;
  }

  lemma JoinHalves(w: Word)
    ensures Join(Lh(w), Rh(w)) == Join(Lh(w) + 0, Rh(w) + 0) == w
  {
  }

  lemma JoinStep(w: Word, k: nat)
    requires k > 0
    ensures var a := Join(Lh(w) + (k - 1), Rh(w) + (k - 1));
            Join(Lh(a) + 1, Rh(a) + 1) == Join(Lh(w) + k, Rh(w) + k)
  {
    hide Lh, Rh;
    NextHalf(Lh(w) + (k - 1));
    NextHalf(Rh(w) + (k - 1));
  }

  // The loop test fails after some iteration unless the last address is 0777777; then it never does.
  ghost predicate BltExits(s: Space, n: nat, e: Half, k: nat)
    requires n < 16
  {
    k >= 1 && Rh(BltSteps(s, n, k)[n]) > e
  }

  lemma BltEndsIff(s: Space, n: nat, e: Half)
    requires n < 16
    ensures (exists k: nat :: BltExits(s, n, e, k)) <==> e < B18 - 1
  {
    hide Lh, Rh, Join, BltSteps;
    if e < B18 - 1 {
      var k := BltCount(Rh(s[n]), e);
      BltAddresses(s, n, k);
      BltContinues(Rh(s[n]), e, k);
      assert BltExits(s, n, e, k);
    }
  }

  method MoveWord(m: KM10, n: nat, a0: Word) returns (a: Word)
    requires m.Valid() && n < 16 && a0 == m.Space()[n]
    modifies m.AC, m.memP
    ensures m.Space() == BltStep(old(m.Space()), n) && a == m.Space()[n]
  {
    hide Lh, Join, KM10.Space;
    var word := m.MemGetN(Lh(a0));
    m.MemPutN(word, Rh(a0));
    a := Join(Lh(a0) + 1, Rh(a0) + 1);
    m.AcPutN(a, n);
  }

  method DoBLT(m: KM10) returns (r: IResult)
    requires m.Valid() && Rh(m.ea) < B18 - 1
    modifies m.AC, m.memP
    ensures m.Snapshot() == Blt(old(m.Snapshot())) && r == INormal
  {
    hide Lh, Rh, Join, BltCount, BltStep, KM10.Space;
    var n := AcOf(m.iw);
    var a := m.AcGetN(n);
    ghost var s, dst, k: nat := m.Space(), Rh(a), 0;
    BltAddresses(s, n, 0);
    while true
      invariant m.Space() == BltSteps(s, n, k) && a == m.Space()[n]
      invariant 0 <= k < BltCount(dst, Rh(m.ea))
      decreases BltCount(dst, Rh(m.ea)) - k
    {
      a := MoveWord(m, n, a);
      k := k + 1;
      BltAddresses(s, n, k);
      BltContinues(dst, Rh(m.ea), k);
      if !(Rh(a) <= Rh(m.ea)) {
        break;
      }
    }
    r := INormal;
  }

  // Interrupting the transfer after any number of words short of the whole, and executing the
  // instruction again with the accumulator as it was left, comes to the same final state.
  lemma {:induction false} BltRestart(c: Cpu, done: nat)
    requires Rh(c.ea) < B18 - 1 && done < BltCount(Rh(c.space[AcOf(c.iw)]), Rh(c.ea))
    ensures Blt(c.(space := BltSteps(c.space, AcOf(c.iw), done))) == Blt(c)
  {
    hide Lh, Join, BltSteps;
    var n, dst := AcOf(c.iw), Rh(c.space[AcOf(c.iw)]);
    BltAddresses(c.space, n, done);
    var left := BltCount((dst + done) % B18, Rh(c.ea));
    BltStepsAdd(c.space, n, done, left);
    assert done + left == BltCount(dst, Rh(c.ea));
  }

  lemma {:induction false} BltStepsAdd(s: Space, n: nat, j: nat, k: nat)
    requires n < 16
    ensures BltSteps(BltSteps(s, n, j), n, k) == BltSteps(s, n, j + k)
  {
    hide BltStep;
    if k > 0 {
      BltStepsAdd(s, n, j, k - 1);
    }
  }

  // The word that ends up i places into the destination: the source repeated with period dst - src
  // when the destination starts that far into the source's path, the source itself otherwise.
  function Replicated(s: Space, src: nat, dst: nat, i: nat): Word
    requires src + i < B18
  {
    if dst > src then
      assert i % (dst - src) <= i;
      s[src + i % (dst - src)]
    else s[src + i]
  }

  // The addresses of a transfer that does not wrap around and does not touch its own accumulator
  predicate Clear(n: nat, src: nat, dst: nat, k: nat)
  {
    src + k <= B18 && dst + k <= B18 && !(src <= n < src + k) && !(dst <= n < dst + k)
  }

  // After k words: the destination so far, and everything else but the accumulator as it was
  ghost predicate Transferred(s: Space, t: Space, n: nat, src: nat, dst: nat, k: nat)
    requires src + k <= B18 && dst + k <= B18
  {
    && (forall i :: 0 <= i < k ==> t[dst + i] == Replicated(s, src, dst, i))
    && (forall a :: 0 <= a < B18 && a != n && !(dst <= a < dst + k) ==> t[a] == s[a])
  }

  lemma TransferStep(s: Space, t: Space, n: nat, src: nat, dst: nat, k: nat, a: Word)
    requires n < 16 && Clear(n, src, dst, k + 1) && Transferred(s, t, n, src, dst, k)
    ensures Transferred(s, t[dst + k := t[src + k]][n := a], n, src, dst, k + 1)
  {
    hide Replicated;
    ReplicatedNext(s, src, dst, k);
    assert t[src + k] == Replicated(s, src, dst, k) by {
      if dst <= src + k < dst + k {
        assert t[dst + (src + k - dst)] == Replicated(s, src, dst, src + k - dst);
      }
    }
  }

  lemma {:induction false} BltReplicates(s: Space, n: nat, k: nat)
    requires n < 16 && Clear(n, Lh(s[n]), Rh(s[n]), k)
    ensures Transferred(s, BltSteps(s, n, k), n, Lh(s[n]), Rh(s[n]), k)
  {
    hide Lh, Rh, Join, Transferred, BltStep;
    if k > 0 {
      var src, dst := Lh(s[n]), Rh(s[n]);
      BltReplicates(s, n, k - 1);
      BltAddresses(s, n, k - 1);
      JoinBelow(src + (k - 1), dst + (k - 1));
      BltStepAt(BltSteps(s, n, k - 1), n);
      TransferStep(s, BltSteps(s, n, k - 1), n, src, dst, k - 1, Join(src + (k - 1) + 1, dst + (k - 1) + 1));
    } else {
      NothingTransferred(s, n, Lh(s[n]), Rh(s[n]));
    }
  }

  lemma NothingTransferred(s: Space, n: nat, src: nat, dst: nat)
    requires src <= B18 && dst <= B18
    ensures Transferred(s, s, n, src, dst, 0)
  {
  }

  lemma JoinBelow(l: nat, r: nat)
    requires l < B18 && r < B18
    ensures Lh(Join(l, r)) == l && Rh(Join(l, r)) == r
  {
  }

  // The source of word k is either untouched or a word already replicated.
  lemma ReplicatedNext(s: Space, src: nat, dst: nat, k: nat)
    requires src + k < B18
    ensures dst <= src + k < dst + k ==> Replicated(s, src, dst, src + k - dst) == Replicated(s, src, dst, k)
    ensures !(dst <= src + k < dst + k) ==> Replicated(s, src, dst, k) == s[src + k]
  {
    var d := dst - src;
    if d > 0 {
      if k >= d {
        PeriodShift(k, d);
      } else {
        SmallMod(k, d);
      }
    }
  }

  lemma PeriodShift(k: nat, d: nat)
    requires 0 < d <= k
    ensures (k - d) % d == k % d
  {
    var q, r := k / d, k % d;
    assert k - d == d * (q - 1) + r;
    ModOfMultiple(q - 1, r, d);
  }

  lemma SmallMod(k: nat, d: nat)
    requires k < d
    ensures k % d == k
  {
    ModOfMultiple(0, k, d);
  }

  // The whole instruction: every destination word, the accumulator left behind, and everything else
  lemma BltTransfers(c: Cpu)
    requires var a := c.space[AcOf(c.iw)];
             && Rh(a) <= Rh(c.ea) < B18 - 1 && Clear(AcOf(c.iw), Lh(a), Rh(a), Rh(c.ea) - Rh(a) + 1)
    ensures var n := AcOf(c.iw);
            var src, dst := Lh(c.space[n]), Rh(c.space[n]);
            var count := Rh(c.ea) - dst + 1;
            Transferred(c.space, Blt(c).space, n, src, dst, count) && Blt(c).space[n] == Join(src + count, dst + count)
  {
    hide Lh, Rh, Join, Transferred, BltSteps;
    var n := AcOf(c.iw);
    var count := Rh(c.ea) - Rh(c.space[n]) + 1;
    BltReplicates(c.space, n, count);
    BltAddresses(c.space, n, count);
  }

  // ----- ROT and ROTC -----

  function Rot(c: Cpu): Cpu
  {
    var n, count := AcOf(c.iw), Signed18(Rh(c.ea));
    RotWordFits(c.space[n], count);
    c.(space := c.space[n := RotWord(c.space[n], count)])
  }

  method DoROT(m: KM10) returns (r: IResult)
    requires m.Valid()
    modifies m.AC
    ensures m.Snapshot() == Rot(old(m.Snapshot())) && r == INormal
  {
    hide RotWord, Signed18, KM10.Space;
    var a := m.AcGetN(AcOf(m.iw));
    a := RotateWord(a, Signed18(Rh(m.ea)));
    m.AcPutN(a, AcOf(m.iw));
    r := INormal;
  }

  method RotateWord(prev: Word, rhs: int) returns (u: Word)
    ensures u == RotWord(prev, rhs)
  {
    hide Shl, Shr, Low, BitOr, BitAnd, TruncRem;
    var n := TruncRem(rhs, 36);
    RotWordFits(prev, rhs);
    var a: nat := prev;
    if n > 0 {
      a := Low(Low(Shl(a, n), 64), 36);
      a := BitOr(a, Shr(prev, 36 - n));
    } else if n < 0 {
      n := 0 - n;
      a := Shr(a, n);
      a := BitOr(a, BitAnd(Low(Shl(prev, 36 - n), 64), B36 - 1));
    }
    u := a;
  }

  // The pair of accumulators as one 72-bit number
  function AcPair72(c: Cpu): nat
    requires AcOf(c.iw) < 15
  {
    Shl(c.space[AcOf(c.iw)], 36) + c.space[AcOf(c.iw) + 1]
  }

  function Rotc(c: Cpu): Cpu
    requires AcOf(c.iw) < 15
  {
    var n, a, count := AcOf(c.iw), AcPair72(c), Signed18(Rh(c.ea));
    RotPairLow72(a, count);
    c.(space := c.space[n := RotPairHi(a, count)][n + 1 := RotPairLo(a, count)])
  }

  method DoROTC(m: KM10) returns (r: IResult)
    requires m.Valid() && AcOf(m.iw) < 15
    modifies m.AC
    ensures m.Snapshot() == Rotc(old(m.Snapshot())) && r == INormal
  {
    hide RotPairHi, RotPairLo, Signed18, KM10.Space;
    var hi := m.AcGetN(AcOf(m.iw));
    var lo := m.AcGetN(AcOf(m.iw) + 1);
    hi, lo := RotatePair(hi, lo, Signed18(Rh(m.ea)));
    m.AcPutN(hi, AcOf(m.iw));
    m.AcPutN(lo, AcOf(m.iw) + 1);
    r := INormal;
  }

  method RotatePair(hi0: Word, lo0: Word, rhs: int) returns (hi: Word, lo: Word)
    ensures hi == RotPairHi(Shl(hi0, 36) + lo0, rhs) && lo == RotPairLo(Shl(hi0, 36) + lo0, rhs)
  {
    hide Shl, Shr, Low, BitOr, BitAnd, TruncRem;
    var n := TruncRem(rhs, 72);
    JoinPair(hi0, lo0);
    var a := BitOr(Shl(hi0, 36), lo0);
    RotPairLow72(a, rhs);
    if n > 0 {
      var newLSBs := Shr(a, 72 - n);
      a := Low(Shl(a, n), 128);
      a := BitOr(a, newLSBs);
    } else if n < 0 {
      n := 0 - n;
      var newMSBs := Low(Shl(a, 72 - n), 128);
      a := Shr(a, n);
      a := BitOr(a, newMSBs);
    }
    hi := BitAnd(Shr(a, 36), B36 - 1);
    lo := BitAnd(a, B36 - 1);
  }

  lemma JoinPair(hi: Word, lo: Word)
    ensures BitOr(Shl(hi, 36), lo) == Shl(hi, 36) + lo < B72
  {
    hide Shl, BitOr, Pow2;
    PowersOf2();
    OrDisjoint(hi, lo, 36);
    ShlIsMul(hi, 36);
  }

  // What ROTC leaves in the two accumulators is the rotated pair, so a second ROTC adds its count.
  lemma RotcPair(c: Cpu)
    requires AcOf(c.iw) < 15
    ensures AcPair72(c) < B72 && AcPair72(Rotc(c)) == RotPair(AcPair72(c), Signed18(Rh(c.ea)))
  {
    hide Shl, RotPairHi, RotPairLo, Signed18, BitOr;
    JoinPair(c.space[AcOf(c.iw)], c.space[AcOf(c.iw) + 1]);
  }

  // ----- JFFO -----

  // The number of left shifts until the word is negative; none for zero
  function Shifts(w: Word): nat
    decreases B36 - w
  {
    if w == 0 || Negative(w) then 0 else 1 + Shifts(2 * w)
  }

  function Jffo(c: Cpu): (Cpu, IResult)
    requires AcOf(c.iw) < 15
  {
    var n := Shifts(c.space[AcOf(c.iw)]);
    FirstOne(c.space[AcOf(c.iw)]);
    (c.(space := c.space[AcOf(c.iw) + 1 := n]), if n != 0 then IJump else INormal)
  }

  // The first one bit of a word other than zero, counted from the left
  lemma {:induction false} FirstOne(w: Word)
    ensures Shifts(w) < 36
    ensures w != 0 ==> Pow2(35 - Shifts(w)) <= w < Pow2(36 - Shifts(w))
    decreases B36 - w
  {
    hide Pow2;
    PowersOf2();
    if w != 0 && !Negative(w) {
      FirstOne(2 * w);
      HalfTheBounds(w, Shifts(2 * w));
    }
  }

  lemma HalfTheBounds(w: nat, n: nat)
    requires n < 36 && w > 0 && Pow2(35 - n) <= 2 * w < Pow2(36 - n)
    ensures n < 35 && Pow2(34 - n) <= w < Pow2(35 - n)
  {
    hide Pow2;
    PowerSuccessor(35 - n);
    if n == 35 {
      PowerSuccessor(0);
      PowerOf0();
    } else {
      PowerSuccessor(34 - n);
    }
  }

  // JFFO leaves the number of the first one bit in the next accumulator, and zero if there is none.
  // It jumps exactly when that number is not zero: a word whose first bit is set does not jump.
  lemma JffoJumpsIff(c: Cpu)
    requires AcOf(c.iw) < 15
    ensures var w, (d, r) := c.space[AcOf(c.iw)], Jffo(c);
            var n := d.space[AcOf(c.iw) + 1];
            && (r == IJump <==> w != 0 && !Negative(w))
            && (if w == 0 then n == 0 else n < 36 && Pow2(35 - n) <= w < Pow2(36 - n))
  {
    hide Pow2;
    FirstOne(c.space[AcOf(c.iw)]);
  }

  method DoJFFO(m: KM10) returns (r: IResult)
    requires m.Valid() && AcOf(m.iw) < 15
    modifies m.AC
    ensures (m.Snapshot(), r) == Jffo(old(m.Snapshot()))
  {
    hide KM10.Space, AcOf;
    var tmp := m.AcGetN(AcOf(m.iw));
    ghost var w := tmp;
    FirstOne(w);
    if tmp != 0 {
      var count: nat := 0;
      while tmp != 0 && !Negative(tmp)
        invariant count + Shifts(tmp) == Shifts(w)
        decreases B36 - tmp
      {
        count := count + 1;
        tmp := ToWord(2 * tmp);
      }
      tmp := ToWord(count);
    }
    m.AcPutN(tmp, AcOf(m.iw) + 1);
    r := if tmp != 0 then IJump else INormal;
  }
}
