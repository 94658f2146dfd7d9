/** The two long divisions of tests/test128.cpp: bit-serial 256/128 (lines 196-222) and base-2^64
    192/128 (lines 226-241), whose three steps src/i-dword.cpp:151-157 repeats for DDIV. */
module LongDivision {
  import opened Bits
  import opened Words

  const B127: nat := B128 / 2

  // ----- bit-serial division -----

  // A dividend on its way: quotient so far q and remainder x of the consumed part, weighed by w, and
  // the part still to be consumed
  ghost function Dividend(q: nat, z: nat, x: int, w: nat, rest: nat): int
  {
    (q * z + x) * w + rest
  }

  lemma DividendShift(q: nat, z: nat, x: int, w: nat, b: nat, rest: nat)
    ensures Dividend(q, z, x, 2 * w, b * w + rest) == Dividend(2 * q, z, 2 * x + b, w, rest)
  {
    var s := q * z;
    assert 2 * q * z == 2 * s;
    assert (s + x) * (2 * w) == (2 * s + 2 * x) * w;
    assert (2 * s + (2 * x + b)) * w == (2 * s + 2 * x) * w + b * w;
  }

  lemma DividendSubtract(q: nat, z: nat, x: int, w: nat, rest: nat)
    ensures Dividend(q, z, x, w, rest) == Dividend(q + 1, z, x - z, w, rest)
  {
    assert (q + 1) * z == q * z + z;
  }

  // The unconsumed bits sit above the k quotient bits; shifting moves the top one out.
  lemma ShiftOut(left: nat, k: nat, q: nat)
    requires k < 128 && left < Pow2(128 - k) && q < Pow2(k)
    ensures var y, b, rest := Shl(left, k) + q, Shr(left, 127 - k), Low(left, 127 - k);
            && y < B128 && y / B127 == b <= 1 && 2 * y % B128 == Shl(rest, k + 1) + 2 * q
            && rest < Pow2(127 - k)
            && left == b * Pow2(127 - k) + rest
  {
    hide Pow2, Shl, Shr, Low;
    var m := 127 - k;
    var b, rest := Shr(left, m), Low(left, m);
    PowersOf2();
    PowerSuccessor(127);
    PowerSuccessor(0);
    PowerOf0();
    Split(left, m);
    ShrBound(left, m, 1);
    ShlIsMul(b, m);
    assert Shl(left, k) == b * B127 + Shl(rest, k) by {
      ShlAdd(Shl(b, m), rest, k);
      ShlShl(b, m, k);
      ShlIsMul(b, 127);
    }
    ShlBound(rest, k, m);
    ShlSuccessor(rest, k);
  }

  lemma ShlSuccessor(w: nat, n: nat)
    ensures Shl(w, n + 1) == 2 * Shl(w, n) && Shl(w, 0) == w
  {
  }

  // `x | t` where t is all ones if the shift pushed a bit out of x, and zero otherwise
  lemma CompareWithLostBit(x: U128, lost: bool)
    ensures BitOr(x, if lost then B128 - 1 else 0) == if lost then B128 - 1 else x
  {
    hide BitOr, Pow2;
    PowersOf2();
    if lost {
      OrOnes(x, 128);
    } else {
      OrZero(x);
    }
  }

  lemma OrBit(x: nat, b: nat)
    requires b <= 1 && x % 2 == 0
    ensures BitOr(x, b) == x + b
  {
    hide BitOr;
    ShlSuccessor(x / 2, 0);
    PowerSuccessor(0);
    PowerOf0();
    OrDisjoint(x / 2, b, 1);
  }

  // After i steps: q is the quotient so far and `left` the bits of y0 not consumed yet; both are in y.
  ghost predicate Progress(x0: U128, y0: U128, z: U128, x: int, y: int, i: nat, q: nat, left: nat)
    requires i <= 128
  {
    && 0 <= x < B128 && y == Shl(left, i) + q && q < Pow2(i) && left < Pow2(128 - i)
    && (x0 < z ==> x < z && Dividend(q, z, x, Pow2(128 - i), left) == x0 * B128 + y0)
  }

  // The remainder after one more bit, and whether z can be taken from it
  ghost function Doubled(x: nat, left: nat, i: nat): nat
    requires i < 128
  {
    2 * x + Shr(left, 127 - i)
  }

  lemma DividendStep(q: nat, z: nat, x: nat, left: nat, i: nat)
    requires i < 128 && left < Pow2(128 - i)
    ensures var w, rest, whole := Pow2(127 - i), Low(left, 127 - i), Doubled(x, left, i);
            && Dividend(q, z, x, Pow2(128 - i), left) == Dividend(2 * q, z, whole, w, rest)
            && Dividend(q, z, x, Pow2(128 - i), left) == Dividend(2 * q + 1, z, whole - z, w, rest)
  {
    hide Pow2, Shl, Shr, Low, Dividend;
    var w, b, rest := Pow2(127 - i), Shr(left, 127 - i), Low(left, 127 - i);
    Split(left, 127 - i);
    ShlIsMul(b, 127 - i);
    PowerSuccessor(127 - i);
    DividendShift(q, z, x, w, b, rest);
    DividendSubtract(2 * q, z, Doubled(x, left, i), w, rest);
  }

  // The bit shifted out of x is the 129th bit of the partial remainder: the all-ones value makes the
  // comparison come out true, and the subtraction modulo 2^128 is then exact.
  lemma RemainderStep(x: U128, b: nat, z: U128)
    requires b <= 1 && x < z
    ensures var x1, whole := 2 * x % B128 + b, 2 * x + b;
            var subtract := (if x / B127 != 0 then B128 - 1 else x1) >= z;
            && (subtract ==> (x1 - z) % B128 == whole - z < z)
            && (!subtract ==> x1 == whole < z)
  {
    var x1, whole := 2 * x % B128 + b, 2 * x + b;
    if x / B127 != 0 {
      assert x1 == whole - B128;
    } else {
      assert x1 == whole;
    }
  }

  // The top bit of y is the next bit of the dividend.
  lemma ConsumedBit(x0: U128, y0: U128, z: U128, x: U128, y: U128, i: nat, q: nat, left: nat)
    requires i < 128 && Progress(x0, y0, z, x, y, i, q, left)
    ensures y / B127 <= 1 && Doubled(x, left, i) == 2 * x + y / B127 && (x0 < z ==> x < z)
    ensures 2 * y % B128 == Shl(Low(left, 127 - i), i + 1) + 2 * q
  {
    hide Pow2, Shl, Shr, Low, Dividend;
    ShiftOut(left, i, q);
  }

  // One iteration: x and y after the shift, and the test
  lemma StepKeepsProgress(x0: U128, y0: U128, z: U128, x: U128, y: U128, i: nat, q: nat, left: nat,
                          x1: U128, y1: U128, subtract: bool)
    requires i < 128 && Progress(x0, y0, z, x, y, i, q, left)
    requires x1 == 2 * x % B128 + y / B127 && y1 == 2 * y % B128
    requires subtract == ((if x / B127 != 0 then B128 - 1 else x1) >= z)
    ensures subtract ==> Progress(x0, y0, z, (x1 - z) % B128, (y1 + 1) % B128, i + 1, 2 * q + 1, Low(left, 127 - i))
    ensures !subtract ==> Progress(x0, y0, z, x1, y1, i + 1, 2 * q, Low(left, 127 - i))
  {
    hide Pow2, Shl, Shr, Low, Dividend, Progress, Doubled;
    ConsumedBit(x0, y0, z, x, y, i, q, left);
    EvenRoom(y1, left, i, q);
    if x0 < z {
      RemainderStep(x, y / B127, z);
    }
    if subtract {
      NewProgress(x0, y0, z, x, y, i, q, left, (x1 - z) % B128, y1 + 1, 2 * q + 1);
    } else {
      NewProgress(x0, y0, z, x, y, i, q, left, x1, y1, 2 * q);
    }
  }

  lemma NewProgress(x0: U128, y0: U128, z: U128, x: U128, y: U128, i: nat, q: nat, left: nat,
                    x1: U128, y1: U128, q1: nat)
    requires i < 128 && Progress(x0, y0, z, x, y, i, q, left)
    requires q1 == 2 * q || q1 == 2 * q + 1
    requires y1 == Shl(Low(left, 127 - i), i + 1) + q1
    requires x0 < z ==> x1 < z && x1 == Doubled(x, left, i) - (if q1 == 2 * q then 0 else z)
    ensures Progress(x0, y0, z, x1, y1, i + 1, q1, Low(left, 127 - i))
  {
    hide Pow2, Shl, Shr, Low, Dividend, Doubled;
    PowerSuccessor(i);
    DividendStep(q, z, x, left, i);
  }

  // y1 ends in a zero bit, so `++y` stays in range.
  lemma EvenRoom(y1: U128, left: nat, i: nat, q: nat)
    requires i < 128 && y1 == Shl(Low(left, 127 - i), i + 1) + 2 * q
    ensures (y1 + 1) % B128 == y1 + 1
  {
    hide Pow2, Low;
    ShlSuccessor(Low(left, 127 - i), i);
  }

  // The loop's result divides exactly when the quotient fits.
  lemma DivisionDone(x0: U128, y0: U128, z: U128, x: U128, y: U128, q: nat, left: nat)
    requires Progress(x0, y0, z, x, y, 128, q, left)
    ensures y * z + x == x0 * B128 + y0 && x < z <==> x0 < z
  {
    hide Pow2, Shl;
    DividendEnd(q, z, x, y, left);
    if x0 >= z {
      QuotientTooLarge(x0, y0, z, y, x);
    }
  }

  // Divides x||y by z.  The result is right exactly when the quotient fits, that is when x < z.
  method Divlllu(x0: U128, y0: U128, z: U128) returns (quotient: U128, remainder: U128)
    ensures quotient * z + remainder == x0 * B128 + y0 && remainder < z <==> x0 < z
  {
    hide Pow2, Shl, Shr, Low, BitOr, Progress, Dividend, Doubled;
    var x: U128, y: U128 := x0, y0;
    ghost var q: nat, left: nat := 0, y0;
    DividendStart(x0, y0, z);
    for i := 0 to 128
      invariant Progress(x0, y0, z, x, y, i, q, left)
    {
      ghost var x', y' := x, y;
      var t: nat := if x / B127 != 0 then B128 - 1 else 0;
      OrBit(2 * x % B128, y / B127);
      x := BitOr(2 * x % B128, y / B127);
      y := 2 * y % B128;
      CompareWithLostBit(x, t != 0);
      StepKeepsProgress(x0, y0, z, x', y', i, q, left, x, y, BitOr(x, t) >= z);
      q, left := 2 * q, Low(left, 127 - i);
      if BitOr(x, t) >= z {
        x := (x - z) % B128;
        y := (y + 1) % B128;
        q := q + 1;
      }
    }
    quotient, remainder := y, x;
    DivisionDone(x0, y0, z, x, y, q, left);
  }

  lemma DividendStart(x0: U128, y0: U128, z: U128)
    ensures Progress(x0, y0, z, x0, y0, 0, 0, y0)
  {
    hide Pow2;
    PowersOf2();
    PowerOf0();
  }

  lemma DividendEnd(q: nat, z: U128, x: U128, y: nat, left: nat)
    requires left < Pow2(0) && y == Shl(left, 128) + q
    ensures y == q && Dividend(q, z, x, Pow2(0), left) == q * z + x
  {
    hide Pow2, Shl;
    PowerOf0();
    ShlIsMul(0, 128);
  }

  lemma QuotientTooLarge(x0: U128, y0: U128, z: U128, q: U128, r: U128)
    requires x0 >= z
    ensures !(q * z + r == x0 * B128 + y0 && r < z)
  {
    MulLe(z, q, B128 - 1);
    assert z * (B128 - 1) == z * B128 - z;
  }

  // ----- base-2^64 division -----

  // `(r << 64) | n` in 128 bits
  lemma JoinWord(r: U128, n: U64)
    ensures BitOr(Low(Shl(r, 64), 128), n) == r % B64 * B64 + n < B128
  {
    hide Pow2, Shl, Low, BitOr;
    PowersOf2();
    LowOfSplit(r, 0, 64, 64);
    LowIsMod(r, 64);
    OrDisjoint(Low(r, 64), n, 64);
    ShlIsMul(Low(r, 64), 64);
  }

  // C++ unsigned `/` and `%`, under names so that proofs can hide the division
  function Quo(a: nat, d: nat): nat
    requires d > 0
  {
    a / d
  }

  function Rem(a: nat, d: nat): nat
    requires d > 0
  {
    a % d
  }

  lemma QuoRem(a: nat, d: nat)
    requires d > 0
    ensures a == d * Quo(a, d) + Rem(a, d) && Rem(a, d) < d && Rem(a, d) <= a && Quo(a, d) <= a
  {
    var q := a / d;
    assert a == d * q + a % d;
    MulLe(q, 1, d);
  }

  lemma QuoRemUnique(a: nat, d: nat, q: nat, r: nat)
    requires r < d && a == d * q + r
    ensures Quo(a, d) == q && Rem(a, d) == r
  {
    ModOfMultiple(q, r, d);
  }

  // Bringing down one more digit: the quotient is extended by a digit that fits.
  lemma BringDown(u: nat, n: U64, d: nat)
    requires d > 0
    ensures var part := Rem(u, d) * B64 + n;
            && Quo(u * B64 + n, d) == Quo(u, d) * B64 + Quo(part, d)
            && Rem(u * B64 + n, d) == Rem(part, d)
            && Quo(part, d) < B64
  {
    hide Quo, Rem;
    var q, r := Quo(u, d), Rem(u, d);
    var part := r * B64 + n;
    var f, s := Quo(part, d), Rem(part, d);
    QuoRem(u, d);
    QuoRem(part, d);
    assert u * B64 + n == d * (q * B64 + f) + s by {
      assert d * (q * B64 + f) == d * q * B64 + d * f;
    }
    QuoRemUnique(u * B64 + n, d, q * B64 + f, s);
    DigitFits(r, n, d, f);
  }

  lemma DigitFits(r: nat, n: U64, d: nat, f: nat)
    requires r < d && d * f <= r * B64 + n
    ensures f < B64
  {
    if f >= B64 {
      MulLe(d, B64, f);
    }
  }

  // The remainder the code returns, and the true one, differ by a multiple of d just in this case.
  lemma StaleRemainder(r: nat, n: U64, d: nat)
    requires r < d
    ensures Rem(r * B64 + n, d) == r <==> Rem(r * (B64 - 1) + n, d) == 0
  {
    hide Quo, Rem;
    var m := r * (B64 - 1) + n;
    assert r * B64 + n == m + r;
    var q, s := Quo(m, d), Rem(m, d);
    QuoRem(m, d);
    if s + r < d {
      QuoRemUnique(m + r, d, q, s + r);
    } else {
      assert d * (q + 1) == d * q + d;
      QuoRemUnique(m + r, d, q + 1, s + r - d);
    }
  }

  // Losing the high part of the partial remainder loses quotient.
  lemma LostBits(r: nat, n: U64, d: U128)
    requires 0 < d && r < d
    ensures Quo(r % B64 * B64 + n, d) == Quo(r * B64 + n, d) <==> r < B64
    ensures Quo(r % B64 * B64 + n, d) < B64
  {
    hide Quo, Rem;
    var kept := r % B64 * B64 + n;
    QuoRem(kept, d);
    KeptPart(r, n);
    DigitFits(r, n, d, Quo(kept, d));
    if r >= B64 {
      LargerQuotient(kept, r * B64 + n, d);
    }
  }

  lemma KeptPart(r: nat, n: nat)
    ensures r % B64 * B64 + n <= r * B64 + n
    ensures r < B64 ==> r % B64 == r
    ensures r >= B64 ==> r % B64 * B64 + n + B128 <= r * B64 + n
  {
    assert r == B64 * (r / B64) + r % B64;
  }

  lemma LargerQuotient(a: nat, b: nat, d: nat)
    requires d > 0 && a + d <= b
    ensures Quo(a, d) < Quo(b, d)
  {
    hide Quo, Rem;
    QuoRem(a, d);
    QuoRem(b, d);
    if Quo(a, d) >= Quo(b, d) {
      MulLe(d, Quo(b, d), Quo(a, d));
    }
  }

  // The last step, with the quotient u of the upper words found
  lemma LastDigit(upper: nat, n0: U64, d: U128, u: nat)
    requires d > 0 && u == Quo(upper, d)
    ensures var r := Rem(upper, d);
            var q0 := Quo(r % B64 * B64 + n0, d);
            && q0 < B64 && r < d && (d <= B64 ==> r < B64)
            && (u * B64 + q0 == Quo(upper * B64 + n0, d) <==> r < B64)
            && (r == Rem(upper * B64 + n0, d) <==> Rem(r * (B64 - 1) + n0, d) == 0)
  {
    hide Quo, Rem;
    QuoRem(upper, d);
    BringDown(upper, n0, d);
    LostBits(Rem(upper, d), n0, d);
    StaleRemainder(Rem(upper, d), n0, d);
  }

  // Divides n2||n1||n0 by d, one 64-bit digit at a time.
  //
  // The quotient is right exactly when the remainder of the upper two words fits in 64 bits, which it
  // always does for d <= 2^64; otherwise the shift of that remainder drops bits.  The remainder
  // returned is that of the upper two words: the last step divides but never updates it.
  method Udiv192by128(n2: U64, n1: U64, n0: U64, d: U128) returns (q2: U64, q1: U64, q0: U64, rem: U128)
    requires d > 0
    ensures rem == Rem(n2 * B64 + n1, d)
    ensures (q2 * B64 + q1) * B64 + q0 == Quo((n2 * B64 + n1) * B64 + n0, d) <==> Rem(n2 * B64 + n1, d) < B64
    ensures d <= B64 ==> Rem(n2 * B64 + n1, d) < B64
    ensures rem == Rem((n2 * B64 + n1) * B64 + n0, d) <==> Rem(Rem(n2 * B64 + n1, d) * (B64 - 1) + n0, d) == 0
  {
    hide Pow2, Shl, Low, BitOr, Quo, Rem;
    ghost var upper: nat := n2 * B64 + n1;
    QuoRem(n2, d);
    var remainder: U128 := Rem(n2, d);
    q2 := Quo(n2, d);
    JoinWord(remainder, n1);
    BringDown(n2, n1, d);
    var partial: U128 := BitOr(Low(Shl(remainder, 64), 128), n1);
    q1 := Quo(partial, d);
    QuoRem(partial, d);
    remainder := Rem(partial, d);
    JoinWord(remainder, n0);
    LastDigit(upper, n0, d, q2 * B64 + q1);
    partial := BitOr(Low(Shl(remainder, 64), 128), n0);
    q0 := Quo(partial, d);
    rem := remainder;
  }

  // The smallest dividend whose remainder comes out wrong: divided by 2, 1 leaves 1.
  method RemainderCounterexample() returns (q: nat, rem: U128)
    ensures rem == 0 && q == 0 && 2 * q + rem != 1
  {
    var q2, q1, q0;
    q2, q1, q0, rem := Udiv192by128(0, 0, 1, 2);
    q := (q2 * B64 + q1) * B64 + q0;
  }
}
