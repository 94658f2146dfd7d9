/** Powers of two, the C operators `<<`, `>>`, `|`, `&`, `%` on natural numbers, and the bits of a
    number as a sequence.  Everything the emulator does with fixed-width fields is written with these.
    Each operator is defined one bit at a time, so that the facts about it are linear inductions. */
module Bits {

  function Pow2(n: nat): (p: nat)
    ensures p > 0
  {
    if n == 0 then 1 else 2 * Pow2(n - 1)
  }

  // C++ `w << n` before any truncation
  function Shl(w: nat, n: nat): (r: nat)
    ensures r >= w
    decreases n, w
  {
    if n == 0 then w else 2 * Shl(w, n - 1)
  }

  // C++ `w >> n`
  function Shr(w: nat, n: nat): nat
    decreases n, w
  {
    if n == 0 then w else Shr(w / 2, n - 1)
  }

  // The low n bits of w
  function Low(w: nat, n: nat): (r: nat)
    ensures r < Pow2(n)
    decreases n, w
  {
    if n == 0 then 0 else 2 * Low(w / 2, n - 1) + w % 2
  }

  // C++ `a | b`
  function BitOr(a: nat, b: nat): nat
    decreases a
  {
    if a == 0 then b else 2 * BitOr(a / 2, b / 2) + (if a % 2 == 1 || b % 2 == 1 then 1 else 0)
  }

  // C++ `a & b`
  function BitAnd(a: nat, b: nat): nat
    decreases a
  {
    if a == 0 then 0 else 2 * BitAnd(a / 2, b / 2) + (if a % 2 == 1 && b % 2 == 1 then 1 else 0)
  }

  // C++ `%`: the quotient truncates toward zero, so the remainder has the sign of the dividend.
  function TruncRem(a: int, b: int): (r: int)
    requires b > 0
    ensures -b < r < b
  {
    if a >= 0 then a % b else -((-a) % b)
  }

  // The low n bits of w, least significant first
  function Digits(w: nat, n: nat): (s: seq<bool>)
    ensures |s| == n
  {
    if n == 0 then [] else [w % 2 == 1] + Digits(w / 2, n - 1)
  }

  // The number whose bits, least significant first, are given
  function Value(s: seq<bool>): (v: nat)
    ensures v < Pow2(|s|)
  {
    if s == [] then 0 else (if s[0] then 1 else 0) + 2 * Value(s[1..])
  }

  // ----- powers -----

  lemma PowerOf0()
    ensures Pow2(0) == 1
  {
  }

  lemma PowerSuccessor(n: nat)
    ensures Pow2(n + 1) == 2 * Pow2(n)
  {
  }

  lemma {:induction false} Pow2Add(a: nat, b: nat)
    ensures Pow2(a + b) == Pow2(a) * Pow2(b)
  {
    if a > 0 {
      Pow2Add(a - 1, b);
      assert Pow2(a + b) == 2 * Pow2(a + b - 1);
    }
  }

  lemma {:induction false} Pow2Monotonic(a: nat, b: nat)
    requires a <= b
    ensures Pow2(a) <= Pow2(b)
  {
    if a < b {
      Pow2Monotonic(a, b - 1);
    }
  }

  // ----- division -----

  lemma MulLe(b: nat, x: int, y: int)
    requires x <= y
    ensures b * x <= b * y
  {
  }

  lemma ModOfMultiple(q: int, r: int, b: int)
    requires 0 <= r < b
    ensures (b * q + r) % b == r && (b * q + r) / b == q
  {
    var n := b * q + r;
    assert n == b * (n / b) + n % b;
    var d := n / b - q;
    assert b * d == b * (n / b) - b * q;
    MulLe(b, 1, if d >= 1 then d else 1);
    MulLe(b, if d <= -1 then d else -1, -1);
    assert d == 0;
  }

  // Division of a number given by a high part and a low part below q
  lemma HighLow(y: nat, b: nat, p: nat, q: nat)
    requires p > 0 && b < q
    ensures p * q > 0 && (y * q + b) % (p * q) == y % p * q + b && (y * q + b) / (p * q) == y / p
  {
    var h, l := y / p, y % p;
    assert y == p * h + l;
    MulLe(q, l, p - 1);
    assert q * (p - 1) == p * q - q;
    assert y * q == p * q * h + l * q;
    assert 0 <= l * q + b < p * q;
    ModOfMultiple(h, l * q + b, p * q);
  }

  // Dividing by q and then by p is dividing by their product; the remainders combine.
  lemma DivDiv(x: nat, q: nat, p: nat)
    requires p > 0 && q > 0
    ensures p * q > 0 && x / q / p == x / (p * q)
    ensures x % (p * q) == x / q % p * q + x % q
  {
    HighLow(x / q, x % q, p, q);
    assert x == x / q * q + x % q;
  }

  lemma TruncRemCongruent(a: int, b: int)
    requires b > 0
    ensures TruncRem(a, b) % b == a % b
  {
    if a < 0 {
      var q, r := (-a) / b, (-a) % b;
      assert a == b * (-q) - r;
      if r == 0 {
        ModOfMultiple(-q, 0, b);
      } else {
        assert b * (-q - 1) == b * (-q) - b;
        ModOfMultiple(-q - 1, b - r, b);
        assert -r == b * (-1) + (b - r);
        ModOfMultiple(-1, b - r, b);
      }
    }
  }

  lemma Halves(x: nat, y: nat)
    ensures (2 * x + y) / 2 == x + y / 2 && (2 * x + y) % 2 == y % 2
  {
  }

  // ----- the operators as arithmetic -----

  lemma {:induction false} ShlIsMul(w: nat, n: nat)
    ensures Shl(w, n) == w * Pow2(n)
    decreases n
  {
    if n > 0 {
      ShlIsMul(w, n - 1);
    }
  }

  lemma {:induction false} ShrIsDiv(w: nat, n: nat)
    ensures Shr(w, n) == w / Pow2(n)
    decreases n
  {
    if n > 0 {
      ShrIsDiv(w / 2, n - 1);
      DivDiv(w, 2, Pow2(n - 1));
    }
  }

  lemma {:induction false} LowIsMod(w: nat, n: nat)
    ensures Low(w, n) == w % Pow2(n)
    decreases n
  {
    if n > 0 {
      LowIsMod(w / 2, n - 1);
      DivDiv(w, 2, Pow2(n - 1));
    }
  }

  lemma {:induction false} ShlAdd(a: nat, b: nat, n: nat)
    ensures Shl(a + b, n) == Shl(a, n) + Shl(b, n)
    decreases n
  {
    if n > 0 {
      ShlAdd(a, b, n - 1);
    }
  }

  lemma {:induction false} ShlShl(w: nat, n: nat, m: nat)
    ensures Shl(Shl(w, n), m) == Shl(w, n + m)
    decreases m
  {
    if m > 0 {
      ShlShl(w, n, m - 1);
    }
  }

  lemma {:induction false} ShrShr(w: nat, n: nat, m: nat)
    ensures Shr(Shr(w, n), m) == Shr(w, n + m)
    decreases n
  {
    if n > 0 {
      ShrShr(w / 2, n - 1, m);
    }
  }

  lemma {:induction false} ShlBound(w: nat, n: nat, m: nat)
    requires w < Pow2(m)
    ensures Shl(w, n) + Pow2(n) <= Pow2(n + m)
    decreases n
  {
    if n > 0 {
      ShlBound(w, n - 1, m);
    }
  }

  // A number is its high part above its low part.
  lemma {:induction false} Split(w: nat, n: nat)
    ensures w == Shl(Shr(w, n), n) + Low(w, n)
    decreases n
  {
    if n > 0 {
      Split(w / 2, n - 1);
    }
  }

  lemma {:induction false} ShrBound(w: nat, n: nat, m: nat)
    requires w < Pow2(n + m)
    ensures Shr(w, n) < Pow2(m)
    decreases n
  {
    if n > 0 {
      ShrBound(w / 2, n - 1, m);
    }
  }

  lemma {:induction false} LowOfLow(w: nat, n: nat, m: nat)
    requires n <= m
    ensures Low(Low(w, m), n) == Low(w, n)
    decreases n
  {
    if n > 0 {
      LowOfLow(w / 2, n - 1, m - 1);
    }
  }

  lemma {:induction false} LowSmall(w: nat, n: nat)
    requires w < Pow2(n)
    ensures Low(w, n) == w
    decreases n
  {
    if n > 0 {
      LowSmall(w / 2, n - 1);
    }
  }

  // The low bits of a high part above a low part
  lemma {:induction false} LowOfSplit(hi: nat, lo: nat, n: nat, m: nat)
    requires lo < Pow2(n)
    ensures Low(Shl(hi, n) + lo, n + m) == Shl(Low(hi, m), n) + lo
    decreases n
  {
    if n > 0 {
      LowOfSplit(hi, lo / 2, n - 1, m);
      Halves(Shl(hi, n - 1), lo);
    }
  }

  lemma {:induction false} ShrOfSplit(hi: nat, lo: nat, n: nat)
    requires lo < Pow2(n)
    ensures Shr(Shl(hi, n) + lo, n) == hi
    decreases n
  {
    if n > 0 {
      ShrOfSplit(hi, lo / 2, n - 1);
      Halves(Shl(hi, n - 1), lo);
    }
  }

  // `|` joins a shifted high part and a low part that fits below it.
  lemma {:induction false} OrDisjoint(a: nat, b: nat, n: nat)
    requires b < Pow2(n)
    ensures BitOr(Shl(a, n), b) == Shl(a, n) + b
    decreases n
  {
    if n > 0 {
      OrDisjoint(a, b / 2, n - 1);
    } else {
      OrZero(a);
    }
  }

  lemma {:induction false} OrZero(a: nat)
    ensures BitOr(a, 0) == a
  {
    if a > 0 {
      OrZero(a / 2);
    }
  }

  lemma {:induction false} OrComm(a: nat, b: nat)
    ensures BitOr(a, b) == BitOr(b, a)
    decreases a
  {
    if a == 0 {
      OrZero(b);
    } else if b == 0 {
      OrZero(a);
    } else {
      OrComm(a / 2, b / 2);
    }
  }

  // `|` with all ones
  lemma {:induction false} OrOnes(a: nat, n: nat)
    requires a < Pow2(n)
    ensures BitOr(a, Pow2(n) - 1) == Pow2(n) - 1
  {
    if a > 0 {
      OrOnes(a / 2, n - 1);
      Halves(Pow2(n - 1) - 1, 1);
      assert Pow2(n) - 1 == 2 * (Pow2(n - 1) - 1) + 1;
    }
  }

  // `&` with a mask of n ones keeps the low n bits.
  lemma {:induction false} AndMask(a: nat, n: nat)
    ensures BitAnd(a, Pow2(n) - 1) == Low(a, n)
    decreases n
  {
    if n == 0 {
      AndZero(a);
    } else if a > 0 {
      AndMask(a / 2, n - 1);
      Halves(Pow2(n - 1) - 1, 1);
      assert Pow2(n) - 1 == 2 * (Pow2(n - 1) - 1) + 1;
    } else {
      LowSmall(0, n);
    }
  }

  lemma {:induction false} AndZero(a: nat)
    ensures BitAnd(a, 0) == 0
  {
    if a > 0 {
      AndZero(a / 2);
    }
  }

  // ----- numbers as bit sequences -----

  // Numbers of n bits with the same bits are the same.
  lemma {:induction false} SameDigits(v: nat, w: nat, n: nat)
    requires v < Pow2(n) && w < Pow2(n) && Digits(v, n) == Digits(w, n)
    ensures v == w
  {
    if n > 0 {
      assert Digits(v, n)[0] == Digits(w, n)[0];
      assert Digits(v / 2, n - 1) == Digits(v, n)[1..];
      assert Digits(w / 2, n - 1) == Digits(w, n)[1..];
      SameDigits(v / 2, w / 2, n - 1);
    }
  }

  lemma {:induction false} DigitsOfValue(s: seq<bool>)
    ensures Digits(Value(s), |s|) == s
  {
    if s != [] {
      DigitsOfValue(s[1..]);
      Halves(Value(s[1..]), if s[0] then 1 else 0);
    }
  }

  lemma {:induction false} DigitsOfZero(n: nat, i: nat)
    requires i < n
    ensures !Digits(0, n)[i]
  {
    if i > 0 {
      DigitsOfZero(n - 1, i - 1);
    }
  }

  // Placing one number above another concatenates their digits.
  lemma {:induction false} DigitsConcat(hi: nat, lo: nat, h: nat, l: nat)
    requires lo < Pow2(l)
    ensures Digits(Shl(hi, l) + lo, l + h) == Digits(lo, l) + Digits(hi, h)
    decreases l
  {
    if l > 0 {
      var w := Shl(hi, l) + lo;
      DigitsConcat(hi, lo / 2, h, l - 1);
      Halves(Shl(hi, l - 1), lo);
      assert Digits(w, l + h) == [w % 2 == 1] + Digits(w / 2, l + h - 1);
      assert Digits(lo, l) == [lo % 2 == 1] + Digits(lo / 2, l - 1);
    }
  }

  // Bit i of a number
  lemma {:induction false} DigitAt(w: nat, n: nat, i: nat)
    requires i < n
    ensures Digits(w, n)[i] <==> w / Pow2(i) % 2 == 1
    decreases i
  {
    hide Pow2;
    if i > 0 {
      DigitAt(w / 2, n - 1, i - 1);
      PowerSuccessor(i - 1);
      DivDiv(w, 2, Pow2(i - 1));
    } else {
      PowerOf0();
    }
  }
}
