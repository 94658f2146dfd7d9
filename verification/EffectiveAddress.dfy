/** The effective-address calculation of src/km10.cpp:299-327 as a definition on the address space,
    and the bound on how long it can run. */
module EffectiveAddress {
  import opened Bits
  import opened Words
  import opened Wrappers

  // The 2^18 locations an instruction can address; the first sixteen are the accumulators.
  type Space = s: seq<Word> | |s| == B18 ghost witness seq(B18, _ => 0)

  // The I, X and Y a step of the calculation starts from
  datatype Fields = Fields(i: bool, x: nat, y: nat)

  function FieldsOf(w: Word): (f: Fields)
    ensures f.x < 16
  {
    Fields(IndirectOf(w), IndexOf(w), YOf(w))
  }

  // Y plus the whole 36-bit index register.  Register 0 does not index.  The sum is not truncated.
  function Indexed(s: Space, f: Fields): nat
    requires f.x < 16
  {
    if f.x == 0 then f.y else f.y + s[f.x]
  }

  // The fields of the word an indirect reference fetches; only 18 bits of the address are used.
  function Fetched(s: Space, f: Fields): (g: Fields)
    requires f.x < 16
    ensures g.x < 16
  {
    FieldsOf(s[Indexed(s, f) % B18])
  }

  // The effective address, if the chain ends within the given number of indirect fetches
  function EAWithin(s: Space, f: Fields, fetches: nat): Option<nat>
    requires f.x < 16
    decreases fetches
  {
    if !f.i then Some(Indexed(s, f))
    else if fetches == 0 then None
    else EAWithin(s, Fetched(s, f), fetches - 1)
  }

  // The effective address: no chain that ends fetches more than 2^18 words (see LongChainsNeverEnd).
  function EA(s: Space, f: Fields): Option<nat>
    requires f.x < 16
  {
    EAWithin(s, f, B18)
  }

  // The fields reached after a number of indirect fetches
  ghost function After(s: Space, f: Fields, n: nat): (g: Fields)
    requires f.x < 16
    ensures g.x < 16
  {
    if n == 0 then f else Fetched(s, After(s, f, n - 1))
  }

  lemma {:induction false} AfterShift(s: Space, f: Fields, n: nat)
    requires f.x < 16
    ensures After(s, Fetched(s, f), n) == After(s, f, n + 1)
  {
    if n > 0 {
      AfterShift(s, f, n - 1);
    }
  }

  // The indirect bit is set in every word up to the n-th.
  ghost predicate AllIndirect(s: Space, f: Fields, n: nat)
    requires f.x < 16
  {
    forall k :: 0 <= k <= n ==> After(s, f, k).i
  }

  lemma AllIndirectStep(s: Space, f: Fields, n: nat)
    requires f.x < 16 && n > 0
    ensures AllIndirect(s, f, n) <==> f.i && AllIndirect(s, Fetched(s, f), n - 1)
  {
    hide Fetched;
    forall k | 0 <= k < n
      ensures After(s, Fetched(s, f), k) == After(s, f, k + 1)
    {
      AfterShift(s, f, k);
    }
    assert After(s, f, 0) == f;
    if f.i && AllIndirect(s, Fetched(s, f), n - 1) {
      forall k | 1 <= k <= n
        ensures After(s, f, k).i
      {
        assert After(s, Fetched(s, f), k - 1).i;
      }
    }
  }

  // That is what not ending within n fetches means.
  lemma {:induction false} NotEndedIff(s: Space, f: Fields, n: nat)
    requires f.x < 16
    ensures EAWithin(s, f, n) == None <==> AllIndirect(s, f, n)
    decreases n
  {
    hide Fetched;
    assert After(s, f, 0) == f;
    if n > 0 {
      hide AllIndirect;
      AllIndirectStep(s, f, n);
      NotEndedIff(s, Fetched(s, f), n - 1);
    }
  }

  // Two equal addresses on the way make the chain periodic from there on.
  lemma {:induction false} Periodic(s: Space, f: Fields, j: nat, period: nat, n: nat)
    requires f.x < 16 && n >= j
    requires After(s, f, j) == After(s, f, j + period)
    ensures After(s, f, n) == After(s, f, n + period)
    decreases n
  {
    if n > j {
      Periodic(s, f, j, period, n - 1);
    }
  }

  lemma {:induction false} LoopsForever(s: Space, f: Fields, j: nat, k: nat, n: nat)
    requires f.x < 16 && j < k && After(s, f, j) == After(s, f, k)
    requires AllIndirect(s, f, k)
    ensures After(s, f, n).i
    decreases n
  {
    if n > k {
      Periodic(s, f, j, k - j, n - (k - j));
      LoopsForever(s, f, j, k, n - (k - j));
    }
  }

  // Among more than `bound` numbers below `bound`, two are equal.
  lemma {:induction false} Pigeonhole(a: seq<nat>, bound: nat) returns (j: nat, k: nat)
    requires |a| > bound > 0 && forall i | 0 <= i < |a| :: a[i] < bound
    ensures j < k < |a| && a[j] == a[k]
    decreases bound
  {
    if bound == 1 {
      j, k := 0, 1;
    } else if p: nat :| p < |a| && a[p] == bound - 1 {
      if q: nat :| q < |a| && q != p && a[q] == a[p] {
        j, k := if p < q then p else q, if p < q then q else p;
      } else {
        var rest := a[..p] + a[p + 1..];
        assert forall i | 0 <= i < |rest| :: rest[i] == a[if i < p then i else i + 1] && rest[i] < bound - 1;
        j, k := Pigeonhole(rest, bound - 1);
        j, k := if j < p then j else j + 1, if k < p then k else k + 1;
      }
    } else {
      j, k := Pigeonhole(a, bound - 1);
    }
  }

  // A chain that has not ended after 2^18 fetches never ends.
  lemma LongChainsNeverEnd(s: Space, f: Fields, n: nat)
    requires f.x < 16 && EA(s, f) == None
    ensures EAWithin(s, f, n) == None
  {
    NotEndedIff(s, f, B18);
    var addresses := seq(B18 + 1, i requires 0 <= i => Indexed(s, After(s, f, i)) % B18);
    var j, k := Pigeonhole(addresses, B18);
    assert After(s, f, j + 1) == Fetched(s, After(s, f, j)) == Fetched(s, After(s, f, k)) == After(s, f, k + 1);
    EndlessFrom(s, f, j, k, n);
  }

  lemma EndlessFrom(s: Space, f: Fields, j: nat, k: nat, n: nat)
    requires f.x < 16 && j < k <= B18
    requires AllIndirect(s, f, B18)
    requires After(s, f, j + 1) == After(s, f, k + 1)
    ensures EAWithin(s, f, n) == None
  {
    assert After(s, f, k + 1).i by {
      assert After(s, f, j + 1).i;
    }
    assert AllIndirect(s, f, k + 1);
    forall m | 0 <= m <= n
      ensures After(s, f, m).i
    {
      LoopsForever(s, f, j + 1, k + 1, m);
    }
    NotEndedIff(s, f, n);
  }

  // More fetches allowed do not change an address already reached.
  lemma {:induction false} EAMonotonic(s: Space, f: Fields, m: nat, n: nat)
    requires f.x < 16 && m <= n && EAWithin(s, f, m).Some?
    ensures EAWithin(s, f, n) == EAWithin(s, f, m)
    decreases m
  {
    if f.i {
      EAMonotonic(s, Fetched(s, f), m - 1, n - 1);
    }
  }

  // Whatever bound is used, an address that is reached is the effective address.
  lemma EAIsTheAddress(s: Space, f: Fields, n: nat)
    requires f.x < 16 && EAWithin(s, f, n).Some?
    ensures EA(s, f) == EAWithin(s, f, n)
  {
    if EA(s, f) == None {
      LongChainsNeverEnd(s, f, n);
    } else if n <= B18 {
      EAMonotonic(s, f, n, B18);
    } else {
      EAMonotonic(s, f, B18, n);
    }
  }

  // The recursive definition, free of any bound: a direct reference addresses the indexed Y, an
  // indirect one whatever the word at that place addresses.
  lemma EARecursion(s: Space, f: Fields)
    requires f.x < 16
    ensures EA(s, f) == if f.i then EA(s, Fetched(s, f)) else Some(Indexed(s, f))
  {
    if f.i {
      var g := Fetched(s, f);
      if EA(s, g).Some? {
        assert EAWithin(s, f, B18 + 1) == EA(s, g);
        EAIsTheAddress(s, f, B18 + 1);
      } else {
        LongChainsNeverEnd(s, g, B18 - 1);
      }
    }
  }

  // The same in numbers: Y plus the whole index register, register 0 excepted, is the address of a direct
  // reference, and the address, cut to 18 bits, of the word an indirect reference goes on with.
  lemma EAByFields(s: Space, x: nat, y: nat)
    requires x < 16
    ensures x != 0 ==> EA(s, Fields(false, x, y)) == Some(y + s[x])
    ensures x != 0 ==> EA(s, Fields(true, x, y)) == EA(s, FieldsOf(s[(y + s[x]) % B18]))
    ensures x == 0 ==> EA(s, Fields(false, x, y)) == Some(y)
    ensures x == 0 ==> EA(s, Fields(true, x, y)) == EA(s, FieldsOf(s[y % B18]))
  {
    hide FieldsOf;
    EARecursion(s, Fields(false, x, y));
    EARecursion(s, Fields(true, x, y));
  }

  // Where the fields of an instruction stand in its word
  function InstructionWord(op: nat, ac: nat, i: bool, x: nat, y: Half): (w: Word)
    requires op < 512 && ac < 16 && x < 16
  {
    (((op * 16 + ac) * 2 + if i then 1 else 0) * 16 + x) * B18 + y
  }

  lemma InstructionLayout(op: nat, ac: nat, i: bool, x: nat, y: Half)
    requires op < 512 && ac < 16 && x < 16
    ensures var w := InstructionWord(op, ac, i, x, y);
            OpOf(w) == op && AcOf(w) == ac && FieldsOf(w) == Fields(i, x, y)
  {
    hide OpOf, AcOf, FieldsOf, InstructionWord;
    OpLayout(op, ac, i, x, y);
    AcLayout(op, ac, i, x, y);
    FieldsLayout(op, ac, i, x, y);
  }

  lemma OpLayout(op: nat, ac: nat, i: bool, x: nat, y: Half)
    requires op < 512 && ac < 16 && x < 16
    ensures OpOf(InstructionWord(op, ac, i, x, y)) == op
  {
    var bit := if i then 1 else 0;
    var rest := ac * B23 + bit * 0x40_0000 + x * B18 + y;
    ModOfMultiple(op, rest, 0x800_0000);
    assert InstructionWord(op, ac, i, x, y) == 0x800_0000 * op + rest;
  }

  lemma AcLayout(op: nat, ac: nat, i: bool, x: nat, y: Half)
    requires op < 512 && ac < 16 && x < 16
    ensures AcOf(InstructionWord(op, ac, i, x, y)) == ac
  {
    var bit := if i then 1 else 0;
    var rest := bit * 0x40_0000 + x * B18 + y;
    ModOfMultiple(op * 16 + ac, rest, B23);
    assert InstructionWord(op, ac, i, x, y) == B23 * (op * 16 + ac) + rest;
    ModOfMultiple(op, ac, 16);
  }

  lemma FieldsLayout(op: nat, ac: nat, i: bool, x: nat, y: Half)
    requires op < 512 && ac < 16 && x < 16
    ensures FieldsOf(InstructionWord(op, ac, i, x, y)) == Fields(i, x, y)
  {
    var bit := if i then 1 else 0;
    var w, high := InstructionWord(op, ac, i, x, y), (op * 16 + ac) * 2 + bit;
    ModOfMultiple(high * 16 + x, y, B18);
    ModOfMultiple(high, x, 16);
    ModOfMultiple(high, x * B18 + y, 0x40_0000);
    ModOfMultiple(op * 16 + ac, bit, 2);
    assert w == B18 * (high * 16 + x) + y;
    assert w == 0x40_0000 * high + (x * B18 + y);
  }
}
