/** The processor state and its accessors (src/km10.hpp, src/km10.cpp:145-441): the class whose
    fields the instruction handlers update, and a value that captures all of them at one moment. */
module Machine {
  import opened Bits
  import opened Words
  import opened Wrappers
  import opened EffectiveAddress

  // The 13 program flags, from the least significant bit (src/km10.hpp:160-198)
  datatype Flag = NDV | FUF | TR1 | TR2 | AFI | PUB | UIO | USR | FPD | FOV | CY1 | CY0 | OV

  // The flags that are set
  type Flags = set<Flag>

  // src/iresult.hpp:10-21
  datatype IResult = INormal | ISkip | IJump | IMUUO | ILUUO | ITrap | IHALT | IXCT | INoSuchDevice | INYI

  function FlagBits(f: Flags): seq<bool>
  {
    [NDV in f, FUF in f, TR1 in f, TR2 in f, AFI in f, PUB in f, UIO in f, USR in f, FPD in f, FOV in f,
     CY1 in f, CY0 in f, OV in f]
  }

  function BitNumber(f: Flag): (n: nat)
    ensures n < 13
  {
    match f
    case NDV => 0
    case FUF => 1
    case TR1 => 2
    case TR2 => 3
    case AFI => 4
    case PUB => 5
    case UIO => 6
    case USR => 7
    case FPD => 8
    case FOV => 9
    case CY1 => 10
    case CY0 => 11
    case OV => 12
  }

  // The 13-bit field, and the flags in it
  function Pack(f: Flags): (u: nat)
    ensures u < 0x2000
  {
    assert Pow2(13) == 0x2000;
    Value(FlagBits(f))
  }

  function Unpack(u: nat): Flags
  {
    set f: Flag | Digits(u, 13)[BitNumber(f)]
  }

  lemma UnpackPack(f: Flags)
    ensures Unpack(Pack(f)) == f
  {
    hide Digits, Value;
    DigitsOfValue(FlagBits(f));
    forall x: Flag
      ensures FlagBits(f)[BitNumber(x)] <==> x in f
    {
      match x {
        case NDV =>
        case FUF =>
        case TR1 =>
        case TR2 =>
        case AFI =>
        case PUB =>
        case UIO =>
        case USR =>
        case FPD =>
        case FOV =>
        case CY1 =>
        case CY0 =>
        case OV =>
      }
    }
  }

  lemma NoFlags()
    ensures Unpack(0) == {}
  {
    hide Digits;
    forall f: Flag
      ensures !Digits(0, 13)[BitNumber(f)]
    {
      DigitsOfZero(13, BitNumber(f));
    }
  }

  // `flagsWord`: the flags above a 23-bit address
  function FlagsWord(f: Flags, pc: nat): (w: Word)
    ensures PcFlags(w) == Pack(f) && Vma(w) == pc % B23
  {
    Pack(f) * B23 + pc % B23
  }

  // `restoreFlags`: user mode cannot clear USR or set UIO, and PUB mode cannot clear PUB.
  function RestoredFlags(current: Flags, w: Word): Flags
  {
    var n := Unpack(PcFlags(w));
    var m := if USR in current then n - {UIO} + {USR} else n;
    if PUB in current then m + {PUB} else m
  }

  // Saving the flags in a word and restoring them later, in a mode with flags `current`, gives the
  // saved flags back exactly when that mode may set them.
  lemma SavedFlagsRestoredIff(saved: Flags, current: Flags, pc: nat)
    ensures RestoredFlags(current, FlagsWord(saved, pc)) == saved
       <==> (USR in current ==> USR in saved && UIO !in saved) && (PUB in current ==> PUB in saved)
  {
    hide Pack, Unpack;
    UnpackPack(saved);
    var r := RestoredFlags(current, FlagsWord(saved, pc));
    assert USR in current && UIO in saved ==> UIO !in r;
  }

  // The whole state an instruction can see or change.  `space` is what addresses reach: the current
  // block of accumulators, then memory.
  datatype Cpu = Cpu(pc: Word, iw: Word, ea: Word, fetchPC: Word, pcOffset: nat, flags: Flags,
                     inInterrupt: bool, running: bool, space: Space)

  class KM10 {
    var pc: Word
    var iw: Word
    var ea: Word
    var fetchPC: Word
    var pcOffset: nat
    var flags: Flags
    var inInterrupt: bool
    var running: bool
    const AC: array<Word>
    const memP: array<Word>

    ghost predicate Valid()
    {
      AC.Length == 16 && memP.Length >= B18 && AC != memP
    }

    function Space(): (s: Space)
      requires Valid()
      reads AC, memP
    {
      AC[..] + memP[16..B18]
    }

    function Snapshot(): Cpu
      requires Valid()
      reads this, AC, memP
    {
      Cpu(pc, iw, ea, fetchPC, pcOffset, flags, inInterrupt, running, Space())
    }

    // `assert(n < 16)` is the callers' obligation in the source too.
    method AcGetN(n: nat) returns (v: Word)
      requires Valid() && n < 16
      ensures v == Space()[n]
    {
      v := AC[n];
    }

    method AcPutN(v: Word, n: nat)
      requires Valid() && n < 16
      modifies AC
      ensures Space() == old(Space())[n := v]
    {
      AC[n] := v;
      SameSpace(Space(), old(Space())[n := v]);
    }

    // Addresses below 020 are accumulators; only the right half of the address counts.
    method MemGetN(a: nat) returns (v: Word)
      requires Valid()
      ensures v == Space()[a % B18]
    {
      if a % B18 < 16 {
        v := AcGetN(a % B18);
      } else {
        v := memP[a % B18];
      }
    }

    method MemPutN(v: Word, a: nat)
      requires Valid()
      modifies AC, memP
      ensures Space() == old(Space())[a % B18 := v]
      ensures memP[..16] == old(memP[..16])
    {
      if a % B18 < 16 {
        AcPutN(v, a % B18);
      } else {
        memP[a % B18] := v;
        SameSpace(Space(), old(Space())[a % B18 := v]);
      }
    }

    // The loop that follows indexing and indirection.  It only ends when the chain does.
    method GetEA(i0: bool, x0: nat, y0: nat) returns (r: nat)
      requires Valid() && x0 < 16
      requires EA(Space(), Fields(i0, x0, y0)).Some?
      ensures EA(Space(), Fields(i0, x0, y0)) == Some(r)
    {
      var i, x: nat, y: nat := i0, x0, y0;
      ghost var left := B18;
      while true
        invariant x < 16
        invariant EAWithin(Space(), Fields(i, x, y), left) == EA(Space(), Fields(i0, x0, y0))
        decreases left
      {
        if x != 0 {
          var index := AcGetN(x);
          y := y + index;
        }
        if i {
          var eaw := MemGetN(y);
          y, x, i := YOf(eaw), IndexOf(eaw), IndirectOf(eaw);
          left := left - 1;
        } else {
          return y;
        }
      }
    }

    // The flags of an addition, from the signs of the operands and of the sum
    method SetADDFlags(a: bool, b: bool, sum: bool) returns (r: IResult)
      modifies `flags
      ensures flags == CarryFlags(old(flags), CarryOut(a, b, sum), CarryIn(a, b, sum))
      ensures r == CarryResult(old(flags), CarryOut(a, b, sum), CarryIn(a, b, sum))
    {
      var trapAllowed := USR in flags;
      var canTrap := false;
      if a {
        if b {
          if sum {
            flags := flags + {CY0, CY1};
          } else if trapAllowed {
            canTrap := true;
            flags := flags + {OV, TR1, CY0};
          } else {
            flags := flags + {CY0};
          }
        } else if !sum {
          flags := flags + {CY0, CY1};
        }
      } else {
        if !b {
          if sum {
            if trapAllowed {
              canTrap := true;
              flags := flags + {OV, TR1, CY1};
            } else {
              flags := flags + {CY1};
            }
          }
        } else if !sum {
          flags := flags + {CY0, CY1};
        }
      }
      if USR !in flags && canTrap {
        canTrap := false;
      }
      r := if canTrap then ITrap else INormal;
    }

    // The flags of a subtraction: those of a + ~b + 1
    method SetSUBFlags(a: bool, b: bool, diff: bool) returns (r: IResult)
      modifies `flags
      ensures flags == CarryFlags(old(flags), CarryOut(a, !b, diff), CarryIn(a, !b, diff))
      ensures r == CarryResult(old(flags), CarryOut(a, !b, diff), CarryIn(a, !b, diff))
    {
      var trapAllowed := USR in flags;
      var canTrap := false;
      if !a {
        if !b {
          if !diff {
            flags := flags + {CY0, CY1};
          }
        } else {
          if diff {
            if trapAllowed {
              canTrap := true;
              flags := flags + {OV, TR1, CY1};
            } else {
              flags := flags + {CY1};
            }
          }
        }
      } else {
        if !b {
          if diff {
            flags := flags + {CY0, CY1};
          } else if trapAllowed {
            canTrap := true;
            flags := flags + {CY0, OV, TR1};
          } else {
            flags := flags + {CY0};
          }
        } else {
          if !diff {
            flags := flags + {CY0, CY1};
          }
        }
      }
      if USR !in flags && canTrap {
        canTrap := false;
      }
      r := if canTrap then ITrap else INormal;
    }
  }

  // The carries into and out of the sign position of a + b, told from the three sign bits
  function CarryIn(a: bool, b: bool, sum: bool): bool { (a != b) != sum }
  function CarryOut(a: bool, b: bool, sum: bool): bool { (a && b) || ((a || b) && !sum) }

  lemma SameSpace(s: Space, t: Space)
    requires forall a :: 0 <= a < B18 ==> s[a] == t[a]
    ensures s == t
  {
  }

  // CY0 records a carry out of the sign position and CY1 one into it; neither is ever cleared.  When
  // they differ the result overflowed, which only user mode records and traps.
  function CarryFlags(f: Flags, out: bool, into: bool): Flags
  {
    f + (if out then {CY0} else {}) + (if into then {CY1} else {})
    + (if out != into && USR in f then {OV, TR1} else {})
  }

  function CarryResult(f: Flags, out: bool, into: bool): IResult
  {
    if out != into && USR in f then ITrap else INormal
  }
}
