/** The stack and jump instructions of src/i-jump.cpp: what each does to the processor state, as a
    method on the machine and as a function on its snapshot. */
module JumpGroup {
  import opened Words
  import opened EffectiveAddress
  import opened Machine

  // ----- push and pop (lines 103-137) -----

  // Both halves of the pointer count, except in the extended form.
  predicate LocalPointer(pc: Word, ac: Word)
  {
    IsSection0(pc) || Signed18(Lh(ac)) < 0 || Lh(ac) % 0x1000 == 0
  }

  // The pointer after one push or one pop, and whether that raises TR2
  function Stepped(p: Word, up: bool): Word
  {
    if up then Join(Lh(p) + 1, Rh(p) + 1) else Join(Lh(p) - 1, Rh(p) - 1)
  }

  predicate StepTraps(p: Word, up: bool)
  {
    if up then Lh(Stepped(p, up)) == 0 else Signed18(Lh(Stepped(p, up))) == -1
  }

  function Raise(f: Flags, trap: bool): Flags { if trap then f + {TR2} else f }

  function Pushed(c: Cpu, v: Word, n: nat): Cpu
    requires n < 16
  {
    var ac := c.space[n];
    if LocalPointer(c.pc, ac) then
      var next := Stepped(ac, true);
      var s := if StepTraps(ac, true) then c.space else c.space[Rh(next) := v];
      c.(space := s[n := next], flags := Raise(c.flags, StepTraps(ac, true)))
    else
      // The extended form passes its two arguments to the store the wrong way round.
      var next := ToWord((ac as int) + 1);
      c.(space := c.space[Rh(v) := Vma(next)][n := next])
  }

  function Popped(c: Cpu, n: nat): (Cpu, Word)
    requires n < 16
  {
    var ac := c.space[n];
    if LocalPointer(c.pc, ac) then
      (c.(space := c.space[n := Stepped(ac, false)], flags := Raise(c.flags, StepTraps(ac, false))),
       c.space[Rh(ac)])
    else
      (c.(space := c.space[n := ToWord((ac as int) - 1)]), c.space[Vma(ac) % B18])
  }

  method Push(m: KM10, v: Word, n: nat)
    requires m.Valid() && n < 16
    modifies m`flags, m.AC, m.memP
    ensures m.Snapshot() == Pushed(old(m.Snapshot()), v, n)
  {
    hide LocalPointer, Vma, KM10.Space, ToWord, Lh, Join;
    var ac := m.AcGetN(n);
    if LocalPointer(m.pc, ac) {
      ac := Join(Lh(ac) + 1, Rh(ac) + 1);
      if Lh(ac) == 0 {
        m.flags := m.flags + {TR2};
      } else {
        m.MemPutN(v, Rh(ac));
      }
    } else {
      ac := ToWord((ac as int) + 1);
      m.MemPutN(Vma(ac), v);
    }
    m.AcPutN(ac, n);
  }

  method Pop(m: KM10, n: nat) returns (w: Word)
    requires m.Valid() && n < 16
    modifies m`flags, m.AC
    ensures (m.Snapshot(), w) == Popped(old(m.Snapshot()), n)
  {
    hide LocalPointer, Vma, KM10.Space, ToWord;
    var ac := m.AcGetN(n);
    if LocalPointer(m.pc, ac) {
      w := m.MemGetN(Rh(ac));
      ac := Join(Lh(ac) - 1, Rh(ac) - 1);
      if Signed18(Lh(ac)) == -1 {
        m.flags := m.flags + {TR2};
      }
    } else {
      w := m.MemGetN(Vma(ac));
      ac := ToWord((ac as int) - 1);
    }
    m.AcPutN(ac, n);
  }

  // ----- ADJSP (lines 241-270) -----

  function Adjsp(c: Cpu): (Cpu, IResult)
  {
    var n := AcOf(c.iw);
    var a, e := c.space[n], Signed18(Rh(c.ea));
    if IsSection0(c.pc) || Signed18(Lh(a)) < 0 then
      var b := Join(Lh(a) + e, Rh(a) + e);
      var before, after := Signed18(Lh(a)), Signed18(Lh(b));
      var trap := (e < 0 && before >= 0 && after < 0) || (e > 0 && before < 0 && after >= 0);
      (c.(space := c.space[n := b], flags := Raise(c.flags, trap)), if trap then ITrap else INormal)
    else if Lh(a) % 0x1000 != 0 then
      (c.(space := c.space[n := ToWord((a as int) + e)]), INormal)
    else
      (c, INormal)
  }

  method DoADJSP(m: KM10) returns (r: IResult)
    requires m.Valid()
    modifies m`flags, m.AC
    ensures (m.Snapshot(), r) == Adjsp(old(m.Snapshot()))
  {
    var a := m.AcGetN(AcOf(m.iw));
    var e := Signed18(Rh(m.ea));
    r := INormal;
    if IsSection0(m.pc) || Signed18(Lh(a)) < 0 {
      var previousLH := Signed18(Lh(a));
      a := Join(Lh(a) + e, Rh(a) + e);
      m.AcPutN(a, AcOf(m.iw));
      if e < 0 {
        if previousLH >= 0 && Signed18(Lh(a)) < 0 {
          m.flags := m.flags + {TR2};
          r := ITrap;
        }
      } else if e > 0 {
        if previousLH < 0 && Signed18(Lh(a)) >= 0 {
          m.flags := m.flags + {TR2};
          r := ITrap;
        }
      }
    } else if Lh(a) % 0x1000 != 0 {
      m.AcPutN(ToWord((a as int) + e), AcOf(m.iw));
    }
  }

  // ----- subroutine calls (lines 140-208) -----

  function Delta(c: Cpu): nat { if c.inInterrupt then 0 else 1 }

  // In an interrupt the call leaves user and public mode.
  function CallFlags(f: Flags, inInterrupt: bool): Flags
  {
    if inInterrupt then f - {USR, PUB} else f
  }

  // The word JSR and JSP save: it depends on the section of the target.
  function SavedPC(c: Cpu): Word
  {
    if IsSection0(c.ea) then FlagsWord(c.flags, Rh(c.pc) + Delta(c)) else ToWord(Vma(c.pc) + Delta(c))
  }

  function Jsr(c: Cpu): Cpu
  {
    c.(space := c.space[Rh(c.ea) := SavedPC(c)], ea := Join(Lh(c.ea), Rh(c.ea) + 1),
       flags := CallFlags(c.flags - {FPD, AFI, TR2, TR1}, c.inInterrupt))
  }

  function Jsp(c: Cpu): Cpu
  {
    c.(space := c.space[AcOf(c.iw) := SavedPC(c)],
       flags := CallFlags(c.flags - {FPD, AFI, TR2, TR1}, c.inInterrupt))
  }

  // PUSHJ clears the flags before it saves them, and goes by the section of the caller.
  function Pushj(c: Cpu): Cpu
  {
    var d := c.(flags := c.flags - {FPD, AFI, TR1, TR2});
    var w := if IsSection0(c.pc) then FlagsWord(d.flags, Rh(c.pc) + Delta(c)) else ToWord(Vma(c.pc) + Delta(c));
    var p := Pushed(d, w, AcOf(c.iw));
    p.(flags := CallFlags(p.flags, c.inInterrupt))
  }

  function Popj(c: Cpu): Cpu
  {
    var (d, w) := Popped(c, AcOf(c.iw));
    d.(ea := Join(Lh(c.ea), Rh(w)))
  }

  method DoJSR(m: KM10) returns (r: IResult)
    requires m.Valid()
    modifies m`flags, m`ea, m.AC, m.memP
    ensures m.Snapshot() == Jsr(old(m.Snapshot())) && r == IJump
  {
    hide Pack;
    var delta := if m.inInterrupt then 0 else 1;
    var tmp := if IsSection0(m.ea) then FlagsWord(m.flags, Rh(m.pc) + delta) else ToWord(Vma(m.pc) + delta);
    m.MemPutN(tmp, m.ea);
    m.ea := Join(Lh(m.ea), Rh(m.ea) + 1);
    m.flags := m.flags - {FPD, AFI, TR2, TR1};
    if m.inInterrupt {
      m.flags := m.flags - {USR, PUB};
    }
    r := IJump;
  }

  method DoJSP(m: KM10) returns (r: IResult)
    requires m.Valid()
    modifies m`flags, m.AC
    ensures m.Snapshot() == Jsp(old(m.Snapshot())) && r == IJump
  {
    hide Pack;
    var delta := if m.inInterrupt then 0 else 1;
    var tmp := if IsSection0(m.ea) then FlagsWord(m.flags, Rh(m.pc) + delta) else ToWord(Vma(m.pc) + delta);
    m.AcPutN(tmp, AcOf(m.iw));
    m.flags := m.flags - {FPD, AFI, TR2, TR1};
    if m.inInterrupt {
      m.flags := m.flags - {USR, PUB};
    }
    r := IJump;
  }

  method DoPUSHJ(m: KM10) returns (r: IResult)
    requires m.Valid()
    modifies m`flags, m.AC, m.memP
    ensures m.Snapshot() == Pushj(old(m.Snapshot())) && r == IJump
  {
    hide Pack;
    var delta := if m.inInterrupt then 0 else 1;
    m.flags := m.flags - {FPD, AFI, TR1, TR2};
    var w := if IsSection0(m.pc) then FlagsWord(m.flags, Rh(m.pc) + delta) else ToWord(Vma(m.pc) + delta);
    Push(m, w, AcOf(m.iw));
    if m.inInterrupt {
      m.flags := m.flags - {USR, PUB};
    }
    r := IJump;
  }

  method DoPOPJ(m: KM10) returns (r: IResult)
    requires m.Valid()
    modifies m`flags, m`ea, m.AC
    ensures m.Snapshot() == Popj(old(m.Snapshot())) && r == IJump
  {
    var w := Pop(m, AcOf(m.iw));
    m.ea := Join(Lh(m.ea), Rh(w));
    r := IJump;
  }

  // ----- JRST and its variants (lines 27-78); the unimplemented ones just jump -----

  function Jrst(c: Cpu): (Cpu, IResult)
  {
    match AcOf(c.iw)
    case 2 => (c.(flags := RestoredFlags(c.flags, c.ea)), IJump)                            // JRSTF
    case 4 => (c.(running := false), IHALT)                                                 // HALT
    case 6 => (c.(inInterrupt := false), IJump)                                             // XJEN
    case 8 => (c.(flags := RestoredFlags(c.flags, c.ea)), IJump)                            // 25440
    case 10 => (c.(inInterrupt := false, flags := RestoredFlags(c.flags, c.ea)), IJump)     // JEN
    case _ => (c, IJump)
  }

  method DoJRST(m: KM10) returns (r: IResult)
    requires m.Valid()
    modifies m`flags, m`running, m`inInterrupt
    ensures (m.Snapshot(), r) == Jrst(old(m.Snapshot()))
  {
    r := IJump;
    match AcOf(m.iw)
    case 2 =>
      m.flags := RestoredFlags(m.flags, m.ea);
    case 4 =>
      m.running := false;
      r := IHALT;
    case 6 =>
      m.inInterrupt := false;
    case 8 =>
      m.flags := RestoredFlags(m.flags, m.ea);
    case 10 =>
      m.inInterrupt := false;
      m.flags := RestoredFlags(m.flags, m.ea);
    case _ =>
  }
}
