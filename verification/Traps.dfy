/** Traps in the instruction loop (src/km10.cpp:678-683): what the trap's vector saves, and when the loop
    gets out of the vector again. */
module Traps {
  import opened Words
  import opened Wrappers
  import opened EffectiveAddress
  import opened Machine
  import opened JumpGroup
  import opened Emulator
  import opened ControlFlow
  import DWordGroup
  import IntBinGroup
  import Rotation

  predicate TrapUp(f: Flags) { TR1 in f || TR2 in f }

  // The iteration takes the trap cycle: it fetches the trap's vector and nothing else.
  predicate TakesTrap(c: Cpu, e: Event) { TrapUp(c.flags) && e.pagerOn }

  // ----- the address a trap saves -----

  // By how much an instruction that does not jump moves the program counter.  A HALT and an XCT leave it.
  function Moves(r: IResult, inVector: bool): nat
  {
    match r
    case INormal => if inVector then 0 else 1
    case ISkip => if inVector then 1 else 2
    case IHALT => 0
    case IXCT => 0
    case _ => 1
  }

  // The address the program counter holds after an instruction in state c with effect and outcome p
  function Following(c: Cpu, e: Event, p: (Cpu, IResult)): nat
  {
    if p.1 == IJump then Rh(p.0.ea) else (Rh(c.pc) + Moves(p.1, c.inInterrupt || Enters(c, e))) % B18
  }

  // What an iteration executes: the state and the outcome; not one of the UUOs, which go on from an
  // address of their own.
  predicate Executes(c: Cpu, e: Event, p: (Cpu, IResult))
  {
    Performed(e.other, Select(c, e), Instruction(c, e)) == Some(p) && p.1 != IMUUO && p.1 != ILUUO
  }

  // An instruction that leaves a trap flag up, whatever its outcome, and a JSR in the trap vector: what
  // is saved is the address that the program counter holds after the instruction.
  lemma TrapSavesNext(c: Cpu, e: Event, p: (Cpu, IResult), e': Event, target: nat)
    requires WellBehaved(e.other) && Executes(c, e, p)
    requires TakesTrap(Finish(p.0, p.1), e') && Fetches(Finish(p.0, p.1), e', 180, target) && target < B18
    ensures Iterated(c, e) == Some(Finish(p.0, p.1))
    ensures var x := Finish(p.0, p.1);
            && Iterated(x, e').Some?
            && Iterated(x, e').value.space == x.space[target := FlagsWord(x.flags, Following(c, e, p))]
            && !TrapUp(Iterated(x, e').value.flags)
  {
    var x := Finish(p.0, p.1);
    TrapAdvances(c, e, p);
    assert Enters(x, e');
    hide *;
    JsrStep(x, e', target);
  }

  lemma TrapAdvances(c: Cpu, e: Event, p: (Cpu, IResult))
    requires WellBehaved(e.other) && Executes(c, e, p)
    ensures Iterated(c, e) == Some(Finish(p.0, p.1)) && Rh(Finish(p.0, p.1).pc) == Following(c, e, p)
  {
    hide EA, FieldsOf, Rh, Execute, Completes, WellBehaved, Vma, SetVma;
    var s := Select(c, e);
    var d := Decoded(s, s.space[Rh(s.fetchPC)]).value;
    ExecuteKeepsPC(e.other, d);
    NextAddress(c.pc, 0);
    NextAddress(c.pc, 1);
    NextAddress(c.pc, 2);
    SmallHalf(c.pc);
    if p.1 == IJump {
      JumpsTo(p.0);
      NextAddress(p.0.ea, 0);
      SmallHalf(p.0.ea);
    }
  }

  // Outside a vector, the address saved is that of the instruction that left the flag up exactly if it
  // halted, was an XCT, or jumped to itself.
  lemma TrapSavesItselfIff(c: Cpu, e: Event, p: (Cpu, IResult), e': Event, target: nat)
    requires WellBehaved(e.other) && Executes(c, e, p) && Quiet(e, c.flags) && !c.inInterrupt
    requires Vma(c.fetchPC) == Vma(c.pc)
    requires TakesTrap(Finish(p.0, p.1), e') && Fetches(Finish(p.0, p.1), e', 180, target) && target < B18
    ensures Iterated(c, e) == Some(Finish(p.0, p.1)) && Iterated(Finish(p.0, p.1), e').Some?
    ensures Rh(Iterated(Finish(p.0, p.1), e').value.space[target]) == Rh(c.fetchPC)
       <==> p.1 == IHALT || p.1 == IXCT || (p.1 == IJump && Rh(p.0.ea) == Rh(c.fetchPC))
  {
    TrapSavesNext(c, e, p, e', target);
    SameHalf(c.pc, c.fetchPC);
    SmallHalf(c.pc);
    OtherAddress(c.pc, 1);
    OtherAddress(c.pc, 2);
    FollowingIsHalf(c, e, p);
    hide Rh, Vma, EA, FieldsOf, Finish, Iterated, FlagsWord, Pack, Performed, Fetches, WellBehaved, TakesTrap;
    FlagsWordRight(Finish(p.0, p.1).flags, Following(c, e, p));
  }

  lemma FollowingIsHalf(c: Cpu, e: Event, p: (Cpu, IResult))
    ensures Following(c, e, p) < B18 && Following(c, e, p) % B18 == Following(c, e, p)
  {
  }

  lemma SameHalf(v: Word, w: Word)
    requires Vma(v) == Vma(w)
    ensures Rh(v) == Rh(w)
  {
    hide Vma, Rh;
    HalfOfVma(v);
    HalfOfVma(w);
  }

  lemma OtherAddress(w: Word, k: nat)
    requires 1 <= k <= 2
    ensures (Rh(w) + k) % B18 != Rh(w)
  {
  }

  // PUSH 1,100 at 80 fills the stack: the JSR at 0422 saves 81.
  lemma TrapCounterexample(c: Cpu, e: Event, e': Event)
    requires WellBehaved(e.other) && e.vector == 0 && e'.pagerOn
    requires c.pc == 80 && c.fetchPC == 80 && !c.inInterrupt && c.flags == {}
    requires c.space[80] == 0x5_8880_0064 && c.space[1] == 0xF_FFFC_0000 && c.space[274] == 0x5_A000_00C8
    ensures Iterated(c, e).Some? && Iterated(Iterated(c, e).value, e').Some?
    ensures Rh(Iterated(Iterated(c, e).value, e').value.space[200]) == 81
  {
    hide WellBehaved, Iterated, EA, FieldsOf, FlagsWord, Pack;
    PushWord();
    EARecursion(c.space, Fields(false, 0, 100));
    var d := c.(iw := c.space[80], ea := 100);
    var p := (Pushed(d, d.space[100], 1), INormal);
    FullPush(d, d.space[100]);
    assert Executes(c, e, p);
    var x := Finish(p.0, p.1);
    JsrWord();
    EARecursion(x.space, Fields(false, 0, 200));
    TrapSavesNext(c, e, p, e', 200);
    FlagsWordRight(x.flags, 81);
  }

  lemma PushWord()
    ensures OpOf(0x5_8880_0064) == 177 && AcOf(0x5_8880_0064) == 1 && FieldsOf(0x5_8880_0064) == Fields(false, 0, 100)
  {
  }

  lemma JsrWord()
    ensures OpOf(0x5_A000_00C8) == 180 && FieldsOf(0x5_A000_00C8) == Fields(false, 0, 200)
  {
  }

  lemma FullPush(d: Cpu, v: Word)
    requires d.space[1] == 0xF_FFFC_0000 && d.pc == 80
    ensures Pushed(d, v, 1) == d.(space := d.space[1 := 1], flags := d.flags + {TR2})
  {
  }

  // And there the next instruction is, if nothing is pending, unless the vector or an XCT chain goes on.
  lemma FollowingIsNext(c: Cpu, e: Event, p: (Cpu, IResult))
    requires WellBehaved(e.other) && Executes(c, e, p) && p.1 != IXCT
    requires !(p.1 == INormal && (c.inInterrupt || Enters(c, e)))
    ensures Iterated(c, e) == Some(Finish(p.0, p.1)) && ContinuesAt(Finish(p.0, p.1), Following(c, e, p))
  {
    TrapAdvances(c, e, p);
    hide EA, FieldsOf, Rh, Execute, Completes, WellBehaved, Vma, SetVma, ContinuesAt;
    var s := Select(c, e);
    ExecuteKeepsPC(e.other, Decoded(s, s.space[Rh(s.fetchPC)]).value);
    hide Finish, Following;
    FinishContinues(p.0, p.1);
  }

  lemma SmallHalf(w: Word)
    ensures Rh(w) % B18 == Rh(w)
  {
  }

  lemma NextAddress(pc: Word, k: nat)
    ensures Rh(SetVma(pc, Vma(pc) + k)) == (Rh(pc) + k) % B18
  {
    hide SetVma, Rh, Vma;
    HalfOfVma(pc);
    HalfOfVma(SetVma(pc, Vma(pc) + k));
    HalfSuccessor(Vma(pc), k);
  }

  lemma HalfSuccessor(v: nat, k: nat)
    ensures (v + k) % B23 % B18 == (v % B18 + k) % B18
  {
  }

  // ----- getting out of the trap vector -----

  // After any instruction, the next iteration takes the trap cycle exactly when the pager is on and the
  // instruction left a trap flag up, whatever its outcome was.
  lemma TakesTrapIff(c: Cpu, e: Event, e': Event)
    requires Iterated(c, e).Some?
    ensures var x, w := Iterated(c, e).value, Instruction(c, e);
            && Performed(e.other, Select(c, e), w).Some?
            && (TakesTrap(x, e') <==> e'.pagerOn && TrapUp(Performed(e.other, Select(c, e), w).value.0.flags))
            && (TakesTrap(x, e') ==> Select(x, e') == x.(fetchPC := TrapVector(x.flags), inInterrupt := true))
            && (!TakesTrap(x, e') ==> Select(x, e').fetchPC == if e'.vector != 0 then e'.vector else x.fetchPC)
  {
    hide EA, FieldsOf, Rh, Execute, Completes, Vma, SetVma;
  }

  // The opcodes whose handlers are spelled out
  predicate Spelled(w: Word)
  {
    OpOf(w) in {69, 76, 77, 78, 161, 163, 165, 169, 172, 174, 176, 177, 178, 179, 180, 181}
  }

  // The instructions that take both trap flags down, told from the decoded state: JSR and JSP; PUSHJ
  // with room on its stack; JRSTF, JEN and JRST 10 from a word that does not hold them
  predicate Lowers(d: Cpu)
  {
    match OpOf(d.iw)
    case 180 => true
    case 181 => true
    case 176 => !LocalPointer(d.pc, d.space[AcOf(d.iw)]) || !StepTraps(d.space[AcOf(d.iw)], true)
    case 172 => AcOf(d.iw) in {2, 8, 10} && !TrapUp(Unpack(PcFlags(d.ea)))
    case _ => false
  }

  lemma LowersIff(other: Handler, d: Cpu)
    requires Spelled(d.iw) && Completes(d) && TrapUp(d.flags)
    ensures TrapUp(Execute(other, d).0.flags) <==> !Lowers(d)
  {
    hide LocalPointer, StepTraps, AcOf, OpOf, Pushj, Jrst, Jsr, Jsp, Popj, Adjsp, Pushed, Popped,
      DWordGroup.Dadd, DWordGroup.Dsub, DWordGroup.Dmul, IntBinGroup.Blt, IntBinGroup.Rot, IntBinGroup.Rotc,
      IntBinGroup.Jffo, TrapUp, PcFlags, Unpack;
    match OpOf(d.iw) {
      case 172 => JrstTraps(d);
      case 176 => PushjTraps(d);
      case 180 => CallTraps(d);
      case 181 => CallTraps(d);
      case 76 => ArithmeticTraps(d);
      case 77 => ArithmeticTraps(d);
      case 78 => MultiplyTraps(d);
      case _ => OthersTrap(d);
    }
  }

  lemma JrstTraps(d: Cpu)
    requires TrapUp(d.flags)
    ensures TrapUp(Jrst(d).0.flags) <==> !(AcOf(d.iw) in {2, 8, 10} && !TrapUp(Unpack(PcFlags(d.ea))))
  {
    hide AcOf, Unpack, PcFlags;
  }

  lemma PushjTraps(d: Cpu)
    ensures TrapUp(Pushj(d).flags) <==>
            LocalPointer(d.pc, d.space[AcOf(d.iw)]) && StepTraps(d.space[AcOf(d.iw)], true)
  {
    hide AcOf, LocalPointer, StepTraps, Stepped, FlagsWord, Pack, Vma, Rh, ToWord, IsSection0;
  }

  lemma CallTraps(d: Cpu)
    ensures !TrapUp(Jsr(d).flags) && !TrapUp(Jsp(d).flags)
  {
    hide SavedPC, AcOf, Rh, Lh, Join;
  }

  lemma ArithmeticTraps(d: Cpu)
    requires TrapUp(d.flags) && AcOf(d.iw) < 15
    ensures TrapUp(DWordGroup.Dadd(d).0.flags) && TrapUp(DWordGroup.Dsub(d).0.flags)
  {
    hide AcOf, DWordGroup.Number71, DWordGroup.PutPair, DWordGroup.CarriesOut, DWordGroup.CarriesInto, DWordGroup.Sum;
  }

  lemma MultiplyTraps(d: Cpu)
    requires TrapUp(d.flags) && AcOf(d.iw) < 13
    ensures TrapUp(DWordGroup.Dmul(d).0.flags)
  {
    hide AcOf, DWordGroup.DmulQuad, DWordGroup.PutQuad, DWordGroup.IsMaxNeg;
  }

  // The stack, block and rotate instructions add to the flags at most.
  lemma OthersTrap(d: Cpu)
    requires TrapUp(d.flags)
    ensures TrapUp(Adjsp(d).0.flags) && TrapUp(Popj(d).flags) && TrapUp(Popped(d, AcOf(d.iw)).0.flags)
    ensures TrapUp(Pushed(d, d.space[d.ea % B18], AcOf(d.iw)).flags)
    ensures IntBinGroup.Rot(d).flags == d.flags && IntBinGroup.Blt(d).flags == d.flags
    ensures AcOf(d.iw) < 15 ==> IntBinGroup.Rotc(d).flags == d.flags && IntBinGroup.Jffo(d).0.flags == d.flags
  {
    hide AcOf, LocalPointer, StepTraps, Stepped, Signed18, Lh, Rh, Join, ToWord, Vma, IsSection0, IntBinGroup.BltSteps,
      IntBinGroup.BltCount, IntBinGroup.Shifts, IntBinGroup.AcPair72;
  }

  // The decoded state of an iteration lowers the flags.
  predicate LowersAt(c: Cpu, e: Event)
  {
    match Decoded(Select(c, e), Instruction(c, e))
    case None => false
    case Some(d) => Lowers(d)
  }

  lemma TrapAgainIff(c: Cpu, e: Event)
    requires TakesTrap(c, e) && Spelled(Instruction(c, e)) && Iterated(c, e).Some?
    ensures TrapUp(Iterated(c, e).value.flags) <==> !LowersAt(c, e)
  {
    hide EA, FieldsOf, Rh, Execute, Completes, Vma, SetVma, Lowers, Spelled, TrapUp, Finish;
    TakesTrapIff(c, e, e);
    var s := Select(c, e);
    LowersIff(e.other, Decoded(s, Instruction(c, e)).value);
  }

  // Along a run: only spelled-out instructions are executed; none of them lowers the flags; every state
  // it goes through, the last one included, has a trap flag up.
  predicate AllSpelled(c: Cpu, events: seq<Event>)
    decreases |events|
  {
    if events == [] then true
    else
      var prefix := events[..|events| - 1];
      AllSpelled(c, prefix) && Run(c, prefix).Some?
      && Spelled(Instruction(Run(c, prefix).value, events[|events| - 1]))
  }

  predicate NeverLowered(c: Cpu, events: seq<Event>)
    decreases |events|
  {
    if events == [] then true
    else
      var prefix := events[..|events| - 1];
      NeverLowered(c, prefix) && Run(c, prefix).Some?
      && !LowersAt(Run(c, prefix).value, events[|events| - 1])
  }

  predicate AlwaysUp(c: Cpu, events: seq<Event>)
    decreases |events|
  {
    && (events == [] || AlwaysUp(c, events[..|events| - 1]))
    && Run(c, events).Some? && TrapUp(Run(c, events).value.flags)
  }

  // With the pager on, a run that begins with a pending trap takes the trap cycle in every iteration,
  // and would take it again, exactly as long as no instruction it executes lowers the trap flags.
  lemma {:induction false} TrapLoopIff(c: Cpu, events: seq<Event>)
    requires TrapUp(c.flags) && forall i :: 0 <= i < |events| ==> events[i].pagerOn
    requires Run(c, events).Some? && AllSpelled(c, events)
    ensures AlwaysUp(c, events) <==> NeverLowered(c, events)
    decreases |events|
  {
    hide Iterated, Instruction, Spelled, LowersAt, TrapUp;
    if events != [] {
      var prefix := events[..|events| - 1];
      TrapLoopIff(c, prefix);
      UpAtEnd(c, prefix);
      var d := Run(c, prefix).value;
      if AlwaysUp(c, prefix) {
        TrapAgainIff(d, events[|events| - 1]);
      }
    } else {
      assert Run(c, events) == Some(c);
    }
  }

  lemma UpAtEnd(c: Cpu, events: seq<Event>)
    ensures AlwaysUp(c, events) ==> Run(c, events).Some? && TrapUp(Run(c, events).value.flags)
  {
  }

  // An instruction that changes nothing, by the outcome given, also when the last one was normal
  ghost predicate Idles(other: Handler, d: Cpu, r: IResult)
  {
    && (r == INormal || r == IXCT)
    && Completes(d) && Execute(other, d) == (d, r)
    && Completes(d.(pcOffset := 0)) && Execute(other, d.(pcOffset := 0)) == (d.(pcOffset := 0), r)
  }

  // The state an iteration decodes in the trap vector
  function Entered(c: Cpu, w: Word, a: nat): Cpu
  {
    c.(fetchPC := TrapVector(c.flags), inInterrupt := true, iw := w, ea := ToWord(a))
  }

  // Such an instruction in the trap vector is all that is ever executed: after any number of iterations
  // the program counter, the locations and the flags are those at the trap.
  lemma {:induction false} IdleTrapNeverEnds(c: Cpu, events: seq<Event>, a: nat, r: IResult)
    requires TrapUp(c.flags) && forall i :: 0 <= i < |events| ==> events[i].pagerOn
    requires var w := c.space[TrapVector(c.flags)];
             EA(c.space, FieldsOf(w)) == Some(a)
             && forall i :: 0 <= i < |events| ==> Idles(events[i].other, Entered(c, w, a), r)
    ensures Run(c, events).Some?
    ensures events != [] ==>
              var d := Run(c, events).value;
              && Rest(d) == Rest(c.(inInterrupt := true, pcOffset := if r == INormal then 0 else c.pcOffset))
              && d.iw == c.space[TrapVector(c.flags)]
    decreases |events|
  {
    hide EA, FieldsOf, Iterated, Idles, Rest;
    if events != [] {
      var prefix, last := events[..|events| - 1], events[|events| - 1];
      IdleTrapNeverEnds(c, prefix, a, r);
      if prefix == [] {
        assert Run(c, prefix) == Some(c);
        IdleStep(c, c, last, a, r);
      } else {
        IdleStep(c, Run(c, prefix).value, last, a, r);
      }
    }
  }

  lemma IdleStep(c: Cpu, d: Cpu, e: Event, a: nat, r: IResult)
    requires TrapUp(c.flags) && e.pagerOn
    requires var w := c.space[TrapVector(c.flags)];
             EA(c.space, FieldsOf(w)) == Some(a) && Idles(e.other, Entered(c, w, a), r)
    requires d == c || Rest(d) == Rest(c.(inInterrupt := true, pcOffset := if r == INormal then 0 else c.pcOffset))
    ensures Iterated(d, e).Some?
    ensures var x := Iterated(d, e).value;
            && Rest(x) == Rest(c.(inInterrupt := true, pcOffset := if r == INormal then 0 else c.pcOffset))
            && x.iw == c.space[TrapVector(c.flags)]
  {
    hide EA, FieldsOf, Completes, Execute;
    var w := c.space[TrapVector(c.flags)];
    if d != c {
      RestParts(d, c.(inInterrupt := true, pcOffset := if r == INormal then 0 else c.pcOffset));
    }
    var s := Select(d, e);
    SmallVector(c.flags);
    assert Decoded(s, w) == Some(s.(iw := w, ea := ToWord(a)));
    assert s.(iw := w, ea := ToWord(a)) == Entered(c, w, a)
        || s.(iw := w, ea := ToWord(a)) == Entered(c, w, a).(pcOffset := 0);
  }

  lemma SmallVector(f: Flags)
    ensures Rh(TrapVector(f)) == TrapVector(f)
  {
  }

  lemma RestParts(d: Cpu, c: Cpu)
    requires Rest(d) == Rest(c)
    ensures d.space == c.space && d.flags == c.flags && d.pc == c.pc && d.pcOffset == c.pcOffset
         && d.inInterrupt == c.inInterrupt && d.running == c.running
  {
    var r, s := Rest(d), Rest(c);
    assert r.pc == s.pc && r.pcOffset == s.pcOffset && r.flags == s.flags && r.space == s.space
        && r.inInterrupt == s.inInterrupt && r.running == s.running;
  }

  // An XCT in the trap vector is such an instruction, so that the one it names is never reached ...
  lemma XctInTrapVectorNeverEnds(c: Cpu, events: seq<Event>)
    requires TrapUp(c.flags) && forall i :: 0 <= i < |events| ==> events[i].pagerOn
    requires OpOf(c.space[TrapVector(c.flags)]) == XCT && EA(c.space, FieldsOf(c.space[TrapVector(c.flags)])).Some?
    ensures Run(c, events).Some?
    ensures events != [] ==>
              var d := Run(c, events).value;
              Rest(d) == Rest(c.(inInterrupt := true)) && d.iw == c.space[TrapVector(c.flags)]
  {
    hide OpOf, EA, FieldsOf, Run, Rest;
    var w := c.space[TrapVector(c.flags)];
    var a := EA(c.space, FieldsOf(w)).value;
    forall i | 0 <= i < |events|
      ensures Idles(events[i].other, Entered(c, w, a), IXCT)
    {
    }
    IdleTrapNeverEnds(c, events, a, IXCT);
  }

  // ... and ROT by zero is another.
  lemma RotInTrapVectorNeverEnds(c: Cpu, events: seq<Event>)
    requires TrapUp(c.flags) && forall i :: 0 <= i < |events| ==> events[i].pagerOn
    requires OpOf(c.space[TrapVector(c.flags)]) == 161 && EA(c.space, FieldsOf(c.space[TrapVector(c.flags)])) == Some(0)
    ensures Run(c, events).Some?
    ensures events != [] ==>
              var d := Run(c, events).value;
              Rest(d) == Rest(c.(inInterrupt := true, pcOffset := 0)) && d.iw == c.space[TrapVector(c.flags)]
  {
    hide OpOf, AcOf, EA, FieldsOf, Run, Rest, IntBinGroup.Rot;
    var w := c.space[TrapVector(c.flags)];
    RotByZero(Entered(c, w, 0));
    RotByZero(Entered(c, w, 0).(pcOffset := 0));
    forall i | 0 <= i < |events|
      ensures Idles(events[i].other, Entered(c, w, 0), INormal)
    {
    }
    IdleTrapNeverEnds(c, events, 0, INormal);
  }

  lemma RotByZero(d: Cpu)
    requires d.ea == 0
    ensures IntBinGroup.Rot(d) == d
  {
    hide Rotation.RotWord;
    var w := d.space[AcOf(d.iw)];
    NoRotation(w);
    assert d.space[AcOf(d.iw) := w] == d.space;
  }

  lemma NoRotation(w: Word)
    ensures Rotation.RotWord(w, 0) == w
  {
  }
}
