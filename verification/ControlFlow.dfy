/** What the instruction loop promises about the program counter: XCT chains, interrupt vectors,
    calls from them, and the returns. */
module ControlFlow {
  import opened Bits
  import opened Words
  import opened Wrappers
  import opened EffectiveAddress
  import opened Machine
  import opened JumpGroup
  import opened Emulator
  import DWordGroup
  import IntBinGroup
  import StackLaws

  function WithFetch(c: Cpu, f: Word): Cpu { c.(fetchPC := f) }

  // What every implemented handler of the source keeps to: it does not look at the fetch address, and
  // replaces it only for a UUO; it leaves the program counter alone unless it jumps or is a UUO; and it
  // leaves the interrupt state alone when it reports a normal instruction, a skip, a trap or an XCT.
  ghost predicate WellBehaved(h: Handler)
  {
    && (forall c: Cpu, f: Word :: SameOutcome(c, f, h(c), h(WithFetch(c, f))))
    && (forall c: Cpu :: KeepsPC(c, h(c)))
  }

  ghost predicate SameOutcome(c: Cpu, f: Word, p: (Cpu, IResult), q: (Cpu, IResult))
  {
    && p.1 == q.1
    && WithFetch(p.0, 0) == WithFetch(q.0, 0)
    && if p.1 == IMUUO || p.1 == ILUUO then p.0.fetchPC == q.0.fetchPC
       else p.0.fetchPC == c.fetchPC && q.0.fetchPC == f
  }

  ghost predicate KeepsPC(c: Cpu, p: (Cpu, IResult))
  {
    && (p.1 in {INormal, ISkip, ITrap, IXCT} ==> p.0.inInterrupt == c.inInterrupt)
    && (p.1 !in {IJump, IMUUO, ILUUO} ==> p.0.pc == c.pc)
  }

  // A handler that only reports a missing instruction keeps to it.
  lemma UnimplementedIsWellBehaved()
    ensures WellBehaved((c: Cpu) => (c, INYI))
  {
    forall c: Cpu, f: Word
      ensures SameOutcome(c, f, (c, INYI), (WithFetch(c, f), INYI))
    {
    }
  }

  // The same of a handler that never touches the fetch address
  ghost predicate Untouched(c: Cpu, f: Word, p: (Cpu, IResult), q: (Cpu, IResult))
  {
    p.1 == q.1 && p.1 != IMUUO && p.1 != ILUUO && p.0.fetchPC == c.fetchPC && q.0 == WithFetch(p.0, f)
  }

  lemma CallsIgnoreFetch(c: Cpu, f: Word)
    ensures Jsr(WithFetch(c, f)) == WithFetch(Jsr(c), f) && Jsr(c).fetchPC == c.fetchPC
    ensures Jsp(WithFetch(c, f)) == WithFetch(Jsp(c), f) && Jsp(c).fetchPC == c.fetchPC
  {
    hide CallFlags, FlagsWord, Pack, IsSection0, ToWord, Vma, Join, Lh, Rh;
  }

  lemma JrstIgnoresFetch(c: Cpu, f: Word)
    ensures Untouched(c, f, Jrst(c), Jrst(WithFetch(c, f)))
  {
    hide RestoredFlags, AcOf;
  }

  lemma StackIgnoresFetch(c: Cpu, f: Word, v: Word, n: nat)
    requires n < 16
    ensures Pushed(WithFetch(c, f), v, n) == WithFetch(Pushed(c, v, n), f) && Pushed(c, v, n).fetchPC == c.fetchPC
    ensures Popped(WithFetch(c, f), n) == (WithFetch(Popped(c, n).0, f), Popped(c, n).1)
    ensures Popped(c, n).0.fetchPC == c.fetchPC
  {
    hide LocalPointer, Stepped, StepTraps;
  }

  lemma PopjIgnoresFetch(c: Cpu, f: Word)
    ensures Popj(WithFetch(c, f)) == WithFetch(Popj(c), f) && Popj(c).fetchPC == c.fetchPC
  {
    hide Popped, Join, Lh, Rh, AcOf;
    StackIgnoresFetch(c, f, 0, AcOf(c.iw));
  }

  lemma PushjIgnoresFetch(c: Cpu, f: Word)
    ensures Pushj(WithFetch(c, f)) == WithFetch(Pushj(c), f) && Pushj(c).fetchPC == c.fetchPC
  {
    hide Pushed, FlagsWord, Pack, IsSection0, CallFlags, ToWord, Vma, Rh, AcOf;
    var d := c.(flags := c.flags - {FPD, AFI, TR1, TR2});
    var w := if IsSection0(c.pc) then FlagsWord(d.flags, Rh(c.pc) + Delta(c)) else ToWord(Vma(c.pc) + Delta(c));
    StackIgnoresFetch(d, f, w, AcOf(c.iw));
    assert WithFetch(c, f).(flags := d.flags) == WithFetch(d, f);
  }

  lemma AdjspIgnoresFetch(c: Cpu, f: Word)
    ensures Untouched(c, f, Adjsp(c), Adjsp(WithFetch(c, f)))
  {
    hide IsSection0, ToWord, Lh, Rh, AcOf, Join, Signed18, Raise;
  }

  lemma ArithmeticIgnoresFetch(c: Cpu, f: Word)
    ensures IntBinGroup.Rot(WithFetch(c, f)) == WithFetch(IntBinGroup.Rot(c), f)
        && IntBinGroup.Rot(c).fetchPC == c.fetchPC
    ensures IntBinGroup.Blt(WithFetch(c, f)) == WithFetch(IntBinGroup.Blt(c), f)
        && IntBinGroup.Blt(c).fetchPC == c.fetchPC
  {
    hide IntBinGroup.BltSteps, IntBinGroup.BltCount;
  }

  lemma RotcIgnoresFetch(c: Cpu, f: Word)
    requires AcOf(c.iw) < 15
    ensures IntBinGroup.Rotc(WithFetch(c, f)) == WithFetch(IntBinGroup.Rotc(c), f)
        && IntBinGroup.Rotc(c).fetchPC == c.fetchPC
  {
    assert IntBinGroup.AcPair72(WithFetch(c, f)) == IntBinGroup.AcPair72(c);
  }

  lemma JffoIgnoresFetch(c: Cpu, f: Word)
    requires AcOf(c.iw) < 15
    ensures Untouched(c, f, IntBinGroup.Jffo(c), IntBinGroup.Jffo(WithFetch(c, f)))
  {
    hide IntBinGroup.Shifts;
  }

  lemma AddedIgnoresFetch(c: Cpu, f: Word, b: nat, carry: nat)
    requires AcOf(c.iw) < 15
    ensures Untouched(c, f, DWordGroup.Added(c, b, carry), DWordGroup.Added(WithFetch(c, f), b, carry))
  {
    hide CarryFlags, DWordGroup.CarriesOut, DWordGroup.CarriesInto, DWordGroup.Number71, DWordGroup.Sum,
        DWordGroup.PutPair;
  }

  lemma DoubleIgnoresFetch(c: Cpu, f: Word)
    requires AcOf(c.iw) < 15
    ensures Untouched(c, f, DWordGroup.Dadd(c), DWordGroup.Dadd(WithFetch(c, f)))
    ensures Untouched(c, f, DWordGroup.Dsub(c), DWordGroup.Dsub(WithFetch(c, f)))
  {
    hide DWordGroup.Added, Untouched, DWordGroup.Number71;
    AddedIgnoresFetch(c, f, DWordGroup.MemPair(c), 0);
    AddedIgnoresFetch(c, f, B71 - 1 - DWordGroup.MemPair(c), 1);
  }

  lemma DmulIgnoresFetch(c: Cpu, f: Word)
    requires AcOf(c.iw) < 13
    ensures Untouched(c, f, DWordGroup.Dmul(c), DWordGroup.Dmul(WithFetch(c, f)))
  {
    hide DWordGroup.DmulQuad, DWordGroup.PutQuad, DWordGroup.IsMaxNeg;
  }

  // The whole dispatch is well-behaved if the handlers left out are.
  lemma ExecuteIgnoresFetch(other: Handler, c: Cpu, f: Word)
    requires WellBehaved(other) && Completes(c)
    ensures SameOutcome(c, f, Execute(other, c), Execute(other, WithFetch(c, f)))
  {
    hide Adjsp, Pushed, Popped, Pushj, Popj, Jsr, Jsp, Jrst, IntBinGroup.Rot, IntBinGroup.Rotc, IntBinGroup.Blt,
      IntBinGroup.Jffo,
      DWordGroup.Dadd, DWordGroup.Dsub, DWordGroup.Dmul, OpOf, AcOf, WellBehaved;
    match OpOf(c.iw) {
      case 69 => AdjspIgnoresFetch(c, f);
      case 76 => DoubleIgnoresFetch(c, f);
      case 77 => DoubleIgnoresFetch(c, f);
      case 78 => DmulIgnoresFetch(c, f);
      case 161 => ArithmeticIgnoresFetch(c, f);
      case 163 => JffoIgnoresFetch(c, f);
      case 165 => RotcIgnoresFetch(c, f);
      case 169 => ArithmeticIgnoresFetch(c, f);
      case 172 => JrstIgnoresFetch(c, f);
      case 176 => PushjIgnoresFetch(c, f);
      case 177 => StackIgnoresFetch(c, f, c.space[c.ea % B18], AcOf(c.iw));
      case 178 => StackIgnoresFetch(c, f, 0, AcOf(c.iw));
      case 179 => PopjIgnoresFetch(c, f);
      case 180 => CallsIgnoreFetch(c, f);
      case 181 => CallsIgnoreFetch(c, f);
      case _ => OtherIgnoresFetch(other, c, f);
    }
  }

  lemma OtherIgnoresFetch(other: Handler, c: Cpu, f: Word)
    requires WellBehaved(other)
    ensures SameOutcome(c, f, other(c), other(WithFetch(c, f)))
  {
  }

  lemma ExecuteKeepsPC(other: Handler, c: Cpu)
    requires WellBehaved(other) && Completes(c)
    ensures KeepsPC(c, Execute(other, c))
  {
    hide Adjsp, Pushed, Popped, Pushj, Popj, Jsr, Jsp, Jrst, IntBinGroup.Rot, IntBinGroup.Rotc, IntBinGroup.Blt,
      IntBinGroup.Jffo, DWordGroup.Dadd, DWordGroup.Dsub, DWordGroup.Dmul, OpOf, AcOf;
    assert KeepsPC(c, other(c));
    match OpOf(c.iw) {
      case 69 => StackKeepsPC(c, 0, 0);
      case 76 => ArithmeticKeepsPC(c);
      case 77 => ArithmeticKeepsPC(c);
      case 78 => ArithmeticKeepsPC(c);
      case 161 => ArithmeticKeepsPC(c);
      case 163 => ArithmeticKeepsPC(c);
      case 165 => ArithmeticKeepsPC(c);
      case 169 => ArithmeticKeepsPC(c);
      case 172 => JrstKeepsPC(c);
      case 177 => StackKeepsPC(c, c.space[c.ea % B18], AcOf(c.iw));
      case 178 => StackKeepsPC(c, 0, AcOf(c.iw));
      case _ =>
    }
  }

  lemma ArithmeticKeepsPC(c: Cpu)
    ensures AcOf(c.iw) < 15 ==> KeepsPC(c, DWordGroup.Dadd(c)) && KeepsPC(c, DWordGroup.Dsub(c))
    ensures AcOf(c.iw) < 13 ==> KeepsPC(c, DWordGroup.Dmul(c))
    ensures AcOf(c.iw) < 15 ==> KeepsPC(c, (IntBinGroup.Rotc(c), INormal)) && KeepsPC(c, IntBinGroup.Jffo(c))
    ensures KeepsPC(c, (IntBinGroup.Rot(c), INormal)) && KeepsPC(c, (IntBinGroup.Blt(c), INormal))
  {
    hide AcOf, DWordGroup.Number71, DWordGroup.PutPair, DWordGroup.CarriesOut, DWordGroup.CarriesInto, DWordGroup.Sum,
      CarryFlags, DWordGroup.DmulQuad, DWordGroup.PutQuad, DWordGroup.IsMaxNeg, IntBinGroup.BltSteps,
      IntBinGroup.BltCount, IntBinGroup.Shifts, IntBinGroup.AcPair72;
  }

  lemma StackKeepsPC(c: Cpu, v: Word, n: nat)
    requires n < 16
    ensures KeepsPC(c, Adjsp(c))
    ensures Pushed(c, v, n).pc == c.pc && Pushed(c, v, n).inInterrupt == c.inInterrupt
    ensures Popped(c, n).0.pc == c.pc && Popped(c, n).0.inInterrupt == c.inInterrupt
  {
    hide AcOf, LocalPointer, Stepped, StepTraps, Signed18, Join, Lh, Rh, ToWord, Vma, IsSection0;
  }

  lemma JrstKeepsPC(c: Cpu)
    ensures KeepsPC(c, Jrst(c))
  {
    hide AcOf, RestoredFlags;
  }

  // The instruction an iteration executes, given what is pending
  function Instruction(c: Cpu, e: Event): Word
  {
    c.space[Rh(Select(c, e).fetchPC)]
  }

  // The program counter holds address a, and with nothing pending the word at a is executed next.
  ghost predicate ContinuesAt(x: Cpu, a: nat)
  {
    a < B18 && Rh(x.pc) == a && forall e: Event :: Quiet(e, x.flags) ==> Instruction(x, e) == x.space[a]
  }

  lemma SameFetch(x: Cpu)
    requires Vma(x.fetchPC) == Vma(x.pc)
    ensures ContinuesAt(x, Rh(x.pc))
  {
    hide Rh, Vma;
    HalfOfVma(x.pc);
    HalfOfVma(x.fetchPC);
    RightHalfBound(x.pc);
  }

  lemma RightHalfBound(w: Word)
    ensures Rh(w) < B18
  {
  }

  lemma HalfOfVma(w: Word)
    ensures Rh(w) == Vma(w) % B18
  {
    assert w == B18 * (32 * (w / B23) + w % B23 / B18) + w % B23 % B18;
  }

  // What every outcome leaves alone
  lemma FinishKeeps(d: Cpu, r: IResult)
    ensures var x := Finish(d, r);
            && x.flags == d.flags && x.space == d.space && x.iw == d.iw && x.ea == d.ea
            && (x.inInterrupt <==> d.inInterrupt && r != ISkip && r != IJump)
            && (x.running <==> d.running && r != IHALT)
            && (r == IMUUO || r == ILUUO ==> x.pc == d.pc && x.fetchPC == d.fetchPC)
  {
    hide SetVma, Vma;
  }

  // Except after a UUO, an XCT or a normal instruction in a vector, the word at the program counter is
  // next; and that has moved, from the effective address of a jump, by the offset noted.
  lemma FinishContinues(d: Cpu, r: IResult)
    requires r !in {IMUUO, ILUUO, IXCT} && !(r == INormal && d.inInterrupt)
    ensures var x := Finish(d, r);
            && ContinuesAt(x, Rh(x.pc))
            && Vma(x.pc) == ((if r == IJump then Vma(d.ea) else Vma(d.pc)) + x.pcOffset) % B23
  {
    hide Vma, SetVma, ContinuesAt;
    SameFetch(Finish(d, r));
  }

  // After a normal instruction in a vector it is the word after the one just executed, and the program
  // counter stays; after an XCT, the word at its effective address.
  lemma FinishInVector(d: Cpu, r: IResult, e: Event)
    requires (r == INormal && d.inInterrupt) || r == IXCT
    requires Quiet(e, Finish(d, r).flags)
    ensures Finish(d, r).pc == d.pc
    ensures Instruction(Finish(d, r), e) == d.space[if r == IXCT then Rh(d.ea) else (Rh(d.fetchPC) + 1) % B18]
  {
    hide Rh, Vma;
    NextInVector(d.fetchPC);
  }

  lemma NextInVector(f: Word)
    ensures Rh(Vma(f) + 1) == (Rh(f) + 1) % B18
  {
    hide Vma;
    HalfOfVma(f);
    NextHalf(Vma(f));
  }

  // ----- XCT chains -----

  const XCT := 174     // 0256

  // Where the k-th instruction of an XCT chain is fetched from, if the chain gets that far
  function ChainFetch(s: Space, fetch: Word, k: nat): Option<Word>
  {
    if k == 0 then Some(fetch)
    else
      match ChainFetch(s, fetch, k - 1)
      case None => None
      case Some(f) =>
        if OpOf(s[Rh(f)]) != XCT then None
        else
          match EA(s, FieldsOf(s[Rh(f)]))
          case None => None
          case Some(a) => Some(ToWord(a))
  }

  predicate AllQuiet(events: seq<Event>, f: Flags)
  {
    forall i :: 0 <= i < |events| ==> Quiet(events[i], f)
  }

  // The state without the three registers that every fetch overwrites
  function Rest(c: Cpu): Cpu { c.(iw := 0, ea := 0, fetchPC := 0) }

  // While nothing is pending, following the chain changes nothing but those registers.
  lemma {:induction false} ChainRun(c: Cpu, events: seq<Event>)
    requires AllQuiet(events, c.flags) && ChainFetch(c.space, c.fetchPC, |events|).Some?
    ensures Run(c, events).Some?
    ensures var d := Run(c, events).value;
            Rest(d) == Rest(c) && d.fetchPC == ChainFetch(c.space, c.fetchPC, |events|).value
    decreases |events|
  {
    hide OpOf, EA, FieldsOf, Rh;
    if events != [] {
      var prefix := events[..|events| - 1];
      ChainRun(c, prefix);
      var d := Run(c, prefix).value;
      assert Quiet(events[|events| - 1], c.flags);
      ChainStep(d, events[|events| - 1]);
    }
  }

  lemma ChainStep(d: Cpu, e: Event)
    requires Quiet(e, d.flags) && OpOf(d.space[Rh(d.fetchPC)]) == XCT
              && EA(d.space, FieldsOf(d.space[Rh(d.fetchPC)])).Some?
    ensures Iterated(d, e).Some?
    ensures var x := Iterated(d, e).value;
            Rest(x) == Rest(d) && x.fetchPC == ToWord(EA(d.space, FieldsOf(d.space[Rh(d.fetchPC)])).value)
  {
    hide OpOf, EA, FieldsOf, Rh;
  }

  // The next fetch goes by the fetch address only for a normal instruction in a vector and for a UUO.
  lemma FinishIgnoresFetch(d: Cpu, e: Cpu, r: IResult)
    requires WithFetch(d, 0) == WithFetch(e, 0)
    ensures WithFetch(Finish(d, r), 0) == WithFetch(Finish(e, r), 0)
    ensures var next, next' := Vma(Finish(d, r).fetchPC), Vma(Finish(e, r).fetchPC);
            if (r == INormal && d.inInterrupt) || r == IMUUO || r == ILUUO
            then next == next' <==> Vma(d.fetchPC) == Vma(e.fetchPC)
            else next == next'
  {
    VmaSuccessor(d.fetchPC);
    VmaSuccessor(e.fetchPC);
    hide Vma, SetVma, PcFlags;
    assert d.pc == e.pc && d.ea == e.ea && d.inInterrupt == e.inInterrupt;
  }

  lemma VmaSuccessor(f: Word)
    ensures Vma(Vma(f) + 1) == (Vma(f) + 1) % B23 && Vma(f) < B23
  {
  }

  // Executing a word fetched from f against executing it at the program counter's own fetch address
  lemma PerformIgnoresFetch(other: Handler, c: Cpu, f: Word, w: Word)
    requires WellBehaved(other)
    ensures Performed(other, WithFetch(c, f), w).Some? == Performed(other, c, w).Some?
    ensures Performed(other, c, w).Some? ==>
              Decoded(c, w).Some? &&
              var d := Decoded(c, w).value;
              SameOutcome(d, f, Performed(other, c, w).value, Performed(other, WithFetch(c, f), w).value)
  {
    hide Execute, EA, FieldsOf, WellBehaved, SameOutcome;
    if Decoded(c, w).Some? {
      var d := Decoded(c, w).value;
      assert Decoded(WithFetch(c, f), w) == Some(WithFetch(d, f));
      assert Completes(WithFetch(d, f)) == Completes(d);
      if Completes(d) {
        ExecuteIgnoresFetch(other, d, f);
      }
    }
  }

  lemma DoByRest(other: Handler, d: Cpu, c: Cpu, w: Word)
    requires Rest(d) == Rest(c)
    ensures Performed(other, d, w) == Performed(other, WithFetch(c, d.fetchPC), w)
    ensures Do(other, d, w) == Do(other, WithFetch(c, d.fetchPC), w)
  {
    hide EA, FieldsOf, Execute, Completes, Finish;
    assert d.pc == c.pc && d.pcOffset == c.pcOffset && d.flags == c.flags && d.inInterrupt == c.inInterrupt
        && d.running == c.running && d.space == c.space;
  }

  // A normal instruction at the end of the chain, while in an interrupt or trap vector
  predicate NormalInVector(p: (Cpu, IResult)) { p.1 == INormal && p.0.inInterrupt }

  // Word w executed in state c, and executed when it was fetched from f instead: the same program
  // counter, accumulators, memory and flags; the same next fetch unless f matters
  ghost predicate Agree(p: (Cpu, IResult), y: Cpu, x: Cpu, c: Cpu, f: Word)
  {
    && WithFetch(x, 0) == WithFetch(y, 0)
    && (Vma(x.fetchPC) == Vma(y.fetchPC) <==> !NormalInVector(p) || Vma(f) == Vma(c.fetchPC))
  }

  lemma DoIgnoresFetch(other: Handler, c: Cpu, f: Word, w: Word)
    requires WellBehaved(other)
    ensures Do(other, WithFetch(c, f), w).Some? == Do(other, c, w).Some? == Performed(other, c, w).Some?
    ensures Do(other, c, w).Some? ==>
              Agree(Performed(other, c, w).value, Do(other, c, w).value, Do(other, WithFetch(c, f), w).value, c, f)
  {
    hide WellBehaved, Performed, Vma, Finish, WithFetch, SameOutcome;
    PerformIgnoresFetch(other, c, f, w);
    if Performed(other, c, w).Some? {
      var p, q := Performed(other, c, w).value, Performed(other, WithFetch(c, f), w).value;
      OutcomeParts(Decoded(c, w).value, f, p, q);
      FinishIgnoresFetch(q.0, p.0, p.1);
    }
  }

  // An XCT chain of any length comes to the same program counter, accumulators, memory and flags as
  // its last word executed where the chain started.  The next fetch is the same too, except in one
  // case: a normal instruction in a vector is followed by the word after the chain's last word, not
  // by the word after the vector's.
  lemma XctChainIff(c: Cpu, events: seq<Event>, e: Event)
    requires WellBehaved(e.other)
    requires AllQuiet(events, c.flags) && Quiet(e, c.flags)
    requires ChainFetch(c.space, c.fetchPC, |events|).Some?
    ensures var f := ChainFetch(c.space, c.fetchPC, |events|).value;
            var w := c.space[Rh(f)];
            && Run(c, events + [e]).Some? == Do(e.other, c, w).Some? == Performed(e.other, c, w).Some?
            && (Do(e.other, c, w).Some? ==>
                  Agree(Performed(e.other, c, w).value, Do(e.other, c, w).value, Run(c, events + [e]).value, c, f))
  {
    hide WellBehaved, ChainFetch, Performed, Do, Rh, AllQuiet, Agree, Rest;
    var f := ChainFetch(c.space, c.fetchPC, |events|).value;
    var w := c.space[Rh(f)];
    ChainRun(c, events);
    var d := Run(c, events).value;
    assert (events + [e])[..|events|] == events;
    RestKeeps(d, c);
    assert Run(c, events + [e]) == Iterated(d, e) == Do(e.other, d, w);
    DoByRest(e.other, d, c, w);
    DoIgnoresFetch(e.other, c, f, w);
  }

  // A vector at 34 that holds XCT 200, with ROT 0,0 at 200: the word after that is next, where executing
  // the ROT in the vector itself is followed by the vector's second word.
  lemma XctCounterexample(c: Cpu, e: Event)
    requires c.inInterrupt && c.fetchPC == 34 && c.flags == {} && e.vector == 0
    requires c.space[34] == 0x5_7000_00C8 && c.space[200] == 0x5_0800_0000
    ensures Run(c, [e, e]).Some? && Run(c, [e, e]).value.fetchPC == 201
    ensures Do(e.other, c, c.space[200]).Some? && Do(e.other, c, c.space[200]).value.fetchPC == 35
  {
    VectorWords();
    EARecursion(c.space, Fields(false, 0, 200));
    EARecursion(c.space, Fields(false, 0, 0));
    hide EA, FieldsOf, OpOf, Do, Run, Iterated, Rest;
    ChainStep(c, e);
    var d := Iterated(c, e).value;
    RestKeeps(d, c);
    RestInterrupt(d, c);
    RotInVector(e.other, c, c.space[200]);
    RotInVector(e.other, d, c.space[200]);
    TwoIterations(c, d, e);
  }

  lemma VectorWords()
    ensures OpOf(0x5_7000_00C8) == XCT && FieldsOf(0x5_7000_00C8) == Fields(false, 0, 200)
    ensures OpOf(0x5_0800_0000) == 161 && FieldsOf(0x5_0800_0000) == Fields(false, 0, 0)
  {
  }

  lemma RestInterrupt(d: Cpu, c: Cpu)
    requires Rest(d) == Rest(c)
    ensures d.inInterrupt == c.inInterrupt
  {
    assert Rest(d).inInterrupt == Rest(c).inInterrupt;
  }

  lemma TwoIterations(c: Cpu, d: Cpu, e: Event)
    requires Iterated(c, e) == Some(d) && Quiet(e, d.flags)
    ensures Run(c, [e, e]) == Do(e.other, d, d.space[Rh(d.fetchPC)])
  {
    hide Do;
    assert [e, e][..1] == [e] && [e][..0] == [];
    assert Run(c, []) == Some(c);
    assert Run(c, [e]) == Some(d);
    assert Select(d, e) == d;
  }

  lemma RotInVector(other: Handler, d: Cpu, w: Word)
    requires d.inInterrupt && OpOf(w) == 161 && EA(d.space, FieldsOf(w)) == Some(0)
    ensures Do(other, d, w).Some? && Do(other, d, w).value.fetchPC == Vma(d.fetchPC) + 1
  {
    hide OpOf, EA, FieldsOf, IntBinGroup.Rot, Vma;
    RotKeeps(Decoded(d, w).value);
  }

  lemma RotKeeps(d: Cpu)
    ensures var x := IntBinGroup.Rot(d); x.fetchPC == d.fetchPC && x.inInterrupt == d.inInterrupt
  {
  }

  lemma RestKeeps(d: Cpu, c: Cpu)
    requires Rest(d) == Rest(c)
    ensures d.space == c.space && d.flags == c.flags
  {
    assert Rest(d).space == Rest(c).space && Rest(d).flags == Rest(c).flags;
  }

  lemma OutcomeParts(d: Cpu, f: Word, p: (Cpu, IResult), q: (Cpu, IResult))
    requires SameOutcome(d, f, p, q)
    ensures p.1 == q.1 && WithFetch(q.0, 0) == WithFetch(p.0, 0) && q.0.inInterrupt == p.0.inInterrupt
    ensures if p.1 == IMUUO || p.1 == ILUUO then p.0.fetchPC == q.0.fetchPC
            else p.0.fetchPC == d.fetchPC && q.0.fetchPC == f
  {
    assert WithFetch(q.0, 0).inInterrupt == WithFetch(p.0, 0).inInterrupt;
  }

  // ----- interrupt and trap vectors -----

  // The outcome of the instruction an iteration executes
  function Outcome(c: Cpu, e: Event): Option<IResult>
  {
    var s := Select(c, e);
    match Performed(e.other, s, s.space[Rh(s.fetchPC)])
    case None => None
    case Some((d, r)) => Some(r)
  }

  ghost predicate AllWellBehaved(events: seq<Event>)
  {
    forall i :: 0 <= i < |events| ==> WellBehaved(events[i].other)
  }

  // Every instruction of the run was a normal one or an XCT.
  predicate StraightLine(c: Cpu, events: seq<Event>)
    decreases |events|
  {
    if events == [] then true
    else
      var prefix := events[..|events| - 1];
      && StraightLine(c, prefix)
      && Run(c, prefix).Some?
      && Outcome(Run(c, prefix).value, events[|events| - 1]) in {Some(INormal), Some(IXCT)}
  }

  // The iteration enters a trap or interrupt vector.
  predicate Enters(c: Cpu, e: Event) { !Quiet(e, c.flags) }

  lemma StraightStep(c: Cpu, e: Event)
    requires WellBehaved(e.other) && (c.inInterrupt || Enters(c, e))
    requires Outcome(c, e) in {Some(INormal), Some(IXCT)}
    ensures Iterated(c, e).Some?
    ensures Iterated(c, e).value.pc == c.pc && Iterated(c, e).value.inInterrupt
  {
    hide EA, FieldsOf, Rh, Execute, Completes, WellBehaved, Vma;
    var s := Select(c, e);
    var d := Decoded(s, s.space[Rh(s.fetchPC)]).value;
    ExecuteKeepsPC(e.other, d);
  }

  // From the interrupted instruction on, normal instructions and XCTs in the vector (interrupted in
  // turn or not) leave the program counter at the interrupted instruction.
  lemma {:induction false} VectorKeepsPC(c: Cpu, events: seq<Event>)
    requires AllWellBehaved(events) && events != [] && (c.inInterrupt || Enters(c, events[0]))
    requires StraightLine(c, events)
    ensures Run(c, events).Some?
    ensures Run(c, events).value.pc == c.pc && Run(c, events).value.inInterrupt
    decreases |events|
  {
    hide WellBehaved, Iterated, Outcome;
    var prefix := events[..|events| - 1];
    var last := events[|events| - 1];
    if prefix == [] {
      assert Run(c, prefix) == Some(c);
      StraightStep(c, last);
    } else {
      VectorKeepsPC(c, prefix);
      StraightStep(Run(c, prefix).value, last);
    }
  }

  // A skip in a vector ends the vector with the program counter one past the interrupted instruction,
  // which is therefore never executed.
  lemma SkipLeavesVector(c: Cpu, e: Event)
    requires WellBehaved(e.other) && (c.inInterrupt || Enters(c, e))
    requires Outcome(c, e) == Some(ISkip)
    ensures Iterated(c, e).Some?
    ensures var x := Iterated(c, e).value;
            && x.pc == SetVma(c.pc, Vma(c.pc) + 1) && !x.inInterrupt
            && Vma(x.fetchPC) == Vma(x.pc) != Vma(c.pc)
  {
    hide EA, FieldsOf, Rh, Execute, Completes, WellBehaved, Vma, SetVma;
    var s := Select(c, e);
    var d := Decoded(s, s.space[Rh(s.fetchPC)]).value;
    ExecuteKeepsPC(e.other, d);
    VmaSuccessor(c.pc);
  }

  // A skip in the vector at 34, the instruction at 80 being interrupted: 81 is next.
  lemma SkipCounterexample(c: Cpu, e: Event)
    requires c.inInterrupt && c.fetchPC == 34 && c.pc == 80 && c.flags == {} && e.vector == 0
    requires c.space[34] == 0x6_E000_0000 && forall d: Cpu :: e.other(d) == (d, ISkip)
    ensures Iterated(c, e).Some? && Iterated(c, e).value.fetchPC == 81
  {
    assert OpOf(0x6_E000_0000) == 220 && FieldsOf(0x6_E000_0000) == Fields(false, 0, 0);
    EARecursion(c.space, Fields(false, 0, 0));
    hide EA, FieldsOf, OpOf;
    assert Select(c, e) == c;
  }

  predicate Fetches(c: Cpu, e: Event, op: nat, target: nat)
  {
    OpOf(Instruction(c, e)) == op && EA(c.space, FieldsOf(Instruction(c, e))) == Some(target)
  }

  // A JSR to section 0, wherever it is fetched: it saves the address of the interrupted instruction
  // in a vector, the next one otherwise, under the flags of the moment; and it ends the vector.
  lemma JsrStep(c: Cpu, e: Event, target: nat)
    requires Fetches(c, e, 180, target) && target < B18
    ensures Iterated(c, e).Some?
    ensures var x, vector := Iterated(c, e).value, c.inInterrupt || Enters(c, e);
            && x.space == c.space[target := FlagsWord(c.flags, Rh(c.pc) + (if vector then 0 else 1))]
            && Rh(x.pc) == (target + 1) % B18 && ContinuesAt(x, (target + 1) % B18) && !x.inInterrupt
            && x.flags == c.flags - {FPD, AFI, TR1, TR2} - (if vector then {USR, PUB} else {})
  {
    hide EA, FieldsOf, FlagsWord, Pack, Performed;
    var s := Select(c, e);
    var w := s.space[Rh(s.fetchPC)];
    PerformsCall(e.other, s, w, target);
    SmallAddress(target);
    JumpsTo(Jsr(s.(iw := w, ea := ToWord(target))));
  }

  lemma PerformsCall(other: Handler, s: Cpu, w: Word, target: nat)
    requires EA(s.space, FieldsOf(w)) == Some(target)
    ensures OpOf(w) == 180 ==> Performed(other, s, w) == Some((Jsr(s.(iw := w, ea := ToWord(target))), IJump))
    ensures OpOf(w) == 181 ==> Performed(other, s, w) == Some((Jsp(s.(iw := w, ea := ToWord(target))), IJump))
    ensures OpOf(w) == 176 ==> Performed(other, s, w) == Some((Pushj(s.(iw := w, ea := ToWord(target))), IJump))
    ensures OpOf(w) == 172 ==> Performed(other, s, w) == Some(Jrst(s.(iw := w, ea := ToWord(target))))
    ensures OpOf(w) == 179 ==> Performed(other, s, w) == Some((Popj(s.(iw := w, ea := ToWord(target))), IJump))
  {
    hide EA, FieldsOf, Jsr, Jsp, Pushj, Popj, Jrst, OpOf;
  }

  lemma SmallAddress(a: nat)
    requires a < B18
    ensures ToWord(a) == a && IsSection0(a) && Rh(a) == a && Lh(a) == 0
    ensures Rh(Join(0, a + 1)) == (a + 1) % B18
  {
  }

  // After a jump the program counter is the effective address, in both of its halves.
  lemma JumpsTo(c: Cpu)
    ensures Rh(Finish(c, IJump).pc) == Rh(c.ea) && Vma(Finish(c, IJump).pc) == Vma(c.ea)
    ensures IsSection0(Finish(c, IJump).pc) == IsSection0(c.ea)
    ensures ContinuesAt(Finish(c, IJump), Rh(c.ea))
    ensures Finish(c, IJump).flags == c.flags && Finish(c, IJump).space == c.space && !Finish(c, IJump).inInterrupt
  {
    hide ContinuesAt;
    FinishContinues(c, IJump);
  }

  // A JSP to section 0 saves the same word in its accumulator.
  lemma JspStep(c: Cpu, e: Event, target: nat)
    requires Fetches(c, e, 181, target) && target < B18
    ensures Iterated(c, e).Some?
    ensures var x, vector := Iterated(c, e).value, c.inInterrupt || Enters(c, e);
            && x.space == c.space[AcOf(Instruction(c, e)) := FlagsWord(c.flags, Rh(c.pc) + (if vector then 0 else 1))]
            && Rh(x.pc) == target && ContinuesAt(x, target) && !x.inInterrupt
            && x.flags == c.flags - {FPD, AFI, TR1, TR2} - (if vector then {USR, PUB} else {})
  {
    hide EA, FieldsOf, FlagsWord, Pack, Performed, AcOf;
    var s := Select(c, e);
    var w := s.space[Rh(s.fetchPC)];
    PerformsCall(e.other, s, w, target);
    SmallAddress(target);
    JumpsTo(Jsp(s.(iw := w, ea := ToWord(target))));
  }

  // A PUSHJ from section 0 with room on its stack pushes it; the flags it saves are already cleared.
  lemma PushjStep(c: Cpu, e: Event, target: nat)
    requires Fetches(c, e, 176, target) && target < B18 && IsSection0(c.pc)
    requires !StepTraps(c.space[AcOf(Instruction(c, e))], true)
    ensures Iterated(c, e).Some?
    ensures var x, vector := Iterated(c, e).value, c.inInterrupt || Enters(c, e);
            var n := AcOf(Instruction(c, e));
            var next := Stepped(c.space[n], true);
            && x.space == c.space[Rh(next) := PushedWord(c, e)][n := next]
            && Rh(x.pc) == target && ContinuesAt(x, target) && IsSection0(x.pc) && !x.inInterrupt
            && x.flags == c.flags - {FPD, AFI, TR1, TR2} - (if vector then {USR, PUB} else {})
  {
    hide EA, FieldsOf, FlagsWord, Pack, Performed, AcOf, StepTraps, Stepped, IsSection0;
    var s := Select(c, e);
    var w := s.space[Rh(s.fetchPC)];
    PerformsCall(e.other, s, w, target);
    SmallAddress(target);
    JumpsTo(Pushj(s.(iw := w, ea := ToWord(target))));
  }

  // A POPJ jumps to the right half of the word it pops.
  lemma PopjStep(c: Cpu, e: Event, target: nat)
    requires Fetches(c, e, 179, target)
    ensures Iterated(c, e).Some?
    ensures var z, (d, w) := Iterated(c, e).value, Popped(c, AcOf(Instruction(c, e)));
            z.space == d.space && z.flags == d.flags && Rh(z.pc) == Rh(w) && ContinuesAt(z, Rh(w)) && !z.inInterrupt
  {
    hide EA, FieldsOf, Performed, AcOf, Stepped, StepTraps, LocalPointer, Join, Lh;
    var s := Select(c, e);
    var w := s.space[Rh(s.fetchPC)];
    PerformsCall(e.other, s, w, target);
    JumpsTo(Popj(s.(iw := w, ea := ToWord(target))));
  }

  // A PUSHJ in section 0 with room on its stack for a word that is not the pointer itself
  predicate CallsWithRoom(c: Cpu, e: Event, target: nat)
  {
    var n := AcOf(Instruction(c, e));
    && Fetches(c, e, 176, target) && target < B18 && IsSection0(c.pc)
    && !StepTraps(c.space[n], true) && StackLaws.Cell(c.space[n], 0) != n
  }

  // A subroutine in section 0, from PUSHJ to POPJ.  The PUSHJ leaves a stack of just the return address
  // above the pointer it found.  Whatever is executed then: if the POPJ finds such a stack, execution
  // comes back to the instruction after the PUSHJ, or, from a vector, to the interrupted one; and the
  // stack pointer is what it was.
  lemma CallReturns(c: Cpu, e: Event, target: nat, y: Cpu, e': Event, target': nat)
    requires CallsWithRoom(c, e, target)
    requires StackLaws.Holds(y, AcOf(Instruction(c, e)), c.space[AcOf(Instruction(c, e))], [PushedWord(c, e)])
    requires Fetches(y, e', 179, target') && AcOf(Instruction(y, e')) == AcOf(Instruction(c, e))
    ensures Iterated(c, e).Some? && Iterated(y, e').Some?
    ensures var n := AcOf(Instruction(c, e));
            StackLaws.Holds(Iterated(c, e).value, n, c.space[n], [PushedWord(c, e)])
    ensures var z, n := Iterated(y, e').value, AcOf(Instruction(c, e));
            && Rh(z.pc) == (Rh(c.pc) + if c.inInterrupt || Enters(c, e) then 0 else 1) % B18
            && ContinuesAt(z, Rh(z.pc))
            && z.space[n] == c.space[n] && z.flags == y.flags && !z.inInterrupt
  {
    hide EA, FieldsOf, FlagsWord, Pack, AcOf, StepTraps, Stepped, Iterated, Select, Enters, Lh, StackLaws.Cell,
      StackLaws.Holds;
    var n, v := AcOf(Instruction(c, e)), PushedWord(c, e);
    PushjStep(c, e, target);
    StackLaws.PushedHolds(c, v, Iterated(c, e).value, n);
    StackLaws.PopHolds(y, n, c.space[n], [v]);
    StackLaws.HoldsPointer(Popped(y, n).0, n, c.space[n]);
    PopjStep(y, e', target');
    FlagsWordRight(c.flags - {FPD, AFI, TR1, TR2}, Rh(c.pc) + if c.inInterrupt || Enters(c, e) then 0 else 1);
  }

  // Any run of pushes and pops on the same accumulator that is balanced above the return address keeps
  // to that, and so does every store of the subroutine outside the stack.
  lemma CallReturnsAfterRun(c: Cpu, e: Event, target: nat, ops: seq<StackLaws.StackOp>, y: Cpu, e': Event,
                            target': nat)
    requires CallsWithRoom(c, e, target)
    requires var n, v := AcOf(Instruction(c, e)), PushedWord(c, e);
             && StackLaws.Reference([v], ops).Some? && StackLaws.Reference([v], ops).value.0 == [v]
             && StackLaws.Roomy(c.space[n], n, [v], ops)
             && (Iterated(c, e).Some? ==> y.space == StackLaws.Run(Iterated(c, e).value, ops, n).0.space)
    requires Fetches(y, e', 179, target') && IsSection0(y.pc) && AcOf(Instruction(y, e')) == AcOf(Instruction(c, e))
    ensures Iterated(c, e).Some? && Iterated(y, e').Some?
    ensures var z, n := Iterated(y, e').value, AcOf(Instruction(c, e));
            && Rh(z.pc) == (Rh(c.pc) + if c.inInterrupt || Enters(c, e) then 0 else 1) % B18
            && ContinuesAt(z, Rh(z.pc))
            && z.space[n] == c.space[n] && z.flags == y.flags && !z.inInterrupt
  {
    hide EA, FieldsOf, FlagsWord, Pack, AcOf, StepTraps, Stepped, Iterated, Select, Enters, Lh,
      StackLaws.Reference, StackLaws.Roomy, StackLaws.Run, StackLaws.Cell, StackLaws.Holds;
    var n, v := AcOf(Instruction(c, e)), PushedWord(c, e);
    PushjStep(c, e, target);
    var x := Iterated(c, e).value;
    StackLaws.PushedHolds(c, v, x, n);
    StackLaws.RunsAreStacks(x, ops, n, c.space[n], [v]);
    StackLaws.HoldsBySpace(StackLaws.Run(x, ops, n).0, y, n, c.space[n], [v]);
    CallReturns(c, e, target, y, e', target');
  }

  // The word a PUSHJ pushes
  function PushedWord(c: Cpu, e: Event): Word
  {
    FlagsWord(c.flags - {FPD, AFI, TR1, TR2}, Rh(c.pc) + if c.inInterrupt || Enters(c, e) then 0 else 1)
  }

  lemma FlagsWordRight(f: Flags, p: nat)
    requires p <= B18
    ensures Rh(FlagsWord(f, p)) == p % B18
  {
    hide Pack;
    var carry := p / B18;
    ModOfMultiple(Pack(f) * 32 + carry, p % B18, B18);
    assert FlagsWord(f, p) == B18 * (Pack(f) * 32 + carry) + p % B18;
  }

  // ----- returns -----

  // With nothing pending, the next instruction is w, a JRSTF (AC field 2) or a JEN (012).
  predicate FetchesReturn(c: Cpu, e: Event, w: Word)
  {
    Quiet(e, c.flags) && w == c.space[Rh(c.fetchPC)] && OpOf(w) == 172 && (AcOf(w) == 2 || AcOf(w) == 10)
  }

  lemma ReturnStep(c: Cpu, e: Event, w: Word, a: nat)
    requires FetchesReturn(c, e, w) && EA(c.space, FieldsOf(w)) == Some(a)
    ensures Iterated(c, e).Some?
    ensures var x := Iterated(c, e).value;
            Rh(x.pc) == Rh(ToWord(a)) && ContinuesAt(x, Rh(ToWord(a))) && !x.inInterrupt && x.space == c.space
                && x.flags == RestoredFlags(c.flags, ToWord(a))
  {
    hide EA, FieldsOf, RestoredFlags, OpOf, AcOf, Performed;
    PerformsCall(e.other, c, w, a);
    JumpsTo(Jrst(c.(iw := w, ea := ToWord(a))).0);
  }

  // Through an indirect word only the 18 address bits of the saved word survive ...
  lemma IndirectEA(s: Space, w: Word, f: Flags, p: nat)
    requires IndirectOf(w) && IndexOf(w) == 0 && s[YOf(w)] == FlagsWord(f, p) && p < B18
    ensures EA(s, FieldsOf(w)) == Some(p)
  {
    hide Pack;
    EARecursion(s, FieldsOf(w));
    AddressFields(f, p);
    EARecursion(s, Fetched(s, FieldsOf(w)));
  }

  lemma AddressFields(f: Flags, p: nat)
    requires p < B18
    ensures FieldsOf(FlagsWord(f, p)) == Fields(false, 0, p)
  {
    hide Pack, IndirectOf, IndexOf, Rh;
    LowFields(Pack(f), p);
  }

  // Nothing above an 18-bit address shows in the I, X and Y fields but the flags beyond them.
  lemma LowFields(q: nat, p: nat)
    requires q < 0x2000 && p < B18
    ensures var w := q * B23 + p; !IndirectOf(w) && IndexOf(w) == 0 && Rh(w) == p
  {
    var w := q * B23 + p;
    assert w / 0x40_0000 == 2 * q;
    assert w / B18 == 32 * q;
  }

  // ... while through an index register all 36 bits do.
  lemma IndexedEA(s: Space, w: Word)
    requires !IndirectOf(w) && IndexOf(w) != 0 && YOf(w) == 0
    ensures EA(s, FieldsOf(w)) == Some(s[IndexOf(w)])
  {
  }

  lemma AddressRestoresNothing(current: Flags, p: nat)
    requires p < B18
    ensures RestoredFlags(current, p) == current * {USR, PUB}
  {
    NoFlags();
  }

  // Leaving a routine through the saved word, indirectly (JRSTF @E, JEN @E): the address comes back,
  // but no flag does; the saved flags are those in force afterwards only if there were none but the
  // mode flags that cannot be cleared.
  lemma ReturnIndirectIff(c: Cpu, e: Event, w: Word, f: Flags, p: nat)
    requires IndirectOf(w) && IndexOf(w) == 0 && c.space[YOf(w)] == FlagsWord(f, p) && p < B18
    requires FetchesReturn(c, e, w)
    ensures Iterated(c, e).Some?
    ensures var x := Iterated(c, e).value;
            Rh(x.pc) == p && ContinuesAt(x, p) && !x.inInterrupt && x.space == c.space
            && (x.flags == f <==> f == c.flags * {USR, PUB})
  {
    hide RestoredFlags, FetchesReturn, Iterated, FlagsWord, Pack, IndirectOf, IndexOf, EA, FieldsOf;
    IndirectEA(c.space, w, f, p);
    ReturnStep(c, e, w, p);
    SmallAddress(p);
    AddressRestoresNothing(c.flags, p);
  }

  // JRSTF @16 with overflow in the saved flags: execution comes back, and overflow does not.
  lemma ReturnCounterexample(c: Cpu, e: Event)
    requires c.fetchPC == 18 && c.space[18] == 0x5_6140_0010 && c.flags == {} && e.vector == 0
    requires c.space[16] == FlagsWord({OV}, 5)
    ensures Iterated(c, e).Some?
    ensures Rh(Iterated(c, e).value.pc) == 5 && OV !in Iterated(c, e).value.flags
  {
    hide FlagsWord, Pack, Iterated, RestoredFlags, EA;
    var w: Word := 0x5_6140_0010;
    assert OpOf(w) == 172 && AcOf(w) == 2 && IndirectOf(w) && IndexOf(w) == 0 && YOf(w) == 16;
    IndirectEA(c.space, w, {OV}, 5);
    ReturnStep(c, e, w, 5);
    SmallAddress(5);
    AddressRestoresNothing(c.flags, 5);
  }

  // Leaving it through the word in an index register (JRSTF (AC)): the address comes back, and the
  // saved flags as far as the present mode may set them.
  lemma ReturnIndexedIff(c: Cpu, e: Event, w: Word, f: Flags, p: nat)
    requires !IndirectOf(w) && IndexOf(w) != 0 && YOf(w) == 0 && c.space[IndexOf(w)] == FlagsWord(f, p) && p < B18
    requires FetchesReturn(c, e, w)
    ensures Iterated(c, e).Some?
    ensures var x := Iterated(c, e).value;
            Rh(x.pc) == p && ContinuesAt(x, p) && !x.inInterrupt && x.space == c.space
            && (x.flags == f <==> (USR in c.flags ==> USR in f && UIO !in f) && (PUB in c.flags ==> PUB in f))
  {
    hide RestoredFlags, FetchesReturn, Iterated, Pack, IndirectOf, IndexOf, EA, FieldsOf;
    IndexedEA(c.space, w);
    ReturnStep(c, e, w, FlagsWord(f, p));
    SavedFlagsRestoredIff(f, c.flags, p);
    FlagsWordHalf(f, p);
  }

  lemma FlagsWordHalf(f: Flags, p: nat)
    requires p < B18
    ensures Rh(ToWord(FlagsWord(f, p))) == p && ToWord(FlagsWord(f, p)) == FlagsWord(f, p)
  {
    hide Pack;
    ModOfMultiple(Pack(f) * 32, p, B18);
    assert FlagsWord(f, p) == B18 * (Pack(f) * 32) + p;
  }

  // A whole interrupt: normal instructions in the vector, a JSR to the service routine, and, from
  // any later state y with the saved word still in place, a JRSTF or JEN through that word.  The
  // interrupted instruction is the next one executed.  The flags it was interrupted with are back
  // only if they were none but the mode flags in force in y.
  lemma InterruptRoundTrip(c: Cpu, events: seq<Event>, e: Event, target: nat, y: Cpu, e': Event, w: Word)
    requires AllWellBehaved(events) && events != [] && (c.inInterrupt || Enters(c, events[0]))
    requires StraightLine(c, events) && Run(c, events).Some?
    requires Fetches(Run(c, events).value, e, 180, target) && target < B18
    requires Run(c, events + [e]).Some? ==> y.space[target] == Run(c, events + [e]).value.space[target]
    requires IndirectOf(w) && IndexOf(w) == 0 && YOf(w) == target && FetchesReturn(y, e', w)
    ensures Run(c, events + [e]).Some? && Iterated(y, e').Some?
    ensures var d, z := Run(c, events).value, Iterated(y, e').value;
            && Rh(z.pc) == Rh(c.pc) && ContinuesAt(z, Rh(c.pc)) && !z.inInterrupt
            && (z.flags == d.flags <==> d.flags == y.flags * {USR, PUB})
  {
    hide WellBehaved, FetchesReturn, Iterated, FlagsWord, Pack, IndirectOf, IndexOf, Fetches, StraightLine;
    VectorKeepsPC(c, events);
    var d := Run(c, events).value;
    assert (events + [e])[..|events|] == events;
    JsrStep(d, e, target);
    ReturnIndirectIff(y, e', w, d.flags, Rh(c.pc));
  }
}
