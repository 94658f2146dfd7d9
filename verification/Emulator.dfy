/** The instruction loop of src/km10.cpp:657-827: choosing what to fetch, computing the effective
    address, dispatching, and moving the program counter by the outcome. */
module Emulator {
  import opened Words
  import opened Wrappers
  import opened EffectiveAddress
  import opened Machine
  import JumpGroup
  import DWordGroup
  import IntBinGroup

  // The handlers of the opcodes this project does not spell out
  type Handler = Cpu -> (Cpu, IResult)

  // What the rest of the machine presents to one iteration: whether the pager is on, the interrupt vector
  // (or zero) that the PI system would answer with, and what those handlers would do, which depends on
  // the devices and may differ from one iteration to the next
  datatype Event = Event(pagerOn: bool, vector: Word, other: Handler)

  predicate Quiet(e: Event, f: Flags) { e.vector == 0 && !(e.pagerOn && (TR1 in f || TR2 in f)) }

  // Operations with an assertion on the accumulator number, or a loop that need not end
  predicate Completes(c: Cpu) { Completable(c.iw, c.ea) }

  predicate Completable(iw: Word, ea: Word)
  {
    match OpOf(iw)
    case 76 => AcOf(iw) < 15                 // DADD
    case 77 => AcOf(iw) < 15                 // DSUB
    case 78 => AcOf(iw) < 13                 // DMUL
    case 163 => AcOf(iw) < 15                // JFFO
    case 165 => AcOf(iw) < 15                // ROTC
    case 169 => Rh(ea) < B18 - 1             // BLT
    case _ => true
  }

  // The dispatch through ops[iw.op]
  function Execute(other: Handler, c: Cpu): (Cpu, IResult)
    requires Completes(c)
  {
    match OpOf(c.iw)
    case 69 => JumpGroup.Adjsp(c)
    case 76 => DWordGroup.Dadd(c)
    case 77 => DWordGroup.Dsub(c)
    case 78 => DWordGroup.Dmul(c)
    case 161 => (IntBinGroup.Rot(c), INormal)
    case 163 => IntBinGroup.Jffo(c)
    case 165 => (IntBinGroup.Rotc(c), INormal)
    case 169 => (IntBinGroup.Blt(c), INormal)
    case 172 => JumpGroup.Jrst(c)
    case 174 => (c, IXCT)
    case 176 => (JumpGroup.Pushj(c), IJump)
    case 177 => (JumpGroup.Pushed(c, c.space[c.ea % B18], AcOf(c.iw)), INormal)
    case 178 =>
      var (d, w) := JumpGroup.Popped(c, AcOf(c.iw));
      (d.(space := d.space[c.ea % B18 := w]), INormal)
    case 179 => (JumpGroup.Popj(c), IJump)
    case 180 => (JumpGroup.Jsr(c), IJump)
    case 181 => (JumpGroup.Jsp(c), IJump)
    case _ => other(c)
  }

  // The vector of a pending trap: 0421, or 0422 for a stack overflow
  function TrapVector(f: Flags): Word { if TR1 in f then 273 else 274 }

  // A trap comes before an interrupt; neither touches the program counter.
  function Select(c: Cpu, e: Event): Cpu
  {
    if (TR1 in c.flags || TR2 in c.flags) && e.pagerOn then
      c.(fetchPC := TrapVector(c.flags), inInterrupt := true)
    else if e.vector != 0 then
      c.(fetchPC := e.vector, inInterrupt := true)
    else c
  }

  // `pc.vma = fetchPC.vma = pc.vma + pcOffset`
  function Advance(c: Cpu, offset: nat): Cpu
  {
    c.(pcOffset := offset, pc := SetVma(c.pc, Vma(c.pc) + offset), fetchPC := SetVma(c.fetchPC, Vma(c.pc) + offset))
  }

  // What each outcome does to the program counter and the next fetch
  function Finish(c: Cpu, r: IResult): Cpu
  {
    match r
    case INormal =>
      if c.inInterrupt then c.(fetchPC := Vma(c.fetchPC) + 1, pcOffset := 0) else Advance(c, 1)
    case ISkip =>
      if c.inInterrupt then Advance(c.(inInterrupt := false), 1) else Advance(c, 2)
    case IJump => Advance(c.(inInterrupt := false, pc := c.ea), 0)
    case ITrap => Advance(c, 1)
    case IMUUO => c.(pcOffset := 1)
    case ILUUO => c.(pcOffset := 1)
    case IXCT => c.(fetchPC := c.ea)
    case IHALT => Advance(c.(running := false), 0)
    case INoSuchDevice => Advance(c, 1)
    case INYI => Advance(c, 1)
  }

  // The state in which word w is executed; none if its address chain never ends
  function Decoded(c: Cpu, w: Word): Option<Cpu>
  {
    match EA(c.space, FieldsOf(w))
    case None => None
    case Some(a) => Some(c.(iw := w, ea := ToWord(a)))
  }

  // Executing word w in state c, outcome included
  function Performed(other: Handler, c: Cpu, w: Word): Option<(Cpu, IResult)>
  {
    match Decoded(c, w)
    case None => None
    case Some(d) => if Completes(d) then Some(Execute(other, d)) else None
  }

  function Do(other: Handler, c: Cpu, w: Word): Option<Cpu>
  {
    match Performed(other, c, w)
    case None => None
    case Some((d, r)) => Some(Finish(d, r))
  }

  // One iteration of the loop; none if it never completes or ends in a failed assertion
  function Iterated(c: Cpu, e: Event): Option<Cpu>
  {
    var s := Select(c, e);
    Do(e.other, s, s.space[Rh(s.fetchPC)])
  }

  function Run(c: Cpu, events: seq<Event>): Option<Cpu>
    decreases |events|
  {
    if events == [] then Some(c)
    else
      match Run(c, events[..|events| - 1])
      case None => None
      case Some(d) => Iterated(d, events[|events| - 1])
  }

  // ----- the machine -----

  // Replacing the state of the machine: how a handler that is given as a function takes effect
  method Load(m: KM10, c: Cpu)
    requires m.Valid()
    modifies m, m.AC, m.memP
    ensures m.Snapshot() == c
  {
    m.pc, m.iw, m.ea, m.fetchPC, m.pcOffset := c.pc, c.iw, c.ea, c.fetchPC, c.pcOffset;
    m.flags, m.inInterrupt, m.running := c.flags, c.inInterrupt, c.running;
    forall i | 0 <= i < 16 {
      m.AC[i] := c.space[i];
    }
    forall i | 16 <= i < B18 {
      m.memP[i] := c.space[i];
    }
    SameSpace(m.Space(), c.space);
  }

  method Dispatch(m: KM10, other: Handler) returns (r: IResult)
    requires m.Valid() && Completes(m.Snapshot())
    modifies m, m.AC, m.memP
    ensures (m.Snapshot(), r) == Execute(other, old(m.Snapshot()))
  {
    hide Pack, JumpGroup.Adjsp, DWordGroup.Dadd, DWordGroup.Dsub, DWordGroup.Dmul, IntBinGroup.Rot, IntBinGroup.Rotc,
        IntBinGroup.Jffo,
      IntBinGroup.Blt, JumpGroup.Jrst, JumpGroup.Pushj, JumpGroup.Pushed, JumpGroup.Popped, JumpGroup.Popj,
      JumpGroup.Jsr, JumpGroup.Jsp, KM10.Space, OpOf, AcOf;
    r := INormal;
    match OpOf(m.iw)
    case 69 => r := JumpGroup.DoADJSP(m);
    case 76 => r := DWordGroup.DoDADD(m);
    case 77 => r := DWordGroup.DoDSUB(m);
    case 78 => r := DWordGroup.DoDMUL(m);
    case 161 => r := IntBinGroup.DoROT(m);
    case 163 => r := IntBinGroup.DoJFFO(m);
    case 165 => r := IntBinGroup.DoROTC(m);
    case 169 => r := IntBinGroup.DoBLT(m);
    case 172 => r := JumpGroup.DoJRST(m);
    case 174 => r := IXCT;
    case 176 => r := JumpGroup.DoPUSHJ(m);
    case 177 =>
      var w := m.MemGetN(m.ea);
      JumpGroup.Push(m, w, AcOf(m.iw));
    case 178 =>
      var w := JumpGroup.Pop(m, AcOf(m.iw));
      m.MemPutN(w, m.ea);
    case 179 => r := JumpGroup.DoPOPJ(m);
    case 180 => r := JumpGroup.DoJSR(m);
    case 181 => r := JumpGroup.DoJSP(m);
    case _ =>
      var (c, q) := other(m.Snapshot());
      Load(m, c);
      r := q;
  }

  // The loop, for as many iterations as there are events.  It begins with the word at the program counter.
  method Emulate(m: KM10, events: seq<Event>)
    requires m.Valid() && Run(m.Snapshot().(fetchPC := m.pc), events).Some?
    modifies m, m.AC, m.memP
    ensures Run(old(m.Snapshot()).(fetchPC := old(m.pc)), events) == Some(m.Snapshot())
  {
    hide Iterated;
    m.fetchPC := m.pc;
    ghost var start := m.Snapshot();
    for k := 0 to |events|
      invariant Run(start, events[..k]) == Some(m.Snapshot())
    {
      assert events[..k + 1][..k] == events[..k];
      RunPrefix(start, events, k + 1);
      Iterate(m, events[k]);
    }
    assert events[..|events|] == events;
  }

  lemma {:induction false} RunPrefix(c: Cpu, events: seq<Event>, k: nat)
    requires k <= |events| && Run(c, events).Some?
    ensures Run(c, events[..k]).Some?
    decreases |events|
  {
    hide Iterated;
    if k < |events| {
      assert events[..|events| - 1][..k] == events[..k];
      RunPrefix(c, events[..|events| - 1], k);
    } else {
      assert events[..k] == events;
    }
  }

  method Iterate(m: KM10, e: Event)
    requires m.Valid() && Iterated(m.Snapshot(), e).Some?
    modifies m, m.AC, m.memP
    ensures Iterated(old(m.Snapshot()), e) == Some(m.Snapshot())
  {
    hide Completes, Execute, EA, KM10.Space, FieldsOf;
    Fetch(m, e);
    ghost var decoded := m.Snapshot();
    var r := Dispatch(m, e.other);
    Conclude(m, r);
  }

  // Trap, interrupt or neither; the instruction word; the effective address
  method Fetch(m: KM10, e: Event)
    requires m.Valid()
    requires var s := Select(m.Snapshot(), e); Decoded(s, s.space[Rh(s.fetchPC)]).Some?
    modifies m`fetchPC, m`inInterrupt, m`iw, m`ea
    ensures var s := Select(old(m.Snapshot()), e); Decoded(s, s.space[Rh(s.fetchPC)]) == Some(m.Snapshot())
  {
    hide EA, KM10.Space;
    if (TR1 in m.flags || TR2 in m.flags) && e.pagerOn {
      m.fetchPC := if TR1 in m.flags then 273 else 274;
      m.inInterrupt := true;
    } else if e.vector != 0 {
      m.fetchPC := e.vector;
      m.inInterrupt := true;
    }
    m.iw := m.MemGetN(m.fetchPC);
    var a := m.GetEA(IndirectOf(m.iw), IndexOf(m.iw), YOf(m.iw));
    m.ea := ToWord(a);
  }

  // The switch on the outcome, and the program counter
  method Conclude(m: KM10, r: IResult)
    requires m.Valid()
    modifies m`fetchPC, m`inInterrupt, m`pc, m`pcOffset, m`running
    ensures m.Snapshot() == Finish(old(m.Snapshot()), r)
  {
    hide KM10.Space, SetVma, Vma;
    match r {
      case INormal =>
        if m.inInterrupt {
          m.fetchPC := Vma(m.fetchPC) + 1;
          m.pcOffset := 0;
          return;
        } else {
          m.pcOffset := 1;
        }
      case ISkip =>
        if m.inInterrupt {
          m.pcOffset := 1;
          m.inInterrupt := false;
        } else {
          m.pcOffset := 2;
        }
      case IJump =>
        m.inInterrupt := false;
        m.pcOffset := 0;
        m.pc := m.ea;
      case ITrap =>
        m.pcOffset := 1;
      case IMUUO =>
        m.pcOffset := 1;
        return;
      case ILUUO =>
        m.pcOffset := 1;
        return;
      case IXCT =>
        m.fetchPC := m.ea;
        return;
      case IHALT =>
        m.pcOffset := 0;
        m.running := false;
      case INoSuchDevice =>
        m.pcOffset := 1;
      case INYI =>
        m.pcOffset := 1;
    }
    SetVmaTwice(m.pc, m.fetchPC, Vma(m.pc) + m.pcOffset);
    m.fetchPC := SetVma(m.fetchPC, Vma(m.pc) + m.pcOffset);
    m.pc := SetVma(m.pc, Vma(m.fetchPC));
  }

  lemma SetVmaTwice(pc: Word, fetch: Word, v: int)
    ensures SetVma(pc, Vma(SetVma(fetch, v))) == SetVma(pc, v)
  {
  }
}
