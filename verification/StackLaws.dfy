/** What the stack instructions add up to in section 0: ADJSP is that many single steps, and runs of
    pushes and pops on one accumulator behave like a stack.  Outside it, when a push stores at all. */
module StackLaws {
  import opened Words
  import opened Wrappers
  import opened EffectiveAddress
  import opened Machine
  import opened JumpGroup

  // ----- ADJSP against single steps -----

  // A run of pushes of the given words, and a number of pops whose results are dropped
  function PushAll(c: Cpu, vs: seq<Word>, n: nat): Cpu
    requires n < 16
    decreases |vs|
  {
    if vs == [] then c else Pushed(PushAll(c, vs[..|vs| - 1], n), vs[|vs| - 1], n)
  }

  function PopAll(c: Cpu, k: nat, n: nat): Cpu
    requires n < 16
  {
    if k == 0 then c else Popped(PopAll(c, k - 1, n), n).0
  }

  // The pointer k steps away
  function Moved(p: Word, k: int): Word { Join(Lh(p) + k, Rh(p) + k) }

  // One of the first k steps from p passes the place where a push (a pop) raises TR2.
  predicate Crosses(p: Word, k: nat, up: bool)
  {
    if up then Lh(p) + k >= B18 && k > 0 else Lh(p) < k
  }

  lemma MovedHalves(p: Word, k: int)
    ensures Lh(Moved(p, k)) == (Lh(p) + k) % B18 && Rh(Moved(p, k)) == (Rh(p) + k) % B18
    ensures Moved(p, 0) == p
  {
  }

  lemma MoveOne(p: Word, k: int)
    ensures Stepped(Moved(p, k), true) == Moved(p, k + 1) && Stepped(Moved(p, k), false) == Moved(p, k - 1)
    ensures Moved(p, 0) == p
  {
    hide Lh, Rh, Join;
    MovedHalves(p, 0);
    JoinAgain(Lh(p) + k, Rh(p) + k, 1);
    JoinAgain(Lh(p) + k, Rh(p) + k, 0 - 1);
  }

  lemma JoinAgain(l: int, r: int, d: int)
    requires -1 <= d <= 1
    ensures var a := Join(l, r); Join(Lh(a) + d, Rh(a) + d) == Join(l + d, r + d)
  {
    hide Lh, Rh;
    HalfStep(l, d);
    HalfStep(r, d);
  }

  lemma HalfStep(x: int, d: int)
    requires -1 <= d <= 1
    ensures (x % B18 + d) % B18 == (x + d) % B18
  {
  }

  // Up to 2^17 steps cannot go round more than once, so crossing is decided by the last pointer.
  lemma CrossOne(p: Word, k: nat, up: bool)
    requires k < 0x2_0000
    ensures Crosses(p, k + 1, up) == (Crosses(p, k, up) || StepTraps(Moved(p, if up then k else 0 - k), up))
  {
    hide Lh, Rh, Moved, Stepped;
    MoveOne(p, if up then k else 0 - k);
    MovedHalves(p, if up then k + 1 else 0 - k - 1);
  }

  lemma {:induction false} PushAllPointer(c: Cpu, vs: seq<Word>, n: nat)
    requires n < 16 && IsSection0(c.pc) && |vs| <= 0x2_0000
    ensures var d := PushAll(c, vs, n);
            && d.pc == c.pc && d.space[n] == Moved(c.space[n], |vs|)
            && d.flags == Raise(c.flags, Crosses(c.space[n], |vs|, true))
    decreases |vs|
  {
    hide Stepped, StepTraps, Moved, Crosses, IsSection0;
    MoveOne(c.space[n], |vs| - 1);
    MoveOne(c.space[n], 0);
    if vs == [] {
      NoSteps(c.space[n], true);
    } else {
      PushAllPointer(c, vs[..|vs| - 1], n);
      CrossOne(c.space[n], |vs| - 1, true);
    }
  }

  lemma {:induction false} PopAllPointer(c: Cpu, k: nat, n: nat)
    requires n < 16 && IsSection0(c.pc) && k <= 0x2_0000
    ensures var d := PopAll(c, k, n);
            && d.pc == c.pc && d.space == c.space[n := Moved(c.space[n], 0 - k)]
            && d.flags == Raise(c.flags, Crosses(c.space[n], k, false))
  {
    hide Stepped, StepTraps, Moved, Crosses, IsSection0;
    MoveOne(c.space[n], 1 - k);
    MoveOne(c.space[n], 0);
    if k == 0 {
      NoSteps(c.space[n], false);
    } else {
      PopAllPointer(c, k - 1, n);
      CrossOne(c.space[n], k - 1, false);
    }
  }

  lemma NoSteps(p: Word, up: bool)
    ensures !Crosses(p, 0, up)
  {
  }

  // ADJSP's overflow test finds exactly the crossings.
  lemma AdjspCrosses(p: Word, e: int)
    requires -0x2_0000 <= e < 0x2_0000
    ensures var before, after := Signed18(Lh(p)), Signed18(Lh(Moved(p, e)));
            && (e < 0 && before >= 0 && after < 0 <==> e < 0 && Crosses(p, -e, false))
            && (e > 0 && before < 0 && after >= 0 <==> e > 0 && Crosses(p, e, true))
  {
  }

  lemma AdjspSection0(c: Cpu)
    requires IsSection0(c.pc)
    ensures var p, e := c.space[AcOf(c.iw)], Signed18(Rh(c.ea));
            var trap := if e < 0 then Crosses(p, -e, false) else Crosses(p, e, true);
            Adjsp(c) == (c.(space := c.space[AcOf(c.iw) := Moved(p, e)], flags := Raise(c.flags, trap)),
                         if trap then ITrap else INormal)
  {
    hide Signed18, Crosses, Join;
    AdjspCrosses(c.space[AcOf(c.iw)], Signed18(Rh(c.ea)));
    NoSteps(c.space[AcOf(c.iw)], true);
  }

  // In section 0, ADJSP by a positive count leaves the pointer and the flags of that many pushes, and
  // traps exactly when one of them would have raised TR2 ...
  lemma AdjspIsPushes(c: Cpu, vs: seq<Word>)
    requires IsSection0(c.pc) && Signed18(Rh(c.ea)) == |vs|
    ensures var d, (e, r) := PushAll(c, vs, AcOf(c.iw)), Adjsp(c);
            && e.space == c.space[AcOf(c.iw) := d.space[AcOf(c.iw)]] && e.flags == d.flags
            && (TR2 !in c.flags ==> (r == ITrap <==> TR2 in d.flags))
  {
    hide Signed18, Crosses, IsSection0, Adjsp, Moved, PushAll;
    PushAllPointer(c, vs, AcOf(c.iw));
    AdjspSection0(c);
  }

  // ... and by a negative count those of that many pops.
  lemma AdjspIsPops(c: Cpu, k: nat)
    requires IsSection0(c.pc) && Signed18(Rh(c.ea)) == 0 - k
    ensures var d, (e, r) := PopAll(c, k, AcOf(c.iw)), Adjsp(c);
            && e.space == d.space && e.flags == d.flags
            && (TR2 !in c.flags ==> (r == ITrap <==> TR2 in d.flags))
  {
    hide Signed18, Crosses, IsSection0, Adjsp, Moved, PopAll;
    PopAllPointer(c, k, AcOf(c.iw));
    AdjspSection0(c);
    NoSteps(c.space[AcOf(c.iw)], false);
    NoSteps(c.space[AcOf(c.iw)], true);
  }

  // ----- runs of pushes and pops -----

  // A store is whatever else instructions between the pushes and pops do to locations, such as POP's
  // own store into its effective address.
  datatype StackOp = PushOp(v: Word) | PopOp | StoreOp(a: Half, w: Word)

  // A run of the machine: the state it ends in and the words its pops returned
  function Run(c: Cpu, ops: seq<StackOp>, n: nat): (Cpu, seq<Word>)
    requires n < 16
    decreases |ops|
  {
    if ops == [] then (c, [])
    else
      var (d, popped) := Run(c, ops[..|ops| - 1], n);
      match ops[|ops| - 1]
      case PushOp(v) => (Pushed(d, v, n), popped)
      case PopOp => var (e, w) := Popped(d, n); (e, popped + [w])
      case StoreOp(a, w) => (d.(space := d.space[a := w]), popped)
  }

  // The same run on a mathematical stack: defined as long as it never pops below where it started
  function Reference(start: seq<Word>, ops: seq<StackOp>): Option<(seq<Word>, seq<Word>)>
    decreases |ops|
  {
    if ops == [] then Some((start, []))
    else
      match Reference(start, ops[..|ops| - 1])
      case None => None
      case Some((stack, popped)) =>
        match ops[|ops| - 1]
        case PushOp(v) => Some((stack + [v], popped))
        case PopOp => if stack == [] then None else Some((stack[..|stack| - 1], popped + [stack[|stack| - 1]]))
        case StoreOp(_, _) => Some((stack, popped))
  }

  // The location of the i-th word above base pointer p
  function Cell(p: Word, i: nat): (a: nat)
    ensures a < B18
  {
    (Rh(p) + 1 + i) % B18
  }

  // No push of the run fills the stack (raising TR2) or stores into the pointer's own accumulator, and no
  // other store hits that accumulator or a word on the stack.
  predicate Roomy(p: Word, n: nat, start: seq<Word>, ops: seq<StackOp>)
    requires Reference(start, ops).Some?
    decreases |ops|
  {
    if ops == [] then true
    else
      var prefix := ops[..|ops| - 1];
      var depth := |Reference(start, prefix).value.0|;
      && Roomy(p, n, start, prefix)
      && match ops[|ops| - 1]
         case PushOp(_) => (Lh(p) + depth + 1) % B18 != 0 && Cell(p, depth) != n
         case PopOp => true
         case StoreOp(a, _) => a != n && forall i :: 0 <= i < depth ==> Cell(p, i) != a
  }

  // Accumulator n points at the top of a stack with these contents, based at pointer p.
  ghost predicate Holds(c: Cpu, n: nat, p: Word, stack: seq<Word>)
    requires n < 16
  {
    && IsSection0(c.pc)
    && Lh(p) + |stack| < B18
    && c.space[n] == Moved(p, |stack|)
    && forall i :: 0 <= i < |stack| ==> Cell(p, i) != n && c.space[Cell(p, i)] == stack[i]
  }

  lemma CellsDiffer(p: Word, i: nat, j: nat)
    requires i < B18 && j < B18 && i != j
    ensures Cell(p, i) != Cell(p, j)
  {
  }

  lemma TopCell(p: Word, k: nat)
    ensures Rh(Moved(p, k + 1)) == Cell(p, k)
    ensures Lh(p) + k < B18 ==> (StepTraps(Moved(p, k), true) <==> (Lh(p) + k + 1) % B18 == 0)
    ensures Lh(p) + k < B18 && k > 0 ==> !StepTraps(Moved(p, k), false)
  {
    MoveOne(p, k);
  }

  lemma PushHolds(c: Cpu, v: Word, n: nat, p: Word, stack: seq<Word>)
    requires n < 16 && Holds(c, n, p, stack)
    requires (Lh(p) + |stack| + 1) % B18 != 0 && Cell(p, |stack|) != n
    ensures Holds(Pushed(c, v, n), n, p, stack + [v]) && Pushed(c, v, n).flags == c.flags
  {
    hide Moved, StepTraps, Stepped, Lh, Rh, Cell, IsSection0;
    MoveOne(p, |stack|);
    TopCell(p, |stack|);
    LhBound(p, |stack|);
    forall i | 0 <= i < |stack|
      ensures Cell(p, i) != Cell(p, |stack|)
    {
      CellsDiffer(p, i, |stack|);
    }
  }

  lemma LhBound(p: Word, k: nat)
    requires Lh(p) + k < B18 && (Lh(p) + k + 1) % B18 != 0
    ensures Lh(p) + k + 1 < B18
  {
  }

  lemma PopHolds(c: Cpu, n: nat, p: Word, stack: seq<Word>)
    requires n < 16 && Holds(c, n, p, stack) && stack != []
    ensures var (d, w) := Popped(c, n);
            Holds(d, n, p, stack[..|stack| - 1]) && w == stack[|stack| - 1] && d.flags == c.flags
  {
    hide Moved, StepTraps, Stepped, Lh, Rh, Cell, IsSection0;
    MoveOne(p, |stack|);
    TopCell(p, |stack| - 1);
    TopCell(p, |stack|);
  }

  lemma StoreHolds(c: Cpu, a: Half, w: Word, n: nat, p: Word, stack: seq<Word>)
    requires n < 16 && Holds(c, n, p, stack)
    requires a != n && forall i :: 0 <= i < |stack| ==> Cell(p, i) != a
    ensures Holds(c.(space := c.space[a := w]), n, p, stack)
  {
    hide Moved, Lh, Cell, IsSection0;
  }

  // A run that never fills the stack, never pops below its start and keeps clear of the pointer's
  // accumulator returns what a mathematical stack returns, leaves no flag changed, and ends with the
  // pointer at the depth of that stack.
  lemma {:induction false} RunsAreStacks(c: Cpu, ops: seq<StackOp>, n: nat, p: Word, start: seq<Word>)
    requires n < 16 && Holds(c, n, p, start)
    requires Reference(start, ops).Some? && Roomy(p, n, start, ops)
    ensures var (d, popped) := Run(c, ops, n);
            && Holds(d, n, p, Reference(start, ops).value.0)
            && popped == Reference(start, ops).value.1
            && d.flags == c.flags
    decreases |ops|
  {
    hide Holds, Pushed, Popped, Cell, Lh;
    if ops != [] {
      var prefix := ops[..|ops| - 1];
      RunsAreStacks(c, prefix, n, p, start);
      var d := Run(c, prefix, n).0;
      var stack := Reference(start, prefix).value.0;
      match ops[|ops| - 1] {
        case PushOp(v) => PushHolds(d, v, n, p, stack);
        case PopOp => PopHolds(d, n, p, stack);
        case StoreOp(a, w) => StoreHolds(d, a, w, n, p, stack);
      }
    }
  }

  // A run that gets back to its starting depth restores the pointer exactly.
  lemma BalancedRunRestoresPointer(c: Cpu, ops: seq<StackOp>, n: nat)
    requires n < 16 && IsSection0(c.pc)
    requires Reference([], ops).Some? && Roomy(c.space[n], n, [], ops) && Reference([], ops).value.0 == []
    ensures Run(c, ops, n).0.space[n] == c.space[n]
    ensures Run(c, ops, n).1 == Reference([], ops).value.1
  {
    hide Run, Reference, Roomy, Moved, IsSection0;
    MoveOne(c.space[n], 0);
    RunsAreStacks(c, ops, n, c.space[n], []);
  }

  // A word pushed in section 0, any run balanced above it, with stores elsewhere, and a pop: the word
  // comes back, the pointer is where it was, and no flag is raised.  Between these only the locations
  // matter, so that the states may differ in every register.
  lemma PushRunPop(c: Cpu, v: Word, x: Cpu, ops: seq<StackOp>, y: Cpu, n: nat)
    requires n < 16 && IsSection0(c.pc) && IsSection0(x.pc) && IsSection0(y.pc)
    requires !StepTraps(c.space[n], true) && Cell(c.space[n], 0) != n
    requires x.space == Pushed(c, v, n).space
    requires Reference([v], ops).Some? && Roomy(c.space[n], n, [v], ops) && Reference([v], ops).value.0 == [v]
    requires y.space == Run(x, ops, n).0.space
    ensures var (d, w) := Popped(y, n);
            w == v && d.space[n] == c.space[n] && d.flags == y.flags
  {
    hide Run, Reference, Roomy, Moved, IsSection0, Pushed, Popped, Cell, StepTraps, Lh;
    var p := c.space[n];
    PushedHolds(c, v, x, n);
    RunsAreStacks(x, ops, n, p, [v]);
    HoldsBySpace(Run(x, ops, n).0, y, n, p, [v]);
    PopHolds(y, n, p, [v]);
    HoldsPointer(Popped(y, n).0, n, p);
  }

  // The push by itself leaves a stack of one word.
  lemma PushedHolds(c: Cpu, v: Word, x: Cpu, n: nat)
    requires n < 16 && IsSection0(c.pc) && IsSection0(x.pc)
    requires !StepTraps(c.space[n], true) && Cell(c.space[n], 0) != n
    requires x.space == Pushed(c, v, n).space
    ensures Holds(x, n, c.space[n], [v])
  {
    hide Moved, IsSection0, Pushed, Cell, StepTraps, Lh;
    var p := c.space[n];
    MoveOne(p, 0);
    TopCell(p, 0);
    EmptyHolds(c, n);
    PushHolds(c, v, n, p, []);
    HoldsBySpace(Pushed(c, v, n), x, n, p, [v]);
  }

  lemma EmptyHolds(c: Cpu, n: nat)
    requires n < 16 && IsSection0(c.pc)
    ensures Holds(c, n, c.space[n], [])
    ensures Lh(c.space[n]) < B18
  {
    hide Moved;
    MoveOne(c.space[n], 0);
  }

  lemma HoldsBySpace(c: Cpu, d: Cpu, n: nat, p: Word, stack: seq<Word>)
    requires n < 16 && Holds(c, n, p, stack) && d.space == c.space && IsSection0(d.pc)
    ensures Holds(d, n, p, stack)
  {
  }

  lemma HoldsPointer(c: Cpu, n: nat, p: Word)
    requires n < 16 && Holds(c, n, p, [])
    ensures c.space[n] == p
  {
    hide Moved;
    MoveOne(p, 0);
  }

  // ----- the extended push -----

  // The location that the new pointer of an extended push names
  function Top(ac: Word): nat { Vma(ToWord((ac as int) + 1)) % B18 }

  // An extended push leaves the state that storing the word at the new top would leave exactly in
  // these cases: the word names the top and is the pointer's address itself; or it is there already,
  // and the location it names holds that address or is the pointer.  If the top is the pointer itself,
  // only the location the word names matters.
  lemma PushStoresIff(c: Cpu, v: Word, n: nat)
    requires n < 16 && !LocalPointer(c.pc, c.space[n])
    ensures var next, top := ToWord((c.space[n] as int) + 1), Top(c.space[n]);
            var spared := Rh(v) == n || c.space[Rh(v)] == Vma(next);
            && Pushed(c, v, n).flags == c.flags
            && (Pushed(c, v, n).space == c.space[top := v][n := next]
                <==> if top == n then spared
                     else if Rh(v) == top then Vma(next) == v
                     else v == c.space[top] && spared)
  {
    hide LocalPointer, Rh, Vma, ToWord;
    var next, top := ToWord((c.space[n] as int) + 1), Top(c.space[n]);
    SameStores(c.space, Rh(v), Vma(next), top, v, n, next);
  }

  // Two stores, both followed by the same third one
  lemma SameStores(s: Space, a: nat, x: Word, b: nat, y: Word, n: nat, z: Word)
    requires a < B18 && b < B18 && n < B18
    ensures s[a := x][n := z] == s[b := y][n := z]
       <==> if b == n then a == n || s[a] == x
            else if a == b then x == y
            else s[b] == y && (a == n || s[a] == x)
  {
    var t, u := s[a := x][n := z], s[b := y][n := z];
    if t == u {
      assert t[a] == u[a] && t[b] == u[b];
    } else {
      var i :| 0 <= i < B18 && t[i] != u[i];
    }
  }

  // In section 1, pushing 5 on a stack at 010000 stores the pointer in location 5 and nothing on the
  // stack.
  lemma PushCounterexample()
    ensures var c := Cpu(B18, 0, 0, 0, 0, {}, false, true, seq(B18, i => if i == 1 then 0x4_1000 else 0));
            Pushed(c, 5, 1).space[Top(c.space[1])] == 0 && Pushed(c, 5, 1).space[5] == 0x4_1001
  {
  }
}
