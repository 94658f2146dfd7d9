/** The processor and the priority-interrupt system together (src/km10.cpp:668-827 with src/pi.cpp:69-142):
    one step polls, executes and lets the instruction act on the PI system; between steps the devices
    change their requests as they like. */
module Service {
  import opened Words
  import opened Wrappers
  import opened EffectiveAddress
  import opened Machine
  import opened JumpGroup
  import opened Emulator
  import opened ControlFlow
  import opened Traps
  import PI = Interrupts
  import InterruptLaws

  datatype System = System(cpu: Cpu, pi: PI.Controller)

  // What the handlers that are not spelled out do to the PI system
  type Peripheral = (Cpu, PI.Controller) -> PI.Controller

  // One iteration of the loop, with the pager on or off and the handlers as they would answer now; or a
  // change in the devices' requests
  datatype Action =
    | Iterate(pagerOn: bool, other: Handler, io: Peripheral)
    | Change(devs: seq<PI.Dev>)

  // A pending trap comes first, and then there is no poll.
  function Answer(s: System, pagerOn: bool): (PI.Controller, nat)
  {
    if TrapUp(s.cpu.flags) && pagerOn then (s.pi, 0) else PI.Polled(s.pi)
  }

  function Arrival(s: System, a: Action): Event
    requires a.Iterate?
  {
    Event(a.pagerOn, ToWord(Answer(s, a.pagerOn).1), a.other)
  }

  // XJEN and JEN
  predicate Dismisses(w: Word) { OpOf(w) == 172 && AcOf(w) in {6, 10} }

  function ActOnPI(io: Peripheral, d: Cpu, pi: PI.Controller): PI.Controller
  {
    if Dismisses(d.iw) then PI.Dismissed(pi) else if Spelled(d.iw) then pi else io(d, pi)
  }

  function Step(s: System, a: Action): Option<System>
  {
    match a
    case Change(devs) =>
      if InterruptLaws.Possible(s.pi, InterruptLaws.Change(devs)) then Some(s.(pi := s.pi.(devs := devs))) else None
    case Iterate(pagerOn, _, io) =>
      var e := Arrival(s, a);
      match Decoded(Select(s.cpu, e), Instruction(s.cpu, e))
      case None => None
      case Some(d) =>
        match Iterated(s.cpu, e)
        case None => None
        case Some(x) => Some(System(x, ActOnPI(io, d, Answer(s, pagerOn).0)))
  }

  function Steps(s: System, actions: seq<Action>): Option<System>
    decreases |actions|
  {
    if actions == [] then Some(s)
    else
      match Steps(s, actions[..|actions| - 1])
      case None => None
      case Some(t) => Step(t, actions[|actions| - 1])
  }

  // ----- code that leaves the PI system alone -----

  // The poll accepts nothing, and the instruction neither dismisses nor acts on the PI system, be it
  // spelled out or not.
  predicate Plain(s: System, a: Action)
    requires a.Iterate?
  {
    && !PI.Accepts(s.pi)
    && match Decoded(Select(s.cpu, Arrival(s, a)), Instruction(s.cpu, Arrival(s, a)))
       case None => false
       case Some(d) => !Dismisses(d.iw) && (Spelled(d.iw) || a.io(d, s.pi) == s.pi)
  }

  predicate AllPlain(s: System, actions: seq<Action>)
    decreases |actions|
  {
    if actions == [] then true
    else
      var prefix, last := actions[..|actions| - 1], actions[|actions| - 1];
      AllPlain(s, prefix)
      && match Steps(s, prefix)
         case None => false
         case Some(t) => last.Iterate? ==> Plain(t, last)
  }

  // The iterations alone, no poll answering
  function Undisturbed(actions: seq<Action>): seq<Event>
    decreases |actions|
  {
    if actions == [] then []
    else
      var prefix, last := actions[..|actions| - 1], actions[|actions| - 1];
      if last.Iterate? then Undisturbed(prefix) + [Event(last.pagerOn, 0, last.other)] else Undisturbed(prefix)
  }

  // Such a run is the processor's own, no poll ever answering, and the PI system keeps all but the
  // devices' requests.
  lemma {:induction false} PlainRunIsUndisturbed(s: System, actions: seq<Action>)
    requires Steps(s, actions).Some? && AllPlain(s, actions)
    ensures var t := Steps(s, actions).value;
            t.pi == s.pi.(devs := t.pi.devs) && Run(s.cpu, Undisturbed(actions)) == Some(t.cpu)
    decreases |actions|
  {
    hide Plain, Iterated, Step, Instruction;
    if actions != [] {
      var prefix, last := actions[..|actions| - 1], actions[|actions| - 1];
      PlainRunIsUndisturbed(s, prefix);
      var t := Steps(s, prefix).value;
      if last.Iterate? {
        PlainStep(t, last);
        var events, e := Undisturbed(prefix), Event(last.pagerOn, 0, last.other);
        assert (events + [e])[..|events|] == events;
      } else {
        ChangeStep(t, last);
      }
    }
  }

  lemma PlainStep(s: System, a: Action)
    requires a.Iterate? && Step(s, a).Some? && Plain(s, a)
    ensures var t := Step(s, a).value;
            t.pi == s.pi && Iterated(s.cpu, Event(a.pagerOn, 0, a.other)) == Some(t.cpu)
  {
    hide OpOf, AcOf, EA, FieldsOf, PI.Accepts, PI.Requested, Performed, Dismisses, Spelled;
    assert Arrival(s, a) == Event(a.pagerOn, 0, a.other);
  }

  lemma ChangeStep(s: System, a: Action)
    requires a.Change? && Step(s, a).Some?
    ensures Step(s, a).value == s.(pi := s.pi.(devs := a.devs))
  {
    hide InterruptLaws.Possible;
  }

  // ----- the two ends of a service -----

  // Something is accepted, no trap being pending, and its vector holds a JSR to section 0.
  predicate Called(s: System, a: Action, target: nat)
  {
    && a.Iterate? && PI.WellFormed(s.pi) && s.pi.pi.currentLevel <= PI.NO_LEVEL && PI.Accepts(s.pi)
    && !(TrapUp(s.cpu.flags) && a.pagerOn)
    && Fetches(s.cpu, Arrival(s, a), 180, target) && target < B18
  }

  lemma AcceptStep(s: System, a: Action, target: nat)
    requires Called(s, a, target)
    ensures Step(s, a).Some?
    ensures var x, n := Step(s, a).value, PI.Requested(s.pi.devs, s.pi.pi.levelsOn);
            && Instruction(s.cpu, Arrival(s, a)) == s.cpu.space[32 + 2 * n] && 1 <= n <= 7
            && n < s.pi.pi.currentLevel
            && x.pi == PI.Polled(s.pi).0 && !PI.Accepts(x.pi) && x.pi.pi.currentLevel == n
            && x.cpu.space == s.cpu.space[target := FlagsWord(s.cpu.flags, Rh(s.cpu.pc))]
            && Rh(x.cpu.pc) == (target + 1) % B18 && ContinuesAt(x.cpu, (target + 1) % B18) && !x.cpu.inInterrupt
  {
    hide EA, FieldsOf, Iterated, AcOf, OpOf, FlagsWord, Pack, PI.Accepts, PI.Requested, PI.WellFormed, Rh;
    var e := Arrival(s, a);
    VectorAddress(s.pi);
    assert Enters(s.cpu, e);
    JsrStep(s.cpu, e, target);
    StaysAccepted(s.pi);
  }

  lemma VectorAddress(c: PI.Controller)
    requires PI.WellFormed(c) && c.pi.currentLevel <= PI.NO_LEVEL && PI.Accepts(c)
    ensures var n := PI.Requested(c.devs, c.pi.levelsOn);
            && 1 <= n <= 7 && n < c.pi.currentLevel && PI.Polled(c).0.pi.currentLevel == n
            && PI.Polled(c).1 == 32 + 2 * n && ToWord(32 + 2 * n) == 32 + 2 * n && Rh(32 + 2 * n) == 32 + 2 * n
  {
    hide PI.Requested, PI.LevelMask;
    InterruptLaws.AcceptedIsMostUrgent(c);
  }

  lemma StaysAccepted(c: PI.Controller)
    requires PI.WellFormed(c) && c.pi.currentLevel <= PI.NO_LEVEL && PI.Accepts(c)
    ensures !PI.Accepts(PI.Polled(c).0)
  {
    hide PI.Requested, PI.LevelMask;
    InterruptLaws.NothingUrgentAfterPoll(c);
  }

  // Nothing is accepted and no trap is pending, and a JEN through the word saved at the target is next.
  predicate Leaves(t: System, a: Action, target: nat)
  {
    var w := t.cpu.space[Rh(t.cpu.fetchPC)];
    && a.Iterate? && !PI.Accepts(t.pi) && !(TrapUp(t.cpu.flags) && a.pagerOn)
    && OpOf(w) == 172 && AcOf(w) == 10 && IndirectOf(w) && IndexOf(w) == 0 && YOf(w) == target
  }

  // XJEN and JEN dismiss whatever the poll before them left held; no other instruction spelled out acts on
  // the PI system.
  lemma DismissIff(s: System, a: Action)
    requires a.Iterate? && Step(s, a).Some? && Spelled(Instruction(s.cpu, Arrival(s, a)))
    ensures var w, polled := Instruction(s.cpu, Arrival(s, a)), Answer(s, a.pagerOn).0;
            Step(s, a).value.pi
            == if OpOf(w) == 172 && (AcOf(w) == 6 || AcOf(w) == 10)
               then polled.(pi := polled.pi.(held := 0, currentLevel := 8)) else polled
  {
    hide OpOf, AcOf, EA, FieldsOf, PI.Accepts, PI.Requested, Performed, Spelled, Answer;
  }

  lemma LeaveStep(t: System, a: Action, target: nat, f: Flags, p: nat)
    requires Leaves(t, a, target) && target < B18 && p < B18 && t.cpu.space[target] == FlagsWord(f, p)
    ensures Step(t, a).Some?
    ensures var u := Step(t, a).value;
            && Rh(u.cpu.pc) == p && ContinuesAt(u.cpu, p) && !u.cpu.inInterrupt
            && u.cpu.space == t.cpu.space && u.pi == PI.Dismissed(t.pi)
  {
    hide EA, FieldsOf, Iterated, FlagsWord, Pack, PI.Accepts, PI.Requested, IndirectOf, IndexOf, YOf, OpOf, AcOf, Rh;
    var w := t.cpu.space[Rh(t.cpu.fetchPC)];
    var e := Arrival(t, a);
    assert e == Event(a.pagerOn, 0, a.other);
    IndirectEA(t.cpu.space, w, f, p);
    ReturnIndirectIff(t.cpu, e, w, f, p);
  }

  // ----- a whole interrupt -----

  // A run that is called in state s with this action, executes the code and leaves with that action,
  // through the word saved at the target, which is still there
  predicate Served(s: System, a: Action, target: nat, code: seq<Action>, a': Action)
  {
    && Called(s, a, target) && Step(s, a).Some? && Steps(Step(s, a).value, code).Some?
    && var x := Step(s, a).value;
       var t := Steps(x, code).value;
       t.cpu.space[target] == x.cpu.space[target] && Leaves(t, a', target)
  }

  // From the poll that accepts an interrupt, through the JSR in its vector and whatever is executed then,
  // nested services included, to the JEN through the word saved: the interrupted instruction is next,
  // nothing is held, and all else in the PI system is as the code left it.
  lemma ServiceReturns(s: System, a: Action, target: nat, code: seq<Action>, a': Action)
    requires Served(s, a, target, code, a')
    ensures var t := Steps(Step(s, a).value, code).value;
            && Step(t, a').Some?
            && var u := Step(t, a').value;
               && Rh(u.cpu.pc) == Rh(s.cpu.pc) && ContinuesAt(u.cpu, Rh(s.cpu.pc))
               && !u.cpu.inInterrupt && u.cpu.space == t.cpu.space
               && u.pi == PI.Dismissed(t.pi) && u.pi.pi.held == 0 && u.pi.pi.currentLevel == PI.NO_LEVEL
  {
    hide Step, Steps, Leaves, FlagsWord, Pack, Rh, PI.Accepts, PI.Requested, PI.LevelMask, Fetches, Arrival;
    AcceptStep(s, a, target);
    var t := Steps(Step(s, a).value, code).value;
    HalfBound(s.cpu.pc);
    LeaveStep(t, a', target, s.cpu.flags, Rh(s.cpu.pc));
  }

  lemma HalfBound(w: Word)
    ensures Rh(w) < B18
  {
  }

  // If the code leaves the PI system alone, that system is as before but for the requests and the levels
  // held: quite so exactly when nothing was being served and no request has changed.  The levels of
  // services that were interrupted are lost.  What is requested now is accepted, so that a request that
  // has not been withdrawn comes back.
  lemma ServiceEnds(s: System, a: Action, target: nat, code: seq<Action>, a': Action)
    requires Served(s, a, target, code, a') && AllPlain(Step(s, a).value, code)
    ensures var t := Steps(Step(s, a).value, code).value;
            && Step(t, a').Some?
            && var u := Step(t, a').value;
               && Rh(u.cpu.pc) == Rh(s.cpu.pc) && ContinuesAt(u.cpu, Rh(s.cpu.pc)) && !u.cpu.inInterrupt
               && u.pi == PI.Dismissed(s.pi).(devs := t.pi.devs)
               && (u.pi == s.pi
                   <==> s.pi.pi.held == 0 && s.pi.pi.currentLevel == PI.NO_LEVEL && t.pi.devs == s.pi.devs)
               && (t.pi.devs == s.pi.devs ==> PI.Accepts(u.pi) && PI.Polled(u.pi).1 == PI.Polled(s.pi).1)
  {
    hide Step, Steps, AllPlain, Leaves, FlagsWord, Pack, Rh, PI.Accepts, PI.Requested, PI.LevelMask, Fetches, Arrival;
    AcceptStep(s, a, target);
    var x := Step(s, a).value;
    PlainRunIsUndisturbed(x, code);
    ServiceReturns(s, a, target, code, a');
    InterruptLaws.AcceptedAgainAfterDismissal(s.pi);
    DismissalForgets(s.pi, Steps(x, code).value.pi.devs);
  }

  lemma DismissalForgets(c: PI.Controller, devs: seq<PI.Dev>)
    requires PI.Accepts(c)
    ensures PI.Dismissed(PI.Polled(c).0.(devs := devs)) == PI.Dismissed(c).(devs := devs)
    ensures PI.Dismissed(PI.Polled(c).0) == PI.Dismissed(c)
    ensures PI.Dismissed(c).(devs := devs) == c
       <==> c.pi.held == 0 && c.pi.currentLevel == PI.NO_LEVEL && devs == c.devs
  {
    hide PI.Accepts, PI.Requested, PI.LevelMask;
    var d := PI.Dismissed(c).(devs := devs);
    assert d == c ==> d.pi.held == c.pi.held && d.pi.currentLevel == c.pi.currentLevel && d.devs == c.devs;
  }

  // ----- a nested interrupt -----

  // The parts of a run in which a service is interrupted by another: accept, code, accept again, code of
  // the inner service, JEN, the rest of the outer service, JEN
  datatype Nesting = Nesting(outer: Action, before: seq<Action>, inner: Action, code: seq<Action>,
                             innerEnd: Action, after: seq<Action>, outerEnd: Action)

  function InnerCode(r: Nesting): seq<Action> { r.before + [r.inner] + r.code }
  function OuterCode(r: Nesting): seq<Action> { InnerCode(r) + [r.innerEnd] + r.after }

  // Both services are called and left through words of their own that are still there, and only plain
  // code runs besides.
  predicate NestedRun(s: System, r: Nesting, p: nat, q: nat)
  {
    && Called(s, r.outer, p) && Step(s, r.outer).Some?
    && var x := Step(s, r.outer).value;
       && Steps(x, r.before).Some? && AllPlain(x, r.before)
       && var t := Steps(x, r.before).value;
          && Served(t, r.inner, q, r.code, r.innerEnd) && AllPlain(Step(t, r.inner).value, r.code)
          && var u := Steps(Step(t, r.inner).value, r.code).value;
             && Step(u, r.innerEnd).Some?
             && var v := Step(u, r.innerEnd).value;
                && Steps(v, r.after).Some? && AllPlain(v, r.after)
                && var w := Steps(v, r.after).value;
                   w.cpu.space[p] == x.cpu.space[p] && Leaves(w, r.outerEnd, p)
  }

  // The inner interrupt is more urgent, and both levels are held while it is served.  When it ends, the
  // outer service goes on at its interrupted instruction, but nothing is held any more; when that ends,
  // the program goes on at its own, and still nothing is held.
  lemma NestedServicesReturn(s: System, r: Nesting, p: nat, q: nat)
    requires NestedRun(s, r, p, q)
    ensures var x := Step(s, r.outer).value;
            var t := Steps(x, r.before).value;
            var y := Step(t, r.inner).value;
            && y.pi.pi.currentLevel < x.pi.pi.currentLevel < PI.NO_LEVEL
            && y.pi.pi.held == PI.With(PI.With(s.pi.pi.held, PI.LevelMask(x.pi.pi.currentLevel)),
                                       PI.LevelMask(y.pi.pi.currentLevel))
            && var v := Step(Steps(y, r.code).value, r.innerEnd).value;
               && Rh(v.cpu.pc) == Rh(t.cpu.pc) && ContinuesAt(v.cpu, Rh(t.cpu.pc)) && !v.cpu.inInterrupt
               && v.pi.pi.held == 0 && v.pi.pi.currentLevel == PI.NO_LEVEL
               && Steps(x, OuterCode(r)) == Steps(v, r.after)
               && var w := Steps(v, r.after).value;
                  && Step(w, r.outerEnd).Some?
                  && var z := Step(w, r.outerEnd).value;
                     && Rh(z.cpu.pc) == Rh(s.cpu.pc) && ContinuesAt(z.cpu, Rh(s.cpu.pc)) && !z.cpu.inInterrupt
                     && z.pi == PI.Dismissed(s.pi).(devs := w.pi.devs)
  {
    hide Step, Steps, AllPlain, Leaves, Called, Rh, PI.Accepts, PI.Requested, PI.LevelMask, PI.With, Arrival;
    var x := Step(s, r.outer).value;
    var t := Steps(x, r.before).value;
    var y := Step(t, r.inner).value;
    var u := Steps(y, r.code).value;
    var v := Step(u, r.innerEnd).value;
    AcceptedLevels(s, r.outer, p);
    PlainRunIsUndisturbed(x, r.before);
    AcceptedLevels(t, r.inner, q);
    PlainRunIsUndisturbed(y, r.code);
    ServiceReturns(t, r.inner, q, r.code, r.innerEnd);
    PlainRunIsUndisturbed(v, r.after);
    StepsThrough(x, r.before, r.inner, r.code);
    StepsThrough(x, InnerCode(r), r.innerEnd, r.after);
    ServiceReturns(s, r.outer, p, OuterCode(r), r.outerEnd);
    SameButHeld(s.pi, x.pi, t.pi, y.pi, u.pi, v.pi, Steps(v, r.after).value.pi);
  }

  lemma AcceptedLevels(s: System, a: Action, target: nat)
    requires Called(s, a, target)
    ensures Step(s, a).Some? && var x := Step(s, a).value;
            && 1 <= x.pi.pi.currentLevel < s.pi.pi.currentLevel <= PI.NO_LEVEL
            && x.pi == s.pi.(pi := s.pi.pi.(held := PI.With(s.pi.pi.held, PI.LevelMask(x.pi.pi.currentLevel)),
                                            currentLevel := x.pi.pi.currentLevel))
  {
    hide Step, FlagsWord, Pack, Rh, PI.Requested, PI.LevelMask, PI.With, Fetches, Arrival;
    AcceptStep(s, a, target);
  }

  lemma SameButHeld(s: PI.Controller, x: PI.Controller, t: PI.Controller, y: PI.Controller, u: PI.Controller,
                    v: PI.Controller, w: PI.Controller)
    requires PI.Dismissed(x) == PI.Dismissed(s) && t == x.(devs := t.devs) && PI.Dismissed(y) == PI.Dismissed(t)
    requires u == y.(devs := u.devs) && v == PI.Dismissed(u) && w == v.(devs := w.devs)
    ensures PI.Dismissed(w) == PI.Dismissed(s).(devs := w.devs)
  {
  }

  lemma {:induction false} StepsThrough(s: System, first: seq<Action>, a: Action, rest: seq<Action>)
    requires Steps(s, first).Some? && Step(Steps(s, first).value, a).Some?
    ensures Steps(s, first + [a] + rest) == Steps(Step(Steps(s, first).value, a).value, rest)
    decreases |rest|
  {
    hide Step;
    if rest == [] {
      assert first + [a] + rest == first + [a] && (first + [a])[..|first|] == first;
    } else {
      var whole := first + [a] + rest;
      assert whole[..|whole| - 1] == first + [a] + rest[..|rest| - 1];
      StepsThrough(s, first, a, rest[..|rest| - 1]);
    }
  }
}
