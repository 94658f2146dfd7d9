/** What every run of the priority-interrupt system keeps: which interrupts are accepted, and how they
    nest. */
module InterruptLaws {
  import opened Interrupts
  import opened Wrappers

  // ----- acceptance -----

  // A poll accepts exactly when the system is on and some enabled request is more urgent than what is
  // running.
  lemma AcceptsIff(c: Controller)
    requires WellFormed(c) && c.pi.currentLevel <= NO_LEVEL
    ensures Accepts(c)
       <==> c.pi.piOn == 1
            && (exists i ::
                  0 <= i < |c.devs| && Requests(c.devs[i], c.pi.levelsOn) && c.devs[i].level < c.pi.currentLevel)
  {
    hide LevelMask, Requested;
    RequestedIsLeast(c.devs, c.pi.levelsOn);
  }

  // What it accepts is the most urgent request; the vector is the first word of that level's pair at
  // 040 + 2n; and the level becomes the current one and is held.
  lemma AcceptedIsMostUrgent(c: Controller)
    requires WellFormed(c) && c.pi.currentLevel <= NO_LEVEL && Accepts(c)
    ensures var (d, vector) := Polled(c);
            var n := d.pi.currentLevel;
            && 1 <= n <= 7 && n < c.pi.currentLevel && vector == 32 + 2 * n
            && (exists i :: 0 <= i < |c.devs| && Requests(c.devs[i], c.pi.levelsOn) && c.devs[i].level == n)
            && (forall i :: 0 <= i < |c.devs| && Requests(c.devs[i], c.pi.levelsOn) ==> n <= c.devs[i].level)
            && d.pi.held == With(c.pi.held, LevelMask(n)) && d.devs == c.devs
  {
    hide LevelMask, Requested, Common;
    RequestedIsLeast(c.devs, c.pi.levelsOn);
  }

  // After a poll with the system on, no enabled request is more urgent than what is running.
  lemma NothingUrgentAfterPoll(c: Controller)
    requires WellFormed(c) && c.pi.currentLevel <= NO_LEVEL && c.pi.piOn == 1
    ensures var d := Polled(c).0;
            forall i :: 0 <= i < |d.devs| && Requests(d.devs[i], d.pi.levelsOn) ==> d.pi.currentLevel <= d.devs[i].level
    ensures !Accepts(Polled(c).0)
  {
    hide LevelMask, Requested, With, Requests, Polled;
    LeastRequest(c.devs, c.pi.levelsOn);
    PolledFields(c);
  }

  lemma PolledFields(c: Controller)
    ensures var d := Polled(c).0;
            && d.devs == c.devs && d.self == c.self && d.pi.levelsOn == c.pi.levelsOn && d.pi.piOn == c.pi.piOn
            && d.pi.currentLevel == if Accepts(c) then Requested(c.devs, c.pi.levelsOn) else c.pi.currentLevel
  {
    hide LevelMask, Requested, With, Accepts;
  }

  lemma LeastRequest(devs: seq<Dev>, on: bv7)
    requires forall i :: 0 <= i < |devs| ==> devs[i].level <= 7
    ensures forall i :: 0 <= i < |devs| && Requests(devs[i], on) ==> on != 0 && Requested(devs, on) <= devs[i].level
  {
    hide LevelMask, Requested;
    RequestedIsLeast(devs, on);
  }

  // Accepting does not withdraw the request: dismissing the interrupt gets it accepted again.
  lemma AcceptedAgainAfterDismissal(c: Controller)
    requires WellFormed(c) && c.pi.currentLevel <= NO_LEVEL && Accepts(c)
    ensures Accepts(Dismissed(Polled(c).0)) && Polled(Dismissed(Polled(c).0)).1 == Polled(c).1
  {
    hide LevelMask, Requested, With;
  }

  // A dismissal ends every service there is: afterwards any enabled request is accepted, even one less
  // urgent than a service that had been interrupted and is now resumed.
  lemma DismissalOpensAllIff(c: Controller)
    requires WellFormed(c)
    ensures Accepts(Dismissed(c))
       <==> c.pi.piOn == 1 && exists i :: 0 <= i < |c.devs| && Requests(c.devs[i], c.pi.levelsOn)
  {
    hide LevelMask, Requested;
    AcceptsIff(Dismissed(c));
    RequestedIsLeast(c.devs, c.pi.levelsOn);
  }

  // ----- runs -----

  // One step of a run; the devices may change their requests at any time.
  datatype Op = Poll | Dismiss | Clear | Cono(v: bv18) | Change(devs: seq<Dev>)

  predicate Possible(c: Controller, op: Op)
  {
    match op
    case Cono(v) => ConoEnds(DecodeFunctions(v))
    case Change(devs) => |devs| == |c.devs| && forall i :: 0 <= i < |devs| ==> devs[i].level <= 7
    case _ => true
  }

  function Applied(c: Controller, op: Op): Controller
    requires WellFormed(c)
  {
    match op
    case Poll => Polled(c).0
    case Dismiss => Dismissed(c)
    case Clear => Cleared(c)
    case Cono(v) => Conoed(c, DecodeFunctions(v))
    case Change(devs) => c.(devs := devs)
  }

  // The levels accepted and not yet ended, in the order of acceptance
  function Nested(nest: seq<nat>, c: Controller, op: Op): seq<nat>
  {
    match op
    case Poll => if Accepts(c) then nest + [Polled(c).0.pi.currentLevel] else nest
    case Dismiss => []
    case Clear => []
    case Cono(v) => if DecodeFunctions(v).clearPI == 1 then [] else nest
    case Change(_) => nest
  }

  function MaskOf(nest: seq<nat>): bv7
  {
    if nest == [] then 0 else With(MaskOf(nest[..|nest| - 1]), LevelMask(nest[|nest| - 1]))
  }

  // Each nested level is more urgent than the one before it; exactly these levels are held, and the
  // last of them is running.
  ghost predicate Nests(c: Controller, nest: seq<nat>)
  {
    && WellFormed(c)
    && (forall i :: 0 <= i < |nest| ==> 1 <= nest[i] <= 7)
    && (forall i, j :: 0 <= i < j < |nest| ==> nest[j] < nest[i])
    && c.pi.held == MaskOf(nest)
    && c.pi.currentLevel == (if nest == [] then NO_LEVEL else nest[|nest| - 1])
  }

  lemma StepNests(c: Controller, nest: seq<nat>, op: Op)
    requires Nests(c, nest) && Possible(c, op)
    ensures Nests(Applied(c, op), Nested(nest, c, op))
  {
    match op {
      case Poll => PollNests(c, nest);
      case Cono(v) => ConoNests(c, nest, v);
      case _ =>
        hide MaskOf, Requested, With, DecodeFunctions;
        EmptyNest();
    }
  }

  lemma EmptyNest()
    ensures MaskOf([]) == 0
  {
  }

  lemma PollNests(c: Controller, nest: seq<nat>)
    requires Nests(c, nest)
    ensures Nests(Applied(c, Poll), Nested(nest, c, Poll))
  {
    hide LevelMask, Requested, With, Common;
    PolledFields(c);
    if Accepts(c) {
      AcceptedIsMostUrgent(c);
      hide Polled, Accepts;
      var n := Polled(c).0.pi.currentLevel;
      assert (nest + [n])[..|nest|] == nest;
    }
  }

  lemma ConoNests(c: Controller, nest: seq<nat>, v: bv18)
    requires Nests(c, nest) && Possible(c, Cono(v))
    ensures Nests(Applied(c, Cono(v)), Nested(nest, c, Cono(v)))
  {
    hide MostUrgent, With, Without, Common, DecodeFunctions, MaskOf;
    EmptyNest();
    SearchLevel(DecodeFunctions(v).levels);
  }

  lemma SearchLevel(levels: bv7)
    ensures levels != 0 ==> 1 <= MostUrgent(levels) <= 7
    ensures MostUrgent(levels) <= NO_LEVEL
  {
    if levels != 0 {
      SearchStep(levels, 1);
    }
  }

  // A level more urgent than all held ones becomes the most urgent, and counts one more.
  lemma HoldMore(m: bv7, n: nat)
    requires 1 <= n < MostUrgent(m)
    ensures MostUrgent(With(m, LevelMask(n))) == n && Population(With(m, LevelMask(n))) == Population(m) + 1
  {
  }

  lemma {:induction false} MaskOfNest(nest: seq<nat>)
    requires forall i :: 0 <= i < |nest| ==> 1 <= nest[i] <= 7
    requires forall i, j :: 0 <= i < j < |nest| ==> nest[j] < nest[i]
    ensures MostUrgent(MaskOf(nest)) == if nest == [] then NO_LEVEL else nest[|nest| - 1]
    ensures Population(MaskOf(nest)) == |nest|
    decreases |nest|
  {
    hide LevelMask, With, Population, MostUrgent;
    EmptyMask();
    if nest != [] {
      MaskOfNest(nest[..|nest| - 1]);
      HoldMore(MaskOf(nest[..|nest| - 1]), nest[|nest| - 1]);
    }
  }

  lemma EmptyMask()
    ensures MostUrgent(0) == NO_LEVEL && Population(0) == 0
    ensures forall m: bv7 :: Population(m) <= 7
  {
  }

  // The state a run reaches, and what is nested there; none if a step is not possible
  function Reached(c: Controller, ops: seq<Op>): (r: Option<(Controller, seq<nat>)>)
    decreases |ops|
  {
    if ops == [] then Some((c, []))
    else
      match Reached(c, ops[..|ops| - 1])
      case None => None
      case Some((d, nest)) =>
        if WellFormed(d) && Possible(d, ops[|ops| - 1])
        then Some((Applied(d, ops[|ops| - 1]), Nested(nest, d, ops[|ops| - 1])))
        else None
  }

  lemma {:induction false} ReachedNests(c: Controller, ops: seq<Op>)
    requires Nests(c, []) && Reached(c, ops).Some?
    ensures Nests(Reached(c, ops).value.0, Reached(c, ops).value.1)
    decreases |ops|
  {
    hide Nests, Applied, Nested, Possible;
    if ops != [] {
      ReachedNests(c, ops[..|ops| - 1]);
      var (d, nest) := Reached(c, ops[..|ops| - 1]).value;
      StepNests(d, nest, ops[|ops| - 1]);
    }
  }

  // In every run from the idle state: the current level is the most urgent held one (none when
  // nothing is held), and as many levels are held as interrupts were accepted since the last
  // dismissal or reset; so at most seven nest.
  lemma HeldLevels(c: Controller, ops: seq<Op>)
    requires WellFormed(c) && c.pi.held == 0 && c.pi.currentLevel == NO_LEVEL
    requires Reached(c, ops).Some?
    ensures var (d, nest) := Reached(c, ops).value;
            && d.pi.currentLevel == MostUrgent(d.pi.held)
            && Population(d.pi.held) == |nest| <= 7
            && (d.pi.held == 0 <==> d.pi.currentLevel == NO_LEVEL)
  {
    hide Reached, MostUrgent, Population, MaskOf;
    EmptyNest();
    ReachedNests(c, ops);
    var (d, nest) := Reached(c, ops).value;
    MaskOfNest(nest);
    EmptyMask();
    NoUrgency(d.pi.held);
  }

  lemma NoUrgency(m: bv7)
    ensures m == 0 <==> MostUrgent(m) == NO_LEVEL
  {
    SearchLevel(m);
    EmptyMask();
  }

  // A dismissal in a nested service resumes the service it interrupted, which no longer holds its level.
  // That service is then safe from interrupts that are not more urgent, as it should be, exactly if none
  // is requested at all, or one that is more urgent comes first.
  lemma ResumedSafeIff(c: Controller, nest: seq<nat>)
    requires Nests(c, nest) && |nest| >= 2
    ensures var d, outer := Dismissed(c), nest[|nest| - 2];
            && (Accepts(d) ==> Polled(d).0.pi.currentLevel < outer)
               == (c.pi.piOn == 1 && (exists i :: 0 <= i < |c.devs| && Requests(c.devs[i], c.pi.levelsOn))
                   ==> exists i :: 0 <= i < |c.devs| && Requests(c.devs[i], c.pi.levelsOn) && c.devs[i].level < outer)
  {
    hide LevelMask, Requested, With, Common, MaskOf;
    DismissalOpensAllIff(c);
    if Accepts(Dismissed(c)) {
      AcceptedIsMostUrgent(Dismissed(c));
    }
  }

  // A service at level 5 is interrupted at level 3; level 6 is requested; the inner service ends; and the
  // request at level 6 interrupts the service at level 5.
  lemma ResumedCounterexample()
    ensures var c := Controller(PIState(0x7F, 1, 0, 0, 0, 0, 0, NO_LEVEL), Asking(5), 0);
            var r := Reached(c, [Poll, Change(Asking(3)), Poll, Change(Asking(6))]);
            && r.Some? && r.value.1 == [5, 3]
            && Accepts(Dismissed(r.value.0)) && Polled(Dismissed(r.value.0)).0.pi.currentLevel == 6
  {
    var c := Controller(PIState(0x7F, 1, 0, 0, 0, 0, 0, NO_LEVEL), Asking(5), 0);
    var ops := [Poll, Change(Asking(3)), Poll, Change(Asking(6))];
    hide Reached, Accepts, Polled, Asking, Requested;
    ThreeLevels(c);
    ReachedTo(c, ops, 0);
    ReachedTo(c, ops, 1);
    ReachedTo(c, ops, 2);
    ReachedTo(c, ops, 3);
    assert ops[..0] == [] && ops[..4] == ops;
  }

  // The states of that run
  lemma ThreeLevels(c: Controller)
    requires c == Controller(PIState(0x7F, 1, 0, 0, 0, 0, 0, NO_LEVEL), Asking(5), 0)
    ensures Reached(c, []) == Some((c, []))
    ensures var c1 := Applied(c, Poll);
            var c2 := Applied(c1, Change(Asking(3)));
            var c3 := Applied(c2, Poll);
            && WellFormed(c1) && Possible(c1, Change(Asking(3))) && Nested([], c, Poll) == [5]
            && WellFormed(c2) && Nested([5], c2, Poll) == [5, 3]
            && WellFormed(c3) && Possible(c3, Change(Asking(6)))
            && var d := Dismissed(Applied(c3, Change(Asking(6)))); Accepts(d) && Polled(d).0.pi.currentLevel == 6
  {
    hide Requested, With, LevelMask, Accepts, Polled;
    PollAccepts(c, [], 5);
    var c2 := Applied(Applied(c, Poll), Change(Asking(3)));
    PollAccepts(c2, [5], 3);
    PollAccepts(Dismissed(Applied(Applied(c2, Poll), Change(Asking(6)))), [], 6);
  }

  lemma PollAccepts(c: Controller, nest: seq<nat>, n: nat)
    requires 1 <= n <= 7 && n < c.pi.currentLevel && c.pi.piOn == 1 && c.pi.levelsOn == 0x7F && c.devs == Asking(n)
    requires WellFormed(c)
    ensures Accepts(c) && Polled(c).0.pi.currentLevel == n && Nested(nest, c, Poll) == nest + [n]
    ensures var d := Applied(c, Poll);
            d.pi.piOn == 1 && d.pi.levelsOn == 0x7F && d.pi.currentLevel == n && d.devs == c.devs && d.self == c.self
  {
    hide Requested, With, LevelMask;
    OneRequest(n);
  }

  // One device that requests an interrupt at this level
  function Asking(level: nat): seq<Dev> { [Dev(0, false), Dev(level, true)] }

  lemma ReachedTo(c: Controller, ops: seq<Op>, k: nat)
    requires k < |ops| && Reached(c, ops[..k]).Some?
    requires WellFormed(Reached(c, ops[..k]).value.0) && Possible(Reached(c, ops[..k]).value.0, ops[k])
    ensures var (d, nest) := Reached(c, ops[..k]).value;
            Reached(c, ops[..k + 1]) == Some((Applied(d, ops[k]), Nested(nest, d, ops[k])))
  {
    hide Possible, Applied, Nested, WellFormed;
    assert ops[..k + 1][..k] == ops[..k];
  }

  lemma OneRequest(n: nat)
    requires 1 <= n <= 7
    ensures Requested(Asking(n), 0x7F) == n
  {
    hide Common, LevelMask;
    EveryLevel(n);
    var devs := Asking(n);
    assert devs[..1] == [Dev(0, false)] && devs[..1][..0] == [];
    assert Requested(devs[..1], 0x7F) == 99;
  }

  lemma EveryLevel(n: nat)
    requires 1 <= n <= 7
    ensures Common(LevelMask(n), 0x7F)
  {
  }

  // The search of CONO PI for the most urgent requested level meets one, for some shift of its mask,
  // exactly when a level is named; otherwise it never ends.
  lemma SearchEndsIff(levels: bv7)
    ensures (exists n: nat :: n >= 1 && Common(levels, LevelMask(n))) <==> levels != 0
  {
    if levels != 0 {
      SearchFinds(levels, 1);
    }
  }

  lemma {:induction false} SearchFinds(levels: bv7, n: nat)
    requires levels != 0 && 1 <= n <= MostUrgent(levels)
    ensures exists k: nat :: k >= 1 && Common(levels, LevelMask(k))
    decreases 8 - n
  {
    hide MostUrgent, LevelMask;
    SearchStep(levels, if n <= 7 then n else 7);
    if n <= 7 && !Common(levels, LevelMask(n)) {
      SearchFinds(levels, n + 1);
    }
  }
}
