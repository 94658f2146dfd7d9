/** What CONO PI does (src/pi.cpp:168-214), told from the bits of its 18-bit function word
    (src/pi.hpp:52-75), and what the next poll makes of it. */
module ConditionLaws {
  import opened Interrupts
  import opened InterruptLaws

  // Bit k of the function word, counted from the right, and level n in a mask of seven
  predicate Bit(v: bv18, k: nat)
    requires k < 18
  {
    (v >> k) & 1 == 1
  }

  predicate Has(m: bv7, n: nat)
    requires 1 <= n <= 7
  {
    (m >> (7 - n)) & 1 == 1
  }

  // The function word names level n.
  predicate Names(v: bv18, n: nat)
    requires 1 <= n <= 7
  {
    Bit(v, 7 - n)
  }

  // ----- masks -----

  lemma HasMask(m: bv7, n: nat)
    requires 1 <= n <= 7
    ensures Has(m, n) <==> m & LevelMask(n) != 0
  {
    match n {
      case 1 =>
      case 2 =>
      case 3 =>
      case 4 =>
      case 5 =>
      case 6 =>
      case 7 =>
    }
  }

  lemma HasWith(m: bv7, l: bv7, n: nat)
    requires 1 <= n <= 7
    ensures Has(With(m, l), n) <==> Has(m, n) || Has(l, n)
  {
    match n {
      case 1 =>
      case 2 =>
      case 3 =>
      case 4 =>
      case 5 =>
      case 6 =>
      case 7 =>
    }
  }

  lemma HasWithout(m: bv7, l: bv7, n: nat)
    requires 1 <= n <= 7
    ensures Has(Without(m, l), n) <==> Has(m, n) && !Has(l, n)
  {
    match n {
      case 1 =>
      case 2 =>
      case 3 =>
      case 4 =>
      case 5 =>
      case 6 =>
      case 7 =>
    }
  }

  // Two masks have a level in common; and the most urgent level in a mask
  lemma CommonIff(m: bv7, l: bv7)
    ensures Common(m, l) <==> exists n :: 1 <= n <= 7 && Has(m, n) && Has(l, n)
  {
    if Common(m, l) {
      assert (Has(m, 1) && Has(l, 1)) || (Has(m, 2) && Has(l, 2)) || (Has(m, 3) && Has(l, 3))
          || (Has(m, 4) && Has(l, 4)) || (Has(m, 5) && Has(l, 5)) || (Has(m, 6) && Has(l, 6))
          || (Has(m, 7) && Has(l, 7));
    } else if n: nat :| 1 <= n <= 7 && Has(m, n) && Has(l, n) {
      SharedLevel(m, l, n);
    }
  }

  lemma SharedLevel(m: bv7, l: bv7, n: nat)
    requires 1 <= n <= 7 && Has(m, n) && Has(l, n)
    ensures Common(m, l)
  {
    match n {
      case 1 =>
      case 2 =>
      case 3 =>
      case 4 =>
      case 5 =>
      case 6 =>
      case 7 =>
    }
  }

  lemma MostUrgentIs(m: bv7, n: nat)
    requires 1 <= n <= 7 && Has(m, n) && forall k :: 1 <= k < n ==> !Has(m, k)
    ensures MostUrgent(m) == n
  {
    assert n > 1 ==> !Has(m, 1);
    assert n > 2 ==> !Has(m, 2);
    assert n > 3 ==> !Has(m, 3);
    assert n > 4 ==> !Has(m, 4);
    assert n > 5 ==> !Has(m, 5);
    assert n > 6 ==> !Has(m, 6);
    match n {
      case 1 =>
      case 2 =>
      case 3 =>
      case 4 =>
      case 5 =>
      case 6 =>
      case 7 =>
    }
  }

  // A device is heard when it asks for an interrupt at a level that is on.
  lemma RequestsIff(d: Dev, on: bv7)
    requires d.level <= 7
    ensures Requests(d, on) <==> d.pending && d.level != 0 && Has(on, d.level)
  {
    if d.level != 0 {
      hide Has, LevelMask;
      HasMask(on, d.level);
      MaskCommutes(on, LevelMask(d.level));
    } else {
      NoLevel(on);
    }
  }

  lemma MaskCommutes(m: bv7, l: bv7)
    ensures m & l == l & m
  {
  }

  lemma NoLevel(on: bv7)
    ensures !Common(LevelMask(0), on)
  {
  }

  // ----- the function word -----

  lemma DecodedBits(v: bv18)
    ensures var f := DecodeFunctions(v);
            && (f.turnPIOn == 1 <==> Bit(v, 7)) && (f.turnPIOff == 1 <==> Bit(v, 8))
            && (f.levelsTurnOff == 1 <==> Bit(v, 9)) && (f.levelsTurnOn == 1 <==> Bit(v, 10))
            && (f.initiatePR == 1 <==> Bit(v, 11)) && (f.clearPI == 1 <==> Bit(v, 12))
            && (f.dropPR == 1 <==> Bit(v, 13))
            && (f.parityDir == 1 <==> Bit(v, 15)) && (f.parityData == 1 <==> Bit(v, 16))
            && (f.parityAddr == 1 <==> Bit(v, 17))
  {
  }

  lemma DecodedLevels(v: bv18, n: nat)
    requires 1 <= n <= 7
    ensures Has(DecodeFunctions(v).levels, n) <==> Names(v, n)
  {
    match n {
      case 1 =>
      case 2 =>
      case 3 =>
      case 4 =>
      case 5 =>
      case 6 =>
      case 7 =>
    }
  }

  // CONO PI ends unless it is to request an interrupt at no level at all.
  lemma ConoEndsIff(v: bv18)
    ensures ConoEnds(DecodeFunctions(v)) <==> Bit(v, 12) || !Bit(v, 11) || exists n :: 1 <= n <= 7 && Names(v, n)
  {
    hide DecodeFunctions, Bit, Has, Names, Common;
    var f := DecodeFunctions(v);
    DecodedBits(v);
    forall n | 1 <= n <= 7
      ensures Has(f.levels, n) <==> Names(v, n)
    {
      DecodedLevels(v, n);
    }
    CommonIff(f.levels, f.levels);
    CommonWithItself(f.levels);
  }

  lemma CommonWithItself(m: bv7)
    ensures Common(m, m) <==> m != 0
  {
  }

  // Which levels are on and which requests stay, for each level; whether the system is on; and what does
  // not change.  Turning on wins over turning off for the levels, and turning off for the system.
  lemma ConoLevels(c: Controller, v: bv18, n: nat)
    requires c.self < |c.devs| && !Bit(v, 12) && 1 <= n <= 7
    ensures var d := Conoed(c, DecodeFunctions(v));
            && (Has(d.pi.levelsOn, n)
                <==> (Bit(v, 10) && Names(v, n)) || (Has(c.pi.levelsOn, n) && !(Bit(v, 9) && Names(v, n))))
            && (Has(d.pi.prLevels, n)
                <==> (Bit(v, 11) && Names(v, n)) || (Has(c.pi.prLevels, n) && !(Bit(v, 13) && Names(v, n))))
            && (d.pi.piOn == 1 <==> !Bit(v, 8) && (Bit(v, 7) || c.pi.piOn == 1))
            && d.pi.held == c.pi.held && d.pi.currentLevel == c.pi.currentLevel
            && (d.pi.parityDir == 1 <==> Bit(v, 15)) && (d.pi.parityData == 1 <==> Bit(v, 16))
            && (d.pi.parityAddr == 1 <==> Bit(v, 17))
            && (d.devs[c.self].pending <==> Bit(v, 11))
            && d.self == c.self && |d.devs| == |c.devs|
            && forall i :: 0 <= i < |c.devs| && i != c.self ==> d.devs[i] == c.devs[i]
  {
    hide DecodeFunctions, Bit, Has, With, Without, Names, Common, MostUrgent;
    var f := DecodeFunctions(v);
    DecodedBits(v);
    DecodedLevels(v, n);
    HasWith(c.pi.levelsOn, f.levels, n);
    HasWithout(c.pi.levelsOn, f.levels, n);
    HasWith(Without(c.pi.levelsOn, f.levels), f.levels, n);
    HasWith(c.pi.prLevels, f.levels, n);
    HasWithout(c.pi.prLevels, f.levels, n);
    HasWith(Without(c.pi.prLevels, f.levels), f.levels, n);
  }

  // A programmed request whose most urgent level is n: the device takes that level if it is more urgent
  // than what is running, unless one of the levels named was requested already and is not dropped.
  lemma ConoRequest(c: Controller, v: bv18, n: nat)
    requires c.self < |c.devs| && !Bit(v, 12) && Bit(v, 11)
    requires 1 <= n <= 7 && Names(v, n) && forall k :: 1 <= k < n ==> !Names(v, k)
    ensures var again := !Bit(v, 13) && exists k :: 1 <= k <= 7 && Has(c.pi.prLevels, k) && Names(v, k);
            Conoed(c, DecodeFunctions(v)).devs[c.self]
            == Dev(if !again && n < c.pi.currentLevel then n else c.devs[c.self].level, true)
  {
    hide DecodeFunctions, Bit, Has, With, Without, Names, Common, MostUrgent;
    var f := DecodeFunctions(v);
    DecodedBits(v);
    forall k | 1 <= k <= 7
      ensures Has(f.levels, k) <==> Names(v, k)
    {
      DecodedLevels(v, k);
    }
    MostUrgentIs(f.levels, n);
    CommonIff(c.pi.prLevels, f.levels);
    if Bit(v, 13) {
      NothingShared(c.pi.prLevels, f.levels);
    }
  }

  lemma NothingShared(m: bv7, l: bv7)
    ensures !Common(Without(m, l), l)
  {
  }

  // After a CONO, a pending device at level n has its level accepted by the next poll exactly if these
  // bits leave that level and the system on, n is more urgent than what is running, and no device asks
  // at a more urgent level that is on.
  lemma ConoAcceptsIff(c: Controller, v: bv18, i: nat)
    requires WellFormed(c) && c.pi.currentLevel <= 8 && !Bit(v, 12) && ConoEnds(DecodeFunctions(v))
    requires i < |c.devs| && i != c.self && c.devs[i].pending && c.devs[i].level != 0
    ensures var d, n := Conoed(c, DecodeFunctions(v)), c.devs[i].level;
            && |d.devs| == |c.devs|
            && ((Accepts(d) && Polled(d).0.pi.currentLevel == n)
                <==> (!Bit(v, 8) && (Bit(v, 7) || c.pi.piOn == 1))
                     && ((Bit(v, 10) && Names(v, n)) || (Has(c.pi.levelsOn, n) && !(Bit(v, 9) && Names(v, n))))
                     && n < c.pi.currentLevel
                     && forall j :: 0 <= j < |d.devs| && d.devs[j].pending && 1 <= d.devs[j].level < n ==>
                          !Has(d.pi.levelsOn, d.devs[j].level))
  {
    hide DecodeFunctions, Bit, Has, Names, Conoed, Requests, Requested, ConoEnds, LevelMask, Polled;
    var d, n := Conoed(c, DecodeFunctions(v)), c.devs[i].level;
    ConoLevels(c, v, n);
    StaysWellFormed(c, v);
    forall j | 0 <= j < |d.devs|
      ensures Requests(d.devs[j], d.pi.levelsOn)
          <==> d.devs[j].pending && d.devs[j].level != 0 && Has(d.pi.levelsOn, d.devs[j].level)
    {
      RequestsIff(d.devs[j], d.pi.levelsOn);
    }
    PolledLevelIff(d, i);
  }

  // A poll comes to the level of a given request exactly if that request is heard and the most urgent
  // of all, and more urgent than what is running.
  lemma PolledLevelIff(c: Controller, i: nat)
    requires WellFormed(c) && c.pi.currentLevel <= 8 && i < |c.devs| && c.devs[i].pending
    ensures (Accepts(c) && Polled(c).0.pi.currentLevel == c.devs[i].level)
       <==> c.pi.piOn == 1 && Requests(c.devs[i], c.pi.levelsOn) && c.devs[i].level < c.pi.currentLevel
            && forall j :: 0 <= j < |c.devs| && Requests(c.devs[j], c.pi.levelsOn) ==>
                 c.devs[i].level <= c.devs[j].level
  {
    hide Requested, LevelMask, Common, Polled;
    RequestedIsLeast(c.devs, c.pi.levelsOn);
    PolledFields(c);
    AcceptsIff(c);
  }

  lemma StaysWellFormed(c: Controller, v: bv18)
    requires WellFormed(c) && ConoEnds(DecodeFunctions(v))
    ensures WellFormed(Conoed(c, DecodeFunctions(v)))
  {
    hide DecodeFunctions, MostUrgent, Common, Without, With;
    SearchLevel(DecodeFunctions(v).levels);
  }

  // ----- resets -----

  // The clear bit takes everything down, and nothing is accepted.
  lemma ConoClears(c: Controller, v: bv18)
    requires c.self < |c.devs| && Bit(v, 12)
    ensures var d := Conoed(c, DecodeFunctions(v));
            && d.pi.levelsOn == 0 && d.pi.piOn == 0 && d.pi.held == 0 && d.pi.prLevels == 0 && d.pi.currentLevel == 8
            && d.pi.parityDir == 0 && d.pi.parityData == 0 && d.pi.parityAddr == 0
            && d.devs == c.devs[c.self := Dev(0, false)] && d.self == c.self && !Accepts(d)
  {
    hide DecodeFunctions, Bit, Requested;
    DecodedBits(v);
  }

  // The partial reset leaves the levels and the system on as they were, so that the other devices'
  // requests are accepted by the next poll as from the idle state.
  lemma ClearKeeps(c: Controller)
    requires WellFormed(c)
    ensures var d := Cleared(c);
            && d.pi.levelsOn == c.pi.levelsOn && d.pi.piOn == c.pi.piOn
            && d.pi.held == 0 && d.pi.prLevels == 0 && d.pi.currentLevel == 8
            && d.pi.parityDir == 0 && d.pi.parityData == 0 && d.pi.parityAddr == 0
            && d.devs == c.devs[c.self := Dev(0, false)] && d.self == c.self
            && (Accepts(d)
                <==> c.pi.piOn == 1
                     && exists i :: 0 <= i < |c.devs| && i != c.self && Requests(c.devs[i], c.pi.levelsOn))
  {
    hide Requested, LevelMask, Common;
    var d := Cleared(c);
    AcceptsIff(d);
    if i: nat :| i < |c.devs| && i != c.self && Requests(c.devs[i], c.pi.levelsOn) {
      assert Requests(d.devs[i], d.pi.levelsOn);
    }
  }
}
