/** The priority-interrupt system: src/pi.cpp:69-214, src/pi.hpp:51-153 and the device state it polls
    (src/device.cpp:32-36, 84-88).  Levels run from 1, the most urgent, to 7. */
module Interrupts {
  import opened Words
  import opened Machine

  const NO_LEVEL: nat := 8

  // `1 << (7 - n)` as far as it shows in a seven-bit level mask; level 0 lies outside it.
  function LevelMask(n: nat): bv7
  {
    match n
    case 1 => 64
    case 2 => 32
    case 3 => 16
    case 4 => 8
    case 5 => 4
    case 6 => 2
    case 7 => 1
    case _ => 0
  }

  // The most urgent level in a mask, and NO_LEVEL for the empty one
  function MostUrgent(m: bv7): nat
  {
    if m & 64 != 0 then 1
    else if m & 32 != 0 then 2
    else if m & 16 != 0 then 3
    else if m & 8 != 0 then 4
    else if m & 4 != 0 then 5
    else if m & 2 != 0 then 6
    else if m & 1 != 0 then 7
    else NO_LEVEL
  }

  // The number of levels in a mask
  function Population(m: bv7): nat
  {
    (if m & 64 != 0 then 1 else 0) + (if m & 32 != 0 then 1 else 0) + (if m & 16 != 0 then 1 else 0)
    + (if m & 8 != 0 then 1 else 0) + (if m & 4 != 0 then 1 else 0) + (if m & 2 != 0 then 1 else 0)
    + (if m & 1 != 0 then 1 else 0)
  }

  // Levels added to and taken from a mask
  function With(m: bv7, levels: bv7): bv7 { m | levels }
  function Without(m: bv7, levels: bv7): bv7 { m & !levels }
  predicate Common(m: bv7, levels: bv7) { m & levels != 0 }

  // The fields of PIState
  datatype PIState = PIState(levelsOn: bv7, piOn: bv1, held: bv7, parityDir: bv1, parityData: bv1,
                             parityAddr: bv1, prLevels: bv7, currentLevel: nat)

  // The CONO PI function word
  datatype PIFunctions = PIFunctions(levels: bv7, turnPIOn: bv1, turnPIOff: bv1, levelsTurnOff: bv1,
                                     levelsTurnOn: bv1, initiatePR: bv1, clearPI: bv1, dropPR: bv1,
                                     parityDir: bv1, parityData: bv1, parityAddr: bv1)

  function FunctionBit(v: bv18, mask: bv18): bv1 { if v & mask != 0 then 1 else 0 }

  function DecodeFunctions(v: bv18): PIFunctions
  {
    PIFunctions((v & 0x7F) as bv7, FunctionBit(v, 0x80), FunctionBit(v, 0x100), FunctionBit(v, 0x200),
                FunctionBit(v, 0x400), FunctionBit(v, 0x800), FunctionBit(v, 0x1000), FunctionBit(v, 0x2000),
                FunctionBit(v, 0x8000), FunctionBit(v, 0x1_0000), FunctionBit(v, 0x2_0000))
  }

  // What the PI system sees of a device
  datatype Dev = Dev(level: nat, pending: bool)

  // The PI state and all devices in polling order; the PI system is itself the device at index `self`
  datatype Controller = Controller(pi: PIState, devs: seq<Dev>, self: nat)

  predicate WellFormed(c: Controller)
  {
    c.self < |c.devs| && forall i :: 0 <= i < |c.devs| ==> c.devs[i].level <= 7
  }

  // ----- polling -----

  predicate Requests(d: Dev, on: bv7) { d.pending && Common(LevelMask(d.level), on) }

  // The most urgent level that any device requests, 99 if none does
  function Requested(devs: seq<Dev>, on: bv7): nat
    decreases |devs|
  {
    if devs == [] then 99
    else
      Better(Requested(devs[..|devs| - 1], on), devs[|devs| - 1], on)
  }

  function Better(best: nat, d: Dev, on: bv7): nat
  {
    if Requests(d, on) && d.level < best then d.level else best
  }

  lemma RequestedNext(devs: seq<Dev>, k: nat, on: bv7)
    requires k < |devs|
    ensures Requested(devs[..k + 1], on) == Better(Requested(devs[..k], on), devs[k], on)
  {
    hide Better;
    assert devs[..k + 1][..k] == devs[..k];
  }

  // It is below all requests, and one of them.
  lemma {:induction false} RequestedIsLeast(devs: seq<Dev>, on: bv7)
    requires forall i :: 0 <= i < |devs| ==> devs[i].level <= 7
    ensures forall i :: 0 <= i < |devs| && Requests(devs[i], on) ==> Requested(devs, on) <= devs[i].level
    ensures Requested(devs, on) == 99
            || (exists i :: 0 <= i < |devs| && Requests(devs[i], on) && devs[i].level == Requested(devs, on))
    ensures Requested(devs, on) == 99 || (1 <= Requested(devs, on) <= 7 && Common(LevelMask(Requested(devs, on)), on))
    decreases |devs|
  {
    if devs != [] {
      var prefix := devs[..|devs| - 1];
      RequestedIsLeast(prefix, on);
      if Requested(prefix, on) != 99 {
        var j :| 0 <= j < |prefix| && Requests(prefix[j], on) && prefix[j].level == Requested(prefix, on);
        assert devs[j] == prefix[j];
      }
    }
  }

  predicate Accepts(c: Controller)
  {
    c.pi.piOn == 1 && c.pi.levelsOn != 0 && Requested(c.devs, c.pi.levelsOn) < c.pi.currentLevel
  }

  // `setUpInterruptCycleIfPending`: the state afterwards, and the vector (040 + 2n) or zero
  function Polled(c: Controller): (Controller, nat)
  {
    var n := Requested(c.devs, c.pi.levelsOn);
    if Accepts(c) then
      (c.(pi := c.pi.(held := With(c.pi.held, LevelMask(n)), currentLevel := n)), 32 + 2 * n)
    else (c, 0)
  }

  // ----- dismissing and clearing -----

  function Dismissed(c: Controller): Controller
  {
    c.(pi := c.pi.(held := 0, currentLevel := NO_LEVEL))
  }

  // The partial reset keeps only which levels are on and whether the system is.
  function Cleared(c: Controller): Controller
    requires c.self < |c.devs|
  {
    Controller(PIState(c.pi.levelsOn, c.pi.piOn, 0, 0, 0, 0, 0, NO_LEVEL), c.devs[c.self := Dev(0, false)], c.self)
  }

  // ----- CONO PI -----

  // Searching for the most urgent requested level does not end when no level is named.
  predicate ConoEnds(f: PIFunctions) { f.clearPI == 1 || f.initiatePR == 0 || f.levels != 0 }

  function ConoState(p: PIState, f: PIFunctions): PIState
  {
    var on := if f.turnPIOff == 1 then 0 else if f.turnPIOn == 1 then 1 else p.piOn;
    var off := if f.levelsTurnOff == 1 then Without(p.levelsOn, f.levels) else p.levelsOn;
    var levels := if f.levelsTurnOn == 1 then With(off, f.levels) else off;
    var kept := if f.dropPR == 1 then Without(p.prLevels, f.levels) else p.prLevels;
    PIState(levels, on, p.held, f.parityDir, f.parityData, f.parityAddr,
            if f.initiatePR == 1 then With(kept, f.levels) else kept, p.currentLevel)
  }

  // The PI system's own level and pending bit after a CONO; `kept` is prLevels before the request
  function ConoDev(d: Dev, p: PIState, f: PIFunctions): Dev
  {
    if f.initiatePR == 0 then d.(pending := false)
    else
      var kept := if f.dropPR == 1 then Without(p.prLevels, f.levels) else p.prLevels;
      var takes := !Common(kept, f.levels) && MostUrgent(f.levels) < p.currentLevel;
      Dev(if takes then MostUrgent(f.levels) else d.level, true)
  }

  function Conoed(c: Controller, f: PIFunctions): Controller
    requires c.self < |c.devs|
  {
    if f.clearPI == 1 then
      Controller(PIState(0, 0, 0, 0, 0, 0, 0, NO_LEVEL), c.devs[c.self := Dev(0, false)], c.self)
    else
      Controller(ConoState(c.pi, f), c.devs[c.self := ConoDev(c.devs[c.self], c.pi, f)], c.self)
  }

  // ----- the devices themselves -----

  class Device {
    var intLevel: nat
    var intPending: bool

    method RequestInterrupt()
      modifies `intPending
      ensures intPending
    {
      intPending := true;
    }
  }

  function DevsOf(ds: seq<Device>): (r: seq<Dev>)
    reads ds
    ensures |r| == |ds| && forall i :: 0 <= i < |ds| ==> r[i] == Dev(ds[i].intLevel, ds[i].intPending)
  {
    if ds == [] then [] else DevsOf(ds[..|ds| - 1]) + [Dev(ds[|ds| - 1].intLevel, ds[|ds| - 1].intPending)]
  }

  class PIDevice {
    var piState: PIState
    const base: Device
    const devices: seq<Device>
    ghost const self: nat
    const km10: KM10

    ghost predicate Valid()
      reads devices
    {
      && self < |devices| && devices[self] == base
      && (forall i :: 0 <= i < |devices| && i != self ==> devices[i] != base)
      && (forall i :: 0 <= i < |devices| ==> devices[i].intLevel <= 7)
    }

    ghost function Snapshot(): Controller
      reads this, devices
    {
      Controller(piState, DevsOf(devices), self)
    }

    // The constructor registers the device and resets it.
    constructor (m: KM10, ds: seq<Device>, ghost at: nat, b: Device)
      requires at < |ds| && ds[at] == b
      requires forall i :: 0 <= i < |ds| && i != at ==> ds[i] != b
      requires forall i :: 0 <= i < |ds| ==> ds[i].intLevel <= 7
      modifies b, m`inInterrupt
      ensures Valid() && km10 == m && devices == ds && self == at && base == b
      ensures Snapshot() == Controller(PIState(0, 0, 0, 0, 0, 0, 0, NO_LEVEL), old(DevsOf(ds))[at := Dev(0, false)], at)
      ensures m.inInterrupt == old(m.inInterrupt)
    {
      piState := PIState(0, 0, 0, 0, 0, 0, 0, NO_LEVEL);
      base, devices, self, km10 := b, ds, at, m;
      new;
      ClearIO();
    }

    method SetUpInterruptCycleIfPending() returns (vector: nat)
      requires Valid()
      modifies `piState
      ensures (Snapshot(), vector) == Polled(old(Snapshot()))
    {
      hide LevelMask, With, Requested;
      if piState.piOn == 0 || piState.levelsOn == 0 {
        return 0;
      }
      var highestLevel, highestMask := HighestPending();
      vector := 0;
      if highestLevel < piState.currentLevel {
        piState := piState.(held := With(piState.held, highestMask), currentLevel := highestLevel);
        vector := 32 + 2 * highestLevel;
      }
    }

    // The search of the device list: the first device of the most urgent level wins.
    method HighestPending() returns (highestLevel: nat, highestMask: bv7)
      requires Valid()
      ensures highestLevel == Requested(DevsOf(devices), piState.levelsOn) && highestMask == LevelMask(highestLevel)
    {
      NoMask();
      hide LevelMask, Common, Requested;
      ghost var devs := DevsOf(devices);
      RequestedNone(piState.levelsOn);
      highestLevel, highestMask := 99, 0;
      for k := 0 to |devices|
        invariant highestLevel == Requested(devs[..k], piState.levelsOn)
        invariant highestMask == LevelMask(highestLevel)
      {
        RequestedNext(devs, k, piState.levelsOn);
        if devices[k].intPending {
          var levelMask := LevelMask(devices[k].intLevel);
          if Common(levelMask, piState.levelsOn) && devices[k].intLevel < highestLevel {
            highestLevel := devices[k].intLevel;
            highestMask := levelMask;
          }
        }
      }
      assert devs[..|devices|] == devs;
    }

    // This ends interrupt service, whatever the nesting.
    method DismissInterrupt()
      modifies `piState, km10`inInterrupt
      ensures Snapshot() == Dismissed(old(Snapshot())) && !km10.inInterrupt
    {
      piState := piState.(currentLevel := NO_LEVEL);
      piState := piState.(held := 0);
      km10.inInterrupt := false;
    }

    // The partial reset: first what every device does, whose call of `putConditions` comes back here
    method ClearIO()
      requires Valid()
      modifies `piState, base, km10`inInterrupt
      ensures Valid() && Snapshot() == Cleared(old(Snapshot())) && km10.inInterrupt == old(km10.inInterrupt)
      decreases 1
    {
      base.intPending := false;
      base.intLevel := 0;
      PutConditions(0);
      var levelsOn, piOn := piState.levelsOn, piState.piOn;
      piState := PIState(0, 0, 0, 0, 0, 0, 0, NO_LEVEL);
      piState := piState.(levelsOn := levelsOn);
      piState := piState.(piOn := piOn);
      assert DevsOf(devices) == old(DevsOf(devices))[self := Dev(0, false)];
    }

    // CONO PI
    method PutConditions(v: bv18)
      requires Valid() && ConoEnds(DecodeFunctions(v))
      modifies `piState, base, km10`inInterrupt
      ensures Valid() && Snapshot() == Conoed(old(Snapshot()), DecodeFunctions(v))
      ensures km10.inInterrupt == (old(km10.inInterrupt) && DecodeFunctions(v).clearPI == 0)
      decreases if DecodeFunctions(v).clearPI == 1 then 2 else 0
    {
      hide DecodeFunctions, With, Without, Common, MostUrgent;
      DecodeNothing();
      var f := DecodeFunctions(v);
      if f.clearPI == 1 {
        ClearIO();
        piState := PIState(0, 0, 0, 0, 0, 0, 0, NO_LEVEL);
        km10.inInterrupt := false;
      } else {
        SetConditions(f);
        if f.initiatePR == 1 {
          InitiatePR(f.levels);
        } else {
          base.intPending := false;
        }
        assert DevsOf(devices)
            == old(DevsOf(devices))[self := ConoDev(Dev(old(base.intLevel), old(base.intPending)), old(piState), f)];
      }
    }

    // A programmed request: its level is taken up if none of the levels was requested before and it is
    // more urgent than what is running.
    method InitiatePR(levels: bv7)
      requires levels != 0
      modifies `piState, base
      ensures piState == old(piState).(prLevels := With(old(piState).prLevels, levels)) && base.intPending
      ensures base.intLevel
              == if !Common(old(piState).prLevels, levels) && MostUrgent(levels) < old(piState).currentLevel
                 then MostUrgent(levels) else old(base.intLevel)
      ensures base.intLevel <= 7 || base.intLevel == old(base.intLevel)
    {
      hide With, Common, MostUrgent, LevelMask;
      if !Common(piState.prLevels, levels) {
        var levelMask, thisLevel := Search(levels);
        if levelMask == 0 || thisLevel < piState.currentLevel {
          base.intLevel := thisLevel;
        }
      }
      piState := piState.(prLevels := With(piState.prLevels, levels));
      base.RequestInterrupt();
    }

    // The parts of the function word that only touch the PI state
    method SetConditions(f: PIFunctions)
      modifies `piState
      ensures piState == ConoState(old(piState), f.(initiatePR := 0))
    {
      hide With, Without;
      piState := piState.(parityDir := f.parityDir, parityData := f.parityData, parityAddr := f.parityAddr);
      if f.turnPIOn == 1 {
        piState := piState.(piOn := 1);
      }
      if f.turnPIOff == 1 {
        piState := piState.(piOn := 0);
      }
      if f.levelsTurnOff == 1 {
        piState := piState.(levelsOn := Without(piState.levelsOn, f.levels));
      }
      if f.levelsTurnOn == 1 {
        piState := piState.(levelsOn := With(piState.levelsOn, f.levels));
      }
      if f.dropPR == 1 {
        piState := piState.(prLevels := Without(piState.prLevels, f.levels));
      }
    }
  }

  // The search for the most urgent requested level
  method Search(levels: bv7) returns (levelMask: bv7, thisLevel: nat)
    requires levels != 0
    ensures thisLevel == MostUrgent(levels) && levelMask == LevelMask(thisLevel) && levelMask != 0 && thisLevel <= 7
  {
    hide LevelMask, MostUrgent;
    levelMask, thisLevel := 64, 1;
    SearchStep(levels, 1);
    while levels & levelMask == 0
      invariant 1 <= thisLevel <= 7 && levelMask == LevelMask(thisLevel) && thisLevel <= MostUrgent(levels)
      decreases 7 - thisLevel
    {
      SearchStep(levels, thisLevel);
      thisLevel, levelMask := thisLevel + 1, levelMask >> 1;
    }
    SearchStep(levels, thisLevel);
  }

  lemma SearchStep(levels: bv7, n: nat)
    requires levels != 0 && 1 <= n <= 7
    ensures LevelMask(1) == 64 && 1 <= MostUrgent(levels) <= 7 && LevelMask(n) != 0
    ensures n <= MostUrgent(levels) && levels & LevelMask(n) == 0 ==>
              n < MostUrgent(levels) && LevelMask(n) >> 1 == LevelMask(n + 1)
    ensures n <= MostUrgent(levels) && levels & LevelMask(n) != 0 ==> n == MostUrgent(levels)
  {
    assert levels & 64 != 0 || levels & 32 != 0 || levels & 16 != 0 || levels & 8 != 0 || levels & 4 != 0
        || levels & 2 != 0 || levels & 1 != 0;
  }

  lemma DecodeNothing()
    ensures DecodeFunctions(0) == PIFunctions(0, 0, 0, 0, 0, 0, 0, 0, 0, 0, 0)
  {
  }

  lemma RequestedNone(on: bv7)
    ensures Requested([], on) == 99
  {
  }

  lemma NoMask()
    ensures LevelMask(99) == 0
  {
  }
}
