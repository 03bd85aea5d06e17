/** Track power: the overcurrent state machine, stepped by the track monitor while other tasks switch power. */
module Motor {
  import opened Bits

  const MIN_BACKOFF_MS: nat := 40
  const FAULT_WINDOW_MS: nat := 5000
  const ALERT_WINDOW_MS: nat := 20
  const TIMEOUT_MS: nat := 100
  const MAX_BACKOFF_MS: nat := 10000

  datatype Mode = Off | On | Alert | Overload

  /** `pin` drives the power; `entered` is the tick, of one millisecond, at which the mode was entered. */
  datatype Power = Power(mode: Mode, pin: bool, entered: u32, backoff: nat)

  predicate Live(mode: Mode) { mode == On || mode == Alert }

  function Applied(p: Power, to: Mode, tick: u32): Power {
    if p.mode == to then p else p.(mode := to, pin := Live(to), entered := tick)
  }

  function Switched(p: Power, on: bool, tick: u32): Power {
    if !on then Applied(p, Off, tick) else if p.mode == Off then Applied(p, On, tick) else p
  }

  function Doubled(backoff: nat): nat { if MAX_BACKOFF_MS < 2 * backoff then MAX_BACKOFF_MS else 2 * backoff }

  function Since(now: u32, tick: u32): u32 { Wrap(now - tick) }

  // ---- the monitor's steps and the other tasks' commands ------------------------------------

  /** Where the monitor is: it has read the mode, then how long it has lasted, then decided on a transition. */
  datatype Pc = Ready | Saw(mode: Mode) | Timed(elapsed: nat) | Try(from: Mode, to: Mode) | Doubling

  /** `now` and `enteredAt` are real milliseconds, which the 32-bit tick wraps; `retries` counts the times power
      came back from overload since the backoff was last reset. */
  datatype Sys = Sys(p: Power, pc: Pc, now: nat, enteredAt: nat, retries: nat)

  datatype Action =
    | Look                 // the monitor reads the mode
    | Measure              // and how long it has lasted
    | Judge(bad: bool)     // and the fault pin and the current, and decides
    | Swap                 // its compare-and-set
    | Double               // and, power restored, the longer backoff
    | Command(on: bool)    // another task switches power
    | Pass(ms: nat)        // time goes by

  ghost predicate Enabled(s: Sys, a: Action) {
    match a
    case Look => s.pc == Ready
    case Measure => s.pc == Saw(Alert) || s.pc == Saw(Overload)
    case Judge(_) => s.pc == Saw(Off) || s.pc == Saw(On) || s.pc.Timed?
    case Swap => s.pc.Try?
    case Double => s.pc == Doubling
    case _ => true
  }

  function Tick(s: Sys): u32 { Wrap(s.now) }

  function Elapsed(s: Sys): u32 { Since(Tick(s), s.p.entered) }

  /** Entering a mode, which the real clock notes too. */
  function Entered(s: Sys, p: Power): Sys { s.(p := p, enteredAt := if p.mode == s.p.mode then s.enteredAt else s.now) }

  function Reset(s: Sys): Sys { s.(p := s.p.(backoff := MIN_BACKOFF_MS), retries := 0) }

  ghost function Next(s: Sys, a: Action): Sys
    requires Enabled(s, a)
  {
    match a
    case Look => s.(pc := Saw(s.p.mode))
    case Measure =>
      if s.pc.mode == Alert then s.(pc := Timed(Elapsed(s)))
      else s.(pc := if Elapsed(s) < s.p.backoff then Ready else Try(Overload, Alert))
    case Judge(bad) =>
      if s.pc == Saw(Off) then Reset(s).(pc := Ready)
      else if s.pc == Saw(On) then
        if bad then s.(pc := Try(On, Alert))
        else if FAULT_WINDOW_MS < Elapsed(s) then Reset(s).(pc := Ready)
        else s.(pc := Ready)
      else if bad then s.(pc := if s.pc.elapsed < TIMEOUT_MS then Ready else Try(Alert, Overload))
      else s.(pc := if ALERT_WINDOW_MS < s.pc.elapsed then Try(Alert, On) else Ready)
    case Swap =>
      if s.p.mode != s.pc.from then s.(pc := Ready)
      else
        var t := Entered(s, Applied(s.p, s.pc.to, Tick(s)));
        if s.pc.from == Overload then t.(pc := Doubling, retries := s.retries + 1) else t.(pc := Ready)
    case Double => s.(p := s.p.(backoff := Doubled(s.p.backoff)), pc := Ready)
    case Command(on) => Entered(s, Switched(s.p, on, Tick(s)))
    case Pass(ms) => s.(now := s.now + ms)
  }

  function Backoff(k: nat): nat { if k == 0 then MIN_BACKOFF_MS else Doubled(Backoff(k - 1)) }

  /** What the monitor is about to do still fits the mode it saw, as long as that is the mode: nobody but the
      monitor enters Alert or Overload, so the mode cannot have been left and entered again. */
  ghost predicate Fits(s: Sys) {
    match s.pc
    case Timed(elapsed) => s.p.mode == Alert ==> elapsed <= s.now - s.enteredAt
    case Try(from, to) =>
      && ((from == On && to == Alert) || (from == Alert && (to == On || to == Overload)) || (from == Overload && to == Alert))
      && (s.p.mode == from ==>
            && (from == Overload ==> s.p.backoff <= s.now - s.enteredAt)
            && (from == Alert && to == Overload ==> TIMEOUT_MS <= s.now - s.enteredAt)
            && (from == Alert && to == On ==> ALERT_WINDOW_MS < s.now - s.enteredAt))
    case _ => true
  }

  ghost predicate Inv(s: Sys) {
    && (s.p.pin <==> Live(s.p.mode))
    && s.enteredAt <= s.now && s.p.entered == Wrap(s.enteredAt)
    && (s.pc == Doubling ==> 0 < s.retries)
    && s.p.backoff == Backoff(if s.pc == Doubling then s.retries - 1 else s.retries)
    && Fits(s)
  }

  /** A wrapped clock never shows more time than has gone by. */
  lemma ElapsedReal(s: Sys)
    requires s.enteredAt <= s.now && s.p.entered == Wrap(s.enteredAt)
    ensures Elapsed(s) <= s.now - s.enteredAt
    ensures s.now - s.enteredAt < 0x1_0000_0000 ==> Elapsed(s) == s.now - s.enteredAt
  {
    hide Wrap;
    WrapDifference(s.now, s.enteredAt);
    WrapBelow(s.now - s.enteredAt);
  }

  lemma WrapBelow(x: nat)
    ensures Wrap(x) <= x && (x < 0x1_0000_0000 ==> Wrap(x) == x)
  {
  }

  lemma StepKeeps(s: Sys, a: Action)
    requires Inv(s) && Enabled(s, a)
    ensures Inv(Next(s, a))
  {
    hide Wrap, Elapsed, Doubled;
    ElapsedReal(s);
  }

  const START: Sys := Sys(Power(Off, false, 0, MIN_BACKOFF_MS), Ready, 0, 0, 0)

  lemma StartInv()
    ensures Inv(START)
  {
  }

  /** The system after the actions; one that is not enabled does nothing. */
  ghost function After(actions: seq<Action>): Sys {
    if actions == [] then START
    else
      var s, a := After(actions[..|actions| - 1]), actions[|actions| - 1];
      if Enabled(s, a) then Next(s, a) else s
  }

  lemma {:induction false} RunKeeps(actions: seq<Action>)
    ensures Inv(After(actions))
    decreases |actions|
  {
    hide Inv, Next, Enabled;
    if actions == [] {
      StartInv();
    } else {
      var front, a := actions[..|actions| - 1], actions[|actions| - 1];
      RunKeeps(front);
      if Enabled(After(front), a) {
        StepKeeps(After(front), a);
      }
    }
  }

  // ---- what holds over every run --------------------------------------------------------------

  /** At every moment of every interleaving the power pin is high exactly in the modes On and Alert. */
  lemma PinFollowsMode(actions: seq<Action>)
    ensures After(actions).p.pin <==> After(actions).p.mode == On || After(actions).p.mode == Alert
  {
    hide After;
    RunKeeps(actions);
  }

  ghost predicate NoOn(actions: seq<Action>, from: nat) {
    forall k :: from <= k < |actions| ==> actions[k] != Command(true)
  }

  lemma OffSticks(s: Sys, a: Action)
    requires Inv(s) && Enabled(s, a) && s.p.mode == Off && a != Command(true)
    ensures Next(s, a).p.mode == Off
  {
    hide Wrap, Elapsed, Backoff;
  }

  /** Off always wins: after an off command the power stays off until an on command, whatever the monitor was in
      the middle of. */
  lemma {:induction false} StaysOff(actions: seq<Action>, from: nat)
    requires from < |actions| && actions[from] == Command(false) && NoOn(actions, from)
    ensures After(actions).p.mode == Off && !After(actions).p.pin
    decreases |actions|
  {
    var front, last := actions[..|actions| - 1], actions[|actions| - 1];
    var s := After(front);
    RunKeeps(front);
    hide Inv, Next, Enabled;
    if from == |front| {
      CommandMeans(s);
    } else {
      StaysOff(front, from);
      if Enabled(s, last) {
        OffSticks(s, last);
      }
    }
    PinFollowsMode(actions);
  }

  /** A command to switch off cuts the power whatever the mode, and one to switch on starts a track that is off and
      leaves any other to the monitor. */
  lemma CommandMeans(s: Sys)
    requires Inv(s)
    ensures Enabled(s, Command(false)) && Next(s, Command(false)).p.mode == Off && !Next(s, Command(false)).p.pin
    ensures Enabled(s, Command(true)) && var t := Next(s, Command(true));
      if s.p.mode == Off then t.p.mode == On && t.p.pin && t.enteredAt == s.now else t == s
  {
    hide Wrap, Elapsed, Backoff;
  }

  /** Power comes back from overload only by the monitor, and not before the current backoff has really gone by,
      clock wrap or not; and it trips only after a real TIMEOUT_MS in Alert, and calms down only after a real
      ALERT_WINDOW_MS. */
  lemma BackoffHolds(actions: seq<Action>, a: Action)
    requires Enabled(After(actions), a)
    ensures var s := After(actions); var t := Next(s, a);
      && (s.p.mode == Overload && t.p.mode != Overload && a != Command(false) ==>
            a == Swap && t.p.mode == Alert && s.p.backoff <= s.now - s.enteredAt)
      && (s.p.mode == Overload && t.p.pin ==> a == Swap)
      && (t.p.mode == Overload && s.p.mode != Overload ==> s.p.mode == Alert && TIMEOUT_MS <= s.now - s.enteredAt)
      && (s.p.mode == Alert && t.p.mode == On ==> ALERT_WINDOW_MS < s.now - s.enteredAt)
  {
    hide After, Wrap, Elapsed, Backoff;
    RunKeeps(actions);
    StepKeeps(After(actions), a);
  }

  lemma {:induction false} BackoffIs(k: nat)
    ensures Backoff(k) == if MIN_BACKOFF_MS * Pow2(k) < MAX_BACKOFF_MS then MIN_BACKOFF_MS * Pow2(k) else MAX_BACKOFF_MS
    decreases k
  {
    if k != 0 {
      BackoffIs(k - 1);
    }
  }

  /** After `k` returns from overload since it was last reset, the backoff is 40 ms times 2^k, at most 10 seconds. */
  lemma BackoffGrows(actions: seq<Action>)
    requires After(actions).pc != Doubling
    ensures var s := After(actions); var b := MIN_BACKOFF_MS * Pow2(s.retries);
      s.p.backoff == if b < MAX_BACKOFF_MS then b else MAX_BACKOFF_MS
  {
    hide After, Backoff, Pow2, Fits;
    RunKeeps(actions);
    BackoffIs(After(actions).retries);
  }

  // ---- the motor --------------------------------------------------------------------------------

  /** One whole update that nothing interrupts, as the steps it is made of. */
  ghost function Updated(s: Sys, bad: bool): (t: Sys)
    requires s.pc == Ready
    ensures t.pc == Ready
  {
    var seen := Next(s, Look);
    match s.p.mode
    case Alert =>
      var t := Next(Next(seen, Measure), Judge(bad));
      if t.pc.Try? then Next(t, Swap) else t
    case Overload =>
      var t := Next(seen, Measure);
      if t.pc.Try? then Next(Next(t, Swap), Double) else t
    case Off => Next(seen, Judge(bad))
    case On =>
      var t := Next(seen, Judge(bad));
      if t.pc.Try? then Next(t, Swap) else t
  }

  /** An update in real time, for a mode entered less than 49 days ago: what it leaves the mode, the pin and the time of
      the last change at. */
  lemma UpdateMeans(s: Sys, bad: bool)
    requires Inv(s) && s.pc == Ready && s.now - s.enteredAt < 0x1_0000_0000
    ensures var t, age := Updated(s, bad), s.now - s.enteredAt;
      && Inv(t) && t.now == s.now
      && match s.p.mode
         case Off => t.p == s.p.(backoff := 40) && t.enteredAt == s.enteredAt
         case On => if bad then t.p.mode == Alert && t.p.pin && t.enteredAt == s.now
                    else t.p.mode == On && t.enteredAt == s.enteredAt && t.p.backoff == if 5000 < age then 40 else s.p.backoff
         case Alert =>
           if bad && 100 <= age then t.p.mode == Overload && !t.p.pin && t.enteredAt == s.now
           else if !bad && 20 < age then t.p.mode == On && t.p.pin && t.enteredAt == s.now
           else t.p == s.p && t.enteredAt == s.enteredAt
         case Overload =>
           if age < s.p.backoff then t.p == s.p && t.enteredAt == s.enteredAt
           else t.p.mode == Alert && t.p.pin && t.enteredAt == s.now
  {
    ElapsedReal(s);
    UpdateKeeps(s, bad);
    hide Wrap, Elapsed, Doubled, Backoff;
  }

  lemma UpdateKeeps(s: Sys, bad: bool)
    requires Inv(s) && s.pc == Ready
    ensures Inv(Updated(s, bad))
  {
    hide Inv, Wrap, Elapsed, Doubled;
    var seen := Next(s, Look);
    StepKeeps(s, Look);
    match s.p.mode
    case Alert =>
      StepKeeps(seen, Measure);
      var t := Next(seen, Measure);
      StepKeeps(t, Judge(bad));
      if Next(t, Judge(bad)).pc.Try? {
        StepKeeps(Next(t, Judge(bad)), Swap);
      }
    case Overload =>
      StepKeeps(seen, Measure);
      var t := Next(seen, Measure);
      if t.pc.Try? {
        StepKeeps(t, Swap);
        StepKeeps(Next(t, Swap), Double);
      }
    case Off => StepKeeps(seen, Judge(bad));
    case On =>
      StepKeeps(seen, Judge(bad));
      if Next(seen, Judge(bad)).pc.Try? {
        StepKeeps(Next(seen, Judge(bad)), Swap);
      }
  }

  // ---- how long it takes --------------------------------------------------------------------------

  function Sum(waits: seq<nat>): nat { if waits == [] then 0 else Sum(waits[..|waits| - 1]) + waits[|waits| - 1] }

  /** The track after updates that come after the given waits and all find the same, with nobody switching it. */
  ghost function Watched(s: Sys, waits: seq<nat>, bad: bool): (t: Sys)
    requires s.pc == Ready
    ensures t.pc == Ready
    decreases |waits|
  {
    if waits == [] then s else Updated(Next(Watched(s, waits[..|waits| - 1], bad), Pass(waits[|waits| - 1])), bad)
  }

  ghost predicate Tripped(s: Sys, waits: seq<nat>)
    requires s.pc == Ready
    decreases |waits|
  {
    var t := Watched(s, waits, true);
    (t.p.mode == Overload && !t.p.pin) || (waits != [] && Tripped(s, waits[..|waits| - 1]))
  }

  ghost predicate AtMost(waits: seq<nat>, gap: nat) { forall k :: 0 <= k < |waits| ==> waits[k] <= gap }

  lemma PassKeeps(s: Sys, ms: nat)
    requires Inv(s) && s.pc == Ready
    ensures var t := Next(s, Pass(ms)); Inv(t) && t.pc == Ready && t.p == s.p && t.enteredAt == s.enteredAt && t.now == s.now + ms
  {
    hide Wrap, Elapsed, Backoff;
  }

  lemma {:induction false} NotTripped(s: Sys, waits: seq<nat>, gap: nat)
    requires Inv(s) && s.pc == Ready && s.p.mode == On && AtMost(waits, gap) && 100 + gap < 0x1_0000_0000
    requires s.now - s.enteredAt + gap < 0x1_0000_0000 && !Tripped(s, waits)
    ensures var t := Watched(s, waits, true);
      && Inv(t) && t.now == s.now + Sum(waits)
      && if waits == [] then t == s
         else t.p.mode == Alert && t.enteredAt <= s.now + gap && t.now - t.enteredAt < 100
    decreases |waits|
  {
    hide Inv, Updated, Next;
    if waits != [] {
      var front, w := waits[..|waits| - 1], waits[|waits| - 1];
      NotTripped(s, front, gap);
      var t := Watched(s, front, true);
      PassKeeps(t, w);
      UpdateMeans(Next(t, Pass(w)), true);
    }
  }

  /** Overcurrent trips: with updates at most `gap` apart that all find a fault, power that was on is cut within
      100 ms and one gap. */
  lemma TripsInTime(s: Sys, waits: seq<nat>, gap: nat)
    requires Inv(s) && s.pc == Ready && s.p.mode == On && AtMost(waits, gap) && 100 + gap < 0x1_0000_0000
    requires s.now - s.enteredAt + gap < 0x1_0000_0000 && 100 + gap <= Sum(waits)
    ensures Tripped(s, waits)
  {
    hide Inv, Watched, Tripped;
    if !Tripped(s, waits) {
      NotTripped(s, waits, gap);
    }
  }

  lemma {:induction false} ComesBack(s: Sys, waits: seq<nat>, gap: nat)
    requires Inv(s) && s.pc == Ready && s.p.mode == Overload && AtMost(waits, gap) && s.now - s.enteredAt <= s.p.backoff
    requires s.p.backoff + gap < 0x1_0000_0000 && 20 + gap < 0x1_0000_0000
    requires s.now + Sum(waits) - s.enteredAt < 0x1_0000_0000
    ensures var t := Watched(s, waits, false);
      && Inv(t) && t.now == s.now + Sum(waits)
      && match t.p.mode
         case Overload => t.enteredAt == s.enteredAt && t.p.backoff == s.p.backoff && (waits == [] || t.now - t.enteredAt < s.p.backoff)
         case Alert => s.enteredAt <= t.enteredAt <= s.enteredAt + s.p.backoff + gap && t.now - t.enteredAt <= 20
         case On => s.enteredAt <= t.enteredAt
         case Off => false
    decreases |waits|
  {
    hide Inv, Updated, Next;
    if waits != [] {
      var front, w := waits[..|waits| - 1], waits[|waits| - 1];
      ComesBack(s, front, gap);
      var t := Watched(s, front, false);
      PassKeeps(t, w);
      UpdateMeans(Next(t, Pass(w)), false);
    }
  }

  /** And power comes back: once the fault is gone, with updates at most `gap` apart, it is on for good after the backoff,
      21 ms and one gap. */
  lemma RecoversInTime(s: Sys, waits: seq<nat>, gap: nat)
    requires Inv(s) && s.pc == Ready && s.p.mode == Overload && AtMost(waits, gap) && s.now - s.enteredAt <= s.p.backoff
    requires s.p.backoff + gap < 0x1_0000_0000 && 20 + gap < 0x1_0000_0000
    requires s.now + Sum(waits) - s.enteredAt < 0x1_0000_0000
    requires s.p.backoff + gap + 21 <= Sum(waits)
    ensures Watched(s, waits, false).p.mode == On && Watched(s, waits, false).p.pin
  {
    ComesBack(s, waits, gap);
    hide Watched, Backoff, Fits;
  }

  class Driver {
    var mode: Mode
    var pin: bool
    var entered: u32
    var backoff: nat
    var currentLimit: u16
    var limitOverride: u16

    ghost function View(): Power
      reads this
    {
      Power(mode, pin, entered, backoff)
    }

    constructor (limit: u16)
      ensures View() == START.p
    {
      mode, pin, entered, backoff := Off, false, 0, MIN_BACKOFF_MS;
      currentLimit, limitOverride := limit, 0;
    }

    method ApplyMode(to: Mode, tick: u32)
      modifies this`mode, this`pin, this`entered
      ensures View() == Applied(old(View()), to, tick)
    {
      if mode == to {
        return;
      }
      if to == On || to == Alert {
        pin := true;
      } else {
        pin := false;
      }
      entered := tick;
      mode := to;
    }

    method Transition(from: Mode, to: Mode, tick: u32) returns (ok: bool)
      modifies this`mode, this`pin, this`entered
      ensures ok == (old(mode) == from)
      ensures View() == if ok then Applied(old(View()), to, tick) else old(View())
    {
      ok := mode == from;
      if ok {
        ApplyMode(to, tick);
      }
    }

    method SetPower(on: bool, tick: u32)
      modifies this`mode, this`pin, this`entered
      ensures View() == Switched(old(View()), on, tick)
    {
      if !on {
        ApplyMode(Off, tick);
      } else if mode == Off {
        ApplyMode(On, tick);
      }
    }

    predicate Bad(fault: bool, reading: u16)
      reads this
    {
      fault || reading > if limitOverride != 0 then limitOverride else currentLimit
    }

    method HandleOn(fault: bool, reading: u16, tick: u32)
      requires mode == On
      modifies this`mode, this`pin, this`entered, this`backoff
      ensures View() == if Bad(fault, reading) then Applied(old(View()), Alert, tick)
                        else if FAULT_WINDOW_MS < Since(tick, old(entered)) then old(View()).(backoff := MIN_BACKOFF_MS)
                        else old(View())
    {
      if !Bad(fault, reading) {
        if Since(tick, entered) > FAULT_WINDOW_MS {
          backoff := MIN_BACKOFF_MS;
        }
        return;
      }
      var _ := Transition(On, Alert, tick);
    }

    method HandleAlert(fault: bool, reading: u16, tick: u32)
      requires mode == Alert
      modifies this`mode, this`pin, this`entered
      ensures var elapsed := Since(tick, old(entered));
        View() == if Bad(fault, reading) then if elapsed < TIMEOUT_MS then old(View()) else Applied(old(View()), Overload, tick)
                  else if ALERT_WINDOW_MS < elapsed then Applied(old(View()), On, tick)
                  else old(View())
    {
      var elapsed := Since(tick, entered);
      if Bad(fault, reading) {
        if elapsed < TIMEOUT_MS {
          return;
        }
        var _ := Transition(Alert, Overload, tick);
        return;
      }
      if elapsed > ALERT_WINDOW_MS {
        var _ := Transition(Alert, On, tick);
      }
    }

    method HandleOverload(tick: u32)
      requires mode == Overload
      modifies this`mode, this`pin, this`entered, this`backoff
      ensures View() == if Since(tick, old(entered)) < old(backoff) then old(View())
                        else Applied(old(View()), Alert, tick).(backoff := Doubled(old(backoff)))
    {
      if Since(tick, entered) < backoff {
        return;
      }
      var ok := Transition(Overload, Alert, tick);
      if !ok {
        return;
      }
      backoff := backoff * 2;
      if backoff > MAX_BACKOFF_MS {
        backoff := MAX_BACKOFF_MS;
      }
    }

    /** An update that nothing interrupts does what its steps do in a row. */
    method Update(fault: bool, reading: u16, tick: u32, ghost s: Sys)
      requires s.p == View() && s.pc == Ready && tick == Tick(s)
      modifies this`mode, this`pin, this`entered, this`backoff
      ensures View() == Updated(s, fault || (if limitOverride != 0 then limitOverride else currentLimit) < reading).p
    {
      hide Wrap, Doubled;
      match mode {
        case Off => backoff := MIN_BACKOFF_MS;
        case On => HandleOn(fault, reading, tick);
        case Alert => HandleAlert(fault, reading, tick);
        case Overload => HandleOverload(tick);
      }
    }
  }
}
