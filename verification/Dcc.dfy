/** The DCC engine: the loco table, emergency stops and the reminder loop, with the command task and the reminder
    task interleaved. */
module Dcc {
  import opened Bits
  import opened Functions

  const MAX_LOCOS: nat := 50
  const SHORT_ADDRESS_MAX: u16 := 127
  const CMD_SET_SPEED: u8 := 0x3F
  const STATES: nat := 11

  /** A row of the loco table; `groups` are the function groups ever changed. */
  datatype Loco = Loco(active: bool, address: u16, isLong: bool, speed: u8, fns: Fns, groups: set<nat>)

  /** The latest throttle command. */
  datatype Last = Last(valid: bool, address: u16, isLong: bool, step: u8)

  datatype Eng = Eng(locos: seq<Loco>, loop: nat, held: bool, last: Last)

  /** A packet for the scheduler: the instruction, and whether it has emergency priority. */
  datatype Out = Out(address: u16, isLong: bool, data: seq<u8>, urgent: bool)

  predicate IsSpeed(o: Out) { |o.data| == 2 && o.data[0] == CMD_SET_SPEED }

  /** Speed steps 0 and 1, with either direction, are stop and emergency stop. */
  predicate Running(o: Out) { IsSpeed(o) && 2 <= o.data[1] % 0x80 }

  predicate Stops(o: Out) { IsSpeed(o) && o.data[1] % 0x80 == 1 }

  // ---- the loco table ---------------------------------------------------------------------

  function Find(locos: seq<Loco>, a: u16, k: nat): (r: int)
    requires k <= |locos|
    ensures r == -1 || k <= r < |locos|
    ensures r != -1 ==> locos[r].active && locos[r].address == a
    ensures r == -1 ==> forall j :: k <= j < |locos| ==> !(locos[j].active && locos[j].address == a)
    decreases |locos| - k
  {
    if k == |locos| then -1 else if locos[k].active && locos[k].address == a then k else Find(locos, a, k + 1)
  }

  function FindFree(locos: seq<Loco>, k: nat): (r: int)
    requires k <= |locos|
    ensures r == -1 || k <= r < |locos|
    ensures r != -1 ==> !locos[r].active
    ensures r == -1 ==> forall j :: k <= j < |locos| ==> locos[j].active
    decreases |locos| - k
  {
    if k == |locos| then -1 else if !locos[k].active then k else FindFree(locos, k + 1)
  }

  function Long(a: u16, isLong: bool): bool { isLong || SHORT_ADDRESS_MAX < a }

  datatype Row = Row(locos: seq<Loco>, at: int)

  /** The loco's row, taken if need be; -1 if the table is full. */
  function Ensured(locos: seq<Loco>, a: u16, isLong: bool): (r: Row)
    ensures |r.locos| == |locos| && -1 <= r.at < |locos|
    ensures r.at != -1 ==> r.locos[r.at].active && r.locos[r.at].address == a
    ensures forall j :: 0 <= j < |locos| && j != r.at ==> r.locos[j] == locos[j]
  {
    var i, free := Find(locos, a, 0), FindFree(locos, 0);
    if i != -1 then Row(locos[i := locos[i].(isLong := Long(a, isLong))], i)
    else if free != -1 then Row(locos[free := Loco(true, a, Long(a, isLong), 0, AllOff(), {})], free)
    else Row(locos, -1)
  }

  /** No address is active twice, and a group never changed is all off. */
  ghost predicate Inv(e: Eng) {
    && e.loop < STATES
    && (forall i, j :: 0 <= i < j < |e.locos| && e.locos[i].active && e.locos[j].active ==> e.locos[i].address != e.locos[j].address)
    && (forall i, f :: 0 <= i < |e.locos| && 0 <= f <= MAX_FN && e.locos[i].active && e.locos[i].fns[f] ==> GroupOf(f) in e.locos[i].groups)
  }

  // ---- commands: what each does while it holds the mutex, and what it sends afterwards ------

  datatype Op =
    | Throttle(a: u16, isLong: bool, step: u8)
    | SetFunction(a: u16, isLong: bool, fn: nat, on: bool)
    | StopTrain(a: u16, isLong: bool)
    | StopAll
    | ClearStop
    | Ensure(a: u16, isLong: bool)
    | Deactivate(a: u16)

  datatype Section = Section(e: Eng, outs: seq<Out>)

  function SpeedOut(a: u16, isLong: bool, step: u8, urgent: bool): Out { Out(a, isLong, [CMD_SET_SPEED, step], urgent) }

  function DirectionOf(step: u8): u8 { if 0x80 <= step then 0x80 else 0 }

  function StopStep(step: u8): u8 { DirectionOf(step) + 1 }

  const BROADCAST_STOP := Out(0, false, [0x71], true)

  function Throttled(e: Eng, a: u16, isLong: bool, step: u8): Section {
    var r := Ensured(e.locos, a, isLong);
    if r.at == -1 then Section(e, [])
    else
      var long := r.locos[r.at].isLong;
      Section(e.(locos := r.locos[r.at := r.locos[r.at].(speed := step)], last := Last(true, a, long, step)),
              if e.held then [] else [SpeedOut(a, long, step, step < 2)])
  }

  function Switched(l: Loco, fn: nat, on: bool): Loco
    requires fn <= MAX_FN
  {
    l.(fns := l.fns[fn := on], groups := if l.fns[fn] != on then l.groups + {GroupOf(fn)} else l.groups)
  }

  function FunctionSet(e: Eng, a: u16, isLong: bool, fn: nat, on: bool): Eng {
    if MAX_FN < fn then e
    else
      var r := Ensured(e.locos, a, isLong);
      if r.at == -1 then e.(locos := r.locos) else e.(locos := r.locos[r.at := Switched(r.locos[r.at], fn, on)])
  }

  function TrainStopped(e: Eng, a: u16, isLong: bool): Section {
    var i := Find(e.locos, a, 0);
    if i == -1 then Section(e, [SpeedOut(a, Long(a, isLong), StopStep(0), true)])
    else
      var step := DirectionOf(e.locos[i].speed);
      Section(e.(locos := e.locos[i := e.locos[i].(speed := step)],
                 last := if e.last.valid && e.last.address == a then e.last.(step := step) else e.last),
              [SpeedOut(a, e.locos[i].isLong, StopStep(step), true)])
  }

  function Deactivated(e: Eng, a: u16): Eng {
    var i := Find(e.locos, a, 0);
    if i == -1 then e else e.(locos := e.locos[i := e.locos[i].(active := false)])
  }

  function Do(e: Eng, op: Op): Section {
    match op
    case Throttle(a, isLong, step) => Throttled(e, a, isLong, step)
    case SetFunction(a, isLong, fn, on) => Section(FunctionSet(e, a, isLong, fn, on), [])
    case StopTrain(a, isLong) => TrainStopped(e, a, isLong)
    case StopAll => Section(e.(held := true), [BROADCAST_STOP])
    case ClearStop => Section(e.(held := false), [])
    case Ensure(a, isLong) => Section(e.(locos := Ensured(e.locos, a, isLong).locos), [])
    case Deactivate(a) => Section(Deactivated(e, a), [])
  }

  lemma RowKeeps(e: Eng, r: Row, l: Loco)
    requires Inv(e) && |r.locos| == |e.locos| && 0 <= r.at < |e.locos|
    requires forall j :: 0 <= j < |e.locos| && j != r.at ==> r.locos[j] == e.locos[j]
    requires l.active ==> forall j :: 0 <= j < |e.locos| && j != r.at && e.locos[j].active ==> e.locos[j].address != l.address
    requires l.active ==> forall f :: 0 <= f <= MAX_FN && l.fns[f] ==> GroupOf(f) in l.groups
    ensures Inv(e.(locos := r.locos[r.at := l]))
  {
    hide GroupOf;
  }

  /** The row that a loco gets is its own, and in order. */
  lemma EnsuredRow(e: Eng, a: u16, isLong: bool)
    requires Inv(e)
    ensures var r := Ensured(e.locos, a, isLong); r.at != -1 ==>
      && (forall j :: 0 <= j < |e.locos| && j != r.at && e.locos[j].active ==> e.locos[j].address != a)
      && (forall f :: 0 <= f <= MAX_FN && r.locos[r.at].fns[f] ==> GroupOf(f) in r.locos[r.at].groups)
  {
    hide GroupOf;
  }

  lemma SwitchedKeeps(l: Loco, fn: nat, on: bool)
    requires fn <= MAX_FN && forall f :: 0 <= f <= MAX_FN && l.fns[f] ==> GroupOf(f) in l.groups
    ensures forall f :: 0 <= f <= MAX_FN && Switched(l, fn, on).fns[f] ==> GroupOf(f) in Switched(l, fn, on).groups
  {
    hide GroupOf;
  }

  lemma DoKeeps(e: Eng, op: Op)
    requires Inv(e)
    ensures Inv(Do(e, op).e)
  {
    match op
    case Throttle(a, isLong, step) => ThrottleKeeps(e, a, isLong, step);
    case SetFunction(a, isLong, fn, on) => FunctionKeeps(e, a, isLong, fn, on);
    case StopTrain(a, isLong) => StopKeeps(e, a, isLong);
    case StopAll =>
    case ClearStop =>
    case Ensure(a, isLong) => EnsureKeeps(e, a, isLong);
    case Deactivate(a) => DeactivateKeeps(e, a);
  }

  lemma InvOnLocos(e: Eng, f: Eng)
    requires Inv(e.(locos := f.locos)) && f.loop == e.loop
    ensures Inv(f)
  {
    hide GroupOf;
  }

  lemma ThrottleKeeps(e: Eng, a: u16, isLong: bool, step: u8)
    requires Inv(e)
    ensures Inv(Throttled(e, a, isLong, step).e)
  {
    hide Ensured, Inv, GroupOf;
    EnsuredRow(e, a, isLong);
    var r := Ensured(e.locos, a, isLong);
    if r.at != -1 {
      RowKeeps(e, r, r.locos[r.at].(speed := step));
      InvOnLocos(e, Throttled(e, a, isLong, step).e);
    }
  }

  lemma FunctionKeeps(e: Eng, a: u16, isLong: bool, fn: nat, on: bool)
    requires Inv(e)
    ensures Inv(FunctionSet(e, a, isLong, fn, on))
  {
    hide Inv, GroupOf, Switched, Find, FindFree;
    EnsuredRow(e, a, isLong);
    var r := Ensured(e.locos, a, isLong);
    if r.at != -1 && fn <= MAX_FN {
      SwitchedKeeps(r.locos[r.at], fn, on);
      SwitchedSame(r.locos[r.at], fn, on);
      RowKeeps(e, r, Switched(r.locos[r.at], fn, on));
    }
  }

  lemma SwitchedSame(l: Loco, fn: nat, on: bool)
    requires fn <= MAX_FN
    ensures var s := Switched(l, fn, on); s.active == l.active && s.address == l.address && s.speed == l.speed && s.isLong == l.isLong
  {
  }

  lemma StopKeeps(e: Eng, a: u16, isLong: bool)
    requires Inv(e)
    ensures Inv(TrainStopped(e, a, isLong).e)
  {
    hide GroupOf;
  }

  lemma EnsureKeeps(e: Eng, a: u16, isLong: bool)
    requires Inv(e)
    ensures Inv(e.(locos := Ensured(e.locos, a, isLong).locos))
  {
    hide Inv, GroupOf, Find, FindFree;
    EnsuredRow(e, a, isLong);
    var r := Ensured(e.locos, a, isLong);
    if r.at != -1 {
      RowKeeps(e, r, r.locos[r.at]);
      assert r.locos[r.at := r.locos[r.at]] == r.locos;
    }
  }

  lemma DeactivateKeeps(e: Eng, a: u16)
    requires Inv(e)
    ensures Inv(Deactivated(e, a))
  {
    hide GroupOf;
  }

  // ---- what each command does -------------------------------------------------------------------

  /** Row `i` is the loco at `a`, the only one, and every other row is as it was. */
  ghost predicate OnlyRow(was: seq<Loco>, now: seq<Loco>, i: nat, a: u16) {
    && i < |now| == |was| && now[i].active && now[i].address == a
    && (forall j :: 0 <= j < |now| && j != i ==> now[j] == was[j] && !(now[j].active && now[j].address == a))
  }

  /** The row was the loco's already and keeps everything but its speed and the length of its address, or it was free
      and is a loco with nothing switched on. */
  ghost predicate SameOrNew(was: Loco, now: Loco, a: u16, isLong: bool) {
    && now.isLong == (isLong || 127 < a)
    && if was.active then was.address == a && now == was.(isLong := now.isLong, speed := now.speed)
       else now.groups == {} && forall f :: 0 <= f <= MAX_FN ==> !now.fns[f]
  }

  /** The table has the loco, or room for it. */
  ghost predicate HasRow(locos: seq<Loco>, a: u16) {
    exists i :: 0 <= i < |locos| && (!locos[i].active || locos[i].address == a)
  }

  lemma RowFor(e: Eng, a: u16, isLong: bool)
    requires Inv(e)
    ensures var r := Ensured(e.locos, a, isLong);
      if HasRow(e.locos, a) then 0 <= r.at && OnlyRow(e.locos, r.locos, r.at, a) && SameOrNew(e.locos[r.at], r.locos[r.at], a, isLong)
        && r.locos[r.at].speed == (if e.locos[r.at].active then e.locos[r.at].speed else 0)
      else r == Row(e.locos, -1)
  {
    hide GroupOf;
  }

  /** A throttle command: if the table has the loco or room for it, its row and no other gets exactly the commanded step,
      and unless the hold is on exactly one packet with that step goes to the loco. With a full table nothing happens. */
  lemma ThrottleStores(e: Eng, a: u16, isLong: bool, step: u8)
    requires Inv(e)
    ensures var d := Do(e, Throttle(a, isLong, step));
      if HasRow(e.locos, a) then
        exists i: nat :: OnlyRow(e.locos, d.e.locos, i, a) && SameOrNew(e.locos[i], d.e.locos[i], a, isLong)
          && d.e.locos[i].speed == step && d.e == Eng(d.e.locos, e.loop, e.held, Last(true, a, d.e.locos[i].isLong, step))
          && d.outs == if e.held then [] else [Out(a, d.e.locos[i].isLong, [0x3F, step], step < 2)]
      else d.e == e && d.outs == []
  {
    RowFor(e, a, isLong);
    hide Ensured, Inv, HasRow;
    var r, d := Ensured(e.locos, a, isLong), Do(e, Throttle(a, isLong, step));
    if r.at != -1 {
      assert OnlyRow(e.locos, d.e.locos, r.at, a);
    }
  }

  /** A function command: if the table has the loco or room for it, that function of that loco and no other is on or off
      as commanded, and its group is marked if that is a change. A function no decoder has changes nothing, and nothing
      is sent. */
  lemma FunctionStores(e: Eng, a: u16, isLong: bool, fn: nat, on: bool)
    requires Inv(e)
    ensures var d := Do(e, Op.SetFunction(a, isLong, fn, on));
      && d.outs == []
      && if HasRow(e.locos, a) && fn <= MAX_FN then
           d.e == e.(locos := d.e.locos)
           && exists i: nat :: OnlyRow(e.locos, d.e.locos, i, a) && FunctionIn(e.locos[i], d.e.locos[i], isLong || 127 < a, fn, on)
         else d.e == e
  {
    RowFor(e, a, isLong);
    var d := Do(e, Op.SetFunction(a, isLong, fn, on));
    hide Ensured, Inv, HasRow, GroupOf;
    var r := Ensured(e.locos, a, isLong);
    if r.at != -1 && fn <= MAX_FN {
      assert OnlyRow(e.locos, d.e.locos, r.at, a);
      assert FunctionIn(e.locos[r.at], d.e.locos[r.at], isLong || 127 < a, fn, on);
    }
  }

  /** One function of a row set, and the others as they were, or off in a new row. */
  ghost predicate FunctionIn(was: Loco, now: Loco, isLong: bool, fn: nat, on: bool)
    requires fn <= MAX_FN
  {
    var before := was.active && was.fns[fn];
    && now.isLong == isLong && now.speed == (if was.active then was.speed else 0)
    && (now.fns[fn] <==> on)
    && (forall f :: 0 <= f <= MAX_FN && f != fn ==> (now.fns[f] <==> was.active && was.fns[f]))
    && now.groups == (if was.active then was.groups else {}) + (if on != before then {GroupOf(fn)} else {})
  }

  /** An emergency stop for one train: one packet with the emergency stop step goes to it, in the direction it was told
      to run; if the table has it its speed becomes zero in that direction, and no other row changes. */
  lemma StopStores(e: Eng, a: u16, isLong: bool)
    requires Inv(e)
    ensures var d := Do(e, StopTrain(a, isLong));
      && d.e.loop == e.loop && d.e.held == e.held
      && (d.e.last == e.last.(step := if e.last.valid && e.last.address == a && Known(e.locos, a) then d.e.last.step else e.last.step))
      && if Known(e.locos, a) then
           exists i: nat :: OnlyRow(e.locos, d.e.locos, i, a) && e.locos[i].active
             && var forward := 0x80 <= e.locos[i].speed;
                && d.e.locos[i] == e.locos[i].(speed := if forward then 0x80 else 0)
                && d.outs == [Out(a, e.locos[i].isLong, [0x3F, if forward then 0x81 else 1], true)]
                && (e.last.valid && e.last.address == a ==> d.e.last.step == d.e.locos[i].speed)
         else d.e == e && d.outs == [Out(a, isLong || 127 < a, [0x3F, 1], true)]
  {
    hide GroupOf;
    var d, i := Do(e, StopTrain(a, isLong)), Find(e.locos, a, 0);
    if i != -1 {
      assert OnlyRow(e.locos, d.e.locos, i, a);
    }
  }

  ghost predicate Known(locos: seq<Loco>, a: u16) {
    exists i :: 0 <= i < |locos| && locos[i].active && locos[i].address == a
  }

  /** The rest: the global stop broadcasts once and holds, until it is cleared; a loco can be entered and taken out of
      the table, and no other row changes. */
  lemma OthersStore(e: Eng, a: u16, isLong: bool)
    requires Inv(e)
    ensures Do(e, StopAll) == Section(e.(held := true), [Out(0, false, [0x71], true)])
    ensures Do(e, ClearStop) == Section(e.(held := false), [])
    ensures var d := Do(e, Ensure(a, isLong));
      d.outs == [] && if HasRow(e.locos, a) then
        d.e == e.(locos := d.e.locos)
        && exists i: nat :: OnlyRow(e.locos, d.e.locos, i, a) && SameOrNew(e.locos[i], d.e.locos[i], a, isLong)
      else d.e == e
    ensures var d := Do(e, Deactivate(a));
      d.outs == [] && d.e == e.(locos := d.e.locos) && !Known(d.e.locos, a) && |d.e.locos| == |e.locos|
      && forall j :: 0 <= j < |e.locos| ==>
           d.e.locos[j] == if e.locos[j].active && e.locos[j].address == a then e.locos[j].(active := false) else e.locos[j]
  {
    RowFor(e, a, isLong);
    hide Ensured, HasRow, GroupOf;
    var r := Ensured(e.locos, a, isLong);
    if r.at != -1 {
      assert OnlyRow(e.locos, r.locos, r.at, a);
    }
  }

  // ---- the reminder loop --------------------------------------------------------------------

  /** What the loop sends for one loco in its current state. */
  function Reminder(e: Eng, l: Loco): seq<Out>
    requires e.loop < STATES
  {
    if !l.active then []
    else if e.loop == 0 then [SpeedOut(l.address, l.isLong, if e.held then StopStep(l.speed) else l.speed, e.held)]
    else if e.loop in l.groups then [Out(l.address, l.isLong, Encode(e.loop, l.fns), false)]
    else []
  }

  /** A loco's reminder: none if it is not active, its speed in the first state, or the stop step with its direction while
      the hold is on, and in each other state its function group, if that was ever changed. */
  lemma ReminderMeans(e: Eng, l: Loco)
    requires e.loop < STATES
    ensures var r := Reminder(e, l);
      && |r| <= 1 && (r != [] ==> l.active && r[0].address == l.address && r[0].isLong == l.isLong)
      && (r != [] <==> l.active && (e.loop == 0 || e.loop in l.groups))
      && (r != [] && e.loop == 0 ==>
            r[0].data == [0x3F, if !e.held then l.speed else if 0x80 <= l.speed then 0x81 else 1] && r[0].urgent == e.held)
  {
    hide Encode;
  }

  /** A pass over the first `k` locos. */
  function PassTo(e: Eng, k: nat): seq<Out>
    requires e.loop < STATES && k <= |e.locos|
  {
    if k == 0 then [] else PassTo(e, k - 1) + Reminder(e, e.locos[k - 1])
  }

  function Pass(e: Eng): seq<Out>
    requires e.loop < STATES
  {
    PassTo(e, |e.locos|)
  }

  function NextLoop(loop: nat): nat { if STATES <= loop + 1 then 0 else loop + 1 }

  // ---- the two tasks --------------------------------------------------------------------------

  /** `pending` is what the command in progress has still to send; `scan` is how far the reminder task has come in
      a pass, during which it holds the mutex, or -1. */
  datatype Sys = Sys(e: Eng, pending: seq<Out>, scan: int, queued: seq<Out>)

  /** `ok` says whether the pool had a packet and the queue room for it. */
  datatype Action = Command(op: Op) | SendPending(ok: bool) | BeginPass | SendNext(ok: bool) | EndPass

  ghost predicate Enabled(s: Sys, a: Action) {
    match a
    case Command(_) => s.pending == [] && s.scan == -1
    case SendPending(_) => s.pending != []
    case BeginPass => s.scan == -1
    case SendNext(_) => 0 <= s.scan < |s.e.locos|
    case EndPass => s.scan == |s.e.locos|
  }

  /** What an action puts in the scheduler's queue. */
  ghost function Emits(s: Sys, a: Action): seq<Out>
    requires Enabled(s, a) && s.e.loop < STATES
  {
    match a
    case SendPending(ok) => if ok then [s.pending[0]] else []
    case SendNext(ok) => if ok then Reminder(s.e, s.e.locos[s.scan]) else []
    case _ => []
  }

  ghost function Next(s: Sys, a: Action): Sys
    requires Enabled(s, a) && s.e.loop < STATES
  {
    var t := s.(queued := s.queued + Emits(s, a));
    match a
    case Command(op) => t.(e := Do(s.e, op).e, pending := Do(s.e, op).outs)
    case SendPending(_) => t.(pending := s.pending[1..])
    case BeginPass => t.(scan := 0)
    case SendNext(_) => t.(scan := s.scan + 1)
    case EndPass => t.(scan := -1, e := s.e.(loop := NextLoop(s.e.loop)))
  }

  /** A running speed is only on its way to the queue while no hold is on, and then only emergency stops are. */
  ghost predicate SysInv(s: Sys) {
    && Inv(s.e) && |s.pending| <= 1
    && (s.pending != [] && Running(s.pending[0]) ==> !s.e.held)
    && (s.pending != [] && s.e.held && IsSpeed(s.pending[0]) ==> Stops(s.pending[0]))
  }

  lemma DoSends(e: Eng, op: Op)
    ensures var d := Do(e, op);
      && |d.outs| <= 1 && (d.outs != [] && Running(d.outs[0]) ==> !d.e.held)
      && (d.outs != [] && d.e.held && IsSpeed(d.outs[0]) ==> Stops(d.outs[0]))
  {
    hide Ensured, Find, Deactivated, FunctionSet;
  }

  lemma StepKeeps(s: Sys, a: Action)
    requires SysInv(s) && Enabled(s, a)
    ensures SysInv(Next(s, a))
  {
    hide Inv, Running, Reminder;
    match a
    case Command(op) =>
      DoKeeps(s.e, op);
      DoSends(s.e, op);
    case EndPass => NextStateKeeps(s.e);
    case _ =>
  }

  lemma NextStateKeeps(e: Eng)
    requires Inv(e)
    ensures Inv(e.(loop := NextLoop(e.loop)))
  {
    hide GroupOf;
  }

  function Start(n: nat): Sys {
    Sys(Eng(seq(n, _ => Loco(false, 0, false, 0, AllOff(), {})), 0, false, Last(false, 0, false, 0)), [], -1, [])
  }

  lemma StartInv(n: nat)
    ensures SysInv(Start(n))
  {
    hide GroupOf;
  }

  /** A table of `n` rows after the actions, from the start; an action that is not enabled does nothing. */
  ghost function After(n: nat, actions: seq<Action>): (t: Sys)
    ensures t.e.loop < STATES
  {
    if actions == [] then Start(n)
    else
      var t, a := After(n, actions[..|actions| - 1]), actions[|actions| - 1];
      if Enabled(t, a) then LoopInRange(t, a); Next(t, a) else t
  }

  lemma LoopInRange(s: Sys, a: Action)
    requires Enabled(s, a) && s.e.loop < STATES
    ensures Next(s, a).e.loop < STATES
  {
    hide Ensured, Find, Reminder, GroupOf;
  }

  lemma {:induction false} RunKeeps(n: nat, actions: seq<Action>)
    ensures SysInv(After(n, actions))
    decreases |actions|
  {
    hide SysInv, Next, Enabled;
    if actions == [] {
      StartInv(n);
    } else {
      var front, a := actions[..|actions| - 1], actions[|actions| - 1];
      RunKeeps(n, front);
      if Enabled(After(n, front), a) {
        StepKeeps(After(n, front), a);
      }
    }
  }

  lemma ReminderHeld(e: Eng, l: Loco)
    requires e.loop < STATES && e.held
    ensures forall o :: o in Reminder(e, l) && IsSpeed(o) ==> Stops(o)
  {
    hide GroupOf;
    if l.active && 0 < e.loop {
      NotSpeed(e.loop, l.fns);
    }
  }

  /** A function group's instruction is no speed instruction. */
  lemma NotSpeed(g: nat, f: Fns)
    requires 1 <= g <= GROUPS
    ensures |Encode(g, f)| == 2 ==> Encode(g, f)[0] != CMD_SET_SPEED
  {
    hide FromBits, Slice;
  }

  /** In any interleaving of the two tasks, every speed packet queued while the global emergency stop is held, by
      a command or by the reminder loop, carries the emergency stop step, and so no running speed. */
  lemma HeldStaysStopped(n: nat, actions: seq<Action>, a: Action)
    requires Enabled(After(n, actions), a) && After(n, actions).e.held
    ensures var s := After(n, actions);
      forall o :: o in Emits(s, a) ==> !Running(o) && (IsSpeed(o) ==> Stops(o))
  {
    hide Reminder, After, GroupOf;
    var s := After(n, actions);
    RunKeeps(n, actions);
    if a.SendNext? {
      ReminderHeld(s.e, s.e.locos[s.scan]);
    }
  }

  // ---- stopping one train ---------------------------------------------------------------------

  /** Nothing is stored or on its way that would start the loco at `a`. */
  ghost predicate Stopped(s: Sys, a: u16) {
    && (forall i :: 0 <= i < |s.e.locos| && s.e.locos[i].active && s.e.locos[i].address == a ==> s.e.locos[i].speed % 0x80 < 2)
    && (s.pending != [] && s.pending[0].address == a ==> !Running(s.pending[0]))
  }

  lemma StopSticks(s: Sys, a: u16, act: Action)
    requires SysInv(s) && Enabled(s, act) && Stopped(s, a)
    requires act.Command? && act.op.Throttle? ==> act.op.a != a
    ensures Stopped(Next(s, act), a)
    ensures forall o :: o in Emits(s, act) && o.address == a ==> !Running(o)
  {
    hide GroupOf, Do;
    match act
    case Command(op) => DoStopped(s, a, op);
    case SendNext(ok) =>
      var l := s.e.locos[s.scan];
      hide Encode;
      if l.active && l.address == a {
        ReminderStopped(s.e, l);
      } else {
        hide IsSpeed;
      }
    case _ =>
  }

  lemma ReminderStopped(e: Eng, l: Loco)
    requires e.loop < STATES && l.speed % 0x80 < 2
    ensures forall o :: o in Reminder(e, l) ==> !Running(o)
  {
    hide GroupOf;
    if l.active && 0 < e.loop {
      NotSpeed(e.loop, l.fns);
    }
  }

  lemma DoStopped(s: Sys, a: u16, op: Op)
    requires SysInv(s) && Enabled(s, Command(op)) && Stopped(s, a) && (op.Throttle? ==> op.a != a)
    ensures Stopped(Next(s, Command(op)), a)
  {
    hide Inv;
    match op
    case Throttle(b, isLong, step) => ThrottleOther(s, a, b, isLong, step);
    case SetFunction(b, isLong, fn, on) => FunctionStopped(s, a, b, isLong, fn, on);
    case StopTrain(b, isLong) => AnotherStop(s, a, b, isLong);
    case Ensure(b, isLong) => EnsureStopped(s, a, b, isLong);
    case Deactivate(b) => hide Find;
    case _ =>
  }

  lemma EnsuredSpeed(locos: seq<Loco>, b: u16, isLong: bool)
    ensures var r := Ensured(locos, b, isLong);
      r.at != -1 ==> r.locos[r.at].speed == 0 || (locos[r.at].active && locos[r.at].address == b && r.locos[r.at].speed == locos[r.at].speed)
  {
  }

  lemma ThrottleOther(s: Sys, a: u16, b: u16, isLong: bool, step: u8)
    requires SysInv(s) && Enabled(s, Command(Throttle(b, isLong, step))) && Stopped(s, a) && b != a
    ensures Stopped(Next(s, Command(Throttle(b, isLong, step))), a)
  {
    hide Inv, Ensured, IsSpeed;
  }

  lemma FunctionStopped(s: Sys, a: u16, b: u16, isLong: bool, fn: nat, on: bool)
    requires SysInv(s) && Enabled(s, Command(SetFunction(b, isLong, fn, on))) && Stopped(s, a)
    ensures Stopped(Next(s, Command(SetFunction(b, isLong, fn, on))), a)
  {
    hide Inv, Ensured, IsSpeed, GroupOf, Switched;
    var r := Ensured(s.e.locos, b, isLong);
    EnsuredSpeed(s.e.locos, b, isLong);
    if r.at != -1 && fn <= MAX_FN {
      SwitchedSame(r.locos[r.at], fn, on);
    }
  }

  lemma AnotherStop(s: Sys, a: u16, b: u16, isLong: bool)
    requires SysInv(s) && Enabled(s, Command(StopTrain(b, isLong))) && Stopped(s, a)
    ensures Stopped(Next(s, Command(StopTrain(b, isLong))), a)
  {
    hide Inv, Find;
  }

  lemma EnsureStopped(s: Sys, a: u16, b: u16, isLong: bool)
    requires SysInv(s) && Enabled(s, Command(Ensure(b, isLong))) && Stopped(s, a)
    ensures Stopped(Next(s, Command(Ensure(b, isLong))), a)
  {
    hide Inv, Ensured, IsSpeed;
    EnsuredSpeed(s.e.locos, b, isLong);
  }

  /** Stopping a train leaves its loco stopped. */
  lemma StopStops(s: Sys, a: u16, isLong: bool)
    requires SysInv(s) && Enabled(s, Command(StopTrain(a, isLong)))
    ensures Stopped(Next(s, Command(StopTrain(a, isLong))), a)
  {
    hide GroupOf;
    var t := Next(s, Command(StopTrain(a, isLong)));
    var i := Find(s.e.locos, a, 0);
    if i != -1 {
      assert forall j :: 0 <= j < |s.e.locos| && j != i && s.e.locos[j].active ==> s.e.locos[j].address != a by {
        assert forall j :: 0 <= j < |s.e.locos| && j != i && s.e.locos[j].active ==> s.e.locos[j].address != s.e.locos[i].address;
      }
    }
  }

  ghost predicate NoThrottle(actions: seq<Action>, from: nat, a: u16) {
    forall k :: from <= k < |actions| ==> actions[k].Command? && actions[k].op.Throttle? ==> actions[k].op.a != a
  }

  /** Once a train's emergency stop has taken effect, its loco is stopped until its next throttle command. */
  lemma {:induction false} StoppedSince(n: nat, actions: seq<Action>, from: nat, a: u16, isLong: bool)
    requires from < |actions| && actions[from] == Command(StopTrain(a, isLong)) && Enabled(After(n, actions[..from]), actions[from])
    requires NoThrottle(actions, from, a)
    ensures Stopped(After(n, actions), a)
    decreases |actions|
  {
    var front, last := actions[..|actions| - 1], actions[|actions| - 1];
    RunKeeps(n, front);
    if from == |front| {
      assert actions[..from] == front;
      hide Stopped, Enabled, Next, Emits;
      StopStops(After(n, front), a, isLong);
    } else {
      assert front[..from] == actions[..from];
      hide Stopped, Enabled, Next, Emits;
      StoppedSince(n, front, from, a, isLong);
      if Enabled(After(n, front), last) {
        StopSticks(After(n, front), a, last);
      }
    }
  }

  /** After an emergency stop of one train, no running speed for it is queued until its next throttle command, in
      any interleaving of the two tasks. */
  lemma TrainStaysStopped(n: nat, actions: seq<Action>, from: nat, a: u16, isLong: bool, act: Action)
    requires from < |actions| && actions[from] == Command(StopTrain(a, isLong)) && Enabled(After(n, actions[..from]), actions[from])
    requires NoThrottle(actions + [act], from, a) && Enabled(After(n, actions), act)
    ensures forall o :: o in Emits(After(n, actions), act) && o.address == a ==> !Running(o)
  {
    hide After, Stopped, Enabled, Emits;
    assert forall k :: from <= k < |actions| ==> actions[k] == (actions + [act])[k];
    assert (actions + [act])[|actions|] == act;
    RunKeeps(n, actions);
    StoppedSince(n, actions, from, a, isLong);
    StopSticks(After(n, actions), a, act);
  }

  // ---- release ----------------------------------------------------------------------------------

  /** Setting and clearing the hold changes nothing in the loco table. */
  lemma HoldKeepsSpeeds(e: Eng)
    ensures Do(e, StopAll).e == e.(held := true) && Do(e, ClearStop).e == e.(held := false)
    ensures Do(Do(e, StopAll).e, ClearStop).e == e.(held := false)
  {
  }

  ghost predicate Queued(s: Sys, from: nat, o: Out) { from <= |s.queued| && o in s.queued[from..] }

  /** A pass in progress that began when the queue had `from` entries: nothing in the engine has changed and every
      loco passed so far has its reminder in the queue. */
  ghost predicate Passing(s: Sys, e: Eng, from: nat) {
    && s.e == e && 0 <= s.scan <= |e.locos| && from <= |s.queued| && e.loop < STATES
    && forall i, o :: 0 <= i < s.scan && o in Reminder(e, e.locos[i]) ==> o in s.queued[from..]
  }

  lemma PassingGoesOn(s: Sys, e: Eng, from: nat, act: Action)
    requires SysInv(s) && Enabled(s, act) && Passing(s, e, from) && act != EndPass
    requires act.SendNext? ==> act.ok
    ensures Passing(Next(s, act), e, from)
  {
    hide Reminder, Do, Inv, Running;
    var t := Next(s, act);
    assert t.queued[from..] == s.queued[from..] + Emits(s, act);
  }

  /** The actions of a pass that is not over yet and loses nothing. */
  ghost predicate Lossless(actions: seq<Action>, from: nat) {
    forall k :: from <= k < |actions| ==> actions[k] != EndPass && (actions[k].SendNext? ==> actions[k].ok)
  }

  lemma {:induction false} PassInProgress(n: nat, actions: seq<Action>, from: nat)
    requires from < |actions| && actions[from] == BeginPass && Enabled(After(n, actions[..from]), BeginPass)
    requires Lossless(actions, from + 1)
    ensures var s := After(n, actions[..from]); Passing(After(n, actions), s.e, |s.queued|)
    decreases |actions|
  {
    hide Passing, Enabled, SysInv;
    RunKeeps(n, actions[..|actions| - 1]);
    var front, last := actions[..|actions| - 1], actions[|actions| - 1];
    var s := After(n, actions[..from]);
    if from == |front| {
      assert actions[..from] == front;
      PassBegins(s);
    } else {
      assert front[..from] == actions[..from];
      PassInProgress(n, front, from);
      hide Next;
      if Enabled(After(n, front), last) {
        PassingGoesOn(After(n, front), s.e, |s.queued|, last);
      }
    }
  }

  lemma PassBegins(s: Sys)
    requires SysInv(s) && Enabled(s, BeginPass)
    ensures Passing(Next(s, BeginPass), s.e, |s.queued|)
  {
    hide Reminder, GroupOf;
  }

  /** A speed pass with no hold on, however commands run beside it, queues every active loco's stored speed: the
      first pass after a release starts each train again at the speed it had, or was given meanwhile. */
  lemma ReleaseRestores(n: nat, actions: seq<Action>, from: nat, i: nat)
    requires from < |actions| && actions[from] == BeginPass && Enabled(After(n, actions[..from]), BeginPass)
    requires Lossless(actions, from + 1)
    requires var s := After(n, actions[..from]); s.e.loop == 0 && !s.e.held && i < |s.e.locos| && s.e.locos[i].active
    requires After(n, actions).scan == |After(n, actions).e.locos|
    ensures var s := After(n, actions[..from]);
      Queued(After(n, actions), |s.queued|, SpeedOut(s.e.locos[i].address, s.e.locos[i].isLong, s.e.locos[i].speed, false))
  {
    hide After, SysInv, Enabled;
    PassInProgress(n, actions, from);
    var s := After(n, actions[..from]);
    assert Reminder(s.e, s.e.locos[i])[0] == SpeedOut(s.e.locos[i].address, s.e.locos[i].isLong, s.e.locos[i].speed, false);
  }

  // ---- a full cycle -------------------------------------------------------------------------------

  /** A decoder: its speed step and its functions. */
  datatype Decoder = Decoder(speed: u8, fns: Fns)

  function Obey(d: Decoder, o: Out): Decoder {
    if IsSpeed(o) then d.(speed := o.data[1]) else d.(fns := Decode(d.fns, o.data))
  }

  /** The decoder at address `a` after hearing some packets. */
  function Hear(d: Decoder, outs: seq<Out>, a: u16): Decoder {
    if outs == [] then d
    else
      var o, before := outs[|outs| - 1], Hear(d, outs[..|outs| - 1], a);
      if o.address == a then Obey(before, o) else before
  }

  lemma {:induction false} HearBoth(d: Decoder, x: seq<Out>, y: seq<Out>, a: u16)
    ensures Hear(d, x + y, a) == Hear(Hear(d, x, a), y, a)
    decreases |y|
  {
    hide Obey;
    if y == [] {
      assert x + y == x;
    } else {
      assert (x + y)[..|x + y| - 1] == x + y[..|y| - 1];
      HearBoth(d, x, y[..|y| - 1], a);
    }
  }

  lemma HearOthers(d: Decoder, e: Eng, l: Loco, a: u16)
    requires e.loop < STATES && l.address != a
    ensures Hear(d, Reminder(e, l), a) == d
  {
    hide Obey, Encode;
  }

  /** A decoder hears one loco's reminders in a pass, its own. */
  lemma {:induction false} HearPass(d: Decoder, e: Eng, i: nat, k: nat)
    requires Inv(e) && i < |e.locos| && e.locos[i].active && k <= |e.locos|
    ensures Hear(d, PassTo(e, k), e.locos[i].address)
            == if i < k then Hear(d, Reminder(e, e.locos[i]), e.locos[i].address) else d
    decreases k
  {
    hide Obey, Reminder, Hear, GroupOf;
    var a := e.locos[i].address;
    if k == 0 {
      HearNothing(d, a);
    } else {
      HearPass(d, e, i, k - 1);
      HearBoth(d, PassTo(e, k - 1), Reminder(e, e.locos[k - 1]), a);
      var before := Hear(d, PassTo(e, k - 1), a);
      if k - 1 != i {
        if e.locos[k - 1].active {
          HearOthers(before, e, e.locos[k - 1], a);
        } else {
          Inactive(e, e.locos[k - 1]);
          HearNothing(before, a);
        }
      }
    }
  }

  lemma HearNothing(d: Decoder, a: u16)
    ensures Hear(d, [], a) == d
  {
  }

  lemma Inactive(e: Eng, l: Loco)
    requires e.loop < STATES && !l.active
    ensures Reminder(e, l) == []
  {
  }

  function LoopAfter(loop: nat, n: nat): nat { if n == 0 then loop else NextLoop(LoopAfter(loop, n - 1)) }

  lemma {:induction false} LoopGoesRound(loop: nat, n: nat)
    requires loop < STATES && n <= STATES
    ensures LoopAfter(loop, n) == if loop + n < STATES then loop + n else loop + n - STATES
    decreases n
  {
    if n != 0 {
      LoopGoesRound(loop, n - 1);
    }
  }

  /** What `n` passes in a row send. */
  function Cycle(e: Eng, n: nat): seq<Out>
    requires e.loop < STATES && n <= STATES
  {
    if n == 0 then [] else LoopGoesRound(e.loop, n - 1); Cycle(e, n - 1) + Pass(e.(loop := LoopAfter(e.loop, n - 1)))
  }

  /** State `st` has been among the `n` passes from `loop`. */
  predicate Visited(loop: nat, n: nat, st: nat) { n != 0 && (LoopAfter(loop, n - 1) == st || Visited(loop, n - 1, st)) }

  lemma {:induction false} VisitedAt(loop: nat, n: nat, k: nat)
    requires k < n
    ensures Visited(loop, n, LoopAfter(loop, k))
    decreases n
  {
    hide LoopAfter;
    if k != n - 1 {
      VisitedAt(loop, n - 1, k);
    }
  }

  /** Eleven passes visit every state. */
  lemma AllVisited(loop: nat, st: nat)
    requires loop < STATES && st < STATES
    ensures Visited(loop, STATES, st)
  {
    hide Visited, LoopAfter;
    var k := if loop <= st then st - loop else st + STATES - loop;
    LoopGoesRound(loop, k);
    VisitedAt(loop, STATES, k);
  }

  function WireSpeed(e: Eng, l: Loco): u8 { if e.held then StopStep(l.speed) else l.speed }

  /** After the visited states' passes a decoder that started all off agrees on what those states send. */
  ghost predicate InStep(e: Eng, l: Loco, d: Decoder, n: nat) {
    && (Visited(e.loop, n, 0) ==> d.speed == WireSpeed(e, l))
    && (forall f :: 0 <= f <= MAX_FN ==> d.fns[f] == (Visited(e.loop, n, GroupOf(f)) && l.fns[f]))
  }

  lemma OneReminder(e: Eng, l: Loco, d: Decoder)
    requires e.loop < STATES && l.active
    ensures var h := Hear(d, Reminder(e, l), l.address);
      && h.speed == (if e.loop == 0 then WireSpeed(e, l) else d.speed)
      && h.fns == if e.loop != 0 && e.loop in l.groups then Decode(d.fns, Encode(e.loop, l.fns)) else d.fns
  {
    hide Decode, Encode, StopStep;
    if 0 < e.loop {
      NotSpeed(e.loop, l.fns);
    }
    var outs := Reminder(e, l);
    if outs != [] {
      assert |outs| == 1 && outs[..0] == [];
      HearNothing(d, l.address);
    }
  }

  lemma PassInStep(e: Eng, i: nat, d: Decoder, n: nat)
    requires Inv(e) && i < |e.locos| && e.locos[i].active && n < STATES && InStep(e, e.locos[i], d, n)
    ensures LoopAfter(e.loop, n) < STATES
    ensures var p := Pass(e.(loop := LoopAfter(e.loop, n)));
      InStep(e, e.locos[i], Hear(d, p, e.locos[i].address), n + 1)
  {
    hide GroupOf, Decode, Encode, Reminder, Hear, LoopAfter;
    LoopGoesRound(e.loop, n);
    var at, l := e.(loop := LoopAfter(e.loop, n)), e.locos[i];
    HearPass(d, at, i, |e.locos|);
    OneReminder(at, l, d);
    var h := Hear(d, Pass(at), l.address);
    forall f | 0 <= f <= MAX_FN
      ensures h.fns[f] == (Visited(e.loop, n + 1, GroupOf(f)) && l.fns[f])
    {
      GroupRange(f);
      if at.loop != 0 && at.loop in l.groups {
        GroupAgrees(at.loop, l.fns, d.fns, f);
      }
    }
  }

  lemma GroupRange(f: nat)
    requires f <= MAX_FN
    ensures 1 <= GroupOf(f) <= GROUPS
  {
  }

  lemma {:induction false} CycleInStep(e: Eng, i: nat, d: Decoder, n: nat)
    requires Inv(e) && i < |e.locos| && e.locos[i].active && n <= STATES && d.fns == AllOff()
    ensures InStep(e, e.locos[i], Hear(d, Cycle(e, n), e.locos[i].address), n)
    decreases n
  {
    hide InStep, Pass, Hear, GroupOf, LoopAfter;
    var a := e.locos[i].address;
    if n == 0 {
      HearNothing(d, a);
      NothingYet(e, e.locos[i], d);
    } else {
      CycleInStep(e, i, d, n - 1);
      PassInStep(e, i, Hear(d, Cycle(e, n - 1), a), n - 1);
      HearBoth(d, Cycle(e, n - 1), Pass(e.(loop := LoopAfter(e.loop, n - 1))), a);
    }
  }

  lemma NothingYet(e: Eng, l: Loco, d: Decoder)
    requires d.fns == AllOff()
    ensures InStep(e, l, d, 0)
  {
  }

  /** Wherever the loop stands, one full cycle with nothing lost brings a decoder that starts with every function
      off to agree with the engine on its speed and on all of F0 to F68. */
  lemma CycleAgrees(e: Eng, i: nat, speed: u8)
    requires Inv(e) && i < |e.locos| && e.locos[i].active
    ensures var d := Hear(Decoder(speed, AllOff()), Cycle(e, STATES), e.locos[i].address);
      d.speed == WireSpeed(e, e.locos[i]) && d.fns == e.locos[i].fns
  {
    hide Hear, Cycle, GroupOf, AllOff, Visited;
    CycleInStep(e, i, Decoder(speed, AllOff()), STATES);
    var d := Hear(Decoder(speed, AllOff()), Cycle(e, STATES), e.locos[i].address);
    AllVisited(e.loop, 0);
    forall f | 0 <= f <= MAX_FN
      ensures d.fns[f] == e.locos[i].fns[f]
    {
      GroupRange(f);
      AllVisited(e.loop, GroupOf(f));
    }
  }

  // ---- the engine ---------------------------------------------------------------------------------

  /** The packets that get through, when the `t`-th attempt succeeds exactly if `accepts(t)`. */
  function Kept(outs: seq<Out>, accepts: nat -> bool, t: nat): seq<Out> {
    if outs == [] then []
    else
      var n := |outs| - 1;
      Kept(outs[..n], accepts, t) + if accepts(t + n) then [outs[n]] else []
  }

  lemma {:induction false} KeptBoth(x: seq<Out>, y: seq<Out>, accepts: nat -> bool, t: nat)
    ensures Kept(x + y, accepts, t) == Kept(x, accepts, t) + Kept(y, accepts, t + |x|)
    decreases |y|
  {
    if y == [] {
      assert x + y == x;
    } else {
      var n := |y| - 1;
      assert (x + y)[..|x| + n] == x + y[..n];
      KeptBoth(x, y[..n], accepts, t);
    }
  }

  class Engine {
    const locos: array<Loco>
    const accepts: nat -> bool
    var loop: nat
    var held: bool
    var last: Last
    var queued: seq<Out>
    var tries: nat

    ghost predicate Valid()
      reads this, locos
    {
      Inv(View())
    }

    ghost function View(): Eng
      reads this, locos
    {
      Eng(locos[..], loop, held, last)
    }

    constructor (accepts: nat -> bool)
      ensures Valid() && fresh(locos) && View() == Start(MAX_LOCOS).e && queued == []
    {
      hide GroupOf;
      this.accepts := accepts;
      locos := new Loco[MAX_LOCOS](_ => Loco(false, 0, false, 0, AllOff(), {}));
      loop, held, last, queued, tries := 0, false, Last(false, 0, false, 0), [], 0;
      new;
      assert locos[..] == Start(MAX_LOCOS).e.locos;
    }

    method FindLoco(a: u16) returns (i: int)
      ensures i == Find(locos[..], a, 0)
    {
      i := 0;
      while i < locos.Length
        invariant 0 <= i <= locos.Length && Find(locos[..], a, 0) == Find(locos[..], a, i)
      {
        if locos[i].active && locos[i].address == a {
          return;
        }
        i := i + 1;
      }
      i := -1;
    }

    method FindOrCreate(a: u16, isLong: bool) returns (at: int)
      modifies locos
      ensures Row(locos[..], at) == Ensured(old(locos[..]), a, isLong)
    {
      at := FindLoco(a);
      if at >= 0 {
        var long := if a > SHORT_ADDRESS_MAX then true else isLong;
        locos[at] := locos[at].(isLong := long);
        return;
      }
      at := 0;
      while at < locos.Length
        invariant 0 <= at <= locos.Length && locos[..] == old(locos[..])
        invariant FindFree(locos[..], 0) == FindFree(locos[..], at)
      {
        if !locos[at].active {
          locos[at] := Loco(true, a, isLong || a > SHORT_ADDRESS_MAX, 0, AllOff(), {});
          return;
        }
        at := at + 1;
      }
      at := -1;
    }

    method SendPacket(o: Out)
      modifies this`queued, this`tries
      ensures queued == old(queued) + Kept([o], accepts, old(tries)) && tries == old(tries) + 1
    {
      if accepts(tries) {
        queued := queued + [o];
      }
      tries := tries + 1;
      assert [o][..0] == [];
    }

    method SetThrottle(a: u16, isLong: bool, speed: u8, direction: bool)
      requires Valid()
      modifies this, locos
      ensures var d := Do(old(View()), Throttle(a, isLong, speed % 0x80 + if direction then 0x80 else 0));
        Valid() && View() == d.e && queued == old(queued) + Kept(d.outs, accepts, old(tries))
    {
      hide Ensured, Inv, GroupOf;
      var step: u8 := speed % 0x80 + if direction then 0x80 else 0;
      DoKeeps(View(), Throttle(a, isLong, step));
      var long := isLong || a > SHORT_ADDRESS_MAX;
      var at := FindOrCreate(a, isLong);
      assert at < 0 ==> locos[..] == old(locos[..]);
      ghost var rows := locos[..];
      if at >= 0 {
        locos[at] := locos[at].(speed := step);
        assert locos[..] == rows[at := rows[at].(speed := step)];
        long := locos[at].isLong;
        last := Last(true, a, long, step);
      }
      if at < 0 || held {
        NothingKept(accepts, tries);
        return;
      }
      SendPacket(SpeedOut(a, long, step, step < 2));
    }

    method SwitchFunction(a: u16, isLong: bool, fn: nat, on: bool)
      requires Valid()
      modifies locos
      ensures Valid() && View() == Do(old(View()), Op.SetFunction(a, isLong, fn, on)).e
    {
      hide Ensured, Inv, GroupOf;
      DoKeeps(View(), Op.SetFunction(a, isLong, fn, on));
      if fn > MAX_FN {
        return;
      }
      var at := FindOrCreate(a, isLong);
      ghost var rows := locos[..];
      if at >= 0 {
        var l := locos[at];
        locos[at] := l.(fns := l.fns[fn := on]);
        if locos[at].fns != l.fns {
          locos[at] := locos[at].(groups := l.groups + {GroupOf(fn)});
        }
        assert l.fns[fn] == on ==> l.fns[fn := on] == l.fns;
        assert l.fns[fn] != on ==> l.fns[fn := on][fn] != l.fns[fn];
        assert locos[at] == Switched(l, fn, on);
        assert locos[..] == rows[at := Switched(l, fn, on)];
      }
    }

    method EmergencyStop(a: u16, isLong: bool)
      requires Valid()
      modifies this, locos
      ensures var d := Do(old(View()), StopTrain(a, isLong));
        Valid() && View() == d.e && queued == old(queued) + Kept(d.outs, accepts, old(tries))
    {
      hide Inv, GroupOf;
      DoKeeps(View(), StopTrain(a, isLong));
      var long := isLong || a > SHORT_ADDRESS_MAX;
      var step: u8 := 0;
      var i := FindLoco(a);
      if i >= 0 {
        step := DirectionOf(locos[i].speed);
        locos[i] := locos[i].(speed := step);
        long := locos[i].isLong;
        if last.valid && last.address == a {
          last := last.(step := step);
        }
      }
      SendPacket(SpeedOut(a, long, StopStep(step), true));
    }

    method EmergencyStopAll()
      requires Valid()
      modifies this`held, this`queued, this`tries
      ensures var d := Do(old(View()), StopAll);
        Valid() && View() == d.e && queued == old(queued) + Kept(d.outs, accepts, old(tries))
    {
      hide GroupOf;
      held := true;
      SendPacket(BROADCAST_STOP);
    }

    method ClearEmergencyStopAll()
      requires Valid()
      modifies this`held
      ensures Valid() && View() == Do(old(View()), ClearStop).e
    {
      hide GroupOf;
      held := false;
    }

    method SendReminder(l: Loco)
      requires loop < STATES
      modifies this`queued, this`tries
      ensures queued == old(queued) + Kept(Reminder(View(), l), accepts, old(tries))
      ensures tries == old(tries) + |Reminder(View(), l)|
    {
      hide Encode, StopStep, Kept;
      if !l.active {
        NothingKept(accepts, tries);
        return;
      }
      if loop == 0 {
        SendPacket(SpeedOut(l.address, l.isLong, if held then StopStep(l.speed) else l.speed, held));
      } else if loop in l.groups {
        SendPacket(Out(l.address, l.isLong, Encode(loop, l.fns), false));
      } else {
        NothingKept(accepts, tries);
      }
    }

    /** One turn of the reminder loop. */
    method Update()
      requires Valid()
      modifies this`queued, this`tries, this`loop
      ensures Valid() && View() == old(View()).(loop := NextLoop(old(loop)))
      ensures queued == old(queued) + Kept(Pass(old(View())), accepts, old(tries))
    {
      hide GroupOf, Reminder, Kept;
      ghost var e := View();
      NothingKept(accepts, tries);
      var i: nat := 0;
      while i < locos.Length
        invariant i <= locos.Length && View() == e && loop == old(loop) < STATES
        invariant queued == old(queued) + Kept(PassTo(e, i), accepts, old(tries))
        invariant tries == old(tries) + |PassTo(e, i)|
      {
        KeptBoth(PassTo(e, i), Reminder(e, e.locos[i]), accepts, old(tries));
        SendReminder(locos[i]);
        i := i + 1;
      }
      NextStateKeeps(e);
      loop := loop + 1;
      if loop >= STATES {
        loop := 0;
      }
    }
  }

  /** A packet goes into the queue exactly if the pool and the queue have room for it when its turn comes; so if they
      always have, all of them do, in order. */
  lemma KeptOne(o: Out, accepts: nat -> bool, t: nat)
    ensures Kept([o], accepts, t) == if accepts(t) then [o] else []
  {
    assert [o][..0] == [];
  }

  lemma {:induction false} KeptAll(outs: seq<Out>, accepts: nat -> bool, t: nat)
    requires forall i :: t <= i < t + |outs| ==> accepts(i)
    ensures Kept(outs, accepts, t) == outs
    decreases |outs|
  {
    if outs != [] {
      var n := |outs| - 1;
      KeptAll(outs[..n], accepts, t);
      assert outs == outs[..n] + [outs[n]];
    }
  }

  lemma NothingKept(accepts: nat -> bool, t: nat)
    ensures Kept([], accepts, t) == []
  {
  }
}
