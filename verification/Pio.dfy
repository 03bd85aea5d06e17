/** The PIO state machine that runs the wavegen program: an interpreter for the instructions it uses, the program
    itself, and what single instructions do to the waveform and to the words being read. */
module Pio {
  import opened Bits

  // ---- the machine --------------------------------------------------------

  datatype Reg = X | Y | Isr | Null

  datatype Op =
    | SetPins(level: bool)
    | SetReg(dst: Reg, value: u32)
    | Jmp(target: nat)
    | JmpDec(reg: Reg, target: nat)
    | Mov(dst: Reg, src: Reg)
    | MovNot(dst: Reg, src: Reg)
    | MovFromOsr(dst: Reg)
    | In(src: Reg, count: nat)
    | Out(dst: Reg, count: nat)
    | PullNoblock
    | PushNoblock
    | Nop
    | IrqNext
    | WaitIrq

  datatype Instr = Instr(op: Op, delay: nat)

  /** The registers, the pin and the words offered to the RX FIFO so far. */
  datatype Core = Core(pc: nat, x: u32, y: u32, isr: u32, pin: bool, reported: seq<u32>)

  /** A stretch of constant pin level. */
  datatype Run = Run(level: bool, cycles: nat)

  /** The state machine. The OSR is its last loaded word and how many bits have been shifted out. */
  datatype Sm = Sm(core: Core, delay: nat, osr: u32, shifted: nat, fifo: seq<u32>, wave: seq<Run>)

  /** What the outside does in one cycle: words put into the TX FIFO, and the cutout's end signal. */
  datatype Input = Input(arrive: seq<u32>, cutoutOver: bool)

  function Extend(wave: seq<Run>, level: bool, n: nat): seq<Run> {
    if wave != [] && wave[|wave| - 1].level == level
    then wave[|wave| - 1 := Run(level, wave[|wave| - 1].cycles + n)]
    else wave + [Run(level, n)]
  }

  function Program(pc: nat): Instr {
    match pc
    case 0 => Instr(SetReg(Y, 15), 0)
    case 1 => Instr(SetPins(true), 28)          // preamble:
    case 2 => Instr(SetPins(false), 27)
    case 3 => Instr(JmpDec(Y, 1), 0)
    case 4 => Instr(SetPins(true), 14)          // message start bit
    case 5 => Instr(MovNot(X, Null), 0)         // build the idle packet
    case 6 => Instr(In(X, 10), 0)
    case 7 => Instr(In(Null, 8), 0)
    case 8 => Instr(In(X, 8), 0)
    case 9 => Instr(Mov(X, Isr), 0)
    case 10 => Instr(PullNoblock, 0)
    case 11 => Instr(MovFromOsr(Isr), 0)
    case 12 => Instr(PushNoblock, 0)
    case 13 => Instr(Out(Y, 8), 0)
    case 14 => Instr(Jmp(25), 0)
    case 15 => Instr(Mov(Isr, Y), 0)            // byte_loop:
    case 16 => Instr(Jmp(19), 0)
    case 17 => Instr(Out(Y, 1), 0)              // bit_loop:
    case 18 => Instr(JmpDec(Y, 21), 3)
    case 19 => Instr(Nop, 28)                   // mid_zero:
    case 20 => Instr(SetPins(false), 28)
    case 21 => Instr(SetPins(false), 28)        // short_low:
    case 22 => Instr(SetPins(true), 22)         // new_bit:
    case 23 => Instr(JmpDec(X, 17), 0)
    case 24 => Instr(Mov(Y, Isr), 0)
    case 25 => Instr(SetReg(X, 8), 0)           // byte_reset:
    case 26 => Instr(JmpDec(Y, 15), 0)
    case 27 => Instr(Nop, 1)
    case 28 => Instr(SetPins(false), 28)
    case 29 => Instr(SetPins(true), 12)
    case 30 => Instr(IrqNext, 0)
    case _ => Instr(WaitIrq, 0)
  }

  function Read(c: Core, r: Reg): u32 {
    match r
    case X => c.x
    case Y => c.y
    case Isr => c.isr
    case Null => 0
  }

  function Write(c: Core, r: Reg, v: u32): Core {
    match r
    case X => c.(x := v)
    case Y => c.(y := v)
    case Isr => c.(isr := v)
    case Null => c
  }

  /** Shift `count` bits of `v` into the ISR from the right. */
  function ShiftIn(isr: u32, v: u32, count: nat): u32 {
    if count == 8 then (isr % 0x100_0000) * 0x100 + v % 0x100
    else if count == 10 then (isr % 0x40_0000) * 0x400 + v % 0x400
    else v
  }

  /** The wrap target is 0. */
  function NextPc(pc: nat): nat { if pc < 31 then pc + 1 else 0 }

  /** An instruction's effect on the registers and the pin; `osr` is what it reads from the OSR. */
  function Effect(c: Core, op: Op, osr: u32): Core {
    var n := c.(pc := NextPc(c.pc));
    match op
    case SetPins(level) => n.(pin := level)
    case SetReg(dst, v) => Write(n, dst, v)
    case Jmp(target) => c.(pc := target)
    case JmpDec(reg, target) =>
      var v := Read(c, reg);
      if v != 0 then Write(c.(pc := target), reg, v - 1) else Write(n, reg, 0xFFFF_FFFF)
    case Mov(dst, src) => Write(n, dst, Read(c, src))
    case MovNot(dst, src) => Write(n, dst, 0xFFFF_FFFF - Read(c, src))
    case MovFromOsr(dst) => Write(n, dst, osr)
    case In(src, count) => n.(isr := ShiftIn(c.isr, Read(c, src), count))
    case Out(dst, count) => Write(n, dst, osr)
    case PullNoblock => n
    case PushNoblock => n.(reported := c.reported + [c.isr], isr := 0)
    case Nop => n
    case IrqNext => n
    case WaitIrq => n
  }

  /** The top `count` bits of the OSR, zeros having been shifted in from the right. */
  function OsrTop(word: u32, shifted: nat, count: nat): u32 {
    Value(seq(count, i requires 0 <= i => shifted + i < 32 && BitOf(word, shifted + i))) % 0x1_0000_0000
  }

  function FromOsr(s: Sm): u32 {
    match Program(s.core.pc).op
    case MovFromOsr(_) => if s.shifted == 0 then s.osr else OsrTop(s.osr, s.shifted, 32)
    case Out(_, count) => OsrTop(s.osr, s.shifted, count)
    case _ => 0
  }

  /** OUT waits for an OSR with bits left in it; WAIT for the end of the cutout. */
  predicate Stalled(s: Sm, cutoutOver: bool) {
    match Program(s.core.pc).op
    case Out(_, _) => 32 <= s.shifted
    case WaitIrq => !cutoutOver
    case _ => false
  }

  /** The OSR after an instruction. With autopull on, PULL does nothing while the OSR is full; from an
      empty FIFO it takes X. */
  function Shifting(s: Sm): Sm
    requires s.shifted <= 32
  {
    match Program(s.core.pc).op
    case Out(_, count) => s.(shifted := if s.shifted + count < 32 then s.shifted + count else 32)
    case PullNoblock =>
      if s.shifted == 0 then s
      else if s.fifo != [] then s.(osr := s.fifo[0], fifo := s.fifo[1..], shifted := 0)
      else s.(osr := s.core.x, shifted := 0)
    case _ => s
  }

  /** Autopull, at threshold 32. */
  function Refill(s: Sm): Sm {
    if 32 <= s.shifted && s.fifo != [] then s.(osr := s.fifo[0], fifo := s.fifo[1..], shifted := 0) else s
  }

  function Execute(s: Sm, cutoutOver: bool): Sm
    requires s.shifted <= 32
  {
    if Stalled(s, cutoutOver) then s
    else
      var i := Program(s.core.pc);
      Shifting(s).(core := Effect(s.core, i.op, FromOsr(s)), delay := i.delay)
  }

  function Cycle(s: Sm, i: Input): (r: Sm)
    requires s.shifted <= 32
    ensures r.shifted <= 32
  {
    var s0 := s.(fifo := s.fifo + i.arrive);
    var s1 := Refill(if 0 < s.delay then s0.(delay := s.delay - 1) else Execute(s0, i.cutoutOver));
    s1.(wave := Extend(s1.wave, s1.core.pin, 1))
  }

  // ---- runs ---------------------------------------------------------------

  /** A run of the machine from reset under some environment. */
  datatype Track = Track(env: nat -> Input)

  const RESET_CORE := Core(0, 0, 0, 0, false, [])

  function State(k: Track, t: nat): (s: Sm)
    ensures s.shifted <= 32
  {
    if t == 0 then Sm(RESET_CORE, 0, 0, 32, [], []) else Cycle(State(k, t - 1), k.env(t - 1))
  }

  /** All words put into the FIFO before cycle `t`. */
  function Hist(k: Track, t: nat): seq<u32> {
    if t == 0 then [] else Hist(k, t - 1) + k.env(t - 1).arrive
  }

  /** The whole words not yet begun. */
  function Words(s: Sm): seq<u32> { if s.shifted == 0 then [s.osr] + s.fifo else s.fifo }

  /** At time `t` the machine has these registers and this waveform behind it, and `d` cycles to idle. */
  ghost predicate At(k: Track, t: nat, core: Core, wave: seq<Run>, d: nat) {
    var s := State(k, t);
    (s.core, s.delay, s.wave, s.shifted == 32 && s.fifo != []) == (core, d, wave, false)
  }

  /** The words the current packet is read from: `pre` and what came in after the first `o` words. */
  function Supply(k: Track, pre: seq<u32>, o: nat, t: nat): seq<u32> {
    pre + if o <= |Hist(k, t)| then Hist(k, t)[o..] else []
  }

  /** What is left to read: how far into a word, that word if it has been begun, and the whole words after it. */
  function Unread(s: Sm): (nat, u32, seq<u32>) {
    if s.shifted == 0 || s.shifted == 32 then (0, 0, Words(s)) else (s.shifted, s.osr, s.fifo)
  }

  /** What is left of the words `ws` after `c` bits. */
  function Rest(ws: seq<u32>, c: nat): (nat, u32, seq<u32>)
    requires c <= 32 * |ws|
  {
    if c % 32 == 0 then (0, 0, ws[c / 32..]) else (c % 32, ws[c / 32], ws[c / 32 + 1..])
  }

  /** `c` bits of the words `ws` have been shifted out. */
  predicate Position(s: Sm, ws: seq<u32>, c: nat) { c <= 32 * |ws| && Unread(s) == Rest(ws, c) }

  ghost predicate Reading(k: Track, t: nat, pre: seq<u32>, o: nat, c: nat) {
    o <= |Hist(k, t)| && Position(State(k, t), Supply(k, pre, o, t), c)
  }

  predicate IsPlain(op: Op) { !op.Out? && !op.PullNoblock? && !op.MovFromOsr? && !op.WaitIrq? }


  // ---- one instruction at a time -----------------------------------------

  lemma NextState(k: Track, t: nat)
    ensures State(k, t + 1) == Cycle(State(k, t), k.env(t)) && Hist(k, t + 1) == Hist(k, t) + k.env(t).arrive
  {
  }

  lemma ExtendTwice(w: seq<Run>, level: bool, m: nat, n: nat)
    ensures Extend(Extend(w, level, m), level, n) == Extend(w, level, m + n)
  {
  }

  lemma SupplyGrows(k: Track, t: nat, pre: seq<u32>, o: nat)
    requires o <= |Hist(k, t)|
    ensures o <= |Hist(k, t + 1)| && Supply(k, pre, o, t + 1) == Supply(k, pre, o, t) + k.env(t).arrive
  {
    NextState(k, t);
    hide State, Hist;
    assert Hist(k, t + 1)[o..] == Hist(k, t)[o..] + k.env(t).arrive;
  }

  /** Taking in words, with or without a refill, keeps the position. */
  lemma RefillKeeps(s: Sm, arrive: seq<u32>, ws: seq<u32>, c: nat)
    requires s.shifted <= 32 && Position(s, ws, c)
    ensures var r := Refill(s.(fifo := s.fifo + arrive));
      r.shifted <= 32 && (r.shifted == 32 ==> r.fifo == []) && Position(r, ws + arrive, c)
      && r.core == s.core && r.delay == s.delay && r.wave == s.wave
  {
    var f, q := s.fifo + arrive, c / 32;
    if c % 32 == 0 {
      assert (ws + arrive)[q..] == ws[q..] + arrive;
      if s.shifted == 0 {
        assert [s.osr] + f == [s.osr] + s.fifo + arrive;
      } else if f != [] {
        assert f == [f[0]] + f[1..];
      }
    } else {
      assert (ws + arrive)[q] == ws[q];
      assert (ws + arrive)[q + 1..] == ws[q + 1..] + arrive;
    }
  }

  /** One cycle, given what its instruction (or idling) made of the state. */
  lemma CycleEnds(k: Track, t: nat, s1: Sm, pre: seq<u32>, o: nat, c: nat)
    requires o <= |Hist(k, t)| && s1.shifted <= 32 && Position(s1, Supply(k, pre, o, t), c)
    requires Cycle(State(k, t), k.env(t)) ==
      var r := Refill(s1.(fifo := s1.fifo + k.env(t).arrive)); r.(wave := Extend(r.wave, r.core.pin, 1))
    ensures At(k, t + 1, s1.core, Extend(s1.wave, s1.core.pin, 1), s1.delay) && Reading(k, t + 1, pre, o, c)
  {
    NextState(k, t);
    SupplyGrows(k, t, pre, o);
    hide State, Hist, Cycle, Extend, Supply, Refill;
    RefillKeeps(s1, k.env(t).arrive, Supply(k, pre, o, t), c);
  }

  /** The same for a cycle that runs an instruction. */
  lemma ExecuteEnds(k: Track, t: nat, s1: Sm, wave: seq<Run>, pre: seq<u32>, o: nat, c: nat)
    requires At(k, t, State(k, t).core, wave, 0) && s1.wave == wave
    requires o <= |Hist(k, t)| && s1.shifted <= 32 && Position(s1, Supply(k, pre, o, t), c)
    requires Execute(State(k, t).(fifo := State(k, t).fifo + k.env(t).arrive), k.env(t).cutoutOver)
      == s1.(fifo := s1.fifo + k.env(t).arrive)
    ensures At(k, t + 1, s1.core, Extend(wave, s1.core.pin, 1), s1.delay) && Reading(k, t + 1, pre, o, c)
  {
    hide State, Hist, Execute, Extend, Supply, Refill, Position;
    CycleEnds(k, t, s1, pre, o, c);
  }

  lemma OneDelay(k: Track, t: nat, core: Core, wave: seq<Run>, d: nat, pre: seq<u32>, o: nat, c: nat)
    requires At(k, t, core, wave, d + 1) && Reading(k, t, pre, o, c)
    ensures At(k, t + 1, core, Extend(wave, core.pin, 1), d) && Reading(k, t + 1, pre, o, c)
  {
    hide State, Hist, Extend, Supply, Refill, Execute;

    CycleEnds(k, t, State(k, t).(delay := d), pre, o, c);
  }

  lemma {:induction false} Delays(k: Track, t: nat, core: Core, w: seq<Run>, m: nat, d: nat, pre: seq<u32>, o: nat, c: nat)
    requires At(k, t, core, Extend(w, core.pin, m), d) && Reading(k, t, pre, o, c)
    ensures At(k, t + d, core, Extend(w, core.pin, m + d), 0) && Reading(k, t + d, pre, o, c)
    decreases d
  {
    hide At, Reading, Extend;
    if d != 0 {
      OneDelay(k, t, core, Extend(w, core.pin, m), d - 1, pre, o, c);
      ExtendTwice(w, core.pin, m, 1);
      Delays(k, t + 1, core, w, m + 1, d - 1, pre, o, c);
      assert t + 1 + (d - 1) == t + d && m + 1 + (d - 1) == m + d;
    }
  }

  lemma PlainExecute(s: Sm, cutoutOver: bool)
    requires s.shifted <= 32 && IsPlain(Program(s.core.pc).op)
    ensures var i := Program(s.core.pc);
      Execute(s, cutoutOver) == s.(core := Effect(s.core, i.op, 0), delay := i.delay)
  {
    hide Effect, Program;
  }

  /** The first cycle of an instruction that neither stalls nor touches the OSR. */
  lemma PlainCycle(k: Track, t: nat, core: Core, wave: seq<Run>, pre: seq<u32>, o: nat, c: nat)
    requires At(k, t, core, wave, 0) && Reading(k, t, pre, o, c)
    requires IsPlain(Program(core.pc).op)
    ensures var i := Program(core.pc); var e := Effect(core, i.op, 0);
      At(k, t + 1, e, Extend(wave, e.pin, 1), i.delay) && Reading(k, t + 1, pre, o, c)
  {
    var s := State(k, t);
    var i := Program(core.pc);
    hide State, Hist, Program, Effect, Extend, Supply, Refill, Execute;

    PlainExecute(s.(fifo := s.fifo + k.env(t).arrive), k.env(t).cutoutOver);
    ExecuteEnds(k, t, s.(core := Effect(core, i.op, 0), delay := i.delay), wave, pre, o, c);
  }

  /** A whole instruction, its delay included. */
  lemma Plain(k: Track, t: nat, core: Core, wave: seq<Run>, pre: seq<u32>, o: nat, c: nat)
    requires At(k, t, core, wave, 0) && Reading(k, t, pre, o, c)
    requires IsPlain(Program(core.pc).op)
    ensures var i := Program(core.pc); var e := Effect(core, i.op, 0);
      At(k, t + 1 + i.delay, e, Extend(wave, e.pin, 1 + i.delay), 0) && Reading(k, t + 1 + i.delay, pre, o, c)
  {
    hide At, Reading, Extend, Program, Effect;
    var i := Program(core.pc);
    PlainCycle(k, t, core, wave, pre, o, c);
    Delays(k, t + 1, Effect(core, i.op, 0), wave, 1, i.delay, pre, o, c);
  }

  /** An OUT has bits to take when it runs. */
  ghost predicate KeptFed(k: Track, t: nat) {
    var s := State(k, t);
    Program(s.core.pc).op.Out? && s.delay == 0 ==> s.shifted < 32
  }

  lemma FedBits(k: Track, t: nat)
    requires KeptFed(k, t) && State(k, t).delay == 0 && State(k, t).core.pc == 17
    ensures State(k, t).shifted < 32
  {
    hide State;
  }

  /** Bit `c` of a list of words. */
  function StreamBit(ws: seq<u32>, c: nat): bool
    requires c < 32 * |ws|
  {
    BitOf(ws[c / 32], c % 32)
  }

  lemma TopBit(word: u32, shifted: nat)
    requires shifted < 32
    ensures OsrTop(word, shifted, 1) == Bit(BitOf(word, shifted))
  {
    var b := BitOf(word, shifted);
    assert seq(1, i requires 0 <= i => shifted + i < 32 && BitOf(word, shifted + i)) == [b];
    assert [b][..0] == [];
    assert Value([b]) == Bit(b);
  }

  /** `out y, 1` takes the next bit of the supply. */
  lemma OutBit(k: Track, t: nat, core: Core, wave: seq<Run>, pre: seq<u32>, o: nat, c: nat)
    requires At(k, t, core, wave, 0) && Reading(k, t, pre, o, c)
    requires core.pc == 17 && KeptFed(k, t)
    ensures c < 32 * |Supply(k, pre, o, t)|
    ensures var e := core.(pc := 18, y := Bit(StreamBit(Supply(k, pre, o, t), c)));
      At(k, t + 1, e, Extend(wave, core.pin, 1), 0) && Reading(k, t + 1, pre, o, c + 1)
  {
    hide State, Hist, Program, Extend, Supply, Refill, Execute, BitOf, StreamBit, Position, Cycle, KeptFed;
    var s := State(k, t);
    FedBits(k, t);
    var b := BitOf(s.osr, s.shifted);
    var e := core.(pc := 18, y := Bit(b));
    NextBit(s, e, Supply(k, pre, o, t), c);
    OutBitExecute(s.(fifo := s.fifo + k.env(t).arrive), k.env(t).cutoutOver);
    ExecuteEnds(k, t, s.(shifted := s.shifted + 1, core := e), wave, pre, o, c + 1);
  }

  lemma OutBitExecute(s: Sm, cutoutOver: bool)
    requires s.shifted < 32 && s.core.pc == 17 && s.delay == 0
    ensures Execute(s, cutoutOver) == s.(shifted := s.shifted + 1, core := s.core.(pc := 18, y := Bit(BitOf(s.osr, s.shifted))))
  {
    hide OsrTop, BitOf;
    TopBit(s.osr, s.shifted);
  }

  /** With bits left in the OSR, the next one is bit `c` of the words; shifting it out moves on by one. */
  lemma NextBit(s: Sm, e: Core, ws: seq<u32>, c: nat)
    requires s.shifted < 32 && Position(s, ws, c)
    ensures c < 32 * |ws| && BitOf(s.osr, s.shifted) == StreamBit(ws, c)
    ensures Position(s.(shifted := s.shifted + 1, core := e), ws, c + 1)
  {
    hide BitOf;
    var q, r := c / 32, c % 32;
    if r == 0 {
      assert ws[q..] == [s.osr] + s.fifo;
      assert ws[q] == ws[q..][0];
      assert ws[q + 1..] == ws[q..][1..];
      assert (c + 1) / 32 == q && (c + 1) % 32 == 1;
    } else if r == 31 {
      assert (c + 1) / 32 == q + 1 && (c + 1) % 32 == 0;
    } else {
      assert (c + 1) / 32 == q && (c + 1) % 32 == r + 1;
    }
  }

  lemma TopByte(word: u32, shifted: nat)
    requires shifted == 0
    ensures OsrTop(word, shifted, 8) == WordBytes(word)[0]
  {
    hide WordBytes, Value;
    var b := WordBytes(word)[0];
    var top := seq(8, i requires 0 <= i => shifted + i < 32 && BitOf(word, shifted + i));
    forall i | 0 <= i < 8
      ensures top[i] == ByteBits(b)[i]
    {
      assert shifted + i == i && i / 8 == 0 && i % 8 == i;
      assert BitOf(word, i) == ByteBits(b)[i];
    }
    assert top == ByteBits(b);
    ByteValue(b);
  }

  /** Fresh at a word, the OSR holds it whole. */
  lemma FreshWord(k: Track, t: nat, core: Core, wave: seq<Run>, pre: seq<u32>, o: nat)
    requires At(k, t, core, wave, 0) && Reading(k, t, pre, o, 0) && Supply(k, pre, o, t) != []
    ensures var s, ws := State(k, t), Supply(k, pre, o, t);
      s.shifted == 0 && s.osr == ws[0] && s.fifo == ws[1..]
  {
    hide State, Hist, Supply;
  }

  /** `mov isr, osr` at the start of a packet. */
  lemma MovOsr(k: Track, t: nat, core: Core, wave: seq<Run>, pre: seq<u32>, o: nat)
    requires At(k, t, core, wave, 0) && Reading(k, t, pre, o, 0) && Supply(k, pre, o, t) != []
    requires core.pc == 11
    ensures At(k, t + 1, core.(pc := 12, isr := Supply(k, pre, o, t)[0]), Extend(wave, core.pin, 1), 0)
    ensures Reading(k, t + 1, pre, o, 0)
  {
    hide State, Hist, Extend, Supply, Refill, Execute, Cycle, Position;
    var s := State(k, t);
    FreshWord(k, t, core, wave, pre, o);
    var e := core.(pc := 12, isr := s.osr);
    MovOsrExecute(s.(fifo := s.fifo + k.env(t).arrive), k.env(t).cutoutOver);
    SamePosition(s, e, Supply(k, pre, o, t), 0);
    ExecuteEnds(k, t, s.(core := e), wave, pre, o, 0);
  }

  lemma MovOsrExecute(s: Sm, cutoutOver: bool)
    requires s.shifted == 0 && s.core.pc == 11 && s.delay == 0
    ensures Execute(s, cutoutOver) == s.(core := s.core.(pc := 12, isr := s.osr))
  {
  }

  lemma SamePosition(s: Sm, e: Core, ws: seq<u32>, c: nat)
    requires Position(s, ws, c)
    ensures Position(s.(core := e), ws, c)
  {
  }

  /** `out y, 8` takes the packet's byte count. */
  lemma OutCount(k: Track, t: nat, core: Core, wave: seq<Run>, pre: seq<u32>, o: nat)
    requires At(k, t, core, wave, 0) && Reading(k, t, pre, o, 0) && Supply(k, pre, o, t) != []
    requires core.pc == 13
    ensures At(k, t + 1, core.(pc := 14, y := WordBytes(Supply(k, pre, o, t)[0])[0]), Extend(wave, core.pin, 1), 0)
    ensures Reading(k, t + 1, pre, o, 8)
  {
    hide State, Hist, Extend, Supply, Refill, Execute, Cycle, WordBytes;
    var s := State(k, t);
    FreshWord(k, t, core, wave, pre, o);
    var e := core.(pc := 14, y := WordBytes(s.osr)[0]);
    OutCountExecute(s.(fifo := s.fifo + k.env(t).arrive), k.env(t).cutoutOver);
    var s1 := s.(shifted := 8, core := e);
    assert Position(s1, Supply(k, pre, o, t), 8);
    hide Position;
    ExecuteEnds(k, t, s1, wave, pre, o, 8);
  }

  lemma OutCountExecute(s: Sm, cutoutOver: bool)
    requires s.shifted == 0 && s.core.pc == 13 && s.delay == 0
    ensures Execute(s, cutoutOver) == s.(shifted := 8, core := s.core.(pc := 14, y := WordBytes(s.osr)[0]))
  {
    hide OsrTop, WordBytes;
    TopByte(s.osr, s.shifted);
  }

  /** Words ready for the next packet when the machine pulls at time `t`, with `c` bits of the last one read. */
  function Ready(k: Track, t: nat, pre: seq<u32>, o: nat, c: nat): seq<u32> {
    var ws, q := Supply(k, pre, o, t), (c + 31) / 32;
    (if q <= |ws| then ws[q..] else []) + k.env(t).arrive
  }

  lemma UnreadWords(s: Sm, ws: seq<u32>, c: nat)
    requires Position(s, ws, c)
    ensures (c + 31) / 32 <= |ws|
    ensures s.shifted < 32 && s.shifted != 0 ==> s.fifo == ws[(c + 31) / 32..]
    ensures s.shifted == 0 || s.shifted == 32 ==> Words(s) == ws[(c + 31) / 32..]
  {
    var q, r := c / 32, c % 32;
    if r == 0 {
      assert (c + 31) / 32 == q;
    } else {
      assert (c + 31) / 32 == q + 1;
    }
  }

  /** PULL drops what is left of a partly read word and starts on the next one, or on X with none there. */
  lemma PullExecute(s: Sm, cutoutOver: bool, unread: seq<u32>)
    requires s.shifted <= 32 && s.core.pc == 10 && s.delay == 0
    requires unread == if s.shifted == 0 then [s.osr] + s.fifo else s.fifo
    ensures var r := Execute(s, cutoutOver);
      r == s.(core := s.core.(pc := 11), osr := r.osr, fifo := r.fifo, shifted := 0)
      && [r.osr] + r.fifo == if unread == [] then [s.core.x] else unread
  {
  }

  /** `pull noblock`: on to the next packet's words, or to the idle word in X. */
  lemma Pull(k: Track, t: nat, core: Core, wave: seq<Run>, pre: seq<u32>, o: nat, c: nat)
      returns (pre2: seq<u32>, o2: nat)
    requires At(k, t, core, wave, 0) && Reading(k, t, pre, o, c)
    requires core.pc == 10 && |pre| <= (c + 31) / 32
    ensures At(k, t + 1, core.(pc := 11), Extend(wave, core.pin, 1), 0) && Reading(k, t + 1, pre2, o2, 0)
    ensures Supply(k, pre2, o2, t + 1) == if Ready(k, t, pre, o, c) == [] then [core.x] else Ready(k, t, pre, o, c)
    ensures if Ready(k, t, pre, o, c) == [] then pre2 == [core.x] && o2 == |Hist(k, t + 1)|
      else pre2 == [] && o2 == o + (c + 31) / 32 - |pre|
  {
    hide State, Hist, Supply, Position, Extend, Execute, Program, Words;
    var s := State(k, t);
    var ws, q, a := Supply(k, pre, o, t), (c + 31) / 32, k.env(t).arrive;
    UnreadWords(s, ws, c);
    var s0 := s.(fifo := s.fifo + a);
    var unread := ws[q..] + a;
    UnreadInFifo(s, ws[q..], a);
    PullExecute(s0, k.env(t).cutoutOver, unread);
    NextSupply(k, t, pre, o, c, core.x);
    if unread == [] {
      pre2, o2 := [core.x], |Hist(k, t + 1)|;
    } else {
      pre2, o2 := [], o + q - |pre|;
    }
    AfterPull(k, t, core, wave, Execute(s0, k.env(t).cutoutOver), pre2, o2);
  }

  lemma UnreadInFifo(s: Sm, unread: seq<u32>, a: seq<u32>)
    requires s.shifted == 0 ==> Words(s) == unread
    requires s.shifted != 0 ==> s.fifo == unread || (s.shifted == 32 && Words(s) == unread)
    ensures unread + a == if s.shifted == 0 then [s.osr] + (s.fifo + a) else s.fifo + a
  {
  }

  /** The unread words as the supply of the next packet. */
  lemma NextSupply(k: Track, t: nat, pre: seq<u32>, o: nat, c: nat, x: u32)
    requires var q := (c + 31) / 32; o <= |Hist(k, t)| && |pre| <= q <= |Supply(k, pre, o, t)|
    ensures var o2, h := o + (c + 31) / 32 - |pre|, |Hist(k, t + 1)|;
      o2 <= h && Supply(k, [], o2, t + 1) == Ready(k, t, pre, o, c) && Supply(k, [x], h, t + 1) == [x]
  {
    NextState(k, t);
    hide State, Hist;
    var o2 := o + (c + 31) / 32 - |pre|;
    assert Supply(k, pre, o, t)[(c + 31) / 32..] == Hist(k, t)[o2..];
    assert Hist(k, t + 1)[o2..] == Hist(k, t)[o2..] + k.env(t).arrive;
  }

  lemma AfterPull(k: Track, t: nat, core: Core, wave: seq<Run>, r: Sm, pre: seq<u32>, o: nat)
    requires At(k, t, core, wave, 0) && r.shifted == 0 && r.delay == 0 && r.wave == wave
    requires Execute(State(k, t).(fifo := State(k, t).fifo + k.env(t).arrive), k.env(t).cutoutOver) == r
    requires o <= |Hist(k, t + 1)| && [r.osr] + r.fifo == Supply(k, pre, o, t + 1)
    ensures At(k, t + 1, r.core, Extend(wave, r.core.pin, 1), 0) && Reading(k, t + 1, pre, o, 0)
  {
    NextState(k, t);
    hide State, Hist, Supply, Execute, Extend, Program;
    var s2 := State(k, t + 1);
    assert s2 == r.(wave := Extend(wave, r.core.pin, 1));
    assert Supply(k, pre, o, t + 1)[0..] == Supply(k, pre, o, t + 1);
  }
}
