/** A train's CV memory space: bytes written to it become the DCC instructions that set those CVs. */
module CvSpace {
  import opened Bits
  import opened Memconfig

  const CV_COUNT: nat := 1024
  const OFFSET_INDEX: u32 := 0x7F00_0000
  const OFFSET_VALUE: u32 := 0x7F00_0004
  const OFFSET_VERIFY_VALUE: u32 := 0x7F00_0005
  const OFFSET_VERIFY_RESULT: u32 := 0x7F00_0006
  const SPACE_SIZE: u32 := 0x7F00_0007

  /** The instructions a write is sent as. */
  datatype Instruction =
    | WriteByte(cv: nat, value: u8)
    | LongAddress(cv17: u8, cv18: u8)
    | Consist(cv19: u8)
    | LongConsist(cv19: u8, cv20: u8)

  datatype Setting = Setting(cv: nat, value: u8)

  /** What an instruction sets, in CV order. */
  function Sets(i: Instruction): seq<Setting> {
    match i
    case WriteByte(cv, v) => [Setting(cv, v)]
    case LongAddress(a, b) => [Setting(17, a), Setting(18, b)]
    case Consist(a) => [Setting(19, a)]
    case LongConsist(a, b) => [Setting(19, a), Setting(20, b)]
  }

  function AllSets(s: seq<Instruction>): seq<Setting> {
    if s == [] then [] else AllSets(s[..|s| - 1]) + Sets(s[|s| - 1])
  }

  /** The train's part of the space: the CV its index register selects, and what it has sent. */
  datatype Cvs = Cvs(index: u16, sent: seq<Instruction>)

  /** The instruction for the first CV or two of `data`, and how many bytes it takes. */
  function FirstInstruction(cv: nat, data: seq<u8>): Instruction
    requires data != []
  {
    if cv == 17 && 2 <= |data| then LongAddress(data[0], data[1])
    else if cv == 19 && 2 <= |data| then LongConsist(data[0], data[1])
    else if cv == 19 then Consist(data[0])
    else WriteByte(cv, data[0])
  }

  function Send(c: Cvs, cv: nat, data: seq<u8>): Cvs
    requires data != []
  {
    c.(sent := c.sent + [FirstInstruction(cv, data)])
  }

  /** The index register seen as four big-endian bytes, `data` written over them from `off` on. */
  function Patched(index: u16, off: nat, data: seq<u8>): seq<u8>
    requires off + |data| <= 4
  {
    var bytes: seq<u8> := [0, 0, index / 0x100, index % 0x100];
    bytes[..off] + data + bytes[off + |data|..]
  }

  /** A register of 16 bits keeps the low two. */
  function Low16(bytes: seq<u8>): u16
    requires |bytes| == 4
  {
    var high: int := bytes[2];
    0x100 * high + bytes[3]
  }

  datatype Step = Step(cvs: Cvs, result: WriteResult)

  /** cv_space_write. */
  function Wrote(c: Cvs, addr: u32, data: seq<u8>): Step {
    if addr < CV_COUNT && data != [] then
      Step(Send(c, addr + 1, data), WriteResult(|Sets(FirstInstruction(addr + 1, data))|, 0))
    else if OFFSET_INDEX <= addr < OFFSET_VALUE then
      var n := Min(|data|, OFFSET_VALUE - addr);
      Step(c.(index := Low16(Patched(c.index, addr - OFFSET_INDEX, data[..n]))), WriteResult(n, 0))
    else if addr == OFFSET_VALUE && data != [] then
      if c.index == 0 || CV_COUNT < c.index then Step(c, WriteResult(0, ERR_INVALID_ARGUMENTS))
      else Step(Send(c, c.index, data[..1]), WriteResult(1, 0))
    else if addr == OFFSET_VERIFY_VALUE && data != [] then Step(c, WriteResult(1, 0))
    else if addr == OFFSET_VERIFY_RESULT then Step(c, WriteResult(0, ERR_WRITE_READ_ONLY))
    else Step(c, WriteResult(0, ERR_OUT_OF_BOUNDS))
  }

  function After(c: Cvs, calls: seq<WriteCall>): Cvs {
    if calls == [] then c
    else
      var last := calls[|calls| - 1];
      Wrote(After(c, calls[..|calls| - 1]), last.addr, last.data).cvs
  }

  function Answer(c: Cvs, calls: seq<WriteCall>): WriteResult {
    if calls == [] then WriteResult(0, 0)
    else
      var last := calls[|calls| - 1];
      Wrote(After(c, calls[..|calls| - 1]), last.addr, last.data).result
  }

  /** The space's write handler, starting from `c`. */
  function Handler(c: Cvs): WriteHandler { calls => Answer(c, calls) }

  /** The bytes as settings of consecutive CVs. */
  function Settings(cv: nat, data: seq<u8>): (r: seq<Setting>)
    ensures |r| == |data|
  {
    seq(|data|, k requires 0 <= k < |data| => Setting(cv + k, data[k]))
  }

  lemma AllSetsMore(s: seq<Instruction>, i: Instruction)
    ensures AllSets(s + [i]) == AllSets(s) + Sets(i)
  {
    assert (s + [i])[..|s|] == s;
  }

  lemma SettingsMore(cv: nat, data: seq<u8>, d: nat, n: nat)
    requires d + n <= |data|
    ensures Settings(cv, data[..d + n]) == Settings(cv, data[..d]) + Settings(cv + d, data[d..d + n])
  {
  }

  /** The first instruction sets the first bytes and nothing else. */
  lemma FirstSets(cv: nat, data: seq<u8>)
    requires data != []
    ensures var n := |Sets(FirstInstruction(cv, data))|;
      1 <= n <= 2 && n <= |data| && Sets(FirstInstruction(cv, data)) == Settings(cv, data[..n])
  {
  }

  /** How many of the bytes at `addr` name CVs. */
  function InSpace(addr: u32, data: seq<u8>): nat
    requires addr < CV_COUNT
  {
    Min(|data|, CV_COUNT - addr)
  }

  /** One more call of the loop: the next instruction, or the end of the CVs. */
  lemma NextInstruction(c: Cvs, calls: seq<WriteCall>, addr: u32, data: seq<u8>, d: nat)
    requires addr < CV_COUNT && calls != [] && d < |data| <= 0xFF && d <= InSpace(addr, data)
    requires calls[|calls| - 1] == WriteCall(addr + d, data[d..])
    ensures var before, r := After(c, calls[..|calls| - 1]), Answer(c, calls);
      if addr + d < CV_COUNT then
        && After(c, calls) == Send(before, addr + d + 1, data[d..])
        && r == WriteResult(|Sets(FirstInstruction(addr + d + 1, data[d..]))|, 0)
      else After(c, calls) == before && r == WriteResult(0, ERR_OUT_OF_BOUNDS)
  {
    hide FirstInstruction, Sets;
  }

  /** The last call of a write, and what it came to. */
  lemma LastWrite(c: Cvs, calls: seq<WriteCall>, addr: u32, data: seq<u8>, done: nat, error: u16) returns (d: nat)
    requires Writes(Handler(c), calls, addr, data, done, error) && calls != [] && addr < CV_COUNT && |data| <= 0xFF
    ensures d < |data| && Writes(Handler(c), calls[..|calls| - 1], addr, data, d, 0)
    ensures calls[|calls| - 1] == WriteCall(addr + d, data[d..])
    ensures done == d + Taken(Answer(c, calls), |data| - d) && error == CallError(Answer(c, calls))
  {
    hide Answer, Taken, CallError, Writes;
    d := LastCall(Handler(c), calls, addr, data, done, error);
  }

  /** How far a write has come after some calls, and how it stands. */
  ghost predicate Progress(c: Cvs, calls: seq<WriteCall>, addr: u32, data: seq<u8>, done: nat, error: u16)
    requires addr < CV_COUNT
  {
    && done <= InSpace(addr, data)
    && After(c, calls).index == c.index
    && AllSets(After(c, calls).sent) == AllSets(c.sent) + Settings(addr + 1, data[..done])
    && (error == 0 || (error == ERR_OUT_OF_BOUNDS && done == CV_COUNT - addr < |data|))
  }

  lemma ProgressStep(c: Cvs, calls: seq<WriteCall>, addr: u32, data: seq<u8>, d: nat)
    requires addr < CV_COUNT && |data| <= 0xFF && calls != [] && d < |data|
    requires Progress(c, calls[..|calls| - 1], addr, data, d, 0) && calls[|calls| - 1] == WriteCall(addr + d, data[d..])
    ensures var r := Answer(c, calls);
      Taken(r, |data| - d) == r.taken && CallError(r) == r.error && Progress(c, calls, addr, data, d + r.taken, r.error)
  {
    hide Answer, After, FirstInstruction, Sets, AllSets, Settings;
    NextInstruction(c, calls, addr, data, d);
    var before := After(c, calls[..|calls| - 1]);
    if addr + d < CV_COUNT {
      var cv := addr + d + 1;
      var i := FirstInstruction(cv, data[d..]);
      FirstSets(cv, data[d..]);
      AllSetsMore(before.sent, i);
      var n := |Sets(i)|;
      assert data[d..][..n] == data[d..d + n];
      SettingsMore(addr + 1, data, d, n);
      AtMostTheSpace(cv, data[d..]);
    }
  }

  lemma AtMostTheSpace(cv: nat, data: seq<u8>)
    requires data != []
    ensures |Sets(FirstInstruction(cv, data))| == 2 ==> cv == 17 || cv == 19
  {
  }

  lemma NoProgressYet(c: Cvs, addr: u32, data: seq<u8>)
    requires addr < CV_COUNT
    ensures Progress(c, [], addr, data, 0, 0)
  {
    assert data[..0] == [];
  }

  lemma NoCallsMade(c: Cvs, addr: u32, data: seq<u8>, done: nat, error: u16)
    requires Writes(Handler(c), [], addr, data, done, error)
    ensures done == 0 && error == 0
  {
  }

  lemma {:induction false} WriteProgress(c: Cvs, calls: seq<WriteCall>, addr: u32, data: seq<u8>, done: nat, error: u16)
    requires addr < CV_COUNT && |data| <= 0xFF && Writes(Handler(c), calls, addr, data, done, error)
    ensures Progress(c, calls, addr, data, done, error)
    decreases |calls|
  {
    hide Handler, AllSets, Settings, Writes, Progress, Answer, After, Taken, CallError;
    if calls == [] {
      NoCallsMade(c, addr, data, done, error);
      NoProgressYet(c, addr, data);
    } else {
      var d := LastWrite(c, calls, addr, data, done, error);
      WriteProgress(c, calls[..|calls| - 1], addr, data, d, 0);
      ProgressStep(c, calls, addr, data, d);
    }
  }

  /** The space has room for any write that begins at a CV, so the write loop offers all of it. */
  lemma AllInBounds(addr: u32, count: u8)
    requires addr < CV_COUNT
    ensures InBounds(addr, count, SPACE_SIZE) == count
  {
  }

  /** A write of CVs sets exactly the bytes written, at consecutive CVs, in order and each once, cut off at the
      last CV; it answers OK exactly if every byte was taken. */
  lemma CvWrite(c: Cvs, calls: seq<WriteCall>, addr: u32, data: seq<u8>, done: nat, error: u16)
    requires addr < CV_COUNT && |data| <= 0xFF
    requires Writes(Handler(c), calls, addr, data, done, error) && (error == 0 ==> done == |data|)
    ensures AllSets(After(c, calls).sent) == AllSets(c.sent) + Settings(addr + 1, data[..InSpace(addr, data)])
    ensures done == InSpace(addr, data) && (error == 0 <==> done == |data|)
    ensures error == 0 || error == ERR_OUT_OF_BOUNDS
    ensures InBounds(addr, |data|, SPACE_SIZE) == |data|
  {
    AllInBounds(addr, |data|);
    hide Writes, After, AllSets, Settings, InBounds;
    WriteProgress(c, calls, addr, data, done, error);
  }

  // ---- pairs ----------------------------------------------------------------------------------

  /** The instructions sent for a write, from where `c` stood. */
  ghost predicate Paired(sent: seq<Instruction>, first: nat, last: nat) {
    forall k :: 0 <= k < |sent| ==> KeepsPairs(sent[k], first, last)
  }

  /** CV17 and CV18, and CV19 and CV20, go out in one instruction whenever both are written. */
  predicate KeepsPairs(i: Instruction, first: nat, last: nat) {
    match i
    case WriteByte(cv, _) =>
      && cv != 19
      && (cv == 17 ==> last < 18) && (cv == 18 ==> 17 < first) && (cv == 20 ==> 19 < first)
    case Consist(_) => last < 20
    case _ => true
  }

  /** The loop never stops between the CVs of a pair. */
  predicate Between(cv: nat, first: nat) { (cv == 18 ==> 17 < first) && (cv == 20 ==> 19 < first) }

  lemma PairStep(first: nat, cv: nat, data: seq<u8>)
    requires data != [] && first <= cv && Between(cv, first)
    ensures KeepsPairs(FirstInstruction(cv, data), first, cv + |data| - 1)
    ensures Between(cv + |Sets(FirstInstruction(cv, data))|, first) || |Sets(FirstInstruction(cv, data))| == |data|
  {
  }

  lemma PairsStep(c: Cvs, calls: seq<WriteCall>, addr: u32, data: seq<u8>, d: nat)
    requires addr < CV_COUNT && |data| <= 0xFF && calls != [] && d < |data| && d <= InSpace(addr, data)
    requires calls[|calls| - 1] == WriteCall(addr + d, data[d..])
    requires Paired(After(c, calls[..|calls| - 1]).sent, addr + 1, addr + |data|) && Between(addr + 1 + d, addr + 1)
    ensures Paired(After(c, calls).sent, addr + 1, addr + |data|)
    ensures var done := d + Taken(Answer(c, calls), |data| - d);
      done < |data| ==> Between(addr + 1 + done, addr + 1)
  {
    hide Answer, After, KeepsPairs, FirstInstruction, Between, Paired, Sets, InSpace;
    NextInstruction(c, calls, addr, data, d);
    if addr + d < CV_COUNT {
      PairStep(addr + 1, addr + d + 1, data[d..]);
      PairedMore(After(c, calls[..|calls| - 1]).sent, FirstInstruction(addr + d + 1, data[d..]), addr + 1, addr + |data|);
    }
  }

  lemma {:induction false} PairsProgress(c: Cvs, calls: seq<WriteCall>, addr: u32, data: seq<u8>, done: nat, error: u16)
    requires addr < CV_COUNT && |data| <= 0xFF && Writes(Handler(c), calls, addr, data, done, error) && c.sent == []
    ensures Paired(After(c, calls).sent, addr + 1, addr + |data|)
    ensures done < |data| ==> Between(addr + 1 + done, addr + 1)
    decreases |calls|
  {
    hide Handler;
    if calls != [] {
      var d := LastWrite(c, calls, addr, data, done, error);
      hide Writes, Answer, After, Between, Paired, AllSets, Settings, CallError, Taken, InSpace;
      var front := calls[..|calls| - 1];
      PairsProgress(c, front, addr, data, d, 0);
      WriteProgress(c, front, addr, data, d, 0);
      PairsStep(c, calls, addr, data, d);
    } else {
      StartsBetween(addr + 1);
    }
  }

  lemma PairedMore(sent: seq<Instruction>, i: Instruction, first: nat, last: nat)
    requires Paired(sent, first, last) && KeepsPairs(i, first, last)
    ensures Paired(sent + [i], first, last)
  {
    hide KeepsPairs;
  }

  lemma StartsBetween(cv: nat)
    ensures Between(cv, cv)
  {
  }

  /** A long address or a consist address never goes out in halves when both halves are written. */
  lemma CvPairs(c: Cvs, calls: seq<WriteCall>, addr: u32, data: seq<u8>, done: nat, error: u16)
    requires addr < CV_COUNT && |data| <= 0xFF && c.sent == []
    requires Writes(Handler(c), calls, addr, data, done, error)
    ensures forall k :: 0 <= k < |After(c, calls).sent| ==> KeepsPairs(After(c, calls).sent[k], addr + 1, addr + |data|)
  {
    hide Writes, After, KeepsPairs;
    PairsProgress(c, calls, addr, data, done, error);
  }

  // ---- the index register ----------------------------------------------------------------------

  function Number(bytes: seq<u8>): nat
    requires |bytes| == 4
  {
    var b0: int, b1: int, b2: int := bytes[0], bytes[1], bytes[2];
    0x100_0000 * b0 + 0x1_0000 * b1 + 0x100 * b2 + bytes[3]
  }

  /** Writing the index register selects the CV exactly if the number fits its 16 bits, and then a byte written
      to the value register sets that CV, if there is such a CV. */
  lemma IndexThenValue(c: Cvs, cv: seq<u8>, value: u8)
    requires |cv| == 4
    ensures var latched := Wrote(c, OFFSET_INDEX, cv);
      && latched.result == WriteResult(4, 0)
      && (latched.cvs.index == Number(cv) <==> Number(cv) < 0x1_0000)
      && var n := latched.cvs.index; var put := Wrote(latched.cvs, OFFSET_VALUE, [value]);
         if 1 <= n <= CV_COUNT then
           put.result == WriteResult(1, 0) && AllSets(put.cvs.sent) == AllSets(c.sent) + [Setting(n, value)]
         else put.result == WriteResult(0, ERR_INVALID_ARGUMENTS) && put.cvs.sent == c.sent
  {
    hide AllSets;
    assert Patched(c.index, 0, cv[..4]) == cv by { assert cv[..4] == cv; }
    var latched := Wrote(c, OFFSET_INDEX, cv).cvs;
    assert latched.index == Low16(cv);
    var n := latched.index;
    var one: seq<u8> := [value];
    assert one[..1] == one;
    AllSetsMore(c.sent, FirstInstruction(n, one));
  }

  /** The index can also be written a byte at a time: each of its low two bytes replaces its half of the number, and
      the high two do nothing. */
  lemma IndexParts(c: Cvs, k: nat, b: u8)
    requires k < 4
    ensures var w := Wrote(c, OFFSET_INDEX + k, [b]); var n: int := c.index;
      && w.result == WriteResult(1, 0) && w.cvs.sent == c.sent
      && w.cvs.index == if k == 2 then 0x100 * b + n % 0x100 else if k == 3 then n - n % 0x100 + b else n
  {
    assert [b][..1] == [b];
    var p := Patched(c.index, k, [b]);
    assert p[k] == b;
  }

  /** Only the CVs and the value register send anything, and only the index register is remembered. */
  lemma NothingElse(c: Cvs, addr: u32, data: seq<u8>)
    ensures var w := Wrote(c, addr, data).cvs;
      && (CV_COUNT <= addr && addr != OFFSET_VALUE ==> w.sent == c.sent)
      && (addr < OFFSET_INDEX || OFFSET_VALUE <= addr ==> w.index == c.index)
  {
  }

  /** The number 0x10001 selects CV1, and a value written then sets it. */
  lemma IndexTooLarge(c: Cvs, value: u8)
    ensures Number([0, 1, 0, 1]) == 0x1_0001
    ensures var latched := Wrote(c, OFFSET_INDEX, [0, 1, 0, 1]).cvs;
      && latched.index == 1
      && AllSets(Wrote(latched, OFFSET_VALUE, [value]).cvs.sent) == AllSets(c.sent) + [Setting(1, value)]
  {
    hide AllSets;
    IndexThenValue(c, [0, 1, 0, 1], value);
    assert Patched(c.index, 0, [0, 1, 0, 1][..4]) == [0, 1, 0, 1];
  }

  // ---- the space --------------------------------------------------------------------------------

  class TrainCvs {
    var index: u16
    var sent: seq<Instruction>

    ghost function View(): Cvs
      reads this
    {
      Cvs(index, sent)
    }

    constructor ()
      ensures View() == Cvs(0, [])
    {
      index, sent := 0, [];
    }

    method WriteCvs(cv: nat, data: seq<u8>) returns (taken: u16)
      requires data != []
      modifies this`sent
      ensures View() == Send(old(View()), cv, data) && taken == |Sets(FirstInstruction(cv, data))|
    {
      if cv == 17 && |data| >= 2 {
        sent := sent + [LongAddress(data[0], data[1])];
        return 2;
      }
      if cv == 19 && |data| >= 2 {
        sent := sent + [LongConsist(data[0], data[1])];
        return 2;
      }
      if cv == 19 {
        sent := sent + [Consist(data[0])];
        return 1;
      }
      sent := sent + [WriteByte(cv, data[0])];
      return 1;
    }

    method PatchIndex(off: nat, data: seq<u8>)
      requires off + |data| <= 4
      modifies this`index
      ensures index == Low16(Patched(old(index), off, data))
    {
      var bytes := new u8[4];
      bytes[0], bytes[1], bytes[2], bytes[3] := 0, 0, index / 0x100, index % 0x100;
      ghost var start := bytes[..];
      var k := 0;
      while k < |data|
        invariant 0 <= k <= |data| && index == old(index)
        invariant forall j :: 0 <= j < 4 ==> bytes[j] == if off <= j < off + k then data[j - off] else start[j]
      {
        bytes[off + k] := data[k];
        k := k + 1;
      }
      assert bytes[..] == start[..off] + data + start[off + |data|..];
      index := Low16(bytes[..]);
    }

    method Write(addr: u32, data: seq<u8>) returns (taken: u16, error: u16)
      requires |data| <= 0xFFFF
      modifies this
      ensures View() == Wrote(old(View()), addr, data).cvs
      ensures WriteResult(taken, error) == Wrote(old(View()), addr, data).result
    {
      hide FirstInstruction, Sets, Patched, Low16;
      taken, error := 0, 0;
      if addr < CV_COUNT && |data| >= 1 {
        taken := WriteCvs(addr + 1, data);
      } else if OFFSET_INDEX <= addr < OFFSET_VALUE {
        var off := addr - OFFSET_INDEX;
        var count := if |data| > 4 - off then 4 - off else |data|;
        PatchIndex(off, data[..count]);
        taken := count;
      } else if addr == OFFSET_VALUE && |data| >= 1 {
        if index == 0 || index > CV_COUNT {
          error := ERR_INVALID_ARGUMENTS;
          return;
        }
        taken := WriteCvs(index, data[..1]);
        OneByte(index, data[..1]);
      } else if addr == OFFSET_VERIFY_VALUE && |data| >= 1 {
        taken := 1;
      } else if addr == OFFSET_VERIFY_RESULT {
        error := ERR_WRITE_READ_ONLY;
      } else {
        error := ERR_OUT_OF_BOUNDS;
      }
    }
  }

  lemma OneByte(cv: nat, data: seq<u8>)
    requires |data| == 1
    ensures |Sets(FirstInstruction(cv, data))| == 1
  {
  }
}
