/** Memory configuration: request decoding, replies, the write loop and the one-slot deferred requests. */
module Memconfig {
  import opened Bits
  import opened Wrappers
  import D = Datagram

  const MEMCONFIG_CMD: u8 := 0x20
  const WRITE_REPLY: u8 := 0x10
  const READ_REPLY: u8 := 0x50
  const REPLY_FAILED: u8 := 0x08

  const ERR_PERMANENT: u16 := 0x1000
  const ERR_TEMPORARY: u16 := 0x2000
  const ERR_INVALID_ARGUMENTS: u16 := 0x1080
  const ERR_SPACE_UNKNOWN: u16 := 0x1081
  const ERR_OUT_OF_BOUNDS: u16 := 0x1082
  const ERR_WRITE_READ_ONLY: u16 := 0x1083
  const MEMCFG_DEFER: u16 := 0xFFFF

  /** An entry of a space table; the flags say which handlers it has. */
  datatype Space = Space(id: u8, size: u32, readOnly: bool, read: bool, write: bool, defer: bool)

  function FindIn(spaces: seq<Space>, id: u8): Option<Space> {
    if spaces == [] then None
    else if spaces[0].id == id then Some(spaces[0])
    else FindIn(spaces[1..], id)
  }

  /** A node's own spaces win over the global ones. */
  function FindSpace(nodeSpaces: seq<Space>, globals: seq<Space>, id: u8): Option<Space> {
    var own := FindIn(nodeSpaces, id);
    if own.Some? then own else FindIn(globals, id)
  }

  /** The space found is the first with that ID in the node's own table, or else in the global one; none is found only if
      neither has it. */
  lemma SpaceFound(nodeSpaces: seq<Space>, globals: seq<Space>, id: u8)
    ensures var r := FindSpace(nodeSpaces, globals, id);
      if exists i :: 0 <= i < |nodeSpaces| && nodeSpaces[i].id == id then FirstWith(nodeSpaces, id, r)
      else if exists i :: 0 <= i < |globals| && globals[i].id == id then FirstWith(globals, id, r)
      else r == None
  {
    FoundFirst(nodeSpaces, id);
    FoundFirst(globals, id);
  }

  ghost predicate FirstWith(spaces: seq<Space>, id: u8, r: Option<Space>) {
    exists i :: 0 <= i < |spaces| && spaces[i].id == id && r == Some(spaces[i]) && forall j :: 0 <= j < i ==> spaces[j].id != id
  }

  lemma {:induction false} FoundFirst(spaces: seq<Space>, id: u8)
    ensures if exists i :: 0 <= i < |spaces| && spaces[i].id == id then FirstWith(spaces, id, FindIn(spaces, id))
            else FindIn(spaces, id) == None
  {
    if spaces != [] && spaces[0].id != id {
      FoundFirst(spaces[1..], id);
      if exists i :: 0 <= i < |spaces| && spaces[i].id == id {
        var i :| 0 <= i < |spaces| && spaces[i].id == id;
        assert spaces[1..][i - 1].id == id;
        var k :| 0 <= k < |spaces[1..]| && spaces[1..][k].id == id && FindIn(spaces[1..], id) == Some(spaces[1..][k])
          && forall j :: 0 <= j < k ==> spaces[1..][j].id != id;
        assert forall j :: 0 < j < k + 1 ==> spaces[j] == spaces[1..][j - 1];
        assert spaces[k + 1].id == id;
      }
    }
  }

  predicate IsRead(cmd: u8) { 0x40 <= cmd < 0x44 }

  predicate IsWrite(cmd: u8) { cmd < 0x04 }

  /** A decoded Read or Write: the bytes to write, or how many to read. */
  datatype Request = Request(cmd: u8, space: u8, addr: u32, count: u8, data: seq<u8>)

  /** Where the count or the data start: behind the address, and the space byte if there is one. */
  function DataOffset(cmd: u8): nat { if cmd % 4 != 0 then 6 else 7 }

  function SpaceOf(cmd: u8, buf: seq<u8>): u8
    requires |buf| > 6
  {
    if cmd % 4 != 0 then 0xFC + cmd % 4 else buf[6]
  }

  /** parse_rw: the request and its space, or the error to reject it with. */
  datatype Parsed = Reject(error: u16) | Accept(req: Request, h: Space)

  function ParseRw(nodeSpaces: seq<Space>, globals: seq<Space>, buf: seq<u8>): (r: Parsed)
    requires |buf| <= D.DATAGRAM_MAX
    ensures r.Reject? ==> r.error != 0
  {
    if |buf| < 7 || |buf| <= DataOffset(buf[1]) then Reject(ERR_INVALID_ARGUMENTS)
    else
      var cmd := buf[1];
      var space := SpaceOf(cmd, buf);
      var addr := Word(buf[2], buf[3], buf[4], buf[5]);
      var h := FindSpace(nodeSpaces, globals, space);
      var rest := buf[DataOffset(cmd)..];
      if IsRead(cmd) then
        if rest[0] == 0 then Reject(ERR_INVALID_ARGUMENTS)
        else if h.None? || (!h.value.defer && !h.value.read) then Reject(ERR_SPACE_UNKNOWN)
        else Accept(Request(cmd, space, addr, rest[0], []), h.value)
      else if h.None? then Reject(ERR_SPACE_UNKNOWN)
      else if h.value.readOnly || (!h.value.defer && !h.value.write) then Reject(ERR_WRITE_READ_ONLY)
      else if h.value.write && h.value.size <= addr then Reject(ERR_OUT_OF_BOUNDS)
      else Accept(Request(cmd, space, addr, |rest|, rest), h.value)
  }

  // ---- requests -----------------------------------------------------------------

  /** A read of `count` bytes or a write of `data`; only a command with explicit space names another space than
      its own. */
  predicate Askable(req: Request) {
    && (IsRead(req.cmd) || IsWrite(req.cmd))
    && (req.cmd % 4 != 0 ==> req.space == 0xFC + req.cmd % 4)
    && (if IsRead(req.cmd) then req.data == [] else req.count == |req.data| <= D.DATAGRAM_MAX - DataOffset(req.cmd))
  }

  function RequestHead(cmd: u8, space: u8, addr: u32): (r: seq<u8>)
    ensures |r| == DataOffset(cmd)
  {
    [MEMCONFIG_CMD, cmd] + WordBytes(addr) + if cmd % 4 == 0 then [space] else []
  }

  /** The datagram that asks for it. */
  function RequestBytes(req: Request): seq<u8> {
    RequestHead(req.cmd, req.space, req.addr) + if IsRead(req.cmd) then [req.count] else req.data
  }

  /** What becomes of a request for a space. */
  function Verdict(h: Option<Space>, req: Request): Parsed {
    if req.count == 0 then Reject(ERR_INVALID_ARGUMENTS)
    else if h.None? then Reject(ERR_SPACE_UNKNOWN)
    else if IsRead(req.cmd) then
      if h.value.defer || h.value.read then Accept(req, h.value) else Reject(ERR_SPACE_UNKNOWN)
    else if h.value.readOnly || !(h.value.defer || h.value.write) then Reject(ERR_WRITE_READ_ONLY)
    else if h.value.write && h.value.size <= req.addr then Reject(ERR_OUT_OF_BOUNDS)
    else Accept(req, h.value)
  }

  lemma HeadBytes(cmd: u8, space: u8, addr: u32, rest: seq<u8>)
    requires cmd % 4 != 0 ==> space == 0xFC + cmd % 4
    ensures var buf := RequestHead(cmd, space, addr) + rest;
      && buf[0] == MEMCONFIG_CMD && buf[1] == cmd && Word(buf[2], buf[3], buf[4], buf[5]) == addr
      && buf[DataOffset(cmd)..] == rest && (|buf| > 6 ==> SpaceOf(cmd, buf) == space)
  {
    BytesOfWord(addr);
    hide WordBytes, Word;
    var b, buf := WordBytes(addr), RequestHead(cmd, space, addr) + rest;
    assert buf[2] == b[0] && buf[3] == b[1] && buf[4] == b[2] && buf[5] == b[3];
    assert buf[DataOffset(cmd)..] == rest;
    if cmd % 4 == 0 {
      assert buf[6] == space;
    }
  }

  /** A request is read back as it was asked, or turned down for the first thing that is wrong with it. */
  lemma RequestParses(nodeSpaces: seq<Space>, globals: seq<Space>, req: Request)
    requires Askable(req)
    ensures |RequestBytes(req)| <= D.DATAGRAM_MAX
    ensures ParseRw(nodeSpaces, globals, RequestBytes(req)) == Verdict(FindSpace(nodeSpaces, globals, req.space), req)
  {
    hide FindSpace, RequestHead, Word, SpaceOf;
    HeadBytes(req.cmd, req.space, req.addr, if IsRead(req.cmd) then [req.count] else req.data);
  }

  /** Nothing else is accepted: an accepted datagram asks for what it is taken for, but for bytes after a read's
      count, which are ignored. */
  lemma AcceptedAsAsked(nodeSpaces: seq<Space>, globals: seq<Space>, buf: seq<u8>)
    requires 2 <= |buf| <= D.DATAGRAM_MAX && buf[0] == MEMCONFIG_CMD && (IsRead(buf[1]) || IsWrite(buf[1]))
    requires ParseRw(nodeSpaces, globals, buf).Accept?
    ensures var req := ParseRw(nodeSpaces, globals, buf).req;
      Askable(req) && RequestBytes(req) <= buf && (IsWrite(req.cmd) ==> RequestBytes(req) == buf)
  {
    hide FindSpace, Word, WordBytes;
    var req := ParseRw(nodeSpaces, globals, buf).req;
    WordOfBytes(buf[2], buf[3], buf[4], buf[5]);
    assert buf[2..6] == WordBytes(req.addr);
    assert RequestHead(req.cmd, req.space, req.addr) == buf[..DataOffset(req.cmd)];
    assert buf == buf[..DataOffset(req.cmd)] + buf[DataOffset(req.cmd)..];
  }

  // ---- replies ----------------------------------------------------------------

  /** As much of the data as there is room for. */
  function Cut(data: seq<u8>, n: nat): (r: seq<u8>)
    ensures r <= data && |r| == Min(|data|, n)
  {
    if |data| <= n then data else data[..n]
  }

  /** A datagram handed to the transport. */
  datatype Datagram = Datagram(node: nat, dst: u16, payload: seq<u8>)

  function ReplyKind(cmd: u8, error: u16): u8 {
    (if cmd / 0x10 == 0 then WRITE_REPLY else READ_REPLY) + (if error != 0 then REPLY_FAILED else 0) + cmd % 4
  }

  function ReplyHead(cmd: u8, space: u8, addr: u32, error: u16): (r: seq<u8>)
    ensures |r| == if cmd % 4 == 0 then 7 else 6
  {
    [MEMCONFIG_CMD, ReplyKind(cmd, error)] + WordBytes(addr) + if cmd % 4 == 0 then [space] else []
  }

  /** The error code, or a read's data as far as there is room; a write's success has neither. */
  function ReplyTail(cmd: u8, error: u16, data: seq<u8>, room: nat): seq<u8> {
    if error != 0 then [error / 0x100, error % 0x100] else if cmd / 0x10 == 0 then [] else Cut(data, room)
  }

  function ReplyBytes(cmd: u8, space: u8, addr: u32, error: u16, data: seq<u8>): (r: seq<u8>)
    ensures 6 <= |r| <= D.DATAGRAM_MAX
  {
    var head := ReplyHead(cmd, space, addr, error);
    head + ReplyTail(cmd, error, data, D.DATAGRAM_MAX - |head|)
  }

  /** What the requester takes from a reply. */
  datatype ReplyRead = ReplyRead(isWrite: bool, failed: bool, space: u8, addr: u32, body: seq<u8>)

  function ReadReply(p: seq<u8>): Option<ReplyRead> {
    if |p| < 6 || p[0] != MEMCONFIG_CMD then None
    else
      var explicit := p[1] % 4 == 0;
      if explicit && |p| < 7 then None
      else Some(ReplyRead(p[1] < 0x20, p[1] / 8 % 2 == 1, if explicit then p[6] else 0xFC + p[1] % 4,
                          Word(p[2], p[3], p[4], p[5]), if explicit then p[7..] else p[6..]))
  }

  lemma BytesOfWord(w: u32)
    ensures var b := WordBytes(w); Word(b[0], b[1], b[2], b[3]) == w
  {
  }

  lemma KindBack(cmd: u8, error: u16)
    requires IsRead(cmd) || IsWrite(cmd)
    ensures var k := ReplyKind(cmd, error);
      k % 4 == cmd % 4 && (k / 8 % 2 == 1 <==> error != 0) && (k < 0x20 <==> IsWrite(cmd))
  {
  }

  /** A reply names its own request: kind, space and address are the request's; a failure carries the error
      code and a read the data. */
  lemma ReplyMatchesRequest(cmd: u8, space: u8, addr: u32, error: u16, data: seq<u8>)
    requires (IsRead(cmd) || IsWrite(cmd)) && (cmd % 4 != 0 ==> space == 0xFC + cmd % 4) && |data| <= 65
    ensures ReadReply(ReplyBytes(cmd, space, addr, error, data)) ==
      Some(ReplyRead(IsWrite(cmd), error != 0, space, addr,
                     if error != 0 then [error / 0x100, error % 0x100] else if IsWrite(cmd) then [] else data))
  {
    BytesOfWord(addr);
    hide WordBytes;
    var p := ReplyBytes(cmd, space, addr, error, data);
    var b := WordBytes(addr);
    var head := [MEMCONFIG_CMD, ReplyKind(cmd, error)] + b;
    var body := if error != 0 then [error / 0x100, error % 0x100] else if IsWrite(cmd) then [] else data;
    var full := head + if cmd % 4 == 0 then [space] else [];
    assert Cut(data, D.DATAGRAM_MAX - |ReplyHead(cmd, space, addr, error)|) == data;
    hide Cut, Min;
    assert p == full + body;
    assert p[1] == ReplyKind(cmd, error) && p[2] == b[0] && p[3] == b[1] && p[4] == b[2] && p[5] == b[3];
    assert p[|full|..] == body;
    KindBack(cmd, error);
    hide ReplyKind, ReplyBytes;
    if cmd % 4 == 0 {
      assert p[6] == space;
    }
  }

  // ---- the deferred slot ------------------------------------------------------

  datatype SlotState = Idle | Pending | Done

  /** The one deferred request, and its result once it is Done. */
  datatype Slot = Slot(state: SlotState, node: nat, src: u16, cmd: u8, space: u8, addr: u32, error: u16, data: seq<u8>)

  const DEFERRED_DATA_MAX: nat := 65

  function Claimed(node: nat, src: u16, req: Request): Slot {
    Slot(Pending, node, src, req.cmd, req.space, req.addr, 0, [])
  }

  /** A completion fills the slot only while a request is pending in it. */
  function Completed(s: Slot, error: u16, data: seq<u8>): Slot {
    if s.state != Pending then s else s.(state := Done, error := error, data := Cut(data, DEFERRED_DATA_MAX))
  }

  function SlotReply(s: Slot): Datagram {
    Datagram(s.node, s.src, ReplyBytes(s.cmd, s.space, s.addr, s.error, s.data))
  }

  function ErrorReply(node: nat, src: u16, req: Request, error: u16): Datagram {
    Datagram(node, src, ReplyBytes(req.cmd, req.space, req.addr, error, []))
  }

  /** What becomes of a deferred request; `hook` is what the space's defer hook answers when it is asked. One in
      bounds that finds the slot free and that the hook takes holds the slot and has no reply yet. Any other leaves
      the slot free or to its holder and gets one reply, with the reason. */
  ghost predicate Deferral(was: Slot, slot: Slot, was_sent: seq<Datagram>, sent: seq<Datagram>,
                           node: nat, src: u16, req: Request, size: u32, hook: u16) {
    if req.addr < size && was.state == Idle && hook == 0 then
      && slot.state == Pending && slot.node == node && slot.src == src && slot.cmd == req.cmd
      && slot.space == req.space && slot.addr == req.addr && sent == was_sent
    else
      && slot.state == was.state && (slot == was || was.state == Idle)
      && exists e: u16 ::
           && sent == was_sent + [Datagram(node, src, ReplyBytes(req.cmd, req.space, req.addr, e, []))]
           && (e == ERR_OUT_OF_BOUNDS || req.addr < size)
           && (req.addr < size ==> e == if was.state == Idle then hook else ERR_TEMPORARY)
  }

  // ---- reads ------------------------------------------------------------------

  /** What a read handler produced, and the error it set. */
  datatype ReadResult = ReadResult(data: seq<u8>, error: u16)

  type ReadHandler = (u32, nat) -> ReadResult

  function Min(a: nat, b: nat): nat { if a < b then a else b }

  const U32: int := 0x1_0000_0000

  /** How many of `count` bytes at `addr` the space has room for, by the 32-bit sum the code compares. */
  function InBounds(addr: u32, count: u8, size: u32): (n: nat)
    requires addr < size
    ensures n <= count
  {
    if size < (addr + count) % U32 then Min(size - addr, count) else count
  }

  /** The bound is the true one exactly when the end of the request does not wrap around. */
  lemma InBoundsExact(addr: u32, count: u8, size: u32)
    requires addr < size
    ensures InBounds(addr, count, size) == Min(count, size - addr) <==> addr + count < U32
  {
    if U32 <= addr + count {
      assert (addr + count) % U32 == addr + count - U32;
    }
  }

  /** Near the top of the address space it lets more through than the space holds. */
  lemma InBoundsOff()
    ensures InBounds(0xFFFF_FFF0, 0x20, 0xFFFF_FFFF) == 0x20 && Min(0x20, 0xFFFF_FFFF - 0xFFFF_FFF0) == 0x0F
  {
  }

  /** How much of a read fits the space and a reply. */
  function ReadCount(req: Request, size: u32): nat {
    if size <= req.addr then 0 else Min(InBounds(req.addr, req.count, size), DEFERRED_DATA_MAX)
  }

  /** What the handler is asked for comes back; asking past the end of the space brings nothing. */
  function ReadAnswer(req: Request, size: u32, h: ReadHandler): ReadResult {
    var n := ReadCount(req, size);
    if n == 0 then ReadResult([], 0) else var r := h(req.addr, n); ReadResult(Cut(r.data, n), r.error)
  }

  /** From a memory, a read gets the bytes at its address, as many as it asks for, the memory has and a reply takes. */
  lemma ReadsMemory(req: Request, mem: seq<u8>, h: ReadHandler)
    requires |mem| < U32 && req.addr + req.count < U32
    requires forall a: u32, n: nat :: a + n <= |mem| ==> h(a, n) == ReadResult(mem[a..a + n], 0)
    ensures ReadAnswer(req, |mem|, h) == ReadResult(
              if |mem| <= req.addr then [] else mem[req.addr..req.addr + Min(Min(req.count, 65), |mem| - req.addr)], 0)
  {
    var n := ReadCount(req, |mem|);
    if req.addr < |mem| {
      InBoundsExact(req.addr, req.count, |mem|);
      assert n == Min(Min(req.count, 65), |mem| - req.addr);
      hide ReadCount, InBounds;
      if 0 < n {
        assert h(req.addr, n) == ReadResult(mem[req.addr..req.addr + n], 0);
      } else {
        assert mem[req.addr..req.addr] == [];
      }
    }
  }

  /** Whether a read goes to the space's defer hook. */
  predicate Defers(space: Space, a: ReadResult) { space.defer && (!space.read || a.error == MEMCFG_DEFER) }

  // ---- the write loop ------------------------------------------------------------

  /** One call of a space's write handler and its answer. */
  datatype WriteCall = WriteCall(addr: u32, data: seq<u8>)

  datatype WriteResult = WriteResult(taken: u16, error: u16)

  /** A write handler with whatever state it keeps: its answer may depend on all the calls so far. */
  type WriteHandler = seq<WriteCall> -> WriteResult

  /** How many of the bytes offered in a call count as taken. */
  function Taken(r: WriteResult, left: nat): (n: nat)
    ensures n <= left && (n == 0 ==> r.taken == 0 || left == 0)
  {
    if left < r.taken then left else r.taken
  }

  /** The error after a call: the handler's, or a permanent one if it took nothing and gave no reason. */
  function CallError(r: WriteResult): (e: u16)
    ensures r.taken == 0 ==> e != 0
  {
    if r.taken == 0 && r.error == 0 then ERR_PERMANENT else r.error
  }

  /** Calls `calls` write `data[from..]` at the addresses behind `addr`: each is offered exactly the bytes
      not yet taken, at the address they belong at, and the next one follows only an error-free answer.
      `done` bytes are taken in the end and `error` is the last answer's. */
  ghost predicate Writes(h: WriteHandler, calls: seq<WriteCall>, addr: u32, data: seq<u8>, done: nat, error: u16) {
    && done <= |data|
    && if calls == [] then done == 0 && error == 0
       else
         var n := |calls| - 1;
         var r := h(calls);
         exists d: nat ::
           && d < |data|
           && Writes(h, calls[..n], addr, data, d, 0)
           && calls[n] == WriteCall((addr + d) % U32, data[d..])
           && done == d + Taken(r, |data| - d)
           && error == CallError(r)
  }

  lemma NoCalls(h: WriteHandler, addr: u32, data: seq<u8>)
    ensures Writes(h, [], addr, data, 0, 0)
  {
  }

  lemma NextCall(h: WriteHandler, calls: seq<WriteCall>, call: WriteCall, addr: u32, data: seq<u8>, d: nat)
    requires Writes(h, calls, addr, data, d, 0) && d < |data| && call == WriteCall((addr + d) % U32, data[d..])
    ensures var r := h(calls + [call]);
      Writes(h, calls + [call], addr, data, d + Taken(r, |data| - d), CallError(r))
  {
    assert (calls + [call])[..|calls|] == calls;
  }

  /** The bytes the handler took, call by call. */
  function TakenBytes(h: WriteHandler, calls: seq<WriteCall>): seq<u8> {
    if calls == [] then []
    else
      var n := |calls| - 1;
      TakenBytes(h, calls[..n]) + calls[n].data[..Min(h(calls).taken, |calls[n].data|)]
  }

  lemma LastCall(h: WriteHandler, calls: seq<WriteCall>, addr: u32, data: seq<u8>, done: nat, error: u16) returns (d: nat)
    requires Writes(h, calls, addr, data, done, error) && calls != []
    ensures d < |data| && Writes(h, calls[..|calls| - 1], addr, data, d, 0)
    ensures calls[|calls| - 1] == WriteCall((addr + d) % U32, data[d..])
    ensures done == d + Taken(h(calls), |data| - d) && error == CallError(h(calls))
  {
    hide Taken, CallError;
    var n := |calls| - 1;
    d :| d < |data| && Writes(h, calls[..n], addr, data, d, 0) && calls[n] == WriteCall((addr + d) % U32, data[d..])
      && done == d + Taken(h(calls), |data| - d) && error == CallError(h(calls));
  }

  /** Every byte is taken exactly once, in order, up to where the write ends. */
  lemma {:induction false} EveryByteOnce(h: WriteHandler, calls: seq<WriteCall>, addr: u32, data: seq<u8>, done: nat, error: u16)
    requires Writes(h, calls, addr, data, done, error)
    ensures done <= |data| && TakenBytes(h, calls) == data[..done]
    decreases |calls|
  {
    assert done <= |data|;
    if calls != [] {
      var d := LastCall(h, calls, addr, data, done, error);
      hide Writes;
      EveryByteOnce(h, calls[..|calls| - 1], addr, data, d, 0);
      assert data[..done] == data[..d] + data[d..][..done - d];
    }
  }

  /** A memory with bytes written over part of it. */
  function Overwritten(mem: seq<u8>, a: nat, bytes: seq<u8>): (r: seq<u8>)
    ensures |r| == |mem|
  {
    if a + |bytes| <= |mem| then mem[..a] + bytes + mem[a + |bytes|..] else mem
  }

  /** The memory behind a handler that writes what it takes where it is told. */
  function MemoryAfter(h: WriteHandler, calls: seq<WriteCall>, mem: seq<u8>): seq<u8> {
    if calls == [] then mem
    else
      var n := |calls| - 1;
      var call := calls[n];
      Overwritten(MemoryAfter(h, calls[..n], mem), call.addr, call.data[..Min(h(calls).taken, |call.data|)])
  }

  /** In a memory, a write puts its bytes at its address and those behind it, as far as they were taken, and changes
      nothing else, however the handler splits it up. */
  lemma {:induction false} WritesMemory(h: WriteHandler, calls: seq<WriteCall>, addr: u32, data: seq<u8>, done: nat, error: u16, mem: seq<u8>)
    requires Writes(h, calls, addr, data, done, error) && addr + |data| <= |mem| <= U32
    ensures done <= |data| && MemoryAfter(h, calls, mem) == Overwritten(mem, addr, data[..done])
    decreases |calls|
  {
    hide Writes, Overwritten, Taken, CallError, Min, MemoryAfter;
    EveryByteOnce(h, calls, addr, data, done, error);
    if calls == [] {
      NothingWritten(h, addr, data, done, error, mem);
    } else {
      var d := LastCall(h, calls, addr, data, done, error);
      WritesMemory(h, calls[..|calls| - 1], addr, data, d, 0, mem);
      TakenHere(h(calls), addr, data, d);
      LastWritten(h, calls, mem);
      WriteOn(mem, addr, data[..d], data[d..done]);
      assert data[..done] == data[..d] + data[d..done];
    }
  }

  lemma NothingWritten(h: WriteHandler, addr: u32, data: seq<u8>, done: nat, error: u16, mem: seq<u8>)
    requires Writes(h, [], addr, data, done, error)
    ensures done == 0 && MemoryAfter(h, [], mem) == mem == Overwritten(mem, addr, data[..0])
  {
  }

  lemma TakenHere(r: WriteResult, addr: u32, data: seq<u8>, d: nat)
    requires d < |data| && addr + |data| <= U32
    ensures (addr + d) % U32 == addr + d
    ensures var done := d + Taken(r, |data| - d); done <= |data| && data[d..][..Min(r.taken, |data[d..]|)] == data[d..done]
  {
  }

  lemma LastWritten(h: WriteHandler, calls: seq<WriteCall>, mem: seq<u8>)
    requires calls != []
    ensures var call := calls[|calls| - 1];
      MemoryAfter(h, calls, mem) == Overwritten(MemoryAfter(h, calls[..|calls| - 1], mem), call.addr,
                                                call.data[..Min(h(calls).taken, |call.data|)])
  {
  }

  lemma WriteOn(mem: seq<u8>, a: nat, x: seq<u8>, y: seq<u8>)
    requires a + |x| + |y| <= |mem|
    ensures Overwritten(Overwritten(mem, a, x), a + |x|, y) == Overwritten(mem, a, x + y)
  {
    var m := mem[..a] + x + mem[a + |x|..];
    assert m[..a + |x|] == mem[..a] + x;
    assert m[a + |x| + |y|..] == mem[a + |x| + |y|..];
  }

  /** Why a write ends: an error, or nothing left that fits the space. */
  function WriteError(error: u16, inBounds: nat, count: nat): u16 {
    if error == 0 && inBounds < count then ERR_OUT_OF_BOUNDS else error
  }

  /** A write is answered without an error exactly if the handler took all the bytes of the request and found no
      fault in the end; the handler's own last error is passed on. */
  lemma WriteAnswer(h: WriteHandler, calls: seq<WriteCall>, addr: u32, data: seq<u8>, n: nat, done: nat, error: u16)
    requires n <= |data| && Writes(h, calls, addr, data[..n], done, error) && (error == 0 ==> done == n)
    ensures WriteError(error, n, |data|) == 0 <==> TakenBytes(h, calls) == data && (calls == [] || h(calls).error == 0)
    ensures calls != [] && h(calls).error != 0 ==> WriteError(error, n, |data|) == h(calls).error
  {
    EveryByteOnce(h, calls, addr, data[..n], done, error);
    hide TakenBytes;
    if calls == [] {
      hide CallError, Taken;
      assert done == 0 && error == 0;
    } else {
      var d := LastCall(h, calls, addr, data[..n], done, error);
      hide Writes;
      assert |data[..n][..done]| == done;
    }
  }

  /** The calls of a write and its reply. */
  ghost predicate WriteReplied(was: seq<Datagram>, sent: seq<Datagram>, node: nat, src: u16, req: Request, size: u32,
                               h: WriteHandler, calls: seq<WriteCall>, done: nat, error: u16)
    requires req.addr < size && |req.data| < 0x100
  {
    var n := InBounds(req.addr, |req.data|, size);
    && Writes(h, calls, req.addr, req.data[..n], done, error) && (error == 0 ==> done == n)
    && sent == was + [Datagram(node, src, ReplyBytes(req.cmd, req.space, req.addr, WriteError(error, n, |req.data|), []))]
  }

  class Service {
    var slot: Slot
    var sent: seq<Datagram>

    constructor ()
      ensures slot.state == Idle && sent == []
    {
      slot := Slot(Idle, 0, 0, 0, 0, 0, 0, []);
      sent := [];
    }

    /** The fixed part of a reply, written into the datagram buffer. */
    static method PutHead(reply: array<u8>, cmd: u8, space: u8, addr: u32, error: u16) returns (rpos: nat)
      requires reply.Length == D.DATAGRAM_MAX
      modifies reply
      ensures 6 <= rpos <= 7 && reply[..rpos] == ReplyHead(cmd, space, addr, error)
    {
      hide ReplyKind;
      var bytes := WordBytes(addr);
      hide WordBytes;
      reply[0] := MEMCONFIG_CMD;
      reply[1] := ReplyKind(cmd, error);
      reply[2], reply[3], reply[4], reply[5] := bytes[0], bytes[1], bytes[2], bytes[3];
      rpos := 6;
      if cmd % 4 == 0 {
        reply[6] := space;
        rpos := 7;
      }
    }

    /** send_reply: the reply is put together in a datagram buffer and sent. */
    method SendReply(node: nat, dst: u16, cmd: u8, space: u8, addr: u32, error: u16, data: seq<u8>)
      modifies this`sent
      ensures sent == old(sent) + [Datagram(node, dst, ReplyBytes(cmd, space, addr, error, data))]
    {
      hide ReplyHead;
      var reply := new u8[D.DATAGRAM_MAX];
      var rpos := PutHead(reply, cmd, space, addr, error);
      ghost var head := reply[..rpos];
      if error != 0 {
        reply[rpos], reply[rpos + 1] := error / 0x100, error % 0x100;
        rpos := rpos + 2;
      } else if cmd / 0x10 != 0 {
        var len := |data|;
        if D.DATAGRAM_MAX - rpos < len {
          len := D.DATAGRAM_MAX - rpos;
        }
        forall i | 0 <= i < len {
          reply[rpos + i] := data[i];
        }
        rpos := rpos + len;
      }
      assert reply[..rpos] == head + ReplyTail(cmd, error, data, D.DATAGRAM_MAX - |head|);
      sent := sent + [Datagram(node, dst, reply[..rpos])];
    }

    /** start_deferred: claims the slot and asks the hook, or fails the request with a reply. */
    method StartDeferred(node: nat, src: u16, req: Request, size: u32, hook: u16)
      modifies this
      ensures Deferral(old(slot), slot, old(sent), sent, node, src, req, size, hook)
    {
      var error: u16;
      if size <= req.addr {
        error := ERR_OUT_OF_BOUNDS;
      } else if slot.state != Idle {
        error := ERR_TEMPORARY;
      } else {
        slot := Claimed(node, src, req);
        error := hook;
        if error == 0 {
          return;
        }
        slot := slot.(state := Idle);
      }
      SendReply(node, src, req.cmd, req.space, req.addr, error, []);
    }

    /** lcc_memconfig_complete. */
    method Complete(error: u16, data: seq<u8>)
      modifies this`slot
      ensures slot == Completed(old(slot), error, data)
    {
      if slot.state != Pending {
        return;
      }
      var kept := if DEFERRED_DATA_MAX < |data| then data[..DEFERRED_DATA_MAX] else data;
      slot := slot.(data := kept, error := error);
      slot := slot.(state := Done);
    }

    /** lcc_memconfig_flush_deferred: a finished request's reply goes out once and frees the slot. */
    method FlushDeferred()
      modifies this
      ensures if old(slot).state == Done
        then sent == old(sent) + [SlotReply(old(slot))] && slot == old(slot).(state := Idle)
        else sent == old(sent) && slot == old(slot)
    {
      if slot.state != Done {
        return;
      }
      SendReply(slot.node, slot.src, slot.cmd, slot.space, slot.addr, slot.error, slot.data);
      slot := slot.(state := Idle);
    }

    /** handle_read: a request the space defers claims the slot or fails at once; any other is answered with
        one reply. */
    method HandleRead(node: nat, src: u16, req: Request, space: Space, h: ReadHandler, hook: u16)
      requires space.read || space.defer
      modifies this
      ensures var a := ReadAnswer(req, space.size, h);
        if !Defers(space, a) then slot == old(slot)
          && sent == old(sent) + [Datagram(node, src, ReplyBytes(req.cmd, req.space, req.addr,
               if a.error == MEMCFG_DEFER then ERR_PERMANENT else a.error, a.data))]
        else Deferral(old(slot), slot, old(sent), sent, node, src, req, space.size, hook)
    {
      hide ReplyBytes;
      if space.defer && !space.read {
        StartDeferred(node, src, req, space.size, hook);
        return;
      }
      var count := req.count;
      if space.size <= req.addr {
        count := 0;
      } else if space.size < (req.addr + count) % U32 {
        count := space.size - req.addr;
      }
      if DEFERRED_DATA_MAX < count {
        count := DEFERRED_DATA_MAX;
      }
      var data: seq<u8>, error: u16 := [], 0;
      if 0 < count {
        var r := h(req.addr, count);
        data, error := if count < |r.data| then r.data[..count] else r.data, r.error;
      }
      if error == MEMCFG_DEFER {
        if space.defer {
          StartDeferred(node, src, req, space.size, hook);
          return;
        }
        error := ERR_PERMANENT;
      }
      SendReply(node, src, req.cmd, req.space, req.addr, error, data);
    }

    /** handle_write: a space that cannot write itself defers the request; any other's handler is offered whatever
        it has not taken yet until all in-bounds bytes are taken or it fails. Ends for any answers. */
    method HandleWrite(node: nat, src: u16, req: Request, space: Space, h: WriteHandler, hook: u16)
        returns (ghost calls: seq<WriteCall>, ghost done: nat, ghost error: u16)
      requires |req.data| < 0x100 && (space.write || space.defer) && (space.write ==> req.addr < space.size)
      modifies this
      ensures !space.write ==> Deferral(old(slot), slot, old(sent), sent, node, src, req, space.size, hook)
      ensures space.write ==> slot == old(slot) && WriteReplied(old(sent), sent, node, src, req, space.size, h, calls, done, error)
    {
      hide Writes, CallError, Taken, ReplyBytes;
      calls, done, error := [], 0, 0;
      if space.defer && !space.write {
        StartDeferred(node, src, req, space.size, hook);
        return;
      }
      var size := space.size;
      var inBounds := |req.data|;
      if size < (req.addr + inBounds) % U32 {
        inBounds := size - req.addr;
      }
      ghost var data := req.data[..inBounds];
      var err: u16 := 0;
      var n := 0;
      var made: seq<WriteCall> := [];
      NoCalls(h, req.addr, data);
      while n < inBounds && err == 0
        invariant 0 <= n <= inBounds && Writes(h, made, req.addr, data, n, err) && sent == old(sent) && slot == old(slot)
        decreases inBounds - n, err == 0
      {
        var call := WriteCall((req.addr + n) % U32, req.data[n..inBounds]);
        NextCall(h, made, call, req.addr, data, n);
        made := made + [call];
        var r := h(made);
        err := CallError(r);
        n := n + Taken(r, inBounds - n);
      }
      calls, done, error := made, n, err;
      if err == 0 && inBounds < |req.data| {
        err := ERR_OUT_OF_BOUNDS;
      }
      SendReply(node, src, req.cmd, req.space, req.addr, err, []);
    }
  }
}
