/** Reading and writing CVs on the programming track, where a decoder can only answer yes. */
module SvcCv {
  import opened Bits
  import P = Packet

  const READ_ATTEMPTS: nat := 2

  datatype Result = Ok | NoAck | NoLoco | Short

  /** What sending one instruction brings: the operation goes on only if the result is Ok. */
  datatype Reply = Reply(result: Result, ack: bool)

  /** The track: its answer to an instruction may depend on all that were sent before. */
  type Track = seq<seq<u8>> -> Reply

  function VerifyBit(cv: nat, bit: nat): seq<u8> { P.BuildSvcVerifyBit(cv, bit, true).data }

  function VerifyByte(cv: nat, value: u8): seq<u8> { P.BuildSvcVerifyByte(cv, value).data }

  function WriteByte(cv: nat, value: u8): seq<u8> { P.BuildSvcWriteByte(cv, value).data }

  // ---- what a decoder makes of it ------------------------------------------------------------

  /** A decoder's CVs, CV1 at 0. */
  type Cvs = nat -> u8

  function BitAt(x: u8, n: nat): bool
    requires n < 8
  {
    ByteBits(x)[7 - n]
  }

  /** Whether a decoder acknowledges a direct mode instruction. */
  predicate Acks(cvs: Cvs, d: seq<u8>) {
    |d| == 3 &&
    var cv := 0x100 * (d[0] as int % 4) + d[1];
    if d[0] / 4 == 0x74 / 4 then cvs(cv) == d[2]
    else if d[0] / 4 == 0x78 / 4 then d[2] / 16 == 0xE && BitAt(cvs(cv), d[2] % 8) == (d[2] / 8 % 2 == 1)
    else d[0] / 4 == 0x7C / 4
  }

  /** The instructions name the CV that is meant, for every CV there is. */
  lemma BitMeans(cvs: Cvs, cv: nat, bit: nat)
    requires 1 <= cv <= 1024 && bit < 8
    ensures Acks(cvs, VerifyBit(cv, bit)) == BitAt(cvs(cv - 1), bit)
  {
    hide ByteBits;
    var d := VerifyBit(cv, bit);
    WireCv(0x78, cv, 0xE8 + bit);
  }

  lemma ByteMeans(cvs: Cvs, cv: nat, value: u8)
    requires 1 <= cv <= 1024
    ensures Acks(cvs, VerifyByte(cv, value)) == (cvs(cv - 1) == value)
  {
    WireCv(0x74, cv, value);
  }

  /** An instruction to write a byte or verify one, and what it says of the decoder's CVs once it is acknowledged. */
  predicate Holds(cvs: Cvs, d: seq<u8>) {
    |d| == 3 && (d[0] / 4 == 0x7C / 4 || d[0] / 4 == 0x74 / 4) ==> cvs(0x100 * (d[0] as int % 4) + d[1]) == d[2]
  }

  lemma WriteMeans(cvs: Cvs, cv: nat, value: u8)
    requires 1 <= cv <= 1024
    ensures Holds(cvs, WriteByte(cv, value)) <==> cvs(cv - 1) == value
    ensures Holds(cvs, VerifyByte(cv, value)) <==> cvs(cv - 1) == value
  {
    WireCv(0x7C, cv, value);
    WireCv(0x74, cv, value);
  }

  lemma WireCv(opcode: u8, cv: nat, value: u8)
    requires 1 <= cv <= 1024 && opcode % 4 == 0
    ensures var d := P.BuildSvcDirect(opcode, cv, value).data;
      |d| == 3 && d[0] / 4 == opcode / 4 && 0x100 * (d[0] as int % 4) + d[1] == cv - 1 && d[2] == value
  {
    var wire := (cv + 0xFFFF) % 0x1_0000 % 0x400;
    assert wire == cv - 1;
  }

  // ---- the value the bits make ---------------------------------------------------------------

  function Weight(bit: nat): nat { if bit == 0 then 1 else 2 * Weight(bit - 1) }

  /** The low `n` bits of `x`. */
  function Low(x: u8, n: nat): nat
    requires n <= 8
  {
    if n == 0 then 0 else Low(x, n - 1) + if BitAt(x, n - 1) then Weight(n - 1) else 0
  }

  lemma LowNext(x: u8, n: nat)
    requires n < 8
    ensures Low(x, n + 1) == Low(x, n) + if ByteBits(x)[7 - n] then Weight(n) else 0
    ensures Low(x, 0) == 0
  {
    hide ByteBits, Weight;
  }

  lemma Weights()
    ensures Weight(0) == 1 && Weight(1) == 2 && Weight(2) == 4 && Weight(3) == 8 && Weight(4) == 16
    ensures Weight(5) == 32 && Weight(6) == 64 && Weight(7) == 128 && Weight(8) == 256
  {
    assert Weight(4) == 16;
  }

  lemma BitsAdd(x: u8)
    ensures var s := ByteBits(x);
      x == 128 * Bit(s[0]) + 64 * Bit(s[1]) + 32 * Bit(s[2]) + 16 * Bit(s[3])
           + 8 * Bit(s[4]) + 4 * Bit(s[5]) + 2 * Bit(s[6]) + Bit(s[7])
  {
    hide ByteBits, Value;
    ByteValue(x);
    Value4(ByteBits(x));
    Value8(ByteBits(x));
  }

  lemma LowFour(x: u8)
    ensures var s := ByteBits(x);
      Low(x, 4) == 8 * Bit(s[4]) + 4 * Bit(s[5]) + 2 * Bit(s[6]) + Bit(s[7])
  {
    hide ByteBits, Low, Weight;
    Weights();
    LowNext(x, 0);
    LowNext(x, 1);
    LowNext(x, 2);
    LowNext(x, 3);
  }

  lemma LowAll(x: u8)
    ensures Low(x, 8) == x
  {
    hide ByteBits, Low, Weight;
    BitsAdd(x);
    LowFour(x);
    Weights();
    LowNext(x, 4);
    LowNext(x, 5);
    LowNext(x, 6);
    LowNext(x, 7);
  }

  // ---- honest answers --------------------------------------------------------------------------

  /** The answer to the last instruction of a history is the decoder's. */
  predicate Right(io: Track, cvs: Cvs, h: seq<seq<u8>>)
    requires h != []
  {
    io(h) == Reply(Ok, Acks(cvs, h[|h| - 1]))
  }

  /** The answers to instructions `lo` to `hi - 1` of any operation are the decoder's. */
  ghost predicate RightOn(io: Track, cvs: Cvs, lo: nat, hi: nat) {
    forall h :: lo < |h| <= hi ==> Right(io, cvs, h)
  }

  /** Byte verifies are answered honestly; anything may happen to the others. */
  ghost predicate HonestBytes(io: Track, cvs: Cvs) {
    forall h :: h != [] && |h[|h| - 1]| == 3 && h[|h| - 1][0] / 4 == 0x74 / 4 && io(h).ack ==> Acks(cvs, h[|h| - 1])
  }

  /** Nothing aborts the operation, and every answer but perhaps the one to instruction `e` is the decoder's. */
  ghost predicate OneWrong(io: Track, cvs: Cvs, e: nat) {
    && RightOn(io, cvs, 0, e) && RightOn(io, cvs, e + 1, 9 * READ_ATTEMPTS)
    && (forall h :: |h| == e + 1 ==> io(h).result == Ok)
  }

  // ---- reading -----------------------------------------------------------------------------------

  /** The eight bit verifies of one attempt. */
  method ReadBits(io: Track, cv: nat, before: seq<seq<u8>>, ghost cvs: Cvs)
      returns (r: Result, v: u8, any: bool, sent: seq<seq<u8>>)
    ensures before <= sent && |sent| <= |before| + 8 && (r == Ok ==> |sent| == |before| + 8)
    ensures r == Ok ==> (any <==> exists k :: |before| < k <= |sent| && io(sent[..k]).ack)
    ensures r != Ok ==> |before| < |sent| && r == io(sent).result
    ensures (forall h :: |before| < |h| <= |before| + 8 ==> io(h).result == Ok) ==> r == Ok
    ensures 1 <= cv <= 1024 && RightOn(io, cvs, |before|, |before| + 8) ==> r == Ok && v == cvs(cv - 1)
  {
    hide P.BuildSvcVerifyBit, Acks, BitAt, Weight;
    sent := before;
    r, any := Ok, false;
    var w: nat := 0;
    var bit: nat := 0;
    WeightAt(0);
    while bit < 8
      invariant bit <= 8 && before <= sent && |sent| == |before| + bit && w < Weight(bit)
      invariant any <==> exists k :: |before| < k <= |sent| && io(sent[..k]).ack
      invariant 1 <= cv <= 1024 && RightOn(io, cvs, |before|, |before| + 8) ==> w == Low(cvs(cv - 1), bit)
    {
      ghost var was := sent;
      sent := sent + [VerifyBit(cv, bit)];
      assert forall k :: 0 <= k <= |was| ==> sent[..k] == was[..k];
      assert sent[..|sent|] == sent;
      var reply := io(sent);
      if 1 <= cv <= 1024 && RightOn(io, cvs, |before|, |before| + 8) {
        assert Right(io, cvs, sent);
        BitMeans(cvs, cv, bit);
      }
      WeightAt(bit + 1);
      if reply.result != Ok {
        r, v := reply.result, 0;
        return;
      }
      if reply.ack {
        w := w + Weight(bit);
        any := true;
        assert io(sent[..|sent|]).ack;
      }
      bit := bit + 1;
    }
    if 1 <= cv {
      LowAll(cvs(cv - 1));
    }
    Weights();
    v := w;
  }

  lemma WeightAt(n: nat)
    ensures Weight(0) == 1 && (0 < n ==> Weight(n) == 2 * Weight(n - 1))
  {
  }

  /** One attempt: the bits, then the byte they make. */
  method Attempt(io: Track, cv: nat, before: seq<seq<u8>>, ghost cvs: Cvs)
      returns (r: Result, v: u8, ack: bool, any: bool, sent: seq<seq<u8>>)
    ensures before <= sent && |before| < |sent| <= |before| + 9
    ensures r != Ok ==> r == io(sent).result
    ensures r == Ok ==> |sent| == |before| + 9 && sent[|sent| - 1] == VerifyByte(cv, v) && io(sent) == Reply(Ok, ack)
    ensures r == Ok ==> (any <==> exists k :: |before| < k < |sent| && io(sent[..k]).ack)
    ensures (forall h :: |before| < |h| <= |before| + 9 ==> io(h).result == Ok) ==> r == Ok
    ensures 1 <= cv <= 1024 && RightOn(io, cvs, |before|, |before| + 8) ==> r != Ok || v == cvs(cv - 1)
    ensures 1 <= cv <= 1024 && r == Ok && Right(io, cvs, sent) ==> (ack <==> v == cvs(cv - 1))
  {
    hide VerifyByte, Acks;
    var bits;
    r, v, any, bits := ReadBits(io, cv, before, cvs);
    ack, sent := false, bits;
    if r != Ok {
      return;
    }
    sent := bits + [VerifyByte(cv, v)];
    assert forall k :: 0 <= k <= |bits| ==> sent[..k] == bits[..k];
    if 1 <= cv <= 1024 {
      ByteMeans(cvs, cv, v);
    }
    r, ack := io(sent).result, io(sent).ack;
  }

  /** What one wrong answer in the first attempt leaves intact. */
  lemma OneWrongMeans(io: Track, cvs: Cvs, e: nat)
    requires e < 9 && OneWrong(io, cvs, e)
    ensures RightOn(io, cvs, 9, 18) && (e == 8 ==> RightOn(io, cvs, 0, 8)) && (e < 8 ==> RightOn(io, cvs, 8, 9))
    ensures forall h :: 0 < |h| <= 18 ==> io(h).result == Ok
  {
    hide Acks;
  }

  /** If byte verifies are answered honestly, then whatever the other answers are, the byte confirmed is the CV. */
  lemma ConfirmedIsRight(io: Track, cvs: Cvs, cv: nat, value: u8, sent: seq<seq<u8>>)
    requires 1 <= cv <= 1024 && HonestBytes(io, cvs)
    requires sent != [] && sent[|sent| - 1] == VerifyByte(cv, value) && io(sent) == Reply(Ok, true)
    ensures value == cvs(cv - 1)
  {
    ByteMeans(cvs, cv, value);
    WireCv(0x74, cv, value);
  }

  /** What a read comes to: its instructions, and the value if it succeeded. */
  method Read(io: Track, cv: nat, ghost cvs: Cvs) returns (r: Result, value: u8, sent: seq<seq<u8>>)
    ensures |sent| <= 9 * READ_ATTEMPTS
    // A value is only reported if the decoder has confirmed it.
    ensures r == Ok ==> sent != [] && sent[|sent| - 1] == VerifyByte(cv, value) && io(sent) == Reply(Ok, true)
    // If byte verifies are answered honestly, then whatever the other answers are, that is the CV.
    ensures 1 <= cv <= 1024 && HonestBytes(io, cvs) && r == Ok ==> value == cvs(cv - 1)
    // A decoder that answers as it should is always read, in nine instructions.
    ensures 1 <= cv <= 1024 && RightOn(io, cvs, 0, 9) ==> r == Ok && value == cvs(cv - 1) && |sent| == 9
    // One wrong answer in the first attempt does no harm.
    ensures forall e :: e < 9 && 1 <= cv <= 1024 && OneWrong(io, cvs, e) ==> r == Ok && value == cvs(cv - 1)
    // Unless the track itself gives up, no loco is reported exactly if no instruction was ever acknowledged.
    ensures r == NoLoco ==> io(sent).result == NoLoco || (|sent| == 18 && forall k :: 0 < k <= 18 ==> !io(sent[..k]).ack)
    ensures r == NoAck ==> io(sent).result == NoAck || (|sent| == 18 && exists k :: 0 < k <= 18 && io(sent[..k]).ack)
  {
    hide VerifyByte, OneWrong, RightOn, Right, HonestBytes;
    sent := [];
    var any := false;
    var attempt := 0;
    while attempt < READ_ATTEMPTS
      invariant 0 <= attempt <= READ_ATTEMPTS && |sent| == 9 * attempt
      invariant any <==> exists k :: 0 < k <= |sent| && io(sent[..k]).ack
      invariant 1 <= cv <= 1024 && RightOn(io, cvs, 0, 9) ==> attempt == 0
      invariant forall e :: e < 9 && 1 <= cv <= 1024 && OneWrong(io, cvs, e) ==> attempt <= 1
    {
      ghost var before := sent;
      var v: u8, ack: bool, some: bool;
      r, v, ack, some, sent := Attempt(io, cv, sent, cvs);
      assert forall k :: 0 <= k <= |before| ==> sent[..k] == before[..k];
      assert sent[..|sent|] == sent;
      if 1 <= cv <= 1024 {
        AttemptFares(io, cvs, cv, before, r, v, ack, sent);
      }
      if r != Ok {
        value := 0;
        return;
      }
      any := any || some;
      if ack {
        value := v;
        if 1 <= cv <= 1024 && HonestBytes(io, cvs) {
          ConfirmedIsRight(io, cvs, cv, v, sent);
        }
        return;
      }
      attempt := attempt + 1;
    }
    value := 0;
    r := if any then NoAck else NoLoco;
  }

  /** How an attempt must end under the two kinds of decoder. */
  lemma AttemptFares(io: Track, cvs: Cvs, cv: nat, before: seq<seq<u8>>, r: Result, v: u8, ack: bool, sent: seq<seq<u8>>)
    requires 1 <= cv <= 1024 && (|before| == 0 || |before| == 9) && |before| < |sent| <= |before| + 9
    requires r != Ok ==> r == io(sent).result
    requires r == Ok ==> |sent| == |before| + 9 && io(sent) == Reply(Ok, ack)
    requires (forall h :: |before| < |h| <= |before| + 9 ==> io(h).result == Ok) ==> r == Ok
    requires RightOn(io, cvs, |before|, |before| + 8) ==> r != Ok || v == cvs(cv - 1)
    requires r == Ok && Right(io, cvs, sent) ==> (ack <==> v == cvs(cv - 1))
    ensures RightOn(io, cvs, 0, 9) && |before| == 0 ==> r == Ok && ack && v == cvs(cv - 1)
    ensures forall e :: e < 9 && OneWrong(io, cvs, e) ==> r == Ok && (ack ==> v == cvs(cv - 1)) && (|before| == 9 ==> ack)
  {
    hide Acks, OneWrong;
    forall e | e < 9 && OneWrong(io, cvs, e)
      ensures r == Ok && (ack ==> v == cvs(cv - 1)) && (|before| == 9 ==> ack)
    {
      OneWrongMeans(io, cvs, e);
    }
  }

  // ---- writing -----------------------------------------------------------------------------------

  /** The decoder acknowledges writing and verifying bytes only if the CV then holds the byte; `cvs` are its CVs after each
      instruction. */
  ghost predicate Honest(io: Track, cvs: seq<seq<u8>> -> Cvs) {
    forall h :: h != [] && io(h).ack ==> Holds(cvs(h), h[|h| - 1])
  }

  /** A write succeeds exactly if the decoder acknowledges it or then confirms the value. */
  method Write(io: Track, cv: nat, value: u8, ghost cvs: seq<seq<u8>> -> Cvs) returns (r: Result, sent: seq<seq<u8>>)
    ensures var w := [WriteByte(cv, value)]; var wv := w + [VerifyByte(cv, value)];
      if io(w).result != Ok then r == io(w).result && sent == w
      else if io(w).ack then r == Ok && sent == w
      else sent == wv && r == if io(wv).result != Ok then io(wv).result else if io(wv).ack then Ok else NoAck
    // After a success an honest decoder's CV is the value.
    ensures 1 <= cv <= 1024 && Honest(io, cvs) && r == Ok ==> cvs(sent)(cv - 1) == value
  {
    hide VerifyByte, WriteByte, Holds;
    if 1 <= cv <= 1024 {
      WriteMeans(cvs([WriteByte(cv, value)]), cv, value);
      WriteMeans(cvs([WriteByte(cv, value), VerifyByte(cv, value)]), cv, value);
    }
    assert [WriteByte(cv, value)] + [VerifyByte(cv, value)] == [WriteByte(cv, value), VerifyByte(cv, value)];
    sent := [WriteByte(cv, value)];
    var reply := io(sent);
    if reply.result != Ok || reply.ack {
      return reply.result, sent;
    }
    sent := sent + [VerifyByte(cv, value)];
    reply := io(sent);
    if reply.result != Ok {
      return reply.result, sent;
    }
    return if reply.ack then Ok else NoAck, sent;
  }
}
