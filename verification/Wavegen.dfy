/** The wavegen PIO program's waveform on the track pin, for any stream of encoded packets. */
module Wavegen {
  import opened Bits
  import opened Pio
  import P = Packet

  // ---- one bit, one byte, one packet ---------------------------------------

  /** Cycles of a half-wave: 58 us for a one bit and 116 us for a zero bit, at 2 us a cycle. */
  function Half(b: bool): nat { if b then 29 else 58 }

  /** The waveform of a list of bits: a high and a low half-wave of the same length for each. */
  function Halves(bits: seq<bool>): seq<Run> {
    if bits == [] then []
    else [Run(true, Half(bits[0])), Run(false, Half(bits[0]))] + Halves(bits[1..])
  }

  function Duration(bits: seq<bool>): nat {
    if bits == [] then 0 else 2 * Half(bits[0]) + Duration(bits[1..])
  }

  lemma Associative<T>(a: seq<T>, b: seq<T>, c: seq<T>)
    ensures (a + b) + c == a + (b + c)
  {
  }

  lemma ExtendLast(w: seq<Run>, level: bool, m: nat, n: nat)
    ensures Extend(w + [Run(level, m)], level, n) == w + [Run(level, m + n)]
  {
  }

  /** A level change starts a new stretch. */
  lemma ExtendNew(w: seq<Run>, level: bool, m: nat, n: nat)
    ensures Extend(Extend(w, !level, m), level, n) == Extend(w, !level, m) + [Run(level, n)]
  {
  }

  /** The last low cycles of a bit, the start of the next high half-wave and the bit count. */
  lemma LowEnd(k: Track, t: nat, pc: nat, x: u32, y: u32, left: u32, pin: bool, rep: seq<u32>, w: seq<Run>,
               pre: seq<u32>, o: nat, c: nat)
    requires pc == 21 && At(k, t, Core(pc, x, y, left, pin, rep), w, 0) && Reading(k, t, pre, o, c)
    ensures var e := if x != 0 then Core(17, x - 1, y, left, true, rep) else Core(24, 0xFFFF_FFFF, y, left, true, rep);
      At(k, t + 53, e, Extend(w, false, 29) + [Run(true, 24)], 0) && Reading(k, t + 53, pre, o, c)
  {
    hide At, Reading, Extend;
    Plain(k, t, Core(21, x, y, left, pin, rep), w, pre, o, c);
    var w1 := Extend(w, false, 29);
    Plain(k, t + 29, Core(22, x, y, left, false, rep), w1, pre, o, c);
    ExtendNew(w, true, 29, 23);
    Plain(k, t + 52, Core(23, x, y, left, true, rep), w1 + [Run(true, 23)], pre, o, c);
    ExtendLast(w1, true, 23, 1);
  }

  /** The middle of a zero bit (or separator), from a high half-wave of `h` cycles: 29 more, then low. */
  lemma ZeroMiddle(k: Track, t: nat, pc: nat, x: u32, y: u32, left: u32, rep: seq<u32>, w: seq<Run>, h: nat,
                   pre: seq<u32>, o: nat, c: nat)
    requires pc == 19 && At(k, t, Core(pc, x, y, left, true, rep), w + [Run(true, h)], 0) && Reading(k, t, pre, o, c)
    ensures At(k, t + 58, Core(21, x, y, left, false, rep), w + [Run(true, h + 29), Run(false, 29)], 0)
    ensures Reading(k, t + 58, pre, o, c)
  {
    hide At, Reading;
    var w1 := w + [Run(true, h)];
    Plain(k, t, Core(19, x, y, left, true, rep), w1, pre, o, c);
    var w2 := w + [Run(true, h + 29)];
    assert Extend(w1, true, 29) == w2;
    Plain(k, t + 29, Core(20, x, y, left, true, rep), w2, pre, o, c);
    assert Extend(w2, false, 29) == w + [Run(true, h + 29), Run(false, 29)];
  }

  /** The wave once a whole bit has gone by, from its first 24 high cycles to the next bit's. */
  function AfterBit(w: seq<Run>, b: bool): seq<Run> { AfterLateBit(w, b, 0) }

  /** The same for a bit whose high half-wave has been held for `late` cycles. */
  function AfterLateBit(w: seq<Run>, b: bool, late: nat): seq<Run> {
    w + [Run(true, Half(b) + late), Run(false, Half(b))]
  }

  /** One bit of a byte: the next bit of the supply, as two half-waves of its length. */
  lemma OneBit(k: Track, t: nat, pc: nat, x: u32, y: u32, left: u32, rep: seq<u32>, w: seq<Run>, late: nat,
               pre: seq<u32>, o: nat, c: nat, b: bool)
    requires pc == 17 && At(k, t, Core(pc, x, y, left, true, rep), w + [Run(true, 24 + late)], 0) && Reading(k, t, pre, o, c)
    requires KeptFed(k, t) && (c < 32 * |Supply(k, pre, o, t)| ==> StreamBit(Supply(k, pre, o, t), c) == b)
    ensures var y2 := if b then 0 else 0xFFFF_FFFF; var t2 := t + 2 * Half(b);
      var e := if x != 0 then Core(17, x - 1, y2, left, true, rep) else Core(24, 0xFFFF_FFFF, y2, left, true, rep);
      At(k, t2, e, AfterLateBit(w, b, late) + [Run(true, 24)], 0) && Reading(k, t2, pre, o, c + 1)
  {
    hide At, Reading, KeptFed, Supply, StreamBit;
    var c0 := Core(17, x, y, left, true, rep);
    OutBit(k, t, c0, w + [Run(true, 24 + late)], pre, o, c);
    var c1 := Core(18, x, Bit(b), left, true, rep);
    assert c1 == c0.(pc := 18, y := Bit(b));
    ExtendLast(w, true, 24 + late, 1);
    Plain(k, t + 1, c1, w + [Run(true, 25 + late)], pre, o, c + 1);
    ExtendLast(w, true, 25 + late, 4);
    BitEnd(k, t + 5, x, left, rep, w, late, pre, o, c + 1, b);
  }

  /** A bit from where ones and zeros part. */
  lemma BitEnd(k: Track, t: nat, x: u32, left: u32, rep: seq<u32>, w: seq<Run>, late: nat,
               pre: seq<u32>, o: nat, c: nat, b: bool)
    requires var y := if b then 0 else 0xFFFF_FFFF;
      At(k, t, Core(if b then 21 else 19, x, y, left, true, rep), w + [Run(true, 29 + late)], 0) && Reading(k, t, pre, o, c)
    ensures var y2 := if b then 0 else 0xFFFF_FFFF; var t2 := t - 5 + 2 * Half(b);
      var e := if x != 0 then Core(17, x - 1, y2, left, true, rep) else Core(24, 0xFFFF_FFFF, y2, left, true, rep);
      At(k, t2, e, AfterLateBit(w, b, late) + [Run(true, 24)], 0) && Reading(k, t2, pre, o, c)
  {
    hide At, Reading;
    if b {
      LowEnd(k, t, 21, x, 0, left, true, rep, w + [Run(true, 29 + late)], pre, o, c);
      assert Extend(w + [Run(true, 29 + late)], false, 29) == AfterLateBit(w, b, late);
    } else {
      ZeroMiddle(k, t, 19, x, 0xFFFF_FFFF, left, rep, w, 29 + late, pre, o, c);
      LowEnd(k, t + 58, 21, x, 0xFFFF_FFFF, left, false, rep, w + [Run(true, 58 + late), Run(false, 29)], pre, o, c);
      assert Extend(w + [Run(true, 58 + late), Run(false, 29)], false, 29) == AfterLateBit(w, b, late);
    }
  }

  /** As far as they have come in, the words being read are `all`. */
  ghost predicate Fits(k: Track, pre: seq<u32>, o: nat, all: seq<u32>) {
    forall t :: Supply(k, pre, o, t) <= all || all <= Supply(k, pre, o, t)
  }

  lemma StreamByte(ws: seq<u32>, m: nat, i: nat)
    requires m < 4 * |ws| && i < 8
    ensures StreamBit(ws, 8 * m + i) == ByteBits(ByteIn(ws, m))[i]
  {
    hide WordBytes, ByteBits;
    var c := 8 * m + i;
    assert c / 32 == m / 4 && c % 32 / 8 == m % 4 && c % 32 % 8 == i;
  }

  /** An OUT is fed as long as the supply reaches past the bits read. */
  lemma FedByWords(k: Track, t: nat, core: Core, wave: seq<Run>, pre: seq<u32>, o: nat, c: nat)
    requires At(k, t, core, wave, 0) && Reading(k, t, pre, o, c) && c < 32 * |Supply(k, pre, o, t)|
    ensures KeptFed(k, t)
  {
    hide State, Hist, Supply, Program;
  }

  /** The first `n` bytes of the supply have come in. */
  ghost predicate FedFor(k: Track, t: nat, pre: seq<u32>, o: nat, n: nat) {
    o <= |Hist(k, t)| && n <= 4 * |Supply(k, pre, o, t)|
  }

  lemma {:induction false} StaysFed(k: Track, t: nat, t2: nat, pre: seq<u32>, o: nat, n: nat)
    requires FedFor(k, t, pre, o, n) && t <= t2
    ensures FedFor(k, t2, pre, o, n)
    decreases t2 - t
  {
    hide State, Hist, Supply;
    if t < t2 {
      SupplyGrows(k, t, pre, o);
      StaysFed(k, t + 1, t2, pre, o, n);
    }
  }

  lemma FittingBit(k: Track, t: nat, pre: seq<u32>, o: nat, all: seq<u32>, c: nat)
    requires Fits(k, pre, o, all) && c < 32 * |all| && c < 32 * |Supply(k, pre, o, t)|
    ensures StreamBit(Supply(k, pre, o, t), c) == StreamBit(all, c)
  {
    hide Supply, BitOf;
    var ws := Supply(k, pre, o, t);
    assert ws <= all || all <= ws;
  }

  /** The rest of a byte from bit `i` on, and the byte count back in Y. */
  lemma {:induction false} OneByte(k: Track, t: nat, i: nat, y: u32, left: u32, rep: seq<u32>, w: seq<Run>,
                                   pre: seq<u32>, o: nat, m: nat, all: seq<u32>)
    requires i < 8 && At(k, t, Core(17, 7 - i, y, left, true, rep), w + [Run(true, 24)], 0)
    requires Reading(k, t, pre, o, 8 * m + i) && FedFor(k, t, pre, o, m + 1) && Fits(k, pre, o, all) && m < 4 * |all|
    ensures var bs := ByteBits(ByteIn(all, m))[i..]; var t2 := t + Duration(bs) + 1;
      At(k, t2, Core(25, 0xFFFF_FFFF, left, left, true, rep), w + Halves(bs) + [Run(true, 25)], 0)
      && Reading(k, t2, pre, o, 8 * m + 8)
    decreases 8 - i
  {
    hide At, Reading, KeptFed, Supply, Hist, StreamBit, ByteBits, ByteIn, Fits;
    var bs := ByteBits(ByteIn(all, m))[i..];
    var b := bs[0];
    var c := 8 * m + i;
    StreamByte(all, m, i);
    if c < 32 * |Supply(k, pre, o, t)| {
      FittingBit(k, t, pre, o, all, c);
    }
    FedByWords(k, t, Core(17, 7 - i, y, left, true, rep), w + [Run(true, 24)], pre, o, c);
    OneBit(k, t, 17, 7 - i, y, left, rep, w, 0, pre, o, c, b);
    var t1, y1 := t + 2 * Half(b), if b then 0 else 0xFFFF_FFFF;
    if i < 7 {
      StaysFed(k, t, t1, pre, o, m + 1);
      OneByte(k, t1, i + 1, y1, left, rep, AfterBit(w, b), pre, o, m, all);
      assert bs[1..] == ByteBits(ByteIn(all, m))[i + 1..];
      assert AfterBit(w, b) + Halves(bs[1..]) == w + Halves(bs);
    } else {
      Plain(k, t1, Core(24, 0xFFFF_FFFF, y1, left, true, rep), AfterBit(w, b) + [Run(true, 24)], pre, o, c + 1);
      ExtendLast(AfterBit(w, b), true, 24, 1);
      assert bs == [b];
      assert w + Halves(bs) == AfterBit(w, b);
    }
  }

  /** The separator before a byte, with the bytes left counted down into the ISR. */
  lemma Separator(k: Track, t: nat, x: u32, y: u32, isr: u32, rep: seq<u32>, w: seq<Run>, pre: seq<u32>, o: nat, c: nat)
    requires y != 0 && At(k, t, Core(25, x, y, isr, true, rep), w + [Run(true, 25)], 0) && Reading(k, t, pre, o, c)
    ensures At(k, t + 115, Core(17, 7, y - 1, y - 1, true, rep), AfterBit(w, false) + [Run(true, 24)], 0)
    ensures Reading(k, t + 115, pre, o, c)
  {
    hide At, Reading, Extend;
    Plain(k, t, Core(25, x, y, isr, true, rep), w + [Run(true, 25)], pre, o, c);
    ExtendLast(w, true, 25, 1);
    Plain(k, t + 1, Core(26, 8, y, isr, true, rep), w + [Run(true, 26)], pre, o, c);
    ExtendLast(w, true, 26, 1);
    SeparatorHigh(k, t + 2, y, isr, rep, w, pre, o, c);
  }

  lemma SeparatorHigh(k: Track, t: nat, y: u32, isr: u32, rep: seq<u32>, w: seq<Run>, pre: seq<u32>, o: nat, c: nat)
    requires y != 0 && At(k, t, Core(15, 8, y - 1, isr, true, rep), w + [Run(true, 27)], 0) && Reading(k, t, pre, o, c)
    ensures At(k, t + 113, Core(17, 7, y - 1, y - 1, true, rep), AfterBit(w, false) + [Run(true, 24)], 0)
    ensures Reading(k, t + 113, pre, o, c)
  {
    hide At, Reading, Extend;
    Plain(k, t, Core(15, 8, y - 1, isr, true, rep), w + [Run(true, 27)], pre, o, c);
    ExtendLast(w, true, 27, 1);
    Plain(k, t + 1, Core(16, 8, y - 1, y - 1, true, rep), w + [Run(true, 28)], pre, o, c);
    ExtendLast(w, true, 28, 1);
    SeparatorLow(k, t + 2, y - 1, rep, w, pre, o, c);
  }

  lemma SeparatorLow(k: Track, t: nat, left: u32, rep: seq<u32>, w: seq<Run>, pre: seq<u32>, o: nat, c: nat)
    requires At(k, t, Core(19, 8, left, left, true, rep), w + [Run(true, 29)], 0) && Reading(k, t, pre, o, c)
    ensures At(k, t + 111, Core(17, 7, left, left, true, rep), AfterBit(w, false) + [Run(true, 24)], 0)
    ensures Reading(k, t + 111, pre, o, c)
  {
    hide At, Reading, Extend;
    ZeroMiddle(k, t, 19, 8, left, left, rep, w, 29, pre, o, c);
    LowEnd(k, t + 58, 21, 8, left, left, false, rep, w + [Run(true, 58), Run(false, 29)], pre, o, c);
    ExtendLast(w + [Run(true, 58)], false, 29, 29);
    assert w + [Run(true, 58)] + [Run(false, 29)] == w + [Run(true, 58), Run(false, 29)];
    assert w + [Run(true, 58)] + [Run(false, 58)] == AfterBit(w, false);
  }

  /** Bytes on the wire: each behind a zero bit. */
  function Framed(bytes: seq<u8>): seq<bool> {
    if bytes == [] then [] else [false] + ByteBits(bytes[0]) + Framed(bytes[1..])
  }

  lemma {:induction false} HalvesConcat(a: seq<bool>, b: seq<bool>)
    ensures Halves(a + b) == Halves(a) + Halves(b) && Duration(a + b) == Duration(a) + Duration(b)
  {
    if a == [] {
      assert a + b == b;
    } else {
      HalvesConcat(a[1..], b);
      assert (a + b)[1..] == a[1..] + b;
      Associative([Run(true, Half(a[0])), Run(false, Half(a[0]))], Halves(a[1..]), Halves(b));
    }
  }

  ghost predicate Carries(all: seq<u32>, m: nat, bytes: seq<u8>) {
    m + |bytes| <= 4 * |all| && forall j :: 0 <= j < |bytes| ==> ByteIn(all, m + j) == bytes[j]
  }

  /** Each of the first `i` bytes has come in by the time it is read. */
  ghost predicate FedBytes(k: Track, t: nat, pre: seq<u32>, o: nat, m: nat, bytes: seq<u8>, i: nat)
    requires i <= |bytes|
  {
    forall q :: 0 <= q < i ==> FedFor(k, t + Duration(Framed(bytes[..q])) + 115, pre, o, m + q + 1)
  }

  /** The first `i` bytes of a packet, from the count in Y. */
  lemma {:induction false} FirstBytes(k: Track, t: nat, i: nat, bytes: seq<u8>, x: u32, isr: u32, rep: seq<u32>,
                                      w: seq<Run>, pre: seq<u32>, o: nat, m: nat, all: seq<u32>)
    requires i <= |bytes| < 0x100 && At(k, t, Core(25, x, |bytes|, isr, true, rep), w + [Run(true, 25)], 0)
    requires Reading(k, t, pre, o, 8 * m) && FedBytes(k, t, pre, o, m, bytes, i) && Fits(k, pre, o, all) && Carries(all, m, bytes)
    ensures var t2, left := t + Duration(Framed(bytes[..i])), |bytes| - i;
      At(k, t2, Core(25, if i == 0 then x else 0xFFFF_FFFF, left, if i == 0 then isr else left, true, rep),
        w + Halves(Framed(bytes[..i])) + [Run(true, 25)], 0)
      && Reading(k, t2, pre, o, 8 * (m + i))
    decreases i
  {
    hide At, Reading, Extend, ByteBits, ByteIn, Fits, FedFor, Framed, Halves, Duration, AfterBit;
    if i == 0 {
      NoBytes(w);
      assert bytes[..0] == [];
    } else {
      var q, b := i - 1, bytes[i - 1];
      FirstBytes(k, t, q, bytes, x, isr, rep, w, pre, o, m, all);
      var t1, left, w1 := t + Duration(Framed(bytes[..q])), |bytes| - i, w + Halves(Framed(bytes[..q]));
      Separator(k, t1, if q == 0 then x else 0xFFFF_FFFF, left + 1, if q == 0 then isr else left + 1, rep, w1, pre, o, 8 * (m + q));
      assert ByteIn(all, m + q) == b;
      assert ByteBits(b)[0..] == ByteBits(b);
      OneByte(k, t1 + 115, 0, left, left, rep, AfterBit(w1, false), pre, o, m + q, all);
      assert bytes[..i] == bytes[..q] + [b];
      FramedMore(w, bytes[..q], b);
    }
  }

  lemma NoBytes(w: seq<Run>)
    ensures Framed([]) == [] && Duration(Framed([])) == 0 && w + Halves(Framed([])) == w
  {
  }

  /** One more byte, behind its separator. */
  lemma FramedMore(w: seq<Run>, bytes: seq<u8>, b: u8)
    ensures w + Halves(Framed(bytes + [b])) == AfterBit(w + Halves(Framed(bytes)), false) + Halves(ByteBits(b))
    ensures Duration(Framed(bytes + [b])) == Duration(Framed(bytes)) + 116 + Duration(ByteBits(b))
  {
    FramedNext(bytes, b);
    hide ByteBits, Framed;
    var bits, f := ByteBits(b), Framed(bytes);
    HalvesConcat(f, [false] + bits);
    HalvesConcat([false], bits);
    var zero := [Run(true, 58), Run(false, 58)];
    assert Halves([false]) == zero + [] && Duration([false]) == 116;
    hide Halves;
    Associative(w, Halves(f), zero + Halves(bits));
    Associative(w + Halves(f), zero, Halves(bits));
  }

  lemma {:induction false} FramedNext(bytes: seq<u8>, b: u8)
    ensures Framed(bytes + [b]) == Framed(bytes) + ([false] + ByteBits(b))
    decreases |bytes|
  {
    hide ByteBits;
    if bytes == [] {
      assert [] + [b] == [b];
      assert Framed([b]) == [false] + ByteBits(b) + [];
    } else {
      FramedNext(bytes[1..], b);
      assert (bytes + [b])[1..] == bytes[1..] + [b];
      Associative([false] + ByteBits(bytes[0]), Framed(bytes[1..]), [false] + ByteBits(b));
    }
  }

  /** All the bytes of a packet, from the count in Y to the last separator test. */
  lemma Body(k: Track, t: nat, bytes: seq<u8>, x: u32, isr: u32, rep: seq<u32>, w: seq<Run>,
             pre: seq<u32>, o: nat, m: nat, all: seq<u32>)
      returns (t2: nat)
    requires |bytes| < 0x100 && At(k, t, Core(25, x, |bytes|, isr, true, rep), w + [Run(true, 25)], 0)
    requires Reading(k, t, pre, o, 8 * m) && FedBytes(k, t, pre, o, m, bytes, |bytes|) && Fits(k, pre, o, all)
    requires Carries(all, m, bytes) && (bytes == [] ==> isr == 0)
    ensures t2 == t + Duration(Framed(bytes)) + 2
    ensures At(k, t2, Core(27, 8, 0xFFFF_FFFF, 0, true, rep), w + Halves(Framed(bytes)) + [Run(true, 27)], 0)
    ensures Reading(k, t2, pre, o, 8 * (m + |bytes|))
  {
    hide At, Reading, Extend, FedBytes, Fits, Carries, Framed, Halves, Duration;
    FirstBytes(k, t, |bytes|, bytes, x, isr, rep, w, pre, o, m, all);
    assert bytes[..|bytes|] == bytes;
    var c, w1 := 8 * (m + |bytes|), w + Halves(Framed(bytes));
    t2 := t + Duration(Framed(bytes)) + 2;
    var x1 := if bytes == [] then x else 0xFFFF_FFFF;
    Plain(k, t2 - 2, Core(25, x1, 0, 0, true, rep), w1 + [Run(true, 25)], pre, o, c);
    ExtendLast(w1, true, 25, 1);
    Plain(k, t2 - 1, Core(26, 8, 0, 0, true, rep), w1 + [Run(true, 26)], pre, o, c);
    ExtendLast(w1, true, 26, 1);
  }

  // ---- one frame -------------------------------------------------------------

  function Ones(n: nat): seq<bool> { if n == 0 then [] else [true] + Ones(n - 1) }

  /** One preamble bit. */
  lemma PreambleBit(k: Track, t: nat, x: u32, y: u32, pin: bool, rep: seq<u32>, w: seq<Run>, pre: seq<u32>, o: nat, c: nat)
    requires At(k, t, Core(1, x, y, 0, pin, rep), w, 0) && Reading(k, t, pre, o, c)
    ensures var e := if y != 0 then Core(1, x, y - 1, 0, false, rep) else Core(4, x, 0xFFFF_FFFF, 0, false, rep);
      At(k, t + 58, e, Extend(w, true, 29) + [Run(false, 29)], 0) && Reading(k, t + 58, pre, o, c)
  {
    hide At, Reading, Extend;
    Plain(k, t, Core(1, x, y, 0, pin, rep), w, pre, o, c);
    var w1 := Extend(w, true, 29);
    Plain(k, t + 29, Core(2, x, y, 0, true, rep), w1, pre, o, c);
    ExtendNew(w, false, 29, 28);
    Plain(k, t + 57, Core(3, x, y, 0, false, rep), w1 + [Run(false, 28)], pre, o, c);
    ExtendLast(w1, false, 28, 1);
  }

  /** The preamble's remaining bits, after the low half-wave of the one before. */
  lemma {:induction false} Preamble(k: Track, t: nat, x: u32, y: u32, rep: seq<u32>, w: seq<Run>,
                                    pre: seq<u32>, o: nat, c: nat)
    requires At(k, t, Core(1, x, y, 0, false, rep), w + [Run(false, 29)], 0) && Reading(k, t, pre, o, c)
    ensures var t2 := t + 58 * (y + 1);
      At(k, t2, Core(4, x, 0xFFFF_FFFF, 0, false, rep), w + [Run(false, 29)] + Halves(Ones(y + 1)), 0)
      && Reading(k, t2, pre, o, c)
    decreases y
  {
    hide At, Reading;
    PreambleBit(k, t, x, y, false, rep, w + [Run(false, 29)], pre, o, c);
    var w1 := w + [Run(false, 29), Run(true, 29)];
    assert Extend(w + [Run(false, 29)], true, 29) == w1;
    assert Ones(y + 1) == [true] + Ones(y);
    assert Halves(Ones(y + 1)) == [Run(true, 29), Run(false, 29)] + Halves(Ones(y));
    if y != 0 {
      Preamble(k, t + 58, x, y - 1, rep, w1, pre, o, c);
      assert w1 + [Run(false, 29)] + Halves(Ones(y)) == w + [Run(false, 29)] + Halves(Ones(y + 1));
    } else {
      assert Ones(0) == [];
      assert w1 + [Run(false, 29)] == w + [Run(false, 29)] + Halves(Ones(y + 1));
    }
  }

  const IDLE_WORD: u32 := 0x03FF_00FF

  ghost predicate EndsLow(w: seq<Run>) { w != [] && !w[|w| - 1].level }

  /** The start bit's first cycles build the idle packet in X. */
  lemma BuildIdle(k: Track, t: nat, x: u32, y: u32, rep: seq<u32>, v: seq<Run>, pre: seq<u32>, o: nat, c: nat)
    requires EndsLow(v) && At(k, t, Core(4, x, y, 0, false, rep), v, 0) && Reading(k, t, pre, o, c)
    ensures At(k, t + 20, Core(10, IDLE_WORD, y, IDLE_WORD, true, rep), v + [Run(true, 20)], 0)
    ensures Reading(k, t + 20, pre, o, c)
  {
    hide At, Reading;
    Plain(k, t, Core(4, x, y, 0, false, rep), v, pre, o, c);
    assert Extend(v, true, 15) == v + [Run(true, 15)];
    hide Extend;
    Plain(k, t + 15, Core(5, x, y, 0, true, rep), v + [Run(true, 15)], pre, o, c);
    ExtendLast(v, true, 15, 1);
    ShiftInIdle(k, t + 16, y, rep, v, pre, o, c);
  }

  lemma ShiftInIdle(k: Track, t: nat, y: u32, rep: seq<u32>, v: seq<Run>, pre: seq<u32>, o: nat, c: nat)
    requires At(k, t, Core(6, 0xFFFF_FFFF, y, 0, true, rep), v + [Run(true, 16)], 0) && Reading(k, t, pre, o, c)
    ensures At(k, t + 4, Core(10, IDLE_WORD, y, IDLE_WORD, true, rep), v + [Run(true, 20)], 0)
    ensures Reading(k, t + 4, pre, o, c)
  {
    hide At, Reading, Extend;
    Plain(k, t, Core(6, 0xFFFF_FFFF, y, 0, true, rep), v + [Run(true, 16)], pre, o, c);
    ExtendLast(v, true, 16, 1);
    Plain(k, t + 1, Core(7, 0xFFFF_FFFF, y, 0x3FF, true, rep), v + [Run(true, 17)], pre, o, c);
    ExtendLast(v, true, 17, 1);
    Plain(k, t + 2, Core(8, 0xFFFF_FFFF, y, 0x3_FF00, true, rep), v + [Run(true, 18)], pre, o, c);
    ExtendLast(v, true, 18, 1);
    Plain(k, t + 3, Core(9, 0xFFFF_FFFF, y, IDLE_WORD, true, rep), v + [Run(true, 19)], pre, o, c);
    ExtendLast(v, true, 19, 1);
  }

  /** From the pull: report the packet's first word, take its byte count. */
  lemma StartPacket(k: Track, t: nat, y: u32, isr: u32, rep: seq<u32>, v: seq<Run>, pre: seq<u32>, o: nat)
    requires At(k, t, Core(11, IDLE_WORD, y, isr, true, rep), v + [Run(true, 21)], 0) && Reading(k, t, pre, o, 0)
    requires Supply(k, pre, o, t) != []
    ensures var word := Supply(k, pre, o, t)[0];
      At(k, t + 4, Core(25, IDLE_WORD, WordBytes(word)[0], 0, true, rep + [word]), v + [Run(true, 25)], 0)
      && Reading(k, t + 4, pre, o, 8)
  {
    hide At, Reading, Extend, Supply, WordBytes;
    var word := Supply(k, pre, o, t)[0];
    FirstWordStays(k, t, pre, o);
    MovOsr(k, t, Core(11, IDLE_WORD, y, isr, true, rep), v + [Run(true, 21)], pre, o);
    ExtendLast(v, true, 21, 1);
    Plain(k, t + 1, Core(12, IDLE_WORD, y, word, true, rep), v + [Run(true, 22)], pre, o, 0);
    ExtendLast(v, true, 22, 1);
    TakeCount(k, t + 2, y, word, rep + [word], v, pre, o);
  }

  lemma TakeCount(k: Track, t: nat, y: u32, word: u32, rep: seq<u32>, v: seq<Run>, pre: seq<u32>, o: nat)
    requires At(k, t, Core(13, IDLE_WORD, y, 0, true, rep), v + [Run(true, 23)], 0) && Reading(k, t, pre, o, 0)
    requires Supply(k, pre, o, t) != [] && word == Supply(k, pre, o, t)[0]
    ensures At(k, t + 2, Core(25, IDLE_WORD, WordBytes(word)[0], 0, true, rep), v + [Run(true, 25)], 0)
    ensures Reading(k, t + 2, pre, o, 8)
  {
    hide At, Reading, Extend, Supply, WordBytes;
    OutCount(k, t, Core(13, IDLE_WORD, y, 0, true, rep), v + [Run(true, 23)], pre, o);
    ExtendLast(v, true, 23, 1);
    Plain(k, t + 1, Core(14, IDLE_WORD, WordBytes(word)[0], 0, true, rep), v + [Run(true, 24)], pre, o, 8);
    ExtendLast(v, true, 24, 1);
  }

  lemma FirstWordStays(k: Track, t: nat, pre: seq<u32>, o: nat)
    requires Reading(k, t, pre, o, 0) && Supply(k, pre, o, t) != []
    ensures forall u {:trigger Supply(k, pre, o, u)} :: t <= u <= t + 2 ==>
      Supply(k, pre, o, u) != [] && Supply(k, pre, o, u)[0] == Supply(k, pre, o, t)[0]
  {
    hide Hist, State, Position;
    SupplyGrows(k, t, pre, o);
    SupplyGrows(k, t + 1, pre, o);
    forall u | t <= u <= t + 2
      ensures Supply(k, pre, o, u) != [] && Supply(k, pre, o, u)[0] == Supply(k, pre, o, t)[0]
    {
      assert u == t || u == t + 1 || u == t + 2;
    }
  }

  /** The cutout state machine signals its end `gap` cycles after time `t`. */
  ghost predicate CutoutAfter(k: Track, t: nat, gap: nat) {
    k.env(t + gap).cutoutOver && forall u :: t <= u < t + gap ==> !k.env(u).cutoutOver
  }

  ghost predicate CutoutEnds(k: Track, t: nat) { exists gap :: CutoutAfter(k, t, gap) }

  ghost predicate CutoutsEnd(k: Track) { forall t :: CutoutEnds(k, t) }

  /** `wait 1 irq 5`. */
  lemma {:induction false} Wait(k: Track, t: nat, core: Core, v: seq<Run>, h: nat, gap: nat, pre: seq<u32>, o: nat, c: nat)
    requires core.pc == 31 && core.pin && At(k, t, core, v + [Run(true, h)], 0) && Reading(k, t, pre, o, c)
    requires CutoutAfter(k, t, gap)
    ensures At(k, t + gap + 1, core.(pc := 0), v + [Run(true, h + gap + 1)], 0) && Reading(k, t + gap + 1, pre, o, c)
    decreases gap
  {
    hide State, Hist, Supply, Refill, Execute, Cycle, Position, Extend;
    var s := State(k, t);
    var s0 := s.(fifo := s.fifo + k.env(t).arrive);
    ExtendLast(v, true, h, 1);
    if gap == 0 {
      WaitExecute(s0, true);
      SamePosition(s, core.(pc := 0), Supply(k, pre, o, t), c);
      ExecuteEnds(k, t, s.(core := core.(pc := 0)), v + [Run(true, h)], pre, o, c);
    } else {
      WaitExecute(s0, false);
      ExecuteEnds(k, t, s, v + [Run(true, h)], pre, o, c);
      Wait(k, t + 1, core, v, h + 1, gap - 1, pre, o, c);
    }
  }

  lemma WaitExecute(s: Sm, over: bool)
    requires s.core.pc == 31 && s.delay == 0 && s.shifted <= 32
    ensures Execute(s, over) == if over then s.(core := s.core.(pc := 0)) else s
  {
  }

  /** The packet end bit, the cutout and the next frame's preamble count. */
  lemma EndBit(k: Track, t: nat, rep: seq<u32>, w: seq<Run>, gap: nat, pre: seq<u32>, o: nat, c: nat)
    requires At(k, t, Core(27, 8, 0xFFFF_FFFF, 0, true, rep), w + [Run(true, 27)], 0) && Reading(k, t, pre, o, c)
    requires CutoutAfter(k, t + 45, gap)
    ensures At(k, t + 47 + gap, Core(1, 8, 15, 0, true, rep), AfterBit(w, true) + [Run(true, 16 + gap)], 0)
    ensures Reading(k, t + 47 + gap, pre, o, c)
  {
    hide At, Reading;
    Plain(k, t, Core(27, 8, 0xFFFF_FFFF, 0, true, rep), w + [Run(true, 27)], pre, o, c);
    ExtendLast(w, true, 27, 2);
    Plain(k, t + 2, Core(28, 8, 0xFFFF_FFFF, 0, true, rep), w + [Run(true, 29)], pre, o, c);
    var v := AfterBit(w, true);
    assert Extend(w + [Run(true, 29)], false, 29) == v;
    hide Extend;
    Cutout(k, t + 31, rep, v, gap, pre, o, c);
  }

  lemma Cutout(k: Track, t: nat, rep: seq<u32>, v: seq<Run>, gap: nat, pre: seq<u32>, o: nat, c: nat)
    requires EndsLow(v) && At(k, t, Core(29, 8, 0xFFFF_FFFF, 0, false, rep), v, 0) && Reading(k, t, pre, o, c)
    requires CutoutAfter(k, t + 14, gap)
    ensures At(k, t + 16 + gap, Core(1, 8, 15, 0, true, rep), v + [Run(true, 16 + gap)], 0)
    ensures Reading(k, t + 16 + gap, pre, o, c)
  {
    hide At, Reading, CutoutAfter;
    assert Extend(v, true, 13) == v + [Run(true, 13)];
    hide Extend;
    Plain(k, t, Core(29, 8, 0xFFFF_FFFF, 0, false, rep), v, pre, o, c);
    Plain(k, t + 13, Core(30, 8, 0xFFFF_FFFF, 0, true, rep), v + [Run(true, 13)], pre, o, c);
    ExtendLast(v, true, 13, 1);
    var c31 := Core(31, 8, 0xFFFF_FFFF, 0, true, rep);
    Wait(k, t + 14, c31, v, 14, gap, pre, o, c);
    assert c31.(pc := 0) == Core(0, 8, 0xFFFF_FFFF, 0, true, rep);
    Plain(k, t + 15 + gap, Core(0, 8, 0xFFFF_FFFF, 0, true, rep), v + [Run(true, 15 + gap)], pre, o, c);
    ExtendLast(v, true, 15 + gap, 1);
  }

  // ---- the stream ------------------------------------------------------------

  /** What one frame carries: the next packet of the stream, or the idle packet. */
  datatype Frame = Idle | Carrying(data: seq<u8>)

  const IDLE_DATA: seq<u8> := [0xFF, 0x00]

  function Data(f: Frame): seq<u8> { if f.Idle? then IDLE_DATA else f.data }

  /** A frame's bits after the first preamble bit: 15 more ones, each byte (checksum included) behind a
      zero bit, and a one bit to end it. */
  function FrameBits(f: Frame): seq<bool> { Ones(15) + Framed(P.Sealed(Data(f))) + [true] }

  /** The waveform after one more frame: the first preamble bit's high half-wave continues the cutout's
      level, everything after it is exact, and the next cutout's `gap` follows. */
  function FrameWave(w: seq<Run>, f: Frame, gap: nat): seq<Run> {
    Extend(w, true, 29) + [Run(false, 29)] + Halves(FrameBits(f)) + [Run(true, 16 + gap)]
  }

  ghost predicate WellFormed(d: seq<u8>) { 1 <= |d| <= 5 }

  ghost predicate AllWellFormed(ps: seq<seq<u8>>) { forall i :: 0 <= i < |ps| ==> WellFormed(ps[i]) }

  function EncodeAll(ps: seq<seq<u8>>): seq<u32>
    requires AllWellFormed(ps)
  {
    if ps == [] then [] else P.Encoded(ps[0]) + EncodeAll(ps[1..])
  }

  lemma {:induction false} EncodeAllConcat(a: seq<seq<u8>>, b: seq<seq<u8>>)
    requires AllWellFormed(a) && AllWellFormed(b)
    ensures AllWellFormed(a + b) && EncodeAll(a + b) == EncodeAll(a) + EncodeAll(b)
  {
    hide P.Encoded;
    if a == [] {
      assert a + b == b;
    } else {
      EncodeAllConcat(a[1..], b);
      assert (a + b)[1..] == a[1..] + b;
      Associative(P.Encoded(a[0]), EncodeAll(a[1..]), EncodeAll(b));
    }
  }

  /** The host puts the encoded packets `ps`, in order, into the FIFO, at whatever pace. */
  ghost predicate HostSends(k: Track, ps: seq<seq<u8>>) {
    AllWellFormed(ps) && forall t :: Hist(k, t) <= EncodeAll(ps)
  }

  /** How long after its pull the machine comes to the second word of a packet of three bytes or more: after the
      byte count, the first three bytes and the next separator. */
  function Deadline(d: seq<u8>): nat
    requires 3 <= |d|
  {
    119 + Duration(Framed(d[..3]))
  }

  /** If the pull that ends at time `u` takes packet `j` and that has a second word, it comes in by its deadline. */
  ghost predicate InTime(k: Track, ps: seq<seq<u8>>, j: nat, u: nat)
    requires AllWellFormed(ps)
  {
    j < |ps| && 3 <= |ps[j]| && |EncodeAll(ps[..j])| < |Hist(k, u)|
    ==> |EncodeAll(ps[..j])| + 2 <= |Hist(k, u + Deadline(ps[j]))|
  }

  /** The shortest deadline, 3.7 ms. */
  const SLACK: nat := 1859

  /** If packet `j` has begun to come in by `t` and the FIFO is empty then, the rest comes in within the slack. */
  ghost predicate Follows(k: Track, ps: seq<seq<u8>>, t: nat, j: nat)
    requires AllWellFormed(ps)
  {
    j < |ps| && |EncodeAll(ps[..j])| < |Hist(k, t)| && State(k, t).fifo == []
    ==> |EncodeAll(ps[..j + 1])| <= |Hist(k, t + SLACK)|
  }

  /** The host may stop between packets for as long as it likes, and between the words of one while the FIFO has
      words in it; seeing it empty, it puts the rest of a packet it has begun within the slack. */
  ghost predicate Prompt(k: Track, ps: seq<seq<u8>>)
    requires AllWellFormed(ps)
  {
    forall t: nat, j: nat :: Follows(k, ps, t, j)
  }

  /** A packet's words come in within the slack of each other. */
  ghost predicate Together(k: Track, ps: seq<seq<u8>>, t: nat, j: nat)
    requires AllWellFormed(ps)
  {
    j < |ps| && |EncodeAll(ps[..j])| < |Hist(k, t)| ==> |EncodeAll(ps[..j + 1])| <= |Hist(k, t + SLACK)|
  }

  /** A host that does not look at the FIFO is prompt if it puts each packet's words within the slack. */
  lemma PacedIsPrompt(k: Track, ps: seq<seq<u8>>)
    requires AllWellFormed(ps) && forall t: nat, j: nat :: Together(k, ps, t, j)
    ensures Prompt(k, ps)
  {
    hide State, Hist, EncodeAll;
    forall t: nat, j: nat
      ensures Follows(k, ps, t, j)
    {
      assert Together(k, ps, t, j);
    }
  }

  lemma {:induction false} DurationAtLeast(bits: seq<bool>)
    ensures 58 * |bits| <= Duration(bits)
  {
    if bits != [] {
      DurationAtLeast(bits[1..]);
    }
  }

  lemma {:induction false} FramedAtLeast(bytes: seq<u8>)
    ensures 580 * |bytes| <= Duration(Framed(bytes))
  {
    hide ByteBits;
    if bytes == [] {
      NoBytes([]);
    } else {
      var n := |bytes| - 1;
      FramedAtLeast(bytes[..n]);
      FramedMore([], bytes[..n], bytes[n]);
      DurationAtLeast(ByteBits(bytes[n]));
      assert bytes[..n] + [bytes[n]] == bytes;
    }
  }

  lemma DeadlineAtLeast(d: seq<u8>)
    requires 3 <= |d|
    ensures SLACK <= Deadline(d)
  {
    hide Duration, Framed;
    FramedAtLeast(d[..3]);
  }

  lemma {:induction false} HistGrows(k: Track, t: nat, t2: nat)
    requires t <= t2
    ensures |Hist(k, t)| <= |Hist(k, t2)|
    decreases t2 - t
  {
    if t < t2 {
      HistGrows(k, t, t2 - 1);
    }
  }

  /** A prompt host keeps the deadline of a pull that leaves the FIFO empty. */
  lemma PromptInTime(k: Track, ps: seq<seq<u8>>, j: nat, u: nat)
    requires AllWellFormed(ps) && Prompt(k, ps)
    requires j < |ps| && |Hist(k, u)| == |EncodeAll(ps[..j])| + 1 ==> State(k, u).fifo == []
    ensures InTime(k, ps, j, u)
  {
    hide State, Hist, EncodeAll, Duration, Framed;
    if j < |ps| && 3 <= |ps[j]| && |EncodeAll(ps[..j])| < |Hist(k, u)| {
      DeadlineAtLeast(ps[j]);
      WordsPassed(ps, j);
      assert WellFormed(ps[j]);
      hide Deadline;
      assert Follows(k, ps, u, j);
      HistGrows(k, u, u + Deadline(ps[j]));
      HistGrows(k, u + SLACK, u + Deadline(ps[j]));
    }
  }

  /** Any words that begin with an encoded packet begin with its byte count, its bytes and its checksum. */
  lemma EncodedCarries(d: seq<u8>, all: seq<u32>)
    requires WellFormed(d) && P.Encoded(d) <= all
    ensures |P.Encoded(d)| == (|d| + 5) / 4
    ensures all != [] && WordBytes(all[0])[0] == |d| + 1 && Carries(all, 1, P.Sealed(d))
  {
    var bs := [|d| + 1] + P.Sealed(d);
    hide WordBytes, PackWords, P.Checksum;
    forall m | 0 <= m < |bs|
      ensures m < 4 * |all| && ByteIn(all, m) == bs[m]
    {
      PackedByte(bs, m);
      assert PackWords(bs)[m / 4] == all[m / 4];
    }
    assert ByteIn(all, 0) == bs[0];
    forall j | 0 <= j < |P.Sealed(d)|
      ensures ByteIn(all, 1 + j) == P.Sealed(d)[j]
    {
      assert ByteIn(all, 1 + j) == bs[1 + j];
    }
  }

  lemma IdleEncoded()
    ensures P.Encoded(IDLE_DATA) == [IDLE_WORD]
  {
    assert P.Checksum([0xFF]) == 0xFF by {
      assert [0xFF][..0] == [];
      P.XorZero(0xFF);
    }
    assert P.Checksum(IDLE_DATA) == 0xFF by {
      assert IDLE_DATA[..1] == [0xFF];
      P.XorZero(0xFF);
    }
    var bs: seq<u8> := [3, 0xFF, 0, 0xFF];
    assert [3] + P.Sealed(IDLE_DATA) == bs;
    assert PackWords(bs) == [WordAt(bs, 0)];
  }

  lemma {:induction false} LowAfterOnes(w: seq<Run>, n: nat)
    ensures EndsLow(w + [Run(false, 29)] + Halves(Ones(n)))
    decreases n
  {
    if n != 0 {
      LowAfterOnes(w + [Run(false, 29), Run(true, 29)], n - 1);
      var ones := [Run(true, 29), Run(false, 29)];
      assert Ones(n) == [true] + Ones(n - 1);
      assert w + [Run(false, 29), Run(true, 29)] + [Run(false, 29)] == w + [Run(false, 29)] + ones;
      Associative(w + [Run(false, 29)], ones, Halves(Ones(n - 1)));
    }
  }

  /** The waveform once a frame's preamble has gone out. */
  function AfterPreamble(w: seq<Run>): seq<Run> { Extend(w, true, 29) + [Run(false, 29)] + Halves(Ones(15)) }

  /** A frame up to its pull. */
  lemma FrameHead(k: Track, t: nat, x: u32, pin: bool, rep: seq<u32>, w: seq<Run>, pre: seq<u32>, o: nat, c: nat)
    requires At(k, t, Core(1, x, 15, 0, pin, rep), w, 0) && Reading(k, t, pre, o, c)
    ensures At(k, t + 948, Core(10, IDLE_WORD, 0xFFFF_FFFF, IDLE_WORD, true, rep), AfterPreamble(w) + [Run(true, 20)], 0)
    ensures Reading(k, t + 948, pre, o, c)
  {
    hide At, Reading, Extend, Halves, Ones, EndsLow;
    PreambleBit(k, t, x, 15, pin, rep, w, pre, o, c);
    var v0 := Extend(w, true, 29);
    Preamble(k, t + 58, x, 14, rep, v0, pre, o, c);
    LowAfterOnes(v0, 15);
    BuildIdle(k, t + 928, x, 0xFFFF_FFFF, rep, AfterPreamble(w), pre, o, c);
  }

  /** A frame from its pull on: `f`'s bytes are read off the supply and go out bit by bit. */
  lemma FrameTail(k: Track, t: nat, rep: seq<u32>, v: seq<Run>, pre: seq<u32>, o: nat, f: Frame, all: seq<u32>)
      returns (t2: nat, gap: nat)
    requires At(k, t, Core(11, IDLE_WORD, 0xFFFF_FFFF, IDLE_WORD, true, rep), v + [Run(true, 21)], 0)
    requires WellFormed(Data(f)) && P.Encoded(Data(f)) != [] && P.Encoded(Data(f)) <= all
    requires Reading(k, t, pre, o, 0) && Supply(k, pre, o, t) != [] && Supply(k, pre, o, t)[0] == P.Encoded(Data(f))[0]
    requires FedBytes(k, t + 4, pre, o, 1, P.Sealed(Data(f)), |Data(f)| + 1) && CutoutsEnd(k) && Fits(k, pre, o, all)
    ensures At(k, t2, Core(1, 8, 15, 0, true, rep + [P.Encoded(Data(f))[0]]),
      v + Halves(Framed(P.Sealed(Data(f))) + [true]) + [Run(true, 16 + gap)], 0)
    ensures Reading(k, t2, pre, o, 8 * (|Data(f)| + 2))
    ensures t2 == t + 53 + Duration(Framed(P.Sealed(Data(f)))) + gap
  {
    hide At, Reading, Extend, Halves, Framed, Supply, FedBytes, Fits, Carries, WordBytes, P.Encoded, P.Checksum, CutoutAfter, Duration;
    var bytes := P.Sealed(Data(f));
    var word := P.Encoded(Data(f))[0];
    EncodedCarries(Data(f), all);
    StartPacket(k, t, 0xFFFF_FFFF, IDLE_WORD, rep, v, pre, o);
    var t1 := Body(k, t + 4, bytes, IDLE_WORD, 0, rep + [word], v, pre, o, 1, all);
    assert CutoutEnds(k, t1 + 45);
    gap :| CutoutAfter(k, t1 + 45, gap);
    var w := v + Halves(Framed(bytes));
    EndBit(k, t1, rep + [word], w, gap, pre, o, 8 * (1 + |bytes|));
    t2 := t1 + 47 + gap;
    LastBit(v, Framed(bytes));
  }

  lemma LastBit(v: seq<Run>, bits: seq<bool>)
    ensures AfterBit(v + Halves(bits), true) == v + Halves(bits + [true])
  {
    HalvesConcat(bits, [true]);
    assert Halves([true]) == [Run(true, 29), Run(false, 29)];
    Associative(v, Halves(bits), Halves([true]));
  }

  lemma FrameWaveParts(w: seq<Run>, f: Frame, gap: nat)
    ensures AfterPreamble(w) + Halves(Framed(P.Sealed(Data(f))) + [true]) + [Run(true, 16 + gap)] == FrameWave(w, f, gap)
  {
    hide Extend, Framed, Halves, Ones;
    var body := Framed(P.Sealed(Data(f))) + [true];
    assert FrameBits(f) == Ones(15) + body;
    HalvesConcat(Ones(15), body);
    Associative(Extend(w, true, 29) + [Run(false, 29)], Halves(Ones(15)), Halves(body));
  }

  /** What the machine has sent when it is about to start a frame's preamble at time `t`. */
  ghost predicate Boundary(k: Track, t: nat, rep: seq<u32>, w: seq<Run>, off: nat) {
    exists x: u32, pin: bool, pre: seq<u32>, o: nat, c: nat ::
      BoundaryAt(k, t, rep, w, off, x, pin, pre, o, c)
  }

  ghost predicate BoundaryAt(k: Track, t: nat, rep: seq<u32>, w: seq<Run>, off: nat,
                             x: u32, pin: bool, pre: seq<u32>, o: nat, c: nat) {
    At(k, t, Core(1, x, 15, 0, pin, rep), w, 0) && Reading(k, t, pre, o, c)
    && |pre| <= (c + 31) / 32 && o + (c + 31) / 32 - |pre| == off
  }

  /** The packet a pull finds: the next of the stream if any of its words have come in, else none. */
  lemma NextPacket(k: Track, ps: seq<seq<u8>>, j: nat, t: nat)
    requires HostSends(k, ps) && j <= |ps| && |EncodeAll(ps[..j])| <= |Hist(k, t)|
    ensures var off := |EncodeAll(ps[..j])|; var all := EncodeAll(ps[j..]);
      Fits(k, [], off, all) && Hist(k, t)[off..] <= all && (Hist(k, t)[off..] != [] ==> j < |ps| && P.Encoded(ps[j]) <= all)
  {
    hide P.Encoded;
    assert ps == ps[..j] + ps[j..];
    EncodeAllConcat(ps[..j], ps[j..]);
    var off, all := |EncodeAll(ps[..j])|, EncodeAll(ps[j..]);
    forall u
      ensures Supply(k, [], off, u) <= all
    {
      assert Hist(k, u) <= EncodeAll(ps);
    }
    if j < |ps| {
      assert ps[j..][0] == ps[j];
    }
  }

  /** The pull that starts frame `f` at time `t` takes what has come in beyond the first `off` words. */
  ghost predicate Pulled(k: Track, t: nat, f: Frame, off: nat) {
    f.Idle? <==> |Hist(k, t)| == off
  }

  /** What the pull in cycle `t` finds. */
  lemma Choose(k: Track, t: nat, pre: seq<u32>, o: nat, c: nat, ps: seq<seq<u8>>, j: nat) returns (f: Frame)
    requires HostSends(k, ps) && j <= |ps| && Reading(k, t, pre, o, c) && |pre| <= (c + 31) / 32
    requires o + (c + 31) / 32 - |pre| == |EncodeAll(ps[..j])|
    ensures Ready(k, t, pre, o, c) == [] <==> f.Idle?
    ensures f.Carrying? ==> j < |ps| && f.data == ps[j]
    ensures Pulled(k, t + 1, f, |EncodeAll(ps[..j])|) && |EncodeAll(ps[..j])| <= |Hist(k, t + 1)|
    ensures f.Carrying? ==> var all := EncodeAll(ps[j..]);
      Fits(k, [], |EncodeAll(ps[..j])|, all) && Ready(k, t, pre, o, c) <= all && P.Encoded(ps[j]) <= all
  {
    hide State, Hist, Fits, EncodeAll, P.Encoded;
    UnreadWords(State(k, t), Supply(k, pre, o, t), c);
    NextSupply(k, t, pre, o, c, 0);
    NextPacket(k, ps, j, t + 1);
    f := if Ready(k, t, pre, o, c) == [] then Idle else Carrying(ps[j]);
  }

  /** The supply after the pull starts with the frame's first word. */
  lemma ChosenFits(k: Track, t: nat, f: Frame, ready: seq<u32>, pre: seq<u32>, o: nat, all: seq<u32>)
    requires Supply(k, pre, o, t) == if ready == [] then [IDLE_WORD] else ready
    requires f.Idle? <==> ready == []
    requires if f.Idle? then pre == [IDLE_WORD] && o == |Hist(k, t)| && all == [IDLE_WORD]
      else WellFormed(f.data) && Fits(k, pre, o, all) && ready <= all && P.Encoded(f.data) <= all
    ensures WellFormed(Data(f)) && P.Encoded(Data(f)) != [] && P.Encoded(Data(f)) <= all && Fits(k, pre, o, all)
    ensures Supply(k, pre, o, t)[0] == P.Encoded(Data(f))[0]
    ensures f.Idle? ==> FedFor(k, t, pre, o, 4)
  {
    IdleEncoded();
    hide Hist, P.Encoded;
    if f.Idle? {
      forall u
        ensures all <= Supply(k, pre, o, u)
      {
      }
    }
  }

  lemma NextOffset(ps: seq<seq<u8>>, j: nat, f: Frame, off: nat, pre: seq<u32>, o: nat)
    requires AllWellFormed(ps) && j <= |ps| && off == |EncodeAll(ps[..j])|
    requires if f.Idle? then |pre| == 1 && o == off else j < |ps| && f.data == ps[j] && pre == [] && o == off
    ensures var q := (8 * (|Data(f)| + 2) + 31) / 32;
      |pre| <= q && o + q - |pre| == |EncodeAll(ps[..if f.Idle? then j else j + 1])|
  {
    if f.Carrying? {
      WordsPassed(ps, j);
    }
  }

  lemma WordsPassed(ps: seq<seq<u8>>, j: nat)
    requires AllWellFormed(ps) && j < |ps|
    ensures |EncodeAll(ps[..j + 1])| == |EncodeAll(ps[..j])| + (8 * (|ps[j]| + 2) + 31) / 32
  {
    hide P.Encoded;
    var d := ps[j];
    assert WellFormed(d);
    assert |P.Encoded(d)| == (|d| + 5) / 4;
    assert ps[..j + 1] == ps[..j] + [d];
    EncodeAllConcat(ps[..j], [d]);
    assert EncodeAll([d]) == P.Encoded(d) + EncodeAll([]);
  }

  /** Every byte of a packet comes in in time if its second word does. */
  lemma FedInTime(k: Track, u: nat, pre: seq<u32>, o: nat, d: seq<u8>)
    requires 1 <= |d| <= 5 && FedFor(k, u, pre, o, 4) && (3 <= |d| ==> FedFor(k, u + Deadline(d), pre, o, 8))
    ensures FedBytes(k, u + 4, pre, o, 1, P.Sealed(d), |d| + 1)
  {
    hide State, Hist, Supply, Duration, Framed, P.Checksum;
    var bytes := P.Sealed(d);
    forall q | 0 <= q < |d| + 1
      ensures FedFor(k, u + 4 + Duration(Framed(bytes[..q])) + 115, pre, o, q + 2)
    {
      if q < 3 {
        StaysFed(k, u, u + 4 + Duration(Framed(bytes[..q])) + 115, pre, o, 4);
      } else {
        assert bytes[..3] == d[..3];
        LaterByte(bytes, 3, q);
        StaysFed(k, u + Deadline(d), u + 4 + Duration(Framed(bytes[..q])) + 115, pre, o, 8);
      }
    }
  }

  lemma {:induction false} LaterByte(bytes: seq<u8>, p: nat, q: nat)
    requires p <= q <= |bytes|
    ensures Duration(Framed(bytes[..p])) <= Duration(Framed(bytes[..q]))
    decreases q
  {
    hide Duration, Framed, ByteBits;
    if p < q {
      LaterByte(bytes, p, q - 1);
      assert bytes[..q] == bytes[..q - 1] + [bytes[q - 1]];
      FramedMore([], bytes[..q - 1], bytes[q - 1]);
    }
  }

  /** A frame up to and with its pull: the next packet of the stream, or idle exactly when nothing has come in
      beyond what was sent. */
  lemma FrameStart(k: Track, t: nat, rep: seq<u32>, w: seq<Run>, ps: seq<seq<u8>>, j: nat)
      returns (f: Frame, pre: seq<u32>, o: nat, all: seq<u32>)
    requires HostSends(k, ps) && j <= |ps| && Boundary(k, t, rep, w, |EncodeAll(ps[..j])|)
    ensures f.Carrying? ==> j < |ps| && f.data == ps[j]
    ensures WellFormed(Data(f)) && P.Encoded(Data(f)) != [] && P.Encoded(Data(f)) <= all && Fits(k, pre, o, all)
    ensures Pulled(k, t + 949, f, |EncodeAll(ps[..j])|)
    ensures o == |EncodeAll(ps[..j])| <= |Hist(k, t + 949)| && |pre| == (if f.Idle? then 1 else 0)
    ensures At(k, t + 949, Core(11, IDLE_WORD, 0xFFFF_FFFF, IDLE_WORD, true, rep), AfterPreamble(w) + [Run(true, 21)], 0)
    ensures Reading(k, t + 949, pre, o, 0)
    ensures Supply(k, pre, o, t + 949) != [] && Supply(k, pre, o, t + 949)[0] == P.Encoded(Data(f))[0]
  {
    hide At, Supply, FedFor, Fits, Ready, P.Encoded, EncodeAll, Hist, State, Position, AfterPreamble;
    var off := |EncodeAll(ps[..j])|;
    var x: u32, pin: bool, pre0: seq<u32>, o0: nat, c: nat :| BoundaryAt(k, t, rep, w, off, x, pin, pre0, o0, c);
    FrameHead(k, t, x, pin, rep, w, pre0, o0, c);
    var core := Core(10, IDLE_WORD, 0xFFFF_FFFF, IDLE_WORD, true, rep);
    pre, o := Pull(k, t + 948, core, AfterPreamble(w) + [Run(true, 20)], pre0, o0, c);
    ExtendLast(AfterPreamble(w), true, 20, 1);
    f := Choose(k, t + 948, pre0, o0, c, ps, j);
    all := if f.Idle? then [IDLE_WORD] else EncodeAll(ps[j..]);
    ChosenFits(k, t + 949, f, Ready(k, t + 948, pre0, o0, c), pre, o, all);
  }

  /** One frame: the next packet of the stream, or idle exactly when nothing has come in beyond what was
      sent; if its second word makes its deadline, the waveform is exact and the machine ends ready for the
      next frame. */
  lemma OneFrame(k: Track, t: nat, rep: seq<u32>, w: seq<Run>, ps: seq<seq<u8>>, j: nat)
      returns (f: Frame, gap: nat, t2: nat)
    requires HostSends(k, ps) && CutoutsEnd(k) && j <= |ps| && Boundary(k, t, rep, w, |EncodeAll(ps[..j])|)
    requires InTime(k, ps, j, t + 949)
    ensures f.Carrying? ==> j < |ps| && f.data == ps[j]
    ensures WellFormed(Data(f)) && P.Encoded(Data(f)) != []
    ensures var jNext := if f.Idle? then j else j + 1;
      Boundary(k, t2, rep + [FirstWord(f)], FrameWave(w, f, gap), |EncodeAll(ps[..jNext])|)
    ensures Pulled(k, t + 949, f, |EncodeAll(ps[..j])|)
    ensures t2 == t + 1002 + Duration(Framed(P.Sealed(Data(f)))) + gap
  {
    hide At, Halves, Framed, Fits, P.Encoded, P.Checksum, EncodeAll, CutoutsEnd, FrameWave, Duration, Hist,
      State, Position, AfterPreamble, FedBytes, Deadline;
    var pre, o, all;
    f, pre, o, all := FrameStart(k, t, rep, w, ps, j);
    FedInTime(k, t + 949, pre, o, Data(f));
    hide Supply;
    t2, gap := FrameTail(k, t + 949, rep, AfterPreamble(w), pre, o, f, all);
    FrameWaveParts(w, f, gap);
    NextOffset(ps, j, f, |EncodeAll(ps[..j])|, pre, o);
    assert BoundaryAt(k, t2, rep + [FirstWord(f)], FrameWave(w, f, gap),
      |EncodeAll(ps[..if f.Idle? then j else j + 1])|, 8, true, pre, o, 8 * (|Data(f)| + 2));
  }

  // ---- a late word -------------------------------------------------------------

  /** With the first word read and no second there, `out y, 1` waits and the pin stays high. */
  lemma {:induction false} Starved(k: Track, t: nat, core: Core, v: seq<Run>, h: nat, o: nat, n: nat)
    requires core.pc == 17 && core.pin && At(k, t, core, v + [Run(true, h)], 0) && Reading(k, t, [], o, 32)
    requires n == 0 || |Hist(k, t + n - 1)| <= o + 1
    ensures At(k, t + n, core, v + [Run(true, h + n)], 0) && Reading(k, t + n, [], o, 32)
    decreases n
  {
    hide State, Hist, Position, Extend, Execute, Supply;
    if n != 0 {
      HistGrows(k, t, t + n - 1);
      var s := State(k, t);
      EmptyOsr(k, t, o);
      StallExecute(s.(fifo := s.fifo + k.env(t).arrive), k.env(t).cutoutOver);
      ExecuteEnds(k, t, s, v + [Run(true, h)], [], o, 32);
      ExtendLast(v, true, h, 1);
      Starved(k, t + 1, core, v, h + 1, o, n - 1);
    }
  }

  lemma EmptyOsr(k: Track, t: nat, o: nat)
    requires Reading(k, t, [], o, 32) && |Hist(k, t)| <= o + 1
    ensures State(k, t).shifted == 32
  {
    var ws := Supply(k, [], o, t);
    assert |ws| == 1 && ws[1..] == [];
    hide State, Hist, Supply;
  }

  lemma StallExecute(s: Sm, over: bool)
    requires s.core.pc == 17 && s.delay == 0 && s.shifted == 32
    ensures Execute(s, over) == s
  {
  }

  /** From its pull to its second word: three bytes and a separator. */
  lemma ToSecondWord(k: Track, u: nat, rep: seq<u32>, v: seq<Run>, o: nat, d: seq<u8>, all: seq<u32>)
    requires At(k, u, Core(11, IDLE_WORD, 0xFFFF_FFFF, IDLE_WORD, true, rep), v + [Run(true, 21)], 0)
    requires WellFormed(d) && 3 <= |d| && P.Encoded(d) != [] && P.Encoded(d) <= all
    requires Reading(k, u, [], o, 0) && Supply(k, [], o, u) != [] && Supply(k, [], o, u)[0] == P.Encoded(d)[0]
    requires Fits(k, [], o, all)
    ensures At(k, u + Deadline(d), Core(17, 7, |d| - 3, |d| - 3, true, rep + [P.Encoded(d)[0]]),
      AfterBit(v + Halves(Framed(d[..3])), false) + [Run(true, 24)], 0)
    ensures Reading(k, u + Deadline(d), [], o, 32)
  {
    hide At, Extend, Halves, Framed, Fits, Carries, WordBytes, P.Encoded, P.Checksum, Duration, AfterBit, Position, Hist, State;
    var bytes, rep2 := P.Sealed(d), rep + [P.Encoded(d)[0]];
    EncodedCarries(d, all);
    StartPacket(k, u, 0xFFFF_FFFF, IDLE_WORD, rep, v, [], o);
    assert bytes[..3] == d[..3];
    forall q | 0 <= q < 3
      ensures FedFor(k, u + 4 + Duration(Framed(bytes[..q])) + 115, [], o, q + 2)
    {
      StaysFed(k, u, u + 4 + Duration(Framed(bytes[..q])) + 115, [], o, 4);
    }
    hide Supply, Reading;
    FirstBytes(k, u + 4, 3, bytes, IDLE_WORD, 0, rep2, v, [], o, 1, all);
    Separator(k, u + 4 + Duration(Framed(d[..3])), 0xFFFF_FFFF, |d| - 2, |d| - 2, rep2, v + Halves(Framed(d[..3])), [], o, 32);
  }

  /** The bits of a frame before its packet's second word is read. */
  const BITS_BEFORE: nat := 43

  /** Those bits, the preamble's first aside. */
  function Before(d: seq<u8>): seq<bool>
    requires 3 <= |d|
  {
    Ones(15) + Framed(d[..3]) + [false]
  }

  lemma BytesSplit(bytes: seq<u8>)
    requires |bytes| > 3
    ensures Framed(bytes) == Framed(bytes[..3]) + [false] + ByteBits(bytes[3]) + Framed(bytes[4..])
    ensures |Framed(bytes[..3])| == 27
  {
    hide ByteBits;
    FramedLength(bytes[..3]);
    FramedParts(bytes[..3], bytes[3..]);
    assert bytes[..3] + bytes[3..] == bytes && bytes[3..][0] == bytes[3] && bytes[3..][1..] == bytes[4..];
    assert Framed(bytes[3..]) == [false] + ByteBits(bytes[3]) + Framed(bytes[4..]);
    hide Framed;
    Associative(Framed(bytes[..3]), [false] + ByteBits(bytes[3]), Framed(bytes[4..]));
    Associative(Framed(bytes[..3]), [false], ByteBits(bytes[3]));
  }

  lemma BitsSplit(d: seq<u8>)
    requires 3 <= |d|
    ensures |FrameBits(Carrying(d))| > BITS_BEFORE && FrameBits(Carrying(d))[..BITS_BEFORE] == Before(d)
    ensures FrameBits(Carrying(d))[BITS_BEFORE] == ByteBits(P.Sealed(d)[3])[0]
  {
    hide ByteBits, P.Checksum, Framed, Ones;
    var bytes := P.Sealed(d);
    assert bytes[..3] == d[..3];
    BytesSplit(bytes);
    OnesLength(15);
    var rest := ByteBits(bytes[3]) + Framed(bytes[4..]) + [true];
    assert FrameBits(Carrying(d)) == Before(d) + rest;
    assert |Before(d)| == BITS_BEFORE;
  }

  lemma WaveBefore(w: seq<Run>, d: seq<u8>)
    requires 3 <= |d|
    ensures AfterBit(AfterPreamble(w) + Halves(Framed(d[..3])), false)
      == Extend(w, true, 29) + [Run(false, 29)] + Halves(Before(d))
  {
    hide Extend, Framed, Ones, Halves;
    var head, v := Framed(d[..3]), Extend(w, true, 29) + [Run(false, 29)];
    HalvesConcat(Ones(15) + head, [false]);
    HalvesConcat(Ones(15), head);
    HalfZero();
    Associative(v, Halves(Ones(15)), Halves(head));
    Associative(v, Halves(Ones(15)) + Halves(head), Halves([false]));
  }

  lemma HalfZero()
    ensures Halves([false]) == [Run(true, 58), Run(false, 58)]
  {
    assert [false][1..] == [];
  }

  lemma {:induction false} OnesLength(n: nat)
    ensures |Ones(n)| == n
  {
    if n != 0 {
      OnesLength(n - 1);
    }
  }

  lemma {:induction false} FramedLength(bytes: seq<u8>)
    ensures |Framed(bytes)| == 9 * |bytes|
  {
    if bytes != [] {
      FramedLength(bytes[1..]);
    }
  }

  lemma {:induction false} FramedParts(a: seq<u8>, b: seq<u8>)
    ensures Framed(a + b) == Framed(a) + Framed(b)
    decreases |b|
  {
    hide ByteBits, Framed;
    if b == [] {
      NoBytes([]);
      assert a + b == a;
    } else {
      var n := |b| - 1;
      FramedParts(a, b[..n]);
      FramedNext(a + b[..n], b[n]);
      FramedNext(b[..n], b[n]);
      assert a + b[..n] + [b[n]] == a + b && b[..n] + [b[n]] == b;
    }
  }

  /** The frame's first 44 bits and the start of the next, the last of the 44 held high for `late` cycles more. */
  function LateWave(w: seq<Run>, bits: seq<bool>, late: nat): seq<Run>
    requires |bits| > BITS_BEFORE
  {
    var b := bits[BITS_BEFORE];
    Extend(w, true, 29) + [Run(false, 29)] + Halves(bits[..BITS_BEFORE])
      + [Run(true, Half(b) + late), Run(false, Half(b)), Run(true, 24)]
  }

  lemma WaveAt(k: Track, t: nat, core: Core, wave: seq<Run>)
    requires At(k, t, core, wave, 0)
    ensures State(k, t).wave == wave
  {
    hide State;
  }

  /** A packet whose second word comes `late` cycles after its deadline: the frame is exact up to the bit that
      the word begins with, and that bit's high half-wave is `late` cycles too long. The word is in time if and
      only if `late` is zero. */
  lemma LateWord(k: Track, t: nat, rep: seq<u32>, w: seq<Run>, ps: seq<seq<u8>>, j: nat, late: nat)
    requires HostSends(k, ps) && j < |ps| && 3 <= |ps[j]| && Boundary(k, t, rep, w, |EncodeAll(ps[..j])|)
    requires |EncodeAll(ps[..j])| < |Hist(k, t + 949)|
    requires var due, words := t + 949 + Deadline(ps[j]), |EncodeAll(ps[..j])| + 2;
      (late == 0 || |Hist(k, due + late - 1)| < words) && words <= |Hist(k, due + late)|
    ensures InTime(k, ps, j, t + 949) <==> late == 0
    ensures var bits := FrameBits(Carrying(ps[j]));
      |bits| > BITS_BEFORE
      && State(k, t + 949 + Deadline(ps[j]) + late + 2 * Half(bits[BITS_BEFORE])).wave == LateWave(w, bits, late)
  {
    hide At, Halves, Framed, Fits, P.Encoded, P.Checksum, EncodeAll, Duration, Hist, State, Position, AfterPreamble,
      Deadline, FrameBits, Before, Extend, ByteBits, Half, StreamBit, KeptFed;
    var d, u := ps[j], t + 949;
    var f, pre, o, all := FrameStart(k, t, rep, w, ps, j);
    ToSecondWord(k, u, rep, AfterPreamble(w), o, d, all);
    var due := u + Deadline(d);
    var v := AfterBit(AfterPreamble(w) + Halves(Framed(d[..3])), false);
    var core := Core(17, 7, |d| - 3, |d| - 3, true, rep + [P.Encoded(d)[0]]);
    Starved(k, due, core, v, 24, o, late);
    BitsSplit(d);
    WaveBefore(w, d);
    EncodedCarries(d, all);
    assert ByteIn(all, 1 + 3) == P.Sealed(d)[3];
    StreamByte(all, 4, 0);
    FittingBit(k, due + late, [], o, all, 32);
    FedByWords(k, due + late, core, v + [Run(true, 24 + late)], [], o, 32);
    var b := ByteBits(P.Sealed(d)[3])[0];
    OneBit(k, due + late, 17, 7, |d| - 3, |d| - 3, core.reported, v, late, [], o, 32, b);
    var core2 := Core(17, 6, if b then 0 else 0xFFFF_FFFF, |d| - 3, true, core.reported);
    WaveAt(k, due + late + 2 * Half(b), core2, AfterLateBit(v, b, late) + [Run(true, 24)]);
    if late > 0 {
      HistGrows(k, due, due + late - 1);
    }
  }

  /** A host that puts a packet's second word `late` cycles after its deadline. */
  function LateHost(d: seq<u8>, late: nat): Track
    requires 3 <= |d| && WellFormed(d)
  {
    var ws := P.Encoded(d);
    Track((u: nat) => Input(if u == 0 then ws[..1] else if u == 949 + Deadline(d) + late then ws[1..] else [], true))
  }

  ghost predicate PutsTwice(k: Track, a: seq<u32>, b: seq<u32>, due: nat) {
    forall u: nat :: k.env(u).arrive == if u == 0 then a else if u == due then b else []
  }

  lemma {:induction false} TwicePut(k: Track, a: seq<u32>, b: seq<u32>, due: nat, u: nat)
    requires PutsTwice(k, a, b, due) && 0 < due
    ensures Hist(k, u) == if u == 0 then [] else if u <= due then a else a + b
    decreases u
  {
    hide State;
    if u != 0 {
      TwicePut(k, a, b, due, u - 1);
      NextState(k, u - 1);
    }
  }

  lemma LateHist(d: seq<u8>, late: nat, u: nat)
    requires 3 <= |d| && WellFormed(d)
    ensures Hist(LateHost(d, late), u)
      == if u == 0 then [] else if u <= 949 + Deadline(d) + late then P.Encoded(d)[..1] else P.Encoded(d)
  {
    TwoWords(d);
    hide P.Encoded, Deadline, Hist;
    var ws := P.Encoded(d);
    TwicePut(LateHost(d, late), ws[..1], ws[1..], 949 + Deadline(d) + late, u);
    assert ws[..1] + ws[1..] == ws;
  }

  lemma TwoWords(d: seq<u8>)
    requires 3 <= |d| && WellFormed(d)
    ensures |P.Encoded(d)| == 2
  {
    EncodedCarries(d, P.Encoded(d));
  }

  /** Such a host's very first packet is stretched by as much. */
  lemma LateExample(d: seq<u8>, late: nat)
    requires 3 <= |d| && WellFormed(d) && 0 < late
    ensures var k, bits := LateHost(d, late), FrameBits(Carrying(d));
      HostSends(k, [d]) && CutoutsEnd(k) && !InTime(k, [d], 0, 950) && |bits| > BITS_BEFORE
      && State(k, 950 + Deadline(d) + late + 2 * Half(bits[BITS_BEFORE])).wave == LateWave([Run(false, 1)], bits, late)
  {
    hide P.Encoded, Deadline, Hist, State, FrameBits, LateWave, Boundary, InTime;
    var k := LateHost(d, late);
    assert EncodeAll([d]) == P.Encoded(d) by { assert [d][1..] == []; }
    TwoWords(d);
    forall u
      ensures Hist(k, u) <= EncodeAll([d])
    {
      LateHist(d, late, u);
    }
    forall t
      ensures CutoutEnds(k, t)
    {
      assert CutoutAfter(k, t, 0);
    }
    FirstBoundary(k);
    assert [d][..0] == [];
    LateHist(d, late, 950);
    LateHist(d, late, 950 + Deadline(d) + late - 1);
    LateHist(d, late, 950 + Deadline(d) + late);
    LateWord(k, 1, [], [Run(false, 1)], [d], 0, late);
  }

  /** The waveform of a list of frames since reset, each with the cutout gap that ended it. */
  function Waveform(frames: seq<Frame>, gaps: seq<nat>): seq<Run>
    requires |frames| == |gaps|
  {
    if frames == [] then [Run(false, 1)]
    else FrameWave(Waveform(frames[..|frames| - 1], gaps[..|frames| - 1]), frames[|frames| - 1], gaps[|frames| - 1])
  }

  /** The stream's packets among the frames, in order. */
  function Packets(frames: seq<Frame>): seq<seq<u8>> {
    if frames == [] then []
    else
      var f := frames[|frames| - 1];
      Packets(frames[..|frames| - 1]) + if f.Idle? then [] else [f.data]
  }

  function FirstWord(f: Frame): u32 {
    if |Data(f)| < 6 && P.Encoded(Data(f)) != [] then P.Encoded(Data(f))[0] else 0
  }

  /** The first word of each frame. */
  function Reports(frames: seq<Frame>): seq<u32> {
    if frames == [] then [] else Reports(frames[..|frames| - 1]) + [FirstWord(frames[|frames| - 1])]
  }

  /** Frame `i` started at `starts[i]`, was idle exactly when nothing was waiting at its pull, and took its
      exact time and its cutout's. */
  ghost predicate Timed(k: Track, ps: seq<seq<u8>>, frames: seq<Frame>, gaps: seq<nat>, starts: seq<nat>, i: nat)
    requires i < |frames| == |gaps| == |starts| - 1 && AllWellFormed(ps)
  {
    var sent := Packets(frames[..i]);
    && WellFormed(Data(frames[i]))
    && sent <= ps && Pulled(k, starts[i] + 949, frames[i], |EncodeAll(ps[..|sent|])|)
    && starts[i + 1] == starts[i] + 1002 + Duration(Framed(P.Sealed(Data(frames[i])))) + gaps[i]
  }

  lemma StillTimed(k: Track, ps: seq<seq<u8>>, frames: seq<Frame>, gaps: seq<nat>, starts: seq<nat>, f: Frame, gap: nat, t: nat, i: nat)
    requires i < |frames| == |gaps| == |starts| - 1 && AllWellFormed(ps) && Timed(k, ps, frames, gaps, starts, i)
    ensures Timed(k, ps, frames + [f], gaps + [gap], starts + [t], i)
  {
    hide EncodeAll, Duration, Framed, P.Checksum, Pulled, Packets;
    assert (frames + [f])[..i] == frames[..i];
  }

  lemma NewlyTimed(k: Track, ps: seq<seq<u8>>, frames: seq<Frame>, gaps: seq<nat>, starts: seq<nat>, f: Frame, gap: nat, t: nat)
    requires |frames| == |gaps| == |starts| - 1 && AllWellFormed(ps) && Packets(frames) <= ps
    requires WellFormed(Data(f)) && Pulled(k, starts[|frames|] + 949, f, |EncodeAll(ps[..|Packets(frames)|])|)
    requires t == starts[|frames|] + 1002 + Duration(Framed(P.Sealed(Data(f)))) + gap
    ensures Timed(k, ps, frames + [f], gaps + [gap], starts + [t], |frames|)
  {
    hide EncodeAll, Duration, Framed, P.Checksum, Pulled, Packets;
    assert (frames + [f])[..|frames|] == frames;
  }

  /** A prompt host makes every deadline. */
  lemma PullsInTime(k: Track, t: nat, rep: seq<u32>, w: seq<Run>, ps: seq<seq<u8>>, j: nat)
    requires HostSends(k, ps) && Prompt(k, ps) && j <= |ps| && Boundary(k, t, rep, w, |EncodeAll(ps[..j])|)
    ensures InTime(k, ps, j, t + 949)
  {
    hide P.Encoded, EncodeAll, Hist, State, Position, AfterPreamble, InTime, Prompt, Boundary;
    var f, pre, o, all := FrameStart(k, t, rep, w, ps, j);
    if j < |ps| && |Hist(k, t + 949)| == o + 1 {
      FreshWord(k, t + 949, Core(11, IDLE_WORD, 0xFFFF_FFFF, IDLE_WORD, true, rep), AfterPreamble(w) + [Run(true, 21)], pre, o);
    }
    PromptInTime(k, ps, j, t + 949);
  }

  /** From reset, for any stream of packets from a prompt host: after `n` frames the pin has carried exactly the frames' waveform, the frames carry a prefix of the stream, none lost,
      repeated or cut, idle frames go out exactly when nothing is waiting, and the RX FIFO has been
      offered each frame's first word. */
  lemma {:induction false} StreamOfPackets(k: Track, ps: seq<seq<u8>>, n: nat)
      returns (frames: seq<Frame>, gaps: seq<nat>, starts: seq<nat>)
    requires HostSends(k, ps) && Prompt(k, ps) && CutoutsEnd(k)
    ensures |frames| == |gaps| == n && |starts| == n + 1
    ensures Packets(frames) <= ps
    ensures State(k, starts[n]).wave == Waveform(frames, gaps)
    ensures State(k, starts[n]).core.reported == Reports(frames)
    ensures forall i :: 0 <= i < n ==> Timed(k, ps, frames, gaps, starts, i)
    ensures Boundary(k, starts[n], Reports(frames), Waveform(frames, gaps), |EncodeAll(ps[..|Packets(frames)|])|)
    decreases n
  {
    hide State, Hist, EncodeAll, P.Encoded, P.Checksum, FrameWave, Duration, Framed, Pulled, WellFormed, Timed, Boundary, Prompt, InTime;
    if n == 0 {
      frames, gaps, starts := [], [], [1];
      FirstBoundary(k);
      EmptyStream();
      assert ps[..0] == [];
    } else {
      var frames0, gaps0, starts0 := StreamOfPackets(k, ps, n - 1);
      var j := |Packets(frames0)|;
      PullsInTime(k, starts0[n - 1], Reports(frames0), Waveform(frames0, gaps0), ps, j);
      var f, gap, t2 := OneFrame(k, starts0[n - 1], Reports(frames0), Waveform(frames0, gaps0), ps, j);
      frames, gaps, starts := frames0 + [f], gaps0 + [gap], starts0 + [t2];
      forall i | 0 <= i < n
        ensures Timed(k, ps, frames, gaps, starts, i)
      {
        if i < n - 1 {
          StillTimed(k, ps, frames0, gaps0, starts0, f, gap, t2, i);
        } else {
          NewlyTimed(k, ps, frames0, gaps0, starts0, f, gap, t2);
        }
      }
      OneMore(frames0, gaps0, f, gap, ps, j);
      BoundaryState(k, t2, Reports(frames), Waveform(frames, gaps), |EncodeAll(ps[..|Packets(frames)|])|);
    }
  }

  lemma OneMore(frames: seq<Frame>, gaps: seq<nat>, f: Frame, gap: nat, ps: seq<seq<u8>>, j: nat)
    requires |frames| == |gaps| && Packets(frames) <= ps && j == |Packets(frames)|
    requires f.Carrying? ==> j < |ps| && f.data == ps[j]
    ensures Packets(frames + [f]) <= ps && |Packets(frames + [f])| == if f.Idle? then j else j + 1
    ensures Waveform(frames + [f], gaps + [gap]) == FrameWave(Waveform(frames, gaps), f, gap)
    ensures Reports(frames + [f]) == Reports(frames) + [FirstWord(f)]
  {
    hide FrameWave, FirstWord;
    assert (frames + [f])[..|frames|] == frames && (gaps + [gap])[..|frames|] == gaps;
  }

  lemma EmptyStream()
    ensures EncodeAll([]) == []
  {
  }

  lemma FirstBoundary(k: Track)
    ensures Boundary(k, 1, [], [Run(false, 1)], 0)
    ensures State(k, 1).wave == [Run(false, 1)] && State(k, 1).core.reported == []
  {
    assert State(k, 0) == Sm(RESET_CORE, 0, 0, 32, [], []);
    assert At(k, 0, RESET_CORE, [], 0) && Reading(k, 0, [], 0, 0);
    Plain(k, 0, RESET_CORE, [], [], 0, 0);
    assert Extend([], false, 1) == [Run(false, 1)];
    assert BoundaryAt(k, 1, [], [Run(false, 1)], 0, 0, false, [], 0, 0);
  }

  lemma BoundaryState(k: Track, t: nat, rep: seq<u32>, w: seq<Run>, off: nat)
    requires Boundary(k, t, rep, w, off)
    ensures State(k, t).wave == w && State(k, t).core.reported == rep
  {
    hide State, Reading;
  }

  // ---- the receiving end -------------------------------------------------------

  /** A decoder's view of the track: a bit for each pair of half-waves, by length. */
  function ReadHalves(w: seq<Run>): seq<bool> {
    if |w| < 2 then [] else [w[0].cycles == 29 && w[1].cycles == 29] + ReadHalves(w[2..])
  }

  /** The bytes of a packet from its start bit on: a byte behind every zero bit, up to a one bit. */
  function ReadBytes(bits: seq<bool>): seq<u8> {
    if |bits| < 9 || bits[0] then [] else [FromBits(bits[1..9])] + ReadBytes(bits[9..])
  }

  function SkipOnes(bits: seq<bool>): seq<bool> {
    if bits != [] && bits[0] then SkipOnes(bits[1..]) else bits
  }

  lemma {:induction false} HalvesRead(bits: seq<bool>)
    ensures ReadHalves(Halves(bits)) == bits
  {
    if bits != [] {
      HalvesRead(bits[1..]);
      var pair := [Run(true, Half(bits[0])), Run(false, Half(bits[0]))];
      assert Halves(bits)[2..] == Halves(bits[1..]);
      assert Halves(bits)[0] == pair[0] && Halves(bits)[1] == pair[1];
    }
  }

  lemma {:induction false} FramedRead(bytes: seq<u8>)
    ensures ReadBytes(Framed(bytes) + [true]) == bytes
  {
    var bits := Framed(bytes) + [true];
    if bytes != [] {
      var b := ByteBits(bytes[0]);
      hide ByteBits, FromBits;
      assert bits == [false] + b + (Framed(bytes[1..]) + [true]);
      assert bits[1..9] == b && bits[9..] == Framed(bytes[1..]) + [true];
      ByteBack(bytes[0]);
      FramedRead(bytes[1..]);
    }
  }

  lemma {:induction false} OnesSkipped(n: nat, rest: seq<bool>)
    requires rest != [] && !rest[0]
    ensures SkipOnes(Ones(n) + rest) == rest
    decreases n
  {
    if n == 0 {
      assert Ones(0) + rest == rest;
    } else {
      assert Ones(n) == [true] + Ones(n - 1);
      assert (Ones(n) + rest)[1..] == Ones(n - 1) + rest;
      OnesSkipped(n - 1, rest);
    }
  }

  /** What a decoder reads off the track behind the preamble. */
  function Received(w: seq<Run>): seq<u8> { ReadBytes(SkipOnes(ReadHalves(w))) }

  /** A decoder reading a frame off the track gets the packet's bytes and one more, and with it every bit is set in an
      even number of bytes. */
  lemma FrameReceived(f: Frame)
    requires WellFormed(Data(f))
    ensures var r := Received(Halves(FrameBits(f)));
      |r| == |Data(f)| + 1 && r[..|Data(f)|] == Data(f) && forall k: nat :: k < 8 ==> P.CountSet(r, k) % 2 == 0
  {
    var bytes := P.Sealed(Data(f));
    hide ByteBits, P.Checksum, P.CountSet, ReadBytes, SkipOnes, Ones;
    P.ChecksumCancels(Data(f), P.Checksum(Data(f)));
    HalvesRead(FrameBits(f));
    FramedRead(bytes);
    var rest := Framed(bytes) + [true];
    assert FrameBits(f) == Ones(15) + rest;
    assert rest[0] == false by { assert Framed(bytes)[0] == false; }
    OnesSkipped(15, rest);
  }
}
