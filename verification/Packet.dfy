/** DCC packets: the static pool they come from, the instruction builders, and the words sent to the PIO. */
module Packet {
  import opened Bits

  const MAX_PACKET_DATA: nat := 6
  const PRIORITY_NORMAL: nat := 50
  const PRIORITY_EMERGENCY: nat := 100
  const BROADCAST_ADDRESS: u16 := 0xFFFF
  const NULL: int := -1

  /** The packet struct; `data` holds the bytes filled in so far. */
  datatype Packet = Packet(data: seq<u8>, address: u16, priority: nat, repeats: int, inUse: bool)

  const RESET_PACKET := Packet([], 0, PRIORITY_NORMAL, 0, true)

  function AddByte(p: Packet, b: u8): Packet {
    if |p.data| < MAX_PACKET_DATA - 1 then p.(data := p.data + [b]) else p
  }

  /** A Service Mode direct instruction: opcode and CV bits 9..8, CV bits 7..0, value. */
  function BuildSvcDirect(opcode: u8, cv: nat, value: u8): Packet
    requires opcode % 4 == 0
  {
    var wireCv := (cv + 0xFFFF) % 0x1_0000 % 0x400;
    var p := AddByte(AddByte(AddByte(RESET_PACKET, opcode + wireCv / 0x100), wireCv % 0x100), value);
    p.(address := BROADCAST_ADDRESS, priority := PRIORITY_EMERGENCY, repeats := 0)
  }

  function BuildSvcWriteByte(cv: nat, value: u8): Packet { BuildSvcDirect(0x7C, cv, value) }

  function BuildSvcVerifyByte(cv: nat, value: u8): Packet { BuildSvcDirect(0x74, cv, value) }

  /** Bit manipulation data byte 1110_DBBB. */
  function BuildSvcVerifyBit(cv: nat, bit: nat, value: bool): Packet {
    BuildSvcDirect(0x78, cv, 0xE0 + (if value then 8 else 0) + bit % 8)
  }

  /** The byte whose bits are set where just one of the two bytes has them set. */
  function Xor(a: u8, b: u8): u8 { FromBits(seq(8, k requires 0 <= k < 8 => ByteBits(a)[k] != ByteBits(b)[k])) }

  function Checksum(d: seq<u8>): u8 {
    if d == [] then 0 else Xor(Checksum(d[..|d| - 1]), d[|d| - 1])
  }

  lemma XorBits(a: u8, b: u8, k: nat)
    requires k < 8
    ensures ByteBits(Xor(a, b))[k] <==> ByteBits(a)[k] != ByteBits(b)[k]
  {
    hide ByteBits, FromBits;
    BitsBack(seq(8, i requires 0 <= i < 8 => ByteBits(a)[i] != ByteBits(b)[i]));
  }

  lemma XorZero(a: u8)
    ensures Xor(0, a) == a && Xor(a, 0) == a
  {
    ZeroBits();
    hide ByteBits, FromBits;
    assert seq(8, k requires 0 <= k < 8 => ByteBits(0)[k] != ByteBits(a)[k]) == ByteBits(a);
    assert seq(8, k requires 0 <= k < 8 => ByteBits(a)[k] != ByteBits(0)[k]) == ByteBits(a);
    ByteBack(a);
  }

  /** How many of the bytes have bit `k` set, counting from the highest bit. */
  function CountSet(d: seq<u8>, k: nat): nat
    requires k < 8
  {
    if d == [] then 0 else CountSet(d[1..], k) + if ByteBits(d[0])[k] then 1 else 0
  }

  lemma {:induction false} CountLast(d: seq<u8>, b: u8, k: nat)
    requires k < 8
    ensures CountSet(d + [b], k) == CountSet(d, k) + if ByteBits(b)[k] then 1 else 0
  {
    hide ByteBits;
    if d == [] {
      assert d + [b] == [b] && [b][1..] == [];
    } else {
      assert (d + [b])[1..] == d[1..] + [b];
      CountLast(d[1..], b, k);
    }
  }

  /** Bit by bit, the checksum is set where an odd number of the bytes are. */
  lemma {:induction false} ChecksumBits(d: seq<u8>, k: nat)
    requires k < 8
    ensures ByteBits(Checksum(d))[k] <==> CountSet(d, k) % 2 == 1
    decreases |d|
  {
    hide Xor;
    if d == [] {
      ZeroBits();
    } else {
      hide ByteBits;
      var front, b := d[..|d| - 1], d[|d| - 1];
      ChecksumBits(front, k);
      XorBits(Checksum(front), b, k);
      CountLast(front, b, k);
      assert front + [b] == d;
    }
  }

  lemma ZeroBits()
    ensures ByteBits(0) == [false, false, false, false, false, false, false, false]
  {
  }

  /** What decoders check: in a packet with its checksum every bit is set in an even number of bytes, and no other
      last byte does that. */
  lemma ChecksumCancels(d: seq<u8>, c: u8)
    ensures (forall k: nat :: k < 8 ==> CountSet(d + [c], k) % 2 == 0) <==> c == Checksum(d)
  {
    hide ByteBits, Checksum, CountSet;
    forall k: nat | k < 8
      ensures CountSet(d + [c], k) % 2 == 0 <==> ByteBits(c)[k] == ByteBits(Checksum(d))[k]
    {
      BitCancels(d, c, k);
    }
    if c != Checksum(d) {
      var k := DifferentBit(c, Checksum(d));
      assert CountSet(d + [c], k) % 2 != 0;
    }
  }

  lemma BitCancels(d: seq<u8>, c: u8, k: nat)
    requires k < 8
    ensures CountSet(d + [c], k) % 2 == 0 <==> ByteBits(c)[k] == ByteBits(Checksum(d))[k]
  {
    hide ByteBits, Checksum, CountSet;
    CountLast(d, c, k);
    ChecksumBits(d, k);
  }

  lemma DifferentBit(a: u8, b: u8) returns (k: nat)
    requires a != b
    ensures k < 8 && ByteBits(a)[k] != ByteBits(b)[k]
  {
    hide ByteBits;
    if forall i: nat :: i < 8 ==> ByteBits(a)[i] == ByteBits(b)[i] {
      assert ByteBits(a) == ByteBits(b);
      SameBits(a, b);
    }
    k :| k < 8 && ByteBits(a)[k] != ByteBits(b)[k];
  }

  /** What goes out for a packet: its bytes and their checksum. */
  function Sealed(d: seq<u8>): seq<u8> { d + [Checksum(d)] }

  /** The encoding the PIO program reads: a byte count, then the bytes, four to a word. */
  function Encoded(d: seq<u8>): (r: seq<u32>)
    requires |d| < MAX_PACKET_DATA
    ensures |r| == if d == [] then 0 else (|d| + 5) / 4
  {
    if d == [] then [] else PackWords([|d| + 1] + Sealed(d))
  }

  /** What goes into the words of a packet: the count of the bytes that follow, the packet's bytes, a byte with every bit
      set that an odd number of them have set, and zeros. */
  lemma EncodedBytes(d: seq<u8>, m: nat)
    requires 0 < |d| < MAX_PACKET_DATA && m < 4 * |Encoded(d)|
    ensures |Encoded(d)| == (|d| + 5) / 4
    ensures m == 0 ==> ByteIn(Encoded(d), m) == |d| + 1
    ensures 1 <= m <= |d| ==> ByteIn(Encoded(d), m) == d[m - 1]
    ensures m == |d| + 1 ==> forall k: nat :: k < 8 ==>
      (ByteBits(ByteIn(Encoded(d), m))[k] <==> CountSet(d, k) % 2 == 1)
    ensures |d| + 1 < m ==> ByteIn(Encoded(d), m) == 0
  {
    hide PackWords, WordBytes, Checksum, ByteBits, CountSet;
    var bs := [|d| + 1] + Sealed(d);
    if m < |bs| {
      PackedByte(bs, m);
    } else {
      PaddedByte(bs, m);
    }
    forall k: nat | k < 8
      ensures ByteBits(Checksum(d))[k] <==> CountSet(d, k) % 2 == 1
    {
      ChecksumBits(d, k);
    }
  }

  /** `b << (8 * shift)`. */
  function Place(b: u8, shift: int): u32
    requires 0 <= shift <= 3
  {
    if shift == 0 then b else if shift == 1 then b * 0x100 else if shift == 2 then b * 0x1_0000 else b * 0x100_0000
  }

  /** Placing one more byte in the word under construction. */
  lemma PlaceByte(bs: seq<u8>, b: u8, j: nat)
    requires 4 * j <= |bs| < 4 * j + 4
    ensures WordAt(bs + [b], j) == WordAt(bs, j) + Place(b, 3 - (|bs| - 4 * j))
  {
    hide ByteAt, Word, Place;
    OneMoreByte(bs, b, 4 * j);
    OneMoreByte(bs, b, 4 * j + 1);
    OneMoreByte(bs, b, 4 * j + 2);
    OneMoreByte(bs, b, 4 * j + 3);
    WordPlaces(ByteAt(bs, 4 * j), ByteAt(bs, 4 * j + 1), ByteAt(bs, 4 * j + 2), ByteAt(bs, 4 * j + 3));
    var longer := bs + [b];
    WordPlaces(ByteAt(longer, 4 * j), ByteAt(longer, 4 * j + 1), ByteAt(longer, 4 * j + 2), ByteAt(longer, 4 * j + 3));
    PlaceNone();
  }

  lemma WordPlaces(a: u8, b: u8, c: u8, d: u8)
    ensures Word(a, b, c, d) == Place(a, 3) + Place(b, 2) + Place(c, 1) + Place(d, 0)
  {
  }

  lemma PlaceNone()
    ensures Place(0, 0) == Place(0, 1) == Place(0, 2) == Place(0, 3) == 0
  {
  }

  lemma OneMoreByte(bs: seq<u8>, b: u8, m: nat)
    ensures ByteAt(bs + [b], m) == if m == |bs| then b else ByteAt(bs, m)
    ensures |bs| <= m ==> ByteAt(bs, m) == 0
  {
  }

  /** The word loop has placed the first `n` bytes of `all`: whole words flushed, the rest in `word`. */
  ghost predicate Packed(all: seq<u8>, n: nat, words: seq<u32>, word: int, shift: int)
  {
    && n <= |all|
    && 0 <= shift <= 3 && 4 * |words| + 3 - shift == n
    && words == FirstWords(all, |words|)
    && word == WordAt(all[..n], |words|)
  }

  lemma PackStart(all: seq<u8>)
    requires all != []
    ensures Packed(all, 1, [], Place(all[0], 3), 2)
  {
  }

  lemma PackStep(all: seq<u8>, n: nat, words: seq<u32>, word: u32, shift: int)
    requires Packed(all, n, words, word, shift) && n < |all|
    ensures word + Place(all[n], shift) < 0x1_0000_0000
    ensures shift == 0 ==> Packed(all, n + 1, words + [word + Place(all[n], shift)], 0, 3)
    ensures shift > 0 ==> Packed(all, n + 1, words, word + Place(all[n], shift), shift - 1)
  {
    assert all[..n + 1] == all[..n] + [all[n]];
    PlaceByte(all[..n], all[n], |words|);
    if shift == 0 {
      NextWord(all, |words|);
      var words' := words + [word + all[n]];
      assert |words'| == |words| + 1;
    }
  }

  lemma PackEnd(all: seq<u8>, words: seq<u32>, word: u32, shift: int)
    requires Packed(all, |all|, words, word, shift)
    ensures PackWords(all) == if shift < 3 then words + [word] else words
  {
    assert all[..|all|] == all;
    NextWord(all, |words|);
  }

  /** The word loop of packet_encode, over the sealed packet's bytes. */
  method PackBytes(data: seq<u8>) returns (words: seq<u32>)
    requires |data| < 0x100
    ensures words == PackWords([|data|] + data)
  {
    hide Packed, FirstWords, PackWords;
    ghost var all: seq<u8> := [|data|] + data;
    words := [];
    var word: u32 := Place(|data|, 3);
    var shift := 2;
    PackStart(all);
    for k := 0 to |data|
      invariant Packed(all, k + 1, words, word, shift)
    {
      PackStep(all, k + 1, words, word, shift);
      word := word + Place(data[k], shift);
      shift := shift - 1;
      if shift < 0 {
        words := words + [word];
        word := 0;
        shift := 3;
      }
    }
    PackEnd(all, words, word, shift);
    if shift < 3 {
      words := words + [word];
    }
  }

  class PacketPool {
    var slots: array<Packet>

    constructor (size: nat)
      ensures fresh(slots) && slots.Length == size
      ensures forall i :: 0 <= i < size ==> !slots[i].inUse
    {
      slots := new Packet[size](_ => Packet([], 0, 0, 0, false));
    }

    /** Takes the first free packet, or NULL if every packet is in use. */
    method Alloc() returns (i: int)
      modifies slots
      ensures i == NULL ==> slots[..] == old(slots[..]) && forall k :: 0 <= k < slots.Length ==> slots[k].inUse
      ensures i != NULL ==> 0 <= i < slots.Length && !old(slots[i].inUse) && slots[..] == old(slots[..])[i := RESET_PACKET]
      ensures forall k :: 0 <= k < i ==> old(slots[k].inUse)
    {
      for k := 0 to slots.Length
        invariant slots[..] == old(slots[..])
        invariant forall j :: 0 <= j < k ==> slots[j].inUse
      {
        if !slots[k].inUse {
          slots[k] := RESET_PACKET;
          return k;
        }
      }
      return NULL;
    }

    method Free(i: int)
      requires i == NULL || 0 <= i < slots.Length
      modifies slots
      ensures slots[..] == if i == NULL then old(slots[..]) else old(slots[..])[i := old(slots[i]).(inUse := false)]
    {
      if i == NULL {
        return;
      }
      slots[i] := slots[i].(inUse := false);
    }

    method AddChecksum(i: nat)
      requires i < slots.Length && 0 < |slots[i].data| < MAX_PACKET_DATA
      modifies slots
      ensures slots[..] == old(slots[..])[i := old(slots[i]).(data := Sealed(old(slots[i].data)))]
    {
      var p := slots[i];
      var checksum: u8 := 0;
      for k := 0 to |p.data|
        invariant checksum == Checksum(p.data[..k])
      {
        assert p.data[..k + 1][..k] == p.data[..k];
        checksum := Xor(checksum, p.data[k]);
      }
      assert p.data[..|p.data|] == p.data;
      slots[i] := p.(data := p.data + [checksum]);
    }

    /** packet_encode: appends the checksum and packs the bytes, flushing a partial last word. */
    method Encode(i: nat) returns (words: seq<u32>)
      requires i < slots.Length && |slots[i].data| < MAX_PACKET_DATA
      modifies slots
      ensures words == Encoded(old(slots[i].data))
      ensures slots[..] == if old(slots[i].data) == [] then old(slots[..])
                           else old(slots[..])[i := old(slots[i]).(data := Sealed(old(slots[i].data)))]
    {
      words := [];
      if |slots[i].data| == 0 {
        return;
      }
      AddChecksum(i);
      words := PackBytes(slots[i].data);
    }
  }
}
