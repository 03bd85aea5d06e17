/** Fixed-width unsigned integers, and how bytes lie in the 32-bit words a shift register reads. */
module Bits {

  type u8 = x: int | 0 <= x < 0x100
  type u16 = x: int | 0 <= x < 0x1_0000
  type u32 = x: int | 0 <= x < 0x1_0000_0000

  function Bit(b: bool): u32 { if b then 1 else 0 }

  function Pow2(n: nat): (p: nat)
    ensures 0 < p
  {
    if n == 0 then 1 else 2 * Pow2(n - 1)
  }

  /** 32-bit wrap-around. */
  function Wrap(x: int): u32 { x % 0x1_0000_0000 }

  lemma WrapSmall(x: int)
    requires 0 <= x < 0x1_0000_0000
    ensures Wrap(x) == x
  {
  }

  lemma WrapAdds(x: int, y: int)
    ensures Wrap(Wrap(x) + y) == Wrap(x + y)
  {
  }

  lemma WrapDifference(x: nat, y: nat)
    ensures Wrap(Wrap(x) - Wrap(y)) == Wrap(x - y)
  {
    hide Wrap;
    var low: int := Wrap(y);
    WrapAdds(x, -low);
    WrapAdds(y, x - y - low);
    WrapAdds(low, x - y - low);
  }

  /** What is left of `v` once the bit of weight `p` is taken out. */
  function Drop(v: nat, p: nat): nat { if p <= v then v - p else v }

  /** The bits of a byte, most significant first. */
  function ByteBits(b: u8): (r: seq<bool>)
    ensures |r| == 8
  {
    var v7 := Drop(b, 128);
    var v6 := Drop(v7, 64);
    var v5 := Drop(v6, 32);
    var v4 := Drop(v5, 16);
    var v3 := Drop(v4, 8);
    var v2 := Drop(v3, 4);
    var v1 := Drop(v2, 2);
    [128 <= b, 64 <= v7, 32 <= v6, 16 <= v5, 8 <= v4, 4 <= v3, 2 <= v2, 1 <= v1]
  }

  /** The number a list of bits denotes, most significant first. */
  function Value(s: seq<bool>): nat
  {
    if s == [] then 0 else 2 * Value(s[..|s| - 1]) + Bit(s[|s| - 1])
  }

  lemma Value4(s: seq<bool>)
    requires |s| >= 4
    ensures Value(s[..4]) == 8 * Bit(s[0]) + 4 * Bit(s[1]) + 2 * Bit(s[2]) + Bit(s[3])
  {
    assert s[..1][..0] == [] && s[..2][..1] == s[..1] && s[..3][..2] == s[..2] && s[..4][..3] == s[..3];
    assert Value(s[..1]) == Bit(s[0]);
    assert Value(s[..2]) == 2 * Value(s[..1]) + Bit(s[1]);
    assert Value(s[..3]) == 2 * Value(s[..2]) + Bit(s[2]);
  }

  lemma Value8(s: seq<bool>)
    requires |s| == 8
    ensures Value(s) == 16 * Value(s[..4]) + 8 * Bit(s[4]) + 4 * Bit(s[5]) + 2 * Bit(s[6]) + Bit(s[7])
  {
    assert s[..5][..4] == s[..4] && s[..6][..5] == s[..5] && s[..7][..6] == s[..6];
    assert Value(s[..5]) == 2 * Value(s[..4]) + Bit(s[4]);
    assert Value(s[..6]) == 2 * Value(s[..5]) + Bit(s[5]);
    assert Value(s[..7]) == 2 * Value(s[..6]) + Bit(s[6]);
  }

  lemma ByteValue(b: u8)
    ensures Value(ByteBits(b)) == b
  {
    var s := ByteBits(b);
    Value4(s);
    Value8(s);
    var v7 := Drop(b, 128);
    assert b == 128 * Bit(s[0]) + v7 && v7 < 128;
    var v6 := Drop(v7, 64);
    assert v7 == 64 * Bit(s[1]) + v6 && v6 < 64;
    var v5 := Drop(v6, 32);
    assert v6 == 32 * Bit(s[2]) + v5 && v5 < 32;
    var v4 := Drop(v5, 16);
    assert v5 == 16 * Bit(s[3]) + v4 && v4 < 16;
    var v3 := Drop(v4, 8);
    assert v4 == 8 * Bit(s[4]) + v3 && v3 < 8;
    var v2 := Drop(v3, 4);
    assert v3 == 4 * Bit(s[5]) + v2 && v2 < 4;
    var v1 := Drop(v2, 2);
    assert v2 == 2 * Bit(s[6]) + v1 && v1 == Bit(s[7]);
  }

  lemma {:induction false} ValueBelow(s: seq<bool>)
    ensures Value(s) < Pow2(|s|)
  {
    if s != [] {
      ValueBelow(s[..|s| - 1]);
    }
  }

  /** A number has one list of bits of a given length. */
  lemma {:induction false} SameValue(s: seq<bool>, t: seq<bool>)
    requires |s| == |t| && Value(s) == Value(t)
    ensures s == t
    decreases |s|
  {
    if s != [] {
      var n := |s| - 1;
      var v, w := Value(s[..n]), Value(t[..n]);
      assert Value(s) == 2 * v + Bit(s[n]) && Value(t) == 2 * w + Bit(t[n]);
      hide Value;
      assert v == w && s[n] == t[n];
      SameValue(s[..n], t[..n]);
      assert s == s[..n] + [s[n]] && t == t[..n] + [t[n]];
    }
  }

  /** The byte with the given bits, most significant first. */
  function FromBits(s: seq<bool>): u8
    requires |s| == 8
  {
    ValueBelow(s);
    assert Pow2(4) == 16;
    Value(s)
  }

  lemma BitsBack(s: seq<bool>)
    requires |s| == 8
    ensures ByteBits(FromBits(s)) == s
  {
    hide ByteBits, Value;
    ByteValue(FromBits(s));
    SameValue(ByteBits(FromBits(s)), s);
  }

  lemma ByteBack(b: u8)
    ensures FromBits(ByteBits(b)) == b
  {
    hide ByteBits, Value;
    ByteValue(b);
  }

  /** A byte is known by its bits. */
  lemma SameBits(a: u8, b: u8)
    requires ByteBits(a) == ByteBits(b)
    ensures a == b
  {
    hide ByteBits, Value;
    ByteValue(a);
    ByteValue(b);
  }

  /** The four bytes of a word, top byte first. */
  function WordBytes(w: u32): (r: seq<u8>)
    ensures |r| == 4
  {
    [w / 0x100 / 0x100 / 0x100, w / 0x100 / 0x100 % 0x100, w / 0x100 % 0x100, w % 0x100]
  }

  /** Bit `r` of a word, counting from the top. */
  function BitOf(w: u32, r: nat): bool
    requires r < 32
  {
    ByteBits(WordBytes(w)[r / 8])[r % 8]
  }

  /** Byte `k` of a list of bytes, zero past its end. */
  function ByteAt(bs: seq<u8>, k: nat): u8 { if k < |bs| then bs[k] else 0 }

  function Word(a: u8, b: u8, c: u8, d: u8): u32 {
    a * 0x100_0000 + b * 0x1_0000 + c * 0x100 + d
  }

  /** Word `j` of a list of bytes: four bytes, the first on top, zeros past the end. */
  function WordAt(bs: seq<u8>, j: nat): u32 {
    Word(ByteAt(bs, 4 * j), ByteAt(bs, 4 * j + 1), ByteAt(bs, 4 * j + 2), ByteAt(bs, 4 * j + 3))
  }

  /** Bytes packed four to a word, the last word filled up with zeros. */
  function PackWords(bs: seq<u8>): seq<u32> { FirstWords(bs, (|bs| + 3) / 4) }

  function FirstWords(bs: seq<u8>, n: nat): (r: seq<u32>)
    ensures |r| == n
  {
    seq(n, j requires 0 <= j => WordAt(bs, j))
  }

  lemma NextWord(bs: seq<u8>, n: nat)
    ensures FirstWords(bs, n + 1) == FirstWords(bs, n) + [WordAt(bs, n)]
  {
  }

  lemma SplitByte(high: nat, low: u8)
    ensures (0x100 * high + low) / 0x100 == high && (0x100 * high + low) % 0x100 == low
  {
  }

  lemma WordOfBytes(a: u8, b: u8, c: u8, d: u8)
    ensures WordBytes(Word(a, b, c, d)) == [a, b, c, d]
  {
    SplitByte(0x1_0000 * a + 0x100 * b + c, d);
    SplitByte(0x100 * a + b, c);
    SplitByte(a, b);
  }

  /** Byte `m` of a list of words. */
  function ByteIn(ws: seq<u32>, m: nat): u8
    requires m < 4 * |ws|
  {
    WordBytes(ws[m / 4])[m % 4]
  }

  lemma ByteOfWords(bs: seq<u8>, m: nat)
    requires m < 4 * |PackWords(bs)|
    ensures ByteIn(PackWords(bs), m) == ByteAt(bs, m)
  {
    hide ByteAt, Word, WordBytes;
    var j := m / 4;
    WordOfBytes(ByteAt(bs, 4 * j), ByteAt(bs, 4 * j + 1), ByteAt(bs, 4 * j + 2), ByteAt(bs, 4 * j + 3));
    assert m == 4 * j + m % 4;
  }

  /** The last word is filled up with zeros. */
  lemma PaddedByte(bs: seq<u8>, m: nat)
    requires |bs| <= m < 4 * |PackWords(bs)|
    ensures ByteIn(PackWords(bs), m) == 0
  {
    hide PackWords, ByteIn;
    ByteOfWords(bs, m);
  }

  /** Byte `m` of a packed list sits in word m / 4, at place m % 4. */
  lemma PackedByte(bs: seq<u8>, m: nat)
    requires m < |bs|
    ensures m < 4 * |PackWords(bs)| && ByteIn(PackWords(bs), m) == bs[m]
  {
    hide ByteIn;
    ByteOfWords(bs, m);
  }
}
