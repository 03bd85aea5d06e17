/** Function group instructions, and a decoder that follows them. */
module Functions {
  import opened Bits

  const MAX_FN: nat := 68
  const GROUPS: nat := 10

  /** F0 to F68, on or off. */
  type Fns = s: seq<bool> | |s| == 69 witness seq(69, _ => false)

  function AllOff(): Fns { seq(69, _ => false) }

  /** The group whose instruction carries a function. */
  function GroupOf(fn: nat): nat
    requires fn <= MAX_FN
  {
    if fn <= 4 then 1
    else if fn <= 8 then 2
    else if fn <= 12 then 3
    else if fn <= 20 then 4
    else if fn <= 28 then 5
    else if fn <= 36 then 6
    else if fn <= 44 then 7
    else if fn <= 52 then 8
    else if fn <= 60 then 9
    else 10
  }

  /** `n` functions from `first` on, the highest first. */
  function Slice(f: Fns, first: nat, n: nat): (r: seq<bool>)
    requires first + n <= 69
    ensures |r| == n
  {
    seq(n, k requires 0 <= k < n => f[first + n - 1 - k])
  }

  /** The instruction for a group. */
  function Encode(g: nat, f: Fns): seq<u8>
    requires 1 <= g <= GROUPS
  {
    match g
    case 1 => [FromBits([true, false, false, f[0]] + Slice(f, 1, 4))]
    case 2 => [FromBits([true, false, true, true] + Slice(f, 5, 4))]
    case 3 => [FromBits([true, false, true, false] + Slice(f, 9, 4))]
    case 4 => [0xDE, FromBits(Slice(f, 13, 8))]
    case 5 => [0xDF, FromBits(Slice(f, 21, 8))]
    case 6 => [0xD8, FromBits(Slice(f, 29, 8))]
    case 7 => [0xD9, FromBits(Slice(f, 37, 8))]
    case 8 => [0xDA, FromBits(Slice(f, 45, 8))]
    case 9 => [0xDB, FromBits(Slice(f, 53, 8))]
    case _ => [0xDC, FromBits(Slice(f, 61, 8))]
  }

  /** The functions of a decoder that had `s`, once the last `n` bits have set the functions from `first` on. */
  function Carried(s: Fns, first: nat, n: nat, bits: seq<bool>): Fns
    requires |bits| == 8 && n <= 8
  {
    seq(69, k requires 0 <= k < 69 => if first <= k < first + n then bits[7 - (k - first)] else s[k])
  }

  /** A decoder's reading of a function group instruction. */
  function Decode(s: Fns, p: seq<u8>): Fns {
    if |p| == 1 then
      var bits := ByteBits(p[0]);
      if 0x80 <= p[0] < 0xA0 then Carried(s, 1, 4, bits)[0 := bits[3]]
      else if 0xB0 <= p[0] < 0xC0 then Carried(s, 5, 4, bits)
      else if 0xA0 <= p[0] < 0xB0 then Carried(s, 9, 4, bits)
      else s
    else if |p| == 2 then
      var bits := ByteBits(p[1]);
      if p[0] == 0xDE then Carried(s, 13, 8, bits)
      else if p[0] == 0xDF then Carried(s, 21, 8, bits)
      else if 0xD8 <= p[0] <= 0xDC then Carried(s, 29 + 8 * (p[0] - 0xD8), 8, bits)
      else s
    else s
  }

  lemma SliceBack(f: Fns, first: nat, n: nat, head: seq<bool>, s: Fns, fn: nat)
    requires first + n <= 69 && |head| + n == 8 && fn <= MAX_FN
    ensures Carried(s, first, n, head + Slice(f, first, n))[fn] == if first <= fn < first + n then f[fn] else s[fn]
  {
  }

  /** The kind of a short instruction shows in its first bits. */
  lemma Prefix(b: seq<bool>)
    requires |b| == 8 && b[0] && !b[1]
    ensures !b[2] ==> 0x80 <= FromBits(b) < 0xA0
    ensures b[2] && !b[3] ==> 0xA0 <= FromBits(b) < 0xB0
    ensures b[2] && b[3] ==> 0xB0 <= FromBits(b) < 0xC0
  {
    Value4(b);
    Value8(b);
  }

  lemma ShortGroup(g: nat, head: seq<bool>, first: nat, f: Fns, s: Fns, fn: nat)
    requires fn <= MAX_FN && |head| == 4 && head[0] && !head[1]
    requires match g case 1 => first == 1 && !head[2] && head[3] == f[0]
                    case 2 => first == 5 && head[2] && head[3]
                    case 3 => first == 9 && head[2] && !head[3]
                    case _ => false
    ensures Decode(s, [FromBits(head + Slice(f, first, 4))])[fn] == if GroupOf(fn) == g then f[fn] else s[fn]
  {
    hide ByteBits, FromBits, Slice, Carried;
    var bits := head + Slice(f, first, 4);
    BitsBack(bits);
    Prefix(bits);
    SliceBack(f, first, 4, head, s, fn);
  }

  lemma LongGroup(g: nat, command: u8, first: nat, f: Fns, s: Fns, fn: nat)
    requires fn <= MAX_FN && 4 <= g <= GROUPS
    requires if g == 4 then command == 0xDE && first == 13 else if g == 5 then command == 0xDF && first == 21
             else command == 0xD8 + g - 6 && first == 29 + 8 * (g - 6)
    ensures Decode(s, [command, FromBits(Slice(f, first, 8))])[fn] == if GroupOf(fn) == g then f[fn] else s[fn]
  {
    hide ByteBits, FromBits, Slice, Carried;
    BitsBack(Slice(f, first, 8));
    SliceBack(f, first, 8, [], s, fn);
    assert [] + Slice(f, first, 8) == Slice(f, first, 8);
  }

  /** A group's instruction brings a decoder's functions of that group in step, and leaves the others alone. */
  lemma GroupAgrees(g: nat, f: Fns, s: Fns, fn: nat)
    requires 1 <= g <= GROUPS && fn <= MAX_FN
    ensures Decode(s, Encode(g, f))[fn] == if GroupOf(fn) == g then f[fn] else s[fn]
  {
    hide FromBits, Slice, Decode, GroupOf;
    match g
    case 1 => ShortGroup(1, [true, false, false, f[0]], 1, f, s, fn);
    case 2 => ShortGroup(2, [true, false, true, true], 5, f, s, fn);
    case 3 => ShortGroup(3, [true, false, true, false], 9, f, s, fn);
    case 4 => LongGroup(4, 0xDE, 13, f, s, fn);
    case 5 => LongGroup(5, 0xDF, 21, f, s, fn);
    case 6 => LongGroup(6, 0xD8, 29, f, s, fn);
    case 7 => LongGroup(7, 0xD9, 37, f, s, fn);
    case 8 => LongGroup(8, 0xDA, 45, f, s, fn);
    case 9 => LongGroup(9, 0xDB, 53, f, s, fn);
    case _ => LongGroup(10, 0xDC, 61, f, s, fn);
  }
}
