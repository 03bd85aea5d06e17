/** Train search events: an address as decimal digits in an event ID, and which trains a search finds. */
module TrainSearch {
  import opened Bits

  const PREFIX: nat := 0x0900_99FF
  const PAD: nat := 15

  /** The six digit nibbles of an event ID, the highest first. */
  function DigitsOf(event: nat): (d: seq<nat>)
    ensures |d| == 6 && forall k :: 0 <= k < 6 ==> d[k] < 16
  {
    [NibbleAt(event, 0x1000_0000), NibbleAt(event, 0x100_0000), NibbleAt(event, 0x10_0000),
     NibbleAt(event, 0x1_0000), NibbleAt(event, 0x1000), NibbleAt(event, 0x100)]
  }

  function NibbleAt(event: nat, w: nat): (d: nat)
    requires 0 < w
    ensures d < 16
  {
    event / w % 16
  }

  function FlagsOf(event: nat): u8 { event % 0x100 }

  function EventOf(d: seq<nat>, flags: u8): nat
    requires |d| == 6
  {
    0x1_0000_0000 * PREFIX + 0x1000_0000 * d[0] + 0x100_0000 * d[1] + 0x10_0000 * d[2]
      + 0x1_0000 * d[3] + 0x1000 * d[4] + 0x100 * d[5] + flags
  }

  /** Taking a nibble out of a number. */
  lemma Nibble(event: nat, high: nat, d: nat, low: nat, w: nat)
    requires d < 16 && low < w && w in {0x100, 0x1000, 0x1_0000, 0x10_0000, 0x100_0000, 0x1000_0000}
    requires event == w * (16 * high + d) + low
    ensures NibbleAt(event, w) == d
  {
    var q := 16 * high + d;
    Quotient(q, low, w);
    assert NibbleAt(event, w) == q % 16;
  }

  lemma Quotient(q: nat, r: nat, w: nat)
    requires r < w && w in {0x100, 0x1000, 0x1_0000, 0x10_0000, 0x100_0000, 0x1000_0000}
    ensures (w * q + r) / w == q
  {
  }

  lemma Low(e: nat, high: nat, flags: u8)
    requires e == 0x100 * high + flags
    ensures FlagsOf(e) == flags
  {
  }

  lemma Top(high: nat, low: nat)
    requires low < 0x1_0000_0000
    ensures (0x1_0000_0000 * high + low) / 0x1_0000_0000 == high
  {
  }

  /** An event ID gives back its digits and flags. */
  lemma FieldsBack(d: seq<nat>, flags: u8)
    requires |d| == 6 && forall k :: 0 <= k < 6 ==> d[k] < 16
    ensures DigitsOf(EventOf(d, flags)) == d && FlagsOf(EventOf(d, flags)) == flags
    ensures EventOf(d, flags) / 0x1_0000_0000 == PREFIX
  {
    var low5 := flags as int;
    var low4 := 0x100 * d[5] + low5;
    var low3 := 0x1000 * d[4] + low4;
    var low2 := 0x1_0000 * d[3] + low3;
    var low1 := 0x10_0000 * d[2] + low2;
    var low0 := 0x100_0000 * d[1] + low1;
    var h0 := PREFIX;
    var h1 := 16 * h0 + d[0];
    var h2 := 16 * h1 + d[1];
    var h3 := 16 * h2 + d[2];
    var h4 := 16 * h3 + d[3];
    var h5 := 16 * h4 + d[4];
    var e := EventOf(d, flags);
    Low(e, 16 * h5 + d[5], flags);
    Top(PREFIX, 0x1000_0000 * d[0] + low0);
    hide NibbleAt, FlagsOf;
    Nibble(e, h0, d[0], low0, 0x1000_0000);
    Nibble(e, h1, d[1], low1, 0x100_0000);
    Nibble(e, h2, d[2], low2, 0x10_0000);
    Nibble(e, h3, d[3], low3, 0x1_0000);
    Nibble(e, h4, d[4], low4, 0x1000);
    Nibble(e, h5, d[5], low5, 0x100);
  }

  // ---- decimal digits ----------------------------------------------------------------------

  /** The decimal digits of a number, the highest first. */
  function Dec(a: nat): (d: seq<nat>)
    ensures d != [] && forall k :: 0 <= k < |d| ==> d[k] <= 9
  {
    if a < 10 then [a] else Dec(a / 10) + [a % 10]
  }

  lemma {:induction false} DecShort(a: nat)
    ensures a < 10 ==> |Dec(a)| == 1
    ensures a < 100 ==> |Dec(a)| <= 2
    ensures a < 1000 ==> |Dec(a)| <= 3
    ensures a < 10000 ==> |Dec(a)| <= 4
    ensures a < 100000 ==> |Dec(a)| <= 5
  {
    if 10 <= a {
      DecShort(a / 10);
    }
  }

  /** Right-justified digits, padded on the left. */
  function Padded(a: nat): (d: seq<nat>)
    requires a < 0x1_0000
    ensures |d| == 6
  {
    DecShort(a);
    seq(6 - |Dec(a)|, _ => PAD) + Dec(a)
  }

  /** The digits among the nibbles. */
  function Digits(d: seq<nat>): (s: seq<nat>)
    ensures |s| <= |d|
  {
    if d == [] then []
    else Digits(d[..|d| - 1]) + if d[|d| - 1] <= 9 then [d[|d| - 1]] else []
  }

  /** The address that the nibbles spell, in 16 bits. */
  function Spelled(d: seq<nat>): (a: nat)
    ensures a < 0x1_0000
  {
    if d == [] then 0
    else if d[|d| - 1] <= 9 then (Spelled(d[..|d| - 1]) * 10 + d[|d| - 1]) % 0x1_0000
    else Spelled(d[..|d| - 1])
  }

  lemma {:induction false} PadsSpellNothing(n: nat)
    ensures Spelled(seq(n, _ => PAD)) == 0 && Digits(seq(n, _ => PAD)) == []
    decreases n
  {
    if n != 0 {
      var d := seq(n, _ => PAD);
      assert d[..n - 1] == seq(n - 1, _ => PAD);
      PadsSpellNothing(n - 1);
    }
  }

  /** Decimal digits behind padding spell their number, and are the digits. */
  lemma {:induction false} DecSpells(n: nat, a: nat)
    requires a < 0x1_0000
    ensures Spelled(seq(n, _ => PAD) + Dec(a)) == a
    ensures Digits(seq(n, _ => PAD) + Dec(a)) == Dec(a)
    decreases a
  {
    hide Spelled, Digits, Dec;
    var pads := seq(n, _ => PAD);
    DecStep(a);
    if a < 10 {
      OneMoreDigit(pads, a);
      PadsSpellNothing(n);
    } else {
      DecSpells(n, a / 10);
      OneMoreDigit(pads + Dec(a / 10), a % 10);
      assert pads + Dec(a) == pads + Dec(a / 10) + [a % 10];
    }
  }

  lemma OneMoreDigit(d: seq<nat>, x: nat)
    requires x <= 9
    ensures Spelled(d + [x]) == (Spelled(d) * 10 + x) % 0x1_0000 && Digits(d + [x]) == Digits(d) + [x]
  {
    assert (d + [x])[..|d|] == d;
  }

  /** A search event for any address and flags is in the search space and gives back both. */
  lemma AddressBack(a: u16, flags: u8)
    ensures var e := EventOf(Padded(a), flags);
      e / 0x1_0000_0000 == PREFIX && Spelled(DigitsOf(e)) == a && FlagsOf(e) == flags
  {
    DecShort(a);
    DecSpells(6 - |Dec(a)|, a);
    assert forall k :: 0 <= k < 6 ==> Padded(a)[k] < 16;
    FieldsBack(Padded(a), flags);
  }

  /** An event as it is written in hexadecimal: the address's decimal digits stand in it as they are, behind F's. */
  lemma EventReads()
    ensures EventOf(Padded(1234), 0x60) == 0x0900_99FF_FF12_3460 && EventOf(Padded(3), 0) == 0x0900_99FF_FFFF_F300
  {
    assert Dec(1234) == [1, 2, 3, 4];
    assert Dec(3) == [3];
  }

  // ---- matching ----------------------------------------------------------------------------

  predicate IsExact(flags: u8) { flags / 0x40 % 2 == 1 }

  /** Exactly, or as a prefix. */
  predicate Matches(train: u16, d: seq<nat>, flags: u8) {
    var search := Digits(d);
    search != [] && if IsExact(flags) then search == Dec(train) else search <= Dec(train)
  }

  /** `t` without its last `k` decimal digits. */
  function CutDigits(t: nat, k: nat): nat { if k == 0 then t else CutDigits(t / 10, k - 1) }

  lemma {:induction false} DecApart(a: nat, b: nat)
    ensures Dec(a) == Dec(b) ==> a == b
    decreases a
  {
    if 10 <= a && 10 <= b && Dec(a) == Dec(b) {
      assert Dec(a)[..|Dec(a)| - 1] == Dec(a / 10);
      assert Dec(b)[..|Dec(b)| - 1] == Dec(b / 10);
      assert Dec(a)[|Dec(a)| - 1] == a % 10;
      DecApart(a / 10, b / 10);
    } else if a < 10 && b < 10 {
      assert Dec(a)[0] == a && Dec(b)[0] == b;
    } else if Dec(a) == Dec(b) {
      LongDec(if a < 10 then b else a);
    }
  }

  lemma LongDec(a: nat)
    requires 10 <= a
    ensures 2 <= |Dec(a)|
  {
  }

  lemma {:induction false} CutIsPrefix(t: nat, k: nat)
    requires k < |Dec(t)|
    ensures Dec(CutDigits(t, k)) <= Dec(t)
    decreases k
  {
    if k != 0 {
      assert 10 <= t && Dec(t) == Dec(t / 10) + [t % 10];
      CutIsPrefix(t / 10, k - 1);
    }
  }

  lemma {:induction false} PrefixIsCut(a: nat, t: nat) returns (k: nat)
    requires Dec(a) <= Dec(t)
    ensures k < |Dec(t)| && CutDigits(t, k) == a
    decreases t
  {
    DecApart(a, t);
    if Dec(a) == Dec(t) {
      k := 0;
    } else {
      assert 10 <= t && Dec(t) == Dec(t / 10) + [t % 10];
      assert Dec(a) <= Dec(t / 10);
      k := PrefixIsCut(a, t / 10);
      k := k + 1;
    }
  }

  /** A search's digits start a train's exactly if cutting off some of the train's last digits leaves the search. */
  lemma PrefixMeans(a: nat, t: nat)
    ensures Dec(a) <= Dec(t) <==> exists k: nat :: k < |Dec(t)| && CutDigits(t, k) == a
  {
    hide Dec, CutDigits;
    if Dec(a) <= Dec(t) {
      var k := PrefixIsCut(a, t);
    }
    forall k: nat | k < |Dec(t)|
      ensures Dec(CutDigits(t, k)) <= Dec(t)
    {
      CutIsPrefix(t, k);
    }
  }

  /** A search created for address `a` finds train `t` exactly if they are equal, or, without the exact flag, if
      `a` is `t` with some of its last digits cut off. */
  lemma SearchFinds(t: u16, a: u16, flags: u8)
    ensures Matches(t, DigitsOf(EventOf(Padded(a), flags)), flags) <==>
            if IsExact(flags) then t == a else exists k: nat :: k < |Dec(t)| && CutDigits(t, k) == a
  {
    DecShort(a);
    DecSpells(6 - |Dec(a)|, a);
    assert forall k :: 0 <= k < 6 ==> Padded(a)[k] < 16;
    FieldsBack(Padded(a), flags);
    DecApart(a, t);
    PrefixMeans(a, t);
  }

  // ---- the code ------------------------------------------------------------------------------

  lemma DecStep(a: nat)
    ensures Dec(a) == if a < 10 then [a] else Dec(a / 10) + [a % 10]
  {
  }

  method CreateEvent(address: u16, flags: u8) returns (event: nat)
    ensures event == EventOf(Padded(address), flags)
  {
    hide EventOf, Dec;
    DecShort(address);
    DecStep(0);
    var digits := new nat[6](_ => PAD);
    var i := 5;
    if address == 0 {
      digits[i] := 0;
    } else {
      var a: nat := address;
      while a > 0 && i >= 0
        invariant -1 <= i <= 5 && a <= address
        invariant forall k :: 0 <= k <= i ==> digits[k] == PAD
        invariant a == 0 ==> digits[i + 1..] == Dec(address)
        invariant a != 0 ==> |Dec(a)| <= i + 1 && Dec(a) + digits[i + 1..] == Dec(address)
      {
        ghost var tail := digits[i + 1..];
        DecStep(a);
        digits[i] := a % 10;
        assert digits[i..] == [a % 10] + tail;
        i := i - 1;
        a := a / 10;
      }
    }
    assert digits[..] == Padded(address);
    event := EventOf(digits[..], flags);
  }

  method Address(event: nat) returns (a: u16)
    ensures a == Spelled(DigitsOf(event))
  {
    hide DigitsOf;
    var digits := DigitsOf(event);
    a := 0;
    var i := 0;
    while i < 6
      invariant 0 <= i <= 6 && a == Spelled(digits[..i])
    {
      assert digits[..i + 1][..i] == digits[..i];
      if digits[i] <= 9 {
        a := (a as int * 10 + digits[i]) % 0x1_0000;
      }
      i := i + 1;
    }
    assert digits[..6] == digits;
  }

  /** The decimal digits of a train's address. */
  method TrainDigits(address: u16) returns (d: seq<nat>)
    ensures d == Dec(address)
  {
    d := [];
    if address == 0 {
      return [0];
    }
    var t: nat := address;
    while t > 0
      invariant t == 0 ==> d == Dec(address)
      invariant t != 0 ==> Dec(t) + d == Dec(address)
    {
      ghost var tail := d;
      d := [t % 10] + d;
      assert t < 10 ==> Dec(t) + tail == d;
      assert 10 <= t ==> Dec(t) + tail == Dec(t / 10) + d;
      t := t / 10;
    }
  }

  lemma NextDigit(d: seq<nat>, i: nat)
    requires i < |d|
    ensures Digits(d[..i + 1]) == Digits(d[..i]) + if d[i] <= 9 then [d[i]] else []
    ensures Digits(d[..0]) == []
  {
    assert d[..i + 1][..i] == d[..i];
  }

  method SearchDigits(digits: seq<nat>) returns (search: seq<nat>)
    requires |digits| == 6
    ensures search == Digits(digits)
  {
    hide Digits;
    search := [];
    NextDigit(digits, 0);
    var i := 0;
    while i < 6
      invariant 0 <= i <= 6 && search == Digits(digits[..i])
    {
      NextDigit(digits, i);
      if digits[i] <= 9 {
        search := search + [digits[i]];
      }
      i := i + 1;
    }
    assert digits[..6] == digits;
  }

  method DoesAddressMatch(train: u16, digits: seq<nat>, flags: u8) returns (r: bool)
    requires |digits| == 6
    ensures r == Matches(train, digits, flags)
  {
    hide Dec, Digits, IsExact;
    var trainDigits := TrainDigits(train);
    var search := SearchDigits(digits);
    if |search| == 0 {
      return false;
    }
    if IsExact(flags) {
      if |search| != |trainDigits| {
        return false;
      }
    } else if |search| > |trainDigits| {
      return false;
    }
    var i := 0;
    while i < |search|
      invariant 0 <= i <= |search| <= |trainDigits| && search[..i] == trainDigits[..i]
    {
      if search[i] != trainDigits[i] {
        return false;
      }
      i := i + 1;
    }
    assert search == trainDigits[..|search|];
    return true;
  }
}
